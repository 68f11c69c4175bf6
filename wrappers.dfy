/** Optional values: a C pointer that may be NULL, an environment variable that may be unset. */
module Wrappers {
  datatype Option<+T> = None | Some(value: T)
}
