/**
 * The build-time configuration the helpers are compiled against. Each field is
 * a CONFIG_* macro of the board; the model takes them as parameters.
 */
module BoardConfig {
  datatype Build = Build(
    supported: bv32,  // CONFIG_SUPPORTED_SOURCES: bit i enables table entry i
    mtdparts: bool,   // CONFIG_CMD_MTDPARTS
    digiUbi: bool,    // CONFIG_DIGI_UBI
    chunk: nat        // CONFIG_OTF_CHUNK, bytes per on-the-fly chunk
  )
}
