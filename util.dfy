/**
 * The small utilities of the helper file: get_filename_ext, strtohex,
 * media_block_is_empty, memsize_parse and strtou32. The number parsers they
 * call (simple_strtol, simple_strtoul, simple_strtoull), cpu_to_be32 and the
 * media block read are parameters.
 */
module Util {
  import opened Wrappers
  import opened Bytes

  // ---------------------------------------------------------------- get_filename_ext

  /** strrchr: the position of the last c in s, if any. */
  function LastIndexOf(s: string, c: char): (r: Option<nat>)
    ensures r.None? <==> c !in s
    ensures r.Some? ==> r.value < |s| && s[r.value] == c && c !in s[r.value + 1..]
  {
    if s == [] then None
    else if s[|s| - 1] == c then Some(|s| - 1)
    else
      var r := LastIndexOf(s[..|s| - 1], c);
      assert s == s[..|s| - 1] + [s[|s| - 1]];
      if r.Some? then
        assert s[r.value + 1..] == s[..|s| - 1][r.value + 1..] + [s[|s| - 1]];
        r
      else r
  }

  /**
   * get_filename_ext: the text after the last '.', or "" when there is no
   * file name, no dot, or the only candidate dot starts the name.
   */
  function GetFilenameExt(filename: Option<string>): (r: string)
    ensures filename.None? || '.' !in filename.value ==> r == ""
    ensures filename.Some? ==> '.' !in r
    ensures filename.Some? && r != "" ==>
      var s := filename.value;
      |r| + 1 < |s| && s[|s| - |r|..] == r && s[|s| - |r| - 1] == '.'
    ensures filename.Some? ==>
      forall i :: 0 <= i < |filename.value| && filename.value[i] == '.' && '.' !in filename.value[i + 1..] ==>
        r == if i == 0 then "" else filename.value[i + 1..]
  {
    match filename
    case None => ""
    case Some(s) =>
      match LastIndexOf(s, '.')
      case None => ""
      case Some(i) => if i == 0 then "" else s[i + 1..]
  }

  /** A c with no c after it is the last one. */
  lemma {:induction false} LastIndexOfAt(s: string, c: char, i: nat)
    requires i < |s| && s[i] == c && c !in s[i + 1..]
    ensures LastIndexOf(s, c) == Some(i)
    decreases |s|
  {
    if i < |s| - 1 {
      assert s[|s| - 1] == s[i + 1..][|s| - 2 - i];
      var t := s[..|s| - 1];
      assert t[i + 1..] == s[i + 1..][..|s| - 2 - i];
      LastIndexOfAt(t, c, i);
    }
  }

  /** A name made of a non-empty base, a dot and a dot-free extension gives that extension back. */
  lemma ExtensionRoundTrip(base: string, ext: string)
    requires base != [] && '.' !in ext
    ensures GetFilenameExt(Some(base + "." + ext)) == ext
  {
    var s := base + "." + ext;
    assert s[|base|] == '.';
    assert s[|base| + 1..] == ext;
    LastIndexOfAt(s, '.', |base|);
  }

  /** A dot-file with no other dot, such as ".config", has no extension. */
  lemma LeadingDotIsNoExtension(ext: string)
    requires '.' !in ext
    ensures GetFilenameExt(Some("." + ext)) == ""
  {
    var s := "." + ext;
    assert s[1..] == ext;
    LastIndexOfAt(s, '.', 0);
  }

  // ---------------------------------------------------------------- strtohex

  /** Characters per output word. */
  const STR_HEX_CHUNK: nat := 8

  /** The characters strncpy copies for word j: up to STR_HEX_CHUNK of them, from offset 8 * j. */
  function HexSlice(inp: string, j: nat): (r: string)
    requires STR_HEX_CHUNK * j <= |inp|
    ensures |r| <= STR_HEX_CHUNK
  {
    var i := STR_HEX_CHUNK * j;
    if |inp| - i < STR_HEX_CHUNK then inp[i..] else inp[i..i + STR_HEX_CHUNK]
  }

  /** Every slice the loop reads starts inside the string or at its terminator. */
  predicate SlicesInside(inp: string, len: int)
  {
    len <= 0 || STR_HEX_CHUNK * (len - 1) <= |inp|
  }

  /** The slices for words 0 .. n-1, concatenated. */
  function SlicesUpTo(inp: string, n: nat): string
    requires SlicesInside(inp, n)
  {
    if n == 0 then "" else SlicesUpTo(inp, n - 1) + HexSlice(inp, n - 1)
  }

  /** The slices never overlap and leave no gap: together they are the first 8 * n characters (or all of them). */
  lemma {:induction false} SlicesCoverPrefix(inp: string, n: nat)
    requires SlicesInside(inp, n)
    ensures SlicesUpTo(inp, n) == if STR_HEX_CHUNK * n <= |inp| then inp[..STR_HEX_CHUNK * n] else inp
  {
    if n > 0 {
      SlicesCoverPrefix(inp, n - 1);
      var i := STR_HEX_CHUNK * (n - 1);
      assert inp[..i] + inp[i..] == inp;
      if i + STR_HEX_CHUNK <= |inp| {
        assert inp[..i] + inp[i..i + STR_HEX_CHUNK] == inp[..i + STR_HEX_CHUNK];
      }
    }
  }

  /**
   * strtohex: out[j] becomes cpu_to_be32(simple_strtol(slice j, NULL, 16)) for
   * every j below len; parse and toBe32 stand for those two calls.
   */
  method StrToHex(inp: string, out: array<nat>, len: int, parse: string -> int, toBe32: int -> nat)
    requires SlicesInside(inp, len) && len <= out.Length
    modifies out
    ensures forall j :: 0 <= j < len ==> out[j] == toBe32(parse(HexSlice(inp, j)))
    ensures forall j :: 0 <= j < out.Length && !(j < len) ==> out[j] == old(out[j])
  {
    var i, j := 0, 0;
    while j < len
      invariant 0 <= j && (j == 0 || j <= len) && i == STR_HEX_CHUNK * j
      invariant forall k :: 0 <= k < j ==> out[k] == toBe32(parse(HexSlice(inp, k)))
      invariant forall k :: j <= k < out.Length ==> out[k] == old(out[k])
    {
      var tmp := HexSlice(inp, j);
      out[j] := toBe32(parse(tmp));
      i, j := i + STR_HEX_CHUNK, j + 1;
    }
  }

  // ---------------------------------------------------------------- media_block_is_empty

  /** ~0 as a uint64_t. */
  const ALL_ONES_64: nat := 0xFFFF_FFFF_FFFF_FFFF

  /** The word an erased block holds: all ones on NAND, zero on any other medium. */
  function EmptyPattern(storageMedia: string): nat
  {
    if storageMedia == "nand" then ALL_ONES_64 else 0
  }

  /** The byte an erased block holds, the same on every byte of the pattern. */
  function EmptyByte(storageMedia: string): byte
  {
    if storageMedia == "nand" then 0xff else 0
  }

  /** The i-th uint64_t of a block read in host (little-endian) order. */
  function Word(block: seq<byte>, i: nat): nat
    requires 8 * i + 8 <= |block|
  {
    LittleEndian(block[8 * i..8 * i + 8])
  }

  /** The word scan: the first `words` words all hold the empty pattern. */
  predicate WordsEmpty(storageMedia: string, block: seq<byte>, words: nat)
    requires 8 * words <= |block|
  {
    forall i :: 0 <= i < words ==> Word(block, i) == EmptyPattern(storageMedia)
  }

  /** In bytes: the first 8 * `words` bytes all hold the empty byte. */
  predicate BytesEmpty(storageMedia: string, block: seq<byte>, words: nat)
    requires 8 * words <= |block|
  {
    forall k :: 0 <= k < 8 * words ==> block[k] == EmptyByte(storageMedia)
  }

  /** A word holds the pattern exactly when each of its bytes holds the empty byte, whatever the byte order. */
  lemma WordEmptyIffBytes(storageMedia: string, block: seq<byte>, i: nat)
    requires 8 * i + 8 <= |block|
    ensures Word(block, i) == EmptyPattern(storageMedia) <==>
      forall k :: 8 * i <= k < 8 * i + 8 ==> block[k] == EmptyByte(storageMedia)
  {
    var w := block[8 * i..8 * i + 8];
    assert forall k :: 8 * i <= k < 8 * i + 8 ==> block[k] == w[k - 8 * i];
    assert forall m :: 0 <= m < 8 ==> w[m] == block[8 * i + m];
    if storageMedia == "nand" {
      AllOnesWord(w);
      assert Pow256(8) - 1 == ALL_ONES_64;
    } else {
      ZeroWord(w);
    }
  }

  /** The word scan and the byte scan agree. */
  lemma {:induction false} WordsEmptyIffBytesEmpty(storageMedia: string, block: seq<byte>, words: nat)
    requires 8 * words <= |block|
    ensures WordsEmpty(storageMedia, block, words) <==> BytesEmpty(storageMedia, block, words)
  {
    if words > 0 {
      WordsEmptyIffBytesEmpty(storageMedia, block, words - 1);
      WordEmptyIffBytes(storageMedia, block, words - 1);
    }
  }

  /**
   * media_block_is_empty as a function: -1 when the block size is 0, the
   * buffer cannot be allocated or the read fails; otherwise 1 when every
   * whole 8-byte word of the block is erased and 0 when one is not.
   * `read` is what media_read_block put in the buffer, None for a failure.
   */
  function MediaBlockIsEmptySpec(storageMedia: string, blockSize: nat, allocOk: bool,
                                 read: Option<seq<byte>>): (r: int)
    requires read.Some? ==> |read.value| == blockSize
    ensures r == -1 || r == 0 || r == 1
    ensures r == -1 <==> blockSize == 0 || !allocOk || read.None?
    ensures r == 1 <==> blockSize > 0 && allocOk && read.Some? && BytesEmpty(storageMedia, read.value, blockSize / 8)
  {
    if blockSize == 0 || !allocOk || read.None? then -1
    else
      WordsEmptyIffBytesEmpty(storageMedia, read.value, blockSize / 8);
      if WordsEmpty(storageMedia, read.value, blockSize / 8) then 1 else 0
  }

  /** Bytes past the last whole word are not examined. */
  lemma TrailingBytesIgnored(storageMedia: string, block: seq<byte>, tail: seq<byte>)
    requires |block| % 8 == 0 && |tail| < 8
    ensures MediaBlockIsEmptySpec(storageMedia, |block| + |tail|, true, Some(block + tail)) ==
      MediaBlockIsEmptySpec(storageMedia, |block|, true, Some(block)) || |block| == 0
  {
    if |block| > 0 {
      var b := block + tail;
      assert (|block| + |tail|) / 8 == |block| / 8;
      assert forall k :: 0 <= k < |block| ==> b[k] == block[k];
    }
  }

  /** media_block_is_empty: scan the block word by word, stopping at the first word that is not erased. */
  method MediaBlockIsEmpty(storageMedia: string, blockSize: nat, allocOk: bool,
                           read: Option<seq<byte>>) returns (ret: int)
    requires read.Some? ==> |read.value| == blockSize
    ensures ret == MediaBlockIsEmptySpec(storageMedia, blockSize, allocOk, read)
  {
    ret := -1;
    var pattern := EmptyPattern(storageMedia);
    if blockSize == 0 || !allocOk || read.None? {
      return;
    }
    var buf := read.value;
    ret := 1;
    var i := 0;
    while i < blockSize / 8
      invariant 0 <= i <= blockSize / 8
      invariant ret == 1 && WordsEmpty(storageMedia, buf, i)
    {
      if Word(buf, i) != pattern {
        ret := 0;  // the first word that differs from the pattern decides
        break;
      }
      i := i + 1;
    }
    WordsEmptyIffBytesEmpty(storageMedia, buf, blockSize / 8);
  }

  // ---------------------------------------------------------------- memsize_parse and strtou32

  const U64: nat := 0x1_0000_0000_0000_0000
  const U32: nat := 0x1_0000_0000

  type u64 = x: nat | x < U64

  /** ret <<= 10 on a u64. */
  function Shl10(v: u64): u64
  {
    (v * 1024) % U64
  }

  /** The character *retptr points at after the number: the terminator when the number ends the string. */
  function NextChar(s: string, end: nat): char
  {
    if end < |s| then s[end] else '\0'
  }

  /** The factor a suffix stands for: G, M and K (either case) are 2^30, 2^20 and 2^10. */
  function Multiplier(c: char): nat
  {
    if c == 'G' || c == 'g' then 0x4000_0000
    else if c == 'M' || c == 'm' then 0x10_0000
    else if c == 'K' || c == 'k' then 0x400
    else 1
  }

  /** Reducing before a further multiplication does not change the result modulo 2^64. */
  lemma MulMod(a: nat, b: nat)
    ensures (a % U64) * b % U64 == a * b % U64
  {
    var q, r := a / U64, a % U64;
    assert a * b == q * b * U64 + r * b;
  }

  /** One, two and three shifts by 10 bits multiply by 2^10, 2^20 and 2^30 modulo 2^64. */
  lemma ShiftsMultiply(v: u64)
    ensures Shl10(v) == v * 0x400 % U64
    ensures Shl10(Shl10(v)) == v * 0x10_0000 % U64
    ensures Shl10(Shl10(Shl10(v))) == v * 0x4000_0000 % U64
  {
    MulMod(v * 0x400, 0x400);
    assert v * 0x400 * 0x400 == v * 0x10_0000;
    MulMod(v * 0x10_0000, 0x400);
    assert v * 0x10_0000 * 0x400 == v * 0x4000_0000;
  }

  /**
   * memsize_parse: the number strtoull finds, shifted by 10 bits for each of
   * the suffix cases the switch falls through (G, then M, then K), with the
   * end pointer moved past a suffix. strtoull gives the value and the
   * number of characters it consumed.
   */
  function MemsizeParse(s: string, strtoull: string -> (u64, nat)): (r: (u64, nat))
    requires strtoull(s).1 <= |s|
    ensures r.0 == strtoull(s).0 * Multiplier(NextChar(s, strtoull(s).1)) % U64
    ensures r.1 == if Multiplier(NextChar(s, strtoull(s).1)) == 1 then strtoull(s).1 else strtoull(s).1 + 1
  {
    var (v, end) := strtoull(s);
    var c := NextChar(s, end);
    ShiftsMultiply(v);
    var g := if c == 'G' || c == 'g' then Shl10(v) else v;
    var m := if c == 'G' || c == 'g' || c == 'M' || c == 'm' then Shl10(g) else g;
    var k := if Multiplier(c) != 1 then Shl10(m) else m;
    (k, if Multiplier(c) != 1 then end + 1 else end)
  }

  /** A suffix moves the end pointer by exactly one character; anything else leaves value and pointer alone. */
  lemma SuffixConsumesOneChar(s: string, strtoull: string -> (u64, nat))
    requires strtoull(s).1 <= |s|
    ensures Multiplier(NextChar(s, strtoull(s).1)) == 1 ==> MemsizeParse(s, strtoull) == strtoull(s)
    ensures Multiplier(NextChar(s, strtoull(s).1)) != 1 ==>
      MemsizeParse(s, strtoull).1 == strtoull(s).1 + 1 <= |s|
  {
  }

  /** -EINVAL, from the errno values of U-Boot (EINVAL is 22). */
  const EINVAL: int := 22

  /**
   * strtou32: the parsed unsigned long truncated to 32 bits is stored in
   * every case; the return is 0 when the number is non-empty and is the whole
   * string, -EINVAL otherwise. strtoul gives the value and the number of
   * characters consumed.
   */
  function StrToU32(s: string, base: nat, strtoul: (string, nat) -> (nat, nat)): (r: (int, nat))
    requires strtoul(s, base).1 <= |s|
    ensures r.1 < U32 && r.1 == strtoul(s, base).0 % U32
    ensures r.0 == 0 <==> 0 < strtoul(s, base).1 == |s|
    ensures r.0 == 0 || r.0 == -EINVAL
  {
    var (v, end) := strtoul(s, base);
    // nothing parsed, or characters left after the number
    (if end == 0 || end < |s| then -EINVAL else 0, v % U32)
  }
}
