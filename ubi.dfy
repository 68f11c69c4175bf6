/**
 * is_ubi_partition: read the first page of a NAND partition and compare its
 * first word with the UBI erase-counter magic "UBI#".
 */
module UbiProbe {
  import opened Wrappers
  import opened Bytes

  /** "UBI#" read as a little-endian word. */
  const UBI_MAGIC: nat := 0x23494255

  /** The magic as it sits on the flash: 'U', 'B', 'I', '#'. */
  const UBI_HEADER: seq<byte> := [0x55, 0x42, 0x49, 0x23]

  /** The outcome of a probe: the verdict, and whether the page buffer was released. */
  datatype Probe = Probe(isUbi: bool, freed: bool)

  /**
   * The probe as written: malloc(writesize) may fail; nand_read_skip_bad of one
   * page gives the page or fails (None); the first sizeof(unsigned long) bytes
   * of the page are compared with the magic. The buffer is freed iff it was
   * allocated.
   */
  function IsUbiAsWritten(allocOk: bool, page: Option<seq<byte>>, longBytes: nat): (p: Probe)
    requires page.Some? ==> |page.value| >= longBytes
    ensures p.freed == allocOk
    ensures p.isUbi <==> allocOk && page.Some? && LittleEndian(page.value[..longBytes]) == UBI_MAGIC
  {
    if !allocOk then Probe(false, false)
    else
      match page
      case None => Probe(false, true)
      case Some(b) => Probe(LittleEndian(b[..longBytes]) == UBI_MAGIC, true)
  }

  /** The low base-256 digit and the rest of a number are unique. */
  lemma DigitOf(x: nat, d: nat, rest: nat)
    requires x == d + 256 * rest && d < 256
    ensures d == x % 256 && rest == x / 256
  {
  }

  /** A 32-bit first word equals the magic exactly when the page starts with "UBI#". */
  lemma MagicWordIsHeader(b: seq<byte>)
    requires |b| == 4
    ensures LittleEndian(b) == UBI_MAGIC <==> b == UBI_HEADER
  {
    var b0, b1, b2, b3: nat := b[0], b[1], b[2], b[3];
    assert LittleEndian(b) == b0 + 256 * (b1 + 256 * (b2 + 256 * b3)) by {
      UnfoldStep(b, 3);
      UnfoldStep(b, 2);
      UnfoldStep(b, 1);
      UnfoldStep(b, 0);
      assert b[4..] == [];
    }
    if LittleEndian(b) == UBI_MAGIC {
      var r2 := b2 + 256 * b3;
      var r1 := b1 + 256 * r2;
      DigitOf(UBI_MAGIC, b0, r1);
      DigitOf(0x234942, b1, r2);
      DigitOf(0x2349, b2, b3);
      assert b0 == 0x55 && b1 == 0x42 && b2 == 0x49 && b3 == 0x23;
      assert b == [b[0], b[1], b[2], b[3]];
    }
  }

  /**
   * The probe with the 32-bit comparison its comment describes: true iff the
   * buffer was allocated, the read succeeded and the page starts with "UBI#".
   * Any allocation or read failure reads as "not UBI".
   */
  function IsUbiPartition(allocOk: bool, page: Option<seq<byte>>): (p: Probe)
    requires page.Some? ==> |page.value| >= 4
    ensures p.freed == allocOk
    ensures p.isUbi <==> allocOk && page.Some? && page.value[..4] == UBI_HEADER
  {
    match page
    case Some(b) => MagicWordIsHeader(b[..4]); IsUbiAsWritten(allocOk, page, 4)
    case None => IsUbiAsWritten(allocOk, page, 4)
  }

  /** Where unsigned long is 32 bits wide the code as written is the intended probe. */
  lemma AsWrittenAgreesOn32Bit(allocOk: bool, page: Option<seq<byte>>)
    requires page.Some? ==> |page.value| >= 4
    ensures IsUbiAsWritten(allocOk, page, 4) == IsUbiPartition(allocOk, page)
  {
  }

  /**
   * Where unsigned long is 64 bits wide the comparison also takes in the
   * header's version byte (1) and padding, so a UBI partition is missed.
   */
  lemma UbiMissedWith64BitLong()
    ensures IsUbiAsWritten(true, Some(UBI_HEADER + [1, 0, 0, 0]), 8).isUbi == false
    ensures IsUbiPartition(true, Some(UBI_HEADER + [1, 0, 0, 0])).isUbi == true
  {
    var page: seq<byte> := UBI_HEADER + [1, 0, 0, 0];
    assert page[..4] == UBI_HEADER;
    assert page[..8] == page;
    assert LittleEndian(page[4..]) == 1 by {
      UnfoldStep(page, 7);
      UnfoldStep(page, 6);
      UnfoldStep(page, 5);
      UnfoldStep(page, 4);
      assert page[8..] == [];
    }
    assert LittleEndian(page) == UBI_MAGIC + 0x1_0000_0000 * LittleEndian(page[4..]) by {
      UnfoldStep(page, 3);
      UnfoldStep(page, 2);
      UnfoldStep(page, 1);
      UnfoldStep(page, 0);
    }
  }
}
