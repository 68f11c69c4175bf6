/**
 * The table of firmware sources (src_strings) and the prefix rule by which a
 * command-line token selects one of them.
 */
module Sources {

  datatype Source = Tftp | Nfs | Nand | Usb | Mmc | Ram | Sata

  /** Entries of src_strings in table order; the position is also the bit in CONFIG_SUPPORTED_SOURCES. */
  const TABLE: seq<Source> := [Tftp, Nfs, Nand, Usb, Mmc, Ram, Sata]

  function Name(s: Source): string
  {
    match s
    case Tftp => "tftp"
    case Nfs => "nfs"
    case Nand => "nand"
    case Usb => "usb"
    case Mmc => "mmc"
    case Ram => "ram"
    case Sata => "sata"
  }

  function Index(s: Source): (i: nat)
    ensures i < |TABLE| && TABLE[i] == s
  {
    match s
    case Tftp => 0
    case Nfs => 1
    case Nand => 2
    case Usb => 3
    case Mmc => 4
    case Ram => 5
    case Sata => 6
  }

  /** The value of fwinfo->src: a table entry, or one of the two error markers. */
  datatype SrcCode = Src(source: Source) | Unsupported | Undefined

  /** `1 << i & CONFIG_SUPPORTED_SOURCES` for the entry of s. */
  predicate Supported(mask: bv32, s: Source)
  {
    (1 as bv32 << Index(s)) & mask != 0
  }

  /** get_source_string: the table name of a source, "" for the error markers. */
  function SourceString(code: SrcCode): (r: string)
    ensures (r == "") == !code.Src?
    ensures code.Src? ==> r == Name(code.source)
    ensures code.Src? ==> FirstMatch(r, 0) == Index(code.source)
  {
    match code
    case Src(s) => NameMatchesFirstAtItself(s); Name(s)
    case _ => ""
  }

  /** No table name is a prefix of a name listed before it. */
  lemma NameMatchesFirstAtItself(s: Source)
    ensures FirstMatch(Name(s), 0) == Index(s)
  {
    forall j | 0 <= j < Index(s) ensures !(Name(s) <= Name(TABLE[j])) {
      var t := TABLE[j];
      // the first two letters already tell the seven names apart
      assert t == Tftp || t == Nfs || t == Nand || t == Usb || t == Mmc || t == Ram;
      assert t != s;
      assert Name(s)[0] != Name(t)[0] || Name(s)[1] != Name(t)[1];
    }
    assert Name(s) <= Name(TABLE[Index(s)]);
  }

  /**
   * The first table position at or after `from` whose name has `token` as a
   * prefix (strncmp over strlen(token) characters), or |TABLE| if none has.
   */
  function FirstMatch(token: string, from: nat): (i: nat)
    requires from <= |TABLE|
    ensures from <= i <= |TABLE|
    ensures i < |TABLE| ==> token <= Name(TABLE[i])
    ensures forall j :: from <= j < i ==> !(token <= Name(TABLE[j]))
    decreases |TABLE| - from
  {
    if from == |TABLE| then from
    else if token <= Name(TABLE[from]) then from
    else FirstMatch(token, from + 1)
  }

  /** The scan's stopping point determines FirstMatch: nothing matched before it, and it matched. */
  lemma FirstMatchAt(token: string, i: nat)
    requires i <= |TABLE|
    requires forall j :: 0 <= j < i ==> !(token <= Name(TABLE[j]))
    requires i < |TABLE| ==> token <= Name(TABLE[i])
    ensures FirstMatch(token, 0) == i
  {
  }

  /** Where the scan of get_source stops decides the resolution. */
  lemma ScanResolves(token: string, mask: bv32, i: nat)
    requires i <= |TABLE|
    requires forall j :: 0 <= j < i ==> !(token <= Name(TABLE[j]))
    requires i < |TABLE| ==> token <= Name(TABLE[i])
    ensures Resolve(token, mask) ==
      if i == |TABLE| then NotDefined
      else if Supported(mask, TABLE[i]) then Resolved(TABLE[i])
      else NotSupported(TABLE[i])
  {
    FirstMatchAt(token, i);
  }

  datatype Resolution = Resolved(source: Source) | NotSupported(source: Source) | NotDefined

  /**
   * The scan of get_source: the first entry matched decides, and an entry whose
   * bit is clear stops the scan with an error instead of trying later entries.
   */
  function Resolve(token: string, mask: bv32): (r: Resolution)
    ensures !r.NotDefined? ==> token <= Name(r.source)
    ensures !r.NotDefined? ==> forall j :: 0 <= j < Index(r.source) ==> !(token <= Name(TABLE[j]))
    ensures r.Resolved? ==> Supported(mask, r.source)
    ensures r.NotSupported? ==> !Supported(mask, r.source)
    ensures r.NotDefined? <==> forall s: Source :: !(token <= Name(s))
  {
    var i := FirstMatch(token, 0);
    if i == |TABLE| then
      assert forall s: Source :: !(token <= Name(s)) by {
        forall s: Source ensures !(token <= Name(s)) {
          assert TABLE[Index(s)] == s;
        }
      }
      NotDefined
    else
      IndexOfEntry(i);
      if Supported(mask, TABLE[i]) then Resolved(TABLE[i]) else NotSupported(TABLE[i])
  }

  /** Index is the inverse of table lookup. */
  lemma IndexOfEntry(i: nat)
    requires i < |TABLE|
    ensures Index(TABLE[i]) == i
  {
    assert i == 0 || i == 1 || i == 2 || i == 3 || i == 4 || i == 5 || i == 6;
  }

  /** A full table name always selects its own entry: get_source_string and get_source agree. */
  lemma NameSelectsItself(s: Source, mask: bv32)
    ensures Resolve(Name(s), mask) == if Supported(mask, s) then Resolved(s) else NotSupported(s)
  {
    NameMatchesFirstAtItself(s);
  }

  /** "n" is a prefix of both "nfs" and "nand"; nfs comes first in the table. */
  lemma ShortTokenPicksEarlierEntry(mask: bv32)
    ensures Resolve("n", mask) == if Supported(mask, Nfs) then Resolved(Nfs) else NotSupported(Nfs)
  {
    assert "n" <= Name(TABLE[1]);
  }

  /** The empty token is a prefix of every name and selects the first entry. */
  lemma EmptyTokenPicksTftp(mask: bv32)
    ensures Resolve("", mask) == if Supported(mask, Tftp) then Resolved(Tftp) else NotSupported(Tftp)
  {
    assert "" <= Name(TABLE[0]);
  }

  /** Matching is case-sensitive: an upper-case name selects nothing. */
  lemma UpperCaseIsUndefined(mask: bv32)
    ensures Resolve("MMC", mask) == NotDefined
  {
    forall s: Source ensures !("MMC" <= Name(s)) {
      assert Name(s)[0] != 'M';
    }
  }
}
