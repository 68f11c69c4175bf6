/**
 * The firmware request record (struct load_fw) and the two helpers that fill
 * it from a command line: get_source and get_fw_filename. The command line is
 * argv, so argc is |argv|.
 */
module Request {
  import opened Wrappers
  import opened Sources
  import opened BoardConfig

  /** An MTD partition (struct part_info): name, byte offset and byte size. */
  datatype PartInfo = PartInfo(name: string, offset: nat, size: nat)

  /** The fields of struct load_fw; the char pointers that may be NULL are options. */
  datatype FwInfo = FwInfo(
    src: SrcCode,
    devpartno: Option<string>,
    fs: Option<string>,
    filename: Option<string>,
    part: Option<PartInfo>,
    varload: Option<string>,
    loadaddr: string
  )

  /** A struct load_fw that the helpers update in place. */
  class LoadFw {
    var src: SrcCode
    var devpartno: Option<string>
    var fs: Option<string>
    var filename: Option<string>
    var part: Option<PartInfo>
    var varload: Option<string>
    var loadaddr: string

    function Info(): FwInfo
      reads this
    {
      FwInfo(src, devpartno, fs, filename, part, varload, loadaddr)
    }

    constructor (info: FwInfo)
      ensures Info() == info
    {
      src, devpartno, fs, filename := info.src, info.devpartno, info.fs, info.filename;
      part, varload, loadaddr := info.part, info.varload, info.loadaddr;
    }
  }

  /** The partition get_source looks up for NAND: argv[3] if given, else the OS name argv[1]. */
  function NandPartName(argv: seq<string>): (name: string)
    requires |argv| >= 3
    ensures |argv| > 3 ==> name == argv[3]
    ensures |argv| <= 3 ==> name == argv[1]
  {
    if |argv| > 3 then argv[3] else argv[1]
  }

  /**
   * get_source as a function of the old record: the return code and the new record.
   * mtdInitOk is the result of mtdparts_init and findPart stands for find_dev_and_part.
   */
  function GetSourceSpec(argv: seq<string>, info: FwInfo, build: Build, mtdInitOk: bool,
                         findPart: string -> Option<PartInfo>): (r: (int, FwInfo))
    ensures r.0 == 0 || r.0 == -1
    ensures |argv| < 3 ==> r == (0, info.(src := Src(Tftp)))
    ensures |argv| >= 3 && r.0 == 0 ==>
      r.1.src.Src? && Resolve(argv[2], build.supported) == Resolved(r.1.src.source)
    ensures |argv| >= 3 && Resolve(argv[2], build.supported).NotSupported? ==>
      r == (-1, info.(src := Unsupported))
    ensures |argv| >= 3 && Resolve(argv[2], build.supported).NotDefined? ==>
      r == (-1, info.(src := Undefined))
    ensures |argv| >= 3 && Resolve(argv[2], build.supported).Resolved? ==>
      && (r.0 == 0 <==> PartitionFound(Resolve(argv[2], build.supported).source, argv, build, mtdInitOk, findPart))
      && (r.0 == 0 ==> r.1.src == Src(Resolve(argv[2], build.supported).source))
      && (r.0 != 0 ==> r.1 == info)
    ensures |argv| >= 3 && Resolve(argv[2], build.supported).Resolved? &&
            IsMassStorage(Resolve(argv[2], build.supported).source) ==>
      && r.1.devpartno == (if |argv| > 3 then Some(argv[3]) else info.devpartno)
      && r.1.fs == (if |argv| > 4 then Some(argv[4]) else info.fs)
    ensures |argv| >= 3 && Resolve(argv[2], build.supported) == Resolved(Nand) && build.mtdparts && r.0 == 0 ==>
      r.1.part == findPart(NandPartName(argv))
    ensures r.1.filename == info.filename && r.1.varload == info.varload && r.1.loadaddr == info.loadaddr
  {
    if |argv| < 3 then (0, info.(src := Src(Tftp)))
    else
      match Resolve(argv[2], build.supported)
      case NotDefined => (-1, info.(src := Undefined))
      case NotSupported(_) => (-1, info.(src := Unsupported))
      case Resolved(s) => SourceFields(s, argv, info, build, mtdInitOk, findPart)
  }

  /** The sources read from a filesystem on a device: USB, MMC and SATA. */
  predicate IsMassStorage(s: Source)
  {
    s == Usb || s == Mmc || s == Sata
  }

  /**
   * Whether the source-specific step after a hit succeeds: it can fail only
   * for NAND in a build with MTD partitions, when they cannot be initialised or
   * the named partition does not exist.
   */
  predicate PartitionFound(s: Source, argv: seq<string>, build: Build, mtdInitOk: bool,
                           findPart: string -> Option<PartInfo>)
    requires |argv| >= 3
  {
    s != Nand || !build.mtdparts || (mtdInitOk && findPart(NandPartName(argv)).Some?)
  }

  /**
   * What get_source does once the scan has selected s: USB, MMC and SATA take
   * devpartno and fs from argv[3] and argv[4] when present, NAND (with MTD
   * partitions) takes the partition found, and on success src becomes s; on
   * failure the record is left as it was.
   */
  function SourceFields(s: Source, argv: seq<string>, info: FwInfo, build: Build, mtdInitOk: bool,
                        findPart: string -> Option<PartInfo>): (r: (int, FwInfo))
    requires |argv| >= 3
    ensures r.0 == 0 <==> PartitionFound(s, argv, build, mtdInitOk, findPart)
    ensures r.0 == 0 ==> r.1.src == Src(s)
    ensures r.0 != 0 ==> r.1 == info
    ensures r.0 == -1 || r.0 == 0
    ensures IsMassStorage(s) ==>
      && r.1.devpartno == (if |argv| > 3 then Some(argv[3]) else info.devpartno)
      && r.1.fs == (if |argv| > 4 then Some(argv[4]) else info.fs)
    ensures !IsMassStorage(s) ==> r.1.devpartno == info.devpartno && r.1.fs == info.fs
    ensures s == Nand && build.mtdparts && r.0 == 0 ==> r.1.part == findPart(NandPartName(argv))
    ensures !(s == Nand && build.mtdparts) ==> r.1.part == info.part
    ensures r.1 == info.(src := r.1.src, devpartno := r.1.devpartno, fs := r.1.fs, part := r.1.part)
  {
    if IsMassStorage(s) then
      (0, info.(src := Src(s),
                devpartno := if |argv| > 3 then Some(argv[3]) else info.devpartno,
                fs := if |argv| > 4 then Some(argv[4]) else info.fs))
    else if s == Nand && build.mtdparts then
      if !mtdInitOk then (-1, info)
      else
        match findPart(NandPartName(argv))
        case None => (-1, info)
        case Some(p) => (0, info.(src := Src(Nand), part := Some(p)))
    else (0, info.(src := Src(s)))
  }

  /** get_source, scanning the table with a loop that stops at the first hit. */
  method GetSource(argv: seq<string>, fw: LoadFw, build: Build, mtdInitOk: bool,
                   findPart: string -> Option<PartInfo>) returns (rc: int)
    modifies fw
    ensures (rc, fw.Info()) == GetSourceSpec(argv, old(fw.Info()), build, mtdInitOk, findPart)
  {
    if |argv| < 3 {
      fw.src := Src(Tftp);  // too few arguments: the source is TFTP
      return 0;
    }
    var token := argv[2];
    var i := 0;
    while i < |TABLE|
      invariant 0 <= i <= |TABLE|
      invariant forall j :: 0 <= j < i ==> !(token <= Name(TABLE[j]))
      invariant unchanged(fw)
    {
      if token <= Name(TABLE[i]) {
        if Supported(build.supported, TABLE[i]) {
          break;
        }
        ScanResolves(token, build.supported, i);
        fw.src := Unsupported;
        return -1;
      }
      i := i + 1;
    }
    ScanResolves(token, build.supported, i);
    if i >= |TABLE| {
      fw.src := Undefined;
      return -1;
    }
    var s := TABLE[i];
    assert GetSourceSpec(argv, old(fw.Info()), build, mtdInitOk, findPart)
        == SourceFields(s, argv, old(fw.Info()), build, mtdInitOk, findPart);
    rc := ApplySource(s, argv, fw, build, mtdInitOk, findPart);
  }

  /** The part of get_source after the scan: the source-specific fields of a hit s. */
  method ApplySource(s: Source, argv: seq<string>, fw: LoadFw, build: Build, mtdInitOk: bool,
                     findPart: string -> Option<PartInfo>) returns (rc: int)
    requires |argv| >= 3
    modifies fw
    ensures (rc, fw.Info()) == SourceFields(s, argv, old(fw.Info()), build, mtdInitOk, findPart)
  {
    if s == Usb || s == Mmc || s == Sata {
      // optional devpartno and fs arguments
      if |argv| > 3 {
        fw.devpartno := Some(argv[3]);
      }
      if |argv| > 4 {
        fw.fs := Some(argv[4]);
      }
    } else if s == Nand && build.mtdparts {
      if !mtdInitOk {
        return -1;
      }
      var found := findPart(NandPartName(argv));
      if found.None? {
        return -1;
      }
      fw.part := found;
    }
    fw.src := Src(s);
    return 0;
  }

  /**
   * NAND fails, leaving the record as it was, when the MTD partitions cannot
   * be initialised or the named partition does not exist.
   */
  lemma NandPartitionMissing(argv: seq<string>, info: FwInfo, build: Build, mtdInitOk: bool,
                             findPart: string -> Option<PartInfo>)
    requires |argv| >= 3 && build.mtdparts
    requires Resolve(argv[2], build.supported) == Resolved(Nand)
    requires !mtdInitOk || findPart(NandPartName(argv)) == None
    ensures GetSourceSpec(argv, info, build, mtdInitOk, findPart) == (-1, info)
  {
  }

  /** On success the NAND record holds the partition found under argv[3], or argv[1]. */
  lemma NandPartitionFound(argv: seq<string>, info: FwInfo, build: Build,
                           findPart: string -> Option<PartInfo>)
    requires |argv| >= 3 && build.mtdparts
    requires GetSourceSpec(argv, info, build, true, findPart).0 == 0
    requires GetSourceSpec(argv, info, build, true, findPart).1.src == Src(Nand)
    ensures GetSourceSpec(argv, info, build, true, findPart).1.part == findPart(NandPartName(argv))
    ensures findPart(NandPartName(argv)).Some?
  {
  }

  /** Where get_fw_filename expects the file name, after the source's own arguments. */
  function FileArgIndex(s: Source): nat
  {
    match s
    case Tftp => 3
    case Nfs => 3
    case Nand => 4
    case Usb => 5
    case Mmc => 5
    case Sata => 5
    case Ram => 0
  }

  /**
   * get_fw_filename as a function: the return code and the new filename field
   * (unchanged when the call fails or the source is RAM).
   */
  function FwFilename(argv: seq<string>, src: SrcCode, filename: Option<string>): (r: (int, Option<string>))
    ensures r.0 == 0 || r.0 == -1
    ensures r.0 == 0 <==> src == Src(Ram) || (src.Src? && |argv| > FileArgIndex(src.source))
    ensures r.0 == 0 && src != Src(Ram) ==> r.1 == Some(argv[FileArgIndex(src.source)])
    ensures r.0 != 0 || src == Src(Ram) ==> r.1 == filename
  {
    match src
    case Src(Tftp) | Src(Nfs) => if |argv| > 3 then (0, Some(argv[3])) else (-1, filename)
    case Src(Mmc) | Src(Usb) | Src(Sata) => if |argv| > 5 then (0, Some(argv[5])) else (-1, filename)
    case Src(Nand) => if |argv| > 4 then (0, Some(argv[4])) else (-1, filename)
    case Src(Ram) => (0, filename)
    case _ => (-1, filename)
  }

  /** The file name argument never coincides with an argument get_source consumed. */
  lemma FileArgFollowsSourceArgs(s: Source)
    requires s != Ram
    ensures s == Usb || s == Mmc || s == Sata ==> FileArgIndex(s) > 4
    ensures s == Nand ==> FileArgIndex(s) > 3
    ensures FileArgIndex(s) > 2
  {
  }

  method GetFwFilename(argv: seq<string>, fw: LoadFw) returns (rc: int)
    modifies fw
    ensures (rc, fw.filename) == FwFilename(argv, old(fw.src), old(fw.filename))
    ensures fw.Info() == old(fw.Info()).(filename := fw.filename)
  {
    var s := fw.src;
    if s == Src(Tftp) || s == Src(Nfs) {
      if |argv| > 3 {
        fw.filename := Some(argv[3]);
        return 0;
      }
    } else if s == Src(Mmc) || s == Src(Usb) || s == Src(Sata) {
      if |argv| > 5 {
        fw.filename := Some(argv[5]);
        return 0;
      }
    } else if s == Src(Nand) {
      if |argv| > 4 {
        fw.filename := Some(argv[4]);
        return 0;
      }
    } else if s == Src(Ram) {
      return 0;  // RAM takes no file argument
    }
    return -1;
  }
}
