/**
 * load_firmware: the varload policy, the devpartno default, the choice of
 * transfer by source (on-the-fly through the registered hook for mass
 * storage, a UBI or raw read for NAND, nothing for RAM) and the mapping of the
 * transfer's result to an LDFW_* code.
 */
module Loader {
  import opened Wrappers
  import opened Sources
  import opened BoardConfig
  import opened Request
  import opened Defaults
  import opened Bytes
  import opened UbiProbe
  import opened Otf

  /** LDFW_LOADED, LDFW_NOT_LOADED and LDFW_ERROR; helper.h, which defines them, is not part of this model. */
  datatype Codes = Codes(loaded: int, notLoaded: int, error: int)

  /** What varload asks for: "no" skips the load, "try" tolerates a failure, anything else (or NULL) requires success. */
  datatype Policy = Skip | Required | Try

  function PolicyOf(varload: Option<string>): (p: Policy)
    ensures p == Skip <==> varload == Some("no")
    ensures p == Try <==> varload == Some("try")
    ensures p == Required <==> varload.None? || (varload.value != "no" && varload.value != "try")
  {
    if varload == Some("no") then Skip
    else if varload == Some("try") then Try
    else Required
  }

  /** The transfers load_firmware starts through run_command; the text of each command is not modelled. */
  datatype Transfer =
    | TftpBoot(loadaddr: string, filename: Option<string>)
    | NfsBoot(loadaddr: string, filename: Option<string>)
    | FsLoad(source: Source, devpartno: string, loadaddr: string, filename: Option<string>)
    | UbiLoad(partname: string, loadaddr: string, filename: Option<string>)
    | NandRead(partname: string, loadaddr: string, size: nat)

  /** What the switch on the source decides to do. */
  datatype Action = Command(t: Transfer) | Stream(file: FsFile) | AlreadyInRam

  /**
   * Everything outside load_firmware it depends on: the build, the
   * environment, the LDFW_* values, the exit status of each command, the
   * allocation and page read of the UBI probe, the size query and chunk loads
   * of the on-the-fly loop, and the value of the loadaddr variable.
   */
  datatype Io = Io(
    build: Build,
    env: Env,
    codes: Codes,
    runCmd: Transfer -> int,
    allocOk: bool,
    readPage: PartInfo -> Option<seq<byte>>,
    fileSize: FsFile -> Option<nat>,
    fileLoad: (FsFile, LoadReq) -> bool,
    loadaddr: nat
  )

  /** A positive chunk size, and a page read that yields at least the word the probe compares. */
  ghost predicate ValidIo(io: Io)
  {
    && io.build.chunk > 0
    && forall p :: io.readPage(p).Some? ==> |io.readPage(p).value| >= 4
  }

  /** A NAND request carries the partition get_source found (load_firmware dereferences it). */
  predicate WellFormed(info: FwInfo)
  {
    info.src == Src(Nand) ==> info.part.Some?
  }

  /** The devpartno in use: the one given, else the default for the source, else "0:1". */
  function DevpartnoFor(info: FwInfo, env: Env): (r: string)
    ensures info.devpartno.Some? ==> r == info.devpartno.value
    ensures info.devpartno.None? && DefaultDevpartno(info.src, env).None? ==> r == "0:1"
    ensures info.devpartno.None? && info.src == Src(Mmc) && "mmcdev" in env ==>
      r == env["mmcdev"] + ":" + (if "mmcpart" in env then env["mmcpart"] else "1")
    ensures info.devpartno.None? && info.src == Src(Mmc) && "mmcdev" in env && ':' !in env["mmcdev"] ==>
      Device(r) == env["mmcdev"] && Partition(r) == (if "mmcpart" in env then env["mmcpart"] else "1")
  {
    if info.devpartno.Some? then info.devpartno.value else DevpartnoOrFallback(info.src, env)
  }

  /**
   * The switch on a table source, given whether a hook is registered and, for
   * NAND, the outcome of the UBI probe.
   */
  function Choose(info: FwInfo, hooked: bool, ubi: bool): (a: Action)
    requires info.src.Src? && info.devpartno.Some? && WellFormed(info)
    ensures a.Stream? <==> IsMassStorage(info.src.source) && hooked
    ensures info.src == Src(Tftp) ==> a == Command(TftpBoot(info.loadaddr, info.filename))
    ensures info.src == Src(Nfs) ==> a == Command(NfsBoot(info.loadaddr, info.filename))
    ensures info.src.Src? && IsMassStorage(info.src.source) && !hooked ==>
      a == Command(FsLoad(info.src.source, info.devpartno.value, info.loadaddr, info.filename))
    ensures info.src == Src(Nand) && ubi ==> a == Command(UbiLoad(info.part.value.name, info.loadaddr, info.filename))
    ensures a.Stream? ==> a.file == FsFile(info.src.source, info.devpartno.value, info.filename)
    ensures a.AlreadyInRam? <==> info.src == Src(Ram)
    ensures info.src == Src(Nand) ==> a.Command? && (a.t.UbiLoad? <==> ubi)
    ensures a.Command? && a.t.NandRead? ==>
      info.src == Src(Nand) && !ubi && a.t.size == info.part.value.size % U32 && a.t.size < U32
  {
    match info.src.source
    case Tftp => Command(TftpBoot(info.loadaddr, info.filename))
    case Nfs => Command(NfsBoot(info.loadaddr, info.filename))
    case Mmc | Usb | Sata =>
      if hooked then Stream(FsFile(info.src.source, info.devpartno.value, info.filename))
      else Command(FsLoad(info.src.source, info.devpartno.value, info.loadaddr, info.filename))
    case Nand =>
      if ubi then Command(UbiLoad(info.part.value.name, info.loadaddr, info.filename))
      else Command(NandRead(info.part.value.name, info.loadaddr, info.part.value.size % U32))
    case Ram => AlreadyInRam
  }

  /** The UBI probe load_firmware runs for a NAND source when the build has UBI support. */
  function ProbeUbi(info: FwInfo, io: Io): bool
    requires WellFormed(info) && ValidIo(io)
  {
    io.build.digiUbi && info.src == Src(Nand) && IsUbiPartition(io.allocOk, io.readPage(info.part.value)).isUbi
  }

  /** The mapping at the _ret label of a ret value to a return code. */
  function MapRet(policy: Policy, ret: int, codes: Codes): (rc: int)
    ensures ret == 0 ==> rc == codes.loaded
    ensures ret != 0 && policy == Try ==> rc == codes.notLoaded
    ensures ret != 0 && policy != Try ==> rc == codes.error
  {
    if ret == 0 then codes.loaded
    else if policy == Try then codes.notLoaded
    else codes.error
  }

  /** What load_firmware returns and leaves behind: its return code, the request record and otfd. */
  datatype Outcome = Outcome(rc: int, info: FwInfo, otfd: OtfData)

  /** load_firmware as a function of the request, its surroundings, otfd and the registered hook. */
  function LoadFirmwareSpec(info: FwInfo, io: Io, d: OtfData, hook: Option<Hook>): (o: Outcome)
    requires WellFormed(info) && ValidIo(io)
    ensures o.info.devpartno.Some? || o.info == info
    ensures o.info == info.(devpartno := o.info.devpartno)
  {
    var policy := PolicyOf(info.varload);
    if policy == Skip then Outcome(io.codes.notLoaded, info, d)
    else
      var info1 := info.(devpartno := Some(DevpartnoFor(info, io.env)));
      if !info.src.Src? then Outcome(-1, info1, d)
      else
        match Choose(info1, hook.Some?, ProbeUbi(info1, io))
        case AlreadyInRam => Outcome(MapRet(policy, io.codes.notLoaded, io.codes), info1, d)
        case Command(t) => Outcome(MapRet(policy, io.runCmd(t), io.codes), info1, d)
        case Stream(file) =>
          var r := WriteFileFsOtfSpec(file, io.fileSize, io.fileLoad, io.loadaddr, io.build.chunk, d, hook.value);
          Outcome(MapRet(policy, r.0, io.codes), info1, r.1)
  }

  /** varload "no" returns LDFW_NOT_LOADED before anything else: nothing is defaulted, run or streamed. */
  lemma SkipDoesNothing(info: FwInfo, io: Io, d: OtfData, hook: Option<Hook>)
    requires WellFormed(info) && ValidIo(io)
    requires info.varload == Some("no")
    ensures LoadFirmwareSpec(info, io, d, hook) == Outcome(io.codes.notLoaded, info, d)
  {
  }

  /** The raw result the mapping sees for a table source: the transfer's status, or LDFW_NOT_LOADED for RAM. */
  function RawRet(info: FwInfo, io: Io, d: OtfData, hook: Option<Hook>): int
    requires WellFormed(info) && ValidIo(io) && info.src.Src?
  {
    var info1 := info.(devpartno := Some(DevpartnoFor(info, io.env)));
    match Choose(info1, hook.Some?, ProbeUbi(info1, io))
    case AlreadyInRam => io.codes.notLoaded
    case Command(t) => io.runCmd(t)
    case Stream(file) => WriteFileFsOtfSpec(file, io.fileSize, io.fileLoad, io.loadaddr, io.build.chunk, d, hook.value).0
  }

  /**
   * With "try", a table source never reports LDFW_ERROR: a zero result is
   * LDFW_LOADED and any other is LDFW_NOT_LOADED.
   */
  lemma TryNeverErrors(info: FwInfo, io: Io, d: OtfData, hook: Option<Hook>)
    requires WellFormed(info) && ValidIo(io)
    requires info.varload == Some("try") && info.src.Src?
    ensures LoadFirmwareSpec(info, io, d, hook).rc ==
      if RawRet(info, io, d, hook) == 0 then io.codes.loaded else io.codes.notLoaded
    ensures LoadFirmwareSpec(info, io, d, hook).rc == io.codes.loaded || LoadFirmwareSpec(info, io, d, hook).rc == io.codes.notLoaded
  {
  }

  /**
   * Without "try" (and other than "no"), a table source reports LDFW_LOADED
   * on a zero result and LDFW_ERROR on any other, never LDFW_NOT_LOADED.
   */
  lemma RequiredMapsFailureToError(info: FwInfo, io: Io, d: OtfData, hook: Option<Hook>)
    requires WellFormed(info) && ValidIo(io)
    requires PolicyOf(info.varload) == Required && info.src.Src?
    ensures LoadFirmwareSpec(info, io, d, hook).rc ==
      if RawRet(info, io, d, hook) == 0 then io.codes.loaded else io.codes.error
    ensures LoadFirmwareSpec(info, io, d, hook).rc == io.codes.loaded || LoadFirmwareSpec(info, io, d, hook).rc == io.codes.error
  {
  }

  /** A source outside the table returns -1, unmapped, whatever the policy other than "no". */
  lemma UnknownSourceFails(info: FwInfo, io: Io, d: OtfData, hook: Option<Hook>)
    requires WellFormed(info) && ValidIo(io)
    requires PolicyOf(info.varload) != Skip && !info.src.Src?
    ensures LoadFirmwareSpec(info, io, d, hook).rc == -1
    ensures LoadFirmwareSpec(info, io, d, hook).otfd == d
  {
  }

  /**
   * A missing devpartno is replaced before the switch: by "<mmcdev>:<mmcpart>"
   * (partition 1 when mmcpart is unset) for MMC when mmcdev is set, and by
   * "0:1" otherwise; a given devpartno is kept.
   */
  lemma DevpartnoDefaulted(info: FwInfo, io: Io, d: OtfData, hook: Option<Hook>)
    requires WellFormed(info) && ValidIo(io)
    requires PolicyOf(info.varload) != Skip
    ensures LoadFirmwareSpec(info, io, d, hook).info.devpartno ==
      Some(if info.devpartno.Some? then info.devpartno.value else DevpartnoOrFallback(info.src, io.env))
    ensures info.devpartno.None? && (info.src != Src(Mmc) || "mmcdev" !in io.env) ==>
      LoadFirmwareSpec(info, io, d, hook).info.devpartno == Some("0:1")
  {
  }

  /**
   * For USB, MMC and SATA the on-the-fly loop runs exactly when a hook is
   * registered; otherwise the file is loaded by one command and otfd is left
   * alone.
   */
  lemma MassStorageStreamsOnlyWithHook(info: FwInfo, io: Io, d: OtfData, hook: Option<Hook>)
    requires WellFormed(info) && ValidIo(io)
    requires PolicyOf(info.varload) != Skip && info.src.Src? && IsMassStorage(info.src.source)
    ensures hook.Some? ==>
      RawRet(info, io, d, hook) == WriteFileFsOtfSpec(FsFile(info.src.source, DevpartnoFor(info, io.env), info.filename),
                                                      io.fileSize, io.fileLoad, io.loadaddr, io.build.chunk, d, hook.value).0
    ensures hook.None? ==>
      && RawRet(info, io, d, hook) == io.runCmd(FsLoad(info.src.source, DevpartnoFor(info, io.env), info.loadaddr, info.filename))
      && LoadFirmwareSpec(info, io, d, hook).otfd == d
  {
  }

  /** Only the on-the-fly loop touches otfd: every other source leaves it as it was. */
  lemma OtherSourcesLeaveOtfd(info: FwInfo, io: Io, d: OtfData, hook: Option<Hook>)
    requires WellFormed(info) && ValidIo(io)
    requires !info.src.Src? || !IsMassStorage(info.src.source)
    ensures LoadFirmwareSpec(info, io, d, hook).otfd == d
  {
  }

  /**
   * A NAND source with UBI support reads through ubifsload exactly when the
   * probe recognises the partition, and with a raw read of the partition size
   * truncated to 32 bits otherwise.
   */
  lemma NandReadChoice(info: FwInfo, io: Io, d: OtfData, hook: Option<Hook>)
    requires WellFormed(info) && ValidIo(io)
    requires PolicyOf(info.varload) != Skip && info.src == Src(Nand)
    ensures io.build.digiUbi && IsUbiPartition(io.allocOk, io.readPage(info.part.value)).isUbi ==>
      RawRet(info, io, d, hook) == io.runCmd(UbiLoad(info.part.value.name, info.loadaddr, info.filename))
    ensures !(io.build.digiUbi && IsUbiPartition(io.allocOk, io.readPage(info.part.value)).isUbi) ==>
      RawRet(info, io, d, hook) == io.runCmd(NandRead(info.part.value.name, info.loadaddr, info.part.value.size % U32))
  {
  }

  /**
   * RAM starts no transfer: its result is LDFW_NOT_LOADED pushed through the
   * same mapping, so it reads as loaded exactly when LDFW_NOT_LOADED is 0, and
   * under a required policy a nonzero LDFW_NOT_LOADED becomes LDFW_ERROR.
   */
  lemma RamGoesThroughMapping(info: FwInfo, io: Io, d: OtfData, hook: Option<Hook>)
    requires WellFormed(info) && ValidIo(io)
    requires PolicyOf(info.varload) != Skip && info.src == Src(Ram)
    ensures LoadFirmwareSpec(info, io, d, hook).rc == MapRet(PolicyOf(info.varload), io.codes.notLoaded, io.codes)
    ensures io.codes.notLoaded == 0 ==> LoadFirmwareSpec(info, io, d, hook).rc == io.codes.loaded
    ensures io.codes.notLoaded != 0 && PolicyOf(info.varload) == Required ==>
      LoadFirmwareSpec(info, io, d, hook).rc == io.codes.error
  {
  }

  /** RAM runs no command: its outcome does not depend on what commands would return. */
  lemma RamIgnoresCommands(info: FwInfo, io: Io, d: OtfData, hook: Option<Hook>, other: Transfer -> int)
    requires WellFormed(info) && ValidIo(io)
    requires info.src == Src(Ram)
    ensures LoadFirmwareSpec(info, io, d, hook) == LoadFirmwareSpec(info, io.(runCmd := other), d, hook)
  {
  }

  /** load_firmware, updating the request record and, through the hook, otfd. */
  method LoadFirmware(fw: LoadFw, otf: OtfUpdate, io: Io) returns (rc: int)
    requires WellFormed(fw.Info()) && ValidIo(io)
    modifies fw, otf
    ensures otf.hook == old(otf.hook)
    ensures Outcome(rc, fw.Info(), otf.otfd) == LoadFirmwareSpec(old(fw.Info()), io, old(otf.otfd), old(otf.hook))
  {
    var policy := PolicyOf(fw.varload);
    if policy == Skip {
      return io.codes.notLoaded;  // Skip: no transfer at all
    }
    // a missing devpartno gets its default before the source is examined
    if fw.devpartno.None? {
      fw.devpartno := Some(DevpartnoOrFallback(fw.src, io.env));
    }
    if !fw.src.Src? {
      return -1;
    }
    var ret: int;
    var s := fw.src.source;
    if s == Tftp {
      ret := io.runCmd(TftpBoot(fw.loadaddr, fw.filename));
    } else if s == Nfs {
      ret := io.runCmd(NfsBoot(fw.loadaddr, fw.filename));
    } else if IsMassStorage(s) {
      if otf.hook.Some? {
        ghost var run;
        ret, run := otf.WriteFileFsOtf(FsFile(s, fw.devpartno.value, fw.filename), io.fileSize, io.fileLoad,
                                       io.loadaddr, io.build.chunk);
      } else {
        ret := io.runCmd(FsLoad(s, fw.devpartno.value, fw.loadaddr, fw.filename));
      }
    } else if s == Nand {
      var part := fw.part.value;
      if io.build.digiUbi && IsUbiPartition(io.allocOk, io.readPage(part)).isUbi {
        ret := io.runCmd(UbiLoad(part.name, fw.loadaddr, fw.filename));
      } else {
        ret := io.runCmd(NandRead(part.name, fw.loadaddr, part.size % U32));
      }
    } else {
      ret := io.codes.notLoaded;  // RAM: no transfer, still mapped below
    }
    rc := MapRet(policy, ret, io.codes);
  }
}
