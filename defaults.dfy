/**
 * Environment-driven defaults: get_default_devpartno, the "0:1" fallback that
 * load_firmware applies around it, and get_default_filename.
 */
module Defaults {
  import opened Wrappers
  import opened Sources

  /** The environment as getenv sees it: a variable is either unset or holds a string. */
  type Env = map<string, string>

  /** sizeof(def_devpartno) in load_firmware: the literal "0:1" and its terminator. */
  const DEF_DEVPARTNO_SIZE: nat := 4

  /** The position of the first ':' in s, or |s| if there is none. */
  function FirstColon(s: string): (i: nat)
    ensures i <= |s|
    ensures i < |s| ==> s[i] == ':'
    ensures forall j :: 0 <= j < i ==> s[j] != ':'
  {
    if s == [] then 0
    else if s[0] == ':' then 0
    else 1 + FirstColon(s[1..])
  }

  /** The device part of a "<dev>:<part>" string. */
  function Device(s: string): string
  {
    s[..FirstColon(s)]
  }

  /** The partition part of a "<dev>:<part>" string ("" when there is no colon). */
  function Partition(s: string): string
  {
    var i := FirstColon(s);
    if i < |s| then s[i + 1..] else ""
  }

  lemma {:induction false} FirstColonOfJoin(dev: string, part: string)
    requires ':' !in dev
    ensures FirstColon(dev + ":" + part) == |dev|
  {
    if dev != [] {
      assert (dev + ":" + part)[1..] == dev[1..] + ":" + part;
      FirstColonOfJoin(dev[1..], part);
    }
  }

  /** Splitting "<dev>:<part>" at its first colon gives back dev and part. */
  lemma DevPartRoundTrip(dev: string, part: string)
    ensures ':' !in dev ==> Device(dev + ":" + part) == dev && Partition(dev + ":" + part) == part
  {
    if ':' !in dev {
      FirstColonOfJoin(dev, part);
      assert (dev + ":" + part)[..|dev|] == dev;
      assert (dev + ":" + part)[|dev| + 1..] == part;
    }
  }

  /**
   * get_default_devpartno: for MMC, "<mmcdev>:<mmcpart>", with partition 1 when
   * mmcpart is unset; no default (return -1) for every other source or when
   * mmcdev is unset. The string is given whole, whatever its length.
   */
  function DefaultDevpartno(src: SrcCode, env: Env): (r: Option<string>)
    ensures r.Some? <==> src == Src(Mmc) && "mmcdev" in env
    ensures r.Some? ==> r.value == env["mmcdev"] + ":" + (if "mmcpart" in env then env["mmcpart"] else "1")
    ensures r.Some? && ':' !in env["mmcdev"] ==>
      Device(r.value) == env["mmcdev"] &&
      Partition(r.value) == (if "mmcpart" in env then env["mmcpart"] else "1")
  {
    if src == Src(Mmc) && "mmcdev" in env then
      var dev := env["mmcdev"];
      var part := if "mmcpart" in env then env["mmcpart"] else "1";
      DevPartRoundTrip(dev, part);
      Some(dev + ":" + part)
    else None
  }

  /**
   * The devpartno load_firmware uses when none was given: the default when one
   * exists, else the literal "0:1" (device 0, partition 1).
   */
  function DevpartnoOrFallback(src: SrcCode, env: Env): (r: string)
    ensures DefaultDevpartno(src, env).None? ==> r == "0:1" && Device(r) == "0" && Partition(r) == "1"
    ensures DefaultDevpartno(src, env).Some? ==> r == DefaultDevpartno(src, env).value
    ensures src == Src(Mmc) && "mmcdev" in env && ':' !in env["mmcdev"] ==>
      Device(r) == env["mmcdev"] && Partition(r) == (if "mmcpart" in env then env["mmcpart"] else "1")
  {
    match DefaultDevpartno(src, env)
    case Some(v) => v
    case None => DevPartRoundTrip("0", "1"); "0:1"
  }

  /**
   * The same step as written: the default is sprintf'd into def_devpartno, a
   * DEF_DEVPARTNO_SIZE-byte array. None stands for a write past its end.
   */
  function DevpartnoInBuffer(src: SrcCode, env: Env): (r: Option<string>)
    ensures r.Some? <==> |DevpartnoOrFallback(src, env)| < DEF_DEVPARTNO_SIZE
    ensures r.Some? ==> r.value == DevpartnoOrFallback(src, env)
  {
    var s := DevpartnoOrFallback(src, env);
    if |s| + 1 <= DEF_DEVPARTNO_SIZE then Some(s) else None
  }

  /** A two-character partition number already overflows the buffer. */
  lemma DevpartnoBufferOverflows()
    ensures DevpartnoOrFallback(Src(Mmc), map["mmcdev" := "0", "mmcpart" := "10"]) == "0:10"
    ensures DevpartnoInBuffer(Src(Mmc), map["mmcdev" := "0", "mmcpart" := "10"]) == None
  {
  }

  /** The commands that ask for a default file name (CMD_DBOOT, CMD_UPDATE); any other is Other. */
  datatype Cmd = Dboot | Update | Other

  /** The name of the variable that holds the update file of a partition. */
  function FileVar(partname: string): string
  {
    partname + "_file"
  }

  /** Distinct partitions consult distinct variables. */
  lemma FileVarInjective(p: string, q: string)
    requires FileVar(p) == FileVar(q)
    ensures p == q
  {
    assert |p| == |q|;
    assert p == FileVar(p)[..|p|];
    assert q == FileVar(q)[..|q|];
  }

  /**
   * get_default_filename: dboot of linux or android defers to the variable
   * kernelVar (CONFIG_DBOOT_DEFAULTKERNELVAR) as "$name"; update of uboot
   * defers to "$uboot_file"; update of any other partition reads the variable
   * "<partname>_file" now (NULL when unset); everything else has no default.
   */
  function DefaultFilename(partname: string, cmd: Cmd, kernelVar: string, env: Env): (r: Option<string>)
    ensures cmd == Other ==> r.None?
    ensures cmd == Dboot ==> (r.Some? <==> partname == "linux" || partname == "android")
    ensures cmd == Dboot && r.Some? ==> r.value == "$" + kernelVar
    ensures cmd == Update && partname == "uboot" ==> r == Some("$" + FileVar(partname))
    ensures cmd == Update && partname != "uboot" ==>
      (r.Some? <==> FileVar(partname) in env) && (r.Some? ==> r.value == env[FileVar(partname)])
  {
    match cmd
    case Dboot =>
      if partname == "linux" || partname == "android" then Some("$" + kernelVar) else None
    case Update =>
      if partname == "uboot" then
        assert "$" + FileVar(partname) == "$uboot_file";
        Some("$uboot_file")
      else if FileVar(partname) in env then Some(env[FileVar(partname)])
      else None
    case Other => None
  }
}
