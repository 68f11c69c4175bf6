# Digi board helpers: firmware source resolution and on-the-fly loading

This project models the firmware-acquisition helpers of the Digi boards' U-Boot
port, in `board/digi/common/helper.c`. The `dboot` and `update` commands use
them to do three things:

- turn a command line into a firmware request (`struct load_fw`);
- fill in that request's defaults from the environment;
- fetch the firmware. `load_firmware` can start one transport command (TFTP,
  NFS, a filesystem load from USB/MMC/SATA, a UBIFS or raw NAND read). It can
  also stream a mass-storage file in `CONFIG_OTF_CHUNK`-sized pieces to a
  registered on-the-fly (OTF) update hook.

The model also covers the small utilities of the same file:
`get_filename_ext`, `strtohex`, `media_block_is_empty`, `memsize_parse` and
`strtou32`.

The modules follow the structure of the C file:

- `Sources` (`sources.dfy`): the `src_strings` table, and the prefix scan that
  selects an entry from a token.
- `Request` (`request.dfy`): `struct load_fw`, modelled as the class `LoadFw`,
  with `get_source` and `get_fw_filename` as methods that update it in place.
  `GetSourceSpec` and `FwFilename` are the functions that specify those methods.
- `Defaults` (`defaults.dfy`): `get_default_devpartno`, the `"0:1"` fallback
  around it, and `get_default_filename`. The environment is a map.
- `UbiProbe` (`ubi.dfy`): `is_ubi_partition`. `Bytes` (`bytes.dfy`) is the
  little-endian value of a run of bytes.
- `Otf` (`otf.dfy`): the single-slot hook registry (the class `OtfUpdate`, with
  fields `hook` and `otfd`) and `write_file_fs_otf`. The chunk loop
  `WriteChunks` is proved equal to `Exec`. `Exec` is a function that replays
  the loop and records every load request and every `otfd` handed to the hook.
  The properties of the loop are lemmas about `Exec` and the chunk `Schedule`.
- `Loader` (`loader.dfy`): `load_firmware`. This covers the `varload` policy,
  the devpartno default, the switch on the source and the mapping at `_ret`.
  The method `LoadFirmware` is proved equal to the function `LoadFirmwareSpec`.
- `Util` (`util.dfy`): the utilities. `strtohex` fills an `array`, and
  `media_block_is_empty` scans with an early `break`; each is a method proved
  against a function.
- `BoardConfig` (`config.dfy`) holds the `CONFIG_*` values the code is compiled
  with, and `Wrappers` (`wrappers.dfy`) holds `Option`.

Everything outside the file becomes a parameter:

- `run_command`, and the exit status of each transport;
- `getenv`;
- `mtdparts_init` and `find_dev_and_part`;
- `malloc`;
- `nand_read_skip_bad` and `media_read_block`;
- the number parsers;
- `cpu_to_be32`;
- the hook itself.

Commands are modelled as a `Transfer` value, not as the text of the command.

Three behaviours of the code shape the model:

- The scan takes the first table entry that the token is a prefix of
  (helper.c:95-104). The test is `strncmp` over the token's length, so it is
  case-sensitive, and `"n"` selects `nfs` although it is also a prefix of
  `nand`.
- The UBI probe reads one NAND page of `writesize` bytes and compares its first
  word (helper.c:255-271).
- RAM sets `ret` to `LDFW_NOT_LOADED` and then goes through the same mapping as
  every other source (helper.c:434-436, 442-453). So under a required policy a
  nonzero `LDFW_NOT_LOADED` is reported as `LDFW_ERROR`.

## Model

| member | source | states |
|---|---|---|
| Sources.FirstMatch | board/digi/common/helper.c:95-104 | the position the scan stops at: the first entry whose name has the token as a prefix, with no earlier entry matching, or the table length when none matches |
| Sources.ScanResolves | board/digi/common/helper.c:95-109 | wherever a scan stops with nothing matched before it decides the outcome: undefined past the end, resolved when that entry's bit is set, unsupported when it is clear |
| Sources.Resolve | board/digi/common/helper.c:95-109 | a resolved or unsupported source has the token as a prefix of its name and no earlier entry matches; resolved means its bit is set in CONFIG_SUPPORTED_SOURCES, unsupported means clear; undefined exactly when no name has the token as a prefix |
| Sources.SourceString | board/digi/common/helper.c:157-163 | the result is empty exactly for the two error markers; for a table source it is that source's table name, and scanning it selects that same source |
| Sources.NameSelectsItself | board/digi/common/helper.c:95-104 | a full table name always resolves to its own entry (no name is a prefix of an earlier one) |
| Sources.ShortTokenPicksEarlierEntry | board/digi/common/helper.c:95-104 | "n" resolves to nfs (or fails as unsupported nfs), never to nand |
| Sources.EmptyTokenPicksTftp | board/digi/common/helper.c:95-104 | the empty token resolves to tftp, the first entry |
| Sources.UpperCaseIsUndefined | board/digi/common/helper.c:96 | matching is case-sensitive: "MMC" selects nothing |
| Request.NandPartName | board/digi/common/helper.c:133-136 | the NAND partition looked up is argv[3] when given, else argv[1] |
| Request.GetSourceSpec | board/digi/common/helper.c:89-154 | returns 0 or -1; fewer than three arguments give TFTP and 0; unsupported and undefined tokens store SRC_UNSUPPORTED / SRC_UNDEFINED and return -1; a resolved token returns 0 exactly when the NAND partition step (if any) succeeds, and then stores the source; a failed step leaves the record unchanged; USB/MMC/SATA take devpartno from argv[3] and fs from argv[4] when given; a NAND success holds the partition found; filename, varload and loadaddr are never touched |
| Request.GetSource | board/digi/common/helper.c:79-155 | the scan loop with its early break and error exits leaves exactly the return code and record GetSourceSpec gives |
| Request.SourceFields | board/digi/common/helper.c:111-146 | after a hit on s: 0 exactly when the NAND partition step (if there is one) succeeds, and then src is s; on failure the record is unchanged; USB/MMC/SATA set devpartno and fs from argv[3] and argv[4] when present and other sources keep them; NAND with MTD partitions takes the partition found, other sources keep part; no other field changes |
| Request.ApplySource | board/digi/common/helper.c:111-146 | the method's return code and record are those SourceFields gives |
| Request.NandPartitionMissing | board/digi/common/helper.c:121-140 | NAND with MTD partitions returns -1 and leaves the record unchanged when mtdparts_init fails or the partition is not found (find_dev_and_part taken not to write its output on failure) |
| Request.NandPartitionFound | board/digi/common/helper.c:133-140 | a successful NAND request holds the partition found under the looked-up name |
| Request.FwFilename | board/digi/common/helper.c:165-196 | returns 0 exactly for RAM or when argv reaches the source's file argument (argv[3] for TFTP/NFS, argv[4] for NAND, argv[5] for USB/MMC/SATA); on success (not RAM) the filename is that argument, otherwise it is unchanged |
| Request.FileArgFollowsSourceArgs | board/digi/common/helper.c:111-136 | the file argument lies after every argument get_source consumes for that source |
| Request.GetFwFilename | board/digi/common/helper.c:165-196 | the method sets the return code and filename FwFilename gives and changes no other field |
| Defaults.DevPartRoundTrip | board/digi/common/helper.c:238-240 | splitting "dev:part" at the first colon gives back dev and part when dev has no colon |
| Defaults.DefaultDevpartno | board/digi/common/helper.c:226-249 | a default exists exactly for MMC with mmcdev set; it is "<mmcdev>:<mmcpart>", with 1 for an unset mmcpart, and when mmcdev has no colon it splits back into mmcdev and that partition |
| Defaults.DevpartnoOrFallback | board/digi/common/helper.c:382-385 | with no default the devpartno is device 0, partition 1; for MMC with mmcdev set it is mmcdev with mmcpart or 1 |
| Defaults.DevpartnoInBuffer | board/digi/common/helper.c:365-385 | the default as written into the 4-byte def_devpartno: fits exactly when the string is shorter than the buffer, and then equals the intended value |
| Defaults.DevpartnoBufferOverflows | board/digi/common/helper.c:238-240 | mmcdev "0" with mmcpart "10" gives "0:10", which does not fit def_devpartno |
| Defaults.FileVarInjective | board/digi/common/helper.c:215-218 | distinct partitions consult distinct "<partname>_file" variables |
| Defaults.DefaultFilename | board/digi/common/helper.c:198-224 | dboot gives "$" + CONFIG_DBOOT_DEFAULTKERNELVAR exactly for linux or android; update of uboot gives "$uboot_file"; update of another partition gives the value of "<partname>_file", absent when unset; other commands give none |
| Bytes.ZeroWord | board/digi/common/helper.c:655 | a word is zero exactly when every byte of it is zero |
| Bytes.AllOnesWord | board/digi/common/helper.c:659 | a word is ~0 exactly when every byte of it is 0xff |
| UbiProbe.IsUbiAsWritten | board/digi/common/helper.c:252-278 | as written, for a given width of unsigned long: the buffer is freed exactly when allocated; the verdict is true exactly when allocation and read succeed and the first word equals 0x23494255 |
| UbiProbe.MagicWordIsHeader | board/digi/common/helper.c:257-271 | a 32-bit little-endian word equals 0x23494255 exactly when its bytes are "UBI#" |
| UbiProbe.IsUbiPartition | board/digi/common/helper.c:252-278 | the buffer is freed exactly when allocated; true exactly when allocation and page read succeed and the page starts with "UBI#"; any failure reads as not UBI |
| UbiProbe.AsWrittenAgreesOn32Bit | board/digi/common/helper.c:269-271 | with a 32-bit unsigned long the code as written is the intended probe |
| UbiProbe.UbiMissedWith64BitLong | board/digi/common/helper.c:269-271 | with a 64-bit unsigned long a page starting with a UBI header of version 1 is not recognised, though the intended probe accepts it |
| Otf.Prepare | board/digi/common/helper.c:326-331 | the chunk length is positive, at most CONFIG_OTF_CHUNK and at most the remaining bytes, and is one of the two |
| Otf.Schedule | board/digi/common/helper.c:323-331 | the chunks of a file: none exactly when nothing remains; the first is min(remaining, CONFIG_OTF_CHUNK) bytes at the current offset; the lemmas below state the lengths, offsets and count |
| Otf.Exec | board/digi/common/helper.c:323-351 | a run of the loop: its local offset ends between the start and the end of the file; the lemmas ExecLoadsFollowSchedule, ExecStopsAtFirstFailure, ExecLoadsSucceedUntilStop, ExecWritesSucceedUntilStop, ExecHandsPreparedData and ExecFinalData state what it loads, hands over and leaves |
| Otf.ScheduleLengths | board/digi/common/helper.c:323-351 | the chunks of a file of N bytes: none for N = 0; every one but the last holds CONFIG_OTF_CHUNK bytes; the last holds the rest (1..chunk); together they hold exactly N |
| Otf.ScheduleOffsets | board/digi/common/helper.c:334-348 | each chunk starts at the sum of the lengths before it |
| Otf.ScheduleCount | board/digi/common/helper.c:323-351 | the number of chunks is N / C rounded up |
| Otf.ChunksInsideFile | board/digi/common/helper.c:326-350 | every chunk is non-empty and lies inside the file |
| Otf.Iterate | board/digi/common/helper.c:326-350 | one iteration either stops with a failure (load or hook) or goes on with a chunk of 1..remaining bytes, whose length the hook leaves unchanged |
| Otf.ExecLoadsFollowSchedule | board/digi/common/helper.c:333-339 | load k asks for chunk k of the schedule: its length, and its offset truncated to 32 bits |
| Otf.LoadOffsetsBelow4GiB | board/digi/common/helper.c:334-348 | for files below 4 GiB the offset of each load is exactly the sum of the earlier chunk lengths |
| Otf.ExecStopsAtFirstFailure | board/digi/common/helper.c:336-350 | a complete run makes one load and one hook call per chunk and ends at the end of the file; a failed run makes no load or hook call after the failure, and its local offset is the start of the failing chunk, that is, the sum of the chunks fully written |
| Otf.ExecLoadsSucceedUntilStop | board/digi/common/helper.c:336-339 | every chunk handed to the hook was loaded successfully; a run stopped by a load stopped at the first failed load |
| Otf.ExecWritesSucceedUntilStop | board/digi/common/helper.c:342-345 | every hook call but the last succeeded; a run stopped by a write stopped at the first failed hook call |
| Otf.ExecHandsPreparedData | board/digi/common/helper.c:326-331 | each otfd handed to the hook is the previous hook's result (or the caller's otfd) with only len set and, on the last chunk, FLUSH added: the loop never clears a flag and never writes offset, buf, loadaddr or part |
| Otf.ExecFinalData | board/digi/common/helper.c:341-353 | unless a load failed, the otfd left behind is what the last hook call left, or the initial otfd for an empty file |
| Otf.FlushOnlyOnLastChunk | board/digi/common/helper.c:326-331 | with a hook that leaves the FLUSH bit alone, a hook call sees FLUSH exactly on the last chunk |
| Otf.ExecFlushesOnlyLastChunk | board/digi/common/helper.c:323-351 | when FLUSH is clear at the start and the hook leaves the FLUSH bit as it finds it, FLUSH reaches the hook with the last chunk and with no other |
| Otf.EmptyFileDoesNothing | board/digi/common/helper.c:318-323 | a file of size 0 makes no load and no hook call and completes |
| Otf.WriteFileFsOtfSpec | board/digi/common/helper.c:304-354 | returns 0 or -1; a failed size query returns -1 and leaves otfd alone; 0 exactly when the size query succeeded and the run of the loop over that size (from offset 0, with loadaddr set) completed; the final otfd is the one that run leaves |
| Otf.OtfUpdate.constructor | board/digi/common/helper.c:44-46 | no hook is registered and otfd is zeroed, as in static storage |
| Otf.OtfUpdate.Register | board/digi/common/helper.c:283-292 | installs the hook and sets buf to NULL, part to the given partition, flags to OTF_FLAG_INIT and offset to 0, keeping len and loadaddr |
| Otf.OtfUpdate.Unregister | board/digi/common/helper.c:294-297 | clears the hook and leaves otfd unchanged |
| Otf.OtfUpdate.WriteChunk | board/digi/common/helper.c:326-350 | one iteration of the loop: the new otfd and whether to go on are those Iterate gives |
| Otf.OtfUpdate.WriteChunks | board/digi/common/helper.c:318-353 | the loop's final otfd and success are those of Exec from the current otfd, and the hook stays registered |
| Otf.OtfUpdate.WriteFileFsOtf | board/digi/common/helper.c:304-354 | the return code and new otfd are those WriteFileFsOtfSpec gives; the run is Exec over the queried size from offset 0, with otfd.loadaddr set first |
| Loader.PolicyOf | board/digi/common/helper.c:369-379 | "no" skips, "try" tolerates failure, NULL or any other value requires success, each an if-and-only-if |
| Loader.DevpartnoFor | board/digi/common/helper.c:381-386 | a given devpartno is kept; otherwise it is the MMC default "<mmcdev>:<mmcpart>" (partition 1 when unset) when mmcdev is set, and "0:1" when there is no default |
| Loader.MapRet | board/digi/common/helper.c:442-453 | a zero result is LDFW_LOADED; a nonzero one is LDFW_NOT_LOADED under "try" and LDFW_ERROR otherwise |
| Loader.Choose | board/digi/common/helper.c:388-439 | TFTP and NFS run tftpboot / nfs with loadaddr and filename; streaming exactly for USB/MMC/SATA with a hook registered, over that source, devpartno and filename, and otherwise a load of that file to loadaddr; nothing to fetch exactly for RAM; NAND runs ubifsload of the filename from the partition exactly when the probe says UBI; a raw read is NAND, not UBI, with the partition size truncated to 32 bits |
| Loader.LoadFirmwareSpec | board/digi/common/helper.c:362-454 | load_firmware only ever sets devpartno in the request, and sets it whenever it changes anything |
| Loader.SkipDoesNothing | board/digi/common/helper.c:374-376 | varload "no" returns LDFW_NOT_LOADED and changes nothing |
| Loader.TryNeverErrors | board/digi/common/helper.c:443-448 | with "try" a zero result gives LDFW_LOADED and any other gives LDFW_NOT_LOADED, never LDFW_ERROR |
| Loader.RequiredMapsFailureToError | board/digi/common/helper.c:450-453 | with NULL or another value a zero result gives LDFW_LOADED and any other gives LDFW_ERROR |
| Loader.UnknownSourceFails | board/digi/common/helper.c:437-438 | a source outside the table returns -1, unmapped, and leaves otfd alone |
| Loader.DevpartnoDefaulted | board/digi/common/helper.c:382-386 | a missing devpartno becomes the get_default_devpartno result, or "0:1" when there is none; a given one is kept |
| Loader.MassStorageStreamsOnlyWithHook | board/digi/common/helper.c:397-409 | USB/MMC/SATA run write_file_fs_otf when a hook is registered, and otherwise one load command that leaves otfd alone |
| Loader.OtherSourcesLeaveOtfd | board/digi/common/helper.c:388-439 | only the on-the-fly path touches otfd |
| Loader.NandReadChoice | board/digi/common/helper.c:410-433 | NAND runs ubifsload when UBI support is built in and the probe recognises the partition, and otherwise a raw read of the partition size truncated to 32 bits |
| Loader.RamGoesThroughMapping | board/digi/common/helper.c:434-453 | RAM's result is LDFW_NOT_LOADED put through the mapping: loaded when LDFW_NOT_LOADED is 0, an error under a required policy when it is not |
| Loader.RamIgnoresCommands | board/digi/common/helper.c:434-436 | RAM runs no command: its outcome does not depend on any command's result |
| Loader.LoadFirmware | board/digi/common/helper.c:362-454 | the return code, the updated request and otfd are those LoadFirmwareSpec gives, and the hook stays registered |
| Util.LastIndexOf | board/digi/common/helper.c:599 | absent exactly when the character does not occur; otherwise a position holding it with none after it |
| Util.GetFilenameExt | board/digi/common/helper.c:592-604 | "" for NULL or a name without a dot; the result never holds a dot; a non-empty result is the suffix after a dot that is not the first character; when the last dot is at position i the result is "" for i = 0 and the rest after it otherwise |
| Util.ExtensionRoundTrip | board/digi/common/helper.c:599-603 | base + "." + ext with a non-empty base and a dot-free ext gives ext back |
| Util.LeadingDotIsNoExtension | board/digi/common/helper.c:600-601 | a name whose only dot is its first character has no extension |
| Util.HexSlice | board/digi/common/helper.c:618-619 | each output word is parsed from at most 8 characters |
| Util.SlicesCoverPrefix | board/digi/common/helper.c:618-619 | the slices of the words do not overlap and leave no gap: together they are the first 8 * len characters, or the whole string |
| Util.StrToHex | board/digi/common/helper.c:613-622 | out[j] becomes cpu_to_be32(simple_strtol(slice j)) for each j below len, and the rest of out is unchanged |
| Util.WordEmptyIffBytes | board/digi/common/helper.c:655-674 | a 64-bit word equals the empty pattern exactly when each of its bytes is the empty byte (0xff on NAND, 0 otherwise) |
| Util.WordsEmptyIffBytesEmpty | board/digi/common/helper.c:673-678 | the word scan and the byte-wise emptiness of the same prefix agree |
| Util.MediaBlockIsEmptySpec | board/digi/common/helper.c:650-682 | the result is -1, 0 or 1; -1 exactly when the block size is 0, allocation fails or the read fails; 1 exactly when the read succeeded and the whole words of the block are erased |
| Util.TrailingBytesIgnored | board/digi/common/helper.c:673 | bytes past the last whole 8-byte word do not affect the verdict |
| Util.MediaBlockIsEmpty | board/digi/common/helper.c:650-682 | the scan with its early break returns what MediaBlockIsEmptySpec gives |
| Util.ShiftsMultiply | board/digi/common/helper.c:703-709 | one, two and three 10-bit shifts of a u64 multiply by 2^10, 2^20 and 2^30 modulo 2^64 |
| Util.MemsizeParse | board/digi/common/helper.c:696-716 | the value is the parsed number times 2^30, 2^20 or 2^10 for a following G/g, M/m or K/k (times 1 otherwise), modulo 2^64; the end pointer moves by one exactly after a suffix |
| Util.SuffixConsumesOneChar | board/digi/common/helper.c:700-713 | without a suffix value and end pointer are those of strtoull; with one the pointer moves past exactly one character of the string |
| Util.StrToU32 | board/digi/common/helper.c:517-526 | the stored value is the parsed number truncated to 32 bits in every case; 0 exactly when something was parsed and it is the whole string, -EINVAL otherwise |

## Left out

- `run_auto_bootscript`, `confirm_msg`, `confirm_prog`, `verify_mac_address` and the `fdt_fixup_*` functions are not modelled. They are console, network and device-tree plumbing.
- The text of the commands given to `run_command` is not modelled, nor how U-Boot interprets it. Each transport is a `Transfer` value whose exit status is a parameter. So the compound `ubi part`/`ubifsmount`/`ubifsload` command counts as one transfer. Whatever that script returns when `ubi part` fails is part of the parameter.
- `printf` and `debug` output is not modelled.
- `simple_strtoul`, `simple_strtoull`, `simple_strtol` and `cpu_to_be32` are parameters, as are `mtdparts_init`, `find_dev_and_part`, `nand_read_skip_bad`, `media_read_block`, `media_get_block_size`, `malloc` and the `size`/`load` commands of the chunk loop.
- `helper.h` and `otf_update.h` are not part of this model. Four values come from them, and the model takes each as follows:
  - The `SRC_*` enumeration is taken in the order of `src_strings` (tftp, nfs, nand, usb, mmc, ram, sata).
  - The `LDFW_*` values are the parameter `Codes`.
  - `OTF_FLAG_INIT` and `OTF_FLAG_FLUSH` are two distinct bits.
  - `otf_data_t` has the fields the file uses.
- The hook is a function of the `otfd` it is given. It may rewrite `buf`, `offset` and `flags`, but never `len`, `loadaddr` or `part`. The loop advances by `otfd.len` after the call, so that is an assumption about every hook.
- Otf.FlushOnlyOnLastChunk: holds only for a hook that leaves the FLUSH bit as it found it. The loop itself only ever adds FLUSH, and Otf.ExecHandsPreparedData states that without the assumption.
- Otf.ExecFlushesOnlyLastChunk: requires FLUSH to be clear when the loop starts and a hook that leaves the FLUSH bit as it finds it. A hook that sets or clears FLUSH itself can make the flag reach other chunks; Otf.ExecHandsPreparedData still says what the loop does to it.
- Otf.WriteFileFsOtfSpec: `filesize` and `loadaddr` come from `getenv_ulong`. They are taken as the size the query reports and as a number, so the model does not cover a variable that fails to parse.
- Otf.WriteFileFsOtfSpec: the local `offset` and `remaining` are `unsigned long` and cannot wrap for sizes the query can report; they are unbounded here. The offset given to each load is truncated to 32 bits, as the `(unsigned int)` cast does.
- Pointers into `argv` are modelled as copies of the strings, so aliasing between the request and `argv` is not modelled.
- Request.GetSourceSpec: `CONFIG_CMD_MTDPARTS` is a build flag. Without it, NAND takes no partition, and the request fails Loader.WellFormed unless `part` was already set beforehand.
- Request.NandPartitionMissing: `find_dev_and_part` receives `&fwinfo->part` as an output argument. The model takes it not to write that field when it fails, so "the record is unchanged" rests on that assumption.
- Loader.LoadFirmwareSpec: requires a NAND request to carry a partition (Loader.WellFormed). The code dereferences `fwinfo->part` without a check.
- Loader.LoadFirmwareSpec: requires every page read to yield at least four bytes (Loader.ValidIo). A NAND page is always larger than that.
- Loader.LoadFirmwareSpec: `def_devpartno` is a local array of `load_firmware`. The request keeps pointing at it after the function returns; that lifetime is not modelled.
- Loader.LoadFirmwareSpec: the model uses the 32-bit UBI probe (UbiProbe.IsUbiPartition); see Findings.
- Loader.LoadFirmwareSpec: the model uses the intended devpartno, not the overflowing buffer; see Findings.
- Util.StrToHex: `in` is a C string without embedded NUL characters, and `simple_strtol` is given the characters `strncpy` copies. The model requires every slice to start inside the string or at its terminator, which the code assumes without a check. Output words are naturals produced by the `cpu_to_be32` parameter; `unsigned long` width is not modelled.
- Util.MediaBlockIsEmptySpec: words are read in little-endian host order. Because the empty patterns repeat one byte, the verdict does not depend on byte order (Util.WordEmptyIffBytes).
- Util.MemsizeParse: `strtoull` is a parameter that gives the value and the number of characters consumed.
- Util.StrToU32: `strtoul` is a parameter in the same way. A NUL inside the string is not modelled, so "the end pointer is at the terminator" is "every character was consumed".
- Defaults.DefaultFilename: the `sprintf` into the 100-byte `varname` buffer is modelled as the string `partname + "_file"`, without the buffer's size limit.

## Findings

| source | as written | input that shows it | evidently intended | confidence | as-written member | corrected member |
|---|---|---|---|---|---|---|
| board/digi/common/helper.c:365-385 | `def_devpartno` is the 4-byte array "0:1". When devpartno is missing, `get_default_devpartno` formats "<mmcdev>:<mmcpart>" into it with no size limit | MMC source, no devpartno, mmcdev "0", mmcpart "10": "0:10" needs 5 bytes | the default devpartno, whatever its length, is what the request holds | high; not executed | Defaults.DevpartnoInBuffer, Defaults.DevpartnoBufferOverflows | Defaults.DevpartnoOrFallback |
| board/digi/common/helper.c:257-271 | the first word of the page is read as an `unsigned long` and compared with 0x23494255 | a target where `unsigned long` is 64 bits, and a UBI page starting 55 42 49 23 01 00 00 00 (magic, then version 1): the word is 0x0000000123494255 | the first 32 bits are compared with the magic "UBI#" | medium (only on 64-bit targets built with UBI support); not executed | UbiProbe.IsUbiAsWritten, UbiProbe.UbiMissedWith64BitLong | UbiProbe.IsUbiPartition |
