/**
 * On-the-fly update: the single-slot hook registry (otf_update_hook, otfd) and
 * write_file_fs_otf, which streams a file from a mass-storage filesystem to the
 * registered hook in chunks of CONFIG_OTF_CHUNK bytes.
 */
module Otf {
  import opened Wrappers
  import opened Sources

  /**
   * otfd.flags, as the set of its bit positions. otf_update.h is not part of
   * this model; all that matters is that OTF_FLAG_INIT and OTF_FLAG_FLUSH are
   * two distinct bits.
   */
  type Flags = set<nat>
  const INIT_BIT: nat := 0
  const FLUSH_BIT: nat := 1
  const OTF_FLAG_INIT: Flags := {INIT_BIT}

  /** The load command prints the file offset as (unsigned int): it is passed modulo 2^32. */
  const U32: nat := 0x1_0000_0000

  /** The destination partition handed over at registration (a disk_partition_t *), by identity. */
  datatype DiskPart = DiskPart(id: nat)

  /** otf_data_t; buf and loadaddr are addresses, 0 standing for NULL. */
  datatype OtfData = OtfData(loadaddr: nat, buf: nat, len: nat, part: Option<DiskPart>, offset: nat, flags: Flags)

  /**
   * What a hook call leaves behind: its return value and the fields of otfd it
   * owns (the write offset on the target, its buffer and the flags). A hook
   * does not change len, loadaddr or part.
   */
  datatype HookReply = HookReply(status: int, buf: nat, offset: nat, flags: Flags)

  type Hook = OtfData -> HookReply

  function AfterHook(d: OtfData, reply: HookReply): OtfData
  {
    d.(buf := reply.buf, offset := reply.offset, flags := reply.flags)
  }

  /** The loop's set-up of otfd for the next chunk, with `remaining` bytes still to go. */
  function Prepare(d: OtfData, remaining: nat, chunk: nat): (r: OtfData)
    requires remaining > 0 && chunk > 0
    ensures 0 < r.len <= chunk && r.len <= remaining
    ensures r.len == chunk || r.len == remaining

  {
    if remaining > chunk then d.(len := chunk)
    else d.(flags := d.flags + {FLUSH_BIT}, len := remaining)
  }

  /** The file being streamed: source, device:partition and file name. */
  datatype FsFile = FsFile(source: Source, devpartno: string, filename: Option<string>)

  /** One "load" of the chunk loop: len bytes from the file at offset, into loadaddr. */
  datatype LoadReq = LoadReq(len: nat, offset: nat)

  /** A chunk of the file: its length and its offset in the file. */
  datatype Chunk = Chunk(len: nat, offset: nat)

  /** The chunks the loop cuts `remaining` bytes into, the first at file offset `offset`. */
  function Schedule(remaining: nat, offset: nat, chunk: nat): (s: seq<Chunk>)
    requires chunk > 0
    ensures s == [] <==> remaining == 0
    ensures s != [] ==> s[0] == Chunk(if remaining > chunk then chunk else remaining, offset)
    decreases remaining
  {
    if remaining == 0 then []
    else
      var len := if remaining > chunk then chunk else remaining;
      [Chunk(len, offset)] + Schedule(remaining - len, offset + len, chunk)
  }

  function TotalLen(s: seq<Chunk>): nat
  {
    if s == [] then 0 else s[0].len + TotalLen(s[1..])
  }

  /** Every chunk of s but the last holds c bytes, the last holds the remainder, and together they hold n. */
  predicate CutsInto(s: seq<Chunk>, n: nat, c: nat)
  {
    && TotalLen(s) == n
    && (s == [] <==> n == 0)
    && (forall k :: 0 <= k < |s| - 1 ==> s[k].len == c)
    && (s != [] ==> 0 < s[|s| - 1].len <= c)
  }

  lemma CutsIntoCons(ch: Chunk, rest: seq<Chunk>, n: nat, c: nat)
    requires CutsInto(rest, n, c)
    requires 0 < ch.len <= c && (n > 0 ==> ch.len == c)
    ensures CutsInto([ch] + rest, ch.len + n, c)
  {
    var s := [ch] + rest;
    assert s[1..] == rest;
    forall k | 0 < k < |s| - 1 ensures s[k].len == c {
      assert s[k] == rest[k - 1];
    }
  }

  /** Every chunk but the last is full, the last holds the remainder, and together they are the file. */
  lemma {:induction false} ScheduleLengths(n: nat, off: nat, c: nat)
    requires c > 0
    ensures CutsInto(Schedule(n, off, c), n, c)
    decreases n
  {
    if n > 0 {
      var len := if n > c then c else n;
      ScheduleLengths(n - len, off + len, c);
      CutsIntoCons(Chunk(len, off), Schedule(n - len, off + len, c), n - len, c);
    }
  }

  /** Each chunk starts where the ones before it end. */
  lemma {:induction false} ScheduleOffsets(n: nat, off: nat, c: nat)
    requires c > 0
    ensures forall k :: 0 <= k < |Schedule(n, off, c)| ==>
      Schedule(n, off, c)[k].offset == off + TotalLen(Schedule(n, off, c)[..k])
    decreases n
  {
    if n > 0 {
      var len := if n > c then c else n;
      var rest := Schedule(n - len, off + len, c);
      ScheduleOffsets(n - len, off + len, c);
      var s := Schedule(n, off, c);
      assert s == [Chunk(len, off)] + rest;
      forall k | 0 <= k < |s| ensures s[k].offset == off + TotalLen(s[..k]) {
        if k == 0 {
          assert s[..k] == [];
          assert s[k].offset == off;
        } else {
          assert s[k] == rest[k - 1];
          assert s[..k][0] == Chunk(len, off);
          assert s[..k][1..] == rest[..k - 1];
          assert TotalLen(s[..k]) == len + TotalLen(rest[..k - 1]);
        }
      }
    }
  }

  /** The number of chunks is N / C rounded up: the smallest count whose full chunks cover N. */
  lemma {:induction false} ScheduleCount(n: nat, off: nat, c: nat)
    requires c > 0
    ensures n == 0 ==> |Schedule(n, off, c)| == 0
    ensures n > 0 ==> (|Schedule(n, off, c)| - 1) * c < n <= |Schedule(n, off, c)| * c
    decreases n
  {
    if n > 0 {
      var len := if n > c then c else n;
      ScheduleCount(n - len, off + len, c);
      var m := |Schedule(n - len, off + len, c)|;
      assert |Schedule(n, off, c)| == m + 1;
      assert (m + 1) * c == m * c + c;
    }
  }

  /** How the loop ended. */
  datatype Stop = Completed | LoadFailed | WriteFailed

  /**
   * What a run of the loop did: how it ended, the final value of its local
   * offset, the final otfd, the loads it issued and the otfd it handed to each
   * hook call, in order.
   */
  datatype Run = Run(stop: Stop, offset: nat, otfd: OtfData, loads: seq<LoadReq>, handed: seq<OtfData>)

  /**
   * What one iteration of the chunk loop does: either the loop stops (with how,
   * the load it issued, the otfd it handed to the hook if any, and the otfd it
   * leaves), or it goes on to the next chunk (with the load, the otfd handed to
   * the hook, and the otfd the next iteration starts from).
   */
  datatype Iteration =
    | Stopped(stop: Stop, req: LoadReq, handed: seq<OtfData>, otfd: OtfData)
    | Continued(req: LoadReq, x: OtfData, next: OtfData)

  /** One iteration with `remaining` bytes to go at local offset `offset`; fileLoad is the outcome of the load command. */
  function Iterate(file: FsFile, fileLoad: (FsFile, LoadReq) -> bool, remaining: nat, offset: nat,
                   d: OtfData, chunk: nat, hook: Hook): (it: Iteration)
    requires remaining > 0 && chunk > 0
    ensures it.Continued? ==> 0 < it.x.len <= remaining && it.next.len == it.x.len
    ensures it.Stopped? ==> it.stop != Completed
  {
    var d1 := Prepare(d, remaining, chunk);
    var req := LoadReq(d1.len, offset % U32);
    if !fileLoad(file, req) then Stopped(LoadFailed, req, [], d1)
    else
      var reply := hook(d1);
      if reply.status != 0 then Stopped(WriteFailed, req, [d1], AfterHook(d1, reply))
      else Continued(req, d1, AfterHook(d1, reply))
  }

  /** The chunk loop of write_file_fs_otf, iteration after iteration, until it stops or the file is done. */
  function Exec(file: FsFile, fileLoad: (FsFile, LoadReq) -> bool, remaining: nat, offset: nat,
                d: OtfData, chunk: nat, hook: Hook): (r: Run)
    requires chunk > 0
    ensures offset <= r.offset <= offset + remaining
    decreases remaining
  {
    if remaining == 0 then Run(Completed, offset, d, [], [])
    else
      match Iterate(file, fileLoad, remaining, offset, d, chunk, hook)
      case Stopped(stop, req, handed, e) => Run(stop, offset, e, [req], handed)
      case Continued(req, x, next) =>
        Prefixed([req], [x], Exec(file, fileLoad, remaining - x.len, offset + x.len, next, chunk, hook))
  }

  /** An iteration that stops ends the run with its load and its hook call, if any. */
  lemma ExecStops(file: FsFile, fileLoad: (FsFile, LoadReq) -> bool, n: nat, off: nat,
                  d: OtfData, c: nat, hook: Hook, it: Iteration)
    requires c > 0 && n > 0
    requires it == Iterate(file, fileLoad, n, off, d, c, hook) && it.Stopped?
    ensures Exec(file, fileLoad, n, off, d, c, hook) == Run(it.stop, off, it.otfd, [it.req], it.handed)
  {
  }

  /** An iteration that goes on is followed by the run of the rest: n2 bytes from offset off2, starting from d2. */
  lemma ExecContinues(file: FsFile, fileLoad: (FsFile, LoadReq) -> bool, n: nat, off: nat,
                      d: OtfData, c: nat, hook: Hook, it: Iteration, n2: nat, off2: nat, d2: OtfData)
    requires c > 0 && n > 0
    requires it == Iterate(file, fileLoad, n, off, d, c, hook) && it.Continued?
    requires n2 == n - it.x.len && off2 == off + it.x.len && d2 == it.next
    ensures Exec(file, fileLoad, n, off, d, c, hook) == Prefixed([it.req], [it.x], Exec(file, fileLoad, n2, off2, d2, c, hook))
  {
  }

  /** The record of a run that first loaded req, handed d1 to the hook and then went on as rest. */
  function Prefixed(loads: seq<LoadReq>, handed: seq<OtfData>, rest: Run): Run
  {
    rest.(loads := loads + rest.loads, handed := handed + rest.handed)
  }

  lemma PrefixedThen(loads: seq<LoadReq>, handed: seq<OtfData>, req: LoadReq, x: OtfData, rest: Run)
    ensures Prefixed(loads, handed, Prefixed([req], [x], rest)) == Prefixed(loads + [req], handed + [x], rest)
  {
    assert loads + ([req] + rest.loads) == (loads + [req]) + rest.loads;
    assert handed + ([x] + rest.handed) == (handed + [x]) + rest.handed;
  }

  /** Load k asks for chunk k of s, its file offset truncated to 32 bits. */
  predicate LoadsFollow(s: seq<Chunk>, loads: seq<LoadReq>)
  {
    && |loads| <= |s|
    && forall k :: 0 <= k < |loads| ==> loads[k] == LoadReq(s[k].len, s[k].offset % U32)
  }

  lemma LoadsFollowCons(ch: Chunk, rest: seq<Chunk>, loads: seq<LoadReq>)
    requires LoadsFollow(rest, loads)
    ensures LoadsFollow([ch] + rest, [LoadReq(ch.len, ch.offset % U32)] + loads)
  {
    var s, l := [ch] + rest, [LoadReq(ch.len, ch.offset % U32)] + loads;
    forall k | 0 < k < |l| ensures l[k] == LoadReq(s[k].len, s[k].offset % U32) {
      assert l[k] == loads[k - 1] && s[k] == rest[k - 1];
    }
  }

  /** Load k asks for chunk k of the schedule, its file offset truncated to 32 bits. */
  lemma {:induction false} ExecLoadsFollowSchedule(file: FsFile, fileLoad: (FsFile, LoadReq) -> bool,
                                                   n: nat, off: nat, d: OtfData, c: nat, hook: Hook)
    requires c > 0
    ensures LoadsFollow(Schedule(n, off, c), Exec(file, fileLoad, n, off, d, c, hook).loads)
    decreases n
  {
    if n > 0 {
      var it := Iterate(file, fileLoad, n, off, d, c, hook);
      var d1 := Prepare(d, n, c);
      var ch, rest := Chunk(d1.len, off), Schedule(n - d1.len, off + d1.len, c);
      assert Schedule(n, off, c) == [ch] + rest;
      if it.Stopped? {
        LoadsFollowCons(ch, rest, []);
      } else {
        ExecLoadsFollowSchedule(file, fileLoad, n - d1.len, off + d1.len, it.next, c, hook);
        LoadsFollowCons(ch, rest, Exec(file, fileLoad, n - d1.len, off + d1.len, it.next, c, hook).loads);
      }
    }
  }

  /**
   * A complete run made one load and one hook call per chunk of s and ended
   * at `end`; a failed one stopped at the start of the failing chunk.
   */
  predicate StopsAt(s: seq<Chunk>, end: nat, r: Run)
  {
    && (r.stop == Completed ==> |r.loads| == |r.handed| == |s| && r.offset == end)
    && (r.stop == LoadFailed ==> |r.loads| == |r.handed| + 1 && |r.handed| < |s| && r.offset == s[|r.handed|].offset)
    && (r.stop == WriteFailed ==> |r.loads| == |r.handed| > 0 && |r.handed| <= |s| && r.offset == s[|r.handed| - 1].offset)
  }

  lemma StopsAtCons(ch: Chunk, rest: seq<Chunk>, end: nat, req: LoadReq, x: OtfData, rr: Run)
    requires StopsAt(rest, end, rr)
    ensures StopsAt([ch] + rest, end, Prefixed([req], [x], rr))
  {
    var s, r := [ch] + rest, Prefixed([req], [x], rr);
    if r.stop == LoadFailed {
      assert s[|r.handed|] == rest[|rr.handed|];
    }
    if r.stop == WriteFailed && |rr.handed| > 0 {
      assert s[|r.handed| - 1] == rest[|rr.handed| - 1];
    }
  }

  /**
   * How many loads and hook calls a run made and where its local offset ended:
   * after a complete run at the end of the file; after a failure at the start
   * of the failing chunk, which is the sum of the chunks fully written.
   */
  lemma {:induction false} ExecStopsAtFirstFailure(file: FsFile, fileLoad: (FsFile, LoadReq) -> bool,
                                                   n: nat, off: nat, d: OtfData, c: nat, hook: Hook)
    requires c > 0
    ensures StopsAt(Schedule(n, off, c), off + n, Exec(file, fileLoad, n, off, d, c, hook))
    decreases n
  {
    if n > 0 {
      var it := Iterate(file, fileLoad, n, off, d, c, hook);
      var d1 := Prepare(d, n, c);
      var ch, rest := Chunk(d1.len, off), Schedule(n - d1.len, off + d1.len, c);
      assert Schedule(n, off, c) == [ch] + rest;
      if it.Continued? {
        ExecStopsAtFirstFailure(file, fileLoad, n - d1.len, off + d1.len, it.next, c, hook);
        StopsAtCons(ch, rest, off + n, it.req, it.x, Exec(file, fileLoad, n - d1.len, off + d1.len, it.next, c, hook));
      }
    }
  }

  /** The loads of r that were followed by a hook call succeeded; a load failure is r's last load. */
  predicate LoadsSucceedUntilStop(file: FsFile, fileLoad: (FsFile, LoadReq) -> bool, r: Run)
  {
    && |r.handed| <= |r.loads|
    && (forall k :: 0 <= k < |r.handed| ==> fileLoad(file, r.loads[k]))
    && (r.stop == LoadFailed ==> |r.loads| > 0 && !fileLoad(file, r.loads[|r.loads| - 1]))
  }

  lemma LoadsSucceedCons(file: FsFile, fileLoad: (FsFile, LoadReq) -> bool, req: LoadReq, x: OtfData, rr: Run)
    requires fileLoad(file, req) && LoadsSucceedUntilStop(file, fileLoad, rr)
    ensures LoadsSucceedUntilStop(file, fileLoad, Prefixed([req], [x], rr))
  {
    var r := Prefixed([req], [x], rr);
    forall k | 0 < k < |r.handed| ensures fileLoad(file, r.loads[k]) {
      assert r.loads[k] == rr.loads[k - 1];
    }
    assert r.stop == LoadFailed ==> r.loads[|r.loads| - 1] == rr.loads[|rr.loads| - 1];
  }

  /**
   * Every chunk handed to the hook was loaded successfully, and a run that
   * stopped on a load stopped at the first load that failed.
   */
  lemma {:induction false} ExecLoadsSucceedUntilStop(file: FsFile, fileLoad: (FsFile, LoadReq) -> bool,
                                                     n: nat, off: nat, d: OtfData, c: nat, hook: Hook)
    requires c > 0
    ensures LoadsSucceedUntilStop(file, fileLoad, Exec(file, fileLoad, n, off, d, c, hook))
    decreases n
  {
    if n > 0 {
      var it := Iterate(file, fileLoad, n, off, d, c, hook);
      var d1 := Prepare(d, n, c);
      if it.Continued? {
        ExecLoadsSucceedUntilStop(file, fileLoad, n - d1.len, off + d1.len, it.next, c, hook);
        LoadsSucceedCons(file, fileLoad, it.req, it.x, Exec(file, fileLoad, n - d1.len, off + d1.len, it.next, c, hook));
      }
    }
  }

  /** Every hook call of r succeeded except, when r stopped on a write, the last one. */
  predicate WritesSucceedUntilStop(hook: Hook, r: Run)
  {
    && (r.stop == WriteFailed ==> |r.handed| > 0)
    && forall k :: 0 <= k < |r.handed| ==>
         (hook(r.handed[k]).status != 0 <==> r.stop == WriteFailed && k == |r.handed| - 1)
  }

  lemma WritesSucceedCons(hook: Hook, req: LoadReq, x: OtfData, rr: Run)
    requires hook(x).status == 0 && WritesSucceedUntilStop(hook, rr)
    ensures WritesSucceedUntilStop(hook, Prefixed([req], [x], rr))
  {
    var r := Prefixed([req], [x], rr);
    forall k | 0 < k < |r.handed|
      ensures hook(r.handed[k]).status != 0 <==> r.stop == WriteFailed && k == |r.handed| - 1
    {
      assert r.handed[k] == rr.handed[k - 1];
    }
  }

  /** A run that stopped at its first iteration. */
  lemma WritesSucceedStopped(hook: Hook, r: Run)
    requires r.stop == LoadFailed ==> r.handed == []
    requires r.stop == WriteFailed ==> |r.handed| == 1 && hook(r.handed[0]).status != 0
    requires r.stop == Completed ==> r.handed == []
    ensures WritesSucceedUntilStop(hook, r)
  {
  }

  /**
   * Every chunk before the last one handed over was written successfully, and
   * a run that stopped on a write stopped at the first hook call that failed.
   */
  lemma {:induction false} ExecWritesSucceedUntilStop(file: FsFile, fileLoad: (FsFile, LoadReq) -> bool,
                                                      n: nat, off: nat, d: OtfData, c: nat, hook: Hook)
    requires c > 0
    ensures WritesSucceedUntilStop(hook, Exec(file, fileLoad, n, off, d, c, hook))
    decreases n
  {
    if n > 0 {
      var it := Iterate(file, fileLoad, n, off, d, c, hook);
      if it.Continued? {
        ExecWritesSucceedUntilStop(file, fileLoad, n - it.x.len, off + it.x.len, it.next, c, hook);
        WritesSucceedCons(hook, it.req, it.x, Exec(file, fileLoad, n - it.x.len, off + it.x.len, it.next, c, hook));
      } else {
        WritesSucceedStopped(hook, Exec(file, fileLoad, n, off, d, c, hook));
      }
    }
  }

  /** x is b prepared for a chunk of length len, flagged for flushing when it is the last one. */
  predicate PreparedFrom(x: OtfData, b: OtfData, len: nat, last: bool)
  {
    x == b.(len := len, flags := if last then b.flags + {FLUSH_BIT} else b.flags)
  }

  /**
   * Each otfd in handed is prepared, for its chunk of s, from the one before
   * it: from d for the first, and from what the previous hook call left for
   * the others.
   */
  predicate HandsPrepared(d: OtfData, hook: Hook, s: seq<Chunk>, handed: seq<OtfData>)
    decreases |handed|
  {
    && |handed| <= |s|
    && (handed != [] ==>
          && PreparedFrom(handed[0], d, s[0].len, |s| == 1)
          && HandsPrepared(AfterHook(handed[0], hook(handed[0])), hook, s[1..], handed[1..]))
  }

  lemma HandsPreparedCons(d: OtfData, x: OtfData, hook: Hook, ch: Chunk, rest: seq<Chunk>, handed: seq<OtfData>)
    requires PreparedFrom(x, d, ch.len, rest == [])
    requires HandsPrepared(AfterHook(x, hook(x)), hook, rest, handed)
    ensures HandsPrepared(d, hook, [ch] + rest, [x] + handed)
  {
    assert ([ch] + rest)[1..] == rest && ([x] + handed)[1..] == handed;
  }

  /**
   * What the loop itself does to otfd: before chunk k it sets len to the chunk's
   * length and sets OTF_FLAG_FLUSH exactly when k is the last chunk; it never
   * clears a flag and never writes offset, buf, loadaddr or part, which stay as
   * the previous hook call (or the caller) left them.
   */
  lemma {:induction false} ExecHandsPreparedData(file: FsFile, fileLoad: (FsFile, LoadReq) -> bool,
                                                 n: nat, off: nat, d: OtfData, c: nat, hook: Hook)
    requires c > 0
    ensures HandsPrepared(d, hook, Schedule(n, off, c), Exec(file, fileLoad, n, off, d, c, hook).handed)
    decreases n
  {
    if n > 0 {
      var it := Iterate(file, fileLoad, n, off, d, c, hook);
      var d1 := Prepare(d, n, c);
      var ch, rest := Chunk(d1.len, off), Schedule(n - d1.len, off + d1.len, c);
      assert Schedule(n, off, c) == [ch] + rest;
      assert rest == [] <==> n - d1.len == 0;
      assert PreparedFrom(d1, d, ch.len, rest == []);
      if it.Stopped? && it.stop == WriteFailed {
        HandsPreparedCons(d, d1, hook, ch, rest, []);
      } else if it.Continued? {
        ExecHandsPreparedData(file, fileLoad, n - d1.len, off + d1.len, it.next, c, hook);
        HandsPreparedCons(d, d1, hook, ch, rest, Exec(file, fileLoad, n - d1.len, off + d1.len, it.next, c, hook).handed);
      }
    }
  }

  /** Unless a load failed, r ends with what its last hook call left (d when there was none). */
  predicate LeavesLastHookState(d: OtfData, hook: Hook, r: Run)
  {
    r.stop != LoadFailed ==>
      r.otfd == if r.handed == [] then d else AfterHook(r.handed[|r.handed| - 1], hook(r.handed[|r.handed| - 1]))
  }

  lemma LeavesLastHookStateCons(d: OtfData, hook: Hook, req: LoadReq, x: OtfData, rr: Run)
    requires LeavesLastHookState(AfterHook(x, hook(x)), hook, rr)
    ensures LeavesLastHookState(d, hook, Prefixed([req], [x], rr))
  {
    var r := Prefixed([req], [x], rr);
    if rr.handed != [] {
      assert r.handed[|r.handed| - 1] == rr.handed[|rr.handed| - 1];
    }
  }

  /**
   * The otfd a run leaves behind: unless a load failed (which leaves the
   * prepared chunk in place), it is what the last hook call left, or the
   * initial otfd when the file was empty.
   */
  lemma {:induction false} ExecFinalData(file: FsFile, fileLoad: (FsFile, LoadReq) -> bool,
                                         n: nat, off: nat, d: OtfData, c: nat, hook: Hook)
    requires c > 0
    ensures LeavesLastHookState(d, hook, Exec(file, fileLoad, n, off, d, c, hook))
    decreases n
  {
    if n > 0 {
      var it := Iterate(file, fileLoad, n, off, d, c, hook);
      if it.Continued? {
        ExecFinalData(file, fileLoad, n - it.x.len, off + it.x.len, it.next, c, hook);
        LeavesLastHookStateCons(d, hook, it.req, it.x, Exec(file, fileLoad, n - it.x.len, off + it.x.len, it.next, c, hook));
      }
    }
  }

  /**
   * With a hook that leaves the FLUSH bit alone, a hook call sees FLUSH set
   * exactly on the last chunk of the schedule.
   */
  lemma {:induction false} FlushOnlyOnLastChunk(d: OtfData, hook: Hook, s: seq<Chunk>, handed: seq<OtfData>)
    requires FLUSH_BIT !in d.flags
    requires forall x :: FLUSH_BIT in hook(x).flags <==> FLUSH_BIT in x.flags
    requires HandsPrepared(d, hook, s, handed)
    ensures forall k :: 0 <= k < |handed| ==> (FLUSH_BIT in handed[k].flags <==> k == |s| - 1)
    decreases |handed|
  {
    if handed != [] {
      var x := handed[0];
      assert FLUSH_BIT in x.flags <==> |s| == 1;
      if |handed| > 1 {
        var next := AfterHook(x, hook(x));
        assert FLUSH_BIT !in next.flags;
        FlushOnlyOnLastChunk(next, hook, s[1..], handed[1..]);
        forall k | 1 <= k < |handed| ensures FLUSH_BIT in handed[k].flags <==> k == |s| - 1 {
          assert handed[k] == handed[1..][k - 1];
        }
      }
    }
  }

  /** So, in a run of the loop, FLUSH reaches the hook with the last chunk and no other. */
  lemma ExecFlushesOnlyLastChunk(file: FsFile, fileLoad: (FsFile, LoadReq) -> bool,
                                 n: nat, off: nat, d: OtfData, c: nat, hook: Hook)
    requires c > 0
    requires FLUSH_BIT !in d.flags
    requires forall x :: FLUSH_BIT in hook(x).flags <==> FLUSH_BIT in x.flags
    ensures forall k :: 0 <= k < |Exec(file, fileLoad, n, off, d, c, hook).handed| ==>
      (FLUSH_BIT in Exec(file, fileLoad, n, off, d, c, hook).handed[k].flags <==> k == |Schedule(n, off, c)| - 1)
  {
    ExecHandsPreparedData(file, fileLoad, n, off, d, c, hook);
    FlushOnlyOnLastChunk(d, hook, Schedule(n, off, c), Exec(file, fileLoad, n, off, d, c, hook).handed);
  }

  /** A file of size 0 loads nothing, calls no hook and succeeds. */
  lemma EmptyFileDoesNothing(file: FsFile, fileLoad: (FsFile, LoadReq) -> bool,
                             off: nat, d: OtfData, c: nat, hook: Hook)
    requires c > 0
    ensures Exec(file, fileLoad, 0, off, d, c, hook) == Run(Completed, off, d, [], [])
  {
  }

  /** Every chunk is non-empty and lies inside the file: it starts at or after `off` and ends by `off + n`. */
  lemma {:induction false} ChunksInsideFile(n: nat, off: nat, c: nat)
    requires c > 0
    ensures forall k :: 0 <= k < |Schedule(n, off, c)| ==>
      && 0 < Schedule(n, off, c)[k].len
      && off <= Schedule(n, off, c)[k].offset
      && Schedule(n, off, c)[k].offset + Schedule(n, off, c)[k].len <= off + n
    decreases n
  {
    if n > 0 {
      var len := if n > c then c else n;
      var rest := Schedule(n - len, off + len, c);
      ChunksInsideFile(n - len, off + len, c);
      var s := Schedule(n, off, c);
      assert s == [Chunk(len, off)] + rest;
      forall k | 0 < k < |s| ensures 0 < s[k].len && off <= s[k].offset && s[k].offset + s[k].len <= off + n {
        assert s[k] == rest[k - 1];
      }
    }
  }

  /** Below 4 GiB the offset each load is given is exactly the sum of the earlier chunk lengths. */
  lemma LoadOffsetsBelow4GiB(n: nat, c: nat, loads: seq<LoadReq>)
    requires c > 0 && n <= U32
    requires LoadsFollow(Schedule(n, 0, c), loads)
    ensures forall k :: 0 <= k < |loads| ==> loads[k].offset == TotalLen(Schedule(n, 0, c)[..k])
  {
    var s := Schedule(n, 0, c);
    ScheduleOffsets(n, 0, c);
    ChunksInsideFile(n, 0, c);
    forall k | 0 <= k < |loads| ensures loads[k].offset == TotalLen(s[..k]) {
      assert loads[k].offset == s[k].offset % U32;
      assert s[k].offset < U32;
    }
  }

  /** write_file_fs_otf as a function: the return code and the final otfd. */
  function WriteFileFsOtfSpec(file: FsFile, fileSize: FsFile -> Option<nat>, fileLoad: (FsFile, LoadReq) -> bool,
                              loadaddr: nat, chunk: nat, d: OtfData, hook: Hook): (r: (int, OtfData))
    requires chunk > 0
    ensures fileSize(file).None? ==> r == (-1, d)
    ensures r.0 == 0 || r.0 == -1
    ensures r.0 == 0 <==>
      fileSize(file).Some? && Exec(file, fileLoad, fileSize(file).value, 0, d.(loadaddr := loadaddr), chunk, hook).stop == Completed
    ensures fileSize(file).Some? ==> r.1 == Exec(file, fileLoad, fileSize(file).value, 0, d.(loadaddr := loadaddr), chunk, hook).otfd
  {
    match fileSize(file)
    case None => (-1, d)
    case Some(n) =>
      var run := Exec(file, fileLoad, n, 0, d.(loadaddr := loadaddr), chunk, hook);
      (if run.stop == Completed then 0 else -1, run.otfd)
  }

  /** The on-the-fly state: the registered hook and the otfd it is given. */
  class OtfUpdate {
    var hook: Option<Hook>
    var otfd: OtfData

    /** Both live in zero-initialised static storage. */
    constructor ()
      ensures hook == None && otfd == OtfData(0, 0, 0, None, 0, {})
    {
      hook := None;
      otfd := OtfData(0, 0, 0, None, 0, {});
    }

    /** register_fs_otf_update_hook: install the hook and reset otfd for a new transfer. */
    method Register(h: Hook, partition: Option<DiskPart>)
      modifies this
      ensures hook == Some(h)
      ensures otfd == old(otfd).(buf := 0, part := partition, flags := OTF_FLAG_INIT, offset := 0)
    {
      hook := Some(h);
      otfd := otfd.(buf := 0, part := partition, flags := OTF_FLAG_INIT, offset := 0);
    }

    /** unregister_fs_otf_update_hook: clear the hook only. */
    method Unregister()
      modifies this
      ensures hook == None && otfd == old(otfd)
    {
      hook := None;
    }

    /**
     * One iteration of the chunk loop of write_file_fs_otf: prepare otfd for
     * the next chunk, load it and hand it to the hook; ok is false when the
     * loop must stop.
     */
    method WriteChunk(file: FsFile, fileLoad: (FsFile, LoadReq) -> bool, h: Hook, chunk: nat,
                      remaining: nat, offset: nat) returns (ok: bool, ghost it: Iteration)
      requires chunk > 0 && remaining > 0
      modifies this
      ensures hook == old(hook)
      ensures it == Iterate(file, fileLoad, remaining, offset, old(otfd), chunk, h)
      ensures ok == it.Continued?
      ensures otfd == if ok then it.next else it.otfd
    {
      var d := otfd;
      // a full chunk, or the rest of the file flagged for flushing
      if remaining > chunk {
        d := d.(len := chunk);
      } else {
        d := d.(flags := d.flags + {FLUSH_BIT}, len := remaining);
      }
      // fetch the chunk at the local offset into loadaddr
      var req := LoadReq(d.len, offset % U32);
      if !fileLoad(file, req) {
        otfd := d;
        return false, Stopped(LoadFailed, req, [], d);
      }
      // hand the chunk to the hook
      var reply := h(d);
      otfd := AfterHook(d, reply);
      if reply.status != 0 {
        return false, Stopped(WriteFailed, req, [d], otfd);
      }
      return true, Continued(req, d, otfd);
    }

    /**
     * write_file_fs_otf: query the size, then load and hand over one chunk at
     * a time. `loadaddr` is the value of the loadaddr variable. The ghost run
     * records what the loop did.
     */
    method WriteFileFsOtf(file: FsFile, fileSize: FsFile -> Option<nat>, fileLoad: (FsFile, LoadReq) -> bool,
                          loadaddr: nat, chunk: nat) returns (rc: int, ghost run: Option<Run>)
      requires hook.Some? && chunk > 0
      modifies this
      ensures hook == old(hook)
      ensures (rc, otfd) == WriteFileFsOtfSpec(file, fileSize, fileLoad, loadaddr, chunk, old(otfd), hook.value)
      ensures run.Some? <==> fileSize(file).Some?
      ensures run.Some? ==>
        run.value == Exec(file, fileLoad, fileSize(file).value, 0, old(otfd).(loadaddr := loadaddr), chunk, hook.value)
    {
      var size := fileSize(file);
      if size.None? {
        return -1, None;  // the size query failed
      }
      otfd := otfd.(loadaddr := loadaddr);
      var ok;
      ghost var r;
      ok, r := WriteChunks(file, fileLoad, hook.value, chunk, size.value);
      rc := if ok then 0 else -1;
      run := Some(r);
    }

    /**
     * The chunk loop of write_file_fs_otf over a file of `filesize` bytes; ok
     * is false when a load or a hook call failed.
     */
    method WriteChunks(file: FsFile, fileLoad: (FsFile, LoadReq) -> bool, h: Hook, chunk: nat, filesize: nat)
      returns (ok: bool, ghost run: Run)
      requires chunk > 0
      modifies this
      ensures hook == old(hook)
      ensures run == Exec(file, fileLoad, filesize, 0, old(otfd), chunk, h)
      ensures ok == (run.stop == Completed) && otfd == run.otfd
    {
      var remaining: nat := filesize;
      var offset: nat := 0;
      run := Exec(file, fileLoad, filesize, 0, otfd, chunk, h);
      ghost var loads: seq<LoadReq> := [];
      ghost var handed: seq<OtfData> := [];
      while remaining > 0
        invariant hook == old(hook)
        invariant run == Prefixed(loads, handed, Exec(file, fileLoad, remaining, offset, otfd, chunk, h))
        decreases remaining
      {
        ghost var before, remaining0, offset0 := otfd, remaining, offset;
        ghost var it;
        ok, it := WriteChunk(file, fileLoad, h, chunk, remaining, offset);
        if !ok {
          ExecStops(file, fileLoad, remaining, offset, before, chunk, h, it);
          return;
        }
        offset := offset + otfd.len;
        remaining := remaining - otfd.len;
        ExecContinues(file, fileLoad, remaining0, offset0, before, chunk, h, it, remaining, offset, otfd);
        PrefixedThen(loads, handed, it.req, it.x, Exec(file, fileLoad, remaining, offset, otfd, chunk, h));
        loads, handed := loads + [it.req], handed + [it.x];
      }
      EmptyFileDoesNothing(file, fileLoad, offset, otfd, chunk, h);
      ok := true;
    }
  }
}
