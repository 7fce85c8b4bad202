/** The sending side in place: the queue, the cursors and the counters of block_mig_state, with
    every method proved to be a run of the state machine. */
module BlockSaver {
  import opened Words
  import opened BlockState
  import opened BlockInvariant
  import opened BlockMigration
  import opened BlockRun
  import S = BlockStream
  import R = RamState

  /** Environment steps neither read nor write the stream. */
  lemma EnvIgnoresOut(st: State, ev: Event, out: seq<Record>)
    requires IsEnv(ev)
    ensures Step(st.(out := out), ev) == Step(st, ev).(out := out)
  {
    hide BeginWrite, WriteByte, EndWrite, WriteNow, Sampled, Finished, Complete, UnderWrite, InDisk;
  }

  /** The driver's answer for a run of sectors: bdrv_is_allocated. */
  method IsAllocated(present: seq<bool>, sector: nat, max: nat) returns (a: bool, n: nat)
    requires sector < |present| && max > 0
    ensures a == present[sector] && 0 < n <= max && sector + n <= |present|
    ensures forall k :: sector <= k < sector + n ==> present[k] == a
  {
    a, n := present[sector], 1;
    while n < max && sector + n < |present| && present[sector + n] == a
      invariant 0 < n <= max && sector + n <= |present|
      invariant forall k :: sector <= k < sector + n ==> present[k] == a
    {
      n := n + 1;
    }
  }

  lemma {:induction false} FirstAllocatedSkips(present: seq<bool>, s: nat, t: nat)
    requires s <= t <= |present| && forall k :: s <= k < t ==> !present[k]
    ensures FirstAllocated(present, s) == FirstAllocated(present, t)
    decreases t - s
  {
    if s < t {
      FirstAllocatedSkips(present, s + 1, t);
    }
  }

  /** The loop that skips what the shared base already has. */
  method SkipUnallocated(v: Dev) returns (s: nat)
    requires v.cur <= Total(v)
    ensures s == BulkStart(v)
  {
    s := v.cur;
    if v.sharedBase {
      while s < Total(v)
        invariant s <= Total(v) && FirstAllocated(v.present, v.cur) == FirstAllocated(v.present, s)
      {
        var a, n := IsAllocated(v.present, s, 65536);
        if a {
          return;
        }
        FirstAllocatedSkips(v.present, s, s + n);
        s := s + n;
      }
    }
  }

  lemma {:induction false} CompletedSumPrefix(a: seq<Dev>, b: seq<Dev>, n: nat)
    requires n <= |a| && n <= |b| && forall k :: 0 <= k < n ==> a[k].completed == b[k].completed
    ensures CompletedSum(a, n) == CompletedSum(b, n)
  {
    if n > 0 {
      CompletedSumPrefix(a, b, n - 1);
    }
  }

  lemma {:induction false} TotalSumShape(a: seq<Dev>, b: seq<Dev>, n: nat)
    requires SameShape(a, b) && n <= |a|
    ensures TotalSum(a, n) == TotalSum(b, n)
  {
    hide Total;
    if n > 0 {
      TotalSumShape(a, b, n - 1);
    }
  }

  lemma ShapeCounts(a: seq<Dev>, b: seq<Dev>)
    requires SameShape(a, b)
    ensures |a| == |b| && TotalSum(a, |a|) == TotalSum(b, |b|)
  {
    TotalSumShape(a, b, |a|);
  }

  lemma UnfinishedIs(devs: seq<Dev>, i: nat, d: nat)
    requires i <= d < |devs| && !devs[d].bulkDone && forall k :: i <= k < d ==> devs[k].bulkDone
    ensures FirstUnfinished(devs, i) == d
  {}

  lemma AllFinished(devs: seq<Dev>)
    requires AllBulkDone(devs)
    ensures FirstUnfinished(devs, 0) == |devs|
  {}

  lemma HeadNamed(st: State, names: seq<seq<Byte>>)
    requires Valid(st) && st.queue != [] && |names| == |st.devs| && S.ValidNames(names)
    ensures st.queue[0].dev < |names| && R.ValidId(names[st.queue[0].dev])
  {
    assert ValidBlock(st.devs, st.queue[0]);
  }

  /** No dirty chunk lies below the cursor. */
  ghost predicate CleanBelow(v: Dev, cursor: nat) {
    cursor % 2048 == 0 && forall k: nat :: 2048 * k < cursor ==> k !in v.dirty
  }

  /** Passing over clean chunks does not change the next dirty one. */
  lemma {:induction false} NextDirtySkips(v: Dev, a: nat, b: nat)
    requires a <= b && forall k: nat :: a <= k < b ==> k !in v.dirty && 2048 * k < Total(v)
    ensures NextDirty(v, a) == NextDirty(v, b)
    decreases b - a
  {
    if a < b {
      NextDirtySkips(v, a + 1, b);
    }
  }

  lemma DirtyFound(v: Dev, c: nat)
    requires CleanBelow(v, 2048 * c) && 2048 * c < Total(v) && c in v.dirty
    ensures NextDirty(v, 0) == c && HasDirty(v)
  {
    NextDirtySkips(v, 0, c);
  }

  lemma NoneFound(v: Dev, cursor: nat)
    requires ValidDev(v) && CleanBelow(v, cursor) && cursor >= Total(v)
    ensures !HasDirty(v)
  {
    HasDirtyIff(v);
    forall k: nat ensures k !in v.dirty {}
  }

  /** A drive of the source. */
  datatype Drive = Drive(name: seq<Byte>, disk: seq<Byte>, present: seq<bool>, readOnly: bool)

  predicate Migrates(r: Drive) {
    !r.readOnly && |r.disk| / 512 > 0
  }

  /** The drives that take part: init_blk_migration_it. */
  function Migrated(drives: seq<Drive>): (r: seq<Drive>)
    ensures forall i :: 0 <= i < |r| ==> r[i] in drives && Migrates(r[i])
    ensures forall v :: v in drives && Migrates(v) ==> v in r
  {
    if drives == [] then []
    else (if Migrates(drives[0]) then [drives[0]] else []) + Migrated(drives[1..])
  }

  function StartDev(r: Drive, sharedBase: bool): Dev {
    Dev(r.disk, r.present, sharedBase, {}, {}, [], 0, 0, false)
  }

  function StartDevs(drives: seq<Drive>, sharedBase: bool): (devs: seq<Dev>)
    ensures |devs| == |drives|
  {
    seq(|drives|, d requires 0 <= d < |drives| => StartDev(drives[d], sharedBase))
  }

  function Names(drives: seq<Drive>): (names: seq<seq<Byte>>)
    ensures |names| == |drives|
  {
    seq(|drives|, d requires 0 <= d < |drives| => drives[d].name)
  }

  lemma StartIsInitial(drives: seq<Drive>, sharedBase: bool)
    requires forall i :: 0 <= i < |drives| ==> |drives[i].disk| == 512 * |drives[i].present| && |drives[i].present| > 0
    ensures
      var st := State(StartDevs(drives, sharedBase), [], [], [], 0, 0, false, -1);
      Initial(st) && Valid(st)
  {}

  class Saver {
    const names: seq<seq<Byte>>
    const totalSectorSum: nat
    var devs: seq<Dev>
    var curDirty: seq<nat>
    var pending: seq<Read>
    var queue: seq<Block>
    var stream: seq<Byte>
    var submitted: int
    var readDone: int
    var bulkCompleted: bool
    var prevProgress: int
    ghost var out: seq<Record>

    ghost function Abstract(): State
      reads this
    {
      State(devs, pending, queue, out, submitted, readDone, bulkCompleted, prevProgress)
    }

    /** The state is well formed and the bytes written are those of the records. */
    ghost predicate Ok()
      reads this
    {
      && BlockState.Valid(Abstract())
      && S.ValidNames(names) && |names| == |devs| == |curDirty| && totalSectorSum == TotalSum(devs, |devs|)
      && S.AllNamed(names, out) && stream == S.StreamBytes(names, out)
    }

    /** Stage 1: the writable, nonempty drives, with tracking just enabled. */
    constructor (drives: seq<Drive>, sharedBase: bool)
      requires S.ValidNames(Names(Migrated(drives)))
      requires forall i :: 0 <= i < |drives| ==> |drives[i].disk| == 512 * |drives[i].present|
      ensures Ok() && Initial(Abstract()) && names == Names(Migrated(drives)) && devs == StartDevs(Migrated(drives), sharedBase)
    {
      var chosen := Migrated(drives);
      names, devs := Names(chosen), StartDevs(chosen, sharedBase);
      totalSectorSum := TotalSum(StartDevs(chosen, sharedBase), |chosen|);
      curDirty, pending, queue, stream := seq(|chosen|, _ => 0), [], [], [];
      submitted, readDone, bulkCompleted, prevProgress, out := 0, 0, false, -1, [];
      StartIsInitial(chosen, sharedBase);
    }

    /** blk_mig_bytes_remaining never goes below zero. */
    method BytesRemaining() returns (r: int)
      requires Ok()
      ensures 0 <= r <= 512 * totalSectorSum
      ensures r == 512 * (TotalSum(devs, |devs|) - CompletedSum(devs, |devs|))
    {
      hide BlockState.Valid, S.ValidNames, S.AllNamed, S.StreamBytes;
      var transferred, total := 0, 0;
      for d := 0 to |devs|
        invariant transferred == CompletedSum(devs, d) && total == TotalSum(devs, d)
      {
        transferred, total := transferred + devs[d].completed, total + Total(devs[d]);
      }
      assert ValidDevs(devs) by { DevsValid(Abstract()); }
      CompletedAtMostTotal(devs, |devs|);
      r := total * 512 - transferred * 512;
    }

    /** The cursors of the dirty pass are at chunk boundaries. */
    predicate CursorsAligned()
      reads this
    {
      forall d :: 0 <= d < |curDirty| ==> curDirty[d] % 2048 == 0
    }

    /** The dirty pass is through with the first n devices. */
    ghost predicate AtEnd(n: nat)
      reads this
    {
      forall d :: 0 <= d < n && d < |devs| && d < |curDirty| ==> curDirty[d] >= Total(devs[d])
    }

    /** Appends one record to the stream. */
    method Put(ghost r: Record, bytes: seq<Byte>)
      requires S.Named(names, r) && S.AllNamed(names, out) && bytes == S.RecordBytes(names, r) && stream == S.StreamBytes(names, out)
      modifies this`stream, this`out
      ensures out == old(out) + [r] && S.AllNamed(names, out) && stream == S.StreamBytes(names, out)
    {
      S.StreamAppend(names, out, r);
      stream, out := stream + bytes, out + [r];
    }

    /** mig_save_device_bulk */
    method SaveDeviceBulk(d: nat) returns (done: bool)
      requires Ok() && d < |devs| && !devs[d].bulkDone && !bulkCompleted
      modifies this`devs, this`pending, this`submitted
      ensures d < |devs| && !devs[d].bulkDone
      ensures SetDev(Abstract(), d, devs[d].(bulkDone := done)) == BulkDevice(old(Abstract()), d)
    {
      hide NewRead, BlockState.Valid, S.ValidNames, S.AllNamed, S.StreamBytes, FirstAllocated;
      DevOf(Abstract(), d);
      var v := devs[d];
      var start := SkipUnallocated(v);
      if start >= Total(v) {
        devs := devs[d := v.(cur := Total(v), completed := Total(v))];
        return true;
      }
      var sector := start / 2048 * 2048;
      var nr := if Total(v) - sector < 2048 then Total(v) - sector else 2048;
      pending, submitted := pending + [NewRead(d, Total(v), sector)], submitted + 1;
      devs := devs[d := v.(completed := start, dirty := v.dirty - {sector / 2048}, cur := sector + nr)];
      return sector + nr >= Total(v);
    }

    /** The guest and the reads in flight, including blk_mig_read_cb. */
    method RunEnvironment(script: seq<Event>)
      requires Ok() && OnlyEnv(script)
      modifies this`devs, this`pending, this`queue, this`submitted, this`readDone
      ensures Ok() && Abstract() == Run(old(Abstract()), script)
      ensures submitted + readDone == old(submitted + readDone)
    {
      hide BlockState.Valid, S.ValidNames, S.AllNamed, S.StreamBytes, TotalSum, Step, IsEnv, SameShape;
      for i := 0 to |script|
        invariant Ok() && Run(old(Abstract()), script) == Run(Abstract(), script[i..])
        invariant submitted + readDone == old(submitted + readDone)
      {
        ghost var before := Abstract();
        var st := Step(State(devs, pending, queue, [], submitted, readDone, bulkCompleted, prevProgress), script[i]);
        EnvIgnoresOut(before, script[i], []);
        EnvKeeps(before, script[i]);
        StepKeepsValid(before, script[i]);
        StepShape(before, script[i]);
        devs, pending, queue, submitted, readDone := st.devs, st.pending, st.queue, st.submitted, st.readDone;
        assert Abstract() == Step(before, script[i]);
        ShapeCounts(before.devs, devs);
        assert script[i..][0] == script[i] && script[i..][1..] == script[i + 1..];
      }
      assert script[|script|..] == [];
    }

    /** qemu_aio_flush, when the chunk is marked in flight. */
    method AwaitChunk(d: nat, c: nat, env: Environment)
      requires Ok() && d < |devs| && Flushes(env)
      modifies this`devs, this`pending, this`queue, this`submitted, this`readDone
      ensures Ok() && Abstract() == Run(old(Abstract()), AwaitEvents(old(Abstract()), d, c, env))
      ensures submitted + readDone == old(submitted + readDone)
      ensures Total(devs[d]) == Total(old(devs)[d]) && (c in old(devs)[d].inflight ==> pending == [])
    {
      hide BlockState.Valid, S.ValidNames, S.AllNamed, S.StreamBytes, TotalSum, Run, IsEnv, OrderlyRun;
      AwaitKeeps(Abstract(), d, c, env);
      RunNone(Abstract());
      if c in devs[d].inflight {
        RunEnvironment(env(devs, pending));
      }
    }

    /** A dirty chunk is read asynchronously. */
    method SubmitChunk(d: nat, c: nat)
      requires Ok() && bulkCompleted && d < |devs| && 2048 * c < Total(devs[d]) && c in devs[d].dirty
      modifies this`devs, this`pending, this`submitted
      ensures Ok() && Abstract() == Step(old(Abstract()), DirtyStep(d, c)) && submitted == old(submitted) + 1
      ensures |devs| == |old(devs)| && Total(devs[d]) == Total(old(devs)[d])
    {
      hide BlockState.Valid, S.ValidNames, S.AllNamed, S.StreamBytes, TotalSum, NewRead, SameShape;
      StepKeepsValid(Abstract(), DirtyStep(d, c));
      StepShape(Abstract(), DirtyStep(d, c));
      ghost var before := devs;
      var v := devs[d];
      pending, submitted := pending + [NewRead(d, Total(v), 2048 * c)], submitted + 1;
      devs := devs[d := v.(dirty := v.dirty - {c}, inflight := v.inflight + {c})];
      ShapeCounts(before, devs);
    }

    /** mig_save_device_dirty with is_async: from the cursor on, the first dirty chunk is read. */
    method SaveDeviceDirty(d: nat, env: Environment) returns (done: bool)
      requires Ok() && bulkCompleted && d < |devs| && Flushes(env) && curDirty[d] % 2048 == 0
      modifies this`devs, this`pending, this`queue, this`submitted, this`readDone, this`curDirty
      ensures var s := ScanDevice(old(Abstract()), d, old(curDirty)[d], env);
              Ok() && Abstract() == Run(old(Abstract()), s.evs) && done == !s.result.found && curDirty == old(curDirty)[d := s.result.sector]
      ensures submitted + readDone == old(submitted + readDone) + if done then 0 else 1
      ensures done == (curDirty[d] >= Total(devs[d])) && curDirty[d] % 2048 == 0
    {
      hide BlockState.Valid, S.ValidNames, S.AllNamed, S.StreamBytes, TotalSum, Run, Step, Flushes, AwaitEvents, ScanDevice;
      var sector := curDirty[d];
      ghost var evs := [];
      RunNone(Abstract());
      ghost var st0 := Abstract();
      ghost var whole := ScanDevice(st0, d, sector, env);
      while sector < Total(devs[d])
        invariant Ok() && sector % 2048 == 0 && sector == curDirty[d] && curDirty == old(curDirty)[d := sector]
        invariant Abstract() == Run(st0, evs) && submitted + readDone == old(submitted + readDone)
        invariant whole == Then(evs, ScanDevice(Abstract(), d, sector, env))
        decreases Total(devs[d]) - sector
      {
        var c := sector / 2048;
        ghost var st := Abstract();
        ScanDeviceUnfolds(st, d, sector, env);
        ghost var more := AwaitEvents(st, d, c, env);
        AwaitChunk(d, c, env);
        RunConcat(st0, evs, more);
        if c in devs[d].dirty {
          st := Abstract();
          SubmitChunk(d, c);
          RunOne(st, DirtyStep(d, c));
          RunConcat(st0, evs + more, [DirtyStep(d, c)]);
          ThenConcat(evs, more, Ran([DirtyStep(d, c)], Cursor(sector, true)));
          return false;
        }
        sector := sector + 2048;
        curDirty := curDirty[d := sector];
        ThenConcat(evs, more, ScanDevice(Abstract(), d, sector, env));
        evs := evs + more;
      }
      ScanDeviceUnfolds(Abstract(), d, sector, env);
      ThenConcat(evs, [], Ran([], Cursor(sector, false)));
      return true;
    }

    /** blk_mig_save_dirty_block with is_async: true when a chunk was submitted. */
    method SaveDirtyBlock(env: Environment) returns (more: bool)
      requires Ok() && bulkCompleted && Flushes(env) && CursorsAligned()
      modifies this`devs, this`pending, this`queue, this`submitted, this`readDone, this`curDirty
      ensures var s := ScanFrom(old(Abstract()), old(curDirty), 0, env);
              Ok() && Abstract() == Run(old(Abstract()), s.evs) && more == s.result.found && curDirty == s.result.sectors
      ensures submitted + readDone == old(submitted + readDone) + if more then 1 else 0
      ensures CursorsAligned() && (!more ==> AtEnd(|devs|))
    {
      hide BlockState.Valid, S.ValidNames, S.AllNamed, S.StreamBytes, TotalSum, Run, Step, Flushes, ScanDevice, ScanFrom;
      ghost var evs := [];
      RunNone(Abstract());
      ghost var st0 := Abstract();
      ghost var whole := ScanFrom(st0, curDirty, 0, env);
      for d := 0 to |devs|
        invariant Ok() && |devs| == |old(devs)| && CursorsAligned() && AtEnd(d)
        invariant Abstract() == Run(st0, evs) && submitted + readDone == old(submitted + readDone)
        invariant whole == Then(evs, ScanFrom(Abstract(), curDirty, d, env))
      {
        ghost var st := Abstract();
        ghost var s := ScanDevice(st, d, curDirty[d], env);
        ScanFromUnfolds(st, curDirty, d, env);
        var done := SaveDeviceDirty(d, env);
        RunConcat(st0, evs, s.evs);
        RunShape(st, s.evs);
        if !done {
          ThenConcat(evs, s.evs, Ran([], Cursors(curDirty, true)));
          assert evs + s.evs + [] == evs + s.evs;
          return true;
        }
        ThenConcat(evs, s.evs, ScanFrom(Abstract(), curDirty, d + 1, env));
        evs := evs + s.evs;
      }
      ScanFromUnfolds(Abstract(), curDirty, |devs|, env);
      ThenConcat(evs, [], Ran([], Cursors(curDirty, false)));
      return false;
    }

    /** Reports the percentage when it has changed. */
    method ReportProgress(percent: nat)
      requires Ok() && percent <= 100
      modifies this`prevProgress, this`stream, this`out
      ensures Ok() && Abstract() == Report(old(Abstract()), percent)
    {
      hide BlockState.Valid, S.ValidNames, S.AllNamed, S.StreamBytes, TotalSum;
      ReportKeepsValid(Abstract(), percent);
      if percent != prevProgress {
        prevProgress := percent;
        Put(Progress(percent), S.Word(percent, S.FLAG_PROGRESS));
      }
    }

    /** The end of blk_mig_save_bulked_block. */
    method ReportPercent(sum: nat, ghost n: nat)
      requires Ok() && n <= |devs| && sum == CompletedSum(devs, n)
      modifies this`prevProgress, this`stream, this`out
      ensures Ok() && Abstract() == Report(old(Abstract()), Percent(devs, n))
    {
      hide BlockState.Valid, S.ValidNames, S.AllNamed, S.StreamBytes, TotalSum, CompletedSum;
      assert ValidDevs(devs) by { DevsValid(Abstract()); }
      PercentBound(devs, n);
      var progress := if totalSectorSum != 0 then sum * 100 / totalSectorSum else 100;
      ReportProgress(progress);
    }

    /** The device loop of blk_mig_save_bulked_block. */
    method SaveFirstUnfinished() returns (more: bool, sum: nat, ghost n: nat)
      requires Ok() && !bulkCompleted
      modifies this`devs, this`pending, this`submitted
      ensures Ok() && n <= |devs| && sum == CompletedSum(devs, n)
      ensures
        var d := FirstUnfinished(old(devs), 0);
        && more == (d < |old(devs)|)
        && if more then n == d + 1 && Abstract() == BulkDevice(old(Abstract()), d) else n == d && Abstract() == old(Abstract())
    {
      hide BlockState.Valid, S.ValidNames, S.AllNamed, S.StreamBytes, TotalSum, BulkDevice, FirstUnfinished;
      sum := 0;
      for i := 0 to |devs|
        invariant sum == CompletedSum(devs, i) && Abstract() == old(Abstract()) && Ok()
        invariant forall k :: 0 <= k < i ==> devs[k].bulkDone
      {
        if !devs[i].bulkDone {
          UnfinishedIs(devs, 0, i);
          DevOf(Abstract(), i);
          BulkDeviceKeepsValid(Abstract(), i);
          BulkDeviceShape(Abstract(), i);
          ghost var before := devs;
          var done := SaveDeviceBulk(i);
          if done {
            devs := devs[i := devs[i].(bulkDone := true)];
          }
          assert Abstract() == BulkDevice(old(Abstract()), i);
          TotalSumShape(before, devs, |devs|);
          CompletedSumPrefix(before, devs, i);
          return true, sum + devs[i].completed, i + 1;
        }
        sum := sum + devs[i].completed;
      }
      AllFinished(devs);
      return false, sum, |devs|;
    }

    /** blk_mig_save_bulked_block; the caller ends the bulk phase when it returns false. */
    method SaveBulkedBlock() returns (more: bool)
      requires Ok() && !bulkCompleted
      modifies this`devs, this`pending, this`submitted, this`prevProgress, this`stream, this`out
      ensures Ok() && Step(old(Abstract()), BulkStep) == Abstract().(bulkCompleted := !more)
    {
      hide BlockState.Valid, S.ValidNames, S.AllNamed, S.StreamBytes, TotalSum, BulkDevice, Percent;
      BulkEnabled(Abstract());
      var sum; ghost var n;
      more, sum, n := SaveFirstUnfinished();
      ReportPercent(sum, n);
    }

    /** flush_blks: sends from the head of the queue until the file is limited (the answers of
        qemu_file_rate_limit), the queue is empty, or a read had failed. */
    method FlushBlks(limits: seq<bool>) returns (error: bool)
      requires Ok()
      modifies this`queue, this`readDone, this`stream, this`out
      ensures var o := FlushRun(old(Abstract()), limits); Ok() && Abstract() == Run(old(Abstract()), o.evs) && error == o.result
      ensures error ==> BlockInvariant.Failed(queue)
      ensures !error && |limits| > |old(queue)| && (forall i :: 0 <= i < |limits| ==> !limits[i]) ==> queue == []
    {
      hide BlockState.Valid, S.ValidNames, S.AllNamed, S.StreamBytes, TotalSum, Run, Step, FlushRun;
      ghost var evs := [];
      RunNone(Abstract());
      ghost var st0 := Abstract();
      ghost var whole := FlushRun(st0, limits);
      FlushRunKeeps(st0, limits);
      assert limits[0..] == limits;
      for i := 0 to |limits|
        invariant Ok() && Abstract() == Run(st0, evs)
        invariant whole == Then(evs, FlushRun(Abstract(), limits[i..]))
      {
        ghost var st := Abstract();
        FlushRunUnfolds(st, limits[i..]);
        ThenConcat(evs, [], Ran([], !limits[i] && queue != [] && !queue[0].ok));
        if queue == [] || limits[i] {
          return false;
        }
        if !queue[0].ok {
          return true;
        }
        SendHead();
        RunOne(st, FlushStep);
        RunConcat(st0, evs, [FlushStep]);
        assert limits[i..][1..] == limits[i + 1..];
        ThenConcat(evs, [FlushStep], FlushRun(Abstract(), limits[i + 1..]));
        evs := evs + [FlushStep];
      }
      FlushRunUnfolds(Abstract(), limits[|limits|..]);
      ThenConcat(evs, [], Ran([], false));
      return false;
    }

    /** The loop of stage 2 that keeps up to `limit` bytes read or being read. */
    method SubmitReads(limit: nat, env: Environment)
      requires Ok() && CursorsAligned() && Flushes(env)
      modifies this
      ensures Ok() && Abstract() == Run(old(Abstract()), SubmitEvents(old(Abstract()), old(curDirty), limit, env))
      ensures (submitted + readDone) * 1048576 >= limit || (bulkCompleted && AtEnd(|devs|))
    {
      hide BlockState.Valid, S.ValidNames, S.AllNamed, S.StreamBytes, TotalSum, Run, Step, Flushes, FirstUnfinished, SubmitEvents, ScanFrom;
      ghost var evs := [];
      RunNone(Abstract());
      ghost var st0 := Abstract();
      ghost var whole := SubmitEvents(st0, curDirty, limit, env);
      while (submitted + readDone) * 1048576 < limit
        invariant Ok() && CursorsAligned() && Abstract() == Run(st0, evs)
        invariant whole == evs + SubmitEvents(Abstract(), curDirty, limit, env)
        decreases limit - (submitted + readDone) * 1048576, !bulkCompleted, |devs| - FirstUnfinished(devs, 0)
      {
        ghost var st := Abstract();
        SubmitUnfolds(st, curDirty, limit, env);
        if !bulkCompleted {
          var more := SaveBulkedBlock();
          BulkProgress(st);
          BulkEndKeepsOk(st, Abstract().(bulkCompleted := !more));
          bulkCompleted := !more;
          RunOne(st, BulkStep);
          RunConcat(st0, evs, [BulkStep]);
          EventsAssoc(evs, [BulkStep], SubmitEvents(Abstract(), curDirty, limit, env));
          evs := evs + [BulkStep];
        } else {
          ghost var s := ScanFrom(st, curDirty, 0, env);
          var more := SaveDirtyBlock(env);
          RunConcat(st0, evs, s.evs);
          if !more {
            return;
          }
          EventsAssoc(evs, s.evs, SubmitEvents(Abstract(), curDirty, limit, env));
          evs := evs + s.evs;
        }
      }
      SubmitUnfolds(Abstract(), curDirty, limit, env);
      assert evs + [] == evs;
    }

    method EndSection()
      requires Ok()
      modifies this`stream, this`out
      ensures Ok() && Abstract() == Step(old(Abstract()), Event.EndSection)
    {
      hide BlockState.Valid, S.ValidNames, S.AllNamed, S.StreamBytes, TotalSum;
      EosKeepsValid(Abstract());
      Put(Eos, S.Word(0, S.FLAG_EOS));
    }

    /** The first flush of stage 2 and the reads it submits. */
    method SubmitStage2(r: Round, env: Environment) returns (error: bool)
      requires Ok() && Flushes(env)
      modifies this
      ensures var o := Stage2Reads(old(Abstract()), r, env);
              Ok() && error == o.result && Abstract() == Run(old(Abstract()), o.evs)
      ensures !error ==> (submitted + readDone) * 1048576 >= r.limit || (bulkCompleted && AtEnd(|devs|))
    {
      hide BlockState.Valid, S.ValidNames, S.AllNamed, S.StreamBytes, TotalSum, Run, Step, Flushes, Failed, FlushRun, SubmitEvents;
      ghost var st0 := Abstract();
      ghost var a := FlushRun(st0, r.before);
      error := FlushBlks(r.before);
      if error {
        return;
      }
      ghost var st := Abstract();
      curDirty := Zeros(|devs|);
      SubmitReads(r.limit, env);
      RunConcat(st0, a.evs, SubmitEvents(st, Zeros(|st.devs|), r.limit, env));
    }

    /** block_save_live in stage 2, up to the estimate that decides whether to go on to stage 3. */
    method SaveStage2(r: Round, env: Environment) returns (error: bool)
      requires Ok() && Flushes(env)
      modifies this
      ensures var o := Stage2(old(Abstract()), r, env);
              Ok() && error == o.result && Abstract() == Run(old(Abstract()), o.evs)
      ensures error ==> BlockInvariant.Failed(queue)
      ensures !error ==> out != [] && out[|out| - 1].Eos?
    {
      hide BlockState.Valid, S.ValidNames, S.AllNamed, S.StreamBytes, TotalSum, Run, Step, Flushes, Failed, FlushRun, Stage2Reads;
      ghost var st0 := Abstract();
      ghost var a := Stage2Reads(st0, r, env);
      Stage2Keeps(st0, r, env);
      error := SubmitStage2(r, env);
      if error {
        return;
      }
      ghost var b := FlushRun(Abstract(), r.after);
      error := FlushBlks(r.after);
      RunConcat(st0, a.evs, b.evs);
      if error {
        return;
      }
      ghost var st := Abstract();
      EndSection();
      RunOne(st, Event.EndSection);
      RunConcat(st0, a.evs + b.evs, [Event.EndSection]);
    }

    /** The dirty chunk is read and sent at once. */
    method SendChunk(d: nat, c: nat, mem: seq<Byte>)
      requires Ok() && d < |devs| && 2048 * c < Total(devs[d]) && |devs[d].disk| == 512 * Total(devs[d]) && |mem| == 1048576
      modifies this`devs, this`stream, this`out
      ensures Ok() && Abstract() == SendDirty(old(Abstract()), d, c, mem)
    {
      hide BlockState.Valid, S.ValidNames, S.AllNamed, S.StreamBytes, TotalSum, ChunkNow;
      SendKeepsValid(Abstract(), d, c, mem);
      ghost var before := devs;
      var v := devs[d];
      var b := ChunkNow(v, d, c, mem);
      assert b.dev == d && R.ValidId(names[d]) by { NowNamed(v, d, c, mem, names); }
      Put(Chunk(b), S.BlockBytes(names, b));
      devs := devs[d := v.(dirty := v.dirty - {c})];
      SetDevShape(before, d, devs[d]);
      ShapeCounts(before, devs);
    }

    ghost predicate CursorsClean()
      requires |curDirty| == |devs|
      reads this
    {
      forall d :: 0 <= d < |devs| ==> CleanBelow(devs[d], curDirty[d])
    }

    /** mig_save_device_dirty without is_async, when nothing is outstanding and so qemu_aio_flush
        has nothing to wait for. */
    method SendDeviceDirty(d: nat, mem: seq<Byte>) returns (done: bool)
      requires Ok() && d < |devs| && CursorsClean() && |mem| == 1048576
      modifies this`devs, this`stream, this`out, this`curDirty
      ensures Ok() && CursorsClean() && done == !HasDirty(old(devs)[d])
      ensures done ==> Abstract() == old(Abstract())
      ensures !done ==>
        var c := NextDirty(old(devs)[d], 0);
        2048 * c < Total(old(devs)[d]) && |old(devs)[d].disk| == 512 * Total(old(devs)[d]) && Abstract() == SendDirty(old(Abstract()), d, c, mem)
    {
      hide BlockState.Valid, S.ValidNames, S.AllNamed, S.StreamBytes, TotalSum, ValidDev, HasDirty, NextDirty, ChunkNow;
      DevOf(Abstract(), d);
      DiskSize(devs[d]);
      var sector := curDirty[d];
      while sector < Total(devs[d])
        invariant Ok() && CursorsClean() && sector == curDirty[d] && Abstract() == old(Abstract())
      {
        var c := sector / 2048;
        if c in devs[d].dirty {
          DirtyFound(devs[d], c);
          SendChunk(d, c, mem);
          return false;
        }
        sector := sector + 2048;
        curDirty := curDirty[d := sector];
      }
      NoneFound(devs[d], sector);
      return true;
    }

    /** blk_mig_save_dirty_block without is_async: the first dirty chunk of the first device that
        has one is sent. */
    method SendDirtyBlock(mem: seq<Byte>) returns (more: bool)
      requires Ok() && CursorsClean() && |mem| == 1048576
      modifies this`devs, this`stream, this`out, this`curDirty
      ensures Ok() && CursorsClean() && more == (FirstDirtyDev(old(devs), 0) < |old(devs)|)
      ensures Abstract() == if more then SendFirst(old(Abstract()), mem) else old(Abstract())
    {
      hide BlockState.Valid, S.ValidNames, S.AllNamed, S.StreamBytes, TotalSum, ValidDev, HasDirty, NextDirty, ChunkNow;
      for d := 0 to |devs|
        invariant Ok() && CursorsClean() && Abstract() == old(Abstract())
        invariant forall k :: 0 <= k < d ==> !HasDirty(devs[k])
      {
        var done := SendDeviceDirty(d, mem);
        if !done {
          return true;
        }
      }
      return false;
    }

    /** The synchronous loop of stage 3. */
    method SendAllDirty(mem: seq<Byte>)
      requires Ok() && CursorsClean() && |mem| == 1048576
      modifies this`devs, this`stream, this`out, this`curDirty
      ensures Ok() && Abstract() == SendAll(old(Abstract()), mem)
    {
      hide BlockState.Valid, S.ValidNames, S.AllNamed, S.StreamBytes, TotalSum, HasDirty, SendFirst, FirstDirtyDev;
      var more := true;
      while more
        invariant Ok() && CursorsClean() && SendAll(old(Abstract()), mem) == SendAll(Abstract(), mem)
        invariant !more ==> FirstDirtyDev(devs, 0) >= |devs|
        decreases DirtyTotal(devs), more
      {
        ghost var st := Abstract();
        more := SendDirtyBlock(mem);
        SendAllUnfolds(st, mem);
      }
      SendAllUnfolds(Abstract(), mem);
    }

    /** The records that end a migration. */
    method PutClosing()
      requires S.AllNamed(names, out) && stream == S.StreamBytes(names, out)
      modifies this`stream, this`out
      ensures out == S.Closing(old(out)) && S.AllNamed(names, out) && stream == S.StreamBytes(names, out)
    {
      hide S.AllNamed, S.StreamBytes;
      Put(Progress(100), S.Word(100, S.FLAG_PROGRESS));
      Put(Eos, S.Word(0, S.FLAG_EOS));
    }

    /** block_save_live in stage 3: the queue is flushed as far as the file allows, every dirty chunk
        is sent, whatever is left is dropped, and completion is reported. */
    method SaveStage3(limits: seq<bool>, mem: seq<Byte>) returns (error: bool)
      requires Ok() && submitted == 0 && |mem| == 1048576
      modifies this
      ensures var o := FlushRun(old(Abstract()), limits);
              var st := Run(old(Abstract()), o.evs);
              && error == o.result && BlockState.Valid(st) && st.pending == []
              && (!error ==> S.AllNamed(names, S.Closing(SendAll(st, mem).out))
                             && stream == S.StreamBytes(names, S.Closing(SendAll(st, mem).out)))
      ensures devs == [] && queue == [] && pending == []
    {
      hide BlockState.Valid, S.ValidNames, S.AllNamed, S.StreamBytes, TotalSum, Run, SendAll, Failed, FlushRun;
      NonePending(Abstract());
      FlushRunKeeps(Abstract(), limits);
      error := FlushBlks(limits);
      if !error {
        curDirty := Zeros(|devs|);
        SendAllDirty(mem);
        PutClosing();
      }
      devs, queue, pending, curDirty := [], [], [], [];
    }

    /** blk_send of the head of the queue. */
    method SendHead()
      requires Ok() && queue != [] && queue[0].ok
      modifies this`queue, this`readDone, this`stream, this`out
      ensures Ok() && Abstract() == Step(old(Abstract()), FlushStep) && queue == old(queue)[1..] && readDone < old(readDone)
    {
      hide BlockState.Valid, S.ValidNames, S.AllNamed, S.StreamBytes, TotalSum;
      FlushKeepsValid(Abstract());
      var b := queue[0];
      assert b.dev < |names| && R.ValidId(names[b.dev]) by { HeadNamed(Abstract(), names); }
      Put(Chunk(b), S.BlockBytes(names, b));
      queue, readDone := queue[1..], readDone - 1;
    }
  }

  lemma BulkEndKeepsOk(st: State, st': State)
    requires Valid(st) && Step(st, BulkStep) == st'
    ensures Valid(st')
  {
    hide Valid, Step;
    StepKeepsValid(st, BulkStep);
  }

  lemma NowNamed(v: Dev, d: nat, c: nat, mem: seq<Byte>, names: seq<seq<Byte>>)
    requires 2048 * c < Total(v) && |v.disk| == 512 * Total(v) && |mem| == 1048576 && d < |names| && S.ValidNames(names)
    ensures ChunkNow(v, d, c, mem).dev == d && R.ValidId(names[d])
  {}

  lemma SendAllUnfolds(st: State, mem: seq<Byte>)
    requires Valid(st) && |mem| == 1048576
    ensures SendAll(st, mem) == if FirstDirtyDev(st.devs, 0) < |st.devs| then SendAll(SendFirst(st, mem), mem) else st
  {
    hide SendFirst, HasDirty;
  }

  lemma BulkDeviceShape(st: State, d: nat)
    requires d < |st.devs| && st.devs[d].cur <= Total(st.devs[d])
    ensures SameShape(st.devs, BulkDevice(st, d).devs)
    ensures forall k :: 0 <= k < |st.devs| && k != d ==> BulkDevice(st, d).devs[k] == st.devs[k]
  {
    hide NewRead;
  }
}
