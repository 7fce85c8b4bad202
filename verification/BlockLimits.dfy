/** What the assumptions of a migration are for.  Reads of one chunk must finish in order, and stage 3
    must be able to flush its queue: without either there is a run that leaves the destination with
    an old byte.  Reads can always finish in order. */
module BlockLimits {
  import opened Words
  import opened BlockState
  import opened BlockInvariant
  import opened BlockMigration
  import opened BlockRun

  // ----- reads that finish out of order

  lemma LatestReadLast(x: Cell, pending: seq<Read>, i: nat, d: nat, p: nat)
    requires i < |pending| && ReadCovers(pending[i], d, p)
    requires forall k :: i < k < |pending| ==> !ReadCovers(pending[k], d, p)
    ensures LatestRead(x, pending, d, p) == ReadAt(pending[i], d, p)
  {
    hide ReadCovers, LatestRead;
    var before, r, after := pending[..i], pending[i], pending[i + 1..];
    assert pending == before + ([r] + after);
    LatestReadConcat(x, before, [r] + after, d, p);
    var y := LatestRead(x, before, d, p);
    LatestReadConcat(y, [r], after, d, p);
    LatestReadOne(y, r, d, p);
    LatestReadNone(ReadAt(r, d, p), after, d, p);
  }

  /** A read j that finishes while an earlier read i of its chunk is in flight: the newest copy of byte p
      was that of read j and becomes that of read i.  A byte that relies on it, being sent, clean and not
      under a write, stays settled exactly when read i has not got it yet or got what is on the disk. */
  lemma OutOfOrderIsStale(st: State, i: nat, j: nat, mem: seq<Byte>, x: Byte, d: nat, p: nat)
    requires Valid(st) && i < j < |st.pending| && Enabled(st, ReadDone(j, mem, true))
    requires ReadCovers(st.pending[i], d, p) && ReadCovers(st.pending[j], d, p)
    requires forall k :: i < k < |st.pending| && k != j ==> !ReadCovers(st.pending[k], d, p)
    ensures
      var st' := Step(st, ReadDone(j, mem, true));
      && !InOrder(st.pending, j)
      && Newest(st, x, d, p) == ReadAt(st.pending[j], d, p) && Newest(st', x, d, p) == ReadAt(st.pending[i], d, p)
      && d < |st.devs| && ValidDev(st.devs[d]) && p < |st.devs[d].disk|
      && d < |st'.devs| && ValidDev(st'.devs[d]) && st'.devs[d].disk == st.devs[d].disk
      && (!Unsent(st.devs[d], p) && ChunkOf(p) !in st.devs[d].dirty && !UnderWrite(st.devs[d], p) ==>
            (Settled(st', x, d, p) <==> Current(ReadAt(st.pending[i], d, p), st.devs[d].disk[p])))
  {
    hide Valid, ReadCovers, LatestRead, Finished, Complete, UnderWrite, Unsent, ChunkOf, ValidDev;
    var st' := Step(st, ReadDone(j, mem, true));
    var pending := st.pending;
    CoveredInDisk(st, i, d, p);
    CoveredInDisk(st, j, d, p);
    ChunksDisjoint(st.devs, pending[i], pending[j], d, p);
    LatestReadLast(Got(Latest(x, Sent(st.out) + st.queue, d, p)), pending, j, d, p);
    var rest := st'.pending;
    assert rest == pending[..j] + pending[j + 1..];
    assert rest[i] == pending[i];
    forall k | i < k < |rest| ensures !ReadCovers(rest[k], d, p) {
      assert rest[k] == if k < j then pending[k] else pending[k + 1];
    }
    LatestReadLast(Got(Latest(x, Sent(st'.out) + st'.queue, d, p)), rest, i, d, p);
    DevAfterDone(st, j, mem, d, p);
  }

  lemma CoveredInDisk(st: State, i: nat, d: nat, p: nat)
    requires Valid(st) && i < |st.pending| && ReadCovers(st.pending[i], d, p)
    ensures ValidRead(st.devs, st.pending[i]) && d < |st.devs| && ValidDev(st.devs[d])
    ensures |st.devs[d].disk| == 512 * Total(st.devs[d]) && p < |st.devs[d].disk|
  {
    assert ValidRead(st.devs, st.pending[i]);
    ReadInRange(st.devs, st.pending[i]);
  }

  lemma DevAfterDone(st: State, j: nat, mem: seq<Byte>, d: nat, p: nat)
    requires Valid(st) && Enabled(st, ReadDone(j, mem, true)) && d < |st.devs| && ValidDev(st.devs[d]) && p < |st.devs[d].disk|
    ensures
      var devs := CompleteRead(st, j, mem, true).devs;
      && |devs| == |st.devs| && ValidDev(devs[d]) && devs[d].disk == st.devs[d].disk
      && Unsent(devs[d], p) == Unsent(st.devs[d], p) && devs[d].dirty == st.devs[d].dirty
      && UnderWrite(devs[d], p) == UnderWrite(st.devs[d], p)
  {
    hide Valid, Finished, Complete;
  }

  /** When read i then finishes too, and no other read of byte p is in flight, its copy is the last to be
      sent. */
  lemma OutOfOrderArrives(st: State, i: nat, j: nat, mem: seq<Byte>, x: Byte, d: nat, p: nat)
    requires Valid(st) && i < j < |st.pending|
    requires Enabled(st, ReadDone(j, mem, true)) && Enabled(st, ReadDone(i, mem, true))
    requires ReadCovers(st.pending[i], d, p) && ReadCovers(st.pending[j], d, p)
    requires forall k :: 0 <= k < |st.pending| && k != i && k != j ==> !ReadCovers(st.pending[k], d, p)
    ensures
      var st' := Run(st, [ReadDone(j, mem, true), ReadDone(i, mem, true)]);
      && (forall k :: 0 <= k < |st'.pending| ==> !ReadCovers(st'.pending[k], d, p))
      && Got(Latest(x, Sent(st'.out) + st'.queue, d, p)) == Newest(st', x, d, p) == ReadAt(st.pending[i], d, p)
  {
    hide Valid, ReadCovers, LatestRead, Latest, Finished, Complete, ValidDev;
    var st1 := Step(st, ReadDone(j, mem, true));
    OutOfOrderIsStale(st, i, j, mem, x, d, p);
    StepKeepsValid(st, ReadDone(j, mem, true));
    assert st1.pending == st.pending[..j] + st.pending[j + 1..];
    assert st1.pending[i] == st.pending[i];
    assert Enabled(st1, ReadDone(i, mem, true));
    assert InOrder(st1.pending, i) by { FirstInOrder(st, i, j, d, p); }
    NewestAfterDone(st1, x, d, p, i, mem);
    RunTwo(st, ReadDone(j, mem, true), ReadDone(i, mem, true));
    var st2 := Step(st1, ReadDone(i, mem, true));
    assert st2.pending == st1.pending[..i] + st1.pending[i + 1..];
    forall k | 0 <= k < |st2.pending| ensures !ReadCovers(st2.pending[k], d, p) {
      assert st2.pending[k] == if k < i then st.pending[k] else if k + 1 < j then st.pending[k + 1] else st.pending[k + 2];
    }
    LatestReadNone(Got(Latest(x, Sent(st2.out) + st2.queue, d, p)), st2.pending, d, p);
  }

  lemma FirstInOrder(st: State, i: nat, j: nat, d: nat, p: nat)
    requires Valid(st) && i < j < |st.pending| && ReadCovers(st.pending[i], d, p)
    requires forall k :: 0 <= k < i ==> !ReadCovers(st.pending[k], d, p)
    ensures InOrder(st.pending[..j] + st.pending[j + 1..], i)
  {
    hide Valid;
    var rest := st.pending[..j] + st.pending[j + 1..];
    forall k | 0 <= k < i ensures rest[k].dev != rest[i].dev || rest[k].sector != rest[i].sector {
      assert ValidRead(st.devs, st.pending[k]) && ValidRead(st.devs, st.pending[i]) by { ReadsValid(st); }
    }
  }

  // ----- reads can finish in order

  /** The bytes of read i from k on are read. */
  function Samples(i: nat, k: nat, n: nat): seq<Event>
    requires k <= n
    decreases n - k
  {
    if k == n then [] else [ReadByte(i, k)] + Samples(i, k + 1, n)
  }

  /** The cells of a read that got everything now on the disk. */
  function Filled(disk: seq<Byte>, r: Read): (cells: seq<Cell>)
    requires 512 * r.sector + |r.cells| <= |disk|
    ensures |cells| == |r.cells| && Complete(cells)
  {
    seq(|r.cells|, q requires 0 <= q < |r.cells| => Got(disk[512 * r.sector + q]))
  }

  predicate InRange(devs: seq<Dev>, r: Read) {
    r.dev < |devs| && 512 * r.sector + |r.cells| <= |devs[r.dev].disk|
  }

  function FillRead(st: State, i: nat): State
    requires i < |st.pending| && InRange(st.devs, st.pending[i])
  {
    var r := st.pending[i];
    st.(pending := st.pending[i := r.(cells := Filled(st.devs[r.dev].disk, r))])
  }

  lemma SampleFills(st: State, i: nat, k: nat)
    requires i < |st.pending| && InRange(st.devs, st.pending[i]) && k < |st.pending[i].cells|
    requires var r := st.pending[i]; forall q :: 0 <= q < k ==> r.cells[q] == Filled(st.devs[r.dev].disk, r)[q]
    ensures
      var st' := Step(st, ReadByte(i, k));
      && |st'.pending| == |st.pending| && st'.devs == st.devs && InRange(st.devs, st'.pending[i])
      && |st'.pending[i].cells| == |st.pending[i].cells|
      && (var r := st'.pending[i]; forall q :: 0 <= q <= k ==> r.cells[q] == Filled(st.devs[r.dev].disk, r)[q])
      && FillRead(st', i) == FillRead(st, i)
  {
    var st' := Step(st, ReadByte(i, k));
    var r := st.pending[i];
    assert Filled(st.devs[r.dev].disk, st'.pending[i]) == Filled(st.devs[r.dev].disk, r);
    assert FillRead(st', i).pending == FillRead(st, i).pending;
  }

  lemma {:induction false} SamplesFill(st: State, i: nat, k: nat)
    requires i < |st.pending| && InRange(st.devs, st.pending[i]) && k <= |st.pending[i].cells|
    requires var r := st.pending[i]; forall q :: 0 <= q < k ==> r.cells[q] == Filled(st.devs[r.dev].disk, r)[q]
    ensures
      var evs := Samples(i, k, |st.pending[i].cells|);
      Run(st, evs) == FillRead(st, i) && OrderlyRun(st, evs) && OnlyEnv(evs)
    decreases |st.pending[i].cells| - k
  {
    hide Step, Filled, IsEnv;
    var n := |st.pending[i].cells|;
    if k < n {
      var rest := Samples(i, k + 1, n);
      SampleFills(st, i, k);
      SamplesFill(Step(st, ReadByte(i, k)), i, k + 1);
      RunOne(st, ReadByte(i, k));
      RunConcat(st, [ReadByte(i, k)], rest);
      assert IsEnv(ReadByte(i, k)) by { SampleIsEnv(i, k); }
    } else {
      var r := st.pending[i];
      assert r.cells == Filled(st.devs[r.dev].disk, r);
      RunNone(st);
    }
  }

  lemma SampleIsEnv(i: nat, k: nat)
    ensures IsEnv(ReadByte(i, k))
  {}

  function Blank(): (mem: seq<Byte>)
    ensures |mem| == 1048576
  {
    seq(1048576, _ => 0)
  }

  /** Every read gets its bytes and finishes, the oldest first. */
  function FinishAll(pending: seq<Read>): seq<Event>
    decreases |pending|
  {
    if pending == [] then []
    else Samples(0, 0, |pending[0].cells|) + ([ReadDone(0, Blank(), true)] + FinishAll(pending[1..]))
  }

  lemma FirstDone(st: State)
    requires Valid(st) && st.pending != []
    ensures
      && InRange(st.devs, st.pending[0])
      && var st' := Step(FillRead(st, 0), ReadDone(0, Blank(), true));
      && st'.pending == st.pending[1..]
      && Orderly(FillRead(st, 0), ReadDone(0, Blank(), true)) && IsEnv(ReadDone(0, Blank(), true))
  {
    assert ValidRead(st.devs, st.pending[0]);
    ReadInRange(st.devs, st.pending[0]);
  }

  lemma {:induction false} FinishAllFinishes(st: State)
    requires Valid(st)
    ensures Finishes(st, FinishAll(st.pending))
    decreases |st.pending|
  {
    hide Valid, Step, Run, OrderlyRun, Orderly, IsEnv, Blank, FillRead, Samples, InRange;
    if st.pending == [] {
      RunNone(st);
    } else {
      var first, done, rest := Samples(0, 0, |st.pending[0].cells|), [ReadDone(0, Blank(), true)], FinishAll(st.pending[1..]);
      FirstDone(st);
      SamplesFill(st, 0, 0);
      RunKeepsValid(st, first);
      var st1 := FillRead(st, 0);
      var st2 := Step(st1, ReadDone(0, Blank(), true));
      RunOne(st1, ReadDone(0, Blank(), true));
      StepKeepsValid(st1, ReadDone(0, Blank(), true));
      FinishAllFinishes(st2);
      RunConcat(st1, done, rest);
      RunConcat(st, first, done + rest);
    }
  }

  /** An environment as the migration needs it exists: every read succeeds, in order. */
  lemma SomeEnvironmentFlushes()
    ensures Flushes((devs: seq<Dev>, pending: seq<Read>) => FinishAll(pending))
  {
    hide Valid, Finishes, FinishAll;
    forall st: State | Valid(st) ensures Finishes(st, FinishAll(st.pending)) {
      FinishAllFinishes(st);
    }
  }

  // ----- two migrations that lose a byte

  function Sector(x: Byte): (s: seq<Byte>)
    ensures |s| == 512
  {
    seq(512, _ => x)
  }

  /** A source with one device of one sector. */
  function Start(x: Byte): State {
    State([Dev(Sector(x), [true], false, {}, {}, [], 0, 0, false)], [], [], [], 0, 0, false, -1)
  }

  /** The same after the bulk phase, with its read in flight. */
  function Bulked(x: Byte, r: Read, out: seq<Record>): State {
    State([Dev(Sector(x), [true], false, {}, {}, [], 1, 0, true)], [r], [], out, 1, 0, true, 0)
  }

  lemma StartInitial(x: Byte, y: Byte)
    ensures Initial(Start(x)) && Valid(Start(x)) && Prepared(Start(x), [Sector(y)])
  {}

  lemma FirstBulk(x: Byte, out: seq<Record>)
    ensures Step(Start(x).(out := out), BulkStep) == Bulked(x, NewRead(0, 1, 0), out + [Progress(0)]).(bulkCompleted := false)
  {
    hide NewRead, Sector;
    var st := Start(x).(out := out);
    assert FirstUnfinished(st.devs, 0) == 0;
    var st' := BulkDevice(st, 0);
    var none: set<nat> := {};
    assert none - {0} == none;
    assert st'.devs == Bulked(x, NewRead(0, 1, 0), []).devs;
    assert TotalSum(st'.devs, 1) == TotalSum(st'.devs, 0) + 1;
    assert CompletedSum(st'.devs, 1) == CompletedSum(st'.devs, 0) + 0;
  }

  lemma SecondBulk(x: Byte, out: seq<Record>)
    ensures Step(Bulked(x, NewRead(0, 1, 0), out).(bulkCompleted := false), BulkStep) == Bulked(x, NewRead(0, 1, 0), out)
  {
    hide NewRead, Sector;
    var st := Bulked(x, NewRead(0, 1, 0), out).(bulkCompleted := false);
    assert FirstUnfinished(st.devs, 0) == FirstUnfinished(st.devs, 1) == 1;
    assert TotalSum(st.devs, 1) == TotalSum(st.devs, 0) + 1;
    assert CompletedSum(st.devs, 1) == CompletedSum(st.devs, 0) + 0;
  }

  function Got512(x: Byte): (r: Read) {
    Read(0, 0, seq(512, _ => Got(x)))
  }

  lemma NewReadIs()
    ensures NewRead(0, 1, 0) == Read(0, 0, seq(512, _ => Unread))
  {}

  lemma FilledIs(x: Byte)
    ensures |NewRead(0, 1, 0).cells| == 512 && NewRead(0, 1, 0).sector == 0 && NewRead(0, 1, 0).dev == 0
    ensures NewRead(0, 1, 0).(cells := Filled(Sector(x), NewRead(0, 1, 0))) == Got512(x)
  {
    NewReadIs();
    assert Filled(Sector(x), NewRead(0, 1, 0)) == Got512(x).cells;
  }

  /** The read gets the sector. */
  lemma ReadsSector(x: Byte, out: seq<Record>)
    ensures
      var st := Bulked(x, NewRead(0, 1, 0), out);
      Run(st, Samples(0, 0, 512)) == Bulked(x, Got512(x), out) && OrderlyRun(st, Samples(0, 0, 512)) && OnlyEnv(Samples(0, 0, 512))
  {
    hide Run, OrderlyRun, Step, Sector, NewRead, Samples, Got512, Filled;
    var st := Bulked(x, NewRead(0, 1, 0), out);
    FilledIs(x);
    SamplesFill(st, 0, 0);
    assert FillRead(st, 0).pending == [Got512(x)];
  }

  /** Stage 3 from here leaves the destination with something else than the source has. */
  ghost predicate LeavesStale(st: State, dst: seq<seq<Byte>>)
    requires Valid(st)
  {
    var out := SendAll(st, Blank()).out;
    HasSizes(Sizes(st.devs), dst) && AllFit(Sizes(st.devs), Sent(out)) && Replay(Sizes(st.devs), dst, Sent(out)) != Disks(st.devs)
  }

  lemma StaleByte(st: State)
    requires Valid(st) && |st.devs| == 1 && st.devs[0].disk == Sector(1) && SendAll(st, Blank()) == st
    requires Latest(0, Sent(st.out), 0, 0) == 0
    ensures LeavesStale(st, [Sector(0)])
  {
    hide ValidDev, Latest, Fits, SendAll, Blank;
    var sizes, dst := Sizes(st.devs), [Sector(0)];
    SentFit(st.devs, st.out);
    ReplayAt(sizes, dst, Sent(st.out), 0, 0);
    assert Replay(sizes, dst, Sent(st.out))[0][0] != Disks(st.devs)[0][0];
  }

  // ----- stage 2 with a file that is limited throughout

  lemma Stage2WithoutFlush(st: State, r: Round, env: Environment)
    requires Valid(st) && Flushes(env) && r.before == [] && r.after == []
    ensures
      var evs := SubmitEvents(st, Zeros(|st.devs|), r.limit, env);
      !Stage2(st, r, env).result && Run(st, Stage2(st, r, env).evs) == Step(Run(st, evs), EndSection)
  {
    hide Run, Step, Valid, Flushes, SubmitEvents;
    var evs := SubmitEvents(st, Zeros(|st.devs|), r.limit, env);
    RunNone(st);
    assert [] + evs == evs && evs + [] == evs;
    RunConcat(st, evs, [EndSection]);
    RunOne(Run(st, evs), EndSection);
  }

  /** Nothing is dirty: the pass ends without an event. */
  lemma CleanPass(st: State, env: Environment)
    requires |st.devs| == 1 && Total(st.devs[0]) == 1 && st.devs[0].inflight == {} && st.devs[0].dirty == {}
    ensures ScanFrom(st, [0], 0, env).evs == [] && !ScanFrom(st, [0], 0, env).result.found
  {
    hide Run, AwaitEvents, ScanDevice, ScanFrom;
    assert AwaitEvents(st, 0, 0, env) == [] by { NoWait(st, env); }
    RunNone(st);
    ScanDeviceUnfolds(st, 0, 0, env);
    ScanDeviceUnfolds(st, 0, 2048, env);
    ScanFromUnfolds(st, [0], 0, env);
    ScanFromUnfolds(st, [0][0 := 2048], 1, env);
  }

  lemma NoWait(st: State, env: Environment)
    requires |st.devs| == 1 && st.devs[0].inflight == {}
    ensures AwaitEvents(st, 0, 0, env) == []
  {}

  /** The chunk is dirty and not marked in flight: it is read, whatever bulk reads are in flight. */
  lemma DirtyPass(st: State, env: Environment)
    requires |st.devs| == 1 && Total(st.devs[0]) == 1 && st.devs[0].inflight == {} && st.devs[0].dirty == {0}
    ensures var s := ScanFrom(st, [0], 0, env); s.evs == [DirtyStep(0, 0)] && s.result.found
  {
    hide Run, AwaitEvents, ScanDevice, ScanFrom;
    assert AwaitEvents(st, 0, 0, env) == [] by { NoWait(st, env); }
    RunNone(st);
    ScanDeviceUnfolds(st, 0, 0, env);
    ScanFromUnfolds(st, [0], 0, env);
  }

  lemma ZerosOne()
    ensures Zeros(1) == [0]
  {}

  /** A first round whose limit lets one read be outstanding and the bulk phase end. */
  const BULK_ROUND := Round([], 1048577, [], [])

  lemma BulkSubmits(x: Byte, out: seq<Record>, env: Environment)
    requires Flushes(env) && forall i :: 0 <= i < |out| ==> out[i].Eos?
    ensures
      var st := Start(x).(out := out);
      Valid(st) && Run(st, SubmitEvents(st, Zeros(1), 1048577, env)) == Bulked(x, NewRead(0, 1, 0), out + [Progress(0)])
  {
    hide Run, Step, Valid, Flushes, SubmitEvents, NewRead, Sector, ScanFrom;
    var st := Start(x).(out := out);
    var done := Bulked(x, NewRead(0, 1, 0), out + [Progress(0)]);
    var st1 := done.(bulkCompleted := false);
    assert Valid(st) by { StartValid(x, out); }
    ZerosOne();
    FirstBulk(x, out);
    SecondBulk(x, out + [Progress(0)]);
    SubmitUnfolds(st, [0], 1048577, env);
    SubmitUnfolds(st1, [0], 1048577, env);
    SubmitUnfolds(done, [0], 1048577, env);
    CleanPass(done, env);
    RunNone(done);
    var rest := SubmitEvents(st1, [0], 1048577, env);
    RunOne(st, BulkStep);
    RunConcat(st, [BulkStep], rest);
    RunOne(st1, BulkStep);
    RunConcat(st1, [BulkStep], SubmitEvents(done, [0], 1048577, env));
  }

  lemma StartValid(x: Byte, out: seq<Record>)
    requires forall i :: 0 <= i < |out| ==> out[i].Eos?
    ensures Valid(Start(x).(out := out))
  {}

  const BULK_OUT := [Eos] + [Progress(0)] + [Eos]

  lemma BulkRoundRuns(x: Byte, env: Environment)
    requires Flushes(env)
    ensures
      var st := Start(x).(out := [Eos]);
      && Valid(st) && !RoundRun(st, BULK_ROUND, env).result
      && Run(st, RoundRun(st, BULK_ROUND, env).evs) == Bulked(x, NewRead(0, 1, 0), BULK_OUT)
  {
    hide Run, Step, Valid, Flushes, SubmitEvents, NewRead, Sector, Stage2;
    var st := Start(x).(out := [Eos]);
    BulkSubmits(x, [Eos], env);
    RunNone(st);
    Stage2WithoutFlush(st, BULK_ROUND, env);
    EndSectionIs(Bulked(x, NewRead(0, 1, 0), [Eos] + [Progress(0)]));
    assert [] + Stage2(st, BULK_ROUND, env).evs == Stage2(st, BULK_ROUND, env).evs;
  }

  lemma EndSectionIs(st: State)
    ensures Step(st, EndSection) == st.(out := st.out + [Eos])
  {}

  /** The rounds of a migration, one more than `rounds`. */
  lemma OneRound(st: State, r: Round, rounds: seq<Round>, env: Environment)
    requires Valid(st) && Flushes(env) && !RoundRun(st, r, env).result
    ensures
      var st' := Run(st, RoundRun(st, r, env).evs);
      var a := RoundsRun(st, [r] + rounds, env);
      && Valid(st') && a.result == RoundsRun(st', rounds, env).result
      && Run(st, a.evs) == Run(st', RoundsRun(st', rounds, env).evs)
      && (RoundsOrderly(st, [r] + rounds, env) <==> OrderlyRun(st, r.script) && RoundsOrderly(st', rounds, env))
  {
    hide Run, Valid, Flushes, RoundRun, OrderlyRun;
    var o := RoundRun(st, r, env);
    RoundKeeps(st, r, env);
    assert ([r] + rounds)[1..] == rounds && ([r] + rounds)[0] == r;
    RunConcat(st, o.evs, RoundsRun(Run(st, o.evs), rounds, env).evs);
  }

  lemma NoRounds(st: State, env: Environment)
    requires Valid(st) && Flushes(env)
    ensures RoundsRun(st, [], env) == Ran([], false) && RoundsOrderly(st, [], env)
  {}

  /** What a migration whose rounds lead to `st` does next. */
  lemma MigrationEnds(st0: State, rounds: seq<Round>, last: seq<Event>, env: Environment, limits: seq<bool>, st: State)
    requires Valid(st0) && Flushes(env) && Valid(Step(st0, EndSection))
    requires var a := RoundsRun(Step(st0, EndSection), rounds, env); !a.result && Run(Step(st0, EndSection), a.evs) == st
    requires Run(st, last).submitted == 0
    ensures
      var o, st' := MigrationRun(st0, rounds, last, env, limits), Run(st, last);
      && o.result == FlushRun(st', limits).result && Run(st0, o.evs) == Run(st', FlushRun(st', limits).evs)
      && (ScriptsOrderly(st0, rounds, last, env) <==> RoundsOrderly(Step(st0, EndSection), rounds, env) && OrderlyRun(st, last))
  {
    hide Run, Step, Valid, Flushes, RoundsRun, RoundsOrderly, FlushRun, OrderlyRun;
    var st1 := Step(st0, EndSection);
    var a := RoundsRun(st1, rounds, env);
    RunOne(st0, EndSection);
    RunConcat(st0, [EndSection], a.evs);
    RunConcat(st0, [EndSection] + a.evs, last);
    var evs := [EndSection] + a.evs + last;
    RunConcat(st0, evs, FlushRun(Run(st, last), limits).evs);
  }

  // ----- a limited flush

  /** The read finishes in order before stage 3. */
  function ReadAndDone(): seq<Event> {
    Samples(0, 0, 512) + [ReadDone(0, Blank(), true)]
  }

  lemma OneDone(x: Byte, out: seq<Record>)
    ensures
      var st1 := Bulked(x, Got512(x), out);
      var st := Step(st1, ReadDone(0, Blank(), true));
      && Orderly(st1, ReadDone(0, Blank(), true))
      && st.bulkCompleted && st.pending == [] && st.submitted == 0 && |st.queue| == 1 && st.out == out
      && |st.devs| == 1 && st.devs[0].disk == Sector(x) && st.devs[0].dirty == {}
  {
    hide Sector, Blank, Finished;
    assert Complete(Got512(x).cells);
  }

  lemma ReadAndDoneRuns(x: Byte, out: seq<Record>)
    ensures
      var st0 := Bulked(x, NewRead(0, 1, 0), out);
      var st := Run(st0, ReadAndDone());
      && OrderlyRun(st0, ReadAndDone()) && OnlyEnv(ReadAndDone())
      && st.bulkCompleted && st.pending == [] && st.submitted == 0 && |st.queue| == 1 && st.out == out
      && |st.devs| == 1 && st.devs[0].disk == Sector(x) && st.devs[0].dirty == {}
  {
    hide Run, OrderlyRun, Step, Sector, Samples, Blank, Got512, NewRead, Orderly;
    ReadsSector(x, out);
    RunConcat(Bulked(x, NewRead(0, 1, 0), out), Samples(0, 0, 512), [ReadDone(0, Blank(), true)]);
    RunOne(Bulked(x, Got512(x), out), ReadDone(0, Blank(), true));
    OneDone(x, out);
  }

  lemma NothingSent(st: State)
    requires Valid(st) && st.out == BULK_OUT && |st.devs| == 1 && st.devs[0].dirty == {}
    ensures SendAll(st, Blank()) == st && Latest(0, Sent(st.out), 0, 0) == 0
  {
    hide Valid, Blank;
    NoneDirty(st);
    SentConcat([Eos] + [Progress(0)], [Eos]);
    SentConcat([Eos], [Progress(0)]);
    assert forall r: Record :: !r.Chunk? ==> Carried(r) == [];
    NoBlocks(Eos);
    NoBlocks(Progress(0));
  }

  lemma NoBlocks(r: Record)
    requires !r.Chunk?
    ensures Sent([r]) == []
  {
    assert [r][1..] == [];
  }

  lemma NoneDirty(st: State)
    requires Valid(st) && |st.devs| == 1 && st.devs[0].dirty == {}
    ensures SendAll(st, Blank()) == st
  {
    HasDirtyIff(st.devs[0]);
  }

  /** A migration whose last flush is stopped by the rate limit: the block in the queue is lost, though
      every read finished in order and the bulk phase was over. */
  lemma LimitedFlushLosesABlock(env: Environment)
    requires Flushes(env)
    ensures Valid(Start(1)) && Initial(Start(1)) && Prepared(Start(1), [Sector(0)]) && OnlyEnvRounds([BULK_ROUND]) && OnlyEnv(ReadAndDone())
    ensures
      var o := MigrationRun(Start(1), [BULK_ROUND], ReadAndDone(), env, [true]);
      var st := Run(Start(1), o.evs);
      && !o.result && ScriptsOrderly(Start(1), [BULK_ROUND], ReadAndDone(), env)
      && Valid(st) && st.bulkCompleted && st.pending == [] && |st.queue| == 1 && LeavesStale(st, [Sector(0)])
  {
    hide Run, Step, Valid, Flushes, RoundsRun, RoundRun, RoundsOrderly, OrderlyRun, MigrationRun, ScriptsOrderly, ReadAndDone, OnlyEnv, LeavesStale, Latest, SendAll, Sector, NewRead, Blank;
    StartInitial(1, 0);
    EndSectionIs(Start(1));
    assert [] + [Eos] == [Eos];
    var st1 := Start(1).(out := [Eos]);
    BulkRoundRuns(1, env);
    OneRound(st1, BULK_ROUND, [], env);
    assert [BULK_ROUND] + [] == [BULK_ROUND];
    var st2 := Bulked(1, NewRead(0, 1, 0), BULK_OUT);
    NoRounds(st2, env);
    RunNone(st2);
    RunNone(st1);
    ReadAndDoneRuns(1, BULK_OUT);
    MigrationEnds(Start(1), [BULK_ROUND], ReadAndDone(), env, [true], st2);
    var st := Run(st2, ReadAndDone());
    RunNone(st);
    MigrationRunKeeps(Start(1), [BULK_ROUND], ReadAndDone(), env, [true]);
    assert OnlyEnv([]) by { NoEvents(); }
    NothingSent(st);
    StaleByte(st);
  }

  lemma NoEvents()
    ensures OnlyEnv([])
  {}

  // ----- swapped reads

  /** Before the second round the bulk read gets the sector and then the guest writes it. */
  function SecondScript(): seq<Event> {
    Samples(0, 0, 512) + [GuestWrite(0, Write(0, 1), Sector(1))]
  }

  /** A second round that reads the dirty chunk. */
  function DirtyRound(): Round {
    Round(SecondScript(), 2097152, [], [])
  }

  /** Before stage 3 the second read gets its bytes, and the two finish in the other order. */
  function SwappedDones(): seq<Event> {
    Samples(1, 0, 512) + [ReadDone(1, Blank(), true), ReadDone(0, Blank(), true)]
  }

  /** The source after the guest has written, before and after the dirty chunk is read. */
  function Written(r: Read): State {
    State([Dev(Sector(1), [true], false, {0}, {}, [], 1, 0, true)], [r], [], BULK_OUT, 1, 0, true, 0)
  }

  const DIRTY_OUT := BULK_OUT + [Eos]

  function Rewritten(pending: seq<Read>, out: seq<Record>): State {
    State([Dev(Sector(1), [true], false, {}, {0}, [], 1, 0, true)], pending, [], out, 2, 0, true, 0)
  }

  lemma MarksOne()
    ensures Marked(0, 1) == {0}
  {
    WriteIsMarked(Write(0, 1), 0);
    forall c: nat | c in Marked(0, 1) ensures c == 0 {
      MarkedInDisk(1, Write(0, 1), c);
    }
  }

  lemma GuestRewrites(r: Read)
    ensures Step(Bulked(0, r, BULK_OUT), GuestWrite(0, Write(0, 1), Sector(1))) == Written(r)
  {
    hide Marked;
    MarksOne();
    var st := Bulked(0, r, BULK_OUT);
    var v := WriteNow(st.devs[0], Write(0, 1), Sector(1));
    assert v.disk == Sector(1);
    assert v.present == [true];
    assert v.dirty == {0};
  }

  lemma SecondScriptRuns()
    ensures
      var st := Bulked(0, NewRead(0, 1, 0), BULK_OUT);
      Run(st, SecondScript()) == Written(Got512(0)) && OrderlyRun(st, SecondScript()) && OnlyEnv(SecondScript())
  {
    hide Run, OrderlyRun, Step, Sector, Samples, Got512, NewRead;
    var st := Bulked(0, NewRead(0, 1, 0), BULK_OUT);
    var ev := GuestWrite(0, Write(0, 1), Sector(1));
    ReadsSector(0, BULK_OUT);
    GuestRewrites(Got512(0));
    RunConcat(st, Samples(0, 0, 512), [ev]);
    RunOne(Bulked(0, Got512(0), BULK_OUT), ev);
  }

  lemma ReadsAgain(r: Read)
    ensures Step(Written(r), DirtyStep(0, 0)) == Rewritten([r, NewRead(0, 1, 0)], BULK_OUT)
  {
    hide NewRead, Sector;
    var none: set<nat>, one: set<nat> := {}, {0};
    assert one - {0} == none && none + {0} == one;
    var st := Written(r);
    var v := st.devs[0];
    assert SubmitDirty(st, 0, 0).devs == [v.(dirty := none, inflight := one)];
  }

  lemma DirtySubmits(r: Read, env: Environment)
    requires Flushes(env) && Valid(Written(r))
    ensures Run(Written(r), SubmitEvents(Written(r), Zeros(1), 2097152, env)) == Rewritten([r, NewRead(0, 1, 0)], BULK_OUT)
  {
    hide Run, Step, Valid, Flushes, SubmitEvents, NewRead, Sector, ScanFrom;
    var st, st' := Written(r), Rewritten([r, NewRead(0, 1, 0)], BULK_OUT);
    ZerosOne();
    DirtyPass(st, env);
    ReadsAgain(r);
    RunOne(st, DirtyStep(0, 0));
    SubmitUnfolds(st, [0], 2097152, env);
    var s := ScanFrom(st, [0], 0, env);
    SubmitUnfolds(st', s.result.sectors, 2097152, env);
    assert s.evs + [] == s.evs;
  }

  lemma DirtyRoundRuns(env: Environment)
    requires Flushes(env) && Valid(Bulked(0, NewRead(0, 1, 0), BULK_OUT))
    ensures
      var st := Bulked(0, NewRead(0, 1, 0), BULK_OUT);
      && !RoundRun(st, DirtyRound(), env).result && OrderlyRun(st, DirtyRound().script)
      && Run(st, RoundRun(st, DirtyRound(), env).evs) == Rewritten([Got512(0), NewRead(0, 1, 0)], DIRTY_OUT)
  {
    hide Run, Step, Valid, Flushes, SubmitEvents, NewRead, Sector, Stage2, SecondScript, OrderlyRun, Got512;
    var st, r := Bulked(0, NewRead(0, 1, 0), BULK_OUT), DirtyRound();
    SecondScriptRuns();
    RunKeepsValid(st, SecondScript());
    var st1 := Written(Got512(0));
    DirtySubmits(Got512(0), env);
    Stage2WithoutFlush(st1, r, env);
    EndSectionIs(Rewritten([Got512(0), NewRead(0, 1, 0)], BULK_OUT));
    RunConcat(st, SecondScript(), Stage2(st1, r, env).evs);
  }

  lemma SecondRead(out: seq<Record>)
    ensures Run(Rewritten([Got512(0), NewRead(0, 1, 0)], out), Samples(1, 0, 512)) == Rewritten([Got512(0), Got512(1)], out)
    ensures OnlyEnv(Samples(1, 0, 512))
  {
    hide Run, OrderlyRun, Step, Sector, NewRead, Samples, Got512, Filled;
    var st := Rewritten([Got512(0), NewRead(0, 1, 0)], out);
    FilledIs(1);
    SamplesFill(st, 1, 0);
    assert FillRead(st, 1).pending == [Got512(0), Got512(1)];
  }

  lemma BothFlushed(st: State)
    requires |st.queue| == 2 && st.queue[0].ok && st.queue[1].ok
    ensures
      var o := FlushRun(st, [false, false]);
      var st' := Run(st, o.evs);
      && !o.result && st' == st.(queue := [], out := st'.out, readDone := st.readDone - 2)
      && Sent(st'.out) == Sent(st.out) + st.queue
  {
    hide Run, Sent;
    var st1 := Step(st, FlushStep);
    var st2 := Step(st1, FlushStep);
    assert [false, false][1..] == [false] && [false][1..] == [];
    assert FlushRun(st2, []) == Ran([], false);
    assert FlushRun(st1, [false]) == Ran([FlushStep] + [], false);
    assert FlushRun(st, [false, false]) == Ran([FlushStep] + ([FlushStep] + []), false);
    assert [FlushStep] + ([FlushStep] + []) == [FlushStep, FlushStep];
    RunTwo(st, FlushStep, FlushStep);
    SentAppend(st.out, Chunk(st.queue[0]));
    SentAppend(st.out + [Chunk(st.queue[0])], Chunk(st.queue[1]));
    assert st.queue == [st.queue[0]] + [st.queue[1]];
    BlocksAssoc(Sent(st.out), [st.queue[0]], [st.queue[1]]);
  }

  lemma BothDone(out: seq<Record>)
    ensures
      var st := Rewritten([Got512(0), Got512(1)], out);
      var st' := Run(st, [ReadDone(1, Blank(), true), ReadDone(0, Blank(), true)]);
      && Enabled(st, ReadDone(1, Blank(), true)) && Enabled(st, ReadDone(0, Blank(), true)) && !InOrder(st.pending, 1)
      && |st'.queue| == 2 && st'.queue[0].ok && st'.queue[1].ok && st'.pending == [] && st'.submitted == 0 && st'.bulkCompleted
      && |st'.devs| == 1 && st'.devs[0].disk == Sector(1) && st'.devs[0].dirty == {} && st'.devs[0].writes == []
  {
    hide Sector, Blank, Buffer, Values, Complete, Run;
    var st := Rewritten([Got512(0), Got512(1)], out);
    RunTwo(st, ReadDone(1, Blank(), true), ReadDone(0, Blank(), true));
    AllGot(0);
    AllGot(1);
    assert st.pending[0].dev == st.pending[1].dev && st.pending[0].sector == st.pending[1].sector;
    var st1 := CompleteRead(st, 1, Blank(), true);
    assert st1.pending == [Got512(0)];
    assert CompleteRead(st1, 0, Blank(), true).pending == [];
  }

  lemma AllGot(x: Byte)
    ensures Complete(Got512(x).cells) && |Got512(x).cells| == 512
  {}

  lemma ReadsCover()
    ensures ReadCovers(Got512(0), 0, 0) && ReadCovers(Got512(1), 0, 0) && ReadAt(Got512(0), 0, 0) == Got(0)
  {}

  lemma NotOrderly(st: State, a: seq<Event>, b: seq<Event>)
    requires b != [] && !Orderly(Run(st, a), b[0])
    ensures !OrderlyRun(st, a + b)
  {
    hide Orderly, Step;
    RunConcat(st, a, b);
  }

  lemma SwapIsNotOrderly(st: State)
    requires |st.pending| > 1 && Enabled(st, ReadDone(1, Blank(), true)) && !InOrder(st.pending, 1)
    ensures !Orderly(st, ReadDone(1, Blank(), true))
  {
    hide Enabled, InOrder, Blank;
  }

  /** The two reads finish swapped: the older bytes are the last in the queue. */
  lemma SwappedDonesRun()
    requires Valid(Rewritten([Got512(0), NewRead(0, 1, 0)], DIRTY_OUT))
    ensures
      var st0 := Rewritten([Got512(0), NewRead(0, 1, 0)], DIRTY_OUT);
      var st := Run(st0, SwappedDones());
      && !OrderlyRun(st0, SwappedDones()) && OnlyEnv(SwappedDones())
      && |st.queue| == 2 && st.queue[0].ok && st.queue[1].ok && st.pending == [] && st.submitted == 0 && st.bulkCompleted
      && |st.devs| == 1 && st.devs[0].disk == Sector(1) && st.devs[0].dirty == {} && st.devs[0].writes == []
      && Latest(0, Sent(st.out) + st.queue, 0, 0) == 0
  {
    hide Run, OrderlyRun, Step, Sector, Samples, Blank, Valid, Latest, Got512, Orderly, ReadCovers, Enabled, InOrder, Sent, LatestRead, NewRead;
    var st0 := Rewritten([Got512(0), NewRead(0, 1, 0)], DIRTY_OUT);
    var st1 := Rewritten([Got512(0), Got512(1)], DIRTY_OUT);
    var dones := [ReadDone(1, Blank(), true), ReadDone(0, Blank(), true)];
    SecondRead(DIRTY_OUT);
    RunKeepsValid(st0, Samples(1, 0, 512));
    BothDone(DIRTY_OUT);
    ReadsCover();
    OutOfOrderArrives(st1, 0, 1, Blank(), 0, 0, 0);
    RunConcat(st0, Samples(1, 0, 512), dones);
    SwapIsNotOrderly(st1);
    NotOrderly(st0, Samples(1, 0, 512), dones);
    DonesAreEnv();
  }

  lemma DonesAreEnv()
    ensures OnlyEnv([ReadDone(1, Blank(), true), ReadDone(0, Blank(), true)])
  {
    hide Blank;
  }

  /** A migration in which reads of one chunk finish out of order: everything is drained and the bulk phase
      is over, but the destination keeps the byte the guest overwrote. */
  lemma SwappedReadsLoseAWrite(env: Environment)
    requires Flushes(env)
    ensures Valid(Start(0)) && Initial(Start(0)) && Prepared(Start(0), [Sector(0)])
    ensures OnlyEnvRounds([BULK_ROUND, DirtyRound()]) && OnlyEnv(SwappedDones())
    ensures
      var o := MigrationRun(Start(0), [BULK_ROUND, DirtyRound()], SwappedDones(), env, [false, false]);
      var st := Run(Start(0), o.evs);
      && !o.result && !ScriptsOrderly(Start(0), [BULK_ROUND, DirtyRound()], SwappedDones(), env)
      && Valid(st) && st.bulkCompleted && Drained(st) && LeavesStale(st, [Sector(0)])
  {
    hide Run, Step, Valid, Flushes, RoundsRun, RoundRun, RoundsOrderly, OrderlyRun, MigrationRun, ScriptsOrderly, SwappedDones, OnlyEnv, LeavesStale, Latest, SendAll, Sector, NewRead, Blank, SecondScript, Got512, FlushRun, Sent;
    StartInitial(0, 0);
    EndSectionIs(Start(0));
    assert [] + [Eos] == [Eos];
    var st1, st2 := Start(0).(out := [Eos]), Bulked(0, NewRead(0, 1, 0), BULK_OUT);
    var st3 := Rewritten([Got512(0), NewRead(0, 1, 0)], DIRTY_OUT);
    BulkRoundRuns(0, env);
    OneRound(st1, BULK_ROUND, [DirtyRound()], env);
    DirtyRoundRuns(env);
    OneRound(st2, DirtyRound(), [], env);
    assert [BULK_ROUND] + [DirtyRound()] == [BULK_ROUND, DirtyRound()] && [DirtyRound()] + [] == [DirtyRound()];
    NoRounds(st3, env);
    RunNone(st3);
    SwappedDonesRun();
    var st4 := Run(st3, SwappedDones());
    MigrationEnds(Start(0), [BULK_ROUND, DirtyRound()], SwappedDones(), env, [false, false], st3);
    BothFlushed(st4);
    MigrationRunKeeps(Start(0), [BULK_ROUND, DirtyRound()], SwappedDones(), env, [false, false]);
    assert OnlyEnv([]) && OnlyEnv(SecondScript()) by { NoEvents(); SecondScriptRuns(); }
    var st := Run(st4, FlushRun(st4, [false, false]).evs);
    NoneDirty(st);
    StaleByte(st);
  }
}
