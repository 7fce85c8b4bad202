/** Whole runs of a block migration: any interleaving of steps, then the synchronous stage 3. */
module BlockMigration {
  import opened Common
  import opened Words
  import opened BlockState
  import opened BlockInvariant

  // ----- runs keep the invariant

  lemma SetDevShape(devs: seq<Dev>, d: nat, v: Dev)
    requires d < |devs| && Total(v) == Total(devs[d])
    ensures SameShape(devs, devs[d := v])
  {}

  lemma BulkShape(st: State)
    requires forall d :: 0 <= d < |st.devs| ==> st.devs[d].cur <= Total(st.devs[d])
    ensures SameShape(st.devs, Bulk(st).devs)
  {
    hide NewRead, Percent;
  }

  lemma StepShape(st: State, ev: Event)
    ensures SameShape(st.devs, Step(st, ev).devs)
  {
    hide Bulk, NewRead, Finished, Marked;
    if Enabled(st, ev) && ev.BulkStep? {
      BulkShape(st);
    }
  }

  lemma ShapeSizes(a: seq<Dev>, b: seq<Dev>, dst: seq<seq<Byte>>)
    requires ValidDevs(a) && ValidDevs(b) && SameShape(a, b) && SameSizes(a, dst)
    ensures SameSizes(b, dst)
  {
    forall d | 0 <= d < |b| ensures |dst[d]| == |b[d].disk| {
      assert ValidDev(a[d]) && ValidDev(b[d]);
    }
  }

  lemma DevsValid(st: State)
    requires Valid(st)
    ensures ValidDevs(st.devs)
  {}

  lemma StepSizes(st: State, ev: Event, dst: seq<seq<Byte>>)
    requires Valid(st) && SameSizes(st.devs, dst)
    ensures Valid(Step(st, ev)) && SameSizes(Step(st, ev).devs, dst)
  {
    hide Valid, ValidDevs, SameSizes, SameShape, Step;
    StepKeepsValid(st, ev);
    StepShape(st, ev);
    DevsValid(st);
    DevsValid(Step(st, ev));
    ShapeSizes(st.devs, Step(st, ev).devs, dst);
  }

  /** Every orderly step keeps the invariant. */
  lemma StepKeepsInv(st: State, ev: Event, dst: seq<seq<Byte>>)
    requires Inv(st, dst) && Orderly(st, ev)
    ensures Inv(Step(st, ev), dst)
  {
    hide Valid, ValidDev, Settled, Step, Orderly, Failed, SameShape;
    var st' := Step(st, ev);
    StepSizes(st, ev, dst);
    if Failed(st.queue) {
      FailedStays(st, ev);
    } else if !Failed(st'.queue) {
      StepShape(st, ev);
      forall d: nat, p: nat | d < |st'.devs| && p < |st'.devs[d].disk| ensures
          |st'.devs[d].disk| == 512 * Total(st'.devs[d]) && Settled(st', dst[d][p], d, p) {
        DevOf(st, d);
        DiskSize(st.devs[d]);
        StepSettles(st, ev, dst[d][p], d, p);
      }
    }
  }

  predicate OrderlyRun(st: State, evs: seq<Event>)
    decreases |evs|
  {
    evs == [] || (Orderly(st, evs[0]) && OrderlyRun(Step(st, evs[0]), evs[1..]))
  }

  lemma {:induction false} RunKeepsInv(st: State, evs: seq<Event>, dst: seq<seq<Byte>>)
    requires Inv(st, dst) && OrderlyRun(st, evs)
    ensures Inv(Run(st, evs), dst)
    decreases |evs|
  {
    hide Inv, Orderly, Step;
    if evs != [] {
      StepKeepsInv(st, evs[0], dst);
      RunKeepsInv(Step(st, evs[0]), evs[1..], dst);
    }
  }

  // ----- the start

  /** After stage 1: cursors at the start, tracking just enabled, no guest write in flight. */
  predicate NewDev(v: Dev) {
    && Total(v) > 0 && |v.disk| == 512 * Total(v)
    && v.cur == 0 && v.completed == 0 && !v.bulkDone && v.dirty == {} && v.inflight == {} && v.writes == []
  }

  predicate Initial(st: State) {
    && (forall d :: 0 <= d < |st.devs| ==> NewDev(st.devs[d]))
    && st.pending == [] && st.queue == [] && st.out == []
    && st.submitted == 0 && st.readDone == 0 && !st.bulkCompleted && st.prevProgress == -1
  }

  /** With a shared base, the destination already has the sectors the source never wrote. */
  predicate AgreesWhereAbsent(v: Dev, disk: seq<Byte>)
    requires |disk| == |v.disk| == 512 * Total(v)
  {
    v.sharedBase ==> forall p :: 0 <= p < |disk| && !v.present[p / 512] ==> disk[p] == v.disk[p]
  }

  predicate Prepared(st: State, dst: seq<seq<Byte>>)
    requires Initial(st)
  {
    SameSizes(st.devs, dst) && forall d :: 0 <= d < |dst| ==> AgreesWhereAbsent(st.devs[d], dst[d])
  }

  lemma InitialInv(st: State, dst: seq<seq<Byte>>)
    requires Initial(st) && Prepared(st, dst)
    ensures Inv(st, dst)
  {
    forall d: nat, p: nat | d < |st.devs| && p < |st.devs[d].disk| ensures Settled(st, dst[d][p], d, p) {
      assert NewDev(st.devs[d]) && AgreesWhereAbsent(st.devs[d], dst[d]);
      InitialSettled(st, dst[d][p], d, p);
    }
  }

  lemma InitialSettled(st: State, x: Byte, d: nat, p: nat)
    requires Initial(st) && d < |st.devs| && NewDev(st.devs[d]) && p < |st.devs[d].disk|
    requires st.devs[d].sharedBase && !st.devs[d].present[p / 512] ==> x == st.devs[d].disk[p]
    ensures Settled(st, x, d, p)
  {
    assert Sent([]) + [] == [];
  }

  // ----- stage 3

  /** The first dirty chunk from c on, or one past the end of the disk. */
  function NextDirty(v: Dev, c: nat): (r: nat)
    ensures c <= r && (2048 * r < Total(v) ==> r in v.dirty)
    ensures forall k: nat :: c <= k < r ==> k !in v.dirty
    decreases Total(v) - 2048 * c
  {
    if 2048 * c >= Total(v) || c in v.dirty then c else NextDirty(v, c + 1)
  }

  predicate HasDirty(v: Dev) {
    2048 * NextDirty(v, 0) < Total(v)
  }

  lemma HasDirtyIff(v: Dev)
    requires ValidDev(v)
    ensures HasDirty(v) <==> v.dirty != {}
  {
    var r := NextDirty(v, 0);
    if 2048 * r >= Total(v) {
      forall k: nat ensures k !in v.dirty {}
    }
  }

  function FirstDirtyDev(devs: seq<Dev>, d: nat): (r: nat)
    requires d <= |devs|
    ensures d <= r <= |devs| && (r < |devs| ==> HasDirty(devs[r]))
    ensures forall k :: d <= k < r ==> !HasDirty(devs[k])
    decreases |devs| - d
  {
    if d == |devs| || HasDirty(devs[d]) then d else FirstDirtyDev(devs, d + 1)
  }

  function DirtyTotal(devs: seq<Dev>): nat {
    if devs == [] then 0 else |devs[0].dirty| + DirtyTotal(devs[1..])
  }

  lemma {:induction false} DirtyTotalDrops(devs: seq<Dev>, d: nat, v: Dev)
    requires d < |devs| && |v.dirty| < |devs[d].dirty|
    ensures DirtyTotal(devs[d := v]) < DirtyTotal(devs)
  {
    if d == 0 {
      assert devs[d := v][1..] == devs[1..];
    } else {
      assert devs[d := v][1..] == devs[1..][d - 1 := v];
      DirtyTotalDrops(devs[1..], d - 1, v);
    }
  }

  /** One turn of the stage 3 loop. */
  function SendFirst(st: State, mem: seq<Byte>): (st': State)
    requires Valid(st) && FirstDirtyDev(st.devs, 0) < |st.devs| && |mem| == 1048576
    ensures Valid(st') && DirtyTotal(st'.devs) < DirtyTotal(st.devs)
  {
    hide Valid, ValidDev, NextDirty, ChunkNow;
    var d := FirstDirtyDev(st.devs, 0);
    var c := NextDirty(st.devs[d], 0);
    SendKeepsValid(st, d, c, mem);
    DirtyTotalDrops(st.devs, d, st.devs[d].(dirty := st.devs[d].dirty - {c}));
    SendDirty(st, d, c, mem)
  }

  /** The synchronous pass of stage 3, which ends because every turn clears a dirty chunk. */
  function SendAll(st: State, mem: seq<Byte>): (st': State)
    requires Valid(st) && |mem| == 1048576
    decreases DirtyTotal(st.devs)
  {
    if FirstDirtyDev(st.devs, 0) == |st.devs| then st else SendAll(SendFirst(st, mem), mem)
  }

  /** Everything read has been sent, and the guest is stopped. */
  predicate Drained(st: State) {
    st.pending == [] && st.queue == [] && forall d :: 0 <= d < |st.devs| ==> st.devs[d].writes == []
  }

  lemma ChunkNowAt(v: Dev, d: nat, c: nat, mem: seq<Byte>, p: nat)
    requires 2048 * c < Total(v) && |v.disk| == 512 * Total(v) && |mem| == 1048576 && p < |v.disk|
    ensures BlockCovers(ChunkNow(v, d, c, mem), d, p) <==> ChunkOf(p) == c
    ensures ChunkOf(p) == c ==> BlockAt(ChunkNow(v, d, c, mem), p) == v.disk[p]
  {}

  lemma NewestAfterSend(st: State, st': State, b: Block, x: Byte, d: nat, p: nat)
    requires st.pending == st'.pending == [] && st.queue == st'.queue == [] && st'.out == st.out + [Chunk(b)]
    ensures Newest(st', x, d, p) == if BlockCovers(b, d, p) then Got(BlockAt(b, p)) else Newest(st, x, d, p)
  {
    hide Latest, BlockCovers, BlockAt;
    SentAppend(st.out, Chunk(b));
    assert Sent(st.out) + [] == Sent(st.out) && Sent(st'.out) + [] == Sent(st'.out);
    LatestConcat(x, Sent(st.out), [b], d, p);
    LatestOne(Latest(x, Sent(st.out), d, p), b, d, p);
  }

  lemma SendSettles(st: State, d0: nat, c: nat, mem: seq<Byte>, x: Byte, d: nat, p: nat)
    requires Valid(st) && st.pending == [] && st.queue == [] && |mem| == 1048576
    requires d0 < |st.devs| && ValidDev(st.devs[d0]) && 2048 * c < Total(st.devs[d0])
    requires d < |st.devs| && ValidDev(st.devs[d]) && p < |st.devs[d].disk| && Settled(st, x, d, p)
    ensures
      var st' := SendDirty(st, d0, c, mem);
      d < |st'.devs| && |st'.devs[d].disk| == 512 * Total(st'.devs[d]) && p < |st'.devs[d].disk| && Settled(st', x, d, p)
  {
    hide Valid, Newest, ChunkNow, BlockCovers, BlockAt, ChunkOf, Unsent, UnderWrite;
    var st', b := SendDirty(st, d0, c, mem), ChunkNow(st.devs[d0], d0, c, mem);
    NewestAfterSend(st, st', b, x, d, p);
    if d == d0 {
      ChunkNowAt(st.devs[d], d, c, mem, p);
      SameUnsent(st.devs[d], st'.devs[d], p);
    } else {
      OtherDevice(st.devs[d0], d0, c, mem, d, p);
    }
  }

  lemma OtherDevice(v: Dev, d0: nat, c: nat, mem: seq<Byte>, d: nat, p: nat)
    requires 2048 * c < Total(v) && |v.disk| == 512 * Total(v) && |mem| == 1048576 && d != d0
    ensures !BlockCovers(ChunkNow(v, d0, c, mem), d, p)
  {}

  /** What a turn of stage 3 leaves alone. */
  lemma SendFirstKeeps(st: State, mem: seq<Byte>)
    requires Valid(st) && FirstDirtyDev(st.devs, 0) < |st.devs| && |mem| == 1048576
    ensures
      var st' := SendFirst(st, mem);
      && (Drained(st) ==> Drained(st')) && SameShape(st.devs, st'.devs) && st'.bulkCompleted == st.bulkCompleted
      && forall d :: 0 <= d < |st.devs| ==> st'.devs[d].disk == st.devs[d].disk
  {
    hide ChunkNow, NextDirty;
  }

  lemma SendFirstKeepsInv(st: State, mem: seq<Byte>, dst: seq<seq<Byte>>)
    requires Inv(st, dst) && Drained(st) && FirstDirtyDev(st.devs, 0) < |st.devs| && |mem| == 1048576
    ensures Inv(SendFirst(st, mem), dst)
  {
    hide Valid, ValidDev, Settled, NextDirty, ChunkNow, SameShape;
    var st' := SendFirst(st, mem);
    var d0 := FirstDirtyDev(st.devs, 0);
    var c := NextDirty(st.devs[d0], 0);
    SendFirstKeeps(st, mem);
    DevsValid(st);
    DevsValid(st');
    ShapeSizes(st.devs, st'.devs, dst);
    DevOf(st, d0);
    assert !Failed(st.queue);
    forall d: nat, p: nat | d < |st'.devs| && p < |st'.devs[d].disk| ensures
        |st'.devs[d].disk| == 512 * Total(st'.devs[d]) && Settled(st', dst[d][p], d, p) {
      DevOf(st, d);
      DiskSize(st.devs[d]);
      SendSettles(st, d0, c, mem, dst[d][p], d, p);
    }
  }

  /** Stage 3 clears every dirty chunk and keeps the invariant and the disks. */
  lemma {:induction false} SendAllKeeps(st: State, mem: seq<Byte>, dst: seq<seq<Byte>>)
    requires Inv(st, dst) && Drained(st) && |mem| == 1048576
    ensures
      var st' := SendAll(st, mem);
      && Inv(st', dst) && Drained(st') && st'.bulkCompleted == st.bulkCompleted && FirstDirtyDev(st'.devs, 0) == |st'.devs|
      && |st'.devs| == |st.devs| && forall d :: 0 <= d < |st.devs| ==> st'.devs[d].disk == st.devs[d].disk
    decreases DirtyTotal(st.devs)
  {
    hide Valid, AllSettled, Drained, HasDirty, SendFirst, Failed;
    if FirstDirtyDev(st.devs, 0) < |st.devs| {
      SendFirstKeepsInv(st, mem, dst);
      SendFirstKeeps(st, mem);
      SendAllKeeps(SendFirst(st, mem), mem, dst);
    }
  }

  // ----- delivery

  function Store(dst: seq<seq<Byte>>, b: Block): seq<seq<Byte>>
    requires b.dev < |dst| && 512 * b.nr <= |b.buf| && 512 * b.sector + 512 * b.nr <= |dst[b.dev]|
  {
    dst[b.dev := Spliced(dst[b.dev], 512 * b.sector, b.buf[..512 * b.nr])]
  }

  /** The block lies inside the destination's disk. */
  predicate Fits(sizes: seq<nat>, b: Block) {
    b.dev < |sizes| && |b.buf| == 1048576 && b.nr <= 2048 && 512 * b.sector + 512 * b.nr <= sizes[b.dev]
  }

  predicate AllFit(sizes: seq<nat>, blocks: seq<Block>) {
    forall i :: 0 <= i < |blocks| ==> Fits(sizes, blocks[i])
  }

  predicate HasSizes(sizes: seq<nat>, dst: seq<seq<Byte>>) {
    |dst| == |sizes| && forall d :: 0 <= d < |dst| ==> |dst[d]| == sizes[d]
  }

  /** Writing the blocks to the destination in order. */
  function Replay(sizes: seq<nat>, dst: seq<seq<Byte>>, blocks: seq<Block>): (r: seq<seq<Byte>>)
    requires HasSizes(sizes, dst) && AllFit(sizes, blocks)
    ensures HasSizes(sizes, r)
    decreases |blocks|
  {
    if blocks == [] then dst
    else
      assert Fits(sizes, blocks[0]);
      Replay(sizes, Store(dst, blocks[0]), blocks[1..])
  }

  lemma StoreAt(sizes: seq<nat>, dst: seq<seq<Byte>>, b: Block, d: nat, p: nat)
    requires HasSizes(sizes, dst) && Fits(sizes, b) && d < |dst| && p < |dst[d]|
    ensures HasSizes(sizes, Store(dst, b))
    ensures Store(dst, b)[d][p] == if BlockCovers(b, d, p) then BlockAt(b, p) else dst[d][p]
  {}

  lemma {:induction false} ReplayAt(sizes: seq<nat>, dst: seq<seq<Byte>>, blocks: seq<Block>, d: nat, p: nat)
    requires HasSizes(sizes, dst) && AllFit(sizes, blocks) && d < |dst| && p < |dst[d]|
    ensures Replay(sizes, dst, blocks)[d][p] == Latest(dst[d][p], blocks, d, p)
    decreases |blocks|
  {
    hide BlockCovers, BlockAt;
    if blocks != [] {
      assert Fits(sizes, blocks[0]);
      StoreAt(sizes, dst, blocks[0], d, p);
      ReplayAt(sizes, Store(dst, blocks[0]), blocks[1..], d, p);
    }
  }

  function Sizes(devs: seq<Dev>): (r: seq<nat>)
    ensures |r| == |devs|
  {
    seq(|devs|, d requires 0 <= d < |devs| => |devs[d].disk|)
  }

  function Disks(devs: seq<Dev>): (r: seq<seq<Byte>>)
    ensures |r| == |devs|
  {
    seq(|devs|, d requires 0 <= d < |devs| => devs[d].disk)
  }

  lemma ValidFits(devs: seq<Dev>, b: Block)
    requires ValidDevs(devs) && ValidBlock(devs, b)
    ensures Fits(Sizes(devs), b)
  {
    assert ValidDev(devs[b.dev]);
  }

  lemma {:induction false} SentFit(devs: seq<Dev>, out: seq<Record>)
    requires ValidDevs(devs) && ValidOut(devs, out)
    ensures AllFit(Sizes(devs), Sent(out))
  {
    hide ValidDevs, Fits, Sizes, ValidBlock;
    if out != [] {
      assert ValidRecord(devs, out[0]);
      if out[0].Chunk? {
        ValidFits(devs, out[0].block);
      }
      SentFit(devs, out[1..]);
    }
  }

  /** A settled byte with nothing left to send has arrived. */
  lemma SettledArrives(st: State, x: Byte, d: nat, p: nat)
    requires d < |st.devs| && ValidDev(st.devs[d]) && p < |st.devs[d].disk| && Settled(st, x, d, p)
    requires st.pending == [] && st.queue == [] && st.devs[d].writes == [] && st.devs[d].dirty == {} && st.devs[d].bulkDone
    ensures Latest(x, Sent(st.out), d, p) == st.devs[d].disk[p]
  {
    hide Latest;
    assert Sent(st.out) + [] == Sent(st.out);
  }

  lemma Arrived(st: State, dst: seq<seq<Byte>>)
    requires Inv(st, dst) && Drained(st) && st.bulkCompleted && FirstDirtyDev(st.devs, 0) == |st.devs|
    ensures HasSizes(Sizes(st.devs), dst) && AllFit(Sizes(st.devs), Sent(st.out))
    ensures Replay(Sizes(st.devs), dst, Sent(st.out)) == Disks(st.devs)
  {
    hide ValidDev, Settled, Fits, HasDirty, Latest;
    SentFit(st.devs, st.out);
    var sizes, r := Sizes(st.devs), Replay(Sizes(st.devs), dst, Sent(st.out));
    assert !Failed(st.queue);
    forall d: nat | d < |st.devs| ensures r[d] == st.devs[d].disk {
      HasDirtyIff(st.devs[d]);
      forall p: nat | p < |st.devs[d].disk| ensures r[d][p] == st.devs[d].disk[p] {
        DiskSize(st.devs[d]);
        SettledArrives(st, dst[d][p], d, p);
        ReplayAt(sizes, dst, Sent(st.out), d, p);
      }
    }
  }

  /** End to end: after any orderly run from the start that finished the bulk phase and left no read
      in flight, no block queued and no guest write, stage 3 makes the destination equal the source. */
  lemma MigrationDelivers(st0: State, evs: seq<Event>, mem: seq<Byte>, dst: seq<seq<Byte>>)
    requires Initial(st0) && Prepared(st0, dst) && OrderlyRun(st0, evs) && |mem| == 1048576
    requires var st := Run(st0, evs); st.bulkCompleted && Drained(st)
    ensures
      var st := Run(st0, evs);
      && Valid(st)
      && var out := SendAll(st, mem).out;
      && HasSizes(Sizes(st.devs), dst) && AllFit(Sizes(st.devs), Sent(out))
      && Replay(Sizes(st.devs), dst, Sent(out)) == Disks(st.devs)
  {
    hide Initial, Prepared, OrderlyRun, Run, Drained, SendAll, Valid, AllSettled, Failed, HasDirty;
    var st := Run(st0, evs);
    InitialInv(st0, dst);
    RunKeepsInv(st0, evs, dst);
    SendAllKeeps(st, mem, dst);
    var st' := SendAll(st, mem);
    Arrived(st', dst);
    assert Disks(st'.devs) == Disks(st.devs) && Sizes(st'.devs) == Sizes(st.devs);
  }

  // ----- what the assumptions are for

  /** Stage 3 brings byte p exactly when its chunk is dirty or the last copy already sent is
      current: whatever is still queued is dropped by the cleanup. */
  predicate WillArrive(st: State, x: Byte, d: nat, p: nat)
    requires d < |st.devs| && p < |st.devs[d].disk|
  {
    ChunkOf(p) in st.devs[d].dirty || Latest(x, Sent(st.out), d, p) == st.devs[d].disk[p]
  }

  lemma LatestAfterSend(out: seq<Record>, b: Block, x: Byte, d: nat, p: nat)
    ensures Latest(x, Sent(out + [Chunk(b)]), d, p) == if BlockCovers(b, d, p) then BlockAt(b, p) else Latest(x, Sent(out), d, p)
  {
    hide Latest, BlockCovers, BlockAt;
    SentAppend(out, Chunk(b));
    LatestConcat(x, Sent(out), [b], d, p);
    LatestOne(Latest(x, Sent(out), d, p), b, d, p);
  }

  lemma SendFirstExact(st: State, mem: seq<Byte>, x: Byte, d: nat, p: nat)
    requires Valid(st) && FirstDirtyDev(st.devs, 0) < |st.devs| && |mem| == 1048576
    requires d < |st.devs| && p < |st.devs[d].disk|
    ensures
      var st' := SendFirst(st, mem);
      d < |st'.devs| && st'.devs[d].disk == st.devs[d].disk && (WillArrive(st', x, d, p) <==> WillArrive(st, x, d, p))
  {
    hide ValidDev, NextDirty, ChunkNow, BlockCovers, BlockAt, ChunkOf, Latest, HasDirty;
    var d0 := FirstDirtyDev(st.devs, 0);
    DevOf(st, d0);
    DiskSize(st.devs[d0]);
    var c := NextDirty(st.devs[d0], 0);
    assert 2048 * c < Total(st.devs[d0]) by { assert HasDirty(st.devs[d0]); Found(st.devs[d0]); }
    LatestAfterSend(st.out, ChunkNow(st.devs[d0], d0, c, mem), x, d, p);
    if d == d0 {
      ChunkNowAt(st.devs[d], d, c, mem, p);
    } else {
      OtherDevice(st.devs[d0], d0, c, mem, d, p);
    }
  }

  lemma Found(v: Dev)
    requires HasDirty(v)
    ensures 2048 * NextDirty(v, 0) < Total(v) && NextDirty(v, 0) in v.dirty
  {}

  lemma {:induction false} SendAllExact(st: State, mem: seq<Byte>, x: Byte, d: nat, p: nat)
    requires Valid(st) && |mem| == 1048576 && d < |st.devs| && p < |st.devs[d].disk|
    ensures Latest(x, Sent(SendAll(st, mem).out), d, p) == st.devs[d].disk[p] <==> WillArrive(st, x, d, p)
    decreases DirtyTotal(st.devs)
  {
    hide ValidDev, SendFirst, Latest, HasDirty;
    if FirstDirtyDev(st.devs, 0) < |st.devs| {
      SendFirstExact(st, mem, x, d, p);
      SendAllExact(SendFirst(st, mem), mem, x, d, p);
    } else {
      HasDirtyIff(st.devs[d]);
    }
  }

  lemma ReadsValid(st: State)
    requires Valid(st)
    ensures ValidReads(st.devs, st.pending)
  {}

  lemma RunTwo(st: State, a: Event, b: Event)
    ensures Run(st, [a, b]) == Step(Step(st, a), b)
  {
    hide Step;
    assert [a, b][1..] == [b] && [b][1..] == [];
    assert Run(Step(st, a), [b]) == Run(Step(Step(st, a), b), []);
  }

  // ----- accounting

  /** In every run the counters count the reads in flight and the queue, and no device has
      completed more sectors than it has. */
  lemma {:induction false} RunKeepsValid(st: State, evs: seq<Event>)
    requires Valid(st)
    ensures Valid(Run(st, evs))
    ensures var st' := Run(st, evs); st'.submitted == |st'.pending| && st'.readDone == |st'.queue|
    ensures var devs := Run(st, evs).devs; CompletedSum(devs, |devs|) <= TotalSum(devs, |devs|)
    decreases |evs|
  {
    hide Step, ValidDevs, ValidReads, ValidBlocks, ValidOut;
    if evs != [] {
      StepKeepsValid(st, evs[0]);
      RunKeepsValid(Step(st, evs[0]), evs[1..]);
    } else {
      CompletedAtMostTotal(st.devs, |st.devs|);
    }
  }

  /** A bulk step moves the cursor of an unfinished device strictly forward, or finishes it. */
  lemma BulkAdvances(st: State, d: nat)
    requires Valid(st) && d < |st.devs| && !st.devs[d].bulkDone
    ensures st.devs[d].cur <= Total(st.devs[d])
    ensures
      var v, v' := st.devs[d], BulkDevice(st, d).devs[d];
      && (v'.cur > v.cur || (v'.bulkDone && v'.cur == Total(v')))
      && v'.cur >= v.cur && v'.completed >= v.completed && v'.completed >= v.cur
  {
    hide NewRead;
    DevOf(st, d);
  }

  lemma BulkCompletedMonotone(st: State, d: nat)
    requires Valid(st) && d < |st.devs|
    ensures (forall k :: 0 <= k < |st.devs| ==> st.devs[k].cur <= Total(st.devs[k])) && d < |Bulk(st).devs|
    ensures Bulk(st).devs[d].completed >= st.devs[d].completed && Bulk(st).devs[d].cur >= st.devs[d].cur
  {
    hide Valid, Percent, BulkDevice, NewRead;
    BulkEnabled(st);
    var d0 := FirstUnfinished(st.devs, 0);
    if d0 < |st.devs| {
      DevOf(st, d0);
      BulkAdvances(st, d0);
      BulkOthers(st, d0, d);
    }
  }

  lemma BulkOthers(st: State, d0: nat, d: nat)
    requires d0 < |st.devs| && st.devs[d0].cur <= Total(st.devs[d0]) && d < |st.devs|
    ensures |BulkDevice(st, d0).devs| == |st.devs| && (d != d0 ==> BulkDevice(st, d0).devs[d] == st.devs[d])
  {}

  /** No step moves a device's completed_sectors back. */
  lemma StepCompletedMonotone(st: State, ev: Event, d: nat)
    requires Valid(st) && d < |st.devs|
    ensures d < |Step(st, ev).devs| && Step(st, ev).devs[d].completed >= st.devs[d].completed
  {
    hide Valid, Bulk, NewRead, Finished, Marked;
    if Enabled(st, ev) && ev.BulkStep? {
      BulkCompletedMonotone(st, d);
    }
  }
}
