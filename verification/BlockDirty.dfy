/** The set of dirty chunks that the migration machine uses is what the packed dirty bitmap of the block
    layer holds: every step that changes the set is the calls of set_dirty_bitmap that the source makes,
    and a bitmap that has seen these calls has exactly the bits of the set. */
module BlockDirty {
  import opened Words
  import opened Bitmap
  import opened BlockState
  import opened BlockInvariant
  import opened BlockMigration
  import D = DirtyBitmap

  /** The chunks of the set are those last visited by a write. */
  ghost predicate SameChunks(v: Dev, ops: seq<D.Op>) {
    forall c: nat :: c in v.dirty <==> D.LastWrote(ops, c)
  }

  predicate InDevice(total: nat, ops: seq<D.Op>) {
    forall i :: 0 <= i < |ops| ==> ops[i].sector + ops[i].count <= total
  }

  /** bdrv_reset_dirty for a chunk that is about to be read. */
  function ResetChunk(total: nat, sector: nat): D.Op
    requires sector < total
  {
    D.Reset(sector, ChunkSectors(total, sector))
  }

  function BulkOps(v: Dev): seq<D.Op>
    requires v.cur <= Total(v)
  {
    var start := BulkStart(v);
    if start == Total(v) then [] else [ResetChunk(Total(v), start / 2048 * 2048)]
  }

  /** The calls of set_dirty_bitmap on device d in one step. */
  function StepOps(st: State, ev: Event, d: nat): seq<D.Op>
    requires d < |st.devs|
  {
    if !Enabled(st, ev) then []
    else match ev
      case GuestEnd(e, i) => if e == d then [D.Wrote(st.devs[d].writes[i].sector, st.devs[d].writes[i].count)] else []
      case GuestWrite(e, w, _) => if e == d then [D.Wrote(w.sector, w.count)] else []
      case BulkStep => if FirstUnfinished(st.devs, 0) == d then BulkOps(st.devs[d]) else []
      case DirtyStep(e, c) => if e == d then [ResetChunk(Total(st.devs[d]), 2048 * c)] else []
      case _ => []
  }

  lemma AfterOps(v: Dev, v': Dev, ops: seq<D.Op>, op: D.Op)
    requires SameChunks(v, ops)
    requires forall c: nat :: c in v'.dirty <==> if D.Visits(op.sector, op.count, c) then op.Wrote? else c in v.dirty
    ensures SameChunks(v', ops + [op])
  {
    hide D.Visits, D.LastWrote;
    forall c: nat ensures c in v'.dirty <==> D.LastWrote(ops + [op], c) {
      D.LastWroteAppend(ops, op, c);
    }
  }

  lemma NoOps(v: Dev, v': Dev, ops: seq<D.Op>)
    requires SameChunks(v, ops) && v'.dirty == v.dirty
    ensures SameChunks(v', ops + [])
  {
    hide D.LastWrote;
    assert ops + [] == ops;
  }

  /** Resetting a chunk visits that chunk only. */
  lemma ResetVisits(total: nat, sector: nat, c: nat)
    requires sector < total && sector % 2048 == 0
    ensures var op := ResetChunk(total, sector); D.Visits(op.sector, op.count, c) <==> c == sector / 2048
    ensures InDevice(total, [ResetChunk(total, sector)])
  {}

  lemma ResetKeeps(v: Dev, v': Dev, ops: seq<D.Op>, sector: nat)
    requires SameChunks(v, ops) && sector < Total(v) && sector % 2048 == 0 && v'.dirty == v.dirty - {sector / 2048}
    ensures SameChunks(v', ops + [ResetChunk(Total(v), sector)]) && InDevice(Total(v), [ResetChunk(Total(v), sector)])
  {
    hide D.Visits, ResetChunk, InDevice;
    var op := ResetChunk(Total(v), sector);
    forall c: nat ensures c in v'.dirty <==> if D.Visits(op.sector, op.count, c) then op.Wrote? else c in v.dirty {
      ResetVisits(Total(v), sector, c);
      assert !op.Wrote? by { IsReset(Total(v), sector); }
    }
    ResetVisits(Total(v), sector, 0);
    AfterOps(v, v', ops, op);
  }

  lemma IsReset(total: nat, sector: nat)
    requires sector < total
    ensures !ResetChunk(total, sector).Wrote?
  {}

  lemma WriteKeeps(v: Dev, v': Dev, ops: seq<D.Op>, w: Write)
    requires SameChunks(v, ops) && v'.dirty == v.dirty + Marked(w.sector, w.count)
    ensures SameChunks(v', ops + [D.Wrote(w.sector, w.count)])
  {
    hide D.FirstChunk, D.LastChunk, D.LastWrote;
    var op := D.Wrote(w.sector, w.count);
    AfterOps(v, v', ops, op);
  }

  lemma BulkKeepsChunks(st: State, d: nat, ops: seq<D.Op>)
    requires Valid(st) && Enabled(st, BulkStep) && d < |st.devs| && SameChunks(st.devs[d], ops)
    ensures
      var st', more := Step(st, BulkStep), StepOps(st, BulkStep, d);
      d < |st'.devs| && SameChunks(st'.devs[d], ops + more) && InDevice(Total(st.devs[d]), more)
  {
    hide Valid, SameChunks, NewRead, Percent, ResetChunk, FirstAllocated;
    var v, v' := st.devs[d], Step(st, BulkStep).devs[d];
    if FirstUnfinished(st.devs, 0) == d && BulkStart(v) < Total(v) {
      ResetKeeps(v, v', ops, BulkStart(v) / 2048 * 2048);
    } else {
      NoOps(v, v', ops);
    }
  }

  /** Every step changes the set as its calls change the bitmap. */
  lemma StepKeepsChunks(st: State, ev: Event, d: nat, ops: seq<D.Op>)
    requires Valid(st) && d < |st.devs| && SameChunks(st.devs[d], ops)
    ensures
      var st', more := Step(st, ev), StepOps(st, ev, d);
      d < |st'.devs| && SameChunks(st'.devs[d], ops + more) && InDevice(Total(st.devs[d]), more)
  {
    hide Valid, ValidDev, SameChunks, Bulk, NewRead, ResetChunk, BulkOps, Marked, Finished, Complete, UnderWrite;
    var v := st.devs[d];
    DevOf(st, d);
    if Enabled(st, ev) && ev.BulkStep? {
      BulkKeepsChunks(st, d, ops);
    } else {
      var v' := Step(st, ev).devs[d];
      if Enabled(st, ev) && ev.GuestEnd? && ev.d == d {
        WriteKeeps(v, v', ops, v.writes[ev.i]);
        assert InDisk(Total(v), v.writes[ev.i]) by { WritesInDisk(v, ev.i); }
      } else if Enabled(st, ev) && ev.GuestWrite? && ev.d == d {
        WriteKeeps(v, v', ops, ev.w);
      } else if Enabled(st, ev) && ev.DirtyStep? && ev.d == d {
        ResetKeeps(v, v', ops, 2048 * ev.c);
      } else {
        NoOps(v, v', ops);
      }
    }
  }

  /** So does sending a dirty chunk in stage 3. */
  lemma SendKeepsChunks(st: State, e: nat, c: nat, mem: seq<Byte>, d: nat, ops: seq<D.Op>)
    requires e < |st.devs| && 2048 * c < Total(st.devs[e]) && |st.devs[e].disk| == 512 * Total(st.devs[e]) && |mem| == 1048576
    requires d < |st.devs| && SameChunks(st.devs[d], ops)
    ensures SameChunks(SendDirty(st, e, c, mem).devs[d], ops + if e == d then [ResetChunk(Total(st.devs[d]), 2048 * c)] else [])
  {
    hide SameChunks, ResetChunk, ChunkNow, InDevice;
    var v, v' := st.devs[d], SendDirty(st, e, c, mem).devs[d];
    if e == d {
      ResetKeeps(v, v', ops, 2048 * c);
    } else {
      NoOps(v, v', ops);
    }
  }

  lemma WritesInDisk(v: Dev, i: nat)
    requires ValidDev(v) && i < |v.writes|
    ensures InDisk(Total(v), v.writes[i])
  {}

  /** The calls of a whole run. */
  function RunOps(st: State, evs: seq<Event>, d: nat): seq<D.Op>
    requires Valid(st) && d < |st.devs|
    decreases |evs|
  {
    if evs == [] then []
    else
      StepKeepsValid(st, evs[0]);
      StepShape(st, evs[0]);
      StepOps(st, evs[0], d) + RunOps(Step(st, evs[0]), evs[1..], d)
  }

  /** In every run the dirty set of a device is the chunks last visited by a write among its calls. */
  lemma {:induction false} RunKeepsChunks(st: State, evs: seq<Event>, d: nat, ops: seq<D.Op>)
    requires Valid(st) && d < |st.devs| && SameChunks(st.devs[d], ops)
    ensures
      var st', more := Run(st, evs), RunOps(st, evs, d);
      d < |st'.devs| && SameChunks(st'.devs[d], ops + more) && InDevice(Total(st.devs[d]), more)
    decreases |evs|
  {
    hide Valid, SameChunks, Step, StepOps, Total;
    if evs == [] {
      assert ops + [] == ops;
    } else {
      var st', more := Step(st, evs[0]), StepOps(st, evs[0], d);
      StepKeepsValid(st, evs[0]);
      StepShape(st, evs[0]);
      StepKeepsChunks(st, evs[0], d, ops);
      RunKeepsChunks(st', evs[1..], d, ops + more);
      assert (ops + more) + RunOps(st', evs[1..], d) == ops + (more + RunOps(st', evs[1..], d));
    }
  }

  // ----- the bitmap itself

  /** The bits of the device's bitmap are the set. */
  ghost predicate Holds(dev: D.Device, v: Dev)
    reads dev, dev.bitmap
  {
    && dev.bitmap != null && 32 * dev.bitmap.Length * 2048 >= Total(v)
    && forall c: nat :: c < 32 * dev.bitmap.Length ==> (BitAt(dev.bitmap[..], c) <==> c in v.dirty)
  }

  lemma BitsAreChunks(dev: D.Device, v: Dev)
    requires dev.Valid() && dev.bitmap != null && dev.sectors == Total(v) && SameChunks(v, dev.ops)
    ensures Holds(dev, v)
  {
    hide BitAt, D.LastWrote;
  }

  /** The calls made on the bitmap. */
  method Track(dev: D.Device, ops: seq<D.Op>)
    requires dev.Valid() && dev.bitmap != null && 0 < dev.sectors && InDevice(dev.sectors, ops)
    modifies dev, dev.bitmap
    ensures dev.bitmap == old(dev.bitmap) && dev.Valid() && dev.ops == old(dev.ops) + ops
  {
    hide D.Device.Valid;
    for i := 0 to |ops|
      invariant dev.bitmap == old(dev.bitmap) && dev.Valid() && dev.ops == old(dev.ops) + ops[..i]
    {
      dev.SetDirtyBitmap(ops[i].sector, ops[i].count, ops[i].Wrote?);
      assert ops[..i + 1] == ops[..i] + [ops[i]];
    }
    assert ops[..|ops|] == ops;
  }

  /** A bitmap that starts clean and sees the calls of a run ends with the bits of the machine's set. */
  method TrackRun(dev: D.Device, st: State, evs: seq<Event>, d: nat)
    requires Valid(st) && d < |st.devs| && st.devs[d].dirty == {}
    requires dev.Valid() && dev.bitmap != null && dev.ops == [] && dev.sectors == Total(st.devs[d])
    modifies dev, dev.bitmap
    ensures dev.Valid() && d < |Run(st, evs).devs| && Holds(dev, Run(st, evs).devs[d])
  {
    hide Valid, Run, RunOps, D.Device.Valid, Holds, InDevice;
    assert SameChunks(st.devs[d], []);
    RunKeepsChunks(st, evs, d, []);
    RunTotal(st, evs, d);
    DevOf(st, d);
    Track(dev, RunOps(st, evs, d));
    BitsAreChunks(dev, Run(st, evs).devs[d]);
  }

  lemma {:induction false} RunTotal(st: State, evs: seq<Event>, d: nat)
    requires d < |st.devs|
    ensures d < |Run(st, evs).devs| && Total(Run(st, evs).devs[d]) == Total(st.devs[d])
    decreases |evs|
  {
    hide Step, Total;
    if evs != [] {
      StepShape(st, evs[0]);
      RunTotal(Step(st, evs[0]), evs[1..], d);
    }
  }

  /** bdrv_get_dirty then answers membership in the set. */
  method GetDirty(dev: D.Device, ghost v: Dev, sector: nat) returns (r: bool)
    requires dev.Valid() && dev.sectors == Total(v) && Holds(dev, v) && sector < Total(v)
    ensures r <==> sector / 2048 in v.dirty
  {
    r := dev.GetDirty(sector);
  }
}
