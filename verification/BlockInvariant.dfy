/** What every step of a block migration keeps: each byte of each disk is unsent, or in a dirty
    chunk, or under a guest write in flight, or its newest copy in the pipeline is current. */
module BlockInvariant {
  import opened Words
  import opened BlockState
  import D = DirtyBitmap

  // ----- the newest copy of a byte

  predicate BlockCovers(b: Block, d: nat, p: nat) {
    b.dev == d && 512 * b.sector <= p < 512 * b.sector + 512 * b.nr
  }

  function BlockAt(b: Block, p: nat): Byte {
    if 512 * b.sector <= p < 512 * b.sector + |b.buf| then b.buf[p - 512 * b.sector] else 0
  }

  predicate ReadCovers(r: Read, d: nat, p: nat) {
    r.dev == d && 512 * r.sector <= p < 512 * r.sector + |r.cells|
  }

  function ReadAt(r: Read, d: nat, p: nat): Cell
    requires ReadCovers(r, d, p)
  {
    r.cells[p - 512 * r.sector]
  }

  /** Byte p of device d after the blocks are written in order over a byte x. */
  function Latest(x: Byte, blocks: seq<Block>, d: nat, p: nat): Byte
    decreases |blocks|
  {
    if blocks == [] then x
    else
      var b := blocks[0];
      Latest(if BlockCovers(b, d, p) then BlockAt(b, p) else x, blocks[1..], d, p)
  }

  /** The same for reads still in flight. */
  function LatestRead(x: Cell, pending: seq<Read>, d: nat, p: nat): Cell
    decreases |pending|
  {
    if pending == [] then x
    else
      var r := pending[0];
      LatestRead(if ReadCovers(r, d, p) then ReadAt(r, d, p) else x, pending[1..], d, p)
  }

  function Carried(r: Record): seq<Block> {
    if r.Chunk? then [r.block] else []
  }

  function Sent(out: seq<Record>): seq<Block> {
    if out == [] then [] else Carried(out[0]) + Sent(out[1..])
  }

  /** What the destination will hold at p, whose byte was x at the start, once everything sent,
      queued and in flight has arrived. */
  function Newest(st: State, x: Byte, d: nat, p: nat): Cell {
    LatestRead(Got(Latest(x, Sent(st.out) + st.queue, d, p)), st.pending, d, p)
  }

  predicate Current(c: Cell, x: Byte) {
    c == Unread || c == Got(x)
  }

  predicate Unsent(v: Dev, p: nat)
    requires |v.disk| == 512 * Total(v) && p < |v.disk|
  {
    512 * v.cur <= p && (v.sharedBase ==> v.present[p / 512])
  }

  /** The invariant for byte p of a device, given its newest copy. */
  predicate DevSettled(v: Dev, newest: Cell, p: nat)
    requires |v.disk| == 512 * Total(v) && p < |v.disk|
  {
    Unsent(v, p) || ChunkOf(p) in v.dirty || UnderWrite(v, p) || Current(newest, v.disk[p])
  }

  /** The invariant for byte p of device d, which was x at the destination. */
  predicate Settled(st: State, x: Byte, d: nat, p: nat)
    requires d < |st.devs| && |st.devs[d].disk| == 512 * Total(st.devs[d]) && p < |st.devs[d].disk|
  {
    DevSettled(st.devs[d], Newest(st, x, d, p), p)
  }

  // ----- lists of copies

  lemma {:induction false} LatestConcat(x: Byte, a: seq<Block>, b: seq<Block>, d: nat, p: nat)
    ensures Latest(x, a + b, d, p) == Latest(Latest(x, a, d, p), b, d, p)
    decreases |a|
  {
    hide BlockCovers, BlockAt;
    if a == [] {
      assert a + b == b;
    } else {
      assert (a + b)[1..] == a[1..] + b;
      LatestConcat(if BlockCovers(a[0], d, p) then BlockAt(a[0], p) else x, a[1..], b, d, p);
    }
  }

  lemma {:induction false} LatestReadConcat(x: Cell, a: seq<Read>, b: seq<Read>, d: nat, p: nat)
    ensures LatestRead(x, a + b, d, p) == LatestRead(LatestRead(x, a, d, p), b, d, p)
    decreases |a|
  {
    hide ReadCovers;
    if a == [] {
      assert a + b == b;
    } else {
      assert (a + b)[1..] == a[1..] + b;
      LatestReadConcat(if ReadCovers(a[0], d, p) then ReadAt(a[0], d, p) else x, a[1..], b, d, p);
    }
  }

  lemma {:induction false} SentConcat(a: seq<Record>, b: seq<Record>)
    ensures Sent(a + b) == Sent(a) + Sent(b)
    decreases |a|
  {
    hide Carried;
    if a == [] {
      assert a + b == b;
      assert Sent(a) + Sent(b) == Sent(b);
    } else {
      calc {
        Sent(a + b);
        { assert (a + b)[1..] == a[1..] + b; }
        Carried(a[0]) + Sent(a[1..] + b);
        { SentConcat(a[1..], b); }
        Carried(a[0]) + (Sent(a[1..]) + Sent(b));
        { BlocksAssoc(Carried(a[0]), Sent(a[1..]), Sent(b)); }
        Sent(a) + Sent(b);
      }
    }
  }

  lemma BlocksAssoc(a: seq<Block>, b: seq<Block>, c: seq<Block>)
    ensures a + b + c == a + (b + c)
  {}

  lemma SentAppend(out: seq<Record>, r: Record)
    ensures Sent(out + [r]) == Sent(out) + Carried(r)
  {
    hide Carried;
    SentConcat(out, [r]);
    assert [r][1..] == [];
    assert Carried(r) + [] == Carried(r);
  }

  lemma LatestReadOne(x: Cell, r: Read, d: nat, p: nat)
    ensures LatestRead(x, [r], d, p) == if ReadCovers(r, d, p) then ReadAt(r, d, p) else x
  {
    hide ReadCovers;
    assert [r][1..] == [];
  }

  lemma LatestOne(x: Byte, b: Block, d: nat, p: nat)
    ensures Latest(x, [b], d, p) == if BlockCovers(b, d, p) then BlockAt(b, p) else x
  {
    hide BlockCovers, BlockAt;
    assert [b][1..] == [];
  }

  lemma {:induction false} LatestReadNone(x: Cell, a: seq<Read>, d: nat, p: nat)
    requires forall i :: 0 <= i < |a| ==> !ReadCovers(a[i], d, p)
    ensures LatestRead(x, a, d, p) == x
    decreases |a|
  {
    hide ReadCovers;
    if a != [] {
      LatestReadNone(x, a[1..], d, p);
    }
  }

  /** Sampling a byte of a read in flight: the newest copy of that byte is unchanged, or is what
      was sampled. */
  lemma {:induction false} LatestReadSampled(x: Cell, pending: seq<Read>, i: nat, k: nat, v: Byte, d: nat, p: nat)
    requires i < |pending| && k < |pending[i].cells|
    ensures
      var y := LatestRead(x, pending[i := Sampled(pending[i], k, v)], d, p);
      y == LatestRead(x, pending, d, p) || (y == Got(v) && pending[i].dev == d && p == 512 * pending[i].sector + k)
    decreases |pending|
  {
    var r, r' := pending[0], Sampled(pending[i], k, v);
    var pending' := pending[i := r'];
    if i == 0 {
      assert pending'[1..] == pending[1..];
      if pending[0].dev == d && p == 512 * pending[0].sector + k {
        Overwritten(ReadAt(r, d, p), Got(v), pending[1..], d, p);
      }
    } else {
      assert pending'[1..] == pending[1..][i - 1 := r'];
      LatestReadSampled(if ReadCovers(r, d, p) then ReadAt(r, d, p) else x, pending[1..], i - 1, k, v, d, p);
    }
  }

  lemma {:induction false} Overwritten(x: Cell, y: Cell, pending: seq<Read>, d: nat, p: nat)
    ensures LatestRead(x, pending, d, p) == LatestRead(y, pending, d, p) || LatestRead(y, pending, d, p) == y
    decreases |pending|
  {
    hide ReadCovers;
    if pending != [] && !ReadCovers(pending[0], d, p) {
      Overwritten(x, y, pending[1..], d, p);
    }
  }

  // ----- the newest copy after each kind of step

  lemma NewestSame(st: State, st': State, x: Byte, d: nat, p: nat)
    requires st'.out == st.out && st'.queue == st.queue && st'.pending == st.pending
    ensures Newest(st', x, d, p) == Newest(st, x, d, p)
  {}

  lemma NewestAfterSubmit(st: State, st': State, x: Byte, d: nat, p: nat, r: Read)
    requires st'.out == st.out && st'.queue == st.queue && st'.pending == st.pending + [r]
    ensures Newest(st', x, d, p) == if ReadCovers(r, d, p) then ReadAt(r, d, p) else Newest(st, x, d, p)
  {
    hide ReadCovers, Latest, LatestRead;
    var y := Got(Latest(x, Sent(st.out) + st.queue, d, p));
    LatestReadConcat(y, st.pending, [r], d, p);
    LatestReadOne(LatestRead(y, st.pending, d, p), r, d, p);
  }

  /** Moving the head of the queue to the stream changes nothing. */
  lemma NewestAfterFlush(st: State, x: Byte, d: nat, p: nat)
    requires st.queue != []
    ensures Newest(FlushOne(st), x, d, p) == Newest(st, x, d, p)
  {
    hide Latest, LatestRead;
    var b := st.queue[0];
    SentAppend(st.out, Chunk(b));
    assert Sent(st.out) + [b] + st.queue[1..] == Sent(st.out) + st.queue;
  }

  lemma NewestAfterMark(st: State, r: Record, x: Byte, d: nat, p: nat)
    requires !r.Chunk?
    ensures Newest(st.(out := st.out + [r]), x, d, p) == Newest(st, x, d, p)
  {
    hide Latest, LatestRead;
    SentAppend(st.out, r);
    assert Sent(st.out) + [] == Sent(st.out);
  }

  /** No earlier read of the same chunk is still in flight. */
  predicate InOrder(pending: seq<Read>, i: nat)
    requires i < |pending|
  {
    forall j :: 0 <= j < i ==> pending[j].dev != pending[i].dev || pending[j].sector != pending[i].sector
  }

  lemma FinishedAt(r: Read, mem: seq<Byte>, d: nat, p: nat)
    requires |r.cells| <= |mem| == 1048576 && |r.cells| % 512 == 0 && Complete(r.cells)
    ensures var b := Finished(r, mem, true); BlockCovers(b, d, p) == ReadCovers(r, d, p)
    ensures ReadCovers(r, d, p) ==> Got(BlockAt(Finished(r, mem, true), p)) == ReadAt(r, d, p)
  {}

  /** Reads of different chunks do not overlap. */
  lemma ChunksDisjoint(devs: seq<Dev>, r: Read, s: Read, d: nat, p: nat)
    requires ValidRead(devs, r) && ValidRead(devs, s) && ReadCovers(r, d, p) && ReadCovers(s, d, p)
    ensures r.dev == s.dev && r.sector == s.sector
  {}

  /** A read that finishes in order takes its place in the queue without changing the newest copy. */
  lemma NewestAfterDone(st: State, x: Byte, d: nat, p: nat, i: nat, mem: seq<Byte>)
    requires Valid(st) && Enabled(st, ReadDone(i, mem, true)) && InOrder(st.pending, i)
    ensures Newest(CompleteRead(st, i, mem, true), x, d, p) == Newest(st, x, d, p)
  {
    hide ReadCovers, BlockCovers, BlockAt, Latest, LatestRead, Finished, Complete;
    var r := st.pending[i];
    var b := Finished(r, mem, true);
    var blocks, before, after := Sent(st.out) + st.queue, st.pending[..i], st.pending[i + 1..];
    var y := Latest(x, blocks, d, p);
    assert Sent(st.out) + (st.queue + [b]) == blocks + [b];
    LatestConcat(x, blocks, [b], d, p);
    LatestOne(y, b, d, p);
    FinishedAt(r, mem, d, p);
    var y' := Latest(x, blocks + [b], d, p);
    LatestReadConcat(Got(y'), before, after, d, p);
    assert st.pending == before + ([r] + after);
    LatestReadConcat(Got(y), before, [r] + after, d, p);
    LatestReadConcat(LatestRead(Got(y), before, d, p), [r], after, d, p);
    LatestReadOne(LatestRead(Got(y), before, d, p), r, d, p);
    if ReadCovers(r, d, p) {
      forall j | 0 <= j < i ensures !ReadCovers(before[j], d, p) {
        if ReadCovers(st.pending[j], d, p) {
          ChunksDisjoint(st.devs, st.pending[j], r, d, p);
        }
      }
      LatestReadNone(Got(y), before, d, p);
      LatestReadNone(Got(y'), before, d, p);
    }
  }

  // ----- every step keeps states well formed

  ghost predicate SameShape(a: seq<Dev>, b: seq<Dev>) {
    |a| == |b| && forall d :: 0 <= d < |a| ==> Total(b[d]) == Total(a[d])
  }

  lemma ShapeKeeps(a: seq<Dev>, b: seq<Dev>, st: State)
    requires SameShape(a, b)
    requires ValidReads(a, st.pending) && ValidBlocks(a, st.queue) && ValidOut(a, st.out)
    ensures ValidReads(b, st.pending) && ValidBlocks(b, st.queue) && ValidOut(b, st.out)
  {
    hide Total, ChunkSectors;
    forall i | 0 <= i < |st.pending| ensures ValidRead(b, st.pending[i]) {
      assert ValidRead(a, st.pending[i]);
    }
    forall i | 0 <= i < |st.queue| ensures ValidBlock(b, st.queue[i]) {
      assert ValidBlock(a, st.queue[i]);
    }
    forall i | 0 <= i < |st.out| ensures ValidRecord(b, st.out[i]) {
      assert ValidRecord(a, st.out[i]);
    }
  }

  /** v' is well formed and can stand in for v. */
  ghost predicate Replaces(v: Dev, v': Dev) {
    ValidDev(v') && Total(v') == Total(v) && (v.bulkDone ==> v'.bulkDone)
  }

  lemma SetDevValid(st: State, d: nat, v: Dev)
    requires Valid(st) && d < |st.devs| && Replaces(st.devs[d], v)
    ensures Valid(SetDev(st, d, v))
  {
    hide ValidDev, ValidReads, ValidBlocks, ValidOut;
    ShapeKeeps(st.devs, st.devs[d := v], st);
  }

  lemma MarkedInDisk(total: nat, w: Write, c: nat)
    requires InDisk(total, w) && total > 0 && c in Marked(w.sector, w.count)
    ensures 2048 * c < total
  {}

  lemma BeginWriteKeeps(v: Dev, w: Write)
    requires ValidDev(v) && InDisk(Total(v), w)
    ensures Replaces(v, BeginWrite(v, w))
  {}

  lemma WriteByteKeeps(v: Dev, p: nat, x: Byte)
    requires ValidDev(v) && p < |v.disk|
    ensures Replaces(v, WriteByte(v, p, x))
  {}

  lemma EndWriteKeeps(v: Dev, i: nat)
    requires ValidDev(v) && i < |v.writes|
    ensures Replaces(v, EndWrite(v, i))
  {
    hide Marked;
    var v' := EndWrite(v, i);
    forall c: nat | c in v'.dirty ensures 2048 * c < Total(v') {
      if c !in v.dirty {
        MarkedInDisk(Total(v), v.writes[i], c);
      }
    }
  }

  lemma WriteNowKeeps(v: Dev, w: Write, data: seq<Byte>)
    requires ValidDev(v) && InDisk(Total(v), w) && |data| == 512 * w.count
    ensures Replaces(v, WriteNow(v, w, data))
  {
    hide Marked;
    var v' := WriteNow(v, w, data);
    forall c: nat | c in v'.dirty ensures 2048 * c < Total(v') {
      if c !in v.dirty {
        MarkedInDisk(Total(v), w, c);
      }
    }
  }

  lemma DevOf(st: State, d: nat)
    requires Valid(st) && d < |st.devs|
    ensures ValidDev(st.devs[d])
  {}

  lemma GuestKeepsValid(st: State, ev: Event)
    requires Valid(st) && Enabled(st, ev) && (ev.GuestBegin? || ev.GuestByte? || ev.GuestEnd? || ev.GuestWrite?)
    ensures Valid(Step(st, ev))
  {
    hide Valid, ValidDev, Replaces, BeginWrite, WriteByte, EndWrite, WriteNow;
    DevOf(st, ev.d);
    var v := st.devs[ev.d];
    match ev
    case GuestBegin(d, w) =>
      BeginWriteKeeps(v, w);
      SetDevValid(st, d, BeginWrite(v, w));
    case GuestByte(d, p, x) =>
      WriteByteKeeps(v, p, x);
      SetDevValid(st, d, WriteByte(v, p, x));
    case GuestEnd(d, i) =>
      EndWriteKeeps(v, i);
      SetDevValid(st, d, EndWrite(v, i));
    case GuestWrite(d, w, data) =>
      WriteNowKeeps(v, w, data);
      SetDevValid(st, d, WriteNow(v, w, data));
  }

  lemma FinishedValid(devs: seq<Dev>, r: Read, mem: seq<Byte>, ok: bool)
    requires ValidRead(devs, r) && |r.cells| <= |mem| == 1048576
    ensures ValidBlock(devs, Finished(r, mem, ok))
  {}

  lemma ReadDoneKeepsValid(st: State, i: nat, mem: seq<Byte>, ok: bool)
    requires Valid(st) && i < |st.pending| && |st.pending[i].cells| <= |mem| == 1048576
    ensures st.pending[i].dev < |st.devs| && Valid(CompleteRead(st, i, mem, ok))
  {
    hide ValidRead, ValidBlock, ValidRecord, Finished;
    var r := st.pending[i];
    assert ValidRead(st.devs, r);
    ReadInRange(st.devs, r);
    var v := st.devs[r.dev];
    var st1 := SetDev(st, r.dev, v.(inflight := v.inflight - {r.sector / 2048}));
    SetDevValid(st, r.dev, v.(inflight := v.inflight - {r.sector / 2048}));
    assert ValidRead(st1.devs, st1.pending[i]);
    FinishedValid(st1.devs, r, mem, ok);
  }

  lemma ReadInRange(devs: seq<Dev>, r: Read)
    requires ValidRead(devs, r)
    ensures r.dev < |devs|
  {}

  lemma ReadByteKeepsValid(st: State, i: nat, k: nat)
    requires Valid(st) && Enabled(st, ReadByte(i, k))
    ensures Valid(Step(st, ReadByte(i, k)))
  {
    hide ValidDev, ValidBlock, ValidRecord;
    var st' := Step(st, ReadByte(i, k));
    forall j | 0 <= j < |st'.pending| ensures ValidRead(st'.devs, st'.pending[j]) {
      assert ValidRead(st.devs, st.pending[j]);
    }
  }

  lemma NewReadValid(devs: seq<Dev>, d: nat, sector: nat)
    requires Aligned(devs, d, sector)
    ensures ValidRead(devs, NewRead(d, Total(devs[d]), sector))
  {}

  /** A new read of an aligned sector keeps the state well formed. */
  lemma SubmitValid(st: State, d: nat, sector: nat)
    requires Valid(st) && Aligned(st.devs, d, sector)
    ensures Valid(st.(pending := st.pending + [NewRead(d, Total(st.devs[d]), sector)], submitted := st.submitted + 1))
  {
    hide ValidRead, ValidDev, ValidBlock, ValidRecord, NewRead;
    NewReadValid(st.devs, d, sector);
  }

  lemma DirtyKeepsValid(st: State, d: nat, c: nat)
    requires Valid(st) && d < |st.devs| && 2048 * c < Total(st.devs[d])
    ensures Valid(SubmitDirty(st, d, c))
  {
    hide Valid, NewRead;
    DevOf(st, d);
    var v := st.devs[d];
    var v' := v.(dirty := v.dirty - {c}, inflight := v.inflight + {c});
    SetDevValid(st, d, v');
    SubmitValid(SetDev(st, d, v'), d, 2048 * c);
  }

  lemma BulkDeviceKeepsValid(st: State, d: nat)
    requires Valid(st) && d < |st.devs|
    ensures st.devs[d].cur <= Total(st.devs[d]) && Valid(BulkDevice(st, d))
  {
    hide Valid, NewRead;
    DevOf(st, d);
    var v := st.devs[d];
    var start := BulkStart(v);
    if start == Total(v) {
      SetDevValid(st, d, v.(cur := Total(v), completed := Total(v), bulkDone := true));
    } else {
      var sector := start / 2048 * 2048;
      var next := sector + ChunkSectors(Total(v), sector);
      var v' := v.(completed := start, dirty := v.dirty - {sector / 2048}, cur := next, bulkDone := next >= Total(v));
      SetDevValid(st, d, v');
      SubmitValid(SetDev(st, d, v'), d, sector);
    }
  }

  lemma {:induction false} CompletedAtMostTotal(devs: seq<Dev>, n: nat)
    requires ValidDevs(devs) && n <= |devs|
    ensures CompletedSum(devs, n) <= TotalSum(devs, n) <= TotalSum(devs, |devs|)
  {
    hide ValidDev;
    if n > 0 {
      CompletedAtMostTotal(devs, n - 1);
      CompletedOfDev(devs[n - 1]);
    }
    TotalSumMonotone(devs, n, |devs|);
  }

  lemma CompletedOfDev(v: Dev)
    requires ValidDev(v)
    ensures v.completed <= Total(v)
  {}

  lemma {:induction false} TotalSumMonotone(devs: seq<Dev>, n: nat, m: nat)
    requires n <= m <= |devs|
    ensures TotalSum(devs, n) <= TotalSum(devs, m)
    decreases m
  {
    if n < m {
      TotalSumMonotone(devs, n, m - 1);
    }
  }

  /** The percentage reported never exceeds 100. */
  lemma PercentBound(devs: seq<Dev>, n: nat)
    requires ValidDevs(devs) && n <= |devs|
    ensures Percent(devs, n) <= 100
  {
    hide ValidDevs;
    CompletedAtMostTotal(devs, n);
    var total := TotalSum(devs, |devs|);
    if total != 0 {
      Ratio(CompletedSum(devs, n), total);
    }
  }

  lemma Ratio(a: nat, b: nat)
    requires a <= b && b > 0
    ensures a * 100 / b <= 100
  {
    assert a * 100 <= b * 100;
    assert b * 100 / b == 100;
  }

  lemma ReportKeepsValid(st: State, percent: nat)
    requires Valid(st) && percent <= 100
    ensures Valid(Report(st, percent))
  {
    hide ValidDevs, ValidReads, ValidBlocks;
  }

  lemma BulkEnabled(st: State)
    requires Valid(st)
    ensures forall d :: 0 <= d < |st.devs| ==> st.devs[d].cur <= Total(st.devs[d])
  {}

  lemma BulkKeepsValid(st: State)
    requires Valid(st)
    ensures (forall d :: 0 <= d < |st.devs| ==> st.devs[d].cur <= Total(st.devs[d])) && Valid(Bulk(st))
  {
    hide ValidDevs, ValidReads, ValidBlocks, ValidOut, BulkDevice, Percent;
    BulkEnabled(st);
    var d := FirstUnfinished(st.devs, 0);
    if d == |st.devs| {
      PercentBound(st.devs, d);
      ReportKeepsValid(st, Percent(st.devs, d));
    } else {
      BulkDeviceKeepsValid(st, d);
      var st' := BulkDevice(st, d);
      SameCount(st, d);
      PercentBound(st'.devs, d + 1);
      ReportKeepsValid(st', Percent(st'.devs, d + 1));
    }
  }

  lemma SameCount(st: State, d: nat)
    requires d < |st.devs| && st.devs[d].cur <= Total(st.devs[d])
    ensures |BulkDevice(st, d).devs| == |st.devs|
  {}

  lemma FlushKeepsValid(st: State)
    requires Valid(st) && st.queue != []
    ensures Valid(FlushOne(st))
  {
    hide ValidDevs, ValidReads, ValidBlock;
    assert ValidBlock(st.devs, st.queue[0]);
  }

  lemma ChunkNowValid(devs: seq<Dev>, d: nat, c: nat, mem: seq<Byte>)
    requires d < |devs| && 2048 * c < Total(devs[d]) && |devs[d].disk| == 512 * Total(devs[d]) && |mem| == 1048576
    ensures ValidBlock(devs, ChunkNow(devs[d], d, c, mem)) && ChunkNow(devs[d], d, c, mem).ok
  {}

  lemma SendKeepsValid(st: State, d: nat, c: nat, mem: seq<Byte>)
    requires Valid(st) && d < |st.devs| && 2048 * c < Total(st.devs[d]) && |mem| == 1048576
    ensures |st.devs[d].disk| == 512 * Total(st.devs[d]) && Valid(SendDirty(st, d, c, mem))
  {
    hide Valid, ChunkNow, ValidBlock;
    DevOf(st, d);
    var v := st.devs[d];
    var st' := SetDev(st, d, v.(dirty := v.dirty - {c}));
    SetDevValid(st, d, v.(dirty := v.dirty - {c}));
    ChunkNowValid(st.devs, d, c, mem);
    SameBlock(st.devs, st'.devs, ChunkNow(v, d, c, mem));
    SendValid(st', ChunkNow(v, d, c, mem));
  }

  lemma SendValid(st: State, b: Block)
    requires Valid(st) && ValidBlock(st.devs, b) && b.ok
    ensures Valid(st.(out := st.out + [Chunk(b)]))
  {
    hide ValidDevs, ValidReads, ValidBlocks, ValidBlock;
  }

  lemma SameBlock(a: seq<Dev>, b: seq<Dev>, x: Block)
    requires SameShape(a, b) && ValidBlock(a, x)
    ensures ValidBlock(b, x)
  {}

  /** Every step keeps the state well formed and the counters right. */
  lemma StepKeepsValid(st: State, ev: Event)
    requires Valid(st)
    ensures Valid(Step(st, ev))
  {
    hide Valid, CompleteRead, Bulk, SubmitDirty, FlushOne, BeginWrite, WriteByte, EndWrite, WriteNow;
    if Enabled(st, ev) {
      match ev
      case ReadByte(i, k) => ReadByteKeepsValid(st, i, k);
      case ReadDone(i, mem, ok) => ReadDoneKeepsValid(st, i, mem, ok);
      case BulkStep => BulkKeepsValid(st);
      case DirtyStep(d, c) => DirtyKeepsValid(st, d, c);
      case FlushStep => FlushKeepsValid(st);
      case EndSection => EosKeepsValid(st);
      case _ => GuestKeepsValid(st, ev);
    }
  }

  lemma EosKeepsValid(st: State)
    requires Valid(st)
    ensures Valid(st.(out := st.out + [Eos]))
  {
    hide ValidDevs, ValidReads, ValidBlocks;
  }

  // ----- every step keeps every byte settled

  lemma BeginWriteSettles(v: Dev, w: Write, n: Cell, p: nat)
    requires ValidDev(v) && p < |v.disk| && DevSettled(v, n, p)
    ensures |BeginWrite(v, w).disk| == |v.disk| && DevSettled(BeginWrite(v, w), n, p)
  {
    if UnderWrite(v, p) {
      var i :| 0 <= i < |v.writes| && InWrite(v.writes[i], p);
      assert InWrite(BeginWrite(v, w).writes[i], p);
    }
  }

  lemma WriteByteSettles(v: Dev, q: nat, x: Byte, n: Cell, p: nat)
    requires ValidDev(v) && p < |v.disk| && q < |v.disk| && UnderWrite(v, q) && DevSettled(v, n, p)
    ensures |WriteByte(v, q, x).disk| == |v.disk| && DevSettled(WriteByte(v, q, x), n, p)
  {
    var v' := WriteByte(v, q, x);
    assert v'.writes == v.writes;
    if p == q {
      assert UnderWrite(v', p);
    }
  }

  /** A byte of a write lies in a marked chunk. */
  lemma WriteIsMarked(w: Write, p: nat)
    requires InWrite(w, p)
    ensures ChunkOf(p) in Marked(w.sector, w.count)
  {
    var s: nat := p / 512;
    assert D.FirstChunk(s) == ChunkOf(p);
    D.VisitsIsTouches(w.sector, w.count, ChunkOf(p));
  }

  lemma EndWriteSettles(v: Dev, i: nat, n: Cell, p: nat)
    requires ValidDev(v) && p < |v.disk| && i < |v.writes| && DevSettled(v, n, p)
    ensures |EndWrite(v, i).disk| == |v.disk| && DevSettled(EndWrite(v, i), n, p)
  {
    hide Marked, InWrite, ChunkOf;
    var v' := EndWrite(v, i);
    if UnderWrite(v, p) {
      var j :| 0 <= j < |v.writes| && InWrite(v.writes[j], p);
      if j == i {
        WriteIsMarked(v.writes[i], p);
      } else {
        assert InWrite(v'.writes[if j < i then j else j - 1], p);
      }
    }
  }

  lemma WriteNowSettles(v: Dev, w: Write, data: seq<Byte>, n: Cell, p: nat)
    requires ValidDev(v) && InDisk(Total(v), w) && |data| == 512 * w.count && p < |v.disk| && DevSettled(v, n, p)
    ensures |WriteNow(v, w, data).disk| == |v.disk| && DevSettled(WriteNow(v, w, data), n, p)
  {
    hide Marked, ChunkOf;
    var v' := WriteNow(v, w, data);
    assert v'.writes == v.writes;
    if InWrite(w, p) {
      WriteIsMarked(w, p);
    } else {
      assert v'.disk[p] == v.disk[p];
    }
  }

  lemma GuestSettles(st: State, ev: Event, x: Byte, d: nat, p: nat)
    requires Valid(st) && Enabled(st, ev) && (ev.GuestBegin? || ev.GuestByte? || ev.GuestEnd? || ev.GuestWrite?)
    requires d < |st.devs| && ValidDev(st.devs[d]) && p < |st.devs[d].disk| && Settled(st, x, d, p)
    ensures var st' := Step(st, ev); d < |st'.devs| && ValidDev(st'.devs[d]) && p < |st'.devs[d].disk| && Settled(st', x, d, p)
  {
    hide Valid, ValidDev, DevSettled, BeginWrite, WriteByte, EndWrite, WriteNow, Latest, LatestRead;
    GuestKeepsValid(st, ev);
    var v := st.devs[ev.d];
    var n := Newest(st, x, d, p);
    DevOf(st, ev.d);
    DevOf(Step(st, ev), d);
    if ev.d == d {
      match ev
      case GuestBegin(_, w) => BeginWriteSettles(v, w, n, p);
      case GuestByte(_, q, y) => WriteByteSettles(v, q, y, n, p);
      case GuestEnd(_, i) => EndWriteSettles(v, i, n, p);
      case GuestWrite(_, w, data) => WriteNowSettles(v, w, data, n, p);
    }
  }

  lemma SampleSettles(st: State, i: nat, k: nat, x: Byte, d: nat, p: nat)
    requires Valid(st) && Enabled(st, ReadByte(i, k))
    requires d < |st.devs| && ValidDev(st.devs[d]) && p < |st.devs[d].disk| && Settled(st, x, d, p)
    ensures Settled(Step(st, ReadByte(i, k)), x, d, p)
  {
    hide Valid, ValidDev, LatestRead, Unsent, UnderWrite, ChunkOf;
    var r := st.pending[i];
    var v := st.devs[r.dev].disk[512 * r.sector + k];
    LatestReadSampled(Got(Latest(x, Sent(st.out) + st.queue, d, p)), st.pending, i, k, v, d, p);
  }

  lemma DoneSettles(st: State, i: nat, mem: seq<Byte>, x: Byte, d: nat, p: nat)
    requires Valid(st) && Enabled(st, ReadDone(i, mem, true)) && InOrder(st.pending, i)
    requires d < |st.devs| && ValidDev(st.devs[d]) && p < |st.devs[d].disk| && Settled(st, x, d, p)
    ensures
      var st' := CompleteRead(st, i, mem, true);
      d < |st'.devs| && ValidDev(st'.devs[d]) && p < |st'.devs[d].disk| && Settled(st', x, d, p)
  {
    hide Valid, Newest, Finished;
    NewestAfterDone(st, x, d, p, i, mem);
  }

  lemma FreshReadUnread(d: nat, total: nat, sector: nat, p: nat)
    requires sector < total
    ensures
      var r := NewRead(d, total, sector);
      ReadCovers(r, d, p) ==> ReadAt(r, d, p) == Unread
  {}

  /** The bytes of a read are those of its chunk. */
  lemma ReadCoversChunk(d: nat, total: nat, sector: nat, p: nat)
    requires sector < total && sector % 2048 == 0 && p < 512 * total
    ensures ReadCovers(NewRead(d, total, sector), d, p) <==> ChunkOf(p) == sector / 2048
  {}

  lemma DirtySettles(st: State, d0: nat, c: nat, x: Byte, d: nat, p: nat)
    requires Valid(st) && d0 < |st.devs| && 2048 * c < Total(st.devs[d0])
    requires d < |st.devs| && ValidDev(st.devs[d]) && p < |st.devs[d].disk| && Settled(st, x, d, p)
    ensures
      var st' := SubmitDirty(st, d0, c);
      d < |st'.devs| && ValidDev(st'.devs[d]) && p < |st'.devs[d].disk| && Settled(st', x, d, p)
  {
    hide Valid, Newest, NewRead, ReadCovers, ChunkOf, Unsent, UnderWrite;
    var st' := SubmitDirty(st, d0, c);
    var total := Total(st.devs[d0]);
    var r := NewRead(d0, total, 2048 * c);
    assert r.dev == d0 by { DevOfNew(d0, total, 2048 * c); }
    NewestAfterSubmit(st, st', x, d, p, r);
    if d == d0 {
      FreshReadUnread(d, total, 2048 * c, p);
      ReadCoversChunk(d, total, 2048 * c, p);
      SameUnsent(st.devs[d], st'.devs[d], p);
    } else {
      NotCovered(r, d, p);
    }
  }

  lemma DevOfNew(d: nat, total: nat, sector: nat)
    requires sector < total
    ensures NewRead(d, total, sector).dev == d
  {}

  lemma NotCovered(r: Read, d: nat, p: nat)
    requires r.dev != d
    ensures !ReadCovers(r, d, p)
  {}

  lemma SameUnsent(v: Dev, v': Dev, p: nat)
    requires |v.disk| == 512 * Total(v) && p < |v.disk|
    requires v'.disk == v.disk && v'.present == v.present && v'.sharedBase == v.sharedBase && v'.writes == v.writes
    ensures UnderWrite(v', p) == UnderWrite(v, p)
    ensures v'.cur == v.cur ==> Unsent(v', p) == Unsent(v, p)
  {}

  /** The bulk cursor passes over bytes that are read now or, with a shared base, not allocated. */
  lemma BulkPasses(v: Dev, p: nat)
    requires ValidDev(v) && p < |v.disk| && BulkStart(v) < Total(v) && Unsent(v, p)
    ensures
      var sector := BulkStart(v) / 2048 * 2048;
      p < 512 * sector + 512 * ChunkSectors(Total(v), sector) ==> ChunkOf(p) == sector / 2048
  {}

  lemma BulkPassesAll(v: Dev, p: nat)
    requires ValidDev(v) && p < |v.disk| && BulkStart(v) == Total(v)
    ensures !Unsent(v, p)
  {}

  lemma BulkDeviceSettles(st: State, d0: nat, x: Byte, d: nat, p: nat)
    requires Valid(st) && d0 < |st.devs| && st.devs[d0].cur <= Total(st.devs[d0])
    requires d < |st.devs| && ValidDev(st.devs[d]) && p < |st.devs[d].disk| && Settled(st, x, d, p)
    ensures
      var st' := BulkDevice(st, d0);
      d < |st'.devs| && |st'.devs[d].disk| == 512 * Total(st'.devs[d]) && p < |st'.devs[d].disk| && Settled(st', x, d, p)
  {
    hide Valid, Newest, NewRead, ReadCovers, ChunkOf, UnderWrite, BulkStart;
    var st' := BulkDevice(st, d0);
    var v := st.devs[d0];
    var start, total := BulkStart(v), Total(v);
    if start == total {
      NewestSame(st, st', x, d, p);
      if d == d0 {
        BulkPassesAll(v, p);
        SameUnsent(v, st'.devs[d], p);
      }
    } else {
      DevOf(st, d0);
      var sector := start / 2048 * 2048;
      var r := NewRead(d0, total, sector);
      assert r.dev == d0 by { DevOfNew(d0, total, sector); }
      NewestAfterSubmit(st, st', x, d, p, r);
      if d == d0 {
        FreshReadUnread(d, total, sector, p);
        ReadCoversChunk(d, total, sector, p);
        SameUnsent(v, st'.devs[d], p);
        if Unsent(v, p) {
          BulkPasses(v, p);
        }
      } else {
        NotCovered(r, d, p);
      }
    }
  }

  lemma ReportSettles(st: State, percent: nat, x: Byte, d: nat, p: nat)
    requires d < |st.devs| && |st.devs[d].disk| == 512 * Total(st.devs[d]) && p < |st.devs[d].disk|
    ensures Settled(Report(st, percent), x, d, p) == Settled(st, x, d, p)
  {
    hide Newest, DevSettled;
    NewestAfterMark(st, Progress(percent), x, d, p);
    NewestSame(st.(out := st.out + [Progress(percent)]), st.(prevProgress := percent, out := st.out + [Progress(percent)]), x, d, p);
  }

  lemma BulkSettles(st: State, x: Byte, d: nat, p: nat)
    requires Valid(st) && forall k :: 0 <= k < |st.devs| ==> st.devs[k].cur <= Total(st.devs[k])
    requires d < |st.devs| && ValidDev(st.devs[d]) && p < |st.devs[d].disk| && Settled(st, x, d, p)
    ensures
      var st' := Bulk(st);
      d < |st'.devs| && |st'.devs[d].disk| == 512 * Total(st'.devs[d]) && p < |st'.devs[d].disk| && Settled(st', x, d, p)
  {
    hide Valid, ValidDev, Newest, DevSettled, BulkDevice, Percent;
    var d0 := FirstUnfinished(st.devs, 0);
    assert |st.devs[d].disk| == 512 * Total(st.devs[d]) by { DiskSize(st.devs[d]); }
    if d0 == |st.devs| {
      var percent := Percent(st.devs, d0);
      ReportSettles(st, percent, x, d, p);
      NewestSame(Report(st, percent), Bulk(st), x, d, p);
    } else {
      BulkDeviceSettles(st, d0, x, d, p);
      SameCount(st, d0);
      ReportSettles(BulkDevice(st, d0), Percent(BulkDevice(st, d0).devs, d0 + 1), x, d, p);
    }
  }

  lemma DiskSize(v: Dev)
    requires ValidDev(v)
    ensures |v.disk| == 512 * Total(v)
  {}

  lemma FlushSettles(st: State, x: Byte, d: nat, p: nat)
    requires st.queue != []
    requires d < |st.devs| && |st.devs[d].disk| == 512 * Total(st.devs[d]) && p < |st.devs[d].disk| && Settled(st, x, d, p)
    ensures Settled(FlushOne(st), x, d, p)
  {
    hide Newest, DevSettled;
    NewestAfterFlush(st, x, d, p);
  }

  // ----- the whole state

  /** The destination has a disk of the same size for each device. */
  predicate SameSizes(devs: seq<Dev>, dst: seq<seq<Byte>>) {
    |dst| == |devs| && forall d :: 0 <= d < |devs| ==> |dst[d]| == |devs[d].disk|
  }

  ghost predicate AllSettled(st: State, dst: seq<seq<Byte>>)
    requires Valid(st) && SameSizes(st.devs, dst)
  {
    forall d: nat, p: nat :: d < |st.devs| && p < |st.devs[d].disk| ==> Settled(st, dst[d][p], d, p)
  }

  /** A failed read stays at the head of the queue, or behind it. */
  predicate Failed(queue: seq<Block>) {
    exists i :: 0 <= i < |queue| && !queue[i].ok
  }

  ghost predicate Inv(st: State, dst: seq<seq<Byte>>) {
    Valid(st) && SameSizes(st.devs, dst) && (Failed(st.queue) || AllSettled(st, dst))
  }

  /** Reads of one chunk finish in the order they were submitted. */
  predicate Orderly(st: State, ev: Event) {
    ev.ReadDone? && Enabled(st, ev) ==> InOrder(st.pending, ev.i)
  }

  lemma FailedStays(st: State, ev: Event)
    requires Failed(st.queue)
    ensures Failed(Step(st, ev).queue)
  {
    hide Bulk, BulkDevice, Finished, BeginWrite, WriteByte, EndWrite, WriteNow;
    var i :| 0 <= i < |st.queue| && !st.queue[i].ok;
    var st' := Step(st, ev);
    if Enabled(st, ev) {
      if ev.BulkStep? {
        BulkKeepsQueue(st);
      } else if ev.FlushStep? && st.queue[0].ok {
        assert !st'.queue[i - 1].ok;
      } else {
        assert !st'.queue[i].ok;
      }
    }
  }

  lemma BulkKeepsQueue(st: State)
    requires forall d :: 0 <= d < |st.devs| ==> st.devs[d].cur <= Total(st.devs[d])
    ensures Bulk(st).queue == st.queue
  {
    hide NewRead, Percent;
  }

  lemma StepSettles(st: State, ev: Event, x: Byte, d: nat, p: nat)
    requires Valid(st) && Orderly(st, ev) && !Failed(Step(st, ev).queue)
    requires d < |st.devs| && ValidDev(st.devs[d]) && p < |st.devs[d].disk| && Settled(st, x, d, p)
    ensures
      var st' := Step(st, ev);
      d < |st'.devs| && |st'.devs[d].disk| == 512 * Total(st'.devs[d]) && p < |st'.devs[d].disk| && Settled(st', x, d, p)
  {
    hide Valid, ValidDev, Settled, CompleteRead, Bulk, SubmitDirty, FlushOne, BeginWrite, WriteByte, EndWrite, WriteNow;
    DiskSize(st.devs[d]);
    if Enabled(st, ev) {
      match ev
      case ReadByte(i, k) => SampleSettles(st, i, k, x, d, p);
      case ReadDone(i, mem, ok) =>
        CompletedOk(st, i, mem, ok);
        DoneSettles(st, i, mem, x, d, p);
        DiskSize(Step(st, ev).devs[d]);
      case BulkStep => BulkSettles(st, x, d, p);
      case DirtyStep(d0, c) =>
        DirtySettles(st, d0, c, x, d, p);
        DiskSize(Step(st, ev).devs[d]);
      case FlushStep =>
        FlushSettles(st, x, d, p);
        assert FlushOne(st).devs == st.devs by { FlushKeepsDevs(st); }
      case EndSection => MarkSettles(st, x, d, p);
      case _ =>
        GuestSettles(st, ev, x, d, p);
        DiskSize(Step(st, ev).devs[d]);
    }
  }

  lemma FlushKeepsDevs(st: State)
    requires st.queue != []
    ensures FlushOne(st).devs == st.devs
  {}

  lemma MarkSettles(st: State, x: Byte, d: nat, p: nat)
    requires d < |st.devs| && |st.devs[d].disk| == 512 * Total(st.devs[d]) && p < |st.devs[d].disk| && Settled(st, x, d, p)
    ensures Settled(st.(out := st.out + [Eos]), x, d, p)
  {
    hide Newest, DevSettled;
    NewestAfterMark(st, Eos, x, d, p);
  }

  lemma CompletedOk(st: State, i: nat, mem: seq<Byte>, ok: bool)
    requires Enabled(st, ReadDone(i, mem, ok)) && !Failed(CompleteRead(st, i, mem, ok).queue)
    ensures ok
  {
    var q := CompleteRead(st, i, mem, ok).queue;
    assert q[|q| - 1].ok == ok;
  }
}
