/** The dirty bitmap of a block device: one bit per chunk of 2048 sectors, packed into words,
    with a running count of set bits. */
module DirtyBitmap {
  import opened Bits
  import opened Bitmap

  /** C division of int64_t values, which truncates toward zero. */
  function TruncDiv(a: int, b: int): int
    requires b > 0
  {
    if a >= 0 then a / b else -(-a / b)
  }

  function FirstChunk(sector: nat): nat {
    sector / 2048
  }

  function LastChunk(sector: nat, count: nat): int {
    TruncDiv(sector + count - 1, 2048)
  }

  /** The chunks the loop of set_dirty_bitmap visits. */
  predicate Visits(sector: nat, count: nat, c: nat) {
    FirstChunk(sector) <= c <= LastChunk(sector, count)
  }

  /** For a nonempty range these are exactly the chunks of its sectors. */
  lemma VisitsIsTouches(sector: nat, count: nat, c: nat)
    requires count > 0
    ensures Visits(sector, count, c) <==> exists s: nat :: sector <= s < sector + count && FirstChunk(s) == c
  {
    if Visits(sector, count, c) {
      var s := if sector >= 2048 * c then sector else 2048 * c;
      assert FirstChunk(s) == c;
    }
  }

  /** An empty range visits one chunk, unless it starts on a chunk boundary past the first. */
  lemma VisitsOfEmpty(sector: nat, c: nat)
    ensures Visits(sector, 0, c) <==> c == FirstChunk(sector) && (sector == 0 || sector % 2048 != 0)
  {}

  function Visited(sector: nat, count: nat): nat {
    var n := LastChunk(sector, count) + 1 - FirstChunk(sector);
    if n > 0 then n else 0
  }

  // ----- counting set bits

  /** Set bits among the first n. */
  function CountUpTo(bm: seq<bv32>, n: nat): nat
    requires n <= 32 * |bm|
    decreases n
  {
    if n == 0 then 0 else CountUpTo(bm, n - 1) + (if BitAt(bm, n - 1) then 1 else 0)
  }

  function Count(bm: seq<bv32>): nat {
    CountUpTo(bm, 32 * |bm|)
  }

  lemma {:induction false} CountChanges(a: seq<bv32>, b: seq<bv32>, v: bool, c: nat, d: nat, n: nat)
    requires n <= 32 * |a| && c < 32 * |a| && d == c + 1 && IsFilled(a, b, v, c, d) && BitAt(a, c) != v
    ensures CountUpTo(b, n) == CountUpTo(a, n) + (if c < n then (if v then 1 else -1) else 0)
    decreases n
  {
    hide BitAt;
    if n > 0 {
      var m: nat := n - 1;
      CountChanges(a, b, v, c, d, m);
      assert BitAt(b, m) == if c <= m < d then v else BitAt(a, m);
    }
  }

  lemma {:induction false} CountZero(bm: seq<bv32>, n: nat)
    requires n <= 32 * |bm|
    ensures CountUpTo(bm, n) == 0 <==> forall i: nat :: i < n ==> !BitAt(bm, i)
    decreases n
  {
    hide BitAt;
    if n > 0 {
      var m: nat := n - 1;
      CountZero(bm, m);
    }
  }

  /** What the word operations on one bit do to the map. */
  lemma SingleBit(bm: seq<bv32>, c: nat, d: nat, idx: nat, bit: nat, v: bool)
    requires c < 32 * |bm| && d == c + 1 && idx == c / 32 && bit == c % 32
    ensures And(bm[idx], One(bit)) != 0 <==> BitAt(bm, c)
    ensures BitAt(bm, c) == v ==> IsFilled(bm, bm, v, c, d)
    ensures IsFilled(bm, bm[idx := if v then Or(bm[idx], One(bit)) else And(bm[idx], Not(One(bit)))], v, c, d)
  {
    hide Bit, And, Or, Not, One;
    TestBit(bm[idx], bit);
    forall k: nat | k < 32 ensures Bit(One(bit), k) <==> c <= 32 * idx + k < d {
      OneBit(bit, k);
    }
    FillWord(bm, idx, c, d, One(bit), v);
  }

  lemma ClearIsClear(bm: seq<bv32>)
    requires forall j :: 0 <= j < |bm| ==> bm[j] == 0
    ensures forall c: nat :: c < 32 * |bm| ==> !BitAt(bm, c)
    ensures Count(bm) == 0
  {
    hide Bit;
    forall c: nat | c < 32 * |bm| ensures !BitAt(bm, c) {
      ZeroBit(c % 32);
    }
    CountZero(bm, 32 * |bm|);
  }

  // ----- the device

  /** What was done to the bitmap since tracking was enabled. */
  datatype Op = Wrote(sector: nat, count: nat) | Reset(sector: nat, count: nat)

  /** Chunk c was last visited by a write. */
  predicate LastWrote(ops: seq<Op>, c: nat) {
    if ops == [] then false
    else
      var op := ops[|ops| - 1];
      if Visits(op.sector, op.count, c) then op.Wrote? else LastWrote(ops[..|ops| - 1], c)
  }

  lemma LastWroteAppend(ops: seq<Op>, op: Op, c: nat)
    ensures LastWrote(ops + [op], c) == if Visits(op.sector, op.count, c) then op.Wrote? else LastWrote(ops, c)
  {
    hide Visits;
    assert (ops + [op])[..|ops|] == ops;
  }

  /** Some sector of the range lies in chunk c. */
  ghost predicate Touches(op: Op, c: nat) {
    exists s: nat :: op.sector <= s < op.sector + op.count && FirstChunk(s) == c
  }

  /** The i-th operation is a write of chunk c and nothing touched the chunk after it. */
  ghost predicate WroteLast(ops: seq<Op>, c: nat, i: nat) {
    i < |ops| && ops[i].Wrote? && Touches(ops[i], c) && forall j :: i < j < |ops| ==> !Touches(ops[j], c)
  }

  /** With no empty ranges, a chunk is dirty exactly when a write touched it and nothing has since. */
  lemma {:induction false} LastWroteMeans(ops: seq<Op>, c: nat)
    requires forall i :: 0 <= i < |ops| ==> ops[i].count > 0
    ensures LastWrote(ops, c) <==> exists i: nat :: WroteLast(ops, c, i)
  {
    hide FirstChunk, LastChunk;
    if ops != [] {
      var n := |ops| - 1;
      var op, rest := ops[n], ops[..n];
      VisitsIsTouches(op.sector, op.count, c);
      if Touches(op, c) {
        assert WroteLast(ops, c, n) <==> op.Wrote?;
      } else {
        LastWroteMeans(rest, c);
        forall i: nat ensures WroteLast(ops, c, i) <==> WroteLast(rest, c, i) {
          assert i < n ==> ops[i] == rest[i];
        }
      }
    }
  }

  /** A bit is set exactly for the chunks last visited by a write. */
  ghost predicate Agrees(bm: seq<bv32>, ops: seq<Op>) {
    forall c: nat :: c < 32 * |bm| ==> (BitAt(bm, c) <==> LastWrote(ops, c))
  }

  /** No chunk was last visited by a write. */
  ghost predicate AllClean(ops: seq<Op>, chunks: nat) {
    forall c: nat :: c < chunks ==> !LastWrote(ops, c)
  }

  lemma FillAgrees(a: seq<bv32>, b: seq<bv32>, ops: seq<Op>, op: Op, first: nat, last: nat)
    requires Agrees(a, ops) && IsFilled(a, b, op.Wrote?, first, last)
    requires first == FirstChunk(op.sector) && last == first + Visited(op.sector, op.count)
    ensures Agrees(b, ops + [op])
  {
    hide BitAt, LastWrote, FirstChunk, LastChunk;
    forall c: nat | c < 32 * |b| ensures BitAt(b, c) <==> LastWrote(ops + [op], c) {
      LastWroteAppend(ops, op, c);
    }
  }

  lemma CountAgrees(bm: seq<bv32>, ops: seq<Op>, chunks: nat)
    requires Agrees(bm, ops) && chunks == 32 * |bm|
    ensures Count(bm) == 0 <==> AllClean(ops, chunks)
  {
    hide BitAt, LastWrote, CountUpTo;
    CountZero(bm, chunks);
  }

  class Device {
    const sectors: nat
    var bitmap: array?<bv32>
    var dirtyCount: int
    ghost var ops: seq<Op>

    constructor (sectors: nat)
      ensures this.sectors == sectors && bitmap == null && dirtyCount == 0 && ops == [] && Valid()
    {
      this.sectors := sectors;
      bitmap, dirtyCount, ops := null, 0, [];
    }

    function Chunks(): nat {
      (sectors + 2047) / 2048
    }

    /** The words needed for one bit per chunk. */
    function Words(): nat {
      (Chunks() + 31) / 32
    }

    /** One bit per chunk, in agreement with what was done. */
    ghost predicate Tracks()
      reads this, bitmap
    {
      bitmap != null ==>
        && bitmap.Length == Words()
        && Agrees(bitmap[..], ops)
    }

    /** The count agrees with the bits. */
    ghost predicate Counts()
      reads this, bitmap
    {
      dirtyCount == if bitmap == null then 0 else Count(bitmap[..])
    }

    ghost predicate Valid()
      reads this, bitmap
    {
      Tracks() && Counts()
    }

    /** Sets or clears bit c, counting only real changes. */
    method Flip(c: nat, dirty: bool)
      requires bitmap != null && c < 32 * bitmap.Length && Counts()
      modifies this`dirtyCount, bitmap
      ensures Counts() && IsFilled(old(bitmap[..]), bitmap[..], dirty, c, c + 1)
    {
      hide Bit, And, Or, Not, One, CountUpTo;
      var idx, bit := c / 32, c % 32;
      var val := bitmap[idx];
      ghost var before, d := bitmap[..], c + 1;
      SingleBit(before, c, d, idx, bit, dirty);
      if dirty {
        if And(val, One(bit)) == 0 {
          dirtyCount := dirtyCount + 1;
          val := Or(val, One(bit));
        }
      } else {
        if And(val, One(bit)) != 0 {
          dirtyCount := dirtyCount - 1;
          val := And(val, Not(One(bit)));
        }
      }
      bitmap[idx] := val;
      assert bitmap[..] == before[idx := val];
      if BitAt(before, c) != dirty {
        CountChanges(before, bitmap[..], dirty, c, d, 32 * |before|);
      } else {
        assert bitmap[..] == before;
      }
    }

    /** set_dirty_bitmap: the chunks of the range are set or cleared, and no others. */
    method SetDirtyBitmap(sector: nat, count: nat, dirty: bool)
      requires bitmap != null && 0 < sectors && sector + count <= sectors && Valid()
      modifies this`dirtyCount, this`ops, bitmap
      ensures Valid() && ops == old(ops) + [if dirty then Wrote(sector, count) else Reset(sector, count)]
      ensures IsFilled(old(bitmap[..]), bitmap[..], dirty, FirstChunk(sector), FirstChunk(sector) + Visited(sector, count))
    {
      hide Agrees, CountUpTo, IsFilled;
      var start, end := FirstChunk(sector), LastChunk(sector, count);
      ghost var original, last := bitmap[..], start + Visited(sector, count);
      FilledNone(original, dirty, start);
      while start <= end
        invariant FirstChunk(sector) <= start <= last && ops == old(ops) && Counts() && IsFilled(original, bitmap[..], dirty, FirstChunk(sector), start)
      {
        ghost var before := bitmap[..];
        Flip(start, dirty);
        FilledJoins(original, before, bitmap[..], dirty, FirstChunk(sector), start, start + 1);
        start := start + 1;
      }
      ghost var op := if dirty then Wrote(sector, count) else Reset(sector, count);
      FillAgrees(original, bitmap[..], ops, op, FirstChunk(sector), last);
      ops := ops + [op];
    }

    /** bdrv_set_dirty_tracking.  Enabling again what was enabled zeroes the count and keeps the
        bits, so the two agree afterwards exactly when no bit was set. */
    method SetDirtyTracking(enable: bool)
      requires Valid()
      modifies this
      ensures Tracks() && (bitmap != null <==> enable) && dirtyCount == 0
      ensures enable && old(bitmap) != null ==> bitmap == old(bitmap) && ops == old(ops)
      ensures !(enable && old(bitmap) != null) ==> ops == []
      ensures enable && old(bitmap) == null ==> fresh(bitmap)
      ensures Valid() <==> !(enable && old(bitmap) != null && old(dirtyCount) > 0)
    {
      hide BitAt, CountUpTo;
      dirtyCount := 0;
      if enable {
        if bitmap == null {
          bitmap, ops := new bv32[Words()](_ => 0), [];
          ClearIsClear(bitmap[..]);
        }
      } else {
        bitmap, ops := null, [];
      }
    }

    /** bdrv_get_dirty */
    method GetDirty(sector: nat) returns (r: bool)
      requires Valid()
      ensures r <==> bitmap != null && sector < sectors && LastWrote(ops, FirstChunk(sector))
    {
      hide Bit, And, One, LastWrote;
      var chunk := FirstChunk(sector);
      if bitmap != null && sector < sectors {
        TestBit(bitmap[chunk / 32], chunk % 32);
        r := And(bitmap[chunk / 32], One(chunk % 32)) != 0;
        assert BitAt(bitmap[..], chunk) <==> LastWrote(ops, chunk);
      } else {
        r := false;
      }
    }

    /** bdrv_get_dirty_count */
    method GetDirtyCount() returns (n: int)
      requires Valid()
      ensures n == dirtyCount >= 0
      ensures n == 0 <==> bitmap == null || AllClean(ops, 32 * bitmap.Length)
    {
      hide Agrees, AllClean, CountUpTo;
      n := dirtyCount;
      if bitmap != null {
        CountAgrees(bitmap[..], ops, 32 * bitmap.Length);
      }
    }
  }

  /** No chunk of the device is dirty. */
  ghost predicate Clean(d: Device)
    reads d, d.bitmap
  {
    d.bitmap == null || AllClean(d.ops, 32 * d.bitmap.Length)
  }

  /** get_remaining_dirty, in bytes of 1 MiB chunks: 0 exactly when no device has a dirty chunk. */
  method RemainingDirty(devices: seq<Device>) returns (r: int)
    requires forall d :: d in devices ==> d.Valid()
    ensures r >= 0 && (r == 0 <==> forall d :: d in devices ==> Clean(d))
  {
    hide Agrees, AllClean, CountUpTo;
    var dirty := 0;
    for i := 0 to |devices|
      invariant dirty >= 0 && (dirty == 0 <==> forall k :: 0 <= k < i ==> Clean(devices[k]))
    {
      var n := devices[i].GetDirtyCount();
      assert n == 0 <==> Clean(devices[i]);
      dirty := dirty + n;
    }
    r := dirty * 1048576;
  }

  /** Enabling tracking twice, with a write in between, leaves the count behind the bits. */
  method EnableTwice() returns (d: Device)
    ensures fresh(d) && d.bitmap != null && d.dirtyCount == 0 && LastWrote(d.ops, 0) && !d.Counts()
  {
    hide Agrees, IsFilled, CountUpTo;
    d := new Device(1);
    d.SetDirtyTracking(true);
    d.SetDirtyBitmap(0, 1, true);
    var n := d.GetDirtyCount();
    assert LastWrote(d.ops, 0) && d.bitmap.Length == 1;
    assert n > 0;
    d.SetDirtyTracking(true);
  }
}
