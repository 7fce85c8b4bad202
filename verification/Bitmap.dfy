/** Bitmaps packed into 32-bit words: searches and range updates that work a word at a time,
    proved against the map seen as a plain sequence of bits. */
module Bitmap {
  import opened Bits
  import opened Words

  /** Bit i of the map. */
  predicate BitAt(bm: seq<bv32>, i: nat)
    requires i < 32 * |bm|
  {
    Bit(bm[i / 32], i % 32)
  }

  /** No bit from lo up to hi has the value sought. */
  ghost predicate NoneIn(bm: seq<bv32>, want: bool, lo: nat, hi: nat)
    requires hi <= 32 * |bm|
  {
    forall i: nat :: lo <= i < hi ==> BitAt(bm, i) != want
  }

  /** r is the first bit from lo on with the value sought, or hi. */
  ghost predicate IsNext(bm: seq<bv32>, want: bool, lo: nat, hi: nat, r: nat)
    requires hi <= 32 * |bm|
  {
    lo <= r <= hi && NoneIn(bm, want, lo, r) && (r < hi ==> BitAt(bm, r) == want)
  }

  lemma BitOfWord(bm: seq<bv32>, j: nat, k: nat)
    requires j < |bm| && k < 32
    ensures BitAt(bm, 32 * j + k) <==> Bit(bm[j], k)
  {
    assert (32 * j + k) / 32 == j && (32 * j + k) % 32 == k;
  }

  /** The bits of w mark where, in word j and between lo and hi, the value sought occurs. */
  ghost predicate Marks(bm: seq<bv32>, want: bool, j: nat, lo: nat, hi: nat, w: bv32)
    requires j < |bm|
  {
    forall k: nat :: k < 32 ==> (Bit(w, k) <==> lo <= 32 * j + k < hi && Bit(bm[j], k) == want)
  }

  lemma MarksNone(bm: seq<bv32>, want: bool, j: nat, lo: nat, hi: nat, w: bv32)
    requires j < |bm| && Marks(bm, want, j, lo, hi, w) && w == 0 && 32 * j <= lo <= hi <= 32 * j + 32
    ensures NoneIn(bm, want, lo, hi)
  {
    hide Bit;
    forall i: nat | lo <= i < hi ensures BitAt(bm, i) != want {
      var k: nat := i - 32 * j;
      ZeroBit(k);
      BitOfWord(bm, j, k);
    }
  }

  /** The position of the first mark is the next bit sought. */
  method FirstMark(bm: seq<bv32>, ghost want: bool, j: nat, ghost lo: nat, ghost hi: nat, w: bv32) returns (r: nat)
    requires j < |bm| && Marks(bm, want, j, lo, hi, w) && w != 0 && 32 * j <= lo <= hi <= 32 * j + 32
    ensures lo <= r < hi && IsNext(bm, want, lo, hi, r)
  {
    hide Bit;
    var n := FirstBit(w);
    r := 32 * j + n;
    BitOfWord(bm, j, n);
    forall i: nat | lo <= i < r ensures BitAt(bm, i) != want {
      var k: nat := i - 32 * j;
      BitOfWord(bm, j, k);
    }
  }

  lemma NoneInJoins(bm: seq<bv32>, want: bool, lo: nat, mid: nat, hi: nat)
    requires hi <= 32 * |bm| && lo <= mid <= hi && NoneIn(bm, want, lo, mid)
    ensures NoneIn(bm, want, mid, hi) ==> NoneIn(bm, want, lo, hi)
    ensures forall r: nat :: IsNext(bm, want, mid, hi, r) ==> IsNext(bm, want, lo, hi, r)
  {}

  // ----- find_next_bit

  lemma MarksFrom(bm: seq<bv32>, j: nat, n: nat, lo: nat, hi: nat)
    requires j < |bm| && n < 32 && lo == 32 * j + n && hi == 32 * j + 32
    ensures Marks(bm, true, j, lo, hi, And(bm[j], From(n)))
  {
    hide Bit, From, And;
    forall k: nat | k < 32 ensures Bit(And(bm[j], From(n)), k) <==> lo <= 32 * j + k < hi && Bit(bm[j], k) {
      AndBit(bm[j], From(n), k);
      FromBit(n, k);
    }
  }

  lemma MarksBelow(bm: seq<bv32>, want: bool, j: nat, w: bv32, n: nat, lo: nat, hi: nat, end: nat)
    requires j < |bm| && 0 < n <= 32 && end == 32 * j + n && hi == 32 * j + 32 && Marks(bm, want, j, lo, hi, w)
    ensures Marks(bm, want, j, lo, end, And(w, Below(n)))
  {
    hide Bit, Below, And;
    forall k: nat | k < 32 ensures Bit(And(w, Below(n)), k) <==> lo <= 32 * j + k < end && Bit(bm[j], k) == want {
      AndBit(w, Below(n), k);
      BelowBit(n, k);
    }
  }

  lemma MarksWord(bm: seq<bv32>, j: nat)
    requires j < |bm|
    ensures Marks(bm, true, j, 32 * j, 32 * j + 32, bm[j])
  {
    hide Bit;
  }

  /** The part of find_next_bit from its word loop on: whole words, then a partial last word. */
  method NextBitFromWord(bm: seq<bv32>, j: nat, size: nat) returns (r: nat)
    requires 32 * j <= size <= 32 * |bm|
    ensures IsNext(bm, true, 32 * j, size, r)
  {
    hide Bit, Below, And;
    var p, left := j, size - 32 * j;
    while left >= 32
      invariant 0 <= left && 32 * p + left == size && j <= p
      invariant NoneIn(bm, true, 32 * j, 32 * p)
      decreases left
    {
      var lo, hi := 32 * p, 32 * p + 32;
      MarksWord(bm, p);
      if bm[p] != 0 {
        r := FirstMark(bm, true, p, lo, hi, bm[p]);
        return;
      }
      MarksNone(bm, true, p, lo, hi, bm[p]);
      p, left := p + 1, left - 32;
    }
    if left == 0 {
      return 32 * p;
    }
    var lo, hi := 32 * p, 32 * p + 32;
    MarksWord(bm, p);
    MarksBelow(bm, true, p, bm[p], left, lo, hi, size);
    var tmp := And(bm[p], Below(left));
    if tmp == 0 {
      MarksNone(bm, true, p, lo, size, tmp);
      return 32 * p + left;
    }
    r := FirstMark(bm, true, p, lo, size, tmp);
  }

  /** find_next_bit */
  method FindNextBit(bm: seq<bv32>, size: nat, offset: nat) returns (r: nat)
    requires size <= 32 * |bm|
    ensures offset >= size ==> r == size
    ensures offset < size ==> IsNext(bm, true, offset, size, r)
  {
    hide Bit, From, Below, And;
    if offset >= size {
      return size;
    }
    var p, n := offset / 32, offset % 32;
    var result := 32 * p;
    var left := size - result;
    if n != 0 {
      var hi := result + 32;
      var tmp := And(bm[p], From(n));
      MarksFrom(bm, p, n, offset, hi);
      if left < 32 {
        MarksBelow(bm, true, p, tmp, left, offset, hi, size);
        tmp := And(tmp, Below(left));
        if tmp == 0 {
          MarksNone(bm, true, p, offset, size, tmp);
          return result + left;
        }
        r := FirstMark(bm, true, p, offset, size, tmp);
        return;
      }
      if tmp != 0 {
        r := FirstMark(bm, true, p, offset, hi, tmp);
        return;
      }
      MarksNone(bm, true, p, offset, hi, tmp);
      r := NextBitFromWord(bm, p + 1, size);
      NoneInJoins(bm, true, offset, hi, size);
    } else {
      r := NextBitFromWord(bm, p, size);
    }
  }

  // ----- find_next_zero_bit

  lemma NotIsZero(w: bv32)
    ensures Not(w) == 0 <==> w == 0xffffffff
  {}

  lemma ZeroMarksFrom(bm: seq<bv32>, j: nat, n: nat, lo: nat, hi: nat)
    requires j < |bm| && 0 < n < 32 && lo == 32 * j + n && hi == 32 * j + 32
    ensures Marks(bm, false, j, lo, hi, Not(Or(bm[j], Below(n))))
  {
    hide Bit, Below, Or, Not;
    forall k: nat | k < 32 ensures Bit(Not(Or(bm[j], Below(n))), k) <==> lo <= 32 * j + k < hi && Bit(bm[j], k) == false {
      NotBit(Or(bm[j], Below(n)), k);
      OrBit(bm[j], Below(n), k);
      BelowBit(n, k);
    }
  }

  lemma ZeroMarksBelow(bm: seq<bv32>, j: nat, w: bv32, n: nat, lo: nat, hi: nat, end: nat)
    requires j < |bm| && 0 < n < 32 && end == 32 * j + n && hi == 32 * j + 32 && Marks(bm, false, j, lo, hi, Not(w))
    ensures Marks(bm, false, j, lo, end, Not(Or(w, From(n))))
  {
    hide Bit, From, Or, Not;
    forall k: nat | k < 32 ensures Bit(Not(Or(w, From(n))), k) <==> lo <= 32 * j + k < end && Bit(bm[j], k) == false {
      NotBit(Or(w, From(n)), k);
      NotBit(w, k);
      OrBit(w, From(n), k);
      FromBit(n, k);
    }
  }

  lemma ZeroMarksWord(bm: seq<bv32>, j: nat)
    requires j < |bm|
    ensures Marks(bm, false, j, 32 * j, 32 * j + 32, Not(bm[j]))
  {
    hide Bit, Not;
    forall k: nat | k < 32 ensures Bit(Not(bm[j]), k) <==> Bit(bm[j], k) == false {
      NotBit(bm[j], k);
    }
  }

  /** The part of find_next_zero_bit from its word loop on. */
  method NextZeroFromWord(bm: seq<bv32>, j: nat, size: nat) returns (r: nat)
    requires 32 * j <= size <= 32 * |bm|
    ensures IsNext(bm, false, 32 * j, size, r)
  {
    hide Bit, From, Or, Not;
    var p, left := j, size - 32 * j;
    while left >= 32
      invariant 0 <= left && 32 * p + left == size && j <= p
      invariant NoneIn(bm, false, 32 * j, 32 * p)
      decreases left
    {
      var lo, hi := 32 * p, 32 * p + 32;
      ZeroMarksWord(bm, p);
      NotIsZero(bm[p]);
      if Not(bm[p]) != 0 {
        r := FirstMark(bm, false, p, lo, hi, Not(bm[p]));
        return;
      }
      MarksNone(bm, false, p, lo, hi, Not(bm[p]));
      p, left := p + 1, left - 32;
    }
    if left == 0 {
      return 32 * p;
    }
    var lo, hi := 32 * p, 32 * p + 32;
    ZeroMarksWord(bm, p);
    ZeroMarksBelow(bm, p, bm[p], left, lo, hi, size);
    var tmp := Or(bm[p], From(left));
    NotIsZero(tmp);
    if tmp == 0xffffffff {
      MarksNone(bm, false, p, lo, size, Not(tmp));
      return 32 * p + left;
    }
    r := FirstMark(bm, false, p, lo, size, Not(tmp));
  }

  /** find_next_zero_bit */
  method FindNextZeroBit(bm: seq<bv32>, size: nat, offset: nat) returns (r: nat)
    requires size <= 32 * |bm|
    ensures offset >= size ==> r == size
    ensures offset < size ==> IsNext(bm, false, offset, size, r)
  {
    hide Bit, From, Below, Or, Not;
    if offset >= size {
      return size;
    }
    var p, n := offset / 32, offset % 32;
    var result := 32 * p;
    var left := size - result;
    if n != 0 {
      var hi := result + 32;
      var tmp := Or(bm[p], Below(n));
      ZeroMarksFrom(bm, p, n, offset, hi);
      if left < 32 {
        ZeroMarksBelow(bm, p, tmp, left, offset, hi, size);
        tmp := Or(tmp, From(left));
        NotIsZero(tmp);
        if tmp == 0xffffffff {
          MarksNone(bm, false, p, offset, size, Not(tmp));
          return result + left;
        }
        r := FirstMark(bm, false, p, offset, size, Not(tmp));
        return;
      }
      if Not(tmp) != 0 {
        r := FirstMark(bm, false, p, offset, hi, Not(tmp));
        return;
      }
      MarksNone(bm, false, p, offset, hi, Not(tmp));
      r := NextZeroFromWord(bm, p + 1, size);
      NoneInJoins(bm, false, offset, hi, size);
    } else {
      r := NextZeroFromWord(bm, p, size);
    }
  }

  // ----- bitmap_set and bitmap_clear

  /** The bits of the mask are those of word p from lo up to hi. */
  ghost predicate Covers(p: nat, lo: nat, hi: nat, mask: bv32) {
    forall k: nat :: k < 32 ==> (Bit(mask, k) <==> lo <= 32 * p + k < hi)
  }

  lemma CoversFrom(p: nat, n: nat, lo: nat, hi: nat)
    requires n < 32 && lo == 32 * p + n && hi == 32 * p + 32
    ensures Covers(p, lo, hi, From(n))
  {
    hide Bit, From;
    forall k: nat | k < 32 ensures Bit(From(n), k) <==> lo <= 32 * p + k < hi {
      FromBit(n, k);
    }
  }

  /** BITMAP_LAST_WORD_MASK */
  function LastWordMask(n: nat): bv32 {
    if n % 32 != 0 then LowOnes(n % 32) else 0xffffffff
  }

  lemma CoversBelow(p: nat, lo: nat, hi: nat, end: nat, mask: bv32)
    requires 32 * p < end < hi == 32 * p + 32 && Covers(p, lo, hi, mask)
    ensures Covers(p, lo, end, And(mask, LastWordMask(end)))
  {
    hide Bit, LowOnes, And;
    var n := end % 32;
    forall k: nat | k < 32 ensures Bit(And(mask, LowOnes(n)), k) <==> lo <= 32 * p + k < end {
      AndBit(mask, LowOnes(n), k);
      LowOnesBit(n, k);
    }
  }

  /** The map with the bits from lo up to hi given the value v. */
  ghost predicate IsFilled(bm: seq<bv32>, bm': seq<bv32>, v: bool, lo: nat, hi: nat) {
    && |bm'| == |bm|
    && forall i: nat :: i < 32 * |bm| ==> BitAt(bm', i) == if lo <= i < hi then v else BitAt(bm, i)
  }

  lemma FillWord(bm: seq<bv32>, p: nat, lo: nat, hi: nat, mask: bv32, v: bool)
    requires p < |bm| && 32 * p <= lo <= hi <= 32 * p + 32 && Covers(p, lo, hi, mask)
    ensures IsFilled(bm, bm[p := if v then Or(bm[p], mask) else And(bm[p], Not(mask))], v, lo, hi)
  {
    hide Bit, Or, And, Not;
    var bm' := bm[p := if v then Or(bm[p], mask) else And(bm[p], Not(mask))];
    forall i: nat | i < 32 * |bm| ensures BitAt(bm', i) == if lo <= i < hi then v else BitAt(bm, i) {
      if i / 32 == p {
        var k := i % 32;
        OrBit(bm[p], mask, k);
        AndBit(bm[p], Not(mask), k);
        NotBit(mask, k);
        assert 32 * p + k == i;
      }
    }
  }

  lemma FilledJoins(a: seq<bv32>, b: seq<bv32>, c: seq<bv32>, v: bool, lo: nat, mid: nat, hi: nat)
    requires IsFilled(a, b, v, lo, mid) && IsFilled(b, c, v, mid, hi) && lo <= mid <= hi
    ensures IsFilled(a, c, v, lo, hi)
  {
    hide BitAt;
  }

  lemma FilledNone(a: seq<bv32>, v: bool, lo: nat)
    ensures IsFilled(a, a, v, lo, lo)
  {
    hide BitAt;
  }

  /** bitmap_set and bitmap_clear: whole words at a time, with masks at both ends. */
  method Fill(bm: array<bv32>, start: nat, nr: nat, v: bool)
    requires start + nr <= 32 * bm.Length
    modifies bm
    ensures IsFilled(old(bm[..]), bm[..], v, start, start + nr)
  {
    hide Bit, BitAt, From, LastWordMask, And, Or, Not, IsFilled, Covers;
    var size := start + nr;
    var p, left, q := start / 32, nr, start % 32;
    var mask := From(q);
    ghost var pos, original := start, bm[..];
    FilledNone(original, v, start);
    while left >= 32 - q
      invariant 0 <= left && 0 <= q < 32 && pos + left == size && pos == 32 * p + q && pos >= start && mask == From(q)
      invariant IsFilled(original, bm[..], v, start, pos)
      decreases left
    {
      ghost var before, end := bm[..], 32 * p + 32;
      CoversFrom(p, q, pos, end);
      FillWord(before, p, pos, end, mask, v);
      bm[p] := if v then Or(bm[p], mask) else And(bm[p], Not(mask));
      FilledJoins(original, before, bm[..], v, start, pos, end);
      left, pos := left - (32 - q), end;
      q, mask, p := 0, From(0), p + 1;
    }
    if left != 0 {
      ghost var before, end := bm[..], 32 * p + 32;
      CoversFrom(p, q, pos, end);
      CoversBelow(p, pos, end, size, mask);
      mask := And(mask, LastWordMask(size));
      FillWord(before, p, pos, size, mask, v);
      bm[p] := if v then Or(bm[p], mask) else And(bm[p], Not(mask));
      FilledJoins(original, before, bm[..], v, start, pos, size);
    }
  }

  // ----- bitmap_find_next_zero_area

  /** An area of nr zero bits at i, aligned to 2^k and inside the map. */
  ghost predicate Free(bm: seq<bv32>, size: nat, nr: nat, k: nat, i: nat)
    requires size <= 32 * |bm|
  {
    IsAligned(i, k) && i + nr <= size && NoneIn(bm, true, i, i + nr)
  }

  ghost predicate NoneFree(bm: seq<bv32>, size: nat, nr: nat, k: nat, lo: nat, hi: nat)
    requires size <= 32 * |bm|
  {
    forall i: nat :: lo <= i < hi ==> !Free(bm, size, nr, k, i)
  }

  /** Nothing starts before the next zero bit, nor between it and its alignment. */
  lemma SkipToAligned(bm: seq<bv32>, size: nat, start: nat, zero: nat, nr: nat, k: nat, index: nat)
    requires size <= 32 * |bm| && nr > 0 && index == Align(zero, Pow2(k) - 1)
    requires if start < size then IsNext(bm, false, start, size, zero) else zero == size
    ensures NoneFree(bm, size, nr, k, start, index) && index >= zero
  {
    hide BitAt, Align, IsAligned;
    AlignIsLeast(zero, k);
    forall i: nat | start <= i < index ensures !Free(bm, size, nr, k, i) {
      if i < zero {
        assert i < size ==> BitAt(bm, i);
      }
    }
  }

  /** A set bit inside the area rules out every start up to that bit. */
  lemma SkipPastSet(bm: seq<bv32>, size: nat, nr: nat, k: nat, index: nat, i: nat)
    requires size <= 32 * |bm| && index + nr <= size && index <= i < index + nr && BitAt(bm, i)
    ensures NoneFree(bm, size, nr, k, index, i + 1)
  {
    hide BitAt;
  }

  /** The first bit of the value from `from` on, or size. */
  ghost function NextBit(bm: seq<bv32>, v: bool, size: nat, from: nat): (r: nat)
    requires size <= 32 * |bm|
    ensures if from >= size then r == size else IsNext(bm, v, from, size, r)
    decreases size - from
  {
    if from >= size then size
    else if BitAt(bm, from) == v then from
    else NextBit(bm, v, size, from + 1)
  }

  lemma {:induction false} NextIsUnique(bm: seq<bv32>, v: bool, size: nat, from: nat, r: nat)
    requires size <= 32 * |bm| && if from >= size then r == size else IsNext(bm, v, from, size, r)
    ensures r == NextBit(bm, v, size, from)
    decreases size - from
  {
    hide BitAt;
    if from < size && BitAt(bm, from) != v {
      NextIsUnique(bm, v, size, from + 1, r);
    }
  }

  /** Where the search stops: at a free area, or at the first aligned candidate that does not fit. */
  ghost function Stop(bm: seq<bv32>, size: nat, from: nat, nr: nat, k: nat): (t: nat)
    requires size <= 32 * |bm| && nr > 0
    decreases if from <= size then size - from + 1 else 0
  {
    var zero := NextBit(bm, false, size, from);
    var index := Align(zero, Pow2(k) - 1);
    AlignIsLeast(zero, k);
    if index + nr > size then index
    else
      var i := NextBit(bm, true, index + nr, index);
      if i >= index + nr then index else Stop(bm, size, i + 1, nr, k)
  }

  const LIMIT: nat := 0x1_0000_0000

  /** The least aligned start at or after `start` of nr zero bits, or a value above size exactly when there
      is none. */
  ghost predicate RightArea(bm: seq<bv32>, size: nat, start: nat, nr: nat, k: nat, r: nat)
    requires size <= 32 * |bm|
  {
    && (r <= size ==> r >= start && Free(bm, size, nr, k, r) && NoneFree(bm, size, nr, k, start, r))
    && (r > size ==> forall i: nat :: i >= start ==> !Free(bm, size, nr, k, i))
  }

  /** The search stops inside the map with an end that wraps round. */
  ghost predicate EndWraps(bm: seq<bv32>, size: nat, start: nat, nr: nat, k: nat)
    requires size <= 32 * |bm| && nr > 0
  {
    var t := Stop(bm, size, start, nr, k);
    t <= size && t + nr >= LIMIT
  }

  /** bitmap_find_next_zero_area on 32-bit words: the answer is right exactly when the end of the last
      candidate does not wrap round; if it does, a start is returned whose area leaves the map.  The align
      mask is 2^k - 1. */
  method FindNextZeroArea(bm: seq<bv32>, size: nat, start: nat, nr: nat, k: nat, alignMask: nat) returns (r: nat)
    requires size <= 32 * |bm| && 0 < nr < LIMIT && alignMask == Pow2(k) - 1 && size + alignMask < LIMIT
    ensures RightArea(bm, size, start, nr, k, r) <==> !EndWraps(bm, size, start, nr, k)
    ensures size + nr < LIMIT ==> RightArea(bm, size, start, nr, k, r)
    ensures EndWraps(bm, size, start, nr, k) ==> r == Stop(bm, size, start, nr, k) && r + nr > size
  {
    hide BitAt, Align, Pow2, IsAligned, NextBit, Stop, RightArea;
    var from := start;
    while true
      invariant from >= start && (start <= size ==> from <= size)
      invariant NoneFree(bm, size, nr, k, start, from)
      invariant Stop(bm, size, start, nr, k) == Stop(bm, size, from, nr, k)
      decreases if from <= size then size - from + 1 else 0
    {
      var index := FindNextZeroBit(bm, size, from);
      ghost var zero := index;
      NextIsUnique(bm, false, size, from, zero);
      StopUnfolds(bm, size, from, nr, k, zero);
      index := Align(index, alignMask);
      SkipToAligned(bm, size, from, zero, nr, k, index);
      var end := (index + nr) % LIMIT;
      if end > size {
        NothingFits(bm, size, start, from, nr, k, index, end);
        return end;
      }
      var i := FindNextBit(bm, end, index);
      if i >= end {
        if index + nr < LIMIT {
          NextIsUnique(bm, true, end, index, i);
          AlignIsLeast(zero, k);
          FoundFree(bm, size, start, from, nr, k, index);
        } else if index > size {
          NothingFits(bm, size, start, from, nr, k, index, index);
        } else {
          NotFree(bm, size, start, nr, k, index);
        }
        return index;
      }
      NextIsUnique(bm, true, end, index, i);
      SkipPastSet(bm, size, nr, k, index, i);
      from := i + 1;
    }
  }

  lemma StopUnfolds(bm: seq<bv32>, size: nat, from: nat, nr: nat, k: nat, zero: nat)
    requires size <= 32 * |bm| && nr > 0 && zero == NextBit(bm, false, size, from)
    ensures
      var index := Align(zero, Pow2(k) - 1);
      Stop(bm, size, from, nr, k) ==
      if index + nr > size then index
      else
        var i := NextBit(bm, true, index + nr, index);
        if i >= index + nr then index else Stop(bm, size, i + 1, nr, k)
  {
    hide BitAt, Align, Pow2, IsAligned;
  }

  /** A candidate that does not fit, and nothing before it. */
  lemma NothingFits(bm: seq<bv32>, size: nat, start: nat, from: nat, nr: nat, k: nat, index: nat, r: nat)
    requires size <= 32 * |bm| && nr > 0 && r > size && index + nr > size && start <= from
    requires NoneFree(bm, size, nr, k, start, from) && NoneFree(bm, size, nr, k, from, index)
    ensures RightArea(bm, size, start, nr, k, r)
  {
    hide BitAt, IsAligned;
    forall i: nat | i >= start ensures !Free(bm, size, nr, k, i) {}
  }

  lemma FoundFree(bm: seq<bv32>, size: nat, start: nat, from: nat, nr: nat, k: nat, index: nat)
    requires size <= 32 * |bm| && nr > 0 && index + nr <= size && start <= from <= index && IsAligned(index, k)
    requires NextBit(bm, true, index + nr, index) >= index + nr
    requires NoneFree(bm, size, nr, k, start, from) && NoneFree(bm, size, nr, k, from, index)
    ensures RightArea(bm, size, start, nr, k, index)
  {
    hide BitAt, IsAligned;
  }

  lemma NotFree(bm: seq<bv32>, size: nat, start: nat, nr: nat, k: nat, index: nat)
    requires size <= 32 * |bm| && index <= size < index + nr
    ensures !RightArea(bm, size, start, nr, k, index)
  {}

  /** For an area larger than the map the first candidate decides. */
  lemma FirstCandidate(bm: seq<bv32>, size: nat, start: nat, nr: nat, k: nat)
    requires size <= 32 * |bm| && nr > size
    ensures EndWraps(bm, size, start, nr, k) <==>
            var t := Align(NextBit(bm, false, size, start), Pow2(k) - 1); t <= size && t + nr >= LIMIT
  {
    hide BitAt, Align, Pow2, IsAligned, NextBit;
    StopUnfolds(bm, size, start, nr, k, NextBit(bm, false, size, start));
  }

  /** An empty map of 32 bits, searched from bit 16 for 2^32 - 16 zero bits: the end wraps to 0, and 16 is
      returned as if the area were free. */
  lemma WrappedEndIsWrong()
    ensures EndWraps([0], 32, 16, 0xffff_fff0, 0) && !Free([0], 32, 0xffff_fff0, 0, 16)
  {
    var bm: seq<bv32> := [0];
    assert !BitAt(bm, 16);
    AlignIsLeast(16, 0);
    FirstCandidate(bm, 32, 16, 0xffff_fff0, 0);
  }

  // ----- an alignment that wraps round

  /** ALIGN_MASK on 32-bit words. */
  function AlignWord(x: nat, mask: nat): nat {
    AndNot((x + mask) % LIMIT, mask)
  }

  lemma {:induction false} AndNotAtMost(a: nat, b: nat)
    ensures AndNot(a, b) <= a
    decreases a
  {
    if a > 0 {
      AndNotAtMost(a / 2, b / 2);
    }
  }

  /** It is the alignment exactly when the sum stays below 2^32. */
  lemma AlignWordExact(x: nat, k: nat)
    requires x < LIMIT && Pow2(k) <= LIMIT
    ensures AlignWord(x, Pow2(k) - 1) == Align(x, Pow2(k) - 1) <==> x + Pow2(k) - 1 < LIMIT
  {
    hide AndNot, Pow2, IsAligned;
    var mask := Pow2(k) - 1;
    AlignIsLeast(x, k);
    AndNotAtMost((x + mask) % LIMIT, mask);
  }

  /** One turn of the search on 32-bit words: it returns, or goes on from another bit. */
  datatype Turn = Return(r: nat) | Again(from: nat)

  ghost function TurnOf(bm: seq<bv32>, size: nat, from: nat, nr: nat, mask: nat): Turn
    requires size <= 32 * |bm|
  {
    var index := AlignWord(NextBit(bm, false, size, from), mask);
    var end := (index + nr) % LIMIT;
    if end > size then Return(end)
    else
      var i := NextBit(bm, true, end, index);
      if i >= end then Return(index) else Again(i + 1)
  }

  /** With the largest mask every start but 0 is aligned to 0: a search from bit 1 returns a bit before its
      start, or, if bit 0 is set, goes round for ever. */
  lemma WrappedAlignment()
    ensures TurnOf([0], 32, 1, 1, 0xffff_ffff) == Return(0)
    ensures TurnOf([1], 32, 1, 1, 0xffff_ffff) == Again(1)
  {
    var clear: seq<bv32>, full: seq<bv32> := [0], [1];
    assert !BitAt(clear, 1) && !BitAt(clear, 0) && !BitAt(full, 1) && BitAt(full, 0);
    assert AlignWord(1, 0xffff_ffff) == AndNot(0, 0xffff_ffff) == 0;
    assert NextBit(clear, false, 32, 1) == 1 && NextBit(full, false, 32, 1) == 1;
    assert NextBit(clear, true, 1, 0) == NextBit(clear, true, 1, 1) == 1;
    assert NextBit(full, true, 1, 0) == 0;
  }
}
