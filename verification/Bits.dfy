/** Single bits of 32-bit words.  Positions are numbers below 32; `Pos` is the same number as a
    machine word, which is what shifts take. */
module Bits {

  function Pos(k: nat): bv32
    requires k < 32
  {
    if k < 8 then (if k < 4 then (if k < 2 then (if k < 1 then 0 else 1) else (if k < 3 then 2 else 3)) else (if k < 6 then (if k < 5 then 4 else 5) else (if k < 7 then 6 else 7)))
    else if k < 16 then (if k < 12 then (if k < 10 then (if k < 9 then 8 else 9) else (if k < 11 then 10 else 11)) else (if k < 14 then (if k < 13 then 12 else 13) else (if k < 15 then 14 else 15)))
    else if k < 24 then (if k < 20 then (if k < 18 then (if k < 17 then 16 else 17) else (if k < 19 then 18 else 19)) else (if k < 22 then (if k < 21 then 20 else 21) else (if k < 23 then 22 else 23)))
    else (if k < 28 then (if k < 26 then (if k < 25 then 24 else 25) else (if k < 27 then 26 else 27)) else (if k < 30 then (if k < 29 then 28 else 29) else (if k < 31 then 30 else 31)))
  }

  predicate BitAtPos(w: bv32, p: bv32)
    requires p < 32
  {
    (w >> p) & 1 == 1
  }

  lemma PosBound(k: nat)
    requires k < 32
    ensures Pos(k) < 32
  {}

  lemma PosOrder(a: nat, b: nat)
    requires a < 32 && b < 32
    ensures Pos(a) <= Pos(b) <==> a <= b
  {}

  /** Bit k of w. */
  predicate Bit(w: bv32, k: nat)
    requires k < 32
  {
    PosBound(k);
    BitAtPos(w, Pos(k))
  }

  // ----- facts about machine words

  lemma AndAt(v: bv32, w: bv32, p: bv32)
    requires p < 32
    ensures BitAtPos(v & w, p) <==> BitAtPos(v, p) && BitAtPos(w, p)
  {}

  lemma OrAt(v: bv32, w: bv32, p: bv32)
    requires p < 32
    ensures BitAtPos(v | w, p) <==> BitAtPos(v, p) || BitAtPos(w, p)
  {}

  lemma NotAt(w: bv32, p: bv32)
    requires p < 32
    ensures BitAtPos(!w, p) <==> !BitAtPos(w, p)
  {}

  function Shifted(n: bv32): bv32
    requires n < 32
  {
    1 << n
  }

  lemma OneAt(n: bv32, p: bv32)
    requires n < 32 && p < 32
    ensures BitAtPos(Shifted(n), p) <==> p == n
  {}

  lemma OneIsolates(w: bv32, p: bv32)
    requires p < 32
    ensures And(w, Shifted(p)) != 0 <==> BitAtPos(w, p)
  {}

  lemma HighAt(n: bv32, p: bv32)
    requires n < 32 && p < 32
    ensures BitAtPos(0xffffffff << n, p) <==> p >= n
  {}

  lemma ZeroAt(p: bv32)
    requires p < 32
    ensures !BitAtPos(0, p) && BitAtPos(0xffffffff, p)
  {}

  // ----- the same facts by bit number

  function And(v: bv32, w: bv32): bv32 {
    v & w
  }

  function Or(v: bv32, w: bv32): bv32 {
    v | w
  }

  function Not(w: bv32): bv32 {
    !w
  }

  lemma AndBit(v: bv32, w: bv32, k: nat)
    requires k < 32
    ensures Bit(And(v, w), k) <==> Bit(v, k) && Bit(w, k)
  {
    hide Pos, BitAtPos;
    PosBound(k);
    AndAt(v, w, Pos(k));
  }

  lemma OrBit(v: bv32, w: bv32, k: nat)
    requires k < 32
    ensures Bit(Or(v, w), k) <==> Bit(v, k) || Bit(w, k)
  {
    hide Pos, BitAtPos;
    PosBound(k);
    OrAt(v, w, Pos(k));
  }

  lemma NotBit(w: bv32, k: nat)
    requires k < 32
    ensures Bit(Not(w), k) <==> !Bit(w, k)
  {
    hide Pos, BitAtPos;
    PosBound(k);
    NotAt(w, Pos(k));
  }

  lemma ZeroBit(k: nat)
    requires k < 32
    ensures !Bit(0, k) && Bit(0xffffffff, k)
  {
    hide Pos, BitAtPos;
    PosBound(k);
    ZeroAt(Pos(k));
  }

  /** `1UL << n` */
  function One(n: nat): bv32
    requires n < 32
  {
    PosBound(n);
    Shifted(Pos(n))
  }

  lemma OneBit(n: nat, k: nat)
    requires n < 32 && k < 32
    ensures Bit(One(n), k) <==> k == n
  {
    hide Pos, BitAtPos;
    PosBound(n);
    PosBound(k);
    OneAt(Pos(n), Pos(k));
    PosOrder(n, k);
    PosOrder(k, n);
  }

  lemma TestBit(w: bv32, k: nat)
    requires k < 32
    ensures And(w, One(k)) != 0 <==> Bit(w, k)
  {
    hide Pos, BitAtPos, Shifted, And;
    PosBound(k);
    OneIsolates(w, Pos(k));
  }

  /** `~0UL << n`: the bits from n on. */
  function From(n: nat): bv32
    requires n < 32
  {
    PosBound(n);
    0xffffffff << Pos(n)
  }

  lemma FromBit(n: nat, k: nat)
    requires n < 32 && k < 32
    ensures Bit(From(n), k) <==> k >= n
  {
    hide Pos, BitAtPos;
    PosBound(n);
    PosBound(k);
    HighAt(Pos(n), Pos(k));
    PosOrder(n, k);
  }

  /** `~0UL >> (32 - n)`: the bits below n. */
  function Below(n: nat): bv32
    requires 0 < n <= 32
  {
    PosBound(32 - n);
    0xffffffff >> Pos(32 - n)
  }

  lemma BelowAt(m: bv32, p: bv32)
    requires m < 32 && p < 32
    ensures BitAtPos(0xffffffff >> m, p) <==> p <= 31 - m
  {}

  lemma PosMirror(m: nat)
    requires m < 32
    ensures Pos(31 - m) == 31 - Pos(m)
  {}

  lemma BelowBit(n: nat, k: nat)
    requires 0 < n <= 32 && k < 32
    ensures Bit(Below(n), k) <==> k < n
  {
    hide Pos, BitAtPos;
    var m: nat := 32 - n;
    var top: nat := 31 - m;
    PosBound(m);
    PosBound(k);
    BelowAt(Pos(m), Pos(k));
    PosMirror(m);
    PosOrder(k, top);
  }

  /** `(1UL << n) - 1` */
  function LowOnes(n: nat): bv32
    requires n < 32
  {
    One(n) - 1
  }

  lemma LowOnesAt(n: bv32, p: bv32)
    requires n < 32 && p < 32
    ensures BitAtPos(Shifted(n) - 1, p) <==> p < n
  {}

  lemma LowOnesBit(n: nat, k: nat)
    requires n < 32 && k < 32
    ensures Bit(LowOnes(n), k) <==> k < n
  {
    hide Pos, BitAtPos;
    PosBound(n);
    PosBound(k);
    LowOnesAt(Pos(n), Pos(k));
    PosOrder(n, k);
  }

  // ----- finding the first and the last bit of a word

  /** b zero bits of w have been shifted out and `word` is left. */
  ghost predicate ShiftedOut(w: bv32, word: bv32, b: bv32) {
    b < 32 && word == w >> b && w & ((1 << b) - 1) == 0
  }

  lemma ShiftOut8(w: bv32, word: bv32, b: bv32)
    requires ShiftedOut(w, word, b) && b & 0xf == 0 && word & 0xff == 0
    ensures ShiftedOut(w, word >> 8, b + 8)
  {}

  lemma ShiftOut4(w: bv32, word: bv32, b: bv32)
    requires ShiftedOut(w, word, b) && b & 0x7 == 0 && word & 0xf == 0
    ensures ShiftedOut(w, word >> 4, b + 4)
  {}

  lemma ShiftOut2(w: bv32, word: bv32, b: bv32)
    requires ShiftedOut(w, word, b) && b & 0x3 == 0 && word & 0x3 == 0
    ensures ShiftedOut(w, word >> 2, b + 2)
  {}

  lemma LowerHalfEmpty(word: bv32)
    ensures word != 0 && word & 0xffff == 0 ==> (word >> 16) & 0xffff != 0
    ensures word & 0xffff != 0 && word & 0xff == 0 ==> (word >> 8) & 0xff != 0
    ensures word & 0xff != 0 && word & 0xf == 0 ==> (word >> 4) & 0xf != 0
    ensures word & 0xf != 0 && word & 0x3 == 0 ==> (word >> 2) & 0x3 != 0
  {}

  lemma FirstIsSet(w: bv32, word: bv32, b: bv32)
    requires ShiftedOut(w, word, b) && b < 31 && word & 0x3 != 0
    ensures word & 0x1 == 0 ==> BitAtPos(w, b + 1) && forall p: bv32 :: p < b + 1 ==> !BitAtPos(w, p)
    ensures word & 0x1 != 0 ==> BitAtPos(w, b) && forall p: bv32 :: p < b ==> !BitAtPos(w, p)
  {}

  lemma Pos8(k: nat)
    requires k == 0 || k == 16
    ensures Pos(k + 8) == Pos(k) + 8 && Pos(k) & 0xf == 0
  {}

  lemma Pos4(k: nat)
    requires k == 0 || k == 8 || k == 16 || k == 24
    ensures Pos(k + 4) == Pos(k) + 4 && Pos(k) & 0x7 == 0
  {}

  lemma Pos2(k: nat)
    requires k == 0 || k == 4 || k == 8 || k == 12 || k == 16 || k == 20 || k == 24 || k == 28
    ensures Pos(k + 2) == Pos(k) + 2 && Pos(k) & 0x3 == 0
  {}

  lemma Pos1(k: nat)
    requires k < 32 && k % 2 == 0
    ensures Pos(k + 1) == Pos(k) + 1 && Pos(k) < 31
  {}

  lemma Begin0(w: bv32, b: bv32)
    requires b == 0
    ensures ShiftedOut(w, w, b)
  {}

  lemma Begin16(w: bv32, b: bv32)
    requires w & 0xffff == 0 && b == 16
    ensures ShiftedOut(w, w >> 16, b)
  {}

  // One halving step each: the first set bit is among the lowest s bits of what is left.

  method Halve16(w: bv32) returns (word: bv32, num: nat)
    requires w != 0
    ensures (num == 0 || num == 16) && word & 0xffff != 0 && ShiftedOut(w, word, Pos(num))
  {
    hide ShiftedOut;
    LowerHalfEmpty(w);
    word, num := w, 0;
    Begin0(w, Pos(0));
    if word & 0xffff == 0 {
      Begin16(w, Pos(16));
      num, word := 16, word >> 16;
    }
  }

  method Halve8(w: bv32, word: bv32, num: nat) returns (word': bv32, num': nat)
    requires (num == 0 || num == 16) && word & 0xffff != 0 && ShiftedOut(w, word, Pos(num))
    ensures num' < 32 && num' % 8 == 0 && word' & 0xff != 0 && ShiftedOut(w, word', Pos(num'))
  {
    hide Pos, ShiftedOut;
    LowerHalfEmpty(word);
    Pos8(num);
    word', num' := word, num;
    if word & 0xff == 0 {
      ShiftOut8(w, word, Pos(num));
      num', word' := num + 8, word >> 8;
    }
  }

  method Halve4(w: bv32, word: bv32, num: nat) returns (word': bv32, num': nat)
    requires num < 32 && num % 8 == 0 && word & 0xff != 0 && ShiftedOut(w, word, Pos(num))
    ensures num' < 32 && num' % 4 == 0 && word' & 0xf != 0 && ShiftedOut(w, word', Pos(num'))
  {
    hide Pos, ShiftedOut;
    LowerHalfEmpty(word);
    Pos4(num);
    word', num' := word, num;
    if word & 0xf == 0 {
      ShiftOut4(w, word, Pos(num));
      num', word' := num + 4, word >> 4;
    }
  }

  method Halve2(w: bv32, word: bv32, num: nat) returns (word': bv32, num': nat)
    requires num < 32 && num % 4 == 0 && word & 0xf != 0 && ShiftedOut(w, word, Pos(num))
    ensures num' < 32 && num' % 2 == 0 && word' & 0x3 != 0 && ShiftedOut(w, word', Pos(num'))
  {
    hide Pos, ShiftedOut;
    LowerHalfEmpty(word);
    Pos2(num);
    word', num' := word, num;
    if word & 0x3 == 0 {
      ShiftOut2(w, word, Pos(num));
      num', word' := num + 2, word >> 2;
    }
  }

  /** bitops_ffsl: the lowest set bit, by halving. */
  method FirstBit(w: bv32) returns (num: nat)
    requires w != 0
    ensures num < 32 && Bit(w, num) && forall k: nat :: k < num ==> !Bit(w, k)
  {
    hide BitAtPos, ShiftedOut, Pos, Bit;
    var word;
    word, num := Halve16(w);
    word, num := Halve8(w, word, num);
    word, num := Halve4(w, word, num);
    word, num := Halve2(w, word, num);
    Pos1(num);
    FirstIsSet(w, word, Pos(num));
    if word & 0x1 == 0 {
      num := num + 1;
    }
    LowestBit(w, num);
  }

  /** In terms of bit numbers. */
  lemma LowestBit(w: bv32, num: nat)
    requires num < 32 && BitAtPos(w, Pos(num)) && forall p: bv32 :: p < Pos(num) ==> !BitAtPos(w, p)
    ensures Bit(w, num) && forall k: nat :: k < num ==> !Bit(w, k)
  {
    hide BitAtPos, Pos;
    forall k: nat | k < num ensures !Bit(w, k) {
      PosOrder(num, k);
      PosBound(k);
    }
  }
}
