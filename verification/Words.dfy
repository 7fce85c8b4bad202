/** Machine words as the migration streams use them: big-endian 64-bit values and
    flags packed below an aligned offset. */
module Words {

  type Byte = n: int | 0 <= n < 256

  function Pow2(k: nat): (r: nat)
    ensures r > 0
  {
    if k == 0 then 1 else 2 * Pow2(k - 1)
  }

  function Pow256(k: nat): (r: nat)
    ensures r > 0
  {
    if k == 0 then 1 else 256 * Pow256(k - 1)
  }

  /** Bitwise or of two unsigned values. */
  function BitOr(a: nat, b: nat): nat {
    if a == 0 then b
    else if b == 0 then a
    else 2 * BitOr(a / 2, b / 2) + (if a % 2 == 1 || b % 2 == 1 then 1 else 0)
  }

  /** `v & flag` for a flag with a single bit set. */
  predicate HasFlag(v: nat, flag: nat)
    requires flag > 0
  {
    v / flag % 2 == 1
  }

  /** The n-byte big-endian form of v, as the repeated `v >> 8` of the stream writers. */
  function BigEndian(v: nat, n: nat): (s: seq<Byte>)
    ensures |s| == n
    decreases n, v
  {
    if n == 0 then [] else BigEndian(v / 256, n - 1) + [v % 256]
  }

  function FromBigEndian(s: seq<Byte>): nat {
    if s == [] then 0 else FromBigEndian(s[..|s| - 1]) * 256 + s[|s| - 1]
  }

  /** Reading back a value that fits gives the value. */
  lemma {:induction false} BigEndianRoundTrip(v: nat, n: nat)
    requires v < Pow256(n)
    ensures FromBigEndian(BigEndian(v, n)) == v
    decreases n
  {
    if n > 0 {
      BigEndianRoundTrip(v / 256, n - 1);
      assert BigEndian(v, n)[..n - 1] == BigEndian(v / 256, n - 1);
    }
  }

  /** An offset aligned to 2^k and flags below 2^k do not share a bit, so `|` adds them. */
  lemma {:induction false} OrAligned(p: nat, k: nat, f: nat)
    requires f < Pow2(k)
    ensures BitOr(p * Pow2(k), f) == p * Pow2(k) + f
  {
    if k > 0 && p > 0 && f > 0 {
      var a := p * Pow2(k);
      assert a == 2 * (p * Pow2(k - 1));
      OrAligned(p, k - 1, f / 2);
    }
  }

  // ----- masking and alignment

  /** Bitwise `a & ~b`. */
  function AndNot(a: nat, b: nat): nat
    decreases a
  {
    if a == 0 then 0 else 2 * AndNot(a / 2, b / 2) + (if a % 2 == 1 && b % 2 == 0 then 1 else 0)
  }

  /** The lowest k bits of i are zero. */
  predicate IsAligned(i: nat, k: nat)
    decreases k
  {
    k == 0 || (i % 2 == 0 && IsAligned(i / 2, k - 1))
  }

  function Multiple(m: nat, k: nat): nat {
    m * Pow2(k)
  }

  /** Aligned means a multiple of 2^k. */
  lemma {:induction false} AlignedIsMultiple(i: nat, k: nat)
    ensures IsAligned(i, k) <==> exists m: nat :: i == Multiple(m, k)
    decreases k
  {
    if k == 0 {
      assert i == Multiple(i, 0);
    } else {
      AlignedIsMultiple(i / 2, k - 1);
      if IsAligned(i, k) {
        var m: nat :| i / 2 == Multiple(m, k - 1);
        assert Multiple(m, k) == 2 * Multiple(m, k - 1);
      }
      forall m: nat | i == Multiple(m, k) ensures IsAligned(i, k) {
        assert i == 2 * Multiple(m, k - 1);
      }
    }
  }

  /** ALIGN_MASK */
  function Align(x: nat, mask: nat): nat {
    AndNot(x + mask, mask)
  }

  lemma {:induction false} AndNotZero(a: nat)
    ensures AndNot(a, 0) == a
  {
    if a > 0 { AndNotZero(a / 2); }
  }

  lemma AlignStep(x: nat, h: nat, m: nat)
    requires h == (x + 1) / 2
    ensures Align(x, 2 * m + 1) == 2 * Align(h, m)
  {
    assert (x + (2 * m + 1)) / 2 == h + m && (2 * m + 1) / 2 == m;
  }

  /** Aligning with the mask 2^k - 1 gives the least multiple of 2^k at or above x. */
  lemma {:induction false} AlignIsLeast(x: nat, k: nat)
    ensures IsAligned(Align(x, Pow2(k) - 1), k) && Align(x, Pow2(k) - 1) >= x
    ensures forall i: nat :: i >= x && IsAligned(i, k) ==> i >= Align(x, Pow2(k) - 1)
    decreases k
  {
    if k == 0 {
      AndNotZero(x);
    } else {
      var m: nat, h := Pow2(k - 1) - 1, (x + 1) / 2;
      var y := Align(h, m);
      AlignIsLeast(h, k - 1);
      AlignStep(x, h, m);
      hide Align;
      assert Align(x, Pow2(k) - 1) == 2 * y;
      forall i: nat | i >= x && IsAligned(i, k) ensures i >= 2 * y {
        assert i / 2 >= h && IsAligned(i / 2, k - 1);
      }
    }
  }
}
