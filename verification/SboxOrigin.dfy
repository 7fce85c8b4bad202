/** Where the S-box comes from (section 5.1.1 of FIPS 197): the multiplicative inverse, with 0 for 0,
    followed by an affine map over the bits. */
module SboxOrigin {
  import opened Gf256

  /** Bit i of y selects x. */
  function Pick(y: bv8, i: nat, x: bv8): bv8
    requires i < 8
  {
    if (y >> i) & 1 == 1 then x else 0
  }

  /** Multiplication in the field: the sum of x {02}^i over the bits i of y. */
  function Product(x: bv8, y: bv8): bv8 {
    Sum(Sum(Sum(Sum(Sum(Sum(Sum(
      Pick(y, 0, x), Pick(y, 1, Times2(x))), Pick(y, 2, Times4(x))), Pick(y, 3, Times8(x))),
      Pick(y, 4, Times2(Times8(x)))), Pick(y, 5, Times4(Times8(x)))),
      Pick(y, 6, Times8(Times8(x)))), Pick(y, 7, Times2(Times8(Times8(x)))))
  }

  predicate IsInverse(x: bv8, y: bv8) {
    if x == 0 then y == 0 else Product(x, y) == 1
  }

  function RotateLeft(y: bv8, k: bv8): bv8
    requires k <= 8
  {
    (y << k) | (y >> (8 - k))
  }

  function Affine(y: bv8): bv8 {
    y ^ RotateLeft(y, 1) ^ RotateLeft(y, 2) ^ RotateLeft(y, 3) ^ RotateLeft(y, 4) ^ 0x63
  }

  function InvAffine(s: bv8): bv8 {
    RotateLeft(s, 1) ^ RotateLeft(s, 3) ^ RotateLeft(s, 6) ^ 0x05
  }

  lemma AffineInvAffine(s: bv8)
    ensures Affine(InvAffine(s)) == s
  {}

  // ----- the table, row by row

  lemma InverseInRow0(x: bv8)
    requires x >> 4 == 0
    ensures IsInverse(x, InvAffine(Sbox(x)))
  {}

  lemma InverseInRow1(x: bv8)
    requires x >> 4 == 1
    ensures IsInverse(x, InvAffine(Sbox(x)))
  {}

  lemma InverseInRow2(x: bv8)
    requires x >> 4 == 2
    ensures IsInverse(x, InvAffine(Sbox(x)))
  {}

  lemma InverseInRow3(x: bv8)
    requires x >> 4 == 3
    ensures IsInverse(x, InvAffine(Sbox(x)))
  {}

  lemma InverseInRow4(x: bv8)
    requires x >> 4 == 4
    ensures IsInverse(x, InvAffine(Sbox(x)))
  {}

  lemma InverseInRow5(x: bv8)
    requires x >> 4 == 5
    ensures IsInverse(x, InvAffine(Sbox(x)))
  {}

  lemma InverseInRow6(x: bv8)
    requires x >> 4 == 6
    ensures IsInverse(x, InvAffine(Sbox(x)))
  {}

  lemma InverseInRow7(x: bv8)
    requires x >> 4 == 7
    ensures IsInverse(x, InvAffine(Sbox(x)))
  {}

  lemma InverseInRow8(x: bv8)
    requires x >> 4 == 8
    ensures IsInverse(x, InvAffine(Sbox(x)))
  {}

  lemma InverseInRow9(x: bv8)
    requires x >> 4 == 9
    ensures IsInverse(x, InvAffine(Sbox(x)))
  {}

  lemma InverseInRow10(x: bv8)
    requires x >> 4 == 10
    ensures IsInverse(x, InvAffine(Sbox(x)))
  {}

  lemma InverseInRow11(x: bv8)
    requires x >> 4 == 11
    ensures IsInverse(x, InvAffine(Sbox(x)))
  {}

  lemma InverseInRow12(x: bv8)
    requires x >> 4 == 12
    ensures IsInverse(x, InvAffine(Sbox(x)))
  {}

  lemma InverseInRow13(x: bv8)
    requires x >> 4 == 13
    ensures IsInverse(x, InvAffine(Sbox(x)))
  {}

  lemma InverseInRow14(x: bv8)
    requires x >> 4 == 14
    ensures IsInverse(x, InvAffine(Sbox(x)))
  {}

  lemma InverseInRow15(x: bv8)
    requires x >> 4 == 15
    ensures IsInverse(x, InvAffine(Sbox(x)))
  {}

  lemma HighBits(x: bv8)
    ensures x >> 4 < 16
    ensures x >> 4 < 8 || x >> 4 == 8 || x >> 4 == 9 || x >> 4 == 10 || x >> 4 == 11 || x >> 4 == 12 || x >> 4 == 13 || x >> 4 == 14 || x >> 4 == 15
    ensures x >> 4 >= 8 || x >> 4 == 0 || x >> 4 == 1 || x >> 4 == 2 || x >> 4 == 3 || x >> 4 == 4 || x >> 4 == 5 || x >> 4 == 6 || x >> 4 == 7
  {}

  /** Every element has an inverse, which the S-box determines. */
  lemma SboxGivesInverse(x: bv8)
    ensures IsInverse(x, InvAffine(Sbox(x)))
  {
    hide *;
    var h := x >> 4;
    HighBits(x);
    if h < 8 {
      if h == 0 { InverseInRow0(x); }
      else if h == 1 { InverseInRow1(x); }
      else if h == 2 { InverseInRow2(x); }
      else if h == 3 { InverseInRow3(x); }
      else if h == 4 { InverseInRow4(x); }
      else if h == 5 { InverseInRow5(x); }
      else if h == 6 { InverseInRow6(x); }
      else { InverseInRow7(x); }
    } else if h == 8 { InverseInRow8(x); }
    else if h == 9 { InverseInRow9(x); }
    else if h == 10 { InverseInRow10(x); }
    else if h == 11 { InverseInRow11(x); }
    else if h == 12 { InverseInRow12(x); }
    else if h == 13 { InverseInRow13(x); }
    else if h == 14 { InverseInRow14(x); }
    else { InverseInRow15(x); }
  }

  // ----- inverses are unique

  /** x {02}^i */
  function Power(x: bv8, i: nat): bv8 {
    if i == 0 then x else Times2(Power(x, i - 1))
  }

  /** The product over the first n bits of y. */
  function Partial(x: bv8, y: bv8, n: nat): bv8
    requires 0 < n <= 8
  {
    var i: nat := n - 1;
    if i == 0 then Pick(y, 0, x) else Sum(Partial(x, y, i), Pick(y, i, Power(x, i)))
  }

  lemma Powers(x: bv8)
    ensures Power(x, 1) == Times2(x) && Power(x, 2) == Times4(x) && Power(x, 3) == Times8(x)
    ensures Power(x, 4) == Times2(Times8(x)) && Power(x, 5) == Times4(Times8(x)) && Power(x, 6) == Times8(Times8(x))
    ensures Power(x, 7) == Times2(Times8(Times8(x)))
  {
    hide Times2;
    assert Power(x, 3) == Times2(Power(x, 2)) && Power(x, 4) == Times2(Power(x, 3));
    assert Power(x, 5) == Times2(Power(x, 4)) && Power(x, 6) == Times2(Power(x, 5)) && Power(x, 7) == Times2(Power(x, 6));
  }

  lemma ProductIsPartial(x: bv8, y: bv8)
    ensures Product(x, y) == Partial(x, y, 8)
  {
    hide Pick, Power, Sum, Times2, Times4, Times8, Partial;
    Powers(x);
    PartialUnfolds(x, y, 1);
    PartialUnfolds(x, y, 2);
    PartialUnfolds(x, y, 3);
    PartialUnfolds(x, y, 4);
    PartialUnfolds(x, y, 5);
    PartialUnfolds(x, y, 6);
    PartialUnfolds(x, y, 7);
    PartialUnfolds(x, y, 8);
  }

  lemma {:induction false} PowerAdds(a: bv8, b: bv8, i: nat)
    ensures Power(Sum(a, b), i) == Sum(Power(a, i), Power(b, i))
  {
    hide Sum, Times2;
    if i > 0 {
      PowerAdds(a, b, i - 1);
      Times2Adds(Power(a, i - 1), Power(b, i - 1));
    }
  }

  lemma {:induction false} PowerOfTimes2(x: bv8, i: nat)
    ensures Power(Times2(x), i) == Times2(Power(x, i))
  {
    hide Times2;
    if i > 0 {
      PowerOfTimes2(x, i - 1);
    }
  }

  lemma Zero()
    ensures Times2(0) == 0 && Sum(0, 0) == 0
  {}

  lemma PickCases(y: bv8, i: nat)
    requires i < 8
    ensures (forall x :: Pick(y, i, x) == x) || (forall x :: Pick(y, i, x) == 0)
  {}

  lemma {:induction false} PartialAdds(a: bv8, b: bv8, y: bv8, n: nat)
    requires 0 < n <= 8
    ensures Partial(Sum(a, b), y, n) == Sum(Partial(a, y, n), Partial(b, y, n))
  {
    hide Sum, Times2, Power, Pick;
    var i: nat := n - 1;
    Zero();
    PickCases(y, i);
    assert Power(a, 0) == a && Power(b, 0) == b by { PowerZero(a); PowerZero(b); }
    PowerAdds(a, b, i);
    if i > 0 {
      PartialAdds(a, b, y, i);
      Exchange(Partial(a, y, i), Partial(b, y, i), Pick(y, i, Power(a, i)), Pick(y, i, Power(b, i)));
    }
  }

  lemma PowerZero(x: bv8)
    ensures Power(x, 0) == x
  {}

  lemma {:induction false} PartialOfTimes2(x: bv8, y: bv8, n: nat)
    requires 0 < n <= 8
    ensures Partial(Times2(x), y, n) == Times2(Partial(x, y, n))
  {
    hide Sum, Times2, Power, Pick;
    var i: nat := n - 1;
    Zero();
    PickCases(y, i);
    PowerOfTimes2(x, i);
    if i > 0 {
      PartialOfTimes2(x, y, i);
      Times2Adds(Partial(x, y, i), Pick(y, i, Power(x, i)));
    }
  }

  lemma {:induction false} PartialOfPower(x: bv8, y: bv8, n: nat, i: nat)
    requires 0 < n <= 8
    ensures Partial(Power(x, i), y, n) == Power(Partial(x, y, n), i)
  {
    hide Times2, Partial;
    if i > 0 {
      PartialOfPower(x, y, n, i - 1);
      PartialOfTimes2(Power(x, i - 1), y, n);
    }
  }

  lemma {:induction false} PartialOfZero(y: bv8, n: nat)
    requires 0 < n <= 8
    ensures Partial(0, y, n) == 0
  {
    hide Times2, Sum, Power, Pick;
    var i: nat := n - 1;
    Zero();
    PickCases(y, i);
    PowerOfZero(i);
    if i > 0 {
      PartialOfZero(y, i);
    }
  }

  lemma {:induction false} PowerOfZero(i: nat)
    ensures Power(0, i) == 0
  {
    hide Times2;
    Zero();
    if i > 0 {
      PowerOfZero(i - 1);
    }
  }

  /** Multiplying by y and by z can be exchanged. */
  lemma {:induction false} PartialsExchange(x: bv8, y: bv8, z: bv8, n: nat)
    requires 0 < n <= 8
    ensures Partial(Partial(x, z, 8), y, n) == Partial(Partial(x, y, n), z, 8)
  {
    hide Sum, Times2, Power, Pick, Partial;
    var i: nat := n - 1;
    var w := Partial(x, z, 8);
    PickCases(y, i);
    PartialOfZero(z, 8);
    PartialOfPower(x, z, 8, i);
    assert Pick(y, i, Power(w, i)) == Partial(Pick(y, i, Power(x, i)), z, 8);
    PartialUnfolds(x, y, n);
    PartialUnfolds(w, y, n);
    PowerZero(x);
    PowerZero(w);
    if i > 0 {
      PartialsExchange(x, y, z, i);
      PartialAdds(Partial(x, y, i), Pick(y, i, Power(x, i)), z, 8);
    }
  }

  lemma PartialUnfolds(x: bv8, y: bv8, n: nat)
    requires 0 < n <= 8
    ensures n == 1 ==> Partial(x, y, n) == Pick(y, 0, x)
    ensures n > 1 ==> Partial(x, y, n) == Sum(Partial(x, y, n - 1), Pick(y, n - 1, Power(x, n - 1)))
  {
    hide Sum, Power, Pick;
  }

  lemma ProductsExchange(x: bv8, y: bv8, z: bv8)
    ensures Product(Product(x, z), y) == Product(Product(x, y), z)
  {
    hide *;
    ProductIsPartial(x, y);
    ProductIsPartial(x, z);
    ProductIsPartial(Product(x, z), y);
    ProductIsPartial(Product(x, y), z);
    PartialsExchange(x, y, z, 8);
  }

  lemma PowersOfOne()
    ensures Times2(1) == 2 && Times4(1) == 4 && Times8(1) == 8
    ensures Times2(8) == 16 && Times4(8) == 32 && Times8(8) == 64 && Times2(64) == 128
  {}

  lemma PickIsMask(y: bv8)
    ensures Pick(y, 0, 1) == y & 1 && Pick(y, 1, 2) == y & 2 && Pick(y, 2, 4) == y & 4 && Pick(y, 3, 8) == y & 8
    ensures Pick(y, 4, 16) == y & 16 && Pick(y, 5, 32) == y & 32 && Pick(y, 6, 64) == y & 64 && Pick(y, 7, 128) == y & 128
  {}

  lemma BitsAddUp(y: bv8)
    ensures Sum(Sum(Sum(Sum(Sum(Sum(Sum(y & 1, y & 2), y & 4), y & 8), y & 16), y & 32), y & 64), y & 128) == y
  {}

  lemma ProductOfOne(y: bv8)
    ensures Product(1, y) == y
  {
    hide Times2, Times4, Times8, Pick, Sum;
    PowersOfOne();
    PickIsMask(y);
    BitsAddUp(y);
  }

  /** No element has two inverses. */
  lemma InverseIsUnique(x: bv8, y: bv8, z: bv8)
    requires IsInverse(x, y) && IsInverse(x, z)
    ensures y == z
  {
    hide Product;
    if x != 0 {
      ProductsExchange(x, y, z);
      ProductOfOne(y);
      ProductOfOne(z);
    }
  }

  /** Every element has exactly one inverse, and the S-box is the affine map of it. */
  lemma SboxIsAffineOfInverse(x: bv8, y: bv8)
    ensures IsInverse(x, y) <==> Affine(y) == Sbox(x) && y == InvAffine(Sbox(x))
    ensures IsInverse(x, InvAffine(Sbox(x)))
  {
    hide *;
    SboxGivesInverse(x);
    AffineInvAffine(Sbox(x));
    if IsInverse(x, y) {
      InverseIsUnique(x, y, InvAffine(Sbox(x)));
    }
  }

  lemma InvAffineAffine(y: bv8)
    ensures InvAffine(Affine(y)) == y
  {}

  /** Section 5.1.1 of FIPS 197: for the inverse y of x, and for no other y, the affine map of y is the
      S-box at x. */
  lemma SboxOfInverse(x: bv8, y: bv8)
    ensures IsInverse(x, y) <==> Affine(y) == Sbox(x)
  {
    hide *;
    SboxIsAffineOfInverse(x, y);
    InvAffineAffine(y);
  }
}
