/** The finite field and the substitution boxes of AES.  The boxes are the byte columns of the
    tables Te4 and Td4, sixteen entries to a row. */
module Gf256 {

  function SboxRow(h: bv8): bv128 {
    if h == 0 then 0x637c777b_f26b6fc5_3001672b_fed7ab76
    else if h == 1 then 0xca82c97d_fa5947f0_add4a2af_9ca472c0
    else if h == 2 then 0xb7fd9326_363ff7cc_34a5e5f1_71d83115
    else if h == 3 then 0x04c723c3_1896059a_071280e2_eb27b275
    else if h == 4 then 0x09832c1a_1b6e5aa0_523bd6b3_29e32f84
    else if h == 5 then 0x53d100ed_20fcb15b_6acbbe39_4a4c58cf
    else if h == 6 then 0xd0efaafb_434d3385_45f9027f_503c9fa8
    else if h == 7 then 0x51a3408f_929d38f5_bcb6da21_10fff3d2
    else if h == 8 then 0xcd0c13ec_5f974417_c4a77e3d_645d1973
    else if h == 9 then 0x60814fdc_222a9088_46eeb814_de5e0bdb
    else if h == 10 then 0xe0323a0a_4906245c_c2d3ac62_9195e479
    else if h == 11 then 0xe7c8376d_8dd54ea9_6c56f4ea_657aae08
    else if h == 12 then 0xba78252e_1ca6b4c6_e8dd741f_4bbd8b8a
    else if h == 13 then 0x703eb566_4803f60e_613557b9_86c11d9e
    else if h == 14 then 0xe1f89811_69d98e94_9b1e87e9_ce5528df
    else 0x8ca1890d_bfe64268_41992d0f_b054bb16
  }

  /** The S-box: row by the high four bits, column by the low four. */
  function Sbox(x: bv8): bv8 {
    ((SboxRow(x >> 4) >> (120 - 8 * ((x & 0xf) as bv128))) & 0xff) as bv8
  }

  function InvSboxRow(h: bv8): bv128 {
    if h == 0 then 0x52096ad5_3036a538_bf40a39e_81f3d7fb
    else if h == 1 then 0x7ce33982_9b2fff87_348e4344_c4dee9cb
    else if h == 2 then 0x547b9432_a6c2233d_ee4c950b_42fac34e
    else if h == 3 then 0x082ea166_28d924b2_765ba249_6d8bd125
    else if h == 4 then 0x72f8f664_86689816_d4a45ccc_5d65b692
    else if h == 5 then 0x6c704850_fdedb9da_5e154657_a78d9d84
    else if h == 6 then 0x90d8ab00_8cbcd30a_f7e45805_b8b34506
    else if h == 7 then 0xd02c1e8f_ca3f0f02_c1afbd03_01138a6b
    else if h == 8 then 0x3a911141_4f67dcea_97f2cfce_f0b4e673
    else if h == 9 then 0x96ac7422_e7ad3585_e2f937e8_1c75df6e
    else if h == 10 then 0x47f11a71_1d29c589_6fb7620e_aa18be1b
    else if h == 11 then 0xfc563e4b_c6d27920_9adbc0fe_78cd5af4
    else if h == 12 then 0x1fdda833_8807c731_b1121059_2780ec5f
    else if h == 13 then 0x60517fa9_19b54a0d_2de57a9f_93c99cef
    else if h == 14 then 0xa0e03b4d_ae2af5b0_c8ebbb3c_83539961
    else 0x172b047e_ba77d626_e1691463_55210c7d
  }

  /** The inverse S-box: row by the high four bits, column by the low four. */
  function InvSbox(x: bv8): bv8 {
    ((InvSboxRow(x >> 4) >> (120 - 8 * ((x & 0xf) as bv128))) & 0xff) as bv8
  }

  lemma InverseQuarter0(x: bv8)
    requires x >> 6 == 0
    ensures InvSbox(Sbox(x)) == x
  {}

  lemma InverseQuarter1(x: bv8)
    requires x >> 6 == 1
    ensures InvSbox(Sbox(x)) == x
  {}

  lemma InverseQuarter2(x: bv8)
    requires x >> 6 == 2
    ensures InvSbox(Sbox(x)) == x
  {}

  lemma InverseQuarter3(x: bv8)
    requires x >> 6 == 3
    ensures InvSbox(Sbox(x)) == x
  {}

  /** The two boxes invert each other. */
  lemma InvSboxSbox(x: bv8)
    ensures InvSbox(Sbox(x)) == x
  {
    hide Sbox, InvSbox;
    assert x >> 6 == 0 || x >> 6 == 1 || x >> 6 == 2 || x >> 6 == 3;
    if x >> 6 == 0 {
      InverseQuarter0(x);
    } else if x >> 6 == 1 {
      InverseQuarter1(x);
    } else if x >> 6 == 2 {
      InverseQuarter2(x);
    } else {
      InverseQuarter3(x);
    }
  }

  // ----- arithmetic; addition is exclusive or

  function Sum(a: bv8, b: bv8): bv8 {
    a ^ b
  }

  function Sum4(a: bv8, b: bv8, c: bv8, d: bv8): bv8 {
    a ^ b ^ c ^ d
  }

  /** Multiplication by {02}: shift, and reduce by x^8 + x^4 + x^3 + x + 1 if bit 7 was set. */
  function Times2(a: bv8): bv8 {
    var h := a >> 7;
    (a << 1) ^ h ^ (h << 1) ^ (h << 3) ^ (h << 4)
  }

  function Times4(a: bv8): bv8 {
    Times2(Times2(a))
  }

  function Times8(a: bv8): bv8 {
    Times2(Times4(a))
  }

  function Times3(a: bv8): bv8 {
    Sum(Times2(a), a)
  }

  function Times9(a: bv8): bv8 {
    Sum(Times8(a), a)
  }

  function TimesB(a: bv8): bv8 {
    Sum(Times8(a), Times3(a))
  }

  function TimesD(a: bv8): bv8 {
    Sum(Times8(a), Sum(Times4(a), a))
  }

  function TimesE(a: bv8): bv8 {
    Sum(Times8(a), Sum(Times4(a), Times2(a)))
  }

  /** The same multiplication in the conditional form of section 4.2.1 of FIPS 197. */
  lemma Times2Conditional(a: bv8)
    ensures Times2(a) == if a & 0x80 == 0 then a << 1 else (a << 1) ^ 0x1b
  {}

  lemma Unfold(a: bv8)
    ensures Times4(a) == Times2(Times2(a)) && Times8(a) == Times2(Times4(a)) && Times3(a) == Sum(Times2(a), a)
    ensures Times9(a) == Sum(Times8(a), a) && TimesB(a) == Sum(Times8(a), Times3(a))
    ensures TimesD(a) == Sum(Times8(a), Sum(Times4(a), a)) && TimesE(a) == Sum(Times8(a), Sum(Times4(a), Times2(a)))
  {
    hide Times2, Sum;
  }

  lemma Times2Adds(a: bv8, b: bv8)
    ensures Times2(Sum(a, b)) == Sum(Times2(a), Times2(b))
  {}

  lemma SumCommutes(a: bv8, b: bv8)
    ensures Sum(a, b) == Sum(b, a)
  {}

  lemma SumAssociates(a: bv8, b: bv8, c: bv8)
    ensures Sum(Sum(a, b), c) == Sum(a, Sum(b, c))
  {}

  lemma Exchange(a: bv8, b: bv8, c: bv8, d: bv8)
    ensures Sum(Sum(a, b), Sum(c, d)) == Sum(Sum(a, c), Sum(b, d))
  {
    hide *;
    SumAssociates(a, b, Sum(c, d));
    SumAssociates(b, c, d);
    SumCommutes(b, c);
    SumAssociates(c, b, d);
    SumAssociates(a, c, Sum(b, d));
  }

  /** Multiplication by a constant distributes over addition. */
  lemma TimesAdds(a: bv8, b: bv8)
    ensures Times2(Sum(a, b)) == Sum(Times2(a), Times2(b)) && Times4(Sum(a, b)) == Sum(Times4(a), Times4(b))
    ensures Times8(Sum(a, b)) == Sum(Times8(a), Times8(b)) && Times3(Sum(a, b)) == Sum(Times3(a), Times3(b))
    ensures Times9(Sum(a, b)) == Sum(Times9(a), Times9(b)) && TimesB(Sum(a, b)) == Sum(TimesB(a), TimesB(b))
    ensures TimesD(Sum(a, b)) == Sum(TimesD(a), TimesD(b)) && TimesE(Sum(a, b)) == Sum(TimesE(a), TimesE(b))
  {
    hide *;
    Unfold(a);
    Unfold(b);
    Unfold(Sum(a, b));
    Times2Adds(a, b);
    Times2Adds(Times2(a), Times2(b));
    Times2Adds(Times4(a), Times4(b));
    Exchange(Times2(a), Times2(b), a, b);
    Exchange(Times8(a), Times8(b), a, b);
    Exchange(Times8(a), Times8(b), Times3(a), Times3(b));
    Exchange(Times4(a), Times4(b), a, b);
    Exchange(Times8(a), Times8(b), Sum(Times4(a), a), Sum(Times4(b), b));
    Exchange(Times4(a), Times4(b), Times2(a), Times2(b));
    Exchange(Times8(a), Times8(b), Sum(Times4(a), Times2(a)), Sum(Times4(b), Times2(b)));
  }

  lemma SplitSum4(a: bv8, b: bv8, c: bv8, d: bv8)
    ensures Sum4(a, b, c, d) == Sum(Sum(a, b), Sum(c, d))
  {}

  lemma TimesAddsFour(a: bv8, b: bv8, c: bv8, d: bv8)
    ensures TimesE(Sum4(a, b, c, d)) == Sum4(TimesE(a), TimesE(b), TimesE(c), TimesE(d))
    ensures TimesB(Sum4(a, b, c, d)) == Sum4(TimesB(a), TimesB(b), TimesB(c), TimesB(d))
    ensures TimesD(Sum4(a, b, c, d)) == Sum4(TimesD(a), TimesD(b), TimesD(c), TimesD(d))
    ensures Times9(Sum4(a, b, c, d)) == Sum4(Times9(a), Times9(b), Times9(c), Times9(d))
  {
    hide *;
    SplitSum4(a, b, c, d);
    TimesAdds(a, b);
    TimesAdds(c, d);
    TimesAdds(Sum(a, b), Sum(c, d));
    SplitSum4(TimesE(a), TimesE(b), TimesE(c), TimesE(d));
    SplitSum4(TimesB(a), TimesB(b), TimesB(c), TimesB(d));
    SplitSum4(TimesD(a), TimesD(b), TimesD(c), TimesD(d));
    SplitSum4(Times9(a), Times9(b), Times9(c), Times9(d));
  }

  // ----- columns

  /** A column of the state. */
  datatype Col = Col(b0: bv8, b1: bv8, b2: bv8, b3: bv8)

  function XorCol(x: Col, y: Col): Col {
    Col(Sum(x.b0, y.b0), Sum(x.b1, y.b1), Sum(x.b2, y.b2), Sum(x.b3, y.b3))
  }

  /** MixColumns on one column. */
  function Mix(x: Col): Col {
    Col(Sum4(Times2(x.b0), Times3(x.b1), x.b2, x.b3),
        Sum4(x.b0, Times2(x.b1), Times3(x.b2), x.b3),
        Sum4(x.b0, x.b1, Times2(x.b2), Times3(x.b3)),
        Sum4(Times3(x.b0), x.b1, x.b2, Times2(x.b3)))
  }

  /** InvMixColumns on one column. */
  function InvMix(x: Col): Col {
    Col(Sum4(TimesE(x.b0), TimesB(x.b1), TimesD(x.b2), Times9(x.b3)),
        Sum4(Times9(x.b0), TimesE(x.b1), TimesB(x.b2), TimesD(x.b3)),
        Sum4(TimesD(x.b0), Times9(x.b1), TimesE(x.b2), TimesB(x.b3)),
        Sum4(TimesB(x.b0), TimesD(x.b1), Times9(x.b2), TimesE(x.b3)))
  }

  lemma Sum4Adds(a: bv8, b: bv8, c: bv8, d: bv8, e: bv8, f: bv8, g: bv8, h: bv8)
    ensures Sum4(Sum(a, e), Sum(b, f), Sum(c, g), Sum(d, h)) == Sum(Sum4(a, b, c, d), Sum4(e, f, g, h))
  {
    hide *;
    SplitSum4(Sum(a, e), Sum(b, f), Sum(c, g), Sum(d, h));
    SplitSum4(a, b, c, d);
    SplitSum4(e, f, g, h);
    Exchange(a, e, b, f);
    Exchange(c, g, d, h);
    Exchange(Sum(a, b), Sum(e, f), Sum(c, d), Sum(g, h));
  }

  lemma InvMixAdds(x: Col, y: Col)
    ensures InvMix(XorCol(x, y)) == XorCol(InvMix(x), InvMix(y))
  {
    hide Sum, Sum4, Times9, TimesB, TimesD, TimesE;
    TimesAdds(x.b0, y.b0);
    TimesAdds(x.b1, y.b1);
    TimesAdds(x.b2, y.b2);
    TimesAdds(x.b3, y.b3);
    Sum4Adds(TimesE(x.b0), TimesB(x.b1), TimesD(x.b2), Times9(x.b3), TimesE(y.b0), TimesB(y.b1), TimesD(y.b2), Times9(y.b3));
    Sum4Adds(Times9(x.b0), TimesE(x.b1), TimesB(x.b2), TimesD(x.b3), Times9(y.b0), TimesE(y.b1), TimesB(y.b2), TimesD(y.b3));
    Sum4Adds(TimesD(x.b0), Times9(x.b1), TimesE(x.b2), TimesB(x.b3), TimesD(y.b0), Times9(y.b1), TimesE(y.b2), TimesB(y.b3));
    Sum4Adds(TimesB(x.b0), TimesD(x.b1), Times9(x.b2), TimesE(x.b3), TimesB(y.b0), TimesD(y.b1), Times9(y.b2), TimesE(y.b3));
  }

  // The four coefficients of one row of the product of the two circulant matrices, over the powers
  // a, {02}a, {04}a, {08}a and {10}a.

  lemma Drop(a: bv8, x: bv8, y: bv8)
    ensures Sum(Sum(a, x), Sum(a, y)) == Sum(x, y) && Sum(Sum(x, a), Sum(y, a)) == Sum(x, y)
  {}

  lemma DropInside(a: bv8, b: bv8, x: bv8, y: bv8)
    ensures Sum(Sum(a, x), Sum(Sum(a, b), y)) == Sum(b, Sum(x, y))
  {
    hide *;
    SumAssociates(a, b, y);
    Drop(a, x, Sum(b, y));
    SumAssociates(x, b, y);
    SumCommutes(x, b);
    SumAssociates(b, x, y);
  }

  lemma Regroup(a: bv8, b: bv8, c: bv8, d: bv8)
    ensures Sum4(a, b, c, d) == Sum(Sum(a, d), Sum(b, c))
  {}

  lemma DiagonalCancels(p0: bv8, p1: bv8, p2: bv8, p3: bv8, p4: bv8)
    ensures Sum4(Sum(p4, Sum(p3, p2)), Sum(p3, Sum(p1, p0)), Sum(p3, Sum(p2, p0)), Sum(Sum(p4, p1), Sum(p3, p0))) == p0
  {
    hide *;
    Regroup(Sum(p4, Sum(p3, p2)), Sum(p3, Sum(p1, p0)), Sum(p3, Sum(p2, p0)), Sum(Sum(p4, p1), Sum(p3, p0)));
    DropInside(p4, p1, Sum(p3, p2), Sum(p3, p0));
    Drop(p3, p2, p0);
    Drop(p3, Sum(p1, p0), Sum(p2, p0));
    Drop(p0, p1, p2);
    LastOne(p0, p1, p2);
  }

  lemma LastOne(p0: bv8, p1: bv8, p2: bv8)
    ensures Sum(Sum(p1, Sum(p2, p0)), Sum(p1, p2)) == p0
  {}

  lemma SecondCancels(p0: bv8, p1: bv8, p2: bv8, p3: bv8, p4: bv8)
    ensures Sum4(Sum(Sum(p4, Sum(p3, p2)), Sum(p3, Sum(p2, p1))), Sum(p4, Sum(p2, p1)), Sum(p3, Sum(p2, p0)), Sum(p3, p0)) == 0
  {
    hide *;
    SplitSum4(Sum(Sum(p4, Sum(p3, p2)), Sum(p3, Sum(p2, p1))), Sum(p4, Sum(p2, p1)), Sum(p3, Sum(p2, p0)), Sum(p3, p0));
    Drop(p3, Sum(p2, p0), p0);
    SumAssociates(p2, p0, p0);
    SumAssociates(p3, p2, p1);
    SumAssociates(Sum(p3, p2), p4, p1);
    SumCommutes(p4, Sum(p3, p2));
    Drop(Sum(p3, p2), p4, p1);
    Drop(p4, p1, Sum(p2, p1));
    SumCommutes(p2, p1);
    SumAssociates(p1, p1, p2);
    Itself(p0);
    Itself(p1);
    Itself(p2);
  }

  lemma Itself(a: bv8)
    ensures Sum(a, a) == 0 && Sum(a, 0) == a && Sum(0, a) == a
  {}

  lemma ThirdCancels(p0: bv8, p1: bv8, p2: bv8, p3: bv8, p4: bv8)
    ensures Sum4(Sum(p3, Sum(p2, p1)), Sum(Sum(p4, Sum(p2, p1)), Sum(p3, Sum(p1, p0))), Sum(p4, Sum(p3, p1)), Sum(p3, p0)) == 0
  {
    hide *;
    var q, r := Sum(p2, p1), Sum(p1, p0);
    SplitSum4(Sum(p3, q), Sum(Sum(p4, q), Sum(p3, r)), Sum(p4, Sum(p3, p1)), Sum(p3, p0));
    SumAssociates(Sum(p3, q), Sum(p4, q), Sum(p3, r));
    Drop(q, p3, p4);
    Drop(p3, p4, r);
    SumAssociates(p4, Sum(p3, p1), Sum(p3, p0));
    Drop(p3, p1, p0);
    Itself(Sum(p4, r));
  }

  lemma FourthCancels(p0: bv8, p1: bv8, p2: bv8, p3: bv8, p4: bv8)
    ensures Sum4(Sum(p3, Sum(p2, p1)), Sum(p3, Sum(p1, p0)), Sum(Sum(p4, Sum(p3, p1)), Sum(p3, Sum(p2, p0))), Sum(p4, p1)) == 0
  {}

  lemma DiagonalCoefficient(a: bv8)
    ensures Sum4(TimesE(Times2(a)), TimesB(a), TimesD(a), Times9(Times3(a))) == a
  {
    hide *;
    Unfold(a);
    Unfold(Times2(a));
    TimesAdds(Times2(a), a);
    DiagonalCancels(a, Times2(a), Times4(a), Times8(a), Times2(Times8(a)));
  }

  lemma SecondCoefficient(a: bv8)
    ensures Sum4(TimesE(Times3(a)), TimesB(Times2(a)), TimesD(a), Times9(a)) == 0
  {
    hide *;
    Unfold(a);
    Unfold(Times2(a));
    TimesAdds(Times2(a), a);
    SecondCancels(a, Times2(a), Times4(a), Times8(a), Times2(Times8(a)));
  }

  lemma ThirdCoefficient(a: bv8)
    ensures Sum4(TimesE(a), TimesB(Times3(a)), TimesD(Times2(a)), Times9(a)) == 0
  {
    hide *;
    Unfold(a);
    Unfold(Times2(a));
    TimesAdds(Times2(a), a);
    ThirdCancels(a, Times2(a), Times4(a), Times8(a), Times2(Times8(a)));
  }

  lemma FourthCoefficient(a: bv8)
    ensures Sum4(TimesE(a), TimesB(a), TimesD(Times3(a)), Times9(Times2(a))) == 0
  {
    hide *;
    Unfold(a);
    Unfold(Times2(a));
    TimesAdds(Times2(a), a);
    FourthCancels(a, Times2(a), Times4(a), Times8(a), Times2(Times8(a)));
  }

  lemma Transpose(a: Col, b: Col, c: Col, d: Col)
    ensures Sum4(Sum4(a.b0, a.b1, a.b2, a.b3), Sum4(b.b0, b.b1, b.b2, b.b3), Sum4(c.b0, c.b1, c.b2, c.b3), Sum4(d.b0, d.b1, d.b2, d.b3))
         == Sum4(Sum4(a.b0, b.b0, c.b0, d.b0), Sum4(a.b1, b.b1, c.b1, d.b1), Sum4(a.b2, b.b2, c.b2, d.b2), Sum4(a.b3, b.b3, c.b3, d.b3))
  {
    hide *;
    SplitSum4(Sum4(a.b0, a.b1, a.b2, a.b3), Sum4(b.b0, b.b1, b.b2, b.b3), Sum4(c.b0, c.b1, c.b2, c.b3), Sum4(d.b0, d.b1, d.b2, d.b3));
    Sum4Adds(a.b0, a.b1, a.b2, a.b3, b.b0, b.b1, b.b2, b.b3);
    Sum4Adds(c.b0, c.b1, c.b2, c.b3, d.b0, d.b1, d.b2, d.b3);
    Sum4Adds(Sum(a.b0, b.b0), Sum(a.b1, b.b1), Sum(a.b2, b.b2), Sum(a.b3, b.b3),
             Sum(c.b0, d.b0), Sum(c.b1, d.b1), Sum(c.b2, d.b2), Sum(c.b3, d.b3));
    SplitSum4(a.b0, b.b0, c.b0, d.b0);
    SplitSum4(a.b1, b.b1, c.b1, d.b1);
    SplitSum4(a.b2, b.b2, c.b2, d.b2);
    SplitSum4(a.b3, b.b3, c.b3, d.b3);
  }

  lemma SumZeros(a: bv8)
    ensures Sum4(a, 0, 0, 0) == a
  {}

  lemma InvMixMixFirst(x: Col)
    ensures InvMix(Mix(x)).b0 == x.b0
  {
    hide Sum, Sum4, Times2, Times3, Times9, TimesB, TimesD, TimesE;
    var Col(a, b, c, d) := x;
    TimesAddsFour(Times2(a), Times3(b), c, d);
    TimesAddsFour(a, Times2(b), Times3(c), d);
    TimesAddsFour(a, b, Times2(c), Times3(d));
    TimesAddsFour(Times3(a), b, c, Times2(d));
    Transpose(Col(TimesE(Times2(a)), TimesE(Times3(b)), TimesE(c), TimesE(d)),
              Col(TimesB(a), TimesB(Times2(b)), TimesB(Times3(c)), TimesB(d)),
              Col(TimesD(a), TimesD(b), TimesD(Times2(c)), TimesD(Times3(d))),
              Col(Times9(Times3(a)), Times9(b), Times9(c), Times9(Times2(d))));
    DiagonalCoefficient(a);
    SecondCoefficient(b);
    ThirdCoefficient(c);
    FourthCoefficient(d);
    SumZeros(a);
  }

  function Rotate(x: Col): Col {
    Col(x.b1, x.b2, x.b3, x.b0)
  }

  lemma RotateSum4(a: bv8, b: bv8, c: bv8, d: bv8)
    ensures Sum4(a, b, c, d) == Sum4(b, c, d, a)
  {}

  /** Both matrices are circulant. */
  lemma MixRotates(x: Col)
    ensures Mix(Rotate(x)) == Rotate(Mix(x))
  {
    hide Sum4, Times2, Times3;
    RotateSum4(Times2(x.b0), Times3(x.b1), x.b2, x.b3);
    RotateSum4(x.b0, Times2(x.b1), Times3(x.b2), x.b3);
    RotateSum4(x.b0, x.b1, Times2(x.b2), Times3(x.b3));
    RotateSum4(Times3(x.b0), x.b1, x.b2, Times2(x.b3));
  }

  lemma InvMixRotates(x: Col)
    ensures InvMix(Rotate(x)) == Rotate(InvMix(x))
  {
    hide Sum4, Times9, TimesB, TimesD, TimesE;
    RotateSum4(TimesE(x.b0), TimesB(x.b1), TimesD(x.b2), Times9(x.b3));
    RotateSum4(Times9(x.b0), TimesE(x.b1), TimesB(x.b2), TimesD(x.b3));
    RotateSum4(TimesD(x.b0), Times9(x.b1), TimesE(x.b2), TimesB(x.b3));
    RotateSum4(TimesB(x.b0), TimesD(x.b1), Times9(x.b2), TimesE(x.b3));
  }

  /** InvMixColumns undoes MixColumns. */
  lemma InvMixMix(x: Col)
    ensures InvMix(Mix(x)) == x
  {
    hide Mix, InvMix;
    var y, z, w := Rotate(x), Rotate(Rotate(x)), Rotate(Rotate(Rotate(x)));
    InvMixMixFirst(x);
    InvMixMixFirst(y);
    InvMixMixFirst(z);
    InvMixMixFirst(w);
    MixRotates(x);
    InvMixRotates(Mix(x));
    MixRotates(y);
    InvMixRotates(Mix(y));
    MixRotates(z);
    InvMixRotates(Mix(z));
  }
}
