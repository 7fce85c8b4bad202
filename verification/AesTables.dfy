/** The combined tables of the implementation and what one lookup step computes. */
module AesTables {
  import opened Gf256
  import opened AesSpec

  // ----- words and bytes

  /** GETU32 of the four bytes of a column. */
  function ToWord(c: Col): bv32 {
    ((c.b0 as bv32) << 24) | ((c.b1 as bv32) << 16) | ((c.b2 as bv32) << 8) | (c.b3 as bv32)
  }

  function Byte0(w: bv32): bv8 {
    (w >> 24) as bv8
  }

  function Byte1(w: bv32): bv8 {
    ((w >> 16) & 0xff) as bv8
  }

  function Byte2(w: bv32): bv8 {
    ((w >> 8) & 0xff) as bv8
  }

  function Byte3(w: bv32): bv8 {
    (w & 0xff) as bv8
  }

  function ColOf(w: bv32): Col {
    Col(Byte0(w), Byte1(w), Byte2(w), Byte3(w))
  }

  lemma ColOfToWord(c: Col)
    ensures ColOf(ToWord(c)) == c
  {}

  function Xor(v: bv32, w: bv32): bv32 {
    v ^ w
  }

  lemma ColOfXor(v: bv32, w: bv32)
    ensures ColOf(Xor(v, w)) == XorCol(ColOf(v), ColOf(w))
  {}

  // ----- the tables, by the relations they are stated to satisfy

  function Te0(x: bv8): bv32 {
    ToWord(Col(Times2(Sbox(x)), Sbox(x), Sbox(x), Times3(Sbox(x))))
  }

  function Te1(x: bv8): bv32 {
    ToWord(Col(Times3(Sbox(x)), Times2(Sbox(x)), Sbox(x), Sbox(x)))
  }

  function Te2(x: bv8): bv32 {
    ToWord(Col(Sbox(x), Times3(Sbox(x)), Times2(Sbox(x)), Sbox(x)))
  }

  function Te3(x: bv8): bv32 {
    ToWord(Col(Sbox(x), Sbox(x), Times3(Sbox(x)), Times2(Sbox(x))))
  }

  function Te4(x: bv8): bv32 {
    ToWord(Col(Sbox(x), Sbox(x), Sbox(x), Sbox(x)))
  }

  function Td0(x: bv8): bv32 {
    ToWord(Col(TimesE(InvSbox(x)), Times9(InvSbox(x)), TimesD(InvSbox(x)), TimesB(InvSbox(x))))
  }

  function Td1(x: bv8): bv32 {
    ToWord(Col(TimesB(InvSbox(x)), TimesE(InvSbox(x)), Times9(InvSbox(x)), TimesD(InvSbox(x))))
  }

  function Td2(x: bv8): bv32 {
    ToWord(Col(TimesD(InvSbox(x)), TimesB(InvSbox(x)), TimesE(InvSbox(x)), Times9(InvSbox(x))))
  }

  function Td3(x: bv8): bv32 {
    ToWord(Col(Times9(InvSbox(x)), TimesD(InvSbox(x)), TimesB(InvSbox(x)), TimesE(InvSbox(x))))
  }

  function Td4(x: bv8): bv32 {
    ToWord(Col(InvSbox(x), InvSbox(x), InvSbox(x), InvSbox(x)))
  }

  // ----- table lookups compute the round transformations

  /** Four words exclusive-ored from the left, as the lookups are combined. */
  function XorFour(a: bv32, b: bv32, c: bv32, d: bv32): bv32 {
    Xor(Xor(Xor(a, b), c), d)
  }

  lemma ColOfXorFour(a: bv32, b: bv32, c: bv32, d: bv32)
    ensures ColOf(XorFour(a, b, c, d)) == XorCol(XorCol(XorCol(ColOf(a), ColOf(b)), ColOf(c)), ColOf(d))
  {
    hide Xor, ColOf, XorCol;
    ColOfXor(Xor(Xor(a, b), c), d);
    ColOfXor(Xor(a, b), c);
    ColOfXor(a, b);
  }

  lemma ColOfFourWords(a: Col, b: Col, c: Col, d: Col)
    ensures ColOf(XorFour(ToWord(a), ToWord(b), ToWord(c), ToWord(d))) == XorCol(XorCol(XorCol(a, b), c), d)
  {
    hide XorFour, ToWord, ColOf, XorCol;
    ColOfXorFour(ToWord(a), ToWord(b), ToWord(c), ToWord(d));
    ColOfToWord(a);
    ColOfToWord(b);
    ColOfToWord(c);
    ColOfToWord(d);
  }

  lemma SumChain(a: bv8, b: bv8, c: bv8, d: bv8)
    ensures Sum(Sum(Sum(a, b), c), d) == Sum4(a, b, c, d)
  {}

  /** One word of a full round. */
  function TeRound(s0: bv32, s1: bv32, s2: bv32, s3: bv32, k: bv32): bv32 {
    Xor(XorFour(Te0(Byte0(s0)), Te1(Byte1(s1)), Te2(Byte2(s2)), Te3(Byte3(s3))), k)
  }

  lemma TeRoundIsRound(s0: bv32, s1: bv32, s2: bv32, s3: bv32, k: bv32)
    ensures ColOf(TeRound(s0, s1, s2, s3, k))
         == XorCol(Mix(Col(Sbox(Byte0(s0)), Sbox(Byte1(s1)), Sbox(Byte2(s2)), Sbox(Byte3(s3)))), ColOf(k))
  {
    hide Sbox, ToWord, Byte0, Byte1, Byte2, Byte3, ColOf, Xor, XorFour, XorCol, Mix, Times2, Times3;
    ColOfXor(XorFour(Te0(Byte0(s0)), Te1(Byte1(s1)), Te2(Byte2(s2)), Te3(Byte3(s3))), k);
    TeWords(Sbox(Byte0(s0)), Sbox(Byte1(s1)), Sbox(Byte2(s2)), Sbox(Byte3(s3)));
  }

  lemma TeWords(y0: bv8, y1: bv8, y2: bv8, y3: bv8)
    ensures ColOf(XorFour(ToWord(Col(Times2(y0), y0, y0, Times3(y0))), ToWord(Col(Times3(y1), Times2(y1), y1, y1)),
                          ToWord(Col(y2, Times3(y2), Times2(y2), y2)), ToWord(Col(y3, y3, Times3(y3), Times2(y3)))))
         == Mix(Col(y0, y1, y2, y3))
  {
    hide ToWord, ColOf, XorFour, Sum, Sum4, Times2, Times3;
    ColOfFourWords(Col(Times2(y0), y0, y0, Times3(y0)), Col(Times3(y1), Times2(y1), y1, y1),
                   Col(y2, Times3(y2), Times2(y2), y2), Col(y3, y3, Times3(y3), Times2(y3)));
    SumChain(Times2(y0), Times3(y1), y2, y3);
    SumChain(y0, Times2(y1), Times3(y2), y3);
    SumChain(y0, y1, Times2(y2), Times3(y3));
    SumChain(Times3(y0), y1, y2, Times2(y3));
  }

  /** One word of the last round: masked S-box bytes. */
  function TeLast(t0: bv32, t1: bv32, t2: bv32, t3: bv32, k: bv32): bv32 {
    Xor(OneByteEach(Te4(Byte0(t0)), Te4(Byte1(t1)), Te4(Byte2(t2)), Te4(Byte3(t3))), k)
  }

  /** One byte from each of four words. */
  function OneByteEach(a: bv32, b: bv32, c: bv32, d: bv32): bv32 {
    XorFour(a & 0xff000000, b & 0x00ff0000, c & 0x0000ff00, d & 0x000000ff)
  }

  function Splat(y: bv8): bv32 {
    ToWord(Col(y, y, y, y))
  }

  lemma MaskByte(a: bv8)
    ensures ColOf(Splat(a) & 0xff000000) == Col(a, 0, 0, 0) && ColOf(Splat(a) & 0x00ff0000) == Col(0, a, 0, 0)
    ensures ColOf(Splat(a) & 0x0000ff00) == Col(0, 0, a, 0) && ColOf(Splat(a) & 0x000000ff) == Col(0, 0, 0, a)
  {}

  lemma UnitColumns(a: bv8, b: bv8, c: bv8, d: bv8)
    ensures XorCol(XorCol(XorCol(Col(a, 0, 0, 0), Col(0, b, 0, 0)), Col(0, 0, c, 0)), Col(0, 0, 0, d)) == Col(a, b, c, d)
  {}

  lemma MaskedBytes(a: bv8, b: bv8, c: bv8, d: bv8)
    ensures ColOf(OneByteEach(Splat(a), Splat(b), Splat(c), Splat(d)))
         == Col(a, b, c, d)
  {
    hide XorFour, Splat, ColOf, XorCol;
    ColOfXorFour(Splat(a) & 0xff000000, Splat(b) & 0x00ff0000, Splat(c) & 0x0000ff00, Splat(d) & 0x000000ff);
    MaskByte(a);
    MaskByte(b);
    MaskByte(c);
    MaskByte(d);
    UnitColumns(a, b, c, d);
  }

  lemma Te4Splats(x: bv8)
    ensures Te4(x) == Splat(Sbox(x)) && Td4(x) == Splat(InvSbox(x))
  {
    hide Sbox, InvSbox, ToWord;
  }

  lemma TeLastIsFinal(t0: bv32, t1: bv32, t2: bv32, t3: bv32, k: bv32)
    ensures ColOf(TeLast(t0, t1, t2, t3, k))
         == XorCol(Col(Sbox(Byte0(t0)), Sbox(Byte1(t1)), Sbox(Byte2(t2)), Sbox(Byte3(t3))), ColOf(k))
  {
    hide Te4, Sbox, Splat, OneByteEach, Byte0, Byte1, Byte2, Byte3, ColOf, Xor, XorCol;
    Te4Splats(Byte0(t0));
    Te4Splats(Byte1(t1));
    Te4Splats(Byte2(t2));
    Te4Splats(Byte3(t3));
    MaskedBytes(Sbox(Byte0(t0)), Sbox(Byte1(t1)), Sbox(Byte2(t2)), Sbox(Byte3(t3)));
    ColOfXor(OneByteEach(Te4(Byte0(t0)), Te4(Byte1(t1)), Te4(Byte2(t2)), Te4(Byte3(t3))), k);
  }

  /** One word of a full inverse round. */
  function TdRound(s0: bv32, s1: bv32, s2: bv32, s3: bv32, k: bv32): bv32 {
    Xor(XorFour(Td0(Byte0(s0)), Td1(Byte1(s1)), Td2(Byte2(s2)), Td3(Byte3(s3))), k)
  }

  lemma TdWords(y0: bv8, y1: bv8, y2: bv8, y3: bv8)
    ensures ColOf(XorFour(ToWord(Col(TimesE(y0), Times9(y0), TimesD(y0), TimesB(y0))),
                          ToWord(Col(TimesB(y1), TimesE(y1), Times9(y1), TimesD(y1))),
                          ToWord(Col(TimesD(y2), TimesB(y2), TimesE(y2), Times9(y2))),
                          ToWord(Col(Times9(y3), TimesD(y3), TimesB(y3), TimesE(y3)))))
         == InvMix(Col(y0, y1, y2, y3))
  {
    hide ToWord, ColOf, XorFour, Sum, Sum4, Times9, TimesB, TimesD, TimesE;
    ColOfFourWords(Col(TimesE(y0), Times9(y0), TimesD(y0), TimesB(y0)), Col(TimesB(y1), TimesE(y1), Times9(y1), TimesD(y1)),
                   Col(TimesD(y2), TimesB(y2), TimesE(y2), Times9(y2)), Col(Times9(y3), TimesD(y3), TimesB(y3), TimesE(y3)));
    SumChain(TimesE(y0), TimesB(y1), TimesD(y2), Times9(y3));
    SumChain(Times9(y0), TimesE(y1), TimesB(y2), TimesD(y3));
    SumChain(TimesD(y0), Times9(y1), TimesE(y2), TimesB(y3));
    SumChain(TimesB(y0), TimesD(y1), Times9(y2), TimesE(y3));
  }

  lemma TdRoundIsInvRound(s0: bv32, s1: bv32, s2: bv32, s3: bv32, k: bv32)
    ensures ColOf(TdRound(s0, s1, s2, s3, k))
         == XorCol(InvMix(Col(InvSbox(Byte0(s0)), InvSbox(Byte1(s1)), InvSbox(Byte2(s2)), InvSbox(Byte3(s3)))), ColOf(k))
  {
    hide InvSbox, ToWord, Byte0, Byte1, Byte2, Byte3, ColOf, Xor, XorFour, InvMix, XorCol, Times9, TimesB, TimesD, TimesE;
    ColOfXor(XorFour(Td0(Byte0(s0)), Td1(Byte1(s1)), Td2(Byte2(s2)), Td3(Byte3(s3))), k);
    TdWords(InvSbox(Byte0(s0)), InvSbox(Byte1(s1)), InvSbox(Byte2(s2)), InvSbox(Byte3(s3)));
  }

  function TdLast(t0: bv32, t1: bv32, t2: bv32, t3: bv32, k: bv32): bv32 {
    Xor(OneByteEach(Td4(Byte0(t0)), Td4(Byte1(t1)), Td4(Byte2(t2)), Td4(Byte3(t3))), k)
  }

  lemma TdLastIsFinal(t0: bv32, t1: bv32, t2: bv32, t3: bv32, k: bv32)
    ensures ColOf(TdLast(t0, t1, t2, t3, k))
         == XorCol(Col(InvSbox(Byte0(t0)), InvSbox(Byte1(t1)), InvSbox(Byte2(t2)), InvSbox(Byte3(t3))), ColOf(k))
  {
    hide Td4, InvSbox, Splat, OneByteEach, Byte0, Byte1, Byte2, Byte3, ColOf, Xor, XorCol;
    Te4Splats(Byte0(t0));
    Te4Splats(Byte1(t1));
    Te4Splats(Byte2(t2));
    Te4Splats(Byte3(t3));
    MaskedBytes(InvSbox(Byte0(t0)), InvSbox(Byte1(t1)), InvSbox(Byte2(t2)), InvSbox(Byte3(t3)));
    ColOfXor(OneByteEach(Td4(Byte0(t0)), Td4(Byte1(t1)), Td4(Byte2(t2)), Td4(Byte3(t3))), k);
  }

  /** The word the decryption schedule puts for an inner round key. */
  function InvMixWord(w: bv32): bv32 {
    XorFour(Td0(Byte3(Te4(Byte0(w)))), Td1(Byte3(Te4(Byte1(w)))), Td2(Byte3(Te4(Byte2(w)))), Td3(Byte3(Te4(Byte3(w)))))
  }

  lemma LowByteOfTe4(x: bv8)
    ensures Byte3(Te4(x)) == Sbox(x)
  {
    hide Sbox;
  }

  lemma InvMixWordIsInvMix(w: bv32)
    ensures ColOf(InvMixWord(w)) == InvMix(ColOf(w))
  {
    hide Sbox, InvSbox, ToWord, Byte0, Byte1, Byte2, Byte3, Te4, XorFour, InvMix, Times9, TimesB, TimesD, TimesE;
    var c := ColOf(w);
    LowByteOfTe4(c.b0);
    LowByteOfTe4(c.b1);
    LowByteOfTe4(c.b2);
    LowByteOfTe4(c.b3);
    InvSboxSbox(c.b0);
    InvSboxSbox(c.b1);
    InvSboxSbox(c.b2);
    InvSboxSbox(c.b3);
    TdWords(c.b0, c.b1, c.b2, c.b3);
  }

  /** The word the key expansion adds every nk words: rotated and substituted bytes. */
  function SubRotWord(temp: bv32): bv32 {
    OneByteEach(Te4(Byte1(temp)), Te4(Byte2(temp)), Te4(Byte3(temp)), Te4(Byte0(temp)))
  }

  lemma SubRotWordIsSubRot(temp: bv32)
    ensures ColOf(SubRotWord(temp)) == SubCol(Rotate(ColOf(temp)))
  {
    hide Te4, Sbox, Splat, OneByteEach, Byte0, Byte1, Byte2, Byte3;
    var y := SubCol(Rotate(ColOf(temp)));
    Te4Splats(Byte0(temp));
    Te4Splats(Byte1(temp));
    Te4Splats(Byte2(temp));
    Te4Splats(Byte3(temp));
    MaskedBytes(y.b0, y.b1, y.b2, y.b3);
  }

  /** The extra substitution of 256-bit keys. */
  function SubWord(temp: bv32): bv32 {
    OneByteEach(Te4(Byte0(temp)), Te4(Byte1(temp)), Te4(Byte2(temp)), Te4(Byte3(temp)))
  }

  lemma SubWordIsSub(temp: bv32)
    ensures ColOf(SubWord(temp)) == SubCol(ColOf(temp))
  {
    hide Te4, Sbox, Splat, OneByteEach, Byte0, Byte1, Byte2, Byte3;
    var y := SubCol(ColOf(temp));
    Te4Splats(Byte0(temp));
    Te4Splats(Byte1(temp));
    Te4Splats(Byte2(temp));
    Te4Splats(Byte3(temp));
    MaskedBytes(y.b0, y.b1, y.b2, y.b3);
  }

  // ----- four words at a time

  /** The words s0..s3 of the cipher loops. */
  datatype Quad = Quad(w0: bv32, w1: bv32, w2: bv32, w3: bv32)

  function StateOf(q: Quad): Block {
    Block(ColOf(q.w0), ColOf(q.w1), ColOf(q.w2), ColOf(q.w3))
  }

  function XorQuad(s: Quad, k: Quad): Quad {
    Quad(Xor(s.w0, k.w0), Xor(s.w1, k.w1), Xor(s.w2, k.w2), Xor(s.w3, k.w3))
  }

  function TeRounds(s: Quad, k: Quad): Quad {
    Quad(TeRound(s.w0, s.w1, s.w2, s.w3, k.w0), TeRound(s.w1, s.w2, s.w3, s.w0, k.w1),
         TeRound(s.w2, s.w3, s.w0, s.w1, k.w2), TeRound(s.w3, s.w0, s.w1, s.w2, k.w3))
  }

  function TeFinal(t: Quad, k: Quad): Quad {
    Quad(TeLast(t.w0, t.w1, t.w2, t.w3, k.w0), TeLast(t.w1, t.w2, t.w3, t.w0, k.w1),
         TeLast(t.w2, t.w3, t.w0, t.w1, k.w2), TeLast(t.w3, t.w0, t.w1, t.w2, k.w3))
  }

  function TdRounds(s: Quad, k: Quad): Quad {
    Quad(TdRound(s.w0, s.w3, s.w2, s.w1, k.w0), TdRound(s.w1, s.w0, s.w3, s.w2, k.w1),
         TdRound(s.w2, s.w1, s.w0, s.w3, k.w2), TdRound(s.w3, s.w2, s.w1, s.w0, k.w3))
  }

  function TdFinal(t: Quad, k: Quad): Quad {
    Quad(TdLast(t.w0, t.w3, t.w2, t.w1, k.w0), TdLast(t.w1, t.w0, t.w3, t.w2, k.w1),
         TdLast(t.w2, t.w1, t.w0, t.w3, k.w2), TdLast(t.w3, t.w2, t.w1, t.w0, k.w3))
  }

  lemma XorQuadAddsKey(s: Quad, k: Quad)
    ensures StateOf(XorQuad(s, k)) == AddRoundKey(StateOf(s), StateOf(k))
  {
    hide ColOf, Xor, XorCol;
    ColOfXor(s.w0, k.w0);
    ColOfXor(s.w1, k.w1);
    ColOfXor(s.w2, k.w2);
    ColOfXor(s.w3, k.w3);
  }

  /** Sixteen table lookups are one round of the cipher. */
  lemma TeRoundsIsRound(s: Quad, k: Quad)
    ensures StateOf(TeRounds(s, k)) == Round(StateOf(s), StateOf(k))
  {
    hide Sbox, TeRound, Byte0, Byte1, Byte2, Byte3, XorCol, Mix;
    TeRoundIsRound(s.w0, s.w1, s.w2, s.w3, k.w0);
    TeRoundIsRound(s.w1, s.w2, s.w3, s.w0, k.w1);
    TeRoundIsRound(s.w2, s.w3, s.w0, s.w1, k.w2);
    TeRoundIsRound(s.w3, s.w0, s.w1, s.w2, k.w3);
  }

  lemma TeFinalIsFinalRound(t: Quad, k: Quad)
    ensures StateOf(TeFinal(t, k)) == FinalRound(StateOf(t), StateOf(k))
  {
    hide Sbox, TeLast, Byte0, Byte1, Byte2, Byte3, XorCol;
    TeLastIsFinal(t.w0, t.w1, t.w2, t.w3, k.w0);
    TeLastIsFinal(t.w1, t.w2, t.w3, t.w0, k.w1);
    TeLastIsFinal(t.w2, t.w3, t.w0, t.w1, k.w2);
    TeLastIsFinal(t.w3, t.w0, t.w1, t.w2, k.w3);
  }

  /** Sixteen inverse lookups are one round of the equivalent inverse cipher. */
  lemma TdRoundsIsInvRound(s: Quad, k: Quad)
    ensures StateOf(TdRounds(s, k)) == InvRound(StateOf(s), StateOf(k))
  {
    hide InvSbox, TdRound, Byte0, Byte1, Byte2, Byte3, XorCol, InvMix;
    TdRoundIsInvRound(s.w0, s.w3, s.w2, s.w1, k.w0);
    TdRoundIsInvRound(s.w1, s.w0, s.w3, s.w2, k.w1);
    TdRoundIsInvRound(s.w2, s.w1, s.w0, s.w3, k.w2);
    TdRoundIsInvRound(s.w3, s.w2, s.w1, s.w0, k.w3);
  }

  lemma TdFinalIsInvFinalRound(t: Quad, k: Quad)
    ensures StateOf(TdFinal(t, k)) == InvFinalRound(StateOf(t), StateOf(k))
  {
    hide InvSbox, TdLast, Byte0, Byte1, Byte2, Byte3, XorCol;
    TdLastIsFinal(t.w0, t.w3, t.w2, t.w1, k.w0);
    TdLastIsFinal(t.w1, t.w0, t.w3, t.w2, k.w1);
    TdLastIsFinal(t.w2, t.w1, t.w0, t.w3, k.w2);
    TdLastIsFinal(t.w3, t.w2, t.w1, t.w0, k.w3);
  }

  function InvMixQuad(q: Quad): Quad {
    Quad(InvMixWord(q.w0), InvMixWord(q.w1), InvMixWord(q.w2), InvMixWord(q.w3))
  }

  lemma InvMixQuadIsInvMixColumns(q: Quad)
    ensures StateOf(InvMixQuad(q)) == InvMixColumns(StateOf(q))
  {
    hide ColOf, InvMixWord, InvMix;
    InvMixWordIsInvMix(q.w0);
    InvMixWordIsInvMix(q.w1);
    InvMixWordIsInvMix(q.w2);
    InvMixWordIsInvMix(q.w3);
  }
}
