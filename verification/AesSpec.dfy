/** The cipher of FIPS 197, round by round: the cipher of section 5.1, the key expansion of
    section 5.2 and the equivalent inverse cipher of section 5.3.5. */
module AesSpec {
  import opened Gf256

  /** The state, column by column. */
  datatype Block = Block(c0: Col, c1: Col, c2: Col, c3: Col)

  // ----- section 5.1: the round transformations

  function SubCol(x: Col): Col {
    Col(Sbox(x.b0), Sbox(x.b1), Sbox(x.b2), Sbox(x.b3))
  }

  function SubBytes(s: Block): Block {
    Block(SubCol(s.c0), SubCol(s.c1), SubCol(s.c2), SubCol(s.c3))
  }

  /** Row r moves r columns to the left. */
  function ShiftRows(s: Block): Block {
    Block(Col(s.c0.b0, s.c1.b1, s.c2.b2, s.c3.b3),
          Col(s.c1.b0, s.c2.b1, s.c3.b2, s.c0.b3),
          Col(s.c2.b0, s.c3.b1, s.c0.b2, s.c1.b3),
          Col(s.c3.b0, s.c0.b1, s.c1.b2, s.c2.b3))
  }

  function MixColumns(s: Block): Block {
    Block(Mix(s.c0), Mix(s.c1), Mix(s.c2), Mix(s.c3))
  }

  function AddRoundKey(s: Block, k: Block): Block {
    Block(XorCol(s.c0, k.c0), XorCol(s.c1, k.c1), XorCol(s.c2, k.c2), XorCol(s.c3, k.c3))
  }

  function Round(s: Block, k: Block): Block {
    AddRoundKey(MixColumns(ShiftRows(SubBytes(s))), k)
  }

  function FinalRound(s: Block, k: Block): Block {
    AddRoundKey(ShiftRows(SubBytes(s)), k)
  }

  /** The state after the initial key and r full rounds. */
  function AfterRounds(input: Block, keys: seq<Block>, r: nat): Block
    requires r < |keys|
    decreases r
  {
    if r == 0 then AddRoundKey(input, keys[0])
    else Round(AfterRounds(input, keys, r - 1), keys[r])
  }

  /** The cipher with |keys| - 1 rounds. */
  function Cipher(input: Block, keys: seq<Block>): Block
    requires |keys| >= 2
  {
    FinalRound(AfterRounds(input, keys, |keys| - 2), keys[|keys| - 1])
  }

  // ----- section 5.3: the inverse transformations and the equivalent inverse cipher

  function InvSubCol(x: Col): Col {
    Col(InvSbox(x.b0), InvSbox(x.b1), InvSbox(x.b2), InvSbox(x.b3))
  }

  function InvSubBytes(s: Block): Block {
    Block(InvSubCol(s.c0), InvSubCol(s.c1), InvSubCol(s.c2), InvSubCol(s.c3))
  }

  /** Row r moves r columns to the right. */
  function InvShiftRows(s: Block): Block {
    Block(Col(s.c0.b0, s.c3.b1, s.c2.b2, s.c1.b3),
          Col(s.c1.b0, s.c0.b1, s.c3.b2, s.c2.b3),
          Col(s.c2.b0, s.c1.b1, s.c0.b2, s.c3.b3),
          Col(s.c3.b0, s.c2.b1, s.c1.b2, s.c0.b3))
  }

  function InvMixColumns(s: Block): Block {
    Block(InvMix(s.c0), InvMix(s.c1), InvMix(s.c2), InvMix(s.c3))
  }

  function InvRound(s: Block, k: Block): Block {
    AddRoundKey(InvMixColumns(InvShiftRows(InvSubBytes(s))), k)
  }

  function InvFinalRound(s: Block, k: Block): Block {
    AddRoundKey(InvShiftRows(InvSubBytes(s)), k)
  }

  function AfterInvRounds(input: Block, keys: seq<Block>, r: nat): Block
    requires r < |keys|
    decreases r
  {
    if r == 0 then AddRoundKey(input, keys[0])
    else InvRound(AfterInvRounds(input, keys, r - 1), keys[r])
  }

  function EqInvCipher(input: Block, keys: seq<Block>): Block
    requires |keys| >= 2
  {
    InvFinalRound(AfterInvRounds(input, keys, |keys| - 2), keys[|keys| - 1])
  }

  /** Round key r of the equivalent inverse cipher: the reversed schedule, with InvMixColumns
      applied to all but the first and the last. */
  function DecryptionKey(keys: seq<Block>, r: nat): Block
    requires r < |keys|
  {
    var k := keys[|keys| - 1 - r];
    if r == 0 || r == |keys| - 1 then k else InvMixColumns(k)
  }

  ghost predicate IsDecryptionSchedule(keys: seq<Block>, dkeys: seq<Block>) {
    |dkeys| == |keys| && forall r: nat :: r < |keys| ==> dkeys[r] == DecryptionKey(keys, r)
  }

  // ----- the inverse cipher inverts the cipher

  lemma InvSubSub(x: Col)
    ensures InvSubCol(SubCol(x)) == x
  {
    hide Sbox, InvSbox;
    InvSboxSbox(x.b0);
    InvSboxSbox(x.b1);
    InvSboxSbox(x.b2);
    InvSboxSbox(x.b3);
  }

  lemma InvShiftShift(s: Block)
    ensures InvShiftRows(ShiftRows(s)) == s
  {}

  lemma InvSubCommutes(s: Block)
    ensures InvSubBytes(ShiftRows(s)) == ShiftRows(InvSubBytes(s))
  {
    hide InvSbox;
  }

  lemma InvSubShiftUndone(s: Block)
    ensures InvShiftRows(InvSubBytes(ShiftRows(SubBytes(s)))) == s
  {
    hide SubCol, InvSubCol, ShiftRows, InvShiftRows;
    InvSubCommutes(SubBytes(s));
    InvSubSub(s.c0);
    InvSubSub(s.c1);
    InvSubSub(s.c2);
    InvSubSub(s.c3);
    InvShiftShift(s);
  }

  lemma XorTwice(x: Col, y: Col)
    ensures XorCol(XorCol(x, y), y) == x
  {}

  lemma AddTwice(s: Block, k: Block)
    ensures AddRoundKey(AddRoundKey(s, k), k) == s
  {
    hide XorCol;
    XorTwice(s.c0, k.c0);
    XorTwice(s.c1, k.c1);
    XorTwice(s.c2, k.c2);
    XorTwice(s.c3, k.c3);
  }

  lemma InvMixColumnsAdds(s: Block, k: Block)
    ensures InvMixColumns(AddRoundKey(s, k)) == AddRoundKey(InvMixColumns(s), InvMixColumns(k))
  {
    hide XorCol, InvMix;
    InvMixAdds(s.c0, k.c0);
    InvMixAdds(s.c1, k.c1);
    InvMixAdds(s.c2, k.c2);
    InvMixAdds(s.c3, k.c3);
  }

  lemma InvMixColumnsMix(s: Block)
    ensures InvMixColumns(MixColumns(s)) == s
  {
    hide Mix, InvMix;
    InvMixMix(s.c0);
    InvMixMix(s.c1);
    InvMixMix(s.c2);
    InvMixMix(s.c3);
  }

  /** One inverse round with the transformed key takes ShiftRows(SubBytes(Round(s, k))) back to
      ShiftRows(SubBytes(s)). */
  lemma InvRoundUndoesRound(s: Block, k: Block)
    ensures InvRound(ShiftRows(SubBytes(Round(s, k))), InvMixColumns(k)) == ShiftRows(SubBytes(s))
  {
    hide SubBytes, InvSubBytes, ShiftRows, InvShiftRows, MixColumns, InvMixColumns, AddRoundKey;
    var mixed := MixColumns(ShiftRows(SubBytes(s)));
    InvSubShiftUndone(Round(s, k));
    InvMixColumnsAdds(mixed, k);
    AddTwice(InvMixColumns(mixed), InvMixColumns(k));
    InvMixColumnsMix(ShiftRows(SubBytes(s)));
  }

  /** After r inverse rounds the state is the one the cipher had r rounds before its last. */
  lemma {:induction false} InvRoundsUndoRounds(input: Block, keys: seq<Block>, dkeys: seq<Block>, r: nat, m: nat)
    requires |keys| >= 2 && IsDecryptionSchedule(keys, dkeys) && r + m == |keys| - 2
    ensures AfterInvRounds(Cipher(input, keys), dkeys, r) == ShiftRows(SubBytes(AfterRounds(input, keys, m)))
    decreases r
  {
    hide SubBytes, ShiftRows, Round, InvRound, InvMixColumns, AddRoundKey;
    if r == 0 {
      assert dkeys[0] == DecryptionKey(keys, 0);
      AddTwice(ShiftRows(SubBytes(AfterRounds(input, keys, m))), keys[|keys| - 1]);
    } else {
      var q, n := r - 1, m + 1;
      InvRoundsUndoRounds(input, keys, dkeys, q, n);
      assert dkeys[r] == DecryptionKey(keys, r) == InvMixColumns(keys[n]);
      InvRoundUndoesRound(AfterRounds(input, keys, m), keys[n]);
    }
  }

  /** Decrypting with the transformed, reversed schedule undoes encryption. */
  lemma EqInvCipherInverts(input: Block, keys: seq<Block>, dkeys: seq<Block>)
    requires |keys| >= 2 && IsDecryptionSchedule(keys, dkeys)
    ensures EqInvCipher(Cipher(input, keys), dkeys) == input
  {
    var n := |keys| - 2;
    var last := |keys| - 1;
    hide Cipher, SubBytes, InvSubBytes, ShiftRows, InvShiftRows, AddRoundKey;
    InvRoundsUndoRounds(input, keys, dkeys, n, 0);
    InvSubShiftUndone(AfterRounds(input, keys, 0));
    assert dkeys[last] == DecryptionKey(keys, last) == keys[0];
    AddTwice(input, keys[0]);
  }
}
