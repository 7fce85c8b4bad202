/** The table-driven cipher in place: key schedules kept in an array of words, two rounds to a
    loop iteration. */
module Aes {
  import opened Gf256
  import opened AesSpec
  import opened AesKeys
  import opened AesTables

  // ----- abstraction

  function KeyBlock(rk: seq<bv32>, r: nat): Block
    requires 4 * r + 4 <= |rk|
  {
    Block(ColOf(rk[4 * r]), ColOf(rk[4 * r + 1]), ColOf(rk[4 * r + 2]), ColOf(rk[4 * r + 3]))
  }

  /** The round keys that an array of words stands for. */
  function Schedule(rk: seq<bv32>, rounds: nat): (keys: seq<Block>)
    requires 4 * rounds + 4 <= |rk|
    ensures |keys| == rounds + 1
  {
    seq(rounds + 1, r requires 0 <= r <= rounds => KeyBlock(rk, r))
  }

  function ColAt(s: seq<bv8>, i: nat): Col
    requires i + 4 <= |s|
  {
    Col(s[i], s[i + 1], s[i + 2], s[i + 3])
  }

  /** The first nk columns of a user key. */
  function KeyCols(userKey: seq<bv8>, nk: nat): (key: seq<Col>)
    requires 4 * nk <= |userKey|
    ensures |key| == nk
  {
    seq(nk, i requires 0 <= i < nk => ColAt(userKey, 4 * i))
  }

  function BlockOf(s: seq<bv8>): Block
    requires |s| == 16
  {
    Block(ColAt(s, 0), ColAt(s, 4), ColAt(s, 8), ColAt(s, 12))
  }

  function ColBytes(c: Col): (s: seq<bv8>)
    ensures |s| == 4
  {
    [c.b0, c.b1, c.b2, c.b3]
  }

  function BytesOf(b: Block): (s: seq<bv8>)
    ensures |s| == 16
  {
    ColBytes(b.c0) + ColBytes(b.c1) + ColBytes(b.c2) + ColBytes(b.c3)
  }

  lemma BlockOfBytesOf(b: Block)
    ensures BlockOf(BytesOf(b)) == b
  {}

  lemma BytesOfBlockOf(s: seq<bv8>)
    requires |s| == 16
    ensures BytesOf(BlockOf(s)) == s
  {}

  /** GETU32 of the four columns of a block. */
  function LoadQuad(s: seq<bv8>): Quad
    requires |s| == 16
  {
    Quad(ToWord(ColAt(s, 0)), ToWord(ColAt(s, 4)), ToWord(ColAt(s, 8)), ToWord(ColAt(s, 12)))
  }

  lemma LoadQuadIsBlock(s: seq<bv8>)
    requires |s| == 16
    ensures StateOf(LoadQuad(s)) == BlockOf(s)
  {
    hide ColOf, ToWord;
    ColOfToWord(ColAt(s, 0));
    ColOfToWord(ColAt(s, 4));
    ColOfToWord(ColAt(s, 8));
    ColOfToWord(ColAt(s, 12));
  }

  /** PUTU32 of four words. */
  function StoreQuad(q: Quad): seq<bv8> {
    BytesOf(StateOf(q))
  }

  // ----- one word of the key expansion

  const RCON: seq<bv32> := [
    0x01000000, 0x02000000, 0x04000000, 0x08000000, 0x10000000,
    0x20000000, 0x40000000, 0x80000000, 0x1B000000, 0x36000000
  ]

  lemma RconTable(i: nat)
    requires i < 10
    ensures ColOf(RCON[i]) == RconCol(i + 1)
  {
    assert Rcon(5) == 0x10;
    assert Rcon(8) == 0x80;
    assert Rcon(9) == 0x1b && Rcon(10) == 0x36;
  }

  lemma XorColAssociates(a: Col, b: Col, c: Col)
    ensures XorCol(XorCol(a, b), c) == XorCol(a, XorCol(b, c))
  {
    hide Sum;
    SumAssociates(a.b0, b.b0, c.b0);
    SumAssociates(a.b1, b.b1, c.b1);
    SumAssociates(a.b2, b.b2, c.b2);
    SumAssociates(a.b3, b.b3, c.b3);
  }

  /** The first word of each group: rotated, substituted, with a round constant. */
  lemma ExpandFirst(key: seq<Col>, j: nat, prev: nat, far: nat, i: nat, temp: bv32, back: bv32)
    requires 0 < |key| <= j && j % |key| == 0 && j / |key| == i + 1 && i < 10
    requires prev + 1 == j == far + |key| && ColOf(temp) == Expanded(key, prev) && ColOf(back) == Expanded(key, far)
    ensures ColOf(Xor(Xor(back, SubRotWord(temp)), RCON[i])) == Expanded(key, j)
  {
    hide ColOf, SubRotWord, Xor, XorCol, SubCol, Rotate, Rcon;
    ColOfXor(Xor(back, SubRotWord(temp)), RCON[i]);
    ColOfXor(back, SubRotWord(temp));
    SubRotWordIsSubRot(temp);
    RconTable(i);
    XorColAssociates(ColOf(back), SubCol(Rotate(ColOf(temp))), RconCol(i + 1));
  }

  lemma ExpandPlain(key: seq<Col>, j: nat, prev: nat, far: nat, temp: bv32, back: bv32)
    requires 0 < |key| <= j && j % |key| != 0 && !(|key| > 6 && j % |key| == 4)
    requires prev + 1 == j == far + |key| && ColOf(temp) == Expanded(key, prev) && ColOf(back) == Expanded(key, far)
    ensures ColOf(Xor(back, temp)) == Expanded(key, j)
  {
    hide ColOf, Xor, XorCol;
    ColOfXor(back, temp);
  }

  lemma ExpandSub(key: seq<Col>, j: nat, prev: nat, far: nat, temp: bv32, back: bv32)
    requires 6 < |key| <= j && j % |key| == 4
    requires prev + 1 == j == far + |key| && ColOf(temp) == Expanded(key, prev) && ColOf(back) == Expanded(key, far)
    ensures ColOf(Xor(back, SubWord(temp))) == Expanded(key, j)
  {
    hide ColOf, SubWord, Xor, XorCol, SubCol;
    ColOfXor(back, SubWord(temp));
    SubWordIsSub(temp);
  }

  lemma ExpandedIsSchedule(rk: seq<bv32>, key: seq<Col>, rounds: nat)
    requires 4 * rounds + 4 <= |rk| && 0 < |key|
    requires forall j: nat :: j < 4 * rounds + 4 ==> ColOf(rk[j]) == Expanded(key, j)
    ensures Schedule(rk, rounds) == RoundKeys(key, rounds)
  {
    hide ColOf, Expanded;
    forall r: nat | r <= rounds ensures KeyBlock(rk, r) == RoundKey(key, r) {}
  }

  lemma ExpandedKeyWord(key: seq<Col>, i: nat)
    requires i < |key|
    ensures Expanded(key, i) == key[i]
  {}

  /** AES_KEY: room for fifteen round keys, and the number of rounds. */
  class Key {
    const rdKey: array<bv32>
    var rounds: nat

    constructor ()
      ensures rdKey.Length == 60 && fresh(rdKey)
    {
      rdKey := new bv32[60](i => 0);
      rounds := 0;
    }

    /** The first n words are the first n columns of the expanded key. */
    ghost predicate Expanding(key: seq<Col>, n: nat)
      reads rdKey
    {
      && rdKey.Length == 60 && 0 < |key| && n <= 60
      && forall j: nat :: j < n ==> ColOf(rdKey[j]) == Expanded(key, j)
    }

    method Put(j: nat, w: bv32, ghost key: seq<Col>)
      requires j < 60 && Expanding(key, j) && ColOf(w) == Expanded(key, j)
      modifies rdKey
      ensures Expanding(key, j + 1)
    {
      hide ColOf, Expanded;
      rdKey[j] := w;
    }

    /** The first word of a group, from the word before it and the word a group back. */
    method FirstWord(j: nat, far: nat, i: nat, ghost key: seq<Col>)
      requires j < 60 && Expanding(key, j) && far + |key| == j && i < 10 && j % |key| == 0 && j / |key| == i + 1
      modifies rdKey
      ensures Expanding(key, j + 1)
    {
      hide ColOf, Expanded, SubRotWord, Xor;
      var prev: nat := j - 1;
      var temp := rdKey[prev];
      ExpandFirst(key, j, prev, far, i, temp, rdKey[far]);
      Put(j, Xor(Xor(rdKey[far], SubRotWord(temp)), RCON[i]), key);
    }

    method PlainWord(j: nat, far: nat, ghost key: seq<Col>)
      requires j < 60 && Expanding(key, j) && far + |key| == j && j % |key| != 0 && !(|key| > 6 && j % |key| == 4)
      modifies rdKey
      ensures Expanding(key, j + 1)
    {
      hide ColOf, Expanded, Xor;
      var prev: nat := j - 1;
      ExpandPlain(key, j, prev, far, rdKey[prev], rdKey[far]);
      Put(j, Xor(rdKey[far], rdKey[prev]), key);
    }

    method SubstitutedWord(j: nat, far: nat, ghost key: seq<Col>)
      requires j < 60 && Expanding(key, j) && far + |key| == j && |key| > 6 && j % |key| == 4
      modifies rdKey
      ensures Expanding(key, j + 1)
    {
      hide ColOf, Expanded, SubWord, Xor;
      var prev: nat := j - 1;
      var temp := rdKey[prev];
      ExpandSub(key, j, prev, far, temp, rdKey[far]);
      Put(j, Xor(rdKey[far], SubWord(temp)), key);
    }

    /** The 128-bit loop: four words to a round key. */
    method Expand128(ghost key: seq<Col>)
      requires |key| == 4 && Expanding(key, 4)
      modifies rdKey
      ensures Expanding(key, 44)
    {
      hide ColOf, Expanded;
      var i, p := 0, 0;
      while true
        invariant 0 <= i < 10 && p == 4 * i && Expanding(key, p + 4)
        decreases 10 - i
      {
        FirstWord(p + 4, p, i, key);
        PlainWord(p + 5, p + 1, key);
        PlainWord(p + 6, p + 2, key);
        PlainWord(p + 7, p + 3, key);
        i := i + 1;
        if i == 10 {
          return;
        }
        p := p + 4;
      }
    }

    /** The 192-bit loop: six words to a group, the last group cut short. */
    method Expand192(ghost key: seq<Col>)
      requires |key| == 6 && Expanding(key, 6)
      modifies rdKey
      ensures Expanding(key, 52)
    {
      hide ColOf, Expanded;
      var i, p := 0, 0;
      while true
        invariant 0 <= i < 8 && p == 6 * i && Expanding(key, p + 6)
        decreases 8 - i
      {
        FirstWord(p + 6, p, i, key);
        PlainWord(p + 7, p + 1, key);
        PlainWord(p + 8, p + 2, key);
        PlainWord(p + 9, p + 3, key);
        i := i + 1;
        if i == 8 {
          return;
        }
        PlainWord(p + 10, p + 4, key);
        PlainWord(p + 11, p + 5, key);
        p := p + 6;
      }
    }

    /** The second four words of a 256-bit group. */
    method SecondHalf(p: nat, ghost key: seq<Col>)
      requires |key| == 8 && p % 8 == 0 && p + 16 <= 60 && Expanding(key, p + 12)
      modifies rdKey
      ensures Expanding(key, p + 16)
    {
      hide ColOf, Expanded;
      SubstitutedWord(p + 12, p + 4, key);
      PlainWord(p + 13, p + 5, key);
      PlainWord(p + 14, p + 6, key);
      PlainWord(p + 15, p + 7, key);
    }

    /** The 256-bit loop: eight words to a group, with a second substitution. */
    method Expand256(ghost key: seq<Col>)
      requires |key| == 8 && Expanding(key, 8)
      modifies rdKey
      ensures Expanding(key, 60)
    {
      hide ColOf, Expanded;
      var i, p := 0, 0;
      while true
        invariant 0 <= i < 7 && p == 8 * i && Expanding(key, p + 8)
        decreases 7 - i
      {
        FirstWord(p + 8, p, i, key);
        PlainWord(p + 9, p + 1, key);
        PlainWord(p + 10, p + 2, key);
        PlainWord(p + 11, p + 3, key);
        i := i + 1;
        if i == 7 {
          return;
        }
        SecondHalf(p, key);
        p := p + 8;
      }
    }

    /** The first nk words are the user key itself. */
    method LoadUserKey(userKey: seq<bv8>, nk: nat)
      requires rdKey.Length == 60 && 0 < nk <= 60 && 4 * nk <= |userKey|
      modifies rdKey
      ensures Expanding(KeyCols(userKey, nk), nk)
    {
      hide ColOf, Expanded, ToWord;
      ghost var key := KeyCols(userKey, nk);
      for i := 0 to nk
        invariant Expanding(key, i)
      {
        ColOfToWord(ColAt(userKey, 4 * i));
        ExpandedKeyWord(key, i);
        Put(i, ToWord(ColAt(userKey, 4 * i)), key);
      }
    }

    /** The expansion for the key size, and the round keys it produces. */
    method ExpandKey(nk: nat, n: nat, ghost key: seq<Col>)
      requires (nk == 4 || nk == 6 || nk == 8) && n == nk + 6 && |key| == nk && Expanding(key, nk)
      modifies rdKey
      ensures Schedule(rdKey[..], n) == RoundKeys(key, n)
    {
      hide ColOf, Expanded, Schedule, RoundKeys;
      if nk == 4 {
        Expand128(key);
      } else if nk == 6 {
        Expand192(key);
      } else {
        Expand256(key);
      }
      ExpandedIsSchedule(rdKey[..], key, n);
    }

    /** AES_set_encrypt_key */
    method SetEncryptKey(userKey: seq<bv8>, bits: int) returns (status: int)
      requires rdKey.Length == 60
      requires (bits == 128 || bits == 192 || bits == 256) ==> 8 * |userKey| >= bits
      modifies this, rdKey
      ensures status == if bits == 128 || bits == 192 || bits == 256 then 0 else -2
      ensures status == 0 ==> rounds == bits / 32 + 6 && 4 * rounds + 4 <= 60
      ensures status == 0 ==> Schedule(rdKey[..], rounds) == RoundKeys(KeyCols(userKey, bits / 32), rounds)
    {
      if bits != 128 && bits != 192 && bits != 256 {
        return -2;
      }
      rounds := if bits == 128 then 10 else if bits == 192 then 12 else 14;
      hide ColOf, Expanded, Schedule, RoundKeys, KeyCols;
      LoadUserKey(userKey, bits / 32);
      ExpandKey(bits / 32, rounds, KeyCols(userKey, bits / 32));
      status := 0;
    }

    /** Four words of the schedule. */
    function KeyQuad(r: nat): Quad
      requires rdKey.Length == 60 && r < 15
      reads rdKey
    {
      Quad(rdKey[4 * r], rdKey[4 * r + 1], rdKey[4 * r + 2], rdKey[4 * r + 3])
    }

    lemma KeyQuadIsKeyBlock(r: nat)
      requires rdKey.Length == 60 && r < 15
      ensures StateOf(KeyQuad(r)) == KeyBlock(rdKey[..], r)
    {}

    method PutQuad(i: nat, q: Quad)
      requires rdKey.Length == 60 && i < 15
      modifies rdKey
      ensures KeyQuad(i) == q
      ensures forall r: nat :: r < 15 && r != i ==> KeyQuad(r) == old(KeyQuad(r))
    {
      rdKey[4 * i] := q.w0;
      rdKey[4 * i + 1] := q.w1;
      rdKey[4 * i + 2] := q.w2;
      rdKey[4 * i + 3] := q.w3;
    }

    /** Inverts the order of the round keys in place. */
    method ReverseRoundKeys(n: nat)
      requires rdKey.Length == 60 && n < 15
      modifies rdKey
      ensures forall r: nat :: r <= n ==> KeyQuad(r) == old(KeyQuad(n - r))
    {
      hide KeyQuad;
      var i, j := 0, n;
      while i < j
        invariant i + j == n && i <= j + 1
        invariant forall r: nat :: r <= n ==> KeyQuad(r) == if i <= r <= j then old(KeyQuad(r)) else old(KeyQuad(n - r))
      {
        var front, back := KeyQuad(i), KeyQuad(j);
        PutQuad(i, back);
        PutQuad(j, front);
        i, j := i + 1, j - 1;
      }
    }

    /** AES_set_decrypt_key */
    method SetDecryptKey(userKey: seq<bv8>, bits: int) returns (status: int)
      requires rdKey.Length == 60
      requires (bits == 128 || bits == 192 || bits == 256) ==> 8 * |userKey| >= bits
      modifies this, rdKey
      ensures status == if bits == 128 || bits == 192 || bits == 256 then 0 else -2
      ensures status == 0 ==> rounds == bits / 32 + 6 && 4 * rounds + 4 <= 60
      ensures status == 0 ==> IsDecryptionSchedule(RoundKeys(KeyCols(userKey, bits / 32), rounds), Schedule(rdKey[..], rounds))
    {
      status := SetEncryptKey(userKey, bits);
      if status < 0 {
        return;
      }
      InvertSchedule(RoundKeys(KeyCols(userKey, bits / 32), rounds), rounds);
    }

    /** Turns an encryption schedule into the decryption schedule. */
    method InvertSchedule(ghost keys: seq<Block>, n: nat)
      requires rdKey.Length == 60 && 0 < n < 15 && Schedule(rdKey[..], n) == keys
      modifies rdKey
      ensures IsDecryptionSchedule(keys, Schedule(rdKey[..], n))
    {
      hide KeyQuad, KeyBlock, InvMixQuad, InvMixColumns, StateOf;
      forall r: nat | r <= n ensures StateOf(KeyQuad(r)) == keys[r] {
        KeyQuadIsKeyBlock(r);
      }
      ReverseRoundKeys(n);
      for i := 1 to n
        invariant forall r: nat :: r <= n ==> KeyQuad(r) == if 0 < r < i then InvMixQuad(old(KeyQuad(n - r))) else old(KeyQuad(n - r))
      {
        PutQuad(i, InvMixQuad(KeyQuad(i)));
      }
      ghost var dkeys := Schedule(rdKey[..], n);
      forall r: nat | r < |keys| ensures dkeys[r] == DecryptionKey(keys, r) {
        var m := n - r;
        InvMixQuadIsInvMixColumns(old(KeyQuad(m)));
        KeyQuadIsKeyBlock(r);
      }
    }

    /** AES_encrypt: two rounds to an iteration, the last without MixColumns.  The whole block
        is read before any of it is written, so input and output are values. */
    method Encrypt(input: seq<bv8>) returns (out: seq<bv8>)
      requires |input| == 16 && rdKey.Length == 60 && rounds % 2 == 0 && 2 <= rounds <= 14
      ensures out == BytesOf(Cipher(BlockOf(input), Schedule(rdKey[..], rounds)))
    {
      hide ColOf, KeyQuad, KeyBlock, TeRounds, TeFinal, Round, FinalRound, AddRoundKey, BytesOf, StateOf;
      ghost var keys, block := Schedule(rdKey[..], rounds), BlockOf(input);
      var s := XorQuad(LoadQuad(input), KeyQuad(0));
      LoadQuadIsBlock(input);
      XorQuadAddsKey(LoadQuad(input), KeyQuad(0));
      KeyQuadIsKeyBlock(0);
      var r, i := rounds / 2, 0;
      while true
        invariant 0 < r && i + 2 * r == rounds
        invariant StateOf(s) == AfterRounds(block, keys, i)
        decreases r
      {
        var m, n := i + 1, i + 2;
        KeyQuadIsKeyBlock(m);
        KeyQuadIsKeyBlock(n);
        var t := TeRounds(s, KeyQuad(m));
        TeRoundsIsRound(s, KeyQuad(m));
        assert StateOf(t) == AfterRounds(block, keys, m);
        r := r - 1;
        if r == 0 {
          s := TeFinal(t, KeyQuad(n));
          TeFinalIsFinalRound(t, KeyQuad(n));
          return StoreQuad(s);
        }
        s := TeRounds(t, KeyQuad(n));
        TeRoundsIsRound(t, KeyQuad(n));
        i := n;
      }
    }

    /** AES_decrypt: the equivalent inverse cipher with the round keys in the schedule. */
    method Decrypt(input: seq<bv8>) returns (out: seq<bv8>)
      requires |input| == 16 && rdKey.Length == 60 && rounds % 2 == 0 && 2 <= rounds <= 14
      ensures out == BytesOf(EqInvCipher(BlockOf(input), Schedule(rdKey[..], rounds)))
    {
      hide ColOf, KeyQuad, KeyBlock, TdRounds, TdFinal, InvRound, InvFinalRound, AddRoundKey, BytesOf, StateOf;
      ghost var keys, block := Schedule(rdKey[..], rounds), BlockOf(input);
      var s := XorQuad(LoadQuad(input), KeyQuad(0));
      LoadQuadIsBlock(input);
      XorQuadAddsKey(LoadQuad(input), KeyQuad(0));
      KeyQuadIsKeyBlock(0);
      var r, i := rounds / 2, 0;
      while true
        invariant 0 < r && i + 2 * r == rounds
        invariant StateOf(s) == AfterInvRounds(block, keys, i)
        decreases r
      {
        var m, n := i + 1, i + 2;
        KeyQuadIsKeyBlock(m);
        KeyQuadIsKeyBlock(n);
        var t := TdRounds(s, KeyQuad(m));
        TdRoundsIsInvRound(s, KeyQuad(m));
        assert StateOf(t) == AfterInvRounds(block, keys, m);
        r := r - 1;
        if r == 0 {
          s := TdFinal(t, KeyQuad(n));
          TdFinalIsInvFinalRound(t, KeyQuad(n));
          return StoreQuad(s);
        }
        s := TdRounds(t, KeyQuad(n));
        TdRoundsIsInvRound(t, KeyQuad(n));
        i := n;
      }
    }
  }

  // ----- encryption and decryption of a block, as functions of the round keys

  function EncryptBlock(keys: seq<Block>, b: seq<bv8>): (c: seq<bv8>)
    requires |keys| >= 2 && |b| == 16
    ensures |c| == 16
  {
    BytesOf(Cipher(BlockOf(b), keys))
  }

  function DecryptBlock(dkeys: seq<Block>, c: seq<bv8>): (b: seq<bv8>)
    requires |dkeys| >= 2 && |c| == 16
    ensures |b| == 16
  {
    BytesOf(EqInvCipher(BlockOf(c), dkeys))
  }

  /** For every block and every schedule, decryption undoes encryption. */
  lemma DecryptUndoesEncrypt(keys: seq<Block>, dkeys: seq<Block>, b: seq<bv8>)
    requires |keys| >= 2 && IsDecryptionSchedule(keys, dkeys) && |b| == 16
    ensures DecryptBlock(dkeys, EncryptBlock(keys, b)) == b
  {
    hide BlockOf, BytesOf, Cipher, EqInvCipher, IsDecryptionSchedule;
    BlockOfBytesOf(Cipher(BlockOf(b), keys));
    EqInvCipherInverts(BlockOf(b), keys, dkeys);
    BytesOfBlockOf(b);
  }
}
