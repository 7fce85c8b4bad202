/** Cipher block chaining (section 6.2 of NIST SP 800-38A) as AES_cbc_encrypt implements it,
    including its treatment of a partial last block. */
module AesCbc {
  import opened AesSpec
  import opened Aes

  type Bytes16 = s: seq<bv8> | |s| == 16 witness seq(16, i => 0)

  function XorBytes(a: seq<bv8>, b: seq<bv8>): (c: seq<bv8>)
    requires |a| <= |b|
    ensures |c| == |a|
  {
    seq(|a|, i requires 0 <= i < |a| => a[i] ^ b[i])
  }

  /** A partial block is exclusive-ored with the start of the IV and filled up with its rest. */
  function Fill(data: seq<bv8>, iv: Bytes16): (b: Bytes16)
    requires |data| <= 16
  {
    XorBytes(data, iv) + iv[|data|..]
  }

  /** The ciphertext; a partial last block still yields a whole block. */
  function CbcEncrypt(keys: seq<Block>, data: seq<bv8>, iv: Bytes16): seq<bv8>
    requires |keys| >= 2
    decreases |data|
  {
    hide EncryptBlock;
    if |data| >= 16 then
      var c := EncryptBlock(keys, XorBytes(data[..16], iv));
      c + CbcEncrypt(keys, data[16..], c)
    else if data == [] then []
    else EncryptBlock(keys, Fill(data, iv))
  }

  /** The IV left behind by encryption: the last block of ciphertext. */
  function EncryptIv(keys: seq<Block>, data: seq<bv8>, iv: Bytes16): Bytes16
    requires |keys| >= 2
    decreases |data|
  {
    hide EncryptBlock;
    if |data| >= 16 then EncryptIv(keys, data[16..], EncryptBlock(keys, XorBytes(data[..16], iv)))
    else if data == [] then iv
    else EncryptBlock(keys, Fill(data, iv))
  }

  /** The first n bytes of plaintext; a partial last block is read as a whole block. */
  function CbcDecrypt(dkeys: seq<Block>, data: seq<bv8>, n: nat, iv: Bytes16): seq<bv8>
    requires |dkeys| >= 2 && Whole(data, n)
    decreases n
  {
    hide DecryptBlock;
    if n >= 16 then
      XorBytes(DecryptBlock(dkeys, data[..16]), iv) + CbcDecrypt(dkeys, data[16..], n - 16, data[..16])
    else if n == 0 then []
    else XorBytes(DecryptBlock(dkeys, data[..16])[..n], iv)
  }

  /** The IV left behind by decryption: after a partial block it is the block's decryption. */
  function DecryptIv(dkeys: seq<Block>, data: seq<bv8>, n: nat, iv: Bytes16): Bytes16
    requires |dkeys| >= 2 && Whole(data, n)
    decreases n
  {
    hide DecryptBlock;
    if n >= 16 then DecryptIv(dkeys, data[16..], n - 16, data[..16])
    else if n == 0 then iv
    else DecryptBlock(dkeys, data[..16])
  }

  /** Whole blocks holding at least n bytes. */
  predicate Whole(data: seq<bv8>, n: nat) {
    |data| % 16 == 0 && n <= |data|
  }

  lemma {:induction false} CbcLength(keys: seq<Block>, data: seq<bv8>, iv: Bytes16)
    requires |keys| >= 2
    ensures |CbcEncrypt(keys, data, iv)| % 16 == 0 && |data| <= |CbcEncrypt(keys, data, iv)| < |data| + 16
    decreases |data|
  {
    hide EncryptBlock;
    if |data| >= 16 {
      CbcLength(keys, data[16..], EncryptBlock(keys, XorBytes(data[..16], iv)));
    }
  }

  lemma XorBytesTwice(a: seq<bv8>, iv: Bytes16)
    requires |a| <= 16
    ensures XorBytes(XorBytes(a, iv), iv) == a
  {}

  lemma FillUndone(a: seq<bv8>, iv: Bytes16)
    requires |a| <= 16
    ensures XorBytes(Fill(a, iv)[..|a|], iv) == a
  {
    assert Fill(a, iv)[..|a|] == XorBytes(a, iv);
    XorBytesTwice(a, iv);
  }

  /** Decrypting what was encrypted from the same IV returns the data, for every length. */
  lemma {:induction false} CbcRoundTrip(keys: seq<Block>, dkeys: seq<Block>, data: seq<bv8>, n: nat, iv: Bytes16)
    requires |keys| >= 2 && IsDecryptionSchedule(keys, dkeys) && n == |data|
    ensures Whole(CbcEncrypt(keys, data, iv), n)
    ensures CbcDecrypt(dkeys, CbcEncrypt(keys, data, iv), n, iv) == data
    decreases |data|
  {
    hide EncryptBlock, DecryptBlock, IsDecryptionSchedule, XorBytes, Fill;
    CbcLength(keys, data, iv);
    var enc := CbcEncrypt(keys, data, iv);
    if n >= 16 {
      var m := n - 16;
      var x := XorBytes(data[..16], iv);
      var c := EncryptBlock(keys, x);
      assert enc[..16] == c && enc[16..] == CbcEncrypt(keys, data[16..], c);
      CbcRoundTrip(keys, dkeys, data[16..], m, c);
      DecryptUndoesEncrypt(keys, dkeys, x);
      XorBytesTwice(data[..16], iv);
      assert data == data[..16] + data[16..];
    } else if n > 0 {
      DecryptUndoesEncrypt(keys, dkeys, Fill(data, iv));
      assert enc[..16] == enc;
      FillUndone(data, iv);
    }
  }

  // One block of each function, so that proofs need not look inside.

  lemma EncryptUnfolds(keys: seq<Block>, data: seq<bv8>, iv: Bytes16, head: seq<bv8>, tail: seq<bv8>, c: seq<bv8>)
    requires |keys| >= 2 && |data| >= 16 && head == data[..16] && tail == data[16..] && c == EncryptBlock(keys, XorBytes(head, iv))
    ensures CbcEncrypt(keys, data, iv) == c + CbcEncrypt(keys, tail, c)
    ensures EncryptIv(keys, data, iv) == EncryptIv(keys, tail, c)
  {
    hide EncryptBlock, XorBytes, Fill;
  }

  lemma EncryptNothing(keys: seq<Block>, data: seq<bv8>, iv: Bytes16)
    requires |keys| >= 2 && data == []
    ensures CbcEncrypt(keys, data, iv) == [] && EncryptIv(keys, data, iv) == iv
  {
    hide EncryptBlock, XorBytes, Fill;
  }

  lemma DecryptUnfolds(dkeys: seq<Block>, data: seq<bv8>, n: nat, m: nat, iv: Bytes16, head: seq<bv8>, tail: seq<bv8>)
    requires |dkeys| >= 2 && Whole(data, n) && n == m + 16 && head == data[..16] && tail == data[16..]
    ensures Whole(tail, m)
    ensures CbcDecrypt(dkeys, data, n, iv) == XorBytes(DecryptBlock(dkeys, head), iv) + CbcDecrypt(dkeys, tail, m, head)
    ensures DecryptIv(dkeys, data, n, iv) == DecryptIv(dkeys, tail, m, head)
  {
    hide DecryptBlock, XorBytes;
  }

  lemma DecryptNothing(dkeys: seq<Block>, data: seq<bv8>, n: nat, iv: Bytes16)
    requires |dkeys| >= 2 && Whole(data, n) && n == 0
    ensures CbcDecrypt(dkeys, data, n, iv) == [] && DecryptIv(dkeys, data, n, iv) == iv
  {
    hide DecryptBlock, XorBytes;
  }

  lemma BytesAssoc(a: seq<bv8>, b: seq<bv8>, c: seq<bv8>)
    ensures a + b + c == a + (b + c)
  {}

  lemma NoBytes(a: seq<bv8>)
    ensures [] + a == a && a + [] == a
  {}

  /** Cutting a block off a + b cuts it off a. */
  lemma CutsFirst(a: seq<bv8>, b: seq<bv8>)
    requires |a| >= 16
    ensures (a + b)[..16] == a[..16] && (a + b)[16..] == a[16..] + b
  {}

  /** On whole blocks, encrypting a and then b through the updated IV is encrypting a + b. */
  lemma {:induction false} CbcEncryptChains(keys: seq<Block>, a: seq<bv8>, b: seq<bv8>, iv: Bytes16)
    requires |keys| >= 2 && |a| % 16 == 0
    ensures CbcEncrypt(keys, a + b, iv) == CbcEncrypt(keys, a, iv) + CbcEncrypt(keys, b, EncryptIv(keys, a, iv))
    ensures EncryptIv(keys, a + b, iv) == EncryptIv(keys, b, EncryptIv(keys, a, iv))
    decreases |a|
  {
    hide *;
    if a == [] {
      NoBytes(b);
      EncryptNothing(keys, a, iv);
      NoBytes(CbcEncrypt(keys, b, iv));
    } else {
      var head, tail := a[..16], a[16..];
      var c := EncryptBlock(keys, XorBytes(head, iv));
      CutsFirst(a, b);
      EncryptUnfolds(keys, a + b, iv, head, tail + b, c);
      EncryptUnfolds(keys, a, iv, head, tail, c);
      CbcEncryptChains(keys, tail, b, c);
      BytesAssoc(c, CbcEncrypt(keys, tail, c), CbcEncrypt(keys, b, EncryptIv(keys, tail, c)));
    }
  }

  /** The same for decryption. */
  lemma {:induction false} CbcDecryptChains(dkeys: seq<Block>, a: seq<bv8>, n: nat, b: seq<bv8>, m: nat, k: nat, iv: Bytes16)
    requires |dkeys| >= 2 && |a| == n && n % 16 == 0 && Whole(b, m) && k == n + m
    ensures Whole(a + b, k)
    ensures CbcDecrypt(dkeys, a + b, k, iv) == CbcDecrypt(dkeys, a, n, iv) + CbcDecrypt(dkeys, b, m, DecryptIv(dkeys, a, n, iv))
    ensures DecryptIv(dkeys, a + b, k, iv) == DecryptIv(dkeys, b, m, DecryptIv(dkeys, a, n, iv))
    decreases n
  {
    hide *;
    WholeJoins(a, n, b, m, k);
    if n == 0 {
      assert a == [];
      NoBytes(b);
      DecryptNothing(dkeys, a, n, iv);
      NoBytes(CbcDecrypt(dkeys, b, m, iv));
    } else {
      var head, tail := a[..16], a[16..];
      var n', k' := n - 16, k - 16;
      CutsFirst(a, b);
      DecryptUnfolds(dkeys, a + b, k, k', iv, head, tail + b);
      DecryptUnfolds(dkeys, a, n, n', iv, head, tail);
      CbcDecryptChains(dkeys, tail, n', b, m, k', head);
      BytesAssoc(XorBytes(DecryptBlock(dkeys, head), iv), CbcDecrypt(dkeys, tail, n', head), CbcDecrypt(dkeys, b, m, DecryptIv(dkeys, tail, n', head)));
    }
  }

  lemma WholeJoins(a: seq<bv8>, n: nat, b: seq<bv8>, m: nat, k: nat)
    requires |a| == n && n % 16 == 0 && Whole(b, m) && k == n + m
    ensures Whole(a, n) && Whole(a + b, k)
  {}

  /** On whole blocks both directions leave the same IV. */
  lemma {:induction false} CbcIvsAgree(keys: seq<Block>, dkeys: seq<Block>, data: seq<bv8>, n: nat, iv: Bytes16)
    requires |keys| >= 2 && |dkeys| >= 2 && n == |data| && n % 16 == 0
    ensures Whole(CbcEncrypt(keys, data, iv), n)
    ensures DecryptIv(dkeys, CbcEncrypt(keys, data, iv), n, iv) == EncryptIv(keys, data, iv)
    decreases n
  {
    hide EncryptBlock, DecryptBlock, XorBytes;
    CbcLength(keys, data, iv);
    if n > 0 {
      var m := n - 16;
      var c := EncryptBlock(keys, XorBytes(data[..16], iv));
      var enc := CbcEncrypt(keys, data, iv);
      assert enc[..16] == c && enc[16..] == CbcEncrypt(keys, data[16..], c);
      CbcIvsAgree(keys, dkeys, data[16..], m, c);
    }
  }

  /** The cipher input of a partial last block. */
  function PartialInput(keys: seq<Block>, data: seq<bv8>, iv: Bytes16): Bytes16
    requires |keys| >= 2
    decreases |data|
  {
    hide EncryptBlock;
    if |data| >= 16 then PartialInput(keys, data[16..], EncryptBlock(keys, XorBytes(data[..16], iv)))
    else Fill(data, iv)
  }

  /** After a partial block the two directions leave different IVs, unless the cipher happens to
      map the filled block to itself. */
  lemma {:induction false} CbcIvsAfterPartial(keys: seq<Block>, dkeys: seq<Block>, data: seq<bv8>, n: nat, iv: Bytes16)
    requires |keys| >= 2 && IsDecryptionSchedule(keys, dkeys) && n == |data| && n % 16 != 0
    ensures Whole(CbcEncrypt(keys, data, iv), n)
    ensures EncryptIv(keys, data, iv) == EncryptBlock(keys, PartialInput(keys, data, iv))
    ensures DecryptIv(dkeys, CbcEncrypt(keys, data, iv), n, iv) == PartialInput(keys, data, iv)
    decreases n
  {
    hide EncryptBlock, DecryptBlock, IsDecryptionSchedule, XorBytes, Fill;
    CbcLength(keys, data, iv);
    var enc := CbcEncrypt(keys, data, iv);
    if n >= 16 {
      var m := n - 16;
      var c := EncryptBlock(keys, XorBytes(data[..16], iv));
      assert enc[..16] == c && enc[16..] == CbcEncrypt(keys, data[16..], c);
      CbcIvsAfterPartial(keys, dkeys, data[16..], m, c);
    } else {
      DecryptUndoesEncrypt(keys, dkeys, Fill(data, iv));
      assert enc[..16] == enc;
    }
  }

  // ----- in place, over arrays

  method XorBlock(a: seq<bv8>, b: seq<bv8>) returns (c: seq<bv8>)
    requires |a| <= |b|
    ensures c == XorBytes(a, b)
  {
    c := [];
    for n := 0 to |a|
      invariant |c| == n && forall k :: 0 <= k < n ==> c[k] == a[k] ^ b[k]
    {
      c := c + [a[n] ^ b[n]];
    }
  }

  /** memcpy of s to a position of an array. */
  method CopyTo(a: array<bv8>, pos: nat, s: seq<bv8>)
    requires pos + |s| <= a.Length
    modifies a
    ensures a[pos..pos + |s|] == s
    ensures forall k :: 0 <= k < a.Length && !(pos <= k < pos + |s|) ==> a[k] == old(a[k])
  {
    for n := 0 to |s|
      invariant a[pos..pos + n] == s[..n]
      invariant forall k :: 0 <= k < a.Length && !(pos <= k < pos + n) ==> a[k] == old(a[k])
    {
      a[pos + n] := s[n];
    }
  }

  /** What the key object offers for a whole run. */
  ghost predicate UsableKey(key: Key)
    reads key, key.rdKey
  {
    key.rdKey.Length == 60 && key.rounds % 2 == 0 && 2 <= key.rounds <= 14
  }

  ghost function KeysOf(key: Key): (keys: seq<Block>)
    requires UsableKey(key)
    reads key, key.rdKey
    ensures |keys| >= 2
  {
    Schedule(key.rdKey[..], key.rounds)
  }

  /** One block in place: n bytes of input, filled up from the IV, encrypted to out and to ivec. */
  method EncryptOne(key: Key, input: array<bv8>, out: array<bv8>, pos: nat, n: nat, ivec: array<bv8>)
    requires UsableKey(key) && ivec.Length == 16 && ivec != input && ivec != out
    requires n <= 16 && pos + n <= input.Length && pos + 16 <= out.Length
    modifies out, ivec
    ensures UsableKey(key) && KeysOf(key) == old(KeysOf(key))
    ensures ivec[..] == EncryptBlock(old(KeysOf(key)), Fill(old(input[pos..pos + n]), old(ivec[..])))
    ensures out[pos..pos + 16] == ivec[..]
    ensures forall k :: 0 <= k < out.Length && !(pos <= k < pos + 16) ==> out[k] == old(out[k])
  {
    hide Cipher, Schedule;
    var head := XorBlock(input[pos..pos + n], ivec[..]);
    var c := key.Encrypt(head + ivec[n..]);
    CopyTo(out, pos, c);
    CopyTo(ivec, 0, c);
    assert ivec[..] == ivec[0..16];
  }

  lemma FillWhole(a: seq<bv8>, iv: Bytes16)
    requires |a| == 16
    ensures Fill(a, iv) == XorBytes(a, iv)
  {}

  /** Encryption done up to pos: what is written and what remains make up the whole. */
  ghost predicate EncryptedUpTo(keys: seq<Block>, data: seq<bv8>, iv0: Bytes16, pos: nat, written: seq<bv8>, iv: Bytes16)
    requires |keys| >= 2
  {
    && pos <= |data| && |written| == pos
    && CbcEncrypt(keys, data, iv0) == written + CbcEncrypt(keys, data[pos..], iv)
    && EncryptIv(keys, data, iv0) == EncryptIv(keys, data[pos..], iv)
  }

  lemma EncryptStarts(keys: seq<Block>, data: seq<bv8>, iv: Bytes16)
    requires |keys| >= 2
    ensures EncryptedUpTo(keys, data, iv, 0, [], iv)
  {
    hide CbcEncrypt, EncryptIv;
    assert data[0..] == data && [] + CbcEncrypt(keys, data, iv) == CbcEncrypt(keys, data, iv);
  }

  lemma EncryptAdvances(keys: seq<Block>, data: seq<bv8>, iv0: Bytes16, pos: nat, q: nat, written: seq<bv8>, iv: Bytes16, c: Bytes16)
    requires |keys| >= 2 && EncryptedUpTo(keys, data, iv0, pos, written, iv) && pos + 16 == q <= |data|
    requires c == EncryptBlock(keys, Fill(data[pos..q], iv))
    ensures EncryptedUpTo(keys, data, iv0, q, written + c, c)
  {
    hide EncryptBlock, XorBytes, Fill, CbcEncrypt, EncryptIv;
    FillWhole(data[pos..q], iv);
    assert data[pos..][..16] == data[pos..q] && data[pos..][16..] == data[q..];
    EncryptUnfolds(keys, data[pos..], iv, data[pos..q], data[q..], c);
    BytesAssoc(written, c, CbcEncrypt(keys, data[q..], c));
  }

  lemma EncryptEnds(keys: seq<Block>, data: seq<bv8>, iv0: Bytes16, pos: nat, written: seq<bv8>, iv: Bytes16, c: Bytes16)
    requires |keys| >= 2 && EncryptedUpTo(keys, data, iv0, pos, written, iv) && pos < |data| < pos + 16
    requires c == EncryptBlock(keys, Fill(data[pos..], iv))
    ensures CbcEncrypt(keys, data, iv0) == written + c && EncryptIv(keys, data, iv0) == c
  {
    hide EncryptBlock, Fill;
  }

  /** The loop over whole blocks. */
  method EncryptBlocks(key: Key, input: array<bv8>, out: array<bv8>, length: nat, ivec: array<bv8>) returns (pos: nat)
    requires UsableKey(key) && ivec.Length == 16 && ivec != input && ivec != out
    requires length <= input.Length && (length + 15) / 16 * 16 <= out.Length
    modifies out, ivec
    ensures UsableKey(key) && KeysOf(key) == old(KeysOf(key))
    ensures pos <= length < pos + 16 && pos % 16 == 0
    ensures forall k :: pos <= k < length ==> input[k] == old(input[k])
    ensures forall k :: pos <= k < out.Length ==> out[k] == old(out[k])
    ensures EncryptedUpTo(KeysOf(key), old(input[..length]), old(ivec[..]), pos, out[..pos], ivec[..])
  {
    hide KeysOf, EncryptBlock, XorBytes, Fill, CbcEncrypt, EncryptIv;
    ghost var keys, data, iv0 := KeysOf(key), input[..length], ivec[..];
    pos := 0;
    EncryptStarts(keys, data, iv0);
    assert out[..0] == [];
    while length - pos >= 16
      invariant 0 <= pos <= length && pos % 16 == 0
      invariant UsableKey(key) && KeysOf(key) == keys
      invariant forall k :: pos <= k < length ==> input[k] == data[k]
      invariant forall k :: pos <= k < out.Length ==> out[k] == old(out[k])
      invariant EncryptedUpTo(keys, data, iv0, pos, out[..pos], ivec[..])
    {
      var q := pos + 16;
      ghost var written, iv := out[..pos], ivec[..];
      assert input[pos..q] == data[pos..q];
      EncryptOne(key, input, out, pos, 16, ivec);
      assert out[..pos] == written && out[..q] == out[..pos] + out[pos..q];
      EncryptAdvances(keys, data, iv0, pos, q, written, iv, ivec[..]);
      pos := q;
    }
  }

  /** AES_cbc_encrypt with enc set; in and out may be the same buffer. */
  method Encrypt(key: Key, input: array<bv8>, out: array<bv8>, length: nat, ivec: array<bv8>)
    requires UsableKey(key) && ivec.Length == 16 && ivec != input && ivec != out
    requires length <= input.Length && (length + 15) / 16 * 16 <= out.Length
    modifies out, ivec
    ensures UsableKey(key) && KeysOf(key) == old(KeysOf(key))
    ensures var c := CbcEncrypt(old(KeysOf(key)), old(input[..length]), old(ivec[..]));
      |c| <= out.Length && out[..|c|] == c && out[|c|..] == old(out[|c|..])
    ensures ivec[..] == EncryptIv(old(KeysOf(key)), old(input[..length]), old(ivec[..]))
  {
    hide KeysOf, EncryptBlock, XorBytes, Fill, CbcEncrypt, EncryptIv;
    ghost var keys, data, iv0 := KeysOf(key), input[..length], ivec[..];
    var pos := EncryptBlocks(key, input, out, length, ivec);
    ghost var written, iv := out[..pos], ivec[..];
    if pos < length {
      assert input[pos..length] == data[pos..];
      EncryptOne(key, input, out, pos, length - pos, ivec);
      EncryptEnds(keys, data, iv0, pos, written, iv, ivec[..]);
      assert out[..pos] == written && out[..pos + 16] == out[..pos] + out[pos..pos + 16];
    } else {
      Finished(keys, data, iv0, written, iv);
    }
  }

  lemma Finished(keys: seq<Block>, data: seq<bv8>, iv0: Bytes16, written: seq<bv8>, iv: Bytes16)
    requires |keys| >= 2 && EncryptedUpTo(keys, data, iv0, |data|, written, iv)
    ensures CbcEncrypt(keys, data, iv0) == written && EncryptIv(keys, data, iv0) == iv
  {
    assert written + [] == written;
  }

  /** One block decrypted in place, n bytes of it written; after a whole block the IV is the
      ciphertext, after a partial one its decryption. */
  method DecryptOne(key: Key, input: array<bv8>, out: array<bv8>, pos: nat, n: nat, ivec: array<bv8>)
    requires UsableKey(key) && ivec.Length == 16 && ivec != input && ivec != out
    requires 0 < n <= 16 && pos + 16 <= input.Length && pos + n <= out.Length
    modifies out, ivec
    ensures UsableKey(key) && KeysOf(key) == old(KeysOf(key))
    ensures out[pos..pos + n] == XorBytes(DecryptBlock(old(KeysOf(key)), old(input[pos..pos + 16]))[..n], old(ivec[..]))
    ensures ivec[..] == if n == 16 then old(input[pos..pos + 16]) else DecryptBlock(old(KeysOf(key)), old(input[pos..pos + 16]))
    ensures forall k :: 0 <= k < out.Length && !(pos <= k < pos + n) ==> out[k] == old(out[k])
  {
    hide EqInvCipher, Schedule;
    var tmp := input[pos..pos + 16];
    var plain := key.Decrypt(tmp);
    var x := XorBlock(plain[..n], ivec[..]);
    CopyTo(out, pos, x);
    CopyTo(ivec, 0, if n == 16 then tmp else plain);
    assert ivec[..] == ivec[0..16];
  }

  /** Decryption of `data` done up to pos. */
  ghost predicate DecryptedUpTo(dkeys: seq<Block>, data: seq<bv8>, n: nat, iv0: Bytes16, pos: nat, left: nat, written: seq<bv8>, iv: Bytes16)
    requires |dkeys| >= 2 && Whole(data, n)
  {
    && pos + left == n && pos % 16 == 0 && |written| == pos
    && CbcDecrypt(dkeys, data, n, iv0) == written + CbcDecrypt(dkeys, data[pos..], left, iv)
    && DecryptIv(dkeys, data, n, iv0) == DecryptIv(dkeys, data[pos..], left, iv)
  }

  lemma DecryptStarts(dkeys: seq<Block>, data: seq<bv8>, n: nat, iv: Bytes16)
    requires |dkeys| >= 2 && Whole(data, n)
    ensures DecryptedUpTo(dkeys, data, n, iv, 0, n, [], iv)
  {
    hide CbcDecrypt, DecryptIv;
    assert data[0..] == data && [] + CbcDecrypt(dkeys, data, n, iv) == CbcDecrypt(dkeys, data, n, iv);
  }

  lemma DecryptAdvances(dkeys: seq<Block>, data: seq<bv8>, n: nat, iv0: Bytes16, pos: nat, left: nat, q: nat, left': nat,
                        written: seq<bv8>, iv: Bytes16, head: Bytes16, plain: Bytes16)
    requires |dkeys| >= 2 && Whole(data, n) && left >= 16 && q == pos + 16 <= |data| && left == left' + 16
    requires head == data[pos..q] && plain == DecryptBlock(dkeys, head)
    requires DecryptedUpTo(dkeys, data, n, iv0, pos, left, written, iv)
    ensures DecryptedUpTo(dkeys, data, n, iv0, q, left', written + XorBytes(plain, iv), head)
  {
    hide DecryptBlock, XorBytes, CbcDecrypt, DecryptIv;
    assert data[pos..][..16] == head && data[pos..][16..] == data[q..];
    DecryptUnfolds(dkeys, data[pos..], left, left', iv, head, data[q..]);
    BytesAssoc(written, XorBytes(plain, iv), CbcDecrypt(dkeys, data[q..], left', head));
  }

  lemma DecryptEnds(dkeys: seq<Block>, data: seq<bv8>, n: nat, iv0: Bytes16, pos: nat, left: nat, q: nat, written: seq<bv8>, iv: Bytes16,
                    head: Bytes16, plain: Bytes16)
    requires |dkeys| >= 2 && Whole(data, n) && 0 < left < 16 && q == pos + 16 <= |data|
    requires head == data[pos..q] && plain == DecryptBlock(dkeys, head)
    requires DecryptedUpTo(dkeys, data, n, iv0, pos, left, written, iv)
    ensures CbcDecrypt(dkeys, data, n, iv0) == written + XorBytes(plain[..left], iv)
    ensures DecryptIv(dkeys, data, n, iv0) == plain
  {
    hide DecryptBlock, XorBytes;
    assert data[pos..][..16] == head;
  }

  lemma DecryptFinished(dkeys: seq<Block>, data: seq<bv8>, n: nat, iv0: Bytes16, left: nat, written: seq<bv8>, iv: Bytes16)
    requires |dkeys| >= 2 && Whole(data, n) && left == 0 && DecryptedUpTo(dkeys, data, n, iv0, n, left, written, iv)
    ensures CbcDecrypt(dkeys, data, n, iv0) == written && DecryptIv(dkeys, data, n, iv0) == iv
  {
    hide CbcDecrypt, DecryptIv;
    DecryptNothing(dkeys, data[n..], left, iv);
    NoBytes(written);
  }

  function Block16(data: seq<bv8>, pos: nat, q: nat): (b: Bytes16)
    requires q == pos + 16 <= |data|
    ensures b == data[pos..q]
  {
    data[pos..q]
  }

  lemma NextBlockFits(pos: nat, left: nat, length: nat, total: nat)
    requires pos + left == length <= total && pos % 16 == 0 && total % 16 == 0
    ensures left > 0 ==> pos + 16 <= total
  {}

  /** The loop over whole blocks. */
  method DecryptBlocks(key: Key, input: array<bv8>, out: array<bv8>, length: nat, total: nat, ivec: array<bv8>)
    returns (pos: nat, left: nat)
    requires UsableKey(key) && ivec.Length == 16 && ivec != input && ivec != out
    requires total <= input.Length && length <= out.Length && Whole(input[..total], length)
    modifies out, ivec
    ensures UsableKey(key) && KeysOf(key) == old(KeysOf(key))
    ensures pos + left == length && left < 16 && Whole(old(input[..total]), length) && (left > 0 ==> pos + 16 <= total)
    ensures forall k :: pos <= k < total ==> input[k] == old(input[k])
    ensures forall k :: pos <= k < out.Length ==> out[k] == old(out[k])
    ensures DecryptedUpTo(KeysOf(key), old(input[..total]), length, old(ivec[..]), pos, left, out[..pos], ivec[..])
  {
    hide KeysOf, DecryptBlock, XorBytes, CbcDecrypt, DecryptIv;
    ghost var keys, data, iv0 := KeysOf(key), input[..total], ivec[..];
    pos, left := 0, length;
    DecryptStarts(keys, data, length, iv0);
    assert out[..0] == [];
    while left >= 16
      invariant pos + left == length
      invariant UsableKey(key) && KeysOf(key) == keys
      invariant forall k :: pos <= k < total ==> input[k] == data[k]
      invariant forall k :: pos <= k < out.Length ==> out[k] == old(out[k])
      invariant DecryptedUpTo(keys, data, length, iv0, pos, left, out[..pos], ivec[..])
    {
      var q, left' := pos + 16, left - 16;
      ghost var written, iv := out[..pos], ivec[..];
      assert input[pos..q] == data[pos..q];
      DecryptOne(key, input, out, pos, 16, ivec);
      ghost var head := data[pos..q];
      ghost var plain := DecryptBlock(keys, head);
      assert plain[..16] == plain;
      DecryptAdvances(keys, data, length, iv0, pos, left, q, left', written, iv, head, plain);
      assert out[..pos] == written && out[..q] == out[..pos] + out[pos..q];
      pos, left := q, left';
    }
    NextBlockFits(pos, left, length, total);
  }

  /** AES_cbc_encrypt with enc clear; in and out may be the same buffer.  `total` is length
      rounded up to whole blocks, which is how much ciphertext is read. */
  method Decrypt(key: Key, input: array<bv8>, out: array<bv8>, length: nat, total: nat, ivec: array<bv8>)
    requires UsableKey(key) && ivec.Length == 16 && ivec != input && ivec != out
    requires total == (length + 15) / 16 * 16 <= input.Length && length <= out.Length
    modifies out, ivec
    ensures UsableKey(key) && KeysOf(key) == old(KeysOf(key))
    ensures Whole(old(input[..total]), length)
    ensures var p := CbcDecrypt(old(KeysOf(key)), old(input[..total]), length, old(ivec[..]));
      |p| == length && out[..length] == p && out[length..] == old(out[length..])
    ensures ivec[..] == DecryptIv(old(KeysOf(key)), old(input[..total]), length, old(ivec[..]))
  {
    hide KeysOf, DecryptBlock, XorBytes, CbcDecrypt, DecryptIv;
    ghost var keys, data, iv0 := KeysOf(key), input[..total], ivec[..];
    assert Whole(data, length);
    var pos, left := DecryptBlocks(key, input, out, length, total, ivec);
    ghost var written, iv, q := out[..pos], ivec[..], pos + 16;
    if left == 0 {
      DecryptFinished(keys, data, length, iv0, left, written, iv);
    } else {
      assert pos + 16 == q <= |data|;
      ghost var head := Block16(data, pos, q);
      DecryptEnds(keys, data, length, iv0, pos, left, q, written, iv, head, DecryptBlock(keys, head));
      assert input[pos..q] == head;
      DecryptOne(key, input, out, pos, left, ivec);
      assert out[..pos] == written && out[..length] == out[..pos] + out[pos..length];
    }
  }
}
