/** The key schedules and the ciphers together: what is encrypted under a user key is given back by the
    decryption schedule of the same key, block by block and in chained buffers encrypted in place. */
module AesEndToEnd {
  import opened AesSpec
  import opened AesKeys
  import opened Aes
  import opened AesCbc

  predicate KeyBits(bits: int) {
    bits == 128 || bits == 192 || bits == 256
  }

  /** The round keys FIPS 197 gives for a user key. */
  ghost function UserKeys(userKey: seq<bv8>, bits: int): (keys: seq<Block>)
    requires KeyBits(bits) && 8 * |userKey| >= bits
    ensures |keys| == bits / 32 + 7
  {
    RoundKeys(KeyCols(userKey, bits / 32), bits / 32 + 6)
  }

  /** AES_set_encrypt_key and AES_set_decrypt_key on two key objects. */
  method MakeKeys(userKey: seq<bv8>, bits: int) returns (status: int, enc: Key, dec: Key)
    requires KeyBits(bits) ==> 8 * |userKey| >= bits
    ensures fresh(enc) && fresh(enc.rdKey) && fresh(dec) && fresh(dec.rdKey)
    ensures status == if KeyBits(bits) then 0 else -2
    ensures status == 0 ==> UsableKey(enc) && KeysOf(enc) == UserKeys(userKey, bits)
    ensures status == 0 ==> UsableKey(dec) && IsDecryptionSchedule(UserKeys(userKey, bits), KeysOf(dec))
  {
    hide Schedule, RoundKeys, KeyCols, IsDecryptionSchedule;
    enc := new Key();
    dec := new Key();
    status := enc.SetEncryptKey(userKey, bits);
    if status == 0 {
      status := dec.SetDecryptKey(userKey, bits);
    }
  }

  /** One block there and back. */
  method BlockThereAndBack(userKey: seq<bv8>, bits: int, input: Bytes16) returns (status: int, cipher: seq<bv8>, plain: seq<bv8>)
    requires KeyBits(bits) ==> 8 * |userKey| >= bits
    ensures status == if KeyBits(bits) then 0 else -2
    ensures status == 0 ==> cipher == EncryptBlock(UserKeys(userKey, bits), input) && plain == input
  {
    hide EncryptBlock, DecryptBlock, UserKeys, IsDecryptionSchedule;
    var enc, dec;
    status, enc, dec := MakeKeys(userKey, bits);
    if status != 0 {
      return status, [], [];
    }
    cipher := EncryptWith(enc, input);
    plain := DecryptWith(dec, cipher);
    DecryptUndoesEncrypt(UserKeys(userKey, bits), KeysOf(dec), input);
  }

  method EncryptWith(key: Key, input: Bytes16) returns (out: Bytes16)
    requires UsableKey(key)
    ensures out == EncryptBlock(KeysOf(key), input)
  {
    hide Cipher, Schedule;
    out := key.Encrypt(input);
  }

  method DecryptWith(key: Key, input: Bytes16) returns (out: Bytes16)
    requires UsableKey(key)
    ensures out == DecryptBlock(KeysOf(key), input)
  {
    hide EqInvCipher, Schedule;
    out := key.Decrypt(input);
  }

  method Copy16(iv: Bytes16) returns (a: array<bv8>)
    ensures fresh(a) && a[..] == iv && a.Length == 16
  {
    a := new bv8[16](i requires 0 <= i < 16 => iv[i]);
    assert a[..] == iv;
  }

  /** A buffer of any length encrypted in place and then decrypted in place from the same IV: the
      ciphertext is that of the chained cipher under the user key, and the data come back. */
  method BufferThereAndBack(userKey: seq<bv8>, bits: int, buf: array<bv8>, length: nat, iv: Bytes16)
    returns (status: int, cipher: seq<bv8>)
    requires KeyBits(bits) ==> 8 * |userKey| >= bits
    requires (length + 15) / 16 * 16 <= buf.Length
    modifies buf
    ensures status == if KeyBits(bits) then 0 else -2
    ensures status == 0 ==> cipher == CbcEncrypt(UserKeys(userKey, bits), old(buf[..length]), iv)
    ensures status == 0 ==> buf[..length] == old(buf[..length])
  {
    hide UserKeys, IsDecryptionSchedule, CbcEncrypt, CbcDecrypt, EncryptIv, DecryptIv, KeysOf;
    var enc, dec;
    status, enc, dec := MakeKeys(userKey, bits);
    if status != 0 {
      return status, [];
    }
    ghost var data, keys, dkeys := buf[..length], UserKeys(userKey, bits), KeysOf(dec);
    var total := (length + 15) / 16 * 16;
    CbcLength(keys, data, iv);
    CbcRoundTrip(keys, dkeys, data, length, iv);
    var ivec := Copy16(iv);
    Encrypt(enc, buf, buf, length, ivec);
    cipher := buf[..total];
    ivec := Copy16(iv);
    Decrypt(dec, buf, buf, length, total, ivec);
  }
}
