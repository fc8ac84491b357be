// The built-in branch of src/libhashkit/aes.cc: key folding, block splitting and padding.
module Aes {
  import opened Rijndael
  import opened KeySchedule
  import opened BlockCipher
  import opened GrowableString

  datatype Option<T> = None | Some(value: T)

  const KEY_BYTES: nat := 32
  const ROUNDS: nat := 14

  // ---------------------------------------------------------------- messages

  // The blocks of s, each encrypted on its own.
  function EncryptBlocks(rk: seq<bv32>, s: seq<bv8>): (c: seq<bv8>)
    requires |rk| >= 60 && |s| % 16 == 0
    ensures |c| == |s|
  {
    if s == [] then [] else EncryptBlock(rk, ROUNDS, s[..16]) + EncryptBlocks(rk, s[16..])
  }

  function DecryptBlocks(dk: seq<bv32>, s: seq<bv8>): (p: seq<bv8>)
    requires |dk| >= 60 && |s| % 16 == 0
    ensures |p| == |s|
  {
    if s == [] then [] else DecryptBlock(dk, ROUNDS, s[..16]) + DecryptBlocks(dk, s[16..])
  }

  function PadLength(n: nat): (k: nat)
    ensures 1 <= k <= 16 && (n + k) % 16 == 0
  {
    16 - n % 16
  }

  // k bytes of value k (section 6.3 of RFC 5652).
  function Padding(k: nat): (s: seq<bv8>)
    requires k <= 16
    ensures |s| == k && forall i :: 0 <= i < k ==> s[i] == k as bv8
  {
    seq(k, _ => k as bv8)
  }

  function EncryptMessage(rk: seq<bv32>, m: seq<bv8>): (c: seq<bv8>)
    requires |rk| >= 60
    ensures |c| == 16 * (|m| / 16 + 1)
  {
    EncryptBlocks(rk, m + Padding(PadLength(|m|)))
  }

  function DecryptMessage(dk: seq<bv32>, c: seq<bv8>): Option<seq<bv8>>
    requires |dk| >= 60
  {
    if |c| % 16 != 0 || |c| == 0 then None else
    var p := DecryptBlocks(dk, c);
    var pad := p[|p| - 1] as int;
    if pad > 16 then None else Some(p[..|p| - pad])
  }

  lemma {:induction false} DecryptBlocksInverts(dk: seq<bv32>, rk: seq<bv32>, s: seq<bv8>)
    requires |rk| >= 60 && |dk| >= 60 && |s| % 16 == 0
    requires IsInverseSchedule(dk, rk, ROUNDS)
    ensures DecryptBlocks(dk, EncryptBlocks(rk, s)) == s
  {
    hide EncryptBlock, DecryptBlock, IsInverseSchedule;
    if s != [] {
      var c, rest := EncryptBlock(rk, ROUNDS, s[..16]), EncryptBlocks(rk, s[16..]);
      assert (c + rest)[..16] == c && (c + rest)[16..] == rest;
      DecryptInvertsEncrypt(dk, rk, ROUNDS, s[..16]);
      DecryptBlocksInverts(dk, rk, s[16..]);
    }
  }

  lemma PadByteRoundTrip(k: nat)
    requires k <= 16
    ensures k as bv8 as int == k
  {
  }

  // Decryption gives back every message, whatever its length.
  lemma MessageRoundTrip(dk: seq<bv32>, rk: seq<bv32>, m: seq<bv8>)
    requires |rk| >= 60 && |dk| >= 60
    requires IsInverseSchedule(dk, rk, ROUNDS)
    ensures DecryptMessage(dk, EncryptMessage(rk, m)) == Some(m)
  {
    hide EncryptBlocks, DecryptBlocks, IsInverseSchedule;
    var k := PadLength(|m|);
    DecryptBlocksInverts(dk, rk, m + Padding(k));
    PadByteRoundTrip(k);
    assert (m + Padding(k))[..|m|] == m;
  }

  // What is encrypted: the message, followed by as many bytes as are missing to a whole block, or a whole block of
  // them, each of which is their number.
  lemma MessageMeaning(rk: seq<bv32>, m: seq<bv8>) returns (p: seq<bv8>)
    requires |rk| >= 60
    ensures |p| == 16 * (|m| / 16 + 1) && m <= p && EncryptMessage(rk, m) == EncryptBlocks(rk, p)
    ensures forall i :: |m| <= i < |p| ==> p[i] == (|p| - |m|) as bv8
  {
    hide EncryptBlocks;
    p := m + Padding(PadLength(|m|));
  }

  // Each block is encrypted where it stands, on its own.
  lemma {:induction false} BlocksApart(rk: seq<bv32>, s: seq<bv8>, i: nat)
    requires |rk| >= 60 && |s| % 16 == 0 && 16 * i + 16 <= |s|
    ensures EncryptBlocks(rk, s)[16 * i..16 * i + 16] == EncryptBlock(rk, ROUNDS, s[16 * i..16 * i + 16])
    decreases i
  {
    hide EncryptBlock;
    if i > 0 {
      BlocksApart(rk, s[16..], i - 1);
      assert s[16..][16 * (i - 1)..16 * (i - 1) + 16] == s[16 * i..16 * i + 16];
    }
  }

  // Whatever a cipher text decrypts to, its last byte says how much of it is padding; more than a block is refused.
  lemma PaddingExact(dk: seq<bv32>, rk: seq<bv32>, p: seq<bv8>)
    requires |rk| >= 60 && |dk| >= 60 && |p| % 16 == 0 && p != []
    requires IsInverseSchedule(dk, rk, ROUNDS)
    ensures var k := p[|p| - 1] as int;
            DecryptMessage(dk, EncryptBlocks(rk, p)) == if k <= 16 then Some(p[..|p| - k]) else None
  {
    hide EncryptBlocks, DecryptBlocks, IsInverseSchedule;
    DecryptBlocksInverts(dk, rk, p);
  }

  // ---------------------------------------------------------------- keys

  // The sum of key bytes i, i + 32, i + 64, ...
  function SumOfStride(key: seq<bv8>, i: nat): bv8
    decreases |key| - i
  {
    if i >= |key| then 0 else Add(key[i], SumOfStride(key, i + KEY_BYTES))
  }

  // The 256-bit key made of a key string of any length.
  function FoldedKey(key: seq<bv8>): (r: seq<bv8>)
    ensures |r| == KEY_BYTES
  {
    seq(KEY_BYTES, i requires 0 <= i => SumOfStride(key, i))
  }

  lemma {:induction false} SumOfStrideAppend(s: seq<bv8>, x: bv8, i: nat)
    ensures SumOfStride(s + [x], i)
            == if i <= |s| && (|s| - i) % KEY_BYTES == 0 then Add(SumOfStride(s, i), x) else SumOfStride(s, i)
    decreases |s| - i
  {
    hide Add;
    if i < |s| {
      SumOfStrideAppend(s, x, i + KEY_BYTES);
      AddAssociates(s[i], SumOfStride(s, i + KEY_BYTES), x);
    } else {
      AddCommutes(x, 0);
    }
  }

  // A key string of at most 32 bytes is padded with zeros; of a longer one the first 32 bytes are added to the
  // key made of the rest.
  lemma FoldMeaning(key: seq<bv8>, i: nat)
    requires i < KEY_BYTES
    ensures |key| <= 32 ==> FoldedKey(key)[i] == if i < |key| then key[i] else 0
    ensures |key| > 32 ==> FoldedKey(key)[i] == Add(key[i], FoldedKey(key[32..])[i])
  {
    hide Add;
    if |key| > 32 {
      StrideShift(key, i);
    } else if i < |key| {
      assert SumOfStride(key, i + KEY_BYTES) == 0;
      AddZero(key[i]);
    }
  }

  lemma AddZero(x: bv8)
    ensures Add(x, 0) == x
  {
  }

  lemma {:induction false} StrideShift(key: seq<bv8>, i: nat)
    requires |key| > 32
    ensures SumOfStride(key, i + 32) == SumOfStride(key[32..], i)
    decreases |key| - i
  {
    hide Add;
    if i + 32 < |key| {
      StrideShift(key, i + 32);
    }
  }

  lemma AddAssociates(x: bv8, y: bv8, z: bv8)
    ensures Add(Add(x, y), z) == Add(x, Add(y, z))
  {
    assert (x ^ y) ^ z == x ^ (y ^ z);
  }

  // The loop of aes_create_key that adds the key string into rkey, wrapping around.
  method FoldKey(key: seq<bv8>, rkey: array<bv8>)
    requires rkey.Length == KEY_BYTES
    modifies rkey
    ensures rkey[..] == FoldedKey(key)
  {
    hide Add;
    forall i | 0 <= i < rkey.Length {
      rkey[i] := 0;
    }
    var ptr := 0;
    for sptr := 0 to |key|
      invariant 0 <= ptr <= KEY_BYTES && (sptr - ptr) % KEY_BYTES == 0
      invariant forall i :: 0 <= i < KEY_BYTES ==> rkey[i] == SumOfStride(key[..sptr], i)
    {
      if ptr == KEY_BYTES {
        ptr := 0;
      }
      forall i | 0 <= i < KEY_BYTES
        ensures SumOfStride(key[..sptr + 1], i)
                == if i == ptr then Add(SumOfStride(key[..sptr], i), key[sptr]) else SumOfStride(key[..sptr], i)
      {
        assert key[..sptr + 1] == key[..sptr] + [key[sptr]];
        SumOfStrideAppend(key[..sptr], key[sptr], i);
      }
      rkey[ptr] := Add(rkey[ptr], key[sptr]);
      ptr := ptr + 1;
    }
    assert key[..|key|] == key;
  }

  // aes_key_t.
  class AesKey {
    var encodeRounds: nat
    const encodeKey: array<bv32>
    var decodeRounds: nat
    const decodeKey: array<bv32>

    ghost predicate Valid()
      reads this, encodeKey, decodeKey
    {
      && encodeKey.Length == decodeKey.Length == 60
      && encodeRounds == decodeRounds == ROUNDS
      && IsInverseSchedule(decodeKey[..], encodeKey[..], ROUNDS)
    }

    // aes_create_key once calloc has delivered.
    constructor (key: seq<bv8>)
      ensures Valid() && fresh(encodeKey) && fresh(decodeKey)
      ensures encodeKey[..] == Schedule(FoldedKey(key), 8)
    {
      encodeKey := new bv32[60];
      decodeKey := new bv32[60];
      encodeRounds, decodeRounds := 0, 0;
      new;
      hide IsInverseSchedule, KeyWord;
      var rkey := new bv8[KEY_BYTES];
      FoldKey(key, rkey);
      decodeRounds := KeySetupDec(decodeKey, rkey[..], 256);
      encodeRounds := KeySetupEnc(encodeKey, rkey[..], 256);
      ExpandedIsSchedule(encodeKey[..], rkey[..]);
    }
  }

  // aes_create_key.
  method CreateKey(key: seq<bv8>, canAllocate: bool) returns (aesKey: AesKey?)
    ensures aesKey == null <==> !canAllocate
    ensures aesKey != null ==>
              fresh(aesKey) && aesKey.Valid() && aesKey.encodeKey[..] == Schedule(FoldedKey(key), 8)
  {
    if !canAllocate {
      return null;
    }
    aesKey := new AesKey(key);
  }

  // Whatever key string it was made of, a key decrypts what it encrypted.
  lemma KeyRoundTrip(key: AesKey, m: seq<bv8>)
    requires key.Valid()
    ensures DecryptMessage(key.decodeKey[..], EncryptMessage(key.encodeKey[..], m)) == Some(m)
  {
    MessageRoundTrip(key.decodeKey[..], key.encodeKey[..], m);
  }

  lemma ExpandedIsSchedule(rk: seq<bv32>, key: seq<bv8>)
    requires |key| == KEY_BYTES && |rk| == 60 && Expanded(rk, key, 8, 60)
    ensures rk == Schedule(key, 8)
  {
    hide KeyWord;
  }

  // ---------------------------------------------------------------- aes_encrypt and aes_decrypt

  lemma {:induction false} EncryptBlocksAppend(rk: seq<bv32>, a: seq<bv8>, b: seq<bv8>)
    requires |rk| >= 60 && |a| % 16 == 0 && |b| == 16
    ensures EncryptBlocks(rk, a + b) == EncryptBlocks(rk, a) + EncryptBlock(rk, ROUNDS, b)
  {
    hide EncryptBlock;
    if a == [] {
      assert a + b == b && b[..16] == b && b[16..] == [];
    } else {
      assert (a + b)[..16] == a[..16] && (a + b)[16..] == a[16..] + b;
      EncryptBlocksAppend(rk, a[16..], b);
    }
  }

  lemma {:induction false} DecryptBlocksAppend(dk: seq<bv32>, a: seq<bv8>, b: seq<bv8>)
    requires |dk| >= 60 && |a| % 16 == 0 && |b| == 16
    ensures DecryptBlocks(dk, a + b) == DecryptBlocks(dk, a) + DecryptBlock(dk, ROUNDS, b)
  {
    hide DecryptBlock;
    if a == [] {
      assert a + b == b && b[..16] == b && b[16..] == [];
    } else {
      assert (a + b)[..16] == a[..16] && (a + b)[16..] == a[16..] + b;
      DecryptBlocksAppend(dk, a[16..], b);
    }
  }

  // The string created for n message bytes holds all n / 16 + 1 cipher blocks just when the
  // message is not empty: for an empty message nothing is allocated, yet one block is written.
  lemma CipherTextFits(n: nat)
    ensures 16 * (n / 16 + 1) <= CreatedCapacity(n) <==> n > 0
  {
  }

  method AesEncrypt(key: AesKey?, source: seq<bv8>, canAllocate: bool) returns (destination: HashkitString?)
    requires key != null ==> key.Valid()
    requires 0 < |source| <= 0x7fff_ffff_ffff_ffff
    ensures destination == null <==> key == null || !canAllocate || CreatedCapacity(|source|) > 0x7fff_ffff_ffff_ffff
    ensures destination != null ==>
              fresh(destination) && fresh(destination.buffer) && destination.Valid()
              && destination.Contents() == EncryptMessage(key.encodeKey[..], source)
  {
    if key == null {
      return null;
    }
    var numBlocks := |source| / 16;
    destination := Create(|source|, canAllocate);
    if destination != null {
      CipherTextFits(|source|);
      EncodeInto(key, source, numBlocks, destination.buffer);
      destination.SetLength(16 * (numBlocks + 1), canAllocate);
    }
  }

  // The block loop and the padded last block, writing through dest.
  method EncodeInto(key: AesKey, source: seq<bv8>, numBlocks: nat, dest: array<bv8>)
    requires key.Valid() && numBlocks == |source| / 16 && dest.Length >= 16 * (numBlocks + 1)
    modifies dest
    ensures dest[..16 * (numBlocks + 1)] == EncryptMessage(key.encodeKey[..], source)
  {
    hide EncryptBlocks, EncryptBlock, IsInverseSchedule;
    ghost var rk := key.encodeKey[..];
    var off, x := 0, numBlocks;
    assert EncryptBlocks(rk, source[..0]) == [] by { EmptyBlocks(rk); }
    while x > 0
      invariant off == 16 * (numBlocks - x) && 0 <= x <= numBlocks
      invariant dest[..off] == EncryptBlocks(rk, source[..off])
    {
      ghost var was := dest[..];
      Encrypt(key.encodeKey, key.encodeRounds, source[off..off + 16], dest, off);
      BlockWritten(was, dest[..], off, EncryptBlock(rk, ROUNDS, source[off..off + 16]));
      EncryptBlocksAppend(rk, source[..off], source[off..off + 16]);
      assert source[..off] + source[off..off + 16] == source[..off + 16];
      off := off + 16;
      x := x - 1;
    }
    var padLen := 16 - (|source| - 16 * numBlocks);
    var block := source[off..off + 16 - padLen] + Padding(padLen);
    ghost var was := dest[..];
    Encrypt(key.encodeKey, key.encodeRounds, block, dest, off);
    BlockWritten(was, dest[..], off, EncryptBlock(rk, ROUNDS, block));
    EncryptBlocksAppend(rk, source[..off], block);
    assert source[..off] + block == source + Padding(padLen);
  }

  lemma EmptyBlocks(rk: seq<bv32>)
    requires |rk| >= 60
    ensures EncryptBlocks(rk, []) == [] && DecryptBlocks(rk, []) == []
  {
  }

  lemma BlockWritten(was: seq<bv8>, now: seq<bv8>, at: nat, b: seq<bv8>)
    requires |b| == 16 && at + 16 <= |was| && now == Overwrite(was, at, b)
    ensures now[..at + 16] == was[..at] + b
  {
  }

  method AesDecrypt(key: AesKey?, source: seq<bv8>, canAllocate: bool) returns (destination: HashkitString?)
    requires key != null ==> key.Valid()
    requires |source| <= 0x7fff_ffff_ffff_ffff
    ensures destination == null <==>
              key == null || DecryptMessage(key.decodeKey[..], source) == None
              || !canAllocate || CreatedCapacity(|source|) > 0x7fff_ffff_ffff_ffff
    ensures destination != null ==>
              fresh(destination) && fresh(destination.buffer) && destination.Valid()
              && DecryptMessage(key.decodeKey[..], source) == Some(destination.Contents())
    ensures source == [] || |source| % 16 != 0 ==> destination == null
  {
    hide DecryptBlocks, IsInverseSchedule;
    if key == null {
      return null;
    }
    var numBlocks := |source| / 16;
    if |source| != numBlocks * 16 || numBlocks == 0 {
      return null;
    }
    destination := Create(|source|, canAllocate);
    if destination != null {
      CipherTextFits(|source|);
      var padLen := DecodeInto(key, source, numBlocks, destination.buffer);
      if padLen > 16 {
        return null;
      }
      destination.SetLength(16 * numBlocks - padLen, canAllocate);
    }
  }

  // The loop over all blocks but the last.
  method DecodeBlocks(key: AesKey, source: seq<bv8>, n: nat, dest: array<bv8>)
    requires key.Valid() && 16 * n <= |source| && 16 * n <= dest.Length
    modifies dest
    ensures dest[..16 * n] == DecryptBlocks(key.decodeKey[..], source[..16 * n])
  {
    hide DecryptBlocks, DecryptBlock, IsInverseSchedule;
    ghost var dk := key.decodeKey[..];
    var off, x := 0, n;
    assert DecryptBlocks(dk, source[..0]) == [] by { EmptyBlocks(dk); }
    while x > 0
      invariant off == 16 * (n - x) && 0 <= x <= n
      invariant dest[..off] == DecryptBlocks(dk, source[..off])
    {
      ghost var was := dest[..];
      Decrypt(key.decodeKey, key.decodeRounds, source[off..off + 16], dest, off);
      BlockWritten(was, dest[..], off, DecryptBlock(dk, ROUNDS, source[off..off + 16]));
      DecryptBlocksAppend(dk, source[..off], source[off..off + 16]);
      assert source[..off] + source[off..off + 16] == source[..off + 16];
      off := off + 16;
      x := x - 1;
    }
  }

  method DecodeInto(key: AesKey, source: seq<bv8>, numBlocks: nat, dest: array<bv8>) returns (padLen: nat)
    requires key.Valid() && |source| == 16 * numBlocks && numBlocks > 0 && dest.Length >= |source|
    modifies dest
    ensures var p := DecryptBlocks(key.decodeKey[..], source);
            padLen == p[|p| - 1] as int
            && (padLen <= 16 ==> dest[..|source| - padLen] == p[..|source| - padLen])
  {
    hide DecryptBlocks, DecryptBlock, IsInverseSchedule, Overwrite;
    ghost var dk := key.decodeKey[..];
    DecodeBlocks(key, source, numBlocks - 1, dest);
    var off := 16 * (numBlocks - 1);
    var block := new bv8[16];
    ghost var done, was := dest[..off], block[..];
    ghost var last := DecryptBlock(dk, ROUNDS, source[off..]);
    Decrypt(key.decodeKey, key.decodeRounds, source[off..], block, 0);
    BlockWritten(was, block[..], 0, last);
    DecryptBlocksAppend(dk, source[..off], source[off..]);
    assert source[..off] + source[off..] == source;
    padLen := block[15] as int;
    if padLen <= 16 {
      forall i | 0 <= i < 16 - padLen {
        dest[off + i] := block[i];
      }
      assert dest[..|source| - padLen] == (done + last)[..|source| - padLen];
    }
    assert key.decodeKey[..] == dk;
  }
}
