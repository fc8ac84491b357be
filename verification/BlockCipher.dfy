// rijndaelEncrypt and rijndaelDecrypt of src/libhashkit/rijndael.cc (the loop form, without
// FULL_UNROLL), and the theorem that the second undoes the first.
module BlockCipher {
  import opened Rijndael
  import opened KeySchedule

  // ---------------------------------------------------------------- blocks of bytes

  // PUTU32.
  function Put32(w: bv32): (b: seq<bv8>)
    ensures |b| == 4
  {
    [B3(w), B2(w), B1(w), B0(w)]
  }

  function ToBlock(b: seq<bv8>): Block
    requires |b| == 16
  {
    Block(Get32(b, 0), Get32(b, 4), Get32(b, 8), Get32(b, 12))
  }

  function FromBlock(s: Block): (b: seq<bv8>)
    ensures |b| == 16
  {
    Put32(s.c0) + Put32(s.c1) + Put32(s.c2) + Put32(s.c3)
  }

  function EncryptBlock(rk: seq<bv32>, nr: nat, pt: seq<bv8>): (ct: seq<bv8>)
    requires |pt| == 16 && 0 < nr && 4 * nr + 4 <= |rk|
    ensures |ct| == 16
  {
    FromBlock(Cipher(rk, nr, ToBlock(pt)))
  }

  function DecryptBlock(dk: seq<bv32>, nr: nat, ct: seq<bv8>): (pt: seq<bv8>)
    requires |ct| == 16 && 0 < nr && 4 * nr + 4 <= |dk|
    ensures |pt| == 16
  {
    FromBlock(InvCipher(dk, nr, ToBlock(ct)))
  }

  lemma GetPut(w: bv32, b: seq<bv8>, i: nat)
    requires i + 4 <= |b| && b[i..i + 4] == Put32(w)
    ensures Get32(b, i) == w
  {
    hide Pack, B3, B2, B1, B0;
    assert b[i..i + 4] == [b[i], b[i + 1], b[i + 2], b[i + 3]];
    BytesPack(w);
  }

  lemma PutGet(b: seq<bv8>, i: nat)
    requires i + 4 <= |b|
    ensures Put32(Get32(b, i)) == b[i..i + 4]
  {
    hide Pack, B3, B2, B1, B0;
    PackBytes(b[i], b[i + 1], b[i + 2], b[i + 3]);
  }

  lemma ToFromBlock(s: Block)
    ensures ToBlock(FromBlock(s)) == s
  {
    var a, b, c, d := Put32(s.c0), Put32(s.c1), Put32(s.c2), Put32(s.c3);
    hide Get32, Put32;
    var all := a + b + c + d;
    assert all[0..4] == a && all[4..8] == b && all[8..12] == c && all[12..16] == d;
    GetPut(s.c0, all, 0);
    GetPut(s.c1, all, 4);
    GetPut(s.c2, all, 8);
    GetPut(s.c3, all, 12);
  }

  lemma FromToBlock(b: seq<bv8>)
    requires |b| == 16
    ensures FromBlock(ToBlock(b)) == b
  {
    hide Get32, Put32;
    PutGet(b, 0);
    PutGet(b, 4);
    PutGet(b, 8);
    PutGet(b, 12);
  }

  // For every block, decryption under an inverse schedule undoes encryption.
  lemma DecryptInvertsEncrypt(dk: seq<bv32>, rk: seq<bv32>, nr: nat, pt: seq<bv8>)
    requires |pt| == 16 && 0 < nr && 4 * nr + 4 <= |rk| && 4 * nr + 4 <= |dk|
    requires IsInverseSchedule(dk, rk, nr)
    ensures DecryptBlock(dk, nr, EncryptBlock(rk, nr, pt)) == pt
  {
    hide Cipher, InvCipher, ToBlock, FromBlock, IsInverseSchedule;
    ToFromBlock(Cipher(rk, nr, ToBlock(pt)));
    InvCipherInverts(dk, rk, nr, ToBlock(pt));
    FromToBlock(pt);
  }

  // ---------------------------------------------------------------- rounds as the source writes them

  function EncRound(s: Block, k: Block): Block {
    Block(EncWord(s.c0, s.c1, s.c2, s.c3, k.c0), EncWord(s.c1, s.c2, s.c3, s.c0, k.c1),
          EncWord(s.c2, s.c3, s.c0, s.c1, k.c2), EncWord(s.c3, s.c0, s.c1, s.c2, k.c3))
  }

  function DecRound(s: Block, k: Block): Block {
    Block(DecWord(s.c0, s.c3, s.c2, s.c1, k.c0), DecWord(s.c1, s.c0, s.c3, s.c2, k.c1),
          DecWord(s.c2, s.c1, s.c0, s.c3, k.c2), DecWord(s.c3, s.c2, s.c1, s.c0, k.c3))
  }

  lemma EncRoundIsRound(s: Block, k: Block)
    ensures EncRound(s, k) == Round(s, k)
  {
    hide EncWord, MixColumn, Diagonal, SubWord, AddWord;
    EncWordIsRound(s.c0, s.c1, s.c2, s.c3, k.c0);
    EncWordIsRound(s.c1, s.c2, s.c3, s.c0, k.c1);
    EncWordIsRound(s.c2, s.c3, s.c0, s.c1, k.c2);
    EncWordIsRound(s.c3, s.c0, s.c1, s.c2, k.c3);
  }

  lemma DecRoundIsInvRound(s: Block, k: Block)
    ensures DecRound(s, k) == InvRound(s, k)
  {
    hide DecWord, InvMixColumn, Diagonal, InvSubWord, AddWord;
    DecWordIsRound(s.c0, s.c3, s.c2, s.c1, k.c0);
    DecWordIsRound(s.c1, s.c0, s.c3, s.c2, k.c1);
    DecWordIsRound(s.c2, s.c1, s.c0, s.c3, k.c2);
    DecWordIsRound(s.c3, s.c2, s.c1, s.c0, k.c3);
  }

  lemma LastEncIsFinal(s: Block, k: Block)
    ensures Block(LastEncWord(s.c0, s.c1, s.c2, s.c3, k.c0), LastEncWord(s.c1, s.c2, s.c3, s.c0, k.c1),
                  LastEncWord(s.c2, s.c3, s.c0, s.c1, k.c2), LastEncWord(s.c3, s.c0, s.c1, s.c2, k.c3))
            == Xor(ShiftRows(SubBytes(s)), k)
  {
    hide LastEncWord, Diagonal, SubWord, AddWord;
    LastWords(s.c0, s.c1, s.c2, s.c3, k.c0);
    LastWords(s.c1, s.c2, s.c3, s.c0, k.c1);
    LastWords(s.c2, s.c3, s.c0, s.c1, k.c2);
    LastWords(s.c3, s.c0, s.c1, s.c2, k.c3);
  }

  lemma LastDecIsFinal(s: Block, k: Block)
    ensures Block(LastDecWord(s.c0, s.c3, s.c2, s.c1, k.c0), LastDecWord(s.c1, s.c0, s.c3, s.c2, k.c1),
                  LastDecWord(s.c2, s.c1, s.c0, s.c3, k.c2), LastDecWord(s.c3, s.c2, s.c1, s.c0, k.c3))
            == Xor(InvShiftRows(InvSubBytes(s)), k)
  {
    hide LastDecWord, Diagonal, InvSubWord, AddWord;
    LastWords(s.c0, s.c3, s.c2, s.c1, k.c0);
    LastWords(s.c1, s.c0, s.c3, s.c2, k.c1);
    LastWords(s.c2, s.c1, s.c0, s.c3, k.c2);
    LastWords(s.c3, s.c2, s.c1, s.c0, k.c3);
  }

  // ---------------------------------------------------------------- the loops

  // s with the bytes of b written from index at on.
  function Overwrite(s: seq<bv8>, at: nat, b: seq<bv8>): (r: seq<bv8>)
    requires at + |b| <= |s|
    ensures |r| == |s|
  {
    s[..at] + b + s[at + |b|..]
  }

  lemma OverwriteTwice(s: seq<bv8>, at: nat, a: seq<bv8>, b: seq<bv8>)
    requires at + |a| + |b| <= |s|
    ensures Overwrite(Overwrite(s, at, a), at + |a|, b) == Overwrite(s, at, a + b)
  {
  }

  lemma EncStep(rk: seq<bv32>, p: Block, n: nat)
    requires 4 * n + 8 <= |rk|
    ensures EncRound(Forward(rk, p, n), Key(rk, n + 1)) == Forward(rk, p, n + 1)
  {
    hide EncRound, Round, Key;
    EncRoundIsRound(Forward(rk, p, n), Key(rk, n + 1));
  }

  lemma DecStep(dk: seq<bv32>, c: Block, n: nat)
    requires 4 * n + 8 <= |dk|
    ensures DecRound(Backward(dk, c, n), Key(dk, n + 1)) == Backward(dk, c, n + 1)
  {
    hide DecRound, InvRound, Key;
    DecRoundIsInvRound(Backward(dk, c, n), Key(dk, n + 1));
  }

  // rijndaelEncrypt up to the final stores.
  method EncryptWords(rk: array<bv32>, nr: nat, pt: seq<bv8>) returns (s0: bv32, s1: bv32, s2: bv32, s3: bv32)
    requires nr >= 2 && nr % 2 == 0 && rk.Length >= 4 * nr + 4
    requires |pt| == 16
    ensures Block(s0, s1, s2, s3) == Cipher(rk[..], nr, ToBlock(pt))
  {
    hide Forward, SubBytes, ShiftRows, InvSubBytes, InvShiftRows, AddWord, EncWord, LastEncWord;
    hide Get32, Round, ToBlock, Xor;
    ghost var ks := rk[..];
    ghost var p := ToBlock(pt);
    s0 := AddWord(Get32(pt, 0), rk[0]);
    s1 := AddWord(Get32(pt, 4), rk[1]);
    s2 := AddWord(Get32(pt, 8), rk[2]);
    s3 := AddWord(Get32(pt, 12), rk[3]);
    assert Block(s0, s1, s2, s3) == Forward(ks, p, 0) by { StartForward(pt, ks); }
    var t0: bv32, t1: bv32, t2: bv32, t3: bv32;
    var r, o := nr / 2, 0;
    ghost var n := 0;
    while true
      invariant 1 <= r && n == nr - 2 * r && o == 4 * n
      invariant Block(s0, s1, s2, s3) == Forward(ks, p, n)
      decreases r
    {
      t0 := EncWord(s0, s1, s2, s3, rk[o + 4]);
      t1 := EncWord(s1, s2, s3, s0, rk[o + 5]);
      t2 := EncWord(s2, s3, s0, s1, rk[o + 6]);
      t3 := EncWord(s3, s0, s1, s2, rk[o + 7]);
      EncStep(ks, p, n);
      o := o + 8;
      r := r - 1;
      if r == 0 {
        break;
      }
      s0 := EncWord(t0, t1, t2, t3, rk[o]);
      s1 := EncWord(t1, t2, t3, t0, rk[o + 1]);
      s2 := EncWord(t2, t3, t0, t1, rk[o + 2]);
      s3 := EncWord(t3, t0, t1, t2, rk[o + 3]);
      EncStep(ks, p, n + 1);
      n := n + 2;
    }
    LastEncIsFinal(Block(t0, t1, t2, t3), Key(ks, nr));
    s0 := LastEncWord(t0, t1, t2, t3, rk[o]);
    s1 := LastEncWord(t1, t2, t3, t0, rk[o + 1]);
    s2 := LastEncWord(t2, t3, t0, t1, rk[o + 2]);
    s3 := LastEncWord(t3, t0, t1, t2, rk[o + 3]);
  }

  // rijndaelDecrypt up to the final stores.
  method DecryptWords(rk: array<bv32>, nr: nat, ct: seq<bv8>) returns (s0: bv32, s1: bv32, s2: bv32, s3: bv32)
    requires nr >= 2 && nr % 2 == 0 && rk.Length >= 4 * nr + 4
    requires |ct| == 16
    ensures Block(s0, s1, s2, s3) == InvCipher(rk[..], nr, ToBlock(ct))
  {
    hide Backward, SubBytes, ShiftRows, InvSubBytes, InvShiftRows, AddWord, DecWord, LastDecWord;
    hide Get32, InvRound, ToBlock, Xor;
    ghost var ks := rk[..];
    ghost var p := ToBlock(ct);
    s0 := AddWord(Get32(ct, 0), rk[0]);
    s1 := AddWord(Get32(ct, 4), rk[1]);
    s2 := AddWord(Get32(ct, 8), rk[2]);
    s3 := AddWord(Get32(ct, 12), rk[3]);
    assert Block(s0, s1, s2, s3) == Backward(ks, p, 0) by { StartBackward(ct, ks); }
    var t0: bv32, t1: bv32, t2: bv32, t3: bv32;
    var r, o := nr / 2, 0;
    ghost var n := 0;
    while true
      invariant 1 <= r && n == nr - 2 * r && o == 4 * n
      invariant Block(s0, s1, s2, s3) == Backward(ks, p, n)
      decreases r
    {
      t0 := DecWord(s0, s3, s2, s1, rk[o + 4]);
      t1 := DecWord(s1, s0, s3, s2, rk[o + 5]);
      t2 := DecWord(s2, s1, s0, s3, rk[o + 6]);
      t3 := DecWord(s3, s2, s1, s0, rk[o + 7]);
      DecStep(ks, p, n);
      o := o + 8;
      r := r - 1;
      if r == 0 {
        break;
      }
      s0 := DecWord(t0, t3, t2, t1, rk[o]);
      s1 := DecWord(t1, t0, t3, t2, rk[o + 1]);
      s2 := DecWord(t2, t1, t0, t3, rk[o + 2]);
      s3 := DecWord(t3, t2, t1, t0, rk[o + 3]);
      DecStep(ks, p, n + 1);
      n := n + 2;
    }
    LastDecIsFinal(Block(t0, t1, t2, t3), Key(ks, nr));
    s0 := LastDecWord(t0, t3, t2, t1, rk[o]);
    s1 := LastDecWord(t1, t0, t3, t2, rk[o + 1]);
    s2 := LastDecWord(t2, t1, t0, t3, rk[o + 2]);
    s3 := LastDecWord(t3, t2, t1, t0, rk[o + 3]);
  }

  method Encrypt(rk: array<bv32>, nr: nat, pt: seq<bv8>, ct: array<bv8>, at: nat)
    requires nr >= 2 && nr % 2 == 0 && rk.Length >= 4 * nr + 4
    requires |pt| == 16 && at + 16 <= ct.Length
    modifies ct
    ensures ct[..] == Overwrite(old(ct[..]), at, EncryptBlock(rk[..], nr, pt))
  {
    hide Overwrite, FromBlock, Cipher, ToBlock;
    var s0, s1, s2, s3 := EncryptWords(rk, nr, pt);
    StoreBlock(ct, at, s0, s1, s2, s3);
  }

  method Decrypt(rk: array<bv32>, nr: nat, ct: seq<bv8>, pt: array<bv8>, at: nat)
    requires nr >= 2 && nr % 2 == 0 && rk.Length >= 4 * nr + 4
    requires |ct| == 16 && at + 16 <= pt.Length
    modifies pt
    ensures pt[..] == Overwrite(old(pt[..]), at, DecryptBlock(rk[..], nr, ct))
  {
    hide Overwrite, FromBlock, InvCipher, ToBlock;
    var s0, s1, s2, s3 := DecryptWords(rk, nr, ct);
    StoreBlock(pt, at, s0, s1, s2, s3);
  }

  lemma StartForward(b: seq<bv8>, ks: seq<bv32>)
    requires |b| == 16 && |ks| >= 4
    ensures Block(AddWord(Get32(b, 0), ks[0]), AddWord(Get32(b, 4), ks[1]),
                  AddWord(Get32(b, 8), ks[2]), AddWord(Get32(b, 12), ks[3])) == Forward(ks, ToBlock(b), 0)
  {
    hide AddWord, Get32;
  }

  lemma StartBackward(b: seq<bv8>, ks: seq<bv32>)
    requires |b| == 16 && |ks| >= 4
    ensures Block(AddWord(Get32(b, 0), ks[0]), AddWord(Get32(b, 4), ks[1]),
                  AddWord(Get32(b, 8), ks[2]), AddWord(Get32(b, 12), ks[3])) == Backward(ks, ToBlock(b), 0)
  {
    hide AddWord, Get32;
  }

  // The four PUTU32 that end both routines.
  method StoreBlock(out: array<bv8>, at: nat, s0: bv32, s1: bv32, s2: bv32, s3: bv32)
    requires at + 16 <= out.Length
    modifies out
    ensures out[..] == Overwrite(old(out[..]), at, FromBlock(Block(s0, s1, s2, s3)))
  {
    hide Put32, Overwrite;
    ghost var was := out[..];
    PutWord(out, at, s0);
    PutWord(out, at + 4, s1);
    PutWord(out, at + 8, s2);
    PutWord(out, at + 12, s3);
    OverwriteTwice(was, at, Put32(s0), Put32(s1));
    OverwriteTwice(was, at, Put32(s0) + Put32(s1), Put32(s2));
    OverwriteTwice(was, at, Put32(s0) + Put32(s1) + Put32(s2), Put32(s3));
  }

  method PutWord(out: array<bv8>, at: nat, w: bv32)
    requires at + 4 <= out.Length
    modifies out
    ensures out[..] == Overwrite(old(out[..]), at, Put32(w))
  {
    hide B3, B2, B1, B0;
    out[at] := B3(w);
    out[at + 1] := B2(w);
    out[at + 2] := B1(w);
    out[at + 3] := B0(w);
  }
}
