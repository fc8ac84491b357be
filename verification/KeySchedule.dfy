// rijndaelKeySetupEnc and rijndaelKeySetupDec of src/libhashkit/rijndael.cc.
module KeySchedule {
  import opened SubstitutionTables
  import opened Rijndael

  // GETU32 at byte i.
  function Get32(b: seq<bv8>, i: nat): bv32
    requires i + 4 <= |b|
  {
    Pack(b[i], b[i + 1], b[i + 2], b[i + 3])
  }

  // ---------------------------------------------------------------- key expansion of FIPS 197

  function RotWord(w: bv32): bv32 {
    Pack(B2(w), B1(w), B0(w), B3(w))
  }

  // x^i in GF(2^8).
  function PowerOfX(i: nat): bv8 {
    if i == 0 then 1 else Mul2(PowerOfX(i - 1))
  }

  predicate KeyLength(nk: nat) { nk == 4 || nk == 6 || nk == 8 }

  // Word i of the expanded key for a key of nk words (section 5.2 of FIPS 197).
  function KeyWord(key: seq<bv8>, nk: nat, i: nat): bv32
    requires KeyLength(nk) && 4 * nk <= |key|
  {
    if i < nk then Get32(key, 4 * i)
    else AddWord(KeyWord(key, nk, i - nk), KeyStep(KeyWord(key, nk, i - 1), nk, i))
  }

  function KeyStep(temp: bv32, nk: nat, i: nat): bv32
    requires KeyLength(nk) && nk <= i
  {
    if i % nk == 0 then AddWord(SubWord(RotWord(temp)), Pack(PowerOfX(i / nk - 1), 0, 0, 0))
    else if nk > 6 && i % nk == 4 then SubWord(temp)
    else temp
  }

  // ---------------------------------------------------------------- the source's words

  function Rcon(i: nat): bv32
    requires i < 10
  {
    if i == 0 then 0x01000000 else if i == 1 then 0x02000000 else
    if i == 2 then 0x04000000 else if i == 3 then 0x08000000 else
    if i == 4 then 0x10000000 else if i == 5 then 0x20000000 else
    if i == 6 then 0x40000000 else if i == 7 then 0x80000000 else
    if i == 8 then 0x1B000000 else 0x36000000
  }

  lemma RconIsPowerOfX(i: nat)
    requires i < 10
    ensures Rcon(i) == Pack(PowerOfX(i), 0, 0, 0)
  {
    assert PowerOfX(0) == 0x01 && PowerOfX(1) == 0x02 && PowerOfX(2) == 0x04;
    assert PowerOfX(3) == 0x08 && PowerOfX(4) == 0x10 && PowerOfX(5) == 0x20;
    assert PowerOfX(6) == 0x40 && PowerOfX(7) == 0x80 && PowerOfX(8) == 0x1b;
    assert PowerOfX(9) == 0x36;
  }

  // First word of a group: rotated and substituted by masking Te4, plus the round constant.
  function FirstWord(prev: bv32, temp: bv32, i: nat): bv32
    requires i < 10
  {
    AddWord(AddWord(prev, MergeBytes(Te4(B2(temp)), Te4(B1(temp)), Te4(B0(temp)), Te4(B3(temp)))), Rcon(i))
  }

  // Fifth word of a group of eight.
  function FifthWord(prev: bv32, temp: bv32): bv32 {
    AddWord(prev, MergeBytes(Te4(B3(temp)), Te4(B2(temp)), Te4(B1(temp)), Te4(B0(temp))))
  }

  lemma FirstWordIsKeyStep(prev: bv32, temp: bv32, nk: nat, g: nat)
    requires KeyLength(nk) && g < 10
    ensures FirstWord(prev, temp, g) == AddWord(prev, KeyStep(temp, nk, nk * (g + 1)))
  {
    hide AddWord, MergeBytes, S, Pack, B3, B2, B1, B0, PowerOfX, Rcon;
    MaskedPack(S(B2(temp)), S(B1(temp)), S(B0(temp)), S(B3(temp)));
    PackBytes(B2(temp), B1(temp), B0(temp), B3(temp));
    RconIsPowerOfX(g);
    AddWordAssociates(prev, SubWord(RotWord(temp)), Rcon(g));
    MultipleOf(nk, g + 1);
  }

  lemma MultipleOf(nk: nat, m: nat)
    requires KeyLength(nk)
    ensures nk * m % nk == 0 && nk * m / nk == m
  {
    if nk == 4 {
      assert 4 * m % 4 == 0 && 4 * m / 4 == m;
    } else if nk == 6 {
      assert 6 * m % 6 == 0 && 6 * m / 6 == m;
    } else {
      assert 8 * m % 8 == 0 && 8 * m / 8 == m;
    }
  }

  lemma FifthWordIsKeyStep(prev: bv32, temp: bv32, i: nat)
    requires i >= 8 && i % 8 == 4
    ensures FifthWord(prev, temp) == AddWord(prev, KeyStep(temp, 8, i))
  {
    hide AddWord, MergeBytes, S, Pack, B3, B2, B1, B0;
    MaskedPack(S(B3(temp)), S(B2(temp)), S(B1(temp)), S(B0(temp)));
  }
  // ---------------------------------------------------------------- rijndaelKeySetupEnc

  ghost predicate Expanded(rk: seq<bv32>, key: seq<bv8>, nk: nat, n: nat)
    requires KeyLength(nk) && 4 * nk <= |key| && n <= |rk|
  {
    forall j :: 0 <= j < n ==> rk[j] == KeyWord(key, nk, j)
  }

  method KeySetupEnc(rk: array<bv32>, cipherKey: seq<bv8>, keyBits: int) returns (nr: nat)
    requires |cipherKey| >= if keyBits == 128 then 16 else if keyBits == 192 then 24 else 32
    requires rk.Length >= if keyBits == 128 then 44 else if keyBits == 192 then 52 else 60
    modifies rk
    ensures keyBits == 128 ==> nr == 10 && Expanded(rk[..], cipherKey, 4, 44)
    ensures keyBits == 192 ==> nr == 12 && Expanded(rk[..], cipherKey, 6, 52)
    ensures keyBits == 256 ==> nr == 14 && Expanded(rk[..], cipherKey, 8, 60)
    ensures keyBits != 128 && keyBits != 192 && keyBits != 256 ==> nr == 0
  {
    hide AddWord, FirstWord, FifthWord, Get32, KeyStep;
    rk[0] := Get32(cipherKey, 0);
    rk[1] := Get32(cipherKey, 4);
    rk[2] := Get32(cipherKey, 8);
    rk[3] := Get32(cipherKey, 12);
    if keyBits == 128 {
      Expand128(rk, cipherKey);
      return 10;
    }
    rk[4] := Get32(cipherKey, 16);
    rk[5] := Get32(cipherKey, 20);
    if keyBits == 192 {
      Expand192(rk, cipherKey);
      return 12;
    }
    rk[6] := Get32(cipherKey, 24);
    rk[7] := Get32(cipherKey, 28);
    if keyBits == 256 {
      Expand256(rk, cipherKey);
      return 14;
    }
    return 0;
  }

  // The n words from at on, each the sum of the word before it and the word nk back.
  method AddPrevious(rk: array<bv32>, ghost key: seq<bv8>, nk: nat, at: nat, n: nat)
    requires KeyLength(nk) && nk <= at && 4 * nk <= |key| && at + n <= rk.Length
    requires Expanded(rk[..], key, nk, at)
    requires forall j :: at <= j < at + n ==> j % nk != 0 && (nk > 6 ==> j % nk != 4)
    modifies rk
    ensures Expanded(rk[..], key, nk, at + n)
  {
    hide AddWord, KeyWord;
    for i := at to at + n
      invariant Expanded(rk[..], key, nk, i)
    {
      rk[i] := AddWord(rk[i - nk], rk[i - 1]);
      KeyWordAt(key, nk, i);
    }
  }

  lemma KeyWordAt(key: seq<bv8>, nk: nat, i: nat)
    requires KeyLength(nk) && nk <= i && 4 * nk <= |key|
    ensures KeyWord(key, nk, i) == AddWord(KeyWord(key, nk, i - nk), KeyStep(KeyWord(key, nk, i - 1), nk, i))
  {
  }

  method Expand128(rk: array<bv32>, ghost key: seq<bv8>)
    requires |key| >= 16 && rk.Length >= 44
    requires Expanded(rk[..], key, 4, 4)
    modifies rk
    ensures Expanded(rk[..], key, 4, 44)
  {
    hide AddWord, FirstWord, KeyWord, KeyStep;
    var o := 0;
    for i := 0 to 10
      invariant o == 4 * i
      invariant Expanded(rk[..], key, 4, o + 4)
    {
      rk[o + 4] := FirstWord(rk[o], rk[o + 3], i);
      KeyWordAt(key, 4, o + 4);
      FirstWordIsKeyStep(rk[o], rk[o + 3], 4, i);
      AddPrevious(rk, key, 4, o + 5, 3);
      o := o + 4;
    }
  }

  method Expand192(rk: array<bv32>, ghost key: seq<bv8>)
    requires |key| >= 24 && rk.Length >= 52
    requires Expanded(rk[..], key, 6, 6)
    modifies rk
    ensures Expanded(rk[..], key, 6, 52)
  {
    hide AddWord, FirstWord, KeyWord, KeyStep;
    var o, i := 0, 0;
    while true
      invariant 0 <= i < 8 && o == 6 * i
      invariant Expanded(rk[..], key, 6, o + 6)
      decreases 8 - i
    {
      rk[o + 6] := FirstWord(rk[o], rk[o + 5], i);
      KeyWordAt(key, 6, o + 6);
      FirstWordIsKeyStep(rk[o], rk[o + 5], 6, i);
      AddPrevious(rk, key, 6, o + 7, 3);
      i := i + 1;
      if i == 8 {
        return;
      }
      AddPrevious(rk, key, 6, o + 10, 2);
      o := o + 6;
    }
  }

  method Expand256(rk: array<bv32>, ghost key: seq<bv8>)
    requires |key| >= 32 && rk.Length >= 60
    requires Expanded(rk[..], key, 8, 8)
    modifies rk
    ensures Expanded(rk[..], key, 8, 60)
  {
    hide AddWord, FirstWord, FifthWord, KeyWord, KeyStep;
    var o, i := 0, 0;
    while true
      invariant 0 <= i < 7 && o == 8 * i
      invariant Expanded(rk[..], key, 8, o + 8)
      decreases 7 - i
    {
      rk[o + 8] := FirstWord(rk[o], rk[o + 7], i);
      KeyWordAt(key, 8, o + 8);
      FirstWordIsKeyStep(rk[o], rk[o + 7], 8, i);
      AddPrevious(rk, key, 8, o + 9, 3);
      i := i + 1;
      if i == 7 {
        return;
      }
      rk[o + 12] := FifthWord(rk[o + 4], rk[o + 11]);
      KeyWordAt(key, 8, o + 12);
      FifthWordIsKeyStep(rk[o + 4], rk[o + 11], o + 12);
      AddPrevious(rk, key, 8, o + 13, 3);
      o := o + 8;
    }
  }

  // ---------------------------------------------------------------- rijndaelKeySetupDec

  // The encryption schedule for a key of nk words.
  function Schedule(key: seq<bv8>, nk: nat): (s: seq<bv32>)
    requires KeyLength(nk) && 4 * nk <= |key|
    ensures |s| == 4 * (nk + 6) + 4
    ensures Expanded(s, key, nk, |s|)
  {
    seq(4 * (nk + 6) + 4, j requires 0 <= j => KeyWord(key, nk, j))
  }

  method KeySetupDec(rk: array<bv32>, cipherKey: seq<bv8>, keyBits: int) returns (nr: nat)
    requires |cipherKey| >= if keyBits == 128 then 16 else if keyBits == 192 then 24 else 32
    requires rk.Length >= if keyBits == 128 then 44 else if keyBits == 192 then 52 else 60
    modifies rk
    ensures keyBits == 128 ==> nr == 10 && IsInverseSchedule(rk[..], Schedule(cipherKey, 4), 10)
    ensures keyBits == 192 ==> nr == 12 && IsInverseSchedule(rk[..], Schedule(cipherKey, 6), 12)
    ensures keyBits == 256 ==> nr == 14 && IsInverseSchedule(rk[..], Schedule(cipherKey, 8), 14)
    ensures keyBits != 128 && keyBits != 192 && keyBits != 256 ==> nr == 0
  {
    hide Expanded, IsInverseSchedule;
    nr := KeySetupEnc(rk, cipherKey, keyBits);
    ghost var was := rk[..];
    ReverseKeys(rk, nr);
    MixMiddleKeys(rk, nr, was);
    if keyBits == 128 {
      SameInverse(rk[..], was, cipherKey, 4);
    } else if keyBits == 192 {
      SameInverse(rk[..], was, cipherKey, 6);
    } else if keyBits == 256 {
      SameInverse(rk[..], was, cipherKey, 8);
    }
  }

  lemma SameInverse(dk: seq<bv32>, was: seq<bv32>, key: seq<bv8>, nk: nat)
    requires KeyLength(nk) && 4 * nk <= |key|
    requires |was| == |dk| >= 4 * (nk + 6) + 4
    requires Expanded(was, key, nk, 4 * (nk + 6) + 4)
    requires IsInverseSchedule(dk, was, nk + 6)
    ensures IsInverseSchedule(dk, Schedule(key, nk), nk + 6)
  {
    hide KeyWord, InvMixColumns;
    forall r | 0 <= r <= nk + 6
      ensures Key(Schedule(key, nk), r) == Key(was, r)
    {
    }
  }

  // Invert the order of the round keys, four words at a time.
  method ReverseKeys(rk: array<bv32>, nr: nat)
    requires rk.Length >= 4 * nr + 4
    modifies rk
    ensures forall r :: 0 <= r <= nr ==> Key(rk[..], r) == Key(old(rk[..]), nr - r)
  {
    hide Key;
    var i, j := 0, 4 * nr;
    ghost var g := 0;
    while i < j
      invariant i == 4 * g && j == 4 * (nr - g) && 2 * g <= nr + 1
      invariant forall r :: 0 <= r <= nr && (r < g || nr - g < r) ==> Key(rk[..], r) == Key(old(rk[..]), nr - r)
      invariant forall r :: g <= r <= nr - g ==> Key(rk[..], r) == Key(old(rk[..]), r)
    {
      SwapKeys(rk, i, j, g, nr - g, nr);
      i, j := i + 4, j - 4;
      g := g + 1;
    }
  }

  method SwapKeys(rk: array<bv32>, i: nat, j: nat, ghost x: nat, ghost y: nat, ghost nr: nat)
    requires i == 4 * x && j == 4 * y && x < y <= nr && rk.Length >= 4 * nr + 4
    modifies rk
    ensures Key(rk[..], x) == Key(old(rk[..]), y) && Key(rk[..], y) == Key(old(rk[..]), x)
    ensures forall r :: 0 <= r <= nr && r != x && r != y ==> Key(rk[..], r) == Key(old(rk[..]), r)
  {
    ghost var was := rk[..];
    SwapWord(rk, i, j);
    SwapWord(rk, i + 1, j + 1);
    SwapWord(rk, i + 2, j + 2);
    SwapWord(rk, i + 3, j + 3);
    ghost var now := rk[..];
    assert Key(now, x) == Key(was, y) && Key(now, y) == Key(was, x);
    OtherKeysKept(was, now, x, y, nr);
  }

  method SwapWord(rk: array<bv32>, a: nat, b: nat)
    requires a < b < rk.Length
    modifies rk
    ensures rk[a] == old(rk[b]) && rk[b] == old(rk[a])
    ensures forall k :: 0 <= k < rk.Length && k != a && k != b ==> rk[k] == old(rk[k])
  {
    var temp := rk[a];
    rk[a] := rk[b];
    rk[b] := temp;
  }

  lemma OtherKeysKept(a: seq<bv32>, b: seq<bv32>, x: nat, y: nat, nr: nat)
    requires |a| == |b| >= 4 * nr + 4
    requires forall k :: 0 <= k < |a| && !(4 * x <= k < 4 * x + 4) && !(4 * y <= k < 4 * y + 4) ==> b[k] == a[k]
    ensures forall r :: 0 <= r <= nr && r != x && r != y ==> Key(b, r) == Key(a, r)
  {
  }

  // Apply InvMixColumns to all round keys but the first and the last.
  method MixMiddleKeys(rk: array<bv32>, nr: nat, ghost was: seq<bv32>)
    requires rk.Length >= 4 * nr + 4 && |was| == rk.Length
    requires forall r :: 0 <= r <= nr ==> Key(rk[..], r) == Key(was, nr - r)
    modifies rk
    ensures IsInverseSchedule(rk[..], was, nr)
  {
    hide Key, InvMixColumns;
    var o, i := 0, 1;
    while i < nr
      invariant o == 4 * (i - 1) && 1 <= i && (i <= nr || i == 1)
      invariant forall r :: 0 <= r <= nr && (r == 0 || r >= i) ==> Key(rk[..], r) == Key(was, nr - r)
      invariant forall r :: 0 < r < i && r < nr ==> Key(rk[..], r) == InvMixColumns(Key(was, nr - r))
    {
      o := o + 4;
      MixKey(rk, o, i, nr);
      i := i + 1;
    }
  }

  method MixKey(rk: array<bv32>, o: nat, ghost x: nat, ghost nr: nat)
    requires o == 4 * x && x <= nr && rk.Length >= 4 * nr + 4
    modifies rk
    ensures Key(rk[..], x) == InvMixColumns(Key(old(rk[..]), x))
    ensures forall r :: 0 <= r <= nr && r != x ==> Key(rk[..], r) == Key(old(rk[..]), r)
  {
    hide DecKeyWord, InvMixColumn;
    ghost var was := rk[..];
    DecKeyWordIsInvMix(rk[o]);
    DecKeyWordIsInvMix(rk[o + 1]);
    DecKeyWordIsInvMix(rk[o + 2]);
    DecKeyWordIsInvMix(rk[o + 3]);
    rk[o] := DecKeyWord(rk[o]);
    rk[o + 1] := DecKeyWord(rk[o + 1]);
    rk[o + 2] := DecKeyWord(rk[o + 2]);
    rk[o + 3] := DecKeyWord(rk[o + 3]);
    OtherKeysKept(was, rk[..], x, x, nr);
  }
}
