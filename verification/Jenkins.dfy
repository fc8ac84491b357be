// hashkit_jenkins of src/libhashkit/jenkins.cc on a little-endian machine: one hash, computed by
// 32-bit, 16-bit or 8-bit reads depending on how the key is aligned.
module Jenkins {
  type U32 = bv32
  type Byte = bv8

  // The internal state.
  datatype Abc = Abc(a: U32, b: U32, c: U32)

  // Kept as functions so that most proofs can be done with them hidden.
  function Plus(x: U32, y: U32): U32 { x + y }
  function Neg(x: U32): U32 { 0 - x }
  function Minus(x: U32, y: U32): U32 { Plus(x, Neg(y)) }
  function Xor(x: U32, y: U32): U32 { x ^ y }

  function Rot(x: U32, k: bv6): U32
    requires 0 < k < 32
  {
    (x << k) | (x >> (32 - k))
  }

  // The macro mix.
  function Mix(s: Abc): Abc {
    var a, b, c := s.a, s.b, s.c;
    var a := Xor(Minus(a, c), Rot(c, 4));
    var c := Plus(c, b);
    var b := Xor(Minus(b, a), Rot(a, 6));
    var a := Plus(a, c);
    var c := Xor(Minus(c, b), Rot(b, 8));
    var b := Plus(b, a);
    var a := Xor(Minus(a, c), Rot(c, 16));
    var c := Plus(c, b);
    var b := Xor(Minus(b, a), Rot(a, 19));
    var a := Plus(a, c);
    var c := Xor(Minus(c, b), Rot(b, 4));
    var b := Plus(b, a);
    Abc(a, b, c)
  }

  // The macro final.
  function FinalMix(s: Abc): Abc {
    var a, b, c := s.a, s.b, s.c;
    var c := Minus(Xor(c, b), Rot(b, 14));
    var a := Minus(Xor(a, c), Rot(c, 11));
    var b := Minus(Xor(b, a), Rot(a, 25));
    var c := Minus(Xor(c, b), Rot(b, 16));
    var a := Minus(Xor(a, c), Rot(c, 4));
    var b := Minus(Xor(b, a), Rot(a, 14));
    var c := Minus(Xor(c, b), Rot(b, 24));
    Abc(a, b, c)
  }

  // The macros can be undone, so no two states are mixed into one.
  function UnMix(s: Abc): Abc {
    var a, b, c := s.a, s.b, s.c;
    var b := Minus(b, a);
    var c := Plus(Xor(c, Rot(b, 4)), b);
    var a := Minus(a, c);
    var b := Plus(Xor(b, Rot(a, 19)), a);
    var c := Minus(c, b);
    var a := Plus(Xor(a, Rot(c, 16)), c);
    var b := Minus(b, a);
    var c := Plus(Xor(c, Rot(b, 8)), b);
    var a := Minus(a, c);
    var b := Plus(Xor(b, Rot(a, 6)), a);
    var c := Minus(c, b);
    var a := Plus(Xor(a, Rot(c, 4)), c);
    Abc(a, b, c)
  }

  function UnFinalMix(s: Abc): Abc {
    var a, b, c := s.a, s.b, s.c;
    var c := Xor(Plus(c, Rot(b, 24)), b);
    var b := Xor(Plus(b, Rot(a, 14)), a);
    var a := Xor(Plus(a, Rot(c, 4)), c);
    var c := Xor(Plus(c, Rot(b, 16)), b);
    var b := Xor(Plus(b, Rot(a, 25)), a);
    var a := Xor(Plus(a, Rot(c, 11)), c);
    var c := Xor(Plus(c, Rot(b, 14)), b);
    Abc(a, b, c)
  }

  lemma PlusMinus(x: U32, y: U32)
    ensures Minus(Plus(x, y), y) == x && Plus(Minus(x, y), y) == x
  {
    hide Plus, Neg;
    PlusTwice(x, y, Neg(y));
    PlusTwice(x, Neg(y), y);
    PlusNeg(y);
    PlusZero(x);
  }

  lemma PlusNeg(y: U32)
    ensures Plus(y, Neg(y)) == 0 && Plus(Neg(y), y) == 0
  {
  }

  lemma PlusZero(x: U32)
    ensures Plus(x, 0) == x
  {
  }

  lemma PlusIs(x: U32, y: U32)
    ensures Plus(x, y) == x + y
  {
  }

  lemma Associates(x: U32, y: U32, z: U32, p: U32, q: U32)
    requires p == x + y && q == y + z
    ensures p + z == x + q
  {
    calc {
      p + z;
      (x + y) + z;
      x + (y + z);
      x + q;
    }
  }

  // Adding in two steps.
  lemma PlusTwice(x: U32, y: U32, z: U32)
    ensures Plus(Plus(x, y), z) == Plus(x, Plus(y, z))
  {
    hide Plus;
    var p, q := Plus(x, y), Plus(y, z);
    PlusIs(x, y);
    PlusIs(y, z);
    PlusIs(p, z);
    PlusIs(x, q);
    Associates(x, y, z, p, q);
  }

  lemma XorTwice(x: U32, y: U32)
    ensures Xor(Xor(x, y), y) == x
  {
  }

  lemma MixReversible(s: Abc)
    ensures UnMix(Mix(s)) == s
  {
    hide Plus, Minus, Xor, Rot;
    forall x: U32, y: U32
      ensures Minus(Plus(x, y), y) == x && Plus(Minus(x, y), y) == x && Xor(Xor(x, y), y) == x
    {
      PlusMinus(x, y);
      XorTwice(x, y);
    }
  }

  lemma FinalMixReversible(s: Abc)
    ensures UnFinalMix(FinalMix(s)) == s
  {
    hide Plus, Minus, Xor, Rot;
    forall x: U32, y: U32
      ensures Minus(Plus(x, y), y) == x && Plus(Minus(x, y), y) == x && Xor(Xor(x, y), y) == x
    {
      PlusMinus(x, y);
      XorTwice(x, y);
    }
  }

  // ---------------------------------------------------------------- the hash as one definition

  function Word(b0: Byte, b1: Byte, b2: Byte, b3: Byte): U32 {
    (b0 as U32) | ((b1 as U32) << 8) | ((b2 as U32) << 16) | ((b3 as U32) << 24)
  }

  // (uint32_t) b << k.
  function Shl0(b: Byte): U32 { b as U32 }
  function Shl8(b: Byte): U32 { (b as U32) << 8 }
  function Shl16(b: Byte): U32 { (b as U32) << 16 }
  function Shl24(b: Byte): U32 { (b as U32) << 24 }

  // Byte i of s, zero past its end.
  function At(s: seq<Byte>, i: nat): Byte {
    if i < |s| then s[i] else 0
  }

  // The first twelve bytes of s, zero padded, added to the state as three words.
  function AddBlock(st: Abc, s: seq<Byte>): Abc {
    Abc(Plus(st.a, Word(At(s, 0), At(s, 1), At(s, 2), At(s, 3))),
        Plus(st.b, Word(At(s, 4), At(s, 5), At(s, 6), At(s, 7))),
        Plus(st.c, Word(At(s, 8), At(s, 9), At(s, 10), At(s, 11))))
  }

  // All blocks but the last are mixed; the last, of one to twelve bytes, goes through final.
  function Hash(st: Abc, s: seq<Byte>): U32
    decreases |s|
  {
    if s == [] then st.c
    else if |s| <= 12 then FinalMix(AddBlock(st, s)).c
    else Hash(Mix(AddBlock(st, s)), s[12..])
  }

  function Start(n: nat): Abc {
    var v := 0xdeadbeef + (n % 0x1_0000_0000) as U32 + 13;
    Abc(v, v, v)
  }

  // The state after mixing in the first q blocks.
  function Mixed(st: Abc, s: seq<Byte>, q: nat): Abc
    requires 12 * q <= |s|
  {
    if q == 0 then st else Mix(AddBlock(Mixed(st, s, q - 1), s[12 * (q - 1)..12 * q]))
  }

  // Blocks of twelve bytes are mixed in while more than twelve are left; the last one to twelve, zero padded, go
  // through final.  An empty key is not mixed at all.
  lemma {:induction false} HashMeaning(st: Abc, s: seq<Byte>)
    ensures s == [] ==> Hash(st, s) == st.c
    ensures s != [] ==>
              var q := (|s| - 1) / 12;
              0 < |s| - 12 * q <= 12 && Hash(st, s) == FinalMix(AddBlock(Mixed(st, s, q), s[12 * q..])).c
    decreases |s|
  {
    hide Mix, FinalMix, AddBlock;
    if |s| > 12 {
      var st1 := Mix(AddBlock(st, s));
      HashMeaning(st1, s[12..]);
      var q := (|s| - 1) / 12;
      FirstTwelve(st, s);
      MixedOn(st, s, q);
      assert (|s[12..]| - 1) / 12 == q - 1;
      assert s[12..][12 * (q - 1)..] == s[12 * q..];
    } else if s != [] {
      assert s[0..] == s;
    }
  }

  lemma FirstTwelve(st: Abc, s: seq<Byte>)
    requires |s| >= 12
    ensures AddBlock(st, s) == AddBlock(st, s[0..12])
  {
    hide Word, Plus;
  }

  lemma {:induction false} MixedOn(st: Abc, s: seq<Byte>, q: nat)
    requires 0 < q && 12 * q <= |s|
    ensures Mixed(st, s, q) == Mixed(Mix(AddBlock(st, s)), s[12..], q - 1)
  {
    hide Mix, AddBlock;
    if q == 1 {
      FirstTwelve(st, s);
      assert Mixed(st, s, 0) == st;
    } else {
      MixedOn(st, s, q - 1);
      assert s[12..][12 * (q - 2)..12 * (q - 1)] == s[12 * (q - 1)..12 * q];
    }
  }

  // A short block adds what it would add with zeros behind it.
  lemma ZeroPadded(st: Abc, s: seq<Byte>, zeros: seq<Byte>)
    requires |s| + |zeros| == 12 && forall i :: 0 <= i < |zeros| ==> zeros[i] == 0
    ensures AddBlock(st, s) == AddBlock(st, s + zeros)
  {
    hide Word, Plus;
    var t := s + zeros;
    assert forall i :: 0 <= i < 12 ==> At(s, i) == At(t, i);
  }

  // The hash of a key, from its length on.
  lemma HashOfKey(s: seq<Byte>)
    ensures var v := 0xdeadbeef + (|s| % 0x1_0000_0000) as bv32 + 13;
            var q := (|s| - 1) / 12;
            Hash(Start(|s|), s)
            == if s == [] then v else FinalMix(AddBlock(Mixed(Abc(v, v, v), s, q), s[12 * q..])).c
  {
    hide Hash, Mixed, FinalMix, AddBlock;
    HashMeaning(Start(|s|), s);
  }

  // ---------------------------------------------------------------- blocks by words

  function Min(x: nat, y: nat): nat { if x < y then x else y }

  // The word at i when left key bytes are there, the others taken as zero.
  function PaddedWord(mem: seq<Byte>, i: nat, left: nat): U32
    requires 0 < left && i + Min(left, 4) <= |mem|
  {
    Word(mem[i], if left > 1 then mem[i + 1] else 0, if left > 2 then mem[i + 2] else 0,
         if left > 3 then mem[i + 3] else 0)
  }

  // A last block adds one padded word for each word it reaches into.
  lemma LastBlock(st: Abc, mem: seq<Byte>, k: nat, length: nat)
    requires 0 < length <= 12 && k + length <= |mem|
    ensures AddBlock(st, mem[k..k + length])
            == Abc(Plus(st.a, PaddedWord(mem, k, length)),
                   if length > 4 then Plus(st.b, PaddedWord(mem, k + 4, length - 4)) else st.b,
                   if length > 8 then Plus(st.c, PaddedWord(mem, k + 8, length - 8)) else st.c)
  {
    hide Word, Plus;
    ZeroWord();
    PlusZero(st.b);
    PlusZero(st.c);
  }

  lemma ZeroWord()
    ensures Word(0, 0, 0, 0) == 0
  {
  }

  lemma WholeBlock(st: Abc, mem: seq<Byte>, k: nat, n: nat)
    requires k + 12 <= n <= |mem|
    ensures AddBlock(st, mem[k..n])
            == Abc(Plus(st.a, PaddedWord(mem, k, 4)), Plus(st.b, PaddedWord(mem, k + 4, 4)),
                   Plus(st.c, PaddedWord(mem, k + 8, 4)))
  {
    hide Word, Plus;
  }

  // The shifted bytes of a word, added up from either end.
  lemma WordOfBytes(b0: Byte, b1: Byte, b2: Byte, b3: Byte)
    ensures Plus(Plus(Plus(Shl24(b3), Shl16(b2)), Shl8(b1)), Shl0(b0)) == Word(b0, b1, b2, b3)
    ensures Plus(Plus(Plus(Shl0(b0), Shl8(b1)), Shl16(b2)), Shl24(b3)) == Word(b0, b1, b2, b3)
  {
    hide Plus, Shl0, Shl8, Shl16, Shl24, Word;
    LastTwo(b2, b3);
    ThirdLast(b1, b2, b3);
    FourthLast(b0, b1, b2, b3);
    FirstTwo(b0, b1);
    Third(b0, b1, b2);
    Fourth(b0, b1, b2, b3);
  }

  // Bytes in different places share no bit.

  lemma LastTwo(b2: Byte, b3: Byte)
    ensures Plus(Shl24(b3), Shl16(b2)) == Word(0, 0, b2, b3)
  {
  }

  lemma ThirdLast(b1: Byte, b2: Byte, b3: Byte)
    ensures Plus(Word(0, 0, b2, b3), Shl8(b1)) == Word(0, b1, b2, b3)
  {
  }

  lemma FourthLast(b0: Byte, b1: Byte, b2: Byte, b3: Byte)
    ensures Plus(Word(0, b1, b2, b3), Shl0(b0)) == Word(b0, b1, b2, b3)
  {
  }

  lemma FirstTwo(b0: Byte, b1: Byte)
    ensures Plus(Shl0(b0), Shl8(b1)) == Word(b0, b1, 0, 0)
  {
  }

  lemma Third(b0: Byte, b1: Byte, b2: Byte)
    ensures Plus(Word(b0, b1, 0, 0), Shl16(b2)) == Word(b0, b1, b2, 0)
  {
  }

  lemma Fourth(b0: Byte, b1: Byte, b2: Byte, b3: Byte)
    ensures Plus(Word(b0, b1, b2, 0), Shl24(b3)) == Word(b0, b1, b2, b3)
  {
  }

  // ---------------------------------------------------------------- the 32-bit path

  function Low3(w: U32): U32 { w & 0xff_ffff }
  function Low2(w: U32): U32 { w & 0xffff }
  function Low1(w: U32): U32 { w & 0xff }

  // x plus the word at i, masked when fewer than four key bytes are left; the word is read whole.
  function AddRead32(x: U32, mem: seq<Byte>, i: nat, left: nat): U32
    requires 0 < left && i + 4 <= |mem|
  {
    var w := Word(mem[i], mem[i + 1], mem[i + 2], mem[i + 3]);
    if left >= 4 then Plus(x, w)
    else if left == 3 then Plus(x, Low3(w))
    else if left == 2 then Plus(x, Low2(w))
    else Plus(x, Low1(w))
  }

  lemma AddRead32IsPlus(x: U32, mem: seq<Byte>, i: nat, left: nat)
    requires 0 < left && i + 4 <= |mem|
    ensures AddRead32(x, mem, i, left) == Plus(x, PaddedWord(mem, i, left))
  {
    var b0, b1, b2, b3 := mem[i], mem[i + 1], mem[i + 2], mem[i + 3];
    hide Plus, Word, Low3, Low2, Low1;
    if left == 3 {
      MaskedTo3(b0, b1, b2, b3);
    } else if left == 2 {
      MaskedTo2(b0, b1, b2, b3);
    } else if left == 1 {
      MaskedTo1(b0, b1, b2, b3);
    }
  }

  // Masking a word read past the end of the key leaves the zero padded word.
  lemma MaskedTo3(b0: Byte, b1: Byte, b2: Byte, b3: Byte)
    ensures Low3(Word(b0, b1, b2, b3)) == Word(b0, b1, b2, 0)
  {
  }

  lemma MaskedTo2(b0: Byte, b1: Byte, b2: Byte, b3: Byte)
    ensures Low2(Word(b0, b1, b2, b3)) == Word(b0, b1, 0, 0)
  {
  }

  lemma MaskedTo1(b0: Byte, b1: Byte, b2: Byte, b3: Byte)
    ensures Low1(Word(b0, b1, b2, b3)) == Word(b0, 0, 0, 0)
  {
  }

  // The length of the words that hold n bytes.
  function RoundUp(n: nat): (r: nat)
    ensures n <= r
  {
    (n + 3) / 4 * 4
  }

  lemma RoundUpFrom(words: nat, n: nat)
    ensures RoundUp(4 * words + n) == 4 * words + RoundUp(n)
  {
  }

  method TailByWords(st: Abc, mem: seq<Byte>, k: nat, length: nat) returns (r: Abc)
    requires 0 < length <= 12 && k + RoundUp(length) <= |mem|
    ensures r == AddBlock(st, mem[k..k + length])
  {
    hide AddRead32, Plus, PaddedWord, AddBlock;
    LastBlock(st, mem, k, length);
    var a, b, c := st.a, st.b, st.c;
    if length > 8 {
      AddRead32IsPlus(c, mem, k + 8, length - 8);
      c := AddRead32(c, mem, k + 8, length - 8);
    }
    if length > 4 {
      AddRead32IsPlus(b, mem, k + 4, length - 4);
      b := AddRead32(b, mem, k + 4, length - 4);
    }
    AddRead32IsPlus(a, mem, k, length);
    a := AddRead32(a, mem, k, length);
    r := Abc(a, b, c);
  }

  method ByWords(mem: seq<Byte>, n: nat) returns (h: U32)
    requires RoundUp(n) <= |mem|
    ensures h == Hash(Start(n), mem[..n])
  {
    hide AddRead32, Plus, PaddedWord, AddBlock, Mix, FinalMix, Start, RoundUp;
    var st, k, length := Start(n), 0, n;
    ghost var words := 0;
    assert mem[0..n] == mem[..n];
    while length > 12
      invariant k + length == n && k == 4 * words
      invariant Hash(st, mem[k..n]) == Hash(Start(n), mem[..n])
    {
      WholeBlock(st, mem, k, n);
      AddRead32IsPlus(st.a, mem, k, 4);
      AddRead32IsPlus(st.b, mem, k + 4, 4);
      AddRead32IsPlus(st.c, mem, k + 8, 4);
      assert mem[k..n][12..] == mem[k + 12..n];
      st := Mix(Abc(AddRead32(st.a, mem, k, 4), AddRead32(st.b, mem, k + 4, 4), AddRead32(st.c, mem, k + 8, 4)));
      length, k, words := length - 12, k + 12, words + 3;
    }
    if length == 0 {
      return st.c;
    }
    RoundUpFrom(words, length);
    st := TailByWords(st, mem, k, length);
    h := FinalMix(st).c;
  }

  // ---------------------------------------------------------------- the 16-bit path

  // x plus the key bytes at i on, at most four, read as half words.
  function AddRead16(x: U32, mem: seq<Byte>, i: nat, left: nat): U32
    requires 0 < left && i + Min(left, 4) <= |mem|
  {
    if left >= 4 then Plus(x, Plus(HalfWord(mem, i), UpperHalf(HalfWord(mem, i + 2))))
    else if left == 3 then Plus(Plus(x, Shl16(mem[i + 2])), HalfWord(mem, i))
    else if left == 2 then Plus(x, HalfWord(mem, i))
    else Plus(x, Shl0(mem[i]))
  }

  function HalfWord(mem: seq<Byte>, i: nat): U32
    requires i + 2 <= |mem|
  {
    (mem[i] as U32) | ((mem[i + 1] as U32) << 8)
  }

  function UpperHalf(h: U32): U32 { h << 16 }

  lemma AddRead16IsPlus(x: U32, mem: seq<Byte>, i: nat, left: nat)
    requires 0 < left && i + Min(left, 4) <= |mem|
    ensures AddRead16(x, mem, i, left) == Plus(x, PaddedWord(mem, i, left))
  {
    hide Plus, HalfWord, UpperHalf, Word, Shl0, Shl16;
    if left >= 4 {
      WordOfHalves(mem, i);
    } else if left == 3 {
      PlusTwice(x, Shl16(mem[i + 2]), HalfWord(mem, i));
      WordOfThree(mem, i);
    } else {
      WordOfFew(mem, i);
    }
  }

  lemma WordOfHalves(mem: seq<Byte>, i: nat)
    requires i + 4 <= |mem|
    ensures Plus(HalfWord(mem, i), UpperHalf(HalfWord(mem, i + 2))) == Word(mem[i], mem[i + 1], mem[i + 2], mem[i + 3])
  {
    HalvesApart(mem[i], mem[i + 1], mem[i + 2], mem[i + 3]);
    hide Plus, Word;
    PlusIs(HalfWord(mem, i), UpperHalf(HalfWord(mem, i + 2)));
  }

  lemma HalvesApart(b0: Byte, b1: Byte, b2: Byte, b3: Byte)
    ensures ((b0 as U32) | ((b1 as U32) << 8)) + (((b2 as U32) | ((b3 as U32) << 8)) << 16) == Word(b0, b1, b2, b3)
    ensures ((b2 as U32) << 16) + ((b0 as U32) | ((b1 as U32) << 8)) == Word(b0, b1, b2, 0)
  {
  }

  lemma WordOfThree(mem: seq<Byte>, i: nat)
    requires i + 3 <= |mem|
    ensures Plus(Shl16(mem[i + 2]), HalfWord(mem, i)) == Word(mem[i], mem[i + 1], mem[i + 2], 0)
  {
    HalvesApart(mem[i], mem[i + 1], mem[i + 2], 0);
    hide Plus, Word;
    PlusIs(Shl16(mem[i + 2]), HalfWord(mem, i));
  }

  lemma WordOfFew(mem: seq<Byte>, i: nat)
    requires i < |mem|
    ensures Word(mem[i], 0, 0, 0) == Shl0(mem[i])
    ensures i + 1 < |mem| ==> HalfWord(mem, i) == Word(mem[i], mem[i + 1], 0, 0)
  {
  }

  method TailByHalves(st: Abc, mem: seq<Byte>, k: nat, length: nat) returns (r: Abc)
    requires 0 < length <= 12 && k + length <= |mem|
    ensures r == AddBlock(st, mem[k..k + length])
  {
    hide AddRead16, Plus, PaddedWord, AddBlock;
    LastBlock(st, mem, k, length);
    var a, b, c := st.a, st.b, st.c;
    if length > 8 {
      AddRead16IsPlus(c, mem, k + 8, length - 8);
      c := AddRead16(c, mem, k + 8, length - 8);
    }
    if length > 4 {
      AddRead16IsPlus(b, mem, k + 4, length - 4);
      b := AddRead16(b, mem, k + 4, length - 4);
    }
    AddRead16IsPlus(a, mem, k, length);
    a := AddRead16(a, mem, k, length);
    r := Abc(a, b, c);
  }

  method ByHalves(mem: seq<Byte>, n: nat) returns (h: U32)
    requires n <= |mem|
    ensures h == Hash(Start(n), mem[..n])
  {
    hide AddRead16, Plus, PaddedWord, AddBlock, Mix, FinalMix, Start;
    var st, k, length := Start(n), 0, n;
    assert mem[0..n] == mem[..n];
    while length > 12
      invariant k + length == n && k % 4 == 0
      invariant Hash(st, mem[k..n]) == Hash(Start(n), mem[..n])
    {
      WholeBlock(st, mem, k, n);
      AddRead16IsPlus(st.a, mem, k, 4);
      AddRead16IsPlus(st.b, mem, k + 4, 4);
      AddRead16IsPlus(st.c, mem, k + 8, 4);
      assert mem[k..n][12..] == mem[k + 12..n];
      st := Mix(Abc(AddRead16(st.a, mem, k, 4), AddRead16(st.b, mem, k + 4, 4), AddRead16(st.c, mem, k + 8, 4)));
      length, k := length - 12, k + 12;
    }
    if length == 0 {
      return st.c;
    }
    st := TailByHalves(st, mem, k, length);
    h := FinalMix(st).c;
  }

  // ---------------------------------------------------------------- the 8-bit path

  // x plus the key bytes at i on, at most four, one at a time from the last to the first.
  function AddRead8(x: U32, mem: seq<Byte>, i: nat, left: nat): U32
    requires 0 < left && i + Min(left, 4) <= |mem|
  {
    var x := if left >= 4 then Plus(x, Shl24(mem[i + 3])) else x;
    var x := if left >= 3 then Plus(x, Shl16(mem[i + 2])) else x;
    var x := if left >= 2 then Plus(x, Shl8(mem[i + 1])) else x;
    Plus(x, Shl0(mem[i]))
  }

  lemma AddRead8IsPlus(x: U32, mem: seq<Byte>, i: nat, left: nat)
    requires 0 < left && i + Min(left, 4) <= |mem|
    ensures AddRead8(x, mem, i, left) == Plus(x, PaddedWord(mem, i, left))
  {
    hide Plus, Shl0, Shl8, Shl16, Shl24, Word;
    var b0, b1 := Shl0(mem[i]), if left > 1 then Shl8(mem[i + 1]) else 0;
    var b2, b3 := if left > 2 then Shl16(mem[i + 2]) else 0, if left > 3 then Shl24(mem[i + 3]) else 0;
    PlusZero(x);
    PlusTwice(x, b3, b2);
    PlusTwice(x, Plus(b3, b2), b1);
    PlusTwice(x, Plus(Plus(b3, b2), b1), b0);
    WordOfBytes(mem[i], if left > 1 then mem[i + 1] else 0, if left > 2 then mem[i + 2] else 0,
                if left > 3 then mem[i + 3] else 0);
    ZeroShifts();
  }

  lemma ZeroShifts()
    ensures Shl8(0) == Shl16(0) == Shl24(0) == 0
  {
  }

  method TailByBytes(st: Abc, mem: seq<Byte>, k: nat, length: nat) returns (r: Abc)
    requires 0 < length <= 12 && k + length <= |mem|
    ensures r == AddBlock(st, mem[k..k + length])
  {
    hide AddRead8, Plus, PaddedWord, AddBlock;
    LastBlock(st, mem, k, length);
    var a, b, c := st.a, st.b, st.c;
    if length > 8 {
      AddRead8IsPlus(c, mem, k + 8, length - 8);
      c := AddRead8(c, mem, k + 8, length - 8);
    }
    if length > 4 {
      AddRead8IsPlus(b, mem, k + 4, length - 4);
      b := AddRead8(b, mem, k + 4, length - 4);
    }
    AddRead8IsPlus(a, mem, k, length);
    a := AddRead8(a, mem, k, length);
    r := Abc(a, b, c);
  }

  // The same in a whole block, from the first byte to the last.
  function AddFour(x: U32, mem: seq<Byte>, i: nat): U32
    requires i + 4 <= |mem|
  {
    Plus(Plus(Plus(Plus(x, Shl0(mem[i])), Shl8(mem[i + 1])), Shl16(mem[i + 2])), Shl24(mem[i + 3]))
  }

  lemma AddFourIsPlus(x: U32, mem: seq<Byte>, i: nat)
    requires i + 4 <= |mem|
    ensures AddFour(x, mem, i) == Plus(x, PaddedWord(mem, i, 4))
  {
    hide Plus, Shl0, Shl8, Shl16, Shl24, Word;
    var b0, b1, b2, b3 := Shl0(mem[i]), Shl8(mem[i + 1]), Shl16(mem[i + 2]), Shl24(mem[i + 3]);
    PlusTwice(x, b0, b1);
    PlusTwice(x, Plus(b0, b1), b2);
    PlusTwice(x, Plus(Plus(b0, b1), b2), b3);
    WordOfBytes(mem[i], mem[i + 1], mem[i + 2], mem[i + 3]);
  }

  method ByBytes(mem: seq<Byte>, n: nat) returns (h: U32)
    requires n <= |mem|
    ensures h == Hash(Start(n), mem[..n])
  {
    hide AddFour, Plus, PaddedWord, AddBlock, Mix, FinalMix, Start;
    var st, k, length := Start(n), 0, n;
    assert mem[0..n] == mem[..n];
    while length > 12
      invariant k + length == n && k % 4 == 0
      invariant Hash(st, mem[k..n]) == Hash(Start(n), mem[..n])
    {
      WholeBlock(st, mem, k, n);
      AddFourIsPlus(st.a, mem, k);
      AddFourIsPlus(st.b, mem, k + 4);
      AddFourIsPlus(st.c, mem, k + 8);
      assert mem[k..n][12..] == mem[k + 12..n];
      st := Mix(Abc(AddFour(st.a, mem, k), AddFour(st.b, mem, k + 4), AddFour(st.c, mem, k + 8)));
      length, k := length - 12, k + 12;
    }
    if length == 0 {
      return st.c;
    }
    st := TailByBytes(st, mem, k, length);
    h := FinalMix(st).c;
  }

  // ---------------------------------------------------------------- the dispatch on alignment

  // hashkit_jenkins on the n bytes at an address: mem is what can be read from there on.  Only the
  // 32-bit path reads past the key, and then only to the end of the key's last word.
  method HashAt(address: nat, mem: seq<Byte>, n: nat) returns (h: U32)
    requires if address % 4 == 0 then RoundUp(n) <= |mem| else n <= |mem|
    ensures h == Hash(Start(n), mem[..n])
  {
    if address % 4 == 0 {
      h := ByWords(mem, n);
    } else if address % 2 == 0 {
      h := ByHalves(mem, n);
    } else {
      h := ByBytes(mem, n);
    }
  }
}
