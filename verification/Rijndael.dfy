// The cipher of FIPS 197 and the table look-ups of src/libhashkit/rijndael.cc.
//
// Words are bv32 and bytes bv8, as in the source.  The specification works on whole states (four column
// words) with SubBytes, ShiftRows and MixColumns kept apart; the look-ups at the end fuse those steps.
// Modules KeySchedule and BlockCipher hold the loops.
module Rijndael {
  import opened SubstitutionTables

  // ---------------------------------------------------------------- GF(2^8)

  // Addition, and the sum of four elements.  Kept as functions so that the linear algebra below
  // can be done with them hidden.
  function Add(x: bv8, y: bv8): bv8 { x ^ y }
  function Sum(p: bv8, q: bv8, r: bv8, s: bv8): bv8 { Add(Add(p, q), Add(r, s)) }

  lemma AddInterchange(p: bv8, q: bv8, r: bv8, s: bv8)
    ensures Add(Add(p, q), Add(r, s)) == Add(Add(p, r), Add(q, s))
  {
    assert (p ^ q) ^ (r ^ s) == (p ^ r) ^ (q ^ s);
  }

  // Multiplication by x (section 4.2.1 of FIPS 197).
  function Mul2(x: bv8): bv8 {
    (x << 1) ^ (if x & 0x80 != 0 then 0x1b else 0x00)
  }

  function Mul3(x: bv8): bv8 { Add(Mul2(x), x) }
  function Mul4(x: bv8): bv8 { Mul2(Mul2(x)) }
  function Mul8(x: bv8): bv8 { Mul2(Mul4(x)) }
  function Mul9(x: bv8): bv8 { Add(Mul8(x), x) }
  function MulB(x: bv8): bv8 { Add(Mul9(x), Mul2(x)) }
  function MulD(x: bv8): bv8 { Add(Mul9(x), Mul4(x)) }
  function MulE(x: bv8): bv8 { Add(Add(Mul8(x), Mul4(x)), Mul2(x)) }

  lemma Mul2ByShifts(x: bv8)
    ensures var h := x >> 7;
            Mul2(x) == (x << 1) ^ h ^ (h << 1) ^ (h << 3) ^ (h << 4)
  {
  }

  lemma Mul2Linear(x: bv8, y: bv8)
    ensures Mul2(Add(x, y)) == Add(Mul2(x), Mul2(y))
  {
    Mul2ByShifts(x);
    Mul2ByShifts(y);
    Mul2ByShifts(x ^ y);
    hide Mul2;
  }

  lemma Mul4Linear(x: bv8, y: bv8)
    ensures Mul4(Add(x, y)) == Add(Mul4(x), Mul4(y))
  {
    hide Mul2, Add;
    Mul2Linear(x, y);
    Mul2Linear(Mul2(x), Mul2(y));
  }

  lemma Mul8Linear(x: bv8, y: bv8)
    ensures Mul8(Add(x, y)) == Add(Mul8(x), Mul8(y))
  {
    hide Mul2, Mul4, Add;
    Mul4Linear(x, y);
    Mul2Linear(Mul4(x), Mul4(y));
  }

  lemma Mul9Linear(x: bv8, y: bv8)
    ensures Mul9(Add(x, y)) == Add(Mul9(x), Mul9(y))
  {
    hide Mul8, Add;
    Mul8Linear(x, y);
    AddInterchange(Mul8(x), Mul8(y), x, y);
  }

  lemma MulBLinear(x: bv8, y: bv8)
    ensures MulB(Add(x, y)) == Add(MulB(x), MulB(y))
  {
    hide Mul9, Mul2, Add;
    Mul9Linear(x, y);
    Mul2Linear(x, y);
    AddInterchange(Mul9(x), Mul9(y), Mul2(x), Mul2(y));
  }

  lemma MulDLinear(x: bv8, y: bv8)
    ensures MulD(Add(x, y)) == Add(MulD(x), MulD(y))
  {
    hide Mul9, Mul4, Add;
    Mul9Linear(x, y);
    Mul4Linear(x, y);
    AddInterchange(Mul9(x), Mul9(y), Mul4(x), Mul4(y));
  }

  lemma MulELinear(x: bv8, y: bv8)
    ensures MulE(Add(x, y)) == Add(MulE(x), MulE(y))
  {
    hide Mul8, Mul4, Mul2, Add;
    Mul8Linear(x, y);
    Mul4Linear(x, y);
    Mul2Linear(x, y);
    AddInterchange(Mul8(x), Mul8(y), Mul4(x), Mul4(y));
    AddInterchange(Add(Mul8(x), Mul4(x)), Add(Mul8(y), Mul4(y)), Mul2(x), Mul2(y));
  }

  // One byte of MixColumns and of InvMixColumns.  The other three bytes of a column are the
  // same combination of the column rotated.
  function Mix(a: bv8, b: bv8, c: bv8, d: bv8): bv8 {
    Sum(Mul2(a), Mul3(b), c, d)
  }

  function InvMix(a: bv8, b: bv8, c: bv8, d: bv8): bv8 {
    Sum(MulE(a), MulB(b), MulD(c), Mul9(d))
  }

  lemma SumOfSums(p: bv8, q: bv8, r: bv8, s: bv8, t: bv8, u: bv8, v: bv8, w: bv8)
    ensures Sum(Add(p, t), Add(q, u), Add(r, v), Add(s, w)) == Add(Sum(p, q, r, s), Sum(t, u, v, w))
  {
    hide Add;
    AddInterchange(p, t, q, u);
    AddInterchange(r, v, s, w);
    AddInterchange(Add(p, q), Add(t, u), Add(r, s), Add(v, w));
  }

  lemma AddCommutes(x: bv8, y: bv8)
    ensures Add(x, y) == Add(y, x)
  {
  }

  lemma SumRotates(p: bv8, q: bv8, r: bv8, s: bv8)
    ensures Sum(p, q, r, s) == Sum(q, r, s, p)
  {
    AddCommutes(p, q);
    AddInterchange(q, p, r, s);
    AddCommutes(p, s);
    hide Add;
  }

  lemma InvMixLinear(a: bv8, b: bv8, c: bv8, d: bv8, e: bv8, f: bv8, g: bv8, h: bv8)
    ensures InvMix(Add(a, e), Add(b, f), Add(c, g), Add(d, h))
            == Add(InvMix(a, b, c, d), InvMix(e, f, g, h))
  {
    hide Add, Sum, Mul9, MulB, MulD, MulE;
    MulELinear(a, e);
    MulBLinear(b, f);
    MulDLinear(c, g);
    Mul9Linear(d, h);
    SumOfSums(MulE(a), MulB(b), MulD(c), Mul9(d), MulE(e), MulB(f), MulD(g), Mul9(h));
  }

  // The polynomials {0e,0b,0d,09} and {02,01,01,03} are inverse (section 5.3.3 of FIPS 197):
  // the four coefficients of their product.
  lemma InvMixCoefficient0(x: bv8)
    ensures InvMix(Mul2(x), x, x, Mul3(x)) == x
  {
  }

  lemma InvMixCoefficient1(x: bv8)
    ensures InvMix(Mul3(x), Mul2(x), x, x) == 0
  {
  }

  lemma InvMixCoefficient2(x: bv8)
    ensures InvMix(x, Mul3(x), Mul2(x), x) == 0
  {
  }

  lemma InvMixCoefficient3(x: bv8)
    ensures InvMix(x, x, Mul3(x), Mul2(x)) == 0
  {
  }

  lemma InvMixInverts(a: bv8, b: bv8, c: bv8, d: bv8)
    ensures InvMix(Mix(a, b, c, d), Mix(b, c, d, a), Mix(c, d, a, b), Mix(d, a, b, c)) == a
  {
    hide Add, InvMix, Mix, Mul2, Mul3;
    MixInTwo(a, b, c, d);
    InvMixLinear(Add(Mul2(a), Mul3(b)), Add(a, Mul2(b)), Add(a, b), Add(Mul3(a), b),
                 Add(c, d), Add(Mul3(c), d), Add(Mul2(c), Mul3(d)), Add(c, Mul2(d)));
    InvMixLinear(Mul2(a), a, a, Mul3(a), Mul3(b), Mul2(b), b, b);
    InvMixLinear(c, Mul3(c), Mul2(c), c, d, d, Mul3(d), Mul2(d));
    InvMixCoefficient0(a);
    InvMixCoefficient1(b);
    InvMixCoefficient2(c);
    InvMixCoefficient3(d);
    AddZero(a);
    AddZero(0);
  }

  lemma AddZero(x: bv8)
    ensures Add(x, 0) == x
  {
  }

  // The four bytes of a mixed column, each grouped as (terms of a and b) + (terms of c and d).
  lemma MixInTwo(a: bv8, b: bv8, c: bv8, d: bv8)
    ensures Mix(a, b, c, d) == Add(Add(Mul2(a), Mul3(b)), Add(c, d))
    ensures Mix(b, c, d, a) == Add(Add(a, Mul2(b)), Add(Mul3(c), d))
    ensures Mix(c, d, a, b) == Add(Add(a, b), Add(Mul2(c), Mul3(d)))
    ensures Mix(d, a, b, c) == Add(Add(Mul3(a), b), Add(c, Mul2(d)))
  {
    hide Add, Mul2, Mul3;
    SumRotates(a, Mul2(b), Mul3(c), d);
    SumRotates(Mul2(c), Mul3(d), a, b);
    SumRotates(Mul3(d), a, b, Mul2(c));
    SumRotates(Mul2(d), Mul3(a), b, c);
  }

  // ---------------------------------------------------------------- words

  // GETU32: big-endian, as the source builds it.
  function Pack(a: bv8, b: bv8, c: bv8, d: bv8): bv32 {
    (a as bv32 << 24) ^ (b as bv32 << 16) ^ (c as bv32 << 8) ^ (d as bv32)
  }

  function AddWord(v: bv32, w: bv32): bv32 { v ^ w }

  function B3(w: bv32): bv8 { (w >> 24) as bv8 }
  function B2(w: bv32): bv8 { ((w >> 16) & 0xff) as bv8 }
  function B1(w: bv32): bv8 { ((w >> 8) & 0xff) as bv8 }
  function B0(w: bv32): bv8 { (w & 0xff) as bv8 }

  lemma PackBytes(a: bv8, b: bv8, c: bv8, d: bv8)
    ensures B3(Pack(a, b, c, d)) == a && B2(Pack(a, b, c, d)) == b
    ensures B1(Pack(a, b, c, d)) == c && B0(Pack(a, b, c, d)) == d
  {
  }

  lemma BytesPack(w: bv32)
    ensures Pack(B3(w), B2(w), B1(w), B0(w)) == w
  {
  }

  lemma PackXor(a: bv8, b: bv8, c: bv8, d: bv8, e: bv8, f: bv8, g: bv8, h: bv8)
    ensures AddWord(Pack(a, b, c, d), Pack(e, f, g, h))
            == Pack(Add(a, e), Add(b, f), Add(c, g), Add(d, h))
  {
  }

  lemma BytesOfAddWord(v: bv32, w: bv32)
    ensures B3(AddWord(v, w)) == Add(B3(v), B3(w)) && B2(AddWord(v, w)) == Add(B2(v), B2(w))
    ensures B1(AddWord(v, w)) == Add(B1(v), B1(w)) && B0(AddWord(v, w)) == Add(B0(v), B0(w))
  {
    BytesOfXor(v, w);
    hide B3, B2, B1, B0;
  }

  lemma BytesOfXor(v: bv32, w: bv32)
    ensures B3(v ^ w) == B3(v) ^ B3(w) && B2(v ^ w) == B2(v) ^ B2(w)
    ensures B1(v ^ w) == B1(v) ^ B1(w) && B0(v ^ w) == B0(v) ^ B0(w)
  {
  }

  function MixColumn(w: bv32): bv32 {
    var a, b, c, d := B3(w), B2(w), B1(w), B0(w);
    Pack(Mix(a, b, c, d), Mix(b, c, d, a), Mix(c, d, a, b), Mix(d, a, b, c))
  }

  function InvMixColumn(w: bv32): bv32 {
    var a, b, c, d := B3(w), B2(w), B1(w), B0(w);
    Pack(InvMix(a, b, c, d), InvMix(b, c, d, a), InvMix(c, d, a, b), InvMix(d, a, b, c))
  }

  lemma InvMixColumnLinear(v: bv32, w: bv32)
    ensures InvMixColumn(AddWord(v, w)) == AddWord(InvMixColumn(v), InvMixColumn(w))
  {
    hide Add, AddWord, InvMix, Pack, B3, B2, B1, B0;
    var a, b, c, d := B3(v), B2(v), B1(v), B0(v);
    var e, f, g, h := B3(w), B2(w), B1(w), B0(w);
    BytesOfAddWord(v, w);
    InvMixLinear(a, b, c, d, e, f, g, h);
    InvMixLinear(b, c, d, a, f, g, h, e);
    InvMixLinear(c, d, a, b, g, h, e, f);
    InvMixLinear(d, a, b, c, h, e, f, g);
    PackXor(InvMix(a, b, c, d), InvMix(b, c, d, a), InvMix(c, d, a, b), InvMix(d, a, b, c),
            InvMix(e, f, g, h), InvMix(f, g, h, e), InvMix(g, h, e, f), InvMix(h, e, f, g));
  }

  lemma InvMixColumnInverts(w: bv32)
    ensures InvMixColumn(MixColumn(w)) == w
  {
    hide Mix, InvMix, Pack, B3, B2, B1, B0;
    var a, b, c, d := B3(w), B2(w), B1(w), B0(w);
    BytesPack(w);
    InvMixInverts(a, b, c, d);
    InvMixInverts(b, c, d, a);
    InvMixInverts(c, d, a, b);
    InvMixInverts(d, a, b, c);
    PackBytes(Mix(a, b, c, d), Mix(b, c, d, a), Mix(c, d, a, b), Mix(d, a, b, c));
  }

  // ---------------------------------------------------------------- states

  // A state of the cipher: four columns, as the source keeps them in s0..s3.
  datatype Block = Block(c0: bv32, c1: bv32, c2: bv32, c3: bv32)

  function Xor(a: Block, b: Block): Block {
    Block(AddWord(a.c0, b.c0), AddWord(a.c1, b.c1), AddWord(a.c2, b.c2), AddWord(a.c3, b.c3))
  }

  function SubWord(w: bv32): bv32 {
    Pack(S(B3(w)), S(B2(w)), S(B1(w)), S(B0(w)))
  }

  function InvSubWord(w: bv32): bv32 {
    Pack(Si(B3(w)), Si(B2(w)), Si(B1(w)), Si(B0(w)))
  }

  function SubBytes(s: Block): Block {
    Block(SubWord(s.c0), SubWord(s.c1), SubWord(s.c2), SubWord(s.c3))
  }

  function InvSubBytes(s: Block): Block {
    Block(InvSubWord(s.c0), InvSubWord(s.c1), InvSubWord(s.c2), InvSubWord(s.c3))
  }

  // One column whose rows come from four columns.
  function Diagonal(a: bv32, b: bv32, c: bv32, d: bv32): bv32 {
    Pack(B3(a), B2(b), B1(c), B0(d))
  }

  // Row r moves r places to the left, or back.
  function ShiftRows(s: Block): Block {
    Block(Diagonal(s.c0, s.c1, s.c2, s.c3), Diagonal(s.c1, s.c2, s.c3, s.c0),
          Diagonal(s.c2, s.c3, s.c0, s.c1), Diagonal(s.c3, s.c0, s.c1, s.c2))
  }

  function InvShiftRows(s: Block): Block {
    Block(Diagonal(s.c0, s.c3, s.c2, s.c1), Diagonal(s.c1, s.c0, s.c3, s.c2),
          Diagonal(s.c2, s.c1, s.c0, s.c3), Diagonal(s.c3, s.c2, s.c1, s.c0))
  }

  function MixColumns(s: Block): Block {
    Block(MixColumn(s.c0), MixColumn(s.c1), MixColumn(s.c2), MixColumn(s.c3))
  }

  function InvMixColumns(s: Block): Block {
    Block(InvMixColumn(s.c0), InvMixColumn(s.c1), InvMixColumn(s.c2), InvMixColumn(s.c3))
  }

  lemma InvSubWordInverts(w: bv32)
    ensures InvSubWord(SubWord(w)) == w
  {
    hide S, Si, Pack, B3, B2, B1, B0;
    PackBytes(S(B3(w)), S(B2(w)), S(B1(w)), S(B0(w)));
    SiInvertsS(B3(w));
    SiInvertsS(B2(w));
    SiInvertsS(B1(w));
    SiInvertsS(B0(w));
    BytesPack(w);
  }

  // Taking the shifted rows apart again yields the column they were taken from.
  lemma DiagonalOfDiagonals(a: bv32, b: bv32, c: bv32, d: bv32, w: bv32)
    requires B3(a) == B3(w) && B2(b) == B2(w) && B1(c) == B1(w) && B0(d) == B0(w)
    ensures Diagonal(a, b, c, d) == w
  {
    hide Pack, B3, B2, B1, B0;
    BytesPack(w);
  }

  lemma DiagonalBytes(a: bv32, b: bv32, c: bv32, d: bv32)
    ensures B3(Diagonal(a, b, c, d)) == B3(a) && B2(Diagonal(a, b, c, d)) == B2(b)
    ensures B1(Diagonal(a, b, c, d)) == B1(c) && B0(Diagonal(a, b, c, d)) == B0(d)
  {
    hide Pack, B3, B2, B1, B0;
    PackBytes(B3(a), B2(b), B1(c), B0(d));
  }

  lemma InvShiftRowsInverts(s: Block)
    ensures InvShiftRows(ShiftRows(s)) == s
  {
    hide Diagonal, B3, B2, B1, B0;
    var t := ShiftRows(s);
    DiagonalBytes(s.c0, s.c1, s.c2, s.c3);
    DiagonalBytes(s.c1, s.c2, s.c3, s.c0);
    DiagonalBytes(s.c2, s.c3, s.c0, s.c1);
    DiagonalBytes(s.c3, s.c0, s.c1, s.c2);
    DiagonalOfDiagonals(t.c0, t.c3, t.c2, t.c1, s.c0);
    DiagonalOfDiagonals(t.c1, t.c0, t.c3, t.c2, s.c1);
    DiagonalOfDiagonals(t.c2, t.c1, t.c0, t.c3, s.c2);
    DiagonalOfDiagonals(t.c3, t.c2, t.c1, t.c0, s.c3);
  }

  // Substitution is bytewise, so it commutes with moving rows; the inverse cipher of the source
  // undoes the two in the opposite order from FIPS 197, section 5.3.
  lemma InvSubShiftInverts(s: Block)
    ensures InvShiftRows(InvSubBytes(ShiftRows(SubBytes(s)))) == s
  {
    hide Diagonal, SubWord, InvSubWord;
    InvSubShiftCommute(ShiftRows(SubBytes(s)));
    InvShiftRowsInverts(SubBytes(s));
    InvSubWordInverts(s.c0);
    InvSubWordInverts(s.c1);
    InvSubWordInverts(s.c2);
    InvSubWordInverts(s.c3);
  }

  lemma InvSubDiagonal(a: bv32, b: bv32, c: bv32, d: bv32)
    ensures Diagonal(InvSubWord(a), InvSubWord(b), InvSubWord(c), InvSubWord(d))
            == InvSubWord(Diagonal(a, b, c, d))
  {
    hide Si, Pack, B3, B2, B1, B0;
    PackBytes(Si(B3(a)), Si(B2(a)), Si(B1(a)), Si(B0(a)));
    PackBytes(Si(B3(b)), Si(B2(b)), Si(B1(b)), Si(B0(b)));
    PackBytes(Si(B3(c)), Si(B2(c)), Si(B1(c)), Si(B0(c)));
    PackBytes(Si(B3(d)), Si(B2(d)), Si(B1(d)), Si(B0(d)));
    PackBytes(B3(a), B2(b), B1(c), B0(d));
  }

  lemma InvSubShiftCommute(t: Block)
    ensures InvShiftRows(InvSubBytes(t)) == InvSubBytes(InvShiftRows(t))
  {
    hide Diagonal, InvSubWord;
    InvSubDiagonal(t.c0, t.c3, t.c2, t.c1);
    InvSubDiagonal(t.c1, t.c0, t.c3, t.c2);
    InvSubDiagonal(t.c2, t.c1, t.c0, t.c3);
    InvSubDiagonal(t.c3, t.c2, t.c1, t.c0);
  }

  lemma InvMixColumnsInverts(s: Block)
    ensures InvMixColumns(MixColumns(s)) == s
  {
    hide MixColumn, InvMixColumn;
    InvMixColumnInverts(s.c0);
    InvMixColumnInverts(s.c1);
    InvMixColumnInverts(s.c2);
    InvMixColumnInverts(s.c3);
  }

  lemma InvMixColumnsLinear(a: Block, b: Block)
    ensures InvMixColumns(Xor(a, b)) == Xor(InvMixColumns(a), InvMixColumns(b))
  {
    hide InvMixColumn, AddWord;
    InvMixColumnLinear(a.c0, b.c0);
    InvMixColumnLinear(a.c1, b.c1);
    InvMixColumnLinear(a.c2, b.c2);
    InvMixColumnLinear(a.c3, b.c3);
  }

  lemma AddWordAssociates(u: bv32, v: bv32, w: bv32)
    ensures AddWord(AddWord(u, v), w) == AddWord(u, AddWord(v, w))
  {
    assert (u ^ v) ^ w == u ^ (v ^ w);
  }

  lemma AddWordCancels(v: bv32, w: bv32)
    ensures AddWord(AddWord(v, w), w) == v
  {
  }

  lemma XorCancels(a: Block, k: Block)
    ensures Xor(Xor(a, k), k) == a
  {
    hide AddWord;
    AddWordCancels(a.c0, k.c0);
    AddWordCancels(a.c1, k.c1);
    AddWordCancels(a.c2, k.c2);
    AddWordCancels(a.c3, k.c3);
  }

  // ---------------------------------------------------------------- the cipher

  // Round key r of a schedule.
  function Key(rk: seq<bv32>, r: nat): Block
    requires 4 * r + 4 <= |rk|
  {
    Block(rk[4 * r], rk[4 * r + 1], rk[4 * r + 2], rk[4 * r + 3])
  }

  function Round(s: Block, k: Block): Block {
    Xor(MixColumns(ShiftRows(SubBytes(s))), k)
  }

  function InvRound(s: Block, k: Block): Block {
    Xor(InvMixColumns(InvShiftRows(InvSubBytes(s))), k)
  }

  // The state after the initial key addition and r full rounds.
  function Forward(rk: seq<bv32>, p: Block, r: nat): Block
    requires 4 * r + 4 <= |rk|
  {
    if r == 0 then Xor(p, Key(rk, 0)) else Round(Forward(rk, p, r - 1), Key(rk, r))
  }

  function Backward(dk: seq<bv32>, c: Block, r: nat): Block
    requires 4 * r + 4 <= |dk|
  {
    if r == 0 then Xor(c, Key(dk, 0)) else InvRound(Backward(dk, c, r - 1), Key(dk, r))
  }

  function Cipher(rk: seq<bv32>, nr: nat, p: Block): Block
    requires 0 < nr && 4 * nr + 4 <= |rk|
  {
    Xor(ShiftRows(SubBytes(Forward(rk, p, nr - 1))), Key(rk, nr))
  }

  function InvCipher(dk: seq<bv32>, nr: nat, c: Block): Block
    requires 0 < nr && 4 * nr + 4 <= |dk|
  {
    Xor(InvShiftRows(InvSubBytes(Backward(dk, c, nr - 1))), Key(dk, nr))
  }

  // dk is the decryption schedule of rk: round keys in reverse order, with InvMixColumns applied
  // to all of them but the first and the last (section 5.3.5 of FIPS 197).
  ghost predicate IsInverseSchedule(dk: seq<bv32>, rk: seq<bv32>, nr: nat)
    requires 4 * nr + 4 <= |rk| && 4 * nr + 4 <= |dk|
  {
    forall r :: 0 <= r <= nr ==>
      Key(dk, r) == if r == 0 || r == nr then Key(rk, nr - r) else InvMixColumns(Key(rk, nr - r))
  }

  // After r rounds of decryption the state is the one encryption had, substituted and shifted,
  // when it had nr - 1 - r rounds behind it.
  lemma {:induction false} BackwardMeetsForward(dk: seq<bv32>, rk: seq<bv32>, nr: nat, p: Block, r: nat)
    requires r < nr && 4 * nr + 4 <= |rk| && 4 * nr + 4 <= |dk|
    requires IsInverseSchedule(dk, rk, nr)
    ensures Backward(dk, Cipher(rk, nr, p), r) == ShiftRows(SubBytes(Forward(rk, p, nr - 1 - r)))
  {
    hide Xor, SubBytes, ShiftRows, MixColumns, InvMixColumns, InvShiftRows, InvSubBytes, Key;
    assert Key(dk, r) == if r == 0 || r == nr then Key(rk, nr - r) else InvMixColumns(Key(rk, nr - r));
    if r == 0 {
      XorCancels(ShiftRows(SubBytes(Forward(rk, p, nr - 1))), Key(rk, nr));
    } else {
      var e := Forward(rk, p, nr - r);
      var m := ShiftRows(SubBytes(Forward(rk, p, nr - 1 - r)));
      BackwardMeetsForward(dk, rk, nr, p, r - 1);
      InvSubShiftInverts(e);
      assert e == Xor(MixColumns(m), Key(rk, nr - r));
      InvMixColumnsLinear(MixColumns(m), Key(rk, nr - r));
      InvMixColumnsInverts(m);
      XorCancels(m, InvMixColumns(Key(rk, nr - r)));
    }
  }

  lemma InvCipherInverts(dk: seq<bv32>, rk: seq<bv32>, nr: nat, p: Block)
    requires 0 < nr && 4 * nr + 4 <= |rk| && 4 * nr + 4 <= |dk|
    requires IsInverseSchedule(dk, rk, nr)
    ensures InvCipher(dk, nr, Cipher(rk, nr, p)) == p
  {
    hide Xor, SubBytes, ShiftRows, InvShiftRows, InvSubBytes, Key, Cipher;
    BackwardMeetsForward(dk, rk, nr, p, nr - 1);
    InvSubShiftInverts(Forward(rk, p, 0));
    assert Key(dk, nr) == Key(rk, 0);
    XorCancels(p, Key(rk, 0));
  }

  // ---------------------------------------------------------------- the tables

  function Te0(x: bv8): bv32 { Pack(Mul2(S(x)), S(x), S(x), Mul3(S(x))) }
  function Te1(x: bv8): bv32 { Pack(Mul3(S(x)), Mul2(S(x)), S(x), S(x)) }
  function Te2(x: bv8): bv32 { Pack(S(x), Mul3(S(x)), Mul2(S(x)), S(x)) }
  function Te3(x: bv8): bv32 { Pack(S(x), S(x), Mul3(S(x)), Mul2(S(x))) }
  function Te4(x: bv8): bv32 { Pack(S(x), S(x), S(x), S(x)) }
  function Td0(x: bv8): bv32 { Pack(MulE(Si(x)), Mul9(Si(x)), MulD(Si(x)), MulB(Si(x))) }
  function Td1(x: bv8): bv32 { Pack(MulB(Si(x)), MulE(Si(x)), Mul9(Si(x)), MulD(Si(x))) }
  function Td2(x: bv8): bv32 { Pack(MulD(Si(x)), MulB(Si(x)), MulE(Si(x)), Mul9(Si(x))) }
  function Td3(x: bv8): bv32 { Pack(Mul9(Si(x)), MulD(Si(x)), MulB(Si(x)), MulE(Si(x))) }
  function Td4(x: bv8): bv32 { Pack(Si(x), Si(x), Si(x), Si(x)) }

  // The source combines four look-ups per word, either by adding them or, in the last round, by
  // adding one byte of each.
  function Merge(p: bv32, q: bv32, r: bv32, s: bv32): bv32 {
    AddWord(AddWord(AddWord(p, q), r), s)
  }

  function MergeBytes(p: bv32, q: bv32, r: bv32, s: bv32): bv32 {
    (p & 0xff000000) ^ (q & 0x00ff0000) ^ (r & 0x0000ff00) ^ (s & 0x000000ff)
  }

  function EncWord(a: bv32, b: bv32, c: bv32, d: bv32, k: bv32): bv32 {
    AddWord(Merge(Te0(B3(a)), Te1(B2(b)), Te2(B1(c)), Te3(B0(d))), k)
  }

  function DecWord(a: bv32, b: bv32, c: bv32, d: bv32, k: bv32): bv32 {
    AddWord(Merge(Td0(B3(a)), Td1(B2(b)), Td2(B1(c)), Td3(B0(d))), k)
  }

  function LastEncWord(a: bv32, b: bv32, c: bv32, d: bv32, k: bv32): bv32 {
    AddWord(MergeBytes(Te4(B3(a)), Te4(B2(b)), Te4(B1(c)), Te4(B0(d))), k)
  }

  function LastDecWord(a: bv32, b: bv32, c: bv32, d: bv32, k: bv32): bv32 {
    AddWord(MergeBytes(Td4(B3(a)), Td4(B2(b)), Td4(B1(c)), Td4(B0(d))), k)
  }

  // The key schedule's table form of InvMixColumn: Td of S cancels the substitution.
  function DecKeyWord(w: bv32): bv32 {
    Merge(Td0(B0(Te4(B3(w)))), Td1(B0(Te4(B2(w)))), Td2(B0(Te4(B1(w)))), Td3(B0(Te4(B0(w)))))
  }

  lemma MergeInTwo(p: bv32, q: bv32, r: bv32, s: bv32)
    ensures Merge(p, q, r, s) == AddWord(AddWord(p, q), AddWord(r, s))
  {
    AddWordAssociates(AddWord(p, q), r, s);
    hide AddWord;
  }

  // What Te0..Te3 add up to, on substituted bytes.
  lemma MixByTables(p: bv8, q: bv8, r: bv8, s: bv8)
    ensures Merge(Pack(Mul2(p), p, p, Mul3(p)), Pack(Mul3(q), Mul2(q), q, q),
                  Pack(r, Mul3(r), Mul2(r), r), Pack(s, s, Mul3(s), Mul2(s)))
            == MixColumn(Pack(p, q, r, s))
  {
    hide Add, AddWord, Merge, Mix, Mul2, Mul3, Pack, B3, B2, B1, B0;
    MergeInTwo(Pack(Mul2(p), p, p, Mul3(p)), Pack(Mul3(q), Mul2(q), q, q),
             Pack(r, Mul3(r), Mul2(r), r), Pack(s, s, Mul3(s), Mul2(s)));
    PackXor(Mul2(p), p, p, Mul3(p), Mul3(q), Mul2(q), q, q);
    PackXor(r, Mul3(r), Mul2(r), r, s, s, Mul3(s), Mul2(s));
    PackXor(Add(Mul2(p), Mul3(q)), Add(p, Mul2(q)), Add(p, q), Add(Mul3(p), q),
            Add(r, s), Add(Mul3(r), s), Add(Mul2(r), Mul3(s)), Add(r, Mul2(s)));
    MixInTwo(p, q, r, s);
    PackBytes(p, q, r, s);
  }

  lemma InvMixInTwo(a: bv8, b: bv8, c: bv8, d: bv8)
    ensures InvMix(a, b, c, d) == Add(Add(MulE(a), MulB(b)), Add(MulD(c), Mul9(d)))
    ensures InvMix(b, c, d, a) == Add(Add(Mul9(a), MulE(b)), Add(MulB(c), MulD(d)))
    ensures InvMix(c, d, a, b) == Add(Add(MulD(a), Mul9(b)), Add(MulE(c), MulB(d)))
    ensures InvMix(d, a, b, c) == Add(Add(MulB(a), MulD(b)), Add(Mul9(c), MulE(d)))
  {
    hide Add, Mul9, MulB, MulD, MulE;
    SumRotates(Mul9(a), MulE(b), MulB(c), MulD(d));
    SumRotates(MulE(c), MulB(d), MulD(a), Mul9(b));
    SumRotates(MulB(d), MulD(a), Mul9(b), MulE(c));
    SumRotates(MulE(d), MulB(a), MulD(b), Mul9(c));
  }

  lemma InvMixByTables(p: bv8, q: bv8, r: bv8, s: bv8)
    ensures Merge(Pack(MulE(p), Mul9(p), MulD(p), MulB(p)), Pack(MulB(q), MulE(q), Mul9(q), MulD(q)),
                  Pack(MulD(r), MulB(r), MulE(r), Mul9(r)), Pack(Mul9(s), MulD(s), MulB(s), MulE(s)))
            == InvMixColumn(Pack(p, q, r, s))
  {
    hide Add, AddWord, Merge, InvMix, Mul9, MulB, MulD, MulE, Pack, B3, B2, B1, B0;
    MergeInTwo(Pack(MulE(p), Mul9(p), MulD(p), MulB(p)), Pack(MulB(q), MulE(q), Mul9(q), MulD(q)),
             Pack(MulD(r), MulB(r), MulE(r), Mul9(r)), Pack(Mul9(s), MulD(s), MulB(s), MulE(s)));
    PackXor(MulE(p), Mul9(p), MulD(p), MulB(p), MulB(q), MulE(q), Mul9(q), MulD(q));
    PackXor(MulD(r), MulB(r), MulE(r), Mul9(r), Mul9(s), MulD(s), MulB(s), MulE(s));
    PackXor(Add(MulE(p), MulB(q)), Add(Mul9(p), MulE(q)), Add(MulD(p), Mul9(q)), Add(MulB(p), MulD(q)),
            Add(MulD(r), Mul9(s)), Add(MulB(r), MulD(s)), Add(MulE(r), MulB(s)), Add(Mul9(r), MulE(s)));
    InvMixInTwo(p, q, r, s);
    PackBytes(p, q, r, s);
  }

  lemma MaskedPack(p: bv8, q: bv8, r: bv8, s: bv8)
    ensures MergeBytes(Pack(p, p, p, p), Pack(q, q, q, q), Pack(r, r, r, r), Pack(s, s, s, s))
            == Pack(p, q, r, s)
  {
  }

  lemma SubDiagonal(a: bv32, b: bv32, c: bv32, d: bv32)
    ensures Diagonal(SubWord(a), SubWord(b), SubWord(c), SubWord(d))
            == Pack(S(B3(a)), S(B2(b)), S(B1(c)), S(B0(d)))
    ensures Diagonal(InvSubWord(a), InvSubWord(b), InvSubWord(c), InvSubWord(d))
            == Pack(Si(B3(a)), Si(B2(b)), Si(B1(c)), Si(B0(d)))
  {
    hide S, Si, Pack, B3, B2, B1, B0;
    PackBytes(S(B3(a)), S(B2(a)), S(B1(a)), S(B0(a)));
    PackBytes(S(B3(b)), S(B2(b)), S(B1(b)), S(B0(b)));
    PackBytes(S(B3(c)), S(B2(c)), S(B1(c)), S(B0(c)));
    PackBytes(S(B3(d)), S(B2(d)), S(B1(d)), S(B0(d)));
    PackBytes(Si(B3(a)), Si(B2(a)), Si(B1(a)), Si(B0(a)));
    PackBytes(Si(B3(b)), Si(B2(b)), Si(B1(b)), Si(B0(b)));
    PackBytes(Si(B3(c)), Si(B2(c)), Si(B1(c)), Si(B0(c)));
    PackBytes(Si(B3(d)), Si(B2(d)), Si(B1(d)), Si(B0(d)));
  }

  // The table look-ups compute the words of a round.
  lemma EncWordIsRound(a: bv32, b: bv32, c: bv32, d: bv32, k: bv32)
    ensures EncWord(a, b, c, d, k)
            == AddWord(MixColumn(Diagonal(SubWord(a), SubWord(b), SubWord(c), SubWord(d))), k)
  {
    hide AddWord, Merge, S, Mul2, Mul3, Pack, MixColumn, Diagonal, SubWord, B3, B2, B1, B0;
    SubDiagonal(a, b, c, d);
    MixByTables(S(B3(a)), S(B2(b)), S(B1(c)), S(B0(d)));
  }

  lemma DecWordIsRound(a: bv32, b: bv32, c: bv32, d: bv32, k: bv32)
    ensures DecWord(a, b, c, d, k)
            == AddWord(InvMixColumn(Diagonal(InvSubWord(a), InvSubWord(b), InvSubWord(c), InvSubWord(d))), k)
  {
    hide AddWord, Merge, Si, Mul9, MulB, MulD, MulE, Pack, InvMixColumn, Diagonal, InvSubWord, B3, B2, B1, B0;
    SubDiagonal(a, b, c, d);
    InvMixByTables(Si(B3(a)), Si(B2(b)), Si(B1(c)), Si(B0(d)));
  }

  lemma LastWords(a: bv32, b: bv32, c: bv32, d: bv32, k: bv32)
    ensures LastEncWord(a, b, c, d, k)
            == AddWord(Diagonal(SubWord(a), SubWord(b), SubWord(c), SubWord(d)), k)
    ensures LastDecWord(a, b, c, d, k)
            == AddWord(Diagonal(InvSubWord(a), InvSubWord(b), InvSubWord(c), InvSubWord(d)), k)
  {
    hide AddWord, MergeBytes, S, Si, Pack, Diagonal, SubWord, InvSubWord, B3, B2, B1, B0;
    SubDiagonal(a, b, c, d);
    MaskedPack(S(B3(a)), S(B2(b)), S(B1(c)), S(B0(d)));
    MaskedPack(Si(B3(a)), Si(B2(b)), Si(B1(c)), Si(B0(d)));
  }

  lemma DecKeyWordIsInvMix(w: bv32)
    ensures DecKeyWord(w) == InvMixColumn(w)
  {
    hide Merge, S, Si, Mul9, MulB, MulD, MulE, Pack, InvMixColumn, B3, B2, B1, B0;
    PackBytes(S(B3(w)), S(B3(w)), S(B3(w)), S(B3(w)));
    PackBytes(S(B2(w)), S(B2(w)), S(B2(w)), S(B2(w)));
    PackBytes(S(B1(w)), S(B1(w)), S(B1(w)), S(B1(w)));
    PackBytes(S(B0(w)), S(B0(w)), S(B0(w)), S(B0(w)));
    SiInvertsS(B3(w));
    SiInvertsS(B2(w));
    SiInvertsS(B1(w));
    SiInvertsS(B0(w));
    InvMixByTables(B3(w), B2(w), B1(w), B0(w));
    BytesPack(w);
  }
}
