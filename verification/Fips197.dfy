// What the cipher computes, said of bytes and without the functions of module Rijndael: the substitution is an
// affine image of the inverse in GF(2^8), and each byte of a state, a round key and the result is given by
// bytes of the one before.
module Fips197 {
  import opened SubstitutionTables
  import opened Rijndael
  import opened KeySchedule
  import opened BlockCipher

  // ---------------------------------------------------------------- section 5.1.1

  // Multiplication by x modulo x^8 + x^4 + x^3 + x + 1.
  function XTime(x: bv8): bv8 {
    (x << 1) ^ (if x >= 0x80 then 0x1b else 0x00)
  }

  function Term(bit: bv8, x: bv8): bv8 {
    if bit == 0 then 0 else x
  }

  // Multiplication in GF(2^8), by the bits of y.
  function Times(x: bv8, y: bv8): bv8 {
    var x1 := XTime(x);
    var x2 := XTime(x1);
    var x3 := XTime(x2);
    var x4 := XTime(x3);
    var x5 := XTime(x4);
    var x6 := XTime(x5);
    var x7 := XTime(x6);
    Term(y & 0x01, x) ^ Term(y & 0x02, x1) ^ Term(y & 0x04, x2) ^ Term(y & 0x08, x3)
    ^ Term(y & 0x10, x4) ^ Term(y & 0x20, x5) ^ Term(y & 0x40, x6) ^ Term(y & 0x80, x7)
  }

  function RotateLeft(y: bv8, k: nat): bv8
    requires 0 < k < 8
  {
    (y << k) | (y >> (8 - k))
  }

  // The affine transformation, undone.
  function InvAffine(y: bv8): bv8 {
    RotateLeft(y, 1) ^ RotateLeft(y, 3) ^ RotateLeft(y, 6) ^ 0x05
  }

  // Undoing the affine transformation of y gives the inverse of x, zero if x is zero.
  predicate Substitutes(x: bv8, y: bv8) {
    if x == 0 then InvAffine(y) == 0 else Times(x, InvAffine(y)) == 1
  }

  lemma Row0(lo: bv8)
    requires lo < 0x10
    ensures Substitutes(0x00 | lo, SRow0(lo))
  {
  }

  lemma Row1(lo: bv8)
    requires lo < 0x10
    ensures Substitutes(0x10 | lo, SRow1(lo))
  {
  }

  lemma Row2(lo: bv8)
    requires lo < 0x10
    ensures Substitutes(0x20 | lo, SRow2(lo))
  {
  }

  lemma Row3(lo: bv8)
    requires lo < 0x10
    ensures Substitutes(0x30 | lo, SRow3(lo))
  {
  }

  lemma Row4(lo: bv8)
    requires lo < 0x10
    ensures Substitutes(0x40 | lo, SRow4(lo))
  {
  }

  lemma Row5(lo: bv8)
    requires lo < 0x10
    ensures Substitutes(0x50 | lo, SRow5(lo))
  {
  }

  lemma Row6(lo: bv8)
    requires lo < 0x10
    ensures Substitutes(0x60 | lo, SRow6(lo))
  {
  }

  lemma Row7(lo: bv8)
    requires lo < 0x10
    ensures Substitutes(0x70 | lo, SRow7(lo))
  {
  }

  lemma Row8(lo: bv8)
    requires lo < 0x10
    ensures Substitutes(0x80 | lo, SRow8(lo))
  {
  }

  lemma Row9(lo: bv8)
    requires lo < 0x10
    ensures Substitutes(0x90 | lo, SRow9(lo))
  {
  }

  lemma RowA(lo: bv8)
    requires lo < 0x10
    ensures Substitutes(0xa0 | lo, SRowA(lo))
  {
  }

  lemma RowB(lo: bv8)
    requires lo < 0x10
    ensures Substitutes(0xb0 | lo, SRowB(lo))
  {
  }

  lemma RowC(lo: bv8)
    requires lo < 0x10
    ensures Substitutes(0xc0 | lo, SRowC(lo))
  {
  }

  lemma RowD(lo: bv8)
    requires lo < 0x10
    ensures Substitutes(0xd0 | lo, SRowD(lo))
  {
  }

  lemma RowE(lo: bv8)
    requires lo < 0x10
    ensures Substitutes(0xe0 | lo, SRowE(lo))
  {
  }

  lemma RowF(lo: bv8)
    requires lo < 0x10
    ensures Substitutes(0xf0 | lo, SRowF(lo))
  {
  }

  lemma SubstitutionMeaning(x: bv8)
    ensures Substitutes(x, S(x))
  {
    hide Substitutes;
    var hi, lo := x >> 4, x & 0x0f;
    Nibbles(x);
    if hi == 0x0 { Row0(lo); }
    else if hi == 0x1 { Row1(lo); }
    else if hi == 0x2 { Row2(lo); }
    else if hi == 0x3 { Row3(lo); }
    else if hi == 0x4 { Row4(lo); }
    else if hi == 0x5 { Row5(lo); }
    else if hi == 0x6 { Row6(lo); }
    else if hi == 0x7 { Row7(lo); }
    else if hi == 0x8 { Row8(lo); }
    else if hi == 0x9 { Row9(lo); }
    else if hi == 0xa { RowA(lo); }
    else if hi == 0xb { RowB(lo); }
    else if hi == 0xc { RowC(lo); }
    else if hi == 0xd { RowD(lo); }
    else if hi == 0xe { RowE(lo); }
    else if hi == 0xf { RowF(lo); }
  }

  lemma Nibbles(x: bv8)
    ensures x & 0x0f < 0x10 && x >> 4 < 0x10
    ensures x >> 4 == 0x0 ==> 0x00 | (x & 0x0f) == x
    ensures x >> 4 == 0x1 ==> 0x10 | (x & 0x0f) == x
    ensures x >> 4 == 0x2 ==> 0x20 | (x & 0x0f) == x
    ensures x >> 4 == 0x3 ==> 0x30 | (x & 0x0f) == x
    ensures x >> 4 == 0x4 ==> 0x40 | (x & 0x0f) == x
    ensures x >> 4 == 0x5 ==> 0x50 | (x & 0x0f) == x
    ensures x >> 4 == 0x6 ==> 0x60 | (x & 0x0f) == x
    ensures x >> 4 == 0x7 ==> 0x70 | (x & 0x0f) == x
    ensures x >> 4 == 0x8 ==> 0x80 | (x & 0x0f) == x
    ensures x >> 4 == 0x9 ==> 0x90 | (x & 0x0f) == x
    ensures x >> 4 == 0xa ==> 0xa0 | (x & 0x0f) == x
    ensures x >> 4 == 0xb ==> 0xb0 | (x & 0x0f) == x
    ensures x >> 4 == 0xc ==> 0xc0 | (x & 0x0f) == x
    ensures x >> 4 == 0xd ==> 0xd0 | (x & 0x0f) == x
    ensures x >> 4 == 0xe ==> 0xe0 | (x & 0x0f) == x
    ensures x >> 4 == 0xf ==> 0xf0 | (x & 0x0f) == x
  {
  }

  // ---------------------------------------------------------------- section 5.1

  // x + n modulo 4.
  function Turn(x: nat, n: nat): (y: nat)
    requires x < 4 && n < 4
    ensures y < 4
  {
    if x + n < 4 then x + n else x + n - 4
  }

  // Byte r of a word, column c of a state, and the byte in row r and column c (section 3.4).
  function Row(w: bv32, r: nat): bv8
    requires r < 4
  {
    if r == 0 then B3(w) else if r == 1 then B2(w) else if r == 2 then B1(w) else B0(w)
  }

  function Column(s: Block, c: nat): bv32
    requires c < 4
  {
    if c == 0 then s.c0 else if c == 1 then s.c1 else if c == 2 then s.c2 else s.c3
  }

  function Cell(s: Block, r: nat, c: nat): bv8
    requires r < 4 && c < 4
  {
    Row(Column(s, c), r)
  }

  // Input and output bytes fill the columns one after the other.
  lemma CellByte(b: seq<bv8>, s: Block, r: nat, c: nat)
    requires |b| == 16 && r < 4 && c < 4
    ensures Cell(ToBlock(b), r, c) == b[4 * c + r] && FromBlock(s)[4 * c + r] == Cell(s, r, c)
  {
    hide ToBlock, FromBlock, Put32, Row, Pack, Column;
    ColumnOf(b, c);
    WordBytes(b[4 * c], b[4 * c + 1], b[4 * c + 2], b[4 * c + 3], r);
    PutAt(s, r, c);
    PutRow(Column(s, c), r);
  }

  lemma ColumnOf(b: seq<bv8>, c: nat)
    requires |b| == 16 && c < 4
    ensures Column(ToBlock(b), c) == Pack(b[4 * c], b[4 * c + 1], b[4 * c + 2], b[4 * c + 3])
  {
    hide Pack;
  }

  lemma PutAt(s: Block, r: nat, c: nat)
    requires r < 4 && c < 4
    ensures FromBlock(s)[4 * c + r] == Put32(Column(s, c))[r]
  {
    hide Put32;
    Joined(Put32(s.c0), Put32(s.c1), Put32(s.c2), Put32(s.c3), r);
  }

  lemma Joined(a: seq<bv8>, b: seq<bv8>, c: seq<bv8>, d: seq<bv8>, r: nat)
    requires |a| == 4 && |b| == 4 && |c| == 4 && |d| == 4 && r < 4
    ensures var s := a + b + c + d; s[r] == a[r] && s[4 + r] == b[r] && s[8 + r] == c[r] && s[12 + r] == d[r]
  {
  }

  lemma PutRow(w: bv32, r: nat)
    requires r < 4
    ensures Put32(w)[r] == Row(w, r)
  {
  }

  lemma WordBytes(a: bv8, b: bv8, c: bv8, d: bv8, r: nat)
    requires r < 4
    ensures Row(Pack(a, b, c, d), r) == [a, b, c, d][r]
  {
    hide Pack, B3, B2, B1, B0;
    PackBytes(a, b, c, d);
  }

  lemma SubWordRow(w: bv32, r: nat)
    requires r < 4
    ensures Row(SubWord(w), r) == S(Row(w, r))
  {
    hide S, Pack, B3, B2, B1, B0;
    PackBytes(S(B3(w)), S(B2(w)), S(B1(w)), S(B0(w)));
  }

  lemma DiagonalRow(a: bv32, b: bv32, c: bv32, d: bv32, r: nat)
    requires r < 4
    ensures Row(Diagonal(a, b, c, d), r) == Row(if r == 0 then a else if r == 1 then b else if r == 2 then c else d, r)
  {
    hide Pack, B3, B2, B1, B0;
    PackBytes(B3(a), B2(b), B1(c), B0(d));
  }

  lemma Rows(w: bv32)
    ensures Row(w, 0) == B3(w) && Row(w, 1) == B2(w) && Row(w, 2) == B1(w) && Row(w, 3) == B0(w)
  {
  }

  lemma ByTwoAndThree(x: bv8)
    ensures Mul2(x) == Times(x, 2) && Mul3(x) == Times(x, 3)
  {
  }

  // A column is multiplied by 3 x^3 + x^2 + x + 2 modulo x^4 + 1 (section 5.1.3).
  lemma MixColumnRow(w: bv32, r: nat)
    requires r < 4
    ensures Row(MixColumn(w), r)
            == Sum(Times(Row(w, r), 2), Times(Row(w, Turn(r, 1)), 3), Row(w, Turn(r, 2)), Row(w, Turn(r, 3)))
  {
    hide Sum, Mul2, Mul3, Times, Pack, B3, B2, B1, B0, Row;
    var a, b, c, d := B3(w), B2(w), B1(w), B0(w);
    Rows(w);
    Rows(MixColumn(w));
    ByTwoAndThree(a);
    ByTwoAndThree(b);
    ByTwoAndThree(c);
    ByTwoAndThree(d);
    PackBytes(Mix(a, b, c, d), Mix(b, c, d, a), Mix(c, d, a, b), Mix(d, a, b, c));
  }

  lemma AddWordRow(v: bv32, w: bv32, r: nat)
    requires r < 4
    ensures Row(AddWord(v, w), r) == Add(Row(v, r), Row(w, r))
  {
    hide Add, AddWord, B3, B2, B1, B0;
    BytesOfAddWord(v, w);
  }

  // Substituted, and row r moved r places to the left.
  lemma ShiftedCell(s: Block, r: nat, c: nat)
    requires r < 4 && c < 4
    ensures Cell(ShiftRows(SubBytes(s)), r, c) == S(Cell(s, r, Turn(c, r)))
  {
    hide S, Row, Diagonal, SubWord, Column, ShiftRows, SubBytes;
    var t := SubBytes(s);
    ShiftedColumn(t, c);
    DiagonalRow(Column(t, c), Column(t, Turn(c, 1)), Column(t, Turn(c, 2)), Column(t, Turn(c, 3)), r);
    SubstitutedColumn(s, Turn(c, r));
    SubWordRow(Column(s, Turn(c, r)), r);
  }

  lemma ShiftedColumn(s: Block, c: nat)
    requires c < 4
    ensures Column(ShiftRows(s), c)
            == Diagonal(Column(s, c), Column(s, Turn(c, 1)), Column(s, Turn(c, 2)), Column(s, Turn(c, 3)))
  {
    hide Diagonal, Column;
    Columns(s);
    Columns(ShiftRows(s));
    if c == 0 {
    } else if c == 1 {
    } else if c == 2 {
    } else {
    }
  }

  lemma Columns(s: Block)
    ensures Column(s, 0) == s.c0 && Column(s, 1) == s.c1 && Column(s, 2) == s.c2 && Column(s, 3) == s.c3
  {
  }

  lemma SubstitutedColumn(s: Block, c: nat)
    requires c < 4
    ensures Column(SubBytes(s), c) == SubWord(Column(s, c))
  {
    hide SubWord;
  }

  lemma MixedCell(t: Block, r: nat, c: nat)
    requires r < 4 && c < 4
    ensures Cell(MixColumns(t), r, c)
            == Sum(Times(Cell(t, r, c), 2), Times(Cell(t, Turn(r, 1), c), 3),
                   Cell(t, Turn(r, 2), c), Cell(t, Turn(r, 3), c))
  {
    hide Sum, Times, Row, MixColumn, Turn;
    MixColumnRow(Column(t, c), r);
  }

  lemma XorCell(s: Block, k: Block, r: nat, c: nat)
    requires r < 4 && c < 4
    ensures Cell(Xor(s, k), r, c) == Add(Cell(s, r, c), Cell(k, r, c))
  {
    hide Add, AddWord, Row;
    AddWordRow(Column(s, c), Column(k, c), r);
  }

  // The byte that substitution and shift bring to row r and column c.
  function Moved(s: Block, r: nat, c: nat): bv8
    requires r < 4 && c < 4
  {
    S(Cell(s, r, Turn(c, r)))
  }

  // Bytes of a full round, of the last one, which has no mixing, and of the initial addition.
  function RoundByte(s: Block, k: Block, r: nat, c: nat): bv8
    requires r < 4 && c < 4
  {
    Add(Sum(Times(Moved(s, r, c), 2), Times(Moved(s, Turn(r, 1), c), 3),
            Moved(s, Turn(r, 2), c), Moved(s, Turn(r, 3), c)), Cell(k, r, c))
  }

  function LastByte(s: Block, k: Block, r: nat, c: nat): bv8
    requires r < 4 && c < 4
  {
    Add(Moved(s, r, c), Cell(k, r, c))
  }

  function SumByte(s: Block, k: Block, r: nat, c: nat): bv8
    requires r < 4 && c < 4
  {
    Add(Cell(s, r, c), Cell(k, r, c))
  }

  lemma RoundMeaning(s: Block, k: Block, r: nat, c: nat)
    requires r < 4 && c < 4
    ensures Cell(Round(s, k), r, c) == RoundByte(s, k, r, c)
    ensures Cell(Xor(ShiftRows(SubBytes(s)), k), r, c) == LastByte(s, k, r, c)
    ensures Cell(Xor(s, k), r, c) == SumByte(s, k, r, c)
  {
    hide Add, Sum, Times, S, Cell, Turn, Xor, ShiftRows, SubBytes, MixColumns;
    var t := ShiftRows(SubBytes(s));
    ShiftedCell(s, r, c);
    ShiftedCell(s, Turn(r, 1), c);
    ShiftedCell(s, Turn(r, 2), c);
    ShiftedCell(s, Turn(r, 3), c);
    MixedCell(t, r, c);
    XorCell(MixColumns(t), k, r, c);
    XorCell(t, k, r, c);
    XorCell(s, k, r, c);
  }

  ghost predicate RoundBytes(s: Block, k: Block, t: Block) {
    forall r, c :: 0 <= r < 4 && 0 <= c < 4 ==> Cell(t, r, c) == RoundByte(s, k, r, c)
  }

  ghost predicate LastBytes(s: Block, k: Block, t: Block) {
    forall r, c :: 0 <= r < 4 && 0 <= c < 4 ==> Cell(t, r, c) == LastByte(s, k, r, c)
  }

  ghost predicate SumBytes(s: Block, k: Block, t: Block) {
    forall r, c :: 0 <= r < 4 && 0 <= c < 4 ==> Cell(t, r, c) == SumByte(s, k, r, c)
  }

  lemma AllBytes(s: Block, k: Block)
    ensures RoundBytes(s, k, Round(s, k)) && SumBytes(s, k, Xor(s, k))
    ensures LastBytes(s, k, Xor(ShiftRows(SubBytes(s)), k))
  {
    hide SumByte, RoundByte, LastByte, Cell, Round, Xor, ShiftRows, SubBytes;
    forall r, c | 0 <= r < 4 && 0 <= c < 4
      ensures Cell(Round(s, k), r, c) == RoundByte(s, k, r, c)
      ensures Cell(Xor(ShiftRows(SubBytes(s)), k), r, c) == LastByte(s, k, r, c)
      ensures Cell(Xor(s, k), r, c) == SumByte(s, k, r, c)
    {
      RoundMeaning(s, k, r, c);
    }
  }

  // The pseudo code of section 5.1: st are the states that rounds 1 to nr start from.
  ghost predicate Encrypts(rk: seq<bv32>, nr: nat, p: Block, st: seq<Block>, t: Block)
    requires 0 < nr && 4 * nr + 4 <= |rk|
  {
    && |st| == nr && SumBytes(p, Key(rk, 0), st[0])
    && (forall i :: 0 < i < nr ==> RoundBytes(st[i - 1], Key(rk, i), st[i]))
    && LastBytes(st[nr - 1], Key(rk, nr), t)
  }

  lemma CipherMeaning(rk: seq<bv32>, nr: nat, p: Block) returns (st: seq<Block>)
    requires 0 < nr && 4 * nr + 4 <= |rk|
    ensures Encrypts(rk, nr, p, st, Cipher(rk, nr, p))
  {
    hide SumBytes, RoundBytes, LastBytes, Key, Round, Xor, ShiftRows, SubBytes;
    st := seq(nr, i requires 0 <= i < nr => Forward(rk, p, i));
    AllBytes(p, Key(rk, 0));
    forall i | 0 < i < nr
      ensures RoundBytes(st[i - 1], Key(rk, i), st[i])
    {
      AllBytes(st[i - 1], Key(rk, i));
    }
    AllBytes(st[nr - 1], Key(rk, nr));
  }

  // Row r of a word is its byte r from the top.
  lemma RowIs(w: bv32, r: nat)
    requires r < 4
    ensures Row(w, 0) == (w >> 24) as bv8 && Row(w, 1) == ((w >> 16) & 0xff) as bv8
    ensures Row(w, 2) == ((w >> 8) & 0xff) as bv8 && Row(w, 3) == (w & 0xff) as bv8
  {
  }

  // Round keys are taken from the schedule four words at a time.
  lemma KeyCell(rk: seq<bv32>, i: nat, r: nat, c: nat)
    requires 4 * i + 4 <= |rk| && r < 4 && c < 4
    ensures Cell(Key(rk, i), r, c) == Row(rk[4 * i + c], r)
  {
    hide Row;
  }

  // The bytes of a block, from those put in to those that come out.
  lemma BlockMeaning(rk: seq<bv32>, nr: nat, pt: seq<bv8>) returns (p: Block, st: seq<Block>, t: Block)
    requires |pt| == 16 && 0 < nr && 4 * nr + 4 <= |rk|
    ensures Encrypts(rk, nr, p, st, t)
    ensures forall r, c :: 0 <= r < 4 && 0 <= c < 4 ==>
              Cell(p, r, c) == pt[4 * c + r] && EncryptBlock(rk, nr, pt)[4 * c + r] == Cell(t, r, c)
  {
    hide Encrypts, Cipher, Cell, ToBlock, FromBlock;
    p := ToBlock(pt);
    t := Cipher(rk, nr, p);
    st := CipherMeaning(rk, nr, p);
    forall r, c | 0 <= r < 4 && 0 <= c < 4
      ensures Cell(p, r, c) == pt[4 * c + r] && EncryptBlock(rk, nr, pt)[4 * c + r] == Cell(t, r, c)
    {
      CellByte(pt, t, r, c);
    }
  }

  // ---------------------------------------------------------------- section 5.2

  // Byte r of the word that is added to word i - nk to give word i.
  function Step(temp: bv32, nk: nat, i: nat, r: nat): bv8
    requires KeyLength(nk) && nk <= i && r < 4
  {
    if i % nk == 0 then Add(S(Row(temp, Turn(r, 1))), if r == 0 then PowerOfX(i / nk - 1) else 0)
    else if nk == 8 && i % 8 == 4 then S(Row(temp, r))
    else Row(temp, r)
  }

  lemma KeyWordMeaning(key: seq<bv8>, nk: nat, i: nat, r: nat)
    requires KeyLength(nk) && 4 * nk <= |key| && r < 4
    ensures Row(KeyWord(key, nk, i), r)
            == if i < nk then key[4 * i + r]
               else Add(Row(KeyWord(key, nk, i - nk), r), Step(KeyWord(key, nk, i - 1), nk, i, r))
  {
    hide KeyStep, Step, Add, AddWord, Pack, Row;
    if i < nk {
      WordBytes(key[4 * i], key[4 * i + 1], key[4 * i + 2], key[4 * i + 3], r);
    } else {
      KeyWordAt(key, nk, i);
      StepMeaning(KeyWord(key, nk, i - 1), nk, i, r);
      AddWordRow(KeyWord(key, nk, i - nk), KeyStep(KeyWord(key, nk, i - 1), nk, i), r);
    }
  }

  lemma StepMeaning(temp: bv32, nk: nat, i: nat, r: nat)
    requires KeyLength(nk) && nk <= i && r < 4
    ensures Row(KeyStep(temp, nk, i), r) == Step(temp, nk, i, r)
  {
    hide Add, AddWord, SubWord, RotWord, S, Row, Pack, PowerOfX, Turn;
    if i % nk == 0 {
      RotWordRow(temp, r);
      SubWordRow(RotWord(temp), r);
      WordBytes(PowerOfX(i / nk - 1), 0, 0, 0, r);
      AddWordRow(SubWord(RotWord(temp)), Pack(PowerOfX(i / nk - 1), 0, 0, 0), r);
    } else if nk == 8 && i % 8 == 4 {
      SubWordRow(temp, r);
    }
  }

  lemma RotWordRow(w: bv32, r: nat)
    requires r < 4
    ensures Row(RotWord(w), r) == Row(w, Turn(r, 1))
  {
    hide Pack, B3, B2, B1, B0, Row;
    Rows(w);
    Rows(RotWord(w));
    PackBytes(B2(w), B1(w), B0(w), B3(w));
  }

  // Words of the examples in appendices A.1 and A.3.
  lemma KeyExample128()
    ensures KeyStep(0x2a6c7605, 4, 8) == 0x52386be5
  {
  }

  lemma KeyExample256()
    ensures KeyStep(0x2067fcde, 8, 12) == 0xb785b01d
  {
  }
}
