// MD5Transform of src/libhashkit/md5.cc: the sixty-four written-out steps against the four rounds of section 3.4
// of RFC 1321.
module Md5Transform {
  import opened Md5

  // ---------------------------------------------------------------- RFC 1321

  function F(x: bv32, y: bv32, z: bv32): bv32 { (x & y) | (!x & z) }
  function G(x: bv32, y: bv32, z: bv32): bv32 { (x & z) | (y & !z) }
  function H(x: bv32, y: bv32, z: bv32): bv32 { x ^ y ^ z }
  function I(x: bv32, y: bv32, z: bv32): bv32 { y ^ (x | !z) }

  function RotateLeft(x: bv32, s: bv6): bv32
    requires 0 < s < 32
  {
    (x << s) | (x >> (32 - s))
  }

  // b + ((a + f + x + t) <<< s).
  function Turned(a: bv32, b: bv32, f: bv32, x: bv32, s: bv6, t: bv32): bv32
    requires 0 < s < 32
  {
    RotateLeft(a + (f + x + t), s) + b
  }

  function Auxiliary(r: nat, x: bv32, y: bv32, z: bv32): bv32 {
    if r == 0 then F(x, y, z) else if r == 1 then G(x, y, z) else if r == 2 then H(x, y, z) else I(x, y, z)
  }

  // The word of the block that step i uses, and by how much it rotates.
  function Index(i: nat): (k: nat)
    ensures k < 16
  {
    if i < 16 then i else if i < 32 then (5 * i + 1) % 16 else if i < 48 then (3 * i + 5) % 16 else 7 * i % 16
  }

  function Shift(r: nat, j: nat): (s: bv6)
    ensures 0 < s < 32
  {
    if r == 0 then if j == 0 then 7 else if j == 1 then 12 else if j == 2 then 17 else 22
    else if r == 1 then if j == 0 then 5 else if j == 1 then 9 else if j == 2 then 14 else 20
    else if r == 2 then if j == 0 then 4 else if j == 1 then 11 else if j == 2 then 16 else 23
    else if j == 0 then 6 else if j == 1 then 10 else if j == 2 then 15 else 21
  }

  // The integer part of 2^32 times the sine of i + 1, without its sign.
  function T1(j: nat): bv32 {
    if j == 0 then 0xd76aa478 else if j == 1 then 0xe8c7b756 else if j == 2 then 0x242070db else
    if j == 3 then 0xc1bdceee else if j == 4 then 0xf57c0faf else if j == 5 then 0x4787c62a else
    if j == 6 then 0xa8304613 else if j == 7 then 0xfd469501 else if j == 8 then 0x698098d8 else
    if j == 9 then 0x8b44f7af else if j == 10 then 0xffff5bb1 else if j == 11 then 0x895cd7be else
    if j == 12 then 0x6b901122 else if j == 13 then 0xfd987193 else if j == 14 then 0xa679438e else
    0x49b40821
  }

  function T2(j: nat): bv32 {
    if j == 0 then 0xf61e2562 else if j == 1 then 0xc040b340 else if j == 2 then 0x265e5a51 else
    if j == 3 then 0xe9b6c7aa else if j == 4 then 0xd62f105d else if j == 5 then 0x02441453 else
    if j == 6 then 0xd8a1e681 else if j == 7 then 0xe7d3fbc8 else if j == 8 then 0x21e1cde6 else
    if j == 9 then 0xc33707d6 else if j == 10 then 0xf4d50d87 else if j == 11 then 0x455a14ed else
    if j == 12 then 0xa9e3e905 else if j == 13 then 0xfcefa3f8 else if j == 14 then 0x676f02d9 else
    0x8d2a4c8a
  }

  function T3(j: nat): bv32 {
    if j == 0 then 0xfffa3942 else if j == 1 then 0x8771f681 else if j == 2 then 0x6d9d6122 else
    if j == 3 then 0xfde5380c else if j == 4 then 0xa4beea44 else if j == 5 then 0x4bdecfa9 else
    if j == 6 then 0xf6bb4b60 else if j == 7 then 0xbebfbc70 else if j == 8 then 0x289b7ec6 else
    if j == 9 then 0xeaa127fa else if j == 10 then 0xd4ef3085 else if j == 11 then 0x04881d05 else
    if j == 12 then 0xd9d4d039 else if j == 13 then 0xe6db99e5 else if j == 14 then 0x1fa27cf8 else
    0xc4ac5665
  }

  function T4(j: nat): bv32 {
    if j == 0 then 0xf4292244 else if j == 1 then 0x432aff97 else if j == 2 then 0xab9423a7 else
    if j == 3 then 0xfc93a039 else if j == 4 then 0x655b59c3 else if j == 5 then 0x8f0ccc92 else
    if j == 6 then 0xffeff47d else if j == 7 then 0x85845dd1 else if j == 8 then 0x6fa87e4f else
    if j == 9 then 0xfe2ce6e0 else if j == 10 then 0xa3014314 else if j == 11 then 0x4e0811a1 else
    if j == 12 then 0xf7537e82 else if j == 13 then 0xbd3af235 else if j == 14 then 0x2ad7d2bb else
    0xeb86d391
  }

  function T(i: nat): bv32 {
    if i < 16 then T1(i) else if i < 32 then T2(i - 16) else if i < 48 then T3(i - 32) else T4(i - 48)
  }

  // Four steps, after which each word has its old role again.
  function Group(w: Words, x: seq<bv32>, g: nat): Words
    requires |x| == 16
  {
    var r, i := g / 4, 4 * g;
    var a := Turned(w.a, w.b, Auxiliary(r, w.b, w.c, w.d), x[Index(i)], Shift(r, 0), T(i));
    var d := Turned(w.d, a, Auxiliary(r, a, w.b, w.c), x[Index(i + 1)], Shift(r, 1), T(i + 1));
    var c := Turned(w.c, d, Auxiliary(r, d, a, w.b), x[Index(i + 2)], Shift(r, 2), T(i + 2));
    var b := Turned(w.b, c, Auxiliary(r, c, d, a), x[Index(i + 3)], Shift(r, 3), T(i + 3));
    Words(a, b, c, d)
  }

  function Groups(w: Words, x: seq<bv32>, n: nat): Words
    requires |x| == 16
  {
    if n == 0 then w else Group(Groups(w, x, n - 1), x, n - 1)
  }

  lemma Indices()
    ensures Index(0) == 0 && Index(1) == 1 && Index(2) == 2 && Index(3) == 3
    ensures Index(4) == 4 && Index(5) == 5 && Index(6) == 6 && Index(7) == 7
    ensures Index(8) == 8 && Index(9) == 9 && Index(10) == 10 && Index(11) == 11
    ensures Index(12) == 12 && Index(13) == 13 && Index(14) == 14 && Index(15) == 15
    ensures Index(16) == 1 && Index(17) == 6 && Index(18) == 11 && Index(19) == 0
    ensures Index(20) == 5 && Index(21) == 10 && Index(22) == 15 && Index(23) == 4
    ensures Index(24) == 9 && Index(25) == 14 && Index(26) == 3 && Index(27) == 8
    ensures Index(28) == 13 && Index(29) == 2 && Index(30) == 7 && Index(31) == 12
    ensures Index(32) == 5 && Index(33) == 8 && Index(34) == 11 && Index(35) == 14
    ensures Index(36) == 1 && Index(37) == 4 && Index(38) == 7 && Index(39) == 10
    ensures Index(40) == 13 && Index(41) == 0 && Index(42) == 3 && Index(43) == 6
    ensures Index(44) == 9 && Index(45) == 12 && Index(46) == 15 && Index(47) == 2
    ensures Index(48) == 0 && Index(49) == 7 && Index(50) == 14 && Index(51) == 5
    ensures Index(52) == 12 && Index(53) == 3 && Index(54) == 10 && Index(55) == 1
    ensures Index(56) == 8 && Index(57) == 15 && Index(58) == 6 && Index(59) == 13
    ensures Index(60) == 4 && Index(61) == 11 && Index(62) == 2 && Index(63) == 9
  {
  }

  lemma Constants1()
    ensures T(0) == 0xd76aa478 && T(1) == 0xe8c7b756
    ensures T(2) == 0x242070db && T(3) == 0xc1bdceee
    ensures T(4) == 0xf57c0faf && T(5) == 0x4787c62a
    ensures T(6) == 0xa8304613 && T(7) == 0xfd469501
    ensures T(8) == 0x698098d8 && T(9) == 0x8b44f7af
    ensures T(10) == 0xffff5bb1 && T(11) == 0x895cd7be
    ensures T(12) == 0x6b901122 && T(13) == 0xfd987193
    ensures T(14) == 0xa679438e && T(15) == 0x49b40821
    ensures Shift(0, 0) == 7 && Shift(0, 1) == 12 && Shift(0, 2) == 17 && Shift(0, 3) == 22
  {
  }

  lemma Constants2()
    ensures T(16) == 0xf61e2562 && T(17) == 0xc040b340
    ensures T(18) == 0x265e5a51 && T(19) == 0xe9b6c7aa
    ensures T(20) == 0xd62f105d && T(21) == 0x02441453
    ensures T(22) == 0xd8a1e681 && T(23) == 0xe7d3fbc8
    ensures T(24) == 0x21e1cde6 && T(25) == 0xc33707d6
    ensures T(26) == 0xf4d50d87 && T(27) == 0x455a14ed
    ensures T(28) == 0xa9e3e905 && T(29) == 0xfcefa3f8
    ensures T(30) == 0x676f02d9 && T(31) == 0x8d2a4c8a
    ensures Shift(1, 0) == 5 && Shift(1, 1) == 9 && Shift(1, 2) == 14 && Shift(1, 3) == 20
  {
  }

  lemma Constants3()
    ensures T(32) == 0xfffa3942 && T(33) == 0x8771f681
    ensures T(34) == 0x6d9d6122 && T(35) == 0xfde5380c
    ensures T(36) == 0xa4beea44 && T(37) == 0x4bdecfa9
    ensures T(38) == 0xf6bb4b60 && T(39) == 0xbebfbc70
    ensures T(40) == 0x289b7ec6 && T(41) == 0xeaa127fa
    ensures T(42) == 0xd4ef3085 && T(43) == 0x04881d05
    ensures T(44) == 0xd9d4d039 && T(45) == 0xe6db99e5
    ensures T(46) == 0x1fa27cf8 && T(47) == 0xc4ac5665
    ensures Shift(2, 0) == 4 && Shift(2, 1) == 11 && Shift(2, 2) == 16 && Shift(2, 3) == 23
  {
  }

  lemma Constants4()
    ensures T(48) == 0xf4292244 && T(49) == 0x432aff97
    ensures T(50) == 0xab9423a7 && T(51) == 0xfc93a039
    ensures T(52) == 0x655b59c3 && T(53) == 0x8f0ccc92
    ensures T(54) == 0xffeff47d && T(55) == 0x85845dd1
    ensures T(56) == 0x6fa87e4f && T(57) == 0xfe2ce6e0
    ensures T(58) == 0xa3014314 && T(59) == 0x4e0811a1
    ensures T(60) == 0xf7537e82 && T(61) == 0xbd3af235
    ensures T(62) == 0x2ad7d2bb && T(63) == 0xeb86d391
    ensures Shift(3, 0) == 6 && Shift(3, 1) == 10 && Shift(3, 2) == 15 && Shift(3, 3) == 21
  {
  }

  method Round1(w: Words, x: seq<bv32>) returns (v: Words)
    requires |x| == 16
    ensures v == Group(Group(Group(Group(w, x, 0), x, 1), x, 2), x, 3)
  {
    Indices();
    Constants1();
    hide Turned, F, G, H, I, Index, T, Shift;
    var a, b, c, d := w.a, w.b, w.c, w.d;
    a := Turned(a, b, F(b, c, d), x[0], 7, 0xd76aa478);
    d := Turned(d, a, F(a, b, c), x[1], 12, 0xe8c7b756);
    c := Turned(c, d, F(d, a, b), x[2], 17, 0x242070db);
    b := Turned(b, c, F(c, d, a), x[3], 22, 0xc1bdceee);
    a := Turned(a, b, F(b, c, d), x[4], 7, 0xf57c0faf);
    d := Turned(d, a, F(a, b, c), x[5], 12, 0x4787c62a);
    c := Turned(c, d, F(d, a, b), x[6], 17, 0xa8304613);
    b := Turned(b, c, F(c, d, a), x[7], 22, 0xfd469501);
    a := Turned(a, b, F(b, c, d), x[8], 7, 0x698098d8);
    d := Turned(d, a, F(a, b, c), x[9], 12, 0x8b44f7af);
    c := Turned(c, d, F(d, a, b), x[10], 17, 0xffff5bb1);
    b := Turned(b, c, F(c, d, a), x[11], 22, 0x895cd7be);
    a := Turned(a, b, F(b, c, d), x[12], 7, 0x6b901122);
    d := Turned(d, a, F(a, b, c), x[13], 12, 0xfd987193);
    c := Turned(c, d, F(d, a, b), x[14], 17, 0xa679438e);
    b := Turned(b, c, F(c, d, a), x[15], 22, 0x49b40821);
    v := Words(a, b, c, d);
  }

  method Round2(w: Words, x: seq<bv32>) returns (v: Words)
    requires |x| == 16
    ensures v == Group(Group(Group(Group(w, x, 4), x, 5), x, 6), x, 7)
  {
    Indices();
    Constants2();
    hide Turned, F, G, H, I, Index, T, Shift;
    var a, b, c, d := w.a, w.b, w.c, w.d;
    a := Turned(a, b, G(b, c, d), x[1], 5, 0xf61e2562);
    d := Turned(d, a, G(a, b, c), x[6], 9, 0xc040b340);
    c := Turned(c, d, G(d, a, b), x[11], 14, 0x265e5a51);
    b := Turned(b, c, G(c, d, a), x[0], 20, 0xe9b6c7aa);
    a := Turned(a, b, G(b, c, d), x[5], 5, 0xd62f105d);
    d := Turned(d, a, G(a, b, c), x[10], 9, 0x2441453);
    c := Turned(c, d, G(d, a, b), x[15], 14, 0xd8a1e681);
    b := Turned(b, c, G(c, d, a), x[4], 20, 0xe7d3fbc8);
    a := Turned(a, b, G(b, c, d), x[9], 5, 0x21e1cde6);
    d := Turned(d, a, G(a, b, c), x[14], 9, 0xc33707d6);
    c := Turned(c, d, G(d, a, b), x[3], 14, 0xf4d50d87);
    b := Turned(b, c, G(c, d, a), x[8], 20, 0x455a14ed);
    a := Turned(a, b, G(b, c, d), x[13], 5, 0xa9e3e905);
    d := Turned(d, a, G(a, b, c), x[2], 9, 0xfcefa3f8);
    c := Turned(c, d, G(d, a, b), x[7], 14, 0x676f02d9);
    b := Turned(b, c, G(c, d, a), x[12], 20, 0x8d2a4c8a);
    v := Words(a, b, c, d);
  }

  method Round3(w: Words, x: seq<bv32>) returns (v: Words)
    requires |x| == 16
    ensures v == Group(Group(Group(Group(w, x, 8), x, 9), x, 10), x, 11)
  {
    Indices();
    Constants3();
    hide Turned, F, G, H, I, Index, T, Shift;
    var a, b, c, d := w.a, w.b, w.c, w.d;
    a := Turned(a, b, H(b, c, d), x[5], 4, 0xfffa3942);
    d := Turned(d, a, H(a, b, c), x[8], 11, 0x8771f681);
    c := Turned(c, d, H(d, a, b), x[11], 16, 0x6d9d6122);
    b := Turned(b, c, H(c, d, a), x[14], 23, 0xfde5380c);
    a := Turned(a, b, H(b, c, d), x[1], 4, 0xa4beea44);
    d := Turned(d, a, H(a, b, c), x[4], 11, 0x4bdecfa9);
    c := Turned(c, d, H(d, a, b), x[7], 16, 0xf6bb4b60);
    b := Turned(b, c, H(c, d, a), x[10], 23, 0xbebfbc70);
    a := Turned(a, b, H(b, c, d), x[13], 4, 0x289b7ec6);
    d := Turned(d, a, H(a, b, c), x[0], 11, 0xeaa127fa);
    c := Turned(c, d, H(d, a, b), x[3], 16, 0xd4ef3085);
    b := Turned(b, c, H(c, d, a), x[6], 23, 0x4881d05);
    a := Turned(a, b, H(b, c, d), x[9], 4, 0xd9d4d039);
    d := Turned(d, a, H(a, b, c), x[12], 11, 0xe6db99e5);
    c := Turned(c, d, H(d, a, b), x[15], 16, 0x1fa27cf8);
    b := Turned(b, c, H(c, d, a), x[2], 23, 0xc4ac5665);
    v := Words(a, b, c, d);
  }

  method Round4(w: Words, x: seq<bv32>) returns (v: Words)
    requires |x| == 16
    ensures v == Group(Group(Group(Group(w, x, 12), x, 13), x, 14), x, 15)
  {
    Indices();
    Constants4();
    hide Turned, F, G, H, I, Index, T, Shift;
    var a, b, c, d := w.a, w.b, w.c, w.d;
    a := Turned(a, b, I(b, c, d), x[0], 6, 0xf4292244);
    d := Turned(d, a, I(a, b, c), x[7], 10, 0x432aff97);
    c := Turned(c, d, I(d, a, b), x[14], 15, 0xab9423a7);
    b := Turned(b, c, I(c, d, a), x[5], 21, 0xfc93a039);
    a := Turned(a, b, I(b, c, d), x[12], 6, 0x655b59c3);
    d := Turned(d, a, I(a, b, c), x[3], 10, 0x8f0ccc92);
    c := Turned(c, d, I(d, a, b), x[10], 15, 0xffeff47d);
    b := Turned(b, c, I(c, d, a), x[1], 21, 0x85845dd1);
    a := Turned(a, b, I(b, c, d), x[8], 6, 0x6fa87e4f);
    d := Turned(d, a, I(a, b, c), x[15], 10, 0xfe2ce6e0);
    c := Turned(c, d, I(d, a, b), x[6], 15, 0xa3014314);
    b := Turned(b, c, I(c, d, a), x[13], 21, 0x4e0811a1);
    a := Turned(a, b, I(b, c, d), x[4], 6, 0xf7537e82);
    d := Turned(d, a, I(a, b, c), x[11], 10, 0xbd3af235);
    c := Turned(c, d, I(d, a, b), x[2], 15, 0x2ad7d2bb);
    b := Turned(b, c, I(c, d, a), x[9], 21, 0xeb86d391);
    v := Words(a, b, c, d);
  }

  // ---------------------------------------------------------------- MD5Transform

  // A word from four bytes, low byte first.
  function Word(b0: Byte, b1: Byte, b2: Byte, b3: Byte): bv32 {
    (b0 as bv32) | ((b1 as bv32) << 8) | ((b2 as bv32) << 16) | ((b3 as bv32) << 24)
  }

  function DecodeWords(b: seq<Byte>): (x: seq<bv32>)
    requires |b| == 64
    ensures |x| == 16
  {
    seq(16, i requires 0 <= i < 16 => Word(b[4 * i], b[4 * i + 1], b[4 * i + 2], b[4 * i + 3]))
  }

  // Encoding undoes decoding.
  lemma WordRoundTrip(b0: Byte, b1: Byte, b2: Byte, b3: Byte)
    ensures LittleEndian(Word(b0, b1, b2, b3)) == [b0, b1, b2, b3]
  {
  }

  // The state after one block (section 3.4).
  function Compressed(s: Words, block: seq<Byte>): Words {
    if |block| != 64 then s
    else
      Added(s, Groups(s, DecodeWords(block), 16))
  }

  function Added(s: Words, v: Words): Words {
    Words(s.a + v.a, s.b + v.b, s.c + v.c, s.d + v.d)
  }

  // Decode.
  method Decode(output: array<bv32>, input: seq<Byte>)
    requires output.Length == 16 && |input| == 64
    modifies output
    ensures output[..] == DecodeWords(input)
  {
    hide Word;
    var j := 0;
    for i := 0 to 16
      invariant j == 4 * i
      invariant output[..i] == DecodeWords(input)[..i]
    {
      output[i] := Word(input[j], input[j + 1], input[j + 2], input[j + 3]);
      j := j + 4;
    }
  }

  method Transform(state: Words, block: seq<Byte>) returns (r: Words)
    requires |block| == 64
    ensures r == Compressed(state, block)
  {
    hide Group, DecodeWords, Added;
    var words := new bv32[16];
    Decode(words, block);
    var x := words[..];
    var v := Round1(state, x);
    v := Round2(v, x);
    v := Round3(v, x);
    v := Round4(v, x);
    SixteenGroups(state, x);
    r := Added(state, v);
  }

  lemma SixteenGroups(w: Words, x: seq<bv32>)
    requires |x| == 16
    ensures Groups(w, x, 16) ==
            var w1 := Group(Group(Group(Group(w, x, 0), x, 1), x, 2), x, 3);
            var w2 := Group(Group(Group(Group(w1, x, 4), x, 5), x, 6), x, 7);
            var w3 := Group(Group(Group(Group(w2, x, 8), x, 9), x, 10), x, 11);
            Group(Group(Group(Group(w3, x, 12), x, 13), x, 14), x, 15)
  {
    hide Group;
    FourGroups(w, x, 0);
    FourGroups(w, x, 4);
    FourGroups(w, x, 8);
    FourGroups(w, x, 12);
  }

  lemma FourGroups(w: Words, x: seq<bv32>, n: nat)
    requires |x| == 16
    ensures Groups(w, x, n + 4) == Group(Group(Group(Group(Groups(w, x, n), x, n), x, n + 1), x, n + 2), x, n + 3)
  {
    hide Group;
    assert Groups(w, x, n + 2) == Group(Group(Groups(w, x, n), x, n), x, n + 1);
  }

  // hashkit_md5: the first four bytes of the digest, read as a word.
  method HashkitMd5(key: seq<Byte>) returns (h: bv32)
    requires |key| < 0x1_0000_0000
    ensures LittleEndian(h) == Digest(Compressed, key)[..4]
  {
    hide Digest, Compressed, LittleEndian, Word;
    var results := Signature(Compressed, key);
    h := Word(results[0], results[1], results[2], results[3]);
    WordRoundTrip(results[0], results[1], results[2], results[3]);
  }
}
