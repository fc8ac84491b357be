// Hashes that test/fixtures/hashes.hpp lists, computed by the definitions the loops are proved against.
module HashExamples {
  import Jenkins
  import Crc32
  import opened Md5
  import opened Md5Transform

  // "The quick br", "own fox jump", "s over the l" and "azy dog".
  function Fox1(): (s: seq<bv8>)
    ensures |s| == 12
  {
    [0x54, 0x68, 0x65, 0x20, 0x71, 0x75, 0x69, 0x63, 0x6b, 0x20, 0x62, 0x72]
  }

  function Fox2(): (s: seq<bv8>)
    ensures |s| == 12
  {
    [0x6f, 0x77, 0x6e, 0x20, 0x66, 0x6f, 0x78, 0x20, 0x6a, 0x75, 0x6d, 0x70]
  }

  function Fox3(): (s: seq<bv8>)
    ensures |s| == 12
  {
    [0x73, 0x20, 0x6f, 0x76, 0x65, 0x72, 0x20, 0x74, 0x68, 0x65, 0x20, 0x6c]
  }

  function Fox4(): (s: seq<bv8>)
    ensures |s| == 7
  {
    [0x61, 0x7a, 0x79, 0x20, 0x64, 0x6f, 0x67]
  }

  function Fox(): (s: seq<bv8>)
    ensures |s| == 43
  {
    Fox1() + Fox2() + Fox3() + Fox4()
  }

  // ---------------------------------------------------------------- Jenkins

  lemma OneBlock(st: Jenkins.Abc, p: seq<bv8>, rest: seq<bv8>)
    requires |p| == 12 && rest != []
    ensures Jenkins.Hash(st, p + rest) == Jenkins.Hash(Jenkins.Mix(Jenkins.AddBlock(st, p)), rest)
  {
    hide Jenkins.Mix, Jenkins.FinalMix, Jenkins.Plus, Jenkins.Word;
    assert (p + rest)[12..] == rest;
    assert Jenkins.AddBlock(st, p + rest) == Jenkins.AddBlock(st, p);
  }

  lemma Jenkins1()
    ensures Jenkins.Mix(Jenkins.AddBlock(Jenkins.Abc(0xdeadbf27, 0xdeadbf27, 0xdeadbf27), Fox1()))
            == Jenkins.Abc(0x4e8f0e26, 0xecd2325f, 0x36766782)
  {
    assert Jenkins.AddBlock(Jenkins.Abc(0xdeadbf27, 0xdeadbf27, 0xdeadbf27), Fox1())
           == Jenkins.Abc(0xff13277b, 0x42173498, 0x510fdf92);
    hide Jenkins.AddBlock;
  }

  lemma Jenkins2()
    ensures Jenkins.Mix(Jenkins.AddBlock(Jenkins.Abc(0x4e8f0e26, 0xecd2325f, 0x36766782), Fox2()))
            == Jenkins.Abc(0x73ad4768, 0xdb79e45d, 0xa7daf324)
  {
    assert Jenkins.AddBlock(Jenkins.Abc(0x4e8f0e26, 0xecd2325f, 0x36766782), Fox2())
           == Jenkins.Abc(0x6efd8595, 0x0d4aa1c5, 0xa6e3dcec);
    hide Jenkins.AddBlock;
  }

  lemma Jenkins3()
    ensures Jenkins.Mix(Jenkins.AddBlock(Jenkins.Abc(0x73ad4768, 0xdb79e45d, 0xa7daf324), Fox3()))
            == Jenkins.Abc(0x98b9de71, 0xd6d9b3c6, 0xb776cf8b)
  {
    assert Jenkins.AddBlock(Jenkins.Abc(0x73ad4768, 0xdb79e45d, 0xa7daf324), Fox3())
           == Jenkins.Abc(0xea1c67db, 0x4f9a56c2, 0x13fb588c);
    hide Jenkins.AddBlock;
  }

  lemma Jenkins4()
    ensures Jenkins.FinalMix(Jenkins.AddBlock(Jenkins.Abc(0x98b9de71, 0xd6d9b3c6, 0xb776cf8b), Fox4()))
            == Jenkins.Abc(0xffbc0adb, 0xfa2a7c54, 0x12b8163c)
  {
    assert Jenkins.AddBlock(Jenkins.Abc(0x98b9de71, 0xd6d9b3c6, 0xb776cf8b), Fox4())
           == Jenkins.Abc(0xb93358d2, 0xd741232a, 0xb776cf8b);
    hide Jenkins.AddBlock;
  }

  lemma JenkinsStart()
    ensures Jenkins.Start(43) == Jenkins.Abc(0xdeadbf27, 0xdeadbf27, 0xdeadbf27)
  {
    assert 43 % 0x1_0000_0000 == 43;
  }

  // jenkins, last entry.
  lemma JenkinsOfFox()
    ensures Jenkins.Hash(Jenkins.Start(43), Fox()) == 314054204
  {
    hide Jenkins.Mix, Jenkins.FinalMix, Jenkins.AddBlock, Fox1, Fox2, Fox3, Fox4, Jenkins.Start;
    var a, b, c, d := Fox1(), Fox2(), Fox3(), Fox4();
    assert a + b + c + d == a + (b + (c + d));
    JenkinsStart();
    Jenkins1();
    Jenkins2();
    Jenkins3();
    Jenkins4();
    OneBlock(Jenkins.Abc(0xdeadbf27, 0xdeadbf27, 0xdeadbf27), a, b + (c + d));
    OneBlock(Jenkins.Abc(0x4e8f0e26, 0xecd2325f, 0x36766782), b, c + d);
    OneBlock(Jenkins.Abc(0x73ad4768, 0xdb79e45d, 0xa7daf324), c, d);
  }

  // ---------------------------------------------------------------- CRC

  function Apple(): seq<bv8> {
    [0x61, 0x70, 0x70, 0x6c, 0x65]
  }

  lemma CrcSteps()
    ensures Crc32.Step8(Crc32.Feed(0xffffffff, 0x61)) == 0x174841bc
    ensures Crc32.Step8(Crc32.Feed(0x174841bc, 0x70)) == 0x92c5c6da
    ensures Crc32.Step8(Crc32.Feed(0x92c5c6da, 0x70)) == 0x36918f30
    ensures Crc32.Step8(Crc32.Feed(0x36918f30, 0x6c)) == 0x62eb8c50
    ensures Crc32.Step8(Crc32.Feed(0x62eb8c50, 0x65)) == 0x56d12faf
  {
  }

  // crc, first entry.
  lemma CrcOfApple()
    ensures (Crc32.Crc(Apple()) >> 16) & 0x7fff == 10542
  {
    hide Crc32.Step8, Crc32.Feed;
    CrcSteps();
    var s := Apple();
    assert s[1..] == [0x70, 0x70, 0x6c, 0x65] && s[2..] == [0x70, 0x6c, 0x65];
    assert s[3..] == [0x6c, 0x65] && s[4..] == [0x65];
    assert Crc32.Register(0x174841bc, s[1..]) == Crc32.Register(0x92c5c6da, s[2..])
           == Crc32.Register(0x36918f30, s[3..]);
    assert Crc32.Register(0x36918f30, s[3..]) == Crc32.Register(0x62eb8c50, s[4..]) == Crc32.Register(0x56d12faf, []);
  }

  // ---------------------------------------------------------------- MD5

  // The one block that Fox becomes by padding, as words.
  function Block(): (x: seq<bv32>)
    ensures |x| == 16
  {
    [0x20656854, 0x63697571, 0x7262206b, 0x206e776f, 0x20786f66, 0x706d756a, 0x766f2073, 0x74207265,
     0x6c206568, 0x20797a61, 0x80676f64, 0x00000000, 0x00000000, 0x00000000, 0x00000158, 0x00000000]
  }

  lemma BlockWords()
    ensures var x := Block(); x[0] == 0x20656854 && x[1] == 0x63697571 && x[2] == 0x7262206b && x[3] == 0x206e776f
    ensures var x := Block(); x[4] == 0x20786f66 && x[5] == 0x706d756a && x[6] == 0x766f2073 && x[7] == 0x74207265
    ensures var x := Block(); x[8] == 0x6c206568 && x[9] == 0x20797a61 && x[10] == 0x80676f64 && x[11] == 0x00000000
    ensures var x := Block(); x[12] == 0x00000000 && x[13] == 0x00000000 && x[14] == 0x00000158 && x[15] == 0x00000000
  {
  }

  lemma Md5Round1()
    ensures var x := Block();
            Group(Group(Group(Group(Words(0x67452301, 0xefcdab89, 0x98badcfe, 0x10325476),
                                    x, 0), x, 1), x, 2), x, 3)
            == Words(0xd83df4bd, 0x5f98dbfa, 0xba2a7422, 0xb9f6e20c)
  {
    Indices();
    Constants1();
    BlockWords();
    hide Index, Block, T, Shift;
    assert Group(Words(0x67452301, 0xefcdab89, 0x98badcfe, 0x10325476), Block(), 0)
           == Words(0xd7d41184, 0x1c0206b8, 0x304f925c, 0xfcc78449);
    assert Group(Words(0xd7d41184, 0x1c0206b8, 0x304f925c, 0xfcc78449), Block(), 1)
           == Words(0x640b8027, 0x3caf3300, 0x87539299, 0x9130dcb7);
    assert Group(Words(0x640b8027, 0x3caf3300, 0x87539299, 0x9130dcb7), Block(), 2)
           == Words(0x9cddc25f, 0x77b379d7, 0x445bc154, 0x82f23826);
  }

  lemma Md5Round2()
    ensures var x := Block();
            Group(Group(Group(Group(Words(0xd83df4bd, 0x5f98dbfa, 0xba2a7422, 0xb9f6e20c),
                                    x, 4), x, 5), x, 6), x, 7)
            == Words(0x783665b1, 0xa14e96ed, 0xced65265, 0xd7e7680d)
  {
    Indices();
    Constants2();
    BlockWords();
    hide Index, Block, T, Shift;
    assert Group(Words(0xd83df4bd, 0x5f98dbfa, 0xba2a7422, 0xb9f6e20c), Block(), 4)
           == Words(0x0b659343, 0x6598c09d, 0x5e168480, 0xba08c5c3);
    assert Group(Words(0x0b659343, 0x6598c09d, 0x5e168480, 0xba08c5c3), Block(), 5)
           == Words(0x29b3f213, 0x79b516bb, 0xaf2f41f5, 0xc7c720df);
    assert Group(Words(0x29b3f213, 0x79b516bb, 0xaf2f41f5, 0xc7c720df), Block(), 6)
           == Words(0x31449975, 0x2746f870, 0x6e5df8fc, 0x55c7b36e);
  }

  lemma Md5Round3()
    ensures var x := Block();
            Group(Group(Group(Group(Words(0x783665b1, 0xa14e96ed, 0xced65265, 0xd7e7680d),
                                    x, 8), x, 9), x, 10), x, 11)
            == Words(0xddc672c8, 0x60590164, 0x4f59dd0e, 0x07005f10)
  {
    Indices();
    Constants3();
    BlockWords();
    hide Index, Block, T, Shift;
    assert Group(Words(0x783665b1, 0xa14e96ed, 0xced65265, 0xd7e7680d), Block(), 8)
           == Words(0xb32aa517, 0x2a17ad99, 0x298094ff, 0x14575258);
    assert Group(Words(0xb32aa517, 0x2a17ad99, 0x298094ff, 0x14575258), Block(), 9)
           == Words(0x5b4eae46, 0xcbe60abc, 0xde246f3a, 0x9c92ed12);
    assert Group(Words(0x5b4eae46, 0xcbe60abc, 0xde246f3a, 0x9c92ed12), Block(), 10)
           == Words(0x9f9164bc, 0x319a447b, 0x72ff61be, 0x0386364b);
  }

  lemma Md5Round4()
    ensures var x := Block();
            Group(Group(Group(Group(Words(0xddc672c8, 0x60590164, 0x4f59dd0e, 0x07005f10),
                                    x, 12), x, 13), x, 14), x, 15)
            == Words(0x3637ed9d, 0x92e87fae, 0x9c62fb6d, 0xc5e74fcc)
  {
    Indices();
    Constants4();
    BlockWords();
    hide Index, Block, T, Shift;
    assert Group(Words(0xddc672c8, 0x60590164, 0x4f59dd0e, 0x07005f10), Block(), 12)
           == Words(0xdf3791ce, 0x709c6bdf, 0x8155ad25, 0xc9462f46);
    assert Group(Words(0xdf3791ce, 0x709c6bdf, 0x8155ad25, 0xc9462f46), Block(), 13)
           == Words(0x8f6d06ae, 0x4e5f2898, 0x42d1d7a5, 0x622ea6ce);
    assert Group(Words(0x8f6d06ae, 0x4e5f2898, 0x42d1d7a5, 0x622ea6ce), Block(), 14)
           == Words(0x5f8548da, 0x08140d1f, 0xf831a760, 0x8ebd0923);
  }

  // The padding and the bit count, and the last part of that block.
  function Padding(): (s: seq<bv8>)
    ensures |s| == 13
  {
    [0x80, 0x00, 0x00, 0x00, 0x00, 0x00, 0x00, 0x00, 0x00, 0x00, 0x00, 0x00, 0x00]
  }

  function Count(): (s: seq<bv8>)
    ensures |s| == 8
  {
    [0x58, 0x01, 0x00, 0x00, 0x00, 0x00, 0x00, 0x00]
  }

  function Tail(): (s: seq<bv8>)
    ensures |s| == 28
  {
    Fox4() + Padding() + Count()
  }

  lemma PaddingIs()
    ensures PadBits(43) == Padding()
  {
  }

  lemma CountIs()
    ensures PadCount(43) == Count()
  {
    assert 8 * 43 % COUNT % WORD == 344 && 8 * 43 % COUNT / WORD == 0;
  }

  // The words of a part of a block that starts at a word.
  lemma WordInside(p: seq<bv8>, q: seq<bv8>, part: seq<bv8>, r: seq<bv8>, k: nat, j: nat)
    requires |p| == 64 && p == q + part + r && |q| == 4 * k && 4 * j + 4 <= |part|
    ensures DecodeWords(p)[k + j] == Word(part[4 * j], part[4 * j + 1], part[4 * j + 2], part[4 * j + 3])
  {
    hide Word;
  }

  lemma PartWords()
    ensures var s := Fox1(); Word(s[0], s[1], s[2], s[3]) == 0x20656854
    ensures var s := Fox1(); Word(s[4], s[5], s[6], s[7]) == 0x63697571
    ensures var s := Fox1(); Word(s[8], s[9], s[10], s[11]) == 0x7262206b
    ensures var s := Fox2(); Word(s[0], s[1], s[2], s[3]) == 0x206e776f
    ensures var s := Fox2(); Word(s[4], s[5], s[6], s[7]) == 0x20786f66
    ensures var s := Fox2(); Word(s[8], s[9], s[10], s[11]) == 0x706d756a
    ensures var s := Fox3(); Word(s[0], s[1], s[2], s[3]) == 0x766f2073
    ensures var s := Fox3(); Word(s[4], s[5], s[6], s[7]) == 0x74207265
    ensures var s := Fox3(); Word(s[8], s[9], s[10], s[11]) == 0x6c206568
    ensures var s := Tail(); Word(s[0], s[1], s[2], s[3]) == 0x20797a61
    ensures var s := Tail(); Word(s[4], s[5], s[6], s[7]) == 0x80676f64
    ensures var s := Tail(); Word(s[8], s[9], s[10], s[11]) == 0x00000000
    ensures var s := Tail(); Word(s[12], s[13], s[14], s[15]) == 0x00000000
    ensures var s := Tail(); Word(s[16], s[17], s[18], s[19]) == 0x00000000
    ensures var s := Tail(); Word(s[20], s[21], s[22], s[23]) == 0x00000158
    ensures var s := Tail(); Word(s[24], s[25], s[26], s[27]) == 0x00000000
  {
  }

  lemma PaddedFox()
    ensures |Fox() + PadBits(43) + PadCount(43)| == 64
    ensures DecodeWords(Fox() + PadBits(43) + PadCount(43)) == Block()
  {
    var a, b, c, d := Fox1(), Fox2(), Fox3(), Tail();
    var p := a + b + c + d;
    PartWords();
    BlockWords();
    PaddingIs();
    CountIs();
    hide Fox1, Fox2, Fox3, Fox4, Padding, Count, Block, Word, DecodeWords, PadBits, PadCount;
    assert Fox() + PadBits(43) + PadCount(43) == p;
    assert p == [] + a + (b + c + d) && p == a + b + (c + d) && p == (a + b) + c + d && p == (a + b + c) + d + [];
    WordInside(p, [], a, b + c + d, 0, 0);
    WordInside(p, [], a, b + c + d, 0, 1);
    WordInside(p, [], a, b + c + d, 0, 2);
    WordInside(p, a, b, c + d, 3, 0);
    WordInside(p, a, b, c + d, 3, 1);
    WordInside(p, a, b, c + d, 3, 2);
    WordInside(p, a + b, c, d, 6, 0);
    WordInside(p, a + b, c, d, 6, 1);
    WordInside(p, a + b, c, d, 6, 2);
    WordInside(p, a + b + c, d, [], 9, 0);
    WordInside(p, a + b + c, d, [], 9, 1);
    WordInside(p, a + b + c, d, [], 9, 2);
    WordInside(p, a + b + c, d, [], 9, 3);
    WordInside(p, a + b + c, d, [], 9, 4);
    WordInside(p, a + b + c, d, [], 9, 5);
    WordInside(p, a + b + c, d, [], 9, 6);
  }

  // md5, last entry: the digest, of which hashkit_md5 takes the first word.
  lemma Md5OfFox()
    ensures Digest(Compressed, Fox()) == WordBytes(Words(0x9d7d109e, 0x82b62b37, 0x351dd86b, 0xd619a442))
    ensures 0x9d7d109e == 2642219166
  {
    hide Group, DecodeWords, PadBits, PadCount, Fox, Block, WordBytes;
    Md5Round1();
    Md5Round2();
    Md5Round3();
    Md5Round4();
    SixteenGroups(INIT, Block());
    PaddedFox();
    var p := Fox() + PadBits(43) + PadCount(43);
    assert p[..64] == p && p[64..] == [];
    assert Chain(Compressed, INIT, p) == Chain(Compressed, Compressed(INIT, p), []) == Compressed(INIT, p);
  }
}
