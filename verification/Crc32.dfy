// hashkit_crc32 of src/libhashkit/crc32.cc against the bit-at-a-time CRC-32 (section 8 of RFC 1952).
module Crc32 {
  // One bit of the reflected CRC: shift right, and subtract the polynomial if a 1 fell out.
  function Step(c: bv32): bv32 {
    if Odd(c) then Xor(Half(c), 0xedb88320) else Half(c)
  }

  predicate Odd(c: bv32) { c & 1 != 0 }
  function Half(c: bv32): bv32 { c >> 1 }
  function Xor(x: bv32, y: bv32): bv32 { x ^ y }

  // Eight bits: what one key byte costs.
  function Step8(c: bv32): bv32 {
    Step(Step(Step(Step(Step(Step(Step(Step(c))))))))
  }

  // ---------------------------------------------------------------- crc32tab, by rows of sixteen

  function Row0(lo: bv8): (r: bv32)
    requires lo < 0x10
    ensures r == Step8(0x00 | lo as bv32)
  {
    if lo == 0x0 then 0x00000000 else if lo == 0x1 then 0x77073096 else if lo == 0x2 then 0xee0e612c else if lo == 0x3 then 0x990951ba else
    if lo == 0x4 then 0x076dc419 else if lo == 0x5 then 0x706af48f else if lo == 0x6 then 0xe963a535 else if lo == 0x7 then 0x9e6495a3 else
    if lo == 0x8 then 0x0edb8832 else if lo == 0x9 then 0x79dcb8a4 else if lo == 0xa then 0xe0d5e91e else if lo == 0xb then 0x97d2d988 else
    if lo == 0xc then 0x09b64c2b else if lo == 0xd then 0x7eb17cbd else if lo == 0xe then 0xe7b82d07 else 0x90bf1d91
  }

  function Row1(lo: bv8): (r: bv32)
    requires lo < 0x10
    ensures r == Step8(0x10 | lo as bv32)
  {
    if lo == 0x0 then 0x1db71064 else if lo == 0x1 then 0x6ab020f2 else if lo == 0x2 then 0xf3b97148 else if lo == 0x3 then 0x84be41de else
    if lo == 0x4 then 0x1adad47d else if lo == 0x5 then 0x6ddde4eb else if lo == 0x6 then 0xf4d4b551 else if lo == 0x7 then 0x83d385c7 else
    if lo == 0x8 then 0x136c9856 else if lo == 0x9 then 0x646ba8c0 else if lo == 0xa then 0xfd62f97a else if lo == 0xb then 0x8a65c9ec else
    if lo == 0xc then 0x14015c4f else if lo == 0xd then 0x63066cd9 else if lo == 0xe then 0xfa0f3d63 else 0x8d080df5
  }

  function Row2(lo: bv8): (r: bv32)
    requires lo < 0x10
    ensures r == Step8(0x20 | lo as bv32)
  {
    if lo == 0x0 then 0x3b6e20c8 else if lo == 0x1 then 0x4c69105e else if lo == 0x2 then 0xd56041e4 else if lo == 0x3 then 0xa2677172 else
    if lo == 0x4 then 0x3c03e4d1 else if lo == 0x5 then 0x4b04d447 else if lo == 0x6 then 0xd20d85fd else if lo == 0x7 then 0xa50ab56b else
    if lo == 0x8 then 0x35b5a8fa else if lo == 0x9 then 0x42b2986c else if lo == 0xa then 0xdbbbc9d6 else if lo == 0xb then 0xacbcf940 else
    if lo == 0xc then 0x32d86ce3 else if lo == 0xd then 0x45df5c75 else if lo == 0xe then 0xdcd60dcf else 0xabd13d59
  }

  function Row3(lo: bv8): (r: bv32)
    requires lo < 0x10
    ensures r == Step8(0x30 | lo as bv32)
  {
    if lo == 0x0 then 0x26d930ac else if lo == 0x1 then 0x51de003a else if lo == 0x2 then 0xc8d75180 else if lo == 0x3 then 0xbfd06116 else
    if lo == 0x4 then 0x21b4f4b5 else if lo == 0x5 then 0x56b3c423 else if lo == 0x6 then 0xcfba9599 else if lo == 0x7 then 0xb8bda50f else
    if lo == 0x8 then 0x2802b89e else if lo == 0x9 then 0x5f058808 else if lo == 0xa then 0xc60cd9b2 else if lo == 0xb then 0xb10be924 else
    if lo == 0xc then 0x2f6f7c87 else if lo == 0xd then 0x58684c11 else if lo == 0xe then 0xc1611dab else 0xb6662d3d
  }

  function Row4(lo: bv8): (r: bv32)
    requires lo < 0x10
    ensures r == Step8(0x40 | lo as bv32)
  {
    if lo == 0x0 then 0x76dc4190 else if lo == 0x1 then 0x01db7106 else if lo == 0x2 then 0x98d220bc else if lo == 0x3 then 0xefd5102a else
    if lo == 0x4 then 0x71b18589 else if lo == 0x5 then 0x06b6b51f else if lo == 0x6 then 0x9fbfe4a5 else if lo == 0x7 then 0xe8b8d433 else
    if lo == 0x8 then 0x7807c9a2 else if lo == 0x9 then 0x0f00f934 else if lo == 0xa then 0x9609a88e else if lo == 0xb then 0xe10e9818 else
    if lo == 0xc then 0x7f6a0dbb else if lo == 0xd then 0x086d3d2d else if lo == 0xe then 0x91646c97 else 0xe6635c01
  }

  function Row5(lo: bv8): (r: bv32)
    requires lo < 0x10
    ensures r == Step8(0x50 | lo as bv32)
  {
    if lo == 0x0 then 0x6b6b51f4 else if lo == 0x1 then 0x1c6c6162 else if lo == 0x2 then 0x856530d8 else if lo == 0x3 then 0xf262004e else
    if lo == 0x4 then 0x6c0695ed else if lo == 0x5 then 0x1b01a57b else if lo == 0x6 then 0x8208f4c1 else if lo == 0x7 then 0xf50fc457 else
    if lo == 0x8 then 0x65b0d9c6 else if lo == 0x9 then 0x12b7e950 else if lo == 0xa then 0x8bbeb8ea else if lo == 0xb then 0xfcb9887c else
    if lo == 0xc then 0x62dd1ddf else if lo == 0xd then 0x15da2d49 else if lo == 0xe then 0x8cd37cf3 else 0xfbd44c65
  }

  function Row6(lo: bv8): (r: bv32)
    requires lo < 0x10
    ensures r == Step8(0x60 | lo as bv32)
  {
    if lo == 0x0 then 0x4db26158 else if lo == 0x1 then 0x3ab551ce else if lo == 0x2 then 0xa3bc0074 else if lo == 0x3 then 0xd4bb30e2 else
    if lo == 0x4 then 0x4adfa541 else if lo == 0x5 then 0x3dd895d7 else if lo == 0x6 then 0xa4d1c46d else if lo == 0x7 then 0xd3d6f4fb else
    if lo == 0x8 then 0x4369e96a else if lo == 0x9 then 0x346ed9fc else if lo == 0xa then 0xad678846 else if lo == 0xb then 0xda60b8d0 else
    if lo == 0xc then 0x44042d73 else if lo == 0xd then 0x33031de5 else if lo == 0xe then 0xaa0a4c5f else 0xdd0d7cc9
  }

  function Row7(lo: bv8): (r: bv32)
    requires lo < 0x10
    ensures r == Step8(0x70 | lo as bv32)
  {
    if lo == 0x0 then 0x5005713c else if lo == 0x1 then 0x270241aa else if lo == 0x2 then 0xbe0b1010 else if lo == 0x3 then 0xc90c2086 else
    if lo == 0x4 then 0x5768b525 else if lo == 0x5 then 0x206f85b3 else if lo == 0x6 then 0xb966d409 else if lo == 0x7 then 0xce61e49f else
    if lo == 0x8 then 0x5edef90e else if lo == 0x9 then 0x29d9c998 else if lo == 0xa then 0xb0d09822 else if lo == 0xb then 0xc7d7a8b4 else
    if lo == 0xc then 0x59b33d17 else if lo == 0xd then 0x2eb40d81 else if lo == 0xe then 0xb7bd5c3b else 0xc0ba6cad
  }

  function Row8(lo: bv8): (r: bv32)
    requires lo < 0x10
    ensures r == Step8(0x80 | lo as bv32)
  {
    if lo == 0x0 then 0xedb88320 else if lo == 0x1 then 0x9abfb3b6 else if lo == 0x2 then 0x03b6e20c else if lo == 0x3 then 0x74b1d29a else
    if lo == 0x4 then 0xead54739 else if lo == 0x5 then 0x9dd277af else if lo == 0x6 then 0x04db2615 else if lo == 0x7 then 0x73dc1683 else
    if lo == 0x8 then 0xe3630b12 else if lo == 0x9 then 0x94643b84 else if lo == 0xa then 0x0d6d6a3e else if lo == 0xb then 0x7a6a5aa8 else
    if lo == 0xc then 0xe40ecf0b else if lo == 0xd then 0x9309ff9d else if lo == 0xe then 0x0a00ae27 else 0x7d079eb1
  }

  function Row9(lo: bv8): (r: bv32)
    requires lo < 0x10
    ensures r == Step8(0x90 | lo as bv32)
  {
    if lo == 0x0 then 0xf00f9344 else if lo == 0x1 then 0x8708a3d2 else if lo == 0x2 then 0x1e01f268 else if lo == 0x3 then 0x6906c2fe else
    if lo == 0x4 then 0xf762575d else if lo == 0x5 then 0x806567cb else if lo == 0x6 then 0x196c3671 else if lo == 0x7 then 0x6e6b06e7 else
    if lo == 0x8 then 0xfed41b76 else if lo == 0x9 then 0x89d32be0 else if lo == 0xa then 0x10da7a5a else if lo == 0xb then 0x67dd4acc else
    if lo == 0xc then 0xf9b9df6f else if lo == 0xd then 0x8ebeeff9 else if lo == 0xe then 0x17b7be43 else 0x60b08ed5
  }

  function RowA(lo: bv8): (r: bv32)
    requires lo < 0x10
    ensures r == Step8(0xa0 | lo as bv32)
  {
    if lo == 0x0 then 0xd6d6a3e8 else if lo == 0x1 then 0xa1d1937e else if lo == 0x2 then 0x38d8c2c4 else if lo == 0x3 then 0x4fdff252 else
    if lo == 0x4 then 0xd1bb67f1 else if lo == 0x5 then 0xa6bc5767 else if lo == 0x6 then 0x3fb506dd else if lo == 0x7 then 0x48b2364b else
    if lo == 0x8 then 0xd80d2bda else if lo == 0x9 then 0xaf0a1b4c else if lo == 0xa then 0x36034af6 else if lo == 0xb then 0x41047a60 else
    if lo == 0xc then 0xdf60efc3 else if lo == 0xd then 0xa867df55 else if lo == 0xe then 0x316e8eef else 0x4669be79
  }

  function RowB(lo: bv8): (r: bv32)
    requires lo < 0x10
    ensures r == Step8(0xb0 | lo as bv32)
  {
    if lo == 0x0 then 0xcb61b38c else if lo == 0x1 then 0xbc66831a else if lo == 0x2 then 0x256fd2a0 else if lo == 0x3 then 0x5268e236 else
    if lo == 0x4 then 0xcc0c7795 else if lo == 0x5 then 0xbb0b4703 else if lo == 0x6 then 0x220216b9 else if lo == 0x7 then 0x5505262f else
    if lo == 0x8 then 0xc5ba3bbe else if lo == 0x9 then 0xb2bd0b28 else if lo == 0xa then 0x2bb45a92 else if lo == 0xb then 0x5cb36a04 else
    if lo == 0xc then 0xc2d7ffa7 else if lo == 0xd then 0xb5d0cf31 else if lo == 0xe then 0x2cd99e8b else 0x5bdeae1d
  }

  function RowC(lo: bv8): (r: bv32)
    requires lo < 0x10
    ensures r == Step8(0xc0 | lo as bv32)
  {
    if lo == 0x0 then 0x9b64c2b0 else if lo == 0x1 then 0xec63f226 else if lo == 0x2 then 0x756aa39c else if lo == 0x3 then 0x026d930a else
    if lo == 0x4 then 0x9c0906a9 else if lo == 0x5 then 0xeb0e363f else if lo == 0x6 then 0x72076785 else if lo == 0x7 then 0x05005713 else
    if lo == 0x8 then 0x95bf4a82 else if lo == 0x9 then 0xe2b87a14 else if lo == 0xa then 0x7bb12bae else if lo == 0xb then 0x0cb61b38 else
    if lo == 0xc then 0x92d28e9b else if lo == 0xd then 0xe5d5be0d else if lo == 0xe then 0x7cdcefb7 else 0x0bdbdf21
  }

  function RowD(lo: bv8): (r: bv32)
    requires lo < 0x10
    ensures r == Step8(0xd0 | lo as bv32)
  {
    if lo == 0x0 then 0x86d3d2d4 else if lo == 0x1 then 0xf1d4e242 else if lo == 0x2 then 0x68ddb3f8 else if lo == 0x3 then 0x1fda836e else
    if lo == 0x4 then 0x81be16cd else if lo == 0x5 then 0xf6b9265b else if lo == 0x6 then 0x6fb077e1 else if lo == 0x7 then 0x18b74777 else
    if lo == 0x8 then 0x88085ae6 else if lo == 0x9 then 0xff0f6a70 else if lo == 0xa then 0x66063bca else if lo == 0xb then 0x11010b5c else
    if lo == 0xc then 0x8f659eff else if lo == 0xd then 0xf862ae69 else if lo == 0xe then 0x616bffd3 else 0x166ccf45
  }

  function RowE(lo: bv8): (r: bv32)
    requires lo < 0x10
    ensures r == Step8(0xe0 | lo as bv32)
  {
    if lo == 0x0 then 0xa00ae278 else if lo == 0x1 then 0xd70dd2ee else if lo == 0x2 then 0x4e048354 else if lo == 0x3 then 0x3903b3c2 else
    if lo == 0x4 then 0xa7672661 else if lo == 0x5 then 0xd06016f7 else if lo == 0x6 then 0x4969474d else if lo == 0x7 then 0x3e6e77db else
    if lo == 0x8 then 0xaed16a4a else if lo == 0x9 then 0xd9d65adc else if lo == 0xa then 0x40df0b66 else if lo == 0xb then 0x37d83bf0 else
    if lo == 0xc then 0xa9bcae53 else if lo == 0xd then 0xdebb9ec5 else if lo == 0xe then 0x47b2cf7f else 0x30b5ffe9
  }

  function RowF(lo: bv8): (r: bv32)
    requires lo < 0x10
    ensures r == Step8(0xf0 | lo as bv32)
  {
    if lo == 0x0 then 0xbdbdf21c else if lo == 0x1 then 0xcabac28a else if lo == 0x2 then 0x53b39330 else if lo == 0x3 then 0x24b4a3a6 else
    if lo == 0x4 then 0xbad03605 else if lo == 0x5 then 0xcdd70693 else if lo == 0x6 then 0x54de5729 else if lo == 0x7 then 0x23d967bf else
    if lo == 0x8 then 0xb3667a2e else if lo == 0x9 then 0xc4614ab8 else if lo == 0xa then 0x5d681b02 else if lo == 0xb then 0x2a6f2b94 else
    if lo == 0xc then 0xb40bbe37 else if lo == 0xd then 0xc30c8ea1 else if lo == 0xe then 0x5a05df1b else 0x2d02ef8d
  }

  function Table(x: bv8): bv32 {
    var hi, lo := x >> 4, x & 0x0f;
    if hi == 0x0 then Row0(lo) else
    if hi == 0x1 then Row1(lo) else
    if hi == 0x2 then Row2(lo) else
    if hi == 0x3 then Row3(lo) else
    if hi == 0x4 then Row4(lo) else
    if hi == 0x5 then Row5(lo) else
    if hi == 0x6 then Row6(lo) else
    if hi == 0x7 then Row7(lo) else
    if hi == 0x8 then Row8(lo) else
    if hi == 0x9 then Row9(lo) else
    if hi == 0xa then RowA(lo) else
    if hi == 0xb then RowB(lo) else
    if hi == 0xc then RowC(lo) else
    if hi == 0xd then RowD(lo) else
    if hi == 0xe then RowE(lo) else
    RowF(lo)
  }

  lemma TableIsStep8(x: bv8)
    ensures Table(x) == Step8(x as bv32)
  {
    hide Step8;
    SplitNibbles(x);
  }

  lemma SplitNibbles(x: bv8)
    ensures x as bv32 == (x >> 4 << 4) as bv32 | (x & 0x0f) as bv32
  {
  }

  // ---------------------------------------------------------------- eight bits at once

  function Shift8(c: bv32): bv32 { c >> 8 }
  function High(c: bv32): bv32 { c & 0xffffff00 }
  function Low(c: bv32): bv8 { (c & 0xff) as bv8 }
  function Feed(c: bv32, b: bv8): bv32 { c ^ (b as bv32) }

  lemma OddXor(x: bv32, y: bv32)
    ensures Odd(Xor(x, y)) == (Odd(x) != Odd(y))
    ensures Half(Xor(x, y)) == Xor(Half(x), Half(y))
  {
  }

  lemma XorCancels(x: bv32, y: bv32, p: bv32)
    ensures Xor(Xor(x, p), Xor(y, p)) == Xor(x, y)
  {
    assert (x ^ p) ^ (y ^ p) == x ^ y;
  }

  lemma XorAssociates(x: bv32, y: bv32, p: bv32)
    ensures Xor(Xor(x, y), p) == Xor(x, Xor(y, p))
  {
    assert (x ^ y) ^ p == x ^ (y ^ p);
  }

  lemma XorCommutes(x: bv32, y: bv32)
    ensures Xor(x, y) == Xor(y, x)
  {
  }

  lemma StepLinear(x: bv32, y: bv32)
    ensures Step(Xor(x, y)) == Xor(Step(x), Step(y))
  {
    hide Odd, Half, Xor;
    OddXor(x, y);
    XorCancels(Half(x), Half(y), 0xedb88320);
    XorAssociates(Half(x), Half(y), 0xedb88320);
    XorAssociates(Half(y), Half(x), 0xedb88320);
    XorCommutes(Half(x), Half(y));
    XorCommutes(Half(y), Xor(Half(x), 0xedb88320));
  }

  lemma Step8Linear(x: bv32, y: bv32)
    ensures Step8(Xor(x, y)) == Xor(Step8(x), Step8(y))
  {
    hide Step, Xor;
    var x1, y1 := Step(x), Step(y);
    var x2, y2 := Step(x1), Step(y1);
    var x3, y3 := Step(x2), Step(y2);
    var x4, y4 := Step(x3), Step(y3);
    var x5, y5 := Step(x4), Step(y4);
    var x6, y6 := Step(x5), Step(y5);
    StepLinear(x, y);
    StepLinear(x1, y1);
    StepLinear(x2, y2);
    StepLinear(x3, y3);
    StepLinear(x4, y4);
    StepLinear(x5, y5);
    StepLinear(x6, y6);
    StepLinear(Step(x6), Step(y6));
  }

  // Bits above the low eight are only shifted.
  lemma Step8High(c: bv32)
    ensures Step8(High(c)) == Shift8(c)
  {
  }

  // The table step of the loop does the work of eight bit steps.
  lemma TableStep(c: bv32, b: bv8)
    ensures Xor(Shift8(c), Table(Low(Feed(c, b)))) == Step8(Feed(c, b))
  {
    hide Step8, Table, Xor, Shift8, High, Low, Feed;
    var z := Feed(c, b);
    HighAndLow(z);
    FeedKeepsHigh(c, b);
    TableIsStep8(Low(z));
    Step8High(z);
    Step8Linear(High(z), Low(z) as bv32);
  }

  lemma HighAndLow(z: bv32)
    ensures z == Xor(High(z), Low(z) as bv32)
  {
  }

  lemma FeedKeepsHigh(c: bv32, b: bv8)
    ensures Shift8(Feed(c, b)) == Shift8(c)
  {
  }

  // ---------------------------------------------------------------- the hash

  // The register after the bytes of s, bit by bit.
  function Register(c: bv32, s: seq<bv8>): bv32
    decreases |s|
  {
    if s == [] then c else Register(Fed(c, s[0]), s[1..])
  }

  // CRC-32 of a key.
  function Crc(key: seq<bv8>): bv32 {
    Not(Register(0xffffffff, key))
  }

  function Not(x: bv32): bv32 { !x }

  lemma CrcOfNothing()
    ensures Crc([]) == 0
  {
  }

  // With c as the complement of the CRC so far, one more byte leaves the complement of c with that byte fed to it.
  lemma CrcOfOneMore(s: seq<bv8>, b: bv8, c: bv32)
    requires Crc(s) == Not(c)
    ensures Crc(s + [b]) == Not(Fed(c, b))
  {
    hide Fed, Register, Not;
    RegisterAppend(0xffffffff, s, b);
    Complements(Register(0xffffffff, s), c);
  }

  // One byte, bit by bit.
  function Fed(c: bv32, b: bv8): bv32 {
    Step8(Feed(c, b))
  }

  lemma Complements(c: bv32, d: bv32)
    ensures Not(c) == Not(d) ==> c == d
  {
  }

  lemma {:induction false} RegisterAppend(c: bv32, s: seq<bv8>, b: bv8)
    ensures Register(c, s + [b]) == Fed(Register(c, s), b)
    decreases |s|
  {
    hide Fed;
    if s == [] {
      assert (s + [b])[1..] == [];
    } else {
      assert (s + [b])[1..] == s[1..] + [b];
      RegisterAppend(Fed(c, s[0]), s[1..], b);
    }
  }

  // crc ^ (uint64_t) key[x], where a plain char may be signed.
  function FeedSigned(c: bv32, b: bv8): bv32 {
    c ^ (if b & 0x80 != 0 then 0xffffff00 | (b as bv32) else b as bv32)
  }

  lemma SignDoesNotMatter(c: bv32, b: bv8)
    ensures Low(FeedSigned(c, b)) == Low(Feed(c, b))
  {
  }

  method Hash(key: seq<bv8>) returns (h: bv32)
    ensures h == (Crc(key) >> 16) & 0x7fff
  {
    hide Step8, Table, FeedSigned, Feed, Low, Shift8, Xor;
    var crc: bv32 := 0xffffffff;
    for x := 0 to |key|
      invariant Register(crc, key[x..]) == Register(0xffffffff, key)
    {
      SignDoesNotMatter(crc, key[x]);
      TableStep(crc, key[x]);
      assert key[x..][1..] == key[x + 1..];
      crc := Xor(Shift8(crc), Table(Low(FeedSigned(crc, key[x]))));
    }
    return ((!crc) >> 16) & 0x7fff;
  }
}
