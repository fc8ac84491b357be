// The streaming digest of src/libhashkit/md5.cc against the block-by-block one of RFC 1321.
// MD5Transform is a parameter: everything below holds for any compression function.  Module Md5Transform has
// the one of the source.
module Md5 {
  type Byte = bv8

  const WORD: nat := 0x1_0000_0000
  const COUNT: nat := 0x1_0000_0000_0000_0000

  datatype Words = Words(a: bv32, b: bv32, c: bv32, d: bv32)

  type Transform = (Words, seq<Byte>) -> Words

  const INIT := Words(0x67452301, 0xefcdab89, 0x98badcfe, 0x10325476)

  // ---------------------------------------------------------------- RFC 1321

  // The state after every whole 64-byte block of m.
  function Chain(f: Transform, s: Words, m: seq<Byte>): Words
    decreases |m|
  {
    if |m| < 64 then s else Chain(f, f(s, m[..64]), m[64..])
  }

  function Zeros(k: nat): (z: seq<Byte>)
    ensures |z| == k
  {
    seq(k, _ => 0)
  }

  function LittleEndian(w: bv32): (b: seq<Byte>)
    ensures |b| == 4
  {
    [Octet0(w), Octet1(w), Octet2(w), Octet3(w)]
  }

  function Octet0(w: bv32): Byte { (w & 0xff) as Byte }
  function Octet1(w: bv32): Byte { ((w >> 8) & 0xff) as Byte }
  function Octet2(w: bv32): Byte { ((w >> 16) & 0xff) as Byte }
  function Octet3(w: bv32): Byte { ((w >> 24) & 0xff) as Byte }

  // A single 1 bit, then zeros up to 56 modulo 64 (section 3.1).
  function PadBits(n: nat): (p: seq<Byte>)
    ensures 1 <= |p| <= 64 && (n + |p|) % 64 == 56
    ensures p[0] == 0x80 && forall i :: 0 < i < |p| ==> p[i] == 0
  {
    [0x80] + Zeros((119 - n % 64) % 64)
  }

  // The bit count modulo 2^64, low word first (section 3.2).
  function PadCount(n: nat): (p: seq<Byte>)
    ensures |p| == 8
  {
    LittleEndian(ToWord(8 * n % COUNT % WORD)) + LittleEndian(ToWord(8 * n % COUNT / WORD))
  }

  function ToWord(n: nat): bv32
    requires n < WORD
  {
    n as bv32
  }

  function WordBytes(s: Words): (b: seq<Byte>)
    ensures |b| == 16
  {
    LittleEndian(s.a) + LittleEndian(s.b) + LittleEndian(s.c) + LittleEndian(s.d)
  }

  // The initial state, low bytes first (section 3.3).
  lemma InitialBytes()
    ensures WordBytes(INIT)
            == [0x01, 0x23, 0x45, 0x67, 0x89, 0xab, 0xcd, 0xef, 0xfe, 0xdc, 0xba, 0x98, 0x76, 0x54, 0x32, 0x10]
  {
    assert LittleEndian(0x67452301) == [0x01, 0x23, 0x45, 0x67] && LittleEndian(0xefcdab89) == [0x89, 0xab, 0xcd, 0xef];
    assert LittleEndian(0x98badcfe) == [0xfe, 0xdc, 0xba, 0x98] && LittleEndian(0x10325476) == [0x76, 0x54, 0x32, 0x10];
  }

  function Digest(f: Transform, m: seq<Byte>): (d: seq<Byte>)
    ensures |d| == 16
  {
    WordBytes(Chain(f, INIT, m + PadBits(|m|) + PadCount(|m|)))
  }

  lemma {:induction false} ChainAppend(f: Transform, s: Words, a: seq<Byte>, b: seq<Byte>)
    requires |a| % 64 == 0
    ensures Chain(f, s, a + b) == Chain(f, Chain(f, s, a), b)
    decreases |a|
  {
    if |a| < 64 {
      assert a + b == b;
    } else {
      assert (a + b)[..64] == a[..64] && (a + b)[64..] == a[64..] + b;
      ChainAppend(f, f(s, a[..64]), a[64..], b);
    }
  }

  // What a digest is, said of a padded message and of the states between its blocks.
  ghost predicate PaddedTo(m: seq<Byte>, p: seq<Byte>) {
    && m <= p && |p| % 64 == 0 && |m| + 9 <= |p| < |m| + 73
    && p[|m|] == 0x80 && (forall i :: |m| < i < |p| - 8 ==> p[i] == 0)
    && p[|p| - 8..|p| - 4] == LowCount(|m|) && p[|p| - 4..] == HighCount(|m|)
  }

  // The low and the high word of the bit count.
  function LowCount(n: nat): seq<Byte> {
    LittleEndian((8 * n % 0x1_0000_0000) as bv32)
  }

  function HighCount(n: nat): seq<Byte> {
    LittleEndian((8 * n / 0x1_0000_0000 % 0x1_0000_0000) as bv32)
  }

  ghost predicate Chained(f: Transform, s: Words, p: seq<Byte>, st: seq<Words>) {
    && |st| == |p| / 64 + 1 && st[0] == s
    && forall i :: 0 <= i < |p| / 64 ==> st[i + 1] == f(st[i], p[64 * i..64 * i + 64])
  }

  lemma {:induction false} ChainMeaning(f: Transform, s: Words, p: seq<Byte>) returns (st: seq<Words>)
    ensures Chained(f, s, p, st) && Chain(f, s, p) == st[|p| / 64]
    decreases |p|
  {
    if |p| < 64 {
      st := [s];
    } else {
      var rest := ChainMeaning(f, f(s, p[..64]), p[64..]);
      st := [s] + rest;
      assert |p[64..]| / 64 == |p| / 64 - 1;
      forall i | 0 <= i < |p| / 64
        ensures st[i + 1] == f(st[i], p[64 * i..64 * i + 64])
      {
        if i == 0 {
          assert p[0..64] == p[..64];
        } else {
          assert rest[i] == f(rest[i - 1], p[64..][64 * (i - 1)..64 * (i - 1) + 64]);
          assert p[64..][64 * (i - 1)..64 * (i - 1) + 64] == p[64 * i..64 * i + 64];
        }
      }
    }
  }

  lemma PaddingMeaning(m: seq<Byte>)
    ensures PaddedTo(m, m + PadBits(|m|) + PadCount(|m|))
  {
    hide LowCount, HighCount, PadBits, PadCount;
    var b, c := PadBits(|m|), PadCount(|m|);
    CountWords(|m|);
    Parts(m, b, c);
    PaddedLength(|m|, |b|);
  }

  lemma PaddedLength(n: nat, k: nat)
    requires 1 <= k <= 64 && (n + k) % 64 == 56
    ensures (n + k + 8) % 64 == 0 && n + 9 <= n + k + 8 < n + 73
  {
  }

  lemma Parts(m: seq<Byte>, b: seq<Byte>, c: seq<Byte>)
    requires b != [] && |c| == 8
    ensures var p := m + b + c;
            && m <= p && p[|m|] == b[0] && (forall i :: |m| < i < |p| - 8 ==> p[i] == b[i - |m|])
            && p[|p| - 8..|p| - 4] == c[..4] && p[|p| - 4..] == c[4..]
  {
  }

  lemma CountWords(n: nat)
    ensures PadCount(n)[..4] == LowCount(n) && PadCount(n)[4..] == HighCount(n)
  {
    hide LittleEndian;
    TwoWords(8 * n);
  }

  lemma TwoWords(x: nat)
    ensures x % COUNT % WORD == x % 0x1_0000_0000
    ensures x % COUNT / WORD == x / 0x1_0000_0000 % 0x1_0000_0000
  {
    var q, r := x / COUNT, x % COUNT;
    assert x == WORD * (WORD * q + r / WORD) + r % WORD;
    assert r / WORD < WORD;
    Divided(x, WORD * q + r / WORD, r % WORD);
    Divided(WORD * q + r / WORD, q, r / WORD);
  }

  lemma Divided(x: nat, q: nat, r: nat)
    requires x == 0x1_0000_0000 * q + r && r < 0x1_0000_0000
    ensures x / 0x1_0000_0000 == q && x % 0x1_0000_0000 == r
  {
    var d := x / 0x1_0000_0000 - q;
    assert 0x1_0000_0000 * d == r - x % 0x1_0000_0000;
  }

  // The digest: the message padded, its blocks compressed one after the other from the initial state of section 3.3,
  // and the four words written out low byte first.
  lemma DigestMeaning(f: Transform, m: seq<Byte>) returns (p: seq<Byte>, st: seq<Words>)
    ensures PaddedTo(m, p) && Chained(f, Words(0x67452301, 0xefcdab89, 0x98badcfe, 0x10325476), p, st)
    ensures var d, w := Digest(f, m), st[|p| / 64];
            && d[..4] == LittleEndian(w.a) && d[4..8] == LittleEndian(w.b)
            && d[8..12] == LittleEndian(w.c) && d[12..] == LittleEndian(w.d)
  {
    hide LittleEndian, PadBits, PadCount, Chain, WordBytes, PaddedTo;
    p := m + PadBits(|m|) + PadCount(|m|);
    PaddingMeaning(m);
    st := ChainMeaning(f, INIT, p);
    FourParts(st[|p| / 64]);
  }

  lemma FourParts(w: Words)
    ensures var d := WordBytes(w);
            && d[..4] == LittleEndian(w.a) && d[4..8] == LittleEndian(w.b)
            && d[8..12] == LittleEndian(w.c) && d[12..] == LittleEndian(w.d)
  {
    hide LittleEndian;
  }

  lemma LittleEndianMeaning(w: bv32)
    ensures var b := LittleEndian(w);
            w == (b[0] as bv32) | ((b[1] as bv32) << 8) | ((b[2] as bv32) << 16) | ((b[3] as bv32) << 24)
  {
  }

  // ---------------------------------------------------------------- the guard of the block loop

  // The value of i when fewer than 64 bytes are left, from a buffer already holding idx bytes.
  function LastIndex(idx: nat, len: nat): (i: nat)
    requires idx < 64 && len >= 64 - idx
    ensures 64 - idx <= i <= len < i + 64
  {
    (64 - idx) + (len - (64 - idx)) / 64 * 64
  }

  // The buffered bytes and the input together stay below 2^32 bytes.
  predicate NoWrap(idx: nat, len: nat) {
    idx + len < 0x1_0000_0000
  }

  // The loop of MD5Update stops where it should just when idx + len does not reach 2^32.  Otherwise i + 63
  // wraps around and the guard is still true with fewer than 64 input bytes left.
  lemma GuardStops(idx: nat, len: nat)
    requires idx < 64 && len < 0x1_0000_0000 && len >= 64 - idx
    ensures !((LastIndex(idx, len) + 63) % 0x1_0000_0000 < len) <==> idx + len < 0x1_0000_0000
  {
    var i := LastIndex(idx, len);
    assert i + idx == (idx + len) / 64 * 64;
    assert NoWrap(idx, len) <==> i + 63 < WORD;
  }

  // The guard at each block of an input that does not wrap, after n bytes.
  lemma GuardAt(n: nat, len: nat, k: nat)
    requires 64 - Buffered(n) <= len < WORD && NoWrap(Buffered(n), len)
    requires 64 - Buffered(n) + 64 * k <= LastIndex(Buffered(n), len)
    ensures var i, last := 64 - Buffered(n) + 64 * k, LastIndex(Buffered(n), len);
            && ((i + 63) % WORD < len <==> i < last)
            && (i < last ==> i + 64 <= last) && (n + i) % 64 == 0
  {
    var idx := Buffered(n);
    var i, last := 64 - idx + 64 * k, LastIndex(idx, len);
    var q := (len - (64 - idx)) / 64;
    assert last == 64 - idx + 64 * q && k <= q;
    assert n + i == 64 * (n / 64 + 1 + k);
    assert i < last ==> k + 1 <= q;
    assert i + 63 < WORD;
  }

  // Half a block buffered and one more input of 2^32 - 1 bytes: 31 bytes are left, and the loop goes on.
  lemma GuardWraps()
    ensures var i := LastIndex(32, 0xffff_ffff);
            0xffff_ffff - i == 31 && (i + 63) % 0x1_0000_0000 < 0xffff_ffff
  {
  }

  // ---------------------------------------------------------------- MD5_CTX

  class Context {
    const transform: Transform
    var state: Words
    var count0: nat
    var count1: nat
    const buffer: array<Byte>
    // Everything passed to Update so far, and how often the bit count has passed 2^64.
    ghost var absorbed: seq<Byte>
    ghost var wraps: nat

    ghost predicate Valid()
      reads this, buffer
    {
      && buffer.Length == 64
      && count0 < WORD && count1 < WORD
      && count0 + WORD * count1 + COUNT * wraps == 8 * |absorbed|
      && Holds(transform, state, buffer[..], absorbed)
    }

    // MD5Init.
    constructor (f: Transform)
      ensures Valid() && absorbed == [] && transform == f && fresh(buffer)
    {
      transform := f;
      state := INIT;
      count0, count1 := 0, 0;
      buffer := new Byte[64](_ => 0);
      absorbed, wraps := [], 0;
    }

    // MD5Update.
    method Update(input: seq<Byte>)
      requires Valid() && |input| < 0x1_0000_0000 && NoWrap(Buffered(|absorbed|), |input|)
      modifies this, buffer
      ensures Valid() && absorbed == old(absorbed) + input
    {
      hide Holds, NoWrap, Buffered;
      IndexOfCount(count0, count1 + WORD * wraps, |absorbed|);
      var idx := count0 / 8 % 64;
      AddCount(|input|);
      Absorb(input, idx);
      absorbed := absorbed + input;
    }

    // MD5Update after the counting.
    method Absorb(input: seq<Byte>, index: nat)
      requires index == Buffered(|absorbed|) && |input| < WORD && NoWrap(index, |input|)
      requires Holds(transform, state, buffer[..], absorbed)
      modifies this`state, buffer
      ensures Holds(transform, state, buffer[..], absorbed + input)
    {
      hide Holds, Buffered, NoWrap, LastIndex;
      var idx, i: nat, partLen := index, 0, 64 - index;
      HoldsBlock(transform, state, buffer[..], absorbed);
      ghost var was := buffer[..];
      if |input| >= partLen {
        i := Compress(input, idx);
        idx := 0;
        was := buffer[..];
        KeepTail(input, i, idx);
        HoldsLong(transform, state, was, buffer[..], absorbed, input);
      } else {
        KeepTail(input, i, idx);
        HoldsShort(transform, state, was, buffer[..], absorbed, input);
      }
    }

    // The final memcpy of MD5Update.
    method KeepTail(input: seq<Byte>, i: nat, idx: nat)
      requires i <= |input| && idx + |input| - i <= 64 == buffer.Length
      modifies buffer
      ensures Copied(old(buffer[..]), buffer[..], input, i, idx)
    {
      forall k | 0 <= k < |input| - i {
        buffer[idx + k] := input[i + k];
      }
    }

    // The two-word addition of 8 * len.
    method AddCount(len: nat)
      requires len < WORD && count0 < WORD && count1 < WORD
      modifies this`count0, this`count1, this`wraps
      ensures count0 < WORD && count1 < WORD
      ensures count0 + WORD * count1 + COUNT * wraps == old(count0 + WORD * count1 + COUNT * wraps) + 8 * len
    {
      var low := len * 8 % WORD;
      var high := len / 0x2000_0000;
      assert 8 * len == low + WORD * high;
      count0 := (count0 + low) % WORD;
      if count0 < low {
        count1, wraps := (count1 + 1) % WORD, wraps + (count1 + 1) / WORD;
      }
      count1, wraps := (count1 + high) % WORD, wraps + (count1 + high) / WORD;
    }

    // The part of MD5Update that runs when the input completes the buffered block.
    method Compress(input: seq<Byte>, idx: nat) returns (i: nat)
      requires buffer.Length == 64 && idx == Buffered(|absorbed|) && 64 - idx <= |input| < WORD
      requires Holds(transform, state, buffer[..], absorbed)
      requires NoWrap(idx, |input|)
      modifies this`state, buffer
      ensures i == LastIndex(idx, |input|) && i <= |input|
      ensures state == Chain(transform, INIT, (absorbed + input)[..|absorbed| + i])
    {
      hide Chain, Holds, LastIndex, Buffered;
      ghost var was := buffer[..];
      FillBlock(input, idx);
      FirstBlock(transform, state, was, absorbed, input);
      state := transform(state, buffer[..]);
      i := CompressBlocks(input, idx);
    }

    method FillBlock(input: seq<Byte>, idx: nat)
      requires buffer.Length == 64 && idx < 64 && 64 - idx <= |input|
      modifies buffer
      ensures buffer[..] == old(buffer[..idx]) + input[..64 - idx]
    {
      forall k | 0 <= k < 64 - idx {
        buffer[idx + k] := input[k];
      }
    }

    // The loop over whole blocks of the input; i is an unsigned int.
    method CompressBlocks(input: seq<Byte>, idx: nat) returns (i: nat)
      requires idx == Buffered(|absorbed|) && 64 - idx <= |input| < WORD
      requires NoWrap(idx, |input|)
      requires state == Chain(transform, INIT, (absorbed + input)[..|absorbed| + 64 - idx])
      modifies this`state
      ensures i == LastIndex(idx, |input|)
      ensures state == Chain(transform, INIT, (absorbed + input)[..|absorbed| + i])
    {
      hide Chain, Buffered, LastIndex, NoWrap;
      ghost var all, n, k := absorbed + input, |absorbed|, 0;
      i := 64 - idx;
      GuardAt(n, |input|, k);
      while (i + 63) % WORD < |input|
        invariant i == 64 - idx + 64 * k && 0 <= k && i <= LastIndex(idx, |input|)
        invariant (i + 63) % WORD < |input| <==> i < LastIndex(idx, |input|)
        invariant state == Chain(transform, INIT, all[..n + i])
        decreases |input| - i
      {
        GuardAt(n, |input|, k);
        SliceOfInput(absorbed, input, i);
        OneMoreBlock(transform, all, n + i);
        state := transform(state, input[i..i + 64]);
        i, k := i + 64, k + 1;
        GuardAt(n, |input|, k);
      }
    }

    // MD5Final up to the storing of the digest: the padding and the count go through MD5Update.
    method Pad()
      requires Valid()
      modifies this, buffer
      ensures state == Chain(transform, INIT, old(absorbed) + PadBits(old(|absorbed|)) + PadCount(old(|absorbed|)))
      ensures buffer.Length == 64
    {
      hide Chain, PadBits, PadCount, LittleEndian, ToWord, NoWrap, Whole;
      ghost var m := absorbed;
      var bits := new Byte[8];
      Encode(bits, [ToWord(count0), ToWord(count1)]);
      EncodedCount(count0, count1, wraps, |absorbed|);
      IndexOfCount(count0, count1 + WORD * wraps, |absorbed|);
      var idx := count0 / 8 % 64;
      var padLen := if idx < 56 then 56 - idx else 120 - idx;
      PaddingIsPadBits(|absorbed|);
      Update(PADDING[..padLen]);
      CountNeverWraps(Buffered(|absorbed|));
      Update(bits[..]);
      PaddedIsWhole(m);
    }

    // MD5Final.
    method Final(digest: array<Byte>)
      requires Valid() && digest.Length == 16 && digest != buffer
      modifies this, buffer, digest
      ensures digest[..] == Digest(transform, old(absorbed))
      ensures state == Words(0, 0, 0, 0) && count0 == count1 == 0 && forall k :: 0 <= k < 64 ==> buffer[k] == 0
    {
      hide Chain, PadBits, PadCount, LittleEndian, WordBytes;
      Pad();
      EncodeState(digest, state);
      state := Words(0, 0, 0, 0);
      count0, count1 := 0, 0;
      forall k | 0 <= k < 64 {
        buffer[k] := 0;
      }
    }
  }

  // However the message was cut into pieces, the context ends up the same.
  lemma SameMessageSameContext(c: Context, d: Context)
    requires c.Valid() && d.Valid() && c.transform == d.transform && c.absorbed == d.absorbed
    ensures c.state == d.state && c.count0 == d.count0 && c.count1 == d.count1
    ensures var n := Buffered(|c.absorbed|); c.buffer[..n] == d.buffer[..n]
  {
    hide Chain;
    Remainder(c.count0 + WORD * c.count1, c.wraps);
    Remainder(d.count0 + WORD * d.count1, d.wraps);
    Remainder(c.count0, c.count1);
    Remainder(d.count0, d.count1);
  }

  const PADDING: seq<Byte> := [0x80] + Zeros(63)

  lemma PaddingIsPadBits(n: nat)
    ensures var idx := Buffered(n);
            var padLen := if idx < 56 then 56 - idx else 120 - idx;
            PADDING[..padLen] == PadBits(n) && NoWrap(idx, padLen)
  {
  }

  lemma PaddedIsWhole(m: seq<Byte>)
    ensures var p := m + PadBits(|m|) + PadCount(|m|);
            p[..Whole(|p|)] == p
  {
    hide PadBits, PadCount;
  }

  lemma CountNeverWraps(idx: nat)
    requires idx < 64
    ensures NoWrap(idx, 8)
  {
  }

  lemma Remainder(x: nat, w: nat)
    ensures x < COUNT ==> (x + COUNT * w) % COUNT == x
    ensures x < WORD ==> (x + WORD * w) % WORD == x && (x + WORD * w) / WORD == w
  {
  }

  lemma EncodedCount(count0: nat, count1: nat, wraps: nat, n: nat)
    requires count0 < WORD && count1 < WORD && count0 + WORD * count1 + COUNT * wraps == 8 * n
    ensures EncodeWords([ToWord(count0), ToWord(count1)]) == PadCount(n)
  {
    hide LittleEndian, ToWord;
    Remainder(count0 + WORD * count1, wraps);
    Remainder(count0, count1);
    FourWords(ToWord(count0), ToWord(count1), 0, 0);
  }

  // Encode: words to bytes, low byte first.
  method Encode(output: array<Byte>, input: seq<bv32>)
    requires output.Length == 4 * |input|
    modifies output
    ensures output[..] == EncodeWords(input)
  {
    hide Octet0, Octet1, Octet2, Octet3;
    var j := 0;
    for i := 0 to |input|
      invariant j == 4 * i
      invariant output[..j] == EncodeWords(input[..i])
    {
      output[j] := Octet0(input[i]);
      output[j + 1] := Octet1(input[i]);
      output[j + 2] := Octet2(input[i]);
      output[j + 3] := Octet3(input[i]);
      assert output[..j + 4] == output[..j] + LittleEndian(input[i]);
      assert input[..i + 1][..i] == input[..i];
      j := j + 4;
    }
    assert input[..|input|] == input;
  }

  function EncodeWords(w: seq<bv32>): (b: seq<Byte>)
    ensures |b| == 4 * |w|
  {
    if w == [] then [] else EncodeWords(w[..|w| - 1]) + LittleEndian(w[|w| - 1])
  }

  method EncodeState(digest: array<Byte>, state: Words)
    requires digest.Length == 16
    modifies digest
    ensures digest[..] == WordBytes(state)
  {
    hide LittleEndian;
    Encode(digest, [state.a, state.b, state.c, state.d]);
    FourWords(state.a, state.b, state.c, state.d);
  }

  lemma FourWords(a: bv32, b: bv32, c: bv32, d: bv32)
    ensures EncodeWords([a, b]) == LittleEndian(a) + LittleEndian(b)
    ensures EncodeWords([a, b, c, d]) == LittleEndian(a) + LittleEndian(b) + LittleEndian(c) + LittleEndian(d)
  {
    hide LittleEndian;
    assert [a, b, c, d][..3] == [a, b, c] && [a, b, c][..2] == [a, b] && [a, b][..1] == [a];
  }

  // md5_signature: for every message below 2^32 bytes, the streaming digest is the RFC 1321 one.
  method Signature(f: Transform, key: seq<Byte>) returns (result: seq<Byte>)
    requires |key| < 0x1_0000_0000
    ensures result == Digest(f, key)
  {
    hide Holds, Buffered, Chain, PadBits, PadCount, WordBytes;
    var context := new Context(f);
    NothingBuffered();
    context.Update(key);
    assert context.absorbed == key;
    var digest := new Byte[16];
    context.Final(digest);
    result := digest[..];
  }

  // A context's state and buffer for the message m.
  ghost predicate Holds(f: Transform, state: Words, buffer: seq<Byte>, m: seq<Byte>) {
    && |buffer| == 64 && state == Chain(f, INIT, m[..Whole(|m|)])
    && buffer[..Buffered(|m|)] == m[Whole(|m|)..]
  }

  // What memcpy from input[i..] to the place idx leaves in a buffer.
  ghost predicate Copied(was: seq<Byte>, now: seq<Byte>, input: seq<Byte>, i: nat, idx: nat) {
    && |was| == |now| == 64 && i <= |input| && idx + |input| - i <= 64
    && now[..idx + |input| - i] == was[..idx] + input[i..]
  }

  lemma HoldsBlock(f: Transform, state: Words, buffer: seq<Byte>, m: seq<Byte>)
    requires Holds(f, state, buffer, m)
    ensures |buffer| == 64
  {
  }

  lemma HoldsShort(f: Transform, state: Words, was: seq<Byte>, now: seq<Byte>, m: seq<Byte>, input: seq<Byte>)
    requires Holds(f, state, was, m) && |input| < 64 - Buffered(|m|) && Copied(was, now, input, 0, Buffered(|m|))
    ensures Holds(f, state, now, m + input)
  {
    hide Chain, Whole, Buffered;
    SplitShort(m, input);
    assert input[0..] == input && |m + input| == |m| + |input|;
  }

  lemma HoldsLong(f: Transform, state: Words, was: seq<Byte>, now: seq<Byte>, m: seq<Byte>, input: seq<Byte>)
    requires |input| >= 64 - Buffered(|m|)
    requires var i := LastIndex(Buffered(|m|), |input|);
             Copied(was, now, input, i, 0) && state == Chain(f, INIT, (m + input)[..|m| + i])
    ensures Holds(f, state, now, m + input)
  {
    hide Chain, Whole, Buffered, LastIndex;
    SplitLong(m, input);
    var i := LastIndex(Buffered(|m|), |input|);
    assert was[..0] + input[i..] == input[i..] && |m + input| == |m| + |input|;
  }

  // The block completed from the input takes the state one block on.
  lemma FirstBlock(f: Transform, state: Words, was: seq<Byte>, m: seq<Byte>, input: seq<Byte>)
    requires Holds(f, state, was, m) && 64 - Buffered(|m|) <= |input|
    ensures var idx := Buffered(|m|);
            f(state, was[..idx] + input[..64 - idx]) == Chain(f, INIT, (m + input)[..|m| + 64 - idx])
  {
    hide Chain;
    var w := Whole(|m|);
    BlockFilled(m, input, Buffered(|m|));
    OneMoreBlock(f, m + input, w);
  }

  // How many of n bytes are in no whole block, and how many are.
  function Buffered(n: nat): (r: nat)
    ensures r < 64
  {
    n % 64
  }

  function Whole(n: nat): (w: nat)
    ensures w <= n < w + 64 && w % 64 == 0 && Buffered(n) == n - w
  {
    n - Buffered(n)
  }

  lemma OneMoreBlock(f: Transform, m: seq<Byte>, w: nat)
    requires w % 64 == 0 && w + 64 <= |m|
    ensures Chain(f, INIT, m[..w + 64]) == f(Chain(f, INIT, m[..w]), m[w..w + 64])
  {
    var b := m[w..w + 64];
    assert m[..w + 64] == m[..w] + b;
    ChainAppend(f, INIT, m[..w], b);
    assert b[..64] == b && b[64..] == [];
  }

  lemma BlockFilled(m: seq<Byte>, input: seq<Byte>, idx: nat)
    requires idx == Buffered(|m|) && 64 - idx <= |input|
    ensures var w, all := Whole(|m|), m + input;
            w + 64 <= |all| && all[..w] == m[..w] && all[w..w + 64] == m[w..] + input[..64 - idx]
  {
  }

  lemma SliceOfInput(m: seq<Byte>, input: seq<Byte>, i: nat)
    requires i + 64 <= |input|
    ensures (m + input)[|m| + i..|m| + i + 64] == input[i..i + 64]
  {
  }

  lemma OfBlocks(r: nat, k: nat)
    ensures (r + 64 * k) % 64 == r % 64
  {
  }

  lemma IndexOfCount(count0: nat, rest: nat, n: nat)
    requires count0 < WORD && count0 + WORD * rest == 8 * n
    ensures count0 / 8 % 64 == Buffered(n)
  {
    var k := 0x80_0000 * rest;
    assert count0 / 8 == n - 64 * k;
    OfBlocks(count0 / 8, k);
  }

  lemma NothingBuffered()
    ensures Buffered(0) == 0
  {
  }

  lemma SplitLong(m: seq<Byte>, input: seq<Byte>)
    requires |input| >= 64 - Buffered(|m|)
    ensures var i := LastIndex(Buffered(|m|), |input|);
            && i <= |input| && Buffered(|m| + |input|) == |input| - i
            && Whole(|m| + |input|) == |m| + i && (m + input)[|m| + i..] == input[i..]
  {
  }

  lemma SplitShort(m: seq<Byte>, input: seq<Byte>)
    requires |input| < 64 - Buffered(|m|)
    ensures Whole(|m| + |input|) == Whole(|m|) && Buffered(|m| + |input|) == Buffered(|m|) + |input|
    ensures (m + input)[..Whole(|m|)] == m[..Whole(|m|)]
    ensures (m + input)[Whole(|m|)..] == m[Whole(|m|)..] + input
  {
  }
}
