/** sha256.hpp and sha256.cpp: the hash of FIPS 180-4, and what the code computes. */
module Sha256 {
  // The code's hash differs when the message does not leave room for the length in its last block.

  type HashState = h: seq<bv32> | |h| == 8 witness seq(8, i => 0)

  type Block = b: seq<bv8> | |b| == 64 witness seq(64, i => 0)

  const INITIAL: HashState := [
    0x6a09e667, 0xbb67ae85, 0x3c6ef372, 0xa54ff53a,
    0x510e527f, 0x9b05688c, 0x1f83d9ab, 0x5be0cd19
  ]

  type RoundConstants = k: seq<bv32> | |k| == 64 witness seq(64, i => 0)

  const K: RoundConstants :=
    ([0x428a2f98, 0x71374491, 0xb5c0fbcf, 0xe9b5dba5]
     + [0x3956c25b, 0x59f111f1, 0x923f82a4, 0xab1c5ed5]
     + [0xd807aa98, 0x12835b01, 0x243185be, 0x550c7dc3]
     + [0x72be5d74, 0x80deb1fe, 0x9bdc06a7, 0xc19bf174])
    + ([0xe49b69c1, 0xefbe4786, 0x0fc19dc6, 0x240ca1cc]
     + [0x2de92c6f, 0x4a7484aa, 0x5cb0a9dc, 0x76f988da]
     + [0x983e5152, 0xa831c66d, 0xb00327c8, 0xbf597fc7]
     + [0xc6e00bf3, 0xd5a79147, 0x06ca6351, 0x14292967])
    + ([0x27b70a85, 0x2e1b2138, 0x4d2c6dfc, 0x53380d13]
     + [0x650a7354, 0x766a0abb, 0x81c2c92e, 0x92722c85]
     + [0xa2bfe8a1, 0xa81a664b, 0xc24b8b70, 0xc76c51a3]
     + [0xd192e819, 0xd6990624, 0xf40e3585, 0x106aa070])
    + ([0x19a4c116, 0x1e376c08, 0x2748774c, 0x34b0bcb5]
     + [0x391c0cb3, 0x4ed8aa4a, 0x5b9cca4f, 0x682e6ff3]
     + [0x748f82ee, 0x78a5636f, 0x84c87814, 0x8cc70208]
     + [0x90befffa, 0xa4506ceb, 0xbef9a3f7, 0xc67178f2])

  // ----- the operations of section 3.2 and the functions of section 4.1.2

  /** Addition modulo 2^32. */
  function Plus(x: bv32, y: bv32): bv32 {
    x + y
  }

  function Rotr(word: bv32, bits: bv6): bv32
    requires 0 < bits < 32
  {
    (word >> bits) | (word << (32 - bits))
  }

  function Ch(x: bv32, y: bv32, z: bv32): bv32 {
    (x & y) ^ (!x & z)
  }

  function Maj(x: bv32, y: bv32, z: bv32): bv32 {
    (x & y) ^ (x & z) ^ (y & z)
  }

  function Xor3(x: bv32, y: bv32, z: bv32): bv32 {
    x ^ y ^ z
  }

  function Ep0(x: bv32): bv32 {
    Xor3(Rotr(x, 2), Rotr(x, 13), Rotr(x, 22))
  }

  function Ep1(x: bv32): bv32 {
    Xor3(Rotr(x, 6), Rotr(x, 11), Rotr(x, 25))
  }

  function Sig0(x: bv32): bv32 {
    Xor3(Rotr(x, 7), Rotr(x, 18), x >> 3)
  }

  function Sig1(x: bv32): bv32 {
    Xor3(Rotr(x, 17), Rotr(x, 19), x >> 10)
  }

  // ----- the compression of section 6.2.2

  function WordOf(b0: bv8, b1: bv8, b2: bv8, b3: bv8): bv32 {
    ((b0 as bv32) << 24) | ((b1 as bv32) << 16) | ((b2 as bv32) << 8) | (b3 as bv32)
  }

  /** The four bytes of a word, most significant first. */
  lemma BytesOfWord(b0: bv8, b1: bv8, b2: bv8, b3: bv8)
    ensures var w := WordOf(b0, b1, b2, b3);
            w >> 24 == b0 as bv32 && (w >> 16) & 0xff == b1 as bv32 && (w >> 8) & 0xff == b2 as bv32
            && w & 0xff == b3 as bv32
  {
  }

  function NextWord(w2: bv32, w7: bv32, w15: bv32, w16: bv32): bv32 {
    Plus(Plus(Plus(Sig1(w2), w7), Sig0(w15)), w16)
  }

  /** Word t of the message schedule. */
  ghost function Schedule(b: Block, t: nat): bv32 {
    if t < 16 then WordOf(b[4 * t], b[4 * t + 1], b[4 * t + 2], b[4 * t + 3])
    else NextWord(Schedule(b, t - 2), Schedule(b, t - 7), Schedule(b, t - 15), Schedule(b, t - 16))
  }

  lemma ScheduleWord(b: Block, t: nat)
    ensures t < 16 ==> Schedule(b, t) == WordOf(b[4 * t], b[4 * t + 1], b[4 * t + 2], b[4 * t + 3])
    ensures t >= 16 ==>
              Schedule(b, t) == Plus(Plus(Plus(Sig1(Schedule(b, t - 2)), Schedule(b, t - 7)),
                                          Sig0(Schedule(b, t - 15))), Schedule(b, t - 16))
  {
    hide WordOf, Sig0, Sig1, Plus;
  }

  datatype Registers = Registers(a: bv32, b: bv32, c: bv32, d: bv32, e: bv32, f: bv32, g: bv32, h: bv32)

  function Temp1(r: Registers, k: bv32, w: bv32): bv32 {
    Plus(Plus(Plus(Plus(r.h, Ep1(r.e)), Ch(r.e, r.f, r.g)), k), w)
  }

  function Temp2(r: Registers): bv32 {
    Plus(Ep0(r.a), Maj(r.a, r.b, r.c))
  }

  /** One round: all eight registers move at once. */
  function Round(r: Registers, k: bv32, w: bv32): Registers {
    var t1 := Temp1(r, k, w);
    Registers(Plus(t1, Temp2(r)), r.a, r.b, r.c, Plus(r.d, t1), r.e, r.f, r.g)
  }

  ghost function Rounds(h: HashState, b: Block, t: nat): Registers
    requires t <= 64
  {
    if t == 0 then Registers(h[0], h[1], h[2], h[3], h[4], h[5], h[6], h[7])
    else Round(Rounds(h, b, t - 1), K[t - 1], Schedule(b, t - 1))
  }

  ghost function Compress(h: HashState, b: Block): HashState
  {
    var r := Rounds(h, b, 64);
    [Plus(h[0], r.a), Plus(h[1], r.b), Plus(h[2], r.c), Plus(h[3], r.d),
     Plus(h[4], r.e), Plus(h[5], r.f), Plus(h[6], r.g), Plus(h[7], r.h)]
  }


  // ----- hashing a sequence of blocks, section 6.2.2

  /** The chaining state after the blocks of m, which is a whole number of them. */
  ghost function HashBlocks(m: seq<bv8>): HashState
    requires |m| % 64 == 0
    decreases |m|
  {
    if m == [] then INITIAL else Compress(HashBlocks(m[..|m| - 64]), m[|m| - 64..])
  }

  // ----- padding

  const TWO_64: nat := 0x1_0000_0000_0000_0000

  function ByteOf(n: nat): bv8 {
    (n % 256) as bv8
  }

  /** The low 64 bits of n, most significant byte first. */
  function LengthBytes(n: nat): (bytes: seq<bv8>)
    ensures |bytes| == 8
  {
    [ByteOf(n / 0x100_0000_0000_0000), ByteOf(n / 0x1_0000_0000_0000), ByteOf(n / 0x100_0000_0000),
     ByteOf(n / 0x1_0000_0000), ByteOf(n / 0x100_0000), ByteOf(n / 0x1_0000), ByteOf(n / 0x100), ByteOf(n)]
  }

  function Zeros(n: nat): (z: seq<bv8>)
    ensures |z| == n
  {
    seq(n, i => 0)
  }

  /** The number of zero bytes between the marker and the length: the least that completes a block. */
  function ZeroBytes(length: nat): (k: nat)
    ensures k < 64 && (length + 1 + k + 8) % 64 == 0
  {
    (119 - length % 64) % 64
  }

  /** Section 5.1.1: a one bit, zeros, and the length in bits as 64 bits. */
  function StandardPadding(length: nat): seq<bv8> {
    [0x80] + Zeros(ZeroBytes(length)) + LengthBytes(8 * length)
  }

  /** The hash of FIPS 180-4, for messages short enough to have one. */
  ghost function StandardHash(m: seq<bv8>): HashState
    requires 8 * |m| < TWO_64
  {
    HashBlocks(m + StandardPadding(|m|))
  }

  // ----- what the code does in place of padding

  function Whole(n: nat): (w: nat)
    ensures w <= n && w % 64 == 0 && n - w == n % 64
  {
    n - n % 64
  }

  /** What pad leaves in the buffer: the tail, a marker, zeros up to 56 bytes if there is room, and the length. */
  function PaddedTail(tail: seq<bv8>, bits: nat): (p: seq<bv8>)
    ensures |p| == if |tail| <= 55 then 64 else |tail| + 9
  {
    tail + [0x80] + Zeros(if |tail| + 1 < 56 then 55 - |tail| else 0) + LengthBytes(bits)
  }

  /** All bytes the code compresses for m: its whole blocks, and the first 64 bytes of the padded tail. */
  function CompressedBytes(m: seq<bv8>): (bytes: seq<bv8>)
    ensures |bytes| == Whole(|m|) + 64
  {
    m[..Whole(|m|)] + PaddedTail(m[Whole(|m|)..], 8 * |m| % TWO_64)[..64]
  }

  ghost function CodeHash(m: seq<bv8>): HashState
  {
    NextMultiple(Whole(|m|)); HashBlocks(CompressedBytes(m))
  }

  lemma NextMultiple(n: nat)
    requires n % 64 == 0
    ensures (n + 64) % 64 == 0
  {
  }

  lemma ShortZeroBytes(n: nat)
    requires n % 64 <= 55
    ensures ZeroBytes(n) == 55 - n % 64
  {
  }

  lemma LongZeroBytes(n: nat)
    requires n % 64 >= 56
    ensures ZeroBytes(n) == 119 - n % 64
  {
  }

  /**
   * The code compresses the padded message of the standard exactly when the last partial block leaves room for the
   * marker and the length. Otherwise it compresses one block too few.
   */
  lemma PaddingExact(m: seq<bv8>)
    requires 8 * |m| < TWO_64
    ensures CompressedBytes(m) == m + StandardPadding(|m|) <==> |m| % 64 <= 55
    ensures |m| % 64 > 55 ==> |CompressedBytes(m)| + 64 == |m + StandardPadding(|m|)|
  {
    var tail := m[Whole(|m|)..];
    hide LengthBytes, ZeroBytes, Zeros;
    if |m| % 64 <= 55 {
      ShortZeroBytes(|m|);
      assert m == m[..Whole(|m|)] + tail;
      assert 8 * |m| % TWO_64 == 8 * |m|;
      assert PaddedTail(tail, 8 * |m|) == tail + StandardPadding(|m|);
      assert |PaddedTail(tail, 8 * |m|)| == 64;
      assert PaddedTail(tail, 8 * |m|)[..64] == tail + StandardPadding(|m|);
      assert m[..Whole(|m|)] + (tail + StandardPadding(|m|)) == m + StandardPadding(|m|);
    } else {
      LongZeroBytes(|m|);
    }
  }

  /** So the digest is the standard's whenever the length modulo 64 is at most 55. */
  lemma ShortTailHash(m: seq<bv8>)
    requires 8 * |m| < TWO_64 && |m| % 64 <= 55
    ensures CodeHash(m) == StandardHash(m)
  {
    PaddingExact(m);
  }

  // ----- the block the code leaves out

  /** The block of zeros and the length that the standard still compresses after a tail of more than 55 bytes. */
  function LengthBlock(length: nat): Block {
    Zeros(56) + LengthBytes(8 * length)
  }

  /** A tail of more than 55 bytes, its marker, and zeros to the end of the block. */
  function MarkedTail(tail: seq<bv8>): Block
    requires 56 <= |tail| <= 63
  {
    tail + [0x80] + Zeros(63 - |tail|)
  }

  lemma Regroup<T>(a: seq<T>, b: seq<T>, c: seq<T>, d: seq<T>, e: seq<T>, f: seq<T>)
    ensures (a + b) + (c + (d + e) + f) == (a + (b + c + d)) + (e + f)
  {
  }

  lemma SplitZeros(i: nat, j: nat)
    ensures Zeros(i + j) == Zeros(i) + Zeros(j)
  {
  }

  lemma TwoLastBlocks(m: seq<bv8>)
    requires |m| % 64 > 55
    ensures m + StandardPadding(|m|)
         == (m[..Whole(|m|)] + MarkedTail(m[Whole(|m|)..])) + LengthBlock(|m|)
  {
    hide LengthBytes, ZeroBytes, Zeros;
    var r, w := |m| % 64, Whole(|m|);
    var tail, length := m[w..], LengthBytes(8 * |m|);
    LongZeroBytes(|m|);
    assert m == m[..w] + tail;
    SplitZeros(63 - r, 56);
    Regroup(m[..w], tail, [0x80], Zeros(63 - r), Zeros(56), length);
  }

  lemma HashOneMore(c: seq<bv8>, b: Block)
    requires |c| % 64 == 0
    ensures (|c| + 64) % 64 == 0 && HashBlocks(c + b) == Compress(HashBlocks(c), b)
  {
    NextMultiple(|c|);
    hide Compress;
    assert (c + b)[..|c + b| - 64] == c && (c + b)[|c + b| - 64..] == b;
  }

  /** With a longer tail the standard compresses two more blocks: the marked tail, then the length alone. */
  lemma LongTailHash(m: seq<bv8>)
    requires 8 * |m| < TWO_64 && |m| % 64 > 55
    ensures StandardHash(m)
         == Compress(Compress(HashBlocks(m[..Whole(|m|)]), MarkedTail(m[Whole(|m|)..])), LengthBlock(|m|))
  {
    hide Compress, LengthBlock, MarkedTail, StandardPadding, HashBlocks;
    var w := Whole(|m|);
    TwoLastBlocks(m);
    HashOneMore(m[..w], MarkedTail(m[w..]));
    HashOneMore(m[..w] + MarkedTail(m[w..]), LengthBlock(|m|));
  }

  // ----- the state of the object, as a function of the bytes fed to it

  datatype Snapshot = Snapshot(state: seq<bv32>, buffer: seq<bv8>, totalLength: nat)

  ghost function Absorbed(m: seq<bv8>): Snapshot
  {
    Snapshot(HashBlocks(m[..Whole(|m|)]), m[Whole(|m|)..], 8 * |m| % TWO_64)
  }

  ghost predicate WellFormed(s: Snapshot) {
    |s.state| == 8 && |s.buffer| < 64
  }

  /** Feeding one byte. */
  ghost function Step(s: Snapshot, b: bv8): (s': Snapshot)
    requires WellFormed(s)
    ensures WellFormed(s')
  {
    var grown := s.buffer + [b];
    var total := (s.totalLength + 8) % TWO_64;
    if |grown| == 64 then Snapshot(Compress(s.state, grown), [], total) else Snapshot(s.state, grown, total)
  }

  lemma WholeStep(n: nat)
    ensures Whole(n + 1) == if n % 64 == 63 then n + 1 else Whole(n)
  {
  }

  lemma LengthStep(n: nat)
    ensures (8 * n % TWO_64 + 8) % TWO_64 == 8 * (n + 1) % TWO_64
  {
  }

  /** One more byte takes the state of m to the state of m followed by that byte. */
  lemma AbsorbStep(m: seq<bv8>, b: bv8)
    ensures Step(Absorbed(m), b) == Absorbed(m + [b])
  {
    hide Compress, K;
    var w, n := Whole(|m|), m + [b];
    WholeStep(|m|);
    LengthStep(|m|);
    assert m[w..] + [b] == n[w..];
    if |m| % 64 == 63 {
      assert n[..|n|] == n && n[..w] == m[..w];
      assert n[|n|..] == [];
    } else {
      assert n[..w] == m[..w];
    }
  }

  /** One call of update: its bytes in turn. */
  ghost function Feed(s: Snapshot, data: seq<bv8>): (s': Snapshot)
    requires WellFormed(s)
    ensures WellFormed(s')
    decreases |data|
  {
    if data == [] then s else Step(Feed(s, data[..|data| - 1]), data[|data| - 1])
  }

  /** A sequence of calls of update. */
  ghost function FeedAll(s: Snapshot, chunks: seq<seq<bv8>>): (s': Snapshot)
    requires WellFormed(s)
    ensures WellFormed(s')
    decreases |chunks|
  {
    if chunks == [] then s else Feed(FeedAll(s, chunks[..|chunks| - 1]), chunks[|chunks| - 1])
  }

  ghost function Flatten(chunks: seq<seq<bv8>>): seq<bv8> {
    if chunks == [] then [] else Flatten(chunks[..|chunks| - 1]) + chunks[|chunks| - 1]
  }

  lemma {:induction false} FeedAbsorbed(m: seq<bv8>, data: seq<bv8>)
    ensures WellFormed(Absorbed(m)) && Feed(Absorbed(m), data) == Absorbed(m + data)
    decreases |data|
  {
    hide Step, Absorbed, K;
    AbsorbedWellFormed(m);
    if data == [] {
      assert m + data == m;
    } else {
      var n := |data| - 1;
      FeedAbsorbed(m, data[..n]);
      AbsorbStep(m + data[..n], data[n]);
      assert m + data[..n] + [data[n]] == m + data;
    }
  }

  lemma AbsorbedWellFormed(m: seq<bv8>)
    ensures WellFormed(Absorbed(m)) && Absorbed([]) == Snapshot(INITIAL, [], 0)
  {
  }

  lemma {:induction false} FeedAllAbsorbed(chunks: seq<seq<bv8>>)
    ensures WellFormed(Absorbed([])) && FeedAll(Absorbed([]), chunks) == Absorbed(Flatten(chunks))
    decreases |chunks|
  {
    hide Feed, Absorbed, K;
    AbsorbedWellFormed([]);
    if chunks != [] {
      var n := |chunks| - 1;
      FeedAllAbsorbed(chunks[..n]);
      FeedAbsorbed(Flatten(chunks[..n]), chunks[n]);
    }
  }

  /** How the bytes are split between the calls of update leaves no trace in the object. */
  lemma SplittingLeavesNoTrace(chunks: seq<seq<bv8>>, others: seq<seq<bv8>>)
    requires Flatten(chunks) == Flatten(others)
    ensures WellFormed(Absorbed([])) && FeedAll(Absorbed([]), chunks) == FeedAll(Absorbed([]), others)
  {
    FeedAllAbsorbed(chunks);
    FeedAllAbsorbed(others);
  }

  // ----- the printed digest

  /** The hexadecimal digit of a number below 16. */
  function HexDigit(n: bv32): char {
    if n == 0 then '0' else if n == 1 then '1' else if n == 2 then '2' else if n == 3 then '3'
    else if n == 4 then '4' else if n == 5 then '5' else if n == 6 then '6' else if n == 7 then '7'
    else if n == 8 then '8' else if n == 9 then '9' else if n == 10 then 'a' else if n == 11 then 'b'
    else if n == 12 then 'c' else if n == 13 then 'd' else if n == 14 then 'e' else 'f'
  }

  datatype Nibbles = Nibbles(n7: bv32, n6: bv32, n5: bv32, n4: bv32, n3: bv32, n2: bv32, n1: bv32, n0: bv32)

  function Split(w: bv32): Nibbles {
    Nibbles(w >> 28, (w >> 24) & 0xf, (w >> 20) & 0xf, (w >> 16) & 0xf,
            (w >> 12) & 0xf, (w >> 8) & 0xf, (w >> 4) & 0xf, w & 0xf)
  }

  /** Eight lower-case digits, leading zeros included. */
  function HexWord(w: bv32): (s: string)
    ensures |s| == 8
  {
    var n := Split(w);
    [HexDigit(n.n7), HexDigit(n.n6), HexDigit(n.n5), HexDigit(n.n4),
     HexDigit(n.n3), HexDigit(n.n2), HexDigit(n.n1), HexDigit(n.n0)]
  }

  function Hex(words: seq<bv32>): (s: string)
    ensures |s| == 8 * |words|
  {
    if words == [] then "" else Hex(words[..|words| - 1]) + HexWord(words[|words| - 1])
  }

  /** The number a hexadecimal digit stands for. */
  function DigitValue(c: char): bv32 {
    if c == '0' then 0 else if c == '1' then 1 else if c == '2' then 2 else if c == '3' then 3
    else if c == '4' then 4 else if c == '5' then 5 else if c == '6' then 6 else if c == '7' then 7
    else if c == '8' then 8 else if c == '9' then 9 else if c == 'a' then 10 else if c == 'b' then 11
    else if c == 'c' then 12 else if c == 'd' then 13 else if c == 'e' then 14 else 15
  }

  function AppendDigit(v: bv32, d: bv32): bv32 {
    (v << 4) | d
  }

  /** Reading digits from left to right. */
  function ReadHex(s: string): bv32 {
    if s == "" then 0 else AppendDigit(ReadHex(s[..|s| - 1]), DigitValue(s[|s| - 1]))
  }

  lemma DigitReadsBack(n: bv32)
    requires n < 16
    ensures DigitValue(HexDigit(n)) == n
  {
  }

  lemma SplitSmall(w: bv32)
    ensures var n := Split(w);
            && n.n7 < 16 && n.n6 < 16 && n.n5 < 16 && n.n4 < 16 && n.n3 < 16 && n.n2 < 16 && n.n1 < 16 && n.n0 < 16
  {
  }

  /** The eight digits appended to each other. */
  function Join(n: Nibbles): bv32 {
    var high := AppendDigit(AppendDigit(AppendDigit(AppendDigit(0, n.n7), n.n6), n.n5), n.n4);
    AppendDigit(AppendDigit(AppendDigit(AppendDigit(high, n.n3), n.n2), n.n1), n.n0)
  }

  lemma JoinSplit(w: bv32)
    ensures Join(Split(w)) == w
  {
  }

  lemma ReadNext(s: string, i: nat)
    requires i < |s|
    ensures ReadHex(s[..i + 1]) == AppendDigit(ReadHex(s[..i]), DigitValue(s[i]))
  {
    hide DigitValue, AppendDigit;
    assert s[..i + 1][..i] == s[..i];
  }

  lemma ReadFour(s: string, v: bv32)
    requires |s| >= 4 && ReadHex(s[..|s| - 4]) == v
    ensures ReadHex(s) == AppendDigit(AppendDigit(AppendDigit(AppendDigit(v, DigitValue(s[|s| - 4])),
                            DigitValue(s[|s| - 3])), DigitValue(s[|s| - 2])), DigitValue(s[|s| - 1]))
  {
    hide *;
    var n := |s| - 4;
    ReadNext(s, n);
    ReadNext(s, n + 1);
    ReadNext(s, n + 2);
    ReadNext(s, n + 3);
    assert s[..n + 4] == s;
  }

  /** Four digits of values below 16 each stand for those values. */
  lemma FourDigits(a: bv32, b: bv32, c: bv32, d: bv32)
    requires a < 16 && b < 16 && c < 16 && d < 16
    ensures DigitValue(HexDigit(a)) == a && DigitValue(HexDigit(b)) == b
    ensures DigitValue(HexDigit(c)) == c && DigitValue(HexDigit(d)) == d
  {
    hide HexDigit, DigitValue;
    DigitReadsBack(a);
    DigitReadsBack(b);
    DigitReadsBack(c);
    DigitReadsBack(d);
  }

  /** A word reads back from its eight digits, most significant first. */
  lemma HexReadsBack(w: bv32)
    ensures ReadHex(HexWord(w)) == w
  {
    SplitSmall(w);
    JoinSplit(w);
    var s, n := HexWord(w), Split(w);
    hide Split, HexDigit, ReadHex, AppendDigit;
    FourDigits(n.n7, n.n6, n.n5, n.n4);
    FourDigits(n.n3, n.n2, n.n1, n.n0);
    ReadEmpty();
    assert s[..4][..0] == "" && forall i :: 0 <= i < 4 ==> s[..4][i] == s[i];
    ReadFour(s[..4], 0);
    ReadFour(s, ReadHex(s[..4]));
  }

  lemma ReadEmpty()
    ensures ReadHex("") == 0
  {
  }

  /** The words are printed in order, eight digits each. */
  lemma {:induction false} HexInOrder(words: seq<bv32>, i: nat)
    requires i < |words|
    ensures Hex(words)[8 * i..8 * i + 8] == HexWord(words[i])
    ensures ReadHex(Hex(words)[8 * i..8 * i + 8]) == words[i]
    decreases |words|
  {
    hide HexWord, ReadHex;
    var n := |words| - 1;
    var before, last := Hex(words[..n]), HexWord(words[n]);
    assert Hex(words) == before + last;
    if i == n {
      HexReadsBack(words[n]);
      assert (before + last)[8 * i..8 * i + 8] == last;
    } else {
      HexInOrder(words[..n], i);
      assert (before + last)[8 * i..8 * i + 8] == before[8 * i..8 * i + 8];
    }
  }

  /** The digits stand for the words: different states print differently. */
  lemma {:induction false} HexExact(words: seq<bv32>, others: seq<bv32>)
    requires |words| == |others|
    ensures Hex(words) == Hex(others) <==> words == others
    decreases |words|
  {
    if words != [] && Hex(words) == Hex(others) {
      hide HexWord, ReadHex;
      var n := |words| - 1;
      var a, b, x, y := Hex(words[..n]), Hex(others[..n]), HexWord(words[n]), HexWord(others[n]);
      assert a == (a + x)[..8 * n] == (b + y)[..8 * n] == b;
      assert x == (a + x)[8 * n..] == (b + y)[8 * n..] == y;
      HexExact(words[..n], others[..n]);
      HexReadsBack(words[n]);
      HexReadsBack(others[n]);
      assert words == words[..n] + [words[n]] && others == others[..n] + [others[n]];
    }
  }

  // ----- the object

  class SHA256 {
    var state: seq<bv32>
    var buffer: seq<bv8>
    var totalLength: nat

    /** The bytes fed since construction or the last digest. */
    ghost var fed: seq<bv8>

    ghost predicate Valid()
      reads this
    {
      Snapshot(state, buffer, totalLength) == Absorbed(fed)
    }

    constructor ()
      ensures Valid() && fed == []
    {
      state := INITIAL;
      buffer := [];
      totalLength := 0;
      fed := [];
    }

    method Update(data: seq<bv8>)
      requires Valid()
      modifies this
      ensures Valid() && fed == old(fed) + data
    {
      hide Compress, K, HashBlocks;
      ghost var start := fed;
      totalLength := (totalLength + |data| * 8) % TWO_64;
      TotalAfter(|start|, |data|);
      for i := 0 to |data|
        invariant fed == start + data[..i]
        invariant totalLength == 8 * (|start| + |data|) % TWO_64
        invariant state == Absorbed(fed).state && buffer == Absorbed(fed).buffer
      {
        AbsorbStep(fed, data[i]);
        AbsorbedWellFormed(fed);
        assert start + data[..i] + [data[i]] == start + data[..i + 1];
        buffer := buffer + [data[i]];
        if |buffer| == 64 {
          assert buffer[..64] == buffer;
          Transform(buffer);
          buffer := [];
        }
        fed := fed + [data[i]];
      }
      assert fed == start + data;
    }

    /** The first two loops of transform: the 64 words of the schedule. */
    static method ExpandMessage(data: seq<bv8>) returns (w: array<bv32>)
      requires |data| >= 64
      ensures fresh(w) && w.Length == 64
      ensures forall t :: 0 <= t < 64 ==> w[t] == Schedule(data[..64], t)
    {
      hide WordOf, Sig0, Sig1, Plus, Schedule;
      w := new bv32[64](i => 0);
      for i := 0 to 16
        invariant forall t :: 0 <= t < i ==> w[t] == Schedule(data[..64], t)
      {
        ScheduleWord(data[..64], i);
        w[i] := WordOf(data[i * 4], data[i * 4 + 1], data[i * 4 + 2], data[i * 4 + 3]);
      }
      for i := 16 to 64
        invariant forall t :: 0 <= t < i ==> w[t] == Schedule(data[..64], t)
      {
        ScheduleWord(data[..64], i);
        w[i] := Plus(Plus(Plus(Sig1(w[i - 2]), w[i - 7]), Sig0(w[i - 15])), w[i - 16]);
      }
    }

    /** Compresses the first 64 bytes of data into the state. */
    method Transform(data: seq<bv8>)
      requires |data| >= 64 && |state| == 8
      modifies this`state
      ensures |state| == 8 && state == Compress(old(state), data[..64])
    {
      hide Ep0, Ep1, Ch, Maj, Plus, K, Schedule;
      ghost var block := data[..64];
      var w := ExpandMessage(data);
      var a, b, c, d := state[0], state[1], state[2], state[3];
      var e, f, g, h := state[4], state[5], state[6], state[7];
      for i := 0 to 64
        invariant state == old(state)
        invariant forall t :: 0 <= t < 64 ==> w[t] == Schedule(block, t)
        invariant Registers(a, b, c, d, e, f, g, h) == Rounds(state, block, i)
      {
        var temp1 := Plus(Plus(Plus(Plus(h, Ep1(e)), Ch(e, f, g)), K[i]), w[i]);
        var temp2 := Plus(Ep0(a), Maj(a, b, c));
        h := g;
        g := f;
        f := e;
        e := Plus(d, temp1);
        d := c;
        c := b;
        b := a;
        a := Plus(temp1, temp2);
      }
      state := [Plus(state[0], a), Plus(state[1], b), Plus(state[2], c), Plus(state[3], d),
                Plus(state[4], e), Plus(state[5], f), Plus(state[6], g), Plus(state[7], h)];
    }

    /** The last loop of pad: the length, most significant byte first. */
    method AppendLength(finalLength: nat)
      modifies this`buffer
      ensures buffer == old(buffer) + LengthBytes(finalLength)
    {
      hide LengthBytes, ByteOf, Pow256;
      var i := 7;
      while i >= 0
        invariant -1 <= i <= 7
        invariant buffer == old(buffer) + LengthBytes(finalLength)[..7 - i]
      {
        LengthByte(finalLength, i);
        buffer := buffer + [ByteOf(finalLength / Pow256(i))];
        i := i - 1;
      }
    }

    /** Completes the buffer and compresses its first 64 bytes, however many there are. */
    method PadBuffer()
      requires Valid()
      modifies this`state, this`buffer
      ensures state == CodeHash(fed)
    {
      hide Compress, K, LengthBytes, ByteOf, HashBlocks, CodeHash, CompressedBytes, Pow256;
      ghost var m := fed;
      ghost var tail := buffer;
      ghost var previous := state;
      BufferIsTail(m);
      LastBlock(m);
      hide Whole, Absorbed;
      var finalLength := totalLength;
      buffer := buffer + [0x80];
      while |buffer| < 56
        invariant state == previous
        invariant |tail| + 1 <= |buffer| && (|buffer| <= 56 || |buffer| == |tail| + 1)
        invariant buffer == tail + [0x80] + Zeros(|buffer| - |tail| - 1)
      {
        buffer := buffer + [0x00];
      }
      AppendLength(finalLength);
      assert buffer == PaddedTail(tail, totalLength);
      Transform(buffer);
    }

    /** Pads, prints the state and makes the object as good as new. */
    method Digest() returns (hex: string)
      requires Valid()
      modifies this
      ensures hex == Hex(CodeHash(old(fed)))
      ensures |hex| == 64 && forall i :: 0 <= i < 8 ==> ReadHex(hex[8 * i..8 * i + 8]) == CodeHash(old(fed))[i]
      ensures 8 * |old(fed)| < TWO_64 && |old(fed)| % 64 <= 55 ==> hex == Hex(StandardHash(old(fed)))
      ensures Valid() && fed == [] && state == INITIAL && buffer == [] && totalLength == 0
    {
      hide CodeHash, HexWord, StandardHash, K, ReadHex;
      PadBuffer();
      ghost var words := state;
      hex := "";
      for i := 0 to 8
        invariant state == words
        invariant hex == Hex(words[..i])
      {
        hex := hex + HexWord(state[i]);
        assert words[..i + 1][..i] == words[..i];
      }
      assert words[..8] == words;
      forall i | 0 <= i < 8 ensures ReadHex(hex[8 * i..8 * i + 8]) == words[i] {
        HexInOrder(words, i);
      }
      if 8 * |fed| < TWO_64 && |fed| % 64 <= 55 {
        ShortTailHash(fed);
      }
      state := INITIAL;
      buffer := [];
      totalLength := 0;
      fed := [];
      AbsorbedWellFormed([]);
    }
  }

  function Pow256(i: nat): (p: nat)
    ensures p > 0
  {
    if i == 0 then 1 else 256 * Pow256(i - 1)
  }

  lemma LengthByte(n: nat, i: nat)
    requires i < 8
    ensures LengthBytes(n)[7 - i] == ByteOf(n / Pow256(i))
  {
    assert Pow256(0) == 1 && Pow256(1) == 0x100 && Pow256(2) == 0x1_0000 && Pow256(3) == 0x100_0000;
    assert Pow256(4) == 0x1_0000_0000 && Pow256(5) == 0x100_0000_0000;
    assert Pow256(6) == 0x1_0000_0000_0000 && Pow256(7) == 0x100_0000_0000_0000;
    hide ByteOf;
  }

  lemma BufferIsTail(m: seq<bv8>)
    ensures |Absorbed(m).buffer| < 64 && Absorbed(m).buffer == m[Whole(|m|)..]
    ensures |Absorbed(m).state| == 8 && Absorbed(m).state == HashBlocks(m[..Whole(|m|)])
    ensures Absorbed(m).totalLength == 8 * |m| % TWO_64
  {
  }

  lemma LastBlock(m: seq<bv8>)
    ensures CodeHash(m) == Compress(HashBlocks(m[..Whole(|m|)]), PaddedTail(m[Whole(|m|)..], 8 * |m| % TWO_64)[..64])
  {
    hide Compress, K, LengthBytes;
    var w, c := m[..Whole(|m|)], CompressedBytes(m);
    assert c[..|c| - 64] == w;
    assert c[|c| - 64..] == PaddedTail(m[Whole(|m|)..], 8 * |m| % TWO_64)[..64];
  }

  lemma TotalAfter(n: nat, k: nat)
    ensures (8 * n % TWO_64 + k * 8) % TWO_64 == 8 * (n + k) % TWO_64
  {
  }
}
