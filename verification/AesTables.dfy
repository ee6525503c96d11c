/** aes256.hpp: the substitution tables and round constants, and what section 5.1.1 of FIPS 197 says they contain. */
module AesTables {
  import opened Gf256
  import opened Primes

  const SBOX: seq<nat> :=
    ([0x63, 0x7c, 0x77, 0x7b, 0xf2, 0x6b, 0x6f, 0xc5, 0x30, 0x01, 0x67, 0x2b, 0xfe, 0xd7, 0xab, 0x76]
     + [0xca, 0x82, 0xc9, 0x7d, 0xfa, 0x59, 0x47, 0xf0, 0xad, 0xd4, 0xa2, 0xaf, 0x9c, 0xa4, 0x72, 0xc0]
     + [0xb7, 0xfd, 0x93, 0x26, 0x36, 0x3f, 0xf7, 0xcc, 0x34, 0xa5, 0xe5, 0xf1, 0x71, 0xd8, 0x31, 0x15]
     + [0x04, 0xc7, 0x23, 0xc3, 0x18, 0x96, 0x05, 0x9a, 0x07, 0x12, 0x80, 0xe2, 0xeb, 0x27, 0xb2, 0x75])
    + ([0x09, 0x83, 0x2c, 0x1a, 0x1b, 0x6e, 0x5a, 0xa0, 0x52, 0x3b, 0xd6, 0xb3, 0x29, 0xe3, 0x2f, 0x84]
     + [0x53, 0xd1, 0x00, 0xed, 0x20, 0xfc, 0xb1, 0x5b, 0x6a, 0xcb, 0xbe, 0x39, 0x4a, 0x4c, 0x58, 0xcf]
     + [0xd0, 0xef, 0xaa, 0xfb, 0x43, 0x4d, 0x33, 0x85, 0x45, 0xf9, 0x02, 0x7f, 0x50, 0x3c, 0x9f, 0xa8]
     + [0x51, 0xa3, 0x40, 0x8f, 0x92, 0x9d, 0x38, 0xf5, 0xbc, 0xb6, 0xda, 0x21, 0x10, 0xff, 0xf3, 0xd2])
    + ([0xcd, 0x0c, 0x13, 0xec, 0x5f, 0x97, 0x44, 0x17, 0xc4, 0xa7, 0x7e, 0x3d, 0x64, 0x5d, 0x19, 0x73]
     + [0x60, 0x81, 0x4f, 0xdc, 0x22, 0x2a, 0x90, 0x88, 0x46, 0xee, 0xb8, 0x14, 0xde, 0x5e, 0x0b, 0xdb]
     + [0xe0, 0x32, 0x3a, 0x0a, 0x49, 0x06, 0x24, 0x5c, 0xc2, 0xd3, 0xac, 0x62, 0x91, 0x95, 0xe4, 0x79]
     + [0xe7, 0xc8, 0x37, 0x6d, 0x8d, 0xd5, 0x4e, 0xa9, 0x6c, 0x56, 0xf4, 0xea, 0x65, 0x7a, 0xae, 0x08])
    + ([0xba, 0x78, 0x25, 0x2e, 0x1c, 0xa6, 0xb4, 0xc6, 0xe8, 0xdd, 0x74, 0x1f, 0x4b, 0xbd, 0x8b, 0x8a]
     + [0x70, 0x3e, 0xb5, 0x66, 0x48, 0x03, 0xf6, 0x0e, 0x61, 0x35, 0x57, 0xb9, 0x86, 0xc1, 0x1d, 0x9e]
     + [0xe1, 0xf8, 0x98, 0x11, 0x69, 0xd9, 0x8e, 0x94, 0x9b, 0x1e, 0x87, 0xe9, 0xce, 0x55, 0x28, 0xdf]
     + [0x8c, 0xa1, 0x89, 0x0d, 0xbf, 0xe6, 0x42, 0x68, 0x41, 0x99, 0x2d, 0x0f, 0xb0, 0x54, 0xbb, 0x16])

  const INV_SBOX: seq<nat> :=
    ([0x52, 0x09, 0x6a, 0xd5, 0x30, 0x36, 0xa5, 0x38, 0xbf, 0x40, 0xa3, 0x9e, 0x81, 0xf3, 0xd7, 0xfb]
     + [0x7c, 0xe3, 0x39, 0x82, 0x9b, 0x2f, 0xff, 0x87, 0x34, 0x8e, 0x43, 0x44, 0xc4, 0xde, 0xe9, 0xcb]
     + [0x54, 0x7b, 0x94, 0x32, 0xa6, 0xc2, 0x23, 0x3d, 0xee, 0x4c, 0x95, 0x0b, 0x42, 0xfa, 0xc3, 0x4e]
     + [0x08, 0x2e, 0xa1, 0x66, 0x28, 0xd9, 0x24, 0xb2, 0x76, 0x5b, 0xa2, 0x49, 0x6d, 0x8b, 0xd1, 0x25])
    + ([0x72, 0xf8, 0xf6, 0x64, 0x86, 0x68, 0x98, 0x16, 0xd4, 0xa4, 0x5c, 0xcc, 0x5d, 0x65, 0xb6, 0x92]
     + [0x6c, 0x70, 0x48, 0x50, 0xfd, 0xed, 0xb9, 0xda, 0x5e, 0x15, 0x46, 0x57, 0xa7, 0x8d, 0x9d, 0x84]
     + [0x90, 0xd8, 0xab, 0x00, 0x8c, 0xbc, 0xd3, 0x0a, 0xf7, 0xe4, 0x58, 0x05, 0xb8, 0xb3, 0x45, 0x06]
     + [0xd0, 0x2c, 0x1e, 0x8f, 0xca, 0x3f, 0x0f, 0x02, 0xc1, 0xaf, 0xbd, 0x03, 0x01, 0x13, 0x8a, 0x6b])
    + ([0x3a, 0x91, 0x11, 0x41, 0x4f, 0x67, 0xdc, 0xea, 0x97, 0xf2, 0xcf, 0xce, 0xf0, 0xb4, 0xe6, 0x73]
     + [0x96, 0xac, 0x74, 0x22, 0xe7, 0xad, 0x35, 0x85, 0xe2, 0xf9, 0x37, 0xe8, 0x1c, 0x75, 0xdf, 0x6e]
     + [0x47, 0xf1, 0x1a, 0x71, 0x1d, 0x29, 0xc5, 0x89, 0x6f, 0xb7, 0x62, 0x0e, 0xaa, 0x18, 0xbe, 0x1b]
     + [0xfc, 0x56, 0x3e, 0x4b, 0xc6, 0xd2, 0x79, 0x20, 0x9a, 0xdb, 0xc0, 0xfe, 0x78, 0xcd, 0x5a, 0xf4])
    + ([0x1f, 0xdd, 0xa8, 0x33, 0x88, 0x07, 0xc7, 0x31, 0xb1, 0x12, 0x10, 0x59, 0x27, 0x80, 0xec, 0x5f]
     + [0x60, 0x51, 0x7f, 0xa9, 0x19, 0xb5, 0x4a, 0x0d, 0x2d, 0xe5, 0x7a, 0x9f, 0x93, 0xc9, 0x9c, 0xef]
     + [0xa0, 0xe0, 0x3b, 0x4d, 0xae, 0x2a, 0xf5, 0xb0, 0xc8, 0xeb, 0xbb, 0x3c, 0x83, 0x53, 0x99, 0x61]
     + [0x17, 0x2b, 0x04, 0x7e, 0xba, 0x77, 0xd6, 0x26, 0xe1, 0x69, 0x14, 0x63, 0x55, 0x21, 0x0c, 0x7d])

  const ROUND_CONST: seq<bv32> := [
    0x01000000, 0x02000000, 0x04000000, 0x08000000, 0x10000000,
    0x20000000, 0x40000000, 0x80000000, 0x1b000000, 0x36000000
  ]

  ghost predicate IsTable(t: seq<nat>) {
    |t| == 256 && forall i :: 0 <= i < 256 ==> t[i] < 256
  }

  /** Looking a byte up in one table and the result in the other gives the byte back. */
  ghost predicate Undoes(t: seq<nat>, u: seq<nat>) {
    IsTable(t) && IsTable(u) && forall i :: 0 <= i < 256 ==> u[t[i]] == i
  }

  /** Bytes as table indices, and table entries as bytes. */
  function Index(x: bv8): int {
    x as int
  }

  function ByteOf(n: nat): bv8
    requires n < 256
  {
    n as bv8
  }

  lemma ByteOfIndex(x: bv8)
    ensures 0 <= Index(x) < 256 && ByteOf(Index(x)) == x
  {
  }

  lemma ByteModulo(n: nat)
    requires n < 256
    ensures Index(ByteOf(n)) == n % 256
  {
  }

  lemma SmallModulo(n: nat)
    requires n < 256
    ensures n % 256 == n
  {
  }

  lemma IndexOfByte(n: nat)
    requires n < 256
    ensures Index(ByteOf(n)) == n
  {
    hide *;
    ByteModulo(n);
    SmallModulo(n);
  }

  // ----- the table by its definition

  /** The affine map over GF(2) of section 5.1.1. */
  function Affine(t: bv8): bv8 {
    t ^ ((t << 1) | (t >> 7)) ^ ((t << 2) | (t >> 6)) ^ ((t << 3) | (t >> 5)) ^ ((t << 4) | (t >> 4)) ^ 0x63
  }

  /** t is the multiplicative inverse of x in GF(2^8), and 0 for 0. */
  ghost predicate IsInverse(x: bv8, t: bv8) {
    if x == 0 then t == 0 else Mul(x, t) == 1
  }

  /** The entry of x is the affine image of the inverse of x. */
  ghost predicate StandardEntry(x: bv8) {
    |SBOX| == 256 && exists t: bv8 :: IsInverse(x, t) && SBOX[x as int] < 256 && SBOX[x as int] as bv8 == Affine(t)
  }

  /** The sum of the multiples of a selected by the four lowest coefficients of b. */
  function HalfSum(a: bv8, a1: bv8, a2: bv8, a3: bv8, b: bv8): bv8 {
    (if b & 0x01 != 0 then a else 0) ^ ((if b & 0x02 != 0 then a1 else 0)
    ^ ((if b & 0x04 != 0 then a2 else 0) ^ (if b & 0x08 != 0 then a3 else 0)))
  }

  /** The product of two bytes with its eight shifts spelled out. */
  function Spelled(a: bv8, b: bv8): bv8 {
    var a1 := if a & 0x80 != 0 then (a << 1) ^ 0x1b else a << 1;
    var a2 := if a1 & 0x80 != 0 then (a1 << 1) ^ 0x1b else a1 << 1;
    var a3 := if a2 & 0x80 != 0 then (a2 << 1) ^ 0x1b else a2 << 1;
    var a4 := if a3 & 0x80 != 0 then (a3 << 1) ^ 0x1b else a3 << 1;
    var a5 := if a4 & 0x80 != 0 then (a4 << 1) ^ 0x1b else a4 << 1;
    var a6 := if a5 & 0x80 != 0 then (a5 << 1) ^ 0x1b else a5 << 1;
    var a7 := if a6 & 0x80 != 0 then (a6 << 1) ^ 0x1b else a6 << 1;
    Add(HalfSum(a, a1, a2, a3, b), HalfSum(a4, a5, a6, a7, b >> 4))
  }

  lemma HalfSumOfLows(a: bv8, a1: bv8, a2: bv8, a3: bv8, b: bv8)
    ensures HalfSum(a, a1, a2, a3, b) == Add(Low(b, a), Add(Low(b >> 1, a1), Add(Low(b >> 2, a2), Low(b >> 3, a3))))
  {
  }

  lemma SpelledShifts(a: bv8, a1: bv8, a2: bv8, a3: bv8, a4: bv8, a5: bv8, a6: bv8, a7: bv8, b: bv8)
    requires a1 == Xtime(a) && a2 == Xtime(a1) && a3 == Xtime(a2) && a4 == Xtime(a3)
    requires a5 == Xtime(a4) && a6 == Xtime(a5) && a7 == Xtime(a6)
    ensures Spelled(a, b) == Add(HalfSum(a, a1, a2, a3, b), HalfSum(a4, a5, a6, a7, b >> 4))
  {
    hide HalfSum, Add;
  }

  lemma MulIsHalfSums(a: bv8, a1: bv8, a2: bv8, a3: bv8, a4: bv8, a5: bv8, a6: bv8, a7: bv8, b: bv8)
    requires a1 == Xtime(a) && a2 == Xtime(a1) && a3 == Xtime(a2) && a4 == Xtime(a3)
    requires a5 == Xtime(a4) && a6 == Xtime(a5) && a7 == Xtime(a6)
    ensures MulLow(a, b, 8) == Add(HalfSum(a, a1, a2, a3, b), HalfSum(a4, a5, a6, a7, b >> 4))
  {
    hide *;
    var c := b >> 4;
    assert c >> 1 == b >> 5 && c >> 2 == b >> 6 && c >> 3 == b >> 7;
    HalfSumOfLows(a, a1, a2, a3, b);
    HalfSumOfLows(a4, a5, a6, a7, c);
    Unfold(a, b, 8);
    Unfold(a1, b >> 1, 7);
    Unfold(a2, b >> 2, 6);
    Unfold(a3, b >> 3, 5);
    Unfold(a4, b >> 4, 4);
    Unfold(a5, b >> 5, 3);
    Unfold(a6, b >> 6, 2);
    Unfold(a7, b >> 7, 1);
    LoopEnd(Low(b >> 7, a7), Xtime(a7), (b >> 7) >> 1);
    var high := HalfSum(a4, a5, a6, a7, c);
    AddAssociative(Low(b >> 2, a2), Low(b >> 3, a3), high);
    AddAssociative(Low(b >> 1, a1), Add(Low(b >> 2, a2), Low(b >> 3, a3)), high);
    AddAssociative(Low(b, a), Add(Low(b >> 1, a1), Add(Low(b >> 2, a2), Low(b >> 3, a3))), high);
  }

  lemma SpelledIsMul(a: bv8, b: bv8)
    ensures Spelled(a, b) == Mul(a, b)
  {
    hide Spelled, Xtime, Add, MulLow, HalfSum;
    var a1 := Xtime(a);
    var a2 := Xtime(a1);
    var a3 := Xtime(a2);
    var a4 := Xtime(a3);
    var a5 := Xtime(a4);
    var a6 := Xtime(a5);
    var a7 := Xtime(a6);
    SpelledShifts(a, a1, a2, a3, a4, a5, a6, a7, b);
    MulIsHalfSums(a, a1, a2, a3, a4, a5, a6, a7, b);
  }

  lemma Sizes()
    ensures |SBOX| == 256 && |INV_SBOX| == 256
  {
  }

  /** Entry i is s, and the inverse table leads back. */
  ghost predicate Entry(i: int, s: int) {
    && |SBOX| == 256 && |INV_SBOX| == 256 && 0 <= i < 256 && 0 <= s < 256
    && SBOX[i] == s && INV_SBOX[s] == i
  }

  /** One line of the tables: y is the entry of x, and the affine image of t, the inverse of x. */
  ghost predicate Line(x: bv8, t: bv8, y: bv8) {
    Entry(Index(x), Index(y)) && (if x == 0 then t == 0 else Spelled(x, t) == 1) && Affine(t) == y
  }

  ghost predicate Holds(x: bv8) {
    exists t: bv8, y: bv8 :: Line(x, t, y)
  }

  lemma Entries0()
    ensures Entry(0x00, 0x63) && Entry(0x01, 0x7c) && Entry(0x02, 0x77) && Entry(0x03, 0x7b)
    ensures Entry(0x04, 0xf2) && Entry(0x05, 0x6b) && Entry(0x06, 0x6f) && Entry(0x07, 0xc5)
    ensures Entry(0x08, 0x30) && Entry(0x09, 0x01) && Entry(0x0a, 0x67) && Entry(0x0b, 0x2b)
    ensures Entry(0x0c, 0xfe) && Entry(0x0d, 0xd7) && Entry(0x0e, 0xab) && Entry(0x0f, 0x76)
  {
    Sizes();
  }

  lemma Row0()
    ensures Line(0x00, 0x00, 0x63) && Line(0x01, 0x01, 0x7c) && Line(0x02, 0x8d, 0x77) && Line(0x03, 0xf6, 0x7b)
    ensures Line(0x04, 0xcb, 0xf2) && Line(0x05, 0x52, 0x6b) && Line(0x06, 0x7b, 0x6f) && Line(0x07, 0xd1, 0xc5)
    ensures Line(0x08, 0xe8, 0x30) && Line(0x09, 0x4f, 0x01) && Line(0x0a, 0x29, 0x67) && Line(0x0b, 0xc0, 0x2b)
    ensures Line(0x0c, 0xb0, 0xfe) && Line(0x0d, 0xe1, 0xd7) && Line(0x0e, 0xe5, 0xab) && Line(0x0f, 0xc7, 0x76)
  {
    Entries0();
    hide Entry;
  }

  lemma Entries1()
    ensures Entry(0x10, 0xca) && Entry(0x11, 0x82) && Entry(0x12, 0xc9) && Entry(0x13, 0x7d)
    ensures Entry(0x14, 0xfa) && Entry(0x15, 0x59) && Entry(0x16, 0x47) && Entry(0x17, 0xf0)
    ensures Entry(0x18, 0xad) && Entry(0x19, 0xd4) && Entry(0x1a, 0xa2) && Entry(0x1b, 0xaf)
    ensures Entry(0x1c, 0x9c) && Entry(0x1d, 0xa4) && Entry(0x1e, 0x72) && Entry(0x1f, 0xc0)
  {
    Sizes();
  }

  lemma Row1()
    ensures Line(0x10, 0x74, 0xca) && Line(0x11, 0xb4, 0x82) && Line(0x12, 0xaa, 0xc9) && Line(0x13, 0x4b, 0x7d)
    ensures Line(0x14, 0x99, 0xfa) && Line(0x15, 0x2b, 0x59) && Line(0x16, 0x60, 0x47) && Line(0x17, 0x5f, 0xf0)
    ensures Line(0x18, 0x58, 0xad) && Line(0x19, 0x3f, 0xd4) && Line(0x1a, 0xfd, 0xa2) && Line(0x1b, 0xcc, 0xaf)
    ensures Line(0x1c, 0xff, 0x9c) && Line(0x1d, 0x40, 0xa4) && Line(0x1e, 0xee, 0x72) && Line(0x1f, 0xb2, 0xc0)
  {
    Entries1();
    hide Entry;
  }

  lemma Entries2()
    ensures Entry(0x20, 0xb7) && Entry(0x21, 0xfd) && Entry(0x22, 0x93) && Entry(0x23, 0x26)
    ensures Entry(0x24, 0x36) && Entry(0x25, 0x3f) && Entry(0x26, 0xf7) && Entry(0x27, 0xcc)
    ensures Entry(0x28, 0x34) && Entry(0x29, 0xa5) && Entry(0x2a, 0xe5) && Entry(0x2b, 0xf1)
    ensures Entry(0x2c, 0x71) && Entry(0x2d, 0xd8) && Entry(0x2e, 0x31) && Entry(0x2f, 0x15)
  {
    Sizes();
  }

  lemma Row2()
    ensures Line(0x20, 0x3a, 0xb7) && Line(0x21, 0x6e, 0xfd) && Line(0x22, 0x5a, 0x93) && Line(0x23, 0xf1, 0x26)
    ensures Line(0x24, 0x55, 0x36) && Line(0x25, 0x4d, 0x3f) && Line(0x26, 0xa8, 0xf7) && Line(0x27, 0xc9, 0xcc)
    ensures Line(0x28, 0xc1, 0x34) && Line(0x29, 0x0a, 0xa5) && Line(0x2a, 0x98, 0xe5) && Line(0x2b, 0x15, 0xf1)
    ensures Line(0x2c, 0x30, 0x71) && Line(0x2d, 0x44, 0xd8) && Line(0x2e, 0xa2, 0x31) && Line(0x2f, 0xc2, 0x15)
  {
    Entries2();
    hide Entry;
  }

  lemma Entries3()
    ensures Entry(0x30, 0x04) && Entry(0x31, 0xc7) && Entry(0x32, 0x23) && Entry(0x33, 0xc3)
    ensures Entry(0x34, 0x18) && Entry(0x35, 0x96) && Entry(0x36, 0x05) && Entry(0x37, 0x9a)
    ensures Entry(0x38, 0x07) && Entry(0x39, 0x12) && Entry(0x3a, 0x80) && Entry(0x3b, 0xe2)
    ensures Entry(0x3c, 0xeb) && Entry(0x3d, 0x27) && Entry(0x3e, 0xb2) && Entry(0x3f, 0x75)
  {
    Sizes();
  }

  lemma Row3()
    ensures Line(0x30, 0x2c, 0x04) && Line(0x31, 0x45, 0xc7) && Line(0x32, 0x92, 0x23) && Line(0x33, 0x6c, 0xc3)
    ensures Line(0x34, 0xf3, 0x18) && Line(0x35, 0x39, 0x96) && Line(0x36, 0x66, 0x05) && Line(0x37, 0x42, 0x9a)
    ensures Line(0x38, 0xf2, 0x07) && Line(0x39, 0x35, 0x12) && Line(0x3a, 0x20, 0x80) && Line(0x3b, 0x6f, 0xe2)
    ensures Line(0x3c, 0x77, 0xeb) && Line(0x3d, 0xbb, 0x27) && Line(0x3e, 0x59, 0xb2) && Line(0x3f, 0x19, 0x75)
  {
    Entries3();
    hide Entry;
  }

  lemma Entries4()
    ensures Entry(0x40, 0x09) && Entry(0x41, 0x83) && Entry(0x42, 0x2c) && Entry(0x43, 0x1a)
    ensures Entry(0x44, 0x1b) && Entry(0x45, 0x6e) && Entry(0x46, 0x5a) && Entry(0x47, 0xa0)
    ensures Entry(0x48, 0x52) && Entry(0x49, 0x3b) && Entry(0x4a, 0xd6) && Entry(0x4b, 0xb3)
    ensures Entry(0x4c, 0x29) && Entry(0x4d, 0xe3) && Entry(0x4e, 0x2f) && Entry(0x4f, 0x84)
  {
    Sizes();
  }

  lemma Row4()
    ensures Line(0x40, 0x1d, 0x09) && Line(0x41, 0xfe, 0x83) && Line(0x42, 0x37, 0x2c) && Line(0x43, 0x67, 0x1a)
    ensures Line(0x44, 0x2d, 0x1b) && Line(0x45, 0x31, 0x6e) && Line(0x46, 0xf5, 0x5a) && Line(0x47, 0x69, 0xa0)
    ensures Line(0x48, 0xa7, 0x52) && Line(0x49, 0x64, 0x3b) && Line(0x4a, 0xab, 0xd6) && Line(0x4b, 0x13, 0xb3)
    ensures Line(0x4c, 0x54, 0x29) && Line(0x4d, 0x25, 0xe3) && Line(0x4e, 0xe9, 0x2f) && Line(0x4f, 0x09, 0x84)
  {
    Entries4();
    hide Entry;
  }

  lemma Entries5()
    ensures Entry(0x50, 0x53) && Entry(0x51, 0xd1) && Entry(0x52, 0x00) && Entry(0x53, 0xed)
    ensures Entry(0x54, 0x20) && Entry(0x55, 0xfc) && Entry(0x56, 0xb1) && Entry(0x57, 0x5b)
    ensures Entry(0x58, 0x6a) && Entry(0x59, 0xcb) && Entry(0x5a, 0xbe) && Entry(0x5b, 0x39)
    ensures Entry(0x5c, 0x4a) && Entry(0x5d, 0x4c) && Entry(0x5e, 0x58) && Entry(0x5f, 0xcf)
  {
    Sizes();
  }

  lemma Row5()
    ensures Line(0x50, 0xed, 0x53) && Line(0x51, 0x5c, 0xd1) && Line(0x52, 0x05, 0x00) && Line(0x53, 0xca, 0xed)
    ensures Line(0x54, 0x4c, 0x20) && Line(0x55, 0x24, 0xfc) && Line(0x56, 0x87, 0xb1) && Line(0x57, 0xbf, 0x5b)
    ensures Line(0x58, 0x18, 0x6a) && Line(0x59, 0x3e, 0xcb) && Line(0x5a, 0x22, 0xbe) && Line(0x5b, 0xf0, 0x39)
    ensures Line(0x5c, 0x51, 0x4a) && Line(0x5d, 0xec, 0x4c) && Line(0x5e, 0x61, 0x58) && Line(0x5f, 0x17, 0xcf)
  {
    Entries5();
    hide Entry;
  }

  lemma Entries6()
    ensures Entry(0x60, 0xd0) && Entry(0x61, 0xef) && Entry(0x62, 0xaa) && Entry(0x63, 0xfb)
    ensures Entry(0x64, 0x43) && Entry(0x65, 0x4d) && Entry(0x66, 0x33) && Entry(0x67, 0x85)
    ensures Entry(0x68, 0x45) && Entry(0x69, 0xf9) && Entry(0x6a, 0x02) && Entry(0x6b, 0x7f)
    ensures Entry(0x6c, 0x50) && Entry(0x6d, 0x3c) && Entry(0x6e, 0x9f) && Entry(0x6f, 0xa8)
  {
    Sizes();
  }

  lemma Row6()
    ensures Line(0x60, 0x16, 0xd0) && Line(0x61, 0x5e, 0xef) && Line(0x62, 0xaf, 0xaa) && Line(0x63, 0xd3, 0xfb)
    ensures Line(0x64, 0x49, 0x43) && Line(0x65, 0xa6, 0x4d) && Line(0x66, 0x36, 0x33) && Line(0x67, 0x43, 0x85)
    ensures Line(0x68, 0xf4, 0x45) && Line(0x69, 0x47, 0xf9) && Line(0x6a, 0x91, 0x02) && Line(0x6b, 0xdf, 0x7f)
    ensures Line(0x6c, 0x33, 0x50) && Line(0x6d, 0x93, 0x3c) && Line(0x6e, 0x21, 0x9f) && Line(0x6f, 0x3b, 0xa8)
  {
    Entries6();
    hide Entry;
  }

  lemma Entries7()
    ensures Entry(0x70, 0x51) && Entry(0x71, 0xa3) && Entry(0x72, 0x40) && Entry(0x73, 0x8f)
    ensures Entry(0x74, 0x92) && Entry(0x75, 0x9d) && Entry(0x76, 0x38) && Entry(0x77, 0xf5)
    ensures Entry(0x78, 0xbc) && Entry(0x79, 0xb6) && Entry(0x7a, 0xda) && Entry(0x7b, 0x21)
    ensures Entry(0x7c, 0x10) && Entry(0x7d, 0xff) && Entry(0x7e, 0xf3) && Entry(0x7f, 0xd2)
  {
    Sizes();
  }

  lemma Row7()
    ensures Line(0x70, 0x79, 0x51) && Line(0x71, 0xb7, 0xa3) && Line(0x72, 0x97, 0x40) && Line(0x73, 0x85, 0x8f)
    ensures Line(0x74, 0x10, 0x92) && Line(0x75, 0xb5, 0x9d) && Line(0x76, 0xba, 0x38) && Line(0x77, 0x3c, 0xf5)
    ensures Line(0x78, 0xb6, 0xbc) && Line(0x79, 0x70, 0xb6) && Line(0x7a, 0xd0, 0xda) && Line(0x7b, 0x06, 0x21)
    ensures Line(0x7c, 0xa1, 0x10) && Line(0x7d, 0xfa, 0xff) && Line(0x7e, 0x81, 0xf3) && Line(0x7f, 0x82, 0xd2)
  {
    Entries7();
    hide Entry;
  }

  lemma Entries8()
    ensures Entry(0x80, 0xcd) && Entry(0x81, 0x0c) && Entry(0x82, 0x13) && Entry(0x83, 0xec)
    ensures Entry(0x84, 0x5f) && Entry(0x85, 0x97) && Entry(0x86, 0x44) && Entry(0x87, 0x17)
    ensures Entry(0x88, 0xc4) && Entry(0x89, 0xa7) && Entry(0x8a, 0x7e) && Entry(0x8b, 0x3d)
    ensures Entry(0x8c, 0x64) && Entry(0x8d, 0x5d) && Entry(0x8e, 0x19) && Entry(0x8f, 0x73)
  {
    Sizes();
  }

  lemma Row8()
    ensures Line(0x80, 0x83, 0xcd) && Line(0x81, 0x7e, 0x0c) && Line(0x82, 0x7f, 0x13) && Line(0x83, 0x80, 0xec)
    ensures Line(0x84, 0x96, 0x5f) && Line(0x85, 0x73, 0x97) && Line(0x86, 0xbe, 0x44) && Line(0x87, 0x56, 0x17)
    ensures Line(0x88, 0x9b, 0xc4) && Line(0x89, 0x9e, 0xa7) && Line(0x8a, 0x95, 0x7e) && Line(0x8b, 0xd9, 0x3d)
    ensures Line(0x8c, 0xf7, 0x64) && Line(0x8d, 0x02, 0x5d) && Line(0x8e, 0xb9, 0x19) && Line(0x8f, 0xa4, 0x73)
  {
    Entries8();
    hide Entry;
  }

  lemma Entries9()
    ensures Entry(0x90, 0x60) && Entry(0x91, 0x81) && Entry(0x92, 0x4f) && Entry(0x93, 0xdc)
    ensures Entry(0x94, 0x22) && Entry(0x95, 0x2a) && Entry(0x96, 0x90) && Entry(0x97, 0x88)
    ensures Entry(0x98, 0x46) && Entry(0x99, 0xee) && Entry(0x9a, 0xb8) && Entry(0x9b, 0x14)
    ensures Entry(0x9c, 0xde) && Entry(0x9d, 0x5e) && Entry(0x9e, 0x0b) && Entry(0x9f, 0xdb)
  {
    Sizes();
  }

  lemma Row9()
    ensures Line(0x90, 0xde, 0x60) && Line(0x91, 0x6a, 0x81) && Line(0x92, 0x32, 0x4f) && Line(0x93, 0x6d, 0xdc)
    ensures Line(0x94, 0xd8, 0x22) && Line(0x95, 0x8a, 0x2a) && Line(0x96, 0x84, 0x90) && Line(0x97, 0x72, 0x88)
    ensures Line(0x98, 0x2a, 0x46) && Line(0x99, 0x14, 0xee) && Line(0x9a, 0x9f, 0xb8) && Line(0x9b, 0x88, 0x14)
    ensures Line(0x9c, 0xf9, 0xde) && Line(0x9d, 0xdc, 0x5e) && Line(0x9e, 0x89, 0x0b) && Line(0x9f, 0x9a, 0xdb)
  {
    Entries9();
    hide Entry;
  }

  lemma EntriesA()
    ensures Entry(0xa0, 0xe0) && Entry(0xa1, 0x32) && Entry(0xa2, 0x3a) && Entry(0xa3, 0x0a)
    ensures Entry(0xa4, 0x49) && Entry(0xa5, 0x06) && Entry(0xa6, 0x24) && Entry(0xa7, 0x5c)
    ensures Entry(0xa8, 0xc2) && Entry(0xa9, 0xd3) && Entry(0xaa, 0xac) && Entry(0xab, 0x62)
    ensures Entry(0xac, 0x91) && Entry(0xad, 0x95) && Entry(0xae, 0xe4) && Entry(0xaf, 0x79)
  {
    Sizes();
  }

  lemma RowA()
    ensures Line(0xa0, 0xfb, 0xe0) && Line(0xa1, 0x7c, 0x32) && Line(0xa2, 0x2e, 0x3a) && Line(0xa3, 0xc3, 0x0a)
    ensures Line(0xa4, 0x8f, 0x49) && Line(0xa5, 0xb8, 0x06) && Line(0xa6, 0x65, 0x24) && Line(0xa7, 0x48, 0x5c)
    ensures Line(0xa8, 0x26, 0xc2) && Line(0xa9, 0xc8, 0xd3) && Line(0xaa, 0x12, 0xac) && Line(0xab, 0x4a, 0x62)
    ensures Line(0xac, 0xce, 0x91) && Line(0xad, 0xe7, 0x95) && Line(0xae, 0xd2, 0xe4) && Line(0xaf, 0x62, 0x79)
  {
    EntriesA();
    hide Entry;
  }

  lemma EntriesB()
    ensures Entry(0xb0, 0xe7) && Entry(0xb1, 0xc8) && Entry(0xb2, 0x37) && Entry(0xb3, 0x6d)
    ensures Entry(0xb4, 0x8d) && Entry(0xb5, 0xd5) && Entry(0xb6, 0x4e) && Entry(0xb7, 0xa9)
    ensures Entry(0xb8, 0x6c) && Entry(0xb9, 0x56) && Entry(0xba, 0xf4) && Entry(0xbb, 0xea)
    ensures Entry(0xbc, 0x65) && Entry(0xbd, 0x7a) && Entry(0xbe, 0xae) && Entry(0xbf, 0x08)
  {
    Sizes();
  }

  lemma RowB()
    ensures Line(0xb0, 0x0c, 0xe7) && Line(0xb1, 0xe0, 0xc8) && Line(0xb2, 0x1f, 0x37) && Line(0xb3, 0xef, 0x6d)
    ensures Line(0xb4, 0x11, 0x8d) && Line(0xb5, 0x75, 0xd5) && Line(0xb6, 0x78, 0x4e) && Line(0xb7, 0x71, 0xa9)
    ensures Line(0xb8, 0xa5, 0x6c) && Line(0xb9, 0x8e, 0x56) && Line(0xba, 0x76, 0xf4) && Line(0xbb, 0x3d, 0xea)
    ensures Line(0xbc, 0xbd, 0x65) && Line(0xbd, 0xbc, 0x7a) && Line(0xbe, 0x86, 0xae) && Line(0xbf, 0x57, 0x08)
  {
    EntriesB();
    hide Entry;
  }

  lemma EntriesC()
    ensures Entry(0xc0, 0xba) && Entry(0xc1, 0x78) && Entry(0xc2, 0x25) && Entry(0xc3, 0x2e)
    ensures Entry(0xc4, 0x1c) && Entry(0xc5, 0xa6) && Entry(0xc6, 0xb4) && Entry(0xc7, 0xc6)
    ensures Entry(0xc8, 0xe8) && Entry(0xc9, 0xdd) && Entry(0xca, 0x74) && Entry(0xcb, 0x1f)
    ensures Entry(0xcc, 0x4b) && Entry(0xcd, 0xbd) && Entry(0xce, 0x8b) && Entry(0xcf, 0x8a)
  {
    Sizes();
  }

  lemma RowC()
    ensures Line(0xc0, 0x0b, 0xba) && Line(0xc1, 0x28, 0x78) && Line(0xc2, 0x2f, 0x25) && Line(0xc3, 0xa3, 0x2e)
    ensures Line(0xc4, 0xda, 0x1c) && Line(0xc5, 0xd4, 0xa6) && Line(0xc6, 0xe4, 0xb4) && Line(0xc7, 0x0f, 0xc6)
    ensures Line(0xc8, 0xa9, 0xe8) && Line(0xc9, 0x27, 0xdd) && Line(0xca, 0x53, 0x74) && Line(0xcb, 0x04, 0x1f)
    ensures Line(0xcc, 0x1b, 0x4b) && Line(0xcd, 0xfc, 0xbd) && Line(0xce, 0xac, 0x8b) && Line(0xcf, 0xe6, 0x8a)
  {
    EntriesC();
    hide Entry;
  }

  lemma EntriesD()
    ensures Entry(0xd0, 0x70) && Entry(0xd1, 0x3e) && Entry(0xd2, 0xb5) && Entry(0xd3, 0x66)
    ensures Entry(0xd4, 0x48) && Entry(0xd5, 0x03) && Entry(0xd6, 0xf6) && Entry(0xd7, 0x0e)
    ensures Entry(0xd8, 0x61) && Entry(0xd9, 0x35) && Entry(0xda, 0x57) && Entry(0xdb, 0xb9)
    ensures Entry(0xdc, 0x86) && Entry(0xdd, 0xc1) && Entry(0xde, 0x1d) && Entry(0xdf, 0x9e)
  {
    Sizes();
  }

  lemma RowD()
    ensures Line(0xd0, 0x7a, 0x70) && Line(0xd1, 0x07, 0x3e) && Line(0xd2, 0xae, 0xb5) && Line(0xd3, 0x63, 0x66)
    ensures Line(0xd4, 0xc5, 0x48) && Line(0xd5, 0xdb, 0x03) && Line(0xd6, 0xe2, 0xf6) && Line(0xd7, 0xea, 0x0e)
    ensures Line(0xd8, 0x94, 0x61) && Line(0xd9, 0x8b, 0x35) && Line(0xda, 0xc4, 0x57) && Line(0xdb, 0xd5, 0xb9)
    ensures Line(0xdc, 0x9d, 0x86) && Line(0xdd, 0xf8, 0xc1) && Line(0xde, 0x90, 0x1d) && Line(0xdf, 0x6b, 0x9e)
  {
    EntriesD();
    hide Entry;
  }

  lemma EntriesE()
    ensures Entry(0xe0, 0xe1) && Entry(0xe1, 0xf8) && Entry(0xe2, 0x98) && Entry(0xe3, 0x11)
    ensures Entry(0xe4, 0x69) && Entry(0xe5, 0xd9) && Entry(0xe6, 0x8e) && Entry(0xe7, 0x94)
    ensures Entry(0xe8, 0x9b) && Entry(0xe9, 0x1e) && Entry(0xea, 0x87) && Entry(0xeb, 0xe9)
    ensures Entry(0xec, 0xce) && Entry(0xed, 0x55) && Entry(0xee, 0x28) && Entry(0xef, 0xdf)
  {
    Sizes();
  }

  lemma RowE()
    ensures Line(0xe0, 0xb1, 0xe1) && Line(0xe1, 0x0d, 0xf8) && Line(0xe2, 0xd6, 0x98) && Line(0xe3, 0xeb, 0x11)
    ensures Line(0xe4, 0xc6, 0x69) && Line(0xe5, 0x0e, 0xd9) && Line(0xe6, 0xcf, 0x8e) && Line(0xe7, 0xad, 0x94)
    ensures Line(0xe8, 0x08, 0x9b) && Line(0xe9, 0x4e, 0x1e) && Line(0xea, 0xd7, 0x87) && Line(0xeb, 0xe3, 0xe9)
    ensures Line(0xec, 0x5d, 0xce) && Line(0xed, 0x50, 0x55) && Line(0xee, 0x1e, 0x28) && Line(0xef, 0xb3, 0xdf)
  {
    EntriesE();
    hide Entry;
  }

  lemma EntriesF()
    ensures Entry(0xf0, 0x8c) && Entry(0xf1, 0xa1) && Entry(0xf2, 0x89) && Entry(0xf3, 0x0d)
    ensures Entry(0xf4, 0xbf) && Entry(0xf5, 0xe6) && Entry(0xf6, 0x42) && Entry(0xf7, 0x68)
    ensures Entry(0xf8, 0x41) && Entry(0xf9, 0x99) && Entry(0xfa, 0x2d) && Entry(0xfb, 0x0f)
    ensures Entry(0xfc, 0xb0) && Entry(0xfd, 0x54) && Entry(0xfe, 0xbb) && Entry(0xff, 0x16)
  {
    Sizes();
  }

  lemma RowF()
    ensures Line(0xf0, 0x5b, 0x8c) && Line(0xf1, 0x23, 0xa1) && Line(0xf2, 0x38, 0x89) && Line(0xf3, 0x34, 0x0d)
    ensures Line(0xf4, 0x68, 0xbf) && Line(0xf5, 0x46, 0xe6) && Line(0xf6, 0x03, 0x42) && Line(0xf7, 0x8c, 0x68)
    ensures Line(0xf8, 0xdd, 0x41) && Line(0xf9, 0x9c, 0x99) && Line(0xfa, 0x7d, 0x2d) && Line(0xfb, 0xa0, 0x0f)
    ensures Line(0xfc, 0xcd, 0xb0) && Line(0xfd, 0x1a, 0x54) && Line(0xfe, 0x41, 0xbb) && Line(0xff, 0x1c, 0x16)
  {
    EntriesF();
    hide Entry;
  }

  /** A row covers its sixteen bytes. */
  lemma Among(x: bv8, r: bv8)
    requires x >> 4 == r >> 4 && r & 0x0f == 0
    requires Holds(r) && Holds(r | 0x01) && Holds(r | 0x02) && Holds(r | 0x03)
    requires Holds(r | 0x04) && Holds(r | 0x05) && Holds(r | 0x06) && Holds(r | 0x07)
    requires Holds(r | 0x08) && Holds(r | 0x09) && Holds(r | 0x0a) && Holds(r | 0x0b)
    requires Holds(r | 0x0c) && Holds(r | 0x0d) && Holds(r | 0x0e) && Holds(r | 0x0f)
    ensures Holds(x)
  {
    hide *;
    LowDigit(x, r);
  }

  lemma LowDigit(x: bv8, r: bv8)
    requires x >> 4 == r >> 4 && r & 0x0f == 0
    ensures || x == r || x == r | 0x01 || x == r | 0x02 || x == r | 0x03
            || x == r | 0x04 || x == r | 0x05 || x == r | 0x06 || x == r | 0x07
            || x == r | 0x08 || x == r | 0x09 || x == r | 0x0a || x == r | 0x0b
            || x == r | 0x0c || x == r | 0x0d || x == r | 0x0e || x == r | 0x0f
  {
  }

  lemma Quarter0(x: bv8)
    requires 0x00 <= x <= 0x3f
    ensures Holds(x)
  {
    hide Line;
    if x >> 4 == 0x0 {
      Row0();
      Among(x, 0x00);
    }
    if x >> 4 == 0x1 {
      Row1();
      Among(x, 0x10);
    }
    if x >> 4 == 0x2 {
      Row2();
      Among(x, 0x20);
    }
    if x >> 4 == 0x3 {
      Row3();
      Among(x, 0x30);
    }
  }

  lemma Quarter1(x: bv8)
    requires 0x40 <= x <= 0x7f
    ensures Holds(x)
  {
    hide Line;
    if x >> 4 == 0x4 {
      Row4();
      Among(x, 0x40);
    }
    if x >> 4 == 0x5 {
      Row5();
      Among(x, 0x50);
    }
    if x >> 4 == 0x6 {
      Row6();
      Among(x, 0x60);
    }
    if x >> 4 == 0x7 {
      Row7();
      Among(x, 0x70);
    }
  }

  lemma Quarter2(x: bv8)
    requires 0x80 <= x <= 0xbf
    ensures Holds(x)
  {
    hide Line;
    if x >> 4 == 0x8 {
      Row8();
      Among(x, 0x80);
    }
    if x >> 4 == 0x9 {
      Row9();
      Among(x, 0x90);
    }
    if x >> 4 == 0xa {
      RowA();
      Among(x, 0xa0);
    }
    if x >> 4 == 0xb {
      RowB();
      Among(x, 0xb0);
    }
  }

  lemma Quarter3(x: bv8)
    requires 0xc0 <= x <= 0xff
    ensures Holds(x)
  {
    hide Line;
    if x >> 4 == 0xc {
      RowC();
      Among(x, 0xc0);
    }
    if x >> 4 == 0xd {
      RowD();
      Among(x, 0xd0);
    }
    if x >> 4 == 0xe {
      RowE();
      Among(x, 0xe0);
    }
    if x >> 4 == 0xf {
      RowF();
      Among(x, 0xf0);
    }
  }

  lemma EveryByteHolds(x: bv8)
    ensures Holds(x)
  {
    hide Holds;
    if x <= 0x3f {
      Quarter0(x);
    } else if x <= 0x7f {
      Quarter1(x);
    } else if x <= 0xbf {
      Quarter2(x);
    } else {
      Quarter3(x);
    }
  }

  lemma MeaningOfLine(x: bv8, t: bv8, y: bv8)
    requires Line(x, t, y)
    ensures StandardEntry(x)
  {
    hide Spelled, Mul, Affine, SBOX, INV_SBOX;
    ByteOfIndex(x);
    ByteOfIndex(y);
    SpelledIsMul(x, t);
    assert IsInverse(x, t);
  }

  /** Every entry of the table is the one the standard defines. */
  lemma SboxIsStandard(x: bv8)
    ensures StandardEntry(x)
  {
    hide Line;
    EveryByteHolds(x);
    var t, y :| Line(x, t, y);
    MeaningOfLine(x, t, y);
  }

  lemma EntryUndone(i: nat)
    requires i < 256
    ensures |SBOX| == 256 && |INV_SBOX| == 256 && SBOX[i] < 256 && INV_SBOX[SBOX[i]] == i
  {
    hide SBOX, INV_SBOX, Spelled, Affine;
    IndexOfByte(i);
    EveryByteHolds(ByteOf(i));
    var t, y :| Line(ByteOf(i), t, y);
  }

  /** The two tables undo each other, in both orders. */
  lemma TablesUndo()
    ensures Undoes(SBOX, INV_SBOX) && Undoes(INV_SBOX, SBOX)
  {
    hide SBOX, INV_SBOX;
    forall i | 0 <= i < 256 ensures |SBOX| == 256 && |INV_SBOX| == 256 && SBOX[i] < 256 && INV_SBOX[SBOX[i]] == i {
      EntryUndone(i);
    }
    EntryUndone(0);
    InverseIsTwoSided(SBOX, INV_SBOX);
  }

  /** On 256 values a left inverse is a right inverse, because distinct values cover everything. */
  lemma InverseIsTwoSided(t: seq<nat>, u: seq<nat>)
    requires |t| == 256 && |u| == 256
    requires forall i :: 0 <= i < 256 ==> t[i] < 256 && u[t[i]] == i
    ensures Undoes(t, u) && Undoes(u, t)
  {
    var shifted := seq(256, i requires 0 <= i < 256 => t[i] + 1);
    DistinctValuesCover(shifted, 256);
    forall y | 0 <= y < 256 ensures u[y] < 256 && t[u[y]] == y {
      assert y + 1 in shifted;
    }
  }
}
