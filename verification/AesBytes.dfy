/** Computing the key schedule and the cipher on blocks of sixteen named bytes. */
module AesBytes {
  import M = ModularArithmetic
  import opened Gf256
  import opened AesTables
  import opened Aes256
  import opened Aes256Class

  datatype Bytes16 = Bytes16(
    b0: bv8, b1: bv8, b2: bv8, b3: bv8, b4: bv8, b5: bv8, b6: bv8, b7: bv8,
    b8: bv8, b9: bv8, b10: bv8, b11: bv8, b12: bv8, b13: bv8, b14: bv8, b15: bv8)

  function AsBlock(k: Bytes16): Block {
    FirstEight(k) + LastEight(k)
  }

  function FirstEight(k: Bytes16): (s: seq<bv8>)
    ensures |s| == 8
  {
    [k.b0, k.b1, k.b2, k.b3, k.b4, k.b5, k.b6, k.b7]
  }

  function LastEight(k: Bytes16): (s: seq<bv8>)
    ensures |s| == 8
  {
    [k.b8, k.b9, k.b10, k.b11, k.b12, k.b13, k.b14, k.b15]
  }

  lemma FirstBytes(k: Bytes16)
    ensures FirstEight(k)[0] == k.b0 && FirstEight(k)[1] == k.b1 && FirstEight(k)[2] == k.b2 && FirstEight(k)[3] == k.b3
    ensures FirstEight(k)[4] == k.b4 && FirstEight(k)[5] == k.b5 && FirstEight(k)[6] == k.b6 && FirstEight(k)[7] == k.b7
  {
  }

  lemma LastBytes(k: Bytes16)
    ensures LastEight(k)[0] == k.b8 && LastEight(k)[1] == k.b9 && LastEight(k)[2] == k.b10 && LastEight(k)[3] == k.b11
    ensures LastEight(k)[4] == k.b12 && LastEight(k)[5] == k.b13 && LastEight(k)[6] == k.b14 && LastEight(k)[7] == k.b15
  {
  }

  lemma BytesOfBlock(k: Bytes16)
    ensures AsBlock(k)[0] == k.b0 && AsBlock(k)[1] == k.b1 && AsBlock(k)[2] == k.b2 && AsBlock(k)[3] == k.b3
    ensures AsBlock(k)[4] == k.b4 && AsBlock(k)[5] == k.b5 && AsBlock(k)[6] == k.b6 && AsBlock(k)[7] == k.b7
    ensures AsBlock(k)[8] == k.b8 && AsBlock(k)[9] == k.b9 && AsBlock(k)[10] == k.b10 && AsBlock(k)[11] == k.b11
    ensures AsBlock(k)[12] == k.b12 && AsBlock(k)[13] == k.b13 && AsBlock(k)[14] == k.b14 && AsBlock(k)[15] == k.b15
  {
    FirstBytes(k);
    LastBytes(k);
    hide FirstEight, LastEight;
  }

  lemma SameBytes(a: Block, b: Block)
    requires a[0] == b[0] && a[1] == b[1] && a[2] == b[2] && a[3] == b[3]
    requires a[4] == b[4] && a[5] == b[5] && a[6] == b[6] && a[7] == b[7]
    requires a[8] == b[8] && a[9] == b[9] && a[10] == b[10] && a[11] == b[11]
    requires a[12] == b[12] && a[13] == b[13] && a[14] == b[14] && a[15] == b[15]
    ensures a == b
  {
    forall i | 0 <= i < 16 ensures a[i] == b[i] {
      assert i in {0, 1, 2, 3, 4, 5, 6, 7, 8, 9, 10, 11, 12, 13, 14, 15};
    }
  }

  // ----- substitution

  /** The entry of x in the substitution table is y. */
  ghost predicate Maps(x: bv8, y: bv8) {
    exists t: bv8 :: Line(x, t, y)
  }

  lemma MapsLooksUp(x: bv8, y: bv8)
    requires Maps(x, y)
    ensures IsTable(SBOX) && LookUp(SBOX, x) == y
  {
    Tables();
    ByteOfIndex(y);
    hide SBOX, INV_SBOX, Spelled, Affine, Index, ByteOf;
  }

  ghost predicate Maps16(s: Bytes16, t: Bytes16) {
    && Maps(s.b0, t.b0) && Maps(s.b1, t.b1) && Maps(s.b2, t.b2) && Maps(s.b3, t.b3)
    && Maps(s.b4, t.b4) && Maps(s.b5, t.b5) && Maps(s.b6, t.b6) && Maps(s.b7, t.b7)
    && Maps(s.b8, t.b8) && Maps(s.b9, t.b9) && Maps(s.b10, t.b10) && Maps(s.b11, t.b11)
    && Maps(s.b12, t.b12) && Maps(s.b13, t.b13) && Maps(s.b14, t.b14) && Maps(s.b15, t.b15)
  }

  lemma MapsSubstitutes(s: Bytes16, t: Bytes16)
    requires Maps16(s, t)
    ensures IsTable(SBOX) && Substitute(SBOX, AsBlock(s)) == AsBlock(t)
  {
    Tables();
    hide *;
    Looked16(s, t);
    BytesOfBlock(s);
    BytesOfBlock(t);
    var a, b := AsBlock(s), AsBlock(t);
    SubstituteBytes(a);
    SameBytes(Substitute(SBOX, a), b);
  }

  lemma Looked16(s: Bytes16, t: Bytes16)
    requires Maps16(s, t)
    ensures IsTable(SBOX)
    ensures LookUp(SBOX, s.b0) == t.b0 && LookUp(SBOX, s.b1) == t.b1
    ensures LookUp(SBOX, s.b2) == t.b2 && LookUp(SBOX, s.b3) == t.b3
    ensures LookUp(SBOX, s.b4) == t.b4 && LookUp(SBOX, s.b5) == t.b5
    ensures LookUp(SBOX, s.b6) == t.b6 && LookUp(SBOX, s.b7) == t.b7
    ensures LookUp(SBOX, s.b8) == t.b8 && LookUp(SBOX, s.b9) == t.b9
    ensures LookUp(SBOX, s.b10) == t.b10 && LookUp(SBOX, s.b11) == t.b11
    ensures LookUp(SBOX, s.b12) == t.b12 && LookUp(SBOX, s.b13) == t.b13
    ensures LookUp(SBOX, s.b14) == t.b14 && LookUp(SBOX, s.b15) == t.b15
  {
    hide SBOX, Maps, LookUp;
    MapsLooksUp(s.b0, t.b0);
    MapsLooksUp(s.b1, t.b1);
    MapsLooksUp(s.b2, t.b2);
    MapsLooksUp(s.b3, t.b3);
    MapsLooksUp(s.b4, t.b4);
    MapsLooksUp(s.b5, t.b5);
    MapsLooksUp(s.b6, t.b6);
    MapsLooksUp(s.b7, t.b7);
    MapsLooksUp(s.b8, t.b8);
    MapsLooksUp(s.b9, t.b9);
    MapsLooksUp(s.b10, t.b10);
    MapsLooksUp(s.b11, t.b11);
    MapsLooksUp(s.b12, t.b12);
    MapsLooksUp(s.b13, t.b13);
    MapsLooksUp(s.b14, t.b14);
    MapsLooksUp(s.b15, t.b15);
  }

  lemma SubstituteBytes(s: Block)
    requires IsTable(SBOX)
    ensures Substitute(SBOX, s)[0] == LookUp(SBOX, s[0]) && Substitute(SBOX, s)[1] == LookUp(SBOX, s[1])
    ensures Substitute(SBOX, s)[2] == LookUp(SBOX, s[2]) && Substitute(SBOX, s)[3] == LookUp(SBOX, s[3])
    ensures Substitute(SBOX, s)[4] == LookUp(SBOX, s[4]) && Substitute(SBOX, s)[5] == LookUp(SBOX, s[5])
    ensures Substitute(SBOX, s)[6] == LookUp(SBOX, s[6]) && Substitute(SBOX, s)[7] == LookUp(SBOX, s[7])
    ensures Substitute(SBOX, s)[8] == LookUp(SBOX, s[8]) && Substitute(SBOX, s)[9] == LookUp(SBOX, s[9])
    ensures Substitute(SBOX, s)[10] == LookUp(SBOX, s[10]) && Substitute(SBOX, s)[11] == LookUp(SBOX, s[11])
    ensures Substitute(SBOX, s)[12] == LookUp(SBOX, s[12])
    ensures Substitute(SBOX, s)[13] == LookUp(SBOX, s[13])
    ensures Substitute(SBOX, s)[14] == LookUp(SBOX, s[14])
    ensures Substitute(SBOX, s)[15] == LookUp(SBOX, s[15])
  {
    hide SBOX, LookUp;
  }

  // ----- the schedule, sixteen bytes at a time

  /** k is round key r, word by word. */
  ghost predicate KeyBlock(key: seq<bv8>, r: nat, k: Bytes16)
    requires |key| == 32 && IsTable(SBOX)
  {
    && ExpandedWord(key, 4 * r) == [k.b0, k.b1, k.b2, k.b3]
    && ExpandedWord(key, 4 * r + 1) == [k.b4, k.b5, k.b6, k.b7]
    && ExpandedWord(key, 4 * r + 2) == [k.b8, k.b9, k.b10, k.b11]
    && ExpandedWord(key, 4 * r + 3) == [k.b12, k.b13, k.b14, k.b15]
  }

  /** Sixteen bytes further: the first word is added to t, each other to the new one before it. */
  function NextKey(a: Bytes16, t0: bv8, t1: bv8, t2: bv8, t3: bv8): Bytes16 {
    var c0, c1, c2, c3 := Add(a.b0, t0), Add(a.b1, t1), Add(a.b2, t2), Add(a.b3, t3);
    var c4, c5, c6, c7 := Add(a.b4, c0), Add(a.b5, c1), Add(a.b6, c2), Add(a.b7, c3);
    var c8, c9, c10, c11 := Add(a.b8, c4), Add(a.b9, c5), Add(a.b10, c6), Add(a.b11, c7);
    Bytes16(c0, c1, c2, c3, c4, c5, c6, c7, c8, c9, c10, c11,
            Add(a.b12, c8), Add(a.b13, c9), Add(a.b14, c10), Add(a.b15, c11))
  }

  lemma KeyStart(key: seq<bv8>, a: Bytes16, b: Bytes16)
    requires |key| == 32 && IsTable(SBOX) && key == AsBlock(a) + AsBlock(b)
    ensures KeyBlock(key, 0, a) && KeyBlock(key, 1, b)
  {
    BytesOfBlock(a);
    BytesOfBlock(b);
    var x, y := AsBlock(a), AsBlock(b);
    hide SBOX, AsBlock;
    forall i | 0 <= i < 4
      ensures ExpandedWord(key, i) == x[4 * i..4 * i + 4] && ExpandedWord(key, 4 + i) == y[4 * i..4 * i + 4]
    {
    }
    QuarterBytes(x);
    QuarterBytes(y);
    hide ExpandedWord;
    assert ExpandedWord(key, 0) == x[0..4] && ExpandedWord(key, 4) == y[0..4];
    assert ExpandedWord(key, 1) == x[4..8] && ExpandedWord(key, 5) == y[4..8];
    assert ExpandedWord(key, 2) == x[8..12] && ExpandedWord(key, 6) == y[8..12];
    assert ExpandedWord(key, 3) == x[12..16] && ExpandedWord(key, 7) == y[12..16];
  }

  lemma QuarterBytes(x: Block)
    ensures x[0..4] == [x[0], x[1], x[2], x[3]] && x[4..8] == [x[4], x[5], x[6], x[7]]
    ensures x[8..12] == [x[8], x[9], x[10], x[11]] && x[12..16] == [x[12], x[13], x[14], x[15]]
  {
  }

  lemma AddedWords(x0: bv8, x1: bv8, x2: bv8, x3: bv8, y0: bv8, y1: bv8, y2: bv8, y3: bv8)
    ensures AddWords([x0, x1, x2, x3], [y0, y1, y2, y3])
         == [Add(x0, y0), Add(x1, y1), Add(x2, y2), Add(x3, y3)]
  {
  }

  lemma NotEighth(r: nat, j: nat)
    requires 1 <= j <= 3
    ensures (4 * r + j) % 8 != 0 && (4 * r + j) % 8 != 4
  {
    var h := r / 2;
    if r == 2 * h {
      M.RemainderUnique(4 * r + j, 8, h, j);
    } else {
      M.RemainderUnique(4 * r + j, 8, h, 4 + j);
    }
  }

  lemma PlainWord(key: seq<bv8>, r: nat, j: nat)
    requires |key| == 32 && IsTable(SBOX) && r >= 2 && 1 <= j <= 3
    ensures ExpandedWord(key, 4 * r + j)
         == AddWords(ExpandedWord(key, 4 * r + j - 8), ExpandedWord(key, 4 * r + j - 1))
  {
    hide SBOX, ExpandedWord, AddWords, SubstituteWord, RotateWord, XPower, IsTable;
    Recurrence(key, 4 * r + j);
    NotEighth(r, j);
  }

  /** The words of the next round key, from the temporary word for the first of them. */
  lemma StepFrom(key: seq<bv8>, r: nat, a: Bytes16, t0: bv8, t1: bv8, t2: bv8, t3: bv8)
    requires |key| == 32 && IsTable(SBOX) && r >= 2 && KeyBlock(key, r - 2, a)
    requires ScheduleStep(ExpandedWord(key, 4 * r - 1), 4 * r) == [t0, t1, t2, t3]
    ensures KeyBlock(key, r, NextKey(a, t0, t1, t2, t3))
  {
    hide SBOX, ExpandedWord, ScheduleStep, AddWords, Add;
    var k := NextKey(a, t0, t1, t2, t3);
    Recurrence(key, 4 * r);
    PlainWord(key, r, 1);
    PlainWord(key, r, 2);
    PlainWord(key, r, 3);
    AddedWords(a.b0, a.b1, a.b2, a.b3, t0, t1, t2, t3);
    AddedWords(a.b4, a.b5, a.b6, a.b7, k.b0, k.b1, k.b2, k.b3);
    AddedWords(a.b8, a.b9, a.b10, a.b11, k.b4, k.b5, k.b6, k.b7);
    AddedWords(a.b12, a.b13, a.b14, a.b15, k.b8, k.b9, k.b10, k.b11);
  }

  lemma Looked4(b0: bv8, b1: bv8, b2: bv8, b3: bv8, s0: bv8, s1: bv8, s2: bv8, s3: bv8)
    requires Maps(b0, s0) && Maps(b1, s1) && Maps(b2, s2) && Maps(b3, s3)
    ensures IsTable(SBOX) && SubstituteWord([b0, b1, b2, b3]) == [s0, s1, s2, s3]
  {
    hide SBOX, Maps, LookUp;
    MapsLooksUp(b0, s0);
    MapsLooksUp(b1, s1);
    MapsLooksUp(b2, s2);
    MapsLooksUp(b3, s3);
  }

  /** The step to an even round key, with the substituted bytes of the rotated last word. */
  lemma RotatedStep(key: seq<bv8>, n: nat, a: Bytes16, b: Bytes16, s0: bv8, s1: bv8, s2: bv8, s3: bv8)
    requires |key| == 32 && IsTable(SBOX) && KeyBlock(key, 2 * n, a) && KeyBlock(key, 2 * n + 1, b)
    requires Maps(b.b13, s0) && Maps(b.b14, s1) && Maps(b.b15, s2) && Maps(b.b12, s3)
    ensures KeyBlock(key, 2 * n + 2, NextKey(a, Add(s0, XPower(n)), s1, s2, s3))
  {
    hide SBOX, ExpandedWord, XPower, SubstituteWord, Maps, NextKey, AddWords, Add;
    Looked4(b.b13, b.b14, b.b15, b.b12, s0, s1, s2, s3);
    var i := 8 * n + 8;
    assert i % 8 == 0 && i / 8 - 1 == n;
    var last := ExpandedWord(key, i - 1);
    assert last == [b.b12, b.b13, b.b14, b.b15];
    AddedWords(s0, s1, s2, s3, XPower(n), 0, 0, 0);
    AddZero(s1);
    AddZero(s2);
    AddZero(s3);
    assert ScheduleStep(last, i) == [Add(s0, XPower(n)), s1, s2, s3];
    hide KeyBlock, ScheduleStep;
    StepFrom(key, 2 * n + 2, a, Add(s0, XPower(n)), s1, s2, s3);
  }

  /** The step to an odd round key, with the substituted bytes of the last word. */
  lemma PlainStep(key: seq<bv8>, n: nat, a: Bytes16, b: Bytes16, s0: bv8, s1: bv8, s2: bv8, s3: bv8)
    requires |key| == 32 && IsTable(SBOX) && KeyBlock(key, 2 * n + 1, a) && KeyBlock(key, 2 * n + 2, b)
    requires Maps(b.b12, s0) && Maps(b.b13, s1) && Maps(b.b14, s2) && Maps(b.b15, s3)
    ensures KeyBlock(key, 2 * n + 3, NextKey(a, s0, s1, s2, s3))
  {
    hide SBOX, ExpandedWord, XPower, SubstituteWord, Maps, NextKey, AddWords;
    Looked4(b.b12, b.b13, b.b14, b.b15, s0, s1, s2, s3);
    var i := 8 * n + 12;
    assert i % 8 == 4;
    var last := ExpandedWord(key, i - 1);
    assert last == [b.b12, b.b13, b.b14, b.b15];
    assert ScheduleStep(last, i) == [s0, s1, s2, s3];
    hide KeyBlock, ScheduleStep;
    StepFrom(key, 2 * n + 3, a, s0, s1, s2, s3);
  }

  lemma Powers()
    ensures XPower(0) == 0x01 && XPower(1) == 0x02 && XPower(2) == 0x04 && XPower(3) == 0x08
    ensures XPower(4) == 0x10 && XPower(5) == 0x20 && XPower(6) == 0x40
  {
  }

  lemma KeyByte(key: seq<bv8>, i: nat)
    requires |key| == 32 && IsTable(SBOX) && i < 240
    ensures ExpandedKey(key)[i] == ExpandedWord(key, i / 4)[i % 4]
  {
    hide SBOX, ExpandedWord;
  }

  lemma KeyBytes(key: seq<bv8>, i: nat)
    requires |key| == 32 && IsTable(SBOX) && i < 60
    ensures var w, b := ExpandedKey(key), ExpandedWord(key, i);
            w[4 * i] == b[0] && w[4 * i + 1] == b[1] && w[4 * i + 2] == b[2] && w[4 * i + 3] == b[3]
  {
    hide SBOX, ExpandedWord, ExpandedKey;
    KeyByte(key, 4 * i);
    KeyByte(key, 4 * i + 1);
    KeyByte(key, 4 * i + 2);
    KeyByte(key, 4 * i + 3);
  }

  lemma RoundKeyBytes(w: seq<bv8>, r: nat)
    requires |w| == 240 && r <= 14
    ensures RoundKey(w, r)[0] == w[16 * r] && RoundKey(w, r)[1] == w[16 * r + 1]
    ensures RoundKey(w, r)[2] == w[16 * r + 2] && RoundKey(w, r)[3] == w[16 * r + 3]
    ensures RoundKey(w, r)[4] == w[16 * r + 4] && RoundKey(w, r)[5] == w[16 * r + 5]
    ensures RoundKey(w, r)[6] == w[16 * r + 6] && RoundKey(w, r)[7] == w[16 * r + 7]
    ensures RoundKey(w, r)[8] == w[16 * r + 8] && RoundKey(w, r)[9] == w[16 * r + 9]
    ensures RoundKey(w, r)[10] == w[16 * r + 10] && RoundKey(w, r)[11] == w[16 * r + 11]
    ensures RoundKey(w, r)[12] == w[16 * r + 12] && RoundKey(w, r)[13] == w[16 * r + 13]
    ensures RoundKey(w, r)[14] == w[16 * r + 14] && RoundKey(w, r)[15] == w[16 * r + 15]
  {
  }

  lemma RoundKeyIs(key: seq<bv8>, r: nat, k: Bytes16)
    requires |key| == 32 && IsTable(SBOX) && r <= 14 && KeyBlock(key, r, k)
    ensures RoundKey(ExpandedKey(key), r) == AsBlock(k)
  {
    hide SBOX, ExpandedWord, ExpandedKey, RoundKey, AsBlock;
    KeyBytes(key, 4 * r);
    KeyBytes(key, 4 * r + 1);
    KeyBytes(key, 4 * r + 2);
    KeyBytes(key, 4 * r + 3);
    RoundKeyBytes(ExpandedKey(key), r);
    BytesOfBlock(k);
    SameBytes(RoundKey(ExpandedKey(key), r), AsBlock(k));
  }

  // ----- a round on substituted bytes

  lemma TimesTwoAndThree(x: bv8)
    ensures Mul(0x02, x) == Xtime(x) && Mul(0x03, x) == Xtime(x) ^ x
  {
    TwoAndThree();
    hide Xtime, MulLow;
    MulXtime(1, x, 8);
    OneAndZeroTimes(x);
    MulDistributesLeft(Xtime(1), 1, x);
  }

  lemma TwoAndThree()
    ensures Xtime(1) == 0x02 && Add(Xtime(1), 1) == 0x03
  {
  }

  /** A column times the first polynomial, with doubling in place of products. */
  function Mixed(s0: bv8, s1: bv8, s2: bv8, s3: bv8): WordBytes {
    [Sum(Xtime(s0), Xtime(s1) ^ s1, s2, s3), Sum(s0, Xtime(s1), Xtime(s2) ^ s2, s3),
     Sum(s0, s1, Xtime(s2), Xtime(s3) ^ s3), Sum(Xtime(s0) ^ s0, s1, s2, Xtime(s3))]
  }

  lemma MixedIsTimes(s0: bv8, s1: bv8, s2: bv8, s3: bv8)
    ensures TimesColumn(MIX, [s0, s1, s2, s3]) == Mixed(s0, s1, s2, s3)
  {
    hide Mul, Xtime, Sum, TimesColumn, MIX;
    MixByCode([s0, s1, s2, s3], s0, s1, s2, s3);
    TimesTwoAndThree(s0);
    TimesTwoAndThree(s1);
    TimesTwoAndThree(s2);
    TimesTwoAndThree(s3);
  }

  lemma MixOfColumns(s: Block, c: nat)
    requires c < 4
    ensures var m, t := MixWith(MIX, s), Mixed(s[4 * c], s[4 * c + 1], s[4 * c + 2], s[4 * c + 3]);
            m[4 * c] == t[0] && m[4 * c + 1] == t[1] && m[4 * c + 2] == t[2] && m[4 * c + 3] == t[3]
  {
    hide MixEntry, TimesColumn, Mixed, MIX;
    assert s[4 * c..4 * c + 4] == [s[4 * c], s[4 * c + 1], s[4 * c + 2], s[4 * c + 3]];
    ColumnEntries(MIX, s, c);
    MixedIsTimes(s[4 * c], s[4 * c + 1], s[4 * c + 2], s[4 * c + 3]);
  }

  function Shifted(s: Bytes16): Bytes16 {
    Bytes16(s.b0, s.b5, s.b10, s.b15, s.b4, s.b9, s.b14, s.b3, s.b8, s.b13, s.b2, s.b7, s.b12, s.b1, s.b6, s.b11)
  }

  lemma ShiftedBytes(s: Block)
    ensures var t := ShiftRows(s);
            && t[0] == s[0] && t[1] == s[5] && t[2] == s[10] && t[3] == s[15]
            && t[4] == s[4] && t[5] == s[9] && t[6] == s[14] && t[7] == s[3]
            && t[8] == s[8] && t[9] == s[13] && t[10] == s[2] && t[11] == s[7]
            && t[12] == s[12] && t[13] == s[1] && t[14] == s[6] && t[15] == s[11]
  {
    LeftSources();
    hide LeftSource;
  }

  lemma ShiftedIs(s: Bytes16)
    ensures ShiftRows(AsBlock(s)) == AsBlock(Shifted(s))
  {
    hide ShiftRows, AsBlock;
    ShiftedBytes(AsBlock(s));
    BytesOfBlock(s);
    BytesOfBlock(Shifted(s));
    SameBytes(ShiftRows(AsBlock(s)), AsBlock(Shifted(s)));
  }

  function MixedAll(s: Bytes16): Bytes16 {
    var p, q := Mixed(s.b0, s.b1, s.b2, s.b3), Mixed(s.b4, s.b5, s.b6, s.b7);
    var r, t := Mixed(s.b8, s.b9, s.b10, s.b11), Mixed(s.b12, s.b13, s.b14, s.b15);
    Bytes16(p[0], p[1], p[2], p[3], q[0], q[1], q[2], q[3], r[0], r[1], r[2], r[3], t[0], t[1], t[2], t[3])
  }

  lemma MixedAllIs(s: Bytes16)
    ensures MixWith(MIX, AsBlock(s)) == AsBlock(MixedAll(s))
  {
    hide Mixed, MixWith, MIX, AsBlock;
    MixOfColumns(AsBlock(s), 0);
    MixOfColumns(AsBlock(s), 1);
    MixOfColumns(AsBlock(s), 2);
    MixOfColumns(AsBlock(s), 3);
    BytesOfBlock(s);
    BytesOfBlock(MixedAll(s));
    SameBytes(MixWith(MIX, AsBlock(s)), AsBlock(MixedAll(s)));
  }

  function Added(s: Bytes16, k: Bytes16): Bytes16 {
    Bytes16(Add(s.b0, k.b0), Add(s.b1, k.b1), Add(s.b2, k.b2), Add(s.b3, k.b3),
            Add(s.b4, k.b4), Add(s.b5, k.b5), Add(s.b6, k.b6), Add(s.b7, k.b7),
            Add(s.b8, k.b8), Add(s.b9, k.b9), Add(s.b10, k.b10), Add(s.b11, k.b11),
            Add(s.b12, k.b12), Add(s.b13, k.b13), Add(s.b14, k.b14), Add(s.b15, k.b15))
  }

  lemma AddedBytes(s: Block, k: Block)
    ensures AddKey(s, k)[0] == Add(s[0], k[0]) && AddKey(s, k)[1] == Add(s[1], k[1])
    ensures AddKey(s, k)[2] == Add(s[2], k[2]) && AddKey(s, k)[3] == Add(s[3], k[3])
    ensures AddKey(s, k)[4] == Add(s[4], k[4]) && AddKey(s, k)[5] == Add(s[5], k[5])
    ensures AddKey(s, k)[6] == Add(s[6], k[6]) && AddKey(s, k)[7] == Add(s[7], k[7])
    ensures AddKey(s, k)[8] == Add(s[8], k[8]) && AddKey(s, k)[9] == Add(s[9], k[9])
    ensures AddKey(s, k)[10] == Add(s[10], k[10]) && AddKey(s, k)[11] == Add(s[11], k[11])
    ensures AddKey(s, k)[12] == Add(s[12], k[12]) && AddKey(s, k)[13] == Add(s[13], k[13])
    ensures AddKey(s, k)[14] == Add(s[14], k[14]) && AddKey(s, k)[15] == Add(s[15], k[15])
  {
    hide Add;
  }

  lemma AddedIs(s: Bytes16, k: Bytes16)
    ensures AddKey(AsBlock(s), AsBlock(k)) == AsBlock(Added(s, k))
  {
    hide AddKey, AsBlock, Add;
    AddedBytes(AsBlock(s), AsBlock(k));
    BytesOfBlock(s);
    BytesOfBlock(k);
    BytesOfBlock(Added(s, k));
    SameBytes(AddKey(AsBlock(s), AsBlock(k)), AsBlock(Added(s, k)));
  }

  /** What a full round makes of substituted bytes. */
  function Tick(s: Bytes16, k: Bytes16): Bytes16 {
    Added(MixedAll(Shifted(s)), k)
  }

  lemma TickSound(w: seq<bv8>, p: Block, round: nat, before: Bytes16, s: Bytes16, k: Bytes16)
    requires |w| == 240 && 1 <= round <= 13 && IsTable(SBOX)
    requires Forward(w, p, round - 1) == AsBlock(before) && Maps16(before, s) && RoundKey(w, round) == AsBlock(k)
    ensures Forward(w, p, round) == AsBlock(Tick(s, k))
  {
    MapsSubstitutes(before, s);
    hide SBOX, MIX, Substitute, ShiftRows, MixWith, AddKey, RoundKey, Shifted, MixedAll, Added, AsBlock, Maps16;
    ShiftedIs(s);
    MixedAllIs(Shifted(s));
    AddedIs(MixedAll(Shifted(s)), k);
  }

  lemma LastSound(w: seq<bv8>, p: Block, before: Bytes16, s: Bytes16, k: Bytes16)
    requires |w| == 240 && IsTable(SBOX)
    requires Forward(w, p, 13) == AsBlock(before) && Maps16(before, s) && RoundKey(w, 14) == AsBlock(k)
    ensures Cipher(w, p) == AsBlock(Added(Shifted(s), k))
  {
    MapsSubstitutes(before, s);
    hide SBOX, Forward, Substitute, ShiftRows, AddKey, RoundKey, Shifted, Added, AsBlock, Maps16;
    ShiftedIs(s);
    AddedIs(Shifted(s), k);
  }
}
