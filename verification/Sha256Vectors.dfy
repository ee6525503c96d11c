/** The digest FIPS 180-2 gives as its first example (appendix B.1), as text. */
module Sha256Vectors {
  import opened Sha256
  import opened Sha256Machine

  // ----- blocks with words that are given

  function WordAt(b: Block, t: nat): bv32
    requires t < 16
  {
    WordOf(b[4 * t], b[4 * t + 1], b[4 * t + 2], b[4 * t + 3])
  }

  /** m holds these registers and the words of this block. */
  ghost predicate Loaded(r: Registers, b: Block, m: Machine) {
    && RegistersOf(m) == r
    && m.w0 == WordAt(b, 0) && m.w1 == WordAt(b, 1) && m.w2 == WordAt(b, 2) && m.w3 == WordAt(b, 3)
    && m.w4 == WordAt(b, 4) && m.w5 == WordAt(b, 5) && m.w6 == WordAt(b, 6) && m.w7 == WordAt(b, 7)
    && m.w8 == WordAt(b, 8) && m.w9 == WordAt(b, 9) && m.w10 == WordAt(b, 10) && m.w11 == WordAt(b, 11)
    && m.w12 == WordAt(b, 12) && m.w13 == WordAt(b, 13) && m.w14 == WordAt(b, 14) && m.w15 == WordAt(b, 15)
  }

  lemma LoadedSound(r: Registers, b: Block, m: Machine)
    requires Loaded(r, b, m)
    ensures At(AsState(r), b, 0, m)
  {
    forall t | 0 <= t < 16 ensures Schedule(b, t) == WordAt(b, t) {
      ScheduleWord(b, t);
    }
    hide WordOf, Schedule;
  }

  lemma Compressed(r: Registers, b: Block, start: Machine, middle: Machine)
    requires Loaded(r, b, start) && FirstHalf(start) == middle
    ensures Compress(AsState(r), b) == AsState(Sum(r, LastHalf(middle)))
  {
    hide *;
    LoadedSound(r, b, start);
    CompressLoaded(r, b, start, middle);
  }

  lemma ZeroWord()
    ensures WordOf(0, 0, 0, 0) == 0
  {
  }

  lemma ZeroWords(b: Block, from: nat, to: nat)
    requires from <= to <= 16 && forall i :: 4 * from <= i < 4 * to ==> b[i] == 0
    ensures forall t :: from <= t < to ==> WordAt(b, t) == 0
  {
    ZeroWord();
    hide WordOf;
    forall t | from <= t < to ensures WordAt(b, t) == 0 {
      assert b[4 * t] == 0 && b[4 * t + 1] == 0 && b[4 * t + 2] == 0 && b[4 * t + 3] == 0;
    }
  }

  /** A block that is zero but for its first four bytes and its last. */
  ghost predicate Ends(b: seq<bv8>, b0: bv8, b1: bv8, b2: bv8, b3: bv8, z: bv8) {
    && |b| == 64 && b[0] == b0 && b[1] == b1 && b[2] == b2 && b[3] == b3
    && (forall i :: 4 <= i < 63 ==> b[i] == 0) && b[63] == z
  }

  lemma LoadedEnds(r: Registers, b: Block, m: Machine, b0: bv8, b1: bv8, b2: bv8, b3: bv8, z: bv8)
    requires Ends(b, b0, b1, b2, b3, z)
    requires RegistersOf(m) == r && m.w0 == WordOf(b0, b1, b2, b3) && m.w15 == WordOf(0, 0, 0, z)
    requires m.w1 == 0 && m.w2 == 0 && m.w3 == 0 && m.w4 == 0 && m.w5 == 0 && m.w6 == 0 && m.w7 == 0
    requires m.w8 == 0 && m.w9 == 0 && m.w10 == 0 && m.w11 == 0 && m.w12 == 0 && m.w13 == 0 && m.w14 == 0
    ensures Loaded(r, b, m)
  {
    ZeroWords(b, 1, 15);
    assert WordAt(b, 0) == m.w0 && WordAt(b, 15) == m.w15;
    hide WordAt;
  }

  lemma HexOfEight(r: Registers)
    ensures Hex(AsState(r)) == HexWord(r.a) + HexWord(r.b) + HexWord(r.c) + HexWord(r.d)
                               + HexWord(r.e) + HexWord(r.f) + HexWord(r.g) + HexWord(r.h)
  {
    hide *;
    var s := AsState(r);
    WordsOfState(r);
    HexNone(s);
    HexNext(s, 0);
    HexNext(s, 1);
    HexNext(s, 2);
    HexNext(s, 3);
    HexNext(s, 4);
    HexNext(s, 5);
    HexNext(s, 6);
    HexNext(s, 7);
    assert "" + HexWord(r.a) == HexWord(r.a);
    assert s[..8] == s;
  }

  lemma WordsOfState(r: Registers)
    ensures var s := AsState(r);
            && |s| == 8 && s[0] == r.a && s[1] == r.b && s[2] == r.c && s[3] == r.d
            && s[4] == r.e && s[5] == r.f && s[6] == r.g && s[7] == r.h
  {
  }

  lemma HexNone(words: seq<bv32>)
    ensures Hex(words[..0]) == ""
  {
  }

  lemma HexNext(words: seq<bv32>, i: nat)
    requires i < |words|
    ensures Hex(words[..i + 1]) == Hex(words[..i]) + HexWord(words[i])
  {
    hide HexWord;
    assert words[..i + 1][..i] == words[..i];
  }

  /** A message of less than 56 bytes is one block. */
  lemma OneBlock(m: seq<bv8>)
    requires |m| <= 55
    ensures CodeHash(m) == StandardHash(m) == Compress(INITIAL, PaddedTail(m, 8 * |m|))
  {
    hide Compress, PaddedTail, StandardHash, CodeHash;
    ShortTailHash(m);
    LastBlock(m);
    assert Whole(|m|) == 0 && m[..0] == [] && m[0..] == m;
    var b := PaddedTail(m, 8 * |m|);
    assert b[..64] == b;
  }

  lemma SmallLengthBytes(bits: nat)
    requires bits < 256
    ensures LengthBytes(bits) == [0, 0, 0, 0, 0, 0, 0, ByteOf(bits)]
    ensures bits == 24 ==> ByteOf(bits) == 0x18
  {
    ByteValues();
    hide ByteOf;
    assert bits / 0x100_0000_0000_0000 == 0 && bits / 0x1_0000_0000_0000 == 0 && bits / 0x100_0000_0000 == 0;
    assert bits / 0x1_0000_0000 == 0 && bits / 0x100_0000 == 0 && bits / 0x1_0000 == 0 && bits / 0x100 == 0;
  }

  lemma ByteValues()
    ensures ByteOf(0) == 0 && ByteOf(24) == 0x18
  {
  }

  // ----- the three letters abc

  const S_ABC: Machine := Machine(
    0x6a09e667, 0xbb67ae85, 0x3c6ef372, 0xa54ff53a, 0x510e527f, 0x9b05688c, 0x1f83d9ab, 0x5be0cd19,
    0x61626380, 0x00000000, 0x00000000, 0x00000000, 0x00000000, 0x00000000, 0x00000000, 0x00000000,
    0x00000000, 0x00000000, 0x00000000, 0x00000000, 0x00000000, 0x00000000, 0x00000000, 0x00000018)

  const M_ABC: Machine := Machine(
    0x73b33bf5, 0xea992a22, 0xa0060b30, 0x363482c9, 0xba591112, 0x0109ab3a, 0xade79437, 0x6112a3b7,
    0x93f5997f, 0x3b68ba73, 0xaff4ffc1, 0xf10a5c62, 0x0a8b3996, 0x72af830a, 0x9409e33e, 0x24641522,
    0x9f47bf94, 0xf0a64f5a, 0x3e246a79, 0x27333ba3, 0x0c4763f2, 0x840abf27, 0x7a290d5d, 0x065c43da)

  const H_ABC: Registers := Registers(
    0xba7816bf, 0x8f01cfea, 0x414140de, 0x5dae2223, 0xb00361a3, 0x96177a9c, 0xb410ff61, 0xf20015ad)

  lemma StartAbc()
    ensures FirstHalf(S_ABC) == M_ABC
  {
  }

  lemma EndAbc()
    ensures Sum(INIT, LastHalf(M_ABC)) == H_ABC
  {
  }

  lemma TextAbcA()
    ensures HexWord(0xba7816bf) == "ba7816bf" && HexWord(0x8f01cfea) == "8f01cfea"
  {
  }

  lemma TextAbcB()
    ensures HexWord(0x414140de) == "414140de" && HexWord(0x5dae2223) == "5dae2223"
  {
  }

  lemma TextAbcC()
    ensures HexWord(0xb00361a3) == "b00361a3" && HexWord(0x96177a9c) == "96177a9c"
  {
  }

  lemma TextAbcD()
    ensures HexWord(0xb410ff61) == "b410ff61" && HexWord(0xf20015ad) == "f20015ad"
  {
  }

  lemma BytesAbc(m: seq<bv8>)
    requires m == [0x61, 0x62, 0x63]
    ensures Ends(PaddedTail(m, 24), 0x61, 0x62, 0x63, 0x80, 0x18)
  {
    SmallLengthBytes(24);
    hide LengthBytes;
  }

  lemma EndWordsAbc()
    ensures WordOf(0x61, 0x62, 0x63, 0x80) == 0x61626380 && WordOf(0, 0, 0, 0x18) == 24
  {
  }

  lemma StartAbcWords()
    ensures RegistersOf(S_ABC) == INIT && S_ABC.w0 == 0x61626380 && S_ABC.w15 == 24
    ensures S_ABC.w1 == S_ABC.w2 == S_ABC.w3 == S_ABC.w4 == S_ABC.w5 == S_ABC.w6 == S_ABC.w7 == 0
    ensures S_ABC.w8 == S_ABC.w9 == S_ABC.w10 == S_ABC.w11 == S_ABC.w12 == S_ABC.w13 == S_ABC.w14 == 0
  {
  }

  lemma LoadedAbc(b: Block)
    requires Ends(b, 0x61, 0x62, 0x63, 0x80, 0x18)
    ensures Loaded(INIT, b, S_ABC)
  {
    EndWordsAbc();
    StartAbcWords();
    hide WordOf, Loaded, S_ABC, INIT;
    LoadedEnds(INIT, b, S_ABC, 0x61, 0x62, 0x63, 0x80, 0x18);
  }

  lemma HashOfAbc(m: seq<bv8>)
    requires m == [0x61, 0x62, 0x63]
    ensures CodeHash(m) == StandardHash(m) == AsState(H_ABC)
  {
    hide *;
    InitialState();
    OneBlock(m);
    BytesAbc(m);
    EndsLength(PaddedTail(m, 24), 0x61, 0x62, 0x63, 0x80, 0x18);
    LoadedAbc(PaddedTail(m, 24));
    StartAbc();
    EndAbc();
    Compressed(INIT, PaddedTail(m, 24), S_ABC, M_ABC);
  }

  lemma EndsLength(b: seq<bv8>, b0: bv8, b1: bv8, b2: bv8, b3: bv8, z: bv8)
    requires Ends(b, b0, b1, b2, b3, z)
    ensures |b| == 64
  {
  }

  lemma TextOfAbc(h: HashState)
    requires h == AsState(H_ABC)
    ensures Hex(h) == "ba7816bf" + "8f01cfea" + "414140de" + "5dae2223"
                      + "b00361a3" + "96177a9c" + "b410ff61" + "f20015ad"
  {
    hide *;
    HexOfEight(H_ABC);
    FieldsAbc();
    TextAbcA();
    TextAbcB();
    TextAbcC();
    TextAbcD();
  }

  /** The example of appendix B.1: the letters abc. */
  lemma DigestOfAbc(m: seq<bv8>)
    requires m == [0x61, 0x62, 0x63]
    ensures CodeHash(m) == StandardHash(m)
    ensures Hex(CodeHash(m)) == "ba7816bf" + "8f01cfea" + "414140de" + "5dae2223"
                                + "b00361a3" + "96177a9c" + "b410ff61" + "f20015ad"
  {
    hide *;
    HashOfAbc(m);
    TextOfAbc(CodeHash(m));
  }

  lemma FieldsAbc()
    ensures H_ABC.a == 0xba7816bf && H_ABC.b == 0x8f01cfea && H_ABC.c == 0x414140de && H_ABC.d == 0x5dae2223
    ensures H_ABC.e == 0xb00361a3 && H_ABC.f == 0x96177a9c && H_ABC.g == 0xb410ff61 && H_ABC.h == 0xf20015ad
  {
  }
}
