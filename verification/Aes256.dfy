/** aes256.cpp: the block cipher, its inverse and the key schedule (sections 5.1 to 5.3 of FIPS 197). */
module Aes256 {
  import opened Gf256
  import opened AesTables

  /** Sixteen bytes, the state in column order: row r of column c is byte r + 4c. */
  type Block = s: seq<bv8> | |s| == 16 witness seq(16, i => 0)

  type WordBytes = w: seq<bv8> | |w| == 4 witness [0, 0, 0, 0]

  // ----- the transformations of section 5.1 and 5.3, on values

  function LookUp(t: seq<nat>, x: bv8): bv8
    requires IsTable(t)
  {
    ByteOf(t[Index(x)])
  }

  ghost function Substitute(t: seq<nat>, s: Block): Block
    requires IsTable(t)
  {
    seq(16, i requires 0 <= i < 16 => LookUp(t, s[i]))
  }

  /** Where byte i of the shifted state comes from: row r moves left by r places. */
  function LeftSource(i: nat): (j: nat)
    requires i < 16
    ensures j < 16
  {
    i % 4 + 4 * ((i / 4 + i % 4) % 4)
  }

  /** Row r moves right by r places. */
  function RightSource(i: nat): (j: nat)
    requires i < 16
    ensures j < 16
  {
    i % 4 + 4 * ((i / 4 + 4 - i % 4) % 4)
  }

  ghost function ShiftRows(s: Block): Block {
    seq(16, i requires 0 <= i < 16 => s[LeftSource(i)])
  }

  ghost function InvShiftRows(s: Block): Block {
    seq(16, i requires 0 <= i < 16 => s[RightSource(i)])
  }

  ghost function AddKey(s: Block, k: Block): Block {
    seq(16, i requires 0 <= i < 16 => Add(s[i], k[i]))
  }

  /** A row of coefficients times a column. */
  function RowTimes(a: WordBytes, s: WordBytes): bv8 {
    Add(Add(Mul(a[0], s[0]), Mul(a[1], s[1])), Add(Mul(a[2], s[2]), Mul(a[3], s[3])))
  }

  /** Row r of the circulant matrix of the polynomial m, section 4.3: its entry in column j is m[(r - j) mod 4]. */
  function CirculantRow(m: WordBytes, r: nat): WordBytes
    requires r < 4
  {
    [m[r], m[(r + 3) % 4], m[(r + 2) % 4], m[(r + 1) % 4]]
  }

  function Column(s: Block, c: nat): WordBytes
    requires c < 4
  {
    s[4 * c..4 * c + 4]
  }

  /** Every column times the polynomial m modulo x^4 + 1. */
  ghost function MixWith(m: WordBytes, s: Block): Block {
    seq(16, i requires 0 <= i < 16 => MixEntry(m, s, i))
  }

  function MixEntry(m: WordBytes, s: Block, i: nat): bv8
    requires i < 16
  {
    RowTimes(CirculantRow(m, i % 4), Column(s, i / 4))
  }

  const MIX: WordBytes := [0x02, 0x01, 0x01, 0x03]

  const INV_MIX: WordBytes := [0x0e, 0x09, 0x0d, 0x0b]

  // ----- each transformation has its inverse

  lemma SourcesUndo(i: nat)
    requires i < 16
    ensures LeftSource(RightSource(i)) == i && RightSource(LeftSource(i)) == i
  {
    hide *;
    var r, c := i % 4, i / 4;
    SourceOf(r, c);
    SourceOf(r, (c + r) % 4);
    SourceOf(r, (c + 4 - r) % 4);
    Rotations(r, c);
    assert i == r + 4 * c;
  }

  lemma Rotations(r: nat, c: nat)
    requires r < 4 && c < 4
    ensures ((c + r) % 4 + 4 - r) % 4 == c && ((c + 4 - r) % 4 + r) % 4 == c
  {
  }

  lemma SourceOf(r: nat, c: nat)
    requires r < 4 && c < 4
    ensures LeftSource(r + 4 * c) == r + 4 * ((c + r) % 4)
    ensures RightSource(r + 4 * c) == r + 4 * ((c + 4 - r) % 4)
  {
    RowAndColumn(r, c);
  }

  lemma RowAndColumn(r: nat, c: nat)
    requires r < 4 && c < 4
    ensures (r + 4 * c) % 4 == r && (r + 4 * c) / 4 == c
  {
  }

  lemma ShiftRowsInverse(s: Block)
    ensures InvShiftRows(ShiftRows(s)) == s && ShiftRows(InvShiftRows(s)) == s
  {
    forall i | 0 <= i < 16 ensures LeftSource(RightSource(i)) == i && RightSource(LeftSource(i)) == i {
      SourcesUndo(i);
    }
    hide LeftSource, RightSource;
    assert InvShiftRows(ShiftRows(s)) == s;
    assert ShiftRows(InvShiftRows(s)) == s;
  }

  lemma AddKeyInverse(s: Block, k: Block)
    ensures AddKey(AddKey(s, k), k) == s
  {
    forall i | 0 <= i < 16 ensures Add(Add(s[i], k[i]), k[i]) == s[i] {
      AddCancel(s[i], k[i]);
    }
    hide Add;
    assert AddKey(AddKey(s, k), k) == s;
  }

  lemma AddCancel(x: bv8, y: bv8)
    ensures Add(Add(x, y), y) == x
  {
    hide *;
    AddAssociative(x, y, y);
    AddSelf(y);
    AddZero(x);
  }

  lemma LookUpInverse(t: seq<nat>, u: seq<nat>, x: bv8)
    requires Undoes(t, u)
    ensures LookUp(u, LookUp(t, x)) == x
  {
    hide ByteOf, Index;
    var i := Index(x);
    ByteOfIndex(x);
    IndexOfByte(t[i]);
    assert u[t[i]] == i;
  }

  lemma SubstituteInverse(t: seq<nat>, u: seq<nat>, s: Block)
    requires Undoes(t, u)
    ensures Substitute(u, Substitute(t, s)) == s
  {
    hide LookUp;
    forall i | 0 <= i < 16 ensures LookUp(u, LookUp(t, s[i])) == s[i] {
      LookUpInverse(t, u, s[i]);
    }
    assert Substitute(u, Substitute(t, s)) == s;
  }

  // ----- mixing columns and unmixing them

  /** Entry k of a row of coefficients times a circulant matrix. */
  function RowTimesMatrix(a: WordBytes, m: WordBytes): WordBytes {
    [RowTimes(a, [m[0], m[1], m[2], m[3]]), RowTimes(a, [m[3], m[0], m[1], m[2]]),
     RowTimes(a, [m[2], m[3], m[0], m[1]]), RowTimes(a, [m[1], m[2], m[3], m[0]])]
  }

  function TimesColumn(m: WordBytes, s: WordBytes): WordBytes {
    [RowTimes(CirculantRow(m, 0), s), RowTimes(CirculantRow(m, 1), s),
     RowTimes(CirculantRow(m, 2), s), RowTimes(CirculantRow(m, 3), s)]
  }

  /** One product inside a sum of sums: a * (m0 s0 + m1 s1 + m2 s2 + m3 s3). */
  lemma SpreadProduct(a: bv8, m: WordBytes, s: WordBytes)
    ensures Mul(a, RowTimes(m, s)) == RowTimes([Mul(a, m[0]), Mul(a, m[1]), Mul(a, m[2]), Mul(a, m[3])], s)
  {
    hide Add, Mul;
    var x, y := Add(Mul(m[0], s[0]), Mul(m[1], s[1])), Add(Mul(m[2], s[2]), Mul(m[3], s[3]));
    MulDistributesRight(a, x, y);
    MulDistributesRight(a, Mul(m[0], s[0]), Mul(m[1], s[1]));
    MulDistributesRight(a, Mul(m[2], s[2]), Mul(m[3], s[3]));
    MulAssociative(a, m[0], s[0]);
    MulAssociative(a, m[1], s[1]);
    MulAssociative(a, m[2], s[2]);
    MulAssociative(a, m[3], s[3]);
  }

  lemma SumRows(a: WordBytes, b: WordBytes, s: WordBytes)
    ensures Add(RowTimes(a, s), RowTimes(b, s))
         == RowTimes([Add(a[0], b[0]), Add(a[1], b[1]), Add(a[2], b[2]), Add(a[3], b[3])], s)
  {
    hide Add, Mul;
    MulDistributesLeft(a[0], b[0], s[0]);
    MulDistributesLeft(a[1], b[1], s[1]);
    MulDistributesLeft(a[2], b[2], s[2]);
    MulDistributesLeft(a[3], b[3], s[3]);
    var p0, p1, p2, p3 := Mul(a[0], s[0]), Mul(a[1], s[1]), Mul(a[2], s[2]), Mul(a[3], s[3]);
    var q0, q1, q2, q3 := Mul(b[0], s[0]), Mul(b[1], s[1]), Mul(b[2], s[2]), Mul(b[3], s[3]);
    AddInterchange(Add(p0, p1), Add(p2, p3), Add(q0, q1), Add(q2, q3));
    AddInterchange(p0, p1, q0, q1);
    AddInterchange(p2, p3, q2, q3);
  }

  function ScaledRow(a: bv8, m: WordBytes): WordBytes {
    [Mul(a, m[0]), Mul(a, m[1]), Mul(a, m[2]), Mul(a, m[3])]
  }

  function AddedRows(a: WordBytes, b: WordBytes): WordBytes {
    [Add(a[0], b[0]), Add(a[1], b[1]), Add(a[2], b[2]), Add(a[3], b[3])]
  }

  lemma SpreadScaled(a: bv8, m: WordBytes, s: WordBytes)
    ensures Mul(a, RowTimes(m, s)) == RowTimes(ScaledRow(a, m), s)
  {
    hide Add, Mul, RowTimes;
    SpreadProduct(a, m, s);
  }

  lemma SumAddedRows(a: WordBytes, b: WordBytes, s: WordBytes)
    ensures Add(RowTimes(a, s), RowTimes(b, s)) == RowTimes(AddedRows(a, b), s)
  {
    hide Add, Mul, RowTimes;
    SumRows(a, b, s);
  }

  lemma RowOfFour(a: WordBytes, t: WordBytes)
    ensures RowTimes(a, t) == Add(Add(Mul(a[0], t[0]), Mul(a[1], t[1])), Add(Mul(a[2], t[2]), Mul(a[3], t[3])))
  {
  }

  lemma MatrixAsRows(a: WordBytes, m: WordBytes)
    ensures RowTimesMatrix(a, m)
         == AddedRows(AddedRows(ScaledRow(a[0], CirculantRow(m, 0)), ScaledRow(a[1], CirculantRow(m, 1))),
                      AddedRows(ScaledRow(a[2], CirculantRow(m, 2)), ScaledRow(a[3], CirculantRow(m, 3))))
  {
    hide Add, Mul;
  }

  /** A row times (a matrix times a column) is (the row times the matrix) times the column. */
  lemma RowThroughMatrix(a: WordBytes, m: WordBytes, s: WordBytes)
    ensures RowTimes(a, TimesColumn(m, s)) == RowTimes(RowTimesMatrix(a, m), s)
  {
    var r0, r1, r2, r3 := CirculantRow(m, 0), CirculantRow(m, 1), CirculantRow(m, 2), CirculantRow(m, 3);
    var v0, v1, v2, v3 := ScaledRow(a[0], r0), ScaledRow(a[1], r1), ScaledRow(a[2], r2), ScaledRow(a[3], r3);
    hide Add, Mul, RowTimes, CirculantRow, RowTimesMatrix, AddedRows, ScaledRow;
    SpreadScaled(a[0], r0, s);
    SpreadScaled(a[1], r1, s);
    SpreadScaled(a[2], r2, s);
    SpreadScaled(a[3], r3, s);
    SumAddedRows(v0, v1, s);
    SumAddedRows(v2, v3, s);
    SumAddedRows(AddedRows(v0, v1), AddedRows(v2, v3), s);
    RowOfFour(a, TimesColumn(m, s));
    MatrixAsRows(a, m);
  }

  ghost predicate InverseColumns(n: WordBytes, m: WordBytes) {
    && RowTimesMatrix(CirculantRow(n, 0), m) == [1, 0, 0, 0]
    && RowTimesMatrix(CirculantRow(n, 1), m) == [0, 1, 0, 0]
    && RowTimesMatrix(CirculantRow(n, 2), m) == [0, 0, 1, 0]
    && RowTimesMatrix(CirculantRow(n, 3), m) == [0, 0, 0, 1]
  }

  lemma OneAndZeroTimes(x: bv8)
    ensures Mul(1, x) == x && Mul(0, x) == 0
  {
    hide MulLow;
    MulCommutative(1, x);
    MulByOne(x);
    MulOfZero(x, 8);
  }

  lemma UnitRow(s: WordBytes)
    ensures RowTimes([1, 0, 0, 0], s) == s[0] && RowTimes([0, 1, 0, 0], s) == s[1]
    ensures RowTimes([0, 0, 1, 0], s) == s[2] && RowTimes([0, 0, 0, 1], s) == s[3]
  {
    hide Mul, Add;
    OneAndZeroTimes(s[0]);
    OneAndZeroTimes(s[1]);
    OneAndZeroTimes(s[2]);
    OneAndZeroTimes(s[3]);
    AddZero(s[0]);
    AddZero(s[1]);
    AddZero(s[2]);
    AddZero(s[3]);
    AddZero(0);
  }

  lemma ColumnInverse(n: WordBytes, m: WordBytes, s: WordBytes)
    requires InverseColumns(n, m)
    ensures TimesColumn(n, TimesColumn(m, s)) == s
  {
    hide Mul, Add, RowTimes, RowTimesMatrix, CirculantRow;
    var t := TimesColumn(m, s);
    RowThroughMatrix(CirculantRow(n, 0), m, s);
    RowThroughMatrix(CirculantRow(n, 1), m, s);
    RowThroughMatrix(CirculantRow(n, 2), m, s);
    RowThroughMatrix(CirculantRow(n, 3), m, s);
    UnitRow(s);
  }

  lemma MixedColumn(m: WordBytes, s: Block, c: nat)
    requires c < 4
    ensures Column(MixWith(m, s), c) == TimesColumn(m, Column(s, c))
  {
    hide RowTimes, CirculantRow, Column, MixWith;
    var t := MixWith(m, s);
    MixedByte(m, s, 0, c);
    MixedByte(m, s, 1, c);
    MixedByte(m, s, 2, c);
    MixedByte(m, s, 3, c);
    FourBytes(t, c);
  }

  lemma MixedByte(m: WordBytes, s: Block, r: nat, c: nat)
    requires r < 4 && c < 4
    ensures MixWith(m, s)[r + 4 * c] == RowTimes(CirculantRow(m, r), Column(s, c))
  {
    hide RowTimes, CirculantRow, Column, MixEntry;
    MixEntryAt(m, s, r, c);
  }

  lemma FourBytes(s: Block, c: nat)
    requires c < 4
    ensures Column(s, c) == [s[4 * c], s[1 + 4 * c], s[2 + 4 * c], s[3 + 4 * c]]
  {
  }

  lemma MixEntryAt(m: WordBytes, s: Block, r: nat, c: nat)
    requires r < 4 && c < 4
    ensures MixEntry(m, s, r + 4 * c) == RowTimes(CirculantRow(m, r), Column(s, c))
  {
    RowAndColumn(r, c);
    hide RowTimes, CirculantRow, Column;
  }

  lemma MixInverse(n: WordBytes, m: WordBytes, s: Block)
    requires InverseColumns(n, m)
    ensures MixWith(n, MixWith(m, s)) == s
  {
    hide InverseColumns, TimesColumn, MixWith;
    var t := MixWith(n, MixWith(m, s));
    forall c: nat | c < 4 ensures Column(t, c) == Column(s, c) {
      MixedColumn(m, s, c);
      MixedColumn(n, MixWith(m, s), c);
      ColumnInverse(n, m, Column(s, c));
    }
    forall i | 0 <= i < 16 ensures t[i] == s[i] {
      assert Column(t, i / 4)[i % 4] == t[i] && Column(s, i / 4)[i % 4] == s[i];
    }
  }

  lemma SmallProducts()
    ensures Mul(0x0e, 0x02) == 0x1c && Mul(0x0e, 0x01) == 0x0e && Mul(0x0e, 0x03) == 0x12
    ensures Mul(0x09, 0x02) == 0x12 && Mul(0x09, 0x01) == 0x09 && Mul(0x09, 0x03) == 0x1b
    ensures Mul(0x0d, 0x02) == 0x1a && Mul(0x0d, 0x01) == 0x0d && Mul(0x0d, 0x03) == 0x17
    ensures Mul(0x0b, 0x02) == 0x16 && Mul(0x0b, 0x01) == 0x0b && Mul(0x0b, 0x03) == 0x1d
  {
    hide Mul;
    SpelledIsMul(0x0e, 0x02); SpelledIsMul(0x0e, 0x01); SpelledIsMul(0x0e, 0x03);
    SpelledIsMul(0x09, 0x02); SpelledIsMul(0x09, 0x01); SpelledIsMul(0x09, 0x03);
    SpelledIsMul(0x0d, 0x02); SpelledIsMul(0x0d, 0x01); SpelledIsMul(0x0d, 0x03);
    SpelledIsMul(0x0b, 0x02); SpelledIsMul(0x0b, 0x01); SpelledIsMul(0x0b, 0x03);
  }

  lemma SmallProductsSwapped()
    ensures Mul(0x02, 0x0e) == 0x1c && Mul(0x01, 0x0e) == 0x0e && Mul(0x03, 0x0e) == 0x12
    ensures Mul(0x02, 0x09) == 0x12 && Mul(0x01, 0x09) == 0x09 && Mul(0x03, 0x09) == 0x1b
    ensures Mul(0x02, 0x0d) == 0x1a && Mul(0x01, 0x0d) == 0x0d && Mul(0x03, 0x0d) == 0x17
    ensures Mul(0x02, 0x0b) == 0x16 && Mul(0x01, 0x0b) == 0x0b && Mul(0x03, 0x0b) == 0x1d
  {
    hide Mul;
    SmallProducts();
    MulCommutative(0x0e, 0x02); MulCommutative(0x0e, 0x01); MulCommutative(0x0e, 0x03);
    MulCommutative(0x09, 0x02); MulCommutative(0x09, 0x01); MulCommutative(0x09, 0x03);
    MulCommutative(0x0d, 0x02); MulCommutative(0x0d, 0x01); MulCommutative(0x0d, 0x03);
    MulCommutative(0x0b, 0x02); MulCommutative(0x0b, 0x01); MulCommutative(0x0b, 0x03);
  }

  /** The two column polynomials of the code are inverses modulo x^4 + 1, in both orders. */
  lemma MixPolynomialsInverse()
    ensures InverseColumns(INV_MIX, MIX) && InverseColumns(MIX, INV_MIX)
  {
    hide Mul;
    SmallProducts();
    SmallProductsSwapped();
  }

  // ----- the rounds

  ghost function RoundKey(w: seq<bv8>, round: nat): Block
    requires |w| == 240 && round <= 14
  {
    w[16 * round..16 * round + 16]
  }

  /** The state of encryption after the given number of full rounds. */
  ghost function Forward(w: seq<bv8>, s: Block, rounds: nat): Block
    requires |w| == 240 && rounds <= 13 && IsTable(SBOX)
    decreases rounds
  {
    if rounds == 0 then AddKey(s, RoundKey(w, 0))
    else AddKey(MixWith(MIX, ShiftRows(Substitute(SBOX, Forward(w, s, rounds - 1)))), RoundKey(w, rounds))
  }

  /** Encryption of a block, section 5.1. */
  ghost function Cipher(w: seq<bv8>, s: Block): Block
    requires |w| == 240 && IsTable(SBOX)
  {
    AddKey(ShiftRows(Substitute(SBOX, Forward(w, s, 13))), RoundKey(w, 14))
  }

  /** The state of decryption before it undoes round number `round`; 14 is where it starts. */
  ghost function Backward(w: seq<bv8>, s: Block, round: nat): Block
    requires |w| == 240 && 1 <= round <= 14 && IsTable(INV_SBOX)
    decreases 14 - round
  {
    if round == 14 then AddKey(s, RoundKey(w, 14))
    else MixWith(INV_MIX, AddKey(Substitute(INV_SBOX, InvShiftRows(Backward(w, s, round + 1))), RoundKey(w, round)))
  }

  /** Decryption of a block, section 5.3. */
  ghost function InvCipher(w: seq<bv8>, s: Block): Block
    requires |w| == 240 && IsTable(INV_SBOX)
  {
    AddKey(Substitute(INV_SBOX, InvShiftRows(Backward(w, s, 1))), RoundKey(w, 0))
  }

  lemma Tables()
    ensures IsTable(SBOX) && IsTable(INV_SBOX)
  {
    TablesUndo();
  }

  lemma UnshiftSubstituted(s: Block)
    ensures IsTable(SBOX) && IsTable(INV_SBOX)
    ensures Substitute(INV_SBOX, InvShiftRows(ShiftRows(Substitute(SBOX, s)))) == s
    ensures ShiftRows(Substitute(SBOX, Substitute(INV_SBOX, InvShiftRows(s)))) == s
  {
    TablesUndo();
    hide ShiftRows, InvShiftRows, Substitute, SBOX, INV_SBOX;
    ShiftRowsInverse(Substitute(SBOX, s));
    SubstituteInverse(SBOX, INV_SBOX, s);
    SubstituteInverse(INV_SBOX, SBOX, InvShiftRows(s));
    ShiftRowsInverse(s);
  }

  lemma UnmixMixed(s: Block)
    ensures MixWith(INV_MIX, MixWith(MIX, s)) == s && MixWith(MIX, MixWith(INV_MIX, s)) == s
  {
    hide MixWith;
    MixPolynomialsInverse();
    MixInverse(INV_MIX, MIX, s);
    MixInverse(MIX, INV_MIX, s);
  }

  /** Decrypting what encryption produced, the states run backwards through those of encryption. */
  lemma {:induction false} BackwardMirrorsForward(w: seq<bv8>, s: Block, round: nat)
    requires |w| == 240 && 1 <= round <= 14
    ensures IsTable(SBOX) && IsTable(INV_SBOX)
    ensures Backward(w, Cipher(w, s), round) == ShiftRows(Substitute(SBOX, Forward(w, s, round - 1)))
    decreases 14 - round
  {
    Tables();
    hide AddKey, MixWith, ShiftRows, InvShiftRows, Substitute, RoundKey, SBOX, INV_SBOX;
    if round == 14 {
      AddKeyInverse(ShiftRows(Substitute(SBOX, Forward(w, s, 13))), RoundKey(w, 14));
    } else {
      BackwardMirrorsForward(w, s, round + 1);
      UnshiftSubstituted(Forward(w, s, round));
      var before := ShiftRows(Substitute(SBOX, Forward(w, s, round - 1)));
      AddKeyInverse(MixWith(MIX, before), RoundKey(w, round));
      UnmixMixed(before);
    }
  }

  /** Encrypting what decryption produced, the states run forwards through those of decryption. */
  lemma {:induction false} ForwardMirrorsBackward(w: seq<bv8>, s: Block, rounds: nat)
    requires |w| == 240 && rounds <= 13
    ensures IsTable(SBOX) && IsTable(INV_SBOX)
    ensures Forward(w, InvCipher(w, s), rounds) == Substitute(INV_SBOX, InvShiftRows(Backward(w, s, rounds + 1)))
    decreases rounds
  {
    Tables();
    hide AddKey, MixWith, ShiftRows, InvShiftRows, Substitute, RoundKey, SBOX, INV_SBOX;
    var after := Substitute(INV_SBOX, InvShiftRows(Backward(w, s, rounds + 1)));
    if rounds == 0 {
      AddKeyInverse(after, RoundKey(w, 0));
    } else {
      ForwardMirrorsBackward(w, s, rounds - 1);
      UnshiftSubstituted(Backward(w, s, rounds));
      UnmixMixed(AddKey(after, RoundKey(w, rounds)));
      AddKeyInverse(after, RoundKey(w, rounds));
    }
  }

  /** Under any round keys the cipher and its inverse undo each other, in both orders. */
  lemma CipherInverse(w: seq<bv8>, s: Block)
    requires |w| == 240
    ensures IsTable(SBOX) && IsTable(INV_SBOX)
    ensures InvCipher(w, Cipher(w, s)) == s && Cipher(w, InvCipher(w, s)) == s
  {
    Tables();
    hide AddKey, MixWith, ShiftRows, InvShiftRows, Substitute, RoundKey, SBOX, INV_SBOX;
    BackwardMirrorsForward(w, s, 1);
    UnshiftSubstituted(Forward(w, s, 0));
    AddKeyInverse(s, RoundKey(w, 0));
    ForwardMirrorsBackward(w, s, 13);
    UnshiftSubstituted(Backward(w, s, 14));
    AddKeyInverse(s, RoundKey(w, 14));
  }

  // ----- the key schedule, section 5.2

  /** The byte x^j. */
  ghost function XPower(j: nat): bv8 {
    if j == 0 then 1 else Xtime(XPower(j - 1))
  }

  ghost function AddWords(a: WordBytes, b: WordBytes): WordBytes {
    [Add(a[0], b[0]), Add(a[1], b[1]), Add(a[2], b[2]), Add(a[3], b[3])]
  }

  ghost function SubstituteWord(w: WordBytes): WordBytes
    requires IsTable(SBOX)
  {
    [LookUp(SBOX, w[0]), LookUp(SBOX, w[1]), LookUp(SBOX, w[2]), LookUp(SBOX, w[3])]
  }

  ghost function RotateWord(w: WordBytes): WordBytes {
    [w[1], w[2], w[3], w[0]]
  }

  /** The i-th word of the expanded key; every eighth word is rotated, substituted and given a power of x. */
  ghost function ExpandedWord(key: seq<bv8>, i: nat): WordBytes
    requires |key| == 32 && IsTable(SBOX)
  {
    if i < 8 then key[4 * i..4 * i + 4]
    else AddWords(ExpandedWord(key, i - 8), ScheduleStep(ExpandedWord(key, i - 1), i))
  }

  ghost function ScheduleStep(previous: WordBytes, i: nat): WordBytes
    requires i >= 8 && IsTable(SBOX)
  {
    if i % 8 == 0 then AddWords(SubstituteWord(RotateWord(previous)), [XPower(i / 8 - 1), 0, 0, 0])
    else if i % 8 == 4 then SubstituteWord(previous)
    else previous
  }

  ghost function ExpandedKey(key: seq<bv8>): (w: seq<bv8>)
    requires |key| == 32 && IsTable(SBOX)
    ensures |w| == 240
  {
    seq(240, k requires 0 <= k < 240 => ExpandedWord(key, k / 4)[k % 4])
  }

  function RoundConstByte(j: nat): bv8
    requires j < 10
  {
    ((ROUND_CONST[j] >> 24) & 0xff) as bv8
  }

  /** The round constants are the powers of x, as the standard defines them. */
  lemma RoundConstantsAreXPowers(j: nat)
    requires j < 10
    ensures RoundConstByte(j) == XPower(j)
  {
    assert ROUND_CONST[0] == 0x01000000 && ROUND_CONST[1] == 0x02000000 && ROUND_CONST[2] == 0x04000000;
    assert XPower(0) == 0x01 && XPower(1) == 0x02 && XPower(2) == 0x04 && XPower(3) == 0x08 && XPower(4) == 0x10;
    assert XPower(5) == 0x20 && XPower(6) == 0x40 && XPower(7) == 0x80 && XPower(8) == 0x1b && XPower(9) == 0x36;
  }
}
