/** aes256.cpp: the AES256 object, its loops, and the string layer with its padding. */
module Aes256Class {
  import opened Wrappers
  import opened Gf256
  import opened AesTables
  import opened Aes256

  datatype AesError = EmptyInput | BadLength | BadPadding

  /** block_size of the source: 128 is the number of bits of a block, and is used as a number of bytes. */
  const PAD_TO: nat := 128

  // ----- the string layer, on values

  ghost function Fill(n: nat): seq<bv8>
    requires n < 256
  {
    seq(n, i => ByteOf(n))
  }

  /** How many bytes padding adds to a string of length n. */
  function PadLength(n: nat): (k: nat)
    ensures 1 <= k <= PAD_TO
    ensures (n + k) % PAD_TO == 0
  {
    PAD_TO - n % PAD_TO
  }

  ghost function Pad(s: seq<bv8>): seq<bv8> {
    s + Fill(PadLength(|s|))
  }

  ghost function Unpad(x: seq<bv8>): Result<seq<bv8>, AesError> {
    if x == [] then Err(EmptyInput)
    else
      var n := Index(x[|x| - 1]);
      if 0 < n <= |x| && x[|x| - n..] == seq(n, i => x[|x| - 1]) then Ok(x[..|x| - n]) else Err(BadPadding)
  }

  ghost function EncryptBlocks(w: seq<bv8>, p: seq<bv8>): seq<bv8>
    requires |w| == 240 && |p| % 16 == 0 && IsTable(SBOX)
  {
    if p == [] then [] else Cipher(w, p[..16]) + EncryptBlocks(w, p[16..])
  }

  ghost function DecryptBlocks(w: seq<bv8>, c: seq<bv8>): seq<bv8>
    requires |w| == 240 && |c| % 16 == 0 && IsTable(INV_SBOX)
  {
    if c == [] then [] else InvCipher(w, c[..16]) + DecryptBlocks(w, c[16..])
  }

  lemma PaddedLength(s: seq<bv8>)
    ensures |Pad(s)| % 128 == 0 && |Pad(s)| % 16 == 0 && |s| < |Pad(s)| <= |s| + 128
  {
    Sixteenth(|Pad(s)|);
  }

  lemma Sixteenth(n: nat)
    requires n % 128 == 0
    ensures n % 16 == 0
  {
  }

  ghost function EncryptString(w: seq<bv8>, s: seq<bv8>): Result<seq<bv8>, AesError>
    requires |w| == 240 && IsTable(SBOX)
  {
    if s == [] then Err(EmptyInput) else PaddedLength(s); Ok(EncryptBlocks(w, Pad(s)))
  }

  ghost function DecryptString(w: seq<bv8>, c: seq<bv8>): Result<seq<bv8>, AesError>
    requires |w| == 240 && IsTable(INV_SBOX)
  {
    if c == [] || |c| % 16 != 0 then Err(BadLength) else Unpad(DecryptBlocks(w, c))
  }

  // ----- padding and its removal

  lemma LastOfPadded(s: seq<bv8>, n: nat)
    requires 1 <= n < 256
    ensures Unpad(s + Fill(n)) == Ok(s)
  {
    hide ByteOf, Index;
    IndexOfByte(n);
    var x := s + Fill(n);
    assert x[|x| - 1] == ByteOf(n);
    assert x[|x| - n..] == Fill(n);
    assert x[..|x| - n] == s;
  }

  /** Removal succeeds exactly on strings that end in n bytes of value n, for any n from 1 to 255. */
  lemma UnpadExact(x: seq<bv8>, s: seq<bv8>)
    ensures Unpad(x) == Ok(s) <==> exists n :: 1 <= n < 256 && x == s + Fill(n)
  {
    hide ByteOf, Index;
    if n :| 1 <= n < 256 && x == s + Fill(n) {
      LastOfPadded(s, n);
    }
    if Unpad(x) == Ok(s) {
      var last := x[|x| - 1];
      var n := Index(last);
      ByteOfIndex(last);
      assert x[|x| - n..] == Fill(n);
      assert x == s + Fill(n);
    }
  }

  // ----- blocks

  lemma {:induction false} BlocksInverse(w: seq<bv8>, p: seq<bv8>)
    requires |w| == 240 && |p| % 16 == 0
    ensures IsTable(SBOX) && IsTable(INV_SBOX)
    ensures |EncryptBlocks(w, p)| == |p| && DecryptBlocks(w, EncryptBlocks(w, p)) == p
    ensures |DecryptBlocks(w, p)| == |p| && EncryptBlocks(w, DecryptBlocks(w, p)) == p
    decreases |p|
  {
    Tables();
    hide Cipher, InvCipher, SBOX, INV_SBOX;
    if p != [] {
      BlocksInverse(w, p[16..]);
      CipherInverse(w, p[..16]);
      var c, d := EncryptBlocks(w, p), DecryptBlocks(w, p);
      assert c[..16] == Cipher(w, p[..16]) && c[16..] == EncryptBlocks(w, p[16..]);
      assert d[..16] == InvCipher(w, p[..16]) && d[16..] == DecryptBlocks(w, p[16..]);
      assert p == p[..16] + p[16..];
    }
  }

  lemma NextEncrypted(w: seq<bv8>, p: seq<bv8>, i: nat)
    requires |w| == 240 && |p| % 16 == 0 && i % 16 == 0 && i < |p| && IsTable(SBOX)
    ensures i + 16 <= |p|
    ensures EncryptBlocks(w, p[i..]) == Cipher(w, p[i..i + 16]) + EncryptBlocks(w, p[i + 16..])
  {
    hide SBOX, Cipher;
    assert p[i..][..16] == p[i..i + 16] && p[i..][16..] == p[i + 16..];
  }

  lemma NextDecrypted(w: seq<bv8>, c: seq<bv8>, i: nat)
    requires |w| == 240 && |c| % 16 == 0 && i % 16 == 0 && i < |c| && IsTable(INV_SBOX)
    ensures i + 16 <= |c|
    ensures DecryptBlocks(w, c[i..]) == InvCipher(w, c[i..i + 16]) + DecryptBlocks(w, c[i + 16..])
  {
    hide INV_SBOX, InvCipher;
    assert c[i..][..16] == c[i..i + 16] && c[i..][16..] == c[i + 16..];
  }

  lemma EncryptedLength(w: seq<bv8>, p: seq<bv8>)
    requires |w| == 240 && |p| % 16 == 0 && IsTable(SBOX)
    ensures |EncryptBlocks(w, p)| == |p|
  {
    hide *;
    BlocksInverse(w, p);
  }

  /** A block of the output is the cipher of the block of the input at the same place. */
  lemma {:induction false} EncryptedBlock(w: seq<bv8>, p: seq<bv8>, i: nat, at: nat)
    requires |w| == 240 && |p| % 16 == 0 && i % 16 == 0 && at % 16 == 0 && i <= at && at + 16 <= |p| && IsTable(SBOX)
    ensures (|p| - i) % 16 == 0 && |EncryptBlocks(w, p[i..])| == |p| - i
    ensures EncryptBlocks(w, p[i..])[at - i..at - i + 16] == Cipher(w, p[at..at + 16])
    decreases at - i
  {
    hide *;
    BlocksBehind(|p|, i, at);
    EncryptedLength(w, p[i..]);
    NextEncrypted(w, p, i);
    if i == at {
      FirstSixteen(Cipher(w, p[i..i + 16]), EncryptBlocks(w, p[i + 16..]));
    } else {
      EncryptedBlock(w, p, i + 16, at);
      LaterSixteen(Cipher(w, p[i..i + 16]), EncryptBlocks(w, p[i + 16..]), at - i - 16);
    }
  }

  lemma BlocksBehind(n: nat, i: nat, at: nat)
    requires n % 16 == 0 && i % 16 == 0 && at % 16 == 0 && i <= at && at + 16 <= n
    ensures (n - i) % 16 == 0 && (i + 16) % 16 == 0 && (i < at ==> i + 16 <= at)
  {
  }

  lemma FirstSixteen(a: seq<bv8>, b: seq<bv8>)
    requires |a| == 16
    ensures (a + b)[0..16] == a
  {
  }

  lemma LaterSixteen(a: seq<bv8>, b: seq<bv8>, j: nat)
    requires |a| == 16 && j + 16 <= |b|
    ensures (a + b)[16 + j..16 + j + 16] == b[j..j + 16]
  {
  }

  lemma NothingLeft(w: seq<bv8>, p: seq<bv8>)
    requires |w| == 240
    ensures IsTable(SBOX) && IsTable(INV_SBOX) && EncryptBlocks(w, []) == [] && DecryptBlocks(w, []) == []
    ensures p[|p|..] == []
  {
    Tables();
    hide SBOX, INV_SBOX;
  }

  // ----- strings

  /**
   * Round trip on every non-empty string; the ciphertext is as long as the least multiple of 128 above the string's
   * length. The empty string is refused.
   */
  lemma StringRoundTrip(w: seq<bv8>, s: seq<bv8>)
    requires |w| == 240
    ensures IsTable(SBOX) && IsTable(INV_SBOX)
    ensures s == [] ==> EncryptString(w, s) == Err(EmptyInput)
    ensures s != [] ==> EncryptString(w, s).Ok? && DecryptString(w, EncryptString(w, s).value) == Ok(s)
    ensures s != [] ==> |EncryptString(w, s).value| % 128 == 0 && |s| < |EncryptString(w, s).value| <= |s| + 128
  {
    Tables();
    if s != [] {
      hide Cipher, InvCipher, SBOX, INV_SBOX, Pad, Unpad;
      PaddedLength(s);
      BlocksInverse(w, Pad(s));
      PadUnpad(s);
    }
  }

  /**
   * A string is encrypted block by block, in order, after bytes were appended that each give their number; they fill
   * up to the next multiple of 128.
   */
  lemma StringBlocks(w: seq<bv8>, s: seq<bv8>, p: seq<bv8>, n: nat, k: nat)
    requires |w| == 240 && s != [] && 1 <= n <= 128 && (|s| + n) % 128 == 0 && 16 * k + 16 <= |s| + n
    requires p == s + seq(n, i => ByteOf(n))
    ensures IsTable(SBOX) && EncryptString(w, s).Ok?
    ensures var c := EncryptString(w, s).value;
            |c| == |s| + n && c[16 * k..16 * k + 16] == Cipher(w, p[16 * k..16 * k + 16])
  {
    Tables();
    hide SBOX, Cipher, ByteOf, EncryptBlocks;
    PadLengthUnique(|s|, n);
    assert p == Pad(s);
    PaddedLength(s);
    assert p[0..] == p;
    EncryptedBlock(w, p, 0, 16 * k);
  }

  lemma PadLengthUnique(length: nat, n: nat)
    requires 1 <= n <= 128 && (length + n) % 128 == 0
    ensures n == PadLength(length)
  {
  }

  lemma PadUnpad(s: seq<bv8>)
    ensures Unpad(Pad(s)) == Ok(s)
  {
    LastOfPadded(s, PadLength(|s|));
  }

  /** Which error decryption reports, if any: the length is checked before anything is decrypted. */
  lemma DecryptErrorsExact(w: seq<bv8>, c: seq<bv8>)
    requires |w| == 240
    ensures IsTable(SBOX) && IsTable(INV_SBOX)
    ensures DecryptString(w, c) == Err(BadLength) <==> c == [] || |c| % 16 != 0
    ensures DecryptString(w, c) == Err(BadPadding) <==>
              && c != [] && |c| % 16 == 0
              && forall s: seq<bv8>, n :: 1 <= n < 256 ==> DecryptBlocks(w, c) != s + Fill(n)
    ensures DecryptString(w, c) != Err(EmptyInput)
  {
    Tables();
    if c != [] && |c| % 16 == 0 {
      BlocksInverse(w, c);
      hide SBOX, INV_SBOX, DecryptBlocks, Fill;
      var x := DecryptBlocks(w, c);
      UnpadFails(x);
    }
  }

  lemma UnpadFails(x: seq<bv8>)
    requires x != []
    ensures Unpad(x) == Err(BadPadding) || Unpad(x).Ok?
    ensures Unpad(x) == Err(BadPadding) <==> forall s: seq<bv8>, n :: 1 <= n < 256 ==> x != s + Fill(n)
  {
    if Unpad(x).Ok? {
      UnpadExact(x, Unpad(x).value);
    }
    if s: seq<bv8>, n :| 1 <= n < 256 && x == s + Fill(n) {
      UnpadExact(x, s);
    }
  }

  /** Among the strings that unpad to s, the one padding makes is known by its length. */
  lemma PaddedByLength(p: seq<bv8>, s: seq<bv8>)
    requires Unpad(p) == Ok(s)
    ensures p == Pad(s) <==> |p| == |s| + PadLength(|s|)
  {
    hide Unpad, ByteOf, PadLength;
    UnpadExact(p, s);
  }

  /**
   * The other order: a ciphertext that decrypts to a non-empty string is what encrypting that string gives exactly
   * when it has the length encryption would have given it.
   */
  lemma ReencryptExact(w: seq<bv8>, c: seq<bv8>, s: seq<bv8>)
    requires |w| == 240 && s != []
    ensures IsTable(SBOX) && IsTable(INV_SBOX)
    ensures DecryptString(w, c) == Ok(s) ==>
              (EncryptString(w, s) == Ok(c) <==> |c| == |s| + PadLength(|s|))
  {
    Tables();
    if DecryptString(w, c) == Ok(s) {
      hide Cipher, InvCipher, SBOX, INV_SBOX, Unpad, PadLength, EncryptBlocks, DecryptBlocks, Pad;
      PaddedLength(s);
      BlocksInverse(w, c);
      BlocksInverse(w, Pad(s));
      PaddedByLength(DecryptBlocks(w, c), s);
    }
  }

  // ----- the class

  class AES256 {
    var key: seq<bv8>

    ghost predicate Valid()
      reads this
    {
      |key| == 32
    }

    constructor (key: seq<bv8>)
      requires |key| == 32
      ensures Valid() && this.key == key
    {
      this.key := key;
    }

    method SetKey(newKey: seq<bv8>)
      requires |newKey| == 32
      modifies this
      ensures Valid() && key == newKey
    {
      key := newKey;
    }

    method GetKey() returns (k: seq<bv8>)
      ensures k == key
    {
      k := key;
    }

    method SubBytes(state: Block) returns (output: Block)
      ensures IsTable(SBOX) && output == Substitute(SBOX, state)
    {
      Tables();
      hide SBOX, LookUp;
      var out := new bv8[16](i => 0);
      for i := 0 to 16
        invariant forall k :: 0 <= k < i ==> out[k] == LookUp(SBOX, state[k])
      {
        out[i] := LookUp(SBOX, state[i]);
      }
      output := out[..];
      assert output == Substitute(SBOX, state);
    }

    method InvSubBytes(state: Block) returns (output: Block)
      ensures IsTable(INV_SBOX) && output == Substitute(INV_SBOX, state)
    {
      Tables();
      hide INV_SBOX, LookUp;
      var out := new bv8[16](i => 0);
      for i := 0 to 16
        invariant forall k :: 0 <= k < i ==> out[k] == LookUp(INV_SBOX, state[k])
      {
        out[i] := LookUp(INV_SBOX, state[i]);
      }
      output := out[..];
      assert output == Substitute(INV_SBOX, state);
    }

    method ShiftRowsOf(state: Block) returns (output: Block)
      ensures output == ShiftRows(state)
    {
      LeftSources();
      hide LeftSource;
      output := [state[0], state[5], state[10], state[15],
                 state[4], state[9], state[14], state[3],
                 state[8], state[13], state[2], state[7],
                 state[12], state[1], state[6], state[11]];
    }

    method InvShiftRowsOf(state: Block) returns (output: Block)
      ensures output == InvShiftRows(state)
    {
      RightSources();
      hide RightSource;
      output := [state[0], state[13], state[10], state[7],
                 state[4], state[1], state[14], state[11],
                 state[8], state[5], state[2], state[15],
                 state[12], state[9], state[6], state[3]];
    }

    /** The loop body of mix_columns. */
    method MixColumn(s: WordBytes) returns (t: WordBytes)
      ensures t == TimesColumn(MIX, s)
    {
      hide Mul, IsProduct, Sum, TimesColumn;
      var s0, s1, s2, s3 := s[0], s[1], s[2], s[3];
      MixByCode(s, s0, s1, s2, s3);
      var a0 := Gmul(0x02, s0);
      var b1 := Gmul(0x03, s1);
      var a1 := Gmul(0x02, s1);
      var b2 := Gmul(0x03, s2);
      var a2 := Gmul(0x02, s2);
      var b3 := Gmul(0x03, s3);
      var b0 := Gmul(0x03, s0);
      var a3 := Gmul(0x02, s3);
      t := [Sum(a0, b1, s2, s3), Sum(s0, a1, b2, s3), Sum(s0, s1, a2, b3), Sum(b0, s1, s2, a3)];
    }

    /** The loop body of inv_mix_columns. */
    method InvMixColumn(s: WordBytes) returns (t: WordBytes)
      ensures t == TimesColumn(INV_MIX, s)
    {
      hide Mul, IsProduct, Sum, TimesColumn;
      var s0, s1, s2, s3 := s[0], s[1], s[2], s[3];
      InvMixByCode(s, s0, s1, s2, s3);
      var e0 := Gmul(0x0e, s0);
      var e1 := Gmul(0x0e, s1);
      var e2 := Gmul(0x0e, s2);
      var e3 := Gmul(0x0e, s3);
      var b0 := Gmul(0x0b, s0);
      var b1 := Gmul(0x0b, s1);
      var b2 := Gmul(0x0b, s2);
      var b3 := Gmul(0x0b, s3);
      var d0 := Gmul(0x0d, s0);
      var d1 := Gmul(0x0d, s1);
      var d2 := Gmul(0x0d, s2);
      var d3 := Gmul(0x0d, s3);
      var n0 := Gmul(0x09, s0);
      var n1 := Gmul(0x09, s1);
      var n2 := Gmul(0x09, s2);
      var n3 := Gmul(0x09, s3);
      t := [Sum(e0, b1, d2, n3), Sum(n0, e1, b2, d3), Sum(d0, n1, e2, b3), Sum(b0, d1, n2, e3)];
    }

    method MixColumns(state: Block) returns (output: Block)
      ensures output == MixWith(MIX, state)
    {
      hide MixEntry, TimesColumn;
      var out := new bv8[16](i => 0);
      for c := 0 to 4
        invariant forall k :: 0 <= k < 4 * c ==> out[k] == MixEntry(MIX, state, k)
      {
        var t := MixColumn(state[4 * c..4 * c + 4]);
        ColumnEntries(MIX, state, c);
        out[4 * c] := t[0];
        out[4 * c + 1] := t[1];
        out[4 * c + 2] := t[2];
        out[4 * c + 3] := t[3];
      }
      output := out[..];
      assert output == MixWith(MIX, state);
    }

    method InvMixColumns(state: Block) returns (output: Block)
      ensures output == MixWith(INV_MIX, state)
    {
      hide MixEntry, TimesColumn;
      var out := new bv8[16](i => 0);
      for c := 0 to 4
        invariant forall k :: 0 <= k < 4 * c ==> out[k] == MixEntry(INV_MIX, state, k)
      {
        var t := InvMixColumn(state[4 * c..4 * c + 4]);
        ColumnEntries(INV_MIX, state, c);
        out[4 * c] := t[0];
        out[4 * c + 1] := t[1];
        out[4 * c + 2] := t[2];
        out[4 * c + 3] := t[3];
      }
      output := out[..];
      assert output == MixWith(INV_MIX, state);
    }

    method AddRoundKey(state: Block, w: seq<bv8>, round: nat) returns (output: Block)
      requires |w| == 240 && round <= 14
      ensures output == AddKey(state, RoundKey(w, round))
    {
      hide Add;
      var out := new bv8[16](i => 0);
      for c := 0 to 4
        invariant forall k :: 0 <= k < 4 * c ==> out[k] == Add(state[k], w[16 * round + k])
      {
        for r := 0 to 4
          invariant forall k :: 0 <= k < 4 * c + r ==> out[k] == Add(state[k], w[16 * round + k])
        {
          out[r + 4 * c] := Add(state[r + 4 * c], w[4 * round * 4 + 4 * c + r]);
        }
      }
      output := out[..];
      assert output == AddKey(state, RoundKey(w, round));
    }

    method Encrypt(input: Block) returns (state: Block)
      requires Valid()
      ensures IsTable(SBOX) && state == Cipher(ExpandedKey(key), input)
    {
      Tables();
      hide SBOX, Substitute, ShiftRows, MixWith, AddKey, RoundKey, ExpandedKey, IsTable;
      state := input;
      var w := KeyExpansion();
      state := AddRoundKey(state, w, 0);
      for round := 1 to 14
        invariant state == Forward(w, input, round - 1)
      {
        state := SubBytes(state);
        state := ShiftRowsOf(state);
        state := MixColumns(state);
        state := AddRoundKey(state, w, round);
      }
      state := SubBytes(state);
      state := ShiftRowsOf(state);
      state := AddRoundKey(state, w, 14);
    }

    method Decrypt(input: Block) returns (state: Block)
      requires Valid()
      ensures IsTable(SBOX) && IsTable(INV_SBOX) && state == InvCipher(ExpandedKey(key), input)
    {
      Tables();
      hide INV_SBOX, Substitute, InvShiftRows, MixWith, AddKey, RoundKey, ExpandedKey, IsTable;
      state := input;
      var w := KeyExpansion();
      state := AddRoundKey(state, w, 14);
      for round := 14 downto 1
        invariant state == Backward(w, input, round)
      {
        state := InvShiftRowsOf(state);
        state := InvSubBytes(state);
        state := AddRoundKey(state, w, round);
        state := InvMixColumns(state);
      }
      state := InvShiftRowsOf(state);
      state := InvSubBytes(state);
      state := AddRoundKey(state, w, 0);
    }

    method SubWord(word: WordBytes) returns (output: WordBytes)
      ensures IsTable(SBOX) && output == SubstituteWord(word)
    {
      Tables();
      hide SBOX, LookUp;
      return [LookUp(SBOX, word[0]), LookUp(SBOX, word[1]), LookUp(SBOX, word[2]), LookUp(SBOX, word[3])];
    }

    /** What word i is added to: the word before it, rotated, substituted and given a constant where it is due. */
    method ScheduleTemp(previous: WordBytes, i: nat) returns (temp: WordBytes)
      requires 8 <= i < 60
      ensures IsTable(SBOX) && temp == ScheduleStep(previous, i)
    {
      Tables();
      hide SBOX, LookUp, RoundConstByte, Add, SubstituteWord, XPower;
      temp := previous;
      if i % 8 == 0 {
        temp := SubWord([temp[1], temp[2], temp[3], temp[0]]);
        RoundConstantsAreXPowers(i / 8 - 1);
        AddZero(temp[1]);
        AddZero(temp[2]);
        AddZero(temp[3]);
        temp := temp[0 := Add(temp[0], RoundConstByte(i / 8 - 1))];
      } else if i % 8 == 4 {
        temp := SubWord(temp);
      }
    }

    /** Writes word i: the word eight places back, added to temp. */
    static method StoreWord(w: array<bv8>, i: nat, temp: WordBytes)
      requires w.Length == 240 && 8 <= i < 60
      modifies w
      ensures w[..4 * i] == old(w[..4 * i])
      ensures forall k :: 0 <= k < 4 ==> w[4 * i + k] == Add(old(w[4 * (i - 8) + k]), temp[k])
    {
      hide Add;
      for j := 0 to 4
        invariant w[..4 * i] == old(w[..4 * i])
        invariant forall k :: 0 <= k < j ==> w[4 * i + k] == Add(old(w[4 * (i - 8) + k]), temp[k])
      {
        assert w[..4 * i][4 * (i - 8) + j] == old(w[..4 * i])[4 * (i - 8) + j];
        w[4 * i + j] := Add(w[4 * (i - 8) + j], temp[j]);
      }
    }

    /** Fills the 240 bytes of the schedule in place, four at a time. */
    method KeyExpansion() returns (schedule: seq<bv8>)
      requires Valid()
      ensures IsTable(SBOX) && schedule == ExpandedKey(key)
    {
      Tables();
      hide SBOX, Add, ScheduleUpTo, ExpandedWord, ScheduleStep, ExpandedKey;
      var w := new bv8[240](i => 0);
      for i := 0 to 32
        invariant w[..i] == key[..i]
      {
        w[i] := key[i];
      }
      ScheduleStart(key, w[..]);
      for i := 8 to 60
        invariant ScheduleUpTo(key, w[..], i)
      {
        ghost var before := w[..];
        WordAt(key, before, i, i - 1);
        WordAt(key, before, i, i - 8);
        var temp := ScheduleTemp(w[4 * (i - 1)..4 * (i - 1) + 4], i);
        StoreWord(w, i, temp);
        ScheduleExtend(key, before, w[..], i, temp);
      }
      ScheduleComplete(key, w[..]);
      schedule := w[..];
    }

    // ----- strings

    method Pkcs7Pad(input: seq<bv8>) returns (padded: seq<bv8>)
      ensures padded == Pad(input)
    {
      hide ByteOf;
      var paddingLength := PAD_TO - |input| % PAD_TO;
      if paddingLength == 0 {
        paddingLength := PAD_TO;
      }
      padded := input;
      for i := 0 to paddingLength
        invariant padded == input + seq(i, k => ByteOf(paddingLength))
      {
        padded := padded + [ByteOf(paddingLength)];
      }
    }

    method Pkcs7Unpad(input: seq<bv8>) returns (r: Result<seq<bv8>, AesError>)
      ensures r == Unpad(input)
    {
      hide Index;
      if input == [] {
        return Err(EmptyInput);
      }
      var last := input[|input| - 1];
      ByteOfIndex(last);
      var paddingLength := Index(last);
      if paddingLength == 0 || paddingLength > |input| {
        return Err(BadPadding);
      }
      var start := |input| - paddingLength;
      for i := start to |input|
        invariant forall k :: start <= k < i ==> input[k] == last
      {
        if input[i] != last {
          assert input[start..][i - start] != last;
          return Err(BadPadding);
        }
      }
      assert input[start..] == seq(paddingLength, k => last);
      return Ok(input[..start]);
    }

    method Aes256Encrypt(input: seq<bv8>) returns (r: Result<seq<bv8>, AesError>)
      requires Valid()
      ensures IsTable(SBOX) && r == EncryptString(ExpandedKey(key), input)
    {
      Tables();
      hide SBOX, Cipher, ExpandedKey, Pad, EncryptBlocks;
      if input == [] {
        return Err(EmptyInput);
      }
      var padded := Pkcs7Pad(input);
      PaddedLength(input);
      ghost var w := ExpandedKey(key);
      var output: seq<bv8> := [];
      var i := 0;
      while i < |padded|
        invariant 0 <= i <= |padded| && i % 16 == 0
        invariant output + EncryptBlocks(w, padded[i..]) == EncryptBlocks(w, padded)
      {
        NextEncrypted(w, padded, i);
        var block := Encrypt(padded[i..i + 16]);
        output := output + block;
        i := i + 16;
      }
      NothingLeft(w, padded);
      assert padded[i..] == [] && output + [] == output;
      return Ok(output);
    }

    method Aes256Decrypt(input: seq<bv8>) returns (r: Result<seq<bv8>, AesError>)
      requires Valid()
      ensures IsTable(SBOX) && IsTable(INV_SBOX) && r == DecryptString(ExpandedKey(key), input)
    {
      Tables();
      hide INV_SBOX, InvCipher, ExpandedKey, Unpad, DecryptBlocks;
      if input == [] || |input| % 16 != 0 {
        return Err(BadLength);
      }
      ghost var w := ExpandedKey(key);
      var decrypted: seq<bv8> := [];
      var i := 0;
      while i < |input|
        invariant 0 <= i <= |input| && i % 16 == 0
        invariant decrypted + DecryptBlocks(w, input[i..]) == DecryptBlocks(w, input)
      {
        NextDecrypted(w, input, i);
        var block := Decrypt(input[i..i + 16]);
        decrypted := decrypted + block;
        i := i + 16;
      }
      NothingLeft(w, input);
      assert input[i..] == [] && decrypted + [] == decrypted;
      r := Pkcs7Unpad(decrypted);
    }
  }

  // ----- the shifts of shift_rows and inv_shift_rows, byte by byte

  lemma LeftSources()
    ensures LeftSource(0) == 0 && LeftSource(1) == 5 && LeftSource(2) == 10 && LeftSource(3) == 15
    ensures LeftSource(4) == 4 && LeftSource(5) == 9 && LeftSource(6) == 14 && LeftSource(7) == 3
    ensures LeftSource(8) == 8 && LeftSource(9) == 13 && LeftSource(10) == 2 && LeftSource(11) == 7
    ensures LeftSource(12) == 12 && LeftSource(13) == 1 && LeftSource(14) == 6 && LeftSource(15) == 11
  {
  }

  lemma RightSources()
    ensures RightSource(0) == 0 && RightSource(1) == 13 && RightSource(2) == 10 && RightSource(3) == 7
    ensures RightSource(4) == 4 && RightSource(5) == 1 && RightSource(6) == 14 && RightSource(7) == 11
    ensures RightSource(8) == 8 && RightSource(9) == 5 && RightSource(10) == 2 && RightSource(11) == 15
    ensures RightSource(12) == 12 && RightSource(13) == 9 && RightSource(14) == 6 && RightSource(15) == 3
  {
  }

  // ----- the expressions of mix_columns and inv_mix_columns are the rows of the circulant matrices

  function Sum(p: bv8, q: bv8, r: bv8, s: bv8): bv8 {
    p ^ q ^ r ^ s
  }

  lemma SumOfFour(p: bv8, q: bv8, r: bv8, s: bv8)
    ensures Sum(p, q, r, s) == Add(Add(p, q), Add(r, s))
  {
    AddAssociative(Add(p, q), r, s);
  }

  lemma MixByCode(s: WordBytes, s0: bv8, s1: bv8, s2: bv8, s3: bv8)
    requires s == [s0, s1, s2, s3]
    ensures TimesColumn(MIX, s)
         == [Sum(Mul(0x02, s0), Mul(0x03, s1), s2, s3), Sum(s0, Mul(0x02, s1), Mul(0x03, s2), s3),
             Sum(s0, s1, Mul(0x02, s2), Mul(0x03, s3)), Sum(Mul(0x03, s0), s1, s2, Mul(0x02, s3))]
  {
    hide Add, Mul, Sum;
    OneAndZeroTimes(s0);
    OneAndZeroTimes(s1);
    OneAndZeroTimes(s2);
    OneAndZeroTimes(s3);
    SumOfFour(Mul(0x02, s0), Mul(0x03, s1), s2, s3);
    SumOfFour(s0, Mul(0x02, s1), Mul(0x03, s2), s3);
    SumOfFour(s0, s1, Mul(0x02, s2), Mul(0x03, s3));
    SumOfFour(Mul(0x03, s0), s1, s2, Mul(0x02, s3));
  }

  lemma InvMixByCode(s: WordBytes, s0: bv8, s1: bv8, s2: bv8, s3: bv8)
    requires s == [s0, s1, s2, s3]
    ensures TimesColumn(INV_MIX, s)
         == [Sum(Mul(0x0e, s0), Mul(0x0b, s1), Mul(0x0d, s2), Mul(0x09, s3)),
             Sum(Mul(0x09, s0), Mul(0x0e, s1), Mul(0x0b, s2), Mul(0x0d, s3)),
             Sum(Mul(0x0d, s0), Mul(0x09, s1), Mul(0x0e, s2), Mul(0x0b, s3)),
             Sum(Mul(0x0b, s0), Mul(0x0d, s1), Mul(0x09, s2), Mul(0x0e, s3))]
  {
    hide Add, Mul, Sum;
    SumOfFour(Mul(0x0e, s0), Mul(0x0b, s1), Mul(0x0d, s2), Mul(0x09, s3));
    SumOfFour(Mul(0x09, s0), Mul(0x0e, s1), Mul(0x0b, s2), Mul(0x0d, s3));
    SumOfFour(Mul(0x0d, s0), Mul(0x09, s1), Mul(0x0e, s2), Mul(0x0b, s3));
    SumOfFour(Mul(0x0b, s0), Mul(0x0d, s1), Mul(0x09, s2), Mul(0x0e, s3));
  }

  lemma ColumnEntries(m: WordBytes, s: Block, c: nat)
    requires c < 4
    ensures TimesColumn(m, s[4 * c..4 * c + 4])
         == [MixEntry(m, s, 4 * c), MixEntry(m, s, 4 * c + 1), MixEntry(m, s, 4 * c + 2), MixEntry(m, s, 4 * c + 3)]
  {
    hide RowTimes, CirculantRow, MixEntry;
    MixEntryAt(m, s, 0, c);
    MixEntryAt(m, s, 1, c);
    MixEntryAt(m, s, 2, c);
    MixEntryAt(m, s, 3, c);
  }

  /** The first i words of w are those of the expanded key. */
  ghost predicate ScheduleUpTo(key: seq<bv8>, w: seq<bv8>, n: nat)
    requires |key| == 32 && |w| == 240 && n <= 60 && IsTable(SBOX)
  {
    forall i :: 0 <= i < n ==> w[4 * i..4 * i + 4] == ExpandedWord(key, i)
  }

  lemma WordAt(key: seq<bv8>, w: seq<bv8>, n: nat, i: nat)
    requires |key| == 32 && |w| == 240 && i < n <= 60 && IsTable(SBOX) && ScheduleUpTo(key, w, n)
    ensures w[4 * i..4 * i + 4] == ExpandedWord(key, i)
  {
  }

  lemma ScheduleStart(key: seq<bv8>, w: seq<bv8>)
    requires |key| == 32 && |w| == 240 && IsTable(SBOX) && w[..32] == key[..32]
    ensures ScheduleUpTo(key, w, 8)
  {
    hide SBOX;
    forall i | 0 <= i < 8 ensures w[4 * i..4 * i + 4] == ExpandedWord(key, i) {
      assert w[4 * i..4 * i + 4] == w[..32][4 * i..4 * i + 4];
    }
  }

  lemma ScheduleKept(key: seq<bv8>, before: seq<bv8>, after: seq<bv8>, n: nat, i: nat)
    requires |key| == 32 && |before| == |after| == 240 && i < n <= 60 && IsTable(SBOX) && ScheduleUpTo(key, before, n)
    requires after[..4 * n] == before[..4 * n]
    ensures after[4 * i..4 * i + 4] == ExpandedWord(key, i)
  {
    hide SBOX, ExpandedWord;
    WordAt(key, before, n, i);
    assert after[4 * i..4 * i + 4] == after[..4 * n][4 * i..4 * i + 4];
    assert before[4 * i..4 * i + 4] == before[..4 * n][4 * i..4 * i + 4];
  }

  lemma Recurrence(key: seq<bv8>, n: nat)
    requires |key| == 32 && n >= 8 && IsTable(SBOX)
    ensures ExpandedWord(key, n) == AddWords(ExpandedWord(key, n - 8), ScheduleStep(ExpandedWord(key, n - 1), n))
  {
  }

  lemma ScheduleExtend(key: seq<bv8>, before: seq<bv8>, after: seq<bv8>, n: nat, temp: WordBytes)
    requires |key| == 32 && |before| == |after| == 240 && 8 <= n < 60 && IsTable(SBOX) && ScheduleUpTo(key, before, n)
    requires after[..4 * n] == before[..4 * n]
    requires temp == ScheduleStep(ExpandedWord(key, n - 1), n)
    requires forall k :: 0 <= k < 4 ==> after[4 * n + k] == Add(before[4 * (n - 8) + k], temp[k])
    ensures ScheduleUpTo(key, after, n + 1)
  {
    hide SBOX, Add, ScheduleStep, ExpandedWord;
    WordAt(key, before, n, n - 8);
    Recurrence(key, n);
    var earlier: WordBytes := before[4 * (n - 8)..4 * (n - 8) + 4];
    assert after[4 * n..4 * n + 4] == AddWords(earlier, temp);
    forall i | 0 <= i < n ensures after[4 * i..4 * i + 4] == ExpandedWord(key, i) {
      ScheduleKept(key, before, after, n, i);
    }
  }

  lemma ScheduleComplete(key: seq<bv8>, w: seq<bv8>)
    requires |key| == 32 && |w| == 240 && IsTable(SBOX) && ScheduleUpTo(key, w, 60)
    ensures w == ExpandedKey(key)
  {
    hide SBOX, ExpandedWord;
    forall k | 0 <= k < 240 ensures w[k] == ExpandedWord(key, k / 4)[k % 4] {
      WordAt(key, w, 60, k / 4);
      assert w[k] == w[4 * (k / 4)..4 * (k / 4) + 4][k % 4];
    }
  }
}
