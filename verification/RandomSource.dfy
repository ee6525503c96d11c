/** The random source: generate_random is a rejection loop over 64-bit words of a generator. */
module RandomSource {
  // The words the generator will produce are a parameter, a finite tape of draws, one draw of eight words per pass of
  // the loop; a call that would outlive the tape is Exhausted, which also covers calls that never return.

  import opened ModularArithmetic

  const WORD: nat := 0x1_0000_0000_0000_0000

  type Word = w: nat | w < WORD

  type Draw = ws: seq<Word> | |ws| == 8 witness [0, 0, 0, 0, 0, 0, 0, 0]

  datatype Outcome =
    | Drawn(value: int, rest: seq<Draw>)
    | Exhausted
    | DivisionByZero

  /** The number whose base-2^64 digits are ws, most significant first. */
  function BigEndian(ws: seq<Word>): nat {
    if ws == [] then 0 else BigEndian(ws[..|ws| - 1]) * WORD + ws[|ws| - 1]
  }

  lemma OneWord(w: Word)
    ensures BigEndian([]) == 0 && BigEndian([w]) == w
  {
    assert [w][..0] == [];
  }

  /** The words before others count for as many powers of 2^64 as there are others. */
  lemma {:induction false} BigEndianConcat(a: seq<Word>, b: seq<Word>)
    ensures BigEndian(a + b) == BigEndian(a) * Pow(WORD, |b|) + BigEndian(b)
  {
    if b == [] {
      assert a + b == a;
    } else {
      var n := |b| - 1;
      BigEndianConcat(a, b[..n]);
      assert (a + b)[..|a + b| - 1] == a + b[..n];
      ShiftedSum(BigEndian(a), Pow(WORD, n), BigEndian(b[..n]), WORD);
    }
  }

  lemma ShiftedSum(x: int, y: int, z: int, f: int)
    ensures (x * y + z) * f == x * (f * y) + z * f
  {
  }

  /** The first word is the most significant one. */
  lemma MostSignificantFirst(w: Word, rest: seq<Word>)
    ensures BigEndian([w] + rest) == w * Pow(WORD, |rest|) + BigEndian(rest)
  {
    OneWord(w);
    BigEndianConcat([w], rest);
  }

  function Digits(n: nat, k: nat): (ws: seq<Word>)
    ensures |ws| == k
  {
    if k == 0 then [] else Digits(n / WORD, k - 1) + [n % WORD]
  }

  lemma DigitsValue(n: nat, k: nat)
    requires n < Pow(WORD, k)
    ensures BigEndian(Digits(n, k)) == n
  {
    if k > 0 {
      assert n / WORD < Pow(WORD, k - 1);
      DigitsValue(n / WORD, k - 1);
      assert Digits(n, k)[..k - 1] == Digits(n / WORD, k - 1);
    }
  }

  lemma BigEndianBound(ws: seq<Word>)
    ensures BigEndian(ws) < Pow(WORD, |ws|)
  {
    if ws != [] {
      BigEndianBound(ws[..|ws| - 1]);
      assert Pow(WORD, |ws|) == WORD * Pow(WORD, |ws| - 1);
    }
  }

  /** What generate_random(min, max) does with the words still to come. */
  function Sample(min: int, max: int, tape: seq<Draw>): Outcome {
    var range := max - min + 1;
    if min <= 0 then Drawn(min, tape)
    else if tape == [] then Exhausted
    else if range == 0 then DivisionByZero
    else
      var candidate := BigEndian(tape[0]) % range;
      if candidate >= min then Drawn(candidate + min, tape[1..]) else Sample(min, max, tape[1..])
  }

  method GenerateRandom(min: int, max: int, tape: seq<Draw>) returns (r: Outcome)
    ensures r == Sample(min, max, tape)
  {
    var range := max - min + 1;
    var result := 0;
    var left := tape;
    while result < min
      invariant result >= 0
      invariant if result < min then Sample(min, max, left) == Sample(min, max, tape)
                else Sample(min, max, tape) == Drawn(result + min, left)
      decreases |left|
    {
      if left == [] {
        return Exhausted;
      }
      result := 0;
      for i := 0 to 8
        invariant result == BigEndian(left[0][..i])
      {
        assert left[0][..i + 1][..i] == left[0][..i];
        result := result * WORD + left[0][i];
      }
      assert left[0][..8] == left[0];
      if range == 0 {
        return DivisionByZero;
      }
      result := result % range;
      left := left[1..];
    }
    r := Drawn(result + min, left);
  }

  /** The i-th draw is the first whose remainder modulo the size of the range reaches the minimum. */
  predicate FirstReaching(min: int, max: int, tape: seq<Draw>, i: nat)
    requires min <= max
  {
    && i < |tape|
    && (forall j :: 0 <= j < i ==> BigEndian(tape[j]) % (max - min + 1) < min)
    && BigEndian(tape[i]) % (max - min + 1) >= min
  }

  /**
   * What is returned is the remainder of the first draw that reaches the minimum, shifted by the minimum; the draws
   * up to it are used up, and only a tape without such a draw is exhausted.
   */
  lemma {:induction false} SampleIsFirst(min: int, max: int, tape: seq<Draw>, i: nat)
    requires 1 <= min <= max
    ensures FirstReaching(min, max, tape, i) ==>
              Sample(min, max, tape) == Drawn(BigEndian(tape[i]) % (max - min + 1) + min, tape[i + 1..])
    ensures Sample(min, max, tape).Exhausted? ==> !FirstReaching(min, max, tape, i)
    decreases i
  {
    if FirstReaching(min, max, tape, i) && i > 0 {
      var later := tape[1..];
      hide BigEndian;
      assert forall j :: 0 <= j < i - 1 ==> later[j] == tape[j + 1];
      SampleIsFirst(min, max, later, i - 1);
    }
  }

  lemma {:induction false} SampleHasFirst(min: int, max: int, tape: seq<Draw>) returns (i: nat)
    requires 1 <= min <= max && Sample(min, max, tape).Drawn?
    ensures FirstReaching(min, max, tape, i)
    decreases |tape|
  {
    hide BigEndian;
    if BigEndian(tape[0]) % (max - min + 1) >= min {
      i := 0;
    } else {
      i := SampleHasFirst(min, max, tape[1..]);
      i := i + 1;
    }
  }

  predicate Yields(min: int, max: int, tape: seq<Draw>, i: nat, v: int, rest: seq<Draw>)
    requires min <= max
  {
    && FirstReaching(min, max, tape, i)
    && v == BigEndian(tape[i]) % (max - min + 1) + min && rest == tape[i + 1..]
  }

  /** A value is returned, and this rest of the tape left, exactly when the first reaching draw gives them. */
  lemma SampleExactly(min: int, max: int, tape: seq<Draw>, v: int, rest: seq<Draw>)
    requires 1 <= min <= max
    ensures Sample(min, max, tape) == Drawn(v, rest) <==>
              exists i: nat :: Yields(min, max, tape, i, v, rest)
  {
    if Sample(min, max, tape) == Drawn(v, rest) {
      var i := SampleHasFirst(min, max, tape);
      SampleIsFirst(min, max, tape, i);
      assert Yields(min, max, tape, i, v, rest);
    }
    if i: nat :| Yields(min, max, tape, i, v, rest) {
      SampleIsFirst(min, max, tape, i);
    }
  }

  /** These values are drawn one after the other, and this is what they leave of the tape. */
  ghost predicate DrawnInTurn(min: int, max: int, tape: seq<Draw>, values: seq<int>, rest: seq<Draw>)
    decreases |values|
  {
    if values == [] then rest == tape
    else
      && Sample(min, max, tape).Drawn? && Sample(min, max, tape).value == values[0]
      && DrawnInTurn(min, max, Sample(min, max, tape).rest, values[1..], rest)
  }

  lemma DrawnFirst(min: int, max: int, tape: seq<Draw>, v: int, left: seq<Draw>, values: seq<int>, rest: seq<Draw>)
    requires Sample(min, max, tape) == Drawn(v, left)
    ensures DrawnInTurn(min, max, tape, [v] + values, rest) <==> DrawnInTurn(min, max, left, values, rest)
  {
    assert ([v] + values)[1..] == values;
  }

  lemma OneDrawn(min: int, max: int, tape: seq<Draw>, v: int, rest: seq<Draw>)
    ensures DrawnInTurn(min, max, tape, [v], rest) <==> Sample(min, max, tape) == Drawn(v, rest)
  {
    hide Sample;
    assert [v][1..] == [];
    if Sample(min, max, tape).Drawn? {
      assert DrawnInTurn(min, max, Sample(min, max, tape).rest, [], rest) <==> rest == Sample(min, max, tape).rest;
    }
  }

  /** Every value returned lies between twice the minimum and the maximum, and at least one draw was used. */
  lemma {:induction false} SampleRange(min: int, max: int, tape: seq<Draw>)
    requires 1 <= min <= max
    ensures !Sample(min, max, tape).DivisionByZero?
    ensures Sample(min, max, tape).Drawn? ==>
              && 2 * min <= Sample(min, max, tape).value <= max
              && |Sample(min, max, tape).rest| < |tape|
    decreases |tape|
  {
    if tape != [] && BigEndian(tape[0]) % (max - min + 1) < min {
      SampleRange(min, max, tape[1..]);
    }
  }

  lemma SampleBelowBound(min: int, max: int, tape: seq<Draw>)
    requires 1 <= min <= max && Sample(min, max, tape).Drawn?
    ensures Sample(min, max, tape).value < min + Pow(WORD, 8)
  {
    BigEndianBound(tape[0]);
    if BigEndian(tape[0]) % (max - min + 1) >= min {
    } else {
      SampleBelowBound(min, max, tape[1..]);
    }
  }

  /** Exactly the values v with 2*min <= v <= max and v - min < 2^512 can be returned, so none when max < 2*min. */
  lemma SampleExact(min: int, max: int, v: int)
    requires 1 <= min <= max
    ensures (exists tape :: Sample(min, max, tape).Drawn? && Sample(min, max, tape).value == v)
       <==> 2 * min <= v <= max && v - min < Pow(WORD, 8)
  {
    if tape :| Sample(min, max, tape).Drawn? && Sample(min, max, tape).value == v {
      SampleRange(min, max, tape);
      SampleBelowBound(min, max, tape);
    }
    if 2 * min <= v <= max && v - min < Pow(WORD, 8) {
      DigitsValue(v - min, 8);
      RemainderSmall(v - min, max - min + 1);
      var draw: Draw := Digits(v - min, 8);
      assert Sample(min, max, [draw]) == Drawn(v, []);
    }
  }

  /** A call can return at all exactly when its least possible value fits; with 2 and 3 or with 1 and 1 it cannot. */
  lemma ReturnsExactly(min: int, max: int)
    requires 1 <= min <= max
    ensures (exists tape :: Sample(min, max, tape).Drawn?) <==> 2 * min <= max && min < Pow(WORD, 8)
    ensures forall tape :: Sample(2, 3, tape).Exhausted? && Sample(1, 1, tape).Exhausted?
  {
    SampleExact(min, max, 2 * min);
    if tape :| Sample(min, max, tape).Drawn? {
      SampleRange(min, max, tape);
      SampleBelowBound(min, max, tape);
    }
    forall tape ensures Sample(2, 3, tape).Exhausted? && Sample(1, 1, tape).Exhausted? {
      SampleRange(2, 3, tape);
      SampleRange(1, 1, tape);
    }
  }
}
