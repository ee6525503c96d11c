/** crypto_utils.cpp: what the two parameter checks accept and refuse, for every input and every tape. */
module ParameterChecks {
  import opened ModularArithmetic
  import opened Primes
  import opened RandomSource
  import opened CryptoUtils
  import opened Generators
  import opened Witnesses

  /** A prime, or a composite number the test can be deceived about. */
  ghost predicate Plausible(n: int) {
    IsPrime(n) || (n >= 1681 && forall d :: IsPrime(d) && n % d == 0 ==> d >= 41)
  }

  /** All of the k bases drawn for a composite n deceive the test. */
  ghost predicate Deceived(n: int, k: nat, tape: seq<Draw>) {
    n >= 6 && BasesDrawn(n, k, tape) in Sequences(DrawnLiars(n), k)
  }

  lemma AcceptedMeans(n: int, k: nat, tape: seq<Draw>)
    requires PrimalityVerdict(n, k, tape).Answer? && PrimalityVerdict(n, k, tape).isPrime
    ensures Plausible(n) && (IsPrime(n) || Deceived(n, k, tape))
  {
    if !IsPrime(n) {
      forall d | IsPrime(d) && n % d == 0 ensures d >= 41 {
        AcceptedCompositesAreLarge(n, k, tape, d);
      }
      AcceptedCompositesAreLarge(n, k, tape, 2);
      AcceptedExact(n, k, tape);
    }
  }

  // ----- tapes on which a prime is accepted

  /** Draws of which each yields the base 4. */
  lemma FourDrawn(n: nat) returns (draw: Draw)
    requires n >= 6
    ensures forall tape: seq<Draw> :: Sample(2, n - 2, [draw] + tape) == Drawn(4, tape)
  {
    PowTwoWords();
    DigitsValue(2, 8);
    RemainderSmall(2, n - 3);
    draw := Digits(2, 8);
    var d := draw;
    forall tape: seq<Draw> ensures Sample(2, n - 2, [d] + tape) == Drawn(4, tape) {
      assert ([d] + tape)[0] == d && ([d] + tape)[1..] == tape;
    }
  }

  lemma PowTwoWords()
    ensures 2 < Pow(WORD, 8)
  {
    PowPositive(WORD, 7);
    assert Pow(WORD, 8) == WORD * Pow(WORD, 7);
  }

  lemma {:induction false} RoundsPrefix(n: nat, k: nat) returns (prefix: seq<Draw>)
    requires n >= 6 && IsPrime(n)
    ensures forall tape: seq<Draw> :: RoundsVerdict(n, k, prefix + tape) == Answer(true, tape)
  {
    prefix := [];
    if k == 0 {
      forall tape: seq<Draw> ensures RoundsVerdict(n, k, [] + tape) == Answer(true, tape) {
        assert [] + tape == tape;
      }
    } else {
      var draw := FourDrawn(n);
      var later := RoundsPrefix(n, k - 1);
      RemainderSmall(4, n);
      PrimesPassMillerRabin(n, 4);
      hide Sample, StrongProbablePrime, IsPrime, RoundsVerdict;
      prefix := [draw] + later;
      var all := prefix;
      forall tape: seq<Draw> ensures RoundsVerdict(n, k, all + tape) == Answer(true, tape) {
        assert all + tape == [draw] + (later + tape);
        RoundStep(n, k, all + tape, 4, later + tape);
      }
    }
  }

  /** After these draws a prime is accepted, whatever draws follow. */
  lemma AcceptingPrefix(n: int, k: nat) returns (prefix: seq<Draw>)
    requires IsPrime(n)
    ensures forall tape: seq<Draw> :: PrimalityVerdict(n, k, prefix + tape) == Answer(true, tape)
  {
    if n in SMALL_PRIMES {
      prefix := [];
      forall tape: seq<Draw> ensures PrimalityVerdict(n, k, [] + tape) == Answer(true, tape) {
        assert [] + tape == tape;
      }
    } else {
      if p :| p in SMALL_PRIMES && n % p == 0 {
        PrimeDividingPrime(p, n);
      }
      SmallNumbersHaveSmallFactors(n);
      prefix := RoundsPrefix(n, k);
    }
  }

  // ----- validate_dsa_parameters

  /** What it takes to accept: the arithmetic conditions, and two numbers that pass 50 rounds. */
  lemma DsaAcceptedMeans(p: int, q: int, g: int, tape: seq<Draw>)
    requires DsaVerdict(p, q, g, tape).Answer? && DsaVerdict(p, q, g, tape).isPrime
    ensures DsaChecks(p, q, g) && Plausible(p) && Plausible(q)
    ensures IsPrime(p) || Deceived(p, 50, tape)
    ensures IsPrime(q) || Deceived(q, 50, PrimalityVerdict(p, 50, tape).rest)
    ensures DsaVerdict(p, q, g, tape).rest == PrimalityVerdict(q, 50, PrimalityVerdict(p, 50, tape).rest).rest
  {
    AcceptedMeans(p, 50, tape);
    AcceptedMeans(q, 50, PrimalityVerdict(p, 50, tape).rest);
  }

  /** Below 1681 the check is exact for every draw. */
  lemma DsaExactBelow1681(p: int, q: int, g: int, tape: seq<Draw>)
    requires p < 1681 && q < 1681 && DsaVerdict(p, q, g, tape).Answer?
    ensures DsaVerdict(p, q, g, tape).isPrime <==> DsaGroup(p, q, g)
  {
    if DsaVerdict(p, q, g, tape).isPrime {
      DsaAcceptedMeans(p, q, g, tape);
    }
    if DsaGroup(p, q, g) {
      DsaCheckExact(p, q, g, tape);
    }
  }

  /** Below 2^1024 exactly the groups of the standard are accepted on every tape that gives an answer. */
  lemma DsaAlwaysAcceptedExact(p: int, q: int, g: int)
    requires p < Pow(WORD, 16) && q < Pow(WORD, 16)
    ensures (forall tape | DsaVerdict(p, q, g, tape).Answer? :: DsaVerdict(p, q, g, tape).isPrime)
       <==> DsaGroup(p, q, g)
  {
    if DsaGroup(p, q, g) {
      forall tape | DsaVerdict(p, q, g, tape).Answer? ensures DsaVerdict(p, q, g, tape).isPrime {
        DsaCheckExact(p, q, g, tape);
      }
    } else {
      var tape := DsaRefusingTape(p, q, g);
      assert !DsaVerdict(p, q, g, tape).isPrime;
    }
  }

  lemma DsaRefusingTape(p: int, q: int, g: int) returns (tape: seq<Draw>)
    requires p < Pow(WORD, 16) && q < Pow(WORD, 16) && !DsaGroup(p, q, g)
    ensures DsaVerdict(p, q, g, tape).Answer? && !DsaVerdict(p, q, g, tape).isPrime
  {
    hide PrimalityVerdict, IsPrime;
    if !IsPrime(p) {
      tape := RejectingTape(p, 50);
    } else {
      var first := AcceptingPrefix(p, 50);
      var second;
      if !IsPrime(q) {
        second := RejectingTape(q, 50);
      } else {
        second := AcceptingPrefix(q, 50);
        assert second == second + [];
      }
      tape := first + second;
      assert PrimalityVerdict(p, 50, tape) == Answer(true, second);
    }
  }

  // ----- validate_el_gamal_parameters

  /** On a prime modulus: which error, or none. */
  lemma ElGamalVerdictExact(p: int, g: int, tape: seq<Draw>)
    requires IsPrime(p) && !ElGamalVerdict(p, g, tape).CheckOutOfDraws?
    ensures var inRange, generates := 2 <= g < p, Pow(g, (p - 1) / 2) % p != 1 && (g * g) % p != 1;
            var v := ElGamalVerdict(p, g, tape);
            && (v == Rejected(GeneratorOutOfRange) <==> !inRange)
            && (v == Rejected(NotPrimitiveRoot) <==> inRange && !generates)
            && (v.Accepted? <==> inRange && generates)
            && (v.Accepted? ==> v == Accepted(PrimalityVerdict(p, 50, tape).rest))
  {
    PrimesAccepted(p, 50, tape);
    if 2 <= g < p {
      OddPrime(p);
      HalfTwice(p);
      SquareIsPow2(g);
    }
  }

  lemma OddPrime(p: int)
    requires IsPrime(p) && p >= 3
    ensures p % 2 == 1
  {
    assert !Divides(2, p);
  }

  lemma HalfTwice(p: int)
    requires p >= 3 && p % 2 == 1
    ensures (p - 1) / ((p - 1) / 2) == 2
  {
    HalfOfOdd(p, (p - 1) / 2);
  }

  lemma HalfOfOdd(p: int, h: int)
    requires h >= 1 && p == 2 * h + 1
    ensures (p - 1) / h == 2
  {
    RemainderUnique(p - 1, h, 2, 0);
  }

  /** A modulus that is not prime is reported as such, unless the test is deceived about it. */
  lemma ElGamalComposite(p: int, g: int, tape: seq<Draw>)
    requires !IsPrime(p) && !ElGamalVerdict(p, g, tape).CheckOutOfDraws?
    ensures ElGamalVerdict(p, g, tape) == Rejected(NotPrime) || (Plausible(p) && Deceived(p, 50, tape))
  {
    if ElGamalVerdict(p, g, tape) != Rejected(NotPrime) {
      AcceptedMeans(p, 50, tape);
    }
  }

  /** Below 2^1024 the parameters accepted on every tape that gives an answer. */
  lemma ElGamalAlwaysAcceptedExact(p: int, g: int)
    requires p < Pow(WORD, 16)
    ensures (forall tape | !ElGamalVerdict(p, g, tape).CheckOutOfDraws? :: ElGamalVerdict(p, g, tape).Accepted?)
       <==> IsPrime(p) && 2 <= g < p && Pow(g, (p - 1) / 2) % p != 1 && (g * g) % p != 1
  {
    hide PrimalityVerdict;
    if IsPrime(p) {
      var tape := AcceptingPrefix(p, 50);
      assert tape == tape + [];
      assert PrimalityVerdict(p, 50, tape) == Answer(true, []);
      forall t | !ElGamalVerdict(p, g, t).CheckOutOfDraws?
        ensures ElGamalVerdict(p, g, t).Accepted? <==>
                  2 <= g < p && Pow(g, (p - 1) / 2) % p != 1 && (g * g) % p != 1
      {
        ElGamalVerdictExact(p, g, t);
      }
      assert !ElGamalVerdict(p, g, tape).CheckOutOfDraws?;
    } else {
      var tape := RejectingTape(p, 50);
      assert ElGamalVerdict(p, g, tape) == Rejected(NotPrime);
    }
  }
}
