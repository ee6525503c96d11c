/** crypto_utils.cpp: modular exponentiation, the primality test, the parameter checks and the generator searches. */
module CryptoUtils {
  import opened ModularArithmetic
  import opened Primes
  import opened RandomSource

  datatype KeyPair = KeyPair(privateKey: int, publicKey: int)

  // ----- modular_pow

  /** Square and multiply. */
  method ModularPow(base: nat, exponent: nat, modulus: nat) returns (result: nat)
    requires modulus >= 1
    ensures result == Pow(base, exponent) % modulus
  {
    if modulus == 1 {
      return 0;
    }
    result := 1;
    var b := base % modulus;
    var exp := exponent;
    RemainderCongruent(base, modulus);
    PowCongruent(b, base, exponent, modulus);
    PowNonNegative(base, exponent);
    while exp > 0
      invariant 0 <= result < modulus && 0 <= b < modulus
      invariant Congruent(result * Pow(b, exp), Pow(base, exponent), modulus)
      decreases exp
    {
      ghost var r0 := result;
      var half := exp / 2;
      SquareStep(b, exp, modulus);
      if exp % 2 == 1 {
        result := (result * b) % modulus;
        OddStep(r0, b, half, modulus);
      } else {
        ProductCongruent(r0, r0, Pow((b * b) % modulus, half), Pow(b, exp), modulus);
      }
      b := (b * b) % modulus;
      exp := half;
    }
    RemainderSmall(result, modulus);
  }

  lemma SquareStep(b: nat, e: nat, m: nat)
    requires m > 0
    ensures Congruent(Pow((b * b) % m, e / 2), Pow(b, e - e % 2), m)
  {
    PowReduced(b * b, e / 2, m);
    PowOfProduct(b, b, e / 2);
    PowAdd(b, e / 2, e / 2);
  }

  lemma OddStep(r: nat, b: nat, h: nat, m: nat)
    requires m > 0 && Congruent(Pow((b * b) % m, h), Pow(b, 2 * h), m)
    ensures Congruent((r * b) % m * Pow((b * b) % m, h), r * Pow(b, 2 * h + 1), m)
  {
    RemainderCongruent(r * b, m);
    ProductCongruent((r * b) % m, r * b, Pow((b * b) % m, h), Pow(b, 2 * h), m);
    Associate(r, b, Pow(b, 2 * h));
  }

  // ----- miller_rabin_test

  function PowTwo(i: nat): (t: nat)
    ensures t >= 1
  {
    if i == 0 then 1 else 2 * PowTwo(i - 1)
  }

  /** m = 2^Twos(m) * OddPart(m). */
  function Twos(m: nat): nat
    requires m > 0
  {
    if m % 2 == 0 then 1 + Twos(m / 2) else 0
  }

  function OddPart(m: nat): (d: nat)
    requires m > 0
    ensures d % 2 == 1
  {
    if m % 2 == 0 then OddPart(m / 2) else m
  }

  lemma TwosAndOddPart(m: nat)
    requires m > 0
    ensures m == PowTwo(Twos(m)) * OddPart(m)
  {
    if m % 2 == 0 {
      TwosAndOddPart(m / 2);
      Associate(2, PowTwo(Twos(m / 2)), OddPart(m / 2));
    }
  }

  /** The i-th square of a^d: a^(2^i * d) modulo n, where d is the odd part of n - 1. */
  function Square(n: nat, a: nat, i: nat): int
    requires n >= 2
  {
    Pow(a, PowTwo(i) * OddPart(n - 1)) % n
  }

  /** Either a^d is 1, or one of its successive squares before a^(n-1) is -1. */
  ghost predicate StrongProbablePrime(n: nat, a: nat)
    requires n >= 2
  {
    Square(n, a, 0) == 1 || exists i: nat :: (i == 0 || i < Twos(n - 1)) && Square(n, a, i) == n - 1
  }

  lemma NextSquare(n: nat, a: nat, i: nat)
    requires n >= 2
    ensures Square(n, a, i + 1) == (Square(n, a, i) * Square(n, a, i)) % n
  {
    var e: nat := PowTwo(i) * OddPart(n - 1);
    assert PowTwo(i + 1) * OddPart(n - 1) == e + e by {
      Associate(2, PowTwo(i), OddPart(n - 1));
    }
    PowAdd(a, e, e);
    ReducedProduct(Pow(a, e), Pow(a, e), n);
  }

  lemma OneStaysOne(n: nat, a: nat, i: nat, j: nat)
    requires n >= 2 && i <= j && Square(n, a, i) == 1
    ensures Square(n, a, j) == 1
  {
    if i < j {
      OneStaysOne(n, a, i, j - 1);
      NextSquare(n, a, j - 1);
      RemainderSmall(1, n);
    }
  }

  method MillerRabinTest(n: nat, a: nat) returns (probablyPrime: bool)
    requires n >= 2
    ensures probablyPrime <==> StrongProbablePrime(n, a)
  {
    var d := n - 1;
    var r := 0;
    while d % 2 == 0
      invariant 0 < d && 0 <= r
      invariant Twos(n - 1) == r + Twos(d) && OddPart(n - 1) == OddPart(d)
      decreases d
    {
      d := d / 2;
      r := r + 1;
    }
    var x := ModularPow(a, d, n);
    assert x == Square(n, a, 0);
    if x == 1 || x == n - 1 {
      return true;
    }
    var i := 0;
    while i < r - 1
      invariant 0 <= i && (i == 0 || i < r)
      invariant x == Square(n, a, i)
      invariant forall j: nat :: j <= i ==> Square(n, a, j) != n - 1
      invariant Square(n, a, 0) != 1
    {
      NextSquare(n, a, i);
      x := (x * x) % n;
      if x == n - 1 {
        return true;
      }
      if x == 1 {
        forall j: nat | j == 0 || j < r ensures Square(n, a, j) != n - 1 {
          if j > i {
            OneStaysOne(n, a, i + 1, j);
          }
        }
        return false;
      }
      i := i + 1;
    }
    return false;
  }

  lemma MinusOneBelow(n: nat, a: nat, j: nat)
    requires IsPrime(n) && j <= Twos(n - 1) && Square(n, a, j) == 1
    ensures StrongProbablePrime(n, a)
  {
    if j > 0 {
      NextSquare(n, a, j - 1);
      var x := Square(n, a, j - 1);
      SquareRootsOfOne(n, x);
      RemainderSmall(x, n);
      if x == 1 {
        MinusOneBelow(n, a, j - 1);
      }
    }
  }

  /** The test never rejects a prime, whatever the base. */
  lemma PrimesPassMillerRabin(n: nat, a: nat)
    requires IsPrime(n) && a % n != 0
    ensures StrongProbablePrime(n, a)
  {
    Fermat(n, a);
    TwosAndOddPart(n - 1);
    MinusOneBelow(n, a, Twos(n - 1));
  }

  // ----- is_prime

  const SMALL_PRIMES: seq<nat> := [2, 3, 5, 7, 11, 13, 17, 19, 23, 29, 31, 37]

  datatype Verdict = Answer(isPrime: bool, rest: seq<Draw>) | OutOfDraws

  /** The Miller-Rabin rounds of is_prime: one base per round, stopping at the first failing base. */
  ghost function RoundsVerdict(n: nat, iterations: int, tape: seq<Draw>): Verdict
    requires n >= 6
    decreases if iterations < 0 then 0 else iterations
  {
    if iterations <= 0 then Answer(true, tape)
    else match Sample(2, n - 2, tape)
      case Drawn(a, rest) =>
        SampleRange(2, n - 2, tape);
        if StrongProbablePrime(n, a) then RoundsVerdict(n, iterations - 1, rest) else Answer(false, rest)
      case _ => OutOfDraws
  }

  ghost predicate AllPass(n: nat, bases: seq<int>)
    requires n >= 2
  {
    forall i :: 0 <= i < |bases| ==> bases[i] >= 0 && StrongProbablePrime(n, bases[i])
  }

  /** Bases drawn one after the other, one per round, leave this rest of the tape, and all of them pass. */
  ghost predicate PassedWith(n: nat, iterations: nat, tape: seq<Draw>, bases: seq<int>, rest: seq<Draw>)
    requires n >= 6
  {
    |bases| == iterations && DrawnInTurn(2, n - 2, tape, bases, rest) && AllPass(n, bases)
  }

  /** The last of these bases fails, at most as many as there are rounds, and the ones before it pass. */
  ghost predicate FailedWith(n: nat, iterations: nat, tape: seq<Draw>, bases: seq<int>, last: nat, rest: seq<Draw>)
    requires n >= 6
  {
    && |bases| < iterations && DrawnInTurn(2, n - 2, tape, bases + [last], rest)
    && AllPass(n, bases) && !StrongProbablePrime(n, last)
  }

  lemma RoundStep(n: nat, iterations: nat, tape: seq<Draw>, a: int, left: seq<Draw>)
    requires n >= 6 && iterations > 0 && Sample(2, n - 2, tape) == Drawn(a, left)
    ensures a >= 0
    ensures RoundsVerdict(n, iterations, tape)
         == if StrongProbablePrime(n, a) then RoundsVerdict(n, iterations - 1, left) else Answer(false, left)
  {
    SampleRange(2, n - 2, tape);
    hide StrongProbablePrime, Sample;
  }

  lemma {:induction false} PassedAnswersTrue(n: nat, iterations: nat, tape: seq<Draw>, bases: seq<int>, rest: seq<Draw>)
    requires n >= 6 && PassedWith(n, iterations, tape, bases, rest)
    ensures RoundsVerdict(n, iterations, tape) == Answer(true, rest)
    decreases iterations
  {
    hide StrongProbablePrime, Sample;
    if iterations > 0 {
      var first := Sample(2, n - 2, tape);
      RoundStep(n, iterations, tape, first.value, first.rest);
      PassedAnswersTrue(n, iterations - 1, first.rest, bases[1..], rest);
    }
  }

  lemma {:induction false} FailedAnswersFalse(n: nat, iterations: nat, tape: seq<Draw>, bases: seq<int>, last: nat,
                                              rest: seq<Draw>)
    requires n >= 6 && FailedWith(n, iterations, tape, bases, last, rest)
    ensures RoundsVerdict(n, iterations, tape) == Answer(false, rest)
    decreases iterations
  {
    hide StrongProbablePrime, Sample, RoundsVerdict;
    var first := Sample(2, n - 2, tape);
    if bases == [] {
      assert bases + [last] == [last];
      OneDrawn(2, n - 2, tape, last, rest);
      RoundStep(n, iterations, tape, last, rest);
    } else {
      assert (bases + [last])[1..] == bases[1..] + [last];
      RoundStep(n, iterations, tape, first.value, first.rest);
      FailedAnswersFalse(n, iterations - 1, first.rest, bases[1..], last, rest);
    }
  }

  /** The bases behind an answer of the rounds. */
  lemma {:induction false} BasesBehind(n: nat, iterations: nat, tape: seq<Draw>) returns (bases: seq<int>, last: nat)
    requires n >= 6 && RoundsVerdict(n, iterations, tape).Answer?
    ensures var v := RoundsVerdict(n, iterations, tape);
            if v.isPrime then PassedWith(n, iterations, tape, bases, v.rest)
            else FailedWith(n, iterations, tape, bases, last, v.rest)
    decreases iterations
  {
    bases, last := [], 0;
    if iterations > 0 {
      var first := Sample(2, n - 2, tape);
      RoundStep(n, iterations, tape, first.value, first.rest);
      hide StrongProbablePrime, Sample, DrawnInTurn, RoundsVerdict;
      if StrongProbablePrime(n, first.value) {
        var later;
        later, last := BasesBehind(n, iterations - 1, first.rest);
        bases := [first.value] + later;
        var v := RoundsVerdict(n, iterations, tape);
        DrawnFirst(2, n - 2, tape, first.value, first.rest, later, v.rest);
        DrawnFirst(2, n - 2, tape, first.value, first.rest, later + [last], v.rest);
        assert bases + [last] == [first.value] + (later + [last]);
      } else {
        last := first.value;
        OneDrawn(2, n - 2, tape, last, first.rest);
        assert [] + [last] == [last];
      }
    }
  }

  /**
   * The rounds answer true exactly when as many bases as rounds are drawn one after the other and all pass, and false
   * exactly when one fails after others that passed; both leave what those draws leave.
   */
  lemma RoundsExact(n: nat, iterations: nat, tape: seq<Draw>, rest: seq<Draw>)
    requires n >= 6
    ensures RoundsVerdict(n, iterations, tape) == Answer(true, rest) <==>
              exists bases :: PassedWith(n, iterations, tape, bases, rest)
    ensures RoundsVerdict(n, iterations, tape) == Answer(false, rest) <==>
              exists bases, last: nat :: FailedWith(n, iterations, tape, bases, last, rest)
  {
    hide PassedWith, FailedWith, RoundsVerdict;
    if RoundsVerdict(n, iterations, tape).Answer? {
      var bases, last := BasesBehind(n, iterations, tape);
    }
    if bases :| PassedWith(n, iterations, tape, bases, rest) {
      PassedAnswersTrue(n, iterations, tape, bases, rest);
    }
    if bases, last: nat :| FailedWith(n, iterations, tape, bases, last, rest) {
      FailedAnswersFalse(n, iterations, tape, bases, last, rest);
    }
  }

  ghost predicate HasSmallFactor(n: int) {
    exists p :: p in SMALL_PRIMES && n % p == 0
  }

  ghost function PrimalityVerdict(n: int, iterations: int, tape: seq<Draw>): Verdict {
    if n in SMALL_PRIMES then Answer(true, tape)
    else if n <= 1 || HasSmallFactor(n) then Answer(false, tape)
    else SmallNumbersHaveSmallFactors(n); RoundsVerdict(n, iterations, tape)
  }

  lemma SmallPrimesListed()
    ensures forall p :: p in SMALL_PRIMES <==> p in {2, 3, 5, 7, 11, 13, 17, 19, 23, 29, 31, 37}
  {
    assert SMALL_PRIMES[0] == 2 && SMALL_PRIMES[1] == 3 && SMALL_PRIMES[2] == 5 && SMALL_PRIMES[3] == 7;
    assert SMALL_PRIMES[4] == 11 && SMALL_PRIMES[5] == 13 && SMALL_PRIMES[6] == 17 && SMALL_PRIMES[7] == 19;
    assert SMALL_PRIMES[8] == 23 && SMALL_PRIMES[9] == 29 && SMALL_PRIMES[10] == 31 && SMALL_PRIMES[11] == 37;
  }

  lemma SmallNumbersHaveSmallFactors(n: int)
    ensures 1 < n < 41 ==> HasSmallFactor(n)
  {
    SmallPrimesListed();
    if 1 < n < 41 {
      assert n % 2 == 0 || n % 3 == 0 || n % 5 == 0 || n in SMALL_PRIMES;
      assert 2 in SMALL_PRIMES && 3 in SMALL_PRIMES && 5 in SMALL_PRIMES;
      assert n % n == 0;
    }
  }

  lemma SmallRoot(d: int)
    requires 2 <= d && d * d <= 37
    ensures d in {2, 3, 4, 5, 6}
  {
    if d >= 7 {
      SquareMonotone(7, d);
    }
  }

  lemma NoSmallDivisor(n: int, d: int)
    requires n in {2, 3, 5, 7, 11, 13, 17, 19, 23, 29, 31, 37} && d in {2, 3, 4, 5, 6} && d * d <= n
    ensures n % d != 0
  {
  }

  lemma SmallPrimesArePrime(n: int)
    requires n in SMALL_PRIMES
    ensures IsPrime(n)
  {
    SmallPrimesListed();
    hide SMALL_PRIMES;
    if !IsPrime(n) {
      var d := PrimeDivisor(n);
      assert d * d <= 37;
      SmallRoot(d);
      NoSmallDivisor(n, d);
      assert false;
    }
  }

  lemma SmallPrimesIndependent(i: nat, j: nat)
    requires i < j < |SMALL_PRIMES|
    ensures SMALL_PRIMES[i] < SMALL_PRIMES[j] && SMALL_PRIMES[j] % SMALL_PRIMES[i] != 0
  {
    SmallPrimesArePrime(SMALL_PRIMES[j]);
    assert Divides(SMALL_PRIMES[i], SMALL_PRIMES[j]) || !Divides(SMALL_PRIMES[i], SMALL_PRIMES[j]);
  }

  method IsProbablyPrime(n: int, iterations: int, tape: seq<Draw>) returns (v: Verdict)
    ensures v == PrimalityVerdict(n, iterations, tape)
  {
    SmallPrimesListed();
    if n <= 1 || n == 4 {
      assert n == 4 ==> n % 2 == 0 && 2 in SMALL_PRIMES;
      return Answer(false, tape);
    }
    if n <= 3 {
      return Answer(true, tape);
    }
    for k := 0 to |SMALL_PRIMES|
      invariant forall j :: 0 <= j < k ==> n % SMALL_PRIMES[j] != 0
    {
      var p := SMALL_PRIMES[k];
      if n == p {
        return Answer(true, tape);
      }
      if n % p == 0 {
        assert p in SMALL_PRIMES;
        assert n !in SMALL_PRIMES by {
          if j :| 0 <= j < |SMALL_PRIMES| && n == SMALL_PRIMES[j] {
            MultiplesOfEarlierPrimes(j, k);
          }
        }
        return Answer(false, tape);
      }
    }
    SmallNumbersHaveSmallFactors(n);
    assert !HasSmallFactor(n);
    var i := 0;
    var left := tape;
    while i < iterations
      invariant 0 <= i
      invariant RoundsVerdict(n, iterations - i, left) == RoundsVerdict(n, iterations, tape)
    {
      var sample := GenerateRandom(2, n - 2, left);
      SampleRange(2, n - 2, left);
      if !sample.Drawn? {
        return OutOfDraws;
      }
      var passed := MillerRabinTest(n, sample.value);
      left := sample.rest;
      if !passed {
        return Answer(false, left);
      }
      i := i + 1;
    }
    return Answer(true, left);
  }

  lemma MultiplesOfEarlierPrimes(j: nat, k: nat)
    requires j < |SMALL_PRIMES| && k < |SMALL_PRIMES| && SMALL_PRIMES[j] % SMALL_PRIMES[k] == 0
    ensures j == k
  {
    if j < k {
      SmallPrimesIndependent(j, k);
    } else if k < j {
      SmallPrimesIndependent(k, j);
    }
  }

  lemma RoundsAcceptPrimes(n: nat, iterations: int, tape: seq<Draw>)
    requires n >= 6 && IsPrime(n)
    ensures !(RoundsVerdict(n, iterations, tape).Answer? && !RoundsVerdict(n, iterations, tape).isPrime)
    decreases if iterations < 0 then 0 else iterations
  {
    if iterations > 0 && Sample(2, n - 2, tape).Drawn? {
      SampleRange(2, n - 2, tape);
      var a := Sample(2, n - 2, tape).value;
      RemainderSmall(a, n);
      PrimesPassMillerRabin(n, a);
      RoundsAcceptPrimes(n, iterations - 1, Sample(2, n - 2, tape).rest);
    }
  }

  /** is_prime never answers false on a prime, for any number of rounds and any draws. */
  lemma PrimesAccepted(n: int, iterations: int, tape: seq<Draw>)
    requires IsPrime(n)
    ensures PrimalityVerdict(n, iterations, tape).Answer? ==> PrimalityVerdict(n, iterations, tape).isPrime
  {
    if n !in SMALL_PRIMES {
      if p :| p in SMALL_PRIMES && n % p == 0 {
        PrimeDividingPrime(p, n);
      }
      SmallNumbersHaveSmallFactors(n);
      RoundsAcceptPrimes(n, iterations, tape);
    }
  }

  lemma PrimeDividingPrime(p: int, n: int)
    requires p in SMALL_PRIMES && IsPrime(n) && n % p == 0
    ensures p == n
  {
    SmallPrimesArePrime(p);
    if p < n {
      assert Divides(p, n);
    } else if n < p {
      RemainderSmall(n, p);
    }
  }

  /** A composite that is_prime accepts has no prime factor below 41, so it is at least 1681. */
  lemma AcceptedCompositesAreLarge(n: int, iterations: int, tape: seq<Draw>, d: int)
    requires PrimalityVerdict(n, iterations, tape).Answer? && PrimalityVerdict(n, iterations, tape).isPrime
    requires !IsPrime(n)
    ensures n >= 1681
    ensures IsPrime(d) && n % d == 0 ==> d >= 41
  {
    if n in SMALL_PRIMES {
      SmallPrimesArePrime(n);
    }
    assert n >= 2 && !HasSmallFactor(n);
    var e := PrimeDivisor(n);
    LargePrimeFactor(n, e);
    SquareMonotone(41, e);
    if IsPrime(d) && n % d == 0 {
      LargePrimeFactor(n, d);
    }
  }

  lemma LargePrimeFactor(n: int, d: int)
    requires !HasSmallFactor(n) && IsPrime(d) && n % d == 0
    ensures d >= 41
  {
    SmallNumbersHaveSmallFactors(d);
    if p :| p in SMALL_PRIMES && d % p == 0 {
      PrimeDividingPrime(p, d);
    }
  }

  /** Below 1681 the answer is exact for every draw. */
  lemma ExactBelow1681(n: int, iterations: int, tape: seq<Draw>)
    requires n < 1681 && PrimalityVerdict(n, iterations, tape).Answer?
    ensures PrimalityVerdict(n, iterations, tape).isPrime <==> IsPrime(n)
  {
    if IsPrime(n) {
      PrimesAccepted(n, iterations, tape);
    } else if PrimalityVerdict(n, iterations, tape).isPrime {
      AcceptedCompositesAreLarge(n, iterations, tape, 2);
    }
  }

  /** A prime factor of a composite is always a witness against it. */
  lemma FactorIsWitness(n: nat, e: nat)
    requires IsPrime(e) && n % e == 0 && e < n
    ensures !StrongProbablePrime(n, e)
  {
    forall i: nat ensures Square(n, e, i) % e == 0 {
      var k: nat := PowTwo(i) * OddPart(n - 1);
      assert k >= 1 by {
        MultipleIsLarge(PowTwo(i), OddPart(n - 1));
      }
      MultipleIsZero(Pow(e, k - 1), e);
      var x := Pow(e, k);
      assert x == e * Pow(e, k - 1);
      RemainderOfFactor(x, n, e);
    }
    RemainderSmall(1, e);
    CongruentIffDivides(n, n - 1, e);
  }

  /**
   * With at least one round, a number below 2^1024 is answered true for all draws exactly when it is prime: a
   * composite one has a witness that can be drawn.
   */
  lemma AlwaysAcceptedExact(n: int, iterations: int)
    requires n < Pow(WORD, 16) && iterations >= 1
    ensures (forall tape | PrimalityVerdict(n, iterations, tape).Answer? :: PrimalityVerdict(n, iterations, tape).isPrime)
       <==> IsPrime(n)
  {
    if IsPrime(n) {
      forall tape | PrimalityVerdict(n, iterations, tape).Answer?
        ensures PrimalityVerdict(n, iterations, tape).isPrime
      {
        PrimesAccepted(n, iterations, tape);
      }
    } else {
      var tape := RejectingTape(n, iterations);
      assert !PrimalityVerdict(n, iterations, tape).isPrime;
    }
  }

  lemma RejectingTape(n: int, iterations: int) returns (tape: seq<Draw>)
    requires n < Pow(WORD, 16) && iterations >= 1 && !IsPrime(n)
    ensures PrimalityVerdict(n, iterations, tape).Answer? && !PrimalityVerdict(n, iterations, tape).isPrime
  {
    tape := [];
    if n in SMALL_PRIMES {
      SmallPrimesArePrime(n);
    } else if n > 1 && !HasSmallFactor(n) {
      var e := DrawableFactor(n);
      FactorIsWitness(n, e);
      SampleExact(2, n - 2, e);
      tape :| Sample(2, n - 2, tape).Drawn? && Sample(2, n - 2, tape).value == e;
    }
  }

  /** The prime factor whose square fits in n is one that generate_random can return. */
  lemma DrawableFactor(n: int) returns (e: nat)
    requires 1 < n < Pow(WORD, 16) && !HasSmallFactor(n) && !IsPrime(n)
    ensures n >= 6 && IsPrime(e) && n % e == 0 && 4 <= e <= n - 2 && e < Pow(WORD, 8)
  {
    SmallNumbersHaveSmallFactors(n);
    e := PrimeDivisor(n);
    LargePrimeFactor(n, e);
    hide *;
    SquareAtLeastTwice(e);
    SquareRootBelow(e, n);
  }

  lemma SquareAtLeastTwice(e: nat)
    requires e >= 2
    ensures e * e >= 2 * e
  {
  }

  lemma SquareRootBelow(e: nat, n: nat)
    requires e * e <= n < Pow(WORD, 16)
    ensures e < Pow(WORD, 8)
  {
    hide Pow;
    if e >= Pow(WORD, 8) {
      PowPositive(WORD, 8);
      SquareMonotone(Pow(WORD, 8), e);
      PowAdd(WORD, 8, 8);
    }
  }
}
