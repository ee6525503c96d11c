/** crypto_utils.cpp: the two generator searches and the parameter checks. */
module Generators {
  import opened ModularArithmetic
  import opened Primes
  import opened Orders
  import opened RandomSource
  import opened CryptoUtils
  import opened Wrappers

  /** The test both searches apply: neither g^2 nor g^((p-1)/2) is 1 modulo p. */
  ghost predicate Passes(g: int, p: int)
    requires p >= 2
  {
    Pow(g, 2) % p != 1 && Pow(g, (p - 1) / 2) % p != 1
  }

  // ----- find_generator

  /** What the exhaustive search answers: the least passing g below p, or nothing when none passes. */
  ghost predicate ExhaustiveResult(p: int, r: Option<int>) {
    match r
    case Some(g) => 2 <= g < p && Passes(g, p) && forall h :: 2 <= h < g ==> !Passes(h, p)
    case None => forall h :: 2 <= h < p ==> !Passes(h, p)
  }

  method FindGenerator(p: int) returns (r: Option<int>)
    ensures ExhaustiveResult(p, r)
  {
    var q := (p - 1) / 2;
    var g := 2;
    while g < p
      invariant 2 <= g
      invariant forall h :: 2 <= h < g && h < p ==> !Passes(h, p)
    {
      var g2 := ModularPow(g, 2, p);
      if g2 != 1 {
        var gq := ModularPow(g, q, p);
        if gq != 1 {
          return Some(g);
        }
      }
      g := g + 1;
    }
    return None;
  }

  // ----- find_valid_generator

  const CANDIDATES: seq<int> := [
    2, 3, 5, 7, 11,
    13, 17, 19, 23, 29,
    31, 37, 41, 43, 47,
    53, 59, 61, 67, 71,
    73, 79, 83, 89, 97
  ]

  /** What the candidate search answers: the first passing entry of the table below p, or nothing. */
  ghost predicate CandidateResult(p: int, r: Option<int>) {
    match r
    case Some(g) => g in CANDIDATES && g < p && Passes(g, p) && forall h :: h in CANDIDATES && h < g ==> !Passes(h, p)
    case None => forall h :: h in CANDIDATES && h < p ==> !Passes(h, p)
  }

  lemma CandidatesIncrease(i: nat, j: nat)
    requires i < j < |CANDIDATES|
    ensures 2 <= CANDIDATES[i] < CANDIDATES[j]
    decreases j
  {
    if i < j - 1 {
      CandidatesIncrease(i, j - 1);
    }
  }

  lemma CandidateAtLeastTwo(k: nat)
    requires k < |CANDIDATES|
    ensures CANDIDATES[k] >= 2
  {
    if k > 0 {
      CandidatesIncrease(0, k);
    }
  }

  /** A candidate below entry k comes before it. */
  lemma CandidateBefore(h: int, k: nat) returns (j: nat)
    requires h in CANDIDATES && k <= |CANDIDATES| && (k < |CANDIDATES| ==> h < CANDIDATES[k])
    ensures j < k && CANDIDATES[j] == h
  {
    hide CANDIDATES;
    j :| 0 <= j < |CANDIDATES| && CANDIDATES[j] == h;
    if k < j {
      CandidatesIncrease(k, j);
    }
  }

  /** None of the first k candidates passes. */
  ghost predicate FailedUpTo(p: int, k: nat) {
    k <= |CANDIDATES| && forall j :: 0 <= j < k ==> 2 <= CANDIDATES[j] < p && !Passes(CANDIDATES[j], p)
  }

  lemma NothingPasses(p: int, k: nat)
    requires FailedUpTo(p, k) && (k == |CANDIDATES| || CANDIDATES[k] >= p)
    ensures CandidateResult(p, None)
  {
    forall h | h in CANDIDATES && h < p ensures h >= 2 && !Passes(h, p) {
      var j := CandidateBefore(h, k);
      hide CANDIDATES;
    }
  }

  lemma FirstPasses(p: int, k: nat)
    requires FailedUpTo(p, k) && k < |CANDIDATES| && 2 <= CANDIDATES[k] < p && Passes(CANDIDATES[k], p)
    ensures CandidateResult(p, Some(CANDIDATES[k]))
  {
    hide CANDIDATES;
    forall h | h in CANDIDATES && h < CANDIDATES[k] ensures !Passes(h, p) {
      var j := CandidateBefore(h, k);
    }
  }

  method FindValidGenerator(p: int) returns (r: Option<int>)
    ensures CandidateResult(p, r)
  {
    hide CANDIDATES, CandidateResult, Pow;
    for k := 0 to |CANDIDATES|
      invariant FailedUpTo(p, k)
    {
      var g := CANDIDATES[k];
      CandidateAtLeastTwo(k);
      if g >= p {
        NothingPasses(p, k);
        return None;
      }
      var g2 := ModularPow(g, 2, p);
      var gq := ModularPow(g, (p - 1) / 2, p);
      if g2 != 1 && gq != 1 {
        FirstPasses(p, k);
        return Some(g);
      }
    }
    NothingPasses(p, |CANDIDATES|);
    return None;
  }

  // ----- the candidate search refines the exhaustive one

  /** A failing factor of some g < p fails the second test: only p - 1 fails the first one, and it is too large. */
  lemma FailingFactor(p: int, a: int, b: int)
    requires IsPrime(p) && 2 <= a && 2 <= b && a * b < p && !Passes(a, p)
    ensures Pow(a, (p - 1) / 2) % p == 1
  {
    if Pow(a, 2) % p == 1 {
      SquareIsPow2(a);
      SquareRootsOfOne(p, a);
      MultipleIsLarge(a, b - 2);
      assert a * b == 2 * a + a * (b - 2);
      RemainderSmall(a, p);
    }
  }

  lemma FailingProduct(p: int, a: int, b: int)
    requires IsPrime(p) && 2 <= a && 2 <= b && a * b < p && !Passes(a, p) && !Passes(b, p)
    ensures !Passes(a * b, p)
  {
    var q := (p - 1) / 2;
    FailingFactor(p, a, b);
    assert b * a == a * b;
    FailingFactor(p, b, a);
    RemainderSmall(1, p);
    PowOfProduct(a, b, q);
    ProductCongruent(Pow(a, q), 1, Pow(b, q), 1, p);
  }

  /** The least passing g is prime: a product of two smaller failing numbers fails as well. */
  lemma LeastGeneratorIsPrime(p: int, g: int)
    requires IsPrime(p) && ExhaustiveResult(p, Some(g))
    ensures IsPrime(g)
  {
    if !IsPrime(g) {
      var a := PrimeDivisor(g);
      assert a * (g / a) == g;
      CofactorRange(a, g / a, g);
      FailingProduct(p, a, g / a);
    }
  }

  lemma CandidatesListed()
    ensures forall g :: g in CANDIDATES <==> g in {2, 3, 5, 7, 11, 13, 17, 19, 23, 29, 31, 37, 41, 43, 47,
                                                   53, 59, 61, 67, 71, 73, 79, 83, 89, 97}
  {
    assert CANDIDATES[..5] == [2, 3, 5, 7, 11] && CANDIDATES[5..10] == [13, 17, 19, 23, 29];
    assert CANDIDATES[10..15] == [31, 37, 41, 43, 47] && CANDIDATES[15..20] == [53, 59, 61, 67, 71];
    assert CANDIDATES[20..] == [73, 79, 83, 89, 97];
    assert CANDIDATES == CANDIDATES[..5] + CANDIDATES[5..10] + CANDIDATES[10..15] + CANDIDATES[15..20] + CANDIDATES[20..];
  }

  lemma SieveUpTo48(g: int)
    requires 2 <= g <= 48
    requires (g % 2 == 0 ==> g == 2) && (g % 3 == 0 ==> g == 3) && (g % 5 == 0 ==> g == 5)
    ensures g in {2, 3, 5, 7, 11, 13, 17, 19, 23, 29, 31, 37, 41, 43, 47}
  {
  }

  lemma SieveUpTo72(g: int)
    requires 49 <= g <= 72 && g % 2 != 0 && g % 3 != 0 && g % 5 != 0 && g % 7 != 0
    ensures g in {53, 59, 61, 67, 71}
  {
  }

  lemma SieveUpTo97(g: int)
    requires 73 <= g <= 97 && g % 2 != 0 && g % 3 != 0 && g % 5 != 0 && g % 7 != 0
    ensures g in {73, 79, 83, 89, 97}
  {
  }

  /** The table holds every prime up to 97. */
  lemma PrimesUpTo97(g: int)
    requires IsPrime(g) && g <= 97
    ensures g in CANDIDATES
  {
    CandidatesListed();
    hide CANDIDATES;
    assert Divides(2, g) ==> g == 2;
    assert Divides(3, g) ==> g == 3;
    assert Divides(5, g) ==> g == 5;
    assert Divides(7, g) ==> g == 7;
    if g <= 48 {
      SieveUpTo48(g);
    } else if g <= 72 {
      SieveUpTo72(g);
    } else {
      SieveUpTo97(g);
    }
  }

  /** On a prime, the candidate search finds exactly what the exhaustive one finds, as far as the table reaches. */
  lemma CandidateSearchRefines(p: int, slow: Option<int>, fast: Option<int>)
    requires IsPrime(p) && ExhaustiveResult(p, slow) && CandidateResult(p, fast)
    ensures fast == if slow.Some? && slow.value <= 97 then slow else None
  {
    CandidatesListed();
    if slow.Some? {
      LeastGeneratorIsPrime(p, slow.value);
      if slow.value <= 97 {
        PrimesUpTo97(slow.value);
      }
    }
  }

  // ----- the exhaustive search succeeds

  /** On every prime the exhaustive search returns exactly when the prime is above 3. */
  lemma SearchSucceedsOnPrimes(p: int, r: Option<int>)
    requires IsPrime(p) && ExhaustiveResult(p, r)
    ensures r.Some? <==> p > 3
  {
    if p > 3 {
      var g := NonResidueExists(p);
      if Pow(g, 2) % p == 1 {
        SquareIsPow2(g);
        SquareRootsOfOne(p, g);
        RemainderSmall(g, p);
      }
      assert Passes(g, p);
    } else if p == 3 {
      SquareIsPow2(2);
      assert !Passes(2, 3);
    }
  }

  lemma SquareIsPow2(g: int)
    ensures Pow(g, 2) == g * g
  {
    PowFirst(g);
  }

  lemma OddPowerOfNegation(x: int, q: nat)
    requires q % 2 == 1
    ensures Pow(-x, q) == -Pow(x, q)
    decreases q
  {
    if q == 1 {
      PowFirst(x);
      PowFirst(-x);
    } else {
      OddPowerOfNegation(x, q - 2);
      PowAdd(x, 2, q - 2);
      PowAdd(-x, 2, q - 2);
      SquareIsPow2(x);
      SquareIsPow2(-x);
      assert x * x * -Pow(x, q - 2) == -(x * x * Pow(x, q - 2));
    }
  }

  lemma NegationCongruent(p: nat, x: int, e: nat)
    requires p > 0
    ensures Congruent(Pow(p - x, e), Pow(-x, e), p)
  {
    AddMultiple(-x, 1, p);
    PowCongruent(p - x, -x, e, p);
  }

  lemma NegatedRoot(p: nat, x: int, q: nat)
    requires p > 2 && q % 2 == 1 && Pow(x, q) % p == 1
    ensures Pow(p - x, q) % p == p - 1
  {
    NegationCongruent(p, x, q);
    OddPowerOfNegation(x, q);
    NegatedOne(p, Pow(x, q));
  }

  lemma SquareOfNegation(x: int)
    ensures Pow(-x, 2) == x * x
  {
    SquareIsPow2(-x);
  }

  lemma NegatedSquare(p: nat, x: int)
    requires p > 0
    ensures Congruent(Pow(p - x, 2), x * x, p)
  {
    NegationCongruent(p, x, 2);
    SquareOfNegation(x);
  }

  lemma MinusTwoPasses(p: int)
    requires p % 4 == 3 && p > 3 && Pow(2, (p - 1) / 2) % p == 1
    ensures Passes(p - 2, p)
  {
    NegatedRoot(p, 2, (p - 1) / 2);
    NegatedSquare(p, 2);
    RemainderSmall(4, p);
  }

  /** On p = 3 (mod 4) above 3, prime or not, 2 passes or p - 2 does, so the search returns some g <= p - 2. */
  lemma SearchSucceedsOnThreeModFour(p: int, r: Option<int>)
    requires p % 4 == 3 && p > 3 && ExhaustiveResult(p, r)
    ensures r.Some? && r.value <= p - 2
  {
    SquareIsPow2(2);
    RemainderSmall(4, p);
    if !Passes(2, p) {
      MinusTwoPasses(p);
    }
  }

  lemma NegatedOne(p: int, x: int)
    requires p > 2 && x % p == 1
    ensures (-x) % p == p - 1
  {
    assert -x == p * (-(x / p) - 1) + (p - 1);
    RemainderUnique(-x, p, -(x / p) - 1, p - 1);
  }

  // ----- validate_el_gamal_parameters

  datatype ElGamalError = NotPrime | GeneratorOutOfRange | NotPrimitiveRoot

  datatype ElGamalCheck = Accepted(rest: seq<Draw>) | Rejected(error: ElGamalError) | CheckOutOfDraws

  ghost predicate ExponentTests(p: int, g: int)
    requires p >= 3
  {
    Pow(g, (p - 1) / 2) % p != 1 && Pow(g, (p - 1) / ((p - 1) / 2)) % p != 1
  }

  ghost function ElGamalVerdict(p: int, g: int, tape: seq<Draw>): ElGamalCheck {
    match PrimalityVerdict(p, 50, tape)
    case OutOfDraws => CheckOutOfDraws
    case Answer(isPrime, rest) =>
      if !isPrime then Rejected(NotPrime)
      else if g < 2 || g >= p then Rejected(GeneratorOutOfRange)
      else if ExponentTests(p, g) then Accepted(rest)
      else Rejected(NotPrimitiveRoot)
  }

  /** The loop of the check over the two factors of p - 1. */
  method PassesExponentTests(p: int, g: int) returns (passes: bool)
    requires p >= 3 && g >= 0
    ensures passes <==> ExponentTests(p, g)
  {
    var half := (p - 1) / 2;
    var factors := [2, half];
    ghost var exponents := [half, (p - 1) / half];
    for k := 0 to 2
      invariant forall j :: 0 <= j < k ==> Pow(g, exponents[j]) % p != 1
    {
      var e: nat := (p - 1) / factors[k];
      assert e == exponents[k];
      var power := ModularPow(g, e, p);
      if power == 1 {
        return false;
      }
    }
    assert Pow(g, exponents[0]) % p != 1 && Pow(g, exponents[1]) % p != 1;
    return true;
  }

  method ValidateElGamalParameters(p: int, g: int, tape: seq<Draw>) returns (r: ElGamalCheck)
    ensures r == ElGamalVerdict(p, g, tape)
  {
    var v := IsProbablyPrime(p, 50, tape);
    if v.OutOfDraws? {
      return CheckOutOfDraws;
    }
    if !v.isPrime {
      return Rejected(NotPrime);
    }
    if g < 2 || g >= p {
      return Rejected(GeneratorOutOfRange);
    }
    var passes := PassesExponentTests(p, g);
    if !passes {
      return Rejected(NotPrimitiveRoot);
    }
    return Accepted(v.rest);
  }

  lemma HalfOfSafePrime(p: int, q: int)
    requires q >= 2 && p == 2 * q + 1
    ensures (p - 1) / 2 == q && (p - 1) / ((p - 1) / 2) == 2
  {
    assert p - 1 == q * 2 + 0;
    RemainderUnique(p - 1, q, 2, 0);
  }

  /** On a safe prime the check accepts g exactly when g is a primitive root, and reports that error otherwise. */
  lemma ElGamalCheckExact(p: int, q: int, g: int, tape: seq<Draw>)
    requires IsPrime(p) && IsPrime(q) && p == 2 * q + 1 && 2 <= g < p
    requires !ElGamalVerdict(p, g, tape).CheckOutOfDraws?
    ensures ElGamalVerdict(p, g, tape).Accepted? <==> IsPrimitiveRoot(g, p)
    ensures ElGamalVerdict(p, g, tape).Rejected? ==> ElGamalVerdict(p, g, tape).error == NotPrimitiveRoot
  {
    PrimesAccepted(p, 50, tape);
    HalfOfSafePrime(p, q);
    RemainderSmall(g, p);
    SafePrimePrimitiveRoot(g, p, q);
  }

  /** What the exhaustive search finds for a safe prime is a primitive root, and the check accepts it. */
  lemma FoundGeneratorIsAccepted(p: int, q: int, r: Option<int>, tape: seq<Draw>)
    requires IsPrime(p) && IsPrime(q) && p == 2 * q + 1 && ExhaustiveResult(p, r)
    ensures r.Some? && IsPrimitiveRoot(r.value, p)
    ensures ElGamalVerdict(p, r.value, tape).Accepted? || ElGamalVerdict(p, r.value, tape).CheckOutOfDraws?
  {
    SearchSucceedsOnPrimes(p, r);
    HalfOfSafePrime(p, q);
    RemainderSmall(r.value, p);
    SafePrimePrimitiveRoot(r.value, p, q);
    PrimesAccepted(p, 50, tape);
  }

  // ----- validate_dsa_parameters

  /** The conditions section 4.1 of FIPS 186-4 puts on p, q and g. */
  ghost predicate DsaGroup(p: int, q: int, g: int) {
    IsPrime(p) && IsPrime(q) && DsaChecks(p, q, g)
  }

  ghost predicate DsaChecks(p: int, q: int, g: int) {
    p >= 2 && q >= 2 && (p - 1) % q == 0 && 2 <= g < p && Pow(g, q) % p == 1
  }

  ghost function DsaVerdict(p: int, q: int, g: int, tape: seq<Draw>): Verdict {
    match PrimalityVerdict(p, 50, tape)
    case OutOfDraws => OutOfDraws
    case Answer(pPrime, rest) =>
      if !pPrime then Answer(false, rest)
      else match PrimalityVerdict(q, 50, rest)
        case OutOfDraws => OutOfDraws
        case Answer(qPrime, rest') => Answer(qPrime && DsaChecks(p, q, g), rest')
  }

  lemma AcceptedAtLeastTwo(n: int, iterations: int, tape: seq<Draw>)
    requires PrimalityVerdict(n, iterations, tape).Answer? && PrimalityVerdict(n, iterations, tape).isPrime
    ensures n >= 2
  {
  }

  method ValidateDsaParameters(p: int, q: int, g: int, tape: seq<Draw>) returns (v: Verdict)
    ensures v == DsaVerdict(p, q, g, tape)
  {
    v := IsProbablyPrime(p, 50, tape);
    if v.OutOfDraws? || !v.isPrime {
      return;
    }
    AcceptedAtLeastTwo(p, 50, tape);
    ghost var left := v.rest;
    v := IsProbablyPrime(q, 50, v.rest);
    if v.OutOfDraws? || !v.isPrime {
      return;
    }
    AcceptedAtLeastTwo(q, 50, left);
    hide PrimalityVerdict, Pow;
    if (p - 1) % q != 0 {
      return Answer(false, v.rest);
    }
    if g < 2 || g >= p {
      return Answer(false, v.rest);
    }
    var power := ModularPow(g, q, p);
    if power != 1 {
      return Answer(false, v.rest);
    }
    return Answer(true, v.rest);
  }

  /** On primes the check accepts exactly the groups of the standard. */
  lemma DsaCheckExact(p: int, q: int, g: int, tape: seq<Draw>)
    requires IsPrime(p) && IsPrime(q) && DsaVerdict(p, q, g, tape).Answer?
    ensures DsaVerdict(p, q, g, tape).isPrime <==> DsaGroup(p, q, g)
  {
    PrimesAccepted(p, 50, tape);
    PrimesAccepted(q, 50, PrimalityVerdict(p, 50, tape).rest);
  }

  /** In such a group g has order exactly q: its powers agree exactly when the exponents agree modulo q. */
  lemma DsaGroupOrder(p: int, q: int, g: int, a: nat, b: nat)
    requires DsaGroup(p, q, g)
    ensures Congruent(Pow(g, a), Pow(g, b), p) <==> Congruent(a, b, q)
  {
    RemainderSmall(g, p);
    PrimeOrder(g, p, q);
    EqualPowers(g, p, q, a, b);
  }
}
