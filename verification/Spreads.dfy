/** The bases whose j-th square is 1 or -1, and multipliers that lead to disjoint copies of them. */
module Spreads {
  // These bases form a group, which for the last j that reaches -1 holds every base deceiving the Miller-Rabin test.

  import opened ModularArithmetic
  import opened Orders
  import opened Primes
  import opened CryptoUtils

  // ----- the bases whose j-th square is 1 or -1

  ghost predicate PlusMinus(n: nat, j: nat, a: nat)
    requires n >= 2
  {
    Square(n, a, j) == 1 || Square(n, a, j) == n - 1
  }

  /** Some base has -1 as its j-th square. */
  ghost predicate ReachesMinusOne(n: nat, j: nat)
    requires n >= 2
  {
    exists v: nat :: 1 <= v < n && Square(n, v, j) == n - 1
  }

  lemma MinusOneOdd(n: nat, d: nat)
    requires n >= 3 && d % 2 == 1
    ensures Pow(n - 1, d) % n == n - 1
  {
    MinusOneEven(n, d / 2);
    assert d == 2 * (d / 2) + 1;
    var h: nat := 2 * (d / 2);
    assert Pow(n - 1, d) == (n - 1) * Pow(n - 1, h);
    ReducedProduct(n - 1, Pow(n - 1, h), n);
    RemainderSmall(n - 1, n);
  }

  lemma MinusOneSquared(n: nat)
    requires n >= 3
    ensures ((n - 1) * (n - 1)) % n == 1
  {
    RemainderUnique((n - 1) * (n - 1), n, n - 2, 1);
  }

  lemma {:induction false} MinusOneEven(n: nat, h: nat)
    requires n >= 3
    ensures Pow(n - 1, 2 * h) % n == 1
  {
    if h == 0 {
      RemainderSmall(1, n);
    } else {
      MinusOneEven(n, h - 1);
      PowAdd(n - 1, 2, 2 * (h - 1));
      assert Pow(n - 1, 2) == (n - 1) * (n - 1) by {
        assert Pow(n - 1, 1) == n - 1;
      }
      MinusOneSquared(n);
      ReducedProduct((n - 1) * (n - 1), Pow(n - 1, 2 * (h - 1)), n);
      RemainderSmall(1, n);
    }
  }

  lemma HalvedOnce(n: nat)
    requires n >= 3 && n % 2 == 1
    ensures Twos(n - 1) >= 1
  {
  }

  lemma MinusOneReached(n: nat)
    requires n >= 3 && n % 2 == 1
    ensures ReachesMinusOne(n, 0)
  {
    MinusOneOdd(n, OddPart(n - 1));
    assert PowTwo(0) * OddPart(n - 1) == OddPart(n - 1);
    assert Square(n, n - 1, 0) == n - 1;
  }

  /** The last j below the number of halvings for which -1 is reached at all. */
  lemma {:induction false} LastMinusOne(n: nat, k: nat) returns (j: nat)
    requires n >= 3 && n % 2 == 1 && k < Twos(n - 1)
    requires forall i: nat :: k < i < Twos(n - 1) ==> !ReachesMinusOne(n, i)
    ensures j < Twos(n - 1) && ReachesMinusOne(n, j)
    ensures forall i: nat :: j < i < Twos(n - 1) ==> !ReachesMinusOne(n, i)
    decreases k
  {
    MinusOneReached(n);
    if ReachesMinusOne(n, k) {
      return k;
    }
    j := LastMinusOne(n, k - 1);
  }

  /** Past that j nothing new happens: every liar is 1 or -1 there. */
  lemma LiarIsPlusMinus(n: nat, j: nat, a: nat)
    requires n >= 3 && n % 2 == 1 && j < Twos(n - 1) && 1 <= a < n && StrongProbablePrime(n, a)
    requires forall i: nat :: j < i < Twos(n - 1) ==> !ReachesMinusOne(n, i)
    ensures PlusMinus(n, j, a)
  {
    if Square(n, a, 0) == 1 {
      OneStaysOne(n, a, 0, j);
    } else {
      var i: nat :| (i == 0 || i < Twos(n - 1)) && Square(n, a, i) == n - 1;
      assert ReachesMinusOne(n, i);
      if i < j {
        NextSquare(n, a, i);
        MinusOneSquared(n);
        OneStaysOne(n, a, i + 1, j);
      }
    }
  }

  lemma SquareOfProduct(n: nat, x: nat, w: nat, j: nat)
    requires n >= 2
    ensures Square(n, (x * w) % n, j) == (Square(n, x, j) * Square(n, w, j)) % n
  {
    var e: nat := PowTwo(j) * OddPart(n - 1);
    PowReduced(x * w, e, n);
    PowOfProduct(x, w, e);
    ReducedProduct(Pow(x, e), Pow(w, e), n);
  }

  lemma SignsMultiply(n: nat, s: nat, t: nat)
    requires n >= 3 && t < n && (s == 1 || s == n - 1) && ((s * t) % n == 1 || (s * t) % n == n - 1)
    ensures t == 1 || t == n - 1
  {
    if s == 1 {
      RemainderSmall(t, n);
    } else {
      MinusOneSquared(n);
      Associate(n - 1, n - 1, t);
      ReducedProduct(n - 1, (n - 1) * t, n);
      ReducedProduct((n - 1) * (n - 1), t, n);
      RemainderSmall(t, n);
      RemainderSmall(n - 1, n);
      assert ((n - 1) * ((s * t) % n)) % n == t;
    }
  }

  /** Multiplying by a base outside leads outside. */
  lemma LeadsOutside(n: nat, j: nat, x: nat, w: nat)
    requires n >= 3 && PlusMinus(n, j, x) && !PlusMinus(n, j, w)
    ensures !PlusMinus(n, j, (x * w) % n)
  {
    SquareOfProduct(n, x, w, j);
    if PlusMinus(n, j, (x * w) % n) {
      SignsMultiply(n, Square(n, x, j), Square(n, w, j));
    }
  }

  /** The bases inside are closed under multiplication. */
  lemma StaysInside(n: nat, j: nat, x: nat, w: nat)
    requires n >= 3 && PlusMinus(n, j, x) && PlusMinus(n, j, w)
    ensures PlusMinus(n, j, (x * w) % n)
  {
    SquareOfProduct(n, x, w, j);
    MinusOneSquared(n);
    RemainderSmall(n - 1, n);
    RemainderSmall(1, n);
  }

  lemma ReducedInside(n: nat, j: nat, w: nat)
    requires n >= 2
    ensures PlusMinus(n, j, w % n) <==> PlusMinus(n, j, w)
  {
    PowReduced(w, PowTwo(j) * OddPart(n - 1), n);
  }

  lemma OneIsInside(n: nat, j: nat)
    requires n >= 3
    ensures PlusMinus(n, j, 1)
  {
    PowOne(PowTwo(j) * OddPart(n - 1));
    RemainderSmall(1, n);
  }

  /** The inverse of a base outside is outside. */
  lemma InverseOutside(n: nat, j: nat, w: nat, inverse: nat)
    requires n >= 3 && (w * inverse) % n == 1 && !PlusMinus(n, j, w)
    ensures !PlusMinus(n, j, inverse)
  {
    if PlusMinus(n, j, inverse) {
      LeadsOutside(n, j, inverse, w);
      assert inverse * w == w * inverse;
      OneIsInside(n, j);
    }
  }

  // ----- cosets: multipliers that lead to disjoint sets

  /** Invertible multipliers no quotient of which is inside. */
  ghost predicate Spread(n: nat, j: nat, ws: seq<nat>, inverses: seq<nat>)
    requires n >= 2
  {
    && |inverses| == |ws|
    && (forall i :: 0 <= i < |ws| ==> (ws[i] * inverses[i]) % n == 1)
    && (forall i, k :: 0 <= i < k < |ws| ==> !PlusMinus(n, j, (ws[i] * inverses[k]) % n))
  }

  lemma ProductOfSums(m: int, k: int)
    ensures (1 + m) * (1 + (k - 1) * m) == (1 + k * m) + (k - 1) * (m * m)
  {
    assert m * ((k - 1) * m) == (k - 1) * (m * m);
  }

  /** (1 + m)^k = 1 + k m when m^2 vanishes. */
  lemma {:induction false} ShortBinomial(n: nat, m: nat, k: nat)
    requires n >= 2 && (m * m) % n == 0
    ensures Congruent(Pow(1 + m, k), 1 + k * m, n)
  {
    if k > 0 {
      ShortBinomial(n, m, k - 1);
      ProductCongruent(1 + m, 1 + m, Pow(1 + m, k - 1), 1 + (k - 1) * m, n);
      ProductOfSums(m, k);
      VanishingTerm(n, 1 + k * m, k - 1, m);
    }
  }

  lemma VanishingTerm(n: nat, x: int, k: int, m: int)
    requires n >= 1 && (m * m) % n == 0
    ensures Congruent(x + k * (m * m), x, n)
  {
    ReducedProduct(k, m * m, n);
    RemainderSmall(0, n);
    SumCongruent(x, x, k * (m * m), 0, n);
  }

  /** A sign at place j makes a^(n-1) equal to 1. */
  lemma PlusMinusIsFermat(n: nat, j: nat, a: nat)
    requires n >= 3 && j < Twos(n - 1) && PlusMinus(n, j, a)
    ensures Pow(a, n - 1) % n == 1
  {
    NextSquare(n, a, j);
    MinusOneSquared(n);
    RemainderSmall(1, n);
    OneStaysOne(n, a, j + 1, Twos(n - 1));
    TwosAndOddPart(n - 1);
  }

  lemma SquaredFactor(n: nat, p: nat, m: nat)
    requires p > 0 && n == p * m && m > 0 && m % p == 0
    ensures (m * m) % n == 0
  {
    var f := m / p;
    assert m == p * f;
    assert m * m == n * f by {
      Associate(p, m, f);
      assert (p * m) * f == p * (m * f) && m * (p * f) == p * (m * f);
    }
    MultipleIsZero(f, n);
  }

  lemma NegativeRemainder(n: nat, m: int)
    requires 0 < m < n
    ensures (-m) % n != 0
  {
    RemainderUnique(-m, n, -1, n - m);
  }

  lemma RepeatedQuotient(n: nat, p: nat, m: nat, i: nat, k: nat)
    requires n >= 2 && n == p * m && (m * m) % n == 0 && i <= k < p
    ensures (Pow(1 + m, i) * Pow(1 + m, p - k)) % n == Pow(1 + m, p - (k - i)) % n
    ensures i == k ==> (Pow(1 + m, i) * Pow(1 + m, p - k)) % n == 1
  {
    PowAdd(1 + m, i, p - k);
    assert i + (p - k) == p - (k - i);
    if i == k {
      ShortBinomial(n, m, p);
      AddMultiple(1, 1, n);
      RemainderSmall(1, n);
    }
  }

  lemma ExponentSplit(n: nat, m: nat, e: nat)
    requires n >= 1
    ensures e * (n - 1) >= 0 && 1 + (e * (n - 1)) * m == (1 - e * m) + n * (e * m)
  {
    assert (e * (n - 1)) * m == (n - 1) * (e * m);
  }

  lemma RepeatedNotFermat(n: nat, m: nat, e: nat)
    requires n >= 2 && 0 < e * m < n && (m * m) % n == 0
    ensures Pow(Pow(1 + m, e), n - 1) % n != 1
  {
    hide Pow;
    var k: int := e * m;
    PowOfPow(1 + m, e, n - 1);
    ExponentSplit(n, m, e);
    var f: nat := e * (n - 1);
    ShortBinomial(n, m, f);
    OneMinus(n, k);
  }

  lemma OneMinus(n: nat, k: int)
    requires 0 < k < n
    ensures ((1 - k) + n * k) % n != 1
  {
    AddMultiple(1 - k, k, n);
    CongruentIffDivides(1 - k, 1, n);
    RemainderSmall(1, n);
    NegativeRemainder(n, k);
  }

  lemma RepeatedOutside(n: nat, p: nat, m: nat, j: nat, e: nat)
    requires n >= 3 && n == p * m && (m * m) % n == 0 && 0 < m && j < Twos(n - 1) && 0 < e < p
    ensures Pow(1 + m, e) % n >= 0 && !PlusMinus(n, j, Pow(1 + m, e) % n)
  {
    SmallerMultiple(e, p, m);
    RepeatedNotFermat(n, m, e);
    PowReduced(Pow(1 + m, e), n - 1, n);
    if PlusMinus(n, j, Pow(1 + m, e) % n) {
      PlusMinusIsFermat(n, j, Pow(1 + m, e) % n);
    }
  }

  lemma SmallerMultiple(e: nat, p: nat, m: nat)
    requires 0 < e < p && 0 < m
    ensures 0 < e * m < p * m
  {
  }

  lemma RepeatedPair(n: nat, p: nat, m: nat, j: nat, i: nat, k: nat)
    requires n >= 3 && n == p * m && (m * m) % n == 0 && 0 < m && j < Twos(n - 1) && i <= k < p
    ensures var x := (Pow(1 + m, i) * Pow(1 + m, p - k)) % n;
            if i == k then x == 1 else !PlusMinus(n, j, x)
  {
    hide *;
    RepeatedQuotient(n, p, m, i, k);
    if i < k {
      RepeatedOutside(n, p, m, j, p - (k - i));
    }
  }

  /** When the square of a prime p divides n, the first p powers of 1 + n/p are spread. */
  lemma RepeatedSpread(n: nat, p: nat, m: nat, j: nat, count: nat) returns (ws: seq<nat>, inverses: seq<nat>)
    requires n >= 3 && p >= 2 && n == p * m && m % p == 0 && 0 < m && j < Twos(n - 1) && count <= p
    ensures Spread(n, j, ws, inverses) && |ws| == count
  {
    hide Pow, PlusMinus, Twos;
    SquaredFactor(n, p, m);
    var b := 1 + m;
    forall e: nat ensures Pow(b, e) >= 0 {
      PowNonNegative(b, e);
    }
    ws := seq(count, i requires 0 <= i < count => Pow(b, i));
    inverses := seq(count, i requires 0 <= i < count => Pow(b, p - i));
    forall i, k | 0 <= i <= k < count
      ensures if i == k then (ws[i] * inverses[k]) % n == 1 else !PlusMinus(n, j, (ws[i] * inverses[k]) % n)
    {
      assert ws[i] == Pow(b, i) && inverses[k] == Pow(b, p - k);
      RepeatedPair(n, p, m, j, i, k);
    }
  }

  // ----- n = p m without common factor

  /** Congruent modulo n, so modulo a factor of n. */
  lemma CongruentFactor(a: int, b: int, n: nat, e: nat)
    requires e > 0 && n > 0 && n % e == 0 && Congruent(a, b, n)
    ensures Congruent(a, b, e)
  {
    RemainderOfFactor(a, n, e);
    RemainderOfFactor(b, n, e);
  }

  lemma FactorsDivide(n: nat, p: nat, m: nat)
    requires p > 0 && m > 0 && n == p * m
    ensures n > 0 && n % p == 0 && n % m == 0
  {
    MultipleIsZero(m, p);
    MultipleIsZero(p, m);
    assert p * m >= 1;
  }

  /** 1 modulo p and 0 modulo m. */
  lemma Selector(p: nat, m: nat) returns (t: nat)
    requires IsPrime(p) && m % p != 0
    ensures t % p == 1 && t % m == 0
  {
    PowNonNegative(m, p - 2);
    assert m * Pow(m, p - 2) >= 0;
    t := m * Pow(m, p - 2);
    FermatInverse(p, m);
    MultipleIsZero(Pow(m, p - 2), m);
  }

  lemma MinusOneIsNotOne(e: nat, n: nat)
    requires e >= 3 && n > 0 && n % e == 0
    ensures !Congruent(n - 1, 1, e)
  {
    CongruentIffDivides(n - 1, 1, e);
    CongruentIffDivides(n - 2, -2, e);
    RemainderUnique(-2, e, -1, e - 2);
    if Congruent(n - 1, 1, e) {
      SumCongruent(n, 0, -2, -2, e);
      RemainderSmall(0, e);
    }
  }

  lemma BothFactors(p: nat, m: nat, x: int)
    requires IsPrime(p) && m > 0 && m % p != 0 && x % p == 0 && x % m == 0
    ensures p * m > 0 && x % (p * m) == 0
  {
    var k := x / m;
    assert x == m * k;
    Euclid(p, m, k);
    var l := k / p;
    assert k == p * l && x == (p * m) * l by {
      Associate(m, p, l);
    }
    MultipleIsZero(l, p * m);
  }

  /** The exponent of the j-th square. */
  function SquareExponent(n: nat, j: nat): (e: nat)
    requires n >= 2
    ensures e >= 1
  {
    MultipleIsLarge(PowTwo(j), OddPart(n - 1));
    PowTwo(j) * OddPart(n - 1)
  }

  /** Invertible, with a j-th square that is -1 modulo p and 1 modulo m. */
  ghost predicate Split(n: nat, p: nat, m: nat, j: nat, w: nat, inverse: nat)
    requires n >= 2 && p > 0 && m > 0
  {
    && (w * inverse) % n == 1
    && Congruent(Pow(w, SquareExponent(n, j)), n - 1, p)
    && Congruent(Pow(w, SquareExponent(n, j)), 1, m)
  }

  /** Like v modulo p and like 1 modulo m. */
  lemma SplitExists(n: nat, p: nat, m: nat, j: nat, v: nat) returns (w: nat, inverse: nat)
    requires IsPrime(p) && m >= 1 && n == p * m && m % p != 0 && n >= 3
    requires Square(n, v, j) == n - 1
    ensures Split(n, p, m, j, w, inverse)
  {
    FactorsDivide(n, p, m);
    var e: nat := SquareExponent(n, j);
    var t := Selector(p, m);
    var u: int := v;
    var w0: int := 1 + t * (u - 1);
    MixedModulo(p, m, t, u);
    w := w0 % n;
    RemainderOfFactor(w0, n, p);
    RemainderOfFactor(w0, n, m);
    MixedPowers(n, p, m, w, v, e);
    inverse := MixedInverse(n, p, m, w, e);
  }

  lemma MixedModulo(p: nat, m: nat, t: nat, v: int)
    requires p > 0 && m > 0 && t % p == 1 && t % m == 0
    ensures Congruent(1 + t * (v - 1), v, p) && Congruent(1 + t * (v - 1), 1, m)
  {
    if p > 1 {
      RemainderSmall(1, p);
    }
    RemainderSmall(0, m);
    ProductCongruent(t, 1, v - 1, v - 1, p);
    SumCongruent(1, 1, t * (v - 1), v - 1, p);
    ProductCongruent(t, 0, v - 1, v - 1, m);
    SumCongruent(1, 1, t * (v - 1), 0, m);
  }

  lemma MixedPowers(n: nat, p: nat, m: nat, w: nat, v: nat, e: nat)
    requires n >= 3 && p > 0 && m > 0 && n % p == 0
    requires Congruent(w, v, p) && Congruent(w, 1, m) && Pow(v, e) % n == n - 1
    ensures Congruent(Pow(w, e), n - 1, p) && Congruent(Pow(w, e), 1, m)
  {
    RemainderSmall(n - 1, n);
    PowCongruent(w, v, e, p);
    PowCongruent(w, 1, e, m);
    PowOne(e);
    CongruentFactor(Pow(v, e), n - 1, n, p);
  }

  /** What is -1 modulo one factor and 1 modulo another is neither 1 nor -1. */
  lemma MixedSigns(n: nat, p: nat, m: nat, j: nat, w: nat)
    requires n >= 3 && p >= 3 && m >= 3 && n % p == 0 && n % m == 0
    requires Congruent(Pow(w, SquareExponent(n, j)), n - 1, p) && Congruent(Pow(w, SquareExponent(n, j)), 1, m)
    ensures !PlusMinus(n, j, w)
  {
    var x := Pow(w, SquareExponent(n, j));
    RemainderSmall(n - 1, n);
    RemainderSmall(1, n);
    MinusOneIsNotOne(p, n);
    MinusOneIsNotOne(m, n);
    if x % n == 1 {
      CongruentFactor(x, 1, n, p);
    }
    if x % n == n - 1 {
      CongruentFactor(x, n - 1, n, m);
    }
  }

  lemma MinusOneSquaredModulo(n: nat, e: nat, x: int)
    requires e > 0 && n > 0 && n % e == 0 && (Congruent(x, n - 1, e) || Congruent(x, 1, e))
    ensures Congruent(x * x, 1, e)
  {
    if Congruent(x, 1, e) {
      ProductCongruent(x, 1, x, 1, e);
    } else {
      ProductCongruent(x, n - 1, x, n - 1, e);
      assert (n - 1) * (n - 1) == 1 + n * (n - 2);
      ReducedProduct(n, n - 2, e);
      RemainderSmall(0, e);
      SumCongruent(1, 1, n * (n - 2), 0, e);
    }
  }

  /** 1 modulo both factors. */
  lemma OneModuloBoth(n: nat, p: nat, m: nat, x: int)
    requires IsPrime(p) && m > 0 && n == p * m && m % p != 0 && n >= 2
    requires Congruent(x, 1, p) && Congruent(x, 1, m)
    ensures x % n == 1
  {
    CongruentIffDivides(x, 1, p);
    CongruentIffDivides(x, 1, m);
    BothFactors(p, m, x - 1);
    CongruentIffDivides(x, 1, n);
    RemainderSmall(1, n);
  }

  lemma MixedSquare(n: nat, p: nat, m: nat, w: nat, e: nat)
    requires IsPrime(p) && m > 0 && n == p * m && m % p != 0 && n >= 3 && n % p == 0 && n % m == 0
    requires Congruent(Pow(w, e), n - 1, p) && Congruent(Pow(w, e), 1, m)
    ensures Pow(w, 2 * e) % n == 1
  {
    var x := Pow(w, e);
    MinusOneSquaredModulo(n, p, x);
    MinusOneSquaredModulo(n, m, x);
    OneModuloBoth(n, p, m, x * x);
    PowAdd(w, e, e);
  }

  lemma MixedInverse(n: nat, p: nat, m: nat, w: nat, e: nat) returns (inverse: nat)
    requires IsPrime(p) && m > 0 && n == p * m && m % p != 0 && n >= 3 && e >= 1 && n % p == 0 && n % m == 0
    requires Congruent(Pow(w, e), n - 1, p) && Congruent(Pow(w, e), 1, m)
    ensures (w * inverse) % n == 1
  {
    MixedSquare(n, p, m, w, e);
    PowNonNegative(w, 2 * e - 1);
    inverse := Pow(w, 2 * e - 1);
    assert Pow(w, 2 * e) == w * Pow(w, 2 * e - 1);
  }

  lemma OddFactors(n: nat, p: nat, m: nat)
    requires n % 2 == 1 && n == p * m && IsPrime(p) && !IsPrime(n) && m >= 1
    ensures p >= 3 && m >= 3
  {
    FactorsDivide(n, p, m);
  }

  lemma TwoFactors(n: nat) returns (p: nat, m: nat)
    requires n >= 3 && n % 2 == 1 && !IsPrime(n)
    ensures IsPrime(p) && n == p * m && p >= 3 && m >= 3
  {
    p := PrimeDivisor(n);
    m := n / p;
    assert n == p * m;
    hide IsPrime;
    assert m >= 1;
    OddFactors(n, p, m);
  }

  // ----- four cosets from two bases

  lemma InverseOfProduct(n: nat, a: nat, b: nat, a': nat, b': nat)
    requires n >= 2 && (a * a') % n == 1 && (b * b') % n == 1
    ensures (((a * b) % n) * ((a' * b') % n)) % n == 1
  {
    ReducedProduct(a * b, a' * b', n);
    Interchange(a, b, a', b');
    ReducedProduct(a * a', b * b', n);
    RemainderSmall(1, n);
  }

  lemma CancelledProduct(n: nat, a: nat, a': nat, b': nat)
    requires n >= 2 && (a * a') % n == 1
    ensures (a * ((a' * b') % n)) % n == b' % n
  {
    ReducedProduct(a, a' * b', n);
    Associate(a, a', b');
    ReducedProduct(a * a', b', n);
  }

  /** Two bases that are outside, also multiplied and divided by each other, spread four multipliers. */
  lemma FourSpread(n: nat, j: nat, a: nat, b: nat, a': nat, b': nat)
    requires n >= 3 && (a * a') % n == 1 && (b * b') % n == 1
    requires !PlusMinus(n, j, a) && !PlusMinus(n, j, b)
    requires !PlusMinus(n, j, (a * b) % n) && !PlusMinus(n, j, (a * b') % n)
    ensures Spread(n, j, [1, a, b, (a * b) % n], [1, a', b', (a' * b') % n])
  {
    hide PlusMinus;
    RemainderSmall(1, n);
    InverseOfProduct(n, a, b, a', b');
    CancelledProduct(n, a, a', b');
    CancelledProduct(n, b, b', a');
    assert b' * a' == a' * b';
    InverseOutside(n, j, a, a');
    InverseOutside(n, j, b, b');
    InverseOutside(n, j, (a * b) % n, (a' * b') % n);
    ReducedInside(n, j, a');
    ReducedInside(n, j, b');
    ReducedInside(n, j, (a' * b') % n);
  }

  // ----- three factors without common divisors

  lemma SignsOfProduct(n: nat, e: nat, f: nat, a: nat, b: nat, s: nat, t: nat)
    requires n > 0 && f > 0 && n % f == 0 && Congruent(Pow(a, e), s, f) && Congruent(Pow(b, e), t, f)
    ensures Congruent(Pow((a * b) % n, e), s * t, f)
  {
    RemainderOfFactor(a * b, n, f);
    PowCongruent((a * b) % n, a * b, e, f);
    PowOfProduct(a, b, e);
    ProductCongruent(Pow(a, e), s, Pow(b, e), t, f);
  }

  /** The square of a split base is inside. */
  lemma SplitSquareInside(n: nat, p: nat, m: nat, j: nat, w: nat, inverse: nat)
    requires IsPrime(p) && m > 0 && n == p * m && m % p != 0 && n >= 3 && Split(n, p, m, j, w, inverse)
    ensures PlusMinus(n, j, (w * w) % n)
  {
    FactorsDivide(n, p, m);
    var e := SquareExponent(n, j);
    MixedSquare(n, p, m, w, e);
    PowAdd(w, e, e);
    PowOfProduct(w, w, e);
    PowReduced(w * w, e, n);
  }

  /** (a / b) * b^2 = a * b. */
  lemma QuotientOutside(n: nat, j: nat, a: nat, b: nat, b': nat)
    requires n >= 3 && (b * b') % n == 1 && PlusMinus(n, j, (b * b) % n) && !PlusMinus(n, j, (a * b) % n)
    ensures !PlusMinus(n, j, (a * b') % n)
  {
    if PlusMinus(n, j, (a * b') % n) {
      StaysInside(n, j, (a * b') % n, (b * b) % n);
      ReducedProduct(a * b', b * b, n);
      assert (a * b') * (b * b) == (a * b) * (b * b');
      ProductCongruent(a * b, a * b, b * b', 1, n) by {
        RemainderSmall(1, n);
      }
    }
  }

  lemma ThreeFactors(n: nat, p: nat, q: nat, r: nat, j: nat, v: nat) returns (ws: seq<nat>, inverses: seq<nat>)
    requires IsPrime(p) && IsPrime(q) && p >= 3 && q >= 3 && r >= 3 && n >= 3
    requires n == p * (q * r) && (q * r) % p != 0 && (p * r) % q != 0 && Square(n, v, j) == n - 1
    ensures Spread(n, j, ws, inverses) && |ws| == 4
  {
    hide *;
    var m, l := q * r, p * r;
    OtherOrder(p, q, r);
    var a, a' := SplitExists(n, p, m, j, v);
    var b, b' := SplitExists(n, q, l, j, v);
    SplitSquareInside(n, q, l, j, b, b');
    ThreeFactorSigns(n, p, q, r, j, a, a', b, b');
    QuotientOutside(n, j, a, b, b');
    FourSpread(n, j, a, b, a', b');
    ws, inverses := [1, a, b, (a * b) % n], [1, a', b', (a' * b') % n];
  }

  lemma OtherOrder(p: nat, q: nat, r: nat)
    requires p >= 1 && q >= 1 && r >= 1
    ensures p * (q * r) == q * (p * r) && q * r >= 1 && p * r >= 1
  {
  }

  lemma ThreeDivide(n: nat, p: nat, q: nat, r: nat)
    requires p >= 1 && q >= 1 && r >= 1 && n == p * (q * r) == q * (p * r)
    ensures n > 0 && n % p == 0 && n % q == 0 && n % r == 0
    ensures q * r > 0 && p * r > 0 && (q * r) % r == 0 && (p * r) % r == 0 && (p * r) % p == 0
  {
    FactorsDivide(q * r, q, r);
    FactorsDivide(p * r, p, r);
    FactorsDivide(n, p, q * r);
    FactorsDivide(n, q, p * r);
    assert n == r * (p * q);
    MultipleIsZero(p * q, r);
  }

  lemma ThreeFactorSigns(n: nat, p: nat, q: nat, r: nat, j: nat, a: nat, a': nat, b: nat, b': nat)
    requires p >= 3 && q >= 3 && r >= 3 && n >= 3 && n == p * (q * r) == q * (p * r)
    requires Split(n, p, q * r, j, a, a') && Split(n, q, p * r, j, b, b')
    ensures !PlusMinus(n, j, a) && !PlusMinus(n, j, b) && !PlusMinus(n, j, (a * b) % n)
    ensures (b * b') % n == 1 && (a * a') % n == 1
  {
    var e, m, l := SquareExponent(n, j), q * r, p * r;
    ThreeDivide(n, p, q, r);
    hide PlusMinus, Pow, Congruent, SquareExponent;
    CongruentFactor(Pow(a, e), 1, m, r);
    CongruentFactor(Pow(b, e), 1, l, r);
    CongruentFactor(Pow(b, e), 1, l, p);
    SignsOfProduct(n, e, p, a, b, n - 1, 1);
    SignsOfProduct(n, e, r, a, b, 1, 1);
    MixedSigns(n, p, r, j, a);
    MixedSigns(n, q, r, j, b);
    MixedSigns(n, p, r, j, (a * b) % n);
  }

  // ----- two primes

  /** Among the remainders modulo q there is one whose d-th power is not 1, for any d below q - 1. */
  lemma PowerNotOne(q: nat, d: nat) returns (x: nat)
    requires IsPrime(q) && 1 <= d < q - 1
    ensures 1 <= x < q && Pow(x, d) % q != 1
  {
    if forall x :: 1 <= x < q ==> Pow(x, d) % q == 1 {
      var c := [-1] + Monomial(d)[1..];
      var roots := seq(q - 1, i => i + 1);
      MonomialEval(d, 0);
      forall i | 0 <= i < |roots| ensures Eval(c, roots[i]) % q == 0 {
        var x := roots[i];
        MonomialEval(d, x);
        assert c[1..] == Monomial(d)[1..] && Monomial(d)[0] == 0;
        CongruentIffDivides(Pow(x, d), 1, q);
        RemainderSmall(1, q);
      }
      RemainderSmall(1, q);
      RootBound(q, c, roots);
      assert false;
    }
    x :| 1 <= x < q && Pow(x, d) % q != 1;
  }

  /** Modulo q the exponent p q - 1 counts as p - 1. */
  lemma ExponentModuloPrime(p: nat, q: nat, x: nat)
    requires IsPrime(q) && p >= 1 && x % q != 0
    ensures p * q - 1 >= 0 && Congruent(Pow(x, p * q - 1), Pow(x, p - 1), q)
  {
    Fermat(q, x);
    RemainderSmall(1, q);
    PowOfUnit(x, q - 1, p, q);
    assert p * q - 1 == (q - 1) * p + (p - 1);
    PowAdd(x, (q - 1) * p, p - 1);
    ProductCongruent(Pow(x, (q - 1) * p), 1, Pow(x, p - 1), Pow(x, p - 1), q);
  }

  /** A product of two primes is not a Carmichael number: some invertible b has b^(n-1) other than 1. */
  lemma NotFermat(n: nat, p: nat, q: nat) returns (b: nat, inverse: nat)
    requires IsPrime(p) && IsPrime(q) && p < q && n == q * p
    ensures (b * inverse) % n == 1 && Pow(b, n - 1) % n != 1
  {
    FactorsDivide(n, q, p);
    RemainderSmall(p, q);
    var x := PowerNotOne(q, p - 1);
    var t := Selector(q, p);
    var u: int := x;
    var b0: int := 1 + t * (u - 1);
    MixedModulo(q, p, t, u);
    b := b0 % n;
    RemainderOfFactor(b0, n, q);
    RemainderOfFactor(b0, n, p);
    RemainderSmall(x, q);
    assert Congruent(b, x, q) && Congruent(b, 1, p);
    hide *;
    inverse := InverseModuloBoth(n, q, p, b);
    NotFermatModulo(n, p, q, b, x);
  }

  lemma InverseModuloBoth(n: nat, q: nat, p: nat, b: nat) returns (inverse: nat)
    requires IsPrime(q) && p > 0 && p % q != 0 && n == q * p && n >= 2 && b % q != 0 && Congruent(b, 1, p)
    ensures (b * inverse) % n == 1
  {
    Fermat(q, b);
    RemainderSmall(1, q);
    PowCongruent(b, 1, q - 1, p);
    PowOne(q - 1);
    OneModuloBoth(n, q, p, Pow(b, q - 1));
    PowNonNegative(b, q - 2);
    inverse := Pow(b, q - 2);
    assert Pow(b, q - 1) == b * Pow(b, q - 2);
  }

  lemma NotFermatModulo(n: nat, p: nat, q: nat, b: nat, x: nat)
    requires IsPrime(q) && p >= 1 && n == q * p && n >= 2 && n % q == 0
    requires Congruent(b, x, q) && b % q != 0 && Pow(x, p - 1) % q != 1
    ensures Pow(b, n - 1) % n != 1
  {
    ExponentModuloPrime(p, q, b);
    PowCongruent(b, x, p - 1, q);
    RemainderSmall(1, n);
    RemainderSmall(1, q);
    assert p * q == n;
    if Pow(b, n - 1) % n == 1 {
      CongruentFactor(Pow(b, n - 1), 1, n, q);
    }
  }

  /** A split base has a^(n-1) = 1. */
  lemma SplitIsFermat(n: nat, p: nat, m: nat, j: nat, a: nat, inverse: nat)
    requires IsPrime(p) && m > 0 && n == p * m && m % p != 0 && n >= 3 && j < Twos(n - 1)
    requires Split(n, p, m, j, a, inverse)
    ensures Pow(a, n - 1) % n == 1
  {
    FactorsDivide(n, p, m);
    MixedSquare(n, p, m, a, SquareExponent(n, j));
    assert PowTwo(j + 1) * OddPart(n - 1) == 2 * SquareExponent(n, j) by {
      Associate(2, PowTwo(j), OddPart(n - 1));
    }
    OneStaysOne(n, a, j + 1, Twos(n - 1));
    TwosAndOddPart(n - 1);
  }

  lemma FermatTimes(n: nat, x: nat, w: nat)
    requires n >= 2 && Pow(x, n - 1) % n == 1
    ensures Pow((x * w) % n, n - 1) % n == Pow(w, n - 1) % n
  {
    PowReduced(x * w, n - 1, n);
    PowOfProduct(x, w, n - 1);
    RemainderSmall(1, n);
    ProductCongruent(Pow(x, n - 1), 1, Pow(w, n - 1), Pow(w, n - 1), n);
  }

  lemma InverseNotFermat(n: nat, b: nat, inverse: nat)
    requires n >= 2 && (b * inverse) % n == 1 && Pow(b, n - 1) % n != 1
    ensures Pow(inverse, n - 1) % n != 1
  {
    if Pow(inverse, n - 1) % n == 1 {
      FermatTimes(n, inverse, b);
      assert inverse * b == b * inverse;
      PowOne(n - 1);
      RemainderSmall(1, n);
    }
  }

  lemma NotFermatIsOutside(n: nat, j: nat, w: nat)
    requires n >= 3 && j < Twos(n - 1) && Pow(w, n - 1) % n != 1
    ensures !PlusMinus(n, j, w)
  {
    if PlusMinus(n, j, w) {
      PlusMinusIsFermat(n, j, w);
    }
  }

  lemma TwoPrimes(n: nat, p: nat, q: nat, j: nat, v: nat) returns (ws: seq<nat>, inverses: seq<nat>)
    requires IsPrime(p) && IsPrime(q) && p >= 3 && q >= 3 && p != q && n >= 3 && n == p * q && j < Twos(n - 1)
    requires q % p != 0 && Square(n, v, j) == n - 1
    ensures Spread(n, j, ws, inverses) && |ws| == 4
  {
    var a, a' := SplitExists(n, p, q, j, v);
    SplitIsFermat(n, p, q, j, a, a');
    FactorsDivide(n, p, q);
    MixedSigns(n, p, q, j, a);
    assert (a * a') % n == 1;
    var b, b';
    if p < q {
      b, b' := NotFermat(n, p, q);
    } else {
      b, b' := NotFermat(n, q, p);
    }
    hide PlusMinus, Twos, Pow, Split, IsPrime;
    InverseNotFermat(n, b, b');
    FermatTimes(n, a, b);
    FermatTimes(n, a, b');
    NotFermatIsOutside(n, j, b);
    NotFermatIsOutside(n, j, (a * b) % n);
    NotFermatIsOutside(n, j, (a * b') % n);
    FourSpread(n, j, a, b, a', b');
    ws, inverses := [1, a, b, (a * b) % n], [1, a', b', (a' * b') % n];
  }
}
