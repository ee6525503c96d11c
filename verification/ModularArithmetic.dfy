/** Remainders, congruences and integer powers: the arithmetic below every public-key operation. */
module ModularArithmetic {

  function Pow(b: int, e: nat): int {
    if e == 0 then 1 else b * Pow(b, e - 1)
  }

  /** a and b leave the same remainder modulo m. */
  ghost predicate Congruent(a: int, b: int, m: nat)
    requires m > 0
  {
    a % m == b % m
  }

  lemma MultipleIsLarge(m: int, d: int)
    requires m >= 0
    ensures d >= 1 ==> m * d >= m
    ensures d <= -1 ==> m * d <= -m
  {
  }

  lemma RemainderUnique(x: int, m: nat, k: int, r: int)
    requires m > 0 && 0 <= r < m
    requires x == m * k + r
    ensures x % m == r && x / m == k
  {
    assert m * (x / m - k) == r - x % m;
    MultipleIsLarge(m, x / m - k);
  }

  lemma AddMultiple(x: int, k: int, m: nat)
    requires m > 0
    ensures (x + m * k) % m == x % m
  {
    assert x + m * k == m * (x / m + k) + x % m;
    RemainderUnique(x + m * k, m, x / m + k, x % m);
  }

  lemma MultipleIsZero(k: int, m: nat)
    requires m > 0
    ensures (m * k) % m == 0
  {
    AddMultiple(0, k, m);
  }

  lemma CongruentIffDivides(a: int, b: int, m: nat)
    requires m > 0
    ensures Congruent(a, b, m) <==> (a - b) % m == 0
  {
    if Congruent(a, b, m) {
      assert a - b == m * (a / m - b / m);
      MultipleIsZero(a / m - b / m, m);
    }
    if (a - b) % m == 0 {
      assert a == b + m * ((a - b) / m);
      AddMultiple(b, (a - b) / m, m);
    }
  }

  lemma SumCongruent(a: int, b: int, c: int, d: int, m: nat)
    requires m > 0 && Congruent(a, b, m) && Congruent(c, d, m)
    ensures Congruent(a + c, b + d, m)
  {
    assert a + c == (b + d) + m * (a / m - b / m + c / m - d / m);
    AddMultiple(b + d, a / m - b / m + c / m - d / m, m);
  }

  lemma ProductOfShifted(b: int, d: int, m: int, s: int, t: int)
    ensures (b + m * s) * (d + m * t) == b * d + m * (s * d + b * t + s * (m * t))
  {
    var u := m * t;
    assert (b + m * s) * (d + u) == b * d + b * u + (m * s) * d + (m * s) * u;
    assert b * u == m * (b * t) && (m * s) * d == m * (s * d) && (m * s) * u == m * (s * u);
  }

  lemma ProductCongruent(a: int, b: int, c: int, d: int, m: nat)
    requires m > 0 && Congruent(a, b, m) && Congruent(c, d, m)
    ensures Congruent(a * c, b * d, m)
  {
    var s, t := a / m - b / m, c / m - d / m;
    assert a == b + m * s && c == d + m * t;
    ProductOfShifted(b, d, m, s, t);
    AddMultiple(b * d, s * d + b * t + s * (m * t), m);
  }

  lemma RemainderCongruent(a: int, m: nat)
    requires m > 0
    ensures Congruent(a % m, a, m)
  {
    RemainderUnique(a % m, m, 0, a % m);
  }

  lemma RemainderSmall(a: int, m: nat)
    requires m > 0 && 0 <= a < m
    ensures a % m == a
  {
    RemainderUnique(a, m, 0, a);
  }

  /** Reducing modulo a multiple of e first does not change the remainder modulo e. */
  lemma RemainderOfFactor(x: int, n: nat, e: nat)
    requires e > 0 && n > 0 && n % e == 0
    ensures (x % n) % e == x % e
  {
    var f, k := n / e, x / n;
    assert n == e * f && x == n * k + x % n;
    Associate(e, f, k);
    AddMultiple(x % n, f * k, e);
  }

  lemma ReducedProduct(a: int, b: int, m: nat)
    requires m > 0
    ensures ((a % m) * (b % m)) % m == (a * b) % m
    ensures ((a % m) * b) % m == (a * b) % m
    ensures (a * (b % m)) % m == (a * b) % m
  {
    RemainderCongruent(a, m);
    RemainderCongruent(b, m);
    ProductCongruent(a % m, a, b % m, b, m);
    ProductCongruent(a % m, a, b, b, m);
    ProductCongruent(a, a, b % m, b, m);
  }

  lemma PowCongruent(a: int, b: int, e: nat, m: nat)
    requires m > 0 && Congruent(a, b, m)
    ensures Congruent(Pow(a, e), Pow(b, e), m)
  {
    if e > 0 {
      PowCongruent(a, b, e - 1, m);
      ProductCongruent(a, b, Pow(a, e - 1), Pow(b, e - 1), m);
    }
  }

  lemma PowReduced(a: int, e: nat, m: nat)
    requires m > 0
    ensures Pow(a % m, e) % m == Pow(a, e) % m
  {
    RemainderCongruent(a, m);
    PowCongruent(a % m, a, e, m);
  }

  lemma PowAdd(b: int, e: nat, f: nat)
    ensures Pow(b, e + f) == Pow(b, e) * Pow(b, f)
  {
    if e > 0 {
      PowAdd(b, e - 1, f);
      assert Pow(b, e + f) == b * Pow(b, e - 1 + f);
    }
  }

  lemma Interchange(a: int, b: int, c: int, d: int)
    ensures (a * b) * (c * d) == (a * c) * (b * d)
  {
  }

  lemma Associate(a: int, b: int, c: int)
    ensures (a * b) * c == a * (b * c)
  {
  }

  lemma PowOfProduct(a: int, b: int, e: nat)
    ensures Pow(a * b, e) == Pow(a, e) * Pow(b, e)
  {
    if e > 0 {
      PowOfProduct(a, b, e - 1);
      Interchange(a, b, Pow(a, e - 1), Pow(b, e - 1));
    }
  }

  lemma PowOfPow(b: int, e: nat, f: nat)
    ensures e * f >= 0 && Pow(Pow(b, e), f) == Pow(b, e * f)
  {
    if f == 0 {
      assert e * f == 0;
    } else {
      PowOfPow(b, e, f - 1);
      assert e * f == e + e * (f - 1);
      PowAdd(b, e, e * (f - 1));
    }
  }

  lemma PowOne(e: nat)
    ensures Pow(1, e) == 1
  {
    if e > 0 {
      PowOne(e - 1);
    }
  }

  lemma PowPositive(b: int, e: nat)
    requires b >= 1
    ensures Pow(b, e) >= 1
  {
    if e > 0 {
      PowPositive(b, e - 1);
    }
  }

  lemma PowNonNegative(b: int, e: nat)
    requires b >= 0
    ensures Pow(b, e) >= 0
  {
    if e > 0 {
      PowNonNegative(b, e - 1);
    }
  }

  /** A power of something congruent to 1 stays congruent to 1. */
  lemma PowOfUnit(b: int, e: nat, k: nat, m: nat)
    requires m > 0 && Congruent(Pow(b, e), 1, m)
    ensures e * k >= 0 && Congruent(Pow(b, e * k), 1, m)
  {
    PowOfPow(b, e, k);
    PowCongruent(Pow(b, e), 1, k, m);
    PowOne(k);
  }
}
