/** Prime numbers: Euclid's lemma, Fermat's little theorem, inverses and square roots of one. */
module Primes {
  import opened ModularArithmetic

  ghost predicate Divides(d: int, n: int)
    requires d != 0
  {
    n % d == 0
  }

  ghost predicate IsPrime(p: int) {
    2 <= p && forall d :: 2 <= d < p ==> !Divides(d, p)
  }

  function Factorial(n: nat): nat {
    if n == 0 then 1 else Factorial(n - 1) * n
  }

  function Product(s: seq<int>): int {
    if s == [] then 1 else Product(s[..|s| - 1]) * s[|s| - 1]
  }

  ghost predicate Distinct(s: seq<int>) {
    forall i, j :: 0 <= i < j < |s| ==> s[i] != s[j]
  }

  ghost predicate Within(s: seq<int>, n: int) {
    forall i :: 0 <= i < |s| ==> 1 <= s[i] <= n
  }

  ghost predicate Covers(s: seq<int>, n: int) {
    forall v :: 1 <= v <= n ==> v in s
  }

  // ----- divisors

  lemma DividesTransitive(d: int, m: int, n: int)
    requires d > 0 && m > 0 && Divides(d, m) && Divides(m, n)
    ensures Divides(d, n)
  {
    assert n == d * ((m / d) * (n / m)) by {
      assert d * ((m / d) * (n / m)) == (d * (m / d)) * (n / m);
    }
    MultipleIsZero((m / d) * (n / m), d);
  }

  /** Every number from 2 on has a prime divisor, and a composite one has a prime divisor whose square fits in it. */
  lemma PrimeDivisor(n: int) returns (d: int)
    requires n >= 2
    ensures IsPrime(d) && Divides(d, n) && d <= n
    ensures !IsPrime(n) ==> d * d <= n
    decreases n
  {
    if IsPrime(n) {
      d := n;
      RemainderUnique(n, n, 1, 0);
    } else {
      var e :| 2 <= e < n && Divides(e, n);
      var f := n / e;
      assert e * f == n;
      assert 2 <= f < n by { CofactorRange(e, f, n); }
      assert f * e == n;
      MultipleIsZero(e, f);
      var small := if e <= f then e else f;
      assert small * small <= n by {
        SmallerFactor(e, f);
      }
      d := PrimeDivisor(small);
      DividesTransitive(d, small, n);
      SquareMonotone(d, small);
    }
  }

  lemma CofactorRange(e: int, f: int, n: int)
    requires 2 <= e < n && e * f == n
    ensures 2 <= f < n
  {
    MultipleIsLarge(e, f);
    assert f >= 1;
    assert e * f == 2 * f + f * (e - 2);
  }

  lemma SmallerFactor(e: nat, f: nat)
    ensures (if e <= f then e * e else f * f) <= e * f
  {
  }

  lemma SquareMonotone(a: nat, b: nat)
    requires a <= b
    ensures a * a <= b * b
  {
  }

  // ----- Euclid's lemma and cancellation

  lemma EuclidReduced(p: int, r: int, b: int)
    requires IsPrime(p) && 0 < r < p && (r * b) % p == 0
    ensures b % p == 0
    decreases r
  {
    if r > 1 {
      var k, t := p / r, p % r;
      assert !Divides(r, p);
      assert t * b == p * b - k * (r * b) by {
        assert t == p - k * r;
        assert (p - k * r) * b == p * b - (k * r) * b;
        assert (k * r) * b == k * (r * b);
      }
      assert t * b == p * (b - k * ((r * b) / p)) by {
        assert r * b == p * ((r * b) / p);
        assert k * (p * ((r * b) / p)) == p * (k * ((r * b) / p));
      }
      MultipleIsZero(b - k * ((r * b) / p), p);
      EuclidReduced(p, t, b);
    }
  }

  lemma Euclid(p: int, a: int, b: int)
    requires IsPrime(p) && (a * b) % p == 0
    ensures a % p == 0 || b % p == 0
  {
    ReducedProduct(a, b, p);
    if a % p != 0 {
      EuclidReduced(p, a % p, b);
    }
  }

  lemma Cancel(p: int, c: int, a: int, b: int)
    requires IsPrime(p) && c % p != 0 && Congruent(c * a, c * b, p)
    ensures Congruent(a, b, p)
  {
    CongruentIffDivides(c * a, c * b, p);
    assert c * a - c * b == c * (a - b);
    Euclid(p, c, a - b);
    CongruentIffDivides(a, b, p);
  }

  lemma PowNonZero(p: int, a: int, e: nat)
    requires IsPrime(p) && a % p != 0
    ensures Pow(a, e) % p != 0
  {
    if e == 0 {
      RemainderSmall(1, p);
    } else {
      PowNonZero(p, a, e - 1);
      if Pow(a, e) % p == 0 {
        Euclid(p, a, Pow(a, e - 1));
      }
    }
  }

  lemma FactorialNonZero(p: int, n: nat)
    requires IsPrime(p) && n < p
    ensures Factorial(n) % p != 0
  {
    if n == 0 {
      RemainderSmall(1, p);
    } else {
      FactorialNonZero(p, n - 1);
      RemainderSmall(n, p);
      if Factorial(n) % p == 0 {
        Euclid(p, Factorial(n - 1), n);
      }
    }
  }

  // ----- n distinct values in 1..n

  function Without(s: seq<int>, j: nat): seq<int>
    requires j < |s|
  {
    s[..j] + s[j + 1..]
  }

  lemma ProductSnoc(s: seq<int>, x: int)
    ensures Product(s + [x]) == Product(s) * x
  {
    assert (s + [x])[..|s|] == s;
  }

  lemma {:induction false} ProductWithout(s: seq<int>, j: nat)
    requires j < |s|
    ensures Product(s) == s[j] * Product(Without(s, j))
  {
    var n := |s| - 1;
    if j == n {
      assert Without(s, j) == s[..n];
    } else {
      ProductWithout(s[..n], j);
      var t := Without(s[..n], j);
      ProductSnoc(t, s[n]);
      assert Without(s, j) == t + [s[n]];
      Associate(s[j], Product(t), s[n]);
    }
  }

  lemma WithoutLargest(s: seq<int>, j: nat)
    requires j < |s| && Distinct(s) && Within(s, |s|) && s[j] == |s|
    ensures Distinct(Without(s, j)) && Within(Without(s, j), |s| - 1)
    ensures forall v :: v in Without(s, j) ==> v in s
  {
    var t := Without(s, j);
    forall i | 0 <= i < |t| ensures 1 <= t[i] <= |s| - 1 && t[i] in s {
      var k := if i < j then i else i + 1;
      assert t[i] == s[k];
      assert s[k] != s[j];
    }
  }

  lemma LastIsNew(s: seq<int>)
    requires Distinct(s) && |s| > 0
    ensures s[|s| - 1] !in s[..|s| - 1]
  {
  }

  /** The pigeonhole principle: n distinct values between 1 and n are all of them, so their product is n!. */
  lemma {:induction false} DistinctValuesCover(s: seq<int>, n: nat)
    requires |s| == n && Distinct(s) && Within(s, n)
    ensures Covers(s, n)
    ensures Product(s) == Factorial(n)
  {
    if n > 0 {
      if j :| 0 <= j < n && s[j] == n {
        WithoutLargest(s, j);
        DistinctValuesCover(Without(s, j), n - 1);
        ProductWithout(s, j);
      } else {
        LastIsNew(s);
        DistinctValuesCover(s[..n - 1], n - 1);
        assert false;
      }
    }
  }

  // ----- Fermat

  function Multiples(a: int, p: nat, n: nat): seq<int>
    requires p > 0
  {
    seq(n, i requires 0 <= i < n => (a * (i + 1)) % p)
  }

  lemma MultiplesDistinct(a: int, p: nat)
    requires IsPrime(p) && a % p != 0
    ensures Distinct(Multiples(a, p, p - 1)) && Within(Multiples(a, p, p - 1), p - 1)
  {
    var s := Multiples(a, p, p - 1);
    forall i | 0 <= i < p - 1 ensures 1 <= s[i] <= p - 1 {
      RemainderSmall(i + 1, p);
      if (a * (i + 1)) % p == 0 {
        Euclid(p, a, i + 1);
      }
    }
    forall i, j | 0 <= i < j < p - 1 ensures s[i] != s[j] {
      if s[i] == s[j] {
        Cancel(p, a, i + 1, j + 1);
        RemainderSmall(i + 1, p);
        RemainderSmall(j + 1, p);
      }
    }
  }

  lemma MultiplesProduct(a: int, p: nat, n: nat)
    requires p > 0
    ensures Congruent(Product(Multiples(a, p, n)), Factorial(n) * Pow(a, n), p)
  {
    if n > 0 {
      MultiplesProduct(a, p, n - 1);
      assert Multiples(a, p, n)[..n - 1] == Multiples(a, p, n - 1);
      RemainderCongruent(a * n, p);
      ProductCongruent(Product(Multiples(a, p, n - 1)), Factorial(n - 1) * Pow(a, n - 1), (a * n) % p, a * n, p);
      assert (Factorial(n - 1) * Pow(a, n - 1)) * (a * n) == Factorial(n) * Pow(a, n) by {
        Interchange(Factorial(n - 1), Pow(a, n - 1), n, a);
      }
    }
  }

  /** Fermat's little theorem. */
  lemma Fermat(p: nat, a: int)
    requires IsPrime(p) && a % p != 0
    ensures Pow(a, p - 1) % p == 1
  {
    MultiplesDistinct(a, p);
    DistinctValuesCover(Multiples(a, p, p - 1), p - 1);
    MultiplesProduct(a, p, p - 1);
    FactorialNonZero(p, p - 1);
    Cancel(p, Factorial(p - 1), 1, Pow(a, p - 1));
    RemainderSmall(1, p);
  }

  /** x^(p-2) is the inverse of x modulo a prime p: how the code inverts. */
  lemma FermatInverse(p: nat, x: int)
    requires IsPrime(p) && x % p != 0
    ensures (x * Pow(x, p - 2)) % p == 1
  {
    Fermat(p, x);
  }

  /** Modulo a prime only 1 and -1 square to 1. */
  lemma SquareRootsOfOne(p: nat, x: int)
    requires IsPrime(p) && (x * x) % p == 1
    ensures x % p == 1 || x % p == p - 1
  {
    RemainderSmall(1, p);
    CongruentIffDivides(x * x, 1, p);
    assert x * x - 1 == (x - 1) * (x + 1);
    Euclid(p, x - 1, x + 1);
    if (x - 1) % p == 0 {
      CongruentIffDivides(x, 1, p);
    } else {
      CongruentIffDivides(x, -1, p);
      RemainderUnique(-1, p, -1, p - 1);
    }
  }
}
