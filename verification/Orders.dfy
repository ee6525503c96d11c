/** Multiplicative order modulo a prime, primitive roots, and the number of roots of a polynomial. */
module Orders {
  import opened ModularArithmetic
  import opened Primes

  /** n is the least positive exponent that takes g to 1. */
  ghost predicate IsOrder(g: int, p: nat, n: nat)
    requires p > 0
  {
    1 <= n && Pow(g, n) % p == 1 && forall k: nat :: 1 <= k < n ==> Pow(g, k) % p != 1
  }

  function Powers(g: int, p: nat, n: nat): seq<int>
    requires p > 0
  {
    seq(n, i requires 0 <= i < n => Pow(g, i + 1) % p)
  }

  /** g^1, ..., g^(p-1) modulo p hit each of 1, ..., p-1 exactly once. */
  ghost predicate IsPrimitiveRoot(g: int, p: nat)
    requires p > 1
  {
    && Distinct(Powers(g, p, p - 1))
    && Within(Powers(g, p, p - 1), p - 1)
    && Covers(Powers(g, p, p - 1), p - 1)
  }

  lemma LeastExponent(g: int, p: nat, e: nat) returns (n: nat)
    requires p > 0 && 1 <= e && Pow(g, e) % p == 1
    ensures n <= e && IsOrder(g, p, n)
    decreases e
  {
    if k: nat :| 1 <= k < e && Pow(g, k) % p == 1 {
      n := LeastExponent(g, p, k);
    } else {
      n := e;
    }
  }

  /** If g^n is 1, exponents of g matter only modulo n. */
  lemma ReduceExponent(g: int, p: nat, n: nat, e: nat)
    requires p > 0 && n > 0 && Congruent(Pow(g, n), 1, p)
    ensures Congruent(Pow(g, e), Pow(g, e % n), p)
  {
    if e < n {
      RemainderSmall(e, n);
    } else {
      ReduceExponent(g, p, n, e - n);
      AddMultiple(e - n, 1, n);
      PowAdd(g, n, e - n);
      ProductCongruent(Pow(g, n), 1, Pow(g, e - n), Pow(g, e - n), p);
    }
  }

  lemma OrderDivides(g: int, p: nat, n: nat, e: nat)
    requires p > 1 && IsOrder(g, p, n) && Pow(g, e) % p == 1
    ensures e % n == 0
  {
    RemainderSmall(1, p);
    ReduceExponent(g, p, n, e);
    var r: nat := e % n;
    assert Pow(g, r) % p == 1;
  }

  lemma EqualPowersDown(g: int, p: nat, n: nat, a: nat, b: nat)
    requires IsPrime(p) && g % p != 0 && IsOrder(g, p, n) && a <= b
    requires Congruent(Pow(g, a), Pow(g, b), p)
    ensures Congruent(a, b, n)
  {
    RemainderSmall(1, p);
    PowAdd(g, a, b - a);
    PowNonZero(p, g, a);
    Cancel(p, Pow(g, a), 1, Pow(g, b - a));
    OrderDivides(g, p, n, b - a);
    CongruentIffDivides(b, a, n);
  }

  /** Two powers of g agree exactly when their exponents agree modulo the order of g. */
  lemma EqualPowers(g: int, p: nat, n: nat, a: nat, b: nat)
    requires IsPrime(p) && g % p != 0 && IsOrder(g, p, n)
    ensures Congruent(Pow(g, a), Pow(g, b), p) <==> Congruent(a, b, n)
  {
    if Congruent(Pow(g, a), Pow(g, b), p) {
      if a <= b {
        EqualPowersDown(g, p, n, a, b);
      } else {
        EqualPowersDown(g, p, n, b, a);
      }
    }
    RemainderSmall(1, p);
    ReduceExponent(g, p, n, a);
    ReduceExponent(g, p, n, b);
  }

  lemma OnlyTrivialDivisors(q: nat, n: nat)
    requires IsPrime(q) && 1 <= n <= q && q % n == 0
    ensures n == 1 || n == q
  {
    assert Divides(n, q);
  }

  lemma PowFirst(g: int)
    ensures Pow(g, 1) == g
  {
  }

  /** An element other than 1 whose prime power q is 1 has order q. */
  lemma PrimeOrder(g: int, p: nat, q: nat)
    requires IsPrime(p) && IsPrime(q) && g % p != 1 && Pow(g, q) % p == 1
    ensures IsOrder(g, p, q)
  {
    var n := LeastExponent(g, p, q);
    OrderDivides(g, p, n, q);
    OnlyTrivialDivisors(q, n);
    PowFirst(g);
  }

  lemma FactorsOfTwiceAPrime(n: nat, q: nat)
    requires IsPrime(q) && 1 <= n && (2 * q) % n == 0
    ensures n == 1 || n == 2 || n == q || n == 2 * q
  {
    var m := (2 * q) / n;
    assert n * m == 2 * q;
    MultipleIsZero(2, q);
    assert q * 2 == n * m;
    Euclid(q, n, m);
    if n % q == 0 {
      var t := n / q;
      assert n == q * t;
      assert q * (t * m) == q * 2 by { assert (q * t) * m == q * (t * m); }
      assert t * m == 2;
      SmallFactor(t, m);
    } else {
      var t := m / q;
      assert m == q * t;
      assert q * (n * t) == q * 2 by { assert n * (q * t) == q * (n * t); }
      assert n * t == 2;
      SmallFactor(n, t);
    }
  }

  lemma SmallFactor(t: int, m: int)
    requires t * m == 2 && t >= 0
    ensures t == 1 || t == 2
  {
    if t >= 3 {
      MultipleIsLarge(t, m);
    }
  }

  lemma FullOrderIsPrimitive(g: int, p: nat)
    requires IsPrime(p) && g % p != 0 && IsOrder(g, p, p - 1)
    ensures IsPrimitiveRoot(g, p)
  {
    var s := Powers(g, p, p - 1);
    forall i | 0 <= i < p - 1 ensures 1 <= s[i] <= p - 1 {
      PowNonZero(p, g, i + 1);
    }
    forall i, j | 0 <= i < j < p - 1 ensures s[i] != s[j] {
      EqualPowers(g, p, p - 1, i + 1, j + 1);
      CongruentIffDivides(j + 1, i + 1, p - 1);
      RemainderSmall(j - i, p - 1);
    }
    DistinctValuesCover(s, p - 1);
  }

  lemma ShortOrderIsNotPrimitive(g: int, p: nat, k: nat)
    requires p > 1 && g % p != 0 && 1 <= k && 2 * k <= p - 1 && Pow(g, k) % p == 1
    ensures !IsPrimitiveRoot(g, p)
  {
    RemainderSmall(1, p);
    PowAdd(g, k, k);
    ProductCongruent(Pow(g, k), 1, Pow(g, k), 1, p);
    var s := Powers(g, p, p - 1);
    assert Pow(g, 2 * k) % p == 1;
    assert s[k - 1] == s[2 * k - 1];
  }

  /** For a safe prime p = 2q + 1, g generates everything exactly when neither g^2 nor g^q is 1. */
  lemma SafePrimePrimitiveRoot(g: int, p: nat, q: nat)
    requires IsPrime(p) && IsPrime(q) && p == 2 * q + 1 && g % p != 0
    ensures IsPrimitiveRoot(g, p) <==> Pow(g, 2) % p != 1 && Pow(g, q) % p != 1
  {
    if Pow(g, 2) % p == 1 {
      ShortOrderIsNotPrimitive(g, p, 2);
    } else if Pow(g, q) % p == 1 {
      ShortOrderIsNotPrimitive(g, p, q);
    } else {
      Fermat(p, g);
      var n := LeastExponent(g, p, p - 1);
      OrderDivides(g, p, n, p - 1);
      FactorsOfTwiceAPrime(n, q);
      if n == 1 {
        RemainderSmall(1, p);
        PowOfUnit(g, 1, 2, p);
        assert false;
      }
      FullOrderIsPrimitive(g, p);
    }
  }

  // ----- roots of polynomials, coefficients from the constant term up

  function Eval(c: seq<int>, x: int): int {
    if c == [] then 0 else c[0] + x * Eval(c[1..], x)
  }

  lemma ConstantEval(c: seq<int>, x: int)
    requires |c| == 1
    ensures Eval(c, x) == c[0]
  {
    assert c[1..] == [];
  }

  function Quotient(c: seq<int>, a: int): (d: seq<int>)
    ensures |d| == if |c| <= 1 then 0 else |c| - 1
  {
    if |c| <= 1 then [] else [Eval(c[1..], a)] + Quotient(c[1..], a)
  }

  lemma QuotientLeading(c: seq<int>, a: int)
    requires |c| >= 2
    ensures Quotient(c, a)[|c| - 2] == c[|c| - 1]
  {
    if |c| == 2 {
      ConstantEval(c[1..], a);
    } else {
      QuotientLeading(c[1..], a);
    }
  }

  /** c(x) - c(a) = (x - a) d(x), where d is the quotient of c at a. */
  lemma FactorStep(a: int, x: int, k: int, u: int, v: int, w: int)
    requires u - v == (x - a) * w
    ensures (k + x * u) - (k + a * v) == (x - a) * (v + x * w)
  {
    assert x * u - a * v == x * (u - v) + (x - a) * v;
    assert x * ((x - a) * w) == (x - a) * (x * w);
    assert (x - a) * (v + x * w) == (x - a) * v + (x - a) * (x * w);
  }

  lemma FactorTheorem(c: seq<int>, a: int, x: int)
    ensures Eval(c, x) - Eval(c, a) == (x - a) * Eval(Quotient(c, a), x)
  {
    if |c| > 1 {
      var e := c[1..];
      FactorTheorem(e, a, x);
      var u, v, w := Eval(e, x), Eval(e, a), Eval(Quotient(e, a), x);
      assert Quotient(c, a)[1..] == Quotient(e, a);
      assert Eval(Quotient(c, a), x) == v + x * w;
      FactorStep(a, x, c[0], u, v, w);
    } else if |c| == 1 {
      ConstantEval(c, x);
      ConstantEval(c, a);
    }
  }

  /** Lagrange: modulo a prime, a polynomial has no more roots than its degree. */
  lemma {:induction false} RootBound(p: nat, c: seq<int>, roots: seq<int>)
    requires IsPrime(p) && |c| >= 1 && c[|c| - 1] % p != 0
    requires Distinct(roots) && Within(roots, p - 1)
    requires forall i :: 0 <= i < |roots| ==> Eval(c, roots[i]) % p == 0
    ensures |roots| <= |c| - 1
    decreases |c|
  {
    if roots != [] {
      if |c| == 1 {
        ConstantEval(c, roots[0]);
      } else {
        var n := |roots| - 1;
        var a, rest := roots[n], roots[..n];
        forall i | 0 <= i < n ensures Eval(Quotient(c, a), rest[i]) % p == 0 {
          RootOfQuotient(p, c, a, rest[i]);
        }
        QuotientLeading(c, a);
        RootBound(p, Quotient(c, a), rest);
      }
    }
  }

  lemma RootOfQuotient(p: nat, c: seq<int>, a: int, x: int)
    requires IsPrime(p) && 1 <= a < p && 1 <= x < p && x != a
    requires Eval(c, a) % p == 0 && Eval(c, x) % p == 0
    ensures Eval(Quotient(c, a), x) % p == 0
  {
    FactorTheorem(c, a, x);
    CongruentIffDivides(Eval(c, x), Eval(c, a), p);
    Euclid(p, x - a, Eval(Quotient(c, a), x));
    CongruentIffDivides(x, a, p);
    RemainderSmall(x, p);
    RemainderSmall(a, p);
  }

  function Monomial(q: nat): seq<int> {
    if q == 0 then [1] else [0] + Monomial(q - 1)
  }

  lemma MonomialEval(q: nat, x: int)
    ensures |Monomial(q)| == q + 1 && Monomial(q)[q] == 1
    ensures Eval(Monomial(q), x) == Pow(x, q)
  {
    if q == 0 {
      assert Monomial(0)[1..] == [];
    } else {
      MonomialEval(q - 1, x);
      assert Monomial(q)[1..] == Monomial(q - 1);
    }
  }

  /** Above 3, some g strictly between 1 and p-1 has g^((p-1)/2) different from 1. */
  lemma NonResidueExists(p: nat) returns (g: nat)
    requires IsPrime(p) && p > 3
    ensures 2 <= g <= p - 2 && Pow(g, (p - 1) / 2) % p != 1
  {
    var q := (p - 1) / 2;
    assert p != 4 by { assert Divides(2, 4); }
    if forall x :: 1 <= x <= p - 2 ==> Pow(x, q) % p == 1 {
      var c := [-1] + Monomial(q)[1..];
      var roots := seq(p - 2, i => i + 1);
      MonomialEval(q, 0);
      forall i | 0 <= i < |roots| ensures Eval(c, roots[i]) % p == 0 {
        var x := roots[i];
        MonomialEval(q, x);
        assert c[1..] == Monomial(q)[1..] && Monomial(q)[0] == 0;
        CongruentIffDivides(Pow(x, q), 1, p);
        RemainderSmall(1, p);
      }
      RemainderSmall(1, p);
      RootBound(p, c, roots);
    }
    g :| 1 <= g <= p - 2 && Pow(g, q) % p != 1;
    PowOne(q);
    RemainderSmall(1, p);
  }
}
