/** crypto_utils.cpp: how many bases, and sequences of bases, deceive the primality test about an odd composite. */
module Witnesses {
  import opened ModularArithmetic
  import opened Orders
  import opened Primes
  import opened RandomSource
  import opened CryptoUtils
  import opened Spreads

  /** The bases the test passes. */
  ghost function Liars(n: nat): set<int>
    requires n >= 2
  {
    set a: int | 1 <= a < n && StrongProbablePrime(n, a)
  }

  // ----- counting

  ghost function Times(s: set<int>, w: int, n: nat): set<int>
    requires n > 0
  {
    set a | a in s :: (a * w) % n
  }

  lemma SameProduct(a: int, b: int, w: int, inverse: int, n: nat)
    requires n > 1 && 0 <= a < n && 0 <= b < n && (w * inverse) % n == 1 && (a * w) % n == (b * w) % n
    ensures a == b
  {
    RemainderSmall(1, n);
    RemainderSmall(a, n);
    RemainderSmall(b, n);
    ProductCongruent(a * w, b * w, inverse, inverse, n);
    Associate(a, w, inverse);
    Associate(b, w, inverse);
    ProductCongruent(a, a, w * inverse, 1, n);
    ProductCongruent(b, b, w * inverse, 1, n);
  }

  lemma Member(s: set<int>) returns (a: int)
    requires |s| > 0
    ensures a in s
  {
    if forall b :: b !in s {
      assert false;
    }
    a :| a in s;
  }

  lemma OneMoreProduct(s: set<int>, a: int, w: int, n: nat)
    requires n > 0
    ensures Times(s + {a}, w, n) == Times(s, w, n) + {(a * w) % n}
  {
  }

  /** Multiplication by an invertible number keeps the size of a set. */
  lemma {:induction false} TimesSize(s: set<int>, w: int, inverse: int, n: nat)
    requires n > 1 && (w * inverse) % n == 1 && forall a :: a in s ==> 0 <= a < n
    ensures |Times(s, w, n)| == |s|
    decreases |s|
  {
    if |s| > 0 {
      var a := Member(s);
      var rest := s - {a};
      TimesSize(rest, w, inverse, n);
      forall b | b in rest ensures (b * w) % n != (a * w) % n {
        if (b * w) % n == (a * w) % n {
          SameProduct(a, b, w, inverse, n);
        }
      }
      assert (a * w) % n !in Times(rest, w, n);
      OneMoreProduct(rest, a, w, n);
      assert s == rest + {a};
    }
  }

  ghost function UpTo(k: nat): (s: set<int>)
    ensures forall i :: i in s <==> 1 <= i <= k
    ensures |s| == k
  {
    if k == 0 then {} else UpTo(k - 1) + {k}
  }

  lemma {:induction false} SubsetSize(s: set<int>, t: set<int>)
    requires s <= t
    ensures |s| <= |t|
    decreases |s|
  {
    if |s| > 0 {
      var a := Member(s);
      SubsetSize(s - {a}, t - {a});
    }
  }

  lemma ProductNonZero(a: int, w: int, inverse: int, n: nat)
    requires n > 1 && 0 < a < n && (w * inverse) % n == 1
    ensures (a * w) % n != 0
  {
    if (a * w) % n == 0 {
      RemainderSmall(0, n);
      SameProduct(a, 0, w, inverse, n);
    }
  }

  /** The bases in s, multiplied by each of ws. */
  ghost function Cosets(n: nat, s: set<int>, ws: seq<nat>): set<int>
    requires n > 0
  {
    if ws == [] then {} else Cosets(n, s, ws[..|ws| - 1]) + Times(s, ws[|ws| - 1], n)
  }

  lemma {:induction false} CosetMember(n: nat, s: set<int>, ws: seq<nat>, y: int) returns (i: nat, x: int)
    requires n > 0 && y in Cosets(n, s, ws)
    ensures i < |ws| && x in s && y == (x * ws[i]) % n
    decreases |ws|
  {
    var last := |ws| - 1;
    if y in Times(s, ws[last], n) {
      x :| x in s && y == (x * ws[last]) % n;
      i := last;
    } else {
      i, x := CosetMember(n, s, ws[..last], y);
    }
  }

  /** Products with different multipliers of a spread differ. */
  lemma DifferentProducts(n: nat, j: nat, x: nat, y: nat, w: nat, v: nat, inverse: nat)
    requires n >= 3 && y < n && PlusMinus(n, j, x) && PlusMinus(n, j, y)
    requires (v * inverse) % n == 1 && !PlusMinus(n, j, (w * inverse) % n)
    ensures (x * w) % n != (y * v) % n
  {
    if (x * w) % n == (y * v) % n {
      hide PlusMinus;
      ProductCongruent(x * w, y * v, inverse, inverse, n);
      Associate(x, w, inverse);
      Associate(y, v, inverse);
      RemainderSmall(1, n);
      RemainderSmall(y, n);
      ProductCongruent(y, y, v * inverse, 1, n);
      ReducedProduct(x, w * inverse, n);
      LeadsOutside(n, j, x, (w * inverse) % n);
    }
  }

  ghost predicate Inside(n: nat, j: nat, s: set<int>)
    requires n >= 2
  {
    forall a :: a in s ==> 1 <= a < n && PlusMinus(n, j, a)
  }

  lemma LastCosetApart(n: nat, j: nat, s: set<int>, ws: seq<nat>, inverses: seq<nat>)
    requires n >= 3 && Inside(n, j, s) && ws != [] && Spread(n, j, ws, inverses)
    ensures Cosets(n, s, ws[..|ws| - 1]) !! Times(s, ws[|ws| - 1], n)
  {
    var last := |ws| - 1;
    forall y | y in Cosets(n, s, ws[..last]) ensures y !in Times(s, ws[last], n) {
      var i, x := CosetMember(n, s, ws[..last], y);
      if z :| z in s && y == (z * ws[last]) % n {
        DifferentProducts(n, j, x, z, ws[i], ws[last], inverses[last]);
      }
    }
  }

  lemma SpreadPrefix(n: nat, j: nat, ws: seq<nat>, inverses: seq<nat>)
    requires n >= 2 && ws != [] && Spread(n, j, ws, inverses)
    ensures |inverses| == |ws| && Spread(n, j, ws[..|ws| - 1], inverses[..|ws| - 1])
    ensures (ws[|ws| - 1] * inverses[|ws| - 1]) % n == 1
  {
    hide PlusMinus;
  }

  lemma {:induction false} CosetsSize(n: nat, j: nat, s: set<int>, ws: seq<nat>, inverses: seq<nat>)
    requires n >= 3 && Inside(n, j, s) && Spread(n, j, ws, inverses)
    ensures |Cosets(n, s, ws)| == |ws| * |s|
    decreases |ws|
  {
    hide Spread, PlusMinus, Times;
    if ws != [] {
      var last := |ws| - 1;
      SpreadPrefix(n, j, ws, inverses);
      LastCosetApart(n, j, s, ws, inverses);
      CosetsSize(n, j, s, ws[..last], inverses[..last]);
      TimesSize(s, ws[last], inverses[last], n);
      OneMore(|ws|, |s|);
    }
  }

  lemma OneMore(k: nat, size: nat)
    requires k >= 1
    ensures k * size == (k - 1) * size + size
  {
  }

  /** As many copies of s as there are multipliers fit in 1, ..., n - 1. */
  lemma CosetsFit(n: nat, j: nat, s: set<int>, ws: seq<nat>, inverses: seq<nat>)
    requires n >= 3 && Inside(n, j, s) && Spread(n, j, ws, inverses)
    ensures |ws| * |s| <= n - 1
  {
    forall y | y in Cosets(n, s, ws) ensures 1 <= y < n {
      var i, x := CosetMember(n, s, ws, y);
      ProductNonZero(x, ws[i], inverses[i], n);
    }
    CosetsSize(n, j, s, ws, inverses);
    SubsetSize(Cosets(n, s, ws), UpTo(n - 1));
  }

  // ----- multiples of 9

  /** The multiples of 3 from 3 to 3 k. */
  ghost function Thirds(k: nat): (s: set<int>)
    ensures forall i :: i in s ==> 1 <= i <= 3 * k && i % 3 == 0
    ensures |s| == k
  {
    if k == 0 then {} else Thirds(k - 1) + {3 * k}
  }

  lemma InvertibleNotThird(n: nat, x: nat, z: int)
    requires n >= 2 && n % 3 == 0 && (x * z) % n == 1
    ensures x % 3 != 0
  {
    RemainderOfFactor(x * z, n, 3);
    ReducedProduct(x, z, 3);
  }

  lemma CosetNotThird(n: nat, m: nat, j: nat, s: set<int>, ws: seq<nat>, inverses: seq<nat>, y: int)
    requires n == 3 * m && n >= 3 && j < Twos(n - 1) && Inside(n, j, s) && Spread(n, j, ws, inverses)
    requires y in Cosets(n, s, ws)
    ensures 1 <= y < n && y % 3 != 0
  {
    MultipleIsZero(m, 3);
    var i, x := CosetMember(n, s, ws, y);
    var w, inverse := ws[i], inverses[i];
    assert (w * inverse) % n == 1 && 1 <= x < n && PlusMinus(n, j, x);
    hide *;
    ProductNonZero(x, w, inverse, n);
    NotThirdProduct(n, j, x, w, inverse);
  }

  /** For a multiple of 9, the multiples of 3 are in no coset, so three cosets are enough. */
  lemma ThreeCosetsFit(n: nat, m: nat, j: nat, s: set<int>, ws: seq<nat>, inverses: seq<nat>)
    requires n == 3 * m && n >= 3 && j < Twos(n - 1) && Inside(n, j, s) && Spread(n, j, ws, inverses)
    ensures |ws| * |s| <= 2 * m
  {
    hide *;
    var cosets, thirds := Cosets(n, s, ws), Thirds(m - 1);
    forall y | y in cosets ensures 1 <= y < n && y !in thirds {
      CosetNotThird(n, m, j, s, ws, inverses, y);
    }
    CosetsSize(n, j, s, ws, inverses);
    SubsetSize(cosets + thirds, UpTo(n - 1));
  }

  lemma NotThirdProduct(n: nat, j: nat, x: nat, w: nat, inverse: nat)
    requires n >= 3 && n % 3 == 0 && j < Twos(n - 1) && PlusMinus(n, j, x) && (w * inverse) % n == 1
    ensures ((x * w) % n) % 3 != 0
  {
    PlusMinusIsFermat(n, j, x);
    assert Pow(x, n - 1) == x * Pow(x, n - 2);
    InvertibleNotThird(n, x, Pow(x, n - 2));
    InvertibleNotThird(n, w, inverse);
    RemainderOfFactor(x * w, n, 3);
    ReducedProduct(x, w, 3);
  }

  // ----- the bound

  lemma FewInsideRepeated(n: nat, p: nat, m: nat, j: nat, s: set<int>)
    requires n >= 3 && p >= 3 && n == p * m && m % p == 0 && 0 < m && j < Twos(n - 1) && IsPrime(p)
    requires Inside(n, j, s)
    ensures 4 * |s| <= n - 1
  {
    assert p != 4 by { assert Divides(2, 4); }
    if p == 3 {
      var ws, inverses := RepeatedSpread(n, p, m, j, 3);
      ThreeCosetsFit(n, m, j, s, ws, inverses);
    } else {
      var ws, inverses := RepeatedSpread(n, p, m, j, 4);
      CosetsFit(n, j, s, ws, inverses);
    }
  }

  lemma FewInsideThree(n: nat, p: nat, q: nat, r: nat, j: nat, v: nat, s: set<int>)
    requires IsPrime(p) && IsPrime(q) && p >= 3 && q >= 3 && r >= 3 && n >= 3
    requires n == p * (q * r) && (q * r) % p != 0 && r % q != 0
    requires Square(n, v, j) == n - 1 && Inside(n, j, s)
    ensures 4 * |s| <= n - 1
  {
    if (p * r) % q == 0 {
      Euclid(q, p, r);
      OnlyTrivialDivisors(p, q) by {
        DivisorOfPrime(p, q);
      }
      MultipleIsZero(r, q);
    }
    var ws, inverses := ThreeFactors(n, p, q, r, j, v);
    CosetsFit(n, j, s, ws, inverses);
  }

  lemma DivisorOfPrime(p: nat, q: nat)
    requires p >= 1 && q >= 1 && p % q == 0
    ensures q <= p
  {
    if p < q {
      RemainderSmall(p, q);
    }
  }

  lemma OddFactor(x: nat, y: nat)
    requires (x * y) % 2 == 1
    ensures x % 2 == 1 && y % 2 == 1
  {
    ReducedProduct(x, y, 2);
  }

  lemma Cofactor(q: nat, m: nat) returns (r: nat)
    requires q >= 1 && m >= 1 && m % q == 0
    ensures m == q * r && r >= 1
  {
    r := m / q;
  }

  /** Splitting off another prime. */
  lemma AnotherFactor(n: nat, p: nat, m: nat) returns (q: nat, r: nat)
    requires n % 2 == 1 && IsPrime(p) && p >= 3 && m >= 3 && n == p * m && m % p != 0
    ensures IsPrime(q) && m == q * r && q >= 3 && (r == 1 || r >= 3) && q % p != 0 && q != p
  {
    q := PrimeDivisor(m);
    assert q >= 2 && m % q == 0;
    hide *;
    r := Cofactor(q, m);
    OddFactor(p, m);
    OddFactor(q, r);
    NoFactor(q, r, p);
    MultipleIsZero(1, p);
  }

  lemma NoFactor(q: nat, r: nat, p: nat)
    requires p >= 1 && (q * r) % p != 0
    ensures q % p != 0
  {
    if q % p == 0 {
      ReducedProduct(q, r, p);
      RemainderSmall(0, p);
    }
  }

  lemma FewInsideMixed(n: nat, p: nat, m: nat, j: nat, v: nat, s: set<int>)
    requires n % 2 == 1 && IsPrime(p) && p >= 3 && m >= 3 && n == p * m && n >= 3 && m % p != 0 && j < Twos(n - 1)
    requires Square(n, v, j) == n - 1 && Inside(n, j, s)
    ensures 4 * |s| <= n - 1
  {
    var q, r := AnotherFactor(n, p, m);
    hide Inside, IsPrime, Square, Twos;
    if r == 1 {
      var ws, inverses := TwoPrimes(n, p, q, j, v);
      CosetsFit(n, j, s, ws, inverses);
    } else if r % q == 0 {
      RepeatedProduct(n, p, q, r);
      FewInsideRepeated(n, q, p * r, j, s);
    } else {
      FewInsideThree(n, p, q, r, j, v, s);
    }
  }

  lemma RepeatedProduct(n: nat, p: nat, q: nat, r: nat)
    requires p >= 1 && q >= 1 && r >= 1 && n == p * (q * r) && r % q == 0
    ensures p * r > 0 && n == q * (p * r) && (p * r) % q == 0
  {
    assert p * (q * r) == q * (p * r);
    ReducedProduct(p, r, q);
    RemainderSmall(0, q);
    assert p * r >= 1;
  }

  lemma FewInside(n: nat, j: nat, v: nat, s: set<int>)
    requires n >= 3 && n % 2 == 1 && !IsPrime(n) && j < Twos(n - 1)
    requires Square(n, v, j) == n - 1 && Inside(n, j, s)
    ensures 4 * |s| <= n - 1
  {
    var p, m := TwoFactors(n);
    if m % p == 0 {
      FewInsideRepeated(n, p, m, j, s);
    } else {
      FewInsideMixed(n, p, m, j, v, s);
    }
  }

  /** At most a quarter of the bases from 1 to n - 1 deceive the test about an odd composite n. */
  lemma AtMostQuarterLie(n: nat)
    requires n >= 3 && n % 2 == 1 && !IsPrime(n)
    ensures 4 * |Liars(n)| <= n - 1
  {
    HalvedOnce(n);
    var j := LastMinusOne(n, Twos(n - 1) - 1);
    var v: nat :| 1 <= v < n && Square(n, v, j) == n - 1;
    forall a | a in Liars(n) ensures PlusMinus(n, j, a) {
      LiarIsPlusMinus(n, j, a);
    }
    FewInside(n, j, v, Liars(n));
  }

  /** The bases is_prime can draw, from 4 to n - 2, that deceive the test. */
  ghost function DrawnLiars(n: nat): set<int>
    requires n >= 2
  {
    set a: int | 4 <= a <= n - 2 && StrongProbablePrime(n, a)
  }

  /** Among the n - 5 bases is_prime draws from, fewer than a quarter deceive the test: 1 and n - 1 are not drawn. */
  lemma FewerDrawnLie(n: nat)
    requires n >= 3 && n % 2 == 1 && !IsPrime(n)
    ensures 4 * |DrawnLiars(n)| <= n - 9
  {
    AtMostQuarterLie(n);
    OneIsInside(n, 0);
    MinusOneOdd(n, OddPart(n - 1));
    PowOne(OddPart(n - 1));
    RemainderSmall(1, n);
    assert 1 in Liars(n) && n - 1 in Liars(n);
    SubsetSize(DrawnLiars(n) + {1} + {n - 1}, Liars(n));
    assert |DrawnLiars(n) + {1} + {n - 1}| == |DrawnLiars(n)| + 2;
  }

  // ----- several rounds

  /** The sequences of k members of s. */
  ghost function Sequences(s: set<int>, k: nat): set<seq<int>> {
    if k == 0 then {[]} else Prepended(s, Sequences(s, k - 1))
  }

  ghost function Prepended(s: set<int>, tails: set<seq<int>>): set<seq<int>> {
    set x, t | x in s && t in tails :: [x] + t
  }

  lemma InPrepended(s: set<int>, tails: set<seq<int>>, x: int, t: seq<int>)
    ensures [x] + t in Prepended(s, tails) <==> x in s && t in tails
  {
    if y, u :| y in s && u in tails && [x] + t == [y] + u {
      assert ([x] + t)[0] == ([y] + u)[0];
      assert ([x] + t)[1..] == t && ([y] + u)[1..] == u;
    }
  }

  lemma {:induction false} PrependedOneSize(x: int, tails: set<seq<int>>)
    ensures |Prepended({x}, tails)| == |tails|
    decreases |tails|
  {
    if |tails| == 0 {
      assert Prepended({x}, tails) == {};
    } else {
      var t := MemberOf(tails);
      var rest := tails - {t};
      PrependedOneSize(x, rest);
      InPrepended({x}, rest, x, t);
      assert tails == rest + {t};
      assert Prepended({x}, tails) == Prepended({x}, rest) + {[x] + t};
    }
  }

  lemma MemberOf(s: set<seq<int>>) returns (t: seq<int>)
    requires |s| > 0
    ensures t in s
  {
    if forall u :: u !in s {
      assert false;
    }
    t :| t in s;
  }

  lemma NothingPrepended(tails: set<seq<int>>)
    ensures |Prepended({}, tails)| == 0
  {
    assert Prepended({}, tails) == {};
  }

  lemma {:induction false} PrependedSize(s: set<int>, tails: set<seq<int>>)
    ensures |Prepended(s, tails)| == |s| * |tails|
    decreases |s|
  {
    hide Prepended;
    if |s| == 0 {
      NothingPrepended(tails);
    } else {
      var x := Member(s);
      var rest := s - {x};
      assert s == rest + {x};
      PrependedSize(rest, tails);
      PrependedOneSize(x, tails);
      PrependedApart(rest, x, tails);
      OneMore(|s|, |tails|);
    }
  }

  lemma PrependedApart(rest: set<int>, x: int, tails: set<seq<int>>)
    requires x !in rest
    ensures Prepended(rest, tails) !! Prepended({x}, tails)
    ensures Prepended(rest + {x}, tails) == Prepended(rest, tails) + Prepended({x}, tails)
  {
    forall u | u in Prepended({x}, tails) ensures u !in Prepended(rest, tails) {
      var t :| t in tails && u == [x] + t;
      InPrepended(rest, tails, x, t);
    }
  }

  lemma {:induction false} SequencesCount(s: set<int>, k: nat)
    ensures |Sequences(s, k)| == Pow(|s|, k)
  {
    if k > 0 {
      SequencesCount(s, k - 1);
      PrependedSize(s, Sequences(s, k - 1));
    }
  }

  /** The bases is_prime draws when none of them stops it. */
  ghost function BasesDrawn(n: nat, iterations: nat, tape: seq<Draw>): seq<int>
    requires n >= 6
  {
    if iterations == 0 then []
    else match Sample(2, n - 2, tape)
      case Drawn(a, rest) => [a] + BasesDrawn(n, iterations - 1, rest)
      case _ => []
  }

  /** The rounds answer true exactly when all the bases they draw deceive the test. */
  lemma {:induction false} RoundsAcceptExactly(n: nat, iterations: nat, tape: seq<Draw>)
    requires n >= 6
    ensures var v := RoundsVerdict(n, iterations, tape);
            v.Answer? && v.isPrime <==> BasesDrawn(n, iterations, tape) in Sequences(DrawnLiars(n), iterations)
    decreases iterations
  {
    if iterations > 0 {
      SampleRange(2, n - 2, tape);
      match Sample(2, n - 2, tape)
      case Drawn(a, rest) =>
        hide StrongProbablePrime, Sample;
        RoundsAcceptExactly(n, iterations - 1, rest);
        InPrepended(DrawnLiars(n), Sequences(DrawnLiars(n), iterations - 1), a, BasesDrawn(n, iterations - 1, rest));
      case _ =>
    }
  }

  /**
   * is_prime answers true for a composite number exactly when it has none of the small factors and all the bases
   * drawn deceive the test.
   */
  lemma AcceptedExact(n: nat, iterations: nat, tape: seq<Draw>)
    requires n >= 6 && !IsPrime(n)
    ensures var v := PrimalityVerdict(n, iterations, tape);
            v.Answer? && v.isPrime <==>
              !HasSmallFactor(n) && BasesDrawn(n, iterations, tape) in Sequences(DrawnLiars(n), iterations)
  {
    RoundsAcceptExactly(n, iterations, tape);
    if n in SMALL_PRIMES {
      SmallPrimesArePrime(n);
    }
  }

  /** The bases is_prime draws from. */
  ghost function Drawable(n: nat): (s: set<int>)
    requires n >= 5
    ensures forall a :: a in s <==> 4 <= a <= n - 2
    ensures |s| == n - 5
  {
    if n == 5 then {} else Drawable(n - 1) + {n - 2}
  }

  lemma {:induction false} PowMonotone(a: nat, b: nat, k: nat)
    requires a <= b
    ensures 0 <= Pow(a, k) <= Pow(b, k)
  {
    if k > 0 {
      PowMonotone(a, b, k - 1);
      assert a * Pow(a, k - 1) <= b * Pow(b, k - 1);
    }
  }

  /** Of all sequences of k bases, at most one in 4^k makes k rounds accept an odd composite n. */
  lemma FewSequencesDeceive(n: nat, k: nat)
    requires n >= 5 && n % 2 == 1 && !IsPrime(n)
    ensures Pow(4, k) * |Sequences(DrawnLiars(n), k)| <= |Sequences(Drawable(n), k)|
  {
    FewerDrawnLie(n);
    var liars := |DrawnLiars(n)|;
    SequencesCount(DrawnLiars(n), k);
    SequencesCount(Drawable(n), k);
    PowOfProduct(4, liars, k);
    PowMonotone(4 * liars, n - 5, k);
  }
}
