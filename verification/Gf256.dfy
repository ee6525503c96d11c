/** aes256.cpp, gmul: multiplication in GF(2^8), section 4.2 of FIPS 197. */
module Gf256 {
  // A byte is a polynomial over GF(2) of degree below 8, addition is xor, and products are taken modulo
  // x^8 + x^4 + x^3 + x + 1.

  function Add(a: bv8, b: bv8): bv8 {
    a ^ b
  }

  /** Multiplication by x. */
  function Xtime(a: bv8): bv8 {
    if a & 0x80 != 0 then (a << 1) ^ 0x1b else a << 1
  }

  /** a times the constant coefficient of b. */
  function Low(b: bv8, a: bv8): bv8 {
    if b & 1 != 0 then a else 0
  }

  /** The reduced product of a and the n lowest coefficients of b. */
  function MulLow(a: bv8, b: bv8, n: nat): bv8
    decreases n
  {
    if n == 0 then 0 else Add(Low(b, a), MulLow(Xtime(a), b >> 1, n - 1))
  }

  function Mul(a: bv8, b: bv8): bv8 {
    MulLow(a, b, 8)
  }

  // ----- addition

  lemma AddZero(x: bv8)
    ensures Add(0, x) == x && Add(x, 0) == x
  {
  }

  lemma AddSelf(x: bv8)
    ensures Add(x, x) == 0
  {
  }

  lemma AddAssociative(x: bv8, y: bv8, z: bv8)
    ensures Add(x, Add(y, z)) == Add(Add(x, y), z)
  {
  }

  lemma AddCommutative(x: bv8, y: bv8)
    ensures Add(x, y) == Add(y, x)
  {
  }

  lemma AddInterchange(a: bv8, b: bv8, x: bv8, y: bv8)
    ensures Add(Add(a, b), Add(x, y)) == Add(Add(a, x), Add(b, y))
  {
    hide *;
    AddAssociative(Add(a, b), x, y);
    AddAssociative(a, b, x);
    AddCommutative(b, x);
    AddAssociative(a, x, b);
    AddAssociative(Add(a, x), b, y);
  }

  // ----- the pieces of the product are linear

  lemma XtimeAdd(a: bv8, b: bv8)
    ensures Xtime(Add(a, b)) == Add(Xtime(a), Xtime(b))
  {
    var d := Add(a, b);
    if a & 0x80 != 0 {
      if b & 0x80 != 0 {
        assert d & 0x80 == 0;
      } else {
        assert d & 0x80 != 0;
      }
    } else {
      if b & 0x80 != 0 {
        assert d & 0x80 != 0;
      } else {
        assert d & 0x80 == 0;
      }
    }
  }

  lemma LowAdd(a: bv8, b: bv8, c: bv8)
    ensures Low(c, Add(a, b)) == Add(Low(c, a), Low(c, b))
  {
    if c & 1 != 0 {
    } else {
    }
  }

  lemma LowOfSum(a: bv8, b: bv8, c: bv8)
    ensures Low(Add(b, c), a) == Add(Low(b, a), Low(c, a))
  {
    var d := Add(b, c);
    if b & 1 != 0 {
      if c & 1 != 0 {
        assert d & 1 == 0;
      } else {
        assert d & 1 != 0;
      }
    } else {
      if c & 1 != 0 {
        assert d & 1 != 0;
      } else {
        assert d & 1 == 0;
      }
    }
  }

  lemma LowXtime(a: bv8, b: bv8)
    ensures Low(b, Xtime(a)) == Xtime(Low(b, a))
  {
  }

  lemma ShiftAdd(b: bv8, c: bv8)
    ensures Add(b, c) >> 1 == Add(b >> 1, c >> 1)
  {
  }

  /** b = b_0 + x * (b / x). */
  lemma SplitLow(b: bv8)
    ensures b == Add(Low(b, 1), Xtime(b >> 1))
  {
  }

  lemma Unfold(a: bv8, b: bv8, n: nat)
    requires n > 0
    ensures MulLow(a, b, n) == Add(Low(b, a), MulLow(Xtime(a), b >> 1, n - 1))
  {
  }

  // ----- the product distributes over addition, on both sides

  lemma {:induction false} MulAddLeft(a: bv8, b: bv8, c: bv8, n: nat)
    ensures MulLow(Add(a, b), c, n) == Add(MulLow(a, c, n), MulLow(b, c, n))
    decreases n
  {
    if n == 0 {
      AddZero(0);
    } else {
      hide *;
      var d, c' := Add(a, b), c >> 1;
      MulAddLeft(Xtime(a), Xtime(b), c', n - 1);
      XtimeAdd(a, b);
      LowAdd(a, b, c);
      Unfold(a, c, n);
      Unfold(b, c, n);
      Unfold(d, c, n);
      AddInterchange(Low(c, a), Low(c, b), MulLow(Xtime(a), c', n - 1), MulLow(Xtime(b), c', n - 1));
    }
  }

  lemma {:induction false} MulAddRight(a: bv8, b: bv8, c: bv8, n: nat)
    ensures MulLow(a, Add(b, c), n) == Add(MulLow(a, b, n), MulLow(a, c, n))
    decreases n
  {
    if n == 0 {
      AddZero(0);
    } else {
      hide *;
      MulAddRight(Xtime(a), b >> 1, c >> 1, n - 1);
      ShiftAdd(b, c);
      LowOfSum(a, b, c);
      Unfold(a, b, n);
      Unfold(a, c, n);
      Unfold(a, Add(b, c), n);
      AddInterchange(Low(b, a), Low(c, a), MulLow(Xtime(a), b >> 1, n - 1), MulLow(Xtime(a), c >> 1, n - 1));
    }
  }

  // ----- multiplication by x, one and zero

  lemma {:induction false} MulByZero(a: bv8, n: nat)
    ensures MulLow(a, 0, n) == 0
    decreases n
  {
    if n > 0 {
      MulByZero(Xtime(a), n - 1);
      AddZero(0);
    }
  }

  lemma {:induction false} MulXtime(a: bv8, b: bv8, n: nat)
    ensures MulLow(Xtime(a), b, n) == Xtime(MulLow(a, b, n))
    decreases n
  {
    if n > 0 {
      hide *;
      MulXtime(Xtime(a), b >> 1, n - 1);
      LowXtime(a, b);
      Unfold(a, b, n);
      Unfold(Xtime(a), b, n);
      XtimeAdd(Low(b, a), MulLow(Xtime(a), b >> 1, n - 1));
    }
  }

  lemma MulByOne(a: bv8)
    ensures Mul(a, 1) == a
  {
    MulByZero(Xtime(a), 7);
    Unfold(a, 1, 8);
    AddZero(a);
  }

  lemma {:induction false} MulOfZero(b: bv8, n: nat)
    ensures MulLow(0, b, n) == 0
    decreases n
  {
    if n > 0 {
      MulOfZero(b >> 1, n - 1);
      AddZero(0);
    }
  }

  /** The number of coefficients up to the highest nonzero one. */
  function Length(b: bv8): nat
    decreases b
  {
    if b == 0 then 0 else 1 + Length(b >> 1)
  }

  lemma LengthBound(b: bv8)
    ensures Length(b) <= 8
    ensures Length(b) == 8 <==> b & 0x80 != 0
  {
    assert b >> 8 == 0;
    assert Length(b >> 7) == (if b >> 7 == 0 then 0 else 1);
    assert Length(b >> 6) == if b >> 6 == 0 then 0 else 1 + Length(b >> 7);
    assert Length(b >> 5) == if b >> 5 == 0 then 0 else 1 + Length(b >> 6);
    assert Length(b >> 4) == if b >> 4 == 0 then 0 else 1 + Length(b >> 5);
    assert Length(b >> 3) == if b >> 3 == 0 then 0 else 1 + Length(b >> 4);
    assert Length(b >> 2) == if b >> 2 == 0 then 0 else 1 + Length(b >> 3);
    assert Length(b >> 1) == if b >> 1 == 0 then 0 else 1 + Length(b >> 2);
  }

  lemma LengthHalf(b: bv8, n: nat)
    requires Length(b) <= n
    ensures Length(b >> 1) <= if n == 0 then 0 else n - 1
    ensures n == 0 ==> b == 0
  {
  }

  lemma {:induction false} OneTimes(b: bv8, n: nat)
    requires Length(b) <= n
    ensures MulLow(1, b, n) == b
    decreases n
  {
    LengthHalf(b, n);
    if n > 0 {
      hide *;
      OneTimes(b >> 1, n - 1);
      MulXtime(1, b >> 1, n - 1);
      Unfold(1, b, n);
      SplitLow(b);
    }
  }

  lemma LowFactor(a: bv8, b: bv8)
    ensures MulLow(Low(a, 1), b, 8) == Low(a, b)
    ensures MulLow(b, Low(a, 1), 8) == Low(a, b)
  {
    hide Xtime, Add;
    LengthBound(b);
    OneTimes(b, 8);
    MulOfZero(b, 8);
    MulByOne(b);
    MulByZero(b, 8);
  }

  // ----- commutativity and associativity

  lemma {:induction false} MulSwap(a: bv8, b: bv8, n: nat)
    requires Length(a) <= n
    ensures MulLow(a, b, 8) == MulLow(b, a, n)
    decreases n
  {
    LengthHalf(a, n);
    if n == 0 {
      MulOfZero(b, 8);
    } else {
      hide *;
      MulSwap(a >> 1, b, n - 1);
      SplitLow(a);
      MulAddLeft(Low(a, 1), Xtime(a >> 1), b, 8);
      LowFactor(a, b);
      MulXtime(a >> 1, b, 8);
      MulXtime(b, a >> 1, n - 1);
      Unfold(b, a, n);
    }
  }

  lemma MulCommutative(a: bv8, b: bv8)
    ensures Mul(a, b) == Mul(b, a)
  {
    LengthBound(a);
    MulSwap(a, b, 8);
  }

  lemma XtimeRight(a: bv8, b: bv8)
    ensures MulLow(a, Xtime(b), 8) == Xtime(MulLow(a, b, 8))
  {
    hide Xtime, Add, MulLow;
    MulCommutative(a, Xtime(b));
    MulCommutative(a, b);
    MulXtime(b, a, 8);
  }

  lemma {:induction false} MulRegroup(a: bv8, b: bv8, c: bv8, n: nat)
    ensures MulLow(MulLow(a, b, 8), c, n) == MulLow(a, MulLow(b, c, n), 8)
    decreases n
  {
    if n == 0 {
      MulByZero(a, 8);
    } else {
      hide *;
      var ab := MulLow(a, b, 8);
      MulRegroup(a, Xtime(b), c >> 1, n - 1);
      XtimeRight(a, b);
      Unfold(ab, c, n);
      Unfold(b, c, n);
      MulAddRight(a, Low(c, b), MulLow(Xtime(b), c >> 1, n - 1), 8);
      LowOfProduct(a, b, c);
    }
  }

  lemma LowOfProduct(a: bv8, b: bv8, c: bv8)
    ensures Low(c, MulLow(a, b, 8)) == MulLow(a, Low(c, b), 8)
  {
    hide Xtime, Add, MulLow;
    MulByZero(a, 8);
  }

  lemma MulAssociative(a: bv8, b: bv8, c: bv8)
    ensures Mul(Mul(a, b), c) == Mul(a, Mul(b, c))
  {
    hide MulLow;
    MulRegroup(a, b, c, 8);
  }

  lemma MulDistributesLeft(a: bv8, b: bv8, c: bv8)
    ensures Mul(Add(a, b), c) == Add(Mul(a, c), Mul(b, c))
  {
    hide MulLow, Add;
    MulAddLeft(a, b, c, 8);
  }

  lemma MulDistributesRight(a: bv8, b: bv8, c: bv8)
    ensures Mul(a, Add(b, c)) == Add(Mul(a, b), Mul(a, c))
  {
    hide MulLow, Add;
    MulAddRight(a, b, c, 8);
  }

  // ----- what the product means: a remainder of polynomial division

  function Add16(x: bv16, y: bv16): bv16 {
    x ^ y
  }

  function Double(x: bv16): bv16 {
    x << 1
  }

  function Wide(r: bv8): bv16 {
    r as bv16
  }

  function Low16(b: bv8, x: bv16): bv16 {
    if b & 1 != 0 then x else 0
  }

  /** The polynomial x times the n lowest coefficients of b, with no reduction. */
  function PolynomialProduct(x: bv16, b: bv8, n: nat): bv16
    decreases n
  {
    if n == 0 then 0 else Add16(Low16(b, x), PolynomialProduct(Double(x), b >> 1, n - 1))
  }

  /** x^8 + x^4 + x^3 + x + 1. */
  function Modulus(): bv16 {
    0x11b
  }

  /** x = q * modulus + r. */
  ghost predicate Leaves(x: bv16, q: bv8, r: bv8) {
    x == Add16(PolynomialProduct(Modulus(), q, 8), Wide(r))
  }

  /** r, of degree below 8, is what division of a * b by the modulus leaves. */
  ghost predicate IsProduct(a: bv8, b: bv8, r: bv8) {
    exists q: bv8 :: Leaves(PolynomialProduct(Wide(a), b, 8), q, r)
  }

  lemma Add16Zero(x: bv16)
    ensures Add16(0, x) == x && Add16(x, 0) == x
  {
  }

  lemma Add16Associative(x: bv16, y: bv16, z: bv16)
    ensures Add16(x, Add16(y, z)) == Add16(Add16(x, y), z)
  {
  }

  lemma Add16Commutative(x: bv16, y: bv16)
    ensures Add16(x, y) == Add16(y, x)
  {
  }

  lemma Add16Interchange(a: bv16, b: bv16, x: bv16, y: bv16)
    ensures Add16(Add16(a, b), Add16(x, y)) == Add16(Add16(a, x), Add16(b, y))
  {
    hide *;
    Add16Associative(Add16(a, b), x, y);
    Add16Associative(a, b, x);
    Add16Commutative(b, x);
    Add16Associative(a, x, b);
    Add16Associative(Add16(a, x), b, y);
  }

  lemma DoubleAdd(x: bv16, y: bv16)
    ensures Double(Add16(x, y)) == Add16(Double(x), Double(y))
  {
  }

  lemma DoubleLow(b: bv8, x: bv16)
    ensures Low16(b, Double(x)) == Double(Low16(b, x))
  {
  }

  lemma WideAdd(a: bv8, b: bv8)
    ensures Wide(Add(a, b)) == Add16(Wide(a), Wide(b))
  {
  }

  /** x * r overflows degree 7 by a multiple of the modulus. */
  lemma DoubleWide(r: bv8)
    ensures Double(Wide(r)) == Add16(Low16(r >> 7, Modulus()), Wide(Xtime(r)))
  {
    if r & 0x80 != 0 {
      assert (r >> 7) & 1 != 0;
    } else {
      assert (r >> 7) & 1 == 0;
    }
  }

  lemma Low16OfSum(x: bv16, b: bv8, c: bv8)
    ensures Low16(Add(b, c), x) == Add16(Low16(b, x), Low16(c, x))
  {
    var d := Add(b, c);
    if b & 1 != 0 {
      if c & 1 != 0 {
        assert d & 1 == 0;
      } else {
        assert d & 1 != 0;
      }
    } else {
      if c & 1 != 0 {
        assert d & 1 != 0;
      } else {
        assert d & 1 == 0;
      }
    }
  }

  lemma UnfoldPolynomial(x: bv16, b: bv8, n: nat)
    requires n > 0
    ensures PolynomialProduct(x, b, n) == Add16(Low16(b, x), PolynomialProduct(Double(x), b >> 1, n - 1))
  {
  }

  lemma {:induction false} PolynomialByZero(x: bv16, n: nat)
    ensures PolynomialProduct(x, 0, n) == 0
    decreases n
  {
    if n > 0 {
      PolynomialByZero(Double(x), n - 1);
      Add16Zero(0);
    }
  }

  lemma {:induction false} PolynomialAdd(x: bv16, b: bv8, c: bv8, n: nat)
    ensures PolynomialProduct(x, Add(b, c), n) == Add16(PolynomialProduct(x, b, n), PolynomialProduct(x, c, n))
    decreases n
  {
    if n == 0 {
      Add16Zero(0);
    } else {
      hide *;
      var y := Double(x);
      PolynomialAdd(y, b >> 1, c >> 1, n - 1);
      ShiftAdd(b, c);
      Low16OfSum(x, b, c);
      UnfoldPolynomial(x, b, n);
      UnfoldPolynomial(x, c, n);
      UnfoldPolynomial(x, Add(b, c), n);
      Add16Interchange(Low16(b, x), Low16(c, x), PolynomialProduct(y, b >> 1, n - 1), PolynomialProduct(y, c >> 1, n - 1));
    }
  }

  lemma {:induction false} PolynomialDouble(x: bv16, b: bv8, n: nat)
    ensures PolynomialProduct(Double(x), b, n) == Double(PolynomialProduct(x, b, n))
    decreases n
  {
    if n > 0 {
      hide *;
      PolynomialDouble(Double(x), b >> 1, n - 1);
      DoubleLow(b, x);
      UnfoldPolynomial(x, b, n);
      UnfoldPolynomial(Double(x), b, n);
      DoubleAdd(Low16(b, x), PolynomialProduct(Double(x), b >> 1, n - 1));
    }
  }

  lemma {:induction false} PolynomialShort(x: bv16, b: bv8, n: nat)
    requires Length(b) <= n
    ensures PolynomialProduct(x, b, n + 1) == PolynomialProduct(x, b, n)
    decreases n
  {
    LengthHalf(b, n);
    if n == 0 {
      PolynomialByZero(x, 1);
    } else {
      hide *;
      PolynomialShort(Double(x), b >> 1, n - 1);
      UnfoldPolynomial(x, b, n);
      UnfoldPolynomial(x, b, n + 1);
    }
  }

  /** Shifting the quotient up one place, with the overflow of the remainder as its new low coefficient. */
  function NextQuotient(q: bv8, r: bv8): bv8 {
    Add(q << 1, r >> 7)
  }

  lemma NextQuotientLength(q: bv8, r: bv8)
    requires Length(q) <= 7
    ensures Length(NextQuotient(q, r)) <= Length(q) + 1
  {
    LengthBound(q);
    assert NextQuotient(q, r) >> 1 == q;
  }

  lemma ShiftedQuotient(x: bv16, q: bv8)
    requires Length(q) <= 7
    ensures PolynomialProduct(x, q << 1, 8) == Double(PolynomialProduct(x, q, 8))
  {
    hide Double, Add16, PolynomialProduct;
    LengthBound(q);
    assert (q << 1) >> 1 == q && (q << 1) & 1 == 0;
    UnfoldPolynomial(x, q << 1, 8);
    PolynomialShort(Double(x), q, 7);
    PolynomialDouble(x, q, 8);
    Add16Zero(PolynomialProduct(Double(x), q, 7));
  }

  lemma OverflowQuotient(x: bv16, r: bv8)
    ensures PolynomialProduct(x, r >> 7, 8) == Low16(r >> 7, x)
  {
    hide Double, Add16, PolynomialProduct, Low16;
    assert (r >> 7) >> 1 == 0;
    UnfoldPolynomial(x, r >> 7, 8);
    PolynomialByZero(Double(x), 7);
    Add16Zero(Low16(r >> 7, x));
  }

  lemma DoubleLeaves(x: bv16, q: bv8, r: bv8)
    requires Leaves(x, q, r) && Length(q) <= 7
    ensures Leaves(Double(x), NextQuotient(q, r), Xtime(r))
  {
    hide Double, Add16, PolynomialProduct, Low16, Wide, Xtime, Add, Length, Modulus;
    var m := Modulus();
    var p := PolynomialProduct(m, q, 8);
    DoubleAdd(p, Wide(r));
    DoubleWide(r);
    ShiftedQuotient(m, q);
    OverflowQuotient(m, r);
    PolynomialAdd(m, q << 1, r >> 7, 8);
    Add16Associative(Double(p), Low16(r >> 7, m), Wide(Xtime(r)));
  }

  lemma AddLeaves(x: bv16, q: bv8, r: bv8, y: bv16, p: bv8, s: bv8)
    requires Leaves(x, q, r) && Leaves(y, p, s)
    ensures Leaves(Add16(x, y), Add(q, p), Add(r, s))
  {
    hide Add16, PolynomialProduct, Wide, Add, Modulus;
    var m := Modulus();
    PolynomialAdd(m, q, p, 8);
    WideAdd(r, s);
    Add16Interchange(PolynomialProduct(m, q, 8), Wide(r), PolynomialProduct(m, p, 8), Wide(s));
  }

  lemma ZeroLeavesZero()
    ensures Leaves(0, 0, 0)
  {
    hide PolynomialProduct;
    PolynomialByZero(Modulus(), 8);
  }

  lemma LowLeaves(x: bv16, q: bv8, r: bv8, b: bv8)
    requires Leaves(x, q, r)
    ensures Leaves(Low16(b, x), Low(b, q), Low(b, r))
  {
    hide Leaves;
    ZeroLeavesZero();
  }

  /** Reducing after every shift, as the loop does, leaves what reducing at the end would leave. */
  lemma {:induction false} ProductLeaves(x: bv16, q: bv8, r: bv8, b: bv8, n: nat) returns (p: bv8)
    requires Leaves(x, q, r) && Length(q) + n <= 8
    ensures Leaves(PolynomialProduct(x, b, n), p, MulLow(r, b, n))
    decreases n
  {
    if n == 0 {
      ZeroLeavesZero();
      p := 0;
    } else {
      hide *;
      NextQuotientLength(q, r);
      DoubleLeaves(x, q, r);
      var u := ProductLeaves(Double(x), NextQuotient(q, r), Xtime(r), b >> 1, n - 1);
      LowLeaves(x, q, r, b);
      UnfoldPolynomial(x, b, n);
      Unfold(r, b, n);
      AddLeaves(Low16(b, x), Low(b, q), Low(b, r),
                PolynomialProduct(Double(x), b >> 1, n - 1), u, MulLow(Xtime(r), b >> 1, n - 1));
      p := Add(Low(b, q), u);
    }
  }

  lemma WideLeavesItself(a: bv8)
    ensures Leaves(Wide(a), 0, a) && Length(0) == 0
  {
    hide PolynomialProduct;
    PolynomialByZero(Modulus(), 8);
    Add16Zero(Wide(a));
  }

  /** The multiples q * modulus, spelled out by the coefficients of q. */
  lemma ModulusMultiple(q: bv8)
    ensures PolynomialProduct(Modulus(), q, 8)
         == Add16(Low16(q, 0x11b), Add16(Low16(q >> 1, 0x236), Add16(Low16(q >> 2, 0x46c), Add16(Low16(q >> 3, 0x8d8),
            Add16(Low16(q >> 4, 0x11b0), Add16(Low16(q >> 5, 0x2360), Add16(Low16(q >> 6, 0x46c0), Low16(q >> 7, 0x8d80))))))))
  {
    hide Add16, Low16, PolynomialProduct;
    UnfoldPolynomial(0x11b, q, 8);
    UnfoldPolynomial(0x236, q >> 1, 7);
    UnfoldPolynomial(0x46c, q >> 2, 6);
    UnfoldPolynomial(0x8d8, q >> 3, 5);
    UnfoldPolynomial(0x11b0, q >> 4, 4);
    UnfoldPolynomial(0x2360, q >> 5, 3);
    UnfoldPolynomial(0x46c0, q >> 6, 2);
    UnfoldPolynomial(0x8d80, q >> 7, 1);
    assert q >> 8 == 0;
    PolynomialByZero(Double(0x8d80), 0);
    Add16Zero(Low16(q >> 7, 0x8d80));
  }

  /** A nonzero multiple of the modulus has degree 8 or more. */
  lemma SmallMultipleIsZero(q: bv8, r: bv8)
    requires PolynomialProduct(Modulus(), q, 8) == Wide(r)
    ensures q == 0
  {
    ModulusMultiple(q);
    hide PolynomialProduct;
    assert q & 0x80 == 0;
    assert q & 0x40 == 0;
    assert q & 0x20 == 0;
    assert q & 0x10 == 0;
    assert q & 0x08 == 0;
    assert q & 0x04 == 0;
    assert q & 0x02 == 0;
    assert q & 0x01 == 0;
  }

  lemma Add16Self(x: bv16)
    ensures Add16(x, x) == 0
  {
  }

  lemma Add16Equal(x: bv16, y: bv16)
    requires Add16(x, y) == 0
    ensures x == y
  {
  }

  lemma AddEqual(x: bv8, y: bv8)
    requires Add(x, y) == 0
    ensures x == y
  {
  }

  lemma WideZero(x: bv8)
    requires Wide(x) == 0
    ensures x == 0
  {
  }

  lemma LeavesIs(x: bv16, q: bv8, r: bv8)
    requires Leaves(x, q, r)
    ensures x == Add16(PolynomialProduct(Modulus(), q, 8), Wide(r))
  {
  }

  lemma RemainderUnique(x: bv16, q: bv8, r: bv8, p: bv8, s: bv8)
    requires Leaves(x, q, r) && Leaves(x, p, s)
    ensures r == s
  {
    hide *;
    AddLeaves(x, q, r, x, p, s);
    Add16Self(x);
    LeavesIs(Add16(x, x), Add(q, p), Add(r, s));
    Add16Equal(PolynomialProduct(Modulus(), Add(q, p), 8), Wide(Add(r, s)));
    SmallMultipleIsZero(Add(q, p), Add(r, s));
    PolynomialByZero(Modulus(), 8);
    WideZero(Add(r, s));
    AddEqual(r, s);
  }

  /** Mul is exactly multiplication of polynomials modulo the AES polynomial. */
  lemma MulIsProduct(a: bv8, b: bv8, r: bv8)
    ensures IsProduct(a, b, r) <==> r == Mul(a, b)
  {
    hide PolynomialProduct, Leaves;
    WideLeavesItself(a);
    var p := ProductLeaves(Wide(a), 0, a, b, 8);
    if q: bv8 :| Leaves(PolynomialProduct(Wide(a), b, 8), q, r) {
      RemainderUnique(PolynomialProduct(Wide(a), b, 8), q, r, p, Mul(a, b));
    }
  }

  // ----- the source's loop

  lemma LoopRound(p: bv8, a: bv8, b: bv8, n: nat)
    requires n > 0
    ensures Add(if b & 1 != 0 then p ^ a else p, MulLow(Xtime(a), b >> 1, n - 1)) == Add(p, MulLow(a, b, n))
  {
    hide MulLow, Xtime;
    Unfold(a, b, n);
    assert (if b & 1 != 0 then p ^ a else p) == Add(p, Low(b, a));
    hide *;
    AddAssociative(p, Low(b, a), MulLow(Xtime(a), b >> 1, n - 1));
  }

  lemma LoopStart(x: bv8, y: bv8)
    ensures Add(0, MulLow(x, y, 8)) == Mul(x, y)
  {
    AddZero(Mul(x, y));
  }

  lemma LoopEnd(p: bv8, a: bv8, b: bv8)
    ensures Add(p, MulLow(a, b, 0)) == p
  {
    AddZero(p);
  }

  method Gmul(x: bv8, y: bv8) returns (p: bv8)
    ensures p == Mul(x, y)
    ensures IsProduct(x, y, p)
  {
    hide MulLow, Mul, Add, IsProduct;
    var a, b := x, y;
    p := 0;
    LoopStart(x, y);
    for i := 0 to 8
      invariant Add(p, MulLow(a, b, 8 - i)) == Mul(x, y)
    {
      LoopRound(p, a, b, 8 - i);
      if b & 1 != 0 {
        p := p ^ a;
      }
      var highBitSet := a & 0x80;
      a := a << 1;
      if highBitSet != 0 {
        a := a ^ 0x1b;
      }
      b := b >> 1;
    }
    LoopEnd(p, a, b);
    MulIsProduct(x, y, p);
  }
}
