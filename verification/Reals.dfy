/** Exact real arithmetic: the few order facts and the elementary functions the program needs. */
module Reals {

  function Abs(a: real): real {
    if a < 0.0 then -a else a
  }

  function Max(a: real, b: real): real {
    if a < b then b else a
  }

  function Min(a: real, b: real): real {
    if b < a then b else a
  }

  function Pow(x: real, n: nat): real {
    if n == 0 then 1.0 else x * Pow(x, n - 1)
  }

  /** The product, with the sign rules spelled out for the solver. */
  function Product(a: real, b: real): (c: real)
    ensures ((a > 0.0 && b > 0.0) || (a < 0.0 && b < 0.0)) ==> c > 0.0
    ensures ((a > 0.0 && b < 0.0) || (a < 0.0 && b > 0.0)) ==> c < 0.0
    ensures a == 0.0 || b == 0.0 ==> c == 0.0
  {
    a * b
  }

  /** The product by name: equal factors give equal products by congruence, and the
      solver multiplies out the two sides. Polynomial identities are proved in such steps. */
  function Mul(a: real, b: real): real {
    a * b
  }

  function Over(a: real, b: real): real
    requires b != 0.0
  {
    a / b
  }

  lemma SquareVanishes(a: real)
    requires a * a <= 0.0
    ensures a == 0.0
  {
    assert Product(a, a) == a * a;
  }

  lemma PositiveFactor(a: real, b: real)
    requires a > 0.0 && a * b >= 0.0
    ensures b >= 0.0
  {
    assert Product(a, b) == a * b;
  }

  lemma ProductMonotone(a: real, b: real, c: real)
    requires a <= b && 0.0 <= c
    ensures a * c <= b * c && c * a <= c * b
  {
    assert Product(b - a, c) == b * c - a * c;
  }

  lemma ProductNonNegative(a: real, b: real)
    requires a >= 0.0 && b >= 0.0
    ensures a * b >= 0.0
  {
    assert Product(a, b) == a * b;
  }

  lemma MulIs(a: real, b: real)
    ensures Mul(a, b) == a * b
  {
  }

  lemma TimesOne(a: real)
    ensures Mul(1.0, a) == a == Mul(a, 1.0)
  {
  }

  lemma MulMonotone(a: real, b: real, c: real)
    requires a <= b && 0.0 <= c
    ensures Mul(a, c) <= Mul(b, c)
  {
    ProductMonotone(a, b, c);
  }

  lemma MulOrders(a: real, b: real, c: real, d: real)
    requires 0.0 <= a <= c && 0.0 <= b <= d
    ensures 0.0 <= Mul(a, b) <= Mul(c, d)
  {
    ProductNonNegative(a, b);
    ProductMonotone(a, c, b);
    ProductMonotone(b, d, c);
  }

  /** Squares order non-negative reals. */
  lemma SquaresOrder(a: real, b: real)
    requires a >= 0.0 && b >= 0.0 && a * a <= b * b
    ensures a <= b
  {
    assert Product(a - b, a + b) == a * a - b * b;
  }

  /** `std::exp`, `std::log` and `std::sqrt` as exact functions, known only by their laws. */
  datatype Elementary = Elementary(exp: real -> real, ln: real -> real, sqrt: real -> real)
  {
    ghost predicate ExpAdds(a: real, b: real) {
      exp(a + b) == exp(a) * exp(b)
    }

    ghost predicate ExpAboveTangent(a: real) {
      exp(a) > 0.0 && exp(a) >= 1.0 + a
    }

    ghost predicate LnInverts(a: real) {
      exp(ln(a)) == a
    }

    ghost predicate SqrtSquares(a: real) {
      sqrt(a) >= 0.0 && sqrt(a) * sqrt(a) == a
    }

    /** True of the exponential, the natural logarithm and the square root. */
    ghost predicate Lawful() {
      && (forall a, b :: ExpAdds(a, b))
      && (forall a :: ExpAboveTangent(a))
      && (forall a :: a > 0.0 ==> LnInverts(a))
      && (forall a :: a >= 0.0 ==> SqrtSquares(a))
    }

    lemma ExpSum(a: real, b: real)
      requires Lawful()
      ensures exp(a + b) == exp(a) * exp(b)
    {
      assert ExpAdds(a, b);
    }

    lemma ExpPositive(a: real)
      requires Lawful()
      ensures exp(a) > 0.0 && exp(a) >= 1.0 + a
    {
      assert ExpAboveTangent(a);
    }

    lemma ExpZero()
      requires Lawful()
      ensures exp(0.0) == 1.0
    {
      ExpSum(0.0, 0.0);
      ExpPositive(0.0);
      var e := exp(0.0);
      assert e * (e - 1.0) == 0.0;
      assert Product(e, e - 1.0) == 0.0;
    }

    lemma ExpMonotone(a: real, b: real)
      requires Lawful()
      ensures a < b <==> exp(a) < exp(b)
      ensures a == b <==> exp(a) == exp(b)
    {
      if a < b {
        ExpIncreases(a, b);
      } else if b < a {
        ExpIncreases(b, a);
      }
    }

    lemma ExpIncreases(a: real, b: real)
      requires Lawful() && a < b
      ensures exp(a) < exp(b)
    {
      ExpSum(a, b - a);
      ExpPositive(a);
      ExpPositive(b - a);
      assert a + (b - a) == b;
      assert Product(exp(a), exp(b - a) - 1.0) == exp(b) - exp(a);
    }

    lemma {:induction false} ExpRepeats(a: real, n: nat, all: real)
      requires Lawful() && all == n as real * a
      ensures exp(all) == Pow(exp(a), n)
    {
      if n == 0 {
        assert Product(n as real, a) == all;
        ExpZero();
      } else {
        ExpRepeats(a, n - 1, all - a);
        ExpSum(all - a, a);
        assert (all - a) + a == all;
      }
    }

    /** Below a bound the exponential is Lipschitz: it is under its own secant. */
    lemma ExpLipschitz(a: real, b: real)
      requires Lawful() && a <= b <= 0.0
      ensures 0.0 <= exp(b) - exp(a) <= b - a
    {
      var step := a - b;
      assert b + step == a;
      ExpSum(b, step);
      ExpPositive(step);
      ExpPositive(b);
      ExpZero();
      ExpMonotone(a, b);
      ExpMonotone(b, 0.0);
      ExpMonotone(step, 0.0);
      SecantBound(exp(b), exp(step), step);
    }

    static lemma SecantBound(y: real, ratio: real, step: real)
      requires 0.0 <= y <= 1.0 && ratio <= 1.0 && ratio >= 1.0 + step
      ensures 0.0 <= y - y * ratio <= -step
    {
      assert Product(y, 1.0 - ratio) == y - y * ratio;
      assert Product(1.0 - y, 1.0 - ratio) == 1.0 - ratio - y + y * ratio;
    }

    lemma LnOf(a: real)
      requires Lawful() && a > 0.0
      ensures exp(ln(a)) == a
      ensures a <= 1.0 ==> ln(a) <= 0.0
      ensures a < 1.0 ==> ln(a) < 0.0
    {
      assert LnInverts(a);
      ExpZero();
      ExpMonotone(ln(a), 0.0);
    }

    lemma LnOfExp(a: real)
      requires Lawful()
      ensures ln(exp(a)) == a
    {
      ExpPositive(a);
      assert LnInverts(exp(a));
      ExpMonotone(ln(exp(a)), a);
    }

    lemma SqrtOf(a: real)
      requires Lawful() && a >= 0.0
      ensures sqrt(a) >= 0.0 && sqrt(a) * sqrt(a) == a
      ensures a > 0.0 ==> sqrt(a) > 0.0
    {
      assert SqrtSquares(a);
      if sqrt(a) == 0.0 {
        assert Product(sqrt(a), sqrt(a)) == a;
      }
    }

    lemma SqrtUnique(a: real, root: real)
      requires Lawful() && root >= 0.0 && root * root == a
      ensures sqrt(a) == root
    {
      assert Product(root, root) == a;
      SqrtOf(a);
      SquaresOrder(sqrt(a), root);
      SquaresOrder(root, sqrt(a));
    }
  }

  const HALF := 0.5

  lemma Halved(i: nat)
    ensures Pow(HALF, i + 1) == 0.5 * Pow(HALF, i)
  {
  }

  lemma {:induction false} PowPositive(x: real, n: nat)
    requires x > 0.0
    ensures Pow(x, n) > 0.0
  {
    if n > 0 {
      PowPositive(x, n - 1);
      assert Product(x, Pow(x, n - 1)) > 0.0;
    }
  }

  lemma {:induction false} PowOfOne(n: nat)
    ensures Pow(1.0, n) == 1.0
  {
    if n > 0 {
      PowOfOne(n - 1);
    }
  }

  lemma {:induction false} PowAdds(x: real, m: nat, n: nat)
    ensures Pow(x, m + n) == Pow(x, m) * Pow(x, n)
  {
    if m > 0 {
      PowAdds(x, m - 1, n);
    }
  }

  lemma {:induction false} PowOrders(x: real, y: real, n: nat)
    requires 0.0 <= x <= y
    ensures 0.0 <= Pow(x, n) <= Pow(y, n)
  {
    if n > 0 {
      PowOrders(x, y, n - 1);
      var a, b := Pow(x, n - 1), Pow(y, n - 1);
      ProductMonotone(a, b, x);
      ProductMonotone(x, y, b);
      ProductNonNegative(x, a);
    }
  }

  /** Powers of positive reals with the same positive exponent are injective. */
  lemma PowInjective(x: real, y: real, n: nat)
    requires x > 0.0 && y > 0.0 && n > 0
    ensures Pow(x, n) == Pow(y, n) <==> x == y
  {
    if x < y {
      PowStrict(x, y, n);
    } else if y < x {
      PowStrict(y, x, n);
    }
  }

  lemma StrictProducts(x: real, y: real, a: real, b: real)
    requires 0.0 < x < y && 0.0 < a < b
    ensures x * a < y * b
  {
    SplitDifference(x, a, b);
    SplitDifference(b, x, y);
    assert Product(x, b - a) > 0.0 && Product(b, y - x) > 0.0;
  }

  lemma SplitDifference(x: real, a: real, b: real)
    ensures Product(x, b - a) == x * b - x * a
  {
  }

  lemma {:induction false} PowStrict(x: real, y: real, n: nat)
    requires 0.0 < x < y && n > 0
    ensures Pow(x, n) < Pow(y, n)
  {
    if n > 1 {
      PowStrict(x, y, n - 1);
      PowPositive(x, n - 1);
      StrictProducts(x, y, Pow(x, n - 1), Pow(y, n - 1));
    } else {
      var a, b := Pow(x, n - 1), Pow(y, n - 1);
      assert a == 1.0 && b == 1.0;
      assert Pow(x, n) == x * a && Pow(y, n) == y * b;
    }
  }
}
