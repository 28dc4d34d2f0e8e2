/** Finite sums of reals, the arithmetic every other module reduces to. */
module Sums {
  import opened Reals

  type Vec = int -> real

  function Sum(f: Vec, n: nat): real {
    if n == 0 then 0.0 else Sum(f, n - 1) + f(n - 1)
  }

  /** A finite series, extended by zero. */
  function ToVec(s: seq<real>): Vec {
    k => if 0 <= k < |s| then s[k] else 0.0
  }

  function MeanOf(s: seq<real>): real {
    if |s| == 0 then 0.0 else Sum(ToVec(s), |s|) / (|s| as real)
  }

  /** The inner product of the first `n` coordinates. */
  function Dot(x: Vec, y: Vec, n: nat): real {
    Sum(i => x(i) * y(i), n)
  }

  lemma {:induction false} SumCongruent(f: Vec, g: Vec, n: nat)
    requires forall i :: 0 <= i < n ==> f(i) == g(i)
    ensures Sum(f, n) == Sum(g, n)
  {
    if n > 0 {
      SumCongruent(f, g, n - 1);
    }
  }

  lemma {:induction false} SumCombines(h: Vec, a: real, f: Vec, b: real, g: Vec, n: nat)
    requires forall i :: 0 <= i < n ==> h(i) == a * f(i) + b * g(i)
    ensures Sum(h, n) == a * Sum(f, n) + b * Sum(g, n)
  {
    if n > 0 {
      SumCombines(h, a, f, b, g, n - 1);
    }
  }

  lemma {:induction false} SumAdds(h: Vec, f: Vec, g: Vec, n: nat)
    requires forall i :: 0 <= i < n ==> h(i) == f(i) + g(i)
    ensures Sum(h, n) == Sum(f, n) + Sum(g, n)
  {
    if n > 0 {
      SumAdds(h, f, g, n - 1);
    }
  }

  lemma {:induction false} SumScales(h: Vec, a: real, f: Vec, n: nat)
    requires forall i :: 0 <= i < n ==> h(i) == a * f(i)
    ensures Sum(h, n) == a * Sum(f, n)
  {
    if n > 0 {
      SumScales(h, a, f, n - 1);
    }
  }

  lemma {:induction false} SumMonotone(f: Vec, g: Vec, n: nat)
    requires forall i :: 0 <= i < n ==> f(i) <= g(i)
    ensures Sum(f, n) <= Sum(g, n)
  {
    if n > 0 {
      SumMonotone(f, g, n - 1);
    }
  }

  lemma {:induction false} SumNonNegative(f: Vec, n: nat)
    requires forall i :: 0 <= i < n ==> f(i) >= 0.0
    ensures Sum(f, n) >= 0.0
  {
    if n > 0 {
      SumNonNegative(f, n - 1);
    }
  }

  lemma {:induction false} SumConstant(f: Vec, a: real, n: nat)
    requires forall i :: 0 <= i < n ==> f(i) == a
    ensures Sum(f, n) == (n as real) * a
  {
    if n > 0 {
      SumConstant(f, a, n - 1);
      assert n as real == (n - 1) as real + 1.0;
      assert (n as real) * a == ((n - 1) as real) * a + a;
    }
  }

  /** A sum whose terms vanish off one index. */
  lemma {:induction false} SumOnePoint(f: Vec, p: int, n: nat)
    requires 0 <= p < n
    requires forall i :: 0 <= i < n && i != p ==> f(i) == 0.0
    ensures Sum(f, n) == f(p)
  {
    if p == n - 1 {
      SumConstant(f, 0.0, n - 1);
    } else {
      SumOnePoint(f, p, n - 1);
    }
  }

  lemma {:induction false} SumAtLeastTerm(f: Vec, p: int, n: nat)
    requires 0 <= p < n && forall i :: 0 <= i < n ==> f(i) >= 0.0
    ensures f(p) <= Sum(f, n)
  {
    if p == n - 1 {
      SumNonNegative(f, n - 1);
    } else {
      SumAtLeastTerm(f, p, n - 1);
    }
  }

  /** Two sums that differ only at `p` and `q`. */
  lemma SumTwoPoints(f: Vec, g: Vec, p: int, q: int, n: nat)
    requires 0 <= p < n && 0 <= q < n && p != q
    requires forall i :: 0 <= i < n && i != p && i != q ==> f(i) == g(i)
    ensures Sum(f, n) - Sum(g, n) == f(p) - g(p) + f(q) - g(q)
  {
    hide Sum;
    var d := i => f(i) - g(i);
    var dp := i => if i == p then d(p) else 0.0;
    var dq := i => if i == q then d(q) else 0.0;
    SumCombines(d, 1.0, f, -1.0, g, n);
    SumCombines(d, 1.0, dp, 1.0, dq, n);
    SumOnePoint(dp, p, n);
    SumOnePoint(dq, q, n);
  }

  /** `f` lies above a multiple of `g` plus `h`, so its sum does. */
  lemma SumDominates(f: Vec, a: real, g: Vec, h: Vec, n: nat)
    requires forall i :: 0 <= i < n ==> a * g(i) + h(i) <= f(i)
    ensures a * Sum(g, n) + Sum(h, n) <= Sum(f, n)
  {
    hide Sum;
    var low := i => a * g(i) + h(i);
    SumMonotone(low, f, n);
    SumCombines(low, a, g, 1.0, h, n);
  }

  lemma {:induction false} SumSwaps(f: (int, int) -> real, rows: nat, cols: nat)
    ensures Sum(i => Sum(j => f(i, j), cols), rows) == Sum(j => Sum(i => f(i, j), rows), cols)
  {
    var byRow := i => Sum(j => f(i, j), cols);
    var byCol := j => Sum(i => f(i, j), rows);
    if rows == 0 {
      SumConstant(byCol, 0.0, cols);
    } else {
      SumSwaps(f, rows - 1, cols);
      SwapLastRow(f, rows, cols);
      SumCongruent(byRow, i => Sum(j => f(i, j), cols), rows - 1);
    }
    SumCongruent(byRow, i => Sum(j => f(i, j), cols), rows);
    SumCongruent(byCol, j => Sum(i => f(i, j), rows), cols);
  }

  lemma SwapLastRow(f: (int, int) -> real, rows: nat, cols: nat)
    requires rows > 0
    ensures Sum(j => Sum(i => f(i, j), rows), cols) ==
            Sum(j => Sum(i => f(i, j), rows - 1), cols) + Sum(j => f(rows - 1, j), cols)
  {
    SumCombines(j => Sum(i => f(i, j), rows), 1.0, j => Sum(i => f(i, j), rows - 1), 1.0, j => f(rows - 1, j), cols);
  }

  lemma DotCongruent(x: Vec, y: Vec, x': Vec, y': Vec, n: nat)
    requires forall i :: 0 <= i < n ==> x(i) == x'(i) && y(i) == y'(i)
    ensures Dot(x, y, n) == Dot(x', y', n)
  {
    SumCongruent(i => x(i) * y(i), i => x'(i) * y'(i), n);
  }

  lemma DotSymmetric(x: Vec, y: Vec, n: nat)
    ensures Dot(x, y, n) == Dot(y, x, n)
  {
    SumCongruent(i => x(i) * y(i), i => y(i) * x(i), n);
  }

  lemma DotSelfNonNegative(x: Vec, n: nat)
    ensures Dot(x, x, n) >= 0.0
  {
    SumNonNegative(i => x(i) * x(i), n);
  }

  /** The inner product is linear in its first argument. */
  lemma DotCombines(z: Vec, a: real, x: Vec, b: real, x': Vec, y: Vec, n: nat)
    requires forall i :: 0 <= i < n ==> z(i) == a * x(i) + b * x'(i)
    ensures Dot(z, y, n) == a * Dot(x, y, n) + b * Dot(x', y, n)
  {
    SumCombines(i => z(i) * y(i), a, i => x(i) * y(i), b, i => x'(i) * y(i), n);
  }

  /** Cauchy-Schwarz, from the square of |y|^2 x - <x,y> y. */
  lemma CauchySchwarz(x: Vec, y: Vec, n: nat)
    ensures Dot(x, y, n) * Dot(x, y, n) <= Dot(x, x, n) * Dot(y, y, n)
  {
    hide Sum;
    var xx, xy, yy := Dot(x, x, n), Dot(x, y, n), Dot(y, y, n);
    var z := i => yy * x(i) - xy * y(i);
    DotCombines(z, yy, x, -xy, y, z, n);
    DotSymmetric(x, z, n);
    DotSymmetric(y, z, n);
    DotCombines(z, yy, x, -xy, y, x, n);
    DotCombines(z, yy, x, -xy, y, y, n);
    DotSymmetric(y, x, n);
    DotSelfNonNegative(z, n);
    DotSelfNonNegative(y, n);
    if yy == 0.0 {
      ZeroVectorDot(x, y, n);
    } else {
      ProjectionLength(xx, xy, yy, Dot(x, z, n), Dot(y, z, n), Dot(z, z, n));
    }
  }

  lemma ProjectionLength(xx: real, xy: real, yy: real, xz: real, yz: real, zz: real)
    requires zz == yy * xz + -xy * yz && zz >= 0.0 && yy > 0.0
    requires xz == yy * xx + -xy * xy && yz == yy * xy + -xy * yy
    ensures xy * xy <= xx * yy
  {
    assert yz == 0.0;
    assert Mul(-xy, yz) == Mul(-xy, 0.0);
    PositiveFactor(yy, xz);
  }

  lemma {:induction false} ZeroVectorDot(x: Vec, y: Vec, n: nat)
    requires Dot(y, y, n) == 0.0
    ensures Dot(x, y, n) == 0.0
  {
    if n > 0 {
      SumCongruent(i => y(i) * y(i), i => y(i) * y(i), n - 1);
      DotSelfNonNegative(y, n - 1);
      assert Dot(y, y, n) == Dot(y, y, n - 1) + y(n - 1) * y(n - 1);
      assert y(n - 1) * y(n - 1) >= 0.0;
      SquareVanishes(y(n - 1));
      ZeroVectorDot(x, y, n - 1);
      assert Dot(x, y, n) == Dot(x, y, n - 1) + x(n - 1) * y(n - 1);
    }
  }

  lemma DotOfNone(x: Vec, y: Vec)
    ensures Dot(x, y, 0) == 0.0
  {
  }

  lemma DotStep(x: Vec, y: Vec, k: nat)
    ensures Dot(x, y, k + 1) == Dot(x, y, k) + x(k) * y(k)
  {
    SumCongruent(i => x(i) * y(i), i => x(i) * y(i), k);
  }

  lemma UnitDot(s: Vec, l: int, u: Vec, n: nat)
    requires 0 <= l < n
    requires forall k :: 0 <= k < n ==> s(k) == if k == l then 1.0 else 0.0
    ensures Dot(s, u, n) == u(l)
  {
    var f := k => s(k) * u(k);
    forall k | 0 <= k < n ensures f(k) == if k == l then u(l) else 0.0 {
      assert Mul(s(k), u(k)) == Mul(if k == l then 1.0 else 0.0, u(k));
    }
    SumOnePoint(f, l, n);
  }

  lemma SpikeDot(s: Vec, a: real, i: int, y: Vec, n: nat)
    requires 0 <= i < n
    requires forall k :: 0 <= k < n ==> s(k) == if k == i then a else 0.0
    ensures Dot(s, y, n) == a * y(i)
  {
    var f := k => s(k) * y(k);
    forall k | 0 <= k < n ensures f(k) == if k == i then a * y(i) else 0.0 {
      assert Mul(s(k), y(k)) == Mul(if k == i then a else 0.0, y(k));
    }
    SumOnePoint(f, i, n);
  }
}
