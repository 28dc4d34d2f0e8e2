/** The Frobenius inner product and distance of matrices. */
module Frobenius {
  import opened Reals
  import opened Sums
  import opened Matrices
  import opened Rotations

  function Inner(a: Matrix, b: Matrix, n: nat): real {
    Sum(i => Dot(Row(a, i), Row(b, i), n), n)
  }

  function Minus(a: Matrix, b: Matrix, n: nat): Matrix {
    Build(n, (i, j) => At(a, i, j) - At(b, i, j))
  }

  /** The squared Frobenius distance. */
  function DistanceSquared(a: Matrix, b: Matrix, n: nat): real {
    Inner(Minus(a, b, n), Minus(a, b, n), n)
  }

  lemma InnerSymmetric(a: Matrix, b: Matrix, n: nat)
    ensures Inner(a, b, n) == Inner(b, a, n)
  {
    forall i | 0 <= i < n ensures Dot(Row(a, i), Row(b, i), n) == Dot(Row(b, i), Row(a, i), n) {
      DotSymmetric(Row(a, i), Row(b, i), n);
    }
    SumCongruent(i => Dot(Row(a, i), Row(b, i), n), i => Dot(Row(b, i), Row(a, i), n), n);
  }

  lemma InnerCombines(c: Matrix, s: real, a: Matrix, t: real, b: Matrix, z: Matrix, n: nat)
    requires forall i, j :: 0 <= i < n && 0 <= j < n ==> At(c, i, j) == s * At(a, i, j) + t * At(b, i, j)
    ensures Inner(c, z, n) == s * Inner(a, z, n) + t * Inner(b, z, n)
  {
    hide Sum;
    var f, g, h := i => Dot(Row(c, i), Row(z, i), n), i => Dot(Row(a, i), Row(z, i), n), i => Dot(Row(b, i), Row(z, i), n);
    forall i | 0 <= i < n ensures f(i) == s * g(i) + t * h(i) {
      DotCombines(Row(c, i), s, Row(a, i), t, Row(b, i), Row(z, i), n);
    }
    SumCombines(f, s, g, t, h, n);
  }

  lemma InnerSelfNonNegative(a: Matrix, n: nat)
    ensures Inner(a, a, n) >= 0.0
  {
    forall i | 0 <= i < n ensures Dot(Row(a, i), Row(a, i), n) >= 0.0 {
      DotSelfNonNegative(Row(a, i), n);
    }
    SumNonNegative(i => Dot(Row(a, i), Row(a, i), n), n);
  }

  /** The square of a sum of two matrices. */
  lemma InnerOfSum(c: Matrix, a: Matrix, b: Matrix, n: nat)
    requires forall i, j :: 0 <= i < n && 0 <= j < n ==> At(c, i, j) == At(a, i, j) + At(b, i, j)
    ensures Inner(c, c, n) == Inner(a, a, n) + 2.0 * Inner(a, b, n) + Inner(b, b, n)
  {
    hide Inner, At;
    InnerCombines(c, 1.0, a, 1.0, b, c, n);
    InnerSymmetric(a, c, n);
    InnerSymmetric(b, c, n);
    InnerCombines(c, 1.0, a, 1.0, b, a, n);
    InnerCombines(c, 1.0, a, 1.0, b, b, n);
    InnerSymmetric(a, b, n);
  }

  lemma DistanceSymmetric(a: Matrix, b: Matrix, n: nat)
    ensures DistanceSquared(a, b, n) == DistanceSquared(b, a, n)
  {
    var d, e := Minus(a, b, n), Minus(b, a, n);
    InnerCombines(d, -1.0, e, 0.0, e, d, n);
    InnerSymmetric(e, d, n);
    InnerCombines(d, -1.0, e, 0.0, e, e, n);
  }

  /** The off-diagonal part of `d`. */
  function Residue(d: Matrix, n: nat): Matrix {
    Build(n, (i, j) => if i == j then 0.0 else At(d, i, j))
  }

  /** A matrix no longer than `r` and one no longer than `t` have an inner product of at most `r t`. */
  lemma InnerBound(a: Matrix, b: Matrix, r: real, t: real, n: nat)
    requires r >= 0.0 && t >= 0.0 && Inner(a, a, n) <= r * r && Inner(b, b, n) <= t * t
    ensures Inner(a, b, n) <= r * t
  {
    hide Sum;
    FrobeniusCauchySchwarz(a, b, n);
    InnerSelfNonNegative(a, n);
    InnerSelfNonNegative(b, n);
    MulOrders(Inner(a, a, n), Inner(b, b, n), r * r, t * t);
    RootOfBound(Inner(a, b, n), r, t);
  }

  lemma RootOfBound(x: real, r: real, t: real)
    requires r >= 0.0 && t >= 0.0 && x * x <= Mul(r * r, t * t)
    ensures x <= r * t
  {
    ProductNonNegative(r, t);
    assert Mul(r * r, t * t) == Mul(r * t, r * t);
    if x > 0.0 {
      SquaresOrder(x, r * t);
    }
  }

  lemma FrobeniusCauchySchwarz(a: Matrix, b: Matrix, n: nat)
    ensures Inner(a, b, n) * Inner(a, b, n) <= Inner(a, a, n) * Inner(b, b, n)
  {
    hide Sum, Inner;
    var aa, ab, bb := Inner(a, a, n), Inner(a, b, n), Inner(b, b, n);
    var z := Build(n, (i, j) => bb * At(a, i, j) + -ab * At(b, i, j));
    InnerCombines(z, bb, a, -ab, b, z, n);
    InnerSymmetric(a, z, n);
    InnerSymmetric(b, z, n);
    InnerCombines(z, bb, a, -ab, b, a, n);
    InnerCombines(z, bb, a, -ab, b, b, n);
    InnerSymmetric(b, a, n);
    InnerSelfNonNegative(z, n);
    InnerSelfNonNegative(b, n);
    if bb == 0.0 {
      ZeroMatrixInner(a, b, n);
    } else {
      ProjectionLength(aa, ab, bb, Inner(a, z, n), Inner(b, z, n), Inner(z, z, n));
    }
  }

  lemma ZeroMatrixInner(a: Matrix, b: Matrix, n: nat)
    requires Inner(b, b, n) == 0.0
    ensures Inner(a, b, n) == 0.0
  {
    hide Sum, Dot;
    var rows, f := i => Dot(Row(b, i), Row(b, i), n), i => Dot(Row(a, i), Row(b, i), n);
    forall i | 0 <= i < n ensures rows(i) >= 0.0 {
      DotSelfNonNegative(Row(b, i), n);
    }
    forall i | 0 <= i < n ensures f(i) == 0.0 {
      SumAtLeastTerm(rows, i, n);
      ZeroVectorDot(Row(a, i), Row(b, i), n);
    }
    SumConstant(f, 0.0, n);
  }

  /** The triangle inequality, with bounds for the lengths. */
  lemma LengthsAdd(c: Matrix, a: Matrix, b: Matrix, r: real, t: real, n: nat)
    requires forall i, j :: 0 <= i < n && 0 <= j < n ==> At(c, i, j) == At(a, i, j) + At(b, i, j)
    requires r >= 0.0 && t >= 0.0 && Inner(a, a, n) <= r * r && Inner(b, b, n) <= t * t
    ensures Inner(c, c, n) <= (r + t) * (r + t)
  {
    hide Inner, At;
    InnerOfSum(c, a, b, n);
    InnerBound(a, b, r, t, n);
    assert (r + t) * (r + t) == r * r + 2.0 * (r * t) + t * t;
  }

  lemma DistancesAdd(a: Matrix, b: Matrix, c: Matrix, r: real, t: real, n: nat)
    requires r >= 0.0 && t >= 0.0 && DistanceSquared(a, b, n) <= r * r && DistanceSquared(b, c, n) <= t * t
    ensures DistanceSquared(a, c, n) <= (r + t) * (r + t)
  {
    hide Inner;
    LengthsAdd(Minus(a, c, n), Minus(a, b, n), Minus(b, c, n), r, t, n);
  }

  /** Entries that are zero or equal make a matrix no longer. */
  lemma FewerEntries(c: Matrix, d: Matrix, n: nat)
    requires forall i, j :: 0 <= i < n && 0 <= j < n ==> At(c, i, j) == 0.0 || At(c, i, j) == At(d, i, j)
    ensures Inner(c, c, n) <= Inner(d, d, n)
  {
    hide Sum;
    forall i | 0 <= i < n ensures Dot(Row(c, i), Row(c, i), n) <= Dot(Row(d, i), Row(d, i), n) {
      ZeroedCloser(Row(c, i), Row(d, i), n);
    }
    SumMonotone(i => Dot(Row(c, i), Row(c, i), n), i => Dot(Row(d, i), Row(d, i), n), n);
  }

  function Squares(y: Vec): Vec {
    j => y(j) * y(j)
  }

  lemma ZeroedCloser(c: Vec, d: Vec, n: nat)
    requires forall k :: 0 <= k < n ==> c(k) == 0.0 || c(k) == d(k)
    ensures Dot(c, c, n) <= Dot(d, d, n)
  {
    hide Sum;
    forall k | 0 <= k < n ensures Squares(c)(k) <= Squares(d)(k) {
      assert Product(d(k), d(k)) == Squares(d)(k);
      assert Product(c(k), c(k)) == Squares(c)(k);
    }
    SumMonotone(Squares(c), Squares(d), n);
    SumCongruent(Squares(c), k => c(k) * c(k), n);
    SumCongruent(Squares(d), k => d(k) * d(k), n);
  }

  /** Off-diagonal entries of at most `size` make a residue no longer than `n size`. */
  lemma SmallResidue(d: Matrix, size: real, n: nat)
    requires size >= 0.0
    requires forall i, j :: 0 <= i < n && 0 <= j < n && i != j ==> Abs(At(d, i, j)) <= size
    ensures OffSquares(d, n) <= (n as real * size) * (n as real * size)
  {
    hide Sum;
    var top := size * size;
    var row := (i: int) => n as real * top;
    forall i | 0 <= i < n ensures OffRow(d, i, n) <= row(i) {
      forall j | 0 <= j < n ensures OffEntry(d, i, j) <= top {
        if i == j {
          assert Product(size, size) == top;
        } else {
          SquareBelow(At(d, i, j), size);
        }
      }
      SumMonotone(j => OffEntry(d, i, j), j => top, n);
      SumConstant(j => top, top, n);
    }
    SumMonotone(i => OffRow(d, i, n), row, n);
    SumConstant(row, n as real * top, n);
    assert Mul(n as real, n as real * (size * size)) == Mul(n as real * size, n as real * size);
  }

  lemma OffIsLength(d: Matrix, n: nat)
    ensures OffSquares(d, n) == Inner(Residue(d, n), Residue(d, n), n)
  {
    hide Sum;
    var rest := Residue(d, n);
    forall i | 0 <= i < n ensures OffRow(d, i, n) == Dot(Row(rest, i), Row(rest, i), n) {
      forall j | 0 <= j < n ensures OffEntry(d, i, j) == Row(rest, i)(j) * Row(rest, i)(j) {
        var entry := if i == j then 0.0 else At(d, i, j);
        assert Mul(Row(rest, i)(j), Row(rest, i)(j)) == Mul(entry, entry);
      }
      SumCongruent(j => OffEntry(d, i, j), j => Row(rest, i)(j) * Row(rest, i)(j), n);
    }
    SumCongruent(i => OffRow(d, i, n), i => Dot(Row(rest, i), Row(rest, i), n), n);
  }

  /** The residues of two matrices are no further apart than the matrices. */
  lemma ResidueNearby(a: Matrix, b: Matrix, r: real, t: real, n: nat)
    requires r >= 0.0 && t >= 0.0 && OffSquares(b, n) <= r * r && DistanceSquared(a, b, n) <= t * t
    ensures OffSquares(a, n) <= (r + t) * (r + t)
  {
    hide Inner, OffSquares;
    OffIsLength(a, n);
    OffIsLength(b, n);
    var gap := Minus(Residue(a, n), Residue(b, n), n);
    FewerEntries(gap, Minus(a, b, n), n);
    LengthsAdd(Residue(a, n), Residue(b, n), gap, r, t, n);
  }

  // ---- Forms of nearby matrices ----

  lemma FormCombines(c: Matrix, s: real, a: Matrix, t: real, b: Matrix, x: Vec, y: Vec, n: nat)
    requires forall i, j :: 0 <= i < n && 0 <= j < n ==> At(c, i, j) == s * At(a, i, j) + t * At(b, i, j)
    ensures Form(c, x, y, n) == s * Form(a, x, y, n) + t * Form(b, x, y, n)
  {
    hide Sum;
    var f, g, h := i => x(i) * Act(c, i, y, n), i => x(i) * Act(a, i, y, n), i => x(i) * Act(b, i, y, n);
    forall i | 0 <= i < n ensures f(i) == s * g(i) + t * h(i) {
      DotCombines(Row(c, i), s, Row(a, i), t, Row(b, i), y, n);
      Distributes(x(i), s, Act(a, i, y, n), t, Act(b, i, y, n));
      assert Mul(x(i), Act(c, i, y, n)) == Mul(x(i), s * Act(a, i, y, n) + t * Act(b, i, y, n));
    }
    SumCombines(f, s, g, t, h, n);
  }

  lemma Distributes(x: real, s: real, a: real, t: real, b: real)
    ensures x * (s * a + t * b) == s * (x * a) + t * (x * b)
  {
  }

  lemma FormMinus(a: Matrix, b: Matrix, x: Vec, n: nat)
    ensures Form(Minus(a, b, n), x, x, n) == Form(a, x, x, n) - Form(b, x, x, n)
  {
    hide Form;
    FormCombines(Minus(a, b, n), 1.0, a, -1.0, b, x, x, n);
  }

  /** A matrix no longer than `t` has a form of at least `-t` times the squared length. */
  lemma FormBound(c: Matrix, t: real, x: Vec, n: nat)
    requires t >= 0.0 && Inner(c, c, n) <= t * t
    ensures -(t * Dot(x, x, n)) <= Form(c, x, x, n) <= t * Dot(x, x, n)
  {
    hide Sum, Dot, Inner;
    var z := (i: int) => Act(c, i, x, n);
    var xx, form := Dot(x, x, n), Form(c, x, x, n);
    FormIsDot(c, x, x, z, n);
    CauchySchwarz(x, z, n);
    ImageBound(c, x, z, n);
    DotSelfNonNegative(x, n);
    DotSelfNonNegative(z, n);
    ProductMonotone(Inner(c, c, n), t * t, xx);
    MulMonotone(Dot(z, z, n), t * t * xx, xx);
    assert xx * Dot(z, z, n) == Mul(Dot(z, z, n), xx);
    assert Mul(t * t * xx, xx) == Mul(t * xx, t * xx);
    ProductNonNegative(t, xx);
    assert Mul(Abs(form), Abs(form)) == form * form;
    SquaresOrder(Abs(form), t * xx);
  }

  lemma ImageBound(c: Matrix, x: Vec, z: Vec, n: nat)
    requires forall i :: 0 <= i < n ==> z(i) == Act(c, i, x, n)
    ensures Dot(z, z, n) <= Inner(c, c, n) * Dot(x, x, n)
  {
    hide Sum, Dot;
    var xx := Dot(x, x, n);
    var rows := i => Dot(Row(c, i), Row(c, i), n);
    var bound := i => xx * rows(i);
    forall i | 0 <= i < n ensures Squares(z)(i) <= bound(i) {
      CauchySchwarz(Row(c, i), x, n);
      assert Mul(z(i), z(i)) == Mul(Act(c, i, x, n), Act(c, i, x, n));
      assert Mul(xx, rows(i)) == rows(i) * xx;
    }
    SumMonotone(Squares(z), bound, n);
    SumScales(bound, xx, rows, n);
    SquaresOfDot(z, n);
    SumCongruent(rows, i => Dot(Row(c, i), Row(c, i), n), n);
  }

  lemma SquaresOfDot(z: Vec, n: nat)
    ensures Dot(z, z, n) == Sum(Squares(z), n)
  {
    hide Sum;
    SumCongruent(Squares(z), i => z(i) * z(i), n);
  }

  /** Forms of matrices within `t` of each other differ by at most `t` times the squared length. */
  lemma FormNearby(a: Matrix, b: Matrix, t: real, x: Vec, n: nat)
    requires t >= 0.0 && DistanceSquared(a, b, n) <= t * t
    ensures Form(b, x, x, n) - t * Dot(x, x, n) <= Form(a, x, x, n)
  {
    hide Inner, Form, Dot;
    FormMinus(a, b, x, n);
    FormBound(Minus(a, b, n), t, x, n);
  }
}
