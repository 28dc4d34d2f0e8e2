/** Completeness of the factorisation: a matrix whose form stays clear of the pivot tolerance is factored. */
module DefiniteFactor {
  import opened Reals
  import opened Sums
  import opened Matrices
  import opened Spectral
  import opened Frobenius
  import opened Cholesky

  /** The form is at least `t` times the squared length. */
  ghost predicate Definite(a: Matrix, t: real, n: nat) {
    forall x: Vec :: Form(a, x, x, n) >= t * Dot(x, x, n)
  }

  /** `x` ends with a one at `i` and makes the columns of `l` from `c` on vanish. */
  ghost predicate Cancels(l: Matrix, x: Vec, i: nat, c: nat, n: nat) {
    && i < n && c <= i && x(i) == 1.0
    && (forall k :: i < k < n ==> x(k) == 0.0)
    && (forall k :: c <= k < i ==> Dot(Col(l, k), x, n) == 0.0)
  }

  /** Back substitution, one column at a time. */
  lemma {:induction false} BackSubstitution(l: Matrix, a: Matrix, i: nat, c: nat, n: nat) returns (x: Vec)
    requires c <= i < n && Solves(l, a, n, i, i)
    ensures Cancels(l, x, i, c, n)
    decreases i - c
  {
    hide Dot, Solves;
    if c == i {
      x := k => if k == i then 1.0 else 0.0;
    } else {
      var y := BackSubstitution(l, a, i, c + 1, n);
      x := CancelColumn(l, a, i, c, y, n);
    }
  }

  lemma CancelColumn(l: Matrix, a: Matrix, i: nat, c: nat, y: Vec, n: nat) returns (x: Vec)
    requires c < i < n && Solves(l, a, n, i, i) && Cancels(l, y, i, c + 1, n)
    ensures Cancels(l, x, i, c, n)
  {
    hide Dot, RowDot;
    assert Done(c, c, i, i);
    var pivot := At(l, c, c);
    var amount := -Dot(Col(l, c), y, n) / pivot;
    x := k => if k == c then y(c) + amount else y(k);
    forall k | c <= k < i ensures Dot(Col(l, k), x, n) == 0.0 {
      Adjusted(Col(l, k), x, y, c, amount, n);
      if k > c {
        assert At(l, c, k) == 0.0;
        assert Mul(amount, At(l, c, k)) == Mul(amount, 0.0);
      } else {
        assert amount * pivot == -Dot(Col(l, c), y, n);
      }
    }
  }

  lemma Adjusted(z: Vec, x: Vec, y: Vec, c: int, amount: real, n: nat)
    requires 0 <= c < n && forall k :: 0 <= k < n ==> x(k) == if k == c then y(c) + amount else y(k)
    ensures Dot(z, x, n) == Dot(z, y, n) + amount * z(c)
  {
    hide Dot;
    var spike := k => if k == c then amount else 0.0;
    DotCombines(x, 1.0, y, 1.0, spike, z, n);
    SpikeDot(spike, amount, c, z, n);
    DotSymmetric(z, x, n);
    DotSymmetric(z, y, n);
  }

  /** What the rows computed so far multiply out to. */
  function Gram(l: Matrix, n: nat): Matrix {
    Build(n, (r, c) => Dot(Row(l, r), Row(l, c), n))
  }

  /** On the rows up to `i` the computed product is the matrix, but for what is left of the pivot. */
  lemma ProductAgrees(l: Matrix, a: Matrix, i: nat, r: int, c: int, n: nat)
    requires i < n && Solves(l, a, n, i, i) && Symmetric(a, n) && 0 <= r <= i && 0 <= c <= i
    ensures At(Gram(l, n), r, c) == if r == i && c == i then RowDot(l, i, i, i) else At(a, r, c)
  {
    if r == i && c == i {
      RowStops(l, i, i, i, n);
    } else if c <= r {
      assert Done(r, c, i, i);
      RowStops(l, r, c, c + 1, n);
    } else {
      assert Done(c, r, i, i);
      RowStops(l, c, r, r + 1, n);
      DotSymmetric(Row(l, r), Row(l, c), n);
    }
  }

  /** Row `c` is zero from `k` on, so longer inner products with it agree. */
  lemma RowStops(l: Matrix, r: int, c: int, k: nat, n: nat)
    requires k <= n && forall j :: k <= j < n ==> At(l, c, j) == 0.0
    ensures Dot(Row(l, r), Row(l, c), n) == RowDot(l, r, c, k)
    decreases n
  {
    if k < n {
      RowStops(l, r, c, k, n - 1);
      DotStep(Row(l, r), Row(l, c), n - 1);
      assert Mul(At(l, r, n - 1), At(l, c, n - 1)) == Mul(At(l, r, n - 1), 0.0);
    }
  }

  /** What is left of a pivot is a value of the form on a vector no shorter than one. */
  lemma PivotIsForm(l: Matrix, a: Matrix, t: real, i: nat, n: nat)
    requires i < n && Solves(l, a, n, i, i) && Symmetric(a, n) && t >= 0.0 && Definite(a, t, n)
    ensures At(a, i, i) - RowDot(l, i, i, i) >= t
  {
    hide Solves, Form, Dot, RowDot, Symmetric;
    var x := BackSubstitution(l, a, i, 0, n);
    var p := Gram(l, n);
    var left := At(a, i, i) - RowDot(l, i, i, i);
    FormMinus(a, p, x, n);
    CancelledForm(l, a, x, i, n);
    LeftForm(l, a, x, i, n);
    UnitLength(x, i, n);
    ProductMonotone(1.0, Dot(x, x, n), t);
    assert Form(a, x, x, n) >= t * Dot(x, x, n);
  }

  lemma UnitLength(x: Vec, i: nat, n: nat)
    requires i < n && x(i) == 1.0
    ensures Dot(x, x, n) >= 1.0
  {
    SquaresOfDot(x, n);
    forall k | 0 <= k < n ensures Squares(x)(k) >= 0.0 {
      assert Product(x(k), x(k)) == Squares(x)(k);
    }
    SumAtLeastTerm(Squares(x), i, n);
  }

  lemma CancelledForm(l: Matrix, a: Matrix, x: Vec, i: nat, n: nat)
    requires Solves(l, a, n, i, i) && Cancels(l, x, i, 0, n)
    ensures Form(Gram(l, n), x, x, n) == 0.0
  {
    hide Sum;
    var ones := (k: int) => 1.0;
    var p, u := Gram(l, n), Coordinates(l, x, n);
    forall r, c | 0 <= r < n && 0 <= c < n ensures At(p, r, c) == Dot(Weighted(l, ones, r), Row(l, c), n) {
      DotCongruent(Weighted(l, ones, r), Row(l, c), Row(l, r), Row(l, c), n);
    }
    SpectralForm(p, l, ones, x, x, n);
    var f := k => ones(k) * (u(k) * u(k));
    forall k | 0 <= k < n ensures f(k) == 0.0 {
      if k >= i {
        ZeroColumn(l, a, x, i, k, n);
      }
      assert u(k) == 0.0;
    }
    SumConstant(f, 0.0, n);
    SumCongruent(f, k => ones(k) * (Coordinates(l, x, n)(k) * Coordinates(l, x, n)(k)), n);
  }

  lemma ZeroColumn(l: Matrix, a: Matrix, x: Vec, i: nat, k: int, n: nat)
    requires Solves(l, a, n, i, i) && i <= k < n
    ensures Dot(Col(l, k), x, n) == 0.0
  {
    hide Sum, RowDot;
    var f := r => Col(l, k)(r) * x(r);
    forall r | 0 <= r < n ensures f(r) == 0.0 {
      assert At(l, r, k) == 0.0;
      assert Mul(At(l, r, k), x(r)) == Mul(0.0, x(r));
    }
    SumConstant(f, 0.0, n);
    SumCongruent(f, r => Col(l, k)(r) * x(r), n);
  }

  lemma LeftForm(l: Matrix, a: Matrix, x: Vec, i: nat, n: nat)
    requires Solves(l, a, n, i, i) && Symmetric(a, n) && Cancels(l, x, i, 0, n)
    ensures Form(Minus(a, Gram(l, n), n), x, x, n) == At(a, i, i) - RowDot(l, i, i, i)
  {
    hide Sum, RowDot, Solves, Symmetric;
    var d := Minus(a, Gram(l, n), n);
    var left := At(a, i, i) - RowDot(l, i, i, i);
    var f := k => x(k) * Act(d, k, x, n);
    forall k | 0 <= k < n ensures f(k) == if k == i then left else 0.0 {
      if k <= i {
        LeftAct(l, a, x, i, k, n);
        assert Mul(x(k), Act(d, k, x, n)) == Mul(x(k), if k == i then left else 0.0);
      } else {
        assert Mul(x(k), Act(d, k, x, n)) == Mul(0.0, Act(d, k, x, n));
      }
    }
    SumOnePoint(f, i, n);
    SumCongruent(f, k => x(k) * Act(d, k, x, n), n);
  }

  lemma LeftAct(l: Matrix, a: Matrix, x: Vec, i: nat, k: nat, n: nat)
    requires Solves(l, a, n, i, i) && Symmetric(a, n) && Cancels(l, x, i, 0, n) && k <= i
    ensures Act(Minus(a, Gram(l, n), n), k, x, n)
         == if k == i then At(a, i, i) - RowDot(l, i, i, i) else 0.0
  {
    hide Sum, RowDot, Solves, Symmetric;
    var d := Minus(a, Gram(l, n), n);
    var g := j => Row(d, k)(j) * x(j);
    forall j | 0 <= j < n && j != i ensures g(j) == 0.0 {
      if j < i {
        ProductAgrees(l, a, i, k, j, n);
        assert Mul(At(d, k, j), x(j)) == Mul(0.0, x(j));
      } else {
        assert Mul(At(d, k, j), x(j)) == Mul(At(d, k, j), 0.0);
      }
    }
    ProductAgrees(l, a, i, k, i, n);
    SumOnePoint(g, i, n);
    SumCongruent(g, j => Row(d, k)(j) * x(j), n);
  }

  // ---- Every definite matrix has a factor ----

  function Put(l: Matrix, i: int, j: int, x: real, n: nat): Matrix {
    Build(n, (r, c) => if r == i && c == j then x else At(l, r, c))
  }

  lemma EntryFills(e: Elementary, a: Matrix, l: Matrix, t: real, i: nat, j: nat, n: nat) returns (next: Matrix)
    requires e.Lawful() && Symmetric(a, n) && t > PIVOT_TOL && Definite(a, t, n)
    requires j <= i < n && Partial(l, a, n, i, j)
    ensures Partial(next, a, n, i, j + 1)
  {
    hide RowDot, Factors, Definite, Symmetric;
    var sum := At(a, i, j) - RowDot(l, i, j, j);
    if i == j {
      PivotIsForm(l, a, t, i, n);
      e.SqrtOf(sum);
      next := Put(l, i, j, e.sqrt(sum), n);
    } else {
      PivotPositive(l, a, n, i, j);
      next := Put(l, i, j, sum / At(l, j, j), n);
      assert sum / At(l, j, j) * At(l, j, j) == sum;
    }
    PartialExtends(l, next, a, n, i, j);
  }

  /** A symmetric matrix whose form is at least `t` times the squared length, for some `t` above the pivot tolerance,
      has a factor, so the factorisation finds it. */
  lemma DefiniteHasFactor(e: Elementary, a: Matrix, t: real, n: nat)
    requires e.Lawful() && Symmetric(a, n) && t > PIVOT_TOL && Definite(a, t, n)
    ensures exists l :: Factors(l, a, n)
  {
    hide Partial, Factors, Symmetric, Definite;
    var l := Build(n, (r, c) => 0.0);
    StartPartial(l, a, n);
    for i := 0 to n
      invariant Partial(l, a, n, i, 0)
    {
      for j := 0 to i + 1
        invariant Partial(l, a, n, i, j)
      {
        l := EntryFills(e, a, l, t, i, j, n);
      }
      NextRow(l, a, n, i);
    }
    PartialCompletes(l, a, n);
  }
}
