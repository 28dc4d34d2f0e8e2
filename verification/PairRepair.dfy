/** The repair of two-factor matrices, worked out: when its answer is positive semidefinite. */
module PairRepair {
  import opened Reals
  import opened Sums
  import opened Matrices
  import opened Rotations
  import opened Jacobi
  import opened Spectral
  import opened Frobenius
  import opened Nearness
  import opened NearestCorrelation
  import opened RepairTheory

  /** The rotation that removes the off-diagonal entry of a matrix with equal diagonal entries turns by 45 degrees. */
  lemma EqualDiagonalAngle(e: Elementary, x: real, m: real)
    requires e.Lawful() && m != 0.0
    ensures var g := AngleFor(e, x, x, m);
            g.t == 1.0 && g.s == g.c && g.c * g.c == 0.5
  {
    hide Hypotenuse;
    assert (x - x) / (2.0 * m) == 0.0;
    var h := Hypotenuse(e, 0.0);
    assert h * h == 1.0;
    SquaresOrder(h, 1.0);
    SquaresOrder(1.0, h);
    assert Tangent(e, 0.0) == 1.0;
    var root := Hypotenuse(e, 1.0);
    var c := Cosine(e, 1.0);
    assert c * root == 1.0;
    assert Mul(c * root, c * root) == Mul(1.0, 1.0);
    assert Mul(c * c, root * root) == Mul(c * c, 2.0);
    assert Mul(c * root, c * root) == Mul(c * c, root * root);
  }

  function Low(m: real): real {
    if Abs(m) <= JACOBI_TOL then 1.0 else 1.0 - m
  }

  function High(m: real): real {
    if Abs(m) <= JACOBI_TOL then 1.0 else 1.0 + m
  }

  /** The decomposition of a unit-diagonal pair; it reads only the entry above the diagonal. */
  lemma PairEigen(e: Elementary, a: Matrix)
    requires e.Lawful() && At(a, 0, 0) == 1.0 && At(a, 1, 1) == 1.0
    ensures var m := At(a, 0, 1);
            var r := EigenOf(e, a, 2);
            && At(r.d, 0, 0) == Low(m) && At(r.d, 1, 1) == High(m)
            && (Abs(m) <= JACOBI_TOL ==> r.v == IdentityOf(2))
            && (Abs(m) > JACOBI_TOL ==>
                  var g := AngleFor(e, 1.0, 1.0, m);
                  At(r.v, 0, 0) == g.c && At(r.v, 0, 1) == g.s && At(r.v, 1, 0) == -g.s && At(r.v, 1, 1) == g.c)
  {
    hide AngleFor;
    var m := At(a, 0, 1);
    if Abs(m) > JACOBI_TOL {
      assert IsPivot(a, 0, 1, 2);
      PivotUnique(a, 0, 1, 2);
      var g := AngleFor(e, 1.0, 1.0, m);
      EqualDiagonalAngle(e, 1.0, m);
      var d, v := Rotated(a, 0, 1, g, 2), Turned(IdentityOf(2), 0, 1, g, 2);
      assert NearlyDiagonal(d, 2);
      assert EigenOf(e, a, 2) == EigenFrom(e, d, v, 1, 2) == Eigen(v, d, 1);
    } else {
      assert NearlyDiagonal(a, 2);
    }
  }

  /** What one pass makes of an off-diagonal entry, and of the diagonal. */
  function PairOff(m: real): real {
    if Abs(m) <= JACOBI_TOL then 0.0 else (Max(1.0 + m, 0.0) - Max(1.0 - m, 0.0)) / 2.0
  }

  function PairDiagonal(m: real): real {
    if Abs(m) <= JACOBI_TOL then 1.0 else (Max(1.0 + m, 0.0) + Max(1.0 - m, 0.0)) / 2.0
  }

  lemma TwoTerms(v: Matrix, w: Vec, r: int, c: int)
    requires 0 <= r < 2 && 0 <= c < 2
    ensures At(SpectralOf(v, w, 2), r, c)
         == Mul(w(0), Mul(At(v, r, 0), At(v, c, 0))) + Mul(w(1), Mul(At(v, r, 1), At(v, c, 1)))
  {
    hide Sum;
    var x, y := Weighted(v, w, r), Row(v, c);
    PairDot(x, 0, 1, y, 2);
    assert Mul(x(0), y(0)) == Mul(w(0) * At(v, r, 0), At(v, c, 0));
    assert Mul(x(1), y(1)) == Mul(w(1) * At(v, r, 1), At(v, c, 1));
  }

  lemma PairPass(e: Elementary, y: Matrix)
    requires e.Lawful()
    ensures var p := Pass(e, y, 2);
            var m := At(y, 0, 1);
            && At(p, 0, 1) == PairOff(m) && At(p, 1, 0) == PairOff(m)
            && At(p, 0, 0) == PairDiagonal(m) && At(p, 1, 1) == PairDiagonal(m)
  {
    hide EigenOf, SpectralOf, AngleFor, Mul;
    var a, m := ResetOf(y, 2), At(y, 0, 1);
    PairEigen(e, a);
    var r := EigenOf(e, a, 2);
    var w := Clipped(Spectrum(r.d));
    assert w(0) == Max(Low(m), 0.0) && w(1) == Max(High(m), 0.0);
    TwoTerms(r.v, w, 0, 1);
    TwoTerms(r.v, w, 1, 0);
    TwoTerms(r.v, w, 0, 0);
    TwoTerms(r.v, w, 1, 1);
    MulByConstants(w(0));
    MulByConstants(w(1));
    if Abs(m) > JACOBI_TOL {
      EqualDiagonalAngle(e, 1.0, m);
      Signs(AngleFor(e, 1.0, 1.0, m).c);
    } else {
      MulByConstants(1.0);
      MulByConstants(0.0);
    }
  }

  lemma MulByConstants(a: real)
    ensures Mul(0.0, a) == 0.0 && Mul(a, 0.0) == 0.0 && Mul(a, 1.0) == a && Mul(a, 0.5) == a / 2.0 && Mul(a, -0.5) == -a / 2.0
  {
  }

  lemma Signs(c: real)
    requires c * c == 0.5
    ensures Mul(c, c) == 0.5 && Mul(c, -c) == -0.5 && Mul(-c, c) == -0.5 && Mul(-c, -c) == 0.5
  {
  }

  /** A symmetric unit-diagonal pair is positive semidefinite exactly when its correlation is. */
  lemma PairPsd(a: Matrix)
    requires Symmetric(a, 2) && UnitDiagonal(a, 2)
    ensures Psd(a, 2) <==> Abs(At(a, 0, 1)) <= 1.0
  {
    hide Form, Dot, Psd;
    var m := At(a, 0, 1);
    if Psd(a, 2) {
      CorrelationEntries(a, 2);
    }
    if Abs(m) <= 1.0 {
      forall u: Vec ensures Form(a, u, u, 2) >= 0.0 {
        var x, y := u(0), u(1);
        FormOnPair(a, 0, 1, x, y, 2);
        FormCongruent(a, u, u, a, PairVector(0, 1, x, y), PairVector(0, 1, x, y), 2);
        PairSquares(m, x, y);
      }
      PsdIs(a, 2);
    }
  }

  lemma PairSquares(m: real, x: real, y: real)
    requires -1.0 <= m <= 1.0
    ensures x * (1.0 * x + m * y) + y * (m * x + 1.0 * y) >= 0.0
  {
    assert Product(x + y, x + y) >= 0.0 && Product(x - y, x - y) >= 0.0;
    assert Product((1.0 + m) / 2.0, Product(x + y, x + y)) >= 0.0;
    assert Product((1.0 - m) / 2.0, Product(x - y, x - y)) >= 0.0;
    assert Product((1.0 + m) / 2.0, Product(x + y, x + y)) + Product((1.0 - m) / 2.0, Product(x - y, x - y))
        == x * (1.0 * x + m * y) + y * (m * x + 1.0 * y);
  }

  lemma {:induction false} PairRun(e: Elementary, y: Matrix, iter: nat, maxIterations: nat, tolerance: real)
    requires e.Lawful() && iter < maxIterations
    ensures Abs(At(RepairFrom(e, y, iter, 2, maxIterations, tolerance).matrix, 0, 1)) <= 1.0 <==> Abs(At(y, 0, 1)) <= 1.0
    decreases maxIterations - iter
  {
    hide Pass, StepLength, Accepted;
    PairPass(e, y);
    if StepLength(e, y, 2) > tolerance && iter + 1 < maxIterations {
      PairRun(e, Pass(e, y, 2), iter + 1, maxIterations, tolerance);
    }
  }

  /** The repair of a pair is positive semidefinite exactly when the entry above the input's diagonal is a
      correlation: an entry beyond one is pulled towards one, and stays beyond it. */
  lemma PairRepaired(e: Elementary, a: Matrix, maxIterations: int, tolerance: real)
    requires e.Lawful() && InputValid(a, 2) && maxIterations > 0 && tolerance > 0.0
    ensures Psd(RepairOf(e, a, 2, maxIterations, tolerance).matrix, 2) <==> Abs(At(a, 0, 1)) <= 1.0
  {
    hide Psd, RepairFrom, Symmetric, UnitDiagonal;
    RepairShape(e, a, 2, maxIterations, tolerance);
    PairRun(e, a, 0, maxIterations, tolerance);
    PairPsd(RepairOf(e, a, 2, maxIterations, tolerance).matrix);
  }

  function PairOf(r: real): Matrix {
    [[1.0, r], [r, 1.0]]
  }

  /** With the default settings, a pair correlated at 1 + 1e-8 is answered `Ok` with a matrix that is not positive
      semidefinite. */
  lemma OkNotPsd(e: Elementary)
    requires e.Lawful()
    ensures var r := RepairOf(e, PairOf(1.0 + EIGENVALUE_TOL), 2, 100, 0.00000001);
            r.status == Ok && !Psd(r.matrix, 2)
  {
    hide Psd, StepLength, Pass, Accepted, InputValid;
    var a := PairOf(1.0 + EIGENVALUE_TOL);
    BeyondOne();
    PairRepaired(e, a, 100, 0.00000001);
    FirstStep(e);
    FirstResult(e);
  }

  lemma BeyondOne()
    ensures InputValid(PairOf(1.0 + EIGENVALUE_TOL), 2) && Abs(At(PairOf(1.0 + EIGENVALUE_TOL), 0, 1)) > 1.0
  {
  }

  lemma FirstStep(e: Elementary)
    requires e.Lawful()
    ensures StepLength(e, PairOf(1.0 + EIGENVALUE_TOL), 2) <= 0.00000001
  {
    hide StepLength, Pass, DistanceSquared;
    var a := PairOf(1.0 + EIGENVALUE_TOL);
    PairPass(e, a);
    StepNonNegative(e, a, 2);
    PairDistance(Pass(e, a, 2), a, EIGENVALUE_TOL / 2.0);
    assert (2.0 * (EIGENVALUE_TOL / 2.0)) == EIGENVALUE_TOL;
    SquaresOrder(StepLength(e, a, 2), EIGENVALUE_TOL);
  }

  lemma FirstResult(e: Elementary)
    requires e.Lawful()
    ensures Accepted(e, ResetOf(Pass(e, PairOf(1.0 + EIGENVALUE_TOL), 2), 2), 2, DIAGONAL_TOL)
  {
    hide Pass, EigenOf;
    var a := PairOf(1.0 + EIGENVALUE_TOL);
    PairPass(e, a);
    PairEigen(e, ResetOf(Pass(e, a, 2), 2));
  }

  lemma PairDistance(x: Matrix, y: Matrix, t: real)
    requires forall i, j :: 0 <= i < 2 && 0 <= j < 2 ==> Abs(At(x, i, j) - At(y, i, j)) == t
    ensures DistanceSquared(x, y, 2) == (2.0 * t) * (2.0 * t)
  {
    hide Sum;
    var c := Minus(x, y, 2);
    forall i | 0 <= i < 2 ensures Dot(Row(c, i), Row(c, i), 2) == 2.0 * (t * t) {
      PairDot(Row(c, i), 0, 1, Row(c, i), 2);
      SameSquares(At(c, i, 0), t);
      SameSquares(At(c, i, 1), t);
    }
    SumConstant(i => Dot(Row(c, i), Row(c, i), 2), 2.0 * (t * t), 2);
  }

  lemma SameSquares(x: real, t: real)
    requires Abs(x) == t
    ensures x * x == t * t
  {
  }
}
