/** What the correlation repair promises: where it stays, when one pass is enough, and what its verdict means. */
module RepairTheory {
  import opened Reals
  import opened Sums
  import opened Matrices
  import opened Rotations
  import opened Jacobi
  import opened Spectral
  import opened Frobenius
  import opened Nearness
  import opened NearestCorrelation

  // ---- What the rotations leave ----

  /** The square root of what the rotation limit contracts the residue by. */
  function Settling(n: nat): real {
    if n < 2 then 0.0 else Pow(Contraction(n), JACOBI_MAX_ITER / 2)
  }

  /** How long the residue of a matrix with off-diagonal length `off` can be after the rotations. */
  function Leftover(n: nat, off: real): real {
    n as real * JACOBI_TOL + Settling(n) * off
  }

  lemma SettlingNonNegative(n: nat)
    ensures Settling(n) >= 0.0
  {
    if n >= 2 {
      ContractionNonNegative(n);
      PowOrders(0.0, Contraction(n), JACOBI_MAX_ITER / 2);
    }
  }

  lemma ContractionNonNegative(n: nat)
    requires n >= 2
    ensures 0.0 <= Contraction(n)
  {
  }

  lemma LeftoverOrders(n: nat, a: real, b: real)
    requires 0.0 <= a <= b
    ensures 0.0 <= n as real * JACOBI_TOL <= Leftover(n, a) <= Leftover(n, b)
  {
    hide Settling;
    SettlingNonNegative(n);
    ProductMonotone(a, b, Settling(n));
    ProductNonNegative(Settling(n), a);
  }

  lemma LeftoverCovers(n: nat, off: real)
    requires off >= 0.0
    ensures 0.0 <= n as real * JACOBI_TOL <= Leftover(n, off)
    ensures 0.0 <= Mul(Settling(n), off) <= Leftover(n, off)
  {
    hide Settling;
    LeftoverOrders(n, 0.0, off);
    SettlingNonNegative(n);
    ProductNonNegative(Settling(n), off);
  }

  lemma ResidueLeft(e: Elementary, a: Matrix, off: real, n: nat)
    requires e.Lawful() && Symmetric(a, n) && off >= 0.0 && OffSquares(a, n) <= off * off
    ensures OffSquares(EigenOf(e, a, n).d, n) <= Leftover(n, off) * Leftover(n, off)
  {
    hide OffSquares, EigenOf, Orthogonal, Leftover, Settling;
    EigenSound(e, a, n);
    LeftoverCovers(n, off);
    var r := EigenOf(e, a, n);
    var bound := if r.rotations < JACOBI_MAX_ITER || n < 2 then n as real * JACOBI_TOL else Mul(Settling(n), off);
    if r.rotations < JACOBI_MAX_ITER || n < 2 {
      NearlyDiagonalEntries(r.d, n);
      SmallResidue(r.d, JACOBI_TOL, n);
    } else {
      ResidueContracted(a, r.v, r.d, off, n);
    }
    MulOrders(bound, bound, Leftover(n, off), Leftover(n, off));
  }

  lemma ResidueContracted(a: Matrix, v: Matrix, d: Matrix, off: real, n: nat)
    requires n >= 2 && off >= 0.0 && OffSquares(a, n) <= off * off && Similar(a, v, d, JACOBI_MAX_ITER, n)
    ensures OffSquares(d, n) <= Mul(Settling(n), off) * Mul(Settling(n), off)
  {
    hide OffSquares, Conjugates;
    var half := JACOBI_MAX_ITER / 2;
    PowAdds(Contraction(n), half, half);
    assert half + half == JACOBI_MAX_ITER;
    SquaresBound(OffSquares(d, n), Pow(Contraction(n), JACOBI_MAX_ITER), Settling(n), OffSquares(a, n), off);
  }

  lemma SquaresBound(left: real, power: real, half: real, start: real, off: real)
    requires power == half * half && left <= power * start && start <= off * off
    ensures left <= Mul(half * off, half * off)
  {
    assert Product(half, half) == power;
    ProductMonotone(start, off * off, power);
    assert Mul(half * half, off * off) == Mul(half * off, half * off);
  }

  lemma NearlyDiagonalEntries(d: Matrix, n: nat)
    requires Symmetric(d, n) && NearlyDiagonal(d, n)
    ensures forall i, j :: 0 <= i < n && 0 <= j < n && i != j ==> Abs(At(d, i, j)) <= JACOBI_TOL
  {
    forall i, j | 0 <= i < n && 0 <= j < n && i != j ensures Abs(At(d, i, j)) <= JACOBI_TOL {
      assert At(d, i, j) == At(d, j, i);
    }
  }

  // ---- One projection ----

  /** The projection of any matrix is symmetric and positive semidefinite. */
  lemma ProjectionIsPsd(e: Elementary, a: Matrix, n: nat)
    requires e.Lawful()
    ensures Psd(Projection(e, a, n), n) && Symmetric(Projection(e, a, n), n) && Square(Projection(e, a, n), n)
  {
    hide Psd, EigenOf, Sum;
    var r := EigenOf(e, a, n);
    var w := Clipped(Spectrum(r.d));
    assert forall k :: w(k) == Max(Spectrum(r.d)(k), 0.0);
    SpectralPsd(Projection(e, a, n), r.v, w, n);
    SpectralSymmetric(Projection(e, a, n), r.v, w, n);
  }

  /** A projection takes a symmetric matrix no farther from any positive semidefinite one than the residue its rotations
      left. */
  lemma ProjectionApproaches(e: Elementary, a: Matrix, z: Matrix, rest: real, far: real, n: nat)
    requires e.Lawful() && Symmetric(a, n) && Psd(z, n)
    requires rest >= 0.0 && OffSquares(EigenOf(e, a, n).d, n) <= rest * rest
    requires far >= 0.0 && DistanceSquared(a, z, n) <= far * far
    ensures DistanceSquared(Projection(e, a, n), z, n) <= (rest + far) * (rest + far)
  {
    hide OffSquares, EigenOf, DistanceSquared, Psd, Sum;
    var r := EigenOf(e, a, n);
    var s := SpectralOf(r.v, Spectrum(r.d), n);
    EigenSound(e, a, n);
    ResidueDistance(a, s, r.v, r.d, n);
    DistanceSymmetric(a, s, n);
    DistancesAdd(s, a, z, rest, far, n);
    ClippingContracts(s, Projection(e, a, n), z, r.v, Spectrum(r.d), n);
  }

  lemma LeftoverOrdersZero(n: nat, off: real)
    requires off >= 0.0
    ensures Leftover(n, off) >= 0.0
  {
    LeftoverOrders(n, 0.0, off);
  }

  // ---- Resetting the diagonal ----

  /** Resetting the diagonal brings `x` closer to any unit-diagonal matrix. */
  lemma ResetCloser(x: Matrix, y: Matrix, n: nat)
    requires UnitDiagonal(y, n)
    ensures DistanceSquared(ResetOf(x, n), y, n) <= DistanceSquared(x, y, n)
  {
    FewerEntries(Minus(ResetOf(x, n), y, n), Minus(x, y, n), n);
  }

  lemma ResetShape(x: Matrix, n: nat)
    requires Symmetric(x, n)
    ensures Symmetric(ResetOf(x, n), n) && UnitDiagonal(ResetOf(x, n), n) && Square(ResetOf(x, n), n)
  {
  }

  lemma ResetIsSame(y: Matrix, n: nat)
    requires Square(y, n) && UnitDiagonal(y, n)
    ensures ResetOf(y, n) == y
  {
    MatricesEqual(ResetOf(y, n), y, n);
  }

  /** A positive semidefinite matrix whose diagonal is at most one stays so when its diagonal is reset. */
  lemma ResetKeepsPsd(x: Matrix, n: nat)
    requires Psd(x, n) && forall i :: 0 <= i < n ==> At(x, i, i) <= 1.0
    ensures Psd(ResetOf(x, n), n)
  {
    hide Sum, Psd, Form;
    var r := ResetOf(x, n);
    forall u: Vec ensures Form(r, u, u, n) >= 0.0 {
      FormMinus(r, x, u, n);
      GrowingDiagonal(Minus(r, x, n), u, n);
      assert Form(x, u, u, n) >= 0.0 by { PsdOn(x, u, n); }
    }
    PsdIs(r, n);
  }

  lemma PsdOn(x: Matrix, u: Vec, n: nat)
    requires Psd(x, n)
    ensures Form(x, u, u, n) >= 0.0
  {
  }

  lemma PsdIs(x: Matrix, n: nat)
    requires forall u: Vec :: Form(x, u, u, n) >= 0.0
    ensures Psd(x, n)
  {
  }

  lemma GrowingDiagonal(d: Matrix, u: Vec, n: nat)
    requires forall i, j :: 0 <= i < n && 0 <= j < n ==> if i == j then At(d, i, i) >= 0.0 else At(d, i, j) == 0.0
    ensures Form(d, u, u, n) >= 0.0
  {
    hide Sum;
    var f := i => u(i) * Act(d, i, u, n);
    forall i | 0 <= i < n ensures f(i) >= 0.0 {
      SpikeDot(Row(d, i), At(d, i, i), i, u, n);
      assert Product(u(i), u(i)) >= 0.0 && Product(At(d, i, i), Product(u(i), u(i))) >= 0.0;
      assert Mul(u(i), Act(d, i, u, n)) == Mul(u(i), At(d, i, i) * u(i));
    }
    SumNonNegative(f, n);
    SumCongruent(f, i => u(i) * Act(d, i, u, n), n);
  }

  // ---- Entries of correlation matrices ----

  /** The form on a vector with two entries. */
  lemma FormOnPair(a: Matrix, i: int, j: int, x: real, y: real, n: nat)
    requires 0 <= i < n && 0 <= j < n && i != j
    ensures var u := PairVector(i, j, x, y);
            && Form(a, u, u, n) == x * (At(a, i, i) * x + At(a, i, j) * y) + y * (At(a, j, i) * x + At(a, j, j) * y)
            && Dot(u, u, n) == x * x + y * y
  {
    hide Sum, Dot;
    var u := PairVector(i, j, x, y);
    var z := k => Act(a, k, u, n);
    FormIsDot(a, u, u, z, n);
    PairDot(u, i, j, z, n);
    PairDot(u, i, j, u, n);
    PairDot(u, i, j, Row(a, i), n);
    PairDot(u, i, j, Row(a, j), n);
    DotSymmetric(u, Row(a, i), n);
    DotSymmetric(u, Row(a, j), n);
    assert Mul(x, z(i)) == Mul(x, x * At(a, i, i) + y * At(a, i, j));
    assert Mul(y, z(j)) == Mul(y, x * At(a, j, i) + y * At(a, j, j));
  }

  function PairVector(i: int, j: int, x: real, y: real): Vec {
    k => if k == i then x else if k == j then y else 0.0
  }

  lemma PairDot(u: Vec, i: int, j: int, z: Vec, n: nat)
    requires 0 <= i < n && 0 <= j < n && i != j
    requires forall k :: 0 <= k < n && k != i && k != j ==> u(k) == 0.0
    ensures Dot(u, z, n) == u(i) * z(i) + u(j) * z(j)
  {
    hide Sum;
    var f, none := k => u(k) * z(k), (k: int) => 0.0;
    forall k | 0 <= k < n && k != i && k != j ensures f(k) == none(k) {
      assert Mul(u(k), z(k)) == Mul(0.0, z(k));
    }
    SumTwoPoints(f, none, i, j, n);
    SumConstant(none, 0.0, n);
    SumCongruent(f, k => u(k) * z(k), n);
  }

  /** No entry of a correlation matrix exceeds one. */
  lemma CorrelationEntries(a: Matrix, n: nat)
    requires IsCorrelation(a, n)
    ensures forall i, j :: 0 <= i < n && 0 <= j < n ==> Abs(At(a, i, j)) <= 1.0
    ensures OffSquares(a, n) <= (n as real) * (n as real)
  {
    hide OffSquares, Psd, Form, Dot;
    forall i, j | 0 <= i < n && 0 <= j < n ensures Abs(At(a, i, j)) <= 1.0 {
      if i != j {
        FormOnPair(a, i, j, 1.0, 1.0, n);
        FormOnPair(a, i, j, 1.0, -1.0, n);
        PsdOn(a, PairVector(i, j, 1.0, 1.0), n);
        PsdOn(a, PairVector(i, j, 1.0, -1.0), n);
      }
    }
    SmallResidue(a, 1.0, n);
  }

  // ---- The iterates ----

  /** The iterate after a number of passes. */
  ghost function Iterate(e: Elementary, y: Matrix, passes: nat, n: nat): Matrix
    requires e.Lawful()
    decreases passes
  {
    if passes == 0 then y else Iterate(e, Pass(e, y, n), passes - 1, n)
  }

  lemma {:induction false} IterateShape(e: Elementary, y: Matrix, passes: nat, n: nat)
    requires e.Lawful() && passes > 0
    ensures var x := Iterate(e, y, passes, n); Psd(x, n) && Symmetric(x, n) && Square(x, n)
    decreases passes
  {
    hide Pass, Psd;
    if passes == 1 {
      PassShape(e, y, n);
      assert Iterate(e, y, 1, n) == Iterate(e, Pass(e, y, n), 0, n) == Pass(e, y, n);
    } else {
      IterateShape(e, Pass(e, y, n), passes - 1, n);
    }
  }

  function PassesMade(r: Repair, maxIterations: nat): int {
    if r.iterations > maxIterations then maxIterations else r.iterations
  }

  /** The answer is the last iterate with its diagonal reset. */
  lemma {:induction false} RunEnds(e: Elementary, y: Matrix, iter: nat, n: nat, maxIterations: nat, tolerance: real)
    requires e.Lawful() && iter < maxIterations
    ensures var r := RepairFrom(e, y, iter, n, maxIterations, tolerance);
            && iter < PassesMade(r, maxIterations)
            && r.matrix == ResetOf(Iterate(e, y, PassesMade(r, maxIterations) - iter, n), n)
    decreases maxIterations - iter
  {
    hide Pass, StepLength, Accepted, ResetOf;
    var x := Pass(e, y, n);
    if StepLength(e, y, n) <= tolerance || iter + 1 == maxIterations {
      assert Iterate(e, y, 1, n) == Iterate(e, x, 0, n) == x;
    } else {
      RunEnds(e, x, iter + 1, n, maxIterations, tolerance);
    }
  }

  ghost function LastIterate(e: Elementary, a: Matrix, n: nat, maxIterations: nat, tolerance: real): Matrix
    requires e.Lawful() && InputValid(a, n) && maxIterations > 0 && tolerance > 0.0
  {
    RunEnds(e, a, 0, n, maxIterations, tolerance);
    Iterate(e, a, PassesMade(RepairOf(e, a, n, maxIterations, tolerance), maxIterations), n)
  }

  /** Every answer is the last iterate, which is positive semidefinite, with its diagonal reset, and is itself positive
      semidefinite if no diagonal entry of that iterate exceeded one. */
  lemma RepairEnds(e: Elementary, a: Matrix, n: nat, maxIterations: nat, tolerance: real)
    requires e.Lawful() && InputValid(a, n) && maxIterations > 0 && tolerance > 0.0
    ensures var r, x := RepairOf(e, a, n, maxIterations, tolerance), LastIterate(e, a, n, maxIterations, tolerance);
            && Psd(x, n) && Symmetric(x, n) && r.matrix == ResetOf(x, n)
            && ((forall i :: 0 <= i < n ==> At(x, i, i) <= 1.0) ==> Psd(r.matrix, n))
  {
    hide Psd, RepairFrom, Iterate, ResetOf;
    RunEnds(e, a, 0, n, maxIterations, tolerance);
    var r, x := RepairOf(e, a, n, maxIterations, tolerance), LastIterate(e, a, n, maxIterations, tolerance);
    IterateShape(e, a, PassesMade(r, maxIterations), n);
    if forall i :: 0 <= i < n ==> At(x, i, i) <= 1.0 {
      ResetKeepsPsd(x, n);
    }
  }

  // ---- Runs never stray far from a correlation matrix ----

  /** The length of the residue one pass's rotations leave. */
  ghost function PassResidue(e: Elementary, y: Matrix, n: nat): real
    requires e.Lawful()
  {
    e.sqrt(OffSquares(EigenOf(e, ResetOf(y, n), n).d, n))
  }

  ghost function Residues(e: Elementary, y: Matrix, passes: nat, n: nat): real
    requires e.Lawful()
    decreases passes
  {
    if passes == 0 then 0.0 else PassResidue(e, y, n) + Residues(e, Pass(e, y, n), passes - 1, n)
  }

  lemma PassResidueIs(e: Elementary, y: Matrix, n: nat)
    requires e.Lawful()
    ensures PassResidue(e, y, n) >= 0.0
    ensures OffSquares(EigenOf(e, ResetOf(y, n), n).d, n) == PassResidue(e, y, n) * PassResidue(e, y, n)
  {
    hide EigenOf, OffSquares;
    OffNonNegative(EigenOf(e, ResetOf(y, n), n).d, n);
    e.SqrtOf(OffSquares(EigenOf(e, ResetOf(y, n), n).d, n));
  }

  /** No pass moves an iterate away from any correlation matrix by more than the residue its rotations left. */
  lemma PassApproaches(e: Elementary, y: Matrix, z: Matrix, far: real, n: nat)
    requires e.Lawful() && Symmetric(y, n) && IsCorrelation(z, n)
    requires far >= 0.0 && DistanceSquared(y, z, n) <= far * far
    ensures DistanceSquared(Pass(e, y, n), z, n) <= (PassResidue(e, y, n) + far) * (PassResidue(e, y, n) + far)
  {
    hide OffSquares, DistanceSquared, Psd, Projection, PassResidue, EigenOf;
    ResetCloser(y, z, n);
    ResetShape(y, n);
    PassResidueIs(e, y, n);
    ProjectionApproaches(e, ResetOf(y, n), z, PassResidue(e, y, n), far, n);
  }

  /** Nor do many passes, by more than all their residues. */
  lemma {:induction false} IterateApproaches(e: Elementary, y: Matrix, passes: nat, z: Matrix, far: real, n: nat)
    requires e.Lawful() && Symmetric(y, n) && IsCorrelation(z, n)
    requires far >= 0.0 && DistanceSquared(y, z, n) <= far * far
    ensures var bound := far + Residues(e, y, passes, n);
            bound >= far && DistanceSquared(Iterate(e, y, passes, n), z, n) <= bound * bound
    decreases passes
  {
    hide DistanceSquared, Pass, PassResidue, IsCorrelation, Symmetric;
    if passes > 0 {
      PassApproaches(e, y, z, far, n);
      PassResidueIs(e, y, n);
      PassShape(e, y, n);
      IterateApproaches(e, Pass(e, y, n), passes - 1, z, PassResidue(e, y, n) + far, n);
    }
  }

  // ---- How much the rotation limit lets them stray ----

  /** How far an iterate within `far` of a correlation matrix can be from it after another pass. */
  function Wander(n: nat, far: real): real {
    Leftover(n, n as real + far) + far
  }

  function Drift(n: nat, far: real, passes: nat): real
    decreases passes
  {
    if passes == 0 then far else Drift(n, Wander(n, far), passes - 1)
  }

  lemma PassResidueBound(e: Elementary, y: Matrix, z: Matrix, far: real, n: nat)
    requires e.Lawful() && Symmetric(y, n) && IsCorrelation(z, n)
    requires far >= 0.0 && DistanceSquared(y, z, n) <= far * far
    ensures PassResidue(e, y, n) <= Leftover(n, n as real + far)
  {
    hide OffSquares, DistanceSquared, Psd, Leftover, EigenOf, PassResidue;
    var r := ResetOf(y, n);
    ResetCloser(y, z, n);
    ResetShape(y, n);
    CorrelationEntries(z, n);
    ResidueNearby(r, z, n as real, far, n);
    ResidueLeft(e, r, n as real + far, n);
    PassResidueIs(e, y, n);
    LeftoverOrdersZero(n, n as real + far);
    SquaresOrder(PassResidue(e, y, n), Leftover(n, n as real + far));
  }

  lemma WanderOrders(n: nat, near: real, far: real)
    requires 0.0 <= near <= far
    ensures near <= Wander(n, near) <= Wander(n, far)
  {
    hide Leftover;
    LeftoverOrders(n, n as real + near, n as real + far);
  }

  lemma {:induction false} DriftOrders(n: nat, near: real, far: real, few: nat, many: nat)
    requires 0.0 <= near <= far && few <= many
    ensures near <= Drift(n, near, few) <= Drift(n, far, many)
    decreases many
  {
    hide Wander;
    if many > 0 {
      WanderOrders(n, near, far);
      if few > 0 {
        DriftOrders(n, Wander(n, near), Wander(n, far), few - 1, many - 1);
      } else {
        WanderOrders(n, far, far);
        DriftOrders(n, far, Wander(n, far), 0, many - 1);
      }
    }
  }

  lemma {:induction false} ResiduesWithinDrift(e: Elementary, y: Matrix, passes: nat, z: Matrix, far: real, n: nat)
    requires e.Lawful() && Symmetric(y, n) && IsCorrelation(z, n)
    requires far >= 0.0 && DistanceSquared(y, z, n) <= far * far
    ensures far + Residues(e, y, passes, n) <= Drift(n, far, passes)
    decreases passes
  {
    hide DistanceSquared, Pass, PassResidue, IsCorrelation, Symmetric, Leftover;
    if passes > 0 {
      PassApproaches(e, y, z, far, n);
      PassResidueIs(e, y, n);
      PassResidueBound(e, y, z, far, n);
      PassShape(e, y, n);
      var next := PassResidue(e, y, n) + far;
      ResiduesWithinDrift(e, Pass(e, y, n), passes - 1, z, next, n);
      DriftOrders(n, next, Wander(n, far), passes - 1, passes - 1);
    }
  }

  /** The result is as near every correlation matrix as the input was, but for the residues of the passes made; and those
      are within what the rotation limit allows. */
  lemma RepairStaysNear(e: Elementary, a: Matrix, z: Matrix, far: real, n: nat, maxIterations: int, tolerance: real)
    requires e.Lawful() && Symmetric(a, n) && IsCorrelation(z, n) && far >= 0.0 && DistanceSquared(a, z, n) <= far * far
    ensures var r := RepairOf(e, a, n, maxIterations, tolerance);
            r.status != InvalidInputs ==>
              && 1 <= PassesMade(r, maxIterations)
              && var bound := far + Residues(e, a, PassesMade(r, maxIterations), n);
                 && far <= bound <= Drift(n, far, PassesMade(r, maxIterations))
                 && DistanceSquared(r.matrix, z, n) <= bound * bound
  {
    hide DistanceSquared, RepairFrom, Drift, Symmetric, Residues, Iterate, Psd;
    if InputValid(a, n) && maxIterations > 0 && tolerance > 0.0 {
      RunEnds(e, a, 0, n, maxIterations, tolerance);
      var passes := PassesMade(RepairOf(e, a, n, maxIterations, tolerance), maxIterations);
      IterateApproaches(e, a, passes, z, far, n);
      ResiduesWithinDrift(e, a, passes, z, far, n);
      ResetCloser(Iterate(e, a, passes, n), z, n);
    }
  }

  lemma PassShape(e: Elementary, y: Matrix, n: nat)
    requires e.Lawful()
    ensures Psd(Pass(e, y, n), n) && Symmetric(Pass(e, y, n), n) && Square(Pass(e, y, n), n)
  {
    ProjectionIsPsd(e, ResetOf(y, n), n);
  }

  // ---- The shape of every answer ----

  lemma {:induction false} RunShape(e: Elementary, y: Matrix, iter: nat, n: nat, maxIterations: nat, tolerance: real)
    requires e.Lawful() && iter < maxIterations
    ensures var r := RepairFrom(e, y, iter, n, maxIterations, tolerance);
            && r.status != InvalidInputs && Square(r.matrix, n) && Symmetric(r.matrix, n) && UnitDiagonal(r.matrix, n)
            && iter < r.iterations <= maxIterations + 1 && r.delta >= 0.0
            && (r.iterations <= maxIterations <==> r.delta <= tolerance)
            && (r.status == Ok <==> r.delta <= tolerance && Accepted(e, r.matrix, n, DIAGONAL_TOL))
    decreases maxIterations - iter
  {
    hide Pass, StepLength, Accepted, ResetOf;
    var x, delta := Pass(e, y, n), StepLength(e, y, n);
    PassShape(e, y, n);
    ResetShape(x, n);
    StepNonNegative(e, y, n);
    if delta > tolerance && iter + 1 < maxIterations {
      RunShape(e, x, iter + 1, n, maxIterations, tolerance);
    }
  }

  lemma StepNonNegative(e: Elementary, y: Matrix, n: nat)
    requires e.Lawful()
    ensures StepLength(e, y, n) >= 0.0
    ensures StepLength(e, y, n) * StepLength(e, y, n) == DistanceSquared(Pass(e, y, n), y, n)
  {
    hide Inner, Pass;
    InnerSelfNonNegative(Minus(Pass(e, y, n), y, n), n);
    e.SqrtOf(DistanceSquared(Pass(e, y, n), y, n));
  }

  /** Every accepted input is answered with an exactly symmetric matrix with exact unit diagonal; the loop ends early
      exactly when its last step is within the tolerance, and `Ok` means that and the final test. */
  lemma RepairShape(e: Elementary, a: Matrix, n: nat, maxIterations: int, tolerance: real)
    requires e.Lawful()
    ensures var r := RepairOf(e, a, n, maxIterations, tolerance);
            && (r.status == InvalidInputs <==> !InputValid(a, n) || maxIterations <= 0 || tolerance <= 0.0)
            && (r.status != InvalidInputs ==>
                  && Square(r.matrix, n) && Symmetric(r.matrix, n) && UnitDiagonal(r.matrix, n)
                  && 1 <= r.iterations <= maxIterations + 1 && r.delta >= 0.0
                  && (r.iterations <= maxIterations <==> r.delta <= tolerance)
                  && (r.status == Ok <==> r.delta <= tolerance && Accepted(e, r.matrix, n, DIAGONAL_TOL)))
  {
    hide RepairFrom, Accepted, InputValid;
    if InputValid(a, n) && maxIterations > 0 && tolerance > 0.0 {
      RunShape(e, a, 0, n, maxIterations, tolerance);
    }
  }

  // ---- The final test ----

  /** Acceptance bounds the form of a symmetric matrix from below. */
  lemma AcceptedForm(e: Elementary, a: Matrix, off: real, n: nat, diagTol: real)
    requires e.Lawful() && Symmetric(a, n) && Accepted(e, a, n, diagTol)
    requires off >= 0.0 && OffSquares(a, n) <= off * off
    ensures AlmostPsd(a, EIGENVALUE_TOL + Leftover(n, off), n)
  {
    hide OffSquares, EigenOf, Leftover, Form, Dot, NearlySymmetric;
    var r := EigenOf(e, a, n);
    var s := SpectralOf(r.v, Spectrum(r.d), n);
    EigenSound(e, a, n);
    ResidueLeft(e, a, off, n);
    LeftoverOrdersZero(n, off);
    forall x: Vec ensures Form(a, x, x, n) >= -(EIGENVALUE_TOL + Leftover(n, off)) * Dot(x, x, n) {
      RayleighBound(a, s, r.v, r.d, EIGENVALUE_TOL, Leftover(n, off), x, n);
    }
  }

  /** `Ok` bounds the form of the result by the eigenvalue tolerance and the residue of the last decomposition. */
  lemma OkForm(e: Elementary, a: Matrix, off: real, n: nat, maxIterations: int, tolerance: real)
    requires e.Lawful() && RepairOf(e, a, n, maxIterations, tolerance).status == Ok
    requires off >= 0.0 && OffSquares(RepairOf(e, a, n, maxIterations, tolerance).matrix, n) <= off * off
    ensures AlmostPsd(RepairOf(e, a, n, maxIterations, tolerance).matrix, EIGENVALUE_TOL + Leftover(n, off), n)
  {
    hide OffSquares, RepairOf, Leftover, AlmostPsd, Accepted;
    RepairShape(e, a, n, maxIterations, tolerance);
    AcceptedForm(e, RepairOf(e, a, n, maxIterations, tolerance).matrix, off, n, DIAGONAL_TOL);
  }

  /** The eigenvalue estimates are values of the form on unit vectors. */
  lemma EigenvaluesAbove(e: Elementary, a: Matrix, slack: real, i: int, n: nat)
    requires e.Lawful() && Symmetric(a, n) && AlmostPsd(a, slack, n) && 0 <= i < n
    ensures At(EigenOf(e, a, n).d, i, i) >= -slack
  {
    hide Sum, OffSquares, EigenOf;
    EigenSound(e, a, n);
    var r := EigenOf(e, a, n);
    var v, d := r.v, r.d;
    var x := Col(v, i);
    var unit := k => if k == i then 1.0 else 0.0;
    FormInCoordinates(a, v, d, x, n);
    FormCongruent(d, Coordinates(v, x, n), Coordinates(v, x, n), d, unit, unit, n);
    forall k | 0 <= k < n ensures Act(d, k, unit, n) == At(d, k, i) {
      DotSymmetric(Row(d, k), unit, n);
      UnitDot(unit, i, Row(d, k), n);
    }
    FormIsDot(d, unit, unit, Col(d, i), n);
    UnitDot(unit, i, Col(d, i), n);
    assert Form(a, x, x, n) >= -slack * Dot(x, x, n) && Dot(x, x, n) == 1.0;
  }

  // ---- Genuine correlation matrices ----

  lemma PsdNearby(a: Matrix, b: Matrix, t: real, n: nat)
    requires Psd(b, n) && t >= 0.0 && DistanceSquared(a, b, n) <= t * t
    ensures AlmostPsd(a, t, n)
  {
    hide DistanceSquared, Form, Dot;
    forall x: Vec ensures Form(a, x, x, n) >= -t * Dot(x, x, n) {
      PsdOn(b, x, n);
      FormNearby(a, b, t, x, n);
      assert -t * Dot(x, x, n) == -(t * Dot(x, x, n));
    }
  }

  /** When the residue the rotations can leave is within the tolerance and the eigenvalue tolerance, a genuine
      correlation matrix is `Ok` after one pass, and moves by no more than that residue. */
  lemma CorrelationUnmoved(e: Elementary, a: Matrix, n: nat, maxIterations: int, tolerance: real)
    requires e.Lawful() && n > 0 && Square(a, n) && IsCorrelation(a, n) && maxIterations > 0
    requires Leftover(n, n as real) <= tolerance && Leftover(n, n as real) <= EIGENVALUE_TOL && tolerance > 0.0
    ensures var r := RepairOf(e, a, n, maxIterations, tolerance);
            && r.status == Ok && r.iterations == 1
            && DistanceSquared(r.matrix, a, n) <= Leftover(n, n as real) * Leftover(n, n as real)
  {
    hide DistanceSquared, Psd, OffSquares, Projection, Leftover, EigenOf, StepLength;
    var left := Leftover(n, n as real);
    LeftoverOrdersZero(n, n as real);
    ResetIsSame(a, n);
    CorrelationEntries(a, n);
    DistanceToSelf(a, n);
    ResidueLeft(e, a, n as real, n);
    ProjectionApproaches(e, a, a, left, 0.0, n);
    var x := Pass(e, a, n);
    StepNonNegative(e, a, n);
    SquaresOrder(StepLength(e, a, n), left);
    ResetCloser(x, a, n);
    PassShape(e, a, n);
    ResetShape(x, n);
    PsdNearby(ResetOf(x, n), a, left, n);
    forall i | 0 <= i < n ensures At(EigenOf(e, ResetOf(x, n), n).d, i, i) >= -EIGENVALUE_TOL {
      EigenvaluesAbove(e, ResetOf(x, n), left, i, n);
    }
  }

  /** A form of at least `t` times the squared length outweighs a move of at most `t`. */
  lemma DefiniteNearby(a: Matrix, b: Matrix, t: real, n: nat)
    requires t >= 0.0 && DistanceSquared(a, b, n) <= t * t
    requires forall x: Vec :: Form(b, x, x, n) >= t * Dot(x, x, n)
    ensures Psd(a, n)
  {
    hide DistanceSquared, Form, Dot;
    forall x: Vec ensures Form(a, x, x, n) >= 0.0 {
      FormNearby(a, b, t, x, n);
    }
    PsdIs(a, n);
  }

  /** A correlation matrix that is definite enough is repaired to a positive semidefinite one: enough is the residue of
      one decomposition where one pass suffices, and what the limits allow over all passes in general. */
  lemma DefiniteStaysPsd(e: Elementary, a: Matrix, t: real, n: nat, maxIterations: nat, tolerance: real)
    requires e.Lawful() && n > 0 && Square(a, n) && IsCorrelation(a, n) && maxIterations > 0 && tolerance > 0.0
    requires forall x: Vec :: Form(a, x, x, n) >= t * Dot(x, x, n)
    requires || t >= Drift(n, 0.0, maxIterations)
             || (t >= Leftover(n, n as real) && Leftover(n, n as real) <= tolerance && Leftover(n, n as real) <= EIGENVALUE_TOL)
    ensures Psd(RepairOf(e, a, n, maxIterations, tolerance).matrix, n)
  {
    hide DistanceSquared, Psd, Form, Dot, RepairOf, Drift, Leftover, IsCorrelation;
    var drift := Drift(n, 0.0, maxIterations);
    var far := if t >= drift then drift else Leftover(n, n as real);
    if t >= drift {
      MovedWithinDrift(e, a, n, maxIterations, tolerance);
    } else {
      LeftoverOrdersZero(n, n as real);
      CorrelationUnmoved(e, a, n, maxIterations, tolerance);
    }
    forall x: Vec ensures Form(a, x, x, n) >= far * Dot(x, x, n) {
      DotSelfNonNegative(x, n);
      ProductMonotone(far, t, Dot(x, x, n));
    }
    DefiniteNearby(RepairOf(e, a, n, maxIterations, tolerance).matrix, a, far, n);
  }

  lemma MovedWithinDrift(e: Elementary, a: Matrix, n: nat, maxIterations: nat, tolerance: real)
    requires e.Lawful() && n > 0 && Square(a, n) && IsCorrelation(a, n) && maxIterations > 0 && tolerance > 0.0
    ensures var drift := Drift(n, 0.0, maxIterations);
            drift >= 0.0 && DistanceSquared(RepairOf(e, a, n, maxIterations, tolerance).matrix, a, n) <= drift * drift
  {
    hide DistanceSquared, Psd, RepairOf, Drift, Residues, InputValid;
    var r, drift := RepairOf(e, a, n, maxIterations, tolerance), Drift(n, 0.0, maxIterations);
    CorrelationInput(a, n);
    RepairShape(e, a, n, maxIterations, tolerance);
    DistanceToSelf(a, n);
    RepairStaysNear(e, a, a, 0.0, n, maxIterations, tolerance);
    var passes := PassesMade(r, maxIterations);
    DriftOrders(n, 0.0, 0.0, passes, maxIterations);
    var bound := 0.0 + Residues(e, a, passes, n);
    MulOrders(bound, bound, drift, drift);
  }

  lemma CorrelationInput(a: Matrix, n: nat)
    requires n > 0 && Square(a, n) && IsCorrelation(a, n)
    ensures InputValid(a, n)
  {
  }

  lemma DistanceToSelf(a: Matrix, n: nat)
    ensures DistanceSquared(a, a, n) == 0.0
  {
    hide Sum;
    var zero := Minus(a, a, n);
    InnerCombines(zero, 0.0, a, 0.0, a, zero, n);
  }

  /** Up to three factors the rotation limit always suffices. */
  lemma ThreeFactorsSettle(n: nat)
    requires n <= 3
    ensures Leftover(n, n as real) <= 0.0000000001
  {
    if n >= 2 {
      ContractionNonNegative(n);
      PowOrders(Contraction(n), 0.67, JACOBI_MAX_ITER / 2);
      SmallPower();
      ProductMonotone(Settling(n), 0.00000000001, n as real);
    }
  }

  lemma SmallPower()
    ensures Pow(0.67, 100) <= 0.00000000001
  {
    var five := Pow(0.67, 5);
    assert five == 0.67 * (0.67 * (0.67 * (0.67 * 0.67))) by {
      assert Pow(0.67, 1) == 0.67 && Pow(0.67, 2) == 0.67 * 0.67;
      assert Pow(0.67, 3) == 0.67 * Pow(0.67, 2) && Pow(0.67, 4) == 0.67 * Pow(0.67, 3);
    }
    PowAdds(0.67, 5, 5);
    PowAdds(0.67, 10, 10);
    PowAdds(0.67, 20, 20);
    PowAdds(0.67, 40, 40);
    PowAdds(0.67, 80, 20);
    PowPositive(0.67, 10);
    PowPositive(0.67, 20);
    PowPositive(0.67, 40);
    PowPositive(0.67, 80);
    MulOrders(five, five, 0.136, 0.136);
    MulOrders(Pow(0.67, 10), Pow(0.67, 10), 0.0185, 0.0185);
    MulOrders(Pow(0.67, 20), Pow(0.67, 20), 0.000343, 0.000343);
    MulOrders(Pow(0.67, 40), Pow(0.67, 40), 0.000000118, 0.000000118);
    MulOrders(Pow(0.67, 80), Pow(0.67, 20), 0.0000000000000140, 0.000343);
  }
}
