/** What the calibration's answer has to do with the sample, and when it cannot fail. */
module CalibrationTheory {
  import opened Options
  import opened Reals
  import opened Sums
  import opened Matrices
  import opened Rotations
  import opened Frobenius
  import Jacobi
  import Cholesky
  import DefiniteFactor
  import opened NearestCorrelation
  import opened RepairTheory
  import opened Calibrator
  import Correlation

  const SHRINK := 1.0 - OFF_DIAGONAL_SHRINK

  // ---- One shrink ----

  /** Shrinking moves a matrix by its off-diagonal length times 1e-8. */
  lemma ShrunkNearby(c: Matrix, off: real, n: nat)
    requires off >= 0.0 && OffSquares(c, n) <= off * off
    ensures DistanceSquared(Shrunk(c, n), c, n) <= (SHRINK * off) * (SHRINK * off)
  {
    hide OffSquares, Inner;
    var moved, rest := Minus(Shrunk(c, n), c, n), Residue(c, n);
    OffIsLength(c, n);
    InnerCombines(moved, -SHRINK, rest, 0.0, rest, moved, n);
    InnerSymmetric(rest, moved, n);
    InnerCombines(moved, -SHRINK, rest, 0.0, rest, rest, n);
    assert Mul(SHRINK * off, SHRINK * off) == SHRINK * SHRINK * (off * off);
  }

  /** Shrinking lifts the form of a unit-diagonal matrix. */
  lemma ShrunkForm(c: Matrix, slack: real, x: Vec, n: nat)
    requires UnitDiagonal(c, n) && AlmostPsd(c, slack, n) && slack >= 0.0
    ensures Form(Shrunk(c, n), x, x, n) >= (SHRINK - slack) * Dot(x, x, n)
  {
    hide Form, Dot;
    var identity := Jacobi.IdentityOf(n);
    FormCombines(Shrunk(c, n), OFF_DIAGONAL_SHRINK, c, SHRINK, identity, x, x, n);
    IdentityForm(x, n);
    DotSelfNonNegative(x, n);
    assert Form(c, x, x, n) >= -slack * Dot(x, x, n);
    ProductNonNegative(slack, Dot(x, x, n));
    assert Mul(slack, Dot(x, x, n)) == slack * Dot(x, x, n);
  }

  lemma IdentityForm(x: Vec, n: nat)
    ensures Form(Jacobi.IdentityOf(n), x, x, n) == Dot(x, x, n)
  {
    hide Sum;
    forall i | 0 <= i < n ensures x(i) == Act(Jacobi.IdentityOf(n), i, x, n) {
      Jacobi.IdentityDot(Jacobi.IdentityOf(n), i, x, n);
    }
    FormIsDot(Jacobi.IdentityOf(n), x, x, x, n);
  }

  lemma ShrunkShape(c: Matrix, n: nat)
    requires Symmetric(c, n) && UnitDiagonal(c, n)
    ensures Symmetric(Shrunk(c, n), n) && UnitDiagonal(Shrunk(c, n), n) && Square(Shrunk(c, n), n)
  {
  }

  // ---- However many attempts it takes ----

  /** How far a matrix within `far` of a correlation matrix can be from it after a shrink. */
  function AfterShrink(n: nat, far: real): real {
    SHRINK * (n as real + far) + far
  }

  /** The residues a repair's passes leave, all together. */
  ghost function RepairResidues(e: Elementary, c: Matrix, n: nat): real
    requires e.Lawful()
  {
    var passes := PassesMade(RepairAgain(e, c, n), HIGHAM_ITERATIONS);
    if passes < 0 then 0.0 else Residues(e, c, passes, n)
  }

  /** How far the attempts from `c` can end from a correlation matrix that `c` is within `far` of: by the residues of the
      repairs made and the shrinks between them. */
  ghost function Strayed(e: Elementary, c: Matrix, shrinks: nat, far: real, n: nat): real
    requires e.Lawful()
    decreases MAX_CHOLESKY_ATTEMPTS - shrinks
  {
    if shrinks >= MAX_CHOLESKY_ATTEMPTS || Factored(c, n) then far
    else
      var r := RepairAgain(e, Shrunk(c, n), n);
      if r.status != NearestCorrelation.Ok then far
      else Strayed(e, r.matrix, shrinks + 1, AfterShrink(n, far) + RepairResidues(e, Shrunk(c, n), n), n)
  }

  /** What the limits on rotations and passes allow that to be, after a number of shrinks. */
  function Allowed(n: nat, far: real, shrinks: nat): real
    decreases shrinks
  {
    if shrinks == 0 then far
    else Allowed(n, Drift(n, AfterShrink(n, far), HIGHAM_ITERATIONS), shrinks - 1)
  }

  lemma AfterShrinkOrders(n: nat, near: real, far: real)
    requires 0.0 <= near <= far
    ensures near <= AfterShrink(n, near) <= AfterShrink(n, far)
  {
  }

  lemma {:induction false} AllowedOrders(n: nat, near: real, far: real, shrinks: nat)
    requires 0.0 <= near <= far
    ensures Allowed(n, near, shrinks) <= Allowed(n, far, shrinks)
    decreases shrinks
  {
    hide AfterShrink, Drift;
    if shrinks > 0 {
      AfterShrinkOrders(n, near, far);
      DriftOrders(n, AfterShrink(n, near), AfterShrink(n, far), HIGHAM_ITERATIONS, HIGHAM_ITERATIONS);
      AllowedOrders(n, Drift(n, AfterShrink(n, near), HIGHAM_ITERATIONS), Drift(n, AfterShrink(n, far), HIGHAM_ITERATIONS),
                    shrinks - 1);
    }
  }

  lemma RepairAgainNear(e: Elementary, c: Matrix, z: Matrix, far: real, n: nat)
    requires e.Lawful() && Symmetric(c, n) && IsCorrelation(z, n) && far >= 0.0 && DistanceSquared(c, z, n) <= far * far
    ensures var r, bound := RepairAgain(e, c, n), far + RepairResidues(e, c, n);
            r.status == NearestCorrelation.Ok ==>
              && Symmetric(r.matrix, n) && UnitDiagonal(r.matrix, n)
              && far <= bound <= Drift(n, far, HIGHAM_ITERATIONS) && DistanceSquared(r.matrix, z, n) <= bound * bound
  {
    hide DistanceSquared, RepairOf, Drift, IsCorrelation, Residues;
    RepairStaysNear(e, c, z, far, n, HIGHAM_ITERATIONS, HIGHAM_TOL);
    RepairShape(e, c, n, HIGHAM_ITERATIONS, HIGHAM_TOL);
    var r := RepairAgain(e, c, n);
    if r.status == NearestCorrelation.Ok {
      DriftOrders(n, far, far, PassesMade(r, HIGHAM_ITERATIONS), HIGHAM_ITERATIONS);
    }
  }

  lemma ShrinkStaysNear(c: Matrix, z: Matrix, far: real, n: nat)
    requires IsCorrelation(z, n) && far >= 0.0 && DistanceSquared(c, z, n) <= far * far
    ensures DistanceSquared(Shrunk(c, n), z, n) <= AfterShrink(n, far) * AfterShrink(n, far)
    ensures AfterShrink(n, far) >= far
  {
    hide DistanceSquared, OffSquares, IsCorrelation, Shrunk;
    CorrelationEntries(z, n);
    ResidueNearby(c, z, n as real, far, n);
    ShrunkNearby(c, n as real + far, n);
    DistancesAdd(Shrunk(c, n), c, z, SHRINK * (n as real + far), far, n);
  }

  /** Whatever the number of shrinks, the matrix returned is as near every correlation matrix as the repaired sample was, but
      for the residues and shrinks in between; and those are within what the limits allow. */
  lemma {:induction false} AttemptStaysNear(e: Elementary, c: Matrix, shrinks: nat, z: Matrix, far: real, n: nat)
    requires e.Lawful() && Symmetric(c, n) && IsCorrelation(z, n) && far >= 0.0 && DistanceSquared(c, z, n) <= far * far
    ensures var a, bound := AttemptFrom(e, c, shrinks, n), Strayed(e, c, shrinks, far, n);
            && shrinks <= a.shrinks
            && (a.outcome == Calibrated ==>
                  && DistanceSquared(a.c, z, n) <= bound * bound
                  && bound <= Allowed(n, far, a.shrinks - shrinks))
    decreases MAX_CHOLESKY_ATTEMPTS - shrinks
  {
    hide DistanceSquared, RepairAgain, Drift, IsCorrelation, Factored, Shrunk, AfterShrink, Symmetric, UnitDiagonal,
      RepairResidues;
    if shrinks < MAX_CHOLESKY_ATTEMPTS && !Factored(c, n) {
      var r := RepairAgain(e, Shrunk(c, n), n);
      if r.status == NearestCorrelation.Ok {
        ShrinkStaysNear(c, z, far, n);
        ShrunkSymmetric(c, n);
        RepairAgainNear(e, Shrunk(c, n), z, AfterShrink(n, far), n);
        var next := AfterShrink(n, far) + RepairResidues(e, Shrunk(c, n), n);
        AttemptStaysNear(e, r.matrix, shrinks + 1, z, next, n);
        var a := AttemptFrom(e, c, shrinks, n);
        assert a == AttemptFrom(e, r.matrix, shrinks + 1, n);
        if a.outcome == Calibrated {
          AllowedOrders(n, next, Drift(n, AfterShrink(n, far), HIGHAM_ITERATIONS), a.shrinks - (shrinks + 1));
        }
      }
    }
  }

  lemma ShrunkSymmetric(c: Matrix, n: nat)
    requires Symmetric(c, n)
    ensures Symmetric(Shrunk(c, n), n)
  {
  }

  /** A successful calibration is as near its sample matrix as the residues of its repairs and its shrinks leave it; and
      those are within a bound that depends only on the number of factors and of shrinks. */
  lemma CalibrationNearSample(e: Elementary, sample: Matrix, n: nat)
    requires e.Lawful() && IsCorrelation(sample, n)
    ensures var a := AttemptOn(e, sample, n);
            a.outcome == Calibrated ==>
              var bound := Strayed(e, RepairAgain(e, sample, n).matrix, 0, RepairResidues(e, sample, n), n);
              && DistanceSquared(a.c, sample, n) <= bound * bound
              && bound <= Allowed(n, Drift(n, 0.0, HIGHAM_ITERATIONS), a.shrinks)
  {
    hide DistanceSquared, RepairAgain, Drift, Strayed, AttemptFrom, Allowed, RepairResidues;
    DistanceToSelf(sample, n);
    RepairAgainNear(e, sample, sample, 0.0, n);
    var r := RepairAgain(e, sample, n);
    if r.status == NearestCorrelation.Ok {
      var near := RepairResidues(e, sample, n);
      AttemptStaysNear(e, r.matrix, 0, sample, near, n);
      AllowedOrders(n, near, Drift(n, 0.0, HIGHAM_ITERATIONS), AttemptOn(e, sample, n).shrinks);
    }
  }

  // ---- When the rotations settle, one shrink is enough ----

  /** The rotations leave so little of a correlation matrix that a shrink outweighs it. */
  predicate Settles(n: nat) {
    Leftover(n, n as real) <= 0.000000001
  }

  lemma SettledRepair(e: Elementary, c: Matrix, n: nat)
    requires e.Lawful() && n > 0 && Square(c, n) && IsCorrelation(c, n) && Settles(n)
    ensures var r, left := RepairAgain(e, c, n), Leftover(n, n as real);
            && r.status == NearestCorrelation.Ok && left >= 0.0
            && Square(r.matrix, n) && Symmetric(r.matrix, n) && UnitDiagonal(r.matrix, n)
            && DistanceSquared(r.matrix, c, n) <= left * left && AlmostPsd(r.matrix, left, n)
  {
    hide DistanceSquared, RepairOf, Leftover, AlmostPsd, Psd;
    LeftoverOrdersZero(n, n as real);
    CorrelationUnmoved(e, c, n, HIGHAM_ITERATIONS, HIGHAM_TOL);
    RepairShape(e, c, n, HIGHAM_ITERATIONS, HIGHAM_TOL);
    PsdNearby(RepairAgain(e, c, n).matrix, c, Leftover(n, n as real), n);
  }

  /** A unit-diagonal symmetric matrix whose form stays clear of the pivot tolerance is factored. */
  lemma ClearIsFactored(e: Elementary, c: Matrix, t: real, n: nat)
    requires e.Lawful() && n > 0 && Square(c, n) && Symmetric(c, n) && UnitDiagonal(c, n)
    requires t > Cholesky.PIVOT_TOL && DefiniteFactor.Definite(c, t, n)
    ensures Factored(c, n)
  {
    hide Form, Dot, Psd;
    DefiniteFactor.DefiniteHasFactor(e, c, t, n);
    forall x: Vec ensures Form(c, x, x, n) >= 0.0 {
      DotSelfNonNegative(x, n);
      ProductNonNegative(t, Dot(x, x, n));
      assert Form(c, x, x, n) >= t * Dot(x, x, n);
    }
    PsdIs(c, n);
    CorrelationEntries(c, n);
  }

  lemma ShrunkRepairIsDefinite(e: Elementary, c: Matrix, n: nat)
    requires e.Lawful() && n > 0 && Square(c, n) && Symmetric(c, n) && UnitDiagonal(c, n) && Settles(n)
    requires AlmostPsd(c, Leftover(n, n as real), n)
    ensures IsCorrelation(Shrunk(c, n), n)
    ensures var r := RepairAgain(e, Shrunk(c, n), n);
            && r.status == NearestCorrelation.Ok
            && DefiniteFactor.Definite(r.matrix, SHRINK / 2.0, n)
  {
    hide DistanceSquared, RepairAgain, Leftover, AlmostPsd, Form, Dot, Shrunk, Psd;
    var left := Leftover(n, n as real);
    LeftoverOrdersZero(n, n as real);
    ShrunkShape(c, n);
    var shrunk := Shrunk(c, n);
    forall x: Vec ensures Form(shrunk, x, x, n) >= (SHRINK - left) * Dot(x, x, n) >= 0.0 {
      ShrunkForm(c, left, x, n);
      DotSelfNonNegative(x, n);
      ProductNonNegative(SHRINK - left, Dot(x, x, n));
    }
    PsdIs(shrunk, n);
    SettledRepair(e, shrunk, n);
    var r := RepairAgain(e, shrunk, n);
    forall x: Vec ensures Form(r.matrix, x, x, n) >= SHRINK / 2.0 * Dot(x, x, n) {
      assert Form(shrunk, x, x, n) >= (SHRINK - left) * Dot(x, x, n);
      FormNearby(r.matrix, shrunk, left, x, n);
      DotSelfNonNegative(x, n);
      ProductMonotone(SHRINK / 2.0, SHRINK - 2.0 * left, Dot(x, x, n));
      assert Mul(SHRINK - 2.0 * left, Dot(x, x, n)) == (SHRINK - left) * Dot(x, x, n) - left * Dot(x, x, n);
    }
  }

  /** When the rotations settle, the repair and factorisation of a genuine correlation matrix cannot fail: at most one
      shrink is needed, and the pair is as near the sample as the residue and that shrink allow. */
  lemma SettledCalibration(e: Elementary, sample: Matrix, n: nat)
    requires e.Lawful() && n > 0 && Square(sample, n) && IsCorrelation(sample, n) && Settles(n)
    ensures var a, left := AttemptOn(e, sample, n), Leftover(n, n as real);
            && a.outcome == Calibrated && a.shrinks <= 1
            && var bound := if a.shrinks == 0 then left else left + AfterShrink(n, left);
               DistanceSquared(a.c, sample, n) <= bound * bound
  {
    hide DistanceSquared, RepairAgain, Leftover, AlmostPsd, IsCorrelation, Factored, Shrunk, AfterShrink,
      DefiniteFactor.Definite, Symmetric, UnitDiagonal;
    var left := Leftover(n, n as real);
    SettledRepair(e, sample, n);
    var c := RepairAgain(e, sample, n).matrix;
    assert AttemptOn(e, sample, n) == AttemptFrom(e, c, 0, n);
    if !Factored(c, n) {
      ShrunkRepairIsDefinite(e, c, n);
      ShrunkShape(c, n);
      SettledRepair(e, Shrunk(c, n), n);
      var next := RepairAgain(e, Shrunk(c, n), n).matrix;
      ClearIsFactored(e, next, SHRINK / 2.0, n);
      ShrinkStaysNear(c, sample, left, n);
      DistancesAdd(next, Shrunk(c, n), sample, left, AfterShrink(n, left), n);
      assert AttemptFrom(e, c, 0, n) == AttemptFrom(e, next, 1, n);
    }
  }

  /** So up to three factors a calibration fails only for want of data. */
  lemma SmallBooksCalibrate(e: Elementary, series: seq<seq<real>>, m: nat)
    requires e.Lawful() && 0 < |series| <= 3 && Correlation.Aligned(series, m)
    ensures var a := AttemptOn(e, Correlation.Sample(e, series), |series|);
            && a.outcome == Calibrated && FailureOf(a.outcome) == None && a.shrinks <= 1
            && DistanceSquared(a.c, Correlation.Sample(e, series), |series|) <= 0.0000000000000016
  {
    hide DistanceSquared, AttemptOn, Psd, Correlation.Sample, Leftover;
    var n, sample := |series|, Correlation.Sample(e, series);
    Correlation.SampleIsCorrelation(e, series, m);
    SampleSquare(e, series);
    ThreeFactorsSettle(n);
    LeftoverOrdersZero(n, n as real);
    SettledCalibration(e, sample, n);
    var a, left := AttemptOn(e, sample, n), Leftover(n, n as real);
    var bound := if a.shrinks == 0 then left else left + AfterShrink(n, left);
    assert 0.0 <= bound <= 0.00000004;
    MulOrders(bound, bound, 0.00000004, 0.00000004);
  }

  lemma SampleSquare(e: Elementary, series: seq<seq<real>>)
    ensures Square(Correlation.Sample(e, series), |series|)
  {
  }
}
