/** What the repair cannot mend: an input that is indefinite stays so, however many passes are made. */
module IndefiniteRepair {
  import opened Reals
  import opened Sums
  import opened Matrices
  import opened Rotations
  import opened Jacobi
  import opened Spectral
  import opened Frobenius
  import opened Nearness
  import opened NearestCorrelation
  import opened RepairTheory

  /** How far below zero the form is still known to reach after a pass, when it reached below `-depth` before. */
  function Sunk(n: nat, depth: real, rest: real): real
    requires n > 0
  {
    (depth - rest) / (n as real) - rest
  }

  /** A form below `-depth` shows in an eigenvalue estimate, up to the residue. */
  lemma LowEstimate(e: Elementary, r: Matrix, depth: real, rest: real, n: nat) returns (k: nat)
    requires e.Lawful() && Symmetric(r, n) && !AlmostPsd(r, depth, n)
    requires rest >= 0.0 && OffSquares(EigenOf(e, r, n).d, n) <= rest * rest
    ensures k < n && At(EigenOf(e, r, n).d, k, k) < -(depth - rest)
  {
    hide OffSquares, EigenOf, Form, Dot;
    EigenSound(e, r, n);
    var x: Vec :| !(Form(r, x, x, n) >= -depth * Dot(x, x, n));
    var b := EigenOf(e, r, n);
    if forall i :: 0 <= i < n ==> At(b.d, i, i) >= -(depth - rest) {
      RayleighBound(r, SpectralOf(b.v, Spectrum(b.d), n), b.v, b.d, depth - rest, rest, x, n);
      assert false;
    }
    k :| 0 <= k < n && At(b.d, k, k) < -(depth - rest);
  }

  /** What clipping adds to the estimates. */
  function Cut(w: Vec): Vec {
    j => Max(w(j), 0.0) - w(j)
  }

  lemma CutAtLeast(w: Vec, k: int, depth: real)
    requires w(k) <= -depth
    ensures Cut(w)(k) >= depth && forall j :: Cut(w)(j) >= 0.0
  {
    forall j ensures Cut(w)(j) >= 0.0 {
      assert Cut(w)(j) == Max(w(j), 0.0) - w(j);
    }
  }

  /** Clipping an estimate of `-depth` raises the diagonal by at least `depth` times the eigenvector's squares. */
  lemma ClippingRaisesDiagonal(v: Matrix, w: Vec, k: nat, depth: real, i: nat, n: nat)
    requires k < n && i < n && w(k) <= -depth
    ensures At(SpectralOf(v, Clipped(w), n), i, i) - At(SpectralOf(v, w, n), i, i) >= depth * Squares(Col(v, k))(i)
  {
    hide Sum;
    CutAtLeast(w, k, depth);
    hide Dot, Mul, Squares, Cut, Max;
    var cut, q := Cut(w), Squares(Row(v, i));
    var f := j => Mul(cut(j), q(j));
    DiagonalRise(v, w, i, n);
    forall j | 0 <= j < n ensures f(j) >= 0.0 && f(j) == Weighted(v, cut, i)(j) * Row(v, i)(j) {
      SquareIs(Row(v, i), j);
      CutTerm(cut(j), At(v, i, j), Weighted(v, cut, i)(j), q(j));
    }
    SumAtLeastTerm(f, k, n);
    DotIs(f, Weighted(v, cut, i), Row(v, i), n);
    SquareIs(Row(v, i), k);
    SquareIs(Col(v, k), i);
    MulMonotone(depth, cut(k), q(k));
    MulIs(depth, q(k));
  }

  lemma SquareIs(x: Vec, j: int)
    ensures Squares(x)(j) == x(j) * x(j) >= 0.0
  {
    assert Product(x(j), x(j)) == x(j) * x(j);
  }

  lemma DotIs(f: Vec, x: Vec, y: Vec, n: nat)
    requires forall j :: 0 <= j < n ==> f(j) == x(j) * y(j)
    ensures Sum(f, n) == Dot(x, y, n)
  {
    hide Sum;
    SumCongruent(f, j => x(j) * y(j), n);
  }

  lemma DiagonalRise(v: Matrix, w: Vec, i: nat, n: nat)
    requires i < n
    ensures At(SpectralOf(v, Clipped(w), n), i, i) - At(SpectralOf(v, w, n), i, i) == Dot(Weighted(v, Cut(w), i), Row(v, i), n)
  {
    hide Dot;
    DotCombines(Weighted(v, Cut(w), i), 1.0, Weighted(v, Clipped(w), i), -1.0, Weighted(v, w, i), Row(v, i), n);
  }

  lemma CutTerm(cut: real, x: real, raised: real, q: real)
    requires cut >= 0.0 && raised == cut * x && q == x * x
    ensures Mul(cut, q) >= 0.0 && Mul(cut, q) == raised * x
  {
    assert Product(x, x) == q;
    assert Product(cut, q) == Mul(cut, q);
    assert Mul(raised, x) == Mul(cut * x, x);
  }

  /** Fourth powers of a unit vector add up to at least `1 / n`. */
  lemma FourthPowers(u: Vec, n: nat)
    requires n > 0 && Dot(u, u, n) == 1.0
    ensures Dot(Squares(u), Squares(u), n) >= 1.0 / (n as real)
  {
    hide Sum;
    var ones := (i: int) => 1.0;
    CauchySchwarz(Squares(u), ones, n);
    SumConstant(i => ones(i) * ones(i), 1.0, n);
    SumCongruent(i => Squares(u)(i) * ones(i), Squares(u), n);
    SquaresOfDot(u, n);
    Reciprocal(Dot(Squares(u), Squares(u), n), n as real);
  }

  lemma Reciprocal(x: real, n: real)
    requires n > 0.0 && 1.0 <= x * n
    ensures x >= 1.0 / n
  {
    var inverse := 1.0 / n;
    assert inverse * n == 1.0;
    assert Product(x - inverse, n) == x * n - 1.0;
  }

  /** An entry moves no farther than its matrix. */
  lemma EntryNearby(a: Matrix, b: Matrix, i: nat, j: nat, rest: real, n: nat)
    requires i < n && j < n && rest >= 0.0 && DistanceSquared(a, b, n) <= rest * rest
    ensures Abs(At(a, i, j) - At(b, i, j)) <= rest
  {
    hide Sum;
    var c := Minus(a, b, n);
    var row, rows := Row(c, i), k => Dot(Row(c, k), Row(c, k), n);
    forall k | 0 <= k < n ensures Squares(row)(k) >= 0.0 && rows(k) >= 0.0 {
      DotSelfNonNegative(Row(c, k), n);
      assert Product(row(k), row(k)) == Squares(row)(k);
    }
    SumAtLeastTerm(Squares(row), j, n);
    SumAtLeastTerm(rows, i, n);
    SquaresOfDot(row, n);
    SumCongruent(rows, k => Dot(Row(c, k), Row(c, k), n), n);
    var gap := At(a, i, j) - At(b, i, j);
    assert Mul(Abs(gap), Abs(gap)) == Mul(row(j), row(j));
    SquaresOrder(Abs(gap), rest);
  }

  function Weighed(excess: Vec, u: Vec): Vec {
    i => Mul(excess(i), Squares(u)(i))
  }

  /** Resetting a diagonal takes from the form what the diagonal stood above one. */
  lemma ResetLowers(x: Matrix, u: Vec, excess: Vec, n: nat)
    requires forall i :: 0 <= i < n ==> excess(i) == At(x, i, i) - 1.0
    ensures Form(ResetOf(x, n), u, u, n) == Form(x, u, u, n) - Sum(Weighed(excess, u), n)
  {
    hide Sum;
    var d := Minus(x, ResetOf(x, n), n);
    FormMinus(x, ResetOf(x, n), u, n);
    var f := Weighed(excess, u);
    forall i | 0 <= i < n ensures u(i) * Act(d, i, u, n) == f(i) {
      SpikeDot(Row(d, i), excess(i), i, u, n);
      assert Mul(u(i), Act(d, i, u, n)) == Mul(u(i), excess(i) * u(i));
      assert Mul(excess(i), Squares(u)(i)) == Mul(excess(i), u(i) * u(i));
    }
    SumCongruent(f, i => u(i) * Act(d, i, u, n), n);
  }

  /** A pass lifts an eigenvector with a negative estimate to zero and its diagonal above one, so resetting the diagonal
      sinks it again. */
  lemma PassSinks(e: Elementary, y: Matrix, k: nat, depth: real, rest: real, n: nat)
    requires e.Lawful() && Symmetric(y, n) && k < n && depth >= 0.0 && rest >= 0.0
    requires OffSquares(EigenOf(e, ResetOf(y, n), n).d, n) <= rest * rest
    requires At(EigenOf(e, ResetOf(y, n), n).d, k, k) == -depth
    ensures var u := Col(EigenOf(e, ResetOf(y, n), n).v, k);
            && Dot(u, u, n) == 1.0
            && Form(ResetOf(Pass(e, y, n), n), u, u, n) <= rest - depth / (n as real)
  {
    hide OffSquares, EigenOf, DistanceSquared, Sum, Form;
    var r := ResetOf(y, n);
    ResetShape(y, n);
    EigenSound(e, r, n);
    var b := EigenOf(e, r, n);
    var w := Spectrum(b.d);
    var s, x, u := SpectralOf(b.v, w, n), Pass(e, y, n), Col(b.v, k);
    ResidueDistance(r, s, b.v, b.d, n);
    ColumnForm(x, b.v, Clipped(w), k, n);
    var excess: Vec := i => At(x, i, i) - 1.0;
    ResetLowers(x, u, excess, n);
    forall i | 0 <= i < n ensures excess(i) >= depth * Squares(u)(i) - rest {
      ClippingRaisesDiagonal(b.v, w, k, depth, i, n);
      EntryNearby(r, s, i, i, rest, n);
    }
    RaisedSum(excess, u, depth, rest, n);
    assert w(k) == -depth && Clipped(w)(k) == 0.0;
    assert Form(x, u, u, n) == 0.0;
    assert Form(ResetOf(x, n), u, u, n) == -Sum(Weighed(excess, u), n);
  }

  lemma RaisedSum(excess: Vec, u: Vec, depth: real, rest: real, n: nat)
    requires n > 0 && Dot(u, u, n) == 1.0 && depth >= 0.0
    requires forall i :: 0 <= i < n ==> excess(i) >= depth * Squares(u)(i) - rest
    ensures Sum(Weighed(excess, u), n) >= depth / (n as real) - rest
  {
    hide Sum, Weighed;
    RaisedFloor(excess, u, depth, rest, n);
    SumCongruent(Fourths(u), i => Squares(u)(i) * Squares(u)(i), n);
    SquaresOfDot(u, n);
    FourthPowers(u, n);
    Scaled(depth, Dot(Squares(u), Squares(u), n), n as real);
  }

  function Fourths(u: Vec): Vec {
    i => Mul(Squares(u)(i), Squares(u)(i))
  }

  lemma RaisedFloor(excess: Vec, u: Vec, depth: real, rest: real, n: nat)
    requires forall i :: 0 <= i < n ==> excess(i) >= depth * Squares(u)(i) - rest
    ensures Sum(Weighed(excess, u), n) >= depth * Sum(Fourths(u), n) + -rest * Sum(Squares(u), n)
  {
    hide Sum, Mul;
    var g := i => depth * Fourths(u)(i) + -rest * Squares(u)(i);
    forall i | 0 <= i < n ensures g(i) <= Weighed(excess, u)(i) {
      RaisedTerm(excess(i), depth, Squares(u)(i), rest, u(i));
    }
    SumMonotone(g, Weighed(excess, u), n);
    SumCombines(g, depth, Fourths(u), -rest, Squares(u), n);
  }

  lemma RaisedTerm(excess: real, depth: real, q: real, rest: real, u: real)
    requires q == u * u && excess >= depth * q - rest
    ensures depth * Mul(q, q) + -rest * q <= Mul(excess, q)
  {
    assert Product(u, u) == q;
    assert Product(excess - (depth * q - rest), q) == Mul(excess, q) - (depth * Mul(q, q) - rest * q);
  }

  lemma Scaled(depth: real, x: real, n: real)
    requires depth >= 0.0 && n > 0.0 && x >= 1.0 / n
    ensures depth * x >= depth / n
  {
    ProductMonotone(1.0 / n, x, depth);
    assert depth * (1.0 / n) == depth / n;
  }

  /** An indefinite iterate, its diagonal reset, is indefinite after the pass too. */
  lemma PassKeepsIndefinite(e: Elementary, y: Matrix, depth: real, rest: real, n: nat)
    requires e.Lawful() && n > 0 && Symmetric(y, n) && !AlmostPsd(ResetOf(y, n), depth, n)
    requires rest >= 0.0 && OffSquares(EigenOf(e, ResetOf(y, n), n).d, n) <= rest * rest && depth >= rest
    ensures !AlmostPsd(ResetOf(Pass(e, y, n), n), Sunk(n, depth, rest), n)
  {
    hide OffSquares, EigenOf, Pass, ResetOf, Form, Dot;
    ResetShape(y, n);
    var k := LowEstimate(e, ResetOf(y, n), depth, rest, n);
    var b := EigenOf(e, ResetOf(y, n), n);
    var found := -At(b.d, k, k);
    PassSinks(e, y, k, found, rest, n);
    QuotientStrict(depth - rest, found, n as real);
    var u := Col(b.v, k);
    assert !(Form(ResetOf(Pass(e, y, n), n), u, u, n) >= -Sunk(n, depth, rest) * Dot(u, u, n));
  }

  lemma QuotientStrict(a: real, b: real, n: real)
    requires a < b && n > 0.0
    ensures a / n < b / n
  {
    assert Mul(b / n - a / n, n) == b - a;
    assert Product(b / n - a / n, n) == b - a;
  }

  // ---- Whole runs ----

  lemma PsdIsAlmost(a: Matrix, n: nat)
    ensures Psd(a, n) <==> AlmostPsd(a, 0.0, n)
  {
    hide Form, Dot;
    if Psd(a, n) {
      forall x: Vec ensures Form(a, x, x, n) >= -0.0 * Dot(x, x, n) {
        PsdOn(a, x, n);
        TimesZero(Dot(x, x, n));
      }
    }
    if AlmostPsd(a, 0.0, n) {
      forall x: Vec ensures Form(a, x, x, n) >= 0.0 {
        TimesZero(Dot(x, x, n));
        assert Form(a, x, x, n) >= -0.0 * Dot(x, x, n);
      }
      PsdIs(a, n);
    }
  }

  lemma TimesZero(a: real)
    ensures -0.0 * a == 0.0
  {
  }

  /** Every pass of a run leaves no residue at all. */
  ghost predicate Exact(e: Elementary, y: Matrix, passes: nat, n: nat)
    requires e.Lawful()
  {
    forall k: nat :: k < passes ==> ExactPass(e, Iterate(e, y, k, n), n)
  }

  ghost predicate ExactPass(e: Elementary, y: Matrix, n: nat)
    requires e.Lawful()
  {
    OffSquares(EigenOf(e, ResetOf(y, n), n).d, n) == 0.0
  }

  /** Where the rotations leave no residue, a pass keeps the answer positive semidefinite exactly if it was. */
  lemma ExactPassKeeps(e: Elementary, y: Matrix, n: nat)
    requires e.Lawful() && n > 0 && Symmetric(y, n) && ExactPass(e, y, n)
    ensures Psd(ResetOf(Pass(e, y, n), n), n) <==> Psd(ResetOf(y, n), n)
  {
    hide OffSquares, EigenOf, Psd, AlmostPsd, Projection, DistanceSquared, ResetOf;
    var r := ResetOf(y, n);
    ResetShape(y, n);
    PsdIsAlmost(r, n);
    PsdIsAlmost(ResetOf(Pass(e, y, n), n), n);
    if Psd(r, n) {
      DistanceToSelf(r, n);
      ProjectionApproaches(e, r, r, 0.0, 0.0, n);
      SameReset(Projection(e, r, n), r, n);
      ResetIsSame(r, n);
    } else {
      PassKeepsIndefinite(e, y, 0.0, 0.0, n);
      assert Sunk(n, 0.0, 0.0) == 0.0;
    }
  }

  lemma SameReset(a: Matrix, b: Matrix, n: nat)
    requires DistanceSquared(a, b, n) <= 0.0
    ensures ResetOf(a, n) == ResetOf(b, n)
  {
    hide DistanceSquared;
    forall i, j | 0 <= i < n && 0 <= j < n ensures At(ResetOf(a, n), i, j) == At(ResetOf(b, n), i, j) {
      EntryNearby(a, b, i, j, 0.0, n);
    }
    MatricesEqual(ResetOf(a, n), ResetOf(b, n), n);
  }

  lemma {:induction false} ExactRunKeeps(e: Elementary, y: Matrix, passes: nat, n: nat)
    requires e.Lawful() && n > 0 && Symmetric(y, n) && Exact(e, y, passes, n)
    ensures Psd(ResetOf(Iterate(e, y, passes, n), n), n) <==> Psd(ResetOf(y, n), n)
    decreases passes
  {
    hide ExactPass, Psd, Pass, ResetOf, Symmetric;
    if passes > 0 {
      assert ExactPass(e, Iterate(e, y, 0, n), n) && Iterate(e, y, 0, n) == y;
      forall k: nat | k < passes - 1 ensures ExactPass(e, Iterate(e, Pass(e, y, n), k, n), n) {
        assert Iterate(e, Pass(e, y, n), k, n) == Iterate(e, y, k + 1, n);
      }
      ExactPassKeeps(e, y, n);
      PassShape(e, y, n);
      ExactRunKeeps(e, Pass(e, y, n), passes - 1, n);
    }
  }

  /** With exact decompositions the answer is positive semidefinite exactly when the input is, its diagonal reset:
      alternating projections without a correction never reach a correlation matrix from outside. */
  lemma ExactRepair(e: Elementary, a: Matrix, n: nat, maxIterations: nat, tolerance: real)
    requires e.Lawful() && InputValid(a, n) && Symmetric(a, n) && maxIterations > 0 && tolerance > 0.0
    requires Exact(e, a, maxIterations, n)
    ensures Psd(RepairOf(e, a, n, maxIterations, tolerance).matrix, n) <==> Psd(ResetOf(a, n), n)
  {
    hide Psd, RepairFrom, ResetOf, ExactPass, Symmetric;
    RunEnds(e, a, 0, n, maxIterations, tolerance);
    ExactRunKeeps(e, a, PassesMade(RepairOf(e, a, n, maxIterations, tolerance), maxIterations), n);
  }

  // ---- Runs whose rotations leave a residue ----

  /** The depth that survives a number of passes from an iterate within `far` of the identity. */
  function DepthLeft(n: nat, far: real, depth: real, passes: nat): real
    requires n > 0
    decreases passes
  {
    if passes == 0 then depth
    else DepthLeft(n, Leftover(n, far) + far, Sunk(n, depth, Leftover(n, far)), passes - 1)
  }

  lemma SunkFrom(n: nat, depth: real, rest: real)
    requires n > 0 && rest >= 0.0 && Sunk(n, depth, rest) >= 0.0
    ensures depth >= rest
  {
    assert Mul((depth - rest) / (n as real), n as real) == depth - rest;
    assert Product((depth - rest) / (n as real), n as real) == depth - rest;
  }

  lemma {:induction false} DepthWasThere(n: nat, far: real, depth: real, few: nat, many: nat)
    requires n > 0 && far >= 0.0 && few <= many && DepthLeft(n, far, depth, many) >= 0.0
    ensures depth >= 0.0 && DepthLeft(n, far, depth, few) >= 0.0
    ensures many > 0 ==> depth >= Leftover(n, far)
    decreases many
  {
    hide Leftover, Sunk;
    LeftoverOrdersZero(n, far);
    if many > 0 {
      var rest := Leftover(n, far);
      DepthWasThere(n, rest + far, Sunk(n, depth, rest), if few > 0 then few - 1 else 0, many - 1);
      SunkFrom(n, depth, rest);
    }
  }

  lemma IdentityIsCorrelation(n: nat)
    ensures IsCorrelation(IdentityOf(n), n)
  {
    hide Sum;
    forall x: Vec ensures Form(IdentityOf(n), x, x, n) >= 0.0 {
      forall i | 0 <= i < n ensures x(i) == Act(IdentityOf(n), i, x, n) {
        IdentityDot(IdentityOf(n), i, x, n);
      }
      FormIsDot(IdentityOf(n), x, x, x, n);
      DotSelfNonNegative(x, n);
    }
  }

  /** What a pass's rotations can leave of an iterate within `far` of the identity. */
  lemma ResidueFromIdentity(e: Elementary, y: Matrix, far: real, n: nat)
    requires e.Lawful() && Symmetric(y, n) && far >= 0.0 && DistanceSquared(y, IdentityOf(n), n) <= far * far
    ensures OffSquares(EigenOf(e, ResetOf(y, n), n).d, n) <= Leftover(n, far) * Leftover(n, far)
    ensures PassResidue(e, y, n) <= Leftover(n, far)
  {
    hide OffSquares, EigenOf, Inner, Leftover, PassResidue;
    var r := ResetOf(y, n);
    ResetShape(y, n);
    ResetCloser(y, IdentityOf(n), n);
    OffIsLength(r, n);
    FewerEntries(Residue(r, n), Minus(r, IdentityOf(n), n), n);
    ResidueLeft(e, r, far, n);
    PassResidueIs(e, y, n);
    LeftoverOrdersZero(n, far);
    SquaresOrder(PassResidue(e, y, n), Leftover(n, far));
  }

  lemma {:induction false} RunKeepsIndefinite(e: Elementary, y: Matrix, passes: nat, far: real, depth: real, n: nat)
    requires e.Lawful() && n > 0 && Symmetric(y, n) && !AlmostPsd(ResetOf(y, n), depth, n)
    requires far >= 0.0 && DistanceSquared(y, IdentityOf(n), n) <= far * far && DepthLeft(n, far, depth, passes) >= 0.0
    ensures !AlmostPsd(ResetOf(Iterate(e, y, passes, n), n), DepthLeft(n, far, depth, passes), n)
    decreases passes
  {
    hide AlmostPsd, Pass, ResetOf, Leftover, Sunk, DistanceSquared, IsCorrelation, PassResidue, OffSquares, EigenOf;
    if passes > 0 {
      var rest := Leftover(n, far);
      LeftoverOrdersZero(n, far);
      DepthWasThere(n, far, depth, passes, passes);
      ResidueFromIdentity(e, y, far, n);
      PassKeepsIndefinite(e, y, depth, rest, n);
      IdentityIsCorrelation(n);
      PassApproaches(e, y, IdentityOf(n), far, n);
      PassResidueIs(e, y, n);
      var left := PassResidue(e, y, n) + far;
      MulOrders(left, left, rest + far, rest + far);
      PassShape(e, y, n);
      RunKeepsIndefinite(e, Pass(e, y, n), passes - 1, rest + far, Sunk(n, depth, rest), n);
    }
  }

  /** An input whose form, its diagonal reset, reaches below `-depth` is not repaired to a positive semidefinite matrix when
      that depth outlasts the residues over the passes made. */
  lemma IndefiniteStays(e: Elementary, a: Matrix, far: real, depth: real, passes: nat, n: nat, maxIterations: nat,
                        tolerance: real)
    requires e.Lawful() && InputValid(a, n) && Symmetric(a, n) && maxIterations > 0 && tolerance > 0.0
    requires far >= 0.0 && DistanceSquared(a, IdentityOf(n), n) <= far * far && !AlmostPsd(ResetOf(a, n), depth, n)
    requires PassesMade(RepairOf(e, a, n, maxIterations, tolerance), maxIterations) <= passes
    requires DepthLeft(n, far, depth, passes) >= 0.0
    ensures !Psd(RepairOf(e, a, n, maxIterations, tolerance).matrix, n)
  {
    hide Psd, AlmostPsd, RepairFrom, ResetOf, Symmetric, DistanceSquared, DepthLeft, Iterate;
    RunEnds(e, a, 0, n, maxIterations, tolerance);
    var r := RepairOf(e, a, n, maxIterations, tolerance);
    var made := PassesMade(r, maxIterations);
    DepthWasThere(n, far, depth, made, passes);
    RunKeepsIndefinite(e, a, made, far, depth, n);
    DeeperIsIndefinite(r.matrix, DepthLeft(n, far, depth, made), n);
  }

  lemma DeeperIsIndefinite(a: Matrix, depth: real, n: nat)
    requires depth >= 0.0 && !AlmostPsd(a, depth, n)
    ensures !Psd(a, n)
  {
    hide Form, Dot;
    if Psd(a, n) {
      forall x: Vec ensures Form(a, x, x, n) >= -depth * Dot(x, x, n) {
        PsdOn(a, x, n);
        DotSelfNonNegative(x, n);
        ProductNonNegative(depth, Dot(x, x, n));
        assert -depth * Dot(x, x, n) == -(depth * Dot(x, x, n));
      }
    }
  }
}
