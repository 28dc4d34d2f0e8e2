/** The clipped spectral matrix: nearest among the positive semidefinite ones, and no farther from any of them. */
module Nearness {
  import opened Reals
  import opened Sums
  import opened Matrices
  import opened Rotations
  import opened Spectral
  import opened Frobenius

  /** Pairing a spectral matrix with `z` evaluates the form of `z` on the columns of `v`. */
  lemma InnerSpectral(p: Matrix, v: Matrix, w: Vec, z: Matrix, n: nat)
    requires IsSpectral(p, v, w, n)
    ensures Inner(p, z, n) == Sum(k => w(k) * Form(z, Col(v, k), Col(v, k), n), n)
  {
    hide Sum;
    var f := (r: int, k: int) => w(k) * (At(v, r, k) * Act(z, r, Col(v, k), n));
    SumSwaps(f, n, n);
    forall r | 0 <= r < n ensures Sum(k => f(r, k), n) == Dot(Row(p, r), Row(z, r), n) {
      RowSpectral(p, v, w, z, r, n);
      SumCongruent(k => f(r, k), k => w(k) * (At(v, r, k) * Act(z, r, Col(v, k), n)), n);
    }
    forall k | 0 <= k < n ensures Sum(r => f(r, k), n) == w(k) * Form(z, Col(v, k), Col(v, k), n) {
      ColSpectral(v, w(k), z, k, n);
      SumCongruent(r => f(r, k), r => w(k) * (At(v, r, k) * Act(z, r, Col(v, k), n)), n);
    }
    SumCongruent(r => Sum(k => f(r, k), n), r => Dot(Row(p, r), Row(z, r), n), n);
    SumCongruent(k => Sum(r => f(r, k), n), k => w(k) * Form(z, Col(v, k), Col(v, k), n), n);
  }

  lemma RowSpectral(p: Matrix, v: Matrix, w: Vec, z: Matrix, r: int, n: nat)
    requires IsSpectral(p, v, w, n) && 0 <= r < n
    ensures Dot(Row(p, r), Row(z, r), n) == Sum(k => w(k) * (At(v, r, k) * Act(z, r, Col(v, k), n)), n)
  {
    hide Sum;
    var u, x := Weighted(v, w, r), Row(z, r);
    var t := Coordinates(v, x, n);
    forall c | 0 <= c < n ensures Row(p, r)(c) == Image(v, u, n)(c) {
      DotSymmetric(u, Row(v, c), n);
    }
    DotCongruent(Row(p, r), x, Image(v, u, n), x, n);
    DotSymmetric(Image(v, u, n), x, n);
    Adjoint(v, x, u, n);
    var f, h := k => t(k) * u(k), k => w(k) * (At(v, r, k) * Act(z, r, Col(v, k), n));
    forall k | 0 <= k < n ensures f(k) == h(k) {
      DotSymmetric(Col(v, k), x, n);
      assert Mul(t(k), u(k)) == Mul(Act(z, r, Col(v, k), n), w(k) * At(v, r, k));
    }
    SumCongruent(f, h, n);
    SumCongruent(f, k => t(k) * u(k), n);
  }

  lemma ColSpectral(v: Matrix, a: real, z: Matrix, k: int, n: nat)
    ensures Sum(r => a * (At(v, r, k) * Act(z, r, Col(v, k), n)), n) == a * Form(z, Col(v, k), Col(v, k), n)
  {
    hide Sum;
    var y := Col(v, k);
    var f, h := r => y(r) * Act(z, r, y, n), r => a * (At(v, r, k) * Act(z, r, y, n));
    forall r | 0 <= r < n ensures h(r) == a * f(r) {
      assert Mul(a, f(r)) == Mul(a, At(v, r, k) * Act(z, r, y, n));
    }
    SumScales(h, a, f, n);
  }

  /** A column of an orthogonal `v` has the coordinates of a unit vector. */
  lemma ColumnForm(p: Matrix, v: Matrix, w: Vec, k: int, n: nat)
    requires IsSpectral(p, v, w, n) && OrthonormalCols(v, n) && 0 <= k < n
    ensures Form(p, Col(v, k), Col(v, k), n) == w(k)
  {
    hide Sum;
    SpectralForm(p, v, w, Col(v, k), Col(v, k), n);
    var t := Coordinates(v, Col(v, k), n);
    var f := l => w(l) * (t(l) * t(l));
    forall l | 0 <= l < n ensures f(l) == if l == k then w(k) else 0.0 {
      assert t(l) == if l == k then 1.0 else 0.0;
    }
    SumOnePoint(f, k, n);
  }

  function Clipped(w: Vec): Vec {
    k => Max(w(k), 0.0)
  }

  /** The clipped part of the spectrum points away from every positive semidefinite matrix. */
  lemma ClippingSeparates(s: Matrix, p: Matrix, z: Matrix, v: Matrix, w: Vec, n: nat)
    requires IsSpectral(s, v, w, n) && IsSpectral(p, v, Clipped(w), n)
    requires OrthonormalCols(v, n) && Psd(z, n)
    ensures Inner(Minus(s, p, n), p, n) == 0.0 && Inner(Minus(s, p, n), z, n) <= 0.0
  {
    hide Sum;
    var d := Minus(s, p, n);
    var cut := k => w(k) - Max(w(k), 0.0);
    DifferenceSpectral(s, p, v, w, n);
    InnerSpectral(d, v, cut, p, n);
    InnerSpectral(d, v, cut, z, n);
    var onP, onZ := k => cut(k) * Form(p, Col(v, k), Col(v, k), n), k => cut(k) * Form(z, Col(v, k), Col(v, k), n);
    forall k | 0 <= k < n ensures onP(k) == 0.0 && onZ(k) <= 0.0 {
      ColumnForm(p, v, Clipped(w), k, n);
      assert Form(z, Col(v, k), Col(v, k), n) >= 0.0;
      CutTerms(w(k), Form(p, Col(v, k), Col(v, k), n), Form(z, Col(v, k), Col(v, k), n));
    }
    SumConstant(onP, 0.0, n);
    SumMonotone(onZ, k => 0.0, n);
    SumConstant(k => 0.0, 0.0, n);
    SumCongruent(onP, k => cut(k) * Form(p, Col(v, k), Col(v, k), n), n);
    SumCongruent(onZ, k => cut(k) * Form(z, Col(v, k), Col(v, k), n), n);
  }

  lemma CutTerms(w: real, onP: real, onZ: real)
    requires onP == Max(w, 0.0) && onZ >= 0.0
    ensures (w - Max(w, 0.0)) * onP == 0.0 && (w - Max(w, 0.0)) * onZ <= 0.0
  {
    assert Product(w - Max(w, 0.0), onP) == (w - Max(w, 0.0)) * onP;
    assert Product(w - Max(w, 0.0), onZ) == (w - Max(w, 0.0)) * onZ;
  }

  lemma DifferenceSpectral(s: Matrix, p: Matrix, v: Matrix, w: Vec, n: nat)
    requires IsSpectral(s, v, w, n) && IsSpectral(p, v, Clipped(w), n)
    ensures IsSpectral(Minus(s, p, n), v, k => w(k) - Max(w(k), 0.0), n)
  {
    hide Sum;
    var cut := k => w(k) - Max(w(k), 0.0);
    forall r, c | 0 <= r < n && 0 <= c < n
      ensures At(Minus(s, p, n), r, c) == Dot(Weighted(v, cut, r), Row(v, c), n)
    {
      DotCombines(Weighted(v, cut, r), 1.0, Weighted(v, w, r), -1.0, Weighted(v, Clipped(w), r), Row(v, c), n);
    }
  }

  /** Clipping the spectrum at zero gives the nearest positive semidefinite matrix. */
  lemma ClippedIsNearest(s: Matrix, p: Matrix, z: Matrix, v: Matrix, w: Vec, n: nat)
    requires IsSpectral(s, v, w, n) && IsSpectral(p, v, Clipped(w), n)
    requires OrthonormalCols(v, n) && Psd(z, n)
    ensures DistanceSquared(s, p, n) <= DistanceSquared(s, z, n)
  {
    hide Sum;
    var d, e, f := Minus(s, p, n), Minus(p, z, n), Minus(s, z, n);
    ClippingSeparates(s, p, z, v, w, n);
    InnerOfSum(f, d, e, n);
    InnerCombines(e, 1.0, p, -1.0, z, d, n);
    InnerSymmetric(d, e, n);
    InnerSymmetric(d, p, n);
    InnerSymmetric(d, z, n);
    InnerSelfNonNegative(e, n);
  }

  /** An orthogonal `v` preserves inner products. */
  lemma Isometry(v: Matrix, u: Vec, n: nat)
    requires OrthonormalCols(v, n)
    ensures Dot(Image(v, u, n), Image(v, u, n), n) == Dot(u, u, n)
  {
    hide Sum;
    var x := Image(v, u, n);
    Adjoint(v, x, u, n);
    forall l | 0 <= l < n ensures Coordinates(v, x, n)(l) == u(l) {
      Adjoint(v, Col(v, l), u, n);
      UnitDot(Coordinates(v, Col(v, l), n), l, u, n);
    }
    DotCongruent(Coordinates(v, x, n), u, u, u, n);
  }

  /** Rows being orthonormal too, the coordinates of `x` have the length of `x`. */
  lemma CoordinatesIsometry(v: Matrix, x: Vec, n: nat)
    requires OrthonormalRows(v, n)
    ensures Dot(Coordinates(v, x, n), Coordinates(v, x, n), n) == Dot(x, x, n)
  {
    hide Sum;
    var y := Coordinates(v, x, n);
    Adjoint(v, x, y, n);
    forall r | 0 <= r < n ensures Image(v, y, n)(r) == x(r) {
      DotSymmetric(Row(v, r), y, n);
      Adjoint(v, x, Row(v, r), n);
      DotSymmetric(x, Image(v, Row(v, r), n), n);
      UnitDot(Image(v, Row(v, r), n), r, x, n);
    }
    DotCongruent(x, Image(v, y, n), x, x, n);
  }

  /** The diagonal part of `d`. */
  function Diagonal(d: Matrix, n: nat): Matrix {
    Build(n, (i, j) => if i == j then At(d, i, i) else 0.0)
  }

  lemma FormSplits(d: Matrix, x: Vec, y: Vec, n: nat)
    ensures Form(d, x, y, n) == Form(Residue(d, n), x, y, n) + Dot(k => At(d, k, k) * x(k), y, n)
  {
    hide Sum, Form;
    FormCombines(d, 1.0, Residue(d, n), 1.0, Diagonal(d, n), x, y, n);
    DiagonalForm(d, x, y, n);
  }

  lemma DiagonalForm(d: Matrix, x: Vec, y: Vec, n: nat)
    ensures Form(Diagonal(d, n), x, y, n) == Dot(k => At(d, k, k) * x(k), y, n)
  {
    hide Sum;
    var diagonal := Diagonal(d, n);
    var f, g := i => x(i) * Act(diagonal, i, y, n), k => (At(d, k, k) * x(k)) * y(k);
    forall i | 0 <= i < n ensures f(i) == g(i) {
      SpikeDot(Row(diagonal, i), At(d, i, i), i, y, n);
      assert Mul(x(i), Act(diagonal, i, y, n)) == Mul(x(i), At(d, i, i) * y(i));
    }
    SumCongruent(f, g, n);
    SumCongruent(g, k => (k => At(d, k, k) * x(k))(k) * y(k), n);
  }

  function Spectrum(d: Matrix): Vec {
    k => At(d, k, k)
  }

  /** Row `i` of `a - s` is the image under `v` of the residue's coordinates of row `i` of `v`. */
  lemma ResidueRow(a: Matrix, s: Matrix, v: Matrix, d: Matrix, i: int, n: nat)
    requires Conjugates(a, v, d, n) && IsSpectral(s, v, Spectrum(d), n) && 0 <= i < n
    ensures forall j :: 0 <= j < n ==>
      Row(Minus(a, s, n), i)(j) == Image(v, Coordinates(Residue(d, n), Row(v, i), n), n)(j)
  {
    hide Sum;
    var rest := Residue(d, n);
    var u := Coordinates(rest, Row(v, i), n);
    forall j | 0 <= j < n ensures Row(Minus(a, s, n), i)(j) == Image(v, u, n)(j) {
      FormSplits(d, Row(v, i), Row(v, j), n);
      DotCongruent(k => At(d, k, k) * Row(v, i)(k), Row(v, j), Weighted(v, Spectrum(d), i), Row(v, j), n);
      FormIsDot(rest, Row(v, i), Row(v, j), Image(rest, Row(v, j), n), n);
      Adjoint(rest, Row(v, i), Row(v, j), n);
      DotSymmetric(u, Row(v, j), n);
    }
  }

  /** The distance from `a` to its spectral matrix is the residue the rotations left. */
  lemma ResidueDistance(a: Matrix, s: Matrix, v: Matrix, d: Matrix, n: nat)
    requires Conjugates(a, v, d, n) && IsSpectral(s, v, Spectrum(d), n) && OrthonormalCols(v, n)
    ensures DistanceSquared(a, s, n) == OffSquares(d, n)
  {
    hide Sum;
    var rest := Residue(d, n);
    var e := Minus(a, s, n);
    var f := (i: int, l: int) => Dot(Col(rest, l), Row(v, i), n) * Dot(Col(rest, l), Row(v, i), n);
    forall i | 0 <= i < n ensures Dot(Row(e, i), Row(e, i), n) == Sum(l => f(i, l), n) {
      var u := Coordinates(rest, Row(v, i), n);
      ResidueRow(a, s, v, d, i, n);
      DotCongruent(Row(e, i), Row(e, i), Image(v, u, n), Image(v, u, n), n);
      Isometry(v, u, n);
      SumCongruent(l => u(l) * u(l), l => f(i, l), n);
    }
    SumCongruent(i => Dot(Row(e, i), Row(e, i), n), i => Sum(l => f(i, l), n), n);
    SumSwaps(f, n, n);
    forall l | 0 <= l < n ensures Sum(i => f(i, l), n) == Dot(Col(rest, l), Col(rest, l), n) {
      var x := Image(v, Col(rest, l), n);
      Isometry(v, Col(rest, l), n);
      forall i | 0 <= i < n ensures x(i) == Dot(Col(rest, l), Row(v, i), n) {
        DotSymmetric(Row(v, i), Col(rest, l), n);
      }
      SumCongruent(i => x(i) * x(i), i => f(i, l), n);
    }
    SumCongruent(l => Sum(i => f(i, l), n), l => Dot(Col(rest, l), Col(rest, l), n), n);
    OffByColumns(d, n);
  }

  lemma OffByColumns(d: Matrix, n: nat)
    ensures OffSquares(d, n) == Sum(l => Dot(Col(Residue(d, n), l), Col(Residue(d, n), l), n), n)
  {
    hide Sum;
    var rest := Residue(d, n);
    var f := (i: int, j: int) => OffEntry(d, i, j);
    SumSwaps(f, n, n);
    forall i | 0 <= i < n ensures OffRow(d, i, n) == Sum(j => f(i, j), n) {
      SumCongruent(j => OffEntry(d, i, j), j => f(i, j), n);
    }
    SumCongruent(i => OffRow(d, i, n), i => Sum(j => f(i, j), n), n);
    forall l | 0 <= l < n ensures Sum(i => f(i, l), n) == Dot(Col(rest, l), Col(rest, l), n) {
      var x := Col(rest, l);
      forall i | 0 <= i < n ensures f(i, l) == x(i) * x(i) {
        var entry := if i == l then 0.0 else At(d, i, l);
        assert Mul(x(i), x(i)) == Mul(entry, entry);
      }
      SumCongruent(i => f(i, l), i => x(i) * x(i), n);
    }
    SumCongruent(l => Sum(i => f(i, l), n), l => Dot(Col(rest, l), Col(rest, l), n), n);
  }

  /** The form of `a` is the form of `d` in the coordinates `v` gives. */
  lemma FormInCoordinates(a: Matrix, v: Matrix, d: Matrix, x: Vec, n: nat)
    requires Conjugates(a, v, d, n)
    ensures Form(a, x, x, n) == Form(d, Coordinates(v, x, n), Coordinates(v, x, n), n)
  {
    hide Sum;
    var y := Coordinates(v, x, n);
    var z := Image(d, y, n);
    forall i | 0 <= i < n ensures Image(v, z, n)(i) == Act(a, i, x, n) {
      ActInCoordinates(a, v, d, x, i, n);
    }
    FormIsDot(a, x, x, Image(v, z, n), n);
    Adjoint(v, x, z, n);
    FormIsDot(d, y, y, z, n);
  }

  lemma ActInCoordinates(a: Matrix, v: Matrix, d: Matrix, x: Vec, i: int, n: nat)
    requires Conjugates(a, v, d, n) && 0 <= i < n
    ensures Act(a, i, x, n) == Dot(Row(v, i), Image(d, Coordinates(v, x, n), n), n)
  {
    hide Sum;
    var t := Coordinates(d, Row(v, i), n);
    forall j | 0 <= j < n ensures Row(a, i)(j) == Image(v, t, n)(j) {
      FormIsDot(d, Row(v, i), Row(v, j), Image(d, Row(v, j), n), n);
      Adjoint(d, Row(v, i), Row(v, j), n);
      DotSymmetric(t, Row(v, j), n);
    }
    DotCongruent(Row(a, i), x, Image(v, t, n), x, n);
    DotSymmetric(Image(v, t, n), x, n);
    Adjoint(v, x, t, n);
    DotSymmetric(Coordinates(v, x, n), t, n);
    Adjoint(d, Row(v, i), Coordinates(v, x, n), n);
  }

  /** Clipping does not move a matrix away from any positive semidefinite one. */
  lemma ClippingContracts(s: Matrix, p: Matrix, z: Matrix, v: Matrix, w: Vec, n: nat)
    requires IsSpectral(s, v, w, n) && IsSpectral(p, v, Clipped(w), n)
    requires OrthonormalCols(v, n) && Psd(z, n)
    ensures DistanceSquared(p, z, n) <= DistanceSquared(s, z, n)
  {
    hide Sum, Inner;
    var d, e, f := Minus(s, p, n), Minus(p, z, n), Minus(s, z, n);
    ClippingSeparates(s, p, z, v, w, n);
    InnerOfSum(f, d, e, n);
    InnerCombines(e, 1.0, p, -1.0, z, d, n);
    InnerSymmetric(d, e, n);
    InnerSymmetric(d, p, n);
    InnerSymmetric(d, z, n);
    InnerSelfNonNegative(d, n);
  }

  /** Weights of at least `-low` bound the form from below. */
  lemma SpectralFloor(s: Matrix, v: Matrix, w: Vec, low: real, x: Vec, n: nat)
    requires IsSpectral(s, v, w, n) && OrthonormalRows(v, n)
    requires forall k :: 0 <= k < n ==> w(k) >= -low
    ensures Form(s, x, x, n) >= -low * Dot(x, x, n)
  {
    hide Sum;
    var t := Coordinates(v, x, n);
    var f := k => w(k) * (t(k) * t(k));
    SpectralForm(s, v, w, x, x, n);
    CoordinatesIsometry(v, x, n);
    SquaresOfDot(t, n);
    var floor := k => -low * Squares(t)(k);
    forall k | 0 <= k < n ensures floor(k) <= f(k) {
      assert Product(t(k), t(k)) == Squares(t)(k);
      ProductMonotone(-low, w(k), Squares(t)(k));
    }
    SumMonotone(floor, f, n);
    SumScales(floor, -low, Squares(t), n);
    SumCongruent(f, k => w(k) * (t(k) * t(k)), n);
  }

  /** Eigenvalue estimates bound the form from below: no direction is worse than the smallest estimate by more
      than the residue the rotations left. */
  lemma RayleighBound(a: Matrix, s: Matrix, v: Matrix, d: Matrix, low: real, rest: real, x: Vec, n: nat)
    requires Conjugates(a, v, d, n) && Orthogonal(v, n) && IsSpectral(s, v, Spectrum(d), n)
    requires forall i :: 0 <= i < n ==> At(d, i, i) >= -low
    requires rest >= 0.0 && OffSquares(d, n) <= rest * rest
    ensures Form(a, x, x, n) >= -(low + rest) * Dot(x, x, n)
  {
    hide DistanceSquared, OffSquares, Form, Dot, Conjugates, IsSpectral;
    ResidueDistance(a, s, v, d, n);
    SpectralFloor(s, v, Spectrum(d), low, x, n);
    FormNearby(a, s, rest, x, n);
    assert Mul(-(low + rest), Dot(x, x, n)) == -low * Dot(x, x, n) - rest * Dot(x, x, n);
  }
}
