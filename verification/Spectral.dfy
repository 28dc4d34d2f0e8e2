/** Matrices of the form v diag(w) v^T: their bilinear forms, positivity, and nearness. */
module Spectral {
  import opened Reals
  import opened Sums
  import opened Matrices

  function Weighted(v: Matrix, w: Vec, r: int): Vec {
    k => w(k) * At(v, r, k)
  }

  /** `p` equals `v diag(w) v^T`. */
  ghost predicate IsSpectral(p: Matrix, v: Matrix, w: Vec, n: nat) {
    forall r, c :: 0 <= r < n && 0 <= c < n ==> At(p, r, c) == Dot(Weighted(v, w, r), Row(v, c), n)
  }

  /** The columns of `b` paired with `x`: the transpose of `b` applied to `x`. */
  function Coordinates(b: Matrix, x: Vec, n: nat): Vec {
    l => Dot(Col(b, l), x, n)
  }

  function Image(b: Matrix, z: Vec, n: nat): Vec {
    r => Dot(Row(b, r), z, n)
  }

  /** The transpose is the adjoint. */
  lemma Adjoint(b: Matrix, x: Vec, z: Vec, n: nat)
    ensures Dot(x, Image(b, z, n), n) == Dot(Coordinates(b, x, n), z, n)
  {
    hide Sum;
    var f := (r: int, l: int) => x(r) * (At(b, r, l) * z(l));
    SumSwaps(f, n, n);
    forall r | 0 <= r < n ensures Sum(l => f(r, l), n) == x(r) * Image(b, z, n)(r) {
      ScaledRow(b, x(r), z, r, n);
      SumCongruent(l => f(r, l), l => x(r) * (At(b, r, l) * z(l)), n);
    }
    forall l | 0 <= l < n ensures Sum(r => f(r, l), n) == Coordinates(b, x, n)(l) * z(l) {
      ScaledCol(b, x, z(l), l, n);
      SumCongruent(r => f(r, l), r => x(r) * (At(b, r, l) * z(l)), n);
    }
    SumCongruent(r => Sum(l => f(r, l), n), r => x(r) * Image(b, z, n)(r), n);
    SumCongruent(l => Sum(r => f(r, l), n), l => Coordinates(b, x, n)(l) * z(l), n);
  }

  lemma ScaledRow(b: Matrix, a: real, z: Vec, r: int, n: nat)
    ensures Sum(l => a * (At(b, r, l) * z(l)), n) == a * Image(b, z, n)(r)
  {
    var f, h := l => Row(b, r)(l) * z(l), l => a * (At(b, r, l) * z(l));
    forall l | 0 <= l < n ensures h(l) == a * f(l) {
      assert Mul(a, f(l)) == Mul(a, At(b, r, l) * z(l));
    }
    SumScales(h, a, f, n);
  }

  lemma ScaledCol(b: Matrix, x: Vec, a: real, l: int, n: nat)
    ensures Sum(r => x(r) * (At(b, r, l) * a), n) == Coordinates(b, x, n)(l) * a
  {
    var f, h := r => Col(b, l)(r) * x(r), r => x(r) * (At(b, r, l) * a);
    forall r | 0 <= r < n ensures h(r) == a * f(r) {
      assert Mul(a, f(r)) == Mul(a, At(b, r, l) * x(r));
    }
    SumScales(h, a, f, n);
  }

  /** In the coordinates `v` gives, the form is a weighted sum of products. */
  lemma SpectralForm(p: Matrix, v: Matrix, w: Vec, x: Vec, y: Vec, n: nat)
    requires IsSpectral(p, v, w, n)
    ensures Form(p, x, y, n) == Sum(k => w(k) * (Coordinates(v, x, n)(k) * Coordinates(v, y, n)(k)), n)
  {
    hide Sum;
    var s, t := Coordinates(v, x, n), Coordinates(v, y, n);
    var z := k => w(k) * t(k);
    forall r | 0 <= r < n ensures Image(v, z, n)(r) == Act(p, r, y, n) {
      SpectralAct(p, v, w, y, r, n);
      SumCongruent(k => Row(v, r)(k) * z(k), k => Row(v, r)(k) * (w(k) * t(k)), n);
    }
    FormIsDot(p, x, y, Image(v, z, n), n);
    Adjoint(v, x, z, n);
    SumCongruent(k => s(k) * z(k), k => w(k) * (s(k) * t(k)), n);
  }

  lemma SpectralAct(p: Matrix, v: Matrix, w: Vec, y: Vec, r: int, n: nat)
    requires IsSpectral(p, v, w, n) && 0 <= r < n
    ensures Act(p, r, y, n) == Sum(k => Row(v, r)(k) * (w(k) * Coordinates(v, y, n)(k)), n)
  {
    hide Sum;
    var u := Weighted(v, w, r);
    var t := Coordinates(v, y, n);
    forall c | 0 <= c < n ensures Row(p, r)(c) == Image(v, u, n)(c) {
      DotSymmetric(u, Row(v, c), n);
    }
    DotCongruent(Row(p, r), y, Image(v, u, n), y, n);
    DotSymmetric(Image(v, u, n), y, n);
    Adjoint(v, y, u, n);
    SumCongruent(k => t(k) * u(k), k => Row(v, r)(k) * (w(k) * t(k)), n);
  }

  lemma WeightedSquare(w: real, s: real)
    requires w >= 0.0
    ensures w * (s * s) >= 0.0
  {
    assert Product(s, s) == s * s;
    assert Product(w, s * s) == w * (s * s);
  }

  /** Non-negative weights make a positive semidefinite matrix. */
  lemma SpectralPsd(p: Matrix, v: Matrix, w: Vec, n: nat)
    requires IsSpectral(p, v, w, n)
    requires forall k :: 0 <= k < n ==> w(k) >= 0.0
    ensures Psd(p, n)
  {
    hide Sum, IsSpectral, Coordinates;
    forall x: Vec ensures Form(p, x, x, n) >= 0.0 {
      SpectralForm(p, v, w, x, x, n);
      var s := Coordinates(v, x, n);
      forall k | 0 <= k < n ensures w(k) * (s(k) * s(k)) >= 0.0 {
        WeightedSquare(w(k), s(k));
      }
      SumNonNegative(k => w(k) * (s(k) * s(k)), n);
    }
  }

  lemma Exchanged(w: real, a: real, b: real)
    ensures (w * a) * b == (w * b) * a
  {
  }

  lemma SpectralSymmetric(p: Matrix, v: Matrix, w: Vec, n: nat)
    requires IsSpectral(p, v, w, n)
    ensures Symmetric(p, n)
  {
    hide Sum;
    forall r, c | 0 <= r < n && 0 <= c < n ensures At(p, r, c) == At(p, c, r) {
      var f, g := k => Weighted(v, w, r)(k) * Row(v, c)(k), k => Weighted(v, w, c)(k) * Row(v, r)(k);
      forall k ensures f(k) == g(k) {
        Exchanged(w(k), Row(v, r)(k), Row(v, c)(k));
      }
      SumCongruent(f, g, n);
    }
  }
}
