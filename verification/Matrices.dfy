/** Square matrices as values, and the bilinear forms they stand for. */
module Matrices {
  import opened Sums

  /** A row-major matrix. The methods work on `array2<real>`; `Of` is its value. */
  type Matrix = seq<seq<real>>

  function At(a: Matrix, i: int, j: int): real {
    if 0 <= i < |a| && 0 <= j < |a[i]| then a[i][j] else 0.0
  }

  predicate Square(a: Matrix, n: nat) {
    |a| == n && forall i :: 0 <= i < n ==> |a[i]| == n
  }

  function Build(n: nat, f: (int, int) -> real): (a: Matrix)
    ensures Square(a, n)
    ensures forall i, j :: 0 <= i < n && 0 <= j < n ==> At(a, i, j) == f(i, j)
  {
    seq(n, (i: nat) => seq(n, (j: nat) => f(i, j)))
  }

  ghost function Of(m: array2<real>): (a: Matrix)
    reads m
    ensures |a| == m.Length0
    ensures forall i :: 0 <= i < m.Length0 ==> |a[i]| == m.Length1
    ensures forall i, j :: 0 <= i < m.Length0 && 0 <= j < m.Length1 ==> At(a, i, j) == m[i, j]
  {
    seq(m.Length0, i requires 0 <= i < m.Length0 reads m =>
      seq(m.Length1, j requires 0 <= j < m.Length1 reads m => m[i, j]))
  }

  predicate Symmetric(a: Matrix, n: nat) {
    forall i, j :: 0 <= i < n && 0 <= j < n ==> At(a, i, j) == At(a, j, i)
  }

  predicate UnitDiagonal(a: Matrix, n: nat) {
    forall i :: 0 <= i < n ==> At(a, i, i) == 1.0
  }

  lemma MatricesEqual(a: Matrix, b: Matrix, n: nat)
    requires Square(a, n) && Square(b, n)
    requires forall i, j :: 0 <= i < n && 0 <= j < n ==> At(a, i, j) == At(b, i, j)
    ensures a == b
  {
    forall i | 0 <= i < n ensures a[i] == b[i] {
      assert forall j :: 0 <= j < n ==> a[i][j] == At(a, i, j) == At(b, i, j) == b[i][j];
    }
  }

  function Row(a: Matrix, i: int): Vec {
    j => At(a, i, j)
  }

  function Col(a: Matrix, j: int): Vec {
    i => At(a, i, j)
  }

  /** Entry `i` of the product of `a` with the vector `y`. */
  function Act(a: Matrix, i: int, y: Vec, n: nat): real {
    Dot(Row(a, i), y, n)
  }

  /** The bilinear form of `a`. */
  function Form(a: Matrix, x: Vec, y: Vec, n: nat): real {
    Sum(i => x(i) * Act(a, i, y, n), n)
  }

  ghost predicate Psd(a: Matrix, n: nat) {
    forall x: Vec :: Form(a, x, x, n) >= 0.0
  }

  lemma FormIsDot(a: Matrix, x: Vec, y: Vec, z: Vec, n: nat)
    requires forall i :: 0 <= i < n ==> z(i) == Act(a, i, y, n)
    ensures Form(a, x, y, n) == Dot(x, z, n)
  {
    SumCongruent(i => x(i) * Act(a, i, y, n), i => x(i) * z(i), n);
  }

  lemma FormCongruent(a: Matrix, x: Vec, y: Vec, a': Matrix, x': Vec, y': Vec, n: nat)
    requires forall i :: 0 <= i < n ==> x(i) == x'(i) && y(i) == y'(i)
    requires forall i, j :: 0 <= i < n && 0 <= j < n ==> At(a, i, j) == At(a', i, j)
    ensures Form(a, x, y, n) == Form(a', x', y', n)
  {
    forall i | 0 <= i < n ensures Act(a, i, y, n) == Act(a', i, y', n) {
      DotCongruent(Row(a, i), y, Row(a', i), y', n);
    }
    SumCongruent(i => x(i) * Act(a, i, y, n), i => x'(i) * Act(a', i, y', n), n);
  }
}
