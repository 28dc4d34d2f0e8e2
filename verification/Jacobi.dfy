/** The Jacobi eigenvalue iteration: rotations overwrite the working matrix in place. */
module Jacobi {
  import opened Reals
  import opened Sums
  import opened Matrices
  import opened Rotations

  const JACOBI_TOL: real := 0.000000000001
  const JACOBI_MAX_ITER: nat := 200

  ghost predicate NearlyDiagonal(d: Matrix, n: nat) {
    forall i, j :: 0 <= i < j < n ==> Abs(At(d, i, j)) <= JACOBI_TOL
  }

  /** The entry the next rotation removes: the first largest above the diagonal, when it is above the tolerance. */
  ghost predicate IsPivot(m: Matrix, p: nat, q: nat, n: nat) {
    && p < q < n && Abs(At(m, p, q)) > JACOBI_TOL
    && (forall i, j :: 0 <= i < j < n ==> Abs(At(m, i, j)) <= Abs(At(m, p, q)))
    && (forall i, j :: 0 <= i < j < n && (i < p || (i == p && j < q)) ==> Abs(At(m, i, j)) < Abs(At(m, p, q)))
  }

  /** The rows before `i`, and row `i` before column `j`, have been looked at. */
  ghost predicate Seen(k: int, l: int, i: int, j: int) {
    k < i || (k == i && l < j)
  }

  lemma PivotExists(m: Matrix, n: nat)
    requires !NearlyDiagonal(m, n)
    ensures exists p: nat, q: nat :: IsPivot(m, p, q, n)
  {
    var k, l :| 0 <= k < l < n && Abs(At(m, k, l)) > JACOBI_TOL;
    var p, q, i := 0, 1, 0;
    while i < n
      invariant 0 <= i <= n && 0 <= p < q < n
      invariant forall r, c :: 0 <= r < c < n && r < i ==> Abs(At(m, r, c)) <= Abs(At(m, p, q))
      invariant forall r, c :: 0 <= r < c < n && Seen(r, c, p, q) ==> Abs(At(m, r, c)) < Abs(At(m, p, q))
    {
      var j := i + 1;
      while j < n
        invariant i < j && (j <= n || i + 1 == n) && 0 <= p < q < n
        invariant forall r, c :: 0 <= r < c < n && Seen(r, c, i, j) ==> Abs(At(m, r, c)) <= Abs(At(m, p, q))
        invariant forall r, c :: 0 <= r < c < n && Seen(r, c, p, q) ==> Abs(At(m, r, c)) < Abs(At(m, p, q))
      {
        if Abs(At(m, i, j)) > Abs(At(m, p, q)) {
          p, q := i, j;
        }
        j := j + 1;
      }
      i := i + 1;
    }
    assert Abs(At(m, k, l)) <= Abs(At(m, p, q));
    assert IsPivot(m, p, q, n);
  }

  ghost function Pivot(m: Matrix, n: nat): (pivot: (nat, nat))
    requires !NearlyDiagonal(m, n)
    ensures IsPivot(m, pivot.0, pivot.1, n)
  {
    PivotExists(m, n);
    var p: nat, q: nat :| IsPivot(m, p, q, n);
    (p, q)
  }

  lemma PivotUnique(m: Matrix, p: nat, q: nat, n: nat)
    requires IsPivot(m, p, q, n)
    ensures !NearlyDiagonal(m, n) && Pivot(m, n) == (p, q)
  {
    assert Abs(At(m, p, q)) > JACOBI_TOL;
    var (r, c) := Pivot(m, n);
    assert Abs(At(m, r, c)) <= Abs(At(m, p, q)) && Abs(At(m, p, q)) <= Abs(At(m, r, c));
    assert !Seen(r, c, p, q) && !Seen(p, q, r, c);
  }

  function Rotated(m: Matrix, p: int, q: int, g: Angle, n: nat): Matrix {
    Build(n, (i, j) => RotatedEntry(m, p, q, g, i, j))
  }

  function Turned(v: Matrix, p: int, q: int, g: Angle, n: nat): Matrix {
    Build(n, (i, j) => TurnedEntry(v, p, q, g, i, j))
  }

  /** Eigenvectors in the columns of `v`, eigenvalue estimates on the diagonal of `d`. */
  datatype Eigen = Eigen(v: Matrix, d: Matrix, rotations: nat)

  ghost function PivotAngle(e: Elementary, m: Matrix, n: nat): Angle
    requires e.Lawful() && !NearlyDiagonal(m, n)
  {
    var (p, q) := Pivot(m, n);
    AngleFor(e, At(m, p, p), At(m, q, q), At(m, p, q))
  }

  /** Rotations from a working matrix and its turned axes, until the matrix is diagonal or the limit is reached. */
  ghost function EigenFrom(e: Elementary, m: Matrix, v: Matrix, rotations: nat, n: nat): Eigen
    requires e.Lawful()
    decreases JACOBI_MAX_ITER - rotations
  {
    if rotations >= JACOBI_MAX_ITER || NearlyDiagonal(m, n) then Eigen(v, m, rotations)
    else
      var (p, q) := Pivot(m, n);
      var g := PivotAngle(e, m, n);
      EigenFrom(e, Rotated(m, p, q, g, n), Turned(v, p, q, g, n), rotations + 1, n)
  }

  function IdentityOf(n: nat): Matrix {
    Build(n, (i, j) => if i == j then 1.0 else 0.0)
  }

  /** The decomposition the iteration computes. */
  ghost function EigenOf(e: Elementary, a: Matrix, n: nat): Eigen
    requires e.Lawful()
  {
    EigenFrom(e, a, IdentityOf(n), 0, n)
  }

  /** What `k` rotations from the symmetric `a` guarantee of `v` and the working matrix `d`. */
  ghost predicate Similar(a: Matrix, v: Matrix, d: Matrix, k: nat, n: nat) {
    && Symmetric(d, n)
    && Conjugates(a, v, d, n)
    && (n >= 2 ==> OffSquares(d, n) <= Pow(Contraction(n), k) * OffSquares(a, n))
  }

  ghost predicate Identity(v: Matrix, n: nat) {
    forall i, j :: 0 <= i < n && 0 <= j < n ==> At(v, i, j) == if i == j then 1.0 else 0.0
  }

  lemma IdentityDot(v: Matrix, i: int, y: Vec, n: nat)
    requires 0 <= i < n && Identity(v, n)
    ensures Dot(Row(v, i), y, n) == y(i) && Dot(Col(v, i), y, n) == y(i)
  {
    hide Sum;
    UnitDot(Row(v, i), i, y, n);
    UnitDot(Col(v, i), i, y, n);
  }

  lemma IdentityStart(a: Matrix, v: Matrix, n: nat)
    requires Identity(v, n)
    ensures Orthogonal(v, n) && (Symmetric(a, n) ==> Similar(a, v, a, 0, n))
  {
    if n >= 2 {
      assert Mul(Pow(Contraction(n), 0), OffSquares(a, n)) == Mul(1.0, OffSquares(a, n));
    }
    forall i, j | 0 <= i < n && 0 <= j < n
      ensures Dot(Row(v, i), Row(v, j), n) == if i == j then 1.0 else 0.0
      ensures Dot(Col(v, i), Col(v, j), n) == if i == j then 1.0 else 0.0
      ensures At(a, i, j) == Form(a, Row(v, i), Row(v, j), n)
    {
      IdentityDot(v, i, Row(v, j), n);
      IdentityDot(v, i, Col(v, j), n);
      var z := k => At(a, k, j);
      forall k | 0 <= k < n ensures z(k) == Act(a, k, Row(v, j), n) {
        IdentityDot(v, j, Row(a, k), n);
        DotSymmetric(Row(a, k), Row(v, j), n);
      }
      FormIsDot(a, Row(v, i), Row(v, j), z, n);
      IdentityDot(v, i, z, n);
    }
  }

  /** The first largest entry above the diagonal. */
  method LargestOffDiagonal(m: array2<real>, n: nat) returns (maxOff: real, p: nat, q: nat)
    requires m.Length0 == n && m.Length1 == n
    ensures maxOff >= 0.0
    ensures forall i, j :: 0 <= i < j < n ==> Abs(m[i, j]) <= maxOff
    ensures maxOff > 0.0 ==> p < q < n && Abs(m[p, q]) == maxOff
    ensures maxOff > 0.0 ==>
              forall i, j :: 0 <= i < j < n && (i < p || (i == p && j < q)) ==> Abs(m[i, j]) < maxOff
  {
    maxOff, p, q := 0.0, 0, 1;
    var i := 0;
    while i + 1 < n
      invariant 0 <= i && (n > 0 ==> i < n) && maxOff >= 0.0
      invariant forall k, j :: 0 <= k < j < n && k < i ==> Abs(m[k, j]) <= maxOff
      invariant maxOff > 0.0 ==> p < q < n && p < i && Abs(m[p, q]) == maxOff
      invariant maxOff > 0.0 ==>
                  forall k, j :: 0 <= k < j < n && (k < p || (k == p && j < q)) ==> Abs(m[k, j]) < maxOff
    {
      var j := i + 1;
      while j < n
        invariant i + 1 <= j <= n && maxOff >= 0.0
        invariant forall k, l :: 0 <= k < l < n && (k < i || (k == i && l < j)) ==> Abs(m[k, l]) <= maxOff
        invariant maxOff > 0.0 ==> p < q < n && (p < i || (p == i && q < j)) && Abs(m[p, q]) == maxOff
        invariant maxOff > 0.0 ==>
                    forall k, l :: 0 <= k < l < n && (k < p || (k == p && l < q)) ==> Abs(m[k, l]) < maxOff
      {
        var off := Abs(m[i, j]);
        if off > maxOff {
          maxOff, p, q := off, i, j;
        }
        j := j + 1;
      }
      i := i + 1;
    }
  }

  /** Overwrites `m` with its rotation. */
  method RotateInPlace(m: array2<real>, n: nat, p: nat, q: nat, g: Angle)
    requires m.Length0 == n && m.Length1 == n && p < q < n
    modifies m
    ensures IsRotated(old(Of(m)), Of(m), p, q, g, n)
  {
    hide First, Second;
    ghost var a := Of(m);
    var app, aqq, apq := m[p, p], m[q, q], m[p, q];
    m[p, p] := app - g.t * apq;
    m[q, q] := aqq + g.t * apq;
    m[p, q] := 0.0;
    m[q, p] := 0.0;
    for k := 0 to n
      invariant forall i, j :: 0 <= i < n && 0 <= j < n ==>
                  m[i, j] == if Settled(i, j, p, q, k) then RotatedEntry(a, p, q, g, i, j) else At(a, i, j)
    {
      if k != p && k != q {
        var mkp, mkq := m[k, p], m[k, q];
        m[k, p] := First(g, mkp, mkq);
        m[p, k] := m[k, p];
        m[k, q] := Second(g, mkp, mkq);
        m[q, k] := m[k, q];
      }
    }
  }

  /** The entries the rotation has already written when row and column `k` are next. */
  ghost predicate Settled(i: int, j: int, p: int, q: int, k: int) {
    if i == p || i == q then j == p || j == q || j < k
    else (j == p || j == q) && i < k
  }

  /** Overwrites the columns `p` and `q` of `v`. */
  method TurnInPlace(v: array2<real>, n: nat, p: nat, q: nat, g: Angle)
    requires v.Length0 == n && v.Length1 == n && p < q < n
    modifies v
    ensures IsTurned(old(Of(v)), Of(v), p, q, g, n)
  {
    hide First, Second;
    ghost var a := Of(v);
    for k := 0 to n
      invariant forall i, j :: 0 <= i < n && 0 <= j < n ==>
                  v[i, j] == if i < k then TurnedEntry(a, p, q, g, i, j) else At(a, i, j)
    {
      var vkp, vkq := v[k, p], v[k, q];
      v[k, p] := First(g, vkp, vkq);
      v[k, q] := Second(g, vkp, vkq);
    }
  }

  method AnnihilatingAngle(e: Elementary, app: real, aqq: real, apq: real) returns (g: Angle)
    requires e.Lawful() && apq != 0.0
    ensures g == AngleFor(e, app, aqq, apq) && Annihilates(g, app, aqq, apq)
  {
    hide Tangent, Cosine;
    var t := Tangent(e, (aqq - app) / (2.0 * apq));
    var c := Cosine(e, t);
    g := Angle(c, t * c, t);
    AngleAnnihilates(e, app, aqq, apq);
  }

  /** One rotation on the largest pivot keeps similarity and contracts the residue. */
  lemma RotationKeepsSimilar(a: Matrix, v: Matrix, d: Matrix, v': Matrix, d': Matrix,
                             k: nat, p: nat, q: nat, g: Angle, n: nat)
    requires p < q < n && Similar(a, v, d, k, n)
    requires IsRotated(d, d', p, q, g, n) && IsTurned(v, v', p, q, g, n)
    requires Annihilates(g, At(d, p, p), At(d, q, q), At(d, p, q))
    requires forall i, j :: 0 <= i < j < n ==> Abs(At(d, i, j)) <= Abs(At(d, p, q))
    ensures Similar(a, v', d', k + 1, n)
  {
    hide OffSquares;
    RotationKeepsConjugation(a, v, d, v', d', p, q, g, n);
    RotatedSymmetric(d, d', p, q, g, n);
    forall i, j | 0 <= i < n && 0 <= j < n && i != j
      ensures Abs(At(d, i, j)) <= Abs(At(d, p, q))
    {
      assert At(d, i, j) == At(d, j, i);
    }
    LargestPivotContracts(d, d', p, q, g, n);
    ContractAgain(Contraction(n), Pow(Contraction(n), k), OffSquares(d, n), OffSquares(a, n));
  }

  lemma ContractAgain(ratio: real, power: real, now: real, start: real)
    requires 0.0 <= ratio && now <= power * start
    ensures ratio * now <= (ratio * power) * start
  {
    assert Product(ratio, power * start - now) == ratio * (power * start - now);
  }

  /** Whatever it starts from, a run keeps the axes orthogonal and, for a symmetric matrix, similarity. */
  lemma {:induction false} RunSound(e: Elementary, a: Matrix, m: Matrix, v: Matrix, rotations: nat, n: nat)
    requires e.Lawful() && rotations <= JACOBI_MAX_ITER && Orthogonal(v, n)
    requires Symmetric(a, n) ==> Similar(a, v, m, rotations, n)
    ensures var r := EigenFrom(e, m, v, rotations, n);
            && Orthogonal(r.v, n) && r.rotations <= JACOBI_MAX_ITER
            && (Symmetric(a, n) ==> Similar(a, r.v, r.d, r.rotations, n))
            && (r.rotations < JACOBI_MAX_ITER ==> NearlyDiagonal(r.d, n))
    decreases JACOBI_MAX_ITER - rotations
  {
    hide Similar, Orthogonal, NearlyDiagonal, Symmetric;
    if rotations < JACOBI_MAX_ITER && !NearlyDiagonal(m, n) {
      var (p, q) := Pivot(m, n);
      var g := PivotAngle(e, m, n);
      var m', v' := Rotated(m, p, q, g, n), Turned(v, p, q, g, n);
      RotationSound(e, a, m, v, rotations, n);
      RunSound(e, a, m', v', rotations + 1, n);
    }
  }

  lemma RotationSound(e: Elementary, a: Matrix, m: Matrix, v: Matrix, rotations: nat, n: nat)
    requires e.Lawful() && !NearlyDiagonal(m, n) && Orthogonal(v, n)
    requires Symmetric(a, n) ==> Similar(a, v, m, rotations, n)
    ensures var (p, q) := Pivot(m, n);
            var g := PivotAngle(e, m, n);
            && Orthogonal(Turned(v, p, q, g, n), n)
            && (Symmetric(a, n) ==> Similar(a, Turned(v, p, q, g, n), Rotated(m, p, q, g, n), rotations + 1, n))
  {
    var (p, q) := Pivot(m, n);
    var g := PivotAngle(e, m, n);
    var m', v' := Rotated(m, p, q, g, n), Turned(v, p, q, g, n);
    AngleAnnihilates(e, At(m, p, p), At(m, q, q), At(m, p, q));
    hide Similar, Symmetric, PivotAngle, AngleFor;
    TurnKeepsRows(v, v', p, q, g, n);
    TurnKeepsCols(v, v', p, q, g, n);
    if Symmetric(a, n) {
      RotationKeepsSimilar(a, v, m, v', m', rotations, p, q, g, n);
    }
  }

  /** `a = v d v^T` with `d` nearly diagonal: `v` is orthogonal whatever `a` is; for a symmetric
      `a` the residue off the diagonal of `d` shrinks geometrically with the rotations made. */
  lemma EigenSound(e: Elementary, a: Matrix, n: nat)
    requires e.Lawful()
    ensures var r := EigenOf(e, a, n);
            && Orthogonal(r.v, n) && r.rotations <= JACOBI_MAX_ITER
            && (Symmetric(a, n) ==> Similar(a, r.v, r.d, r.rotations, n))
            && (r.rotations < JACOBI_MAX_ITER ==> NearlyDiagonal(r.d, n))
  {
    hide Similar, Orthogonal, NearlyDiagonal, Symmetric;
    IdentityStart(a, IdentityOf(n), n);
    RunSound(e, a, a, IdentityOf(n), 0, n);
  }

  /** One pass of the loop: rotate away the largest entry, unless none is above the tolerance. */
  method Sweep(e: Elementary, m: array2<real>, v: array2<real>, n: nat) returns (rotated: bool)
    requires e.Lawful() && m != v
    requires m.Length0 == n && m.Length1 == n && v.Length0 == n && v.Length1 == n
    modifies m, v
    ensures rotated <==> !NearlyDiagonal(old(Of(m)), n)
    ensures !rotated ==> Of(m) == old(Of(m)) && Of(v) == old(Of(v))
    ensures rotated ==>
              var (p, q) := Pivot(old(Of(m)), n);
              var g := PivotAngle(e, old(Of(m)), n);
              Of(m) == Rotated(old(Of(m)), p, q, g, n) && Of(v) == Turned(old(Of(v)), p, q, g, n)
  {
    hide AngleFor, RotatedEntry, TurnedEntry;
    var maxOff, p, q := LargestOffDiagonal(m, n);
    if maxOff <= JACOBI_TOL {
      return false;
    }
    ghost var m0, v0 := Of(m), Of(v);
    PivotUnique(m0, p, q, n);
    var g := AnnihilatingAngle(e, m[p, p], m[q, q], m[p, q]);
    RotateInPlace(m, n, p, q, g);
    TurnInPlace(v, n, p, q, g);
    MatricesEqual(Of(m), Rotated(m0, p, q, g, n), n);
    MatricesEqual(Of(v), Turned(v0, p, q, g, n), n);
    rotated := true;
  }

  method Copy(a: array2<real>, n: nat) returns (m: array2<real>)
    requires a.Length0 == n && a.Length1 == n
    ensures fresh(m) && m.Length0 == n && m.Length1 == n && Of(m) == Of(a)
  {
    m := new real[n, n]((i, j) requires 0 <= i < n && 0 <= j < n reads a => a[i, j]);
    MatricesEqual(Of(m), Of(a), n);
  }

  method IdentityMatrix(n: nat) returns (v: array2<real>)
    ensures fresh(v) && v.Length0 == n && v.Length1 == n && Of(v) == IdentityOf(n)
  {
    v := new real[n, n]((i, j) => if i == j then 1.0 else 0.0);
    MatricesEqual(Of(v), IdentityOf(n), n);
  }

  method ReadDiagonal(m: array2<real>, n: nat) returns (eval: array<real>)
    requires m.Length0 == n && m.Length1 == n
    ensures fresh(eval) && eval.Length == n
    ensures forall i :: 0 <= i < n ==> eval[i] == At(Of(m), i, i)
  {
    eval := new real[n](i => 0.0);
    for i := 0 to n
      invariant forall k :: 0 <= k < i ==> eval[k] == m[k, k]
    {
      eval[i] := m[i, i];
    }
  }

  /** The rotations in place compute the decomposition, whose properties are those of `EigenSound`. */
  method SymmetricEigenJacobi(e: Elementary, a: array2<real>, n: nat) returns (eval: array<real>, v: array2<real>)
    requires e.Lawful() && a.Length0 == n && a.Length1 == n
    ensures fresh(eval) && eval.Length == n && fresh(v) && v.Length0 == n && v.Length1 == n
    ensures Of(v) == EigenOf(e, Of(a), n).v
    ensures forall i :: 0 <= i < n ==> eval[i] == At(EigenOf(e, Of(a), n).d, i, i)
  {
    hide NearlyDiagonal, PivotAngle, Pivot, Rotated, Turned, IdentityOf;
    var m := Copy(a, n);
    v := IdentityMatrix(n);
    var sweep := 0;
    while sweep < JACOBI_MAX_ITER
      invariant 0 <= sweep <= JACOBI_MAX_ITER
      invariant EigenOf(e, Of(a), n) == EigenFrom(e, Of(m), Of(v), sweep, n)
    {
      var rotated := Sweep(e, m, v, n);
      if !rotated {
        break;
      }
      sweep := sweep + 1;
    }
    eval := ReadDiagonal(m, n);
  }
}
