/** Alternating projections onto the positive semidefinite and the unit-diagonal matrices. */
module NearestCorrelation {
  import opened Reals
  import opened Sums
  import opened Matrices
  import opened Jacobi
  import opened Spectral
  import opened Frobenius
  import opened Nearness

  const SYMMETRY_TOL: real := 0.0000000001
  const EIGENVALUE_TOL: real := 0.00000001
  const DIAGONAL_TOL: real := 0.000001

  datatype Status = Ok | InvalidInputs | NoConvergence

  predicate NearlySymmetric(a: Matrix, n: nat) {
    forall i, j :: 0 <= j < i < n ==> Abs(At(a, i, j) - At(a, j, i)) <= SYMMETRY_TOL
  }

  predicate InputValid(a: Matrix, n: nat) {
    n > 0 && Square(a, n) && NearlySymmetric(a, n)
  }

  /** No direction has a form below `-slack` times its squared length. */
  ghost predicate AlmostPsd(a: Matrix, slack: real, n: nat) {
    forall x: Vec :: Form(a, x, x, n) >= -slack * Dot(x, x, n)
  }

  ghost predicate IsCorrelation(a: Matrix, n: nat) {
    Symmetric(a, n) && UnitDiagonal(a, n) && Psd(a, n)
  }

  method SymmetricFinite(a: array2<real>, n: nat) returns (valid: bool)
    ensures valid <==> InputValid(Of(a), n)
    ensures valid ==> a.Length0 == n && a.Length1 == n
  {
    if n == 0 || a.Length0 != n || a.Length1 != n {
      assert a.Length0 > 0 ==> |Of(a)[0]| == a.Length1;
      return false;
    }
    for i := 0 to n
      invariant forall r, c :: 0 <= c < r < i ==> Abs(a[r, c] - a[c, r]) <= SYMMETRY_TOL
    {
      for j := 0 to i
        invariant forall c :: 0 <= c < j ==> Abs(a[i, c] - a[c, i]) <= SYMMETRY_TOL
      {
        if Abs(a[i, j] - a[j, i]) > SYMMETRY_TOL {
          assert Abs(At(Of(a), i, j) - At(Of(a), j, i)) > SYMMETRY_TOL;
          return false;
        }
      }
    }
    return true;
  }

  /** Row `i`'s share of the squared distance. */
  method RowSquares(a: array2<real>, b: array2<real>, n: nat, i: nat, start: real) returns (sumSq: real)
    requires a.Length0 == n && a.Length1 == n && b.Length0 == n && b.Length1 == n && i < n
    ensures var row := Row(Minus(Of(a), Of(b), n), i); sumSq == start + Dot(row, row, n)
  {
    hide Dot;
    ghost var row := Row(Minus(Of(a), Of(b), n), i);
    sumSq := start;
    DotOfNone(row, row);
    for j := 0 to n
      invariant sumSq == start + Dot(row, row, j)
    {
      var d := a[i, j] - b[i, j];
      DotStep(row, row, j);
      assert Mul(row(j), row(j)) == Mul(d, d);
      sumSq := sumSq + d * d;
    }
  }

  method FrobeniusDiff(e: Elementary, a: array2<real>, b: array2<real>, n: nat) returns (delta: real)
    requires e.Lawful()
    requires a.Length0 == n && a.Length1 == n && b.Length0 == n && b.Length1 == n
    ensures delta == e.sqrt(DistanceSquared(Of(a), Of(b), n))
  {
    hide Dot, At;
    ghost var c := Minus(Of(a), Of(b), n);
    ghost var rows: Vec := i => Dot(Row(c, i), Row(c, i), n);
    var sumSq := 0.0;
    for i := 0 to n
      invariant sumSq == Sum(rows, i)
    {
      sumSq := RowSquares(a, b, n, i, sumSq);
    }
    SumCongruent(rows, i => Dot(Row(c, i), Row(c, i), n), n);
    delta := e.sqrt(sumSq);
  }

  function Entry(a: Matrix, i: int, j: int): real {
    if i == j then 1.0 else At(a, i, j)
  }

  /** `a` with ones on its diagonal. */
  function ResetOf(a: Matrix, n: nat): Matrix {
    Build(n, (i, j) => Entry(a, i, j))
  }

  method ReplaceDiagonalWithOnes(m: array2<real>, n: nat)
    requires m.Length0 == n && m.Length1 == n
    modifies m
    ensures Of(m) == ResetOf(old(Of(m)), n)
  {
    ghost var a := Of(m);
    for k := 0 to n
      invariant forall i, j :: 0 <= i < n && 0 <= j < n ==>
                  m[i, j] == if i == j && i < k then 1.0 else At(a, i, j)
    {
      m[k, k] := 1.0;
    }
    MatricesEqual(Of(m), ResetOf(a, n), n);
  }

  /** What an eigenvector adds to the entry its components `x` and `y` meet in. */
  function Share(weight: real, x: real, y: real): real {
    weight * x * y
  }

  /** Adds one eigenvector's share to every entry. */
  method Accumulate(output: array2<real>, v: array2<real>, weight: real, n: nat, i: nat)
    requires v != output && i < n
    requires output.Length0 == n && output.Length1 == n && v.Length0 == n && v.Length1 == n
    modifies output
    ensures forall r, c :: 0 <= r < n && 0 <= c < n ==>
              output[r, c] == old(output[r, c]) + Share(weight, v[r, i], v[c, i])
  {
    hide Share;
    for r := 0 to n
      invariant forall k, c :: 0 <= k < n && 0 <= c < n ==>
                  output[k, c] == if k < r then old(output[k, c]) + Share(weight, v[k, i], v[c, i]) else old(output[k, c])
    {
      for c := 0 to n
        invariant forall k, l :: 0 <= k < n && 0 <= l < n ==>
                    output[k, l] == if k < r || (k == r && l < c) then old(output[k, l]) + Share(weight, v[k, i], v[l, i])
                                    else old(output[k, l])
      {
        output[r, c] := output[r, c] + Share(weight, v[r, i], v[c, i]);
      }
    }
  }

  /** The entry of the clipped spectral sum over the first `k` eigenvectors. */
  function PartialEntry(v: Matrix, w: Vec, r: int, c: int, k: nat): real {
    Dot(Weighted(v, w, r), Row(v, c), k)
  }

  lemma PartialEntryStep(v: Matrix, w: Vec, r: int, c: int, k: nat)
    ensures PartialEntry(v, w, r, c, k + 1) == PartialEntry(v, w, r, c, k) + Share(w(k), At(v, r, k), At(v, c, k))
  {
    DotStep(Weighted(v, w, r), Row(v, c), k);
    assert Mul(Weighted(v, w, r)(k), At(v, c, k)) == Mul(w(k) * At(v, r, k), At(v, c, k));
  }

  /** Sums the eigenvectors whose eigenvalue is positive. */
  method SumEigenvectors(eval: array<real>, vectors: array2<real>, n: nat, ghost w: Vec) returns (output: array2<real>)
    requires eval.Length == n && vectors.Length0 == n && vectors.Length1 == n
    requires forall k :: 0 <= k < n ==> w(k) == Max(eval[k], 0.0)
    ensures fresh(output) && output.Length0 == n && output.Length1 == n
    ensures Of(output) == SpectralOf(Of(vectors), w, n)
  {
    hide PartialEntry, Share;
    ghost var v := Of(vectors);
    output := new real[n, n]((i, j) => 0.0);
    StartEntries(v, w, n);
    for i := 0 to n
      invariant forall r, c :: 0 <= r < n && 0 <= c < n ==> output[r, c] == PartialEntry(v, w, r, c, i)
    {
      var weight := Max(eval[i], 0.0);
      StepEntries(v, w, i, n);
      if weight <= 0.0 {
        continue;
      }
      Accumulate(output, vectors, weight, n, i);
    }
    hide SpectralOf;
    CompleteEntries(Of(output), v, w, n);
  }

  lemma StartEntries(v: Matrix, w: Vec, n: nat)
    ensures forall r, c :: 0 <= r < n && 0 <= c < n ==> PartialEntry(v, w, r, c, 0) == 0.0
  {
  }

  lemma StepEntries(v: Matrix, w: Vec, i: nat, n: nat)
    requires i < n
    ensures forall r, c :: 0 <= r < n && 0 <= c < n ==>
      PartialEntry(v, w, r, c, i + 1) == PartialEntry(v, w, r, c, i) + Share(w(i), At(v, r, i), At(v, c, i))
    ensures w(i) == 0.0 ==> forall r, c :: 0 <= r < n && 0 <= c < n ==>
      PartialEntry(v, w, r, c, i + 1) == PartialEntry(v, w, r, c, i)
  {
    hide PartialEntry;
    forall r, c | 0 <= r < n && 0 <= c < n
      ensures PartialEntry(v, w, r, c, i + 1) == PartialEntry(v, w, r, c, i) + Share(w(i), At(v, r, i), At(v, c, i))
      ensures w(i) == 0.0 ==> PartialEntry(v, w, r, c, i + 1) == PartialEntry(v, w, r, c, i)
    {
      PartialEntryStep(v, w, r, c, i);
      assert w(i) == 0.0 ==> Mul(w(i), At(v, r, i) * At(v, c, i)) == Mul(0.0, At(v, r, i) * At(v, c, i));
    }
  }

  lemma CompleteEntries(p: Matrix, v: Matrix, w: Vec, n: nat)
    requires Square(p, n)
    requires forall r, c :: 0 <= r < n && 0 <= c < n ==> At(p, r, c) == PartialEntry(v, w, r, c, n)
    ensures p == SpectralOf(v, w, n)
  {
    MatricesEqual(p, SpectralOf(v, w, n), n);
  }

  /** The sum of the products of the columns of `v` with their transposes, weighted by `w`. */
  function SpectralOf(v: Matrix, w: Vec, n: nat): Matrix {
    Build(n, (r, c) => Dot(Weighted(v, w, r), Row(v, c), n))
  }

  /** The spectral sum of `a`'s computed decomposition with the negative eigenvalue estimates set to zero. */
  ghost function Projection(e: Elementary, a: Matrix, n: nat): Matrix
    requires e.Lawful()
  {
    var r := EigenOf(e, a, n);
    SpectralOf(r.v, Clipped(Spectrum(r.d)), n)
  }

  method ProjectPsdSpectral(e: Elementary, input: array2<real>, n: nat) returns (output: array2<real>)
    requires e.Lawful() && input.Length0 == n && input.Length1 == n
    ensures fresh(output) && output.Length0 == n && output.Length1 == n
    ensures Of(output) == Projection(e, Of(input), n)
  {
    hide EigenOf, SpectralOf;
    var eval, vectors := SymmetricEigenJacobi(e, input, n);
    output := SumEigenvectors(eval, vectors, n, Clipped(Spectrum(EigenOf(e, Of(input), n).d)));
  }

  /** What the final test accepts: near symmetry, a near-unit diagonal, no eigenvalue estimate below -1e-8. */
  ghost predicate Accepted(e: Elementary, a: Matrix, n: nat, diagTol: real)
    requires e.Lawful()
  {
    && InputValid(a, n)
    && (forall i :: 0 <= i < n ==> Abs(At(a, i, i) - 1.0) <= diagTol)
    && (forall i :: 0 <= i < n ==> At(EigenOf(e, a, n).d, i, i) >= -EIGENVALUE_TOL)
  }

  method IsCorrelationMatrix(e: Elementary, a: array2<real>, n: nat, diagTol: real) returns (accepted: bool)
    requires e.Lawful()
    ensures accepted <==> Accepted(e, Of(a), n, diagTol)
  {
    hide EigenOf, NearlySymmetric;
    var valid := SymmetricFinite(a, n);
    if !valid {
      return false;
    }
    for i := 0 to n
      invariant forall k :: 0 <= k < i ==> Abs(At(Of(a), k, k) - 1.0) <= diagTol
    {
      if Abs(a[i, i] - 1.0) > diagTol {
        assert Abs(At(Of(a), i, i) - 1.0) > diagTol;
        return false;
      }
    }
    var eval, v := SymmetricEigenJacobi(e, a, n);
    for i := 0 to n
      invariant forall k :: 0 <= k < i ==> At(EigenOf(e, Of(a), n).d, k, k) >= -EIGENVALUE_TOL
    {
      if eval[i] < -EIGENVALUE_TOL {
        return false;
      }
    }
    return true;
  }

  // ---- The alternating projections ----

  /** One pass: reset the diagonal, then project. */
  ghost function Pass(e: Elementary, y: Matrix, n: nat): Matrix
    requires e.Lawful()
  {
    Projection(e, ResetOf(y, n), n)
  }

  ghost function StepLength(e: Elementary, y: Matrix, n: nat): real
    requires e.Lawful()
  {
    e.sqrt(DistanceSquared(Pass(e, y, n), y, n))
  }

  datatype Repair = Repair(status: Status, matrix: Matrix, iterations: int, delta: real)

  /** The passes still to make from the iterate `y`, and the diagonal reset and test that end them. */
  ghost function RepairFrom(e: Elementary, y: Matrix, iter: nat, n: nat, maxIterations: nat, tolerance: real): Repair
    requires e.Lawful() && iter < maxIterations
    decreases maxIterations - iter
  {
    var x, delta := Pass(e, y, n), StepLength(e, y, n);
    var result := ResetOf(x, n);
    if delta <= tolerance then
      Repair(if Accepted(e, result, n, DIAGONAL_TOL) then Ok else NoConvergence, result, iter + 1, delta)
    else if iter + 1 == maxIterations then Repair(NoConvergence, result, maxIterations + 1, delta)
    else RepairFrom(e, x, iter + 1, n, maxIterations, tolerance)
  }

  /** What the repair computes, on every input. */
  ghost function RepairOf(e: Elementary, a: Matrix, n: nat, maxIterations: int, tolerance: real): Repair
    requires e.Lawful()
  {
    if !InputValid(a, n) || maxIterations <= 0 || tolerance <= 0.0 then Repair(InvalidInputs, [], 0, 0.0)
    else RepairFrom(e, a, 0, n, maxIterations, tolerance)
  }

  method Alternate(e: Elementary, y: array2<real>, n: nat) returns (x: array2<real>, delta: real)
    requires e.Lawful() && y.Length0 == n && y.Length1 == n
    ensures fresh(x) && x.Length0 == n && x.Length1 == n
    ensures Of(x) == Pass(e, Of(y), n) && delta == StepLength(e, Of(y), n)
  {
    hide Projection, DistanceSquared;
    var r := Copy(y, n);
    ReplaceDiagonalWithOnes(r, n);
    x := ProjectPsdSpectral(e, r, n);
    delta := FrobeniusDiff(e, x, y, n);
  }

  method NearestCorrelationHigham(e: Elementary, matrix: array2<real>, n: nat, maxIterations: int, tolerance: real)
    returns (status: Status, result: array2<real>, iterations: int, finalDelta: real)
    requires e.Lawful()
    ensures Repair(status, Of(result), iterations, finalDelta) == RepairOf(e, Of(matrix), n, maxIterations, tolerance)
    ensures fresh(result) && (status != InvalidInputs ==> result.Length0 == n && result.Length1 == n)
  {
    hide InputValid, Accepted, Pass, StepLength, ResetOf;
    status, iterations, finalDelta, result := InvalidInputs, 0, 0.0, new real[0, 0];
    var valid := SymmetricFinite(matrix, n);
    if !valid || maxIterations <= 0 || tolerance <= 0.0 {
      assert Of(result) == [];
      return;
    }
    var y := Copy(matrix, n);
    var delta := tolerance + 1.0;
    var iter := 0;
    while iter < maxIterations
      invariant 0 <= iter <= maxIterations && delta > tolerance
      invariant y.Length0 == n && y.Length1 == n && fresh(y)
      invariant iter < maxIterations ==>
                  RepairOf(e, Of(matrix), n, maxIterations, tolerance) == RepairFrom(e, Of(y), iter, n, maxIterations, tolerance)
      invariant iter == maxIterations ==>
                  RepairOf(e, Of(matrix), n, maxIterations, tolerance)
                  == Repair(NoConvergence, ResetOf(Of(y), n), maxIterations + 1, delta)
    {
      var x;
      x, delta := Alternate(e, y, n);
      y := x;
      if delta <= tolerance {
        ReplaceDiagonalWithOnes(y, n);
        var accepted := IsCorrelationMatrix(e, y, n, DIAGONAL_TOL);
        return (if accepted then Ok else NoConvergence), y, iter + 1, delta;
      }
      iter := iter + 1;
    }
    ReplaceDiagonalWithOnes(y, n);
    return NoConvergence, y, iter + 1, delta;
  }
}
