/** Cholesky factorisation of correlation matrices, filled in row by row. */
module Cholesky {
  import opened Reals
  import opened Sums
  import opened Matrices
  import opened Spectral

  const DIAG_ONE_TOL: real := 0.00000001
  const SYMMETRY_TOL: real := 0.0000000001
  const PIVOT_TOL: real := 0.000000000001

  datatype Status = Ok | InvalidInputs | NotPositiveDefinite

  /** The inner product of the first `k` entries of rows `i` and `j`. */
  function RowDot(l: Matrix, i: int, j: int, k: nat): real {
    Dot(Row(l, i), Row(l, j), k)
  }

  predicate EntryValid(a: Matrix, i: int, j: int) {
    if i == j then Abs(At(a, i, i) - 1.0) <= DIAG_ONE_TOL
    else
      && Abs(At(a, i, j) - At(a, j, i)) <= SYMMETRY_TOL
      && -1.0 - SYMMETRY_TOL <= At(a, i, j) <= 1.0 + SYMMETRY_TOL
  }

  /** Accepted inputs: non-empty, square, nearly symmetric, nearly unit diagonal, entries near [-1, 1]. */
  ghost predicate MatrixValid(a: Matrix, n: nat) {
    n > 0 && Square(a, n) && forall i, j :: 0 <= j <= i < n ==> EntryValid(a, i, j)
  }

  predicate LowerTriangular(l: Matrix, n: nat) {
    forall i, j :: 0 <= i < j < n ==> At(l, i, j) == 0.0
  }

  /** `l` is a lower factor of `a`: l l^T agrees with `a` on and below the diagonal,
      and every squared pivot exceeds the pivot tolerance. */
  ghost predicate Factors(l: Matrix, a: Matrix, n: nat) {
    && Square(l, n)
    && LowerTriangular(l, n)
    && (forall i :: 0 <= i < n ==> At(l, i, i) > 0.0 && At(l, i, i) * At(l, i, i) > PIVOT_TOL)
    && (forall i, j :: 0 <= j <= i < n ==> RowDot(l, i, j, j + 1) == At(a, i, j))
  }

  lemma RowDotAgrees(l: Matrix, m: Matrix, i: int, j: int, k: nat)
    requires forall c :: 0 <= c < k ==> At(l, i, c) == At(m, i, c) && At(l, j, c) == At(m, j, c)
    ensures RowDot(l, i, j, k) == RowDot(m, i, j, k)
  {
    DotCongruent(Row(l, i), Row(l, j), Row(m, i), Row(m, j), k);
  }

  lemma RowDotStep(l: Matrix, i: int, j: int, k: nat)
    ensures RowDot(l, i, j, k + 1) == RowDot(l, i, j, k) + At(l, i, k) * At(l, j, k)
  {
    SumCongruent(c => Row(l, i)(c) * Row(l, j)(c), c => Row(l, i)(c) * Row(l, j)(c), k);
  }

  /** Entry (i, j) has been computed when the loops stand at row `r`, column `c`. */
  ghost predicate Done(i: int, j: int, r: int, c: int) {
    i < r || (i == r && j < c)
  }

  /** The computed entries satisfy their equations; the others are still zero. */
  ghost predicate Solves(l: Matrix, a: Matrix, n: nat, r: int, c: int) {
    && Square(l, n)
    && (forall i, j :: 0 <= i < n && 0 <= j < n && !(j <= i && Done(i, j, r, c)) ==> At(l, i, j) == 0.0)
    && (forall i, j :: 0 <= j <= i < n && Done(i, j, r, c) ==> RowDot(l, i, j, j + 1) == At(a, i, j))
    && (forall i :: 0 <= i < n && Done(i, i, r, c) ==> At(l, i, i) > 0.0 && At(l, i, i) * At(l, i, i) > PIVOT_TOL)
  }

  ghost predicate Agrees(l: Matrix, m: Matrix, n: nat, r: int, c: int) {
    forall i, j :: 0 <= j <= i < n && Done(i, j, r, c) ==> At(l, i, j) == At(m, i, j)
  }

  /** The computed entries also agree with every factor of `a`. */
  ghost predicate Partial(l: Matrix, a: Matrix, n: nat, r: int, c: int) {
    Solves(l, a, n, r, c) && forall m :: Factors(m, a, n) ==> Agrees(l, m, n, r, c)
  }

  /** The remainder the inner loop computes, seen from any factor of `a`. */
  lemma RemainderOfFactor(l: Matrix, m: Matrix, a: Matrix, n: nat, i: int, j: int)
    requires 0 <= j <= i < n && Agrees(l, m, n, i, j) && Factors(m, a, n)
    ensures At(a, i, j) - RowDot(l, i, j, j) == At(m, i, j) * At(m, j, j)
  {
    RowDotAgrees(l, m, i, j, j);
    RowDotStep(m, i, j, j);
  }

  /** `l'` is `l` with one more entry, which solves its equation. */
  ghost predicate Writes(l: Matrix, l': Matrix, a: Matrix, n: nat, i: int, j: int) {
    && 0 <= j <= i < n && Square(l', n)
    && (forall r, c :: 0 <= r < n && 0 <= c < n && (r != i || c != j) ==> At(l', r, c) == At(l, r, c))
    && At(l', i, j) * At(l', j, j) == At(a, i, j) - RowDot(l, i, j, j)
    && At(l', j, j) > 0.0 && At(l', j, j) * At(l', j, j) > PIVOT_TOL
  }

  /** Writing the next entry keeps what was established. */
  lemma PartialExtends(l: Matrix, l': Matrix, a: Matrix, n: nat, i: int, j: int)
    requires Partial(l, a, n, i, j) && Writes(l, l', a, n, i, j)
    ensures Partial(l', a, n, i, j + 1)
  {
    SolvesExtends(l, l', a, n, i, j);
    forall m | Factors(m, a, n) ensures Agrees(l', m, n, i, j + 1) {
      AgreesExtends(l, l', m, a, n, i, j);
    }
  }

  lemma SolvesExtends(l: Matrix, l': Matrix, a: Matrix, n: nat, i: int, j: int)
    requires Solves(l, a, n, i, j) && Writes(l, l', a, n, i, j)
    ensures Solves(l', a, n, i, j + 1)
  {
    hide RowDot;
    forall r, c | 0 <= c <= r < n && Done(r, c, i, j + 1)
      ensures RowDot(l', r, c, c + 1) == At(a, r, c)
    {
      if r == i && c == j {
        RowDotAgrees(l', l, i, j, j);
        RowDotStep(l', i, j, j);
      } else {
        RowDotAgrees(l', l, r, c, c + 1);
      }
    }
  }

  lemma AgreesExtends(l: Matrix, l': Matrix, m: Matrix, a: Matrix, n: nat, i: int, j: int)
    requires Factors(m, a, n) && Agrees(l, m, n, i, j) && Writes(l, l', a, n, i, j)
    ensures Agrees(l', m, n, i, j + 1)
  {
    hide RowDot;
    RemainderOfFactor(l, m, a, n, i, j);
    if i == j {
      EqualSquares(At(l', i, i), At(m, i, i));
    } else {
      EqualProducts(At(l', i, j), At(m, i, j), At(m, j, j));
    }
  }

  lemma EqualSquares(x: real, y: real)
    requires x > 0.0 && y > 0.0 && x * x == y * y
    ensures x == y
  {
    SquaresOrder(x, y);
    SquaresOrder(y, x);
  }

  lemma EqualProducts(x: real, y: real, z: real)
    requires z > 0.0 && x * z == y * z
    ensures x == y
  {
    assert Product(x - y, z) == x * z - y * z;
  }

  /** A complete partial factor is a factor, and the only one. */
  lemma PartialCompletes(l: Matrix, a: Matrix, n: nat)
    requires Partial(l, a, n, n, 0)
    ensures Factors(l, a, n)
    ensures forall m :: Factors(m, a, n) ==> m == l
  {
    forall m | Factors(m, a, n) ensures m == l {
      forall i, j | 0 <= i < n && 0 <= j < n ensures At(l, i, j) == At(m, i, j) {
        assert j <= i ==> Done(i, j, n, 0);
      }
      MatricesEqual(l, m, n);
    }
  }

  method IsMatrixValid(a: array2<real>, n: nat) returns (valid: bool)
    ensures valid <==> MatrixValid(Of(a), n)
    ensures valid ==> a.Length0 == n && a.Length1 == n
  {
    if n == 0 || a.Length0 != n || a.Length1 != n {
      assert a.Length0 > 0 ==> |Of(a)[0]| == a.Length1;
      return false;
    }
    for i := 0 to n
      invariant forall r, c :: 0 <= c <= r < i ==> EntryValid(Of(a), r, c)
    {
      if Abs(a[i, i] - 1.0) > DIAG_ONE_TOL {
        assert !EntryValid(Of(a), i, i);
        return false;
      }
      for j := 0 to i
        invariant forall c :: 0 <= c < j ==> EntryValid(Of(a), i, c)
      {
        if Abs(a[i, j] - a[j, i]) > SYMMETRY_TOL || a[i, j] < -1.0 - SYMMETRY_TOL || a[i, j] > 1.0 + SYMMETRY_TOL {
          assert !EntryValid(Of(a), i, j);
          return false;
        }
      }
      assert EntryValid(Of(a), i, i);
    }
    return true;
  }

  /** What is left of `a[i, j]` after the columns before `j`. */
  method Remainder(a: array2<real>, l: array2<real>, n: nat, i: nat, j: nat) returns (sum: real)
    requires a.Length0 == n && a.Length1 == n && l.Length0 == n && l.Length1 == n && j <= i < n
    ensures sum == a[i, j] - RowDot(Of(l), i, j, j)
  {
    sum := a[i, j];
    for k := 0 to j
      invariant sum == a[i, j] - RowDot(Of(l), i, j, k)
    {
      RowDotStep(Of(l), i, j, k);
      sum := sum - l[i, k] * l[j, k];
    }
  }

  /** One pass of the middle loop: entry (i, j), or the discovery that `a` has no factor. */
  method FillEntry(e: Elementary, a: array2<real>, lower: array2<real>, n: nat, i: nat, j: nat)
    returns (positive: bool)
    requires e.Lawful() && a != lower
    requires a.Length0 == n && a.Length1 == n && lower.Length0 == n && lower.Length1 == n
    requires j <= i < n && Partial(Of(lower), Of(a), n, i, j)
    modifies lower
    ensures positive ==> Partial(Of(lower), Of(a), n, i, j + 1)
    ensures !positive ==> !exists m :: Factors(m, Of(a), n)
  {
    hide Partial, Factors, RowDot;
    var sum := Remainder(a, lower, n, i, j);
    ghost var before := Of(lower);
    if i == j {
      if sum <= PIVOT_TOL {
        NoFactor(before, Of(a), n, i);
        return false;
      }
      e.SqrtOf(sum);
      lower[i, j] := e.sqrt(sum);
    } else {
      var pivot := lower[j, j];
      PivotPositive(before, Of(a), n, i, j);
      if Abs(pivot) <= PIVOT_TOL {
        assert false;
        return false;
      }
      lower[i, j] := sum / pivot;
    }
    PartialExtends(before, Of(lower), Of(a), n, i, j);
    return true;
  }

  /** Succeeds exactly on the valid matrices that have a lower factor, and returns that factor.
      The exit on a vanishing off-diagonal pivot is never taken. */
  method CholeskyDecompose(e: Elementary, a: array2<real>, n: nat) returns (status: Status, l: array2<real>)
    requires e.Lawful()
    ensures status == InvalidInputs <==> !MatrixValid(Of(a), n)
    ensures status == Ok <==> MatrixValid(Of(a), n) && exists m :: Factors(m, Of(a), n)
    ensures status == Ok ==> l.Length0 == n && l.Length1 == n && Factors(Of(l), Of(a), n)
    ensures status == Ok ==> forall m :: Factors(m, Of(a), n) ==> m == Of(l)
    ensures status != Ok ==> l.Length0 == 0 && l.Length1 == 0
  {
    hide Partial, Factors, MatrixValid;
    l := new real[0, 0];
    var valid := IsMatrixValid(a, n);
    if !valid {
      return InvalidInputs, l;
    }
    var lower := new real[n, n]((i, j) => 0.0);
    StartPartial(Of(lower), Of(a), n);
    for i := 0 to n
      invariant Partial(Of(lower), Of(a), n, i, 0)
    {
      for j := 0 to i + 1
        invariant Partial(Of(lower), Of(a), n, i, j)
      {
        var positive := FillEntry(e, a, lower, n, i, j);
        if !positive {
          return NotPositiveDefinite, l;
        }
      }
      NextRow(Of(lower), Of(a), n, i);
    }
    PartialCompletes(Of(lower), Of(a), n);
    return Ok, lower;
  }

  lemma StartPartial(l: Matrix, a: Matrix, n: nat)
    requires Square(l, n) && forall i, j :: 0 <= i < n && 0 <= j < n ==> At(l, i, j) == 0.0
    ensures Partial(l, a, n, 0, 0)
  {
  }

  lemma NextRow(l: Matrix, a: Matrix, n: nat, i: nat)
    requires i < n && Partial(l, a, n, i, i + 1)
    ensures Partial(l, a, n, i + 1, 0)
  {
  }

  lemma NoFactor(l: Matrix, a: Matrix, n: nat, i: nat)
    requires i < n && Partial(l, a, n, i, i) && At(a, i, i) - RowDot(l, i, i, i) <= PIVOT_TOL
    ensures !exists m :: Factors(m, a, n)
  {
    forall m | Factors(m, a, n) ensures false {
      RemainderOfFactor(l, m, a, n, i, i);
    }
  }

  /** A pivot's square exceeds 1e-12, so the pivot exceeds 1e-12 too. */
  lemma PivotPositive(l: Matrix, a: Matrix, n: nat, i: nat, j: nat)
    requires j < i < n && Partial(l, a, n, i, j)
    ensures At(l, j, j) > PIVOT_TOL && At(l, j, j) * At(l, j, j) > PIVOT_TOL
  {
    var pivot := At(l, j, j);
    assert Done(j, j, i, j);
    assert Product(1.0 - pivot, pivot) == pivot - pivot * pivot;
  }

  /** Beyond column `j` row `j` of a lower factor is zero, so longer inner products agree. */
  lemma {:induction false} RowDotBeyond(l: Matrix, i: int, j: int, k: nat, n: nat)
    requires LowerTriangular(l, n) && 0 <= j <= i < n && j + 1 <= k <= n
    ensures RowDot(l, i, j, k) == RowDot(l, i, j, j + 1)
    decreases k
  {
    if k > j + 1 {
      RowDotBeyond(l, i, j, k - 1, n);
      RowDotStep(l, i, j, k - 1);
      assert Mul(At(l, i, k - 1), At(l, j, k - 1)) == Mul(At(l, i, k - 1), 0.0);
    }
  }

  /** For an exactly symmetric matrix the factor reproduces every entry: a = l l^T. */
  lemma FactorReproduces(l: Matrix, a: Matrix, i: int, j: int, n: nat)
    requires Factors(l, a, n) && Symmetric(a, n) && 0 <= i < n && 0 <= j < n
    ensures Dot(Row(l, i), Row(l, j), n) == At(a, i, j)
  {
    hide Sum;
    if j <= i {
      RowDotBeyond(l, i, j, n, n);
    } else {
      RowDotBeyond(l, j, i, n, n);
      DotSymmetric(Row(l, i), Row(l, j), n);
    }
  }

  /** So a factored symmetric matrix is positive semidefinite: its form is |l^T x|^2. */
  lemma FactorIsPsd(l: Matrix, a: Matrix, n: nat)
    requires Factors(l, a, n) && Symmetric(a, n)
    ensures Psd(a, n)
  {
    hide Sum, Factors;
    var ones := (k: int) => 1.0;
    forall r, c | 0 <= r < n && 0 <= c < n ensures At(a, r, c) == Dot(Weighted(l, ones, r), Row(l, c), n) {
      FactorReproduces(l, a, r, c, n);
      DotCongruent(Weighted(l, ones, r), Row(l, c), Row(l, r), Row(l, c), n);
    }
    SpectralPsd(a, l, ones, n);
  }

  /** Entry `i` of `l x`, read from the lower triangle only. */
  function LowerImage(l: Matrix, x: Vec, i: nat): real {
    Dot(Row(l, i), x, i + 1)
  }

  lemma {:induction false} LowerImageIsWhole(l: Matrix, x: Vec, i: nat, k: nat, n: nat)
    requires LowerTriangular(l, n) && i < k <= n
    ensures Dot(Row(l, i), x, k) == LowerImage(l, x, i)
    decreases k
  {
    if k > i + 1 {
      LowerImageIsWhole(l, x, i, k - 1, n);
      DotStep(Row(l, i), x, k - 1);
      assert Mul(At(l, i, k - 1), x(k - 1)) == Mul(0.0, x(k - 1));
    }
  }

  lemma LowerImageIs(l: Matrix, x: Vec, i: nat)
    ensures LowerImage(l, x, i) == Dot(Row(l, i), x, i + 1)
  {
  }

  /** `output = l input`; mismatched sizes leave `output` alone. */
  method ApplyLowerTriangular(l: array2<real>, input: array<real>, output: array<real>)
    requires l.Length0 == l.Length1 && input != output
    modifies output
    ensures l.Length0 == 0 || input.Length != l.Length0 || output.Length != l.Length0 ==>
              output[..] == old(output[..])
    ensures l.Length0 == input.Length == output.Length ==>
              forall i :: 0 <= i < output.Length ==> output[i] == LowerImage(Of(l), ToVec(input[..]), i)
  {
    var n := l.Length0;
    if n == 0 || input.Length != n || output.Length != n {
      return;
    }
    hide Dot, LowerImage;
    ghost var lower, x := Of(l), ToVec(input[..]);
    for i := 0 to n
      invariant Of(l) == lower && ToVec(input[..]) == x
      invariant forall k :: 0 <= k < i ==> output[k] == LowerImage(lower, x, k)
    {
      var sum := 0.0;
      DotOfNone(Row(lower, i), x);
      for j := 0 to i + 1
        invariant sum == Dot(Row(lower, i), x, j) && Of(l) == lower && ToVec(input[..]) == x
        invariant forall k :: 0 <= k < i ==> output[k] == LowerImage(lower, x, k)
      {
        DotStep(Row(lower, i), x, j);
        assert Mul(Row(lower, i)(j), x(j)) == Mul(l[i, j], input[j]);
        sum := sum + l[i, j] * input[j];
      }
      LowerImageIs(lower, x, i);
      output[i] := sum;
    }
  }

  /** Entry (i, j) of the product the code rebuilds. */
  function ProductEntry(l: Matrix, i: nat, j: nat): real {
    RowDot(l, i, j, (if i < j then i else j) + 1)
  }

  method ReconstructFromLower(l: array2<real>) returns (product: array2<real>)
    requires l.Length0 == l.Length1
    ensures product.Length0 == l.Length0 && product.Length1 == l.Length0
    ensures forall i, j :: 0 <= i < l.Length0 && 0 <= j < l.Length0 ==> product[i, j] == ProductEntry(Of(l), i, j)
  {
    hide RowDot, At, ProductEntry;
    var n := l.Length0;
    ghost var lower := Of(l);
    product := new real[n, n]((i, j) => 0.0);
    for i := 0 to n
      invariant Of(l) == lower
      invariant forall r, c :: 0 <= r < i && 0 <= c < n ==> product[r, c] == ProductEntry(lower, r, c)
    {
      for j := 0 to n
        invariant Of(l) == lower
        invariant forall r, c :: 0 <= r < n && 0 <= c < n && Done(r, c, i, j) ==>
                    product[r, c] == ProductEntry(lower, r, c)
      {
        var sum := 0.0;
        var kMax := if i < j then i else j;
        DotOfNone(Row(lower, i), Row(lower, j));
        RowDotOfNone(lower, i, j);
        for k := 0 to kMax + 1
          invariant sum == RowDot(lower, i, j, k) && Of(l) == lower
          invariant forall r, c :: 0 <= r < n && 0 <= c < n && Done(r, c, i, j) ==>
                      product[r, c] == ProductEntry(lower, r, c)
        {
          RowDotStep(lower, i, j, k);
          sum := sum + l[i, k] * l[j, k];
        }
        ProductEntryIs(lower, i, j);
        product[i, j] := sum;
      }
    }
  }

  lemma ProductEntryIs(l: Matrix, i: nat, j: nat)
    ensures ProductEntry(l, i, j) == RowDot(l, i, j, (if i < j then i else j) + 1)
  {
  }

  lemma RowDotOfNone(l: Matrix, i: int, j: int)
    ensures RowDot(l, i, j, 0) == 0.0
  {
  }

  /** Rebuilding from the factor of a symmetric matrix gives the matrix back. */
  lemma RoundTrip(l: Matrix, a: Matrix, i: nat, j: nat, n: nat)
    requires Factors(l, a, n) && Symmetric(a, n) && i < n && j < n
    ensures ProductEntry(l, i, j) == At(a, i, j)
  {
    if i < j {
      DotSymmetric(Row(l, i), Row(l, j), i + 1);
    }
  }
}
