/** Matrices persisted as sparse rows and rebuilt from them. */
module CalibrationStore {
  import opened Matrices
  import Cholesky
  import Calibrator

  datatype Cell = Cell(row: int, col: int, value: real)

  /** The order both writers produce and both queries ask for. */
  predicate Before(a: Cell, b: Cell) {
    a.row < b.row || (a.row == b.row && a.col < b.col)
  }

  predicate InOrder(cells: seq<Cell>) {
    forall k, l :: 0 <= k < l < |cells| ==> Before(cells[k], cells[l])
  }

  /** The stored triangle: on or above the diagonal for correlations, on or below it for factors. */
  predicate InTriangle(upper: bool, i: int, j: int, n: nat) {
    0 <= i < n && 0 <= j < n && if upper then i <= j else j <= i
  }

  /** `cells` hold exactly the triangle of `a`. */
  ghost predicate Stores(cells: seq<Cell>, a: Matrix, upper: bool, n: nat) {
    && (forall x :: x in cells ==> InTriangle(upper, x.row, x.col, n) && x.value == At(a, x.row, x.col))
    && (forall i, j :: InTriangle(upper, i, j, n) ==> Cell(i, j, At(a, i, j)) in cells)
  }

  /** The cells written when the writer stands at row `r`, column `c`. */
  ghost predicate StoresUpTo(cells: seq<Cell>, a: Matrix, upper: bool, n: nat, r: int, c: int) {
    && InOrder(cells)
    && (forall x :: x in cells ==> InTriangle(upper, x.row, x.col, n) && x.value == At(a, x.row, x.col)
                                   && Before(x, Cell(r, c, 0.0)))
    && (forall i, j :: InTriangle(upper, i, j, n) && Before(Cell(i, j, 0.0), Cell(r, c, 0.0)) ==>
          Cell(i, j, At(a, i, j)) in cells)
  }

  lemma AppendCell(cells: seq<Cell>, a: Matrix, upper: bool, n: nat, r: int, c: int)
    requires StoresUpTo(cells, a, upper, n, r, c) && InTriangle(upper, r, c, n)
    ensures StoresUpTo(cells + [Cell(r, c, At(a, r, c))], a, upper, n, r, c + 1)
  {
    var cell := Cell(r, c, At(a, r, c));
    var longer := cells + [cell];
    forall k, l | 0 <= k < l < |longer| ensures Before(longer[k], longer[l]) {
      if l == |cells| {
        assert longer[k] in cells;
      }
    }
    forall i, j | InTriangle(upper, i, j, n) && Before(Cell(i, j, 0.0), Cell(r, c + 1, 0.0))
      ensures Cell(i, j, At(a, i, j)) in longer
    {
      if i == r && j == c {
        assert longer[|cells|] == cell;
      } else {
        assert Cell(i, j, At(a, i, j)) in cells;
      }
    }
  }

  lemma StartCells(a: Matrix, upper: bool, n: nat)
    ensures StoresUpTo([], a, upper, n, 0, 0)
  {
  }

  /** A row ends at column `n`, or just past the diagonal when the lower triangle is stored. */
  lemma EndRow(cells: seq<Cell>, a: Matrix, upper: bool, n: nat, r: int, c: int)
    requires 0 <= r < n && StoresUpTo(cells, a, upper, n, r, c)
    requires c == if upper then n else r + 1
    ensures StoresUpTo(cells, a, upper, n, r + 1, 0)
  {
  }

  /** The upper triangle of row `r` starts at the diagonal. */
  lemma SkipBelow(cells: seq<Cell>, a: Matrix, n: nat, r: int)
    requires 0 <= r < n && StoresUpTo(cells, a, true, n, r, 0)
    ensures StoresUpTo(cells, a, true, n, r, r)
  {
  }

  lemma EndCells(cells: seq<Cell>, a: Matrix, upper: bool, n: nat)
    requires StoresUpTo(cells, a, upper, n, n, 0)
    ensures Stores(cells, a, upper, n) && InOrder(cells)
  {
  }

  method ToCorrelationWrites(a: array2<real>, n: nat) returns (cells: seq<Cell>)
    requires a.Length0 == n && a.Length1 == n
    ensures Stores(cells, Of(a), true, n) && InOrder(cells)
  {
    hide StoresUpTo;
    cells := [];
    StartCells(Of(a), true, n);
    for i := 0 to n
      invariant StoresUpTo(cells, Of(a), true, n, i, 0)
    {
      SkipBelow(cells, Of(a), n, i);
      for j := i to n
        invariant StoresUpTo(cells, Of(a), true, n, i, j)
      {
        AppendCell(cells, Of(a), true, n, i, j);
        cells := cells + [Cell(i, j, a[i, j])];
      }
      EndRow(cells, Of(a), true, n, i, n);
    }
    EndCells(cells, Of(a), true, n);
  }

  method ToCholeskyWrites(l: array2<real>, n: nat) returns (cells: seq<Cell>)
    requires l.Length0 == n && l.Length1 == n
    ensures Stores(cells, Of(l), false, n) && InOrder(cells)
  {
    hide StoresUpTo;
    cells := [];
    StartCells(Of(l), false, n);
    for row := 0 to n
      invariant StoresUpTo(cells, Of(l), false, n, row, 0)
    {
      for col := 0 to row + 1
        invariant StoresUpTo(cells, Of(l), false, n, row, col)
      {
        AppendCell(cells, Of(l), false, n, row, col);
        cells := cells + [Cell(row, col, l[row, col])];
      }
      EndRow(cells, Of(l), false, n, row, row + 1);
    }
    EndCells(cells, Of(l), false, n);
  }

  predicate Touches(x: Cell, mirrored: bool, i: int, j: int) {
    (x.row == i && x.col == j) || (mirrored && x.row == j && x.col == i)
  }

  /** What the last row touching the entry wrote, zero when none did. */
  function LastWritten(cells: seq<Cell>, mirrored: bool, i: int, j: int): real {
    if |cells| == 0 then 0.0
    else if Touches(cells[|cells| - 1], mirrored, i, j) then cells[|cells| - 1].value
    else LastWritten(cells[..|cells| - 1], mirrored, i, j)
  }

  predicate Indexed(cells: seq<Cell>, n: nat) {
    forall k :: 0 <= k < |cells| ==> 0 <= cells[k].row < n && 0 <= cells[k].col < n
  }

  method ReconstructCorrelationMatrix(n: nat, cells: seq<Cell>) returns (out: array2<real>)
    requires Indexed(cells, n)
    ensures fresh(out) && out.Length0 == n && out.Length1 == n
    ensures forall i, j :: 0 <= i < n && 0 <= j < n ==> out[i, j] == LastWritten(cells, true, i, j)
  {
    out := new real[n, n]((i, j) => 0.0);
    for k := 0 to |cells|
      invariant forall i, j :: 0 <= i < n && 0 <= j < n ==> out[i, j] == LastWritten(cells[..k], true, i, j)
    {
      assert cells[..k + 1][..k] == cells[..k];
      out[cells[k].row, cells[k].col] := cells[k].value;
      out[cells[k].col, cells[k].row] := cells[k].value;
    }
    assert cells[..|cells|] == cells;
  }

  method ReconstructCholeskyFactor(n: nat, cells: seq<Cell>) returns (out: array2<real>)
    requires Indexed(cells, n)
    ensures fresh(out) && out.Length0 == n && out.Length1 == n
    ensures forall i, j :: 0 <= i < n && 0 <= j < n ==> out[i, j] == LastWritten(cells, false, i, j)
  {
    out := new real[n, n]((i, j) => 0.0);
    for k := 0 to |cells|
      invariant forall i, j :: 0 <= i < n && 0 <= j < n ==> out[i, j] == LastWritten(cells[..k], false, i, j)
    {
      assert cells[..k + 1][..k] == cells[..k];
      out[cells[k].row, cells[k].col] := cells[k].value;
    }
    assert cells[..|cells|] == cells;
  }

  /** If every row touching the entry carries `value`, the entry ends as `value` or untouched. */
  lemma {:induction false} LastWrittenAgrees(cells: seq<Cell>, mirrored: bool, i: int, j: int, value: real)
    requires forall k :: 0 <= k < |cells| && Touches(cells[k], mirrored, i, j) ==> cells[k].value == value
    ensures LastWritten(cells, mirrored, i, j) ==
            if exists k :: 0 <= k < |cells| && Touches(cells[k], mirrored, i, j) then value else 0.0
  {
    if |cells| > 0 {
      var shorter := cells[..|cells| - 1];
      if !Touches(cells[|cells| - 1], mirrored, i, j) {
        LastWrittenAgrees(shorter, mirrored, i, j, value);
        assert forall k :: 0 <= k < |shorter| ==> shorter[k] == cells[k];
      }
    }
  }

  /** Written and read back in any row order, the correlation matrix is restored. */
  lemma CorrelationRoundTrip(a: Matrix, written: seq<Cell>, read: seq<Cell>, i: int, j: int, n: nat)
    requires Symmetric(a, n) && Stores(written, a, true, n) && multiset(read) == multiset(written)
    requires 0 <= i < n && 0 <= j < n
    ensures Indexed(read, n) && LastWritten(read, true, i, j) == At(a, i, j)
  {
    SameCells(written, read);
    var lo, hi := if i <= j then i else j, if i <= j then j else i;
    var cell := Cell(lo, hi, At(a, lo, hi));
    assert InTriangle(true, lo, hi, n);
    assert cell in read;
    var k :| 0 <= k < |read| && read[k] == cell;
    assert Touches(read[k], true, i, j);
    forall k | 0 <= k < |read| && Touches(read[k], true, i, j) ensures read[k].value == At(a, i, j) {
      assert read[k] in read;
    }
    LastWrittenAgrees(read, true, i, j, At(a, i, j));
  }

  /** Likewise for a lower-triangular factor. */
  lemma FactorRoundTrip(l: Matrix, written: seq<Cell>, read: seq<Cell>, i: int, j: int, n: nat)
    requires Cholesky.LowerTriangular(l, n) && Stores(written, l, false, n) && multiset(read) == multiset(written)
    requires 0 <= i < n && 0 <= j < n
    ensures Indexed(read, n) && LastWritten(read, false, i, j) == At(l, i, j)
  {
    SameCells(written, read);
    if j <= i {
      assert InTriangle(false, i, j, n);
      assert Cell(i, j, At(l, i, j)) in read;
      var k :| 0 <= k < |read| && read[k] == Cell(i, j, At(l, i, j));
      assert Touches(read[k], false, i, j);
    }
    forall k | 0 <= k < |read| && Touches(read[k], false, i, j) ensures read[k].value == At(l, i, j) {
      assert read[k] in read;
    }
    LastWrittenAgrees(read, false, i, j, At(l, i, j));
  }

  lemma SameCells(written: seq<Cell>, read: seq<Cell>)
    requires multiset(read) == multiset(written)
    ensures forall x :: x in read <==> x in written
    ensures forall k :: 0 <= k < |read| ==> read[k] in written
  {
    forall x ensures x in read <==> x in written {
      assert x in read <==> x in multiset(read);
      assert x in written <==> x in multiset(written);
    }
  }

  lemma StoredIsIndexed(a: Matrix, written: seq<Cell>, read: seq<Cell>, upper: bool, n: nat)
    requires Stores(written, a, upper, n) && multiset(read) == multiset(written)
    ensures Indexed(read, n)
  {
    SameCells(written, read);
  }

  /** Loading what was written for a coherent pair, rows in any order, gives that very pair. */
  method LoadCalibration(n: nat, cellsC: seq<Cell>, cellsL: seq<Cell>, ghost c: Matrix, ghost l: Matrix,
                         ghost writtenC: seq<Cell>, ghost writtenL: seq<Cell>)
    returns (correlation: array2<real>, cholesky: array2<real>)
    requires Square(c, n) && Square(l, n) && Calibrator.Coherent(c, l, n)
    requires Stores(writtenC, c, true, n) && multiset(cellsC) == multiset(writtenC)
    requires Stores(writtenL, l, false, n) && multiset(cellsL) == multiset(writtenL)
    ensures Of(correlation) == c && Of(cholesky) == l
  {
    hide Stores;
    StoredIsIndexed(c, writtenC, cellsC, true, n);
    StoredIsIndexed(l, writtenL, cellsL, false, n);
    correlation := ReconstructCorrelationMatrix(n, cellsC);
    cholesky := ReconstructCholeskyFactor(n, cellsL);
    forall i, j | 0 <= i < n && 0 <= j < n
      ensures correlation[i, j] == At(c, i, j) && cholesky[i, j] == At(l, i, j)
    {
      CorrelationRoundTrip(c, writtenC, cellsC, i, j, n);
      FactorRoundTrip(l, writtenL, cellsL, i, j, n);
    }
    MatricesEqual(Of(correlation), c, n);
    MatricesEqual(Of(cholesky), l, n);
  }
}
