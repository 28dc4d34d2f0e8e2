/** Sample correlation of aligned return series. */
module Correlation {
  import opened Reals
  import opened Sums
  import opened Matrices

  const VARIANCE_TOL: real := 0.000000000001

  /** The series less its mean. */
  function Deviation(s: seq<real>): Vec {
    k => ToVec(s)(k) - MeanOf(s)
  }

  function Variation(s: seq<real>): real {
    Dot(Deviation(s), Deviation(s), |s|)
  }

  /** A series long and volatile enough to correlate with another. */
  predicate Moves(s: seq<real>) {
    |s| >= 2 && Variation(s) > VARIANCE_TOL
  }

  function Coefficient(e: Elementary, cov: real, varX: real, varY: real): real {
    var root := e.sqrt(Mul(varX, varY));
    if root == 0.0 then 0.0 else Over(cov, root)
  }

  /** Pearson's coefficient, zero when a series is too short or does not move. */
  function Pearson(e: Elementary, x: seq<real>, y: seq<real>): real {
    if |x| == |y| && Moves(x) && Moves(y)
    then Coefficient(e, Dot(Deviation(x), Deviation(y), |x|), Variation(x), Variation(y))
    else 0.0
  }

  method Mean(values: seq<real>) returns (mean: real)
    ensures mean == MeanOf(values)
  {
    if |values| == 0 {
      return 0.0;
    }
    var sum := 0.0;
    for i := 0 to |values|
      invariant sum == Sum(ToVec(values), i)
    {
      sum := sum + values[i];
    }
    mean := sum / (|values| as real);
  }

  method PearsonCorrelation(e: Elementary, x: seq<real>, y: seq<real>) returns (rho: real)
    requires e.Lawful()
    ensures rho == Pearson(e, x, y)
  {
    if |x| != |y| || |x| < 2 {
      return 0.0;
    }
    var meanX := Mean(x);
    var meanY := Mean(y);
    hide Dot, Coefficient;
    ghost var u, v := Deviation(x), Deviation(y);
    var cov, varX, varY := 0.0, 0.0, 0.0;
    DotsOfNone(u, v);
    for i := 0 to |x|
      invariant cov == Dot(u, v, i) && varX == Dot(u, u, i) && varY == Dot(v, v, i)
    {
      var dx, dy := x[i] - meanX, y[i] - meanY;
      DotsStep(u, v, i, dx, dy);
      cov, varX, varY := cov + dx * dy, varX + dx * dx, varY + dy * dy;
    }
    if varX <= VARIANCE_TOL || varY <= VARIANCE_TOL {
      return 0.0;
    }
    rho := Divide(e, cov, varX, varY);
  }

  method Divide(e: Elementary, cov: real, varX: real, varY: real) returns (rho: real)
    requires e.Lawful() && varX > 0.0 && varY > 0.0
    ensures rho == Coefficient(e, cov, varX, varY)
  {
    RootOfProduct(e, varX, varY);
    var product := varX * varY;
    assert product == Mul(varX, varY);
    rho := cov / e.sqrt(product);
  }

  lemma DotsOfNone(u: Vec, v: Vec)
    ensures Dot(u, v, 0) == 0.0 && Dot(u, u, 0) == 0.0 && Dot(v, v, 0) == 0.0
  {
  }

  lemma DotsStep(u: Vec, v: Vec, i: nat, dx: real, dy: real)
    requires u(i) == dx && v(i) == dy
    ensures Dot(u, v, i + 1) == Dot(u, v, i) + dx * dy
    ensures Dot(u, u, i + 1) == Dot(u, u, i) + dx * dx
    ensures Dot(v, v, i + 1) == Dot(v, v, i) + dy * dy
  {
    hide Dot;
    DotStep(u, v, i);
    DotStep(u, u, i);
    DotStep(v, v, i);
    assert Mul(u(i), v(i)) == Mul(dx, dy) && Mul(u(i), u(i)) == Mul(dx, dx) && Mul(v(i), v(i)) == Mul(dy, dy);
  }

  /** The root of a product of positives is the product of the roots. */
  lemma RootOfProduct(e: Elementary, a: real, b: real)
    requires e.Lawful() && a > 0.0 && b > 0.0
    ensures e.sqrt(Mul(a, b)) == e.sqrt(a) * e.sqrt(b) && e.sqrt(a) > 0.0 && e.sqrt(b) > 0.0
    ensures e.sqrt(Mul(a, b)) > 0.0
  {
    e.SqrtOf(a);
    e.SqrtOf(b);
    var r, s := e.sqrt(a), e.sqrt(b);
    assert Product(r, s) == r * s;
    assert Mul(r * r, s * s) == Mul(a, b);
    e.SqrtUnique(Mul(a, b), Mul(r, s));
  }

  lemma PearsonBounded(e: Elementary, x: seq<real>, y: seq<real>)
    requires e.Lawful()
    ensures -1.0 <= Pearson(e, x, y) <= 1.0
  {
    hide Dot, Sum, Coefficient;
    if |x| == |y| && Moves(x) && Moves(y) {
      CauchySchwarz(Deviation(x), Deviation(y), |x|);
      CoefficientBounded(e, Dot(Deviation(x), Deviation(y), |x|), Variation(x), Variation(y));
    }
  }

  lemma CoefficientBounded(e: Elementary, cov: real, varX: real, varY: real)
    requires e.Lawful() && varX > 0.0 && varY > 0.0 && cov * cov <= varX * varY
    ensures -1.0 <= Coefficient(e, cov, varX, varY) <= 1.0
  {
    RootOfProduct(e, varX, varY);
    assert Product(varX, varY) == varX * varY;
    e.SqrtOf(Mul(varX, varY));
    QuotientBounded(cov, e.sqrt(Mul(varX, varY)));
  }

  lemma QuotientBounded(xy: real, root: real)
    requires root > 0.0 && xy * xy <= root * root
    ensures -1.0 <= xy / root <= 1.0
  {
    assert Mul(Abs(xy), Abs(xy)) == xy * xy;
    SquaresOrder(Abs(xy), root);
    var q := xy / root;
    assert q * root == xy;
    assert Product(q - 1.0, root) == q * root - root;
    assert Product(-q - 1.0, root) == -q * root - root;
  }

  lemma PearsonSymmetric(e: Elementary, x: seq<real>, y: seq<real>)
    ensures Pearson(e, x, y) == Pearson(e, y, x)
  {
    if |x| == |y| {
      DotSymmetric(Deviation(x), Deviation(y), |x|);
      CoefficientSymmetric(e, Dot(Deviation(x), Deviation(y), |x|), Variation(x), Variation(y));
    }
  }

  lemma CoefficientSymmetric(e: Elementary, cov: real, a: real, b: real)
    ensures Coefficient(e, cov, a, b) == Coefficient(e, cov, b, a)
  {
    assert Mul(a, b) == Mul(b, a);
  }

  /** The standardised series: unit length when the series moves, zero otherwise. */
  function Standard(e: Elementary, s: seq<real>): Vec {
    if Moves(s) && e.sqrt(Variation(s)) != 0.0 then k => Deviation(s)(k) * (1.0 / e.sqrt(Variation(s)))
    else k => 0.0
  }

  lemma DotScaled(u: Vec, a: real, x: Vec, v: Vec, b: real, y: Vec, n: nat)
    requires forall k :: 0 <= k < n ==> u(k) == x(k) * a && v(k) == y(k) * b
    ensures Dot(u, v, n) == (a * b) * Dot(x, y, n)
  {
    hide Sum;
    var f, g := k => x(k) * y(k), k => u(k) * v(k);
    TermsScale(u, a, x, v, b, y, f, g, n);
    SumScales(g, a * b, f, n);
  }

  lemma TermsScale(u: Vec, a: real, x: Vec, v: Vec, b: real, y: Vec, f: Vec, g: Vec, n: nat)
    requires forall k :: 0 <= k < n ==> u(k) == x(k) * a && v(k) == y(k) * b
    requires forall k :: 0 <= k < n ==> f(k) == x(k) * y(k) && g(k) == u(k) * v(k)
    ensures forall k :: 0 <= k < n ==> g(k) == (a * b) * f(k)
  {
    forall k | 0 <= k < n ensures g(k) == (a * b) * f(k) {
      ScaledFactors(u(k), v(k), x(k), a, y(k), b, f(k), g(k));
    }
  }

  lemma ScaledFactors(u: real, v: real, x: real, a: real, y: real, b: real, before: real, after: real)
    requires u == x * a && v == y * b && before == x * y && after == u * v
    ensures after == (a * b) * before
  {
    assert Mul(u, v) == Mul(x * a, y * b);
    assert Mul(a * b, before) == Mul(a * b, x * y);
  }

  /** Pearson's coefficient is the inner product of the standardised series. */
  lemma PearsonIsDot(e: Elementary, x: seq<real>, y: seq<real>, n: nat)
    requires e.Lawful() && |x| == |y| == n
    ensures Pearson(e, x, y) == Dot(Standard(e, x), Standard(e, y), n)
  {
    hide Sum, Dot, Coefficient;
    if Moves(x) && Moves(y) {
      e.SqrtOf(Variation(x));
      e.SqrtOf(Variation(y));
      var r, s := e.sqrt(Variation(x)), e.sqrt(Variation(y));
      DotScaled(Standard(e, x), 1.0 / r, Deviation(x), Standard(e, y), 1.0 / s, Deviation(y), n);
      CoefficientSplits(e, Dot(Deviation(x), Deviation(y), n), Variation(x), Variation(y));
    } else if Moves(x) {
      DotSymmetric(Standard(e, x), Standard(e, y), n);
      ZeroDot(Standard(e, y), Standard(e, x), n);
    } else {
      ZeroDot(Standard(e, x), Standard(e, y), n);
    }
  }

  /** The standardised series has unit length exactly when the series moves. */
  lemma StandardLength(e: Elementary, x: seq<real>)
    requires e.Lawful()
    ensures Dot(Standard(e, x), Standard(e, x), |x|) == if Moves(x) then 1.0 else 0.0
  {
    hide Sum, Dot, Coefficient;
    if Moves(x) {
      e.SqrtOf(Variation(x));
      var r := e.sqrt(Variation(x));
      DotScaled(Standard(e, x), 1.0 / r, Deviation(x), Standard(e, x), 1.0 / r, Deviation(x), |x|);
      CoefficientSplits(e, Variation(x), Variation(x), Variation(x));
      CoefficientOfSelf(e, Variation(x));
    } else {
      ZeroDot(Standard(e, x), Standard(e, x), |x|);
    }
  }

  lemma CoefficientSplits(e: Elementary, cov: real, a: real, b: real)
    requires e.Lawful() && a > 0.0 && b > 0.0
    ensures e.sqrt(a) > 0.0 && e.sqrt(b) > 0.0
    ensures Coefficient(e, cov, a, b) == ((1.0 / e.sqrt(a)) * (1.0 / e.sqrt(b))) * cov
  {
    RootOfProduct(e, a, b);
    QuotientOfProduct(cov, e.sqrt(a), e.sqrt(b), e.sqrt(Mul(a, b)));
  }

  lemma CoefficientOfSelf(e: Elementary, a: real)
    requires e.Lawful() && a > 0.0
    ensures Coefficient(e, a, a, a) == 1.0
  {
    e.SqrtUnique(Mul(a, a), a);
    var q := Over(a, a);
    assert q * a == a && Product(q - 1.0, a) == q * a - a;
    assert Over(a, e.sqrt(Mul(a, a))) == q;
  }

  lemma QuotientOfProduct(c: real, r: real, s: real, rs: real)
    requires r > 0.0 && s > 0.0 && rs == r * s && rs > 0.0
    ensures c / rs == ((1.0 / r) * (1.0 / s)) * c
  {
    var a, b, q := 1.0 / r, 1.0 / s, c / rs;
    assert a * r == 1.0 && b * s == 1.0 && q * rs == c;
    assert Mul(a * b, q * rs) == Mul(a * b, c);
    assert Mul(a * b * q, rs) == Mul(a * b * q, r * s);
    assert Mul(q * (a * r), b * s) == Mul(q * (a * r), 1.0);
    assert Mul(q, a * r) == Mul(q, 1.0);
  }

  lemma ZeroDot(x: Vec, y: Vec, n: nat)
    requires forall k :: 0 <= k < n ==> x(k) == 0.0
    ensures Dot(x, y, n) == 0.0
  {
    var f := k => x(k) * y(k);
    forall k | 0 <= k < n ensures f(k) == 0.0 {
      assert Mul(x(k), y(k)) == Mul(0.0, y(k));
    }
    SumConstant(f, 0.0, n);
  }

  // ---- What the coefficient measures ----

  lemma MeanCounts(s: seq<real>)
    requires s != []
    ensures MeanOf(s) * (|s| as real) == Sum(ToVec(s), |s|)
  {
    hide Sum;
  }

  /** The mean is the level the series' differences from it cancel at. */
  lemma DeviationsCancel(s: seq<real>)
    requires s != []
    ensures Sum(Deviation(s), |s|) == 0.0
  {
    var mean, count := MeanOf(s), |s| as real;
    MeanCounts(s);
    hide MeanOf;
    SumConstant(k => mean, mean, |s|);
    SumCombines(Deviation(s), 1.0, ToVec(s), -1.0, k => mean, |s|);
    assert Mul(mean, count) == mean * count;
  }

  /** One series is the other scaled and shifted. */
  ghost predicate OnLineOf(x: seq<real>, y: seq<real>, slope: real, shift: real) {
    |x| == |y| && forall k :: 0 <= k < |x| ==> y[k] == Mul(slope, x[k]) + shift
  }

  lemma DeviationScales(x: seq<real>, y: seq<real>, slope: real, shift: real)
    requires OnLineOf(x, y, slope, shift) && x != []
    ensures forall k :: 0 <= k < |x| ==> Deviation(y)(k) == Deviation(x)(k) * slope
  {
    hide Sum;
    var n, count := |x|, |x| as real;
    SumConstant(k => shift, shift, n);
    forall k | 0 <= k < n ensures ToVec(y)(k) == slope * ToVec(x)(k) + 1.0 * shift {
      assert Mul(slope, x[k]) == slope * x[k];
    }
    SumCombines(ToVec(y), slope, ToVec(x), 1.0, k => shift, n);
    var before, after := MeanOf(x), MeanOf(y);
    MeanCounts(x);
    MeanCounts(y);
    MeanMoves(before, after, count, slope, shift, Sum(ToVec(x), n), Sum(ToVec(y), n));
    hide MeanOf, Mul;
    forall k | 0 <= k < n ensures Deviation(y)(k) == Deviation(x)(k) * slope {
      MovedTogether(slope, x[k], before, shift);
    }
  }

  lemma MovedTogether(slope: real, x: real, mean: real, shift: real)
    ensures (Mul(slope, x) + shift) - (Mul(slope, mean) + shift) == (x - mean) * slope
  {
  }

  lemma MeanMoves(before: real, after: real, count: real, slope: real, shift: real, low: real, high: real)
    requires count > 0.0 && before * count == low && after * count == high && high == slope * low + count * shift
    ensures after == Mul(slope, before) + shift
  {
    assert Mul(slope, before * count) == Mul(slope, low);
    assert Product(after - (Mul(slope, before) + shift), count)
        == after * count - Mul(slope, before * count) - count * shift;
  }

  /** Scaling and shifting a series leaves its coefficient with every other series, up to the sign of the scale. */
  lemma PearsonOfScaled(e: Elementary, x: seq<real>, y: seq<real>, z: seq<real>, slope: real, shift: real)
    requires e.Lawful() && OnLineOf(x, y, slope, shift) && |z| == |x| && Moves(x) && Moves(y)
    ensures slope != 0.0
    ensures Pearson(e, y, z) == if slope > 0.0 then Pearson(e, x, z) else -Pearson(e, x, z)
  {
    hide Sum, Dot, Coefficient, Deviation;
    var n, u, v, w := |x|, Deviation(x), Deviation(y), Deviation(z);
    DeviationScales(x, y, slope, shift);
    DotScaled(v, slope, u, v, slope, u, n);
    DotScaled(v, slope, u, w, 1.0, w, n);
    assert Mul(slope, slope) == slope * slope;
    if Moves(z) {
      ScaledCoefficient(e, Dot(u, w, n), Variation(x), Variation(z), slope, Dot(v, w, n), Variation(y));
    }
  }

  lemma ScaledCoefficient(e: Elementary, cov: real, varX: real, varZ: real, slope: real, cov': real, varY: real)
    requires e.Lawful() && varX > 0.0 && varZ > 0.0 && varY > 0.0
    requires cov' == slope * cov && varY == (slope * slope) * varX && slope != 0.0
    ensures Coefficient(e, cov', varY, varZ)
         == if slope > 0.0 then Coefficient(e, cov, varX, varZ) else -Coefficient(e, cov, varX, varZ)
  {
    assert Product(varX, varZ) == Mul(varX, varZ) && Product(varY, varZ) == Mul(varY, varZ);
    e.SqrtOf(Mul(varX, varZ));
    var rx, size := e.sqrt(Mul(varX, varZ)), Abs(slope);
    RootScales(rx, size, slope, varX, varZ, varY);
    e.SqrtUnique(Mul(varY, varZ), Mul(size, rx));
    hide Elementary.Lawful;
    ScaledQuotient(cov, cov', rx, size, slope);
  }

  lemma RootScales(rx: real, size: real, slope: real, varX: real, varZ: real, varY: real)
    requires rx > 0.0 && size == Abs(slope) && slope != 0.0 && rx * rx == Mul(varX, varZ) && varY == (slope * slope) * varX
    ensures Mul(size, rx) > 0.0 && Mul(size, rx) * Mul(size, rx) == Mul(varY, varZ)
  {
    assert Product(size, rx) == Mul(size, rx);
    assert Mul(size, size) == Mul(slope, slope);
    assert Mul(Mul(size, size), rx * rx) == Mul(Mul(slope, slope), Mul(varX, varZ));
    assert Mul(varY, varZ) == Mul((slope * slope) * varX, varZ);
  }

  lemma ScaledQuotient(cov: real, cov': real, rx: real, size: real, slope: real)
    requires rx > 0.0 && size == Abs(slope) && slope != 0.0 && cov' == slope * cov && Mul(size, rx) > 0.0
    ensures Over(cov', Mul(size, rx)) == if slope > 0.0 then Over(cov, rx) else -Over(cov, rx)
  {
    var q, q' := Over(cov, rx), Over(cov', Mul(size, rx));
    var signed := if slope > 0.0 then q else -q;
    assert q * rx == cov && q' * Mul(size, rx) == cov';
    assert Mul(slope, q * rx) == Mul(slope, cov);
    assert Mul(signed, Mul(size, rx)) == Mul(slope, q * rx);
    assert Product(q' - signed, Mul(size, rx)) == q' * Mul(size, rx) - Mul(signed, Mul(size, rx));
  }

  /** A moving series and a line of it correlate fully, with the sign of the slope. */
  lemma PearsonOfLine(e: Elementary, x: seq<real>, y: seq<real>, slope: real, shift: real)
    requires e.Lawful() && OnLineOf(x, y, slope, shift) && Moves(x) && Moves(y)
    ensures Pearson(e, x, x) == 1.0
    ensures Pearson(e, y, x) == Pearson(e, x, y) == if slope > 0.0 then 1.0 else -1.0
  {
    hide Pearson, Standard, Dot;
    PearsonOfScaled(e, x, y, x, slope, shift);
    PearsonIsDot(e, x, x, |x|);
    StandardLength(e, x);
    PearsonSymmetric(e, x, y);
  }

  /** The matrix the calibrator fills: ones on the diagonal, Pearson's coefficients elsewhere. */
  function SampleEntry(e: Elementary, series: seq<seq<real>>, i: int, j: int): real
    requires 0 <= i < |series| && 0 <= j < |series|
  {
    if i == j then 1.0 else Pearson(e, series[i], series[j])
  }

  ghost predicate IsSample(e: Elementary, series: seq<seq<real>>, a: Matrix) {
    Square(a, |series|) &&
    forall i, j :: 0 <= i < |series| && 0 <= j < |series| ==> At(a, i, j) == SampleEntry(e, series, i, j)
  }

  function Sample(e: Elementary, series: seq<seq<real>>): (a: Matrix)
    ensures IsSample(e, series, a)
  {
    hide Pearson;
    Build(|series|, (i, j) => if 0 <= i < |series| && 0 <= j < |series| then SampleEntry(e, series, i, j) else 0.0)
  }

  predicate Aligned(series: seq<seq<real>>, m: nat) {
    forall f :: 0 <= f < |series| ==> |series[f]| == m
  }

  method SampleCorrelation(e: Elementary, series: seq<seq<real>>) returns (c: array2<real>)
    requires e.Lawful()
    ensures fresh(c) && c.Length0 == |series| && c.Length1 == |series|
    ensures Of(c) == Sample(e, series)
  {
    hide Pearson, Sample;
    var n := |series|;
    c := new real[n, n]((i, j) => 0.0);
    for i := 0 to n
      invariant forall r, k :: 0 <= r < i && 0 <= k < i ==> c[r, k] == SampleEntry(e, series, r, k)
    {
      c[i, i] := 1.0;
      for j := 0 to i
        invariant forall r, k :: 0 <= r < i && 0 <= k < i ==> c[r, k] == SampleEntry(e, series, r, k)
        invariant c[i, i] == 1.0
        invariant forall k :: 0 <= k < j ==>
                    c[i, k] == SampleEntry(e, series, i, k) && c[k, i] == SampleEntry(e, series, k, i)
      {
        var rho := PearsonCorrelation(e, series[i], series[j]);
        PearsonSymmetric(e, series[i], series[j]);
        c[i, j] := rho;
        c[j, i] := rho;
      }
    }
    MatricesEqual(Of(c), Sample(e, series), n);
  }

  /** Weighted by `x`, the standardised series add up to one portfolio series. */
  function Portfolio(e: Elementary, series: seq<seq<real>>, x: Vec, n: nat): Vec
    requires n <= |series|
  {
    t => Sum(i => if 0 <= i < n then x(i) * Standard(e, series[i])(t) else 0.0, n)
  }

  /** Row `i` of the sample matrix against `x`: the series against the portfolio, plus the
      diagonal one when the series does not move. */
  lemma SampleAct(e: Elementary, series: seq<seq<real>>, a: Matrix, m: nat, x: Vec, i: int)
    requires e.Lawful() && IsSample(e, series, a) && Aligned(series, m) && 0 <= i < |series|
    ensures Act(a, i, x, |series|) ==
            Dot(Standard(e, series[i]), Portfolio(e, series, x, |series|), m)
            + if Moves(series[i]) then 0.0 else x(i)
  {
    hide Sum, Standard, Pearson, Moves, Dot, SampleEntry, Mul;
    var n := |series|;
    var z := Standard(e, series[i]);
    var inner := j => if 0 <= j < n then Mul(Dot(z, Standard(e, series[j]), m), x(j)) else 0.0;
    var row := j => Mul(At(a, i, j), x(j));
    var spike := j => if j == i && !Moves(series[i]) then x(i) else 0.0;
    forall j | 0 <= j < n ensures row(j) == inner(j) + spike(j) {
      SampleTerm(e, series, m, x(j), i, j);
    }
    SumAdds(row, inner, spike, n);
    SumOnePoint(spike, i, n);
    DotPortfolio(e, series, z, x, m);
    SumCongruent(inner, j => if 0 <= j < n then Mul(Dot(z, Standard(e, series[j]), m), x(j)) else 0.0, n);
    ActIsSum(a, i, x, row, n);
  }

  lemma ActIsSum(a: Matrix, i: int, x: Vec, row: Vec, n: nat)
    requires forall j :: 0 <= j < n ==> row(j) == Mul(At(a, i, j), x(j))
    ensures Act(a, i, x, n) == Sum(row, n)
  {
    SumCongruent(row, j => Row(a, i)(j) * x(j), n);
  }

  lemma SampleTerm(e: Elementary, series: seq<seq<real>>, m: nat, weight: real, i: int, j: int)
    requires e.Lawful() && Aligned(series, m) && 0 <= i < |series| && 0 <= j < |series|
    ensures Mul(SampleEntry(e, series, i, j), weight) ==
            Mul(Dot(Standard(e, series[i]), Standard(e, series[j]), m), weight)
            + if j == i && !Moves(series[i]) then weight else 0.0
  {
    hide Sum, Standard, Pearson, Moves, Dot;
    var dot := Dot(Standard(e, series[i]), Standard(e, series[j]), m);
    if j == i {
      StandardLength(e, series[i]);
      assert Mul(dot, weight) == Mul(if Moves(series[i]) then 1.0 else 0.0, weight);
    } else {
      PearsonIsDot(e, series[i], series[j], m);
      assert Mul(dot, weight) == Mul(Pearson(e, series[i], series[j]), weight);
    }
  }

  lemma DotPortfolio(e: Elementary, series: seq<seq<real>>, z: Vec, x: Vec, m: nat)
    ensures Dot(z, Portfolio(e, series, x, |series|), m) ==
            Sum(j => if 0 <= j < |series| then Mul(Dot(z, Standard(e, series[j]), m), x(j)) else 0.0, |series|)
  {
    hide Sum, Standard;
    var n := |series|;
    var s := Portfolio(e, series, x, n);
    var f := (t: int, j: int) => if 0 <= j < n then z(t) * (x(j) * Standard(e, series[j])(t)) else 0.0;
    SumSwaps(f, m, n);
    forall t | 0 <= t < m ensures Sum(j => f(t, j), n) == z(t) * s(t) {
      var w := i => if 0 <= i < n then x(i) * Standard(e, series[i])(t) else 0.0;
      SumScales(j => f(t, j), z(t), w, n);
    }
    SumCongruent(t => Sum(j => f(t, j), n), t => z(t) * s(t), m);
    var g := j => if 0 <= j < n then Mul(Dot(z, Standard(e, series[j]), m), x(j)) else 0.0;
    forall j | 0 <= j < n ensures Sum(t => f(t, j), m) == g(j) {
      var y := Standard(e, series[j]);
      var h, h' := t => f(t, j), t => z(t) * y(t);
      forall t | 0 <= t < m ensures h(t) == x(j) * h'(t) {
        assert Mul(x(j), h'(t)) == Mul(x(j), z(t) * y(t));
      }
      SumScales(h, x(j), h', m);
      SumCongruent(h', t => z(t) * y(t), m);
    }
    SumCongruent(j => Sum(t => f(t, j), m), g, n);
    SumCongruent(g, j => if 0 <= j < n then Mul(Dot(z, Standard(e, series[j]), m), x(j)) else 0.0, n);
  }

  /** The sample matrix is a correlation matrix, constant series included: its form is the squared
      length of the portfolio series plus the squares of the weights on series that do not move. */
  lemma SampleIsCorrelation(e: Elementary, series: seq<seq<real>>, m: nat)
    requires e.Lawful() && Aligned(series, m)
    ensures var a := Sample(e, series);
            && Symmetric(a, |series|) && UnitDiagonal(a, |series|) && Psd(a, |series|)
            && forall i, j :: 0 <= i < |series| && 0 <= j < |series| ==> -1.0 <= At(a, i, j) <= 1.0
  {
    var a := Sample(e, series);
    hide Sum, Pearson;
    var n := |series|;
    forall i, j | 0 <= i < n && 0 <= j < n ensures At(a, i, j) == At(a, j, i) && -1.0 <= At(a, i, j) <= 1.0 {
      PearsonSymmetric(e, series[i], series[j]);
      PearsonBounded(e, series[i], series[j]);
    }
    forall x: Vec ensures Form(a, x, x, n) >= 0.0 {
      SampleForm(e, series, a, m, x);
    }
  }

  lemma SampleForm(e: Elementary, series: seq<seq<real>>, a: Matrix, m: nat, x: Vec)
    requires e.Lawful() && IsSample(e, series, a) && Aligned(series, m)
    ensures Form(a, x, x, |series|) >= 0.0
  {
    hide Sum, Standard, Moves, Pearson, IsSample;
    var n := |series|;
    var s := Portfolio(e, series, x, n);
    var f := i => x(i) * Act(a, i, x, n);
    var g := j => if 0 <= j < n then Mul(Dot(s, Standard(e, series[j]), m), x(j)) else 0.0;
    var rest := (j: int) => 0.0;
    forall i | 0 <= i < n ensures 1.0 * g(i) + rest(i) <= f(i) {
      SampleAct(e, series, a, m, x, i);
      DotSymmetric(Standard(e, series[i]), s, m);
      var extra := if Moves(series[i]) then 0.0 else x(i);
      assert Mul(x(i), Act(a, i, x, n)) == Mul(x(i), Dot(s, Standard(e, series[i]), m) + extra);
      assert Product(x(i), extra) == x(i) * extra;
    }
    SumDominates(f, 1.0, g, rest, n);
    SumConstant(rest, 0.0, n);
    DotPortfolio(e, series, s, x, m);
    SumCongruent(g, j => if 0 <= j < n then Mul(Dot(s, Standard(e, series[j]), m), x(j)) else 0.0, n);
    DotSelfNonNegative(s, m);
    SumCongruent(f, i => x(i) * Act(a, i, x, n), n);
  }
}
