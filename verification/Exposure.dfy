/** Pricing legs along simulated paths, and the exposure metrics over the paths. */
module Exposure {
  import opened Options
  import opened Reals
  import opened Sums
  import opened OrderStatistics
  import opened TimeGrid
  import opened LegPv
  import opened Comonotone

  datatype PathLeg = PathLeg(id: string, trade: string, direction: Direction, quantity: real, contractSize: real, expiry: int)

  /** A leg's unit value on a date, given every factor's spot on one path; none when the pricer has no answer. */
  type PathPricer = (PathLeg, int, seq<real>) -> Option<real>

  /** A leg is priced up to and including its expiry date. */
  predicate IsLegActiveOnGridNode(date: int, expiry: int) {
    ((expiry - date) as real) / 365.0 >= 0.0
  }

  /** Every factor's spot in one slice of the scenarios. */
  ghost function Slice(buffer: array3<real>, step: nat, path: nat): seq<real>
    requires step < buffer.Length1 && path < buffer.Length2
    reads buffer
  {
    seq(buffer.Length0, f requires 0 <= f < buffer.Length0 reads buffer => buffer[f, step, path])
  }

  method ReadSlice(buffer: array3<real>, step: nat, path: nat) returns (spots: seq<real>)
    requires step < buffer.Length1 && path < buffer.Length2
    ensures spots == Slice(buffer, step, path)
  {
    spots := [];
    for f := 0 to buffer.Length0
      invariant spots == Slice(buffer, step, path)[..f]
    {
      spots := spots + [buffer[f, step, path]];
    }
  }

  /** The value a cell of the path values holds: the signed leg total, or zero past expiry. */
  function CellValue(leg: PathLeg, date: int, spots: seq<real>, pricer: PathPricer): Option<real> {
    if !IsLegActiveOnGridNode(date, leg.expiry) then Some(0.0)
    else
      match pricer(leg, date, spots)
      case None => None
      case Some(npv) => Some(LegTotalPv(leg, npv))
  }

  function LegTotalPv(leg: PathLeg, npv: real): real {
    SignedTotal(leg.direction, leg.quantity, leg.contractSize, npv)
  }

  ghost function Wanted(buffer: array3<real>, grid: seq<GridNode>, legs: seq<PathLeg>, pricer: PathPricer, l: nat, step: nat,
                        path: nat): Option<real>
    requires l < |legs| && step < |grid| == buffer.Length1 && path < buffer.Length2
    reads buffer
  {
    CellValue(legs[l], grid[step].date, Slice(buffer, step, path), pricer)
  }

  /** All cells of earlier steps, of earlier paths of this step, and of the first `count` legs of this path. */
  ghost predicate CellsPriced(out: array3<real>, buffer: array3<real>, grid: seq<GridNode>, legs: seq<PathLeg>,
                              pricer: PathPricer, step: nat, path: nat, count: nat)
    requires |legs| == out.Length0 && |grid| == out.Length1 == buffer.Length1 && out.Length2 == buffer.Length2
    reads out, buffer
  {
    forall l: nat, k: nat, p: nat | l < |legs| && k < |grid| && p < out.Length2
      && (k < step || (k == step && (p < path || (p == path && l < count)))) ::
      Some(out[l, k, p]) == Wanted(buffer, grid, legs, pricer, l, k, p)
  }

  predicate Fits(buffer: array3<real>, grid: seq<GridNode>, legs: seq<PathLeg>, factors: seq<string>, out: array3<real>) {
    && legs != [] && buffer.Length1 == |grid| == out.Length1 && |factors| == buffer.Length0
    && out.Length0 == |legs| && out.Length2 == buffer.Length2
  }

  /** The pricer has an answer for every leg still alive, in every slice. */
  ghost predicate AllPriced(buffer: array3<real>, grid: seq<GridNode>, legs: seq<PathLeg>, pricer: PathPricer)
    requires |grid| == buffer.Length1
    reads buffer
  {
    forall step: nat, path: nat :: step < |grid| && path < buffer.Length2 ==> SlicePriced(buffer, grid, legs, pricer, step, path)
  }

  ghost predicate SlicePriced(buffer: array3<real>, grid: seq<GridNode>, legs: seq<PathLeg>, pricer: PathPricer, step: nat,
                              path: nat)
    requires step < |grid| == buffer.Length1 && path < buffer.Length2
    reads buffer
  {
    forall l: nat :: l < |legs| ==> Wanted(buffer, grid, legs, pricer, l, step, path).Some?
  }

  /** Succeeds exactly when the sizes fit and every live cell can be priced. */
  method PricePortfolioAlongPaths(buffer: array3<real>, grid: seq<GridNode>, legs: seq<PathLeg>, factors: seq<string>,
                                  pricer: PathPricer, out: array3<real>) returns (ok: bool, ids: seq<string>)
    requires out != buffer
    modifies out
    ensures ok <==> Fits(buffer, grid, legs, factors, out) && AllPriced(buffer, grid, legs, pricer)
    ensures ok ==> CellsPriced(out, buffer, grid, legs, pricer, |grid|, 0, 0) && |ids| == |legs|
    ensures ok ==> forall l :: 0 <= l < |legs| ==> ids[l] == legs[l].id
  {
    ids := [];
    if legs == [] || buffer.Length1 != |grid| || |factors| != buffer.Length0 {
      return false, [];
    }
    if out.Length0 != |legs| || out.Length1 != buffer.Length1 || out.Length2 != buffer.Length2 {
      return false, [];
    }
    ids := seq(|legs|, l requires 0 <= l < |legs| => legs[l].id);
    for step := 0 to |grid|
      invariant CellsPriced(out, buffer, grid, legs, pricer, step, 0, 0)
      invariant forall k: nat, p: nat :: k < step && p < buffer.Length2 ==> SlicePriced(buffer, grid, legs, pricer, k, p)
    {
      for path := 0 to buffer.Length2
        invariant CellsPriced(out, buffer, grid, legs, pricer, step, path, 0)
        invariant forall k: nat, p: nat :: k < step && p < buffer.Length2 ==> SlicePriced(buffer, grid, legs, pricer, k, p)
        invariant forall p: nat :: p < path ==> SlicePriced(buffer, grid, legs, pricer, step, p)
      {
        var spots := ReadSlice(buffer, step, path);
        var priced := PricePath(buffer, grid, legs, pricer, out, step, path, spots);
        if !priced {
          assert !SlicePriced(buffer, grid, legs, pricer, step, path);
          return false, ids;
        }
      }
    }
    return true, ids;
  }

  /** Every leg in one slice. */
  method PricePath(buffer: array3<real>, grid: seq<GridNode>, legs: seq<PathLeg>, pricer: PathPricer, out: array3<real>,
                   step: nat, path: nat, spots: seq<real>) returns (ok: bool)
    requires out != buffer
    requires |legs| == out.Length0 && |grid| == out.Length1 == buffer.Length1 && out.Length2 == buffer.Length2
    requires step < |grid| && path < out.Length2 && spots == Slice(buffer, step, path)
    requires CellsPriced(out, buffer, grid, legs, pricer, step, path, 0)
    modifies out
    ensures ok <==> forall l: nat :: l < |legs| ==> Wanted(buffer, grid, legs, pricer, l, step, path).Some?
    ensures ok ==> CellsPriced(out, buffer, grid, legs, pricer, step, path + 1, 0)
  {
    hide Slice, Wanted, CellValue, LegTotalPv;
    for l := 0 to |legs|
      invariant spots == Slice(buffer, step, path)
      invariant CellsPriced(out, buffer, grid, legs, pricer, step, path, l)
      invariant forall i: nat :: i < l ==> Wanted(buffer, grid, legs, pricer, i, step, path).Some?
    {
      var leg := legs[l];
      WantedIs(buffer, grid, legs, pricer, l, step, path);
      if !IsLegActiveOnGridNode(grid[step].date, leg.expiry) {
        out[l, step, path] := 0.0;
        continue;
      }
      var npv := pricer(leg, grid[step].date, spots);
      if npv.None? {
        return false;
      }
      out[l, step, path] := LegTotalPv(leg, npv.value);
    }
    return true;
  }

  lemma WantedIs(buffer: array3<real>, grid: seq<GridNode>, legs: seq<PathLeg>, pricer: PathPricer, l: nat, step: nat, path: nat)
    requires l < |legs| && step < |grid| == buffer.Length1 && path < buffer.Length2
    ensures var leg, date, spots := legs[l], grid[step].date, Slice(buffer, step, path);
            Wanted(buffer, grid, legs, pricer, l, step, path)
            == if !IsLegActiveOnGridNode(date, leg.expiry) then Some(0.0)
               else if pricer(leg, date, spots).None? then None
               else Some(LegTotalPv(leg, pricer(leg, date, spots).value))
  {
  }

  // ---- Exposure of a sample of path values ----

  function PositiveExposure(pv: real): real {
    if pv > 0.0 then pv else 0.0
  }

  const PFE_95 := 0.95
  const PFE_975 := 0.975

  datatype Identity = Identity(leg: string, trade: string)

  datatype Metrics = Metrics(leg: string, trade: string, pillar: string, gridStep: nat, yearFraction: real, date: int,
                             ee: real, pfe95: real, pfe975: real)

  /** The metrics of a leg at a grid node, from its exposures on every path. */
  function MetricsOf(leg: Identity, node: GridNode, step: nat, exposures: seq<real>): Metrics {
    Metrics(leg.leg, leg.trade, node.pillar, step, node.yearFraction, node.date, MeanOf(exposures),
            Quantile(exposures, PFE_95), Quantile(exposures, PFE_975))
  }

  ghost function Exposures(pv: array3<real>, l: nat, step: nat): (values: seq<real>)
    requires l < pv.Length0 && step < pv.Length1
    reads pv
    ensures |values| == pv.Length2
  {
    seq(pv.Length2, p requires 0 <= p < pv.Length2 reads pv => PositiveExposure(pv[l, step, p]))
  }

  /** A leg's metrics at the first `steps` grid nodes. */
  ghost function LegMetrics(pv: array3<real>, leg: Identity, grid: seq<GridNode>, l: nat, steps: nat): seq<Metrics>
    requires l < pv.Length0 && steps <= |grid| == pv.Length1
    reads pv
  {
    if steps == 0 then []
    else LegMetrics(pv, leg, grid, l, steps - 1) + [MetricsOf(leg, grid[steps - 1], steps - 1, Exposures(pv, l, steps - 1))]
  }

  /** All metrics of the first `count` legs, by leg and then by grid node. */
  ghost function AllMetrics(pv: array3<real>, legs: seq<Identity>, grid: seq<GridNode>, count: nat): seq<Metrics>
    requires count <= |legs| == pv.Length0 && |grid| == pv.Length1
    reads pv
  {
    if count == 0 then []
    else AllMetrics(pv, legs, grid, count - 1) + LegMetrics(pv, legs[count - 1], grid, count - 1, |grid|)
  }

  method ComputeLegExposureMetrics(pv: array3<real>, legs: seq<Identity>, grid: seq<GridNode>)
    returns (ok: bool, metrics: seq<Metrics>)
    ensures ok <==> legs != [] && pv.Length0 == |legs| && pv.Length1 == |grid| > 0 && pv.Length2 > 0
    ensures ok ==> metrics == AllMetrics(pv, legs, grid, |legs|)
    ensures ok ==> AllMeasured(metrics, pv, legs, grid)
  {
    hide MetricsOf, AllMeasured;
    metrics := [];
    if |legs| == 0 || pv.Length0 != |legs| || pv.Length1 != |grid| || |grid| == 0 || pv.Length2 == 0 {
      return false, [];
    }
    var exposures: seq<real> := [];
    for l := 0 to |legs|
      invariant metrics == AllMetrics(pv, legs, grid, l)
    {
      for step := 0 to |grid|
        invariant metrics == AllMetrics(pv, legs, grid, l) + LegMetrics(pv, legs[l], grid, l, step)
      {
        exposures := [];
        for path := 0 to pv.Length2
          invariant exposures == Exposures(pv, l, step)[..path]
        {
          exposures := exposures + [PositiveExposure(pv[l, step, path])];
        }
        assert exposures == Exposures(pv, l, step);
        metrics := metrics + [MetricsOf(legs[l], grid[step], step, exposures)];
        assert LegMetrics(pv, legs[l], grid, l, step + 1)
            == LegMetrics(pv, legs[l], grid, l, step) + [MetricsOf(legs[l], grid[step], step, exposures)];
      }
    }
    MeasuresAll(pv, legs, grid);
    return true, metrics;
  }

  // ---- What the metrics promise ----

  ghost predicate AtMost(values: seq<real>, high: real) {
    forall i :: 0 <= i < |values| ==> 0.0 <= values[i] <= high
  }

  /** Exposure levels are ordered: 0 <= PFE 95% <= PFE 97.5% <= the largest path, and the mean is within too. */
  lemma MetricsOrdered(leg: Identity, node: GridNode, step: nat, exposures: seq<real>, high: real)
    requires exposures != [] && AtMost(exposures, high)
    ensures var m := MetricsOf(leg, node, step, exposures);
            0.0 <= m.pfe95 <= m.pfe975 <= high && 0.0 <= m.ee <= high
  {
    hide Quantile;
    QuantileWithin(exposures, PFE_95, 0.0, high);
    QuantileWithin(exposures, PFE_975, 0.0, high);
    QuantileMonotone(exposures, PFE_95, PFE_975);
    MeanWithin(exposures, high);
  }

  lemma MeanWithin(values: seq<real>, high: real)
    requires values != [] && AtMost(values, high)
    ensures 0.0 <= MeanOf(values) <= high
  {
    var n, f := |values|, ToVec(values);
    SumNonNegative(f, n);
    SumMonotone(f, (i: int) => high, n);
    SumConstant((i: int) => high, high, n);
    Averaged(Sum(f, n), n as real, high);
  }

  lemma Averaged(sum: real, n: real, high: real)
    requires n > 0.0 && 0.0 <= sum <= n * high
    ensures 0.0 <= sum / n <= high
  {
    var mean := sum / n;
    assert Mul(mean, n) == sum;
    assert Product(mean, n) == sum;
    assert Product(high - mean, n) == n * high - sum;
  }

  /** Up to and including its expiry a leg's cell is its signed total at the pricer's answer. */
  lemma LiveCell(out: array3<real>, buffer: array3<real>, grid: seq<GridNode>, legs: seq<PathLeg>, pricer: PathPricer,
                 l: nat, step: nat, path: nat)
    requires |legs| == out.Length0 && |grid| == out.Length1 == buffer.Length1 && out.Length2 == buffer.Length2
    requires CellsPriced(out, buffer, grid, legs, pricer, |grid|, 0, 0)
    requires l < |legs| && step < |grid| && path < out.Length2 && grid[step].date <= legs[l].expiry
    ensures var leg, npv := legs[l], pricer(legs[l], grid[step].date, Slice(buffer, step, path));
            npv.Some? && out[l, step, path] == SignedTotal(leg.direction, leg.quantity, leg.contractSize, npv.value)
  {
    assert Some(out[l, step, path]) == Wanted(buffer, grid, legs, pricer, l, step, path);
    WantedIs(buffer, grid, legs, pricer, l, step, path);
  }

  /** Once the grid date passes a leg's expiry, all its metrics are zero. */
  lemma ExpiredMetrics(out: array3<real>, buffer: array3<real>, grid: seq<GridNode>, legs: seq<PathLeg>, pricer: PathPricer,
                       l: nat, step: nat)
    requires |legs| == out.Length0 && |grid| == out.Length1 == buffer.Length1 && out.Length2 == buffer.Length2
    requires CellsPriced(out, buffer, grid, legs, pricer, |grid|, 0, 0)
    requires l < |legs| && step < |grid| && legs[l].expiry < grid[step].date
    ensures forall leg: Identity {:trigger MetricsOf(leg, grid[step], step, Exposures(out, l, step))} ::
              var m := MetricsOf(leg, grid[step], step, Exposures(out, l, step));
              m.ee == 0.0 && m.pfe95 == 0.0 && m.pfe975 == 0.0
  {
    var exposures := Exposures(out, l, step);
    forall p: nat | p < out.Length2 ensures exposures[p] == 0.0 {
      assert Some(out[l, step, p]) == Wanted(buffer, grid, legs, pricer, l, step, p);
    }
    if exposures != [] {
      MetricsOrdered(Identity("", ""), grid[step], step, exposures, 0.0);
    }
  }

  // ---- What the metrics measure ----

  /** Exposure is what the holder is owed: it covers the value, and with the other side's exposure adds up to it. */
  lemma ExposureSplits(pv: real)
    ensures pv <= PositiveExposure(pv) && PositiveExposure(pv) - PositiveExposure(-pv) == pv
    ensures PositiveExposure(pv) == 0.0 || PositiveExposure(-pv) == 0.0
  {
  }

  ghost predicate AreExposures(exposures: seq<real>, values: seq<real>) {
    |exposures| == |values| && forall i :: 0 <= i < |values| ==> exposures[i] == PositiveExposure(values[i])
  }

  /** The values a leg takes at a grid node, path by path. */
  ghost function Values(pv: array3<real>, l: nat, step: nat): (values: seq<real>)
    requires l < pv.Length0 && step < pv.Length1
    reads pv
    ensures |values| == pv.Length2
  {
    seq(pv.Length2, p requires 0 <= p < pv.Length2 reads pv => pv[l, step, p])
  }

  /** Where no path value is negative the figures are the mean and the quantiles of the values themselves, and where none is
      positive they are zero. */
  ghost predicate Measures(m: Metrics, values: seq<real>) {
    && ((forall i :: 0 <= i < |values| ==> values[i] >= 0.0) ==>
          m.ee == MeanOf(values) && m.pfe95 == Quantile(values, 0.95) && m.pfe975 == Quantile(values, 0.975))
    && ((forall i :: 0 <= i < |values| ==> values[i] <= 0.0) ==> m.ee == 0.0 && m.pfe95 == 0.0 && m.pfe975 == 0.0)
  }

  lemma ExposuresMeasure(leg: Identity, node: GridNode, step: nat, values: seq<real>, exposures: seq<real>)
    requires values != [] && AreExposures(exposures, values)
    ensures Measures(MetricsOf(leg, node, step, exposures), values)
  {
    hide MeanOf, Quantile;
    if forall i :: 0 <= i < |values| ==> values[i] >= 0.0 {
      forall i | 0 <= i < |values| ensures exposures[i] == values[i] {
        ExposureSplits(values[i]);
      }
      assert exposures == values;
    }
    if forall i :: 0 <= i < |values| ==> values[i] <= 0.0 {
      MetricsOrdered(leg, node, step, exposures, 0.0);
    }
  }

  /** The expected exposures of the two sides differ by the mean value. */
  lemma SidesDiffer(values: seq<real>, exposures: seq<real>, others: seq<real>)
    requires values != [] && AreExposures(exposures, values)
    requires |others| == |values| && forall i :: 0 <= i < |values| ==> others[i] == PositiveExposure(-values[i])
    ensures MeanOf(exposures) - MeanOf(others) == MeanOf(values)
  {
    hide Sum;
    forall i | 0 <= i < |values| ensures ToVec(values)(i) == 1.0 * ToVec(exposures)(i) + -1.0 * ToVec(others)(i) {
      ExposureSplits(values[i]);
    }
    SumCombines(ToVec(values), 1.0, ToVec(exposures), -1.0, ToVec(others), |values|);
    QuotientsSubtract(Sum(ToVec(exposures), |values|), Sum(ToVec(others), |values|), |values| as real);
  }

  lemma QuotientsSubtract(a: real, b: real, n: real)
    requires n > 0.0
    ensures a / n - b / n == (a - b) / n
  {
  }

  /** With a sample of twentieths, or of fortieths, the two levels are single order statistics of the exposures. */
  lemma PfeRanks(leg: Identity, node: GridNode, step: nat, exposures: seq<real>, k: nat)
    requires k > 0
    ensures |exposures| == 20 * k + 1 ==> MetricsOf(leg, node, step, exposures).pfe95 == Sorted(exposures)[19 * k]
    ensures |exposures| == 40 * k + 1 ==> MetricsOf(leg, node, step, exposures).pfe975 == Sorted(exposures)[39 * k]
  {
    hide MeanOf, Quantile, Sorted;
    if |exposures| == 20 * k + 1 {
      QuantileOnLine(exposures, PFE_95, 19 * k, 0.0);
    }
    if |exposures| == 40 * k + 1 {
      QuantileOnLine(exposures, PFE_975, 39 * k, 0.0);
    }
  }

  /** The figures of leg `l` at node `step` stand at `l` whole grids and `step` nodes. */
  ghost predicate Placed(metrics: seq<Metrics>, pv: array3<real>, legs: seq<Identity>, grid: seq<GridNode>, l: nat, step: nat)
    requires l < |legs| == pv.Length0 && step < |grid| == pv.Length1
    reads pv
  {
    && l * |grid| + step < |metrics|
    && metrics[l * |grid| + step] == MetricsOf(legs[l], grid[step], step, Exposures(pv, l, step))
    && LabelledFor(metrics[l * |grid| + step], legs[l], grid[step], step)
  }

  ghost predicate LabelledFor(m: Metrics, leg: Identity, node: GridNode, step: nat) {
    && m.leg == leg.leg && m.trade == leg.trade && m.gridStep == step
    && m.pillar == node.pillar && m.yearFraction == node.yearFraction && m.date == node.date
  }

  lemma LabelsHold(leg: Identity, node: GridNode, step: nat, exposures: seq<real>)
    ensures LabelledFor(MetricsOf(leg, node, step, exposures), leg, node, step)
  {
  }

  lemma {:induction false} LegPlaced(pv: array3<real>, leg: Identity, grid: seq<GridNode>, l: nat, steps: nat)
    requires l < pv.Length0 && steps <= |grid| == pv.Length1
    ensures |LegMetrics(pv, leg, grid, l, steps)| == steps
    ensures forall k: nat :: k < steps ==> LegMetrics(pv, leg, grid, l, steps)[k] == MetricsOf(leg, grid[k], k, Exposures(pv, l, k))
  {
    hide MetricsOf, Exposures;
    if steps > 0 {
      LegPlaced(pv, leg, grid, l, steps - 1);
    }
  }

  lemma {:induction false} AllPlaced(pv: array3<real>, legs: seq<Identity>, grid: seq<GridNode>, count: nat)
    requires count <= |legs| == pv.Length0 && |grid| == pv.Length1
    ensures |AllMetrics(pv, legs, grid, count)| == count * |grid|
    ensures forall l: nat, step: nat :: l < count && step < |grid| ==> Placed(AllMetrics(pv, legs, grid, count), pv, legs, grid, l, step)
  {
    hide MetricsOf, Exposures, LegMetrics, LabelledFor;
    if count > 0 {
      AllPlaced(pv, legs, grid, count - 1);
      var before, own := AllMetrics(pv, legs, grid, count - 1), LegMetrics(pv, legs[count - 1], grid, count - 1, |grid|);
      LegPlaced(pv, legs[count - 1], grid, count - 1, |grid|);
      forall l: nat, step: nat | l < count && step < |grid|
        ensures Placed(AllMetrics(pv, legs, grid, count), pv, legs, grid, l, step)
      {
        if l < count - 1 {
          assert Placed(before, pv, legs, grid, l, step);
        } else {
          assert (before + own)[(count - 1) * |grid| + step] == own[step];
          LabelsHold(legs[l], grid[step], step, Exposures(pv, l, step));
        }
      }
    }
  }

  /** Every leg and node has its figures, in order, and they measure its path values. */
  ghost predicate AllMeasured(metrics: seq<Metrics>, pv: array3<real>, legs: seq<Identity>, grid: seq<GridNode>)
    requires |legs| == pv.Length0 && |grid| == pv.Length1
    reads pv
  {
    && |metrics| == |legs| * |grid|
    && forall l: nat, step: nat :: l < |legs| && step < |grid| ==>
         Placed(metrics, pv, legs, grid, l, step) && Measures(metrics[l * |grid| + step], Values(pv, l, step))
  }

  lemma MeasuresAll(pv: array3<real>, legs: seq<Identity>, grid: seq<GridNode>)
    requires |legs| == pv.Length0 && |grid| == pv.Length1 && pv.Length2 > 0
    ensures AllMeasured(AllMetrics(pv, legs, grid, |legs|), pv, legs, grid)
  {
    hide MetricsOf, Measures, AllMetrics;
    var metrics := AllMetrics(pv, legs, grid, |legs|);
    AllPlaced(pv, legs, grid, |legs|);
    forall l: nat, step: nat | l < |legs| && step < |grid|
      ensures Placed(metrics, pv, legs, grid, l, step) && Measures(metrics[l * |grid| + step], Values(pv, l, step))
    {
      assert Placed(metrics, pv, legs, grid, l, step);
      ExposuresMeasure(legs[l], grid[step], step, Values(pv, l, step), Exposures(pv, l, step));
    }
  }

  // ---- Trade-level aggregation ----

  /** Path values of a trade's legs: by leg, then by path. */
  type LegPaths = (int, int) -> real

  function LegExposures(pv: LegPaths, leg: int, paths: nat): seq<real> {
    seq(paths, p requires 0 <= p < paths => PositiveExposure(pv(leg, p)))
  }

  /** The sum of leg exposures on a path. */
  function GrossExposure(pv: LegPaths, legs: nat, path: int): real {
    Sum(l => PositiveExposure(pv(l, path)), legs)
  }

  /** The exposure of the netted legs on a path. */
  function NetExposure(pv: LegPaths, legs: nat, path: int): real {
    PositiveExposure(Sum(l => pv(l, path), legs))
  }

  function GrossPaths(pv: LegPaths, legs: nat, paths: nat): seq<real> {
    seq(paths, p requires 0 <= p < paths => GrossExposure(pv, legs, p))
  }

  function NetPaths(pv: LegPaths, legs: nat, paths: nat): seq<real> {
    seq(paths, p requires 0 <= p < paths => NetExposure(pv, legs, p))
  }

  /** The profile's expected exposure: the sum of the persisted leg figures. */
  function RollupEe(pv: LegPaths, legs: nat, paths: nat): real {
    Sum(l => MeanOf(LegExposures(pv, l, paths)), legs)
  }

  /** Netting never raises a path's exposure. */
  lemma {:induction false} NetBelowGross(pv: LegPaths, legs: nat, path: int)
    ensures 0.0 <= NetExposure(pv, legs, path) <= GrossExposure(pv, legs, path)
  {
    var net, gross := (l: int) => pv(l, path), (l: int) => PositiveExposure(pv(l, path));
    forall l | 0 <= l < legs ensures net(l) <= gross(l) && gross(l) >= 0.0 {
      assert gross(l) == PositiveExposure(pv(l, path));
    }
    SumMonotone(net, gross, legs);
    SumNonNegative(gross, legs);
    SumCongruent(net, l => pv(l, path), legs);
    SumCongruent(gross, l => PositiveExposure(pv(l, path)), legs);
  }

  /** A leg's total exposure over the paths. */
  function LegTotal(pv: LegPaths, leg: int, paths: nat): real {
    Sum(p => PositiveExposure(pv(leg, p)), paths)
  }

  lemma LegMean(pv: LegPaths, leg: int, paths: nat)
    requires paths > 0
    ensures MeanOf(LegExposures(pv, leg, paths)) == (1.0 / (paths as real)) * LegTotal(pv, leg, paths)
  {
    SumCongruent(ToVec(LegExposures(pv, leg, paths)), p => PositiveExposure(pv(leg, p)), paths);
    DividedSum(LegTotal(pv, leg, paths), paths as real, 1.0 / (paths as real));
  }

  lemma GrossMean(pv: LegPaths, legs: nat, paths: nat)
    requires paths > 0
    ensures MeanOf(GrossPaths(pv, legs, paths)) == (1.0 / (paths as real)) * Sum(p => GrossExposure(pv, legs, p), paths)
  {
    SumCongruent(ToVec(GrossPaths(pv, legs, paths)), p => GrossExposure(pv, legs, p), paths);
    DividedSum(Sum(p => GrossExposure(pv, legs, p), paths), paths as real, 1.0 / (paths as real));
  }

  lemma TotalsAgree(pv: LegPaths, legs: nat, paths: nat)
    ensures Sum(l => LegTotal(pv, l, paths), legs) == Sum(p => GrossExposure(pv, legs, p), paths)
  {
    var cell := (l: int, p: int) => PositiveExposure(pv(l, p));
    SumSwaps(cell, legs, paths);
    forall l: int ensures LegTotal(pv, l, paths) == Sum(p => cell(l, p), paths) {
      SumCongruent(p => PositiveExposure(pv(l, p)), p => cell(l, p), paths);
    }
    forall p: int ensures GrossExposure(pv, legs, p) == Sum(l => cell(l, p), legs) {
      SumCongruent(l => PositiveExposure(pv(l, p)), l => cell(l, p), legs);
    }
    SumCongruent(l => LegTotal(pv, l, paths), l => Sum(p => cell(l, p), paths), legs);
    SumCongruent(p => GrossExposure(pv, legs, p), p => Sum(l => cell(l, p), legs), paths);
  }

  /** The summed leg EEs are the mean gross exposure of the paths, and bound the mean net exposure. */
  lemma RollupIsMeanGross(pv: LegPaths, legs: nat, paths: nat)
    requires paths > 0
    ensures RollupEe(pv, legs, paths) == MeanOf(GrossPaths(pv, legs, paths))
    ensures MeanOf(NetPaths(pv, legs, paths)) <= RollupEe(pv, legs, paths)
  {
    hide MeanOf, GrossExposure, LegTotal, NetExposure;
    var inverse := 1.0 / (paths as real);
    forall l: int ensures MeanOf(LegExposures(pv, l, paths)) == inverse * LegTotal(pv, l, paths) {
      LegMean(pv, l, paths);
    }
    SumScales(l => MeanOf(LegExposures(pv, l, paths)), inverse, l => LegTotal(pv, l, paths), legs);
    TotalsAgree(pv, legs, paths);
    GrossMean(pv, legs, paths);
    forall p | 0 <= p < paths ensures NetPaths(pv, legs, paths)[p] <= GrossPaths(pv, legs, paths)[p] {
      NetBelowGross(pv, legs, p);
    }
    MeanOrders(NetPaths(pv, legs, paths), GrossPaths(pv, legs, paths));
  }

  lemma DividedSum(sum: real, n: real, inverse: real)
    requires n > 0.0 && inverse == 1.0 / n
    ensures sum / n == inverse * sum
  {
  }

  lemma MeanOrders(a: seq<real>, b: seq<real>)
    requires |a| == |b| > 0 && forall i :: 0 <= i < |a| ==> a[i] <= b[i]
    ensures MeanOf(a) <= MeanOf(b)
  {
    SumMonotone(ToVec(a), ToVec(b), |a|);
    QuotientOrders(Sum(ToVec(a), |a|), Sum(ToVec(b), |a|), |a| as real);
  }

  lemma QuotientOrders(a: real, b: real, n: real)
    requires a <= b && n > 0.0
    ensures a / n <= b / n
  {
    var low, high := a / n, b / n;
    assert Mul(high - low, n) == b - a;
    assert Product(high - low, n) == b - a;
  }

  /** The net quantiles of a trade are bounded by its gross ones. */
  lemma NetQuantileBelowGross(pv: LegPaths, legs: nat, paths: nat, q: real)
    ensures Quantile(NetPaths(pv, legs, paths), q) <= Quantile(GrossPaths(pv, legs, paths), q)
  {
    forall p | 0 <= p < paths ensures NetPaths(pv, legs, paths)[p] <= GrossPaths(pv, legs, paths)[p] {
      NetBelowGross(pv, legs, p);
    }
    QuantileDominated(NetPaths(pv, legs, paths), GrossPaths(pv, legs, paths), q);
  }

  /** The profile's quantiles: the sum of the persisted leg figures. */
  function RollupPfe(pv: LegPaths, legs: nat, paths: nat, q: real): real {
    Sum(l => Quantile(LegExposures(pv, l, paths), q), legs)
  }

  function PathsUpTo(paths: nat): seq<int> {
    seq(paths, p => p)
  }

  function LegExposure(pv: LegPaths): (int, int) -> real {
    (l, p) => PositiveExposure(pv(l, p))
  }

  /** No leg's exposure rises from one path to another where another leg's falls. */
  ghost predicate LegsAlike(pv: LegPaths, legs: nat, paths: nat) {
    forall l, m, p, q :: 0 <= l < legs && 0 <= m < legs && 0 <= p < paths && 0 <= q < paths
                         && PositiveExposure(pv(l, p)) < PositiveExposure(pv(l, q)) ==>
      PositiveExposure(pv(m, p)) <= PositiveExposure(pv(m, q))
  }

  lemma RollupIsQuantiles(pv: LegPaths, legs: nat, paths: nat, q: real)
    ensures Quantile(Along(Total(LegExposure(pv), legs), PathsUpTo(paths)), q) == Quantile(GrossPaths(pv, legs, paths), q)
    ensures Quantiles(LegExposure(pv), legs, PathsUpTo(paths), q) == RollupPfe(pv, legs, paths, q)
  {
    hide Quantile, Sum;
    var x, ps := LegExposure(pv), PathsUpTo(paths);
    forall p | 0 <= p < paths ensures Total(x, legs)(p) == GrossExposure(pv, legs, p) {
      SumCongruent(On(x, p), l => PositiveExposure(pv(l, p)), legs);
    }
    assert Along(Total(x, legs), ps) == GrossPaths(pv, legs, paths);
    forall l | 0 <= l < legs ensures Along(Part(x, l), ps) == LegExposures(pv, l, paths) {
    }
    SumCongruent(Levels(x, ps, q), l => Quantile(LegExposures(pv, l, paths), q), legs);
  }

  /** Unlike the expected exposure, the summed quantiles are the quantile of the gross exposure, at every level, exactly
      when the legs' exposures rise and fall together across the paths. */
  lemma PfeAdditive(pv: LegPaths, legs: nat, paths: nat)
    ensures (forall q :: RollupPfe(pv, legs, paths, q) == Quantile(GrossPaths(pv, legs, paths), q)) <==> LegsAlike(pv, legs, paths)
  {
    hide Quantile, Quantiles, RollupPfe, GrossPaths, Total;
    var x, ps := LegExposure(pv), PathsUpTo(paths);
    forall q ensures Quantile(Along(Total(x, legs), ps), q) == Quantile(GrossPaths(pv, legs, paths), q)
               && Quantiles(x, legs, ps, q) == RollupPfe(pv, legs, paths, q)
    {
      RollupIsQuantiles(pv, legs, paths, q);
    }
    QuantilesAdd(x, legs, ps);
    AlikeOnPaths(pv, legs, paths);
  }

  lemma AlikeOnPaths(pv: LegPaths, legs: nat, paths: nat)
    ensures Alike(LegExposure(pv), legs, PathsUpTo(paths)) <==> LegsAlike(pv, legs, paths)
  {
    hide PositiveExposure;
    var x, ps := LegExposure(pv), PathsUpTo(paths);
    forall p ensures p in ps <==> 0 <= p < paths {
      assert 0 <= p < paths ==> ps[p] == p;
    }
    if Alike(x, legs, ps) {
      forall l, m, p, q | 0 <= l < legs && 0 <= m < legs && 0 <= p < paths && 0 <= q < paths
                          && PositiveExposure(pv(l, p)) < PositiveExposure(pv(l, q))
        ensures PositiveExposure(pv(m, p)) <= PositiveExposure(pv(m, q))
      {
        assert p in ps && q in ps && x(l, p) < x(l, q);
        assert x(m, p) <= x(m, q);
      }
    }
  }
}
