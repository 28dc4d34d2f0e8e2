/** From aligned price histories to volatilities, a repaired correlation matrix and its factor. */
module Calibrator {
  import opened Options
  import opened Reals
  import opened Sums
  import opened Matrices
  import Correlation
  import Cholesky
  import NearestCorrelation
  import RepairTheory
  import opened PriceHistory

  const MAX_CHOLESKY_ATTEMPTS: nat := 8
  const OFF_DIAGONAL_SHRINK: real := 1.0 - 0.00000001
  const HIGHAM_ITERATIONS: int := 100
  const HIGHAM_TOL: real := 0.00000001

  datatype Outcome = Calibrated | RepairFailed | CholeskyFailed

  /** The pair the simulation may use: an exact correlation matrix and its lower factor. */
  ghost predicate Coherent(c: Matrix, l: Matrix, n: nat) {
    && Symmetric(c, n) && UnitDiagonal(c, n) && Psd(c, n)
    && Cholesky.LowerTriangular(l, n)
    && (forall i :: 0 <= i < n ==> At(l, i, i) > 0.0)
    && (forall i, j :: 0 <= i < n && 0 <= j < n ==> Dot(Row(l, i), Row(l, j), n) == At(c, i, j))
  }

  lemma FactorsAreCoherent(c: Matrix, l: Matrix, n: nat)
    requires Symmetric(c, n) && UnitDiagonal(c, n) && Cholesky.Factors(l, c, n)
    ensures Coherent(c, l, n)
  {
    Cholesky.FactorIsPsd(l, c, n);
    forall i, j | 0 <= i < n && 0 <= j < n ensures Dot(Row(l, i), Row(l, j), n) == At(c, i, j) {
      Cholesky.FactorReproduces(l, c, i, j, n);
    }
  }

  /** `c` with its off-diagonal entries pulled towards zero. */
  function Shrunk(c: Matrix, n: nat): Matrix {
    Build(n, (i, j) => if i == j then At(c, i, j) else At(c, i, j) * OFF_DIAGONAL_SHRINK)
  }

  method ShrinkOffDiagonal(c: array2<real>, n: nat)
    requires c.Length0 == n && c.Length1 == n
    modifies c
    ensures Of(c) == Shrunk(old(Of(c)), n)
  {
    ghost var before := Of(c);
    for i := 0 to n
      invariant forall r, k :: 0 <= r < n && 0 <= k < n ==>
                  c[r, k] == if r < i && r != k then old(c[r, k]) * OFF_DIAGONAL_SHRINK else old(c[r, k])
    {
      for j := 0 to n
        invariant forall r, k :: 0 <= r < n && 0 <= k < n ==>
                    c[r, k] == if (r < i || (r == i && k < j)) && r != k then old(c[r, k]) * OFF_DIAGONAL_SHRINK
                               else old(c[r, k])
      {
        if i != j {
          c[i, j] := c[i, j] * OFF_DIAGONAL_SHRINK;
        }
      }
    }
    MatricesEqual(Of(c), Shrunk(before, n), n);
  }

  ghost predicate Factored(c: Matrix, n: nat) {
    Cholesky.MatrixValid(c, n) && exists l :: Cholesky.Factors(l, c, n)
  }

  /** How the attempts end, after how many shrinks, and with which matrix. */
  datatype Attempt = Attempt(outcome: Outcome, c: Matrix, shrinks: nat)

  ghost function RepairAgain(e: Elementary, c: Matrix, n: nat): NearestCorrelation.Repair
    requires e.Lawful()
  {
    NearestCorrelation.RepairOf(e, c, n, HIGHAM_ITERATIONS, HIGHAM_TOL)
  }

  /** Factor, or shrink and repair and try again. */
  ghost function AttemptFrom(e: Elementary, c: Matrix, shrinks: nat, n: nat): Attempt
    requires e.Lawful()
    decreases MAX_CHOLESKY_ATTEMPTS - shrinks
  {
    if shrinks >= MAX_CHOLESKY_ATTEMPTS then Attempt(CholeskyFailed, c, shrinks)
    else if Factored(c, n) then Attempt(Calibrated, c, shrinks)
    else
      var r := RepairAgain(e, Shrunk(c, n), n);
      if r.status != NearestCorrelation.Ok then Attempt(RepairFailed, c, shrinks + 1)
      else AttemptFrom(e, r.matrix, shrinks + 1, n)
  }

  /** Repair the sample matrix, then try to factor it. */
  ghost function AttemptOn(e: Elementary, sample: Matrix, n: nat): Attempt
    requires e.Lawful()
  {
    var r := RepairAgain(e, sample, n);
    if r.status != NearestCorrelation.Ok then Attempt(RepairFailed, sample, 0) else AttemptFrom(e, r.matrix, 0, n)
  }

  /** Repairs the sample matrix, then factors it, shrinking and repairing again while that fails.
      However many attempts it takes, the returned pair is coherent. */
  method RepairAndFactor(e: Elementary, sample: array2<real>, n: nat)
    returns (outcome: Outcome, c: array2<real>, l: array2<real>)
    requires e.Lawful() && sample.Length0 == n && sample.Length1 == n
    ensures outcome == AttemptOn(e, Of(sample), n).outcome
    ensures outcome == Calibrated ==>
              && c.Length0 == n && c.Length1 == n && l.Length0 == n && l.Length1 == n
              && Of(c) == AttemptOn(e, Of(sample), n).c && Coherent(Of(c), Of(l), n)
  {
    hide NearestCorrelation.RepairOf, Coherent, Symmetric, UnitDiagonal, Cholesky.Factors, Cholesky.MatrixValid, Shrunk;
    l := new real[0, 0];
    var status, iterations, delta;
    status, c, iterations, delta := NearestCorrelation.NearestCorrelationHigham(e, sample, n, HIGHAM_ITERATIONS, HIGHAM_TOL);
    if status != NearestCorrelation.Ok {
      return RepairFailed, c, l;
    }
    RepairIsSound(e, Of(sample), n);
    var attempt := 0;
    while attempt < MAX_CHOLESKY_ATTEMPTS
      invariant 0 <= attempt <= MAX_CHOLESKY_ATTEMPTS
      invariant c.Length0 == n && c.Length1 == n && fresh(c)
      invariant Symmetric(Of(c), n) && UnitDiagonal(Of(c), n)
      invariant AttemptOn(e, Of(sample), n) == AttemptFrom(e, Of(c), attempt, n)
    {
      var factored, lower := Cholesky.CholeskyDecompose(e, c, n);
      if factored == Cholesky.Ok {
        FactorsAreCoherent(Of(c), Of(lower), n);
        return Calibrated, c, lower;
      }
      ShrinkOffDiagonal(c, n);
      RepairIsSound(e, Of(c), n);
      var again, repaired, passes, moved :=
        NearestCorrelation.NearestCorrelationHigham(e, c, n, HIGHAM_ITERATIONS, HIGHAM_TOL);
      if again != NearestCorrelation.Ok {
        return RepairFailed, c, l;
      }
      c := repaired;
      attempt := attempt + 1;
    }
    return CholeskyFailed, c, l;
  }

  lemma RepairIsSound(e: Elementary, a: Matrix, n: nat)
    requires e.Lawful()
    ensures var r := RepairAgain(e, a, n);
            r.status == NearestCorrelation.Ok ==> Symmetric(r.matrix, n) && UnitDiagonal(r.matrix, n)
  {
    RepairTheory.RepairShape(e, a, n, HIGHAM_ITERATIONS, HIGHAM_TOL);
  }

  datatype Config = Config(asOf: int, asOfYear: int, lookbackDays: int, minObservations: nat, adjusted: int,
                           annualizationDays: int)

  predicate ConfigValid(config: Config) {
    && config.lookbackDays > 0 && config.minObservations >= 2 && config.annualizationDays > 0
    && (config.adjusted == 0 || config.adjusted == 1) && config.asOfYear > 0
  }

  datatype Failure = BadConfig | NoFactors | MissingHistory | MissingSpot | TooFewDates | MissingClose
    | Repair | Factorisation

  /** The squared distances of a series from a level. */
  function Scatter(s: seq<real>, level: real): Vec {
    k => Mul(ToVec(s)(k) - level, ToVec(s)(k) - level)
  }

  function VarianceAbout(s: seq<real>, level: real): real {
    if |s| < 2 then 0.0 else Over(Sum(Scatter(s, level), |s|), (|s| - 1) as real)
  }

  /** The sample deviation about any level the caller takes for the mean. */
  method SampleStdev(e: Elementary, values: seq<real>, mean: real) returns (stdev: real)
    requires e.Lawful()
    ensures stdev >= 0.0 && stdev * stdev == VarianceAbout(values, mean)
  {
    if |values| < 2 {
      return 0.0;
    }
    var acc := 0.0;
    for i := 0 to |values|
      invariant acc == Sum(Scatter(values, mean), i) && acc >= 0.0
    {
      var d := values[i] - mean;
      assert Product(d, d) == d * d;
      assert ToVec(values)(i) == values[i];
      assert Scatter(values, mean)(i) == Mul(ToVec(values)(i) - mean, ToVec(values)(i) - mean);
      assert Sum(Scatter(values, mean), i + 1) == acc + Mul(d, d);
      acc := acc + d * d;
    }
    QuotientNonNegative(acc, (|values| - 1) as real);
    e.SqrtOf(Over(acc, (|values| - 1) as real));
    stdev := e.sqrt(Over(acc, (|values| - 1) as real));
  }

  lemma QuotientNonNegative(a: real, b: real)
    requires a >= 0.0 && b > 0.0
    ensures Over(a, b) >= 0.0
  {
    assert Over(a, b) * b == a;
    assert Product(Over(a, b), b) == a;
  }

  method Volatilities(e: Elementary, series: seq<seq<real>>, annualizationDays: int) returns (vols: seq<real>)
    requires e.Lawful() && annualizationDays > 0
    ensures AreVolatilities(vols, series, annualizationDays)
  {
    hide MeanOf, Scatter, IsVolatility;
    e.SqrtOf(annualizationDays as real);
    var scale := e.sqrt(annualizationDays as real);
    vols := [];
    for f := 0 to |series|
      invariant |vols| == f
      invariant forall g :: 0 <= g < f ==> IsVolatility(vols[g], series[g], annualizationDays)
    {
      var mean := Correlation.Mean(series[f]);
      var daily := SampleStdev(e, series[f], mean);
      Annualised(daily, scale, series[f], annualizationDays);
      vols := vols + [daily * scale];
    }
  }

  lemma Annualised(daily: real, scale: real, s: seq<real>, days: int)
    requires daily >= 0.0 && daily * daily == VarianceAbout(s, MeanOf(s)) && scale >= 0.0 && scale * scale == days as real
    ensures IsVolatility(daily * scale, s, days)
  {
    hide MeanOf, Scatter;
    if |s| < 2 {
      SquareVanishes(daily);
    } else {
      var scatter, count := Sum(Scatter(s, MeanOf(s)), |s|), (|s| - 1) as real;
      assert Over(scatter, count) * count == scatter;
      Scaled(daily, scale, Over(scatter, count), days as real, count, scatter);
    }
  }

  lemma Scaled(daily: real, scale: real, variance: real, days: real, count: real, scatter: real)
    requires daily >= 0.0 && daily * daily == variance && scale >= 0.0 && scale * scale == days && variance * count == scatter
    ensures daily * scale >= 0.0 && Mul(Mul(daily * scale, daily * scale), count) == Mul(days, scatter)
  {
    assert Product(daily, scale) == daily * scale;
    assert Mul(daily * daily, scale * scale) == Mul(variance, days);
    assert Mul(variance * count, days) == Mul(scatter, days);
  }

  /** The first factor without a history or without a positive close on the date. */
  ghost predicate FirstMissing(factors: seq<string>, closes: History, date: int, f: int) {
    && 0 <= f < |factors| && (factors[f] in closes ==> !Priced(closes[factors[f]], date))
    && forall g :: 0 <= g < f ==> factors[g] in closes && Priced(closes[factors[g]], date)
  }

  ghost predicate SpotsReady(factors: seq<string>, closes: History, date: int) {
    forall f :: 0 <= f < |factors| ==> factors[f] in closes && Priced(closes[factors[f]], date)
  }

  /** The closes on the date, or the reason the first factor without one gives. */
  method SpotsOn(factors: seq<string>, closes: History, date: int) returns (failure: Option<Failure>, spots: seq<real>)
    ensures failure.None? <==> SpotsReady(factors, closes, date)
    ensures failure.None? ==> |spots| == |factors| && forall f :: 0 <= f < |factors| ==>
              CloseOn(closes[factors[f]], date) == Some(spots[f])
    ensures failure.Some? ==> exists f | FirstMissing(factors, closes, date, f) ::
              failure.value == if factors[f] in closes then MissingSpot else MissingHistory
  {
    spots := [];
    for f := 0 to |factors|
      invariant |spots| == f
      invariant forall g :: 0 <= g < f ==> factors[g] in closes && Priced(closes[factors[g]], date)
      invariant forall g :: 0 <= g < f ==> CloseOn(closes[factors[g]], date) == Some(spots[g])
    {
      if factors[f] !in closes {
        assert FirstMissing(factors, closes, date, f);
        return Some(MissingHistory), spots;
      }
      var spot := CloseOnDate(closes[factors[f]], date);
      if spot.None? || spot.value <= 0.0 {
        assert FirstMissing(factors, closes, date, f);
        return Some(MissingSpot), spots;
      }
      spots := spots + [spot.value];
    }
    return None, spots;
  }

  /** Volatilities and the correlation pair from aligned returns. */
  method CalibrateReturns(e: Elementary, series: seq<seq<real>>, annualizationDays: int)
    returns (outcome: Outcome, vols: seq<real>, c: array2<real>, l: array2<real>)
    requires e.Lawful() && annualizationDays > 0
    ensures AreVolatilities(vols, series, annualizationDays)
    ensures outcome == AttemptOn(e, Correlation.Sample(e, series), |series|).outcome
    ensures outcome == Calibrated ==>
              && c.Length0 == |series| && c.Length1 == |series| && l.Length0 == |series| && l.Length1 == |series|
              && Of(c) == AttemptOn(e, Correlation.Sample(e, series), |series|).c && Coherent(Of(c), Of(l), |series|)
  {
    hide Coherent, IsVolatility, AttemptOn, Correlation.Sample;
    vols := Volatilities(e, series, annualizationDays);
    var estimate := Correlation.SampleCorrelation(e, series);
    outcome, c, l := RepairAndFactor(e, estimate, |series|);
  }

  /** The volatility squared, times one less than the count, is the annual number of days times the squared distances from
      the mean; fewer than two returns have none. */
  ghost predicate IsVolatility(vol: real, s: seq<real>, days: int) {
    && vol >= 0.0
    && (|s| < 2 ==> vol == 0.0)
    && (|s| >= 2 ==> Mul(Mul(vol, vol), (|s| - 1) as real) == Mul(days as real, Sum(Scatter(s, MeanOf(s)), |s|)))
  }

  ghost predicate AreVolatilities(vols: seq<real>, series: seq<seq<real>>, annualizationDays: int) {
    |vols| == |series| && forall f :: 0 <= f < |series| ==> IsVolatility(vols[f], series[f], annualizationDays)
  }

  /** A series has one volatility a year, and its squares are in the ratio of the annual days. */
  lemma VolatilityScales(vol: real, other: real, s: seq<real>, days: int, otherDays: int)
    requires IsVolatility(vol, s, days) && IsVolatility(other, s, otherDays)
    ensures Mul(vol, vol) * (otherDays as real) == Mul(other, other) * (days as real)
    ensures days == otherDays ==> vol == other
  {
    hide MeanOf, Scatter;
    if |s| >= 2 {
      SquaresInRatio(Mul(vol, vol), Mul(other, other), (|s| - 1) as real, days as real, otherDays as real,
                     Sum(Scatter(s, MeanOf(s)), |s|));
      if days == otherDays {
        SquaresMatch(vol, other, (|s| - 1) as real);
      }
    }
  }

  lemma SquaresInRatio(a: real, b: real, count: real, days: real, otherDays: real, scatter: real)
    requires count > 0.0 && Mul(a, count) == Mul(days, scatter) && Mul(b, count) == Mul(otherDays, scatter)
    ensures a * otherDays == b * days
  {
    assert Mul(Mul(a, count), otherDays) == Mul(Mul(days, scatter), otherDays);
    assert Mul(Mul(b, count), days) == Mul(Mul(otherDays, scatter), days);
    assert Product(a * otherDays - b * days, count) == Mul(a, count) * otherDays - Mul(b, count) * days;
  }

  lemma SquaresMatch(a: real, b: real, count: real)
    requires a >= 0.0 && b >= 0.0 && count > 0.0 && Mul(Mul(a, a), count) == Mul(Mul(b, b), count)
    ensures a == b
  {
    assert Product(a * a - b * b, count) == Mul(Mul(a, a), count) - Mul(Mul(b, b), count);
    SquaresOrder(a, b);
    SquaresOrder(b, a);
  }

  /** The dates every factor is quoted on, in order. */
  ghost predicate AreCommon(factors: seq<string>, closes: History, dates: seq<int>) {
    Ascending(dates) && forall x :: x in dates <==> QuotedByAll(factors, closes, |factors|, x)
  }

  /** The settings are valid, every factor has its spot, and enough common dates all have positive closes. */
  ghost predicate Aligns(factors: seq<string>, closes: History, config: Config, dates: seq<int>) {
    && ConfigValid(config) && factors != [] && SpotsReady(factors, closes, config.asOf)
    && |dates| >= config.minObservations + 1 && AllPriced(factors, closes, dates)
  }

  /** The calibration end to end: the reason for every failure, and on success the spots of the day, the
      volatilities of the aligned returns, and the repaired and factored sample correlations. */
  method CalibrateFromPriceHistory(e: Elementary, factors: seq<string>, closes: History, config: Config)
    returns (failure: Option<Failure>, spots: seq<real>, vols: seq<real>, c: array2<real>, l: array2<real>,
             ghost dates: seq<int>, ghost series: seq<seq<real>>)
    requires e.Lawful()
    ensures failure == Some(BadConfig) <==> !ConfigValid(config)
    ensures failure == Some(NoFactors) <==> ConfigValid(config) && factors == []
    ensures failure == Some(MissingHistory) || failure == Some(MissingSpot) <==>
              ConfigValid(config) && factors != [] && !SpotsReady(factors, closes, config.asOf)
    ensures failure == Some(MissingHistory) || failure == Some(MissingSpot) ==>
              exists f | FirstMissing(factors, closes, config.asOf, f) ::
                failure.value == if factors[f] in closes then MissingSpot else MissingHistory
    ensures ConfigValid(config) && factors != [] && SpotsReady(factors, closes, config.asOf) ==>
              && AreCommon(factors, closes, dates)
              && (failure == Some(TooFewDates) <==> |dates| < config.minObservations + 1)
              && (failure == Some(MissingClose) <==>
                    |dates| >= config.minObservations + 1 && !AllPriced(factors, closes, dates))
              && config.asOf in dates
              && (failure == Some(MissingClose) ==> SomeCloseNotPositive(factors, closes, dates))
    ensures failure == Some(TooFewDates) || failure == Some(MissingClose) ==>
              ConfigValid(config) && factors != [] && SpotsReady(factors, closes, config.asOf)
    ensures Aligns(factors, closes, config, dates) <==>
              failure.None? || failure == Some(Repair) || failure == Some(Factorisation)
    ensures Aligns(factors, closes, config, dates) ==>
              && AreReturns(e, factors, closes, dates, series) && |series| == |factors|
              && failure == FailureOf(AttemptOn(e, Correlation.Sample(e, series), |factors|).outcome)
    ensures failure.None? ==>
              && |spots| == |factors|
              && (forall f :: 0 <= f < |factors| ==> CloseOn(closes[factors[f]], config.asOf) == Some(spots[f]))
              && AreVolatilities(vols, series, config.annualizationDays)
              && c.Length0 == |factors| && c.Length1 == |factors|
              && l.Length0 == |factors| && l.Length1 == |factors|
              && Of(c) == AttemptOn(e, Correlation.Sample(e, series), |factors|).c
              && Coherent(Of(c), Of(l), |factors|)
  {
    hide Coherent, AreReturns, AllPriced, AreCommon, AreVolatilities, AttemptOn, Correlation.Sample, SomeCloseNotPositive;
    spots, vols, dates, series := [], [], [], [];
    c, l := new real[0, 0], new real[0, 0];
    if config.lookbackDays <= 0 || config.minObservations < 2 || config.annualizationDays <= 0
       || (config.adjusted != 0 && config.adjusted != 1) || config.asOfYear <= 0 {
      failure := Some(BadConfig);
      return;
    }
    if |factors| == 0 {
      failure := Some(NoFactors);
      return;
    }
    failure, spots := SpotsOn(factors, closes, config.asOf);
    if failure.Some? {
      return;
    }
    var common := CommonDates(factors, closes);
    dates := common.value;
    CommonIs(factors, closes, dates);
    CommonAreQuoted(factors, closes, dates, config.asOf);
    if |common.value| < config.minObservations + 1 {
      failure := Some(TooFewDates);
      return;
    }
    var rows := AlignReturns(e, factors, closes, common.value);
    if rows.None? {
      failure := Some(MissingClose);
      return;
    }
    series := rows.value;
    SeriesShape(e, factors, closes, dates, series);
    var outcome;
    outcome, vols, c, l := CalibrateReturns(e, rows.value, config.annualizationDays);
    failure := FailureOf(outcome);
  }

  function FailureOf(outcome: Outcome): Option<Failure> {
    match outcome
    case Calibrated => None
    case RepairFailed => Some(Repair)
    case CholeskyFailed => Some(Factorisation)
  }

  /** Some factor has a close on a common date that is not positive. */
  ghost predicate SomeCloseNotPositive(factors: seq<string>, closes: History, dates: seq<int>) {
    exists f, k :: 0 <= f < |factors| && 0 <= k < |dates| && factors[f] in closes
                   && CloseOn(closes[factors[f]], dates[k]).Some? && CloseOn(closes[factors[f]], dates[k]).value <= 0.0
  }

  /** On a common date every factor has a close, so only one that is not positive can be missing; and where every factor
      has its spot, the valuation date is a common date. */
  lemma CommonAreQuoted(factors: seq<string>, closes: History, dates: seq<int>, asOf: int)
    requires AreCommon(factors, closes, dates)
    ensures !AllPriced(factors, closes, dates) ==> SomeCloseNotPositive(factors, closes, dates)
    ensures SpotsReady(factors, closes, asOf) ==> asOf in dates
  {
    if !AllPriced(factors, closes, dates) {
      var f, k :| 0 <= f < |factors| && 0 <= k < |dates| && !(factors[f] in closes && Priced(closes[factors[f]], dates[k]));
      assert dates[k] in dates && QuotedByAll(factors, closes, |factors|, dates[k]);
      CloseOnIffQuoted(closes[factors[f]], dates[k]);
    }
    if SpotsReady(factors, closes, asOf) {
      forall f | 0 <= f < |factors| ensures factors[f] in closes && Quoted(closes[factors[f]], asOf) {
        assert Priced(closes[factors[f]], asOf);
        CloseOnIffQuoted(closes[factors[f]], asOf);
      }
      assert QuotedByAll(factors, closes, |factors|, asOf);
    }
  }

  lemma CommonIs(factors: seq<string>, closes: History, dates: seq<int>)
    requires Ascending(dates) && forall x :: x in dates <==> QuotedByAll(factors, closes, |factors|, x)
    ensures AreCommon(factors, closes, dates)
  {
  }

  lemma SeriesShape(e: Elementary, factors: seq<string>, closes: History, dates: seq<int>, series: seq<seq<real>>)
    requires AreReturns(e, factors, closes, dates, series) && |dates| > 0
    ensures |series| == |factors| && Correlation.Aligned(series, |dates| - 1)
  {
  }
}
