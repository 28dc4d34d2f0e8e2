/** Geometric Brownian paths along a time grid, for one factor and for correlated factors. */
module GbmEvolution {
  import opened Reals
  import opened Sums
  import opened Matrices
  import opened Cholesky
  import opened NormalRandom

  const TIME_STEP_TOLERANCE := 0.000000000001

  datatype SingleFactorSpec = SingleFactorSpec(spot: real, rate: real, dividendYield: real, volatility: real)

  datatype MultiFactorSpec = MultiFactorSpec(spots: seq<real>, rates: seq<real>, dividendYields: seq<real>,
                                             volatilities: seq<real>)
  {
    function Factor(f: nat): SingleFactorSpec
      requires f < |spots| == |rates| == |dividendYields| == |volatilities|
    {
      SingleFactorSpec(spots[f], rates[f], dividendYields[f], volatilities[f])
    }
  }

  /** Year fractions far enough apart to simulate between. */
  ghost predicate Increasing(times: seq<real>) {
    forall k :: 0 < k < |times| ==> times[k] - times[k - 1] > TIME_STEP_TOLERANCE
  }

  method TimesIncrease(times: seq<real>) returns (ok: bool)
    ensures ok <==> Increasing(times)
  {
    var k := 1;
    while k < |times|
      invariant 1 <= k && forall j :: 0 < j < k && j < |times| ==> times[j] - times[j - 1] > TIME_STEP_TOLERANCE
    {
      if times[k] - times[k - 1] <= TIME_STEP_TOLERANCE {
        return false;
      }
      k := k + 1;
    }
    return true;
  }

  predicate SpecValid(spec: SingleFactorSpec) {
    spec.spot > 0.0 && spec.volatility >= 0.0
  }

  predicate MultiShapeValid(spec: MultiFactorSpec) {
    0 < |spec.spots| == |spec.rates| == |spec.dividendYields| == |spec.volatilities|
  }

  ghost predicate MultiValid(spec: MultiFactorSpec) {
    MultiShapeValid(spec) && forall f :: 0 <= f < |spec.spots| ==> SpecValid(spec.Factor(f))
  }

  function Drift(spec: SingleFactorSpec, dt: real): real {
    Mul(spec.rate - spec.dividendYield - 0.5 * spec.volatility * spec.volatility, dt)
  }

  function Diffusion(e: Elementary, spec: SingleFactorSpec, dt: real): real {
    Mul(spec.volatility, e.sqrt(dt))
  }

  /** One exact step from a spot, with a standard normal shock. */
  function Moved(e: Elementary, spec: SingleFactorSpec, dt: real, spot: real, shock: real): real {
    Mul(spot, e.exp(Drift(spec, dt) + Mul(Diffusion(e, spec, dt), shock)))
  }

  function StepLength(times: seq<real>, step: nat): real
    requires 0 < step < |times|
  {
    times[step] - times[step - 1]
  }

  /** Where a path's normals stand in the stream: by step, then by path. */
  function DrawIndex(paths: nat, step: nat, path: nat): nat
    requires step > 0
  {
    (step - 1) * paths + path
  }

  /** The simulated spot of one factor: each step and path uses its own normal. */
  ghost function SinglePath(e: Elementary, times: seq<real>, spec: SingleFactorSpec, paths: nat, z: nat -> real,
                            step: nat, path: nat): real
    requires step < |times|
    decreases step
  {
    if step == 0 then spec.spot
    else Moved(e, spec, StepLength(times, step), SinglePath(e, times, spec, paths, z, step - 1, path),
               z(DrawIndex(paths, step, path)))
  }

  /** A run of the normal stream as a vector. */
  ghost function Shocks(z: nat -> real, base: nat): Vec {
    (j: int) => if j < 0 then 0.0 else z(base + j)
  }

  /** The simulated spot of factor `f`: its shock is row `f` of the factor applied to the path's normals. */
  ghost function MultiPath(e: Elementary, times: seq<real>, spec: MultiFactorSpec, lower: Matrix, paths: nat,
                           z: nat -> real, f: nat, step: nat, path: nat): real
    requires step < |times| && MultiShapeValid(spec) && f < |spec.spots|
    decreases step
  {
    if step == 0 then spec.spots[f]
    else Moved(e, spec.Factor(f), StepLength(times, step), MultiPath(e, times, spec, lower, paths, z, f, step - 1, path),
               LowerImage(lower, Shocks(z, DrawIndex(paths, step, path) * |spec.spots|), f))
  }

  // ---- The paths ----

  /** With one factor and the unit factor, the multi-factor paths are the single-factor paths. */
  lemma {:induction false} OneFactorAgrees(e: Elementary, times: seq<real>, spec: MultiFactorSpec, lower: Matrix, paths: nat,
                                           z: nat -> real, step: nat, path: nat)
    requires step < |times| && MultiShapeValid(spec) && |spec.spots| == 1 && At(lower, 0, 0) == 1.0
    ensures MultiPath(e, times, spec, lower, paths, z, 0, step, path)
         == SinglePath(e, times, spec.Factor(0), paths, z, step, path)
    decreases step
  {
    hide Moved;
    if step > 0 {
      OneFactorAgrees(e, times, spec, lower, paths, z, step - 1, path);
      var base := DrawIndex(paths, step, path);
      UnitImage(lower, Shocks(z, base));
      assert base * |spec.spots| == base;
    }
  }

  lemma UnitImage(lower: Matrix, x: Vec)
    requires At(lower, 0, 0) == 1.0
    ensures LowerImage(lower, x, 0) == x(0)
  {
    DotOfNone(Row(lower, 0), x);
    DotStep(Row(lower, 0), x, 0);
    assert Mul(Row(lower, 0)(0), x(0)) == Mul(1.0, x(0));
  }

  /** The step's noise has the variance the volatility asks for, and its drift makes up for what that variance adds: the
      growth per step is that of the carry alone. */
  lemma StepVariance(e: Elementary, spec: SingleFactorSpec, dt: real)
    requires e.Lawful() && spec.volatility >= 0.0 && dt >= 0.0
    ensures var noise := Diffusion(e, spec, dt);
            && noise >= 0.0
            && Mul(noise, noise) == Mul(Mul(spec.volatility, spec.volatility), dt)
            && Drift(spec, dt) + 0.5 * Mul(noise, noise) == Mul(spec.rate - spec.dividendYield, dt)
  {
    e.SqrtOf(dt);
    hide Elementary.Lawful;
    NoiseSquared(spec.volatility, e.sqrt(dt), dt);
    DriftSplits(spec.rate - spec.dividendYield, spec.volatility, dt);
  }

  lemma NoiseSquared(volatility: real, root: real, dt: real)
    requires volatility >= 0.0 && root >= 0.0 && root * root == dt
    ensures Mul(volatility, root) >= 0.0 && Mul(Mul(volatility, root), Mul(volatility, root)) == Mul(Mul(volatility, volatility), dt)
  {
    assert Product(volatility, root) == Mul(volatility, root);
    assert Mul(Mul(volatility, volatility), root * root) == Mul(Mul(volatility, volatility), dt);
  }

  lemma DriftSplits(carry: real, volatility: real, dt: real)
    ensures Mul(carry - 0.5 * volatility * volatility, dt) + 0.5 * Mul(Mul(volatility, volatility), dt) == Mul(carry, dt)
  {
    assert Mul(carry - 0.5 * volatility * volatility, dt) == Mul(carry, dt) - 0.5 * Mul(volatility * volatility, dt);
  }

  /** Logarithms of a path's spots move by the carry, less half the step's variance, plus the step's noise. */
  lemma PathStepIsLogNormal(e: Elementary, times: seq<real>, spec: MultiFactorSpec, lower: Matrix, paths: nat, z: nat -> real,
                            f: nat, step: nat, path: nat)
    requires e.Lawful() && MultiValid(spec) && f < |spec.spots| && 0 < step < |times| && StepLength(times, step) >= 0.0
    ensures var before, after := MultiPath(e, times, spec, lower, paths, z, f, step - 1, path), MultiPath(e, times, spec, lower, paths, z, f, step, path);
            var dt, noise := StepLength(times, step), Diffusion(e, spec.Factor(f), StepLength(times, step));
            && before > 0.0 && after > 0.0
            && Mul(noise, noise) == Mul(Mul(spec.volatilities[f], spec.volatilities[f]), dt)
            && e.ln(after) - e.ln(before) == Mul(spec.rates[f] - spec.dividendYields[f], dt) - 0.5 * Mul(noise, noise)
                 + Mul(noise, LowerImage(lower, Shocks(z, DrawIndex(paths, step, path) * |spec.spots|), f))
  {
    hide LowerImage, Shocks, Elementary.Lawful;
    PathsPositive(e, times, spec, lower, paths, z, f, step - 1, path);
    PathsPositive(e, times, spec, lower, paths, z, f, step, path);
    assert SpecValid(spec.Factor(f));
    StepVariance(e, spec.Factor(f), StepLength(times, step));
    LogOfMoved(e, spec.Factor(f), StepLength(times, step), MultiPath(e, times, spec, lower, paths, z, f, step - 1, path),
               LowerImage(lower, Shocks(z, DrawIndex(paths, step, path) * |spec.spots|), f));
  }

  lemma LogOfMoved(e: Elementary, spec: SingleFactorSpec, dt: real, spot: real, shock: real)
    requires e.Lawful() && spot > 0.0
    ensures e.ln(Moved(e, spec, dt, spot, shock)) == e.ln(spot) + Drift(spec, dt) + Mul(Diffusion(e, spec, dt), shock)
  {
    var move := Drift(spec, dt) + Mul(Diffusion(e, spec, dt), shock);
    e.LnOf(spot);
    e.ExpSum(e.ln(spot), move);
    e.LnOfExp(e.ln(spot) + move);
    hide Elementary.Lawful;
    var after := e.exp(e.ln(spot) + move);
    assert Mul(spot, e.exp(move)) == Mul(e.exp(e.ln(spot)), e.exp(move)) == after;
    assert Moved(e, spec, dt, spot, shock) == after;
  }

  lemma MovedPositive(e: Elementary, spec: SingleFactorSpec, dt: real, spot: real, shock: real)
    requires e.Lawful() && spot > 0.0
    ensures Moved(e, spec, dt, spot, shock) > 0.0
  {
    var exponent := Drift(spec, dt) + Mul(Diffusion(e, spec, dt), shock);
    e.ExpPositive(exponent);
    assert Product(spot, e.exp(exponent)) == Mul(spot, e.exp(exponent));
  }

  /** Every simulated spot is positive, whatever the normals. */
  lemma {:induction false} PathsPositive(e: Elementary, times: seq<real>, spec: MultiFactorSpec, lower: Matrix, paths: nat,
                                         z: nat -> real, f: nat, step: nat, path: nat)
    requires e.Lawful() && step < |times| && MultiValid(spec) && f < |spec.spots|
    ensures MultiPath(e, times, spec, lower, paths, z, f, step, path) > 0.0
    decreases step
  {
    hide Moved;
    assert SpecValid(spec.Factor(f));
    if step > 0 {
      PathsPositive(e, times, spec, lower, paths, z, f, step - 1, path);
      MovedPositive(e, spec.Factor(f), StepLength(times, step), MultiPath(e, times, spec, lower, paths, z, f, step - 1, path),
                    LowerImage(lower, Shocks(z, DrawIndex(paths, step, path) * |spec.spots|), f));
    }
  }

  /** The exponent a path has accumulated: its drift over the whole time and its scaled shocks. */
  ghost function Noise(e: Elementary, times: seq<real>, spec: SingleFactorSpec, paths: nat, z: nat -> real, step: nat,
                       path: nat): real
    requires step < |times|
    decreases step
  {
    if step == 0 then 0.0
    else Noise(e, times, spec, paths, z, step - 1, path)
         + Mul(Diffusion(e, spec, StepLength(times, step)), z(DrawIndex(paths, step, path)))
  }

  /** Stepping is exact: a path's spot is the initial spot carried once over the whole elapsed time. */
  lemma {:induction false} StepsCompose(e: Elementary, times: seq<real>, spec: SingleFactorSpec, paths: nat, z: nat -> real,
                                        step: nat, path: nat)
    requires e.Lawful() && step < |times|
    ensures SinglePath(e, times, spec, paths, z, step, path)
         == Mul(spec.spot, e.exp(Drift(spec, times[step] - times[0]) + Noise(e, times, spec, paths, z, step, path)))
    decreases step
  {
    hide Diffusion, Mul, Drift;
    if step == 0 {
      NoDrift(e, spec);
      assert times[0] - times[0] == 0.0;
    } else {
      StepsCompose(e, times, spec, paths, z, step - 1, path);
      var dt, elapsed := StepLength(times, step), times[step - 1] - times[0];
      var shock := Mul(Diffusion(e, spec, dt), z(DrawIndex(paths, step, path)));
      var noise := Noise(e, times, spec, paths, z, step - 1, path);
      DriftAdds(spec, elapsed, dt);
      var total := times[step] - times[0];
      assert elapsed + dt == total;
      assert Drift(spec, total) == Drift(spec, elapsed) + Drift(spec, dt);
      var before, now := Drift(spec, elapsed) + noise, Drift(spec, dt) + shock;
      e.ExpSum(before, now);
      var whole := Drift(spec, total) + Noise(e, times, spec, paths, z, step, path);
      assert before + now == whole;
      assert SinglePath(e, times, spec, paths, z, step - 1, path) == Mul(spec.spot, e.exp(before));
      assert SinglePath(e, times, spec, paths, z, step, path) == Mul(Mul(spec.spot, e.exp(before)), e.exp(now));
      TwoSteps(spec.spot, e.exp(before), e.exp(now), e.exp(whole));
    }
  }

  lemma TwoSteps(spot: real, a: real, b: real, both: real)
    requires both == a * b
    ensures Mul(Mul(spot, a), b) == Mul(spot, both)
  {
    assert Mul(spot, both) == Mul(spot, a * b);
  }

  lemma NoDrift(e: Elementary, spec: SingleFactorSpec)
    requires e.Lawful()
    ensures Mul(spec.spot, e.exp(Drift(spec, 0.0) + 0.0)) == spec.spot
  {
    e.ExpZero();
    assert Drift(spec, 0.0) == 0.0;
  }

  lemma DriftAdds(spec: SingleFactorSpec, a: real, b: real)
    ensures Drift(spec, a + b) == Drift(spec, a) + Drift(spec, b)
  {
    var rate := spec.rate - spec.dividendYield - 0.5 * spec.volatility * spec.volatility;
    assert Mul(rate, a + b) == Mul(rate, a) + Mul(rate, b);
  }

  lemma {:induction false} SilentNoise(e: Elementary, times: seq<real>, spec: SingleFactorSpec, paths: nat, z: nat -> real,
                                       step: nat, path: nat)
    requires step < |times| && spec.volatility == 0.0
    ensures Noise(e, times, spec, paths, z, step, path) == 0.0
  {
    if step > 0 {
      SilentNoise(e, times, spec, paths, z, step - 1, path);
      assert Diffusion(e, spec, StepLength(times, step)) == 0.0;
    }
  }

  /** Without volatility every path is the forward. */
  lemma SilentPathIsForward(e: Elementary, times: seq<real>, spec: SingleFactorSpec, paths: nat, z: nat -> real, step: nat,
                            path: nat)
    requires e.Lawful() && step < |times| && spec.volatility == 0.0
    ensures SinglePath(e, times, spec, paths, z, step, path)
         == Mul(spec.spot, e.exp(Mul(spec.rate - spec.dividendYield, times[step] - times[0])))
  {
    hide SinglePath, Noise, Mul;
    StepsCompose(e, times, spec, paths, z, step, path);
    SilentNoise(e, times, spec, paths, z, step, path);
    assert spec.rate - spec.dividendYield - 0.5 * spec.volatility * spec.volatility == spec.rate - spec.dividendYield;
    assert Drift(spec, times[step] - times[0]) + 0.0 == Mul(spec.rate - spec.dividendYield, times[step] - times[0]);
  }

  // ---- The simulations ----

  /** The buffer's cells `[factor, step, path]` that hold their path's spot: all of every step before `step`,
      and the first `count` paths of it. */
  ghost predicate SingleFilled(buffer: array3<real>, e: Elementary, times: seq<real>, spec: SingleFactorSpec, z: nat -> real,
                               step: nat, count: nat)
    requires buffer.Length0 == 1 && buffer.Length1 == |times|
    reads buffer
  {
    forall k: nat, p: nat :: k < |times| && p < buffer.Length2 && (k < step || (k == step && p < count)) ==>
      buffer[0, k, p] == SinglePath(e, times, spec, buffer.Length2, z, k, p)
  }

  lemma SingleRowDone(buffer: array3<real>, e: Elementary, times: seq<real>, spec: SingleFactorSpec, z: nat -> real, step: nat)
    requires buffer.Length0 == 1 && buffer.Length1 == |times|
    requires SingleFilled(buffer, e, times, spec, z, step, buffer.Length2)
    ensures SingleFilled(buffer, e, times, spec, z, step + 1, 0)
  {
    hide SinglePath;
  }

  lemma DrawIndexNext(paths: nat, step: nat)
    requires step > 0
    ensures DrawIndex(paths, step, paths) == DrawIndex(paths, step + 1, 0)
    ensures DrawIndex(paths, 1, 0) == 0
  {
  }

  lemma SinglePathMoves(e: Elementary, times: seq<real>, spec: SingleFactorSpec, paths: nat, z: nat -> real, step: nat,
                        path: nat)
    requires 0 < step < |times|
    ensures SinglePath(e, times, spec, paths, z, step, path)
         == Moved(e, spec, StepLength(times, step), SinglePath(e, times, spec, paths, z, step - 1, path),
                  z(DrawIndex(paths, step, path)))
    ensures DrawIndex(paths, step, path) + 1 == DrawIndex(paths, step, path + 1)
  {
  }

  /** One step of every path, consuming one normal per path. */
  method SingleSlab(e: Elementary, buffer: array3<real>, times: seq<real>, spec: SingleFactorSpec,
                    normals: StandardNormalGenerator, step: nat)
    requires buffer.Length0 == 1 && buffer.Length1 == |times| && 0 < step < |times|
    requires normals.Valid() && normals.drawn == DrawIndex(buffer.Length2, step, 0)
    requires SingleFilled(buffer, e, times, spec, normals.Stream(), step, 0)
    modifies buffer, normals, normals.engine
    ensures normals.Valid() && normals.drawn == DrawIndex(buffer.Length2, step + 1, 0)
    ensures SingleFilled(buffer, e, times, spec, normals.Stream(), step + 1, 0)
  {
    hide Moved, NormalAt, Productive, SinglePath, DrawIndex;
    var paths := buffer.Length2;
    for p := 0 to paths
      invariant SingleFilled(buffer, e, times, spec, normals.Stream(), step, p)
      invariant normals.Valid() && normals.drawn == DrawIndex(paths, step, p)
    {
      SinglePathMoves(e, times, spec, paths, normals.Stream(), step, p);
      var shock := normals.Next();
      var previous := buffer[0, step - 1, p];
      buffer[0, step, p] := Moved(e, spec, StepLength(times, step), previous, shock);
    }
    SingleRowDone(buffer, e, times, spec, normals.Stream(), step);
    DrawIndexNext(paths, step);
  }

  /** Every path starts at the spot. */
  method FillStart(e: Elementary, buffer: array3<real>, times: seq<real>, spec: SingleFactorSpec, ghost z: nat -> real)
    requires buffer.Length0 == 1 && buffer.Length1 == |times| && times != []
    modifies buffer
    ensures SingleFilled(buffer, e, times, spec, z, 1, 0)
  {
    hide Moved;
    for p := 0 to buffer.Length2
      invariant SingleFilled(buffer, e, times, spec, z, 0, p)
    {
      buffer[0, 0, p] := spec.spot;
    }
    SingleRowDone(buffer, e, times, spec, z, 0);
  }

  method EvolveSingleFactorGbm(e: Elementary, c: Circle, buffer: array3<real>, times: seq<real>, spec: SingleFactorSpec,
                               engine: RandomEngine) returns (ok: bool)
    requires e.Lawful() && Productive(engine.stream)
    modifies buffer, engine
    ensures ok <==> buffer.Length0 == 1 && buffer.Length1 == |times| && times != [] && Increasing(times) && SpecValid(spec)
    ensures !ok ==> engine.position == old(engine.position)
    ensures !ok ==> forall f: nat, k: nat, p: nat :: f < buffer.Length0 && k < buffer.Length1 && p < buffer.Length2 ==>
                      buffer[f, k, p] == old(buffer[f, k, p])
    ensures ok ==> SingleFilled(buffer, e, times, spec, NormalsFrom(e, c, engine.stream, old(engine.position)), |times|, 0)
  {
    if buffer.Length0 != 1 || buffer.Length1 != |times| || |times| == 0 {
      return false;
    }
    var increasing := TimesIncrease(times);
    if !increasing || !SpecValid(spec) {
      return false;
    }
    hide Increasing, Moved, NormalAt, Productive, StandardNormalGenerator.Valid;
    var paths := buffer.Length2;
    var normals := new StandardNormalGenerator(engine, e, c);
    FillStart(e, buffer, times, spec, normals.Stream());
    DrawIndexNext(paths, 1);
    for step := 1 to |times|
      invariant SingleFilled(buffer, e, times, spec, normals.Stream(), step, 0)
      invariant normals.Valid() && normals.drawn == DrawIndex(paths, step, 0) && fresh(normals)
    {
      SingleSlab(e, buffer, times, spec, normals, step);
    }
    return true;
  }

  /** As `SingleFilled`, for every factor; of path `count` of the last step, the first `factors` factors. */
  ghost predicate MultiFilled(buffer: array3<real>, e: Elementary, times: seq<real>, spec: MultiFactorSpec, lower: Matrix,
                              z: nat -> real, step: nat, count: nat, factors: nat)
    requires MultiShapeValid(spec) && buffer.Length0 == |spec.spots| && buffer.Length1 == |times|
    reads buffer
  {
    forall f: nat, k: nat, p: nat | f < |spec.spots| && k < |times| && p < buffer.Length2
      && (k < step || (k == step && (p < count || (p == count && f < factors)))) ::
      buffer[f, k, p] == MultiPath(e, times, spec, lower, buffer.Length2, z, f, k, p)
  }

  lemma MultiPathMoves(e: Elementary, times: seq<real>, spec: MultiFactorSpec, lower: Matrix, paths: nat, z: nat -> real,
                       f: nat, step: nat, path: nat)
    requires 0 < step < |times| && MultiShapeValid(spec) && f < |spec.spots|
    ensures MultiPath(e, times, spec, lower, paths, z, f, step, path)
         == Moved(e, spec.Factor(f), StepLength(times, step), MultiPath(e, times, spec, lower, paths, z, f, step - 1, path),
                  LowerImage(lower, Shocks(z, DrawIndex(paths, step, path) * |spec.spots|), f))
  {
  }

  lemma MultiDrawn(paths: nat, step: nat, path: nat, factors: nat)
    requires step > 0
    ensures DrawIndex(paths, step, path) * factors + factors == DrawIndex(paths, step, path + 1) * factors
  {
    assert DrawIndex(paths, step, path + 1) == DrawIndex(paths, step, path) + 1;
  }

  lemma ImageOfShocks(lower: Matrix, x: Vec, y: Vec, f: nat)
    requires forall j :: 0 <= j <= f ==> x(j) == y(j)
    ensures LowerImage(lower, x, f) == LowerImage(lower, y, f)
  {
    DotCongruent(Row(lower, f), x, Row(lower, f), y, f + 1);
  }

  /** The normals of one path, correlated. */
  method DrawShocks(normals: StandardNormalGenerator, lower: array2<real>, independent: array<real>, correlated: array<real>)
    requires normals.Valid() && independent != correlated
    requires lower.Length0 == lower.Length1 == independent.Length == correlated.Length
    modifies normals, normals.engine, independent, correlated
    ensures normals.Valid() && normals.drawn == old(normals.drawn) + independent.Length
    ensures forall f: nat :: f < correlated.Length ==>
              correlated[f] == LowerImage(Of(lower), Shocks(normals.Stream(), old(normals.drawn)), f)
  {
    hide NormalAt, Productive, LowerImage;
    ghost var base := normals.drawn;
    normals.Fill(independent);
    assert forall k: nat :: k < independent.Length ==> independent[k] == normals.Stream()(base + k);
    ApplyLowerTriangular(lower, independent, correlated);
    ghost var x, y := ToVec(independent[..]), Shocks(normals.Stream(), base);
    forall f: nat | f < correlated.Length ensures correlated[f] == LowerImage(Of(lower), y, f) {
      ImageOfShocks(Of(lower), x, y, f);
    }
  }

  /** One path's step for every factor. */
  method MovePath(e: Elementary, buffer: array3<real>, times: seq<real>, spec: MultiFactorSpec, ghost lower: Matrix,
                  ghost z: nat -> real, correlated: array<real>, step: nat, p: nat)
    requires MultiShapeValid(spec) && buffer.Length0 == |spec.spots| == correlated.Length && buffer.Length1 == |times|
    requires 0 < step < |times| && p < buffer.Length2
    requires MultiFilled(buffer, e, times, spec, lower, z, step, p, 0)
    requires forall f: nat :: f < correlated.Length ==>
               correlated[f] == LowerImage(lower, Shocks(z, DrawIndex(buffer.Length2, step, p) * |spec.spots|), f)
    modifies buffer
    ensures MultiFilled(buffer, e, times, spec, lower, z, step, p + 1, 0)
  {
    hide Moved, MultiPath, DrawIndex, LowerImage, Shocks;
    for f := 0 to |spec.spots|
      invariant MultiFilled(buffer, e, times, spec, lower, z, step, p, f)
    {
      MultiPathMoves(e, times, spec, lower, buffer.Length2, z, f, step, p);
      var previous := buffer[f, step - 1, p];
      buffer[f, step, p] := Moved(e, spec.Factor(f), StepLength(times, step), previous, correlated[f]);
    }
  }

  /** One step of every path of every factor. */
  method MultiSlab(e: Elementary, buffer: array3<real>, times: seq<real>, spec: MultiFactorSpec, lower: array2<real>,
                   normals: StandardNormalGenerator, independent: array<real>, correlated: array<real>, step: nat)
    requires MultiShapeValid(spec) && buffer.Length0 == |spec.spots| && buffer.Length1 == |times| && 0 < step < |times|
    requires lower.Length0 == lower.Length1 == |spec.spots| == independent.Length == correlated.Length
    requires independent != correlated
    requires normals.Valid() && normals.drawn == DrawIndex(buffer.Length2, step, 0) * |spec.spots|
    requires MultiFilled(buffer, e, times, spec, Of(lower), normals.Stream(), step, 0, 0)
    modifies buffer, normals, normals.engine, independent, correlated
    ensures normals.Valid() && normals.drawn == DrawIndex(buffer.Length2, step + 1, 0) * |spec.spots|
    ensures MultiFilled(buffer, e, times, spec, Of(lower), normals.Stream(), step + 1, 0, 0)
  {
    ghost var l, z := Of(lower), normals.Stream();
    hide Moved, NormalAt, Productive, MultiPath, DrawIndex, LowerImage, StandardNormalGenerator.Valid, NormalsFrom, Shocks;
    var paths := buffer.Length2;
    for p := 0 to paths
      invariant Of(lower) == l && normals.Stream() == z
      invariant MultiFilled(buffer, e, times, spec, l, z, step, p, 0)
      invariant normals.Valid() && normals.drawn == DrawIndex(paths, step, p) * |spec.spots|
    {
      DrawShocks(normals, lower, independent, correlated);
      MultiDrawn(paths, step, p, |spec.spots|);
      MovePath(e, buffer, times, spec, l, z, correlated, step, p);
    }
    DrawIndexNext(paths, step);
  }

  method EvolveMultiFactorGbm(e: Elementary, c: Circle, buffer: array3<real>, times: seq<real>, spec: MultiFactorSpec,
                              lower: array2<real>, engine: RandomEngine) returns (ok: bool)
    requires e.Lawful() && Productive(engine.stream) && lower.Length0 == lower.Length1
    modifies buffer, engine
    ensures ok <==> buffer.Length0 == |spec.spots| && buffer.Length1 == |times| && times != [] && Increasing(times)
                    && MultiValid(spec) && lower.Length0 == |spec.spots|
    ensures !ok ==> engine.position == old(engine.position)
    ensures !ok ==> forall f: nat, k: nat, p: nat :: f < buffer.Length0 && k < buffer.Length1 && p < buffer.Length2 ==>
                      buffer[f, k, p] == old(buffer[f, k, p])
    ensures ok ==> MultiFilled(buffer, e, times, spec, Of(lower), NormalsFrom(e, c, engine.stream, old(engine.position)),
                               |times|, 0, 0)
  {
    var factors := |spec.spots|;
    if buffer.Length0 != factors || buffer.Length1 != |times| || |times| == 0 {
      return false;
    }
    var increasing := TimesIncrease(times);
    if !increasing || !MultiShapeValid(spec) || lower.Length0 != factors {
      return false;
    }
    for f := 0 to factors
      invariant forall j :: 0 <= j < f ==> SpecValid(spec.Factor(j))
    {
      if !SpecValid(spec.Factor(f)) {
        return false;
      }
    }
    hide Increasing, Moved, NormalAt, Productive, LowerImage, StandardNormalGenerator.Valid;
    ghost var l := Of(lower);
    var paths := buffer.Length2;
    var normals := new StandardNormalGenerator(engine, e, c);
    FillInitial(e, buffer, times, spec, l, normals.Stream());
    var independent, correlated := new real[factors](i => 0.0), new real[factors](i => 0.0);
    DrawIndexNext(paths, 1);
    for step := 1 to |times|
      invariant Of(lower) == l && MultiFilled(buffer, e, times, spec, l, normals.Stream(), step, 0, 0)
      invariant normals.Valid() && normals.drawn == DrawIndex(paths, step, 0) * factors
    {
      MultiSlab(e, buffer, times, spec, lower, normals, independent, correlated, step);
    }
    return true;
  }

  /** Step zero: every path starts at its factor's spot. */
  method FillInitial(e: Elementary, buffer: array3<real>, times: seq<real>, spec: MultiFactorSpec, ghost lower: Matrix,
                     ghost z: nat -> real)
    requires MultiShapeValid(spec) && buffer.Length0 == |spec.spots| && buffer.Length1 == |times| > 0
    modifies buffer
    ensures MultiFilled(buffer, e, times, spec, lower, z, 1, 0, 0)
  {
    for f := 0 to |spec.spots|
      invariant forall g: nat, p: nat :: g < f && p < buffer.Length2 ==> buffer[g, 0, p] == spec.spots[g]
    {
      for p := 0 to buffer.Length2
        invariant forall g: nat, q: nat :: g < f && q < buffer.Length2 ==> buffer[g, 0, q] == spec.spots[g]
        invariant forall q: nat :: q < p ==> buffer[f, 0, q] == spec.spots[f]
      {
        buffer[f, 0, p] := spec.spots[f];
      }
    }
  }

  /** From the same engine position, the two simulations fill one-factor buffers alike. */
  lemma OneFactorBuffersAgree(single: array3<real>, multi: array3<real>, e: Elementary, times: seq<real>, spec: MultiFactorSpec,
                              lower: Matrix, z: nat -> real)
    requires MultiShapeValid(spec) && |spec.spots| == 1 && At(lower, 0, 0) == 1.0
    requires single.Length0 == multi.Length0 == 1 && single.Length1 == multi.Length1 == |times| && single.Length2 == multi.Length2
    requires SingleFilled(single, e, times, spec.Factor(0), z, |times|, 0)
    requires MultiFilled(multi, e, times, spec, lower, z, |times|, 0, 0)
    ensures forall k: nat, p: nat :: k < |times| && p < single.Length2 ==> single[0, k, p] == multi[0, k, p]
  {
    hide SinglePath, MultiPath;
    forall k: nat, p: nat | k < |times| && p < single.Length2 ensures single[0, k, p] == multi[0, k, p] {
      OneFactorAgrees(e, times, spec, lower, single.Length2, z, k, p);
    }
  }
}
