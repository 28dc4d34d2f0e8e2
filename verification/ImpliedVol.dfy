/** Inverting an option price to a volatility: Newton steps with a bisection fallback. */
module ImpliedVol {
  import opened Reals
  import opened Lattice
  import opened OptionPrices

  const MIN_VOL := 0.000001
  const MAX_VOL := 5.0
  const MIN_TAU := 1.0 / 365.0 / 10.0
  const PRICE_TOLERANCE := 0.00000001
  const MAX_NEWTON := 40
  const MAX_BISECTIONS := 80
  const INTRINSIC_SLACK := 0.000001
  const MIN_VEGA := 0.000000000001

  datatype ImpliedVolStatus = Ok | InvalidInputs | BelowIntrinsic | NoConvergence

  /** The model's price and vega of one option as functions of the volatility. */
  datatype Model = Model(price: real -> real, vega: real -> real)
  {
    ghost predicate Within(a: real, b: real, speed: real) {
      Abs(price(b) - price(a)) <= Mul(speed, b - a)
    }

    /** On the solver's bracket the price moves with the volatility at a bounded speed. */
    ghost predicate Lipschitz(speed: real) {
      forall a, b :: MIN_VOL <= a <= b <= MAX_VOL ==> Within(a, b, speed)
    }

    ghost predicate Ordered(a: real, b: real) {
      price(a) <= price(b)
    }

    ghost predicate OnLine(slope: real, a: real) {
      vega(a) == slope && price(a) == price(MIN_VOL) + Mul(slope, a - MIN_VOL)
    }

    /** On the bracket the price is a straight line, and the vega its slope. */
    ghost predicate Straight(slope: real) {
      slope >= MIN_VEGA && forall a :: MIN_VOL <= a <= MAX_VOL ==> OnLine(slope, a)
    }

    ghost predicate Increasing() {
      forall a, b :: MIN_VOL <= a <= b <= MAX_VOL ==> Ordered(a, b)
    }
  }

  const RANGE := MAX_VOL - MIN_VOL

  /** The speed at which the bisections still pin the price down. */
  predicate Tame(speed: real) {
    Mul(speed, Mul(RANGE, Pow(HALF, MAX_BISECTIONS))) < PRICE_TOLERANCE
  }

  predicate InputsValid(market: real, spot: real, strike: real, tau: real) {
    market > 0.0 && spot > 0.0 && strike > 0.0 && tau >= MIN_TAU
  }

  /** The middle of a bracket misses the market price by no more than half the bracket allows. */
  lemma MiddleMisses(m: Model, speed: real, market: real, lo: real, hi: real)
    requires m.Lipschitz(speed) && MIN_VOL <= lo <= hi <= MAX_VOL && m.price(lo) <= market <= m.price(hi)
    ensures Abs(m.price(0.5 * (lo + hi)) - market) <= Mul(speed, 0.5 * (hi - lo))
  {
    hide Mul;
    var mid := 0.5 * (lo + hi);
    assert m.Within(lo, mid, speed) && m.Within(mid, hi, speed);
    assert hi - mid == 0.5 * (hi - lo) == mid - lo;
  }

  /** Bisection on the bracket: with a tame price it succeeds exactly when the market price lies in the
      bracket's range. */
  method BisectImpliedVol(m: Model, market: real, ghost speed: real) returns (status: ImpliedVolStatus, vol: real)
    ensures status == Ok || status == NoConvergence
    ensures status == Ok ==> MIN_VOL <= vol <= MAX_VOL && Abs(m.price(vol) - market) < PRICE_TOLERANCE
    ensures status == Ok ==> m.price(MIN_VOL) <= market <= m.price(MAX_VOL)
    ensures m.Lipschitz(speed) && Tame(speed) && m.price(MIN_VOL) <= market <= m.price(MAX_VOL) ==> status == Ok
  {
    hide Mul, Tame, Model.Lipschitz;
    var lo, hi := MIN_VOL, MAX_VOL;
    var priceLo, priceHi := m.price(lo), m.price(hi);
    if priceLo > market || priceHi < market {
      return NoConvergence, 0.0;
    }
    StartWidth();
    for i := 0 to MAX_BISECTIONS
      invariant MIN_VOL <= lo <= hi <= MAX_VOL && m.price(lo) <= market <= m.price(hi)
      invariant hi - lo == Mul(RANGE, Pow(HALF, i))
      invariant i == MAX_BISECTIONS ==> !(m.Lipschitz(speed) && Tame(speed))
    {
      var mid := 0.5 * (lo + hi);
      var priceMid := m.price(mid);
      if Abs(priceMid - market) < PRICE_TOLERANCE {
        return Ok, mid;
      }
      HalfWidth(i);
      if m.Lipschitz(speed) && Tame(speed) && i + 1 == MAX_BISECTIONS {
        MiddleMisses(m, speed, market, lo, hi);
        LastMiss(m, speed, market, 0.5 * (hi - lo), mid);
      }
      if priceMid < market {
        lo, priceLo := mid, priceMid;
      } else {
        hi, priceHi := mid, priceMid;
      }
    }
    return NoConvergence, 0.5 * (lo + hi);
  }

  lemma StartWidth()
    ensures Mul(RANGE, Pow(HALF, 0)) == RANGE
  {
  }

  lemma HalfWidth(i: nat)
    ensures 0.5 * Mul(RANGE, Pow(HALF, i)) == Mul(RANGE, Pow(HALF, i + 1))
  {
    Halved(i);
    assert Mul(RANGE, 0.5 * Pow(HALF, i)) == 0.5 * Mul(RANGE, Pow(HALF, i));
  }

  lemma LastMiss(m: Model, speed: real, market: real, half: real, mid: real)
    requires Tame(speed) && half == Mul(RANGE, Pow(HALF, MAX_BISECTIONS))
    requires Abs(m.price(mid) - market) <= Mul(speed, half)
    ensures Abs(m.price(mid) - market) < PRICE_TOLERANCE
  {
    hide Pow, Mul;
  }

  /** A valid price below the undiscounted intrinsic value is refused. */
  predicate Refused(kind: OptionType, market: real, spot: real, strike: real, tau: real) {
    InputsValid(market, spot, strike, tau) && market < Payoff(kind, spot, strike) - INTRINSIC_SLACK
  }

  function ClampVol(sigma: real): (vol: real)
    ensures MIN_VOL <= vol <= MAX_VOL
  {
    if sigma < MIN_VOL then MIN_VOL else if sigma > MAX_VOL then MAX_VOL else sigma
  }

  /** Clamping moves a guess no further than any volatility of the bracket is from it. */
  lemma ClampNearest(sigma: real, vol: real)
    requires MIN_VOL <= vol <= MAX_VOL
    ensures Abs(ClampVol(sigma) - sigma) <= Abs(vol - sigma)
  {
  }

  const FIRST_GUESS := 0.2

  /** The solver is given a straight price, and a market price in its range and away from intrinsic. */
  ghost predicate StraightRun(m: Model, kind: OptionType, market: real, spot: real, strike: real, tau: real, slope: real) {
    && m.Straight(slope) && m.price(MIN_VOL) <= market <= m.price(MAX_VOL)
    && InputsValid(market, spot, strike, tau) && market > Payoff(kind, spot, strike) + INTRINSIC_SLACK
  }

  /** From any guess one step on a straight price lands on the volatility with the market price. */
  lemma StepLands(m: Model, slope: real, market: real, sigma: real)
    requires m.Straight(slope) && m.price(MIN_VOL) <= market <= m.price(MAX_VOL) && MIN_VOL <= sigma <= MAX_VOL
    ensures m.price(ClampVol(sigma - (m.price(sigma) - market) / slope)) == market
  {
    var quotient := (m.price(sigma) - market) / slope;
    var target := sigma - quotient;
    assert quotient * slope == m.price(sigma) - market;
    assert m.OnLine(slope, sigma) && m.OnLine(slope, MAX_VOL);
    TargetIs(slope, m.price(MIN_VOL), m.price(sigma), m.price(MAX_VOL), market, sigma, quotient);
    assert m.OnLine(slope, target);
  }

  lemma VegaIs(m: Model, slope: real, sigma: real)
    requires m.Straight(slope) && MIN_VOL <= sigma <= MAX_VOL
    ensures m.vega(sigma) == slope >= MIN_VEGA
  {
    assert m.OnLine(slope, sigma);
  }

  lemma TargetIs(slope: real, low: real, here: real, high: real, market: real, sigma: real, quotient: real)
    requires slope > 0.0 && quotient * slope == here - market && low <= market <= high
    requires here == low + Mul(slope, sigma - MIN_VOL) && high == low + Mul(slope, MAX_VOL - MIN_VOL)
    ensures MIN_VOL <= sigma - quotient <= MAX_VOL && low + Mul(slope, sigma - quotient - MIN_VOL) == market
  {
    var target := sigma - quotient;
    assert Mul(slope, target - MIN_VOL) == Mul(slope, sigma - MIN_VOL) - quotient * slope;
    assert Product(slope, target - MIN_VOL) == Mul(slope, target - MIN_VOL);
    assert Product(slope, MAX_VOL - target) == Mul(slope, MAX_VOL - MIN_VOL) - Mul(slope, target - MIN_VOL);
  }

  /** An accepted answer is zero for a price at intrinsic, or a volatility in the bracket that reprices the
      market; for a tame price every market price in the bracket's range that clears intrinsic is accepted. */
  method ImpliedVolEuropeanVanilla(m: Model, kind: OptionType, market: real, spot: real, strike: real, tau: real,
                                   ghost speed: real) returns (status: ImpliedVolStatus, vol: real)
    ensures status == InvalidInputs <==> !InputsValid(market, spot, strike, tau)
    ensures status == BelowIntrinsic <==> Refused(kind, market, spot, strike, tau)
    ensures status == Ok ==>
              || (vol == 0.0 && Abs(market - Payoff(kind, spot, strike)) <= INTRINSIC_SLACK)
              || (MIN_VOL <= vol <= MAX_VOL && Abs(m.price(vol) - market) < PRICE_TOLERANCE)
    ensures (m.Lipschitz(speed) && Tame(speed) && m.price(MIN_VOL) <= market <= m.price(MAX_VOL)
             && InputsValid(market, spot, strike, tau) && market >= Payoff(kind, spot, strike) - INTRINSIC_SLACK) ==>
              status == Ok
    ensures (InputsValid(market, spot, strike, tau) && market > m.price(MAX_VOL) + INTRINSIC_SLACK
             && Abs(market - Payoff(kind, spot, strike)) > INTRINSIC_SLACK) ==>
              status != Ok
    ensures StraightRun(m, kind, market, spot, strike, tau, speed) ==>
              status == Ok && (vol == FIRST_GUESS || m.price(vol) == market)
  {
    hide Model.Lipschitz, Model.Straight, Tame;
    if !InputsValid(market, spot, strike, tau) {
      return InvalidInputs, 0.0;
    }
    var intrinsic := Payoff(kind, spot, strike);
    if market < intrinsic - INTRINSIC_SLACK {
      return BelowIntrinsic, 0.0;
    }
    if Abs(market - intrinsic) <= INTRINSIC_SLACK {
      return Ok, 0.0;
    }
    var priceMax := m.price(MAX_VOL);
    if market > priceMax + INTRINSIC_SLACK {
      return NoConvergence, 0.0;
    }
    var sigma := FIRST_GUESS;
    ghost var straight := StraightRun(m, kind, market, spot, strike, tau, speed);
    for i := 0 to MAX_NEWTON
      invariant MIN_VOL <= sigma <= MAX_VOL
      invariant straight ==> (i == 0 && sigma == FIRST_GUESS) || (i == 1 && m.price(sigma) == market)
    {
      var diff := m.price(sigma) - market;
      if Abs(diff) < PRICE_TOLERANCE {
        return Ok, sigma;
      }
      var vega := m.vega(sigma);
      if straight {
        VegaIs(m, speed, sigma);
        StepLands(m, speed, market, sigma);
      }
      if vega < MIN_VEGA {
        break;
      }
      sigma := ClampVol(sigma - diff / vega);
    }
    status, vol := BisectImpliedVol(m, market, speed);
  }

  /** Round trip: a price the model itself gives at a bracket volatility is inverted to one that reprices it,
      except when the solver's undiscounted intrinsic floor lies above that price. */
  method RoundTrip(m: Model, kind: OptionType, sigma: real, spot: real, strike: real, tau: real, ghost speed: real)
    returns (status: ImpliedVolStatus, vol: real)
    requires m.Lipschitz(speed) && Tame(speed) && m.Increasing()
    requires MIN_VOL <= sigma <= MAX_VOL && InputsValid(m.price(sigma), spot, strike, tau)
    ensures status == Ok <==> m.price(sigma) >= Payoff(kind, spot, strike) - INTRINSIC_SLACK
    ensures status == Ok && vol > 0.0 ==> Abs(m.price(vol) - m.price(sigma)) < PRICE_TOLERANCE
  {
    hide Model.Lipschitz, Tame;
    assert m.Ordered(MIN_VOL, sigma) && m.Ordered(sigma, MAX_VOL);
    status, vol := ImpliedVolEuropeanVanilla(m, kind, m.price(sigma), spot, strike, tau, speed);
  }

  /** The floor does lie above some of the model's own prices: at a positive rate, every European put whose spot is
      further than the slack below what discounting takes off its strike is refused, whatever its volatility. */
  method DeepPutRefused(e: Elementary, m: Setting, strike: real, spot: real, n: nat, ghost speed: real)
    returns (status: ImpliedVolStatus, vol: real)
    requires e.Lawful() && n > 0 && m.expiry >= MIN_TAU && spot > 0.0 && strike > 0.0
    requires spot + INTRINSIC_SLACK < strike * (1.0 - Grown(e, -m.rate, m.expiry))
    requires LatticePrice(e, Terms(Put, European, strike), m, spot, n) > 0.0
    ensures status == BelowIntrinsic
  {
    hide LatticePrice, Grown;
    EuropeanPutBelowBond(e, strike, m, spot, n);
    var price := LatticePrice(e, Terms(Put, European, strike), m, spot, n);
    var model := Model(
      (sigma: real) => LatticePrice(e, Terms(Put, European, strike), m.(volatility := sigma), spot, n),
      (sigma: real) => 0.0);
    status, vol := ImpliedVolEuropeanVanilla(model, Put, price, spot, strike, m.expiry, speed);
  }

  /** At every positive rate, on every lattice and for every spot, there is a strike whose European put has a positive price
      that the solver refuses. */
  lemma DeepPutExists(e: Elementary, m: Setting, spot: real, n: nat) returns (strike: real)
    requires e.Lawful() && m.rate > 0.0 && Builds(m, n) && m.expiry >= MIN_TAU && spot > 0.0
    ensures Refused(Put, LatticePrice(e, Terms(Put, European, strike), m, spot, n), spot, strike, m.expiry)
  {
    hide LatticePrice, StepOf, Pow, Mul;
    var bond, top := Grown(e, -m.rate, m.expiry), Mul(Pow(StepOf(e, m, n).u, n), spot);
    BondBelowOne(e, m);
    var deep := (spot + 1.0) / (1.0 - bond);
    strike := Max(deep, Max(top, 0.0) + 1.0);
    DeepPutPositive(e, strike, m, spot, n);
    EuropeanPutBelowBond(e, strike, m, spot, n);
    FarBelow(bond, strike, deep, spot, LatticePrice(e, Terms(Put, European, strike), m, spot, n));
  }

  lemma BondBelowOne(e: Elementary, m: Setting)
    requires e.Lawful() && m.rate > 0.0 && m.expiry > 0.0
    ensures Grown(e, -m.rate, m.expiry) < 1.0
  {
    assert Product(-m.rate, m.expiry) == Mul(-m.rate, m.expiry);
    e.ExpZero();
    e.ExpMonotone(Mul(-m.rate, m.expiry), 0.0);
  }

  lemma FarBelow(bond: real, strike: real, deep: real, spot: real, price: real)
    requires bond < 1.0 && deep == (spot + 1.0) / (1.0 - bond) && strike >= deep && price <= bond * strike && spot > 0.0
    ensures price < Payoff(Put, spot, strike) - INTRINSIC_SLACK
  {
    assert deep * (1.0 - bond) == spot + 1.0;
    ProductMonotone(deep, strike, 1.0 - bond);
    assert strike * (1.0 - bond) == strike - bond * strike;
  }
}
