/** The bump greeks of the binomial pricer, and their signs and bounds. */
module Greeks {
  import opened Reals
  import opened Lattice
  import opened OptionTheory
  import opened OptionPrices

  const SPOT_RELATIVE_BUMP := 0.0001
  const SPOT_MINIMUM_BUMP := 0.00000001
  const VOL_BUMP := 0.0001
  const RATE_BUMP := 0.00001
  const DAY := 1.0 / 365.0

  datatype PricingGreeks = PricingGreeks(delta: real, gamma: real, vega: real, rho: real, theta: real)

  function SpotBump(spot: real): (h: real)
    ensures h > 0.0
    ensures spot > SPOT_MINIMUM_BUMP ==> h < spot
  {
    Max(spot * SPOT_RELATIVE_BUMP, SPOT_MINIMUM_BUMP)
  }

  function BumpGreeks(e: Elementary, o: Terms, m: Setting, spot: real, npv: real, n: nat): PricingGreeks
    requires e.Lawful()
  {
    var h := SpotBump(spot);
    var up := LatticePrice(e, o, m, spot + h, n);
    var down := LatticePrice(e, o, m, spot - h, n);
    var vega :=
      if m.volatility > 0.0 then
        (LatticePrice(e, o, m.(volatility := m.volatility + VOL_BUMP), spot, n)
         - LatticePrice(e, o, m.(volatility := Max(m.volatility - VOL_BUMP, 0.0)), spot, n)) / (2.0 * VOL_BUMP)
      else 0.0;
    var rho := (LatticePrice(e, o, m.(rate := m.rate + RATE_BUMP), spot, n)
                - LatticePrice(e, o, m.(rate := m.rate - RATE_BUMP), spot, n)) / (2.0 * RATE_BUMP);
    var theta :=
      if m.expiry > DAY then (LatticePrice(e, o, m.(expiry := m.expiry - DAY), spot, n) - npv) / DAY else 0.0;
    PricingGreeks((up - down) / (2.0 * h), (up - 2.0 * npv + down) / (h * h), vega, rho, theta)
  }

  // ---- The greeks as difference quotients ----

  /** The bump is a ten-thousandth of every spot from a ten-thousandth up, and the same least amount below it. */
  lemma BumpOf(spot: real)
    ensures spot >= 0.0001 ==> 10000.0 * SpotBump(spot) == spot
    ensures spot <= 0.0001 ==> SpotBump(spot) == SpotBump(0.0001)
  {
  }

  /** Delta and gamma are the quadratic through the price and its two bumped prices; vega, rho and theta carry the price
      across their bumps, and vega and theta vanish where there is nothing to bump. */
  lemma GreeksAreQuotients(e: Elementary, o: Terms, m: Setting, spot: real, npv: real, n: nat)
    requires e.Lawful()
    ensures var g, h := BumpGreeks(e, o, m, spot, npv, n), SpotBump(spot);
            && LatticePrice(e, o, m, spot + h, n) == npv + Mul(h, g.delta) + Mul(0.5, Mul(Mul(h, h), g.gamma))
            && LatticePrice(e, o, m, spot - h, n) == npv - Mul(h, g.delta) + Mul(0.5, Mul(Mul(h, h), g.gamma))
            && (m.volatility > 0.0 ==>
                  LatticePrice(e, o, m.(volatility := m.volatility + VOL_BUMP), spot, n)
                  == LatticePrice(e, o, m.(volatility := Max(m.volatility - VOL_BUMP, 0.0)), spot, n) + 2.0 * VOL_BUMP * g.vega)
            && (m.volatility <= 0.0 ==> g.vega == 0.0)
            && LatticePrice(e, o, m.(rate := m.rate + RATE_BUMP), spot, n)
               == LatticePrice(e, o, m.(rate := m.rate - RATE_BUMP), spot, n) + 2.0 * RATE_BUMP * g.rho
            && (m.expiry > DAY ==> LatticePrice(e, o, m.(expiry := m.expiry - DAY), spot, n) == npv + DAY * g.theta)
            && (m.expiry <= DAY ==> g.theta == 0.0)
  {
    hide LatticePrice, Elementary.Lawful;
    var h := SpotBump(spot);
    SecondDifference(LatticePrice(e, o, m, spot + h, n), npv, LatticePrice(e, o, m, spot - h, n), h);
  }

  lemma SecondDifference(up: real, mid: real, down: real, h: real)
    requires h > 0.0
    ensures h * h > 0.0
    ensures var slope, bend := (up - down) / (2.0 * h), (up - 2.0 * mid + down) / (h * h);
            && up == mid + Mul(h, slope) + Mul(0.5, Mul(Mul(h, h), bend))
            && down == mid - Mul(h, slope) + Mul(0.5, Mul(Mul(h, h), bend))
  {
    assert Product(h, h) == h * h;
    assert (up - down) / (2.0 * h) * (2.0 * h) == up - down;
    assert (up - 2.0 * mid + down) / (h * h) * (h * h) == up - 2.0 * mid + down;
  }

  // ---- The price's shape in the spot, in every branch ----

  lemma PriceConvex(e: Elementary, o: Terms, m: Setting, n: nat, x: real, h: real)
    requires e.Lawful()
    ensures PriceAt(e, o, m, n, x - h) + PriceAt(e, o, m, n, x + h) >= 2.0 * PriceAt(e, o, m, n, x)
  {
    hide Payoff, ForwardPrice, ValueToGo, StepOf, Grown, Sound;
    if m.expiry <= 0.0 || n == 0 {
      PayoffConvex(o.kind, x, h, o.strike);
    } else if m.volatility <= 0.0 {
      ForwardConvex(o, Grown(e, -m.rate, m.expiry), Grown(e, m.rate - m.dividendYield, m.expiry), x, h);
      PayoffConvex(o.kind, x, h, o.strike);
    } else {
      ValueConvex(o, StepOf(e, m, n), n, x, h);
    }
  }

  lemma ForwardConvex(o: Terms, bond: real, carry: real, x: real, h: real)
    requires bond > 0.0
    ensures ForwardPrice(o, bond, carry, x - h) + ForwardPrice(o, bond, carry, x + h)
         >= 2.0 * ForwardPrice(o, bond, carry, x)
  {
    hide Payoff;
    var middle, shift := x * carry, h * carry;
    assert (x - h) * carry == middle - shift && (x + h) * carry == middle + shift;
    PayoffConvex(o.kind, middle, shift, o.strike);
    var low, mid, high := Payoff(o.kind, middle - shift, o.strike), Payoff(o.kind, middle, o.strike), Payoff(o.kind, middle + shift, o.strike);
    ProductMonotone(2.0 * mid, low + high, bond);
  }

  lemma PriceMonotone(e: Elementary, o: Terms, m: Setting, n: nat, x: real, y: real)
    requires e.Lawful() && x <= y
    ensures o.kind == Call ==> PriceAt(e, o, m, n, x) <= PriceAt(e, o, m, n, y)
    ensures o.kind == Put ==> PriceAt(e, o, m, n, y) <= PriceAt(e, o, m, n, x)
  {
    hide Payoff, ForwardPrice, ValueToGo, StepOf, Grown, Sound;
    PayoffMoves(o.kind, x, y, o.strike);
    if m.expiry > 0.0 && n > 0 {
      if m.volatility <= 0.0 {
        ForwardMoves(o, Grown(e, -m.rate, m.expiry), Grown(e, m.rate - m.dividendYield, m.expiry), x, y);
      } else {
        ValueMonotone(o, StepOf(e, m, n), n, x, y);
      }
    }
  }

  /** The discounted payoff of the forward moves the way the payoff does, by at most the carried width. */
  lemma ForwardMoves(o: Terms, bond: real, carry: real, x: real, y: real)
    requires bond > 0.0 && carry > 0.0 && x <= y
    ensures var low, high := ForwardPrice(o, bond, carry, x), ForwardPrice(o, bond, carry, y);
            && (o.kind == Call ==> 0.0 <= high - low <= Mul(Mul(bond, carry), y - x))
            && (o.kind == Put ==> 0.0 <= low - high <= Mul(Mul(bond, carry), y - x))
  {
    hide Payoff;
    ProductMonotone(x, y, carry);
    var lowForward, highForward := x * carry, y * carry;
    PayoffMoves(o.kind, lowForward, highForward, o.strike);
    var low, high := Payoff(o.kind, lowForward, o.strike), Payoff(o.kind, highForward, o.strike);
    ScaledMove(bond, low, high, highForward - lowForward);
    assert Mul(bond, highForward - lowForward) == Mul(Mul(bond, carry), y - x);
  }

  lemma ScaledMove(bond: real, low: real, high: real, width: real)
    requires bond > 0.0
    ensures 0.0 <= high - low <= width ==> 0.0 <= bond * high - bond * low <= Mul(bond, width)
    ensures 0.0 <= low - high <= width ==> 0.0 <= bond * low - bond * high <= Mul(bond, width)
  {
    assert Product(bond, high - low) == bond * high - bond * low;
    assert Product(bond, width - (high - low)) == Mul(bond, width) - (bond * high - bond * low);
    assert Product(bond, width - (low - high)) == Mul(bond, width) - (bond * low - bond * high);
  }

  /** No dividend is negative, and the step's up-probability was not clamped at zero. */
  ghost predicate NoCarryGain(e: Elementary, m: Setting, n: nat)
    requires e.Lawful()
  {
    m.dividendYield >= 0.0 && (Builds(m, n) ==> StepOf(e, m, n).d <= StepOf(e, m, n).growth)
  }

  lemma PriceLipschitz(e: Elementary, o: Terms, m: Setting, n: nat, x: real, y: real)
    requires e.Lawful() && x <= y && NoCarryGain(e, m, n)
    ensures Abs(PriceAt(e, o, m, n, y) - PriceAt(e, o, m, n, x)) <= y - x
  {
    hide Payoff, ForwardPrice, ValueToGo, StepOf, Grown, Sound, Carry, Mul;
    PayoffMoves(o.kind, x, y, o.strike);
    if m.expiry > 0.0 && n > 0 {
      if m.volatility <= 0.0 {
        var bond, carry := Grown(e, -m.rate, m.expiry), Grown(e, m.rate - m.dividendYield, m.expiry);
        ForwardMoves(o, bond, carry, x, y);
        GrownAdds(e, -m.rate, m.rate - m.dividendYield, m.expiry);
        assert -m.rate + (m.rate - m.dividendYield) == -m.dividendYield;
        GrownBelowOne(e, -m.dividendYield, m.expiry);
        MulIs(bond, carry);
        MulMonotone(Mul(bond, carry), 1.0, y - x);
        TimesOne(y - x);
      } else {
        var s := StepOf(e, m, n);
        StepCarry(e, m, n);
        GrownBelowOne(e, -m.dividendYield, TimeStep(m, n));
        MulIs(s.disc, s.growth);
        MeanIsGrowth(s);
        CarryCompares(s);
        ValueLipschitz(o, s, n, x, y);
      }
    }
  }

  lemma PriceNonNegative(e: Elementary, o: Terms, m: Setting, n: nat, x: real)
    requires e.Lawful()
    ensures PriceAt(e, o, m, n, x) >= 0.0
    ensures o.kind == Call && o.strike > 0.0 && x <= 0.0 ==> PriceAt(e, o, m, n, x) == 0.0
  {
    hide ValueToGo, StepOf, Grown, Sound;
    if Builds(m, n) {
      ValueNonNegative(o, StepOf(e, m, n), n, x);
    } else if m.expiry > 0.0 && n > 0 {
      ForwardNonNegative(o, Grown(e, -m.rate, m.expiry), Grown(e, m.rate - m.dividendYield, m.expiry), x);
    }
  }

  lemma ForwardNonNegative(o: Terms, bond: real, carry: real, x: real)
    requires bond > 0.0 && carry > 0.0
    ensures ForwardPrice(o, bond, carry, x) >= 0.0
    ensures o.kind == Call && o.strike > 0.0 && x <= 0.0 ==> ForwardPrice(o, bond, carry, x) == 0.0
  {
    var payoff := Payoff(o.kind, x * carry, o.strike);
    assert Product(bond, payoff) == ForwardPrice(o, bond, carry, x);
    assert Product(x, carry) == x * carry;
  }

  /** A call's continued price is the price at every spot, and a put's at every positive spot. */
  lemma PriceContinued(e: Elementary, o: Terms, m: Setting, n: nat, x: real)
    requires e.Lawful() && o.strike > 0.0 && (x > 0.0 || o.kind == Call)
    ensures LatticePrice(e, o, m, x, n) == PriceAt(e, o, m, n, x)
  {
    hide PriceAt, StepOf, NodeValue, Payoff;
    PriceNonNegative(e, o, m, n, x);
    if x > 0.0 {
      PriceIsPriceAt(e, o, m, n, x);
    }
  }

  lemma QuotientSign(a: real, b: real)
    requires b > 0.0
    ensures a >= 0.0 <==> a / b >= 0.0
    ensures a <= 0.0 <==> a / b <= 0.0
    ensures Abs(a) <= b ==> Abs(a / b) <= 1.0
  {
    var q := a / b;
    assert Mul(q, b) == a;
    assert Product(q, b) == a;
    assert Product(q - 1.0, b) == a - b;
    assert Product(q + 1.0, b) == a + b;
  }

  /** The bump delta and gamma a pricer reports have the signs of a convex monotone price: for calls at
      every spot; for puts exactly where the lower bumped spot stays positive, or the option is worthless. */
  lemma DeltaAndGammaSigns(e: Elementary, o: Terms, m: Setting, spot: real, n: nat)
    requires e.Lawful() && spot > 0.0 && o.strike > 0.0
    ensures var g := BumpGreeks(e, o, m, spot, LatticePrice(e, o, m, spot, n), n);
            && (o.kind == Call ==> g.delta >= 0.0 && g.gamma >= 0.0)
            && (o.kind == Put ==>
                  (g.delta <= 0.0 && g.gamma >= 0.0
                   <==> spot > SPOT_MINIMUM_BUMP || LatticePrice(e, o, m, spot, n) == 0.0))
  {
    hide LatticePrice, PriceAt, StepOf, SpotBump;
    var h := SpotBump(spot);
    var up, mid, down := LatticePrice(e, o, m, spot + h, n), LatticePrice(e, o, m, spot, n), LatticePrice(e, o, m, spot - h, n);
    PriceContinued(e, o, m, n, spot + h);
    PriceContinued(e, o, m, n, spot);
    PriceNonNegative(e, o, m, n, spot + h);
    PriceNonNegative(e, o, m, n, spot);
    PriceMonotone(e, o, m, n, spot, spot + h);
    assert Product(h, h) == h * h;
    QuotientSign(up - down, 2.0 * h);
    QuotientSign(up - 2.0 * mid + down, h * h);
    if o.kind == Call || spot > SPOT_MINIMUM_BUMP {
      PriceContinued(e, o, m, n, spot - h);
      PriceConvex(e, o, m, n, spot, h);
      PriceMonotone(e, o, m, n, spot - h, spot + h);
    } else {
      BumpedToZero(e, o, m, spot, n);
    }
  }

  lemma BumpedToZero(e: Elementary, o: Terms, m: Setting, spot: real, n: nat)
    requires e.Lawful() && 0.0 < spot <= SPOT_MINIMUM_BUMP
    ensures LatticePrice(e, o, m, spot - SpotBump(spot), n) == 0.0
  {
  }

  /** Delta is at most one in size when dividends are not negative and the up-probability is not clamped
      at zero. */
  lemma DeltaBounded(e: Elementary, o: Terms, m: Setting, spot: real, n: nat)
    requires e.Lawful() && spot > 0.0 && o.strike > 0.0 && NoCarryGain(e, m, n)
    requires o.kind == Call || spot > SPOT_MINIMUM_BUMP
    ensures Abs(BumpGreeks(e, o, m, spot, LatticePrice(e, o, m, spot, n), n).delta) <= 1.0
  {
    hide LatticePrice, PriceAt, StepOf, SpotBump, NoCarryGain;
    var h := SpotBump(spot);
    PriceContinued(e, o, m, n, spot + h);
    PriceContinued(e, o, m, n, spot - h);
    PriceLipschitz(e, o, m, n, spot - h, spot + h);
    QuotientSign(LatticePrice(e, o, m, spot + h, n) - LatticePrice(e, o, m, spot - h, n), 2.0 * h);
  }

  /** The reported signs do fail: an American put struck above a spot at or below the bump floor shows a
      positive delta and a negative gamma. */
  lemma TinySpotPut(e: Elementary, m: Setting, spot: real, strike: real, n: nat)
    requires e.Lawful() && 0.0 < spot <= SPOT_MINIMUM_BUMP && strike > spot + SPOT_MINIMUM_BUMP
    ensures var o := Terms(Put, American, strike);
            var g := BumpGreeks(e, o, m, spot, LatticePrice(e, o, m, spot, n), n);
            g.delta > 0.0 && g.gamma < 0.0
  {
    hide LatticePrice, PriceAt, StepOf;
    var o, h := Terms(Put, American, strike), SpotBump(spot);
    assert h == SPOT_MINIMUM_BUMP;
    BumpedToZero(e, o, m, spot, n);
    AmericanDominates(e, Put, American, strike, m, spot + h, n);
    AmericanDominates(e, Put, American, strike, m, spot, n);
    PriceContinued(e, o, m, n, spot + h);
    PriceContinued(e, o, m, n, spot);
    PriceMonotone(e, o, m, n, spot, spot + h);
    var up, mid, down := LatticePrice(e, o, m, spot + h, n), LatticePrice(e, o, m, spot, n), LatticePrice(e, o, m, spot - h, n);
    assert Product(h, h) == h * h;
    QuotientSign(up - down, 2.0 * h);
    QuotientSign(up - 2.0 * mid + down, h * h);
  }
}
