/** Present values on a zero curve. `None` stands for the NaN of an unpriceable request. */
module FixedIncome {
  import opened Options
  import opened Reals
  import opened ZeroCurve

  datatype Cashflow = Cashflow(time: real, amount: real)

  function DiscountFactor(e: Elementary, zero: real, time: real): (factor: real)
    requires e.Lawful()
    ensures factor > 0.0
  {
    if time <= 0.0 then 1.0
    else
      e.ExpPositive(Mul(-zero, time));
      e.exp(Mul(-zero, time))
  }

  function DiscountFactorAtTime(e: Elementary, pillars: seq<CurvePoint>, time: real): Option<real>
    requires e.Lawful()
  {
    if |pillars| == 0 || time < 0.0 then None
    else Some(DiscountFactor(e, CurveZero(pillars, time), time))
  }

  function AddFlow(earlier: Option<real>, amount: real, factor: Option<real>): Option<real> {
    if earlier.None? || factor.None? then None else Some(earlier.value + Mul(amount, factor.value))
  }

  /** The sum of amounts times discount factors, undefined when any date is. */
  function BondValue(e: Elementary, pillars: seq<CurvePoint>, cashflows: seq<Cashflow>): Option<real>
    requires e.Lawful()
  {
    if cashflows == [] then Some(0.0)
    else
      var last := cashflows[|cashflows| - 1];
      AddFlow(BondValue(e, pillars, cashflows[..|cashflows| - 1]), last.amount, DiscountFactorAtTime(e, pillars, last.time))
  }

  method FixedCouponBondPv(e: Elementary, pillars: seq<CurvePoint>, cashflows: seq<Cashflow>) returns (pv: Option<real>)
    requires e.Lawful()
    ensures pv == if |pillars| == 0 || |cashflows| == 0 then None else BondValue(e, pillars, cashflows)
  {
    if |pillars| == 0 || |cashflows| == 0 {
      return None;
    }
    hide BondValue, DiscountFactor, Mul;
    var sum := 0.0;
    assert BondValue(e, pillars, cashflows[..0]) == Some(0.0) by { BondGrows(e, pillars, cashflows, 0); }
    for i := 0 to |cashflows|
      invariant BondValue(e, pillars, cashflows[..i]) == Some(sum)
    {
      var cashflow := cashflows[i];
      BondGrows(e, pillars, cashflows, i);
      if cashflow.time < 0.0 {
        BondUndefined(e, pillars, cashflows, i);
        return None;
      }
      var factor := DiscountFactorAtTime(e, pillars, cashflow.time);
      sum := sum + Mul(cashflow.amount, factor.value);
    }
    assert cashflows[..|cashflows|] == cashflows;
    return Some(sum);
  }

  lemma BondGrows(e: Elementary, pillars: seq<CurvePoint>, cashflows: seq<Cashflow>, i: nat)
    requires e.Lawful() && i < |cashflows|
    ensures BondValue(e, pillars, cashflows[..0]) == Some(0.0)
    ensures BondValue(e, pillars, cashflows[..i + 1])
         == AddFlow(BondValue(e, pillars, cashflows[..i]), cashflows[i].amount, DiscountFactorAtTime(e, pillars, cashflows[i].time))
  {
    hide AddFlow, DiscountFactorAtTime;
    var upTo := cashflows[..i + 1];
    assert upTo[..|upTo| - 1] == cashflows[..i];
    assert upTo[|upTo| - 1] == cashflows[i];
  }

  lemma {:induction false} BondUndefined(e: Elementary, pillars: seq<CurvePoint>, cashflows: seq<Cashflow>, i: nat)
    requires e.Lawful() && i < |cashflows| && cashflows[i].time < 0.0
    ensures BondValue(e, pillars, cashflows) == None
    decreases |cashflows|
  {
    if i < |cashflows| - 1 {
      BondUndefined(e, pillars, cashflows[..|cashflows| - 1], i);
    }
  }

  function SimpleForwardRate(start: real, end: real, accrual: real): Option<real> {
    if accrual <= 0.0 || start <= 0.0 || end <= 0.0 then None
    else Some((start / end - 1.0) / accrual)
  }

  function FraNpv(e: Elementary, pillars: seq<CurvePoint>, notional: real, fixedRate: real, start: real, end: real,
                  payment: real): Option<real>
    requires e.Lawful()
  {
    if |pillars| == 0 || start < 0.0 || end < 0.0 || payment < 0.0 then None
    else if end - start <= 0.0 then None
    else
      var atStart, atEnd := DiscountFactorAtTime(e, pillars, start).value, DiscountFactorAtTime(e, pillars, end).value;
      var atPayment := DiscountFactorAtTime(e, pillars, payment).value;
      match SimpleForwardRate(atStart, atEnd, end - start)
      case None => None
      case Some(forward) => Some(FraValue(notional, end - start, atPayment, fixedRate - forward))
  }

  function FraValue(notional: real, accrual: real, discount: real, spread: real): real {
    notional * accrual * discount * spread
  }

  /** What one unit becomes at simple interest. */
  function SimpleGrowth(rate: real, accrual: real): real {
    1.0 + rate * accrual
  }

  /** A forward-rate agreement is worth nothing exactly at the rate that carries one discount factor
      to the other, whatever its payment date (and any rate is fair on no notional). */
  lemma FraIsFair(e: Elementary, pillars: seq<CurvePoint>, notional: real, rate: real, start: real, end: real, payment: real)
    requires e.Lawful() && |pillars| > 0 && 0.0 <= start < end && payment >= 0.0
    ensures FraNpv(e, pillars, notional, rate, start, end, payment) == Some(0.0)
        <==> notional == 0.0
             || DiscountFactorAtTime(e, pillars, end).value * SimpleGrowth(rate, end - start)
                == DiscountFactorAtTime(e, pillars, start).value
  {
    hide CurveZero, DiscountFactor, FraValue, SimpleGrowth;
    var atStart, atEnd := DiscountFactorAtTime(e, pillars, start).value, DiscountFactorAtTime(e, pillars, end).value;
    var atPayment := DiscountFactorAtTime(e, pillars, payment).value;
    ForwardCarries(atStart, atEnd, end - start, rate);
    var forward := SimpleForwardRate(atStart, atEnd, end - start).value;
    FourFactors(notional, end - start, atPayment, rate - forward);
  }

  lemma ForwardCarries(atStart: real, atEnd: real, accrual: real, rate: real)
    requires atStart > 0.0 && atEnd > 0.0 && accrual > 0.0
    ensures SimpleForwardRate(atStart, atEnd, accrual).Some?
    ensures rate == SimpleForwardRate(atStart, atEnd, accrual).value <==> atEnd * SimpleGrowth(rate, accrual) == atStart
  {
    var ratio, forward := atStart / atEnd, (atStart / atEnd - 1.0) / accrual;
    assert Mul(ratio, atEnd) == atStart;
    assert Mul(forward, accrual) == ratio - 1.0;
    assert Mul(atEnd, Mul(forward, accrual) + 1.0) == Mul(atEnd, ratio);
    assert Product(atEnd, accrual) > 0.0;
    assert Product(Product(atEnd, accrual), rate - forward)
        == atEnd * (1.0 + rate * accrual) - atEnd * (1.0 + Mul(forward, accrual));
  }

  lemma FourFactors(a: real, b: real, c: real, d: real)
    requires b > 0.0 && c > 0.0
    ensures FraValue(a, b, c, d) == 0.0 <==> a == 0.0 || d == 0.0
  {
    assert Product(b, c) == b * c;
    assert Product(a, b * c) == a * b * c;
    assert Product(a * b * c, d) == a * b * c * d;
  }

  // ---- What the values mean ----

  /** Zero rates are continuously compounded: the logarithm of the factor is the rate times the time, negated. */
  lemma FactorCompounds(e: Elementary, zero: real, time: real)
    requires e.Lawful() && time >= 0.0
    ensures e.ln(DiscountFactor(e, zero, time)) == -(zero * time)
  {
    e.ExpZero();
    assert -(zero * time) == Mul(-zero, time);
    assert time == 0.0 ==> Mul(-zero, time) == 0.0;
    e.LnOfExp(Mul(-zero, time));
  }

  /** A single flow is worth its amount times its factor, and values of flows add. */
  lemma {:induction false} FlowsAdd(e: Elementary, pillars: seq<CurvePoint>, a: seq<Cashflow>, b: seq<Cashflow>)
    requires e.Lawful() && BondValue(e, pillars, a).Some? && BondValue(e, pillars, b).Some?
    ensures BondValue(e, pillars, a + b) == Some(BondValue(e, pillars, a).value + BondValue(e, pillars, b).value)
    decreases |b|
  {
    hide BondValue, DiscountFactorAtTime, AddFlow, Elementary.Lawful;
    if b == [] {
      BondOfNone(e, pillars);
      assert a + b == a;
    } else {
      var fewer, last := b[..|b| - 1], b[|b| - 1];
      var factor := DiscountFactorAtTime(e, pillars, last.time);
      assert b == fewer + [last] && a + b == (a + fewer) + [last];
      BondAppends(e, pillars, fewer, last);
      BondAppends(e, pillars, a + fewer, last);
      FlowNeedsBoth(BondValue(e, pillars, fewer), last.amount, factor);
      FlowsAdd(e, pillars, a, fewer);
      FlowAdds(BondValue(e, pillars, a).value, BondValue(e, pillars, fewer).value, last.amount, factor);
    }
  }

  lemma BondOfNone(e: Elementary, pillars: seq<CurvePoint>)
    requires e.Lawful()
    ensures BondValue(e, pillars, []) == Some(0.0)
  {
  }

  lemma FlowNeedsBoth(earlier: Option<real>, amount: real, factor: Option<real>)
    ensures AddFlow(earlier, amount, factor).Some? <==> earlier.Some? && factor.Some?
  {
  }

  lemma FlowAdds(x: real, y: real, amount: real, factor: Option<real>)
    requires factor.Some?
    ensures AddFlow(Some(y), amount, factor).Some?
    ensures AddFlow(Some(x + y), amount, factor) == Some(x + AddFlow(Some(y), amount, factor).value)
  {
    hide Mul;
  }

  lemma BondAppends(e: Elementary, pillars: seq<CurvePoint>, flows: seq<Cashflow>, last: Cashflow)
    requires e.Lawful()
    ensures BondValue(e, pillars, flows + [last])
         == AddFlow(BondValue(e, pillars, flows), last.amount, DiscountFactorAtTime(e, pillars, last.time))
  {
    hide DiscountFactorAtTime, AddFlow;
    var all := flows + [last];
    assert all[..|all| - 1] == flows;
  }

  lemma OneFlow(e: Elementary, pillars: seq<CurvePoint>, time: real, amount: real)
    requires e.Lawful() && |pillars| > 0 && time >= 0.0
    ensures BondValue(e, pillars, [Cashflow(time, amount)])
         == Some(Mul(amount, DiscountFactor(e, CurveZero(pillars, time), time)))
  {
    hide CurveZero, DiscountFactor, Mul;
    var flows := [Cashflow(time, amount)];
    assert flows[..|flows| - 1] == [];
  }

  /** A forward-rate agreement paid at its end pays the fixed rate: it is worth the fixed leg less the floating one, a unit
      at the end with interest against a unit at the start. */
  lemma FraReplicates(e: Elementary, pillars: seq<CurvePoint>, notional: real, rate: real, start: real, end: real)
    requires e.Lawful() && |pillars| > 0 && 0.0 <= start < end
    ensures var atStart, atEnd := DiscountFactorAtTime(e, pillars, start).value, DiscountFactorAtTime(e, pillars, end).value;
            FraNpv(e, pillars, notional, rate, start, end, end)
            == Some(Mul(notional, Mul(atEnd, SimpleGrowth(rate, end - start)) - atStart))
  {
    hide CurveZero, DiscountFactor, FraValue, SimpleForwardRate, SimpleGrowth;
    var atStart, atEnd := DiscountFactor(e, CurveZero(pillars, start), start), DiscountFactor(e, CurveZero(pillars, end), end);
    ForwardCarries(atStart, atEnd, end - start, rate);
    FraLegs(notional, end - start, atStart, atEnd, rate);
    assert FraNpv(e, pillars, notional, rate, start, end, end)
        == Some(FraValue(notional, end - start, atEnd, rate - SimpleForwardRate(atStart, atEnd, end - start).value));
  }

  lemma FraLegs(notional: real, accrual: real, atStart: real, atEnd: real, rate: real)
    requires atStart > 0.0 && atEnd > 0.0 && accrual > 0.0
    ensures FraValue(notional, accrual, atEnd, rate - SimpleForwardRate(atStart, atEnd, accrual).value)
         == Mul(notional, Mul(atEnd, SimpleGrowth(rate, accrual)) - atStart)
  {
    var ratio := atStart / atEnd;
    var forward := (ratio - 1.0) / accrual;
    assert ratio * atEnd == atStart;
    assert accrual * forward == ratio - 1.0;
    assert Mul(atEnd, accrual * forward) == Mul(atEnd, ratio - 1.0);
    assert Mul(atEnd, accrual * (rate - forward)) == atEnd * (1.0 + rate * accrual) - atStart;
    assert Mul(notional, Mul(atEnd, accrual * (rate - forward))) == FraValue(notional, accrual, atEnd, rate - forward);
  }

  /** Paid on another date, a forward-rate agreement is worth as much more as that date's discount factor exceeds the end's. */
  lemma FraPaidElsewhere(e: Elementary, pillars: seq<CurvePoint>, notional: real, rate: real, start: real, end: real, payment: real)
    requires e.Lawful() && |pillars| > 0 && 0.0 <= start < end && payment >= 0.0
    ensures var atEnd, atPayment := DiscountFactorAtTime(e, pillars, end).value, DiscountFactorAtTime(e, pillars, payment).value;
            var atOnce, later := FraNpv(e, pillars, notional, rate, start, end, end), FraNpv(e, pillars, notional, rate, start, end, payment);
            atOnce.Some? && later.Some? && Mul(later.value, atEnd) == Mul(atOnce.value, atPayment)
  {
    hide CurveZero, DiscountFactor, FraValue, SimpleForwardRate;
    var atStart, atEnd := DiscountFactor(e, CurveZero(pillars, start), start), DiscountFactor(e, CurveZero(pillars, end), end);
    var atPayment := DiscountFactor(e, CurveZero(pillars, payment), payment);
    ForwardCarries(atStart, atEnd, end - start, rate);
    DiscountsSwap(notional, end - start, atEnd, atPayment, rate - SimpleForwardRate(atStart, atEnd, end - start).value);
  }

  lemma DiscountsSwap(notional: real, accrual: real, atEnd: real, atPayment: real, spread: real)
    ensures Mul(FraValue(notional, accrual, atPayment, spread), atEnd) == Mul(FraValue(notional, accrual, atEnd, spread), atPayment)
  {
    assert Mul(notional * accrual * spread, atPayment * atEnd) == Mul(notional * accrual * spread, atEnd * atPayment);
  }
}
