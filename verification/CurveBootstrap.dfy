/** Bootstrapping a zero curve: the finished curve reprices every quote it was built from. */
module CurveBootstrap {
  import opened Options
  import opened Reals
  import opened ZeroCurve
  import opened FixedIncome
  import opened SwapSolver

  /** `Other` stands for any instrument the bootstrap does not know. */
  datatype PillarKind = Deposit | Futures | Swap | Other

  datatype PillarQuote = PillarQuote(tenor: string, tenorDays: int, kind: PillarKind, rate: real)

  datatype BootstrapResult = BootstrapResult(status: BootstrapStatus, pillars: seq<CurvePoint>)

  const ZERO_TOLERANCE := 0.0000000001

  function PillarTime(tenorDays: int): real {
    (tenorDays as real) / 365.0
  }

  predicate QuoteValid(quote: PillarQuote) {
    quote.tenorDays > 0 && quote.rate >= 0.0
  }

  ghost predicate AllValid(quotes: seq<PillarQuote>) {
    forall i :: 0 <= i < |quotes| ==> QuoteValid(quotes[i])
  }

  ghost predicate SortedByTenor(quotes: seq<PillarQuote>) {
    forall i, j :: 0 <= i < j < |quotes| ==> quotes[i].tenorDays < quotes[j].tenorDays
  }

  method QuotesSortedByTenor(quotes: seq<PillarQuote>) returns (sorted: bool)
    ensures sorted <==> SortedByTenor(quotes)
  {
    if |quotes| == 0 {
      return true;
    }
    for i := 1 to |quotes|
      invariant SortedByTenor(quotes[..i])
    {
      if quotes[i].tenorDays <= quotes[i - 1].tenorDays {
        return false;
      }
    }
    assert quotes[..|quotes|] == quotes;
    return true;
  }

  // ---- Zero rates from deposits and futures ----

  function DepositZeroRate(e: Elementary, rate: real, time: real): real {
    if time <= 0.0 then 0.0
    else if SimpleGrowth(rate, time) == 0.0 then 0.0
    else
      var factor := 1.0 / SimpleGrowth(rate, time);
      if factor <= 0.0 then 0.0 else -e.ln(factor) / time
  }

  function ForwardZeroRate(e: Elementary, rate: real, previousTime: real, previousZero: real, time: real): real
    requires e.Lawful()
  {
    if time <= 0.0 then 0.0
    else
      var accrual := time - previousTime;
      if accrual <= 0.0 then DepositZeroRate(e, rate, time)
      else if SimpleGrowth(rate, accrual) == 0.0 then 0.0
      else
        var factor := DiscountFactor(e, previousZero, previousTime) / SimpleGrowth(rate, accrual);
        if factor <= 0.0 then 0.0 else -e.ln(factor) / time
  }

  /** The zero rate read off a discount factor gives the factor back, and is not negative below one. */
  lemma ZeroOfFactor(e: Elementary, factor: real, time: real)
    requires e.Lawful() && 0.0 < factor <= 1.0 && time > 0.0
    ensures DiscountFactor(e, -e.ln(factor) / time, time) == factor
    ensures -e.ln(factor) / time >= 0.0
  {
    e.LnOf(factor);
    var zero := -e.ln(factor) / time;
    assert Mul(zero, time) == -e.ln(factor);
    assert Product(zero, time) == -e.ln(factor);
    assert Mul(-zero, time) == e.ln(factor);
  }

  lemma DiscountedOnce(growth: real, before: real)
    requires growth >= 1.0 && 0.0 < before <= 1.0
    ensures 0.0 < before / growth <= 1.0 && before / growth * growth == before
  {
    var factor := before / growth;
    assert Mul(factor, growth) == before;
    assert Product(factor, growth) == before;
    assert Product(1.0 - factor, growth) == growth - before;
  }

  lemma GrowthAboveOne(rate: real, accrual: real)
    requires rate >= 0.0 && accrual > 0.0
    ensures SimpleGrowth(rate, accrual) >= 1.0
  {
    assert Product(rate, accrual) == rate * accrual;
  }

  /** A deposit's zero rate makes its simple interest fair. */
  lemma DepositIsFair(e: Elementary, rate: real, time: real)
    requires e.Lawful() && rate >= 0.0 && time > 0.0
    ensures var zero := DepositZeroRate(e, rate, time);
            zero >= 0.0 && DiscountFactor(e, zero, time) * SimpleGrowth(rate, time) == 1.0
  {
    GrowthAboveOne(rate, time);
    hide SimpleGrowth, DiscountFactor;
    var growth := SimpleGrowth(rate, time);
    DiscountedOnce(growth, 1.0);
    ZeroOfFactor(e, 1.0 / growth, time);
  }

  /** A future's zero rate carries the previous pillar's factor by the quoted forward. */
  lemma FutureIsFair(e: Elementary, rate: real, previousTime: real, previousZero: real, time: real)
    requires e.Lawful() && rate >= 0.0 && 0.0 <= previousTime < time && previousZero >= 0.0
    ensures var zero := ForwardZeroRate(e, rate, previousTime, previousZero, time);
            && zero >= 0.0
            && DiscountFactor(e, zero, time) * SimpleGrowth(rate, time - previousTime) == DiscountFactor(e, previousZero, previousTime)
  {
    var accrual := time - previousTime;
    GrowthAboveOne(rate, accrual);
    hide SimpleGrowth, DiscountFactor;
    var growth := SimpleGrowth(rate, accrual);
    FactorBelowOne(e, previousZero, previousTime);
    var before := DiscountFactor(e, previousZero, previousTime);
    DiscountedOnce(growth, before);
    ZeroOfFactor(e, before / growth, time);
  }

  lemma FactorBelowOne(e: Elementary, zero: real, time: real)
    requires e.Lawful() && zero >= 0.0
    ensures DiscountFactor(e, zero, time) <= 1.0
  {
    if time > 0.0 {
      DiscountMoves(e, zero, zero, time);
    }
  }

  // ---- The curve so far ----

  /** One point per quote so far, at the quote's date, with its own discount factor. */
  ghost predicate Fits(e: Elementary, pillars: seq<CurvePoint>, quotes: seq<PillarQuote>)
    requires e.Lawful()
  {
    && |pillars| <= |quotes|
    && forall i :: 0 <= i < |pillars| ==> FitsAt(e, pillars[i], quotes[i])
  }

  ghost predicate FitsAt(e: Elementary, pillar: CurvePoint, quote: PillarQuote)
    requires e.Lawful()
  {
    && pillar.tenor == quote.tenor && pillar.time == PillarTime(quote.tenorDays)
    && pillar.zero >= 0.0 && pillar.discount == DiscountFactor(e, pillar.zero, pillar.time)
  }

  /** Every pillar's discount factor is positive and at most one. */
  lemma FactorsInUnit(e: Elementary, pillars: seq<CurvePoint>, quotes: seq<PillarQuote>, i: nat)
    requires e.Lawful() && Fits(e, pillars, quotes) && i < |pillars|
    ensures 0.0 < pillars[i].discount <= 1.0
  {
    assert FitsAt(e, pillars[i], quotes[i]);
    FactorBelowOne(e, pillars[i].zero, pillars[i].time);
  }

  lemma TimesApart(a: int, b: int)
    requires a < b
    ensures PillarTime(a) + TIME_TOLERANCE < PillarTime(b)
    ensures a > 0 ==> PillarTime(a) > ZERO_TOLERANCE
  {
  }

  /** Coupon dates are half years and pillar dates are days over 365: they coincide or are far apart. */
  lemma CouponOffPillar(days: int, k: nat)
    ensures CouponTime(k) <= PillarTime(days) || PillarTime(days) + TIME_TOLERANCE < CouponTime(k)
  {
    assert 730.0 * CouponTime(k) == (365 * k) as real;
    assert 730.0 * PillarTime(days) == (2 * days) as real;
    if 2 * days < 365 * k {
      assert (2 * days) as real + 1.0 <= (365 * k) as real;
    } else {
      assert (365 * k) as real <= (2 * days) as real;
    }
  }

  lemma FitsReady(e: Elementary, pillars: seq<CurvePoint>, quotes: seq<PillarQuote>, i: nat)
    requires e.Lawful() && AllValid(quotes) && SortedByTenor(quotes) && Fits(e, pillars, quotes) && i <= |pillars|
    ensures Spaced(Nodes(pillars))
    ensures i < |quotes| ==> Ready(Nodes(pillars)[..i], PillarTime(quotes[i].tenorDays), quotes[i].rate)
  {
    hide PillarTime, CouponTime;
    var nodes := Nodes(pillars);
    forall j | 0 <= j < |nodes|
      ensures nodes[j].time == PillarTime(quotes[j].tenorDays) && nodes[j].zero >= 0.0
    {
      assert FitsAt(e, pillars[j], quotes[j]);
    }
    forall j, k | 0 <= j < k < |nodes| ensures nodes[j].time + TIME_TOLERANCE < nodes[k].time {
      TimesApart(quotes[j].tenorDays, quotes[k].tenorDays);
    }
    if i < |quotes| {
      var maturity := PillarTime(quotes[i].tenorDays);
      var extended := nodes[..i] + [SolvedNode(maturity, 0.0)];
      forall j, k | 0 <= j < k < |extended| ensures extended[j].time + TIME_TOLERANCE < extended[k].time {
        TimesApart(quotes[j].tenorDays, quotes[k].tenorDays);
      }
      forall k: nat ensures ClearOf(nodes[..i], CouponTime(k)) {
        forall j | 0 <= j < i
          ensures CouponTime(k) <= nodes[..i][j].time || nodes[..i][j].time + TIME_TOLERANCE < CouponTime(k)
        {
          CouponOffPillar(quotes[j].tenorDays, k);
        }
      }
      assert QuoteValid(quotes[i]);
      TimesApart(quotes[i].tenorDays, quotes[i].tenorDays + 1);
    }
  }

  /** The zero rate the curve answers at its own pillar is that pillar's. */
  lemma CurveZeroAtPillar(e: Elementary, pillars: seq<CurvePoint>, quotes: seq<PillarQuote>, i: nat)
    requires e.Lawful() && AllValid(quotes) && SortedByTenor(quotes) && Fits(e, pillars, quotes) && i < |pillars|
    ensures CurveZero(pillars, PillarTime(quotes[i].tenorDays)) == pillars[i].zero
    ensures PillarTime(quotes[i].tenorDays) > 0.0
    ensures DiscountFactorAtTime(e, pillars, PillarTime(quotes[i].tenorDays)) == Some(pillars[i].discount)
  {
    hide ZeroAt, PillarTime, DiscountFactor, Ready;
    FitsReady(e, pillars, quotes, i);
    CurveInOrder(Nodes(pillars));
    assert FitsAt(e, pillars[i], quotes[i]) && QuoteValid(quotes[i]);
    TimesApart(quotes[i].tenorDays, quotes[i].tenorDays + 1);
    ZeroAtNode(Nodes(pillars), i);
  }

  // ---- What each kind of quote asks of the curve ----

  function PreviousTime(quotes: seq<PillarQuote>, i: nat): real
    requires i < |quotes|
  {
    if i == 0 then 0.0 else PillarTime(quotes[i - 1].tenorDays)
  }

  function CouponFlows(maturity: real, rate: real, count: nat): seq<Cashflow> {
    seq(count, j requires 0 <= j < count => Cashflow(CouponTime(j + 1), 0.5 * rate))
  }

  /** A par swap's fixed leg: half-yearly coupons, the last with the redemption at maturity. */
  function SwapFlows(maturity: real, rate: real): seq<Cashflow>
    requires Periods(maturity) > 0
  {
    CouponFlows(maturity, rate, Periods(maturity) - 1) + [Cashflow(maturity, 1.0 + 0.5 * rate)]
  }

  /** The curve reprices a quote: the deposit's simple interest is fair, the forward-rate agreement from the
      previous pillar is worth nothing on any notional, the swap's fixed leg is within 1e-8 of par. */
  ghost predicate Repriced(e: Elementary, pillars: seq<CurvePoint>, quotes: seq<PillarQuote>, i: nat)
    requires e.Lawful() && i < |quotes|
  {
    var quote, time := quotes[i], PillarTime(quotes[i].tenorDays);
    match quote.kind
    case Deposit =>
      var factor := DiscountFactorAtTime(e, pillars, time);
      factor.Some? && factor.value * SimpleGrowth(quote.rate, time) == 1.0
    case Futures =>
      forall notional: real, payment: real {:trigger FraNpv(e, pillars, notional, quote.rate, PreviousTime(quotes, i), time, payment)} ::
        payment >= 0.0 ==> FraNpv(e, pillars, notional, quote.rate, PreviousTime(quotes, i), time, payment) == Some(0.0)
    case Swap =>
      Periods(time) > 0
      && var value := BondValue(e, pillars, SwapFlows(time, quote.rate));
         value.Some? && Abs(value.value - 1.0) < FINAL_TOLERANCE
    case Other => false
  }

  /** The equation a pillar was solved from, on the curve as it stood when it was solved. */
  ghost predicate SolvedAt(e: Elementary, nodes: seq<SolvedNode>, quotes: seq<PillarQuote>, i: nat)
    requires e.Lawful() && i < |nodes| && i < |quotes|
  {
    var rate, time, zero := quotes[i].rate, PillarTime(quotes[i].tenorDays), nodes[i].zero;
    match quotes[i].kind
    case Deposit => DiscountFactor(e, zero, time) * SimpleGrowth(rate, time) == 1.0
    case Futures =>
      DiscountFactor(e, zero, time) * SimpleGrowth(rate, time - PreviousTime(quotes, i))
      == if i == 0 then 1.0 else DiscountFactor(e, nodes[i - 1].zero, PreviousTime(quotes, i))
    case Swap =>
      Periods(time) > 0 && zero <= MAX_ZERO_RATE && Abs(ParError(e, nodes[..i], time, rate, zero)) < FINAL_TOLERANCE
    case Other => false
  }

  lemma SolvedStays(e: Elementary, nodes: seq<SolvedNode>, longer: seq<SolvedNode>, quotes: seq<PillarQuote>, i: nat)
    requires e.Lawful() && i < |nodes| && i < |quotes| && nodes <= longer && SolvedAt(e, nodes, quotes, i)
    ensures SolvedAt(e, longer, quotes, i)
  {
    hide ParError, DiscountFactor, SimpleGrowth, PillarTime, Periods;
    assert longer[..i] == nodes[..i];
  }

  // ---- Solved then, repriced now ----

  /** A coupon before its swap's maturity has, on the finished curve, the factor it had when the swap was solved. */
  lemma CouponKeepsFactor(e: Elementary, pillars: seq<CurvePoint>, quotes: seq<PillarQuote>, i: nat, k: nat)
    requires e.Lawful() && AllValid(quotes) && SortedByTenor(quotes) && Fits(e, pillars, quotes) && i < |pillars|
    requires 0 < k < Periods(PillarTime(quotes[i].tenorDays))
    ensures DiscountFactorAtTime(e, pillars, CouponTime(k))
         == Some(CouponFactor(e, Nodes(pillars)[..i], PillarTime(quotes[i].tenorDays), pillars[i].zero, k))
  {
    hide ZeroAt, PillarTime, DiscountFactor, Ready, CouponTime, Periods;
    var nodes, maturity, t := Nodes(pillars), PillarTime(quotes[i].tenorDays), CouponTime(k);
    FitsReady(e, pillars, quotes, i);
    CurveInOrder(nodes);
    CouponsBeforeMaturity(maturity, k);
    assert FitsAt(e, pillars[i], quotes[i]);
    var asSolved := nodes[..i] + [SolvedNode(maturity, pillars[i].zero)];
    assert nodes == asSolved + nodes[i + 1..];
    LaterPillarsKeepRates(asSolved, nodes[i + 1..], t);
  }

  lemma {:induction false} FlowsAreCoupons(e: Elementary, pillars: seq<CurvePoint>, quotes: seq<PillarQuote>, i: nat, count: nat)
    requires e.Lawful() && AllValid(quotes) && SortedByTenor(quotes) && Fits(e, pillars, quotes) && i < |pillars|
    requires count < Periods(PillarTime(quotes[i].tenorDays))
    ensures BondValue(e, pillars, CouponFlows(PillarTime(quotes[i].tenorDays), quotes[i].rate, count))
         == Some(Coupons(e, Nodes(pillars)[..i], PillarTime(quotes[i].tenorDays), pillars[i].zero, 0.5 * quotes[i].rate, count))
  {
    hide CouponFactor, DiscountFactorAtTime, PillarTime, Periods, CouponTime, Mul;
    if count > 0 {
      FlowsAreCoupons(e, pillars, quotes, i, count - 1);
      CouponKeepsFactor(e, pillars, quotes, i, count);
      var maturity := PillarTime(quotes[i].tenorDays);
      var flows := CouponFlows(maturity, quotes[i].rate, count);
      assert flows[..count - 1] == CouponFlows(maturity, quotes[i].rate, count - 1);
    }
  }

  lemma SwapReprices(e: Elementary, pillars: seq<CurvePoint>, quotes: seq<PillarQuote>, i: nat)
    requires e.Lawful() && AllValid(quotes) && SortedByTenor(quotes) && Fits(e, pillars, quotes) && i < |pillars|
    requires quotes[i].kind == Swap && SolvedAt(e, Nodes(pillars), quotes, i)
    ensures Repriced(e, pillars, quotes, i)
  {
    hide DiscountFactorAtTime, DiscountFactor, PillarTime, Periods, CouponTime, Mul, Coupons;
    var maturity, rate := PillarTime(quotes[i].tenorDays), quotes[i].rate;
    var count := Periods(maturity) - 1;
    FlowsAreCoupons(e, pillars, quotes, i, count);
    CurveZeroAtPillar(e, pillars, quotes, i);
    assert FitsAt(e, pillars[i], quotes[i]);
    var flows := SwapFlows(maturity, rate);
    assert flows[..|flows| - 1] == CouponFlows(maturity, rate, count);
    assert flows[|flows| - 1] == Cashflow(maturity, 1.0 + 0.5 * rate);
  }

  lemma FuturesReprice(e: Elementary, pillars: seq<CurvePoint>, quotes: seq<PillarQuote>, i: nat)
    requires e.Lawful() && AllValid(quotes) && SortedByTenor(quotes) && Fits(e, pillars, quotes) && i < |pillars|
    requires quotes[i].kind == Futures && SolvedAt(e, Nodes(pillars), quotes, i)
    ensures Repriced(e, pillars, quotes, i)
  {
    hide CurveZero, PillarTime, FraNpv, SimpleGrowth;
    var rate, start, end := quotes[i].rate, PreviousTime(quotes, i), PillarTime(quotes[i].tenorDays);
    CurveZeroAtPillar(e, pillars, quotes, i);
    assert FitsAt(e, pillars[i], quotes[i]);
    if i > 0 {
      CurveZeroAtPillar(e, pillars, quotes, i - 1);
      assert FitsAt(e, pillars[i - 1], quotes[i - 1]);
      TimesApart(quotes[i - 1].tenorDays, quotes[i].tenorDays);
    }
    forall notional: real, payment: real {:trigger FraNpv(e, pillars, notional, rate, start, end, payment)} | payment >= 0.0
      ensures FraNpv(e, pillars, notional, rate, start, end, payment) == Some(0.0)
    {
      FraIsFair(e, pillars, notional, rate, start, end, payment);
    }
  }

  /** Later pillars never spoil an earlier quote: what was solved on a prefix is repriced by the whole curve. */
  lemma SolvedIsRepriced(e: Elementary, pillars: seq<CurvePoint>, quotes: seq<PillarQuote>, i: nat)
    requires e.Lawful() && AllValid(quotes) && SortedByTenor(quotes) && Fits(e, pillars, quotes) && i < |pillars|
    requires SolvedAt(e, Nodes(pillars), quotes, i)
    ensures Repriced(e, pillars, quotes, i)
  {
    hide DiscountFactor, CurveZero, FraNpv, SimpleGrowth, BondValue, PillarTime, Periods, ParError;
    match quotes[i].kind
    case Deposit =>
      CurveZeroAtPillar(e, pillars, quotes, i);
      assert FitsAt(e, pillars[i], quotes[i]);
    case Futures => FuturesReprice(e, pillars, quotes, i);
    case Swap => SwapReprices(e, pillars, quotes, i);
    case Other =>
  }

  // ---- The bootstrap ----

  /** Why the bootstrap stopped before a quote, given the pillars solved before it. */
  ghost predicate Stuck(e: Elementary, pillars: seq<CurvePoint>, quote: PillarQuote, status: BootstrapStatus)
    requires e.Lawful()
  {
    var time := PillarTime(quote.tenorDays);
    match status
    case Ok => false
    case UnsupportedInstrument => quote.kind == Other
    case InvalidInputs => quote.kind == Swap && Periods(time) <= 0
    case NoConvergence =>
      && quote.kind == Swap && Periods(time) > 0 && quote.rate > 0.0
      && (ParError(e, Nodes(pillars), time, quote.rate, MAX_ZERO_RATE) >= 0.0 || !Tame(time, quote.rate))
  }

  /** One pillar's zero rate; a status other than `Ok` stops the bootstrap. */
  method SolvePillar(e: Elementary, quotes: seq<PillarQuote>, pillars: seq<CurvePoint>, nodes: seq<SolvedNode>)
    returns (status: BootstrapStatus, zero: real)
    requires e.Lawful() && AllValid(quotes) && SortedByTenor(quotes) && Fits(e, pillars, quotes)
    requires nodes == Nodes(pillars) && |pillars| < |quotes|
    ensures status == Ok ==>
              var i := |pillars|;
              zero >= 0.0 && SolvedAt(e, nodes + [SolvedNode(PillarTime(quotes[i].tenorDays), zero)], quotes, i)
    ensures status != Ok ==> Stuck(e, pillars, quotes[|pillars|], status)
  {
    hide DiscountFactor, SimpleGrowth, PillarTime, Periods, ParError, DepositZeroRate, ForwardZeroRate, Tame;
    var i := |pillars|;
    var quote := quotes[i];
    var time := PillarTime(quote.tenorDays);
    assert QuoteValid(quote);
    TimesApart(quote.tenorDays, quote.tenorDays + 1);
    match quote.kind {
      case Deposit =>
        DepositIsFair(e, quote.rate, time);
        return Ok, DepositZeroRate(e, quote.rate, time);
      case Futures =>
        var previousTime := if |nodes| == 0 then 0.0 else nodes[|nodes| - 1].time;
        var previousZero := if |nodes| == 0 then 0.0 else nodes[|nodes| - 1].zero;
        if i > 0 {
          assert FitsAt(e, pillars[i - 1], quotes[i - 1]) && QuoteValid(quotes[i - 1]);
          TimesApart(quotes[i - 1].tenorDays, quote.tenorDays);
        } else {
          TodayIsUndiscounted(e);
        }
        FutureIsFair(e, quote.rate, previousTime, previousZero, time);
        return Ok, ForwardZeroRate(e, quote.rate, previousTime, previousZero, time);
      case Swap =>
        FitsReady(e, pillars, quotes, i);
        assert Nodes(pillars)[..i] == nodes;
        status, zero := SolveSwapZeroRate(e, nodes, time, quote.rate);
        assert (nodes + [SolvedNode(time, zero)])[..i] == nodes;
      case Other =>
        return UnsupportedInstrument, 0.0;
    }
  }

  lemma TodayIsUndiscounted(e: Elementary)
    requires e.Lawful()
    ensures DiscountFactor(e, 0.0, 0.0) == 1.0
  {
  }

  /** The finished curve reprices every quote, although each pillar was solved before the later ones existed.
      Otherwise the pillars found so far reprice their quotes and the next quote is the one that failed. */
  method BootstrapDiscountCurve(e: Elementary, quotes: seq<PillarQuote>) returns (result: BootstrapResult)
    requires e.Lawful()
    ensures Fits(e, result.pillars, quotes)
    ensures forall i :: 0 <= i < |result.pillars| ==> Repriced(e, result.pillars, quotes, i)
    ensures result.status == Ok ==>
              |result.pillars| == |quotes| > 0 && AllValid(quotes) && SortedByTenor(quotes)
    ensures forall i :: 0 <= i < |result.pillars| && quotes[i].kind == Swap ==> result.pillars[i].zero <= MAX_ZERO_RATE
    ensures quotes == [] || !AllValid(quotes) || !SortedByTenor(quotes) ==>
              result == BootstrapResult(InvalidInputs, [])
    ensures quotes != [] && AllValid(quotes) && SortedByTenor(quotes) && result.status != Ok ==>
              && |result.pillars| < |quotes|
              && Stuck(e, result.pillars, quotes[|result.pillars|], result.status)
  {
    hide DiscountFactor, PillarTime, Periods, ParError, Tame, Repriced, SolvedAt;
    if |quotes| == 0 {
      return BootstrapResult(InvalidInputs, []);
    }
    for i := 0 to |quotes|
      invariant forall j :: 0 <= j < i ==> QuoteValid(quotes[j])
    {
      if !QuoteValid(quotes[i]) {
        return BootstrapResult(InvalidInputs, []);
      }
    }
    var sorted := QuotesSortedByTenor(quotes);
    if !sorted {
      return BootstrapResult(InvalidInputs, []);
    }
    var nodes: seq<SolvedNode> := [];
    var pillars: seq<CurvePoint> := [];
    for i := 0 to |quotes|
      invariant |pillars| == i && Fits(e, pillars, quotes) && nodes == Nodes(pillars)
      invariant forall j :: 0 <= j < i ==> SolvedAt(e, nodes, quotes, j)
    {
      var quote := quotes[i];
      var time := PillarTime(quote.tenorDays);
      TimesApart(quote.tenorDays, quote.tenorDays + 1);
      if time <= ZERO_TOLERANCE {
        assert false;
      }
      var status, zero := SolvePillar(e, quotes, pillars, nodes);
      if status != Ok {
        AllRepriced(e, pillars, quotes);
        return BootstrapResult(status, pillars);
      }
      if zero < 0.0 {
        assert false;
      }
      SolvedStay(e, nodes, nodes + [SolvedNode(time, zero)], quotes);
      nodes := nodes + [SolvedNode(time, zero)];
      pillars := pillars + [CurvePoint(quote.tenor, time, zero, DiscountFactor(e, zero, time))];
    }
    AllRepriced(e, pillars, quotes);
    return BootstrapResult(Ok, pillars);
  }

  lemma SolvedStay(e: Elementary, nodes: seq<SolvedNode>, longer: seq<SolvedNode>, quotes: seq<PillarQuote>)
    requires e.Lawful() && |nodes| <= |quotes| && nodes <= longer
    requires forall j :: 0 <= j < |nodes| ==> SolvedAt(e, nodes, quotes, j)
    ensures forall j :: 0 <= j < |nodes| ==> SolvedAt(e, longer, quotes, j)
  {
    hide SolvedAt;
    forall j | 0 <= j < |nodes| ensures SolvedAt(e, longer, quotes, j) {
      SolvedStays(e, nodes, longer, quotes, j);
    }
  }

  lemma AllRepriced(e: Elementary, pillars: seq<CurvePoint>, quotes: seq<PillarQuote>)
    requires e.Lawful() && AllValid(quotes) && SortedByTenor(quotes) && Fits(e, pillars, quotes)
    requires forall i :: 0 <= i < |pillars| ==> SolvedAt(e, Nodes(pillars), quotes, i)
    ensures forall i :: 0 <= i < |pillars| ==> Repriced(e, pillars, quotes, i)
    ensures forall i :: 0 <= i < |pillars| && quotes[i].kind == Swap ==> pillars[i].zero <= MAX_ZERO_RATE
  {
    hide Repriced, ParError, PillarTime, Periods, DiscountFactor;
    forall i | 0 <= i < |pillars|
      ensures Repriced(e, pillars, quotes, i)
      ensures quotes[i].kind == Swap ==> pillars[i].zero <= MAX_ZERO_RATE
    {
      assert SolvedAt(e, Nodes(pillars), quotes, i);
      SolvedIsRepriced(e, pillars, quotes, i);
    }
  }

  // ---- What the finished curve means ----

  /** Between two neighbouring pillars the zero rates of a bootstrapped curve lie on the straight line through them. */
  lemma BootstrapIsLinear(e: Elementary, pillars: seq<CurvePoint>, quotes: seq<PillarQuote>, k: nat, t: real)
    requires e.Lawful() && AllValid(quotes) && SortedByTenor(quotes) && Fits(e, pillars, quotes)
    requires InsideSegment(Nodes(pillars), k, t)
    ensures var a, b := pillars[k], pillars[k + 1];
            (b.time - a.time) * CurveZero(pillars, t) == (b.time - t) * a.zero + (t - a.time) * b.zero
  {
    hide CurveZero, PillarTime, Ready;
    FitsReady(e, pillars, quotes, |pillars|);
    CurveIsLine(pillars, k, t);
  }

  /** The factors on the half-year coupon dates before the last. */
  ghost function CouponFactors(e: Elementary, pillars: seq<CurvePoint>, count: nat): real
    requires e.Lawful()
  {
    if count == 0 then 0.0
    else CouponFactors(e, pillars, count - 1)
         + DiscountFactor(e, CurveZero(pillars, (count as real) / 2.0), (count as real) / 2.0)
  }

  /** A repriced swap: half the quoted rate on the sum of the factors of its coupon dates, and a unit at maturity, are
      within 1e-8 of par. */
  lemma SwapIsPar(e: Elementary, pillars: seq<CurvePoint>, quotes: seq<PillarQuote>, i: nat)
    requires e.Lawful() && |pillars| > 0 && i < |quotes| && QuoteValid(quotes[i]) && quotes[i].kind == Swap
    requires Repriced(e, pillars, quotes, i)
    ensures var time := (quotes[i].tenorDays as real) / 365.0;
            var last := DiscountFactor(e, CurveZero(pillars, time), time);
            Periods(time) > 0
            && Abs(Mul(0.5 * quotes[i].rate, CouponFactors(e, pillars, Periods(time) - 1) + last) + last - 1.0) < 0.00000001
  {
    hide CurveZero, DiscountFactor, Periods, CouponFactors, BondValue, CouponFlows;
    var time, rate := PillarTime(quotes[i].tenorDays), quotes[i].rate;
    var count := Periods(time) - 1;
    var coupons, last := CouponFlows(time, rate, count), [Cashflow(time, 1.0 + 0.5 * rate)];
    var factors, factor := CouponFactors(e, pillars, count), DiscountFactor(e, CurveZero(pillars, time), time);
    CouponsWorth(e, pillars, time, rate, count);
    OneFlow(e, pillars, time, 1.0 + 0.5 * rate);
    FlowsAdd(e, pillars, coupons, last);
    assert SwapFlows(time, rate) == coupons + last;
    ParTotal(rate, factors, factor);
    hide Mul;
    assert BondValue(e, pillars, SwapFlows(time, rate)) == Some(Mul(0.5 * rate, factors + factor) + factor);
  }

  lemma ParTotal(rate: real, factors: real, last: real)
    ensures Mul(0.5 * rate, factors) + Mul(1.0 + 0.5 * rate, last) == Mul(0.5 * rate, factors + last) + last
  {
  }

  lemma {:induction false} CouponsWorth(e: Elementary, pillars: seq<CurvePoint>, time: real, rate: real, count: nat)
    requires e.Lawful() && |pillars| > 0
    ensures BondValue(e, pillars, CouponFlows(time, rate, count)) == Some(Mul(0.5 * rate, CouponFactors(e, pillars, count)))
  {
    hide BondValue, CurveZero, DiscountFactor, Mul, AddFlow, DiscountFactorAtTime;
    if count == 0 {
      BondOfNone(e, pillars);
      assert CouponFlows(time, rate, 0) == [];
      TimesNothing(0.5 * rate);
    } else {
      CouponsWorth(e, pillars, time, rate, count - 1);
      var at := (count as real) / 2.0;
      var fewer, next := CouponFlows(time, rate, count - 1), Cashflow(CouponTime(count), 0.5 * rate);
      assert CouponFlows(time, rate, count) == fewer + [next];
      BondAppends(e, pillars, fewer, next);
      assert CouponTime(count) == at;
      NextCoupon(e, pillars, at, rate, CouponFactors(e, pillars, count - 1));
    }
  }

  lemma NextCoupon(e: Elementary, pillars: seq<CurvePoint>, at: real, rate: real, factors: real)
    requires e.Lawful() && |pillars| > 0 && at >= 0.0
    ensures AddFlow(Some(Mul(0.5 * rate, factors)), 0.5 * rate, DiscountFactorAtTime(e, pillars, at))
         == Some(Mul(0.5 * rate, factors + DiscountFactor(e, CurveZero(pillars, at), at)))
  {
    hide CurveZero, DiscountFactor, Mul;
    CouponAdds(0.5 * rate, factors, DiscountFactor(e, CurveZero(pillars, at), at));
  }

  lemma TimesNothing(a: real)
    ensures Mul(a, 0.0) == 0.0
  {
  }

  lemma CouponAdds(coupon: real, factors: real, next: real)
    ensures Mul(coupon, factors) + Mul(coupon, next) == Mul(coupon, factors + next)
  {
  }
}
