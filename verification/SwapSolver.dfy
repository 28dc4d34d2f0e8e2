/** Solving a par swap's terminal zero rate by bisection, with the unsolved pillar on the curve. */
module SwapSolver {
  import opened Options
  import opened Reals
  import opened ZeroCurve
  import opened FixedIncome

  datatype BootstrapStatus = Ok | InvalidInputs | UnsupportedInstrument | NoConvergence

  const PAR_TOLERANCE := 0.0000000001
  const FINAL_TOLERANCE := 0.00000001
  const MAX_BISECTIONS := 120
  const MAX_ZERO_RATE := 1.0

  /** `std::lround`: to the nearest integer, halves away from zero. */
  function LRound(x: real): int {
    if x >= 0.0 then (x + 0.5).Floor else -((-x + 0.5).Floor)
  }

  function Periods(maturity: real): int {
    LRound(maturity / 0.5)
  }

  function CouponTime(k: nat): real {
    0.5 * (k as real)
  }

  method SemiAnnualCouponTimes(maturity: real) returns (times: seq<real>)
    ensures |times| == if Periods(maturity) <= 0 then 0 else Periods(maturity)
    ensures forall j :: 0 <= j < |times| ==> times[j] == CouponTime(j + 1)
  {
    times := [];
    var periods := Periods(maturity);
    if periods <= 0 {
      return;
    }
    for k := 1 to periods + 1
      invariant |times| == k - 1
      invariant forall j :: 0 <= j < |times| ==> times[j] == CouponTime(j + 1)
    {
      times := times + [0.5 * (k as real)];
    }
  }

  /** Every coupon before the last is paid at least a quarter year before maturity. */
  lemma CouponsBeforeMaturity(maturity: real, k: nat)
    requires 0 < k < Periods(maturity)
    ensures 0.5 <= CouponTime(k) <= maturity - 0.25
  {
    var x := maturity / 0.5;
    assert x == 2.0 * maturity;
    assert k + 1 <= Periods(maturity);
    assert (Periods(maturity) as real) <= x + 0.5;
  }

  /** Value of the first `count` coupons when the pillar at maturity has a candidate rate. */
  function Coupons(e: Elementary, nodes: seq<SolvedNode>, maturity: real, zero: real, coupon: real, count: nat): real
    requires e.Lawful()
  {
    if count == 0 then 0.0
    else Coupons(e, nodes, maturity, zero, coupon, count - 1)
         + Mul(coupon, CouponFactor(e, nodes, maturity, zero, count))
  }

  function CouponFactor(e: Elementary, nodes: seq<SolvedNode>, maturity: real, zero: real, k: nat): (factor: real)
    requires e.Lawful()
    ensures factor > 0.0
  {
    DiscountFactor(e, ZeroAt(nodes + [SolvedNode(maturity, zero)], CouponTime(k)), CouponTime(k))
  }

  /** How far a par swap is from par: undefined without coupon dates. */
  function ParError(e: Elementary, nodes: seq<SolvedNode>, maturity: real, rate: real, zero: real): real
    requires e.Lawful() && Periods(maturity) > 0
  {
    Coupons(e, nodes, maturity, zero, 0.5 * rate, Periods(maturity) - 1)
    + Mul(1.0 + 0.5 * rate, DiscountFactor(e, zero, maturity)) - 1.0
  }

  /** The state the bootstrap solves swaps in: solved pillars apart in time and not negative, coupon dates
      not just past a pillar, a positive maturity and a quote that is not negative. */
  ghost predicate Ready(nodes: seq<SolvedNode>, maturity: real, rate: real) {
    && Spaced(nodes + [SolvedNode(maturity, 0.0)])
    && NonNegative(nodes)
    && maturity > 0.0 && rate >= 0.0
    && forall k: nat :: ClearOf(nodes, CouponTime(k))
  }

  method SwapParPricingError(e: Elementary, nodes: seq<SolvedNode>, maturity: real, rate: real, zero: real)
    returns (error: Option<real>)
    requires e.Lawful() && Ready(nodes, maturity, rate)
    ensures error == if Periods(maturity) > 0 then Some(ParError(e, nodes, maturity, rate, zero)) else None
  {
    hide Mul, DiscountFactor, ZeroAt, Ready;
    var coupon := 0.5 * rate;
    var times := SemiAnnualCouponTimes(maturity);
    if |times| == 0 {
      return None;
    }
    var pv := 0.0;
    for j := 0 to |times| - 1
      invariant pv == Coupons(e, nodes, maturity, zero, coupon, j)
    {
      var rateAt := InterpolateZeroRateLinear(nodes, times[j], maturity, zero);
      CandidateInOrder(nodes, maturity, rate, zero);
      pv := pv + Mul(coupon, DiscountFactor(e, rateAt, times[j]));
    }
    pv := pv + Mul(1.0 + coupon, DiscountFactor(e, zero, maturity));
    return Some(pv - 1.0);
  }

  lemma CandidateInOrder(nodes: seq<SolvedNode>, maturity: real, rate: real, zero: real)
    requires Ready(nodes, maturity, rate)
    ensures Spaced(nodes + [SolvedNode(maturity, zero)])
    ensures SortByTime(nodes + [SolvedNode(maturity, zero)]) == nodes + [SolvedNode(maturity, zero)]
  {
    var a, b := nodes + [SolvedNode(maturity, 0.0)], nodes + [SolvedNode(maturity, zero)];
    assert forall i | 0 <= i < |a| :: a[i].time == b[i].time;
    CurveInOrder(b);
  }

  // ---- The par error falls as the candidate rises ----

  /** A discount factor falls as its rate rises, no faster than its time. */
  lemma DiscountMoves(e: Elementary, low: real, high: real, time: real)
    requires e.Lawful() && 0.0 <= low <= high && time > 0.0
    ensures 0.0 <= DiscountFactor(e, low, time) - DiscountFactor(e, high, time) <= Mul(time, high - low)
    ensures low < high ==> DiscountFactor(e, low, time) > DiscountFactor(e, high, time)
    ensures 0.0 < DiscountFactor(e, low, time) <= 1.0
  {
    assert Product(low, time) == -Mul(-low, time);
    assert Product(high, time) == -Mul(-high, time);
    assert Product(high - low, time) == Mul(-low, time) - Mul(-high, time);
    assert Mul(time, high - low) == Mul(-low, time) - Mul(-high, time);
    hide Mul;
    e.ExpLipschitz(Mul(-high, time), Mul(-low, time));
    e.ExpMonotone(Mul(-high, time), Mul(-low, time));
    e.ExpMonotone(Mul(-low, time), 0.0);
    e.ExpZero();
  }

  /** An interpolated coupon's factor moves with the candidate in the same direction, no faster than maturity. */
  lemma CouponMoves(e: Elementary, nodes: seq<SolvedNode>, maturity: real, rate: real, low: real, high: real, k: nat)
    requires e.Lawful() && Ready(nodes, maturity, rate) && 0.0 <= low <= high && 0 < k < Periods(maturity)
    ensures 0.0 <= CouponFactor(e, nodes, maturity, low, k) - CouponFactor(e, nodes, maturity, high, k)
         <= Mul(maturity, high - low)
  {
    hide Mul, DiscountFactor, ZeroAt, LRound;
    var t := CouponTime(k);
    CouponsBeforeMaturity(maturity, k);
    CandidateInOrder(nodes, maturity, rate, low);
    CandidateInOrder(nodes, maturity, rate, high);
    ZeroMoves(nodes, maturity, t, low, high);
    CandidateClear(nodes, maturity, rate, low, k);
    ZeroNonNegative(nodes + [SolvedNode(maturity, low)], t);
    var a, b := ZeroAt(nodes + [SolvedNode(maturity, low)], t), ZeroAt(nodes + [SolvedNode(maturity, high)], t);
    DiscountMoves(e, a, b, t);
    MulOrders(t, b - a, maturity, high - low);
  }

  lemma CandidateClear(nodes: seq<SolvedNode>, maturity: real, rate: real, zero: real, k: nat)
    requires Ready(nodes, maturity, rate) && 0 < k < Periods(maturity) && zero >= 0.0
    ensures ClearOf(nodes + [SolvedNode(maturity, zero)], CouponTime(k))
    ensures NonNegative(nodes + [SolvedNode(maturity, zero)])
  {
    CouponsBeforeMaturity(maturity, k);
    assert ClearOf(nodes, CouponTime(k));
  }

  lemma {:induction false} CouponsMove(e: Elementary, nodes: seq<SolvedNode>, maturity: real, rate: real, low: real, high: real,
                                       coupon: real, count: nat)
    requires e.Lawful() && Ready(nodes, maturity, rate) && 0.0 <= low <= high && count < Periods(maturity) && coupon >= 0.0
    ensures 0.0 <= Coupons(e, nodes, maturity, low, coupon, count) - Coupons(e, nodes, maturity, high, coupon, count)
         <= Mul(Mul(coupon, count as real), Mul(maturity, high - low))
  {
    hide Mul, CouponFactor, LRound, Ready;
    var reach := Mul(maturity, high - low);
    if count == 0 {
      NoCoupons(coupon, reach);
    } else {
      CouponsMove(e, nodes, maturity, rate, low, high, coupon, count - 1);
      CouponMoves(e, nodes, maturity, rate, low, high, count);
      MulSpreads(coupon, CouponFactor(e, nodes, maturity, low, count), CouponFactor(e, nodes, maturity, high, count), reach, count);
    }
  }

  lemma NoCoupons(coupon: real, reach: real)
    ensures Mul(Mul(coupon, 0 as real), reach) == 0.0
  {
    assert Mul(coupon, 0 as real) == 0.0;
  }

  lemma MulSpreads(coupon: real, low: real, high: real, reach: real, count: nat)
    requires coupon >= 0.0 && 0.0 <= low - high <= reach && count > 0
    ensures 0.0 <= Mul(coupon, low) - Mul(coupon, high) <= Mul(coupon, reach)
    ensures Mul(Mul(coupon, (count - 1) as real), reach) + Mul(coupon, reach) == Mul(Mul(coupon, count as real), reach)
  {
    assert Product(coupon, low - high) == Mul(coupon, low) - Mul(coupon, high);
    assert Product(coupon, reach - (low - high)) == Mul(coupon, reach) - (Mul(coupon, low) - Mul(coupon, high));
    var c := (count - 1) as real;
    assert count as real == c + 1.0;
    assert Mul(coupon, c + 1.0) == Mul(coupon, c) + coupon;
    assert Mul(Mul(coupon, c) + coupon, reach) == Mul(Mul(coupon, c), reach) + Mul(coupon, reach);
  }

  /** How fast the par error can move with the candidate rate. */
  function Steepness(maturity: real, rate: real): real {
    Mul(maturity, 1.0 + Mul(0.5 * rate, Periods(maturity) as real))
  }

  /** The par error falls strictly as the candidate rate rises, at a bounded speed. */
  lemma ParErrorMoves(e: Elementary, nodes: seq<SolvedNode>, maturity: real, rate: real, low: real, high: real)
    requires e.Lawful() && Ready(nodes, maturity, rate) && 0.0 <= low < high && Periods(maturity) > 0
    ensures 0.0 < ParError(e, nodes, maturity, rate, low) - ParError(e, nodes, maturity, rate, high)
         <= Mul(Steepness(maturity, rate), high - low)
  {
    hide Coupons, DiscountFactor, LRound, Mul, Periods;
    var coupon, count := 0.5 * rate, Periods(maturity) - 1;
    CouponsMove(e, nodes, maturity, rate, low, high, coupon, count);
    DiscountMoves(e, low, high, maturity);
    RedemptionMoves(coupon, maturity, high - low, count as real, Mul(maturity, high - low),
                    DiscountFactor(e, low, maturity), DiscountFactor(e, high, maturity));
    assert Periods(maturity) as real == count as real + 1.0;
  }

  lemma RedemptionMoves(coupon: real, maturity: real, width: real, count: real, reach: real, low: real, high: real)
    requires coupon >= 0.0 && 0.0 < low - high <= reach == Mul(maturity, width)
    ensures 0.0 < Mul(1.0 + coupon, low) - Mul(1.0 + coupon, high)
    ensures Mul(Mul(coupon, count), reach) + Mul(1.0 + coupon, low) - Mul(1.0 + coupon, high)
         <= Mul(Mul(maturity, 1.0 + Mul(coupon, count + 1.0)), width)
  {
    assert Product(1.0 + coupon, low - high) == Mul(1.0 + coupon, low) - Mul(1.0 + coupon, high);
    assert Product(1.0 + coupon, reach - (low - high))
        == Mul(1.0 + coupon, reach) - (Mul(1.0 + coupon, low) - Mul(1.0 + coupon, high));
    assert Mul(coupon * count + 1.0 + coupon, reach) == Mul(Mul(coupon, count), reach) + Mul(1.0 + coupon, reach);
    assert Mul(coupon * count + 1.0 + coupon, reach) == Mul(coupon * count + 1.0 + coupon, Mul(maturity, width));
    assert Mul(Mul(maturity, 1.0 + Mul(coupon, count + 1.0)), width) == Mul(coupon * count + 1.0 + coupon, Mul(maturity, width));
  }

  /** At most one candidate rate prices a swap to any given value. */
  lemma ParRateUnique(e: Elementary, nodes: seq<SolvedNode>, maturity: real, rate: real, a: real, b: real)
    requires e.Lawful() && Ready(nodes, maturity, rate) && a >= 0.0 && b >= 0.0 && Periods(maturity) > 0
    ensures ParError(e, nodes, maturity, rate, a) == ParError(e, nodes, maturity, rate, b) <==> a == b
  {
    hide ParError, Steepness, Ready, Periods;
    if a < b {
      ParErrorMoves(e, nodes, maturity, rate, a, b);
    } else if b < a {
      ParErrorMoves(e, nodes, maturity, rate, b, a);
    }
  }

  lemma {:induction false} CouponsNonNegative(e: Elementary, nodes: seq<SolvedNode>, maturity: real, zero: real, coupon: real, count: nat)
    requires e.Lawful() && coupon >= 0.0
    ensures Coupons(e, nodes, maturity, zero, coupon, count) >= 0.0
    ensures coupon == 0.0 ==> Coupons(e, nodes, maturity, zero, coupon, count) == 0.0
  {
    hide CouponFactor;
    if count > 0 {
      CouponsNonNegative(e, nodes, maturity, zero, coupon, count - 1);
      var factor := CouponFactor(e, nodes, maturity, zero, count);
      assert Product(coupon, factor) == Mul(coupon, factor);
    }
  }

  /** At a zero rate a swap is above par, by at least its coupon; it is at par only when it pays none. */
  lemma ParErrorAtZero(e: Elementary, nodes: seq<SolvedNode>, maturity: real, rate: real)
    requires e.Lawful() && rate >= 0.0 && maturity > 0.0 && Periods(maturity) > 0
    ensures ParError(e, nodes, maturity, rate, 0.0) >= 0.5 * rate
    ensures rate == 0.0 ==> ParError(e, nodes, maturity, rate, 0.0) == 0.0
  {
    hide Coupons, Periods;
    CouponsNonNegative(e, nodes, maturity, 0.0, 0.5 * rate, Periods(maturity) - 1);
    e.ExpZero();
    assert Mul(-0.0, maturity) == 0.0;
  }

  // ---- Bisection ----

  /** The bracket holds: par error positive below, not positive above. */
  ghost predicate Bracket(e: Elementary, nodes: seq<SolvedNode>, maturity: real, rate: real, lo: real, hi: real)
    requires e.Lawful() && Periods(maturity) > 0
  {
    0.0 <= lo < hi <= MAX_ZERO_RATE && ParError(e, nodes, maturity, rate, lo) > 0.0 >= ParError(e, nodes, maturity, rate, hi)
  }

  /** The speed at which 120 halvings of a unit bracket still pin the par error down. */
  predicate Tame(maturity: real, rate: real) {
    Mul(Steepness(maturity, rate), Pow(HALF, MAX_BISECTIONS + 1)) < FINAL_TOLERANCE
  }

  /** The middle of a bracket misses par by no more than the bracket's half-width allows. */
  lemma MiddleMisses(e: Elementary, nodes: seq<SolvedNode>, maturity: real, rate: real, lo: real, hi: real)
    requires e.Lawful() && Ready(nodes, maturity, rate) && Periods(maturity) > 0
    requires Bracket(e, nodes, maturity, rate, lo, hi)
    ensures Abs(ParError(e, nodes, maturity, rate, 0.5 * (lo + hi))) <= Mul(Steepness(maturity, rate), 0.5 * (hi - lo))
  {
    hide ParError, Steepness, Ready, Periods, Mul;
    var mid := 0.5 * (lo + hi);
    assert hi - mid == 0.5 * (hi - lo) == mid - lo;
    ParErrorMoves(e, nodes, maturity, rate, lo, mid);
    ParErrorMoves(e, nodes, maturity, rate, mid, hi);
  }

  method SolveSwapZeroRate(e: Elementary, nodes: seq<SolvedNode>, maturity: real, rate: real)
    returns (status: BootstrapStatus, zero: real)
    requires e.Lawful() && Ready(nodes, maturity, rate)
    ensures status == InvalidInputs <==> Periods(maturity) <= 0
    ensures status != UnsupportedInstrument
    ensures status == Ok ==>
              0.0 <= zero <= MAX_ZERO_RATE && Abs(ParError(e, nodes, maturity, rate, zero)) < FINAL_TOLERANCE
    ensures Periods(maturity) > 0 && rate > 0.0 && ParError(e, nodes, maturity, rate, MAX_ZERO_RATE) >= 0.0 ==>
              status == NoConvergence
    ensures status == NoConvergence ==>
              rate > 0.0 && (ParError(e, nodes, maturity, rate, MAX_ZERO_RATE) >= 0.0 || !Tame(maturity, rate))
  {
    hide ParError, Steepness, Ready, Periods, Mul;
    var f0 := SwapParPricingError(e, nodes, maturity, rate, 0.0);
    var fHi := SwapParPricingError(e, nodes, maturity, rate, MAX_ZERO_RATE);
    if f0.None? || fHi.None? {
      return InvalidInputs, 0.0;
    }
    assert rate >= 0.0 && maturity > 0.0 by { ReadyQuote(nodes, maturity, rate); }
    ParErrorAtZero(e, nodes, maturity, rate);
    if f0.value <= 0.0 {
      return Ok, 0.0;
    }
    if fHi.value >= 0.0 {
      return NoConvergence, 0.0;
    }
    var lo, hi := 0.0, MAX_ZERO_RATE;
    for i := 0 to MAX_BISECTIONS
      invariant Bracket(e, nodes, maturity, rate, lo, hi)
      invariant hi - lo == Pow(HALF, i)
    {
      var mid := 0.5 * (lo + hi);
      var fMid := SwapParPricingError(e, nodes, maturity, rate, mid);
      if Abs(fMid.value) < PAR_TOLERANCE {
        return Ok, mid;
      }
      Halved(i);
      if fMid.value > 0.0 {
        lo := mid;
      } else {
        hi := mid;
      }
    }
    MiddleMisses(e, nodes, maturity, rate, lo, hi);
    Halved(MAX_BISECTIONS);
    LastWidth(Steepness(maturity, rate), hi - lo);
    zero := 0.5 * (lo + hi);
    var fFinal := SwapParPricingError(e, nodes, maturity, rate, zero);
    if Abs(fFinal.value) < FINAL_TOLERANCE {
      return Ok, zero;
    }
    return NoConvergence, zero;
  }

  lemma ReadyQuote(nodes: seq<SolvedNode>, maturity: real, rate: real)
    requires Ready(nodes, maturity, rate)
    ensures rate >= 0.0 && maturity > 0.0
  {
  }

  lemma LastWidth(steepness: real, width: real)
    requires width == Pow(HALF, MAX_BISECTIONS)
    ensures Mul(steepness, 0.5 * width) == Mul(steepness, Pow(HALF, MAX_BISECTIONS + 1))
  {
    Halved(MAX_BISECTIONS);
    hide Pow;
    assert Mul(steepness, 0.5 * width) == Mul(steepness, Pow(HALF, MAX_BISECTIONS + 1));
  }

  lemma TenHalvings(n: nat, bound: real)
    requires Pow(HALF, n) <= bound && 0.0 <= bound
    ensures Pow(HALF, n + 10) <= bound / 1000.0
  {
    hide Pow;
    Halved(n);
    Halved(n + 1);
    Halved(n + 2);
    Halved(n + 3);
    Halved(n + 4);
    Halved(n + 5);
    Halved(n + 6);
    Halved(n + 7);
    Halved(n + 8);
    Halved(n + 9);
  }

  lemma SeventyHalvings(n: nat)
    ensures Pow(HALF, n + 70) <= 0.000000000000000000001
  {
    PowOrders(HALF, 1.0, n);
    PowOfOne(n);
    hide Pow;
    TenHalvings(n, 1.0);
    TenHalvings(n + 10, 0.001);
    TenHalvings(n + 20, 0.000001);
    TenHalvings(n + 30, 0.000000001);
    TenHalvings(n + 40, 0.000000000001);
    TenHalvings(n + 50, 0.000000000000001);
    TenHalvings(n + 60, 0.000000000000000001);
  }

  /** Every quote up to a thousand years and a thousandfold rate is tame: the solver then fails only when
      even the largest zero rate leaves the swap at or above par. */
  lemma TameInPractice(maturity: real, rate: real)
    requires 0.0 < maturity <= 1000.0 && 0.0 <= rate <= 1000.0
    ensures Tame(maturity, rate)
  {
    hide Pow, Steepness, Mul;
    SeventyHalvings(51);
    SteepnessBound(maturity, rate);
    PowPositive(HALF, MAX_BISECTIONS + 1);
    TinyProduct(Steepness(maturity, rate), Pow(HALF, MAX_BISECTIONS + 1));
  }

  lemma TinyProduct(a: real, width: real)
    requires a <= 2000000000.0 && 0.0 <= width <= 0.000000000000000000001
    ensures Mul(a, width) < FINAL_TOLERANCE
  {
    ProductMonotone(a, 2000000000.0, width);
  }

  lemma SteepnessBound(maturity: real, rate: real)
    requires 0.0 < maturity <= 1000.0 && 0.0 <= rate <= 1000.0
    ensures Steepness(maturity, rate) <= 2000000000.0
  {
    hide Mul;
    assert maturity / 0.5 == 2.0 * maturity;
    var count := Periods(maturity) as real;
    assert 0.0 <= count <= 2000.5;
    MulOrders(0.5 * rate, count, 500.0, 2000.5);
    MulIs(500.0, 2000.5);
    var slope := 1.0 + Mul(0.5 * rate, count);
    MulOrders(maturity, slope, 1000.0, 1000251.0);
    MulIs(1000.0, 1000251.0);
  }

  /** The number of coupons is the maturity in half years to the nearest whole number, halves upwards. */
  lemma PeriodsNearest(maturity: real)
    requires maturity > 0.0
    ensures 2.0 * maturity - 0.5 < Periods(maturity) as real <= 2.0 * maturity + 0.5
  {
    var x := maturity / 0.5;
    assert x == 2.0 * maturity;
  }
}
