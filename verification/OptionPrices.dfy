/** Theorems about the lattice price in every branch: parity, early exercise, optimal stopping. */
module OptionPrices {
  import opened Reals
  import opened Lattice
  import opened OptionTheory

  // ---- The step's constants over the whole life ----

  lemma GrownAdds(e: Elementary, a: real, b: real, time: real)
    requires e.Lawful()
    ensures Grown(e, a, time) * Grown(e, b, time) == Grown(e, a + b, time)
  {
    e.ExpSum(Mul(a, time), Mul(b, time));
    assert Mul(a, time) + Mul(b, time) == Mul(a + b, time);
  }

  lemma GrownRepeats(e: Elementary, rate: real, step: real, n: nat, time: real)
    requires e.Lawful() && n as real * step == time
    ensures Pow(Grown(e, rate, step), n) == Grown(e, rate, time)
  {
    assert Mul(rate, n as real * step) == Mul(rate, time);
    e.ExpRepeats(Mul(rate, step), n, Mul(rate, time));
  }

  lemma GrownBelowOne(e: Elementary, rate: real, time: real)
    requires e.Lawful() && time > 0.0
    ensures rate <= 0.0 ==> Grown(e, rate, time) <= 1.0
    ensures rate >= 0.0 ==> Grown(e, rate, time) >= 1.0
    ensures rate == 0.0 ==> Grown(e, rate, time) == 1.0
  {
    assert Product(rate, time) == rate * time;
    e.ExpZero();
    e.ExpMonotone(Mul(rate, time), 0.0);
  }

  lemma StepCarry(e: Elementary, m: Setting, n: nat)
    requires e.Lawful() && Builds(m, n)
    ensures var s := StepOf(e, m, n);
            && Mul(s.disc, s.growth) == Grown(e, -m.dividendYield, TimeStep(m, n))
            && Pow(s.disc, n) == Grown(e, -m.rate, m.expiry)
            && Pow(Mul(s.disc, s.growth), n) == Grown(e, -m.dividendYield, m.expiry)
  {
    hide Sound, Grown, UpMove, Pow;
    var dt := TimeStep(m, n);
    StepsFill(m, n);
    GrownAdds(e, -m.rate, m.rate - m.dividendYield, dt);
    assert -m.rate + (m.rate - m.dividendYield) == -m.dividendYield;
    GrownRepeats(e, -m.rate, dt, n, m.expiry);
    GrownRepeats(e, -m.dividendYield, dt, n, m.expiry);
  }

  lemma StepsFill(m: Setting, n: nat)
    requires Builds(m, n)
    ensures n as real * TimeStep(m, n) == m.expiry
  {
  }

  // ---- The price as a function of the spot ----

  /** The price in every branch, continued to all spots. */
  function PriceAt(e: Elementary, o: Terms, m: Setting, n: nat, x: real): real
    requires e.Lawful()
  {
    if m.expiry <= 0.0 || n == 0 then Payoff(o.kind, x, o.strike)
    else if m.volatility <= 0.0 then DeterministicPrice(e, o, m, x)
    else ValueToGo(o, StepOf(e, m, n), n, x)
  }

  lemma PriceIsPriceAt(e: Elementary, o: Terms, m: Setting, n: nat, spot: real)
    requires e.Lawful() && spot > 0.0 && o.strike > 0.0
    ensures LatticePrice(e, o, m, spot, n) == PriceAt(e, o, m, n, spot)
  {
    hide NodeValue, ValueToGo, Payoff, StepOf;
    if Builds(m, n) {
      RootValue(o, StepOf(e, m, n), spot, n);
    }
  }

  // ---- Parity ----

  predicate Unclamped(s: Step) {
    s.d <= s.growth <= s.u
  }

  /** Put-call parity for every number of steps: without early exercise it holds exactly when the
      up-probability needed no clamping, or there is no volatility. */
  lemma PutCallParity(e: Elementary, exercise: ExerciseStyle, strike: real, m: Setting, spot: real, n: nat)
    requires e.Lawful() && exercise != American && spot > 0.0 && strike > 0.0 && m.expiry > 0.0 && n > 0
    ensures LatticePrice(e, Terms(Call, exercise, strike), m, spot, n) - LatticePrice(e, Terms(Put, exercise, strike), m, spot, n)
         == spot * Grown(e, -m.dividendYield, m.expiry) - strike * Grown(e, -m.rate, m.expiry)
        <==> m.volatility <= 0.0 || Unclamped(StepOf(e, m, n))
  {
    hide NodeValue, ValueToGo, StepOf, LatticePrice, PriceAt, Grown, Payoff;
    var call, put := Terms(Call, exercise, strike), Terms(Put, exercise, strike);
    PriceIsPriceAt(e, call, m, n, spot);
    PriceIsPriceAt(e, put, m, n, spot);
    if m.volatility <= 0.0 {
      ForwardParity(e, exercise, strike, m, spot, n);
    } else {
      TreeParity(e, exercise, strike, m, spot, n);
    }
  }

  lemma ForwardParity(e: Elementary, exercise: ExerciseStyle, strike: real, m: Setting, spot: real, n: nat)
    requires e.Lawful() && exercise != American && m.expiry > 0.0 && n > 0 && m.volatility <= 0.0
    ensures PriceAt(e, Terms(Call, exercise, strike), m, n, spot) - PriceAt(e, Terms(Put, exercise, strike), m, n, spot)
         == spot * Grown(e, -m.dividendYield, m.expiry) - strike * Grown(e, -m.rate, m.expiry)
  {
    hide Grown;
    var bond, carry := Grown(e, -m.rate, m.expiry), Grown(e, m.rate - m.dividendYield, m.expiry);
    GrownAdds(e, -m.rate, m.rate - m.dividendYield, m.expiry);
    assert -m.rate + (m.rate - m.dividendYield) == -m.dividendYield;
    ForwardPayoffs(bond, carry, spot, strike, Grown(e, -m.dividendYield, m.expiry));
  }

  lemma ForwardPayoffs(bond: real, carry: real, spot: real, strike: real, income: real)
    requires bond * carry == income
    ensures bond * Payoff(Call, spot * carry, strike) - bond * Payoff(Put, spot * carry, strike)
         == spot * income - strike * bond
  {
    assert Mul(spot, bond * carry) == Mul(spot, income);
    assert Mul(bond, spot * carry - strike) == Mul(bond, Payoff(Call, spot * carry, strike) - Payoff(Put, spot * carry, strike));
  }

  lemma TreeParity(e: Elementary, exercise: ExerciseStyle, strike: real, m: Setting, spot: real, n: nat)
    requires e.Lawful() && exercise != American && spot > 0.0 && Builds(m, n)
    ensures PriceAt(e, Terms(Call, exercise, strike), m, n, spot) - PriceAt(e, Terms(Put, exercise, strike), m, n, spot)
         == spot * Grown(e, -m.dividendYield, m.expiry) - strike * Grown(e, -m.rate, m.expiry)
        <==> Unclamped(StepOf(e, m, n))
  {
    hide ValueToGo, Grown, StepOf, Mean, Carry, Pow;
    var s := StepOf(e, m, n);
    var income, bond := Grown(e, -m.dividendYield, m.expiry), Grown(e, -m.rate, m.expiry);
    ValueParity(exercise, strike, s, n, spot);
    assert PriceAt(e, Terms(Call, exercise, strike), m, n, spot) - PriceAt(e, Terms(Put, exercise, strike), m, n, spot)
        == Mul(Pow(Carry(s), n), spot) - Mul(Pow(s.disc, n), strike);
    hide PriceAt, Mul;
    StepCarry(e, m, n);
    MeanIsGrowth(s);
    CarryCompares(s);
    assert Carry(s) == Mul(s.disc, s.growth) <==> Unclamped(s) by { MulIs(s.disc, s.growth); }
    assert Pow(Carry(s), n) == income <==> Unclamped(s) by {
      CarryPositive(s);
      MulIs(s.disc, s.growth);
      assert Product(s.disc, s.growth) == Mul(s.disc, s.growth) == s.disc * s.growth;
      PowInjective(Carry(s), Mul(s.disc, s.growth), n);
    }
    SameSlope(Pow(Carry(s), n), income, spot);
    MulIs(bond, strike);
    assert Mul(Pow(s.disc, n), strike) == strike * bond;
  }

  lemma SameSlope(a: real, b: real, spot: real)
    requires spot > 0.0
    ensures Mul(a, spot) == spot * b <==> a == b
  {
    assert Product(a - b, spot) == Mul(a, spot) - spot * b;
  }

  lemma CarryCompares(s: Step)
    requires Sound(s)
    ensures Carry(s) == s.disc * s.growth <==> Mean(s) == s.growth
    ensures Carry(s) <= s.disc * s.growth <==> Mean(s) <= s.growth
    ensures Carry(s) >= s.disc * s.growth <==> Mean(s) >= s.growth
  {
    hide Mean;
    assert Product(s.disc, Mean(s) - s.growth) == Carry(s) - s.disc * s.growth;
  }

  lemma CarryPositive(s: Step)
    requires Sound(s)
    ensures Carry(s) > 0.0
  {
    assert Product(s.p, s.u - s.d) == Mean(s) - s.d;
    assert Product(s.disc, Mean(s)) == Carry(s);
  }

  /** Where no time or no steps remain, parity is the undiscounted one. */
  lemma ParityAtExpiry(e: Elementary, exercise: ExerciseStyle, strike: real, m: Setting, spot: real, n: nat)
    requires e.Lawful() && spot > 0.0 && strike > 0.0 && (m.expiry <= 0.0 || n == 0)
    ensures LatticePrice(e, Terms(Call, exercise, strike), m, spot, n) - LatticePrice(e, Terms(Put, exercise, strike), m, spot, n)
         == spot - strike
  {
  }

  // ---- American prices ----

  /** In every branch an American price is at least the European price and the intrinsic value. */
  lemma AmericanDominates(e: Elementary, kind: OptionType, exercise: ExerciseStyle, strike: real, m: Setting, spot: real, n: nat)
    requires e.Lawful() && spot > 0.0 && strike > 0.0
    ensures LatticePrice(e, Terms(kind, American, strike), m, spot, n) >= LatticePrice(e, Terms(kind, exercise, strike), m, spot, n)
    ensures LatticePrice(e, Terms(kind, American, strike), m, spot, n) >= Payoff(kind, spot, strike)
  {
    hide NodeValue, ValueToGo, StepOf, Grown, Payoff;
    PriceIsPriceAt(e, Terms(kind, American, strike), m, n, spot);
    PriceIsPriceAt(e, Terms(kind, exercise, strike), m, n, spot);
    if Builds(m, n) {
      AmericanAboveEuropean(kind, if exercise == American then European else exercise, strike, StepOf(e, m, n), n, spot);
    }
  }

  /** An American lattice price is the best value any exercise policy achieves, and some policy achieves it. */
  lemma AmericanIsBestStopping(e: Elementary, kind: OptionType, strike: real, m: Setting, spot: real, n: nat)
    requires e.Lawful() && spot > 0.0 && strike > 0.0 && Builds(m, n)
    ensures forall policy: Policy ::
              Stopped(policy, kind, strike, StepOf(e, m, n), [], n, spot) <= LatticePrice(e, Terms(kind, American, strike), m, spot, n)
    ensures exists policy: Policy ::
              Stopped(policy, kind, strike, StepOf(e, m, n), [], n, spot) == LatticePrice(e, Terms(kind, American, strike), m, spot, n)
  {
    hide NodeValue, ValueToGo, StepOf, Stopped;
    var s := StepOf(e, m, n);
    PriceIsPriceAt(e, Terms(kind, American, strike), m, n, spot);
    forall policy: Policy
      ensures Stopped(policy, kind, strike, s, [], n, spot) <= LatticePrice(e, Terms(kind, American, strike), m, spot, n)
    {
      AmericanBoundsStopping(policy, kind, strike, s, [], n, spot);
    }
    GreedyAttains(kind, strike, s, [], n, spot);
  }

  // ---- Calls without early exercise ----

  lemma SpotPositive(spot: real, s: Step, step: nat, up: nat)
    requires Sound(s) && spot > 0.0 && up <= step
    ensures SpotAt(spot, s, step, up) > 0.0
  {
    PowPositive(s.u, up);
    PowPositive(s.d, step - up);
    hide Sound;
    ThreePositive(spot, Pow(s.u, up), Pow(s.d, step - up));
  }

  lemma ThreePositive(a: real, b: real, c: real)
    requires a > 0.0 && b > 0.0 && c > 0.0
    ensures a * b * c > 0.0
  {
    assert Product(a, b) == a * b;
    assert Product(a * b, c) == a * b * c;
  }

  /** No tree of an American call, whatever its spot and strike, marks a node for early exercise. */
  ghost predicate NeverEarly(s: Step, n: nat) {
    forall spot: real, strike: real, step: nat, up: nat :: spot > 0.0 && strike > 0.0 && up <= step <= n ==>
      !TreeNode(Terms(Call, American, strike), s, spot, n, step, up).earlyExercise
  }

  lemma WaitingCall(s: Step, spot: real, strike: real, n: nat, step: nat, up: nat)
    requires Sound(s) && s.disc <= 1.0 && Carry(s) >= 1.0 && spot > 0.0 && strike > 0.0 && up <= step <= n
    ensures !TreeNode(Terms(Call, American, strike), s, spot, n, step, up).earlyExercise
    ensures NodeValue(Terms(Call, American, strike), s, spot, n, step, up)
         == NodeValue(Terms(Call, European, strike), s, spot, n, step, up)
  {
    hide NodeValue, ValueToGo, Waiting, Continuation, SpotAt, Sound, Carry, Payoff;
    NodeIsValueToGo(Terms(Call, American, strike), s, spot, n, step, up);
    NodeIsValueToGo(Terms(Call, European, strike), s, spot, n, step, up);
    SpotPositive(spot, s, step, up);
    CallWaits(American, strike, s, n - step, SpotAt(spot, s, step, up));
  }

  /** A spot and strike at which the last step's lowest node is exercised, when the carry loses value. */
  lemma EarlyCall(s: Step, n: nat)
    requires Sound(s) && Carry(s) < 1.0 && n > 0
    ensures !NeverEarly(s, n)
  {
    hide Roll, Carry, NodeValue, ValueToGo, Waiting, Continuation, SpotAt, Sound;
    var high := (1.0 + EXERCISE_TOLERANCE) / (1.0 - Carry(s));
    DeepSpot(s, high);
    var x := s.u + high;
    var o := Terms(Call, American, 1.0);
    Unfolds(o, s, 1, x, Mul(x, s.u), Mul(x, s.d));
    Expired(o, s, Mul(x, s.u));
    Expired(o, s, Mul(x, s.d));
    RollOfLine(s, x, 1.0, 1.0);
    TimesOne(Mul(x, s.u));
    TimesOne(Mul(x, s.d));
    TimesOne(Carry(s));
    TimesOne(s.disc);
    assert Waiting(o, s, 1, x) == Mul(Carry(s), x) - s.disc;
    var spot := LowestNode(s, n, x);
    NodeIsValueToGo(o, s, spot, n, n - 1, 0);
    assert TreeNode(o, s, spot, n, n - 1, 0).earlyExercise;
  }

  lemma DeepSpot(s: Step, high: real)
    requires Sound(s) && Carry(s) < 1.0 && high == (1.0 + EXERCISE_TOLERANCE) / (1.0 - Carry(s))
    ensures var x := s.u + high;
            && x > 1.0 && Mul(x, s.u) >= 1.0 && Mul(x, s.d) >= 1.0
            && x - 1.0 > Mul(Carry(s), x) - s.disc + EXERCISE_TOLERANCE
  {
    hide Carry;
    assert Mul(high, 1.0 - Carry(s)) == 1.0 + EXERCISE_TOLERANCE;
    assert Product(high, 1.0 - Carry(s)) == 1.0 + EXERCISE_TOLERANCE;
    assert Product(s.u, 1.0 - Carry(s)) == s.u - Mul(Carry(s), s.u);
    assert Mul(Carry(s), s.u + high) == Mul(Carry(s), s.u) + Mul(Carry(s), high);
    assert Mul(high, 1.0 - Carry(s)) == high - Mul(Carry(s), high);
    assert Product(high, s.d) == Mul(s.u + high, s.d) - 1.0;
    assert Product(s.u + high, s.u - 1.0) == Mul(s.u + high, s.u) - (s.u + high);
  }

  lemma LowestNode(s: Step, n: nat, x: real) returns (spot: real)
    requires Sound(s) && x > 0.0 && n > 0
    ensures spot > 0.0 && SpotAt(spot, s, n - 1, 0) == x
  {
    var falls := Pow(s.d, n - 1);
    PowPositive(s.d, n - 1);
    spot := x / falls;
    assert Mul(spot, falls) == x;
    assert Product(spot, falls) == x;
    SpotStart(spot, s, n - 1);
  }

  /** With a non-negative rate, American calls are never exercised early exactly when one step's
      discounted expectation does not lose spot; without dividends, exactly when growth is at most `u`. */
  lemma NoEarlyExercise(e: Elementary, m: Setting, n: nat)
    requires e.Lawful() && Builds(m, n) && m.rate >= 0.0
    ensures NeverEarly(StepOf(e, m, n), n) <==> Carry(StepOf(e, m, n)) >= 1.0
    ensures m.dividendYield == 0.0 ==>
              (NeverEarly(StepOf(e, m, n), n) <==> StepOf(e, m, n).growth <= StepOf(e, m, n).u)
  {
    hide StepOf, Carry, Grown, TreeNode, Sound;
    var s := StepOf(e, m, n);
    DiscountBelowOne(e, m, n);
    if Carry(s) >= 1.0 {
      forall spot: real, strike: real, step: nat, up: nat | spot > 0.0 && strike > 0.0 && up <= step <= n
        ensures !TreeNode(Terms(Call, American, strike), s, spot, n, step, up).earlyExercise
      {
        WaitingCall(s, spot, strike, n, step, up);
      }
    } else {
      EarlyCall(s, n);
    }
    if m.dividendYield == 0.0 {
      StepCarry(e, m, n);
      GrownBelowOne(e, -m.dividendYield, TimeStep(m, n));
      MulIs(s.disc, s.growth);
      CarryCompares(s);
      MeanIsGrowth(s);
    }
  }

  lemma DiscountBelowOne(e: Elementary, m: Setting, n: nat)
    requires e.Lawful() && Builds(m, n) && m.rate >= 0.0
    ensures StepOf(e, m, n).disc <= 1.0
  {
    hide Grown;
    GrownBelowOne(e, -m.rate, TimeStep(m, n));
  }

  /** Without dividends an American call costs what the European call costs, in every branch. */
  lemma AmericanCallIsEuropean(e: Elementary, strike: real, m: Setting, spot: real, n: nat)
    requires e.Lawful() && m.rate >= 0.0 && m.dividendYield == 0.0
    requires Builds(m, n) ==> StepOf(e, m, n).growth <= StepOf(e, m, n).u
    ensures LatticePrice(e, Terms(Call, American, strike), m, spot, n) == LatticePrice(e, Terms(Call, European, strike), m, spot, n)
  {
    hide StepOf, NodeValue, DeterministicPrice;
    if spot > 0.0 && strike > 0.0 && m.expiry > 0.0 && n > 0 {
      if m.volatility <= 0.0 {
        ForwardCallWaits(e, strike, m, spot);
      } else {
        TreeCallWaits(e, strike, m, spot, n);
      }
    }
  }

  lemma TreeCallWaits(e: Elementary, strike: real, m: Setting, spot: real, n: nat)
    requires e.Lawful() && Builds(m, n) && m.rate >= 0.0 && m.dividendYield == 0.0 && spot > 0.0 && strike > 0.0
    requires StepOf(e, m, n).growth <= StepOf(e, m, n).u
    ensures NodeValue(Terms(Call, American, strike), StepOf(e, m, n), spot, n, 0, 0)
         == NodeValue(Terms(Call, European, strike), StepOf(e, m, n), spot, n, 0, 0)
  {
    hide StepOf, Carry, Grown, Sound, NodeValue;
    var s := StepOf(e, m, n);
    DiscountBelowOne(e, m, n);
    StepCarry(e, m, n);
    GrownBelowOne(e, -m.dividendYield, TimeStep(m, n));
    MulIs(s.disc, s.growth);
    CarryCompares(s);
    MeanIsGrowth(s);
    WaitingCall(s, spot, strike, n, 0, 0);
  }

  lemma ForwardCallWaits(e: Elementary, strike: real, m: Setting, spot: real)
    requires e.Lawful() && m.rate >= 0.0 && m.dividendYield == 0.0 && m.expiry > 0.0 && strike > 0.0
    ensures DeterministicPrice(e, Terms(Call, American, strike), m, spot)
         == DeterministicPrice(e, Terms(Call, European, strike), m, spot)
  {
    hide Grown;
    var bond, carry := Grown(e, -m.rate, m.expiry), Grown(e, m.rate - m.dividendYield, m.expiry);
    GrownAdds(e, -m.rate, m.rate - m.dividendYield, m.expiry);
    assert -m.rate + (m.rate - m.dividendYield) == 0.0;
    GrownBelowOne(e, 0.0, m.expiry);
    GrownBelowOne(e, -m.rate, m.expiry);
    var forward := spot * carry;
    assert Mul(spot, bond * carry) == Mul(spot, 1.0);
    assert Mul(bond, forward) == Mul(spot, bond * carry);
    ForwardAboveIntrinsic(bond, forward, Payoff(Call, forward, strike), spot, strike);
  }

  lemma ForwardAboveIntrinsic(bond: real, forward: real, payoff: real, spot: real, strike: real)
    requires Mul(bond, forward) == spot && 0.0 < bond <= 1.0 && strike > 0.0
    requires payoff >= 0.0 && payoff >= forward - strike
    ensures Payoff(Call, spot, strike) <= bond * payoff
  {
    assert Product(1.0 - bond, strike) == strike - bond * strike;
    assert Product(bond, payoff - (forward - strike)) == bond * payoff - Mul(bond, forward) + bond * strike;
    assert Product(bond, payoff) == bond * payoff;
  }

  // ---- European puts lie below the discounted strike ----

  lemma {:induction false} PutBelowStrike(exercise: ExerciseStyle, strike: real, s: Step, k: nat, x: real)
    requires Sound(s) && exercise != American && x >= 0.0 && strike >= 0.0
    ensures ValueToGo(Terms(Put, exercise, strike), s, k, x) <= Mul(Pow(s.disc, k), strike)
  {
    hide Roll, Sound, Mul, ValueToGo, Waiting;
    var o := Terms(Put, exercise, strike);
    if k == 0 {
      Expired(o, s, x);
      TimesOne(strike);
    } else {
      var up, down, bound := Mul(x, s.u), Mul(x, s.d), Mul(Pow(s.disc, k - 1), strike);
      MovedUp(s, x);
      PutBelowStrike(exercise, strike, s, k - 1, up);
      PutBelowStrike(exercise, strike, s, k - 1, down);
      Unfolds(o, s, k, x, up, down);
      assert ValueToGo(o, s, k, x) == Waiting(o, s, k, x) by { Unfolds(o, s, k, x, up, down); }
      RollOrders(s, ValueToGo(o, s, k - 1, up), ValueToGo(o, s, k - 1, down), bound, bound);
      RollOfConstant(s, bound);
      assert Pow(s.disc, k) == Mul(s.disc, Pow(s.disc, k - 1)) by { MulIs(s.disc, Pow(s.disc, k - 1)); }
      Regroup(s.disc, Pow(s.disc, k - 1), strike);
    }
  }

  lemma RollOfConstant(s: Step, c: real)
    ensures Roll(s, c, c) == Mul(s.disc, c)
  {
    assert Mul(s.disc, s.p * c + (1.0 - s.p) * c) == Mul(s.disc, c);
  }

  /** A European put costs at most its discounted strike, whatever the volatility. */
  lemma EuropeanPutBelowBond(e: Elementary, strike: real, m: Setting, spot: real, n: nat)
    requires e.Lawful() && spot > 0.0 && strike > 0.0 && m.expiry > 0.0 && n > 0
    ensures LatticePrice(e, Terms(Put, European, strike), m, spot, n) <= Grown(e, -m.rate, m.expiry) * strike
  {
    hide Grown, ValueToGo, StepOf, Pow, NodeValue;
    PriceIsPriceAt(e, Terms(Put, European, strike), m, n, spot);
    var bond := Grown(e, -m.rate, m.expiry);
    if m.volatility <= 0.0 {
      var carry := Grown(e, m.rate - m.dividendYield, m.expiry);
      ProductNonNegative(spot, carry);
      ProductMonotone(Payoff(Put, spot * carry, strike), strike, bond);
    } else {
      StepCarry(e, m, n);
      PutBelowStrike(European, strike, StepOf(e, m, n), n, spot);
      MulIs(bond, strike);
    }
  }

  /** A put struck above the highest spot the lattice can reach has a positive value. */
  lemma {:induction false} PutPositive(strike: real, s: Step, k: nat, x: real)
    requires Sound(s) && x > 0.0 && Mul(Pow(s.u, k), x) < strike
    ensures ValueToGo(Terms(Put, European, strike), s, k, x) > 0.0
  {
    var o := Terms(Put, European, strike);
    if k > 0 {
      hide Roll, ValueToGo, Waiting, Payoff;
      var up, down := Mul(x, s.u), Mul(x, s.d);
      Reach(s, k, x);
      hide Sound, Mul, Pow;
      PutPositive(strike, s, k - 1, up);
      PutPositive(strike, s, k - 1, down);
      Unfolds(o, s, k, x, up, down);
      RollPositive(s, ValueToGo(o, s, k - 1, up), ValueToGo(o, s, k - 1, down));
    }
  }

  lemma Reach(s: Step, k: nat, x: real)
    requires Sound(s) && x > 0.0 && k > 0
    ensures Mul(x, s.u) > 0.0 && Mul(x, s.d) > 0.0
    ensures Mul(Pow(s.u, k - 1), Mul(x, s.u)) == Mul(Pow(s.u, k), x)
    ensures Mul(Pow(s.u, k - 1), Mul(x, s.d)) <= Mul(Pow(s.u, k), x)
  {
    var power := Pow(s.u, k - 1);
    PowPositive(s.u, k - 1);
    MovesOrder(x, s.u, s.d);
    Shifted(power, x, s.u);
    ProductMonotone(Mul(x, s.d), Mul(x, s.u), power);
  }

  lemma MovesOrder(x: real, u: real, d: real)
    requires x > 0.0 && 0.0 < d < u
    ensures 0.0 < Mul(x, d) < Mul(x, u)
  {
    assert Product(x, d) == Mul(x, d);
    assert Product(x, u - d) == Mul(x, u) - Mul(x, d);
  }

  lemma Shifted(power: real, x: real, u: real)
    ensures Mul(power, Mul(x, u)) == Mul(u * power, x)
  {
    assert Mul(power, x * u) == Mul(u * power, x);
  }

  lemma RollPositive(s: Step, up: real, down: real)
    requires Sound(s) && up > 0.0 && down > 0.0
    ensures Roll(s, up, down) > 0.0
  {
    assert Product(s.p, up) == s.p * up && Product(1.0 - s.p, down) == (1.0 - s.p) * down;
    var mean := s.p * up + (1.0 - s.p) * down;
    assert mean > 0.0 by {
      if s.p > 0.0 {
        assert s.p * up > 0.0;
      } else {
        assert (1.0 - s.p) * down > 0.0;
      }
    }
    assert Product(s.disc, mean) == Roll(s, up, down);
  }

  lemma DeepPutPositive(e: Elementary, strike: real, m: Setting, spot: real, n: nat)
    requires e.Lawful() && Builds(m, n) && spot > 0.0 && strike > 0.0 && Mul(Pow(StepOf(e, m, n).u, n), spot) < strike
    ensures LatticePrice(e, Terms(Put, European, strike), m, spot, n) > 0.0
  {
    hide StepOf, Pow, NodeValue, ValueToGo;
    PriceIsPriceAt(e, Terms(Put, European, strike), m, n, spot);
    PutPositive(strike, StepOf(e, m, n), n, spot);
  }

  // ---- What the lattice is a lattice of ----

  /** A step whose moves have the volatility's variance over `n` steps, whose down-move undoes the up-move, and whose growth
      and discount over `n` steps are those of the rates. */
  ghost predicate StepFor(e: Elementary, m: Setting, n: nat, s: Step) {
    && s.u > 1.0 && e.ln(s.u) * e.ln(s.u) * (n as real) == m.volatility * m.volatility * m.expiry
    && s.u * s.d == 1.0
    && s.growth > 0.0 && Pow(s.growth, n) == e.exp(Mul(m.rate - m.dividendYield, m.expiry))
    && s.disc > 0.0 && Pow(s.disc, n) == e.exp(Mul(-m.rate, m.expiry))
    && s.p == if s.growth < s.d then 0.0 else if s.growth > s.u then 1.0 else (s.growth - s.d) / (s.u - s.d)
  }

  /** There is one such step, the one the pricers build; so their price is the root of the tree over it. */
  lemma PriceIsTreeOf(e: Elementary, o: Terms, m: Setting, spot: real, n: nat, s: Step)
    requires e.Lawful() && Builds(m, n) && spot > 0.0 && o.strike > 0.0 && StepFor(e, m, n, s)
    ensures s == StepOf(e, m, n) && LatticePrice(e, o, m, spot, n) == NodeValue(o, s, spot, n, 0, 0)
  {
    hide NodeValue;
    OnlyStep(e, m, n, s);
  }

  lemma StepIsFor(e: Elementary, m: Setting, n: nat)
    requires e.Lawful() && Builds(m, n)
    ensures StepFor(e, m, n, StepOf(e, m, n))
  {
    hide Pow, TimeStep, UpMove;
    var s := StepOf(e, m, n);
    LogVariance(e, m, n);
    StepsFill(m, n);
    GrownRepeats(e, -m.rate, TimeStep(m, n), n, m.expiry);
    GrownRepeats(e, m.rate - m.dividendYield, TimeStep(m, n), n, m.expiry);
    ClampedRatio(s);
  }

  lemma ClampedRatio(s: Step)
    requires Sound(s)
    ensures s.p == if s.growth < s.d then 0.0 else if s.growth > s.u then 1.0 else (s.growth - s.d) / (s.u - s.d)
  {
    var ratio := (s.growth - s.d) / (s.u - s.d);
    assert Mul(ratio, s.u - s.d) == s.growth - s.d;
    assert Product(ratio, s.u - s.d) == s.growth - s.d;
    assert Product(ratio - 1.0, s.u - s.d) == s.growth - s.u;
  }

  lemma OnlyStep(e: Elementary, m: Setting, n: nat, s: Step)
    requires e.Lawful() && Builds(m, n) && StepFor(e, m, n, s)
    ensures s == StepOf(e, m, n)
  {
    hide StepOf, Pow;
    var t := StepOf(e, m, n);
    StepIsFor(e, m, n);
    e.LnOf(s.u);
    LnPositive(e, s.u);
    LnPositive(e, t.u);
    SameSquares(e.ln(s.u), e.ln(t.u), n as real);
    e.LnOf(t.u);
    SameReciprocal(s.u, s.d, t.d);
    PowInjective(s.growth, t.growth, n);
    PowInjective(s.disc, t.disc, n);
  }

  lemma LnPositive(e: Elementary, x: real)
    requires e.Lawful() && x > 1.0
    ensures e.ln(x) > 0.0
  {
    e.LnOf(x);
    e.ExpZero();
    e.ExpMonotone(0.0, e.ln(x));
  }

  lemma SameSquares(a: real, b: real, n: real)
    requires a > 0.0 && b > 0.0 && n > 0.0 && a * a * n == b * b * n
    ensures a == b
  {
    assert Product(a * a - b * b, n) == a * a * n - b * b * n;
    SquaresOrder(a, b);
    SquaresOrder(b, a);
  }

  lemma SameReciprocal(u: real, d: real, d': real)
    requires u > 0.0 && u * d == 1.0 && u * d' == 1.0
    ensures d == d'
  {
    assert Product(u, d - d') == u * d - u * d';
  }

  /** Without early exercise and with an unclamped probability a call costs at most the carried spot, and at least what the
      forward is worth and nothing; a put at most the discounted strike. */
  lemma EuropeanBounds(e: Elementary, strike: real, m: Setting, spot: real, n: nat)
    requires e.Lawful() && spot > 0.0 && strike > 0.0 && Builds(m, n) && Unclamped(StepOf(e, m, n))
    ensures var call, put := LatticePrice(e, Terms(Call, European, strike), m, spot, n), LatticePrice(e, Terms(Put, European, strike), m, spot, n);
            var income, bond := Grown(e, -m.dividendYield, m.expiry), Grown(e, -m.rate, m.expiry);
            && Max(spot * income - strike * bond, 0.0) <= call <= spot * income
            && Max(strike * bond - spot * income, 0.0) <= put <= strike * bond
  {
    hide LatticePrice, StepOf, Grown, Unclamped;
    PutCallParity(e, European, strike, m, spot, n);
    EuropeanPutBelowBond(e, strike, m, spot, n);
    NotNegative(e, Terms(Call, European, strike), m, spot, n);
    NotNegative(e, Terms(Put, European, strike), m, spot, n);
  }

  lemma NotNegative(e: Elementary, o: Terms, m: Setting, spot: real, n: nat)
    requires e.Lawful() && spot > 0.0 && o.strike > 0.0 && Builds(m, n)
    ensures LatticePrice(e, o, m, spot, n) >= 0.0
  {
    hide StepOf, NodeValue, ValueToGo;
    PriceIsPriceAt(e, o, m, n, spot);
    ValueNonNegative(o, StepOf(e, m, n), n, spot);
  }

  lemma {:induction false} ValueNonNegative(o: Terms, s: Step, k: nat, x: real)
    requires Sound(s)
    ensures ValueToGo(o, s, k, x) >= 0.0
    ensures o.kind == Call && o.strike > 0.0 && x <= 0.0 ==> ValueToGo(o, s, k, x) == 0.0
  {
    hide Roll, Sound, Mul, ValueToGo, Waiting;
    if k == 0 {
      Expired(o, s, x);
    } else {
      var up, down := Mul(x, s.u), Mul(x, s.d);
      ValueNonNegative(o, s, k - 1, up);
      ValueNonNegative(o, s, k - 1, down);
      Unfolds(o, s, k, x, up, down);
      RollOrders(s, 0.0, 0.0, ValueToGo(o, s, k - 1, up), ValueToGo(o, s, k - 1, down));
      RollOfNothing(s);
      MovedDown(s, x);
    }
  }

  lemma MovedDown(s: Step, x: real)
    requires Sound(s)
    ensures x <= 0.0 ==> Mul(x, s.u) <= 0.0 && Mul(x, s.d) <= 0.0
  {
    if x <= 0.0 {
      MovedUp(s, -x);
    }
  }

  /** Without volatility a call is worth the carried spot less the discounted strike where that is positive, a put the
      opposite, and an American option no less than its intrinsic value. */
  lemma CertainPrice(e: Elementary, o: Terms, m: Setting, spot: real, n: nat)
    requires e.Lawful() && spot > 0.0 && o.strike > 0.0 && m.expiry > 0.0 && n > 0 && m.volatility <= 0.0
    ensures var margin := Mul(spot, Grown(e, -m.dividendYield, m.expiry)) - Mul(o.strike, Grown(e, -m.rate, m.expiry));
            var worth := Max(if o.kind == Call then margin else -margin, 0.0);
            LatticePrice(e, o, m, spot, n) == if o.exercise == American then Max(Payoff(o.kind, spot, o.strike), worth) else worth
  {
    hide Grown, Mul, Payoff, ForwardPrice, Max, Elementary.Lawful;
    var bond, carry := Grown(e, -m.rate, m.expiry), Grown(e, m.rate - m.dividendYield, m.expiry);
    GrownAdds(e, -m.rate, m.rate - m.dividendYield, m.expiry);
    assert -m.rate + (m.rate - m.dividendYield) == -m.dividendYield;
    ForwardMargin(o, bond, carry, spot, Grown(e, -m.dividendYield, m.expiry));
  }

  lemma ForwardMargin(o: Terms, bond: real, carry: real, spot: real, income: real)
    requires bond * carry == income && bond > 0.0
    ensures var margin := Mul(spot, income) - Mul(o.strike, bond);
            ForwardPrice(o, bond, carry, spot) == Max(if o.kind == Call then margin else -margin, 0.0)
  {
    assert Mul(spot, bond * carry) == Mul(spot, income);
    assert Product(bond, spot * carry - o.strike) == Mul(spot, income) - Mul(o.strike, bond);
  }

  /** At expiry a call and a put pay the whole distance from the strike between them, and never both. */
  lemma PayoffsSplit(spot: real, strike: real)
    ensures Payoff(Call, spot, strike) + Payoff(Put, spot, strike) == Abs(spot - strike)
    ensures Payoff(Call, spot, strike) > 0.0 <==> spot > strike
    ensures Payoff(Put, spot, strike) > 0.0 <==> spot < strike
  {
  }
}
