/** What the lattice prices mean: convexity, parity, optimal stopping, and exercise without dividends. */
module OptionTheory {
  import opened Reals
  import opened Lattice

  /** The value with `k` steps to go, as a function of the node's own spot. */
  function ValueToGo(o: Terms, s: Step, k: nat, x: real): real
    decreases k, 1
  {
    if k == 0 then Payoff(o.kind, x, o.strike)
    else if o.exercise == American then Max(Payoff(o.kind, x, o.strike), Waiting(o, s, k, x))
    else Waiting(o, s, k, x)
  }

  function Waiting(o: Terms, s: Step, k: nat, x: real): real
    requires k > 0
    decreases k, 0
  {
    Roll(s, ValueToGo(o, s, k - 1, Mul(x, s.u)), ValueToGo(o, s, k - 1, Mul(x, s.d)))
  }

  /** The value and its continuation, from the two moved spots. */
  lemma Unfolds(o: Terms, s: Step, k: nat, x: real, up: real, down: real)
    requires k > 0 && up == Mul(x, s.u) && down == Mul(x, s.d)
    ensures Waiting(o, s, k, x) == Roll(s, ValueToGo(o, s, k - 1, up), ValueToGo(o, s, k - 1, down))
    ensures ValueToGo(o, s, k, x)
         == if o.exercise == American then Max(Payoff(o.kind, x, o.strike), Waiting(o, s, k, x))
            else Waiting(o, s, k, x)
  {
    hide Roll, Payoff, Max, Mul;
  }

  /** Node values depend on a node's place only through its spot and the steps to go. */
  lemma {:induction false} NodeIsValueToGo(o: Terms, s: Step, spot: real, n: nat, step: nat, up: nat)
    requires up <= step <= n
    ensures NodeValue(o, s, spot, n, step, up) == ValueToGo(o, s, n - step, SpotAt(spot, s, step, up))
    ensures step < n ==> Continuation(o, s, spot, n, step, up) == Waiting(o, s, n - step, SpotAt(spot, s, step, up))
    decreases n - step
  {
    hide SpotAt, Payoff, Roll, Max;
    if step < n {
      NodeIsValueToGo(o, s, spot, n, step + 1, up + 1);
      NodeIsValueToGo(o, s, spot, n, step + 1, up);
      SpotMoves(spot, s, step, up);
      hide ValueToGo, Waiting;
      assert n - (step + 1) == n - step - 1;
      Unfolds(o, s, n - step, SpotAt(spot, s, step, up), SpotAt(spot, s, step + 1, up + 1), SpotAt(spot, s, step + 1, up));
    }
  }

  lemma RootValue(o: Terms, s: Step, spot: real, n: nat)
    ensures NodeValue(o, s, spot, n, 0, 0) == ValueToGo(o, s, n, spot)
  {
    hide NodeValue, ValueToGo;
    NodeIsValueToGo(o, s, spot, n, 0, 0);
    assert SpotAt(spot, s, 0, 0) == spot;
  }

  // ---- Rolling back is a positive linear operation ----

  lemma RollOrders(s: Step, a: real, b: real, c: real, d: real)
    requires Sound(s) && a <= c && b <= d
    ensures Roll(s, a, b) <= Roll(s, c, d)
  {
    WeightedOrder(s.disc, s.p, a, b, c, d);
  }

  lemma WeightedOrder(disc: real, p: real, a: real, b: real, c: real, d: real)
    requires disc > 0.0 && 0.0 <= p <= 1.0 && a <= c && b <= d
    ensures disc * (p * a + (1.0 - p) * b) <= disc * (p * c + (1.0 - p) * d)
  {
    assert Product(p, c - a) == p * c - p * a;
    assert Product(1.0 - p, d - b) == (1.0 - p) * d - (1.0 - p) * b;
    ProductMonotone(p * a + (1.0 - p) * b, p * c + (1.0 - p) * d, disc);
  }

  lemma RollAdds(s: Step, a: real, b: real, c: real, d: real)
    ensures Roll(s, a, b) + Roll(s, c, d) == Roll(s, a + c, b + d)
    ensures Roll(s, a, b) - Roll(s, c, d) == Roll(s, a - c, b - d)
  {
  }

  /** The expected multiple of the spot over one step. */
  function Mean(s: Step): real {
    s.p * s.u + (1.0 - s.p) * s.d
  }

  /** What one discounted step makes of one unit of spot. */
  function Carry(s: Step): real {
    s.disc * Mean(s)
  }

  lemma RollOfLine(s: Step, x: real, slope: real, shift: real)
    ensures Roll(s, Mul(slope, Mul(x, s.u)) - shift, Mul(slope, Mul(x, s.d)) - shift)
         == Mul(Mul(Carry(s), slope), x) - Mul(s.disc, shift)
  {
    assert Mul(s.disc, s.p * (slope * (x * s.u) - shift) + (1.0 - s.p) * (slope * (x * s.d) - shift))
        == Mul(s.disc, Mean(s) * (slope * x) - shift);
  }

  // ---- Shape in the spot ----

  /** Every node value is midpoint convex in the spot, early exercise or not. */
  lemma {:induction false} ValueConvex(o: Terms, s: Step, k: nat, x: real, h: real)
    requires Sound(s)
    ensures ValueToGo(o, s, k, x - h) + ValueToGo(o, s, k, x + h) >= 2.0 * ValueToGo(o, s, k, x)
  {
    if k == 0 {
      PayoffConvex(o.kind, x, h, o.strike);
    } else {
      hide Roll, Sound, ValueToGo, Waiting, Payoff;
      Shifts(s, x, h);
      hide Mul;
      var up, down, hu, hd := Mul(x, s.u), Mul(x, s.d), Mul(h, s.u), Mul(h, s.d);
      ValueConvex(o, s, k - 1, up, hu);
      ValueConvex(o, s, k - 1, down, hd);
      Unfolds(o, s, k, x, up, down);
      Unfolds(o, s, k, x - h, up - hu, down - hd);
      Unfolds(o, s, k, x + h, up + hu, down + hd);
      RollConvex(s, ValueToGo(o, s, k - 1, up - hu), ValueToGo(o, s, k - 1, up), ValueToGo(o, s, k - 1, up + hu),
                 ValueToGo(o, s, k - 1, down - hd), ValueToGo(o, s, k - 1, down), ValueToGo(o, s, k - 1, down + hd));
      PayoffConvex(o.kind, x, h, o.strike);
    }
  }

  lemma PayoffConvex(kind: OptionType, x: real, h: real, strike: real)
    ensures Payoff(kind, x - h, strike) + Payoff(kind, x + h, strike) >= 2.0 * Payoff(kind, x, strike)
  {
  }

  lemma RollConvex(s: Step, upLow: real, up: real, upHigh: real, downLow: real, down: real, downHigh: real)
    requires Sound(s) && upLow + upHigh >= 2.0 * up && downLow + downHigh >= 2.0 * down
    ensures Roll(s, upLow, downLow) + Roll(s, upHigh, downHigh) >= 2.0 * Roll(s, up, down)
  {
    hide Roll, Sound;
    RollAdds(s, up, down, up, down);
    RollAdds(s, upLow, downLow, upHigh, downHigh);
    RollOrders(s, up + up, down + down, upLow + upHigh, downLow + downHigh);
  }

  /** A call gains and a put loses as the spot rises. */
  lemma {:induction false} ValueMonotone(o: Terms, s: Step, k: nat, x: real, y: real)
    requires Sound(s) && x <= y
    ensures o.kind == Call ==> ValueToGo(o, s, k, x) <= ValueToGo(o, s, k, y)
    ensures o.kind == Put ==> ValueToGo(o, s, k, y) <= ValueToGo(o, s, k, x)
  {
    if k > 0 {
      Widths(s, x, y);
      hide Roll, Sound, ValueToGo, Waiting, Payoff, Mul;
      var xu, xd, yu, yd := Mul(x, s.u), Mul(x, s.d), Mul(y, s.u), Mul(y, s.d);
      PayoffMoves(o.kind, x, y, o.strike);
      ValueMonotone(o, s, k - 1, xu, yu);
      ValueMonotone(o, s, k - 1, xd, yd);
      Unfolds(o, s, k, x, xu, xd);
      Unfolds(o, s, k, y, yu, yd);
      var a, b := ValueToGo(o, s, k - 1, xu), ValueToGo(o, s, k - 1, xd);
      var c, d := ValueToGo(o, s, k - 1, yu), ValueToGo(o, s, k - 1, yd);
      if o.kind == Call {
        RollOrders(s, a, b, c, d);
      } else {
        RollOrders(s, c, d, a, b);
      }
    }
  }

  /** When one step does not grow the discounted spot, no node value moves faster than the spot. */
  lemma {:induction false} ValueLipschitz(o: Terms, s: Step, k: nat, x: real, y: real)
    requires Sound(s) && Carry(s) <= 1.0 && x <= y
    ensures Abs(ValueToGo(o, s, k, y) - ValueToGo(o, s, k, x)) <= y - x
  {
    if k > 0 {
      Widths(s, x, y);
      RollOfWidth(s, x, y);
      hide Roll, Mean, Sound, ValueToGo, Waiting, Payoff, Mul;
      var xu, xd, yu, yd := Mul(x, s.u), Mul(x, s.d), Mul(y, s.u), Mul(y, s.d);
      PayoffMoves(o.kind, x, y, o.strike);
      ValueLipschitz(o, s, k - 1, xu, yu);
      ValueLipschitz(o, s, k - 1, xd, yd);
      Unfolds(o, s, k, x, xu, xd);
      Unfolds(o, s, k, y, yu, yd);
      var a, b := ValueToGo(o, s, k - 1, xu), ValueToGo(o, s, k - 1, xd);
      var c, d := ValueToGo(o, s, k - 1, yu), ValueToGo(o, s, k - 1, yd);
      RollAdds(s, c, d, a, b);
      RollOrders(s, c - a, d - b, yu - xu, yd - xd);
      RollOrders(s, -(yu - xu), -(yd - xd), c - a, d - b);
    }
  }

  lemma PayoffMoves(kind: OptionType, x: real, y: real, strike: real)
    requires x <= y
    ensures kind == Call ==> 0.0 <= Payoff(kind, y, strike) - Payoff(kind, x, strike) <= y - x
    ensures kind == Put ==> 0.0 <= Payoff(kind, x, strike) - Payoff(kind, y, strike) <= y - x
  {
  }

  lemma Shifts(s: Step, x: real, h: real)
    ensures Mul(x - h, s.u) == Mul(x, s.u) - Mul(h, s.u) && Mul(x + h, s.u) == Mul(x, s.u) + Mul(h, s.u)
    ensures Mul(x - h, s.d) == Mul(x, s.d) - Mul(h, s.d) && Mul(x + h, s.d) == Mul(x, s.d) + Mul(h, s.d)
  {
  }

  lemma Widths(s: Step, x: real, y: real)
    requires Sound(s) && x <= y
    ensures Mul(x, s.u) <= Mul(y, s.u) && Mul(x, s.d) <= Mul(y, s.d)
  {
    ProductMonotone(x, y, s.u);
    ProductMonotone(x, y, s.d);
  }

  lemma RollOfWidth(s: Step, x: real, y: real)
    requires Carry(s) <= 1.0 && x <= y
    ensures Roll(s, Mul(y, s.u) - Mul(x, s.u), Mul(y, s.d) - Mul(x, s.d)) <= y - x
    ensures Roll(s, -(Mul(y, s.u) - Mul(x, s.u)), -(Mul(y, s.d) - Mul(x, s.d))) >= -(y - x)
  {
    var w := y - x;
    assert Mul(s.disc, s.p * (y * s.u - x * s.u) + (1.0 - s.p) * (y * s.d - x * s.d)) == Mul(s.disc, Mean(s) * w);
    assert Mul(s.disc, s.p * -(y * s.u - x * s.u) + (1.0 - s.p) * -(y * s.d - x * s.d)) == Mul(s.disc, -(Mean(s) * w));
    assert Mul(Carry(s), w) == Mul(s.disc, Mean(s) * w);
    ProductMonotone(Carry(s), 1.0, w);
  }

  // ---- Parity ----

  /** The forward's value: the spot carried over `k` steps less the strike discounted over them. */
  function ForwardValue(s: Step, strike: real, k: nat, x: real): real {
    Mul(Pow(Carry(s), k), x) - Mul(Pow(s.disc, k), strike)
  }

  lemma RollOfForward(s: Step, strike: real, k: nat, x: real)
    ensures Roll(s, ForwardValue(s, strike, k, Mul(x, s.u)), ForwardValue(s, strike, k, Mul(x, s.d)))
         == ForwardValue(s, strike, k + 1, x)
  {
    hide Roll, Carry, Mul;
    RollOfLine(s, x, Pow(Carry(s), k), Mul(Pow(s.disc, k), strike));
    assert Pow(Carry(s), k + 1) == Mul(Carry(s), Pow(Carry(s), k)) by { MulIs(Carry(s), Pow(Carry(s), k)); }
    assert Pow(s.disc, k + 1) == Mul(s.disc, Pow(s.disc, k)) by { MulIs(s.disc, Pow(s.disc, k)); }
    Regroup(s.disc, Pow(s.disc, k), strike);
  }

  lemma Regroup(a: real, b: real, c: real)
    ensures Mul(a, Mul(b, c)) == Mul(Mul(a, b), c)
  {
  }

  /** Without early exercise, a call less a put is a forward. */
  lemma {:induction false} ValueParity(exercise: ExerciseStyle, strike: real, s: Step, k: nat, x: real)
    requires exercise != American
    ensures ValueToGo(Terms(Call, exercise, strike), s, k, x) - ValueToGo(Terms(Put, exercise, strike), s, k, x)
         == ForwardValue(s, strike, k, x)
  {
    if k > 0 {
      hide Roll, ValueToGo, Waiting, Payoff, Mean, Mul, ForwardValue;
      var call, put := Terms(Call, exercise, strike), Terms(Put, exercise, strike);
      var up, down := Mul(x, s.u), Mul(x, s.d);
      ValueParity(exercise, strike, s, k - 1, up);
      ValueParity(exercise, strike, s, k - 1, down);
      Unfolds(call, s, k, x, up, down);
      Unfolds(put, s, k, x, up, down);
      RollAdds(s, ValueToGo(call, s, k - 1, up), ValueToGo(call, s, k - 1, down),
               ValueToGo(put, s, k - 1, up), ValueToGo(put, s, k - 1, down));
      RollOfForward(s, strike, k - 1, x);
    }
  }

  /** The clamped probability prices the forward exactly when growth lies between the two moves. */
  lemma MeanIsGrowth(s: Step)
    requires Sound(s)
    ensures Mean(s) == s.growth <==> s.d <= s.growth <= s.u
    ensures Mean(s) >= s.growth <==> s.growth <= s.u
    ensures Mean(s) <= s.growth <==> s.d <= s.growth
  {
    var ratio := (s.growth - s.d) / (s.u - s.d);
    assert Mul(ratio, s.u - s.d) == s.growth - s.d;
    assert Product(ratio, s.u - s.d) == s.growth - s.d;
    assert Product(ratio - 1.0, s.u - s.d) == s.growth - s.u;
    assert Mul(s.p, s.u - s.d) == Mean(s) - s.d;
    if s.growth < s.d {
      assert s.p == 0.0;
    } else if s.growth > s.u {
      assert s.p == 1.0;
    } else {
      assert s.p == ratio;
    }
  }

  // ---- Early exercise is optimal stopping ----

  /** Whether to exercise after the moves so far (up or not), with `k` steps to go, at a given spot. */
  type Policy = (seq<bool>, nat, real) -> bool

  /** The discounted expected payoff of exercising by a policy, at expiry at the latest. */
  function Stopped(policy: Policy, kind: OptionType, strike: real, s: Step, moves: seq<bool>, k: nat, x: real): real
    decreases k
  {
    if k == 0 || policy(moves, k, x) then Payoff(kind, x, strike)
    else Roll(s, Stopped(policy, kind, strike, s, moves + [true], k - 1, Mul(x, s.u)),
              Stopped(policy, kind, strike, s, moves + [false], k - 1, Mul(x, s.d)))
  }

  /** No exercise policy, whatever it remembers of the path, is worth more than the American value. */
  lemma {:induction false} AmericanBoundsStopping(policy: Policy, kind: OptionType, strike: real, s: Step, moves: seq<bool>,
                                                  k: nat, x: real)
    requires Sound(s)
    ensures Stopped(policy, kind, strike, s, moves, k, x) <= ValueToGo(Terms(kind, American, strike), s, k, x)
    decreases k
  {
    hide Roll, Sound, Payoff, Mul, ValueToGo, Waiting;
    var o := Terms(kind, American, strike);
    if k == 0 {
      assert ValueToGo(o, s, 0, x) == Payoff(kind, x, strike) by { Expired(o, s, x); }
    } else {
      var up, down := Mul(x, s.u), Mul(x, s.d);
      AmericanBoundsStopping(policy, kind, strike, s, moves + [true], k - 1, up);
      AmericanBoundsStopping(policy, kind, strike, s, moves + [false], k - 1, down);
      Unfolds(o, s, k, x, up, down);
      RollOrders(s, Stopped(policy, kind, strike, s, moves + [true], k - 1, up),
                 Stopped(policy, kind, strike, s, moves + [false], k - 1, down),
                 ValueToGo(o, s, k - 1, up), ValueToGo(o, s, k - 1, down));
    }
  }

  lemma Expired(o: Terms, s: Step, x: real)
    ensures ValueToGo(o, s, 0, x) == Payoff(o.kind, x, o.strike)
  {
  }

  /** Exercise as soon as the intrinsic value is at least the value of waiting. */
  function Greedy(kind: OptionType, strike: real, s: Step): Policy {
    (moves: seq<bool>, k: nat, x: real) =>
      k > 0 && Payoff(kind, x, strike) >= Waiting(Terms(kind, American, strike), s, k, x)
  }

  /** That policy attains the American value, which is therefore the best stopping value. */
  lemma {:induction false} GreedyAttains(kind: OptionType, strike: real, s: Step, moves: seq<bool>, k: nat, x: real)
    ensures Stopped(Greedy(kind, strike, s), kind, strike, s, moves, k, x) == ValueToGo(Terms(kind, American, strike), s, k, x)
    decreases k
  {
    hide Roll, Payoff, Mul, ValueToGo, Waiting;
    var o := Terms(kind, American, strike);
    if k == 0 {
      Expired(o, s, x);
    } else {
      var up, down := Mul(x, s.u), Mul(x, s.d);
      GreedyAttains(kind, strike, s, moves + [true], k - 1, up);
      GreedyAttains(kind, strike, s, moves + [false], k - 1, down);
      Unfolds(o, s, k, x, up, down);
    }
  }

  lemma {:induction false} AmericanAboveEuropean(kind: OptionType, exercise: ExerciseStyle, strike: real, s: Step, k: nat, x: real)
    requires Sound(s) && exercise != American
    ensures ValueToGo(Terms(kind, exercise, strike), s, k, x) <= ValueToGo(Terms(kind, American, strike), s, k, x)
    ensures Payoff(kind, x, strike) <= ValueToGo(Terms(kind, American, strike), s, k, x)
  {
    hide Roll, Sound, Payoff, Mul, ValueToGo, Waiting;
    var o, european := Terms(kind, American, strike), Terms(kind, exercise, strike);
    if k == 0 {
      Expired(o, s, x);
      Expired(european, s, x);
    } else {
      var up, down := Mul(x, s.u), Mul(x, s.d);
      AmericanAboveEuropean(kind, exercise, strike, s, k - 1, up);
      AmericanAboveEuropean(kind, exercise, strike, s, k - 1, down);
      Unfolds(o, s, k, x, up, down);
      Unfolds(european, s, k, x, up, down);
      RollOrders(s, ValueToGo(european, s, k - 1, up), ValueToGo(european, s, k - 1, down),
                 ValueToGo(o, s, k - 1, up), ValueToGo(o, s, k - 1, down));
    }
  }

  // ---- Calls without dividends ----

  /** If waiting does not lose the carried spot, a call is worth at least its intrinsic value unexercised. */
  lemma {:induction false} CallWaits(exercise: ExerciseStyle, strike: real, s: Step, k: nat, x: real)
    requires Sound(s) && s.disc <= 1.0 && Carry(s) >= 1.0 && strike >= 0.0 && x >= 0.0
    ensures ValueToGo(Terms(Call, exercise, strike), s, k, x) >= Payoff(Call, x, strike)
    ensures k > 0 ==> Waiting(Terms(Call, exercise, strike), s, k, x) >= Payoff(Call, x, strike)
    ensures ValueToGo(Terms(Call, exercise, strike), s, k, x) == ValueToGo(Terms(Call, European, strike), s, k, x)
  {
    hide Roll, Sound, Mul, ValueToGo, Waiting, Mean;
    var o, european := Terms(Call, exercise, strike), Terms(Call, European, strike);
    if k == 0 {
      Expired(o, s, x);
      Expired(european, s, x);
    } else {
      var up, down := Mul(x, s.u), Mul(x, s.d);
      MovedUp(s, x);
      CallWaits(exercise, strike, s, k - 1, up);
      CallWaits(exercise, strike, s, k - 1, down);
      Unfolds(o, s, k, x, up, down);
      Unfolds(european, s, k, x, up, down);
      var a, b := ValueToGo(o, s, k - 1, up), ValueToGo(o, s, k - 1, down);
      RollOrders(s, 0.0, 0.0, a, b);
      assert Roll(s, 0.0, 0.0) == 0.0 by { RollOfNothing(s); }
      RollOrders(s, up - strike, down - strike, a, b);
      WaitingForward(s, x, strike);
    }
  }

  lemma MovedUp(s: Step, x: real)
    requires Sound(s) && x >= 0.0
    ensures Mul(x, s.u) >= 0.0 && Mul(x, s.d) >= 0.0
  {
    ProductNonNegative(x, s.u);
    ProductNonNegative(x, s.d);
  }

  lemma RollOfNothing(s: Step)
    ensures Roll(s, 0.0, 0.0) == 0.0
  {
  }

  lemma WaitingForward(s: Step, x: real, strike: real)
    requires Sound(s) && s.disc <= 1.0 && Carry(s) >= 1.0 && strike >= 0.0 && x >= 0.0
    ensures Roll(s, Mul(x, s.u) - strike, Mul(x, s.d) - strike) >= x - strike
  {
    hide Roll, Carry, Mul, Sound, Mean;
    RollOfLine(s, x, 1.0, strike);
    TimesOne(Mul(x, s.u));
    TimesOne(Mul(x, s.d));
    TimesOne(Carry(s));
    assert Roll(s, Mul(x, s.u) - strike, Mul(x, s.d) - strike) == Mul(Carry(s), x) - Mul(s.disc, strike);
    MulMonotone(1.0, Carry(s), x);
    MulMonotone(s.disc, 1.0, strike);
    TimesOne(x);
    TimesOne(strike);
  }
}
