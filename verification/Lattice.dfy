/** The Cox-Ross-Rubinstein lattice: the scalar pricer overwriting one buffer, and the full tree. */
module Lattice {
  import opened Reals

  datatype OptionType = Call | Put

  datatype ExerciseStyle = European | American | Bermudan

  datatype Terms = Terms(kind: OptionType, exercise: ExerciseStyle, strike: real)

  datatype Setting = Setting(rate: real, dividendYield: real, volatility: real, expiry: real)

  /** The constants of one time step. */
  datatype Step = Step(u: real, d: real, growth: real, p: real, disc: real)

  function Payoff(kind: OptionType, spot: real, strike: real): real {
    match kind
    case Call => Max(spot - strike, 0.0)
    case Put => Max(strike - spot, 0.0)
  }

  /** Spot after `up` up-moves among `step` moves. */
  function SpotAt(spot0: real, s: Step, step: nat, up: nat): real
    requires up <= step
  {
    spot0 * Pow(s.u, up) * Pow(s.d, step - up)
  }

  /** A full lattice is built only from these settings. */
  predicate Builds(m: Setting, n: nat) {
    n > 0 && m.expiry > 0.0 && m.volatility > 0.0
  }

  ghost predicate Sound(s: Step) {
    s.u > 1.0 && s.u * s.d == 1.0 && 0.0 < s.d < 1.0 && s.growth > 0.0 && 0.0 <= s.p <= 1.0 && s.disc > 0.0
    && s.p == Min(1.0, Max(0.0, (s.growth - s.d) / (s.u - s.d)))
  }

  /** The length of one step, in years. */
  function TimeStep(m: Setting, n: nat): (dt: real)
    requires Builds(m, n)
    ensures dt > 0.0
  {
    var dt := m.expiry / (n as real);
    assert Mul(dt, n as real) == m.expiry;
    assert Product(dt, n as real) == m.expiry;
    dt
  }

  function UpMove(e: Elementary, volatility: real, dt: real): (u: real)
    requires e.Lawful() && volatility > 0.0 && dt > 0.0
    ensures u > 1.0
  {
    e.SqrtOf(dt);
    e.ExpZero();
    var width := Mul(volatility, e.sqrt(dt));
    assert Product(volatility, e.sqrt(dt)) == width;
    e.ExpMonotone(0.0, width);
    e.exp(width)
  }

  /** What one unit becomes at a continuously compounded rate. */
  function Grown(e: Elementary, rate: real, time: real): (factor: real)
    requires e.Lawful()
    ensures factor > 0.0
  {
    e.ExpPositive(Mul(rate, time));
    e.exp(Mul(rate, time))
  }

  function StepOf(e: Elementary, m: Setting, n: nat): (s: Step)
    requires e.Lawful() && Builds(m, n)
    ensures Sound(s)
  {
    var dt := TimeStep(m, n);
    var u := UpMove(e, m.volatility, dt);
    var d := 1.0 / u;
    Reciprocal(u);
    var growth := Grown(e, m.rate - m.dividendYield, dt);
    Step(u, d, growth, Min(1.0, Max(0.0, (growth - d) / (u - d))), Grown(e, -m.rate, dt))
  }

  /** The up-move over the whole life has the variance the volatility asks for: the squared logarithm of one move times the
      number of steps is the squared volatility times the time. */
  lemma LogVariance(e: Elementary, m: Setting, n: nat)
    requires e.Lawful() && Builds(m, n)
    ensures var u := StepOf(e, m, n).u;
            u > 1.0 && e.ln(u) > 0.0 && e.ln(u) * e.ln(u) * (n as real) == m.volatility * m.volatility * m.expiry
  {
    hide Elementary.Lawful, Sound, Grown;
    var dt, u := TimeStep(m, n), StepOf(e, m, n).u;
    assert u == UpMove(e, m.volatility, dt);
    hide StepOf, UpMove;
    MoveVariance(e, m.volatility, dt);
    VarianceOfSteps(e.ln(u) * e.ln(u), m.volatility * m.volatility, dt, n as real, m.expiry);
  }

  lemma MoveVariance(e: Elementary, volatility: real, dt: real)
    requires e.Lawful() && volatility > 0.0 && dt > 0.0
    ensures var u := UpMove(e, volatility, dt);
            e.ln(u) > 0.0 && e.ln(u) * e.ln(u) == (volatility * volatility) * dt
  {
    var root := e.sqrt(dt);
    var width := Mul(volatility, root);
    e.SqrtOf(dt);
    e.LnOfExp(width);
    hide Elementary.Lawful;
    WidthSquared(volatility, root, dt);
  }

  lemma WidthSquared(volatility: real, root: real, dt: real)
    requires volatility > 0.0 && root > 0.0 && root * root == dt
    ensures var width := volatility * root; width > 0.0 && width * width == (volatility * volatility) * dt
  {
    assert Product(volatility, root) == volatility * root;
    assert Mul(volatility * volatility, root * root) == Mul(volatility * volatility, dt);
  }

  lemma VarianceOfSteps(square: real, variance: real, dt: real, n: real, expiry: real)
    requires square == variance * dt && dt * n == expiry
    ensures square * n == variance * expiry
  {
    assert Mul(variance, dt * n) == Mul(variance, expiry);
  }

  lemma Reciprocal(u: real)
    requires u > 1.0
    ensures u * (1.0 / u) == 1.0 && 0.0 < 1.0 / u < 1.0
  {
    var d := 1.0 / u;
    assert u * d == 1.0;
    assert Product(u, d) == 1.0;
    assert Product(u - 1.0, d) == u * d - d;
  }

  /** One step back: the discounted expectation. */
  function Roll(s: Step, up: real, down: real): real {
    s.disc * (s.p * up + (1.0 - s.p) * down)
  }

  /** The value at a node of the lattice, by backward induction over the tree. */
  function NodeValue(o: Terms, s: Step, spot0: real, n: nat, step: nat, up: nat): real
    requires up <= step <= n
    decreases n - step
  {
    var intrinsic := Payoff(o.kind, SpotAt(spot0, s, step, up), o.strike);
    if step == n then intrinsic
    else
      var continuation := Continuation(o, s, spot0, n, step, up);
      if o.exercise == American then Max(intrinsic, continuation) else continuation
  }

  function Continuation(o: Terms, s: Step, spot0: real, n: nat, step: nat, up: nat): real
    requires up <= step < n
    decreases n - step, 0
  {
    Roll(s, NodeValue(o, s, spot0, n, step + 1, up + 1), NodeValue(o, s, spot0, n, step + 1, up))
  }

  /** The discounted payoff of the forward. */
  function ForwardPrice(o: Terms, bond: real, carry: real, spot: real): real {
    bond * Payoff(o.kind, spot * carry, o.strike)
  }

  /** The price without volatility. */
  function DeterministicPrice(e: Elementary, o: Terms, m: Setting, spot: real): real
    requires e.Lawful()
  {
    var european := ForwardPrice(o, Grown(e, -m.rate, m.expiry), Grown(e, m.rate - m.dividendYield, m.expiry), spot);
    if o.exercise == American then Max(Payoff(o.kind, spot, o.strike), european) else european
  }

  /** The price in every branch, the root of the tree where one is built. */
  function LatticePrice(e: Elementary, o: Terms, m: Setting, spot: real, n: nat): real
    requires e.Lawful()
  {
    if spot <= 0.0 || o.strike <= 0.0 then 0.0
    else if m.expiry <= 0.0 || n == 0 then Payoff(o.kind, spot, o.strike)
    else if m.volatility <= 0.0 then DeterministicPrice(e, o, m, spot)
    else NodeValue(o, StepOf(e, m, n), spot, n, 0, 0)
  }

  /** The running spot of the scalar pricer stays on the tree's nodes. */
  lemma SpotUp(spot0: real, s: Step, step: nat, up: nat)
    requires up < step && s.d != 0.0
    ensures SpotAt(spot0, s, step, up) * (s.u / s.d) == SpotAt(spot0, s, step, up + 1)
  {
    var a, b, ud := Pow(s.u, up), Pow(s.d, step - up - 1), s.u / s.d;
    assert Pow(s.u, up + 1) == s.u * a && Pow(s.d, step - up) == s.d * b;
    assert ud * s.d == s.u;
    RunningSpot(spot0, s.u, s.d, ud, a, b);
  }

  lemma RunningSpot(spot0: real, u: real, d: real, ud: real, a: real, b: real)
    requires ud * d == u
    ensures spot0 * a * (d * b) * ud == spot0 * (u * a) * b
  {
    assert Mul(spot0 * a * b, ud * d) == Mul(spot0 * a * b, u);
  }

  /** A node's two successors have its spot times `u` and times `d`. */
  lemma SpotMoves(spot0: real, s: Step, step: nat, up: nat)
    requires up <= step
    ensures SpotAt(spot0, s, step + 1, up + 1) == SpotAt(spot0, s, step, up) * s.u
    ensures SpotAt(spot0, s, step + 1, up) == SpotAt(spot0, s, step, up) * s.d
  {
    var a, b := Pow(s.u, up), Pow(s.d, step - up);
    assert Pow(s.u, up + 1) == s.u * a && Pow(s.d, step + 1 - up) == s.d * b;
    Extended(spot0, s.u, a, b, Pow(s.u, up + 1));
    Extended(spot0, s.d, b, a, Pow(s.d, step + 1 - up));
  }

  lemma Extended(spot0: real, x: real, a: real, b: real, longer: real)
    requires longer == x * a
    ensures spot0 * longer * b == spot0 * a * b * x
    ensures spot0 * b * longer == spot0 * b * a * x
  {
    assert Mul(spot0 * b, longer) == Mul(spot0 * b, x * a);
  }

  /** The scalar pricer's first pass: payoffs at expiry, with a running spot. */
  method FillPayoffs(v: array<real>, o: Terms, s: Step, spot: real, n: nat)
    requires v.Length == n + 1 && s.d != 0.0
    modifies v
    ensures forall i: nat :: i <= n ==> v[i] == Payoff(o.kind, SpotAt(spot, s, n, i), o.strike)
  {
    hide SpotAt, Payoff;
    var ud := s.u / s.d;
    var running := spot * Pow(s.d, n);
    SpotStart(spot, s, n);
    for i := 0 to n + 1
      invariant i <= n ==> running == SpotAt(spot, s, n, i)
      invariant forall k: nat :: k < i ==> v[k] == Payoff(o.kind, SpotAt(spot, s, n, k), o.strike)
    {
      v[i] := Payoff(o.kind, running, o.strike);
      if i < n {
        SpotUp(spot, s, n, i);
      }
      running := running * ud;
    }
  }

  lemma SpotStart(spot: real, s: Step, step: nat)
    ensures SpotAt(spot, s, step, 0) == spot * Pow(s.d, step)
  {
    assert Mul(spot, Pow(s.u, 0)) == spot;
  }

  /** One rollback over the live prefix of the buffer. Cells above the cursor still hold the later
      step; the cursor reads them before overwriting. */
  method RollBack(v: array<real>, o: Terms, s: Step, spot: real, n: nat, step: nat)
    requires v.Length == n + 1 && s.d != 0.0 && step < n
    requires forall i: nat :: i <= step + 1 ==> v[i] == NodeValue(o, s, spot, n, step + 1, i)
    modifies v
    ensures forall i: nat :: i <= step ==> v[i] == NodeValue(o, s, spot, n, step, i)
  {
    hide SpotAt, Payoff, NodeValue;
    if o.exercise == American {
      var ud := s.u / s.d;
      var running := spot * Pow(s.d, step);
      SpotStart(spot, s, step);
      for i := 0 to step + 1
        invariant i <= step ==> running == SpotAt(spot, s, step, i)
        invariant forall k: nat :: k < i ==> v[k] == NodeValue(o, s, spot, n, step, k)
        invariant forall k: nat :: i <= k <= step + 1 ==> v[k] == NodeValue(o, s, spot, n, step + 1, k)
      {
        NodeUnfolds(o, s, spot, n, step, i);
        var continuation := Roll(s, v[i + 1], v[i]);
        v[i] := Max(Payoff(o.kind, running, o.strike), continuation);
        if i < step {
          SpotUp(spot, s, step, i);
        }
        running := running * ud;
      }
    } else {
      for i := 0 to step + 1
        invariant forall k: nat :: k < i ==> v[k] == NodeValue(o, s, spot, n, step, k)
        invariant forall k: nat :: i <= k <= step + 1 ==> v[k] == NodeValue(o, s, spot, n, step + 1, k)
      {
        NodeUnfolds(o, s, spot, n, step, i);
        v[i] := Roll(s, v[i + 1], v[i]);
      }
    }
  }

  lemma NodeUnfolds(o: Terms, s: Step, spot: real, n: nat, step: nat, up: nat)
    requires up <= step < n
    ensures NodeValue(o, s, spot, n, step, up) ==
            var continuation := Continuation(o, s, spot, n, step, up);
            if o.exercise == American then Max(Payoff(o.kind, SpotAt(spot, s, step, up), o.strike), continuation)
            else continuation
  {
  }

  lemma LastNode(o: Terms, s: Step, spot: real, n: nat, up: nat)
    requires up <= n
    ensures NodeValue(o, s, spot, n, n, up) == Payoff(o.kind, SpotAt(spot, s, n, up), o.strike)
  {
  }

  /** The scalar pricer refines the tree: for all inputs it returns the tree's root value. */
  method CoxRossRubinsteinVanillaPrice(e: Elementary, o: Terms, m: Setting, spot: real, n: nat) returns (npv: real)
    requires e.Lawful()
    ensures npv == LatticePrice(e, o, m, spot, n)
  {
    if spot <= 0.0 || o.strike <= 0.0 {
      return 0.0;
    }
    if m.expiry <= 0.0 {
      return Payoff(o.kind, spot, o.strike);
    }
    if n == 0 {
      return Payoff(o.kind, spot, o.strike);
    }
    if m.volatility <= 0.0 {
      return DeterministicPrice(e, o, m, spot);
    }
    hide SpotAt, Payoff, NodeValue;
    var s := StepOf(e, m, n);
    var v := new real[n + 1](i => 0.0);
    FillPayoffs(v, o, s, spot, n);
    forall i: nat | i <= n ensures v[i] == NodeValue(o, s, spot, n, n, i) {
      LastNode(o, s, spot, n, i);
    }
    var step := n;
    while step > 0
      invariant 0 <= step <= n
      invariant forall i: nat :: i <= step ==> v[i] == NodeValue(o, s, spot, n, step, i)
    {
      step := step - 1;
      RollBack(v, o, s, spot, n, step);
    }
    npv := v[0];
  }

  // ---- The full tree ----

  datatype CrrTreeNode = CrrTreeNode(step: nat, upMoves: nat, spot: real, intrinsic: real, continuation: real,
                                     value: real, earlyExercise: bool)

  datatype CrrTreeDump = CrrTreeDump(steps: nat, dt: real, u: real, d: real, pUp: real, discount: real, npv: real,
                                     nodes: seq<CrrTreeNode>)

  const EXERCISE_TOLERANCE := 0.000000000001

  /** What the tree records of one node. */
  function TreeNode(o: Terms, s: Step, spot: real, n: nat, step: nat, up: nat): CrrTreeNode
    requires up <= step <= n
  {
    var intrinsic := Payoff(o.kind, SpotAt(spot, s, step, up), o.strike);
    var continuation := if step == n then intrinsic else Continuation(o, s, spot, n, step, up);
    CrrTreeNode(step, up, SpotAt(spot, s, step, up), intrinsic, continuation, NodeValue(o, s, spot, n, step, up),
                o.exercise == American && step < n && intrinsic > continuation + EXERCISE_TOLERANCE)
  }

  /** Where a step's row begins in the node list. */
  function RowStart(step: nat): nat {
    if step == 0 then 0 else RowStart(step - 1) + step
  }

  /** The list has (n+1)(n+2)/2 nodes. */
  lemma {:induction false} NodeCount(n: nat)
    ensures 2 * RowStart(n + 1) == (n + 1) * (n + 2)
  {
    if n > 0 {
      NodeCount(n - 1);
    }
  }

  ghost predicate Listed(nodes: seq<CrrTreeNode>, o: Terms, s: Step, spot: real, n: nat, step: nat, up: nat)
    requires up <= step <= n
  {
    RowStart(step) + up < |nodes| && nodes[RowStart(step) + up] == TreeNode(o, s, spot, n, step, up)
  }

  /** The node list holds every node of the first `rows` steps once, by increasing step and then up-moves. */
  ghost predicate ListsNodes(nodes: seq<CrrTreeNode>, o: Terms, s: Step, spot: real, n: nat, rows: nat)
    requires rows <= n + 1
  {
    && |nodes| == RowStart(rows)
    && forall step: nat, up: nat :: up <= step < rows ==> Listed(nodes, o, s, spot, n, step, up)
  }

  lemma NodeListed(nodes: seq<CrrTreeNode>, node: CrrTreeNode, o: Terms, s: Step, spot: real, n: nat, step: nat,
                   i: nat)
    requires i <= step <= n && |nodes| == RowStart(step) + i && node == TreeNode(o, s, spot, n, step, i)
    requires forall up: nat :: up < i ==> Listed(nodes, o, s, spot, n, step, up)
    ensures forall up: nat :: up < i + 1 ==> Listed(nodes + [node], o, s, spot, n, step, up)
  {
    forall up: nat | up < i + 1 ensures Listed(nodes + [node], o, s, spot, n, step, up) {
      assert up < i ==> Listed(nodes, o, s, spot, n, step, up);
    }
  }

  lemma RowListed(earlier: seq<CrrTreeNode>, nodes: seq<CrrTreeNode>, o: Terms, s: Step, spot: real, n: nat, step: nat)
    requires step <= n && ListsNodes(earlier, o, s, spot, n, step) && earlier <= nodes
    requires |nodes| == RowStart(step) + step + 1
    requires forall up: nat :: up <= step ==> Listed(nodes, o, s, spot, n, step, up)
    ensures ListsNodes(nodes, o, s, spot, n, step + 1)
  {
    assert RowStart(step + 1) == RowStart(step) + step + 1;
    forall k: nat, up: nat | up <= k < step + 1 ensures Listed(nodes, o, s, spot, n, k, up) {
      assert k < step ==> Listed(earlier, o, s, spot, n, k, up);
    }
  }

  /** Every row after `step` is filled, and the first `count` entries of row `step`. */
  ghost predicate Filled(values: array2<real>, conts: array2<real>, intrinsics: array2<real>, o: Terms, s: Step,
                         spot: real, n: nat, step: nat, count: nat)
    requires values.Length0 == values.Length1 == n + 1
    requires conts.Length0 == conts.Length1 == n + 1
    requires intrinsics.Length0 == intrinsics.Length1 == n + 1
    reads values, conts, intrinsics
  {
    forall k: nat, i: nat {:trigger TreeNode(o, s, spot, n, k, i)} ::
      i <= k <= n && (step < k || (step == k && i < count)) ==>
        var node := TreeNode(o, s, spot, n, k, i);
        values[k, i] == node.value && conts[k, i] == node.continuation && intrinsics[k, i] == node.intrinsic
  }

  /** One row of the tree, from the row after it. */
  method FillRow(values: array2<real>, conts: array2<real>, intrinsics: array2<real>, o: Terms, s: Step, spot: real,
                 n: nat, step: nat)
    requires values.Length0 == values.Length1 == n + 1
    requires conts.Length0 == conts.Length1 == n + 1
    requires intrinsics.Length0 == intrinsics.Length1 == n + 1
    requires values != conts && conts != intrinsics && values != intrinsics
    requires step <= n && Filled(values, conts, intrinsics, o, s, spot, n, step, 0)
    modifies values, conts, intrinsics
    ensures Filled(values, conts, intrinsics, o, s, spot, n, step, step + 1)
  {
    hide SpotAt, Payoff, NodeValue;
    for i := 0 to step + 1
      invariant Filled(values, conts, intrinsics, o, s, spot, n, step, i)
    {
      var here := SpotAt(spot, s, step, i);
      var intrinsic := Payoff(o.kind, here, o.strike);
      var continuation, value := intrinsic, intrinsic;
      if step < n {
        NodeUnfolds(o, s, spot, n, step, i);
        assert TreeNode(o, s, spot, n, step + 1, i).value == values[step + 1, i];
        assert TreeNode(o, s, spot, n, step + 1, i + 1).value == values[step + 1, i + 1];
        continuation := Roll(s, values[step + 1, i + 1], values[step + 1, i]);
        value := if o.exercise == American then Max(intrinsic, continuation) else continuation;
      } else {
        LastNode(o, s, spot, n, i);
      }
      values[step, i] := value;
      conts[step, i] := continuation;
      intrinsics[step, i] := intrinsic;
    }
  }

  lemma FilledRow(values: array2<real>, conts: array2<real>, intrinsics: array2<real>, o: Terms, s: Step, spot: real,
                  n: nat, step: nat)
    requires values.Length0 == values.Length1 == n + 1
    requires conts.Length0 == conts.Length1 == n + 1
    requires intrinsics.Length0 == intrinsics.Length1 == n + 1
    requires Filled(values, conts, intrinsics, o, s, spot, n, step + 1, step + 2)
    ensures Filled(values, conts, intrinsics, o, s, spot, n, step, 0)
  {
    hide TreeNode;
  }

  method ListNodes(values: array2<real>, conts: array2<real>, intrinsics: array2<real>, o: Terms, s: Step, spot: real,
                   n: nat)
    returns (nodes: seq<CrrTreeNode>)
    requires values.Length0 == values.Length1 == n + 1
    requires conts.Length0 == conts.Length1 == n + 1
    requires intrinsics.Length0 == intrinsics.Length1 == n + 1
    requires Filled(values, conts, intrinsics, o, s, spot, n, 0, 1)
    ensures ListsNodes(nodes, o, s, spot, n, n + 1)
  {
    hide SpotAt, Payoff, NodeValue;
    nodes := [];
    for step := 0 to n + 1
      invariant ListsNodes(nodes, o, s, spot, n, step)
    {
      var earlier := nodes;
      for i := 0 to step + 1
        invariant |nodes| == RowStart(step) + i
        invariant earlier <= nodes
        invariant forall up: nat :: up < i ==> Listed(nodes, o, s, spot, n, step, up)
      {
        var intrinsic, continuation, value := intrinsics[step, i], conts[step, i], values[step, i];
        assert TreeNode(o, s, spot, n, step, i).value == value;
        var early := o.exercise == American && step < n && intrinsic > continuation + EXERCISE_TOLERANCE;
        var node := CrrTreeNode(step, i, SpotAt(spot, s, step, i), intrinsic, continuation, value, early);
        assert node == TreeNode(o, s, spot, n, step, i);
        NodeListed(nodes, node, o, s, spot, n, step, i);
        nodes := nodes + [node];
      }
      RowListed(earlier, nodes, o, s, spot, n, step);
    }
  }

  /** The full tree: in every branch its root value is the price the scalar pricer returns, and where a
      lattice is built it lists every node. */
  method CoxRossRubinsteinVanillaTree(e: Elementary, o: Terms, m: Setting, spot: real, n: nat)
    returns (t: CrrTreeDump)
    requires e.Lawful()
    ensures t.steps == n && t.npv == LatticePrice(e, o, m, spot, n)
    ensures spot > 0.0 && o.strike > 0.0 && Builds(m, n) ==>
              var s := StepOf(e, m, n);
              && ListsNodes(t.nodes, o, s, spot, n, n + 1)
              && t.dt == TimeStep(m, n) && t.u == s.u && t.d == s.d && t.pUp == s.p && t.discount == s.disc
    ensures spot > 0.0 && o.strike > 0.0 && Builds(m, n) ==>
              t.u > 1.0 && e.ln(t.u) * e.ln(t.u) * (n as real) == m.volatility * m.volatility * m.expiry
    ensures spot > 0.0 && o.strike > 0.0 && !Builds(m, n) ==>
              && var intrinsic := Payoff(o.kind, spot, o.strike);
              && t.nodes == [CrrTreeNode(0, 0, spot, intrinsic, if n == 0 then intrinsic else t.npv, t.npv, false)]
    ensures spot <= 0.0 || o.strike <= 0.0 ==> t.nodes == []
  {
    if spot <= 0.0 || o.strike <= 0.0 || n == 0 {
      var npv := if spot > 0.0 && o.strike > 0.0 then Payoff(o.kind, spot, o.strike) else 0.0;
      t := CrrTreeDump(n, 0.0, 0.0, 0.0, 0.0, 0.0, npv, []);
      if spot > 0.0 && o.strike > 0.0 {
        var intrinsic := Payoff(o.kind, spot, o.strike);
        t := t.(nodes := [CrrTreeNode(0, 0, spot, intrinsic, intrinsic, npv, false)]);
      }
      return;
    }
    if m.expiry <= 0.0 || m.volatility <= 0.0 {
      var npv := CoxRossRubinsteinVanillaPrice(e, o, m, spot, n);
      var intrinsic := Payoff(o.kind, spot, o.strike);
      return CrrTreeDump(n, 0.0, 0.0, 0.0, 0.0, 0.0, npv, [CrrTreeNode(0, 0, spot, intrinsic, npv, npv, false)]);
    }
    var s := StepOf(e, m, n);
    var npv, nodes := FillTree(o, s, spot, n);
    LogVariance(e, m, n);
    t := CrrTreeDump(n, TimeStep(m, n), s.u, s.d, s.p, s.disc, npv, nodes);
  }

  /** Every node of the tree, from the last row back. */
  method FillTree(o: Terms, s: Step, spot: real, n: nat) returns (npv: real, nodes: seq<CrrTreeNode>)
    ensures npv == NodeValue(o, s, spot, n, 0, 0) && ListsNodes(nodes, o, s, spot, n, n + 1)
  {
    hide NodeValue;
    var values, conts := new real[n + 1, n + 1]((i, j) => 0.0), new real[n + 1, n + 1]((i, j) => 0.0);
    var intrinsics := new real[n + 1, n + 1]((i, j) => 0.0);
    var step := n + 1;
    while step > 0
      invariant 0 <= step <= n + 1
      invariant Filled(values, conts, intrinsics, o, s, spot, n, step, step + 1)
    {
      step := step - 1;
      FilledRow(values, conts, intrinsics, o, s, spot, n, step);
      FillRow(values, conts, intrinsics, o, s, spot, n, step);
    }
    assert TreeNode(o, s, spot, n, 0, 0).value == values[0, 0];
    nodes := ListNodes(values, conts, intrinsics, o, s, spot, n);
    npv := values[0, 0];
  }

  /** The listed nodes explain themselves: each spot is followed by its two moves, each continuation is the discounted mean
      of the two values that follow, and each value is the continuation or, where exercise is allowed and better, the
      intrinsic value; the last row holds payoffs. */
  lemma ListExplains(nodes: seq<CrrTreeNode>, o: Terms, s: Step, spot: real, n: nat, step: nat, up: nat)
    requires up <= step <= n && ListsNodes(nodes, o, s, spot, n, n + 1)
    ensures RowStart(step) + up < |nodes| && (step < n ==> RowStart(step + 1) + up + 1 < |nodes|)
    ensures var node := nodes[RowStart(step) + up];
            && node.step == step && node.upMoves == up && node.intrinsic == Payoff(o.kind, node.spot, o.strike)
            && (step == n ==> node.value == node.continuation == node.intrinsic && !node.earlyExercise)
            && (step < n ==>
                  var high, low := nodes[RowStart(step + 1) + up + 1], nodes[RowStart(step + 1) + up];
                  && high.spot == node.spot * s.u && low.spot == node.spot * s.d
                  && node.continuation == s.disc * (s.p * high.value + (1.0 - s.p) * low.value)
                  && node.value == (if o.exercise == American && node.intrinsic > node.continuation then node.intrinsic else node.continuation)
                  && (node.earlyExercise <==> o.exercise == American && node.intrinsic > node.continuation + EXERCISE_TOLERANCE))
  {
    hide SpotAt, Payoff, NodeValue;
    assert Listed(nodes, o, s, spot, n, step, up);
    if step < n {
      assert Listed(nodes, o, s, spot, n, step + 1, up) && Listed(nodes, o, s, spot, n, step + 1, up + 1);
      SpotMoves(spot, s, step, up);
      NodeUnfolds(o, s, spot, n, step, up);
    } else {
      LastNode(o, s, spot, n, up);
    }
  }

  lemma ListStarts(nodes: seq<CrrTreeNode>, o: Terms, s: Step, spot: real, n: nat)
    requires ListsNodes(nodes, o, s, spot, n, n + 1)
    ensures nodes != [] && nodes[0].spot == spot && nodes[0].value == NodeValue(o, s, spot, n, 0, 0)
  {
    hide NodeValue;
    assert Listed(nodes, o, s, spot, n, 0, 0);
  }
}
