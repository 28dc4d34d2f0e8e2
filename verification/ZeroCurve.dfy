/** The zero curve: linear interpolation of zero rates, and how rates move with the last node. */
module ZeroCurve {
  import opened Reals
  import opened Sorting

  const TIME_TOLERANCE := 0.0000000001

  datatype SolvedNode = SolvedNode(time: real, zero: real)

  datatype CurvePoint = CurvePoint(tenor: string, time: real, zero: real, discount: real)

  function Nodes(pillars: seq<CurvePoint>): (nodes: seq<SolvedNode>)
    ensures |nodes| == |pillars|
  {
    seq(|pillars|, i requires 0 <= i < |pillars| => SolvedNode(pillars[i].time, pillars[i].zero))
  }

  function TimeOf(node: SolvedNode): real {
    node.time
  }

  function SortByTime(curve: seq<SolvedNode>): (sorted: seq<SolvedNode>)
    ensures |sorted| == |curve|
  {
    SortBy(TimeOf, curve)
  }

  /** A curve whose times ascend is looked up as it stands. */
  lemma CurveInOrder(curve: seq<SolvedNode>)
    requires forall i, j :: 0 <= i < j < |curve| ==> curve[i].time <= curve[j].time
    ensures SortByTime(curve) == curve
  {
    SortedIsFixed(TimeOf, curve);
  }

  // ---- Interpolation ----

  /** The zero rate on a curve in time order: flat outside, linear inside, first matching segment. */
  function ZeroAt(curve: seq<SolvedNode>, t: real): real
    requires |curve| > 0
  {
    if t <= curve[0].time + TIME_TOLERANCE then curve[0].zero
    else if t + TIME_TOLERANCE >= curve[|curve| - 1].time then curve[|curve| - 1].zero
    else OnSegments(curve, 0, t)
  }

  function OnSegments(curve: seq<SolvedNode>, i: nat, t: real): real
    requires i < |curve|
    decreases |curve| - i
  {
    if i + 1 == |curve| then curve[i].zero
    else if t + TIME_TOLERANCE < curve[i].time || t > curve[i + 1].time + TIME_TOLERANCE then OnSegments(curve, i + 1, t)
    else if Abs(curve[i + 1].time - curve[i].time) <= TIME_TOLERANCE then curve[i].zero
    else Between(curve[i], curve[i + 1], t)
  }

  function Between(a: SolvedNode, b: SolvedNode, t: real): real
    requires a.time != b.time
  {
    var weight := (t - a.time) / (b.time - a.time);
    a.zero + weight * (b.zero - a.zero)
  }

  method SearchCurve(curve: seq<SolvedNode>, t: real) returns (zero: real)
    requires |curve| > 0
    ensures zero == ZeroAt(curve, t)
  {
    hide Between;
    if t <= curve[0].time + TIME_TOLERANCE {
      return curve[0].zero;
    }
    if t + TIME_TOLERANCE >= curve[|curve| - 1].time {
      return curve[|curve| - 1].zero;
    }
    var i := 0;
    while i + 1 < |curve|
      invariant 0 <= i < |curve|
      invariant ZeroAt(curve, t) == OnSegments(curve, i, t)
    {
      var t0, t1 := curve[i].time, curve[i + 1].time;
      if t + TIME_TOLERANCE < t0 || t > t1 + TIME_TOLERANCE {
        i := i + 1;
        continue;
      }
      if Abs(t1 - t0) <= TIME_TOLERANCE {
        return curve[i].zero;
      }
      return Between(curve[i], curve[i + 1], t);
    }
    return curve[|curve| - 1].zero;
  }

  /** The solver's interpolation, with the unsolved pillar appended. */
  method InterpolateZeroRateLinear(nodes: seq<SolvedNode>, t: real, terminalTime: real, terminalZero: real)
    returns (zero: real)
    ensures zero == ZeroAt(SortByTime(nodes + [SolvedNode(terminalTime, terminalZero)]), t)
  {
    var curve := SortByTime(nodes + [SolvedNode(terminalTime, terminalZero)]);
    zero := SearchCurve(curve, t);
  }

  /** The finished curve's interpolation. */
  method InterpolateZeroRateAtTime(pillars: seq<CurvePoint>, t: real) returns (zero: real)
    ensures zero == CurveZero(pillars, t)
  {
    if |pillars| == 0 {
      return 0.0;
    }
    var curve: seq<SolvedNode> := [];
    for i := 0 to |pillars|
      invariant curve == Nodes(pillars)[..i]
    {
      curve := curve + [SolvedNode(pillars[i].time, pillars[i].zero)];
    }
    assert curve == Nodes(pillars);
    zero := SearchCurve(SortByTime(curve), t);
  }

  function CurveZero(pillars: seq<CurvePoint>, t: real): real {
    if |pillars| == 0 then 0.0 else ZeroAt(SortByTime(Nodes(pillars)), t)
  }

  // ---- What interpolation promises on a curve whose times are further apart than the tolerance ----

  ghost predicate Spaced(curve: seq<SolvedNode>) {
    forall i, j :: 0 <= i < j < |curve| ==> curve[i].time + TIME_TOLERANCE < curve[j].time
  }

  /** The lookup that starts past node `i` finds the node after the date. */
  lemma {:induction false} SegmentFound(curve: seq<SolvedNode>, i: nat, k: nat, t: real)
    requires Spaced(curve) && i <= k && k + 1 < |curve|
    requires curve[k].time + TIME_TOLERANCE < t <= curve[k + 1].time + TIME_TOLERANCE
    ensures OnSegments(curve, i, t) == Between(curve[k], curve[k + 1], t)
    decreases k - i
  {
    hide Between;
    if i < k {
      SegmentFound(curve, i + 1, k, t);
      assert curve[i + 1].time <= curve[k].time;
    }
  }

  /** Interpolation is exact at the nodes. */
  lemma ZeroAtNode(curve: seq<SolvedNode>, k: nat)
    requires Spaced(curve) && k < |curve|
    ensures ZeroAt(curve, curve[k].time) == curve[k].zero
  {
    hide Between;
    if 0 < k < |curve| - 1 {
      SegmentFound(curve, 0, k - 1, curve[k].time);
      BetweenAtEnd(curve[k - 1], curve[k]);
    }
  }

  lemma BetweenAtEnd(a: SolvedNode, b: SolvedNode)
    requires a.time < b.time
    ensures Between(a, b, b.time) == b.zero
  {
    var width := b.time - a.time;
    var weight := width / width;
    assert Mul(weight, width) == width;
    assert Product(weight - 1.0, width) == 0.0;
    assert weight == 1.0;
  }

  /** Where a date inside the curve falls. */
  lemma {:induction false} FindSegment(curve: seq<SolvedNode>, t: real) returns (k: nat)
    requires Spaced(curve) && |curve| > 0
    requires curve[0].time + TIME_TOLERANCE < t && t + TIME_TOLERANCE < curve[|curve| - 1].time
    ensures k + 1 < |curve| && curve[k].time + TIME_TOLERANCE < t <= curve[k + 1].time + TIME_TOLERANCE
    ensures ZeroAt(curve, t) == Between(curve[k], curve[k + 1], t)
  {
    k := 0;
    while t > curve[k + 1].time + TIME_TOLERANCE
      invariant 0 <= k && k + 1 < |curve| && curve[k].time + TIME_TOLERANCE < t
      decreases |curve| - k
    {
      k := k + 1;
    }
    SegmentFound(curve, 0, k, t);
  }

  /** Locality: later pillars never change the rate before the last pillar's tolerance. */
  lemma LaterPillarsKeepRates(curve: seq<SolvedNode>, later: seq<SolvedNode>, t: real)
    requires |curve| > 0 && Spaced(curve + later) && t + TIME_TOLERANCE < curve[|curve| - 1].time
    ensures ZeroAt(curve + later, t) == ZeroAt(curve, t)
  {
    hide Between;
    var longer := curve + later;
    assert forall i | 0 <= i < |curve| :: longer[i] == curve[i];
    assert Spaced(curve);
    if t > curve[0].time + TIME_TOLERANCE {
      var k := FindSegment(curve, t);
      SegmentFound(longer, 0, k, t);
      assert longer[|curve| - 1].time <= longer[|longer| - 1].time;
    }
  }

  /** The rate before the last pillar moves with the last pillar's rate, and never faster. */
  lemma ZeroMoves(nodes: seq<SolvedNode>, time: real, t: real, low: real, high: real)
    requires Spaced(nodes + [SolvedNode(time, low)]) && t + TIME_TOLERANCE < time && low <= high
    ensures 0.0 <= ZeroAt(nodes + [SolvedNode(time, high)], t) - ZeroAt(nodes + [SolvedNode(time, low)], t) <= high - low
  {
    hide Between;
    var a, b := nodes + [SolvedNode(time, low)], nodes + [SolvedNode(time, high)];
    assert forall i | 0 <= i < |a| :: a[i].time == b[i].time;
    assert forall i | 0 <= i < |nodes| :: a[i] == b[i] == nodes[i];
    assert Spaced(b);
    if t > a[0].time + TIME_TOLERANCE {
      var k := FindSegment(a, t);
      SegmentFound(b, 0, k, t);
      if k + 1 == |nodes| {
        BetweenMoves(a[k], time, t, low, high);
      }
    }
  }

  lemma BetweenMoves(a: SolvedNode, time: real, t: real, low: real, high: real)
    requires a.time < t < time && low <= high
    ensures 0.0 <= Between(a, SolvedNode(time, high), t) - Between(a, SolvedNode(time, low), t) <= high - low
  {
    var weight := (t - a.time) / (time - a.time);
    assert Mul(weight, time - a.time) == t - a.time;
    assert Product(weight, time - a.time) == t - a.time;
    assert Product(1.0 - weight, time - a.time) == time - t;
    assert Product(weight, high - low) == weight * (high - a.zero) - weight * (low - a.zero);
    assert Product(1.0 - weight, high - low) == (high - low) - (weight * (high - a.zero) - weight * (low - a.zero));
  }

  ghost predicate NonNegative(curve: seq<SolvedNode>) {
    forall i :: 0 <= i < |curve| ==> curve[i].zero >= 0.0
  }

  /** The date is not just past a node: the lookup never extrapolates a segment. */
  ghost predicate ClearOf(curve: seq<SolvedNode>, t: real) {
    forall i :: 0 <= i < |curve| ==> t <= curve[i].time || curve[i].time + TIME_TOLERANCE < t
  }

  lemma ZeroNonNegative(curve: seq<SolvedNode>, t: real)
    requires Spaced(curve) && NonNegative(curve) && ClearOf(curve, t) && |curve| > 0
    ensures ZeroAt(curve, t) >= 0.0
  {
    hide Between;
    if curve[0].time + TIME_TOLERANCE < t && t + TIME_TOLERANCE < curve[|curve| - 1].time {
      var k := FindSegment(curve, t);
      BetweenNonNegative(curve[k], curve[k + 1], t);
    }
  }

  lemma BetweenNonNegative(a: SolvedNode, b: SolvedNode, t: real)
    requires a.time < t <= b.time && a.zero >= 0.0 && b.zero >= 0.0
    ensures Between(a, b, t) >= 0.0
  {
    var weight := (t - a.time) / (b.time - a.time);
    assert Mul(weight, b.time - a.time) == t - a.time;
    assert Product(weight, b.time - a.time) == t - a.time;
    assert Product(1.0 - weight, b.time - a.time) == b.time - t;
    assert Product(weight, b.zero) == weight * b.zero;
    assert Product(1.0 - weight, a.zero) == a.zero - weight * a.zero;
  }

  // ---- The shape of the curve ----

  /** The rate at `t` lies on the straight line through two points. */
  predicate OnLine(zero: real, a: SolvedNode, b: SolvedNode, t: real) {
    (b.time - a.time) * zero == (b.time - t) * a.zero + (t - a.time) * b.zero
  }

  /** Strictly past node `k`, up to the next node, and clear of the flat end. */
  predicate InsideSegment(curve: seq<SolvedNode>, k: nat, t: real) {
    && k + 1 < |curve| && curve[k].time + TIME_TOLERANCE < t <= curve[k + 1].time
    && (k + 2 == |curve| ==> t == curve[k + 1].time || t + TIME_TOLERANCE < curve[k + 1].time)
  }

  /** Between two neighbouring nodes the curve is the straight line through them. */
  lemma SegmentIsLine(curve: seq<SolvedNode>, k: nat, t: real)
    requires Spaced(curve) && InsideSegment(curve, k, t)
    ensures OnLine(ZeroAt(curve, t), curve[k], curve[k + 1], t)
  {
    hide Between, OnLine;
    if t == curve[k + 1].time {
      ZeroAtNode(curve, k + 1);
      LineAtEnd(curve[k], curve[k + 1]);
    } else {
      SegmentFound(curve, 0, k, t);
      assert curve[0].time <= curve[k].time;
      assert k + 2 < |curve| ==> curve[k + 1].time + TIME_TOLERANCE < curve[|curve| - 1].time;
      BetweenIsLine(curve[k], curve[k + 1], t);
    }
  }

  lemma LineAtEnd(a: SolvedNode, b: SolvedNode)
    ensures OnLine(b.zero, a, b, b.time)
  {
  }

  lemma BetweenIsLine(a: SolvedNode, b: SolvedNode, t: real)
    requires a.time < b.time
    ensures OnLine(Between(a, b, t), a, b, t)
  {
    var width, rise := b.time - a.time, b.zero - a.zero;
    var weight := (t - a.time) / width;
    assert weight * width == t - a.time;
    assert Mul(width, a.zero + weight * rise) == Mul(width, a.zero) + Mul(weight * width, rise);
    assert Mul(weight * width, rise) == Mul(t - a.time, rise);
  }

  /** Before the first node, and from the last node's tolerance on, the curve is flat. */
  lemma FlatAtEnds(curve: seq<SolvedNode>, t: real)
    requires Spaced(curve) && |curve| > 0
    ensures t <= curve[0].time ==> ZeroAt(curve, t) == curve[0].zero
    ensures t >= curve[|curve| - 1].time ==> ZeroAt(curve, t) == curve[|curve| - 1].zero
  {
  }

  /** So the rate at the middle of two dates in one segment is the mean of their rates. */
  lemma MiddleIsMean(curve: seq<SolvedNode>, k: nat, s: real, t: real)
    requires Spaced(curve) && InsideSegment(curve, k, s) && InsideSegment(curve, k, t) && InsideSegment(curve, k, 0.5 * (s + t))
    ensures ZeroAt(curve, 0.5 * (s + t)) == 0.5 * (ZeroAt(curve, s) + ZeroAt(curve, t))
  {
    hide ZeroAt, Spaced;
    var m, a, b := 0.5 * (s + t), curve[k], curve[k + 1];
    SegmentIsLine(curve, k, s);
    SegmentIsLine(curve, k, t);
    SegmentIsLine(curve, k, m);
    OnLineMiddle(a, b, s, t, ZeroAt(curve, s), ZeroAt(curve, t), ZeroAt(curve, m));
  }

  lemma OnLineMiddle(a: SolvedNode, b: SolvedNode, s: real, t: real, atS: real, atT: real, atM: real)
    requires a.time < b.time && OnLine(atS, a, b, s) && OnLine(atT, a, b, t) && OnLine(atM, a, b, 0.5 * (s + t))
    ensures atM == 0.5 * (atS + atT)
  {
    var width := b.time - a.time;
    assert Mul(width, atM - 0.5 * (atS + atT)) == 0.0;
    assert Product(width, atM - 0.5 * (atS + atT)) == 0.0;
  }

  /** The finished curve's lookup is that line. */
  lemma CurveIsLine(pillars: seq<CurvePoint>, k: nat, t: real)
    requires Spaced(Nodes(pillars)) && InsideSegment(Nodes(pillars), k, t)
    ensures OnLine(CurveZero(pillars, t), Nodes(pillars)[k], Nodes(pillars)[k + 1], t)
  {
    hide ZeroAt, OnLine;
    CurveInOrder(Nodes(pillars));
    SegmentIsLine(Nodes(pillars), k, t);
  }
}
