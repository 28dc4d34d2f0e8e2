/** Sorted samples, ranks and interpolated quantiles. */
module OrderStatistics {
  import opened Reals
  import opened Sorting

  function Value(x: real): real {
    x
  }

  /** The sample in increasing order. */
  function Sorted(s: seq<real>): (t: seq<real>)
    ensures |t| == |s|
  {
    SortBy(Value, s)
  }

  // ---- Ranks ----

  /** How many values are at most `t`. */
  function CountAtMost(s: seq<real>, t: real): nat {
    if s == [] then 0 else (if s[0] <= t then 1 else 0) + CountAtMost(s[1..], t)
  }

  lemma {:induction false} InsertCounts(x: real, s: seq<real>, t: real)
    ensures CountAtMost(Insert(Value, x, s), t) == (if x <= t then 1 else 0) + CountAtMost(s, t)
  {
    if s == [] {
      assert [x][1..] == [];
    } else if x <= s[0] {
      assert ([x] + s)[1..] == s;
    } else {
      InsertCounts(x, s[1..], t);
      assert ([s[0]] + Insert(Value, x, s[1..]))[1..] == Insert(Value, x, s[1..]);
    }
  }

  lemma {:induction false} SortedCounts(s: seq<real>, t: real)
    ensures CountAtMost(Sorted(s), t) == CountAtMost(s, t)
  {
    if s != [] {
      SortedCounts(s[1..], t);
      InsertCounts(s[0], Sorted(s[1..]), t);
    }
  }

  lemma {:induction false} NoneAtMost(s: seq<real>, t: real)
    requires forall i :: 0 <= i < |s| ==> s[i] > t
    ensures CountAtMost(s, t) == 0
  {
    if s != [] {
      NoneAtMost(s[1..], t);
    }
  }

  /** In a sorted sample, the value of rank `k` is at most `t` exactly when more than `k` values are. */
  lemma {:induction false} RankByCount(s: seq<real>, k: nat, t: real)
    requires Ascending(Value, s) && k < |s|
    ensures s[k] <= t <==> CountAtMost(s, t) > k
  {
    if s[0] > t {
      NoneAtMost(s, t);
    } else if k > 0 {
      RankByCount(s[1..], k - 1, t);
    }
  }

  lemma {:induction false} DominatedCounts(a: seq<real>, b: seq<real>, t: real)
    requires |a| == |b| && forall i :: 0 <= i < |a| ==> a[i] <= b[i]
    ensures CountAtMost(b, t) <= CountAtMost(a, t)
  {
    if a != [] {
      DominatedCounts(a[1..], b[1..], t);
    }
  }

  /** Lowering every path lowers every order statistic. */
  lemma SortedDominated(a: seq<real>, b: seq<real>, k: nat)
    requires |a| == |b| && k < |a| && forall i :: 0 <= i < |a| ==> a[i] <= b[i]
    ensures Sorted(a)[k] <= Sorted(b)[k]
  {
    var t := Sorted(b)[k];
    SortSorts(Value, a);
    SortSorts(Value, b);
    RankByCount(Sorted(b), k, t);
    SortedCounts(a, t);
    SortedCounts(b, t);
    DominatedCounts(a, b, t);
    RankByCount(Sorted(a), k, t);
  }

  /** The sorted sample does not depend on the order of the paths. */
  lemma SortedPermuted(a: seq<real>, b: seq<real>)
    requires multiset(a) == multiset(b)
    ensures Sorted(a) == Sorted(b)
  {
    SortPermuted(Value, a, b);
  }

  // ---- Quantiles ----

  function Clamp(q: real, low: real, high: real): real {
    if q < low then low else if q > high then high else q
  }

  function Ceiling(x: real): int {
    if x == x.Floor as real then x.Floor else x.Floor + 1
  }

  /** Linear interpolation between the two order statistics around a position. */
  function AtPosition(s: seq<real>, position: real): real
    requires 0.0 <= position <= (|s| - 1) as real
  {
    var lo, hi := position.Floor, Ceiling(position);
    if lo == hi then s[lo]
    else
      var weight := position - lo as real;
      s[lo] * (1.0 - weight) + s[hi] * weight
  }

  function Position(n: nat, q: real): (position: real)
    requires n > 0
    ensures 0.0 <= position <= (n - 1) as real
  {
    PositionInside(Clamp(q, 0.0, 1.0), (n - 1) as real);
    Mul(Clamp(q, 0.0, 1.0), (n - 1) as real)
  }

  lemma PositionInside(q: real, top: real)
    requires 0.0 <= q <= 1.0 && top >= 0.0
    ensures 0.0 <= Mul(q, top) <= top
  {
    ProductMonotone(q, 1.0, top);
    ProductNonNegative(q, top);
  }

  function Quantile(values: seq<real>, q: real): real {
    if values == [] then 0.0
    else if |values| == 1 then values[0]
    else AtPosition(Sorted(values), Position(|values|, q))
  }

  /** A quantile is one number for the whole sample, in whatever order its paths came. */
  lemma QuantilePermuted(a: seq<real>, b: seq<real>, q: real)
    requires multiset(a) == multiset(b)
    ensures Quantile(a, q) == Quantile(b, q)
  {
    hide AtPosition, Position;
    assert |multiset(a)| == |a| && |multiset(b)| == |b|;
    SortedPermuted(a, b);
    if |a| == 1 {
      assert a[0] in multiset(b);
    }
  }

  lemma Blend(a: real, b: real, weight: real)
    requires a <= b && 0.0 <= weight <= 1.0
    ensures a <= a * (1.0 - weight) + b * weight <= b
  {
    assert Product(b - a, weight) == a * (1.0 - weight) + b * weight - a;
    assert Product(b - a, 1.0 - weight) == b - (a * (1.0 - weight) + b * weight);
  }

  lemma BlendOrders(a: real, b: real, c: real, d: real, weight: real)
    requires a <= c && b <= d && 0.0 <= weight <= 1.0
    ensures a * (1.0 - weight) + b * weight <= c * (1.0 - weight) + d * weight
  {
    assert Product(c - a, 1.0 - weight) == c * (1.0 - weight) - a * (1.0 - weight);
    assert Product(d - b, weight) == d * weight - b * weight;
  }

  lemma BlendSteepens(a: real, b: real, low: real, high: real)
    requires a <= b && low <= high
    ensures a * (1.0 - low) + b * low <= a * (1.0 - high) + b * high
  {
    assert Product(b - a, high - low) == (a * (1.0 - high) + b * high) - (a * (1.0 - low) + b * low);
  }

  /** The interpolated value lies between the order statistics around it. */
  lemma PositionBetween(s: seq<real>, position: real)
    requires Ascending(Value, s) && 0.0 <= position <= (|s| - 1) as real
    ensures s[position.Floor] <= AtPosition(s, position) <= s[Ceiling(position)]
  {
    var lo := position.Floor;
    if lo != Ceiling(position) {
      Blend(s[lo], s[lo + 1], position - lo as real);
    }
  }

  lemma PositionMonotone(s: seq<real>, low: real, high: real)
    requires Ascending(Value, s) && 0.0 <= low <= high <= (|s| - 1) as real
    ensures AtPosition(s, low) <= AtPosition(s, high)
  {
    PositionBetween(s, low);
    PositionBetween(s, high);
    if low.Floor == high.Floor {
      var lo := low.Floor;
      if Ceiling(low) != lo && Ceiling(high) != lo {
        BlendSteepens(s[lo], s[lo + 1], low - lo as real, high - lo as real);
      }
    } else {
      assert Ceiling(low) <= high.Floor;
    }
  }

  /** A higher level never gives a lower quantile. */
  lemma QuantileMonotone(values: seq<real>, p: real, q: real)
    requires p <= q
    ensures Quantile(values, p) <= Quantile(values, q)
  {
    if |values| > 1 {
      SortSorts(Value, values);
      var top := (|values| - 1) as real;
      MulMonotone(Clamp(p, 0.0, 1.0), Clamp(q, 0.0, 1.0), top);
      hide Mul;
      assert Position(|values|, p) <= Position(|values|, q);
      hide AtPosition, Sorted, Position;
      PositionMonotone(Sorted(values), Position(|values|, p), Position(|values|, q));
    }
  }

  /** Raising every path never lowers a quantile. */
  lemma QuantileDominated(a: seq<real>, b: seq<real>, q: real)
    requires |a| == |b| && forall i :: 0 <= i < |a| ==> a[i] <= b[i]
    ensures Quantile(a, q) <= Quantile(b, q)
  {
    if |a| > 1 {
      var position := Position(|a|, q);
      var lo, hi := position.Floor, Ceiling(position);
      SortedDominated(a, b, lo);
      SortedDominated(a, b, hi);
      hide Sorted;
      if lo != hi {
        BlendOrders(Sorted(a)[lo], Sorted(a)[hi], Sorted(b)[lo], Sorted(b)[hi], position - lo as real);
      }
    }
  }

  lemma {:induction false} QuantileWithin(values: seq<real>, q: real, low: real, high: real)
    requires values != [] && forall i :: 0 <= i < |values| ==> low <= values[i] <= high
    ensures low <= Quantile(values, q) <= high
  {
    var n := |values|;
    var lows, highs := seq(n, i => low), seq(n, i => high);
    QuantileDominated(lows, values, q);
    QuantileDominated(values, highs, q);
    QuantileOfConstant(lows, q, low);
    QuantileOfConstant(highs, q, high);
  }

  lemma {:induction false} SortedConstant(values: seq<real>, c: real)
    requires forall i :: 0 <= i < |values| ==> values[i] == c
    ensures Sorted(values) == values
  {
    if values != [] {
      SortedConstant(values[1..], c);
    }
  }

  lemma QuantileOfConstant(values: seq<real>, q: real, c: real)
    requires values != [] && forall i :: 0 <= i < |values| ==> values[i] == c
    ensures Quantile(values, q) == c
  {
    SortedConstant(values, c);
    if |values| > 1 {
      PositionBetween(values, Position(|values|, q));
    }
  }

  /** Between two neighbouring levels the quantile runs on the line between their order statistics: with `n` values, level
      `k / (n - 1)` is the value of rank `k`. */
  lemma QuantileOnLine(values: seq<real>, q: real, k: nat, weight: real)
    requires k + 1 < |values| && 0.0 <= weight <= 1.0 && Mul(q, (|values| - 1) as real) == k as real + weight
    ensures Quantile(values, q) == Mul(1.0 - weight, Sorted(values)[k]) + Mul(weight, Sorted(values)[k + 1])
  {
    hide Sorted;
    var top := (|values| - 1) as real;
    assert Product(q, top) == Mul(q, top);
    assert Product(q - 1.0, top) == Mul(q, top) - top;
    assert Clamp(q, 0.0, 1.0) == q;
    OnSegment(Sorted(values), Position(|values|, q), k, weight);
  }

  lemma OnSegment(s: seq<real>, position: real, k: nat, weight: real)
    requires k + 1 < |s| && 0.0 <= weight <= 1.0 && position == k as real + weight
    ensures AtPosition(s, position) == Mul(1.0 - weight, s[k]) + Mul(weight, s[k + 1])
  {
    if weight < 1.0 {
      assert position.Floor == k;
    } else {
      assert position.Floor == k + 1;
    }
  }

  /** Levels outside the unit interval are the least and the greatest value. */
  lemma QuantileEnds(values: seq<real>, q: real)
    requires values != []
    ensures q <= 0.0 ==> Quantile(values, q) == Sorted(values)[0]
    ensures q >= 1.0 ==> Quantile(values, q) == Sorted(values)[|values| - 1]
  {
    if |values| == 1 {
      SortedConstant(values, values[0]);
    } else {
      TimesOne((|values| - 1) as real);
    }
  }
}
