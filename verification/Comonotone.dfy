/** Samples that rise and fall together: exactly those whose quantiles add up at every level. */
module Comonotone {
  import opened Reals
  import opened Sums
  import opened Sorting
  import opened OrderStatistics

  /** A quantity by path, and its values along a list of paths. */
  type Quantity = int -> real

  function Along(f: Quantity, paths: seq<int>): (s: seq<real>)
    ensures |s| == |paths|
  {
    seq(|paths|, i requires 0 <= i < |paths| => f(paths[i]))
  }

  /** The total of the first `count` quantities on a path. */
  function Total(x: (int, int) -> real, count: nat): Quantity {
    p => Sum(On(x, p), count)
  }

  /** Every quantity on one path. */
  function On(x: (int, int) -> real, p: int): Vec {
    l => x(l, p)
  }

  function Part(x: (int, int) -> real, l: int): Quantity {
    p => x(l, p)
  }

  /** No quantity rises from one path to another where another one falls. */
  ghost predicate Alike(x: (int, int) -> real, count: nat, paths: seq<int>) {
    forall l, m, p, q :: 0 <= l < count && 0 <= m < count && p in paths && q in paths && x(l, p) < x(l, q) ==>
      x(m, p) <= x(m, q)
  }

  // ---- Sorting a quantity by another ----

  lemma {:induction false} InsertAlong(key: Quantity, f: Quantity, p: int, paths: seq<int>)
    ensures multiset(Along(f, Insert(key, p, paths))) == multiset(Along(f, paths)) + multiset{f(p)}
  {
    if paths == [] {
      assert Along(f, [p]) == [f(p)];
      assert Along(f, []) == [];
    } else if key(p) <= key(paths[0]) {
      assert Along(f, [p] + paths) == [f(p)] + Along(f, paths);
    } else {
      InsertAlong(key, f, p, paths[1..]);
      var rest := Insert(key, p, paths[1..]);
      assert Along(f, [paths[0]] + rest) == [f(paths[0])] + Along(f, rest);
      assert Along(f, paths) == [f(paths[0])] + Along(f, paths[1..]);
    }
  }

  lemma {:induction false} SortAlong(key: Quantity, f: Quantity, paths: seq<int>)
    ensures multiset(Along(f, SortBy(key, paths))) == multiset(Along(f, paths))
  {
    if paths != [] {
      SortAlong(key, f, paths[1..]);
      InsertAlong(key, f, paths[0], SortBy(key, paths[1..]));
      assert Along(f, paths) == [f(paths[0])] + Along(f, paths[1..]);
    }
  }

  /** A quantity that ascends along the paths sorted by another is sorted there. */
  lemma SortedAlong(key: Quantity, f: Quantity, paths: seq<int>)
    requires Ascending(f, SortBy(key, paths))
    ensures Sorted(Along(f, paths)) == Along(f, SortBy(key, paths))
  {
    var there := Along(f, SortBy(key, paths));
    SortAlong(key, f, paths);
    SortSorts(Value, Along(f, paths));
    assert Ascending(Value, there);
    AscendingUnique(Value, Sorted(Along(f, paths)), there);
  }

  /** A sum of terms that are each at least another's, and one of them more, is more. */
  lemma SumStrict(f: Vec, g: Vec, l: int, n: nat)
    requires 0 <= l < n && f(l) < g(l) && forall k :: 0 <= k < n ==> f(k) <= g(k)
    ensures Sum(f, n) < Sum(g, n)
  {
    hide Sum;
    var d := k => g(k) - f(k);
    SumCombines(d, 1.0, g, -1.0, f, n);
    SumAtLeastTerm(d, l, n);
  }

  lemma PartsAscend(x: (int, int) -> real, count: nat, paths: seq<int>, l: int)
    requires Alike(x, count, paths) && 0 <= l < count
    ensures Ascending(Part(x, l), SortBy(Total(x, count), paths))
  {
    hide Sum, SortBy;
    var key := Total(x, count);
    SortSorts(key, paths);
    var there := SortBy(key, paths);
    forall i, j | 0 <= i < j < |there| ensures Part(x, l)(there[i]) <= Part(x, l)(there[j]) {
      var p, q := there[i], there[j];
      assert p in multiset(there) && q in multiset(there);
      assert p in paths && q in paths;
      assert key(p) <= key(q);
      if x(l, p) > x(l, q) {
        SumStrict(On(x, q), On(x, p), l, count);
      }
    }
  }

  // ---- Alike quantities have additive quantiles ----

  function Quantiles(x: (int, int) -> real, count: nat, paths: seq<int>, q: real): real {
    Sum(Levels(x, paths, q), count)
  }

  function Levels(x: (int, int) -> real, paths: seq<int>, q: real): Vec {
    l => Quantile(Along(Part(x, l), paths), q)
  }

  function Weight(position: real): real {
    if position.Floor == Ceiling(position) then 0.0 else position - position.Floor as real
  }

  /** Where a quantity ascends along sorted paths, its quantile is read there. */
  lemma AlongQuantile(key: Quantity, f: Quantity, paths: seq<int>, q: real)
    requires |paths| > 1 && Ascending(f, SortBy(key, paths))
    ensures Quantile(Along(f, paths), q) == AtPosition(Along(f, SortBy(key, paths)), Position(|paths|, q))
  {
    hide Position, Sorted, SortBy, AtPosition;
    SortedAlong(key, f, paths);
  }

  lemma Blends(s: seq<real>, position: real)
    requires 0.0 <= position <= (|s| - 1) as real
    ensures 0 <= position.Floor <= Ceiling(position) < |s|
    ensures AtPosition(s, position)
         == (1.0 - Weight(position)) * s[position.Floor] + Weight(position) * s[Ceiling(position)]
  {
    Blended(s[position.Floor], s[Ceiling(position)], Weight(position));
  }

  lemma AlikeAdds(x: (int, int) -> real, count: nat, paths: seq<int>, q: real)
    requires Alike(x, count, paths)
    ensures Quantile(Along(Total(x, count), paths), q) == Quantiles(x, count, paths, q)
  {
    hide Sum, Sorted, Alike, Position;
    if paths == [] {
      SumConstant(Levels(x, paths, q), 0.0, count);
    } else if |paths| == 1 {
      SumCongruent(On(x, paths[0]), Levels(x, paths, q), count);
    } else {
      AlikeAddsMany(x, count, paths, q);
    }
  }

  lemma AlikeAddsMany(x: (int, int) -> real, count: nat, paths: seq<int>, q: real)
    requires Alike(x, count, paths) && |paths| > 1
    ensures Quantile(Along(Total(x, count), paths), q) == Quantiles(x, count, paths, q)
  {
    hide Sum, Position, Sorted, Alike, SortBy, Quantile;
    var key := Total(x, count);
    var there, position := SortBy(key, paths), Position(|paths|, q);
    SortSorts(key, paths);
    AlongQuantile(key, key, paths, q);
    Blends(Along(key, there), position);
    hide AtPosition, Ceiling, Weight;
    var low, high, weight := On(x, there[position.Floor]), On(x, there[Ceiling(position)]), Weight(position);
    forall l | 0 <= l < count ensures Levels(x, paths, q)(l) == (1.0 - weight) * low(l) + weight * high(l) {
      PartsAscend(x, count, paths, l);
      AlongQuantile(key, Part(x, l), paths, q);
      Blends(Along(Part(x, l), there), position);
    }
    SumCombines(Levels(x, paths, q), 1.0 - weight, low, weight, high, count);
  }

  lemma Blended(a: real, b: real, weight: real)
    ensures (1.0 - weight) * a + weight * b == a * (1.0 - weight) + b * weight
  {
  }

  // ---- And only they have ----

  /** Order statistics are quantiles. */
  lemma RankIsQuantile(s: seq<real>, k: nat)
    requires k < |s|
    ensures exists q :: Quantile(s, q) == Sorted(s)[k] && forall t: seq<real> :: |t| == |s| ==> Quantile(t, q) == Sorted(t)[k]
  {
    hide Sorted;
    var n := |s|;
    var q := if n == 1 then 0.0 else k as real / (n - 1) as real;
    forall t: seq<real> | |t| == n ensures Quantile(t, q) == Sorted(t)[k] {
      if n == 1 {
        SingleSorted(t);
      } else {
        RankLevel(k, n);
        assert Position(n, q) == k as real;
      }
    }
  }

  lemma SingleSorted(t: seq<real>)
    requires |t| == 1
    ensures Sorted(t) == t
  {
    SortedIsFixed(Value, t);
  }

  lemma RankLevel(k: nat, n: nat)
    requires k < n && n > 1
    ensures var q := k as real / (n - 1) as real; 0.0 <= q <= 1.0 && Mul(q, (n - 1) as real) == k as real
  {
    var q, top := k as real / (n - 1) as real, (n - 1) as real;
    assert q * top == k as real;
    assert Product(q, top) == q * top && Product(1.0 - q, top) == top - q * top;
  }

  /** The order statistics of the total are the totals of the order statistics. */
  ghost predicate RanksAdd(x: (int, int) -> real, count: nat, paths: seq<int>) {
    forall k :: 0 <= k < |paths| ==> RankAdds(x, count, paths, k)
  }

  ghost predicate RankAdds(x: (int, int) -> real, count: nat, paths: seq<int>, k: int)
    requires 0 <= k < |paths|
  {
    Sorted(Along(Total(x, count), paths))[k] == Sum(Ranked(x, paths, k), count)
  }

  /** Every quantity's value of one rank. */
  function Ranked(x: (int, int) -> real, paths: seq<int>, k: int): Vec
    requires 0 <= k < |paths|
  {
    l => Sorted(Along(Part(x, l), paths))[k]
  }

  lemma QuantilesGiveRanks(x: (int, int) -> real, count: nat, paths: seq<int>)
    requires forall q :: Quantile(Along(Total(x, count), paths), q) == Quantiles(x, count, paths, q)
    ensures RanksAdd(x, count, paths)
  {
    hide Quantile, Sorted, Sum;
    forall k | 0 <= k < |paths| ensures RankAdds(x, count, paths, k) {
      var whole := Along(Total(x, count), paths);
      RankIsQuantile(whole, k);
      var q :| Quantile(whole, q) == Sorted(whole)[k]
        && forall t: seq<real> :: |t| == |whole| ==> Quantile(t, q) == Sorted(t)[k];
      SumCongruent(Levels(x, paths, q), Ranked(x, paths, k), count);
    }
  }

  /** Without a path that carries the largest value, the sorted sample just ends one earlier. */
  lemma WithoutTop(f: Quantity, paths: seq<int>, i: nat)
    requires i < |paths| && f(paths[i]) == Sorted(Along(f, paths))[|paths| - 1]
    ensures Sorted(Along(f, paths[..i] + paths[i + 1..])) == Sorted(Along(f, paths))[..|paths| - 1]
  {
    hide Sorted, Along;
    var s, rest := Along(f, paths), Along(f, paths[..i] + paths[i + 1..]);
    AlongWithout(f, paths, i);
    var top := |paths| - 1;
    SortSorts(Value, s);
    SortSorts(Value, rest);
    var sorted := Sorted(s);
    SortedIs(s);
    SortedIs(rest);
    SameLeft(s, i, sorted, top);
    assert sorted[..top] + sorted[top + 1..] == sorted[..top];
    AscendingUnique(Value, sorted[..top], Sorted(rest));
  }

  lemma AlongWithout(f: Quantity, paths: seq<int>, i: nat)
    requires i < |paths|
    ensures |Along(f, paths)| == |paths| && Along(f, paths)[i] == f(paths[i])
    ensures Along(f, paths[..i] + paths[i + 1..]) == Along(f, paths)[..i] + Along(f, paths)[i + 1..]
  {
  }

  /** Two arrangements of the same elements, each without the same element, are arrangements of the same elements. */
  lemma SameLeft(s: seq<real>, i: nat, t: seq<real>, j: nat)
    requires multiset(s) == multiset(t) && i < |s| && j < |t| && s[i] == t[j]
    ensures multiset(s[..i] + s[i + 1..]) == multiset(t[..j] + t[j + 1..])
  {
    assert s == s[..i] + [s[i]] + s[i + 1..];
    assert t == t[..j] + [t[j]] + t[j + 1..];
    assert multiset(s[..i] + s[i + 1..]) == multiset(s) - multiset{s[i]};
    assert multiset(t[..j] + t[j + 1..]) == multiset(t) - multiset{t[j]};
  }

  lemma SortedIs(s: seq<real>)
    ensures Sorted(s) == SortBy(Value, s)
  {
  }

  /** Some path carries the largest value of the total, and every other path carries at most that. */
  lemma TopExists(f: Quantity, paths: seq<int>) returns (i: nat)
    requires paths != []
    ensures i < |paths| && f(paths[i]) == Sorted(Along(f, paths))[|paths| - 1]
  {
    hide Sorted;
    var s := Along(f, paths);
    SortedIs(s);
    SortSorts(Value, s);
    assert Sorted(s)[|s| - 1] in multiset(Sorted(s));
    i :| 0 <= i < |s| && s[i] == Sorted(s)[|s| - 1];
  }

  lemma BelowTop(f: Quantity, paths: seq<int>, p: int)
    requires p in paths
    ensures f(p) <= Sorted(Along(f, paths))[|paths| - 1]
  {
    hide Sorted;
    var s := Along(f, paths);
    SortedIs(s);
    SortSorts(Value, s);
    var i :| 0 <= i < |paths| && paths[i] == p;
    assert s[i] in multiset(Sorted(s));
    var j :| 0 <= j < |s| && Sorted(s)[j] == s[i];
    assert Value(Sorted(s)[j]) <= Value(Sorted(s)[|s| - 1]);
  }

  /** Where the top rank adds up, one path carries the largest value of every quantity. */
  lemma CommonTop(x: (int, int) -> real, count: nat, paths: seq<int>) returns (i: nat)
    requires paths != [] && RankAdds(x, count, paths, |paths| - 1)
    ensures i < |paths| && Total(x, count)(paths[i]) == Sorted(Along(Total(x, count), paths))[|paths| - 1]
    ensures forall l :: 0 <= l < count ==> x(l, paths[i]) == Sorted(Along(Part(x, l), paths))[|paths| - 1]
  {
    hide Sorted, Sum;
    i := TopExists(Total(x, count), paths);
    var p, top := paths[i], |paths| - 1;
    var here, best := On(x, p), Ranked(x, paths, top);
    forall l | 0 <= l < count ensures here(l) <= best(l) {
      BelowTop(Part(x, l), paths, p);
    }
    forall l | 0 <= l < count ensures x(l, paths[i]) == Sorted(Along(Part(x, l), paths))[|paths| - 1] {
      assert here(l) == x(l, p) && best(l) == Sorted(Along(Part(x, l), paths))[top];
      if here(l) < best(l) {
        SumStrict(here, best, l, count);
      }
    }
  }

  lemma {:induction false} RanksMakeAlike(x: (int, int) -> real, count: nat, paths: seq<int>)
    requires RanksAdd(x, count, paths)
    ensures Alike(x, count, paths)
    decreases |paths|
  {
    hide Sorted, Sum, Alike;
    if paths == [] {
      NoneAlike(x, count);
    } else {
      assert RankAdds(x, count, paths, |paths| - 1);
      var i := CommonTop(x, count, paths);
      var rest := paths[..i] + paths[i + 1..];
      forall k | 0 <= k < |rest| ensures RankAdds(x, count, rest, k) {
        RankKept(x, count, paths, i, k);
      }
      RanksMakeAlike(x, count, rest);
      TopAlike(x, count, paths, i);
    }
  }

  lemma NoneAlike(x: (int, int) -> real, count: nat)
    ensures Alike(x, count, [])
  {
  }

  lemma RankKept(x: (int, int) -> real, count: nat, paths: seq<int>, i: nat, k: int)
    requires i < |paths| && 0 <= k < |paths| - 1 && RankAdds(x, count, paths, k)
    requires Total(x, count)(paths[i]) == Sorted(Along(Total(x, count), paths))[|paths| - 1]
    requires forall l :: 0 <= l < count ==> x(l, paths[i]) == Sorted(Along(Part(x, l), paths))[|paths| - 1]
    ensures RankAdds(x, count, paths[..i] + paths[i + 1..], k)
  {
    hide Sorted, Sum;
    var rest := paths[..i] + paths[i + 1..];
    WithoutTop(Total(x, count), paths, i);
    var f, g := Ranked(x, paths, k), Ranked(x, rest, k);
    forall l | 0 <= l < count ensures f(l) == g(l) {
      WithoutTop(Part(x, l), paths, i);
    }
    SumCongruent(f, g, count);
  }

  lemma TopAlike(x: (int, int) -> real, count: nat, paths: seq<int>, i: nat)
    requires i < |paths| && Alike(x, count, paths[..i] + paths[i + 1..])
    requires forall l :: 0 <= l < count ==> x(l, paths[i]) == Sorted(Along(Part(x, l), paths))[|paths| - 1]
    ensures Alike(x, count, paths)
  {
    hide Sorted;
    var rest := paths[..i] + paths[i + 1..];
    assert paths == paths[..i] + [paths[i]] + paths[i + 1..];
    forall l, m, p, q | 0 <= l < count && 0 <= m < count && p in paths && q in paths && x(l, p) < x(l, q)
      ensures x(m, p) <= x(m, q)
    {
      BelowTop(Part(x, l), paths, q);
      BelowTop(Part(x, m), paths, p);
      assert p == paths[i] || p in rest;
      assert q == paths[i] || q in rest;
    }
  }

  /** The quantiles of quantities add up to the quantile of their total, at every level, exactly when the quantities
      rise and fall together across the paths. */
  lemma QuantilesAdd(x: (int, int) -> real, count: nat, paths: seq<int>)
    ensures (forall q :: Quantile(Along(Total(x, count), paths), q) == Quantiles(x, count, paths, q))
       <==> Alike(x, count, paths)
  {
    hide Quantile, Alike, Quantiles, Total;
    if Alike(x, count, paths) {
      forall q ensures Quantile(Along(Total(x, count), paths), q) == Quantiles(x, count, paths, q) {
        AlikeAdds(x, count, paths, q);
      }
    }
    if forall q :: Quantile(Along(Total(x, count), paths), q) == Quantiles(x, count, paths, q) {
      QuantilesGiveRanks(x, count, paths);
      RanksMakeAlike(x, count, paths);
    }
  }
}
