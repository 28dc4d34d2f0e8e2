/** What the volatility surface promises: bounds, reproduction of its points, independence of their order. */
module VolSurfaceTheory {
  import opened Options
  import opened Reals
  import opened Sorting
  import opened VolSurface

  // ---- Bounds ----

  ghost predicate VolsWithin(points: seq<GridPoint>, low: real, high: real) {
    forall p :: p in points ==> low <= p.vol <= high
  }

  lemma ClampWithin(x: real, x0: real, y0: real, x1: real, y1: real, low: real, high: real)
    requires x0 <= x <= x1 && low <= y0 <= high && low <= y1 <= high
    ensures low <= LinearClamp(x, x0, y0, x1, y1) <= high
  {
    if Abs(x1 - x0) >= FLAT_EPSILON {
      var t := (x - x0) / (x1 - x0);
      assert Mul(t, x1 - x0) == x - x0;
      assert Product(t, x1 - x0) == x - x0;
      assert Product(1.0 - t, x1 - x0) == x1 - x;
      BlendWithin(t, y0, y1, low, high);
    }
  }

  lemma BlendWithin(t: real, y0: real, y1: real, low: real, high: real)
    requires 0.0 <= t <= 1.0 && low <= y0 <= high && low <= y1 <= high
    ensures low <= y0 + t * (y1 - y0) <= high
  {
    assert Product(1.0 - t, y0 - low) == y0 - low - t * y0 + t * low;
    assert Product(t, y1 - low) == t * y1 - t * low;
    assert Product(1.0 - t, high - y0) == high - y0 - t * high + t * y0;
    assert Product(t, high - y1) == t * high - t * y1;
    assert t * (y1 - y0) == t * y1 - t * y0;
  }

  lemma {:induction false} AlongWithin(sorted: seq<GridPoint>, i: nat, k: real, low: real, high: real)
    requires 0 < i <= |sorted| && sorted[i - 1].logMoneyness < k && VolsWithin(sorted, low, high)
    ensures low <= AlongSorted(sorted, i, k) <= high
    decreases |sorted| - i
  {
    hide LinearClamp;
    if i < |sorted| {
      if k <= sorted[i].logMoneyness {
        ClampWithin(k, sorted[i - 1].logMoneyness, sorted[i - 1].vol, sorted[i].logMoneyness, sorted[i].vol, low, high);
      } else {
        AlongWithin(sorted, i + 1, k, low, high);
      }
    }
  }

  lemma SliceWithin(slice: seq<GridPoint>, k: real, low: real, high: real)
    requires slice != [] && VolsWithin(slice, low, high)
    ensures low <= SliceVol(slice, k) <= high
  {
    hide AlongSorted;
    var sorted := SortBy(MoneynessOf, slice);
    SortSorts(MoneynessOf, slice);
    forall p | p in sorted ensures low <= p.vol <= high {
      assert p in multiset(slice);
    }
    if |slice| > 1 && sorted[0].logMoneyness < k {
      AlongWithin(sorted, 1, k, low, high);
    }
  }

  lemma AcrossWithin(tenors: seq<real>, slices: seq<real>, tau: real, low: real, high: real)
    requires |tenors| == |slices| > 0 && forall i :: 0 <= i < |slices| ==> low <= slices[i] <= high
    ensures low <= AcrossTenors(tenors, slices, tau) <= high
  {
    hide LinearClamp;
    var j := LowerBound(tenors, tau);
    if 0 < j < |tenors| {
      ClampWithin(tau, tenors[j - 1], slices[j - 1], tenors[j], slices[j], low, high);
    }
  }

  /** An interpolated volatility lies within the volatilities of the surface's points. */
  lemma SurfaceWithin(points: seq<GridPoint>, k: real, tau: real, low: real, high: real)
    requires points != [] && tau > 0.0 && VolsWithin(points, low, high)
    ensures SurfaceVol(points, k, tau).Some? && low <= SurfaceVol(points, k, tau).value <= high
  {
    hide SliceVol, AcrossTenors, Group;
    GroupSound(points);
    var buckets := Group(points);
    forall i | 0 <= i < |buckets| ensures low <= SliceVol(buckets[i].points, k) <= high {
      assert buckets[i] in buckets;
      SliceWithin(buckets[i].points, k, low, high);
    }
    AcrossWithin(Tenors(buckets), Slices(buckets, k), tau, low, high);
  }

  // ---- Clean surfaces ----

  ghost predicate TenorsClean(points: seq<GridPoint>) {
    forall p, q :: p in points && q in points ==> p.tau == q.tau || Abs(p.tau - q.tau) > TAU_EPSILON
  }

  /** Tenors are equal or further apart than the grouping tolerance, and within a tenor different points are
      at moneynesses far enough apart to have a slope. */
  ghost predicate Clean(points: seq<GridPoint>) {
    && TenorsClean(points)
    && forall p, q :: p in points && q in points && p.tau == q.tau && p != q ==>
         Abs(p.logMoneyness - q.logMoneyness) >= FLAT_EPSILON
  }

  /** The points of one tenor, in the order given. */
  function AtTenor(points: seq<GridPoint>, tau: real): seq<GridPoint> {
    if points == [] then []
    else
      var p := points[|points| - 1];
      AtTenor(points[..|points| - 1], tau) + if p.tau == tau then [p] else []
  }

  ghost predicate StrictlyAscending(s: seq<real>) {
    forall i, j :: 0 <= i < j < |s| ==> s[i] < s[j]
  }

  ghost predicate HasTenor(points: seq<GridPoint>, tau: real) {
    exists p :: p in points && p.tau == tau
  }

  /** On a clean surface the buckets are exactly the tenors, in order, each with its own points. */
  ghost predicate Grouped(buckets: seq<Bucket>, points: seq<GridPoint>) {
    && StrictlyAscending(Tenors(buckets))
    && (forall b :: b in buckets ==> b.points == AtTenor(points, b.tau) && HasTenor(points, b.tau))
    && (forall p :: p in points ==> p.tau in Tenors(buckets))
  }

  lemma StrictOrder(s: seq<real>, i: nat, j: nat)
    requires StrictlyAscending(s) && i < |s| && j < |s|
    ensures s[i] < s[j] <==> i < j
  {
  }

  lemma AtTenorGrows(points: seq<GridPoint>, p: GridPoint, tau: real)
    ensures AtTenor(points + [p], tau) == AtTenor(points, tau) + if p.tau == tau then [p] else []
  {
    assert (points + [p])[..|points|] == points;
  }

  lemma {:induction false} AtTenorEmpty(points: seq<GridPoint>, tau: real)
    requires !HasTenor(points, tau)
    ensures AtTenor(points, tau) == []
  {
    if points != [] {
      var shorter := points[..|points| - 1];
      assert points[|points| - 1] in points;
      assert forall p :: p in shorter ==> p in points;
      AtTenorEmpty(shorter, tau);
    }
  }

  /** Which bucket a new point of a clean surface finds: its own tenor's, if there is one. */
  lemma FindsOwnTenor(buckets: seq<Bucket>, points: seq<GridPoint>, p: GridPoint)
    requires Grouped(buckets, points) && TenorsClean(points + [p])
    ensures var i := FindBucket(buckets, p.tau, 0);
            if i < |buckets| then buckets[i].tau == p.tau else p.tau !in Tenors(buckets)
  {
    var i := FindBucket(buckets, p.tau, 0);
    if i < |buckets| {
      assert buckets[i] in buckets;
      var q :| q in points && q.tau == buckets[i].tau;
      assert q in points + [p] && p in points + [p];
    } else {
      NoMatch(buckets, p.tau, 0);
      forall j | 0 <= j < |buckets| ensures Tenors(buckets)[j] != p.tau {
        assert !Matches(buckets[j], p.tau);
      }
    }
  }

  lemma {:induction false} NoMatch(buckets: seq<Bucket>, tau: real, i: nat)
    requires i <= |buckets| && FindBucket(buckets, tau, i) == |buckets|
    ensures forall j :: i <= j < |buckets| ==> !Matches(buckets[j], tau)
    decreases |buckets| - i
  {
    if i < |buckets| {
      NoMatch(buckets, tau, i + 1);
    }
  }

  lemma JoinKeepsGrouped(buckets: seq<Bucket>, points: seq<GridPoint>, p: GridPoint, i: nat)
    requires Grouped(buckets, points) && i < |buckets| && buckets[i].tau == p.tau
    ensures Grouped(buckets[i := Bucket(buckets[i].tau, buckets[i].points + [p])], points + [p])
  {
    var after, grown := buckets[i := Bucket(buckets[i].tau, buckets[i].points + [p])], points + [p];
    assert Tenors(after) == Tenors(buckets);
    forall b | b in after ensures b.points == AtTenor(grown, b.tau) && HasTenor(grown, b.tau) {
      var j :| 0 <= j < |after| && after[j] == b;
      assert buckets[j] in buckets;
      AtTenorGrows(points, p, b.tau);
      assert j != i ==> Tenors(buckets)[j] != Tenors(buckets)[i];
      var q :| q in points && q.tau == buckets[j].tau;
      assert q in grown;
    }
    forall q | q in grown ensures q.tau in Tenors(after) {
      assert Tenors(buckets)[i] == p.tau;
    }
  }

  lemma OpenKeepsGrouped(buckets: seq<Bucket>, points: seq<GridPoint>, p: GridPoint)
    requires Grouped(buckets, points) && p.tau !in Tenors(buckets)
    ensures Grouped(Insert(TauOf, Bucket(p.tau, [p]), buckets), points + [p])
  {
    var own, grown := Bucket(p.tau, [p]), points + [p];
    var after := Insert(TauOf, own, buckets);
    InsertKeeps(TauOf, own, buckets);
    InsertStrict(own, buckets);
    forall q | q in points ensures q.tau != p.tau {
      assert q.tau in Tenors(buckets);
    }
    AtTenorEmpty(points, p.tau);
    forall b | b in after ensures b.points == AtTenor(grown, b.tau) && HasTenor(grown, b.tau) {
      assert b in multiset(after);
      AtTenorGrows(points, p, b.tau);
      if b != own {
        assert b in buckets;
        var q :| q in points && q.tau == b.tau;
        assert q in grown;
      } else {
        assert p in grown;
      }
    }
    forall q | q in grown ensures q.tau in Tenors(after) {
      if q in points {
        var j :| 0 <= j < |buckets| && Tenors(buckets)[j] == q.tau;
        TenorKept(buckets[j], after, buckets, own);
      } else {
        TenorKept(own, after, buckets, own);
      }
    }
  }

  lemma TenorKept(b: Bucket, after: seq<Bucket>, buckets: seq<Bucket>, own: Bucket)
    requires multiset(after) == multiset(buckets) + multiset{own} && (b in buckets || b == own)
    ensures b.tau in Tenors(after)
  {
    assert b in multiset(after);
    var j :| 0 <= j < |after| && after[j] == b;
    assert Tenors(after)[j] == b.tau;
  }

  lemma {:induction false} InsertStrict(b: Bucket, buckets: seq<Bucket>)
    requires StrictlyAscending(Tenors(buckets)) && b.tau !in Tenors(buckets)
    ensures StrictlyAscending(Tenors(Insert(TauOf, b, buckets)))
    ensures buckets != [] && b.tau > buckets[0].tau ==> Insert(TauOf, b, buckets)[0] == buckets[0]
  {
    if buckets != [] {
      assert Tenors(buckets)[0] == buckets[0].tau;
      var rest := buckets[1..];
      if b.tau < buckets[0].tau {
        assert Tenors([b] + buckets) == [b.tau] + Tenors(buckets);
        PrependStrict(b.tau, Tenors(buckets));
      } else {
        assert Tenors(rest) == Tenors(buckets)[1..];
        InsertStrict(b, rest);
        var tail := Insert(TauOf, b, rest);
        assert Tenors([buckets[0]] + tail) == [buckets[0].tau] + Tenors(tail);
        assert rest != [] ==> Tenors(buckets)[0] < Tenors(buckets)[1];
        PrependStrict(buckets[0].tau, Tenors(tail));
      }
    }
  }

  lemma PrependStrict(first: real, rest: seq<real>)
    requires StrictlyAscending(rest) && (rest != [] ==> first < rest[0])
    ensures StrictlyAscending([first] + rest)
  {
    var all := [first] + rest;
    forall i, j | 0 <= i < j < |all| ensures all[i] < all[j] {
      assert all[j] == rest[j - 1];
      if i > 0 {
        assert all[i] == rest[i - 1];
      }
    }
  }

  lemma {:induction false} GroupIsGrouped(points: seq<GridPoint>)
    requires TenorsClean(points)
    ensures Grouped(Group(points), points)
  {
    hide Grouped, FindBucket, TenorsClean;
    if points == [] {
      NothingGrouped();
    } else {
      var earlier, p := points[..|points| - 1], points[|points| - 1];
      assert points == earlier + [p];
      CleanShorter(points);
      GroupIsGrouped(earlier);
      FindsOwnTenor(Group(earlier), earlier, p);
      var i := FindBucket(Group(earlier), p.tau, 0);
      if i < |Group(earlier)| {
        JoinKeepsGrouped(Group(earlier), earlier, p, i);
      } else {
        OpenKeepsGrouped(Group(earlier), earlier, p);
      }
    }
  }

  lemma NothingGrouped()
    ensures Grouped([], [])
  {
  }

  lemma CleanShorter(points: seq<GridPoint>)
    requires points != [] && TenorsClean(points)
    ensures TenorsClean(points[..|points| - 1])
  {
  }

  // ---- Buckets of any points ----

  /** Every bucket keeps the tenor of its first point and holds only points within the tolerance of it. */
  ghost predicate Anchored(buckets: seq<Bucket>) {
    forall b :: b in buckets ==> b.points != [] && b.points[0].tau == b.tau && forall p :: p in b.points ==> Matches(b, p.tau)
  }

  /** No two buckets are within the tolerance of each other, and they stand in tenor order. */
  ghost predicate SpacedOut(buckets: seq<Bucket>) {
    StrictlyAscending(Tenors(buckets)) && forall i, j :: 0 <= i < j < |buckets| ==> !Matches(buckets[i], buckets[j].tau)
  }

  /** All the points of the buckets together. */
  function Contents(buckets: seq<Bucket>): multiset<GridPoint> {
    if buckets == [] then multiset{} else multiset(buckets[0].points) + Contents(buckets[1..])
  }

  /** Whatever the points, grouping loses none, and leaves buckets further apart than the tolerance, each around the tenor of
      its earliest point. */
  lemma {:induction false} GroupHolds(points: seq<GridPoint>)
    ensures Anchored(Group(points)) && SpacedOut(Group(points)) && Contents(Group(points)) == multiset(points)
  {
    if points == [] {
      assert SpacedOut([]);
    } else {
      hide Group, Anchored, SpacedOut, FindBucket, Matches;
      var earlier, p := points[..|points| - 1], points[|points| - 1];
      assert points == earlier + [p];
      GroupHolds(earlier);
      GroupsNext(points);
      var i := FindBucket(Group(earlier), p.tau, 0);
      if i < |Group(earlier)| {
        JoinHolds(Group(earlier), p, i);
      } else {
        OpenHolds(Group(earlier), p);
      }
    }
  }

  lemma MatchLaws(a: Bucket, b: Bucket)
    ensures Matches(a, a.tau) && (Matches(a, b.tau) <==> Matches(b, a.tau))
    ensures a.tau == b.tau ==> forall tau :: Matches(a, tau) <==> Matches(b, tau)
  {
  }

  lemma GroupsNext(points: seq<GridPoint>)
    requires points != []
    ensures Group(points) == Place(Group(points[..|points| - 1]), points[|points| - 1])
  {
  }

  lemma JoinHolds(buckets: seq<Bucket>, p: GridPoint, i: nat)
    requires i < |buckets| && Matches(buckets[i], p.tau) && Anchored(buckets) && SpacedOut(buckets)
    ensures var after := buckets[i := Bucket(buckets[i].tau, buckets[i].points + [p])];
            Anchored(after) && SpacedOut(after) && Contents(after) == Contents(buckets) + multiset{p}
  {
    hide Matches;
    var grown := Bucket(buckets[i].tau, buckets[i].points + [p]);
    var after := buckets[i := grown];
    MatchLaws(buckets[i], grown);
    forall b | b in after ensures b.points != [] && b.points[0].tau == b.tau && forall q :: q in b.points ==> Matches(b, q.tau) {
      assert buckets[i] in buckets;
      assert b in buckets || b == grown;
    }
    assert Tenors(after) == Tenors(buckets);
    ContentsJoin(buckets, p, i);
  }

  lemma {:induction false} ContentsJoin(buckets: seq<Bucket>, p: GridPoint, i: nat)
    requires i < |buckets|
    ensures Contents(buckets[i := Bucket(buckets[i].tau, buckets[i].points + [p])]) == Contents(buckets) + multiset{p}
  {
    var after := buckets[i := Bucket(buckets[i].tau, buckets[i].points + [p])];
    if i > 0 {
      ContentsJoin(buckets[1..], p, i - 1);
      assert after[1..] == buckets[1..][i - 1 := Bucket(buckets[i].tau, buckets[i].points + [p])];
    } else {
      assert after[1..] == buckets[1..];
    }
  }

  lemma OpenHolds(buckets: seq<Bucket>, p: GridPoint)
    requires FindBucket(buckets, p.tau, 0) == |buckets| && Anchored(buckets) && SpacedOut(buckets)
    ensures var after := Insert(TauOf, Bucket(p.tau, [p]), buckets);
            Anchored(after) && SpacedOut(after) && Contents(after) == Contents(buckets) + multiset{p}
  {
    hide Matches, FindBucket;
    var own := Bucket(p.tau, [p]);
    var after := Insert(TauOf, own, buckets);
    NoMatch(buckets, p.tau, 0);
    InsertKeeps(TauOf, own, buckets);
    MatchLaws(own, own);
    forall b | b in after ensures b in buckets || b == own {
      assert b in multiset(after);
    }
    assert Anchored(after);
    forall t | t in Tenors(buckets) ensures t != p.tau {
      var j :| 0 <= j < |buckets| && Tenors(buckets)[j] == t;
      MatchLaws(buckets[j], own);
    }
    InsertStrict(own, buckets);
    ContentsOpen(own, buckets);
    forall i, j | 0 <= i < j < |after| ensures !Matches(after[i], after[j].tau) {
      OpenSpaced(buckets, after, own, i, j);
    }
  }

  lemma {:induction false} ContentsOpen(own: Bucket, buckets: seq<Bucket>)
    ensures Contents(Insert(TauOf, own, buckets)) == Contents(buckets) + multiset(own.points)
  {
    if buckets != [] {
      if own.tau <= buckets[0].tau {
        assert ([own] + buckets)[1..] == buckets;
      } else {
        ContentsOpen(own, buckets[1..]);
        assert ([buckets[0]] + Insert(TauOf, own, buckets[1..]))[1..] == Insert(TauOf, own, buckets[1..]);
      }
    } else {
      assert [own][1..] == [];
    }
  }

  lemma OpenSpaced(buckets: seq<Bucket>, after: seq<Bucket>, own: Bucket, i: nat, j: nat)
    requires SpacedOut(buckets) && (forall h :: 0 <= h < |buckets| ==> !Matches(buckets[h], own.tau))
    requires i < j < |after| && StrictlyAscending(Tenors(after)) && forall b :: b in after ==> b in buckets || b == own
    ensures !Matches(after[i], after[j].tau)
  {
    hide Matches;
    var a, b := after[i], after[j];
    MatchLaws(a, b);
    assert a in after && b in after;
    assert Tenors(after)[i] < Tenors(after)[j];
    if a != own && b != own {
      var x :| 0 <= x < |buckets| && buckets[x] == a;
      var y :| 0 <= y < |buckets| && buckets[y] == b;
      StrictOrder(Tenors(buckets), x, y);
    }
  }

  // ---- Reproduction of the points ----

  lemma ClampAtEnd(x0: real, y0: real, x1: real, y1: real)
    requires x0 < x1
    ensures LinearClamp(x1, x0, y0, x1, y1) == y1 <==> x1 - x0 >= FLAT_EPSILON || y0 == y1
  {
    var width := x1 - x0;
    if width >= FLAT_EPSILON {
      var t := width / width;
      assert Mul(t, width) == width;
      assert Product(t - 1.0, width) == 0.0;
      assert t == 1.0;
    }
  }

  /** The search stops at the first point at or above the moneyness asked for. */
  lemma {:induction false} AlongStops(sorted: seq<GridPoint>, i: nat, j: nat, k: real)
    requires 0 < i <= j < |sorted| && k <= sorted[j].logMoneyness
    requires forall h :: i <= h < j ==> sorted[h].logMoneyness < k
    ensures AlongSorted(sorted, i, k)
         == LinearClamp(k, sorted[j - 1].logMoneyness, sorted[j - 1].vol, sorted[j].logMoneyness, sorted[j].vol)
    decreases j - i
  {
    hide LinearClamp;
    if i < j {
      AlongStops(sorted, i + 1, j, k);
    }
  }

  /** In a slice with distinct moneynesses, a point is reproduced exactly when it is at an end, is far enough
      from its left neighbour to have a slope, or has its neighbour's volatility. */
  lemma SliceReproduces(slice: seq<GridPoint>, j: nat)
    requires var sorted := SortBy(MoneynessOf, slice);
             j < |sorted| && forall a, b :: 0 <= a < b < |sorted| ==> sorted[a].logMoneyness < sorted[b].logMoneyness
    ensures var sorted := SortBy(MoneynessOf, slice);
            SliceVol(slice, sorted[j].logMoneyness) == sorted[j].vol
            <==> j == 0 || j == |sorted| - 1 || sorted[j - 1].vol == sorted[j].vol
                 || sorted[j].logMoneyness - sorted[j - 1].logMoneyness >= FLAT_EPSILON
  {
    hide LinearClamp, AlongSorted;
    var sorted := SortBy(MoneynessOf, slice);
    if 0 < j < |sorted| - 1 {
      AlongStops(sorted, 1, j, sorted[j].logMoneyness);
      ClampAtEnd(sorted[j - 1].logMoneyness, sorted[j - 1].vol, sorted[j].logMoneyness, sorted[j].vol);
    } else if |slice| == 1 {
      assert SortBy(MoneynessOf, slice[1..]) == [];
    }
  }

  ghost predicate Apart(slice: seq<GridPoint>) {
    forall p, q :: p in slice && q in slice && p != q ==> Abs(p.logMoneyness - q.logMoneyness) >= FLAT_EPSILON
  }

  /** A slice whose different points are far enough apart reproduces each of them. */
  lemma SliceExact(slice: seq<GridPoint>, p: GridPoint)
    requires p in slice && Apart(slice)
    ensures SliceVol(slice, p.logMoneyness) == p.vol
  {
    hide LinearClamp, AlongSorted, Apart, SortBy;
    var sorted, k := SortBy(MoneynessOf, slice), p.logMoneyness;
    SortedSlice(slice, p);
    if |slice| > 1 {
      if sorted[0].logMoneyness < k < sorted[|sorted| - 1].logMoneyness {
        var j := FirstAt(sorted, p);
        AlongStops(sorted, 1, j, k);
        ApartNeighbours(sorted, j);
        ClampAtEnd(sorted[j - 1].logMoneyness, sorted[j - 1].vol, k, p.vol);
      } else {
        EndsReproduce(sorted, p);
      }
    }
  }

  lemma SortedSlice(slice: seq<GridPoint>, p: GridPoint)
    requires p in slice && Apart(slice)
    ensures var sorted := SortBy(MoneynessOf, slice);
            Ascending(MoneynessOf, sorted) && Apart(sorted) && p in sorted
  {
    var sorted := SortBy(MoneynessOf, slice);
    SortSorts(MoneynessOf, slice);
    assert p in multiset(sorted);
    forall q | q in sorted ensures q in slice {
      assert q in multiset(slice);
    }
  }

  lemma ApartNeighbours(sorted: seq<GridPoint>, j: nat)
    requires Apart(sorted) && 0 < j < |sorted| && sorted[j - 1].logMoneyness < sorted[j].logMoneyness
    ensures sorted[j].logMoneyness - sorted[j - 1].logMoneyness >= FLAT_EPSILON
  {
    assert sorted[j - 1] in sorted && sorted[j] in sorted;
  }

  /** The first place of a point's moneyness in a sorted slice holds the point. */
  lemma FirstAt(sorted: seq<GridPoint>, p: GridPoint) returns (j: nat)
    requires Ascending(MoneynessOf, sorted) && p in sorted && Apart(sorted) && sorted[0].logMoneyness < p.logMoneyness
    ensures 0 < j < |sorted| && sorted[j] == p
    ensures forall h :: 0 <= h < j ==> sorted[h].logMoneyness < p.logMoneyness
  {
    var at :| 0 <= at < |sorted| && sorted[at] == p;
    j := 1;
    while sorted[j].logMoneyness < p.logMoneyness
      invariant 0 < j <= at
      invariant forall h :: 0 <= h < j ==> sorted[h].logMoneyness < p.logMoneyness
      decreases at - j
    {
      j := j + 1;
    }
    assert MoneynessOf(sorted[j]) <= MoneynessOf(sorted[at]);
    assert sorted[j] in sorted;
  }

  lemma EndsReproduce(sorted: seq<GridPoint>, p: GridPoint)
    requires Ascending(MoneynessOf, sorted) && p in sorted && Apart(sorted)
    ensures p.logMoneyness <= sorted[0].logMoneyness ==> sorted[0] == p
    ensures p.logMoneyness >= sorted[|sorted| - 1].logMoneyness ==> sorted[|sorted| - 1] == p
  {
    var at :| 0 <= at < |sorted| && sorted[at] == p;
    assert MoneynessOf(sorted[0]) <= MoneynessOf(sorted[at]) <= MoneynessOf(sorted[|sorted| - 1]);
    assert sorted[0] in sorted && sorted[|sorted| - 1] in sorted;
  }

  lemma {:induction false} LowerBoundAt(tenors: seq<real>, i: nat)
    requires StrictlyAscending(tenors) && i < |tenors|
    ensures LowerBound(tenors, tenors[i]) == i
  {
  }

  lemma {:induction false} AtTenorHolds(points: seq<GridPoint>, tau: real, p: GridPoint)
    ensures p in AtTenor(points, tau) <==> p in points && p.tau == tau
  {
    if points != [] {
      var shorter := points[..|points| - 1];
      AtTenorHolds(shorter, tau, p);
      assert points == shorter + [points[|points| - 1]];
    }
  }

  lemma TenorApart(points: seq<GridPoint>, tau: real)
    requires Clean(points)
    ensures Apart(AtTenor(points, tau))
  {
    forall p, q | p in AtTenor(points, tau) && q in AtTenor(points, tau) && p != q
      ensures Abs(p.logMoneyness - q.logMoneyness) >= FLAT_EPSILON
    {
      AtTenorHolds(points, tau, p);
      AtTenorHolds(points, tau, q);
    }
  }

  lemma AcrossAtTenor(tenors: seq<real>, slices: seq<real>, i: nat)
    requires |tenors| == |slices| && i < |tenors| && StrictlyAscending(tenors)
    requires i > 0 ==> tenors[i] - tenors[i - 1] >= FLAT_EPSILON
    ensures AcrossTenors(tenors, slices, tenors[i]) == slices[i]
  {
    hide LinearClamp;
    LowerBoundAt(tenors, i);
    if i > 0 {
      assert tenors[i - 1] < tenors[i];
      ClampAtEnd(tenors[i - 1], slices[i - 1], tenors[i], slices[i]);
    }
  }

  /** A clean surface reproduces every one of its points. */
  lemma SurfaceExact(points: seq<GridPoint>, p: GridPoint)
    requires Clean(points) && p in points && p.tau > 0.0
    ensures SurfaceVol(points, p.logMoneyness, p.tau) == Some(p.vol)
  {
    hide SliceVol, AcrossTenors, Group, AtTenor, Clean;
    GroupSound(points);
    CleanTenors(points);
    GroupIsGrouped(points);
    var buckets := Group(points);
    var tenors := Tenors(buckets);
    var i :| 0 <= i < |tenors| && tenors[i] == p.tau;
    assert buckets[i] in buckets;
    AtTenorHolds(points, p.tau, p);
    TenorApart(points, p.tau);
    SliceExact(buckets[i].points, p);
    if i > 0 {
      NeighboursApart(buckets, points, i);
    }
    AcrossAtTenor(tenors, Slices(buckets, p.logMoneyness), i);
  }

  lemma CleanTenors(points: seq<GridPoint>)
    requires Clean(points)
    ensures TenorsClean(points)
  {
  }

  lemma NeighboursApart(buckets: seq<Bucket>, points: seq<GridPoint>, i: nat)
    requires Grouped(buckets, points) && TenorsClean(points) && 0 < i < |buckets|
    ensures Tenors(buckets)[i] - Tenors(buckets)[i - 1] >= FLAT_EPSILON
  {
    assert buckets[i] in buckets && buckets[i - 1] in buckets;
    assert Tenors(buckets)[i - 1] < Tenors(buckets)[i];
    var p :| p in points && p.tau == buckets[i].tau;
    var q :| q in points && q.tau == buckets[i - 1].tau;
  }

  // ---- Order independence ----

  lemma {:induction false} AtTenorCounts(points: seq<GridPoint>, tau: real, p: GridPoint)
    ensures multiset(AtTenor(points, tau))[p] == if p.tau == tau then multiset(points)[p] else 0
  {
    if points != [] {
      var shorter := points[..|points| - 1];
      AtTenorCounts(shorter, tau, p);
      assert points == shorter + [points[|points| - 1]];
    }
  }

  lemma TenorPermuted(a: seq<GridPoint>, b: seq<GridPoint>, tau: real)
    requires multiset(a) == multiset(b)
    ensures multiset(AtTenor(a, tau)) == multiset(AtTenor(b, tau))
  {
    forall p ensures multiset(AtTenor(a, tau))[p] == multiset(AtTenor(b, tau))[p] {
      AtTenorCounts(a, tau, p);
      AtTenorCounts(b, tau, p);
    }
  }

  lemma SlicePermuted(a: seq<GridPoint>, b: seq<GridPoint>, k: real)
    requires a != [] && b != [] && multiset(a) == multiset(b) && KeysDistinct(MoneynessOf, a)
    ensures SliceVol(a, k) == SliceVol(b, k)
  {
    hide AlongSorted;
    assert |multiset(a)| == |a| && |multiset(b)| == |b|;
    assert a[0] in multiset(b);
    SortPermuted(MoneynessOf, a, b);
  }

  lemma SamePoints(a: seq<GridPoint>, b: seq<GridPoint>, p: GridPoint)
    requires multiset(a) == multiset(b)
    ensures p in a <==> p in b
  {
    assert p in multiset(a) <==> p in multiset(b);
  }

  lemma SomeMember(a: seq<real>, b: seq<real>)
    requires a != [] && forall t: real {:trigger t in a} {:trigger t in b} :: t in a ==> t in b
    ensures b != []
  {
    var first := a[0];
    assert first in a;
    assert first in b;
  }

  lemma {:induction false} StrictUnique(a: seq<real>, b: seq<real>)
    requires StrictlyAscending(a) && StrictlyAscending(b) && forall t :: t in a <==> t in b
    ensures a == b
  {
    if b != [] {
      SomeMember(b, a);
    }
    if a != [] {
      SomeMember(a, b);
      assert a[0] in a && b[0] in b;
      assert a[0] == b[0];
      forall t ensures t in a[1..] <==> t in b[1..] {
        assert t in a[1..] ==> t in a && t != a[0];
        assert t in b[1..] ==> t in b && t != b[0];
        assert t in a && t != a[0] ==> t in a[1..];
        assert t in b && t != b[0] ==> t in b[1..];
      }
      StrictUnique(a[1..], b[1..]);
      assert a == [a[0]] + a[1..] && b == [b[0]] + b[1..];
    }
  }

  lemma TenorsAre(points: seq<GridPoint>, t: real)
    requires TenorsClean(points)
    ensures t in Tenors(Group(points)) <==> HasTenor(points, t)
  {
    GroupIsGrouped(points);
    var buckets := Group(points);
    hide Group;
    if t in Tenors(buckets) {
      var i :| 0 <= i < |buckets| && Tenors(buckets)[i] == t;
      assert buckets[i] in buckets;
    }
  }

  /** Within a tenor, different points have different moneynesses, however close. */
  ghost predicate PointsTold(points: seq<GridPoint>) {
    forall p, q :: p in points && q in points && p.tau == q.tau && p != q ==> p.logMoneyness != q.logMoneyness
  }

  lemma TenorTold(points: seq<GridPoint>, tau: real)
    requires PointsTold(points)
    ensures KeysDistinct(MoneynessOf, AtTenor(points, tau))
  {
    forall p, q | p in AtTenor(points, tau) && q in AtTenor(points, tau) && MoneynessOf(p) == MoneynessOf(q)
      ensures p == q
    {
      AtTenorHolds(points, tau, p);
      AtTenorHolds(points, tau, q);
    }
  }

  /** When tenors are equal or clear of the tolerance and a tenor's points are told apart by their moneyness, the
      answer does not depend on the order of the points. */
  lemma SurfacePermuted(a: seq<GridPoint>, b: seq<GridPoint>, k: real, tau: real)
    requires TenorsClean(a) && PointsTold(a) && multiset(a) == multiset(b)
    ensures SurfaceVol(a, k, tau) == SurfaceVol(b, k, tau)
  {
    hide SliceVol, AcrossTenors, Group, AtTenor;
    assert |multiset(a)| == |a| && |multiset(b)| == |b|;
    forall p: GridPoint ensures p in a <==> p in b {
      SamePoints(a, b, p);
    }
    assert TenorsClean(b);
    hide TenorsClean, PointsTold;
    GroupIsGrouped(a);
    GroupIsGrouped(b);
    var left, right := Group(a), Group(b);
    forall t: real ensures t in Tenors(left) <==> t in Tenors(right) {
      TenorsAre(a, t);
      TenorsAre(b, t);
      assert HasTenor(a, t) <==> HasTenor(b, t);
    }
    StrictUnique(Tenors(left), Tenors(right));
    if a != [] {
      GroupSound(a);
      GroupSound(b);
      forall i | 0 <= i < |left| ensures SliceVol(left[i].points, k) == SliceVol(right[i].points, k) {
        assert left[i] in left && right[i] in right;
        assert Tenors(left)[i] == Tenors(right)[i];
        TenorPermuted(a, b, left[i].tau);
        TenorTold(a, left[i].tau);
        SlicePermuted(left[i].points, right[i].points, k);
      }
      assert Slices(left, k) == Slices(right, k);
    }
  }
}
