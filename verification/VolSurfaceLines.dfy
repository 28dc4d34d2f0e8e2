/** The volatility surface as lines: flat outside its points, straight between neighbouring moneynesses and tenors. */
module VolSurfaceLines {
  import opened Options
  import opened Reals
  import opened Sorting
  import opened VolSurface
  import opened VolSurfaceTheory

  /** The line through two points, in the form without division; points too close for a slope share their mean. */
  lemma ClampOnLine(x: real, x0: real, y0: real, x1: real, y1: real)
    requires x0 < x1
    ensures x1 - x0 >= FLAT_EPSILON ==> Mul(x1 - x0, LinearClamp(x, x0, y0, x1, y1)) == Mul(x1 - x, y0) + Mul(x - x0, y1)
    ensures x1 - x0 < FLAT_EPSILON ==> 2.0 * LinearClamp(x, x0, y0, x1, y1) == y0 + y1
  {
    var t, width := (x - x0) / (x1 - x0), x1 - x0;
    assert t * width == x - x0;
    LineSplits(t, x, x0, y0, x1, y1);
  }

  lemma LineSplits(t: real, x: real, x0: real, y0: real, x1: real, y1: real)
    requires t * (x1 - x0) == x - x0
    ensures Mul(x1 - x0, y0 + t * (y1 - y0)) == Mul(x1 - x, y0) + Mul(x - x0, y1)
  {
    assert Mul(t * (x1 - x0), y1 - y0) == Mul(x - x0, y1 - y0);
  }

  // ---- Along a slice ----

  /** Two points of a slice with none strictly between them. */
  ghost predicate Neighbours(slice: seq<GridPoint>, a: GridPoint, b: GridPoint) {
    && a in slice && b in slice && a.logMoneyness < b.logMoneyness
    && forall p :: p in slice ==> p.logMoneyness <= a.logMoneyness || p.logMoneyness >= b.logMoneyness
  }

  lemma SortedMembers(slice: seq<GridPoint>)
    ensures var sorted := SortBy(MoneynessOf, slice);
            |sorted| == |slice| && Ascending(MoneynessOf, sorted) && forall p :: p in sorted <==> p in slice
  {
    var sorted := SortBy(MoneynessOf, slice);
    SortSorts(MoneynessOf, slice);
    forall p: GridPoint ensures p in sorted <==> p in slice {
      SamePoints(sorted, slice, p);
    }
    assert |multiset(sorted)| == |sorted| && |multiset(slice)| == |slice|;
  }

  lemma InOrder(sorted: seq<GridPoint>, i: nat, j: nat)
    requires Ascending(MoneynessOf, sorted) && i < |sorted| && j < |sorted| && sorted[i].logMoneyness < sorted[j].logMoneyness
    ensures i < j
  {
    assert forall k :: 0 <= k < i ==> MoneynessOf(sorted[k]) <= MoneynessOf(sorted[i]);
  }

  lemma FirstNotBelow(sorted: seq<GridPoint>, k: real, right: nat) returns (j: nat)
    requires right < |sorted| && k <= sorted[right].logMoneyness
    ensures j <= right && k <= sorted[j].logMoneyness && forall h :: 0 <= h < j ==> sorted[h].logMoneyness < k
  {
    j := 0;
    while sorted[j].logMoneyness < k
      invariant 0 <= j <= right && forall h :: 0 <= h < j ==> sorted[h].logMoneyness < k
      decreases right - j
    {
      j := j + 1;
    }
  }

  /** Where the search for a moneyness between two neighbours stops. */
  lemma StopsBetween(sorted: seq<GridPoint>, a: GridPoint, b: GridPoint, k: real) returns (j: nat)
    requires Ascending(MoneynessOf, sorted) && KeysDistinct(MoneynessOf, sorted) && Neighbours(sorted, a, b)
    requires a.logMoneyness < k < b.logMoneyness
    ensures 0 < j < |sorted| && sorted[j - 1] == a && sorted[j] == b
    ensures sorted[0].logMoneyness < k < sorted[|sorted| - 1].logMoneyness
    ensures forall h :: 0 <= h < j ==> sorted[h].logMoneyness < k
  {
    var left :| 0 <= left < |sorted| && sorted[left] == a;
    var right :| 0 <= right < |sorted| && sorted[right] == b;
    j := FirstNotBelow(sorted, k, right);
    InOrder(sorted, left, j);
    assert MoneynessOf(sorted[left]) <= MoneynessOf(sorted[j - 1]) && MoneynessOf(sorted[j]) <= MoneynessOf(sorted[right]);
    assert sorted[j - 1] in sorted && sorted[j] in sorted;
    assert MoneynessOf(sorted[j - 1]) == MoneynessOf(a) && MoneynessOf(sorted[j]) == MoneynessOf(b);
    assert MoneynessOf(sorted[0]) <= MoneynessOf(sorted[left]) && MoneynessOf(sorted[right]) <= MoneynessOf(sorted[|sorted| - 1]);
  }

  /** Between two neighbouring points a slice is the straight line through them, or their mean when they are too close. */
  lemma SliceOnLine(slice: seq<GridPoint>, a: GridPoint, b: GridPoint, k: real)
    requires KeysDistinct(MoneynessOf, slice) && Neighbours(slice, a, b) && a.logMoneyness < k < b.logMoneyness
    ensures b.logMoneyness - a.logMoneyness >= FLAT_EPSILON ==>
              Mul(b.logMoneyness - a.logMoneyness, SliceVol(slice, k)) == Mul(b.logMoneyness - k, a.vol) + Mul(k - a.logMoneyness, b.vol)
    ensures b.logMoneyness - a.logMoneyness < FLAT_EPSILON ==> 2.0 * SliceVol(slice, k) == a.vol + b.vol
  {
    hide LinearClamp, AlongSorted, SortBy;
    var sorted := SortBy(MoneynessOf, slice);
    SortedMembers(slice);
    var j := StopsBetween(sorted, a, b, k);
    AlongStops(sorted, 1, j, k);
    ClampOnLine(k, a.logMoneyness, a.vol, b.logMoneyness, b.vol);
  }

  /** Outside its points a slice is flat. */
  lemma SliceFlat(slice: seq<GridPoint>, a: GridPoint, k: real)
    requires KeysDistinct(MoneynessOf, slice) && a in slice
    ensures k <= a.logMoneyness && (forall p :: p in slice ==> a.logMoneyness <= p.logMoneyness) ==> SliceVol(slice, k) == a.vol
    ensures a.logMoneyness <= k && (forall p :: p in slice ==> p.logMoneyness <= a.logMoneyness) ==> SliceVol(slice, k) == a.vol
  {
    hide LinearClamp, AlongSorted, SortBy;
    var sorted := SortBy(MoneynessOf, slice);
    SortedMembers(slice);
    var at :| 0 <= at < |sorted| && sorted[at] == a;
    assert MoneynessOf(sorted[0]) <= MoneynessOf(sorted[at]) <= MoneynessOf(sorted[|sorted| - 1]);
    assert sorted[0] in slice && sorted[|sorted| - 1] in slice;
    assert MoneynessOf(sorted[0]) == MoneynessOf(a) ==> sorted[0] == a;
    assert MoneynessOf(sorted[|sorted| - 1]) == MoneynessOf(a) ==> sorted[|sorted| - 1] == a;
    if |slice| > 1 && k > sorted[0].logMoneyness && k < sorted[|sorted| - 1].logMoneyness {
      assert !(forall p :: p in slice ==> a.logMoneyness <= p.logMoneyness && k <= a.logMoneyness);
    }
  }

  // ---- Across tenors ----

  /** Two tenors of a surface with none strictly between them. */
  ghost predicate NextTenors(points: seq<GridPoint>, t0: real, t1: real) {
    && HasTenor(points, t0) && HasTenor(points, t1) && t0 < t1
    && forall p :: p in points ==> p.tau <= t0 || p.tau >= t1
  }

  lemma NothingTimes(y: real)
    ensures Mul(0.0, y) == 0.0
  {
  }

  lemma AcrossOnLine(tenors: seq<real>, slices: seq<real>, i: nat, tau: real)
    requires |tenors| == |slices| && 0 < i < |tenors| && StrictlyAscending(tenors) && tenors[i - 1] <= tau <= tenors[i]
    requires forall h :: 0 < h < |tenors| ==> tenors[h] - tenors[h - 1] >= FLAT_EPSILON
    ensures Mul(tenors[i] - tenors[i - 1], AcrossTenors(tenors, slices, tau))
         == Mul(tenors[i] - tau, slices[i - 1]) + Mul(tau - tenors[i - 1], slices[i])
  {
    hide LinearClamp, Mul;
    if tau == tenors[i - 1] {
      AcrossAtTenor(tenors, slices, i - 1);
      NothingTimes(slices[i]);
    } else {
      var j := LowerBound(tenors, tau);
      assert j <= i;
      StrictOrder(tenors, i - 1, j);
      ClampOnLine(tau, tenors[i - 1], slices[i - 1], tenors[i], slices[i]);
    }
  }

  lemma AcrossFlat(tenors: seq<real>, slices: seq<real>, tau: real)
    requires |tenors| == |slices| > 0 && StrictlyAscending(tenors)
    requires forall h :: 0 < h < |tenors| ==> tenors[h] - tenors[h - 1] >= FLAT_EPSILON
    ensures tau <= tenors[0] ==> AcrossTenors(tenors, slices, tau) == slices[0]
    ensures tau >= tenors[|tenors| - 1] ==> AcrossTenors(tenors, slices, tau) == slices[|tenors| - 1]
  {
    hide LinearClamp;
    var last := |tenors| - 1;
    if tau == tenors[last] {
      AcrossAtTenor(tenors, slices, last);
    }
    assert forall h :: 0 <= h <= last ==> tenors[h] <= tenors[last];
  }

  /** The buckets of a surface with clean tenors: each tenor's slice stands where its tenor does. */
  lemma BucketAt(points: seq<GridPoint>, t: real) returns (i: nat)
    requires TenorsClean(points) && HasTenor(points, t)
    ensures i < |Group(points)| && Tenors(Group(points))[i] == t && Group(points)[i].points == AtTenor(points, t)
    ensures AtTenor(points, t) != []
    ensures Grouped(Group(points), points)
  {
    hide Group, AtTenor;
    GroupIsGrouped(points);
    GroupSound(points);
    var p :| p in points && p.tau == t;
    i :| 0 <= i < |Tenors(Group(points))| && Tenors(Group(points))[i] == t;
    assert Group(points)[i] in Group(points);
  }

  lemma AllApart(points: seq<GridPoint>)
    requires TenorsClean(points) && Grouped(Group(points), points)
    ensures var tenors := Tenors(Group(points));
            StrictlyAscending(tenors) && forall h :: 0 < h < |tenors| ==> tenors[h] - tenors[h - 1] >= FLAT_EPSILON
  {
    hide Group;
    var buckets := Group(points);
    forall h | 0 < h < |buckets| ensures Tenors(buckets)[h] - Tenors(buckets)[h - 1] >= FLAT_EPSILON {
      NeighboursApart(buckets, points, h);
    }
  }

  lemma TenorOf(points: seq<GridPoint>, h: nat)
    requires Grouped(Group(points), points) && h < |Group(points)|
    ensures HasTenor(points, Tenors(Group(points))[h])
  {
    hide Group;
    assert Group(points)[h] in Group(points);
  }

  lemma PreviousTenor(points: seq<GridPoint>, t0: real, t1: real, h: nat, i: nat)
    requires Grouped(Group(points), points) && NextTenors(points, t0, t1) && h < |Group(points)| && i < |Group(points)|
    requires Tenors(Group(points))[h] == t0 && Tenors(Group(points))[i] == t1
    ensures i == h + 1
  {
    hide Group;
    var tenors := Tenors(Group(points));
    StrictOrder(tenors, h, i);
    TenorOf(points, h + 1);
    StrictOrder(tenors, h, h + 1);
    StrictOrder(tenors, h + 1, i);
  }

  /** Between two neighbouring tenors the surface is the straight line between their slices, at every moneyness. */
  lemma SurfaceOnLine(points: seq<GridPoint>, t0: real, t1: real, k: real, tau: real)
    requires TenorsClean(points) && NextTenors(points, t0, t1) && t0 <= tau <= t1 && tau > 0.0
    ensures AtTenor(points, t0) != [] && AtTenor(points, t1) != [] && SurfaceVol(points, k, tau).Some?
    ensures Mul(t1 - t0, SurfaceVol(points, k, tau).value)
         == Mul(t1 - tau, SliceVol(AtTenor(points, t0), k)) + Mul(tau - t0, SliceVol(AtTenor(points, t1), k))
  {
    hide SliceVol, AcrossTenors, Group, AtTenor, TenorsClean, LinearClamp;
    var h := BucketAt(points, t0);
    var i := BucketAt(points, t1);
    PreviousTenor(points, t0, t1, h, i);
    AllApart(points);
    GroupSound(points);
    AcrossOnLine(Tenors(Group(points)), Slices(Group(points), k), i, tau);
  }

  /** Before its first tenor and after its last the surface is that tenor's slice. */
  lemma SurfaceFlat(points: seq<GridPoint>, t: real, k: real, tau: real)
    requires TenorsClean(points) && HasTenor(points, t) && tau > 0.0
    ensures AtTenor(points, t) != []
    ensures tau <= t && (forall p :: p in points ==> t <= p.tau) ==> SurfaceVol(points, k, tau) == Some(SliceVol(AtTenor(points, t), k))
    ensures t <= tau && (forall p :: p in points ==> p.tau <= t) ==> SurfaceVol(points, k, tau) == Some(SliceVol(AtTenor(points, t), k))
  {
    hide SliceVol, AcrossTenors, Group, AtTenor, TenorsClean;
    var i := BucketAt(points, t);
    var tenors, last := Tenors(Group(points)), |Group(points)| - 1;
    AllApart(points);
    GroupSound(points);
    TenorOf(points, 0);
    TenorOf(points, last);
    assert i > 0 ==> tenors[0] < tenors[i];
    assert i < last ==> tenors[i] < tenors[last];
    AcrossFlat(tenors, Slices(Group(points), k), tau);
  }
}
