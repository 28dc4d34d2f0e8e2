/** Volatility lookup on scattered points: tenor buckets, moneyness slices, linear in both directions. */
module VolSurface {
  import opened Options
  import opened Reals
  import opened Sorting

  datatype GridPoint = GridPoint(logMoneyness: real, tau: real, vol: real)

  datatype Bucket = Bucket(tau: real, points: seq<GridPoint>)

  const TAU_EPSILON := 0.00000001
  const FLAT_EPSILON := 0.00000000000001

  function MoneynessOf(p: GridPoint): real {
    p.logMoneyness
  }

  function TauOf(b: Bucket): real {
    b.tau
  }

  /** The line through two points, or their average when they are too close to have a slope. */
  function LinearClamp(x: real, x0: real, y0: real, x1: real, y1: real): real {
    if Abs(x1 - x0) < FLAT_EPSILON then 0.5 * (y0 + y1)
    else
      var t := (x - x0) / (x1 - x0);
      y0 + t * (y1 - y0)
  }

  // ---- Tenor buckets ----

  predicate Matches(b: Bucket, tau: real) {
    Abs(tau - b.tau) <= TAU_EPSILON
  }

  /** The first bucket a tenor belongs to, from `i` on. */
  function FindBucket(buckets: seq<Bucket>, tau: real, i: nat): (found: nat)
    requires i <= |buckets|
    ensures i <= found <= |buckets|
    ensures found < |buckets| ==> Matches(buckets[found], tau)
    decreases |buckets| - i
  {
    if i == |buckets| || Matches(buckets[i], tau) then i else FindBucket(buckets, tau, i + 1)
  }

  /** A point joins the first bucket within the tolerance, or opens its own in tenor order. */
  function Place(buckets: seq<Bucket>, p: GridPoint): seq<Bucket> {
    var i := FindBucket(buckets, p.tau, 0);
    if i < |buckets| then buckets[i := Bucket(buckets[i].tau, buckets[i].points + [p])]
    else Insert(TauOf, Bucket(p.tau, [p]), buckets)
  }

  function Group(points: seq<GridPoint>): seq<Bucket> {
    if points == [] then [] else Place(Group(points[..|points| - 1]), points[|points| - 1])
  }

  method GroupByTau(points: seq<GridPoint>) returns (buckets: seq<Bucket>)
    ensures buckets == Group(points)
  {
    hide Matches;
    buckets := [];
    for n := 0 to |points|
      invariant buckets == Group(points[..n])
    {
      var p := points[n];
      assert points[..n + 1][..n] == points[..n];
      var placed := false;
      var i := 0;
      while i < |buckets|
        invariant 0 <= i <= |buckets| && !placed
        invariant FindBucket(buckets, p.tau, 0) == FindBucket(buckets, p.tau, i)
      {
        if Matches(buckets[i], p.tau) {
          placed := true;
          break;
        }
        i := i + 1;
      }
      if placed {
        buckets := buckets[i := Bucket(buckets[i].tau, buckets[i].points + [p])];
      } else {
        buckets := Insert(TauOf, Bucket(p.tau, [p]), buckets);
      }
    }
    assert points[..|points|] == points;
  }

  // ---- Along one slice ----

  function AlongSorted(sorted: seq<GridPoint>, i: nat, k: real): real
    requires 0 < i <= |sorted|
    decreases |sorted| - i
  {
    if i == |sorted| then sorted[|sorted| - 1].vol
    else if k <= sorted[i].logMoneyness then
      LinearClamp(k, sorted[i - 1].logMoneyness, sorted[i - 1].vol, sorted[i].logMoneyness, sorted[i].vol)
    else AlongSorted(sorted, i + 1, k)
  }

  function SliceVol(slice: seq<GridPoint>, k: real): real
    requires slice != []
  {
    if |slice| == 1 then slice[0].vol
    else
      var sorted := SortBy(MoneynessOf, slice);
      if k <= sorted[0].logMoneyness then sorted[0].vol
      else if k >= sorted[|sorted| - 1].logMoneyness then sorted[|sorted| - 1].vol
      else AlongSorted(sorted, 1, k)
  }

  method InterpolateAlongLogMoneyness(slice: seq<GridPoint>, k: real) returns (vol: Option<real>)
    ensures vol == if slice == [] then None else Some(SliceVol(slice, k))
  {
    hide LinearClamp, SortBy;
    if |slice| == 0 {
      return None;
    }
    if |slice| == 1 {
      return Some(slice[0].vol);
    }
    var sorted := SortBy(MoneynessOf, slice);
    if k <= sorted[0].logMoneyness {
      return Some(sorted[0].vol);
    }
    if k >= sorted[|sorted| - 1].logMoneyness {
      return Some(sorted[|sorted| - 1].vol);
    }
    for i := 1 to |sorted|
      invariant SliceVol(slice, k) == AlongSorted(sorted, i, k)
    {
      var left, right := sorted[i - 1], sorted[i];
      if k <= right.logMoneyness {
        return Some(LinearClamp(k, left.logMoneyness, left.vol, right.logMoneyness, right.vol));
      }
    }
    return Some(sorted[|sorted| - 1].vol);
  }

  // ---- Across tenors ----

  /** The first tenor not below the one asked for. */
  function LowerBound(tenors: seq<real>, tau: real): (j: nat)
    ensures j <= |tenors|
    ensures forall i :: 0 <= i < j ==> tenors[i] < tau
    ensures j < |tenors| ==> tenors[j] >= tau
  {
    if tenors == [] || tenors[0] >= tau then 0
    else 1 + LowerBound(tenors[1..], tau)
  }

  function Tenors(buckets: seq<Bucket>): (tenors: seq<real>)
    ensures |tenors| == |buckets|
  {
    seq(|buckets|, i requires 0 <= i < |buckets| => buckets[i].tau)
  }

  /** The value across tenors, from the value of each tenor's slice. */
  function AcrossTenors(tenors: seq<real>, slices: seq<real>, tau: real): real
    requires |tenors| == |slices| > 0
  {
    if |tenors| == 1 then slices[0]
    else
      var j := LowerBound(tenors, tau);
      if j == |tenors| then slices[|slices| - 1]
      else if j == 0 then slices[0]
      else LinearClamp(tau, tenors[j - 1], slices[j - 1], tenors[j], slices[j])
  }

  function Slices(buckets: seq<Bucket>, k: real): (slices: seq<real>)
    requires forall b :: b in buckets ==> b.points != []
    ensures |slices| == |buckets|
  {
    seq(|buckets|, i requires 0 <= i < |buckets| => SliceVol(buckets[i].points, k))
  }

  function SurfaceVol(points: seq<GridPoint>, k: real, tau: real): Option<real> {
    if points == [] || tau <= 0.0 then None
    else
      GroupSound(points);
      var buckets := Group(points);
      Some(AcrossTenors(Tenors(buckets), Slices(buckets, k), tau))
  }

  method InterpolateImpliedVol(points: seq<GridPoint>, k: real, tau: real) returns (vol: Option<real>)
    ensures vol == SurfaceVol(points, k, tau)
  {
    if |points| == 0 {
      return None;
    }
    if tau <= 0.0 {
      return None;
    }
    hide SliceVol, LinearClamp, Group;
    GroupSound(points);
    var buckets := GroupByTau(points);
    if |buckets| == 1 {
      vol := InterpolateAlongLogMoneyness(buckets[0].points, k);
      return;
    }
    var upper := LowerBound(Tenors(buckets), tau);
    if upper == |buckets| {
      vol := InterpolateAlongLogMoneyness(buckets[|buckets| - 1].points, k);
      return;
    }
    if upper == 0 {
      vol := InterpolateAlongLogMoneyness(buckets[0].points, k);
      return;
    }
    var low := InterpolateAlongLogMoneyness(buckets[upper - 1].points, k);
    var high := InterpolateAlongLogMoneyness(buckets[upper].points, k);
    return Some(LinearClamp(tau, buckets[upper - 1].tau, low.value, buckets[upper].tau, high.value));
  }

  ghost predicate BucketsOf(buckets: seq<Bucket>, points: seq<GridPoint>) {
    forall b :: b in buckets ==> b.points != [] && forall p :: p in b.points ==> p in points
  }

  /** Buckets are never empty and hold only the surface's points; a surface with points has a bucket. */
  lemma {:induction false} GroupSound(points: seq<GridPoint>)
    ensures BucketsOf(Group(points), points)
    ensures points != [] ==> Group(points) != []
  {
    if points != [] {
      var earlier, p := points[..|points| - 1], points[|points| - 1];
      GroupSound(earlier);
      var before := Group(earlier);
      PlaceSound(before, p, earlier, points);
    }
  }

  lemma PlaceSound(buckets: seq<Bucket>, p: GridPoint, earlier: seq<GridPoint>, points: seq<GridPoint>)
    requires BucketsOf(buckets, earlier) && p in points && forall q :: q in earlier ==> q in points
    ensures BucketsOf(Place(buckets, p), points) && Place(buckets, p) != []
  {
    var i := FindBucket(buckets, p.tau, 0);
    var after := Place(buckets, p);
    if i == |buckets| {
      InsertKeeps(TauOf, Bucket(p.tau, [p]), buckets);
    }
    forall b | b in after ensures b.points != [] && forall q :: q in b.points ==> q in points {
      if i < |buckets| {
        assert buckets[i] in buckets;
        assert b in buckets || b == after[i];
      } else {
        assert b in multiset(after);
      }
    }
  }
}
