/** The simulation's date grid: pillar dates inside the horizon, sorted and without repeats. */
module TimeGrid {
  import opened Options
  import opened Dates
  import opened Sorting
  import GbmEvolution

  datatype Pillar = Pillar(id: string, targetDte: int)

  datatype Conventions = Conventions(includeValuationDate: bool, clipToBookMaxExpiry: bool, minHorizonDays: int)

  datatype Config = Config(conventions: Conventions, pillars: seq<Pillar>)

  /** A grid date with its Act/365 year fraction from the valuation date. */
  datatype GridNode = GridNode(date: int, yearFraction: real, targetDte: int, pillar: string)

  datatype Candidate = Candidate(date: int, targetDte: int, pillar: string)

  const ASOF := "ASOF"
  const DATE_TOLERANCE := 0.0000000001

  function YearFraction(start: int, end: int): real {
    ((end - start) as real) / 365.0
  }

  function DateOf(c: Candidate): real {
    c.date as real
  }

  /** The largest pillar offset, and at least zero. */
  ghost predicate IsMaxDte(pillars: seq<Pillar>, most: int) {
    && most >= 0
    && (forall p :: p in pillars ==> p.targetDte <= most)
    && (most == 0 || exists p :: p in pillars && p.targetDte == most)
  }

  /** The later of the longest pillar and the minimum horizon, clipped to the book. */
  ghost predicate IsHorizon(config: Config, valuation: int, bookMaxExpiry: Option<int>, horizon: int) {
    exists most: int :: IsMaxDte(config.pillars, most) && horizon == Clipped(config, valuation, bookMaxExpiry, most)
  }

  function Clipped(config: Config, valuation: int, bookMaxExpiry: Option<int>, most: int): int {
    var plain := valuation + Later(most, config.conventions.minHorizonDays);
    if config.conventions.clipToBookMaxExpiry && bookMaxExpiry.Some? && bookMaxExpiry.value < plain
    then bookMaxExpiry.value else plain
  }

  method EffectiveHorizonEnd(config: Config, valuation: int, bookMaxExpiry: Option<int>) returns (horizon: int)
    ensures IsHorizon(config, valuation, bookMaxExpiry, horizon)
  {
    var maxDte := 0;
    for i := 0 to |config.pillars|
      invariant IsMaxDte(config.pillars[..i], maxDte)
    {
      var p := config.pillars[i];
      assert forall q :: q in config.pillars[..i + 1] <==> q in config.pillars[..i] || q == p;
      maxDte := Later(maxDte, p.targetDte);
    }
    assert config.pillars[..|config.pillars|] == config.pillars;
    assert IsMaxDte(config.pillars, maxDte);
    horizon := valuation + Later(maxDte, config.conventions.minHorizonDays);
    if config.conventions.clipToBookMaxExpiry && bookMaxExpiry.Some? {
      if bookMaxExpiry.value < horizon {
        horizon := bookMaxExpiry.value;
      }
    }
  }

  /** A pillar that belongs on the grid: not before valuation, nor past the book where the grid is clipped. */
  predicate Inside(config: Config, valuation: int, bookMaxExpiry: Option<int>, p: Pillar) {
    && p.targetDte >= 0
    && (config.conventions.clipToBookMaxExpiry && bookMaxExpiry.Some? ==> valuation + p.targetDte <= bookMaxExpiry.value)
  }

  /** The horizon keeps exactly the pillars inside: the minimum horizon never adds or drops one. */
  lemma HorizonKeeps(config: Config, valuation: int, bookMaxExpiry: Option<int>, p: Pillar, horizon: int)
    requires p in config.pillars && IsHorizon(config, valuation, bookMaxExpiry, horizon)
    ensures valuation <= valuation + p.targetDte <= horizon <==> Inside(config, valuation, bookMaxExpiry, p)
  {
  }

  ghost predicate SomeInside(config: Config, valuation: int, bookMaxExpiry: Option<int>) {
    exists p :: p in config.pillars && Inside(config, valuation, bookMaxExpiry, p)
  }

  /** The dates the grid must hold: every pillar inside, and the valuation date when asked for or when nothing
      else is left. */
  ghost predicate Wanted(config: Config, valuation: int, bookMaxExpiry: Option<int>, date: int) {
    || (exists p :: p in config.pillars && Inside(config, valuation, bookMaxExpiry, p) && valuation + p.targetDte == date)
    || (date == valuation && (config.conventions.includeValuationDate || !SomeInside(config, valuation, bookMaxExpiry)))
  }

  /** A label the grid may carry: a pillar inside, at its own date and offset, or the valuation date's own when that is
      asked for or nothing else is left. */
  ghost predicate Labelled(config: Config, valuation: int, bookMaxExpiry: Option<int>, c: Candidate) {
    || (exists p :: p in config.pillars && Inside(config, valuation, bookMaxExpiry, p)
                    && c == Candidate(valuation + p.targetDte, p.targetDte, p.id))
    || (c == Candidate(valuation, 0, ASOF)
        && (config.conventions.includeValuationDate || !SomeInside(config, valuation, bookMaxExpiry)))
  }

  function NodeOf(valuation: int, c: Candidate): GridNode {
    GridNode(c.date, YearFraction(valuation, c.date), c.targetDte, c.pillar)
  }

  /** The node is the first candidate of its date. */
  ghost predicate FirstOfDate(sorted: seq<Candidate>, valuation: int, node: GridNode) {
    exists i :: IsFirst(sorted, valuation, node, i)
  }

  ghost predicate IsFirst(sorted: seq<Candidate>, valuation: int, node: GridNode, i: int) {
    0 <= i < |sorted| && node == NodeOf(valuation, sorted[i]) && forall h :: 0 <= h < i ==> sorted[h].date < sorted[i].date
  }

  ghost predicate HasDate(nodes: seq<GridNode>, date: int) {
    exists n :: n in nodes && n.date == date
  }

  /** Dates ascend strictly, and each node carries its own year fraction. */
  ghost predicate IsGrid(nodes: seq<GridNode>, valuation: int) {
    && (forall i, j :: 0 <= i < j < |nodes| ==> nodes[i].date < nodes[j].date)
    && (forall n :: n in nodes ==> n.date >= valuation && n.yearFraction == YearFraction(valuation, n.date))
  }

  ghost predicate HasCandidate(candidates: seq<Candidate>, date: int) {
    exists c :: c in candidates && c.date == date
  }

  ghost predicate CandidatesOf(candidates: seq<Candidate>, config: Config, valuation: int, bookMaxExpiry: Option<int>, pillars: seq<Pillar>) {
    && (forall c :: c in candidates ==>
          || (c == Candidate(valuation, 0, ASOF) && config.conventions.includeValuationDate)
          || exists p :: p in pillars && Inside(config, valuation, bookMaxExpiry, p)
                         && c == Candidate(valuation + p.targetDte, p.targetDte, p.id))
    && (forall p :: p in pillars && Inside(config, valuation, bookMaxExpiry, p) ==>
          Candidate(valuation + p.targetDte, p.targetDte, p.id) in candidates)
    && (config.conventions.includeValuationDate ==> Candidate(valuation, 0, ASOF) in candidates)
  }

  method BuildCandidates(config: Config, valuation: int, bookMaxExpiry: Option<int>) returns (candidates: seq<Candidate>)
    ensures forall c :: c in candidates ==> Wanted(config, valuation, bookMaxExpiry, c.date)
    ensures forall c :: c in candidates ==> Labelled(config, valuation, bookMaxExpiry, c)
    ensures forall date :: Wanted(config, valuation, bookMaxExpiry, date) ==> HasCandidate(candidates, date)
    ensures candidates != []
  {
    var horizon := EffectiveHorizonEnd(config, valuation, bookMaxExpiry);
    candidates := [];
    if config.conventions.includeValuationDate {
      candidates := candidates + [Candidate(valuation, 0, ASOF)];
    }
    for i := 0 to |config.pillars|
      invariant CandidatesOf(candidates, config, valuation, bookMaxExpiry, config.pillars[..i])
    {
      var p := config.pillars[i];
      ghost var before := candidates;
      var date := valuation + p.targetDte;
      HorizonKeeps(config, valuation, bookMaxExpiry, p, horizon);
      if date >= valuation && horizon >= date {
        candidates := candidates + [Candidate(date, p.targetDte, p.id)];
      }
      assert config.pillars[..i + 1] == config.pillars[..i] + [p];
      OneMorePillar(before, candidates, config, valuation, bookMaxExpiry, config.pillars[..i], p);
    }
    assert config.pillars[..|config.pillars|] == config.pillars;
    CandidatesWanted(candidates, config, valuation, bookMaxExpiry);
    if candidates == [] {
      candidates := candidates + [Candidate(valuation, 0, ASOF)];
    }
  }

  lemma OneMorePillar(before: seq<Candidate>, after: seq<Candidate>, config: Config, valuation: int, bookMaxExpiry: Option<int>,
                      pillars: seq<Pillar>, p: Pillar)
    requires CandidatesOf(before, config, valuation, bookMaxExpiry, pillars)
    requires after == if Inside(config, valuation, bookMaxExpiry, p)
                      then before + [Candidate(valuation + p.targetDte, p.targetDte, p.id)] else before
    ensures CandidatesOf(after, config, valuation, bookMaxExpiry, pillars + [p])
  {
    hide Inside;
    var grown := pillars + [p];
    assert forall q :: q in grown <==> q in pillars || q == p;
  }

  lemma CandidatesWanted(candidates: seq<Candidate>, config: Config, valuation: int, bookMaxExpiry: Option<int>)
    requires CandidatesOf(candidates, config, valuation, bookMaxExpiry, config.pillars)
    ensures forall c :: c in candidates ==> Wanted(config, valuation, bookMaxExpiry, c.date)
    ensures forall c :: c in candidates ==> Labelled(config, valuation, bookMaxExpiry, c)
    ensures candidates == [] ==> Labelled(config, valuation, bookMaxExpiry, Candidate(valuation, 0, ASOF))
    ensures candidates == [] ==> forall date :: Wanted(config, valuation, bookMaxExpiry, date) <==> date == valuation
    ensures candidates != [] ==>
              forall date :: Wanted(config, valuation, bookMaxExpiry, date) ==> HasCandidate(candidates, date)
  {
    hide Inside;
    forall date | Wanted(config, valuation, bookMaxExpiry, date) && candidates != []
      ensures HasCandidate(candidates, date)
    {
      assert candidates[0] in candidates;
      if p :| p in config.pillars && Inside(config, valuation, bookMaxExpiry, p) && valuation + p.targetDte == date {
        assert Candidate(date, p.targetDte, p.id) in candidates;
      }
    }
  }

  /** One node per date of the sorted candidates; the year-fraction error cannot occur. */
  method Deduplicate(sorted: seq<Candidate>, valuation: int) returns (nodes: seq<GridNode>)
    requires Ascending(DateOf, sorted) && forall c :: c in sorted ==> c.date >= valuation
    ensures IsGrid(nodes, valuation) && (sorted != [] ==> nodes != [])
    ensures forall date :: HasDate(nodes, date) <==> HasCandidate(sorted, date)
    ensures forall n :: n in nodes ==> FirstOfDate(sorted, valuation, n)
  {
    hide HasDate, HasCandidate, IsGrid, FirstOfDate;
    nodes := [];
    NothingYet(valuation);
    for i := 0 to |sorted|
      invariant IsGrid(nodes, valuation)
      invariant if i == 0 then nodes == [] else nodes != [] && nodes[|nodes| - 1].date == sorted[i - 1].date
      invariant forall date :: HasDate(nodes, date) <==> HasCandidate(sorted[..i], date)
      invariant forall n :: n in nodes ==> FirstOfDate(sorted, valuation, n)
    {
      var c := sorted[i];
      assert i > 0 ==> DateOf(sorted[i - 1]) <= DateOf(c);
      assert c in sorted && sorted[..i + 1] == sorted[..i] + [c];
      OneMoreCandidate(sorted[..i], c);
      if |nodes| > 0 && nodes[|nodes| - 1].date == c.date {
        LastDate(nodes);
        continue;
      }
      var node := GridNode(c.date, YearFraction(valuation, c.date), c.targetDte, c.pillar);
      FirstFound(sorted, valuation, i);
      if node.yearFraction < -DATE_TOLERANCE {
        assert false;
      }
      NodeAppended(nodes, node, valuation);
      nodes := nodes + [node];
    }
    assert sorted[..|sorted|] == sorted;
  }

  lemma FirstFound(sorted: seq<Candidate>, valuation: int, i: nat)
    requires Ascending(DateOf, sorted) && i < |sorted| && (i > 0 ==> sorted[i - 1].date < sorted[i].date)
    ensures FirstOfDate(sorted, valuation, NodeOf(valuation, sorted[i]))
  {
    forall h | 0 <= h < i ensures sorted[h].date < sorted[i].date {
      assert h < i - 1 ==> DateOf(sorted[h]) <= DateOf(sorted[i - 1]);
    }
    assert IsFirst(sorted, valuation, NodeOf(valuation, sorted[i]), i);
  }

  lemma NothingYet(valuation: int)
    ensures IsGrid([], valuation) && forall date :: !HasDate([], date) && !HasCandidate([], date)
  {
  }

  lemma OneMoreCandidate(candidates: seq<Candidate>, c: Candidate)
    ensures forall date :: HasCandidate(candidates + [c], date) <==> HasCandidate(candidates, date) || date == c.date
  {
    assert c in candidates + [c];
    forall date ensures HasCandidate(candidates + [c], date) <==> HasCandidate(candidates, date) || date == c.date {
      if HasCandidate(candidates, date) {
        var b :| b in candidates && b.date == date;
        assert b in candidates + [c];
      }
    }
  }

  lemma LastDate(nodes: seq<GridNode>)
    requires nodes != []
    ensures HasDate(nodes, nodes[|nodes| - 1].date)
  {
    assert nodes[|nodes| - 1] in nodes;
  }

  /** The grid of a run: it exists whenever there is a pillar, holds exactly the wanted dates in strictly
      ascending order, and neither of its internal errors can occur. */
  method BuildExposureTimeGrid(config: Config, valuation: int, bookMaxExpiry: Option<int>) returns (grid: Option<seq<GridNode>>)
    ensures grid.None? <==> config.pillars == []
    ensures grid.Some? ==> grid.value != [] && IsGrid(grid.value, valuation)
    ensures grid.Some? ==> forall date :: HasDate(grid.value, date) <==> Wanted(config, valuation, bookMaxExpiry, date)
    ensures grid.Some? ==> forall n :: n in grid.value ==> NodeLabelled(config, valuation, bookMaxExpiry, n)
  {
    if |config.pillars| == 0 {
      return None;
    }
    hide Wanted, HasDate, HasCandidate, IsGrid, Labelled, FirstOfDate, NodeLabelled;
    var candidates := BuildCandidates(config, valuation, bookMaxExpiry);
    var sorted := SortBy(DateOf, candidates);
    SortSorts(DateOf, candidates);
    SameCandidates(candidates, sorted);
    NotBefore(config, valuation, bookMaxExpiry, sorted);
    AsCandidates(config, valuation, bookMaxExpiry, sorted);
    var nodes := Deduplicate(sorted, valuation);
    if |nodes| == 0 {
      assert false;
    }
    NodesLabelled(config, valuation, bookMaxExpiry, sorted, nodes);
    return Some(nodes);
  }

  ghost predicate NodeLabelled(config: Config, valuation: int, bookMaxExpiry: Option<int>, n: GridNode) {
    exists c :: Labelled(config, valuation, bookMaxExpiry, c) && n == NodeOf(valuation, c)
  }

  lemma NodesLabelled(config: Config, valuation: int, bookMaxExpiry: Option<int>, sorted: seq<Candidate>, nodes: seq<GridNode>)
    requires forall c :: c in sorted ==> Labelled(config, valuation, bookMaxExpiry, c)
    requires forall n :: n in nodes ==> FirstOfDate(sorted, valuation, n)
    ensures forall n :: n in nodes ==> NodeLabelled(config, valuation, bookMaxExpiry, n)
  {
    hide Labelled;
    forall n | n in nodes ensures NodeLabelled(config, valuation, bookMaxExpiry, n) {
      var i :| IsFirst(sorted, valuation, n, i);
      assert sorted[i] in sorted;
    }
  }

  lemma SameCandidates(a: seq<Candidate>, b: seq<Candidate>)
    requires multiset(a) == multiset(b)
    ensures forall c :: c in a <==> c in b
    ensures forall date :: HasCandidate(a, date) <==> HasCandidate(b, date)
  {
    forall c: Candidate ensures c in a <==> c in b {
      assert c in multiset(a) <==> c in multiset(b);
    }
  }

  lemma AsCandidates(config: Config, valuation: int, bookMaxExpiry: Option<int>, sorted: seq<Candidate>)
    requires forall c :: c in sorted ==> Wanted(config, valuation, bookMaxExpiry, c.date)
    ensures forall date :: HasCandidate(sorted, date) ==> Wanted(config, valuation, bookMaxExpiry, date)
  {
    hide Wanted;
  }

  lemma NotBefore(config: Config, valuation: int, bookMaxExpiry: Option<int>, sorted: seq<Candidate>)
    requires forall c :: c in sorted ==> Wanted(config, valuation, bookMaxExpiry, c.date)
    ensures forall c :: c in sorted ==> c.date >= valuation
  {
  }

  lemma NodeAppended(nodes: seq<GridNode>, node: GridNode, valuation: int)
    requires IsGrid(nodes, valuation) && (nodes != [] ==> nodes[|nodes| - 1].date < node.date)
    requires node.date >= valuation && node.yearFraction == YearFraction(valuation, node.date)
    ensures IsGrid(nodes + [node], valuation)
    ensures forall date :: HasDate(nodes + [node], date) <==> HasDate(nodes, date) || date == node.date
  {
    var grown := nodes + [node];
    assert grown[|nodes|] == node && node in grown;
    forall date ensures HasDate(grown, date) <==> HasDate(nodes, date) || date == node.date {
      if HasDate(nodes, date) {
        var n :| n in nodes && n.date == date;
        assert n in grown;
      }
    }
    forall i, j | 0 <= i < j < |grown| ensures grown[i].date < grown[j].date {
      assert i < |nodes| && nodes[i].date <= nodes[|nodes| - 1].date;
    }
  }

  function YearFractions(nodes: seq<GridNode>): seq<real> {
    seq(|nodes|, k requires 0 <= k < |nodes| => nodes[k].yearFraction)
  }

  /** The year fractions of a grid start at zero or later and are at least a day apart, so the simulations accept them. */
  lemma GridIncreases(nodes: seq<GridNode>, valuation: int)
    requires IsGrid(nodes, valuation)
    ensures GbmEvolution.Increasing(YearFractions(nodes))
    ensures forall k :: 0 <= k < |nodes| ==> nodes[k].yearFraction >= 0.0
    ensures forall k :: 0 < k < |nodes| ==> nodes[k].yearFraction - nodes[k - 1].yearFraction >= 1.0 / 365.0
  {
    forall k | 0 <= k < |nodes|
      ensures nodes[k].yearFraction >= 0.0
      ensures k > 0 ==> nodes[k].yearFraction - nodes[k - 1].yearFraction >= 1.0 / 365.0
    {
      assert nodes[k] in nodes;
      assert k > 0 ==> nodes[k - 1] in nodes;
    }
  }

  /** A 365th of a year a day, counted from the valuation date. */
  lemma YearsCountDays(nodes: seq<GridNode>, valuation: int)
    requires IsGrid(nodes, valuation)
    ensures forall k :: 0 <= k < |nodes| && nodes[k].date == valuation ==> nodes[k].yearFraction == 0.0
    ensures forall j, k :: 0 <= j < |nodes| && 0 <= k < |nodes| ==>
              365.0 * (nodes[k].yearFraction - nodes[j].yearFraction) == (nodes[k].date - nodes[j].date) as real
  {
    forall k | 0 <= k < |nodes| ensures 365.0 * nodes[k].yearFraction == (nodes[k].date - valuation) as real {
      assert nodes[k] in nodes;
    }
  }
}
