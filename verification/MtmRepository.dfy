/** The live mark-to-market table, its append-only archive, and the lookup of the prior mark. */
module MtmRepository {
  import opened Options
  import opened MarkSeries

  datatype Key = Key(leg: string, asOf: int, engine: string)

  datatype MtmRow = MtmRow(asOf: int, trade: string, leg: string, batch: Option<string>, pvUnit: real, pvTotal: real,
                           pnlDaily: real, pnlInception: real, engine: string, official: bool)

  type Table = map<Key, MtmRow>

  function KeyOf(row: MtmRow): Key {
    Key(row.leg, row.asOf, row.engine)
  }

  /** Two rows clash when they share the key, or are both the official mark of a leg's day. */
  predicate Clash(a: MtmRow, b: MtmRow) {
    KeyOf(a) == KeyOf(b) || (a.official && b.official && a.leg == b.leg && a.asOf == b.asOf)
  }

  /** INSERT OR REPLACE: the rows the new one clashes with go. */
  function Replace(live: Table, row: MtmRow): Table {
    (map k | k in live && !Clash(live[k], row) :: live[k])[KeyOf(row) := row]
  }

  ghost predicate Keyed(live: Table) {
    forall k :: k in live ==> KeyOf(live[k]) == k
  }

  /** The unique index: a leg has at most one official mark a day. */
  ghost predicate OneOfficial(live: Table) {
    forall a, b :: a in live && b in live && live[a].official && live[b].official && a.leg == b.leg && a.asOf == b.asOf ==> a == b
  }

  lemma ReplaceKeepsIndexes(live: Table, row: MtmRow)
    requires Keyed(live) && OneOfficial(live)
    ensures Keyed(Replace(live, row)) && OneOfficial(Replace(live, row))
  {
    var next := Replace(live, row);
    forall k | k in next ensures KeyOf(next[k]) == k {
    }
    forall a, b | a in next && b in next && next[a].official && next[b].official && a.leg == b.leg && a.asOf == b.asOf
      ensures a == b
    {
      assert a != KeyOf(row) ==> a in live && !Clash(live[a], row);
      assert b != KeyOf(row) ==> b in live && !Clash(live[b], row);
    }
  }

  // ---- The live table as the fold of the archive ----

  function Fold(archive: seq<MtmRow>): Table {
    if archive == [] then map[] else Replace(Fold(archive[..|archive| - 1]), archive[|archive| - 1])
  }

  /** Entry `i` of the archive was written under the key and nothing later clashes with it. */
  ghost predicate Survives(archive: seq<MtmRow>, i: int, k: Key) {
    0 <= i < |archive| && KeyOf(archive[i]) == k && forall j :: i < j < |archive| ==> !Clash(archive[i], archive[j])
  }

  /** Last write wins: the live row of a key is the archived one no later write displaced, and a key without
      such a row is not live. */
  lemma {:induction false} FoldIsLastWrite(archive: seq<MtmRow>, k: Key)
    ensures k in Fold(archive) <==> exists i :: Survives(archive, i, k)
    ensures forall i :: Survives(archive, i, k) ==> k in Fold(archive) && Fold(archive)[k] == archive[i]
  {
    if archive != [] {
      var n := |archive| - 1;
      var earlier, row := archive[..n], archive[n];
      FoldIsLastWrite(earlier, k);
      if k == KeyOf(row) {
        assert Survives(archive, n, k);
        forall i | Survives(archive, i, k) ensures i == n {
          assert i < n ==> Clash(archive[i], archive[n]);
        }
      } else {
        forall i | Survives(archive, i, k) ensures Survives(earlier, i, k) && !Clash(archive[i], row) {
          assert i != n;
          forall j | i < j < n ensures !Clash(earlier[i], earlier[j]) {
            assert !Clash(archive[i], archive[j]);
          }
        }
        if k in Fold(archive) {
          var i :| Survives(earlier, i, k);
          forall j | i < j < |archive| ensures !Clash(archive[i], archive[j]) {
            if j < n {
              assert !Clash(earlier[i], earlier[j]);
            }
          }
          assert Survives(archive, i, k);
        }
      }
    }
  }

  lemma {:induction false} FoldKeepsIndexes(archive: seq<MtmRow>)
    ensures Keyed(Fold(archive)) && OneOfficial(Fold(archive))
  {
    if archive != [] {
      FoldKeepsIndexes(archive[..|archive| - 1]);
      ReplaceKeepsIndexes(Fold(archive[..|archive| - 1]), archive[|archive| - 1]);
    }
  }

  // ---- One leg's marks under one engine ----

  function MarkOf(row: MtmRow): Mark {
    Mark(row.pvTotal, row.pnlDaily, row.pnlInception)
  }

  function SeriesOf(live: Table, leg: string, engine: string): Series {
    map k | k in live && k.leg == leg && k.engine == engine :: k.asOf := MarkOf(live[k])
  }

  lemma SeriesHas(live: Table, leg: string, engine: string, asOf: int)
    ensures asOf in SeriesOf(live, leg, engine) <==> Key(leg, asOf, engine) in live
    ensures asOf in SeriesOf(live, leg, engine) ==>
              SeriesOf(live, leg, engine)[asOf] == MarkOf(live[Key(leg, asOf, engine)])
  {
    if Key(leg, asOf, engine) in live {
      assert asOf in SeriesOf(live, leg, engine);
    }
  }

  /** A write extends its own leg and engine's series at its date. */
  lemma ReplaceWritesSeries(live: Table, row: MtmRow)
    requires Keyed(live)
    ensures SeriesOf(Replace(live, row), row.leg, row.engine) == SeriesOf(live, row.leg, row.engine)[row.asOf := MarkOf(row)]
  {
    var before, after := SeriesOf(live, row.leg, row.engine), SeriesOf(Replace(live, row), row.leg, row.engine);
    forall d ensures d in after <==> d in before || d == row.asOf
      ensures d in after ==> after[d] == before[row.asOf := MarkOf(row)][d]
    {
      var k := Key(row.leg, d, row.engine);
      SeriesHas(live, row.leg, row.engine, d);
      SeriesHas(Replace(live, row), row.leg, row.engine, d);
      assert k in live && d != row.asOf ==> !Clash(live[k], row);
    }
  }

  /** Other series keep their marks, except that a new official mark may displace another engine's mark of the
      same leg and day. */
  lemma ReplaceKeepsSeries(live: Table, row: MtmRow, leg: string, engine: string)
    requires Keyed(live) && (leg != row.leg || engine != row.engine)
    ensures var before, after := SeriesOf(live, leg, engine), SeriesOf(Replace(live, row), leg, engine);
            after == before || (leg == row.leg && after == before - {row.asOf})
  {
    hide SeriesOf, Replace;
    var before, after := SeriesOf(live, leg, engine), SeriesOf(Replace(live, row), leg, engine);
    forall d
      ensures d in after ==> d in before && after[d] == before[d]
      ensures d in before && (d != row.asOf || leg != row.leg) ==> d in after
    {
      OtherMarkKept(live, row, leg, engine, d);
    }
    if leg != row.leg {
      assert after == before;
    } else {
      AtMostOneGone(before, after, row.asOf);
    }
  }

  lemma AtMostOneGone<K, V>(before: map<K, V>, after: map<K, V>, key: K)
    requires forall k :: k in after ==> k in before && after[k] == before[k]
    requires forall k :: k in before && k != key ==> k in after
    ensures after == before || after == before - {key}
  {
    if key in after {
      assert after == before;
    } else {
      assert after == before - {key};
    }
  }

  lemma OtherMarkKept(live: Table, row: MtmRow, leg: string, engine: string, d: int)
    requires Keyed(live) && (leg != row.leg || engine != row.engine)
    ensures var before, after := SeriesOf(live, leg, engine), SeriesOf(Replace(live, row), leg, engine);
            && (d in after ==> d in before && after[d] == before[d])
            && (d in before && (d != row.asOf || leg != row.leg) ==> d in after)
  {
    var k := Key(leg, d, engine);
    SeriesHas(live, leg, engine, d);
    SeriesHas(Replace(live, row), leg, engine, d);
    hide SeriesOf;
    assert k in live && (d != row.asOf || leg != row.leg) ==> !Clash(live[k], row);
  }

  predicate HasBatch(row: MtmRow) {
    row.batch.Some? && row.batch.value != ""
  }

  predicate Complete(row: MtmRow) {
    row.trade != "" && row.leg != "" && row.engine != ""
  }

  class Repository {
    var live: Table
    var archive: seq<MtmRow>

    /** Every live mark came from an archived run. */
    ghost predicate Archived()
      reads this
    {
      live == Fold(archive)
    }

    constructor ()
      ensures live == map[] && archive == [] && Archived()
    {
      live := map[];
      archive := [];
    }

    method InsertArchive(row: MtmRow) returns (ok: bool)
      modifies this`archive
      ensures ok <==> HasBatch(row)
      ensures archive == if ok then old(archive) + [row] else old(archive)
    {
      if !HasBatch(row) {
        return false;
      }
      archive := archive + [row];
      return true;
    }

    method Upsert(row: MtmRow) returns (ok: bool)
      modifies this
      ensures ok <==> Complete(row)
      ensures !ok ==> live == old(live) && archive == old(archive)
      ensures ok ==> live == Replace(old(live), row)
      ensures ok ==> archive == if HasBatch(row) then old(archive) + [row] else old(archive)
      ensures ok && HasBatch(row) && old(Archived()) ==> Archived()
    {
      if !Complete(row) {
        return false;
      }
      if HasBatch(row) {
        var archived := InsertArchive(row);
      }
      live := Replace(live, row);
      assert HasBatch(row) ==> archive[..|archive| - 1] == old(archive);
      return true;
    }

    /** The latest mark of the leg and engine strictly before the date. */
    method LookupPriorOfficialMark(leg: string, engine: string, asOf: int)
      returns (ok: bool, prior: Option<(int, real)>)
      ensures ok <==> leg != "" && engine != ""
      ensures ok ==>
                var series := SeriesOf(live, leg, engine);
                prior == match Latest(series, asOf) { case None => None case Some(d) => Some((d, series[d].pv)) }
    {
      if leg == "" || engine == "" {
        return false, None;
      }
      var rest := live.Keys;
      var best: Option<Key> := None;
      while rest != {}
        invariant rest <= live.Keys
        invariant best.Some? ==> best.value in live && best.value.leg == leg && best.value.engine == engine && best.value.asOf < asOf
        invariant forall k :: k in live && k !in rest && k.leg == leg && k.engine == engine && k.asOf < asOf ==>
                    best.Some? && k.asOf <= best.value.asOf
        decreases |rest|
      {
        var k :| k in rest;
        rest := rest - {k};
        if k.leg == leg && k.engine == engine && k.asOf < asOf && (best.None? || best.value.asOf < k.asOf) {
          best := Some(k);
        }
      }
      BestIsLatest(live, leg, engine, asOf, best);
      return true, if best.None? then None else Some((best.value.asOf, live[best.value].pvTotal));
    }
  }

  lemma BestIsLatest(live: Table, leg: string, engine: string, asOf: int, best: Option<Key>)
    requires best.Some? ==> best.value in live && best.value.leg == leg && best.value.engine == engine && best.value.asOf < asOf
    requires forall k :: k in live && k.leg == leg && k.engine == engine && k.asOf < asOf ==>
               best.Some? && k.asOf <= best.value.asOf
    ensures var series := SeriesOf(live, leg, engine);
            if best.None? then Latest(series, asOf) == None
            else Latest(series, asOf) == Some(best.value.asOf) && series[best.value.asOf].pv == live[best.value].pvTotal
  {
    var series := SeriesOf(live, leg, engine);
    forall d | d in series && d < asOf ensures best.Some? && d <= best.value.asOf {
      SeriesHas(live, leg, engine, d);
      assert Key(leg, d, engine) in live;
    }
    if best.Some? {
      var k := best.value;
      SeriesHas(live, leg, engine, k.asOf);
      assert k == Key(leg, k.asOf, engine);
      assert IsLatest(series, asOf, k.asOf);
      assert HasEarlier(series, asOf);
    }
  }
}
