/** The marks of one leg under one engine, by date, and the profit and loss stored with them. */
module MarkSeries {
  import opened Options

  /** A stored mark: its total value and the daily and since-inception figures written beside it. */
  datatype Mark = Mark(pv: real, daily: real, inception: real)

  type Series = map<int, Mark>

  // ---- The latest mark before a date ----

  ghost predicate IsLatest(s: Series, before: int, d: int) {
    d in s && d < before && forall d' :: d' in s && d' < before ==> d' <= d
  }

  ghost predicate HasEarlier(s: Series, before: int) {
    exists d :: d in s && d < before
  }

  lemma {:induction false} LatestExists(s: Series, before: int)
    requires HasEarlier(s, before)
    ensures exists d :: IsLatest(s, before, d)
  {
    var d :| d in s && d < before;
    var days := set k | k in s.Keys && k < before;
    var best := Highest(days, d);
    forall d' | d' in s && d' < before ensures d' <= best {
      assert d' in days;
    }
    assert IsLatest(s, before, best);
  }

  lemma {:induction false} Highest(days: set<int>, d: int) returns (best: int)
    requires d in days
    ensures best in days && forall k :: k in days ==> k <= best
    decreases days
  {
    if k :| k in days && k > d {
      best := Highest(days - {d}, k);
      forall j | j in days ensures j <= best {
        assert j != d ==> j in days - {d};
        assert k in days - {d};
      }
    } else {
      best := d;
    }
  }

  ghost function Latest(s: Series, before: int): (latest: Option<int>)
    ensures latest.Some? ==> IsLatest(s, before, latest.value)
    ensures latest.None? <==> !HasEarlier(s, before)
  {
    if HasEarlier(s, before) then
      LatestExists(s, before);
      var d :| IsLatest(s, before, d);
      Some(d)
    else None
  }

  /** Two series with the same marks before a date have the same latest one. */
  lemma LatestAgrees(a: Series, b: Series, before: int)
    requires forall d :: d < before ==> (d in a <==> d in b)
    ensures Latest(a, before) == Latest(b, before)
  {
    if HasEarlier(a, before) {
      var d := Latest(a, before).value;
      assert IsLatest(b, before, d);
    }
    if HasEarlier(b, before) {
      var d := Latest(b, before).value;
      assert IsLatest(a, before, d);
    }
  }

  // ---- The chain of daily figures ----

  /** What a mark is measured against: the latest earlier mark, or the booked mark. */
  ghost function Base(s: Series, date: int, booked: real): real {
    match Latest(s, date)
    case None => booked
    case Some(d) => s[d].pv
  }

  /** Every stored daily figure is the move from its base. */
  ghost predicate Chained(s: Series, booked: real) {
    forall d :: d in s ==> s[d].daily == s[d].pv - Base(s, d, booked)
  }

  /** Writing a mark at a date moves only the bases of marks that now follow it directly: the chain holds
      exactly when each of those was measured against the value written. */
  lemma WriteKeepsChain(s: Series, date: int, mark: Mark, booked: real)
    requires Chained(s, booked) && mark.daily == mark.pv - Base(s, date, booked)
    ensures Chained(s[date := mark], booked)
        <==> forall n :: n in s && Latest(s[date := mark], n) == Some(date) ==> Base(s, n, booked) == mark.pv
  {
    var t := s[date := mark];
    LatestAgrees(s, t, date);
    assert Base(t, date, booked) == Base(s, date, booked);
    forall n | n in s && n != date
      ensures Latest(t, n) != Some(date) ==> Base(t, n, booked) == Base(s, n, booked)
      ensures Latest(t, n) == Some(date) ==> Base(t, n, booked) == mark.pv
    {
      OtherBase(s, date, mark, booked, n);
    }
    assert Latest(t, date) != Some(date);
    if Chained(t, booked) {
      forall n | n in s && Latest(t, n) == Some(date) ensures Base(s, n, booked) == mark.pv {
        assert n != date && t[n] == s[n];
      }
    }
    if forall n :: n in s && Latest(t, n) == Some(date) ==> Base(s, n, booked) == mark.pv {
      forall n | n in t ensures t[n].daily == t[n].pv - Base(t, n, booked) {
        if n != date {
          assert t[n] == s[n];
        }
      }
    }
  }

  lemma OtherBase(s: Series, date: int, mark: Mark, booked: real, n: int)
    requires n != date
    ensures var t := s[date := mark];
            && (Latest(t, n) != Some(date) ==> Base(t, n, booked) == Base(s, n, booked))
            && (Latest(t, n) == Some(date) ==> Base(t, n, booked) == mark.pv)
  {
    var t := s[date := mark];
    if n < date {
      LatestAgrees(s, t, n);
    } else {
      assert HasEarlier(t, n) by { assert date in t && date < n; }
      var d := Latest(t, n).value;
      if d != date {
        assert HasEarlier(s, n);
        forall d' | d' in s && d' < n ensures d' <= d {
          assert d' in t;
        }
        assert IsLatest(s, n, d);
      }
    }
  }

  /** Writing at or after every stored date, a same-day rerun included, keeps the chain. */
  lemma WriteInOrder(s: Series, date: int, mark: Mark, booked: real)
    requires Chained(s, booked) && mark.daily == mark.pv - Base(s, date, booked)
    requires forall d :: d in s ==> d <= date
    ensures Chained(s[date := mark], booked)
  {
    WriteKeepsChain(s, date, mark, booked);
  }

  /** Dropping the last mark keeps the chain. */
  lemma DropLast(s: Series, date: int, booked: real)
    requires Chained(s, booked) && forall d :: d in s ==> d <= date
    ensures Chained(s - {date}, booked)
  {
    var t := s - {date};
    forall d | d in t ensures t[d].daily == t[d].pv - Base(t, d, booked) {
      LatestAgrees(s, t, d);
      assert t[d] == s[d];
    }
  }

  /** A back-dated write breaks the chain exactly when it changes the value the next mark was measured against. */
  lemma BackDatedBreaks(s: Series, date: int, mark: Mark, booked: real)
    requires Chained(s, booked) && mark.daily == mark.pv - Base(s, date, booked)
    requires date !in s && exists d :: d in s && date < d
    ensures Chained(s[date := mark], booked) <==> mark.pv == Base(s, date, booked)
  {
    hide Chained;
    var t := s[date := mark];
    var later :| later in s && date < later;
    var days := set k | k in s.Keys && date < k;
    var next := Lowest(days, later);
    assert forall d :: d in s && date < d ==> d in days;
    MeasuredFrom(s, date, mark, booked, next);
    WriteKeepsChain(s, date, mark, booked);
    forall n | n in s && Latest(t, n) == Some(date) ensures Base(s, n, booked) == Base(s, date, booked) {
      assert date < n && n in days;
      assert next < n ==> next in t;
      assert n == next;
    }
  }

  /** The next mark after a back-dated one was measured from where that one now stands. */
  lemma MeasuredFrom(s: Series, date: int, mark: Mark, booked: real, next: int)
    requires date !in s && next in s && date < next && forall d :: d in s && date < d ==> next <= d
    ensures Latest(s[date := mark], next) == Some(date) && Base(s, next, booked) == Base(s, date, booked)
  {
    var t := s[date := mark];
    assert date in t && HasEarlier(t, next) && IsLatest(t, next, date);
    NoneBetween(s, date, next);
  }

  lemma {:induction false} Lowest(days: set<int>, d: int) returns (best: int)
    requires d in days
    ensures best in days && forall k :: k in days ==> best <= k
    decreases days
  {
    if k :| k in days && k < d {
      best := Lowest(days - {d}, k);
      forall j | j in days ensures best <= j {
        assert j != d ==> j in days - {d};
        assert k in days - {d};
      }
    } else {
      best := d;
    }
  }

  lemma NoneBetween(s: Series, a: int, b: int)
    requires a <= b && forall d :: d in s && a <= d ==> b <= d
    ensures Latest(s, a) == Latest(s, b)
  {
    if HasEarlier(s, b) {
      var d := Latest(s, b).value;
      assert IsLatest(s, a, d);
      assert HasEarlier(s, a);
    }
  }

  // ---- Telescoping ----

  ghost function EarlierDates(s: Series, before: int): set<int> {
    set d | d in s.Keys && d < before
  }

  /** The sum of the stored daily figures dated before a day, latest first. */
  ghost function DailyTotal(s: Series, before: int): real
    decreases |EarlierDates(s, before)|
  {
    match Latest(s, before)
    case None => 0.0
    case Some(d) =>
      FewerEarlier(s, before, d);
      s[d].daily + DailyTotal(s, d)
  }

  lemma FewerEarlier(s: Series, before: int, d: int)
    requires IsLatest(s, before, d)
    ensures EarlierDates(s, before) == EarlierDates(s, d) + {d}
    ensures |EarlierDates(s, d)| < |EarlierDates(s, before)|
  {
    assert d !in EarlierDates(s, d);
  }

  /** The daily figures add up to the last mark less the booked mark, whatever days are missing. */
  lemma {:induction false} DailyTelescopes(s: Series, before: int, booked: real)
    requires Chained(s, booked)
    ensures DailyTotal(s, before) == Base(s, before, booked) - booked
    decreases |EarlierDates(s, before)|
  {
    match Latest(s, before)
    case None =>
    case Some(d) =>
      FewerEarlier(s, before, d);
      DailyTelescopes(s, d, booked);
  }
}
