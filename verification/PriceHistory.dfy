/** Aligning daily closes of several factors into log-return series. */
module PriceHistory {
  import opened Options
  import opened Reals
  import opened Sums

  datatype DailyClose = DailyClose(asOf: int, close: real)

  type History = map<string, seq<DailyClose>>

  /** The first bar on a date, which is the one every lookup finds. */
  function CloseOn(bars: seq<DailyClose>, date: int): Option<real> {
    if |bars| == 0 then None
    else if bars[0].asOf == date then Some(bars[0].close)
    else CloseOn(bars[1..], date)
  }

  ghost predicate Quoted(bars: seq<DailyClose>, date: int) {
    exists k :: 0 <= k < |bars| && bars[k].asOf == date
  }

  lemma {:induction false} CloseOnIffQuoted(bars: seq<DailyClose>, date: int)
    ensures CloseOn(bars, date).Some? <==> Quoted(bars, date)
  {
    if |bars| > 0 {
      CloseOnIffQuoted(bars[1..], date);
      if bars[0].asOf == date {
        assert Quoted(bars, date);
      } else {
        assert forall k :: 0 < k < |bars| ==> bars[k] == bars[1..][k - 1];
        if Quoted(bars[1..], date) {
          var k :| 0 <= k < |bars[1..]| && bars[1..][k].asOf == date;
          assert bars[k + 1].asOf == date;
        }
      }
    }
  }

  method CloseOnDate(bars: seq<DailyClose>, date: int) returns (close: Option<real>)
    ensures close == CloseOn(bars, date)
  {
    for i := 0 to |bars|
      invariant CloseOn(bars, date) == CloseOn(bars[i..], date)
    {
      if bars[i].asOf == date {
        return Some(bars[i].close);
      }
    }
    return None;
  }

  /** An ordered set of dates. */
  predicate Ascending(dates: seq<int>) {
    forall i, j :: 0 <= i < j < |dates| ==> dates[i] < dates[j]
  }

  function Insert(dates: seq<int>, date: int): (r: seq<int>)
    requires Ascending(dates)
    ensures Ascending(r)
    ensures forall x :: x in r <==> x in dates || x == date
  {
    if |dates| == 0 then [date]
    else if date < dates[0] then [date] + dates
    else if date == dates[0] then dates
    else
      var rest := Insert(dates[1..], date);
      Prefixed(dates, rest, date);
      [dates[0]] + rest
  }

  lemma Prefixed(dates: seq<int>, rest: seq<int>, date: int)
    requires dates != [] && Ascending(dates) && dates[0] < date
    requires Ascending(rest) && forall x :: x in rest <==> x in dates[1..] || x == date
    ensures Ascending([dates[0]] + rest)
    ensures forall x :: x in [dates[0]] + rest <==> x in dates || x == date
  {
    assert dates == [dates[0]] + dates[1..];
    forall j | 0 <= j < |rest| ensures dates[0] < rest[j] {
      assert rest[j] in rest;
    }
  }

  method DatesOf(bars: seq<DailyClose>) returns (dates: seq<int>)
    ensures Ascending(dates)
    ensures forall x :: x in dates <==> Quoted(bars, x)
  {
    dates := [];
    for i := 0 to |bars|
      invariant Ascending(dates)
      invariant forall x :: x in dates <==> exists k :: 0 <= k < i && bars[k].asOf == x
    {
      dates := Insert(dates, bars[i].asOf);
    }
  }

  method Intersection(a: seq<int>, b: seq<int>) returns (c: seq<int>)
    requires Ascending(a)
    ensures Ascending(c)
    ensures forall x :: x in c <==> x in a && x in b
  {
    c := [];
    for i := 0 to |a|
      invariant Ascending(c)
      invariant forall x :: x in c <==> x in a[..i] && x in b
    {
      forall j | 0 <= j < |c| ensures c[j] < a[i] {
        assert c[j] in c && c[j] in a[..i];
        var k :| 0 <= k < i && a[k] == c[j];
      }
      if a[i] in b {
        c := c + [a[i]];
      }
      assert a[..i + 1] == a[..i] + [a[i]];
    }
    assert a[..|a|] == a;
  }

  ghost predicate QuotedByAll(factors: seq<string>, closes: History, n: nat, date: int)
    requires n <= |factors|
  {
    forall f :: 0 <= f < n ==> factors[f] in closes && Quoted(closes[factors[f]], date)
  }

  /** The dates every factor has a bar for; `None` when some factor has no history at all. */
  method CommonDates(factors: seq<string>, closes: History) returns (dates: Option<seq<int>>)
    requires |factors| > 0
    ensures dates.None? <==> exists f :: 0 <= f < |factors| && factors[f] !in closes
    ensures dates.Some? ==> Ascending(dates.value)
    ensures dates.Some? ==> forall x :: x in dates.value <==> QuotedByAll(factors, closes, |factors|, x)
  {
    var common := [];
    for f := 0 to |factors|
      invariant Ascending(common)
      invariant forall g :: 0 <= g < f ==> factors[g] in closes
      invariant f > 0 ==> forall x :: x in common <==> QuotedByAll(factors, closes, f, x)
    {
      if factors[f] !in closes {
        return None;
      }
      var own := DatesOf(closes[factors[f]]);
      if f == 0 {
        common := own;
      } else {
        common := Intersection(common, own);
      }
    }
    return Some(common);
  }

  function LogReturn(e: Elementary, bars: seq<DailyClose>, from: int, to: int): real {
    var a, b := CloseOn(bars, from), CloseOn(bars, to);
    if a.Some? && b.Some? && a.value != 0.0 then e.ln(Over(b.value, a.value)) else 0.0
  }

  ghost predicate Priced(bars: seq<DailyClose>, date: int) {
    CloseOn(bars, date).Some? && CloseOn(bars, date).value > 0.0
  }

  /** `series[f][k]` is factor `f`'s log-return between the common dates `k` and `k + 1`. */
  ghost predicate AreReturns(e: Elementary, factors: seq<string>, closes: History, dates: seq<int>, series: seq<seq<real>>) {
    && |series| == |factors|
    && (forall f :: 0 <= f < |factors| ==> factors[f] in closes && |series[f]| == if |dates| == 0 then 0 else |dates| - 1)
    && (forall f, k :: 0 <= f < |factors| && 0 <= k < |dates| - 1 ==>
          series[f][k] == LogReturn(e, closes[factors[f]], dates[k], dates[k + 1]))
  }

  ghost predicate AllPriced(factors: seq<string>, closes: History, dates: seq<int>) {
    forall f, k :: 0 <= f < |factors| && 0 <= k < |dates| ==>
      factors[f] in closes && Priced(closes[factors[f]], dates[k])
  }

  /** Fails exactly when some factor has a non-positive close on a common date. */
  method AlignReturns(e: Elementary, factors: seq<string>, closes: History, dates: seq<int>)
    returns (series: Option<seq<seq<real>>>)
    requires forall f :: 0 <= f < |factors| ==> factors[f] in closes
    ensures series.Some? <==> AllPriced(factors, closes, dates)
    ensures series.Some? ==> AreReturns(e, factors, closes, dates, series.value)
  {
    hide CloseOn;
    var rows := seq(|factors|, _ => []);
    for k := 0 to |dates|
      invariant AllPriced(factors, closes, dates[..k])
      invariant AreReturns(e, factors, closes, dates[..k], rows)
    {
      var priced := AllPositiveOn(factors, closes, dates[k]);
      if !priced {
        assert !AllPriced(factors, closes, dates);
        return None;
      }
      if k > 0 {
        forall f | 0 <= f < |factors| ensures Priced(closes[factors[f]], dates[k - 1]) {
          assert Priced(closes[factors[f]], dates[..k][k - 1]);
        }
        rows := AppendReturns(e, factors, closes, dates[k - 1], dates[k], rows);
      }
      assert dates[..k + 1] == dates[..k] + [dates[k]];
    }
    assert dates[..|dates|] == dates;
    return Some(rows);
  }

  /** Every factor's return between two dates, appended to its series. */
  method AppendReturns(e: Elementary, factors: seq<string>, closes: History, from: int, to: int, rows: seq<seq<real>>)
    returns (longer: seq<seq<real>>)
    requires |rows| == |factors| && forall f :: 0 <= f < |factors| ==> factors[f] in closes
    requires forall f :: 0 <= f < |factors| ==> Priced(closes[factors[f]], from) && Priced(closes[factors[f]], to)
    ensures |longer| == |rows|
    ensures forall f :: 0 <= f < |rows| ==> longer[f] == rows[f] + [LogReturn(e, closes[factors[f]], from, to)]
  {
    hide CloseOn;
    longer := rows;
    for f := 0 to |factors|
      invariant |longer| == |factors|
      invariant forall g :: f <= g < |factors| ==> longer[g] == rows[g]
      invariant forall g :: 0 <= g < f ==> longer[g] == rows[g] + [LogReturn(e, closes[factors[g]], from, to)]
    {
      var previous := CloseOnDate(closes[factors[f]], from);
      var current := CloseOnDate(closes[factors[f]], to);
      longer := longer[f := longer[f] + [e.ln(current.value / previous.value)]];
    }
  }

  method AllPositiveOn(factors: seq<string>, closes: History, date: int) returns (priced: bool)
    requires forall f :: 0 <= f < |factors| ==> factors[f] in closes
    ensures priced <==> forall f :: 0 <= f < |factors| ==> Priced(closes[factors[f]], date)
  {
    for f := 0 to |factors|
      invariant forall g :: 0 <= g < f ==> Priced(closes[factors[g]], date)
    {
      var close := CloseOnDate(closes[factors[f]], date);
      if close.None? || close.value <= 0.0 {
        assert !Priced(closes[factors[f]], date);
        return false;
      }
    }
    return true;
  }

  /** Nothing is lost in the alignment: a factor's returns compound to its last close over its first. */
  lemma {:induction false} ReturnsCompound(e: Elementary, factors: seq<string>, closes: History, dates: seq<int>,
                                           series: seq<seq<real>>, f: int, k: nat)
    requires e.Lawful() && AllPriced(factors, closes, dates) && AreReturns(e, factors, closes, dates, series)
    requires 0 <= f < |factors| && k < |dates|
    ensures Priced(closes[factors[f]], dates[0]) && Priced(closes[factors[f]], dates[k])
    ensures e.exp(Sum(ToVec(series[f]), k)) * CloseOn(closes[factors[f]], dates[0]).value
            == CloseOn(closes[factors[f]], dates[k]).value
  {
    if k == 0 {
      e.ExpZero();
    } else {
      ReturnsCompound(e, factors, closes, dates, series, f, k - 1);
      var bars := closes[factors[f]];
      assert Priced(bars, dates[k - 1]) && Priced(bars, dates[k]);
      var a, b, c := CloseOn(bars, dates[0]).value, CloseOn(bars, dates[k - 1]).value, CloseOn(bars, dates[k]).value;
      var sum, step := Sum(ToVec(series[f]), k - 1), series[f][k - 1];
      assert step == LogReturn(e, bars, dates[k - 1], dates[k]) == e.ln(Over(c, b));
      e.ExpSum(sum, step);
      QuotientPositive(c, b);
      e.LnOf(Over(c, b));
      assert Mul(e.exp(sum) * a, e.exp(step)) == Mul(b, Over(c, b));
      assert Sum(ToVec(series[f]), k) == sum + step;
    }
  }

  lemma QuotientPositive(c: real, b: real)
    requires c > 0.0 && b > 0.0
    ensures Over(c, b) > 0.0 && Mul(b, Over(c, b)) == c
  {
    assert Over(c, b) * b == c;
    assert Product(Over(c, b), b) == c;
  }
}
