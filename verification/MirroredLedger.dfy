/** A ledger with every position reversed: the same trades live and die, and every mark changes its sign. */
module MirroredLedger {
  import opened Options
  import opened LegPv
  import opened MarkSeries
  import opened MtmRepository
  import opened TradeLedger

  // ---- Reversed positions ----

  function MirrorLeg(leg: Leg): Leg {
    leg.(direction := Opposite(leg.direction))
  }

  function MirrorLegs(legs: seq<Leg>): seq<Leg> {
    seq(|legs|, i requires 0 <= i < |legs| => MirrorLeg(legs[i]))
  }

  function MirrorTrade(trade: Trade): Trade {
    trade.(legs := MirrorLegs(trade.legs))
  }

  function MirrorTrades(trades: Trades): Trades {
    map id | id in trades :: MirrorTrade(trades[id])
  }

  /** The unit values do not depend on who holds the leg. */
  ghost predicate Blind(quotes: Quotes) {
    forall engine, leg, date :: quotes(engine, MirrorLeg(leg), date) == quotes(engine, leg, date)
  }

  lemma MirrorPv(leg: Leg, unit: real)
    ensures LegPvTotal(MirrorLeg(leg), unit) == -LegPvTotal(leg, unit)
    ensures LegBookedMark(MirrorLeg(leg)) == -LegBookedMark(leg)
  {
    hide SignedTotal;
    TotalOfUnit(leg.direction, leg.quantity, leg.contractSize, unit);
    TotalOfUnit(leg.direction, leg.quantity, leg.contractSize, leg.executionPrice);
  }

  /** Reversing every leg of a trade negates its total. */
  lemma {:induction false} MirrorTotal(legs: seq<Leg>, engine: string, asOf: int, quotes: Quotes, count: nat)
    requires Blind(quotes) && count <= |legs|
    ensures TotalNpv(MirrorLegs(legs), engine, asOf, quotes, count) == -TotalNpv(legs, engine, asOf, quotes, count)
  {
    hide LegPvTotal;
    if count > 0 {
      MirrorTotal(legs, engine, asOf, quotes, count - 1);
      var leg := legs[count - 1];
      assert quotes(engine, MirrorLeg(leg), asOf) == quotes(engine, leg, asOf);
      match quotes(engine, leg, asOf)
      case Priced(npv) => MirrorPv(leg, npv);
      case _ =>
    }
  }

  // ---- Reversed marks ----

  /** The same mark of a reversed position; the cost of its commission is not reversed. */
  ghost predicate MirrorRows(a: MtmRow, b: MtmRow) {
    && KeyOf(a) == KeyOf(b) && a.trade == b.trade && a.batch == b.batch && a.official == b.official && a.pvUnit == b.pvUnit
    && b.pvTotal == -a.pvTotal && b.pnlDaily == -a.pnlDaily
  }

  ghost predicate MirrorArchives(a: seq<MtmRow>, b: seq<MtmRow>) {
    |a| == |b| && forall i :: 0 <= i < |a| ==> MirrorRows(a[i], b[i])
  }

  ghost predicate MirrorTables(a: Table, b: Table) {
    a.Keys == b.Keys && forall k :: k in a ==> MirrorRows(a[k], b[k])
  }

  lemma MirrorReplace(a: Table, b: Table, x: MtmRow, y: MtmRow)
    requires MirrorTables(a, b) && MirrorRows(x, y)
    ensures MirrorTables(Replace(a, x), Replace(b, y))
  {
    forall k | k in a ensures Clash(a[k], x) <==> Clash(b[k], y) {
      assert MirrorRows(a[k], b[k]);
    }
  }

  lemma {:induction false} MirrorFold(a: seq<MtmRow>, b: seq<MtmRow>)
    requires MirrorArchives(a, b)
    ensures MirrorTables(Fold(a), Fold(b))
  {
    if a != [] {
      var n := |a| - 1;
      MirrorFold(a[..n], b[..n]);
      MirrorReplace(Fold(a[..n]), Fold(b[..n]), a[n], b[n]);
    }
  }

  lemma MirrorBase(a: Table, b: Table, leg: string, engine: string, date: int, booked: real)
    requires MirrorTables(a, b)
    ensures Base(SeriesOf(b, leg, engine), date, -booked) == -Base(SeriesOf(a, leg, engine), date, booked)
  {
    var s, t := SeriesOf(a, leg, engine), SeriesOf(b, leg, engine);
    hide SeriesOf;
    forall d ensures d in s <==> d in t ensures d in s ==> t[d].pv == -s[d].pv {
      SeriesHas(a, leg, engine, d);
      SeriesHas(b, leg, engine, d);
      assert Key(leg, d, engine) in a ==> MirrorRows(a[Key(leg, d, engine)], b[Key(leg, d, engine)]);
    }
    LatestAgrees(s, t, date);
  }

  lemma MirrorMark(a: Table, b: Table, id: string, leg: Leg, engine: EngineRun, asOf: int, batch: string, npv: real)
    requires MirrorTables(a, b)
    ensures MirrorRows(MarkRow(a, id, leg, engine, asOf, batch, npv), MarkRow(b, id, MirrorLeg(leg), engine, asOf, batch, npv))
  {
    hide SeriesOf, Base, LegPvTotal, LegBookedMark, MirrorTables;
    MirrorPv(leg, npv);
    MirrorBase(a, b, leg.id, engine.name, asOf, LegBookedMark(leg));
  }

  // ---- Reversed runs ----

  lemma MirrorMarkable(id: string, legs: seq<Leg>, engine: EngineRun, run: MarkRun, count: nat)
    requires Blind(run.quotes)
    ensures BundleMarkable(id, MirrorLegs(legs), engine, run.asOf, run.quotes, run.persist, count)
        <==> BundleMarkable(id, legs, engine, run.asOf, run.quotes, run.persist, count)
  {
    var mirrored := MirrorLegs(legs);
    forall i | 0 <= i < |legs|
      ensures LegMarkable(id, mirrored[i], engine, run.asOf, run.quotes, run.persist)
          <==> LegMarkable(id, legs[i], engine, run.asOf, run.quotes, run.persist)
    {
      assert run.quotes(engine.name, MirrorLeg(legs[i]), run.asOf) == run.quotes(engine.name, legs[i], run.asOf);
    }
    hide LegMarkable;
  }

  lemma {:induction false} MirrorBundle(a: seq<MtmRow>, b: seq<MtmRow>, id: string, legs: seq<Leg>, engine: EngineRun,
                                        run: MarkRun, count: nat)
    requires MirrorArchives(a, b) && Blind(run.quotes) && count <= |legs|
    ensures MirrorArchives(BundleRows(a, id, legs, engine, run, count), BundleRows(b, id, MirrorLegs(legs), engine, run, count))
  {
    hide BundleMarkable, Blind, MarkRow, MirrorArchives, Fold, MirrorLegs;
    SameLegs(legs);
    if count > 0 {
      MirrorBundle(a, b, id, legs, engine, run, count - 1);
      MirrorMarkable(id, legs, engine, run, count);
      SameOutcome(run, engine.name, legs[count - 1]);
      var outcome := run.quotes(engine.name, legs[count - 1], run.asOf);
      if outcome.Priced? {
        MirrorAppends(BundleRows(a, id, legs, engine, run, count - 1), BundleRows(b, id, MirrorLegs(legs), engine, run, count - 1),
                      id, legs[count - 1], engine, run, outcome.npv);
      }
    }
  }

  lemma SameLegs(legs: seq<Leg>)
    ensures |MirrorLegs(legs)| == |legs| && forall i :: 0 <= i < |legs| ==> MirrorLegs(legs)[i] == MirrorLeg(legs[i])
  {
  }

  lemma SameOutcome(run: MarkRun, engine: string, leg: Leg)
    requires Blind(run.quotes)
    ensures run.quotes(engine, MirrorLeg(leg), run.asOf) == run.quotes(engine, leg, run.asOf)
  {
  }

  lemma MirrorAppends(a: seq<MtmRow>, b: seq<MtmRow>, id: string, leg: Leg, engine: EngineRun, run: MarkRun, npv: real)
    requires MirrorArchives(a, b)
    ensures MirrorArchives(a + [MarkRow(Fold(a), id, leg, engine, run.asOf, run.batch, npv)],
                           b + [MarkRow(Fold(b), id, MirrorLeg(leg), engine, run.asOf, run.batch, npv)])
  {
    hide MarkRow, MirrorRows, Fold;
    MirrorFold(a, b);
    MirrorMark(Fold(a), Fold(b), id, leg, engine, run.asOf, run.batch, npv);
  }

  lemma MirrorEnginesMarkable(id: string, legs: seq<Leg>, run: MarkRun, count: nat)
    requires Blind(run.quotes)
    ensures EnginesMarkable(id, MirrorLegs(legs), run, count) <==> EnginesMarkable(id, legs, run, count)
  {
    hide BundleMarkable, EnginesFor, Blind, MirrorLegs;
    forall j | 0 <= j < |EnginesFor(run.persist)|
      ensures BundleMarkable(id, MirrorLegs(legs), EnginesFor(run.persist)[j], run.asOf, run.quotes, run.persist, |MirrorLegs(legs)|)
          <==> BundleMarkable(id, legs, EnginesFor(run.persist)[j], run.asOf, run.quotes, run.persist, |legs|)
    {
      SameLegs(legs);
      MirrorMarkable(id, legs, EnginesFor(run.persist)[j], run, |legs|);
    }
  }

  lemma {:induction false} MirrorEngines(a: seq<MtmRow>, b: seq<MtmRow>, id: string, legs: seq<Leg>, run: MarkRun, count: nat)
    requires MirrorArchives(a, b) && Blind(run.quotes) && count <= |EnginesFor(run.persist)|
    ensures MirrorArchives(EngineRows(a, id, legs, run, count), EngineRows(b, id, MirrorLegs(legs), run, count))
  {
    hide BundleRows, EnginesMarkable, EnginesFor, MirrorArchives, MirrorLegs, Blind;
    if count > 0 {
      MirrorEngines(a, b, id, legs, run, count - 1);
      MirrorEnginesMarkable(id, legs, run, count - 1);
      SameLegs(legs);
      MirrorBundle(EngineRows(a, id, legs, run, count - 1), EngineRows(b, id, MirrorLegs(legs), run, count - 1),
                   id, legs, EnginesFor(run.persist)[count - 1], run, |legs|);
    }
  }

  lemma MirrorTradesMarkable(trades: Trades, active: seq<string>, run: MarkRun, count: nat)
    requires Blind(run.quotes)
    ensures TradesMarkable(MirrorTrades(trades), active, run, count) <==> TradesMarkable(trades, active, run, count)
  {
    hide BundleMarkable, EnginesFor, MirrorLegs, Blind;
    forall id | id in trades
      ensures TradeMarkable(id, MirrorTrades(trades)[id].legs, run.asOf, run.quotes, run.persist)
          <==> TradeMarkable(id, trades[id].legs, run.asOf, run.quotes, run.persist)
    {
      MirrorEnginesMarkable(id, trades[id].legs, run, |EnginesFor(run.persist)|);
      MirroredMarkable(id, trades[id].legs, run);
      MirroredMarkable(id, MirrorLegs(trades[id].legs), run);
    }
    hide TradeMarkable;
  }

  lemma MirroredMarkable(id: string, legs: seq<Leg>, run: MarkRun)
    ensures TradeMarkable(id, legs, run.asOf, run.quotes, run.persist) <==> EnginesMarkable(id, legs, run, |EnginesFor(run.persist)|)
  {
    hide BundleMarkable, EnginesFor;
  }

  lemma {:induction false} MirrorTradeRows(a: seq<MtmRow>, b: seq<MtmRow>, trades: Trades, active: seq<string>, run: MarkRun, count: nat)
    requires MirrorArchives(a, b) && Blind(run.quotes) && count <= |active| && forall j :: 0 <= j < |active| ==> active[j] in trades
    ensures MirrorArchives(TradeRows(a, trades, active, run, count), TradeRows(b, MirrorTrades(trades), active, run, count))
  {
    hide EngineRows, TradesMarkable, EnginesFor, MirrorArchives, MirrorLegs, Blind;
    if count > 0 {
      MirrorTradeRows(a, b, trades, active, run, count - 1);
      MirrorTradesMarkable(trades, active, run, count - 1);
      MirrorEngines(TradeRows(a, trades, active, run, count - 1), TradeRows(b, MirrorTrades(trades), active, run, count - 1),
                    active[count - 1], trades[active[count - 1]].legs, run, |EnginesFor(run.persist)|);
    }
  }

  lemma {:induction false} MirrorActive(trades: Trades, ids: seq<string>)
    ensures ActiveOf(MirrorTrades(trades), ids) == ActiveOf(trades, ids)
  {
    if ids != [] {
      MirrorActive(trades, ids[..|ids| - 1]);
    }
  }

  /** A mark-to-market run over reversed positions writes the same rows with every total and daily figure negated. */
  lemma MirrorRun(a: seq<MtmRow>, b: seq<MtmRow>, trades: Trades, ids: seq<string>, run: MarkRun)
    requires MirrorArchives(a, b) && Blind(run.quotes)
    ensures MirrorArchives(RunRows(a, trades, ids, run), RunRows(b, MirrorTrades(trades), ids, run))
  {
    hide TradeRows, MirrorArchives, Blind, ActiveOf;
    MirrorActive(trades, ids);
    if ids != [] && Markable(trades, ids, run.asOf) {
      MirrorTradeRows(a, b, trades, ActiveOf(trades, ids), run, |ActiveOf(trades, ids)|);
    }
    forall id | id in trades ensures MirrorTrades(trades)[id].legs == [] <==> trades[id].legs == [] {
    }
    hide MirrorTrade;
    assert Markable(MirrorTrades(trades), ids, run.asOf) <==> Markable(trades, ids, run.asOf);
  }

  // ---- Reversed histories ----

  lemma MirrorImport(trades: Trades, id: string, trade: Trade)
    ensures Importable(MirrorTrades(trades), id, MirrorTrade(trade)) <==> Importable(trades, id, trade)
  {
    hide HasLeg, MirrorLegs;
    var legs, mirrored := trade.legs, MirrorLegs(trade.legs);
    SameLegs(legs);
    SameImport(legs, mirrored);
    forall other, leg | other in trades ensures HasLeg(MirrorTrades(trades)[other].legs, leg) <==> HasLeg(trades[other].legs, leg) {
      MirrorHas(trades[other].legs, leg);
    }
    assert (forall i, other :: 0 <= i < |mirrored| && other in trades ==> !HasLeg(MirrorTrades(trades)[other].legs, mirrored[i].id))
      <==> forall i, other :: 0 <= i < |legs| && other in trades ==> !HasLeg(trades[other].legs, legs[i].id);
  }

  lemma SameImport(legs: seq<Leg>, mirrored: seq<Leg>)
    requires |mirrored| == |legs| && forall i :: 0 <= i < |legs| ==> mirrored[i] == MirrorLeg(legs[i])
    ensures (forall i, j :: 0 <= i < j < |mirrored| ==> mirrored[i].id != mirrored[j].id)
       <==> forall i, j :: 0 <= i < j < |legs| ==> legs[i].id != legs[j].id
    ensures (forall i :: 0 <= i < |mirrored| ==> mirrored[i].quantity > 0.0 && mirrored[i].executionPrice >= 0.0)
       <==> forall i :: 0 <= i < |legs| ==> legs[i].quantity > 0.0 && legs[i].executionPrice >= 0.0
  {
  }

  lemma MirrorHas(legs: seq<Leg>, id: string)
    ensures HasLeg(MirrorLegs(legs), id) <==> HasLeg(legs, id)
  {
    var mirrored := MirrorLegs(legs);
    forall i | 0 <= i < |legs| ensures mirrored[i].id == legs[i].id {
    }
  }

  lemma MirrorBooking(trade: Trade, quotes: Quotes, now: string)
    requires Blind(quotes)
    ensures BookOutcome(MirrorTrade(trade), quotes, now)
         == if BookOutcome(trade, quotes, now).None? then None else Some(MirrorTrade(BookOutcome(trade, quotes, now).value))
  {
    var legs, mirrored := trade.legs, MirrorLegs(trade.legs);
    SameLegs(legs);
    if trade.tradeDate.Some? {
      var date := trade.tradeDate.value;
      forall i | 0 <= i < |legs|
        ensures BookingPrice(quotes, mirrored[i], date) == BookingPrice(quotes, legs[i], date)
      {
        assert quotes(ANALYTIC, MirrorLeg(legs[i]), date) == quotes(ANALYTIC, legs[i], date);
      }
      hide BookingPrice, MirrorLegs;
      assert (exists i :: 0 <= i < |mirrored| && !Acceptable(quotes, mirrored[i], date))
        <==> exists i :: 0 <= i < |legs| && !Acceptable(quotes, legs[i], date);
      var once := PricedLegs(legs, quotes, date);
      var twice := PricedLegs(mirrored, quotes, date);
      SameLegs(once);
      assert twice == MirrorLegs(once);
      assert Booked(trade.(legs := twice)) <==> Booked(trade.(legs := once));
    }
  }

  lemma {:induction false} MirrorBookAll(trades: Trades, ids: seq<string>, quotes: Quotes, now: string)
    requires Blind(quotes)
    ensures BookAll(MirrorTrades(trades), ids, quotes, now)
         == (MirrorTrades(BookAll(trades, ids, quotes, now).0), BookAll(trades, ids, quotes, now).1)
  {
    hide MirrorTrade, BookOutcome, Blind;
    if ids != [] {
      MirrorBookAll(trades, ids[..|ids| - 1], quotes, now);
      var before, id := BookAll(trades, ids[..|ids| - 1], quotes, now).0, ids[|ids| - 1];
      if id in before {
        MirrorBooking(before[id], quotes, now);
        var booked := BookOutcome(before[id], quotes, now);
        assert booked.Some? ==> MirrorTrades(before)[id := MirrorTrade(booked.value)] == MirrorTrades(before[id := booked.value]);
      }
    }
  }

  lemma MirrorExpiry(trades: Trades, asOf: int, portfolio: Option<string>)
    ensures ExpireAll(MirrorTrades(trades), asOf, portfolio) == MirrorTrades(ExpireAll(trades, asOf, portfolio))
  {
    forall id | id in trades ensures Expire(MirrorTrade(trades[id]), asOf, portfolio) == MirrorTrade(Expire(trades[id], asOf, portfolio)) {
      MirrorExpires(trades[id], asOf, portfolio);
    }
  }

  lemma MirrorExpires(trade: Trade, asOf: int, portfolio: Option<string>)
    ensures Expire(MirrorTrade(trade), asOf, portfolio) == MirrorTrade(Expire(trade, asOf, portfolio))
  {
    var legs, mirrored := trade.legs, MirrorLegs(trade.legs);
    forall i | 0 <= i < |legs| ensures mirrored[i].expiry == legs[i].expiry {
    }
    assert AllPast(mirrored, asOf) <==> AllPast(legs, asOf);
  }

  /** The same command on reversed positions. */
  ghost function MirrorCommand(c: Command): Command {
    match c
    case DoImport(id, trade) => DoImport(id, MirrorTrade(trade))
    case _ => c
  }

  ghost function MirrorCommands(commands: seq<Command>): seq<Command> {
    seq(|commands|, k requires 0 <= k < |commands| => MirrorCommand(commands[k]))
  }

  ghost predicate AllBlind(commands: seq<Command>) {
    forall k :: 0 <= k < |commands| ==>
      match commands[k]
      case DoBook(_, _, quotes) => Blind(quotes)
      case DoMark(_, _, _, _, quotes) => Blind(quotes)
      case _ => true
  }

  lemma MirrorAfter(trades: Trades, c: Command)
    requires AllBlind([c])
    ensures AfterCommand(MirrorTrades(trades), MirrorCommand(c)) == MirrorTrades(AfterCommand(trades, c))
  {
    assert [c][0] == c;
    hide Blind, Importable, BookAll, ExpireAll;
    match c
    case DoImport(id, trade) => MirrorImport(trades, id, trade);
    case DoBook(ids, now, quotes) => MirrorBookAll(trades, ids, quotes, now);
    case DoExpire(asOf, portfolio) => MirrorExpiry(trades, asOf, portfolio);
    case DoMark(ids, asOf, batch, persist, quotes) => MirrorExpiry(trades, asOf, None);
  }

  /** Whole histories: with every imported position reversed, the ledger ends with the reversed trades in the same
      statuses and an archive of the same marks with every total and daily figure negated. */
  lemma {:induction false} MirrorHistory(commands: seq<Command>)
    requires AllBlind(commands)
    ensures TradesAfter(MirrorCommands(commands)) == MirrorTrades(TradesAfter(commands))
    ensures MirrorArchives(ArchiveAfter(commands), ArchiveAfter(MirrorCommands(commands)))
  {
    if commands == [] {
      assert MirrorTrades(map[]) == map[];
    } else {
      var earlier, c := commands[..|commands| - 1], commands[|commands| - 1];
      MirrorHistory(earlier);
      assert MirrorCommands(commands)[..|commands| - 1] == MirrorCommands(earlier);
      assert AllBlind([c]);
      MirrorAfter(TradesAfter(earlier), c);
      assert c.DoMark? ==> Blind(c.quotes);
      hide AllBlind, Blind, MirrorArchives, AfterCommand, ExpireAll, RunRows, MirrorTrades;
      if c.DoMark? {
        MirrorExpiry(TradesAfter(earlier), c.asOf, None);
        MirrorRun(ArchiveAfter(earlier), ArchiveAfter(MirrorCommands(earlier)), ExpireAll(TradesAfter(earlier), c.asOf, None), c.ids,
                  MarkRun(c.asOf, c.batch, c.persist, c.quotes));
      }
    }
  }
}
