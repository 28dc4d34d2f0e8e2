/** The trade ledger: import, booking, expiry and mark-to-market runs as steps over its tables. */
module TradeLedger {
  import opened Options
  import opened Dates
  import opened LegPv
  import opened MarkSeries
  import opened MtmRepository

  // ---- Trades and their legs ----

  const PENDING := "PENDING"
  const LIVE := "LIVE"
  const EXPIRED := "EXPIRED"

  datatype Leg = Leg(id: string, direction: Direction, quantity: real, contractSize: real, executionPrice: real,
                     commission: Option<real>, expiry: Option<int>)

  datatype Trade = Trade(portfolio: string, status: string, tradeDate: Option<int>, booking: Option<string>, legs: seq<Leg>)

  type Trades = map<string, Trade>

  function ToUpper(c: char): char {
    if 'a' <= c <= 'z' then c - 'a' + 'A' else c
  }

  function NormalizeStatus(status: string): string {
    seq(|status|, i requires 0 <= i < |status| => ToUpper(status[i]))
  }

  /** Statuses are compared without regard to case, except by the expiry query. */
  predicate TradeStatusEquals(actual: string, expected: string) {
    NormalizeStatus(actual) == NormalizeStatus(expected)
  }

  predicate Canonical(status: string) {
    status == PENDING || status == LIVE || status == EXPIRED
  }

  /** On the statuses the ledger writes, the two comparisons agree. */
  lemma CanonicalComparison(a: string, b: string)
    requires Canonical(a) && Canonical(b)
    ensures TradeStatusEquals(a, b) <==> a == b
  {
    assert NormalizeStatus(PENDING) == PENDING && NormalizeStatus(LIVE) == LIVE && NormalizeStatus(EXPIRED) == EXPIRED;
  }

  function LegPvTotal(leg: Leg, unit: real): real {
    SignedTotal(leg.direction, leg.quantity, leg.contractSize, unit)
  }

  function LegBookedMark(leg: Leg): real {
    LegPvTotal(leg, leg.executionPrice)
  }

  function LegCommissionOrZero(leg: Leg): real {
    if leg.commission.Some? then leg.commission.value else 0.0
  }

  function LegPnlInception(pv: real, booked: real, commission: real): real {
    pv - booked - commission
  }

  predicate Sized(leg: Leg) {
    leg.contractSize > 0.0 && leg.quantity > 0.0
  }

  /** Every leg carries a booked price. */
  predicate Booked(trade: Trade) {
    trade.legs != [] && forall i :: 0 <= i < |trade.legs| ==> trade.legs[i].executionPrice > 0.0
  }

  ghost predicate UniqueLegs(trades: Trades) {
    forall a, b, i, j | a in trades && b in trades && 0 <= i < |trades[a].legs| && 0 <= j < |trades[b].legs|
                        && trades[a].legs[i].id == trades[b].legs[j].id :: a == b && i == j
  }

  /** Statuses are the ledger's own, and a trade past booking has every leg priced. */
  ghost predicate TradeSound(trade: Trade) {
    Canonical(trade.status) && (trade.status != PENDING ==> Booked(trade))
  }

  ghost predicate TradesSound(trades: Trades) {
    UniqueLegs(trades) && forall id :: id in trades ==> TradeSound(trades[id])
  }

  // ---- Pricing outcomes ----

  /** What a pricer answers for a leg on a date; `Unsupported` is its validation error. */
  datatype Outcome = Priced(npv: real) | Unsupported | NoNpv

  type Quotes = (string, Leg, int) -> Outcome

  const ANALYTIC := "analytic_black_scholes"
  const BINOMIAL := "binomial_crr"
  const MONTE_CARLO := "monte_carlo_gbm"

  // ---- Booking ----

  datatype BookingUpdate = BookingUpdate(leg: string, price: real)

  function RepriceOne(legs: seq<Leg>, u: BookingUpdate): seq<Leg> {
    seq(|legs|, i requires 0 <= i < |legs| => if legs[i].id == u.leg then legs[i].(executionPrice := u.price) else legs[i])
  }

  function Repriced(legs: seq<Leg>, updates: seq<BookingUpdate>): (after: seq<Leg>)
    ensures |after| == |legs|
  {
    if updates == [] then legs
    else RepriceOne(Repriced(legs, updates[..|updates| - 1]), updates[|updates| - 1])
  }

  predicate HasLeg(legs: seq<Leg>, id: string) {
    exists i :: 0 <= i < |legs| && legs[i].id == id
  }

  /** An update the repository accepts for a trade with these legs. */
  predicate Bookable(legs: seq<Leg>, u: BookingUpdate) {
    u.leg != "" && u.price >= 0.0 && HasLeg(legs, u.leg)
  }

  predicate AllBookable(legs: seq<Leg>, updates: seq<BookingUpdate>) {
    forall u :: u in updates ==> Bookable(legs, u)
  }

  lemma NothingBookable(legs: seq<Leg>)
    ensures AllBookable(legs, [])
  {
  }

  lemma BookableNext(legs: seq<Leg>, updates: seq<BookingUpdate>, k: nat)
    requires k < |updates|
    ensures AllBookable(legs, updates[..k + 1]) <==> AllBookable(legs, updates[..k]) && Bookable(legs, updates[k])
    ensures AllBookable(legs, updates) ==> Bookable(legs, updates[k])
  {
    hide Bookable;
    assert updates[..k + 1] == updates[..k] + [updates[k]];
  }

  lemma {:induction false} RepricedKeepsIds(legs: seq<Leg>, updates: seq<BookingUpdate>)
    ensures forall i :: 0 <= i < |legs| ==> Repriced(legs, updates)[i] == legs[i].(executionPrice := Repriced(legs, updates)[i].executionPrice)
  {
    if updates != [] {
      RepricedKeepsIds(legs, updates[..|updates| - 1]);
    }
  }

  function WithLegs(trades: Trades, id: string, legs: seq<Leg>): Trades
    requires id in trades
  {
    trades[id := trades[id].(legs := legs)]
  }

  lemma LegsAgain(trades: Trades, id: string, first: seq<Leg>, second: seq<Leg>)
    requires id in trades
    ensures WithLegs(trades, id, trades[id].legs) == trades
    ensures id in WithLegs(trades, id, first) && WithLegs(trades, id, first)[id] == trades[id].(legs := first)
    ensures WithLegs(trades, id, first)[id := trades[id].(legs := second)] == WithLegs(trades, id, second)
  {
  }

  lemma StampedLegs(trades: Trades, id: string, legs: seq<Leg>, now: string)
    requires id in trades
    ensures id in WithLegs(trades, id, legs)
    ensures WithLegs(trades, id, legs)[id := WithLegs(trades, id, legs)[id].(booking := Some(now))]
         == trades[id := trades[id].(legs := legs, booking := Some(now))]
  {
  }

  lemma RepricedNext(legs: seq<Leg>, updates: seq<BookingUpdate>, k: nat)
    requires k < |updates|
    ensures Repriced(legs, []) == legs
    ensures Repriced(legs, updates[..k + 1]) == RepriceOne(Repriced(legs, updates[..k]), updates[k])
  {
    assert updates[..k + 1][..k] == updates[..k];
  }

  /** One update per leg, in leg order, prices every leg with its own update. */
  lemma {:induction false} RepricedEach(legs: seq<Leg>, updates: seq<BookingUpdate>, i: nat)
    requires forall a, b :: 0 <= a < b < |legs| ==> legs[a].id != legs[b].id
    requires |updates| <= |legs| && forall a :: 0 <= a < |updates| ==> updates[a].leg == legs[a].id
    requires i < |legs|
    ensures Repriced(legs, updates)[i] == if i < |updates| then legs[i].(executionPrice := updates[i].price) else legs[i]
    decreases |updates|
  {
    if updates != [] {
      RepricedEach(legs, updates[..|updates| - 1], i);
    }
  }

  /** The price a leg gets when its trade is booked, or none when it cannot be booked. */
  function BookingPrice(quotes: Quotes, leg: Leg, date: int): Option<real> {
    if !Sized(leg) then None
    else
      match quotes(ANALYTIC, leg, date)
      case Priced(npv) => Some(npv)
      case _ => None
  }

  /** A trade after booking on its trade date, or none when it is rejected. */
  function BookOutcome(trade: Trade, quotes: Quotes, now: string): Option<Trade> {
    if trade.legs == [] || !TradeStatusEquals(trade.status, PENDING) || trade.tradeDate.None? then None
    else if exists i :: 0 <= i < |trade.legs| && !Acceptable(quotes, trade.legs[i], trade.tradeDate.value) then None
    else
      var booked := trade.(legs := PricedLegs(trade.legs, quotes, trade.tradeDate.value), booking := Some(now));
      Some(if Booked(booked) then booked.(status := LIVE) else booked)
  }

  function PricedLegs(legs: seq<Leg>, quotes: Quotes, date: int): seq<Leg> {
    seq(|legs|, i requires 0 <= i < |legs| => legs[i].(executionPrice := AcceptedPrice(quotes, legs[i], date)))
  }

  predicate Acceptable(quotes: Quotes, leg: Leg, date: int) {
    leg.id != "" && BookingPrice(quotes, leg, date).Some? && BookingPrice(quotes, leg, date).value >= 0.0
  }

  function AcceptedPrice(quotes: Quotes, leg: Leg, date: int): real {
    var price := BookingPrice(quotes, leg, date);
    if price.Some? then price.value else 0.0
  }

  /** Booking a list of trades in order, stopping at the first rejection. */
  function BookAll(trades: Trades, ids: seq<string>, quotes: Quotes, now: string): (Trades, bool) {
    if ids == [] then (trades, true)
    else
      var (before, ok) := BookAll(trades, ids[..|ids| - 1], quotes, now);
      var id := ids[|ids| - 1];
      if !ok || id == "" || id !in before then (before, false)
      else
        var booked := BookOutcome(before[id], quotes, now);
        if booked.None? then (before, false) else (before[id := booked.value], true)
  }

  /** Booking keeps what a pending trade is: same legs but for prices, and live exactly when all are positive. */
  lemma BookedTrade(trade: Trade, quotes: Quotes, now: string)
    requires BookOutcome(trade, quotes, now).Some? && TradeSound(trade)
    ensures var after := BookOutcome(trade, quotes, now).value;
            && trade.status == PENDING && TradeSound(after) && after.status != EXPIRED
            && (after.status == LIVE <==> Booked(after))
            && |after.legs| == |trade.legs|
            && forall i :: 0 <= i < |trade.legs| ==>
                 after.legs[i] == trade.legs[i].(executionPrice := after.legs[i].executionPrice) && after.legs[i].executionPrice >= 0.0
  {
    CanonicalComparison(trade.status, PENDING);
    forall i | 0 <= i < |trade.legs|
      ensures Acceptable(quotes, trade.legs[i], trade.tradeDate.value)
    {
    }
  }

  /** A trade is booked exactly when it is pending and dated, has legs, and each is named, sized and quoted no negative
      unit value by the analytic pricer on the trade date; every leg is then booked at that value. */
  lemma BookedAtQuotes(trade: Trade, quotes: Quotes, now: string)
    ensures BookOutcome(trade, quotes, now).Some? <==>
              && trade.legs != [] && TradeStatusEquals(trade.status, PENDING) && trade.tradeDate.Some?
              && forall i :: 0 <= i < |trade.legs| ==> QuotedForBooking(trade.legs[i], quotes, trade.tradeDate.value)
    ensures BookOutcome(trade, quotes, now).Some? ==>
              var after := BookOutcome(trade, quotes, now).value;
              && after.booking == Some(now) && after.tradeDate == trade.tradeDate && after.portfolio == trade.portfolio
              && |after.legs| == |trade.legs|
              && forall i :: 0 <= i < |trade.legs| ==>
                   quotes(ANALYTIC, trade.legs[i], trade.tradeDate.value) == Priced(after.legs[i].executionPrice)
  {
    hide TradeStatusEquals, Booked;
    if trade.tradeDate.Some? {
      var date := trade.tradeDate.value;
      forall i | 0 <= i < |trade.legs|
        ensures Acceptable(quotes, trade.legs[i], date) <==> QuotedForBooking(trade.legs[i], quotes, date)
        ensures Acceptable(quotes, trade.legs[i], date) ==>
                  quotes(ANALYTIC, trade.legs[i], date) == Priced(AcceptedPrice(quotes, trade.legs[i], date))
      {
      }
      hide Acceptable, QuotedForBooking;
    }
  }

  predicate QuotedForBooking(leg: Leg, quotes: Quotes, date: int) {
    && leg.id != "" && leg.contractSize > 0.0 && leg.quantity > 0.0
    && var quote := quotes(ANALYTIC, leg, date);
    && quote.Priced? && quote.npv >= 0.0
  }

  // ---- Expiry ----

  /** The expiry query: an exact status match, and the latest of the known expiries before the date. */
  predicate Matured(trade: Trade, asOf: int, portfolio: Option<string>) {
    && trade.status == LIVE
    && (portfolio.Some? ==> trade.portfolio == portfolio.value)
    && AllPast(trade.legs, asOf)
  }

  /** Some leg has an expiry, and every leg that has one expired before the date. */
  predicate AllPast(legs: seq<Leg>, asOf: int) {
    && (exists i :: 0 <= i < |legs| && legs[i].expiry.Some?)
    && forall i :: 0 <= i < |legs| && legs[i].expiry.Some? ==> legs[i].expiry.value < asOf
  }

  /** A trade the rules take for live, and whose legs have all expired, expires exactly when its status is written in
      capitals: otherwise it stays live to the rules and invisible to the expiry query. */
  lemma LooselyLive(trade: Trade, asOf: int)
    requires TradeStatusEquals(trade.status, LIVE) && AllPast(trade.legs, asOf)
    ensures Expire(trade, asOf, None).status == EXPIRED <==> trade.status == LIVE
    ensures trade.status != LIVE ==> TradeStatusEquals(Expire(trade, asOf, None).status, LIVE)
  {
    assert NormalizeStatus(EXPIRED)[0] != NormalizeStatus(LIVE)[0];
  }

  function Expire(trade: Trade, asOf: int, portfolio: Option<string>): Trade {
    if Matured(trade, asOf, portfolio) then trade.(status := EXPIRED) else trade
  }

  function ExpireAll(trades: Trades, asOf: int, portfolio: Option<string>): Trades {
    map id | id in trades :: Expire(trades[id], asOf, portfolio)
  }

  /** A live trade stays live through the last day one of its legs is known to expire on, and expires the day after. */
  lemma ExpiresAfterLast(trade: Trade, last: int, asOf: int)
    requires trade.status == LIVE && exists i :: 0 <= i < |trade.legs| && trade.legs[i].expiry == Some(last)
    requires forall i :: 0 <= i < |trade.legs| && trade.legs[i].expiry.Some? ==> trade.legs[i].expiry.value <= last
    ensures Expire(trade, asOf, None).status == EXPIRED <==> asOf >= last + 1
    ensures asOf <= last ==> Expire(trade, asOf, None) == trade
  {
    var i :| 0 <= i < |trade.legs| && trade.legs[i].expiry == Some(last);
    assert AllPast(trade.legs, asOf) ==> trade.legs[i].expiry.value < asOf;
  }

  /** Expiring at two dates, in either order, is expiring at the later one. */
  lemma ExpireTwice(trades: Trades, a: int, b: int, portfolio: Option<string>)
    ensures ExpireAll(ExpireAll(trades, a, portfolio), b, portfolio) == ExpireAll(trades, Later(a, b), portfolio)
  {
    forall id | id in trades
      ensures Expire(Expire(trades[id], a, portfolio), b, portfolio) == Expire(trades[id], Later(a, b), portfolio)
    {
      ExpireOnce(trades[id], a, b, portfolio);
    }
  }

  lemma ExpireOnce(trade: Trade, a: int, b: int, portfolio: Option<string>)
    ensures Expire(Expire(trade, a, portfolio), b, portfolio) == Expire(trade, Later(a, b), portfolio)
  {
    if Matured(trade, Later(a, b), portfolio) {
      assert a >= b ==> Matured(trade, a, portfolio);
      assert b >= a ==> Matured(trade, b, portfolio);
    }
    if Matured(trade, a, portfolio) || Matured(trade, b, portfolio) {
      assert Matured(trade, Later(a, b), portfolio);
    }
  }

  // ---- Marks and the trades they belong to ----

  ghost predicate MarksLeg(trade: Trade, i: int, row: MtmRow) {
    && 0 <= i < |trade.legs| && trade.legs[i].id == row.leg
    && row.pnlInception == LegPnlInception(row.pvTotal, LegBookedMark(trade.legs[i]), LegCommissionOrZero(trade.legs[i]))
  }

  /** The mark is of a leg of a trade past booking, with its since-inception figure. */
  ghost predicate Grounded(trades: Trades, row: MtmRow) {
    row.trade in trades && trades[row.trade].status != PENDING && exists i :: MarksLeg(trades[row.trade], i, row)
  }

  ghost predicate MarksSound(trades: Trades, live: Table) {
    Keyed(live) && OneOfficial(live) && forall k :: k in live ==> Grounded(trades, live[k])
  }

  ghost predicate ChainedLeg(live: Table, leg: Leg, engine: string) {
    Chained(SeriesOf(live, leg.id, engine), LegBookedMark(leg))
  }

  /** Every leg's daily figures, under every engine, chain from its booked mark. */
  ghost predicate Chains(trades: Trades, live: Table) {
    forall id, i, engine :: id in trades && 0 <= i < |trades[id].legs| ==> ChainedLeg(live, trades[id].legs[i], engine)
  }

  ghost predicate UpTo(live: Table, asOf: int) {
    forall k :: k in live ==> k.asOf <= asOf
  }

  /** The row a mark-to-market run writes for a leg. */
  ghost predicate MarkFor(live: Table, row: MtmRow, leg: Leg) {
    && row.leg == leg.id
    && row.pnlDaily == row.pvTotal - Base(SeriesOf(live, leg.id, row.engine), row.asOf, LegBookedMark(leg))
    && row.pnlInception == LegPnlInception(row.pvTotal, LegBookedMark(leg), LegCommissionOrZero(leg))
  }

  lemma MarkKeepsSound(trades: Trades, live: Table, row: MtmRow, i: nat)
    requires MarksSound(trades, live) && row.trade in trades && trades[row.trade].status != PENDING
    requires i < |trades[row.trade].legs| && MarkFor(live, row, trades[row.trade].legs[i])
    ensures MarksSound(trades, Replace(live, row))
  {
    ReplaceKeepsIndexes(live, row);
    assert MarksLeg(trades[row.trade], i, row);
    var next := Replace(live, row);
    forall k | k in next ensures Grounded(trades, next[k]) {
      assert k != KeyOf(row) ==> next[k] == live[k];
    }
  }

  /** A mark dated no earlier than every other keeps every chain. */
  lemma MarkKeepsChains(trades: Trades, live: Table, row: MtmRow, i: nat)
    requires TradesSound(trades) && MarksSound(trades, live) && Chains(trades, live) && UpTo(live, row.asOf)
    requires row.trade in trades && i < |trades[row.trade].legs| && MarkFor(live, row, trades[row.trade].legs[i])
    ensures Chains(trades, Replace(live, row))
  {
    hide SeriesOf, Replace, Chained, LegBookedMark, Base;
    forall id, j, engine | id in trades && 0 <= j < |trades[id].legs|
      ensures ChainedLeg(Replace(live, row), trades[id].legs[j], engine)
    {
      assert ChainedLeg(live, trades[id].legs[j], engine);
      assert ChainedLeg(live, trades[row.trade].legs[i], engine);
      MarkKeepsChain(live, row, trades[row.trade].legs[i], trades[id].legs[j], engine,
                     LegBookedMark(trades[row.trade].legs[i]));
    }
  }

  lemma MarkKeepsChain(live: Table, row: MtmRow, own: Leg, leg: Leg, engine: string, booked: real)
    requires Keyed(live) && UpTo(live, row.asOf) && MarkFor(live, row, own) && booked == LegBookedMark(own)
    requires ChainedLeg(live, leg, engine) && (leg.id == own.id ==> leg == own)
    ensures ChainedLeg(Replace(live, row), leg, engine)
  {
    var series := SeriesOf(live, leg.id, engine);
    forall d | d in series ensures d <= row.asOf {
      SeriesHas(live, leg.id, engine, d);
    }
    if leg.id == row.leg && engine == row.engine {
      ReplaceWritesSeries(live, row);
      WriteInOrder(series, row.asOf, MarkOf(row), booked);
    } else {
      ReplaceKeepsSeries(live, row, leg.id, engine);
      DropLast(series, row.asOf, LegBookedMark(leg));
    }
  }

  /** A leg without marks has nothing to chain. */
  lemma UnmarkedChained(live: Table, leg: Leg, engine: string)
    requires forall k :: k in live ==> k.leg != leg.id
    ensures ChainedLeg(live, leg, engine)
  {
    assert SeriesOf(live, leg.id, engine) == map[];
  }

  /** A change of trades that leaves trades past booking as they are, but for expiry, and pending trades their
      leg ids, keeps the marks sound and chained. */
  lemma TradesMove(trades: Trades, next: Trades, live: Table)
    requires UniqueLegs(trades) && UniqueLegs(next) && MarksSound(trades, live)
    requires forall id :: id in trades ==> id in next
    requires forall id :: id in trades && trades[id].status != PENDING ==>
               next[id].legs == trades[id].legs && next[id].status != PENDING
    requires forall id :: id in trades && trades[id].status == PENDING ==>
               |next[id].legs| == |trades[id].legs| && forall i :: 0 <= i < |next[id].legs| ==> next[id].legs[i].id == trades[id].legs[i].id
    ensures MarksSound(next, live)
    ensures Chains(trades, live) ==> Chains(next, live)
  {
    hide LegBookedMark, LegCommissionOrZero, LegPnlInception;
    forall k | k in live ensures Grounded(next, live[k]) {
      var row := live[k];
      assert Grounded(trades, row);
      var i :| MarksLeg(trades[row.trade], i, row);
      assert MarksLeg(next[row.trade], i, row);
    }
    if Chains(trades, live) {
      forall id, i, engine | id in next && 0 <= i < |next[id].legs| ensures ChainedLeg(live, next[id].legs[i], engine) {
        LegStaysChained(trades, next, live, id, i, engine);
      }
    }
  }

  lemma LegStaysChained(trades: Trades, next: Trades, live: Table, id: string, i: nat, engine: string)
    requires UniqueLegs(trades) && UniqueLegs(next) && MarksSound(next, live) && Chains(trades, live) && MarksSound(trades, live)
    requires forall other :: other in trades ==> other in next
    requires id in next && i < |next[id].legs|
    requires id in trades && trades[id].status != PENDING ==> next[id].legs == trades[id].legs
    requires id in trades && trades[id].status == PENDING ==>
               |next[id].legs| == |trades[id].legs| && forall i :: 0 <= i < |next[id].legs| ==> next[id].legs[i].id == trades[id].legs[i].id
    requires forall other :: other in trades && trades[other].status != PENDING ==> next[other].legs == trades[other].legs
    ensures ChainedLeg(live, next[id].legs[i], engine)
  {
    hide ChainedLeg;
    var leg := next[id].legs[i];
    if id in trades && trades[id].status != PENDING {
      assert ChainedLeg(live, trades[id].legs[i], engine);
    } else {
      forall k | k in live ensures k.leg != leg.id {
        var row := live[k];
        assert Grounded(trades, row);
        var j :| MarksLeg(trades[row.trade], j, row);
        assert next[row.trade].legs[j].id == row.leg == k.leg;
      }
      UnmarkedChained(live, leg, engine);
    }
  }

  // ---- The ledger ----

  function UpdatesAt(trade: Trade, quotes: Quotes, date: int): seq<BookingUpdate> {
    seq(|trade.legs|, i requires 0 <= i < |trade.legs| =>
      BookingUpdate(trade.legs[i].id, AcceptedPrice(quotes, trade.legs[i], date)))
  }

  class Ledger {
    var trades: Trades
    const marks: Repository

    ghost predicate Sound()
      reads this, marks
    {
      TradesSound(trades) && MarksSound(trades, marks.live) && marks.Archived()
    }

    ghost predicate InChain()
      reads this, marks
    {
      Chains(trades, marks.live)
    }

    constructor ()
      ensures Sound() && InChain() && fresh(marks) && trades == map[] && marks.live == map[] && marks.archive == []
    {
      trades := map[];
      marks := new Repository();
    }

    /** A new trade enters pending whatever status it asked for; a known trade or a taken leg id is skipped. */
    method Import(id: string, trade: Trade) returns (ok: bool)
      requires Sound()
      modifies this`trades
      ensures Sound() && (old(InChain()) ==> InChain())
      ensures ok <==> Importable(old(trades), id, trade)
      ensures trades == if ok then old(trades)[id := trade.(status := PENDING)] else old(trades)
    {
      if !Importable(trades, id, trade) {
        return false;
      }
      ghost var before := trades;
      trades := trades[id := trade.(status := PENDING)];
      ImportKeepsUnique(before, id, trade);
      TradesMove(before, trades, marks.live);
      return true;
    }

    /** One leg's price, by trade and leg id; exactly one row must change. */
    method UpdateExecutionPriceForTrade(id: string, leg: string, price: real) returns (ok: bool)
      modifies this`trades
      ensures ok <==> id != "" && id in old(trades) && Bookable(old(trades)[id].legs, BookingUpdate(leg, price))
      ensures trades == if ok then
                          old(trades)[id := old(trades)[id].(legs := RepriceOne(old(trades)[id].legs, BookingUpdate(leg, price)))]
                        else old(trades)
    {
      if id == "" || leg == "" || price < 0.0 || id !in trades || !HasLeg(trades[id].legs, leg) {
        return false;
      }
      trades := trades[id := trades[id].(legs := RepriceOne(trades[id].legs, BookingUpdate(leg, price)))];
      return true;
    }

    method SetTradeStatus(id: string, status: string) returns (ok: bool)
      modifies this`trades
      ensures ok <==> id != "" && status != "" && id in old(trades)
      ensures trades == if ok then old(trades)[id := old(trades)[id].(status := status)] else old(trades)
    {
      if id == "" || status == "" || id !in trades {
        return false;
      }
      trades := trades[id := trades[id].(status := status)];
      return true;
    }

    /** All the updates and the timestamp, or nothing: a rejected update rolls the transaction back. */
    method ApplyTradeBooking(id: string, updates: seq<BookingUpdate>, now: string) returns (ok: bool)
      modifies this`trades
      ensures ok <==> id != "" && updates != [] && id in old(trades)
                      && AllBookable(old(trades)[id].legs, updates)
      ensures trades == if ok then
                          old(trades)[id := old(trades)[id].(legs := Repriced(old(trades)[id].legs, updates), booking := Some(now))]
                        else old(trades)
    {
      if id == "" || updates == [] {
        return false;
      }
      hide Repriced, Bookable, RepriceOne, WithLegs, AllBookable;
      var saved := trades;
      if id !in trades {
        var u := updates[0];
        var changed := UpdateExecutionPriceForTrade(id, u.leg, u.price);
        return false;
      }
      ghost var legs := trades[id].legs;
      LegsAgain(saved, id, legs, legs);
      NothingBookable(legs);
      assert updates[..0] == [];
      for k := 0 to |updates|
        invariant trades == WithLegs(saved, id, Repriced(legs, updates[..k]))
        invariant AllBookable(legs, updates[..k])
      {
        var u := updates[k];
        RepricedNext(legs, updates, k);
        BookableNext(legs, updates, k);
        LegsAgain(saved, id, Repriced(legs, updates[..k]), RepriceOne(Repriced(legs, updates[..k]), u));
        SameLegIds(legs, updates[..k], u);
        var changed := UpdateExecutionPriceForTrade(id, u.leg, u.price);
        if !changed {
          trades := saved;
          return false;
        }
      }
      assert updates[..|updates|] == updates;
      StampedLegs(saved, id, Repriced(legs, updates), now);
      trades := trades[id := trades[id].(booking := Some(now))];
      return true;
    }

    /** Prices a pending trade's legs on its trade date, or rejects it. */
    method PriceBundleForBooking(trade: Trade, quotes: Quotes, valuation: int)
      returns (ok: bool, updates: seq<BookingUpdate>)
      ensures ok <==> trade.tradeDate == Some(valuation)
                      && forall i :: 0 <= i < |trade.legs| ==> BookingPrice(quotes, trade.legs[i], valuation).Some?
      ensures ok ==> updates == UpdatesAt(trade, quotes, valuation)
    {
      updates := [];
      if trade.tradeDate != Some(valuation) {
        return false, [];
      }
      for i := 0 to |trade.legs|
        invariant updates == UpdatesAt(trade, quotes, valuation)[..i]
        invariant forall j :: 0 <= j < i ==> BookingPrice(quotes, trade.legs[j], valuation).Some?
      {
        var price := BookingPrice(quotes, trade.legs[i], valuation);
        if price.None? {
          return false, [];
        }
        updates := updates + [BookingUpdate(trade.legs[i].id, price.value)];
      }
      return true, updates;
    }

    /** Books one trade: priced, written in one transaction, live when every price is positive. */
    method BookTrade(id: string, quotes: Quotes, now: string) returns (ok: bool)
      requires TradesSound(trades)
      modifies this`trades
      ensures ok <==> id != "" && id in old(trades) && BookOutcome(old(trades)[id], quotes, now).Some?
      ensures trades == if ok then old(trades)[id := BookOutcome(old(trades)[id], quotes, now).value] else old(trades)
    {
      if id == "" || id !in trades {
        return false;
      }
      var trade := trades[id];
      if trade.legs == [] || !TradeStatusEquals(trade.status, PENDING) || trade.tradeDate.None? {
        return false;
      }
      var date := trade.tradeDate.value;
      var priced, updates := PriceBundleForBooking(trade, quotes, date);
      if !priced {
        NotAllPriced(trade, quotes, date);
        return false;
      }
      AllPriced(trades, id, quotes, date, now);
      ok := ApplyTradeBooking(id, updates, now);
      if !ok {
        return false;
      }
      var allPositive := true;
      for k := 0 to |updates|
        invariant allPositive <==> forall j :: 0 <= j < k ==> updates[j].price > 0.0
      {
        if updates[k].price <= 0.0 {
          allPositive := false;
          break;
        }
      }
      if allPositive {
        var promoted := SetTradeStatus(id, LIVE);
      }
    }

    /** Booking one trade keeps the ledger sound, and its chains. */
    method BookInLedger(id: string, quotes: Quotes, now: string) returns (ok: bool)
      requires Sound()
      modifies this`trades
      ensures Sound() && (old(InChain()) ==> InChain())
      ensures ok <==> id != "" && id in old(trades) && BookOutcome(old(trades)[id], quotes, now).Some?
      ensures trades == if ok then old(trades)[id := BookOutcome(old(trades)[id], quotes, now).value] else old(trades)
    {
      hide TradesSound, MarksSound, Chains, BookOutcome;
      ghost var before := trades;
      ok := BookTrade(id, quotes, now);
      if ok {
        KeepsUnder(before, trades, marks.live, id, quotes, now);
      }
    }

    method RunBookingWithTradeIds(ids: seq<string>, quotes: Quotes, now: string) returns (ok: bool)
      requires Sound()
      modifies this`trades
      ensures Sound() && (old(InChain()) ==> InChain())
      ensures trades == BookAll(old(trades), ids, quotes, now).0
      ensures ok <==> ids != [] && BookAll(old(trades), ids, quotes, now).1
    {
      hide Ledger.Sound, Ledger.InChain, BookOutcome, BookAll;
      BookNone(trades, quotes, now);
      if ids == [] {
        return false;
      }
      for k := 0 to |ids|
        invariant Sound() && (old(InChain()) ==> InChain())
        invariant trades == BookAll(old(trades), ids[..k], quotes, now).0 && BookAll(old(trades), ids[..k], quotes, now).1
      {
        BookOneMore(old(trades), ids, quotes, now, k);
        var booked := BookInLedger(ids[k], quotes, now);
        if !booked {
          StoppedAt(old(trades), ids, quotes, now, k);
          return false;
        }
      }
      assert ids[..|ids|] == ids;
      return true;
    }

    /** Expires every live trade whose legs have all matured before the date. */
    method ApplyTradeLifecycleAsOf(asOf: int, portfolio: Option<string>)
      requires Sound()
      modifies this`trades
      ensures Sound() && (old(InChain()) ==> InChain())
      ensures trades == ExpireAll(old(trades), asOf, portfolio)
    {
      hide TradesSound, MarksSound, Chains, Matured;
      ghost var before := trades;
      var matured := set id | id in trades.Keys && Matured(trades[id], asOf, portfolio);
      var rest := matured;
      while rest != {}
        invariant rest <= matured && trades.Keys == before.Keys
        invariant forall id :: id in before ==>
                    trades[id] == if id in matured && id !in rest then before[id].(status := EXPIRED) else before[id]
        decreases |rest|
      {
        var id :| id in rest;
        trades := trades[id := trades[id].(status := EXPIRED)];
        rest := rest - {id};
      }
      assert trades == ExpireAll(before, asOf, portfolio);
      ExpiryKeeps(before, marks.live, asOf, portfolio);
    }

    /** Prices a trade's legs under one engine and writes a mark for each. A comparison engine skips legs it
        does not support; the official one fails on them. */
    method BookNpvAndPersistMtmForBundle(id: string, engine: EngineRun, asOf: int, batch: string, persist: bool, quotes: Quotes)
      returns (ok: bool, total: real)
      requires Sound() && batch != "" && id in trades && trades[id].status != PENDING
      modifies marks
      ensures Sound()
      ensures marks.archive == BundleRows(old(marks.archive), id, trades[id].legs, engine, MarkRun(asOf, batch, persist, quotes),
                                          |trades[id].legs|)
      ensures old(InChain()) && UpTo(old(marks.live), asOf) ==> InChain() && UpTo(marks.live, asOf)
      ensures ok <==> BundleMarkable(id, trades[id].legs, engine, asOf, quotes, persist, |trades[id].legs|)
      ensures ok ==> total == TotalNpv(trades[id].legs, engine.name, asOf, quotes, |trades[id].legs|)
      ensures ok && persist ==> RowsTotal(marks.archive) == RowsTotal(old(marks.archive)) + total
      ensures ok ==> BundleMarked(marks.live, trades[id], engine, asOf, quotes, |trades[id].legs|, persist)
      ensures persist ==> OthersKept(old(marks.live), marks.live, trades[id], engine, asOf)
      ensures !persist ==> marks.live == old(marks.live)
    {
      hide TradesSound, MarksSound, Chains, UpTo, Repository.Archived, BundleMarked, OthersKept, RowsTotal, Fold, MarkRow, LegPvTotal;
      var trade := trades[id];
      ghost var run := MarkRun(asOf, batch, persist, quotes);
      total := 0.0;
      BundleUnmarked(marks.live, trade, engine, asOf, quotes, persist);
      for i := 0 to |trade.legs|
        invariant Sound()
        invariant old(InChain()) && UpTo(old(marks.live), asOf) ==> InChain() && UpTo(marks.live, asOf)
        invariant marks.archive == BundleRows(old(marks.archive), id, trade.legs, engine, run, i)
        invariant total == TotalNpv(trade.legs, engine.name, asOf, quotes, i)
        invariant BundleMarkable(id, trade.legs, engine, asOf, quotes, persist, i)
        invariant BundleMarked(marks.live, trade, engine, asOf, quotes, i, persist)
        invariant persist ==> OthersKept(old(marks.live), marks.live, trade, engine, asOf)
        invariant !persist ==> marks.live == old(marks.live)
      {
        var leg := trade.legs[i];
        if !Sized(leg) {
          BundleStops(old(marks.archive), id, trade.legs, engine, run, i);
          return false, 0.0;
        }
        match quotes(engine.name, leg, asOf) {
          case NoNpv =>
            BundleStops(old(marks.archive), id, trade.legs, engine, run, i);
            return false, 0.0;
          case Unsupported =>
            if engine.official {
              BundleStops(old(marks.archive), id, trade.legs, engine, run, i);
              return false, 0.0;
            }
            LegSkipped(marks.live, trade, engine, asOf, quotes, i, persist);
          case Priced(npv) =>
            var pv := LegPvTotal(leg, npv);
            total := total + pv;
            if persist {
              var written := PersistMark(id, i, engine, asOf, batch, quotes, npv);
              if !written {
                BundleStops(old(marks.archive), id, trade.legs, engine, run, i);
                return false, 0.0;
              }
            } else {
              LegSkipped(marks.live, trade, engine, asOf, quotes, i, persist);
            }
        }
      }
      ok := true;
      if persist {
        TotalIsOfRows(old(marks.archive), id, trade.legs, engine, run, |trade.legs|);
      }
    }

    /** One leg's mark: measured against the prior mark of the same engine, or the booked mark. */
    method PersistMark(id: string, i: nat, engine: EngineRun, asOf: int, batch: string, quotes: Quotes, npv: real)
      returns (ok: bool)
      requires Sound() && batch != "" && id in trades && trades[id].status != PENDING && i < |trades[id].legs|
      requires quotes(engine.name, trades[id].legs[i], asOf) == Priced(npv)
      requires BundleMarked(marks.live, trades[id], engine, asOf, quotes, i, true)
      modifies marks
      ensures Sound()
      ensures ok <==> id != "" && trades[id].legs[i].id != "" && engine.name != ""
      ensures marks.archive == if ok then
                old(marks.archive) + [MarkRow(Fold(old(marks.archive)), id, trades[id].legs[i], engine, asOf, batch, npv)]
              else old(marks.archive)
      ensures old(InChain()) && UpTo(old(marks.live), asOf) ==> InChain() && UpTo(marks.live, asOf)
      ensures ok ==> BundleMarked(marks.live, trades[id], engine, asOf, quotes, i + 1, true)
      ensures forall start: Table :: OthersKept(start, old(marks.live), trades[id], engine, asOf) ==>
                OthersKept(start, marks.live, trades[id], engine, asOf)
    {
      hide TradesSound, Chains, UpTo, BundleMarked, OthersKept, SeriesOf, LegPvTotal, LegBookedMark, LegPnlInception,
        LegCommissionOrZero, Fold, Replace;
      var leg := trades[id].legs[i];
      var pv := LegPvTotal(leg, npv);
      var booked := LegBookedMark(leg);
      var found, prior := marks.LookupPriorOfficialMark(leg.id, engine.name, asOf);
      if !found {
        return false;
      }
      var previous := if prior.Some? then prior.value.1 else booked;
      var row := MtmRow(asOf, id, leg.id, Some(batch), npv, pv, pv - previous,
                        LegPnlInception(pv, booked, LegCommissionOrZero(leg)), engine.name, engine.official);
      ghost var live := marks.live;
      assert row == MarkRow(live, id, leg, engine, asOf, batch, npv);
      ok := marks.Upsert(row);
      if ok {
        MarkKeepsSound(trades, live, row, i);
        MarkAdvances(trades, live, row, i);
        MarkWritten(trades, live, row, engine, quotes, i);
      }
    }

    /** A trade's marks under the official engine and, where marks are kept, the two comparison engines. */
    method MarkTrade(id: string, asOf: int, batch: string, persist: bool, quotes: Quotes) returns (ok: bool)
      requires Sound() && batch != "" && id in trades && trades[id].status != PENDING
      modifies marks
      ensures Sound()
      ensures marks.archive == EngineRows(old(marks.archive), id, trades[id].legs, MarkRun(asOf, batch, persist, quotes),
                                          |EnginesFor(persist)|)
      ensures old(InChain()) && UpTo(old(marks.live), asOf) ==> InChain() && UpTo(marks.live, asOf)
      ensures ok <==> TradeMarkable(id, trades[id].legs, asOf, quotes, persist)
      ensures ok && persist ==> OfficiallyMarked(marks.live, trades[id], asOf, quotes)
      ensures OtherLegsKept(old(marks.live), marks.live, trades[id])
      ensures !persist ==> marks.live == old(marks.live)
    {
      hide TradesSound, MarksSound, Chains, UpTo, Repository.Archived, BundleMarked, OthersKept, TotalNpv, RowsTotal, BundleRows,
        BundleMarkable, Fold;
      var engines := [EngineRun(ANALYTIC, true)];
      if persist {
        engines := engines + [EngineRun(BINOMIAL, false), EngineRun(MONTE_CARLO, false)];
      }
      assert engines == EnginesFor(persist);
      ghost var run := MarkRun(asOf, batch, persist, quotes);
      for i := 0 to |engines|
        invariant Sound()
        invariant old(InChain()) && UpTo(old(marks.live), asOf) ==> InChain() && UpTo(marks.live, asOf)
        invariant marks.archive == EngineRows(old(marks.archive), id, trades[id].legs, run, i)
        invariant EnginesMarkable(id, trades[id].legs, run, i)
        invariant i > 0 && persist ==> OfficiallyMarked(marks.live, trades[id], asOf, quotes)
        invariant OtherLegsKept(old(marks.live), marks.live, trades[id])
        invariant !persist ==> marks.live == old(marks.live)
      {
        ghost var live := marks.live;
        var booked, total := BookNpvAndPersistMtmForBundle(id, engines[i], asOf, batch, persist, quotes);
        if persist {
          LegsKept(old(marks.live), live, marks.live, trades[id], engines[i], asOf);
        }
        if !booked {
          EnginesStop(old(marks.archive), id, trades[id].legs, run, i + 1);
          return false;
        }
        if i > 0 {
          OfficialKept(live, marks.live, trades[id], engines[i], asOf, quotes);
        }
      }
      return true;
    }

    /** The live trades among those asked for, if all are known, have legs and have begun. */
    method SelectActive(ids: seq<string>, asOf: int) returns (ok: bool, active: seq<string>)
      requires TradesSound(trades)
      ensures ok <==> Markable(trades, ids, asOf)
      ensures ok ==> active == ActiveOf(trades, ids)
      ensures ok ==> forall id :: id in ids ==> id in trades && (trades[id].status == LIVE ==> id in active)
    {
      hide TradeStatusEquals, UniqueLegs, DatedBy, Booked;
      active := [];
      for k := 0 to |ids|
        invariant forall j :: 0 <= j < k ==> ids[j] in trades && trades[ids[j]].legs != []
        invariant active == ActiveOf(trades, ids[..k])
      {
        var id := ids[k];
        if id !in trades || trades[id].legs == [] {
          return false, [];
        }
        assert TradeSound(trades[id]);
        CanonicalComparison(trades[id].status, LIVE);
        assert ids[..k + 1][..k] == ids[..k];
        if TradeStatusEquals(trades[id].status, LIVE) {
          active := active + [id];
        }
      }
      assert ids[..|ids|] == ids;
      ActiveHas(trades, ids);
      if active == [] {
        return false, [];
      }
      for k := 0 to |active|
        invariant forall j :: 0 <= j < k ==> DatedBy(trades[active[j]], asOf)
      {
        assert TradeSound(trades[active[k]]);
        if !Booked(trades[active[k]]) {
          assert false;
        }
        if !DatedBy(trades[active[k]], asOf) {
          return false, [];
        }
      }
      assert active[0] in ids && trades[active[0]].status == LIVE;
      return true, active;
    }

    method MarkActive(active: seq<string>, asOf: int, batch: string, persist: bool, quotes: Quotes) returns (ok: bool)
      requires Sound() && batch != ""
      requires forall j :: 0 <= j < |active| ==> active[j] in trades && trades[active[j]].status == LIVE
      modifies marks
      ensures Sound()
      ensures old(InChain()) && UpTo(old(marks.live), asOf) ==> InChain() && UpTo(marks.live, asOf)
      ensures marks.archive == TradeRows(old(marks.archive), trades, active, MarkRun(asOf, batch, persist, quotes), |active|)
      ensures !persist ==> marks.live == old(marks.live)
      ensures ok <==> forall j :: 0 <= j < |active| ==> TradeMarkable(active[j], trades[active[j]].legs, asOf, quotes, persist)
      ensures ok && persist ==> forall j :: 0 <= j < |active| ==> OfficiallyMarked(marks.live, trades[active[j]], asOf, quotes)
    {
      hide TradesSound, MarksSound, Chains, UpTo, Repository.Archived, OfficiallyMarked, OtherLegsKept, EngineRows;
      ghost var run := MarkRun(asOf, batch, persist, quotes);
      for k := 0 to |active|
        invariant Sound()
        invariant old(InChain()) && UpTo(old(marks.live), asOf) ==> InChain() && UpTo(marks.live, asOf)
        invariant marks.archive == TradeRows(old(marks.archive), trades, active, run, k)
        invariant forall j :: 0 <= j < k ==> TradeMarkable(active[j], trades[active[j]].legs, asOf, quotes, persist)
        invariant persist ==> forall j :: 0 <= j < k ==> OfficiallyMarked(marks.live, trades[active[j]], asOf, quotes)
        invariant !persist ==> marks.live == old(marks.live)
      {
        ghost var live := marks.live;
        var marked := MarkTrade(active[k], asOf, batch, persist, quotes);
        if !marked {
          TradesStop(old(marks.archive), trades, active, run, k + 1);
          return false;
        }
        if persist {
          forall j | 0 <= j < k ensures OfficiallyMarked(marks.live, trades[active[j]], asOf, quotes) {
            if active[j] != active[k] {
              OtherTradeKept(trades, live, marks.live, active[j], active[k], asOf, quotes);
            }
          }
        }
      }
      return true;
    }

    /** A mark-to-market run: expiry first, then every live trade asked for, none before its trade date. */
    method RunWithTradeIds(ids: seq<string>, asOf: int, batch: string, persist: bool, quotes: Quotes) returns (ok: bool)
      requires Sound() && batch != ""
      modifies this`trades, marks
      ensures Sound()
      ensures old(InChain()) && UpTo(old(marks.live), asOf) ==> InChain() && UpTo(marks.live, asOf)
      ensures trades == if ids == [] then old(trades) else ExpireAll(old(trades), asOf, None)
      ensures ok <==> ids != [] && Markable(trades, ids, asOf) && AllMarkable(trades, ids, asOf, quotes, persist)
      ensures marks.archive == RunRows(old(marks.archive), trades, ids, MarkRun(asOf, batch, persist, quotes))
      ensures Appends(old(marks.archive), marks.archive, trades, ids, asOf)
      ensures RestKept(old(marks.live), marks.live, trades, ids, asOf)
      ensures !persist || !Markable(trades, ids, asOf) ==> marks.live == old(marks.live)
      ensures ok && persist ==> forall id :: id in ids && trades[id].status == LIVE ==>
                OfficiallyMarked(marks.live, trades[id], asOf, quotes)
    {
      hide TradesSound, MarksSound, Chains, UpTo, OfficiallyMarked, Matured, ExpireAll, Markable, TradeRows, Appends, RestKept;
      ghost var run, archive := MarkRun(asOf, batch, persist, quotes), marks.archive;
      if ids == [] {
        RunKeepsRest(archive, trades, ids, run);
        return false;
      }
      ApplyTradeLifecycleAsOf(asOf, None);
      RunKeepsRest(archive, trades, ids, run);
      var ready, active := SelectActive(ids, asOf);
      if !ready {
        return false;
      }
      ok := MarkActive(active, asOf, batch, persist, quotes);
      if ok && persist {
        forall id | id in ids && trades[id].status == LIVE ensures OfficiallyMarked(marks.live, trades[id], asOf, quotes) {
          var j :| 0 <= j < |active| && active[j] == id;
        }
      }
    }
  }

  const OFFICIAL := EngineRun(ANALYTIC, true)

  /** The trade has an official mark of the day for every leg, at the quoted price. */
  ghost predicate OfficiallyMarked(live: Table, trade: Trade, asOf: int, quotes: Quotes) {
    BundleMarked(live, trade, OFFICIAL, asOf, quotes, |trade.legs|, true)
  }

  predicate DatedBy(trade: Trade, asOf: int) {
    trade.tradeDate.Some? && trade.tradeDate.value <= asOf
  }

  function EnginesFor(persist: bool): seq<EngineRun> {
    [OFFICIAL] + if persist then [EngineRun(BINOMIAL, false), EngineRun(MONTE_CARLO, false)] else []
  }

  /** The legs are sized and priced, or skipped under a comparison engine, and their marks can be stored. */
  predicate BundleMarkable(id: string, legs: seq<Leg>, engine: EngineRun, asOf: int, quotes: Quotes, persist: bool, count: nat) {
    forall i | 0 <= i < count && i < |legs| :: LegMarkable(id, legs[i], engine, asOf, quotes, persist)
  }

  predicate LegMarkable(id: string, leg: Leg, engine: EngineRun, asOf: int, quotes: Quotes, persist: bool) {
    Sized(leg) &&
    match quotes(engine.name, leg, asOf)
    case Priced(_) => persist ==> id != "" && leg.id != "" && engine.name != ""
    case Unsupported => !engine.official
    case NoNpv => false
  }

  predicate TradeMarkable(id: string, legs: seq<Leg>, asOf: int, quotes: Quotes, persist: bool) {
    forall i :: 0 <= i < |EnginesFor(persist)| ==>
      BundleMarkable(id, legs, EnginesFor(persist)[i], asOf, quotes, persist, |legs|)
  }

  // ---- The rows a run writes ----

  /** What a mark-to-market run is given: its date, its batch, whether marks are kept, and its prices. */
  datatype MarkRun = MarkRun(asOf: int, batch: string, persist: bool, quotes: Quotes)

  /** A leg's row, measured against the prior mark of the same engine in the table, or the booked mark. */
  ghost function MarkRow(live: Table, id: string, leg: Leg, engine: EngineRun, asOf: int, batch: string, npv: real): MtmRow {
    var pv, booked := LegPvTotal(leg, npv), LegBookedMark(leg);
    MtmRow(asOf, id, leg.id, Some(batch), npv, pv, pv - Base(SeriesOf(live, leg.id, engine.name), asOf, booked),
           LegPnlInception(pv, booked, LegCommissionOrZero(leg)), engine.name, engine.official)
  }

  /** The archive after the first `count` legs of a trade under an engine; the first leg that cannot be marked ends the run. */
  ghost function BundleRows(archive: seq<MtmRow>, id: string, legs: seq<Leg>, engine: EngineRun, run: MarkRun, count: nat): seq<MtmRow>
    requires count <= |legs|
  {
    if count == 0 then archive
    else
      var before := BundleRows(archive, id, legs, engine, run, count - 1);
      var outcome := run.quotes(engine.name, legs[count - 1], run.asOf);
      if BundleMarkable(id, legs, engine, run.asOf, run.quotes, run.persist, count) && run.persist && outcome.Priced?
      then before + [MarkRow(Fold(before), id, legs[count - 1], engine, run.asOf, run.batch, outcome.npv)]
      else before
  }

  lemma {:induction false} BundleStops(archive: seq<MtmRow>, id: string, legs: seq<Leg>, engine: EngineRun, run: MarkRun, i: nat)
    requires i < |legs| && !LegMarkable(id, legs[i], engine, run.asOf, run.quotes, run.persist)
    ensures BundleRows(archive, id, legs, engine, run, |legs|) == BundleRows(archive, id, legs, engine, run, i)
  {
    var count := i;
    while count < |legs|
      invariant i <= count <= |legs| && BundleRows(archive, id, legs, engine, run, count) == BundleRows(archive, id, legs, engine, run, i)
    {
      count := count + 1;
      assert !BundleMarkable(id, legs, engine, run.asOf, run.quotes, run.persist, count);
    }
  }

  predicate EnginesMarkable(id: string, legs: seq<Leg>, run: MarkRun, count: nat) {
    forall j :: 0 <= j < count && j < |EnginesFor(run.persist)| ==>
      BundleMarkable(id, legs, EnginesFor(run.persist)[j], run.asOf, run.quotes, run.persist, |legs|)
  }

  /** The archive after a trade's first `count` engines. */
  ghost function EngineRows(archive: seq<MtmRow>, id: string, legs: seq<Leg>, run: MarkRun, count: nat): seq<MtmRow>
    requires count <= |EnginesFor(run.persist)|
  {
    if count == 0 then archive
    else
      var before := EngineRows(archive, id, legs, run, count - 1);
      if EnginesMarkable(id, legs, run, count - 1)
      then BundleRows(before, id, legs, EnginesFor(run.persist)[count - 1], run, |legs|)
      else before
  }

  lemma {:induction false} EnginesStop(archive: seq<MtmRow>, id: string, legs: seq<Leg>, run: MarkRun, i: nat)
    requires i <= |EnginesFor(run.persist)| && !EnginesMarkable(id, legs, run, i)
    ensures EngineRows(archive, id, legs, run, |EnginesFor(run.persist)|) == EngineRows(archive, id, legs, run, i)
  {
    hide BundleMarkable, BundleRows;
    var count := i;
    while count < |EnginesFor(run.persist)|
      invariant i <= count <= |EnginesFor(run.persist)| && !EnginesMarkable(id, legs, run, count)
      invariant EngineRows(archive, id, legs, run, count) == EngineRows(archive, id, legs, run, i)
    {
      count := count + 1;
    }
  }

  predicate TradesMarkable(trades: Trades, active: seq<string>, run: MarkRun, count: nat) {
    forall j :: 0 <= j < count && j < |active| && active[j] in trades ==>
      TradeMarkable(active[j], trades[active[j]].legs, run.asOf, run.quotes, run.persist)
  }

  /** The archive after the first `count` trades of a run. */
  ghost function TradeRows(archive: seq<MtmRow>, trades: Trades, active: seq<string>, run: MarkRun, count: nat): seq<MtmRow>
    requires count <= |active| && forall j :: 0 <= j < |active| ==> active[j] in trades
  {
    if count == 0 then archive
    else
      var before := TradeRows(archive, trades, active, run, count - 1);
      if TradesMarkable(trades, active, run, count - 1)
      then EngineRows(before, active[count - 1], trades[active[count - 1]].legs, run, |EnginesFor(run.persist)|)
      else before
  }

  lemma {:induction false} TradesStop(archive: seq<MtmRow>, trades: Trades, active: seq<string>, run: MarkRun, i: nat)
    requires i <= |active| && (forall j :: 0 <= j < |active| ==> active[j] in trades) && !TradesMarkable(trades, active, run, i)
    ensures TradeRows(archive, trades, active, run, |active|) == TradeRows(archive, trades, active, run, i)
  {
    hide TradeMarkable, EngineRows;
    var count := i;
    while count < |active|
      invariant i <= count <= |active| && !TradesMarkable(trades, active, run, count)
      invariant TradeRows(archive, trades, active, run, count) == TradeRows(archive, trades, active, run, i)
    {
      count := count + 1;
    }
  }

  /** The live trades among those asked for, in the order asked. */
  function ActiveOf(trades: Trades, ids: seq<string>): (active: seq<string>)
    ensures forall j :: 0 <= j < |active| ==> active[j] in ids && active[j] in trades && trades[active[j]].status == LIVE
  {
    if ids == [] then []
    else
      var id := ids[|ids| - 1];
      ActiveOf(trades, ids[..|ids| - 1]) + if id in trades && trades[id].status == LIVE then [id] else []
  }

  lemma {:induction false} ActiveHas(trades: Trades, ids: seq<string>)
    ensures forall id :: id in ids && id in trades && trades[id].status == LIVE ==> id in ActiveOf(trades, ids)
  {
    if ids != [] {
      var earlier := ids[..|ids| - 1];
      ActiveHas(trades, earlier);
      assert ids == earlier + [ids[|ids| - 1]];
    }
  }

  /** The archive after a mark-to-market run on trades whose expiries have been applied. */
  ghost function RunRows(archive: seq<MtmRow>, trades: Trades, ids: seq<string>, run: MarkRun): seq<MtmRow> {
    if ids == [] || !Markable(trades, ids, run.asOf) then archive
    else TradeRows(archive, trades, ActiveOf(trades, ids), run, |ActiveOf(trades, ids)|)
  }

  /** The archive only grows, by rows of the day for legs of trades asked for. */
  ghost predicate Appends(before: seq<MtmRow>, after: seq<MtmRow>, trades: Trades, ids: seq<string>, asOf: int) {
    before <= after && forall i :: |before| <= i < |after| ==> AskedFor(after[i], trades, ids, asOf)
  }

  ghost predicate AskedFor(row: MtmRow, trades: Trades, ids: seq<string>, asOf: int) {
    row.asOf == asOf && row.trade in ids && row.trade in trades && HasLeg(trades[row.trade].legs, row.leg)
  }

  lemma AppendsTogether(a: seq<MtmRow>, b: seq<MtmRow>, c: seq<MtmRow>, trades: Trades, ids: seq<string>, asOf: int)
    requires Appends(a, b, trades, ids, asOf) && Appends(b, c, trades, ids, asOf)
    ensures Appends(a, c, trades, ids, asOf)
  {
    hide AskedFor;
    forall i | |a| <= i < |c| ensures AskedFor(c[i], trades, ids, asOf) {
      assert i < |b| ==> c[i] == b[i];
    }
  }

  lemma {:induction false} BundleAppends(archive: seq<MtmRow>, id: string, engine: EngineRun, run: MarkRun, count: nat,
                                         trades: Trades, ids: seq<string>)
    requires id in trades && id in ids && count <= |trades[id].legs|
    ensures Appends(archive, BundleRows(archive, id, trades[id].legs, engine, run, count), trades, ids, run.asOf)
  {
    hide BundleMarkable, Fold;
    if count > 0 {
      BundleAppends(archive, id, engine, run, count - 1, trades, ids);
      var before, leg := BundleRows(archive, id, trades[id].legs, engine, run, count - 1), trades[id].legs[count - 1];
      assert HasLeg(trades[id].legs, leg.id);
      hide HasLeg;
      var outcome := run.quotes(engine.name, leg, run.asOf);
      if outcome.Priced? {
        MarkRowFields(Fold(before), id, leg, engine, run.asOf, run.batch, outcome.npv);
      }
      hide MarkRow;
    }
  }

  lemma MarkRowFields(live: Table, id: string, leg: Leg, engine: EngineRun, asOf: int, batch: string, npv: real)
    ensures var row := MarkRow(live, id, leg, engine, asOf, batch, npv);
            && row.asOf == asOf && row.trade == id && row.leg == leg.id && row.batch == Some(batch)
            && row.engine == engine.name && row.official == engine.official
            && row.pvUnit == npv && row.pvTotal == LegPvTotal(leg, npv)
  {
    hide LegPvTotal, LegBookedMark, SeriesOf;
  }

  /** A mark's since-inception figure is the leg's total at the move of its unit value from the booked price, less commission. */
  lemma InceptionIsMove(live: Table, id: string, leg: Leg, engine: EngineRun, asOf: int, batch: string, npv: real)
    ensures MarkRow(live, id, leg, engine, asOf, batch, npv).pnlInception
         == LegPvTotal(leg, npv - leg.executionPrice) - match leg.commission { case Some(paid) => paid case None => 0.0 }
  {
    hide SignedTotal, SeriesOf;
    TotalIsLinear(leg.direction, leg.quantity, leg.contractSize, npv, 1.0, -1.0, leg.executionPrice);
  }

  function RowsTotal(rows: seq<MtmRow>): real {
    if rows == [] then 0.0 else RowsTotal(rows[..|rows| - 1]) + rows[|rows| - 1].pvTotal
  }

  /** A trade's total under an engine is the sum of the marks written for it. */
  lemma {:induction false} TotalIsOfRows(archive: seq<MtmRow>, id: string, legs: seq<Leg>, engine: EngineRun, run: MarkRun, count: nat)
    requires count <= |legs| && run.persist && BundleMarkable(id, legs, engine, run.asOf, run.quotes, run.persist, count)
    ensures RowsTotal(BundleRows(archive, id, legs, engine, run, count))
         == RowsTotal(archive) + TotalNpv(legs, engine.name, run.asOf, run.quotes, count)
  {
    hide LegPvTotal, LegMarkable, MarkRow, Fold, RowsTotal;
    if count > 0 {
      TotalIsOfRows(archive, id, legs, engine, run, count - 1);
      var before := BundleRows(archive, id, legs, engine, run, count - 1);
      match run.quotes(engine.name, legs[count - 1], run.asOf)
      case Priced(npv) =>
        RowAdds(before, id, legs[count - 1], engine, run, npv);
      case _ =>
    }
  }

  lemma RowAdds(before: seq<MtmRow>, id: string, leg: Leg, engine: EngineRun, run: MarkRun, npv: real)
    ensures RowsTotal(before + [MarkRow(Fold(before), id, leg, engine, run.asOf, run.batch, npv)])
         == RowsTotal(before) + LegPvTotal(leg, npv)
  {
    hide LegPvTotal, LegBookedMark, SeriesOf, Fold;
    var row := MarkRow(Fold(before), id, leg, engine, run.asOf, run.batch, npv);
    assert (before + [row])[..|before|] == before;
  }

  lemma {:induction false} EnginesAppend(archive: seq<MtmRow>, id: string, run: MarkRun, count: nat, trades: Trades, ids: seq<string>)
    requires id in trades && id in ids && count <= |EnginesFor(run.persist)|
    ensures Appends(archive, EngineRows(archive, id, trades[id].legs, run, count), trades, ids, run.asOf)
  {
    hide EnginesMarkable, BundleRows, AskedFor;
    if count > 0 {
      EnginesAppend(archive, id, run, count - 1, trades, ids);
      var before := EngineRows(archive, id, trades[id].legs, run, count - 1);
      BundleAppends(before, id, EnginesFor(run.persist)[count - 1], run, |trades[id].legs|, trades, ids);
      if EnginesMarkable(id, trades[id].legs, run, count - 1) {
        AppendsTogether(archive, before, EngineRows(archive, id, trades[id].legs, run, count), trades, ids, run.asOf);
      }
    }
  }

  lemma {:induction false} TradesAppend(archive: seq<MtmRow>, trades: Trades, active: seq<string>, run: MarkRun, count: nat,
                                        ids: seq<string>)
    requires count <= |active| && forall j :: 0 <= j < |active| ==> active[j] in trades && active[j] in ids
    ensures Appends(archive, TradeRows(archive, trades, active, run, count), trades, ids, run.asOf)
  {
    hide TradesMarkable, EngineRows, AskedFor;
    if count > 0 {
      TradesAppend(archive, trades, active, run, count - 1, ids);
      var before := TradeRows(archive, trades, active, run, count - 1);
      EnginesAppend(before, active[count - 1], run, |EnginesFor(run.persist)|, trades, ids);
      if TradesMarkable(trades, active, run, count - 1) {
        AppendsTogether(archive, before, TradeRows(archive, trades, active, run, count), trades, ids, run.asOf);
      }
    }
  }

  /** Marks of other days, and of legs of trades not asked for, are kept. */
  ghost predicate RestKept(before: Table, after: Table, trades: Trades, ids: seq<string>, asOf: int) {
    forall k :: k in before && Unasked(k, trades, ids, asOf) ==> k in after && after[k] == before[k]
  }

  ghost predicate Unasked(k: Key, trades: Trades, ids: seq<string>, asOf: int) {
    k.asOf != asOf || forall id :: id in ids && id in trades ==> !HasLeg(trades[id].legs, k.leg)
  }

  lemma {:induction false} AppendsKeepsRest(before: seq<MtmRow>, after: seq<MtmRow>, trades: Trades, ids: seq<string>, asOf: int)
    requires Appends(before, after, trades, ids, asOf)
    ensures RestKept(Fold(before), Fold(after), trades, ids, asOf)
    decreases |after|
  {
    if |before| < |after| {
      var n := |after| - 1;
      var earlier, row := after[..n], after[n];
      AppendsKeepsRest(before, earlier, trades, ids, asOf);
      FoldKeepsIndexes(earlier);
      assert AskedFor(row, trades, ids, asOf);
      hide HasLeg;
      forall k | k in Fold(before) && Unasked(k, trades, ids, asOf)
        ensures k in Fold(after) && Fold(after)[k] == Fold(before)[k]
      {
        assert KeyOf(Fold(earlier)[k]) == k;
        assert !Clash(Fold(earlier)[k], row);
      }
    } else {
      assert before == after;
    }
  }

  /** A run's rows are of its day and of trades asked for, and disturb no other mark. */
  lemma RunKeepsRest(archive: seq<MtmRow>, trades: Trades, ids: seq<string>, run: MarkRun)
    ensures Appends(archive, RunRows(archive, trades, ids, run), trades, ids, run.asOf)
    ensures RestKept(Fold(archive), Fold(RunRows(archive, trades, ids, run)), trades, ids, run.asOf)
  {
    hide TradeRows, Markable, Fold, RestKept;
    TradesAppend(archive, trades, ActiveOf(trades, ids), run, |ActiveOf(trades, ids)|, ids);
    AppendsKeepsRest(archive, RunRows(archive, trades, ids, run), trades, ids, run.asOf);
  }

  /** Every live trade asked for can be marked under every engine of the run. */
  ghost predicate AllMarkable(trades: Trades, ids: seq<string>, asOf: int, quotes: Quotes, persist: bool)
    requires forall id :: id in ids ==> id in trades
  {
    forall id :: id in ids && trades[id].status == LIVE ==> TradeMarkable(id, trades[id].legs, asOf, quotes, persist)
  }

  /** Every trade asked for is known and has legs, some are live, and those have begun. */
  ghost predicate Markable(trades: Trades, ids: seq<string>, asOf: int) {
    && (forall id :: id in ids ==> id in trades && trades[id].legs != [])
    && (exists id :: id in ids && trades[id].status == LIVE)
    && (forall id :: id in ids && trades[id].status == LIVE ==> DatedBy(trades[id], asOf))
  }

  ghost predicate OtherLegsKept(before: Table, after: Table, trade: Trade) {
    forall k :: k in before && !HasLeg(trade.legs, k.leg) ==> k in after && after[k] == before[k]
  }

  lemma LegsKept(start: Table, before: Table, after: Table, trade: Trade, engine: EngineRun, asOf: int)
    requires OtherLegsKept(start, before, trade) && OthersKept(before, after, trade, engine, asOf)
    ensures OtherLegsKept(start, after, trade)
  {
  }

  lemma OfficialKept(before: Table, after: Table, trade: Trade, engine: EngineRun, asOf: int, quotes: Quotes)
    requires OthersKept(before, after, trade, engine, asOf) && !engine.official && engine.name != ANALYTIC
    requires OfficiallyMarked(before, trade, asOf, quotes)
    ensures OfficiallyMarked(after, trade, asOf, quotes)
  {
    hide LegPvTotal;
  }

  lemma OtherTradeKept(trades: Trades, before: Table, after: Table, id: string, marked: string, asOf: int, quotes: Quotes)
    requires TradesSound(trades) && id in trades && marked in trades && id != marked
    requires OtherLegsKept(before, after, trades[marked]) && OfficiallyMarked(before, trades[id], asOf, quotes)
    ensures OfficiallyMarked(after, trades[id], asOf, quotes)
  {
    hide LegPvTotal;
    var trade := trades[id];
    forall i | 0 <= i < |trade.legs| ensures !HasLeg(trades[marked].legs, trade.legs[i].id) {
      assert forall j :: 0 <= j < |trades[marked].legs| ==> trades[marked].legs[j].id != trades[id].legs[i].id;
    }
  }

  datatype EngineRun = EngineRun(name: string, official: bool)

  function TotalNpv(legs: seq<Leg>, engine: string, asOf: int, quotes: Quotes, count: nat): real
    requires count <= |legs|
  {
    if count == 0 then 0.0
    else
      TotalNpv(legs, engine, asOf, quotes, count - 1)
      + match quotes(engine, legs[count - 1], asOf)
        case Priced(npv) => LegPvTotal(legs[count - 1], npv)
        case _ => 0.0
  }

  /** A leg's mark of the day is in the table, at the quoted price. */
  ghost predicate LegMarked(live: Table, leg: Leg, engine: EngineRun, asOf: int, npv: real) {
    var k := Key(leg.id, asOf, engine.name);
    k in live && live[k].pvTotal == LegPvTotal(leg, npv) && live[k].official == engine.official
  }

  /** The first `count` legs are priced, and marked where marks are kept; a comparison engine may skip some. */
  ghost predicate BundleMarked(live: Table, trade: Trade, engine: EngineRun, asOf: int, quotes: Quotes, count: nat, persist: bool) {
    forall i | 0 <= i < count && i < |trade.legs| ::
      match quotes(engine.name, trade.legs[i], asOf)
      case Priced(npv) => persist ==> LegMarked(live, trade.legs[i], engine, asOf, npv)
      case Unsupported => !engine.official
      case NoNpv => false
  }

  /** Writing a trade's marks leaves alone every other leg and day, and other engines unless official. */
  ghost predicate OthersKept(before: Table, after: Table, trade: Trade, engine: EngineRun, asOf: int) {
    forall k :: k in before && (k.asOf != asOf || !HasLeg(trade.legs, k.leg) || (!engine.official && k.engine != engine.name)) ==>
      k in after && after[k] == before[k]
  }

  lemma BundleUnmarked(live: Table, trade: Trade, engine: EngineRun, asOf: int, quotes: Quotes, persist: bool)
    ensures BundleMarked(live, trade, engine, asOf, quotes, 0, persist)
    ensures OthersKept(live, live, trade, engine, asOf)
  {
  }

  lemma LegSkipped(live: Table, trade: Trade, engine: EngineRun, asOf: int, quotes: Quotes, i: nat, persist: bool)
    requires i < |trade.legs| && BundleMarked(live, trade, engine, asOf, quotes, i, persist)
    requires var outcome := quotes(engine.name, trade.legs[i], asOf);
             (outcome == Unsupported && !engine.official) || (outcome.Priced? && !persist)
    ensures BundleMarked(live, trade, engine, asOf, quotes, i + 1, persist)
  {
  }

  lemma MarkAdvances(trades: Trades, live: Table, row: MtmRow, i: nat)
    requires TradesSound(trades) && MarksSound(trades, live)
    requires row.trade in trades && i < |trades[row.trade].legs| && MarkFor(live, row, trades[row.trade].legs[i])
    ensures Chains(trades, live) && UpTo(live, row.asOf) ==> Chains(trades, Replace(live, row)) && UpTo(Replace(live, row), row.asOf)
  {
    if Chains(trades, live) && UpTo(live, row.asOf) {
      MarkKeepsChains(trades, live, row, i);
    }
  }

  lemma MarkWritten(trades: Trades, live: Table, row: MtmRow, engine: EngineRun, quotes: Quotes, i: nat)
    requires TradesSound(trades) && MarksSound(trades, live) && row.trade in trades && i < |trades[row.trade].legs|
    requires row.leg == trades[row.trade].legs[i].id && row.engine == engine.name && row.official == engine.official
    requires quotes(engine.name, trades[row.trade].legs[i], row.asOf) == Priced(row.pvUnit)
    requires row.pvTotal == LegPvTotal(trades[row.trade].legs[i], row.pvUnit)
    requires BundleMarked(live, trades[row.trade], engine, row.asOf, quotes, i, true)
    ensures BundleMarked(Replace(live, row), trades[row.trade], engine, row.asOf, quotes, i + 1, true)
    ensures forall start: Table :: OthersKept(start, live, trades[row.trade], engine, row.asOf) ==>
              OthersKept(start, Replace(live, row), trades[row.trade], engine, row.asOf)
  {
    hide LegPvTotal;
    var trade := trades[row.trade];
    assert HasLeg(trade.legs, row.leg);
    forall j | 0 <= j < i ensures trade.legs[j].id != row.leg {
      assert trades[row.trade].legs[j].id == trades[row.trade].legs[i].id ==> j == i;
    }
  }

  lemma ExpiryKeeps(trades: Trades, live: Table, asOf: int, portfolio: Option<string>)
    requires TradesSound(trades) && MarksSound(trades, live)
    ensures var next := ExpireAll(trades, asOf, portfolio);
            TradesSound(next) && MarksSound(next, live) && (Chains(trades, live) ==> Chains(next, live))
  {
    ExpiryMoves(trades, asOf, portfolio);
    hide MarksSound, Chains;
    TradesMove(trades, ExpireAll(trades, asOf, portfolio), live);
  }

  lemma ExpiryMoves(trades: Trades, asOf: int, portfolio: Option<string>)
    requires TradesSound(trades)
    ensures TradesSound(ExpireAll(trades, asOf, portfolio))
  {
    forall id | id in trades ensures TradeSound(Expire(trades[id], asOf, portfolio)) {
      assert TradeSound(trades[id]);
    }
  }

  lemma NotAllPriced(trade: Trade, quotes: Quotes, date: int)
    requires trade.tradeDate == Some(date) && trade.legs != [] && TradeStatusEquals(trade.status, PENDING)
    requires exists i :: 0 <= i < |trade.legs| && BookingPrice(quotes, trade.legs[i], date).None?
    ensures forall now :: BookOutcome(trade, quotes, now).None?
  {
    var i :| 0 <= i < |trade.legs| && BookingPrice(quotes, trade.legs[i], date).None?;
    assert !Acceptable(quotes, trade.legs[i], date);
  }

  /** The transaction's verdict and result for a trade whose legs are all priced. */
  lemma AllPriced(trades: Trades, id: string, quotes: Quotes, date: int, now: string)
    requires UniqueLegs(trades) && id in trades && trades[id].tradeDate == Some(date)
    requires trades[id].legs != [] && TradeStatusEquals(trades[id].status, PENDING)
    requires forall i :: 0 <= i < |trades[id].legs| ==> BookingPrice(quotes, trades[id].legs[i], date).Some?
    ensures var trade, updates := trades[id], UpdatesAt(trades[id], quotes, date);
            && (BookOutcome(trade, quotes, now).Some? <==> forall u :: u in updates ==> Bookable(trade.legs, u))
            && (BookOutcome(trade, quotes, now).Some? ==>
                  var booked := trade.(legs := Repriced(trade.legs, updates), booking := Some(now));
                  BookOutcome(trade, quotes, now).value == if Booked(booked) then booked.(status := LIVE) else booked)
            && (forall i :: 0 <= i < |trade.legs| ==> Repriced(trade.legs, updates)[i].executionPrice == updates[i].price)
  {
    hide NormalizeStatus, BookingPrice, TradeStatusEquals, Booked;
    var trade, updates := trades[id], UpdatesAt(trades[id], quotes, date);
    forall i | 0 <= i < |trade.legs|
      ensures Acceptable(quotes, trade.legs[i], date) <==> Bookable(trade.legs, updates[i])
      ensures Repriced(trade.legs, updates)[i] == trade.legs[i].(executionPrice := updates[i].price)
    {
      assert updates[i].leg == trade.legs[i].id && HasLeg(trade.legs, updates[i].leg);
      RepricedEach(trade.legs, updates, i);
    }
    if BookOutcome(trade, quotes, now).Some? {
      forall u | u in updates ensures Bookable(trade.legs, u) {
        var i :| 0 <= i < |updates| && updates[i] == u;
        assert Acceptable(quotes, trade.legs[i], date);
      }
    } else {
      var i :| 0 <= i < |trade.legs| && !Acceptable(quotes, trade.legs[i], date);
      assert updates[i] in updates && !Bookable(trade.legs, updates[i]);
    }
    assert BookOutcome(trade, quotes, now).Some? ==>
      BookOutcome(trade, quotes, now).value.legs == Repriced(trade.legs, updates);
  }

  lemma BookNone(trades: Trades, quotes: Quotes, now: string)
    ensures forall ids: seq<string> :: |ids| == 0 ==> BookAll(trades, ids, quotes, now) == (trades, true)
  {
  }

  lemma BookOneMore(trades: Trades, ids: seq<string>, quotes: Quotes, now: string, k: nat)
    requires k < |ids| && BookAll(trades, ids[..k], quotes, now).1
    ensures var before := BookAll(trades, ids[..k], quotes, now).0;
            BookAll(trades, ids[..k + 1], quotes, now)
            == if ids[k] != "" && ids[k] in before && BookOutcome(before[ids[k]], quotes, now).Some?
               then (before[ids[k] := BookOutcome(before[ids[k]], quotes, now).value], true)
               else (before, false)
  {
    hide BookOutcome;
    assert ids[..k + 1][..k] == ids[..k];
  }

  lemma KeepsUnder(trades: Trades, next: Trades, live: Table, id: string, quotes: Quotes, now: string)
    requires TradesSound(trades) && MarksSound(trades, live) && id in trades && BookOutcome(trades[id], quotes, now).Some?
    requires next == trades[id := BookOutcome(trades[id], quotes, now).value]
    ensures TradesSound(next) && MarksSound(next, live) && (Chains(trades, live) ==> Chains(next, live))
  {
    BookingMoves(trades, id, quotes, now);
    TradesMove(trades, next, live);
  }

  lemma {:induction false} StoppedAt(trades: Trades, ids: seq<string>, quotes: Quotes, now: string, k: nat)
    requires k < |ids| && BookAll(trades, ids[..k], quotes, now).1
    requires var before := BookAll(trades, ids[..k], quotes, now).0;
             ids[k] == "" || ids[k] !in before || BookOutcome(before[ids[k]], quotes, now).None?
    ensures BookAll(trades, ids, quotes, now) == (BookAll(trades, ids[..k], quotes, now).0, false)
    decreases |ids|
  {
    if k + 1 < |ids| {
      var shorter := ids[..|ids| - 1];
      assert shorter[..k] == ids[..k];
      StoppedAt(trades, shorter, quotes, now, k);
    } else {
      assert ids[..|ids| - 1] == ids[..k];
    }
  }

  /** Booking a list of different trades books each as on its own up to the first that is unnamed, unknown or rejected, and
      leaves the rest; it succeeds exactly when there is no such trade. */
  lemma {:induction false} BookAllIsEach(trades: Trades, ids: seq<string>, quotes: Quotes, now: string) returns (k: nat)
    requires AllDiffer(ids)
    ensures k <= |ids| && BookedTo(trades, BookAll(trades, ids, quotes, now).0, ids, quotes, now, k)
    ensures BookAll(trades, ids, quotes, now).1 <==> k == |ids|
    ensures k < |ids| ==> !BookableNow(trades, ids[k], quotes, now)
  {
    hide BookOutcome, AllDiffer;
    if ids == [] {
      k := 0;
    } else {
      FewerDiffer(ids);
      k := BookAllIsEach(trades, ids[..|ids| - 1], quotes, now);
      hide BookedTo;
      var (before, ok) := BookAll(trades, ids[..|ids| - 1], quotes, now);
      BookedFurther(trades, before, ids, quotes, now, k, ok);
      if ok && BookableNow(trades, ids[k], quotes, now) {
        k := k + 1;
      }
    }
  }

  ghost predicate AllDiffer(ids: seq<string>) {
    forall i, j :: 0 <= i < j < |ids| ==> ids[i] != ids[j]
  }

  lemma FewerDiffer(ids: seq<string>)
    requires AllDiffer(ids) && ids != []
    ensures AllDiffer(ids[..|ids| - 1])
  {
  }

  predicate BookableNow(trades: Trades, id: string, quotes: Quotes, now: string) {
    id != "" && id in trades && BookOutcome(trades[id], quotes, now).Some?
  }

  ghost predicate BookedAlone(trades: Trades, after: Trades, id: string, quotes: Quotes, now: string) {
    && BookableNow(trades, id, quotes, now)
    && id in after && after[id] == BookOutcome(trades[id], quotes, now).value
  }

  /** The first `k` trades are booked as each would be on its own, and the rest left alone. */
  ghost predicate BookedTo(trades: Trades, after: Trades, ids: seq<string>, quotes: Quotes, now: string, k: nat)
    requires k <= |ids|
  {
    && after.Keys == trades.Keys
    && (forall i :: 0 <= i < k ==> BookedAlone(trades, after, ids[i], quotes, now))
    && forall id :: id in trades && id !in ids[..k] ==> after[id] == trades[id]
  }

  lemma BookedFurther(trades: Trades, before: Trades, ids: seq<string>, quotes: Quotes, now: string, k: nat, ok: bool)
    requires ids != [] && AllDiffer(ids)
    requires k < |ids| && BookedTo(trades, before, ids[..|ids| - 1], quotes, now, k)
    requires (ok ==> k == |ids| - 1) && (!ok ==> k < |ids| - 1)
    ensures BookedTo(trades, before, ids, quotes, now, k)
    ensures ok ==> BookableNow(before, ids[k], quotes, now) == BookableNow(trades, ids[k], quotes, now)
    ensures ok && BookableNow(trades, ids[k], quotes, now) ==>
              BookedTo(trades, before[ids[k] := BookOutcome(before[ids[k]], quotes, now).value], ids, quotes, now, k + 1)
  {
    hide BookOutcome, AllDiffer;
    LastDiffers(ids, k);
  }

  lemma LastDiffers(ids: seq<string>, k: nat)
    requires AllDiffer(ids) && k < |ids|
    ensures ids[..|ids| - 1][..k] == ids[..k] && ids[k] !in ids[..k] && ids[..k + 1] == ids[..k] + [ids[k]]
  {
  }

  lemma BookingMoves(trades: Trades, id: string, quotes: Quotes, now: string)
    requires TradesSound(trades) && id in trades && BookOutcome(trades[id], quotes, now).Some?
    ensures var next := trades[id := BookOutcome(trades[id], quotes, now).value];
            && TradesSound(next) && trades[id].status == PENDING
            && |next[id].legs| == |trades[id].legs|
            && forall i :: 0 <= i < |next[id].legs| ==> next[id].legs[i].id == trades[id].legs[i].id
  {
    hide BookOutcome;
    assert TradeSound(trades[id]);
    BookedTrade(trades[id], quotes, now);
  }

  lemma SameLegIds(legs: seq<Leg>, updates: seq<BookingUpdate>, u: BookingUpdate)
    ensures Bookable(Repriced(legs, updates), u) <==> Bookable(legs, u)
  {
    RepricedKeepsIds(legs, updates);
    var after := Repriced(legs, updates);
    if HasLeg(legs, u.leg) {
      var i :| 0 <= i < |legs| && legs[i].id == u.leg;
      assert after[i].id == u.leg;
    }
    if HasLeg(after, u.leg) {
      var i :| 0 <= i < |after| && after[i].id == u.leg;
      assert legs[i].id == u.leg;
    }
  }

  predicate Importable(trades: Trades, id: string, trade: Trade) {
    && id !in trades && trade.legs != []
    && (forall i, j :: 0 <= i < j < |trade.legs| ==> trade.legs[i].id != trade.legs[j].id)
    && (forall i :: 0 <= i < |trade.legs| ==> trade.legs[i].quantity > 0.0 && trade.legs[i].executionPrice >= 0.0)
    && (forall i, other :: 0 <= i < |trade.legs| && other in trades ==> !HasLeg(trades[other].legs, trade.legs[i].id))
  }

  lemma ImportKeepsUnique(trades: Trades, id: string, trade: Trade)
    requires TradesSound(trades) && Importable(trades, id, trade)
    ensures TradesSound(trades[id := trade.(status := PENDING)])
  {
    var next := trades[id := trade.(status := PENDING)];
    forall a, b, i, j | a in next && b in next && 0 <= i < |next[a].legs| && 0 <= j < |next[b].legs|
                        && next[a].legs[i].id == next[b].legs[j].id
      ensures a == b && i == j
    {
      assert a == id && b in trades ==> !HasLeg(trades[b].legs, next[a].legs[i].id);
      assert b == id && a in trades ==> !HasLeg(trades[a].legs, next[b].legs[j].id);
    }
  }

  // ---- Profit and loss over a ledger's marks ----

  /** The stored daily figures dated before a day add up to the last mark less the booked mark, which is the last
      since-inception figure plus commission. */
  ghost predicate TelescopesAt(live: Table, leg: Leg, engine: string, before: int) {
    var series := SeriesOf(live, leg.id, engine);
    match Latest(series, before)
    case None => DailyTotal(series, before) == 0.0
    case Some(d) =>
      && DailyTotal(series, before) == series[d].pv - LegBookedMark(leg)
      && DailyTotal(series, before) == series[d].inception + LegCommissionOrZero(leg)
  }

  /** They do so for every leg of every trade, every engine and every day. */
  ghost predicate Telescopes(trades: Trades, live: Table) {
    forall id, i, engine, before :: id in trades && 0 <= i < |trades[id].legs| ==>
      TelescopesAt(live, trades[id].legs[i], engine, before)
  }

  lemma LedgerTelescopes(trades: Trades, live: Table)
    requires TradesSound(trades) && MarksSound(trades, live) && Chains(trades, live)
    ensures Telescopes(trades, live)
  {
    hide TradesSound, MarksSound, Chains, TelescopesAt;
    forall id, i, engine, before | id in trades && 0 <= i < |trades[id].legs|
      ensures TelescopesAt(live, trades[id].legs[i], engine, before)
    {
      LegTelescopes(trades, live, id, i, engine, before);
    }
  }

  lemma LegTelescopes(trades: Trades, live: Table, id: string, i: nat, engine: string, before: int)
    requires TradesSound(trades) && MarksSound(trades, live) && Chains(trades, live)
    requires id in trades && i < |trades[id].legs|
    ensures TelescopesAt(live, trades[id].legs[i], engine, before)
  {
    hide LegBookedMark, LegCommissionOrZero, TradesSound, MarksSound, SeriesOf;
    var leg := trades[id].legs[i];
    var series := SeriesOf(live, leg.id, engine);
    assert ChainedLeg(live, leg, engine);
    DailyTelescopes(series, before, LegBookedMark(leg));
    match Latest(series, before)
    case None =>
    case Some(d) =>
      InceptionOf(trades, live, id, i, engine, d);
  }

  /** A stored since-inception figure plus commission is the mark less the booked mark. */
  lemma InceptionOf(trades: Trades, live: Table, id: string, i: nat, engine: string, d: int)
    requires TradesSound(trades) && MarksSound(trades, live) && id in trades && i < |trades[id].legs|
    requires d in SeriesOf(live, trades[id].legs[i].id, engine)
    ensures var leg := trades[id].legs[i];
            var mark := SeriesOf(live, leg.id, engine)[d];
            mark.inception + LegCommissionOrZero(leg) == mark.pv - LegBookedMark(leg)
  {
    hide LegBookedMark, LegCommissionOrZero;
    var leg := trades[id].legs[i];
    SeriesHas(live, leg.id, engine, d);
    var row := live[Key(leg.id, d, engine)];
    assert Grounded(trades, row);
    var j :| MarksLeg(trades[row.trade], j, row);
    assert trades[row.trade].legs[j].id == leg.id;
  }

  // ---- Whole runs ----

  datatype Command =
    | DoImport(id: string, trade: Trade)
    | DoBook(ids: seq<string>, now: string, quotes: Quotes)
    | DoExpire(asOf: int, portfolio: Option<string>)
    | DoMark(ids: seq<string>, asOf: int, batch: string, persist: bool, quotes: Quotes)

  function Rank(status: string): nat {
    if status == PENDING then 0 else if status == LIVE then 1 else 2
  }

  /** No trade is lost, changes its legs other than by booking, or moves its status backwards. */
  ghost predicate Advances(before: Trades, after: Trades) {
    forall id :: id in before ==>
      && id in after
      && Rank(before[id].status) <= Rank(after[id].status)
      && |after[id].legs| == |before[id].legs|
      && (before[id].status != PENDING ==> after[id].legs == before[id].legs)
  }

  /** Mark-to-market runs are dated in order; reruns of a day are allowed. */
  ghost predicate MarksInOrder(commands: seq<Command>) {
    forall i, j :: 0 <= i < j < |commands| && commands[i].DoMark? && commands[j].DoMark? ==> commands[i].asOf <= commands[j].asOf
  }

  /** A new trade starts pending, and no pending trade expires without having been live. */
  ghost predicate StepByStep(before: Trades, after: Trades) {
    forall id :: id in after ==>
      if id !in before then after[id].status == PENDING
      else before[id].status == PENDING ==> after[id].status != EXPIRED
  }

  lemma ImportSteps(trades: Trades, id: string, trade: Trade)
    ensures StepByStep(trades, if Importable(trades, id, trade) then trades[id := trade.(status := PENDING)] else trades)
  {
    hide Importable;
  }

  lemma ImportAdvances(trades: Trades, id: string, trade: Trade)
    requires Importable(trades, id, trade)
    ensures Advances(trades, trades[id := trade.(status := PENDING)])
  {
  }

  lemma ExpiryAdvances(trades: Trades, asOf: int, portfolio: Option<string>)
    ensures Advances(trades, ExpireAll(trades, asOf, portfolio)) && StepByStep(trades, ExpireAll(trades, asOf, portfolio))
  {
  }

  lemma {:induction false} BookingAdvances(trades: Trades, ids: seq<string>, quotes: Quotes, now: string)
    requires TradesSound(trades)
    ensures var after := BookAll(trades, ids, quotes, now).0;
            TradesSound(after) && Advances(trades, after) && StepByStep(trades, after) && after.Keys == trades.Keys
  {
    if ids != [] {
      var earlier := ids[..|ids| - 1];
      BookingAdvances(trades, earlier, quotes, now);
      var (before, ok) := BookAll(trades, earlier, quotes, now);
      var id := ids[|ids| - 1];
      if ok && id != "" && id in before && BookOutcome(before[id], quotes, now).Some? {
        assert TradeSound(before[id]);
        BookedTrade(before[id], quotes, now);
        BookingMoves(before, id, quotes, now);
      }
    }
  }

  lemma AdvancesTogether(a: Trades, b: Trades, c: Trades)
    requires Advances(a, b) && Advances(b, c) && TradesSound(a) && TradesSound(b)
    ensures Advances(a, c)
  {
    forall id | id in a && a[id].status != PENDING ensures b[id].status != PENDING {
      assert TradeSound(a[id]);
    }
  }

  /** What a command makes of the trades. */
  ghost function AfterCommand(trades: Trades, c: Command): Trades {
    match c
    case DoImport(id, trade) => if Importable(trades, id, trade) then trades[id := trade.(status := PENDING)] else trades
    case DoBook(ids, now, quotes) => BookAll(trades, ids, quotes, now).0
    case DoExpire(asOf, portfolio) => ExpireAll(trades, asOf, portfolio)
    case DoMark(ids, asOf, batch, _, _) => if batch == "" || ids == [] then trades else ExpireAll(trades, asOf, None)
  }

  /** The trades after a history of commands on an empty ledger. */
  ghost function TradesAfter(commands: seq<Command>): Trades {
    if commands == [] then map[]
    else AfterCommand(TradesAfter(commands[..|commands| - 1]), commands[|commands| - 1])
  }

  /** The archive of marks after a history of commands on an empty ledger. */
  ghost function ArchiveAfter(commands: seq<Command>): seq<MtmRow> {
    if commands == [] then []
    else
      var earlier := commands[..|commands| - 1];
      match commands[|commands| - 1]
      case DoMark(ids, asOf, batch, persist, quotes) =>
        if batch == "" || ids == [] then ArchiveAfter(earlier)
        else
          RunRows(ArchiveAfter(earlier), ExpireAll(TradesAfter(earlier), asOf, None), ids, MarkRun(asOf, batch, persist, quotes))
      case _ => ArchiveAfter(earlier)
  }

  lemma CommandAdvances(trades: Trades, c: Command)
    requires TradesSound(trades)
    ensures TradesSound(AfterCommand(trades, c)) && Advances(trades, AfterCommand(trades, c))
    ensures StepByStep(trades, AfterCommand(trades, c))
  {
    hide TradesSound, Advances, Importable, BookAll, ExpireAll, StepByStep;
    StandsStill(trades);
    match c {
      case DoImport(id, trade) =>
        if Importable(trades, id, trade) {
          ImportKeepsUnique(trades, id, trade);
          ImportAdvances(trades, id, trade);
        }
        ImportSteps(trades, id, trade);
      case DoBook(ids, now, quotes) =>
        BookingAdvances(trades, ids, quotes, now);
      case DoExpire(asOf, portfolio) =>
        ExpiryMoves(trades, asOf, portfolio);
        ExpiryAdvances(trades, asOf, portfolio);
      case DoMark(ids, asOf, batch, persist, quotes) =>
        ExpiryMoves(trades, asOf, None);
        ExpiryAdvances(trades, asOf, None);
    }
  }

  /** Over every history of commands the trades stay sound, and whatever follows a moment only advances its trades. */
  lemma {:induction false} HistoryAdvances(commands: seq<Command>, k: nat)
    requires k <= |commands|
    ensures TradesSound(TradesAfter(commands)) && Advances(TradesAfter(commands[..k]), TradesAfter(commands))
    decreases |commands|
  {
    hide TradesSound, Advances, AfterCommand;
    if commands == [] {
      EmptySound();
    } else {
      var earlier := commands[..|commands| - 1];
      HistoryAdvances(earlier, |earlier|);
      assert earlier[..|earlier|] == earlier;
      CommandAdvances(TradesAfter(earlier), commands[|commands| - 1]);
      if k < |commands| {
        HistoryAdvances(earlier, k);
        assert earlier[..k] == commands[..k];
        HistoryAdvances(commands[..k], k);
        AdvancesTogether(TradesAfter(commands[..k]), TradesAfter(earlier), TradesAfter(commands));
      }
    }
    assert commands[..|commands|] == commands;
    StandsStill(TradesAfter(commands));
  }

  lemma EmptySound()
    ensures TradesSound(map[])
  {
  }

  /** Any sequence of commands, each with the prices of its own moment, leaves the ledger sound, with the trades and the
      archive its history defines and the fold of that archive as its live marks; with mark-to-market runs dated in order
      every leg's daily figures telescope. */
  method RunAll(commands: seq<Command>) returns (ledger: Ledger)
    ensures ledger.Sound() && ledger.trades == TradesAfter(commands)
    ensures ledger.marks.archive == ArchiveAfter(commands) && ledger.marks.live == Fold(ArchiveAfter(commands))
    ensures MarksInOrder(commands) ==> ledger.InChain() && Telescopes(TradesAfter(commands), Fold(ArchiveAfter(commands)))
  {
    hide TradesSound, MarksSound, Chains, ExpireAll, BookAll, Importable, RunRows, Telescopes, Fold;
    ledger := new Ledger();
    for k := 0 to |commands|
      invariant fresh(ledger) && fresh(ledger.marks) && ledger.Sound()
      invariant ledger.trades == TradesAfter(commands[..k]) && ledger.marks.archive == ArchiveAfter(commands[..k])
      invariant MarksInOrder(commands) ==> ledger.InChain()
      invariant MarksInOrder(commands) ==> forall j :: k <= j < |commands| && commands[j].DoMark? ==> UpTo(ledger.marks.live, commands[j].asOf)
    {
      assert commands[..k + 1][..k] == commands[..k];
      match commands[k] {
        case DoImport(id, trade) =>
          var ok := ledger.Import(id, trade);
        case DoBook(ids, now, quotes) =>
          var ok := ledger.RunBookingWithTradeIds(ids, quotes, now);
        case DoExpire(asOf, portfolio) =>
          ledger.ApplyTradeLifecycleAsOf(asOf, portfolio);
        case DoMark(ids, asOf, batch, persist, quotes) =>
          if batch != "" {
            var ok := ledger.RunWithTradeIds(ids, asOf, batch, persist, quotes);
            if ids == [] {
              RunOfNone(ledger.trades, ids, MarkRun(asOf, batch, persist, quotes));
            }
          }
      }
    }
    assert commands[..|commands|] == commands;
    if MarksInOrder(commands) {
      LedgerTelescopes(ledger.trades, ledger.marks.live);
    }
  }

  lemma RunOfNone(trades: Trades, ids: seq<string>, run: MarkRun)
    requires ids == []
    ensures forall before: seq<MtmRow> :: RunRows(before, trades, ids, run) == before
  {
  }

  lemma StandsStill(trades: Trades)
    ensures Advances(trades, trades) && StepByStep(trades, trades)
  {
  }
}
