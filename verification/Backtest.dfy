/** The ledger of the strategy's backtest: signals of one close are traded at the next open,
    with a cost on each side. Exact reals. */
module Backtest {
  import opened Indicators
  import opened Options
  import opened Reals

  datatype Bars = Bars(closes: Series, opens: Series, rules: Rules) {
    predicate Valid() { |closes| == |opens| && Positive(closes) && Positive(opens) && rules.Valid() }
  }

  predicate IsCost(cost: real) { 0.0 <= cost < 1.0 }

  /** The signals, one bar late. */
  predicate Enters(b: Bars, i: nat)
    requires b.Valid() && i < |b.closes|
  {
    i > 0 && EntryState(b.closes, b.rules, i - 1)
  }

  predicate Leaves(b: Bars, i: nat)
    requires b.Valid() && i < |b.closes|
  {
    i > 0 && ExitSignal(b.closes, b.rules, i - 1)
  }

  // ---------- the ledger ----------

  datatype Ledger = Ledger(cash: real, shares: real, entryPx: real, wins: nat, trades: nat)

  const START := Ledger(1.0, 0.0, 0.0, 0, 0)

  function BuyPrice(open: real, cost: real): (r: real)
    requires 0.0 < open && IsCost(cost)
    ensures 0.0 < r
  {
    ProductPositive(open, 1.0 + cost);
    open * (1.0 + cost)
  }

  function SellPrice(open: real, cost: real): (r: real)
    requires 0.0 < open && IsCost(cost)
    ensures 0.0 < r
  {
    ProductPositive(open, 1.0 - cost);
    open * (1.0 - cost)
  }

  function Trade(l: Ledger, open: real, enters: bool, leaves: bool, cost: real): Ledger
    requires 0.0 < open && IsCost(cost)
  {
    if l.shares == 0.0 && enters then
      l.(entryPx := BuyPrice(open, cost), shares := l.cash / BuyPrice(open, cost), cash := 0.0)
    else if l.shares > 0.0 && leaves then
      var cash := l.shares * SellPrice(open, cost);
      l.(cash := cash, trades := l.trades + 1,
         wins := if cash > l.shares * l.entryPx then l.wins + 1 else l.wins, shares := 0.0)
    else l
  }

  /** The ledger after the first `i` bars. */
  function After(b: Bars, cost: real, i: nat): Ledger
    requires b.Valid() && IsCost(cost) && i <= |b.closes|
  {
    if i == 0 then START
    else Trade(After(b, cost, i - 1), b.opens[i - 1], Enters(b, i - 1), Leaves(b, i - 1), cost)
  }

  function Worth(l: Ledger, close: real): real { if l.shares == 0.0 then l.cash else l.shares * close }

  function EquityAt(b: Bars, cost: real, i: nat): real
    requires b.Valid() && IsCost(cost) && i < |b.closes|
  {
    Worth(After(b, cost, i + 1), b.closes[i])
  }

  // ---------- the reference: positions and round trips, without money ----------

  datatype Trip = Trip(entry: nat, exit: nat)

  datatype Position = Flat | Long(entry: nat)

  function PositionAfter(b: Bars, i: nat): (r: Position)
    requires b.Valid() && i <= |b.closes|
    ensures r.Long? ==> r.entry < i
  {
    if i == 0 then Flat
    else
      match PositionAfter(b, i - 1)
      case Flat => if Enters(b, i - 1) then Long(i - 1) else Flat
      case Long(entry) => if Leaves(b, i - 1) then Flat else Long(entry)
  }

  function Trips(b: Bars, i: nat): (r: seq<Trip>)
    requires b.Valid() && i <= |b.closes|
    ensures forall t :: t in r ==> t.entry < t.exit < i
  {
    if i == 0 then []
    else
      match PositionAfter(b, i - 1)
      case Flat => Trips(b, i - 1)
      case Long(entry) => if Leaves(b, i - 1) then Trips(b, i - 1) + [Trip(entry, i - 1)] else Trips(b, i - 1)
  }

  predicate In(trips: seq<Trip>, b: Bars) { forall t :: t in trips ==> t.entry < |b.closes| && t.exit < |b.closes| }

  /** What a unit of cash becomes by a round trip. */
  function Ratio(b: Bars, t: Trip, cost: real): (r: real)
    requires b.Valid() && IsCost(cost) && t.entry < |b.closes| && t.exit < |b.closes|
  {
    SellPrice(b.opens[t.exit], cost) / BuyPrice(b.opens[t.entry], cost)
  }

  function Growth(b: Bars, trips: seq<Trip>, cost: real): real
    requires b.Valid() && IsCost(cost) && In(trips, b)
  {
    if trips == [] then 1.0
    else Times(Growth(b, trips[..|trips| - 1], cost), Ratio(b, trips[|trips| - 1], cost))
  }

  /** The round trips that sold, after cost, above what was paid. */
  function WinCount(b: Bars, trips: seq<Trip>, cost: real): nat
    requires b.Valid() && IsCost(cost) && In(trips, b)
  {
    if trips == [] then 0
    else
      var t := trips[|trips| - 1];
      WinCount(b, trips[..|trips| - 1], cost)
      + if SellPrice(b.opens[t.exit], cost) > BuyPrice(b.opens[t.entry], cost) then 1 else 0
  }

  // ---------- the ledger is the reference ----------

  ghost predicate LedgerIs(b: Bars, cost: real, i: nat, l: Ledger)
    requires b.Valid() && IsCost(cost) && i <= |b.closes|
  {
    var trips := Trips(b, i);
    var growth := Growth(b, trips, cost);
    && 0.0 < growth && l.trades == |trips| && l.wins == WinCount(b, trips, cost)
    && match PositionAfter(b, i)
       case Flat => l.shares == 0.0 && l.cash == growth
       case Long(entry) =>
         && l.shares > 0.0 && l.cash == 0.0
         && l.entryPx == BuyPrice(b.opens[entry], cost) && Times(l.shares, l.entryPx) == growth
  }

  lemma Bought(l: Ledger, open: real, leaves: bool, cost: real)
    requires l.shares == 0.0 && 0.0 < l.cash && 0.0 < open && IsCost(cost)
    ensures var after := Trade(l, open, true, leaves, cost);
            && 0.0 < after.shares && after.cash == 0.0 && after.entryPx == BuyPrice(open, cost)
            && Times(after.shares, after.entryPx) == l.cash
            && after.wins == l.wins && after.trades == l.trades
  {
  }

  lemma Proceeds(shares: real, px: real, sell: real)
    requires 0.0 < shares && 0.0 < px && 0.0 < sell
    ensures shares * sell == Times(Times(shares, px), sell / px)
    ensures 0.0 < shares * sell
    ensures shares * sell > shares * px <==> sell > px
  {
  }

  lemma Sold(l: Ledger, open: real, enters: bool, cost: real)
    requires 0.0 < l.shares && 0.0 < l.entryPx && 0.0 < open && IsCost(cost)
    ensures var after := Trade(l, open, enters, true, cost);
            && after.shares == 0.0 && 0.0 < after.cash
            && after.cash == Times(Times(l.shares, l.entryPx), SellPrice(open, cost) / l.entryPx)
            && after.trades == l.trades + 1
            && after.wins == l.wins + if SellPrice(open, cost) > l.entryPx then 1 else 0
  {
  }

  lemma GrowthSnoc(b: Bars, trips: seq<Trip>, t: Trip, cost: real)
    requires b.Valid() && IsCost(cost) && In(trips, b) && t.entry < |b.closes| && t.exit < |b.closes|
    ensures In(trips + [t], b)
    ensures Growth(b, trips + [t], cost) == Times(Growth(b, trips, cost), Ratio(b, t, cost))
    ensures WinCount(b, trips + [t], cost) == WinCount(b, trips, cost)
            + if SellPrice(b.opens[t.exit], cost) > BuyPrice(b.opens[t.entry], cost) then 1 else 0
  {
  }

  lemma GrowthNone(b: Bars, cost: real)
    requires b.Valid() && IsCost(cost)
    ensures Growth(b, [], cost) == 1.0 && WinCount(b, [], cost) == 0
  {
  }

  /** At every bar the ledger holds what the round trips say: cash is their product while flat,
      shares are worth it at the price paid while long. */
  lemma {:induction false} LedgerFollowsTrips(b: Bars, cost: real, i: nat)
    requires b.Valid() && IsCost(cost) && i <= |b.closes|
    ensures LedgerIs(b, cost, i, After(b, cost, i))
  {
    hide BuyPrice, SellPrice, Enters, Leaves, Growth, WinCount, Times, Trade, Trips;
    NextTrips(b, i);
    if i == 0 {
      GrowthNone(b, cost);
    } else {
      LedgerFollowsTrips(b, cost, i - 1);
      var l, open := After(b, cost, i - 1), b.opens[i - 1];
      match PositionAfter(b, i - 1)
      case Flat =>
        if Enters(b, i - 1) {
          Bought(l, open, Leaves(b, i - 1), cost);
        } else {
          Idle(l, open, false, Leaves(b, i - 1), cost);
        }
      case Long(entry) =>
        if Leaves(b, i - 1) {
          Sold(l, open, Enters(b, i - 1), cost);
          GrowthSnoc(b, Trips(b, i - 1), Trip(entry, i - 1), cost);
        } else {
          Idle(l, open, Enters(b, i - 1), false, cost);
        }
    }
  }

  lemma Idle(l: Ledger, open: real, enters: bool, leaves: bool, cost: real)
    requires 0.0 < open && IsCost(cost) && (l.shares == 0.0 ==> !enters) && (l.shares > 0.0 ==> !leaves)
    ensures Trade(l, open, enters, leaves, cost) == l
  {
  }

  lemma NextTrips(b: Bars, i: nat)
    requires b.Valid() && i <= |b.closes|
    ensures Trips(b, i) == if i > 0 && PositionAfter(b, i - 1).Long? && Leaves(b, i - 1)
                           then Trips(b, i - 1) + [Trip(PositionAfter(b, i - 1).entry, i - 1)]
                           else if i > 0 then Trips(b, i - 1) else []
  {
  }

  /** Equity is the product of the round trips' ratios, times the open position's, if any. */
  lemma EquityIsProduct(b: Bars, cost: real, i: nat)
    requires b.Valid() && IsCost(cost) && i < |b.closes|
    ensures EquityAt(b, cost, i)
         == Times(Growth(b, Trips(b, i + 1), cost), OpenRatio(b, PositionAfter(b, i + 1), cost, i))
    ensures 0.0 < EquityAt(b, cost, i) && 0.0 < Growth(b, Trips(b, i + 1), cost)
  {
    hide BuyPrice, Growth, WinCount, Trips, PositionAfter, After, Times;
    LedgerFollowsTrips(b, cost, i + 1);
    var l := After(b, cost, i + 1);
    TimesLaws(l.cash, 1.0, 1.0);
    if PositionAfter(b, i + 1).Long? {
      Proceeds(l.shares, l.entryPx, b.closes[i]);
    }
  }

  function OpenRatio(b: Bars, p: Position, cost: real, i: nat): real
    requires b.Valid() && IsCost(cost) && i < |b.closes| && (p.Long? ==> p.entry < |b.closes|)
  {
    match p
    case Flat => 1.0
    case Long(entry) => b.closes[i] / BuyPrice(b.opens[entry], cost)
  }

  // ---------- cost ----------

  /** `x` is positive and at most `y`, and below it when `strict`. */
  predicate Below(x: real, y: real, strict: bool) { 0.0 < x <= y && (strict ==> x < y) }

  lemma QuotientBelow(x: real, y: real, x': real, y': real, strict: bool)
    requires Below(x, x', strict) && Below(y', y, false)
    ensures Below(x / y, x' / y', strict)
  {
  }

  lemma TimesBelow(a: real, b: real, a': real, b': real, strictA: bool, strictB: bool)
    requires Below(a, a', strictA) && Below(b, b', strictB)
    ensures Below(Times(a, b), Times(a', b'), strictA || strictB)
  {
  }

  lemma PricesByCost(open: real, c1: real, c2: real)
    requires 0.0 < open && IsCost(c1) && IsCost(c2) && c1 <= c2
    ensures Below(SellPrice(open, c2), SellPrice(open, c1), c1 < c2)
    ensures Below(BuyPrice(open, c1), BuyPrice(open, c2), c1 < c2)
  {
  }

  lemma {:induction false} GrowthByCost(b: Bars, trips: seq<Trip>, c1: real, c2: real)
    requires b.Valid() && IsCost(c1) && IsCost(c2) && c1 <= c2 && In(trips, b)
    ensures Below(Growth(b, trips, c2), Growth(b, trips, c1), c1 < c2 && trips != [])
    ensures WinCount(b, trips, c2) <= WinCount(b, trips, c1)
  {
    hide SellPrice, BuyPrice, Times;
    if trips != [] {
      var front, t := trips[..|trips| - 1], trips[|trips| - 1];
      assert t in trips;
      GrowthByCost(b, front, c1, c2);
      PricesByCost(b.opens[t.entry], c1, c2);
      PricesByCost(b.opens[t.exit], c1, c2);
      QuotientBelow(SellPrice(b.opens[t.exit], c2), BuyPrice(b.opens[t.entry], c2),
                    SellPrice(b.opens[t.exit], c1), BuyPrice(b.opens[t.entry], c1), c1 < c2);
      TimesBelow(Growth(b, front, c2), Ratio(b, t, c2), Growth(b, front, c1), Ratio(b, t, c1),
                 c1 < c2 && front != [], c1 < c2);
    }
  }

  /** Trades fall on the same bars whatever the cost; a higher cost never raises equity or the
      number of wins, and lowers equity exactly when something has been bought. */
  lemma CostOnlyHurts(b: Bars, c1: real, c2: real, i: nat)
    requires b.Valid() && IsCost(c1) && IsCost(c2) && c1 <= c2 && i < |b.closes|
    ensures var cheap, dear := After(b, c1, i + 1), After(b, c2, i + 1);
            && cheap.trades == dear.trades && dear.wins <= cheap.wins
            && (cheap.shares > 0.0 <==> dear.shares > 0.0)
    ensures EquityAt(b, c2, i) <= EquityAt(b, c1, i)
    ensures c1 < c2 ==>
              (EquityAt(b, c2, i) < EquityAt(b, c1, i) <==> Trips(b, i + 1) != [] || PositionAfter(b, i + 1).Long?)
  {
    hide After, Growth, WinCount, Trips, PositionAfter, Times, BuyPrice, EquityAt;
    var trips, position := Trips(b, i + 1), PositionAfter(b, i + 1);
    LedgerFollowsTrips(b, c1, i + 1);
    LedgerFollowsTrips(b, c2, i + 1);
    EquityIsProduct(b, c1, i);
    EquityIsProduct(b, c2, i);
    GrowthByCost(b, trips, c1, c2);
    if position.Long? {
      PricesByCost(b.opens[position.entry], c1, c2);
      QuotientBelowStrictly(b.closes[i], BuyPrice(b.opens[position.entry], c2),
                            BuyPrice(b.opens[position.entry], c1), c1 < c2);
    }
    TimesBelow(Growth(b, trips, c2), OpenRatio(b, position, c2, i), Growth(b, trips, c1), OpenRatio(b, position, c1, i),
               c1 < c2 && trips != [], c1 < c2 && position.Long?);
    if trips == [] {
      GrowthNone(b, c1);
      GrowthNone(b, c2);
    }
  }

  lemma QuotientBelowStrictly(x: real, y: real, y': real, strict: bool)
    requires 0.0 < x && Below(y', y, strict)
    ensures Below(x / y, x / y', strict)
  {
  }

  // ---------- no look-ahead ----------

  lemma SignalsAgree(b: Bars, d: Bars, i: nat)
    requires b.Valid() && d.Valid() && b.rules == d.rules && i < |b.closes| && i < |d.closes|
    requires b.closes[..i] == d.closes[..i]
    ensures Enters(b, i) == Enters(d, i) && Leaves(b, i) == Leaves(d, i)
  {
    if i > 0 {
      hide EntryState, ExitSignal;
      SignalsPrefix(b.closes, b.rules, i, i - 1);
      SignalsPrefix(d.closes, d.rules, i, i - 1);
    }
  }

  /** What is held after bar `i` depends on closes before bar `i` and opens up to it; equity at
      its close depends besides on that close. Two histories that agree so far agree here. */
  lemma {:induction false} NoLookAhead(b: Bars, d: Bars, cost: real, i: nat)
    requires b.Valid() && d.Valid() && b.rules == d.rules && IsCost(cost) && i < |b.closes| && i < |d.closes|
    requires b.closes[..i] == d.closes[..i] && b.opens[..i + 1] == d.opens[..i + 1]
    ensures After(b, cost, i + 1) == After(d, cost, i + 1)
    ensures b.closes[i] == d.closes[i] ==> EquityAt(b, cost, i) == EquityAt(d, cost, i)
  {
    hide Enters, Leaves, Trade;
    assert b.opens[i] == b.opens[..i + 1][i] == d.opens[..i + 1][i] == d.opens[i];
    SignalsAgree(b, d, i);
    if i > 0 {
      assert b.closes[..i - 1] == b.closes[..i][..i - 1] && d.closes[..i - 1] == d.closes[..i][..i - 1];
      assert b.opens[..i] == b.opens[..i + 1][..i] && d.opens[..i] == d.opens[..i + 1][..i];
      NoLookAhead(b, d, cost, i - 1);
    }
  }

  // ---------- a flat market ----------

  /** While the close never moves nothing is bought, and equity stays at one, at any cost. */
  lemma {:induction false} FlatMarketNeverTrades(b: Bars, price: real, cost: real, i: nat)
    requires b.Valid() && IsCost(cost) && Between(b.closes, price, price) && i <= |b.closes|
    ensures PositionAfter(b, i) == Flat && Trips(b, i) == [] && After(b, cost, i) == START
  {
    if i > 0 {
      hide Dema, Leaves;
      DemaOfFlat(b.closes, b.rules.demaPeriod, price);
      FlatMarketNeverTrades(b, price, cost, i - 1);
    }
  }

  // ---------- when it trades, and at what price ----------

  /** All cash has gone into shares at the open plus cost. */
  predicate SpentAt(before: Ledger, after: Ledger, open: real, cost: real) {
    after.cash == 0.0 && after.shares * (open * (1.0 + cost)) == before.cash
  }

  /** A flat strategy buys at the next open exactly when the bar closes below its DEMA, twice the
      mean less the mean of the mean; all its cash goes at the open plus cost. */
  lemma BuysExactly(b: Bars, cost: real, i: nat)
    requires b.Valid() && IsCost(cost) && i + 1 < |b.closes| && PositionAfter(b, i + 1) == Flat
    ensures var ema1 := Ema(b.closes, b.rules.demaPeriod);
            var ema2 := Ema(ema1, b.rules.demaPeriod);
            PositionAfter(b, i + 2) == if b.closes[i] < 2.0 * ema1[i] - ema2[i] then Long(i + 1) else Flat
    ensures var before, after := After(b, cost, i + 1), After(b, cost, i + 2);
            if PositionAfter(b, i + 2).Long? then SpentAt(before, after, b.opens[i + 1], cost) else after == before
  {
    hide Ema, LedgerIs, After, Times;
    LedgerFollowsTrips(b, cost, i + 1);
    AfterNext(b, cost, i + 1);
    FlatLedger(b, cost, i + 1);
    EntersBelow(b, i);
    hide Enters, Leaves, Trade, BuyPrice, SpentAt;
    if Enters(b, i + 1) {
      BoughtAt(After(b, cost, i + 1), b.opens[i + 1], Leaves(b, i + 1), cost);
    } else {
      Idle(After(b, cost, i + 1), b.opens[i + 1], false, Leaves(b, i + 1), cost);
    }
  }

  lemma EntersBelow(b: Bars, i: nat)
    requires b.Valid() && i + 1 < |b.closes|
    ensures var ema1 := Ema(b.closes, b.rules.demaPeriod);
            Enters(b, i + 1) <==> b.closes[i] < 2.0 * ema1[i] - Ema(ema1, b.rules.demaPeriod)[i]
  {
    hide Ema;
  }

  lemma BoughtAt(l: Ledger, open: real, leaves: bool, cost: real)
    requires l.shares == 0.0 && 0.0 < l.cash && 0.0 < open && IsCost(cost)
    ensures var after := Trade(l, open, true, leaves, cost);
            SpentAt(l, after, open, cost)
  {
    Bought(l, open, leaves, cost);
  }

  lemma FlatLedger(b: Bars, cost: real, i: nat)
    requires b.Valid() && IsCost(cost) && i <= |b.closes| && LedgerIs(b, cost, i, After(b, cost, i))
    ensures PositionAfter(b, i) == Flat ==> After(b, cost, i).shares == 0.0 && 0.0 < After(b, cost, i).cash
    ensures PositionAfter(b, i).Long? ==>
              After(b, cost, i).shares > 0.0 && After(b, cost, i).cash == 0.0 && 0.0 < After(b, cost, i).entryPx
  {
  }

  /** A strategy that holds sells at the next open exactly when the RSI rises through the level:
      at or below it at the bar before, above it at this bar; all at the open less cost. */
  lemma SellsExactly(b: Bars, cost: real, i: nat)
    requires b.Valid() && IsCost(cost) && i + 1 < |b.closes| && PositionAfter(b, i + 1).Long?
    ensures var rsi := Rsi(b.closes, b.rules.rsiPeriod);
            PositionAfter(b, i + 2)
              == if i > 0 && rsi[i - 1] <= b.rules.level < rsi[i] then Flat else PositionAfter(b, i + 1)
    ensures var before, after := After(b, cost, i + 1), After(b, cost, i + 2);
            if PositionAfter(b, i + 2) == Flat
            then after.shares == 0.0 && after.cash == before.shares * (b.opens[i + 1] * (1.0 - cost))
            else after == before
  {
    hide Rsi, LedgerIs, After;
    LedgerFollowsTrips(b, cost, i + 1);
    AfterNext(b, cost, i + 1);
    FlatLedger(b, cost, i + 1);
    if !Leaves(b, i + 1) {
      Idle(After(b, cost, i + 1), b.opens[i + 1], Enters(b, i + 1), false, cost);
    }
  }

  /** What a round trip makes of its stake, and when it counts as a win. */
  lemma TripPays(b: Bars, cost: real, t: Trip)
    requires b.Valid() && IsCost(cost) && t.entry < |b.closes| && t.exit < |b.closes|
    ensures Ratio(b, t, cost) * (b.opens[t.entry] * (1.0 + cost)) == b.opens[t.exit] * (1.0 - cost)
    ensures WinCount(b, [t], cost)
         == if b.opens[t.exit] * (1.0 - cost) > b.opens[t.entry] * (1.0 + cost) then 1 else 0
  {
    var buy, sell := BuyPrice(b.opens[t.entry], cost), SellPrice(b.opens[t.exit], cost);
    assert sell / buy * buy == sell;
    assert WinCount(b, [], cost) == 0;
    assert [t][..0] == [];
  }

  /** After a flat stretch the first lower close is bought at the next open, and a close that is
      not lower is not; the equity is then the next close over the price paid. */
  lemma BuysTheDip(b: Bars, cost: real, price: real, i: nat)
    requires b.Valid() && IsCost(cost) && 2 <= b.rules.demaPeriod && 0 < i && i + 1 < |b.closes|
    requires forall j :: 0 <= j < i ==> b.closes[j] == price
    ensures PositionAfter(b, i + 2) == if b.closes[i] < price then Long(i + 1) else Flat
    ensures EquityAt(b, cost, i + 1) * (if b.closes[i] < price then b.opens[i + 1] * (1.0 + cost) else 1.0)
         == if b.closes[i] < price then b.closes[i + 1] else 1.0
  {
    hide Dema, Leaves, After;
    StaysFlat(b, cost, price, i + 1);
    var upto := b.closes[..i + 1];
    DipIsBelowDema(upto, b.rules.demaPeriod, price);
    DemaPrefix(b.closes, b.rules.demaPeriod, i + 1);
    assert Dema(b.closes, b.rules.demaPeriod)[..i + 1][i] == Dema(b.closes, b.rules.demaPeriod)[i];
    assert Enters(b, i + 1) <==> b.closes[i] < price;
    AfterNext(b, cost, i + 1);
    if Enters(b, i + 1) {
      Bought(START, b.opens[i + 1], Leaves(b, i + 1), cost);
      var l := After(b, cost, i + 2);
      HeldWorth(l.shares, b.opens[i + 1] * (1.0 + cost), b.closes[i + 1]);
    }
  }

  lemma HeldWorth(shares: real, paid: real, close: real)
    requires shares * paid == 1.0
    ensures shares * close * paid == close
  {
    assert shares * close * paid == (shares * paid) * close;
  }

  /** While the closes before the last have not moved, nothing has been bought. */
  lemma {:induction false} StaysFlat(b: Bars, cost: real, price: real, i: nat)
    requires b.Valid() && IsCost(cost) && i <= |b.closes| && forall j :: 0 <= j < i - 1 ==> b.closes[j] == price
    ensures PositionAfter(b, i) == Flat && After(b, cost, i) == START
  {
    hide Enters, Leaves, Trade, After;
    if i == 0 {
      CurveStarts(b, cost);
    } else {
      StaysFlat(b, cost, price, i - 1);
      NoEntry(b, price, i - 1);
      AfterNext(b, cost, i - 1);
      Idle(START, b.opens[i - 1], false, Leaves(b, i - 1), cost);
    }
  }

  lemma NoEntry(b: Bars, price: real, i: nat)
    requires b.Valid() && i < |b.closes| && forall j :: 0 <= j < i ==> b.closes[j] == price
    ensures !Enters(b, i)
  {
    if i > 0 {
      hide Dema;
      var upto := b.closes[..i];
      DemaOfFlat(upto, b.rules.demaPeriod, price);
      DemaPrefix(b.closes, b.rules.demaPeriod, i);
      assert Dema(b.closes, b.rules.demaPeriod)[..i][i - 1] == Dema(b.closes, b.rules.demaPeriod)[i - 1];
    }
  }

  // ---------- the backtest ----------

  /** No later value is below `1 + drop` times an earlier one, and some is that low. */
  ghost predicate IsDrawdown(equity: Series, drop: real) {
    && (forall j, i :: 0 <= j <= i < |equity| ==> Times(1.0 + drop, equity[j]) <= equity[i])
    && (exists j, i :: 0 <= j <= i < |equity| && Times(1.0 + drop, equity[j]) == equity[i])
  }

  /** The least quotient of a value and the running maximum, less one. */
  method MaxDrawdown(equity: Series) returns (drop: real)
    requires equity != [] && Positive(equity)
    ensures IsDrawdown(equity, drop)
    ensures -1.0 < drop <= 0.0
  {
    hide Times;
    drop := 0.0;
    var peak := equity[0];
    TimesLaws(equity[0], 1.0, 1.0);
    assert Times(1.0 + 0.0, equity[0]) == equity[0];
    for i := 1 to |equity|
      invariant -1.0 < drop <= 0.0 && 0.0 < peak
      invariant forall j :: 0 <= j < i ==> equity[j] <= peak
      invariant exists j :: 0 <= j < i && equity[j] == peak
      invariant IsDrawdown(equity[..i], drop)
    {
      ghost var before := drop;
      if equity[i] > peak {
        peak := equity[i];
      }
      var fall := equity[i] / peak - 1.0;
      if fall < drop {
        drop := fall;
      }
      DrawdownStep(equity, i, before, peak, drop);
    }
    assert equity[..|equity|] == equity;
  }

  lemma DrawdownStep(equity: Series, i: nat, before: real, peak: real, drop: real)
    requires 0 < i < |equity| && Positive(equity) && -1.0 < before <= 0.0
    requires IsDrawdown(equity[..i], before)
    requires forall j :: 0 <= j <= i ==> equity[j] <= peak
    requires exists j :: 0 <= j <= i && equity[j] == peak
    requires drop == if equity[i] / peak - 1.0 < before then equity[i] / peak - 1.0 else before
    ensures -1.0 < drop <= 0.0 && IsDrawdown(equity[..i + 1], drop)
  {
    hide Times;
    var rest := equity[..i + 1];
    UnitQuotient(equity[i], peak);
    forall j | 0 <= j <= i ensures Times(1.0 + drop, equity[j]) <= equity[i] {
      Ordered(1.0 + drop, equity[i] / peak, equity[j], peak);
    }
    forall j, k | 0 <= j <= k < i ensures Times(1.0 + drop, rest[j]) <= rest[k] {
      assert Times(1.0 + before, equity[..i][j]) <= equity[..i][k];
      Ordered(1.0 + drop, 1.0 + before, equity[j], equity[j]);
    }
    if drop == before {
      var j, k :| 0 <= j <= k < i && Times(1.0 + before, equity[..i][j]) == equity[..i][k];
      assert Times(1.0 + drop, rest[j]) == rest[k];
    } else {
      var top :| 0 <= top <= i && equity[top] == peak;
      assert Times(1.0 + drop, rest[top]) == rest[i];
    }
  }

  lemma UnitQuotient(x: real, y: real)
    requires 0.0 < x <= y
    ensures Times(x / y, y) == x && 0.0 < x / y <= 1.0
  {
  }

  lemma Ordered(a: real, a': real, b: real, b': real)
    requires 0.0 < a <= a' && 0.0 < b <= b'
    ensures Times(a, b) <= Times(a', b')
  {
  }

  function EquityCurve(b: Bars, cost: real, k: nat): (r: Series)
    requires b.Valid() && IsCost(cost) && k <= |b.closes|
    ensures |r| == k
  {
    if k == 0 then [] else EquityCurve(b, cost, k - 1) + [EquityAt(b, cost, k - 1)]
  }

  lemma CurveStarts(b: Bars, cost: real)
    requires b.Valid() && IsCost(cost)
    ensures EquityCurve(b, cost, 0) == [] && After(b, cost, 0) == START
  {
  }

  lemma AfterNext(b: Bars, cost: real, i: nat)
    requires b.Valid() && IsCost(cost) && i < |b.closes|
    ensures After(b, cost, i + 1) == Trade(After(b, cost, i), b.opens[i], Enters(b, i), Leaves(b, i), cost)
  {
  }

  lemma CurveGrows(b: Bars, cost: real, i: nat)
    requires b.Valid() && IsCost(cost) && i < |b.closes|
    ensures EquityCurve(b, cost, i + 1) == EquityCurve(b, cost, i) + [EquityAt(b, cost, i)]
    ensures EquityAt(b, cost, i) == Worth(After(b, cost, i + 1), b.closes[i])
  {
  }

  lemma {:induction false} CurveIsPositive(b: Bars, cost: real, k: nat)
    requires b.Valid() && IsCost(cost) && k <= |b.closes|
    ensures Positive(EquityCurve(b, cost, k))
  {
    hide EquityAt;
    if k > 0 {
      CurveIsPositive(b, cost, k - 1);
      EquityIsProduct(b, cost, k - 1);
    }
  }

  method Backtest(b: Bars, cost: real)
    returns (ret: real, hold: real, trades: nat, winRate: Option<real>, drop: real)
    requires b.Valid() && IsCost(cost) && b.closes != []
    ensures var n := |b.closes|;
            && ret == EquityAt(b, cost, n - 1) - 1.0
            && hold == b.closes[n - 1] / b.closes[0] - 1.0
            && trades == |Trips(b, n)|
            && winRate == (if trades == 0 then None else Some(WinCount(b, Trips(b, n), cost) as real / trades as real))
            && IsDrawdown(EquityCurve(b, cost, n), drop)
  {
    hide Enters, Leaves, EquityAt, IsDrawdown, WinCount, Trips, EquityCurve, BuyPrice, SellPrice, After;
    CurveStarts(b, cost);
    var cash, shares, entryPx := 1.0, 0.0, 0.0;
    var wins: nat := 0;
    trades := 0;
    var equity: Series := [];
    for i := 0 to |b.closes|
      invariant Ledger(cash, shares, entryPx, wins, trades) == After(b, cost, i)
      invariant equity == EquityCurve(b, cost, i)
    {
      AfterNext(b, cost, i);
      if shares == 0.0 && Enters(b, i) {
        entryPx := BuyPrice(b.opens[i], cost);
        shares := cash / entryPx;
        cash := 0.0;
      } else if shares > 0.0 && Leaves(b, i) {
        cash := shares * SellPrice(b.opens[i], cost);
        trades := trades + 1;
        if cash > shares * entryPx {
          wins := wins + 1;
        }
        shares := 0.0;
      }
      CurveGrows(b, cost, i);
      var value := if shares == 0.0 then cash else shares * b.closes[i];
      assert value == EquityAt(b, cost, i);
      equity := equity + [value];
    }
    LedgerFollowsTrips(b, cost, |b.closes|);
    CurveIsPositive(b, cost, |b.closes|);
    CurveGrows(b, cost, |b.closes| - 1);
    ret := equity[|equity| - 1] - 1.0;
    hold := b.closes[|b.closes| - 1] / b.closes[0] - 1.0;
    drop := MaxDrawdown(equity);
    winRate := if trades == 0 then None else Some(wins as real / trades as real);
  }
}
