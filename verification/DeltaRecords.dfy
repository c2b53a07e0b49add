/** The delta-coded lists: live trades, historical orders and historical trades, whose prices
    are running sums, and ticks, whose prices are offsets from the first. Raw integers, before
    any scaling. */
module DeltaRecords {
  import opened Bytes
  import opened Codec
  import opened RecordStream
  import opened Sequences

  const TRADE := Layout(true, 5, true)
  const ORDER := Layout(false, 3, true)
  const PAST_TRADE := Layout(true, 4, true)
  const TICK := Layout(false, 3, false)

  datatype Side = Buy | Sell | Neutral

  datatype Transaction = Transaction(datetime: int, price: int, volume: int, id: int, side: Side)
  datatype HistoryOrder = HistoryOrder(price: int, unknown: int, volume: int)
  datatype HistoryTransaction = HistoryTransaction(minutes: nat, price: int, volume: int, side: int)
  datatype Tick = Tick(price: int, avg: int, volume: int)

  function SideOf(v: int): Side { if v == 0 then Buy else if v == 1 then Sell else Neutral }

  /** Seconds since midnight of a minute-of-day word. */
  function SecondsOf(minutes: nat): nat { minutes / 60 % 24 * 3600 + minutes % 60 * 60 }

  // ---------- what the parsers make of the raw records ----------

  function ToTransaction(r: Raw, price: int): Transaction
    requires |r.fields| == 5
  {
    Transaction(SecondsOf(r.stamp), price, r.fields[1], r.fields[2], SideOf(r.fields[3]))
  }

  function Transactions(rs: seq<Raw>, last: int): seq<Transaction>
    requires forall i :: 0 <= i < |rs| ==> |rs[i].fields| == 5
  {
    if rs == [] then []
    else [ToTransaction(rs[0], last + rs[0].fields[0])] + Transactions(rs[1..], last + rs[0].fields[0])
  }

  function HistoryOrders(rs: seq<Raw>, last: int): seq<HistoryOrder>
    requires forall i :: 0 <= i < |rs| ==> |rs[i].fields| == 3
  {
    if rs == [] then []
    else [HistoryOrder(last + rs[0].fields[0], rs[0].fields[1], rs[0].fields[2])]
         + HistoryOrders(rs[1..], last + rs[0].fields[0])
  }

  function HistoryTransactions(rs: seq<Raw>, last: int): seq<HistoryTransaction>
    requires forall i :: 0 <= i < |rs| ==> |rs[i].fields| == 4
  {
    if rs == [] then []
    else [HistoryTransaction(rs[0].stamp, last + rs[0].fields[0], rs[0].fields[1], rs[0].fields[2])]
         + HistoryTransactions(rs[1..], last + rs[0].fields[0])
  }

  /** The first nonzero value read becomes the base of all later ones. */
  function Base(start: int, read: int): int { if start == 0 then read else start }

  function Ticks(rs: seq<Raw>, price: int, avg: int): seq<Tick>
    requires forall i :: 0 <= i < |rs| ==> |rs[i].fields| == 3
  {
    if rs == [] then []
    else
      var f := rs[0].fields;
      [Tick(price + f[0], avg + f[1], f[2])] + Ticks(rs[1..], Base(price, f[0]), Base(avg, f[1]))
  }

  function ParsedTransactions(data: seq<Byte>): seq<Transaction> {
    if |data| < 2 then [] else TradesFrom(data, 2, Read16(data, 0), 0)
  }

  function ParsedOrders(data: seq<Byte>): seq<HistoryOrder> {
    if |data| < 6 then [] else OrdersFrom(data, 6, Read16(data, 0), 0)
  }

  function ParsedHistory(data: seq<Byte>): seq<HistoryTransaction> {
    if |data| < 6 then [] else PastFrom(data, 6, Read16(data, 0), 0)
  }

  function ParsedTicks(data: seq<Byte>): seq<Tick> {
    if |data| < 4 then [] else TicksFrom(data, 4, Read16(data, 0), 0, 0)
  }

  // ---------- one record at a time ----------

  /** What is still to come of a message of which `n` records are left at `pos`. */
  function TradesFrom(data: seq<Byte>, pos: nat, n: nat, last: int): seq<Transaction> {
    Transactions(RawFrom(TRADE, data, pos, n), last)
  }

  function OrdersFrom(data: seq<Byte>, pos: nat, n: nat, last: int): seq<HistoryOrder> {
    HistoryOrders(RawFrom(ORDER, data, pos, n), last)
  }

  function PastFrom(data: seq<Byte>, pos: nat, n: nat, last: int): seq<HistoryTransaction> {
    HistoryTransactions(RawFrom(PAST_TRADE, data, pos, n), last)
  }

  function TicksFrom(data: seq<Byte>, pos: nat, n: nat, price: int, avg: int): seq<Tick> {
    Ticks(RawFrom(TICK, data, pos, n), price, avg)
  }

  lemma TradesUnfold(data: seq<Byte>, pos: nat, n: nat, last: int)
    ensures n == 0 || TRADE.Stops(data, pos) ==> TradesFrom(data, pos, n, last) == []
    ensures n > 0 && !TRADE.Stops(data, pos) ==>
              var price := last + RawAt(TRADE, data, pos).fields[0];
              TradesFrom(data, pos, n, last)
                == [ToTransaction(RawAt(TRADE, data, pos), price)]
                   + TradesFrom(data, NextAt(TRADE, data, pos), n - 1, price)
  {
    hide RawAt, NextAt, ToTransaction;
  }

  lemma OrdersUnfold(data: seq<Byte>, pos: nat, n: nat, last: int)
    ensures n == 0 || ORDER.Stops(data, pos) ==> OrdersFrom(data, pos, n, last) == []
    ensures n > 0 && !ORDER.Stops(data, pos) ==>
              var f := RawAt(ORDER, data, pos).fields;
              OrdersFrom(data, pos, n, last)
                == [HistoryOrder(last + f[0], f[1], f[2])]
                   + OrdersFrom(data, NextAt(ORDER, data, pos), n - 1, last + f[0])
  {
    hide RawAt, NextAt;
  }

  lemma PastUnfold(data: seq<Byte>, pos: nat, n: nat, last: int)
    ensures n == 0 || PAST_TRADE.Stops(data, pos) ==> PastFrom(data, pos, n, last) == []
    ensures n > 0 && !PAST_TRADE.Stops(data, pos) ==>
              var r := RawAt(PAST_TRADE, data, pos);
              PastFrom(data, pos, n, last)
                == [HistoryTransaction(r.stamp, last + r.fields[0], r.fields[1], r.fields[2])]
                   + PastFrom(data, NextAt(PAST_TRADE, data, pos), n - 1, last + r.fields[0])
  {
    hide RawAt, NextAt;
  }

  lemma TicksUnfold(data: seq<Byte>, pos: nat, n: nat, price: int, avg: int)
    ensures n == 0 ==> TicksFrom(data, pos, n, price, avg) == []
    ensures n > 0 ==>
              var f := RawAt(TICK, data, pos).fields;
              TicksFrom(data, pos, n, price, avg)
                == [Tick(price + f[0], avg + f[1], f[2])]
                   + TicksFrom(data, NextAt(TICK, data, pos), n - 1, Base(price, f[0]), Base(avg, f[1]))
  {
  }

  // ---------- the parsers ----------

  /** One field: the value, and the fields read so far. */
  method ReadField(data: seq<Byte>, ghost at: nat, ghost k: nat, pos: nat) returns (value: int, next: nat)
    requires pos == DecodeAll(data, at, k).next
    ensures DecodeAll(data, at, k + 1) == Fields(DecodeAll(data, at, k).values + [value], next)
  {
    hide Decode;
    value, next := GetPrice(data, pos);
  }

  /** One trade, or none if the buffer ends before its last field. */
  method ReadTrade(data: seq<Byte>, start: nat)
    returns (ok: bool, minutes: nat, price: int, vol: int, id: int, side: int, next: nat)
    ensures ok <==> !TRADE.Stops(data, start)
    ensures ok ==> RawAt(TRADE, data, start).stamp == minutes && NextAt(TRADE, data, start) == next
    ensures ok ==> var f := RawAt(TRADE, data, start).fields;
                   f[0] == price && f[1] == vol && f[2] == id && f[3] == side
  {
    hide Decode, DecodeAll;
    ok, minutes, price, vol, id, side, next := false, 0, 0, 0, 0, 0, start;
    if start + 2 > |data| {
      return;
    }
    minutes := Read16(data, start);
    next := start + 2;
    ZeroFields(data, start + 2);
    NextIsLater(data, start + 2, 4);
    price, next := ReadField(data, start + 2, 0, next);
    if next > |data| {
      return;
    }
    vol, next := ReadField(data, start + 2, 1, next);
    if next > |data| {
      return;
    }
    id, next := ReadField(data, start + 2, 2, next);
    if next > |data| {
      return;
    }
    side, next := ReadField(data, start + 2, 3, next);
    if next > |data| {
      return;
    }
    var unknown;
    unknown, next := ReadField(data, start + 2, 4, next);
    ok := true;
  }

  method DeserializeTransaction(data: seq<Byte>) returns (result: seq<Transaction>)
    ensures result == ParsedTransactions(data)
  {
    hide RawAt, NextAt, TradesFrom, Layout.Stops, Read16;
    result := [];
    if |data| < 2 {
      return;
    }
    var count := Read16(data, 0);
    var pos: nat := 2;
    var lastPrice := 0;
    for i := 0 to count
      invariant result + TradesFrom(data, pos, count - i, lastPrice) == ParsedTransactions(data)
    {
      var ok, minutes, price, vol, id, side, next := ReadTrade(data, pos);
      if !ok {
        TradesUnfold(data, pos, count - i, lastPrice);
        TradesUnfold(data, pos, 0, lastPrice);
        return;
      }
      NextTrade(result, data, pos, count - i, lastPrice);
      pos := next;
      lastPrice := lastPrice + price;
      var txn := Transaction(minutes / 60 % 24 * 3600 + minutes % 60 * 60, lastPrice, vol, id,
                             if side == 0 then Buy else if side == 1 then Sell else Neutral);
      result := result + [txn];
    }
    TradesUnfold(data, pos, 0, lastPrice);
  }

  method ReadOrder(data: seq<Byte>, start: nat)
    returns (ok: bool, price: int, unknown: int, vol: int, next: nat)
    ensures ok <==> !ORDER.Stops(data, start)
    ensures ok ==> var f := RawAt(ORDER, data, start).fields; f[0] == price && f[1] == unknown && f[2] == vol
    ensures ok ==> NextAt(ORDER, data, start) == next
  {
    hide Decode, DecodeAll;
    ok, price, unknown, vol, next := false, 0, 0, 0, start;
    if start >= |data| {
      return;
    }
    ZeroFields(data, start);
    NextIsLater(data, start, 2);
    price, next := ReadField(data, start, 0, next);
    if next > |data| {
      return;
    }
    unknown, next := ReadField(data, start, 1, next);
    if next > |data| {
      return;
    }
    vol, next := ReadField(data, start, 2, next);
    ok := true;
  }

  method DeserializeHistoryOrders(data: seq<Byte>) returns (result: seq<HistoryOrder>)
    ensures result == ParsedOrders(data)
  {
    hide RawAt, NextAt, OrdersFrom, Layout.Stops, Read16;
    result := [];
    if |data| < 6 {
      return;
    }
    var count := Read16(data, 0);
    var pos: nat := 6;
    var lastPrice := 0;
    for i := 0 to count
      invariant result + OrdersFrom(data, pos, count - i, lastPrice) == ParsedOrders(data)
    {
      OrdersUnfold(data, pos, count - i, lastPrice);
      var ok, price, unknown, vol, next := ReadOrder(data, pos);
      if !ok {
        break;
      }
      pos := next;
      lastPrice := lastPrice + price;
      Associative(result, [HistoryOrder(lastPrice, unknown, vol)], OrdersFrom(data, pos, count - i - 1, lastPrice));
      result := result + [HistoryOrder(lastPrice, unknown, vol)];
    }
    OrdersUnfold(data, pos, 0, lastPrice);
  }

  method ReadPastTrade(data: seq<Byte>, start: nat)
    returns (ok: bool, minutes: nat, price: int, vol: int, side: int, next: nat)
    ensures ok <==> !PAST_TRADE.Stops(data, start)
    ensures ok ==> RawAt(PAST_TRADE, data, start).stamp == minutes && NextAt(PAST_TRADE, data, start) == next
    ensures ok ==> var f := RawAt(PAST_TRADE, data, start).fields;
                   f[0] == price && f[1] == vol && f[2] == side
  {
    hide Decode, DecodeAll;
    ok, minutes, price, vol, side, next := false, 0, 0, 0, 0, start;
    if start + 2 > |data| {
      return;
    }
    minutes := Read16(data, start);
    next := start + 2;
    ZeroFields(data, start + 2);
    NextIsLater(data, start + 2, 3);
    price, next := ReadField(data, start + 2, 0, next);
    if next > |data| {
      return;
    }
    vol, next := ReadField(data, start + 2, 1, next);
    if next > |data| {
      return;
    }
    side, next := ReadField(data, start + 2, 2, next);
    if next > |data| {
      return;
    }
    var unknown;
    unknown, next := ReadField(data, start + 2, 3, next);
    ok := true;
  }

  method DeserializeHistoryTransaction(data: seq<Byte>) returns (result: seq<HistoryTransaction>)
    ensures result == ParsedHistory(data)
  {
    hide RawAt, NextAt, PastFrom, Layout.Stops, Read16;
    result := [];
    if |data| < 6 {
      return;
    }
    var count := Read16(data, 0);
    var pos: nat := 6;
    var lastPrice := 0;
    for i := 0 to count
      invariant result + PastFrom(data, pos, count - i, lastPrice)
                  == ParsedHistory(data)
    {
      PastUnfold(data, pos, count - i, lastPrice);
      var ok, minutes, price, vol, side, next := ReadPastTrade(data, pos);
      if !ok {
        break;
      }
      pos := next;
      lastPrice := lastPrice + price;
      Associative(result, [HistoryTransaction(minutes, lastPrice, vol, side)],
                  PastFrom(data, pos, count - i - 1, lastPrice));
      result := result + [HistoryTransaction(minutes, lastPrice, vol, side)];
    }
    PastUnfold(data, pos, 0, lastPrice);
  }

  /** A tick is read without any check of the buffer's end. */
  method ReadTick(data: seq<Byte>, start: nat) returns (price: int, avg: int, vol: int, next: nat)
    ensures !TICK.Stops(data, start)
    ensures NextAt(TICK, data, start) == next
    ensures var f := RawAt(TICK, data, start).fields; f[0] == price && f[1] == avg && f[2] == vol
  {
    hide Decode, DecodeAll;
    ZeroFields(data, start);
    price, next := ReadField(data, start, 0, start);
    avg, next := ReadField(data, start, 1, next);
    vol, next := ReadField(data, start, 2, next);
  }

  method DeserializeTick(data: seq<Byte>) returns (result: seq<Tick>)
    ensures result == ParsedTicks(data)
  {
    hide RawAt, NextAt, TicksFrom, Layout.Stops, Read16;
    result := [];
    if |data| < 4 {
      return;
    }
    var num := Read16(data, 0);
    var pos: nat := 4;
    var startPrice, startAvg := 0, 0;
    for i := 0 to num
      invariant result + TicksFrom(data, pos, num - i, startPrice, startAvg) == ParsedTicks(data)
    {
      NextTick(result, data, pos, num - i, startPrice, startAvg);
      var price, avg, vol;
      price, avg, vol, pos := ReadTick(data, pos);
      result := result + [Tick(startPrice + price, startAvg + avg, vol)];
      if startPrice == 0 {
        startPrice := price;
      }
      if startAvg == 0 {
        startAvg := avg;
      }
    }
    TicksUnfold(data, pos, 0, startPrice, startAvg);
  }

  /** One turn of the tick loop. */
  lemma NextTick(done: seq<Tick>, data: seq<Byte>, pos: nat, n: nat, price: int, avg: int)
    requires n > 0
    ensures var f := RawAt(TICK, data, pos).fields;
            done + TicksFrom(data, pos, n, price, avg)
              == (done + [Tick(price + f[0], avg + f[1], f[2])])
                 + TicksFrom(data, NextAt(TICK, data, pos), n - 1, Base(price, f[0]), Base(avg, f[1]))
  {
    hide RawAt, NextAt, TicksFrom, Base;
    TicksUnfold(data, pos, n, price, avg);
    var f := RawAt(TICK, data, pos).fields;
    Associative(done, [Tick(price + f[0], avg + f[1], f[2])],
                TicksFrom(data, NextAt(TICK, data, pos), n - 1, Base(price, f[0]), Base(avg, f[1])));
  }

  /** One turn of the trade loop. */
  lemma NextTrade(done: seq<Transaction>, data: seq<Byte>, pos: nat, n: nat, last: int)
    requires n > 0 && !TRADE.Stops(data, pos)
    ensures var r := RawAt(TRADE, data, pos);
            done + TradesFrom(data, pos, n, last)
              == (done + [ToTransaction(r, last + r.fields[0])])
                 + TradesFrom(data, NextAt(TRADE, data, pos), n - 1, last + r.fields[0])
  {
    hide RawAt, NextAt, TradesFrom, ToTransaction, Layout.Stops;
    TradesUnfold(data, pos, n, last);
    var r := RawAt(TRADE, data, pos);
    Associative(done, [ToTransaction(r, last + r.fields[0])],
                TradesFrom(data, NextAt(TRADE, data, pos), n - 1, last + r.fields[0]));
  }

  lemma ZeroFields(data: seq<Byte>, at: nat)
    ensures DecodeAll(data, at, 0) == Fields([], at)
  {
  }

  /** Running past the end at an early field means running past it at field `n`. */
  lemma NextIsLater(data: seq<Byte>, at: nat, n: nat)
    ensures forall m: nat :: m <= n ==> DecodeAll(data, at, m).next <= DecodeAll(data, at, n).next
  {
  }
}
