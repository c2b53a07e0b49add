/** Printers for the delta-coded lists, and the proofs that the parsers undo them. */
module DeltaRoundTrip {
  import opened Bytes
  import opened Codec
  import opened RecordStream
  import opened DeltaRecords

  // ---------- printers ----------

  /** A trade as the server sees it. */
  datatype Trade = Trade(minutes: nat, price: int, volume: int, id: int, side: int, unknown: int)

  predicate TradeOk(t: Trade) {
    && t.minutes < TWO_16 && SmallPrice(t.price)
    && Encodable(t.volume) && Encodable(t.id) && Encodable(t.side) && Encodable(t.unknown)
  }

  function TradeRaws(ts: seq<Trade>, last: int): (r: seq<Raw>)
    requires SmallPrice(last) && forall i :: 0 <= i < |ts| ==> TradeOk(ts[i])
    ensures |r| == |ts| && forall i :: 0 <= i < |r| ==> Printable(TRADE, r[i])
  {
    if ts == [] then []
    else
      var t := ts[0];
      assert TradeOk(t);
      [Raw(t.minutes, [t.price - last, t.volume, t.id, t.side, t.unknown])] + TradeRaws(ts[1..], t.price)
  }

  function OrderRaws(os: seq<HistoryOrder>, last: int): (r: seq<Raw>)
    requires SmallPrice(last) && forall i :: 0 <= i < |os| ==> OrderOk(os[i])
    ensures |r| == |os| && forall i :: 0 <= i < |r| ==> Printable(ORDER, r[i])
  {
    if os == [] then []
    else
      assert OrderOk(os[0]);
      [Raw(0, [os[0].price - last, os[0].unknown, os[0].volume])] + OrderRaws(os[1..], os[0].price)
  }

  predicate OrderOk(o: HistoryOrder) { SmallPrice(o.price) && Encodable(o.unknown) && Encodable(o.volume) }

  function PastRaws(ts: seq<HistoryTransaction>, last: int): (r: seq<Raw>)
    requires SmallPrice(last) && forall i :: 0 <= i < |ts| ==> PastOk(ts[i])
    ensures |r| == |ts| && forall i :: 0 <= i < |r| ==> Printable(PAST_TRADE, r[i])
  {
    if ts == [] then []
    else
      var t := ts[0];
      assert PastOk(t);
      [Raw(t.minutes, [t.price - last, t.volume, t.side, 0])] + PastRaws(ts[1..], t.price)
  }

  predicate PastOk(t: HistoryTransaction) {
    t.minutes < TWO_16 && SmallPrice(t.price) && Encodable(t.volume) && Encodable(t.side)
  }

  /** A message: a 16-bit count, `filler` header bytes, the records, and anything after. */
  function Message(lay: Layout, filler: seq<Byte>, rs: seq<Raw>, rest: seq<Byte>): seq<Byte>
    requires |rs| < TWO_16 && forall i :: 0 <= i < |rs| ==> Printable(lay, rs[i])
  {
    Print16(|rs|) + filler + PrintRaws(lay, rs) + rest
  }

  lemma MessageRaws(lay: Layout, filler: seq<Byte>, rs: seq<Raw>, rest: seq<Byte>)
    requires lay.Ok() && |rs| < TWO_16 && forall i :: 0 <= i < |rs| ==> Printable(lay, rs[i])
    ensures var m := Message(lay, filler, rs, rest);
            && |m| >= 2 + |filler| && Read16(m, 0) == |rs|
            && RawFrom(lay, m, 2 + |filler|, |rs|) == rs
  {
    hide RawFrom, PrintRaws, Print16, Read16;
    var m := Message(lay, filler, rs, rest);
    var head := Print16(|rs|);
    assert m == head + (filler + (PrintRaws(lay, rs) + rest));
    assert m[0..|m|] == m;
    AtSplit(m, 0, head, filler + (PrintRaws(lay, rs) + rest));
    AtSplit(m, 2, filler, PrintRaws(lay, rs) + rest);
    AtSplit(m, 2 + |filler|, PrintRaws(lay, rs), rest);
    Read16Print16(m, 0, |rs|);
    RawRoundTrip(lay, m, 2 + |filler|, rs);
  }

  // ---------- round trips ----------

  /** What a trade should be read as: its minute of the day in seconds, and the side the server
      numbers 0 for bought and 1 for sold. */
  function Shown(t: Trade): Transaction {
    Transaction(60 * (t.minutes % 1440), t.price, t.volume, t.id,
                if t.side == 0 then Buy else if t.side == 1 then Sell else Neutral)
  }

  lemma SecondsOfDay(minutes: nat)
    ensures SecondsOf(minutes) == 60 * (minutes % 1440)
  {
    var q, r := minutes / 1440, minutes % 1440;
    assert minutes == 1440 * q + r;
    assert minutes / 60 == 24 * q + r / 60 && minutes % 60 == r % 60;
    assert (24 * q + r / 60) % 24 == r / 60;
  }

  function ShownAll(ts: seq<Trade>): seq<Transaction> { seq(|ts|, i requires 0 <= i < |ts| => Shown(ts[i])) }

  lemma {:induction false} TradeSums(ts: seq<Trade>, last: int)
    requires SmallPrice(last) && forall i :: 0 <= i < |ts| ==> TradeOk(ts[i])
    ensures Transactions(TradeRaws(ts, last), last) == ShownAll(ts)
  {
    if ts != [] {
      SecondsOfDay(ts[0].minutes);
      hide SecondsOf;
      TradeSums(ts[1..], ts[0].price);
      assert TradeRaws(ts, last)[1..] == TradeRaws(ts[1..], ts[0].price);
    }
  }

  /** Trades printed as successive price differences are parsed back, whatever follows. */
  lemma TransactionsRoundTrip(ts: seq<Trade>, rest: seq<Byte>)
    requires |ts| < TWO_16 && forall i :: 0 <= i < |ts| ==> TradeOk(ts[i])
    ensures ParsedTransactions(Message(TRADE, [], TradeRaws(ts, 0), rest))
              == ShownAll(ts)
  {
    hide Message, RawFrom, Transactions, TradeRaws, ShownAll, Read16, TradeOk, Printable, ParsedTransactions;
    var rs := TradeRaws(ts, 0);
    MessageRaws(TRADE, [], rs, rest);
    TradeSums(ts, 0);
    ParseOf(Message(TRADE, [], rs, rest), rs);
  }

  lemma ParseOf(m: seq<Byte>, rs: seq<Raw>)
    requires |m| >= 2 && Read16(m, 0) == |rs| && RawFrom(TRADE, m, 2, |rs|) == rs
    requires forall i :: 0 <= i < |rs| ==> |rs[i].fields| == 5
    ensures ParsedTransactions(m) == Transactions(rs, 0)
  {
  }

  lemma {:induction false} OrderSums(os: seq<HistoryOrder>, last: int)
    requires SmallPrice(last) && forall i :: 0 <= i < |os| ==> OrderOk(os[i])
    ensures HistoryOrders(OrderRaws(os, last), last) == os
  {
    if os != [] {
      OrderSums(os[1..], os[0].price);
      assert OrderRaws(os, last)[1..] == OrderRaws(os[1..], os[0].price);
    }
  }

  lemma OrdersRoundTrip(os: seq<HistoryOrder>, header: seq<Byte>, rest: seq<Byte>)
    requires |os| < TWO_16 && |header| == 4 && forall i :: 0 <= i < |os| ==> OrderOk(os[i])
    ensures ParsedOrders(Message(ORDER, header, OrderRaws(os, 0), rest)) == os
  {
    hide Message, RawFrom, Transactions, HistoryOrders, HistoryTransactions, TradeRaws, OrderRaws, PastRaws;
    MessageRaws(ORDER, header, OrderRaws(os, 0), rest);
    OrderSums(os, 0);
  }

  lemma {:induction false} PastSums(ts: seq<HistoryTransaction>, last: int)
    requires SmallPrice(last) && forall i :: 0 <= i < |ts| ==> PastOk(ts[i])
    ensures HistoryTransactions(PastRaws(ts, last), last) == ts
  {
    if ts != [] {
      PastSums(ts[1..], ts[0].price);
      assert PastRaws(ts, last)[1..] == PastRaws(ts[1..], ts[0].price);
    }
  }

  lemma HistoryRoundTrip(ts: seq<HistoryTransaction>, header: seq<Byte>, rest: seq<Byte>)
    requires |ts| < TWO_16 && |header| == 4 && forall i :: 0 <= i < |ts| ==> PastOk(ts[i])
    ensures ParsedHistory(Message(PAST_TRADE, header, PastRaws(ts, 0), rest)) == ts
  {
    hide Message, RawFrom, Transactions, HistoryOrders, HistoryTransactions, TradeRaws, OrderRaws, PastRaws;
    MessageRaws(PAST_TRADE, header, PastRaws(ts, 0), rest);
    PastSums(ts, 0);
  }
}

/** The tick list, whose offsets from the first value cannot always be told from absolute values. */
module TickRoundTrip {
  import opened Bytes
  import opened Codec
  import opened RecordStream
  import opened DeltaRecords
  import opened DeltaRoundTrip

  /** Ticks: the first one absolute, the others relative to it. */
  function TickRaws(ts: seq<Tick>): (r: seq<Raw>)
    requires forall i :: 0 <= i < |ts| ==> TickOk(ts[i])
    ensures |r| == |ts| && forall i :: 0 <= i < |r| ==> Printable(TICK, r[i])
  {
    assert forall i :: 0 <= i < |ts| ==> TickOk(ts[i]) && TickOk(ts[0]);
    seq(|ts|, i requires 0 <= i < |ts| =>
      Raw(0, [Offset(ts[i].price, ts[0].price, i), Offset(ts[i].avg, ts[0].avg, i), ts[i].volume]))
  }

  function Offset(v: int, first: int, i: int): int { if i == 0 then v else v - first }

  predicate TickOk(t: Tick) { SmallPrice(t.price) && SmallPrice(t.avg) && Encodable(t.volume) }

  // ---------- ticks ----------

  /** Whether offsets from the first value can be told from absolute values: the first value
      is not zero, or nothing follows the first nonzero one. */
  predicate Recoverable(vs: seq<int>) {
    vs == [] || vs[0] != 0 || forall i :: 0 <= i < |vs| - 1 ==> vs[i] == 0
  }

  /** One column of a tick list as the parser rebuilds it. */
  function Column(ds: seq<int>, base: int): (r: seq<int>)
    ensures |r| == |ds|
  {
    if ds == [] then [] else [base + ds[0]] + Column(ds[1..], Base(base, ds[0]))
  }

  function Offsets(vs: seq<int>): (r: seq<int>)
    ensures |r| == |vs|
  {
    seq(|vs|, i requires 0 <= i < |vs| => Offset(vs[i], vs[0], i))
  }

  lemma {:induction false} ColumnShifts(ds: seq<int>, base: int)
    requires base != 0
    ensures forall i :: 0 <= i < |ds| ==> Column(ds, base)[i] == base + ds[i]
  {
    if ds != [] {
      ColumnShifts(ds[1..], base);
    }
  }

  /** A column that starts with zeros is misread right after its first nonzero value. */
  lemma {:induction false} ZeroBaseColumn(vs: seq<int>)
    ensures Column(vs, 0) == vs <==> forall i :: 0 <= i < |vs| - 1 ==> vs[i] == 0
  {
    if |vs| > 1 {
      var tail := vs[1..];
      assert Column(vs, 0)[1..] == Column(tail, vs[0]);
      assert Column(vs, 0) == vs <==> Column(tail, vs[0]) == tail;
      if vs[0] != 0 {
        ColumnShifts(tail, vs[0]);
        assert Column(tail, vs[0])[0] != tail[0];
        assert !(forall i :: 0 <= i < |vs| - 1 ==> vs[i] == 0);
      } else {
        ZeroBaseColumn(tail);
        assert (forall i :: 0 <= i < |vs| - 1 ==> vs[i] == 0)
          <==> (forall i :: 0 <= i < |tail| - 1 ==> tail[i] == 0) by {
          if forall i :: 0 <= i < |vs| - 1 ==> vs[i] == 0 {
            assert forall i :: 0 <= i < |tail| - 1 ==> tail[i] == vs[i + 1];
          }
          if forall i :: 0 <= i < |tail| - 1 ==> tail[i] == 0 {
            assert forall i :: 1 <= i < |vs| - 1 ==> vs[i] == tail[i - 1];
          }
        }
      }
    }
  }

  lemma ColumnRecovers(vs: seq<int>)
    ensures Column(Offsets(vs), 0) == vs <==> Recoverable(vs)
  {
    if vs != [] {
      if vs[0] != 0 {
        var tail := Offsets(vs)[1..];
        ColumnShifts(tail, vs[0]);
        assert Column(Offsets(vs), 0) == [vs[0]] + Column(tail, vs[0]);
      } else {
        assert Offsets(vs) == vs;
        ZeroBaseColumn(vs);
      }
    }
  }

  function Prices(ts: seq<Tick>): (r: seq<int>)
    ensures |r| == |ts|
  {
    seq(|ts|, i requires 0 <= i < |ts| => ts[i].price)
  }

  function Averages(ts: seq<Tick>): (r: seq<int>)
    ensures |r| == |ts|
  {
    seq(|ts|, i requires 0 <= i < |ts| => ts[i].avg)
  }

  function FieldColumn(rs: seq<Raw>, k: nat): (r: seq<int>)
    requires forall i :: 0 <= i < |rs| ==> k < |rs[i].fields|
    ensures |r| == |rs|
  {
    seq(|rs|, i requires 0 <= i < |rs| => rs[i].fields[k])
  }

  lemma {:induction false} TicksAreColumns(rs: seq<Raw>, price: int, avg: int)
    requires forall i :: 0 <= i < |rs| ==> |rs[i].fields| == 3
    ensures |Ticks(rs, price, avg)| == |rs|
    ensures forall i :: 0 <= i < |rs| ==>
              Ticks(rs, price, avg)[i] == Tick(Column(FieldColumn(rs, 0), price)[i],
                                               Column(FieldColumn(rs, 1), avg)[i], rs[i].fields[2])
  {
    if rs != [] {
      var f := rs[0].fields;
      TicksAreColumns(rs[1..], Base(price, f[0]), Base(avg, f[1]));
      assert FieldColumn(rs, 0)[1..] == FieldColumn(rs[1..], 0);
      assert FieldColumn(rs, 1)[1..] == FieldColumn(rs[1..], 1);
    }
  }

  /** What the parser makes of any printed ticks: each column rebuilt from its offsets. */
  lemma ParsedColumns(ts: seq<Tick>, header: seq<Byte>, rest: seq<Byte>)
    requires |ts| < TWO_16 && |header| == 2 && forall i :: 0 <= i < |ts| ==> TickOk(ts[i])
    ensures var parsed := ParsedTicks(Message(TICK, header, TickRaws(ts), rest));
            && |parsed| == |ts|
            && forall i :: 0 <= i < |ts| ==>
                 parsed[i] == Tick(Column(Offsets(Prices(ts)), 0)[i], Column(Offsets(Averages(ts)), 0)[i], ts[i].volume)
  {
    hide Column, Ticks, RawFrom, Message, Read16;
    var rs := TickRaws(ts);
    MessageRaws(TICK, header, rs, rest);
    TicksAreColumns(rs, 0, 0);
    assert FieldColumn(rs, 0) == Offsets(Prices(ts));
    assert FieldColumn(rs, 1) == Offsets(Averages(ts));
  }

  /** Ticks round trip exactly when both columns can be recovered: a zero first price (or
      average) followed by two or more later records is misread as soon as one is nonzero. */
  lemma TicksRoundTrip(ts: seq<Tick>, header: seq<Byte>, rest: seq<Byte>)
    requires |ts| < TWO_16 && |header| == 2 && forall i :: 0 <= i < |ts| ==> TickOk(ts[i])
    ensures (ParsedTicks(Message(TICK, header, TickRaws(ts), rest)) == ts)
              <==> (Recoverable(Prices(ts)) && Recoverable(Averages(ts)))
  {
    hide Column, ParsedTicks, Message, TickRaws, Recoverable, TickOk, Offsets;
    ParsedColumns(ts, header, rest);
    ColumnRecovers(Prices(ts));
    ColumnRecovers(Averages(ts));
    SameTicks(ParsedTicks(Message(TICK, header, TickRaws(ts), rest)), ts,
              Column(Offsets(Prices(ts)), 0), Column(Offsets(Averages(ts)), 0));
  }

  lemma SameTicks(parsed: seq<Tick>, ts: seq<Tick>, prices: seq<int>, averages: seq<int>)
    requires |parsed| == |ts| == |prices| == |averages|
    requires forall i :: 0 <= i < |ts| ==> parsed[i] == Tick(prices[i], averages[i], ts[i].volume)
    ensures parsed == ts <==> prices == Prices(ts) && averages == Averages(ts)
  {
    if parsed == ts {
      forall i | 0 <= i < |ts| ensures prices[i] == Prices(ts)[i] && averages[i] == Averages(ts)[i] {
        assert parsed[i] == ts[i];
      }
    }
  }

  lemma ThreeColumn(a: int, b: int, c: int)
    ensures Column([a, b, c], 0) == [a, Base(0, a) + b, Base(Base(0, a), b) + c]
  {
    var tail, last := [b, c], [c];
    assert [a, b, c][1..] == tail && tail[1..] == last && last[1..] == [];
    var base := Base(0, a);
    assert Column(last, Base(base, b)) == [Base(base, b) + c];
    assert Column(tail, base) == [base + b] + Column(last, Base(base, b));
    assert Column([a, b, c], 0) == [a] + Column(tail, base);
  }

  function Misread(): seq<Tick> { [Tick(0, 1, 0), Tick(5, 1, 0), Tick(7, 1, 0)] }

  lemma MisreadColumns()
    ensures Offsets(Prices(Misread())) == [0, 5, 7] && Offsets(Averages(Misread())) == [1, 0, 0]
    ensures Column([0, 5, 7], 0) == [0, 5, 12] && Column([1, 0, 0], 0) == [1, 1, 1]
  {
    ThreeColumn(0, 5, 7);
    ThreeColumn(1, 0, 0);
    hide Column;
  }

  /** The smallest misread list: prices 0, 5, 7 come back from the message as 0, 5, 12. */
  lemma ZeroFirstPriceIsMisread(header: seq<Byte>, rest: seq<Byte>)
    requires |header| == 2
    ensures (forall i :: 0 <= i < |Misread()| ==> TickOk(Misread()[i])) && Misread()[2].price == 7
    ensures ParsedTicks(Message(TICK, header, TickRaws(Misread()), rest))
         == [Tick(0, 1, 0), Tick(5, 1, 0), Tick(12, 1, 0)]
  {
    hide Message, ParsedTicks, Column, Offsets, TickRaws, Prices, Averages, Printable;
    MisreadColumns();
    ParsedColumns(Misread(), header, rest);
  }
}
