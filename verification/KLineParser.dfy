/** The K-line message: dates, variable-length prices, raw volume and amount words, and an
    up/down count word that may or may not be there. Prices before scaling; the volume word
    before its lot correction. */
module KLineParser {
  import opened Bytes
  import opened Codec
  import opened RecordStream
  import opened Calendar

  const MIN_BAR := 13
  const LAST_CHECKED := 4102444800
  const DAILY := 4

  /** The wire number of a period, and the current year the minute dates are checked against. */
  datatype Context = Context(period: nat, nowYear: int) {
    predicate Minute() { period < 4 || period == 7 || period == 8 }
  }

  datatype Bar = Bar(datetime: int, open: int, close: int, high: int, low: int,
                     volume: nat, amount: nat, up: nat, down: nat)

  function Datetime(cx: Context, word: nat): int { DatetimeOf(word, cx.Minute(), cx.nowYear) }

  /** Trading hours: daily bars at the close, others 9:30 to 11:30 and 13:00 to 15:00. */
  predicate InTradingHours(datetime: int, period: nat) {
    var mins := MinuteOf(datetime);
    if period == DAILY then mins == 900 else 570 <= mins <= 690 || 780 <= mins <= 900
  }

  predicate OutOfHours(cx: Context, datetime: int) {
    0 < datetime <= LAST_CHECKED && !InTradingHours(datetime, cx.period)
  }

  /** The guess: do the four bytes after a bar hold its counts, or the next bar's date? */
  predicate IsCount(cx: Context, word: nat, datetime: int) {
    if cx.Minute() then Datetime(cx, word) <= datetime
    else
      word / 10000 < 1990 || !Plausible(word % 10000 / 100, word % 100) || Datetime(cx, word) <= datetime
  }

  // ---------- what the parser computes ----------

  function Prices(data: seq<Byte>, pos: nat): Fields { DecodeAll(data, pos + 4, 4) }

  /** The buffer ends before the bar is complete, or too close to it for the parser's checks. */
  predicate Stops(data: seq<Byte>, pos: nat) {
    || pos + MIN_BAR > |data|
    || DecodeAll(data, pos + 4, 3).next + 9 > |data|
    || Prices(data, pos).next + 8 > |data|
  }

  function CountsAt(data: seq<Byte>, pos: nat): nat { Prices(data, pos).next + 8 }

  predicate HasCounts(cx: Context, data: seq<Byte>, pos: nat)
    requires !Stops(data, pos)
  {
    var at := CountsAt(data, pos);
    at + 4 <= |data| && IsCount(cx, Read32(data, at), Datetime(cx, Read32(data, pos)))
  }

  function BarAt(cx: Context, data: seq<Byte>, pos: nat): Bar
    requires !Stops(data, pos)
  {
    var v := Prices(data, pos).values;
    var at := CountsAt(data, pos);
    var counts := HasCounts(cx, data, pos);
    Bar(Datetime(cx, Read32(data, pos)), v[0], v[1], v[2], v[3], Read32(data, at - 8), Read32(data, at - 4),
        if counts then Read16(data, at) else 0, if counts then Read16(data, at + 2) else 0)
  }

  function NextBar(cx: Context, data: seq<Byte>, pos: nat): nat
    requires !Stops(data, pos)
  {
    CountsAt(data, pos) + if HasCounts(cx, data, pos) then 4 else 0
  }

  function BarsFrom(cx: Context, data: seq<Byte>, pos: nat, n: nat): seq<Bar>
    decreases n
  {
    if n == 0 || Stops(data, pos) then []
    else
      var bar := BarAt(cx, data, pos);
      (if OutOfHours(cx, bar.datetime) then [] else [bar]) + BarsFrom(cx, data, NextBar(cx, data, pos), n - 1)
  }

  function ParsedBars(cx: Context, data: seq<Byte>): seq<Bar> {
    if |data| < 2 then [] else BarsFrom(cx, data, 2, Read16(data, 0))
  }

  // ---------- the parser ----------

  /** The four prices, each behind its own check of the remaining bytes. */
  method ReadPrices(data: seq<Byte>, start: nat)
    returns (ok: bool, open: int, close: int, high: int, low: int, next: nat)
    ensures ok <==> DecodeAll(data, start, 3).next + 9 <= |data| && DecodeAll(data, start, 4).next + 8 <= |data|
    ensures ok ==> DecodeAll(data, start, 4) == Fields([open, close, high, low], next)
  {
    hide Decode, DecodeAll;
    ok, open, close, high, low, next := false, 0, 0, 0, 0, start;
    PricesUnfold(data, start);
    if next + 9 > |data| {
      return;
    }
    open, next := GetPrice(data, next);
    if next + 9 > |data| {
      return;
    }
    close, next := GetPrice(data, next);
    if next + 9 > |data| {
      return;
    }
    high, next := GetPrice(data, next);
    if next + 9 > |data| {
      return;
    }
    low, next := GetPrice(data, next);
    if next + 8 > |data| {
      return;
    }
    ok := true;
  }

  lemma PricesUnfold(data: seq<Byte>, at: nat)
    ensures var a := Decode(data, at);
            var b := Decode(data, a.next);
            var c := Decode(data, b.next);
            var d := Decode(data, c.next);
            && DecodeAll(data, at, 3) == Fields([a.value, b.value, c.value], c.next)
            && DecodeAll(data, at, 4) == Fields([a.value, b.value, c.value, d.value], d.next)
            && at < a.next < b.next < c.next < d.next
  {
    hide Decode;
    var a := Decode(data, at);
    var b := Decode(data, a.next);
    assert DecodeAll(data, at, 1) == Fields([a.value], a.next) by { assert DecodeAll(data, at, 0) == Fields([], at); }
    assert DecodeAll(data, at, 2) == Fields([a.value, b.value], b.next);
  }

  method DetectCounts(cx: Context, data: seq<Byte>, pos: nat, datetime: int) returns (isCount: bool)
    ensures isCount <==> pos + 4 <= |data| && IsCount(cx, Read32(data, pos), datetime)
  {
    hide DatetimeOf, Read32;
    isCount := false;
    if pos + 4 <= |data| {
      var tryDate := Read32(data, pos);
      if cx.Minute() {
        var tryDt := ToDatetime(tryDate, true, cx.nowYear);
        if tryDt <= datetime {
          isCount := true;
        }
      } else {
        var y, m, d := tryDate / 10000, tryDate % 10000 / 100, tryDate % 100;
        if y < 1990 || m < 1 || m > 12 || d < 1 || d > 31 {
          isCount := true;
        } else {
          var tryDt := ToDatetime(tryDate, false, cx.nowYear);
          if tryDt <= datetime {
            isCount := true;
          }
        }
      }
    }
  }

  method ReadBar(cx: Context, data: seq<Byte>, start: nat) returns (ok: bool, bar: Bar, next: nat)
    ensures ok <==> !Stops(data, start)
    ensures ok ==> bar == BarAt(cx, data, start) && next == NextBar(cx, data, start)
  {
    hide DecodeAll, IsCount, DatetimeOf, Read16, Read32;
    ok, bar, next := false, Bar(0, 0, 0, 0, 0, 0, 0, 0, 0), start;
    if next + MIN_BAR > |data| {
      return;
    }
    var dateNum := Read32(data, next);
    next := next + 4;
    var datetime := ToDatetime(dateNum, cx.Minute(), cx.nowYear);
    var full, open, close, high, low;
    full, open, close, high, low, next := ReadPrices(data, next);
    if !full {
      return;
    }
    var vol := Read32(data, next);
    var amount := Read32(data, next + 4);
    next := next + 8;
    var up, down := 0, 0;
    var isCount := DetectCounts(cx, data, next, datetime);
    if isCount {
      up := Read16(data, next);
      down := Read16(data, next + 2);
      next := next + 4;
    }
    ok := true;
    bar := Bar(datetime, open, close, high, low, vol, amount, up, down);
  }

  method DeserializeKline(cx: Context, data: seq<Byte>) returns (bars: seq<Bar>)
    ensures bars == ParsedBars(cx, data)
  {
    hide Stops, BarAt, NextBar, Read16;
    bars := [];
    if |data| < 2 {
      return;
    }
    var count := Read16(data, 0);
    var pos: nat := 2;
    for i := 0 to count
      invariant bars + BarsFrom(cx, data, pos, count - i) == ParsedBars(cx, data)
    {
      var ok, bar, next := ReadBar(cx, data, pos);
      if !ok {
        break;
      }
      pos := next;
      if !(0 < bar.datetime <= LAST_CHECKED && !InTradingHours(bar.datetime, cx.period)) {
        bars := bars + [bar];
      }
    }
  }
}

/** K-line round trip, for minute periods and for periods of a day or more. */
module KLineRoundTrip {
  import opened Bytes
  import opened Codec
  import opened RecordStream
  import opened Calendar
  import opened KLineParser
  import opened Sequences

  datatype Counts = NoCounts | Counts(up: nat, down: nat)

  /** A bar as the server sends it. */
  datatype WireBar = WireBar(date: nat, open: int, close: int, high: int, low: int,
                             volume: nat, amount: nat, counts: Counts)

  /** A stamp as the server sends it: a date from 1990 to 2100, or for minute periods a compact
      date from 2004 to the current year and a minute of the day. */
  predicate StampWord(cx: Context, word: nat) {
    if cx.Minute() then
      && ValidDate(CompactYear(word), CompactMonth(word), CompactDay(word)) && CompactYear(word) <= cx.nowYear
      && word / TWO_16 < 1440
    else DateWord(word)
  }

  /** Of minute bars, those stamped from 9:30 to 11:30 and from 13:00 to 15:00. */
  predicate InHours(cx: Context, w: WireBar) {
    cx.Minute() ==> 570 <= w.date / TWO_16 <= 690 || 780 <= w.date / TWO_16 <= 900
  }

  predicate WireOk(cx: Context, w: WireBar) {
    && StampWord(cx, w.date)
    && Encodable(w.open) && Encodable(w.close) && Encodable(w.high) && Encodable(w.low)
    && w.volume < TWO_32 && w.amount < TWO_32
    && (w.counts.Counts? ==> w.counts.up < TWO_16 && w.counts.down < TWO_16)
  }

  function CountWord(c: Counts): (r: nat)
    requires c.Counts? && c.up < TWO_16 && c.down < TWO_16
    ensures r < TWO_32
  {
    c.up + TWO_16 * c.down
  }

  function PricesOf(w: WireBar): seq<int> { [w.open, w.close, w.high, w.low] }

  lemma DateFits(cx: Context, w: WireBar)
    requires WireOk(cx, w)
    ensures 0 < w.date < TWO_32
  {
  }

  function PrintCounts(cx: Context, w: WireBar): seq<Byte>
    requires WireOk(cx, w)
  {
    if w.counts.NoCounts? then [] else Print32(CountWord(w.counts))
  }

  function PrintBar(cx: Context, w: WireBar): seq<Byte>
    requires WireOk(cx, w)
  {
    DateFits(cx, w);
    Print32(w.date) + (EncodeAll(PricesOf(w)) + (Print32(w.volume) + (Print32(w.amount) + PrintCounts(cx, w))))
  }

  function PrintBars(cx: Context, ws: seq<WireBar>): seq<Byte>
    requires forall i :: 0 <= i < |ws| ==> WireOk(cx, ws[i])
  {
    if ws == [] then [] else PrintBar(cx, ws[0]) + PrintBars(cx, ws[1..])
  }

  /** What the parser should return for a bar. */
  function Expected(cx: Context, w: WireBar): Bar {
    Bar(Datetime(cx, w.date), w.open, w.close, w.high, w.low, w.volume, w.amount,
        if w.counts.Counts? then w.counts.up else 0, if w.counts.Counts? then w.counts.down else 0)
  }

  /** The bars stamped in hours, in order. */
  function Kept(cx: Context, ws: seq<WireBar>): seq<Bar> {
    if ws == [] then [] else (if InHours(cx, ws[0]) then [Expected(cx, ws[0])] else []) + Kept(cx, ws[1..])
  }

  /** The count word spells a date after the bar's own. */
  predicate ReadsAsLaterDate(cx: Context, w: WireBar)
    requires WireOk(cx, w)
  {
    w.counts.Counts? && var word := CountWord(w.counts);
      && (!cx.Minute() ==> word / 10000 >= 1990 && Plausible(word % 10000 / 100, word % 100))
      && Datetime(cx, word) > Datetime(cx, w.date)
  }

  /** Everything of a printed bar but the guess. */
  lemma BarFields(cx: Context, data: seq<Byte>, pos: nat, w: WireBar)
    requires WireOk(cx, w) && At(data, pos, PrintBar(cx, w))
    ensures !Stops(data, pos) && Read32(data, pos) == w.date
    ensures Prices(data, pos).values == PricesOf(w)
    ensures CountsAt(data, pos) == pos + |PrintBar(cx, w)| - |PrintCounts(cx, w)|
    ensures Read32(data, CountsAt(data, pos) - 8) == w.volume
    ensures Read32(data, CountsAt(data, pos) - 4) == w.amount
    ensures At(data, CountsAt(data, pos), PrintCounts(cx, w))
  {
    hide Decode, DecodeAll, EncodeAll, Read32, Print32, PrintCounts, Encode;
    DateFits(cx, w);
    var prices := EncodeAll(PricesOf(w));
    var p := pos + 4 + |prices|;
    AtSplit(data, pos, Print32(w.date), prices + (Print32(w.volume) + (Print32(w.amount) + PrintCounts(cx, w))));
    AtSplit(data, pos + 4, prices, Print32(w.volume) + (Print32(w.amount) + PrintCounts(cx, w)));
    AtSplit(data, p, Print32(w.volume), Print32(w.amount) + PrintCounts(cx, w));
    AtSplit(data, p + 4, Print32(w.amount), PrintCounts(cx, w));
    Read32Print32(data, pos, w.date);
    Read32Print32(data, p, w.volume);
    Read32Print32(data, p + 4, w.amount);
    DecodeAllEncodeAll(data, pos + 4, PricesOf(w));
    PricesUnfold(data, pos + 4);
  }

  lemma CountHalves(data: seq<Byte>, at: nat, c: Counts)
    requires c.Counts? && c.up < TWO_16 && c.down < TWO_16 && At(data, at, Print32(CountWord(c)))
    ensures at + 4 <= |data| && Read32(data, at) == CountWord(c)
    ensures Read16(data, at) == c.up && Read16(data, at + 2) == c.down
  {
    hide Read16, Print16;
    var word := CountWord(c);
    AtSplit(data, at, Print16(word % TWO_16), Print16(word / TWO_16));
    Read16Print16(data, at, word % TWO_16);
    Read16Print16(data, at + 2, word / TWO_16);
  }

  /** A stamp is rejected exactly when it is a minute outside the hours. */
  lemma OutOfHoursExactly(cx: Context, w: WireBar)
    requires StampWord(cx, w.date)
    ensures OutOfHours(cx, Datetime(cx, w.date)) <==> !InHours(cx, w)
  {
    if cx.Minute() {
      MinuteInHours(cx, w.date);
      StampIsChecked(cx, w.date);
      hide Datetime, MinuteOf;
    } else {
      hide DatetimeOf, MinuteOf;
      DailyIsAtClose(w.date, cx.nowYear);
    }
  }

  lemma MinuteInHours(cx: Context, word: nat)
    requires StampWord(cx, word) && cx.Minute()
    ensures MinuteOf(Datetime(cx, word)) == word / TWO_16
  {
    hide DayNumber, MinuteOf, DayOf;
    var minute, day := word / TWO_16, DayNumber(CompactYear(word), CompactMonth(word), CompactDay(word));
    assert minute / 60 * 60 + minute % 60 == minute;
    assert Datetime(cx, word) == MinuteEpoch(day, minute);
    MinuteEpochParts(day, minute);
  }

  /** The word of two zero counts never reads as a later date. */
  lemma ZeroIsNoDate(cx: Context, w: WireBar)
    requires WireOk(cx, w) && ReadsAsLaterDate(cx, w)
    ensures w.counts.up != 0 || w.counts.down != 0
  {
    hide DatetimeOf;
    if cx.Minute() {
      StampIsPositive(cx, w.date);
      ZeroWord(cx.nowYear);
    }
  }

  lemma StampIsPositive(cx: Context, word: nat)
    requires StampWord(cx, word) && cx.Minute()
    ensures 0 < Datetime(cx, word)
  {
    StampIsChecked(cx, word);
  }

  lemma StampIsChecked(cx: Context, word: nat)
    requires StampWord(cx, word) && cx.Minute()
    ensures 0 < Datetime(cx, word) <= LAST_CHECKED
  {
    hide DaysBeforeYear, DaysBeforeMonth;
    DateInYear(CompactYear(word), CompactMonth(word), CompactDay(word));
    if FIRST_YEAR < CompactYear(word) {
      YearsGrow(FIRST_YEAR, CompactYear(word));
    }
    YearsGrow(CompactYear(word), 2100);
    YearsGrow(CompactYear(word) + 1, 2100);
    FirstYears();
  }

  lemma FirstYears()
    ensures DaysBeforeYear(FIRST_YEAR) > EPOCH_DAY + 1 && DaysBeforeYear(FIRST_YEAR) <= DaysBeforeYear(FIRST_YEAR + 1)
    ensures DaysBeforeYear(2100) == EPOCH_DAY + 47482 && DaysBeforeYear(2100) <= DaysBeforeYear(2101)
  {
  }

  /** A bar with counts: read right exactly when its count word is no later date. */
  lemma CountedBar(cx: Context, data: seq<Byte>, pos: nat, w: WireBar)
    requires WireOk(cx, w) && w.counts.Counts? && At(data, pos, PrintBar(cx, w))
    ensures !Stops(data, pos)
    ensures BarAt(cx, data, pos) == Expected(cx, w) <==> !ReadsAsLaterDate(cx, w)
    ensures !ReadsAsLaterDate(cx, w) ==> NextBar(cx, data, pos) == pos + |PrintBar(cx, w)|
  {
    hide PrintBar, Stops, Prices, CountsAt, Read16, Read32, DatetimeOf;
    BarFields(cx, data, pos, w);
    CountHalves(data, CountsAt(data, pos), w.counts);
    assert HasCounts(cx, data, pos) <==> !ReadsAsLaterDate(cx, w);
    if ReadsAsLaterDate(cx, w) {
      ZeroIsNoDate(cx, w);
    }
  }

  /** A bar without counts, followed by a bar of a later date or by the end of the message. */
  lemma PlainBar(cx: Context, data: seq<Byte>, pos: nat, w: WireBar)
    requires WireOk(cx, w) && w.counts.NoCounts? && At(data, pos, PrintBar(cx, w))
    requires var at := pos + |PrintBar(cx, w)|;
             at == |data|
             || (at + 4 <= |data| && StampWord(cx, Read32(data, at))
                && Datetime(cx, w.date) < Datetime(cx, Read32(data, at)))
    ensures !Stops(data, pos)
    ensures BarAt(cx, data, pos) == Expected(cx, w) && NextBar(cx, data, pos) == pos + |PrintBar(cx, w)|
  {
    hide PrintBar, Stops, Prices, CountsAt, Read16, Read32, DatetimeOf;
    BarFields(cx, data, pos, w);
    assert !HasCounts(cx, data, pos);
  }

  /** Each bar is later than the one before. */
  predicate Increasing(cx: Context, ws: seq<WireBar>) {
    forall i :: 0 <= i < |ws| - 1 ==> Datetime(cx, ws[i].date) < Datetime(cx, ws[i + 1].date)
  }

  /** Of dates, later words are later bars. */
  lemma DatesIncrease(cx: Context, ws: seq<WireBar>)
    requires !cx.Minute() && forall i :: 0 <= i < |ws| ==> WireOk(cx, ws[i])
    requires forall i :: 0 <= i < |ws| - 1 ==> ws[i].date < ws[i + 1].date
    ensures Increasing(cx, ws)
  {
    hide DatetimeOf;
    forall i | 0 <= i < |ws| - 1 ensures Datetime(cx, ws[i].date) < Datetime(cx, ws[i + 1].date) {
      assert WireOk(cx, ws[i]) && WireOk(cx, ws[i + 1]);
      DateWordsOrdered(ws[i].date, ws[i + 1].date, cx.nowYear);
    }
  }

  lemma NextDate(cx: Context, data: seq<Byte>, pos: nat, ws: seq<WireBar>)
    requires ws != [] && (forall i :: 0 <= i < |ws| ==> WireOk(cx, ws[i])) && At(data, pos, PrintBars(cx, ws))
    ensures pos + 4 <= |data| && Read32(data, pos) == ws[0].date
  {
    hide PrintBar;
    AtSplit(data, pos, PrintBar(cx, ws[0]), PrintBars(cx, ws[1..]));
    BarFields(cx, data, pos, ws[0]);
  }

  lemma {:induction false} BarsFromPrinted(cx: Context, data: seq<Byte>, pos: nat, ws: seq<WireBar>)
    requires Increasing(cx, ws) && forall i :: 0 <= i < |ws| ==> WireOk(cx, ws[i])
    requires forall i :: 0 <= i < |ws| - 1 ==> InHours(cx, ws[i]) || !ReadsAsLaterDate(cx, ws[i])
    requires At(data, pos, PrintBars(cx, ws)) && pos + |PrintBars(cx, ws)| == |data|
    ensures (BarsFrom(cx, data, pos, |ws|) == Kept(cx, ws))
              <==> (forall i :: 0 <= i < |ws| ==> InHours(cx, ws[i]) ==> !ReadsAsLaterDate(cx, ws[i]))
    decreases ws
  {
    hide Stops, BarAt, NextBar, PrintBar, OutOfHours, ReadsAsLaterDate, Datetime, WireOk, StampWord, InHours;
    if ws != [] {
      var w, tail := ws[0], ws[1..];
      AtSplit(data, pos, PrintBar(cx, w), PrintBars(cx, tail));
      HeadBar(cx, data, pos, ws);
      var next := pos + |PrintBar(cx, w)|;
      var bar := BarAt(cx, data, pos);
      var rest := BarsFrom(cx, data, NextBar(cx, data, pos), |tail|);
      assert BarsFrom(cx, data, pos, |ws|) == (if InHours(cx, w) then [bar] else []) + rest;
      assert Kept(cx, ws) == (if InHours(cx, w) then [Expected(cx, w)] else []) + Kept(cx, tail);
      SameHead(bar, rest, Expected(cx, w), Kept(cx, tail));
      assert [] + rest == rest && [] + Kept(cx, tail) == Kept(cx, tail);
      if ReadsAsLaterDate(cx, w) && !InHours(cx, w) {
        assert tail == [];
      } else if !ReadsAsLaterDate(cx, w) {
        assert forall i :: 0 <= i < |tail| ==> tail[i] == ws[i + 1];
        BarsFromPrinted(cx, data, next, tail);
        assert forall i :: 1 <= i < |ws| ==> ws[i] == tail[i - 1];
      }
    }
  }

  lemma HeadBar(cx: Context, data: seq<Byte>, pos: nat, ws: seq<WireBar>)
    requires ws != [] && Increasing(cx, ws) && forall i :: 0 <= i < |ws| ==> WireOk(cx, ws[i])
    requires At(data, pos, PrintBar(cx, ws[0])) && At(data, pos + |PrintBar(cx, ws[0])|, PrintBars(cx, ws[1..]))
    requires pos + |PrintBar(cx, ws[0])| + |PrintBars(cx, ws[1..])| == |data|
    ensures !Stops(data, pos) && (OutOfHours(cx, BarAt(cx, data, pos).datetime) <==> !InHours(cx, ws[0]))
    ensures BarAt(cx, data, pos) == Expected(cx, ws[0]) <==> !ReadsAsLaterDate(cx, ws[0])
    ensures !ReadsAsLaterDate(cx, ws[0]) ==> NextBar(cx, data, pos) == pos + |PrintBar(cx, ws[0])|
  {
    hide PrintBar, DatetimeOf, NextBar, OutOfHours, DecodeAll, InHours;
    var w, tail := ws[0], ws[1..];
    if w.counts.Counts? {
      CountedBar(cx, data, pos, w);
    } else {
      if tail != [] {
        assert WireOk(cx, ws[1]) && tail[0] == ws[1];
        NextDate(cx, data, pos + |PrintBar(cx, w)|, tail);
      }
      PlainBar(cx, data, pos, w);
    }
    BarFields(cx, data, pos, w);
    OutOfHoursExactly(cx, w);
  }

  /** Print/parse round trip with guessed counts, for every period. Of strictly later and later
      bars, each with or without a count word, exactly those stamped in trading hours are
      recovered, in order and with their counts, if and only if none of them has a count word
      that reads as a stamp later than its own. A rejected bar may have such a word at the end
      of the message; elsewhere what follows it would be read four bytes off. */
  lemma KLinesRoundTrip(cx: Context, ws: seq<WireBar>)
    requires |ws| < TWO_16 && Increasing(cx, ws) && forall i :: 0 <= i < |ws| ==> WireOk(cx, ws[i])
    requires forall i :: 0 <= i < |ws| - 1 ==> InHours(cx, ws[i]) || !ReadsAsLaterDate(cx, ws[i])
    ensures (ParsedBars(cx, Print16(|ws|) + PrintBars(cx, ws)) == Kept(cx, ws))
              <==> (forall i :: 0 <= i < |ws| ==> InHours(cx, ws[i]) ==> !ReadsAsLaterDate(cx, ws[i]))
  {
    hide BarsFrom, PrintBars, Print16, Read16, Kept, WireOk, ReadsAsLaterDate, InHours;
    var m := Print16(|ws|) + PrintBars(cx, ws);
    assert m[0..|m|] == m;
    AtSplit(m, 0, Print16(|ws|), PrintBars(cx, ws));
    Read16Print16(m, 0, |ws|);
    BarsFromPrinted(cx, m, 2, ws);
  }

  /** Stamps by the number of the period: 5, 15, 30, 60, 1 and several minutes carry a compact date
      and a minute, all others a date that stands for its 15:00. */
  lemma StampsByPeriod(cx: Context, y: nat, m: nat, d: nat, minute: nat)
    requires ValidDate(y, m, d) && 2004 <= y <= 2035 && y <= cx.nowYear && minute < 1440
    ensures var word := if cx.period in {0, 1, 2, 3, 7, 8} then minute * 65536 + (y - 2004) * 2048 + m * 100 + d
                        else y * 10000 + m * 100 + d;
            Datetime(cx, word)
              == MinuteEpoch(DayNumber(y, m, d), if cx.period in {0, 1, 2, 3, 7, 8} then minute else 900)
  {
    hide DatetimeOf, DayNumber;
    MinuteWordDecodes(y, m, d, minute, cx.nowYear);
    DateWordDecodes(y, m, d, cx.nowYear);
  }

  /** Whatever the bytes: a bar that is returned with a time from 1970 to 2100 lies at 15:00 for
      the daily period, and from 9:30 to 11:30 or from 13:00 to 15:00 for any other. */
  lemma ParsedInHours(cx: Context, data: seq<Byte>)
    ensures forall bar :: bar in ParsedBars(cx, data) && 0 < bar.datetime <= 4102444800 ==>
              var minute := MinuteOf(bar.datetime);
              if cx.period == 4 then minute == 900 else 570 <= minute <= 690 || 780 <= minute <= 900
  {
    hide BarsFrom;
    if |data| >= 2 {
      FilteredBars(cx, data, 2, Read16(data, 0));
    }
  }

  lemma {:induction false} FilteredBars(cx: Context, data: seq<Byte>, pos: nat, n: nat)
    ensures forall bar :: bar in BarsFrom(cx, data, pos, n) ==> !OutOfHours(cx, bar.datetime)
    decreases n
  {
    hide Stops, BarAt, NextBar, OutOfHours;
    if n > 0 && !Stops(data, pos) {
      FilteredBars(cx, data, NextBar(cx, data, pos), n - 1);
    }
  }

  /** A bar of 1990-01-02 whose counts spell 1990-01-03 loses them. */
  lemma CountsTakenForADate(nowYear: int)
    ensures var w := WireBar(19900102, 0, 0, 0, 0, 0, 0, Counts(19900103 % TWO_16, 19900103 / TWO_16));
            WireOk(Context(DAILY, nowYear), w) && ReadsAsLaterDate(Context(DAILY, nowYear), w)
  {
    DateWordsOrdered(19900102, 19900103, nowYear);
  }
}
