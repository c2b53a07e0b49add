/** Forward (qfq) price adjustment: cumulative factors over ex-rights events, applied as of each
    bar's date. Exact reals; dates are CST day numbers, daily bars close at 15:00. */
module Adjust {
  import opened Calendar
  import opened Grouping
  import opened Reals
  import opened Sequences
  import opened Sorting

  const CLOSE_MINUTE := 900
  const EX_RIGHTS := "除权除息"

  datatype Xdxr = Xdxr(date: int, fenhong: real, peigujia: real, songzhuangu: real, peigu: real,
                       category: int, name: string)

  datatype FactorPoint = FactorPoint(date: int, factor: real)

  datatype AdjustType = NoAdjust | Qfq

  /** Amounts are published per ten shares; one below 1 is taken to be per share already. */
  function PerShare(value: real): real { if value >= 1.0 then value / 10.0 else value }

  // ---------- one event ----------

  predicate Counts(e: Xdxr) { e.category == 1 || e.category == 2 || e.name == EX_RIGHTS }

  /** Shares outstanding after the event, per share before it. */
  function Dilution(e: Xdxr): real { 1.0 + PerShare(e.songzhuangu) + PerShare(e.peigu) }

  /** Value of a share's claim after the event, before dilution. */
  function Numerator(e: Xdxr, preClose: real): real {
    preClose - PerShare(e.fenhong) + e.peigujia * PerShare(e.peigu)
  }

  function Denominator(e: Xdxr, preClose: real): real { preClose * Dilution(e) }

  /** The factor of one event, given the close before it (zero if there is none). */
  function FactorGiven(e: Xdxr, preClose: real): real {
    if preClose == 0.0 || !Counts(e) || Denominator(e, preClose) == 0.0 || Numerator(e, preClose) == 0.0 then 1.0
    else Numerator(e, preClose) / Denominator(e, preClose)
  }

  /** Close of the last bar before `epoch` of bars in time order, or `none`. */
  function CloseBefore(ks: seq<KLine>, epoch: int, none: real): real {
    if ks == [] || ks[0].datetime >= epoch then none else CloseBefore(ks[1..], epoch, ks[0].close)
  }

  function EventEpoch(e: Xdxr): int { MinuteEpoch(e.date, CLOSE_MINUTE) }

  function EventFactor(ks: seq<KLine>, e: Xdxr): real { FactorGiven(e, CloseBefore(ks, EventEpoch(e), 0.0)) }

  // ---------- factors ----------

  function Time(): KLine -> int { (k: KLine) => k.datetime }
  function NewestFirst(): Xdxr -> int { (e: Xdxr) => -e.date }
  function OldestFirst(): FactorPoint -> int { (f: FactorPoint) => f.date }

  /** Running products over events in the given order. */
  function Cumulative(ks: seq<KLine>, events: seq<Xdxr>, cumulative: real): (r: seq<FactorPoint>)
    ensures |r| == |events|
    ensures forall i :: 0 <= i < |r| ==> r[i].date == events[i].date
  {
    if events == [] then []
    else
      var c := Times(cumulative, EventFactor(ks, events[0]));
      [FactorPoint(events[0].date, c)] + Cumulative(ks, events[1..], c)
  }

  function Factors(xdxr: seq<Xdxr>, kline: seq<KLine>, adjust: AdjustType): seq<FactorPoint> {
    if xdxr == [] || kline == [] || adjust == NoAdjust then []
    else Cumulative(SortBy(kline, Time()), SortBy(xdxr, NewestFirst()), 1.0)
  }

  /** The first factor dated strictly after `day`, in date order; one if there is none. */
  function FirstAfter(fac: seq<FactorPoint>, day: int): real {
    if fac == [] then 1.0 else if fac[0].date > day then fac[0].factor else FirstAfter(fac[1..], day)
  }

  function Scaled(k: KLine, factor: real): KLine {
    k.(open := k.open * factor, close := k.close * factor, high := k.high * factor, low := k.low * factor)
  }

  function Adjusted(kline: seq<KLine>, factors: seq<FactorPoint>, adjust: AdjustType): (r: seq<KLine>)
    ensures |r| == |kline|
  {
    if factors == [] || kline == [] || adjust == NoAdjust then kline
    else
      var fac := SortBy(factors, OldestFirst());
      seq(|kline|, i requires 0 <= i < |kline| => Scaled(kline[i], FirstAfter(fac, DayOf(kline[i].datetime))))
  }

  // ---------- the two passes ----------

  method ComputeFactorFromXdxr(xdxr: seq<Xdxr>, kline: seq<KLine>, adjust: AdjustType)
    returns (result: seq<FactorPoint>)
    ensures result == Factors(xdxr, kline, adjust)
  {
    result := [];
    if xdxr == [] || kline == [] || adjust == NoAdjust {
      return;
    }
    var events := SortBy(xdxr, NewestFirst());
    var sortedKline := SortBy(kline, Time());
    hide SortBy, EventFactor, Cumulative, Times;
    assert events[0..] == events;
    var cumulative := 1.0;
    for i := 0 to |events|
      invariant result + Cumulative(sortedKline, events[i..], cumulative) == Factors(xdxr, kline, adjust)
    {
      var event := events[i];
      var preClose := FindPreClose(sortedKline, EventEpoch(event));
      assert events[i..][1..] == events[i + 1..];
      CumulativeUnfold(sortedKline, events[i..], cumulative);
      var factor := 1.0;
      if preClose != 0.0 {
        factor := OneEventFactor(event, preClose);
      }
      assert factor == EventFactor(sortedKline, event) by { FactorOfEvent(sortedKline, event); }
      cumulative := Times(cumulative, factor);
      Associative(result, [FactorPoint(event.date, cumulative)], Cumulative(sortedKline, events[i + 1..], cumulative));
      result := result + [FactorPoint(event.date, cumulative)];
    }
    assert events[|events|..] == [];
    CumulativeOfNone(sortedKline, cumulative);
    assert result + [] == result;
  }

  lemma CumulativeUnfold(ks: seq<KLine>, events: seq<Xdxr>, c: real)
    requires events != []
    ensures var c' := Times(c, EventFactor(ks, events[0]));
            Cumulative(ks, events, c) == [FactorPoint(events[0].date, c')] + Cumulative(ks, events[1..], c')
  {
  }

  lemma CumulativeOfNone(ks: seq<KLine>, c: real)
    ensures Cumulative(ks, [], c) == []
  {
  }

  lemma FactorOfEvent(ks: seq<KLine>, e: Xdxr)
    ensures EventFactor(ks, e) == FactorGiven(e, CloseBefore(ks, EventEpoch(e), 0.0))
  {
  }

  method FindPreClose(sortedKline: seq<KLine>, eventEpoch: int) returns (preClose: real)
    ensures preClose == CloseBefore(sortedKline, eventEpoch, 0.0)
  {
    preClose := 0.0;
    for i := 0 to |sortedKline|
      invariant CloseBefore(sortedKline, eventEpoch, 0.0) == CloseBefore(sortedKline[i..], eventEpoch, preClose)
    {
      if sortedKline[i].datetime < eventEpoch {
        preClose := sortedKline[i].close;
      } else {
        break;
      }
    }
  }

  method OneEventFactor(event: Xdxr, preClose: real) returns (eventFactor: real)
    requires preClose != 0.0
    ensures eventFactor == FactorGiven(event, preClose)
  {
    var fenhong := PerShare(event.fenhong);
    var songzhuangu := PerShare(event.songzhuangu);
    var peigu := PerShare(event.peigu);
    eventFactor := 1.0;
    if event.category == 1 || event.category == 2 || event.name == EX_RIGHTS {
      var numerator := preClose - fenhong + event.peigujia * peigu;
      var denominator := preClose * (1.0 + songzhuangu + peigu);
      if denominator == 0.0 || numerator == 0.0 {
        eventFactor := 1.0;
      } else {
        eventFactor := numerator / denominator;
      }
    }
  }

  method ApplyAdjust(kline: array<KLine>, factors: seq<FactorPoint>, adjust: AdjustType)
    modifies kline
    ensures kline[..] == Adjusted(old(kline[..]), factors, adjust)
  {
    if factors == [] || kline.Length == 0 || adjust == NoAdjust {
      return;
    }
    var fac := SortBy(factors, OldestFirst());
    hide SortBy, FirstAfter;
    for i := 0 to kline.Length
      invariant forall j :: 0 <= j < i ==>
                  kline[j] == Scaled(old(kline[j]), FirstAfter(fac, DayOf(old(kline[j].datetime))))
      invariant forall j :: i <= j < kline.Length ==> kline[j] == old(kline[j])
    {
      var factor := FactorAsOf(fac, DayOf(kline[i].datetime));
      kline[i] := Scaled(kline[i], factor);
    }
  }

  method FactorAsOf(fac: seq<FactorPoint>, kdate: int) returns (factor: real)
    ensures factor == FirstAfter(fac, kdate)
  {
    factor := 1.0;
    for i := 0 to |fac|
      invariant FirstAfter(fac, kdate) == FirstAfter(fac[i..], kdate)
    {
      if fac[i].date > kdate {
        factor := fac[i].factor;
        return;
      }
    }
  }

  // ---------- the product definition ----------

  /** The product of the factors of all events dated strictly after `day`, in any order. */
  function ProductAfter(ks: seq<KLine>, events: seq<Xdxr>, day: int): real {
    if events == [] then 1.0
    else Times(if events[0].date > day then EventFactor(ks, events[0]) else 1.0, ProductAfter(ks, events[1..], day))
  }

  /** The same for any factor of an event: both adjusters scan running products. */
  type Weight = Xdxr -> real

  function LaterProduct(w: Weight, events: seq<Xdxr>, day: int): real {
    if events == [] then 1.0
    else Times(if events[0].date > day then w(events[0]) else 1.0, LaterProduct(w, events[1..], day))
  }

  function Running(w: Weight, events: seq<Xdxr>, cumulative: real): (r: seq<FactorPoint>)
    ensures |r| == |events| && forall i :: 0 <= i < |r| ==> r[i].date == events[i].date
  {
    if events == [] then []
    else
      var c := Times(cumulative, w(events[0]));
      [FactorPoint(events[0].date, c)] + Running(w, events[1..], c)
  }

  lemma RunningUnfold(w: Weight, events: seq<Xdxr>, c: real)
    ensures events == [] ==> Running(w, events, c) == []
    ensures events != [] ==>
              var c' := Times(c, w(events[0]));
              Running(w, events, c) == [FactorPoint(events[0].date, c')] + Running(w, events[1..], c')
  {
  }

  function EventFactors(ks: seq<KLine>): Weight { (e: Xdxr) => EventFactor(ks, e) }

  lemma {:induction false} ProductIsLater(ks: seq<KLine>, events: seq<Xdxr>, day: int)
    ensures ProductAfter(ks, events, day) == LaterProduct(EventFactors(ks), events, day)
  {
    hide EventFactor, Times;
    if events != [] {
      ProductIsLater(ks, events[1..], day);
    }
  }

  lemma {:induction false} CumulativeIsRunning(ks: seq<KLine>, events: seq<Xdxr>, c: real)
    ensures Cumulative(ks, events, c) == Running(EventFactors(ks), events, c)
    decreases events
  {
    hide EventFactor, Times;
    if events != [] {
      CumulativeIsRunning(ks, events[1..], Times(c, EventFactor(ks, events[0])));
    }
  }

  lemma {:induction false} ProductOfInsert(w: Weight, e: Xdxr, s: seq<Xdxr>, day: int)
    ensures LaterProduct(w, Insert(e, s, NewestFirst()), day)
              == Times(if e.date > day then w(e) else 1.0, LaterProduct(w, s, day))
  {
    hide Times;
    if s != [] && -e.date > -s[0].date {
      ProductOfInsert(w, e, s[1..], day);
      Commute(if e.date > day then w(e) else 1.0,
              if s[0].date > day then w(s[0]) else 1.0, LaterProduct(w, s[1..], day));
    }
  }

  lemma {:induction false} ProductOfSort(w: Weight, events: seq<Xdxr>, day: int)
    ensures LaterProduct(w, SortBy(events, NewestFirst()), day) == LaterProduct(w, events, day)
  {
    hide Times;
    if events != [] {
      ProductOfSort(w, events[1..], day);
      ProductOfInsert(w, events[0], SortBy(events[1..], NewestFirst()), day);
    }
  }

  predicate NewestToOldest(events: seq<Xdxr>) {
    forall i, j :: 0 <= i < j < |events| ==> events[i].date > events[j].date
  }

  lemma {:induction false} InsertLast(f: FactorPoint, s: seq<FactorPoint>)
    requires forall i :: 0 <= i < |s| ==> s[i].date < f.date
    ensures Insert(f, s, OldestFirst()) == s + [f]
  {
    if s != [] {
      InsertLast(f, s[1..]);
    }
  }

  lemma {:induction false} FirstAfterOfAppend(s: seq<FactorPoint>, f: FactorPoint, day: int)
    ensures FirstAfter(s + [f], day)
              == if exists i :: 0 <= i < |s| && s[i].date > day then FirstAfter(s, day)
                 else if f.date > day then f.factor else 1.0
  {
    if s != [] {
      assert (s + [f])[1..] == s[1..] + [f];
      FirstAfterOfAppend(s[1..], f, day);
      if exists i :: 0 <= i < |s[1..]| && s[1..][i].date > day {
        var i :| 0 <= i < |s[1..]| && s[1..][i].date > day;
        assert s[i + 1].date > day;
      }
      assert forall i :: 1 <= i < |s| ==> s[i] == s[1..][i - 1];
    }
  }

  lemma {:induction false} NothingLater(w: Weight, events: seq<Xdxr>, day: int)
    requires forall i :: 0 <= i < |events| ==> events[i].date <= day
    ensures LaterProduct(w, events, day) == 1.0
  {
    if events != [] {
      NothingLater(w, events[1..], day);
    }
  }

  lemma NothingAfter(ks: seq<KLine>, events: seq<Xdxr>, day: int)
    requires forall i :: 0 <= i < |events| ==> events[i].date <= day
    ensures ProductAfter(ks, events, day) == 1.0
  {
    hide ProductAfter;
    ProductIsLater(ks, events, day);
    NothingLater(EventFactors(ks), events, day);
  }

  ghost predicate Descending(points: seq<FactorPoint>) {
    forall i, j :: 0 <= i < j < |points| ==> points[i].date > points[j].date
  }

  /** Sorting points given newest first puts the newest last. */
  lemma NewestGoesLast(points: seq<FactorPoint>)
    requires points != [] && Descending(points)
    ensures SortBy(points, OldestFirst()) == SortBy(points[1..], OldestFirst()) + [points[0]]
  {
    var tail := SortBy(points[1..], OldestFirst());
    SortByMembers(points[1..], OldestFirst());
    forall i | 0 <= i < |tail| ensures tail[i].date < points[0].date {
      assert tail[i] in points[1..];
    }
    InsertLast(points[0], tail);
  }

  /** Sorting the running products by date and scanning for the first later one yields the
      product of all later events. */
  lemma {:induction false} ScanIsProduct(w: Weight, events: seq<Xdxr>, c: real, day: int)
    requires NewestToOldest(events)
    ensures FirstAfter(SortBy(Running(w, events, c), OldestFirst()), day)
              == if events != [] && events[0].date > day then Times(c, LaterProduct(w, events, day)) else 1.0
  {
    hide SortBy, Times, FirstAfter, Running;
    RunningUnfold(w, events, c);
    if events == [] {
      NoPoints(day);
    } else {
      var e, rest := events[0], events[1..];
      var f := w(e);
      var points := Running(w, rest, Times(c, f));
      var sorted := SortBy(points, OldestFirst());
      var head := FactorPoint(e.date, Times(c, f));
      NewestGoesLast([head] + points);
      ScanIsProduct(w, rest, Times(c, f), day);
      FirstAfterOfAppend(sorted, head, day);
      SortByMembers(points, OldestFirst());
      LaterInSorted(points, sorted, rest, day);
      if rest == [] || rest[0].date <= day {
        NothingLater(w, rest, day);
      }
      TimesLaws(c, f, LaterProduct(w, rest, day));
      TimesLaws(f, 1.0, 1.0);
    }
  }

  /** Of events in any order, with distinct dates: the scan gives the product of the factors of
      exactly those dated strictly after the day. */
  lemma ScanOfSorted(w: Weight, events: seq<Xdxr>, day: int)
    requires DistinctDates(events)
    ensures FirstAfter(SortBy(Running(w, SortBy(events, NewestFirst()), 1.0), OldestFirst()), day)
         == LaterProduct(w, events, day)
  {
    var ev := SortBy(events, NewestFirst());
    NewestFirstOrder(events);
    ProductOfSort(w, events, day);
    ScanIsProduct(w, ev, 1.0, day);
    hide SortBy, Running, FirstAfter, LaterProduct;
    TimesLaws(LaterProduct(w, ev, day), 1.0, 1.0);
    if ev == [] || ev[0].date <= day {
      NothingLater(w, ev, day);
    }
  }

  lemma NoPoints(day: int)
    ensures FirstAfter(SortBy([], OldestFirst()), day) == 1.0
  {
  }

  lemma LaterInSorted(points: seq<FactorPoint>, sorted: seq<FactorPoint>, events: seq<Xdxr>, day: int)
    requires |points| == |events| && NewestToOldest(events)
    requires forall i :: 0 <= i < |points| ==> points[i].date == events[i].date
    requires forall x :: x in sorted <==> x in points
    ensures (exists i :: 0 <= i < |sorted| && sorted[i].date > day) <==> (events != [] && events[0].date > day)
  {
    if events != [] && events[0].date > day {
      assert points[0] in sorted;
    }
    if i :| 0 <= i < |sorted| && sorted[i].date > day {
      assert sorted[i] in points;
    }
  }

  ghost predicate DistinctDates(events: seq<Xdxr>) {
    forall i, j :: 0 <= i < j < |events| ==> events[i].date != events[j].date
  }

  lemma NewestFirstOrder(events: seq<Xdxr>)
    requires DistinctDates(events)
    ensures NewestToOldest(SortBy(events, NewestFirst()))
  {
    SortByDistinct(events, NewestFirst());
  }

  /** Qfq equals its product definition: with distinct event dates the factor applied to a bar
      of `day` is the product of the factors of exactly the events dated strictly after it. */
  lemma QfqIsProduct(xdxr: seq<Xdxr>, kline: seq<KLine>, day: int)
    requires DistinctDates(xdxr) && xdxr != [] && kline != []
    ensures FirstAfter(SortBy(Factors(xdxr, kline, Qfq), OldestFirst()), day)
              == ProductAfter(SortBy(kline, Time()), xdxr, day)
  {
    var ks := SortBy(kline, Time());
    hide SortBy, Cumulative, FirstAfter, ProductAfter, Running, LaterProduct;
    ProductIsLater(ks, xdxr, day);
    CumulativeIsRunning(ks, SortBy(xdxr, NewestFirst()), 1.0);
    ScanOfSorted(EventFactors(ks), xdxr, day);
  }

  /** Every bar's prices are multiplied by its product; its volume and amount are not. */
  lemma AdjustedByProduct(xdxr: seq<Xdxr>, kline: seq<KLine>, i: nat)
    requires DistinctDates(xdxr) && xdxr != [] && i < |kline|
    ensures Adjusted(kline, Factors(xdxr, kline, Qfq), Qfq)[i]
              == Scaled(kline[i], ProductAfter(SortBy(kline, Time()), xdxr, DayOf(kline[i].datetime)))
  {
    QfqIsProduct(xdxr, kline, DayOf(kline[i].datetime));
    SortByMembers(xdxr, NewestFirst());
  }

  /** The same field by field: the four prices are multiplied by the product of the later events'
      factors, and nothing else of a bar changes. Without adjustment, events or bars nothing does. */
  lemma AdjustedFields(xdxr: seq<Xdxr>, kline: seq<KLine>, i: nat)
    requires DistinctDates(xdxr) && i < |kline|
    ensures var k, r := kline[i], Adjusted(kline, Factors(xdxr, kline, Qfq), Qfq)[i];
            var f := ProductAfter(SortBy(kline, Time()), xdxr, DayOf(k.datetime));
            && r.open == k.open * f && r.close == k.close * f && r.high == k.high * f && r.low == k.low * f
            && r.datetime == k.datetime && r.volume == k.volume && r.amount == k.amount
            && r.up == k.up && r.down == k.down
    ensures Adjusted(kline, Factors(xdxr, kline, Qfq), NoAdjust) == kline
    ensures Adjusted(kline, [], Qfq) == kline && Factors(xdxr, kline, NoAdjust) == []
  {
    hide SortBy, EventFactor, Cumulative, FirstAfter, DayOf;
    if xdxr != [] {
      AdjustedByProduct(xdxr, kline, i);
    }
  }

  /** The events that count, and no others, move prices: an event of another category and name
      changes nothing in the output, wherever it stands. */
  lemma OtherEventsChangeNothing(xdxr: seq<Xdxr>, e: Xdxr, kline: seq<KLine>)
    requires e.category != 1 && e.category != 2 && e.name != "除权除息"
    requires DistinctDates([e] + xdxr)
    ensures Adjusted(kline, Factors([e] + xdxr, kline, Qfq), Qfq) == Adjusted(kline, Factors(xdxr, kline, Qfq), Qfq)
  {
    var more := [e] + xdxr;
    assert forall i :: 0 <= i < |xdxr| ==> xdxr[i] == more[i + 1];
    var ks := SortBy(kline, Time());
    var x, y := Adjusted(kline, Factors(more, kline, Qfq), Qfq), Adjusted(kline, Factors(xdxr, kline, Qfq), Qfq);
    forall i | 0 <= i < |kline| ensures x[i] == y[i] {
      var day := DayOf(kline[i].datetime);
      OtherEventIsOne(ks, e, xdxr, day);
      AdjustedByProduct(more, kline, i);
      hide Scaled, ProductAfter, SortBy, Cumulative, FirstAfter;
      if xdxr == [] {
        ScaledByOne(kline[i]);
        NothingAfter(ks, xdxr, day);
      } else {
        AdjustedByProduct(xdxr, kline, i);
      }
    }
  }

  lemma OtherEventIsOne(ks: seq<KLine>, e: Xdxr, xdxr: seq<Xdxr>, day: int)
    requires e.category != 1 && e.category != 2 && e.name != "除权除息"
    ensures ProductAfter(ks, [e] + xdxr, day) == ProductAfter(ks, xdxr, day)
  {
    hide CloseBefore, EventEpoch;
    assert ([e] + xdxr)[1..] == xdxr;
    TimesLaws(ProductAfter(ks, xdxr, day), 1.0, 1.0);
  }

  lemma ScaledByOne(k: KLine)
    ensures Scaled(k, 1.0) == k
  {
  }

  // ---------- no false gap ----------

  lemma {:induction false} ProductBetween(ks: seq<KLine>, events: seq<Xdxr>, e: Xdxr, from: int, to: int)
    requires DistinctDates(events) && from < e.date <= to
    requires forall x :: x in events && from < x.date <= to ==> x == e
    ensures ProductAfter(ks, events, from)
              == Times(if e in events then EventFactor(ks, e) else 1.0, ProductAfter(ks, events, to))
  {
    hide EventFactor, Times;
    TimesLaws(1.0, 1.0, ProductAfter(ks, events, to));
    TimesLaws(EventFactor(ks, e), 1.0, ProductAfter(ks, events, to));
    if events != [] {
      var head, rest := events[0], events[1..];
      assert forall x :: x in rest ==> x in events;
      ProductBetween(ks, rest, e, from, to);
      assert e in events <==> e == head || e in rest;
      if head == e {
        assert e !in rest;
      } else {
        assert head in events;
        Commute(if e in rest then EventFactor(ks, e) else 1.0,
                if head.date > to then EventFactor(ks, head) else 1.0, ProductAfter(ks, rest, to));
      }
    }
  }

  /** The price that the code takes a share to be worth after the event. */
  function ReferencePrice(e: Xdxr, preClose: real): real
    requires Dilution(e) != 0.0
  {
    Numerator(e, preClose) / Dilution(e)
  }

  lemma FactorMeetsReference(e: Xdxr, preClose: real)
    requires Counts(e) && Numerator(e, preClose) != 0.0 && Denominator(e, preClose) != 0.0
    ensures preClose != 0.0 && Dilution(e) != 0.0
    ensures preClose * FactorGiven(e, preClose) == ReferencePrice(e, preClose)
  {
  }

  // ---------- the exchange's price ----------

  predicate NonNegative(e: Xdxr) { 0.0 <= e.fenhong && 0.0 <= e.songzhuangu && 0.0 <= e.peigu }

  /** An amount per ten shares that `PerShare` divides, or need not. */
  predicate Divided(value: real) { value == 0.0 || value >= 1.0 }

  predicate AllDivided(e: Xdxr) { Divided(e.fenhong) && Divided(e.songzhuangu) && Divided(e.peigu) }

  /** What ten shares are worth after the event, by the amounts published: less the dividend
      paid on them, plus the price of the rights taken up. */
  function TenShares(e: Xdxr, preClose: real): real { 10.0 * preClose - e.fenhong + e.peigujia * e.peigu }

  /** How many shares ten shares become. */
  function TenBecome(e: Xdxr): real { 10.0 + e.songzhuangu + e.peigu }

  /** The exchange's ex-rights price of a close. */
  function ExchangePrice(e: Xdxr, preClose: real): real
    requires TenBecome(e) != 0.0
  {
    TenShares(e, preClose) / TenBecome(e)
  }

  /** The code computes a factor from this close. */
  predicate PassesGuards(e: Xdxr, preClose: real) { preClose != 0.0 && Numerator(e, preClose) != 0.0 }

  /** What is left undivided is ten times too much. */
  lemma PerShareOfTen(value: real)
    requires 0.0 <= value
    ensures value <= 10.0 * PerShare(value)
    ensures value == 10.0 * PerShare(value) <==> Divided(value)
  {
  }

  lemma DilutionPositive(e: Xdxr, preClose: real)
    requires NonNegative(e)
    ensures 1.0 <= Dilution(e) && 10.0 <= TenBecome(e)
    ensures preClose != 0.0 ==> Denominator(e, preClose) != 0.0
  {
  }

  /** What the event's factor makes of the close before it. */
  function AdjustedClose(e: Xdxr, preClose: real): real { preClose * FactorGiven(e, preClose) }

  /** The adjusted close against the exchange's price, without divisions. */
  lemma PriceByProducts(e: Xdxr, preClose: real)
    requires Counts(e) && NonNegative(e) && PassesGuards(e, preClose)
    ensures TenBecome(e) >= 10.0
    ensures AdjustedClose(e, preClose) == ExchangePrice(e, preClose)
       <==> Times(TenBecome(e), AdjustedClose(e, preClose)) == TenShares(e, preClose)
    ensures AdjustedClose(e, preClose) == ExchangePrice(e, preClose)
       <==> Times(Numerator(e, preClose), TenBecome(e)) == Times(TenShares(e, preClose), Dilution(e))
  {
    DilutionPositive(e, preClose);
    FactorMeetsReference(e, preClose);
    assert AdjustedClose(e, preClose) == ReferencePrice(e, preClose);
    hide Numerator, Dilution, TenShares, TenBecome, FactorGiven, Denominator, Counts, NonNegative, AdjustedClose, Times;
    EqualQuotients(AdjustedClose(e, preClose), Numerator(e, preClose), Dilution(e),
                   TenShares(e, preClose), TenBecome(e));
  }

  lemma EqualQuotients(x: real, a: real, b: real, c: real, d: real)
    requires b != 0.0 && d != 0.0 && x == a / b
    ensures x == c / d <==> Times(d, x) == c
    ensures x == c / d <==> Times(a, d) == Times(c, b)
  {
    var y := c / d;
    assert x * b == a && y * d == c;
    assert a * d - c * b == (x - y) * (b * d);
    assert b * d != 0.0;
  }

  /** With every amount divided the code's price is the exchange's. */
  lemma DividedMeetsExchange(e: Xdxr, preClose: real)
    requires Counts(e) && AllDivided(e) && PassesGuards(e, preClose)
    ensures TenBecome(e) >= 10.0 && AdjustedClose(e, preClose) == ExchangePrice(e, preClose)
  {
    PriceByProducts(e, preClose);
    PerShareOfTen(e.fenhong);
    PerShareOfTen(e.songzhuangu);
    PerShareOfTen(e.peigu);
    assert TenBecome(e) == 10.0 * Dilution(e);
    var g, w := e.peigujia, PerShare(e.peigu);
    assert g * e.peigu == 10.0 * (g * w);
    var n, d := Numerator(e, preClose), Dilution(e);
    assert TenShares(e, preClose) == 10.0 * n;
    assert n * (10.0 * d) == (10.0 * n) * d;
  }

  lemma ReferenceIsExchange(e: Xdxr, preClose: real)
    requires Counts(e) && AllDivided(e) && Numerator(e, preClose) != 0.0 && Denominator(e, preClose) != 0.0
    ensures Dilution(e) != 0.0 && TenBecome(e) >= 10.0
    ensures ReferencePrice(e, preClose) == ExchangePrice(e, preClose)
  {
    FactorMeetsReference(e, preClose);
    DividedMeetsExchange(e, preClose);
  }

  /** Two closes on which the prices agree show that every amount is divided. */
  lemma TwoClosesTell(e: Xdxr, p: real)
    requires Counts(e) && NonNegative(e) && PassesGuards(e, p) && PassesGuards(e, p + 1.0)
    requires TenBecome(e) != 0.0 && AdjustedClose(e, p) == ExchangePrice(e, p)
    requires AdjustedClose(e, p + 1.0) == ExchangePrice(e, p + 1.0)
    ensures AllDivided(e)
  {
    PriceByProducts(e, p);
    PriceByProducts(e, p + 1.0);
    OneMore(e, p);
    hide AdjustedClose, FactorGiven, Numerator, TenShares, Dilution, TenBecome, Counts, PerShare, ExchangePrice, Times;
    SlopesEqual(Numerator(e, p), TenBecome(e), TenShares(e, p), Dilution(e));
    SharesTell(e);
    CashTells(e, p);
  }

  lemma OneMore(e: Xdxr, p: real)
    requires NonNegative(e)
    ensures Numerator(e, p + 1.0) == Numerator(e, p) + 1.0
    ensures TenShares(e, p + 1.0) == TenShares(e, p) + 10.0
    ensures Dilution(e) >= 1.0
  {
  }

  lemma SharesTell(e: Xdxr)
    requires NonNegative(e) && TenBecome(e) == 10.0 * Dilution(e)
    ensures Divided(e.songzhuangu) && Divided(e.peigu)
  {
    PerShareOfTen(e.songzhuangu);
    PerShareOfTen(e.peigu);
  }

  lemma SlopesEqual(n: real, become: real, ten: real, d: real)
    requires Times(n, become) == Times(ten, d) && Times(n + 1.0, become) == Times(ten + 10.0, d) && d != 0.0
    ensures become == 10.0 * d && ten == 10.0 * n
  {
    assert (n + 1.0) * become == n * become + become;
    assert (ten + 10.0) * d == ten * d + 10.0 * d;
    assert (10.0 * n - ten) * d == 0.0;
  }

  lemma CashTells(e: Xdxr, p: real)
    requires NonNegative(e) && Divided(e.peigu) && TenShares(e, p) == 10.0 * Numerator(e, p)
    ensures Divided(e.fenhong)
  {
    PerShareOfTen(e.peigu);
    PerShareOfTen(e.fenhong);
    var g, w := e.peigujia, PerShare(e.peigu);
    assert g * e.peigu == 10.0 * (g * w);
  }

  /** A close that passes the guards, as does the next one up by one. */
  function LargeClose(e: Xdxr): real {
    var cash := e.peigujia * PerShare(e.peigu) - PerShare(e.fenhong);
    1.0 + if cash < 0.0 then -cash else cash
  }

  lemma LargeClosePasses(e: Xdxr)
    ensures PassesGuards(e, LargeClose(e)) && PassesGuards(e, LargeClose(e) + 1.0)
  {
  }

  /** For amounts that are not negative, the adjusted close before an event is the exchange's
      price at every close that passes the guards, if and only if no amount lies between zero
      and one. */
  lemma MeetsExchangeExactly(e: Xdxr)
    requires (e.category == 1 || e.category == 2 || e.name == "除权除息") && NonNegative(e)
    ensures TenBecome(e) >= 10.0
    ensures AllDivided(e) <==>
              forall p :: PassesGuards(e, p) ==> AdjustedClose(e, p) == ExchangePrice(e, p)
  {
    DilutionPositive(e, 1.0);
    LargeClosePasses(e);
    hide AdjustedClose, FactorGiven, ExchangePrice, PassesGuards, LargeClose, TenBecome;
    if AllDivided(e) {
      forall p | PassesGuards(e, p) ensures AdjustedClose(e, p) == ExchangePrice(e, p) {
        DividedMeetsExchange(e, p);
      }
    } else {
      var p := LargeClose(e);
      if forall x :: PassesGuards(e, x) ==> AdjustedClose(e, x) == ExchangePrice(e, x) {
        TwoClosesTell(e, p);
      }
    }
  }

  /** No value is made or lost under the same condition and no other: ten shares before the
      event, less the dividend paid on them and plus the price of the rights taken up, are
      worth what the shares they have become are worth at the adjusted close. */
  lemma ValueIsConserved(e: Xdxr)
    requires (e.category == 1 || e.category == 2 || e.name == "除权除息") && NonNegative(e)
    ensures AllDivided(e) <==>
              forall p :: PassesGuards(e, p) ==> Times(TenBecome(e), AdjustedClose(e, p)) == TenShares(e, p)
  {
    MeetsExchangeExactly(e);
    hide AdjustedClose, Times, FactorGiven, PassesGuards, AllDivided, TenShares, TenBecome, ExchangePrice;
    forall p | PassesGuards(e, p)
      ensures AdjustedClose(e, p) == ExchangePrice(e, p)
         <==> Times(TenBecome(e), AdjustedClose(e, p)) == TenShares(e, p)
    {
      PriceByProducts(e, p);
    }
  }

  /** Daily bars close at 15:00 of their day. */
  predicate IsDaily(k: KLine) { k.datetime == MinuteEpoch(DayOf(k.datetime), CLOSE_MINUTE) }

  /** Between two days with one event between them the products differ by its factor. */
  lemma ProductMeetsReference(ks: seq<KLine>, events: seq<Xdxr>, e: Xdxr, before: KLine, from: int, to: int)
    requires DistinctDates(events) && e in events && Counts(e) && from < e.date <= to
    requires CloseBefore(ks, EventEpoch(e), 0.0) == before.close
    requires Numerator(e, before.close) != 0.0 && Denominator(e, before.close) != 0.0
    requires forall x :: x in events && from < x.date <= to ==> x == e
    ensures Dilution(e) != 0.0
    ensures before.close * ProductAfter(ks, events, from)
         == ReferencePrice(e, before.close) * ProductAfter(ks, events, to)
  {
    hide ProductAfter, Numerator, Denominator, CloseBefore, Dilution, ReferencePrice;
    ProductBetween(ks, events, e, from, to);
    FactorMeetsReference(e, before.close);
    FactorOfEvent(ks, e);
    Regroup(before.close, EventFactor(ks, e), ProductAfter(ks, events, to));
  }

  /** No false gap: in the adjusted bars the close before an ex-date is the price that the code
      takes for the raw close, times the factor that the ex-date's own bar is multiplied by;
      and that is the exchange's price when no amount lies between zero and one. */
  lemma NoFalseGap(xdxr: seq<Xdxr>, kline: seq<KLine>, e: Xdxr, i: nat) returns (f: real)
    requires SortedBy(kline, Time()) && DistinctDates(xdxr) && e in xdxr && Counts(e)
    requires i + 1 < |kline| && IsDaily(kline[i]) && kline[i].datetime < EventEpoch(e) <= kline[i + 1].datetime
    requires Numerator(e, kline[i].close) != 0.0 && Denominator(e, kline[i].close) != 0.0
    requires forall x :: x in xdxr && DayOf(kline[i].datetime) < x.date <= DayOf(kline[i + 1].datetime) ==> x == e
    ensures f == ProductAfter(kline, xdxr, DayOf(kline[i + 1].datetime)) && Dilution(e) != 0.0
    ensures var r := Adjusted(kline, Factors(xdxr, kline, Qfq), Qfq);
            && r[i + 1] == Scaled(kline[i + 1], f) && r[i].close == ReferencePrice(e, kline[i].close) * f
            && (AllDivided(e) ==> TenBecome(e) >= 10.0 && r[i].close == ExchangePrice(e, kline[i].close) * f)
  {
    hide ProductAfter, Numerator, Denominator, Dilution, ReferencePrice, Adjusted, Factors, AllDivided, TenBecome,
      ExchangePrice, Counts;
    f := ProductAfter(kline, xdxr, DayOf(kline[i + 1].datetime));
    CloseBeforeIsLatest(kline, EventEpoch(e), 0.0, i);
    SortedIsFixed(kline, Time());
    AdjustedByProduct(xdxr, kline, i);
    AdjustedByProduct(xdxr, kline, i + 1);
    hide SortBy, SortedBy, CloseBefore;
    ProductMeetsReference(kline, xdxr, e, kline[i], DayOf(kline[i].datetime), DayOf(kline[i + 1].datetime));
    if AllDivided(e) {
      ReferenceIsExchange(e, kline[i].close);
    }
  }

  function Flat(datetime: int, price: real): KLine { KLine(datetime, price, price, price, price, 0.0, 0.0, 0, 0) }

  function Dividend(day: int, perTen: real): Xdxr { Xdxr(day, perTen, 0.0, 0.0, 0.0, 1, EX_RIGHTS) }

  lemma SmallDividendPrices(day: int)
    ensures var e := Dividend(day, 0.5);
            && Counts(e) && !AllDivided(e) && Dilution(e) == 1.0 && TenBecome(e) == 10.0
            && Numerator(e, 10.0) == 9.5 && Denominator(e, 10.0) == 10.0
            && ExchangePrice(e, 10.0) == 9.95 && ReferencePrice(e, 10.0) == 9.5
  {
    assert PerShare(0.5) == 0.5 && PerShare(0.0) == 0.0;
  }

  /** A dividend of 0.5 per ten shares at a close of 10 is taken ten times too large: the shares
      open at the exchange's price of 9.95, the adjusted close before is 9.5. */
  lemma SmallDividendLeavesGap(day: int)
    ensures var e := Dividend(day, 0.5);
            var kline := [Flat(MinuteEpoch(day - 1, CLOSE_MINUTE), 10.0), Flat(MinuteEpoch(day, CLOSE_MINUTE), 9.95)];
            var r := Adjusted(kline, Factors([e], kline, Qfq), Qfq);
            && TenBecome(e) != 0.0 && ExchangePrice(e, 10.0) == 9.95
            && r[0].close == 9.5 && r[1] == kline[1]
  {
    var e := Dividend(day, 0.5);
    var before, after := Flat(MinuteEpoch(day - 1, CLOSE_MINUTE), 10.0), Flat(MinuteEpoch(day, CLOSE_MINUTE), 9.95);
    var kline := [before, after];
    SmallDividendPrices(day);
    MinuteEpochParts(day - 1, CLOSE_MINUTE);
    MinuteEpochParts(day, CLOSE_MINUTE);
    NothingAfter(kline, [e], day);
    hide Adjusted, Factors, ProductAfter, Numerator, Denominator, Dilution, TenBecome, ExchangePrice, ReferencePrice,
      AllDivided, Counts, MinuteEpoch, DayOf;
    assert SortedBy(kline, Time()) && DistinctDates([e]) && e in [e];
    var f := NoFalseGap([e], kline, e, 0);
    assert f == 1.0;
  }

  lemma Regroup(a: real, b: real, c: real)
    ensures a * (b * c) == a * b * c
  {
  }

  /** The factor of an event comes from the latest bar before 15:00 of its date. */
  lemma FactorFromLatest(ks: seq<KLine>, e: Xdxr, i: nat)
    requires SortedBy(ks, Time()) && i < |ks| && ks[i].datetime < MinuteEpoch(e.date, 900)
    requires i + 1 < |ks| ==> MinuteEpoch(e.date, 900) <= ks[i + 1].datetime
    ensures EventFactor(ks, e) == FactorGiven(e, ks[i].close)
  {
    hide FactorGiven, SortedBy, CloseBefore;
    CloseBeforeIsLatest(ks, EventEpoch(e), 0.0, i);
  }

  /** The close found is that of the latest bar before the event. */
  lemma {:induction false} CloseBeforeIsLatest(ks: seq<KLine>, epoch: int, none: real, i: nat)
    requires SortedBy(ks, Time()) && i < |ks| && ks[i].datetime < epoch
    requires i + 1 < |ks| ==> epoch <= ks[i + 1].datetime
    ensures CloseBefore(ks, epoch, none) == ks[i].close
  {
    assert ks[0].datetime <= ks[i].datetime by {
      if i > 0 { assert Time()(ks[0]) <= Time()(ks[i]); }
    }
    if i > 0 {
      assert SortedBy(ks[1..], Time()) by {
        assert forall a :: 0 <= a < |ks| - 1 ==> ks[1..][a] == ks[a + 1];
      }
      CloseBeforeIsLatest(ks[1..], epoch, ks[0].close, i - 1);
    } else if |ks| > 1 {
      assert ks[1..][0] == ks[1];
    }
  }
}
