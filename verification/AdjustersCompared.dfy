/** Exactly when the two adjusters agree on their output, and an input on which they do not. */
module AdjustersCompared {
  import opened Adjust
  import opened AdjustPython
  import opened Calendar
  import opened Grouping
  import opened Reals
  import Sequences
  import opened Sorting

  /** Some row lies on an earlier day. Only such events touch a row in either implementation. */
  ghost predicate Touches(rows: seq<KLine>, e: Xdxr) { exists k :: k in rows && DayOf(k.datetime) < e.date }

  /** Every event that a row precedes is the next one after some row with a price. */
  ghost predicate Separated(rows: seq<KLine>, events: seq<Xdxr>) {
    forall e :: e in events && Touches(rows, e) ==> exists k :: k in rows && Precedes(k, e, events)
  }

  ghost predicate Precedes(k: KLine, e: Xdxr, events: seq<Xdxr>) {
    && k.close != 0.0 && DayOf(k.datetime) < e.date
    && forall x :: x in events ==> x.date <= DayOf(k.datetime) || e.date <= x.date
  }

  /** The scan for a day finds the point of the nearest later event. */
  lemma {:induction false} ScanFindsNearest(points: seq<FactorPoint>, j: nat, day: int)
    requires Descending(points) && j < |points| && points[j].date > day
    requires forall i :: j < i < |points| ==> points[i].date <= day
    ensures FirstAfter(SortBy(points, OldestFirst()), day) == points[j].factor
  {
    hide SortBy, FirstAfter;
    NewestGoesLast(points);
    var tail := points[1..];
    var sorted := SortBy(tail, OldestFirst());
    FirstAfterOfAppend(sorted, points[0], day);
    SortByMembers(tail, OldestFirst());
    if j > 0 {
      assert tail[j - 1] in sorted;
      ScanFindsNearest(tail, j - 1, day);
    } else {
      forall i | 0 <= i < |sorted| ensures sorted[i].date <= day {
        assert sorted[i] in tail;
      }
    }
  }

  lemma {:induction false} NoneAfter(points: seq<FactorPoint>, day: int)
    requires forall i :: 0 <= i < |points| ==> points[i].date <= day
    ensures FirstAfter(SortBy(points, OldestFirst()), day) == 1.0
  {
    SortByMembers(points, OldestFirst());
    NoneAfterSorted(SortBy(points, OldestFirst()), day);
  }

  lemma {:induction false} NoneAfterSorted(fac: seq<FactorPoint>, day: int)
    requires forall f :: f in fac ==> f.date <= day
    ensures FirstAfter(fac, day) == 1.0
  {
    if fac != [] {
      assert fac[0] in fac;
      NoneAfterSorted(fac[1..], day);
    }
  }

  /** Two lists of points that agree after a day give that day the same factor. */
  lemma SamePointsSameFactor(p: seq<FactorPoint>, q: seq<FactorPoint>, day: int)
    requires |p| == |q| && Descending(p) && Descending(q) && forall i :: 0 <= i < |p| ==> p[i].date == q[i].date
    requires forall i :: 0 <= i < |p| && p[i].date > day ==> p[i] == q[i]
    ensures FirstAfter(SortBy(p, OldestFirst()), day) == FirstAfter(SortBy(q, OldestFirst()), day)
  {
    hide SortBy, FirstAfter;
    var j := |p|;
    while j > 0 && p[j - 1].date <= day
      invariant 0 <= j <= |p|
      invariant forall i :: j <= i < |p| ==> p[i].date <= day
    {
      j := j - 1;
    }
    if j == 0 {
      NoneAfter(p, day);
      NoneAfter(q, day);
    } else {
      ScanFindsNearest(p, j - 1, day);
      ScanFindsNearest(q, j - 1, day);
    }
  }

  lemma RowFactorDates(rows: seq<KLine>, events: seq<Xdxr>, c: real)
    ensures |RowFactors(rows, events, c)| == |events|
    ensures forall i :: 0 <= i < |events| ==> RowFactors(rows, events, c)[i].date == events[i].date
  {
    hide RowFactor, Times;
    if events != [] {
      RowFactorDates(rows, events[1..], Times(c, RowFactor(rows, events[0])));
    }
  }

  lemma TimesCancels(c: real, f: real, g: real)
    requires c != 0.0
    ensures Times(c, f) == Times(c, g) ==> f == g
    ensures f != 0.0 ==> Times(c, f) != 0.0
  {
  }

  /** The first `n` running products are equal if and only if the first `n` factors are. */
  lemma {:induction false} ProductsTellFactors(rows: seq<KLine>, events: seq<Xdxr>, c: real, n: nat)
    requires c != 0.0 && n <= |events|
    ensures |RowFactors(rows, events, c)| == |events|
    ensures (forall i :: 0 <= i < n ==> RowFactors(rows, events, c)[i] == Cumulative(rows, events, c)[i])
       <==> (forall i :: 0 <= i < n ==> RowFactor(rows, events[i]) == EventFactor(rows, events[i]))
    decreases n
  {
    hide RowFactor, EventFactor, Times, RowFactors, Cumulative;
    RowFactorDates(rows, events, c);
    if n > 0 {
      var e, rest := events[0], events[1..];
      RowFactorsUnfold(rows, events, c);
      CumulativeUnfold(rows, events, c);
      var f, g := RowFactor(rows, e), EventFactor(rows, e);
      var p, q := RowFactors(rows, rest, Times(c, f)), Cumulative(rows, rest, Times(c, g));
      TimesCancels(c, f, g);
      FactorNotZero(rows, e);
      ProductsTellFactors(rows, rest, Times(c, f), n - 1);
      SplitFirst([FactorPoint(e.date, Times(c, f))] + p, [FactorPoint(e.date, Times(c, g))] + q, n);
      FirstFactor(rows, events, n);
      assert ([FactorPoint(e.date, Times(c, f))] + p)[1..] == p && ([FactorPoint(e.date, Times(c, g))] + q)[1..] == q;
    }
  }

  lemma SplitFirst<A>(p: seq<A>, q: seq<A>, n: nat)
    requires 0 < n <= |p| == |q|
    ensures (forall i :: 0 <= i < n ==> p[i] == q[i])
       <==> p[0] == q[0] && forall i :: 0 <= i < n - 1 ==> p[1..][i] == q[1..][i]
  {
    if p[0] == q[0] && forall i :: 0 <= i < n - 1 ==> p[1..][i] == q[1..][i] {
      forall i | 0 <= i < n ensures p[i] == q[i] {
        if i > 0 { assert p[1..][i - 1] == q[1..][i - 1]; }
      }
    }
  }

  lemma FirstFactor(rows: seq<KLine>, events: seq<Xdxr>, n: nat)
    requires 0 < n <= |events|
    ensures (forall i :: 0 <= i < n ==> RowFactor(rows, events[i]) == EventFactor(rows, events[i]))
       <==> RowFactor(rows, events[0]) == EventFactor(rows, events[0])
            && forall i :: 0 <= i < n - 1 ==> RowFactor(rows, events[1..][i]) == EventFactor(rows, events[1..][i])
  {
    hide RowFactor, EventFactor;
    var rest := events[1..];
    if RowFactor(rows, events[0]) == EventFactor(rows, events[0])
       && forall i :: 0 <= i < n - 1 ==> RowFactor(rows, rest[i]) == EventFactor(rows, rest[i]) {
      forall i | 0 <= i < n ensures RowFactor(rows, events[i]) == EventFactor(rows, events[i]) {
        if i > 0 { assert rest[i - 1] == events[i]; }
      }
    }
  }

  lemma FactorNotZero(rows: seq<KLine>, e: Xdxr)
    ensures RowFactor(rows, e) != 0.0 && EventFactor(rows, e) != 0.0
  {
    hide FactorGiven;
    FactorIsRatio(e, LastClose(rows, Midnight(e.date)));
    FactorIsRatio(e, CloseBefore(rows, EventEpoch(e), 0.0));
  }

  /** From the newest to the oldest event, those that touch a row come first. */
  lemma TouchingComeFirst(rows: seq<KLine>, ev: seq<Xdxr>) returns (n: nat)
    requires NewestToOldest(ev)
    ensures n <= |ev| && forall i :: 0 <= i < |ev| ==> (i < n <==> Touches(rows, ev[i]))
  {
    hide DayOf;
    n := |ev|;
    while n > 0 && !Touches(rows, ev[n - 1])
      invariant 0 <= n <= |ev|
      invariant forall i :: n <= i < |ev| ==> !Touches(rows, ev[i])
    {
      n := n - 1;
    }
    forall i | 0 <= i < n ensures Touches(rows, ev[i]) {
      var k :| k in rows && DayOf(k.datetime) < ev[n - 1].date;
      assert DayOf(k.datetime) < ev[i].date;
    }
  }

  /** The outputs are equal if and only if the running products are at every event that touches
      a row: the row before it shows them. */
  lemma OutputTellsProducts(rows: seq<KLine>, events: seq<Xdxr>, n: nat)
    requires SortedBy(rows, Time()) && DistinctDates(events) && Separated(rows, events) && events != [] && rows != []
    requires n <= |SortBy(events, NewestFirst())|
    requires forall i :: 0 <= i < |SortBy(events, NewestFirst())| ==>
               (i < n <==> Touches(rows, SortBy(events, NewestFirst())[i]))
    ensures var ev := SortBy(events, NewestFirst());
            && |RowFactors(rows, ev, 1.0)| == |ev|
            && (AdjustedRows(rows, events) == Adjusted(rows, Factors(events, rows, Qfq), Qfq)
                <==> forall i :: 0 <= i < n ==> RowFactors(rows, ev, 1.0)[i] == Cumulative(rows, ev, 1.0)[i])
  {
    var ev := SortBy(events, NewestFirst());
    var p, q := RowFactors(rows, ev, 1.0), Cumulative(rows, ev, 1.0);
    SortedIsFixed(rows, Time());
    NewestFirstOrder(events);
    SortByMembers(events, NewestFirst());
    RowFactorDates(rows, ev, 1.0);
    assert ev != [] && |q| == |ev|;
    RowByRow(rows, events, p, q);
    hide SortBy, RowFactors, Cumulative, SortedBy, FirstAfter, FactorFor, DistinctDates, Separated, Touches, Scaled,
      AdjustedRows, Adjusted, Factors, DayOf;
    if SameRows(rows, p, q) {
      forall j | 0 <= j < n ensures p[j] == q[j] {
        assert Touches(rows, ev[j]);
        SamePointAt(rows, events, ev, p, q, j);
      }
    }
    if forall j :: 0 <= j < n ==> p[j] == q[j] {
      SamePointsSameRows(rows, ev, p, q, n);
    }
  }

  /** Every row is scaled alike by both lists of points. */
  ghost predicate SameRows(rows: seq<KLine>, p: seq<FactorPoint>, q: seq<FactorPoint>) {
    forall i :: 0 <= i < |rows| ==>
      Scaled(rows[i], FirstAfter(SortBy(p, OldestFirst()), DayOf(rows[i].datetime)))
        == Scaled(rows[i], FirstAfter(SortBy(q, OldestFirst()), DayOf(rows[i].datetime)))
  }

  lemma RowByRow(rows: seq<KLine>, events: seq<Xdxr>, p: seq<FactorPoint>, q: seq<FactorPoint>)
    requires rows != [] && events != [] && SortBy(rows, Time()) == rows
    requires p == RowFactors(rows, SortBy(events, NewestFirst()), 1.0)
    requires q == Cumulative(rows, SortBy(events, NewestFirst()), 1.0) && q != []
    ensures AdjustedRows(rows, events) == Adjusted(rows, Factors(events, rows, Qfq), Qfq) <==> SameRows(rows, p, q)
  {
    hide SortBy, RowFactors, Cumulative, FirstAfter, FactorFor, Scaled, DayOf;
    var x, y := AdjustedRows(rows, events), Adjusted(rows, Factors(events, rows, Qfq), Qfq);
    forall i | 0 <= i < |rows|
      ensures x[i] == Scaled(rows[i], FirstAfter(SortBy(p, OldestFirst()), DayOf(rows[i].datetime)))
      ensures y[i] == Scaled(rows[i], FirstAfter(SortBy(q, OldestFirst()), DayOf(rows[i].datetime)))
    {
      SameScan(SortBy(p, OldestFirst()), rows[i].datetime);
    }
  }

  lemma SamePointsSameRows(rows: seq<KLine>, ev: seq<Xdxr>, p: seq<FactorPoint>, q: seq<FactorPoint>, n: nat)
    requires |p| == |q| == |ev| && NewestToOldest(ev) && n <= |ev|
    requires forall i :: 0 <= i < |ev| ==> p[i].date == q[i].date == ev[i].date
    requires forall i :: n <= i < |ev| ==> !Touches(rows, ev[i])
    requires forall i :: 0 <= i < n ==> p[i] == q[i]
    ensures SameRows(rows, p, q)
  {
    hide SortBy, FirstAfter, DayOf, Scaled;
    forall i | 0 <= i < |rows|
      ensures FirstAfter(SortBy(p, OldestFirst()), DayOf(rows[i].datetime))
           == FirstAfter(SortBy(q, OldestFirst()), DayOf(rows[i].datetime))
    {
      var day := DayOf(rows[i].datetime);
      forall j | 0 <= j < |ev| && p[j].date > day ensures p[j] == q[j] {
        assert rows[i] in rows;
        assert Touches(rows, ev[j]);
      }
      SamePointsSameFactor(p, q, day);
    }
  }

  lemma SamePointAt(rows: seq<KLine>, events: seq<Xdxr>, ev: seq<Xdxr>, p: seq<FactorPoint>, q: seq<FactorPoint>,
                    j: nat)
    requires Separated(rows, events) && j < |ev| && (forall e :: e in ev <==> e in events) && Touches(rows, ev[j])
    requires |p| == |q| == |ev| && NewestToOldest(ev)
    requires forall i :: 0 <= i < |ev| ==> p[i].date == q[i].date == ev[i].date
    requires SameRows(rows, p, q)
    ensures p[j] == q[j]
  {
    hide SortBy, FirstAfter, DayOf, Scaled, Touches;
    var e := ev[j];
    assert e in events;
    var k :| k in rows && Precedes(k, e, events);
    var i :| 0 <= i < |rows| && rows[i] == k;
    var day := DayOf(k.datetime);
    forall x | j < x < |ev| ensures p[x].date <= day && q[x].date <= day {
      assert ev[x] in events && p[x].date < p[j].date;
    }
    ScanFindsNearest(p, j, day);
    ScanFindsNearest(q, j, day);
    assert Scaled(rows[i], p[j].factor) == Scaled(rows[i], q[j].factor);
    SameScale(k, p[j].factor, q[j].factor);
  }

  lemma SameScale(k: KLine, f: real, g: real)
    requires k.close != 0.0 && Scaled(k, f) == Scaled(k, g)
    ensures f == g
  {
    assert k.close * f == k.close * g;
  }

  /** On rows in time order, with distinct event dates and a priced row just before every event
      that touches a row, the two implementations give the same output if and only if every
      such event has the same factor in both, which `FactorsEqualExactly` settles from the two
      closes and the event. Events before the first row may be anything. */
  lemma ImplementationsAgreeExactly(rows: seq<KLine>, events: seq<Xdxr>)
    requires SortedBy(rows, Time()) && DistinctDates(events) && Separated(rows, events)
    ensures AdjustedRows(rows, events) == Adjusted(rows, Factors(events, rows, Qfq), Qfq) <==>
              forall e :: e in events && Touches(rows, e) ==>
                FactorGiven(e, LastClose(rows, Midnight(e.date))) == FactorGiven(e, LastClose(rows, EventEpoch(e)))
  {
    if events == [] || rows == [] {
      NothingToAdjust(rows, events);
    } else {
      var ev := SortBy(events, NewestFirst());
      SortByMembers(events, NewestFirst());
      NewestFirstOrder(events);
      hide SortBy, FactorGiven, LastClose, AdjustedRows, Adjusted, EventFactor, RowFactor, SortedBy, DistinctDates,
        Separated, Touches, Factors, RowFactors, Cumulative;
      var n := TouchingComeFirst(rows, ev);
      OutputTellsProducts(rows, events, n);
      ProductsTellFactors(rows, ev, 1.0, n);
      forall e ensures RowFactor(rows, e) == FactorGiven(e, LastClose(rows, Midnight(e.date)))
                    && EventFactor(rows, e) == FactorGiven(e, LastClose(rows, EventEpoch(e)))
      {
        FactorOfRow(rows, e);
        EventFactorIsLastClose(rows, e);
      }
      FirstAreTouching(rows, events, ev, n);
    }
  }

  lemma NothingToAdjust(rows: seq<KLine>, events: seq<Xdxr>)
    requires events == [] || rows == []
    ensures AdjustedRows(rows, events) == Adjusted(rows, Factors(events, rows, Qfq), Qfq)
    ensures forall e :: e in events ==> !Touches(rows, e)
  {
  }

  lemma FirstAreTouching(rows: seq<KLine>, events: seq<Xdxr>, ev: seq<Xdxr>, n: nat)
    requires n <= |ev| && (forall e :: e in ev <==> e in events)
    requires forall i :: 0 <= i < |ev| ==> (i < n <==> Touches(rows, ev[i]))
    ensures (forall i :: 0 <= i < n ==> RowFactor(rows, ev[i]) == EventFactor(rows, ev[i]))
       <==> (forall e :: e in events && Touches(rows, e) ==> RowFactor(rows, e) == EventFactor(rows, e))
  {
    hide RowFactor, EventFactor, Touches;
    if forall i :: 0 <= i < n ==> RowFactor(rows, ev[i]) == EventFactor(rows, ev[i]) {
      forall e | e in events && Touches(rows, e) ensures RowFactor(rows, e) == EventFactor(rows, e) {
        var i :| 0 <= i < |ev| && ev[i] == e;
      }
    }
    if forall e :: e in events && Touches(rows, e) ==> RowFactor(rows, e) == EventFactor(rows, e) {
      forall i | 0 <= i < n ensures RowFactor(rows, ev[i]) == EventFactor(rows, ev[i]) {
        assert ev[i] in events;
      }
    }
  }

  // ---------- an input on which they differ ----------

  /** A close of 10, a bar of 5 at 9:31 on the ex-date, and a dividend of 10 per ten shares:
      the midnight anchor gives a factor of 0.9, the 15:00 anchor 0.8, and the adjusted rows
      differ. */
  lemma MorningBarDiffers(day: int)
    ensures var e := Dividend(day, 10.0);
            var rows := [Flat(MinuteEpoch(day - 1, CLOSE_MINUTE), 10.0), Flat(MinuteEpoch(day, 571), 5.0)];
            && RowFactor(rows, e) == 0.9 && EventFactor(rows, e) == 0.8
            && AdjustedRows(rows, [e]) != Adjusted(rows, Factors([e], rows, Qfq), Qfq)
  {
    var e := Dividend(day, 10.0);
    var first, second := Flat(MinuteEpoch(day - 1, CLOSE_MINUTE), 10.0), Flat(MinuteEpoch(day, 571), 5.0);
    var rows := [first, second];
    MinuteEpochParts(day - 1, CLOSE_MINUTE);
    assert LastClose(rows, Midnight(day)) == 10.0 by {
      assert rows[..1] == [first];
    }
    assert LastClose(rows, EventEpoch(e)) == 5.0;
    EventFactorIsLastClose(rows, e);
    assert PerShare(10.0) == 1.0;
    assert FactorGiven(e, 10.0) == 0.9 && FactorGiven(e, 5.0) == 0.8;
    hide FactorGiven, LastClose, AdjustedRows, Adjusted;
    assert Precedes(first, e, [e]);
    assert first in rows;
    assert Touches(rows, e);
    ImplementationsAgreeExactly(rows, [e]);
    assert e in [e];
  }
}
