/** The second implementation of forward adjustment, which anchors events at midnight and
    scans a table, and its agreement with the first. */
module AdjustPython {
  import opened Calendar
  import opened Grouping
  import opened Reals
  import opened Sequences
  import opened Sorting
  import opened Adjust

  /** The instant a date string stands for here. */
  function Midnight(date: int): int { MinuteEpoch(date, 0) }

  /** Close of the last row, in table order, before `limit`; zero if there is none. */
  function LastClose(rows: seq<KLine>, limit: int): real {
    if rows == [] then 0.0
    else if rows[|rows| - 1].datetime < limit then rows[|rows| - 1].close
    else LastClose(rows[..|rows| - 1], limit)
  }

  function RowFactor(rows: seq<KLine>, e: Xdxr): real { FactorGiven(e, LastClose(rows, Midnight(e.date))) }

  function RowFactors(rows: seq<KLine>, events: seq<Xdxr>, cumulative: real): seq<FactorPoint> {
    if events == [] then []
    else
      var c := Times(cumulative, RowFactor(rows, events[0]));
      [FactorPoint(events[0].date, c)] + RowFactors(rows, events[1..], c)
  }

  /** The first factor whose date's midnight lies after `ts`. */
  function FactorFor(fac: seq<FactorPoint>, ts: int): real {
    if fac == [] then 1.0 else if Midnight(fac[0].date) > ts then fac[0].factor else FactorFor(fac[1..], ts)
  }

  function AdjustedRows(rows: seq<KLine>, events: seq<Xdxr>): (r: seq<KLine>)
    ensures |r| == |rows|
  {
    if events == [] then rows
    else
      var fac := SortBy(RowFactors(rows, SortBy(events, NewestFirst()), 1.0), OldestFirst());
      seq(|rows|, i requires 0 <= i < |rows| => Scaled(rows[i], FactorFor(fac, rows[i].datetime)))
  }

  /** The cumulative pass of `apply_qfq`. */
  method AccumulateFactors(rows: seq<KLine>, ev: seq<Xdxr>) returns (fac: seq<FactorPoint>)
    ensures fac == RowFactors(rows, ev, 1.0)
  {
    hide RowFactor, Times;
    var cumulative := 1.0;
    fac := [];
    assert ev[0..] == ev;
    for i := 0 to |ev|
      invariant fac + RowFactors(rows, ev[i..], cumulative) == RowFactors(rows, ev, 1.0)
    {
      var e := ev[i];
      assert ev[i..][1..] == ev[i + 1..];
      RowFactorsUnfold(rows, ev[i..], cumulative);
      var preClose := LastClose(rows, Midnight(e.date));
      var ef := 1.0;
      if preClose != 0.0 {
        ef := OneEventFactor(e, preClose);
      }
      assert ef == RowFactor(rows, e) by { FactorOfRow(rows, e); }
      cumulative := Times(cumulative, ef);
      Associative(fac, [FactorPoint(e.date, cumulative)], RowFactors(rows, ev[i + 1..], cumulative));
      fac := fac + [FactorPoint(e.date, cumulative)];
    }
    assert ev[|ev|..] == [];
    assert fac + [] == fac;
  }

  lemma RowFactorsUnfold(rows: seq<KLine>, events: seq<Xdxr>, c: real)
    ensures events != [] ==>
              var c' := Times(c, RowFactor(rows, events[0]));
              RowFactors(rows, events, c) == [FactorPoint(events[0].date, c')] + RowFactors(rows, events[1..], c')
  {
  }

  lemma FactorOfRow(rows: seq<KLine>, e: Xdxr)
    ensures RowFactor(rows, e) == FactorGiven(e, LastClose(rows, Midnight(e.date)))
  {
  }

  method ApplyQfq(df: seq<KLine>, events: seq<Xdxr>) returns (out: seq<KLine>)
    ensures out == AdjustedRows(df, events)
  {
    if events == [] {
      return df;
    }
    var fac := AccumulateFactors(df, SortBy(events, NewestFirst()));
    fac := SortBy(fac, OldestFirst());
    hide SortBy, FactorFor, RowFactors;
    out := [];
    for i := 0 to |df|
      invariant |out| == i && forall j :: 0 <= j < i ==> out[j] == Scaled(df[j], FactorFor(fac, df[j].datetime))
    {
      out := out + [Scaled(df[i], FactorFor(fac, df[i].datetime))];
    }
  }

  // ---------- the product of later events ----------

  function RowWeights(rows: seq<KLine>): Weight { (e: Xdxr) => RowFactor(rows, e) }

  lemma {:induction false} RowFactorsRun(rows: seq<KLine>, events: seq<Xdxr>, c: real)
    ensures RowFactors(rows, events, c) == Running(RowWeights(rows), events, c)
    decreases events
  {
    hide RowFactor, Times;
    if events != [] {
      RowFactorsRun(rows, events[1..], Times(c, RowFactor(rows, events[0])));
    }
  }

  /** Here too, field by field: prices times the product of the factors of exactly the events
      dated after the row's day, and nothing else changed. */
  lemma RowFields(rows: seq<KLine>, events: seq<Xdxr>, i: nat)
    requires DistinctDates(events) && i < |rows|
    ensures var k, r := rows[i], AdjustedRows(rows, events)[i];
            var f := LaterProduct(RowWeights(rows), events, DayOf(k.datetime));
            && r.open == k.open * f && r.close == k.close * f && r.high == k.high * f && r.low == k.low * f
            && r.datetime == k.datetime && r.volume == k.volume && r.amount == k.amount
            && r.up == k.up && r.down == k.down
  {
    RowScaled(rows, events, i);
    hide AdjustedRows, LaterProduct, DayOf;
  }

  lemma RowScaled(rows: seq<KLine>, events: seq<Xdxr>, i: nat)
    requires DistinctDates(events) && i < |rows|
    ensures AdjustedRows(rows, events)[i]
         == Scaled(rows[i], LaterProduct(RowWeights(rows), events, DayOf(rows[i].datetime)))
  {
    hide SortBy, RowFactor, RowFactors, Running, FirstAfter, FactorFor, DayOf, Scaled;
    if events == [] {
      ScaledByOne(rows[i]);
    } else {
      var ev := SortBy(events, NewestFirst());
      RowFactorsRun(rows, ev, 1.0);
      ScanOfSorted(RowWeights(rows), events, DayOf(rows[i].datetime));
      SameScan(SortBy(RowFactors(rows, ev, 1.0), OldestFirst()), rows[i].datetime);
    }
  }

  /** The factor of an event comes from the latest row before midnight of its date. */
  lemma RowFactorFromLatest(rows: seq<KLine>, e: Xdxr, i: nat)
    requires SortedBy(rows, Time()) && i < |rows| && rows[i].datetime < MinuteEpoch(e.date, 0)
    requires i + 1 < |rows| ==> MinuteEpoch(e.date, 0) <= rows[i + 1].datetime
    ensures RowFactor(rows, e) == FactorGiven(e, rows[i].close)
  {
    hide FactorGiven;
    LastIsLatest(rows, MinuteEpoch(e.date, 0), i);
  }

  lemma {:induction false} LastIsLatest(rows: seq<KLine>, limit: int, i: nat)
    requires SortedBy(rows, Time()) && i < |rows| && rows[i].datetime < limit
    requires i + 1 < |rows| ==> limit <= rows[i + 1].datetime
    ensures LastClose(rows, limit) == rows[i].close
  {
    var n := |rows|;
    if i + 1 < n {
      assert limit <= rows[n - 1].datetime by {
        if i + 1 < n - 1 { assert Time()(rows[i + 1]) <= Time()(rows[n - 1]); }
      }
      assert SortedBy(rows[..n - 1], Time()) by {
        assert forall a :: 0 <= a < n - 1 ==> rows[..n - 1][a] == rows[a];
      }
      LastIsLatest(rows[..n - 1], limit, i);
    }
  }

  // ---------- agreement ----------

  /** No row lies on a day before its 15:00. */
  ghost predicate NoMorning(rows: seq<KLine>, date: int) {
    forall k :: k in rows ==> !(Midnight(date) <= k.datetime < MinuteEpoch(date, CLOSE_MINUTE))
  }

  lemma {:induction false} NoneBefore(ks: seq<KLine>, limit: int)
    requires forall i :: 0 <= i < |ks| ==> limit <= ks[i].datetime
    ensures LastClose(ks, limit) == 0.0
  {
    if ks != [] {
      NoneBefore(ks[..|ks| - 1], limit);
    }
  }

  /** Scanning forward to the first late row, or backward from the end, finds the same close. */
  lemma {:induction false} ScansAgree(ks: seq<KLine>, limit: int, none: real)
    requires SortedBy(ks, Time())
    ensures CloseBefore(ks, limit, none)
              == if ks == [] || limit <= ks[0].datetime then none else LastClose(ks, limit)
  {
    if ks != [] && ks[0].datetime < limit {
      var rest := ks[1..];
      assert SortedBy(rest, Time()) by {
        assert forall i :: 0 <= i < |rest| ==> rest[i] == ks[i + 1];
      }
      ScansAgree(rest, limit, ks[0].close);
      LastCloseOfTail(ks, limit);
    }
  }

  lemma {:induction false} LastCloseOfTail(ks: seq<KLine>, limit: int)
    requires ks != [] && SortedBy(ks, Time()) && ks[0].datetime < limit
    ensures LastClose(ks, limit)
              == if |ks| == 1 || limit <= ks[1].datetime then ks[0].close else LastClose(ks[1..], limit)
  {
    var n := |ks|;
    if n > 1 && limit <= ks[n - 1].datetime {
      var front := ks[..n - 1];
      assert SortedBy(front, Time()) by {
        assert forall i :: 0 <= i < |front| ==> front[i] == ks[i];
      }
      LastCloseOfTail(front, limit);
      assert ks[1..][..n - 2] == front[1..];
    } else if n > 1 {
      assert Time()(ks[1]) <= Time()(ks[n - 1]) by {
        if n > 2 { assert Time()(ks[1]) <= Time()(ks[n - 1]); }
      }
    }
  }

  /** On rows in time order the other implementation's scan finds the last close as well. */
  lemma EventFactorIsLastClose(rows: seq<KLine>, e: Xdxr)
    requires SortedBy(rows, Time())
    ensures EventFactor(rows, e) == FactorGiven(e, LastClose(rows, EventEpoch(e)))
  {
    hide FactorGiven, CloseBefore, LastClose, EventEpoch;
    ScansAgree(rows, EventEpoch(e), 0.0);
    if rows == [] || EventEpoch(e) <= rows[0].datetime {
      forall i | 0 <= i < |rows| ensures EventEpoch(e) <= rows[i].datetime {
        if i > 0 { assert Time()(rows[0]) <= Time()(rows[i]); }
      }
      NoneBefore(rows, EventEpoch(e));
    }
  }

  lemma {:induction false} SameLastClose(rows: seq<KLine>, date: int)
    requires NoMorning(rows, date)
    ensures LastClose(rows, Midnight(date)) == LastClose(rows, MinuteEpoch(date, CLOSE_MINUTE))
  {
    if rows != [] {
      SameLastClose(rows[..|rows| - 1], date);
    }
  }

  lemma SameEventFactor(rows: seq<KLine>, e: Xdxr)
    requires SortedBy(rows, Time()) && NoMorning(rows, e.date)
    ensures RowFactor(rows, e) == EventFactor(rows, e)
  {
    hide FactorGiven, LastClose, EventFactor;
    EventFactorIsLastClose(rows, e);
    SameLastClose(rows, e.date);
  }

  lemma {:induction false} SameFactors(rows: seq<KLine>, events: seq<Xdxr>, c: real)
    requires forall e :: e in events ==> RowFactor(rows, e) == EventFactor(rows, e)
    ensures RowFactors(rows, events, c) == Cumulative(rows, events, c)
    decreases events
  {
    hide RowFactor, EventFactor, Times;
    if events != [] {
      SameFactors(rows, events[1..], Times(c, EventFactor(rows, events[0])));
    }
  }

  lemma {:induction false} SameScan(fac: seq<FactorPoint>, ts: int)
    ensures FactorFor(fac, ts) == FirstAfter(fac, DayOf(ts))
  {
    if fac != [] {
      SameScan(fac[1..], ts);
    }
  }

  /** Equal event factors make equal adjusted rows. */
  lemma EqualFactorsAgree(rows: seq<KLine>, events: seq<Xdxr>)
    requires SortedBy(rows, Time()) && forall e :: e in events ==> RowFactor(rows, e) == EventFactor(rows, e)
    ensures AdjustedRows(rows, events) == Adjusted(rows, Factors(events, rows, Qfq), Qfq)
  {
    hide SortedBy, RowFactor, EventFactor, RowFactors, Cumulative, FactorFor, FirstAfter, SortBy;
    if events != [] && rows != [] {
      SortedIsFixed(rows, Time());
      SortByMembers(events, NewestFirst());
      SameFactors(rows, SortBy(events, NewestFirst()), 1.0);
      var fac := SortBy(Factors(events, rows, Qfq), OldestFirst());
      forall i | 0 <= i < |rows| ensures FactorFor(fac, rows[i].datetime) == FirstAfter(fac, DayOf(rows[i].datetime)) {
        SameScan(fac, rows[i].datetime);
      }
    }
  }

  /** On rows in time order, daily or not, both implementations adjust every row alike when no
      row lies on an event's date before 15:00. */
  lemma ImplementationsAgree(rows: seq<KLine>, events: seq<Xdxr>)
    requires SortedBy(rows, Time()) && forall e :: e in events ==> NoMorning(rows, e.date)
    ensures AdjustedRows(rows, events) == Adjusted(rows, Factors(events, rows, Qfq), Qfq)
  {
    hide SortedBy, RowFactor, EventFactor, NoMorning;
    forall e | e in events ensures RowFactor(rows, e) == EventFactor(rows, e) {
      SameEventFactor(rows, e);
    }
    EqualFactorsAgree(rows, events);
  }

  // ---------- how far they differ ----------

  /** The factor of the event is computed from this close, not replaced by one. */
  predicate Effective(e: Xdxr, close: real) {
    close != 0.0 && Counts(e) && Dilution(e) != 0.0 && Numerator(e, close) != 0.0
  }

  /** What the event takes out of a share, or puts in, in money. */
  function NetCash(e: Xdxr): real { e.peigujia * PerShare(e.peigu) - PerShare(e.fenhong) }

  lemma FactorIsRatio(e: Xdxr, close: real)
    ensures Effective(e, close) ==> FactorGiven(e, close) * Dilution(e) * close == close + NetCash(e)
    ensures Effective(e, close) ==> FactorGiven(e, close) == Numerator(e, close) / Denominator(e, close)
    ensures !Effective(e, close) ==> FactorGiven(e, close) == 1.0
    ensures FactorGiven(e, close) != 0.0
  {
    if Effective(e, close) {
      var n, d := Numerator(e, close), Denominator(e, close);
      NonZeroProduct(close, Dilution(e));
      assert (n / d) * d == n;
    } else if close != 0.0 && Dilution(e) == 0.0 {
      assert Denominator(e, close) == 0.0;
    }
  }

  lemma NonZeroProduct(a: real, b: real)
    requires a != 0.0 && b != 0.0
    ensures a * b != 0.0
  {
  }

  /** With different closes before the event the factors are still equal exactly when the event
      moves no money; where only one of them has a factor to compute, when it is one. */
  lemma FactorsEqualExactly(e: Xdxr, p: real, q: real)
    ensures FactorGiven(e, p) == FactorGiven(e, q) <==>
              if Effective(e, p) && Effective(e, q) then p == q || NetCash(e) == 0.0
              else if Effective(e, p) then Numerator(e, p) == Denominator(e, p)
              else if Effective(e, q) then Numerator(e, q) == Denominator(e, q)
              else true
  {
    hide Numerator, Denominator, Dilution, FactorGiven, NetCash, Counts;
    FactorIsRatio(e, p);
    FactorIsRatio(e, q);
    if Effective(e, p) && Effective(e, q) {
      RatiosEqual(FactorGiven(e, p), FactorGiven(e, q), Dilution(e), p, q, NetCash(e));
    } else if Effective(e, p) {
      UnitRatio(e, p);
    } else if Effective(e, q) {
      UnitRatio(e, q);
    }
  }

  lemma UnitRatio(e: Xdxr, close: real)
    requires Effective(e, close)
    ensures Denominator(e, close) != 0.0
    ensures Numerator(e, close) / Denominator(e, close) == 1.0 <==> Numerator(e, close) == Denominator(e, close)
  {
    NonZeroProduct(close, Dilution(e));
    var n, d := Numerator(e, close), Denominator(e, close);
    assert (n / d) * d == n;
  }

  lemma RatiosEqual(f: real, g: real, d: real, p: real, q: real, cash: real)
    requires p != 0.0 && q != 0.0 && d != 0.0
    requires f * d * p == p + cash && g * d * q == q + cash
    ensures f == g <==> p == q || cash == 0.0
  {
    var x, y := f * d, g * d;
    assert x * p == p + cash && y * q == q + cash;
    assert (x - 1.0) * p == cash && (y - 1.0) * q == cash;
    if f == g {
      assert (x - 1.0) * (p - q) == 0.0;
      if p != q {
        assert x == 1.0;
      }
    }
    if p == q || cash == 0.0 {
      assert x == y;
      assert (f - g) * d == 0.0;
    }
  }
}
