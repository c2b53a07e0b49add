/** Resampling of A-share bars: minute bars by session-aware end labels, daily bars by week
    and month. */
module Resampler {
  import opened Calendar
  import opened Grouping
  import opened Sequences

  const MORNING_OPEN := 570
  const AFTERNOON_OPEN := 780
  const SESSION_SPLIT := 720

  datatype Freq = Min1 | Min5 | Min15 | Min30 | Hour1 | Daily | Weekly | Monthly

  // ---------- labels ----------

  /** The first multiple of `p` after `e`. */
  function Ceiling(e: nat, p: int): int
    requires 0 < p
  {
    (e / p + 1) * p
  }

  /** Minutes of trading before minute `t` in its session. */
  function Elapsed(t: int): (r: nat)
    ensures t < SESSION_SPLIT ==> r == if t < MORNING_OPEN then 0 else t - MORNING_OPEN
    ensures t >= SESSION_SPLIT ==> r == if t < AFTERNOON_OPEN then 0 else t - AFTERNOON_OPEN
  {
    var elapsed := if t < MORNING_OPEN then 0 else t - SessionStart(t);
    if elapsed < 0 then 0 else elapsed
  }

  function SessionStart(t: int): int { if t < SESSION_SPLIT then MORNING_OPEN else AFTERNOON_OPEN }

  /** Minute of the day at which the bar that contains minute `t` ends. */
  function BarEndMinute(t: int, p: int): int
    requires 0 < p
  {
    SessionStart(t) + Ceiling(Elapsed(t), p)
  }

  /** `BarEndTimeAShare`: the end of the bar an instant belongs to, on the same CST day. */
  function BarEnd(dt: int, p: int): int {
    if p <= 0 then dt
    else
      var c := Civil(DayOf(dt));
      var end := BarEndMinute(MinuteOf(dt), p);
      CstToEpoch(c.year, c.month, c.day, end / 60, end % 60)
  }

  lemma BarEndOnItsDay(dt: int, p: int)
    requires 0 < p
    ensures BarEnd(dt, p) == MinuteEpoch(DayOf(dt), BarEndMinute(MinuteOf(dt), p))
  {
    hide Civil, DayNumber, BarEndMinute;
    CivilIsInverse(DayOf(dt));
    var end := BarEndMinute(MinuteOf(dt), p);
    assert end / 60 * 60 + end % 60 == end;
  }

  lemma DivGrid(e: nat, p: int)
    requires 0 < p
    ensures 0 <= e / p * p <= e < (e / p + 1) * p
  {
  }

  lemma CeilingBounds(e: nat, p: int)
    requires 0 < p
    ensures e < Ceiling(e, p) <= e + p && p <= Ceiling(e, p)
    ensures Ceiling(e, p) == e / p * p + p
  {
    DivGrid(e, p);
    assert (e / p + 1) * p == e / p * p + p;
  }

  lemma CeilingOrder(a: nat, b: nat, p: int)
    requires 0 < p && a <= b
    ensures Ceiling(a, p) <= Ceiling(b, p)
  {
    DivGrid(a, p);
    DivGrid(b, p);
    if a / p > b / p {
      TimesOrder(b / p + 1, a / p, p);
    }
    TimesOrder(a / p + 1, b / p + 1, p);
  }

  lemma TimesOrder(x: int, y: int, p: int)
    requires 0 < p
    ensures x <= y ==> x * p <= y * p
  {
    if x <= y {
      assert (y - x) * p >= 0;
      assert y * p == x * p + (y - x) * p;
    }
  }

  lemma MinuteLabelsOrdered(s: int, t: int, p: int)
    requires 0 < p && 0 <= s <= t < 1440
    ensures BarEndMinute(s, p) <= BarEndMinute(t, p)
  {
    hide Ceiling;
    CeilingBounds(Elapsed(s), p);
    CeilingBounds(Elapsed(t), p);
    if SessionStart(s) == SessionStart(t) {
      CeilingOrder(Elapsed(s), Elapsed(t), p);
    }
  }

  /** Labels stay between the day's first and the next day's first, however long the period. */
  lemma MinuteLabelRange(t: int, p: int)
    requires 0 < p && 0 <= t < 1440
    ensures MORNING_OPEN + p <= BarEndMinute(t, p) <= 1440 + p
    ensures t < BarEndMinute(t, p)
    ensures MORNING_OPEN <= t < SESSION_SPLIT || AFTERNOON_OPEN <= t ==> BarEndMinute(t, p) <= t + p
  {
    hide Ceiling;
    CeilingBounds(Elapsed(t), p);
  }

  lemma DaysOrdered(a: int, b: int)
    requires a <= b
    ensures DayOf(a) < DayOf(b) || (DayOf(a) == DayOf(b) && MinuteOf(a) <= MinuteOf(b))
  {
  }

  /** The label is monotone in time across lunch and day boundaries, for every period. */
  lemma BarEndMonotone(a: int, b: int, p: int)
    requires a <= b
    ensures BarEnd(a, p) <= BarEnd(b, p)
  {
    hide BarEndMinute, Civil, DayNumber;
    if 0 < p {
      DaysOrdered(a, b);
      BarEndOnItsDay(a, p);
      BarEndOnItsDay(b, p);
      hide BarEnd;
      MinuteLabelRange(MinuteOf(a), p);
      MinuteLabelRange(MinuteOf(b), p);
      if DayOf(a) == DayOf(b) {
        MinuteLabelsOrdered(MinuteOf(a), MinuteOf(b), p);
      }
    }
  }

  /** The label lies strictly after its instant, and by no more than a period in session. */
  lemma BarEndIsCeiling(dt: int, p: int)
    requires 0 < p
    ensures dt < BarEnd(dt, p)
    ensures MORNING_OPEN <= MinuteOf(dt) < SESSION_SPLIT || AFTERNOON_OPEN <= MinuteOf(dt) ==>
              BarEnd(dt, p) <= dt + p * 60
  {
    hide Civil, DayNumber, BarEndMinute, MinuteOf;
    BarEndOnItsDay(dt, p);
    MinuteLabelRange(MinuteOf(dt), p);
    InstantParts(dt);
  }

  lemma InstantParts(dt: int)
    ensures MinuteEpoch(DayOf(dt), MinuteOf(dt)) <= dt < MinuteEpoch(DayOf(dt), MinuteOf(dt)) + 60
  {
  }

  /** Rounding down to the grid of `p` first does not change the quotient by a multiple of `p`. */
  lemma GridOfGrid(e: nat, p: int, q: int)
    requires 0 < p && 0 < q && q % p == 0
    ensures e / p * p / q == e / q
  {
    var k := q / p;
    assert q == k * p;
    var a, b := e / p * p, e / q;
    DivGrid(e, p);
    DivGrid(e, q);
    // b * q is a multiple of p below e, hence at most a.
    assert b * q == b * k * p by { assert b * (k * p) == b * k * p; }
    MultipleBelow(b * k, e, p);
    assert b * q <= a <= e < (b + 1) * q;
    QuotientIs(a, q, b);
  }

  lemma MultipleBelow(m: int, e: nat, p: int)
    requires 0 < p && m * p <= e
    ensures m * p <= e / p * p
  {
    DivGrid(e, p);
    if m > e / p {
      assert false;
    }
  }

  lemma QuotientIs(a: nat, q: int, b: nat)
    requires 0 < q && b * q <= a < (b + 1) * q
    ensures a / q == b
  {
    DivGrid(a, q);
    if a / q < b {
      assert false;
    }
    if a / q > b {
      assert false;
    }
  }

  lemma MinuteLabelComposes(t: int, p: int, q: int)
    requires 0 < p && 0 < q && q % p == 0 && 0 <= t < 1440
    ensures 0 <= BarEndMinute(t, p) - p < 1440
    ensures BarEndMinute(BarEndMinute(t, p) - p, q) == BarEndMinute(t, q)
  {
    var e := Elapsed(t);
    DivGrid(e, p);
    CeilingBounds(e, p);
    GridOfGrid(e, p, q);
    SameCeiling(e, e / p * p, q);
    hide Ceiling;
    assert BarEndMinute(t, p) - p == SessionStart(t) + e / p * p;
    assert Elapsed(SessionStart(t) + e / p * p) == e / p * p;
  }

  lemma SameCeiling(a: nat, b: nat, q: int)
    requires 0 < q && a / q == b / q
    ensures Ceiling(a, q) == Ceiling(b, q)
  {
  }

  /** Labelling with a fine period and then labelling those bars with a multiple of it is
      labelling with the multiple, for every instant, in or out of session. */
  lemma BarEndComposes(dt: int, p: int, q: int)
    requires 0 < p && 0 < q && q % p == 0
    ensures BarEnd(BarEnd(dt, p) - p * 60, q) == BarEnd(dt, q)
  {
    hide BarEndMinute, Civil, DayNumber;
    var t := MinuteOf(dt);
    MinuteLabelComposes(t, p, q);
    BarEndOnItsDay(dt, p);
    BarEndOnItsDay(dt, q);
    var u := BarEndMinute(t, p) - p;
    assert BarEnd(dt, p) - p * 60 == MinuteEpoch(DayOf(dt), u);
    hide BarEnd;
    MinuteEpochParts(DayOf(dt), u);
    BarEndOnItsDay(MinuteEpoch(DayOf(dt), u), q);
  }

  /** The label in minutes of the day: whole periods from 9:30 before noon and from 13:00 after,
      never later than needed; what lies before a session belongs to its first bar. Under a
      period that is not positive an instant is its own label. */
  lemma BarEndTable(day: int, t: int, p: int)
    requires 0 <= t < 1440
    ensures p <= 0 ==> BarEnd(MinuteEpoch(day, t), p) == MinuteEpoch(day, t)
    ensures 0 < p ==>
            var m := (BarEnd(MinuteEpoch(day, t), p) - MinuteEpoch(day, 0)) / 60;
            && BarEnd(MinuteEpoch(day, t), p) == MinuteEpoch(day, m)
            && (t < 570 ==> m == 570 + p)
            && (570 <= t < 720 ==> m - p <= t < m && (m - 570) % p == 0)
            && (720 <= t < 780 ==> m == 780 + p)
            && (780 <= t ==> m - p <= t < m && (m - 780) % p == 0)
  {
    if 0 < p {
      hide BarEnd, BarEndMinute, DayOf, MinuteOf;
      MinuteEpochParts(day, t);
      BarEndOnItsDay(MinuteEpoch(day, t), p);
      EndMinuteTable(t, p);
      assert (MinuteEpoch(day, BarEndMinute(t, p)) - MinuteEpoch(day, 0)) / 60 == BarEndMinute(t, p);
    }
  }

  lemma EndMinuteTable(t: int, p: int)
    requires 0 < p && 0 <= t < 1440
    ensures var m := BarEndMinute(t, p);
            && (t < 570 ==> m == 570 + p)
            && (570 <= t < 720 ==> m - p <= t < m && (m - 570) % p == 0)
            && (720 <= t < 780 ==> m == 780 + p)
            && (780 <= t ==> m - p <= t < m && (m - 780) % p == 0)
  {
    hide Ceiling;
    CeilingBounds(Elapsed(t), p);
    CeilingIsMultiple(Elapsed(t), p);
    if Elapsed(t) == 0 {
      FirstCeiling(p);
    }
  }

  lemma CeilingIsMultiple(e: nat, p: int)
    requires 0 < p
    ensures Ceiling(e, p) % p == 0
  {
    MultipleLeavesNothing(e / p + 1, p);
  }

  lemma MultipleLeavesNothing(k: nat, p: int)
    requires 0 < p
    ensures k * p % p == 0
  {
    DivGrid(k * p, p);
    QuotientIs(k * p, p, k) by { assert (k + 1) * p == k * p + p; }
    assert k * p == k * p / p * p + k * p % p;
  }

  lemma FirstCeiling(p: int)
    requires 0 < p
    ensures Ceiling(0, p) == p
  {
    DivGrid(0, p);
    if 0 / p > 0 {
      assert false;
    }
  }

  // ---------- resampling ----------

  /** The source period in minutes, guessed from the first two bars. */
  function SourceMinutes(kline: seq<KLine>): (m: int)
    requires 2 <= |kline|
    ensures 1 <= m
  {
    var delta := kline[1].datetime - kline[0].datetime;
    if delta > 0 then (if delta / 60 < 1 then 1 else delta / 60) else 5
  }

  /** The label of a source bar that ends at `dt`: that of the bar containing its start. */
  function MinuteLabel(source: int, p: int): Label { (dt: int) => BarEnd(dt - source * 60, p) }

  function WeekKey(dt: int): int {
    var c := Civil(DayOf(dt));
    var wday := (DayOf(dt) + 4) % 7;
    CstToEpoch(c.year, c.month, c.day, 0, 0) - (wday + 6) % 7 * DAY
  }

  function MonthKey(dt: int): int {
    var c := Civil(DayOf(dt));
    CstToEpoch(c.year, c.month, 1, 0, 0)
  }

  function ResampledMinute(kline: seq<KLine>, p: int): seq<KLine> {
    if |kline| < 2 then kline else ByLabel(kline, MinuteLabel(SourceMinutes(kline), p))
  }

  function Resampled(kline: seq<KLine>, target: Freq): seq<KLine> {
    if kline == [] then kline
    else match target
      case Min1 => kline
      case Min5 => ResampledMinute(kline, 5)
      case Min15 => ResampledMinute(kline, 15)
      case Min30 => ResampledMinute(kline, 30)
      case Hour1 => ResampledMinute(kline, 60)
      case Daily => kline
      case Weekly => ByLabel(kline, WeekKey)
      case Monthly => ByLabel(kline, MonthKey)
  }

  // ---------- the resampler ----------

  method FoldGroup(key: int, ks: seq<KLine>) returns (bar: KLine)
    requires ks != []
    ensures bar == Aggregate(key, ks)
  {
    var high, low, volume, amount := ks[0].high, ks[0].low, 0.0, 0.0;
    for i := 0 to |ks|
      invariant i == 0 ==> high == ks[0].high && low == ks[0].low
      invariant i > 0 ==> high == Highest(ks[..i]) && low == Lowest(ks[..i])
      invariant volume == Volume(ks[..i]) && amount == Amount(ks[..i])
    {
      assert ks[..i + 1][..i] == ks[..i];
      high := Max(high, ks[i].high);
      low := Min(low, ks[i].low);
      volume := volume + ks[i].volume;
      amount := amount + ks[i].amount;
    }
    assert ks[..|ks|] == ks;
    bar := KLine(key, ks[0].open, ks[|ks| - 1].close, high, low, volume, amount, 0, 0);
  }

  /** The ordered map of groups, by key. */
  method CollectGroups(kline: seq<KLine>, f: Label) returns (groups: map<int, seq<KLine>>)
    ensures GroupsOf(groups, kline, f)
  {
    hide GroupsOf;
    groups := map[];
    assert GroupsOf(map[], [], f) by { NoneYet(f); }
    for i := 0 to |kline|
      invariant GroupsOf(groups, kline[..i], f)
    {
      assert kline[..i + 1] == kline[..i] + [kline[i]];
      var l := f(kline[i].datetime);
      GroupGrows(groups, kline[..i], kline[i], f);
      groups := groups[l := (if l in groups then groups[l] else []) + [kline[i]]];
    }
    assert kline[..|kline|] == kline;
  }

  lemma NoneYet(f: Label)
    ensures GroupsOf(map[], [], f)
  {
  }

  lemma GroupGrows(groups: map<int, seq<KLine>>, bars: seq<KLine>, k: KLine, f: Label)
    requires GroupsOf(groups, bars, f)
    ensures var l := f(k.datetime);
            GroupsOf(groups[l := (if l in groups then groups[l] else []) + [k]], bars + [k], f)
  {
    forall m ensures Pick(bars + [k], f, m)
                       == if m == f(k.datetime) then Pick(bars, f, m) + [k] else Pick(bars, f, m) {
      PickSnoc(bars, k, f, m);
    }
    hide Pick;
  }

  lemma DropOthers(bars: seq<KLine>, f: Label, l: int, m: int)
    ensures Pick(Drop(bars, f, l), f, m) == if m == l then [] else Pick(bars, f, m)
  {
    if bars != [] {
      hide Pick, Drop;
      var front, last := bars[..|bars| - 1], bars[|bars| - 1];
      assert bars == front + [last];
      DropOthers(front, f, l, m);
      PickSnoc(front, last, f, l);
      PickSnoc(front, last, f, m);
      if f(last.datetime) != l {
        PickSnoc(Drop(front, f, l), last, f, m);
      }
    }
  }

  /** The map holds exactly the nonempty groups of `rest`. */
  ghost predicate GroupsOf(groups: map<int, seq<KLine>>, rest: seq<KLine>, f: Label) {
    && (forall l :: l in groups <==> Pick(rest, f, l) != [])
    && (forall l :: l in groups ==> groups[l] == Pick(rest, f, l))
  }

  /** Grouping through an ordered map, and one output bar per key in ascending order. */
  method GroupAndFold(kline: seq<KLine>, f: Label) returns (result: seq<KLine>)
    ensures result == ByLabel(kline, f)
  {
    hide Pick, Drop, Least, ByLabel, GroupsOf, Aggregate;
    var groups := CollectGroups(kline, f);
    result := [];
    ghost var rest := kline;
    while groups != map[]
      invariant GroupsOf(groups, rest, f)
      invariant result + ByLabel(rest, f) == ByLabel(kline, f)
      decreases |groups|
    {
      LeastKeyExists(groups.Keys);
      var key :| key in groups && forall k :: k in groups ==> key <= k;
      LeastGroup(groups, rest, f, key);
      var bar := FoldGroup(key, groups[key]);
      Associative(result, [bar], ByLabel(Drop(rest, f, key), f));
      result := result + [bar];
      rest := Drop(rest, f, key);
      groups := Without(groups, key);
    }
    NoGroups(rest, f);
    assert result + [] == result;
  }

  function Without(groups: map<int, seq<KLine>>, key: int): (r: map<int, seq<KLine>>)
    requires key in groups
    ensures |r| < |groups|
  {
    var r := groups - {key};
    assert groups.Keys == r.Keys + {key};
    r
  }

  lemma LeastGroup(groups: map<int, seq<KLine>>, rest: seq<KLine>, f: Label, key: int)
    requires GroupsOf(groups, rest, f) && key in groups && forall k :: k in groups ==> key <= k
    ensures groups[key] != [] && GroupsOf(Without(groups, key), Drop(rest, f, key), f)
    ensures ByLabel(rest, f) == [Aggregate(key, groups[key])] + ByLabel(Drop(rest, f, key), f)
  {
    hide Pick, Drop, Least, ByLabel, Aggregate;
    LeastOfGroups(rest, f, key, groups.Keys);
    ByLabelUnfold(rest, f);
    forall m ensures Pick(Drop(rest, f, key), f, m) == if m == key then [] else Pick(rest, f, m) {
      DropOthers(rest, f, key, m);
    }
  }

  lemma NoGroups(rest: seq<KLine>, f: Label)
    requires GroupsOf(map[], rest, f)
    ensures rest == [] && ByLabel(rest, f) == []
  {
    GroupsOfNone(rest, f);
    NoBars(f);
  }

  lemma {:induction false} LeastKeyExists(keys: set<int>)
    requires keys != {}
    ensures exists k :: k in keys && forall j :: j in keys ==> k <= j
  {
    assert (forall k :: k !in keys) ==> keys == {};
    var k :| k in keys;
    if keys != {k} {
      LeastKeyExists(keys - {k});
      var m :| m in keys - {k} && forall j :: j in keys - {k} ==> m <= j;
      var least := if k <= m then k else m;
      assert forall j :: j in keys ==> j == k || j in keys - {k};
      assert least in keys && forall j :: j in keys ==> least <= j;
    }
  }

  lemma LeastOfGroups(rest: seq<KLine>, f: Label, key: int, keys: set<int>)
    requires forall l :: l in keys <==> Pick(rest, f, l) != []
    requires key in keys && forall k :: k in keys ==> key <= k
    ensures rest != [] && Least(rest, f) == key
  {
    assert Pick(rest, f, key)[0] in Pick(rest, f, key);
    LeastIsPicked(rest, f);
    assert Least(rest, f) in keys;
    var b := Pick(rest, f, key)[0];
    assert b in rest;
  }

  lemma GroupsOfNone(rest: seq<KLine>, f: Label)
    requires forall l :: Pick(rest, f, l) == []
    ensures rest == []
  {
    if rest != [] {
      LeastIsPicked(rest, f);
    }
  }

  method ResampleMinute(kline: seq<KLine>, periodMin: int) returns (result: seq<KLine>)
    ensures result == ResampledMinute(kline, periodMin)
  {
    if |kline| < 2 {
      return kline;
    }
    var sourceMin := 5;
    var delta := kline[1].datetime - kline[0].datetime;
    if delta > 0 {
      sourceMin := if delta / 60 < 1 then 1 else delta / 60;
    }
    result := GroupAndFold(kline, MinuteLabel(sourceMin, periodMin));
  }

  method ResampleKline(kline: seq<KLine>, target: Freq) returns (result: seq<KLine>)
    ensures result == Resampled(kline, target)
  {
    if kline == [] {
      return kline;
    }
    match target
    case Min1 => result := kline;
    case Min5 => result := ResampleMinute(kline, 5);
    case Min15 => result := ResampleMinute(kline, 15);
    case Min30 => result := ResampleMinute(kline, 30);
    case Hour1 => result := ResampleMinute(kline, 60);
    case Daily => result := kline;
    case Weekly => result := GroupAndFold(kline, WeekKey);
    case Monthly => result := GroupAndFold(kline, MonthKey);
  }

  // ---------- labels and frequencies, in minutes and months ----------

  /** A month's key is the midnight that starts its first day, for every minute of every date. */
  lemma MonthKeyIsFirst(y: int, m: int, d: int, minute: int)
    requires ValidDate(y, m, d) && 0 <= minute < 1440
    ensures MonthKey(MinuteEpoch(DayNumber(y, m, d), minute)) == MinuteEpoch(DayNumber(y, m, 1), 0)
  {
    hide DayNumber, Civil, DayOf, MinuteEpoch;
    MinuteEpochParts(DayNumber(y, m, d), minute);
    CivilOf(y, m, d);
  }

  /** Bars share a monthly bar exactly when they share year and month. */
  lemma MonthlyTogether(y: int, m: int, d: int, minute: int, y': int, m': int, d': int, minute': int)
    requires ValidDate(y, m, d) && ValidDate(y', m', d') && 0 <= minute < 1440 && 0 <= minute' < 1440
    ensures MonthKey(MinuteEpoch(DayNumber(y, m, d), minute)) == MonthKey(MinuteEpoch(DayNumber(y', m', d'), minute'))
       <==> y == y' && m == m'
  {
    hide DayNumber, MonthKey;
    MonthKeyIsFirst(y, m, d, minute);
    MonthKeyIsFirst(y', m', d', minute');
    if y * 100 + m < y' * 100 + m' {
      DateOrder(y, m, 1, y', m', 1);
    } else if y' * 100 + m' < y * 100 + m {
      DateOrder(y', m', 1, y, m, 1);
    }
  }

  /** Bars share a weekly bar exactly when their days have the same Monday; 2024-01-01 is one. */
  lemma WeeklyTogether(a: int, b: int)
    ensures WeekKey(a) == WeekKey(b) <==> DayOf(a) - (DayOf(a) + 3) % 7 == DayOf(b) - (DayOf(b) + 3) % 7
    ensures WeekKey(MinuteEpoch(DayNumber(2024, 1, 7), 900)) == MinuteEpoch(DayNumber(2024, 1, 1), 0)
  {
    assert DayNumber(2024, 1, 1) == 19723 && DayNumber(2024, 1, 7) == 19729;
    hide WeekKey, DayOf, DayNumber;
    WeekKeyIsMonday(a);
    WeekKeyIsMonday(b);
    MinuteEpochParts(19729, 900);
    WeekKeyIsMonday(MinuteEpoch(19729, 900));
    assert MondayOf(19729) == 19723;
  }

  /** Minute frequencies, end to end. The source period is guessed from the first two bars: whole
      minutes between them, at least one, and five when the second is not later. A source bar
      that starts at minute `t` of a day goes into the output bar whose end, a whole number of
      5, 15, 30 or 60 minutes after 9:30 or 13:00, is the next one after `t`. */
  lemma MinuteFrequencies(kline: seq<KLine>, target: Freq, day: int, t: int)
    requires 2 <= |kline| && 0 <= t < 1440 && target in {Min5, Min15, Min30, Hour1}
    ensures var p := if target == Min5 then 5 else if target == Min15 then 15 else if target == Min30 then 30 else 60;
            var delta := kline[1].datetime - kline[0].datetime;
            var source := if delta <= 0 then 5 else if delta < 60 then 1 else delta / 60;
            var end := LabelOf(kline, target)(MinuteEpoch(day, t) + source * 60);
            var m := (end - MinuteEpoch(day, 0)) / 60;
            && end == MinuteEpoch(day, m)
            && (t < 570 ==> m == 570 + p)
            && (570 <= t < 720 ==> m - p <= t < m && (m - 570) % p == 0)
            && (720 <= t < 780 ==> m == 780 + p)
            && (780 <= t ==> m - p <= t < m && (m - 780) % p == 0)
  {
    hide BarEnd, MinuteEpoch;
    BarEndTable(day, t, 5);
    BarEndTable(day, t, 15);
    BarEndTable(day, t, 30);
    BarEndTable(day, t, 60);
  }

  // ---------- main results ----------

  predicate Sorted(kline: seq<KLine>) {
    forall i, j :: 0 <= i < j < |kline| ==> kline[i].datetime <= kline[j].datetime
  }

  lemma MonotoneLabel(source: int, p: int)
    ensures Monotone(MinuteLabel(source, p))
  {
    hide BarEnd;
    forall a, b | a <= b ensures MinuteLabel(source, p)(a) <= MinuteLabel(source, p)(b) {
      BarEndMonotone(a - source * 60, b - source * 60, p);
    }
  }

  /** The Monday on or before a day; 1970-01-01 was a Thursday. */
  function MondayOf(day: int): int { day - (day + 3) % 7 }

  /** A week's key is the midnight that starts its Monday. */
  lemma WeekKeyIsMonday(dt: int)
    ensures WeekKey(dt) == MinuteEpoch(MondayOf(DayOf(dt)), 0)
    ensures MondayOf(DayOf(dt)) <= DayOf(dt) < MondayOf(DayOf(dt)) + 7
  {
    hide DayNumber, Civil, DayOf;
    CivilIsInverse(DayOf(dt));
    WeekdayShift(DayOf(dt));
  }

  lemma WeekdayShift(day: int)
    ensures ((day + 4) % 7 + 6) % 7 == (day + 3) % 7
  {
  }

  lemma MondaysOrdered(a: int, b: int)
    requires a <= b
    ensures MondayOf(a) <= MondayOf(b)
  {
  }

  lemma WeekKeyMonotone()
    ensures Monotone(WeekKey)
  {
    hide WeekKey, DayOf, MondayOf;
    forall a: int, b: int | a <= b ensures WeekKey(a) <= WeekKey(b) {
      DayOrder(a, b);
      WeekKeyIsMonday(a);
      WeekKeyIsMonday(b);
      MondaysOrdered(DayOf(a), DayOf(b));
    }
  }

  lemma DayOrder(a: int, b: int)
    requires a <= b
    ensures DayOf(a) <= DayOf(b)
  {
  }

  lemma MonthKeyMonotone()
    ensures Monotone(MonthKey)
  {
    hide DayNumber, DayOf, Civil;
    forall a: int, b: int | a <= b ensures MonthKey(a) <= MonthKey(b) {
      DayOrder(a, b);
      MonthStartsOrdered(DayOf(a), DayOf(b));
    }
  }

  /** Every frequency conserves volume and amount, for any input; and what is not grouped comes back
      as it is: one-minute and daily targets, and minute targets with fewer than two bars. */
  lemma ResamplingConserves(kline: seq<KLine>, target: Freq)
    ensures Volume(Resampled(kline, target)) == Volume(kline)
    ensures Amount(Resampled(kline, target)) == Amount(kline)
    ensures target in {Min1, Daily} || (|kline| < 2 && target in {Min5, Min15, Min30, Hour1}) ==>
              Resampled(kline, target) == kline && !Groups(kline, target)
  {
    hide ByLabel, Volume, Amount, BarEnd, WeekKey, MonthKey;
    if 2 <= |kline| {
      GroupingConserves(kline, MinuteLabel(SourceMinutes(kline), 5));
      GroupingConserves(kline, MinuteLabel(SourceMinutes(kline), 15));
      GroupingConserves(kline, MinuteLabel(SourceMinutes(kline), 30));
      GroupingConserves(kline, MinuteLabel(SourceMinutes(kline), 60));
    }
    GroupingConserves(kline, WeekKey);
    GroupingConserves(kline, MonthKey);
  }

  /** Whether the frequency groups this input: minutes need two bars to guess the source
      period from. */
  predicate Groups(kline: seq<KLine>, target: Freq) {
    match target
    case Min1 | Daily => false
    case Weekly | Monthly => true
    case _ => 2 <= |kline|
  }

  /** The label function of a frequency that groups. */
  function LabelOf(kline: seq<KLine>, target: Freq): Label
    requires Groups(kline, target)
  {
    match target
    case Min5 => MinuteLabel(SourceMinutes(kline), 5)
    case Min15 => MinuteLabel(SourceMinutes(kline), 15)
    case Min30 => MinuteLabel(SourceMinutes(kline), 30)
    case Hour1 => MinuteLabel(SourceMinutes(kline), 60)
    case Weekly => WeekKey
    case Monthly => MonthKey
  }

  /** Sorted input, wherever bars are grouped: output labels strictly increase, the input is
      cut into contiguous runs, and each output bar is the fold of its run. */
  lemma ResampledBarsAreRuns(kline: seq<KLine>, target: Freq)
    requires Sorted(kline) && Groups(kline, target)
    ensures var r := Resampled(kline, target);
            var runs := RunsOf(kline, LabelOf(kline, target));
            && Joined(runs) == kline && |runs| == |r|
            && (forall i :: 0 <= i < |r| ==> IsRun(runs[i], r[i], LabelOf(kline, target)))
            && (forall i, j :: 0 <= i < j < |r| ==> r[i].datetime < r[j].datetime)
  {
    hide ByLabel, RunsOf, IsRun, BarEnd, WeekKey, MonthKey, Joined, SourceMinutes;
    var f := LabelOf(kline, target);
    NoBars(f);
    assert Resampled(kline, target) == ByLabel(kline, f);
    LabelOfIsMonotone(kline, target);
    SortedUnderMonotone(kline, f);
    SortedGroupsAreRuns(kline, f);
    LabelsIncrease(kline, f);
  }

  lemma LabelOfIsMonotone(kline: seq<KLine>, target: Freq)
    requires Groups(kline, target)
    ensures Monotone(LabelOf(kline, target))
  {
    hide BarEnd, WeekKey, MonthKey, MinuteLabel, Monotone, SourceMinutes;
    match target
    case Min5 => MonotoneLabel(SourceMinutes(kline), 5);
    case Min15 => MonotoneLabel(SourceMinutes(kline), 15);
    case Min30 => MonotoneLabel(SourceMinutes(kline), 30);
    case Hour1 => MonotoneLabel(SourceMinutes(kline), 60);
    case Weekly => WeekKeyMonotone();
    case Monthly => MonthKeyMonotone();
  }

  lemma SortedUnderMonotone(kline: seq<KLine>, f: Label)
    requires Sorted(kline) && Monotone(f)
    ensures LabelSorted(kline, f)
  {
  }

  /** Were the source period of the second stage known to be `p`, two stages would be one. */
  lemma TwoStages(kline: seq<KLine>, p: int, q: int)
    requires Sorted(kline) && 2 <= |kline| && 0 < p && 0 < q && q % p == 0
    ensures ByLabel(ResampledMinute(kline, p), MinuteLabel(p, q)) == ResampledMinute(kline, q)
  {
    hide ByLabel, BarEnd, SourceMinutes;
    var s := SourceMinutes(kline);
    MonotoneLabel(s, p);
    MonotoneLabel(p, q);
    SortedUnderMonotone(kline, MinuteLabel(s, p));
    forall i | 0 <= i < |kline|
      ensures MinuteLabel(s, q)(kline[i].datetime) == MinuteLabel(p, q)(MinuteLabel(s, p)(kline[i].datetime))
    {
      BarEndComposes(kline[i].datetime - s * 60, p, q);
    }
    GroupingTwice(kline, MinuteLabel(s, p), MinuteLabel(p, q), MinuteLabel(s, q));
  }

  /** Resampling composes: for sorted bars, any source period and `p` dividing `q`, resampling
      to `p` and then to `q` is resampling to `q` directly, provided the second stage can tell
      its source period, that is, the first two `p`-bars are `p` minutes apart. */
  lemma ResamplingComposes(kline: seq<KLine>, p: int, q: int)
    requires Sorted(kline) && 2 <= |kline| && 0 < p && 0 < q && q % p == 0
    ensures var r := ResampledMinute(kline, p);
            2 <= |r| && r[1].datetime - r[0].datetime == p * 60 ==>
              ResampledMinute(r, q) == ResampledMinute(kline, q)
  {
    hide ByLabel, BarEnd, MinuteLabel;
    TwoStages(kline, p, q);
  }
}
