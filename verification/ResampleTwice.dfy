/** Exactly when resampling twice is resampling once. */
module ResampleTwice {
  import opened Calendar
  import opened Grouping
  import opened Resampler
  import opened Sequences

  ghost predicate Traded(bars: seq<KLine>) { forall i :: 0 <= i < |bars| ==> 0.0 < bars[i].volume }

  lemma {:induction false} VolumeGrows(bars: seq<KLine>, j: nat, k: nat)
    requires Traded(bars) && j < k <= |bars|
    ensures Volume(bars[..j]) < Volume(bars[..k])
    decreases k
  {
    assert bars[..k] == bars[..k - 1] + [bars[k - 1]];
    FoldSnoc(bars[..k - 1], bars[k - 1]);
    if j < k - 1 {
      VolumeGrows(bars, j, k - 1);
    }
  }

  lemma {:induction false} LabelsGiveGroups(bars: seq<KLine>, g: Label, h: Label)
    requires LabelSorted(bars, g) && forall i :: 0 <= i < |bars| ==> g(bars[i].datetime) == h(bars[i].datetime)
    ensures ByLabel(bars, g) == ByLabel(bars, h)
    decreases |bars|
  {
    hide ByLabel, Aggregate;
    if bars == [] {
      NoBars(g);
      NoBars(h);
    } else {
      var k := FindRun(bars, g);
      var l := g(bars[0].datetime);
      assert FirstRun(bars, h, l, k);
      FirstGroupIsAPrefix(bars, g, l, k);
      FirstGroupIsAPrefix(bars, h, l, k);
      LabelsGiveGroups(bars[k..], g, h);
    }
  }

  /** Of bars that were all traded, the groups tell the labels: cutting them in other places
      would move volume from one group to another. */
  lemma {:induction false} GroupsGiveLabels(bars: seq<KLine>, g: Label, h: Label)
    requires LabelSorted(bars, g) && LabelSorted(bars, h) && Traded(bars)
    requires ByLabel(bars, g) == ByLabel(bars, h)
    ensures forall i :: 0 <= i < |bars| ==> g(bars[i].datetime) == h(bars[i].datetime)
    decreases |bars|
  {
    hide ByLabel, Volume, Highest, Lowest, Amount;
    if bars != [] {
      var k := FindRun(bars, g);
      var k' := FindRun(bars, h);
      var l, l' := g(bars[0].datetime), h(bars[0].datetime);
      FirstGroupIsAPrefix(bars, g, l, k);
      FirstGroupIsAPrefix(bars, h, l', k');
      SameHead(Aggregate(l, bars[..k]), ByLabel(bars[k..], g), Aggregate(l', bars[..k']), ByLabel(bars[k'..], h));
      if k < k' {
        VolumeGrows(bars, k, k');
      } else if k' < k {
        VolumeGrows(bars, k', k);
      }
      GroupsGiveLabels(bars[k..], g, h);
      forall i | k <= i < |bars| ensures g(bars[i].datetime) == h(bars[i].datetime) {
        assert bars[i] == bars[k..][i - k];
      }
    }
  }

  lemma {:induction false} GroupsAreTraded(bars: seq<KLine>, f: Label)
    requires Traded(bars)
    ensures Traded(ByLabel(bars, f))
    decreases |bars|
  {
    hide ByLabel, Least, Pick, Drop;
    if bars == [] {
      NoBars(f);
    } else {
      ByLabelUnfold(bars, f);
      var group, rest := Pick(bars, f, Least(bars, f)), Drop(bars, f, Least(bars, f));
      AllTraded(bars, group);
      AllTraded(bars, rest);
      VolumeGrows(group, 0, |group|);
      assert group[..|group|] == group && group[..0] == [];
      EmptyFolds();
      GroupsAreTraded(rest, f);
    }
  }

  lemma AllTraded(bars: seq<KLine>, part: seq<KLine>)
    requires Traded(bars) && forall k :: k in part ==> k in bars
    ensures Traded(part)
  {
    forall i | 0 <= i < |part| ensures 0.0 < part[i].volume {
      assert part[i] in part;
    }
  }

  lemma ResampledIsSorted(kline: seq<KLine>, p: int)
    requires 2 <= |kline|
    ensures Sorted(ResampledMinute(kline, p))
  {
    hide ByLabel, BarEnd, SourceMinutes, MinuteLabel;
    LabelsIncrease(kline, MinuteLabel(SourceMinutes(kline), p));
  }

  // ---------- two stages ----------

  /** The source period guessed from `r` gives every bar of `r` the label that `p` gives. */
  ghost predicate GuessLabelsAs(r: seq<KLine>, p: int, q: int)
    requires 2 <= |r|
  {
    forall i :: 0 <= i < |r| ==> BarEnd(r[i].datetime - SourceMinutes(r) * 60, q) == BarEnd(r[i].datetime - p * 60, q)
  }

  /** Where the first source bar starts. */
  function FirstStart(kline: seq<KLine>): int
    requires 2 <= |kline|
  {
    kline[0].datetime - SourceMinutes(kline) * 60
  }

  /** When the second stage goes right. A stage of one bar cannot be resampled: its label has
      to be the coarse one already. */
  ghost predicate StagesFit(kline: seq<KLine>, p: int, q: int) {
    2 <= |kline| ==>
      var r := ResampledMinute(kline, p);
      if |r| < 2 then BarEnd(FirstStart(kline), p) == BarEnd(FirstStart(kline), q) else GuessLabelsAs(r, p, q)
  }

  lemma SingleGroup(bars: seq<KLine>, f: Label)
    requires |ByLabel(bars, f)| == 1
    ensures bars != [] && ByLabel(bars, f) == [Aggregate(ByLabel(bars, f)[0].datetime, bars)]
  {
    hide Pick, Drop, Least, Aggregate, ByLabel;
    if bars == [] {
      NoBars(f);
    } else {
      ByLabelUnfold(bars, f);
      var l := Least(bars, f);
      if Drop(bars, f, l) != [] {
        ByLabelUnfold(Drop(bars, f, l), f);
        assert false;
      }
      NothingDropped(bars, f, l);
    }
  }

  lemma {:induction false} NothingDropped(bars: seq<KLine>, f: Label, l: int)
    requires Drop(bars, f, l) == []
    ensures Pick(bars, f, l) == bars
  {
    if bars != [] {
      hide Pick, Drop;
      var front, last := bars[..|bars| - 1], bars[|bars| - 1];
      assert bars == front + [last];
      PickSnoc(front, last, f, l);
      NothingDropped(front, f, l);
    }
  }

  /** All bars in one group: the first stage leaves one bar, labelled like the first start. */
  lemma OneBarStage(kline: seq<KLine>, p: int)
    requires Sorted(kline) && 2 <= |kline| && |ResampledMinute(kline, p)| < 2
    ensures ResampledMinute(kline, p) == [Aggregate(BarEnd(FirstStart(kline), p), kline)]
  {
    hide ByLabel, BarEnd, SourceMinutes, Aggregate, Least, Pick, Drop;
    var f := MinuteLabel(SourceMinutes(kline), p);
    MonotoneLabel(SourceMinutes(kline), p);
    SortedUnderMonotone(kline, f);
    ByLabelUnfold(kline, f);
    SingleGroup(kline, f);
    LeastIsFirst(kline, f);
  }

  lemma RelabelOneBar(l: int, m: int, ks: seq<KLine>, g: Label)
    requires ks != [] && g(l) == m
    ensures ByLabel([Aggregate(l, ks)], g) == [Aggregate(m, ks)]
  {
    var bar := Aggregate(l, ks);
    assert [bar][..1] == [bar] && [bar][1..] == [];
    FirstGroupIsAPrefix([bar], g, m, 1);
    NoBars(g);
    hide ByLabel;
    assert [bar][..0] == [] && Volume([bar]) == 0.0 + bar.volume && Amount([bar]) == 0.0 + bar.amount;
  }

  /** A stage of one bar: the second stage returns it, direct resampling relabels it. */
  lemma OneBarComposes(kline: seq<KLine>, p: int, q: int)
    requires Sorted(kline) && 2 <= |kline| && 0 < p && 0 < q && q % p == 0 && |ResampledMinute(kline, p)| < 2
    ensures (ResampledMinute(ResampledMinute(kline, p), q) == ResampledMinute(kline, q))
              <==> (BarEnd(FirstStart(kline), p) == BarEnd(FirstStart(kline), q))
  {
    hide ByLabel, BarEnd, SourceMinutes, Aggregate;
    var start := FirstStart(kline);
    OneBarStage(kline, p);
    TwoStages(kline, p, q);
    BarEndComposes(start, p, q);
    RelabelOneBar(BarEnd(start, p), BarEnd(start, q), kline, MinuteLabel(p, q));
    AggregateLabel(BarEnd(start, p), kline);
    AggregateLabel(BarEnd(start, q), kline);
  }

  /** A guess that labels like `p` is as good as `p`, traded or not. */
  lemma GoodGuessComposes(kline: seq<KLine>, p: int, q: int)
    requires Sorted(kline) && 2 <= |kline| && 0 < p && 0 < q && q % p == 0
    requires 2 <= |ResampledMinute(kline, p)| && GuessLabelsAs(ResampledMinute(kline, p), p, q)
    ensures ResampledMinute(ResampledMinute(kline, p), q) == ResampledMinute(kline, q)
  {
    hide ByLabel, BarEnd, SourceMinutes;
    var r := ResampledMinute(kline, p);
    TwoStages(kline, p, q);
    ResampledIsSorted(kline, p);
    MonotoneLabel(SourceMinutes(r), q);
    SortedUnderMonotone(r, MinuteLabel(SourceMinutes(r), q));
    LabelsGiveGroups(r, MinuteLabel(SourceMinutes(r), q), MinuteLabel(p, q));
  }

  lemma TradedTellGuess(kline: seq<KLine>, p: int, q: int)
    requires Sorted(kline) && 2 <= |kline| && Traded(kline) && 0 < p && 0 < q && q % p == 0
    requires 2 <= |ResampledMinute(kline, p)|
    requires ResampledMinute(ResampledMinute(kline, p), q) == ResampledMinute(kline, q)
    ensures GuessLabelsAs(ResampledMinute(kline, p), p, q)
  {
    hide ByLabel, BarEnd, SourceMinutes;
    var r := ResampledMinute(kline, p);
    var guessed, known := MinuteLabel(SourceMinutes(r), q), MinuteLabel(p, q);
    TwoStages(kline, p, q);
    ResampledIsSorted(kline, p);
    GroupsAreTraded(kline, MinuteLabel(SourceMinutes(kline), p));
    MonotoneLabel(SourceMinutes(r), q);
    MonotoneLabel(p, q);
    SortedUnderMonotone(r, guessed);
    SortedUnderMonotone(r, known);
    GroupsGiveLabels(r, guessed, known);
    forall i | 0 <= i < |r|
      ensures BarEnd(r[i].datetime - SourceMinutes(r) * 60, q) == BarEnd(r[i].datetime - p * 60, q)
    {
      assert guessed(r[i].datetime) == known(r[i].datetime);
    }
  }

  /** For sorted bars of any number, and `p` dividing `q`: where the stages fit, resampling to
      `p` and then to `q` is resampling to `q`; and of traded bars, only there. */
  lemma ComposesExactly(kline: seq<KLine>, p: int, q: int)
    requires Sorted(kline) && 0 < p && 0 < q && q % p == 0
    ensures StagesFit(kline, p, q) ==> ResampledMinute(ResampledMinute(kline, p), q) == ResampledMinute(kline, q)
    ensures Traded(kline) ==>
              (StagesFit(kline, p, q) <==> ResampledMinute(ResampledMinute(kline, p), q) == ResampledMinute(kline, q))
  {
    hide BarEnd, SourceMinutes, GuessLabelsAs, FirstStart;
    if 2 <= |kline| {
      var r := ResampledMinute(kline, p);
      if |r| < 2 {
        OneBarComposes(kline, p, q);
      } else if GuessLabelsAs(r, p, q) {
        GoodGuessComposes(kline, p, q);
      } else if Traded(kline) && ResampledMinute(r, q) == ResampledMinute(kline, q) {
        TradedTellGuess(kline, p, q);
      }
    }
  }

  // ---------- across lunch ----------

  predicate MinuteBar(k: KLine, day: int, minute: int) { k.datetime == MinuteEpoch(day, minute) && 0.0 < k.volume }

  lemma EndAt(day: int, minute: int, p: int)
    requires 0 < p && 0 <= minute < 1440
    ensures BarEnd(MinuteEpoch(day, minute), p) == MinuteEpoch(day, BarEndMinute(minute, p))
  {
    hide BarEnd, BarEndMinute, MinuteEpoch;
    BarEndOnItsDay(MinuteEpoch(day, minute), p);
    MinuteEpochParts(day, minute);
  }

  /** The one-minute bars of 11:29, 11:30 and 13:01 make five-minute bars of 11:30 and 13:05;
      their distance of 95 minutes is taken for the period of the second stage. */
  lemma LunchBars(day: int, a: KLine, b: KLine, c: KLine)
    requires MinuteBar(a, day, 689) && MinuteBar(b, day, 690) && MinuteBar(c, day, 781)
    ensures var r := ResampledMinute([a, b, c], 5);
            |r| == 2 && r[0].datetime == MinuteEpoch(day, 690) && r[1].datetime == MinuteEpoch(day, 785)
  {
    hide ByLabel, BarEnd, Aggregate;
    var bars := [a, b, c];
    assert SourceMinutes(bars) == 1;
    var f := MinuteLabel(1, 5);
    EndAt(day, 688, 5);
    EndAt(day, 689, 5);
    EndAt(day, 780, 5);
    var l, m := MinuteEpoch(day, 690), MinuteEpoch(day, 785);
    assert FirstRun(bars, f, l, 2);
    FirstGroupIsAPrefix(bars, f, l, 2);
    assert bars[2..] == [c] && [c][..1] == [c] && [c][1..] == [];
    assert FirstRun([c], f, m, 1);
    FirstGroupIsAPrefix([c], f, m, 1);
    NoBars(f);
    AggregateLabel(l, bars[..2]);
    AggregateLabel(m, [c]);
  }

  /** Starting beside the lunch break, 5 minutes and then 30 is not 30 minutes. */
  lemma LunchBreaksComposition(day: int, a: KLine, b: KLine, c: KLine)
    requires MinuteBar(a, day, 689) && MinuteBar(b, day, 690) && MinuteBar(c, day, 781)
    ensures ResampledMinute(ResampledMinute([a, b, c], 5), 30) != ResampledMinute([a, b, c], 30)
  {
    hide ByLabel, BarEnd, ResampledMinute;
    LunchBars(day, a, b, c);
    ComposesExactly([a, b, c], 5, 30);
    var r := ResampledMinute([a, b, c], 5);
    assert SourceMinutes(r) == 95;
    EndAt(day, 595, 30);
    EndAt(day, 685, 30);
    assert BarEnd(r[0].datetime - 95 * 60, 30) != BarEnd(r[0].datetime - 5 * 60, 30);
  }
}
