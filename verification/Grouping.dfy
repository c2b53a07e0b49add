/** Grouping bars by a label of their time and folding each group into one bar, for any label.
    Values are exact reals. */
module Grouping {

  datatype KLine = KLine(datetime: int, open: real, close: real, high: real, low: real,
                         volume: real, amount: real, up: int, down: int)

  type Label = int -> int

  function Max(a: real, b: real): real { if a < b then b else a }
  function Min(a: real, b: real): real { if b < a then b else a }

  // ---------- folds of one group ----------

  function Highest(ks: seq<KLine>): real
    requires ks != []
  {
    if |ks| == 1 then ks[0].high else Max(Highest(ks[..|ks| - 1]), ks[|ks| - 1].high)
  }

  function Lowest(ks: seq<KLine>): real
    requires ks != []
  {
    if |ks| == 1 then ks[0].low else Min(Lowest(ks[..|ks| - 1]), ks[|ks| - 1].low)
  }

  function Volume(ks: seq<KLine>): real {
    if ks == [] then 0.0 else Volume(ks[..|ks| - 1]) + ks[|ks| - 1].volume
  }

  function Amount(ks: seq<KLine>): real {
    if ks == [] then 0.0 else Amount(ks[..|ks| - 1]) + ks[|ks| - 1].amount
  }

  /** First open, last close, highest high, lowest low, total volume and amount. */
  function Aggregate(l: int, ks: seq<KLine>): KLine
    requires ks != []
  {
    KLine(l, ks[0].open, ks[|ks| - 1].close, Highest(ks), Lowest(ks), Volume(ks), Amount(ks), 0, 0)
  }

  lemma {:induction false} FoldsOfConcat(a: seq<KLine>, b: seq<KLine>)
    ensures Volume(a + b) == Volume(a) + Volume(b) && Amount(a + b) == Amount(a) + Amount(b)
    ensures a != [] && b != [] ==>
              Highest(a + b) == Max(Highest(a), Highest(b)) && Lowest(a + b) == Min(Lowest(a), Lowest(b))
  {
    if b == [] {
      assert a + b == a;
    } else {
      var front := b[..|b| - 1];
      assert (a + b)[..|a + b| - 1] == a + front;
      FoldsOfConcat(a, front);
      if front == [] {
        assert a + front == a;
      }
    }
  }

  /** The folds mean what their names say. */
  lemma {:induction false} HighestIsMaximum(ks: seq<KLine>)
    requires ks != []
    ensures forall k :: k in ks ==> Lowest(ks) <= k.low && k.high <= Highest(ks)
    ensures (exists k :: k in ks && k.high == Highest(ks)) && (exists k :: k in ks && k.low == Lowest(ks))
  {
    if |ks| == 1 {
      assert ks[0] in ks;
    } else {
      var front, last := ks[..|ks| - 1], ks[|ks| - 1];
      assert ks == front + [last];
      HighestIsMaximum(front);
      var a :| a in front && a.high == Highest(front);
      var b :| b in front && b.low == Lowest(front);
      assert a in ks && b in ks && last in ks;
    }
  }

  // ---------- groups ----------

  function Pick(bars: seq<KLine>, f: Label, l: int): (r: seq<KLine>)
    ensures forall k :: k in r <==> k in bars && f(k.datetime) == l
  {
    if bars == [] then []
    else
      var last := bars[|bars| - 1];
      assert bars == bars[..|bars| - 1] + [last];
      var r := Pick(bars[..|bars| - 1], f, l);
      if f(last.datetime) == l then r + [last] else r
  }

  function Drop(bars: seq<KLine>, f: Label, l: int): (r: seq<KLine>)
    ensures forall k :: k in r <==> k in bars && f(k.datetime) != l
    ensures |r| + |Pick(bars, f, l)| == |bars|
  {
    if bars == [] then []
    else
      var last := bars[|bars| - 1];
      assert bars == bars[..|bars| - 1] + [last];
      var r := Drop(bars[..|bars| - 1], f, l);
      if f(last.datetime) == l then r else r + [last]
  }

  function Least(bars: seq<KLine>, f: Label): (l: int)
    requires bars != []
    ensures exists k :: k in bars && f(k.datetime) == l
    ensures forall k :: k in bars ==> l <= f(k.datetime)
  {
    if |bars| == 1 then
      assert bars[0] in bars;
      f(bars[0].datetime)
    else
      var front, last := bars[..|bars| - 1], bars[|bars| - 1];
      assert bars == front + [last];
      var m := Least(front, f);
      assert last in bars;
      if f(last.datetime) < m then f(last.datetime) else m
  }

  lemma LeastIsPicked(bars: seq<KLine>, f: Label)
    requires bars != []
    ensures Pick(bars, f, Least(bars, f)) != []
    ensures |Drop(bars, f, Least(bars, f))| < |bars|
  {
  }

  /** The groups in ascending order of label, each folded into one bar. */
  function ByLabel(bars: seq<KLine>, f: Label): seq<KLine>
    decreases |bars|
  {
    if bars == [] then []
    else
      LeastIsPicked(bars, f);
      var l := Least(bars, f);
      [Aggregate(l, Pick(bars, f, l))] + ByLabel(Drop(bars, f, l), f)
  }

  // ---------- order and conservation, for any input ----------

  lemma ByLabelUnfold(bars: seq<KLine>, f: Label)
    requires bars != []
    ensures var l := Least(bars, f);
            && Pick(bars, f, l) != [] && |Drop(bars, f, l)| < |bars|
            && ByLabel(bars, f) == [Aggregate(l, Pick(bars, f, l))] + ByLabel(Drop(bars, f, l), f)
            && Aggregate(l, Pick(bars, f, l)).datetime == l
            && (forall k :: k in Drop(bars, f, l) ==> l < f(k.datetime))
  {
  }

  /** Output labels are labels of input bars ... */
  lemma {:induction false} LabelsComeFromBars(bars: seq<KLine>, f: Label)
    ensures forall b :: b in ByLabel(bars, f) ==> exists k :: k in bars && f(k.datetime) == b.datetime
    decreases |bars|
  {
    hide Pick, Drop, Aggregate, Least, ByLabel;
    if bars != [] {
      ByLabelUnfold(bars, f);
      var rest := Drop(bars, f, Least(bars, f));
      LabelsComeFromBars(rest, f);
      forall b | b in ByLabel(rest, f) ensures exists k :: k in bars && f(k.datetime) == b.datetime {
        var k :| k in rest && f(k.datetime) == b.datetime;
        assert k in bars;
      }
      var k0 :| k0 in bars && f(k0.datetime) == Least(bars, f);
    } else {
      NoBars(f);
    }
  }

  lemma NoBars(f: Label)
    ensures ByLabel([], f) == []
  {
  }

  /** ... and strictly increase. */
  lemma {:induction false} LabelsIncrease(bars: seq<KLine>, f: Label)
    ensures forall i, j :: 0 <= i < j < |ByLabel(bars, f)|
              ==> ByLabel(bars, f)[i].datetime < ByLabel(bars, f)[j].datetime
    decreases |bars|
  {
    hide Pick, Drop, Aggregate, Least, ByLabel;
    if bars != [] {
      ByLabelUnfold(bars, f);
      var l := Least(bars, f);
      var rest := Drop(bars, f, l);
      LabelsIncrease(rest, f);
      LabelsComeFromBars(rest, f);
      forall b | b in ByLabel(rest, f) ensures l < b.datetime {
        var k :| k in rest && f(k.datetime) == b.datetime;
      }
    } else {
      NoBars(f);
    }
  }

  lemma AggregateLabel(l: int, ks: seq<KLine>)
    requires ks != []
    ensures Aggregate(l, ks).datetime == l
  {
  }

  lemma FoldSnoc(ks: seq<KLine>, k: KLine)
    ensures Volume(ks + [k]) == Volume(ks) + k.volume && Amount(ks + [k]) == Amount(ks) + k.amount
  {
  }

  lemma EmptyFolds()
    ensures Volume([]) == 0.0 && Amount([]) == 0.0
  {
  }

  lemma {:induction false} PickAndDropConserve(bars: seq<KLine>, f: Label, l: int)
    ensures Volume(bars) == Volume(Pick(bars, f, l)) + Volume(Drop(bars, f, l))
    ensures Amount(bars) == Amount(Pick(bars, f, l)) + Amount(Drop(bars, f, l))
  {
    EmptyFolds();
    hide Volume, Amount;
    if bars != [] {
      var front, last := bars[..|bars| - 1], bars[|bars| - 1];
      PickAndDropConserve(front, f, l);
      assert bars == front + [last];
      PickSnoc(front, last, f, l);
      FoldSnoc(Pick(front, f, l), last);
      FoldSnoc(Drop(front, f, l), last);
      FoldSnoc(front, last);
    }
  }

  /** Total volume and amount are conserved, whatever the labels and the input order. */
  lemma {:induction false} GroupingConserves(bars: seq<KLine>, f: Label)
    ensures Volume(ByLabel(bars, f)) == Volume(bars) && Amount(ByLabel(bars, f)) == Amount(bars)
    decreases |bars|
  {
    hide ByLabel, Pick, Drop, Least;
    if bars == [] {
      NoBars(f);
    } else {
      ByLabelUnfold(bars, f);
      var l := Least(bars, f);
      var head, rest := Aggregate(l, Pick(bars, f, l)), Drop(bars, f, l);
      PickAndDropConserve(bars, f, l);
      GroupingConserves(rest, f);
      FoldsOfConcat([head], ByLabel(rest, f));
      FoldSnoc([], head);
      assert [] + [head] == [head];
    }
  }

  // ---------- sorted input: groups are runs ----------

  ghost predicate LabelSorted(bars: seq<KLine>, f: Label) {
    forall i, j :: 0 <= i < j < |bars| ==> f(bars[i].datetime) <= f(bars[j].datetime)
  }

  /** The first `k` bars carry the least label and the others greater ones. */
  ghost predicate FirstRun(bars: seq<KLine>, f: Label, l: int, k: nat) {
    && k <= |bars|
    && (forall i :: 0 <= i < k ==> f(bars[i].datetime) == l)
    && (forall i :: k <= i < |bars| ==> l < f(bars[i].datetime))
  }

  lemma PickSnoc(front: seq<KLine>, last: KLine, f: Label, l: int)
    ensures Pick(front + [last], f, l)
         == if f(last.datetime) == l then Pick(front, f, l) + [last] else Pick(front, f, l)
    ensures Drop(front + [last], f, l)
         == if f(last.datetime) == l then Drop(front, f, l) else Drop(front, f, l) + [last]
  {
  }

  lemma {:induction false} AllPicked(bars: seq<KLine>, f: Label, l: int)
    requires forall i :: 0 <= i < |bars| ==> f(bars[i].datetime) == l
    ensures Pick(bars, f, l) == bars && Drop(bars, f, l) == []
  {
    if bars != [] {
      hide Pick, Drop;
      var front, last := bars[..|bars| - 1], bars[|bars| - 1];
      assert bars == front + [last];
      PickSnoc(front, last, f, l);
      AllPicked(front, f, l);
    }
  }

  lemma {:induction false} RunIsPicked(run: seq<KLine>, rest: seq<KLine>, f: Label, l: int)
    requires forall i :: 0 <= i < |run| ==> f(run[i].datetime) == l
    requires forall i :: 0 <= i < |rest| ==> f(rest[i].datetime) != l
    ensures Pick(run + rest, f, l) == run && Drop(run + rest, f, l) == rest
  {
    hide Pick, Drop;
    if rest == [] {
      AllPicked(run, f, l);
      assert run + rest == run;
    } else {
      var front, last := rest[..|rest| - 1], rest[|rest| - 1];
      RunIsPicked(run, front, f, l);
      assert run + rest == (run + front) + [last];
      PickSnoc(run + front, last, f, l);
      assert front + [last] == rest;
    }
  }

  /** On sorted input every group is a contiguous run: the first group is a prefix, and the
      rest is grouped in the same way. */
  lemma FirstGroupIsAPrefix(bars: seq<KLine>, f: Label, l: int, k: nat)
    requires FirstRun(bars, f, l, k) && 0 < k
    ensures ByLabel(bars, f) == [Aggregate(l, bars[..k])] + ByLabel(bars[k..], f)
  {
    hide Pick, Drop, Aggregate, ByLabel, Least;
    ByLabelUnfold(bars, f);
    LeastOfRun(bars, f, l, k);
    assert bars == bars[..k] + bars[k..];
    RunIsPicked(bars[..k], bars[k..], f, l);
  }

  lemma LeastOfRun(bars: seq<KLine>, f: Label, l: int, k: nat)
    requires FirstRun(bars, f, l, k) && 0 < k
    ensures Least(bars, f) == l
  {
    hide Least;
    assert bars[0] in bars;
  }

  lemma {:induction false} FindRun(bars: seq<KLine>, f: Label) returns (k: nat)
    requires bars != [] && LabelSorted(bars, f)
    ensures 0 < k && FirstRun(bars, f, f(bars[0].datetime), k)
    ensures LabelSorted(bars[..k], f) && LabelSorted(bars[k..], f)
  {
    var l := f(bars[0].datetime);
    k := 1;
    while k < |bars| && f(bars[k].datetime) == l
      invariant 0 < k <= |bars| && forall i :: 0 <= i < k ==> f(bars[i].datetime) == l
    {
      k := k + 1;
    }
  }

  function RunsOf(bars: seq<KLine>, f: Label): seq<seq<KLine>>
    decreases |bars|
  {
    if bars == [] then []
    else
      LeastIsPicked(bars, f);
      [Pick(bars, f, Least(bars, f))] + RunsOf(Drop(bars, f, Least(bars, f)), f)
  }

  function Joined(runs: seq<seq<KLine>>): seq<KLine> {
    if runs == [] then [] else runs[0] + Joined(runs[1..])
  }

  lemma LeastIsFirst(bars: seq<KLine>, f: Label)
    requires bars != [] && LabelSorted(bars, f)
    ensures Least(bars, f) == f(bars[0].datetime)
  {
  }

  /** Sorted input is cut into contiguous runs of equal label; output bar `i` is the fold of
      run `i`, and the runs in order are the input. */
  lemma {:induction false} SortedGroupsAreRuns(bars: seq<KLine>, f: Label)
    requires LabelSorted(bars, f)
    ensures Joined(RunsOf(bars, f)) == bars
    ensures |RunsOf(bars, f)| == |ByLabel(bars, f)|
    ensures forall i :: 0 <= i < |RunsOf(bars, f)| ==> IsRun(RunsOf(bars, f)[i], ByLabel(bars, f)[i], f)
    decreases |bars|
  {
    hide Aggregate, Least, ByLabel, IsRun, Pick, Drop;
    if bars == [] {
      NoBars(f);
    } else {
      var k := FindRun(bars, f);
      var l := f(bars[0].datetime);
      FirstGroupIsAPrefix(bars, f, l, k);
      RunsUnfold(bars, f, k);
      AggregateLabel(l, bars[..k]);
      SortedGroupsAreRuns(bars[k..], f);
      HeadIsRun(bars, f, k);
    }
  }

  /** `bar` opens with the first bar of `run` and closes with the last, its extremes are those of
      some of its bars and bound them all, its volume and amount are the totals. */
  ghost predicate Folds(run: seq<KLine>, bar: KLine) {
    && run != [] && bar.open == run[0].open && bar.close == run[|run| - 1].close
    && (forall k :: k in run ==> bar.low <= k.low && k.high <= bar.high)
    && (exists k :: k in run && k.high == bar.high) && (exists k :: k in run && k.low == bar.low)
    && bar.volume == Volume(run) && bar.amount == Amount(run) && bar.up == 0 && bar.down == 0
  }

  /** `bar` is the fold of `run`, whose bars all carry its label. */
  ghost predicate IsRun(run: seq<KLine>, bar: KLine, f: Label) {
    Folds(run, bar) && forall k :: k in run ==> f(k.datetime) == bar.datetime
  }

  lemma HeadIsRun(bars: seq<KLine>, f: Label, k: nat)
    requires bars != [] && 0 < k && FirstRun(bars, f, f(bars[0].datetime), k)
    ensures IsRun(bars[..k], Aggregate(f(bars[0].datetime), bars[..k]), f)
  {
    HighestIsMaximum(bars[..k]);
    hide Highest, Lowest, Volume, Amount;
  }

  lemma RunsUnfold(bars: seq<KLine>, f: Label, k: nat)
    requires bars != [] && LabelSorted(bars, f) && FirstRun(bars, f, f(bars[0].datetime), k)
    ensures RunsOf(bars, f) == [bars[..k]] + RunsOf(bars[k..], f)
    ensures bars[..k] + bars[k..] == bars
  {
    hide Least, Pick, Drop;
    LeastIsFirst(bars, f);
    assert bars == bars[..k] + bars[k..];
    RunIsPicked(bars[..k], bars[k..], f, f(bars[0].datetime));
  }

  // ---------- grouping twice ----------

  /** Two sequences whose labels do not meet are grouped side by side. */
  lemma {:induction false} ByLabelOfConcat(a: seq<KLine>, b: seq<KLine>, f: Label)
    requires LabelSorted(a, f)
    requires forall i, j :: 0 <= i < |a| && 0 <= j < |b| ==> f(a[i].datetime) < f(b[j].datetime)
    ensures ByLabel(a + b, f) == ByLabel(a, f) + ByLabel(b, f)
    decreases |a|
  {
    hide ByLabel, Aggregate;
    if a == [] {
      NoBars(f);
      assert a + b == b && [] + ByLabel(b, f) == ByLabel(b, f);
    } else {
      var k := FindRun(a, f);
      var l := f(a[0].datetime);
      assert FirstRun(a + b, f, l, k);
      FirstGroupIsAPrefix(a, f, l, k);
      FirstGroupIsAPrefix(a + b, f, l, k);
      assert (a + b)[..k] == a[..k] && (a + b)[k..] == a[k..] + b;
      ByLabelOfConcat(a[k..], b, f);
    }
  }

  /** Folding the groups of a sequence is folding the sequence. */
  lemma {:induction false} FoldOfGroups(bars: seq<KLine>, f: Label)
    requires bars != [] && LabelSorted(bars, f)
    ensures var r := ByLabel(bars, f);
            && r != [] && r[0].open == bars[0].open && r[|r| - 1].close == bars[|bars| - 1].close
            && Highest(r) == Highest(bars) && Lowest(r) == Lowest(bars)
    decreases |bars|
  {
    hide ByLabel;
    var k := FindRun(bars, f);
    var l := f(bars[0].datetime);
    FirstGroupIsAPrefix(bars, f, l, k);
    var head, run, rest := Aggregate(l, bars[..k]), bars[..k], bars[k..];
    assert bars == run + rest;
    assert Highest([head]) == Highest(run) && Lowest([head]) == Lowest(run);
    if rest == [] {
      NoBars(f);
      assert run == bars && ByLabel(bars, f) == [head];
    } else {
      FoldOfGroups(rest, f);
      FoldsOfConcat(run, rest);
      FoldsOfConcat([head], ByLabel(rest, f));
    }
  }

  lemma AggregateOfGroups(l: int, bars: seq<KLine>, f: Label)
    requires bars != [] && LabelSorted(bars, f)
    ensures ByLabel(bars, f) != [] && Aggregate(l, ByLabel(bars, f)) == Aggregate(l, bars)
  {
    hide ByLabel, Highest, Lowest, Volume, Amount;
    FoldOfGroups(bars, f);
    GroupingConserves(bars, f);
  }

  ghost predicate Monotone(g: Label) { forall a, b :: a <= b ==> g(a) <= g(b) }

  /** The groups of a run that `g` merges into one label all carry that label. */
  lemma GroupsOfRun(bars: seq<KLine>, f: Label, g: Label, l: int)
    requires forall i :: 0 <= i < |bars| ==> g(f(bars[i].datetime)) == l
    ensures forall i :: 0 <= i < |ByLabel(bars, f)| ==> g(ByLabel(bars, f)[i].datetime) == l
  {
    hide ByLabel;
    LabelsComeFromBars(bars, f);
    forall i | 0 <= i < |ByLabel(bars, f)| ensures g(ByLabel(bars, f)[i].datetime) == l {
      assert ByLabel(bars, f)[i] in ByLabel(bars, f);
      var k :| k in bars && f(k.datetime) == ByLabel(bars, f)[i].datetime;
    }
  }

  lemma GroupsAfterRun(bars: seq<KLine>, f: Label, g: Label, l: int)
    requires forall i :: 0 <= i < |bars| ==> l < g(f(bars[i].datetime))
    ensures forall i :: 0 <= i < |ByLabel(bars, f)| ==> l < g(ByLabel(bars, f)[i].datetime)
  {
    hide ByLabel;
    LabelsComeFromBars(bars, f);
    forall i | 0 <= i < |ByLabel(bars, f)| ensures l < g(ByLabel(bars, f)[i].datetime) {
      assert ByLabel(bars, f)[i] in ByLabel(bars, f);
      var k :| k in bars && f(k.datetime) == ByLabel(bars, f)[i].datetime;
    }
  }

  /** Grouping by a fine label and then by a coarse label of the result is grouping by the
      coarse label directly, in labels and in every folded value. */
  lemma {:induction false} GroupingTwice(bars: seq<KLine>, f: Label, g: Label, h: Label)
    requires LabelSorted(bars, f) && Monotone(g)
    requires forall i :: 0 <= i < |bars| ==> h(bars[i].datetime) == g(f(bars[i].datetime))
    ensures ByLabel(ByLabel(bars, f), g) == ByLabel(bars, h)
    decreases |bars|
  {
    hide ByLabel, Aggregate;
    if bars == [] {
      NoBars(f);
      NoBars(g);
      NoBars(h);
    } else {
      assert LabelSorted(bars, h);
      var k := FindRun(bars, h);
      var l := h(bars[0].datetime);
      var run, rest := bars[..k], bars[k..];
      assert bars == run + rest;
      FirstGroupIsAPrefix(bars, h, l, k);
      RestOfGroups(run, rest, f, g, l);
      GroupingTwice(rest, f, g, h);
    }
  }

  lemma RestOfGroups(run: seq<KLine>, rest: seq<KLine>, f: Label, g: Label, l: int)
    requires run != [] && LabelSorted(run + rest, f) && Monotone(g)
    requires forall i :: 0 <= i < |run| ==> g(f(run[i].datetime)) == l
    requires forall i :: 0 <= i < |rest| ==> l < g(f(rest[i].datetime))
    ensures ByLabel(ByLabel(run + rest, f), g) == [Aggregate(l, run)] + ByLabel(ByLabel(rest, f), g)
  {
    hide ByLabel, Aggregate;
    assert LabelSorted(run, f) by {
      assert forall i :: 0 <= i < |run| ==> (run + rest)[i] == run[i];
    }
    RunBelowRest(run, rest, f, g, l);
    ByLabelOfConcat(run, rest, f);
    AggregateOfGroups(l, run, f);
    GroupsOfRun(run, f, g, l);
    GroupsAfterRun(rest, f, g, l);
    var a, b := ByLabel(run, f), ByLabel(rest, f);
    assert FirstRun(a + b, g, l, |a|);
    FirstGroupIsAPrefix(a + b, g, l, |a|);
    assert (a + b)[..|a|] == a && (a + b)[|a|..] == b;
  }

  lemma RunBelowRest(run: seq<KLine>, rest: seq<KLine>, f: Label, g: Label, l: int)
    requires Monotone(g)
    requires forall i :: 0 <= i < |run| ==> g(f(run[i].datetime)) == l
    requires forall i :: 0 <= i < |rest| ==> l < g(f(rest[i].datetime))
    ensures forall i, j :: 0 <= i < |run| && 0 <= j < |rest| ==> f(run[i].datetime) < f(rest[j].datetime)
  {
  }
}
