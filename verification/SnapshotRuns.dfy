/** Whole runs of the table protocol: the abstract map is the run of the `Put`s completed so
    far, and a `Get` gives up only where a `Put` is in its way or the table is full. */
module SnapshotRuns {
  import opened BoundedMap
  import opened Options
  import opened Probing
  import opened SnapshotLayout
  import opened SnapshotProtocol

  // ---------- the writer ----------

  /** The `Put`s completed by moment `n`, dropped ones included, in order. */
  ghost function Finished(b: seq<State>, n: nat): seq<Entry>
    requires n < |b|
  {
    if n == 0 then []
    else
      var w := b[n - 1].writer;
      Finished(b, n - 1) + if w != WIdle && b[n].writer == WIdle then [Entry(w.code, w.quote)] else []
  }

  /** The step that ends a `Put` is an update of the bounded map; no other step changes it. */
  lemma StepIsPut(s: State, s': State)
    requires Inv(s) && Next(s, s')
    ensures s'.Count() == s.Count()
    ensures if s.writer != WIdle && s'.writer == WIdle
            then s.writer.code.Accepted()
                 && s'.contents == BoundedPut(s.contents, s.Count(), s.writer.code, s.writer.quote)
            else s'.contents == s.contents
  {
    hide Path, WellFormed, KeySet, AtRest, Probe, Stops, BoundedPut;
    if e :| WriterStep(s, e) && s' == Apply(s, e) {
      match s.writer
      case WProbe(c, q, p) => if p >= s.Count() { ProbedOut(s, c, q, p); }
      case WStore(c, q, p, base, done) => StoredHere(s, c, q, p);
      case _ =>
    }
  }

  lemma ProbedOut(s: State, c: Code, q: Quote, p: nat)
    requires TableOk(s) && GoodCode(c)
    requires p >= s.Count() && forall j: nat :: j < s.Count() ==> !Stops(s.owners, c, j)
    ensures BoundedPut(s.contents, s.Count(), c, q) == s.contents
    ensures c !in s.contents && |s.contents| == s.Count()
  {
    hide Path, WellFormed, KeySet, AtRest, WriterOk;
    ProbeFailsOnlyWhenFull(s.owners, c);
    assert |s.contents| == |s.contents.Keys|;
  }

  lemma StoredHere(s: State, c: Code, q: Quote, p: nat)
    requires TableOk(s) && p < s.Count() && Stops(s.owners, c, p)
    ensures BoundedPut(s.contents, s.Count(), c, q) == s.contents[c := q]
  {
    hide Path, WellFormed, KeySet, AtRest, WriterOk;
    RoomWhereStopped(s.owners, c, p);
    assert |s.contents| == |s.contents.Keys|;
  }

  /** At every moment of every run the abstract map is what the `Put`s completed so far make of
      a bounded map: the writer's steps, interleaved with any readers, are one `Put` after
      the other. */
  lemma {:induction false} MapIsRunOfPuts(b: seq<State>, n: nat)
    requires Behavior(b) && n < |b|
    ensures b[n].Count() == b[0].Count()
    ensures b[n].contents == AllPuts(b[0].Count(), Finished(b, n))
  {
    hide Inv, Next, AllPuts, BoundedPut;
    if n == 0 {
      NoPuts(b[0].Count());
    } else {
      MapIsRunOfPuts(b, n - 1);
      ReachableOk(b, n - 1);
      StepIsPut(b[n - 1], b[n]);
      if b[n - 1].writer != WIdle && b[n].writer == WIdle {
        PutsSnoc(b[0].Count(), Finished(b, n - 1), Entry(b[n - 1].writer.code, b[n - 1].writer.quote));
      } else {
        assert Finished(b, n - 1) + [] == Finished(b, n - 1);
      }
    }
  }

  lemma NoPuts(capacity: nat)
    ensures AllPuts(capacity, []) == map[]
  {
  }

  lemma {:induction false} FinishedGrows(b: seq<State>, k: nat, n: nat)
    requires k <= n < |b|
    ensures CodesPut(Finished(b, k)) <= CodesPut(Finished(b, n))
    decreases n - k
  {
    if k < n {
      FinishedGrows(b, k, n - 1);
    }
  }

  /** With no more distinct codes than slots, what a `Get` returns is the last completed `Put`
      of its code, and what it misses was never put, at every moment it vouches for. */
  lemma GetReturnsLastPut(b: seq<State>, n: nat, i: nat)
    requires Behavior(b) && n < |b| && i < |b[n].readers|
    requires |CodesPut(Finished(b, n))| <= b[0].Count()
    ensures var r := b[n].readers[i];
            && (r.RHit? ==> r.from <= r.to <= n)
            && (r.RHit? ==> forall k: nat :: r.from <= k <= r.to ==>
                    LastPut(Finished(b, k), r.code) == Some(Quote(r.words)))
            && (r.RMiss? ==> r.from <= r.to <= n)
            && (r.RMiss? ==> forall k: nat :: r.from <= k <= r.to ==> LastPut(Finished(b, k), r.code) == None)
  {
    hide Behavior, LastPut, AllPuts, CodesPut, Finished;
    var r := b[n].readers[i];
    if r.RHit? {
      NoTornOrStaleRead(b, n, i);
      forall k: nat | r.from <= k <= r.to ensures LastPut(Finished(b, k), r.code) == Some(Quote(r.words)) {
        MapIsLastPuts(b, k, n);
        assert b[k].contents[r.code] == Quote(r.words);
      }
    } else if r.RMiss? {
      MissMeansAbsent(b, n, i);
      forall k: nat | r.from <= k <= r.to ensures LastPut(Finished(b, k), r.code) == None {
        MapIsLastPuts(b, k, n);
      }
    }
  }

  lemma MapIsLastPuts(b: seq<State>, k: nat, n: nat)
    requires Behavior(b) && k <= n < |b| && |CodesPut(Finished(b, n))| <= b[0].Count()
    ensures forall c: Code :: c.Accepted() ==>
              LastPut(Finished(b, k), c) == if c in b[k].contents then Some(b[k].contents[c]) else None
  {
    hide Behavior, LastPut, AllPuts, CodesPut, Finished;
    MapIsRunOfPuts(b, k);
    FinishedGrows(b, k, n);
    SubsetSize(CodesPut(Finished(b, k)), CodesPut(Finished(b, n)));
    RunReturnsLastPut(b[0].Count(), Finished(b, k));
  }

  // ---------- when a reader gives up ----------

  /** A write is under way in a slot that a probe for `c` comes to: every slot before it on the
      path holds another key. */
  ghost predicate InTheWay(s: State, c: Code) {
    0 < s.Count() == |s.owners| && s.writer.WStore?
    && exists p: nat :: p < s.Count() && Busy(s) == Some(Path(s.Count(), c, p)) && Passed(s, c, p)
  }

  /** From `since` to `n` no write was in the way of a probe for `c`. */
  ghost predicate Undisturbed(b: seq<State>, c: Code, since: nat, n: nat)
    requires n < |b|
  {
    forall k: nat :: since <= k <= n ==> !InTheWay(b[k], c)
  }

  /** Every slot holds another key. */
  predicate FullWithout(s: State, c: Code) { c !in s.contents && |s.contents| == s.Count() }

  /** What an undisturbed reader has met: no retry unless the table is full of other keys, and
      the stamp it loaded is still there. */
  ghost predicate Steady(s: State, r: Reader) {
    match r
    case RProbe(c, _, retry, _) => retry == 0 || FullWithout(s, c)
    case RCopy(c, _, retry, p, stamp, _, _) =>
      && (retry == 0 || FullWithout(s, c))
      && p < s.Count() && s.slots[Path(s.Count(), c, p)].stamp == stamp
    case RExhausted(c, _) => FullWithout(s, c)
    case _ => true
  }

  lemma FullStaysFull(s: State, s': State, c: Code)
    requires Inv(s) && Next(s, s') && FullWithout(s, c)
    ensures FullWithout(s', c)
  {
    hide Inv, Next;
    StepIsPut(s, s');
  }

  /** A step with no write in a slot, before or after, leaves the slot alone. */
  lemma QuietStep(s: State, s': State, x: nat)
    requires TableOk(s) && TableOk(s') && Next(s, s') && x < s.Count()
    requires Busy(s) != Some(x) && Busy(s') != Some(x)
    ensures s'.Count() == s.Count() && s'.slots[x] == s.slots[x]
  {
    hide Path, ReaderStep, WellFormed, KeySet, AtRest, Stops, Image;
  }

  /** Where no write is in the way, the slot a reader comes to has an even stamp. */
  lemma EvenAtRest(s: State, c: Code, p: nat)
    requires TableOk(s) && p < s.Count() && Passed(s, c, p) && !InTheWay(s, c)
    ensures Busy(s) != Some(Path(s.Count(), c, p))
    ensures s.slots[Path(s.Count(), c, p)].stamp % 2 == 0
  {
    hide Path, WellFormed, KeySet, Passed;
    assert AtRest(s, Path(s.Count(), c, p));
  }

  lemma PassedAll(s: State, c: Code, p: nat)
    requires TableOk(s) && Passed(s, c, p) && p >= s.Count() && GoodCode(c)
    ensures FullWithout(s, c)
  {
    hide Path, WellFormed, KeySet, Stops;
    ProbedOut(s, c, Quote([]), p);
  }

  lemma OwnStepIsSteady(s: State, r: Reader, r': Reader)
    requires TableOk(s) && ReaderOk(s, r) && ReaderStep(s, r, r') && (r.RProbe? || r.RCopy?) && !InTheWay(s, r.code)
    requires Steady(s, r)
    ensures Steady(s, r')
  {
    hide Path, WellFormed, KeySet, AtRest, WriterOk, InTheWay, Passed, FullWithout, SeesKey;
    match r
    case RProbe(c, since, retry, p) =>
      if p >= s.Count() {
        PassedAll(s, c, p);
      } else {
        EvenAtRest(s, c, p);
      }
    case _ =>
  }

  lemma OthersKeepSteady(s: State, s': State, r: Reader)
    requires Inv(s) && Next(s, s') && ReaderOk(s, r) && Steady(s, r)
    requires r.RCopy? ==> !InTheWay(s, r.code) && !InTheWay(s', r.code)
    ensures Steady(s', r)
  {
    NextOk(s, s');
    hide Inv, Next, FullWithout, InTheWay, Path, TableOk, Evolves, Passed;
    StepIsPut(s, s');
    BothOk(s, s');
    if r.RCopy? {
      CopyOk(s, r);
      ReaderIsStable(s, s', r);
      CopyOk(s', r);
      EvenAtRest(s, r.code, r.probe);
      EvenAtRest(s', r.code, r.probe);
      QuietStep(s, s', Path(s.Count(), r.code, r.probe));
    }
    if !r.RIdle? && !r.RHit? && !r.RMiss? && FullWithout(s, r.code) {
      FullStaysFull(s, s', r.code);
    }
  }

  lemma BothOk(s: State, s': State)
    requires Inv(s) && Inv(s')
    ensures TableOk(s) && TableOk(s') && |s.owners| == s.Count() && |s'.owners| == s'.Count()
  {
  }

  lemma CopyOk(s: State, r: Reader)
    requires s.Count() == |s.owners| && r.RCopy? && ReaderOk(s, r)
    ensures r.probe < s.Count() && Passed(s, r.code, r.probe)
  {
  }

  lemma SinceIsPast(s: State, r: Reader)
    requires s.Count() == |s.owners| && ReaderOk(s, r) && 0 < |s.history|
    ensures r.RIdle? || r.since <= |s.history| - 1
  {
    hide Path, Passed, WindowOk, GoodCode;
  }

  /** A reader moves on from `s`, either starting a new call or continuing its own. */
  lemma OwnMove(s: State, s': State, i: nat)
    requires Next(s, s') && i < |s.readers| && i < |s'.readers| && s'.readers[i] != s.readers[i]
    ensures ReaderStep(s, s.readers[i], s'.readers[i])
    ensures s'.slots == s.slots && s'.contents == s.contents
    ensures s.readers[i].RProbe? || s.readers[i].RCopy? ==>
              !s'.readers[i].RIdle? && s'.readers[i].code == s.readers[i].code
              && s'.readers[i].since == s.readers[i].since
    ensures !s.readers[i].RProbe? && !s.readers[i].RCopy? ==> s'.readers[i].RProbe? && s'.readers[i].retry == 0
  {
    hide Path, WriterStep;
  }

  lemma SameTableSteady(s: State, s': State, r: Reader)
    requires Steady(s, r) && s'.slots == s.slots && s'.contents == s.contents
    ensures Steady(s', r)
  {
    hide Path;
  }

  lemma {:induction false} UndisturbedIsSteady(b: seq<State>, n: nat, i: nat)
    requires Behavior(b) && n < |b| && i < |b[n].readers|
    requires var r := b[n].readers[i]; r.RIdle? || Undisturbed(b, r.code, r.since, n)
    ensures Steady(b[n], b[n].readers[i])
    decreases n
  {
    hide Inv, Init, Next, Steady, TableOk, ReaderOk, ReaderStep, WriterStep, InTheWay;
    if n == 0 {
      StartsSteady(b[0], i);
    } else {
      ReachableOk(b, n - 1);
      var s, s' := b[n - 1], b[n];
      assert Next(s, s');
      SameReaders(s, s');
      InvParts(s, i);
      SinceIsPast(s, s.readers[i]);
      var r, r' := s.readers[i], s'.readers[i];
      if r' == r {
        UndisturbedIsSteady(b, n - 1, i);
        OthersKeepSteady(s, s', r);
      } else {
        OwnMove(s, s', i);
        if r.RProbe? || r.RCopy? {
          UndisturbedIsSteady(b, n - 1, i);
          OwnStepIsSteady(s, r, r');
          SameTableSteady(s, s', r');
        } else {
          FirstProbeSteady(s', r');
        }
      }
    }
  }

  lemma SameReaders(s: State, s': State)
    requires Next(s, s')
    ensures |s'.readers| == |s.readers|
  {
    hide WriterStep, ReaderStep;
  }

  lemma InvParts(s: State, i: nat)
    requires Inv(s) && i < |s.readers|
    ensures TableOk(s) && s.Count() == |s.owners| && 0 < |s.history| && ReaderOk(s, s.readers[i])
  {
    hide Path, WellFormed, KeySet, AtRest, WriterOk;
  }

  lemma FirstProbeSteady(s: State, r: Reader)
    requires r.RProbe? && r.retry == 0
    ensures Steady(s, r)
  {
  }

  lemma StartsSteady(s: State, i: nat)
    requires Init(s) && i < |s.readers|
    ensures Steady(s, s.readers[i])
  {
  }

  /** A `Get` gives up after its eight rounds only if, during the call, a write was under way
      in a slot that its probe comes to, or the table holds as many keys as slots and its key is
      not among them. */
  lemma GivesUpOnlyUnderAPut(b: seq<State>, n: nat, i: nat)
    requires Behavior(b) && n < |b| && i < |b[n].readers| && b[n].readers[i].RExhausted?
    ensures var r := b[n].readers[i];
            || (exists k: nat :: r.since <= k <= n && InTheWay(b[k], r.code))
            || (r.code !in b[n].contents && |b[n].contents| == b[n].Count())
  {
    hide Behavior, InTheWay;
    var r := b[n].readers[i];
    if Undisturbed(b, r.code, r.since, n) {
      UndisturbedIsSteady(b, n, i);
    }
  }
}
