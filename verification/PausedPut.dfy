/** One paused `Put` is enough to make readers of its code give up, and such a moment is reached
    from every fresh table. */
module PausedPut {
  import opened Options
  import opened Probing
  import opened SnapshotLayout
  import opened SnapshotProtocol

  ghost predicate Steps(b: seq<State>) {
    0 < |b| && forall i :: 0 <= i < |b| - 1 ==> Next(b[i], b[i + 1])
  }

  function Last(b: seq<State>): State
    requires b != []
  {
    b[|b| - 1]
  }

  lemma Continue(a: seq<State>, b: seq<State>)
    requires Steps(a) && Steps(b) && Last(a) == b[0]
    ensures Steps(a + b[1..]) && Last(a + b[1..]) == Last(b)
  {
    hide Next;
    var c := a + b[1..];
    forall i | 0 <= i < |c| - 1 ensures Next(c[i], c[i + 1]) {
      if i >= |a| - 1 {
        assert c[i] == b[i - (|a| - 1)] && c[i + 1] == b[i + 1 - (|a| - 1)];
      }
    }
  }

  lemma {:induction false} StepsKeepInv(b: seq<State>)
    requires Steps(b) && Inv(b[0])
    ensures Inv(Last(b)) && Last(b).Count() == b[0].Count()
    decreases |b|
  {
    hide Next, Inv;
    if |b| > 1 {
      NextOk(b[0], b[1]);
      SameCount(b[0], b[1]);
      var rest := b[1..];
      forall i | 0 <= i < |rest| - 1 ensures Next(rest[i], rest[i + 1]) {
        assert Next(b[i + 1], b[i + 2]);
      }
      StepsKeepInv(rest);
    }
  }

  lemma SameCount(s: State, s': State)
    requires Evolves(s, s')
    ensures s'.Count() == s.Count()
  {
  }

  /** Slot of a code's first probe. */
  function Home(s: State, c: Code): nat
    requires 0 < s.Count()
  {
    Path(s.Count(), c, 0)
  }

  // ---------- the writer on its way ----------

  lemma ProbesHome(s: State, c: Code, q: Quote, e: Effect)
    requires TableOk(s) && s.writer == WProbe(c, q, 0) && Stops(s.owners, c, 0)
    requires e == Effect(s.slots, s.owners, s.contents, WClaim(c, q, 0))
    ensures WriterStep(s, e)
  {
    hide Path, WellFormed, KeySet, SeesEmpty, SeesKey;
    assert AtRest(s, Home(s, c));
    RestShowsOwner(s, Home(s, c), c);
  }

  lemma TakesEffect(s: State, e: Effect)
    requires WriterStep(s, e)
    ensures Next(s, Apply(s, e))
  {
  }

  lemma Starts(s: State, c: Code, q: Quote, e: Effect)
    requires s.writer == WIdle && GoodCode(c) && GoodQuote(q)
    requires e == Effect(s.slots, s.owners, s.contents, WProbe(c, q, 0))
    ensures WriterStep(s, e)
  {
  }

  lemma ClaimsHome(s: State, c: Code, q: Quote, e: Effect)
    requires 0 < s.Count() && s.writer == WClaim(c, q, 0)
    requires var slot := s.slots[Home(s, c)];
             e == Effect(s.slots[Home(s, c) := slot.(stamp := slot.stamp + 1)], s.owners, s.contents,
                         WStore(c, q, 0, slot.stamp, {}))
    ensures WriterStep(s, e)
  {
  }

  /** From rest, a `Put` whose home slot is free or its own comes to hold it. */
  lemma HoldsHome(s: State, c: Code, q: Quote) returns (b: seq<State>)
    requires Inv(s) && s.writer == WIdle && GoodCode(c) && GoodQuote(q) && Stops(s.owners, c, 0)
    ensures Steps(b) && b[0] == s && Inv(Last(b)) && Last(b).Count() == s.Count()
    ensures var t := Last(b);
            && t.contents == s.contents && t.owners == s.owners && t.readers == s.readers
            && t.writer.WStore? && t.writer == WStore(c, q, 0, t.writer.base, {})
  {
    hide Path, WriterStep, Next, TableOk, ReaderOk;
    var e1 := Effect(s.slots, s.owners, s.contents, WProbe(c, q, 0));
    var s1 := Apply(s, e1);
    Starts(s, c, q, e1);
    TakesEffect(s, e1);
    NextOk(s, s1);
    var e2 := Effect(s.slots, s.owners, s.contents, WClaim(c, q, 0));
    var s2 := Apply(s1, e2);
    ProbesHome(s1, c, q, e2);
    TakesEffect(s1, e2);
    SomeSlots(s);
    var slot := s.slots[Home(s, c)];
    var e3 := Effect(s.slots[Home(s, c) := slot.(stamp := slot.stamp + 1)], s.owners, s.contents,
                     WStore(c, q, 0, slot.stamp, {}));
    ClaimsHome(s2, c, q, e3);
    TakesEffect(s2, e3);
    b := [s, s1, s2, Apply(s2, e3)];
    StepsKeepInv(b);
  }

  lemma SomeSlots(s: State)
    requires TableOk(s)
    ensures 0 < s.Count() == |s.owners|
  {
  }

  /** The cells stored first. */
  function FirstCells(m: nat): (r: set<nat>)
    ensures forall i: nat :: i in r <==> i < m
  {
    if m == 0 then {} else FirstCells(m - 1) + {m - 1}
  }

  /** In the home slot with `m` cells stored. */
  ghost predicate Storing(s: State, c: Code, q: Quote, base: nat, m: nat) {
    && 0 < s.Count() == |s.owners| && |s.slots[Home(s, c)].cells| == CELLS
    && GoodCode(c) && GoodQuote(q) && m <= CELLS
    && s.writer == WStore(c, q, 0, base, FirstCells(m))
  }

  lemma StoresCell(s: State, c: Code, q: Quote, base: nat, m: nat) returns (s': State)
    requires Storing(s, c, q, base, m) && m < CELLS
    ensures Next(s, s') && Storing(s', c, q, base, m + 1)
    ensures s'.contents == s.contents && s'.owners == s.owners && s'.readers == s.readers && s'.Count() == s.Count()
  {
    hide Path, Image;
    var x := Home(s, c);
    var done := FirstCells(m);
    assert FirstCells(m + 1) == done + {m};
    var e := Effect(s.slots[x := s.slots[x].(cells := s.slots[x].cells[m := Image(c, q)[m]])], s.owners, s.contents,
                    WStore(c, q, 0, base, done + {m}));
    assert StoreCell(s, e, x, c, q, 0, base, done, m);
    assert m !in done;
    s' := Apply(s, e);
    assert WriterStep(s, e);
  }

  lemma Finishes(s: State, c: Code, q: Quote, base: nat) returns (s': State)
    requires Storing(s, c, q, base, CELLS)
    ensures Next(s, s') && s'.writer == WIdle && s'.Count() == s.Count() && s'.readers == s.readers
    ensures s'.contents == s.contents[c := q] && s'.owners == s.owners[Home(s, c) := Some(c)]
  {
    hide Path, Image;
    var x := Home(s, c);
    var e := Effect(s.slots[x := s.slots[x].(stamp := base + 2)], s.owners[x := Some(c)], s.contents[c := q], WIdle);
    s' := Apply(s, e);
    assert WriterStep(s, e);
  }

  /** Store by store the `Put` comes to its end. */
  lemma {:induction false} StoresAll(s: State, c: Code, q: Quote, base: nat, m: nat) returns (b: seq<State>)
    requires Storing(s, c, q, base, m)
    ensures Steps(b) && b[0] == s
    ensures var t := Last(b);
            && t.writer == WIdle && t.Count() == s.Count() && t.readers == s.readers
            && t.contents == s.contents[c := q] && t.owners == s.owners[Home(s, c) := Some(c)]
    decreases CELLS - m
  {
    hide Next, Path;
    if m == CELLS {
      var s' := Finishes(s, c, q, base);
      b := [s, s'];
    } else {
      var s' := StoresCell(s, c, q, base, m);
      var rest := StoresAll(s', c, q, base, m + 1);
      b := [s] + rest;
      forall i | 0 <= i < |b| - 1 ensures Next(b[i], b[i + 1]) {
        if i > 0 { assert Next(rest[i - 1], rest[i]); }
      }
    }
  }

  lemma HomeIsStored(s: State, c: Code)
    requires Inv(s) && s.writer.WStore? && s.writer == WStore(c, s.writer.quote, 0, s.writer.base, {})
    ensures Storing(s, c, s.writer.quote, s.writer.base, 0)
    ensures s.slots[Home(s, c)].stamp % 2 == 1
  {
    hide Path, WellFormed, KeySet, AtRest, ReaderOk, Image;
    assert FirstCells(0) == {};
  }

  /** From every fresh table a moment is reached at which the map holds the code and a second
      `Put` of it stands in its home slot, no reader having moved. */
  lemma PausedMoment(s: State, c: Code, q: Quote, later: Quote) returns (b: seq<State>)
    requires Init(s) && GoodCode(c) && GoodQuote(q) && GoodQuote(later)
    ensures Behavior(b) && b[0] == s
    ensures var t := Last(b);
            && t.contents == map[c := q] && t.readers == s.readers && 0 < t.Count()
            && t.slots[Home(t, c)].stamp % 2 == 1
  {
    hide Path, Next, Inv, Storing;
    InitOk(s);
    assert s.contents == map[] && 0 < s.Count() == |s.owners| && Stops(s.owners, c, 0);
    hide Init;
    b := HoldsHome(s, c, q);
    var s1 := Last(b);
    HomeIsStored(s1, c);
    var stores := StoresAll(s1, c, q, s1.writer.base, 0);
    Continue(b, stores);
    b := b + stores[1..];
    var s2 := Last(b);
    StepsKeepInv(b);
    var again := HoldsHome(s2, c, later);
    HomeIsStored(Last(again), c);
    Continue(b, again);
    b := b + again[1..];
    assert s.contents[c := q] == map[c := q];
  }

  // ---------- the reader beside it ----------

  /** After `k` rounds that each met an odd stamp at the first slot. */
  function Rounds(c: Code, since: nat, k: nat): Reader
    requires k <= RETRIES
  {
    if k < RETRIES then RProbe(c, since, k, 0) else RExhausted(c, since)
  }

  /** While a `Put` stands in the home slot of a code, eight steps of a reader of that code make
      it give up, whether or not the code is in the table. */
  lemma {:induction false} PausedPutExhausts(s: State, i: nat, c: Code, since: nat, k: nat) returns (b: seq<State>)
    requires 0 < s.Count() && s.slots[Home(s, c)].stamp % 2 == 1
    requires i < |s.readers| && k <= RETRIES && s.readers[i] == Rounds(c, since, k)
    ensures |b| == 8 - k + 1 && Steps(b) && b[0] == s
    ensures i < |Last(b).readers| && Last(b).readers[i] == RExhausted(c, since)
    ensures forall j :: 0 <= j < |b| ==> b[j].contents == s.contents && b[j].slots == s.slots
    decreases RETRIES - k
  {
    hide Path, WriterStep;
    if k == RETRIES {
      b := [s];
    } else {
      var s' := Advance(s, i, Rounds(c, since, k + 1));
      assert ReaderStep(s, s.readers[i], Rounds(c, since, k + 1));
      assert Next(s, s');
      hide Next, ReaderStep;
      var rest := PausedPutExhausts(s', i, c, since, k + 1);
      b := [s] + rest;
      forall j | 0 <= j < |b| - 1 ensures Next(b[j], b[j + 1]) {
        if j > 0 {
          assert Next(rest[j - 1], rest[j]);
        }
      }
    }
  }

  /** On every fresh table, for every code, some run of one writer and a reader has the reader
      give up on a code that is in the map, with one and the same quote, during the whole call. */
  lemma StoredCodeGivesUp(s: State, c: Code, q: Quote, later: Quote, i: nat) returns (b: seq<State>, since: nat)
    requires Init(s) && GoodCode(c) && GoodQuote(q) && GoodQuote(later) && i < |s.readers|
    ensures Behavior(b) && b[0] == s && since < |b|
    ensures i < |Last(b).readers| && Last(b).readers[i] == RExhausted(c, since)
    ensures forall k: nat :: since <= k < |b| ==> c in b[k].contents && b[k].contents[c] == q
  {
    assert s.readers[i] == RIdle;
    hide Init, Next, Path, Inv;
    b := PausedMoment(s, c, q, later);
    var t := Last(b);
    since := |b| - 1;
    ReachableOk(b, since);
    var call := WholeCall(t, i, c, since);
    Continue(b, call);
    forall k: nat | since <= k < |b| + |call| - 1 ensures (b + call[1..])[k] == call[k - since] {
    }
    b := b + call[1..];
  }

  lemma WholeCall(s: State, i: nat, c: Code, since: nat) returns (b: seq<State>)
    requires 0 < s.Count() && s.slots[Home(s, c)].stamp % 2 == 1
    requires i < |s.readers| && s.readers[i] == RIdle && GoodCode(c) && |s.history| == since + 1
    ensures Steps(b) && b[0] == s && |b| > 1
    ensures i < |Last(b).readers| && Last(b).readers[i] == RExhausted(c, since)
    ensures forall j :: 0 <= j < |b| ==> b[j].contents == s.contents
  {
    hide Next, Path;
    var s' := ReaderStarts(s, i, c, since);
    var rest := PausedPutExhausts(s', i, c, since, 0);
    b := [s] + rest;
    forall j | 0 <= j < |b| - 1 ensures Next(b[j], b[j + 1]) {
      if j > 0 {
        assert Next(rest[j - 1], rest[j]);
      }
    }
  }

  lemma ReaderStarts(s: State, i: nat, c: Code, since: nat) returns (s': State)
    requires i < |s.readers| && s.readers[i] == RIdle && GoodCode(c) && |s.history| == since + 1
    ensures Next(s, s') && s'.slots == s.slots && s'.contents == s.contents
    ensures i < |s'.readers| && s'.readers[i] == Rounds(c, since, 0)
  {
    hide WriterStep;
    s' := Advance(s, i, RProbe(c, since, 0, 0));
    assert ReaderStep(s, s.readers[i], RProbe(c, since, 0, 0));
  }
}
