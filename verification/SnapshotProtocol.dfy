/** One writer and any number of readers on the shared table, one load or store per step.

    The state carries, besides the memory and the program counters, what the proofs talk
    about: which key owns each slot, the abstract map of completed `Put`s, and that map's
    value after every step so far. A `Put` takes effect on the abstract map at its last
    store. Memory is sequentially consistent and stamps are unbounded. */
module SnapshotProtocol {
  import opened SnapshotLayout
  import opened Options
  import opened Probing

  /** Key buffer, quote words, flags: the cells a writer stores and a reader loads, each in
      its own step and in any order. */
  const CELLS := CODE_BYTES + QUOTE_WORDS + 1
  const RETRIES := 8

  datatype Slot = Slot(stamp: nat, cells: seq<Word>)

  datatype Writer =
    | WIdle
    | WProbe(code: Code, quote: Quote, probe: nat)
    | WClaim(code: Code, quote: Quote, probe: nat)
    | WStore(code: Code, quote: Quote, probe: nat, base: nat, done: set<nat>)

  datatype Reader =
    | RIdle
    | RProbe(code: Code, since: nat, retry: nat, probe: nat)
    | RCopy(code: Code, since: nat, retry: nat, probe: nat, stamp: nat, from: nat, got: map<nat, Word>)
    | RHit(code: Code, since: nat, from: nat, to: nat, words: seq<Word>)
    | RMiss(code: Code, since: nat, from: nat, to: nat)
    | RExhausted(code: Code, since: nat)

  type Contents = map<Code, Quote>

  datatype State = State(
    slots: seq<Slot>,
    owners: Owners,
    contents: Contents,
    history: seq<Contents>,
    writer: Writer,
    readers: seq<Reader>)
  {
    function Count(): nat { |slots| }

    /** Index of the present moment in the history. */
    function Now(): int { |history| - 1 }
  }

  predicate GoodCode(c: Code) { c.Accepted() && forall i :: 0 <= i < |c.bytes| ==> c.bytes[i] != 0 }
  predicate GoodQuote(q: Quote) { |q.words| == QUOTE_WORDS }

  function KeyCell(c: Code, i: nat): Word
    requires GoodCode(c) && i < CODE_BYTES
  {
    Padded(c)[i]
  }

  /** The cells of a slot that holds `c` with quote `q`. */
  function Image(c: Code, q: Quote): (r: seq<Word>)
    requires GoodCode(c) && GoodQuote(q)
    ensures |r| == CELLS
    ensures forall i :: 0 <= i < CODE_BYTES ==> r[i] == Padded(c)[i]
    ensures r[CODE_BYTES..CELLS - 1] == q.words
  {
    var key: seq<Word> := seq(CODE_BYTES, i requires 0 <= i < CODE_BYTES => KeyCell(c, i));
    var flags: seq<Word> := [1];
    key + q.words + flags
  }

  function Blank(): (r: seq<Word>)
    ensures |r| == CELLS && forall i :: 0 <= i < CELLS ==> r[i] == 0
  {
    seq(CELLS, _ => 0)
  }

  // ---------- steps ----------

  ghost predicate Init(s: State) {
    && 0 < s.Count()
    && s.slots == seq(s.Count(), _ => Slot(0, Blank()))
    && s.owners == seq(s.Count(), _ => None)
    && s.contents == map[] && s.history == [map[]]
    && s.writer == WIdle
    && forall r :: 0 <= r < |s.readers| ==> s.readers[r] == RIdle
  }

  /** A step of the writer: new memory, owners, contents and program counter. */
  datatype Effect = Effect(slots: seq<Slot>, owners: Owners, contents: Contents, writer: Writer)

  function Apply(s: State, e: Effect): State {
    s.(slots := e.slots, owners := e.owners, contents := e.contents, writer := e.writer,
       history := s.history + [e.contents])
  }

  /** The table's memory seen by the writer: a key buffer that starts with a zero is empty. */
  predicate SeesEmpty(slot: Slot) requires |slot.cells| == CELLS { slot.cells[0] == 0 }

  predicate SeesKey(slot: Slot, c: Code)
    requires |slot.cells| == CELLS
  {
    && 1 <= |c.bytes| <= 7
    && slot.cells[..|c.bytes|] == c.bytes
    && slot.cells[|c.bytes|] == 0
  }

  ghost predicate WriterStep(s: State, e: Effect) {
    match s.writer
    case WIdle =>
      && e.writer.WProbe? && e.writer.probe == 0
      && GoodCode(e.writer.code) && GoodQuote(e.writer.quote)
      && e.slots == s.slots && e.owners == s.owners && e.contents == s.contents
    case WProbe(c, q, p) =>
      && e.slots == s.slots && e.owners == s.owners && e.contents == s.contents
      && if p >= s.Count() then e.writer == WIdle
         else
           var slot := s.slots[Path(s.Count(), c, p)];
           |slot.cells| == CELLS
           && e.writer == if SeesEmpty(slot) || SeesKey(slot, c) then WClaim(c, q, p) else WProbe(c, q, p + 1)
    case WClaim(c, q, p) =>
      p < s.Count()
      && var x := Path(s.Count(), c, p);
         && e.slots == s.slots[x := s.slots[x].(stamp := s.slots[x].stamp + 1)]
         && e.owners == s.owners && e.contents == s.contents
         && e.writer == WStore(c, q, p, s.slots[x].stamp, {})
    case WStore(c, q, p, base, done) =>
      p < s.Count() && GoodCode(c) && GoodQuote(q)
      && var x := Path(s.Count(), c, p);
         if exists i: nat :: i < CELLS && i !in done then
           exists i: nat :: i < CELLS && i !in done && |s.slots[x].cells| == CELLS
             && StoreCell(s, e, x, c, q, p, base, done, i)
         else
           && e.slots == s.slots[x := s.slots[x].(stamp := base + 2)]
           && |s.owners| == s.Count() && e.owners == s.owners[x := Some(c)]
           && e.contents == s.contents[c := q]
           && e.writer == WIdle
  }

  predicate StoreCell(s: State, e: Effect, x: nat, c: Code, q: Quote, p: nat, base: nat, done: set<nat>, i: nat)
    requires x < s.Count() && GoodCode(c) && GoodQuote(q) && i < CELLS && |s.slots[x].cells| == CELLS
  {
    && e.slots == s.slots[x := s.slots[x].(cells := s.slots[x].cells[i := Image(c, q)[i]])]
    && e.owners == s.owners && e.contents == s.contents
    && e.writer == WStore(c, q, p, base, done + {i})
  }

  /** A reader that meets an odd or changed stamp, or the end of the table, starts over. */
  function Again(c: Code, since: nat, retry: nat): Reader {
    if retry + 1 < RETRIES then RProbe(c, since, retry + 1, 0) else RExhausted(c, since)
  }

  ghost predicate ReaderStep(s: State, r: Reader, r': Reader) {
    match r
    case RProbe(c, since, retry, p) =>
      if p >= s.Count() then r' == Again(c, since, retry)
      else
        var stamp := s.slots[Path(s.Count(), c, p)].stamp;
        if stamp % 2 == 1 then r' == Again(c, since, retry)
        else s.Now() >= 0 && r' == RCopy(c, since, retry, p, stamp, s.Now(), map[])
    case RCopy(c, since, retry, p, stamp, from, got) =>
      p < s.Count()
      && var slot := s.slots[Path(s.Count(), c, p)];
         && |slot.cells| == CELLS
         && if exists i: nat :: i < CELLS && i !in got
            then exists i: nat :: i < CELLS && i !in got
                   && r' == RCopy(c, since, retry, p, stamp, from, got[i := slot.cells[i]])
            else if slot.stamp != stamp then r' == Again(c, since, retry)
            else s.Now() >= 0 && r' == Conclude(c, since, retry, p, from, s.Now(), Collected(got))
    case _ =>
      r'.RProbe? && GoodCode(r'.code) && r'.since == s.Now() && r'.retry == 0 && r'.probe == 0
  }

  ghost function Collected(got: map<nat, Word>): (r: seq<Word>)
    requires forall i: nat :: i < CELLS ==> i in got
    ensures |r| == CELLS && forall i :: 0 <= i < CELLS ==> r[i] == got[i]
  {
    seq(CELLS, i requires 0 <= i < CELLS => got[i])
  }

  /** The verdict on a copy whose stamp did not change. */
  function Conclude(c: Code, since: nat, retry: nat, p: nat, from: nat, to: nat, copy: seq<Word>): Reader
    requires |copy| == CELLS
  {
    if copy[0] == 0 then RMiss(c, since, from, to)
    else if SeesKey(Slot(0, copy), c) then RHit(c, since, from, to, copy[CODE_BYTES..CELLS - 1])
    else RProbe(c, since, retry, p + 1)
  }

  ghost predicate Next(s: State, s': State) {
    || (exists e :: WriterStep(s, e) && s' == Apply(s, e))
    || (exists i: nat, r' :: i < |s.readers| && ReaderStep(s, s.readers[i], r') && s' == Advance(s, i, r'))
  }

  function Advance(s: State, i: nat, r': Reader): State
    requires i < |s.readers|
  {
    s.(readers := s.readers[i := r'], history := s.history + [s.contents])
  }

  ghost predicate Behavior(b: seq<State>) {
    && 0 < |b| && Init(b[0])
    && forall i :: 0 <= i < |b| - 1 ==> Next(b[i], b[i + 1])
  }

  // ---------- the table invariant ----------

  /** A slot at rest holds nothing but zeros, or exactly its owner's current quote. */
  ghost predicate AtRest(s: State, x: nat)
    requires x < s.Count() == |s.owners|
  {
    && |s.slots[x].cells| == CELLS
    && s.slots[x].stamp % 2 == 0
    && match s.owners[x]
       case None => s.slots[x].cells == Blank()
       case Some(c) => GoodCode(c) && c in s.contents && GoodQuote(s.contents[c])
                       && s.slots[x].cells == Image(c, s.contents[c])
  }

  /** A slot being written: an odd stamp, and every stored cell in place. */
  ghost predicate MidWrite(s: State, x: nat, c: Code, q: Quote, base: nat, done: set<nat>)
    requires x < s.Count()
  {
    && GoodCode(c) && GoodQuote(q)
    && |s.slots[x].cells| == CELLS
    && base % 2 == 0 && s.slots[x].stamp == base + 1
    && (forall i :: i in done ==> 0 <= i < CELLS)
    && forall i :: i in done ==> s.slots[x].cells[i] == Image(c, q)[i]
  }

  ghost predicate Claims(s: State, c: Code, p: nat)
    requires s.Count() == |s.owners|
  {
    p < s.Count() && Stops(s.owners, c, p) && forall j: nat :: j < p ==> !Stops(s.owners, c, j)
  }

  ghost predicate WriterOk(s: State)
    requires s.Count() == |s.owners|
  {
    match s.writer
    case WIdle => true
    case WProbe(c, q, p) =>
      GoodCode(c) && GoodQuote(q) && p <= s.Count() && forall j: nat :: j < p ==> !Stops(s.owners, c, j)
    case WClaim(c, q, p) => GoodCode(c) && GoodQuote(q) && Claims(s, c, p)
    case WStore(c, q, p, base, done) =>
      Claims(s, c, p) && MidWrite(s, Path(s.Count(), c, p), c, q, base, done)
  }

  /** The slot the writer is in, if any. */
  function Busy(s: State): Option<nat> {
    if s.writer.WStore? && 0 < s.Count() then Some(Path(s.Count(), s.writer.code, s.writer.probe)) else None
  }

  ghost predicate TableOk(s: State) {
    && 0 < s.Count() == |s.owners|
    && WellFormed(s.owners)
    && s.contents.Keys == KeySet(s.owners)
    && WriterOk(s)
    && (forall x: nat :: x < s.Count() && Busy(s) != Some(x) ==> AtRest(s, x))
    && 0 < |s.history| && s.history[|s.history| - 1] == s.contents
  }

  // ---------- what the writer sees ----------

  lemma ImageShowsKey(slot: Slot, k: Code, q: Quote, c: Code)
    requires GoodCode(k) && GoodCode(c) && GoodQuote(q) && slot.cells == Image(k, q)
    ensures !SeesEmpty(slot)
    ensures SeesKey(slot, c) <==> k == c
  {
    MatchesIsKeyEquality(k, c);
    assert slot.cells[..|c.bytes|] == Padded(k)[..|c.bytes|];
  }

  lemma RestShowsOwner(s: State, x: nat, c: Code)
    requires x < s.Count() == |s.owners| && AtRest(s, x) && GoodCode(c)
    ensures SeesEmpty(s.slots[x]) <==> s.owners[x].None?
    ensures SeesKey(s.slots[x], c) && !SeesEmpty(s.slots[x]) <==> s.owners[x] == Some(c)
  {
    if s.owners[x].Some? {
      ImageShowsKey(s.slots[x], s.owners[x].value, s.contents[s.owners[x].value], c);
    }
  }

  // ---------- writer steps keep the table invariant ----------

  lemma ProbeStepOk(s: State, e: Effect)
    requires TableOk(s) && s.writer.WProbe? && WriterStep(s, e)
    ensures TableOk(Apply(s, e)) && Evolves(s, Apply(s, e))
  {
    hide Path, WellFormed, KeySet, Image, SeesKey, SeesEmpty;
    var WProbe(c, q, p) := s.writer;
    var s' := Apply(s, e);
    if p < s.Count() {
      RestShowsOwner(s, Path(s.Count(), c, p), c);
    }
    forall x: nat | x < s'.Count() ensures AtRest(s', x) && SlotEvolves(s, s', x) {
      assert AtRest(s, x);
    }
  }

  lemma StartStepOk(s: State, e: Effect)
    requires TableOk(s) && s.writer.WIdle? && WriterStep(s, e)
    ensures TableOk(Apply(s, e)) && Evolves(s, Apply(s, e))
  {
    hide Path, WellFormed, KeySet, Image;
    var s' := Apply(s, e);
    forall x: nat | x < s'.Count() ensures AtRest(s', x) && SlotEvolves(s, s', x) {
      assert AtRest(s, x);
    }
  }

  lemma ClaimStepOk(s: State, e: Effect)
    requires TableOk(s) && s.writer.WClaim? && WriterStep(s, e)
    ensures TableOk(Apply(s, e)) && Evolves(s, Apply(s, e))
  {
    hide Path, WellFormed, KeySet, Image;
    var s' := Apply(s, e);
    var y := Path(s.Count(), s.writer.code, s.writer.probe);
    assert AtRest(s, y);
    forall x: nat | x < s'.Count() ensures (x != y ==> AtRest(s', x)) && SlotEvolves(s, s', x) {
      if x != y { assert AtRest(s, x); }
    }
  }

  lemma CellStepOk(s: State, e: Effect)
    requires TableOk(s) && s.writer.WStore? && WriterStep(s, e)
    requires exists i: nat :: i < CELLS && i !in s.writer.done
    ensures TableOk(Apply(s, e)) && Evolves(s, Apply(s, e))
  {
    hide Path, WellFormed, KeySet, Image;
    var s' := Apply(s, e);
    var y := Path(s.Count(), s.writer.code, s.writer.probe);
    forall x: nat | x < s'.Count() ensures (x != y ==> AtRest(s', x)) && SlotEvolves(s, s', x) {
      if x != y { assert AtRest(s, x); }
    }
  }

  lemma FinishStepOk(s: State, e: Effect)
    requires TableOk(s) && s.writer.WStore? && WriterStep(s, e)
    requires forall i: nat :: i < CELLS ==> i in s.writer.done
    ensures TableOk(Apply(s, e)) && Evolves(s, Apply(s, e))
  {
    hide Path, WellFormed, KeySet, Image;
    var WStore(c, q, p, base, done) := s.writer;
    var y := Path(s.Count(), c, p);
    StoreKeepsWellFormed(s.owners, c, p);
    StoredNowhereElse(s.owners, y, c);
    var s' := Apply(s, e);
    assert s'.slots[y].cells == Image(c, q);
    forall x: nat | x < s'.Count() ensures AtRest(s', x) && SlotEvolves(s, s', x) {
      if x != y { assert AtRest(s, x); }
    }
    assert Stops(s.owners, c, p);
  }

  /** What one step may do to the table behind a reader's back. */
  ghost predicate Evolves(s: State, s': State) {
    && s.Count() == s'.Count() == |s.owners| == |s'.owners|
    && s'.history == s.history + [s'.contents]
    && forall x: nat :: x < s.Count() ==> SlotEvolves(s, s', x)
  }

  /** A stamp never decreases, a key is never removed or replaced, and while an even stamp
      stays the same so do the slot and its owner's quote. */
  ghost predicate SlotEvolves(s: State, s': State, x: nat)
    requires x < s.Count() == s'.Count() == |s.owners| == |s'.owners|
  {
    && s.slots[x].stamp <= s'.slots[x].stamp
    && (s.owners[x].Some? ==> s'.owners[x] == s.owners[x])
    && (s.slots[x].stamp == s'.slots[x].stamp && s.slots[x].stamp % 2 == 0 ==>
          && s.slots[x] == s'.slots[x] && s.owners[x] == s'.owners[x]
          && (s.owners[x].Some? ==>
                && s.owners[x].value in s.contents && s.owners[x].value in s'.contents
                && s.contents[s.owners[x].value] == s'.contents[s.owners[x].value]))
  }

  lemma WriterStepOk(s: State, e: Effect)
    requires TableOk(s) && WriterStep(s, e)
    ensures TableOk(Apply(s, e)) && Evolves(s, Apply(s, e))
  {
    hide Path, WellFormed, KeySet, Image, TableOk, Evolves;
    match s.writer
    case WIdle => StartStepOk(s, e);
    case WProbe(_, _, _) => ProbeStepOk(s, e);
    case WClaim(_, _, _) => ClaimStepOk(s, e);
    case WStore(_, _, _, _, done) =>
      if i: nat :| i < CELLS && i !in done {
        CellStepOk(s, e);
      } else {
        FinishStepOk(s, e);
      }
  }

  // ---------- readers ----------

  ghost predicate Passed(s: State, c: Code, p: nat)
    requires s.Count() == |s.owners|
  {
    p <= s.Count() && forall j: nat :: j < p ==> !Stops(s.owners, c, j)
  }

  /** From `from` on, the map has said about this slot what its memory says now. */
  ghost predicate WindowOk(s: State, x: nat, c: Code, from: nat)
    requires x < |s.owners|
  {
    forall k: nat :: from <= k < |s.history| ==>
      match s.owners[x]
      case None => c !in s.history[k]
      case Some(o) => o in s.contents && o in s.history[k] && s.history[k][o] == s.contents[o]
  }

  ghost predicate ReaderOk(s: State, r: Reader)
    requires s.Count() == |s.owners|
  {
    match r
    case RIdle => true
    case RProbe(c, since, retry, p) => GoodCode(c) && since <= s.Now() && Passed(s, c, p)
    case RCopy(c, since, retry, p, stamp, from, got) =>
      && GoodCode(c) && since <= from <= s.Now() && p < s.Count() && Passed(s, c, p)
      && stamp % 2 == 0
      && var x := Path(s.Count(), c, p);
         && stamp <= s.slots[x].stamp
         && (s.slots[x].stamp == stamp ==>
               && |s.slots[x].cells| == CELLS
               && (forall i: nat :: i < CELLS && i in got ==> got[i] == s.slots[x].cells[i])
               && WindowOk(s, x, c, from))
    case RHit(c, since, from, to, words) =>
      && GoodCode(c) && since <= from <= to <= s.Now()
      && forall k: nat :: from <= k <= to ==> c in s.history[k] && s.history[k][c].words == words
    case RMiss(c, since, from, to) =>
      && GoodCode(c) && since <= from <= to <= s.Now()
      && forall k: nat :: from <= k <= to ==> c !in s.history[k]
    case RExhausted(c, since) => since <= s.Now()
  }

  /** An empty slot met after slots of other keys: the key is not in the map now. */
  lemma AbsentNow(s: State, c: Code, p: nat)
    requires TableOk(s) && p < s.Count() && Passed(s, c, p)
    requires s.owners[Path(s.Count(), c, p)].None?
    ensures c !in s.contents
  {
    hide Path, WellFormed, KeySet;
    forall j: nat | j < p ensures s.owners[Path(s.Count(), c, j)] != Some(c) {
      assert !Stops(s.owners, c, j);
    }
    EmptySlotProvesAbsence(s.owners, c, p);
  }

  lemma PassedIsStable(s: State, s': State, c: Code, p: nat)
    requires Evolves(s, s') && Passed(s, c, p)
    ensures Passed(s', c, p)
  {
    hide Path;
    forall j: nat | j < p ensures !Stops(s'.owners, c, j) {
      assert !Stops(s.owners, c, j);
      assert SlotEvolves(s, s', Path(s.Count(), c, j));
    }
  }

  lemma CopyIsStable(s: State, s': State, r: Reader)
    requires TableOk(s) && TableOk(s') && Evolves(s, s') && r.RCopy? && ReaderOk(s, r)
    ensures ReaderOk(s', r)
  {
    hide Path, WellFormed, KeySet, WriterOk, AtRest;
    var RCopy(c, since, retry, p, stamp, from, got) := r;
    PassedIsStable(s, s', c, p);
    var x := Path(s.Count(), c, p);
    assert SlotEvolves(s, s', x);
    if s'.slots[x].stamp == stamp {
      if s'.owners[x].None? {
        AbsentNow(s', c, p);
      }
      assert WindowOk(s, x, c, from);
    }
  }

  /** No step of anyone else invalidates what a reader knows. */
  lemma ReaderIsStable(s: State, s': State, r: Reader)
    requires TableOk(s) && TableOk(s') && Evolves(s, s') && ReaderOk(s, r)
    ensures ReaderOk(s', r)
  {
    hide Path, WellFormed, KeySet, WriterOk, AtRest, SlotEvolves;
    match r
    case RCopy(_, _, _, _, _, _, _) => CopyIsStable(s, s', r);
    case RProbe(c, _, _, p) => PassedIsStable(s, s', c, p);
    case _ =>
  }

  lemma EvenMeansAtRest(s: State, x: nat)
    requires TableOk(s) && x < s.Count() && s.slots[x].stamp % 2 == 0
    ensures AtRest(s, x)
  {
    hide Path, WellFormed, KeySet, Image;
  }

  lemma StartCopyOk(s: State, r: Reader, r': Reader)
    requires TableOk(s) && r.RProbe? && ReaderOk(s, r) && ReaderStep(s, r, r') && r'.RCopy?
    ensures ReaderOk(s, r')
  {
    hide Path, WellFormed, KeySet, Image, WriterOk;
    var x := Path(s.Count(), r.code, r.probe);
    EvenMeansAtRest(s, x);
    if s.owners[x].None? {
      AbsentNow(s, r.code, r.probe);
    }
  }

  /** The verdict on an untorn copy: right about the key at every moment since the first stamp load. */
  lemma ConcludeOk(s: State, r: Reader, copy: seq<Word>)
    requires TableOk(s) && r.RCopy? && ReaderOk(s, r)
    requires s.slots[Path(s.Count(), r.code, r.probe)].stamp == r.stamp
    requires copy == s.slots[Path(s.Count(), r.code, r.probe)].cells
    ensures |copy| == CELLS
    ensures ReaderOk(s, Conclude(r.code, r.since, r.retry, r.probe, r.from, s.Now(), copy))
  {
    hide Path, WellFormed, KeySet, Image, WriterOk, SeesKey, SeesEmpty;
    var x := Path(s.Count(), r.code, r.probe);
    EvenMeansAtRest(s, x);
    RestShowsOwner(s, x, r.code);
    CopyShowsTheSame(s.slots[x], copy, r.code);
    if s.owners[x].Some? && s.owners[x].value == r.code {
      assert copy == Image(r.code, s.contents[r.code]);
    }
  }

  lemma CopyShowsTheSame(slot: Slot, copy: seq<Word>, c: Code)
    requires |copy| == CELLS && slot.cells == copy
    ensures SeesEmpty(slot) <==> copy[0] == 0
    ensures SeesKey(slot, c) <==> SeesKey(Slot(0, copy), c)
  {
  }

  lemma CopyStepOk(s: State, r: Reader, r': Reader)
    requires TableOk(s) && r.RCopy? && ReaderOk(s, r) && ReaderStep(s, r, r')
    ensures ReaderOk(s, r')
  {
    hide Path, WellFormed, KeySet, Image, WriterOk, Conclude, AtRest;
    var slot := s.slots[Path(s.Count(), r.code, r.probe)];
    if forall i: nat :: i < CELLS ==> i in r.got {
      if slot.stamp == r.stamp {
        var copy := Collected(r.got);
        assert copy == slot.cells;
        ConcludeOk(s, r, copy);
      }
    }
  }

  lemma ReaderStepOk(s: State, r: Reader, r': Reader)
    requires TableOk(s) && ReaderOk(s, r) && ReaderStep(s, r, r')
    ensures ReaderOk(s, r')
  {
    hide Path, WellFormed, KeySet, Image, WriterOk, Conclude, AtRest;
    match r
    case RCopy(_, _, _, _, _, _, _) => CopyStepOk(s, r, r');
    case RProbe(_, _, _, _) => if r'.RCopy? { StartCopyOk(s, r, r'); }
    case _ =>
  }

  // ---------- every reachable state ----------

  ghost predicate Inv(s: State) {
    && TableOk(s)
    && forall i: nat :: i < |s.readers| ==> ReaderOk(s, s.readers[i])
  }

  lemma InitOk(s: State)
    requires Init(s)
    ensures Inv(s)
  {
    hide Path, Image;
    assert KeySet(s.owners) == {};
    assert forall x: nat :: x < s.Count() ==> AtRest(s, x);
  }

  lemma AdvanceOk(s: State, i: nat, r': Reader)
    requires TableOk(s) && i < |s.readers|
    ensures TableOk(Advance(s, i, r')) && Evolves(s, Advance(s, i, r'))
  {
    hide Path, WellFormed, KeySet, Image;
    var s' := Advance(s, i, r');
    forall x: nat | x < s.Count() ensures (Busy(s) != Some(x) ==> AtRest(s', x)) && SlotEvolves(s, s', x) {
      if Busy(s) != Some(x) { assert AtRest(s, x); }
    }
  }

  lemma NextOk(s: State, s': State)
    requires Inv(s) && Next(s, s')
    ensures Inv(s') && Evolves(s, s')
  {
    hide TableOk, Evolves, ReaderOk, ReaderStep, WriterStep;
    if e :| WriterStep(s, e) && s' == Apply(s, e) {
      WriterStepOk(s, e);
      TableShape(s');
      forall i: nat | i < |s'.readers| ensures ReaderOk(s', s'.readers[i]) {
        ReaderIsStable(s, s', s.readers[i]);
      }
    } else {
      var i: nat, r' :| i < |s.readers| && ReaderStep(s, s.readers[i], r') && s' == Advance(s, i, r');
      ReaderStepOk(s, s.readers[i], r');
      AdvanceOk(s, i, r');
      TableShape(s');
      forall j: nat | j < |s'.readers| ensures ReaderOk(s', s'.readers[j]) {
        ReaderIsStable(s, s', if j == i then r' else s.readers[j]);
      }
    }
  }

  lemma {:induction false} ReachableOk(b: seq<State>, n: nat)
    requires Behavior(b) && n < |b|
    ensures Inv(b[n])
    ensures |b[n].history| == n + 1
    ensures forall k: nat :: k <= n ==> b[n].history[k] == b[k].contents
  {
    hide Init, Inv, Next, Evolves;
    if n == 0 {
      InitOk(b[0]);
      InitHistory(b[0]);
    } else {
      ReachableOk(b, n - 1);
      NextOk(b[n - 1], b[n]);
      HistoryGrows(b[n - 1], b[n]);
    }
  }

  lemma InitHistory(s: State)
    requires Init(s)
    ensures s.history == [s.contents]
  {
  }

  lemma HistoryGrows(s: State, s': State)
    requires Evolves(s, s')
    ensures s'.history == s.history + [s'.contents]
  {
  }

  // ---------- main results ----------

  /** No torn or stale read. However many readers interleave with the writer, store by store,
      a `Get` that returns a quote returns, in every word, the quote the abstract map held for
      that key at every moment between its two stamp loads, all of them within the call. */
  lemma NoTornOrStaleRead(b: seq<State>, n: nat, i: nat)
    requires Behavior(b) && n < |b| && i < |b[n].readers| && b[n].readers[i].RHit?
    ensures var r := b[n].readers[i];
            && r.code.Accepted() && r.since <= r.from <= r.to <= n
            && forall k: nat :: r.from <= k <= r.to ==>
                 r.code in b[k].contents && b[k].contents[r.code].words == r.words
  {
    hide TableOk;
    ReachableOk(b, n);
    TableShape(b[n]);
    assert ReaderOk(b[n], b[n].readers[i]);
  }

  /** A miss at an empty slot is right: the key was absent at every moment the slot was
      observed, although earlier slots were read at other times, during concurrent inserts. */
  lemma MissMeansAbsent(b: seq<State>, n: nat, i: nat)
    requires Behavior(b) && n < |b| && i < |b[n].readers| && b[n].readers[i].RMiss?
    ensures var r := b[n].readers[i];
            && r.code.Accepted() && r.since <= r.from <= r.to <= n
            && forall k: nat :: r.from <= k <= r.to ==> r.code !in b[k].contents
  {
    hide TableOk;
    ReachableOk(b, n);
    TableShape(b[n]);
    assert ReaderOk(b[n], b[n].readers[i]);
  }

  /** A `Put` is dropped only when every slot holds another key. */
  lemma DroppedOnlyWhenFull(b: seq<State>, n: nat)
    requires Behavior(b) && n < |b| && b[n].writer.WProbe? && b[n].writer.probe >= b[n].Count()
    ensures b[n].writer.code !in b[n].contents && |b[n].contents| == b[n].Count()
  {
    hide Path, WellFormed, KeySet, AtRest;
    ReachableOk(b, n);
    var s := b[n];
    ProbeFailsOnlyWhenFull(s.owners, s.writer.code);
    assert |s.contents| == |s.contents.Keys|;
  }

  /** A slot's key is permanent, and an even, unchanged stamp means an unchanged slot: over
      any stretch of a run, not only one step. */
  lemma {:induction false} KeysArePermanent(b: seq<State>, m: nat, n: nat, x: nat)
    requires Behavior(b) && m <= n < |b| && x < b[m].Count()
    ensures b[n].Count() == b[m].Count() == |b[n].owners| == |b[m].owners|
    ensures b[m].slots[x].stamp <= b[n].slots[x].stamp
    ensures b[m].owners[x].Some? ==> b[n].owners[x] == b[m].owners[x]
    ensures b[m].slots[x].stamp == b[n].slots[x].stamp && b[m].slots[x].stamp % 2 == 0 ==>
              b[m].slots[x] == b[n].slots[x]
    decreases n - m
  {
    hide Init, Next, TableOk;
    ReachableOk(b, m);
    TableShape(b[m]);
    if m < n {
      KeysArePermanent(b, m, n - 1, x);
      ReachableOk(b, n - 1);
      NextOk(b[n - 1], b[n]);
      assert SlotEvolves(b[n - 1], b[n], x);
    }
  }

  lemma TableShape(s: State)
    requires TableOk(s)
    ensures |s.owners| == s.Count()
  {
  }
}
