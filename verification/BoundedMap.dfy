/** A map that takes at most so many keys, and runs of puts on it: what the quote table is for. */
module BoundedMap {
  import opened Options
  import opened SnapshotLayout

  /** A new key on a full map is dropped; a stored key always updates. */
  function BoundedPut(m: map<Code, Quote>, capacity: nat, c: Code, q: Quote): map<Code, Quote> {
    if c in m || |m| < capacity then m[c := q] else m
  }

  datatype Entry = Entry(code: Code, quote: Quote)

  /** The map after a run of `Put`s on a fresh table of `capacity` slots; an empty or over-long
      code is ignored. */
  function AllPuts(capacity: nat, puts: seq<Entry>): map<Code, Quote> {
    if puts == [] then map[]
    else
      var last := puts[|puts| - 1];
      var before := AllPuts(capacity, puts[..|puts| - 1]);
      if last.code.Accepted() then BoundedPut(before, capacity, last.code, last.quote) else before
  }

  ghost function CodesPut(puts: seq<Entry>): set<Code> { set e | e in puts && e.code.Accepted() :: e.code }

  /** The quote of the last put of `c`, if there is one. */
  function LastPut(puts: seq<Entry>, c: Code): Option<Quote> {
    if puts == [] then None
    else if puts[|puts| - 1].code == c then Some(puts[|puts| - 1].quote)
    else LastPut(puts[..|puts| - 1], c)
  }

  lemma PutsSnoc(capacity: nat, puts: seq<Entry>, e: Entry)
    ensures AllPuts(capacity, puts + [e])
         == if e.code.Accepted() then BoundedPut(AllPuts(capacity, puts), capacity, e.code, e.quote)
            else AllPuts(capacity, puts)
  {
    assert (puts + [e])[..|puts|] == puts;
  }

  lemma SubsetSize(a: set<Code>, b: set<Code>)
    requires a <= b
    ensures |a| <= |b|
    ensures a != b ==> |a| < |b|
  {
    assert b == a + (b - a);
  }

  /** While at most `capacity` distinct codes are put, every code that is not ignored has the
      last value put. */
  lemma {:induction false} RunReturnsLastPut(capacity: nat, puts: seq<Entry>)
    requires |CodesPut(puts)| <= capacity
    ensures AllPuts(capacity, puts).Keys == CodesPut(puts)
    ensures forall c: Code :: c.Accepted() ==>
              LastPut(puts, c) == if c in AllPuts(capacity, puts) then Some(AllPuts(capacity, puts)[c]) else None
  {
    if puts != [] {
      var front, last := puts[..|puts| - 1], puts[|puts| - 1];
      assert puts == front + [last];
      assert CodesPut(puts) == CodesPut(front) + if last.code.Accepted() then {last.code} else {};
      SubsetSize(CodesPut(front), CodesPut(puts));
      RunReturnsLastPut(capacity, front);
    }
  }

  /** Once full, the key set never changes again: new keys are dropped, stored ones update. */
  lemma {:induction false} FullTableKeepsItsKeys(capacity: nat, puts: seq<Entry>, more: seq<Entry>)
    requires |AllPuts(capacity, puts)| == capacity
    ensures AllPuts(capacity, puts + more).Keys == AllPuts(capacity, puts).Keys
    ensures forall c: Code :: c in AllPuts(capacity, puts) ==>
              c.Accepted() &&
              AllPuts(capacity, puts + more)[c]
                == match LastPut(more, c) case None => AllPuts(capacity, puts)[c] case Some(q) => q
  {
    KeysAreAccepted(capacity, puts);
    if more == [] {
      assert puts + more == puts;
    } else {
      var front, last := more[..|more| - 1], more[|more| - 1];
      assert puts + more == (puts + front) + [last];
      FullTableKeepsItsKeys(capacity, puts, front);
      PutsSnoc(capacity, puts + front, last);
      SameSize(AllPuts(capacity, puts + front), AllPuts(capacity, puts));
      hide AllPuts;
    }
  }

  lemma SameSize(a: map<Code, Quote>, b: map<Code, Quote>)
    requires a.Keys == b.Keys
    ensures |a| == |b|
  {
    assert |a| == |a.Keys| && |b| == |b.Keys|;
  }

  lemma {:induction false} KeysAreAccepted(capacity: nat, puts: seq<Entry>)
    ensures forall c :: c in AllPuts(capacity, puts) ==> c.Accepted()
  {
    if puts != [] {
      KeysAreAccepted(capacity, puts[..|puts| - 1]);
    }
  }
}
