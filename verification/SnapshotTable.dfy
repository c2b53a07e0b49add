/** The quote table used by one process at a time: written in place, slot by slot, and proved
    to be a bounded map. The protocol between one writer and many readers is in
    SnapshotProtocol. */
module SnapshotTable {
  import opened BoundedMap
  import opened Bytes
  import opened Options
  import opened SnapshotLayout
  import opened Probing

  /** One slot as it lies in memory. */
  datatype Slot = Slot(stamp: nat, key: seq<Byte>, quote: Quote, flags: nat)

  /** The slot's memory is what its owner and the map say. */
  ghost predicate Holds(slot: Slot, owner: Option<Code>, contents: map<Code, Quote>) {
    && slot.stamp % 2 == 0
    && match owner
       case None => slot.key == Zeros(CODE_BYTES)
       case Some(c) => && c.Accepted() && c.Text() && slot.key == Padded(c)
                       && c in contents && slot.quote == contents[c]
  }

  /** The whole table: the slots hold what the owners and the map say, and probing works. */
  ghost predicate TableHolds(slots: seq<Slot>, owners: Owners, contents: map<Code, Quote>) {
    && |slots| == |owners|
    && WellFormed(owners)
    && contents.Keys == KeySet(owners)
    && forall i :: 0 <= i < |slots| ==> Holds(slots[i], owners[i], contents)
  }

  lemma OthersStillHold(slot: Slot, owner: Option<Code>, contents: map<Code, Quote>, c: Code, q: Quote)
    requires Holds(slot, owner, contents) && owner != Some(c)
    ensures Holds(slot, owner, contents[c := q])
  {
  }

  lemma OthersHold(slots: seq<Slot>, owners: Owners, contents: map<Code, Quote>, x: nat, c: Code, q: Quote)
    requires |slots| == |owners| && forall i: nat :: i < |slots| ==> Holds(slots[i], owners[i], contents)
    requires forall i: nat :: i < |owners| && i != x ==> owners[i] != Some(c)
    ensures forall i: nat :: i < |slots| && i != x ==> Holds(slots[i], owners[i], contents[c := q])
  {
    hide Holds;
    forall i: nat | i < |slots| && i != x ensures Holds(slots[i], owners[i], contents[c := q]) {
      OthersStillHold(slots[i], owners[i], contents, c, q);
    }
  }

  lemma OwnersAfterStore(owners: Owners, c: Code, probe: nat)
    requires WellFormed(owners) && probe < |owners| && Probe(owners, c, 0) == Some(probe)
    ensures var x := Path(|owners|, c, probe);
            && WellFormed(owners[x := Some(c)]) && KeySet(owners[x := Some(c)]) == KeySet(owners) + {c}
            && forall i: nat :: i < |owners| && i != x ==> owners[i] != Some(c)
  {
    hide Path, WellFormed, KeySet;
    StoreKeepsWellFormed(owners, c, probe);
    StoredNowhereElse(owners, Path(|owners|, c, probe), c);
  }

  lemma WrittenHolds(stamp: nat, c: Code, q: Quote, contents: map<Code, Quote>)
    requires stamp % 2 == 0 && c.Accepted() && c.Text()
    ensures Holds(Slot(stamp + 2, Padded(c), q, 1), Some(c), contents[c := q])
  {
    hide Padded;
  }

  /** Writing the slot where a key's probe stops keeps the table and changes that key only. */
  lemma StoreHolds(slots: seq<Slot>, owners: Owners, contents: map<Code, Quote>, c: Code, probe: nat, written: Slot)
    requires TableHolds(slots, owners, contents) && probe < |owners| && Probe(owners, c, 0) == Some(probe)
    requires Holds(written, Some(c), contents[c := written.quote])
    ensures var x := Path(|owners|, c, probe);
            TableHolds(slots[x := written], owners[x := Some(c)], contents[c := written.quote])
  {
    hide Path, WellFormed, KeySet, Probe, Holds;
    OwnersAfterStore(owners, c, probe);
    OthersHold(slots, owners, contents, Path(|owners|, c, probe), c, written.quote);
  }

  class SnapshotTable {
    const count: nat
    const slots: array<Slot>
    ghost var owners: Owners
    ghost var contents: map<Code, Quote>

    ghost predicate Valid()
      reads this, slots
    {
      slots.Length == count && TableHolds(slots[..], owners, contents)
    }

    /** A freshly zeroed segment. */
    constructor (count: nat)
      ensures Valid() && this.count == count && contents == map[] && fresh(slots)
    {
      this.count := count;
      slots := new Slot[count](_ => Slot(0, Zeros(CODE_BYTES), Quote([]), 0));
      owners := seq(count, _ => None);
      contents := map[];
    }

    /** What a comparison with a slot's key buffer tells about the key stored there. */
    lemma SlotDecides(i: nat, c: Code)
      requires Valid() && i < count && c.Accepted() && c.Text()
      ensures i < slots.Length && i < |owners|
      ensures |slots[i].key| == CODE_BYTES && slots[i].stamp % 2 == 0
      ensures slots[i].key[0] == 0 <==> owners[i].None?
      ensures slots[i].key[0] != 0 && Matches(slots[i].key, c) <==> owners[i] == Some(c)
      ensures owners[i] == Some(c) ==> c in contents && slots[i].quote == contents[c]
    {
      hide WellFormed, Path, Matches, Padded;
      assert Holds(slots[..][i], owners[i], contents);
      if owners[i].Some? {
        MatchesIsKeyEquality(owners[i].value, c);
      }
    }

    method HomeSlot(c: Code) returns (idx: nat)
      requires 0 < count
      ensures forall p: nat :: (idx + p) % count == Path(count, c, p)
    {
      var h := Hash(c.bytes);
      idx := h % count;
    }

    /** `Put` is `BoundedPut` on the map the table stands for: it changes its own key only,
        a new key on a full table is dropped, and a stored key always updates. */
    method Put(c: Code, q: Quote)
      requires Valid() && c.Text()
      modifies this, slots
      ensures Valid()
      ensures contents == if 1 <= |c.bytes| <= 7 then BoundedPut(old(contents), count, c, q) else old(contents)
    {
      hide Path, WellFormed, KeySet, Matches;
      ProbeFailsOnlyWhenFull(owners, c);
      assert |contents| == |contents.Keys|;
      if !c.Accepted() || count == 0 {
        return;
      }
      var idx := HomeSlot(c);
      for probe := 0 to count
        invariant unchanged(this, slots)
        invariant Probe(owners, c, 0) == Probe(owners, c, probe)
      {
        var slot := (idx + probe) % count;
        SlotDecides(slot, c);
        var existing := slots[slot].key;
        var empty := existing[0] == 0;
        var match_ := !empty && Matches(existing, c);
        if !empty && !match_ {
          continue;
        }
        Store(slot, c, q, probe);
        return;
      }
    }

    /** The stores of the seqlock: stamp odd, payload, stamp even. */
    method WriteSlot(slot: nat, c: Code, q: Quote)
      requires slot < slots.Length && c.Accepted()
      modifies slots
      ensures slots[..] == old(slots[..])[slot := Slot(old(slots[slot].stamp) + 2, Padded(c), q, 1)]
    {
      hide Padded;
      var s0 := slots[slot].stamp;
      slots[slot] := slots[slot].(stamp := s0 + 1);
      slots[slot] := slots[slot].(key := Padded(c));
      slots[slot] := slots[slot].(quote := q);
      slots[slot] := slots[slot].(flags := 1);
      slots[slot] := slots[slot].(stamp := s0 + 2);
    }

    /** A complete write of the slot where the probe stopped. */
    method Store(slot: nat, c: Code, q: Quote, ghost probe: nat)
      requires Valid() && c.Accepted() && c.Text()
      requires probe < count && slot == Path(count, c, probe)
      requires Probe(owners, c, 0) == Some(probe)
      modifies this, slots
      ensures Valid()
      ensures owners == old(owners)[slot := Some(c)] && contents == old(contents)[c := q]
      ensures slots[..] == old(slots[..])[slot := Slot(old(slots[slot].stamp) + 2, Padded(c), q, 1)]
    {
      hide Path, TableHolds, Holds, Padded, Probe;
      Shape(slot);
      WrittenHolds(slots[slot].stamp, c, q, contents);
      StoreHolds(slots[..], owners, contents, c, probe, Slot(slots[slot].stamp + 2, Padded(c), q, 1));
      WriteSlot(slot, c, q);
      owners := owners[slot := Some(c)];
      contents := contents[c := q];
    }

    lemma Shape(i: nat)
      requires Valid() && i < count
      ensures slots.Length == |owners| == count && slots[i].stamp % 2 == 0
    {
      assert Holds(slots[..][i], owners[i], contents);
    }

    /** With no writer at work nothing is torn: the answer is the map's. */
    method Get(c: Code) returns (r: Option<Quote>)
      requires Valid() && c.Text()
      ensures r == if 1 <= |c.bytes| <= 7 && c in contents then Some(contents[c]) else None
    {
      hide Path, WellFormed, KeySet, Matches;
      ProbeFailsOnlyWhenFull(owners, c);
      if !c.Accepted() || count == 0 {
        return None;
      }
      for retry := 0 to 8
        invariant retry == 0 || c !in contents
      {
        var idx := HomeSlot(c);
        for probe := 0 to count
          invariant Probe(owners, c, 0) == Probe(owners, c, probe)
        {
          var slot := (idx + probe) % count;
          SlotDecides(slot, c);
          var s1 := slots[slot].stamp;
          if s1 % 2 == 1 {
            break;
          }
          var key := slots[slot].key;
          var copy := slots[slot].quote;
          var s2 := slots[slot].stamp;
          if s1 != s2 {
            break;
          }
          if key[0] == 0 {
            ProbeStopsAt(owners, c, probe);
            return None;
          }
          if Matches(key, c) {
            return Some(copy);
          }
        }
      }
      return None;
    }
  }

  /** An empty slot at the end of a probe proves the key absent. */
  lemma ProbeStopsAt(ks: Owners, c: Code, p: nat)
    requires WellFormed(ks) && p < |ks| && Probe(ks, c, 0) == Probe(ks, c, p)
    requires ks[Path(|ks|, c, p)].None?
    ensures c !in KeySet(ks)
  {
    hide Path, WellFormed;
    assert Stops(ks, c, p);
    forall j: nat | j < p ensures ks[Path(|ks|, c, j)] != Some(c) {
      assert !Stops(ks, c, j);
    }
    EmptySlotProvesAbsence(ks, c, p);
  }

  // ---------- whole runs ----------

  /** A run of `Put`s on a fresh table: its map is that of the run, so while at most `count`
      distinct codes are put, `Get` returns the last value put. */
  method PutAll(count: nat, puts: seq<Entry>) returns (table: SnapshotTable)
    requires forall e :: e in puts ==> e.code.Text()
    ensures table.Valid() && table.count == count && fresh(table)
    ensures table.contents == AllPuts(count, puts)
    ensures |CodesPut(puts)| <= count ==> forall c: Code :: 1 <= |c.bytes| <= 7 ==>
              LastPut(puts, c) == if c in table.contents then Some(table.contents[c]) else None
  {
    hide SnapshotTable.Valid, AllPuts, LastPut, CodesPut;
    table := new SnapshotTable(count);
    EmptyRun(count);
    for i := 0 to |puts|
      invariant table.Valid() && table.count == count && fresh(table) && fresh(table.slots)
      invariant table.contents == AllPuts(count, puts[..i])
    {
      PutsSnoc(count, puts[..i], puts[i]);
      assert puts[..i + 1] == puts[..i] + [puts[i]];
      table.Put(puts[i].code, puts[i].quote);
    }
    assert puts[..|puts|] == puts;
    if |CodesPut(puts)| <= count {
      RunReturnsLastPut(count, puts);
    }
  }

  lemma EmptyRun(capacity: nat)
    ensures AllPuts(capacity, []) == map[]
  {
  }
}
