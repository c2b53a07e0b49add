/** Linear probing over the keys of the quote table: which slot holds which key, and why a
    probe that meets an empty slot may stop. */
module Probing {
  import opened Options
  import opened SnapshotLayout

  /** What each slot holds: nothing, or a key. */
  type Owners = seq<Option<Code>>

  predicate Stops(ks: Owners, c: Code, probe: nat)
    requires probe < |ks|
  {
    var s := ks[Path(|ks|, c, probe)];
    s.None? || s.value == c
  }

  /** First probe from `from` on that finds an empty slot or the key itself. */
  function Probe(ks: Owners, c: Code, from: nat): (r: Option<nat>)
    ensures r.Some? ==> from <= r.value < |ks| && Stops(ks, c, r.value)
    ensures r.Some? ==> forall j :: from <= j < r.value ==> !Stops(ks, c, j)
    ensures r.None? ==> forall j :: from <= j < |ks| ==> !Stops(ks, c, j)
    decreases |ks| - from
  {
    if from >= |ks| then None
    else if Stops(ks, c, from) then Some(from)
    else Probe(ks, c, from + 1)
  }

  /** Probe `p` is the key's own slot and every slot before it on its path is occupied. */
  predicate Reached(ks: Owners, c: Code, p: nat) {
    && p < |ks|
    && ks[Path(|ks|, c, p)] == Some(c)
    && forall j: nat :: j < p ==> ks[Path(|ks|, c, j)].Some?
  }

  ghost predicate Unique(ks: Owners) {
    forall x, y | 0 <= x < |ks| && 0 <= y < |ks| && ks[x].Some? && ks[x] == ks[y] :: x == y
  }

  ghost predicate WellFormed(ks: Owners) {
    && Unique(ks)
    && forall x | 0 <= x < |ks| && ks[x].Some? :: exists p: nat :: Reached(ks, ks[x].value, p)
  }

  ghost function KeysUpTo(ks: Owners, n: nat): set<Code>
    requires n <= |ks|
  {
    set x | 0 <= x < n && ks[x].Some? :: ks[x].value
  }

  ghost function KeySet(ks: Owners): set<Code> { KeysUpTo(ks, |ks|) }

  /** A stored key is found: nothing before its slot stops the probe. */
  lemma StoredKeyIsFound(ks: Owners, c: Code) returns (p: nat)
    requires WellFormed(ks) && c in KeySet(ks)
    ensures Reached(ks, c, p) && Probe(ks, c, 0) == Some(p)
  {
    hide Path;
    var x :| 0 <= x < |ks| && ks[x] == Some(c);
    p :| Reached(ks, c, p);
    assert Stops(ks, c, p);
    forall j: nat | j < p ensures !Stops(ks, c, j) {
      if Stops(ks, c, j) {
        assert Path(|ks|, c, j) == Path(|ks|, c, p);
        PathInjective(|ks|, c, j, p);
        assert false;
      }
    }
  }

  /** If other keys occupy the path up to an empty slot, the key is nowhere in the table:
      a reader may stop there. */
  lemma EmptySlotProvesAbsence(ks: Owners, c: Code, p: nat)
    requires WellFormed(ks) && p < |ks| && ks[Path(|ks|, c, p)].None?
    requires forall j: nat :: j < p ==> ks[Path(|ks|, c, j)] != Some(c)
    ensures c !in KeySet(ks)
  {
  }

  // ---------- capacity ----------

  ghost function Empties(ks: Owners, n: nat): (r: nat)
    requires n <= |ks|
    ensures r == 0 <==> forall x :: 0 <= x < n ==> ks[x].Some?
  {
    if n == 0 then 0 else Empties(ks, n - 1) + if ks[n - 1].None? then 1 else 0
  }

  /** Distinct keys and empty slots add up to the size. */
  lemma {:induction false} KeyCount(ks: Owners, n: nat)
    requires Unique(ks) && n <= |ks|
    ensures |KeysUpTo(ks, n)| + Empties(ks, n) == n
  {
    if n > 0 {
      KeyCount(ks, n - 1);
      if ks[n - 1].Some? {
        assert ks[n - 1].value !in KeysUpTo(ks, n - 1);
        assert KeysUpTo(ks, n) == KeysUpTo(ks, n - 1) + {ks[n - 1].value};
      } else {
        assert KeysUpTo(ks, n) == KeysUpTo(ks, n - 1);
      }
    }
  }

  /** Probing fails exactly when the table is full of other keys. */
  lemma ProbeFailsOnlyWhenFull(ks: Owners, c: Code)
    requires WellFormed(ks)
    ensures Probe(ks, c, 0).None? <==> c !in KeySet(ks) && |KeySet(ks)| == |ks|
    ensures |KeySet(ks)| <= |ks|
  {
    hide Path, Stops, WellFormed;
    KeysFit(ks, c);
    if Probe(ks, c, 0).None? {
      forall x | 0 <= x < |ks| ensures ks[x].Some? && ks[x] != Some(c) {
        var p := PathCovers(|ks|, c, x);
        assert !Stops(ks, c, p);
        PassedSlot(ks, c, p);
      }
    } else {
      RoomWhereStopped(ks, c, Probe(ks, c, 0).value);
    }
  }

  lemma PassedSlot(ks: Owners, c: Code, p: nat)
    requires p < |ks| && !Stops(ks, c, p)
    ensures ks[Path(|ks|, c, p)].Some? && ks[Path(|ks|, c, p)] != Some(c)
  {
  }

  lemma KeysFit(ks: Owners, c: Code)
    requires WellFormed(ks)
    ensures |KeySet(ks)| <= |ks|
    ensures (forall x :: 0 <= x < |ks| ==> ks[x].Some? && ks[x] != Some(c)) ==> c !in KeySet(ks) && |KeySet(ks)| == |ks|
  {
    KeyCount(ks, |ks|);
  }

  lemma RoomWhereStopped(ks: Owners, c: Code, p: nat)
    requires WellFormed(ks) && p < |ks| && Stops(ks, c, p)
    ensures c in KeySet(ks) || |KeySet(ks)| < |ks|
  {
    hide Path;
    KeyCount(ks, |ks|);
  }

  /** Storing a key where its probe stops keeps the table well formed and adds that key only. */
  lemma StoreKeepsWellFormed(ks: Owners, c: Code, p: nat)
    requires WellFormed(ks) && p < |ks| && Stops(ks, c, p)
    requires forall j: nat :: j < p ==> !Stops(ks, c, j)
    ensures WellFormed(ks[Path(|ks|, c, p) := Some(c)]) && Unique(ks[Path(|ks|, c, p) := Some(c)])
    ensures KeySet(ks[Path(|ks|, c, p) := Some(c)]) == KeySet(ks) + {c}
  {
    hide Path;
    var slot := Path(|ks|, c, p);
    var r := ks[slot := Some(c)];
    if ks[slot].Some? {
      assert r == ks;
    } else {
      forall j: nat | j < p ensures ks[Path(|ks|, c, j)] != Some(c) { assert !Stops(ks, c, j); }
      EmptySlotProvesAbsence(ks, c, p);
      StoreKeepsReached(ks, c, p);
    }
    StoreAddsKey(ks, slot, c);
  }

  lemma StoredNowhereElse(ks: Owners, slot: nat, c: Code)
    requires slot < |ks| && Unique(ks[slot := Some(c)])
    ensures forall i: nat :: i < |ks| && i != slot ==> ks[i] != Some(c)
  {
    var after := ks[slot := Some(c)];
    forall i: nat | i < |ks| && i != slot ensures ks[i] != Some(c) {
      assert after[i] == ks[i] && after[slot] == Some(c);
    }
  }

  lemma StoreAddsKey(ks: Owners, slot: nat, c: Code)
    requires slot < |ks| && (ks[slot].None? || ks[slot] == Some(c))
    ensures KeySet(ks[slot := Some(c)]) == KeySet(ks) + {c}
  {
    var r := ks[slot := Some(c)];
    forall k: Code ensures k in KeySet(r) <==> k in KeySet(ks) + {c} {
      if k in KeySet(ks) {
        var x :| 0 <= x < |ks| && ks[x] == Some(k);
        assert r[x] == Some(k);
      }
      if k == c {
        assert r[slot] == Some(k);
      }
    }
  }

  lemma StoreKeepsReached(ks: Owners, c: Code, p: nat)
    requires WellFormed(ks) && p < |ks| && ks[Path(|ks|, c, p)].None? && c !in KeySet(ks)
    requires forall j: nat :: j < p ==> !Stops(ks, c, j)
    ensures WellFormed(ks[Path(|ks|, c, p) := Some(c)])
  {
    hide Path;
    var slot := Path(|ks|, c, p);
    var r := ks[slot := Some(c)];
    assert Unique(r) by {
      assert forall x :: 0 <= x < |ks| ==> ks[x] != Some(c);
    }
    forall x | 0 <= x < |r| && r[x].Some? ensures exists p': nat :: Reached(r, r[x].value, p') {
      if x == slot {
        forall j: nat | j < p ensures r[Path(|r|, c, j)].Some? { assert !Stops(ks, c, j); }
        assert Reached(r, c, p);
      } else {
        var p': nat :| Reached(ks, ks[x].value, p');
        assert Reached(r, r[x].value, p');
      }
    }
  }
}
