/** Strided sharding of a code list over workers: the batch loop of the quote collector, whose
    cursor advances by the number of codes it accepted, and the plain loop of the K-line
    fetcher. */
module Shards {
  import opened MarketCode
  import opened Sequences

  // ---------- shards ----------

  /** The indices `from`, `from + n`, `from + 2n`, ... below `len`. */
  function Shard(len: nat, n: nat, from: nat): (r: seq<nat>)
    requires 0 < n
    ensures from >= len ==> r == []
    ensures from < len ==> r != [] && r[0] == from
    decreases if from < len then len - from else 0
  {
    if from >= len then [] else [from] + Shard(len, n, from + n)
  }

  lemma {:induction false} ShardSuffix(len: nat, n: nat, from: nat, k: nat)
    requires 0 < n && k <= |Shard(len, n, from)|
    ensures Shard(len, n, from + k * n) == Shard(len, n, from)[k..]
    decreases k
  {
    if k > 0 {
      ShardSuffix(len, n, from + n, k - 1);
      assert from + n + (k - 1) * n == from + k * n;
    } else {
      assert from + 0 * n == from;
    }
  }

  lemma {:induction false} ShardMembers(len: nat, n: nat, from: nat, i: nat)
    requires 0 < n
    ensures i in Shard(len, n, from) <==> from <= i < len && (i - from) % n == 0
    decreases if from < len then len - from else 0
  {
    if from < len {
      ShardMembers(len, n, from + n, i);
      assert i in Shard(len, n, from) <==> i == from || i in Shard(len, n, from + n);
      Stride(from, n, i);
    }
  }

  lemma Stride(from: nat, n: nat, i: nat)
    requires 0 < n
    ensures (from <= i && (i - from) % n == 0) <==> (i == from || (from + n <= i && (i - (from + n)) % n == 0))
  {
    if from + n <= i {
      ModShift(i - (from + n), n);
    } else if from <= i {
      SmallMod(i - from, n);
    }
  }

  lemma ModShift(x: nat, n: nat)
    requires 0 < n
    ensures (x + n) % n == x % n
  {
    assert x + n == n * (x / n + 1) + x % n;
    ModUnique(x + n, x / n + 1, x % n, n);
  }

  lemma ModUnique(x: nat, q: nat, r: nat, n: nat)
    requires r < n && x == n * q + r
    ensures x % n == r
  {
    var q', r' := x / n, x % n;
    assert n * q' + r' == n * q + r;
    if q' < q {
      MulGap(n, q', q);
    } else if q < q' {
      MulGap(n, q, q');
    }
  }

  lemma MulGap(n: nat, a: nat, b: nat)
    requires a < b
    ensures n * a + n <= n * b
  {
    var d: nat := b - a - 1;
    assert b == a + 1 + d;
    assert n * (a + 1 + d) == n * a + n + n * d;
    assert 0 <= n * d;
  }

  predicate Ascending(s: seq<nat>) { forall i, j :: 0 <= i < j < |s| ==> s[i] < s[j] }

  lemma {:induction false} ShardAscends(len: nat, n: nat, from: nat)
    requires 0 < n
    ensures Ascending(Shard(len, n, from))
    decreases if from < len then len - from else 0
  {
    if from < len {
      var tail := Shard(len, n, from + n);
      ShardAscends(len, n, from + n);
      forall j | 0 <= j < |tail| ensures from < tail[j] {
        ShardMembers(len, n, from + n, tail[j]);
      }
    }
  }

  /** The shards of `n` workers partition the indices: index `i` is in the shard of worker
      `i % n` and no other, at one position. */
  lemma ShardsPartition(len: nat, n: nat, i: nat)
    requires 0 < n && i < len
    ensures forall w: nat :: w < n ==> (i in Shard(len, n, w) <==> w == i % n)
    ensures Ascending(Shard(len, n, i % n))
  {
    ShardAscends(len, n, i % n);
    forall w: nat | w < n ensures i in Shard(len, n, w) <==> w == i % n {
      ShardMembers(len, n, w, i);
      var q, r := i / n, i % n;
      assert i == n * q + r;
      if w <= i {
        Congruent(i, w, n);
      } else {
        SmallMod(i, n);
      }
    }
  }

  lemma SmallMod(i: nat, n: nat)
    requires 0 < n
    ensures i % n <= i && i % n < n && (i < n ==> i % n == i)
  {
  }

  lemma Congruent(i: nat, w: nat, n: nat)
    requires 0 < n && w <= i && w < n
    ensures (i - w) % n == 0 <==> w == i % n
  {
    if (i - w) % n == 0 {
      ModUnique(i, (i - w) / n, w, n);
    }
    if w == i % n {
      ModUnique(i - w, i / n, 0, n);
    }
  }

  // ---------- the batch loop on one shard ----------

  type Accepts = nat -> bool

  /** The accepted members of `s`, in order. */
  function Filter(s: seq<nat>, ok: Accepts): (r: seq<nat>)
    ensures |r| <= |s|
    ensures forall x :: x in r <==> x in s && ok(x)
    ensures |r| == |s| <==> forall x :: x in s ==> ok(x)
  {
    if s == [] then []
    else
      assert s == [s[0]] + s[1..];
      var r := Filter(s[1..], ok);
      if ok(s[0]) then [s[0]] + r else r
  }

  function Window(s: seq<nat>, b: nat): seq<nat> { if |s| <= b then s else s[..b] }

  /** One turn of the loop: the window's accepted codes are requested, and the cursor moves by
      their number. */
  function Batch(s: seq<nat>, b: nat, ok: Accepts): seq<nat> { Filter(Window(s, b), ok) }

  function Remaining(s: seq<nat>, b: nat, ok: Accepts, turns: nat): seq<nat>
    decreases turns
  {
    if turns == 0 then s else Remaining(s[|Batch(s, b, ok)|..], b, ok, turns - 1)
  }

  ghost predicate Terminates(s: seq<nat>, b: nat, ok: Accepts) { exists turns: nat :: Remaining(s, b, ok, turns) == [] }

  /** From every position of the shard, some code of the window that starts there parses. */
  ghost predicate EveryWindowAccepts(s: seq<nat>, b: nat, ok: Accepts) {
    forall j :: 0 <= j < |s| ==> Batch(s[j..], b, ok) != []
  }

  lemma SuffixAccepts(s: seq<nat>, b: nat, ok: Accepts, k: nat)
    requires EveryWindowAccepts(s, b, ok) && k <= |s|
    ensures EveryWindowAccepts(s[k..], b, ok)
  {
  }

  lemma {:induction false} AcceptingTerminates(s: seq<nat>, b: nat, ok: Accepts)
    requires EveryWindowAccepts(s, b, ok)
    ensures Terminates(s, b, ok)
    decreases |s|
  {
    if s == [] {
      assert Remaining(s, b, ok, 0) == [];
    } else {
      assert s[0..] == s;
      var k := |Batch(s, b, ok)|;
      SuffixAccepts(s, b, ok, k);
      AcceptingTerminates(s[k..], b, ok);
      var turns: nat :| Remaining(s[k..], b, ok, turns) == [];
      assert Remaining(s, b, ok, turns + 1) == [];
    }
  }

  /** The cursor never gets past a window without accepted codes. */
  lemma {:induction false} StuckBefore(s: seq<nat>, b: nat, ok: Accepts, r: nat, turns: nat)
    requires r < |s| && Batch(s[r..], b, ok) == []
    ensures |Remaining(s, b, ok, turns)| >= |s| - r
    decreases turns
  {
    if turns > 0 {
      var k := |Batch(s, b, ok)|;
      FewAccepted(s, b, ok, r);
      assert s[k..][r - k..] == s[r..];
      StuckBefore(s[k..], b, ok, r - k, turns - 1);
    }
  }

  lemma FewAccepted(s: seq<nat>, b: nat, ok: Accepts, r: nat)
    requires r < |s| && Batch(s[r..], b, ok) == []
    ensures |Batch(s, b, ok)| <= r
  {
    var w := Window(s, b);
    if |w| > r {
      assert w == s[..r] + w[r..];
      FilterConcat(s[..r], w[r..], ok);
      forall x | x in w[r..] ensures !ok(x) {
        var i :| 0 <= i < |w[r..]| && w[r..][i] == x;
        assert x == Window(s[r..], b)[i];
      }
      assert Filter(w[r..], ok) == [] by { NoneAccepted(w[r..], ok); }
    }
  }

  lemma NoneAccepted(s: seq<nat>, ok: Accepts)
    requires forall x :: x in s ==> !ok(x)
    ensures Filter(s, ok) == []
  {
  }

  lemma {:induction false} FilterConcat(a: seq<nat>, b: seq<nat>, ok: Accepts)
    ensures Filter(a + b, ok) == Filter(a, ok) + Filter(b, ok)
  {
    if a == [] {
      assert a + b == b;
    } else {
      assert (a + b)[1..] == a[1..] + b;
      FilterConcat(a[1..], b, ok);
    }
  }

  /** A worker's loop ends exactly when every window of its shard holds a code that parses. */
  lemma TerminatesExactly(s: seq<nat>, b: nat, ok: Accepts)
    ensures Terminates(s, b, ok) <==> EveryWindowAccepts(s, b, ok)
  {
    if EveryWindowAccepts(s, b, ok) {
      AcceptingTerminates(s, b, ok);
    } else {
      var r :| 0 <= r < |s| && Batch(s[r..], b, ok) == [];
      forall turns: nat ensures Remaining(s, b, ok, turns) != [] {
        StuckBefore(s, b, ok, r, turns);
      }
    }
  }

  // ---------- what is requested ----------

  /** All codes requested in the first `turns` turns, in order, with repetitions. */
  function Gathered(s: seq<nat>, b: nat, ok: Accepts, turns: nat): (r: seq<nat>)
    ensures forall x :: x in r ==> x in s && ok(x)
    decreases turns
  {
    if turns == 0 || s == [] then []
    else
      assert forall x :: x in Window(s, b) ==> x in s;
      Batch(s, b, ok) + Gathered(s[|Batch(s, b, ok)|..], b, ok, turns - 1)
  }

  /** The requests of the first `turns` turns: one for each turn that accepts some code. */
  function Batches(s: seq<nat>, b: nat, ok: Accepts, turns: nat): seq<seq<nat>>
    decreases turns
  {
    if turns == 0 || s == [] then []
    else
      var batch := Batch(s, b, ok);
      (if batch == [] then [] else [batch]) + Batches(s[|batch|..], b, ok, turns - 1)
  }

  lemma BatchesUnfold(s: seq<nat>, b: nat, ok: Accepts, turns: nat)
    ensures turns == 0 || s == [] ==> Batches(s, b, ok, turns) == []
    ensures turns > 0 && s != [] ==>
              var batch := Batch(s, b, ok);
              && |batch| <= |s|
              && Batches(s, b, ok, turns)
                   == (if batch == [] then [] else [batch]) + Batches(s[|batch|..], b, ok, turns - 1)
  {
    hide Filter;
  }

  lemma BatchFits(s: seq<nat>, b: nat, ok: Accepts)
    ensures |Batch(s, b, ok)| <= b && |Batch(s, b, ok)| <= |s|
    ensures forall x :: x in Batch(s, b, ok) ==> x in s && ok(x)
    ensures (forall x :: x in s ==> ok(x)) ==> |Batch(s, b, ok)| == if |s| <= b then |s| else b
  {
    assert forall x :: x in Window(s, b) ==> x in s;
    if forall x :: x in s ==> ok(x) {
      FilterAll(Window(s, b), ok);
    }
    hide Filter;
  }

  /** No request is empty or for more than `b` codes, and all its codes are accepted ones. */
  lemma {:induction false} BatchesFit(s: seq<nat>, b: nat, ok: Accepts, turns: nat)
    ensures forall batch :: batch in Batches(s, b, ok, turns) ==>
              0 < |batch| <= b && forall x :: x in batch ==> x in s && ok(x)
    decreases turns
  {
    hide Batch, Batches;
    BatchesUnfold(s, b, ok, turns);
    if turns > 0 && s != [] {
      var k := |Batch(s, b, ok)|;
      BatchFits(s, b, ok);
      var rest := s[k..];
      assert forall x :: x in rest ==> x in s;
      BatchesFit(rest, b, ok, turns - 1);
    }
  }

  /** When all codes parse, every request but the last takes all the codes it may. */
  lemma {:induction false} BatchesAreFull(s: seq<nat>, b: nat, ok: Accepts, turns: nat)
    requires forall x :: x in s ==> ok(x)
    ensures forall k :: 0 <= k < |Batches(s, b, ok, turns)| - 1 ==> |Batches(s, b, ok, turns)[k]| == b
    decreases turns
  {
    hide Batch, Batches;
    BatchesUnfold(s, b, ok, turns);
    if turns > 0 && s != [] {
      BatchFits(s, b, ok);
      var k := |Batch(s, b, ok)|;
      BatchesUnfold(s[k..], b, ok, turns - 1);
      BatchesAreFull(s[k..], b, ok, turns - 1);
    }
  }

  lemma Turn(s: seq<nat>, b: nat, ok: Accepts, turns: nat)
    requires s != [] && turns > 0
    ensures var batch := Batch(s, b, ok);
            && |batch| <= |s|
            && Gathered(s, b, ok, turns) == batch + Gathered(s[|batch|..], b, ok, turns - 1)
            && Remaining(s, b, ok, turns) == Remaining(s[|batch|..], b, ok, turns - 1)
            && Batches(s, b, ok, turns)
                 == (if batch == [] then [] else [batch]) + Batches(s[|batch|..], b, ok, turns - 1)
  {
  }

  lemma {:induction false} LoopLeft(s: seq<nat>, b: nat, ok: Accepts, turns: nat)
    requires s == [] || turns == 0
    ensures Gathered(s, b, ok, turns) == [] && Remaining(s, b, ok, turns) == s && Batches(s, b, ok, turns) == []
    decreases turns
  {
    if turns > 0 {
      LoopLeft(s[|Batch(s, b, ok)|..], b, ok, turns - 1);
    }
  }

  /** The cursor has moved by as many positions as codes were requested. */
  lemma {:induction false} CursorCountsRequests(s: seq<nat>, b: nat, ok: Accepts, turns: nat)
    ensures |Gathered(s, b, ok, turns)| + |Remaining(s, b, ok, turns)| == |s|
    decreases turns
  {
    hide Gathered, Remaining, Batch;
    if turns == 0 || s == [] {
      LoopLeft(s, b, ok, turns);
    } else {
      Turn(s, b, ok, turns);
      CursorCountsRequests(s[|Batch(s, b, ok)|..], b, ok, turns - 1);
    }
  }

  lemma {:induction false} AllParsedOnce(s: seq<nat>, b: nat, ok: Accepts, turns: nat)
    requires forall x :: x in s ==> ok(x)
    ensures Gathered(s, b, ok, turns) + Remaining(s, b, ok, turns) == s
    decreases turns
  {
    hide Gathered, Remaining, Window, Filter;
    if turns == 0 || s == [] {
      LoopLeft(s, b, ok, turns);
    } else {
      var w := Window(s, b);
      WindowIsPrefix(s, b);
      FilterAll(w, ok);
      Turn(s, b, ok, turns);
      AllParsedOnce(s[|w|..], b, ok, turns - 1);
      Associative(w, Gathered(s[|w|..], b, ok, turns - 1), Remaining(s, b, ok, turns));
    }
  }

  lemma WindowIsPrefix(s: seq<nat>, b: nat)
    ensures var w := Window(s, b);
            |w| <= |s| && w + s[|w|..] == s && forall x :: x in w || x in s[|w|..] ==> x in s
  {
  }

  lemma {:induction false} FilterAll(s: seq<nat>, ok: Accepts)
    requires forall x :: x in s ==> ok(x)
    ensures Filter(s, ok) == s
  {
    if s != [] {
      FilterAll(s[1..], ok);
    }
  }

  predicate NoRepeats(s: seq<nat>) { forall i, j :: 0 <= i < j < |s| ==> s[i] != s[j] }

  ghost function Members(s: seq<nat>): set<nat> { set x | x in s }

  lemma {:induction false} MemberCount(s: seq<nat>)
    ensures |Members(s)| <= |s|
    ensures NoRepeats(s) ==> |Members(s)| == |s|
  {
    if s != [] {
      var front, last := s[..|s| - 1], s[|s| - 1];
      assert s == front + [last];
      MemberCount(front);
      assert Members(s) == Members(front) + {last};
    }
  }

  /** Of a loop that ends: every code of the shard is requested exactly once, in order, when
      all codes parse; otherwise some code is requested twice. */
  lemma CoversExactly(s: seq<nat>, b: nat, ok: Accepts, turns: nat)
    requires Remaining(s, b, ok, turns) == [] && NoRepeats(s)
    ensures (forall x :: x in s ==> ok(x)) ==> Gathered(s, b, ok, turns) == s
    ensures NoRepeats(Gathered(s, b, ok, turns)) <==> forall x :: x in s ==> ok(x)
  {
    if forall x :: x in s ==> ok(x) {
      AllParsedOnce(s, b, ok, turns);
    } else {
      var bad :| bad in s && !ok(bad);
      var r := Gathered(s, b, ok, turns);
      CursorCountsRequests(s, b, ok, turns);
      MemberCount(r);
      MemberCount(s);
      assert Members(r) <= Members(s) - {bad};
      SmallerSet(Members(r), Members(s), bad);
    }
  }

  lemma SmallerSet(a: set<nat>, b: set<nat>, x: nat)
    requires a <= b - {x} && x in b
    ensures |a| < |b|
  {
    assert b == (b - {x}) + {x};
    assert b - {x} == a + (b - {x} - a);
  }

  // ---------- the loops ----------

  function Accepted(codes: seq<string>, hk: bool): Accepts {
    (i: nat) => i < |codes| && (hk || Parses(codes[i]))
  }

  /** The batches of worker `wi` of `n`; `stopTurn` is the turn that finds the stop flag raised. */
  method WorkerRun(codes: seq<string>, n: nat, batchSize: nat, wi: nat, hk: bool, stopTurn: nat)
    returns (batches: seq<seq<nat>>, complete: bool)
    requires 0 < n
    ensures batches == Batches(Shard(|codes|, n, wi), batchSize, Accepted(codes, hk), stopTurn)
    ensures Joined(batches) == Gathered(Shard(|codes|, n, wi), batchSize, Accepted(codes, hk), stopTurn)
    ensures complete <==> Remaining(Shard(|codes|, n, wi), batchSize, Accepted(codes, hk), stopTurn) == []
  {
    hide Shard, Batch, Batches, Gathered, Remaining, Joined, Accepted;
    ghost var ok := Accepted(codes, hk);
    ghost var all := Shard(|codes|, n, wi);
    batches := [];
    JoinedNone();
    var bi: nat := wi;
    var turn := 0;
    while bi < |codes| && turn < stopTurn
      invariant turn <= stopTurn
      invariant Joined(batches) + Gathered(Shard(|codes|, n, bi), batchSize, ok, stopTurn - turn)
             == Gathered(all, batchSize, ok, stopTurn)
      invariant Remaining(Shard(|codes|, n, bi), batchSize, ok, stopTurn - turn)
             == Remaining(all, batchSize, ok, stopTurn)
      invariant batches + Batches(Shard(|codes|, n, bi), batchSize, ok, stopTurn - turn)
             == Batches(all, batchSize, ok, stopTurn)
      decreases stopTurn - turn
    {
      var batch := CollectBatch(codes, n, batchSize, bi, hk);
      Turn(Shard(|codes|, n, bi), batchSize, ok, stopTurn - turn);
      ShardSuffix(|codes|, n, bi, |batch|);
      ghost var rest := Batches(Shard(|codes|, n, bi + |batch| * n), batchSize, ok, stopTurn - turn - 1);
      assert [] + rest == rest && (batches + [batch]) + rest == batches + ([batch] + rest);
      Associative(Joined(batches), batch,
                  Gathered(Shard(|codes|, n, bi + |batch| * n), batchSize, ok, stopTurn - turn - 1));
      bi := bi + |batch| * n;
      turn := turn + 1;
      if batch == [] {
        assert Joined(batches) + batch == Joined(batches);
        continue;
      }
      JoinedSnoc(batches, batch);
      batches := batches + [batch];
    }
    LoopLeft(Shard(|codes|, n, bi), batchSize, ok, stopTurn - turn);
    assert Joined(batches) + [] == Joined(batches) && batches + [] == batches;
    complete := bi >= |codes|;
  }

  lemma JoinedNone()
    ensures Joined([]) == []
  {
  }

  function Joined(batches: seq<seq<nat>>): seq<nat> {
    if batches == [] then [] else Joined(batches[..|batches| - 1]) + batches[|batches| - 1]
  }

  lemma JoinedSnoc(batches: seq<seq<nat>>, batch: seq<nat>)
    ensures Joined(batches + [batch]) == Joined(batches) + batch
  {
  }

  method CollectBatch(codes: seq<string>, n: nat, batchSize: nat, bi: nat, hk: bool) returns (batch: seq<nat>)
    requires 0 < n && bi < |codes|
    ensures batch == Batch(Shard(|codes|, n, bi), batchSize, Accepted(codes, hk))
  {
    hide Shard, Filter;
    ghost var ok := Accepted(codes, hk);
    ghost var s := Shard(|codes|, n, bi);
    batch := [];
    assert bi + 0 * n == bi;
    assert s[..0] == [];
    NoneAccepted(s[..0], ok);
    for k := 0 to batchSize
      invariant k <= |s|
      invariant batch == Filter(s[..k], ok)
    {
      ShardSuffix(|codes|, n, bi, k);
      var ci := bi + k * n;
      if ci >= |codes| {
        assert s[..k] == s;
        return;
      }
      assert s[k] == s[k..][0] == ci;
      FilterStep(s, k, ok);
      if hk || ParseMarketCode(codes[ci]).1 != "" {
        batch := batch + [ci];
      }
    }
    assert s[..|s|] == s;
  }

  lemma FilterStep(s: seq<nat>, k: nat, ok: Accepts)
    requires k < |s|
    ensures Filter(s[..k + 1], ok) == if ok(s[k]) then Filter(s[..k], ok) + [s[k]] else Filter(s[..k], ok)
  {
    assert s[..k + 1] == s[..k] + [s[k]];
    FilterConcat(s[..k], [s[k]], ok);
  }

  /** The K-line fetcher's loop: one request per index of the shard, parsed or not. */
  method BatchFetchKline(codes: seq<string>, n: nat, wi: nat) returns (visited: seq<nat>)
    requires 0 < n
    ensures visited == Shard(|codes|, n, wi)
  {
    visited := [];
    var i: nat := wi;
    while i < |codes|
      invariant visited + Shard(|codes|, n, i) == Shard(|codes|, n, wi)
      decreases |codes| - i
    {
      Associative(visited, [i], Shard(|codes|, n, i + n));
      visited := visited + [i];
      i := i + n;
    }
    assert visited + [] == visited;
  }


  /** With codes that all parse, or Hong Kong codes, which need no prefix, `|codes|` turns are
      enough for every worker, and the workers together request every index exactly once: `i` by
      worker `i % n`, at one place. */
  lemma EveryCodeOnce(codes: seq<string>, n: nat, b: nat, hk: bool, i: nat)
    requires 0 < n && 0 < b && i < |codes| && (hk || forall code :: code in codes ==> Parses(code))
    ensures var len, ok := |codes|, Accepted(codes, hk);
            && (forall w: nat :: w < n ==> Remaining(Shard(len, n, w), b, ok, len) == [])
            && (forall w: nat :: w < n ==> (i in Gathered(Shard(len, n, w), b, ok, len) <==> w == i % n))
            && Ascending(Gathered(Shard(len, n, i % n), b, ok, len))
  {
    hide Shard, Gathered, Remaining, Batch;
    var len, ok := |codes|, Accepted(codes, hk);
    ShardsPartition(len, n, i);
    forall w: nat | w < n
      ensures Remaining(Shard(len, n, w), b, ok, len) == []
           && Gathered(Shard(len, n, w), b, ok, len) == Shard(len, n, w)
    {
      var s := Shard(len, n, w);
      forall x | x in s ensures ok(x) {
        ShardMembers(len, n, w, x);
      }
      ShardLength(len, n, w);
      AllParsedEnds(s, b, ok, len);
      AllParsedOnce(s, b, ok, len);
    }
  }

  lemma {:induction false} ShardLength(len: nat, n: nat, from: nat)
    requires 0 < n
    ensures |Shard(len, n, from)| <= len
    ensures from < len ==> |Shard(len, n, from)| <= len - from
    decreases if from < len then len - from else 0
  {
    if from < len {
      ShardLength(len, n, from + n);
    }
  }

  lemma {:induction false} AllParsedEnds(s: seq<nat>, b: nat, ok: Accepts, turns: nat)
    requires 0 < b && |s| <= turns && forall x :: x in s ==> ok(x)
    ensures Remaining(s, b, ok, turns) == []
    decreases turns
  {
    hide Gathered, Remaining, Filter;
    if s == [] {
      LoopLeft(s, b, ok, turns);
    } else {
      FilterAll(Window(s, b), ok);
      Turn(s, b, ok, turns);
      AllParsedEnds(s[|Window(s, b)|..], b, ok, turns - 1);
    }
  }

  /** Without a market prefix a code parses for no worker: a shard of one such code loops for ever. */
  lemma BareCodeNeverEnds(b: nat)
    ensures !Terminates(Shard(1, 1, 0), b, Accepted(["600000"], false))
  {
    var s := Shard(1, 1, 0);
    var ok := Accepted(["600000"], false);
    assert Shard(1, 1, 1) == [];
    assert s == [0] && s[0..] == s && !ok(0);
    assert forall x :: x in Window(s, b) ==> x == 0;
    NoneAccepted(Window(s, b), ok);
    assert Batch(s[0..], b, ok) == [];
    TerminatesExactly(s, b, ok);
  }

  // ---------- the Python batches ----------

  /** The items at the indices of a shard. */
  function Every<T>(items: seq<T>, n: nat, from: nat): seq<T>
    requires 0 < n
    decreases if from < |items| then |items| - from else 0
  {
    if from >= |items| then [] else [items[from]] + Every(items, n, from + n)
  }

  lemma {:induction false} EveryIsShard<T>(items: seq<T>, n: nat, from: nat, k: nat)
    requires 0 < n
    ensures |Every(items, n, from)| == |Shard(|items|, n, from)|
    ensures k < |Every(items, n, from)| ==>
              var i := Shard(|items|, n, from)[k]; i < |items| && Every(items, n, from)[k] == items[i]
    decreases if from < |items| then |items| - from else 0
  {
    if from < |items| {
      EveryIsShard(items, n, from + n, if k == 0 then 0 else k - 1);
    }
  }

  lemma {:induction false} EveryGrows<T>(items: seq<T>, item: T, n: nat, from: nat)
    requires 0 < n
    ensures Every(items + [item], n, from) == Every(items, n, from)
              + if from <= |items| && (|items| - from) % n == 0 then [item] else []
    decreases if from < |items| then |items| - from else 0
  {
    hide Every;
    EveryHead(items + [item], n, from);
    EveryHead(items, n, from);
    if from < |items| {
      EveryGrows(items, item, n, from + n);
      Stride(from, n, |items|);
    } else if from == |items| {
      EveryHead(items + [item], n, from + n);
    }
  }

  lemma EveryHead<T>(items: seq<T>, n: nat, from: nat)
    requires 0 < n
    ensures Every(items, n, from) == if from >= |items| then [] else [items[from]] + Every(items, n, from + n)
  {
  }

  lemma {:induction false} EveryOne<T>(items: seq<T>, from: nat)
    requires from <= |items|
    ensures Every(items, 1, from) == items[from..]
    decreases |items| - from
  {
    if from < |items| {
      EveryOne(items, from + 1);
    }
  }

  function NonEmpty<T>(buckets: seq<seq<T>>): seq<seq<T>> {
    if buckets == [] then []
    else (if buckets[0] == [] then [] else [buckets[0]]) + NonEmpty(buckets[1..])
  }

  /** Exactly the buckets that are not empty are kept, in order. */
  lemma {:induction false} NonEmptyKeeps<T>(a: seq<seq<T>>, bucket: seq<T>)
    ensures NonEmpty(a + [bucket]) == NonEmpty(a) + if bucket == [] then [] else [bucket]
    ensures forall kept :: kept in NonEmpty(a) <==> kept in a && kept != []
    decreases |a|
  {
    if a == [] {
      assert a + [bucket] == [bucket] && [bucket][1..] == [];
    } else {
      assert a == [a[0]] + a[1..];
      assert (a + [bucket])[1..] == a[1..] + [bucket];
      NonEmptyKeeps(a[1..], bucket);
    }
  }

  /** Bucket `w` of the round robin is shard `w`; a single bucket is kept even when it is empty. */
  method RoundRobin<T>(items: seq<T>, n: int) returns (buckets: seq<seq<T>>)
    ensures n <= 1 ==> buckets == [Every(items, 1, 0)]
    ensures n > 1 ==> buckets == NonEmpty(seq(n, w requires 0 <= w < n => Every(items, n, w)))
  {
    hide Every;
    if n <= 1 {
      EveryOne(items, 0);
      return [items];
    }
    var full := seq(n, w => []);
    forall w: nat ensures Every(items[..0], n, w) == [] {
      EveryHead(items[..0], n, w);
    }
    for i := 0 to |items|
      invariant |full| == n
      invariant forall w: nat :: w < n ==> full[w] == Every(items[..i], n, w)
    {
      assert items[..i + 1] == items[..i] + [items[i]];
      forall w: nat | w < n
        ensures Every(items[..i + 1], n, w) == Every(items[..i], n, w) + if w == i % n then [items[i]] else []
      {
        EveryGrows(items[..i], items[i], n, w);
        SmallMod(i, n);
        if w <= i {
          Congruent(i, w, n);
        }
      }
      full := full[i % n := full[i % n] + [items[i]]];
    }
    assert items[..|items|] == items;
    assert full == seq(n, w requires 0 <= w < n => Every(items, n, w));
    buckets := KeepNonEmpty(full);
  }

  method KeepNonEmpty<T>(full: seq<seq<T>>) returns (kept: seq<seq<T>>)
    ensures kept == NonEmpty(full)
  {
    kept := [];
    for k := 0 to |full|
      invariant kept + NonEmpty(full[k..]) == NonEmpty(full)
    {
      ghost var rest := NonEmpty(full[k + 1..]);
      assert full[k..] == [full[k]] + full[k + 1..];
      assert kept + ([full[k]] + rest) == (kept + [full[k]]) + rest;
      if |full[k]| > 0 {
        kept := kept + [full[k]];
      }
    }
  }
}
