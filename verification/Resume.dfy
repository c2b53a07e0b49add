/** Fetching histories for a list of codes with a batch id, and resuming after crashes. The
    state file is written whole and at once, and one process uses it at a time. */
module Resume {
  import opened MarketCode

  const HISTORY := "history_kline"

  datatype Period = Min1 | Min5 | Min15 | Min30 | Hour1 | Daily

  /** The bars a server answers for a code and a period. */
  type Answers<!Bar> = (Period, string) -> seq<Bar>

  /** The caller's name of a period; any other name means daily bars. */
  function PeriodOf(name: string): Period {
    if name == "5m" then Min5
    else if name == "1m" then Min1
    else if name == "15m" then Min15
    else if name == "30m" then Min30
    else if name == "1h" then Hour1
    else Daily
  }

  /** Each of the five minute names has its own period, and every other name, such as "1d", "1w" or
      the empty one, means daily bars. */
  lemma PeriodNames(name: string)
    ensures PeriodOf("1m") == Min1 && PeriodOf("5m") == Min5 && PeriodOf("15m") == Min15
    ensures PeriodOf("30m") == Min30 && PeriodOf("1h") == Hour1
    ensures PeriodOf(name) == Daily <==> name !in {"1m", "5m", "15m", "30m", "1h"}
  {
    assert |"1m"| == 2 && |"5m"| == 2 && |"15m"| == 3 && |"30m"| == 3 && |"1h"| == 2;
    assert "1m"[0] != "5m"[0] && "1m"[1] != "1h"[1] && "15m"[0] != "30m"[0];
  }

  datatype Entry = Entry(lastSync: string, updatedAt: string, batchId: string, batchStatus: string,
                         retryCount: int, lastError: string)

  const NO_ENTRY := Entry("", "", "", "", 0, "")

  /** Stock and data type. */
  type Key = (string, string)

  predicate IsCompleted(state: map<Key, Entry>, stock: string, dataType: string, batchId: string) {
    (stock, dataType) in state && state[(stock, dataType)].batchId == batchId
    && state[(stock, dataType)].batchStatus == "completed"
  }

  /** The codes whose completion in the batch is on record. */
  ghost function Completed(state: map<Key, Entry>, batchId: string): set<string> {
    set key | key in state.Keys && IsCompleted(state, key.0, HISTORY, batchId) :: key.0
  }

  lemma CompletedIs(state: map<Key, Entry>, batchId: string, stock: string)
    ensures stock in Completed(state, batchId) <==> IsCompleted(state, stock, HISTORY, batchId)
  {
  }

  function EntryAt(state: map<Key, Entry>, key: Key): Entry { if key in state then state[key] else NO_ENTRY }

  class SyncState {
    var state: map<Key, Entry>
    /** The contents of the file. */
    var file: map<Key, Entry>

    ghost predicate Valid()
      reads this
    {
      state == file
    }

    /** A new process that loads the file. */
    constructor (file: map<Key, Entry>)
      ensures Valid() && this.file == file
    {
      this.state := file;
      this.file := file;
    }

    predicate IsCompletedInBatch(stock: string, dataType: string, batchId: string)
      reads this
    {
      IsCompleted(state, stock, dataType, batchId)
    }

    method MarkStockComplete(stock: string, dataType: string, batchId: string, today: string, now: string)
      modifies this
      ensures Valid()
      ensures state == old(state)[(stock, dataType) := EntryAt(old(state), (stock, dataType)).(
                batchId := batchId, batchStatus := "completed", lastSync := today, updatedAt := now)]
    {
      var e := EntryAt(state, (stock, dataType));
      state := state[(stock, dataType) := e.(batchId := batchId, batchStatus := "completed",
                                              lastSync := today, updatedAt := now)];
      file := state;
    }

    method MarkStockFailed(stock: string, dataType: string, batchId: string, error: string, now: string)
      modifies this
      ensures Valid()
      ensures state == old(state)[(stock, dataType) := EntryAt(old(state), (stock, dataType)).(
                batchId := batchId, batchStatus := "failed", lastError := error, updatedAt := now,
                retryCount := EntryAt(old(state), (stock, dataType)).retryCount + 1)]
      ensures dataType == HISTORY ==> forall b :: Completed(state, b) == Completed(old(state), b) - {stock}
    {
      var e := EntryAt(state, (stock, dataType));
      if dataType == HISTORY {
        FailureTakesOut(state, stock, e.(batchId := batchId, batchStatus := "failed", lastError := error,
                                         updatedAt := now, retryCount := e.retryCount + 1));
      }
      state := state[(stock, dataType) := e.(batchId := batchId, batchStatus := "failed", lastError := error,
                                             updatedAt := now, retryCount := e.retryCount + 1)];
      file := state;
    }

    method UpdateSync(stock: string, dataType: string, lastSync: string, today: string, now: string)
      modifies this
      ensures Valid()
      ensures state == old(state)[(stock, dataType) := EntryAt(old(state), (stock, dataType)).(
                lastSync := if lastSync == "" then today else lastSync, updatedAt := now)]
    {
      var e := EntryAt(state, (stock, dataType));
      state := state[(stock, dataType) := e.(lastSync := if lastSync == "" then today else lastSync, updatedAt := now)];
      file := state;
    }
  }

  /** A completion mark adds the stock to its batch and takes it out of every other: an entry
      remembers one batch. */
  lemma MarkCompletes(state: map<Key, Entry>, stock: string, e: Entry, batchId: string)
    requires e.batchId == batchId && e.batchStatus == "completed"
    ensures var after := state[(stock, HISTORY) := e];
            && Completed(after, batchId) == Completed(state, batchId) + {stock}
            && forall other :: other != batchId ==> Completed(after, other) == Completed(state, other) - {stock}
  {
    var after := state[(stock, HISTORY) := e];
    forall other, s
      ensures s in Completed(after, other) <==> if s == stock then other == batchId else s in Completed(state, other)
    {
      CompletedIs(after, other, s);
      CompletedIs(state, other, s);
    }
  }

  /** An entry that is not completed counts for no batch. */
  lemma FailureTakesOut(state: map<Key, Entry>, stock: string, e: Entry)
    requires e.batchStatus != "completed"
    ensures forall b :: Completed(state[(stock, HISTORY) := e], b) == Completed(state, b) - {stock}
  {
    var after := state[(stock, HISTORY) := e];
    forall b, s ensures s in Completed(after, b) <==> s in Completed(state, b) && s != stock {
      CompletedIs(after, b, s);
      CompletedIs(state, b, s);
    }
  }

  /** A sync without a batch leaves every batch's completions alone. */
  lemma SyncKeepsCompleted(state: map<Key, Entry>, stock: string, lastSync: string, now: string, batchId: string)
    requires batchId != ""
    ensures var entry := EntryAt(state, (stock, HISTORY)).(lastSync := lastSync, updatedAt := now);
            Completed(state[(stock, HISTORY) := entry], batchId) == Completed(state, batchId)
  {
  }

  // ---------- one run ----------

  datatype Event = Asked(code: string) | Marked(code: string)

  /** Whether the loop passes over the code: already done, when there is a batch to resume, or
      without a market prefix. */
  predicate Skips(resume: bool, done: set<string>, code: string) { (resume && code in done) || !Parses(code) }

  /** What one run does before it ends or dies: it dies when `budget` requests and marks have
      been made. */
  function Trace(resume: bool, done: set<string>, codes: seq<string>, budget: nat): seq<Event>
    decreases |codes|
  {
    if codes == [] then []
    else if Skips(resume, done, codes[0]) then Trace(resume, done, codes[1..], budget)
    else if budget == 0 then []
    else if budget == 1 then [Asked(codes[0])]
    else [Asked(codes[0]), Marked(codes[0])] + Trace(resume, done + {codes[0]}, codes[1..], budget - 2)
  }

  /** Whether the run gets to the end of the list. */
  predicate Finishes(resume: bool, done: set<string>, codes: seq<string>, budget: nat)
    decreases |codes|
  {
    if codes == [] then true
    else if Skips(resume, done, codes[0]) then Finishes(resume, done, codes[1..], budget)
    else budget >= 2 && Finishes(resume, done + {codes[0]}, codes[1..], budget - 2)
  }

  ghost function MarksOf(trace: seq<Event>): set<string> { set e | e in trace && e.Marked? :: e.code }

  /** The bars of the codes marked, in order. */
  function BarsOf<Bar>(trace: seq<Event>, p: Period, bars: Answers<Bar>): seq<Bar> {
    if trace == [] then []
    else
      var last := trace[|trace| - 1];
      BarsOf(trace[..|trace| - 1], p, bars) + if last.Asked? then [] else bars(p, last.code)
  }

  lemma MarksSnoc(trace: seq<Event>, code: string)
    ensures MarksOf(trace + [Asked(code)]) == MarksOf(trace)
    ensures MarksOf(trace + [Asked(code), Marked(code)]) == MarksOf(trace) + {code}
  {
  }

  lemma BarsSnoc<Bar>(trace: seq<Event>, code: string, p: Period, bars: Answers<Bar>)
    ensures BarsOf(trace + [Asked(code)], p, bars) == BarsOf(trace, p, bars)
    ensures BarsOf(trace + [Asked(code), Marked(code)], p, bars) == BarsOf(trace, p, bars) + bars(p, code)
  {
    assert (trace + [Asked(code)])[..|trace|] == trace;
    assert (trace + [Asked(code), Marked(code)])[..|trace| + 1] == trace + [Asked(code)];
  }

  /** Where the loop stands: what is done, and that the rest of the run is still to come. */
  ghost predicate Progress(resume: bool, start: set<string>, codes: seq<string>, budget: nat,
                           i: nat, left: nat, trace: seq<Event>)
  {
    && i <= |codes|
    && trace + Trace(resume, start + MarksOf(trace), codes[i..], left) == Trace(resume, start, codes, budget)
    && Finishes(resume, start + MarksOf(trace), codes[i..], left) == Finishes(resume, start, codes, budget)
  }

  lemma ProgressStarts(resume: bool, start: set<string>, codes: seq<string>, budget: nat)
    ensures Progress(resume, start, codes, budget, 0, budget, [])
  {
    assert codes[0..] == codes && start + MarksOf([]) == start;
  }

  lemma TraceHead(resume: bool, done: set<string>, codes: seq<string>, budget: nat)
    requires codes != []
    ensures Trace(resume, done, codes, budget)
         == if Skips(resume, done, codes[0]) then Trace(resume, done, codes[1..], budget)
            else if budget == 0 then []
            else if budget == 1 then [Asked(codes[0])]
            else [Asked(codes[0]), Marked(codes[0])] + Trace(resume, done + {codes[0]}, codes[1..], budget - 2)
    ensures Finishes(resume, done, codes, budget)
         == if Skips(resume, done, codes[0]) then Finishes(resume, done, codes[1..], budget)
            else budget >= 2 && Finishes(resume, done + {codes[0]}, codes[1..], budget - 2)
  {
    hide Skips;
  }

  lemma ProgressSteps(resume: bool, start: set<string>, codes: seq<string>, budget: nat, i: nat,
                      left: nat, trace: seq<Event>)
    requires Progress(resume, start, codes, budget, i, left, trace) && i < |codes|
    ensures Skips(resume, start + MarksOf(trace), codes[i]) ==>
              Progress(resume, start, codes, budget, i + 1, left, trace)
    ensures !Skips(resume, start + MarksOf(trace), codes[i]) && left < 2 ==>
              && Trace(resume, start, codes, budget) == trace + (if left == 0 then [] else [Asked(codes[i])])
              && !Finishes(resume, start, codes, budget)
    ensures !Skips(resume, start + MarksOf(trace), codes[i]) && left >= 2 ==>
              Progress(resume, start, codes, budget, i + 1, left - 2, trace + [Asked(codes[i]), Marked(codes[i])])
  {
    hide MarksOf, Skips, Trace, Finishes;
    TraceHead(resume, start + MarksOf(trace), codes[i..], left);
    assert codes[i..][0] == codes[i] && codes[i..][1..] == codes[i + 1..];
    MarksSnoc(trace, codes[i]);
    var done, pair := start + MarksOf(trace), [Asked(codes[i]), Marked(codes[i])];
    assert done + {codes[i]} == start + MarksOf(trace + pair);
    if left >= 2 {
      var rest := Trace(resume, done + {codes[i]}, codes[i + 1..], left - 2);
      assert trace + (pair + rest) == (trace + pair) + rest;
    }
  }

  lemma ProgressEnds(resume: bool, start: set<string>, codes: seq<string>, budget: nat, left: nat, trace: seq<Event>)
    requires Progress(resume, start, codes, budget, |codes|, left, trace)
    ensures trace == Trace(resume, start, codes, budget) && Finishes(resume, start, codes, budget)
  {
  }

  /** `FetchHistory` in a process that dies after `budget` requests and marks. */
  method FetchHistory<Bar>(sync: SyncState, codes: seq<string>, period: string, batchId: string, bars: Answers<Bar>,
                           today: string, now: string, budget: nat)
    returns (all: seq<Bar>, finished: bool, ghost trace: seq<Event>)
    requires sync.Valid()
    modifies sync
    ensures sync.Valid()
    ensures trace == Trace(batchId != "", Completed(old(sync.file), batchId), codes, budget)
    ensures finished == Finishes(batchId != "", Completed(old(sync.file), batchId), codes, budget)
    ensures all == BarsOf(trace, PeriodOf(period), bars)
    ensures period !in {"1m", "5m", "15m", "30m", "1h"} ==> all == BarsOf(trace, Daily, bars)
    ensures batchId != "" ==> Completed(sync.file, batchId) == Completed(old(sync.file), batchId) + MarksOf(trace)
    ensures forall b :: b != "" && b != batchId ==>
              Completed(sync.file, b) == Completed(old(sync.file), b) - (if batchId == "" then {} else MarksOf(trace))
  {
    hide Completed, MarksOf, Progress, Trace, Finishes, BarsOf;
    ghost var start := Completed(sync.file, batchId);
    all, trace := [], [];
    var left := budget;
    var p := PeriodOf(period);
    PeriodNames(period);
    EmptyTrace(p, bars);
    ProgressStarts(batchId != "", start, codes, budget);
    for i := 0 to |codes|
      invariant sync.Valid() && Progress(batchId != "", start, codes, budget, i, left, trace)
      invariant all == BarsOf(trace, p, bars)
      invariant batchId != "" ==> Completed(sync.file, batchId) == start + MarksOf(trace)
      invariant forall b :: b != "" && b != batchId ==>
                  Completed(sync.file, b)
                    == Completed(old(sync.file), b) - (if batchId == "" then {} else MarksOf(trace))
    {
      var code := codes[i];
      ProgressSteps(batchId != "", start, codes, budget, i, left, trace);
      if batchId != "" {
        CompletedIs(sync.state, batchId, code);
        if sync.IsCompletedInBatch(code, HISTORY, batchId) {
          continue;
        }
      }
      if ParseMarketCode(code).1 == "" {
        continue;
      }
      MarksSnoc(trace, code);
      BarsSnoc(trace, code, p, bars);
      if left == 0 {
        finished := false;
        return;
      }
      var answer := bars(p, code);
      if left == 1 {
        finished, trace := false, trace + [Asked(code)];
        return;
      }
      trace := trace + [Asked(code), Marked(code)];
      if batchId != "" {
        var entry := EntryAt(sync.state, (code, HISTORY)).(
          batchId := batchId, batchStatus := "completed", lastSync := today, updatedAt := now);
        MarkCompletes(sync.state, code, entry, batchId);
        sync.MarkStockComplete(code, HISTORY, batchId, today, now);
      } else {
        var entry := EntryAt(sync.state, (code, HISTORY)).(lastSync := today, updatedAt := now);
        forall b | b != ""
          ensures Completed(sync.state[(code, HISTORY) := entry], b) == Completed(sync.state, b)
        {
          SyncKeepsCompleted(sync.state, code, today, now, b);
        }
        sync.UpdateSync(code, HISTORY, "", today, now);
      }
      left := left - 2;
      all := all + answer;
    }
    ProgressEnds(batchId != "", start, codes, budget, left, trace);
    finished := true;
  }

  lemma EmptyTrace<Bar>(p: Period, bars: Answers<Bar>)
    ensures MarksOf([]) == {} && BarsOf([], p, bars) == []
  {
  }

  // ---------- what a run returns ----------

  /** The codes a run that gets to its end requests, in order. */
  function FreshCodes(resume: bool, done: set<string>, codes: seq<string>): seq<string>
    decreases |codes|
  {
    if codes == [] then []
    else if Skips(resume, done, codes[0]) then FreshCodes(resume, done, codes[1..])
    else [codes[0]] + FreshCodes(resume, done + {codes[0]}, codes[1..])
  }

  /** The answers for some codes, in order. */
  function AllAnswers<Bar>(codes: seq<string>, p: Period, bars: Answers<Bar>): seq<Bar> {
    if codes == [] then [] else bars(p, codes[0]) + AllAnswers(codes[1..], p, bars)
  }

  lemma {:induction false} BarsOfPair<Bar>(code: string, rest: seq<Event>, p: Period, bars: Answers<Bar>)
    ensures BarsOf([Asked(code), Marked(code)] + rest, p, bars) == bars(p, code) + BarsOf(rest, p, bars)
  {
    var pair := [Asked(code), Marked(code)];
    if rest == [] {
      assert pair + rest == [] + pair;
      BarsSnoc([], code, p, bars);
    } else {
      var front := rest[..|rest| - 1];
      assert (pair + rest)[..|pair + rest| - 1] == pair + front;
      BarsOfPair(code, front, p, bars);
    }
  }

  /** A run that gets to its end returns the answers for the fresh codes. */
  lemma {:induction false} FinishedRunReturns<Bar>(resume: bool, done: set<string>, codes: seq<string>, budget: nat,
                                                   p: Period, bars: Answers<Bar>)
    requires Finishes(resume, done, codes, budget)
    ensures BarsOf(Trace(resume, done, codes, budget), p, bars) == AllAnswers(FreshCodes(resume, done, codes), p, bars)
    decreases |codes|
  {
    hide BarsOf;
    if codes == [] {
      EmptyTrace(p, bars);
    } else if Skips(resume, done, codes[0]) {
      FinishedRunReturns(resume, done, codes[1..], budget, p, bars);
    } else {
      FinishedRunReturns(resume, done + {codes[0]}, codes[1..], budget - 2, p, bars);
      BarsOfPair(codes[0], Trace(resume, done + {codes[0]}, codes[1..], budget - 2), p, bars);
    }
  }

  /** A resuming run requests a code, for whatever period, if and only if its mark in the batch
      is absent; and once. */
  lemma {:induction false} FreshExactly(done: set<string>, codes: seq<string>, code: string)
    ensures code in FreshCodes(true, done, codes) <==> code in codes && Parses(code) && code !in done
    ensures multiset(FreshCodes(true, done, codes))[code] <= 1
    decreases |codes|
  {
    if codes != [] {
      assert codes == [codes[0]] + codes[1..];
      FreshExactly(done, codes[1..], code);
      FreshExactly(done + {codes[0]}, codes[1..], code);
    }
  }

  /** The codes of a list that have a market prefix, repeated as they are listed. */
  function Prefixed(codes: seq<string>): seq<string> {
    if codes == [] then [] else (if Parses(codes[0]) then [codes[0]] else []) + Prefixed(codes[1..])
  }

  /** Without a batch id nothing is skipped but what does not parse: whatever was done before, every
      code is requested as often as it is listed, in order. */
  lemma {:induction false} UnbatchedFetchesAll(done: set<string>, codes: seq<string>)
    ensures FreshCodes(false, done, codes) == Prefixed(codes)
    decreases |codes|
  {
    if codes != [] {
      UnbatchedFetchesAll(done, codes[1..]);
      UnbatchedFetchesAll(done + {codes[0]}, codes[1..]);
    }
  }

  /** Two periods under one batch id: the first run returns its answers for the codes that were
      not marked, and the second, for any other period, returns nothing at all. */
  method FetchTwoPeriods<Bar>(sync: SyncState, codes: seq<string>, first: string, second: string, batchId: string,
                              bars: Answers<Bar>, today: string, now: string, budget: nat, budget': nat)
    returns (all: seq<Bar>, more: seq<Bar>, finished: bool)
    requires sync.Valid() && batchId != ""
    modifies sync
    ensures sync.Valid()
    ensures finished == Finishes(true, Completed(old(sync.file), batchId), codes, budget)
    ensures finished ==>
              all == AllAnswers(FreshCodes(true, Completed(old(sync.file), batchId), codes), PeriodOf(first), bars)
    ensures finished ==> more == []
  {
    hide Completed, MarksOf, Trace, Finishes, BarsOf, FreshCodes, AllAnswers, AllDone;
    ghost var done := Completed(sync.file, batchId);
    ghost var trace, trace';
    all, finished, trace := FetchHistory(sync, codes, first, batchId, bars, today, now, budget);
    if finished {
      FinishedRunReturns(true, done, codes, budget, PeriodOf(first), bars);
      TraceMarks(done, codes, budget);
      DoneAsksNothing(done + MarksOf(trace), codes, budget');
    }
    var finished';
    more, finished', trace' := FetchHistory(sync, codes, second, batchId, bars, today, now, budget');
    EmptyTrace(PeriodOf(second), bars);
  }

  /** A failure mark reopens a code: the next run of its batch requests it, for any batch. */
  lemma FailureReopens(state: map<Key, Entry>, stock: string, e: Entry, batchId: string, codes: seq<string>)
    requires e.batchStatus != "completed" && stock in codes && Parses(stock)
    ensures stock in FreshCodes(true, Completed(state[(stock, HISTORY) := e], batchId), codes)
  {
    hide Completed, FreshCodes;
    FailureTakesOut(state, stock, e);
    var done := Completed(state[(stock, HISTORY) := e], batchId);
    assert done == Completed(state, batchId) - {stock};
    FreshExactly(done, codes, stock);
  }

  // ---------- many runs ----------

  /** One process: the codes it is given and the number of requests and marks it lives for. */
  datatype Attempt = Attempt(codes: seq<string>, budget: nat)

  /** All events of a batch, each attempt resuming from the marks of those before it. */
  ghost function Runs(done: set<string>, attempts: seq<Attempt>): seq<Event>
    decreases |attempts|
  {
    if attempts == [] then []
    else
      var first := Trace(true, done, attempts[0].codes, attempts[0].budget);
      first + Runs(done + MarksOf(first), attempts[1..])
  }

  /** The number of attempts that die before the end of their list. */
  ghost function Crashes(done: set<string>, attempts: seq<Attempt>): nat
    decreases |attempts|
  {
    if attempts == [] then 0
    else
      var first := Trace(true, done, attempts[0].codes, attempts[0].budget);
      (if Finishes(true, done, attempts[0].codes, attempts[0].budget) then 0 else 1)
      + Crashes(done + MarksOf(first), attempts[1..])
  }

  lemma MarksConcat(a: seq<Event>, b: seq<Event>)
    ensures MarksOf(a + b) == MarksOf(a) + MarksOf(b)
  {
  }

  /** No request for a code that was done at the start or that was marked before. */
  ghost predicate NeverAgain(done: set<string>, trace: seq<Event>) {
    && (forall j :: 0 <= j < |trace| && trace[j].Asked? ==> trace[j].code !in done)
    && (forall i, j :: 0 <= i < j < |trace| && trace[i].Marked? && trace[j].Asked? ==> trace[i].code != trace[j].code)
  }

  lemma NeverAgainConcat(done: set<string>, a: seq<Event>, b: seq<Event>)
    requires NeverAgain(done, a) && NeverAgain(done + MarksOf(a), b)
    ensures NeverAgain(done, a + b)
  {
  }

  lemma NothingAgain(done: set<string>)
    ensures NeverAgain(done, [])
  {
  }

  lemma PairNeverAgain(done: set<string>, code: string)
    requires code !in done
    ensures NeverAgain(done, [Asked(code)]) && NeverAgain(done, [Asked(code), Marked(code)])
    ensures MarksOf([Asked(code)]) == {} && MarksOf([Asked(code), Marked(code)]) == {code}
  {
  }

  lemma {:induction false} TraceNeverAgain(done: set<string>, codes: seq<string>, budget: nat)
    ensures NeverAgain(done, Trace(true, done, codes, budget))
    decreases |codes|
  {
    hide NeverAgain, MarksOf;
    if codes == [] || (!Skips(true, done, codes[0]) && budget == 0) {
      NothingAgain(done);
    } else if Skips(true, done, codes[0]) {
      TraceNeverAgain(done, codes[1..], budget);
    } else {
      PairNeverAgain(done, codes[0]);
      if budget >= 2 {
        TraceNeverAgain(done + {codes[0]}, codes[1..], budget - 2);
        NeverAgainConcat(done, [Asked(codes[0]), Marked(codes[0])],
                         Trace(true, done + {codes[0]}, codes[1..], budget - 2));
      }
    }
  }

  /** Across any attempts and crashes, a code whose mark is on file is never requested again. */
  lemma {:induction false} MarkedIsNeverAskedAgain(done: set<string>, attempts: seq<Attempt>)
    ensures NeverAgain(done, Runs(done, attempts))
    decreases |attempts|
  {
    if attempts != [] {
      hide NeverAgain, MarksOf;
      var first := Trace(true, done, attempts[0].codes, attempts[0].budget);
      TraceNeverAgain(done, attempts[0].codes, attempts[0].budget);
      MarkedIsNeverAskedAgain(done + MarksOf(first), attempts[1..]);
      NeverAgainConcat(done, first, Runs(done + MarksOf(first), attempts[1..]));
    }
  }

  // ---------- a complete run ----------

  predicate AllDone(done: set<string>, codes: seq<string>) {
    forall c :: c in codes && Parses(c) ==> c in done
  }

  lemma {:induction false} TraceMarks(done: set<string>, codes: seq<string>, budget: nat)
    ensures MarksOf(Trace(true, done, codes, budget)) !! done
    ensures forall c :: c in MarksOf(Trace(true, done, codes, budget)) ==> c in codes && Parses(c)
    ensures Finishes(true, done, codes, budget) ==> AllDone(done + MarksOf(Trace(true, done, codes, budget)), codes)
    decreases |codes|
  {
    hide MarksOf;
    if codes == [] || (!Skips(true, done, codes[0]) && budget < 2) {
      MarksOfShort(if codes == [] then "" else codes[0]);
    } else if Skips(true, done, codes[0]) {
      TraceMarks(done, codes[1..], budget);
      assert codes == [codes[0]] + codes[1..];
    } else {
      TraceMarks(done + {codes[0]}, codes[1..], budget - 2);
      assert codes == [codes[0]] + codes[1..];
      PairNeverAgain(done, codes[0]);
      MarksConcat([Asked(codes[0]), Marked(codes[0])], Trace(true, done + {codes[0]}, codes[1..], budget - 2));
    }
  }

  lemma MarksOfShort(code: string)
    ensures MarksOf([]) == {} && MarksOf([Asked(code)]) == {}
  {
  }

  lemma {:induction false} RunsSnoc(done: set<string>, front: seq<Attempt>, last: Attempt)
    ensures var before := done + MarksOf(Runs(done, front));
            Runs(done, front + [last]) == Runs(done, front) + Trace(true, before, last.codes, last.budget)
    decreases |front|
  {
    hide MarksOf;
    MarksOfShort("");
    if front == [] {
      assert [] + [last] == [last] && [last][1..] == [];
      assert done + MarksOf([]) == done;
    } else {
      assert (front + [last])[1..] == front[1..] + [last];
      var first := Trace(true, done, front[0].codes, front[0].budget);
      var next := done + MarksOf(first);
      RunsSnoc(next, front[1..], last);
      MarksConcat(first, Runs(next, front[1..]));
      assert next + MarksOf(Runs(next, front[1..])) == done + MarksOf(Runs(done, front));
    }
  }

  /** After any attempts, one that gets to the end of its list leaves every parseable code of
      the list marked, and running the list once more asks for nothing. */
  lemma CompleteRunMarksAll(done: set<string>, front: seq<Attempt>, last: Attempt, budget: nat)
    requires Finishes(true, done + MarksOf(Runs(done, front)), last.codes, last.budget)
    ensures var after := done + MarksOf(Runs(done, front + [last]));
            AllDone(after, last.codes) && Trace(true, after, last.codes, budget) == []
  {
    hide MarksOf, AllDone;
    RunsSnoc(done, front, last);
    var before := done + MarksOf(Runs(done, front));
    TraceMarks(before, last.codes, last.budget);
    MarksConcat(Runs(done, front), Trace(true, before, last.codes, last.budget));
    assert done + MarksOf(Runs(done, front + [last])) == before + MarksOf(Trace(true, before, last.codes, last.budget));
    DoneAsksNothing(done + MarksOf(Runs(done, front + [last])), last.codes, budget);
  }

  lemma {:induction false} DoneAsksNothing(done: set<string>, codes: seq<string>, budget: nat)
    ensures AllDone(done, codes) ==> Trace(true, done, codes, budget) == [] && Finishes(true, done, codes, budget)
    decreases |codes|
  {
    if codes != [] {
      assert codes == [codes[0]] + codes[1..];
      DoneAsksNothing(done, codes[1..], budget);
    }
  }

  // ---------- how many requests ----------

  function AskCount(trace: seq<Event>): nat {
    if trace == [] then 0 else (if trace[0].Asked? then 1 else 0) + AskCount(trace[1..])
  }

  lemma {:induction false} AskConcat(a: seq<Event>, b: seq<Event>)
    ensures AskCount(a + b) == AskCount(a) + AskCount(b)
  {
    if a == [] {
      assert a + b == b;
    } else {
      assert (a + b)[1..] == a[1..] + b;
      AskConcat(a[1..], b);
    }
  }

  lemma UnionSize(a: set<string>, b: set<string>)
    requires a !! b
    ensures |a + b| == |a| + |b|
  {
  }

  /** In one run every request is followed by its mark, except the last of a run that dies
      between the two. */
  lemma {:induction false} TraceCount(done: set<string>, codes: seq<string>, budget: nat)
    ensures var trace := Trace(true, done, codes, budget);
            AskCount(trace) <= |MarksOf(trace)| + if Finishes(true, done, codes, budget) then 0 else 1
    decreases |codes|
  {
    hide MarksOf;
    if codes == [] || (!Skips(true, done, codes[0]) && budget < 2) {
      MarksOfShort(if codes == [] then "" else codes[0]);
    } else if Skips(true, done, codes[0]) {
      TraceCount(done, codes[1..], budget);
    } else {
      var pair, rest := [Asked(codes[0]), Marked(codes[0])], Trace(true, done + {codes[0]}, codes[1..], budget - 2);
      TraceCount(done + {codes[0]}, codes[1..], budget - 2);
      TraceMarks(done + {codes[0]}, codes[1..], budget - 2);
      PairNeverAgain(done, codes[0]);
      MarksConcat(pair, rest);
      AskConcat(pair, rest);
      UnionSize(MarksOf(pair), MarksOf(rest));
      assert pair[1..] == [Marked(codes[0])];
    }
  }

  /** The parseable codes of all the lists. */
  ghost function Listed(attempts: seq<Attempt>): set<string> {
    if attempts == [] then {} else (set c | c in attempts[0].codes && Parses(c)) + Listed(attempts[1..])
  }

  lemma {:induction false} RunsCount(done: set<string>, attempts: seq<Attempt>)
    ensures var marks := MarksOf(Runs(done, attempts));
            && marks !! done && marks <= Listed(attempts)
            && AskCount(Runs(done, attempts)) <= |marks| + Crashes(done, attempts)
    decreases |attempts|
  {
    hide MarksOf;
    if attempts == [] {
      MarksOfShort("");
    } else {
      var first := Trace(true, done, attempts[0].codes, attempts[0].budget);
      var next := done + MarksOf(first);
      var rest := Runs(next, attempts[1..]);
      TraceCount(done, attempts[0].codes, attempts[0].budget);
      TraceMarks(done, attempts[0].codes, attempts[0].budget);
      RunsCount(next, attempts[1..]);
      MarksConcat(first, rest);
      AskConcat(first, rest);
      UnionSize(MarksOf(first), MarksOf(rest));
    }
  }

  /** Over any attempts, the requests are at most one per distinct code that was not done at
      the start, plus one per crash. */
  lemma RequestsBounded(done: set<string>, attempts: seq<Attempt>)
    ensures AskCount(Runs(done, attempts)) <= |Listed(attempts) - done| + Crashes(done, attempts)
  {
    RunsCount(done, attempts);
    var marks := MarksOf(Runs(done, attempts));
    assert marks <= Listed(attempts) - done;
    UnionSize(marks, Listed(attempts) - done - marks);
    assert Listed(attempts) - done == marks + (Listed(attempts) - done - marks);
  }
}
