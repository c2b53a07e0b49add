/** The hand-off from the collecting thread to the ingest thread: a bounded queue with one
    writer and one reader, the stop flag, and the shutdown. Every thread step is one action;
    a run is any list of actions, and an action that is not enabled changes nothing. */
module HandOff {
  import opened Sequences

  type Chunk = nat

  /** The queue is built for 64 records and keeps one free. */
  const CAPACITY := 64

  datatype Outcome = Kept(chunk: Chunk) | Dropped(chunk: Chunk)

  /** Where the ingest thread is; `last` marks the drain after the loop. */
  datatype Worker =
    | AtTest
    | Draining(last: bool)
    | Reading(last: bool)
    | Holding(last: bool, chunk: Chunk)
    | Sleeping
    | Exited

  /** Where the main thread is. A round fetches, then writes its chunks, then fetches the Hong
      Kong quotes, which are not queued, and waits; the last two are one phase. */
  datatype Phase = Fetching | Writing(left: nat) | Waiting | Closing | Joining | Done

  /** What the command was started with: more than one round, and A-share codes to collect. */
  datatype Command = Command(loop: bool, shares: bool)

  /** `log`, `stopMark`, `exitMark` and `abandoned` are history: what became of each offered
      chunk, how many had been offered when the flag was first raised and when the ingest
      thread left, and what the queue held at that moment. */
  datatype State = State(
    phase: Phase, worker: Worker, stop: bool, connected: bool,
    queue: seq<Chunk>, ingested: seq<Chunk>, dropped: nat,
    log: seq<Outcome>, stopMark: nat, exitMark: nat, abandoned: seq<Chunk>)

  datatype Action =
    | Fetched(chunks: nat)
    | Offer(chunk: Chunk)
    | EndRound
    | Signal
    | RaiseStop
    | Join
    | Test
    | Connect(ok: bool)
    | Read
    | Ingest
    | Wake

  const INIT := State(Fetching, AtTest, false, false, [], [], 0, [], 0, 0, [])

  // ---------- the steps ----------

  /** The non-blocking write of an A-share chunk, counted as dropped when the queue is full. */
  function Write(s: State, c: Chunk): State {
    if |s.queue| < CAPACITY - 1 then s.(queue := s.queue + [c], log := s.log + [Kept(c)])
    else s.(dropped := s.dropped + 1, log := s.log + [Dropped(c)])
  }

  function Raise(s: State): State {
    if s.stop then s else s.(stop := true, stopMark := |s.log|)
  }

  /** The return of `drain_all`: to the sleep inside the loop, or out of the thread. */
  function Return(s: State, last: bool): State {
    if last then s.(worker := Exited, exitMark := |s.log|, abandoned := s.queue) else s.(worker := Sleeping)
  }

  function WorkerStep(s: State, a: Action): State {
    match (s.worker, a)
    case (AtTest, Test) => s.(worker := Draining(s.stop))
    case (Draining(last), Connect(ok)) =>
      if s.connected || ok then s.(connected := true, worker := Reading(last)) else Return(s, last)
    case (Reading(last), Read) =>
      if s.queue == [] then Return(s, last)
      else s.(worker := Holding(last, s.queue[0]), queue := s.queue[1..])
    case (Holding(last, c), Ingest) => s.(worker := Reading(last), ingested := s.ingested + [c])
    case (Sleeping, Wake) => s.(worker := AtTest)
    case _ => s
  }

  /** With so many chunks of the round still to write. */
  function ToWrite(left: int): Phase { if left <= 0 then Waiting else Writing(left) }

  /** One step. A round starts without looking at the flag and ends at the loop's test; it has
      no chunk to write when no server was found. */
  function Step(s: State, a: Action, cmd: Command): State {
    match a
    case Fetched(n) => if s.phase == Fetching then s.(phase := ToWrite(if cmd.shares then n else 0)) else s
    case Offer(c) => if s.phase.Writing? then Write(s, c).(phase := ToWrite(s.phase.left - 1)) else s
    case EndRound =>
      if s.phase != Waiting then s else s.(phase := if cmd.loop && !s.stop then Fetching else Closing)
    case Signal => Raise(s)
    case RaiseStop => if s.phase == Closing then Raise(s).(phase := Joining) else s
    case Join => if s.phase == Joining && s.worker == Exited then s.(phase := Done) else s
    case _ => WorkerStep(s, a)
  }

  function Run(actions: seq<Action>, cmd: Command): State {
    if actions == [] then INIT
    else Step(Run(actions[..|actions| - 1], cmd), actions[|actions| - 1], cmd)
  }

  // ---------- what every step keeps ----------

  function KeptOf(log: seq<Outcome>): seq<Chunk> {
    if log == [] then []
    else
      var rest := KeptOf(log[..|log| - 1]);
      match log[|log| - 1]
      case Kept(c) => rest + [c]
      case Dropped(_) => rest
  }

  function InHand(w: Worker): seq<Chunk> { if w.Holding? then [w.chunk] else [] }

  /** The chunks accepted, in the order of the writes, are those ingested, then the one being
      ingested, then those queued. */
  predicate Fifo(s: State) { KeptOf(s.log) == s.ingested + InHand(s.worker) + s.queue }

  predicate Counted(s: State) { |s.log| == |KeptOf(s.log)| + s.dropped && |s.queue| < CAPACITY }

  predicate Ordered(s: State) {
    && s.stopMark <= |s.log|
    && (s.worker.Draining? || s.worker.Reading? || s.worker.Holding? ==> s.worker.last ==> s.stop)
    && (s.phase == Joining || s.phase == Done ==> s.stop)
    && (s.phase == Done ==> s.worker == Exited)
    && (s.worker.Reading? || s.worker.Holding? ==> s.connected)
  }

  /** The chunks accepted since the ingest thread went. */
  function Late(s: State): seq<Chunk> { if s.exitMark <= |s.log| then KeptOf(s.log[s.exitMark..]) else [] }

  /** What is left in the queue after the ingest thread has gone. */
  predicate Left(s: State) {
    s.worker == Exited ==>
      && s.stop && s.stopMark <= s.exitMark <= |s.log|
      && s.queue == s.abandoned + Late(s)
      && (s.connected ==> s.abandoned == [])
  }

  predicate Inv(s: State) { Fifo(s) && Counted(s) && Ordered(s) && Left(s) }

  lemma KeptSnoc(log: seq<Outcome>, o: Outcome)
    ensures KeptOf(log + [o]) == if o.Kept? then KeptOf(log) + [o.chunk] else KeptOf(log)
  {
  }

  lemma LateSnoc(s: State, t: State, o: Outcome)
    requires s.exitMark == t.exitMark <= |s.log| && t.log == s.log + [o]
    ensures Late(t) == if o.Kept? then Late(s) + [o.chunk] else Late(s)
  {
    assert t.log[s.exitMark..] == s.log[s.exitMark..] + [o];
    KeptSnoc(s.log[s.exitMark..], o);
  }

  lemma WriteKeeps(s: State, c: Chunk)
    requires Inv(s)
    ensures Inv(Write(s, c))
  {
    hide KeptOf, Late;
    var o := if |s.queue| < CAPACITY - 1 then Kept(c) else Dropped(c);
    KeptSnoc(s.log, o);
    Associative(s.ingested + InHand(s.worker), s.queue, [c]);
    if s.worker == Exited {
      LateSnoc(s, Write(s, c), o);
      Associative(s.abandoned, Late(s), [c]);
    }
  }

  lemma NothingLate(s: State)
    requires s.exitMark == |s.log|
    ensures Late(s) == []
  {
  }

  lemma ReadKeeps(s: State)
    requires Inv(s) && s.worker.Reading? && s.queue != []
    ensures Inv(WorkerStep(s, Read))
  {
    hide KeptOf, Late;
    Associative(s.ingested, [s.queue[0]], s.queue[1..]);
    assert s.queue == [s.queue[0]] + s.queue[1..] && s.ingested + [] == s.ingested;
  }

  lemma IngestKeeps(s: State)
    requires Inv(s) && s.worker.Holding?
    ensures Inv(WorkerStep(s, Ingest))
  {
    hide KeptOf, Late;
    assert (s.ingested + [s.worker.chunk]) + [] == s.ingested + [s.worker.chunk];
  }

  lemma WorkerKeeps(s: State, a: Action)
    requires Inv(s)
    ensures Inv(WorkerStep(s, a))
  {
    hide KeptOf, Late;
    if s.worker.Reading? && a == Read && s.queue != [] {
      ReadKeeps(s);
    } else if s.worker.Holding? && a == Ingest {
      IngestKeeps(s);
    } else if WorkerStep(s, a).worker == Exited && s.worker != Exited {
      NothingLate(WorkerStep(s, a));
    }
  }

  lemma StepKeeps(s: State, a: Action, cmd: Command)
    requires Inv(s)
    ensures Inv(Step(s, a, cmd))
  {
    hide KeptOf, Write, WorkerStep;
    match a
    case Offer(c) => WriteKeeps(s, c);
    case Test | Connect(_) | Read | Ingest | Wake => WorkerKeeps(s, a);
    case _ =>
  }

  lemma {:induction false} RunKeeps(actions: seq<Action>, cmd: Command)
    ensures Inv(Run(actions, cmd))
  {
    if actions != [] {
      hide Inv, Step;
      var before := actions[..|actions| - 1];
      RunKeeps(before, cmd);
      StepKeeps(Run(before, cmd), actions[|actions| - 1], cmd);
    } else {
      assert KeptOf([]) == [];
    }
  }

  // ---------- the main results ----------

  /** In every interleaving: first in, first out, nothing twice, and every chunk offered is
      ingested, in hand, queued or counted as dropped. */
  lemma Conservation(actions: seq<Action>, cmd: Command)
    ensures var s := Run(actions, cmd);
            && KeptOf(s.log) == s.ingested + InHand(s.worker) + s.queue
            && |s.log| == |s.ingested| + |InHand(s.worker)| + |s.queue| + s.dropped
            && |s.queue| <= 63
  {
    RunKeeps(actions, cmd);
  }

  /** A chunk is dropped exactly when 63 chunks have been accepted and not yet taken from the
      queue. */
  lemma DropsExactlyWhenFull(actions: seq<Action>, cmd: Command, c: Chunk)
    requires Run(actions, cmd).phase.Writing?
    ensures var s := Run(actions, cmd);
            var pending := |KeptOf(s.log)| - |s.ingested| - |InHand(s.worker)|;
            && 0 <= pending <= 63
            && Run(actions + [Offer(c)], cmd).log == s.log + [if pending == 63 then Dropped(c) else Kept(c)]
  {
    RunKeeps(actions, cmd);
    assert (actions + [Offer(c)])[..|actions|] == actions;
  }

  /** With a database that connects, and a stop flag that is first raised after the last write,
      the join leaves nothing behind: offered = ingested + dropped, in order. */
  lemma CleanShutdown(actions: seq<Action>, cmd: Command)
    requires var s := Run(actions, cmd); s.phase == Done && s.connected && s.stopMark == |s.log|
    ensures var s := Run(actions, cmd);
            s.queue == [] && KeptOf(s.log) == s.ingested && |s.log| == |s.ingested| + s.dropped
  {
    RunKeeps(actions, cmd);
    var s := Run(actions, cmd);
    assert s.log[s.exitMark..] == [];
    assert s.ingested + [] + [] == s.ingested;
  }

  predicate StopsLast(s: State) {
    s.stop ==> (s.phase == Joining || s.phase == Done) && s.stopMark == |s.log|
  }

  /** Without a signal the flag is raised by the main thread, after the last write. */
  lemma {:induction false} NoSignalStopsLast(actions: seq<Action>, cmd: Command)
    requires Signal !in actions
    ensures StopsLast(Run(actions, cmd))
  {
    if actions != [] {
      var before, a := actions[..|actions| - 1], actions[|actions| - 1];
      assert a in actions;
      NoSignalStopsLast(before, cmd);
      assert Run(actions, cmd) == Step(Run(before, cmd), a, cmd);
      var s := Run(before, cmd);
      match a
      case Test | Connect(_) | Read | Ingest | Wake => OtherFields(s, a);
      case _ =>
    }
  }

  lemma OtherFields(s: State, a: Action)
    ensures WorkerStep(s, a).stop == s.stop && WorkerStep(s, a).phase == s.phase
         && WorkerStep(s, a).stopMark == s.stopMark && WorkerStep(s, a).log == s.log
  {
  }

  /** A signal during a round loses chunks although none is counted as dropped: the thread
      sees the flag, drains the empty queue and leaves before the round's write. */
  lemma SignalBeforeTheWriteLoses(cmd: Command, c: Chunk)
    requires cmd.shares
    ensures var s := Run([Signal, Test, Connect(true), Read, Fetched(1), Offer(c), EndRound, RaiseStop, Join], cmd);
            s.phase == Done && s.connected && s.ingested == [] && s.dropped == 0 && s.queue == [c]
  {
    hide Run, Step;
    var all := [Signal, Test, Connect(true), Read, Fetched(1), Offer(c), EndRound, RaiseStop, Join];
    var s1 := INIT.(stop := true);
    var s4 := s1.(connected := true, worker := Exited);
    var s6 := s4.(queue := [c], log := [Kept(c)], phase := Waiting);
    Beginning(s1, s4, cmd);
    Ending(s4, s6, c, cmd);
    RunNext(all, 0, cmd);
    RunNext(all, 1, cmd);
    RunNext(all, 2, cmd);
    RunNext(all, 3, cmd);
    RunNext(all, 4, cmd);
    RunNext(all, 5, cmd);
    RunNext(all, 6, cmd);
    RunNext(all, 7, cmd);
    RunNext(all, 8, cmd);
    assert all[..9] == all;
  }

  lemma Beginning(s1: State, s4: State, cmd: Command)
    requires s1 == INIT.(stop := true) && s4 == s1.(connected := true, worker := Exited)
    ensures Step(INIT, Signal, cmd) == s1
    ensures Step(Step(Step(s1, Test, cmd), Connect(true), cmd), Read, cmd) == s4
  {
  }

  lemma Ending(s4: State, s6: State, c: Chunk, cmd: Command)
    requires cmd.shares
    requires s4.stop && s4.phase == Fetching && s4.worker == Exited && s4.queue == [] && s4.log == []
    requires s6 == s4.(queue := [c], log := [Kept(c)], phase := Waiting)
    ensures Step(Step(s4, Fetched(1), cmd), Offer(c), cmd) == s6
    ensures Step(Step(Step(s6, EndRound, cmd), RaiseStop, cmd), Join, cmd) == s6.(phase := Done)
  {
  }

  lemma RunNext(actions: seq<Action>, k: nat, cmd: Command)
    requires k < |actions|
    ensures k == 0 ==> Run(actions[..k], cmd) == INIT
    ensures Run(actions[..k + 1], cmd) == Step(Run(actions[..k], cmd), actions[k], cmd)
  {
    assert actions[..k + 1][..k] == actions[..k];
  }

  // ---------- the join returns ----------

  predicate OfWorker(a: Action) { a.Test? || a.Connect? || a.Read? || a.Ingest? || a.Wake? }

  /** An upper bound on the steps the ingest thread still takes once the flag is raised and
      nothing more is written. */
  function StepsLeft(s: State): nat {
    match s.worker
    case Exited => 0
    case Reading(last) => 2 * |s.queue| + if last then 1 else 5
    case Holding(last, _) => 2 * |s.queue| + if last then 2 else 6
    case Draining(last) => 2 * |s.queue| + if last then 2 else 6
    case AtTest => 2 * |s.queue| + 3
    case Sleeping => 2 * |s.queue| + 4
  }

  /** The ingest thread's actions in a row, each of which does something. */
  predicate Progress(s: State, actions: seq<Action>)
    decreases |actions|
  {
    actions == [] ||
    (OfWorker(actions[0]) && WorkerStep(s, actions[0]) != s && Progress(WorkerStep(s, actions[0]), actions[1..]))
  }

  lemma OneNearer(s: State, a: Action)
    requires s.stop && WorkerStep(s, a) != s
    ensures WorkerStep(s, a).stop && StepsLeft(WorkerStep(s, a)) < StepsLeft(s)
  {
  }

  /** Whatever the database does, the ingest thread can step until it has left and takes no
      more than `StepsLeft` steps before: the join returns. */
  lemma {:induction false} JoinReturns(s: State, actions: seq<Action>)
    requires s.stop && Progress(s, actions)
    ensures |actions| <= StepsLeft(s)
    ensures s.worker == Exited <==> forall a :: OfWorker(a) ==> WorkerStep(s, a) == s
    decreases |actions|
  {
    if actions != [] {
      OneNearer(s, actions[0]);
      JoinReturns(WorkerStep(s, actions[0]), actions[1..]);
    }
    match s.worker
    case AtTest => assert WorkerStep(s, Test) != s;
    case Draining(last) => assert WorkerStep(s, Connect(true)) != s;
    case Reading(last) => assert WorkerStep(s, Read) != s;
    case Holding(last, c) => assert WorkerStep(s, Ingest) != s;
    case Sleeping => assert WorkerStep(s, Wake) != s;
    case Exited =>
  }

  // ---------- a database that does not connect ----------

  /** While no connection succeeds nothing is ingested, and all that was accepted is still in the
      queue; and a failed connection ends the drain: the thread sleeps and tries again, or
      leaves if the loop is over. */
  lemma {:induction false} NothingIngestedUnconnected(actions: seq<Action>, cmd: Command)
    requires Connect(true) !in actions
    ensures var s := Run(actions, cmd);
            && !s.connected && s.ingested == [] && !s.worker.Reading? && !s.worker.Holding? && KeptOf(s.log) == s.queue
            && (s.worker.Draining? ==>
                  Run(actions + [Connect(false)], cmd).worker == if s.worker.last then Exited else Sleeping)
  {
    assert (actions + [Connect(false)])[..|actions|] == actions;
    RunKeeps(actions, cmd);
    hide KeptOf, Late;
    if actions != [] {
      var before, a := actions[..|actions| - 1], actions[|actions| - 1];
      assert a in actions;
      NothingIngestedUnconnected(before, cmd);
      UnconnectedStep(Run(before, cmd), a, cmd);
    }
    assert [] + [] + Run(actions, cmd).queue == Run(actions, cmd).queue;
  }

  lemma UnconnectedStep(s: State, a: Action, cmd: Command)
    requires !s.connected && !s.worker.Reading? && !s.worker.Holding? && a != Connect(true)
    ensures var t := Step(s, a, cmd);
            !t.connected && t.ingested == s.ingested && !t.worker.Reading? && !t.worker.Holding?
  {
  }

  // ---------- when a shutdown is clean ----------

  /** The run that goes on from a state. */
  function RunFrom(s: State, more: seq<Action>, cmd: Command): State
    decreases |more|
  {
    if more == [] then s else RunFrom(Step(s, more[0], cmd), more[1..], cmd)
  }

  lemma {:induction false} RunGoesOn(actions: seq<Action>, more: seq<Action>, cmd: Command)
    ensures Run(actions + more, cmd) == RunFrom(Run(actions, cmd), more, cmd)
    decreases |more|
  {
    hide Step;
    if more == [] {
      assert actions + more == actions;
    } else {
      assert actions + more == (actions + [more[0]]) + more[1..];
      assert (actions + [more[0]])[..|actions|] == actions;
      RunGoesOn(actions + [more[0]], more[1..], cmd);
    }
  }

  /** The database connects whenever it is tried. */
  predicate Connecting(actions: seq<Action>) { Connect(false) !in actions }

  /** The ingest thread's next step. */
  function NextOf(w: Worker): Action
    requires w != Exited
  {
    match w
    case AtTest => Test
    case Draining(_) => Connect(true)
    case Reading(_) => Read
    case Holding(_, _) => Ingest
    case Sleeping => Wake
  }

  /** Once the flag is raised the ingest thread can run to its end before anyone else moves. */
  lemma {:induction false} WorkerCanLeave(s: State, cmd: Command) returns (more: seq<Action>)
    requires s.stop
    ensures Connecting(more) && Signal !in more
    ensures var t := RunFrom(s, more, cmd);
            t.worker == Exited && t.stop && t.phase == s.phase
    decreases StepsLeft(s)
  {
    if s.worker == Exited {
      more := [];
    } else {
      var a := NextOf(s.worker);
      OneNearer(s, a);
      OtherFields(s, a);
      var rest := WorkerCanLeave(WorkerStep(s, a), cmd);
      more := [a] + rest;
    }
  }

  /** Chunks of this round are still to be written. With the flag up it is the last round. */
  predicate WriteAhead(s: State, cmd: Command) { s.phase.Writing? || (s.phase == Fetching && cmd.shares) }

  /** The ingest thread has gone and left chunks behind, or chunks were written since. */
  predicate Stranded(s: State) { s.worker == Exited && s.queue != [] }

  /** The flag is down, or no write is left and the ingest thread has or gets every chunk. */
  predicate Safe(s: State, cmd: Command) { s.stop ==> !WriteAhead(s, cmd) && !Stranded(s) }

  /** No signal, and a database that connects whenever it is tried. */
  predicate Quiet(actions: seq<Action>) { Connecting(actions) && Signal !in actions }

  // ---------- a schedule that loses ----------

  function PhasesLeft(p: Phase): nat {
    match p
    case Writing(_) => 5
    case Fetching => 4
    case Waiting => 3
    case Closing => 2
    case Joining => 1
    case Done => 0
  }

  /** With the ingest thread gone, the main thread comes to its end with the queue it leaves. */
  lemma {:induction false} EndsStranded(s: State, cmd: Command) returns (more: seq<Action>)
    requires Stranded(s) && s.stop && !WriteAhead(s, cmd)
    ensures Quiet(more) && RunFrom(s, more, cmd).phase == Done && Stranded(RunFrom(s, more, cmd))
    decreases PhasesLeft(s.phase)
  {
    if s.phase == Done {
      more := [];
    } else {
      var a := match s.phase
        case Fetching => Fetched(0)
        case Waiting => EndRound
        case Closing => RaiseStop
        case _ => Join;
      var rest := EndsStranded(Step(s, a, cmd), cmd);
      more := [a] + rest;
    }
  }

  /** With the ingest thread gone, what the round still writes stays in the queue. */
  lemma {:induction false} WritesStranded(s: State, c: Chunk, cmd: Command) returns (more: seq<Action>)
    requires s.worker == Exited && s.stop && s.phase.Writing?
    ensures Quiet(more)
    ensures var t := RunFrom(s, more, cmd); Stranded(t) && t.stop && t.phase == Waiting
    decreases s.phase.left
  {
    var t := Step(s, Offer(c), cmd);
    assert Stranded(t) && t.stop;
    if t.phase == Waiting {
      more := [Offer(c)];
      assert RunFrom(t, [], cmd) == t;
    } else {
      var rest := WritesStranded(t, c, cmd);
      more := [Offer(c)] + rest;
    }
  }

  lemma {:induction false} RunFromJoin(s: State, x: seq<Action>, y: seq<Action>, cmd: Command)
    ensures RunFrom(s, x + y, cmd) == RunFrom(RunFrom(s, x, cmd), y, cmd)
    ensures Quiet(x) && Quiet(y) ==> Quiet(x + y)
    decreases |x|
  {
    hide Step;
    if x == [] {
      assert x + y == y;
    } else {
      assert (x + y)[1..] == x[1..] + y;
      RunFromJoin(Step(s, x[0], cmd), x[1..], y, cmd);
    }
  }

  /** From a state that is not safe, whatever the number `n` of chunks the round will yield. */
  lemma UnsafeCanStrand(s: State, n: nat, c: Chunk, cmd: Command) returns (more: seq<Action>)
    requires !Safe(s, cmd) && 0 < n
    ensures Quiet(more) && RunFrom(s, more, cmd).phase == Done && Stranded(RunFrom(s, more, cmd))
  {
    hide Step, RunFrom;
    more := [];
    RunFromNothing(s, cmd);
    if WriteAhead(s, cmd) {
      more := WorkerCanLeave(s, cmd);
      var t := RunFrom(s, more, cmd);
      if t.phase == Fetching {
        FetchesSome(t, n, cmd);
        RunFromJoin(s, more, [Fetched(n)], cmd);
        more := more + [Fetched(n)];
      }
      t := RunFrom(s, more, cmd);
      var writes := WritesStranded(t, c, cmd);
      RunFromJoin(s, more, writes, cmd);
      more := more + writes;
    }
    var ends := EndsStranded(RunFrom(s, more, cmd), cmd);
    RunFromJoin(s, more, ends, cmd);
    more := more + ends;
  }

  lemma RunFromNothing(s: State, cmd: Command)
    ensures RunFrom(s, [], cmd) == s
  {
  }

  lemma FetchesSome(s: State, n: nat, cmd: Command)
    requires s.phase == Fetching && cmd.shares && 0 < n
    ensures RunFrom(s, [Fetched(n)], cmd) == s.(phase := Writing(n))
  {
    assert [Fetched(n)][1..] == [];
    RunFromNothing(Step(s, Fetched(n), cmd), cmd);
  }

  /** From every reachable state with the flag up and writes of the round ahead, or chunks
      already left behind, some schedule loses a chunk that is not counted, although the
      database connects, however many chunks the round yields. */
  lemma RaisedTooEarlyCanLose(actions: seq<Action>, cmd: Command, n: nat, c: Chunk) returns (more: seq<Action>)
    requires !Safe(Run(actions, cmd), cmd) && 0 < n
    ensures Quiet(more)
    ensures var t := Run(actions + more, cmd);
            t.phase == Done && |t.log| > |t.ingested| + t.dropped
  {
    hide Step, Run, RunFrom;
    more := UnsafeCanStrand(Run(actions, cmd), n, c, cmd);
    RunGoesOn(actions, more, cmd);
    Conservation(actions + more, cmd);
  }

  // ---------- and none that does ----------

  lemma StepIsSafe(s: State, a: Action, cmd: Command)
    requires Inv(s) && Safe(s, cmd) && a != Signal && a != Connect(false)
    ensures Safe(Step(s, a, cmd), cmd)
  {
    hide KeptOf, Late, Fifo, Counted;
  }

  lemma {:induction false} StaysSafe(actions: seq<Action>, more: seq<Action>, cmd: Command)
    requires Safe(Run(actions, cmd), cmd) && Quiet(more)
    ensures Safe(Run(actions + more, cmd), cmd)
    decreases |more|
  {
    hide Step, Inv, Safe;
    if more == [] {
      assert actions + more == actions;
    } else {
      RunKeeps(actions, cmd);
      assert more[0] in more;
      StepIsSafe(Run(actions, cmd), more[0], cmd);
      assert (actions + [more[0]])[..|actions|] == actions;
      StaysSafe(actions + [more[0]], more[1..], cmd);
      assert actions + more == (actions + [more[0]]) + more[1..];
    }
  }

  predicate LosesNothing(s: State) { |s.log| == |s.ingested| + s.dropped }

  /** Every quiet way on from here to the end loses nothing that is not counted. */
  ghost predicate EndsClean(actions: seq<Action>, cmd: Command) {
    forall more :: Quiet(more) && Run(actions + more, cmd).phase == Done ==> LosesNothing(Run(actions + more, cmd))
  }

  /** From every reachable state: every completion without a further signal and with a database
      that connects is clean if and only if the flag is down, or no write of the round is left
      and the ingest thread, if it has gone, has left the queue empty. */
  lemma CleanExactly(actions: seq<Action>, cmd: Command)
    ensures EndsClean(actions, cmd) <==> Safe(Run(actions, cmd), cmd)
  {
    hide Run, Step, Quiet;
    if Safe(Run(actions, cmd), cmd) {
      forall more | Quiet(more) && Run(actions + more, cmd).phase == Done
        ensures LosesNothing(Run(actions + more, cmd))
      {
        StaysSafe(actions, more, cmd);
        RunKeeps(actions + more, cmd);
        Conservation(actions + more, cmd);
      }
    } else {
      var more := RaisedTooEarlyCanLose(actions, cmd, 1, 0);
      assert !LosesNothing(Run(actions + more, cmd));
    }
  }

  /** A first signal is harmless if and only if no write of its round is left: during the wait,
      the Hong Kong round or the last steps it loses nothing, before a write it can. */
  lemma SignalIsHarmlessExactly(actions: seq<Action>, cmd: Command)
    requires !Run(actions, cmd).stop
    ensures EndsClean(actions, cmd)
    ensures EndsClean(actions + [Signal], cmd) <==> !WriteAhead(Run(actions, cmd), cmd)
  {
    hide Run, Step, EndsClean, Quiet;
    CleanExactly(actions, cmd);
    CleanExactly(actions + [Signal], cmd);
    Signalled(actions, cmd);
  }

  lemma Signalled(actions: seq<Action>, cmd: Command)
    requires !Run(actions, cmd).stop
    ensures Safe(Run(actions, cmd), cmd)
    ensures Safe(Run(actions + [Signal], cmd), cmd) <==> !WriteAhead(Run(actions, cmd), cmd)
  {
    RunKeeps(actions, cmd);
    assert (actions + [Signal])[..|actions|] == actions;
    hide Run, KeptOf, Late;
  }

  // ---------- rounds ----------

  /** With `loop` and without a signal the collection never comes to an end: after a round comes
      another ... */
  lemma {:induction false} LoopNeverCloses(actions: seq<Action>, cmd: Command)
    requires cmd.loop && Signal !in actions
    ensures var s := Run(actions, cmd); !s.stop && (s.phase == Fetching || s.phase.Writing? || s.phase == Waiting)
    ensures Run(actions, cmd).phase == Waiting ==> Run(actions + [EndRound], cmd).phase == Fetching
  {
    assert (actions + [EndRound])[..|actions|] == actions;
    if actions != [] {
      var before, a := actions[..|actions| - 1], actions[|actions| - 1];
      assert a in actions;
      LoopNeverCloses(before, cmd);
      match a
      case Test | Connect(_) | Read | Ingest | Wake => OtherFields(Run(before, cmd), a);
      case _ =>
    }
  }

  /** ... and without `loop` there is one round: what has been fetched is never fetched again, and
      the collection closes after it. */
  lemma {:induction false} OneRoundWithoutLoop(actions: seq<Action>, more: seq<Action>, cmd: Command)
    requires !cmd.loop && Run(actions, cmd).phase != Fetching
    ensures Run(actions + more, cmd).phase != Fetching
    ensures Run(actions, cmd).phase == Waiting ==> Run(actions + [EndRound], cmd).phase == Closing
  {
    assert (actions + [EndRound])[..|actions|] == actions;
    if more == [] {
      assert actions + more == actions;
    } else {
      var front, a := more[..|more| - 1], more[|more| - 1];
      assert (actions + more)[..|actions + more| - 1] == actions + front;
      OneRoundWithoutLoop(actions, front, cmd);
      match a
      case Test | Connect(_) | Read | Ingest | Wake => OtherFields(Run(actions + front, cmd), a);
      case _ =>
    }
  }
}
