/** The circuit breaker: a timed state machine with capped exponential backoff. The clock is a
    parameter of every call that reads it. */
module CircuitBreaker {
  import opened Powers

  datatype State = Closed | Open | HalfOpen

  /** The breaker's fields as a value. */
  datatype Breaker = Breaker(state: State, failures: int, recoveries: nat, threshold: int,
                             timeout: nat, openTime: int)

  datatype Call = Allow(now: int) | Success | Failure(now: int)

  const MAX_EXPONENT := 5

  function Multiplier(recoveries: nat): nat { Pow2(if recoveries < MAX_EXPONENT then recoveries else MAX_EXPONENT) }

  function New(threshold: int, timeout: nat): Breaker { Breaker(Closed, 0, 0, threshold, timeout, 0) }

  /** Whether a request at `now` is let through. */
  predicate Admits(b: Breaker, now: int) {
    b.state == Open ==> now - b.openTime >= b.timeout * Multiplier(b.recoveries)
  }

  function Counted(b: Breaker): int { if b.failures < b.threshold * 10 then b.failures + 1 else b.failures }

  function Step(b: Breaker, call: Call): Breaker {
    match call
    case Allow(now) => if b.state == Open && Admits(b, now) then b.(state := HalfOpen) else b
    case Success => b.(state := Closed, failures := 0, recoveries := 0)
    case Failure(now) =>
      if b.state == HalfOpen then
        b.(state := Open, failures := Counted(b), recoveries := b.recoveries + 1, openTime := now)
      else if b.state == Closed && Counted(b) >= b.threshold then
        b.(state := Open, failures := Counted(b), recoveries := 0, openTime := now)
      else b.(failures := Counted(b))
  }

  // ---------- the breaker ----------

  class CircuitBreaker {
    var state: State
    var failureCount: int
    var recoveryFailures: nat
    const failureThreshold: int
    const recoveryTimeout: nat
    var openTime: int

    ghost function Value(): Breaker
      reads this
    {
      Breaker(state, failureCount, recoveryFailures, failureThreshold, recoveryTimeout, openTime)
    }

    constructor (failureThreshold: int, recoveryTimeout: nat)
      ensures Value() == New(failureThreshold, recoveryTimeout)
    {
      state := Closed;
      failureCount := 0;
      recoveryFailures := 0;
      this.failureThreshold := failureThreshold;
      this.recoveryTimeout := recoveryTimeout;
      openTime := 0;
    }

    method AllowRequest(now: int) returns (ok: bool)
      modifies this
      ensures ok <==> Admits(old(Value()), now)
      ensures Value() == Step(old(Value()), Allow(now))
    {
      if state == Open {
        var exponent := if recoveryFailures < 5 then recoveryFailures else 5;
        var backoff := recoveryTimeout * Pow2(exponent);
        if now - openTime >= backoff {
          Transition(HalfOpen, now);
          return true;
        }
        return false;
      }
      return true;
    }

    method RecordSuccess(now: int)
      modifies this
      ensures Value() == Step(old(Value()), Success)
    {
      failureCount := 0;
      recoveryFailures := 0;
      if state != Closed {
        Transition(Closed, now);
      }
    }

    method RecordFailure(now: int)
      modifies this
      ensures Value() == Step(old(Value()), Failure(now))
    {
      if failureCount < failureThreshold * 10 {
        failureCount := failureCount + 1;
      }
      if state == HalfOpen {
        recoveryFailures := recoveryFailures + 1;
        Transition(Open, now);
      } else if state == Closed && failureCount >= failureThreshold {
        recoveryFailures := 0;
        Transition(Open, now);
      }
    }

    method Transition(s: State, now: int)
      modifies this
      ensures state == s && recoveryFailures == old(recoveryFailures)
      ensures openTime == if s == Open then now else old(openTime)
      ensures failureCount == if s == Closed then 0 else old(failureCount)
    {
      state := s;
      if s == Open {
        openTime := now;
      } else if s == Closed {
        failureCount := 0;
      }
    }
  }

  // ---------- runs ----------

  function Run(b: Breaker, calls: seq<Call>): (r: Breaker)
    ensures r.threshold == b.threshold && r.timeout == b.timeout
  {
    if calls == [] then b else Step(Run(b, calls[..|calls| - 1]), calls[|calls| - 1])
  }

  lemma {:induction false} RunConcat(b: Breaker, x: seq<Call>, y: seq<Call>)
    ensures Run(b, x + y) == Run(Run(b, x), y)
  {
    if y == [] {
      assert x + y == x;
    } else {
      assert (x + y)[..|x + y| - 1] == x + y[..|y| - 1];
      RunConcat(b, x, y[..|y| - 1]);
    }
  }

  predicate Probes(b: Breaker, call: Call) { b.state == Open && Step(b, call).state == HalfOpen }

  /** OPEN to HALF_OPEN steps of a run. */
  function ProbeCount(b: Breaker, calls: seq<Call>): nat {
    if calls == [] then 0
    else
      var front := calls[..|calls| - 1];
      ProbeCount(b, front) + if Probes(Run(b, front), calls[|calls| - 1]) then 1 else 0
  }

  /** Sum of the first `k` backoff multipliers. */
  function Backoff(k: nat): nat {
    if k == 0 then 0 else Backoff(k - 1) + Multiplier(k - 1)
  }

  lemma {:induction false} BackoffClosedForm(k: nat)
    ensures Backoff(k) == if k <= 6 then Pow2(k) - 1 else 63 + 32 * (k - 6)
  {
    if k > 0 {
      BackoffClosedForm(k - 1);
      SmallPowers();
    }
  }

  predicate NoSuccess(calls: seq<Call>) { forall i :: 0 <= i < |calls| ==> !calls[i].Success? }

  /** The clock never runs back, starting from `start`. */
  predicate Monotone(start: int, calls: seq<Call>)
    requires NoSuccess(calls)
  {
    forall i :: 0 <= i < |calls| ==>
      calls[i].now >= start && (i > 0 ==> calls[i].now >= calls[i - 1].now)
  }

  /** Time of the last call, or `start`. */
  function Last(start: int, calls: seq<Call>): int
    requires NoSuccess(calls)
  {
    if calls == [] then start else calls[|calls| - 1].now
  }

  /** Earliest time of the `k`-th probe after an opening. */
  function Earliest(b: Breaker, k: nat): int { b.openTime + b.timeout * Backoff(k) }

  lemma EarliestStep(b: Breaker, k: nat)
    ensures Earliest(b, k + 1) == Earliest(b, k) + b.timeout * Multiplier(k)
    ensures Earliest(b, k) <= Earliest(b, k + 1)
  {
    assert b.timeout * (Backoff(k) + Multiplier(k)) == b.timeout * Backoff(k) + b.timeout * Multiplier(k);
  }

  /** After an opening and without success: the breaker is never closed, its recovery count is
      the number of failed probes, and it opened no earlier than the backoffs allow. */
  lemma {:induction false} ProbesAreSpaced(b: Breaker, calls: seq<Call>)
    requires b.state == Open && b.recoveries == 0
    requires NoSuccess(calls) && Monotone(b.openTime, calls)
    ensures var r := Run(b, calls);
            var k := ProbeCount(b, calls);
            match r.state
            case Closed => false
            case Open => r.recoveries == k && Earliest(b, k) <= r.openTime <= Last(b.openTime, calls)
            case HalfOpen => r.recoveries + 1 == k && Earliest(b, k) <= Last(b.openTime, calls)
  {
    if calls != [] {
      var front, call := calls[..|calls| - 1], calls[|calls| - 1];
      ProbesAreSpaced(b, front);
      assert |front| > 0 ==> call.now >= calls[|calls| - 2].now;
      EarliestStep(b, ProbeCount(b, front));
      hide Multiplier, Earliest;
    }
  }

  /** In every run, from an opening out of CLOSED and as long as no success is recorded, the
      `k`-th OPEN to HALF_OPEN step comes no sooner than the base timeout times
      1 + 2 + 4 + 8 + 16 + 32 + 32 + ... (`k` terms) after the opening. */
  lemma ProbeDelay(threshold: int, timeout: nat, before: seq<Call>, opening: Call, after: seq<Call>, probe: Call)
    requires Run(New(threshold, timeout), before).state == Closed
    requires opening.Failure? && Run(New(threshold, timeout), before + [opening]).state == Open
    requires NoSuccess(after + [probe]) && Monotone(opening.now, after + [probe])
    requires Probes(Run(New(threshold, timeout), before + [opening] + after), probe)
    ensures var b := Run(New(threshold, timeout), before + [opening]);
            var k := ProbeCount(b, after + [probe]);
            && 1 <= k
            && probe.now >= opening.now + timeout * Backoff(k)
            && Backoff(k) == if k <= 6 then Pow2(k) - 1 else 63 + 32 * (k - 6)
  {
    var b0 := New(threshold, timeout);
    var b := Run(b0, before + [opening]);
    OpeningResets(b0, before, opening);
    RunConcat(b0, before + [opening], after);
    RunConcat(b0, before + [opening], after + [probe]);
    ProbesAreSpaced(b, after + [probe]);
    assert (after + [probe])[..|after|] == after;
    BackoffClosedForm(ProbeCount(b, after + [probe]));
  }

  lemma OpeningResets(b0: Breaker, before: seq<Call>, opening: Call)
    requires Run(b0, before).state == Closed && opening.Failure?
    requires Run(b0, before + [opening]).state == Open
    ensures var b := Run(b0, before + [opening]);
            b.recoveries == 0 && b.openTime == opening.now && b.timeout == b0.timeout
  {
  }

  // ---------- opening ----------

  /** Failures recorded since the last success, or since the start. */
  function FailuresSince(calls: seq<Call>): nat {
    if calls == [] then 0
    else
      var front := calls[..|calls| - 1];
      match calls[|calls| - 1]
      case Success => 0
      case Failure(_) => FailuresSince(front) + 1
      case Allow(_) => FailuresSince(front)
  }

  lemma {:induction false} ClosedCountsFailures(threshold: int, timeout: nat, calls: seq<Call>)
    ensures var r := Run(New(threshold, timeout), calls);
            r.state == Closed ==> r.failures == FailuresSince(calls) && (r.failures == 0 || r.failures < threshold)
  {
    if calls != [] {
      ClosedCountsFailures(threshold, timeout, calls[..|calls| - 1]);
    }
  }

  /** CLOSED opens exactly on the failure that completes `threshold` failures with no success
      between them, and on nothing else. */
  lemma OpensAtThreshold(threshold: int, timeout: nat, calls: seq<Call>, call: Call)
    requires Run(New(threshold, timeout), calls).state == Closed
    ensures (Run(New(threshold, timeout), calls + [call]).state == Open)
              <==> (call.Failure? && FailuresSince(calls + [call]) >= threshold)
  {
    assert (calls + [call])[..|calls|] == calls;
    ClosedCountsFailures(threshold, timeout, calls);
  }

  // ---------- half open ----------

  predicate OnlyRequests(calls: seq<Call>) { forall i :: 0 <= i < |calls| ==> calls[i].Allow? }

  /** HALF_OPEN is not limited to one probe: every request is admitted until an outcome is
      recorded, at any time and any number of times. */
  lemma {:induction false} HalfOpenAdmitsEveryRequest(b: Breaker, calls: seq<Call>, now: int)
    requires b.state == HalfOpen && OnlyRequests(calls)
    ensures Run(b, calls) == b && Admits(Run(b, calls), now)
  {
    if calls != [] {
      HalfOpenAdmitsEveryRequest(b, calls[..|calls| - 1], now);
    }
  }

  /** The requests of a run that are let through. */
  function AdmittedCount(b: Breaker, calls: seq<Call>): nat {
    if calls == [] then 0
    else
      var front, last := calls[..|calls| - 1], calls[|calls| - 1];
      AdmittedCount(b, front) + if last.Allow? && Admits(Run(b, front), last.now) then 1 else 0
  }

  lemma {:induction false} HalfOpenCounts(b: Breaker, calls: seq<Call>)
    requires b.state == HalfOpen && OnlyRequests(calls)
    ensures AdmittedCount(b, calls) == |calls|
  {
    if calls != [] {
      var front := calls[..|calls| - 1];
      HalfOpenCounts(b, front);
      HalfOpenAdmitsEveryRequest(b, front, calls[|calls| - 1].now);
    }
  }

  lemma {:induction false} CountGoesOn(b: Breaker, x: seq<Call>, y: seq<Call>)
    ensures AdmittedCount(b, x + y) == AdmittedCount(b, x) + AdmittedCount(Run(b, x), y)
  {
    if y == [] {
      assert x + y == x;
    } else {
      assert (x + y)[..|x + y| - 1] == x + y[..|y| - 1];
      CountGoesOn(b, x, y[..|y| - 1]);
      RunConcat(b, x, y[..|y| - 1]);
    }
  }

  /** In every run of a new breaker: the request that turns it half open and all that follow
      before an outcome is recorded are admitted, so there is one probe if and only if there
      is one request. */
  lemma ProbesAreAsManyAsAsked(threshold: int, timeout: nat, before: seq<Call>, first: Call, asked: seq<Call>)
    requires first.Allow? && Probes(Run(New(threshold, timeout), before), first) && OnlyRequests(asked)
    ensures var b := New(threshold, timeout);
            && AdmittedCount(b, before + [first] + asked) == AdmittedCount(b, before) + 1 + |asked|
            && (AdmittedCount(b, before + [first] + asked) - AdmittedCount(b, before) == 1 <==> asked == [])
  {
    var b := New(threshold, timeout);
    assert (before + [first])[..|before|] == before;
    CountGoesOn(b, before + [first], asked);
    HalfOpenCounts(Run(b, before + [first]), asked);
  }

  // ---------- recovery, exactly ----------

  /** One failed round of recovery: what happens until a request is admitted, that request, the
      requests beside it, and the failure that ends the round. */
  datatype Round = Round(waiting: seq<Call>, probe: int, beside: seq<Call>, failed: int)

  function CallsOf(rounds: seq<Round>): seq<Call> {
    if rounds == [] then []
    else
      var last := rounds[|rounds| - 1];
      CallsOf(rounds[..|rounds| - 1]) + (last.waiting + [Allow(last.probe)] + last.beside + [Failure(last.failed)])
  }

  /** The failure that tripped the breaker last. */
  function LastFailure(tripped: int, rounds: seq<Round>): int {
    if rounds == [] then tripped else rounds[|rounds| - 1].failed
  }

  /** When the breaker that tripped at `tripped` and failed `rounds` may be tried again. */
  function Due(timeout: nat, tripped: int, rounds: seq<Round>): int {
    LastFailure(tripped, rounds) + timeout * [1, 2, 4, 8, 16, 32][if |rounds| < 5 then |rounds| else 5]
  }

  /** Only failures, and requests before `due`. */
  predicate Waits(calls: seq<Call>, due: int) {
    forall c :: c in calls ==> c.Failure? || (c.Allow? && c.now < due)
  }

  predicate RoundsOk(timeout: nat, tripped: int, rounds: seq<Round>) {
    rounds == [] ||
    var front, last := rounds[..|rounds| - 1], rounds[|rounds| - 1];
    && RoundsOk(timeout, tripped, front)
    && Waits(last.waiting, Due(timeout, tripped, front)) && last.probe >= Due(timeout, tripped, front)
    && OnlyRequests(last.beside)
  }

  predicate OpenSince(b: Breaker, tripped: int, rounds: seq<Round>) {
    b.state == Open && b.recoveries == |rounds| && b.openTime == LastFailure(tripped, rounds)
  }

  lemma AdmitsWhenDue(b: Breaker, tripped: int, rounds: seq<Round>, now: int)
    requires OpenSince(b, tripped, rounds)
    ensures Admits(b, now) <==> now >= Due(b.timeout, tripped, rounds)
  {
    SmallPowers();
    assert Multiplier(|rounds|) == [1, 2, 4, 8, 16, 32][if |rounds| < 5 then |rounds| else 5];
  }

  lemma {:induction false} WaitingKeeps(b: Breaker, tripped: int, rounds: seq<Round>, calls: seq<Call>)
    requires OpenSince(b, tripped, rounds) && Waits(calls, Due(b.timeout, tripped, rounds))
    ensures OpenSince(Run(b, calls), tripped, rounds)
  {
    if calls != [] {
      hide Admits, Due;
      var front, last := calls[..|calls| - 1], calls[|calls| - 1];
      assert calls == front + [last] && last in calls;
      WaitingKeeps(b, tripped, rounds, front);
      if last.Allow? {
        AdmitsWhenDue(Run(b, front), tripped, rounds, last.now);
      }
    }
  }

  lemma OneRound(b: Breaker, tripped: int, front: seq<Round>, last: Round)
    requires OpenSince(b, tripped, front) && RoundsOk(b.timeout, tripped, front + [last])
    ensures OpenSince(Run(b, last.waiting + [Allow(last.probe)] + last.beside + [Failure(last.failed)]),
                      tripped, front + [last])
  {
    assert (front + [last])[..|front|] == front;
    var x := last.waiting;
    WaitingKeeps(b, tripped, front, x);
    AdmitsWhenDue(Run(b, x), tripped, front, last.probe);
    assert (x + [Allow(last.probe)])[..|x|] == x;
    var y := x + [Allow(last.probe)];
    assert Run(b, y).state == HalfOpen;
    RunConcat(b, y, last.beside);
    if last.beside == [] {
      assert Run(Run(b, y), last.beside) == Run(b, y);
    } else {
      HalfOpenAdmitsEveryRequest(Run(b, y), last.beside, 0);
    }
    assert (y + last.beside + [Failure(last.failed)])[..|y + last.beside|] == y + last.beside;
  }

  lemma {:induction false} RoundsRun(b: Breaker, tripped: int, rounds: seq<Round>)
    requires OpenSince(b, tripped, []) && RoundsOk(b.timeout, tripped, rounds)
    ensures OpenSince(Run(b, CallsOf(rounds)), tripped, rounds)
  {
    if rounds != [] {
      hide RoundsOk, OpenSince;
      var front, last := rounds[..|rounds| - 1], rounds[|rounds| - 1];
      assert rounds == front + [last];
      assert RoundsOk(b.timeout, tripped, front) by { FrontOk(b.timeout, tripped, front, last); }
      RoundsRun(b, tripped, front);
      var calls := last.waiting + [Allow(last.probe)] + last.beside + [Failure(last.failed)];
      OneRound(Run(b, CallsOf(front)), tripped, front, last);
      RunConcat(b, CallsOf(front), calls);
    }
  }

  lemma FrontOk(timeout: nat, tripped: int, front: seq<Round>, last: Round)
    requires RoundsOk(timeout, tripped, front + [last])
    ensures RoundsOk(timeout, tripped, front)
  {
    assert (front + [last])[..|front|] == front;
  }

  /** Recovery comes when it is due, and no later. On every run of a new breaker: after a failure
      at `tripped` that completes the threshold, and `k` rounds of an admitted request and a
      failure, the last failure at `t`, a request is admitted if and only if its time is at least
      `t` plus the base timeout times 1, 2, 4, 8, 16 or, from the fifth round on, 32. */
  lemma AdmittedExactly(threshold: int, timeout: nat, before: seq<Call>, tripped: int, rounds: seq<Round>,
                        waiting: seq<Call>, now: int)
    requires Run(New(threshold, timeout), before).state == Closed
    requires FailuresSince(before + [Failure(tripped)]) >= threshold
    requires RoundsOk(timeout, tripped, rounds) && Waits(waiting, Due(timeout, tripped, rounds))
    ensures var b := Run(New(threshold, timeout), before + [Failure(tripped)] + CallsOf(rounds) + waiting);
            var k := |rounds|;
            var t := if k == 0 then tripped else rounds[k - 1].failed;
            Admits(b, now) <==> now >= t + timeout * [1, 2, 4, 8, 16, 32][if k < 5 then k else 5]
  {
    var b0 := New(threshold, timeout);
    var first := before + [Failure(tripped)];
    OpensAtThreshold(threshold, timeout, before, Failure(tripped));
    OpeningResets(b0, before, Failure(tripped));
    RoundsRun(Run(b0, first), tripped, rounds);
    RunConcat(b0, first, CallsOf(rounds));
    WaitingKeeps(Run(b0, first + CallsOf(rounds)), tripped, rounds, waiting);
    RunConcat(b0, first + CallsOf(rounds), waiting);
    AdmitsWhenDue(Run(b0, first + CallsOf(rounds) + waiting), tripped, rounds, now);
  }

  // ---------- success ----------

  /** Two breakers that nobody can tell apart. */
  predicate Alike(b: Breaker, c: Breaker) { b == c.(openTime := b.openTime) && (b.state == Open ==> b == c) }

  lemma {:induction false} AlikeGoesOn(b: Breaker, c: Breaker, calls: seq<Call>)
    requires Alike(b, c)
    ensures Alike(Run(b, calls), Run(c, calls))
  {
    if calls != [] {
      AlikeGoesOn(b, c, calls[..|calls| - 1]);
    }
  }

  /** A success closes the breaker, half open or not, and wipes out all that was before: in state,
      failure count and answers it goes on as a new one. */
  lemma AsNewAfterSuccess(threshold: int, timeout: nat, before: seq<Call>, more: seq<Call>, now: int)
    ensures Run(New(threshold, timeout), before + [Success]).state == Closed
    ensures var used, clean := Run(New(threshold, timeout), before + [Success] + more),
                                Run(New(threshold, timeout), more);
            && used.state == clean.state && used.failures == clean.failures
            && (Admits(used, now) <==> Admits(clean, now))
            && (more == [] ==> Admits(used, now))
  {
    var b := New(threshold, timeout);
    assert (before + [Success])[..|before|] == before;
    RunConcat(b, before + [Success], more);
    AlikeGoesOn(Run(b, before + [Success]), b, more);
  }

  /** The failure count is the number of failures since the last success, up to ten times the
      threshold. */
  lemma {:induction false} FailureCountExact(threshold: int, timeout: nat, calls: seq<Call>)
    ensures var cap := if threshold < 0 then 0 else 10 * threshold;
            Run(New(threshold, timeout), calls).failures
              == if FailuresSince(calls) < cap then FailuresSince(calls) else cap
  {
    if calls != [] {
      FailureCountExact(threshold, timeout, calls[..|calls| - 1]);
    }
  }
}
