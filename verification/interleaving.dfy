/** Any number of in-flight requests sharing one breaker. Each lock-protected section, each clock
    reading and each answer of the primary is one atomic step; a schedule orders the steps freely. */
module Interleaving {
  import opened Wrappers
  import opened CircuitBreakers
  import opened Retry
  import opened Forwarding
  import opened ForwardingLaws

  /** Where a request is between two of its steps. */
  datatype Phase =
    | Arrived
    | Timed(now: real)                                   // clock read, admission not asked yet
    | Admitted(now: real)                                // admitted, half-open step not taken yet
    | Calling(attempt: nat)                              // about to call the port
    | Answered(attempt: nat, answer: Answer)             // outcome known, not recorded yet
    | Failing(attempt: nat, answer: Answer, at: real)    // clock read, lock not taken yet
    | Done(reply: Reply, attempts: nat, recorded: nat)

  datatype System = System(breaker: CircuitBreaker, clock: real, requests: seq<Phase>, log: Log)

  datatype Action =
    | Tick(duration: real)
    | Arrive
    | ReadClock(id: nat)
    | CheckAdmission(id: nat)
    | HalfOpenStep(id: nat, resolved: bool)
    | PortAnswers(id: nat, answer: Answer)
    | RecordSuccessStep(id: nat)
    | ReadFailureClock(id: nat)
    | RecordFailureStep(id: nat)

  function Move(s: System, id: nat, phase: Phase): System
    requires id < |s.requests|
  {
    s.(requests := s.requests[id := phase])
  }

  /** One step. An action that is not possible in the current state changes nothing. */
  function Next(p: RetryPolicy, s: System, a: Action): System {
    match a
    case Tick(duration) => if duration >= 0.0 then s.(clock := s.clock + duration) else s
    case Arrive => s.(requests := s.requests + [Arrived])
    case ReadClock(id) =>
      if id < |s.requests| && s.requests[id].Arrived? then Move(s, id, Timed(s.clock)) else s
    case CheckAdmission(id) =>
      if id < |s.requests| && s.requests[id].Timed? then
        var now := s.requests[id].now;
        if s.breaker.ShouldAllowRequest(now) then Move(s, id, Admitted(now))
        else Move(s, id, Done(CircuitOpen(s.breaker.resetTimeout.Floor), 0, 0))
      else s
    case HalfOpenStep(id, resolved) =>
      if id < |s.requests| && s.requests[id].Admitted? then
        var now := s.requests[id].now;
        var s1 := Move(s, id, if resolved then Calling(0) else Done(PrimaryUnknown, 0, 0));
        if s.breaker.ProbeDue(now) then
          s1.(breaker := s.breaker.TransitionToHalfOpen(), log := Then(s.log, Probed(now)))
        else s1
      else s
    case PortAnswers(id, answer) =>
      if id < |s.requests| && s.requests[id].Calling? then
        var k := s.requests[id].attempt;
        Move(s, id, if CountsAsFailure(answer) || CountsAsSuccess(answer) then Answered(k, answer)
                    else Done(ReplyTo(answer), k + 1, k))
      else s
    case RecordSuccessStep(id) =>
      if id < |s.requests| && s.requests[id].Answered? && CountsAsSuccess(s.requests[id].answer) then
        var k := s.requests[id].attempt;
        Move(s, id, Done(ReplyTo(s.requests[id].answer), k + 1, k + 1)).
          (breaker := s.breaker.RecordSuccess(), log := Then(s.log, Succeeded))
      else s
    case ReadFailureClock(id) =>
      if id < |s.requests| && s.requests[id].Answered? && CountsAsFailure(s.requests[id].answer) then
        Move(s, id, Failing(s.requests[id].attempt, s.requests[id].answer, s.clock))
      else s
    case RecordFailureStep(id) =>
      if id < |s.requests| && s.requests[id].Failing? then
        var Failing(k, answer, at) := s.requests[id];
        Move(s, id, if Continues(p, answer, k) then Calling(k + 1) else Done(ReplyTo(answer), k + 1, k + 1)).
          (breaker := s.breaker.RecordFailure(at), log := Then(s.log, Failed(at)))
      else s
  }

  datatype Schedule = Idle | After(before: Schedule, act: Action)

  function Exec(p: RetryPolicy, s: System, schedule: Schedule): System {
    match schedule
    case Idle => s
    case After(before, act) => Next(p, Exec(p, s, before), act)
  }

  function Initial(b0: CircuitBreaker, clock: real): System {
    System(b0, clock, [], Start)
  }

  // ---------- What every step keeps ----------

  ghost predicate PhaseOk(p: RetryPolicy, clock: real, f: Phase) {
    match f
    case Arrived => true
    case Timed(now) => now <= clock
    case Admitted(now) => now <= clock
    case Calling(attempt) => attempt <= p.maxRetries
    case Answered(attempt, answer) => attempt <= p.maxRetries && !(answer.Raised? && answer.error.Foreign?)
    case Failing(attempt, answer, at) => attempt <= p.maxRetries && at <= clock && CountsAsFailure(answer)
    case Done(reply, attempts, recorded) =>
      && attempts <= p.maxRetries + 1
      && recorded == (if reply == Escaped then attempts - 1 else attempts)
      && (attempts == 0 <==> reply.CircuitOpen? || reply.PrimaryUnknown?)
  }

  ghost predicate PhasesOk(p: RetryPolicy, clock: real, requests: seq<Phase>) {
    forall i :: 0 <= i < |requests| ==> PhaseOk(p, clock, requests[i])
  }

  /** Outcomes recorded so far by a request. */
  function RecordedBy(f: Phase): int {
    match f
    case Calling(k) => k
    case Answered(k, _) => k
    case Failing(k, _, _) => k
    case Done(_, _, recorded) => recorded
    case _ => 0
  }

  function RecordedByAll(requests: seq<Phase>): int {
    if requests == [] then 0 else RecordedByAll(requests[..|requests| - 1]) + RecordedBy(requests[|requests| - 1])
  }

  function Outcomes(log: Log): int {
    match log
    case Start => 0
    case Then(before, last) => Outcomes(before) + (if last.Probed? then 0 else 1)
  }

  ghost predicate Inv(p: RetryPolicy, b0: CircuitBreaker, s: System) {
    && s.breaker == Replay(b0, s.log) && Legal(b0, s.log)
    && s.breaker.Coherent(s.clock)
    && PhasesOk(p, s.clock, s.requests)
    && Outcomes(s.log) == RecordedByAll(s.requests)
  }

  lemma {:induction false} RecordedUpdate(requests: seq<Phase>, id: nat, f: Phase)
    requires id < |requests|
    ensures RecordedByAll(requests[id := f]) == RecordedByAll(requests) - RecordedBy(requests[id]) + RecordedBy(f)
  {
    var n := |requests| - 1;
    if id == n {
      assert requests[id := f][..n] == requests[..n];
    } else {
      RecordedUpdate(requests[..n], id, f);
      assert requests[id := f][..n] == requests[..n][id := f];
    }
  }

  /** A move that only touches one request and leaves the breaker alone. */
  lemma QuietMove(p: RetryPolicy, b0: CircuitBreaker, s: System, id: nat, f: Phase)
    requires Inv(p, b0, s) && id < |s.requests|
    requires PhaseOk(p, s.clock, f) && RecordedBy(f) == RecordedBy(s.requests[id])
    ensures Inv(p, b0, Move(s, id, f))
  {
    RecordedUpdate(s.requests, id, f);
  }

  lemma LoudMove(p: RetryPolicy, b0: CircuitBreaker, s: System, id: nat, f: Phase, e: Event)
    requires Inv(p, b0, s) && id < |s.requests|
    requires PhaseOk(p, s.clock, f) && RecordedBy(f) == RecordedBy(s.requests[id]) + if e.Probed? then 0 else 1
    requires !e.Succeeded? ==> e.at <= s.clock
    requires e.Probed? ==> s.breaker.ProbeDue(e.at)
    ensures Inv(p, b0, Move(s, id, f).(breaker := Apply(s.breaker, e), log := Then(s.log, e)))
  {
    RecordedUpdate(s.requests, id, f);
  }

  lemma TickKeepsInv(p: RetryPolicy, b0: CircuitBreaker, s: System, duration: real)
    requires Inv(p, b0, s) && duration >= 0.0
    ensures Inv(p, b0, s.(clock := s.clock + duration))
  {
  }

  lemma ArriveKeepsInv(p: RetryPolicy, b0: CircuitBreaker, s: System)
    requires Inv(p, b0, s)
    ensures Inv(p, b0, s.(requests := s.requests + [Arrived]))
  {
  }

  lemma HalfOpenKeepsInv(p: RetryPolicy, b0: CircuitBreaker, s: System, id: nat, resolved: bool)
    requires p.maxRetries >= 0 && Inv(p, b0, s) && id < |s.requests| && s.requests[id].Admitted?
    ensures Inv(p, b0, Next(p, s, HalfOpenStep(id, resolved)))
  {
    var now := s.requests[id].now;
    var f := if resolved then Calling(0) else Done(PrimaryUnknown, 0, 0);
    assert PhaseOk(p, s.clock, s.requests[id]);
    if s.breaker.ProbeDue(now) { LoudMove(p, b0, s, id, f, Probed(now)); } else { QuietMove(p, b0, s, id, f); }
  }

  lemma SuccessKeepsInv(p: RetryPolicy, b0: CircuitBreaker, s: System, id: nat)
    requires Inv(p, b0, s) && id < |s.requests| && s.requests[id].Answered? && CountsAsSuccess(s.requests[id].answer)
    ensures Inv(p, b0, Next(p, s, RecordSuccessStep(id)))
  {
    assert PhaseOk(p, s.clock, s.requests[id]);
    var k, a := s.requests[id].attempt, s.requests[id].answer;
    LoudMove(p, b0, s, id, Done(ReplyTo(a), k + 1, k + 1), Succeeded);
  }

  lemma FailureKeepsInv(p: RetryPolicy, b0: CircuitBreaker, s: System, id: nat)
    requires Inv(p, b0, s) && id < |s.requests| && s.requests[id].Failing?
    ensures Inv(p, b0, Next(p, s, RecordFailureStep(id)))
  {
    assert PhaseOk(p, s.clock, s.requests[id]);
    var Failing(k, a, at) := s.requests[id];
    LoudMove(p, b0, s, id, if Continues(p, a, k) then Calling(k + 1) else Done(ReplyTo(a), k + 1, k + 1), Failed(at));
  }

  /** The steps that touch neither the clock nor the breaker. */
  predicate IsQuiet(a: Action) {
    a.ReadClock? || a.CheckAdmission? || a.PortAnswers? || a.ReadFailureClock?
  }

  lemma QuietKeepsInv(p: RetryPolicy, b0: CircuitBreaker, s: System, a: Action)
    requires p.maxRetries >= 0 && Inv(p, b0, s) && IsQuiet(a) && Next(p, s, a) != s
    ensures Inv(p, b0, Next(p, s, a))
  {
    assert PhaseOk(p, s.clock, s.requests[a.id]);
    QuietMove(p, b0, s, a.id, Next(p, s, a).requests[a.id]);
  }

  lemma StepKeepsInv(p: RetryPolicy, b0: CircuitBreaker, s: System, a: Action)
    requires p.maxRetries >= 0 && Inv(p, b0, s)
    ensures Inv(p, b0, Next(p, s, a))
  {
    if Next(p, s, a) != s {
      match a {
        case Tick(duration) => TickKeepsInv(p, b0, s, duration);
        case Arrive => ArriveKeepsInv(p, b0, s);
        case HalfOpenStep(id, resolved) => HalfOpenKeepsInv(p, b0, s, id, resolved);
        case RecordSuccessStep(id) => SuccessKeepsInv(p, b0, s, id);
        case RecordFailureStep(id) => FailureKeepsInv(p, b0, s, id);
        case _ => QuietKeepsInv(p, b0, s, a);
      }
    }
  }

  /** Every interleaving of any number of requests, from a fresh breaker on. */
  lemma {:induction false} RunKeepsInv(p: RetryPolicy, b0: CircuitBreaker, clock: real, schedule: Schedule)
    requires p.maxRetries >= 0
    requires b0.Configured() && b0 == Fresh(b0.threshold, b0.resetTimeout, b0.disabled)
    ensures Inv(p, b0, Exec(p, Initial(b0, clock), schedule))
  {
    if schedule.After? {
      RunKeepsInv(p, b0, clock, schedule.before);
      StepKeepsInv(p, b0, Exec(p, Initial(b0, clock), schedule.before), schedule.act);
    }
  }

  /** So in every interleaving the state is the documented one, read off the failures, successes and
      probes in lock order, and the counters are the runs that order ends with. */
  lemma {:induction false} RunStateFromLog(p: RetryPolicy, b0: CircuitBreaker, clock: real, schedule: Schedule)
    requires p.maxRetries >= 0
    requires b0.Configured() && b0 == Fresh(b0.threshold, b0.resetTimeout, b0.disabled)
    ensures var s := Exec(p, Initial(b0, clock), schedule);
            && Agrees(b0, s.breaker, HasProbe(s.log), Epoch(s.log))
            && (s.breaker.state == HalfOpen <==> s.log.Then? && s.log.last.Probed?)
            && (s.breaker.state == Closed <==>
                  && (HasProbe(s.log) ==> Epoch(s.log).Then? && First(Epoch(s.log)).Succeeded?)
                  && !HasFailureRun(Epoch(s.log), b0.threshold))
  {
    RunKeepsInv(p, b0, clock, schedule);
    var s := Exec(p, Initial(b0, clock), schedule);
    LogDeterminesBreaker(b0, s.log);
    StateFromLog(b0, s.log);
  }

  predicate Edge(x: State, y: State) {
    || x == y
    || (x == Closed && y == Open) || (x == Open && y == HalfOpen)
    || (x == HalfOpen && y == Closed) || (x == HalfOpen && y == Open)
  }

  /** The log of the system holds what was done to the breaker, with the time that decided it: the reading
      a request was admitted on, or the one it took before recording its failure. */
  lemma StepRecords(p: RetryPolicy, s: System, a: Action)
    ensures var t := Next(p, s, a);
            if t.log == s.log then t.breaker == s.breaker
            else
              && t.log.Then? && t.log.before == s.log && t.breaker == Apply(s.breaker, t.log.last)
              && match t.log.last {
                   case Probed(at) => a.HalfOpenStep? && a.id < |s.requests| && s.requests[a.id] == Admitted(at)
                   case Succeeded => a.RecordSuccessStep? && a.id < |s.requests| && s.requests[a.id].Answered?
                   case Failed(at) =>
                     a.RecordFailureStep? && a.id < |s.requests| && s.requests[a.id].Failing? && s.requests[a.id].at == at
                 }
  {
  }

  /** The only edges are the documented ones; an enabled OPEN breaker lets a request in, and goes
      HALF_OPEN, only at a time strictly after the stamp in force plus the timeout. */
  lemma {:induction false} RunEdges(p: RetryPolicy, b0: CircuitBreaker, clock: real, schedule: Schedule, a: Action)
    requires p.maxRetries >= 0
    requires b0.Configured() && b0 == Fresh(b0.threshold, b0.resetTimeout, b0.disabled)
    ensures var s := Exec(p, Initial(b0, clock), schedule);
            var t := Next(p, s, a);
            && Edge(s.breaker.state, t.breaker.state)
            && s.breaker.resetTimeout == b0.resetTimeout
            && (s.breaker.state == Open && t.breaker.state == HalfOpen ==> s.breaker.CooledDown(s.clock))
            && (s.breaker.state == Open && !b0.disabled && a.CheckAdmission? && t != s && t.requests[a.id].Admitted? ==>
                  s.clock >= t.requests[a.id].now && s.breaker.CooledDown(t.requests[a.id].now))
  {
    RunKeepsInv(p, b0, clock, schedule);
    var s := Exec(p, Initial(b0, clock), schedule);
    LogDeterminesBreaker(b0, s.log);
    if (a.CheckAdmission? || a.HalfOpenStep?) && a.id < |s.requests| {
      assert PhaseOk(p, s.clock, s.requests[a.id]);
    }
  }

  // ---------- Composing schedules ----------

  function Join(x: Schedule, y: Schedule): Schedule {
    match y
    case Idle => x
    case After(before, act) => After(Join(x, before), act)
  }

  lemma {:induction false} ExecJoin(p: RetryPolicy, s: System, x: Schedule, y: Schedule)
    ensures Exec(p, s, Join(x, y)) == Exec(p, Exec(p, s, x), y)
  {
    if y.After? { ExecJoin(p, s, x, y.before); }
  }

  /** A new request gets as far as its first call while the breaker is CLOSED. */
  lemma Starts(p: RetryPolicy, s: System) returns (schedule: Schedule)
    requires s.breaker.state == Closed
    ensures Exec(p, s, schedule) == s.(requests := s.requests + [Calling(0)])
  {
    var id := |s.requests|;
    var x1 := After(Idle, Arrive);
    var x2 := After(x1, ReadClock(id));
    var x3 := After(x2, CheckAdmission(id));
    schedule := After(x3, HalfOpenStep(id, true));
    assert Exec(p, s, x1).requests == s.requests + [Arrived];
    assert Exec(p, s, x2).requests == s.requests + [Timed(s.clock)];
    assert Exec(p, s, x3).requests == s.requests + [Admitted(s.clock)];
    assert Exec(p, s, schedule).requests == s.requests + [Calling(0)];
  }

  lemma FailsAndReadsClock(p: RetryPolicy, s: System, id: nat) returns (schedule: Schedule)
    requires id < |s.requests| && s.requests[id] == Calling(0)
    ensures Exec(p, s, schedule) == Move(s, id, Failing(0, Raised(ConnectionError), s.clock))
  {
    var x1 := After(Idle, PortAnswers(id, Raised(ConnectionError)));
    schedule := After(x1, ReadFailureClock(id));
    assert Exec(p, s, x1) == Move(s, id, Answered(0, Raised(ConnectionError)));
    assert Exec(p, s, schedule).requests == s.requests[id := Failing(0, Raised(ConnectionError), s.clock)];
  }

  // ---------- The cool-down under interleaving ----------

  const FRAGILE := Fresh(1, 10.0, false)
  const NO_RETRY := RetryPolicy(0, 1.0, 30.0)

  /** The full cool-down is not kept: two requests fail, at 0 and at 5; the later one opens the
      breaker first, the earlier one then moves the stamp back to 0, and a third request probes at
      10.5, only 5.5 after the opening, although the timeout is 10. Module CoolDown says exactly when this can happen. */
  lemma CoolDownBroken() returns (opening: Schedule, probing: Schedule)
    ensures var s := Exec(NO_RETRY, Initial(FRAGILE, 0.0), opening);
            s.breaker.state == Open && s.breaker.openedAt == Some(5.0) && s.clock == 5.0
    ensures var s := Exec(NO_RETRY, Initial(FRAGILE, 0.0), Join(opening, probing));
            s.breaker.state == HalfOpen && s.clock == 10.5
  {
    var s0 := Initial(FRAGILE, 0.0);
    var x := Starts(NO_RETRY, s0);
    var s1 := s0.(requests := [Calling(0)]);
    assert [] + [Calling(0)] == [Calling(0)];
    var y := FailsAndReadsClock(NO_RETRY, s1, 0);
    ExecJoin(NO_RETRY, s0, x, y);
    x := Join(x, y);
    var late := Failing(0, Raised(ConnectionError), 0.0);
    var s2 := s0.(requests := [late]);
    assert Exec(NO_RETRY, s0, x) == s2;
    y := Starts(NO_RETRY, s2);
    ExecJoin(NO_RETRY, s0, x, y);
    x := Join(x, y);
    var s3 := s0.(clock := 5.0, requests := [late, Calling(0)]);
    assert [late] + [Calling(0)] == [late, Calling(0)];
    x := After(x, Tick(5.0));
    assert Exec(NO_RETRY, s0, x) == s3;
    hide Next;
    y := FailsAndReadsClock(NO_RETRY, s3, 1);
    ExecJoin(NO_RETRY, s0, x, y);
    x := Join(x, y);
    var s4 := s3.(requests := [late, Failing(0, Raised(ConnectionError), 5.0)]);
    assert Exec(NO_RETRY, s0, x) == s4;
    opening := After(x, RecordFailureStep(1));
    var s5 := Next(NO_RETRY, s4, RecordFailureStep(1));
    assert Exec(NO_RETRY, s0, opening) == s5;
    OpensAtFive(s4, s5);
    probing := LateProbe(s5);
    ExecJoin(NO_RETRY, s0, opening, probing);
  }

  lemma OpensAtFive(s: System, s2: System)
    requires s.breaker == FRAGILE && s.clock == 5.0 && s2 == Next(NO_RETRY, s, RecordFailureStep(1))
    requires s.requests == [Failing(0, Raised(ConnectionError), 0.0), Failing(0, Raised(ConnectionError), 5.0)]
    ensures |s2.requests| == 2 && s2.requests[0] == s.requests[0] && s2.clock == 5.0
    ensures s2.breaker == FRAGILE.(failureCount := 1, state := Open, openedAt := Some(5.0))
  {
  }

  lemma LateProbe(s: System) returns (probing: Schedule)
    requires |s.requests| == 2 && s.requests[0] == Failing(0, Raised(ConnectionError), 0.0) && s.clock == 5.0
    requires s.breaker.state == Open && s.breaker.failureCount == 1 && s.breaker.threshold == 1 && s.breaker.resetTimeout == 10.0
    ensures Exec(NO_RETRY, s, probing).breaker.state == HalfOpen && Exec(NO_RETRY, s, probing).clock == 10.5
  {
    var x1 := After(Idle, RecordFailureStep(0));
    var x2 := After(x1, Tick(5.5));
    var x3 := After(x2, Arrive);
    var x4 := After(x3, ReadClock(2));
    var x5 := After(x4, CheckAdmission(2));
    probing := After(x5, HalfOpenStep(2, true));
    var t1 := Exec(NO_RETRY, s, x1);
    assert t1 == Next(NO_RETRY, Exec(NO_RETRY, s, Idle), RecordFailureStep(0));
    assert t1.breaker.state == Open && t1.breaker.openedAt == Some(0.0) && |t1.requests| == 2;
    assert Exec(NO_RETRY, s, x2) == t1.(clock := 10.5);
    var t3 := Exec(NO_RETRY, s, x3);
    assert t3 == t1.(clock := 10.5, requests := t1.requests + [Arrived]);
    var t4 := Exec(NO_RETRY, s, x4);
    assert t4 == Move(t3, 2, Timed(10.5));
    assert Exec(NO_RETRY, s, x5) == Move(t4, 2, Admitted(10.5));
  }

  // ---------- A request running alone is one schedule ----------

  /** Only the request `id` and the breaker differ. */
  ghost predicate OnlyMoves(s: System, id: nat, t: System) {
    |t.requests| == |s.requests| && forall j :: 0 <= j < |s.requests| && j != id ==> t.requests[j] == s.requests[j]
  }

  lemma FailedTurn(p: RetryPolicy, sys: System, id: nat, attempt: nat, a: Answer, now: real) returns (schedule: Schedule)
    requires id < |sys.requests| && sys.requests[id] == Calling(attempt) && sys.clock <= now && CountsAsFailure(a)
    ensures var e := Exec(p, sys, schedule);
            && e.breaker == sys.breaker.RecordFailure(now) && e.clock == now && OnlyMoves(sys, id, e)
            && e.requests[id] == if Continues(p, a, attempt) then Calling(attempt + 1)
                                 else Done(ReplyTo(a), attempt + 1, attempt + 1)
  {
    var x1 := After(Idle, PortAnswers(id, a));
    var x2 := After(x1, Tick(now - sys.clock));
    var x3 := After(x2, ReadFailureClock(id));
    schedule := After(x3, RecordFailureStep(id));
    var t1 := Move(sys, id, Answered(attempt, a));
    assert Exec(p, sys, x1) == t1;
    assert Exec(p, sys, x2) == t1.(clock := now);
    assert Exec(p, sys, x3) == Move(t1.(clock := now), id, Failing(attempt, a, now));
  }

  lemma LastTurn(p: RetryPolicy, sys: System, id: nat, attempt: nat, a: Answer) returns (schedule: Schedule)
    requires id < |sys.requests| && sys.requests[id] == Calling(attempt) && !CountsAsFailure(a)
    ensures var e := Exec(p, sys, schedule);
            && e.breaker == (if CountsAsSuccess(a) then sys.breaker.RecordSuccess() else sys.breaker)
            && e.clock == sys.clock && OnlyMoves(sys, id, e)
            && e.requests[id].Done? && e.requests[id].reply == ReplyTo(a)
  {
    var x1 := After(Idle, PortAnswers(id, a));
    if CountsAsSuccess(a) {
      assert Exec(p, sys, x1) == Move(sys, id, Answered(attempt, a));
      schedule := After(x1, RecordSuccessStep(id));
    } else {
      schedule := x1;
    }
  }

  lemma LoopAfterFailure(p: RetryPolicy, answers: int -> Answer, readings: int -> real, s: Snapshot, attempt: nat, s2: Snapshot)
    requires attempt <= p.maxRetries && CountsAsFailure(answers(s.calls)) && s.breaker.Some?
    requires s2 == s.(calls := s.calls + 1).Fail(readings)
    ensures s2.breaker == Some(s.breaker.value.RecordFailure(readings(s.used))) && s2.used == s.used + 1
    ensures Loop(p, answers, readings, s, attempt) ==
            if Continues(p, answers(s.calls), attempt) then
              Loop(p, answers, readings, s2.(slept := s2.slept + [p.CalculateBackoff(attempt)]), attempt + 1)
            else (ReplyTo(answers(s.calls)), s2)
  {
  }

  lemma LoopWithoutFailure(p: RetryPolicy, answers: int -> Answer, readings: int -> real, s: Snapshot, attempt: nat)
    requires attempt <= p.maxRetries && !CountsAsFailure(answers(s.calls)) && s.breaker.Some?
    ensures var (reply, t) := Loop(p, answers, readings, s, attempt);
            && reply == ReplyTo(answers(s.calls)) && t.used == s.used
            && t.breaker == Some(if CountsAsSuccess(answers(s.calls)) then s.breaker.value.RecordSuccess() else s.breaker.value)
  {
  }

  lemma OnlyMovesTrans(s: System, id: nat, t: System, u: System)
    requires OnlyMoves(s, id, t) && OnlyMoves(t, id, u)
    ensures OnlyMoves(s, id, u)
  {
  }

  ghost predicate EndsAs(id: nat, e: System, reply: Reply, t: Snapshot, readings: int -> real) {
    && t.breaker == Some(e.breaker) && e.clock <= readings(t.used)
    && id < |e.requests| && e.requests[id].Done? && e.requests[id].reply == reply
  }

  lemma {:induction false} LoopIsSchedule(p: RetryPolicy, answers: int -> Answer, readings: int -> real, s: Snapshot, attempt: nat,
                                          sys: System, id: nat)
      returns (schedule: Schedule)
    requires attempt <= p.maxRetries && Monotone(readings)
    requires s.breaker == Some(sys.breaker) && sys.clock <= readings(s.used)
    requires id < |sys.requests| && sys.requests[id] == Calling(attempt)
    ensures OnlyMoves(sys, id, Exec(p, sys, schedule))
    ensures var (reply, t) := Loop(p, answers, readings, s, attempt);
            EndsAs(id, Exec(p, sys, schedule), reply, t, readings)
    decreases p.maxRetries - attempt
  {
    hide Loop, Next, Exec, OnlyMoves, ReplyTo;
    var a := answers(s.calls);
    if !CountsAsFailure(a) {
      schedule := LastTurn(p, sys, id, attempt, a);
      LoopWithoutFailure(p, answers, readings, s, attempt);
    } else {
      var now, s2 := readings(s.used), s.(calls := s.calls + 1).Fail(readings);
      schedule := FailedTurn(p, sys, id, attempt, a, now);
      LoopAfterFailure(p, answers, readings, s, attempt, s2);
      assert now <= readings(s.used + 1);
      if Continues(p, a, attempt) {
        var e := Exec(p, sys, schedule);
        var rest := LoopIsSchedule(p, answers, readings, s2.(slept := s2.slept + [p.CalculateBackoff(attempt)]), attempt + 1, e, id);
        ExecJoin(p, sys, schedule, rest);
        OnlyMovesTrans(sys, id, e, Exec(p, e, rest));
        schedule := Join(schedule, rest);
      }
    }
  }

  /** One request has been added; the others stand still. */
  ghost predicate Joins(s: System, t: System) {
    |t.requests| == |s.requests| + 1 && forall j :: 0 <= j < |s.requests| ==> t.requests[j] == s.requests[j]
  }

  lemma ArrivalIsSchedule(p: RetryPolicy, sys: System, now: real, resolved: bool) returns (schedule: Schedule)
    requires sys.clock <= now
    ensures var e, id := Exec(p, sys, schedule), |sys.requests|;
            && e.clock == now && Joins(sys, e)
            && if !sys.breaker.ShouldAllowRequest(now) then
                 e.breaker == sys.breaker && e.requests[id] == Done(CircuitOpen(sys.breaker.resetTimeout.Floor), 0, 0)
               else
                 Some(e.breaker) == Admit(Some(sys.breaker), now) &&
                 e.requests[id] == if resolved then Calling(0) else Done(PrimaryUnknown, 0, 0)
  {
    var id := |sys.requests|;
    var x0 := After(Idle, Arrive);
    var x1 := After(x0, Tick(now - sys.clock));
    var x2 := After(x1, ReadClock(id));
    var x3 := After(x2, CheckAdmission(id));
    var t0 := sys.(requests := sys.requests + [Arrived]);
    assert Exec(p, sys, x0) == t0;
    assert Exec(p, sys, x1) == t0.(clock := now);
    assert Exec(p, sys, x2) == Move(t0.(clock := now), id, Timed(now));
    if !sys.breaker.ShouldAllowRequest(now) {
      schedule := x3;
    } else {
      assert Exec(p, sys, x3) == Move(t0.(clock := now), id, Admitted(now));
      schedule := After(x3, HalfOpenStep(id, resolved));
    }
  }

  /** The sequential request refines the concurrent one: what `Request` does in one go, some
      schedule of a newly arrived request does step by step, other requests standing still. */
  lemma RequestIsSchedule(p: RetryPolicy, answers: int -> Answer, readings: int -> real, s: Snapshot, resolved: bool, sys: System)
      returns (schedule: Schedule)
    requires p.maxRetries >= 0 && Monotone(readings)
    requires s.breaker == Some(sys.breaker) && sys.clock <= readings(s.used)
    ensures var (reply, t) := Request(p, answers, readings, s, resolved);
            EndsAs(|sys.requests|, Exec(p, sys, schedule), reply, t, readings)
    ensures Joins(sys, Exec(p, sys, schedule))
  {
    hide Next, Loop;
    var id, now := |sys.requests|, readings(s.used);
    schedule := ArrivalIsSchedule(p, sys, now, resolved);
    assert now <= readings(s.used + 1);
    var e := Exec(p, sys, schedule);
    if sys.breaker.ShouldAllowRequest(now) && resolved {
      var rest := LoopIsSchedule(p, answers, readings, s.(used := s.used + 1, breaker := Admit(s.breaker, now)), 0, e, id);
      ExecJoin(p, sys, schedule, rest);
      schedule := Join(schedule, rest);
    }
  }
}
