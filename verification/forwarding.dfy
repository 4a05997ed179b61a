/** One request through `WriteForwardingMiddleware` (litefs_django/middleware.py): admission by the
    circuit breaker, then the retry loop. The primary's answers and the clock's readings are streams
    fixed in advance; requests run one after another here and interleaved in module Interleaving. */
module Forwarding {
  import opened Wrappers
  import opened CircuitBreakers
  import opened Retry

  const GATEWAY_STATUS_CODES: set<int> := {502, 503, 504}

  /** What one call of the forwarding port gives back. */
  datatype Answer = Response(status: int) | Raised(error: Error)

  datatype Reply =
    | PassedThrough            // no port: the local application answers
    | CircuitOpen(retryAfter: int)
    | PrimaryUnknown
    | Forwarded(status: int)
    | ForwardFailed
    | Escaped                  // an exception outside the OSError family leaves the middleware

  /** Answers worth another attempt: the statuses and errors of a passing network failure. */
  predicate Passing(a: Answer) {
    match a
    case Response(status) => status == 502 || status == 503 || status == 504
    case Raised(ConnectionError) => true
    case Raised(TimeoutError) => true
    case Raised(OsError(errno)) =>
      errno == Some(104) || errno == Some(110) || errno == Some(111) || errno == Some(113) || errno == Some(115)
    case Raised(Foreign) => false
  }

  predicate Retryable(p: RetryPolicy, a: Answer): (r: bool)
    ensures r <==> Passing(a)
  {
    match a
    case Response(status) => status in GATEWAY_STATUS_CODES
    case Raised(error) => p.IsTransientError(error)
  }

  predicate CountsAsFailure(a: Answer): (r: bool)
    ensures r <==> Passing(a) || (a.Raised? && a != Raised(Foreign))
  {
    match a
    case Response(status) => status in GATEWAY_STATUS_CODES
    case Raised(error) => !error.Foreign?
  }

  predicate CountsAsSuccess(a: Answer): (r: bool)
    ensures r <==> a.Response? && !Passing(a)
  {
    a.Response? && a.status !in GATEWAY_STATUS_CODES
  }

  function ReplyTo(a: Answer): Reply {
    match a
    case Response(status) => Forwarded(status)
    case Raised(error) => if error.Foreign? then Escaped else ForwardFailed
  }

  /** The status a reply reaches the client with, when the middleware decides it. */
  function StatusOf(reply: Reply): Option<int> {
    match reply
    case Forwarded(status) => Some(status)
    case CircuitOpen(_) => Some(503)
    case PrimaryUnknown => Some(503)
    case ForwardFailed => Some(503)
    case _ => None
  }

  /** How many calls the loop makes: up to and including the first answer that is not retryable,
      and never more than one plus the retries left. */
  function Attempts(p: RetryPolicy, answers: int -> Answer, first: nat, left: nat): (n: nat)
    ensures 1 <= n <= left + 1
    ensures forall i :: first <= i < first + n - 1 ==> Passing(answers(i))
    ensures n <= left ==> !Passing(answers(first + n - 1))
    decreases left
  {
    if left > 0 && Retryable(p, answers(first)) then
      1 + Attempts(p, answers, first + 1, left - 1)
    else 1
  }

  // ---------- The loop, step by step ----------

  /** The mutable state a request touches: the breaker, how many answers and clock readings have
      been consumed, and the sleeps so far. */
  datatype Snapshot = Snapshot(breaker: Option<CircuitBreaker>, calls: nat, used: nat, slept: seq<real>) {
    function Fail(readings: int -> real): Snapshot {
      if breaker.None? then this
      else this.(breaker := Some(breaker.value.RecordFailure(readings(used))), used := used + 1)
    }

    function Succeed(): Snapshot {
      if breaker.None? then this else this.(breaker := Some(breaker.value.RecordSuccess()))
    }
  }

  function Loop(p: RetryPolicy, answers: int -> Answer, readings: int -> real, s: Snapshot, attempt: nat): (Reply, Snapshot)
    requires attempt <= p.maxRetries
    decreases p.maxRetries - attempt
  {
    var a := answers(s.calls);
    var s1 := s.(calls := s.calls + 1);
    if CountsAsSuccess(a) then (ReplyTo(a), s1.Succeed())
    else if !CountsAsFailure(a) then (ReplyTo(a), s1)
    else
      var s2 := s1.Fail(readings);
      if Retryable(p, a) && p.ShouldRetry(attempt) then
        Loop(p, answers, readings, s2.(slept := s2.slept + [p.CalculateBackoff(attempt)]), attempt + 1)
      else (ReplyTo(a), s2)
  }

  /** One more call has been made, and its failure recorded if there is a breaker. */
  function AfterFailure(readings: int -> real, s: Snapshot): Snapshot {
    if s.breaker.None? then Snapshot(None, s.calls + 1, s.used, s.slept)
    else Snapshot(Some(s.breaker.value.RecordFailure(readings(s.used))), s.calls + 1, s.used + 1, s.slept)
  }

  /** One turn of the loop, answer by answer. */
  lemma TurnExact(p: RetryPolicy, answers: int -> Answer, readings: int -> real, s: Snapshot, attempt: nat)
    requires attempt <= p.maxRetries
    ensures Loop(p, answers, readings, s, attempt) ==
            match answers(s.calls) {
              case Response(status) =>
                if !(502 <= status <= 504) then
                  (Forwarded(status), Snapshot(if s.breaker.None? then None else Some(s.breaker.value.RecordSuccess()),
                                               s.calls + 1, s.used, s.slept))
                else if attempt == p.maxRetries then (Forwarded(status), AfterFailure(readings, s))
                else Loop(p, answers, readings, AfterFailure(readings, s).(slept := s.slept + [p.CalculateBackoff(attempt)]), attempt + 1)
              case Raised(Foreign) => (Escaped, Snapshot(s.breaker, s.calls + 1, s.used, s.slept))
              case Raised(error) =>
                if attempt == p.maxRetries || !Passing(Raised(error)) then (ForwardFailed, AfterFailure(readings, s))
                else Loop(p, answers, readings, AfterFailure(readings, s).(slept := s.slept + [p.CalculateBackoff(attempt)]), attempt + 1)
            }
  {
  }

  /** The breaker after the half-open step. */
  function Admit(b: Option<CircuitBreaker>, now: real): Option<CircuitBreaker> {
    if b.Some? && b.value.ProbeDue(now) then Some(b.value.TransitionToHalfOpen()) else b
  }

  function Request(p: RetryPolicy, answers: int -> Answer, readings: int -> real, s: Snapshot, resolved: bool): (Reply, Snapshot)
    requires p.maxRetries >= 0
  {
    var now := readings(s.used);
    var s1 := s.(used := s.used + 1);
    if s.breaker.Some? && !s.breaker.value.ShouldAllowRequest(now) then
      (CircuitOpen(s.breaker.value.resetTimeout.Floor), s1)
    else
      var s2 := s1.(breaker := Admit(s.breaker, now));
      if !resolved then (PrimaryUnknown, s2) else Loop(p, answers, readings, s2, 0)
  }

  // ---------- The loop in closed form ----------

  /** A log extended by m failures. */
  function FailureLog(log: Log, readings: int -> real, first: nat, m: nat): Log {
    if m == 0 then log else Then(FailureLog(log, readings, first, m - 1), Failed(readings(first + m - 1)))
  }

  function LastLog(log: Log, a: Answer, now: real): Log {
    if CountsAsFailure(a) then Then(log, Failed(now)) else if CountsAsSuccess(a) then Then(log, Succeeded) else log
  }

  /** What the loop records when it makes n attempts: n - 1 failures, then the last answer's outcome. */
  function LoopLog(log: Log, answers: int -> Answer, call: nat, n: nat, readings: int -> real, reading: nat): Log
    requires n >= 1
  {
    LastLog(FailureLog(log, readings, reading, n - 1), answers(call + n - 1), readings(reading + n - 1))
  }

  /** Of n attempts all but the last failed. */
  function FailuresAmong(answers: int -> Answer, call: nat, n: nat): nat
    requires n >= 1
  {
    n - 1 + (if CountsAsFailure(answers(call + n - 1)) then 1 else 0)
  }

  /** A breaker is optional; without one nothing is recorded. */
  function Record(b: Option<CircuitBreaker>, log: Log): Option<CircuitBreaker> {
    if b.None? then None else Some(Replay(b.value, log))
  }

  /** The state at the head of the loop after `attempt` failed attempts. */
  function Retried(p: RetryPolicy, readings: int -> real, s: Snapshot, attempt: nat): Snapshot {
    Snapshot(Record(s.breaker, FailureLog(Start, readings, s.used, attempt)), s.calls + attempt,
             if s.breaker.None? then s.used else s.used + attempt, s.slept + Delays(p, attempt))
  }

  lemma RetriedStep(p: RetryPolicy, readings: int -> real, s: Snapshot, attempt: nat)
    ensures var h := Retried(p, readings, s, attempt);
            var f := h.(calls := h.calls + 1).Fail(readings);
            f.(slept := f.slept + [p.CalculateBackoff(attempt)]) == Retried(p, readings, s, attempt + 1)
  {
  }

  ghost predicate Exact(p: RetryPolicy, answers: int -> Answer, readings: int -> real, s: Snapshot, n: nat, reply: Reply, t: Snapshot)
    requires n >= 1
  {
    && reply == ReplyTo(answers(s.calls + n - 1))
    && t.calls == s.calls + n
    && t.slept == s.slept + Delays(p, n - 1)
    && t.used == (if s.breaker.None? then s.used else s.used + FailuresAmong(answers, s.calls, n))
    && t.breaker == Record(s.breaker, LoopLog(Start, answers, s.calls, n, readings, s.used))
  }

  lemma LastStep(p: RetryPolicy, answers: int -> Answer, readings: int -> real, s: Snapshot, n: nat)
    requires n >= 1
    ensures var h := Retried(p, readings, s, n - 1);
            var h1 := h.(calls := h.calls + 1);
            var a := answers(h.calls);
            Exact(p, answers, readings, s, n, ReplyTo(a),
                  if CountsAsSuccess(a) then h1.Succeed() else if CountsAsFailure(a) then h1.Fail(readings) else h1)
  {
  }

  predicate Continues(p: RetryPolicy, a: Answer, attempt: nat) {
    CountsAsFailure(a) && Retryable(p, a) && p.ShouldRetry(attempt)
  }

  lemma LoopEnds(p: RetryPolicy, answers: int -> Answer, readings: int -> real, s: Snapshot, attempt: nat)
    requires attempt <= p.maxRetries && !Continues(p, answers(s.calls + attempt), attempt)
    ensures var (reply, t) := Loop(p, answers, readings, Retried(p, readings, s, attempt), attempt);
            Exact(p, answers, readings, s, attempt + 1, reply, t)
  {
    LastStep(p, answers, readings, s, attempt + 1);
  }

  lemma LoopGoesOn(p: RetryPolicy, answers: int -> Answer, readings: int -> real, s: Snapshot, attempt: nat)
    requires attempt < p.maxRetries && Continues(p, answers(s.calls + attempt), attempt)
    ensures Loop(p, answers, readings, Retried(p, readings, s, attempt), attempt) ==
            Loop(p, answers, readings, Retried(p, readings, s, attempt + 1), attempt + 1)
  {
    RetriedStep(p, readings, s, attempt);
  }

  /** From the head of the loop, the number of attempts alone fixes calls, sleeps, events and answer. */
  lemma {:induction false} LoopFromHead(p: RetryPolicy, answers: int -> Answer, readings: int -> real, s: Snapshot, attempt: nat, n: nat)
    requires attempt <= p.maxRetries
    requires n == attempt + Attempts(p, answers, s.calls + attempt, p.maxRetries - attempt)
    ensures var (reply, t) := Loop(p, answers, readings, Retried(p, readings, s, attempt), attempt);
            Exact(p, answers, readings, s, n, reply, t)
    decreases p.maxRetries - attempt
  {
    hide Loop, Exact, Retried;
    if Continues(p, answers(s.calls + attempt), attempt) {
      LoopGoesOn(p, answers, readings, s, attempt);
      LoopFromHead(p, answers, readings, s, attempt + 1, n);
    } else {
      LoopEnds(p, answers, readings, s, attempt);
    }
  }

  /** The loop makes min(k, max_retries) + 1 attempts, k being the first answer that is not retryable
      (`Attempts`); it records one outcome per attempt unless the last one escapes, sleeps between
      attempts and answers from the last one. */
  lemma LoopExact(p: RetryPolicy, answers: int -> Answer, readings: int -> real, s: Snapshot, n: nat)
    requires p.maxRetries >= 0 && n == Attempts(p, answers, s.calls, p.maxRetries)
    ensures var (reply, t) := Loop(p, answers, readings, s, 0);
            Exact(p, answers, readings, s, n, reply, t)
  {
    assert s.slept + [] == s.slept;
    hide Loop, Exact, Attempts;
    LoopFromHead(p, answers, readings, s, 0, n);
  }

  /** When the first `left` answers are all retryable, and only then, every retry is used up. */
  lemma AllAttemptsUsed(p: RetryPolicy, answers: int -> Answer, first: nat, left: nat)
    ensures Attempts(p, answers, first, left) == left + 1 <==>
            forall i :: first <= i < first + left ==> Passing(answers(i))
  {
  }

  /** When every attempt fails to connect, a retry count of r means r + 1 attempts, and the client is
      told 503: never r attempts and 502, whatever the policy. */
  lemma UnreachablePrimary(p: RetryPolicy, answers: int -> Answer, readings: int -> real, s: Snapshot)
    requires p.maxRetries >= 0 && forall i :: answers(i) == Raised(ConnectionError)
    ensures var (reply, t) := Loop(p, answers, readings, s, 0);
            && reply == ForwardFailed && StatusOf(reply) == Some(503)
            && t.calls == s.calls + p.maxRetries + 1
            && t.slept == s.slept + Delays(p, p.maxRetries)
  {
    var n := Attempts(p, answers, s.calls, p.maxRetries);
    AllAttemptsUsed(p, answers, s.calls, p.maxRetries);
    LoopExact(p, answers, readings, s, n);
  }

  /** The documented scenario: a retry count of 3 makes four attempts and answers 503. */
  lemma ThreeRetriesFourAttempts(p: RetryPolicy, answers: int -> Answer, readings: int -> real, s: Snapshot)
    requires p.maxRetries == 3 && forall i :: answers(i) == Raised(ConnectionError)
    ensures Attempts(p, answers, s.calls, 3) == 4
    ensures var (reply, t) := Loop(p, answers, readings, s, 0);
            t.calls == s.calls + 4 && StatusOf(reply) == Some(503)
  {
    AllAttemptsUsed(p, answers, s.calls, 3);
    UnreachablePrimary(p, answers, readings, s);
  }

  /** In general the client sees 502 exactly when the last attempt brought that status. */
  lemma BadGatewayExact(p: RetryPolicy, answers: int -> Answer, readings: int -> real, s: Snapshot, n: nat)
    requires p.maxRetries >= 0 && n == Attempts(p, answers, s.calls, p.maxRetries)
    ensures StatusOf(Loop(p, answers, readings, s, 0).0) == Some(502) <==> answers(s.calls + n - 1) == Response(502)
  {
    hide Loop, Attempts, LoopLog, Delays, Record, FailuresAmong;
    LoopExact(p, answers, readings, s, n);
  }

  class TimeProvider {
    const readings: int -> real
    var used: nat

    constructor (readings: int -> real)
      ensures this.readings == readings && used == 0
    {
      this.readings := readings;
      used := 0;
    }

    method GetTimeSeconds() returns (now: real)
      modifies this
      ensures now == readings(old(used)) && used == old(used) + 1
    {
      now := readings(used);
      used := used + 1;
    }
  }

  class ForwardingPort {
    const answers: int -> Answer
    var calls: nat

    constructor (answers: int -> Answer)
      ensures this.answers == answers && calls == 0
    {
      this.answers := answers;
      calls := 0;
    }

    method Forward() returns (a: Answer)
      modifies this
      ensures a == answers(old(calls)) && calls == old(calls) + 1
    {
      a := answers(calls);
      calls := calls + 1;
    }
  }

  class Sleeper {
    var slept: seq<real>

    constructor ()
      ensures slept == []
    {
      slept := [];
    }

    method Sleep(seconds: real)
      modifies this
      ensures slept == old(slept) + [seconds]
    {
      slept := slept + [seconds];
    }
  }

  class WriteForwardingMiddleware {
    const port: ForwardingPort?
    const policy: RetryPolicy
    const clock: TimeProvider
    const sleeper: Sleeper
    var breaker: Option<CircuitBreaker>

    constructor (port: ForwardingPort?, retryPolicy: Option<RetryPolicy>, clock: TimeProvider, sleeper: Sleeper,
                 breaker: Option<CircuitBreaker>)
      ensures this.port == port && this.clock == clock && this.sleeper == sleeper && this.breaker == breaker
      ensures policy == if retryPolicy.Some? then retryPolicy.value else RetryPolicy(0, 1.0, 30.0)
    {
      this.port, this.clock, this.sleeper, this.breaker := port, clock, sleeper, breaker;
      policy := if retryPolicy.Some? then retryPolicy.value else RetryPolicy(0, 1.0, 30.0);
    }

    predicate ShouldAllowRequest(now: real)
      reads this
    {
      breaker.None? || breaker.value.ShouldAllowRequest(now)
    }

    method MaybeTransitionToHalfOpen(now: real)
      modifies this
      ensures breaker == Admit(old(breaker), now)
    {
      if breaker.Some? {
        if breaker.value.IsHalfOpen(now) {
          if breaker.value.state == Open {
            breaker := Some(breaker.value.TransitionToHalfOpen());
          }
        }
      }
    }

    function Snap(port: ForwardingPort): Snapshot
      reads this, clock, port, sleeper
    {
      Snapshot(breaker, port.calls, clock.used, sleeper.slept)
    }

    method RecordFailure(ghost port: ForwardingPort)
      modifies this, clock
      ensures Snap(port) == old(Snap(port)).Fail(clock.readings)
    {
      if breaker.Some? {
        var now := clock.GetTimeSeconds();
        breaker := Some(breaker.value.RecordFailure(now));
      }
    }

    method RecordSuccess(ghost port: ForwardingPort)
      modifies this
      ensures Snap(port) == old(Snap(port)).Succeed()
    {
      if breaker.Some? {
        breaker := Some(breaker.value.RecordSuccess());
      }
    }

    /** The `while True` loop. */
    method ForwardWithRetry(port: ForwardingPort) returns (reply: Reply)
      requires policy.maxRetries >= 0
      modifies this, clock, port, sleeper
      ensures (reply, Snap(port)) == Loop(policy, port.answers, clock.readings, old(Snap(port)), 0)
    {
      var attempt := 0;
      while true
        invariant attempt <= policy.maxRetries
        invariant Loop(policy, port.answers, clock.readings, old(Snap(port)), 0) ==
                  Loop(policy, port.answers, clock.readings, Snap(port), attempt)
        decreases policy.maxRetries - attempt
      {
        var answer := port.Forward();
        match answer {
          case Response(status) =>
            if status in GATEWAY_STATUS_CODES {
              if policy.ShouldRetry(attempt) {
                RecordFailure(port);
                var backoff := policy.CalculateBackoff(attempt);
                sleeper.Sleep(backoff);
                attempt := attempt + 1;
                continue;
              }
              RecordFailure(port);
              return Forwarded(status);
            }
            RecordSuccess(port);
            return Forwarded(status);
          case Raised(error) =>
            if error.Foreign? {
              return Escaped;
            }
            if policy.IsTransientError(error) && policy.ShouldRetry(attempt) {
              RecordFailure(port);
              var backoff := policy.CalculateBackoff(attempt);
              sleeper.Sleep(backoff);
              attempt := attempt + 1;
              continue;
            }
            RecordFailure(port);
            return ForwardFailed;
        }
      }
    }

    method ForwardRequest(primaryResolved: bool) returns (reply: Reply)
      requires policy.maxRetries >= 0
      modifies this, clock, sleeper
      modifies if port == null then {} else {port}
      ensures port == null ==> reply == PassedThrough && breaker == old(breaker) && clock.used == old(clock.used)
      ensures port != null ==>
        (reply, Snap(port)) == Request(policy, port.answers, clock.readings, old(Snap(port)), primaryResolved)
    {
      if port == null {
        return PassedThrough;
      }
      var now := clock.GetTimeSeconds();
      if !ShouldAllowRequest(now) {
        return CircuitOpen(breaker.value.resetTimeout.Floor);
      }
      MaybeTransitionToHalfOpen(now);
      if !primaryResolved {
        return PrimaryUnknown;
      }
      reply := ForwardWithRetry(port);
    }
  }
}
