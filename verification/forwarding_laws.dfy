/** What a request running alone does to the breaker, and what runs of requests one after another keep. */
module ForwardingLaws {
  import opened Wrappers
  import opened CircuitBreakers
  import opened Retry
  import opened Forwarding

  // ---------- One request ----------

  /** m failures in a row, seen from each state. */
  lemma {:induction false} FailuresFromClosed(b: CircuitBreaker, readings: int -> real, first: nat, m: nat)
    requires b.state == Closed && b.openedAt.None? && 0 <= b.failureCount < b.threshold
    ensures var r := Replay(b, FailureLog(Start, readings, first, m));
            && r.threshold == b.threshold
            && r.failureCount == b.failureCount + m
            && (r.failureCount < b.threshold ==> r.state == Closed && r.openedAt.None?)
            && (r.failureCount >= b.threshold ==> r.state == Open && r.openedAt == Some(readings(first + m - 1)))
  {
    if m > 0 {
      FailuresFromClosed(b, readings, first, m - 1);
    }
  }

  lemma {:induction false} FailuresFromHalfOpen(b: CircuitBreaker, readings: int -> real, first: nat, m: nat)
    requires b.state == HalfOpen && m >= 1
    ensures var r := Replay(b, FailureLog(Start, readings, first, m));
            && r.threshold == b.threshold
            && r.state == Open && r.failureCount == m
            && r.openedAt == Some(readings(if m < b.threshold then first else first + m - 1))
  {
    if m > 1 {
      FailuresFromHalfOpen(b, readings, first, m - 1);
    }
  }

  lemma LastOutcome(b: CircuitBreaker, answers: int -> Answer, call: nat, n: nat, readings: int -> real, reading: nat)
    requires n >= 1
    ensures var m, a := FailuresAmong(answers, call, n), answers(call + n - 1);
            var failed := Replay(b, FailureLog(Start, readings, reading, m));
            Replay(b, LoopLog(Start, answers, call, n, readings, reading)) ==
            if CountsAsSuccess(a) then failed.RecordSuccess() else failed
  {
  }

  lemma LoopFromClosed(b: CircuitBreaker, answers: int -> Answer, call: nat, n: nat, m: nat, readings: int -> real, reading: nat)
    requires n >= 1 && m == FailuresAmong(answers, call, n)
    requires b.state == Closed && b.openedAt.None? && 0 <= b.failureCount < b.threshold
    ensures var r := Replay(b, LoopLog(Start, answers, call, n, readings, reading));
            && (r.state == Closed <==> b.failureCount + m < b.threshold)
            && (r.state == Closed ==>
                  r.failureCount == if CountsAsSuccess(answers(call + n - 1)) then 0 else b.failureCount + m)
            && (r.state != Closed ==> r.state == Open && r.openedAt == Some(readings(reading + m - 1)))
  {
    LastOutcome(b, answers, call, n, readings, reading);
    FailuresFromClosed(b, readings, reading, m);
  }

  lemma LoopFromHalfOpen(b: CircuitBreaker, answers: int -> Answer, call: nat, n: nat, m: nat, readings: int -> real, reading: nat)
    requires n >= 1 && m == FailuresAmong(answers, call, n)
    requires b.state == HalfOpen
    ensures var r := Replay(b, LoopLog(Start, answers, call, n, readings, reading));
            if m >= 1 then r.state == Open && r.openedAt == Some(readings(if m < b.threshold then reading else reading + m - 1))
            else if CountsAsSuccess(answers(call)) then r.state == Closed
            else r == b
  {
    LastOutcome(b, answers, call, n, readings, reading);
    if m >= 1 {
      FailuresFromHalfOpen(b, readings, reading, m);
    }
  }

  lemma RequestExact(p: RetryPolicy, answers: int -> Answer, readings: int -> real, s: Snapshot, n: nat)
    requires p.maxRetries >= 0 && n == Attempts(p, answers, s.calls, p.maxRetries)
    requires s.breaker.Some? ==> s.breaker.value.ShouldAllowRequest(readings(s.used))
    ensures var (reply, t) := Request(p, answers, readings, s, true);
            Exact(p, answers, readings, s.(used := s.used + 1, breaker := Admit(s.breaker, readings(s.used))), n, reply, t)
  {
    LoopExact(p, answers, readings, s.(used := s.used + 1, breaker := Admit(s.breaker, readings(s.used))), n);
  }

  /** A request that an OPEN breaker turns away costs one clock reading and nothing else, and is told
      how many whole seconds the timeout has. */
  lemma RequestRefused(p: RetryPolicy, answers: int -> Answer, readings: int -> real, s: Snapshot, b: CircuitBreaker, resolved: bool)
    requires p.maxRetries >= 0 && s.breaker == Some(b) && b.state == Open && !b.disabled
    requires b.openedAt.Some? && readings(s.used) <= b.openedAt.value + b.resetTimeout
    ensures var (reply, t) := Request(p, answers, readings, s, resolved);
            && t == Snapshot(s.breaker, s.calls, s.used + 1, s.slept)
            && reply.CircuitOpen? && StatusOf(reply) == Some(503)
            && reply.retryAfter as real <= b.resetTimeout < reply.retryAfter as real + 1.0
  {
  }

  /** Without a known primary an admitted request ends before the loop, but after the half-open step. */
  lemma RequestUnresolved(p: RetryPolicy, answers: int -> Answer, readings: int -> real, s: Snapshot)
    requires p.maxRetries >= 0
    requires s.breaker.Some? ==> s.breaker.value.ShouldAllowRequest(readings(s.used))
    ensures var (reply, t) := Request(p, answers, readings, s, false);
            && reply == PrimaryUnknown && StatusOf(reply) == Some(503)
            && t.calls == s.calls && t.used == s.used + 1 && t.slept == s.slept
            && t.breaker == match s.breaker {
                              case None => None
                              case Some(b) =>
                                if b.state == Open && b.openedAt.Some? && readings(s.used) > b.openedAt.value + b.resetTimeout
                                then Some(b.(state := HalfOpen)) else Some(b)
                            }
  {
  }

  /** Without a breaker the clock is still read, and nothing is ever refused or recorded. */
  lemma RequestUnguarded(p: RetryPolicy, answers: int -> Answer, readings: int -> real, s: Snapshot, n: nat)
    requires p.maxRetries >= 0 && n == Attempts(p, answers, s.calls, p.maxRetries) && s.breaker.None?
    ensures Request(p, answers, readings, s, true) ==
            (ReplyTo(answers(s.calls + n - 1)), Snapshot(None, s.calls + n, s.used + 1, s.slept + Delays(p, n - 1)))
  {
    RequestExact(p, answers, readings, s, n);
  }

  /** From CLOSED with f failures already counted, a request that fails m times leaves the breaker
      CLOSED exactly when f + m stays below the threshold, however it ends; otherwise it leaves it
      OPEN, stamped with its last failure. */
  lemma AloneFromClosed(p: RetryPolicy, answers: int -> Answer, readings: int -> real, s: Snapshot, b: CircuitBreaker, n: nat, m: nat)
    requires p.maxRetries >= 0 && n == Attempts(p, answers, s.calls, p.maxRetries) && m == FailuresAmong(answers, s.calls, n)
    requires s.breaker == Some(b) && b.state == Closed && b.openedAt.None? && 0 <= b.failureCount < b.threshold
    ensures var t := Request(p, answers, readings, s, true).1;
            && t.calls == s.calls + n && t.breaker.Some?
            && (var r := t.breaker.value;
                && (r.state == Closed <==> b.failureCount + m < b.threshold)
                && (r.state == Closed ==>
                      r.failureCount == if CountsAsSuccess(answers(s.calls + n - 1)) then 0 else b.failureCount + m)
                && (r.state != Closed ==> r.state == Open && r.openedAt == Some(readings(s.used + m))))
  {
    RequestExact(p, answers, readings, s, n);
    LoopFromClosed(b, answers, s.calls, n, m, readings, s.used + 1);
  }

  /** From HALF_OPEN, or from OPEN once the timeout has passed, the first attempt decides: success
      closes the breaker, an escaping exception leaves it HALF_OPEN, and after m >= 1 failures it is
      OPEN even if a retry succeeds, stamped with the first of them or, from the threshold on, the last. */
  lemma AloneAsProbe(p: RetryPolicy, answers: int -> Answer, readings: int -> real, s: Snapshot, b: CircuitBreaker, n: nat, m: nat)
    requires p.maxRetries >= 0 && n == Attempts(p, answers, s.calls, p.maxRetries) && m == FailuresAmong(answers, s.calls, n)
    requires s.breaker == Some(b) && (b.state == HalfOpen || b.ProbeDue(readings(s.used)))
    ensures var t := Request(p, answers, readings, s, true).1;
            && t.calls == s.calls + n && t.breaker.Some?
            && (var r := t.breaker.value;
                && (r.state == Closed <==> CountsAsSuccess(answers(s.calls)))
                && (r.state == HalfOpen <==> answers(s.calls) == Raised(Foreign))
                && (r.state == Open <==> CountsAsFailure(answers(s.calls)))
                && (r.state == Open ==> m >= 1 && r.openedAt == Some(readings(s.used + if m < b.threshold then 1 else m))))
  {
    RequestExact(p, answers, readings, s, n);
    LoopFromHalfOpen(Admit(s.breaker, readings(s.used)).value, answers, s.calls, n, m, readings, s.used + 1);
    assert n > 1 ==> Retryable(p, answers(s.calls));
  }

  // ---------- Requests one after another ----------

  /** Every probe in the log was due, and its times never run backwards nor past `now`. */
  predicate InOrder(b0: CircuitBreaker, log: Log, now: real) {
    match log
    case Start => true
    case Then(before, Succeeded) => InOrder(b0, before, now)
    case Then(before, Failed(at)) => at <= now && InOrder(b0, before, at)
    case Then(before, Probed(at)) => at <= now && InOrder(b0, before, at) && Replay(b0, before).ProbeDue(at)
  }

  ghost predicate Monotone(readings: int -> real) {
    forall i, j :: 0 <= i <= j ==> 0.0 <= readings(i) <= readings(j)
  }

  function AdmissionLog(log: Log, b: CircuitBreaker, now: real): Log {
    if b.ProbeDue(now) then Then(log, Probed(now)) else log
  }

  /** The log after one more request. */
  function RequestLog(log: Log, p: RetryPolicy, answers: int -> Answer, readings: int -> real, s: Snapshot, resolved: bool): Log
    requires p.maxRetries >= 0 && s.breaker.Some?
  {
    var now := readings(s.used);
    if !s.breaker.value.ShouldAllowRequest(now) then log
    else
      var admitted := AdmissionLog(log, s.breaker.value, now);
      if resolved then LoopLog(admitted, answers, s.calls, Attempts(p, answers, s.calls, p.maxRetries), readings, s.used + 1)
      else admitted
  }

  function Run(p: RetryPolicy, answers: int -> Answer, readings: int -> real, s: Snapshot, requests: seq<bool>): Snapshot
    requires p.maxRetries >= 0
  {
    if requests == [] then s
    else
      var n := |requests| - 1;
      Request(p, answers, readings, Run(p, answers, readings, s, requests[..n]), requests[n]).1
  }

  function RunLog(log: Log, p: RetryPolicy, answers: int -> Answer, readings: int -> real, s: Snapshot, requests: seq<bool>): Log
    requires p.maxRetries >= 0
  {
    if requests == [] then log
    else
      var n := |requests| - 1;
      var t := Run(p, answers, readings, s, requests[..n]);
      var before := RunLog(log, p, answers, readings, s, requests[..n]);
      if t.breaker.None? then before else RequestLog(before, p, answers, readings, t, requests[n])
  }

  lemma {:induction false} InOrderLater(b0: CircuitBreaker, log: Log, now: real, later: real)
    requires InOrder(b0, log, now) && now <= later
    ensures InOrder(b0, log, later)
  {
    if log.Then? && log.last.Succeeded? {
      InOrderLater(b0, log.before, now, later);
    }
  }

  lemma {:induction false} InOrderIsLegal(b0: CircuitBreaker, log: Log, now: real)
    requires InOrder(b0, log, now)
    ensures Legal(b0, log)
  {
    if log.Then? {
      InOrderIsLegal(b0, log.before, if log.last.Succeeded? then now else log.last.at);
    }
  }

  lemma {:induction false} FailuresInOrder(b0: CircuitBreaker, log: Log, readings: int -> real, first: nat, m: nat)
    requires Monotone(readings) && InOrder(b0, log, readings(first))
    ensures InOrder(b0, FailureLog(log, readings, first, m), readings(first + m))
  {
    if m > 0 {
      FailuresInOrder(b0, log, readings, first, m - 1);
      assert readings(first + m - 1) <= readings(first + m);
    }
  }

  lemma LoopInOrder(b0: CircuitBreaker, log: Log, answers: int -> Answer, call: nat, n: nat, readings: int -> real, reading: nat)
    requires n >= 1 && Monotone(readings) && InOrder(b0, log, readings(reading))
    ensures InOrder(b0, LoopLog(log, answers, call, n, readings, reading), readings(reading + FailuresAmong(answers, call, n)))
  {
    FailuresInOrder(b0, log, readings, reading, n - 1);
    assert readings(reading + n - 1) <= readings(reading + n);
  }

  lemma {:induction false} FailuresReplay(b0: CircuitBreaker, log: Log, readings: int -> real, first: nat, m: nat)
    ensures Replay(Replay(b0, log), FailureLog(Start, readings, first, m)) == Replay(b0, FailureLog(log, readings, first, m))
  {
    if m > 0 { FailuresReplay(b0, log, readings, first, m - 1); }
  }

  lemma LoopReplay(b0: CircuitBreaker, log: Log, answers: int -> Answer, call: nat, n: nat, readings: int -> real, reading: nat)
    requires n >= 1
    ensures Replay(Replay(b0, log), LoopLog(Start, answers, call, n, readings, reading)) ==
            Replay(b0, LoopLog(log, answers, call, n, readings, reading))
  {
    FailuresReplay(b0, log, readings, reading, n - 1);
  }

  lemma ForwardedInOrder(p: RetryPolicy, answers: int -> Answer, readings: int -> real, s: Snapshot, n: nat, reply: Reply, t: Snapshot,
                         b0: CircuitBreaker, admitted: Log)
    requires n >= 1 && Monotone(readings) && Exact(p, answers, readings, s, n, reply, t)
    requires InOrder(b0, admitted, readings(s.used)) && s.breaker == Some(Replay(b0, admitted))
    ensures var after := LoopLog(admitted, answers, s.calls, n, readings, s.used);
            InOrder(b0, after, readings(t.used)) && t.breaker == Some(Replay(b0, after))
  {
    LoopInOrder(b0, admitted, answers, s.calls, n, readings, s.used);
    LoopReplay(b0, admitted, answers, s.calls, n, readings, s.used);
  }

  lemma AdmissionInOrder(b0: CircuitBreaker, log: Log, b: CircuitBreaker, now: real, later: real)
    requires InOrder(b0, log, now) && b == Replay(b0, log) && now <= later
    ensures InOrder(b0, log, later) && InOrder(b0, AdmissionLog(log, b, now), later)
    ensures Admit(Some(b), now) == Some(Replay(b0, AdmissionLog(log, b, now)))
  {
    InOrderLater(b0, log, now, later);
  }

  lemma StoppedInOrder(p: RetryPolicy, answers: int -> Answer, readings: int -> real, s: Snapshot, resolved: bool,
                       b0: CircuitBreaker, log: Log)
    requires p.maxRetries >= 0 && Monotone(readings)
    requires InOrder(b0, log, readings(s.used)) && s.breaker == Some(Replay(b0, log))
    requires !(resolved && s.breaker.value.ShouldAllowRequest(readings(s.used)))
    ensures var t, after := Request(p, answers, readings, s, resolved).1, RequestLog(log, p, answers, readings, s, resolved);
            InOrder(b0, after, readings(t.used)) && t.breaker == Some(Replay(b0, after))
  {
    AdmissionInOrder(b0, log, s.breaker.value, readings(s.used), readings(s.used + 1));
  }

  lemma PassedInOrder(p: RetryPolicy, answers: int -> Answer, readings: int -> real, s: Snapshot, t: Snapshot,
                      b0: CircuitBreaker, log: Log, after: Log)
    requires p.maxRetries >= 0 && Monotone(readings)
    requires InOrder(b0, log, readings(s.used)) && s.breaker == Some(Replay(b0, log))
    requires s.breaker.value.ShouldAllowRequest(readings(s.used))
    requires t == Request(p, answers, readings, s, true).1 && after == RequestLog(log, p, answers, readings, s, true)
    ensures InOrder(b0, after, readings(t.used)) && t.breaker == Some(Replay(b0, after))
  {
    hide Loop, LoopLog, Replay, InOrder, Delays, Record;
    var b, now := s.breaker.value, readings(s.used);
    var n, reply := Attempts(p, answers, s.calls, p.maxRetries), Request(p, answers, readings, s, true).0;
    AdmissionInOrder(b0, log, b, now, readings(s.used + 1));
    RequestExact(p, answers, readings, s, n);
    ForwardedInOrder(p, answers, readings, s.(used := s.used + 1, breaker := Admit(s.breaker, now)), n, reply, t, b0,
                     AdmissionLog(log, b, now));
  }

  lemma RequestInOrder(p: RetryPolicy, answers: int -> Answer, readings: int -> real, s: Snapshot, resolved: bool,
                       b0: CircuitBreaker, log: Log)
    requires p.maxRetries >= 0 && Monotone(readings)
    requires InOrder(b0, log, readings(s.used)) && s.breaker == Some(Replay(b0, log))
    ensures var t, after := Request(p, answers, readings, s, resolved).1, RequestLog(log, p, answers, readings, s, resolved);
            InOrder(b0, after, readings(t.used)) && t.breaker == Some(Replay(b0, after))
  {
    if resolved && s.breaker.value.ShouldAllowRequest(readings(s.used)) {
      PassedInOrder(p, answers, readings, s, Request(p, answers, readings, s, resolved).1, b0, log,
                    RequestLog(log, p, answers, readings, s, resolved));
    } else {
      StoppedInOrder(p, answers, readings, s, resolved, b0, log);
    }
  }

  /** Any number of requests in sequence: the breaker is what the log of their events makes of the
      initial one, every probe in it was due, and its times never run backwards. */
  lemma {:induction false} RunInOrder(p: RetryPolicy, answers: int -> Answer, readings: int -> real, s: Snapshot,
                                      requests: seq<bool>, b0: CircuitBreaker, log: Log)
    requires p.maxRetries >= 0 && Monotone(readings)
    requires InOrder(b0, log, readings(s.used)) && s.breaker == Some(Replay(b0, log))
    ensures var t, after := Run(p, answers, readings, s, requests), RunLog(log, p, answers, readings, s, requests);
            InOrder(b0, after, readings(t.used)) && t.breaker == Some(Replay(b0, after))
  {
    if requests != [] {
      var n := |requests| - 1;
      RunInOrder(p, answers, readings, s, requests[..n], b0, log);
      RequestInOrder(p, answers, readings, Run(p, answers, readings, s, requests[..n]), requests[n], b0,
                     RunLog(log, p, answers, readings, s, requests[..n]));
    }
  }

  /** What follows an event in such a log is not earlier than it. */
  lemma {:induction false} NothingEarlier(b0: CircuitBreaker, before: Log, t: real, mid: Log, now: real)
    requires InOrder(b0, Concat(Then(before, Failed(t)), mid), now)
    ensures t <= now && NoFailureBefore(mid, t)
  {
    if mid.Then? {
      NothingEarlier(b0, before, t, mid.before, if mid.last.Succeeded? then now else mid.last.at);
    }
  }

  /** So in a sequential run a whole timeout always separates an opening from the next probe. */
  lemma SequentialCoolDown(b0: CircuitBreaker, before: Log, t: real, mid: Log, probe: real, now: real)
    requires InOrder(b0, Then(Concat(Then(before, Failed(t)), mid), Probed(probe)), now) && NoProbe(mid)
    requires Replay(b0, before).state != Open && Replay(b0, Then(before, Failed(t))).state == Open
    ensures probe > t + b0.resetTimeout
  {
    NothingEarlier(b0, before, t, mid, probe);
    InOrderIsLegal(b0, Then(Concat(Then(before, Failed(t)), mid), Probed(probe)), now);
    CoolDownHolds(b0, before, t, mid, probe);
  }

  lemma {:induction false} StampNotInFuture(b0: CircuitBreaker, log: Log, now: real)
    requires b0.openedAt.None? && InOrder(b0, log, now)
    ensures Replay(b0, log).openedAt.Some? ==> Replay(b0, log).openedAt.value <= now
  {
    if log.Then? {
      StampNotInFuture(b0, log.before, if log.last.Succeeded? then now else log.last.at);
    }
  }

  /** And while the breaker stays OPEN in such a run its stamp never moves back. */
  lemma StampNeverMovesBack(b0: CircuitBreaker, log: Log, e: Event, now: real)
    requires b0.openedAt.None? && InOrder(b0, Then(log, e), now)
    requires Replay(b0, log).openedAt.Some? && Replay(b0, Then(log, e)).openedAt.Some?
    ensures Replay(b0, log).openedAt.value <= Replay(b0, Then(log, e)).openedAt.value
  {
    StampNotInFuture(b0, log, if e.Succeeded? then now else e.at);
  }

  // ---------- The same for runs of requests ----------

  /** The beginning of such a log is such a log. */
  lemma {:induction false} InOrderPrefix(b0: CircuitBreaker, log: Log, rest: Log, now: real)
    requires InOrder(b0, Concat(log, rest), now)
    ensures InOrder(b0, log, now)
  {
    if rest.Then? {
      var at := if rest.last.Succeeded? then now else rest.last.at;
      InOrderPrefix(b0, log, rest.before, at);
      InOrderLater(b0, log, at, now);
    }
  }

  lemma FreshRunInOrder(p: RetryPolicy, answers: int -> Answer, readings: int -> real, s: Snapshot, requests: seq<bool>,
                        b0: CircuitBreaker, log: Log, rest: Log)
    requires p.maxRetries >= 0 && Monotone(readings) && s.breaker == Some(b0)
    requires RunLog(Start, p, answers, readings, s, requests) == Concat(log, rest)
    ensures InOrder(b0, log, readings(Run(p, answers, readings, s, requests).used))
  {
    RunInOrder(p, answers, readings, s, requests, b0, Start);
    InOrderPrefix(b0, log, rest, readings(Run(p, answers, readings, s, requests).used));
  }

  /** Wherever an opening and the next probe occur in a run of requests one after another, more than the
      whole timeout lies between them. */
  lemma RunCoolDown(p: RetryPolicy, answers: int -> Answer, readings: int -> real, s: Snapshot, requests: seq<bool>,
                    b0: CircuitBreaker, before: Log, t: real, mid: Log, probe: real, rest: Log)
    requires p.maxRetries >= 0 && Monotone(readings) && s.breaker == Some(b0)
    requires RunLog(Start, p, answers, readings, s, requests) ==
             Concat(Then(Concat(Then(before, Failed(t)), mid), Probed(probe)), rest)
    requires Replay(b0, before).state != Open && Replay(b0, Then(before, Failed(t))).state == Open && NoProbe(mid)
    ensures probe > t + b0.resetTimeout
  {
    var log, now := Then(Concat(Then(before, Failed(t)), mid), Probed(probe)), readings(Run(p, answers, readings, s, requests).used);
    FreshRunInOrder(p, answers, readings, s, requests, b0, log, rest);
    SequentialCoolDown(b0, before, t, mid, probe, now);
  }

  /** And no event of such a run moves the stamp of an open breaker back. */
  lemma RunStampNeverMovesBack(p: RetryPolicy, answers: int -> Answer, readings: int -> real, s: Snapshot, requests: seq<bool>,
                               b0: CircuitBreaker, log: Log, e: Event, rest: Log)
    requires p.maxRetries >= 0 && Monotone(readings) && s.breaker == Some(b0) && b0.openedAt.None?
    requires RunLog(Start, p, answers, readings, s, requests) == Concat(Then(log, e), rest)
    requires Replay(b0, log).openedAt.Some? && Replay(b0, Then(log, e)).openedAt.Some?
    ensures Replay(b0, log).openedAt.value <= Replay(b0, Then(log, e)).openedAt.value
  {
    var now := readings(Run(p, answers, readings, s, requests).used);
    FreshRunInOrder(p, answers, readings, s, requests, b0, Then(log, e), rest);
    StampNeverMovesBack(b0, log, e, now);
  }
}
