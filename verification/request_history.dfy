/** What one request does inside an arbitrary interleaving: its own answers decide how often it calls the
    primary and what it replies, exactly as if it ran alone. */
module RequestHistory {
  import opened CircuitBreakers
  import opened Retry
  import opened Forwarding
  import opened Interleaving

  /** The answers request `id` has been given, in order. */
  function Heard(p: RetryPolicy, s: System, schedule: Schedule, id: nat): seq<Answer> {
    match schedule
    case Idle => []
    case After(before, act) =>
      var t, h := Exec(p, s, before), Heard(p, s, before, id);
      if act.PortAnswers? && act.id == id && id < |t.requests| && t.requests[id].Calling? then h + [act.answer] else h
  }

  /** After each of these answers the loop went on. */
  predicate AllContinue(p: RetryPolicy, h: seq<Answer>) {
    forall i :: 0 <= i < |h| ==> Continues(p, h[i], i)
  }

  predicate Matches(p: RetryPolicy, f: Phase, h: seq<Answer>) {
    match f
    case Calling(k) => |h| == k && AllContinue(p, h)
    case Answered(k, a) => |h| == k + 1 && h[k] == a && AllContinue(p, h[..k])
    case Failing(k, a, _) => |h| == k + 1 && h[k] == a && CountsAsFailure(a) && AllContinue(p, h[..k])
    case Done(reply, n, recorded) =>
      && |h| == n
      && (n > 0 ==>
            && reply == ReplyTo(h[n - 1]) && AllContinue(p, h[..n - 1]) && !Continues(p, h[n - 1], n - 1)
            && recorded == (if h[n - 1] == Raised(Foreign) then n - 1 else n))
    case _ => h == []
  }

  lemma StepMatches(p: RetryPolicy, s: System, a: Action, id: nat, h: seq<Answer>)
    requires id < |s.requests| && Matches(p, s.requests[id], h)
    ensures var heard := if a.PortAnswers? && a.id == id && s.requests[id].Calling? then h + [a.answer] else h;
            Matches(p, Next(p, s, a).requests[id], heard)
  {
    if a.PortAnswers? && a.id == id && s.requests[id].Calling? {
      assert (h + [a.answer])[..|h|] == h;
    } else if a.RecordFailureStep? && a.id == id && s.requests[id].Failing? {
      assert h == h[..|h| - 1] + [h[|h| - 1]];
    }
  }

  lemma NewcomerMatches(p: RetryPolicy, s: System, a: Action, id: nat)
    requires id >= |s.requests|
    ensures id < |Next(p, s, a).requests| ==> Matches(p, Next(p, s, a).requests[id], [])
  {
  }

  lemma NobodyLeaves(p: RetryPolicy, s: System, a: Action)
    ensures |Next(p, s, a).requests| >= |s.requests|
  {
  }

  lemma {:induction false} HistoryMatches(p: RetryPolicy, b0: CircuitBreaker, clock: real, schedule: Schedule, id: nat)
    ensures var s, h := Exec(p, Initial(b0, clock), schedule), Heard(p, Initial(b0, clock), schedule, id);
            if id < |s.requests| then Matches(p, s.requests[id], h) else h == []
  {
    hide Next, Matches;
    if schedule.Idle? {
      assert Exec(p, Initial(b0, clock), schedule).requests == [];
    } else {
      HistoryMatches(p, b0, clock, schedule.before, id);
      var s := Exec(p, Initial(b0, clock), schedule.before);
      NobodyLeaves(p, s, schedule.act);
      if id < |s.requests| {
        StepMatches(p, s, schedule.act, id, Heard(p, Initial(b0, clock), schedule.before, id));
      } else {
        NewcomerMatches(p, s, schedule.act, id);
      }
    }
  }

  lemma {:induction false} AttemptsOfHistory(p: RetryPolicy, h: seq<Answer>, answers: int -> Answer, first: nat)
    requires p.maxRetries >= 0 && first < |h| <= p.maxRetries + 1
    requires forall i :: 0 <= i < |h| ==> answers(i) == h[i]
    requires AllContinue(p, h[..|h| - 1]) && !Continues(p, h[|h| - 1], |h| - 1)
    ensures Attempts(p, answers, first, p.maxRetries - first) == |h| - first
    decreases |h| - first
  {
    if first < |h| - 1 {
      assert h[..|h| - 1][first] == h[first];
      AttemptsOfHistory(p, h, answers, first + 1);
    }
  }

  /** Whatever the other requests do, a finished request that called the primary at all called it exactly
      as often as the retry loop does on the same answers, replied to the last one, and recorded one
      outcome per attempt unless the last one escaped. */
  lemma FinishedRequestExact(p: RetryPolicy, b0: CircuitBreaker, clock: real, schedule: Schedule, id: nat, answers: int -> Answer)
    requires p.maxRetries >= 0
    requires b0.Configured() && b0 == Fresh(b0.threshold, b0.resetTimeout, b0.disabled)
    requires var s := Exec(p, Initial(b0, clock), schedule); id < |s.requests| && s.requests[id].Done?
    requires var h := Heard(p, Initial(b0, clock), schedule, id); forall i :: 0 <= i < |h| ==> answers(i) == h[i]
    ensures var h := Heard(p, Initial(b0, clock), schedule, id);
            var Done(reply, attempts, recorded) := Exec(p, Initial(b0, clock), schedule).requests[id];
            if h == [] then attempts == recorded == 0 && (reply.CircuitOpen? || reply.PrimaryUnknown?)
            else
              && attempts == |h| == Attempts(p, answers, 0, p.maxRetries)
              && reply == ReplyTo(answers(attempts - 1))
              && recorded == (if answers(attempts - 1) == Raised(Foreign) then attempts - 1 else attempts)
  {
    var s, h := Exec(p, Initial(b0, clock), schedule), Heard(p, Initial(b0, clock), schedule, id);
    RunKeepsInv(p, b0, clock, schedule);
    assert PhaseOk(p, s.clock, s.requests[id]);
    HistoryMatches(p, b0, clock, schedule, id);
    if h != [] { AttemptsOfHistory(p, h, answers, 0); }
  }
}
