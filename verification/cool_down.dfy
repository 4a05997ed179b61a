/** When the breaker's promise to wait out its timeout holds under interleaving: an exact condition on
    the requests in flight. A probe comes too early exactly when some request has read the clock before
    the opening but not recorded its failure yet, the failures the others can still record let that late
    failure stamp the breaker, and a probe can then be taken in time. */
module CoolDown {
  import opened Wrappers
  import opened CircuitBreakers
  import opened Retry
  import opened Forwarding
  import opened Interleaving

  // ---------- The promise ----------

  predicate IsOpen(s: System) {
    s.breaker.state == Open
  }

  /** The breaker is OPEN from the first to the last state of the schedule. */
  predicate StaysOpen(p: RetryPolicy, s: System, schedule: Schedule) {
    IsOpen(Exec(p, s, schedule)) && (schedule.After? ==> StaysOpen(p, s, schedule.before))
  }

  /** Request `id` is about to take the half-open step, and the step will take effect. */
  predicate AboutToProbe(s: System, id: nat) {
    id < |s.requests| && s.requests[id].Admitted? && s.breaker.ProbeDue(s.requests[id].now)
  }

  /** In every continuation, the probe that ends the OPEN period comes after the timeout, counted from t. */
  ghost predicate EveryProbeWaits(p: RetryPolicy, s: System, t: real) {
    forall rest: Schedule, id: nat :: StaysOpen(p, s, rest) && AboutToProbe(Exec(p, s, rest), id) ==>
      Exec(p, s, rest).requests[id].now > t + s.breaker.resetTimeout
  }

  // ---------- The requests in flight ----------

  /** The request has read the clock before t for a failure it has not recorded yet. */
  predicate IsLate(f: Phase, t: real) {
    f.Failing? && f.at < t
  }

  /** The request carries a clock reading in that interval towards its half-open step. */
  predicate Carries(f: Phase, low: real, high: real) {
    (f.Timed? || f.Admitted?) && low < f.now <= high
  }

  function FailuresFrom(p: RetryPolicy, attempt: nat): nat {
    if attempt < p.maxRetries then p.maxRetries - attempt + 1 else 1
  }

  /** How many failures the request can still record while the breaker stays OPEN with a timeout ending
      at `limit`. Requests not admitted yet record none: admitted later, they would probe. */
  function FailuresLeft(p: RetryPolicy, limit: real, f: Phase): nat {
    match f
    case Admitted(now) => if now <= limit then FailuresFrom(p, 0) else 0
    case Calling(k) => FailuresFrom(p, k)
    case Answered(k, a) => if !CountsAsFailure(a) then 0 else if Continues(p, a, k) then FailuresFrom(p, k) else 1
    case Failing(k, a, _) => if Continues(p, a, k) then FailuresFrom(p, k) else 1
    case _ => 0
  }

  function AllFailuresLeft(p: RetryPolicy, limit: real, requests: seq<Phase>): nat {
    if requests == [] then 0
    else
      var n := |requests| - 1;
      AllFailuresLeft(p, limit, requests[..n]) + FailuresLeft(p, limit, requests[n])
  }

  function Limit(s: System, t: real): real {
    t + s.breaker.resetTimeout
  }

  /** The failures counted when all requests but i and j have failed as often as they can, and then i once. */
  function CountWithout(p: RetryPolicy, s: System, t: real, i: nat, j: nat): int
    requires i < |s.requests| && j < |s.requests|
  {
    s.breaker.failureCount + 1 + AllFailuresLeft(p, Limit(s, t), s.requests)
    - FailuresLeft(p, Limit(s, t), s.requests[i])
    - if j == i then 0 else FailuresLeft(p, Limit(s, t), s.requests[j])
  }

  /** A probe no later than the limit can follow a stamp `at`: by a new request, or by request j. */
  predicate NewRequestInTime(s: System, t: real) {
    s.clock <= Limit(s, t)
  }

  predicate CarriedInTime(s: System, t: real, at: real, j: nat) {
    j < |s.requests| && Carries(s.requests[j], at + s.breaker.resetTimeout, Limit(s, t))
  }

  ghost predicate InTime(s: System, t: real, at: real) {
    at < t && (NewRequestInTime(s, t) || exists j: nat :: CarriedInTime(s, t, at, j))
  }

  /** The late request i can bring about a probe before the limit. */
  ghost predicate CanHurry(p: RetryPolicy, s: System, t: real, i: nat)
    requires i < |s.requests| && IsLate(s.requests[i], t)
  {
    || (NewRequestInTime(s, t) && CountWithout(p, s, t, i, i) >= s.breaker.threshold)
    || (exists j: nat :: CarriedInTime(s, t, s.requests[i].at, j) && CountWithout(p, s, t, i, j) >= s.breaker.threshold)
  }

  ghost predicate Endangered(p: RetryPolicy, s: System, t: real) {
    exists i: nat :: i < |s.requests| && IsLate(s.requests[i], t) && CanHurry(p, s, t, i)
  }

  // ---------- Sums ----------

  lemma {:induction false} LeftUpdate(p: RetryPolicy, limit: real, requests: seq<Phase>, id: nat, f: Phase)
    requires id < |requests|
    ensures AllFailuresLeft(p, limit, requests[id := f]) ==
            AllFailuresLeft(p, limit, requests) - FailuresLeft(p, limit, requests[id]) + FailuresLeft(p, limit, f)
  {
    hide FailuresLeft;
    var n := |requests| - 1;
    if id == n {
      assert requests[id := f][..n] == requests[..n];
    } else {
      LeftUpdate(p, limit, requests[..n], id, f);
      assert requests[id := f][..n] == requests[..n][id := f];
    }
  }

  lemma {:induction false} LeftOfOne(p: RetryPolicy, limit: real, requests: seq<Phase>, i: nat)
    requires i < |requests|
    ensures FailuresLeft(p, limit, requests[i]) <= AllFailuresLeft(p, limit, requests)
  {
    hide FailuresLeft;
    if i < |requests| - 1 { LeftOfOne(p, limit, requests[..|requests| - 1], i); }
  }

  lemma {:induction false} LeftOfTwo(p: RetryPolicy, limit: real, requests: seq<Phase>, i: nat, j: nat)
    requires i < j < |requests|
    ensures FailuresLeft(p, limit, requests[i]) + FailuresLeft(p, limit, requests[j]) <= AllFailuresLeft(p, limit, requests)
  {
    hide FailuresLeft;
    var n := |requests| - 1;
    if j < n {
      LeftOfTwo(p, limit, requests[..n], i, j);
    } else {
      LeftOfOne(p, limit, requests[..n], i);
    }
  }

  lemma CountAtLeast(p: RetryPolicy, s: System, t: real, i: nat, j: nat)
    requires i < |s.requests| && j < |s.requests|
    ensures CountWithout(p, s, t, i, j) > s.breaker.failureCount
  {
    hide FailuresLeft, AllFailuresLeft;
    LeftOfOne(p, Limit(s, t), s.requests, i);
    if i < j {
      LeftOfTwo(p, Limit(s, t), s.requests, i, j);
    } else if j < i {
      LeftOfTwo(p, Limit(s, t), s.requests, j, i);
    }
  }

  // ---------- Safe: no late request can hurry a probe ----------

  /** The stamp in force cannot be followed by an early probe, and neither can the reading of a late
      request, unless too few failures are left for it to become the stamp. */
  ghost predicate Safe(p: RetryPolicy, s: System, t: real) {
    && IsOpen(s) && !s.breaker.disabled && s.clock >= t
    && s.breaker.openedAt.Some? && !InTime(s, t, s.breaker.openedAt.value)
    && forall i: nat :: i < |s.requests| && IsLate(s.requests[i], t) && InTime(s, t, s.requests[i].at) ==>
         s.breaker.openedAt.value == t && !CanHurry(p, s, t, i)
  }

  /** So a probe that is about to be taken comes late enough. */
  lemma SafeProbe(p: RetryPolicy, s: System, t: real, id: nat)
    requires Safe(p, s, t) && AboutToProbe(s, id)
    ensures s.requests[id].now > Limit(s, t)
  {
    assert s.requests[id].now <= Limit(s, t) ==> CarriedInTime(s, t, s.breaker.openedAt.value, id);
  }

  // ---------- Every step keeps it ----------

  ghost predicate NoneInTime(s: System, t: real) {
    forall i: nat :: i < |s.requests| && IsLate(s.requests[i], t) ==> !InTime(s, t, s.requests[i].at)
  }

  predicate HasReading(f: Phase) {
    f.Timed? || f.Admitted?
  }

  /** The new phase carries no reading, the one it carried before, or the clock's. */
  predicate ReadingKept(s: System, f: Phase, g: Phase) {
    HasReading(g) ==> (HasReading(f) && f.now == g.now) || g.now == s.clock
  }

  /** One request has moved from f to g; of the breaker only the counters and the stamp may have changed. */
  predicate Moves(s: System, id: nat, g: Phase, s2: System) {
    && id < |s.requests| && s2.requests == s.requests[id := g] && s2.clock == s.clock
    && s2.breaker == s.breaker.(failureCount := s2.breaker.failureCount, successCount := s2.breaker.successCount,
                                openedAt := s2.breaker.openedAt)
  }

  lemma InTimeBefore(s: System, t: real, id: nat, g: Phase, s2: System, at: real)
    requires Moves(s, id, g, s2) && ReadingKept(s, s.requests[id], g) && InTime(s2, t, at)
    ensures InTime(s, t, at)
  {
    if !NewRequestInTime(s2, t) {
      var j: nat :| CarriedInTime(s2, t, at, j);
      assert CarriedInTime(s, t, at, j);
    }
  }

  /** The move has not made more failures possible. */
  predicate Spends(p: RetryPolicy, s: System, t: real, id: nat, g: Phase, s2: System)
    requires id < |s.requests|
  {
    var left, left2 := FailuresLeft(p, Limit(s, t), s.requests[id]), FailuresLeft(p, Limit(s, t), g);
    && s2.breaker.failureCount + left2 <= s.breaker.failureCount + left
    && (HasReading(g) ==> s2.breaker.failureCount == s.breaker.failureCount && left2 == left)
  }

  lemma CountBefore(p: RetryPolicy, s: System, t: real, id: nat, g: Phase, s2: System, i: nat, j: nat)
    requires Moves(s, id, g, s2) && Spends(p, s, t, id, g, s2) && i < |s.requests| && i != id && j < |s.requests|
    requires j == id ==> HasReading(g)
    ensures CountWithout(p, s2, t, i, j) <= CountWithout(p, s, t, i, j)
  {
    hide FailuresLeft, AllFailuresLeft;
    LeftUpdate(p, Limit(s, t), s.requests, id, g);
  }

  lemma HurryBefore(p: RetryPolicy, s: System, t: real, id: nat, g: Phase, s2: System, i: nat)
    requires Moves(s, id, g, s2) && ReadingKept(s, s.requests[id], g) && Spends(p, s, t, id, g, s2)
    requires i < |s.requests| && i != id && IsLate(s.requests[i], t) && CanHurry(p, s2, t, i)
    ensures CanHurry(p, s, t, i)
  {
    hide FailuresLeft, AllFailuresLeft, CountWithout, Spends, ReadingKept;
    if NewRequestInTime(s2, t) && CountWithout(p, s2, t, i, i) >= s2.breaker.threshold {
      CountBefore(p, s, t, id, g, s2, i, i);
    } else {
      var j: nat :| CarriedInTime(s2, t, s.requests[i].at, j) && CountWithout(p, s2, t, i, j) >= s2.breaker.threshold;
      CountBefore(p, s, t, id, g, s2, i, j);
      HurryByReading(p, s, t, id, g, s2, i, j);
    }
  }

  lemma HurryByReading(p: RetryPolicy, s: System, t: real, id: nat, g: Phase, s2: System, i: nat, j: nat)
    requires Moves(s, id, g, s2) && ReadingKept(s, s.requests[id], g)
    requires i < |s.requests| && IsLate(s.requests[i], t) && CarriedInTime(s2, t, s.requests[i].at, j)
    requires CountWithout(p, s, t, i, j) >= s.breaker.threshold
    ensures CanHurry(p, s, t, i)
  {
    hide FailuresLeft, AllFailuresLeft;
    if !CarriedInTime(s, t, s.requests[i].at, j) {
      assert j == id && NewRequestInTime(s, t);
      assert CountWithout(p, s, t, i, i) >= CountWithout(p, s, t, i, j);
    }
  }

  lemma MoveKeepsSafe(p: RetryPolicy, s: System, t: real, id: nat, g: Phase, s2: System)
    requires Safe(p, s, t) && Moves(s, id, g, s2) && ReadingKept(s, s.requests[id], g) && !IsLate(g, t)
    requires s2.breaker.openedAt.Some? && !InTime(s, t, s2.breaker.openedAt.value)
    requires NoneInTime(s, t) || (s2.breaker.openedAt == s.breaker.openedAt && Spends(p, s, t, id, g, s2))
    ensures Safe(p, s2, t)
  {
    hide FailuresLeft, AllFailuresLeft, CountWithout, Spends, ReadingKept, CanHurry, InTime;
    if InTime(s2, t, s2.breaker.openedAt.value) { InTimeBefore(s, t, id, g, s2, s2.breaker.openedAt.value); }
    forall i: nat | i < |s2.requests| && IsLate(s2.requests[i], t) && InTime(s2, t, s2.requests[i].at)
      ensures s2.breaker.openedAt.value == t && !CanHurry(p, s2, t, i)
    {
      InTimeBefore(s, t, id, g, s2, s2.requests[i].at);
      if CanHurry(p, s2, t, i) { HurryBefore(p, s, t, id, g, s2, i); }
    }
  }

  lemma TickSafe(p: RetryPolicy, s: System, t: real, duration: real)
    requires Safe(p, s, t) && duration >= 0.0
    ensures Safe(p, s.(clock := s.clock + duration), t)
  {
    var s2 := s.(clock := s.clock + duration);
    forall at: real, j: nat ensures CarriedInTime(s2, t, at, j) == CarriedInTime(s, t, at, j) {}
    forall i: nat, j: nat | i < |s.requests| && j < |s.requests|
      ensures CountWithout(p, s2, t, i, j) == CountWithout(p, s, t, i, j) {}
  }

  lemma ArriveSafe(p: RetryPolicy, s: System, t: real)
    requires Safe(p, s, t)
    ensures Safe(p, s.(requests := s.requests + [Arrived]), t)
  {
    var s2 := s.(requests := s.requests + [Arrived]);
    assert s2.requests[..|s.requests|] == s.requests;
    assert AllFailuresLeft(p, Limit(s, t), s2.requests) == AllFailuresLeft(p, Limit(s, t), s.requests);
    forall at: real, j: nat ensures CarriedInTime(s2, t, at, j) == CarriedInTime(s, t, at, j) {}
    forall i: nat, j: nat | i < |s.requests| && j < |s.requests|
      ensures CountWithout(p, s2, t, i, j) == CountWithout(p, s, t, i, j) {}
  }

  /** Reading the clock, the answers of the primary and recording a success. */
  predicate IsMild(a: Action) {
    a.ReadClock? || a.PortAnswers? || a.ReadFailureClock? || a.RecordSuccessStep?
  }

  lemma MildSafe(p: RetryPolicy, s: System, t: real, a: Action)
    requires Safe(p, s, t) && s.breaker.failureCount >= 0 && IsMild(a) && Next(p, s, a) != s
    ensures Safe(p, Next(p, s, a), t)
  {
    var s2 := Next(p, s, a);
    var g := s2.requests[a.id];
    assert Moves(s, a.id, g, s2) && ReadingKept(s, s.requests[a.id], g) && !IsLate(g, t) && Spends(p, s, t, a.id, g, s2);
    hide *;
    MoveKeepsSafe(p, s, t, a.id, g, s2);
  }

  /** An enabled breaker admits only when the stamp in force is followed by a whole timeout. */
  lemma AdmissionSafe(p: RetryPolicy, s: System, t: real, id: nat)
    requires Safe(p, s, t) && id < |s.requests| && s.requests[id].Timed?
    ensures Safe(p, Next(p, s, CheckAdmission(id)), t)
  {
    var s2 := Next(p, s, CheckAdmission(id));
    var g := s2.requests[id];
    assert Moves(s, id, g, s2) && ReadingKept(s, s.requests[id], g) && !IsLate(g, t);
    assert s.breaker.openedAt.value == t ==> Spends(p, s, t, id, g, s2);
    assert s.breaker.openedAt.value != t ==> NoneInTime(s, t);
    hide *;
    MoveKeepsSafe(p, s, t, id, g, s2);
  }

  lemma HalfOpenSafe(p: RetryPolicy, s: System, t: real, id: nat, resolved: bool)
    requires Safe(p, s, t) && id < |s.requests| && s.requests[id].Admitted? && !AboutToProbe(s, id)
    ensures Safe(p, Next(p, s, HalfOpenStep(id, resolved)), t)
  {
    var s2 := Next(p, s, HalfOpenStep(id, resolved));
    var g := s2.requests[id];
    assert Moves(s, id, g, s2) && ReadingKept(s, s.requests[id], g) && !IsLate(g, t);
    assert s.breaker.openedAt.value == t ==> Spends(p, s, t, id, g, s2);
    assert s.breaker.openedAt.value != t ==> NoneInTime(s, t);
    hide *;
    MoveKeepsSafe(p, s, t, id, g, s2);
  }

  /** With the count one below the threshold, no late reading is left that could hurry a probe. */
  lemma FullCount(p: RetryPolicy, s: System, t: real)
    requires Safe(p, s, t) && s.breaker.failureCount + 1 >= s.breaker.threshold
    ensures NoneInTime(s, t)
  {
    hide FailuresLeft, AllFailuresLeft, CountWithout;
    forall i: nat | i < |s.requests| && IsLate(s.requests[i], t)
      ensures !InTime(s, t, s.requests[i].at)
    {
      if InTime(s, t, s.requests[i].at) {
        CountAtLeast(p, s, t, i, i);
        if !NewRequestInTime(s, t) {
          var j: nat :| CarriedInTime(s, t, s.requests[i].at, j);
          CountAtLeast(p, s, t, i, j);
        }
        assert false;
      }
    }
  }

  lemma FailureSafe(p: RetryPolicy, s: System, t: real, id: nat)
    requires Safe(p, s, t) && id < |s.requests| && s.requests[id].Failing?
    ensures Safe(p, Next(p, s, RecordFailureStep(id)), t)
  {
    var s2 := Next(p, s, RecordFailureStep(id));
    var g := s2.requests[id];
    assert Moves(s, id, g, s2) && ReadingKept(s, s.requests[id], g) && !IsLate(g, t);
    if s.breaker.failureCount + 1 >= s.breaker.threshold {
      FullCount(p, s, t);
      assert !InTime(s, t, s.requests[id].at);
    } else {
      assert Spends(p, s, t, id, g, s2);
    }
    assert s2.breaker.openedAt.Some? && !InTime(s, t, s2.breaker.openedAt.value);
    hide *;
    MoveKeepsSafe(p, s, t, id, g, s2);
  }

  lemma StepKeepsSafe(p: RetryPolicy, s: System, t: real, a: Action)
    requires Safe(p, s, t) && s.breaker.failureCount >= 0 && IsOpen(Next(p, s, a))
    ensures Safe(p, Next(p, s, a), t) && Next(p, s, a).breaker.failureCount >= 0
    ensures Limit(Next(p, s, a), t) == Limit(s, t)
  {
    if Next(p, s, a) != s {
      match a {
        case Tick(duration) => TickSafe(p, s, t, duration);
        case Arrive => ArriveSafe(p, s, t);
        case CheckAdmission(id) => AdmissionSafe(p, s, t, id);
        case HalfOpenStep(id, resolved) => HalfOpenSafe(p, s, t, id, resolved);
        case RecordFailureStep(id) => FailureSafe(p, s, t, id);
        case _ => MildSafe(p, s, t, a);
      }
    }
    hide Safe;
  }

  lemma {:induction false} SafeWhileOpen(p: RetryPolicy, s: System, t: real, rest: Schedule)
    requires Safe(p, s, t) && s.breaker.failureCount >= 0 && StaysOpen(p, s, rest)
    ensures Safe(p, Exec(p, s, rest), t) && Exec(p, s, rest).breaker.failureCount >= 0
    ensures Limit(Exec(p, s, rest), t) == Limit(s, t)
  {
    hide Safe, Next, Limit;
    if rest.After? {
      SafeWhileOpen(p, s, t, rest.before);
      StepKeepsSafe(p, Exec(p, s, rest.before), t, rest.act);
    }
  }

  lemma SafeWaits(p: RetryPolicy, s: System, t: real)
    requires Safe(p, s, t) && s.breaker.failureCount >= 0
    ensures EveryProbeWaits(p, s, t)
  {
    forall rest: Schedule, id: nat | StaysOpen(p, s, rest) && AboutToProbe(Exec(p, s, rest), id)
      ensures Exec(p, s, rest).requests[id].now > t + s.breaker.resetTimeout
    {
      SafeWhileOpen(p, s, t, rest);
      SafeProbe(p, Exec(p, s, rest), t, id);
    }
  }

  // ---------- Endangered: a schedule that probes too early ----------

  lemma {:induction false} StaysOpenJoin(p: RetryPolicy, s: System, x: Schedule, y: Schedule)
    requires StaysOpen(p, s, x) && StaysOpen(p, Exec(p, s, x), y)
    ensures StaysOpen(p, s, Join(x, y))
  {
    hide Next;
    ExecJoin(p, s, x, y);
    if y.After? { StaysOpenJoin(p, s, x, y.before); }
  }

  lemma StepFirst(p: RetryPolicy, s: System, a: Action, rest: Schedule) returns (schedule: Schedule)
    requires IsOpen(s) && StaysOpen(p, Next(p, s, a), rest)
    ensures StaysOpen(p, s, schedule) && Exec(p, s, schedule) == Exec(p, Next(p, s, a), rest)
  {
    hide Next;
    var one := After(Idle, a);
    assert Exec(p, s, Idle) == s && Exec(p, s, one) == Next(p, s, a);
    assert IsOpen(Exec(p, Next(p, s, a), Idle)) by { OpenAtStart(p, Next(p, s, a), rest); }
    assert StaysOpen(p, s, Idle) && StaysOpen(p, s, one);
    StaysOpenJoin(p, s, one, rest);
    ExecJoin(p, s, one, rest);
    schedule := Join(one, rest);
  }

  lemma {:induction false} OpenAtStart(p: RetryPolicy, s: System, schedule: Schedule)
    requires StaysOpen(p, s, schedule)
    ensures IsOpen(s)
  {
    if schedule.After? { OpenAtStart(p, s, schedule.before); }
  }

  function FailuresLeftAt(p: RetryPolicy, limit: real, requests: seq<Phase>, i: nat): nat {
    if i < |requests| then FailuresLeft(p, limit, requests[i]) else 0
  }

  /** If not all failures left belong to i and j, some other request has one. */
  lemma {:induction false} FindOther(p: RetryPolicy, limit: real, requests: seq<Phase>, i: nat, j: nat) returns (k: nat)
    requires AllFailuresLeft(p, limit, requests) >
             FailuresLeftAt(p, limit, requests, i) + if j == i then 0 else FailuresLeftAt(p, limit, requests, j)
    ensures k < |requests| && k != i && k != j && FailuresLeft(p, limit, requests[k]) > 0
  {
    hide FailuresLeft;
    var n := |requests| - 1;
    if n != i && n != j && FailuresLeft(p, limit, requests[n]) > 0 {
      k := n;
    } else {
      k := FindOther(p, limit, requests[..n], i, j);
    }
  }

  /** Request k has moved and one more failure is counted; the stamp is the same. */
  predicate FailedOnce(p: RetryPolicy, s: System, t: real, k: nat, s2: System) {
    && k < |s.requests| && |s2.requests| == |s.requests| && s2.clock == s.clock
    && s2.requests == s.requests[k := s2.requests[k]]
    && s2.breaker == s.breaker.(failureCount := s.breaker.failureCount + 1, successCount := 0)
    && FailuresLeft(p, Limit(s, t), s2.requests[k]) == FailuresLeft(p, Limit(s, t), s.requests[k]) - 1
  }

  predicate CanCount(s: System, t: real, k: nat) {
    k < |s.requests| && IsOpen(s) && s.breaker.openedAt == Some(t) && s.breaker.failureCount + 1 < s.breaker.threshold
  }

  lemma FailRecorded(p: RetryPolicy, s: System, t: real, k: nat) returns (schedule: Schedule)
    requires CanCount(s, t, k) && s.requests[k].Failing?
    ensures StaysOpen(p, s, schedule) && FailedOnce(p, s, t, k, Exec(p, s, schedule))
  {
    var s2 := Next(p, s, RecordFailureStep(k));
    assert FailedOnce(p, s, t, k, s2);
    assert Exec(p, s2, Idle) == s2;
    schedule := StepFirst(p, s, RecordFailureStep(k), Idle);
  }

  /** A step that leaves the breaker, the clock and the failures left alone. */
  lemma FailLater(p: RetryPolicy, s: System, t: real, k: nat, a: Action, rest: Schedule) returns (schedule: Schedule)
    requires CanCount(s, t, k)
    requires var s1 := Next(p, s, a);
             && s1 == Move(s, k, s1.requests[k])
             && FailuresLeft(p, Limit(s, t), s1.requests[k]) == FailuresLeft(p, Limit(s, t), s.requests[k])
             && StaysOpen(p, s1, rest) && FailedOnce(p, s1, t, k, Exec(p, s1, rest))
    ensures StaysOpen(p, s, schedule) && FailedOnce(p, s, t, k, Exec(p, s, schedule))
  {
    hide Next, FailuresLeft, StaysOpen;
    schedule := StepFirst(p, s, a, rest);
  }

  lemma FailAnswered(p: RetryPolicy, s: System, t: real, k: nat) returns (schedule: Schedule)
    requires CanCount(s, t, k) && s.requests[k].Answered? && CountsAsFailure(s.requests[k].answer)
    ensures StaysOpen(p, s, schedule) && FailedOnce(p, s, t, k, Exec(p, s, schedule))
  {
    var s1 := Next(p, s, ReadFailureClock(k));
    assert s1 == Move(s, k, Failing(s.requests[k].attempt, s.requests[k].answer, s.clock));
    var rest := FailRecorded(p, s1, t, k);
    hide StaysOpen, FailedOnce;
    schedule := FailLater(p, s, t, k, ReadFailureClock(k), rest);
  }

  lemma FailCalling(p: RetryPolicy, s: System, t: real, k: nat) returns (schedule: Schedule)
    requires CanCount(s, t, k) && s.requests[k].Calling?
    ensures StaysOpen(p, s, schedule) && FailedOnce(p, s, t, k, Exec(p, s, schedule))
  {
    var a := PortAnswers(k, Raised(ConnectionError));
    var s1 := Next(p, s, a);
    assert s1 == Move(s, k, Answered(s.requests[k].attempt, Raised(ConnectionError)));
    var rest := FailAnswered(p, s1, t, k);
    hide StaysOpen, FailedOnce;
    schedule := FailLater(p, s, t, k, a, rest);
  }

  lemma FailAdmitted(p: RetryPolicy, s: System, t: real, k: nat) returns (schedule: Schedule)
    requires CanCount(s, t, k) && s.requests[k].Admitted? && s.requests[k].now <= Limit(s, t)
    ensures StaysOpen(p, s, schedule) && FailedOnce(p, s, t, k, Exec(p, s, schedule))
  {
    var s1 := Next(p, s, HalfOpenStep(k, true));
    assert s1 == Move(s, k, Calling(0));
    var rest := FailCalling(p, s1, t, k);
    hide StaysOpen, FailedOnce;
    schedule := FailLater(p, s, t, k, HalfOpenStep(k, true), rest);
  }

  lemma FailOnce(p: RetryPolicy, s: System, t: real, k: nat) returns (schedule: Schedule)
    requires CanCount(s, t, k) && FailuresLeft(p, Limit(s, t), s.requests[k]) > 0
    ensures StaysOpen(p, s, schedule) && FailedOnce(p, s, t, k, Exec(p, s, schedule))
  {
    hide StaysOpen, FailedOnce;
    match s.requests[k] {
      case Admitted(_) => schedule := FailAdmitted(p, s, t, k);
      case Calling(_) => schedule := FailCalling(p, s, t, k);
      case Answered(_, _) => schedule := FailAnswered(p, s, t, k);
      case Failing(_, _, _) => schedule := FailRecorded(p, s, t, k);
    }
  }

  /** The others have failed until one more failure fills the count; i and j stand still. */
  predicate Primed(s: System, i: nat, j: nat, s2: System) {
    && i < |s.requests| && j < |s.requests| && |s2.requests| == |s.requests| && s2.clock == s.clock
    && s2.requests[i] == s.requests[i] && s2.requests[j] == s.requests[j]
    && s2.breaker == s.breaker.(failureCount := s2.breaker.failureCount, successCount := s2.breaker.successCount)
    && s2.breaker.failureCount + 1 >= s2.breaker.threshold
  }

  lemma CountKept(p: RetryPolicy, s: System, t: real, k: nat, s2: System, i: nat, j: nat)
    requires FailedOnce(p, s, t, k, s2) && i < |s.requests| && j < |s.requests| && k != i && k != j
    ensures CountWithout(p, s2, t, i, j) == CountWithout(p, s, t, i, j)
  {
    hide FailuresLeft, AllFailuresLeft;
    LeftUpdate(p, Limit(s, t), s.requests, k, s2.requests[k]);
  }

  lemma {:induction false} Prime(p: RetryPolicy, s: System, t: real, i: nat, j: nat) returns (schedule: Schedule)
    requires i < |s.requests| && j < |s.requests| && IsOpen(s) && s.breaker.openedAt == Some(t)
    requires CountWithout(p, s, t, i, j) >= s.breaker.threshold
    ensures StaysOpen(p, s, schedule) && Primed(s, i, j, Exec(p, s, schedule))
    decreases s.breaker.threshold - s.breaker.failureCount
  {
    if s.breaker.failureCount + 1 >= s.breaker.threshold {
      schedule := Idle;
    } else {
      hide FailuresLeft, AllFailuresLeft, Next;
      var k := FindOther(p, Limit(s, t), s.requests, i, j);
      schedule := FailOnce(p, s, t, k);
      var s1 := Exec(p, s, schedule);
      CountKept(p, s, t, k, s1, i, j);
      var rest := Prime(p, s1, t, i, j);
      StaysOpenJoin(p, s, schedule, rest);
      ExecJoin(p, s, schedule, rest);
      schedule := Join(schedule, rest);
    }
  }

  // ---------- The early probe ----------

  /** The late failure has become the stamp. */
  predicate Hurried(s: System, i: nat, s2: System) {
    && i < |s.requests| && s.requests[i].Failing? && |s2.requests| == |s.requests| && s2.clock == s.clock
    && (forall j :: 0 <= j < |s.requests| && j != i ==> s2.requests[j] == s.requests[j])
    && IsOpen(s2) && s2.breaker.openedAt == Some(s.requests[i].at) && s2.breaker.resetTimeout == s.breaker.resetTimeout
  }

  lemma StampLate(p: RetryPolicy, s: System, i: nat)
    requires i < |s.requests| && s.requests[i].Failing? && IsOpen(s) && s.breaker.failureCount + 1 >= s.breaker.threshold
    ensures Hurried(s, i, Next(p, s, RecordFailureStep(i)))
  {
  }

  predicate EarlyProbe(s: System, limit: real, id: nat) {
    AboutToProbe(s, id) && s.requests[id].now <= limit
  }

  /** A new request waits for the limit and is admitted then. */
  lemma ProbeByNewRequest(p: RetryPolicy, s: System, limit: real) returns (schedule: Schedule)
    requires IsOpen(s) && s.breaker.openedAt.Some? && s.breaker.openedAt.value + s.breaker.resetTimeout < limit
    requires s.clock <= limit
    ensures StaysOpen(p, s, schedule) && EarlyProbe(Exec(p, s, schedule), limit, |s.requests|)
  {
    var id := |s.requests|;
    var x0 := After(Idle, Tick(limit - s.clock));
    var x1 := After(x0, Arrive);
    var x2 := After(x1, ReadClock(id));
    schedule := After(x2, CheckAdmission(id));
    var s0 := s.(clock := limit);
    assert Exec(p, s, Idle) == s && Exec(p, s, x0) == s0;
    var s1 := s0.(requests := s.requests + [Arrived]);
    assert Exec(p, s, x1) == s1;
    assert Exec(p, s, x2) == Move(s1, id, Timed(limit));
    assert Exec(p, s, schedule) == Move(Move(s1, id, Timed(limit)), id, Admitted(limit));
    assert StaysOpen(p, s, Idle) && StaysOpen(p, s, x0) && StaysOpen(p, s, x1) && StaysOpen(p, s, x2);
  }

  lemma ProbeByReading(p: RetryPolicy, s: System, limit: real, j: nat) returns (schedule: Schedule)
    requires IsOpen(s) && s.breaker.openedAt.Some? && j < |s.requests|
    requires Carries(s.requests[j], s.breaker.openedAt.value + s.breaker.resetTimeout, limit)
    ensures StaysOpen(p, s, schedule) && EarlyProbe(Exec(p, s, schedule), limit, j)
  {
    assert Exec(p, s, Idle) == s && StaysOpen(p, s, Idle);
    if s.requests[j].Timed? {
      schedule := After(Idle, CheckAdmission(j));
      assert Exec(p, s, schedule) == Move(s, j, Admitted(s.requests[j].now));
    } else {
      schedule := Idle;
    }
  }

  lemma HurryBreaks(p: RetryPolicy, s: System, t: real, i: nat, j: nat) returns (schedule: Schedule, id: nat)
    requires IsOpen(s) && s.breaker.openedAt == Some(t) && i < |s.requests| && IsLate(s.requests[i], t)
    requires if j == i then NewRequestInTime(s, t) else CarriedInTime(s, t, s.requests[i].at, j)
    requires CountWithout(p, s, t, i, j) >= s.breaker.threshold
    ensures StaysOpen(p, s, schedule) && EarlyProbe(Exec(p, s, schedule), Limit(s, t), id)
  {
    var x := Prime(p, s, t, i, j);
    var s1 := Exec(p, s, x);
    assert IsOpen(s1);
    StampLate(p, s1, i);
    var s2 := Next(p, s1, RecordFailureStep(i));
    hide Next, CountWithout, Exec;
    var rest;
    if j == i {
      rest := ProbeByNewRequest(p, s2, Limit(s, t));
      id := |s2.requests|;
    } else {
      rest := ProbeByReading(p, s2, Limit(s, t), j);
      id := j;
    }
    var y := StepFirst(p, s1, RecordFailureStep(i), rest);
    StaysOpenJoin(p, s, x, y);
    ExecJoin(p, s, x, y);
    schedule := Join(x, y);
  }

  lemma EndangeredBreaks(p: RetryPolicy, s: System, t: real)
    requires IsOpen(s) && s.breaker.openedAt == Some(t) && Endangered(p, s, t)
    ensures !EveryProbeWaits(p, s, t)
  {
    hide CountWithout, Next, Exec, StaysOpen;
    var i: nat :| i < |s.requests| && IsLate(s.requests[i], t) && CanHurry(p, s, t, i);
    var schedule, id;
    if NewRequestInTime(s, t) && CountWithout(p, s, t, i, i) >= s.breaker.threshold {
      schedule, id := HurryBreaks(p, s, t, i, i);
    } else {
      var j: nat :| CarriedInTime(s, t, s.requests[i].at, j) && CountWithout(p, s, t, i, j) >= s.breaker.threshold;
      schedule, id := HurryBreaks(p, s, t, i, j);
    }
    assert StaysOpen(p, s, schedule) && AboutToProbe(Exec(p, s, schedule), id);
  }

  // ---------- The exact condition ----------

  lemma SafeAtOpening(p: RetryPolicy, s: System, t: real)
    requires IsOpen(s) && !s.breaker.disabled && s.breaker.openedAt == Some(t) && s.clock >= t
    ensures Safe(p, s, t) <==> !Endangered(p, s, t)
  {
    hide CountWithout;
    forall i: nat | i < |s.requests| && IsLate(s.requests[i], t) && CanHurry(p, s, t, i)
      ensures InTime(s, t, s.requests[i].at)
    {
      if !NewRequestInTime(s, t) {
        var j: nat :| CarriedInTime(s, t, s.requests[i].at, j);
      }
    }
  }

  /** In every state that any interleaving reaches with an enabled OPEN breaker: every probe waits until
      the timeout has passed since the stamp in force, exactly when no request in flight endangers that.
      A disabled breaker lets every request pass and promises no wait. */
  lemma CoolDownExact(p: RetryPolicy, b0: CircuitBreaker, clock: real, schedule: Schedule)
    requires p.maxRetries >= 0 && !b0.disabled
    requires b0.Configured() && b0 == Fresh(b0.threshold, b0.resetTimeout, b0.disabled)
    requires IsOpen(Exec(p, Initial(b0, clock), schedule))
    ensures var s := Exec(p, Initial(b0, clock), schedule);
            s.breaker.openedAt.Some? &&
            var t := s.breaker.openedAt.value;
            EveryProbeWaits(p, s, t) <==> !Endangered(p, s, t)
  {
    var s := Exec(p, Initial(b0, clock), schedule);
    RunKeepsInv(p, b0, clock, schedule);
    LogDeterminesBreaker(b0, s.log);
    var t := s.breaker.openedAt.value;
    hide Safe, Endangered, EveryProbeWaits;
    SafeAtOpening(p, s, t);
    if Endangered(p, s, t) { EndangeredBreaks(p, s, t); } else { SafeWaits(p, s, t); }
  }

  /** An opening from CLOSED fills the count and takes its stamp from the failure recorded. */
  lemma OpeningFillsCount(p: RetryPolicy, s: System, a: Action)
    requires s.breaker.state == Closed && IsOpen(Next(p, s, a))
    ensures a.RecordFailureStep? && a.id < |s.requests| && s.requests[a.id].Failing?
    ensures Next(p, s, a).breaker.openedAt == Some(s.requests[a.id].at)
    ensures Next(p, s, a).breaker.failureCount >= s.breaker.threshold
  {
  }

  lemma FullCountEndangers(p: RetryPolicy, s: System, t: real)
    requires s.breaker.failureCount >= s.breaker.threshold
    ensures Endangered(p, s, t) <==> !NoneInTime(s, t)
  {
    hide CountWithout;
    forall i: nat | i < |s.requests| && IsLate(s.requests[i], t)
      ensures CanHurry(p, s, t, i) <==> InTime(s, t, s.requests[i].at)
    {
      CountAtLeast(p, s, t, i, i);
      forall j: nat | CarriedInTime(s, t, s.requests[i].at, j)
        ensures CountWithout(p, s, t, i, j) > s.breaker.failureCount
      {
        CountAtLeast(p, s, t, i, j);
      }
    }
  }

  /** With a full count, as after every opening from CLOSED (`OpeningFillsCount`), the failures left do
      not matter; and as long as the timeout has not passed, the promise is kept exactly when no request
      in flight has read the clock before the opening for a failure it has not recorded. */
  lemma CoolDownAtFullCount(p: RetryPolicy, b0: CircuitBreaker, clock: real, schedule: Schedule)
    requires p.maxRetries >= 0 && !b0.disabled
    requires b0.Configured() && b0 == Fresh(b0.threshold, b0.resetTimeout, b0.disabled)
    requires var s := Exec(p, Initial(b0, clock), schedule);
             IsOpen(s) && s.breaker.failureCount >= s.breaker.threshold
    ensures var s := Exec(p, Initial(b0, clock), schedule);
            s.breaker.openedAt.Some? &&
            var t := s.breaker.openedAt.value;
            && (EveryProbeWaits(p, s, t) <==> NoneInTime(s, t))
            && (s.clock <= Limit(s, t) ==>
                  (EveryProbeWaits(p, s, t) <==> forall i :: 0 <= i < |s.requests| ==> !IsLate(s.requests[i], t)))
  {
    var s := Exec(p, Initial(b0, clock), schedule);
    CoolDownExact(p, b0, clock, schedule);
    hide EveryProbeWaits, Endangered, Exec;
    FullCountEndangers(p, s, s.breaker.openedAt.value);
  }
}
