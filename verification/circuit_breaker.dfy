/** The circuit breaker that guards write forwarding (litefs/domain/circuit_breaker.py), and what
    a log of recorded outcomes says about it. */
module CircuitBreakers {
  import opened Wrappers

  datatype State = Closed | Open | HalfOpen

  datatype ConfigError = NonPositiveThreshold | NonPositiveResetTimeout

  /** A frozen value: every transition returns a new breaker. Times are in seconds. */
  datatype CircuitBreaker = CircuitBreaker(
    threshold: int,
    resetTimeout: real,
    failureCount: int,
    successCount: int,
    state: State,
    openedAt: Option<real>,
    disabled: bool)
  {
    predicate Configured() {
      threshold >= 1 && resetTimeout > 0.0
    }

    /** The timeout has passed since the breaker was last stamped. */
    predicate CooledDown(now: real) {
      openedAt.Some? && now > openedAt.value + resetTimeout
    }

    function RecordFailure(now: real): CircuitBreaker {
      var count := failureCount + 1;
      if state == HalfOpen then
        this.(failureCount := 1, successCount := 0, state := Open, openedAt := Some(now))
      else if count >= threshold then
        this.(failureCount := count, successCount := 0, state := Open, openedAt := Some(now))
      else
        this.(failureCount := count, successCount := 0)
    }

    function RecordSuccess(): CircuitBreaker {
      if state == HalfOpen then
        this.(failureCount := 0, successCount := 1, state := Closed, openedAt := None)
      else
        this.(failureCount := 0, successCount := successCount + 1)
    }

    predicate ShouldAllowRequest(now: real) {
      disabled || state == Closed || state == HalfOpen || CooledDown(now)
    }

    predicate IsHalfOpen(now: real) {
      state == HalfOpen || (state == Open && CooledDown(now))
    }

    function TransitionToHalfOpen(): CircuitBreaker {
      this.(state := HalfOpen)
    }

    /** The step a caller guards with `IsHalfOpen` and the OPEN state takes effect at `now`. */
    predicate ProbeDue(now: real) {
      IsHalfOpen(now) && state == Open
    }

    /** What every reachable breaker satisfies when the clock reads `now`. */
    ghost predicate Coherent(now: real) {
      && Configured()
      && failureCount >= 0 && successCount >= 0
      && !(failureCount > 0 && successCount > 0)
      && (state == Closed ==> openedAt.None? && failureCount < threshold)
      && (state != Closed ==> openedAt.Some? && openedAt.value <= now)
    }
  }

  /** Construction with the defaults; the two checks run in the source's order. */
  function Create(threshold: int, resetTimeout: real, disabled: bool): (r: Result<CircuitBreaker, ConfigError>)
    ensures r.Ok? <==> threshold >= 1 && resetTimeout > 0.0
    ensures r.Ok? ==> forall now :: r.value.Coherent(now)
    ensures r.Ok? ==> r.value == CircuitBreaker(threshold, resetTimeout, 0, 0, Closed, None, disabled)
    ensures r == Err(NonPositiveThreshold) <==> threshold < 1
  {
    if threshold < 1 then Err(NonPositiveThreshold)
    else if resetTimeout <= 0.0 then Err(NonPositiveResetTimeout)
    else Ok(Fresh(threshold, resetTimeout, disabled))
  }

  function Fresh(threshold: int, resetTimeout: real, disabled: bool): CircuitBreaker {
    CircuitBreaker(threshold, resetTimeout, 0, 0, Closed, None, disabled)
  }

  // ---------- Logs ----------

  /** What the middleware does to its breaker, in the order in which it takes the lock. */
  datatype Event = Failed(at: real) | Succeeded | Probed(at: real)

  datatype Log = Start | Then(before: Log, last: Event)

  function Concat(x: Log, y: Log): Log {
    match y
    case Start => x
    case Then(before, last) => Then(Concat(x, before), last)
  }

  function Apply(b: CircuitBreaker, e: Event): CircuitBreaker {
    match e
    case Failed(at) => b.RecordFailure(at)
    case Succeeded => b.RecordSuccess()
    case Probed(at) => b.TransitionToHalfOpen()
  }

  function Replay(b: CircuitBreaker, log: Log): CircuitBreaker {
    match log
    case Start => b
    case Then(before, last) => Apply(Replay(b, before), last)
  }

  /** Every probe in the log was due when it was taken. */
  predicate Legal(b: CircuitBreaker, log: Log) {
    match log
    case Start => true
    case Then(before, last) => Legal(b, before) && (last.Probed? ==> Replay(b, before).ProbeDue(last.at))
  }

  // ---------- The breaker without counters ----------

  predicate HasProbe(log: Log) {
    log.Then? && (log.last.Probed? || HasProbe(log.before))
  }

  /** The events after the last probe. */
  function Epoch(log: Log): Log {
    if log.Start? || log.last.Probed? then Start else Then(Epoch(log.before), log.last)
  }

  /** Length of the run of failures, or of successes, a log ends with. */
  function TrailingFailures(log: Log): nat {
    if log.Then? && log.last.Failed? then TrailingFailures(log.before) + 1 else 0
  }

  function TrailingSuccesses(log: Log): nat {
    if log.Then? && log.last.Succeeded? then TrailingSuccesses(log.before) + 1 else 0
  }

  /** Somewhere in the log n failures follow each other. */
  predicate HasFailureRun(log: Log, n: nat) {
    TrailingFailures(log) >= n || (log.Then? && HasFailureRun(log.before, n))
  }

  function First(log: Log): Event
    requires log.Then?
  {
    if log.before.Start? then log.last else First(log.before)
  }

  /** The last event opens, or re-stamps, the breaker: it is a failure that answers the probe, or
      at least the threshold-th failure in a row. */
  predicate StampsNow(threshold: int, probed: bool, epoch: Log)
    requires epoch.Then?
  {
    epoch.last.Failed? && ((probed && epoch.before.Start?) || TrailingFailures(epoch) >= threshold)
  }

  /** The time of the last stamping failure of an epoch. */
  function LastStamp(threshold: int, probed: bool, epoch: Log): Option<real> {
    if epoch.Start? then None
    else if StampsNow(threshold, probed, epoch) then Some(epoch.last.at)
    else LastStamp(threshold, probed, epoch.before)
  }

  /** HALF_OPEN right after a probe; otherwise OPEN exactly when some failure since the last probe
      stamped the breaker, and the counters are the trailing runs since that probe. */
  predicate Agrees(b0: CircuitBreaker, b: CircuitBreaker, probed: bool, epoch: Log) {
    && b == b0.(failureCount := b.failureCount, successCount := b.successCount, state := b.state, openedAt := b.openedAt)
    && (b.state == HalfOpen <==> probed && epoch.Start?)
    && (b.state == Closed <==> b.openedAt.None?)
    && (b.state != HalfOpen ==>
          && b.failureCount == TrailingFailures(epoch)
          && b.successCount == TrailingSuccesses(epoch)
          && b.openedAt == LastStamp(b0.threshold, probed, epoch))
  }

  /** The breaker is a function of the log that never mentions its counters. */
  lemma {:induction false} LogDeterminesBreaker(b0: CircuitBreaker, log: Log)
    requires b0.Configured() && b0 == Fresh(b0.threshold, b0.resetTimeout, b0.disabled)
    requires Legal(b0, log)
    ensures Agrees(b0, Replay(b0, log), HasProbe(log), Epoch(log))
  {
    if log.Then? {
      LogDeterminesBreaker(b0, log.before);
    }
  }

  lemma {:induction false} NeverStamped(threshold: nat, probed: bool, epoch: Log)
    requires threshold >= 1
    ensures LastStamp(threshold, probed, epoch).None? <==>
            !HasFailureRun(epoch, threshold) && !(probed && epoch.Then? && First(epoch).Failed?)
  {
    if epoch.Then? {
      NeverStamped(threshold, probed, epoch.before);
    }
  }

  lemma {:induction false} EpochFacts(log: Log)
    ensures TrailingFailures(Epoch(log)) == TrailingFailures(log)
    ensures HasProbe(log) && Epoch(log).Start? <==> log.Then? && log.last.Probed?
    ensures !HasProbe(log) ==> Epoch(log) == log
  {
    if log.Then? { EpochFacts(log.before); }
  }

  /** The documented state machine, read off the log alone. */
  lemma StateFromLog(b0: CircuitBreaker, log: Log)
    requires b0.Configured() && b0 == Fresh(b0.threshold, b0.resetTimeout, b0.disabled)
    requires Legal(b0, log)
    ensures Replay(b0, log).state == HalfOpen <==> log.Then? && log.last.Probed?
    ensures Replay(b0, log).state == Closed <==>
            && (HasProbe(log) ==> Epoch(log).Then? && First(Epoch(log)).Succeeded?)
            && !HasFailureRun(Epoch(log), b0.threshold)
  {
    LogDeterminesBreaker(b0, log);
    NeverStamped(b0.threshold, HasProbe(log), Epoch(log));
    EpochFacts(log);
    if Epoch(log).Then? { FirstIsNoProbe(log); }
  }

  lemma {:induction false} FirstIsNoProbe(log: Log)
    requires Epoch(log).Then?
    ensures !First(Epoch(log)).Probed?
  {
    if Epoch(log.before).Then? { FirstIsNoProbe(log.before); }
  }

  /** A probe keeps everything else: while it is undecided, stamp and counters are still those of the
      failures before it. */
  lemma ProbeKeepsStamp(b0: CircuitBreaker, log: Log, at: real)
    requires b0.Configured() && b0 == Fresh(b0.threshold, b0.resetTimeout, b0.disabled)
    requires Legal(b0, Then(log, Probed(at)))
    ensures Replay(b0, Then(log, Probed(at))) ==
            CircuitBreaker(b0.threshold, b0.resetTimeout, TrailingFailures(Epoch(log)), TrailingSuccesses(Epoch(log)), HalfOpen,
                           LastStamp(b0.threshold, HasProbe(log), Epoch(log)), b0.disabled)
  {
    LogDeterminesBreaker(b0, log);
  }

  /** When a request is let in: always past a disabled breaker or an undecided probe, otherwise when no
      failure has stamped the breaker since the last probe, or strictly later than the timeout after the
      last one that did. The half-open test differs only while CLOSED, and never asks `disabled`. */
  lemma AdmissionFromLog(b0: CircuitBreaker, log: Log, now: real)
    requires b0.Configured() && b0 == Fresh(b0.threshold, b0.resetTimeout, b0.disabled)
    requires Legal(b0, log)
    ensures var probing := log.Then? && log.last.Probed?;
            var stamp := LastStamp(b0.threshold, HasProbe(log), Epoch(log));
            && (Replay(b0, log).ShouldAllowRequest(now) <==>
                  b0.disabled || probing || stamp.None? || stamp.value + b0.resetTimeout < now)
            && (Replay(b0, log).IsHalfOpen(now) <==>
                  probing || (stamp.Some? && stamp.value + b0.resetTimeout < now))
  {
    LogDeterminesBreaker(b0, log);
    EpochFacts(log);
  }

  /** While CLOSED the failure count is the run of failures the log ends with, and one more
      failure opens the breaker exactly when it makes that run reach the threshold. */
  lemma OpensExactlyAtThreshold(b0: CircuitBreaker, log: Log, at: real)
    requires b0.Configured() && b0 == Fresh(b0.threshold, b0.resetTimeout, b0.disabled)
    requires Legal(b0, log) && Replay(b0, log).state == Closed
    ensures Replay(b0, log).failureCount == TrailingFailures(log) < b0.threshold
    ensures Replay(b0, Then(log, Failed(at))).state == Open <==> TrailingFailures(Then(log, Failed(at))) == b0.threshold
  {
    LogDeterminesBreaker(b0, log);
    EpochFacts(log);
    StateFromLog(b0, log);
  }

  // ---------- The cool-down ----------

  predicate NoProbe(log: Log) {
    log.Then? ==> !log.last.Probed? && NoProbe(log.before)
  }

  predicate NoFailureBefore(log: Log, t: real) {
    log.Then? ==> (log.last.Failed? ==> log.last.at >= t) && NoFailureBefore(log.before, t)
  }

  lemma {:induction false} StaysOpen(b0: CircuitBreaker, opening: Log, mid: Log, t: real)
    requires Replay(b0, opening).state == Open && NoProbe(mid) && NoFailureBefore(mid, t)
    requires Replay(b0, opening).openedAt.Some? && Replay(b0, opening).openedAt.value >= t
    ensures var b := Replay(b0, Concat(opening, mid));
            b.state == Open && b.openedAt.Some? && b.openedAt.value >= t && b.resetTimeout == Replay(b0, opening).resetTimeout
  {
    if mid.Then? {
      StaysOpen(b0, opening, mid.before, t);
    }
  }

  lemma {:induction false} TimeoutKept(b0: CircuitBreaker, log: Log)
    ensures Replay(b0, log).resetTimeout == b0.resetTimeout
  {
    if log.Then? { TimeoutKept(b0, log.before); }
  }

  lemma OpeningStamp(b0: CircuitBreaker, before: Log, t: real)
    requires Replay(b0, before).state != Open && Replay(b0, Then(before, Failed(t))).state == Open
    ensures Replay(b0, Then(before, Failed(t))).openedAt == Some(t)
    ensures Replay(b0, Then(before, Failed(t))).resetTimeout == b0.resetTimeout
  {
    TimeoutKept(b0, before);
  }

  /** When no failure recorded after an opening carries an earlier time, in particular whenever
      requests run one after another, the whole timeout separates the opening from the next probe. */
  lemma CoolDownHolds(b0: CircuitBreaker, before: Log, t: real, mid: Log, probe: real)
    requires Replay(b0, before).state != Open && Replay(b0, Then(before, Failed(t))).state == Open
    requires NoProbe(mid) && NoFailureBefore(mid, t)
    requires Legal(b0, Then(Concat(Then(before, Failed(t)), mid), Probed(probe)))
    ensures probe > t + b0.resetTimeout
  {
    hide Replay, Concat, NoProbe, NoFailureBefore;
    OpeningStamp(b0, before, t);
    StaysOpen(b0, Then(before, Failed(t)), mid, t);
  }

  lemma {:induction false} OpenUntilProbe(b0: CircuitBreaker, opening: Log, mid: Log)
    requires Replay(b0, opening).state == Open && NoProbe(mid)
    ensures Replay(b0, Concat(opening, mid)).state == Open
  {
    if mid.Then? { OpenUntilProbe(b0, opening, mid.before); }
  }

  /** In general the promise is kept after an opening exactly when the last failure that stamped the
      breaker since is not older: `_record_failure` reads the clock before it takes the lock, so a
      late writer can move the stamp back. Module CoolDown says in which systems one can. */
  lemma CoolDownExact(b0: CircuitBreaker, before: Log, t: real, mid: Log)
    requires b0.Configured() && b0 == Fresh(b0.threshold, b0.resetTimeout, b0.disabled)
    requires Replay(b0, before).state != Open && Replay(b0, Then(before, Failed(t))).state == Open
    requires Legal(b0, Concat(Then(before, Failed(t)), mid)) && NoProbe(mid)
    ensures var log := Concat(Then(before, Failed(t)), mid);
            var stamp := LastStamp(b0.threshold, HasProbe(log), Epoch(log));
            && stamp.Some?
            && ((forall probe :: Legal(b0, Then(log, Probed(probe))) ==> probe > t + b0.resetTimeout) <==> stamp.value >= t)
  {
    var log := Concat(Then(before, Failed(t)), mid);
    OpenUntilProbe(b0, Then(before, Failed(t)), mid);
    LogDeterminesBreaker(b0, log);
    var b := Replay(b0, log);
    if b.openedAt.value < t {
      assert Legal(b0, Then(log, Probed(t + b0.resetTimeout)));
    }
  }
}
