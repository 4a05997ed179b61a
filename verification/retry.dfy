/** The retry policy of write forwarding (litefs/domain/retry.py), with delays as real numbers. */
module Retry {
  import opened Reals
  import opened Wrappers

  /** What the forwarding port can raise. ConnectionError and TimeoutError are subclasses of
      OSError; `Foreign` stands for every exception outside that family. */
  datatype Error = ConnectionError | TimeoutError | OsError(errno: Option<int>) | Foreign

  const TRANSIENT_ERRNOS: set<int> := {104, 110, 111, 113, 115}

  datatype RetryConfigError = NegativeMaxRetries | NonPositiveBackoffBase | NonPositiveMaxBackoff

  datatype RetryPolicy = RetryPolicy(maxRetries: int, backoffBase: real, maxBackoff: real) {
    predicate Configured() {
      maxRetries >= 0 && backoffBase > 0.0 && maxBackoff > 0.0
    }

    function CalculateBackoff(attempt: nat): real {
      var delay := Uncapped(backoffBase, attempt);
      if delay <= maxBackoff then delay else maxBackoff
    }

    predicate ShouldRetry(attempt: nat) {
      attempt < maxRetries
    }

    predicate IsTransientError(error: Error) {
      match error
      case ConnectionError => true
      case TimeoutError => true
      case OsError(errno) => errno.Some? && errno.value in TRANSIENT_ERRNOS
      case Foreign => false
    }
  }

  function CreatePolicy(maxRetries: int, backoffBase: real, maxBackoff: real): (r: Result<RetryPolicy, RetryConfigError>)
    ensures r.Ok? <==> maxRetries >= 0 && backoffBase > 0.0 && maxBackoff > 0.0
    ensures r.Ok? ==> r.value.Configured() && r.value == RetryPolicy(maxRetries, backoffBase, maxBackoff)
    ensures r == Err(NegativeMaxRetries) <==> maxRetries < 0
    ensures r == Err(NonPositiveBackoffBase) <==> maxRetries >= 0 && backoffBase <= 0.0
  {
    if maxRetries < 0 then Err(NegativeMaxRetries)
    else if backoffBase <= 0.0 then Err(NonPositiveBackoffBase)
    else if maxBackoff <= 0.0 then Err(NonPositiveMaxBackoff)
    else Ok(RetryPolicy(maxRetries, backoffBase, maxBackoff))
  }

  function Pow2(n: nat): nat {
    if n == 0 then 1 else 2 * Pow2(n - 1)
  }

  /** base * 2^attempt, by doubling. */
  function Uncapped(base: real, attempt: nat): real {
    if attempt == 0 then base else 2.0 * Uncapped(base, attempt - 1)
  }

  lemma {:induction false} UncappedIsPower(base: real, attempt: nat)
    ensures Uncapped(base, attempt) == base * Pow2(attempt) as real
  {
    if attempt > 0 {
      UncappedIsPower(base, attempt - 1);
      var q := Pow2(attempt - 1);
      assert Pow2(attempt) as real == 2.0 * q as real;
      assert 2.0 * (base * q as real) == base * (2.0 * q as real);
    }
  }

  /** The sleeps of a request that retries `k` times. */
  function Delays(p: RetryPolicy, k: nat): seq<real> {
    if k == 0 then [] else Delays(p, k - 1) + [p.CalculateBackoff(k - 1)]
  }

  function Sum(s: seq<real>): real {
    if s == [] then 0.0 else Sum(s[..|s| - 1]) + s[|s| - 1]
  }

  /** The first attempt whose uncapped delay reaches the cap, or `k`. */
  function Crossover(p: RetryPolicy, k: nat): (c: nat)
    ensures c <= k
    ensures forall i: nat :: i < c ==> Uncapped(p.backoffBase, i) < p.maxBackoff
    ensures c < k ==> Uncapped(p.backoffBase, c) >= p.maxBackoff
  {
    if k == 0 then 0
    else
      var c := Crossover(p, k - 1);
      if c < k - 1 || Uncapped(p.backoffBase, k - 1) >= p.maxBackoff then c else k
  }

  lemma {:induction false} UncappedGrows(base: real, i: nat, j: nat)
    requires base > 0.0 && i <= j
    ensures 0.0 < Uncapped(base, i) <= Uncapped(base, j)
  {
    if i < j {
      UncappedGrows(base, i, j - 1);
    } else if i > 0 {
      UncappedGrows(base, i - 1, i - 1);
    }
  }

  lemma SumSnoc(s: seq<real>, x: real)
    ensures Sum(s + [x]) == Sum(s) + x
  {
  }

  /** No delay is capped before the crossover. */
  lemma {:induction false} DelayBeforeCrossover(p: RetryPolicy, k: nat)
    requires p.Configured() && Crossover(p, k) == k
    ensures Sum(Delays(p, k)) == Uncapped(p.backoffBase, k) - p.backoffBase
  {
    if k > 0 {
      DelayBeforeCrossover(p, k - 1);
      SumSnoc(Delays(p, k - 1), p.CalculateBackoff(k - 1));
    }
  }

  lemma {:induction false} TotalByDoubling(p: RetryPolicy, k: nat)
    requires p.Configured()
    ensures var c := Crossover(p, k);
            Sum(Delays(p, k)) == Uncapped(p.backoffBase, c) - p.backoffBase + Repeated(k - c, p.maxBackoff)
  {
    var c := Crossover(p, k);
    if c == k {
      DelayBeforeCrossover(p, k);
    } else {
      TotalByDoubling(p, k - 1);
      SumSnoc(Delays(p, k - 1), p.CalculateBackoff(k - 1));
      UncappedGrows(p.backoffBase, c, k - 1);
    }
  }

  lemma OneLess(base: real, power: int)
    ensures base * (power - 1) as real == base * power as real - base
  {
    assert (power - 1) as real == power as real - 1.0;
  }

  /** The total sleep of k retries: base * (2^c - 1) up to the crossover c, then k - c times the cap. */
  lemma TotalDelay(p: RetryPolicy, k: nat)
    requires p.Configured()
    ensures var c := Crossover(p, k);
            Sum(Delays(p, k)) == p.backoffBase * (Pow2(c) - 1) as real + (k - c) as real * p.maxBackoff
  {
    hide *;
    var c := Crossover(p, k);
    TotalByDoubling(p, k);
    UncappedIsPower(p.backoffBase, c);
    RepeatedIsProduct(k - c, p.maxBackoff);
    OneLess(p.backoffBase, Pow2(c));
  }

  lemma BackoffMonotone(p: RetryPolicy, i: nat, j: nat)
    requires p.Configured() && i <= j
    ensures 0.0 < p.CalculateBackoff(i) <= p.CalculateBackoff(j) <= p.maxBackoff
  {
    UncappedGrows(p.backoffBase, i, j);
  }

  lemma {:induction false} DelayAt(p: RetryPolicy, k: nat)
    ensures |Delays(p, k)| == k && forall i :: 0 <= i < k ==> Delays(p, k)[i] == p.CalculateBackoff(i)
  {
    if k > 0 { DelayAt(p, k - 1); }
  }

  /** Delays never shrink, are positive and stay under the cap. */
  lemma DelaysMonotone(p: RetryPolicy, k: nat)
    requires p.Configured()
    ensures |Delays(p, k)| == k
    ensures forall i, j :: 0 <= i <= j < k ==> 0.0 < Delays(p, k)[i] <= Delays(p, k)[j] <= p.maxBackoff
  {
    DelayAt(p, k);
    forall i, j | 0 <= i <= j < k
      ensures 0.0 < Delays(p, k)[i] <= Delays(p, k)[j] <= p.maxBackoff
    {
      BackoffMonotone(p, i, j);
    }
  }
}
