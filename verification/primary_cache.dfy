/** The TTL cache in front of the primary detector (litefs/usecases/cached_primary_detector.py). */
module PrimaryCache {
  import opened Reals
  import opened Wrappers

  /** What the wrapped detector does when it is asked. */
  datatype Answer = Value(primary: bool) | Raises

  datatype Cache = Cache(value: Option<bool>, time: Option<real>)

  /** One call: the clock reading it takes, the time at which the wrapped detector would answer, and
      that answer. */
  datatype Call = Call(now: real, at: real, answer: Answer)

  predicate Serves(c: Cache, ttl: real, now: real) {
    ttl > 0.0 && c.value.Some? && c.time.Some? && now - c.time.value < ttl
  }

  function Reply(c: Cache, ttl: real, call: Call): Answer {
    if Serves(c, ttl, call.now) then Value(c.value.value) else call.answer
  }

  function Next(c: Cache, ttl: real, call: Call): Cache {
    if ttl <= 0.0 || Serves(c, ttl, call.now) || call.answer.Raises? then c
    else Cache(Some(call.answer.primary), Some(call.now))
  }

  class CachedPrimaryDetector {
    const ttlSeconds: real
    var cachedValue: Option<bool>
    var cacheTime: Option<real>

    function Abstract(): Cache
      reads this
    {
      Cache(cachedValue, cacheTime)
    }

    constructor (ttlSeconds: real)
      ensures this.ttlSeconds == ttlSeconds && Abstract() == Cache(None, None)
    {
      this.ttlSeconds := ttlSeconds;
      cachedValue, cacheTime := None, None;
    }

    /** `call.now` is read from the monotonic clock, `call.answer` comes from the wrapped detector. */
    method IsPrimary(call: Call) returns (r: Answer)
      modifies this
      ensures r == Reply(old(Abstract()), ttlSeconds, call)
      ensures Abstract() == Next(old(Abstract()), ttlSeconds, call)
    {
      if ttlSeconds <= 0.0 {
        return call.answer;
      }
      var now := call.now;
      if cachedValue.Some? && cacheTime.Some? {
        if now - cacheTime.value < ttlSeconds {
          return Value(cachedValue.value);
        }
      }
      if call.answer.Raises? {
        return Raises;
      }
      cachedValue := Some(call.answer.primary);
      cacheTime := Some(now);
      return Value(call.answer.primary);
    }
  }

  // ---------- Runs ----------

  /** The cache before the i-th call. */
  function Before(ttl: real, calls: seq<Call>, i: nat): Cache
    requires i <= |calls|
  {
    if i == 0 then Cache(None, None) else Next(Before(ttl, calls, i - 1), ttl, calls[i - 1])
  }

  /** The i-th call asked the wrapped detector and got a value. */
  predicate Refreshes(ttl: real, calls: seq<Call>, i: nat)
    requires i < |calls|
  {
    !Serves(Before(ttl, calls, i), ttl, calls[i].now) && calls[i].answer.Value?
  }

  /** Calls one after another on a monotonic clock: each answer comes after its own reading and
      before the next call's. */
  ghost predicate Monotonic(calls: seq<Call>) {
    && (forall i :: 0 <= i < |calls| ==> calls[i].now <= calls[i].at)
    && (forall i, j :: 0 <= i < j < |calls| ==> calls[i].at <= calls[j].now)
  }

  function LastRefresh(ttl: real, calls: seq<Call>, i: nat): (r: Option<nat>)
    requires i <= |calls|
    ensures r.Some? ==> r.value < i && Refreshes(ttl, calls, r.value)
    ensures forall k :: (if r.Some? then r.value + 1 else 0) <= k < i ==> !Refreshes(ttl, calls, k)
  {
    if i == 0 then None
    else if Refreshes(ttl, calls, i - 1) then Some(i - 1)
    else LastRefresh(ttl, calls, i - 1)
  }

  /** The cache always holds the last refresh. */
  lemma {:induction false} CacheIsLastRefresh(ttl: real, calls: seq<Call>, i: nat)
    requires ttl > 0.0 && i <= |calls|
    ensures var j := LastRefresh(ttl, calls, i);
            Before(ttl, calls, i) ==
            if j.None? then Cache(None, None) else Cache(Some(calls[j.value].answer.primary), Some(calls[j.value].now))
  {
    if i > 0 {
      CacheIsLastRefresh(ttl, calls, i - 1);
    }
  }

  /** The i-th call finds no refresh before it that is less than ttl old. */
  ghost predicate NothingFresh(ttl: real, calls: seq<Call>, i: nat)
    requires i < |calls|
  {
    forall j :: 0 <= j < i && Refreshes(ttl, calls, j) ==> calls[i].now - calls[j].now >= ttl
  }

  /** What every call returns: its own answer, an exception included, when nothing fresh is cached, and
      the last refresh's answer otherwise; and it refreshes the cache exactly when it asked and got a value. */
  lemma RepliesExact(ttl: real, calls: seq<Call>, i: nat)
    requires ttl > 0.0 && Monotonic(calls) && i < |calls|
    ensures var r := Reply(Before(ttl, calls, i), ttl, calls[i]);
            && (NothingFresh(ttl, calls, i) ==> r == calls[i].answer)
            && (!NothingFresh(ttl, calls, i) ==>
                  exists j :: 0 <= j < i && Refreshes(ttl, calls, j) && r == calls[j].answer &&
                              forall k :: j < k < i ==> !Refreshes(ttl, calls, k))
    ensures Refreshes(ttl, calls, i) <==> NothingFresh(ttl, calls, i) && calls[i].answer.Value?
  {
    CacheIsLastRefresh(ttl, calls, i);
    var last := LastRefresh(ttl, calls, i);
    if last.Some? {
      var j := last.value;
      forall k | 0 <= k < i && Refreshes(ttl, calls, k) ensures calls[k].now <= calls[j].now { LaterNow(calls, k, j); }
    }
  }

  /** Without a positive ttl every call asks the wrapped detector and nothing is ever cached. */
  lemma {:induction false} NoCaching(ttl: real, calls: seq<Call>, i: nat)
    requires ttl <= 0.0 && i <= |calls|
    ensures Before(ttl, calls, i) == Cache(None, None)
    ensures i < |calls| ==> Reply(Before(ttl, calls, i), ttl, calls[i]) == calls[i].answer
  {
    if i > 0 { NoCaching(ttl, calls, i - 1); }
  }

  /** Bounded staleness: every value returned was given by the wrapped detector during this very call
      or less than ttl before its clock reading. */
  lemma BoundedStaleness(ttl: real, calls: seq<Call>, i: nat)
    requires ttl > 0.0 && Monotonic(calls) && i < |calls|
    ensures var r := Reply(Before(ttl, calls, i), ttl, calls[i]);
            r.Value? ==>
              exists j :: 0 <= j <= i && Refreshes(ttl, calls, j) && calls[j].answer == r
                          && (j < i ==> calls[j].at <= calls[i].now && calls[i].now - calls[j].at < ttl)
  {
    CacheIsLastRefresh(ttl, calls, i);
    if Serves(Before(ttl, calls, i), ttl, calls[i].now) {
      var j := LastRefresh(ttl, calls, i).value;
      assert calls[j].at <= calls[i].now && calls[j].now <= calls[j].at;
      assert Refreshes(ttl, calls, j);
    } else if calls[i].answer.Value? {
      assert Refreshes(ttl, calls, i);
    }
  }

  lemma LaterNow(calls: seq<Call>, i: nat, k: nat)
    requires Monotonic(calls) && i <= k < |calls|
    ensures calls[i].now <= calls[k].now
  {
  }

  /** Two refreshes start at least ttl apart, whatever failed in between. */
  lemma RefreshesApart(ttl: real, calls: seq<Call>, i: nat, j: nat)
    requires ttl > 0.0 && Monotonic(calls) && i < j < |calls|
    requires Refreshes(ttl, calls, i) && Refreshes(ttl, calls, j)
    ensures calls[j].now - calls[i].now >= ttl
  {
    CacheIsLastRefresh(ttl, calls, j);
    LaterNow(calls, i, LastRefresh(ttl, calls, j).value);
  }

  /** Refreshes among the calls lo .. hi. */
  function CountRefreshes(ttl: real, calls: seq<Call>, lo: nat, hi: nat): nat
    requires lo <= hi <= |calls|
    decreases hi - lo
  {
    if lo == hi then 0
    else CountRefreshes(ttl, calls, lo, hi - 1) + (if Refreshes(ttl, calls, hi - 1) then 1 else 0)
  }

  lemma {:induction false} RefreshSpan(ttl: real, calls: seq<Call>, lo: nat, hi: nat)
    requires ttl > 0.0 && Monotonic(calls) && lo < hi < |calls|
    requires Refreshes(ttl, calls, lo) && Refreshes(ttl, calls, hi)
    ensures Repeated(CountRefreshes(ttl, calls, lo + 1, hi + 1), ttl) <= calls[hi].now - calls[lo].now
    decreases hi - lo
  {
    var k := LastRefreshBefore(ttl, calls, lo, hi);
    RefreshesApart(ttl, calls, k, hi);
    if k > lo {
      RefreshSpan(ttl, calls, lo, k);
    }
  }

  lemma {:induction false} LastRefreshBefore(ttl: real, calls: seq<Call>, lo: nat, hi: nat) returns (k: nat)
    requires lo < hi < |calls| && Refreshes(ttl, calls, lo)
    ensures lo <= k < hi && Refreshes(ttl, calls, k)
    ensures CountRefreshes(ttl, calls, lo + 1, hi) == CountRefreshes(ttl, calls, lo + 1, k + 1)
    decreases hi
  {
    if lo == hi - 1 || Refreshes(ttl, calls, hi - 1) {
      k := hi - 1;
    } else {
      k := LastRefreshBefore(ttl, calls, lo, hi - 1);
    }
  }

  /** So N refreshes between two calls that both refresh, those two included, need (N - 1) * ttl of
      clock time. */
  lemma RefreshRate(ttl: real, calls: seq<Call>, lo: nat, hi: nat, n: nat)
    requires ttl > 0.0 && Monotonic(calls) && lo <= hi < |calls|
    requires Refreshes(ttl, calls, lo) && Refreshes(ttl, calls, hi)
    requires n == CountRefreshes(ttl, calls, lo, hi + 1)
    ensures n >= 1 && (n - 1) as real * ttl <= calls[hi].now - calls[lo].now
  {
    FirstCounts(ttl, calls, lo, hi + 1);
    if lo < hi { RefreshSpan(ttl, calls, lo, hi); }
    RepeatedIsProduct(n - 1, ttl);
  }

  lemma {:induction false} FirstCounts(ttl: real, calls: seq<Call>, lo: nat, hi: nat)
    requires lo < hi <= |calls| && Refreshes(ttl, calls, lo)
    ensures CountRefreshes(ttl, calls, lo, hi) == 1 + CountRefreshes(ttl, calls, lo + 1, hi)
    decreases hi
  {
    if hi > lo + 1 { FirstCounts(ttl, calls, lo, hi - 1); }
  }
}
