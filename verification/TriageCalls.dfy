// One finding's provider calls (the retry loop with its backoff) and the token bucket that
// spaces the calls of all findings.
module TriageCalls {
  import opened TriageBatch

  /** What meets one attempt: the open breaker, an answer, a 429, or any other error. */
  datatype Attempt = Refused | Replied | Throttled | Broke

  predicate Retryable(a: Attempt) {
    a.Throttled? || a.Broke?
  }

  function Power2(k: nat): real {
    if k == 0 then 1.0 else 2.0 * Power2(k - 1)
  }

  function Least(a: real, b: real): real {
    if a < b then a else b
  }

  /** The sleep before retry number `retry`: ten seconds doubling after a 429, the base delay
      doubling after anything else, never more than a minute. */
  function BackoffDelay(a: Attempt, base: real, retry: nat): real
    requires retry > 0
  {
    Least((if a.Throttled? then 10.0 else base) * Power2(retry - 1), 60.0)
  }

  /** The first retry after a 429 waits ten seconds, after anything else the base delay, every
      further one twice as long as the one before, and none more than a minute. */
  lemma BackoffDoubles(a: Attempt, base: real, retry: nat)
    requires retry > 0 && base >= 0.0
    ensures BackoffDelay(Throttled, base, 1) == 10.0
    ensures BackoffDelay(Broke, base, 1) == if base < 60.0 then base else 60.0
    ensures Retryable(a) ==>
              var twice := 2.0 * BackoffDelay(a, base, retry);
              BackoffDelay(a, base, retry + 1) == if twice < 60.0 then twice else 60.0
  {
    var first := if a.Throttled? then 10.0 else base;
    assert Power2(0) == 1.0 && base * 1.0 == base;
    assert first * Power2(retry) == 2.0 * (first * Power2(retry - 1)) by {
      TwiceAsLong(first, Power2(retry - 1));
    }
    CapDoubles(first * Power2(retry - 1));
  }

  lemma TwiceAsLong(first: real, power: real)
    ensures first * (2.0 * power) == 2.0 * (first * power)
  {}

  lemma CapDoubles(x: real)
    ensures Least(2.0 * x, 60.0) == Least(2.0 * Least(x, 60.0), 60.0)
  {}

  /** The sleeps before the first `n` retries. */
  function TotalDelay(attempts: seq<Attempt>, base: real, n: nat): (total: real)
    requires n <= |attempts|
    ensures total <= 60.0 * n as real
  {
    if n == 0 then 0.0 else TotalDelay(attempts, base, n - 1) + BackoffDelay(attempts[n-1], base, n)
  }

  /** The retry loop of one finding, given what each attempt would meet. */
  method ProcessSingle(c: Config, base: real, attempts: seq<Attempt>) returns (result: Result, calls: nat, slept: real)
    requires |attempts| == c.maxRetries + 1
    ensures match result
      case Answered(r) => r <= c.maxRetries && attempts[r].Replied? && calls == r + 1
      case CircuitOpen(r) => r <= c.maxRetries && attempts[r].Refused? && calls == r
      case Exhausted(r) => r == c.maxRetries + 1 && calls == r
    ensures forall k :: 0 <= k < result.retries ==> attempts[k] == Throttled || attempts[k] == Broke
    ensures CallsMatch(c, Done(result), calls)
    ensures slept == TotalDelay(attempts, base, if result.retries <= c.maxRetries then result.retries else c.maxRetries)
    ensures slept <= 60.0 * c.maxRetries as real
  {
    var retries := 0;
    calls, slept := 0, 0.0;
    while retries <= c.maxRetries
      invariant retries <= c.maxRetries && calls == retries
      invariant forall k :: 0 <= k < retries ==> attempts[k] == Throttled || attempts[k] == Broke
      invariant slept == TotalDelay(attempts, base, retries)
      decreases c.maxRetries - retries
    {
      var met := attempts[retries];
      if met.Refused? {
        return CircuitOpen(retries), calls, slept;
      }
      calls := calls + 1;
      if met.Replied? {
        return Answered(retries), calls, slept;
      }
      retries := retries + 1;
      if retries > c.maxRetries {
        return Exhausted(retries), calls, slept;
      }
      slept := slept + BackoffDelay(met, base, retries);
    }
  }

  // ---------- The rate limiter ----------

  /** Grants at least `interval` apart. */
  ghost predicate Spaced(grants: seq<real>, interval: real) {
    forall k :: 0 <= k < |grants| - 1 ==> grants[k+1] - grants[k] >= interval
  }

  function Rate(rpm: int): nat {
    if rpm < 1 then 1 else rpm
  }

  function Interval(rpm: int): real {
    60.0 / Rate(rpm) as real
  }

  /** The limiter; `grants` logs when its lock was given back with a token. */
  class TokenBucket {
    const interval: real
    var lastTime: real
    ghost var grants: seq<real>

    ghost predicate Valid()
      reads this
    {
      && interval > 0.0
      && Spaced(grants, interval)
      && (grants != [] ==> lastTime == grants[|grants|-1])
    }

    constructor (rpm: int)
      ensures Valid() && interval == Interval(rpm) && grants == []
    {
      interval := 60.0 / Rate(rpm) as real;
      lastTime := 0.0;
      grants := [];
    }

    /** One caller under the lock. The clock reads `now` on entry and a sleep may end `late`;
        the monotonic clock never runs behind the last grant. */
    method Acquire(now: real, late: real) returns (at: real)
      requires Valid() && late >= 0.0 && (grants != [] ==> now >= lastTime)
      modifies this
      ensures Valid() && grants == old(grants) + [at] && lastTime == at
      ensures at >= now && at - old(lastTime) >= interval
      ensures at - late == if now - old(lastTime) >= interval then now else old(lastTime) + interval
    {
      var wait := interval - (now - lastTime);
      at := now + late;
      if wait > 0.0 {
        at := at + wait;
      }
      lastTime := at;
      grants := grants + [at];
    }

    /** Any schedule of callers, each arriving when the clock has reached the last grant. */
    method Serve(delays: seq<(real, real)>)
      requires Valid() && grants == []
      requires forall k :: 0 <= k < |delays| ==> delays[k].0 >= 0.0 && delays[k].1 >= 0.0
      modifies this
      ensures Valid() && |grants| == |delays|
    {
      for k := 0 to |delays|
        invariant Valid() && |grants| == k
      {
        var _ := Acquire(lastTime + delays[k].0, delays[k].1);
      }
    }
  }

  function GrantsIn(grants: seq<real>, from: real): nat {
    if grants == [] then 0
    else GrantsIn(grants[..|grants|-1], from) + if from <= grants[|grants|-1] < from + 60.0 then 1 else 0
  }

  lemma {:induction false} SpacedGrows(grants: seq<real>, interval: real, i: nat, j: nat)
    requires Spaced(grants, interval) && interval > 0.0 && i < j < |grants|
    ensures grants[j] - grants[i] >= interval
    decreases j
  {
    if i < j - 1 {
      SpacedGrows(grants, interval, i, j - 1);
    }
  }

  /** `n` intervals end to end. */
  function Spans(interval: real, n: nat): real {
    if n == 0 then 0.0 else Spans(interval, n - 1) + interval
  }

  lemma {:induction false} SpansIsProduct(interval: real, n: nat)
    ensures Spans(interval, n) == n as real * interval
  {
    if n > 0 {
      SpansIsProduct(interval, n - 1);
      Distribute((n - 1) as real, interval);
    }
  }

  lemma Distribute(a: real, f: real)
    ensures (a + 1.0) * f == a * f + f
  {}

  lemma {:induction false} SpansIsMonotone(interval: real, m: nat, n: nat)
    requires interval > 0.0 && m <= n
    ensures Spans(interval, m) <= Spans(interval, n)
    ensures m < n ==> Spans(interval, m) < Spans(interval, n)
  {
    if m < n {
      SpansIsMonotone(interval, m, n - 1);
    }
  }

  /** A minute is exactly `Rate(rpm)` intervals long. */
  lemma MinuteIsFull(rpm: int)
    ensures Interval(rpm) > 0.0 && Spans(Interval(rpm), Rate(rpm)) == 60.0
  {
    SpansIsProduct(Interval(rpm), Rate(rpm));
  }

  lemma SpacedPrefix(grants: seq<real>, interval: real, n: nat)
    requires Spaced(grants, interval) && n <= |grants|
    ensures Spaced(grants[..n], interval)
  {}

  /** With k > 0 grants in the window, the last of them is at least k - 1 intervals into it. */
  lemma {:induction false} WindowFillsUp(grants: seq<real>, interval: real, from: real) returns (last: nat)
    requires Spaced(grants, interval) && interval > 0.0 && GrantsIn(grants, from) > 0
    ensures last < |grants| && from <= grants[last] < from + 60.0
    ensures grants[last] >= from + Spans(interval, GrantsIn(grants, from) - 1)
    decreases |grants|
  {
    var n := |grants| - 1;
    SpacedPrefix(grants, interval, n);
    if GrantsIn(grants[..n], from) == 0 {
      last := n;
    } else {
      last := WindowFillsUp(grants[..n], interval, from);
      if from <= grants[n] < from + 60.0 {
        SpacedGrows(grants, interval, last, n);
        last := n;
      }
    }
  }

  /** Whatever the callers do, no half-open minute holds more than max(rpm, 1) grants. */
  lemma RateBound(grants: seq<real>, rpm: int, from: real)
    requires Spaced(grants, Interval(rpm))
    ensures GrantsIn(grants, from) <= if rpm < 1 then 1 else rpm
  {
    MinuteIsFull(rpm);
    if GrantsIn(grants, from) > Rate(rpm) {
      var last := WindowFillsUp(grants, Interval(rpm), from);
      SpansIsMonotone(Interval(rpm), Rate(rpm), GrantsIn(grants, from) - 1);
    }
  }

  /** Grants exactly one interval apart. */
  function Evenly(interval: real, n: nat): seq<real> {
    if n == 0 then [] else Evenly(interval, n - 1) + [Spans(interval, n - 1)]
  }

  lemma {:induction false} EvenlyAt(interval: real, n: nat)
    ensures |Evenly(interval, n)| == n && forall k :: 0 <= k < n ==> Evenly(interval, n)[k] == Spans(interval, k)
  {
    if n > 0 {
      EvenlyAt(interval, n - 1);
    }
  }

  /** The bound is attained: a limiter that is always busy fills the minute. */
  lemma {:induction false} RateBoundIsTight(rpm: int, n: nat)
    requires n <= if rpm < 1 then 1 else rpm
    ensures Spaced(Evenly(Interval(rpm), n), Interval(rpm)) && GrantsIn(Evenly(Interval(rpm), n), 0.0) == n
    decreases n
  {
    var interval := Interval(rpm);
    EvenlyAt(interval, n);
    forall k | 0 <= k < n - 1 ensures Evenly(interval, n)[k+1] - Evenly(interval, n)[k] >= interval {
      assert Spans(interval, k + 1) == Spans(interval, k) + interval;
    }
    if n > 0 {
      MinuteIsFull(rpm);
      RateBoundIsTight(rpm, n - 1);
      assert Evenly(interval, n)[..n-1] == Evenly(interval, n - 1);
      SpansIsMonotone(interval, 0, n - 1);
      SpansIsMonotone(interval, n - 1, Rate(rpm));
    }
  }
}
