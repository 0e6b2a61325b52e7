/**
  The token bucket of `RateLimiter` in `pkg/messaging/reliability.go` (the tenant bucket of
  `pkg/billing/limiter.go` computes the same). Tokens and seconds are reals; the time of a call
  is its parameter.

  A bucket remembers two numbers. The main theorem says what those numbers decide: a request is
  allowed exactly when allowing it keeps every window of past requests within its bound.
 */
module TokenBucket {

  datatype Limits = Limits(rate: real, size: real)

  datatype Bucket = Bucket(tokens: real, lastUpdate: real)

  function Least(x: real, y: real): real { if x < y then x else y }

  /** What comes in between two moments. */
  function Gain(l: Limits, from: real, to: real): real { (to - from) * l.rate }

  function Refilled(l: Limits, b: Bucket, now: real): real {
    Least(b.tokens + Gain(l, b.lastUpdate, now), l.size)
  }

  predicate Allows(l: Limits, b: Bucket, now: real) {
    Refilled(l, b, now) >= 1.0
  }

  function Next(l: Limits, b: Bucket, now: real): Bucket {
    Bucket(Refilled(l, b, now) - (if Allows(l, b, now) then 1.0 else 0.0), now)
  }

  // ----- Runs: a bucket created full, then one call at each time -----

  function After(l: Limits, created: real, times: seq<real>): Bucket {
    if times == [] then Bucket(l.size, created)
    else Next(l, After(l, created, times[..|times| - 1]), times[|times| - 1])
  }

  /** The tokens that the call `j` finds. */
  function Found(l: Limits, created: real, times: seq<real>, j: nat): real
    requires j < |times|
  {
    Refilled(l, After(l, created, times[..j]), times[j])
  }

  /** The tokens that the call `j` leaves. */
  function AfterCall(l: Limits, created: real, times: seq<real>, j: nat): real
    requires j < |times|
  {
    Found(l, created, times, j) - if Allowed(l, created, times, j) then 1.0 else 0.0
  }

  predicate Allowed(l: Limits, created: real, times: seq<real>, j: nat)
    requires j < |times|
  {
    Allows(l, After(l, created, times[..j]), times[j])
  }

  /** How many of the calls `i`, ..., `j - 1` were allowed. */
  function Count(l: Limits, created: real, times: seq<real>, i: nat, j: nat): nat
    requires i <= j <= |times|
    decreases j
  {
    if i == j then 0
    else Count(l, created, times, i, j - 1) + if Allowed(l, created, times, j - 1) then 1 else 0
  }

  /** Time does not run backwards, and the limits are not negative. */
  ghost predicate Run(l: Limits, created: real, times: seq<real>) {
    && l.rate >= 0.0 && l.size >= 0.0
    && (times != [] ==> created <= times[0])
    && (forall i, j :: 0 <= i <= j < |times| ==> times[i] <= times[j])
  }

  /** What a window from call `i` to call `j` may hold. */
  function Window(l: Limits, times: seq<real>, i: nat, j: nat): real
    requires i < |times| && j < |times|
  {
    l.size + Gain(l, times[i], times[j])
  }

  lemma NonNegative(x: real, y: real)
    requires x >= 0.0 && y >= 0.0
    ensures x * y >= 0.0
  {
  }

  lemma GainAdds(l: Limits, a: real, b: real, c: real)
    ensures Gain(l, a, c) == Gain(l, a, b) + Gain(l, b, c)
  {
  }

  lemma GainMonotone(l: Limits, a: real, b: real, c: real, d: real)
    requires l.rate >= 0.0 && a <= b <= c <= d
    ensures 0.0 <= Gain(l, b, c) <= Gain(l, a, d)
  {
    NonNegative(c - b, l.rate);
    NonNegative((d - a) - (c - b), l.rate);
  }

  lemma Step(l: Limits, created: real, times: seq<real>, j: nat)
    requires 0 < j < |times|
    ensures Found(l, created, times, j) == Least(AfterCall(l, created, times, j - 1) + Gain(l, times[j - 1], times[j]), l.size)
  {
    assert times[..j][..j - 1] == times[..j - 1];
  }

  lemma FirstFindsFull(l: Limits, created: real, times: seq<real>)
    requires Run(l, created, times) && times != []
    ensures Found(l, created, times, 0) == l.size
  {
    GainMonotone(l, created, created, times[0], times[0]);
  }

  lemma {:induction false} FoundInRange(l: Limits, created: real, times: seq<real>, j: nat)
    requires Run(l, created, times) && j < |times|
    ensures 0.0 <= Found(l, created, times, j) <= l.size
    decreases j
  {
    if j == 0 {
      FirstFindsFull(l, created, times);
    } else {
      FoundInRange(l, created, times, j - 1);
      Step(l, created, times, j);
      GainMonotone(l, times[j - 1], times[j - 1], times[j], times[j]);
    }
  }

  /** In every run the bucket holds between nothing and its size. */
  lemma TokensInRange(l: Limits, created: real, times: seq<real>)
    requires Run(l, created, times)
    ensures 0.0 <= After(l, created, times).tokens <= l.size
  {
    if times != [] {
      FoundInRange(l, created, times, |times| - 1);
    }
  }

  // ----- The tokens found are the tightest window -----

  lemma {:induction false} FoundWithinWindow(l: Limits, created: real, times: seq<real>, i: nat, j: nat)
    requires Run(l, created, times) && i <= j < |times|
    ensures Found(l, created, times, j) <= Window(l, times, i, j) - Count(l, created, times, i, j) as real
    decreases j
  {
    if i < j {
      FoundWithinWindow(l, created, times, i, j - 1);
      Step(l, created, times, j);
      GainAdds(l, times[i], times[j - 1], times[j]);
    }
  }

  lemma {:induction false} SomeWindowIsTight(l: Limits, created: real, times: seq<real>, j: nat) returns (i: nat)
    requires Run(l, created, times) && j < |times|
    ensures i <= j && Found(l, created, times, j) == Window(l, times, i, j) - Count(l, created, times, i, j) as real
    decreases j
  {
    if j == 0 {
      FirstFindsFull(l, created, times);
    }
    if Found(l, created, times, j) == l.size {
      i := j;
    } else {
      i := SomeWindowIsTight(l, created, times, j - 1);
      Step(l, created, times, j);
      GainAdds(l, times[i], times[j - 1], times[j]);
    }
  }

  /**
    The request `j` is allowed exactly when counting it keeps every window that ends with it,
    from whichever earlier request it starts, within `size + rate * length`.
   */
  lemma AllowedIff(l: Limits, created: real, times: seq<real>, j: nat)
    requires Run(l, created, times) && j < |times|
    ensures Allowed(l, created, times, j) <==>
            forall i: nat :: i <= j ==> Count(l, created, times, i, j) as real + 1.0 <= Window(l, times, i, j)
  {
    forall i: nat | i <= j
      ensures Found(l, created, times, j) <= Window(l, times, i, j) - Count(l, created, times, i, j) as real
    {
      FoundWithinWindow(l, created, times, i, j);
    }
    var tight := SomeWindowIsTight(l, created, times, j);
  }

  lemma CountWithinWindow(l: Limits, created: real, times: seq<real>, i: nat, j: nat)
    requires Run(l, created, times) && i <= j < |times|
    ensures Count(l, created, times, i, j + 1) as real <= Window(l, times, i, j)
  {
    FoundWithinWindow(l, created, times, i, j);
    FoundInRange(l, created, times, j);
  }

  /** In any stretch of time from `s` to `t`, at most `size + (t - s) * rate` requests are allowed. */
  lemma WindowBound(l: Limits, created: real, times: seq<real>, i: nat, j: nat, s: real, t: real)
    requires Run(l, created, times) && i <= j <= |times| && s <= t
    requires forall k :: i <= k < j ==> s <= times[k] <= t
    ensures Count(l, created, times, i, j) as real <= l.size + Gain(l, s, t)
  {
    if i < j {
      CountWithinWindow(l, created, times, i, j - 1);
      GainMonotone(l, s, times[i], times[j - 1], t);
    } else {
      GainMonotone(l, s, s, t, t);
    }
  }

  // ----- The object -----

  class RateLimiter {
    const rate: real
    const bucketSize: real
    var tokens: real
    var lastUpdate: real

    constructor (rate: real, bucketSize: real, now: real)
      ensures GetLimits() == Limits(rate, bucketSize) && View() == After(GetLimits(), now, [])
    {
      this.rate, this.bucketSize := rate, bucketSize;
      tokens, lastUpdate := bucketSize, now;
    }

    function GetLimits(): Limits { Limits(rate, bucketSize) }

    function View(): Bucket
      reads this
    {
      Bucket(tokens, lastUpdate)
    }

    method Allow(now: real) returns (ok: bool)
      modifies this
      ensures View() == Next(GetLimits(), old(View()), now)
      ensures ok == Allows(GetLimits(), old(View()), now)
    {
      var elapsed := now - lastUpdate;
      assert elapsed * rate == Gain(GetLimits(), lastUpdate, now);
      lastUpdate := now;
      tokens := tokens + elapsed * rate;
      tokens := if tokens < bucketSize then tokens else bucketSize;
      if tokens >= 1.0 {
        tokens := tokens - 1.0;
        return true;
      }
      return false;
    }
  }
}
