/** Retrying with exponential backoff. Durations are nanoseconds; the arithmetic that Go does in floating
    point is done over the reals here, with `b^n` for the exponential of `n` times the logarithm of `b`. */
module Retry {
  import opened Wrappers

  datatype Category = Temporary | Permanent | Authentication | Network | Timeout

  datatype Error = BreakerOpen | BreakerBusy | Categorized(category: Category)

  predicate ShouldRetry(e: Error) {
    e.BreakerOpen? || e.BreakerBusy? || !(e.category.Permanent? || e.category.Authentication?)
  }

  datatype RetryConfig = RetryConfig(maxAttempts: int, initialDelay: int, maxDelay: int, factor: real, jitter: bool)

  const MILLISECOND: int := 1_000_000
  const SECOND: int := 1000 * MILLISECOND
  // What an attempt rejected by the circuit breaker waits for at least.
  const BREAKER_WAIT: int := 150 * SECOND

  /** The parameters after RetryWithBackoff has repaired them. */
  function Repaired(c: RetryConfig): (r: RetryConfig)
    ensures r.maxAttempts >= 1 && 0 < r.initialDelay <= r.maxDelay && r.factor > 1.0 && r.jitter == c.jitter
    ensures c.maxAttempts >= 1 ==> r.maxAttempts == c.maxAttempts
    ensures c.initialDelay > 0 ==> r.initialDelay == c.initialDelay
    ensures c.maxDelay > 0 ==> r.maxDelay == if c.maxDelay >= r.initialDelay then c.maxDelay else r.initialDelay
    ensures c.factor > 1.0 ==> r.factor == c.factor
  {
    var initial := if c.initialDelay <= 0 then 100 * MILLISECOND else c.initialDelay;
    var max := if c.maxDelay <= 0 then 30 * SECOND else c.maxDelay;
    RetryConfig(if c.maxAttempts <= 0 then 1 else c.maxAttempts, initial, if max < initial then initial else max,
                if c.factor <= 1.0 then 2.0 else c.factor, c.jitter)
  }

  /** What is missing is one attempt, a tenth of a second, half a minute, and doubling; sound parameters stay. */
  lemma RepairedDefaults(c: RetryConfig)
    ensures c.maxAttempts <= 0 && c.initialDelay <= 0 && c.maxDelay <= 0 && c.factor <= 1.0 ==>
              Repaired(c) == RetryConfig(1, 100_000_000, 30_000_000_000, 2.0, c.jitter)
    ensures Repaired(c) == c <==> Sound(c)
    ensures Repaired(Repaired(c)) == Repaired(c)
  {
  }

  predicate Sound(c: RetryConfig) {
    c.maxAttempts >= 1 && 0 < c.initialDelay <= c.maxDelay && c.factor > 1.0
  }

  function Pow(b: real, n: nat): real {
    if n == 0 then 1.0 else b * Pow(b, n - 1)
  }

  /** The exponential delay under its cap. The source tests the exponent against the logarithm of the ratio
      of the two delays, which compares the power with the ratio. */
  function Capped(initial: real, max: real, power: real): real
    requires initial > 0.0
  {
    if power > max / initial then max
    else if initial * power > max then max
    else initial * power
  }

  /** Random jitter of up to a quarter, under the same cap. */
  function Jittered(delay: real, max: real, u: real): real {
    var j := delay + u * (delay * 0.25);
    if j > max then max else j
  }

  /** The delay before jitter. */
  function Backoff(c: RetryConfig, n: nat): real
    requires Sound(c)
  {
    Capped(c.initialDelay as real, c.maxDelay as real, Pow(c.factor, n))
  }

  /** calculateDelay, with `u` for the random number from [0, 1). */
  function CalculateDelay(c: RetryConfig, n: nat, u: real): int
    requires Sound(c)
  {
    if c.jitter then Jittered(Backoff(c, n), c.maxDelay as real, u).Floor else Backoff(c, n).Floor
  }

  /** How long RetryWithBackoff waits after attempt `n` failed with `e`. */
  function DelayAfter(c: RetryConfig, n: nat, u: real, e: Error): int
    requires Sound(c)
  {
    var delay := CalculateDelay(c, n, u);
    if (e.BreakerOpen? || e.BreakerBusy?) && delay < BREAKER_WAIT then BREAKER_WAIT else delay
  }

  // ---- The delays ------------------------------------------------------------------------------------

  function Min(a: real, b: real): real {
    if a < b then a else b
  }

  /** The smaller of InitialDelay times the power and MaxDelay. */
  function Exponential(c: RetryConfig, n: nat): real {
    var x := c.initialDelay as real * Pow(c.factor, n);
    Min(x, c.maxDelay as real)
  }

  lemma {:induction false} PowGrows(b: real, n: nat)
    requires b > 1.0
    ensures Pow(b, n) >= 1.0 && Pow(b, n + 1) >= Pow(b, n)
  {
    if n > 0 { PowGrows(b, n - 1); }
    assert Pow(b, n + 1) == b * Pow(b, n);
    MulGrows(b, Pow(b, n));
  }

  lemma MulGrows(b: real, x: real)
    requires b > 1.0 && x > 0.0
    ensures b * x >= x
  {
    assert (b - 1.0) * x >= 0.0;
  }

  lemma CappedIsMin(initial: real, max: real, power: real)
    requires initial > 0.0
    ensures Capped(initial, max, power) == Min(initial * power, max)
  {
    if power > max / initial {
      assert initial * (power - max / initial) > 0.0;
      assert initial * (power - max / initial) == initial * power - max;
    }
  }

  /** Both overflow tests together amount to a plain cap. */
  lemma BackoffIsCapped(c: RetryConfig, n: nat)
    requires Sound(c)
    ensures Backoff(c, n) == Exponential(c, n)
    ensures 0.0 < Backoff(c, n) <= c.maxDelay as real
  {
    var initial, power := c.initialDelay as real, Pow(c.factor, n);
    var x := initial * power;
    PowGrows(c.factor, n);
    CappedIs(initial, c.maxDelay as real, power, x);
    ScaleTo(initial, 1.0, power, initial, x);
  }

  lemma Scale(i: real, p: real, q: real)
    requires i >= 0.0 && p <= q
    ensures i * p <= i * q
  {
    assert i * (q - p) >= 0.0;
  }

  /** Delays never shrink from one attempt to the next. */
  lemma BackoffGrows(c: RetryConfig, n: nat)
    requires Sound(c)
    ensures Backoff(c, n) <= Backoff(c, n + 1)
  {
    PowGrows(c.factor, n);
    CappedGrows(c.initialDelay as real, c.maxDelay as real, Pow(c.factor, n), Pow(c.factor, n + 1));
  }

  lemma CappedGrows(initial: real, max: real, p: real, q: real)
    requires initial > 0.0 && p <= q
    ensures Capped(initial, max, p) <= Capped(initial, max, q)
  {
    var x, y := initial * p, initial * q;
    CappedIs(initial, max, p, x);
    CappedIs(initial, max, q, y);
    ScaleTo(initial, p, q, x, y);
    MinGrows(x, y, max);
  }

  lemma CappedIs(initial: real, max: real, power: real, x: real)
    requires initial > 0.0 && x == initial * power
    ensures Capped(initial, max, power) == Min(x, max)
  {
    CappedIsMin(initial, max, power);
  }

  lemma ScaleTo(i: real, p: real, q: real, x: real, y: real)
    requires i >= 0.0 && p <= q && x == i * p && y == i * q
    ensures x <= y
  {
    assert i * (q - p) >= 0.0;
  }

  lemma MinGrows(x: real, y: real, max: real)
    requires x <= y
    ensures Min(x, max) <= Min(y, max)
  {
  }

  lemma QuarterBounds(u: real, d: real)
    requires 0.0 <= u < 1.0 && d > 0.0
    ensures 0.0 <= u * (d * 0.25) <= 0.25 * d
  {
    assert (1.0 - u) * (d * 0.25) >= 0.0;
    assert u * (d * 0.25) >= 0.0;
  }

  lemma JitterIsMin(d: real, max: real, u: real, extra: real)
    requires extra == u * (d * 0.25)
    ensures Jittered(d, max, u) == Min(d + extra, max)
  {
  }

  lemma JitteredBounds(d: real, max: real, u: real)
    requires 0.0 <= u < 1.0 && 0.0 < d <= max
    ensures d <= Jittered(d, max, u) <= Min(1.25 * d, max)
  {
    QuarterBounds(u, d);
    var extra := u * (d * 0.25);
    JitterIsMin(d, max, u, extra);
  }

  /** Jitter adds at most a quarter and never passes the maximum; without it the delay is exact. */
  lemma JitterBounds(c: RetryConfig, n: nat, u: real)
    requires Sound(c) && 0.0 <= u < 1.0
    ensures var d := Backoff(c, n);
            && d.Floor <= CalculateDelay(c, n, u) <= Min(1.25 * d, c.maxDelay as real).Floor
            && (!c.jitter ==> CalculateDelay(c, n, u) == d.Floor)
  {
    BackoffIsCapped(c, n);
    JitterFloors(Backoff(c, n), c.maxDelay as real, u);
  }

  lemma JitterFloors(d: real, max: real, u: real)
    requires 0.0 <= u < 1.0 && 0.0 < d <= max
    ensures d.Floor <= Jittered(d, max, u).Floor <= Min(1.25 * d, max).Floor
    ensures d.Floor <= Min(1.25 * d, max).Floor
  {
    JitteredBounds(d, max, u);
    FloorMonotone(d, Jittered(d, max, u));
    FloorMonotone(Jittered(d, max, u), Min(1.25 * d, max));
  }

  lemma FloorMonotone(a: real, b: real)
    requires a <= b
    ensures a.Floor <= b.Floor
  {
  }

  ghost function SumDelays(delays: seq<int>): int {
    if delays == [] then 0 else SumDelays(delays[..|delays| - 1]) + delays[|delays| - 1]
  }

  ghost function Sum(xs: seq<real>): real {
    if xs == [] then 0.0 else Sum(xs[..|xs| - 1]) + xs[|xs| - 1]
  }

  ghost function Backoffs(c: RetryConfig, n: nat): seq<real>
    requires Sound(c)
  {
    seq(n, k requires 0 <= k => Backoff(c, k))
  }

  /** `i` times the `n`th power of `b`, by repeated multiplication. */
  function Scaled(i: real, b: real, n: nat): real {
    if n == 0 then i else b * Scaled(i, b, n - 1)
  }

  lemma {:induction false} ScaledIsPower(i: real, b: real, n: nat)
    ensures Scaled(i, b, n) == i * Pow(b, n)
  {
    if n > 0 {
      ScaledIsPower(i, b, n - 1);
      Associate(i, b, Pow(b, n - 1), Scaled(i, b, n - 1));
    }
  }

  lemma Associate(i: real, b: real, p: real, x: real)
    requires x == i * p
    ensures b * x == i * (b * p)
  {
  }

  ghost function Powers(i: real, b: real, n: nat): seq<real> {
    seq(n, k requires 0 <= k => Scaled(i, b, k))
  }

  lemma {:induction false} SumLe(xs: seq<real>, ys: seq<real>)
    requires |xs| == |ys| && forall k :: 0 <= k < |xs| ==> xs[k] <= ys[k]
    ensures Sum(xs) <= Sum(ys)
  {
    if xs != [] { SumLe(xs[..|xs| - 1], ys[..|ys| - 1]); }
  }

  lemma NextSum(i: real, b: real, s: real, sum: real)
    requires (b - 1.0) * sum == s - i
    ensures (b - 1.0) * (sum + s) == b * s - i
  {
    assert (b - 1.0) * (sum + s) == (b - 1.0) * sum + (b - 1.0) * s;
    assert (b - 1.0) * s == b * s - s;
  }

  /** The closed form of the geometric sum. */
  lemma {:induction false} GeometricSum(i: real, b: real, n: nat)
    ensures (b - 1.0) * Sum(Powers(i, b, n)) == Scaled(i, b, n) - i
  {
    if n == 0 {
      assert Sum(Powers(i, b, n)) == 0.0;
    } else {
      GeometricSum(i, b, n - 1);
      assert Powers(i, b, n)[..n - 1] == Powers(i, b, n - 1);
      assert Sum(Powers(i, b, n)) == Sum(Powers(i, b, n - 1)) + Scaled(i, b, n - 1);
      NextSum(i, b, Scaled(i, b, n - 1), Sum(Powers(i, b, n - 1)));
    }
  }

  /** The backoffs add up to at most a geometric sum. */
  lemma SumBackoffBound(c: RetryConfig, n: nat)
    requires Sound(c)
    ensures Sum(Backoffs(c, n)) <= Sum(Powers(c.initialDelay as real, c.factor, n))
  {
    forall k | 0 <= k < n ensures Backoffs(c, n)[k] <= Powers(c.initialDelay as real, c.factor, n)[k] {
      BackoffIsCapped(c, k);
      ScaledIsPower(c.initialDelay as real, c.factor, k);
    }
    SumLe(Backoffs(c, n), Powers(c.initialDelay as real, c.factor, n));
  }

  lemma {:induction false} SumOfFloors(delays: seq<int>, xs: seq<real>)
    requires |delays| == |xs| && forall k :: 0 <= k < |xs| ==> delays[k] as real <= 1.25 * xs[k]
    ensures SumDelays(delays) as real <= 1.25 * Sum(xs)
  {
    if xs != [] { SumOfFloors(delays[..|delays| - 1], xs[..|xs| - 1]); }
  }

  lemma {:induction false} SumOfCapped(delays: seq<int>, max: int)
    requires forall k :: 0 <= k < |delays| ==> delays[k] <= max
    ensures SumDelays(delays) <= |delays| * max
  {
    if delays != [] {
      SumOfCapped(delays[..|delays| - 1], max);
      assert |delays| * max == (|delays| - 1) * max + max;
    }
  }

  // ---- Every wait --------------------------------------------------------------------------------------

  function Shortest(c: RetryConfig, n: nat): int {
    Exponential(c, n).Floor
  }

  /** With a quarter more for jitter, if there is any. */
  function Longest(c: RetryConfig, n: nat): int {
    if c.jitter then Min(1.25 * Exponential(c, n), c.maxDelay as real).Floor else Shortest(c, n)
  }

  /** The wait after attempt `n` lies between the backoff and the backoff with jitter; after an error of the
      breaker it is prolonged to two and a half minutes if it is shorter. */
  predicate InBounds(c: RetryConfig, n: nat, e: Error, delay: int) {
    if e.Categorized? then Shortest(c, n) <= delay <= Longest(c, n)
    else BREAKER_WAIT <= delay && Shortest(c, n) <= delay && (delay > BREAKER_WAIT ==> delay <= Longest(c, n))
  }

  lemma WaitIsInBounds(c: RetryConfig, n: nat, u: real, e: Error)
    requires Sound(c) && 0.0 <= u < 1.0
    ensures InBounds(c, n, e, DelayAfter(c, n, u, e))
  {
    CalculatedIsInBounds(c, n, u);
  }

  lemma CalculatedIsInBounds(c: RetryConfig, n: nat, u: real)
    requires Sound(c) && 0.0 <= u < 1.0
    ensures Shortest(c, n) <= CalculateDelay(c, n, u) <= Longest(c, n)
  {
    var d := Backoff(c, n);
    ExponentialIs(c, n, d);
    BoundsOf(c, n, d);
    JitterBounds(c, n, u);
  }

  lemma ExponentialIs(c: RetryConfig, n: nat, d: real)
    requires Sound(c) && d == Backoff(c, n)
    ensures Exponential(c, n) == d
  {
    BackoffIsCapped(c, n);
  }

  lemma BoundsOf(c: RetryConfig, n: nat, d: real)
    requires Exponential(c, n) == d
    ensures Shortest(c, n) == d.Floor
    ensures Longest(c, n) == if c.jitter then Min(1.25 * d, c.maxDelay as real).Floor else d.Floor
  {
  }

  /** The jitter is exactly the random part of a quarter. */
  lemma JitterIsExact(c: RetryConfig, n: nat, u: real, e: Error)
    requires Sound(c) && 0.0 <= u < 1.0 && c.jitter && e.Categorized?
    ensures DelayAfter(c, n, u, e) == Min((1.0 + u / 4.0) * Exponential(c, n), c.maxDelay as real).Floor
  {
    var d := Backoff(c, n);
    ExponentialIs(c, n, d);
    JitterIsMin(d, c.maxDelay as real, u, u * (d * 0.25));
    Quarter(d, u);
  }

  lemma Quarter(d: real, u: real)
    ensures d + u * (d * 0.25) == (1.0 + u / 4.0) * d
  {
  }

  ghost predicate AreInBounds(c: RetryConfig, delays: seq<int>, fn: nat -> Option<Error>, u: nat -> real) {
    forall i :: 0 <= i < |delays| ==> fn(i).Some? && (0.0 <= u(i) < 1.0 ==> InBounds(c, i, fn(i).value, delays[i]))
  }

  lemma WaitsAreInBounds(c: RetryConfig, delays: seq<int>, fn: nat -> Option<Error>, u: nat -> real)
    requires Sound(c) && AreDelays(c, delays, fn, u)
    ensures AreInBounds(c, delays, fn, u)
  {
    forall i | 0 <= i < |delays| && 0.0 <= u(i) < 1.0 ensures InBounds(c, i, fn(i).value, delays[i]) {
      WaitIsInBounds(c, i, u(i), fn(i).value);
    }
  }

  // ---- The loop --------------------------------------------------------------------------------------

  /** What the context says around attempt `n`: whether it was cancelled before the wait, or during it. */
  datatype Context = Context(cancelled: bool, cancelledWhileWaiting: bool)

  datatype Result = Success | Failed(error: Error) | Cancelled

  /** The waits after the first `n` attempts. */
  ghost predicate AreDelays(c: RetryConfig, delays: seq<int>, fn: nat -> Option<Error>, u: nat -> real)
    requires Sound(c)
  {
    forall i :: 0 <= i < |delays| ==> fn(i).Some? && delays[i] == DelayAfter(c, i, u(i), fn(i).value)
  }

  method NextDelay(c: RetryConfig, attempt: nat, u: real, err: Error) returns (delay: int)
    requires Sound(c)
    ensures delay == DelayAfter(c, attempt, u, err)
  {
    delay := CalculateDelay(c, attempt, u);
    if err.BreakerOpen? || err.BreakerBusy? {
      var circuitBreakerWait := 120 * SECOND + 30 * SECOND;
      if delay < circuitBreakerWait { delay := circuitBreakerWait; }
    }
  }

  /** Attempt `i` fails in a way that is worth a retry, and nothing cancels the wait. */
  predicate GoesOn(fn: nat -> Option<Error>, ctx: nat -> Context, i: nat) {
    fn(i).Some? && ShouldRetry(fn(i).value) && !ctx(i).cancelled && !ctx(i).cancelledWhileWaiting
  }

  /** How the attempts from number `i` on end. */
  function Ending(c: RetryConfig, fn: nat -> Option<Error>, ctx: nat -> Context, i: nat): Result
    requires i < c.maxAttempts
    decreases c.maxAttempts - i
  {
    match fn(i)
    case None => Success
    case Some(e) =>
      if i == c.maxAttempts - 1 || !ShouldRetry(e) then Failed(e)
      else if ctx(i).cancelled || ctx(i).cancelledWhileWaiting then Cancelled
      else Ending(c, fn, ctx, i + 1)
  }

  /** The first `n` attempts went on, each followed by the wait in `delays`, and decided nothing. */
  ghost predicate Tried(c: RetryConfig, fn: nat -> Option<Error>, ctx: nat -> Context, u: nat -> real,
                        delays: seq<int>, n: nat)
    requires Sound(c)
  {
    && n == |delays| && n < c.maxAttempts && AreDelays(c, delays, fn, u)
    && (forall i :: 0 <= i < n ==> GoesOn(fn, ctx, i))
    && Ending(c, fn, ctx, 0) == Ending(c, fn, ctx, n)
  }

  lemma OneMoreDelay(c: RetryConfig, delays: seq<int>, fn: nat -> Option<Error>, u: nat -> real, delay: int)
    requires Sound(c) && AreDelays(c, delays, fn, u) && fn(|delays|).Some?
    requires delay == DelayAfter(c, |delays|, u(|delays|), fn(|delays|).value)
    ensures AreDelays(c, delays + [delay], fn, u)
  {
  }

  lemma TriedOnceMore(c: RetryConfig, fn: nat -> Option<Error>, ctx: nat -> Context, u: nat -> real,
                      delays: seq<int>, n: nat, delay: int)
    requires Sound(c) && Tried(c, fn, ctx, u, delays, n) && GoesOn(fn, ctx, n) && n + 1 < c.maxAttempts
    requires delay == DelayAfter(c, n, u(n), fn(n).value)
    ensures Tried(c, fn, ctx, u, delays + [delay], n + 1)
  {
    OneMoreDelay(c, delays, fn, u, delay);
  }

  predicate IsTransient(e: Error) {
    e in {BreakerOpen, BreakerBusy, Categorized(Temporary), Categorized(Network), Categorized(Timeout)}
  }

  /** Errors that can pass are overcome: the first call that ends otherwise decides, be it a success or an error
      that cannot pass, if it comes in time and nothing cancels the waits before it. */
  lemma {:induction false} FirstOtherDecides(c: RetryConfig, fn: nat -> Option<Error>, ctx: nat -> Context, i: nat,
                                             n: nat)
    requires i <= n < c.maxAttempts
    requires forall k :: i <= k < n ==>
               fn(k).Some? && IsTransient(fn(k).value) && !ctx(k).cancelled && !ctx(k).cancelledWhileWaiting
    requires fn(n).Some? ==> fn(n).value in {Categorized(Permanent), Categorized(Authentication)}
    ensures Ending(c, fn, ctx, i) == if fn(n) == None then Success else Failed(fn(n).value)
    decreases n - i
  {
    if i < n { FirstOtherDecides(c, fn, ctx, i + 1, n); }
  }

  /** And errors that never pass use up all attempts. */
  lemma {:induction false} AllTransientFails(c: RetryConfig, fn: nat -> Option<Error>, ctx: nat -> Context, i: nat)
    requires i < c.maxAttempts
    requires forall k :: i <= k < c.maxAttempts ==>
               fn(k).Some? && IsTransient(fn(k).value) && !ctx(k).cancelled && !ctx(k).cancelledWhileWaiting
    ensures Ending(c, fn, ctx, i) == Failed(fn(c.maxAttempts - 1).value)
    decreases c.maxAttempts - i
  {
    if i < c.maxAttempts - 1 { AllTransientFails(c, fn, ctx, i + 1); }
  }

  lemma {:induction false} NoSuccessWithoutOne(c: RetryConfig, fn: nat -> Option<Error>, ctx: nat -> Context, i: nat)
    requires i < c.maxAttempts && forall n :: fn(n).Some?
    ensures Ending(c, fn, ctx, i) != Success
    decreases c.maxAttempts - i
  {
    assert fn(i).Some?;
    if i < c.maxAttempts - 1 { NoSuccessWithoutOne(c, fn, ctx, i + 1); }
  }

  /** Runs `fn(0)`, `fn(1)`, ... until one succeeds, an error is not worth retrying, the context is
      cancelled, or the attempts are used up. */
  method RetryWithBackoff(config: RetryConfig, fn: nat -> Option<Error>, ctx: nat -> Context, u: nat -> real)
    returns (r: Result, calls: nat, delays: seq<int>)
    ensures 1 <= calls <= (if config.maxAttempts < 1 then 1 else config.maxAttempts)
    ensures r == Success <==> fn(calls - 1) == None
    ensures forall i :: 0 <= i < calls - 1 ==> GoesOn(fn, ctx, i)
    ensures r == Ending(Repaired(config), fn, ctx, 0)
    ensures r.Failed? ==> fn(calls - 1) == Some(r.error)
                          && (calls == Repaired(config).maxAttempts || !ShouldRetry(r.error))
    ensures r == Cancelled ==> ctx(calls - 1).cancelled || ctx(calls - 1).cancelledWhileWaiting
    ensures AreDelays(Repaired(config), delays, fn, u) && calls - 1 <= |delays| <= calls
    ensures AreInBounds(Repaired(config), delays, fn, u)
    ensures |delays| == calls ==> r == Cancelled && ctx(calls - 1).cancelledWhileWaiting
  {
    var c := config;
    if c.maxAttempts <= 0 { c := c.(maxAttempts := 1); }
    if c.initialDelay <= 0 { c := c.(initialDelay := 100 * MILLISECOND); }
    if c.maxDelay <= 0 { c := c.(maxDelay := 30 * SECOND); }
    if c.factor <= 1.0 { c := c.(factor := 2.0); }
    if c.maxDelay < c.initialDelay { c := c.(maxDelay := c.initialDelay); }
    assert c == Repaired(config);
    var lastErr: Option<Error> := None;
    calls, delays := 0, [];
    var attempt := 0;
    while attempt < c.maxAttempts
      invariant calls == attempt && Tried(c, fn, ctx, u, delays, attempt) && AreInBounds(c, delays, fn, u)
    {
      var err := fn(attempt);
      calls := calls + 1;
      if err == None { return Success, calls, delays; }
      lastErr := err;
      if attempt == c.maxAttempts - 1 { break; }
      if !ShouldRetry(err.value) { return Failed(err.value), calls, delays; }
      if ctx(attempt).cancelled { return Cancelled, calls, delays; }
      var delay := NextDelay(c, attempt, u(attempt), err.value);
      OneMoreDelay(c, delays, fn, u, delay);
      WaitsAreInBounds(c, delays + [delay], fn, u);
      if !ctx(attempt).cancelledWhileWaiting { TriedOnceMore(c, fn, ctx, u, delays, attempt, delay); }
      delays := delays + [delay];
      if ctx(attempt).cancelledWhileWaiting { return Cancelled, calls, delays; }
      attempt := attempt + 1;
    }
    r := Failed(lastErr.value);
  }

  /** So the whole waiting of a call that meets no breaker error is bounded: by five quarters of the
      backoffs, hence of their geometric sum, and by the maximum delay per wait. */
  lemma WaitingIsBounded(c: RetryConfig, delays: seq<int>, fn: nat -> Option<Error>, u: nat -> real)
    requires Sound(c) && AreDelays(c, delays, fn, u)
    requires forall i :: 0 <= i < |delays| ==> fn(i).value.Categorized? && 0.0 <= u(i) < 1.0
    ensures SumDelays(delays) as real <= 1.25 * Sum(Backoffs(c, |delays|))
    ensures SumDelays(delays) <= |delays| * c.maxDelay
  {
    forall i | 0 <= i < |delays|
      ensures delays[i] as real <= 1.25 * Backoffs(c, |delays|)[i] && delays[i] <= c.maxDelay
    {
      PlainWait(c, i, u(i), fn(i).value);
    }
    SumOfFloors(delays, Backoffs(c, |delays|));
    SumOfCapped(delays, c.maxDelay);
  }

  lemma PlainWait(c: RetryConfig, n: nat, u: real, e: Error)
    requires Sound(c) && e.Categorized? && 0.0 <= u < 1.0
    ensures DelayAfter(c, n, u, e) as real <= 1.25 * Backoff(c, n) && DelayAfter(c, n, u, e) <= c.maxDelay
  {
    JitterBounds(c, n, u);
    FloorBelow(Min(1.25 * Backoff(c, n), c.maxDelay as real), CalculateDelay(c, n, u));
  }

  lemma FloorBelow(x: real, k: int)
    requires k <= x.Floor
    ensures k as real <= x
  {
  }

  /** And it is never shorter, whatever the errors: the waits add up to the backoffs, but for fractions of a
      nanosecond, and to the initial delay each. */
  lemma WaitingIsLong(c: RetryConfig, delays: seq<int>, fn: nat -> Option<Error>, u: nat -> real)
    requires Sound(c) && AreDelays(c, delays, fn, u) && forall i :: 0 <= i < |delays| ==> 0.0 <= u(i) < 1.0
    ensures SumDelays(delays) as real >= Sum(Backoffs(c, |delays|)) - |delays| as real
    ensures SumDelays(delays) >= |delays| * c.initialDelay
  {
    forall i | 0 <= i < |delays|
      ensures delays[i] as real >= Backoffs(c, |delays|)[i] - 1.0 && delays[i] >= c.initialDelay
    {
      WaitIsLong(c, i, u(i), fn(i).value);
    }
    SumAbove(delays, Backoffs(c, |delays|));
    SumAtLeast(delays, c.initialDelay);
  }

  lemma WaitIsLong(c: RetryConfig, n: nat, u: real, e: Error)
    requires Sound(c) && 0.0 <= u < 1.0
    ensures DelayAfter(c, n, u, e) as real >= Backoff(c, n) - 1.0 && DelayAfter(c, n, u, e) >= c.initialDelay
  {
    JitterBounds(c, n, u);
    BackoffIsLong(c, n);
    FloorsAbove(Backoff(c, n), c.initialDelay, CalculateDelay(c, n, u));
  }

  lemma BackoffIsLong(c: RetryConfig, n: nat)
    requires Sound(c)
    ensures Backoff(c, n) >= c.initialDelay as real
  {
    PowGrows(c.factor, n);
    CappedIsMin(c.initialDelay as real, c.maxDelay as real, Pow(c.factor, n));
    Scale(c.initialDelay as real, 1.0, Pow(c.factor, n));
  }

  lemma FloorsAbove(d: real, low: int, k: int)
    requires d >= low as real && k >= d.Floor
    ensures k >= low && k as real >= d - 1.0
  {
  }

  lemma {:induction false} SumAbove(delays: seq<int>, xs: seq<real>)
    requires |delays| == |xs| && forall k :: 0 <= k < |xs| ==> delays[k] as real >= xs[k] - 1.0
    ensures SumDelays(delays) as real >= Sum(xs) - |xs| as real
  {
    if xs != [] { SumAbove(delays[..|delays| - 1], xs[..|xs| - 1]); }
  }

  lemma {:induction false} SumAtLeast(delays: seq<int>, min: int)
    requires forall k :: 0 <= k < |delays| ==> delays[k] >= min
    ensures SumDelays(delays) >= |delays| * min
  {
    if delays != [] {
      SumAtLeast(delays[..|delays| - 1], min);
      assert |delays| * min == (|delays| - 1) * min + min;
    }
  }

  /** After a breaker error the wait is longer than the breaker's timeout of two minutes. */
  lemma BreakerErrorsWait(c: RetryConfig, n: nat, u: real, e: Error)
    requires Sound(c) && (e.BreakerOpen? || e.BreakerBusy?)
    ensures DelayAfter(c, n, u, e) >= 150 * SECOND > 120 * SECOND
  {
  }
}
