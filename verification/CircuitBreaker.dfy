/** The circuit breaker object, the calls one caller makes through it, and what retrying does to it. */
module CircuitBreaking {
  import opened Breaker
  import opened Wrappers
  import Retry

  /** What checkStateAndIncrement answers: an error, or permission with the duty to decrement. */
  datatype Decision = Admitted(counted: bool) | Rejected(outcome: Outcome)

  function CountIn(cfg: Config, cb: Cb): (Cb, Decision) {
    if cb.halfOpen + 1 > cfg.maxHalfOpen then (cb, Rejected(RejectedBusy))
    else (cb.(halfOpen := cb.halfOpen + 1), Admitted(true))
  }

  /** checkStateAndIncrement run without interruption, reading the clock at `t1` and again at `t2`. */
  function Check(cfg: Config, cb: Cb, t1: int, t2: int): (Cb, Decision) {
    match cb.mode
    case Closed => (cb, Admitted(false))
    case HalfOpen => CountIn(cfg, cb)
    case Open =>
      if !Elapsed(cfg, cb, t1) then (cb, Rejected(RejectedOpen))
      else
        var p := Promoted(cfg, cb, t2);
        if p.mode == Open then (p, Rejected(RejectedOpen)) else CountIn(cfg, p)
  }

  /** One whole Execute, of a function that ends with `ok`; `t3` is when its result is recorded. */
  function Call(cfg: Config, cb: Cb, ok: bool, t1: int, t2: int, t3: int): (Cb, Outcome) {
    var (c, d) := Check(cfg, cb, t1, t2);
    if d.Rejected? then (c, d.outcome)
    else
      var r := Recorded(cfg, c, ok, t3);
      (if d.counted then r.(halfOpen := r.halfOpen - 1) else r, Ran(ok))
  }

  class CircuitBreaker {
    const maxFailures: int
    const timeout: int
    const maxHalfOpenRequests: int := 1
    var failures: int
    var lastFailureTime: int
    var state: Mode
    var halfOpenRequests: int

    constructor (maxFailures: int, timeout: int)
      ensures this.maxFailures == maxFailures && this.timeout == timeout && View() == NEW
    {
      this.maxFailures, this.timeout := maxFailures, timeout;
      failures, lastFailureTime, state, halfOpenRequests := 0, 0, Closed, 0;
    }

    /** NewCircuitBreaker refuses parameters that are not positive. */
    static method New(maxFailures: int, timeout: int) returns (cb: CircuitBreaker?)
      ensures cb == null <==> maxFailures <= 0 || timeout <= 0
      ensures cb != null ==>
          fresh(cb) && cb.View() == NEW && cb.Cfg() == Config(maxFailures, timeout, 1) && ValidConfig(cb.Cfg())
    {
      if maxFailures <= 0 { return null; }
      if timeout <= 0 { return null; }
      cb := new CircuitBreaker(maxFailures, timeout);
    }

    function Cfg(): Config {
      Config(maxFailures, timeout, maxHalfOpenRequests)
    }

    function View(): Cb
      reads this
    {
      Cb(failures, lastFailureTime, state, halfOpenRequests)
    }

    method CheckStateAndIncrement(t1: int, t2: int) returns (d: Decision)
      modifies this
      ensures (View(), d) == Check(Cfg(), old(View()), t1, t2)
    {
      var currentState, lastFailure := state, lastFailureTime;
      if currentState == Open {
        if t1 - lastFailure > timeout {
          if state == Open && t2 - lastFailureTime > timeout {
            state := HalfOpen;
            halfOpenRequests := 0;
          }
          currentState := state;
        }
        if currentState == Open { return Rejected(RejectedOpen); }
      }
      if currentState == Closed { return Admitted(false); }
      halfOpenRequests := halfOpenRequests + 1;
      if halfOpenRequests > maxHalfOpenRequests {
        halfOpenRequests := halfOpenRequests - 1;
        return Rejected(RejectedBusy);
      }
      return Admitted(true);
    }

    method RecordResult(ok: bool, now: int)
      modifies this
      ensures View() == Recorded(Cfg(), old(View()), ok, now)
    {
      var oldState := state;
      if ok {
        failures := 0;
        state := Closed;
      } else {
        failures := failures + 1;
        lastFailureTime := now;
        if failures >= maxFailures { state := Open; }
      }
      if oldState == HalfOpen && state != HalfOpen { halfOpenRequests := 0; }
    }

    method Execute(ok: bool, t1: int, t2: int, t3: int) returns (r: Outcome)
      modifies this
      ensures (View(), r) == Call(Cfg(), old(View()), ok, t1, t2, t3)
    {
      var d := CheckStateAndIncrement(t1, t2);
      if d.Rejected? { return d.outcome; }
      RecordResult(ok, t3);
      if d.counted { halfOpenRequests := halfOpenRequests - 1; }
      return Ran(ok);
    }

    method ResetBreaker()
      modifies this
      ensures View() == Cleared(old(View()))
      ensures state == Closed && failures == 0 && halfOpenRequests == 0
    {
      failures := 0;
      state := Closed;
      halfOpenRequests := 0;
    }
  }

  // ---- An uninterrupted call is a run of the machine -------------------------------------------------

  /** The steps of one call; those on the branches it does not take have no effect. */
  function Steps(c: nat, ok: bool, t1: int, t2: int, t3: int): seq<Event> {
    [Tick(t1), Look(c), Decide(c)] + [Tick(t2), Promote(c), Reread(c), Count(c), TakeBack(c)]
    + [Tick(t3), Record(c, ok), Release(c)]
  }

  ghost function RunSteps(cfg: Config, m: Machine, es: seq<Event>): Machine
    decreases |es|
  {
    if es == [] then m else RunSteps(cfg, Step(cfg, m, es[0]), es[1..])
  }

  lemma RunThree(cfg: Config, m: Machine, a: Event, b: Event, c: Event, rest: seq<Event>)
    ensures RunSteps(cfg, m, [a, b, c] + rest) == RunSteps(cfg, Step(cfg, Step(cfg, Step(cfg, m, a), b), c), rest)
  {
    RunOne(cfg, m, a, [b, c] + rest);
    RunOne(cfg, Step(cfg, m, a), b, [c] + rest);
    RunOne(cfg, Step(cfg, Step(cfg, m, a), b), c, rest);
    assert [a, b, c] + rest == [a] + ([b, c] + rest);
    assert [b, c] + rest == [b] + ([c] + rest);
  }

  lemma RunOne(cfg: Config, m: Machine, e: Event, rest: seq<Event>)
    ensures RunSteps(cfg, m, [e] + rest) == RunSteps(cfg, Step(cfg, m, e), rest)
  {
    assert ([e] + rest)[1..] == rest;
  }

  /** The state of the machine once call `c` has decided, entered the half-open counter, and left it if it
      was turned away. */
  lemma CheckRuns(cfg: Config, m: Machine, c: nat, t1: int, t2: int)
    requires c !in m.calls && m.now <= t1 <= t2
    ensures var (cb, d) := Check(cfg, m.cb, t1, t2);
            var n1 := Step(cfg, Step(cfg, Step(cfg, m, Tick(t1)), Look(c)), Decide(c));
            var n2 := Step(cfg, Step(cfg, Step(cfg, n1, Tick(t2)), Promote(c)), Reread(c));
            var n3 := Step(cfg, Step(cfg, n2, Count(c)), TakeBack(c));
            && n3.cb == cb && n3.now == t2
            && n3.calls == m.calls[c := if d.Admitted? then Running(d.counted) else Finished(d.outcome)]
  {
    var n1 := Step(cfg, Step(cfg, Step(cfg, m, Tick(t1)), Look(c)), Decide(c));
    assert n1.calls[c] == match m.cb.mode
      case Closed => Running(false)
      case HalfOpen => Counting
      case Open => if Elapsed(cfg, m.cb, t1) then Promoting else Finished(RejectedOpen);
    assert n1.calls == m.calls[c := n1.calls[c]] && n1.cb == m.cb;
    var n2 := Step(cfg, Step(cfg, Step(cfg, n1, Tick(t2)), Promote(c)), Reread(c));
    assert n2.calls == m.calls[c := n2.calls[c]];
    var n3 := Step(cfg, Step(cfg, n2, Count(c)), TakeBack(c));
    assert n3.calls == m.calls[c := n3.calls[c]];
  }

  lemma FinishRuns(cfg: Config, m: Machine, c: nat, ok: bool, t3: int, d: Decision)
    requires c in m.calls && m.now <= t3
    requires m.calls[c] == if d.Admitted? then Running(d.counted) else Finished(d.outcome)
    ensures var n := Step(cfg, Step(cfg, Step(cfg, m, Tick(t3)), Record(c, ok)), Release(c));
            && At(n, c, Finished(if d.Admitted? then Ran(ok) else d.outcome))
            && n.cb == if d.Rejected? then m.cb
                       else (var r := Recorded(cfg, m.cb, ok, t3);
                             if d.counted then r.(halfOpen := r.halfOpen - 1) else r)
  {
  }

  /** A call's steps, one after the other. */
  lemma StepsUnfold(cfg: Config, m: Machine, c: nat, ok: bool, t1: int, t2: int, t3: int)
    ensures var n1 := Step(cfg, Step(cfg, Step(cfg, m, Tick(t1)), Look(c)), Decide(c));
            var n2 := Step(cfg, Step(cfg, Step(cfg, n1, Tick(t2)), Promote(c)), Reread(c));
            var n3 := Step(cfg, Step(cfg, n2, Count(c)), TakeBack(c));
            RunSteps(cfg, m, Steps(c, ok, t1, t2, t3))
            == Step(cfg, Step(cfg, Step(cfg, n3, Tick(t3)), Record(c, ok)), Release(c))
  {
    var last := [Tick(t3), Record(c, ok), Release(c)];
    var middle := [Count(c)] + ([TakeBack(c)] + last);
    assert Steps(c, ok, t1, t2, t3)
        == [Tick(t1), Look(c), Decide(c)] + ([Tick(t2), Promote(c), Reread(c)] + middle);
    var n1 := Step(cfg, Step(cfg, Step(cfg, m, Tick(t1)), Look(c)), Decide(c));
    RunThree(cfg, m, Tick(t1), Look(c), Decide(c), [Tick(t2), Promote(c), Reread(c)] + middle);
    var n2 := Step(cfg, Step(cfg, Step(cfg, n1, Tick(t2)), Promote(c)), Reread(c));
    RunThree(cfg, n1, Tick(t2), Promote(c), Reread(c), middle);
    RunOne(cfg, n2, Count(c), [TakeBack(c)] + last);
    RunOne(cfg, Step(cfg, n2, Count(c)), TakeBack(c), last);
    assert last == last + [];
    RunThree(cfg, Step(cfg, Step(cfg, n2, Count(c)), TakeBack(c)), Tick(t3), Record(c, ok), Release(c), []);
  }

  /** Execute without interference does what the machine does when no other call moves. */
  lemma CallIsARun(cfg: Config, m: Machine, c: nat, ok: bool, t1: int, t2: int, t3: int)
    requires c !in m.calls && m.now <= t1 <= t2 <= t3
    ensures var n := RunSteps(cfg, m, Steps(c, ok, t1, t2, t3));
            n.cb == Call(cfg, m.cb, ok, t1, t2, t3).0 && At(n, c, Finished(Call(cfg, m.cb, ok, t1, t2, t3).1))
  {
    StepsUnfold(cfg, m, c, ok, t1, t2, t3);
    CheckRuns(cfg, m, c, t1, t2);
    var n1 := Step(cfg, Step(cfg, Step(cfg, m, Tick(t1)), Look(c)), Decide(c));
    var n2 := Step(cfg, Step(cfg, Step(cfg, n1, Tick(t2)), Promote(c)), Reread(c));
    FinishRuns(cfg, Step(cfg, Step(cfg, n2, Count(c)), TakeBack(c)), c, ok, t3, Check(cfg, m.cb, t1, t2).1);
  }

  // ---- One caller ------------------------------------------------------------------------------------

  datatype Attempt = Attempt(ok: bool, t1: int, t2: int, t3: int)

  /** The record one caller leaves: the result of each call that ran its function. */
  ghost function History(cfg: Config, cb: Cb, marks: seq<Mark>, calls: seq<Attempt>): (Cb, seq<Mark>)
    decreases |calls|
  {
    if calls == [] then (cb, marks)
    else
      var a := calls[0];
      var (next, outcome) := Call(cfg, cb, a.ok, a.t1, a.t2, a.t3);
      History(cfg, next, if outcome.Ran? then marks + [if a.ok then Succeeded else Failed(a.t3)] else marks, calls[1..])
  }

  ghost predicate Settled(cfg: Config, cb: Cb, marks: seq<Mark>) {
    && ValidConfig(cfg) && cb.mode != HalfOpen && cb.halfOpen <= 0
    && cb.failures == Streak(marks) && cb.lastFailure == LastFailure(marks)
    && (cb.mode == Closed <==> cb.failures < cfg.maxFailures)
  }

  lemma CallSettles(cfg: Config, cb: Cb, marks: seq<Mark>, a: Attempt)
    requires Settled(cfg, cb, marks) && a.t1 <= a.t2
    ensures var (next, outcome) := Call(cfg, cb, a.ok, a.t1, a.t2, a.t3);
            && outcome == (if Streak(marks) < cfg.maxFailures || a.t1 - LastFailure(marks) > cfg.timeout
                           then Ran(a.ok) else RejectedOpen)
            && Settled(cfg, next, if outcome.Ran? then marks + [if a.ok then Succeeded else Failed(a.t3)] else marks)
  {
    StreakNext(marks, if a.ok then Succeeded else Failed(a.t3));
  }

  lemma {:induction false} HistorySettles(cfg: Config, cb: Cb, marks: seq<Mark>, calls: seq<Attempt>)
    requires Settled(cfg, cb, marks) && forall a :: a in calls ==> a.t1 <= a.t2
    ensures var (c, m) := History(cfg, cb, marks, calls); Settled(cfg, c, m)
    decreases |calls|
  {
    if calls != [] {
      var a := calls[0];
      CallSettles(cfg, cb, marks, a);
      var (next, outcome) := Call(cfg, cb, a.ok, a.t1, a.t2, a.t3);
      HistorySettles(cfg, next, if outcome.Ran? then marks + [if a.ok then Succeeded else Failed(a.t3)] else marks,
                     calls[1..]);
    }
  }

  /** Calls that neither overlap nor nest run their function if and only if fewer than the maximum of the
      results before them were failures in a row, or more than the timeout has passed since the last of
      those. They are never turned away as one too many. */
  lemma OneCallerIsServed(cfg: Config, calls: seq<Attempt>, a: Attempt)
    requires ValidConfig(cfg) && a.t1 <= a.t2 && forall b :: b in calls ==> b.t1 <= b.t2
    ensures var (cb, marks) := History(cfg, NEW, [], calls);
            Call(cfg, cb, a.ok, a.t1, a.t2, a.t3).1
            == if Streak(marks) < cfg.maxFailures || a.t1 - LastFailure(marks) > cfg.timeout
               then Ran(a.ok) else RejectedOpen
  {
    HistorySettles(cfg, NEW, [], calls);
    var (cb, marks) := History(cfg, NEW, [], calls);
    CallSettles(cfg, cb, marks, a);
  }

  // ---- Retrying after a rejection ----------------------------------------------------------------------

  /** The breaker of the IMAP client. */
  const IMAP: Config := Config(5, 120 * Retry.SECOND, 1)

  /** With a single caller, the attempt that RetryWithBackoff makes after a rejection really runs the
      function: `n` is the number of the rejected attempt. */
  lemma RetryRuns(calls: seq<Attempt>, a: Attempt, b: Attempt, c: Retry.RetryConfig, n: nat, u: real)
    requires a.t1 <= a.t2 && b.t1 <= b.t2 && forall x :: x in calls ==> x.t1 <= x.t2
    requires var (cb, marks) := History(IMAP, NEW, [], calls);
             LastFailure(marks) <= a.t1 && Call(IMAP, cb, a.ok, a.t1, a.t2, a.t3).1 == RejectedOpen
    requires Retry.Sound(c) && b.t1 >= a.t1 + Retry.DelayAfter(c, n, u, Retry.BreakerOpen)
    ensures var (cb, _) := History(IMAP, NEW, [], calls);
            Call(IMAP, Call(IMAP, cb, a.ok, a.t1, a.t2, a.t3).0, b.ok, b.t1, b.t2, b.t3).1 == Ran(b.ok)
  {
    Retry.BreakerErrorsWait(c, n, u, Retry.BreakerOpen);
    HistorySettles(IMAP, NEW, [], calls);
    var (cb, marks) := History(IMAP, NEW, [], calls);
    CallSettles(IMAP, cb, marks, a);
    CallSettles(IMAP, cb, marks, b);
  }

  ghost predicate NoResults(cfg: Config, m: Machine, es: seq<Event>)
    decreases |es|
  {
    es == [] || (!(es[0].Record? && Runs(m, es[0].c)) && !es[0].Reset? && NoResults(cfg, Step(cfg, m, es[0]), es[1..]))
  }

  /** Among any number of callers: a call that starts once the timeout has elapsed is never rejected as
      open as long as no result is recorded meanwhile, however the others move. */
  lemma {:induction false} NeverRejectedAsOpen(cfg: Config, m: Machine, c: nat, es: seq<Event>)
    requires Elapsed(cfg, m.cb, m.now) && NoResults(cfg, m, es)
    requires c in m.calls ==>
      && m.calls[c] != Finished(RejectedOpen)
      && (m.calls[c].Looked? && m.calls[c].mode == Open ==> m.calls[c].lastFailure == m.cb.lastFailure)
      && (m.calls[c].Rereading? ==> m.cb.mode != Open)
    ensures !At(RunSteps(cfg, m, es), c, Finished(RejectedOpen))
    decreases |es|
  {
    if es != [] { NeverRejectedAsOpen(cfg, Step(cfg, m, es[0]), c, es[1..]); }
  }

  /** So the next attempt after a rejection as open is not rejected as open again: the rejection was read at
      `t`, when no failure lay in the future, and the wait is longer than the timeout. */
  lemma RetryIsNotRejectedAsOpen(m: Machine, t: int, id: nat, es: seq<Event>, c: Retry.RetryConfig, n: nat, u: real)
    requires Retry.Sound(c) && m.cb.lastFailure <= t && m.now >= t + Retry.DelayAfter(c, n, u, Retry.BreakerOpen)
    requires id !in m.calls && NoResults(IMAP, m, es)
    ensures !At(RunSteps(IMAP, m, es), id, Finished(RejectedOpen))
  {
    Retry.BreakerErrorsWait(c, n, u, Retry.BreakerOpen);
    NeverRejectedAsOpen(IMAP, m, id, es);
  }

  // ---- A call made inside a call -----------------------------------------------------------------------

  /** The breaker after `n` calls in a row, as the reconnect loop makes them. */
  function AfterCalls(cfg: Config, cb: Cb, calls: nat -> Attempt, n: nat): Cb {
    if n == 0 then cb
    else
      Call(cfg, AfterCalls(cfg, cb, calls, n - 1), calls(n - 1).ok, calls(n - 1).t1, calls(n - 1).t2,
           calls(n - 1).t3).0
  }

  function CallOutcome(cfg: Config, cb: Cb, calls: nat -> Attempt, n: nat): Outcome {
    Call(cfg, AfterCalls(cfg, cb, calls, n), calls(n).ok, calls(n).t1, calls(n).t2, calls(n).t3).1
  }

  /** What RetryWithBackoff gets back from attempt `n`; `error` is the category of a failed connection. */
  function CallError(cfg: Config, cb: Cb, calls: nat -> Attempt, error: Retry.Category, n: nat): Option<Retry.Error> {
    match CallOutcome(cfg, cb, calls, n)
    case Ran(ok) => if ok then None else Some(Retry.Categorized(error))
    case RejectedOpen => Some(Retry.BreakerOpen)
    case RejectedBusy => Some(Retry.BreakerBusy)
  }

  /** The reconnect loop, from a breaker in state `cb`. */
  function Reconnects(cfg: Config, cb: Cb, calls: nat -> Attempt, error: Retry.Category, c: Retry.RetryConfig,
                      ctx: nat -> Retry.Context): Retry.Result
  {
    Retry.Ending(Retry.Repaired(c), (n: nat) => CallError(cfg, cb, calls, error, n), ctx, 0)
  }

  /** While a call is the one probe, every call made from inside it is turned away and changes nothing. */
  lemma {:induction false} NestedCallsAreBusy(cfg: Config, cb: Cb, calls: nat -> Attempt, n: nat)
    requires cb.mode == HalfOpen && cb.halfOpen >= cfg.maxHalfOpen
    ensures AfterCalls(cfg, cb, calls, n) == cb && CallOutcome(cfg, cb, calls, n) == RejectedBusy
  {
    if n > 0 { NestedCallsAreBusy(cfg, cb, calls, n - 1); }
  }

  lemma NestedReconnectFails(cfg: Config, cb: Cb, calls: nat -> Attempt, error: Retry.Category, c: Retry.RetryConfig,
                             ctx: nat -> Retry.Context)
    requires cb.mode == HalfOpen && cb.halfOpen >= cfg.maxHalfOpen
    ensures Reconnects(cfg, cb, calls, error, c, ctx) != Retry.Success
  {
    forall n: nat ensures CallError(cfg, cb, calls, error, n) == Some(Retry.BreakerBusy) {
      NestedCallsAreBusy(cfg, cb, calls, n);
    }
    Retry.NoSuccessWithoutOne(Retry.Repaired(c), (n: nat) => CallError(cfg, cb, calls, error, n), ctx, 0);
  }

  /** A recovery that reconnects through its own breaker. Once it is admitted, its first reconnect attempt is
      let through exactly if the breaker was closed on entry, and only then can it succeed. */
  lemma NestedRecoveryNeedsClosed(cfg: Config, cb: Cb, marks: seq<Mark>, t1: int, t2: int, error: Retry.Category,
                                  c: Retry.RetryConfig, ctx: nat -> Retry.Context)
    requires Settled(cfg, cb, marks) && cfg.maxHalfOpen == 1 && t1 <= t2 && Check(cfg, cb, t1, t2).1.Admitted?
    ensures var outer := Check(cfg, cb, t1, t2).0;
            && (forall calls: nat -> Attempt :: CallOutcome(cfg, outer, calls, 0).Ran? <==> cb.mode == Closed)
            && ((exists calls: nat -> Attempt :: Reconnects(cfg, outer, calls, error, c, ctx) == Retry.Success)
                <==> cb.mode == Closed)
  {
    var outer := Check(cfg, cb, t1, t2).0;
    forall calls: nat -> Attempt
      ensures CallOutcome(cfg, outer, calls, 0).Ran? <==> cb.mode == Closed
      ensures cb.mode != Closed ==> Reconnects(cfg, outer, calls, error, c, ctx) != Retry.Success
    {
      if cb.mode != Closed {
        NestedCallsAreBusy(cfg, outer, calls, 0);
        NestedReconnectFails(cfg, outer, calls, error, c, ctx);
      }
    }
    if cb.mode == Closed {
      var connects: nat -> Attempt := n => Attempt(true, t2, t2, t2);
      assert CallError(cfg, outer, connects, error, 0) == None;
      assert Reconnects(cfg, outer, connects, error, c, ctx) == Retry.Success;
    }
  }

  /** So a recovery from an open breaker never closes it: every reconnect attempt is turned away before it
      connects, the recovery therefore fails, and recording that opens the breaker again. */
  lemma NestedRecoveryReopens(cfg: Config, cb: Cb, marks: seq<Mark>, t1: int, t2: int, calls: nat -> Attempt,
                              error: Retry.Category, c: Retry.RetryConfig, ctx: nat -> Retry.Context, n: nat, t3: int)
    requires Settled(cfg, cb, marks) && cfg.maxHalfOpen == 1 && t1 <= t2
    requires cb.mode == Open && Check(cfg, cb, t1, t2).1.Admitted?
    ensures var outer := Check(cfg, cb, t1, t2).0;
            var recovered := Reconnects(cfg, outer, calls, error, c, ctx) == Retry.Success;
            && CallOutcome(cfg, outer, calls, n) == RejectedBusy
            && !recovered && Recorded(cfg, AfterCalls(cfg, outer, calls, n), recovered, t3).mode == Open
  {
    var outer := Check(cfg, cb, t1, t2).0;
    NestedCallsAreBusy(cfg, outer, calls, n);
    NestedReconnectFails(cfg, outer, calls, error, c, ctx);
  }
}
