/** The circuit breaker as a machine of atomic steps, interleaved in any order by any number of calls. */
module Breaker {
  import opened Wrappers

  datatype Mode = Closed | HalfOpen | Open

  datatype Config = Config(maxFailures: int, timeout: int, maxHalfOpen: int)

  /** The breaker's fields. Times are nanoseconds. */
  datatype Cb = Cb(failures: int, lastFailure: int, mode: Mode, halfOpen: int)

  predicate ValidConfig(cfg: Config) {
    cfg.maxFailures > 0 && cfg.timeout > 0 && cfg.maxHalfOpen > 0
  }

  const NEW: Cb := Cb(0, 0, Closed, 0)

  // ---- What happens under one lock, or in one atomic instruction --------------------------------------

  predicate Elapsed(cfg: Config, cb: Cb, now: int) {
    now - cb.lastFailure > cfg.timeout
  }

  /** The double check under the write lock. */
  function Promoted(cfg: Config, cb: Cb, now: int): Cb {
    if cb.mode == Open && Elapsed(cfg, cb, now) then cb.(mode := HalfOpen, halfOpen := 0) else cb
  }

  /** recordResult. */
  function Recorded(cfg: Config, cb: Cb, ok: bool, now: int): Cb {
    var r := if ok then cb.(failures := 0, mode := Closed)
             else cb.(failures := cb.failures + 1, lastFailure := now,
                      mode := if cb.failures + 1 >= cfg.maxFailures then Open else cb.mode);
    if cb.mode == HalfOpen && r.mode != HalfOpen then r.(halfOpen := 0) else r
  }

  function Cleared(cb: Cb): Cb {
    cb.(failures := 0, mode := Closed, halfOpen := 0)
  }

  // ---- The interleaved machine -----------------------------------------------------------------------

  datatype Outcome = Ran(ok: bool) | RejectedOpen | RejectedBusy

  /** Where a call stands inside Execute. */
  datatype Pc =
    | Looked(mode: Mode, lastFailure: int)  // took the quick look under the read lock
    | Promoting                             // saw an open breaker whose timeout has elapsed
    | Rereading                             // opened the half-open episode; the callback runs outside the lock
    | Counting                              // about to increment the half-open counter
    | OverLimit                             // incremented past the limit, about to take it back
    | Running(counted: bool)                // runs the function
    | Releasing(counted: bool, ok: bool)    // recorded the result, about to release
    | Finished(outcome: Outcome)

  datatype Machine = Machine(cb: Cb, calls: map<nat, Pc>, now: int)

  datatype Event =
    | Look(c: nat)
    | Decide(c: nat)
    | Promote(c: nat)
    | Reread(c: nat)
    | Count(c: nat)
    | TakeBack(c: nat)
    | Record(c: nat, ok: bool)
    | Release(c: nat)
    | Reset
    | Tick(time: int)

  predicate At(m: Machine, c: nat, pc: Pc) {
    c in m.calls && m.calls[c] == pc
  }

  /** One step; an event that the machine is not ready for leaves it as it is. */
  function Step(cfg: Config, m: Machine, e: Event): Machine {
    match e
    case Look(c) =>
      if c in m.calls then m else m.(calls := m.calls[c := Looked(m.cb.mode, m.cb.lastFailure)])
    case Decide(c) =>
      if c !in m.calls || !m.calls[c].Looked? then m
      else
        var seen := m.calls[c];
        m.(calls := m.calls[c :=
          match seen.mode
          case Closed => Running(false)
          case HalfOpen => Counting
          case Open => if m.now - seen.lastFailure > cfg.timeout then Promoting else Finished(RejectedOpen)])
    case Promote(c) =>
      if !At(m, c, Promoting) then m
      else if m.cb.mode == Open && Elapsed(cfg, m.cb, m.now)
      then Machine(Promoted(cfg, m.cb, m.now), m.calls[c := Rereading], m.now)
      else m.(calls := m.calls[c := if m.cb.mode == Open then Finished(RejectedOpen) else Counting])
    case Reread(c) =>
      if !At(m, c, Rereading) then m
      else m.(calls := m.calls[c := if m.cb.mode == Open then Finished(RejectedOpen) else Counting])
    case Count(c) =>
      if !At(m, c, Counting) then m
      else
        var up := m.cb.(halfOpen := m.cb.halfOpen + 1);
        Machine(up, m.calls[c := if up.halfOpen > cfg.maxHalfOpen then OverLimit else Running(true)], m.now)
    case TakeBack(c) =>
      if !At(m, c, OverLimit) then m
      else Machine(m.cb.(halfOpen := m.cb.halfOpen - 1), m.calls[c := Finished(RejectedBusy)], m.now)
    case Record(c, ok) =>
      if !Runs(m, c) then m
      else Machine(Recorded(cfg, m.cb, ok, m.now), m.calls[c := Releasing(m.calls[c].counted, ok)], m.now)
    case Release(c) =>
      if c !in m.calls || !m.calls[c].Releasing? then m
      else
        var pc := m.calls[c];
        Machine(if pc.counted then m.cb.(halfOpen := m.cb.halfOpen - 1) else m.cb,
                m.calls[c := Finished(Ran(pc.ok))], m.now)
    case Reset => m.(cb := Cleared(m.cb))
    case Tick(time) => if time < m.now then m else m.(now := time)
  }

  predicate Runs(m: Machine, c: nat) {
    c in m.calls && m.calls[c].Running?
  }

  /** Calls between their increment of the half-open counter and the matching decrement. */
  function Holders(m: Machine): set<nat> {
    set c | c in m.calls && Holds(m.calls[c])
  }

  predicate Holds(pc: Pc) {
    pc.OverLimit? || ((pc.Running? || pc.Releasing?) && pc.counted)
  }

  // ---- Observing a run -------------------------------------------------------------------------------

  datatype Mark = Failed(time: int) | Succeeded | Zeroed

  /** A run's machine together with what an onlooker notes down: every recorded result, the calls admitted
      as probes in the half-open episode under way, and the calls that were holders when it opened. */
  datatype Watch = Watch(m: Machine, marks: seq<Mark>, probes: set<nat>, stale: set<nat>)

  function Observe(cfg: Config, w: Watch, e: Event): Watch {
    var n := Step(cfg, w.m, e);
    var marks := match e
      case Record(c, ok) => if Runs(w.m, c) then w.marks + [if ok then Succeeded else Failed(w.m.now)] else w.marks
      case Reset => w.marks + [Zeroed]
      case _ => w.marks;
    if n.cb.mode != HalfOpen then Watch(n, marks, {}, {})
    else if w.m.cb.mode != HalfOpen then Watch(n, marks, {}, Holders(n))
    else if e.Count? && At(w.m, e.c, Counting) && At(n, e.c, Running(true))
    then Watch(n, marks, w.probes + {e.c}, w.stale)
    else Watch(n, marks, w.probes, w.stale)
  }

  function Start(now: int): Watch {
    Watch(Machine(NEW, map[], now), [], {}, {})
  }

  ghost function Run(cfg: Config, w: Watch, es: seq<Event>): Watch
    decreases |es|
  {
    if es == [] then w else Run(cfg, Observe(cfg, w, es[0]), es[1..])
  }

  /** How many failures the record ends in. */
  function Streak(marks: seq<Mark>): nat {
    if marks == [] || !marks[|marks| - 1].Failed? then 0 else 1 + Streak(marks[..|marks| - 1])
  }

  /** The time of the last failure on record. */
  function LastFailure(marks: seq<Mark>): int {
    if marks == [] then 0
    else if marks[|marks| - 1].Failed? then marks[|marks| - 1].time
    else LastFailure(marks[..|marks| - 1])
  }

  // ---- What every interleaving keeps -----------------------------------------------------------------

  /** The calls that held the counter when the episode opened and do not run their function any more. Only
      they will give the counter back while the episode lasts: the result of one that still runs ends it. */
  function Leaving(w: Watch): set<nat> {
    set c | c in w.stale && !Runs(w.m, c)
  }

  /** What a call that once held the counter does, in the episode it has reached into. */
  predicate WasHolder(m: Machine, c: nat) {
    c in m.calls && (Holds(m.calls[c]) || m.calls[c].Finished?)
  }

  ghost predicate Inv(cfg: Config, w: Watch) {
    && ValidConfig(cfg)
    && w.m.cb.failures == Streak(w.marks)
    && w.m.cb.lastFailure == LastFailure(w.marks)
    && (w.m.cb.mode == Closed <==> w.m.cb.failures < cfg.maxFailures)
    && (w.m.cb.mode == HalfOpen ==>
          && w.m.cb.halfOpen == |Holders(w.m)| - |w.stale|
          && |w.probes| <= cfg.maxHalfOpen + |Leaving(w)|
          && w.probes !! w.stale
          && (forall c :: c in w.probes ==> At(w.m, c, Running(true)))
          && (forall c :: c in w.stale ==> WasHolder(w.m, c)))
  }

  lemma StreakNext(marks: seq<Mark>, x: Mark)
    ensures Streak(marks + [x]) == if x.Failed? then Streak(marks) + 1 else 0
    ensures LastFailure(marks + [x]) == if x.Failed? then x.time else LastFailure(marks)
  {
    assert (marks + [x])[..|marks|] == marks;
  }

  /** `n` is `m` after call `c` moved from where it was, if it was anywhere, to `pc`. */
  predicate Moved(m: Machine, n: Machine, c: nat, pc: Pc) {
    n.calls == m.calls[c := pc] && n.now == m.now
  }

  /** A call's move changes the holders by at most that call. */
  lemma HoldersChange(m: Machine, n: Machine, c: nat, pc: Pc)
    requires Moved(m, n, c, pc)
    ensures |Holders(n)| - (if Holds(pc) then 1 else 0)
         == |Holders(m)| - (if c in m.calls && Holds(m.calls[c]) then 1 else 0)
  {
    var rest := Holders(m) - {c};
    if Holds(pc) { assert Holders(n) == rest + {c}; } else { assert Holders(n) == rest; }
    if c in Holders(m) { assert Holders(m) == rest + {c}; } else { assert Holders(m) == rest; }
  }

  /** Any recorded result, also one of a call admitted before the episode, ends a half-open episode. */
  lemma ResultEndsEpisode(cfg: Config, w: Watch, c: nat, ok: bool)
    requires Inv(cfg, w) && w.m.cb.mode == HalfOpen && Runs(w.m, c)
    ensures Step(cfg, w.m, Record(c, ok)).cb.mode == (if ok then Closed else Open)
    ensures Step(cfg, w.m, Record(c, ok)).cb.halfOpen == 0
  {
  }

  lemma ObserveRecord(cfg: Config, w: Watch, c: nat, ok: bool)
    requires Inv(cfg, w) && Runs(w.m, c)
    ensures Inv(cfg, Observe(cfg, w, Record(c, ok)))
  {
    var v := Observe(cfg, w, Record(c, ok));
    StreakNext(w.marks, if ok then Succeeded else Failed(w.m.now));
    if w.m.cb.mode == HalfOpen { ResultEndsEpisode(cfg, w, c, ok); }
    assert v.m.cb.mode != HalfOpen;
  }

  lemma ObserveReset(cfg: Config, w: Watch)
    requires Inv(cfg, w)
    ensures Inv(cfg, Observe(cfg, w, Reset))
  {
    StreakNext(w.marks, Zeroed);
  }

  /** A move that leaves the mode alone, and the counter in step with the holders. */
  lemma MoveKeeps(cfg: Config, w: Watch, v: Watch, c: nat, pc: Pc)
    requires Inv(cfg, w) && Moved(w.m, v.m, c, pc)
    requires c in w.m.calls ==> !w.m.calls[c].Running?
    requires c in w.m.calls && (Holds(w.m.calls[c]) || w.m.calls[c].Finished?) ==> pc.Finished?
    requires v.marks == w.marks && (w.m.cb.mode == HalfOpen ==> v.probes == w.probes && v.stale == w.stale)
    requires v.m.cb == w.m.cb.(halfOpen := v.m.cb.halfOpen)
    requires v.m.cb.halfOpen == w.m.cb.halfOpen + (if Holds(pc) then 1 else 0)
                                - (if c in w.m.calls && Holds(w.m.calls[c]) then 1 else 0)
    ensures Inv(cfg, v) && (w.m.cb.mode == HalfOpen ==> Leaving(v) == Leaving(w))
  {
    HoldersChange(w.m, v.m, c, pc);
    if w.m.cb.mode == HalfOpen {
      forall d | d in v.probes ensures At(v.m, d, Running(true)) { assert At(w.m, d, Running(true)); }
      forall d | d in w.stale ensures WasHolder(v.m, d) && (Runs(v.m, d) <==> Runs(w.m, d)) {
        assert WasHolder(w.m, d);
      }
      assert Leaving(v) == Leaving(w);
    }
  }

  lemma ProbeRoom(cfg: Config, w: Watch)
    requires Inv(cfg, w) && w.m.cb.mode == HalfOpen && w.m.cb.halfOpen < cfg.maxHalfOpen
    ensures |w.probes| < cfg.maxHalfOpen + |Leaving(w)|
  {
    var running := w.stale - Leaving(w);
    forall d | d in w.probes + running ensures d in Holders(w.m) {
      if d in w.probes { assert At(w.m, d, Running(true)); } else { assert WasHolder(w.m, d) && Runs(w.m, d); }
    }
    SubsetSize(w.probes + running, Holders(w.m));
    assert w.stale == running + Leaving(w);
  }

  lemma ObserveProbe(cfg: Config, w: Watch, c: nat)
    requires Inv(cfg, w) && At(w.m, c, Counting) && w.m.cb.mode == HalfOpen && w.m.cb.halfOpen < cfg.maxHalfOpen
    ensures Inv(cfg, Observe(cfg, w, Count(c)))
    ensures Observe(cfg, w, Count(c)).probes == w.probes + {c} && c !in w.probes
    ensures Leaving(Observe(cfg, w, Count(c))) == Leaving(w)
  {
    var v := Observe(cfg, w, Count(c));
    HoldersChange(w.m, v.m, c, Running(true));
    ProbeRoom(cfg, w);
    assert v.probes == w.probes + {c};
    forall d | d in w.probes ensures d != c && At(v.m, d, Running(true)) { assert At(w.m, d, Running(true)); }
    forall d | d in w.stale ensures d != c && WasHolder(v.m, d) { assert WasHolder(w.m, d); }
    assert Leaving(v) == Leaving(w);
  }

  lemma ObserveCount(cfg: Config, w: Watch, c: nat)
    requires Inv(cfg, w) && At(w.m, c, Counting)
    ensures Inv(cfg, Observe(cfg, w, Count(c)))
  {
    if w.m.cb.mode == HalfOpen && w.m.cb.halfOpen < cfg.maxHalfOpen {
      ObserveProbe(cfg, w, c);
    } else {
      var v := Observe(cfg, w, Count(c));
      MoveKeeps(cfg, w, v, c, v.m.calls[c]);
    }
  }

  lemma ObserveOther(cfg: Config, w: Watch, e: Event)
    requires Inv(cfg, w) && (e.Look? || e.Decide? || e.Reread? || e.TakeBack? || e.Release?)
    ensures Inv(cfg, Observe(cfg, w, e))
  {
    var v := Observe(cfg, w, e);
    if v.m != w.m { MoveKeeps(cfg, w, v, e.c, v.m.calls[e.c]); }
  }

  lemma ObservePromote(cfg: Config, w: Watch, e: Event)
    requires Inv(cfg, w) && e.Promote?
    ensures Inv(cfg, Observe(cfg, w, e))
  {
    var v := Observe(cfg, w, e);
    if At(w.m, e.c, Promoting) && !(w.m.cb.mode == Open && Elapsed(cfg, w.m.cb, w.m.now)) {
      MoveKeeps(cfg, w, v, e.c, v.m.calls[e.c]);
    }
  }

  lemma ObserveKeeps(cfg: Config, w: Watch, e: Event)
    requires Inv(cfg, w)
    ensures Inv(cfg, Observe(cfg, w, e))
  {
    match e
    case Record(c, ok) => if Runs(w.m, c) { ObserveRecord(cfg, w, c, ok); }
    case Reset => ObserveReset(cfg, w);
    case Tick(_) =>
      var v := Observe(cfg, w, e);
      assert Holders(v.m) == Holders(w.m) && (w.m.cb.mode == HalfOpen ==> Leaving(v) == Leaving(w));
    case Count(c) => if At(w.m, c, Counting) { ObserveCount(cfg, w, c); }
    case Promote(_) => ObservePromote(cfg, w, e);
    case _ => ObserveOther(cfg, w, e);
  }

  lemma {:induction false} RunKeeps(cfg: Config, w: Watch, es: seq<Event>)
    requires Inv(cfg, w)
    ensures Inv(cfg, Run(cfg, w, es))
    decreases |es|
  {
    if es != [] {
      ObserveKeeps(cfg, w, es[0]);
      RunKeeps(cfg, Observe(cfg, w, es[0]), es[1..]);
    }
  }

  /** Under every interleaving the failure count is the run of failures since the last success or reset,
      and the breaker is closed exactly while that run is short of the maximum. */
  lemma ClosedIffFewFailures(cfg: Config, now: int, es: seq<Event>)
    requires ValidConfig(cfg)
    ensures var w := Run(cfg, Start(now), es);
            && w.m.cb.failures == Streak(w.marks)
            && (w.m.cb.mode == Closed <==> Streak(w.marks) < cfg.maxFailures)
  {
    RunKeeps(cfg, Start(now), es);
  }

  /** Under every interleaving a half-open episode admits at most the configured number of probes beyond one
      for each call that was still a holder when it opened, but had finished its function. */
  lemma ProbesAreBounded(cfg: Config, now: int, es: seq<Event>)
    requires ValidConfig(cfg)
    ensures var w := Run(cfg, Start(now), es); |w.probes| <= cfg.maxHalfOpen + |Leaving(w)|
  {
    RunKeeps(cfg, Start(now), es);
    OutsideEpisodes(cfg, Start(now), es);
  }

  lemma {:induction false} OutsideEpisodes(cfg: Config, w: Watch, es: seq<Event>)
    requires w.m.cb.mode != HalfOpen ==> w.probes == {} && w.stale == {}
    ensures var v := Run(cfg, w, es); v.m.cb.mode != HalfOpen ==> v.probes == {} && v.stale == {}
    decreases |es|
  {
    if es != [] { OutsideEpisodes(cfg, Observe(cfg, w, es[0]), es[1..]); }
  }

  /** While a probe of an episode without leaving calls runs, the limit being one, every further call is
      turned away. This covers a call made from inside the probe itself. */
  lemma ProbeExcludesOthers(cfg: Config, w: Watch, p: nat, c: nat)
    requires Inv(cfg, w) && cfg.maxHalfOpen == 1
    requires w.m.cb.mode == HalfOpen && Leaving(w) == {} && p in w.probes
    requires At(w.m, c, Counting)
    ensures At(Step(cfg, w.m, Count(c)), c, OverLimit)
    ensures Step(cfg, Step(cfg, w.m, Count(c)), TakeBack(c)).cb == w.m.cb
  {
    if w.m.cb.halfOpen < 1 {
      ProbeRoom(cfg, w);
      SubsetSize({p}, w.probes);
    }
  }

  // ---- An episode with two probes --------------------------------------------------------------------

  ghost predicate Reachable(cfg: Config, w: Watch) {
    exists es :: Run(cfg, Start(0), es) == w
  }

  lemma {:induction false} RunNext(cfg: Config, w: Watch, es: seq<Event>, e: Event)
    ensures Run(cfg, w, es + [e]) == Observe(cfg, Run(cfg, w, es), e)
    decreases |es|
  {
    if es == [] {
      assert [e][1..] == [];
    } else {
      assert (es + [e])[0] == es[0] && (es + [e])[1..] == es[1..] + [e];
      RunNext(cfg, Observe(cfg, w, es[0]), es[1..], e);
    }
  }

  lemma Reaches(cfg: Config, w: Watch, e: Event) returns (v: Watch)
    requires Reachable(cfg, w)
    ensures v == Observe(cfg, w, e) && Reachable(cfg, v)
  {
    var es :| Run(cfg, Start(0), es) == w;
    RunNext(cfg, Start(0), es, e);
    v := Observe(cfg, w, e);
  }

  /** Takes a new call through its first look and what it decides on. */
  lemma Arrives(cfg: Config, w: Watch, c: nat, pc: Pc) returns (v: Watch)
    requires Reachable(cfg, w) && c !in w.m.calls
    requires pc == match w.m.cb.mode
                   case Closed => Running(false)
                   case HalfOpen => Counting
                   case Open => if Elapsed(cfg, w.m.cb, w.m.now) then Promoting else Finished(RejectedOpen)
    ensures Reachable(cfg, v) && v.m == w.m.(calls := w.m.calls[c := pc])
    ensures w.m.cb.mode == HalfOpen ==> v.probes == w.probes && v.stale == w.stale
  {
    v := Reaches(cfg, w, Look(c));
    assert v.m == w.m.(calls := w.m.calls[c := Looked(w.m.cb.mode, w.m.cb.lastFailure)]);
    v := Reaches(cfg, v, Decide(c));
    assert v.m.calls == w.m.calls[c := pc];
  }

  /** Takes a call through the half-open counter while there is room. */
  lemma Counts(cfg: Config, w: Watch, c: nat) returns (v: Watch)
    requires Reachable(cfg, w) && At(w.m, c, Counting) && w.m.cb.mode == HalfOpen && w.m.cb.halfOpen < cfg.maxHalfOpen
    ensures Reachable(cfg, v) && v.probes == w.probes + {c} && v.stale == w.stale
    ensures v.m == Machine(w.m.cb.(halfOpen := w.m.cb.halfOpen + 1), w.m.calls[c := Running(true)], w.m.now)
  {
    v := Reaches(cfg, w, Count(c));
  }

  /** Takes a new call to being the first probe of a half-open episode, when the timeout has elapsed. */
  lemma OpensEpisode(cfg: Config, w: Watch, c: nat) returns (v: Watch)
    requires Reachable(cfg, w) && ValidConfig(cfg)
    requires w.m.cb.mode == Open && Elapsed(cfg, w.m.cb, w.m.now) && c !in w.m.calls
    ensures Reachable(cfg, v) && v.probes == {c} && v.stale == Holders(w.m)
    ensures v.m == Machine(w.m.cb.(mode := HalfOpen, halfOpen := 1), w.m.calls[c := Running(true)], w.m.now)
  {
    v := Arrives(cfg, w, c, Promoting);
    var u := v;
    v := Reaches(cfg, u, Promote(c));
    assert v.m == Machine(w.m.cb.(mode := HalfOpen, halfOpen := 0), u.m.calls[c := Rereading], w.m.now);
    assert u.m.calls[c := Rereading] == w.m.calls[c := Rereading];
    assert Holders(v.m) == Holders(w.m);
    u := v;
    v := Reaches(cfg, u, Reread(c));
    assert v.m == u.m.(calls := u.m.calls[c := Counting]);
    u := v;
    v := Counts(cfg, u, c);
    assert v.m.calls == w.m.calls[c := Running(true)];
  }

  lemma Fails(cfg: Config, w: Watch, c: nat, counted: bool) returns (v: Watch)
    requires Reachable(cfg, w) && At(w.m, c, Running(counted)) && w.m.cb.failures + 1 >= cfg.maxFailures
    ensures Reachable(cfg, v) && v.m.calls == w.m.calls[c := Releasing(counted, false)] && v.m.now == w.m.now
    ensures v.m.cb.mode == Open && v.m.cb.failures == w.m.cb.failures + 1 && v.m.cb.lastFailure == w.m.now
  {
    v := Reaches(cfg, w, Record(c, false));
  }

  lemma Waits(cfg: Config, w: Watch, time: int) returns (v: Watch)
    requires Reachable(cfg, w) && time >= w.m.now
    ensures Reachable(cfg, v) && v.m == w.m.(now := time)
  {
    v := Reaches(cfg, w, Tick(time));
  }

  /** A probe that has failed but not yet released is a holder of the next episode. */
  lemma StaleProbe(cfg: Config) returns (v: Watch)
    requires cfg == Config(1, 10, 1)
    ensures Reachable(cfg, v) && v.stale == {1} && v.probes == {2}
    ensures v.m.calls == map[0 := Releasing(false, false), 1 := Releasing(true, false), 2 := Running(true)]
    ensures v.m.cb.mode == HalfOpen && v.m.cb.halfOpen == 1
  {
    v := Start(0);
    assert Run(cfg, Start(0), []) == v;
    v := Arrives(cfg, v, 0, Running(false));
    v := Fails(cfg, v, 0, false);
    v := Waits(cfg, v, 11);
    v := OpensEpisode(cfg, v, 1);
    v := Fails(cfg, v, 1, true);
    v := Waits(cfg, v, 22);
    assert Holders(v.m) == {1};
    v := OpensEpisode(cfg, v, 2);
  }

  /** So one probe per episode is not kept in general: when the stale probe releases, the episode admits a
      second probe while the first one runs, and the bound above is reached. */
  lemma TwoProbesAtOnce(cfg: Config) returns (v: Watch)
    requires cfg == Config(1, 10, 1)
    ensures Reachable(cfg, v) && |v.stale| == 1 && |v.probes| == 2
    ensures At(v.m, 2, Running(true)) && At(v.m, 3, Running(true))
  {
    v := StaleProbe(cfg);
    v := Reaches(cfg, v, Release(1));
    v := Arrives(cfg, v, 3, Counting);
    v := Counts(cfg, v, 3);
    assert v.probes == {2, 3};
  }
}
