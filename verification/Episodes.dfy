/** How many probes one half-open episode can admit: exactly as many as the state in which it opens says. */
module Episodes {
  import opened Wrappers
  import opened Breaker

  /** The episode has just opened: no probe yet, and every holder is one from before. */
  ghost predicate Opening(cfg: Config, w: Watch) {
    Inv(cfg, w) && w.m.cb.mode == HalfOpen && w.probes == {} && w.stale == Holders(w.m)
  }

  /** The steps stay inside the episode. */
  ghost predicate InEpisode(cfg: Config, w: Watch, es: seq<Event>)
    decreases |es|
  {
    w.m.cb.mode == HalfOpen && (es == [] || InEpisode(cfg, Observe(cfg, w, es[0]), es[1..]))
  }

  ghost predicate Continues(cfg: Config, w: Watch, v: Watch) {
    exists es :: InEpisode(cfg, w, es) && Run(cfg, w, es) == v
  }

  // ---- No more than the bound ------------------------------------------------------------------------

  /** Inside an episode no call stops running its function, so none starts leaving. */
  lemma LeavingStays(cfg: Config, w: Watch, e: Event)
    requires Inv(cfg, w) && w.m.cb.mode == HalfOpen && Observe(cfg, w, e).m.cb.mode == HalfOpen
    ensures Leaving(Observe(cfg, w, e)) == Leaving(w) && Observe(cfg, w, e).stale == w.stale
  {
    var v := Observe(cfg, w, e);
    forall c | c in w.stale ensures Runs(v.m, c) <==> Runs(w.m, c) {
      assert WasHolder(w.m, c);
    }
  }

  lemma {:induction false} EpisodeKeeps(cfg: Config, w: Watch, es: seq<Event>)
    requires Inv(cfg, w) && InEpisode(cfg, w, es)
    ensures var v := Run(cfg, w, es); Inv(cfg, v) && v.m.cb.mode == HalfOpen && Leaving(v) == Leaving(w)
    decreases |es|
  {
    if es != [] {
      ObserveKeeps(cfg, w, es[0]);
      LeavingStays(cfg, w, es[0]);
      EpisodeKeeps(cfg, Observe(cfg, w, es[0]), es[1..]);
    }
  }

  // ---- The bound is reached --------------------------------------------------------------------------

  lemma {:induction false} EpisodeNext(cfg: Config, w: Watch, es: seq<Event>, e: Event)
    requires InEpisode(cfg, w, es) && Observe(cfg, Run(cfg, w, es), e).m.cb.mode == HalfOpen
    ensures InEpisode(cfg, w, es + [e]) && Run(cfg, w, es + [e]) == Observe(cfg, Run(cfg, w, es), e)
    decreases |es|
  {
    if es == [] {
      assert [] + [e] == [e] && [e][1..] == [];
    } else {
      assert (es + [e])[0] == es[0] && (es + [e])[1..] == es[1..] + [e];
      EpisodeNext(cfg, Observe(cfg, w, es[0]), es[1..], e);
    }
  }

  lemma Goes(cfg: Config, w: Watch, v: Watch, e: Event) returns (u: Watch)
    requires Continues(cfg, w, v) && Observe(cfg, v, e).m.cb.mode == HalfOpen
    ensures u == Observe(cfg, v, e) && Continues(cfg, w, u)
  {
    var es :| InEpisode(cfg, w, es) && Run(cfg, w, es) == v;
    EpisodeNext(cfg, w, es, e);
    u := Observe(cfg, v, e);
  }

  /** The calls from before that still have to give the counter back. */
  function Pending(w: Watch): set<nat> {
    set c | c in Leaving(w) && c in w.m.calls && Holds(w.m.calls[c])
  }

  lemma LeaveOne(cfg: Config, w: Watch, v: Watch, c: nat) returns (u: Watch)
    requires Continues(cfg, w, v) && Inv(cfg, v) && v.m.cb.mode == HalfOpen && c in Pending(v)
    ensures Continues(cfg, w, u) && Inv(cfg, u) && u.m.cb.mode == HalfOpen
    ensures u.m.cb.halfOpen == v.m.cb.halfOpen - 1 && u.probes == v.probes && Pending(u) == Pending(v) - {c}
  {
    var e := if v.m.calls[c].OverLimit? then TakeBack(c) else Release(c);
    ObserveKeeps(cfg, v, e);
    LeavingStays(cfg, v, e);
    u := Goes(cfg, w, v, e);
  }

  lemma Leave(cfg: Config, w: Watch, v: Watch) returns (u: Watch)
    requires Continues(cfg, w, v) && Inv(cfg, v) && v.m.cb.mode == HalfOpen
    ensures Continues(cfg, w, u) && Inv(cfg, u) && u.m.cb.mode == HalfOpen
    ensures u.m.cb.halfOpen == v.m.cb.halfOpen - |Pending(v)| && u.probes == v.probes
    decreases |Pending(v)|
  {
    u := v;
    if Pending(v) != {} {
      var c :| c in Pending(v);
      var next := LeaveOne(cfg, w, v, c);
      u := Leave(cfg, w, next);
    }
  }

  /** There is always a call that has not come yet. */
  lemma SomeoneElse(s: set<nat>) returns (b: nat)
    ensures forall c :: c in s ==> c < b
  {
    b := 0;
    if s != {} {
      var c :| c in s;
      var rest := SomeoneElse(s - {c});
      b := if c >= rest then c + 1 else rest;
      forall d | d in s ensures d < b {
        if d != c { assert d in s - {c}; }
      }
    }
  }

  /** A new call takes its look and comes to the counter. */
  lemma ComesToCount(cfg: Config, w: Watch, v: Watch) returns (u: Watch, c: nat)
    requires Continues(cfg, w, v) && Inv(cfg, v) && v.m.cb.mode == HalfOpen
    ensures Continues(cfg, w, u) && Inv(cfg, u) && At(u.m, c, Counting)
    ensures u.m.cb == v.m.cb && u.probes == v.probes
  {
    c := SomeoneElse(v.m.calls.Keys);
    ObserveKeeps(cfg, v, Look(c));
    var looked := Goes(cfg, w, v, Look(c));
    ObserveKeeps(cfg, looked, Decide(c));
    u := Goes(cfg, w, looked, Decide(c));
  }

  lemma AdmitOne(cfg: Config, w: Watch, v: Watch) returns (u: Watch)
    requires Continues(cfg, w, v) && Inv(cfg, v) && v.m.cb.mode == HalfOpen && v.m.cb.halfOpen < cfg.maxHalfOpen
    ensures Continues(cfg, w, u) && Inv(cfg, u) && u.m.cb.mode == HalfOpen
    ensures u.m.cb.halfOpen == v.m.cb.halfOpen + 1 && |u.probes| == |v.probes| + 1
  {
    var counting, c := ComesToCount(cfg, w, v);
    ObserveProbe(cfg, counting, c);
    u := Goes(cfg, w, counting, Count(c));
  }

  lemma Admit(cfg: Config, w: Watch, v: Watch, n: nat) returns (u: Watch)
    requires Continues(cfg, w, v) && Inv(cfg, v) && v.m.cb.mode == HalfOpen && v.m.cb.halfOpen + n <= cfg.maxHalfOpen
    ensures Continues(cfg, w, u) && |u.probes| == |v.probes| + n
    decreases n
  {
    u := v;
    if n > 0 {
      var next := AdmitOne(cfg, w, v);
      u := Admit(cfg, w, next, n - 1);
    }
  }

  /** From its opening state an episode can admit `n` probes if and only if `n` is at most the configured
      number plus the number of holders from before that do not run their function any more. */
  lemma EpisodeAdmitsExactly(cfg: Config, w: Watch, n: nat)
    requires Opening(cfg, w)
    ensures (exists v :: Continues(cfg, w, v) && |v.probes| == n) <==> n <= cfg.maxHalfOpen + |Leaving(w)|
  {
    if v :| Continues(cfg, w, v) && |v.probes| == n {
      var es :| InEpisode(cfg, w, es) && Run(cfg, w, es) == v;
      EpisodeKeeps(cfg, w, es);
    }
    if n <= cfg.maxHalfOpen + |Leaving(w)| {
      assert InEpisode(cfg, w, []) && Run(cfg, w, []) == w;
      assert Pending(w) == Leaving(w);
      var v := Leave(cfg, w, w);
      v := Admit(cfg, w, v, n);
      assert |v.probes| == n;
    }
  }

  /** So with the limit of one, an episode keeps to one probe exactly if every call that holds the counter
      when it opens still runs its function. */
  lemma OneProbeIff(cfg: Config, w: Watch)
    requires Opening(cfg, w) && cfg.maxHalfOpen == 1
    ensures (forall v :: Continues(cfg, w, v) ==> |v.probes| <= 1) <==> forall c :: c in Holders(w.m) ==> Runs(w.m, c)
  {
    if forall c :: c in Holders(w.m) ==> Runs(w.m, c) {
      assert Leaving(w) == {};
      forall v | Continues(cfg, w, v) ensures |v.probes| <= 1 { EpisodeAdmitsExactly(cfg, w, |v.probes|); }
    } else {
      var c :| c in Holders(w.m) && !Runs(w.m, c);
      SubsetSize({c}, Leaving(w));
      EpisodeAdmitsExactly(cfg, w, 2);
      var v :| Continues(cfg, w, v) && |v.probes| == 2;
      assert !(|v.probes| <= 1);
    }
  }

  /** Episodes open in such states: the step that opens one leaves no probe, and the holders it finds. */
  lemma PromotionOpens(cfg: Config, w: Watch, c: nat)
    requires Inv(cfg, w) && At(w.m, c, Promoting) && w.m.cb.mode == Open && Elapsed(cfg, w.m.cb, w.m.now)
    ensures Opening(cfg, Observe(cfg, w, Promote(c)))
  {
    ObserveKeeps(cfg, w, Promote(c));
  }
}
