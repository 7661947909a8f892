/** How long the cache keeps a thread: 24 hours from its last use, and whatever happens to it in between. */
module ThreadLifetimes {
  import opened Wrappers
  import opened ThreadState
  import opened ThreadRuns
  import opened ThreadOwnership
  import opened ThreadConversations
  import opened ThreadMemory

  // ---- The periodic clean-up ---------------------------------------------------------------------------

  /** A key survives exactly if the last clean-up is less than an hour old or its thread was used in the last
      24 hours; what survives leads where it did. */
  lemma CleanupKeeps(s: State, now: int, k: string)
    requires Wf(s) && k in s.known
    ensures k in Cleanup(s, now).known
            <==> now - s.lastCleanup < HOUR || s.store[s.known[k]].lastAccessed >= now - 24 * HOUR
    ensures k in Cleanup(s, now).known ==> Cleanup(s, now).known[k] == s.known[k]
  {
  }

  /** The clean-up loses a thread exactly if it was not used in the last 24 hours. */
  lemma ExpiresIff(s: State, now: int, t: EmailThread)
    requires Wf(s) && t in Live(s)
    ensures t in Expiring(s, now) <==> now - s.lastCleanup >= HOUR && s.store[t].lastAccessed < now - 24 * HOUR
    ensures t in Expiring(s, now) <==> t !in Live(Cleanup(s, now))
  {
    var k :| k in s.known && s.known[k] == t;
    CleanupKeeps(s, now, k);
    if t in Live(Cleanup(s, now)) {
      var j :| j in Cleanup(s, now).known && Cleanup(s, now).known[j] == t;
      assert j in s.known && s.known[j] == t;
    }
  }

  /** At most one clean-up an hour: the next one within the hour changes nothing. */
  lemma CleanupIsHourly(s: State, now: int, next: int)
    requires Wf(s)
    ensures Cleanup(s, now).lastCleanup == if now - s.lastCleanup < HOUR then s.lastCleanup else now
    ensures now <= next < now + HOUR && now - s.lastCleanup >= HOUR ==>
              (CleanupWf(s, now); Cleanup(Cleanup(s, now), next) == Cleanup(s, now))
  {
    CleanupWf(s, now);
  }

  // ---- When a thread was last used ---------------------------------------------------------------------

  function Used(s: State, t: EmailThread): int
    requires t in s.store
  {
    s.store[t].lastAccessed
  }

  lemma CacheUses(s: State, receiver: string, f: EmailThread, now: int, victims: set<string>, t: EmailThread)
    requires Wf(s) && f in s.store && t in s.store
    ensures var r := CacheThread(s, receiver, f, now, victims);
            t in r.store && Used(r, t) == if f == t && s.store[t].threadID != "" then now else Used(s, t)
  {
    CacheWf(s, receiver, f, now, victims);
  }

  lemma GetUses(s: State, receiver: string, id: string, now: int, t: EmailThread)
    requires Wf(s) && t in s.store
    ensures var (g, hit) := GetThreadByID(s, receiver, id, now);
            t in g.store && Used(g, t) == if hit == Some(t) then now else Used(s, t)
  {
    CleanupWf(s, now);
  }

  lemma DetermineUses(s: State, e: Event, t: EmailThread)
    requires Wf(s) && e.Inbound? && e.spare !in s.store && t in s.store
    ensures var d := DetermineThread(s, e.receiver, e.email, e.resolver, e.spare, e.now, e.v1).0;
            t in d.store && Used(d, t) in {Used(s, t), e.now}
  {
    var tid := Resolved(e.resolver, Parents(e.email));
    if DetermineMakes(s, e.receiver, e.email, e.resolver) {
      MakesCreates(s, e.receiver, e.email, e.resolver, e.spare, e.now, e.v1);
      CreatedWf(s, e.email, e.spare, e.now);
      BoundedWf(Created(s, e.email, e.spare, e.now), e.v1);
    } else if tid.Some? {
      GetWf(s, e.receiver, tid.value, e.now);
      GetUses(s, e.receiver, tid.value, e.now, t);
    } else {
      MatchWf(s, e.receiver, e.email);
    }
  }

  lemma OpenUses(w: World, receiver: string, id: string, spare: EmailThread, now: int, victims: set<string>,
                 t: EmailThread)
    requires Wf(w.tm) && spare !in w.tm.store && t in w.tm.store
    ensures var s := OpenPortal(w, receiver, id, spare, now, victims).0;
            t in s.store && Used(s, t) in {Used(w.tm, t), now}
  {
    if id != "" {
      GetWf(w.tm, receiver, id, now);
      GetUses(w.tm, receiver, id, now, t);
      var (g, hit) := GetThreadByID(w.tm, receiver, id, now);
      if hit == None && Restorable(w, receiver, id) {
        CacheUses(g.(store := g.store[spare := Restored(w.portals[(receiver, id)])]), receiver, spare, now, victims, t);
      }
    }
  }

  lemma InboundUses(w: World, e: Event, t: EmailThread)
    requires Wf(w.tm) && Legal(w, e) && e.Inbound? && t in w.tm.store
    ensures t in Step(w, e).tm.store && Used(Step(w, e).tm, t) in {Used(w.tm, t), e.now}
  {
    DetermineWf(w.tm, e.receiver, e.email, e.resolver, e.spare, e.now, e.v1);
    DetermineUses(w.tm, e, t);
    var (d, f) := DetermineThread(w.tm, e.receiver, e.email, e.resolver, e.spare, e.now, e.v1);
    CacheUses(d, e.receiver, f, e.now, e.v2, t);
  }

  lemma SendUses(w: World, e: Event, t: EmailThread)
    requires Wf(w.tm) && Legal(w, e) && e.Send? && t in w.tm.store
    ensures t in Step(w, e).tm.store && Used(Step(w, e).tm, t) in {Used(w.tm, t), e.now}
  {
    OpenWf(w, e.receiver, e.id, e.spare, e.now, e.v1);
    OpenUses(w, e.receiver, e.id, e.spare, e.now, e.v1, t);
    var (s, hit) := OpenPortal(w, e.receiver, e.id, e.spare, e.now, e.v1);
    if hit.Some? { CacheUses(Sent(s, hit.value, e.key), e.receiver, hit.value, e.now, e.v2, t); }
  }

  /** An event leaves the time of a thread's last use alone or sets it to its own. */
  lemma StepUses(w: World, e: Event, t: EmailThread)
    requires Wf(w.tm) && Legal(w, e) && t in w.tm.store
    ensures t in Step(w, e).tm.store && Used(Step(w, e).tm, t) in {Used(w.tm, t), e.now}
  {
    match e
    case Inbound(_, _, _, _, _, _, _) => InboundUses(w, e, t);
    case Compose(receiver, id, subject, spare, now, v1) =>
      CacheUses(w.tm.(store := w.tm.store[spare := DraftData(id, subject)]), receiver, spare, now, v1, t);
    case Open(receiver, id, spare, now, v1) => OpenUses(w, receiver, id, spare, now, v1, t);
    case Find(receiver, id, now) => GetUses(w.tm, receiver, id, now, t);
    case Send(_, _, _, _, _, _, _) => SendUses(w, e, t);
  }

  /** An answer uses the thread of its conversation, and so does a message that the bridge sends into it. */
  lemma SpeakingUses(w: World, e: Event, t: EmailThread, conversation: set<string>)
    requires SoundWorld(w) && Legal(w, e) && Owns(w.tm, t, conversation)
    requires Answers(w, e, conversation) || Speaks(w, e, t)
    ensures t in Step(w, e).tm.store && Used(Step(w, e).tm, t) == e.now
  {
    if Answers(w, e, conversation) {
      AnswerMatches(w, e, t, conversation);
      CacheUses(AddTo(w.tm, t, e.email), e.receiver, t, e.now, e.v2, t);
    } else {
      SendSteps(w, e, t);
      OpenGrows(w, e.receiver, e.id, e.spare, e.now, e.v1, t);
      CacheUses(Sent(Opened(w, e), t, e.key), e.receiver, t, e.now, e.v2, t);
    }
  }

  // ---- A conversation that does not rest for a day ------------------------------------------------------

  /** When the conversation last had a message. */
  function Spoken(w: World, e: Event, t: EmailThread, conversation: set<string>, at: int): int
    requires Wf(w.tm)
  {
    if Answers(w, e, conversation) || Speaks(w, e, t) then e.now else at
  }

  /** The clock never runs behind the last message, no event that cleans up comes more than 24 hours after it,
      the thread is not evicted, and no other thread claims a message. */
  ghost predicate Lively(w: World, es: seq<Event>, t: EmailThread, conversation: set<string>, at: int)
    requires Wf(w.tm)
    decreases |es|
  {
    es == [] ||
    (&& Legal(w, es[0]) && at <= es[0].now && (CleansUp(es[0]) ==> es[0].now <= at + 24 * HOUR)
     && t !in EvictedBy(w, es[0]) && Unclaimed(w, es[0], t, Joined(w, es[0], t, conversation))
     && (StepWf(w, es[0]);
         Lively(Step(w, es[0]), es[1..], t, Joined(w, es[0], t, conversation),
                Spoken(w, es[0], t, conversation, at))))
  }

  /** Then nothing disturbs it: a thread does not expire while its conversation goes on. */
  lemma {:induction false} LivelyIsUndisturbed(w: World, es: seq<Event>, t: EmailThread, conversation: set<string>,
                                               at: int)
    requires SoundWorld(w) && Owns(w.tm, t, conversation) && Used(w.tm, t) >= at
    requires Lively(w, es, t, conversation, at)
    ensures Undisturbed(w, es, t, conversation)
    decreases |es|
  {
    if es != [] {
      if t in Expiring(w.tm, es[0].now) { ExpiresIff(w.tm, es[0].now, t); }
      StepWf(w, es[0]);
      StepSound(w, es[0]);
      StepUses(w, es[0], t);
      ConversationStep(w, es[0], t, conversation);
      if Answers(w, es[0], conversation) || Speaks(w, es[0], t) { SpeakingUses(w, es[0], t, conversation); }
      LivelyIsUndisturbed(Step(w, es[0]), es[1..], t, Joined(w, es[0], t, conversation),
                          Spoken(w, es[0], t, conversation, at));
    }
  }

  /** A conversation with a message at least every 24 hours stays in one room. */
  lemma LivelyConversation(w: World, es: seq<Event>, t: EmailThread, conversation: set<string>, at: int)
    requires SoundWorld(w) && Owns(w.tm, t, conversation) && Used(w.tm, t) >= at
    requires Lively(w, es, t, conversation, at)
    ensures StaysTogether(w, es, t, conversation, w.tm.store[t].threadID)
    ensures Owns(Run(w, es).tm, t, Conversation(w, es, t, conversation))
  {
    LivelyIsUndisturbed(w, es, t, conversation, at);
    ConversationClosed(w, es, t, conversation);
  }

  // ---- A key that was used within a day -----------------------------------------------------------------

  /** The key leads to a thread that was used at time `n` or later. */
  ghost predicate Fresh(s: State, k: string, n: int) {
    Wf(s) && k in s.known && s.known[k] in s.store && s.store[s.known[k]].lastAccessed >= n
  }

  predicate Today(n: int, now: int) {
    n <= now <= n + 24 * HOUR
  }

  lemma CleanupFresh(s: State, now: int, k: string, n: int)
    requires Fresh(s, k, n) && Today(n, now)
    ensures Fresh(Cleanup(s, now), k, n)
  {
    CleanupWf(s, now);
    CleanupKeeps(s, now, k);
  }

  lemma GetFresh(s: State, receiver: string, id: string, now: int, k: string, n: int)
    requires Fresh(s, k, n) && Today(n, now)
    ensures Fresh(GetThreadByID(s, receiver, id, now).0, k, n)
  {
    GetWf(s, receiver, id, now);
    CleanupFresh(s, now, k, n);
  }

  lemma BoundedFresh(s: State, victims: set<string>, k: string, n: int)
    requires Fresh(s, k, n) && Evicted(s, victims) == {}
    ensures Fresh(Bounded(s, victims), k, n)
  {
    BoundedWf(s, victims);
    if k in victims { VictimsThreads(s, victims, k); }
  }

  lemma VictimsThreads(s: State, victims: set<string>, k: string)
    requires Wf(s) && k in s.known && k in victims
    ensures s.known[k] in At(s, victims)
  {
  }

  lemma CacheFresh(s: State, receiver: string, f: EmailThread, now: int, victims: set<string>, k: string, n: int)
    requires Fresh(s, k, n) && f in s.store && n <= now && FilingEvicts(s, receiver, f, now, victims) == {}
    ensures Fresh(CacheThread(s, receiver, f, now, victims), k, n)
  {
    if s.store[f].threadID != "" {
      FiledWf(s, receiver, f, now);
      BoundedFresh(Filed(s, receiver, f, now), victims, k, n);
    }
  }

  /** Filing a thread makes its key fresh. */
  lemma CacheRefreshes(s: State, receiver: string, f: EmailThread, now: int, victims: set<string>)
    requires Wf(s) && f in s.store && s.store[f].threadID != "" && FilingEvicts(s, receiver, f, now, victims) == {}
    ensures var r := CacheThread(s, receiver, f, now, victims); var k := Key(receiver, s.store[f].threadID);
            Fresh(r, k, now) && r.known[k] == f
  {
    FiledWf(s, receiver, f, now);
    var p := Filed(s, receiver, f, now);
    assert Fresh(p, Key(receiver, s.store[f].threadID), now);
    BoundedFresh(p, victims, Key(receiver, s.store[f].threadID), now);
  }

  lemma DetermineFresh(s: State, e: Event, k: string, n: int)
    requires Fresh(s, k, n) && e.Inbound? && e.spare !in s.store && Today(n, e.now) && DeterminingEvicts(s, e) == {}
    ensures Fresh(DetermineThread(s, e.receiver, e.email, e.resolver, e.spare, e.now, e.v1).0, k, n)
  {
    DetermineWf(s, e.receiver, e.email, e.resolver, e.spare, e.now, e.v1);
    var tid := Resolved(e.resolver, Parents(e.email));
    if DetermineMakes(s, e.receiver, e.email, e.resolver) {
      MakesCreates(s, e.receiver, e.email, e.resolver, e.spare, e.now, e.v1);
      CreatedWf(s, e.email, e.spare, e.now);
      BoundedFresh(Created(s, e.email, e.spare, e.now), e.v1, k, n);
    } else if tid.Some? {
      GetWf(s, e.receiver, tid.value, e.now);
      GetFresh(s, e.receiver, tid.value, e.now, k, n);
    } else {
      MatchWf(s, e.receiver, e.email);
    }
  }

  lemma OpenFresh(w: World, receiver: string, id: string, spare: EmailThread, now: int, victims: set<string>,
                  k: string, n: int)
    requires Fresh(w.tm, k, n) && spare !in w.tm.store && Today(n, now)
    requires OpeningEvicts(w, receiver, id, spare, now, victims) == {}
    ensures Fresh(OpenPortal(w, receiver, id, spare, now, victims).0, k, n)
  {
    if id != "" {
      GetWf(w.tm, receiver, id, now);
      GetFresh(w.tm, receiver, id, now, k, n);
      var (g, hit) := GetThreadByID(w.tm, receiver, id, now);
      if hit == None && Restorable(w, receiver, id) {
        CacheFresh(g.(store := g.store[spare := Restored(w.portals[(receiver, id)])]), receiver, spare, now, victims,
                   k, n);
      }
    }
  }

  lemma InboundFresh(w: World, e: Event, k: string, n: int)
    requires Fresh(w.tm, k, n) && Legal(w, e) && e.Inbound? && Today(n, e.now) && EvictedBy(w, e) == {}
    ensures Fresh(Step(w, e).tm, k, n)
  {
    DetermineWf(w.tm, e.receiver, e.email, e.resolver, e.spare, e.now, e.v1);
    DetermineFresh(w.tm, e, k, n);
    var (d, f) := DetermineThread(w.tm, e.receiver, e.email, e.resolver, e.spare, e.now, e.v1);
    CacheFresh(d, e.receiver, f, e.now, e.v2, k, n);
  }

  lemma SendFresh(w: World, e: Event, k: string, n: int)
    requires Fresh(w.tm, k, n) && Legal(w, e) && e.Send? && Today(n, e.now) && EvictedBy(w, e) == {}
    ensures Fresh(Step(w, e).tm, k, n)
  {
    OpenWf(w, e.receiver, e.id, e.spare, e.now, e.v1);
    OpenFresh(w, e.receiver, e.id, e.spare, e.now, e.v1, k, n);
    var (s, hit) := OpenPortal(w, e.receiver, e.id, e.spare, e.now, e.v1);
    if hit.Some? { CacheFresh(Sent(s, hit.value, e.key), e.receiver, hit.value, e.now, e.v2, k, n); }
  }

  lemma StepFresh(w: World, e: Event, k: string, n: int)
    requires Fresh(w.tm, k, n) && Legal(w, e) && Today(n, e.now) && EvictedBy(w, e) == {}
    ensures Fresh(Step(w, e).tm, k, n)
  {
    match e
    case Inbound(_, _, _, _, _, _, _) => InboundFresh(w, e, k, n);
    case Compose(receiver, id, subject, spare, now, v1) =>
      CacheFresh(w.tm.(store := w.tm.store[spare := DraftData(id, subject)]), receiver, spare, now, v1, k, n);
    case Open(receiver, id, spare, now, v1) => OpenFresh(w, receiver, id, spare, now, v1, k, n);
    case Find(receiver, id, now) => GetFresh(w.tm, receiver, id, now, k, n);
    case Send(_, _, _, _, _, _, _) => SendFresh(w, e, k, n);
  }

  /** A run within 24 hours of time `n` that evicts nothing. */
  ghost predicate WithinADay(w: World, es: seq<Event>, n: int)
    requires Wf(w.tm)
    decreases |es|
  {
    es == [] ||
    (&& Legal(w, es[0]) && Today(n, es[0].now) && EvictedBy(w, es[0]) == {}
     && (StepWf(w, es[0]); WithinADay(Step(w, es[0]), es[1..], n)))
  }

  lemma {:induction false} RunFresh(w: World, es: seq<Event>, k: string, n: int)
    requires Wf(w.tm) && Fresh(w.tm, k, n) && WithinADay(w, es, n)
    ensures Fresh(Run(w, es).tm, k, n)
    decreases |es|
  {
    if es != [] {
      StepWf(w, es[0]);
      StepFresh(w, es[0], k, n);
      RunFresh(Step(w, es[0]), es[1..], k, n);
    }
  }

  /** A key that was used at time `n` or later is found by its receiver 24 hours on, whatever happens to the
      cache meanwhile, save evictions. */
  lemma FoundForADay(w: World, es: seq<Event>, receiver: string, id: string, n: int, now: int)
    requires Wf(w.tm) && (Fresh(w.tm, Key(receiver, id), n) || Fresh(w.tm, id, n))
    requires WithinADay(w, es, n) && Today(n, now)
    ensures GetThreadByID(Run(w, es).tm, receiver, id, now).1.Some?
  {
    var k := if Fresh(w.tm, Key(receiver, id), n) then Key(receiver, id) else id;
    RunFresh(w, es, k, n);
    CleanupFresh(Run(w, es).tm, now, k, n);
  }

  // ---- The same thread ----------------------------------------------------------------------------------

  /** The event files another thread under one of the keys that lead the receiver to `id`. */
  ghost predicate Replaces(w: World, e: Event, receiver: string, id: string, t: EmailThread)
    requires Wf(w.tm)
  {
    var f := Filing(w, e);
    && f.Some? && f.value != t && f.value in Step(w, e).tm.store
    && var own := Step(w, e).tm.store[f.value].threadID; {own, Key(e.receiver, own)} * {id, Key(receiver, id)} != {}
  }

  ghost predicate ReplacedNever(w: World, es: seq<Event>, receiver: string, id: string, t: EmailThread)
    requires Wf(w.tm)
    decreases |es|
  {
    es == [] ||
    (!Replaces(w, es[0], receiver, id, t)
     && (StepWf(w, es[0]); ReplacedNever(Step(w, es[0]), es[1..], receiver, id, t)))
  }

  /** The receiver finds this thread under the ID, and it was used at time `n` or later. */
  ghost predicate Finds(s: State, receiver: string, id: string, t: EmailThread, n: int) {
    Wf(s) && Lookup(s, receiver, id) == Some(t) && t in s.store && s.store[t].lastAccessed >= n
  }

  lemma StepFinds(w: World, e: Event, receiver: string, id: string, t: EmailThread, n: int)
    requires SoundWorld(w) && Finds(w.tm, receiver, id, t, n) && Legal(w, e) && Today(n, e.now)
    requires EvictedBy(w, e) == {} && !Replaces(w, e, receiver, id, t)
    ensures Finds(Step(w, e).tm, receiver, id, t, n)
  {
    var key := Key(receiver, id);
    StepWf(w, e);
    StepUses(w, e, t);
    StepKnown(w, e);
    StepFresh(w, e, if key in w.tm.known then key else id, n);
    var r := Step(w, e).tm;
    forall k | k in r.known && k in {id, key}
      ensures r.known[k] == t || (k in w.tm.known && r.known[k] == w.tm.known[k]) {
      var f := Filing(w, e);
      if f.Some? && r.known[k] == f.value {
        var own := r.store[f.value].threadID;
        assert k in {own, Key(e.receiver, own)} ==> k in {own, Key(e.receiver, own)} * {id, key};
      }
    }
  }

  /** Unless another thread is filed under its keys, it is the same thread that is found. */
  lemma {:induction false} SameForADay(w: World, es: seq<Event>, receiver: string, id: string, t: EmailThread,
                                       n: int, now: int)
    requires SoundWorld(w) && Finds(w.tm, receiver, id, t, n) && WithinADay(w, es, n) && Today(n, now)
    requires ReplacedNever(w, es, receiver, id, t)
    ensures GetThreadByID(Run(w, es).tm, receiver, id, now).1 == Some(t)
    decreases |es|
  {
    if es != [] {
      StepWf(w, es[0]);
      StepSound(w, es[0]);
      StepFinds(w, es[0], receiver, id, t, n);
      SameForADay(Step(w, es[0]), es[1..], receiver, id, t, n, now);
    } else {
      CleanupFresh(w.tm, now, if Key(receiver, id) in w.tm.known then Key(receiver, id) else id, n);
      CleanupWf(w.tm, now);
    }
  }

  /** Once an event has filed a thread, its receiver finds it. */
  lemma FilingFinds(w: World, e: Event, t: EmailThread)
    requires SoundWorld(w) && Legal(w, e) && Filing(w, e) == Some(t) && EvictedBy(w, e) == {}
    requires t in Step(w, e).tm.store && Step(w, e).tm.store[t].threadID != ""
    ensures Finds(Step(w, e).tm, e.receiver, Step(w, e).tm.store[t].threadID, t, e.now)
  {
    match e
    case Inbound(receiver, email, resolver, spare, now, v1, v2) =>
      DetermineWf(w.tm, receiver, email, resolver, spare, now, v1);
      var (d, f) := DetermineThread(w.tm, receiver, email, resolver, spare, now, v1);
      FiledFinds(d, receiver, f, now, v2);
    case Compose(receiver, id, subject, spare, now, v1) =>
      FiledFinds(w.tm.(store := w.tm.store[spare := DraftData(id, subject)]), receiver, spare, now, v1);
    case Open(receiver, id, spare, now, v1) =>
      GetWf(w.tm, receiver, id, now);
      var g := GetThreadByID(w.tm, receiver, id, now).0;
      FiledFinds(g.(store := g.store[spare := Restored(w.portals[(receiver, id)])]), receiver, spare, now, v1);
    case Find(_, _, _) =>
    case Send(receiver, id, key, spare, now, v1, v2) =>
      SendSteps(w, e, t);
      FiledFinds(Sent(Opened(w, e), t, key), receiver, t, now, v2);
  }

  lemma FiledFinds(s: State, receiver: string, t: EmailThread, now: int, victims: set<string>)
    requires Wf(s) && t in s.store && FilingEvicts(s, receiver, t, now, victims) == {}
    ensures var r := CacheThread(s, receiver, t, now, victims);
            t in r.store && (r.store[t].threadID != "" ==> Finds(r, receiver, r.store[t].threadID, t, now))
  {
    SameIds(s, receiver, t, now, victims, t);
    if s.store[t].threadID != "" { CacheRefreshes(s, receiver, t, now, victims); }
  }

  /** Once a lookup has found a thread, it finds it again. */
  lemma FindingFinds(w: World, e: Event, t: EmailThread)
    requires Wf(w.tm) && e.Find? && GetThreadByID(w.tm, e.receiver, e.id, e.now).1 == Some(t)
    ensures Finds(Step(w, e).tm, e.receiver, e.id, t, e.now)
  {
    GetWf(w.tm, e.receiver, e.id, e.now);
  }

  /** So a thread that an event files or finds is found under its receiver for the next 24 hours. */
  lemma UsedIsFoundForADay(w: World, e: Event, t: EmailThread, id: string, es: seq<Event>, now: int)
    requires SoundWorld(w) && Legal(w, e) && EvictedBy(w, e) == {}
    requires (Filing(w, e) == Some(t) && t in Step(w, e).tm.store && Step(w, e).tm.store[t].threadID == id != "")
             || (e.Find? && e.id == id && GetThreadByID(w.tm, e.receiver, id, e.now).1 == Some(t))
    requires (StepWf(w, e); WithinADay(Step(w, e), es, e.now)) && Today(e.now, now)
    ensures (StepWf(w, e); GetThreadByID(Run(Step(w, e), es).tm, e.receiver, id, now).1.Some?)
    ensures (StepWf(w, e); ReplacedNever(Step(w, e), es, e.receiver, id, t)) ==>
              (StepWf(w, e); GetThreadByID(Run(Step(w, e), es).tm, e.receiver, id, now).1 == Some(t))
  {
    StepWf(w, e);
    StepSound(w, e);
    if e.Find? { FindingFinds(w, e, t); } else { FilingFinds(w, e, t); }
    FoundForADay(Step(w, e), es, e.receiver, id, e.now, now);
    if ReplacedNever(Step(w, e), es, e.receiver, id, t) {
      SameForADay(Step(w, e), es, e.receiver, id, t, e.now, now);
    }
  }
}
