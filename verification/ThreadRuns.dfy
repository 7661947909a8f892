/** Whole runs of the thread cache: every entry point of the bridge that touches it is an event, and a run
    is any sequence of events. The portal metadata a send saves is part of the state, so that a run can
    lose a thread from the cache and restore it. */
module ThreadRuns {
  import opened Wrappers
  import opened ThreadState

  /** What is saved beside a Matrix room about its thread. */
  datatype Metadata = Metadata(
    threadID: string,
    subject: string,
    references: seq<string>,
    lastMessageID: string,
    isDraft: bool,
    gmailThreadID: string)

  type Portal = (string, string)  // receiver and thread ID

  datatype World = World(tm: State, portals: map<Portal, Metadata>)

  /** `spare` is the object Go allocates if the event makes a thread; `v1` and `v2` are the keys a size
      eviction removes, in the order in which evictions can happen. `Find` only looks a thread up. */
  datatype Event =
    | Inbound(receiver: string, email: Email, resolver: map<string, string>, spare: EmailThread, now: int,
              v1: set<string>, v2: set<string>)
    | Compose(receiver: string, id: string, subject: string, spare: EmailThread, now: int, v1: set<string>)
    | Open(receiver: string, id: string, spare: EmailThread, now: int, v1: set<string>)
    | Find(receiver: string, id: string, now: int)
    | Send(receiver: string, id: string, key: string, spare: EmailThread, now: int,
           v1: set<string>, v2: set<string>)

  // ---- Events --------------------------------------------------------------------------------------

  /** DetermineThread followed by CacheForReceiver, as the processor calls them. */
  function Receive(s: State, e: Event): (State, EmailThread)
    requires Wf(s) && e.Inbound?
  {
    DetermineWf(s, e.receiver, e.email, e.resolver, e.spare, e.now, e.v1);
    var (d, t) := DetermineThread(s, e.receiver, e.email, e.resolver, e.spare, e.now, e.v1);
    (CacheThread(d, e.receiver, t, e.now, e.v2), t)
  }

  function DraftData(id: string, subject: string): ThreadData {
    ThreadData(id, subject, "", "", [], true, "", 0)
  }

  function Saved(d: ThreadData): Metadata {
    Metadata(d.threadID, d.subject, d.references, d.messageID, d.isDraft, d.gmailThreadID)
  }

  function Restored(m: Metadata): ThreadData {
    ThreadData(m.threadID, m.subject, m.lastMessageID, "", m.references, m.isDraft, m.gmailThreadID, 0)
  }

  predicate Restorable(w: World, receiver: string, id: string) {
    (receiver, id) in w.portals && w.portals[(receiver, id)].threadID != "" && w.portals[(receiver, id)].threadID == id
  }

  /** Puts a new object with contents `d` into the cache. */
  function Install(s: State, receiver: string, spare: EmailThread, d: ThreadData, now: int, victims: set<string>): State
    requires Wf(s)
  {
    CacheThread(s.(store := s.store[spare := d]), receiver, spare, now, victims)
  }

  /** resolveThreadForPortalWithMetadata: the cached thread, else one rebuilt from the portal's metadata. */
  function OpenPortal(w: World, receiver: string, id: string, spare: EmailThread, now: int,
                      victims: set<string>): (State, Option<EmailThread>)
    requires Wf(w.tm)
  {
    if id == "" then (w.tm, None)
    else
      GetWf(w.tm, receiver, id, now);
      var (g, hit) := GetThreadByID(w.tm, receiver, id, now);
      if hit.Some? then (g, hit)
      else if Restorable(w, receiver, id)
      then (Install(g, receiver, spare, Restored(w.portals[(receiver, id)]), now, victims), Some(spare))
      else (g, None)
  }

  /** A thread's contents after a message with this ID went out. */
  function SentData(d: ThreadData, key: string): ThreadData {
    d.(references := d.references + [key], messageID := key, isDraft := false)
  }

  function Sent(s: State, t: EmailThread, key: string): State
    requires t in s.store
  {
    s.(store := s.store[t := SentData(s.store[t], key)])
  }

  function SendInto(w: World, e: Event): World
    requires Wf(w.tm) && e.Send?
  {
    OpenWf(w, e.receiver, e.id, e.spare, e.now, e.v1);
    var (s, hit) := OpenPortal(w, e.receiver, e.id, e.spare, e.now, e.v1);
    if hit == None then w.(tm := s)
    else
      var sent := Sent(s, hit.value, e.key);
      World(CacheThread(sent, e.receiver, hit.value, e.now, e.v2),
            w.portals[(e.receiver, e.id) := Saved(sent.store[hit.value])])
  }

  function Step(w: World, e: Event): World
    requires Wf(w.tm)
  {
    match e
    case Inbound(_, _, _, _, _, _, _) => w.(tm := Receive(w.tm, e).0)
    case Compose(receiver, id, subject, spare, now, v1) =>
      World(Install(w.tm, receiver, spare, DraftData(id, subject), now, v1),
            w.portals[(receiver, id) := Saved(DraftData(id, subject))])
    case Open(receiver, id, spare, now, v1) => w.(tm := OpenPortal(w, receiver, id, spare, now, v1).0)
    case Find(receiver, id, now) => w.(tm := GetThreadByID(w.tm, receiver, id, now).0)
    case Send(_, _, _, _, _, _, _) => SendInto(w, e)
  }

  /** The object an event may allocate is a new one, and the fallback ID of an email, which ends in its date,
      is never empty. */
  predicate Legal(w: World, e: Event) {
    (e.Find? || e.spare !in w.tm.store) && (e.Inbound? ==> e.email.generatedID != "")
  }

  ghost function Run(w: World, es: seq<Event>): World
    requires Wf(w.tm)
    ensures Wf(Run(w, es).tm)
    decreases |es|
  {
    if es == [] then w else StepWf(w, es[0]); Run(Step(w, es[0]), es[1..])
  }

  ghost predicate LegalRun(w: World, es: seq<Event>)
    requires Wf(w.tm)
    decreases |es|
  {
    es == [] || (Legal(w, es[0]) && (StepWf(w, es[0]); LegalRun(Step(w, es[0]), es[1..])))
  }

  function Empty(now: int): World {
    World(State(map[], map[], map[], map[], now), map[])
  }

  lemma InstallWf(s: State, receiver: string, spare: EmailThread, d: ThreadData, now: int, victims: set<string>)
    requires Wf(s)
    ensures Wf(Install(s, receiver, spare, d, now, victims))
    ensures Install(s, receiver, spare, d, now, victims).store.Keys == s.store.Keys + {spare}
  {
    CacheWf(s.(store := s.store[spare := d]), receiver, spare, now, victims);
  }

  lemma CacheWf(s: State, receiver: string, t: EmailThread, now: int, victims: set<string>)
    requires Wf(s) && t in s.store
    ensures Wf(CacheThread(s, receiver, t, now, victims))
    ensures CacheThread(s, receiver, t, now, victims).store
         == if s.store[t].threadID == "" then s.store else Touch(s, t, now).store
  {
    if s.store[t].threadID != "" {
      FiledWf(s, receiver, t, now);
      BoundedWf(Filed(s, receiver, t, now), victims);
    }
  }

  lemma OpenWf(w: World, receiver: string, id: string, spare: EmailThread, now: int, victims: set<string>)
    requires Wf(w.tm)
    ensures var (s, hit) := OpenPortal(w, receiver, id, spare, now, victims);
            Wf(s) && (hit.Some? ==> hit.value in s.store)
  {
    GetWf(w.tm, receiver, id, now);
    var (g, hit) := GetThreadByID(w.tm, receiver, id, now);
    if hit == None && Restorable(w, receiver, id) {
      InstallWf(g, receiver, spare, Restored(w.portals[(receiver, id)]), now, victims);
    }
  }

  lemma StepWf(w: World, e: Event)
    requires Wf(w.tm)
    ensures Wf(Step(w, e).tm)
  {
    match e
    case Inbound(_, _, _, _, _, _, _) =>
      DetermineWf(w.tm, e.receiver, e.email, e.resolver, e.spare, e.now, e.v1);
      var (d, t) := DetermineThread(w.tm, e.receiver, e.email, e.resolver, e.spare, e.now, e.v1);
      CacheWf(d, e.receiver, t, e.now, e.v2);
    case Compose(receiver, id, subject, spare, now, v1) =>
      InstallWf(w.tm, receiver, spare, DraftData(id, subject), now, v1);
    case Open(receiver, id, spare, now, v1) => OpenWf(w, receiver, id, spare, now, v1);
    case Find(receiver, id, now) => GetWf(w.tm, receiver, id, now);
    case Send(_, _, _, _, _, _, _) =>
      OpenWf(w, e.receiver, e.id, e.spare, e.now, e.v1);
      var (s, hit) := OpenPortal(w, e.receiver, e.id, e.spare, e.now, e.v1);
      if hit.Some? {
        CacheWf(Sent(s, hit.value, e.key), e.receiver, hit.value, e.now, e.v2);
      }
  }

  // ---- Soundness over every run --------------------------------------------------------------------

  /** The tail of a thread is one of its own IDs by another route, so moving the tail forgets no ID. */
  predicate TailKept(d: ThreadData) {
    d.messageID == "" || d.messageID == d.threadID || d.messageID in d.references
  }

  ghost predicate Sound(s: State) {
    && Wf(s)
    && (forall id :: id in s.index ==> id in Ids(s.store[s.index[id]]))
    && (forall t :: t in s.store ==> TailKept(s.store[t]))
  }

  ghost predicate SoundWorld(w: World) {
    Sound(w.tm) && forall p :: p in w.portals ==> TailKept(Restored(w.portals[p]))
  }

  lemma RemoveKeysSound(s: State, keys: set<string>)
    requires Sound(s)
    ensures Sound(RemoveKeys(s, keys))
  {
    RemoveKeysWf(s, keys);
  }

  lemma CleanupSound(s: State, now: int)
    requires Sound(s)
    ensures Sound(Cleanup(s, now))
  {
    if now - s.lastCleanup >= HOUR { RemoveKeysSound(s.(lastCleanup := now), Expired(s, now)); }
  }

  /** A thread's contents may be replaced by contents that keep its IDs. */
  lemma UpdateSound(s: State, t: EmailThread, d: ThreadData)
    requires Sound(s)
    requires t in s.store ==> Ids(s.store[t]) <= Ids(d)
    requires TailKept(d)
    ensures Sound(s.(store := s.store[t := d]))
  {
    var u := s.(store := s.store[t := d]);
    forall id | id in u.index ensures id in Ids(u.store[u.index[id]]) {
      assert id in Ids(s.store[s.index[id]]);
      assert s.index[id] in s.index.Values;
    }
  }

  lemma IndexSound(s: State, receiver: string, t: EmailThread)
    requires Sound(s) && t in s.store
    ensures Sound(IndexThread(s, receiver, t))
  {
    var f := IndexThread(s, receiver, t);
    forall id | id in f.index ensures f.index[id] in s.store && id in Ids(s.store[f.index[id]]) {
      if id !in Ids(s.store[t]) { assert s.index[id] in s.index.Values; }
    }
    forall k | k in f.gmail ensures f.gmail[k] in s.store {
      if k in s.gmail { assert s.gmail[k] in s.gmail.Values; }
    }
  }

  lemma CacheSound(s: State, receiver: string, t: EmailThread, now: int, victims: set<string>)
    requires Sound(s) && t in s.store
    ensures Sound(CacheThread(s, receiver, t, now, victims))
  {
    if s.store[t].threadID != "" {
      FiledWf(s, receiver, t, now);
      var touched := Touch(s, t, now);
      UpdateSound(s, t, s.store[t].(lastAccessed := now));
      var filed := touched.(known := s.known[Key(receiver, s.store[t].threadID) := t]);
      assert Wf(filed);
      assert Sound(filed);
      IndexSound(filed, receiver, t);
      RemoveKeysSound(Filed(s, receiver, t, now), victims);
    }
  }

  lemma CreateSound(s: State, email: Email, spare: EmailThread, now: int, victims: set<string>)
    requires Sound(s) && spare !in s.store
    ensures Sound(CreateNewThread(s, email, spare, now, victims))
    ensures spare in CreateNewThread(s, email, spare, now, victims).store
  {
    CreatedWf(s, email, spare, now);
    var c := Created(s, email, spare, now);
    UpdateSound(s, spare, NewThreadData(email, now));
    assert Sound(c);
    RemoveKeysSound(c, victims);
    RemoveKeysWf(c, victims);
  }

  lemma GetSound(s: State, receiver: string, id: string, now: int)
    requires Sound(s)
    ensures Sound(GetThreadByID(s, receiver, id, now).0)
  {
    GetWf(s, receiver, id, now);
    CleanupSound(s, now);
    CleanupWf(s, now);
    var c := Cleanup(s, now);
    var hit := Lookup(c, receiver, id);
    if hit.Some? { UpdateSound(c, hit.value, c.store[hit.value].(lastAccessed := now)); }
  }

  lemma DetermineSound(s: State, receiver: string, email: Email, resolver: map<string, string>,
                       spare: EmailThread, now: int, victims: set<string>)
    requires Sound(s) && spare !in s.store
    ensures Sound(DetermineThread(s, receiver, email, resolver, spare, now, victims).0)
  {
    DetermineWf(s, receiver, email, resolver, spare, now, victims);
    CreateSound(s, email, spare, now, victims);
    var tid := Resolved(resolver, Parents(email));
    if email.forwarded {
    } else if tid.Some? {
      GetSound(s, receiver, tid.value, now);
      GetWf(s, receiver, tid.value, now);
      var (g, hit) := GetThreadByID(s, receiver, tid.value, now);
      if hit.Some? {
        UpdateSound(g, hit.value, AddedData(g.store[hit.value], email));
      } else {
        UpdateSound(g, spare, BareThread(tid.value, email.subject));
        var b := g.(store := g.store[spare := BareThread(tid.value, email.subject)]);
        UpdateSound(b, spare, AddedData(b.store[spare], email));
      }
    } else {
      MatchWf(s, receiver, email);
      var m := Match(s, receiver, email);
      if m.Some? { UpdateSound(s, m.value, AddedData(s.store[m.value], email)); }
    }
  }

  lemma OpenSound(w: World, receiver: string, id: string, spare: EmailThread, now: int, victims: set<string>)
    requires SoundWorld(w) && spare !in w.tm.store
    ensures Sound(OpenPortal(w, receiver, id, spare, now, victims).0)
  {
    GetSound(w.tm, receiver, id, now);
    GetWf(w.tm, receiver, id, now);
    var (g, hit) := GetThreadByID(w.tm, receiver, id, now);
    if hit == None && Restorable(w, receiver, id) {
      var d := Restored(w.portals[(receiver, id)]);
      UpdateSound(g, spare, d);
      CacheSound(g.(store := g.store[spare := d]), receiver, spare, now, victims);
    }
  }

  lemma StepSound(w: World, e: Event)
    requires SoundWorld(w) && Legal(w, e)
    ensures SoundWorld(Step(w, e))
  {
    match e
    case Inbound(receiver, email, resolver, spare, now, v1, v2) =>
      DetermineSound(w.tm, receiver, email, resolver, spare, now, v1);
      DetermineWf(w.tm, receiver, email, resolver, spare, now, v1);
      var (d, t) := DetermineThread(w.tm, receiver, email, resolver, spare, now, v1);
      CacheSound(d, receiver, t, now, v2);
    case Compose(receiver, id, subject, spare, now, v1) =>
      UpdateSound(w.tm, spare, DraftData(id, subject));
      CacheSound(w.tm.(store := w.tm.store[spare := DraftData(id, subject)]), receiver, spare, now, v1);
    case Open(receiver, id, spare, now, v1) =>
      OpenSound(w, receiver, id, spare, now, v1);
    case Find(receiver, id, now) => GetSound(w.tm, receiver, id, now);
    case Send(receiver, id, key, spare, now, v1, v2) =>
      OpenSound(w, receiver, id, spare, now, v1);
      OpenWf(w, receiver, id, spare, now, v1);
      var (s, hit) := OpenPortal(w, receiver, id, spare, now, v1);
      if hit.Some? {
        var d := SentData(s.store[hit.value], key);
        UpdateSound(s, hit.value, d);
        CacheSound(s.(store := s.store[hit.value := d]), receiver, hit.value, now, v2);
      }
  }

  /** Over every run whatsoever, with forwards, duplicates, resolver hits, evictions, sends and restores:
      an index entry always leads to a thread that really holds that ID. */
  lemma {:induction false} RunSound(w: World, es: seq<Event>)
    requires SoundWorld(w) && LegalRun(w, es)
    ensures SoundWorld(Run(w, es))
    decreases |es|
  {
    if es != [] {
      StepWf(w, es[0]);
      StepSound(w, es[0]);
      RunSound(Step(w, es[0]), es[1..]);
    }
  }

  /** So dropping a thread by its own IDs is enough: afterwards neither table leads to it, in any state a
      run can reach. */
  lemma RemovalIsComplete(start: int, es: seq<Event>, t: EmailThread)
    requires LegalRun(Empty(start), es)
    requires t in Run(Empty(start), es).tm.store
    ensures var s := Unindex(Run(Empty(start), es).tm, {t});
            t !in s.index.Values && t !in s.gmail.Values
  {
    RunSound(Empty(start), es);
    var s := Run(Empty(start), es).tm;
    var r := Unindex(s, {t});
    forall id | id in r.index ensures r.index[id] != t {
      assert id in Ids(s.store[s.index[id]]);
    }
  }

  // ---- The contents of a thread --------------------------------------------------------------------

  /** What an email adds to a thread it joins keeps the thread's IDs. */
  lemma AddedIds(d: ThreadData, email: Email)
    ensures Ids(d) <= Ids(AddedData(d, email)) && AddedData(d, email).threadID == d.threadID
    ensures Ids(AddedData(d, email)) == Ids(d) + ({email.messageID} - {""})
  {
  }

  lemma SentIds(d: ThreadData, key: string)
    requires TailKept(d)
    ensures Ids(SentData(d, key)) == Ids(d) + ({key} - {""})
    ensures SentData(d, key).threadID == d.threadID
  {
  }

  // ---- The size cap over every run -----------------------------------------------------------------

  /** Whether determining an email's thread goes through createNewThread. */
  ghost predicate DetermineMakes(s: State, receiver: string, email: Email, resolver: map<string, string>) {
    email.forwarded || (Resolved(resolver, Parents(email)) == None && Match(s, receiver, email) == None)
  }

  lemma MakesCreates(s: State, receiver: string, email: Email, resolver: map<string, string>,
                     spare: EmailThread, now: int, v1: set<string>)
    requires Wf(s) && DetermineMakes(s, receiver, email, resolver)
    ensures DetermineThread(s, receiver, email, resolver, spare, now, v1)
         == (CreateNewThread(s, email, spare, now, v1), spare)
  {
  }

  /** The keys an eviction picks are a legal choice wherever the event may evict. */
  ghost predicate LegalChoices(w: World, e: Event)
    requires Wf(w.tm)
  {
    match e
    case Inbound(receiver, email, resolver, spare, now, v1, v2) =>
      CreatedWf(w.tm, email, spare, now);
      DetermineWf(w.tm, receiver, email, resolver, spare, now, v1);
      var (d, t) := DetermineThread(w.tm, receiver, email, resolver, spare, now, v1);
      && (DetermineMakes(w.tm, receiver, email, resolver) ==> LegalEviction(Created(w.tm, email, spare, now), v1))
      && LegalFiling(d, receiver, t, now, v2)
    case Compose(receiver, id, subject, spare, now, v1) =>
      LegalFiling(w.tm.(store := w.tm.store[spare := DraftData(id, subject)]), receiver, spare, now, v1)
    case Open(receiver, id, spare, now, v1) => LegalOpening(w, receiver, id, spare, now, v1)
    case Find(_, _, _) => true
    case Send(receiver, id, key, spare, now, v1, v2) =>
      OpenWf(w, receiver, id, spare, now, v1);
      var (s, hit) := OpenPortal(w, receiver, id, spare, now, v1);
      && LegalOpening(w, receiver, id, spare, now, v1)
      && (hit.Some? ==>
            LegalFiling(Sent(s, hit.value, key), receiver, hit.value, now, v2))
  }

  ghost predicate LegalFiling(s: State, receiver: string, t: EmailThread, now: int, victims: set<string>)
    requires Wf(s) && t in s.store
  {
    s.store[t].threadID != "" ==> (FiledWf(s, receiver, t, now); LegalEviction(Filed(s, receiver, t, now), victims))
  }

  ghost predicate LegalOpening(w: World, receiver: string, id: string, spare: EmailThread, now: int,
                               victims: set<string>)
    requires Wf(w.tm)
  {
    GetWf(w.tm, receiver, id, now);
    var (g, hit) := GetThreadByID(w.tm, receiver, id, now);
    Restorable(w, receiver, id) ==>
      LegalFiling(g.(store := g.store[spare := Restored(w.portals[(receiver, id)])]), receiver, spare, now, victims)
  }

  ghost predicate LegalChoicesRun(w: World, es: seq<Event>)
    requires Wf(w.tm)
    decreases |es|
  {
    es == [] || (LegalChoices(w, es[0]) && (StepWf(w, es[0]); LegalChoicesRun(Step(w, es[0]), es[1..])))
  }

  /** An eviction removes exactly as many keys as it is asked to. */
  lemma EvictionCount(s: State, count: nat, victims: set<string>)
    requires Wf(s) && LegalVictims(s, count, victims)
    ensures |RemoveKeys(s, victims).known| == |s.known| - count
  {
    assert RemoveKeys(s, victims).known.Keys == s.known.Keys - victims;
  }

  lemma RemovalShrinks(s: State, keys: set<string>)
    requires Wf(s)
    ensures |RemoveKeys(s, keys).known| <= |s.known|
  {
    SubsetSize(RemoveKeys(s, keys).known.Keys, s.known.Keys);
  }

  lemma FilingCap(s: State, receiver: string, t: EmailThread, now: int, victims: set<string>)
    requires Wf(s) && t in s.store && LegalFiling(s, receiver, t, now, victims)
    requires |s.known| <= MAX_CACHED_THREADS
    ensures |CacheThread(s, receiver, t, now, victims).known| <= MAX_CACHED_THREADS
  {
    if s.store[t].threadID != "" {
      FiledWf(s, receiver, t, now);
      var f := Filed(s, receiver, t, now);
      assert f.known == s.known[Key(receiver, s.store[t].threadID) := t];
      assert |f.known| <= |s.known| + 1;
      if |f.known| > MAX_CACHED_THREADS { EvictionCount(f, EVICT_COUNT, victims); }
    }
  }

  lemma GetCap(s: State, receiver: string, id: string, now: int)
    requires Wf(s)
    ensures |GetThreadByID(s, receiver, id, now).0.known| <= |s.known|
  {
    CleanupWf(s, now);
    RemovalShrinks(s.(lastCleanup := now), Expired(s, now));
  }

  lemma DetermineCap(s: State, receiver: string, email: Email, resolver: map<string, string>,
                     spare: EmailThread, now: int, victims: set<string>)
    requires Wf(s) && |s.known| <= MAX_CACHED_THREADS
    requires (CreatedWf(s, email, spare, now);
              DetermineMakes(s, receiver, email, resolver) ==> LegalEviction(Created(s, email, spare, now), victims))
    ensures |DetermineThread(s, receiver, email, resolver, spare, now, victims).0.known| <= MAX_CACHED_THREADS
  {
    CreatedWf(s, email, spare, now);
    var c := Created(s, email, spare, now);
    assert |c.known| <= |s.known| + 1;
    if |c.known| > MAX_CACHED_THREADS && DetermineMakes(s, receiver, email, resolver) {
      EvictionCount(c, EVICT_COUNT, victims);
    }
    var tid := Resolved(resolver, Parents(email));
    if tid.Some? { GetCap(s, receiver, tid.value, now); }
    MatchWf(s, receiver, email);
  }

  lemma OpenCap(w: World, receiver: string, id: string, spare: EmailThread, now: int, victims: set<string>)
    requires Wf(w.tm) && |w.tm.known| <= MAX_CACHED_THREADS && LegalOpening(w, receiver, id, spare, now, victims)
    ensures |OpenPortal(w, receiver, id, spare, now, victims).0.known| <= MAX_CACHED_THREADS
  {
    GetWf(w.tm, receiver, id, now);
    GetCap(w.tm, receiver, id, now);
    var (g, hit) := GetThreadByID(w.tm, receiver, id, now);
    if Restorable(w, receiver, id) {
      FilingCap(g.(store := g.store[spare := Restored(w.portals[(receiver, id)])]), receiver, spare, now, victims);
    }
  }

  lemma StepCap(w: World, e: Event)
    requires Wf(w.tm) && |w.tm.known| <= MAX_CACHED_THREADS && LegalChoices(w, e)
    ensures |Step(w, e).tm.known| <= MAX_CACHED_THREADS
  {
    match e
    case Inbound(receiver, email, resolver, spare, now, v1, v2) =>
      DetermineCap(w.tm, receiver, email, resolver, spare, now, v1);
      DetermineWf(w.tm, receiver, email, resolver, spare, now, v1);
      var (d, t) := DetermineThread(w.tm, receiver, email, resolver, spare, now, v1);
      FilingCap(d, receiver, t, now, v2);
    case Compose(receiver, id, subject, spare, now, v1) =>
      FilingCap(w.tm.(store := w.tm.store[spare := DraftData(id, subject)]), receiver, spare, now, v1);
    case Open(receiver, id, spare, now, v1) => OpenCap(w, receiver, id, spare, now, v1);
    case Find(receiver, id, now) => GetCap(w.tm, receiver, id, now);
    case Send(receiver, id, key, spare, now, v1, v2) =>
      OpenCap(w, receiver, id, spare, now, v1);
      OpenWf(w, receiver, id, spare, now, v1);
      var (s, hit) := OpenPortal(w, receiver, id, spare, now, v1);
      if hit.Some? {
        FilingCap(Sent(s, hit.value, key), receiver, hit.value, now, v2);
      }
  }

  /** The cache never holds more than its maximum between events, whatever the run. */
  lemma {:induction false} RunCap(w: World, es: seq<Event>)
    requires Wf(w.tm) && |w.tm.known| <= MAX_CACHED_THREADS && LegalChoicesRun(w, es)
    ensures |Run(w, es).tm.known| <= MAX_CACHED_THREADS
    decreases |es|
  {
    if es != [] {
      StepWf(w, es[0]);
      StepCap(w, es[0]);
      RunCap(Step(w, es[0]), es[1..]);
    }
  }
}
