/** What one conversation needs of the cache: its own IDs lead to its thread. Everything else may happen:
    other threads may be disputed, duplicated, forwarded, expired or evicted. */
module ThreadOwnership {
  import opened Wrappers
  import opened ThreadState
  import opened ThreadRuns

  /** The IDs of `ids` belong to thread `t`: it holds them, the table leads to it, and no other cached thread
      carries one. */
  ghost predicate Owns(s: State, t: EmailThread, ids: set<string>)
    requires Wf(s)
  {
    && t in s.store && s.store[t].threadID != "" && ids <= Ids(s.store[t])
    && (forall id :: id in ids ==> id in s.index && s.index[id] == t)
    && NoOther(s, t, ids)
  }

  ghost predicate NoOther(s: State, t: EmailThread, ids: set<string>)
    requires Wf(s)
  {
    forall u :: u in Live(s) && u != t ==> Ids(s.store[u]) !! ids
  }

  // ---- What an event drops and files -----------------------------------------------------------------

  /** The threads the periodic clean-up drops a key of. */
  ghost function Expiring(s: State, now: int): set<EmailThread>
    requires Wf(s)
  {
    if now - s.lastCleanup < HOUR then {} else At(s, Expired(s, now))
  }

  ghost function Evicted(s: State, victims: set<string>): set<EmailThread> {
    if |s.known| > MAX_CACHED_THREADS then At(s, victims) else {}
  }

  ghost function FilingEvicts(s: State, receiver: string, t: EmailThread, now: int,
                               victims: set<string>): set<EmailThread>
    requires t in s.store
  {
    if s.store[t].threadID == "" then {} else Evicted(Filed(s, receiver, t, now), victims)
  }

  ghost function OpeningEvicts(w: World, receiver: string, id: string, spare: EmailThread, now: int,
                               victims: set<string>): set<EmailThread>
    requires Wf(w.tm)
  {
    if id == "" then {}
    else
      GetWf(w.tm, receiver, id, now);
      var (g, hit) := GetThreadByID(w.tm, receiver, id, now);
      if hit == None && Restorable(w, receiver, id)
      then
        FilingEvicts(g.(store := g.store[spare := Restored(w.portals[(receiver, id)])]), receiver, spare, now, victims)
      else {}
  }

  ghost function DeterminingEvicts(s: State, e: Event): set<EmailThread>
    requires Wf(s) && e.Inbound?
  {
    if DetermineMakes(s, e.receiver, e.email, e.resolver) then Evicted(Created(s, e.email, e.spare, e.now), e.v1)
    else {}
  }

  /** The threads of which an event evicts a key, because the cache outgrew its maximum. */
  ghost function EvictedBy(w: World, e: Event): set<EmailThread>
    requires Wf(w.tm)
  {
    match e
    case Inbound(receiver, email, resolver, spare, now, v1, v2) =>
      DetermineWf(w.tm, receiver, email, resolver, spare, now, v1);
      var (d, t) := DetermineThread(w.tm, receiver, email, resolver, spare, now, v1);
      DeterminingEvicts(w.tm, e) + FilingEvicts(d, receiver, t, now, v2)
    case Compose(receiver, id, subject, spare, now, v1) =>
      FilingEvicts(w.tm.(store := w.tm.store[spare := DraftData(id, subject)]), receiver, spare, now, v1)
    case Open(receiver, id, spare, now, v1) => OpeningEvicts(w, receiver, id, spare, now, v1)
    case Find(_, _, now) => {}
    case Send(receiver, id, key, spare, now, v1, v2) =>
      OpenWf(w, receiver, id, spare, now, v1);
      var (s, hit) := OpenPortal(w, receiver, id, spare, now, v1);
      OpeningEvicts(w, receiver, id, spare, now, v1)
      + (if hit.Some? then
           FilingEvicts(Sent(s, hit.value, key), receiver, hit.value, now, v2)
         else {})
  }

  /** Whether the event runs the periodic clean-up before it files its thread. */
  predicate CleansUp(e: Event) {
    match e
    case Inbound(_, email, resolver, _, _, _, _) => !email.forwarded && Resolved(resolver, Parents(email)).Some?
    case Compose(_, _, _, _, _, _) => false
    case Open(_, id, _, _, _) => id != ""
    case Find(_, _, _) => true
    case Send(_, id, _, _, _, _, _) => id != ""
  }

  /** The threads of which an event drops a key, because they expired or were evicted. */
  ghost function Dropped(w: World, e: Event): set<EmailThread>
    requires Wf(w.tm)
  {
    (if CleansUp(e) then Expiring(w.tm, e.now) else {}) + EvictedBy(w, e)
  }

  /** The thread an event caches, if any. */
  ghost function Filing(w: World, e: Event): Option<EmailThread>
    requires Wf(w.tm)
  {
    match e
    case Inbound(_, _, _, _, _, _, _) => Some(Receive(w.tm, e).1)
    case Compose(_, _, _, _, _, _) => Some(e.spare)
    case Open(receiver, id, spare, now, v1) =>
      if id != "" && GetThreadByID(w.tm, receiver, id, now).1 == None && Restorable(w, receiver, id)
      then Some(spare) else None
    case Find(_, _, _) => None
    case Send(receiver, id, _, spare, now, v1, _) => OpenPortal(w, receiver, id, spare, now, v1).1
  }

  /** The thread the event caches, if it is another one, carries none of these IDs. */
  ghost predicate FilesApart(w: World, e: Event, t: EmailThread, ids: set<string>)
    requires Wf(w.tm)
  {
    var f := Filing(w, e);
    f.Some? && f.value != t && f.value in Step(w, e).tm.store ==> Ids(Step(w, e).tm.store[f.value]) !! ids
  }

  /** The threads in the cache when the event files its own. */
  ghost function Standing(w: World, e: Event): set<EmailThread>
    requires Wf(w.tm)
  {
    CleanupWf(w.tm, e.now);
    if CleansUp(e) then Live(Cleanup(w.tm, e.now)) else Live(w.tm)
  }

  /** After the event no other thread, neither a cached one nor the one it caches, carries one of these IDs. */
  ghost predicate Unclaimed(w: World, e: Event, t: EmailThread, ids: set<string>)
    requires Wf(w.tm)
  {
    && FilesApart(w, e, t, ids)
    && forall u :: u in Standing(w, e) && u != t && u in Step(w, e).tm.store ==> Ids(Step(w, e).tm.store[u]) !! ids
  }

  // ---- Single operations -----------------------------------------------------------------------------

  lemma RemoveKeysOwns(s: State, keys: set<string>, t: EmailThread, ids: set<string>)
    requires Wf(s) && Owns(s, t, ids) && t !in At(s, keys)
    ensures Wf(RemoveKeys(s, keys)) && Owns(RemoveKeys(s, keys), t, ids)
  {
    RemoveKeysWf(s, keys);
    var r := RemoveKeys(s, keys);
    forall id | id in ids ensures id in r.index && r.index[id] == t {
      forall u | u in At(s, keys) ensures id !in Ids(s.store[u]) {
        assert u in Live(s) && u != t;
      }
    }
  }

  lemma CleanupOwns(s: State, now: int, t: EmailThread, ids: set<string>)
    requires Wf(s) && Owns(s, t, ids) && t !in Expiring(s, now)
    ensures Wf(Cleanup(s, now)) && Owns(Cleanup(s, now), t, ids)
  {
    if now - s.lastCleanup >= HOUR {
      var c := s.(lastCleanup := now);
      assert At(c, Expired(s, now)) == At(s, Expired(s, now));
      RemoveKeysOwns(c, Expired(s, now), t, ids);
    }
  }

  lemma BoundedOwns(s: State, victims: set<string>, t: EmailThread, ids: set<string>)
    requires Wf(s) && Owns(s, t, ids) && t !in Evicted(s, victims)
    ensures Wf(Bounded(s, victims)) && Owns(Bounded(s, victims), t, ids)
  {
    if |s.known| > MAX_CACHED_THREADS { RemoveKeysOwns(s, victims, t, ids); }
  }

  /** New contents for one object. */
  lemma UpdateOwns(s: State, u: EmailThread, d: ThreadData, t: EmailThread, ids: set<string>)
    requires Wf(s) && Owns(s, t, ids)
    requires if u == t then ids <= Ids(d) && d.threadID != "" else u !in Live(s) || Ids(d) !! ids
    ensures Wf(s.(store := s.store[u := d])) && Owns(s.(store := s.store[u := d]), t, ids)
  {
  }

  lemma GetOwns(s: State, receiver: string, id: string, now: int, t: EmailThread, ids: set<string>)
    requires Wf(s) && Owns(s, t, ids) && t !in Expiring(s, now)
    ensures Wf(GetThreadByID(s, receiver, id, now).0) && Owns(GetThreadByID(s, receiver, id, now).0, t, ids)
  {
    GetWf(s, receiver, id, now);
    CleanupOwns(s, now, t, ids);
    var c := Cleanup(s, now);
    var hit := Lookup(c, receiver, id);
    if hit.Some? {
      var h := hit.value;
      assert Ids(c.store[h].(lastAccessed := now)) == Ids(c.store[h]);
      assert h in Live(c);
      UpdateOwns(c, h, c.store[h].(lastAccessed := now), t, ids);
    }
  }

  /** Another thread is filed. */
  lemma FiledElsewhere(s: State, receiver: string, f: EmailThread, now: int, t: EmailThread, ids: set<string>)
    requires Wf(s) && Owns(s, t, ids) && f in s.store && f != t && Ids(s.store[f]) !! ids && s.store[f].threadID != ""
    ensures Wf(Filed(s, receiver, f, now)) && Owns(Filed(s, receiver, f, now), t, ids)
  {
    FiledWf(s, receiver, f, now);
    var p := Filed(s, receiver, f, now);
    assert Ids(p.store[f]) == Ids(s.store[f]);
    forall u | u in Live(p) && u != t ensures Ids(p.store[u]) !! ids {
      if u != f {
        var k :| k in p.known && p.known[k] == u;
        assert k in s.known && s.known[k] == u;
      }
    }
  }

  lemma CachedElsewhere(s: State, receiver: string, f: EmailThread, now: int, victims: set<string>,
                        t: EmailThread, ids: set<string>)
    requires Wf(s) && Owns(s, t, ids) && f in s.store && f != t && Ids(s.store[f]) !! ids
    requires t !in FilingEvicts(s, receiver, f, now, victims)
    ensures Wf(CacheThread(s, receiver, f, now, victims)) && Owns(CacheThread(s, receiver, f, now, victims), t, ids)
  {
    if s.store[f].threadID != "" {
      FiledElsewhere(s, receiver, f, now, t, ids);
      BoundedOwns(Filed(s, receiver, f, now), victims, t, ids);
    }
  }

  /** Filing a thread gives it each of its IDs that no other cached thread carries. */
  lemma FiledClaims(s: State, receiver: string, t: EmailThread, now: int, ids: set<string>)
    requires Wf(s) && t in s.store && s.store[t].threadID != "" && ids <= Ids(s.store[t]) && NoOther(s, t, ids)
    ensures Wf(Filed(s, receiver, t, now)) && Owns(Filed(s, receiver, t, now), t, ids)
  {
    FiledWf(s, receiver, t, now);
    var p := Filed(s, receiver, t, now);
    assert Ids(p.store[t]) == Ids(s.store[t]);
    forall u | u in Live(p) && u != t ensures Ids(p.store[u]) !! ids {
      var k :| k in p.known && p.known[k] == u;
      assert k in s.known && s.known[k] == u;
    }
  }

  lemma CachedClaims(s: State, receiver: string, t: EmailThread, now: int, victims: set<string>, ids: set<string>)
    requires Wf(s) && t in s.store && s.store[t].threadID != "" && ids <= Ids(s.store[t]) && NoOther(s, t, ids)
    requires t !in FilingEvicts(s, receiver, t, now, victims)
    ensures Wf(CacheThread(s, receiver, t, now, victims)) && Owns(CacheThread(s, receiver, t, now, victims), t, ids)
  {
    FiledClaims(s, receiver, t, now, ids);
    BoundedOwns(Filed(s, receiver, t, now), victims, t, ids);
  }

  lemma CreateOwns(s: State, email: Email, spare: EmailThread, now: int, victims: set<string>,
                   t: EmailThread, ids: set<string>)
    requires Wf(s) && Owns(s, t, ids) && spare !in s.store && Ids(NewThreadData(email, now)) !! ids
    requires t !in Evicted(Created(s, email, spare, now), victims)
    ensures Wf(CreateNewThread(s, email, spare, now, victims))
    ensures Owns(CreateNewThread(s, email, spare, now, victims), t, ids)
  {
    CreatedWf(s, email, spare, now);
    var c := Created(s, email, spare, now);
    forall u | u in Live(c) && u != t ensures Ids(c.store[u]) !! ids {
      if u != spare {
        var k :| k in c.known && c.known[k] == u;
        assert k in s.known && s.known[k] == u;
      }
    }
    BoundedOwns(c, victims, t, ids);
  }

  // ---- One event -------------------------------------------------------------------------------------

  lemma JoinOwns(s: State, c: EmailThread, email: Email, t: EmailThread, ids: set<string>)
    requires Wf(s) && Owns(s, t, ids) && c in s.store && (c == t || Ids(AddedData(s.store[c], email)) !! ids)
    ensures Wf(AddTo(s, c, email)) && Owns(AddTo(s, c, email), t, ids)
  {
    AddedIds(s.store[c], email);
    UpdateOwns(s, c, AddedData(s.store[c], email), t, ids);
  }

  lemma ResolvedOwns(s: State, e: Event, tid: string, t: EmailThread, ids: set<string>)
    requires Wf(s) && e.Inbound? && Legal(World(s, map[]), e) && Owns(s, t, ids) && t !in Expiring(s, e.now)
    requires !e.email.forwarded && Resolved(e.resolver, Parents(e.email)) == Some(tid)
    requires (DetermineWf(s, e.receiver, e.email, e.resolver, e.spare, e.now, e.v1);
              var (d, f) := DetermineThread(s, e.receiver, e.email, e.resolver, e.spare, e.now, e.v1);
              f == t || Ids(d.store[f]) !! ids)
    ensures var d := DetermineThread(s, e.receiver, e.email, e.resolver, e.spare, e.now, e.v1).0;
            Wf(d) && Owns(d, t, ids)
  {
    GetWf(s, e.receiver, tid, e.now);
    GetOwns(s, e.receiver, tid, e.now, t, ids);
    var (g, hit) := GetThreadByID(s, e.receiver, tid, e.now);
    if hit.Some? {
      JoinOwns(g, hit.value, e.email, t, ids);
    } else {
      var bare := BareThread(tid, e.email.subject);
      SpareIsNotLive(g, e.spare);
      UpdateOwns(g, e.spare, bare, t, ids);
      JoinOwns(g.(store := g.store[e.spare := bare]), e.spare, e.email, t, ids);
    }
  }

  lemma SpareIsNotLive(s: State, spare: EmailThread)
    requires Wf(s) && spare !in s.store
    ensures spare !in Live(s)
  {
  }

  lemma DetermineOwns(s: State, e: Event, t: EmailThread, ids: set<string>)
    requires Wf(s) && e.Inbound? && Legal(World(s, map[]), e) && Owns(s, t, ids) && t !in DeterminingEvicts(s, e)
    requires CleansUp(e) ==> t !in Expiring(s, e.now)
    requires (DetermineWf(s, e.receiver, e.email, e.resolver, e.spare, e.now, e.v1);
              var (d, f) := DetermineThread(s, e.receiver, e.email, e.resolver, e.spare, e.now, e.v1);
              f == t || Ids(d.store[f]) !! ids)
    ensures var d := DetermineThread(s, e.receiver, e.email, e.resolver, e.spare, e.now, e.v1).0;
            Wf(d) && Owns(d, t, ids)
  {
    var tid := Resolved(e.resolver, Parents(e.email));
    if DetermineMakes(s, e.receiver, e.email, e.resolver) {
      MakesCreates(s, e.receiver, e.email, e.resolver, e.spare, e.now, e.v1);
      CreatedWf(s, e.email, e.spare, e.now);
      BoundedWf(Created(s, e.email, e.spare, e.now), e.v1);
      CreateOwns(s, e.email, e.spare, e.now, e.v1, t, ids);
    } else if tid.Some? {
      ResolvedOwns(s, e, tid.value, t, ids);
    } else {
      MatchWf(s, e.receiver, e.email);
      JoinOwns(s, Match(s, e.receiver, e.email).value, e.email, t, ids);
    }
  }

  /** A thread is cached: this one, or another that carries none of the IDs. */
  lemma CachedOwns(s: State, receiver: string, f: EmailThread, now: int, victims: set<string>,
                   t: EmailThread, ids: set<string>)
    requires Wf(s) && Owns(s, t, ids) && f in s.store && (f == t || Ids(s.store[f]) !! ids)
    requires t !in FilingEvicts(s, receiver, f, now, victims)
    ensures Wf(CacheThread(s, receiver, f, now, victims)) && Owns(CacheThread(s, receiver, f, now, victims), t, ids)
  {
    if f == t {
      CachedClaims(s, receiver, t, now, victims, ids);
    } else {
      CachedElsewhere(s, receiver, f, now, victims, t, ids);
    }
  }

  lemma SameIds(s: State, receiver: string, f: EmailThread, now: int, victims: set<string>, u: EmailThread)
    requires Wf(s) && f in s.store && u in s.store
    ensures var r := CacheThread(s, receiver, f, now, victims);
            u in r.store && Ids(r.store[u]) == Ids(s.store[u]) && r.store[u].threadID == s.store[u].threadID
  {
    CacheWf(s, receiver, f, now, victims);
    assert Ids(s.store[f].(lastAccessed := now)) == Ids(s.store[f]);
  }

  lemma InboundOwns(w: World, e: Event, t: EmailThread, ids: set<string>)
    requires Wf(w.tm) && e.Inbound? && Legal(w, e) && Owns(w.tm, t, ids)
    requires t !in Dropped(w, e) && FilesApart(w, e, t, ids)
    ensures Wf(Step(w, e).tm) && Owns(Step(w, e).tm, t, ids)
  {
    DetermineWf(w.tm, e.receiver, e.email, e.resolver, e.spare, e.now, e.v1);
    var (d, f) := DetermineThread(w.tm, e.receiver, e.email, e.resolver, e.spare, e.now, e.v1);
    SameIds(d, e.receiver, f, e.now, e.v2, f);
    DetermineOwns(w.tm, e, t, ids);
    CachedOwns(d, e.receiver, f, e.now, e.v2, t, ids);
  }

  lemma InstallOwns(s: State, receiver: string, spare: EmailThread, d: ThreadData, now: int, victims: set<string>,
                    t: EmailThread, ids: set<string>)
    requires Wf(s) && Owns(s, t, ids) && spare !in s.store && Ids(d) !! ids
    requires t !in FilingEvicts(s.(store := s.store[spare := d]), receiver, spare, now, victims)
    ensures Wf(Install(s, receiver, spare, d, now, victims))
    ensures Owns(Install(s, receiver, spare, d, now, victims), t, ids)
  {
    SpareIsNotLive(s, spare);
    UpdateOwns(s, spare, d, t, ids);
    CachedOwns(s.(store := s.store[spare := d]), receiver, spare, now, victims, t, ids);
  }

  lemma OpenOwns(w: World, receiver: string, id: string, spare: EmailThread, now: int, victims: set<string>,
                 t: EmailThread, ids: set<string>)
    requires Wf(w.tm) && spare !in w.tm.store && Owns(w.tm, t, ids)
    requires (id != "" ==> t !in Expiring(w.tm, now)) && t !in OpeningEvicts(w, receiver, id, spare, now, victims)
    requires Restorable(w, receiver, id) && id != "" && GetThreadByID(w.tm, receiver, id, now).1 == None ==>
               Ids(Restored(w.portals[(receiver, id)])) !! ids
    ensures var s := OpenPortal(w, receiver, id, spare, now, victims).0; Wf(s) && Owns(s, t, ids)
  {
    if id != "" {
      GetWf(w.tm, receiver, id, now);
      GetOwns(w.tm, receiver, id, now, t, ids);
      var (g, hit) := GetThreadByID(w.tm, receiver, id, now);
      if hit == None && Restorable(w, receiver, id) {
        InstallOwns(g, receiver, spare, Restored(w.portals[(receiver, id)]), now, victims, t, ids);
      }
    }
  }

  lemma OpenStepOwns(w: World, e: Event, t: EmailThread, ids: set<string>)
    requires Wf(w.tm) && e.Open? && Legal(w, e) && Owns(w.tm, t, ids)
    requires t !in Dropped(w, e) && FilesApart(w, e, t, ids)
    ensures Wf(Step(w, e).tm) && Owns(Step(w, e).tm, t, ids)
  {
    GetWf(w.tm, e.receiver, e.id, e.now);
    var (g, hit) := GetThreadByID(w.tm, e.receiver, e.id, e.now);
    if e.id != "" && hit == None && Restorable(w, e.receiver, e.id) {
      var d := Restored(w.portals[(e.receiver, e.id)]);
      SameIds(g.(store := g.store[e.spare := d]), e.receiver, e.spare, e.now, e.v1, e.spare);
    }
    OpenOwns(w, e.receiver, e.id, e.spare, e.now, e.v1, t, ids);
  }

  /** Where a send starts from: its room's thread is cached, or restored just now. */
  lemma OpenedThread(w: World, receiver: string, id: string, spare: EmailThread, now: int, victims: set<string>)
    requires SoundWorld(w) && spare !in w.tm.store
    ensures var (s, hit) := OpenPortal(w, receiver, id, spare, now, victims);
            && Wf(s) && Sound(s) && (hit.Some? ==> hit.value in s.store && id != "")
            && (id != "" && GetThreadByID(w.tm, receiver, id, now).1 == None && Restorable(w, receiver, id) ==>
                  hit == Some(spare) && Ids(s.store[spare]) == Ids(Restored(w.portals[(receiver, id)]))
                  && s.store[spare].threadID == id)
  {
    OpenWf(w, receiver, id, spare, now, victims);
    OpenSound(w, receiver, id, spare, now, victims);
    GetWf(w.tm, receiver, id, now);
    var (g, hit) := GetThreadByID(w.tm, receiver, id, now);
    if id != "" && hit == None && Restorable(w, receiver, id) {
      var d := Restored(w.portals[(receiver, id)]);
      SameIds(g.(store := g.store[spare := d]), receiver, spare, now, victims, spare);
    }
  }

  lemma SendOwns(w: World, e: Event, t: EmailThread, ids: set<string>)
    requires SoundWorld(w) && e.Send? && Legal(w, e) && Owns(w.tm, t, ids)
    requires t !in Dropped(w, e) && FilesApart(w, e, t, ids)
    ensures Wf(Step(w, e).tm) && Owns(Step(w, e).tm, t, ids)
  {
    OpenedThread(w, e.receiver, e.id, e.spare, e.now, e.v1);
    var (s, hit) := OpenPortal(w, e.receiver, e.id, e.spare, e.now, e.v1);
    if hit.Some? {
      var f := hit.value;
      var d := SentData(s.store[f], e.key);
      SentIds(s.store[f], e.key);
      var sent := s.(store := s.store[f := d]);
      SameIds(sent, e.receiver, f, e.now, e.v2, f);
      assert f != t ==> Ids(d) !! ids;
      OpenOwns(w, e.receiver, e.id, e.spare, e.now, e.v1, t, ids);
      UpdateOwns(s, f, d, t, ids);
      CachedOwns(sent, e.receiver, f, e.now, e.v2, t, ids);
    } else {
      OpenOwns(w, e.receiver, e.id, e.spare, e.now, e.v1, t, ids);
    }
  }

  /** Whatever the event does to other threads, the IDs of a conversation keep leading to its thread, as long
      as the event drops no key of the thread and claims none of the IDs for another. */
  lemma StepOwns(w: World, e: Event, t: EmailThread, ids: set<string>)
    requires SoundWorld(w) && Legal(w, e) && Owns(w.tm, t, ids)
    requires t !in Dropped(w, e) && FilesApart(w, e, t, ids)
    ensures Wf(Step(w, e).tm) && Owns(Step(w, e).tm, t, ids)
  {
    match e
    case Inbound(_, _, _, _, _, _, _) => InboundOwns(w, e, t, ids);
    case Compose(receiver, id, subject, spare, now, v1) =>
      var d := DraftData(id, subject);
      SameIds(w.tm.(store := w.tm.store[spare := d]), receiver, spare, now, v1, spare);
      InstallOwns(w.tm, receiver, spare, d, now, v1, t, ids);
    case Open(_, _, _, _, _) => OpenStepOwns(w, e, t, ids);
    case Find(receiver, id, now) => GetOwns(w.tm, receiver, id, now, t, ids);
    case Send(_, _, _, _, _, _, _) => SendOwns(w, e, t, ids);
  }
}
