/** When the lookup index is exact, that is, an index entry for precisely the IDs of the cached threads, so
    that the index answers what a scan of all threads would; and what follows for conversations. */
module ThreadExact {
  import opened Wrappers
  import opened ThreadState
  import opened ThreadRuns

  /** The index maps each ID of a live thread to that thread, and holds nothing else. Two live threads
      therefore share no ID. */
  ghost predicate Exact(s: State) {
    && Wf(s)
    && s.gmail.Values <= Live(s)
    && (forall t :: t in Live(s) ==> s.store[t].threadID != "")
    && (forall id :: id in s.index ==> s.index[id] in Live(s) && id in Ids(s.store[s.index[id]]))
    && (forall t, id :: t in Live(s) && id in Ids(s.store[t]) ==> id in s.index && s.index[id] == t)
  }

  lemma LiveThreadsAreDisjoint(s: State, t: EmailThread, u: EmailThread)
    requires Exact(s) && t in Live(s) && u in Live(s) && t != u
    ensures Ids(s.store[t]) !! Ids(s.store[u])
  {
    forall id | id in Ids(s.store[t]) ensures id !in Ids(s.store[u]) {
      assert s.index[id] == t;
    }
  }

  // ---- The index answers what a scan would ---------------------------------------------------------

  /** The linear search the index replaces. */
  ghost function Scan(s: State, ids: seq<string>): Option<EmailThread>
    requires Wf(s)
  {
    if ids == [] then None
    else if exists t :: t in Live(s) && ids[0] in Ids(s.store[t])
    then var t :| t in Live(s) && ids[0] in Ids(s.store[t]); Some(t)
    else Scan(s, ids[1..])
  }

  lemma {:induction false} IndexIsScan(s: State, ids: seq<string>)
    requires Exact(s)
    ensures FirstIndexed(s, ids) == Scan(s, ids)
  {
    if ids != [] {
      IndexIsScan(s, ids[1..]);
      if ids[0] in s.index { assert s.index[ids[0]] in Live(s); }
    }
  }

  /** A plain email with no resolver hit goes to the live thread that holds its first known parent, then
      to the thread of its Gmail conversation, and only otherwise to a thread of its own. */
  lemma DetermineIsScan(s: State, receiver: string, email: Email, resolver: map<string, string>,
                        spare: EmailThread, now: int, victims: set<string>)
    requires Exact(s) && !email.forwarded && Resolved(resolver, Parents(email)) == None
    ensures var t := DetermineThread(s, receiver, email, resolver, spare, now, victims).1;
            var scan := Scan(s, Parents(email));
            var g := ByGmail(s, receiver, email.gmailThreadID);
            && (scan.Some? ==> t == scan.value && t in Live(s))
            && (scan == None && g.Some? ==> t == g.value && t in Live(s))
            && (scan == None && g == None ==> t == spare)
  {
    IndexIsScan(s, Parents(email));
    MatchWf(s, receiver, email);
    ScanIsLive(s, Parents(email));
    if ByGmail(s, receiver, email.gmailThreadID).Some? {
      assert s.gmail[Key(receiver, email.gmailThreadID)] in s.gmail.Values;
    }
  }

  lemma {:induction false} ScanIsLive(s: State, ids: seq<string>)
    requires Wf(s)
    ensures Scan(s, ids).Some? ==> Scan(s, ids).value in Live(s)
  {
    if ids != [] { ScanIsLive(s, ids[1..]); }
  }

  // ---- What keeps the index exact ------------------------------------------------------------------

  /** No other thread is stored under one of these keys. */
  ghost predicate KeysFree(s: State, t: EmailThread, keys: set<string>) {
    forall k :: k in keys && k in s.known ==> s.known[k] == t
  }

  /** No other thread has claimed one of these IDs. */
  ghost predicate IdsFree(s: State, t: EmailThread, ids: set<string>) {
    forall id :: id in ids && id in s.index ==> s.index[id] == t
  }

  /** `p` is `s` with object `t`, of contents `d`, filed under `keys` and indexed. */
  ghost predicate Placed(s: State, p: State, t: EmailThread, d: ThreadData, keys: set<string>) {
    && p.store.Keys == s.store.Keys + {t}
    && (forall x :: x in p.store ==> p.store[x] == if x == t then d else s.store[x])
    && p.known.Keys == s.known.Keys + keys
    && (forall k :: k in p.known ==> p.known[k] == if k in keys then t else s.known[k])
    && p.index.Keys == s.index.Keys + Ids(d)
    && (forall id :: id in p.index ==> p.index[id] == if id in Ids(d) then t else s.index[id])
    && (forall k :: k in p.gmail ==> p.gmail[k] == t || (k in s.gmail && p.gmail[k] == s.gmail[k]))
  }

  lemma PlaceLive(s: State, p: State, t: EmailThread, d: ThreadData, keys: set<string>)
    requires Wf(s) && keys != {} && KeysFree(s, t, keys) && Placed(s, p, t, d, keys)
    ensures Live(p) == Live(s) + {t}
  {
    var k0 :| k0 in keys;
    assert k0 in p.known && p.known[k0] == t;
    forall u | u in Live(s) ensures u in Live(p) {
      var k :| k in s.known && s.known[k] == u;
      assert k in p.known && p.known[k] == u;
    }
    forall u | u in Live(p) ensures u in Live(s) + {t} {
      var k :| k in p.known && p.known[k] == u;
      if k !in keys { assert k in s.known && s.known[k] == u; }
    }
  }

  lemma PlaceWf(s: State, p: State, t: EmailThread, d: ThreadData, keys: set<string>)
    requires Exact(s) && keys != {} && KeysFree(s, t, keys) && Placed(s, p, t, d, keys)
    ensures Wf(p) && p.gmail.Values <= Live(p)
  {
    PlaceLive(s, p, t, d, keys);
    forall x | x in p.index.Values ensures x in p.store {
      var id :| id in p.index && p.index[id] == x;
      if id !in Ids(d) { assert s.index[id] in s.index.Values; }
    }
    forall x | x in p.gmail.Values ensures x in Live(p) {
      var k :| k in p.gmail && p.gmail[k] == x;
      if x != t { assert s.gmail[k] in s.gmail.Values; }
    }
  }

  lemma PlaceEntry(s: State, p: State, t: EmailThread, d: ThreadData, keys: set<string>, id: string)
    requires Exact(s) && Placed(s, p, t, d, keys) && Live(p) == Live(s) + {t}
    requires t in Live(s) ==> Ids(s.store[t]) <= Ids(d)
    requires id in p.index
    ensures p.index[id] in Live(p) && p.index[id] in p.store && id in Ids(p.store[p.index[id]])
  {
    if id in Ids(d) {
      assert p.index[id] == t;
    } else {
      var u := s.index[id];
      assert p.index[id] == u && u in Live(s) && id in Ids(s.store[u]);
      assert u != t;
    }
  }

  lemma PlaceClaim(s: State, p: State, t: EmailThread, d: ThreadData, keys: set<string>, u: EmailThread, id: string)
    requires Exact(s) && Placed(s, p, t, d, keys) && Live(p) == Live(s) + {t} && u in Live(p)
    requires IdsFree(s, t, Ids(d))
    requires id in Ids(p.store[u])
    ensures id in p.index && p.index[id] == u
  {
    if u != t {
      assert p.store[u] == s.store[u];
      assert id in s.index && s.index[id] == u;
    }
  }

  lemma PlaceExactIf(s: State, p: State, t: EmailThread, d: ThreadData, keys: set<string>)
    requires Exact(s) && keys != {} && KeysFree(s, t, keys) && Placed(s, p, t, d, keys)
    requires d.threadID != ""
    requires t in Live(s) ==> Ids(s.store[t]) <= Ids(d)
    requires IdsFree(s, t, Ids(d))
    ensures Exact(p)
  {
    PlaceLive(s, p, t, d, keys);
    PlaceWf(s, p, t, d, keys);
    forall id | id in p.index ensures p.index[id] in Live(p) && id in Ids(p.store[p.index[id]]) {
      PlaceEntry(s, p, t, d, keys, id);
    }
    forall u, id | u in Live(p) && id in Ids(p.store[u]) ensures id in p.index && p.index[id] == u {
      PlaceClaim(s, p, t, d, keys, u, id);
    }
    PlaceNamed(s, p, t, d, keys);
  }

  lemma PlaceNamed(s: State, p: State, t: EmailThread, d: ThreadData, keys: set<string>)
    requires Exact(s) && Placed(s, p, t, d, keys) && Live(p) == Live(s) + {t} && d.threadID != ""
    ensures forall u :: u in Live(p) ==> u in p.store && p.store[u].threadID != ""
  {
    forall u | u in Live(p) ensures u in p.store && p.store[u].threadID != "" {
      if u != t { assert u in Live(s); }
    }
  }

  /** Filing a thread keeps the index exact if and only if none of its IDs belongs to another thread. */
  lemma PlaceExact(s: State, p: State, t: EmailThread, d: ThreadData, keys: set<string>)
    requires Exact(s) && keys != {} && KeysFree(s, t, keys) && Placed(s, p, t, d, keys)
    requires d.threadID != ""
    requires t in Live(s) ==> Ids(s.store[t]) <= Ids(d)
    ensures Exact(p) <==> IdsFree(s, t, Ids(d))
  {
    if IdsFree(s, t, Ids(d)) {
      PlaceExactIf(s, p, t, d, keys);
    } else {
      var id :| id in Ids(d) && id in s.index && s.index[id] != t;
      var u := s.index[id];
      PlaceLive(s, p, t, d, keys);
      assert u in Live(p) && id in Ids(p.store[u]) && p.index[id] == t;
    }
  }

  /** `keys` drops threads whole, never one alias of a thread without the others. */
  ghost predicate WholeThreads(s: State, keys: set<string>) {
    forall j, k :: j in s.known && k in s.known && s.known[j] == s.known[k] && j in keys ==> k in keys
  }

  lemma WholeLive(s: State, keys: set<string>)
    requires Exact(s) && WholeThreads(s, keys)
    ensures Wf(RemoveKeys(s, keys)) && Live(RemoveKeys(s, keys)) == Live(s) - At(s, keys)
  {
    RemoveKeysWf(s, keys);
    var r := RemoveKeys(s, keys);
    forall t | t in Live(r) ensures t in Live(s) - At(s, keys) {
      var k :| k in r.known && r.known[k] == t;
      assert k in s.known && s.known[k] == t && k !in keys;
    }
    forall u | u in Live(s) - At(s, keys) ensures u in Live(r) {
      var k :| k in s.known && s.known[k] == u;
      assert k in r.known && r.known[k] == u;
    }
  }

  lemma KeptClaim(s: State, keys: set<string>, t: EmailThread, id: string)
    requires Exact(s) && t in Live(s) - At(s, keys) && id in Ids(s.store[t])
    ensures id in RemoveKeys(s, keys).index && RemoveKeys(s, keys).index[id] == t
  {
    assert id in s.index && s.index[id] == t;
    forall u | u in At(s, keys) ensures id !in Ids(s.store[u]) {
      assert u in Live(s) && u != t;
    }
  }

  lemma KeptEntry(s: State, keys: set<string>, id: string)
    requires Exact(s) && id in RemoveKeys(s, keys).index
    ensures var t := RemoveKeys(s, keys).index[id]; t in Live(s) - At(s, keys) && t in s.store && id in Ids(s.store[t])
  {
    var t := s.index[id];
    assert t in Live(s) && id in Ids(s.store[t]);
  }

  lemma RemovalExactIf(s: State, keys: set<string>)
    requires Exact(s) && WholeThreads(s, keys)
    ensures Exact(RemoveKeys(s, keys))
  {
    WholeLive(s, keys);
    KeptEntries(s, keys);
    KeptClaims(s, keys);
    KeptGmail(s, keys);
    ExactAgain(s, RemoveKeys(s, keys), Live(s) - At(s, keys));
  }

  lemma ExactAgain(s: State, r: State, kept: set<EmailThread>)
    requires Exact(s) && Wf(r) && r.store == s.store && kept <= Live(s) && Live(r) == kept && r.gmail.Values <= kept
    requires forall id :: id in r.index ==>
               r.index[id] in kept && r.index[id] in s.store && id in Ids(s.store[r.index[id]])
    requires forall t, id :: t in kept && id in Ids(s.store[t]) ==> id in r.index && r.index[id] == t
    ensures Exact(r)
  {
  }

  lemma KeptEntries(s: State, keys: set<string>)
    requires Exact(s)
    ensures var r := RemoveKeys(s, keys);
            forall id :: id in r.index ==>
              r.index[id] in Live(s) - At(s, keys) && r.index[id] in s.store && id in Ids(s.store[r.index[id]])
  {
    forall id | id in RemoveKeys(s, keys).index
      ensures var t := RemoveKeys(s, keys).index[id];
              t in Live(s) - At(s, keys) && t in s.store && id in Ids(s.store[t]) {
      KeptEntry(s, keys, id);
    }
  }

  lemma KeptClaims(s: State, keys: set<string>)
    requires Exact(s)
    ensures var r := RemoveKeys(s, keys);
            forall t, id :: t in Live(s) - At(s, keys) && id in Ids(s.store[t]) ==> id in r.index && r.index[id] == t
  {
    forall t, id | t in Live(s) - At(s, keys) && id in Ids(s.store[t])
      ensures id in RemoveKeys(s, keys).index && RemoveKeys(s, keys).index[id] == t {
      KeptClaim(s, keys, t, id);
    }
  }

  lemma KeptGmail(s: State, keys: set<string>)
    requires Exact(s)
    ensures RemoveKeys(s, keys).gmail.Values <= Live(s) - At(s, keys)
  {
    var r := RemoveKeys(s, keys);
    forall t | t in r.gmail.Values ensures t in Live(s) - At(s, keys) {
      var k :| k in r.gmail && r.gmail[k] == t;
      assert s.gmail[k] in s.gmail.Values;
    }
  }

  /** Dropping keys keeps the index exact if and only if it drops whole threads. A size eviction that
      takes one of a thread's two keys leaves the thread cached, yet unknown to the index. */
  lemma RemovalExact(s: State, keys: set<string>)
    requires Exact(s)
    ensures Exact(RemoveKeys(s, keys)) <==> WholeThreads(s, keys)
  {
    if WholeThreads(s, keys) {
      RemovalExactIf(s, keys);
    } else {
      var r := RemoveKeys(s, keys);
      var j, k :| j in s.known && k in s.known && s.known[j] == s.known[k] && j in keys && k !in keys;
      var t := s.known[k];
      assert r.known[k] == t && t in At(s, keys);
      assert t in Live(s) && s.store[t].threadID in Ids(s.store[t]);
      assert s.store[t].threadID !in r.index;
    }
  }

  /** Expiry depends on the thread alone, so it drops whole threads and keeps the index exact. */
  lemma CleanupExact(s: State, now: int)
    requires Exact(s)
    ensures Exact(Cleanup(s, now))
  {
    if now - s.lastCleanup >= HOUR {
      var c := s.(lastCleanup := now);
      assert Exact(c);
      RemovalExact(c, Expired(s, now));
    }
  }

  // ---- Exactness over runs -------------------------------------------------------------------------

  ghost predicate ExactWorld(w: World) {
    SoundWorld(w) && Exact(w.tm)
  }

  /** Room for the keys one event can add, so that no size eviction takes place. */
  ghost predicate Roomy(w: World) {
    |w.tm.known| + 2 <= MAX_CACHED_THREADS
  }

  /** The state in which an email is matched: only a resolver hit runs the periodic clean-up first. */
  ghost function Matching(s: State, email: Email, resolver: map<string, string>, now: int): State
    requires Wf(s)
  {
    if !email.forwarded && Resolved(resolver, Parents(email)).Some? then Cleanup(s, now) else s
  }

  /** The keys an email's thread is filed under. */
  ghost function FilingKeys(receiver: string, email: Email, t: EmailThread, id: string, made: bool): set<string> {
    if made then {Key(receiver, id), id} else {Key(receiver, id)}
  }

  ghost predicate Free(s: State, t: EmailThread, keys: set<string>, d: ThreadData) {
    d.threadID != "" && KeysFree(s, t, keys) && IdsFree(s, t, Ids(d))
  }

  /** No thread the event files carries a key or an ID that belongs to another live thread. */
  ghost predicate Undisputed(w: World, e: Event)
    requires Wf(w.tm)
  {
    match e
    case Inbound(receiver, email, resolver, spare, now, v1, v2) =>
      CleanupWf(w.tm, now);
      DetermineWf(w.tm, receiver, email, resolver, spare, now, v1);
      var (d, t) := DetermineThread(w.tm, receiver, email, resolver, spare, now, v1);
      Free(Matching(w.tm, email, resolver, now), t,
           FilingKeys(receiver, email, t, d.store[t].threadID, DetermineMakes(w.tm, receiver, email, resolver)),
           d.store[t])
    case Compose(receiver, id, subject, spare, now, v1) =>
      Free(w.tm, spare, {Key(receiver, id)}, DraftData(id, subject))
    case Open(receiver, id, spare, now, v1) => UndisputedOpening(w, receiver, id, spare, now)
    case Find(_, _, _) => true
    case Send(receiver, id, key, spare, now, v1, v2) =>
      OpenWf(w, receiver, id, spare, now, v1);
      var (s, hit) := OpenPortal(w, receiver, id, spare, now, v1);
      && UndisputedOpening(w, receiver, id, spare, now)
      && (hit.Some? ==>
            Free(s, hit.value, {Key(receiver, s.store[hit.value].threadID)}, SentData(s.store[hit.value], key)))
  }

  ghost predicate UndisputedOpening(w: World, receiver: string, id: string, spare: EmailThread, now: int)
    requires Wf(w.tm)
  {
    CleanupWf(w.tm, now);
    var c := Cleanup(w.tm, now);
    Restorable(w, receiver, id) && Lookup(c, receiver, id) == None ==>
      Free(c, spare, {Key(receiver, id)}, Restored(w.portals[(receiver, id)]))
  }

  /** Filing through cacheThread places the thread under the receiver's key. */
  lemma FiledPlaces(s: State, receiver: string, t: EmailThread, d: ThreadData, now: int)
    requires Wf(s) && d.threadID != ""
    ensures Placed(s, Filed(s.(store := s.store[t := d]), receiver, t, now), t, d.(lastAccessed := now),
                   {Key(receiver, d.threadID)})
  {
    assert Ids(d.(lastAccessed := now)) == Ids(d);
  }

  lemma BelowCap(s: State, receiver: string, t: EmailThread, now: int, victims: set<string>)
    requires Wf(s) && t in s.store && s.store[t].threadID != "" && |s.known| < MAX_CACHED_THREADS
    ensures CacheThread(s, receiver, t, now, victims) == Filed(s, receiver, t, now)
    ensures |Filed(s, receiver, t, now).known| <= |s.known| + 1
  {
    FiledWf(s, receiver, t, now);
    assert Filed(s, receiver, t, now).known == s.known[Key(receiver, s.store[t].threadID) := t];
  }

  /** Putting new contents into an object and caching it. */
  lemma UpdateExact(s: State, receiver: string, t: EmailThread, d: ThreadData, now: int, victims: set<string>)
    requires Exact(s) && |s.known| < MAX_CACHED_THREADS
    requires t in Live(s) ==> Ids(s.store[t]) <= Ids(d)
    requires Free(s, t, {Key(receiver, d.threadID)}, d)
    ensures var r := Install(s, receiver, t, d, now, victims);
            Exact(r) && Live(r) == Live(s) + {t} && |r.known| <= |s.known| + 1
    ensures t in Install(s, receiver, t, d, now, victims).store
    ensures Install(s, receiver, t, d, now, victims).store[t] == d.(lastAccessed := now)
  {
    var u := s.(store := s.store[t := d]);
    BelowCap(u, receiver, t, now, victims);
    FiledPlaces(s, receiver, t, d, now);
    var p := Filed(u, receiver, t, now);
    var e := d.(lastAccessed := now);
    assert Ids(e) == Ids(d);
    PlaceExact(s, p, t, e, {Key(receiver, d.threadID)});
    PlaceLive(s, p, t, e, {Key(receiver, d.threadID)});
  }

  lemma CreatedPlaces(s: State, receiver: string, email: Email, spare: EmailThread, now: int)
    requires Wf(s) && NewThreadID(email) != ""
    ensures spare in Created(s, email, spare, now).store
    ensures Created(s, email, spare, now).store[spare] == NewThreadData(email, now)
    ensures Placed(s, Filed(Created(s, email, spare, now), receiver, spare, now), spare, NewThreadData(email, now),
                   {Key(receiver, NewThreadID(email)), NewThreadID(email)})
  {
    var c := Created(s, email, spare, now);
    assert Placed(s, Filed(c, receiver, spare, now), spare, NewThreadData(email, now).(lastAccessed := now),
                  {Key(receiver, NewThreadID(email)), NewThreadID(email)});
  }

  /** A new thread, which is filed under its bare ID and then under the receiver's key. */
  lemma MakeExact(s: State, receiver: string, email: Email, spare: EmailThread, now: int,
                  v1: set<string>, v2: set<string>)
    requires Exact(s) && spare !in s.store && |s.known| + 2 <= MAX_CACHED_THREADS
    requires Free(s, spare, {Key(receiver, NewThreadID(email)), NewThreadID(email)}, NewThreadData(email, now))
    ensures CreateNewThread(s, email, spare, now, v1) == Created(s, email, spare, now)
    ensures Wf(Created(s, email, spare, now))
    ensures var r := CacheThread(Created(s, email, spare, now), receiver, spare, now, v2);
            Exact(r) && Live(r) == Live(s) + {spare}
  {
    CreatedWf(s, email, spare, now);
    var c := Created(s, email, spare, now);
    var d := NewThreadData(email, now);
    assert |c.known| <= |s.known| + 1;
    BelowCap(c, receiver, spare, now, v2);
    CreatedPlaces(s, receiver, email, spare, now);
    var p := Filed(c, receiver, spare, now);
    var keys := {Key(receiver, NewThreadID(email)), NewThreadID(email)};
    PlaceExact(s, p, spare, d, keys);
    PlaceLive(s, p, spare, d, keys);
  }

  lemma TouchExact(s: State, t: EmailThread, now: int)
    requires Exact(s) && t in s.store
    ensures Exact(Touch(s, t, now))
  {
    var u := Touch(s, t, now);
    assert Ids(s.store[t].(lastAccessed := now)) == Ids(s.store[t]);
    forall id | id in u.index ensures u.index[id] in Live(u) && id in Ids(u.store[u.index[id]]) {
      assert id in Ids(s.store[s.index[id]]);
    }
    forall x, id | x in Live(u) && id in Ids(u.store[x]) ensures id in u.index && u.index[id] == x {
      assert id in Ids(s.store[x]);
    }
  }

  lemma GetExact(s: State, receiver: string, id: string, now: int)
    requires Exact(s)
    ensures var (g, hit) := GetThreadByID(s, receiver, id, now);
            && Exact(g) && |g.known| <= |s.known|
            && (hit.Some? ==> hit.value in Live(g))
            && g.known == Cleanup(s, now).known && g.index == Cleanup(s, now).index
            && hit == Lookup(Cleanup(s, now), receiver, id)
            && (forall t :: t in s.store ==> t in g.store && Ids(g.store[t]) == Ids(s.store[t])
                                             && g.store[t].threadID == s.store[t].threadID)
            && Live(g) <= Live(s)
  {
    CleanupExact(s, now);
    CleanupWf(s, now);
    GetWf(s, receiver, id, now);
    GetCap(s, receiver, id, now);
    var c := Cleanup(s, now);
    var hit := Lookup(c, receiver, id);
    if hit.Some? { TouchExact(c, hit.value, now); }
  }

  lemma DetermineResolved(s: State, e: Event, tid: string)
    requires e.Inbound? && Exact(s) && e.spare !in s.store
    requires !e.email.forwarded && Resolved(e.resolver, Parents(e.email)) == Some(tid)
    ensures var (d, t) := DetermineThread(s, e.receiver, e.email, e.resolver, e.spare, e.now, e.v1);
            var (g, hit) := GetThreadByID(s, e.receiver, tid, e.now);
            && t in d.store
            && d == g.(store := g.store[t := d.store[t]])
            && (t in Live(g) ==> t in g.store && Ids(g.store[t]) <= Ids(d.store[t]))
  {
    GetExact(s, e.receiver, tid, e.now);
    GetWf(s, e.receiver, tid, e.now);
    var (g, hit) := GetThreadByID(s, e.receiver, tid, e.now);
    if hit.Some? {
      AddedIds(g.store[hit.value], e.email);
    } else {
      assert g.store[e.spare := BareThread(tid, e.email.subject)]
                   [e.spare := AddedData(BareThread(tid, e.email.subject), e.email)]
          == g.store[e.spare := AddedData(BareThread(tid, e.email.subject), e.email)];
    }
  }

  lemma ResolvedExact(s: State, e: Event, tid: string)
    requires e.Inbound? && Exact(s) && e.spare !in s.store && |s.known| < MAX_CACHED_THREADS
    requires !e.email.forwarded && Resolved(e.resolver, Parents(e.email)) == Some(tid)
    requires (DetermineWf(s, e.receiver, e.email, e.resolver, e.spare, e.now, e.v1);
              var (d, t) := DetermineThread(s, e.receiver, e.email, e.resolver, e.spare, e.now, e.v1);
              CleanupWf(s, e.now); Free(Cleanup(s, e.now), t, {Key(e.receiver, d.store[t].threadID)}, d.store[t]))
    ensures Exact(Receive(s, e).0) && Receive(s, e).1 in Live(Receive(s, e).0)
  {
    DetermineResolved(s, e, tid);
    var (d, t) := DetermineThread(s, e.receiver, e.email, e.resolver, e.spare, e.now, e.v1);
    GetExact(s, e.receiver, tid, e.now);
    UpdateExact(GetThreadByID(s, e.receiver, tid, e.now).0, e.receiver, t, d.store[t], e.now, e.v2);
  }

  lemma MatchedExact(s: State, e: Event)
    requires e.Inbound? && Exact(s) && |s.known| < MAX_CACHED_THREADS
    requires !e.email.forwarded && Resolved(e.resolver, Parents(e.email)) == None
    requires Match(s, e.receiver, e.email).Some?
    requires (DetermineWf(s, e.receiver, e.email, e.resolver, e.spare, e.now, e.v1);
              var (d, t) := DetermineThread(s, e.receiver, e.email, e.resolver, e.spare, e.now, e.v1);
              Free(s, t, {Key(e.receiver, d.store[t].threadID)}, d.store[t]))
    ensures Exact(Receive(s, e).0) && Receive(s, e).1 in Live(Receive(s, e).0)
  {
    DetermineWf(s, e.receiver, e.email, e.resolver, e.spare, e.now, e.v1);
    var (d, t) := DetermineThread(s, e.receiver, e.email, e.resolver, e.spare, e.now, e.v1);
    MatchWf(s, e.receiver, e.email);
    AddedIds(s.store[t], e.email);
    UpdateExact(s, e.receiver, t, d.store[t], e.now, e.v2);
    assert d == s.(store := s.store[t := d.store[t]]);
  }

  lemma ReceiveExact(w: World, e: Event)
    requires e.Inbound? && ExactWorld(w) && Legal(w, e) && Roomy(w) && Undisputed(w, e)
    ensures Exact(Receive(w.tm, e).0)
    ensures Receive(w.tm, e).1 in Live(Receive(w.tm, e).0)
  {
    CleanupWf(w.tm, e.now);
    DetermineWf(w.tm, e.receiver, e.email, e.resolver, e.spare, e.now, e.v1);
    var tid := Resolved(e.resolver, Parents(e.email));
    if DetermineMakes(w.tm, e.receiver, e.email, e.resolver) {
      MakesCreates(w.tm, e.receiver, e.email, e.resolver, e.spare, e.now, e.v1);
      BoundedWf(Created(w.tm, e.email, e.spare, e.now), e.v1);
      MakeExact(w.tm, e.receiver, e.email, e.spare, e.now, e.v1, e.v2);
    } else if tid.Some? {
      ResolvedExact(w.tm, e, tid.value);
    } else {
      MatchedExact(w.tm, e);
    }
  }

  lemma OpenExact(w: World, receiver: string, id: string, spare: EmailThread, now: int, victims: set<string>)
    requires ExactWorld(w) && spare !in w.tm.store && Roomy(w) && UndisputedOpening(w, receiver, id, spare, now)
    ensures var (s, hit) := OpenPortal(w, receiver, id, spare, now, victims);
            && Exact(s) && |s.known| < MAX_CACHED_THREADS
            && (hit.Some? ==> hit.value in Live(s))
  {
    GetExact(w.tm, receiver, id, now);
    GetWf(w.tm, receiver, id, now);
    var (g, hit) := GetThreadByID(w.tm, receiver, id, now);
    if id != "" && hit == None && Restorable(w, receiver, id) {
      UpdateExact(g, receiver, spare, Restored(w.portals[(receiver, id)]), now, victims);
    }
  }

  lemma StepExact(w: World, e: Event)
    requires ExactWorld(w) && Legal(w, e) && Roomy(w) && Undisputed(w, e)
    ensures ExactWorld(Step(w, e))
  {
    StepSound(w, e);
    match e
    case Inbound(_, _, _, _, _, _, _) => ReceiveExact(w, e);
    case Compose(receiver, id, subject, spare, now, v1) =>
      UpdateExact(w.tm, receiver, spare, DraftData(id, subject), now, v1);
    case Open(receiver, id, spare, now, v1) =>
      OpenExact(w, receiver, id, spare, now, v1);
    case Find(receiver, id, now) => GetExact(w.tm, receiver, id, now);
    case Send(receiver, id, key, spare, now, v1, v2) =>
      OpenExact(w, receiver, id, spare, now, v1);
      OpenWf(w, receiver, id, spare, now, v1);
      OpenSound(w, receiver, id, spare, now, v1);
      var (s, hit) := OpenPortal(w, receiver, id, spare, now, v1);
      if hit.Some? {
        SentIds(s.store[hit.value], key);
        UpdateExact(s, receiver, hit.value, SentData(s.store[hit.value], key), now, v2);
      }
  }

  /** A run in which nothing disputes another thread's IDs and the cache stays below its cap. */
  ghost predicate QuietRun(w: World, es: seq<Event>)
    requires Wf(w.tm)
    decreases |es|
  {
    es == [] || (&& Legal(w, es[0]) && Roomy(w) && Undisputed(w, es[0])
                 && (StepWf(w, es[0]); QuietRun(Step(w, es[0]), es[1..])))
  }

  /** Over every such run the index stays exact, with lookups, expiries, sends and restores in between. */
  lemma {:induction false} RunExact(w: World, es: seq<Event>)
    requires ExactWorld(w) && QuietRun(w, es)
    ensures ExactWorld(Run(w, es))
    decreases |es|
  {
    if es != [] {
      StepWf(w, es[0]);
      StepExact(w, es[0]);
      RunExact(Step(w, es[0]), es[1..]);
    }
  }
}
