/** The keys of the thread cache: what they say about the thread they lead to, over every run. */
module ThreadKeys {
  import opened Wrappers
  import opened ThreadState
  import opened ThreadRuns

  /** A cached thread has an ID, and its keys are that ID, bare or behind a receiver. */
  ghost predicate IsKeyOf(k: string, d: ThreadData) {
    d.threadID != "" && (k == d.threadID || exists receiver :: k == Key(receiver, d.threadID))
  }

  ghost predicate Keyed(s: State)
    requires Wf(s)
  {
    forall k :: k in s.known ==> s.known[k] in s.store && IsKeyOf(k, s.store[s.known[k]])
  }

  lemma RemoveKeysKeyed(s: State, keys: set<string>)
    requires Wf(s) && Keyed(s)
    ensures Wf(RemoveKeys(s, keys)) && Keyed(RemoveKeys(s, keys))
  {
    RemoveKeysWf(s, keys);
  }

  lemma CleanupKeyed(s: State, now: int)
    requires Wf(s) && Keyed(s)
    ensures Wf(Cleanup(s, now)) && Keyed(Cleanup(s, now))
  {
    if now - s.lastCleanup >= HOUR { RemoveKeysKeyed(s.(lastCleanup := now), Expired(s, now)); }
  }

  /** New contents for an object that is not cached, or with the same thread ID. */
  lemma UpdateKeyed(s: State, t: EmailThread, d: ThreadData)
    requires Wf(s) && Keyed(s)
    requires t in s.store ==> d.threadID == s.store[t].threadID
    ensures Wf(s.(store := s.store[t := d])) && Keyed(s.(store := s.store[t := d]))
  {
    var u := s.(store := s.store[t := d]);
    forall k | k in u.known ensures u.known[k] in u.store && IsKeyOf(k, u.store[u.known[k]]) {
      assert IsKeyOf(k, s.store[s.known[k]]);
    }
  }

  lemma FiledKeyed(s: State, receiver: string, t: EmailThread, now: int)
    requires Wf(s) && Keyed(s) && t in s.store && s.store[t].threadID != ""
    ensures Wf(Filed(s, receiver, t, now)) && Keyed(Filed(s, receiver, t, now))
  {
    FiledWf(s, receiver, t, now);
    var f := Filed(s, receiver, t, now);
    var key := Key(receiver, s.store[t].threadID);
    forall k | k in f.known ensures f.known[k] in f.store && IsKeyOf(k, f.store[f.known[k]]) {
      assert k == key ==> f.known[k] == t && IsKeyOf(k, f.store[t]);
      if k != key { assert IsKeyOf(k, s.store[s.known[k]]); }
    }
  }

  lemma CacheKeyed(s: State, receiver: string, t: EmailThread, now: int, victims: set<string>)
    requires Wf(s) && Keyed(s) && t in s.store
    ensures Wf(CacheThread(s, receiver, t, now, victims)) && Keyed(CacheThread(s, receiver, t, now, victims))
  {
    if s.store[t].threadID != "" {
      FiledKeyed(s, receiver, t, now);
      RemoveKeysKeyed(Filed(s, receiver, t, now), victims);
    }
  }

  lemma InstallKeyed(s: State, receiver: string, spare: EmailThread, d: ThreadData, now: int, victims: set<string>)
    requires Wf(s) && Keyed(s) && spare !in s.store
    ensures Wf(Install(s, receiver, spare, d, now, victims)) && Keyed(Install(s, receiver, spare, d, now, victims))
  {
    UpdateKeyed(s, spare, d);
    CacheKeyed(s.(store := s.store[spare := d]), receiver, spare, now, victims);
  }

  lemma GetKeyed(s: State, receiver: string, id: string, now: int)
    requires Wf(s) && Keyed(s)
    ensures Wf(GetThreadByID(s, receiver, id, now).0) && Keyed(GetThreadByID(s, receiver, id, now).0)
  {
    GetWf(s, receiver, id, now);
    CleanupKeyed(s, now);
    var c := Cleanup(s, now);
    var hit := Lookup(c, receiver, id);
    if hit.Some? { UpdateKeyed(c, hit.value, c.store[hit.value].(lastAccessed := now)); }
  }

  lemma CreateKeyed(s: State, email: Email, spare: EmailThread, now: int, victims: set<string>)
    requires Wf(s) && Keyed(s) && spare !in s.store && NewThreadID(email) != ""
    ensures Wf(CreateNewThread(s, email, spare, now, victims)) && Keyed(CreateNewThread(s, email, spare, now, victims))
  {
    CreatedWf(s, email, spare, now);
    UpdateKeyed(s, spare, NewThreadData(email, now));
    RemoveKeysKeyed(Created(s, email, spare, now), victims);
  }

  lemma DetermineKeyed(s: State, receiver: string, email: Email, resolver: map<string, string>,
                       spare: EmailThread, now: int, victims: set<string>)
    requires Wf(s) && Keyed(s) && spare !in s.store && NewThreadID(email) != ""
    ensures var d := DetermineThread(s, receiver, email, resolver, spare, now, victims).0; Wf(d) && Keyed(d)
  {
    CreateKeyed(s, email, spare, now, victims);
    var tid := Resolved(resolver, Parents(email));
    if email.forwarded {
    } else if tid.Some? {
      GetKeyed(s, receiver, tid.value, now);
      GetWf(s, receiver, tid.value, now);
      var (g, hit) := GetThreadByID(s, receiver, tid.value, now);
      if hit.Some? {
        UpdateKeyed(g, hit.value, AddedData(g.store[hit.value], email));
      } else {
        var bare := BareThread(tid.value, email.subject);
        UpdateKeyed(g, spare, bare);
        UpdateKeyed(g.(store := g.store[spare := bare]), spare, AddedData(bare, email));
      }
    } else {
      MatchWf(s, receiver, email);
      var m := Match(s, receiver, email);
      if m.Some? { UpdateKeyed(s, m.value, AddedData(s.store[m.value], email)); }
    }
  }

  lemma OpenKeyed(w: World, receiver: string, id: string, spare: EmailThread, now: int, victims: set<string>)
    requires Wf(w.tm) && Keyed(w.tm) && spare !in w.tm.store
    ensures var s := OpenPortal(w, receiver, id, spare, now, victims).0; Wf(s) && Keyed(s)
  {
    GetKeyed(w.tm, receiver, id, now);
    GetWf(w.tm, receiver, id, now);
    var (g, hit) := GetThreadByID(w.tm, receiver, id, now);
    if hit == None && Restorable(w, receiver, id) {
      InstallKeyed(g, receiver, spare, Restored(w.portals[(receiver, id)]), now, victims);
    }
  }

  lemma ReceiveKeyed(w: World, e: Event)
    requires Wf(w.tm) && Keyed(w.tm) && Legal(w, e) && e.Inbound?
    ensures Wf(Step(w, e).tm) && Keyed(Step(w, e).tm)
  {
    DetermineKeyed(w.tm, e.receiver, e.email, e.resolver, e.spare, e.now, e.v1);
    DetermineWf(w.tm, e.receiver, e.email, e.resolver, e.spare, e.now, e.v1);
    var (d, t) := DetermineThread(w.tm, e.receiver, e.email, e.resolver, e.spare, e.now, e.v1);
    CacheKeyed(d, e.receiver, t, e.now, e.v2);
  }

  lemma SendKeyed(w: World, e: Event)
    requires Wf(w.tm) && Keyed(w.tm) && Legal(w, e) && e.Send?
    ensures Wf(Step(w, e).tm) && Keyed(Step(w, e).tm)
  {
    OpenKeyed(w, e.receiver, e.id, e.spare, e.now, e.v1);
    OpenWf(w, e.receiver, e.id, e.spare, e.now, e.v1);
    var (s, hit) := OpenPortal(w, e.receiver, e.id, e.spare, e.now, e.v1);
    if hit.Some? {
      UpdateKeyed(s, hit.value, SentData(s.store[hit.value], e.key));
      CacheKeyed(Sent(s, hit.value, e.key), e.receiver, hit.value, e.now, e.v2);
    }
  }

  lemma StepKeyed(w: World, e: Event)
    requires Wf(w.tm) && Keyed(w.tm) && Legal(w, e)
    ensures Wf(Step(w, e).tm) && Keyed(Step(w, e).tm)
  {
    match e
    case Inbound(_, _, _, _, _, _, _) => ReceiveKeyed(w, e);
    case Compose(receiver, id, subject, spare, now, v1) =>
      InstallKeyed(w.tm, receiver, spare, DraftData(id, subject), now, v1);
    case Open(receiver, id, spare, now, v1) => OpenKeyed(w, receiver, id, spare, now, v1);
    case Find(receiver, id, now) => GetKeyed(w.tm, receiver, id, now);
    case Send(_, _, _, _, _, _, _) => SendKeyed(w, e);
  }

  /** Over every run each key of the cache is its thread's ID, bare or behind a receiver. */
  lemma {:induction false} RunKeyed(w: World, es: seq<Event>)
    requires Wf(w.tm) && Keyed(w.tm) && LegalRun(w, es)
    ensures Keyed(Run(w, es).tm)
    decreases |es|
  {
    if es != [] {
      StepWf(w, es[0]);
      StepKeyed(w, es[0]);
      RunKeyed(Step(w, es[0]), es[1..]);
    }
  }

  // ---- IDs without a bar -----------------------------------------------------------------------------

  /** Without a bar in the ID, a key determines it. */
  lemma KeyDetermines(r: string, id: string, q: string, other: string)
    requires '|' !in id && '|' !in other
    ensures Key(r, id) == Key(q, other) ==> r == q && id == other
    ensures Key(r, id) != other
  {
    var k := Key(r, id);
    assert k[|r|] == '|' && '|' in k;
    assert forall i :: |r| < i < |k| ==> k[i] == id[i - |r| - 1] && k[i] != '|';
    if k == Key(q, other) {
      assert k[|q|] == '|';
      assert forall i :: |q| < i < |k| ==> k[i] == other[i - |q| - 1] && k[i] != '|';
      assert k[..|r|] == r && k[..|q|] == q;
      assert k[|r| + 1..] == id && k[|q| + 1..] == other;
    }
  }

  /** So a cached thread under a key made of `id` has the ID `id`. */
  lemma KeyNamesThread(s: State, k: string, receiver: string, id: string)
    requires Wf(s) && Keyed(s) && k in s.known && (k == id || k == Key(receiver, id))
    requires '|' !in id && s.known[k] in s.store && '|' !in s.store[s.known[k]].threadID
    ensures s.store[s.known[k]].threadID == id
  {
    var other := s.store[s.known[k]].threadID;
    assert IsKeyOf(k, s.store[s.known[k]]);
    KeyDetermines(receiver, id, receiver, other);
    if k != other {
      var q :| k == Key(q, other);
      KeyDetermines(q, other, receiver, id);
    }
  }
}
