/** Which emails keep the index exact, and what a forwarded email does to it. */
module ThreadDisputes {
  import opened Wrappers
  import opened ThreadState
  import opened ThreadRuns
  import opened ThreadExact
  import opened ThreadKeys

  // ---- Which emails are undisputed -----------------------------------------------------------------

  lemma {:induction false} NoneIndexed(s: State, ids: seq<string>)
    requires FirstIndexed(s, ids) == None
    ensures forall id :: id in ids ==> id !in s.index
  {
    if ids != [] { NoneIndexed(s, ids[1..]); }
  }

  /** For a plain email that joins a thread, only its Message-ID can be disputed; for one that starts a
      thread, only the new thread's own ID can be, since its References were just found to be unknown. */
  lemma PlainEmailIsUndisputed(w: World, e: Event)
    requires ExactWorld(w) && Legal(w, e) && e.Inbound? && !e.email.forwarded
    requires Resolved(e.resolver, Parents(e.email)) == None && NewThreadID(e.email) != ""
    ensures var m := Match(w.tm, e.receiver, e.email);
            && (m == None ==>
                  (Undisputed(w, e) <==>
                     && KeysFree(w.tm, e.spare, {Key(e.receiver, NewThreadID(e.email)), NewThreadID(e.email)})
                     && NewThreadID(e.email) !in w.tm.index))
            && (m.Some? ==>
                  && m.value in Live(w.tm)
                  && (Undisputed(w, e) <==>
                        && KeysFree(w.tm, m.value, {Key(e.receiver, w.tm.store[m.value].threadID)})
                        && (e.email.messageID in w.tm.index ==> w.tm.index[e.email.messageID] == m.value)))
  {
    var s, email := w.tm, e.email;
    MatchIsLive(s, e.receiver, email);
    MatchWf(s, e.receiver, email);
    var m := Match(s, e.receiver, email);
    if m.Some? {
      var d := s.store[m.value];
      AddedIds(d, email);
      assert IdsFree(s, m.value, Ids(d));
      assert "" !in s.index;
    } else {
      NewIsUndisputed(w, e);
    }
  }

  lemma NewIsUndisputed(w: World, e: Event)
    requires ExactWorld(w) && Legal(w, e) && e.Inbound? && !e.email.forwarded
    requires Resolved(e.resolver, Parents(e.email)) == None && NewThreadID(e.email) != ""
    requires Match(w.tm, e.receiver, e.email) == None
    ensures Undisputed(w, e) <==>
              && KeysFree(w.tm, e.spare, {Key(e.receiver, NewThreadID(e.email)), NewThreadID(e.email)})
              && NewThreadID(e.email) !in w.tm.index
  {
    var s, email, id := w.tm, e.email, NewThreadID(e.email);
    NoneIndexed(s, Parents(email));
    MakesCreates(s, e.receiver, email, e.resolver, e.spare, e.now, e.v1);
    CreatedWf(s, email, e.spare, e.now);
    BoundedWf(Created(s, email, e.spare, e.now), e.v1);
    var d := NewThreadData(email, e.now);
    assert DetermineThread(s, e.receiver, email, e.resolver, e.spare, e.now, e.v1).0.store[e.spare] == d;
    assert id in Ids(d);
    forall r | r in d.references ensures r !in s.index { assert r in Parents(email); }
    if id in s.index {
      assert s.index[id] in Live(s) && s.index[id] != e.spare;
      assert !IdsFree(s, e.spare, Ids(d));
    } else {
      assert IdsFree(s, e.spare, Ids(d));
    }
  }

  lemma MatchIsLive(s: State, receiver: string, email: Email)
    requires Exact(s)
    ensures Match(s, receiver, email).Some? ==> Match(s, receiver, email).value in Live(s)
  {
    IndexIsScan(s, Parents(email));
    ScanIsLive(s, Parents(email));
    if ByGmail(s, receiver, email.gmailThreadID).Some? {
      assert s.gmail[Key(receiver, email.gmailThreadID)] in s.gmail.Values;
    }
  }

  /** A forwarded email always starts a thread, but it keeps its References. The index stays exact if and
      only if those, and its own ID, are unknown to the cache. */
  lemma ForwardExact(w: World, e: Event)
    requires ExactWorld(w) && Legal(w, e) && Roomy(w) && e.Inbound? && e.email.forwarded
    requires NewThreadID(e.email) != ""
    requires KeysFree(w.tm, e.spare, {Key(e.receiver, NewThreadID(e.email)), NewThreadID(e.email)})
    ensures Exact(Receive(w.tm, e).0) <==> forall id :: id in Ids(NewThreadData(e.email, e.now)) ==> id !in w.tm.index
  {
    var s := w.tm;
    CreatedPlaces(s, e.receiver, e.email, e.spare, e.now);
    CreatedWf(s, e.email, e.spare, e.now);
    var c := Created(s, e.email, e.spare, e.now);
    assert |c.known| <= |s.known| + 1;
    BelowCap(c, e.receiver, e.spare, e.now, e.v2);
    PlaceExact(s, Filed(c, e.receiver, e.spare, e.now), e.spare, NewThreadData(e.email, e.now),
               {Key(e.receiver, NewThreadID(e.email)), NewThreadID(e.email)});
    forall id | id in s.index ensures s.index[id] != e.spare { assert s.index[id] in Live(s); }
  }

  lemma ForwardFiles(w: World, e: Event)
    requires ExactWorld(w) && Legal(w, e) && Roomy(w) && e.Inbound? && e.email.forwarded && NewThreadID(e.email) != ""
    ensures Step(w, e).tm == Filed(Created(w.tm, e.email, e.spare, e.now), e.receiver, e.spare, e.now)
    ensures Placed(w.tm, Step(w, e).tm, e.spare, NewThreadData(e.email, e.now),
                   {Key(e.receiver, NewThreadID(e.email)), NewThreadID(e.email)})
  {
    CreatedPlaces(w.tm, e.receiver, e.email, e.spare, e.now);
    CreatedWf(w.tm, e.email, e.spare, e.now);
    var c := Created(w.tm, e.email, e.spare, e.now);
    assert |c.known| <= |w.tm.known| + 1;
    BelowCap(c, e.receiver, e.spare, e.now, e.v2);
  }

  /** Otherwise the forward captures the conversation: whatever thread held a message the forward refers
      to, the next reply to that message lands in the forward's thread. */
  lemma ForwardCapturesReplies(w: World, e: Event, k: string, reply: Email, t: EmailThread,
                               spare: EmailThread, now: int, victims: set<string>)
    requires ExactWorld(w) && Legal(w, e) && Roomy(w) && e.Inbound? && e.email.forwarded
    requires NewThreadID(e.email) != "" && k != "" && k in e.email.references
    requires t in Live(w.tm) && k in Ids(w.tm.store[t])
    requires !reply.forwarded && reply.inReplyTo == k
    ensures (StepWf(w, e);
             DetermineThread(Step(w, e).tm, e.receiver, reply, map[], spare, now, victims).1 == e.spare)
    ensures e.spare != t
  {
    ForwardFiles(w, e);
    StepWf(w, e);
    var p := Step(w, e).tm;
    assert k in Ids(NewThreadData(e.email, e.now));
    assert k in p.index && p.index[k] == e.spare;
    NothingResolved(Parents(reply));
    assert Parents(reply)[0] == k;
    MatchWf(p, e.receiver, reply);
  }

  lemma {:induction false} NothingResolved(ids: seq<string>)
    ensures Resolved(map[], ids) == None
  {
    if ids != [] { NothingResolved(ids[1..]); }
  }

  // ---- IDs without a bar -----------------------------------------------------------------------------

  /** No cached thread has an ID with a bar in it, the character that joins receiver and ID in a key. */
  ghost predicate Barless(s: State)
    requires Wf(s)
  {
    forall u :: u in Live(s) ==> '|' !in s.store[u].threadID
  }

  /** Then a key made of a free ID is free. */
  lemma KeysFollow(s: State, t: EmailThread, receiver: string, id: string)
    requires Exact(s) && Keyed(s) && Barless(s) && '|' !in id
    requires id in s.index ==> s.index[id] == t
    ensures KeysFree(s, t, {Key(receiver, id), id})
  {
    forall k | k in {Key(receiver, id), id} && k in s.known ensures s.known[k] == t {
      assert s.known[k] in Live(s);
      KeyNamesThread(s, k, receiver, id);
      assert id in Ids(s.store[s.known[k]]) && id in s.index;
    }
  }

  /** So a plain email is undisputed exactly if its ID is unknown, or already that of the thread it joins. */
  lemma PlainEmailById(w: World, e: Event)
    requires ExactWorld(w) && Keyed(w.tm) && Barless(w.tm) && Legal(w, e) && e.Inbound? && !e.email.forwarded
    requires Resolved(e.resolver, Parents(e.email)) == None
    requires NewThreadID(e.email) != "" && '|' !in NewThreadID(e.email)
    ensures var m := Match(w.tm, e.receiver, e.email);
            && (m == None ==> (Undisputed(w, e) <==> NewThreadID(e.email) !in w.tm.index))
            && (m.Some? ==> (Undisputed(w, e) <==>
                               (e.email.messageID in w.tm.index ==> w.tm.index[e.email.messageID] == m.value)))
  {
    PlainEmailIsUndisputed(w, e);
    var m := Match(w.tm, e.receiver, e.email);
    if m.Some? {
      var id := w.tm.store[m.value].threadID;
      assert id in Ids(w.tm.store[m.value]);
      KeysFollow(w.tm, m.value, e.receiver, id);
    } else if NewThreadID(e.email) !in w.tm.index {
      KeysFollow(w.tm, e.spare, e.receiver, NewThreadID(e.email));
    }
  }

  lemma SpareHasNothing(s: State, spare: EmailThread, ids: set<string>)
    requires Exact(s) && spare !in s.store
    ensures IdsFree(s, spare, ids) <==> forall id :: id in ids ==> id !in s.index
  {
    forall id | id in s.index ensures s.index[id] != spare { assert s.index[id] in Live(s); }
  }

  lemma ComposeById(w: World, e: Event)
    requires ExactWorld(w) && Keyed(w.tm) && Barless(w.tm) && Legal(w, e) && e.Compose? && '|' !in e.id
    ensures Undisputed(w, e) <==> e.id != "" && e.id !in w.tm.index
  {
    SpareHasNothing(w.tm, e.spare, Ids(DraftData(e.id, e.subject)));
    if e.id != "" {
      assert e.id in Ids(DraftData(e.id, e.subject));
      if e.id !in w.tm.index { KeysFollow(w.tm, e.spare, e.receiver, e.id); }
    }
  }

  /** Opening a room is undisputed exactly if no ID that its metadata would restore is known. */
  lemma OpenById(w: World, e: Event)
    requires ExactWorld(w) && Keyed(w.tm) && Barless(w.tm) && Legal(w, e) && e.Open? && '|' !in e.id
    ensures (CleanupWf(w.tm, e.now); var c := Cleanup(w.tm, e.now);
             Undisputed(w, e) <==>
             (Restorable(w, e.receiver, e.id) && Lookup(c, e.receiver, e.id) == None ==>
                forall id :: id in Ids(Restored(w.portals[(e.receiver, e.id)])) ==> id !in c.index))
  {
    CleanupWf(w.tm, e.now);
    CleanupExact(w.tm, e.now);
    CleanupKeyed(w.tm, e.now);
    var c := Cleanup(w.tm, e.now);
    assert Barless(c);
    if Restorable(w, e.receiver, e.id) {
      var d := Restored(w.portals[(e.receiver, e.id)]);
      SpareHasNothing(c, e.spare, Ids(d));
      assert e.id in Ids(d);
      if e.id !in c.index { KeysFollow(c, e.spare, e.receiver, e.id); }
    }
  }

  lemma SentIsFree(s: State, t: EmailThread, receiver: string, key: string)
    requires Exact(s) && Keyed(s) && Barless(s) && t in Live(s) && TailKept(s.store[t])
    ensures var d := s.store[t];
            Free(s, t, {Key(receiver, d.threadID)}, SentData(d, key)) <==> (key in s.index ==> s.index[key] == t)
  {
    var d := s.store[t];
    SentIds(d, key);
    assert d.threadID in Ids(d) && s.index[d.threadID] == t;
    KeysFollow(s, t, receiver, d.threadID);
    assert IdsFree(s, t, Ids(d));
    assert "" !in s.index;
  }

  /** A send is undisputed, once its room is open, exactly if its key is new or already its thread's. */
  lemma SendById(w: World, e: Event)
    requires ExactWorld(w) && Keyed(w.tm) && Legal(w, e) && Roomy(w) && e.Send?
    requires UndisputedOpening(w, e.receiver, e.id, e.spare, e.now)
    requires var (s, hit) := OpenPortal(w, e.receiver, e.id, e.spare, e.now, e.v1); Wf(s) && Barless(s) && hit.Some?
    ensures var (s, hit) := OpenPortal(w, e.receiver, e.id, e.spare, e.now, e.v1);
            Undisputed(w, e) <==> (e.key in s.index ==> s.index[e.key] == hit.value)
  {
    OpenExact(w, e.receiver, e.id, e.spare, e.now, e.v1);
    OpenSound(w, e.receiver, e.id, e.spare, e.now, e.v1);
    OpenKeyed(w, e.receiver, e.id, e.spare, e.now, e.v1);
    var (s, hit) := OpenPortal(w, e.receiver, e.id, e.spare, e.now, e.v1);
    SentIsFree(s, hit.value, e.receiver, e.key);
    SendUndisputed(w, e, s, hit.value);
  }

  lemma SendUndisputed(w: World, e: Event, s: State, t: EmailThread)
    requires Wf(w.tm) && e.Send? && OpenPortal(w, e.receiver, e.id, e.spare, e.now, e.v1) == (s, Some(t))
    requires t in s.store && UndisputedOpening(w, e.receiver, e.id, e.spare, e.now)
    ensures Undisputed(w, e) <==> Free(s, t, {Key(e.receiver, s.store[t].threadID)}, SentData(s.store[t], e.key))
  {
    OpenWf(w, e.receiver, e.id, e.spare, e.now, e.v1);
  }
}
