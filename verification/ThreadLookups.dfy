/** What an email or a room is led to: by its receiver's key, by the resolver, or by its Gmail conversation. */
module ThreadLookups {
  import opened Wrappers
  import opened ThreadState
  import opened ThreadRuns
  import opened ThreadKeys
  import opened ThreadOwnership
  import opened ThreadConversations

  // ---- A receiver's own thread ---------------------------------------------------------------------------

  /** What a receiver files under an ID is what it finds there, also if another thread has the bare ID; and
      whoever looks under other keys finds what it found before. */
  lemma ReceiverFindsItsOwn(s: State, receiver: string, t: EmailThread, now: int, other: string, id: string)
    requires t in s.store && s.store[t].threadID != ""
    ensures Lookup(Filed(s, receiver, t, now), receiver, s.store[t].threadID) == Some(t)
    ensures Key(receiver, s.store[t].threadID) !in {Key(other, id), id} ==>
              Lookup(Filed(s, receiver, t, now), other, id) == Lookup(s, other, id)
  {
  }

  /** Without bars in the IDs these are all other receivers. */
  lemma ReceiversAreApart(s: State, receiver: string, t: EmailThread, now: int, other: string, id: string)
    requires t in s.store && s.store[t].threadID != "" && other != receiver
    requires '|' !in s.store[t].threadID && '|' !in id
    ensures Lookup(Filed(s, receiver, t, now), other, id) == Lookup(s, other, id)
  {
    KeyDetermines(receiver, s.store[t].threadID, other, id);
  }

  // ---- What a thread takes up ----------------------------------------------------------------------------

  /** An email that joins a thread is the last of its References unless it was among them; nothing is forgotten,
      nothing is listed twice, and only a Gmail ID that the email names replaces the thread's own. */
  lemma JoiningAdds(d: ThreadData, email: Email)
    ensures var a := AddedData(d, email);
            && d.references <= a.references && |a.references| <= |d.references| + 1
            && (email.messageID != "" ==> email.messageID in a.references)
            && (|a.references| > |d.references| ==>
                  email.messageID !in d.references && a.references[|d.references|] == email.messageID != "")
            && a.gmailThreadID == (if email.gmailThreadID != "" then email.gmailThreadID else d.gmailThreadID)
            && a == d.(references := a.references, gmailThreadID := a.gmailThreadID)
  {
  }

  /** Saving and restoring a thread loses nothing but what it was a reply to and when it was used. */
  lemma SavedIsRestored(d: ThreadData)
    ensures Restored(Saved(d)) == d.(inReplyTo := "", lastAccessed := 0)
  {
  }

  // ---- The resolver ----------------------------------------------------------------------------------------

  /** The resolver's answer is the one to the first of the IDs it has an answer to. */
  lemma {:induction false} ResolvedIff(resolver: map<string, string>, ids: seq<string>, tid: string)
    ensures Resolved(resolver, ids) == Some(tid)
            <==> exists i :: 0 <= i < |ids| && ids[i] in resolver && resolver[ids[i]] == tid != ""
                             && forall j :: 0 <= j < i ==> ids[j] in resolver ==> resolver[ids[j]] == ""
    ensures Resolved(resolver, ids) == None
            <==> forall i :: 0 <= i < |ids| && ids[i] in resolver ==> resolver[ids[i]] == ""
  {
    if ids != [] {
      var rest := ids[1..];
      ResolvedIff(resolver, rest, tid);
      assert forall i :: 1 <= i < |ids| ==> ids[i] == rest[i - 1];
      if ids[0] in resolver && resolver[ids[0]] != "" {
        assert Resolved(resolver, ids) == Some(resolver[ids[0]]);
      } else if Resolved(resolver, rest) == Some(tid) {
        var i :| 0 <= i < |rest| && rest[i] in resolver && resolver[rest[i]] == tid != ""
                 && forall j :: 0 <= j < i ==> rest[j] in resolver ==> resolver[rest[j]] == "";
        assert ids[i + 1] == rest[i];
        forall j | 0 <= j < i + 1 && ids[j] in resolver ensures resolver[ids[j]] == "" {
          if j > 0 { assert ids[j] == rest[j - 1]; }
        }
      } else if i :| 0 <= i < |ids| && ids[i] in resolver && resolver[ids[i]] == tid != ""
                     && forall j :: 0 <= j < i ==> ids[j] in resolver ==> resolver[ids[j]] == "" {
        assert i > 0 && rest[i - 1] == ids[i];
        forall j | 0 <= j < i - 1 && rest[j] in resolver ensures resolver[rest[j]] == "" {
          assert ids[j + 1] == rest[j];
        }
      }
    }
  }

  /** A resolver hit decides: the email joins the thread cached under that ID after a clean-up, the receiver's
      before the bare one, and else a new one with that ID, whatever the tables say about the email's parents
      and Gmail conversation. */
  lemma ResolverDecides(s: State, e: Event, tid: string)
    requires Wf(s) && e.Inbound? && !e.email.forwarded && Resolved(e.resolver, Parents(e.email)) == Some(tid)
    requires e.spare !in s.store
    ensures (CleanupWf(s, e.now);
             var (d, t) := DetermineThread(s, e.receiver, e.email, e.resolver, e.spare, e.now, e.v1);
             var c := Cleanup(s, e.now); var key := Key(e.receiver, tid);
             && t in d.store
             && (key in c.known ==> t == c.known[key])
             && (key !in c.known && tid in c.known ==> t == c.known[tid])
             && (key !in c.known && tid !in c.known ==> t == e.spare && d.store[t].threadID == tid)
             && d.known == c.known)
  {
    CleanupWf(s, e.now);
    GetWf(s, e.receiver, tid, e.now);
  }

  /** So the email goes to the room of the thread that the resolver names. */
  lemma ResolverNamesRoom(w: World, e: Event, tid: string)
    requires SoundWorld(w) && Keyed(w.tm) && Legal(w, e) && e.Inbound? && !e.email.forwarded
    requires Resolved(e.resolver, Parents(e.email)) == Some(tid)
    requires '|' !in tid && forall t :: t in Live(w.tm) ==> '|' !in w.tm.store[t].threadID
    ensures PortalOf(w, e) == tid
  {
    CleanupWf(w.tm, e.now);
    CleanupKeyed(w.tm, e.now);
    ResolverDecides(w.tm, e, tid);
    var (d, t) := DetermineThread(w.tm, e.receiver, e.email, e.resolver, e.spare, e.now, e.v1);
    var c := Cleanup(w.tm, e.now);
    var key := Key(e.receiver, tid);
    if key in c.known || tid in c.known {
      var k := if key in c.known then key else tid;
      assert c.known[k] == t && t in Live(c);
      KeyNamesThread(c, k, e.receiver, tid);
      DetermineGrows(w.tm, e.receiver, e.email, e.resolver, e.spare, e.now, e.v1, t);
    }
    DetermineWf(w.tm, e.receiver, e.email, e.resolver, e.spare, e.now, e.v1);
    CacheGrows(d, e.receiver, t, e.now, e.v2, t);
  }

  // ---- Gmail conversations ---------------------------------------------------------------------------------

  /** The receiver's Gmail conversation leads to this thread. */
  predicate Leads(s: State, k: string, t: EmailThread) {
    k in s.gmail && s.gmail[k] == t
  }

  lemma RemoveKeysLeads(s: State, keys: set<string>, k: string, t: EmailThread)
    requires Wf(s)
    ensures Leads(RemoveKeys(s, keys), k, t) <==> Leads(s, k, t) && t !in At(s, keys)
  {
  }

  lemma CleanupLeads(s: State, now: int, k: string, t: EmailThread)
    requires Wf(s)
    ensures Leads(Cleanup(s, now), k, t) <==> Leads(s, k, t) && t !in Expiring(s, now)
  {
    if now - s.lastCleanup >= HOUR {
      var c := s.(lastCleanup := now);
      assert At(c, Expired(s, now)) == At(s, Expired(s, now));
      RemoveKeysLeads(c, Expired(s, now), k, t);
    }
  }

  lemma BoundedLeads(s: State, victims: set<string>, k: string, t: EmailThread)
    requires Wf(s)
    ensures Leads(Bounded(s, victims), k, t) <==> Leads(s, k, t) && t !in Evicted(s, victims)
  {
    RemoveKeysLeads(s, victims, k, t);
  }

  lemma FiledLeads(s: State, receiver: string, f: EmailThread, now: int, k: string, t: EmailThread)
    requires f in s.store && s.store[f].threadID != ""
    ensures Leads(Filed(s, receiver, f, now), k, t)
            <==> if s.store[f].gmailThreadID != "" && k == Key(receiver, s.store[f].gmailThreadID) then t == f
                 else Leads(s, k, t)
  {
  }

  /** Filing a thread under a receiver makes its Gmail conversation lead to it, and changes no other entry but
      those of the threads it evicts. */
  lemma CacheLeads(s: State, receiver: string, f: EmailThread, now: int, victims: set<string>, k: string,
                   t: EmailThread)
    requires Wf(s) && f in s.store && s.store[f].threadID != ""
    ensures var own := s.store[f].gmailThreadID != "" && k == Key(receiver, s.store[f].gmailThreadID);
            Leads(CacheThread(s, receiver, f, now, victims), k, t)
            <==> t !in FilingEvicts(s, receiver, f, now, victims) && (if own then t == f else Leads(s, k, t))
  {
    FiledWf(s, receiver, f, now);
    FiledLeads(s, receiver, f, now, k, t);
    BoundedLeads(Filed(s, receiver, f, now), victims, k, t);
  }

  lemma DetermineLeads(s: State, e: Event, k: string, t: EmailThread)
    requires Wf(s) && e.Inbound? && Leads(s, k, t) && t !in DeterminingEvicts(s, e)
    requires CleansUp(e) ==> t !in Expiring(s, e.now)
    ensures Leads(DetermineThread(s, e.receiver, e.email, e.resolver, e.spare, e.now, e.v1).0, k, t)
  {
    var tid := Resolved(e.resolver, Parents(e.email));
    if DetermineMakes(s, e.receiver, e.email, e.resolver) {
      MakesCreates(s, e.receiver, e.email, e.resolver, e.spare, e.now, e.v1);
      CreatedWf(s, e.email, e.spare, e.now);
      BoundedLeads(Created(s, e.email, e.spare, e.now), e.v1, k, t);
    } else if tid.Some? {
      GetWf(s, e.receiver, tid.value, e.now);
      CleanupLeads(s, e.now, k, t);
    } else {
      MatchWf(s, e.receiver, e.email);
    }
  }

  /** The event files no other thread of this Gmail conversation. */
  ghost predicate GmailApart(w: World, e: Event, k: string, t: EmailThread)
    requires Wf(w.tm)
  {
    var f := Filing(w, e);
    f.Some? && f.value != t && f.value in Step(w, e).tm.store ==>
      var g := Step(w, e).tm.store[f.value].gmailThreadID; g == "" || k != Key(e.receiver, g)
  }

  lemma CachedLeads(s: State, receiver: string, f: EmailThread, now: int, victims: set<string>, k: string,
                    t: EmailThread)
    requires Wf(s) && f in s.store && Leads(s, k, t) && t !in FilingEvicts(s, receiver, f, now, victims)
    requires f == t || s.store[f].gmailThreadID == "" || k != Key(receiver, s.store[f].gmailThreadID)
    ensures Leads(CacheThread(s, receiver, f, now, victims), k, t)
  {
    if s.store[f].threadID != "" { CacheLeads(s, receiver, f, now, victims, k, t); }
  }

  lemma OpenLeads(w: World, e: Event, spare: EmailThread, k: string, t: EmailThread)
    requires SoundWorld(w) && (e.Open? || e.Send?) && e.spare == spare && spare !in w.tm.store && Leads(w.tm, k, t)
    requires e.id != "" ==> t !in Expiring(w.tm, e.now)
    requires t !in OpeningEvicts(w, e.receiver, e.id, spare, e.now, e.v1)
    requires var (s, hit) := OpenPortal(w, e.receiver, e.id, spare, e.now, e.v1);
             hit == Some(spare) && spare in s.store ==>
               s.store[spare].gmailThreadID == "" || k != Key(e.receiver, s.store[spare].gmailThreadID)
    ensures Leads(OpenPortal(w, e.receiver, e.id, spare, e.now, e.v1).0, k, t)
  {
    if e.id != "" {
      GetWf(w.tm, e.receiver, e.id, e.now);
      CleanupLeads(w.tm, e.now, k, t);
      var (g, hit) := GetThreadByID(w.tm, e.receiver, e.id, e.now);
      if hit == None && Restorable(w, e.receiver, e.id) {
        var s := g.(store := g.store[spare := Restored(w.portals[(e.receiver, e.id)])]);
        CacheWf(s, e.receiver, spare, e.now, e.v1);
        CachedLeads(s, e.receiver, spare, e.now, e.v1, k, t);
      }
    }
  }

  lemma SendLeads(w: World, e: Event, k: string, t: EmailThread)
    requires SoundWorld(w) && Legal(w, e) && e.Send? && Leads(w.tm, k, t)
    requires t !in Dropped(w, e) && GmailApart(w, e, k, t)
    ensures Leads(Step(w, e).tm, k, t)
  {
    OpenedThread(w, e.receiver, e.id, e.spare, e.now, e.v1);
    var (s, hit) := OpenPortal(w, e.receiver, e.id, e.spare, e.now, e.v1);
    assert t in w.tm.gmail.Values;
    if hit.Some? {
      CacheWf(Sent(s, hit.value, e.key), e.receiver, hit.value, e.now, e.v2);
      OpenLeads(w, e, e.spare, k, t);
      CachedLeads(Sent(s, hit.value, e.key), e.receiver, hit.value, e.now, e.v2, k, t);
    } else {
      OpenLeads(w, e, e.spare, k, t);
    }
  }

  lemma InboundLeads(w: World, e: Event, k: string, t: EmailThread)
    requires SoundWorld(w) && Legal(w, e) && e.Inbound? && Leads(w.tm, k, t)
    requires t !in Dropped(w, e) && GmailApart(w, e, k, t)
    ensures Leads(Step(w, e).tm, k, t)
  {
    DetermineWf(w.tm, e.receiver, e.email, e.resolver, e.spare, e.now, e.v1);
    var (d, f) := DetermineThread(w.tm, e.receiver, e.email, e.resolver, e.spare, e.now, e.v1);
    CacheWf(d, e.receiver, f, e.now, e.v2);
    DetermineLeads(w.tm, e, k, t);
    CachedLeads(d, e.receiver, f, e.now, e.v2, k, t);
  }

  lemma StepLeads(w: World, e: Event, k: string, t: EmailThread)
    requires SoundWorld(w) && Legal(w, e) && Leads(w.tm, k, t)
    requires t !in Dropped(w, e) && GmailApart(w, e, k, t)
    ensures Leads(Step(w, e).tm, k, t)
  {
    assert t in w.tm.gmail.Values;
    match e
    case Inbound(_, _, _, _, _, _, _) => InboundLeads(w, e, k, t);
    case Compose(receiver, id, subject, spare, now, v1) =>
      var s := w.tm.(store := w.tm.store[spare := DraftData(id, subject)]);
      CacheWf(s, receiver, spare, now, v1);
      CachedLeads(s, receiver, spare, now, v1, k, t);
    case Open(_, _, spare, now, v1) => OpenLeads(w, e, spare, k, t);
    case Find(receiver, id, now) => CleanupLeads(w.tm, now, k, t);
    case Send(_, _, _, _, _, _, _) => SendLeads(w, e, k, t);
  }

  /** No event drops the thread or files another one of the conversation. */
  ghost predicate GmailRun(w: World, es: seq<Event>, k: string, t: EmailThread)
    requires Wf(w.tm)
    decreases |es|
  {
    es == [] ||
    (&& Legal(w, es[0]) && t !in Dropped(w, es[0]) && GmailApart(w, es[0], k, t)
     && (StepWf(w, es[0]); GmailRun(Step(w, es[0]), es[1..], k, t)))
  }

  lemma {:induction false} RunLeads(w: World, es: seq<Event>, k: string, t: EmailThread)
    requires SoundWorld(w) && Leads(w.tm, k, t) && GmailRun(w, es, k, t)
    ensures Leads(Run(w, es).tm, k, t)
    decreases |es|
  {
    if es != [] {
      StepWf(w, es[0]);
      StepSound(w, es[0]);
      StepLeads(w, es[0], k, t);
      RunLeads(Step(w, es[0]), es[1..], k, t);
    }
  }

  /** An email whose own headers lead nowhere joins the thread of its Gmail conversation, if there is one. */
  lemma GmailMatches(s: State, receiver: string, email: Email, resolver: map<string, string>, spare: EmailThread,
                     now: int, victims: set<string>, t: EmailThread)
    requires Wf(s) && !email.forwarded && Resolved(resolver, Parents(email)) == None
    requires FirstIndexed(s, Parents(email)) == None && email.gmailThreadID != "" && spare !in s.store
    ensures t in s.store ==>
              (Leads(s, Key(receiver, email.gmailThreadID), t)
               <==> DetermineThread(s, receiver, email, resolver, spare, now, victims) == (AddTo(s, t, email), t))
  {
    MatchWf(s, receiver, email);
  }

  /** Once an email of a Gmail conversation was received, a later one of the conversation whose own headers lead
      nowhere joins the same thread, after any run that neither drops that thread nor files another one of the
      conversation. */
  lemma GmailConversation(w: World, e: Event, es: seq<Event>, next: Event)
    requires SoundWorld(w) && Legal(w, e) && e.Inbound? && next.Inbound? && e.receiver == next.receiver
    requires e.email.gmailThreadID == next.email.gmailThreadID != ""
    requires var t := Receive(w.tm, e).1;
             && t !in EvictedBy(w, e) && t in Step(w, e).tm.store && Step(w, e).tm.store[t].threadID != ""
             && (StepWf(w, e); GmailRun(Step(w, e), es, Key(e.receiver, e.email.gmailThreadID), t))
    requires var v := (StepWf(w, e); Run(Step(w, e), es));
             && Legal(v, next) && !next.email.forwarded && Resolved(next.resolver, Parents(next.email)) == None
             && FirstIndexed(v.tm, Parents(next.email)) == None
    ensures (StepWf(w, e); Receive(Run(Step(w, e), es).tm, next).1 == Receive(w.tm, e).1)
  {
    var t := Receive(w.tm, e).1;
    var k := Key(e.receiver, e.email.gmailThreadID);
    StepWf(w, e);
    StepSound(w, e);
    ReceivedLeads(w, e);
    RunLeads(Step(w, e), es, k, t);
    var v := Run(Step(w, e), es);
    assert t in v.tm.gmail.Values;
    GmailMatches(v.tm, next.receiver, next.email, next.resolver, next.spare, next.now, next.v1, t);
  }

  lemma ReceivedLeads(w: World, e: Event)
    requires SoundWorld(w) && Legal(w, e) && e.Inbound? && e.email.gmailThreadID != ""
    requires var t := Receive(w.tm, e).1;
             t !in EvictedBy(w, e) && t in Step(w, e).tm.store && Step(w, e).tm.store[t].threadID != ""
    ensures Leads(Step(w, e).tm, Key(e.receiver, e.email.gmailThreadID), Receive(w.tm, e).1)
  {
    DetermineWf(w.tm, e.receiver, e.email, e.resolver, e.spare, e.now, e.v1);
    var (d, t) := DetermineThread(w.tm, e.receiver, e.email, e.resolver, e.spare, e.now, e.v1);
    DeterminedGmail(w.tm, e);
    CacheWf(d, e.receiver, t, e.now, e.v2);
    CacheLeads(d, e.receiver, t, e.now, e.v2, Key(e.receiver, e.email.gmailThreadID), t);
  }

  lemma DeterminedGmail(s: State, e: Event)
    requires Wf(s) && e.Inbound? && e.email.gmailThreadID != ""
    ensures var (d, t) := DetermineThread(s, e.receiver, e.email, e.resolver, e.spare, e.now, e.v1);
            t in d.store && d.store[t].gmailThreadID == e.email.gmailThreadID
  {
    DetermineWf(s, e.receiver, e.email, e.resolver, e.spare, e.now, e.v1);
    var tid := Resolved(e.resolver, Parents(e.email));
    if DetermineMakes(s, e.receiver, e.email, e.resolver) {
      MakesCreates(s, e.receiver, e.email, e.resolver, e.spare, e.now, e.v1);
      CreatedWf(s, e.email, e.spare, e.now);
      BoundedWf(Created(s, e.email, e.spare, e.now), e.v1);
    } else if tid.Some? {
      GetWf(s, e.receiver, tid.value, e.now);
    } else {
      MatchWf(s, e.receiver, e.email);
    }
  }
}
