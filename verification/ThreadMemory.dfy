/** What the saved metadata remembers of a conversation while its room is idle: a send, any run that gives the
    room to no other thread, and a restore. */
module ThreadMemory {
  import opened Wrappers
  import opened ThreadState
  import opened ThreadRuns
  import opened ThreadKeys
  import opened ThreadOwnership
  import opened ThreadConversations

  // ---- What the metadata remembers ---------------------------------------------------------------------

  /** What the room's ID leads to, saved or cached, carries these messages. */
  ghost predicate Remembers(w: World, receiver: string, id: string, ids: set<string>)
    requires Wf(w.tm)
  {
    && (receiver, id) in w.portals && w.portals[(receiver, id)].threadID == id
    && ids <= Ids(Restored(w.portals[(receiver, id)]))
    && CachedCarry(w.tm, receiver, id, ids)
  }

  ghost predicate CachedCarry(s: State, receiver: string, id: string, ids: set<string>)
    requires Wf(s)
  {
    forall k :: k in s.known && (k == Key(receiver, id) || k == id) ==>
      s.known[k] in s.store && ids <= Ids(s.store[s.known[k]]) && s.store[s.known[k]].threadID == id
  }

  /** The contents `d` may be filed under the room's keys only if they carry the messages. */
  predicate Carries(owner: string, d: ThreadData, receiver: string, id: string, ids: set<string>) {
    d.threadID in {id, Key(receiver, id)} || Key(owner, d.threadID) in {id, Key(receiver, id)} ==>
      d.threadID == id && ids <= Ids(d)
  }

  /** The event files no thread under the room's keys that does not carry the messages. */
  ghost predicate KeepsRoom(w: World, e: Event, receiver: string, id: string, ids: set<string>)
    requires Wf(w.tm)
  {
    var f := Filing(w, e);
    f.Some? && f.value in Step(w, e).tm.store ==> Carries(e.receiver, Step(w, e).tm.store[f.value], receiver, id, ids)
  }

  ghost predicate KeepingRun(w: World, es: seq<Event>, receiver: string, id: string, ids: set<string>)
    requires Wf(w.tm)
    decreases |es|
  {
    es == [] ||
    (&& Legal(w, es[0]) && KeepsRoom(w, es[0], receiver, id, ids)
     && (StepWf(w, es[0]); KeepingRun(Step(w, es[0]), es[1..], receiver, id, ids)))
  }

  /** Each key an event leaves in the cache was there before, or leads to the thread the event files. */
  predicate KnownFrom(s: State, r: State, owner: string, f: Option<EmailThread>)
    requires f.Some? ==> f.value in r.store
  {
    forall k :: k in r.known ==>
      (k in s.known && r.known[k] == s.known[k])
      || (f.Some? && r.known[k] == f.value && k in {r.store[f.value].threadID, Key(owner, r.store[f.value].threadID)})
  }

  lemma CacheKnown(s: State, receiver: string, f: EmailThread, now: int, victims: set<string>)
    requires Wf(s) && f in s.store
    ensures var r := CacheThread(s, receiver, f, now, victims); f in r.store && KnownFrom(s, r, receiver, Some(f))
  {
    SameIds(s, receiver, f, now, victims, f);
  }

  /** In `d` each key was there before, or is the bare ID of `f`. */
  predicate BareKnown(s: State, d: State, f: EmailThread) {
    f in d.store && forall k :: k in d.known ==>
      (k in s.known && d.known[k] == s.known[k]) || (d.known[k] == f && k == d.store[f].threadID)
  }

  lemma MadeKnown(s: State, email: Email, spare: EmailThread, now: int, victims: set<string>)
    requires Wf(s)
    ensures BareKnown(s, CreateNewThread(s, email, spare, now, victims), spare)
  {
    CreatedWf(s, email, spare, now);
    var c := Created(s, email, spare, now);
    assert BareKnown(s, c, spare);
    BoundedWf(c, victims);
  }

  lemma DetermineKnown(s: State, e: Event)
    requires Wf(s) && e.Inbound?
    ensures var (d, f) := DetermineThread(s, e.receiver, e.email, e.resolver, e.spare, e.now, e.v1); BareKnown(s, d, f)
  {
    var tid := Resolved(e.resolver, Parents(e.email));
    if DetermineMakes(s, e.receiver, e.email, e.resolver) {
      MakesCreates(s, e.receiver, e.email, e.resolver, e.spare, e.now, e.v1);
      MadeKnown(s, e.email, e.spare, e.now, e.v1);
    } else if tid.Some? {
      GetWf(s, e.receiver, tid.value, e.now);
      StillCarried(s, e.receiver, tid.value, e.now);
    } else {
      MatchWf(s, e.receiver, e.email);
    }
  }

  lemma InboundKnown(w: World, e: Event)
    requires Wf(w.tm) && e.Inbound? && Legal(w, e)
    ensures Receive(w.tm, e).1 in Receive(w.tm, e).0.store
    ensures KnownFrom(w.tm, Receive(w.tm, e).0, e.receiver, Some(Receive(w.tm, e).1))
  {
    DetermineWf(w.tm, e.receiver, e.email, e.resolver, e.spare, e.now, e.v1);
    DetermineKnown(w.tm, e);
    var (d, f) := DetermineThread(w.tm, e.receiver, e.email, e.resolver, e.spare, e.now, e.v1);
    CacheKnown(d, e.receiver, f, e.now, e.v2);
    SameIds(d, e.receiver, f, e.now, e.v2, f);
  }

  lemma OpenKnown(w: World, receiver: string, id: string, spare: EmailThread, now: int, victims: set<string>)
    requires Wf(w.tm) && spare !in w.tm.store
    ensures var (s, hit) := OpenPortal(w, receiver, id, spare, now, victims);
            var made := id != "" && GetThreadByID(w.tm, receiver, id, now).1 == None && Restorable(w, receiver, id);
            && (made ==> hit == Some(spare) && spare in s.store)
            && KnownFrom(w.tm, s, receiver, if made then Some(spare) else None)
  {
    GetWf(w.tm, receiver, id, now);
    var (g, hit) := GetThreadByID(w.tm, receiver, id, now);
    if id != "" && hit == None && Restorable(w, receiver, id) {
      CacheKnown(g.(store := g.store[spare := Restored(w.portals[(receiver, id)])]), receiver, spare, now, victims);
    }
  }

  lemma SendKnown(w: World, e: Event)
    requires SoundWorld(w) && e.Send? && Legal(w, e)
    ensures Filing(w, e).Some? ==> Filing(w, e).value in Step(w, e).tm.store
    ensures KnownFrom(w.tm, Step(w, e).tm, e.receiver, Filing(w, e))
  {
    OpenKnown(w, e.receiver, e.id, e.spare, e.now, e.v1);
    var hit := Target(w, e);
    if hit.Some? {
      SendSteps(w, e, hit.value);
      OpenKnownHit(w, e, hit.value);
      SentKnown(w.tm, Opened(w, e), e.receiver, hit.value, e.key, e.now, e.v2);
    }
  }

  lemma OpenKnownHit(w: World, e: Event, t: EmailThread)
    requires SoundWorld(w) && Legal(w, e) && Speaks(w, e, t)
    ensures t in Opened(w, e).store && KnownFrom(w.tm, Opened(w, e), e.receiver, Some(t))
  {
    OpenKnown(w, e.receiver, e.id, e.spare, e.now, e.v1);
    OpenedThread(w, e.receiver, e.id, e.spare, e.now, e.v1);
  }

  lemma SentKnown(before: State, s: State, receiver: string, t: EmailThread, key: string, now: int,
                  victims: set<string>)
    requires Wf(s) && t in s.store && KnownFrom(before, s, receiver, Some(t))
    ensures var r := CacheThread(Sent(s, t, key), receiver, t, now, victims);
            t in r.store && KnownFrom(before, r, receiver, Some(t))
  {
    var sent := Sent(s, t, key);
    CacheKnown(sent, receiver, t, now, victims);
    SameIds(sent, receiver, t, now, victims, t);
  }

  lemma StepKnown(w: World, e: Event)
    requires SoundWorld(w) && Legal(w, e)
    ensures Filing(w, e).Some? ==> Filing(w, e).value in Step(w, e).tm.store
    ensures KnownFrom(w.tm, Step(w, e).tm, e.receiver, Filing(w, e))
  {
    match e
    case Inbound(_, _, _, _, _, _, _) => InboundKnown(w, e);
    case Compose(receiver, id, subject, spare, now, v1) =>
      CacheKnown(w.tm.(store := w.tm.store[spare := DraftData(id, subject)]), receiver, spare, now, v1);
    case Open(receiver, id, spare, now, v1) => OpenKnown(w, receiver, id, spare, now, v1);
    case Find(receiver, id, now) => StillCarried(w.tm, receiver, id, now);
    case Send(_, _, _, _, _, _, _) => SendKnown(w, e);
  }

  lemma StepCachedCarry(w: World, e: Event, receiver: string, id: string, ids: set<string>)
    requires SoundWorld(w) && Legal(w, e) && CachedCarry(w.tm, receiver, id, ids) && KeepsRoom(w, e, receiver, id, ids)
    ensures Wf(Step(w, e).tm) && CachedCarry(Step(w, e).tm, receiver, id, ids)
  {
    StepWf(w, e);
    StepKnown(w, e);
    var r := Step(w, e).tm;
    forall k | k in r.known && (k == Key(receiver, id) || k == id)
      ensures r.known[k] in r.store && ids <= Ids(r.store[r.known[k]]) && r.store[r.known[k]].threadID == id {
      if k in w.tm.known && r.known[k] == w.tm.known[k] { StepGrows(w, e, r.known[k]); }
    }
  }

  lemma StillCarried(s: State, receiver: string, id: string, now: int)
    requires Wf(s)
    ensures var g := GetThreadByID(s, receiver, id, now).0;
            && (forall u :: u in s.store ==> u in g.store && Ids(g.store[u]) == Ids(s.store[u])
                                             && g.store[u].threadID == s.store[u].threadID)
            && (forall k :: k in g.known ==> k in s.known && g.known[k] == s.known[k])
  {
    CleanupWf(s, now);
  }

  /** A send into the room goes to a thread that carries the messages. */
  lemma RoomCarries(w: World, e: Event, t: EmailThread, receiver: string, id: string, ids: set<string>)
    requires SoundWorld(w) && Legal(w, e) && Remembers(w, receiver, id, ids)
    requires Speaks(w, e, t) && e.receiver == receiver && e.id == id
    ensures t in Opened(w, e).store
    ensures ids <= Ids(Opened(w, e).store[t]) && Opened(w, e).store[t].threadID == id
  {
    OpenedThread(w, receiver, id, e.spare, e.now, e.v1);
    CleanupWf(w.tm, e.now);
    GetWf(w.tm, receiver, id, e.now);
    StillCarried(w.tm, receiver, id, e.now);
  }

  lemma StepRemembers(w: World, e: Event, receiver: string, id: string, ids: set<string>)
    requires SoundWorld(w) && Legal(w, e) && Remembers(w, receiver, id, ids) && KeepsRoom(w, e, receiver, id, ids)
    ensures Wf(Step(w, e).tm) && Remembers(Step(w, e), receiver, id, ids)
  {
    StepCachedCarry(w, e, receiver, id, ids);
    if e.Send? && e.receiver == receiver && e.id == id && Target(w, e).Some? {
      var t := Target(w, e).value;
      RoomCarries(w, e, t, receiver, id, ids);
      SendRecords(w, e, t);
      SendGrowsIds(w, e, t);
    }
    if e.Compose? && e.receiver == receiver && e.id == id {
      var d := DraftData(id, e.subject);
      SameIds(w.tm.(store := w.tm.store[e.spare := d]), receiver, e.spare, e.now, e.v1, e.spare);
      assert Ids(Restored(Saved(d))) == Ids(d);
    }
  }

  lemma SendGrowsIds(w: World, e: Event, t: EmailThread)
    requires SoundWorld(w) && Legal(w, e) && Speaks(w, e, t) && t in Opened(w, e).store
    ensures t in Step(w, e).tm.store && Ids(Opened(w, e).store[t]) <= Ids(Step(w, e).tm.store[t])
    ensures Step(w, e).tm.store[t].threadID == Opened(w, e).store[t].threadID
  {
    SendSteps(w, e, t);
    SentHas(Opened(w, e), e.receiver, t, e.key, e.now, e.v2);
  }

  /** The metadata, and whatever the room leads to, remember messages through any run that gives the room to
      no thread without them; sends in the room are part of such a run. */
  lemma {:induction false} RunRemembers(w: World, es: seq<Event>, receiver: string, id: string, ids: set<string>)
    requires SoundWorld(w) && Remembers(w, receiver, id, ids) && KeepingRun(w, es, receiver, id, ids)
    ensures SoundWorld(Run(w, es)) && Remembers(Run(w, es), receiver, id, ids)
    decreases |es|
  {
    if es != [] {
      StepWf(w, es[0]);
      StepSound(w, es[0]);
      StepRemembers(w, es[0], receiver, id, ids);
      RunRemembers(Step(w, es[0]), es[1..], receiver, id, ids);
    }
  }

  /** A send makes its room remember the messages of its thread, the sent one among them, if the bare ID, which
      all receivers share, leads to no thread without them. */
  lemma SendIsRemembered(w: World, e: Event, t: EmailThread, ids: set<string>)
    requires SoundWorld(w) && Legal(w, e) && Speaks(w, e, t)
    requires t in Step(w, e).tm.store && Step(w, e).tm.store[t].threadID == e.id && ids <= Ids(Step(w, e).tm.store[t])
    requires (StepWf(w, e); CachedCarry(Step(w, e).tm, e.receiver, e.id, ids))
    ensures Wf(Step(w, e).tm) && Remembers(Step(w, e), e.receiver, e.id, ids)
  {
    StepWf(w, e);
    SendRecords(w, e, t);
  }

  /** The thread is dropped and restored: `idle` gives its room to no thread without the messages, `open` finds
      it gone, and no thread has claimed them. */
  ghost predicate Reopens(w: World, idle: seq<Event>, open: Event, receiver: string, id: string, ids: set<string>)
    requires Wf(w.tm)
  {
    && CachedCarry(w.tm, receiver, id, ids) && KeepingRun(w, idle, receiver, id, ids)
    && var v := Run(w, idle);
       && open.Open? && open.receiver == receiver && open.id == id && id != ""
       && Legal(v, open) && Misses(v, open) && open.spare !in Dropped(v, open) && Unclaimed(v, open, open.spare, ids)
  }

  /** The world after the room is opened again. */
  ghost function Reopened(w: World, idle: seq<Event>, open: Event): World
    requires Wf(w.tm)
    ensures Wf(Reopened(w, idle, open).tm)
  {
    StepWf(Run(w, idle), open);
    Step(Run(w, idle), open)
  }

  /** So replies to the messages of a thread that was saved with a send also come back after the thread expired,
      however many messages were sent in the room meanwhile, and after it was restored; and so does whatever is
      said from then on. */
  lemma SendExpireRestoreThenReplies(w: World, e: Event, t: EmailThread, ids: set<string>, idle: seq<Event>,
                                     open: Event, es: seq<Event>)
    requires SoundWorld(w) && Legal(w, e) && Speaks(w, e, t)
    requires t in Step(w, e).tm.store && Step(w, e).tm.store[t].threadID == e.id && ids <= Ids(Step(w, e).tm.store[t])
    requires (StepWf(w, e); Reopens(Step(w, e), idle, open, e.receiver, e.id, ids))
    requires (StepWf(w, e); Undisturbed(Reopened(Step(w, e), idle, open), es, open.spare, ids))
    ensures (StepWf(w, e); StaysTogether(Reopened(Step(w, e), idle, open), es, open.spare, ids, e.id))
  {
    StepWf(w, e);
    StepSound(w, e);
    SendIsRemembered(w, e, t, ids);
    RunRemembers(Step(w, e), idle, e.receiver, e.id, ids);
    RestoreThenReplies(Run(Step(w, e), idle), open, ids, es);
  }

  /** A conversation outlives its cached thread: all that was said in a room before a send, in either direction,
      and all that is said after the thread was dropped and restored, is one conversation in one room. */
  lemma ConversationOutlivesThread(w: World, before: seq<Event>, t: EmailThread, conversation: set<string>, e: Event,
                                   idle: seq<Event>, open: Event, es: seq<Event>, ids: set<string>)
    requires SoundWorld(w) && Owns(w.tm, t, conversation) && Undisturbed(w, before, t, conversation)
    requires var v := Run(w, before);
             && Legal(v, e) && Speaks(v, e, t) && e.id == w.tm.store[t].threadID
             && ids == Conversation(w, before, t, conversation) + {e.key} - {""}
             && (StepWf(v, e); Reopens(Step(v, e), idle, open, e.receiver, e.id, ids))
             && Undisturbed(Reopened(Step(v, e), idle, open), es, open.spare, ids)
    ensures StaysTogether(w, before, t, conversation, e.id)
    ensures (StepWf(Run(w, before), e);
             StaysTogether(Reopened(Step(Run(w, before), e), idle, open), es, open.spare, ids, e.id))
  {
    ConversationClosed(w, before, t, conversation);
    var v := Run(w, before);
    StepGrows(v, e, t);
    SendRecords(v, e, t);
    SendExpireRestoreThenReplies(v, e, t, ids, idle, open, es);
  }
}
