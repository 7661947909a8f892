/** A conversation stays in one room, also across a save and a restore, whatever happens to other threads. */
module ThreadConversations {
  import opened Wrappers
  import opened ThreadState
  import opened ThreadRuns
  import opened ThreadKeys
  import opened ThreadOwnership

  // ---- Threads only grow ---------------------------------------------------------------------------

  /** A thread keeps its thread ID for good, and every ID it ever had. */
  predicate Grows(s: State, r: State, t: EmailThread)
    requires t in s.store
  {
    t in r.store && Ids(s.store[t]) <= Ids(r.store[t]) && s.store[t].threadID == r.store[t].threadID
  }

  lemma CacheGrows(s: State, receiver: string, c: EmailThread, now: int, victims: set<string>, t: EmailThread)
    requires Wf(s) && c in s.store && t in s.store
    ensures Grows(s, CacheThread(s, receiver, c, now, victims), t)
  {
    CacheWf(s, receiver, c, now, victims);
    assert Ids(s.store[c].(lastAccessed := now)) == Ids(s.store[c]);
  }

  lemma GetGrows(s: State, receiver: string, id: string, now: int, t: EmailThread)
    requires Wf(s) && t in s.store
    ensures Grows(s, GetThreadByID(s, receiver, id, now).0, t)
  {
    CleanupWf(s, now);
    assert Ids(s.store[t].(lastAccessed := now)) == Ids(s.store[t]);
  }

  lemma OpenGrows(w: World, receiver: string, id: string, spare: EmailThread, now: int, victims: set<string>,
                  t: EmailThread)
    requires Wf(w.tm) && spare !in w.tm.store && t in w.tm.store
    ensures Grows(w.tm, OpenPortal(w, receiver, id, spare, now, victims).0, t)
  {
    GetWf(w.tm, receiver, id, now);
    GetGrows(w.tm, receiver, id, now, t);
    var (g, hit) := GetThreadByID(w.tm, receiver, id, now);
    if hit == None && Restorable(w, receiver, id) {
      CacheGrows(g.(store := g.store[spare := Restored(w.portals[(receiver, id)])]), receiver, spare, now, victims, t);
    }
  }

  lemma AddGrows(s: State, c: EmailThread, email: Email, t: EmailThread)
    requires c in s.store && t in s.store
    ensures Grows(s, AddTo(s, c, email), t)
  {
    AddedIds(s.store[t], email);
  }

  lemma ResolvedGrows(s: State, receiver: string, email: Email, tid: string, spare: EmailThread, now: int,
                      t: EmailThread)
    requires Wf(s) && spare !in s.store && t in s.store
    ensures (GetWf(s, receiver, tid, now);
             var (g, hit) := GetThreadByID(s, receiver, tid, now);
             && (hit.Some? ==> Grows(s, AddTo(g, hit.value, email), t))
             && Grows(s, AddTo(g.(store := g.store[spare := BareThread(tid, email.subject)]), spare, email), t))
  {
    GetWf(s, receiver, tid, now);
    GetGrows(s, receiver, tid, now, t);
    var (g, hit) := GetThreadByID(s, receiver, tid, now);
    if hit.Some? { AddGrows(g, hit.value, email, t); }
    AddGrows(g.(store := g.store[spare := BareThread(tid, email.subject)]), spare, email, t);
  }

  lemma CreateGrows(s: State, email: Email, spare: EmailThread, now: int, victims: set<string>, t: EmailThread)
    requires Wf(s) && spare !in s.store && t in s.store
    ensures Grows(s, CreateNewThread(s, email, spare, now, victims), t)
  {
    CreatedWf(s, email, spare, now);
    BoundedWf(Created(s, email, spare, now), victims);
  }

  lemma DetermineGrows(s: State, receiver: string, email: Email, resolver: map<string, string>,
                       spare: EmailThread, now: int, victims: set<string>, t: EmailThread)
    requires Wf(s) && spare !in s.store && t in s.store
    ensures Grows(s, DetermineThread(s, receiver, email, resolver, spare, now, victims).0, t)
  {
    CreateGrows(s, email, spare, now, victims, t);
    var tid := Resolved(resolver, Parents(email));
    if tid.Some? { ResolvedGrows(s, receiver, email, tid.value, spare, now, t); }
    MatchWf(s, receiver, email);
    var m := Match(s, receiver, email);
    if m.Some? { AddGrows(s, m.value, email, t); }
  }

  lemma StepGrows(w: World, e: Event, t: EmailThread)
    requires SoundWorld(w) && Legal(w, e) && t in w.tm.store
    ensures Grows(w.tm, Step(w, e).tm, t)
  {
    match e
    case Inbound(receiver, email, resolver, spare, now, v1, v2) =>
      DetermineWf(w.tm, receiver, email, resolver, spare, now, v1);
      DetermineGrows(w.tm, receiver, email, resolver, spare, now, v1, t);
      var (d, c) := DetermineThread(w.tm, receiver, email, resolver, spare, now, v1);
      CacheGrows(d, receiver, c, now, v2, t);
    case Compose(receiver, id, subject, spare, now, v1) =>
      CacheGrows(w.tm.(store := w.tm.store[spare := DraftData(id, subject)]), receiver, spare, now, v1, t);
    case Open(receiver, id, spare, now, v1) => OpenGrows(w, receiver, id, spare, now, v1, t);
    case Find(receiver, id, now) => GetGrows(w.tm, receiver, id, now, t);
    case Send(_, _, _, _, _, _, _) => SendGrows(w, e, t);
  }

  lemma SendGrows(w: World, e: Event, t: EmailThread)
    requires SoundWorld(w) && Legal(w, e) && t in w.tm.store && e.Send?
    ensures Grows(w.tm, SendInto(w, e).tm, t)
  {
    OpenGrows(w, e.receiver, e.id, e.spare, e.now, e.v1, t);
    OpenWf(w, e.receiver, e.id, e.spare, e.now, e.v1);
    OpenSound(w, e.receiver, e.id, e.spare, e.now, e.v1);
    var (s, hit) := OpenPortal(w, e.receiver, e.id, e.spare, e.now, e.v1);
    if hit.Some? {
      SentIds(s.store[hit.value], e.key);
      CacheGrows(Sent(s, hit.value, e.key), e.receiver, hit.value, e.now, e.v2, t);
    }
  }

  // ---- A conversation stays in one room --------------------------------------------------------------

  /** The first of the IDs that the table knows. */
  function FirstKnown(s: State, ids: seq<string>): Option<string> {
    if ids == [] then None else if ids[0] in s.index then Some(ids[0]) else FirstKnown(s, ids[1..])
  }

  lemma {:induction false} KnownIsIndexed(s: State, ids: seq<string>)
    ensures var k := FirstKnown(s, ids);
            if k == None then FirstIndexed(s, ids) == None
            else k.value in s.index && FirstIndexed(s, ids) == Some(s.index[k.value])
  {
    if ids != [] { KnownIsIndexed(s, ids[1..]); }
  }

  /** An inbound reply, with no resolver hit, to a message of the conversation: that is the first of its
      In-Reply-To and References that the cache knows. */
  predicate Answers(w: World, e: Event, conversation: set<string>) {
    && e.Inbound? && !e.email.forwarded && Resolved(e.resolver, Parents(e.email)) == None
    && FirstKnown(w.tm, Parents(e.email)).Some? && FirstKnown(w.tm, Parents(e.email)).value in conversation
  }

  /** A plain reply to a message of the conversation is one, whatever its References say. */
  lemma DirectReplyAnswers(w: World, e: Event, t: EmailThread, conversation: set<string>)
    requires Wf(w.tm) && Owns(w.tm, t, conversation) && e.Inbound? && !e.email.forwarded
    requires Resolved(e.resolver, Parents(e.email)) == None
    requires e.email.inReplyTo != "" && e.email.inReplyTo in conversation
    ensures Answers(w, e, conversation)
  {
    assert Parents(e.email)[0] == e.email.inReplyTo;
  }

  /** The thread a send goes into. */
  function Target(w: World, e: Event): Option<EmailThread>
    requires Wf(w.tm) && e.Send?
  {
    OpenPortal(w, e.receiver, e.id, e.spare, e.now, e.v1).1
  }

  /** The bridge sends a message from the room of thread `t`. */
  predicate Speaks(w: World, e: Event, t: EmailThread)
    requires Wf(w.tm)
  {
    e.Send? && Target(w, e) == Some(t)
  }

  /** The conversation after an event: answers and the bridge's own messages join it. */
  function Joined(w: World, e: Event, t: EmailThread, conversation: set<string>): set<string>
    requires Wf(w.tm)
  {
    if Answers(w, e, conversation) then conversation + {e.email.messageID} - {""}
    else if Speaks(w, e, t) then conversation + {e.key} - {""}
    else conversation
  }

  ghost function Conversation(w: World, es: seq<Event>, t: EmailThread, conversation: set<string>): set<string>
    requires Wf(w.tm)
    decreases |es|
  {
    if es == [] then conversation
    else StepWf(w, es[0]); Conversation(Step(w, es[0]), es[1..], t, Joined(w, es[0], t, conversation))
  }

  /** The thread ID an inbound email's portal key is made of. */
  function PortalOf(w: World, e: Event): string
    requires Wf(w.tm) && e.Inbound?
  {
    ReceiveStored(w.tm, e);
    Receive(w.tm, e).0.store[Receive(w.tm, e).1].threadID
  }

  lemma ReceiveStored(s: State, e: Event)
    requires Wf(s) && e.Inbound?
    ensures Receive(s, e).1 in Receive(s, e).0.store
  {
    DetermineWf(s, e.receiver, e.email, e.resolver, e.spare, e.now, e.v1);
    var (d, t) := DetermineThread(s, e.receiver, e.email, e.resolver, e.spare, e.now, e.v1);
    CacheWf(d, e.receiver, t, e.now, e.v2);
  }

  /** Every email of the run that answers the conversation, which grows with each answer and with each message
      the bridge sends from the room, goes to the room of thread `id`. */
  ghost predicate StaysTogether(w: World, es: seq<Event>, t: EmailThread, conversation: set<string>, id: string)
    requires Wf(w.tm)
    decreases |es|
  {
    es == [] ||
    (&& (Answers(w, es[0], conversation) ==> PortalOf(w, es[0]) == id)
     && (StepWf(w, es[0]); StaysTogether(Step(w, es[0]), es[1..], t, Joined(w, es[0], t, conversation), id)))
  }

  /** No event drops a key of the thread, and none gives another thread an ID of the growing conversation. */
  ghost predicate Undisturbed(w: World, es: seq<Event>, t: EmailThread, conversation: set<string>)
    requires Wf(w.tm)
    decreases |es|
  {
    es == [] ||
    (&& Legal(w, es[0]) && t !in Dropped(w, es[0]) && Unclaimed(w, es[0], t, Joined(w, es[0], t, conversation))
     && (StepWf(w, es[0]); Undisturbed(Step(w, es[0]), es[1..], t, Joined(w, es[0], t, conversation))))
  }

  /** An answer joins the thread of the message it answers. */
  lemma AnswerMatches(w: World, e: Event, t: EmailThread, conversation: set<string>)
    requires Wf(w.tm) && Owns(w.tm, t, conversation) && e.Inbound? && Answers(w, e, conversation)
    ensures DetermineThread(w.tm, e.receiver, e.email, e.resolver, e.spare, e.now, e.v1)
         == (AddTo(w.tm, t, e.email), t)
    ensures Wf(AddTo(w.tm, t, e.email)) && Standing(w, e) == Live(w.tm)
  {
    KnownIsIndexed(w.tm, Parents(e.email));
    MatchWf(w.tm, e.receiver, e.email);
  }

  lemma AnswerJoins(w: World, e: Event, t: EmailThread, conversation: set<string>, joined: set<string>)
    requires SoundWorld(w) && Legal(w, e) && Owns(w.tm, t, conversation) && Answers(w, e, conversation)
    requires joined == conversation + {e.email.messageID} - {""}
    requires t !in Dropped(w, e) && Unclaimed(w, e, t, joined)
    ensures PortalOf(w, e) == w.tm.store[t].threadID
    ensures Wf(Step(w, e).tm) && Owns(Step(w, e).tm, t, joined)
  {
    var d := AddTo(w.tm, t, e.email);
    AnswerMatches(w, e, t, conversation);
    AddedIds(w.tm.store[t], e.email);
    SameIds(d, e.receiver, t, e.now, e.v2, t);
    assert Step(w, e).tm == CacheThread(d, e.receiver, t, e.now, e.v2);
    forall u | u in Live(d) && u != t ensures Ids(d.store[u]) !! joined {
      assert u in Standing(w, e);
      SameIds(d, e.receiver, t, e.now, e.v2, u);
    }
    CachedClaims(d, e.receiver, t, e.now, e.v2, joined);
  }

  // ---- A send into a thread ----------------------------------------------------------------------------

  /** The cache once a send has found its thread. */
  function Opened(w: World, e: Event): State
    requires Wf(w.tm) && e.Send?
  {
    OpenPortal(w, e.receiver, e.id, e.spare, e.now, e.v1).0
  }

  /** What a send makes of the cache it found its thread in. */
  lemma SendSteps(w: World, e: Event, t: EmailThread)
    requires SoundWorld(w) && Legal(w, e) && Speaks(w, e, t)
    ensures var s := Opened(w, e);
            && Wf(s) && Sound(s) && t in s.store && Wf(Step(w, e).tm)
            && Step(w, e).tm == CacheThread(Sent(s, t, e.key), e.receiver, t, e.now, e.v2)
            && Step(w, e).portals == w.portals[(e.receiver, e.id) := Saved(SentData(s.store[t], e.key))]
  {
    OpenedThread(w, e.receiver, e.id, e.spare, e.now, e.v1);
    StepWf(w, e);
  }

  lemma SendKeepsKeys(w: World, e: Event, t: EmailThread)
    requires SoundWorld(w) && Legal(w, e) && Speaks(w, e, t) && t !in Dropped(w, e)
    ensures t in Opened(w, e).store && t !in FilingEvicts(Sent(Opened(w, e), t, e.key), e.receiver, t, e.now, e.v2)
  {
    OpenedThread(w, e.receiver, e.id, e.spare, e.now, e.v1);
  }

  /** Besides the threads a clean-up leaves, only a restored thread is cached when a room is open. */
  lemma OpenedLive(w: World, e: Event, t: EmailThread, u: EmailThread)
    requires SoundWorld(w) && Legal(w, e) && Speaks(w, e, t) && u in Live(Opened(w, e))
    ensures u in Standing(w, e) || u == t
  {
    CleanupWf(w.tm, e.now);
    GetWf(w.tm, e.receiver, e.id, e.now);
    var (g, hit) := GetThreadByID(w.tm, e.receiver, e.id, e.now);
    if hit == None && Restorable(w, e.receiver, e.id) {
      InstallLive(g, e.receiver, e.spare, Restored(w.portals[(e.receiver, e.id)]), e.now, e.v1);
    }
  }

  lemma FiledLive(s: State, receiver: string, t: EmailThread, now: int)
    requires t in s.store && s.store[t].threadID != ""
    ensures Live(Filed(s, receiver, t, now)) <= Live(s) + {t}
  {
    var f := Filed(s, receiver, t, now);
    assert f.known == s.known[Key(receiver, s.store[t].threadID) := t];
  }

  lemma InstallLive(s: State, receiver: string, spare: EmailThread, d: ThreadData, now: int, victims: set<string>)
    requires Wf(s)
    ensures Live(Install(s, receiver, spare, d, now, victims)) <= Live(s) + {spare}
  {
    if d.threadID != "" {
      var u := s.(store := s.store[spare := d]);
      FiledWf(u, receiver, spare, now);
      FiledLive(u, receiver, spare, now);
      BoundedLive(Filed(u, receiver, spare, now), victims);
    }
  }

  lemma BoundedLive(s: State, victims: set<string>)
    requires Wf(s)
    ensures Live(Bounded(s, victims)) <= Live(s)
  {
    forall t | t in Live(Bounded(s, victims)) ensures t in Live(s) {
      var k :| k in Bounded(s, victims).known && Bounded(s, victims).known[k] == t;
      assert k in s.known && s.known[k] == t;
    }
  }

  lemma StandingApart(w: World, e: Event, t: EmailThread, ids: set<string>, u: EmailThread)
    requires Wf(w.tm) && Unclaimed(w, e, t, ids) && u in Standing(w, e) && u != t && u in Step(w, e).tm.store
    ensures Ids(Step(w, e).tm.store[u]) !! ids
  {
  }

  lemma SendApart(w: World, e: Event, t: EmailThread, ids: set<string>)
    requires SoundWorld(w) && Legal(w, e) && Speaks(w, e, t) && Unclaimed(w, e, t, ids)
    ensures Wf(Opened(w, e)) && NoOther(Opened(w, e), t, ids)
  {
    SendSteps(w, e, t);
    var s := Opened(w, e);
    forall u | u in Live(s) && u != t ensures Ids(s.store[u]) !! ids {
      OpenedLive(w, e, t, u);
      SentSame(s, e.receiver, t, e.key, e.now, e.v2, u);
      StandingApart(w, e, t, ids, u);
    }
  }

  /** Sending leaves the other threads as they are. */
  lemma SentSame(s: State, receiver: string, t: EmailThread, key: string, now: int, victims: set<string>,
                 u: EmailThread)
    requires Wf(s) && t in s.store && u in s.store && u != t
    ensures var r := CacheThread(Sent(s, t, key), receiver, t, now, victims);
            u in r.store && Ids(r.store[u]) == Ids(s.store[u])
  {
    SameIds(Sent(s, t, key), receiver, t, now, victims, u);
  }

  /** A thread that sends has each of its IDs, the new one among them, that no other thread carries. */
  lemma SentClaims(s: State, receiver: string, t: EmailThread, key: string, now: int, victims: set<string>,
                   ids: set<string>)
    requires Wf(s) && t in s.store && s.store[t].threadID != "" && TailKept(s.store[t])
    requires ids <= Ids(SentData(s.store[t], key)) && NoOther(s, t, ids)
    requires t !in FilingEvicts(Sent(s, t, key), receiver, t, now, victims)
    ensures var r := CacheThread(Sent(s, t, key), receiver, t, now, victims); Wf(r) && Owns(r, t, ids)
  {
    SentIds(s.store[t], key);
    CachedClaims(Sent(s, t, key), receiver, t, now, victims, ids);
  }

  lemma SentHas(s: State, receiver: string, t: EmailThread, key: string, now: int, victims: set<string>)
    requires Wf(s) && t in s.store && TailKept(s.store[t])
    ensures var r := CacheThread(Sent(s, t, key), receiver, t, now, victims); var d := SentData(s.store[t], key);
            && t in r.store && r.store[t].threadID == s.store[t].threadID
            && r.store[t].messageID == key && !r.store[t].isDraft
            && Ids(r.store[t]) == Ids(d) == Ids(s.store[t]) + ({key} - {""}) && Ids(Restored(Saved(d))) == Ids(d)
  {
    SentIds(s.store[t], key);
    SameIds(Sent(s, t, key), receiver, t, now, victims, t);
    CacheWf(Sent(s, t, key), receiver, t, now, victims);
    assert Ids(Restored(Saved(SentData(s.store[t], key)))) == Ids(SentData(s.store[t], key));
  }

  /** After a send into a named thread. */
  lemma SendClaims(w: World, e: Event, t: EmailThread, ids: set<string>)
    requires SoundWorld(w) && Legal(w, e) && Speaks(w, e, t) && t !in Dropped(w, e) && Unclaimed(w, e, t, ids)
    requires t in Opened(w, e).store && Opened(w, e).store[t].threadID != ""
    requires ids <= Ids(Opened(w, e).store[t]) + ({e.key} - {""})
    ensures Wf(Step(w, e).tm) && Owns(Step(w, e).tm, t, ids)
  {
    SendSteps(w, e, t);
    SendApart(w, e, t, ids);
    SendKeepsKeys(w, e, t);
    SentIds(Opened(w, e).store[t], e.key);
    SentClaims(Opened(w, e), e.receiver, t, e.key, e.now, e.v2, ids);
  }

  /** A message the bridge sends from the room joins the conversation. */
  lemma SendJoins(w: World, e: Event, t: EmailThread, conversation: set<string>, joined: set<string>)
    requires SoundWorld(w) && Legal(w, e) && Owns(w.tm, t, conversation) && Speaks(w, e, t)
    requires joined == conversation + {e.key} - {""} && t !in Dropped(w, e) && Unclaimed(w, e, t, joined)
    ensures Wf(Step(w, e).tm) && Owns(Step(w, e).tm, t, joined)
  {
    OpenGrows(w, e.receiver, e.id, e.spare, e.now, e.v1, t);
    SendClaims(w, e, t, joined);
  }

  // ---- The conversation --------------------------------------------------------------------------------

  lemma ConversationStep(w: World, e: Event, t: EmailThread, conversation: set<string>)
    requires SoundWorld(w) && Legal(w, e) && Owns(w.tm, t, conversation)
    requires t !in Dropped(w, e) && Unclaimed(w, e, t, Joined(w, e, t, conversation))
    ensures Wf(Step(w, e).tm) && Owns(Step(w, e).tm, t, Joined(w, e, t, conversation))
    ensures Answers(w, e, conversation) ==> PortalOf(w, e) == w.tm.store[t].threadID
  {
    if Answers(w, e, conversation) {
      AnswerJoins(w, e, t, conversation, Joined(w, e, t, conversation));
    } else if Speaks(w, e, t) {
      SendJoins(w, e, t, conversation, Joined(w, e, t, conversation));
    } else {
      StepOwns(w, e, t, conversation);
    }
  }

  /** As long as its thread keeps its keys and no other thread claims a message of it, every causal chain of
      replies of a conversation, inbound and outbound in any order, stays in its room. Other threads may do what
      they like. */
  lemma {:induction false} ConversationClosed(w: World, es: seq<Event>, t: EmailThread, conversation: set<string>)
    requires SoundWorld(w) && Owns(w.tm, t, conversation) && Undisturbed(w, es, t, conversation)
    ensures StaysTogether(w, es, t, conversation, w.tm.store[t].threadID)
    ensures Owns(Run(w, es).tm, t, Conversation(w, es, t, conversation))
    ensures SoundWorld(Run(w, es)) && Run(w, es).tm.store[t].threadID == w.tm.store[t].threadID
    decreases |es|
  {
    if es != [] {
      StepWf(w, es[0]);
      StepSound(w, es[0]);
      StepGrows(w, es[0], t);
      ConversationStep(w, es[0], t, conversation);
      ConversationClosed(Step(w, es[0]), es[1..], t, Joined(w, es[0], t, conversation));
    }
  }

  // ---- After a send ------------------------------------------------------------------------------------

  lemma TargetIsNamed(w: World, e: Event, t: EmailThread)
    requires SoundWorld(w) && Keyed(w.tm) && Legal(w, e) && Speaks(w, e, t)
    ensures t in Opened(w, e).store && Opened(w, e).store[t].threadID != ""
  {
    OpenedThread(w, e.receiver, e.id, e.spare, e.now, e.v1);
    GetKeyed(w.tm, e.receiver, e.id, e.now);
    GetWf(w.tm, e.receiver, e.id, e.now);
    var (g, hit) := GetThreadByID(w.tm, e.receiver, e.id, e.now);
    if hit.Some? {
      var k :| k in g.known && g.known[k] == hit.value;
      assert IsKeyOf(k, g.store[hit.value]);
    }
  }

  /** A send leaves its key with the thread and in the metadata it saves, from which a restore recovers every
      ID of the thread. */
  lemma SendRecords(w: World, e: Event, t: EmailThread)
    requires SoundWorld(w) && Legal(w, e) && Speaks(w, e, t)
    ensures var v := Step(w, e);
            && Wf(v.tm) && t in v.tm.store
            && (e.key != "" ==> e.key in Ids(v.tm.store[t]))
            && v.tm.store[t].messageID == e.key && !v.tm.store[t].isDraft
            && (e.receiver, e.id) in v.portals
            && v.portals[(e.receiver, e.id)].lastMessageID == e.key && !v.portals[(e.receiver, e.id)].isDraft
            && Ids(Restored(v.portals[(e.receiver, e.id)])) == Ids(v.tm.store[t])
            && v.portals[(e.receiver, e.id)].threadID == v.tm.store[t].threadID
  {
    SendSteps(w, e, t);
    SentHas(Opened(w, e), e.receiver, t, e.key, e.now, e.v2);
  }

  /** The IDs of the thread that no other thread carries are its own after a send. */
  lemma SendOwnsIds(w: World, e: Event, t: EmailThread, ids: set<string>)
    requires SoundWorld(w) && Keyed(w.tm) && Legal(w, e) && Speaks(w, e, t)
    requires t !in Dropped(w, e) && Unclaimed(w, e, t, ids)
    requires t in Step(w, e).tm.store && ids <= Ids(Step(w, e).tm.store[t])
    ensures Wf(Step(w, e).tm) && Owns(Step(w, e).tm, t, ids)
  {
    SendSteps(w, e, t);
    SentHas(Opened(w, e), e.receiver, t, e.key, e.now, e.v2);
    TargetIsNamed(w, e, t);
    SendClaims(w, e, t, ids);
  }

  /** After a send, replies to the sent message, to any message of the thread that is the thread's own, and to
      whatever is said from then on come back to the room. */
  lemma SendThenReplies(w: World, e: Event, t: EmailThread, ids: set<string>, es: seq<Event>)
    requires SoundWorld(w) && Keyed(w.tm) && Legal(w, e) && Speaks(w, e, t)
    requires t !in Dropped(w, e) && Unclaimed(w, e, t, ids)
    requires t in Step(w, e).tm.store && ids <= Ids(Step(w, e).tm.store[t])
    requires (StepWf(w, e); Undisturbed(Step(w, e), es, t, ids))
    ensures (StepWf(w, e); StaysTogether(Step(w, e), es, t, ids, Step(w, e).tm.store[t].threadID))
  {
    StepWf(w, e);
    StepSound(w, e);
    SendOwnsIds(w, e, t, ids);
    ConversationClosed(Step(w, e), es, t, ids);
  }

  // ---- After a restore ---------------------------------------------------------------------------------

  predicate Misses(w: World, open: Event)
    requires Wf(w.tm) && open.Open?
  {
    GetThreadByID(w.tm, open.receiver, open.id, open.now).1 == None
  }

  lemma RestoreClaims(w: World, open: Event, ids: set<string>)
    requires SoundWorld(w) && Legal(w, open) && open.Open? && open.id != "" && Misses(w, open)
    requires Restorable(w, open.receiver, open.id) && ids <= Ids(Restored(w.portals[(open.receiver, open.id)]))
    requires open.spare !in Dropped(w, open) && Unclaimed(w, open, open.spare, ids)
    ensures var v := Step(w, open);
            Wf(v.tm) && Owns(v.tm, open.spare, ids) && v.tm.store[open.spare].threadID == open.id
  {
    CleanupWf(w.tm, open.now);
    GetWf(w.tm, open.receiver, open.id, open.now);
    var g := GetThreadByID(w.tm, open.receiver, open.id, open.now).0;
    var d := Restored(w.portals[(open.receiver, open.id)]);
    var s := g.(store := g.store[open.spare := d]);
    SameIds(s, open.receiver, open.spare, open.now, open.v1, open.spare);
    assert Step(w, open).tm == CacheThread(s, open.receiver, open.spare, open.now, open.v1);
    assert g.known == Cleanup(w.tm, open.now).known;
    forall u | u in Live(s) && u != open.spare ensures Ids(s.store[u]) !! ids {
      assert u in Standing(w, open);
      SameIds(s, open.receiver, open.spare, open.now, open.v1, u);
    }
    CachedClaims(s, open.receiver, open.spare, open.now, open.v1, ids);
  }

  /** Opening a room whose thread is gone restores it; replies to any message its metadata lists, and that no
      other thread has claimed, and to whatever is said from then on, come back to the room. */
  lemma RestoreThenReplies(w: World, open: Event, ids: set<string>, es: seq<Event>)
    requires SoundWorld(w) && Legal(w, open) && open.Open? && open.id != "" && Misses(w, open)
    requires Restorable(w, open.receiver, open.id) && ids <= Ids(Restored(w.portals[(open.receiver, open.id)]))
    requires open.spare !in Dropped(w, open) && Unclaimed(w, open, open.spare, ids)
    requires (StepWf(w, open); Undisturbed(Step(w, open), es, open.spare, ids))
    ensures (StepWf(w, open); StaysTogether(Step(w, open), es, open.spare, ids, open.id))
  {
    StepWf(w, open);
    StepSound(w, open);
    RestoreClaims(w, open, ids);
    ConversationClosed(Step(w, open), es, open.spare, ids);
  }
}
