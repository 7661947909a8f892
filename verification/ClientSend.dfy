/** What sending from a room does to the room's thread: find or restore it, make the reply headers, and
    after the send move its tail to the new message and save it beside the room. */
module ClientSend {
  import opened Wrappers
  import opened ThreadState
  import opened ThreadRuns
  import opened ThreadOwnership
  import opened ThreadConversations
  import opened ThreadManagement

  /** computeReplyChain: the In-Reply-To and References of the outgoing message. `parent` is the message
      the user explicitly replied to, if any. */
  function ReplyChain(d: ThreadData, parent: Option<string>): (string, seq<string>) {
    if parent.Some? then (parent.value, d.references + [parent.value])
    else if d.messageID != "" then (d.messageID, d.references + [d.messageID])
    else ("", d.references)
  }

  /** A reply without an explicit parent answers the thread's tail if and only if there is one, so that the next
      message of the thread carries an ID the cache knows the thread by, after all References of the thread; and
      after a send the tail is the message just sent. */
  lemma ReplyChainLeadsBack(d: ThreadData, key: string)
    requires TailKept(d) && key != ""
    ensures var (parent, references) := ReplyChain(d, None);
            && (parent == "" <==> d.messageID == "") && d.references <= references
            && (parent == "" ==> references == d.references)
            && (parent != "" ==> parent == d.messageID && parent in Ids(d) && references[|references| - 1] == parent)
            && (set r | r in references) - {""} <= Ids(d)
    ensures var (parent, references) := ReplyChain(SentData(d, key), None);
            parent == key && d.references + [key] <= references
  {
    var (parent, references) := ReplyChain(d, None);
    forall r | r in references && r != "" ensures r in Ids(d) {
      if r !in d.references { assert r == d.messageID; }
    }
  }

  /** A reply to an explicit parent answers that message and names no other ID foreign to the thread. It leads
      back to the thread if and only if the parent is one of the thread's IDs or the thread has references: its
      tail is not named beside an explicit parent. */
  lemma ParentChainLeadsBack(d: ThreadData, p: string)
    ensures var (parent, references) := ReplyChain(d, Some(p));
            && parent == p && references[|references| - 1] == p
            && (set r | r in references) - {"", p} <= Ids(d)
            && ((exists r :: r in references && r in Ids(d))
                <==> p in Ids(d) || exists r :: r in d.references && r != "")
  {
    var (parent, references) := ReplyChain(d, Some(p));
    forall r | r in references && r != p ensures r in d.references {
    }
    if r :| r in d.references && r != "" { assert r in references && r in Ids(d); }
    assert p in references;
  }

  /** The first reply to an email that started its thread answers that very email, after the email's own
      References; without a Message-ID there is nothing to answer. */
  lemma FirstReplyAnswers(w: World, e: Event)
    requires SoundWorld(w) && Legal(w, e) && e.Inbound? && DetermineMakes(w.tm, e.receiver, e.email, e.resolver)
    ensures var r := Step(w, e).tm;
            && e.spare in r.store && r.store[e.spare].threadID == NewThreadID(e.email) == PortalOf(w, e)
            && ReplyChain(r.store[e.spare], None)
            == if e.email.messageID == "" then ("", e.email.references)
               else (e.email.messageID, e.email.references + [e.email.messageID])
  {
    MakesCreates(w.tm, e.receiver, e.email, e.resolver, e.spare, e.now, e.v1);
    CreatedWf(w.tm, e.email, e.spare, e.now);
    var c := Created(w.tm, e.email, e.spare, e.now);
    BoundedWf(c, e.v1);
    CacheWf(Bounded(c, e.v1), e.receiver, e.spare, e.now, e.v2);
  }

  /** But the first reply into a thread that is only known to the resolver answers nothing: the thread starts
      without a tail, and the email that brought it back is just one of its References. */
  lemma FirstReplyAfterResolving(w: World, e: Event, tid: string)
    requires SoundWorld(w) && Legal(w, e) && e.Inbound? && !e.email.forwarded
    requires Resolved(e.resolver, Parents(e.email)) == Some(tid)
    requires GetThreadByID(w.tm, e.receiver, tid, e.now).1 == None
    ensures var r := Step(w, e).tm;
            && e.spare in r.store && r.store[e.spare].threadID == tid
            && ReplyChain(r.store[e.spare], None)
            == ("", if e.email.messageID == "" then [] else [e.email.messageID])
  {
    ResolvedMakes(w.tm, e, tid);
    DetermineWf(w.tm, e.receiver, e.email, e.resolver, e.spare, e.now, e.v1);
    CacheWf(DetermineThread(w.tm, e.receiver, e.email, e.resolver, e.spare, e.now, e.v1).0, e.receiver, e.spare, e.now,
            e.v2);
    assert [] + [e.email.messageID] == [e.email.messageID];
  }

  lemma ResolvedMakes(s: State, e: Event, tid: string)
    requires Wf(s) && e.Inbound? && !e.email.forwarded && Resolved(e.resolver, Parents(e.email)) == Some(tid)
    requires GetThreadByID(s, e.receiver, tid, e.now).1 == None
    ensures var (d, t) := DetermineThread(s, e.receiver, e.email, e.resolver, e.spare, e.now, e.v1);
            t == e.spare && t in d.store && d.store[t] == AddedData(BareThread(tid, e.email.subject), e.email)
  {
    GetWf(s, e.receiver, tid, e.now);
  }

  /** After an answer from outside, the next reply names it among its References. */
  lemma NextReplyNames(w: World, e: Event, t: EmailThread, conversation: set<string>)
    requires SoundWorld(w) && Legal(w, e) && Owns(w.tm, t, conversation) && Answers(w, e, conversation)
    requires e.email.messageID != ""
    ensures var r := Step(w, e).tm;
            && t in r.store && e.email.messageID in ReplyChain(r.store[t], None).1
            && w.tm.store[t].references <= r.store[t].references && r.store[t].messageID == w.tm.store[t].messageID
  {
    AnswerMatches(w, e, t, conversation);
    CacheWf(AddTo(w.tm, t, e.email), e.receiver, t, e.now, e.v2);
  }

  lemma BlankIsNotIndexed(s: State)
    requires Sound(s)
    ensures "" !in s.index
  {
  }

  lemma {:induction false} OwnedIsFirst(s: State, t: EmailThread, ids: seq<string>)
    requires Sound(s) && t in s.store && Owns(s, t, Ids(s.store[t]))
    requires (set r | r in ids) - {""} <= Ids(s.store[t]) && exists r :: r in ids && r != ""
    ensures FirstIndexed(s, ids) == Some(t)
  {
    var r :| r in ids && r != "";
    if ids[0] == "" {
      BlankIsNotIndexed(s);
      assert r in ids[1..];
      OwnedIsFirst(s, t, ids[1..]);
    } else {
      assert ids[0] in Ids(s.store[t]);
    }
  }

  /** The headers of a reply lead home: an email that carries them is determined to the thread, wherever the
      thread owns its IDs, and whatever else is cached; only a thread without tail and References cannot be
      recognised by them. */
  lemma ReplyComesHome(s: State, t: EmailThread, receiver: string, email: Email, resolver: map<string, string>,
                       spare: EmailThread, now: int, victims: set<string>)
    requires Sound(s) && t in s.store && TailKept(s.store[t]) && Owns(s, t, Ids(s.store[t]))
    requires (email.inReplyTo, email.references) == ReplyChain(s.store[t], None)
    requires !email.forwarded && Resolved(resolver, Parents(email)) == None
    ensures s.store[t].messageID != "" || (exists r :: r in s.store[t].references && r != "") ==>
              DetermineThread(s, receiver, email, resolver, spare, now, victims) == (AddTo(s, t, email), t)
    ensures FirstIndexed(s, Parents(email)) == Some(t)
            <==> s.store[t].messageID != "" || (exists r :: r in s.store[t].references && r != "")
  {
    var d := s.store[t];
    var ids := Parents(email);
    ReplyChainLeadsBack(d, "key");
    if d.messageID != "" {
      assert ids[0] == d.messageID && ids[0] in ids;
      OwnedIsFirst(s, t, ids);
    } else {
      assert ids == d.references;
      if exists r :: r in d.references && r != "" { OwnedIsFirst(s, t, ids); } else { BlankIsUnknown(s, ids); }
    }
  }

  lemma {:induction false} BlankIsUnknown(s: State, ids: seq<string>)
    requires Sound(s) && forall r :: r in ids ==> r == ""
    ensures FirstIndexed(s, ids) == None
  {
    if ids != [] {
      assert ids[0] in ids;
      BlankIsNotIndexed(s);
      assert forall r :: r in ids[1..] ==> r in ids;
      BlankIsUnknown(s, ids[1..]);
    }
  }

  /** A room that was composed but never sent into starts a thread of its own. */
  lemma FirstSendStarts(w: World, e: Event)
    requires SoundWorld(w) && Legal(w, e) && e.Compose?
    ensures var r := Step(w, e).tm;
            e.spare in r.store && r.store[e.spare].isDraft && ReplyChain(r.store[e.spare], None) == ("", [])
  {
    CacheWf(w.tm.(store := w.tm.store[e.spare := DraftData(e.id, e.subject)]), e.receiver, e.spare, e.now, e.v1);
  }

  /** The lookup with which opening a room starts. */
  function Found(s: State, receiver: string, id: string, now: int): (State, Option<EmailThread>)
    requires Wf(s)
  {
    if id == "" then (s, None) else ThreadState.GetThreadByID(s, receiver, id, now)
  }

  class EmailClient {
    const tm: ThreadManager
    var portals: map<Portal, Metadata>

    constructor (tm: ThreadManager)
      ensures this.tm == tm && portals == map[]
    {
      this.tm, portals := tm, map[];
    }

    ghost function View(): World
      reads this, tm, tm.threads
    {
      World(tm.View(), portals)
    }

    /** resolveThreadForPortalWithMetadata. */
    method ResolveThreadForPortal(receiver: string, id: string, now: int)
      returns (t: EmailThread?, ghost victims: set<string>)
      requires tm.Valid()
      modifies tm, tm.threads
      ensures tm.Valid() && old(tm.threads) <= tm.threads && fresh(tm.threads - old(tm.threads))
      ensures t != null ==>
          t in tm.threads && (tm.View(), Some(t)) == OpenPortal(old(View()), receiver, id, t, now, victims)
      ensures t == null ==>
                && (tm.View(), None) == Found(old(tm.View()), receiver, id, now)
                && !(id != "" && Restorable(old(View()), receiver, id))
    {
      victims := {};
      if id == "" { return null, victims; }
      t := tm.GetThreadByID(receiver, id, now);
      if t != null { return; }
      if (receiver, id) !in portals { return; }
      var m := portals[(receiver, id)];
      if m.threadID == "" || m.threadID != id { return; }
      ghost var g := tm.View();
      t := new EmailThread(Restored(m));
      assert tm.View() == g;
      tm.Adopt(t);
      victims := tm.CacheThread(receiver, t, now);
    }

    /** The thread's part of a successful send of a message that went out as `key`. */
    method Send(receiver: string, id: string, key: string, now: int)
      returns (t: EmailThread?, ghost v1: set<string>, ghost v2: set<string>)
      requires tm.Valid()
      modifies this`portals, tm, tm.threads
      ensures tm.Valid()
      ensures t != null ==> View() == SendInto(old(View()), Event.Send(receiver, id, key, t, now, v1, v2))
      ensures t == null ==>
                portals == old(portals) && (tm.View(), None) == Found(old(tm.View()), receiver, id, now)
                && !(id != "" && Restorable(old(View()), receiver, id))
    {
      v2 := {};
      t, v1 := ResolveThreadForPortal(receiver, id, now);
      if t == null { return; }
      v2 := RecordSend(receiver, id, t, key, now);
    }

    /** Moves the thread's tail to the sent message, caches the thread again, and saves it. */
    method RecordSend(receiver: string, id: string, t: EmailThread, key: string, now: int)
      returns (ghost victims: set<string>)
      requires tm.Valid() && t in tm.threads
      modifies this`portals, tm, t
      ensures tm.Valid()
      ensures var s := old(tm.View()); var sent := s.(store := s.store[t := SentData(s.store[t], key)]);
              && tm.View() == ThreadState.CacheThread(sent, receiver, t, now, victims)
              && portals == old(portals)[(receiver, id) := Saved(sent.store[t])]
    {
      MoveTail(t, key);
      ghost var sent := tm.View();
      victims := tm.CacheThread(receiver, t, now);
      CacheWf(sent, receiver, t, now, victims);
      assert t.Data() == tm.View().store[t];
      assert Saved(t.Data()) == Saved(sent.store[t]);
      SaveMetadata(receiver, id, t);
    }

    method SaveMetadata(receiver: string, id: string, t: EmailThread)
      modifies this`portals
      ensures portals == old(portals)[(receiver, id) := Saved(t.Data())]
    {
      portals :=
        portals[(receiver, id) :=
          Metadata(t.threadID, t.subject, t.references, t.messageID, t.isDraft, t.gmailThreadID)];
    }

    method MoveTail(t: EmailThread, key: string)
      requires tm.Valid() && t in tm.threads
      modifies t
      ensures tm.Valid()
      ensures tm.View() == old(tm.View()).(store := old(tm.View()).store[t := SentData(old(tm.View()).store[t], key)])
    {
      t.references := t.references + [key];
      t.messageID := key;
      if t.isDraft { t.isDraft := false; }
      tm.StoreUpdated(t);
    }
  }
}
