/** The thread cache as the bridge runs it: three maps and the thread objects, updated in place. Every
    method is proved to take the cache from one state to the state its specification names. */
module ThreadManagement {
  import opened Wrappers
  import opened ThreadState
  import opened ThreadRuns
  import opened Eviction

  /** Taking one more key out of the cache. */
  lemma RemoveOneMore(s: State, keys: set<string>, k: string)
    requires Wf(s) && k in s.known && k !in keys
    ensures (RemoveKeysWf(s, keys);
             RemoveKeys(RemoveKeys(s, keys), {k}) == RemoveKeys(s, keys + {k}))
    ensures k in RemoveKeys(s, keys).known
  {
    RemoveKeysWf(s, keys);
    var r := RemoveKeys(s, keys);
    assert At(r, {k}) == {s.known[k]};
    assert At(s, keys + {k}) == At(s, keys) + {s.known[k]};
  }

  ghost function Entries(ids: set<string>, t: EmailThread): map<string, EmailThread> {
    map id | id in ids :: t
  }

  lemma AnotherEntry(m: map<string, EmailThread>, ids: set<string>, t: EmailThread, id: string)
    ensures m + Entries(ids + ({id} - {""}), t)
         == if id == "" then m + Entries(ids, t) else (m + Entries(ids, t))[id := t]
  {
    if id == "" { assert ids + ({id} - {""}) == ids; }
  }

  lemma OneLess(m: map<string, EmailThread>, ids: set<string>, tail: set<string>, id: string)
    ensures m - (ids + ({id} - {""}) + tail) == if id == "" then m - (ids + tail) else m - (ids + tail) - {id}
  {
    if id == "" { assert ids + ({id} - {""}) == ids; }
  }

  /** The IDs of a thread, without its tail, up to reference `i`. */
  ghost function IdsUpTo(d: ThreadData, i: nat): set<string> {
    if i == 0 then {d.threadID} - {""}
    else if i <= |d.references| then IdsUpTo(d, i - 1) + ({d.references[i - 1]} - {""})
    else {}
  }

  lemma {:induction false} IdsUpToAre(d: ThreadData, i: nat)
    requires i <= |d.references|
    ensures IdsUpTo(d, i) == {d.threadID} + (set r | r in d.references[..i]) - {""}
  {
    if i > 0 {
      IdsUpToAre(d, i - 1);
      assert d.references[..i] == d.references[..i - 1] + [d.references[i - 1]];
    }
  }

  lemma IdsFrom(d: ThreadData)
    ensures IdsUpTo(d, |d.references|) + ({d.messageID} - {""}) == Ids(d)
    ensures d.messageID == d.threadID ==> IdsUpTo(d, |d.references|) == Ids(d)
  {
    IdsUpToAre(d, |d.references|);
    assert d.references[..|d.references|] == d.references;
  }

  class ThreadManager {
    var knownThreads: map<string, EmailThread>
    var messageIDIndex: map<string, EmailThread>
    var gmailThreadIDIndex: map<string, EmailThread>
    var lastCleanup: int
    ghost var threads: set<EmailThread>

    ghost function View(): State
      reads this, threads
    {
      State(map t | t in threads :: t.Data(), knownThreads, messageIDIndex, gmailThreadIDIndex, lastCleanup)
    }

    ghost predicate Valid()
      reads this, threads
    {
      Wf(View())
    }

    constructor (now: int)
      ensures Valid() && View() == Empty(now).tm
    {
      knownThreads, messageIDIndex, gmailThreadIDIndex := map[], map[], map[];
      lastCleanup, threads := now, {};
    }

    method UpdateMessageIDIndex(receiver: string, t: EmailThread)
      requires Valid() && t in threads
      modifies this`messageIDIndex, this`gmailThreadIDIndex
      ensures View() == IndexThread(old(View()), receiver, t)
      ensures Valid()
    {
      IndexWf(View(), receiver, t);
      IndexIDs(t);
      if t.gmailThreadID != "" {
        gmailThreadIDIndex := gmailThreadIDIndex[receiver + "|" + t.gmailThreadID := t];
      }
      assert View().store == old(View()).store;
    }

    method IndexIDs(t: EmailThread)
      modifies this`messageIDIndex
      ensures messageIDIndex == old(messageIDIndex) + Entries(Ids(t.Data()), t)
    {
      ghost var was, d := messageIDIndex, t.Data();
      if t.threadID != "" { messageIDIndex := messageIDIndex[t.threadID := t]; }
      IdsFrom(d);
      for i := 0 to |t.references|
        invariant messageIDIndex == was + Entries(IdsUpTo(d, i), t)
      {
        var ref := t.references[i];
        AnotherEntry(was, IdsUpTo(d, i), t, ref);
        if ref != "" { messageIDIndex := messageIDIndex[ref := t]; }
        assert IdsUpTo(d, i + 1) == IdsUpTo(d, i) + ({ref} - {""});
      }
      AnotherEntry(was, IdsUpTo(d, |d.references|), t, d.messageID);
      if t.messageID != "" && t.messageID != t.threadID {
        messageIDIndex := messageIDIndex[t.messageID := t];
      }
    }

    method RemoveFromMessageIDIndex(t: EmailThread)
      requires Valid() && t in threads
      modifies this`messageIDIndex, this`gmailThreadIDIndex
      ensures View() == Unindex(old(View()), {t})
    {
      UnindexIDs(t);
      SweepGmail(t);
      assert View().store == old(View()).store;
      assert View().index == Unindex(old(View()), {t}).index;
    }

    method UnindexIDs(t: EmailThread)
      modifies this`messageIDIndex
      ensures messageIDIndex == old(messageIDIndex) - Ids(t.Data())
    {
      ghost var was, d := messageIDIndex, t.Data();
      if t.threadID != "" { messageIDIndex := messageIDIndex - {t.threadID}; }
      if t.messageID != "" { messageIDIndex := messageIDIndex - {t.messageID}; }
      ghost var tail := {d.messageID} - {""};
      IdsFrom(d);
      assert IdsUpTo(d, 0) == {d.threadID} - {""};
      assert messageIDIndex == was - (({d.threadID} - {""}) + tail);
      for i := 0 to |t.references|
        invariant messageIDIndex == was - (IdsUpTo(d, i) + tail)
      {
        var ref := t.references[i];
        OneLess(was, IdsUpTo(d, i), tail, ref);
        if ref != "" { messageIDIndex := messageIDIndex - {ref}; }
        assert IdsUpTo(d, i + 1) == IdsUpTo(d, i) + ({ref} - {""});
      }
    }

    /** Drops the entries of the Gmail table that lead to `t`, whatever their key. */
    method SweepGmail(t: EmailThread)
      modifies this`gmailThreadIDIndex
      ensures gmailThreadIDIndex
           == map k | k in old(gmailThreadIDIndex) && old(gmailThreadIDIndex)[k] != t :: old(gmailThreadIDIndex)[k]
    {
      ghost var was := gmailThreadIDIndex;
      var todo := gmailThreadIDIndex.Keys;
      while todo != {}
        invariant todo <= was.Keys
        invariant gmailThreadIDIndex == map k | k in was && (k in todo || was[k] != t) :: was[k]
      {
        var k :| k in todo;
        if gmailThreadIDIndex[k] == t { gmailThreadIDIndex := gmailThreadIDIndex - {k}; }
        todo := todo - {k};
      }
    }

    /** The step shared by expiry and eviction: drop one key and de-index the thread it led to. */
    method DropKey(key: string)
      requires Valid() && key in knownThreads
      modifies this`knownThreads, this`messageIDIndex, this`gmailThreadIDIndex
      ensures Valid() && View() == RemoveKeys(old(View()), {key})
    {
      ghost var s := View();
      RemoveKeysWf(s, {key});
      assert At(s, {key}) == {knownThreads[key]};
      assert knownThreads[key] in knownThreads.Values;
      RemoveFromMessageIDIndex(knownThreads[key]);
      knownThreads := knownThreads - {key};
    }

    method CleanupExpiredThreadsIfNeeded(now: int)
      requires Valid()
      modifies this
      ensures Valid() && View() == Cleanup(old(View()), now) && threads == old(threads)
    {
      if now - lastCleanup < HOUR { return; }
      ghost var s := View();
      CleanupWf(s, now);
      lastCleanup := now;
      var expired: set<string> := {};
      var cutoff := now - THREAD_CACHE_TTL;
      var todo := knownThreads.Keys;
      while todo != {}
        invariant todo <= knownThreads.Keys
        invariant expired == set k | k in knownThreads && k !in todo && s.store[knownThreads[k]].lastAccessed < cutoff
      {
        var key :| key in todo;
        assert knownThreads[key] in knownThreads.Values;
        assert s.store[knownThreads[key]] == knownThreads[key].Data();
        if knownThreads[key].lastAccessed < cutoff { expired := expired + {key}; }
        todo := todo - {key};
      }
      ghost var c := s.(lastCleanup := now);
      assert View() == c;
      assert expired == Expired(s, now);
      DropAll(expired);
    }

    method DropAll(keys: set<string>)
      requires Valid() && keys <= knownThreads.Keys
      modifies this`knownThreads, this`messageIDIndex, this`gmailThreadIDIndex
      ensures Valid() && View() == RemoveKeys(old(View()), keys)
    {
      ghost var s := View();
      ghost var dropped: set<string> := {};
      var todo := keys;
      RemoveNothing(s);
      while todo != {}
        invariant todo !! dropped && todo + dropped == keys
        invariant Valid() && View() == RemoveKeys(s, dropped)
      {
        var key :| key in todo;
        RemoveOneMore(s, dropped, key);
        DropKey(key);
        dropped := dropped + {key};
        todo := todo - {key};
      }
      assert dropped == keys;
    }

    /** The cached keys with their last use, in the arbitrary order of a map. */
    method ListEntries() returns (a: array<Entry>)
      requires Valid()
      ensures fresh(a) && IsListing(View(), a[..])
    {
      var listed: seq<Entry> := [];
      var todo := knownThreads.Keys;
      while todo != {}
        invariant todo <= knownThreads.Keys
        invariant |listed| + |todo| == |knownThreads|
        invariant forall i :: 0 <= i < |listed| ==> IsEntry(View(), listed[i]) && listed[i].key !in todo
        invariant forall i, j :: 0 <= i < j < |listed| ==> listed[i].key != listed[j].key
      {
        var key :| key in todo;
        assert knownThreads[key] in knownThreads.Values;
        listed := listed + [Entry(key, knownThreads[key].lastAccessed)];
        todo := todo - {key};
      }
      a := new Entry[|listed|](i requires 0 <= i < |listed| => listed[i]);
      assert a[..] == listed;
    }

    method EvictOldestThreads(count: nat) returns (ghost victims: set<string>)
      requires Valid()
      modifies this`knownThreads, this`messageIDIndex, this`gmailThreadIDIndex
      ensures Valid()
      ensures |old(View()).known| <= count ==> View() == old(View())
      ensures |old(View()).known| > count ==>
                LegalVictims(old(View()), count, victims) && View() == RemoveKeys(old(View()), victims)
    {
      victims := {};
      if |knownThreads| <= count { return; }
      var entries := OldestFirst();
      OldestAreLegal(View(), entries, count);
      victims := DropFirst(entries, count);
    }

    /** The listing, sorted in place. */
    method OldestFirst() returns (entries: seq<Entry>)
      requires Valid()
      ensures IsListing(View(), entries) && Ordered(entries)
    {
      var a := ListEntries();
      SortedListing(View(), a[..]);
      InsertionSort(a);
      entries := a[..];
    }

    /** Drops the first `count` keys of a listing. */
    method DropFirst(entries: seq<Entry>, count: nat) returns (ghost dropped: set<string>)
      requires Valid() && IsListing(View(), entries) && count <= |entries|
      modifies this`knownThreads, this`messageIDIndex, this`gmailThreadIDIndex
      ensures Valid() && dropped == KeysOf(entries[..count]) && View() == RemoveKeys(old(View()), dropped)
    {
      ghost var s := View();
      dropped := {};
      var removed := 0;
      RemoveNothing(s);
      while removed < count
        invariant 0 <= removed <= count
        invariant dropped == KeysOf(entries[..removed])
        invariant Valid() && View() == RemoveKeys(s, dropped)
      {
        var key := entries[removed].key;
        NextKey(s, entries, removed);
        RemoveOneMore(s, dropped, key);
        DropKey(key);
        dropped := dropped + {key};
        removed := removed + 1;
      }
    }

    /** The size check that ends every insertion: evict a quarter once the cache is over its maximum. */
    method EnforceCap() returns (ghost victims: set<string>)
      requires Valid()
      modifies this`knownThreads, this`messageIDIndex, this`gmailThreadIDIndex
      ensures Valid() && View() == Bounded(old(View()), victims) && LegalEviction(old(View()), victims)
    {
      victims := {};
      if |knownThreads| > MAX_CACHED_THREADS {
        victims := EvictOldestThreads(MAX_CACHED_THREADS / 4);
      }
    }

    /** cacheThread. */
    method CacheThread(receiver: string, t: EmailThread, now: int) returns (ghost victims: set<string>)
      requires Valid() && t in threads
      modifies this`knownThreads, this`messageIDIndex, this`gmailThreadIDIndex, t`lastAccessed
      ensures Valid() && View() == ThreadState.CacheThread(old(View()), receiver, t, now, victims)
      ensures LegalFiling(old(View()), receiver, t, now, victims)
    {
      victims := {};
      if t.threadID == "" { return; }
      ghost var s := View();
      ghost var touched := Touch(s, t, now);
      MarkUsed(t, now);
      knownThreads := knownThreads[receiver + "|" + t.threadID := t];
      assert View() == touched.(known := s.known[Key(receiver, s.store[t].threadID) := t]);
      FiledWf(s, receiver, t, now);
      assert Valid();
      UpdateMessageIDIndex(receiver, t);
      victims := EnforceCap();
    }

    method GetThreadByID(receiver: string, id: string, now: int) returns (t: EmailThread?)
      requires Valid()
      modifies this, threads
      ensures Valid() && threads == old(threads)
      ensures (View(), if t == null then None else Some(t)) == ThreadState.GetThreadByID(old(View()), receiver, id, now)
      ensures t != null ==> t in threads
    {
      GetWf(View(), receiver, id, now);
      CleanupExpiredThreadsIfNeeded(now);
      var key := receiver + "|" + id;
      if key in knownThreads {
        t := knownThreads[key];
      } else if id in knownThreads {
        t := knownThreads[id];
      } else {
        return null;
      }
      assert t in knownThreads.Values;
      MarkUsed(t, now);
    }

    method MarkUsed(t: EmailThread, now: int)
      requires Valid() && t in threads
      modifies t`lastAccessed
      ensures Valid() && View() == Touch(old(View()), t, now)
    {
      t.lastAccessed := now;
      StoreUpdated(t);
    }

    method FindThreadByMessageID(messageID: string) returns (t: EmailThread?)
      requires Valid()
      ensures t == if messageID in messageIDIndex then messageIDIndex[messageID] else null
    {
      t := if messageID in messageIDIndex then messageIDIndex[messageID] else null;
    }

    method FindByGmailThreadID(receiver: string, id: string) returns (t: EmailThread?)
      requires Valid()
      ensures (if t == null then None else Some(t)) == ByGmail(View(), receiver, id)
    {
      if id == "" { return null; }
      var key := receiver + "|" + id;
      t := if key in gmailThreadIDIndex then gmailThreadIDIndex[key] else null;
    }

    /** Changing one thread object changes the store at that object only. */
    twostate lemma StoreUpdated(t: EmailThread)
      requires t in threads && threads == old(threads)
      requires forall x :: x in threads && x != t ==> unchanged(x)
      ensures View().store == old(View()).store[t := t.Data()]
    {
    }

    method AddToExistingThread(t: EmailThread, email: Email)
      requires Valid() && t in threads
      modifies t`references, t`gmailThreadID
      ensures Valid() && View() == AddTo(old(View()), t, email)
    {
      if email.messageID != "" {
        t.references := AppendUniqueRef(t.references, email.messageID);
      }
      if email.gmailThreadID != "" { t.gmailThreadID := email.gmailThreadID; }
      StoreUpdated(t);
      assert t.Data() == AddedData(old(t.Data()), email);
    }

    static method AppendUniqueRef(refs: seq<string>, item: string) returns (r: seq<string>)
      ensures r == AppendUnique(refs, item)
    {
      for i := 0 to |refs|
        invariant item !in refs[..i]
      {
        if refs[i] == item { return refs; }
      }
      return refs + [item];
    }

    /** A newly allocated thread becomes part of the modelled heap. */
    ghost method Adopt(t: EmailThread)
      requires Valid() && t !in threads
      modifies this`threads
      ensures Valid() && threads == old(threads) + {t}
      ensures View() == old(View()).(store := old(View()).store[t := t.Data()])
    {
      threads := threads + {t};
      assert View().store == old(View()).store[t := t.Data()];
    }

    /** createNewThread up to the size check. */
    method FileNewThread(email: Email, now: int) returns (t: EmailThread)
      requires Valid()
      modifies this`threads, this`knownThreads
      ensures fresh(t) && threads == old(threads) + {t}
      ensures Valid() && View() == Created(old(View()), email, t, now)
    {
      ghost var s := View();
      t := NewThread(email, now);
      CreatedWf(s, email, t, now);
      assert View() == s;
      Adopt(t);
      ghost var a := View();
      knownThreads := knownThreads[t.threadID := t];
      assert View() == a.(known := a.known[t.threadID := t]);
    }

    method NewThread(email: Email, now: int) returns (t: EmailThread)
      ensures fresh(t) && t.Data() == NewThreadData(email, now)
    {
      var id := email.messageID;
      if id == "" { id := email.generatedID; }
      t := new EmailThread(ThreadData(id, email.subject, email.messageID, email.inReplyTo, email.references, false,
                                      email.gmailThreadID, now));
    }

    method CreateNewThread(email: Email, now: int) returns (t: EmailThread, ghost victims: set<string>)
      requires Valid()
      modifies this
      ensures fresh(t) && threads == old(threads) + {t}
      ensures Valid() && View() == ThreadState.CreateNewThread(old(View()), email, t, now, victims)
      ensures (CreatedWf(old(View()), email, t, now); LegalEviction(Created(old(View()), email, t, now), victims))
    {
      t := FileNewThread(email, now);
      victims := EnforceCap();
    }

    /** The thread an email belongs to. `resolver` holds what the external resolver would answer. */
    method DetermineThread(receiver: string, email: Email, resolver: map<string, string>, now: int)
      returns (t: EmailThread, ghost victims: set<string>)
      requires Valid()
      modifies this, threads
      ensures Valid() && t in threads && threads == old(threads) + {t} && (t in old(threads) || fresh(t))
      ensures (View(), t) == ThreadState.DetermineThread(old(View()), receiver, email, resolver, t, now, victims)
      ensures (CreatedWf(old(View()), email, t, now);
               DetermineMakes(old(View()), receiver, email, resolver) ==>
                 LegalEviction(Created(old(View()), email, t, now), victims))
    {
      victims := {};
      if email.forwarded {
        t, victims := CreateNewThread(email, now);
        return;
      }
      var resolved := Resolve(email, resolver);
      if resolved.Some? {
        t := JoinResolved(receiver, resolved.value, email, now);
        return;
      }
      t, victims := JoinMatched(receiver, email, now);
    }

    /** Joins the thread the in-memory tables lead to, or starts a new one. */
    method JoinMatched(receiver: string, email: Email, now: int) returns (t: EmailThread, ghost victims: set<string>)
      requires Valid()
      modifies this, threads
      ensures Valid() && t in threads && threads == old(threads) + {t} && (t in old(threads) || fresh(t))
      ensures var m := Match(old(View()), receiver, email);
              if m.Some? then t == m.value && t in old(View()).store && View() == AddTo(old(View()), t, email)
              else && View() == ThreadState.CreateNewThread(old(View()), email, t, now, victims)
                   && (CreatedWf(old(View()), email, t, now);
                       LegalEviction(Created(old(View()), email, t, now), victims))
    {
      victims := {};
      ghost var s := View();
      var hit := FindMatch(receiver, email);
      ghost var m := Match(s, receiver, email);
      if hit == null {
        assert m == None;
        t, victims := CreateNewThread(email, now);
      } else {
        assert m == Some(hit);
        t := hit;
        AddToExistingThread(t, email);
        assert threads == old(threads) + {t};
      }
    }

    /** The two in-memory tables, in the order they are consulted. */
    method FindMatch(receiver: string, email: Email) returns (t: EmailThread?)
      requires Valid()
      ensures (if t == null then None else Some(t)) == Match(View(), receiver, email)
      ensures t != null ==> t in threads
    {
      t := FindParent(email);
      if t == null {
        t := FindByGmailThreadID(receiver, email.gmailThreadID);
      }
      MatchWf(View(), receiver, email);
    }

    /** Joins the thread the resolver named, which is rebuilt bare if the cache has lost it. */
    method JoinResolved(receiver: string, id: string, email: Email, now: int) returns (t: EmailThread)
      requires Valid()
      modifies this, threads
      ensures Valid() && t in threads && threads == old(threads) + {t} && (t in old(threads) || fresh(t))
      ensures (GetWf(old(View()), receiver, id, now);
               var (g, hit) := ThreadState.GetThreadByID(old(View()), receiver, id, now);
               && (hit.Some? ==> t == hit.value && View() == AddTo(g, t, email))
               && (hit == None ==> View() == AddTo(g.(store := g.store[t := BareThread(id, email.subject)]), t, email)))
    {
      var hit := GetThreadByID(receiver, id, now);
      if hit == null {
        ghost var g := View();
        t := new EmailThread(BareThread(id, email.subject));
        assert View() == g;
        Adopt(t);
      } else {
        t := hit;
      }
      AddToExistingThread(t, email);
    }

    /** The resolver is asked about In-Reply-To first, and then about the References from the oldest on. */
    static method Resolve(email: Email, resolver: map<string, string>) returns (r: Option<string>)
      ensures r == Resolved(resolver, Parents(email))
    {
      if email.inReplyTo != "" && email.inReplyTo in resolver && resolver[email.inReplyTo] != "" {
        ParentsTail(email);
        return Some(resolver[email.inReplyTo]);
      }
      ParentsTail(email);
      assert email.references[0..] == email.references;
      for i := 0 to |email.references|
        invariant Resolved(resolver, Parents(email)) == Resolved(resolver, email.references[i..])
      {
        var ref := email.references[i];
        if ref in resolver && resolver[ref] != "" { return Some(resolver[ref]); }
      }
      return None;
    }

    /** The same order over the message index. */
    method FindParent(email: Email) returns (t: EmailThread?)
      requires Valid()
      ensures (if t == null then None else Some(t)) == FirstIndexed(View(), Parents(email))
    {
      if email.inReplyTo != "" {
        t := FindThreadByMessageID(email.inReplyTo);
        if t != null { ParentsTail(email); return; }
      }
      ParentsTail(email);
      assert email.references[0..] == email.references;
      for i := 0 to |email.references|
        invariant FirstIndexed(View(), Parents(email)) == FirstIndexed(View(), email.references[i..])
      {
        t := FindThreadByMessageID(email.references[i]);
        if t != null { return; }
      }
      return null;
    }

    /** How the processor files an inbound email: determine the thread, then cache it for the receiver. */
    method Receive(receiver: string, email: Email, resolver: map<string, string>, now: int)
      returns (t: EmailThread, ghost v1: set<string>, ghost v2: set<string>)
      requires Valid()
      modifies this, threads
      ensures Valid() && t in threads && threads == old(threads) + {t} && (t in old(threads) || fresh(t))
      ensures (View(), t) == ThreadRuns.Receive(old(View()), Inbound(receiver, email, resolver, t, now, v1, v2))
      ensures LegalChoices(World(old(View()), map[]), Inbound(receiver, email, resolver, t, now, v1, v2))
    {
      t, v1 := DetermineThread(receiver, email, resolver, now);
      v2 := CacheThread(receiver, t, now);
    }
  }

  lemma ParentsTail(email: Email)
    ensures if email.inReplyTo == "" then Parents(email) == email.references
            else Parents(email) != [] && Parents(email)[0] == email.inReplyTo && Parents(email)[1..] == email.references
  {
  }

  ghost predicate IsEntry(s: State, e: Entry)
    requires Wf(s)
  {
    e.key in s.known && e.lastAccessed == s.store[s.known[e.key]].lastAccessed
  }

  /** Each cached key once, with the last use of its thread. */
  ghost predicate IsListing(s: State, es: seq<Entry>)
    requires Wf(s)
  {
    && |es| == |s.known|
    && (forall i :: 0 <= i < |es| ==> IsEntry(s, es[i]))
    && (forall i, j :: 0 <= i < j < |es| ==> es[i].key != es[j].key)
  }

  ghost function KeysOf(es: seq<Entry>): set<string> {
    set i | 0 <= i < |es| :: es[i].key
  }

  /** Sorting a listing gives a listing in order of use. */
  lemma SortedListing(s: State, es: seq<Entry>)
    requires Wf(s) && IsListing(s, es)
    ensures IsListing(s, Sorted(es)) && Ordered(Sorted(es))
  {
    SortedIsOrdered(es);
    var r := Sorted(es);
    forall i | 0 <= i < |r| ensures IsEntry(s, r[i]) {
      assert r[i] in multiset(r);
      assert r[i] in es;
    }
    forall i, j | 0 <= i < j < |r| ensures r[i].key != r[j].key {
      if r[i].key == r[j].key {
        assert r[i] == r[j] by { assert IsEntry(s, r[i]) && IsEntry(s, r[j]); }
        Repeats(r, i, j);
        OnceEach(es, r[i]);
      }
    }
  }

  lemma {:induction false} OnceEach(es: seq<Entry>, e: Entry)
    requires forall i, j :: 0 <= i < j < |es| ==> es[i].key != es[j].key
    ensures multiset(es)[e] <= 1
  {
    if es != [] {
      var front, last := es[..|es| - 1], es[|es| - 1];
      assert es == front + [last];
      OnceEach(front, e);
      forall i | 0 <= i < |front| ensures front[i] != last {
        assert es[i].key != es[|es| - 1].key;
      }
    }
  }

  lemma {:induction false} KeysOfSize(es: seq<Entry>)
    requires forall i, j :: 0 <= i < j < |es| ==> es[i].key != es[j].key
    ensures |KeysOf(es)| == |es|
  {
    if es != [] {
      var front, last := es[..|es| - 1], es[|es| - 1];
      KeysOfSize(front);
      assert KeysOf(es) == KeysOf(front) + {last.key};
      assert last.key !in KeysOf(front);
    }
  }

  lemma NextKey(s: State, es: seq<Entry>, n: nat)
    requires Wf(s) && IsListing(s, es) && n < |es|
    ensures es[n].key in s.known && es[n].key !in KeysOf(es[..n])
    ensures KeysOf(es[..n + 1]) == KeysOf(es[..n]) + {es[n].key}
  {
    assert es[..n + 1] == es[..n] + [es[n]];
    assert IsEntry(s, es[n]);
  }

  lemma TakenKey(es: seq<Entry>, count: nat, k: string)
    requires count <= |es|
    ensures k in KeysOf(es[..count]) <==> exists i :: 0 <= i < count && es[i].key == k
  {
    if k in KeysOf(es[..count]) {
      var i :| 0 <= i < |es[..count]| && es[..count][i].key == k;
      assert es[i].key == k;
    }
    forall i | 0 <= i < count && es[i].key == k ensures k in KeysOf(es[..count]) {
      assert es[..count][i].key == k;
    }
  }

  lemma OlderThanKept(s: State, es: seq<Entry>, count: nat, v: string, k: string)
    requires Wf(s) && IsListing(s, es) && Ordered(es) && count <= |es|
    requires v in KeysOf(es[..count]) && k in s.known && k !in KeysOf(es[..count])
    ensures v in s.known && s.store[s.known[v]].lastAccessed <= s.store[s.known[k]].lastAccessed
  {
    TakenKey(es, count, v);
    TakenKey(es, count, k);
    var i :| 0 <= i < count && es[i].key == v;
    ListingIsComplete(s, es);
    assert k in KeysOf(es);
    var j :| 0 <= j < |es| && es[j].key == k;
    assert IsEntry(s, es[i]) && IsEntry(s, es[j]);
    assert es[i].lastAccessed <= es[j].lastAccessed;
  }

  /** The oldest `count` keys of a listing are a legal choice of victims. */
  lemma OldestAreLegal(s: State, es: seq<Entry>, count: nat)
    requires Wf(s) && IsListing(s, es) && Ordered(es) && count <= |es|
    ensures LegalVictims(s, count, KeysOf(es[..count]))
  {
    var victims := KeysOf(es[..count]);
    KeysOfSize(es[..count]);
    forall v | v in victims ensures v in s.known {
      TakenKey(es, count, v);
      var i :| 0 <= i < count && es[i].key == v;
      assert IsEntry(s, es[i]);
    }
    forall v, k | v in victims && k in s.known && k !in victims
      ensures s.store[s.known[v]].lastAccessed <= s.store[s.known[k]].lastAccessed
    {
      OlderThanKept(s, es, count, v, k);
    }
  }

  lemma ListingIsComplete(s: State, es: seq<Entry>)
    requires Wf(s) && IsListing(s, es)
    ensures KeysOf(es) == s.known.Keys
  {
    KeysOfSize(es);
    forall k | k in KeysOf(es) ensures k in s.known.Keys {
      var i :| 0 <= i < |es| && es[i].key == k;
      assert IsEntry(s, es[i]);
    }
    SubsetSize(KeysOf(es), s.known.Keys);
  }

  lemma IndexWf(s: State, receiver: string, t: EmailThread)
    requires Wf(s) && t in s.store
    ensures Wf(IndexThread(s, receiver, t))
  {
  }

  lemma RemoveNothing(s: State)
    requires Wf(s)
    ensures RemoveKeys(s, {}) == s
  {
  }
}
