/** Runs in which a size eviction must split a thread. A composed thread is cached under one key, and each mail
    that starts a thread adds two; an eviction takes an even number of keys, the oldest ones. */
module ThreadPairs {
  import opened Wrappers
  import opened ThreadState
  import opened ThreadRuns
  import opened ThreadExact
  import opened ThreadKeys
  import opened ThreadSplits

  // ---- An even number of keys cannot be whole threads --------------------------------------------------

  /** The ID of the thread a key leads to. */
  function Named(s: State, k: string): string
    requires Wf(s) && k in s.known
  {
    assert s.known[k] in s.known.Values;
    s.store[s.known[k]].threadID
  }

  /** The other key of a thread with two keys. */
  function Twin(s: State, receiver: string, k: string): string
    requires Wf(s) && k in s.known
  {
    if k == Named(s, k) then Key(receiver, k) else Named(s, k)
  }

  /** Key `k` and its twin are two keys of one thread. */
  predicate HasTwin(s: State, receiver: string, k: string)
    requires Wf(s) && k in s.known
  {
    && (k == Named(s, k) || k == Key(receiver, Named(s, k)))
    && Twin(s, receiver, k) in s.known && s.known[Twin(s, receiver, k)] == s.known[k]
  }

  /** All keys come in twins but `first`, which is older than all others. */
  ghost predicate Paired(s: State, receiver: string, first: string)
    requires Wf(s)
  {
    && first in s.known
    && forall k :: k in s.known && k != first ==> HasTwin(s, receiver, k) && LastUse(s, first) < LastUse(s, k)
  }

  lemma TwinOfTwin(s: State, receiver: string, k: string)
    requires Wf(s) && k in s.known && HasTwin(s, receiver, k)
    ensures Twin(s, receiver, k) != k && Twin(s, receiver, Twin(s, receiver, k)) == k
  {
    var id := Named(s, k);
    assert |Key(receiver, id)| > |id|;
  }

  /** A set that a pairing without fixed points maps into itself has an even number of elements. */
  lemma {:induction false} PairsAreEven(twin: map<string, string>, keys: set<string>)
    requires keys <= twin.Keys && forall k :: k in keys ==> twin[k] in keys && twin[k] != k && twin[twin[k]] == k
    ensures |keys| % 2 == 0
    decreases |keys|
  {
    if keys != {} {
      var k :| k in keys;
      var rest := keys - {k} - {twin[k]};
      assert |rest| == |keys| - 2;
      PairsAreEven(twin, rest);
    }
  }

  lemma FirstGoes(s: State, receiver: string, first: string, count: nat, victims: set<string>)
    requires Wf(s) && Paired(s, receiver, first) && LegalVictims(s, count, victims) && count > 0
    ensures first in victims
  {
    if first !in victims {
      assert |victims| > 0;
      var v :| v in victims;
      TakenIsNotYounger(s, count, victims, v, first);
    }
  }

  lemma TwinGoes(s: State, receiver: string, first: string, keys: set<string>, k: string)
    requires Wf(s) && Paired(s, receiver, first) && keys <= s.known.Keys && WholeThreads(s, keys)
    requires k in keys && k != first
    ensures Twin(s, receiver, k) in keys && Twin(s, receiver, k) != k && Twin(s, receiver, k) != first
    ensures Twin(s, receiver, Twin(s, receiver, k)) == k
  {
    assert HasTwin(s, receiver, k);
    TwinOfTwin(s, receiver, k);
    assert LastUse(s, Twin(s, receiver, k)) == LastUse(s, k);
  }

  lemma OthersAreEven(s: State, receiver: string, first: string, keys: set<string>)
    requires Wf(s) && Paired(s, receiver, first) && keys <= s.known.Keys && WholeThreads(s, keys)
    ensures |keys - {first}| % 2 == 0
  {
    var others := keys - {first};
    var twin := map k | k in others :: Twin(s, receiver, k);
    forall k | k in others ensures twin[k] in others && twin[k] != k && twin[twin[k]] == k {
      TwinGoes(s, receiver, first, keys, k);
    }
    PairsAreEven(twin, others);
  }

  /** So an even number of oldest keys splits a thread, whichever they are. */
  lemma EvenSplits(s: State, receiver: string, first: string, count: nat, victims: set<string>)
    requires Wf(s) && Paired(s, receiver, first) && LegalVictims(s, count, victims) && count > 0 && count % 2 == 0
    ensures !WholeThreads(s, victims)
  {
    if WholeThreads(s, victims) {
      FirstGoes(s, receiver, first, count, victims);
      OthersAreEven(s, receiver, first, victims);
      OddCount(victims, first);
    }
  }

  lemma OddCount(keys: set<string>, k: string)
    requires k in keys && |keys - {k}| % 2 == 0
    ensures |keys| % 2 == 1
  {
  }

  /** There is always something to evict. */
  lemma AnyCount(s: State, count: nat) returns (victims: set<string>)
    requires Wf(s) && count <= |s.known|
    ensures LegalVictims(s, count, victims)
  {
    victims := {};
    if count > 0 {
      var fewer := AnyCount(s, count - 1);
      if s.known.Keys - fewer == {} { SubsetSize(s.known.Keys, fewer); }
      var k := Oldest(s, s.known.Keys - fewer);
      OneMoreGoes(s, count, fewer, k);
      victims := fewer + {k};
    }
  }

  lemma OneMoreGoes(s: State, count: nat, fewer: set<string>, k: string)
    requires Wf(s) && count > 0 && LegalVictims(s, count - 1, fewer) && k in s.known.Keys - fewer
    requires forall j :: j in s.known.Keys - fewer ==> LastUse(s, k) <= LastUse(s, j)
    ensures LegalVictims(s, count, fewer + {k})
  {
    forall v, x | v in fewer + {k} && x in s.known && x !in fewer + {k}
      ensures s.store[s.known[v]].lastAccessed <= s.store[s.known[x]].lastAccessed {
      if v in fewer {
        TakenIsNotYounger(s, count - 1, fewer, v, x);
      } else {
        assert x in s.known.Keys - fewer;
      }
    }
  }

  lemma Oldest(s: State, keys: set<string>) returns (k: string)
    requires Wf(s) && keys != {} && keys <= s.known.Keys
    ensures k in keys && forall j :: j in keys ==> LastUse(s, k) <= LastUse(s, j)
    decreases |keys|
  {
    k :| k in keys;
    if keys != {k} {
      assert keys - {k} != {};
      var other := Oldest(s, keys - {k});
      if LastUse(s, other) < LastUse(s, k) { k := other; }
    }
  }

  // ---- Mails that start threads ------------------------------------------------------------------------

  /** A mail that answers nothing, with an ID that is not among the `used` ones. */
  predicate Starts(e: Event, receiver: string, used: set<string>) {
    && e.Inbound? && e.receiver == receiver
    && !e.email.forwarded && Parents(e.email) == [] && e.email.gmailThreadID == ""
    && e.email.messageID != "" && '|' !in e.email.messageID && e.email.messageID !in used
  }

  /** Every key is the ID of its thread, which has no bar in it, alone or behind the receiver. */
  predicate Plain(s: State, receiver: string)
    requires Wf(s)
  {
    forall k :: k in s.known ==> '|' !in Named(s, k) && (k == Named(s, k) || k == Key(receiver, Named(s, k)))
  }

  /** After a compose at time `start`, which made the key `first`, and some such mails, all later. */
  ghost predicate Stage(s: State, receiver: string, first: string, used: set<string>, start: int) {
    && Exact(s) && Plain(s, receiver) && Paired(s, receiver, first) && LastUse(s, first) == start
    && s.index.Keys == used
  }

  /** The cache when the mail's thread is filed, before the size is checked. */
  function Started(s: State, e: Event): State
    requires e.Inbound? && NewThreadID(e.email) != ""
  {
    Filed(Created(s, e.email, e.spare, e.now), e.receiver, e.spare, e.now)
  }

  lemma StartFiles(s: State, e: Event, used: set<string>)
    requires Wf(s) && Starts(e, e.receiver, used) && |s.known| < MAX_CACHED_THREADS
    ensures Wf(Started(s, e)) && Receive(s, e).0 == Bounded(Started(s, e), e.v2)
  {
    assert DetermineMakes(s, e.receiver, e.email, e.resolver);
    MakesCreates(s, e.receiver, e.email, e.resolver, e.spare, e.now, e.v1);
    CreatedWf(s, e.email, e.spare, e.now);
    var c := Created(s, e.email, e.spare, e.now);
    assert |c.known| <= |s.known| + 1;
    FiledWf(c, e.receiver, e.spare, e.now);
  }

  /** A key made of a new ID is new. */
  lemma KeyIsNew(s: State, receiver: string, id: string, k: string)
    requires Exact(s) && Plain(s, receiver) && '|' !in id && id !in s.index && k in {Key(receiver, id), id}
    ensures k !in s.known
  {
    if k in s.known {
      assert s.known[k] in Live(s) && Named(s, k) in Ids(s.store[s.known[k]]) && Named(s, k) != id;
      KeyDetermines(receiver, id, receiver, Named(s, k));
      KeyDetermines(receiver, Named(s, k), receiver, id);
    }
  }

  lemma StartIsFree(s: State, receiver: string, id: string, spare: EmailThread, d: ThreadData, keys: set<string>)
    requires Exact(s) && Plain(s, receiver) && '|' !in id && id !in s.index && id != ""
    requires keys == {Key(receiver, id), id} && d.threadID == id && Ids(d) == {id}
    ensures keys !! s.known.Keys && Free(s, spare, keys, d)
  {
    forall k | k in keys ensures k !in s.known { KeyIsNew(s, receiver, id, k); }
  }

  lemma StartPlaces(s: State, e: Event, used: set<string>)
    requires Wf(s) && Starts(e, e.receiver, used)
    ensures var id := e.email.messageID;
            Placed(s, Started(s, e), e.spare, NewThreadData(e.email, e.now), {Key(e.receiver, id), id})
  {
    CreatedPlaces(s, e.receiver, e.email, e.spare, e.now);
  }

  lemma PlacedNames(s: State, p: State, t: EmailThread, d: ThreadData, keys: set<string>, k: string)
    requires Wf(s) && Wf(p) && t !in s.store && Placed(s, p, t, d, keys) && k in p.known
    ensures Named(p, k) == if k in keys then d.threadID else Named(s, k)
  {
    if k !in keys { assert s.known[k] in Live(s); }
  }

  /** Two new keys for a new thread. */
  lemma PlacedPlain(s: State, p: State, receiver: string, t: EmailThread, d: ThreadData, keys: set<string>)
    requires Wf(s) && Wf(p) && Plain(s, receiver) && t !in s.store && Placed(s, p, t, d, keys)
    requires keys <= {d.threadID, Key(receiver, d.threadID)} && '|' !in d.threadID
    ensures Plain(p, receiver)
  {
    forall k | k in p.known
      ensures '|' !in Named(p, k) && (k == Named(p, k) || k == Key(receiver, Named(p, k))) {
      PlacedNames(s, p, t, d, keys, k);
    }
  }

  lemma StillTwin(s: State, p: State, receiver: string, t: EmailThread, d: ThreadData, keys: set<string>, k: string)
    requires Wf(s) && Wf(p) && t !in s.store && Placed(s, p, t, d, keys) && keys !! s.known.Keys
    requires k in s.known
    ensures k in p.known && LastUse(p, k) == LastUse(s, k)
    ensures HasTwin(s, receiver, k) ==> HasTwin(p, receiver, k)
  {
    assert s.known[k] in Live(s) && Named(p, k) == Named(s, k);
  }

  lemma NewTwin(s: State, p: State, receiver: string, t: EmailThread, d: ThreadData, keys: set<string>, k: string)
    requires Wf(s) && Wf(p) && Placed(s, p, t, d, keys) && keys == {Key(receiver, d.threadID), d.threadID} && k in keys
    ensures k in p.known && HasTwin(p, receiver, k) && LastUse(p, k) == d.lastAccessed
  {
    assert |Key(receiver, d.threadID)| > |d.threadID|;
    assert Named(p, k) == d.threadID;
  }

  lemma PlacedPaired(s: State, p: State, receiver: string, first: string, t: EmailThread, d: ThreadData,
                     keys: set<string>)
    requires Wf(s) && Wf(p) && Paired(s, receiver, first) && t !in s.store && Placed(s, p, t, d, keys)
    requires keys == {Key(receiver, d.threadID), d.threadID} && keys !! s.known.Keys
    requires LastUse(s, first) < d.lastAccessed
    ensures Paired(p, receiver, first) && LastUse(p, first) == LastUse(s, first)
    ensures |p.known| == |s.known| + 2
  {
    StillTwin(s, p, receiver, t, d, keys, first);
    forall k | k in p.known && k != first ensures HasTwin(p, receiver, k) && LastUse(p, first) < LastUse(p, k) {
      if k in keys { NewTwin(s, p, receiver, t, d, keys, k); } else { StillTwin(s, p, receiver, t, d, keys, k); }
    }
    assert |Key(receiver, d.threadID)| > |d.threadID|;
    assert |p.known.Keys| == |s.known.Keys| + |keys|;
  }

  /** A mail takes the cache to the next stage, before the size is checked. */
  lemma StartStages(s: State, e: Event, first: string, used: set<string>, start: int)
    requires Stage(s, e.receiver, first, used, start) && e.Inbound? && Starts(e, e.receiver, used)
    requires e.spare !in s.store && e.now > start
    ensures var p := Started(s, e);
            Stage(p, e.receiver, first, used + {e.email.messageID}, start) && |p.known| == |s.known| + 2
  {
    var id, d, p := e.email.messageID, NewThreadData(e.email, e.now), Started(s, e);
    var keys := {Key(e.receiver, id), id};
    assert Ids(d) == {id};
    StartIsFree(s, e.receiver, id, e.spare, d, keys);
    StartPlaces(s, e, used);
    PlaceExact(s, p, e.spare, d, keys);
    PlacedPlain(s, p, e.receiver, e.spare, d, keys);
    PlacedPaired(s, p, e.receiver, first, e.spare, d, keys);
  }

  /** A compose into an empty cache. */
  lemma FirstStages(s: State, p: State, receiver: string, t: EmailThread, d: ThreadData, first: string)
    requires Wf(s) && s.store == map[] && s.known == map[] && s.index == map[]
    requires Exact(p) && Placed(s, p, t, d, {first}) && first == Key(receiver, d.threadID)
    requires Ids(d) == {d.threadID} && '|' !in d.threadID
    ensures Stage(p, receiver, first, {d.threadID}, d.lastAccessed) && |p.known| == 1
  {
    PlacedPlain(s, p, receiver, t, d, {first});
    assert p.known.Keys == {first};
    assert |p.known| == |p.known.Keys|;
  }

  lemma ComposePlaces(s: State, receiver: string, t: EmailThread, d: ThreadData, now: int, v1: set<string>)
    requires Exact(s) && t !in s.store && d.threadID != "" && Free(s, t, {Key(receiver, d.threadID)}, d)
    requires |s.known| < MAX_CACHED_THREADS
    ensures var p := Install(s, receiver, t, d, now, v1);
            Exact(p) && Placed(s, p, t, d.(lastAccessed := now), {Key(receiver, d.threadID)})
  {
    UpdateExact(s, receiver, t, d, now, v1);
    BelowCap(s.(store := s.store[t := d]), receiver, t, now, v1);
    FiledPlaces(s, receiver, t, d, now);
  }

  lemma ComposeStages(time: int, e: Event)
    requires e.Compose? && e.id != "" && '|' !in e.id
    ensures Wf(Empty(time).tm) && Legal(Empty(time), e)
    ensures Stage(Step(Empty(time), e).tm, e.receiver, Key(e.receiver, e.id), {e.id}, e.now)
    ensures |Step(Empty(time), e).tm.known| == 1
  {
    var s, d := Empty(time).tm, DraftData(e.id, e.subject);
    assert Ids(d) == {e.id} == Ids(d.(lastAccessed := e.now));
    ComposePlaces(s, e.receiver, e.spare, d, e.now, e.v1);
    FirstStages(s, Step(Empty(time), e).tm, e.receiver, e.spare, d.(lastAccessed := e.now), Key(e.receiver, e.id));
  }

  // ---- Runs ----------------------------------------------------------------------------------------------

  /** Each mail of the run starts a thread, the IDs are distinct, and all come after `start`. */
  predicate AllStart(es: seq<Event>, receiver: string, used: set<string>, start: int)
    decreases |es|
  {
    es == [] ||
    (Starts(es[0], receiver, used) && es[0].now > start
     && AllStart(es[1..], receiver, used + {es[0].email.messageID}, start))
  }

  lemma MailStages(w: World, e: Event, first: string, used: set<string>, start: int)
    requires e.Inbound? && Stage(w.tm, e.receiver, first, used, start) && Starts(e, e.receiver, used)
    requires Legal(w, e) && e.now > start && |w.tm.known| + 2 <= MAX_CACHED_THREADS
    ensures Stage(Step(w, e).tm, e.receiver, first, used + {e.email.messageID}, start)
    ensures |Step(w, e).tm.known| == |w.tm.known| + 2
  {
    StartFiles(w.tm, e, used);
    StartStages(w.tm, e, first, used, start);
  }

  /** What the eviction after the last mail takes and leaves. */
  lemma FullBreaks(p: State, receiver: string, first: string, victims: set<string>)
    requires Exact(p) && Paired(p, receiver, first) && |p.known| > MAX_CACHED_THREADS
    requires LegalVictims(p, EVICT_COUNT, victims)
    ensures !Exact(Bounded(p, victims))
  {
    EvenSplits(p, receiver, first, EVICT_COUNT, victims);
    RemovalExact(p, victims);
  }

  lemma LegalFilings(w: World, e: Event, used: set<string>)
    requires Wf(w.tm) && LegalChoices(w, e) && e.Inbound? && Starts(e, e.receiver, used)
    requires |w.tm.known| < MAX_CACHED_THREADS
    ensures Wf(Started(w.tm, e)) && LegalEviction(Started(w.tm, e), e.v2)
  {
    StartFiles(w.tm, e, used);
    MakesCreates(w.tm, e.receiver, e.email, e.resolver, e.spare, e.now, e.v1);
    assert |Created(w.tm, e.email, e.spare, e.now).known| <= |w.tm.known| + 1;
  }

  lemma LastMailBreaks(w: World, e: Event, first: string, used: set<string>, start: int)
    requires e.Inbound? && Stage(w.tm, e.receiver, first, used, start) && Starts(e, e.receiver, used)
    requires Legal(w, e) && e.now > start && |w.tm.known| + 1 == MAX_CACHED_THREADS && LegalChoices(w, e)
    ensures !Exact(Step(w, e).tm)
  {
    LegalFilings(w, e, used);
    StartFiles(w.tm, e, used);
    StartStages(w.tm, e, first, used, start);
    FullBreaks(Started(w.tm, e), e.receiver, first, e.v2);
  }

  lemma FirstAndRest(w: World, es: seq<Event>)
    requires Wf(w.tm) && es != []
    ensures Wf(Step(w, es[0]).tm) && Run(w, es) == Run(Step(w, es[0]), es[1..])
    ensures |es| == 1 ==> Run(w, es) == Step(w, es[0]) && Run(w, es[..|es| - 1]) == w
    ensures |es| > 1 ==> Run(w, es[..|es| - 1]) == Run(Step(w, es[0]), es[1..][..|es[1..]| - 1])
  {
    StepWf(w, es[0]);
    if |es| > 1 { assert es[..|es| - 1][1..] == es[1..][..|es| - 2]; }
  }

  lemma {:induction false} MailsBreak(w: World, es: seq<Event>, receiver: string, first: string, used: set<string>,
                                      start: int)
    requires Stage(w.tm, receiver, first, used, start) && LegalRun(w, es) && LegalChoicesRun(w, es)
    requires AllStart(es, receiver, used, start) && |w.tm.known| + 2 * |es| == MAX_CACHED_THREADS + 1 && es != []
    ensures Exact(Run(w, es[..|es| - 1]).tm) && !Exact(Run(w, es).tm)
    decreases |es|
  {
    FirstAndRest(w, es);
    if |es| == 1 {
      LastMailBreaks(w, es[0], first, used, start);
    } else {
      MailStages(w, es[0], first, used, start);
      MailsBreak(Step(w, es[0]), es[1..], receiver, first, used + {es[0].email.messageID}, start);
    }
  }

  /** A compose and mails that start threads, up to the first that exceeds the maximum: the index is exact until
      then, and the eviction of that mail breaks it, whichever legal keys it takes. */
  lemma EvictionMustBreak(time: int, compose: Event, mails: seq<Event>)
    requires compose.Compose? && compose.id != "" && '|' !in compose.id
    requires AllStart(mails, compose.receiver, {compose.id}, compose.now) && 2 * |mails| == MAX_CACHED_THREADS
    requires Wf(Empty(time).tm) && LegalRun(Empty(time), [compose] + mails)
    requires LegalChoicesRun(Empty(time), [compose] + mails)
    ensures Exact(Run(Empty(time), [compose] + mails[..|mails| - 1]).tm)
    ensures !Exact(Run(Empty(time), [compose] + mails).tm)
  {
    var w := Empty(time);
    ComposeStages(time, compose);
    assert ([compose] + mails)[1..] == mails;
    assert ([compose] + mails[..|mails| - 1])[1..] == mails[..|mails| - 1];
    MailsBreak(Step(w, compose), mails, compose.receiver, Key(compose.receiver, compose.id), {compose.id}, compose.now);
  }
}
