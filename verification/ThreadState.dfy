/** The thread cache as a value: what the heap of thread objects and the three lookup tables hold, and
    what each operation of the ThreadManager makes of them. Thread objects stay references, because one
    object is stored under several keys and the tables must agree on which object an ID means. */
module ThreadState {
  import opened Wrappers

  /** A conversation thread. Objects are shared between the tables and updated in place. */
  class EmailThread {
    var threadID: string
    var subject: string
    var messageID: string
    var inReplyTo: string
    var references: seq<string>
    var isDraft: bool
    var gmailThreadID: string
    var lastAccessed: int

    constructor (d: ThreadData)
      ensures Data() == d
    {
      threadID, subject, messageID, inReplyTo := d.threadID, d.subject, d.messageID, d.inReplyTo;
      references, isDraft, gmailThreadID, lastAccessed := d.references, d.isDraft, d.gmailThreadID, d.lastAccessed;
    }

    function Data(): ThreadData
      reads this
    {
      ThreadData(threadID, subject, messageID, inReplyTo, references, isDraft, gmailThreadID, lastAccessed)
    }
  }

  /** The contents of one thread object. */
  datatype ThreadData = ThreadData(
    threadID: string,
    subject: string,
    messageID: string,
    inReplyTo: string,
    references: seq<string>,
    isDraft: bool,
    gmailThreadID: string,
    lastAccessed: int)

  /** An inbound email, as far as threading looks at it. `generatedID` is the fallback ID made from
      subject and date, which is never empty. */
  datatype Email = Email(
    messageID: string,
    inReplyTo: string,
    references: seq<string>,
    subject: string,
    gmailThreadID: string,
    forwarded: bool,
    generatedID: string)

  const MAX_CACHED_THREADS: nat := 10000
  const EVICT_COUNT: nat := MAX_CACHED_THREADS / 4
  // Times are nanoseconds.
  const HOUR: int := 3_600_000_000_000
  const THREAD_CACHE_TTL: int := 24 * HOUR

  datatype State = State(
    store: map<EmailThread, ThreadData>,
    known: map<string, EmailThread>,
    index: map<string, EmailThread>,
    gmail: map<string, EmailThread>,
    lastCleanup: int)

  function Ids(d: ThreadData): set<string> {
    {d.threadID, d.messageID} + (set r | r in d.references) - {""}
  }

  function Key(receiver: string, id: string): string {
    receiver + "|" + id
  }

  /** The threads the cache holds under some key. */
  function Live(s: State): set<EmailThread> {
    s.known.Values
  }

  /** The tables mention only threads that exist. */
  ghost predicate Wf(s: State) {
    && Live(s) <= s.store.Keys
    && s.index.Values <= s.store.Keys
    && s.gmail.Values <= s.store.Keys
  }

  // ---- The operations ------------------------------------------------------------------------------

  function AppendUnique(refs: seq<string>, item: string): seq<string> {
    if item in refs then refs else refs + [item]
  }

  function Touch(s: State, t: EmailThread, now: int): State
    requires t in s.store
  {
    s.(store := s.store[t := s.store[t].(lastAccessed := now)])
  }

  /** updateMessageIDIndex: every ID of the thread now means this object. */
  function IndexThread(s: State, receiver: string, t: EmailThread): State
    requires t in s.store
  {
    s.(index := s.index + (map id | id in Ids(s.store[t]) :: t),
       gmail := if s.store[t].gmailThreadID == "" then s.gmail
                else s.gmail[Key(receiver, s.store[t].gmailThreadID) := t])
  }

  /** removeFromMessageIDIndex for every thread of `gone`. */
  function Unindex(s: State, gone: set<EmailThread>): State
    requires gone <= s.store.Keys
  {
    s.(index := map id | id in s.index && (forall t <- gone :: id !in Ids(s.store[t])) :: s.index[id],
       gmail := map k | k in s.gmail && s.gmail[k] !in gone :: s.gmail[k])
  }

  function At(s: State, keys: set<string>): set<EmailThread> {
    set k | k in keys && k in s.known :: s.known[k]
  }

  /** Drops keys from the cache, and de-indexes the threads they led to. */
  function RemoveKeys(s: State, keys: set<string>): State
    requires Wf(s)
  {
    Unindex(s, At(s, keys)).(known := s.known - keys)
  }

  function Expired(s: State, now: int): set<string>
    requires Wf(s)
  {
    set k | k in s.known && s.store[s.known[k]].lastAccessed < now - THREAD_CACHE_TTL
  }

  function Cleanup(s: State, now: int): State
    requires Wf(s)
  {
    if now - s.lastCleanup < HOUR then s
    else RemoveKeys(s.(lastCleanup := now), Expired(s, now))
  }

  /** `victims` is a choice the eviction may make: the right number of keys, none of them used later than
      a key that stays. Go visits a map in an arbitrary order, so ties may fall either way. */
  ghost predicate LegalVictims(s: State, count: nat, victims: set<string>)
    requires Wf(s)
  {
    && victims <= s.known.Keys
    && |victims| == count
    && forall v, k | v in victims && k in s.known && k !in victims ::
         s.store[s.known[v]].lastAccessed <= s.store[s.known[k]].lastAccessed
  }

  ghost predicate LegalEviction(s: State, victims: set<string>)
    requires Wf(s)
  {
    |s.known| > MAX_CACHED_THREADS ==> LegalVictims(s, EVICT_COUNT, victims)
  }

  function Bounded(s: State, victims: set<string>): State
    requires Wf(s)
  {
    if |s.known| > MAX_CACHED_THREADS then RemoveKeys(s, victims) else s
  }

  /** cacheThread, up to the size check. */
  function Filed(s: State, receiver: string, t: EmailThread, now: int): State
    requires t in s.store && s.store[t].threadID != ""
  {
    var touched := Touch(s, t, now);
    IndexThread(touched.(known := s.known[Key(receiver, s.store[t].threadID) := t]), receiver, t)
  }

  function CacheThread(s: State, receiver: string, t: EmailThread, now: int, victims: set<string>): State
    requires Wf(s) && t in s.store
  {
    if s.store[t].threadID == "" then s
    else
      FiledWf(s, receiver, t, now);
      Bounded(Filed(s, receiver, t, now), victims)
  }

  function AddedData(d: ThreadData, email: Email): ThreadData {
    d.(references := if email.messageID == "" then d.references else AppendUnique(d.references, email.messageID),
       gmailThreadID := if email.gmailThreadID == "" then d.gmailThreadID else email.gmailThreadID)
  }

  /** addToExistingThread. */
  function AddTo(s: State, t: EmailThread, email: Email): State
    requires t in s.store
  {
    s.(store := s.store[t := AddedData(s.store[t], email)])
  }

  function NewThreadID(email: Email): string {
    if email.messageID == "" then email.generatedID else email.messageID
  }

  function NewThreadData(email: Email, now: int): ThreadData {
    ThreadData(NewThreadID(email), email.subject, email.messageID, email.inReplyTo, email.references, false,
               email.gmailThreadID, now)
  }

  /** createNewThread, up to the size check: stored under its bare ID, not indexed yet. */
  function Created(s: State, email: Email, spare: EmailThread, now: int): State {
    s.(store := s.store[spare := NewThreadData(email, now)],
       known := s.known[NewThreadID(email) := spare])
  }

  function CreateNewThread(s: State, email: Email, spare: EmailThread, now: int, victims: set<string>): State
    requires Wf(s)
  {
    CreatedWf(s, email, spare, now);
    Bounded(Created(s, email, spare, now), victims)
  }

  function Lookup(s: State, receiver: string, id: string): Option<EmailThread> {
    if Key(receiver, id) in s.known then Some(s.known[Key(receiver, id)])
    else if id in s.known then Some(s.known[id])
    else None
  }

  /** GetThreadByID: clean up, look up under both kinds of key, and mark a hit as used. */
  function GetThreadByID(s: State, receiver: string, id: string, now: int): (State, Option<EmailThread>)
    requires Wf(s)
  {
    CleanupWf(s, now);
    var c := Cleanup(s, now);
    var hit := Lookup(c, receiver, id);
    (if hit.Some? then Touch(c, hit.value, now) else c, hit)
  }

  /** The IDs by which an email can join a thread, in the order they are tried. */
  function Parents(email: Email): seq<string> {
    (if email.inReplyTo == "" then [] else [email.inReplyTo]) + email.references
  }

  /** The external resolver's answer to the first parent it knows; `resolver` holds its non-empty answers. */
  function Resolved(resolver: map<string, string>, ids: seq<string>): Option<string> {
    if ids == [] then None
    else if ids[0] in resolver && resolver[ids[0]] != "" then Some(resolver[ids[0]])
    else Resolved(resolver, ids[1..])
  }

  function FirstIndexed(s: State, ids: seq<string>): Option<EmailThread> {
    if ids == [] then None
    else if ids[0] in s.index then Some(s.index[ids[0]])
    else FirstIndexed(s, ids[1..])
  }

  function ByGmail(s: State, receiver: string, gmailThreadID: string): Option<EmailThread> {
    if gmailThreadID != "" && Key(receiver, gmailThreadID) in s.gmail
    then Some(s.gmail[Key(receiver, gmailThreadID)]) else None
  }

  function BareThread(id: string, subject: string): ThreadData {
    ThreadData(id, subject, "", "", [], false, "", 0)
  }

  /** Which cached thread an email joins through the in-memory tables, if any. */
  function Match(s: State, receiver: string, email: Email): Option<EmailThread> {
    var m := FirstIndexed(s, Parents(email));
    if m.Some? then m else ByGmail(s, receiver, email.gmailThreadID)
  }

  function DetermineThread(s: State, receiver: string, email: Email, resolver: map<string, string>,
                           spare: EmailThread, now: int, victims: set<string>): (State, EmailThread)
    requires Wf(s)
  {
    if email.forwarded then (CreateNewThread(s, email, spare, now, victims), spare)
    else
      var tid := Resolved(resolver, Parents(email));
      if tid.Some? then
        GetWf(s, receiver, tid.value, now);
        var (g, hit) := GetThreadByID(s, receiver, tid.value, now);
        if hit.Some? then (AddTo(g, hit.value, email), hit.value)
        else (AddTo(g.(store := g.store[spare := BareThread(tid.value, email.subject)]), spare, email), spare)
      else
        MatchWf(s, receiver, email);
        var m := Match(s, receiver, email);
        if m.Some? then (AddTo(s, m.value, email), m.value)
        else (CreateNewThread(s, email, spare, now, victims), spare)
  }

  // ---- The operations keep to existing threads -------------------------------------------------------

  lemma FiledWf(s: State, receiver: string, t: EmailThread, now: int)
    requires Wf(s) && t in s.store && s.store[t].threadID != ""
    ensures Wf(Filed(s, receiver, t, now))
    ensures Filed(s, receiver, t, now).store.Keys == s.store.Keys
  {
  }

  lemma CreatedWf(s: State, email: Email, spare: EmailThread, now: int)
    requires Wf(s)
    ensures Wf(Created(s, email, spare, now))
  {
  }

  lemma RemoveKeysWf(s: State, keys: set<string>)
    requires Wf(s)
    ensures Wf(RemoveKeys(s, keys))
    ensures RemoveKeys(s, keys).store == s.store
    ensures forall t :: t in Live(RemoveKeys(s, keys)) ==> t in Live(s)
  {
    var r := RemoveKeys(s, keys);
    forall t | t in Live(r) ensures t in Live(s) {
      var k :| k in r.known && r.known[k] == t;
      assert k in s.known && s.known[k] == t;
    }
    forall t | t in r.index.Values ensures t in s.store {
      var id :| id in r.index && r.index[id] == t;
      assert id in s.index && s.index[id] == t;
    }
    forall t | t in r.gmail.Values ensures t in s.store {
      var k :| k in r.gmail && r.gmail[k] == t;
      assert k in s.gmail && s.gmail[k] == t;
    }
  }

  lemma CleanupWf(s: State, now: int)
    requires Wf(s)
    ensures Wf(Cleanup(s, now))
    ensures Cleanup(s, now).store == s.store
    ensures forall t :: t in Live(Cleanup(s, now)) ==> t in Live(s)
  {
    if now - s.lastCleanup >= HOUR {
      RemoveKeysWf(s.(lastCleanup := now), Expired(s, now));
    }
  }

  lemma BoundedWf(s: State, victims: set<string>)
    requires Wf(s)
    ensures Wf(Bounded(s, victims))
    ensures Bounded(s, victims).store == s.store
  {
    RemoveKeysWf(s, victims);
  }

  lemma GetWf(s: State, receiver: string, id: string, now: int)
    requires Wf(s)
    ensures var (g, hit) := GetThreadByID(s, receiver, id, now);
            Wf(g) && g.store.Keys == s.store.Keys && (hit.Some? ==> hit.value in g.store && hit.value in Live(g))
  {
    CleanupWf(s, now);
    var c := Cleanup(s, now);
    var hit := Lookup(c, receiver, id);
    if hit.Some? {
      var k :| k in c.known && c.known[k] == hit.value;
      assert hit.value in Live(c);
    }
  }

  lemma {:induction false} FirstIndexedWf(s: State, ids: seq<string>)
    requires Wf(s)
    ensures FirstIndexed(s, ids).Some? ==> FirstIndexed(s, ids).value in s.store
  {
    if ids != [] {
      if ids[0] in s.index { assert s.index[ids[0]] in s.index.Values; }
      FirstIndexedWf(s, ids[1..]);
    }
  }

  lemma MatchWf(s: State, receiver: string, email: Email)
    requires Wf(s)
    ensures Match(s, receiver, email).Some? ==> Match(s, receiver, email).value in s.store
  {
    FirstIndexedWf(s, Parents(email));
    if ByGmail(s, receiver, email.gmailThreadID).Some? {
      assert s.gmail[Key(receiver, email.gmailThreadID)] in s.gmail.Values;
    }
  }

  lemma DetermineWf(s: State, receiver: string, email: Email, resolver: map<string, string>,
                    spare: EmailThread, now: int, victims: set<string>)
    requires Wf(s)
    ensures var (d, t) := DetermineThread(s, receiver, email, resolver, spare, now, victims);
            Wf(d) && t in d.store && s.store.Keys <= d.store.Keys <= s.store.Keys + {spare}
  {
    CreatedWf(s, email, spare, now);
    BoundedWf(Created(s, email, spare, now), victims);
    MatchWf(s, receiver, email);
    var tid := Resolved(resolver, Parents(email));
    if tid.Some? { GetWf(s, receiver, tid.value, now); }
  }
}
