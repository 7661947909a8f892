/** Any sequence of primes and syncs, one after the other, against a mailbox that changes at any time. */
module ImapRuns {
  import opened Wrappers
  import opened ImapServer
  import opened ImapSync

  // ---- Runs ------------------------------------------------------------------------------------------

  /** `attempts` lists every message the client has tried to process, in order. */
  datatype World = World(last: uid, mailbox: Mailbox, attempts: seq<Attempt>)

  datatype Event =
    | Change(mailbox: Mailbox)
    | Sync(status: Option<uid>, search: Option<seq<uid>>, works: uid -> bool)
    | Prime(status: Option<uid>, backfill: Backfill, during: Mailbox, search: Option<seq<uid>>, works: uid -> bool)

  predicate Legal(w: World, e: Event) {
    match e
    case Change(mailbox) => Grown(w.mailbox, mailbox)
    case Sync(status, search, works) =>
      && (status.Some? ==> status.value == w.mailbox.uidNext)
      && (search.Some? ==> AnswersSearch(w.mailbox, After(w.last), search.value))
    case Prime(status, backfill, during, search, works) =>
      && (status.Some? ==> status.value == w.mailbox.uidNext)
      && Grown(w.mailbox, during)
      && (status.Some? && search.Some? ==> AnswersSince(during, After(Before(status.value)), search.value))
  }

  function Done(w: World, e: Event): Outcome {
    match e
    case Change(_) => Outcome(w.last, [], true)
    case Sync(status, search, works) => Synced(w.last, {}, status, search, works)
    case Prime(status, backfill, during, search, works) => Primed(w.last, status, backfill, search, works)
  }

  function Step(w: World, e: Event): World {
    var o := Done(w, e);
    var mailbox := match e case Change(m) => m case Sync(_, _, _) => w.mailbox case Prime(_, _, m, _, _) => m;
    World(o.last, mailbox, w.attempts + o.attempts)
  }

  function Run(w: World, es: seq<Event>): World
    decreases |es|
  {
    if es == [] then w else Run(Step(w, es[0]), es[1..])
  }

  predicate LegalRun(w: World, es: seq<Event>)
    decreases |es|
  {
    es == [] || (Legal(w, es[0]) && LegalRun(Step(w, es[0]), es[1..]))
  }

  // ---- What one event does ---------------------------------------------------------------------------

  lemma {:induction false} ProcessedIs(uids: seq<uid>, works: uid -> bool)
    ensures var p := Processed(uids, {}, works);
            |p| == |uids| && forall i :: 0 <= i < |p| ==> p[i] == Attempt(uids[i], works(uids[i]))
  {
    if uids != [] { ProcessedIs(uids[..|uids| - 1], works); }
  }

  lemma {:induction false} HighestDoneIs(base: uid, attempts: seq<Attempt>)
    ensures var h := HighestDone(base, attempts);
            && (forall a :: a in attempts && a.ok ==> a.uid <= h)
            && (h == base || exists a :: a in attempts && a.ok && a.uid == h)
  {
    if attempts != [] {
      var front, last := attempts[..|attempts| - 1], attempts[|attempts| - 1];
      assert attempts == front + [last];
      HighestDoneIs(base, front);
    }
  }

  predicate NoUidTwice(attempts: seq<Attempt>) {
    forall i, j :: 0 <= i < j < |attempts| ==> attempts[i].uid != attempts[j].uid
  }

  predicate Attempted(attempts: seq<Attempt>, u: uid) {
    exists i :: 0 <= i < |attempts| && attempts[i].uid == u
  }

  /** What is processed: each new message that was found, once. */
  lemma ProcessedOnce(found: seq<uid>, last: uid, works: uid -> bool)
    requires NoRepeats(found)
    ensures var p := Processed(Newer(found, last), {}, works);
            NoUidTwice(p) && forall u: uid :: Attempted(p, u) <==> u in found && u > last
  {
    var todo := Newer(found, last);
    var p := Processed(todo, {}, works);
    NewerIs(found, last);
    ProcessedIs(todo, works);
    forall u: uid ensures Attempted(p, u) <==> u in todo {
      if u in todo {
        var i :| 0 <= i < |todo| && todo[i] == u;
        assert p[i].uid == u;
      }
    }
  }

  lemma LastFewOfDistinct(found: seq<uid>, max: int)
    requires NoRepeats(found)
    ensures NoRepeats(LastFew(found, max)) && forall u :: u in LastFew(found, max) ==> u in found
  {
  }

  /** The window an event's attempts lie in: above the old mark, inside the mailbox, and when they succeeded
      not above the new mark. */
  predicate Advances(w: World, e: Event) {
    var o := Done(w, e);
    && w.last <= o.last < Step(w, e).mailbox.uidNext
    && NoUidTwice(o.attempts)
    && forall i :: 0 <= i < |o.attempts| ==>
         w.last < o.attempts[i].uid && (o.attempts[i].ok ==> o.attempts[i].uid <= o.last)
  }

  lemma SyncAdvances(w: World, e: Event)
    requires SoundMailbox(w.mailbox) && w.last < w.mailbox.uidNext && e.Sync? && Legal(w, e)
    ensures Advances(w, e)
  {
    if w.last > 0 && e.search.Some? {
      var found := e.search.value;
      var todo := Newer(found, w.last);
      NewerIs(found, w.last);
      ProcessedIs(todo, e.works);
      if todo != [] { HighestIs(todo); }
      var o := Done(w, e);
      forall i | 0 <= i < |o.attempts| ensures w.last < o.attempts[i].uid <= o.last {
        assert todo[i] in todo;
      }
    }
  }

  lemma BackfillAdvances(during: Mailbox, base: uid, found: seq<uid>, works: uid -> bool)
    requires SoundMailbox(during) && base < during.uidNext && NoRepeats(found)
    requires forall u :: u in found ==> u in during.present
    ensures var p := Processed(Newer(found, base), {}, works);
            && NoUidTwice(p) && base <= HighestDone(base, p) < during.uidNext
            && forall i :: 0 <= i < |p| ==> base < p[i].uid && (p[i].ok ==> p[i].uid <= HighestDone(base, p))
  {
    var todo := Newer(found, base);
    var p := Processed(todo, {}, works);
    NewerIs(found, base);
    ProcessedIs(todo, works);
    forall i | 0 <= i < |p| ensures base < p[i].uid < during.uidNext && p[i] in p {
      assert todo[i] in todo;
    }
    HighestDoneIs(base, p);
  }

  lemma PrimeAdvances(w: World, e: Event)
    requires SoundMailbox(w.mailbox) && w.last < w.mailbox.uidNext && e.Prime? && Legal(w, e)
    ensures Advances(w, e)
    ensures e.status.Some? ==>
              && Done(w, e).last >= w.mailbox.uidNext - 1
              && forall i :: 0 <= i < |Done(w, e).attempts| ==> Done(w, e).attempts[i].uid >= w.mailbox.uidNext
  {
    if e.status.Some? && e.search.Some? {
      var few := LastFew(e.search.value, e.backfill.max);
      LastFewOfDistinct(e.search.value, e.backfill.max);
      BackfillAdvances(e.during, Before(e.status.value), few, e.works);
    }
  }

  // ---- Every run -------------------------------------------------------------------------------------

  predicate NoSuccessTwice(attempts: seq<Attempt>) {
    forall i, j :: 0 <= i < j < |attempts| && attempts[i].ok && attempts[j].ok ==> attempts[i].uid != attempts[j].uid
  }

  predicate SoundWorld(w: World) {
    && SoundMailbox(w.mailbox) && w.last < w.mailbox.uidNext
    && NoSuccessTwice(w.attempts)
    && forall i :: 0 <= i < |w.attempts| && w.attempts[i].ok ==> w.attempts[i].uid <= w.last
  }

  lemma StepSound(w: World, e: Event)
    requires SoundWorld(w) && Legal(w, e)
    ensures SoundWorld(Step(w, e)) && Advances(w, e)
  {
    if e.Sync? { SyncAdvances(w, e); } else if e.Prime? { PrimeAdvances(w, e); }
  }

  /** In every run the mark never goes down, no message is forwarded twice, and nothing at or below the old
      mark is ever tried again. */
  lemma {:induction false} NeverForwardedTwice(w: World, es: seq<Event>)
    requires SoundWorld(w) && LegalRun(w, es)
    ensures var end := Run(w, es);
            && SoundWorld(end) && w.last <= end.last
            && w.attempts <= end.attempts
            && forall i :: |w.attempts| <= i < |end.attempts| ==> w.last < end.attempts[i].uid
    decreases |es|
  {
    if es != [] {
      StepSound(w, es[0]);
      NeverForwardedTwice(Step(w, es[0]), es[1..]);
    }
  }

  /** The messages tried since `w`. */
  function Since(w: World, end: World): seq<Attempt>
    requires w.attempts <= end.attempts
  {
    end.attempts[|w.attempts|..]
  }

  // ---- Between two primes ----------------------------------------------------------------------------

  /** A sync tries exactly the messages above the mark, each once, and leaves none above it. */
  lemma SyncTakesAllNew(w: World, e: Event)
    requires SoundWorld(w) && w.last > 0 && e.Sync? && e.search.Some? && Legal(w, e)
    ensures NoUidTwice(Done(w, e).attempts)
    ensures forall u: uid :: Attempted(Done(w, e).attempts, u) <==> u in w.mailbox.present && u > w.last
    ensures forall u :: u in w.mailbox.present ==> u <= Done(w, e).last
  {
    var found := e.search.value;
    var todo := Newer(found, w.last);
    ProcessedOnce(found, w.last, e.works);
    NewerIs(found, w.last);
    if todo != [] { HighestIs(todo); }
    assert forall u :: u in w.mailbox.present && u > w.last ==> InRange(w.mailbox, After(w.last), u);
    assert forall u :: u in w.mailbox.present && u > w.last ==> u in todo;
  }

  /** Without a mark the first sync skips what is there: a sync tries all messages above the mark exactly if
      there is a mark or nothing to skip. */
  lemma FirstSyncSkips(w: World, e: Event)
    requires SoundWorld(w) && e.Sync? && e.status.Some? && e.search.Some? && Legal(w, e)
    ensures (forall u :: u in w.mailbox.present && u > w.last ==> Attempted(Done(w, e).attempts, u))
            <==> (w.last > 0 || w.mailbox.present == {})
  {
    if w.last > 0 {
      SyncTakesAllNew(w, e);
    } else if w.mailbox.present != {} {
      var u :| u in w.mailbox.present;
      assert u > w.last && !Attempted(Done(w, e).attempts, u);
    }
  }

  predicate NoPrimes(es: seq<Event>) {
    forall i :: 0 <= i < |es| ==> !es[i].Prime?
  }

  /** Of the messages above `mark`, exactly those up to the current mark have been tried, each once. */
  predicate UpToDate(mark: uid, w: World, tried: seq<Attempt>) {
    && 0 < mark <= w.last
    && NoUidTwice(tried)
    && (forall i :: 0 <= i < |tried| ==> mark < tried[i].uid <= w.last)
    && forall u :: u in w.mailbox.present && u > mark ==> (Attempted(tried, u) <==> u <= w.last)
  }

  lemma AttemptedConcat(a: seq<Attempt>, b: seq<Attempt>, u: uid)
    ensures Attempted(a + b, u) <==> Attempted(a, u) || Attempted(b, u)
  {
    forall i | 0 <= i < |a| ensures (a + b)[i] == a[i] {}
    forall i | 0 <= i < |b| ensures (a + b)[|a| + i] == b[i] {}
  }

  lemma SyncKeepsUpToDate(mark: uid, w: World, tried: seq<Attempt>, e: Event)
    requires SoundWorld(w) && Legal(w, e) && e.Sync? && UpToDate(mark, w, tried)
    ensures UpToDate(mark, Step(w, e), tried + Done(w, e).attempts)
  {
    StepSound(w, e);
    var o := Done(w, e);
    if e.search.Some? {
      SyncTakesAllNew(w, e);
      forall i | 0 <= i < |o.attempts| ensures o.attempts[i].uid <= o.last {
        assert Attempted(o.attempts, o.attempts[i].uid);
      }
    }
    forall u | u in w.mailbox.present && u > mark
      ensures Attempted(tried + o.attempts, u) <==> u <= o.last {
      AttemptedConcat(tried, o.attempts, u);
    }
  }

  lemma StepKeepsUpToDate(mark: uid, w: World, tried: seq<Attempt>, e: Event)
    requires SoundWorld(w) && Legal(w, e) && !e.Prime? && UpToDate(mark, w, tried)
    ensures UpToDate(mark, Step(w, e), tried + Done(w, e).attempts)
  {
    if e.Sync? {
      SyncKeepsUpToDate(mark, w, tried, e);
    } else {
      assert tried + [] == tried;
      forall u | u in e.mailbox.present && u > mark ensures Attempted(tried, u) <==> u <= w.last {
        if u !in w.mailbox.present { assert u > w.last; }
      }
    }
  }

  lemma SinceStep(w: World, next: World, end: World, tried: seq<Attempt>, more: seq<Attempt>)
    requires next.attempts == w.attempts + more && next.attempts <= end.attempts
    ensures w.attempts <= end.attempts && tried + more + Since(next, end) == tried + Since(w, end)
  {
    assert Since(w, end) == more + Since(next, end);
  }

  lemma {:induction false} RunKeepsUpToDate(mark: uid, w: World, tried: seq<Attempt>, es: seq<Event>)
    requires SoundWorld(w) && LegalRun(w, es) && NoPrimes(es) && UpToDate(mark, w, tried)
    ensures var end := Run(w, es); w.attempts <= end.attempts && UpToDate(mark, end, tried + Since(w, end))
    decreases |es|
  {
    if es == [] {
      assert tried + Since(w, w) == tried;
    } else {
      var next := Step(w, es[0]);
      var more := Done(w, es[0]).attempts;
      StepSound(w, es[0]);
      StepKeepsUpToDate(mark, w, tried, es[0]);
      RunKeepsUpToDate(mark, next, tried + more, es[1..]);
      SinceStep(w, next, Run(w, es), tried, more);
    }
  }

  lemma NothingTriedYet(w: World)
    requires SoundWorld(w) && w.last > 0
    ensures UpToDate(w.last, w, [])
  {
  }

  /** Between two primes, from a mark: at every moment the messages that came after the mark have been tried
      exactly once if they are up to the current mark and never otherwise. */
  lemma EachArrivalIsTriedOnce(w: World, es: seq<Event>)
    requires SoundWorld(w) && w.last > 0 && LegalRun(w, es) && NoPrimes(es)
    ensures var end := Run(w, es); w.attempts <= end.attempts && UpToDate(w.last, end, Since(w, end))
  {
    NothingTriedYet(w);
    RunKeepsUpToDate(w.last, w, [], es);
    var tried := Since(w, Run(w, es));
    assert [] + tried == tried;
  }

  // ---- Primes ----------------------------------------------------------------------------------------

  /** A prime backfills nothing that was there before it: no message present when it asks for the status is
      tried by it or by anything after it. */
  lemma PrimeSkips(w: World, e: Event, es: seq<Event>, u: uid)
    requires SoundWorld(w) && e.Prime? && e.status.Some? && Legal(w, e) && LegalRun(Step(w, e), es)
    requires u in w.mailbox.present
    ensures w.attempts <= Run(Step(w, e), es).attempts && !Attempted(Since(w, Run(Step(w, e), es)), u)
  {
    var next := Step(w, e);
    StepSound(w, e);
    PrimeAdvances(w, e);
    NeverForwardedTwice(next, es);
    var end := Run(next, es);
    assert Since(w, end) == Done(w, e).attempts + Since(next, end);
    AttemptedConcat(Done(w, e).attempts, Since(next, end), u);
  }
}
