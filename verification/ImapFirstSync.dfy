/** What the first sync of a mailbox promises, and the two ways of starting: with a mark from a first sync, and
    with a backfill. */
module ImapFirstSync {
  import opened Wrappers
  import opened ImapServer
  import opened ImapSync
  import opened ImapRuns

  // ---- What a sync sees --------------------------------------------------------------------------------

  /** The exchange a sync needs: the status without a mark, else the search. */
  predicate Exchanges(last: uid, e: Event) {
    e.Sync? && if last == 0 then e.status.Some? else e.search.Some?
  }

  /** Some sync of the run that gets its answer happens while the message is in the mailbox. */
  predicate Seen(w: World, es: seq<Event>, u: uid)
    decreases |es|
  {
    es != [] && ((Exchanges(w.last, es[0]) && u in w.mailbox.present) || Seen(Step(w, es[0]), es[1..], u))
  }

  /** The run tries the message. */
  predicate TriedIn(w: World, es: seq<Event>, u: uid) {
    exists i :: |w.attempts| <= i < |Run(w, es).attempts| && Run(w, es).attempts[i].uid == u
  }

  lemma {:induction false} GoneIsNeverSeen(w: World, es: seq<Event>, u: uid)
    requires SoundWorld(w) && LegalRun(w, es) && u !in w.mailbox.present && u < w.mailbox.uidNext
    ensures !Seen(w, es, u)
    decreases |es|
  {
    if es != [] {
      StepSound(w, es[0]);
      GoneIsNeverSeen(Step(w, es[0]), es[1..], u);
    }
  }

  lemma PassedIsNeverTried(w: World, es: seq<Event>, u: uid)
    requires SoundWorld(w) && LegalRun(w, es) && u <= w.last
    ensures !TriedIn(w, es, u)
  {
    NeverForwardedTwice(w, es);
  }

  lemma TriedNext(w: World, e: Event, es: seq<Event>, u: uid)
    requires SoundWorld(w) && Legal(w, e) && LegalRun(Step(w, e), es)
    ensures TriedIn(w, [e] + es, u) <==> Attempted(Done(w, e).attempts, u) || TriedIn(Step(w, e), es, u)
  {
    var more := Done(w, e).attempts;
    var next := Step(w, e);
    var end := Run(next, es);
    StepSound(w, e);
    NeverForwardedTwice(next, es);
    assert ([e] + es)[1..] == es && Run(w, [e] + es) == end;
    TriedAfter(end.attempts, |w.attempts|, u);
    TriedAfter(end.attempts, |next.attempts|, u);
    TriedWithin(w.attempts, more, end.attempts, u);
  }

  lemma TriedWithin(a: seq<Attempt>, more: seq<Attempt>, all: seq<Attempt>, u: uid)
    requires a + more <= all
    ensures Attempted(all[|a|..], u) <==> Attempted(more, u) || Attempted(all[|a + more|..], u)
  {
    assert all[|a|..] == more + all[|a + more|..];
    AttemptedConcat(more, all[|a + more|..], u);
  }

  lemma TriedAfter(attempts: seq<Attempt>, n: nat, u: uid)
    requires n <= |attempts|
    ensures Attempted(attempts[n..], u) <==> exists i :: n <= i < |attempts| && attempts[i].uid == u
  {
    if i :| n <= i < |attempts| && attempts[i].uid == u { assert attempts[n..][i - n].uid == u; }
  }

  lemma SyncTries(w: World, e: Event, u: uid)
    requires SoundWorld(w) && w.last > 0 && Legal(w, e) && !e.Prime? && u > w.last
    ensures Attempted(Done(w, e).attempts, u) <==> Exchanges(w.last, e) && u in w.mailbox.present
    ensures Attempted(Done(w, e).attempts, u) ==> u <= Step(w, e).last
  {
    if Exchanges(w.last, e) { SyncTakesAllNew(w, e); }
  }

  /** From a mark on, and without primes: a message above the mark has been tried exactly if a sync has seen it.
      That holds of every beginning of a run, so it is the first sync that tries it. */
  lemma {:induction false} TriedIffSeen(w: World, es: seq<Event>, u: uid)
    requires SoundWorld(w) && w.last > 0 && LegalRun(w, es) && NoPrimes(es) && u > w.last
    ensures TriedIn(w, es, u) <==> Seen(w, es, u)
    decreases |es|
  {
    if es != [] {
      var next := Step(w, es[0]);
      StepSound(w, es[0]);
      TriedNext(w, es[0], es[1..], u);
      assert [es[0]] + es[1..] == es;
      SyncTries(w, es[0], u);
      if u > next.last {
        TriedIffSeen(next, es[1..], u);
      } else if u !in w.mailbox.present {
        SyncedIsPresent(w, es[0], u);
        GoneIsNeverSeen(next, es[1..], u);
        PassedIsNeverTried(next, es[1..], u);
      }
    }
  }

  /** The mark passes a message that is not there only when the message can no longer arrive. */
  lemma SyncedIsPresent(w: World, e: Event, u: uid)
    requires SoundWorld(w) && w.last > 0 && Legal(w, e) && !e.Prime? && w.last < u <= Step(w, e).last
    requires u !in w.mailbox.present
    ensures u !in Step(w, e).mailbox.present && u < Step(w, e).mailbox.uidNext
  {
    StepSound(w, e);
  }

  // ---- The first sync ----------------------------------------------------------------------------------

  /** A first sync that gets its answer sets the mark below the next UID and tries nothing; without an answer
      nothing changes. */
  lemma FirstSyncSetsMark(w: World, e: Event)
    requires SoundWorld(w) && w.last == 0 && e.Sync? && Legal(w, e)
    ensures Done(w, e).attempts == [] && Step(w, e).mailbox == w.mailbox
    ensures Step(w, e).last == if e.status.Some? then w.mailbox.uidNext - 1 else 0
    ensures Done(w, e).ok == e.status.Some?
  {
  }

  /** After a first sync of a mailbox that ever held a message, and without primes: what arrives from then on is
      tried exactly if a sync sees it, by the first one, and once; what was there before is never tried. */
  lemma FirstSyncThenAll(w: World, e: Event, es: seq<Event>, u: uid)
    requires SoundWorld(w) && w.last == 0 && e.Sync? && e.status.Some? && Legal(w, e) && w.mailbox.uidNext > 1
    requires LegalRun(Step(w, e), es) && NoPrimes(es)
    ensures TriedIn(w, [e] + es, u) <==> u >= w.mailbox.uidNext && Seen(Step(w, e), es, u)
    ensures w.attempts <= Run(w, [e] + es).attempts
    ensures NoUidTwice(Run(w, [e] + es).attempts[|w.attempts|..])
  {
    var next := Step(w, e);
    FirstSyncSetsMark(w, e);
    StepSound(w, e);
    TriedNext(w, e, es, u);
    if u > next.last { TriedIffSeen(next, es, u); } else { PassedIsNeverTried(next, es, u); }
    EachArrivalIsTriedOnce(next, es);
    assert ([e] + es)[1..] == es;
    assert Run(w, [e] + es).attempts[|w.attempts|..] == Since(next, Run(next, es));
  }

  /** What arrives from the world `v` on, with UIDs from `first`, is tried in every run without primes if a sync
      sees it. */
  ghost predicate CatchesUp(v: World, first: uid) {
    forall es: seq<Event>, u: uid ::
      LegalRun(v, es) && NoPrimes(es) && u >= first && Seen(v, es, u) ==> TriedIn(v, es, u)
  }

  /** In a mailbox that never held a message the mark stays at "nothing seen", so that the next sync is a first
      one again, and skips what arrived meanwhile. */
  lemma EmptyMailboxSkips(w: World, e: Event)
    requires SoundWorld(w) && w.last == 0 && e.Sync? && Legal(w, e) && w.mailbox.uidNext == 1
    ensures Step(w, e) == w
    ensures !CatchesUp(Step(w, e), w.mailbox.uidNext)
  {
    assert w.attempts + [] == w.attempts;
    var m := Mailbox({1}, 2);
    var works := (u: uid) => true;
    var es := [Change(m), Sync(Some(2), Some([1]), works)];
    var v := Step(w, es[0]);
    assert v == World(0, m, w.attempts);
    var end := Step(v, es[1]);
    assert Legal(w, es[0]) && Legal(v, es[1]);
    assert es[1..] == [es[1]] && es[1..][1..] == [];
    assert LegalRun(end, []) && LegalRun(v, es[1..]) && LegalRun(w, es);
    assert Seen(v, es[1..], 1) && Seen(w, es, 1);
    assert Run(end, []) == end && Run(v, es[1..]) == end && Run(w, es) == end;
    assert end.attempts == w.attempts;
    assert !TriedIn(w, es, 1);
  }

  /** So a first sync keeps its promise, that new messages will be fetched from then on, exactly if the mailbox
      ever held a message. */
  lemma FirstSyncKeepsPromiseIff(w: World, e: Event)
    requires SoundWorld(w) && w.last == 0 && e.Sync? && e.status.Some? && Legal(w, e)
    ensures CatchesUp(Step(w, e), w.mailbox.uidNext) <==> w.mailbox.uidNext > 1
  {
    if w.mailbox.uidNext > 1 {
      var v := Step(w, e);
      FirstSyncSetsMark(w, e);
      StepSound(w, e);
      forall es: seq<Event>, u: uid | LegalRun(v, es) && NoPrimes(es) && u >= w.mailbox.uidNext && Seen(v, es, u)
        ensures TriedIn(v, es, u) {
        TriedIffSeen(v, es, u);
      }
    } else {
      EmptyMailboxSkips(w, e);
    }
  }

  // ---- A prime -----------------------------------------------------------------------------------------

  /** A prime puts the mark below the next UID, or on the highest message it backfilled; a failed one leaves it
      alone, or sets it without backfilling. */
  lemma PrimeSetsMark(w: World, e: Event)
    requires SoundWorld(w) && e.Prime? && Legal(w, e)
    ensures e.status == None ==> Done(w, e) == Outcome(w.last, [], false)
    ensures e.status.Some? ==>
              var o := Done(w, e);
              && o.last >= w.mailbox.uidNext - 1
              && (forall a :: a in o.attempts && a.ok ==> a.uid <= o.last)
              && (o.last == w.mailbox.uidNext - 1 || exists a :: a in o.attempts && a.ok && a.uid == o.last)
  {
    if e.status.Some? {
      PrimeAdvances(w, e);
      HighestDoneIs(Before(e.status.value), Done(w, e).attempts);
    }
  }

  predicate Ascending(found: seq<uid>) {
    forall i, j :: 0 <= i < j < |found| ==> found[i] < found[j]
  }

  /** Of what the search finds, in ascending order, a backfill tries the new messages among the last `max`: if it
      leaves out a new one, it tries `max`, all of them newer. */
  lemma BackfillTriesNewest(w: World, e: Event, u: uid)
    requires SoundWorld(w) && e.Prime? && Legal(w, e) && e.status.Some? && e.search.Some? && Ascending(e.search.value)
    requires e.backfill.seconds > 0 && e.backfill.max > 0 && u in e.search.value && u >= w.mailbox.uidNext
    ensures var p := Done(w, e).attempts;
            && |p| <= e.backfill.max
            && (!Attempted(p, u) ==> |p| == e.backfill.max && forall i :: 0 <= i < |p| ==> p[i].uid > u)
  {
    LastFewAreNewest(e.search.value, Before(e.status.value), e.backfill.max, e.works, u);
  }

  lemma LastFewAreNewest(found: seq<uid>, base: uid, max: int, works: uid -> bool, u: uid)
    requires Ascending(found) && max > 0 && u in found && u > base
    ensures var p := Processed(Newer(LastFew(found, max), base), {}, works);
            && |p| <= max && (!Attempted(p, u) ==> |p| == max && forall i :: 0 <= i < |p| ==> p[i].uid > u)
  {
    var few := LastFew(found, max);
    var todo := Newer(few, base);
    ProcessedOnce(few, base, works);
    ProcessedIs(todo, works);
    NewerIsShorter(few, base);
    if u !in few {
      OthersAreHigher(found, max, u);
      AllNewer(few, base);
    }
  }

  lemma OthersAreHigher(found: seq<uid>, max: int, u: uid)
    requires Ascending(found) && max > 0 && u in found && u !in LastFew(found, max)
    ensures |LastFew(found, max)| == max && forall v :: v in LastFew(found, max) ==> v > u
  {
    var few := LastFew(found, max);
    var i :| 0 <= i < |found| && found[i] == u;
    assert forall j :: 0 <= j < |few| ==> few[j] in few;
    forall v | v in few ensures v > u {
      var j :| 0 <= j < |few| && few[j] == v;
      assert v == found[|found| - max + j];
    }
  }

  lemma {:induction false} NewerIsShorter(found: seq<uid>, last: uid)
    ensures |Newer(found, last)| <= |found|
  {
    if found != [] { NewerIsShorter(found[..|found| - 1], last); }
  }

  lemma {:induction false} AllNewer(found: seq<uid>, last: uid)
    requires forall u :: u in found ==> u > last
    ensures Newer(found, last) == found
  {
    if found != [] {
      var front, u := found[..|found| - 1], found[|found| - 1];
      assert found == front + [u] && u in found;
      forall v | v in front ensures v > last {
        assert v in found;
      }
      AllNewer(front, last);
    }
  }

  // ---- Messages in flight ------------------------------------------------------------------------------

  /** What another task is processing is skipped, and everything else tried once, in order. */
  lemma {:induction false} InFlightIsSkipped(uids: seq<uid>, inFlight: set<uid>, works: uid -> bool)
    requires NoRepeats(uids)
    ensures var p := Processed(uids, inFlight, works);
            && NoUidTwice(p) && (forall u: uid :: Attempted(p, u) <==> u in uids && u !in inFlight)
            && forall i :: 0 <= i < |p| ==> p[i].ok == works(p[i].uid)
  {
    if uids != [] {
      var front, u := uids[..|uids| - 1], uids[|uids| - 1];
      assert uids == front + [u] && u !in front;
      InFlightIsSkipped(front, inFlight, works);
      var p := Processed(front, inFlight, works);
      assert [Attempt(u, works(u))][0].uid == u;
      forall v: uid ensures Attempted(Processed(uids, inFlight, works), v) <==> v in uids && v !in inFlight {
        AttemptedConcat(p, if u in inFlight then [] else [Attempt(u, works(u))], v);
      }
      assert !Attempted(p, u);
    }
  }
}
