/** A sync or a prime that nothing overlaps is a run of the machine of overlapping tasks, and does what the
    functions for one sync and one prime say. */
module ImapTasks {
  import opened Wrappers
  import opened ImapServer
  import opened ImapSync
  import opened ImapRuns
  import opened ImapOverlap

  /** The messages that were processed with success, in order. */
  function Succeeded(p: seq<Attempt>): seq<uid> {
    if p == [] then [] else (if p[0].ok then [p[0].uid] else []) + Succeeded(p[1..])
  }

  lemma {:induction false} SucceededConcat(a: seq<Attempt>, b: seq<Attempt>)
    ensures Succeeded(a + b) == Succeeded(a) + Succeeded(b)
  {
    if a == [] {
      assert a + b == b;
    } else {
      assert (a + b)[1..] == a[1..] + b;
      SucceededConcat(a[1..], b);
    }
  }

  /** Processing starts with the first message. */
  lemma {:induction false} ProcessedFirst(u: uid, rest: seq<uid>, inFlight: set<uid>, works: uid -> bool)
    ensures Processed([u] + rest, inFlight, works)
         == (if u in inFlight then [] else [Attempt(u, works(u))]) + Processed(rest, inFlight, works)
  {
    var all := [u] + rest;
    if rest == [] {
      assert all[..|all| - 1] == [] && all[|all| - 1] == u;
    } else {
      assert all[..|all| - 1] == [u] + rest[..|rest| - 1];
      ProcessedFirst(u, rest[..|rest| - 1], inFlight, works);
    }
  }

  /** The same with a task further on, another mark, and more messages forwarded. */
  function Moved(s: System, t: nat, task: Task, last: uid, more: seq<uid>): System
    requires t < |s.tasks|
  {
    s.(tasks := s.tasks[t := task], last := last, forwarded := s.forwarded + more)
  }

  /** A run that starts in `s` and ends in `r`. */
  ghost predicate Leads(s: System, es: seq<ImapOverlap.Event>, r: System) {
    ImapOverlap.LegalRun(s, es) && ImapOverlap.Run(s, es) == r
  }

  lemma First(s: System, t: nat, m: Move, es: seq<ImapOverlap.Event>, r: System)
    requires ImapOverlap.Legal(s, Go(t, m)) && Leads(ImapOverlap.Step(s, Go(t, m)), es, r)
    ensures Leads(s, [Go(t, m)] + es, r)
  {
    assert ([Go(t, m)] + es)[1..] == es;
  }

  lemma Ends(s: System)
    ensures Leads(s, [], s)
  {
  }

  // ---- A sync ------------------------------------------------------------------------------------------

  /** The messages of a sync are processed one by one, except those in flight. */
  lemma {:induction false} SyncEach(s: System, t: nat, todo: seq<uid>, works: uid -> bool)
    returns (es: seq<ImapOverlap.Event>)
    requires t < |s.tasks| && s.tasks[t] == Syncing(todo, [])
    ensures Leads(s, es, Moved(s, t, Idle, s.last, Succeeded(Processed(todo, s.inFlight, works))))
    decreases |todo|
  {
    if todo == [] {
      var r := ImapOverlap.Step(s, Go(t, GiveUp));
      assert r == Moved(s, t, Idle, s.last, []);
      Ends(r);
      First(s, t, GiveUp, [], r);
      es := [Go(t, GiveUp)] + [];
    } else {
      var u, rest := todo[0], todo[1..];
      assert todo == [u] + rest;
      ProcessedFirst(u, rest, s.inFlight, works);
      var p := Processed(rest, s.inFlight, works);
      var taken := ImapOverlap.Step(s, Go(t, Take));
      if u in s.inFlight {
        assert s.inFlight + {u} == s.inFlight;
        assert taken == Moved(s, t, Syncing(rest, []), s.last, []);
        es := SyncEach(taken, t, rest, works);
        MovedTwice(s, t, Syncing(rest, []), s.last, [], Idle, s.last, Succeeded(p));
        assert [] + p == p;
        First(s, t, Take, es, Moved(s, t, Idle, s.last, Succeeded(p)));
        es := [Go(t, Take)] + es;
      } else {
        var more := if works(u) then [u] else [];
        var done := ImapOverlap.Step(taken, Go(t, Finish(works(u))));
        assert s.inFlight + {u} - {u} == s.inFlight;
        assert done == Moved(s, t, Syncing(rest, []), s.last, more);
        es := SyncEach(done, t, rest, works);
        MovedTwice(s, t, Syncing(rest, []), s.last, more, Idle, s.last, Succeeded(p));
        SucceededFirst(u, works(u), p);
        var r := Moved(s, t, Idle, s.last, more + Succeeded(p));
        First(taken, t, Finish(works(u)), es, r);
        First(s, t, Take, [Go(t, Finish(works(u)))] + es, r);
        es := [Go(t, Take)] + ([Go(t, Finish(works(u)))] + es);
      }
    }
  }

  lemma SucceededFirst(u: uid, ok: bool, p: seq<Attempt>)
    ensures Succeeded([Attempt(u, ok)] + p) == (if ok then [u] else []) + Succeeded(p)
  {
    assert ([Attempt(u, ok)] + p)[1..] == p;
  }

  lemma MovedTwice(s: System, t: nat, a: Task, x: uid, more: seq<uid>, b: Task, y: uid, rest: seq<uid>)
    requires t < |s.tasks|
    ensures Moved(Moved(s, t, a, x, more), t, b, y, rest) == Moved(s, t, b, y, more + rest)
  {
    assert s.tasks[t := a][t := b] == s.tasks[t := b];
    assert s.forwarded + more + rest == s.forwarded + (more + rest);
  }

  /** A first sync: read the mark, ask for the next UID, set the mark. */
  lemma FirstSyncIsARun(s: System, t: nat, works: uid -> bool) returns (es: seq<ImapOverlap.Event>)
    requires t < |s.tasks| && s.tasks[t] == Idle && s.last == 0
    ensures var o := Synced(0, s.inFlight, Some(s.mailbox.uidNext), None, works);
            Leads(s, es, Moved(s, t, Idle, o.last, Succeeded(o.attempts)))
  {
    var a := ImapOverlap.Step(s, Go(t, ReadMark));
    var b := ImapOverlap.Step(a, Go(t, AskFirst));
    var r := ImapOverlap.Step(b, Go(t, SetFirst));
    assert r.tasks == s.tasks[t := Idle] && s.forwarded + [] == s.forwarded;
    assert r == Moved(s, t, Idle, Before(s.mailbox.uidNext), []);
    Ends(r);
    First(b, t, SetFirst, [], r);
    First(a, t, AskFirst, [Go(t, SetFirst)] + [], r);
    First(s, t, ReadMark, [Go(t, AskFirst)] + ([Go(t, SetFirst)] + []), r);
    es := [Go(t, ReadMark)] + ([Go(t, AskFirst)] + ([Go(t, SetFirst)] + []));
  }

  /** A sync with a mark: read it, search, set it, and process what was found. */
  lemma SyncIsARun(s: System, t: nat, found: seq<uid>, works: uid -> bool) returns (es: seq<ImapOverlap.Event>)
    requires t < |s.tasks| && s.tasks[t] == Idle && s.last > 0 && AnswersSearch(s.mailbox, After(s.last), found)
    ensures var o := Synced(s.last, s.inFlight, None, Some(found), works);
            Leads(s, es, Moved(s, t, Idle, o.last, Succeeded(o.attempts)))
  {
    var todo := Newer(found, s.last);
    var a := ImapOverlap.Step(s, Go(t, ReadMark));
    var b := ImapOverlap.Step(a, Go(t, Search(found)));
    assert b.tasks == s.tasks[t := HasFound(todo)] && s.forwarded + [] == s.forwarded;
    assert b == Moved(s, t, HasFound(todo), s.last, []);
    var r;
    if todo == [] {
      r := ImapOverlap.Step(b, Go(t, GiveUp));
      MovedTwice(s, t, HasFound(todo), s.last, [], Idle, s.last, []);
      assert r == Moved(s, t, Idle, s.last, []) by { assert b.forwarded + [] == b.forwarded; }
      Ends(r);
      First(b, t, GiveUp, [], r);
      es := [Go(t, GiveUp)] + [];
    } else {
      es, r := SyncFound(s, b, t, todo, works);
    }
    First(a, t, Search(found), es, r);
    First(s, t, ReadMark, [Go(t, Search(found))] + es, r);
    es := [Go(t, ReadMark)] + ([Go(t, Search(found))] + es);
  }

  lemma SyncFound(s: System, b: System, t: nat, todo: seq<uid>, works: uid -> bool)
    returns (es: seq<ImapOverlap.Event>, r: System)
    requires t < |s.tasks| && todo != [] && b == Moved(s, t, HasFound(todo), s.last, [])
    ensures r == Moved(s, t, Idle, Highest(todo), Succeeded(Processed(todo, s.inFlight, works)))
    ensures Leads(b, es, r)
  {
    var p := Succeeded(Processed(todo, s.inFlight, works));
    var c := ImapOverlap.Step(b, Go(t, SetMark));
    assert c.tasks == s.tasks[t := Syncing(todo, [])];
    assert c == Moved(s, t, Syncing(todo, []), Highest(todo), []);
    es := SyncEach(c, t, todo, works);
    MovedTwice(s, t, Syncing(todo, []), Highest(todo), [], Idle, Highest(todo), p);
    assert [] + p == p;
    r := Moved(s, t, Idle, Highest(todo), p);
    First(b, t, SetMark, es, r);
    es := [Go(t, SetMark)] + es;
  }

  // ---- A prime -----------------------------------------------------------------------------------------

  /** The backfill processes message after message and keeps the highest that succeeded. */
  lemma {:induction false} BackfillEachOf(s: System, t: nat, todo: seq<uid>, done: seq<Attempt>, works: uid -> bool)
    returns (es: seq<ImapOverlap.Event>)
    requires t < |s.tasks| && s.tasks[t] == Backfilling(todo, [], s.last, HighestDone(s.last, done))
    ensures var p := Processed(todo, {}, works);
            Leads(s, es, Moved(s, t, Idle, HighestDone(s.last, done + p), Succeeded(p)))
    decreases |todo|
  {
    var base := s.last;
    if todo == [] {
      var r := ImapOverlap.Step(s, Go(t, BackfillStop));
      assert done + [] == done && s.forwarded + [] == s.forwarded;
      assert r == Moved(s, t, Idle, HighestDone(base, done), []);
      Ends(r);
      First(s, t, BackfillStop, [], r);
      es := [Go(t, BackfillStop)] + [];
    } else {
      var u, rest := todo[0], todo[1..];
      assert todo == [u] + rest;
      ProcessedFirst(u, rest, {}, works);
      var p := Processed(rest, {}, works);
      var a := Attempt(u, works(u));
      var more := if works(u) then [u] else [];
      HighestDoneNext(base, done, a);
      var task := Backfilling(rest, [], base, HighestDone(base, done + [a]));
      var next := Moved(s, t, task, base, more);
      es := BackfillEachOf(next, t, rest, done + [a], works);
      assert done + [a] + p == done + ([a] + p);
      SucceededFirst(u, works(u), p);
      MovedTwice(s, t, task, base, more, Idle, HighestDone(base, done + ([a] + p)), Succeeded(p));
      es := BackfillOne(s, t, u, rest, HighestDone(base, done), works(u), es,
                        Moved(s, t, Idle, HighestDone(base, done + ([a] + p)), more + Succeeded(p)));
    }
  }

  /** One message of the backfill, and a run after it. */
  lemma BackfillOne(s: System, t: nat, u: uid, rest: seq<uid>, h: uid, ok: bool, es: seq<ImapOverlap.Event>, r: System)
    returns (all: seq<ImapOverlap.Event>)
    requires t < |s.tasks| && s.tasks[t] == Backfilling([u] + rest, [], s.last, h)
    requires var task := Backfilling(rest, [], s.last, if ok && u > h then u else h);
             Leads(Moved(s, t, task, s.last, if ok then [u] else []), es, r)
    ensures Leads(s, all, r)
  {
    assert ([u] + rest)[1..] == rest;
    var task := Backfilling(rest, [], s.last, if ok && u > h then u else h);
    var taken := ImapOverlap.Step(s, Go(t, BackfillTake));
    var next := ImapOverlap.Step(taken, Go(t, BackfillFinish(ok)));
    assert next.tasks == s.tasks[t := task] && s.forwarded + [] == s.forwarded;
    assert next == Moved(s, t, task, s.last, if ok then [u] else []);
    First(taken, t, BackfillFinish(ok), es, r);
    First(s, t, BackfillTake, [Go(t, BackfillFinish(ok))] + es, r);
    all := [Go(t, BackfillTake)] + ([Go(t, BackfillFinish(ok))] + es);
  }

  /** A prime: ask for the next UID, set the mark, and search and backfill if that is asked for. */
  lemma PrimeIsARun(s: System, t: nat, backfill: Backfill, found: seq<uid>, works: uid -> bool)
    returns (es: seq<ImapOverlap.Event>)
    requires t < |s.tasks| && s.tasks[t] == Idle
    requires AnswersSince(s.mailbox, After(Before(s.mailbox.uidNext)), found)
    ensures var o := Primed(s.last, Some(s.mailbox.uidNext), backfill, Some(found), works);
            Leads(s, es, Moved(s, t, Idle, o.last, Succeeded(o.attempts)))
  {
    var base := Before(s.mailbox.uidNext);
    var a := ImapOverlap.Step(s, Go(t, PrimeAsk));
    var b := ImapOverlap.Step(a, Go(t, PrimeMark));
    assert b.tasks == s.tasks[t := PrimeSet(base)] && s.forwarded + [] == s.forwarded;
    assert b == Moved(s, t, PrimeSet(base), base, []);
    var r;
    if backfill.seconds <= 0 || backfill.max <= 0 {
      r := ImapOverlap.Step(b, Go(t, GiveUp));
      MovedTwice(s, t, PrimeSet(base), base, [], Idle, base, []);
      assert r == Moved(s, t, Idle, base, []) by { assert b.forwarded + [] == b.forwarded; }
      Ends(r);
      First(b, t, GiveUp, [], r);
      es := [Go(t, GiveUp)] + [];
    } else {
      var few := LastFew(found, backfill.max);
      LastFewOfDistinct(found, backfill.max);
      es, r := PrimeFound(s, b, t, base, few, works);
    }
    First(a, t, PrimeMark, es, r);
    First(s, t, PrimeAsk, [Go(t, PrimeMark)] + es, r);
    es := [Go(t, PrimeAsk)] + ([Go(t, PrimeMark)] + es);
  }

  lemma PrimeFound(s: System, b: System, t: nat, base: uid, few: seq<uid>, works: uid -> bool)
    returns (es: seq<ImapOverlap.Event>, r: System)
    requires t < |s.tasks| && b == Moved(s, t, PrimeSet(base), base, []) && AnswersSince(s.mailbox, After(base), few)
    ensures var p := Processed(Newer(few, base), {}, works);
            r == Moved(s, t, Idle, HighestDone(base, p), Succeeded(p)) && Leads(b, es, r)
  {
    var todo := Newer(few, base);
    var p := Processed(todo, {}, works);
    var c := ImapOverlap.Step(b, Go(t, PrimeSearch(few)));
    var task := Backfilling(todo, [], base, HighestDone(base, []));
    assert c.tasks == s.tasks[t := task];
    assert c == Moved(s, t, task, base, []);
    es := BackfillEachOf(c, t, todo, [], works);
    assert [] + p == p && [] + Succeeded(p) == Succeeded(p);
    MovedTwice(s, t, task, base, [], Idle, HighestDone(base, p), Succeeded(p));
    r := Moved(s, t, Idle, HighestDone(base, p), Succeeded(p));
    First(b, t, PrimeSearch(few), es, r);
    es := [Go(t, PrimeSearch(few))] + es;
  }
}
