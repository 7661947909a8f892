/** The window from looking at the mark to writing it is all that matters: a sync or prime that begins while
    another task is in its window can be harmed by it, and only then. */
module ImapWindows {
  import opened ImapServer
  import opened ImapSync
  import opened ImapOverlap

  /** No further sync or prime begins. */
  predicate NoBegins(es: seq<Event>) {
    forall i :: 0 <= i < |es| && es[i].Go? ==> !Begins(es[i].move)
  }

  lemma {:induction false} NoBeginsIsGuarded(s: System, es: seq<Event>)
    requires LegalRun(s, es) && NoBegins(es)
    ensures GuardedRun(s, es)
    decreases |es|
  {
    if es != [] { NoBeginsIsGuarded(Step(s, es[0]), es[1..]); }
  }

  // ---- Reachable without a further begin --------------------------------------------------------------

  ghost predicate Leads(s: System, v: System) {
    exists es :: LegalRun(s, es) && NoBegins(es) && Run(s, es) == v
  }

  lemma {:induction false} RunThen(s: System, es: seq<Event>, e: Event)
    requires LegalRun(s, es) && Legal(Run(s, es), e)
    ensures LegalRun(s, es + [e]) && Run(s, es + [e]) == Step(Run(s, es), e)
    decreases |es|
  {
    if es == [] {
      assert es + [e] == [e] && [e][1..] == [];
      assert LegalRun(Step(s, e), []);
    } else {
      assert (es + [e])[0] == es[0] && (es + [e])[1..] == es[1..] + [e];
      RunThen(Step(s, es[0]), es[1..], e);
    }
  }

  lemma StandsStill(s: System)
    ensures Leads(s, s)
  {
    assert LegalRun(s, []) && NoBegins([]) && Run(s, []) == s;
  }

  lemma Does(s: System, v: System, e: Event) returns (w: System)
    requires Leads(s, v) && Legal(v, e) && (e.Go? ==> !Begins(e.move))
    ensures w == Step(v, e) && Leads(s, w)
  {
    var es :| LegalRun(s, es) && NoBegins(es) && Run(s, es) == v;
    RunThen(s, es, e);
    w := Step(v, e);
  }

  // ---- The server's part ------------------------------------------------------------------------------

  /** A set of UIDs in some order. */
  lemma Listed(uids: set<uid>) returns (s: seq<uid>)
    ensures NoRepeats(s) && forall u: uid :: u in s <==> u in uids
  {
    s := [];
    if uids != {} {
      var u :| u in uids;
      var rest := Listed(uids - {u});
      s := rest + [u];
      AppendNew(rest, u);
    }
  }

  /** The mailbox with one more message. */
  function OneMore(m: Mailbox): Mailbox
    requires m.uidNext + 1 < UID_RANGE
  {
    Mailbox(m.present + {m.uidNext}, m.uidNext + 1)
  }

  /** A search from below a present message finds it, at the front if we like. */
  lemma FoundFirst(m: Mailbox, last: uid, u: uid) returns (found: seq<uid>)
    requires SoundMailbox(m) && u in m.present && last < u
    ensures AnswersSearch(m, After(last), [u] + found) && AnswersSince(m, After(last), [u])
  {
    found := Listed(set v | v in m.present && v > last && v != u);
    var all := [u] + found;
    forall v: uid ensures v in all <==> InRange(m, After(last), v) {
    }
    assert u !in found;
  }

  lemma FirstIsNewer(last: uid, u: uid, rest: seq<uid>)
    requires last < u
    ensures Newer([u] + rest, last) == [u] + Newer(rest, last)
    decreases |rest|
  {
    var all := [u] + rest;
    if rest == [] {
      assert all == [u] && all[..0] == [];
      assert Newer([], last) == [];
    } else {
      assert all[..|all| - 1] == [u] + rest[..|rest| - 1];
      FirstIsNewer(last, u, rest[..|rest| - 1]);
    }
  }

  lemma Grows(s: System, v: System) returns (w: System)
    requires Leads(s, v) && SoundMailbox(v.mailbox) && v.mailbox.uidNext + 1 < UID_RANGE
    ensures w == v.(mailbox := OneMore(v.mailbox)) && Leads(s, w) && SoundMailbox(w.mailbox)
    ensures v.mailbox.uidNext in w.mailbox.present && w.mailbox.uidNext == v.mailbox.uidNext + 1
  {
    w := Does(s, v, Change(OneMore(v.mailbox)));
  }

  // ---- A task that is about to write an old mark -------------------------------------------------------

  /** What the task writes with its next move. */
  predicate AboutToWrite(task: Task, mark: uid) {
    match task
    case HasStatus(n) => mark == Before(n)
    case HasFound(todo) => todo != [] && mark == Highest(todo)
    case PrimeAsked(n) => mark == Before(n)
    case Backfilling(todo, current, base, highest) => todo == [] && current == [] && highest > base && mark == highest
    case _ => false
  }

  function WriteMove(task: Task): Move {
    match task
    case HasStatus(_) => SetFirst
    case HasFound(_) => SetMark
    case PrimeAsked(_) => PrimeMark
    case _ => BackfillStop
  }

  /** The messages a task deals with are in the mailbox's range. */
  predicate Sane(m: Mailbox, task: Task) {
    match task
    case Idle => true
    case HasRead(start) => start < m.uidNext
    case HasStatus(n) => 1 <= n <= m.uidNext
    case HasFound(todo) => forall u :: u in todo ==> u < m.uidNext
    case Syncing(_, _) => true
    case PrimeAsked(n) => 1 <= n <= m.uidNext
    case PrimeSet(base) => base < m.uidNext
    case Backfilling(todo, current, base, highest) =>
      base <= highest < m.uidNext && |current| <= 1 && forall u :: u in current + todo ==> base < u < m.uidNext
  }

  /** The rest of a backfill fails. */
  lemma {:induction false} Drained(s: System, v: System, i: nat) returns (w: System)
    requires Leads(s, v) && i < |v.tasks| && v.tasks[i].Backfilling? && |v.tasks[i].current| <= 1
    ensures Leads(s, w) && w == v.(tasks := v.tasks[i := v.tasks[i].(todo := [], current := [])])
    decreases |v.tasks[i].todo|, |v.tasks[i].current|
  {
    var task := v.tasks[i];
    w := v;
    if task.current != [] {
      var next := Does(s, v, Go(i, BackfillFinish(false)));
      w := Drained(s, next, i);
    } else if task.todo != [] {
      var next := Does(s, v, Go(i, BackfillTake));
      w := Drained(s, next, i);
    } else {
      assert v.tasks[i := task.(todo := [], current := [])] == v.tasks;
    }
  }

  predicate OnlyMoved(v: System, w: System, i: nat) {
    i < |v.tasks| && |w.tasks| == |v.tasks| && w.tasks == v.tasks[i := w.tasks[i]]
  }

  /** A sync that has read the mark searches after one more message has come. */
  lemma SearchesAfterGrowth(s: System, v: System, i: nat) returns (w: System)
    requires Leads(s, v) && i < |v.tasks| && v.tasks[i].HasRead? && v.tasks[i].start > 0
    requires SoundMailbox(v.mailbox) && Sane(v.mailbox, v.tasks[i]) && v.mailbox.uidNext + 1 < UID_RANGE
    ensures Leads(s, w) && OnlyMoved(v, w, i) && w.mailbox == OneMore(v.mailbox) && SoundMailbox(w.mailbox)
    ensures w.tasks[i].HasFound? && w.tasks[i].todo != []
    ensures v.mailbox.uidNext <= Highest(w.tasks[i].todo) < w.mailbox.uidNext
  {
    var start, u := v.tasks[i].start, v.mailbox.uidNext;
    var grown := Grows(s, v);
    var rest := FoundFirst(grown.mailbox, start, u);
    w := Does(s, grown, Go(i, Search([u] + rest)));
    assert w.tasks[i] == HasFound(Newer([u] + rest, start));
    HighestFound(grown.mailbox, start, u, rest);
  }

  lemma HighestFound(m: Mailbox, start: uid, u: uid, rest: seq<uid>)
    requires SoundMailbox(m) && start < u < m.uidNext && AnswersSince(m, After(start), [u] + rest)
    ensures var todo := Newer([u] + rest, start); todo != [] && u <= Highest(todo) < m.uidNext
  {
    var todo := Newer([u] + rest, start);
    FirstIsNewer(start, u, rest);
    NewerFound(m, start, [u] + rest);
    assert u in todo;
    HighestIs(todo);
  }

  /** A prime that has set its baseline finds one more message and forwards it. */
  lemma BackfillsOne(s: System, v: System, i: nat) returns (w: System)
    requires Leads(s, v) && i < |v.tasks| && v.tasks[i].PrimeSet?
    requires SoundMailbox(v.mailbox) && Sane(v.mailbox, v.tasks[i]) && v.mailbox.uidNext + 1 < UID_RANGE
    ensures Leads(s, w) && OnlyMoved(v, w, i) && w.mailbox == OneMore(v.mailbox) && SoundMailbox(w.mailbox)
    ensures w.tasks[i] == Backfilling([], [], v.tasks[i].base, v.mailbox.uidNext) && w.last == v.last
  {
    var base, u := v.tasks[i].base, v.mailbox.uidNext;
    var grown := Grows(s, v);
    var rest := FoundFirst(grown.mailbox, base, u);
    assert Newer([u], base) == [u] by { assert [u][..0] == []; }
    var found := Does(s, grown, Go(i, PrimeSearch([u])));
    assert [u][1..] == [];
    var taken := Does(s, found, Go(i, BackfillTake));
    w := Does(s, taken, Go(i, BackfillFinish(true)));
  }

  /** A backfill that still has something to do forwards a message and lets the rest fail. */
  lemma BackfillsAtLeastOne(s: System, v: System, i: nat) returns (w: System)
    requires Leads(s, v) && i < |v.tasks| && v.tasks[i].Backfilling?
    requires InWindow(v.tasks[i]) && Sane(v.mailbox, v.tasks[i])
    ensures Leads(s, w) && OnlyMoved(v, w, i) && w.mailbox == v.mailbox
    ensures w.tasks[i].Backfilling? && AboutToWrite(w.tasks[i], w.tasks[i].highest)
    ensures w.tasks[i].highest < w.mailbox.uidNext
  {
    var task := v.tasks[i];
    var ready := v;
    if task.highest == task.base {
      var taken := v;
      if task.current == [] {
        assert task.current + task.todo == task.todo;
        taken := Does(s, v, Go(i, BackfillTake));
      }
      assert taken.tasks[i].current[0] in task.current + task.todo;
      ready := Does(s, taken, Go(i, BackfillFinish(true)));
    }
    w := Drained(s, ready, i);
  }

  /** A task in its window can come to be about to write a mark, with at most one more message in the mailbox. */
  lemma ComesToWrite(s: System, v: System, i: nat) returns (w: System, mark: uid)
    requires Leads(s, v) && i < |v.tasks| && InWindow(v.tasks[i]) && Sane(v.mailbox, v.tasks[i])
    requires SoundMailbox(v.mailbox) && v.mailbox.uidNext + 1 < UID_RANGE
    ensures Leads(s, w) && OnlyMoved(v, w, i) && AboutToWrite(w.tasks[i], mark) && SoundMailbox(w.mailbox)
    ensures mark < w.mailbox.uidNext && v.mailbox.uidNext <= w.mailbox.uidNext <= v.mailbox.uidNext + 1
  {
    match v.tasks[i]
    case HasRead(start) =>
      if start == 0 {
        w := Does(s, v, Go(i, AskFirst));
        mark := Before(v.mailbox.uidNext);
      } else {
        w := SearchesAfterGrowth(s, v, i);
        mark := Highest(w.tasks[i].todo);
      }
    case HasStatus(n) => w, mark := v, Before(n);
    case HasFound(todo) =>
      HighestIs(todo);
      w, mark := v, Highest(todo);
    case PrimeAsked(n) => w, mark := v, Before(n);
    case PrimeSet(_) =>
      w := BackfillsOne(s, v, i);
      mark := w.tasks[i].highest;
    case Backfilling(_, _, _, _) =>
      w := BackfillsAtLeastOne(s, v, i);
      mark := w.tasks[i].highest;
  }

  /** A task that has just begun can set the mark to a message that comes after all others. */
  lemma RaisesMark(s: System, v: System, j: nat) returns (w: System)
    requires Leads(s, v) && j < |v.tasks|
    requires (v.tasks[j].HasRead? || v.tasks[j].PrimeAsked?) && Sane(v.mailbox, v.tasks[j])
    requires SoundMailbox(v.mailbox) && v.mailbox.uidNext + 1 < UID_RANGE
    ensures Leads(s, w) && OnlyMoved(v, w, j) && w.last >= v.mailbox.uidNext
  {
    if v.tasks[j].PrimeAsked? {
      var set_ := Does(s, v, Go(j, PrimeMark));
      var done := BackfillsOne(s, set_, j);
      w := Does(s, done, Go(j, BackfillStop));
    } else if v.tasks[j].start == 0 {
      var grown := Grows(s, v);
      var asked := Does(s, grown, Go(j, AskFirst));
      w := Does(s, asked, Go(j, SetFirst));
    } else {
      var found := SearchesAfterGrowth(s, v, j);
      w := Does(s, found, Go(j, SetMark));
    }
  }

  /** So the mark can go back: the first task comes to write its old mark, the one that began after it raises
      the mark, and then the first writes. */
  lemma OverlapTurnsMarkBack(s: System, i: nat, j: nat) returns (v: System, e: Event)
    requires i < |s.tasks| && j < |s.tasks| && i != j && SoundMailbox(s.mailbox) && s.mailbox.uidNext + 2 < UID_RANGE
    requires InWindow(s.tasks[i]) && Sane(s.mailbox, s.tasks[i])
    requires (s.tasks[j].HasRead? || s.tasks[j].PrimeAsked?) && Sane(s.mailbox, s.tasks[j])
    ensures Leads(s, v) && Legal(v, e) && (e.Go? ==> !Begins(e.move)) && Step(v, e).last < v.last
  {
    StandsStill(s);
    var w, mark := ComesToWrite(s, s, i);
    assert w.tasks[j] == s.tasks[j];
    v := RaisesMark(s, w, j);
    assert v.tasks[i] == w.tasks[i];
    e := Go(i, WriteMove(w.tasks[i]));
  }

  // ---- What else overlapping windows allow -------------------------------------------------------------

  lemma FindsFirst(s: System, v: System, i: nat, u: uid) returns (w: System)
    requires Leads(s, v) && i < |v.tasks| && v.tasks[i].HasRead? && 0 < v.tasks[i].start < u
    requires SoundMailbox(v.mailbox) && u in v.mailbox.present
    ensures Leads(s, w) && OnlyMoved(v, w, i) && w.mailbox == v.mailbox
    ensures w.inFlight == v.inFlight && w.forwarded == v.forwarded
    ensures w.tasks[i].HasFound? && w.tasks[i].todo != [] && w.tasks[i].todo[0] == u
  {
    var rest := FoundFirst(v.mailbox, v.tasks[i].start, u);
    w := Does(s, v, Go(i, Search([u] + rest)));
    FirstIsNewer(v.tasks[i].start, u, rest);
  }

  lemma TakesFirst(s: System, v: System, i: nat, u: uid) returns (w: System)
    requires Leads(s, v) && i < |v.tasks| && v.tasks[i].HasFound? && v.tasks[i].todo != [] && v.tasks[i].todo[0] == u
    requires u !in v.inFlight
    ensures Leads(s, w) && OnlyMoved(v, w, i) && w.mailbox == v.mailbox
    ensures w.inFlight == v.inFlight + {u} && w.forwarded == v.forwarded
    ensures w.tasks[i].Syncing? && w.tasks[i].current == [u]
  {
    var marked := Does(s, v, Go(i, SetMark));
    w := Does(s, marked, Go(i, Take));
  }

  /** Two syncs in their windows can forward a message twice: the second takes it up after the first is done. */
  lemma OverlapForwardsTwice(s: System, i: nat, j: nat) returns (v: System)
    requires i < |s.tasks| && j < |s.tasks| && i != j && SoundMailbox(s.mailbox) && s.mailbox.uidNext + 1 < UID_RANGE
    requires s.tasks[i].HasRead? && s.tasks[i].start > 0 && Sane(s.mailbox, s.tasks[i])
    requires s.tasks[j].HasRead? && s.tasks[j].start > 0 && Sane(s.mailbox, s.tasks[j])
    requires s.mailbox.uidNext !in s.inFlight
    ensures Leads(s, v) && v.forwarded == s.forwarded + [s.mailbox.uidNext, s.mailbox.uidNext]
  {
    var u := s.mailbox.uidNext;
    StandsStill(s);
    v := Grows(s, s);
    v := FindsFirst(s, v, i, u);
    v := FindsFirst(s, v, j, u);
    v := TakesFirst(s, v, i, u);
    v := Does(s, v, Go(i, Finish(true)));
    assert v.inFlight == s.inFlight;
    v := TakesFirst(s, v, j, u);
    v := Does(s, v, Go(j, Finish(true)));
    assert v.forwarded == s.forwarded + [u, u];
  }

  /** From the start, with a mark, it takes no more than two syncs and one message. */
  lemma TwoSyncsForwardTwice(start: System) returns (v: System, es: seq<Event>)
    requires Starting(start) && |start.tasks| >= 2 && start.last > 0 && start.mailbox.uidNext + 1 < UID_RANGE
    ensures LegalRun(start, es) && Run(start, es) == v
    ensures v.forwarded == [start.mailbox.uidNext, start.mailbox.uidNext]
  {
    var one := Step(start, Go(0, ReadMark));
    var two := Step(one, Go(1, ReadMark));
    v := OverlapForwardsTwice(two, 0, 1);
    var rest :| LegalRun(two, rest) && NoBegins(rest) && Run(two, rest) == v;
    es := [Go(0, ReadMark)] + ([Go(1, ReadMark)] + rest);
    assert es[1..] == [Go(1, ReadMark)] + rest && es[1..][1..] == rest;
    assert LegalRun(one, es[1..]) && Run(one, es[1..]) == v;
  }

  /** A prime and a sync in their windows can be at the same message at once: a backfill does not mark what it
      processes as in flight. */
  lemma BackfillDoublesSync(s: System, i: nat, j: nat) returns (v: System)
    requires i < |s.tasks| && j < |s.tasks| && i != j && SoundMailbox(s.mailbox) && s.mailbox.uidNext + 1 < UID_RANGE
    requires s.tasks[i].PrimeSet? && Sane(s.mailbox, s.tasks[i])
    requires s.tasks[j].HasRead? && s.tasks[j].start > 0 && Sane(s.mailbox, s.tasks[j])
    requires s.mailbox.uidNext !in s.inFlight
    ensures Leads(s, v) && |v.tasks| == |s.tasks|
    ensures v.tasks[i].Backfilling? && v.tasks[i].current == [s.mailbox.uidNext]
    ensures v.tasks[j].Syncing? && v.tasks[j].current == [s.mailbox.uidNext]
  {
    var u, base := s.mailbox.uidNext, s.tasks[i].base;
    StandsStill(s);
    v := Grows(s, s);
    v := FindsFirst(s, v, j, u);
    v := TakesFirst(s, v, j, u);
    var rest := FoundFirst(v.mailbox, base, u);
    assert Newer([u], base) == [u] by { assert [u][..0] == []; }
    v := Does(s, v, Go(i, PrimeSearch([u])));
    v := Does(s, v, Go(i, BackfillTake));
  }

  // ---- Exactly when a begin is safe -------------------------------------------------------------------

  lemma {:induction false} HarmShows(s: System, es: seq<Event>, e: Event)
    requires LegalRun(s, es) && Legal(Run(s, es), e) && Step(Run(s, es), e).last < Run(s, es).last
    ensures LegalRun(s, es + [e]) && !Harmless(s, es + [e])
    decreases |es|
  {
    RunThen(s, es, e);
    if es == [] {
      assert es + [e] == [e];
    } else {
      assert (es + [e])[0] == es[0] && (es + [e])[1..] == es[1..] + [e];
      HarmShows(Step(s, es[0]), es[1..], e);
    }
  }

  lemma OrderlyIsSane(s: System, t: nat)
    requires Orderly(s) && t < |s.tasks| && InWindow(s.tasks[t])
    ensures Sane(s.mailbox, s.tasks[t])
  {
    assert InOrder(s, s.tasks[t]);
  }

  ghost predicate AllHarmless(s: System) {
    forall es :: LegalRun(s, es) && NoBegins(es) ==> Harmless(s, es)
  }

  /** In a system that is in order, a sync or prime begins safely exactly if no other task is in its window:
      then no continuation of what is under way turns the mark back or forwards anything twice; else some
      continuation turns the mark back. (The mailbox must have room for two more messages.) */
  lemma BeginIsSafeIff(s: System, j: nat, m: Move)
    requires Orderly(s) && Legal(s, Go(j, m)) && Begins(m) && s.mailbox.uidNext + 2 < UID_RANGE
    ensures AllHarmless(Step(s, Go(j, m))) <==> forall r :: 0 <= r < |s.tasks| && r != j ==> !InWindow(s.tasks[r])
  {
    var e := Go(j, m);
    var begun := Step(s, e);
    if Guarded(s, e) {
      StepOrderly(s, e);
      forall es | LegalRun(begun, es) && NoBegins(es) ensures Harmless(begun, es) {
        NoBeginsIsGuarded(begun, es);
        GuardedIsHarmless(begun, es);
      }
    } else {
      var i :| 0 <= i < |s.tasks| && i != j && InWindow(s.tasks[i]);
      OrderlyIsSane(s, i);
      assert begun.tasks[i] == s.tasks[i];
      var v, last := OverlapTurnsMarkBack(begun, i, j);
      var es :| LegalRun(begun, es) && NoBegins(es) && Run(begun, es) == v;
      HarmShows(begun, es, last);
      assert NoBegins(es + [last]);
    }
  }
}
