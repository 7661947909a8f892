/** Syncs and primes of one mailbox that overlap in time. Each step is one critical section or one exchange
    with the server. */
module ImapOverlap {
  import opened ImapServer
  import opened ImapSync

  /** Where a task stands. `current` holds the message in process, if any. */
  datatype Task =
    | Idle
    | HasRead(start: uid)                             // a sync has read the mark
    | HasStatus(uidNext: uid)                         // without a mark: it has asked for UIDNEXT
    | HasFound(todo: seq<uid>)                        // it has searched and filtered
    | Syncing(todo: seq<uid>, current: seq<uid>)      // it has set the mark
    | PrimeAsked(uidNext: uid)                        // a prime has asked for UIDNEXT
    | PrimeSet(base: uid)                             // it has set the baseline
    | Backfilling(todo: seq<uid>, current: seq<uid>, base: uid, highest: uid)

  datatype System = System(last: uid, inFlight: set<uid>, tasks: seq<Task>, forwarded: seq<uid>, mailbox: Mailbox)

  datatype Move =
    | ReadMark | AskFirst | SetFirst | Search(found: seq<uid>) | SetMark | Take | Finish(ok: bool)
    | PrimeAsk | PrimeMark | PrimeSearch(found: seq<uid>) | BackfillTake | BackfillFinish(ok: bool) | BackfillStop
    | GiveUp                                          // a failed exchange, or nothing left to do

  datatype Event = Change(mailbox: Mailbox) | Go(t: nat, move: Move)

  /** The task may make this move; replies come from the mailbox as it is then. The search of a backfill has
      been cut to its maximum already. */
  predicate Ready(s: System, task: Task, m: Move) {
    match m
    case ReadMark => task.Idle?
    case AskFirst => task.HasRead? && task.start == 0
    case SetFirst => task.HasStatus?
    case Search(found) => task.HasRead? && task.start > 0 && AnswersSearch(s.mailbox, After(task.start), found)
    case SetMark => task.HasFound? && task.todo != []
    case Take => task.Syncing? && task.todo != [] && task.current == []
    case Finish(_) => task.Syncing? && |task.current| == 1
    case PrimeAsk => task.Idle?
    case PrimeMark => task.PrimeAsked?
    case PrimeSearch(found) => task.PrimeSet? && AnswersSince(s.mailbox, After(task.base), found)
    case BackfillTake => task.Backfilling? && task.todo != [] && task.current == []
    case BackfillFinish(_) => task.Backfilling? && |task.current| == 1
    case BackfillStop => task.Backfilling? && task.todo == [] && task.current == []
    case GiveUp =>
      task.HasRead? || task.PrimeSet? || (task.HasFound? && task.todo == [])
      || (task.Syncing? && task.todo == [] && task.current == [])
  }

  predicate Legal(s: System, e: Event) {
    match e
    case Change(mailbox) => Grown(s.mailbox, mailbox)
    case Go(t, m) => t < |s.tasks| && Ready(s, s.tasks[t], m)
  }

  /** The task after its move. */
  function NextTask(s: System, task: Task, m: Move): Task
    requires Ready(s, task, m)
  {
    match m
    case ReadMark => HasRead(s.last)
    case AskFirst => HasStatus(s.mailbox.uidNext)
    case SetFirst => Idle
    case Search(found) => HasFound(Newer(found, task.start))
    case SetMark => Syncing(task.todo, [])
    case Take =>
      if task.todo[0] in s.inFlight then Syncing(task.todo[1..], []) else Syncing(task.todo[1..], [task.todo[0]])
    case Finish(_) => Syncing(task.todo, [])
    case PrimeAsk => PrimeAsked(s.mailbox.uidNext)
    case PrimeMark => PrimeSet(Before(task.uidNext))
    case PrimeSearch(found) => Backfilling(Newer(found, task.base), [], task.base, task.base)
    case BackfillTake => task.(todo := task.todo[1..], current := [task.todo[0]])
    case BackfillFinish(ok) =>
      task.(current := [], highest := if ok && task.current[0] > task.highest then task.current[0] else task.highest)
    case BackfillStop => Idle
    case GiveUp => Idle
  }

  function NextLast(s: System, task: Task, m: Move): uid
    requires Ready(s, task, m)
  {
    match m
    case SetFirst => Before(task.uidNext)
    case SetMark => Highest(task.todo)
    case PrimeMark => Before(task.uidNext)
    case BackfillStop => if task.highest > task.base then task.highest else s.last
    case _ => s.last
  }

  function NextInFlight(s: System, task: Task, m: Move): set<uid>
    requires Ready(s, task, m)
  {
    match m
    case Take => s.inFlight + {task.todo[0]}
    case Finish(_) => s.inFlight - {task.current[0]}
    case _ => s.inFlight
  }

  function NextForwarded(s: System, task: Task, m: Move): seq<uid>
    requires Ready(s, task, m)
  {
    if (m.Finish? || m.BackfillFinish?) && m.ok then s.forwarded + [task.current[0]] else s.forwarded
  }

  function Step(s: System, e: Event): System
    requires Legal(s, e)
  {
    match e
    case Change(mailbox) => s.(mailbox := mailbox)
    case Go(t, m) =>
      var task := s.tasks[t];
      System(NextLast(s, task, m), NextInFlight(s, task, m), s.tasks[t := NextTask(s, task, m)],
             NextForwarded(s, task, m), s.mailbox)
  }

  predicate LegalRun(s: System, es: seq<Event>)
    decreases |es|
  {
    es == [] || (Legal(s, es[0]) && LegalRun(Step(s, es[0]), es[1..]))
  }

  function Run(s: System, es: seq<Event>): System
    requires LegalRun(s, es)
    decreases |es|
  {
    if es == [] then s else Run(Step(s, es[0]), es[1..])
  }

  /** `n` tasks with nothing under way, and a mark the mailbox has passed. */
  predicate Starting(s: System) {
    && s.inFlight == {} && s.forwarded == [] && SoundMailbox(s.mailbox) && s.last < s.mailbox.uidNext
    && forall t :: 0 <= t < |s.tasks| ==> s.tasks[t] == Idle
  }

  // ---- Any overlap: no two syncs process the same message at once -------------------------------------

  predicate Processes(s: System, t: nat, u: uid) {
    t < |s.tasks| && s.tasks[t].Syncing? && s.tasks[t].current == [u]
  }

  /** The messages in flight are exactly those a sync is processing, one sync each. */
  predicate Exclusive(s: System) {
    && (forall t :: 0 <= t < |s.tasks| && s.tasks[t].Syncing? ==> |s.tasks[t].current| <= 1)
    && (forall u :: u in s.inFlight ==> exists t :: 0 <= t < |s.tasks| && Processes(s, t, u))
    && (forall t, u: uid :: 0 <= t < |s.tasks| && Processes(s, t, u) ==> u in s.inFlight)
    && forall t, r, u: uid ::
         0 <= t < |s.tasks| && 0 <= r < |s.tasks| && Processes(s, t, u) && Processes(s, r, u) ==> t == r
  }

  /** A step that leaves what syncs process alone. */
  lemma UnrelatedStep(s: System, s': System, t: nat, task: Task)
    requires Exclusive(s) && t < |s.tasks| && s'.inFlight == s.inFlight
    requires s'.tasks == s.tasks[t := task] && (task.Syncing? ==> task.current == [])
    requires s.tasks[t].Syncing? ==> s.tasks[t].current == []
    ensures Exclusive(s')
  {
    forall r: nat, u: uid ensures Processes(s', r, u) <==> Processes(s, r, u) {
    }
  }

  lemma TakeKeeps(s: System, t: nat)
    requires Exclusive(s) && Legal(s, Go(t, Take))
    ensures Exclusive(Step(s, Go(t, Take)))
  {
    var s' := Step(s, Go(t, Take));
    var u := s.tasks[t].todo[0];
    if u in s.inFlight {
      assert s'.inFlight == s.inFlight;
      UnrelatedStep(s, s', t, Syncing(s.tasks[t].todo[1..], []));
    } else {
      forall r: nat, v: uid ensures Processes(s', r, v) <==> if r == t then v == u else Processes(s, r, v) {
      }
      forall v | v in s'.inFlight ensures exists r :: 0 <= r < |s'.tasks| && Processes(s', r, v) {
        if v == u {
          assert Processes(s', t, v);
        } else {
          var r :| 0 <= r < |s.tasks| && Processes(s, r, v);
          assert r != t && Processes(s', r, v);
        }
      }
    }
  }

  lemma FinishKeeps(s: System, t: nat, ok: bool)
    requires Exclusive(s) && Legal(s, Go(t, Finish(ok)))
    ensures Exclusive(Step(s, Go(t, Finish(ok))))
  {
    var s' := Step(s, Go(t, Finish(ok)));
    var u := s.tasks[t].current[0];
    assert s.tasks[t].current == [u];
    assert Processes(s, t, u);
    forall r: nat, v: uid ensures Processes(s', r, v) <==> r != t && Processes(s, r, v) {
    }
    forall v | v in s'.inFlight ensures exists r :: 0 <= r < |s'.tasks| && Processes(s', r, v) {
      var r :| 0 <= r < |s.tasks| && Processes(s, r, v);
      assert Processes(s', r, v);
    }
  }

  lemma StepKeeps(s: System, e: Event)
    requires Exclusive(s) && Legal(s, e)
    ensures Exclusive(Step(s, e))
  {
    match e
    case Change(_) =>
      forall r: nat, u: uid ensures Processes(Step(s, e), r, u) <==> Processes(s, r, u) {
      }
    case Go(t, m) =>
      match m
      case Take => TakeKeeps(s, t);
      case Finish(ok) => FinishKeeps(s, t, ok);
      case _ => UnrelatedStep(s, Step(s, e), t, Step(s, e).tasks[t]);
  }

  lemma {:induction false} RunKeeps(s: System, es: seq<Event>)
    requires Exclusive(s) && LegalRun(s, es)
    ensures Exclusive(Run(s, es))
    decreases |es|
  {
    if es != [] {
      StepKeeps(s, es[0]);
      RunKeeps(Step(s, es[0]), es[1..]);
    }
  }

  /** However syncs and primes overlap, no two syncs process the same message at once, and a sync passes over
      a message exactly when another sync is processing it. */
  lemma OneSyncPerMessage(start: System, es: seq<Event>, t: nat, u: uid)
    requires Starting(start) && LegalRun(start, es)
    ensures var s := Run(start, es);
            && (forall r :: 0 <= r < |s.tasks| && Processes(s, t, u) && Processes(s, r, u) ==> t == r)
            && (u in s.inFlight <==> exists r :: 0 <= r < |s.tasks| && Processes(s, r, u))
  {
    RunKeeps(start, es);
  }

  // ---- Overlap that spares the windows ----------------------------------------------------------------

  /** The task has looked at the mark, or at UIDNEXT, and may still write a mark. */
  predicate InWindow(task: Task) {
    match task
    case Idle => false
    case HasRead(_) => true
    case HasStatus(_) => true
    case HasFound(todo) => todo != []
    case Syncing(_, _) => false
    case PrimeAsked(_) => true
    case PrimeSet(_) => true
    case Backfilling(todo, current, base, highest) => todo != [] || current != [] || highest > base
  }

  predicate Begins(m: Move) {
    m.ReadMark? || m.PrimeAsk?
  }

  /** No other task is in its window when one begins. */
  predicate Guarded(s: System, e: Event) {
    e.Go? && Begins(e.move) ==> forall r :: 0 <= r < |s.tasks| && r != e.t ==> !InWindow(s.tasks[r])
  }

  predicate GuardedRun(s: System, es: seq<Event>)
    requires LegalRun(s, es)
    decreases |es|
  {
    es == [] || (Guarded(s, es[0]) && GuardedRun(Step(s, es[0]), es[1..]))
  }

  /** The messages a task has in process or before it. */
  function Pending(task: Task): seq<uid> {
    if task.Syncing? || task.Backfilling? then task.current + task.todo else []
  }

  /** A task in its window has seen the mark as it still is; a sync after its window is below the mark. */
  predicate InOrder(s: System, task: Task) {
    match task
    case Idle => true
    case HasRead(start) => start == s.last
    case HasStatus(n) => s.last < n <= s.mailbox.uidNext
    case HasFound(todo) => NoRepeats(todo) && forall u :: u in todo ==> s.last < u < s.mailbox.uidNext
    case Syncing(todo, current) => NoRepeats(current + todo) && forall u :: u in current + todo ==> u <= s.last
    case PrimeAsked(n) => s.last < n <= s.mailbox.uidNext
    case PrimeSet(base) => base == s.last
    case Backfilling(todo, current, base, highest) =>
      && (InWindow(task) ==> base == s.last) && base <= highest < s.mailbox.uidNext && |current| <= 1
      && NoRepeats(current + todo) && forall u :: u in current + todo ==> base < u < s.mailbox.uidNext
  }

  /** How far a task vouches for what was forwarded. */
  predicate Reached(s: System, u: uid) {
    u <= s.last || exists t :: 0 <= t < |s.tasks| && s.tasks[t].Backfilling? && u <= s.tasks[t].highest
                               && InWindow(s.tasks[t])
  }

  predicate Orderly(s: System) {
    && SoundMailbox(s.mailbox) && s.last < s.mailbox.uidNext
    && (forall t, r :: 0 <= t < r < |s.tasks| ==> !(InWindow(s.tasks[t]) && InWindow(s.tasks[r])))
    && (forall t :: 0 <= t < |s.tasks| ==> InOrder(s, s.tasks[t]))
    && NoRepeats(s.forwarded) && (forall u :: u in s.forwarded ==> Reached(s, u))
    && (forall t, u :: 0 <= t < |s.tasks| && u in Pending(s.tasks[t]) ==> u !in s.forwarded)
    && (forall t, r, u :: 0 <= t < r < |s.tasks| && u in Pending(s.tasks[t]) ==> u !in Pending(s.tasks[r]))
  }

  /** What a move must do to keep order: its task is in order afterwards, takes up nothing that another task
      has or that was forwarded, and moves the mark up and only while no other task is in its window. */
  predicate KeepsOrder(s: System, s': System, t: nat)
    requires t < |s.tasks| && |s'.tasks| == |s.tasks|
  {
    && s'.mailbox == s.mailbox && s'.tasks == s.tasks[t := s'.tasks[t]]
    && s.last <= s'.last < s.mailbox.uidNext
    && InOrder(s', s'.tasks[t])
    && (InWindow(s'.tasks[t]) || s'.last != s.last ==> OthersOut(s, t))
    && (forall u :: u in Pending(s'.tasks[t]) ==> u in Pending(s.tasks[t]) || Unseen(s, u))
  }

  predicate OthersOut(s: System, t: nat) {
    forall r :: 0 <= r < |s.tasks| && r != t ==> !InWindow(s.tasks[r])
  }

  predicate Unseen(s: System, u: uid) {
    u !in s.forwarded && forall r :: 0 <= r < |s.tasks| ==> u !in Pending(s.tasks[r])
  }

  /** The move forwards nothing, or one message its task is done with. */
  predicate ForwardsOwn(s: System, s': System, t: nat)
    requires t < |s.tasks| && t < |s'.tasks|
  {
    s'.forwarded == s.forwarded
    || exists u :: u in Pending(s.tasks[t]) && u !in Pending(s'.tasks[t]) && s'.forwarded == s.forwarded + [u]
  }

  lemma OthersInOrder(s: System, s': System, t: nat, r: nat)
    requires Orderly(s) && t < |s.tasks| && |s'.tasks| == |s.tasks| && KeepsOrder(s, s', t)
    requires r < |s.tasks| && r != t
    ensures s'.tasks[r] == s.tasks[r] && InOrder(s', s'.tasks[r])
  {
    assert InOrder(s, s.tasks[r]);
  }

  lemma WindowsApart(s: System, s': System, t: nat)
    requires Orderly(s) && t < |s.tasks| && |s'.tasks| == |s.tasks| && KeepsOrder(s, s', t)
    ensures forall q, r :: 0 <= q < r < |s'.tasks| ==> !(InWindow(s'.tasks[q]) && InWindow(s'.tasks[r]))
  {
  }

  lemma PendingApart(s: System, s': System, t: nat)
    requires Orderly(s) && t < |s.tasks| && |s'.tasks| == |s.tasks| && KeepsOrder(s, s', t)
    ensures forall q, r, u :: 0 <= q < r < |s'.tasks| && u in Pending(s'.tasks[q]) ==> u !in Pending(s'.tasks[r])
  {
    forall q, r, u | 0 <= q < r < |s'.tasks| && u in Pending(s'.tasks[q]) ensures u !in Pending(s'.tasks[r]) {
      assert q != t ==> s'.tasks[q] == s.tasks[q];
      assert r != t ==> s'.tasks[r] == s.tasks[r];
    }
  }

  lemma ForwardedOnce(s: System, s': System, t: nat)
    requires Orderly(s) && t < |s.tasks| && |s'.tasks| == |s.tasks| && KeepsOrder(s, s', t) && ForwardsOwn(s, s', t)
    ensures NoRepeats(s'.forwarded)
    ensures forall r, u :: 0 <= r < |s'.tasks| && u in Pending(s'.tasks[r]) ==> u !in s'.forwarded
  {
    if s'.forwarded != s.forwarded {
      var v :| v in Pending(s.tasks[t]) && v !in Pending(s'.tasks[t]) && s'.forwarded == s.forwarded + [v];
      AppendNew(s.forwarded, v);
    }
    forall r, u | 0 <= r < |s'.tasks| && u in Pending(s'.tasks[r]) ensures u !in s'.forwarded {
      assert r != t ==> s'.tasks[r] == s.tasks[r];
      if s'.forwarded != s.forwarded {
        var v :| v in Pending(s.tasks[t]) && v !in Pending(s'.tasks[t]) && s'.forwarded == s.forwarded + [v];
      }
    }
  }

  lemma OrderKept(s: System, s': System, t: nat)
    requires Orderly(s) && t < |s.tasks| && |s'.tasks| == |s.tasks| && KeepsOrder(s, s', t) && ForwardsOwn(s, s', t)
    requires forall u :: u in s'.forwarded ==> Reached(s', u)
    ensures Orderly(s')
  {
    WindowsApart(s, s', t);
    PendingApart(s, s', t);
    ForwardedOnce(s, s', t);
    forall r | 0 <= r < |s'.tasks| ensures InOrder(s', s'.tasks[r]) {
      if r != t { OthersInOrder(s, s', t, r); }
    }
  }

  lemma AppendNew(uids: seq<uid>, u: uid)
    requires NoRepeats(uids) && u !in uids
    ensures NoRepeats(uids + [u])
  {
  }

  /** What was forwarded stays vouched for unless a backfill that vouches for it leaves its window. */
  lemma StillReached(s: System, s': System, t: nat)
    requires Orderly(s) && t < |s.tasks| && |s'.tasks| == |s.tasks| && s'.tasks == s.tasks[t := s'.tasks[t]]
    requires s.last <= s'.last
    requires s.tasks[t].Backfilling? && InWindow(s.tasks[t]) && s.tasks[t].highest > s.last ==>
               || s'.last >= s.tasks[t].highest
               || (s'.tasks[t].Backfilling? && InWindow(s'.tasks[t]) && s'.tasks[t].highest >= s.tasks[t].highest)
    ensures forall u :: u in s.forwarded ==> Reached(s', u)
  {
    forall u | u in s.forwarded ensures Reached(s', u) {
      assert Reached(s, u);
      if u > s.last {
        var r :| 0 <= r < |s.tasks| && s.tasks[r].Backfilling? && u <= s.tasks[r].highest && InWindow(s.tasks[r]);
        if r != t { assert s'.tasks[r] == s.tasks[r]; }
      }
    }
  }

  /** Moves that only look: at the mark, at UIDNEXT, or in the mailbox. */
  lemma LookingKeepsOrder(s: System, t: nat, m: Move)
    requires Orderly(s) && Legal(s, Go(t, m)) && Guarded(s, Go(t, m))
    requires m.ReadMark? || m.AskFirst? || m.Search? || m.PrimeAsk? || m.PrimeSearch? || m.GiveUp?
    ensures Orderly(Step(s, Go(t, m)))
  {
    var s' := Step(s, Go(t, m));
    var task := s.tasks[t];
    assert InOrder(s, task);
    if m.Search? { NewerFound(s.mailbox, task.start, m.found); }
    if m.PrimeSearch? {
      NewerFound(s.mailbox, task.base, m.found);
      assert [] + Newer(m.found, task.base) == Newer(m.found, task.base);
      AboveIsUnseen(s, t);
    }
    assert InOrder(s', s'.tasks[t]);
    StillReached(s, s', t);
    OrderKept(s, s', t);
  }

  /** While a task that is in its window does not backfill, nothing above the mark has been taken up. */
  lemma AboveIsUnseen(s: System, t: nat)
    requires Orderly(s) && t < |s.tasks| && InWindow(s.tasks[t]) && !s.tasks[t].Backfilling?
    ensures forall u: uid :: u > s.last ==> Unseen(s, u)
  {
    forall u: uid | u > s.last ensures Unseen(s, u) {
      assert u in s.forwarded ==> Reached(s, u);
      forall r | 0 <= r < |s.tasks| ensures u !in Pending(s.tasks[r]) {
        assert InOrder(s, s.tasks[r]);
        if r != t { assert !InWindow(s.tasks[r]); }
      }
    }
  }

  lemma SetMarkKeepsOrder(s: System, t: nat)
    requires Orderly(s) && Legal(s, Go(t, SetMark))
    ensures Orderly(Step(s, Go(t, SetMark))) && s.last <= Step(s, Go(t, SetMark)).last
  {
    var s' := Step(s, Go(t, SetMark));
    var task := s.tasks[t];
    assert InOrder(s, task);
    HighestIs(task.todo);
    AboveIsUnseen(s, t);
    assert Pending(s'.tasks[t]) == task.todo;
    assert InOrder(s', s'.tasks[t]);
    StillReached(s, s', t);
    OrderKept(s, s', t);
  }

  /** The other moves that write the mark. */
  lemma MarkingKeepsOrder(s: System, t: nat, m: Move)
    requires Orderly(s) && Legal(s, Go(t, m)) && (m.SetFirst? || m.PrimeMark? || m.BackfillStop?)
    ensures Orderly(Step(s, Go(t, m))) && s.last <= Step(s, Go(t, m)).last
  {
    var s' := Step(s, Go(t, m));
    assert InOrder(s, s.tasks[t]);
    assert InOrder(s', s'.tasks[t]);
    StillReached(s, s', t);
    OrderKept(s, s', t);
  }

  lemma TakeKeepsOrder(s: System, t: nat)
    requires Orderly(s) && Legal(s, Go(t, Take))
    ensures Orderly(Step(s, Go(t, Take)))
  {
    var s' := Step(s, Go(t, Take));
    var task := s.tasks[t];
    var u, rest := task.todo[0], task.todo[1..];
    assert InOrder(s, task);
    assert Pending(task) == [u] + rest;
    AloneAtFront(u, rest);
    assert s'.tasks[t] == Syncing(rest, [u]) || s'.tasks[t] == Syncing(rest, []);
    assert Pending(s'.tasks[t]) == [u] + rest || Pending(s'.tasks[t]) == rest;
    StillReached(s, s', t);
    OrderKept(s, s', t);
  }

  lemma BackfillTakeKeepsOrder(s: System, t: nat)
    requires Orderly(s) && Legal(s, Go(t, BackfillTake))
    ensures Orderly(Step(s, Go(t, BackfillTake)))
  {
    var s' := Step(s, Go(t, BackfillTake));
    var task := s.tasks[t];
    assert InOrder(s, task);
    assert Pending(task) == task.todo == [task.todo[0]] + task.todo[1..];
    assert Pending(s'.tasks[t]) == Pending(task);
    StillReached(s, s', t);
    OrderKept(s, s', t);
  }

  lemma FinishingKeepsOrder(s: System, t: nat, m: Move)
    requires Orderly(s) && Legal(s, Go(t, m)) && (m.Finish? || m.BackfillFinish?)
    ensures Orderly(Step(s, Go(t, m)))
  {
    var s' := Step(s, Go(t, m));
    var task := s.tasks[t];
    var u := task.current[0];
    assert InOrder(s, task);
    assert Pending(task) == [u] + task.todo;
    assert Pending(s'.tasks[t]) == task.todo;
    AloneAtFront(u, task.todo);
    assert u in Pending(task) && u !in Pending(s'.tasks[t]);
    assert InOrder(s', s'.tasks[t]);
    StillReached(s, s', t);
    OrderKept(s, s', t);
  }

  lemma AloneAtFront(u: uid, rest: seq<uid>)
    requires NoRepeats([u] + rest)
    ensures u !in rest && NoRepeats(rest) && forall v :: v in rest ==> v in [u] + rest
  {
    forall v | v in rest ensures v != u {
      var i :| 0 <= i < |rest| && rest[i] == v;
      assert ([u] + rest)[0] == u && ([u] + rest)[i + 1] == v;
    }
    forall i, j | 0 <= i < j < |rest| ensures rest[i] != rest[j] {
      assert ([u] + rest)[i + 1] == rest[i] && ([u] + rest)[j + 1] == rest[j];
    }
  }

  lemma StepOrderly(s: System, e: Event)
    requires Orderly(s) && Legal(s, e) && Guarded(s, e)
    ensures Orderly(Step(s, e)) && s.last <= Step(s, e).last
  {
    match e
    case Change(_) =>
      forall t | 0 <= t < |s.tasks| ensures InOrder(Step(s, e), s.tasks[t]) { assert InOrder(s, s.tasks[t]); }
    case Go(t, m) =>
      if m.SetMark? {
        SetMarkKeepsOrder(s, t);
      } else if m.SetFirst? || m.PrimeMark? || m.BackfillStop? {
        MarkingKeepsOrder(s, t, m);
      } else if m.Take? {
        TakeKeepsOrder(s, t);
      } else if m.BackfillTake? {
        BackfillTakeKeepsOrder(s, t);
      } else if m.Finish? || m.BackfillFinish? {
        FinishingKeepsOrder(s, t, m);
      } else {
        LookingKeepsOrder(s, t, m);
      }
  }

  /** The mark never goes back in the run, and nothing has been forwarded twice in the end. */
  predicate Harmless(s: System, es: seq<Event>)
    requires LegalRun(s, es)
    decreases |es|
  {
    if es == [] then NoRepeats(s.forwarded)
    else s.last <= Step(s, es[0]).last && Harmless(Step(s, es[0]), es[1..])
  }

  lemma {:induction false} GuardedIsHarmless(s: System, es: seq<Event>)
    requires Orderly(s) && LegalRun(s, es) && GuardedRun(s, es)
    ensures Orderly(Run(s, es)) && Harmless(s, es)
    decreases |es|
  {
    if es != [] {
      StepOrderly(s, es[0]);
      GuardedIsHarmless(Step(s, es[0]), es[1..]);
    }
  }

  /** Syncs and primes may overlap in all their processing: as long as none begins while another is in its
      window, the mark never goes back, nothing is forwarded twice, and no message, be it of a sync or of a
      backfill, is in process twice at once. */
  lemma OverlapOutsideWindowsIsHarmless(start: System, es: seq<Event>)
    requires Starting(start) && LegalRun(start, es) && GuardedRun(start, es)
    ensures Harmless(start, es)
    ensures var s := Run(start, es);
            forall t, r, u :: 0 <= t < r < |s.tasks| && u in Pending(s.tasks[t]) ==> u !in Pending(s.tasks[r])
  {
    GuardedIsHarmless(start, es);
  }
}
