/** How the IMAP client keeps track of the messages of one mailbox by their UIDs. */
module ImapSync {
  import opened Wrappers

  const UID_RANGE := 0x1_0000_0000

  /** A 32-bit UID; 0 stands for "nothing seen yet". */
  type uid = u: int | 0 <= u < UID_RANGE

  /** `n - 1` and `n + 1` wrap around. */
  function Before(n: uid): uid {
    if n == 0 then UID_RANGE - 1 else n - 1
  }

  function After(n: uid): uid {
    if n == UID_RANGE - 1 then 0 else n + 1
  }

  /** One call to process a message, and whether it succeeded. */
  datatype Attempt = Attempt(uid: uid, ok: bool)

  datatype Outcome = Outcome(last: uid, attempts: seq<Attempt>, ok: bool)

  function Newer(found: seq<uid>, last: uid): seq<uid> {
    if found == [] then []
    else Newer(found[..|found| - 1], last) + (if found[|found| - 1] > last then [found[|found| - 1]] else [])
  }

  function Highest(uids: seq<uid>): uid
    requires uids != []
  {
    if |uids| == 1 then uids[0]
    else
      var h := Highest(uids[..|uids| - 1]);
      if uids[|uids| - 1] > h then uids[|uids| - 1] else h
  }

  lemma {:induction false} HighestIs(uids: seq<uid>)
    requires uids != []
    ensures Highest(uids) in uids && forall u :: u in uids ==> u <= Highest(uids)
  {
    var front, last := uids[..|uids| - 1], uids[|uids| - 1];
    assert uids == front + [last];
    if front != [] { HighestIs(front); }
  }

  /** Messages are processed in order, except those in flight elsewhere. */
  function Processed(uids: seq<uid>, inFlight: set<uid>, works: uid -> bool): seq<Attempt> {
    if uids == [] then []
    else
      var u := uids[|uids| - 1];
      Processed(uids[..|uids| - 1], inFlight, works) + (if u in inFlight then [] else [Attempt(u, works(u))])
  }

  /** checkNewMessagesFor: `status` is the reply to STATUS (UIDNEXT), `search` that to UID SEARCH. */
  function Synced(last: uid, inFlight: set<uid>, status: Option<uid>, search: Option<seq<uid>>,
                  works: uid -> bool): Outcome
  {
    if last == 0 then
      match status
      case None => Outcome(last, [], false)
      case Some(uidNext) => Outcome(Before(uidNext), [], true)
    else
      match search
      case None => Outcome(last, [], false)
      case Some(found) =>
        var todo := Newer(found, last);
        if todo == [] then Outcome(last, [], true)
        else Outcome(Highest(todo), Processed(todo, inFlight, works), true)
  }

  /** The startup backfill's settings. */
  datatype Backfill = Backfill(seconds: int, max: int)

  function LastFew(found: seq<uid>, max: int): seq<uid> {
    if 0 <= max < |found| then found[|found| - max..] else found
  }

  /** The highest of `base` and the UIDs that were processed. */
  function HighestDone(base: uid, attempts: seq<Attempt>): (h: uid)
    ensures base <= h
  {
    if attempts == [] then base
    else
      var h := HighestDone(base, attempts[..|attempts| - 1]);
      var a := attempts[|attempts| - 1];
      if a.ok && a.uid > h then a.uid else h
  }

  /** primeBaselineAndBackfillFor. */
  function Primed(last: uid, status: Option<uid>, backfill: Backfill, search: Option<seq<uid>>,
                  works: uid -> bool): Outcome
  {
    match status
    case None => Outcome(last, [], false)
    case Some(uidNext) =>
      var base := Before(uidNext);
      if backfill.seconds <= 0 || backfill.max <= 0 then Outcome(base, [], true)
      else
        match search
        case None => Outcome(base, [], false)
        case Some(found) =>
          var attempts := Processed(Newer(LastFew(found, backfill.max), base), {}, works);
          Outcome(HighestDone(base, attempts), attempts, true)
  }

  class MailboxTracker {
    var lastUID: uid
    var inFlight: set<uid>

    constructor ()
      ensures lastUID == 0 && inFlight == {}
    {
      lastUID := 0;
      inFlight := {};
    }

    method StartUID(u: uid) returns (acquired: bool)
      modifies this`inFlight
      ensures acquired == (u !in old(inFlight))
      ensures inFlight == old(inFlight) + {u}
    {
      if u in inFlight { return false; }
      inFlight := inFlight + {u};
      return true;
    }

    method EndUID(u: uid)
      modifies this`inFlight
      ensures inFlight == old(inFlight) - {u}
    {
      inFlight := inFlight - {u};
    }

    method CheckNewMessages(status: Option<uid>, search: Option<seq<uid>>, works: uid -> bool)
      returns (ok: bool, attempts: seq<Attempt>)
      modifies this
      ensures Outcome(lastUID, attempts, ok) == Synced(old(lastUID), old(inFlight), status, search, works)
      ensures inFlight == old(inFlight)
    {
      attempts := [];
      var last := lastUID;
      if last == 0 {
        if status.None? { return false, []; }
        lastUID := Before(status.value);
        return true, [];
      }
      if search.None? { return false, []; }
      var found := search.value;
      var todo: seq<uid> := [];
      for i := 0 to |found|
        invariant todo == Newer(found[..i], last)
        invariant lastUID == last && inFlight == old(inFlight)
      {
        assert found[..i + 1][..i] == found[..i];
        if found[i] > last { todo := todo + [found[i]]; }
      }
      assert found[..|found|] == found;
      if todo == [] { return true, []; }
      lastUID := FindHighest(todo);
      attempts := ProcessAll(todo, works);
      ok := true;
    }

    method ProcessAll(todo: seq<uid>, works: uid -> bool) returns (attempts: seq<Attempt>)
      modifies this`inFlight
      ensures attempts == Processed(todo, old(inFlight), works)
      ensures inFlight == old(inFlight)
    {
      attempts := [];
      for i := 0 to |todo|
        invariant attempts == Processed(todo[..i], old(inFlight), works)
        invariant inFlight == old(inFlight)
      {
        assert todo[..i + 1][..i] == todo[..i];
        var acquired := StartUID(todo[i]);
        if acquired {
          attempts := attempts + [Attempt(todo[i], works(todo[i]))];
          EndUID(todo[i]);
        }
      }
      assert todo[..|todo|] == todo;
    }

    method PrimeBaselineAndBackfill(status: Option<uid>, backfill: Backfill, search: Option<seq<uid>>,
                                    works: uid -> bool)
      returns (ok: bool, attempts: seq<Attempt>)
      modifies this`lastUID
      ensures Outcome(lastUID, attempts, ok) == Primed(old(lastUID), status, backfill, search, works)
    {
      attempts := [];
      if status.None? { return false, []; }
      var base := Before(status.value);
      lastUID := base;
      if backfill.seconds <= 0 || backfill.max <= 0 { return true, []; }
      if search.None? { return false, []; }
      var uids := search.value;
      if uids == [] {
        assert Processed(Newer(LastFew(uids, backfill.max), base), {}, works) == [];
        return true, [];
      }
      if |uids| > backfill.max { uids := uids[|uids| - backfill.max..]; }
      var highest;
      highest, attempts := BackfillEach(uids, base, works);
      if highest > base { lastUID := highest; }
      ok := true;
    }
  }

  method BackfillEach(uids: seq<uid>, base: uid, works: uid -> bool) returns (highest: uid, attempts: seq<Attempt>)
    ensures attempts == Processed(Newer(uids, base), {}, works)
    ensures highest == HighestDone(base, attempts)
  {
    highest, attempts := base, [];
    for i := 0 to |uids|
      invariant attempts == Processed(Newer(uids[..i], base), {}, works)
      invariant highest == HighestDone(base, attempts)
    {
      assert uids[..i + 1][..i] == uids[..i];
      var u := uids[i];
      if u <= base {
        assert Newer(uids[..i + 1], base) == Newer(uids[..i], base) + [] == Newer(uids[..i], base);
        continue;
      }
      assert Newer(uids[..i + 1], base) == Newer(uids[..i], base) + [u];
      ProcessedNext(Newer(uids[..i], base), u, works);
      HighestDoneNext(base, attempts, Attempt(u, works(u)));
      attempts := attempts + [Attempt(u, works(u))];
      if !works(u) { continue; }
      if u > highest { highest := u; }
    }
    assert uids[..|uids|] == uids;
  }

  lemma ProcessedNext(uids: seq<uid>, u: uid, works: uid -> bool)
    ensures Processed(uids + [u], {}, works) == Processed(uids, {}, works) + [Attempt(u, works(u))]
  {
    assert (uids + [u])[..|uids|] == uids;
  }

  lemma HighestDoneNext(base: uid, attempts: seq<Attempt>, a: Attempt)
    ensures var h := HighestDone(base, attempts);
            HighestDone(base, attempts + [a]) == if a.ok && a.uid > h then a.uid else h
  {
    assert (attempts + [a])[..|attempts|] == attempts;
  }

  method FindHighest(uids: seq<uid>) returns (h: uid)
    requires uids != []
    ensures h == Highest(uids)
  {
    h := uids[0];
    for i := 1 to |uids|
      invariant h == Highest(uids[..i])
    {
      assert uids[..i + 1][..i] == uids[..i];
      if uids[i] > h { h := uids[i]; }
    }
    assert uids[..|uids|] == uids;
  }
}
