/** A mailbox whose UIDVALIDITY stays the same (section 2.3.1.1 of RFC 3501): UIDs only go up, messages arrive
    and are expunged at any time. */
module ImapServer {
  import opened ImapSync

  datatype Mailbox = Mailbox(present: set<uid>, uidNext: uid)

  predicate SoundMailbox(m: Mailbox) {
    m.uidNext >= 1 && forall u :: u in m.present ==> 1 <= u < m.uidNext
  }

  /** Messages have arrived and have been expunged. */
  predicate Grown(m: Mailbox, n: Mailbox) {
    SoundMailbox(n) && m.uidNext <= n.uidNext && forall u :: u in n.present ==> u in m.present || u >= m.uidNext
  }

  predicate NoRepeats<T(==)>(s: seq<T>) {
    forall i, j :: 0 <= i < j < |s| ==> s[i] != s[j]
  }

  /** The range "from:*" always holds the last message (section 6.4.8 of RFC 3501). */
  predicate InRange(m: Mailbox, from: uid, u: uid) {
    u in m.present && (u >= from || forall v :: v in m.present ==> v <= u)
  }

  predicate AnswersSearch(m: Mailbox, from: uid, found: seq<uid>) {
    NoRepeats(found) && forall u: uid :: u in found <==> InRange(m, from, u)
  }

  /** A search that also asks for a date finds some of the range. */
  predicate AnswersSince(m: Mailbox, from: uid, found: seq<uid>) {
    NoRepeats(found) && forall u :: u in found ==> InRange(m, from, u)
  }

  lemma {:induction false} NewerIs(found: seq<uid>, last: uid)
    requires NoRepeats(found)
    ensures NoRepeats(Newer(found, last))
    ensures forall u: uid :: u in Newer(found, last) <==> u in found && u > last
  {
    if found != [] {
      var front, u := found[..|found| - 1], found[|found| - 1];
      NewerIs(front, last);
      assert found == front + [u];
      assert u !in front;
    }
  }

  /** Only messages above `last` are new: what "from:*" finds besides is filtered out. */
  lemma NewerFound(m: Mailbox, last: uid, found: seq<uid>)
    requires SoundMailbox(m) && last < m.uidNext && AnswersSince(m, After(last), found)
    ensures NoRepeats(Newer(found, last)) && forall u :: u in Newer(found, last) ==> last < u < m.uidNext
  {
    NewerIs(found, last);
  }
}
