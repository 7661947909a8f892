/** Polling the Gmail history: what one tick collects and how the cursor moves. */
module GmailPoller {
  import opened Text
  import opened Wrappers

  // ---- History records -------------------------------------------------------------------------------

  datatype Message = Message(id: string, labels: seq<string>)

  datatype LabelAddition = LabelAddition(message: Message, labels: seq<string>)

  /** A history record. An entry without a message is `None`. */
  datatype Record = Record(id: nat, added: seq<Option<Message>>, labeled: seq<Option<LabelAddition>>)

  datatype Change = Added(message: Message) | Labeled(message: Message, labels: seq<string>)

  datatype Page = Page(historyId: nat, records: seq<Record>)

  /** How history.list and its pages answer; an incomplete listing failed after the given pages. */
  datatype Reply =
    | Unavailable
    | ListFailed
    | Expired(profile: Option<nat>)
    | Pages(pages: seq<Page>, complete: bool)

  predicate EqualFold(a: string, b: string) {
    ToLower(a) == ToLower(b)
  }

  predicate HasLabel(labels: seq<string>, target: string) {
    exists i :: 0 <= i < |labels| && EqualFold(labels[i], target)
  }

  predicate AnyLabelMatches(a: seq<string>, b: seq<string>) {
    exists i :: 0 <= i < |a| && HasLabel(b, a[i])
  }

  function PrimaryLabel(labels: seq<string>, monitored: seq<string>): string {
    FirstSystem(labels, FirstMonitored(labels, monitored, if monitored != [] then monitored[0] else ""))
  }

  function FirstSystem(labels: seq<string>, otherwise: string): string {
    if labels == [] then otherwise
    else if EqualFold(labels[0], "SENT") then "SENT"
    else if EqualFold(labels[0], "INBOX") then "INBOX"
    else FirstSystem(labels[1..], otherwise)
  }

  function FirstMonitored(labels: seq<string>, monitored: seq<string>, otherwise: string): string {
    if labels == [] then otherwise
    else if HasLabel(monitored, labels[0]) then labels[0]
    else FirstMonitored(labels[1..], monitored, otherwise)
  }

  predicate IsSystem(name: string) {
    EqualFold(name, "SENT") || EqualFold(name, "INBOX")
  }

  /** A message is named by the first of its labels that says sent or inbox, in any letter case. */
  lemma {:induction false} SystemLabelNames(labels: seq<string>, monitored: seq<string>, k: nat)
    requires k < |labels| && IsSystem(labels[k]) && forall i :: 0 <= i < k ==> !IsSystem(labels[i])
    ensures PrimaryLabel(labels, monitored) == if ToLower(labels[k]) == "sent" then "SENT" else "INBOX"
  {
    FirstSystemIs(labels, FirstMonitored(labels, monitored, if monitored != [] then monitored[0] else ""), k);
    LowerNames();
  }

  lemma LowerNames()
    ensures ToLower("SENT") == "sent" && ToLower("INBOX") == "inbox" && ToLower("DRAFT") == "draft"
  {
  }

  lemma {:induction false} FirstSystemIs(labels: seq<string>, otherwise: string, k: nat)
    requires k <= |labels| && forall i :: 0 <= i < k ==> !IsSystem(labels[i])
    requires k < |labels| ==> IsSystem(labels[k])
    ensures FirstSystem(labels, otherwise)
         == if k == |labels| then otherwise else if EqualFold(labels[k], "SENT") then "SENT" else "INBOX"
  {
    if k > 0 { FirstSystemIs(labels[1..], otherwise, k - 1); }
  }

  lemma {:induction false} FirstMonitoredIs(labels: seq<string>, monitored: seq<string>, otherwise: string, k: nat)
    requires k <= |labels| && forall i :: 0 <= i < k ==> !HasLabel(monitored, labels[i])
    requires k < |labels| ==> HasLabel(monitored, labels[k])
    ensures FirstMonitored(labels, monitored, otherwise) == if k == |labels| then otherwise else labels[k]
  {
    if k > 0 { FirstMonitoredIs(labels[1..], monitored, otherwise, k - 1); }
  }

  /** Else by the first of its labels that is monitored, or by the first monitored label if it has none of them. */
  lemma OtherLabelNames(labels: seq<string>, monitored: seq<string>, k: nat)
    requires k <= |labels| && forall i :: 0 <= i < |labels| ==> !IsSystem(labels[i])
    requires forall i :: 0 <= i < k ==> !HasLabel(monitored, labels[i])
    requires k < |labels| ==> HasLabel(monitored, labels[k])
    ensures PrimaryLabel(labels, monitored)
         == if k < |labels| then labels[k] else if monitored != [] then monitored[0] else ""
  {
    var otherwise := if monitored != [] then monitored[0] else "";
    FirstMonitoredIs(labels, monitored, otherwise, k);
    FirstSystemIs(labels, FirstMonitored(labels, monitored, otherwise), |labels|);
  }

  // ---- What a tick collects --------------------------------------------------------------------------

  type Batch = map<string, string>

  predicate IsMail(m: Message) {
    m.id != "" && !HasLabel(m.labels, "DRAFT")
  }

  function Collect(b: Batch, c: Change, monitored: seq<string>): Batch {
    match c
    case Added(m) => if IsMail(m) then b[m.id := PrimaryLabel(m.labels, monitored)] else b
    case Labeled(m, labels) =>
      if IsMail(m) && AnyLabelMatches(labels, monitored) && m.id !in b
      then b[m.id := PrimaryLabel(m.labels, monitored)] else b
  }

  function Collected(cs: seq<Change>, monitored: seq<string>): Batch {
    if cs == [] then map[] else Collect(Collected(cs[..|cs| - 1], monitored), cs[|cs| - 1], monitored)
  }

  function AddedIn(entries: seq<Option<Message>>): seq<Change> {
    if entries == [] then []
    else
      var e := entries[|entries| - 1];
      AddedIn(entries[..|entries| - 1]) + (if e.Some? then [Added(e.value)] else [])
  }

  function LabeledIn(entries: seq<Option<LabelAddition>>): seq<Change> {
    if entries == [] then []
    else
      var e := entries[|entries| - 1];
      LabeledIn(entries[..|entries| - 1]) + (if e.Some? then [Labeled(e.value.message, e.value.labels)] else [])
  }

  /** The entries of the records in order, in each record the added messages first. */
  function Changes(records: seq<Record>): seq<Change> {
    if records == [] then []
    else
      var r := records[|records| - 1];
      Changes(records[..|records| - 1]) + AddedIn(r.added) + LabeledIn(r.labeled)
  }

  function Records(pages: seq<Page>): seq<Record> {
    if pages == [] then [] else Records(pages[..|pages| - 1]) + pages[|pages| - 1].records
  }

  function NewCursor(cursor: nat, pages: seq<Page>): nat {
    if pages == [] then cursor
    else if |pages| == 1 then (if pages[0].historyId != 0 then pages[0].historyId else cursor)
    else
      var c := NewCursor(cursor, pages[..|pages| - 1]);
      if pages[|pages| - 1].historyId > c then pages[|pages| - 1].historyId else c
  }

  datatype PollResult = PollResult(cursor: nat, ok: bool, batch: Batch)

  function Polled(cursor: nat, reply: Reply, monitored: seq<string>): PollResult {
    match reply
    case Unavailable => PollResult(cursor, false, map[])
    case ListFailed => PollResult(cursor, false, map[])
    case Expired(profile) =>
      if profile.Some? then PollResult(profile.value, true, map[]) else PollResult(cursor, false, map[])
    case Pages(pages, complete) =>
      if complete then PollResult(NewCursor(cursor, pages), true, Collected(Changes(Records(pages)), monitored))
      else PollResult(NewCursor(cursor, pages), false, map[])
  }

  class GmailHistoryPoller {
    const monitored: seq<string>
    var cursor: nat
    var saved: nat

    constructor (monitored: seq<string>, saved: nat)
      ensures this.monitored == monitored && this.saved == saved && cursor == 0
    {
      this.monitored := monitored;
      this.saved := saved;
      cursor := 0;
    }

    /** A stored cursor is kept; without one polling starts from now. */
    method BootstrapCursor(loads: bool, profile: Option<nat>, saves: bool) returns (ok: bool)
      modifies this
      ensures ok == (loads && (old(saved) != 0 || (profile.Some? && saves)))
      ensures saved == if ok && old(saved) == 0 then profile.value else old(saved)
      ensures ok ==> cursor == saved
      ensures !ok ==> cursor == old(cursor)
    {
      if !loads { return false; }
      if saved != 0 {
        cursor := saved;
        return true;
      }
      if profile.None? || !saves { return false; }
      saved := profile.value;
      cursor := profile.value;
      return true;
    }

    method PollOnce(reply: Reply) returns (newCursor: nat, ok: bool, batch: Batch)
      ensures PollResult(newCursor, ok, batch) == Polled(cursor, reply, monitored)
    {
      match reply
      case Unavailable => return cursor, false, map[];
      case ListFailed => return cursor, false, map[];
      case Expired(profile) =>
        if profile.None? { return cursor, false, map[]; }
        return profile.value, true, map[];
      case Pages(pages, complete) =>
        newCursor := ReadPages(pages);
        if !complete { return newCursor, false, map[]; }
        batch := CollectPages(pages);
        ok := true;
    }

    method ReadPages(pages: seq<Page>) returns (newCursor: nat)
      ensures newCursor == NewCursor(cursor, pages)
    {
      newCursor := cursor;
      if pages == [] { return; }
      if pages[0].historyId != 0 { newCursor := pages[0].historyId; }
      for i := 1 to |pages|
        invariant newCursor == NewCursor(cursor, pages[..i])
      {
        assert pages[..i + 1][..i] == pages[..i];
        if pages[i].historyId > newCursor { newCursor := pages[i].historyId; }
      }
      assert pages[..|pages|] == pages;
    }

    method CollectPages(pages: seq<Page>) returns (batch: Batch)
      ensures batch == Collected(Changes(Records(pages)), monitored)
    {
      batch := map[];
      for i := 0 to |pages|
        invariant batch == Collected(Changes(Records(pages[..i])), monitored)
      {
        assert pages[..i + 1][..i] == pages[..i];
        batch := CollectPage(batch, Records(pages[..i]), pages[i].records);
      }
      assert pages[..|pages|] == pages;
    }

    method CollectPage(start: Batch, ghost before: seq<Record>, records: seq<Record>) returns (batch: Batch)
      requires start == Collected(Changes(before), monitored)
      ensures batch == Collected(Changes(before + records), monitored)
    {
      batch := start;
      ghost var done := before;
      for j := 0 to |records|
        invariant done == before + records[..j]
        invariant batch == Collected(Changes(done), monitored)
      {
        batch := CollectRecord(batch, Changes(done), records[j]);
        ChangesNext(done, records[j]);
        TakeOneMore(before, records, j);
        done := done + [records[j]];
      }
      assert records[..|records|] == records;
    }

    method CollectRecord(start: Batch, ghost before: seq<Change>, r: Record) returns (batch: Batch)
      requires start == Collected(before, monitored)
      ensures batch == Collected(before + AddedIn(r.added) + LabeledIn(r.labeled), monitored)
    {
      batch := CollectAdded(start, before, r.added);
      batch := CollectLabeled(batch, before + AddedIn(r.added), r.labeled);
    }

    method CollectAdded(start: Batch, ghost before: seq<Change>, entries: seq<Option<Message>>) returns (batch: Batch)
      requires start == Collected(before, monitored)
      ensures batch == Collected(before + AddedIn(entries), monitored)
    {
      batch := start;
      assert before + AddedIn(entries[..0]) == before;
      for i := 0 to |entries|
        invariant batch == Collected(before + AddedIn(entries[..i]), monitored)
      {
        AddedNext(before, entries, i, monitored);
        if entries[i].None? { continue; }
        batch := TakeAdded(batch, entries[i].value);
      }
      assert entries[..|entries|] == entries;
    }

    method TakeAdded(start: Batch, m: Message) returns (batch: Batch)
      ensures batch == Collect(start, Added(m), monitored)
    {
      batch := start;
      if m.id == "" || HasLabel(m.labels, "DRAFT") { return; }
      batch := batch[m.id := PrimaryLabel(m.labels, monitored)];
    }

    method CollectLabeled(start: Batch, ghost before: seq<Change>, entries: seq<Option<LabelAddition>>)
      returns (batch: Batch)
      requires start == Collected(before, monitored)
      ensures batch == Collected(before + LabeledIn(entries), monitored)
    {
      batch := start;
      assert before + LabeledIn(entries[..0]) == before;
      for i := 0 to |entries|
        invariant batch == Collected(before + LabeledIn(entries[..i]), monitored)
      {
        LabeledNext(before, entries, i, monitored);
        if entries[i].None? { continue; }
        batch := TakeLabeled(batch, entries[i].value);
      }
      assert entries[..|entries|] == entries;
    }

    method TakeLabeled(start: Batch, la: LabelAddition) returns (batch: Batch)
      ensures batch == Collect(start, Labeled(la.message, la.labels), monitored)
    {
      batch := start;
      var m := la.message;
      if m.id == "" || HasLabel(m.labels, "DRAFT") { return; }
      if !AnyLabelMatches(la.labels, monitored) { return; }
      if m.id in batch { return; }
      batch := batch[m.id := PrimaryLabel(m.labels, monitored)];
    }

    /** One turn of the polling loop. */
    method Tick(reply: Reply, saves: bool) returns (batch: Batch)
      modifies this`cursor, this`saved
      ensures batch == Polled(old(cursor), reply, monitored).batch
      ensures (cursor, saved) == Ticked(old(cursor), old(saved), reply, monitored, saves)
    {
      var newCursor, ok;
      newCursor, ok, batch := PollOnce(reply);
      if !ok { return; }
      if newCursor != cursor {
        if saves {
          saved := newCursor;
          cursor := newCursor;
        }
      }
    }
  }

  /** Cursor and stored cursor after a tick. */
  function Ticked(cursor: nat, saved: nat, reply: Reply, monitored: seq<string>, saves: bool): (nat, nat) {
    var p := Polled(cursor, reply, monitored);
    if p.ok && saves && p.cursor != cursor then (p.cursor, p.cursor) else (cursor, saved)
  }

  lemma CollectedNext(cs: seq<Change>, c: Change, monitored: seq<string>)
    ensures Collected(cs + [c], monitored) == Collect(Collected(cs, monitored), c, monitored)
  {
    assert (cs + [c])[..|cs|] == cs;
  }

  lemma AddedNext(before: seq<Change>, entries: seq<Option<Message>>, i: nat, monitored: seq<string>)
    requires i < |entries|
    ensures Collected(before + AddedIn(entries[..i + 1]), monitored)
         == if entries[i].None? then Collected(before + AddedIn(entries[..i]), monitored)
            else Collect(Collected(before + AddedIn(entries[..i]), monitored), Added(entries[i].value), monitored)
  {
    assert entries[..i + 1][..i] == entries[..i];
    var front := before + AddedIn(entries[..i]);
    if entries[i].None? {
      assert before + AddedIn(entries[..i + 1]) == front;
    } else {
      CollectedNext(front, Added(entries[i].value), monitored);
      assert before + AddedIn(entries[..i + 1]) == front + [Added(entries[i].value)];
    }
  }

  lemma LabeledNext(before: seq<Change>, entries: seq<Option<LabelAddition>>, i: nat, monitored: seq<string>)
    requires i < |entries|
    ensures Collected(before + LabeledIn(entries[..i + 1]), monitored)
         == if entries[i].None? then Collected(before + LabeledIn(entries[..i]), monitored)
            else Collect(Collected(before + LabeledIn(entries[..i]), monitored),
                         Labeled(entries[i].value.message, entries[i].value.labels), monitored)
  {
    assert entries[..i + 1][..i] == entries[..i];
    var front := before + LabeledIn(entries[..i]);
    if entries[i].None? {
      assert before + LabeledIn(entries[..i + 1]) == front;
    } else {
      var c := Labeled(entries[i].value.message, entries[i].value.labels);
      CollectedNext(front, c, monitored);
      assert before + LabeledIn(entries[..i + 1]) == front + [c];
    }
  }

  lemma TakeOneMore<T>(before: seq<T>, s: seq<T>, j: nat)
    requires j < |s|
    ensures before + s[..j + 1] == before + s[..j] + [s[j]]
  {
  }

  lemma ChangesNext(records: seq<Record>, r: Record)
    ensures Changes(records + [r]) == Changes(records) + AddedIn(r.added) + LabeledIn(r.labeled)
  {
    assert (records + [r])[..|records|] == records;
  }

  // ---- The batch -------------------------------------------------------------------------------------

  /** A change that makes a message new to the bridge: it was added, or got a monitored label; no drafts. */
  predicate Announces(c: Change, id: string, monitored: seq<string>) {
    c.message.id == id && IsMail(c.message) && (c.Labeled? ==> AnyLabelMatches(c.labels, monitored))
  }

  /** In plain terms: the message has an ID and no draft label, and a labelling put on it a label that is
      monitored, all in any letter case. */
  lemma AnnouncesIff(c: Change, id: string, monitored: seq<string>)
    ensures Announces(c, id, monitored)
            <==> && c.message.id == id && id != ""
                 && (forall i :: 0 <= i < |c.message.labels| ==> ToLower(c.message.labels[i]) != "draft")
                 && (c.Labeled? ==> exists i, j :: 0 <= i < |c.labels| && 0 <= j < |monitored|
                                                   && ToLower(c.labels[i]) == ToLower(monitored[j]))
  {
    LowerNames();
    var labels := c.message.labels;
    assert HasLabel(labels, "DRAFT") <==> exists i :: 0 <= i < |labels| && EqualFold(labels[i], "DRAFT");
    if c.Labeled? {
      if i, j :| 0 <= i < |c.labels| && 0 <= j < |monitored| && ToLower(c.labels[i]) == ToLower(monitored[j]) {
        assert EqualFold(monitored[j], c.labels[i]);
        assert HasLabel(monitored, c.labels[i]);
      }
    }
  }

  /** A tick forwards exactly the messages that some change announces, each once. */
  lemma {:induction false} BatchIsExact(cs: seq<Change>, monitored: seq<string>, id: string)
    ensures id in Collected(cs, monitored) <==> exists i :: 0 <= i < |cs| && Announces(cs[i], id, monitored)
  {
    if cs != [] {
      var front, c := cs[..|cs| - 1], cs[|cs| - 1];
      BatchIsExact(front, monitored, id);
      if Announces(c, id, monitored) {
        assert Announces(cs[|cs| - 1], id, monitored);
      } else if exists i :: 0 <= i < |cs| && Announces(cs[i], id, monitored) {
        var i :| 0 <= i < |cs| && Announces(cs[i], id, monitored);
        assert Announces(front[i], id, monitored);
      }
    }
  }

  predicate Adds(c: Change, id: string) {
    c.Added? && c.message.id == id && IsMail(c.message)
  }

  /** The label is that of the last addition. */
  lemma {:induction false} LastAdditionNames(cs: seq<Change>, monitored: seq<string>, id: string, k: nat)
    requires k < |cs| && Adds(cs[k], id) && forall i :: k < i < |cs| ==> !Adds(cs[i], id)
    ensures id in Collected(cs, monitored)
    ensures Collected(cs, monitored)[id] == PrimaryLabel(cs[k].message.labels, monitored)
  {
    if k < |cs| - 1 {
      var front := cs[..|cs| - 1];
      assert front[k] == cs[k];
      LastAdditionNames(front, monitored, id, k);
    }
  }

  /** Without an addition it is that of the first labelling. */
  lemma {:induction false} FirstLabellingNames(cs: seq<Change>, monitored: seq<string>, id: string, k: nat)
    requires k < |cs| && Announces(cs[k], id, monitored)
    requires forall i :: 0 <= i < |cs| ==> !Adds(cs[i], id)
    requires forall i :: 0 <= i < k ==> !Announces(cs[i], id, monitored)
    ensures id in Collected(cs, monitored)
    ensures Collected(cs, monitored)[id] == PrimaryLabel(cs[k].message.labels, monitored)
  {
    var front := cs[..|cs| - 1];
    if k < |cs| - 1 {
      assert front[k] == cs[k];
      FirstLabellingNames(front, monitored, id, k);
    } else {
      BatchIsExact(front, monitored, id);
    }
  }

  predicate Holds(r: Record, c: Change) {
    c in AddedIn(r.added) || c in LabeledIn(r.labeled)
  }

  /** A record holds its entries that have a message. */
  lemma HoldsIff(r: Record, c: Change)
    ensures Holds(r, c)
            <==> match c
                 case Added(m) => Some(m) in r.added
                 case Labeled(m, labels) => Some(LabelAddition(m, labels)) in r.labeled
  {
    AddedAre(r.added, c);
    LabeledAre(r.labeled, c);
  }

  lemma {:induction false} AddedAre(entries: seq<Option<Message>>, c: Change)
    ensures c in AddedIn(entries) <==> c.Added? && Some(c.message) in entries
  {
    if entries != [] {
      var front, e := entries[..|entries| - 1], entries[|entries| - 1];
      AddedAre(front, c);
      assert entries == front + [e];
    }
  }

  lemma {:induction false} LabeledAre(entries: seq<Option<LabelAddition>>, c: Change)
    ensures c in LabeledIn(entries) <==> c.Labeled? && Some(LabelAddition(c.message, c.labels)) in entries
  {
    if entries != [] {
      var front, e := entries[..|entries| - 1], entries[|entries| - 1];
      LabeledAre(front, c);
      assert entries == front + [e];
    }
  }

  /** The changes come in the order of the pages, and on a page in the order of its records. */
  lemma {:induction false} ChangesInOrder(pages: seq<Page>, p: Page)
    ensures Changes(Records(pages + [p])) == Changes(Records(pages)) + Changes(p.records)
  {
    assert (pages + [p])[..|pages|] == pages;
    ChangesConcat(Records(pages), p.records);
  }

  lemma {:induction false} ChangesConcat(a: seq<Record>, b: seq<Record>)
    ensures Changes(a + b) == Changes(a) + Changes(b)
  {
    if b == [] {
      assert a + b == a;
    } else {
      var front, r := b[..|b| - 1], b[|b| - 1];
      assert a + b == a + front + [r];
      ChangesNext(a + front, r);
      ChangesConcat(a, front);
      Regroup(Changes(a), Changes(front), AddedIn(r.added), LabeledIn(r.labeled));
    }
  }

  lemma Regroup(a: seq<Change>, b: seq<Change>, c: seq<Change>, d: seq<Change>)
    ensures a + (b + c + d) == a + b + c + d
  {
  }

  lemma ChangesOfLast(records: seq<Record>, c: Change)
    requires records != []
    ensures c in Changes(records) <==> c in Changes(records[..|records| - 1]) || Holds(records[|records| - 1], c)
  {
    var r := records[|records| - 1];
    InConcat(Changes(records[..|records| - 1]) + AddedIn(r.added), LabeledIn(r.labeled), c);
    InConcat(Changes(records[..|records| - 1]), AddedIn(r.added), c);
  }

  lemma InConcat<T>(a: seq<T>, b: seq<T>, x: T)
    ensures x in a + b <==> x in a || x in b
  {
    if x in a {
      var i :| 0 <= i < |a| && a[i] == x;
      assert (a + b)[i] == x;
    }
    if x in b {
      var i :| 0 <= i < |b| && b[i] == x;
      assert (a + b)[|a| + i] == x;
    }
  }

  /** All records on all pages count. */
  lemma {:induction false} ChangesAre(records: seq<Record>, c: Change)
    ensures c in Changes(records) <==> exists r :: r in records && Holds(r, c)
  {
    if records != [] {
      var front, last := records[..|records| - 1], records[|records| - 1];
      ChangesAre(front, c);
      ChangesOfLast(records, c);
      assert records == front + [last];
      if Holds(last, c) { assert last in records; }
    }
  }

  /** What a tick forwards, in terms of the records on its pages. */
  lemma TickForwardsExactly(cursor: nat, pages: seq<Page>, monitored: seq<string>, id: string)
    ensures id in Polled(cursor, Pages(pages, true), monitored).batch
            <==> exists r, c :: r in Records(pages) && Holds(r, c) && Announces(c, id, monitored)
  {
    var cs := Changes(Records(pages));
    BatchIsExact(cs, monitored, id);
    if i: int :| 0 <= i < |cs| && Announces(cs[i], id, monitored) {
      ChangesAre(Records(pages), cs[i]);
    }
    if r, c :| r in Records(pages) && Holds(r, c) && Announces(c, id, monitored) {
      ChangesAre(Records(pages), c);
    }
  }

  // ---- The cursor ------------------------------------------------------------------------------------

  /** The new cursor is the highest id of the pages; the first page may lower it, and without an id on that page
      the old cursor counts in its stead. */
  lemma {:induction false} NewCursorIsHighest(cursor: nat, pages: seq<Page>)
    requires pages != []
    ensures var first := if pages[0].historyId != 0 then pages[0].historyId else cursor;
            var r := NewCursor(cursor, pages);
            && r >= first && (forall i :: 1 <= i < |pages| ==> r >= pages[i].historyId)
            && (r == first || exists i :: 1 <= i < |pages| && r == pages[i].historyId)
  {
    if |pages| > 1 { NewCursorIsHighest(cursor, pages[..|pages| - 1]); }
  }

  /** The server's history: records with rising ids, and the id it has reached. */
  datatype History = History(log: seq<Record>, current: nat)

  predicate Rising(log: seq<Record>) {
    forall i, j :: 0 <= i < j < |log| ==> log[i].id < log[j].id
  }

  predicate SoundHistory(h: History) {
    h.current > 0 && Rising(h.log) && forall i :: 0 <= i < |h.log| ==> h.log[i].id <= h.current
  }

  predicate Grown(h: History, g: History) {
    SoundHistory(g) && h.current <= g.current && h.log <= g.log
    && forall i :: |h.log| <= i < |g.log| ==> g.log[i].id > h.current
  }

  /** The records after `low`, up to and including `high`. */
  function Between(log: seq<Record>, low: nat, high: nat): seq<Record> {
    if log == [] then []
    else
      var r := log[|log| - 1];
      Between(log[..|log| - 1], low, high) + (if low < r.id <= high then [r] else [])
  }

  /** The pages are a snapshot of the history after the cursor. */
  predicate Snapshot(h: History, cursor: nat, pages: seq<Page>) {
    && pages != [] && (forall i :: 0 <= i < |pages| ==> pages[i].historyId == h.current)
    && Records(pages) == Between(h.log, cursor, h.current)
  }

  datatype Event =
    | Grow(history: History)
    | Poll(reply: Reply, saves: bool)
    | Restart

  /** A stretch of the history that the cursor jumped over, because it had expired. */
  datatype Gap = Gap(low: nat, high: nat)

  predicate Missed(gaps: seq<Gap>, id: nat) {
    exists i :: 0 <= i < |gaps| && gaps[i].low < id <= gaps[i].high
  }

  function Outside(log: seq<Record>, gaps: seq<Gap>): seq<Record> {
    if log == [] then []
    else
      var r := log[|log| - 1];
      Outside(log[..|log| - 1], gaps) + (if Missed(gaps, r.id) then [] else [r])
  }

  /** `taken` lists the records of the ticks whose cursor was stored, `read` those of all ticks, and `gaps` what
      ticks with an expired cursor jumped over. */
  datatype World = World(cursor: nat, saved: nat, history: History, taken: seq<Record>, read: seq<Record>,
                         gaps: seq<Gap>)

  predicate Legal(w: World, e: Event) {
    match e
    case Grow(h) => Grown(w.history, h)
    case Poll(reply, _) =>
      && (reply.Expired? && reply.profile.Some? ==> reply.profile.value == w.history.current)
      && (reply.Pages? && reply.complete ==> Snapshot(w.history, w.cursor, reply.pages))
    case Restart => true
  }

  function Step(w: World, e: Event, monitored: seq<string>): World {
    match e
    case Grow(h) => w.(history := h)
    case Restart => w.(cursor := w.saved)
    case Poll(reply, saves) =>
      var (cursor, saved) := Ticked(w.cursor, w.saved, reply, monitored, saves);
      var records := if reply.Pages? && reply.complete then Records(reply.pages) else [];
      World(cursor, saved, w.history, if cursor != w.cursor then w.taken + records else w.taken, w.read + records,
            if reply.Expired? && cursor != w.cursor then w.gaps + [Gap(w.cursor, cursor)] else w.gaps)
  }

  function Run(w: World, es: seq<Event>, monitored: seq<string>): World
    decreases |es|
  {
    if es == [] then w else Run(Step(w, es[0], monitored), es[1..], monitored)
  }

  predicate LegalRun(w: World, es: seq<Event>, monitored: seq<string>)
    decreases |es|
  {
    es == [] || (Legal(w, es[0]) && LegalRun(Step(w, es[0], monitored), es[1..], monitored))
  }

  predicate GapsBelow(gaps: seq<Gap>, cursor: nat) {
    forall i :: 0 <= i < |gaps| ==> gaps[i].high <= cursor
  }

  /** The ticks whose cursor was stored have taken the history from `start` to the cursor, without overlap, and
      without a gap but for the stretches that had expired. */
  predicate Partitioned(start: nat, w: World) {
    && SoundHistory(w.history) && 0 < start <= w.cursor <= w.history.current && w.saved == w.cursor
    && GapsBelow(w.gaps, w.cursor)
    && w.taken == Between(Outside(w.history.log, w.gaps), start, w.cursor)
    && forall r :: r in w.taken ==> r in w.read
  }

  lemma {:induction false} OutsideIsRising(log: seq<Record>, gaps: seq<Gap>)
    requires Rising(log)
    ensures Rising(Outside(log, gaps)) && forall r :: r in Outside(log, gaps) <==> r in log && !Missed(gaps, r.id)
  {
    if log != [] {
      var front, r := log[..|log| - 1], log[|log| - 1];
      OutsideIsRising(front, gaps);
      assert log == front + [r];
      forall q | q in Outside(front, gaps) ensures q.id < r.id {
        var i :| 0 <= i < |front| && front[i] == q;
      }
    }
  }

  /** Gaps below a stretch leave it whole. */
  lemma {:induction false} OutsideAbove(log: seq<Record>, gaps: seq<Gap>, low: nat, high: nat)
    requires GapsBelow(gaps, low)
    ensures Between(Outside(log, gaps), low, high) == Between(log, low, high)
  {
    if log != [] {
      var front, r := log[..|log| - 1], log[|log| - 1];
      OutsideAbove(front, gaps, low, high);
      BetweenNext(Outside(front, gaps), r, low, high);
    }
  }

  /** A gap above a stretch leaves it as it is, and of the gap itself nothing is left. */
  lemma {:induction false} OutsideGap(log: seq<Record>, gaps: seq<Gap>, start: nat, low: nat, high: nat)
    requires start <= low <= high && GapsBelow(gaps, low)
    ensures Between(Outside(log, gaps + [Gap(low, high)]), start, high) == Between(Outside(log, gaps), start, low)
  {
    if log != [] {
      var front, r := log[..|log| - 1], log[|log| - 1];
      var more := gaps + [Gap(low, high)];
      OutsideGap(front, gaps, start, low, high);
      MissedNext(gaps, Gap(low, high), r.id);
      BetweenNext(Outside(front, more), r, start, high);
      BetweenNext(Outside(front, gaps), r, start, low);
    }
  }

  lemma MissedNext(gaps: seq<Gap>, g: Gap, id: nat)
    ensures Missed(gaps + [g], id) <==> Missed(gaps, id) || g.low < id <= g.high
  {
    assert (gaps + [g])[|gaps|] == g;
    if i :| 0 <= i < |gaps| && gaps[i].low < id <= gaps[i].high { assert (gaps + [g])[i] == gaps[i]; }
  }

  lemma BetweenNext(log: seq<Record>, r: Record, low: nat, high: nat)
    ensures Between(log + [r], low, high) == Between(log, low, high) + (if low < r.id <= high then [r] else [])
    ensures Between(log + [], low, high) == Between(log, low, high)
  {
    assert (log + [r])[..|log|] == log && log + [] == log;
  }

  lemma {:induction false} OutsideConcat(log: seq<Record>, more: seq<Record>, gaps: seq<Gap>)
    ensures Outside(log + more, gaps) == Outside(log, gaps) + Outside(more, gaps)
  {
    if more == [] {
      assert log + more == log;
    } else {
      var all := log + more;
      assert all[..|all| - 1] == log + more[..|more| - 1];
      OutsideConcat(log, more[..|more| - 1], gaps);
    }
  }

  lemma {:induction false} OutsideStays(log: seq<Record>, gaps: seq<Gap>, high: nat)
    requires forall i :: 0 <= i < |log| ==> log[i].id > high
    ensures forall i :: 0 <= i < |Outside(log, gaps)| ==> Outside(log, gaps)[i].id > high
  {
    if log != [] { OutsideStays(log[..|log| - 1], gaps, high); }
  }

  lemma {:induction false} BetweenEmpty(log: seq<Record>, low: nat, high: nat)
    requires forall i :: 0 <= i < |log| ==> log[i].id <= low || log[i].id > high
    ensures Between(log, low, high) == []
  {
    if log != [] { BetweenEmpty(log[..|log| - 1], low, high); }
  }

  lemma {:induction false} BetweenSplit(log: seq<Record>, a: nat, b: nat, c: nat)
    requires Rising(log) && a <= b <= c
    ensures Between(log, a, c) == Between(log, a, b) + Between(log, b, c)
  {
    if log != [] {
      var front, r := log[..|log| - 1], log[|log| - 1];
      BetweenSplit(front, a, b, c);
      if r.id <= b {
        BetweenEmpty(front, b, c);
      }
    }
  }

  lemma {:induction false} BetweenGrown(log: seq<Record>, more: seq<Record>, low: nat, high: nat)
    requires forall i :: 0 <= i < |more| ==> more[i].id > high
    ensures Between(log + more, low, high) == Between(log, low, high)
  {
    if more == [] {
      assert log + more == log;
    } else {
      var all := log + more;
      assert all[..|all| - 1] == log + more[..|more| - 1];
      BetweenGrown(log, more[..|more| - 1], low, high);
    }
  }

  lemma {:induction false} SnapshotCursor(cursor: nat, pages: seq<Page>, current: nat)
    requires pages != [] && current > 0 && forall i :: 0 <= i < |pages| ==> pages[i].historyId == current
    ensures NewCursor(cursor, pages) == current
  {
    if |pages| > 1 { SnapshotCursor(cursor, pages[..|pages| - 1], current); }
  }

  lemma PollKeeps(start: nat, w: World, reply: Reply, saves: bool, monitored: seq<string>)
    requires Partitioned(start, w) && Legal(w, Poll(reply, saves))
    ensures Partitioned(start, Step(w, Poll(reply, saves), monitored))
  {
    var kept := Outside(w.history.log, w.gaps);
    if reply.Pages? && reply.complete {
      SnapshotCursor(w.cursor, reply.pages, w.history.current);
      OutsideIsRising(w.history.log, w.gaps);
      BetweenSplit(kept, start, w.cursor, w.history.current);
      OutsideAbove(w.history.log, w.gaps, w.cursor, w.history.current);
    } else if reply.Expired? {
      OutsideGap(w.history.log, w.gaps, start, w.cursor, w.history.current);
    }
  }

  lemma GrowKeeps(start: nat, w: World, h: History)
    requires Partitioned(start, w) && Grown(w.history, h)
    ensures Partitioned(start, w.(history := h))
  {
    var more := h.log[|w.history.log|..];
    assert h.log == w.history.log + more;
    OutsideGrown(w.history.log, more, w.gaps, start, w.cursor);
  }

  /** In every run of ticks, failed or not, growth, restarts and expiries, as long as listings are snapshots: what
      the stored ticks took is exactly the history from the start to the cursor, without the stretches from the
      old cursor to the new one where the history had expired. */
  lemma {:induction false} StoredTicksPartitionHistory(start: nat, w: World, es: seq<Event>, monitored: seq<string>)
    requires Partitioned(start, w) && LegalRun(w, es, monitored)
    ensures Partitioned(start, Run(w, es, monitored)) && w.cursor <= Run(w, es, monitored).cursor
    ensures w.gaps <= Run(w, es, monitored).gaps
    ensures forall i :: |w.gaps| <= i < |Run(w, es, monitored).gaps| ==> Run(w, es, monitored).gaps[i].low >= w.cursor
    decreases |es|
  {
    if es != [] {
      match es[0] {
        case Grow(h) => GrowKeeps(start, w, h);
        case Poll(reply, saves) =>
          PollKeeps(start, w, reply, saves, monitored);
          if reply.Pages? && reply.complete { SnapshotCursor(w.cursor, reply.pages, w.history.current); }
        case Restart =>
      }
      StoredTicksPartitionHistory(start, Step(w, es[0], monitored), es[1..], monitored);
    }
  }

  /** A tick that finds the history expired starts over from now: the cursor jumps to the current end, nothing is
      taken, and none of the records it jumped over is ever read. */
  lemma ExpiryJumps(start: nat, w: World, es: seq<Event>, monitored: seq<string>, r: Record)
    requires Partitioned(start, w) && r in Between(w.history.log, w.cursor, w.history.current)
    requires var next := Step(w, Poll(Expired(Some(w.history.current)), true), monitored);
             LegalRun(next, es, monitored)
    ensures var next := Step(w, Poll(Expired(Some(w.history.current)), true), monitored);
            var end := Run(next, es, monitored);
            && next.cursor == next.saved == w.history.current && next.taken == w.taken
            && Missed(next.gaps, r.id) && w.read <= end.read && r !in end.read[|w.read|..]
  {
    var e := Poll(Expired(Some(w.history.current)), true);
    var next := Step(w, e, monitored);
    PollKeeps(start, w, e.reply, true, monitored);
    BetweenHas(w.history.log, w.cursor, w.history.current, r);
    MissedNext(w.gaps, Gap(w.cursor, w.history.current), r.id);
    PassedIsNeverRead(next, es, monitored);
  }

  lemma {:induction false} HistoryGrows(start: nat, w: World, es: seq<Event>, monitored: seq<string>)
    requires Partitioned(start, w) && LegalRun(w, es, monitored)
    ensures Grown(w.history, Run(w, es, monitored).history)
    decreases |es|
  {
    if es != [] {
      StoredTicksPartitionHistory(start, w, [es[0]], monitored);
      RunOfOne(w, es[0], monitored);
      HistoryGrows(start, Step(w, es[0], monitored), es[1..], monitored);
    }
  }

  lemma RunOfOne(w: World, e: Event, monitored: seq<string>)
    ensures Run(w, [e], monitored) == Step(w, e, monitored)
  {
    assert [e][1..] == [];
    assert Run(Step(w, e, monitored), [], monitored) == Step(w, e, monitored);
  }

  lemma {:induction false} BetweenHas(log: seq<Record>, low: nat, high: nat, r: Record)
    ensures r in Between(log, low, high) <==> r in log && low < r.id <= high
  {
    if log != [] {
      var front, last := log[..|log| - 1], log[|log| - 1];
      BetweenHas(front, low, high, r);
      assert log == front + [last];
    }
  }

  /** Later gaps do not touch what lies below them. */
  lemma {:induction false} OutsideSame(log: seq<Record>, gaps: seq<Gap>, later: seq<Gap>, start: nat, high: nat)
    requires gaps <= later && forall i :: |gaps| <= i < |later| ==> later[i].low >= high
    ensures Between(Outside(log, later), start, high) == Between(Outside(log, gaps), start, high)
  {
    if log != [] {
      var front, r := log[..|log| - 1], log[|log| - 1];
      OutsideSame(front, gaps, later, start, high);
      BetweenNext(Outside(front, gaps), r, start, high);
      BetweenNext(Outside(front, later), r, start, high);
      if r.id <= high { MissedBelow(gaps, later, r.id); }
    }
  }

  lemma MissedBelow(gaps: seq<Gap>, later: seq<Gap>, id: nat)
    requires gaps <= later && forall i :: |gaps| <= i < |later| ==> later[i].low >= id
    ensures Missed(later, id) <==> Missed(gaps, id)
  {
    if i :| 0 <= i < |gaps| && gaps[i].low < id <= gaps[i].high { assert later[i] == gaps[i]; }
  }

  /** What was taken stays taken, and goes on with the records above the cursor. */
  lemma TakenGoesOn(start: nat, w: World, v: World)
    requires Partitioned(start, w) && Partitioned(start, v) && Grown(w.history, v.history) && w.cursor <= v.cursor
    requires w.gaps <= v.gaps && forall i :: |w.gaps| <= i < |v.gaps| ==> v.gaps[i].low >= w.cursor
    ensures v.taken == w.taken + Between(Outside(v.history.log, v.gaps), w.cursor, v.cursor)
  {
    var more := v.history.log[|w.history.log|..];
    assert v.history.log == w.history.log + more;
    SplitAtCursor(w.history.log, more, w.gaps, v.gaps, start, w.cursor, v.cursor);
  }

  lemma SplitAtCursor(log: seq<Record>, more: seq<Record>, gaps: seq<Gap>, later: seq<Gap>, start: nat, a: nat, b: nat)
    requires Rising(log + more) && start <= a <= b && forall i :: 0 <= i < |more| ==> more[i].id > a
    requires gaps <= later && forall i :: |gaps| <= i < |later| ==> later[i].low >= a
    ensures Between(Outside(log + more, later), start, b)
         == Between(Outside(log, gaps), start, a) + Between(Outside(log + more, later), a, b)
  {
    OutsideIsRising(log + more, later);
    BetweenSplit(Outside(log + more, later), start, a, b);
    OutsideSame(log + more, gaps, later, start, a);
    OutsideGrown(log, more, gaps, start, a);
  }

  lemma OutsideGrown(log: seq<Record>, more: seq<Record>, gaps: seq<Gap>, start: nat, cursor: nat)
    requires forall i :: 0 <= i < |more| ==> more[i].id > cursor
    ensures Between(Outside(log + more, gaps), start, cursor) == Between(Outside(log, gaps), start, cursor)
  {
    OutsideConcat(log, more, gaps);
    OutsideStays(more, gaps, cursor);
    BetweenGrown(Outside(log, gaps), Outside(more, gaps), start, cursor);
  }

  /** After a tick that failed, or whose cursor was not stored, every record it was due to read is read again,
      whatever happens in between: a later stored tick takes it, or the next complete snapshot lists it, unless
      the history expires before. */
  lemma FailedTickIsRepeated(start: nat, w: World, reply: Reply, saves: bool, es: seq<Event>, pages: seq<Page>,
                             monitored: seq<string>, r: Record)
    requires Partitioned(start, w) && Legal(w, Poll(reply, saves))
    requires !saves || !Polled(w.cursor, reply, monitored).ok
    requires r in Between(w.history.log, w.cursor, w.history.current)
    requires var next := Step(w, Poll(reply, saves), monitored);
             && LegalRun(next, es, monitored)
             && var v := Run(next, es, monitored); Snapshot(v.history, v.cursor, pages)
    ensures var v := Run(Step(w, Poll(reply, saves), monitored), es, monitored);
            && w.taken <= v.taken && w.gaps <= v.gaps
            && (r in v.taken[|w.taken|..] || r in Records(pages) || Missed(v.gaps[|w.gaps|..], r.id))
            && (v.cursor == w.cursor ==> r in Records(pages))
  {
    var next := Step(w, Poll(reply, saves), monitored);
    PollKeeps(start, w, reply, saves, monitored);
    StoredTicksPartitionHistory(start, next, es, monitored);
    HistoryGrows(start, next, es, monitored);
    var v := Run(next, es, monitored);
    TakenGoesOn(start, w, v);
    WhereRecordIs(start, w, v, r);
  }

  lemma WhereRecordIs(start: nat, w: World, v: World, r: Record)
    requires Partitioned(start, w) && Partitioned(start, v) && Grown(w.history, v.history) && w.cursor <= v.cursor
    requires w.gaps <= v.gaps && r in Between(w.history.log, w.cursor, w.history.current)
    ensures r in Between(Outside(v.history.log, v.gaps), w.cursor, v.cursor)
            || r in Between(v.history.log, v.cursor, v.history.current) || Missed(v.gaps[|w.gaps|..], r.id)
    ensures v.cursor == w.cursor ==> r in Between(v.history.log, v.cursor, v.history.current)
  {
    var log := v.history.log;
    BetweenHas(w.history.log, w.cursor, w.history.current, r);
    BetweenHas(log, v.cursor, v.history.current, r);
    BetweenHas(Outside(log, v.gaps), w.cursor, v.cursor, r);
    OutsideIsRising(log, v.gaps);
    InConcat(w.history.log, log[|w.history.log|..], r);
    assert log == w.history.log + log[|w.history.log|..];
    if Missed(v.gaps, r.id) { MissedLater(w.gaps, v.gaps, w.cursor, r.id); }
  }

  lemma MissedLater(gaps: seq<Gap>, later: seq<Gap>, cursor: nat, id: nat)
    requires GapsBelow(gaps, cursor) && gaps <= later && id > cursor && Missed(later, id)
    ensures Missed(later[|gaps|..], id)
  {
    var i :| 0 <= i < |later| && later[i].low < id <= later[i].high;
    assert forall j :: 0 <= j < |gaps| ==> gaps[j] == later[j];
    assert later[|gaps|..][i - |gaps|] == later[i];
  }

  lemma {:induction false} BetweenIsAbove(log: seq<Record>, low: nat, high: nat)
    ensures forall r :: r in Between(log, low, high) ==> low < r.id
  {
    if log != [] { BetweenIsAbove(log[..|log| - 1], low, high); }
  }

  /** What the cursor has passed is never read again: a record that a tick's pages miss below the new cursor is
      lost. */
  lemma {:induction false} PassedIsNeverRead(w: World, es: seq<Event>, monitored: seq<string>)
    requires SoundHistory(w.history) && w.cursor == w.saved && w.cursor <= w.history.current
    requires LegalRun(w, es, monitored)
    ensures var end := Run(w, es, monitored);
            w.read <= end.read && forall i :: |w.read| <= i < |end.read| ==> end.read[i].id > w.cursor
    decreases |es|
  {
    if es != [] {
      var next := Step(w, es[0], monitored);
      if es[0].Poll? && es[0].reply.Pages? && es[0].reply.complete {
        SnapshotCursor(w.cursor, es[0].reply.pages, w.history.current);
        BetweenIsAbove(w.history.log, w.cursor, w.history.current);
      }
      PassedIsNeverRead(next, es[1..], monitored);
    }
  }
}
