/** What stripping guarantees on every text, and exactly when it gives back the reply that was sent. */
module QuoteStripping {
  import opened Text
  import opened QuoteText
  import opened QuoteReplies

  // ---- Any text --------------------------------------------------------------------------------------

  lemma KeptIsPrefix(lines: seq<string>, k: nat)
    requires k <= |lines|
    ensures Kept(lines, k) <= Join(lines[..k]) <= Join(lines)
  {
    JoinFront(lines, k);
  }

  /** Stripping only cuts off at the end, and leaves no blank there. */
  lemma StrippedIsTrimmedPrefix(text: string)
    ensures var r := Stripped(text); r <= text && (r != "" ==> !IsTrailing(r[|r| - 1]))
  {
    var lines := Split(text);
    var k := CutLine(lines);
    KeptIsPrefix(lines, k);
    JoinSplit(text);
    TrimRightDrops(Join(lines[..k]), IsTrailing);
  }

  /** The same line but for space at its end. */
  predicate Padded(short: string, long: string) {
    short <= long && forall k :: |short| <= k < |long| ==> IsSpace(long[k])
  }

  predicate PaddedLines(short: seq<string>, long: seq<string>) {
    |short| <= |long| && forall j :: 0 <= j < |short| ==> Padded(short[j], long[j])
  }

  lemma PaddedTrims(short: string, long: string)
    requires Padded(short, long)
    ensures TrimSpace(short) == TrimSpace(long)
  {
    var r := TrimRight(short, IsSpace);
    TrimRightDrops(short, IsSpace);
    TrimRightIs(long, IsSpace, r);
  }

  lemma {:induction false} FirstLine(s: string)
    ensures Split(s)[0] <= s
  {
    if s != "" && s[0] != '\n' { FirstLine(s[1..]); }
  }

  /** Trailing blanks and line breaks pad the last line and add lines after it. */
  lemma {:induction false} SplitPadded(r: string, t: string)
    requires forall i :: 0 <= i < |t| ==> IsSpace(t[i])
    ensures PaddedLines(Split(r), Split(r + t))
  {
    if r == "" {
      assert r + t == t;
      FirstLine(t);
    } else {
      assert (r + t)[1..] == r[1..] + t;
      SplitPadded(r[1..], t);
      var short, long := Split(r[1..]), Split(r[1..] + t);
      if r[0] == '\n' { PaddedBelow(short, long); } else { PaddedBehind(r[0], short, long); }
    }
  }

  lemma PaddedBelow(short: seq<string>, long: seq<string>)
    requires PaddedLines(short, long)
    ensures PaddedLines([""] + short, [""] + long)
  {
    assert Padded("", "");
  }

  lemma PaddedBehind(c: char, short: seq<string>, long: seq<string>)
    requires PaddedLines(short, long) && short != []
    ensures PaddedLines([[c] + short[0]] + short[1..], [[c] + long[0]] + long[1..])
  {
    assert Padded(short[0], long[0]);
    assert Padded([c] + short[0], [c] + long[0]);
  }

  lemma BareIsTrimSpace(line: string)
    ensures Bare(line) == TrimSpace(line)
  {
    TrimRightThenSpace(line, IsBlank);
  }

  lemma {:induction false} JoinedPadded(short: seq<string>, long: seq<string>, i: nat, n: nat)
    requires PaddedLines(short, long) && i + n < |short|
    ensures JoinedLines(short, i, n) == JoinedLines(long, i, n)
  {
    assert Padded(short[i + n], long[i + n]);
    PaddedTrims(short[i + n], long[i + n]);
    if n == 0 {
      BareIsTrimSpace(short[i]);
      BareIsTrimSpace(long[i]);
    } else {
      JoinedPadded(short, long, i, n - 1);
    }
  }

  /** A marker that fires on a text with its end cut off fires on the whole text. */
  lemma FiresPadded(short: seq<string>, long: seq<string>, i: nat)
    requires PaddedLines(short, long) && i < |short| && Fires(short, i)
    ensures Fires(long, i)
  {
    JoinedPadded(short, long, i, 0);
    if HasAttributionPrefix(Bare(short[i])) && Wraps(short, i) {
      var n :| 1 <= n <= 2 && WrapsOver(short, i, n);
      JoinedPadded(short, long, i, n);
      assert WrapsOver(long, i, n);
    }
    if StartsHeaders(short, i) {
      assert Padded(short[i + 1], long[i + 1]);
      PaddedTrims(short[i + 1], long[i + 1]);
    }
  }

  lemma TrimmedPadded(s: string)
    ensures PaddedLines(Split(TrimRight(s, IsTrailing)), Split(s))
  {
    var r := TrimRight(s, IsTrailing);
    TrimRightDrops(s, IsTrailing);
    assert r + s[|r|..] == s;
    SplitPadded(r, s[|r|..]);
  }

  lemma KeptLines(lines: seq<string>, k: nat)
    requires AreLines(lines) && 0 < k <= |lines|
    ensures PaddedLines(Split(Kept(lines, k)), lines) && |Split(Kept(lines, k))| <= k
  {
    var front := lines[..k];
    assert AreLines(front);
    SplitJoin(front);
    TrimmedPadded(Join(front));
  }

  lemma NothingFiresOnEmpty(i: nat)
    requires i < |Split("")|
    ensures !Fires(Split(""), i)
  {
    assert Bare("") == "";
  }

  /** On what stripping returns, the attribution, divider and header markers never fire. */
  lemma NoMarkerIsLeft(text: string, i: nat)
    requires i < |Split(Stripped(text))|
    ensures !Fires(Split(Stripped(text)), i)
  {
    var lines := Split(text);
    var k := CutLine(lines);
    var left := Split(Stripped(text));
    FirstIsFirst(|lines|, Markers(lines), 0);
    SplitAreLines(text);
    if k == 0 {
      assert Stripped(text) == "";
      NothingFiresOnEmpty(i);
    } else {
      KeptLines(lines, k);
      assert !Markers(lines)(i);
      if Fires(left, i) { FiresPadded(left, lines, i); }
    }
  }

  /** A run of blank and quoted lines at the end with a quoted one in it. */
  predicate HasQuotedTail(lines: seq<string>) {
    QuotedFrom(lines, TailStart(lines, |lines|))
  }

  lemma JoinShorter(ls: seq<string>, k: nat, i: nat)
    requires k <= i < |ls| && ls[i] != ""
    ensures |Join(ls[..k])| < |Join(ls)|
  {
    JoinFront(ls, i + 1);
    JoinFront(ls[..i + 1], k);
    assert ls[..i + 1][..k] == ls[..k];
    if k < i {
      JoinConcat(ls[..k + 1], ls[k + 1..i + 1]);
    }
    assert ls[..i + 1] == ls[..i] + [ls[i]];
    if i > 0 {
      JoinConcat(ls[..i], [ls[i]]);
      JoinFront(ls[..i], k);
      assert ls[..i][..k] == ls[..k];
    }
  }

  /** Stripping a second time changes the text exactly if a quoted tail stood above the first cut. */
  lemma StrippingTwice(text: string)
    ensures var r := Stripped(text); Stripped(r) == r <==> !HasQuotedTail(Split(r))
  {
    var r := Stripped(text);
    var lines := Split(r);
    StrippedIsTrimmedPrefix(text);
    forall i | 0 <= i < |lines| ensures !Markers(lines)(i) {
      NoMarkerIsLeft(text, i);
    }
    FirstIs(|lines|, Markers(lines), 0, |lines|);
    JoinSplit(r);
    assert lines[..|lines|] == lines;
    if HasQuotedTail(lines) {
      var k := TailStart(lines, |lines|);
      var i :| k <= i < |lines| && IsQuoted(lines[i]);
      QuotedIsVisible(lines[i]);
      JoinShorter(lines, k, i);
      KeptIsPrefix(lines, k);
      assert |Stripped(r)| < |r|;
    } else {
      TrimRightIs(r, IsTrailing, r);
    }
  }

  lemma QuotedIsVisible(line: string)
    requires IsQuoted(line)
    ensures line != ""
  {
  }

  // ---- The reply that was sent -----------------------------------------------------------------------

  /** The text part of an outgoing reply that quotes its parent. */
  function WithQuote(reply: string, attribution: string, parentText: string): string {
    var block := QuoteBlock(attribution, parentText);
    if reply == "" then block else reply + "\n\n" + block
  }

  /** The parent can be read off the text that is sent: below the attribution stands its quote. */
  lemma ParentIsInQuote(reply: string, attribution: string, parentText: string)
    requires parentText != ""
    ensures exists q :: Unquoted(q) == Join(LinesWithoutCr(Split(parentText)))
                        && WithQuote(reply, attribution, parentText)
                        == (if reply == "" then "" else reply + "\n\n") + (attribution + "\n" + q)
  {
    QuotingIsInvertible(parentText);
    assert Unquoted(Quoted(parentText)) == Join(LinesWithoutCr(Split(parentText)));
  }

  /** The lines that decide whether a marker fires inside the reply. */
  function Seam(reply: string, attribution: string): seq<string> {
    Split(reply) + ["", attribution]
  }

  /** No marker fires before the attribution line. */
  predicate Unmistakable(reply: string, attribution: string) {
    forall i :: 0 <= i < |Split(reply)| ==> !Fires(Seam(reply, attribution), i)
  }

  /** What an attribution line says between "On" and "wrote:", on one line within the expression's bound. */
  predicate Attributable(x: string) {
    OneLine(x) && 3 <= |x| <= 400
  }

  lemma OnWroteIsAttribution(x: string)
    requires Attributable(x)
    ensures IsAttribution("On " + x + " wrote:")
  {
    var s := "On " + x + " wrote:";
    assert s[3..3 + |x|] == x;
    assert s[3 + |x|..] == " wrote:";
    assert " wrote:"[6..] == ":";
    assert EndsInColon(":") by { assert ":"[0] == ':'; }
    assert MatchesWith(LOCALES[0], s, |x|);
    assert Matches(LOCALES[0], s);
  }

  lemma AttributionIsBare(s: string)
    requires s != "" && s[0] == 'O' && s[|s| - 1] == ':'
    ensures Bare(s) == s
  {
    BareIsTrimSpace(s);
    TrimmedStays(s);
  }

  lemma AttributionFires(lines: seq<string>, i: nat, x: string)
    requires i < |lines| && lines[i] == "On " + x + " wrote:" && Attributable(x)
    ensures Fires(lines, i)
  {
    OnWroteIsAttribution(x);
    AttributionIsBare(lines[i]);
  }

  lemma {:induction false} JoinedLocally(a: seq<string>, b: seq<string>, i: nat, n: nat)
    requires i + n < |a|
    ensures JoinedLines(a + b, i, n) == JoinedLines(a, i, n)
  {
    if n > 0 { JoinedLocally(a, b, i, n - 1); }
  }

  /** Markers look at most two lines ahead. */
  lemma FiresLocally(a: seq<string>, b: seq<string>, i: nat)
    requires i + 2 < |a|
    ensures Fires(a + b, i) <==> Fires(a, i)
  {
    forall n | 1 <= n <= 2 ensures WrapsOver(a + b, i, n) <==> WrapsOver(a, i, n) {
      JoinedLocally(a, b, i, n);
    }
  }

  /** The lines of the text that is sent: the reply, a blank line, the attribution, the quote. */
  function QuoteTail(parentText: string): seq<string> {
    if parentText == "" then [""] else QuoteLines(Split(parentText))
  }

  lemma SplitAtBlankLine(a: string, b: string)
    ensures Split(a + "\n\n" + b) == Split(a) + ([""] + Split(b))
  {
    SplitConcat("", b);
    SplitConcat(a, "\n" + b);
    assert "" + "\n" + b == "\n" + b;
    assert a + "\n" + ("\n" + b) == a + "\n\n" + b;
    assert Split("") == [""];
  }

  lemma SentLines(reply: string, attribution: string, parentText: string)
    requires reply != "" && OneLine(attribution)
    ensures Split(WithQuote(reply, attribution, parentText)) == Seam(reply, attribution) + QuoteTail(parentText)
  {
    var ls, tail := Split(reply), QuoteTail(parentText);
    BlockLines(attribution, parentText);
    SplitAtBlankLine(reply, QuoteBlock(attribution, parentText));
    assert ls + ([""] + ([attribution] + tail)) == ls + ["", attribution] + tail;
  }

  lemma BlockLines(attribution: string, parentText: string)
    requires OneLine(attribution)
    ensures Split(QuoteBlock(attribution, parentText)) == [attribution] + QuoteTail(parentText)
  {
    SplitLine(attribution);
    if parentText == "" {
      SplitConcat(attribution, "");
      assert attribution + "\n" + "" == attribution + "\n";
    } else {
      SplitQuoted(parentText);
      SplitConcat(attribution, Quoted(parentText));
    }
  }

  /** A line a marker fires on has something to see. */
  lemma FiringIsVisible(lines: seq<string>, i: nat)
    requires i < |lines| && Fires(lines, i)
    ensures !IsEmptyLine(lines[i])
  {
    BareIsTrimSpace(lines[i]);
    assert Bare(lines[i]) != "";
  }

  function Before(lines: seq<string>, k: nat): string
    requires k <= |lines|
  {
    if k == 0 then "" else Join(lines[..k]) + "\n"
  }

  lemma JoinOneMore(lines: seq<string>, k: nat)
    requires k < |lines|
    ensures Join(lines[..k + 1]) == Before(lines, k) + lines[k]
  {
    var front, last := lines[..k], lines[k];
    assert lines[..k + 1] == front + [last];
    if k > 0 {
      JoinConcat(front, [last]);
    } else {
      assert front + [last] == [last];
    }
  }

  lemma LineStands(lines: seq<string>, k: nat)
    requires k < |lines|
    ensures Before(lines, k) + lines[k] <= Join(lines)
  {
    JoinFront(lines, k + 1);
    JoinOneMore(lines, k);
  }

  predicate OnlyBlanks(line: string) {
    forall c :: c in line ==> IsTrailing(c)
  }

  /** Cutting above a line with something on it loses it. */
  lemma CutAbove(lines: seq<string>, k: nat, i: nat)
    requires k <= i < |lines| && !OnlyBlanks(lines[i])
    ensures |Kept(lines, k)| < |TrimRight(Join(lines), IsTrailing)|
  {
    var front := Before(lines, i);
    LineStands(lines, i);
    var c :| c in lines[i] && !IsTrailing(c);
    var j :| 0 <= j < |lines[i]| && lines[i][j] == c;
    TrimRightDrops(Join(lines), IsTrailing);
    assert Join(lines)[|front| + j] == (front + lines[i])[|front| + j] == c;
    JoinFront(lines[..i], k);
    assert lines[..i][..k] == lines[..k];
  }

  /** Cutting before a visible line loses it. */
  lemma CutBeforeVisible(lines: seq<string>, k: nat)
    requires k < |lines| && !IsEmptyLine(lines[k])
    ensures |Kept(lines, k)| < |TrimRight(Join(lines), IsTrailing)|
  {
    VisibleIsMore(lines[k]);
    CutAbove(lines, k, k);
  }

  lemma VisibleIsMore(line: string)
    requires !IsEmptyLine(line)
    ensures !OnlyBlanks(line)
  {
    TrimSpaceEmpty(line);
    var j :| 0 <= j < |line| && !IsSpace(line[j]);
    assert line[j] in line;
  }

  /** The first marker is the attribution itself, or one inside the reply. */
  lemma FirstMarkerOfReply(reply: string, x: string, rest: seq<string>)
    requires Attributable(x)
    ensures var attribution := "On " + x + " wrote:";
            var n := |Split(reply)|;
            var k := CutLine(Seam(reply, attribution) + rest);
            && k <= n + 1
            && (Unmistakable(reply, attribution) <==> k == n + 1)
            && (k <= n ==> k < n && Fires(Seam(reply, attribution), k))
  {
    var attribution := "On " + x + " wrote:";
    var seam := Seam(reply, attribution);
    var lines := seam + rest;
    var n := |Split(reply)|;
    var k := FirstFiring(lines);
    FirstIsFirst(|lines|, Markers(lines), 0);
    AttributionFires(lines, n + 1, x);
    assert Markers(lines)(n + 1);
    BlankNeverFires(lines, n);
    assert !Markers(lines)(n);
    forall i | 0 <= i < n ensures Markers(lines)(i) <==> Fires(seam, i) {
      FiresLocally(seam, rest, i);
    }
  }

  lemma BlankNeverFires(lines: seq<string>, i: nat)
    requires i < |lines| && lines[i] == ""
    ensures !Fires(lines, i)
  {
    assert Bare("") == "";
  }

  lemma StrippedSent(reply: string, attribution: string, parentText: string)
    requires reply != "" && OneLine(attribution)
    ensures var all := Seam(reply, attribution) + QuoteTail(parentText);
            Stripped(WithQuote(reply, attribution, parentText)) == Kept(all, CutLine(all))
  {
    SentLines(reply, attribution, parentText);
  }

  lemma KeptOfReply(reply: string, x: string, rest: seq<string>)
    requires Attributable(x)
    ensures var attribution := "On " + x + " wrote:";
            var all := Seam(reply, attribution) + rest;
            Kept(all, CutLine(all)) == TrimRight(reply, IsTrailing) <==> Unmistakable(reply, attribution)
  {
    var lines := Split(reply);
    var seam := Seam(reply, "On " + x + " wrote:");
    var all := seam + rest;
    var k := CutLine(all);
    FirstMarkerOfReply(reply, x, rest);
    if k < |lines| { FiringIsVisible(seam, k); }
    KeptCases(reply, all, k);
  }

  lemma KeptCases(reply: string, all: seq<string>, k: nat)
    requires Split(reply) + [""] <= all && k <= |Split(reply)| + 1 && k != |Split(reply)|
    requires k < |Split(reply)| ==> !IsEmptyLine(Split(reply)[k])
    ensures Kept(all, k) == TrimRight(reply, IsTrailing) <==> k == |Split(reply)| + 1
  {
    if k < |Split(reply)| { KeptTooLittle(reply, all, k); } else { KeptWithBlankLine(reply, all); }
  }

  /** Stripping gives back the reply that was sent, but for blanks at its end, exactly if no marker fires
      inside it. */
  lemma ReplyComesBack(reply: string, x: string, parentText: string)
    requires Attributable(x)
    ensures var attribution := "On " + x + " wrote:";
            Stripped(WithQuote(reply, attribution, parentText)) == TrimRight(reply, IsTrailing)
            <==> Unmistakable(reply, attribution)
  {
    var attribution := "On " + x + " wrote:";
    assert OneLine(attribution);
    if reply == "" {
      QuoteAloneStripsToNothing(x, parentText);
      BlankNeverFires(Seam("", attribution), 0);
    } else {
      StrippedSent(reply, attribution, parentText);
      KeptOfReply(reply, x, QuoteTail(parentText));
    }
  }

  /** The same with the attribution line the bridge writes. */
  lemma SentReplyComesBack(reply: string, date: string, from: string, parsed: Sender, parentText: string)
    requires Attributable(date + ", " + SenderName(from, parsed))
    ensures var attribution := AttributionLine(date, from, parsed);
            Stripped(WithQuote(reply, attribution, parentText)) == TrimRight(reply, IsTrailing)
            <==> Unmistakable(reply, attribution)
  {
    var x := date + ", " + SenderName(from, parsed);
    assert AttributionLine(date, from, parsed) == "On " + x + " wrote:";
    ReplyComesBack(reply, x, parentText);
  }

  lemma KeptWithBlankLine(reply: string, all: seq<string>)
    requires Split(reply) + [""] <= all
    ensures Kept(all, |Split(reply)| + 1) == TrimRight(reply, IsTrailing)
  {
    var lines := Split(reply);
    assert all[..|lines| + 1] == lines + [""];
    JoinConcat(lines, [""]);
    JoinSplit(reply);
    TrimmedOfBlankLine(reply);
  }

  lemma KeptTooLittle(reply: string, all: seq<string>, k: nat)
    requires Split(reply) <= all && k < |Split(reply)|
    requires !IsEmptyLine(Split(reply)[k])
    ensures Kept(all, k) != TrimRight(reply, IsTrailing)
  {
    var lines := Split(reply);
    assert all[..k] == lines[..k];
    CutBeforeVisible(lines, k);
    JoinSplit(reply);
  }

  lemma TrimmedOfBlankLine(s: string)
    ensures TrimRight(s + "\n" + "", IsTrailing) == TrimRight(s, IsTrailing)
  {
    TrimRightDrops(s, IsTrailing);
    TrimRightIs(s + "\n" + "", IsTrailing, TrimRight(s, IsTrailing));
  }

  /** A reply without a body strips to nothing. */
  lemma QuoteAloneStripsToNothing(x: string, parentText: string)
    requires Attributable(x)
    ensures Stripped(QuoteBlock("On " + x + " wrote:", parentText)) == ""
  {
    var attribution := "On " + x + " wrote:";
    assert OneLine(attribution);
    BlockLines(attribution, parentText);
    var lines := [attribution] + QuoteTail(parentText);
    AttributionFires(lines, 0, x);
    FirstIs(|lines|, Markers(lines), 0, 0);
    assert lines[..0] == [];
  }

  lemma NothingIsKept(reply: string, x: string, rest: seq<string>)
    requires Attributable(x) && OneLine(reply)
    requires Fires(Seam(reply, "On " + x + " wrote:"), 0)
    ensures var all := Seam(reply, "On " + x + " wrote:") + rest; Kept(all, CutLine(all)) == ""
  {
    FirstMarkerOfReply(reply, x, rest);
    SplitLine(reply);
    var all := Seam(reply, "On " + x + " wrote:") + rest;
    assert CutLine(all) == 0;
    assert all[..0] == [];
  }

  /** A one-line reply that starts with "On" is taken for the start of the attribution, and lost. */
  lemma OnReplyIsLost(rest: string, x: string, parentText: string)
    requires Attributable(x) && OneLine(rest) && |rest| + |x| <= 395
    requires rest != "" && !IsSpace(rest[|rest| - 1])
    ensures Stripped(WithQuote("On " + rest, "On " + x + " wrote:", parentText)) == ""
  {
    var reply, attribution := "On " + rest, "On " + x + " wrote:";
    OnReplyFires(rest, x);
    assert OneLine(reply) && OneLine(attribution);
    StrippedSent(reply, attribution, parentText);
    NothingIsKept(reply, x, QuoteTail(parentText));
  }

  lemma OnReplyFires(rest: string, x: string)
    requires Attributable(x) && OneLine(rest) && |rest| + |x| <= 395
    requires rest != "" && !IsSpace(rest[|rest| - 1])
    ensures Fires(Seam("On " + rest, "On " + x + " wrote:"), 0)
  {
    SplitLine("On " + rest);
    OnSpillsOver(rest, x);
    assert Seam("On " + rest, "On " + x + " wrote:") == ["On " + rest, "", "On " + x + " wrote:"];
  }

  lemma OnSpillsOver(rest: string, x: string)
    requires Attributable(x) && OneLine(rest) && |rest| + |x| <= 395
    requires rest != "" && !IsSpace(rest[|rest| - 1])
    ensures Fires(["On " + rest, "", "On " + x + " wrote:"], 0)
  {
    var first, last := "On " + rest, "On " + x + " wrote:";
    var lines := [first, "", last];
    BareIsTrimSpace(first);
    TrimmedStays(first);
    TrimmedStays(last);
    assert TrimSpace("") == "";
    assert JoinedLines(lines, 0, 1) == first + " " + "" by { assert JoinedLines(lines, 0, 0) == first; }
    var y := rest + "  On " + x;
    JoinedOn(rest, x);
    OnWroteIsAttribution(y);
    assert LOCALES[0].prefix <= first;
    assert WrapsOver(lines, 0, 2);
  }

  lemma JoinedOn(rest: string, x: string)
    ensures ("On " + rest) + " " + "" + " " + ("On " + x + " wrote:") == "On " + (rest + "  On " + x) + " wrote:"
  {
  }
}
