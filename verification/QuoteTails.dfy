/** What stripping keeps and what it drops: quoted tails, the other markers one by one, and texts without any. */
module QuoteTails {
  import opened Text
  import opened QuoteText
  import opened QuoteReplies
  import opened QuoteStripping

  /** A line that the sender wrote: there is something on it, and it is not quoted. */
  predicate IsOwn(line: string) {
    !IsEmptyLine(line) && !IsQuoted(line)
  }

  predicate NoMarker(lines: seq<string>) {
    forall i :: 0 <= i < |lines| ==> !Fires(lines, i)
  }

  /** Line `k` is the first after the sender's own lines. */
  predicate OwnEnds(lines: seq<string>, k: nat) {
    && k <= |lines| && (k > 0 ==> IsOwn(lines[k - 1]))
    && forall i :: k <= i < |lines| ==> !IsOwn(lines[i])
  }

  // ---- Quoted tails ----------------------------------------------------------------------------------

  lemma {:induction false} TailStartIs(lines: seq<string>, n: nat, k: nat)
    requires k <= n <= |lines| && (k > 0 ==> IsOwn(lines[k - 1]))
    requires forall i :: k <= i < n ==> !IsOwn(lines[i])
    ensures TailStart(lines, n) == k
  {
    if k < n { TailStartIs(lines, n - 1, k); }
  }

  lemma {:induction false} OwnEndExists(lines: seq<string>, n: nat) returns (k: nat)
    requires n <= |lines| && forall i :: n <= i < |lines| ==> !IsOwn(lines[i])
    ensures OwnEnds(lines, k)
  {
    if n == 0 || IsOwn(lines[n - 1]) { k := n; } else { k := OwnEndExists(lines, n - 1); }
  }

  lemma NothingFires(lines: seq<string>)
    requires NoMarker(lines)
    ensures FirstFiring(lines) == |lines|
  {
    FirstIs(|lines|, Markers(lines), 0, |lines|);
  }

  lemma CutAtOwnEnd(lines: seq<string>, k: nat)
    requires NoMarker(lines) && OwnEnds(lines, k)
    ensures CutLine(lines) == if QuotedFrom(lines, k) then k else |lines|
  {
    NothingFires(lines);
    TailStartIs(lines, |lines|, k);
  }

  /** Where no other marker fires, the text is cut after the sender's last own line if something below it is
      quoted, and is otherwise only trimmed. */
  lemma TailIsCut(text: string, k: nat)
    requires NoMarker(Split(text)) && OwnEnds(Split(text), k)
    ensures Stripped(text) == TrimRight(if QuotedFrom(Split(text), k) then Join(Split(text)[..k]) else text, IsTrailing)
  {
    var lines := Split(text);
    CutAtOwnEnd(lines, k);
    JoinSplit(text);
    assert lines[..|lines|] == lines;
  }

  /** Of the text the lines from `k` on are dropped if one of them is quoted, and blanks at the end. */
  predicate DropsFrom(text: string, k: nat)
    requires k <= |Split(text)|
  {
    Stripped(text) == TrimRight(if QuotedFrom(Split(text), k) then Join(Split(text)[..k]) else text, IsTrailing)
  }

  /** So nothing that the sender wrote is lost: each of the lines below what is kept is blank or quoted, and what
      is kept ends in the sender's own line, unless there was no quoted line to cut. */
  lemma OnlyQuotesAreLost(text: string)
    requires NoMarker(Split(text))
    ensures exists k: nat :: OwnEnds(Split(text), k) && DropsFrom(text, k)
  {
    var k := OwnEndExists(Split(text), |Split(text)|);
    TailIsCut(text, k);
  }

  /** A line is quoted if the first thing on it is a quote mark, and empty if there is nothing but white space. */
  lemma QuotedIff(line: string)
    ensures IsQuoted(line)
            <==> exists i :: 0 <= i < |line| && line[i] == '>' && forall j :: 0 <= j < i ==> IsSpace(line[j])
    ensures IsEmptyLine(line) <==> forall i :: 0 <= i < |line| ==> IsSpace(line[i])
  {
    var r := TrimRight(line, IsSpace);
    var t := TrimSpace(line);
    TrimSpaceEmpty(line);
    TrimRightDrops(line, IsSpace);
    TrimLeftDrops(r, IsSpace);
    var k := |r| - |t|;
    if t != "" { assert t[0] == r[k] == line[k]; }
    if i :| 0 <= i < |line| && line[i] == '>' && forall j :: 0 <= j < i ==> IsSpace(line[j]) {
      assert i < |r| && r[i] == '>';
      assert k == i;
    }
  }

  // ---- A reply above a bare quote ----------------------------------------------------------------------

  /** Each line with something on it is the sender's own or stands above such a line. */
  predicate EndsInOwnText(lines: seq<string>) {
    forall i :: 0 <= i < |lines| && !OnlyBlanks(lines[i]) ==> exists j :: i <= j < |lines| && IsOwn(lines[j])
  }

  /** Lines of blanks at the end are trimmed off. */
  lemma {:induction false} BlankLinesTrim(lines: seq<string>, k: nat)
    requires k <= |lines| && forall i :: k <= i < |lines| ==> OnlyBlanks(lines[i])
    ensures TrimRight(Join(lines), IsTrailing) == TrimRight(Join(lines[..k]), IsTrailing)
    decreases |lines|
  {
    if k < |lines| {
      var front, last := lines[..|lines| - 1], lines[|lines| - 1];
      assert lines == front + [last] && front[..k] == lines[..k];
      BlankLinesTrim(front, k);
      var tail := if front == [] then last else "\n" + last;
      if front != [] { JoinConcat(front, [last]); }
      assert Join(lines) == Join(front) + tail;
      TrimmedWithTail(Join(front), tail);
    } else {
      assert lines[..k] == lines;
    }
  }

  lemma TrimmedWithTail(s: string, tail: string)
    requires forall i :: 0 <= i < |tail| ==> IsTrailing(tail[i])
    ensures TrimRight(s + tail, IsTrailing) == TrimRight(s, IsTrailing)
  {
    TrimRightDrops(s, IsTrailing);
    TrimRightIs(s + tail, IsTrailing, TrimRight(s, IsTrailing));
  }

  lemma KeepsIff(lines: seq<string>, k: nat)
    requires OwnEnds(lines, k)
    ensures Kept(lines, k) == TrimRight(Join(lines), IsTrailing) <==> EndsInOwnText(lines)
  {
    if EndsInOwnText(lines) {
      forall i | k <= i < |lines| ensures OnlyBlanks(lines[i]) {
      }
      BlankLinesTrim(lines, k);
    } else {
      assert k == 0 || IsOwn(lines[k - 1]);
      var i :| 0 <= i < |lines| && !OnlyBlanks(lines[i]) && forall j :: i <= j < |lines| ==> !IsOwn(lines[j]);
      CutAbove(lines, k, i);
    }
  }

  /** A quoted line stays quoted, and no marker fires on it. */
  lemma QuotesNeverFire(lines: seq<string>, i: nat)
    requires i < |lines| && ">" <= lines[i]
    ensures IsQuoted(lines[i]) && !Fires(lines, i)
  {
    var l := lines[i];
    var r := TrimRight(l, IsSpace);
    TrimRightDrops(l, IsSpace);
    assert l[0] == '>' && r[0] == '>';
    TrimLeftIs(r, IsSpace, r);
    if Fires(lines, i) { FiringStarts(lines, i); }
  }

  lemma MatchShows(l: Locale, s: string, m: nat)
    requires MatchesWith(l, s, m)
    ensures l.prefix <= s && ':' in s
  {
    var t := s[|l.prefix| + m..][|l.verb|..];
    assert EndsAfterVerb(l, t);
    if l.nameAfterVerb {
      var n :| 1 <= n <= 200 && n <= |t| && OneLine(t[..n]) && EndsInColon(t[n..]);
      ColonWithin(t[n..]);
    } else {
      ColonWithin(t);
    }
    assert ':' in t;
  }

  lemma ColonWithin(s: string)
    requires EndsInColon(s)
    ensures ':' in s
  {
  }

  /** A line that introduces a quote starts with a connective, and there is a colon in it. */
  lemma AttributionStarts(s: string)
    requires IsAttribution(s)
    ensures HasAttributionPrefix(s) && ':' in s
  {
    var k :| 0 <= k < |LOCALES| && Matches(LOCALES[k], s);
    var m :| 3 <= m <= 400 && MatchesWith(LOCALES[k], s, m);
    MatchShows(LOCALES[k], s, m);
  }

  lemma ConnectiveStarts(s: string)
    requires HasAttributionPrefix(s)
    ensures s != "" && s[0] in {'O', 'L', 'A', 'E', 'I'}
  {
    var k :| 0 <= k < |LOCALES| && LOCALES[k].prefix <= s;
    assert s[0] == LOCALES[k].prefix[0];
  }

  lemma DividerStarts(s: string)
    requires IsDivider(s)
    ensures "-" <= s || "_" <= s
  {
  }

  lemma FromHasColon(s: string)
    requires "From: " <= s
    ensures s[0] == 'F' && ':' in s
  {
    assert s[4] == "From: "[4] == ':';
  }

  /** On a line that starts otherwise, or without a colon, no marker fires. */
  lemma FiringStarts(lines: seq<string>, i: nat)
    requires i < |lines| && Fires(lines, i)
    ensures var l := TrimSpace(lines[i]);
            l != "" && l[0] != '>' && (HasAttributionPrefix(l) || "-" <= l || "_" <= l || ':' in l)
  {
    var l := TrimSpace(lines[i]);
    BareIsTrimSpace(lines[i]);
    if IsAttribution(l) { AttributionStarts(l); }
    if HasAttributionPrefix(l) {
      ConnectiveStarts(l);
    } else if IsDivider(l) {
      DividerStarts(l);
    } else {
      FromHasColon(l);
    }
  }

  /** The lines of a reply above the quote of its parent. */
  function AboveQuote(reply: string, parentText: string): seq<string> {
    Split(reply) + ([""] + QuoteLines(Split(parentText)))
  }

  /** A reply above nothing but the quote of its parent comes back, but for blanks at its end, exactly if no
      marker fires inside it and it ends in the sender's own text. */
  lemma BareQuoteIsCut(reply: string, parentText: string)
    ensures Stripped(reply + "\n\n" + Quoted(parentText)) == TrimRight(reply, IsTrailing)
            <==> && (forall i :: 0 <= i < |Split(reply)| ==> !Fires(AboveQuote(reply, parentText), i))
                 && EndsInOwnText(Split(reply))
  {
    var lines, all := Split(reply), AboveQuote(reply, parentText);
    SplitAtBlankLine(reply, Quoted(parentText));
    SplitQuoted(parentText);
    JoinSplit(reply);
    QuotesBelow(reply, parentText);
    if i :| 0 <= i < |lines| && Fires(all, i) {
      BareQuoteMarked(reply, parentText);
    } else {
      BareQuoteUnmarked(lines, all);
    }
  }

  lemma BareQuoteUnmarked(lines: seq<string>, all: seq<string>)
    requires lines <= all && |all| >= |lines| + 2 && NoMarker(all) && IsQuoted(all[|lines| + 1])
    requires forall i :: |lines| <= i < |all| ==> !IsOwn(all[i])
    ensures Kept(all, CutLine(all)) == TrimRight(Join(lines), IsTrailing) <==> EndsInOwnText(lines)
  {
    var k := OwnEndExists(lines, |lines|);
    OwnEndStays(lines, all, k);
    CutAtOwnEnd(all, k);
    KeepsIff(lines, k);
  }

  lemma OwnEndStays(lines: seq<string>, all: seq<string>, k: nat)
    requires lines <= all && OwnEnds(lines, k) && forall i :: |lines| <= i < |all| ==> !IsOwn(all[i])
    ensures OwnEnds(all, k) && Kept(all, k) == Kept(lines, k)
  {
    assert all[..k] == lines[..k];
    forall i | k <= i < |all| ensures !IsOwn(all[i]) {
      if i < |lines| { assert all[i] == lines[i]; }
    }
  }

  lemma QuotesBelow(reply: string, parentText: string)
    ensures var all, n := AboveQuote(reply, parentText), |Split(reply)|;
            && |all| >= n + 2
            && (forall i :: n <= i < |all| ==> !Fires(all, i) && !IsOwn(all[i]) && (i > n ==> IsQuoted(all[i])))
  {
    var quotes := QuoteLines(Split(parentText));
    forall i | 0 <= i < |quotes| ensures ">" <= quotes[i] {
    }
    SilentBelow(Split(reply), quotes);
  }

  lemma SilentBelow(lines: seq<string>, quotes: seq<string>)
    requires forall i :: 0 <= i < |quotes| ==> ">" <= quotes[i]
    ensures var all, n := lines + ([""] + quotes), |lines|;
            forall i :: n <= i < |all| ==> !Fires(all, i) && !IsOwn(all[i]) && (i > n ==> IsQuoted(all[i]))
  {
    var all, n := lines + ([""] + quotes), |lines|;
    forall i | n <= i < |all| ensures !Fires(all, i) && !IsOwn(all[i]) && (i > n ==> IsQuoted(all[i])) {
      if i == n {
        BlankNeverFires(all, i);
      } else {
        assert all[i] == quotes[i - n - 1];
        QuotesNeverFire(all, i);
      }
    }
  }

  lemma BareQuoteMarked(reply: string, parentText: string)
    requires exists i :: 0 <= i < |Split(reply)| && Fires(AboveQuote(reply, parentText), i)
    ensures var all := AboveQuote(reply, parentText); Kept(all, CutLine(all)) != TrimRight(reply, IsTrailing)
  {
    var all := AboveQuote(reply, parentText);
    var i :| 0 <= i < |Split(reply)| && Fires(all, i);
    var k := FirstFiring(all);
    FirstIsFirst(|all|, Markers(all), 0);
    assert Markers(all)(i);
    FiringIsVisible(all, k);
    KeptTooLittle(reply, all, k);
  }

  // ---- Texts without markers ---------------------------------------------------------------------------

  /** A line none of the markers can start on. */
  predicate Innocent(line: string) {
    && ':' !in line && !HasAttributionPrefix(TrimSpace(line))
    && !("-" <= TrimSpace(line)) && !("_" <= TrimSpace(line)) && !IsQuoted(line)
  }

  predicate AllInnocent(lines: seq<string>) {
    forall i :: 0 <= i < |lines| ==> Innocent(lines[i])
  }

  lemma TrimmedIn(line: string, c: char)
    ensures c in TrimSpace(line) ==> c in line
  {
    var r := TrimRight(line, IsSpace);
    TrimRightDrops(line, IsSpace);
    TrimLeftDrops(r, IsSpace);
  }

  lemma InnocentNeverFires(lines: seq<string>, i: nat)
    requires i < |lines| && Innocent(lines[i])
    ensures !Fires(lines, i)
  {
    TrimmedIn(lines[i], ':');
    if Fires(lines, i) { FiringStarts(lines, i); }
  }

  /** Text without a colon, a dash, an underscore or a quote mark in the wrong place is kept as it is. */
  lemma InnocentTextIsKept(text: string)
    requires AllInnocent(Split(text))
    ensures Stripped(text) == TrimRight(text, IsTrailing)
  {
    var lines := Split(text);
    forall i | 0 <= i < |lines| ensures !Fires(lines, i) {
      InnocentNeverFires(lines, i);
    }
    var k := OwnEndExists(lines, |lines|);
    TailIsCut(text, k);
    assert forall i :: 0 <= i < |lines| ==> !IsQuoted(lines[i]);
  }

  // ---- Each marker cuts --------------------------------------------------------------------------------

  /** Below innocent text the first line a marker fires on is the cut. */
  lemma CutsAtMarker(head: string, tail: string)
    requires AllInnocent(Split(head)) && Fires(Split(tail), 0)
    ensures Stripped(head + "\n" + tail) == TrimRight(head, IsTrailing)
  {
    var front, back := Split(head), Split(tail);
    var lines := front + back;
    SplitConcat(head, tail);
    forall i | 0 <= i < |front| ensures !Markers(lines)(i) {
      InnocentNeverFires(lines, i);
    }
    FiresFurtherDown(front, back);
    FirstIs(|lines|, Markers(lines), 0, |front|);
    assert lines[..|front|] == front;
    JoinSplit(head);
  }

  lemma {:induction false} JoinedFurtherDown(front: seq<string>, back: seq<string>, n: nat)
    requires n < |back|
    ensures JoinedLines(front + back, |front|, n) == JoinedLines(back, 0, n)
  {
    if n > 0 { JoinedFurtherDown(front, back, n - 1); }
  }

  lemma FiresFurtherDown(front: seq<string>, back: seq<string>)
    requires back != [] && Fires(back, 0)
    ensures Fires(front + back, |front|)
  {
    if Wraps(back, 0) {
      var n :| 1 <= n <= 2 && WrapsOver(back, 0, n);
      JoinedFurtherDown(front, back, n);
      assert WrapsOver(front + back, |front|, n);
    }
  }

  lemma VisibleEnds(s: string)
    requires s != "" && !IsSpace(s[0]) && !IsSpace(s[|s| - 1])
    ensures Bare(s) == s
  {
    BareIsTrimSpace(s);
    TrimmedStays(s);
  }

  /** Outlook's dividers. */
  lemma DividersCut(head: string, n: nat, rest: string)
    requires AllInnocent(Split(head)) && n >= 12
    ensures Stripped(head + "\n" + ("-----Original Message-----" + "\n" + rest)) == TrimRight(head, IsTrailing)
    ensures Stripped(head + "\n" + (Underscores(n) + "\n" + rest)) == TrimRight(head, IsTrailing)
  {
    DashesFire(rest);
    UnderscoresFire(n, rest);
    CutsAtMarker(head, "-----Original Message-----" + "\n" + rest);
    CutsAtMarker(head, Underscores(n) + "\n" + rest);
  }

  lemma DashesFire(rest: string)
    ensures Fires(Split("-----Original Message-----" + "\n" + rest), 0)
  {
    var dashes := "-----Original Message-----";
    VisibleEnds(dashes);
    LineFires(dashes, rest);
  }

  lemma UnderscoresFire(n: nat, rest: string)
    requires n >= 12
    ensures Fires(Split(Underscores(n) + "\n" + rest), 0)
  {
    VisibleEnds(Underscores(n));
    LineFires(Underscores(n), rest);
  }

  function Underscores(n: nat): (s: string)
    ensures |s| == n && forall i :: 0 <= i < n ==> s[i] == '_'
  {
    seq(n, i => '_')
  }

  lemma LineFires(l: string, rest: string)
    requires OneLine(l) && Bare(l) == l && (IsDivider(l) || IsAttribution(l))
    ensures Fires(Split(l + "\n" + rest), 0)
  {
    SplitConcat(l, rest);
    SplitLine(l);
  }

  /** A header block starts with the sender, and the date, the recipients or the subject follow. */
  lemma HeadersCut(head: string, sender: string, field: string, value: string, rest: string)
    requires AllInnocent(Split(head)) && field in {"Sent: ", "Date: ", "To: ", "Subject: "}
    requires OneLine(sender) && OneLine(value) && sender != "" && value != ""
    requires !IsSpace(sender[|sender| - 1]) && !IsSpace(value[|value| - 1])
    ensures Stripped(head + "\n" + ("From: " + sender + "\n" + (field + value + "\n" + rest)))
         == TrimRight(head, IsTrailing)
  {
    var first, second := "From: " + sender, field + value;
    FieldFollows(field, value);
    VisibleEnds(first);
    CutsAtHeaders(head, sender, second, rest);
  }

  lemma CutsAtHeaders(head: string, sender: string, second: string, rest: string)
    requires AllInnocent(Split(head)) && OneLine(sender) && OneLine(second)
    requires Bare("From: " + sender) == "From: " + sender && TrimSpace(second) == second && IsHeaderAfterFrom(second)
    ensures Stripped(head + "\n" + ("From: " + sender + "\n" + (second + "\n" + rest)))
         == TrimRight(head, IsTrailing)
  {
    var first := "From: " + sender;
    TwoLines(first, second, rest);
    HeadersFire(Split(first + "\n" + (second + "\n" + rest)), sender, second);
    CutsAtMarker(head, first + "\n" + (second + "\n" + rest));
  }

  lemma TwoLines(first: string, second: string, rest: string)
    requires OneLine(first) && OneLine(second)
    ensures Split(first + "\n" + (second + "\n" + rest)) == [first] + ([second] + Split(rest))
  {
    SplitConcat(first, second + "\n" + rest);
    SplitConcat(second, rest);
    SplitLine(first);
    SplitLine(second);
  }

  lemma HeadersFire(lines: seq<string>, sender: string, second: string)
    requires |lines| >= 2 && lines[0] == "From: " + sender && lines[1] == second
    requires Bare("From: " + sender) == "From: " + sender
    requires TrimSpace(second) == second && IsHeaderAfterFrom(second)
    ensures Fires(lines, 0)
  {
    assert "From: " <= "From: " + sender;
  }

  lemma FieldFollows(field: string, value: string)
    requires field in {"Sent: ", "Date: ", "To: ", "Subject: "} && value != "" && !IsSpace(value[|value| - 1])
    ensures OneLine(value) ==> OneLine(field + value)
    ensures TrimSpace(field + value) == field + value && IsHeaderAfterFrom(field + value)
  {
    TrimmedStays(field + value);
    assert field <= field + value;
  }

  /** The line that introduces a quote, in each language, between the connective and the colon. */
  function Introduction(language: nat, x: string, name: string): string
    requires language < 7
  {
    if language == 0 then "On " + x + " wrote"
    else if language == 1 then "Le " + x + " a \U{e9}crit"
    else if language == 2 then "Am " + x + " schrieb " + name
    else if language == 3 then "El " + x + " escribi\U{f3}"
    else if language == 4 then "Il " + x + " ha scritto"
    else if language == 5 then "Em " + x + " escreveu"
    else "Op " + x + " schreef " + name
  }

  lemma LocaleMatches(l: Locale, x: string, name: string, space: string)
    requires Attributable(x) && OneLine(name) && 1 <= |name| <= 200 && ReSpaces(space)
    ensures MatchesWith(l, l.prefix + x + l.verb + (if l.nameAfterVerb then name else "") + space + ":", |x|)
  {
    var ending := (if l.nameAfterVerb then name else "") + (space + ":");
    var s := l.prefix + x + l.verb + (if l.nameAfterVerb then name else "") + space + ":";
    assert s == l.prefix + x + (l.verb + ending);
    assert s[|l.prefix|..|l.prefix| + |x|] == x;
    assert s[|l.prefix| + |x|..] == l.verb + ending;
    assert (l.verb + ending)[|l.verb|..] == ending;
    Colon(space);
    if l.nameAfterVerb {
      assert ending[..|name|] == name && ending[|name|..] == space + ":";
    } else {
      assert ending == space + ":";
    }
  }

  lemma IntroductionMatches(language: nat, x: string, name: string, space: string)
    requires language < 7 && Attributable(x) && OneLine(name) && 1 <= |name| <= 200 && ReSpaces(space)
    ensures IsAttribution(Introduction(language, x, name) + space + ":")
  {
    IntroductionParts(language, x, name);
    LocaleMatches(LOCALES[language], x, name, space);
    assert Matches(LOCALES[language], Introduction(language, x, name) + space + ":");
  }

  lemma Colon(space: string)
    requires ReSpaces(space)
    ensures EndsInColon(space + ":")
  {
    var s := space + ":";
    assert s[|space|] == ':' && s[..|space|] == space && s[|space| + 1..] == "";
  }

  lemma IntroductionParts(language: nat, x: string, name: string)
    requires language < 7
    ensures var l := LOCALES[language];
            Introduction(language, x, name) == l.prefix + x + l.verb + (if l.nameAfterVerb then name else "")
  {
  }

  lemma IntroductionIsLine(language: nat, x: string, name: string)
    requires language < 7 && OneLine(x) && OneLine(name)
    ensures OneLine(Introduction(language, x, name))
  {
  }

  /** The line that introduces the quote cuts, in each of the seven languages. */
  lemma IntroductionsCut(head: string, language: nat, x: string, name: string, space: string, rest: string)
    requires AllInnocent(Split(head)) && language < 7 && Attributable(x) && OneLine(name) && 1 <= |name| <= 200
    requires ReSpaces(space) && OneLine(space)
    ensures Stripped(head + "\n" + (Introduction(language, x, name) + space + ":" + "\n" + rest))
         == TrimRight(head, IsTrailing)
  {
    var line := Introduction(language, x, name) + space + ":";
    IntroductionMatches(language, x, name, space);
    IntroductionIsLine(language, x, name);
    AttributionStarts(line);
    ConnectiveStarts(line);
    VisibleEnds(line);
    LineFires(line, rest);
    CutsAtMarker(head, line + "\n" + rest);
  }
}
