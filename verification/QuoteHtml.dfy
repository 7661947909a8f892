/** The HTML half of quoting: cutting the quoted history off an incoming reply, and the quote an outgoing
    reply carries. */
module QuoteHtml {
  import opened Text
  import opened QuoteText

  // ---- The cut ---------------------------------------------------------------------------------------

  const GMAIL_DIV := "<div class=\"gmail_quote"
  const GMAIL_BLOCKQUOTE := "<blockquote class=\"gmail_quote"
  const APPLE_MAIL := "<blockquote type=\"cite\""
  const OUTLOOK_WEB := "<div id=\"appendonsend\""
  const NEW_OUTLOOK := "<div id=\"mail-editor-" + "reference-message-container\""
  const OUTLOOK_DIVIDER := "<hr id=\"stopspelling\""
  const OUTLOOK_DESKTOP := "<div style=\"border:none;border-top:solid"
  const OUTLOOK_SPACED := "<div style=\"border-top:solid"

  const MARKERS: seq<string> := [
    GMAIL_DIV, GMAIL_BLOCKQUOTE, APPLE_MAIL, OUTLOOK_WEB, NEW_OUTLOOK, OUTLOOK_DIVIDER, OUTLOOK_DESKTOP, OUTLOOK_SPACED
  ]

  predicate Occurs(s: string, m: string, i: nat) {
    i + |m| <= |s| && s[i..i + |m|] == m
  }

  function OccursIn(s: string, m: string): nat -> bool {
    (i: nat) => Occurs(s, m, i)
  }

  /** strings.Index, with the length of the string for "not found". */
  function IndexOf(s: string, m: string): (i: nat)
    ensures i <= |s|
  {
    First(|s|, OccursIn(s, m), 0)
  }

  /** A marker starts at `i`, whatever the case of its letters. */
  predicate MarkerAt(html: string, i: nat) {
    exists k :: 0 <= k < |MARKERS| && Occurs(ToLower(html), MARKERS[k], i)
  }

  predicate HasMarker(html: string) {
    exists i :: 0 <= i < |html| && MarkerAt(html, i)
  }

  function MarkersIn(html: string): nat -> bool {
    (i: nat) => MarkerAt(html, i)
  }

  function FirstMarker(html: string): (i: nat)
    ensures i <= |html|
  {
    First(|html|, MarkersIn(html), 0)
  }

  // ---- Break tags before the cut ---------------------------------------------------------------------

  function WithoutSlash(s: string): string {
    if s != "" && s[|s| - 1] == '/' then s[..|s| - 1] else s
  }

  predicate IsBreakName(inner: string) {
    var tag := TrimSpace(WithoutSlash(ToLower(TrimSpace(inner))));
    tag == "br" || "br " <= tag
  }

  function LastLt(s: string): (i: int)
    ensures -1 <= i < |s| && (i >= 0 ==> s[i] == '<') && forall j :: i < j < |s| ==> s[j] != '<'
  {
    if s == "" then -1 else if s[|s| - 1] == '<' then |s| - 1 else LastLt(s[..|s| - 1])
  }

  /** trimTrailingBR. */
  function TrimTrailingBreak(s: string): (r: string)
    ensures r <= s
  {
    if s == "" || s[|s| - 1] != '>' then s
    else
      var lt := LastLt(s);
      if lt < 0 || !IsBreakName(s[lt + 1..|s| - 1]) then s else s[..lt]
  }

  function TrimBreaks(s: string): (r: string)
    ensures r <= s
    decreases |s|
  {
    var trimmed := TrimTrailingBreak(s);
    if trimmed == s then s else TrimBreaks(TrimRight(trimmed, IsTrailing))
  }

  function StrippedHtml(html: string): string {
    var cut := FirstMarker(html);
    if cut == |html| then html else TrimBreaks(TrimRight(html[..cut], IsTrailing))
  }

  method StripQuotedReplyHTML(html: string) returns (out: string)
    ensures out == StrippedHtml(html)
  {
    if html == "" { return ""; }
    var lower := ToLower(html);
    var cut: nat := |html|;
    for k := 0 to |MARKERS|
      invariant CutAmong(html, cut, k)
    {
      var idx := IndexOf(lower, MARKERS[k]);
      CutAmongNext(html, cut, k);
      if idx < cut {
        cut := idx;
      }
    }
    CutAmongAll(html, cut);
    if cut == |html| { return html; }
    out := TrimRight(html[..cut], IsTrailing);
    while true
      invariant TrimBreaks(out) == StrippedHtml(html)
      decreases |out|
    {
      var trimmed := TrimTrailingBreak(out);
      if trimmed == out { break; }
      out := TrimRight(trimmed, IsTrailing);
    }
  }

  /** `cut` is where the first of the first `n` markers starts. */
  predicate CutAmong(html: string, cut: nat, n: nat)
    requires n <= |MARKERS|
  {
    && cut <= |html|
    && (cut < |html| ==> exists k :: 0 <= k < n && Occurs(ToLower(html), MARKERS[k], cut))
    && forall i, k :: 0 <= i < cut && 0 <= k < n ==> !Occurs(ToLower(html), MARKERS[k], i)
  }

  lemma CutAmongNext(html: string, cut: nat, n: nat)
    requires n < |MARKERS| && CutAmong(html, cut, n)
    ensures var idx := IndexOf(ToLower(html), MARKERS[n]);
            CutAmong(html, if idx < cut then idx else cut, n + 1)
  {
    var lower := ToLower(html);
    FirstIsFirst(|lower|, OccursIn(lower, MARKERS[n]), 0);
    var idx := IndexOf(lower, MARKERS[n]);
    forall i | 0 <= i < idx ensures !Occurs(lower, MARKERS[n], i) {
      assert !OccursIn(lower, MARKERS[n])(i);
    }
  }

  lemma CutAmongAll(html: string, cut: nat)
    requires CutAmong(html, cut, |MARKERS|)
    ensures cut == FirstMarker(html)
  {
    FirstIs(|html|, MarkersIn(html), 0, cut);
  }

  // ---- What is cut -----------------------------------------------------------------------------------

  /** Stripping only cuts off at the end. */
  lemma StrippedHtmlIsPrefix(html: string)
    ensures StrippedHtml(html) <= html[..FirstMarker(html)]
  {
  }

  lemma MarkerStays(short: string, long: string, i: nat)
    requires short <= long && MarkerAt(short, i)
    ensures MarkerAt(long, i)
  {
    var k :| 0 <= k < |MARKERS| && Occurs(ToLower(short), MARKERS[k], i);
    assert ToLower(short) <= ToLower(long);
    assert Occurs(ToLower(long), MARKERS[k], i);
  }

  /** No quote marker is left. */
  lemma NoMarkerIsLeft(html: string)
    ensures !HasMarker(StrippedHtml(html))
  {
    var r := StrippedHtml(html);
    FirstIsFirst(|html|, MarkersIn(html), 0);
    forall i | 0 <= i < |r| ensures !MarkerAt(r, i) {
      assert !MarkersIn(html)(i);
      if MarkerAt(r, i) { MarkerStays(r, html, i); }
    }
  }

  lemma UnmarkedIsKept(html: string)
    requires !HasMarker(html)
    ensures StrippedHtml(html) == html
  {
    FirstIs(|html|, MarkersIn(html), 0, |html|);
  }

  lemma StrippingHtmlIsIdempotent(html: string)
    ensures StrippedHtml(StrippedHtml(html)) == StrippedHtml(html)
  {
    NoMarkerIsLeft(html);
    UnmarkedIsKept(StrippedHtml(html));
  }

  /** A run of white space and of break tags. */
  predicate IsBreakTag(s: string) {
    |s| >= 2 && s[0] == '<' && s[|s| - 1] == '>' && '<' !in s[1..] && IsBreakName(s[1..|s| - 1])
  }

  predicate IsBlankRun(s: string)
    decreases |s|
  {
    s == "" || (IsTrailing(s[0]) && IsBlankRun(s[1..]))
    || exists k :: 0 < k <= |s| && IsBreakTag(s[..k]) && IsBlankRun(s[k..])
  }

  lemma {:induction false} BlanksBeforeRun(s: string, run: string)
    requires forall i :: 0 <= i < |s| ==> IsTrailing(s[i])
    requires IsBlankRun(run)
    ensures IsBlankRun(s + run)
  {
    if s == "" {
      assert s + run == run;
    } else {
      BlanksBeforeRun(s[1..], run);
      assert (s + run)[1..] == s[1..] + run;
    }
  }

  lemma BreakBeforeRun(tag: string, run: string)
    requires IsBreakTag(tag) && IsBlankRun(run)
    ensures IsBlankRun(tag + run)
  {
    assert (tag + run)[..|tag|] == tag && (tag + run)[|tag|..] == run;
  }

  /** What trimTrailingBR takes off is one break tag. */
  lemma TrimmedIsBreak(s: string)
    requires TrimTrailingBreak(s) != s
    ensures IsBreakTag(s[|TrimTrailingBreak(s)|..])
  {
    var lt := LastLt(s);
    TagFrom(s, lt, s[lt + 1..|s| - 1]);
  }

  lemma TagFrom(s: string, lt: nat, name: string)
    requires lt + 1 < |s| && s[lt] == '<' && s[|s| - 1] == '>' && forall j :: lt < j < |s| ==> s[j] != '<'
    requires name == s[lt + 1..|s| - 1] && IsBreakName(name)
    ensures IsBreakTag(s[lt..])
  {
    var tag := s[lt..];
    assert tag[1..] == s[lt + 1..];
    assert tag[1..|tag| - 1] == name;
  }

  lemma DropTwice(s: string, mid: string, front: string, rest: string)
    requires front <= mid <= s
    ensures s[|front|..] + rest == mid[|front|..] + (s[|mid|..] + rest)
  {
    var all := s[|front|..] + rest;
    var gap := mid[|front|..];
    assert all[..|gap|] == gap;
    assert all[|gap|..] == s[|mid|..] + rest;
    assert all == all[..|gap|] + all[|gap|..];
  }

  lemma BlanksOffTheEnd(s: string, mid: string, run: string)
    requires mid <= s && IsBlankRun(s[|mid|..] + run)
    ensures IsBlankRun(s[|TrimRight(mid, IsTrailing)|..] + run)
  {
    var next := TrimRight(mid, IsTrailing);
    TrimRightDrops(mid, IsTrailing);
    BlanksBeforeRun(mid[|next|..], s[|mid|..] + run);
    DropTwice(s, mid, next, run);
  }

  /** Nothing but white space and break tags is trimmed. */
  lemma {:induction false} TrimBreaksDrops(s: string, rest: string)
    requires IsBlankRun(rest)
    ensures IsBlankRun(s[|TrimBreaks(s)|..] + rest)
    decreases |s|
  {
    var trimmed := TrimTrailingBreak(s);
    if trimmed == s {
      assert s[|s|..] + rest == rest;
    } else {
      var next := TrimRight(trimmed, IsTrailing);
      TrimmedIsBreak(s);
      BreakBeforeRun(s[|trimmed|..], rest);
      BlanksOffTheEnd(s, trimmed, rest);
      TrimBreaksDrops(next, s[|next|..] + rest);
      DropTwice(s, next, TrimBreaks(next), rest);
    }
  }

  /** And neither is left at the end. */
  lemma {:induction false} TrimBreaksEnds(s: string)
    requires s != "" ==> !IsTrailing(s[|s| - 1])
    ensures var r := TrimBreaks(s); (r != "" ==> !IsTrailing(r[|r| - 1])) && TrimTrailingBreak(r) == r
    decreases |s|
  {
    var trimmed := TrimTrailingBreak(s);
    if trimmed != s {
      EndsVisibly(trimmed);
      TrimBreaksEnds(TrimRight(trimmed, IsTrailing));
    }
  }

  lemma EndsVisibly(s: string)
    ensures var r := TrimRight(s, IsTrailing); r != "" ==> !IsTrailing(r[|r| - 1])
  {
    TrimRightDrops(s, IsTrailing);
  }

  lemma RightTrimIsBlankRun(s: string)
    ensures IsBlankRun(s[|TrimRight(s, IsTrailing)|..])
  {
    var r := TrimRight(s, IsTrailing);
    TrimRightDrops(s, IsTrailing);
    BlanksBeforeRun(s[|r|..], "");
    assert s[|r|..] + "" == s[|r|..];
  }

  /** Between what is kept and the first marker stands nothing visible. */
  lemma OnlyBlanksAreLost(html: string)
    ensures IsBlankRun(html[|StrippedHtml(html)|..FirstMarker(html)])
  {
    var cut := FirstMarker(html);
    if cut == |html| {
      assert html[|html|..cut] == "";
    } else {
      var front := html[..cut];
      var s := TrimRight(front, IsTrailing);
      RightTrimIsBlankRun(front);
      TrimBreaksDrops(s, front[|s|..]);
      TailOf(html, cut, s, TrimBreaks(s));
    }
  }

  lemma TailOf(html: string, cut: nat, s: string, r: string)
    requires cut <= |html| && r <= s <= html[..cut]
    ensures html[|r|..cut] == s[|r|..] + html[..cut][|s|..]
  {
  }

  /** No blank and no break tag is left before the cut. */
  lemma CutEndsVisibly(html: string)
    requires HasMarker(html)
    ensures var r := StrippedHtml(html); (r != "" ==> !IsTrailing(r[|r| - 1])) && TrimTrailingBreak(r) == r
  {
    var i :| 0 <= i < |html| && MarkerAt(html, i);
    assert MarkersIn(html)(i);
    FirstIsFirst(|html|, MarkersIn(html), 0);
    var front := html[..FirstMarker(html)];
    EndsVisibly(front);
    TrimBreaksEnds(TrimRight(front, IsTrailing));
  }

  // ---- The quote of an outgoing reply ----------------------------------------------------------------

  /** htmlEscape for one character. */
  function EscapeChar(c: char): string {
    if c == '&' then "&amp;" else if c == '<' then "&lt;" else if c == '>' then "&gt;"
    else if c == '\"' then "&quot;" else [c]
  }

  function Escaped(s: string): string {
    if s == "" then "" else EscapeChar(s[0]) + Escaped(s[1..])
  }

  /** htmlEscapeOutbound. */
  function EscapedBody(s: string): string {
    if s == "" then "" else (if s[0] == '\n' then "<br>" else EscapeChar(s[0])) + EscapedBody(s[1..])
  }

  const QUOTE_OPEN := GMAIL_DIV + " gmail_quote_container\"><div dir=\"ltr\" class=\"gmail_attr\">"
  const QUOTE_STYLE :=
    "<br></div>" + "<blockquote class=\"gmail_quote\" style=\"margin:0px 0px 0px 0.8ex;"
    + "border-left:1px solid rgb(204,204,204);padding-left:1ex\">"

  /** FormatGmailQuoteHTML. */
  function QuoteBlockHtml(attribution: string, parentHtml: string): string {
    if parentHtml == "" then ""
    else QUOTE_OPEN + Escaped(attribution) + QUOTE_STYLE + parentHtml + "</blockquote></div>"
  }

  const OPEN := "<div dir=\"ltr\">"
  const CLOSE := "</div>"

  /** The HTML part of an outgoing reply that quotes its parent; `html` is empty for a plain-text reply. */
  function WithQuoteHtml(html: string, text: string, attribution: string, parentHtml: string): string {
    var body := if html != "" then html else EscapedBody(text);
    OPEN + body + CLOSE + "<br>" + QuoteBlockHtml(attribution, parentHtml)
  }

  // ---- The reply that was sent -----------------------------------------------------------------------

  lemma LowerConcat(a: string, b: string)
    ensures ToLower(a + b) == ToLower(a) + ToLower(b)
  {
  }

  /** No marker reaches over a "<": each has its only one at the front. */
  lemma MarkerHasOneLt(k: nat, j: nat)
    requires k < |MARKERS| && 0 < j < |MARKERS[k]|
    ensures MARKERS[k][j] != '<'
  {
    GmailHasOneLt();
    OutlookHasOneLt();
    NewOutlookHasOneLt();
    assert HasOneLt(MARKERS[k]);
  }

  predicate HasOneLt(m: string) {
    forall j :: 0 < j < |m| ==> m[j] != '<'
  }

  lemma GmailHasOneLt()
    ensures HasOneLt(GMAIL_DIV) && HasOneLt(GMAIL_BLOCKQUOTE) && HasOneLt(APPLE_MAIL)
  {
  }

  lemma OutlookHasOneLt()
    ensures HasOneLt(OUTLOOK_WEB) && HasOneLt(OUTLOOK_DIVIDER)
    ensures HasOneLt(OUTLOOK_DESKTOP) && HasOneLt(OUTLOOK_SPACED)
  {
  }

  lemma NewOutlookHasOneLt()
    ensures HasOneLt(NEW_OUTLOOK)
  {
  }

  /** How the markers start. */
  predicate StartsLikeMarker(s: string) {
    && |s| >= 6 && s[0] == '<'
    && ((s[1] == 'd' && s[5] in {'c', 'i', 's'}) || (s[1] == 'b' && s[2] == 'l') || s[1] == 'h')
  }

  lemma MarkerStarts(k: nat)
    requires k < |MARKERS|
    ensures StartsLikeMarker(MARKERS[k])
  {
    EarlyMarkersStart();
    LateMarkersStart();
  }

  lemma EarlyMarkersStart()
    ensures StartsLikeMarker(GMAIL_DIV) && StartsLikeMarker(GMAIL_BLOCKQUOTE) && StartsLikeMarker(APPLE_MAIL)
    ensures StartsLikeMarker(OUTLOOK_WEB) && StartsLikeMarker(NEW_OUTLOOK)
  {
    assert StartsLikeMarker(GMAIL_DIV) && StartsLikeMarker(GMAIL_BLOCKQUOTE) && StartsLikeMarker(APPLE_MAIL);
    forall i | 0 <= i < 6 ensures NEW_OUTLOOK[i] == OUTLOOK_WEB[i] {
    }
    assert StartsLikeMarker(OUTLOOK_WEB);
  }

  lemma LateMarkersStart()
    ensures StartsLikeMarker(OUTLOOK_DIVIDER)
    ensures StartsLikeMarker(OUTLOOK_DESKTOP) && StartsLikeMarker(OUTLOOK_SPACED)
  {
    assert StartsLikeMarker(OUTLOOK_DIVIDER);
    assert StartsLikeMarker(OUTLOOK_DESKTOP) && StartsLikeMarker(OUTLOOK_SPACED);
  }

  lemma NoStraddle(a: string, b: string, i: nat)
    requires i < |a| && b != "" && b[0] == '<'
    ensures MarkerAt(a + b, i) <==> MarkerAt(a, i)
  {
    LowerConcat(a, b);
    var la, lb := ToLower(a), ToLower(b);
    if MarkerAt(a + b, i) {
      var k :| 0 <= k < |MARKERS| && Occurs(la + lb, MARKERS[k], i);
      if i + |MARKERS[k]| > |a| {
        assert (la + lb)[|a|] == (la + lb)[i..i + |MARKERS[k]|][|a| - i];
        MarkerHasOneLt(k, |a| - i);
      }
      assert Occurs(la, MARKERS[k], i);
    }
    if MarkerAt(a, i) { MarkerStays(a, a + b, i); }
  }

  lemma LowerLt(c: char)
    ensures Lower(c) == '<' <==> c == '<'
  {
  }

  predicate LooksLikeMarker(html: string, i: nat) {
    && i + 6 <= |html| && html[i] == '<'
    && ((Lower(html[i + 1]) == 'd' && Lower(html[i + 5]) in {'c', 'i', 's'})
        || (Lower(html[i + 1]) == 'b' && Lower(html[i + 2]) == 'l')
        || Lower(html[i + 1]) == 'h')
  }

  lemma MarkerAtLooks(html: string, i: nat)
    requires MarkerAt(html, i)
    ensures LooksLikeMarker(html, i)
  {
    var lower := ToLower(html);
    var k :| 0 <= k < |MARKERS| && Occurs(lower, MARKERS[k], i);
    MarkerStarts(k);
    var m := lower[i..i + |MARKERS[k]|];
    assert m == MARKERS[k];
    assert m[0] == Lower(html[i]) && m[1] == Lower(html[i + 1]) && m[2] == Lower(html[i + 2]);
    assert m[5] == Lower(html[i + 5]);
    LowerLt(html[i]);
  }

  /** Around the body of the reply no marker starts. */
  lemma NoMarkerInOpen(s: string, i: nat)
    requires OPEN <= s && i < |OPEN|
    ensures !MarkerAt(s, i)
  {
    assert s[i] == OPEN[i] && s[5] == OPEN[5] && s[1] == OPEN[1];
    assert !LooksLikeMarker(s, i);
    if MarkerAt(s, i) { MarkerAtLooks(s, i); }
  }

  lemma NoMarkerInClose(s: string, i: nat)
    requires CLOSE + "<br>" <= s && i < |CLOSE + "<br>"|
    ensures !MarkerAt(s, i)
  {
    var close := CLOSE + "<br>";
    assert s[i] == close[i];
    assert i == 0 ==> s[1] == close[1];
    assert i == 6 ==> s[7] == close[7] && s[8] == close[8];
    assert !LooksLikeMarker(s, i);
    if MarkerAt(s, i) { MarkerAtLooks(s, i); }
  }

  lemma MarkerShifts(a: string, b: string, i: nat)
    ensures MarkerAt(a + b, |a| + i) <==> MarkerAt(b, i)
  {
    LowerConcat(a, b);
    var la, lb := ToLower(a), ToLower(b);
    forall k | 0 <= k < |MARKERS| ensures Occurs(la + lb, MARKERS[k], |a| + i) <==> Occurs(lb, MARKERS[k], i) {
      OccursShifts(la, lb, MARKERS[k], i);
    }
  }

  lemma OccursShifts(a: string, b: string, m: string, i: nat)
    ensures Occurs(a + b, m, |a| + i) <==> Occurs(b, m, i)
  {
    if i + |m| <= |b| { assert (a + b)[|a| + i..|a| + i + |m|] == b[i..i + |m|]; }
  }

  lemma QuoteStartsWithMarker(attribution: string, parentHtml: string)
    requires parentHtml != ""
    ensures MarkerAt(QuoteBlockHtml(attribution, parentHtml), 0)
  {
    var q := QuoteBlockHtml(attribution, parentHtml);
    assert GMAIL_DIV <= QUOTE_OPEN <= q;
    GmailDivIsMarker();
    MarkerStays(GMAIL_DIV, q, 0);
  }

  lemma GmailDivIsMarker()
    ensures MarkerAt(GMAIL_DIV, 0)
  {
    assert forall i :: 0 <= i < |GMAIL_DIV| ==> Lower(GMAIL_DIV[i]) == GMAIL_DIV[i];
    assert ToLower(GMAIL_DIV) == GMAIL_DIV;
    assert Occurs(ToLower(GMAIL_DIV), MARKERS[0], 0);
  }

  /** In the text that is sent, the markers before the quote are those of the body. */
  lemma MarkersOfSent(body: string, quote: string, i: nat)
    requires i < |OPEN + body + CLOSE + "<br>"|
    ensures MarkerAt(OPEN + body + CLOSE + "<br>" + quote, i)
            <==> |OPEN| <= i < |OPEN| + |body| && MarkerAt(body, i - |OPEN|)
  {
    var close := CLOSE + "<br>";
    var tail := close + quote;
    var all := OPEN + (body + tail);
    assert OPEN + body + CLOSE + "<br>" + quote == all;
    if i < |OPEN| {
      NoMarkerInOpen(all, i);
    } else {
      MarkerShifts(OPEN, body + tail, i - |OPEN|);
      var j := i - |OPEN|;
      if j < |body| {
        NoStraddle(body, tail, j);
      } else {
        MarkerShifts(body, tail, j - |body|);
        NoMarkerInClose(tail, j - |body|);
      }
    }
  }

  lemma FirstMarkerOfSent(body: string, quote: string)
    requires MarkerAt(quote, 0)
    ensures var front := OPEN + body + CLOSE + "<br>";
            var cut := FirstMarker(front + quote);
            if HasMarker(body) then cut < |OPEN| + |body| else cut == |front|
  {
    var front := OPEN + body + CLOSE + "<br>";
    var html := front + quote;
    MarkerShifts(front, quote, 0);
    MarkerAtLooks(quote, 0);
    forall i | 0 <= i < |front|
      ensures MarkersIn(html)(i) <==> |OPEN| <= i < |OPEN| + |body| && MarkerAt(body, i - |OPEN|) {
      MarkersOfSent(body, quote, i);
    }
    FirstMarkerAround(html, body, |OPEN|, |front|);
  }

  /** Up to `n`, where a marker starts, the markers are those of the body. */
  lemma FirstMarkerAround(html: string, body: string, start: nat, n: nat)
    requires start + |body| <= n < |html| && MarkerAt(html, n)
    requires forall i :: 0 <= i < n ==>
               (MarkersIn(html)(i) <==> start <= i < start + |body| && MarkerAt(body, i - start))
    ensures if HasMarker(body) then FirstMarker(html) < start + |body| else FirstMarker(html) == n
  {
    FirstIsFirst(|html|, MarkersIn(html), 0);
    if HasMarker(body) {
      var j :| 0 <= j < |body| && MarkerAt(body, j);
      assert MarkersIn(html)(start + j);
    } else {
      FirstIs(|html|, MarkersIn(html), 0, n);
    }
  }

  lemma BreakIsTrimmed(s: string)
    ensures TrimTrailingBreak(s + "<br>") == s
  {
    var t := s + "<br>";
    LastLtIs(t, |s|);
    BrIsBreak();
    assert t[|s| + 1..|t| - 1] == "br";
    BreakGoes(t, |s|, "br");
    assert t[..|s|] == s;
  }

  lemma BreakGoes(t: string, lt: nat, name: string)
    requires lt + 1 < |t| && LastLt(t) == lt && t[|t| - 1] == '>' && name == t[lt + 1..|t| - 1] && IsBreakName(name)
    ensures TrimTrailingBreak(t) == t[..lt]
  {
  }

  lemma CloseIsKept(s: string)
    ensures TrimTrailingBreak(s + CLOSE) == s + CLOSE
  {
    var u := s + CLOSE;
    LastLtIs(u, |s|);
    assert u[|s| + 1..|u| - 1] == "/div";
    DivIsNoBreak();
  }

  /** The filler between body and quote is trimmed, and nothing of the body. */
  lemma FillerIsTrimmed(s: string)
    ensures TrimBreaks(TrimRight(s + CLOSE + "<br>", IsTrailing)) == s + CLOSE
  {
    var t := s + CLOSE + "<br>";
    assert TrimRight(t, IsTrailing) == t by { assert t[|t| - 1] == '>'; }
    BreakIsTrimmed(s + CLOSE);
    var u := s + CLOSE;
    assert TrimRight(u, IsTrailing) == u by { assert u[|u| - 1] == '>'; }
    CloseIsKept(s);
  }

  lemma {:induction false} LastLtIs(s: string, i: nat)
    requires i < |s| && s[i] == '<' && forall j :: i < j < |s| ==> s[j] != '<'
    ensures LastLt(s) == i
  {
    if i < |s| - 1 { LastLtIs(s[..|s| - 1], i); }
  }

  lemma BrIsBreak()
    ensures IsBreakName("br")
  {
    TrimmedStays("br");
    assert ToLower("br") == "br";
  }

  lemma DivIsNoBreak()
    ensures !IsBreakName("/div")
  {
    TrimmedStays("/div");
    assert ToLower("/div") == "/div";
  }

  /** Stripping gives back exactly the reply that was sent, if and only if its body holds no quote marker. */
  lemma HtmlReplyComesBack(html: string, text: string, attribution: string, parentHtml: string)
    requires parentHtml != ""
    ensures var body := if html != "" then html else EscapedBody(text);
            StrippedHtml(WithQuoteHtml(html, text, attribution, parentHtml)) == OPEN + body + CLOSE
            <==> !HasMarker(body)
  {
    var body := if html != "" then html else EscapedBody(text);
    var quote := QuoteBlockHtml(attribution, parentHtml);
    var front := OPEN + body + CLOSE + "<br>";
    QuoteStartsWithMarker(attribution, parentHtml);
    FirstMarkerOfSent(body, quote);
    var sent := front + quote;
    assert quote != "";
    if HasMarker(body) {
      StrippedHtmlIsPrefix(sent);
    } else {
      assert sent[..|front|] == front;
      FillerIsTrimmed(OPEN + body);
    }
  }

  /** Every "<" opens a break. */
  predicate OnlyBreaks(s: string) {
    forall i :: 0 <= i < |s| && s[i] == '<' ==> i + 2 < |s| && s[i + 1] == 'b' && s[i + 2] == 'r'
  }

  lemma {:induction false} EscapedBodyHasOnlyBreaks(s: string)
    ensures OnlyBreaks(EscapedBody(s))
  {
    if s != "" {
      var head := if s[0] == '\n' then "<br>" else EscapeChar(s[0]);
      EscapedBodyHasOnlyBreaks(s[1..]);
      assert OnlyBreaks(head);
    }
  }

  lemma BreaksAreNoMarkers(s: string)
    requires OnlyBreaks(s)
    ensures !HasMarker(s)
  {
    forall i | 0 <= i < |s| ensures !MarkerAt(s, i) {
      assert !LooksLikeMarker(s, i);
      if MarkerAt(s, i) { MarkerAtLooks(s, i); }
    }
  }

  /** A plain-text reply always comes back: its escaped body cannot hold a marker. */
  lemma PlainReplyComesBack(text: string, attribution: string, parentHtml: string)
    requires parentHtml != ""
    ensures StrippedHtml(WithQuoteHtml("", text, attribution, parentHtml)) == OPEN + EscapedBody(text) + CLOSE
  {
    EscapedBodyHasOnlyBreaks(text);
    BreaksAreNoMarkers(EscapedBody(text));
    HtmlReplyComesBack("", text, attribution, parentHtml);
  }
}
