/** What the HTML of a reply shows, where it is cut, and that its quote can be read back. */
module QuoteMarkup {
  import opened Text
  import opened QuoteText
  import opened QuoteHtml

  // ---- Escaping can be undone --------------------------------------------------------------------------

  /** The text a reader of the HTML sees: entities stand for their characters, and a break ends a line. */
  function Shown(s: string): string {
    if s == "" then ""
    else if "&amp;" <= s then "&" + Shown(s[5..])
    else if "&lt;" <= s then "<" + Shown(s[4..])
    else if "&gt;" <= s then ">" + Shown(s[4..])
    else if "&quot;" <= s then "\"" + Shown(s[6..])
    else if "<br>" <= s then "\n" + Shown(s[4..])
    else [s[0]] + Shown(s[1..])
  }

  lemma ShownEscape(c: char, rest: string)
    ensures Shown(EscapeChar(c) + rest) == [c] + Shown(rest)
  {
    var s := EscapeChar(c) + rest;
    assert s[|EscapeChar(c)|..] == rest;
    if c == '&' {
      assert "&amp;" <= s;
    } else if c == '<' {
      assert "&lt;" <= s && s[1] == 'l';
    } else if c == '>' {
      assert "&gt;" <= s && s[1] == 'g';
    } else if c == '\"' {
      assert "&quot;" <= s && s[1] == 'q';
    } else {
      assert s[0] == c;
    }
  }

  lemma ShownBreak(rest: string)
    ensures Shown("<br>" + rest) == "\n" + Shown(rest)
  {
    var s := "<br>" + rest;
    assert s[0] == '<' && s[4..] == rest;
  }

  /** Escaping loses nothing: the reader sees what was escaped. */
  lemma {:induction false} EscapedIsShown(s: string)
    ensures Shown(Escaped(s)) == s
  {
    if s != "" {
      EscapedIsShown(s[1..]);
      ShownEscape(s[0], Escaped(s[1..]));
    }
  }

  /** So does a plain-text body, line breaks included. */
  lemma {:induction false} EscapedBodyIsShown(s: string)
    ensures Shown(EscapedBody(s)) == s
  {
    if s != "" {
      EscapedBodyIsShown(s[1..]);
      if s[0] == '\n' { ShownBreak(EscapedBody(s[1..])); } else { ShownEscape(s[0], EscapedBody(s[1..])); }
    }
  }

  predicate IsPlain(s: string) {
    '<' !in s && '>' !in s && '\"' !in s
  }

  /** Escaped text opens no tag and closes no attribute. */
  lemma {:induction false} EscapedIsPlain(s: string)
    ensures IsPlain(Escaped(s))
  {
    if s != "" {
      EscapedIsPlain(s[1..]);
      CharIsPlain(s[0]);
      PlainConcat(EscapeChar(s[0]), Escaped(s[1..]));
    }
  }

  lemma CharIsPlain(c: char)
    ensures IsPlain(EscapeChar(c))
  {
  }

  lemma PlainConcat(a: string, b: string)
    requires IsPlain(a) && IsPlain(b)
    ensures IsPlain(a + b)
  {
  }

  // ---- The quote can be read back ------------------------------------------------------------------------

  /** There is a quote exactly if the parent has HTML; the parent stands in it as it is, below the escaped
      attribution. */
  lemma QuoteShowsParent(attribution: string, parentHtml: string)
    ensures QuoteBlockHtml(attribution, parentHtml) == "" <==> parentHtml == ""
    ensures parentHtml != "" ==>
              exists i, j :: 0 <= i && i + |Escaped(attribution)| <= j
                             && Occurs(QuoteBlockHtml(attribution, parentHtml), Escaped(attribution), i)
                             && Occurs(QuoteBlockHtml(attribution, parentHtml), parentHtml, j)
  {
    if parentHtml != "" {
      var head, attr, style := QUOTE_OPEN, Escaped(attribution), QUOTE_STYLE;
      assert QuoteBlockHtml(attribution, parentHtml) == head + attr + style + parentHtml + "</blockquote></div>";
      Stand(head, attr, style, parentHtml, "</blockquote></div>");
    }
  }

  lemma Stand(head: string, attr: string, style: string, parent: string, end: string)
    ensures Occurs(head + attr + style + parent + end, attr, |head|)
    ensures Occurs(head + attr + style + parent + end, parent, |head| + |attr| + |style|)
  {
  }

  /** Two quotes are the same only if they show the same parent under the same attribution. */
  lemma QuoteDetermines(a: string, parentA: string, b: string, parentB: string)
    requires parentA != "" && parentB != "" && QuoteBlockHtml(a, parentA) == QuoteBlockHtml(b, parentB)
    ensures a == b && parentA == parentB
  {
    var end := "</blockquote></div>";
    var x, y := Escaped(a), Escaped(b);
    EscapedIsPlain(a);
    EscapedIsPlain(b);
    StyleOpens();
    Behind(QUOTE_OPEN, x, y, QUOTE_STYLE, parentA, parentB, end);
    PartsAgree(x, y, QUOTE_STYLE, parentA, parentB, end);
    EscapedIsShown(a);
    EscapedIsShown(b);
  }

  lemma StyleOpens()
    ensures QUOTE_STYLE != "" && QUOTE_STYLE[0] == '<'
  {
    assert QUOTE_STYLE[0] == "<br></div>"[0];
  }

  lemma Behind(head: string, x: string, y: string, style: string, p: string, q: string, end: string)
    requires head + x + style + p + end == head + y + style + q + end
    ensures x + style + p + end == y + style + q + end
  {
    var s, t := x + style + p + end, y + style + q + end;
    assert head + x + style + p + end == head + s && head + y + style + q + end == head + t;
    assert s == (head + s)[|head|..] && t == (head + t)[|head|..];
  }

  lemma PartsAgree(x: string, y: string, style: string, p: string, q: string, end: string)
    requires '<' !in x && '<' !in y && style != "" && style[0] == '<'
    requires x + style + p + end == y + style + q + end
    ensures x == y && p == q
  {
    var s := x + style + p + end;
    assert s[|x|] == '<' && s[|y|] == '<';
    assert forall i :: 0 <= i < |x| ==> s[i] == x[i];
    assert forall i :: 0 <= i < |y| ==> s[i] == y[i];
    assert s[..|x|] == x && s[..|y|] == y;
    assert |p| == |q|;
    var n := |x| + |style|;
    assert s[n..n + |p|] == p && s[n..n + |q|] == q;
  }

  // ---- Each marker cuts ----------------------------------------------------------------------------------

  /** Each marker, in any letter case, cuts the text where it starts, unless another stands above it; of what
      stands above it only blanks and break tags at the end are lost. */
  lemma MarkersCut(front: string, m: string, rest: string, k: nat)
    requires k < |MARKERS| && ToLower(m) == MARKERS[k] && !HasMarker(front)
    ensures var r := StrippedHtml(front + (m + rest)); r <= front && IsBlankRun(front[|r|..])
  {
    var html := front + (m + rest);
    MarkerStarts(k);
    assert ToLower(m)[0] == '<' && m != "" && (m + rest)[0] == m[0];
    LowerLt(m[0]);
    assert ToLower(m)[0..|m|] == ToLower(m);
    assert Occurs(ToLower(m), MARKERS[k], 0);
    MarkerStays(m, m + rest, 0);
    MarkerShifts(front, m + rest, 0);
    forall i | 0 <= i < |front| ensures !MarkersIn(html)(i) {
      NoStraddle(front, m + rest, i);
    }
    FirstIs(|html|, MarkersIn(html), 0, |front|);
    OnlyBlanksAreLost(html);
    StrippedHtmlIsPrefix(html);
    assert html[..|front|] == front;
    var r := StrippedHtml(html);
    assert html[|r|..|front|] == front[|r|..];
  }

  /** Which tags count as breaks: the name alone, with a slash, with attributes, in any letter case. */
  lemma BreakNames(br: string, spaces: string, attributes: string)
    requires br in {"br", "bR", "Br", "BR"}
    requires forall i :: 0 <= i < |spaces| ==> IsSpace(spaces[i])
    requires attributes != "" && !IsSpace(attributes[|attributes| - 1]) && attributes[|attributes| - 1] != '/'
    ensures IsBreakName(br) && IsBreakName(br + spaces + "/") && IsBreakName(br + " " + attributes)
  {
    LowerBr(br);
    NameIsBreak(br);
    SlashIsBreak(br, spaces);
    AttributesAreBreak(br, attributes);
  }

  lemma AttributesAreBreak(br: string, attributes: string)
    requires ToLower(br) == "br" && attributes != ""
    requires !IsSpace(attributes[|attributes| - 1]) && attributes[|attributes| - 1] != '/'
    ensures IsBreakName(br + " " + attributes)
  {
    var s := br + " " + attributes;
    assert |br| == 2 && Lower(br[0]) == 'b' && Lower(br[1]) == 'r';
    TrimmedStays(s);
    var t := ToLower(s);
    assert t[0] == 'b' && t[1] == 'r' && t[2] == ' ' && t[|t| - 1] == Lower(attributes[|attributes| - 1]);
    TrimmedStays(t);
    assert "br " <= t;
  }

  /** After white space the name starts at `i` with "br", and nothing else belongs to it. */
  predicate NamesBreak(inner: string, i: nat) {
    && i + 2 <= |inner| && Lower(inner[i]) == 'b' && Lower(inner[i + 1]) == 'r'
    && (forall j :: 0 <= j < i ==> IsSpace(inner[j]))
    && (i + 2 < |inner| ==> IsSpace(inner[i + 2]) || inner[i + 2] == '/')
  }

  /** Other tags are no breaks. */
  lemma OtherNames(inner: string)
    requires IsBreakName(inner)
    ensures exists i: nat :: NamesBreak(inner, i)
  {
    var r := TrimRight(inner, IsSpace);
    var t := TrimSpace(inner);
    TrimRightDrops(inner, IsSpace);
    TrimLeftDrops(r, IsSpace);
    var i := |r| - |t|;
    var u := WithoutSlash(ToLower(t));
    var v := TrimSpace(u);
    BreakStarts(t, u, v);
    assert t == inner[i..|r|];
    assert NamesBreak(inner, i);
  }

  lemma BreakStarts(t: string, u: string, v: string)
    requires u == WithoutSlash(ToLower(t)) && v == TrimSpace(u) && (v == "br" || "br " <= v)
    requires t != "" ==> !IsSpace(t[0])
    ensures |t| >= 2 && Lower(t[0]) == 'b' && Lower(t[1]) == 'r'
    ensures |t| > 2 ==> IsSpace(t[2]) || t[2] == '/'
  {
    var r := TrimRight(u, IsSpace);
    TrimRightDrops(u, IsSpace);
    TrimLeftDrops(r, IsSpace);
    assert u != "" && u[0] == Lower(t[0]);
    assert v == r;
    assert u[0] == v[0] && u[1] == v[1];
    if |u| > 2 { assert if |v| > 2 then u[2] == v[2] == ' ' else IsSpace(u[2]); }
  }

  lemma LowerBr(br: string)
    requires br in {"br", "bR", "Br", "BR"}
    ensures ToLower(br) == "br"
  {
  }

  lemma NameIsBreak(br: string)
    requires ToLower(br) == "br"
    ensures IsBreakName(br)
  {
    assert |br| == 2 && Lower(br[0]) == 'b' && Lower(br[1]) == 'r';
    TrimmedStays(br);
    TrimmedStays("br");
  }

  lemma SlashIsBreak(br: string, spaces: string)
    requires ToLower(br) == "br" && forall i :: 0 <= i < |spaces| ==> IsSpace(spaces[i])
    ensures IsBreakName(br + spaces + "/")
  {
    var s := br + spaces + "/";
    assert |br| == 2 && Lower(br[0]) == 'b';
    TrimmedStays(s);
    var t := ToLower(s);
    assert t == "br" + ToLower(spaces) + "/" && t[..|t| - 1] == "br" + ToLower(spaces);
    assert WithoutSlash(t) == "br" + ToLower(spaces);
    TrimRightIs("br" + ToLower(spaces), IsSpace, "br");
    TrimLeftIs("br", IsSpace, "br");
  }
}
