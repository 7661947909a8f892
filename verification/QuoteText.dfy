/** Quoting a parent message under a plain-text reply, and stripping such a quote from a reply that comes
    in. Regular expressions are written out as the predicates they test. */
module QuoteText {
  import opened Text

  // ---- Attribution lines -----------------------------------------------------------------------------

  /** The class \s of Go's regular expressions. */
  predicate IsReSpace(c: char) {
    c == ' ' || c == '\t' || c == '\n' || c == '\r' || c as int == 0x0C
  }

  predicate ReSpaces(s: string) {
    forall i :: 0 <= i < |s| ==> IsReSpace(s[i])
  }

  /** A connective, any 3 to 400 characters of one line, a verb, and for some languages up to 200 more
      characters for the sender, before the final colon. */
  datatype Locale = Locale(prefix: string, verb: string, nameAfterVerb: bool)

  const LOCALES: seq<Locale> := [
    Locale("On ", " wrote", false),
    Locale("Le ", " a \U{e9}crit", false),
    Locale("Am ", " schrieb ", true),
    Locale("El ", " escribi\U{f3}", false),
    Locale("Il ", " ha scritto", false),
    Locale("Em ", " escreveu", false),
    Locale("Op ", " schreef ", true)
  ]

  predicate EndsInColon(s: string) {
    exists k :: 0 <= k < |s| && s[k] == ':' && ReSpaces(s[..k]) && ReSpaces(s[k + 1..])
  }

  predicate EndsAfterVerb(l: Locale, s: string) {
    if l.nameAfterVerb then exists n :: 1 <= n <= 200 && n <= |s| && OneLine(s[..n]) && EndsInColon(s[n..])
    else EndsInColon(s)
  }

  /** The locale's expression matches with `m` characters between connective and verb. */
  predicate MatchesWith(l: Locale, s: string, m: nat) {
    && 3 <= m <= 400
    && |l.prefix| + m <= |s|
    && l.prefix <= s
    && OneLine(s[|l.prefix|..|l.prefix| + m])
    && l.verb <= s[|l.prefix| + m..]
    && EndsAfterVerb(l, s[|l.prefix| + m..][|l.verb|..])
  }

  predicate Matches(l: Locale, s: string) {
    exists m :: 3 <= m <= 400 && MatchesWith(l, s, m)
  }

  predicate IsAttribution(s: string) {
    exists k :: 0 <= k < |LOCALES| && Matches(LOCALES[k], s)
  }

  predicate HasAttributionPrefix(s: string) {
    exists k :: 0 <= k < |LOCALES| && LOCALES[k].prefix <= s
  }

  // ---- Where the quoted history starts ----------------------------------------------------------------

  predicate IsBlank(c: char) {
    c == ' ' || c == '\t' || c == '\r'
  }

  predicate IsTrailing(c: char) {
    IsBlank(c) || c == '\n'
  }

  /** A line as the markers see it. */
  function Bare(line: string): string {
    TrimSpace(TrimRight(line, IsBlank))
  }

  predicate IsDivider(s: string) {
    s == "-----Original Message-----" || (|s| >= 12 && forall i :: 0 <= i < |s| ==> s[i] == '_')
  }

  predicate IsHeaderAfterFrom(s: string) {
    "Sent: " <= s || "Date: " <= s || "To: " <= s || "Subject: " <= s
  }

  /** The line joined with the one or two after it. */
  function JoinedLines(lines: seq<string>, i: nat, n: nat): string
    requires i + n < |lines|
  {
    if n == 0 then Bare(lines[i]) else JoinedLines(lines, i, n - 1) + " " + TrimSpace(lines[i + n])
  }

  predicate WrapsOver(lines: seq<string>, i: nat, n: nat)
    requires i < |lines|
  {
    i + n < |lines| && IsAttribution(JoinedLines(lines, i, n))
  }

  predicate Wraps(lines: seq<string>, i: nat)
    requires i < |lines|
  {
    exists n :: 1 <= n <= 2 && WrapsOver(lines, i, n)
  }

  predicate StartsHeaders(lines: seq<string>, i: nat)
    requires i < |lines|
  {
    "From: " <= Bare(lines[i]) && i + 1 < |lines| && IsHeaderAfterFrom(TrimSpace(lines[i + 1]))
  }

  /** One of the markers 1 to 3 fires at line `i`. */
  predicate Fires(lines: seq<string>, i: nat)
    requires i < |lines|
  {
    var l := Bare(lines[i]);
    IsAttribution(l) || (HasAttributionPrefix(l) && Wraps(lines, i)) || IsDivider(l) || StartsHeaders(lines, i)
  }

  function Markers(lines: seq<string>): nat -> bool {
    (k: nat) => k < |lines| && Fires(lines, k)
  }

  /** The first line at which a marker fires. */
  function FirstFiring(lines: seq<string>): (k: nat)
    ensures k <= |lines|
  {
    First(|lines|, Markers(lines), 0)
  }

  predicate IsEmptyLine(line: string) {
    TrimSpace(line) == ""
  }

  predicate IsQuoted(line: string) {
    ">" <= TrimSpace(line)
  }

  /** The start of the run of blank and quoted lines that ends before line `n`. */
  function TailStart(lines: seq<string>, n: nat): (k: nat)
    requires n <= |lines|
    ensures k <= n
  {
    if n == 0 || !(IsEmptyLine(lines[n - 1]) || IsQuoted(lines[n - 1])) then n else TailStart(lines, n - 1)
  }

  predicate QuotedFrom(lines: seq<string>, k: nat) {
    exists i :: k <= i < |lines| && IsQuoted(lines[i])
  }

  /** Marker 4: a tail of quoted lines, when no other marker fires. */
  function TailCut(lines: seq<string>): (k: nat)
    ensures k <= |lines|
  {
    var k := TailStart(lines, |lines|);
    if QuotedFrom(lines, k) then k else |lines|
  }

  function CutLine(lines: seq<string>): (k: nat)
    ensures k <= |lines|
  {
    var k := FirstFiring(lines);
    if k == |lines| then TailCut(lines) else k
  }

  /** What is left of a text cut before line `k`. */
  function Kept(lines: seq<string>, k: nat): string
    requires k <= |lines|
  {
    TrimRight(Join(lines[..k]), IsTrailing)
  }

  function Stripped(text: string): string {
    Kept(Split(text), CutLine(Split(text)))
  }

  method StripQuotedReply(text: string) returns (r: string)
    ensures r == Stripped(text)
  {
    if text == "" {
      assert Split(text)[..CutLine(Split(text))] == [] || Split(text)[..CutLine(Split(text))] == [""];
      return "";
    }
    var lines := Split(text);
    var cut := |lines|;
    var i := 0;
    while i < |lines|
      invariant 0 <= i <= |lines| && cut == |lines|
      invariant FirstFiring(lines) == First(|lines|, Markers(lines), i)
    {
      var fires := FiresAt(lines, i);
      if fires {
        cut := i;
        break;
      }
      i := i + 1;
    }
    assert cut == FirstFiring(lines);
    if cut == |lines| { cut := TailCutFrom(lines); }
    r := TrimRight(Join(lines[..cut]), IsTrailing);
  }

  /** The body of the line loop: markers 1 to 3 at one line. */
  method FiresAt(lines: seq<string>, i: nat) returns (fires: bool)
    requires i < |lines|
    ensures fires == Fires(lines, i)
  {
    var ll := Bare(lines[i]);
    if IsAttribution(ll) { return true; }
    if HasAttributionPrefix(ll) && i + 1 < |lines| {
      var wrapped := IsWrappedAttribution(lines, i);
      if wrapped { return true; }
    }
    if IsDivider(ll) { return true; }
    return StartsHeaders(lines, i);
  }

  /** An attribution broken over two or three lines. */
  method IsWrappedAttribution(lines: seq<string>, i: nat) returns (found: bool)
    requires i < |lines|
    ensures found == Wraps(lines, i)
  {
    var joined := Bare(lines[i]);
    var j := 1;
    while j <= 2 && i + j < |lines|
      invariant 1 <= j <= 3 && i + j - 1 < |lines| && joined == JoinedLines(lines, i, j - 1)
      invariant forall k :: 1 <= k < j ==> !WrapsOver(lines, i, k)
    {
      joined := joined + " " + TrimSpace(lines[i + j]);
      assert joined == JoinedLines(lines, i, j);
      if IsAttribution(joined) {
        assert WrapsOver(lines, i, j);
        return true;
      }
      j := j + 1;
    }
    return false;
  }

  /** The backward walk over the tail. */
  method TailCutFrom(lines: seq<string>) returns (cut: nat)
    ensures cut == TailCut(lines)
  {
    var j := SkipBlankTail(lines);
    var sawQuote := false;
    while j >= 0
      invariant -1 <= j < |lines|
      invariant TailStart(lines, |lines|) == TailStart(lines, j + 1)
      invariant sawQuote <==> QuotedFrom(lines, j + 1)
    {
      if IsEmptyLine(lines[j]) {
        QuotedFromNext(lines, j);
        j := j - 1;
        continue;
      }
      if IsQuoted(lines[j]) {
        QuotedFromNext(lines, j);
        sawQuote := true;
        j := j - 1;
        continue;
      }
      break;
    }
    cut := if sawQuote then j + 1 else |lines|;
  }

  method SkipBlankTail(lines: seq<string>) returns (j: int)
    ensures -1 <= j < |lines|
    ensures TailStart(lines, |lines|) == TailStart(lines, j + 1)
    ensures !QuotedFrom(lines, j + 1)
  {
    j := |lines| - 1;
    while j >= 0 && IsEmptyLine(lines[j])
      invariant -1 <= j < |lines|
      invariant TailStart(lines, |lines|) == TailStart(lines, j + 1)
      invariant !QuotedFrom(lines, j + 1)
    {
      QuotedFromNext(lines, j);
      j := j - 1;
    }
  }

  lemma QuotedFromNext(lines: seq<string>, j: nat)
    requires j < |lines|
    ensures QuotedFrom(lines, j) <==> IsQuoted(lines[j]) || QuotedFrom(lines, j + 1)
    ensures IsEmptyLine(lines[j]) ==> !IsQuoted(lines[j])
  {
  }
}
