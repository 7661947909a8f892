/** The quote block a reply is sent with, what stripping leaves of it, and how quoting can be undone. */
module QuoteReplies {
  import opened Text
  import opened QuoteText

  // ---- The quote block -------------------------------------------------------------------------------

  /** What net/mail makes of the parent's From header. */
  datatype Sender = Parsed(name: string, address: string) | Unparsed

  function SenderName(from: string, parsed: Sender): string {
    var sender := match parsed
      case Parsed(name, address) => if TrimSpace(name) != "" then TrimSpace(name) + " <" + address + ">" else address
      case Unparsed => TrimSpace(from);
    if sender == "" then "Unknown" else sender
  }

  /** buildAttributionLine, with the date already formatted. */
  function AttributionLine(date: string, from: string, parsed: Sender): string {
    "On " + date + ", " + SenderName(from, parsed) + " wrote:"
  }

  /** The attribution names the sender: by name and address, by address alone, or as the header has it, and it is
      never without a name. */
  lemma SenderShows(from: string, name: string, address: string)
    ensures var r := SenderName(from, Parsed(name, address));
            var n := TrimSpace(name);
            if n == "" && address == "" then r == "Unknown"
            else |r| >= |address|
                 && (n == "" ==> r == address)
                 && (n != "" ==> |r| > |n| + |address| + 2 && r[..|n|] == n
                                 && r[|r| - |address| - 3..] == " <" + address + ">")
    ensures var r := SenderName(from, Unparsed);
            if forall i :: 0 <= i < |from| ==> IsSpace(from[i]) then r == "Unknown" else r == TrimSpace(from)
  {
    TrimSpaceEmpty(from);
    var n := TrimSpace(name);
    assert n + " <" + address + ">" == n + (" <" + address + ">");
  }

  /** The attribution starts with the date and ends with the sender. */
  lemma AttributionShows(date: string, from: string, parsed: Sender)
    ensures var r, end := AttributionLine(date, from, parsed), SenderName(from, parsed) + " wrote:";
            |r| == |date| + |end| + 5 && "On " + date + ", " <= r && r[|r| - |end|..] == end
  {
    var end := SenderName(from, parsed) + " wrote:";
    assert AttributionLine(date, from, parsed) == "On " + date + ", " + end;
  }

  predicate IsCr(c: char) {
    c == '\r'
  }

  predicate IsNewline(c: char) {
    c == '\n'
  }

  function WithoutCr(line: string): string {
    TrimRight(line, IsCr)
  }

  function QuoteLine(line: string): (r: string)
    ensures r != "" && r[0] == '>'
  {
    var l := WithoutCr(line);
    if l == "" then ">" else if ">" <= l then ">" + l else "> " + l
  }

  /** Quoting adds no space at the end of a line, and takes nothing off it but carriage returns. */
  lemma QuotingAddsNoSpace(line: string)
    ensures var r, l := QuoteLine(line), WithoutCr(line);
            |l| < |r| && r[|r| - |l|..] == l && (l == "" ==> r == ">")
  {
  }

  function QuoteLines(lines: seq<string>): (qs: seq<string>)
    ensures |qs| == |lines| && forall i :: 0 <= i < |lines| ==> qs[i] == QuoteLine(lines[i])
  {
    seq(|lines|, i requires 0 <= i < |lines| => QuoteLine(lines[i]))
  }

  /** The parent's text, quoted. */
  function Quoted(text: string): string {
    Join(QuoteLines(Split(text)))
  }

  function QuoteBlock(attribution: string, parentText: string): string {
    if parentText == "" then attribution + "\n" else attribution + "\n" + Quoted(parentText)
  }

  method FormatGmailQuoteText(date: string, from: string, parsed: Sender, parentText: string) returns (r: string)
    ensures r == QuoteBlock(AttributionLine(date, from, parsed), parentText)
  {
    var attr := AttributionLine(date, from, parsed);
    if parentText == "" { return attr + "\n"; }
    r := QuoteUnder(attr, parentText);
  }

  /** The loop over the lines of a parent that has a text, and the trimming after it. */
  method QuoteUnder(attr: string, parentText: string) returns (r: string)
    ensures r == attr + "\n" + Quoted(parentText)
  {
    var b := WriteLines(attr, Split(parentText));
    r := TrimRight(b, IsNewline);
    SplitAreLines(parentText);
    BlockTrimmed(attr, Split(parentText));
  }

  method WriteLines(attr: string, lines: seq<string>) returns (b: string)
    ensures b == attr + "\n" + Terminated(QuoteLines(lines))
  {
    b := attr + "\n";
    for i := 0 to |lines|
      invariant b == attr + "\n" + Terminated(QuoteLines(lines[..i]))
    {
      assert lines[..i + 1] == lines[..i] + [lines[i]];
      TerminatedNext(attr + "\n", lines[..i], lines[i]);
      var quoted := WriteQuoted(lines[i]);
      b := b + quoted + "\n";
    }
    assert lines[..|lines|] == lines;
  }

  method WriteQuoted(text: string) returns (quoted: string)
    ensures quoted == QuoteLine(text)
  {
    var line := WithoutCr(text);
    if line == "" {
      quoted := ">";
    } else if ">" <= line {
      quoted := ">" + line;
    } else {
      quoted := "> " + line;
    }
  }

  /** The final trimming takes off just the last line break. */
  lemma BlockTrimmed(attr: string, lines: seq<string>)
    requires lines != [] && AreLines(lines)
    ensures TrimRight(attr + "\n" + Terminated(QuoteLines(lines)), IsNewline) == attr + "\n" + Join(QuoteLines(lines))
  {
    var qs := QuoteLines(lines);
    var block := attr + "\n" + Join(qs);
    TerminatedIsJoin(qs);
    QuotedEndsVisibly(lines);
    var b := attr + "\n" + Terminated(qs);
    assert b == block + "\n";
    TrimRightIs(b, IsNewline, block);
  }

  /** Each line with a line break after it. */
  function Terminated(lines: seq<string>): string {
    if lines == [] then "" else Terminated(lines[..|lines| - 1]) + lines[|lines| - 1] + "\n"
  }

  lemma TerminatedNext(head: string, lines: seq<string>, l: string)
    ensures head + Terminated(QuoteLines(lines + [l])) == head + Terminated(QuoteLines(lines)) + QuoteLine(l) + "\n"
  {
    var qs := QuoteLines(lines);
    assert QuoteLines(lines + [l]) == qs + [QuoteLine(l)];
    assert (qs + [QuoteLine(l)])[..|lines|] == qs;
    assert Terminated(qs + [QuoteLine(l)]) == Terminated(qs) + QuoteLine(l) + "\n";
    Associative(head, Terminated(qs), QuoteLine(l), "\n");
  }

  lemma Associative(a: string, b: string, c: string, d: string)
    ensures a + (b + c + d) == a + b + c + d
  {
  }

  lemma {:induction false} TerminatedIsJoin(lines: seq<string>)
    requires lines != []
    ensures Terminated(lines) == Join(lines) + "\n"
  {
    var front, last := lines[..|lines| - 1], lines[|lines| - 1];
    assert lines == front + [last];
    if front == [] {
      assert Terminated(front) == "";
    } else {
      TerminatedIsJoin(front);
      JoinConcat(front, [last]);
    }
  }

  /** A quote ends in a character other than a line break. */
  lemma QuotedEndsVisibly(lines: seq<string>)
    requires lines != [] && AreLines(lines)
    ensures var q := Join(QuoteLines(lines)); q != "" && q[|q| - 1] != '\n'
  {
    var qs := QuoteLines(lines);
    QuoteLinesAreLines(lines);
    var last := qs[|qs| - 1];
    assert last in qs && last[|last| - 1] in last;
    JoinEnds(qs);
  }

  lemma {:induction false} JoinEnds(ls: seq<string>)
    requires ls != [] && ls[|ls| - 1] != ""
    ensures var j := Join(ls); j != "" && j[|j| - 1] == ls[|ls| - 1][|ls[|ls| - 1]| - 1]
  {
    if |ls| > 1 { JoinEnds(ls[1..]); }
  }

  lemma QuoteLineIsLine(l: string)
    requires OneLine(l)
    ensures OneLine(QuoteLine(l)) && OneLine(WithoutCr(l))
  {
    assert WithoutCr(l) <= l;
  }

  lemma QuoteLinesAreLines(lines: seq<string>)
    requires AreLines(lines)
    ensures AreLines(QuoteLines(lines))
  {
    forall l | l in QuoteLines(lines) ensures OneLine(l) {
      var i :| 0 <= i < |lines| && QuoteLines(lines)[i] == l;
      assert lines[i] in lines;
      QuoteLineIsLine(lines[i]);
    }
  }

  // ---- Quoting can be undone -------------------------------------------------------------------------

  /** Takes one level of quoting off a line. */
  function UnquoteLine(line: string): string {
    if "> " <= line then line[2..] else if ">" <= line then line[1..] else line
  }

  function UnquoteLines(lines: seq<string>): (r: seq<string>)
    ensures |r| == |lines| && forall i :: 0 <= i < |lines| ==> r[i] == UnquoteLine(lines[i])
  {
    seq(|lines|, i requires 0 <= i < |lines| => UnquoteLine(lines[i]))
  }

  function Unquoted(text: string): string {
    Join(UnquoteLines(Split(text)))
  }

  function LinesWithoutCr(lines: seq<string>): (r: seq<string>)
    ensures |r| == |lines| && forall i :: 0 <= i < |lines| ==> r[i] == WithoutCr(lines[i])
  {
    seq(|lines|, i requires 0 <= i < |lines| => WithoutCr(lines[i]))
  }

  /** The lines of a quote are the quoted lines. */
  lemma SplitQuoted(text: string)
    ensures Split(Quoted(text)) == QuoteLines(Split(text))
  {
    SplitAreLines(text);
    QuoteLinesAreLines(Split(text));
    SplitJoin(QuoteLines(Split(text)));
  }

  lemma UnquoteQuoted(lines: seq<string>)
    ensures UnquoteLines(QuoteLines(lines)) == LinesWithoutCr(lines)
  {
    forall i | 0 <= i < |lines| ensures UnquoteLine(QuoteLine(lines[i])) == WithoutCr(lines[i]) {
    }
  }

  /** Quoting loses nothing but carriage returns at line ends: every parent text can be read off its quote. */
  lemma QuotingIsInvertible(text: string)
    ensures Unquoted(Quoted(text)) == Join(LinesWithoutCr(Split(text)))
  {
    SplitQuoted(text);
    UnquoteQuoted(Split(text));
  }

  /** How many quote marks a line starts with. */
  function Depth(line: string): nat {
    if line == "" || line[0] != '>' then 0 else 1 + Depth(line[1..])
  }

  lemma DepthWithoutCr(line: string)
    ensures Depth(WithoutCr(line)) == Depth(line)
  {
    var l := WithoutCr(line);
    TrimRightDrops(line, IsCr);
    assert line[..|l|] == l;
    assert |l| < |line| ==> IsCr(line[|l|]);
    DepthOfPrefix(line, |l|);
  }

  lemma {:induction false} DepthOfPrefix(line: string, k: nat)
    requires k <= |line| && (k < |line| ==> line[k] != '>')
    ensures Depth(line[..k]) == Depth(line)
  {
    if k > 0 && line[0] == '>' {
      assert line[..k][1..] == line[1..][..k - 1];
      DepthOfPrefix(line[1..], k - 1);
    }
  }

  lemma QuoteLineDeepens(line: string)
    ensures Depth(QuoteLine(line)) == Depth(line) + 1
  {
    DepthWithoutCr(line);
    var l := WithoutCr(line);
    if l == "" {
      assert Depth(">") == 1 + Depth("");
    } else if ">" <= l {
      assert (">" + l)[1..] == l;
    } else {
      assert ("> " + l)[1..] == " " + l;
      assert l[0] != '>';
    }
  }

  function QuotedTimes(text: string, n: nat): string {
    if n == 0 then text else Quoted(QuotedTimes(text, n - 1))
  }

  function Depths(text: string): (ds: seq<nat>)
    ensures |ds| == |Split(text)| && forall i :: 0 <= i < |ds| ==> ds[i] == Depth(Split(text)[i])
  {
    var ls := Split(text);
    seq(|ls|, i requires 0 <= i < |ls| => Depth(ls[i]))
  }

  function Raised(ds: seq<nat>, n: nat): (r: seq<nat>)
    ensures |r| == |ds| && forall i :: 0 <= i < |ds| ==> r[i] == ds[i] + n
  {
    seq(|ds|, i requires 0 <= i < |ds| => ds[i] + n)
  }

  lemma QuotingDeepensOnce(text: string)
    ensures Depths(Quoted(text)) == Raised(Depths(text), 1)
  {
    var lines := Split(text);
    SplitQuoted(text);
    forall i | 0 <= i < |lines| ensures Depths(Quoted(text))[i] == Depths(text)[i] + 1 {
      QuoteLineDeepens(lines[i]);
    }
  }

  lemma RaisedOnceMore(ds: seq<nat>, n: nat)
    ensures Raised(ds, 0) == ds && Raised(Raised(ds, n), 1) == Raised(ds, n + 1)
  {
  }

  lemma DeepensOnceMore(text: string, ds: seq<nat>, n: nat)
    requires Depths(text) == Raised(ds, n)
    ensures Depths(Quoted(text)) == Raised(ds, n + 1)
  {
    QuotingDeepensOnce(text);
    RaisedOnceMore(ds, n);
  }

  /** The lines of `to` are as many as those of `from`, each of them `n` levels deeper. */
  predicate Deepens(from: string, to: string, n: nat) {
    Depths(to) == Raised(Depths(from), n)
  }

  lemma DeepensByNone(text: string)
    ensures Deepens(text, text, 0)
  {
    RaisedOnceMore(Depths(text), 0);
  }

  lemma DeepensByOne(from: string, to: string, n: nat)
    requires Deepens(from, to, n)
    ensures Deepens(from, Quoted(to), n + 1)
  {
    DeepensOnceMore(to, Depths(from), n);
  }

  /** Quoting `n` times keeps the lines and raises the depth of each by exactly `n`. */
  lemma {:induction false} QuotingDeepens(text: string, n: nat)
    ensures Deepens(text, QuotedTimes(text, n), n)
  {
    if n > 0 {
      QuotingDeepens(text, n - 1);
      DeepensByOne(text, QuotedTimes(text, n - 1), n - 1);
    } else {
      DeepensByNone(text);
    }
  }
}
