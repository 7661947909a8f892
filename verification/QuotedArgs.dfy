/** Splitting a command line into arguments with double quotes and backslash escapes. A command line is a
    sequence of bytes, read rune by rune. */
module QuotedArgs {
  import opened Utf8

  type Bytes = seq<byte>

  const SPACE: byte := 0x20
  const QUOTE: byte := 0x22
  const BACKSLASH: byte := 0x5C

  function FirstRune(s: Bytes): (r: Bytes)
    requires s != []
    ensures r != []
  {
    if RuneLen(s) == 0 then REPLACEMENT else s[..RuneLen(s)]
  }

  function FirstWidth(s: Bytes): (n: nat)
    requires s != []
    ensures 1 <= n <= |s|
  {
    if RuneLen(s) == 0 then 1 else RuneLen(s)
  }

  datatype Scan = Scan(tokens: seq<Bytes>, current: Bytes, inQuotes: bool, escaped: bool)

  const START := Scan([], [], false, false)

  /** One turn of the loop, but for the check at the end of the line. */
  function Next(s: Scan, rune: Bytes): Scan {
    if s.escaped then s.(current := s.current + rune, escaped := false)
    else if rune == [BACKSLASH] then s.(escaped := true)
    else if rune == [QUOTE] then s.(inQuotes := !s.inQuotes)
    else if rune == [SPACE] && !s.inQuotes then
      if s.current != [] then s.(tokens := s.tokens + [s.current], current := []) else s
    else s.(current := s.current + rune)
  }

  function Scanned(s: Scan, rest: Bytes): Scan
    decreases |rest|
  {
    if rest == [] then s else Scanned(Next(s, FirstRune(rest)), rest[FirstWidth(rest)..])
  }

  function LastWidth(s: Bytes): (n: nat)
    requires s != []
    decreases |s|
  {
    if FirstWidth(s) == |s| then |s| else LastWidth(s[FirstWidth(s)..])
  }

  function Flushed(s: Scan): seq<Bytes> {
    if s.current != [] then s.tokens + [s.current] else s.tokens
  }

  /** The last token is added only when the last rune starts at the last byte. */
  function Parsed(args: Bytes): seq<Bytes> {
    if args == [] then [] else ParsedFrom(START, args)
  }

  method ParseQuotedArgs(args: Bytes) returns (result: seq<Bytes>)
    ensures result == Parsed(args)
  {
    result := [];
    var current: Bytes := [];
    var inQuotes, escaped := false, false;
    var i := 0;
    while i < |args|
      invariant 0 <= i <= |args|
      invariant i < |args| ==> ParsedFrom(Scan(result, current, inQuotes, escaped), args[i..]) == Parsed(args)
      invariant i == |args| ==> result == Parsed(args)
    {
      ghost var before := Scan(result, current, inQuotes, escaped);
      var r := FirstRune(args[i..]);
      result, current, inQuotes, escaped := TakeRune(r, result, current, inQuotes, escaped);
      var width := FirstWidth(args[i..]);
      ParsedAt(before, args, i);
      if i == |args| - 1 && current != [] {
        result := result + [current];
      }
      i := i + width;
    }
  }

  /** The cases of the loop body. */
  method TakeRune(r: Bytes, tokens: seq<Bytes>, token: Bytes, quoting: bool, escaping: bool)
    returns (result: seq<Bytes>, current: Bytes, inQuotes: bool, escaped: bool)
    ensures Scan(result, current, inQuotes, escaped) == Next(Scan(tokens, token, quoting, escaping), r)
  {
    result, current, inQuotes, escaped := tokens, token, quoting, escaping;
    if escaped {
      current := current + r;
      escaped := false;
    } else if r == [BACKSLASH] {
      escaped := true;
    } else if r == [QUOTE] {
      inQuotes := !inQuotes;
    } else if r == [SPACE] && !inQuotes {
      if current != [] {
        result := result + [current];
        current := [];
      }
    } else {
      current := current + r;
    }
  }

  function ParsedFrom(s: Scan, rest: Bytes): seq<Bytes>
    requires rest != []
  {
    if LastWidth(rest) == 1 then Flushed(Scanned(s, rest)) else Scanned(s, rest).tokens
  }

  lemma ParsedNext(s: Scan, rest: Bytes)
    requires rest != []
    ensures var n := FirstWidth(rest);
            var next := Next(s, FirstRune(rest));
            ParsedFrom(s, rest) == if n < |rest| then ParsedFrom(next, rest[n..])
                                   else if |rest| == 1 then Flushed(next) else next.tokens
  {
    var n := FirstWidth(rest);
    if n == |rest| {
      assert rest[n..] == [];
      assert Scanned(Next(s, FirstRune(rest)), []) == Next(s, FirstRune(rest));
    }
  }

  lemma ParsedAt(s: Scan, args: Bytes, i: nat)
    requires i < |args|
    ensures var rest := args[i..];
            var n := i + FirstWidth(rest);
            var next := Next(s, FirstRune(rest));
            n <= |args| && ParsedFrom(s, rest) == if n < |args| then ParsedFrom(next, args[n..])
                                                  else if i == |args| - 1 then Flushed(next) else next.tokens
  {
    ParsedNext(s, args[i..]);
    assert args[i..][FirstWidth(args[i..])..] == args[i + FirstWidth(args[i..])..];
  }

  // ---- What comes out --------------------------------------------------------------------------------

  /** Tokens and the open token are whole runes, and no token is empty. */
  predicate Sound(s: Scan) {
    Valid(s.current) && forall i :: 0 <= i < |s.tokens| ==> s.tokens[i] != [] && Valid(s.tokens[i])
  }

  lemma FirstRuneIsValid(s: Bytes)
    requires s != []
    ensures Valid(FirstRune(s))
  {
    if RuneLen(s) > 0 { RuneIsValid(s); } else { ReplacementIsValid(); }
  }

  lemma {:induction false} ScannedIsSound(s: Scan, rest: Bytes)
    requires Sound(s)
    ensures Sound(Scanned(s, rest))
    decreases |rest|
  {
    if rest != [] {
      var r := FirstRune(rest);
      FirstRuneIsValid(rest);
      ValidConcat(s.current, r);
      ScannedIsSound(Next(s, r), rest[FirstWidth(rest)..]);
    }
  }

  /** Every argument is non-empty and valid UTF-8, whatever bytes the line is made of. */
  lemma ArgumentsAreValid(args: Bytes, i: nat)
    requires i < |Parsed(args)|
    ensures Parsed(args)[i] != [] && Valid(Parsed(args)[i])
  {
    ScannedIsSound(START, args);
  }

  // ---- The argument that gets lost -------------------------------------------------------------------

  /** The last rune of a valid string is one byte wide exactly if its last byte is ASCII. */
  lemma {:induction false} LastWidthIsAscii(s: Bytes)
    requires Valid(s) && s != []
    ensures LastWidth(s) == 1 <==> s[|s| - 1] < 0x80
    decreases |s|
  {
    var n := FirstWidth(s);
    if n < |s| {
      LastWidthIsAscii(s[n..]);
    }
  }

  lemma {:induction false} WideRuneLeavesToken(s: Scan, rest: Bytes)
    requires Valid(rest) && rest != [] && LastWidth(rest) > 1
    ensures Scanned(s, rest).current != []
    decreases |rest|
  {
    var n := FirstWidth(rest);
    var next := Next(s, FirstRune(rest));
    if n < |rest| {
      WideRuneLeavesToken(next, rest[n..]);
    } else {
      assert |FirstRune(rest)| > 1;
      assert rest[n..] == [];
    }
  }

  /** The arguments on the line, the last one included. */
  function Arguments(args: Bytes): seq<Bytes> {
    Flushed(Scanned(START, args))
  }

  /** All arguments come back, exactly if the line does not end in a multi-byte rune; if it does, the last
      argument is missing. */
  lemma LastArgumentLost(args: Bytes)
    requires Valid(args)
    ensures Parsed(args) == Arguments(args) <==> args == [] || args[|args| - 1] < 0x80
    ensures args != [] && args[|args| - 1] >= 0x80
            ==> Arguments(args) != [] && Parsed(args) == Arguments(args)[..|Arguments(args)| - 1]
  {
    if args != [] {
      LastWidthIsAscii(args);
      if LastWidth(args) != 1 {
        LastWidthPositive(args);
        WideRuneLeavesToken(START, args);
      }
    }
  }

  lemma {:induction false} LastWidthPositive(s: Bytes)
    requires s != []
    ensures LastWidth(s) >= 1
    decreases |s|
  {
    if FirstWidth(s) < |s| { LastWidthPositive(s[FirstWidth(s)..]); }
  }

  // ---- Quoting is undone -----------------------------------------------------------------------------

  function EscapedByte(b: byte, special: set<byte>): Bytes {
    if b in special then [BACKSLASH, b] else [b]
  }

  /** A backslash before each of the special characters. */
  function Escaped(t: Bytes, special: set<byte>): Bytes {
    if t == [] then [] else EscapedByte(t[0], special) + Escaped(t[1..], special)
  }

  /** What must be escaped inside quotes, and outside. */
  const IN_QUOTES: set<byte> := {QUOTE, BACKSLASH}
  const BARE: set<byte> := {SPACE, QUOTE, BACKSLASH}

  /** An argument in double quotes. */
  function Quoted(t: Bytes): Bytes {
    [QUOTE] + Escaped(t, IN_QUOTES) + [QUOTE]
  }

  /** The arguments quoted, with a space between two. */
  function CommandLine(tokens: seq<Bytes>): Bytes {
    if tokens == [] then [] else if |tokens| == 1 then Quoted(tokens[0])
    else Quoted(tokens[0]) + [SPACE] + CommandLine(tokens[1..])
  }

  lemma ScanAscii(s: Scan, b: byte, rest: Bytes)
    requires b < 0x80
    ensures Scanned(s, [b] + rest) == Scanned(Next(s, [b]), rest)
  {
    var line := [b] + rest;
    assert RuneLen(line) == 1 && line[..1] == [b] && line[1..] == rest;
  }

  lemma ScanRune(s: Scan, r: Bytes, rest: Bytes)
    requires r != [] && RuneLen(r) == |r|
    ensures Scanned(s, r + rest) == Scanned(Next(s, r), rest)
  {
    var line := r + rest;
    assert line[..|r|] == r;
    RunePrefix(r, line);
    assert line[|r|..] == rest;
  }

  /** Wherever it stands, a backslash takes the next rune as it is. */
  lemma BackslashTakesRune(s: Scan, r: Bytes, rest: Bytes)
    requires !s.escaped && r != [] && RuneLen(r) == |r|
    ensures Scanned(s, [BACKSLASH] + (r + rest)) == Scanned(Holding(s, r), rest)
  {
    ScanAscii(s, BACKSLASH, r + rest);
    ScanRune(s.(escaped := true), r, rest);
  }

  predicate IsAscii(special: set<byte>) {
    forall b :: b in special ==> b < 0x80
  }

  /** Other bytes are not escaped. */
  lemma {:induction false} EscapedOthers(a: Bytes, b: Bytes, special: set<byte>)
    requires forall i :: 0 <= i < |a| ==> a[i] !in special
    ensures Escaped(a + b, special) == a + Escaped(b, special)
  {
    if a == [] {
      assert a + b == b;
    } else {
      assert (a + b)[1..] == a[1..] + b;
      EscapedOthers(a[1..], b, special);
    }
  }

  lemma {:induction false} EscapedConcat(a: Bytes, b: Bytes, special: set<byte>)
    ensures Escaped(a + b, special) == Escaped(a, special) + Escaped(b, special)
  {
    if a == [] {
      assert a + b == b;
    } else {
      assert (a + b)[1..] == a[1..] + b;
      EscapedConcat(a[1..], b, special);
      assert EscapedByte(a[0], special) + (Escaped(a[1..], special) + Escaped(b, special))
          == EscapedByte(a[0], special) + Escaped(a[1..], special) + Escaped(b, special);
    }
  }

  /** A multi-byte rune has no ASCII in it. */
  lemma WideRune(t: Bytes)
    requires RuneLen(t) > 1
    ensures forall i :: 0 <= i < RuneLen(t) ==> t[i] >= 0x80
  {
    assert t[0] >= 0x80 && t[1] >= 0x80;
    assert RuneLen(t) >= 3 ==> t[2] >= 0x80;
    assert RuneLen(t) >= 4 ==> t[3] >= 0x80;
  }

  /** Enough is escaped for the state of the scan. */
  predicate Suffices(s: Scan, special: set<byte>) {
    !s.escaped && IsAscii(special) && IN_QUOTES <= special && (s.inQuotes || SPACE in special)
  }

  lemma ScanEscapedRune(s: Scan, r: Bytes, rest: Bytes, special: set<byte>)
    requires Suffices(s, special) && r != [] && RuneLen(r) == |r|
    ensures Scanned(s, Escaped(r, special) + rest) == Scanned(Holding(s, r), rest)
  {
    if |r| > 1 {
      WideRune(r);
      EscapedOthers(r, [], special);
      assert r + [] == r && Escaped(r, special) == r;
      ScanRune(s, r, rest);
    } else {
      var b := r[0];
      assert r == [b] && Escaped([b], special) == EscapedByte(b, special) + [] == EscapedByte(b, special);
      if b in special {
        assert Escaped(r, special) + rest == [BACKSLASH] + ([b] + rest);
        BackslashTakesRune(s, [b], rest);
      } else {
        ScanAscii(s, b, rest);
      }
    }
  }

  lemma EscapedThen(a: Bytes, b: Bytes, rest: Bytes, special: set<byte>)
    ensures Escaped(a + b, special) + rest == Escaped(a, special) + (Escaped(b, special) + rest)
  {
    EscapedConcat(a, b, special);
  }

  function Holding(s: Scan, t: Bytes): Scan {
    s.(current := s.current + t)
  }

  lemma HoldingMore(s: Scan, a: Bytes, b: Bytes)
    ensures Holding(Holding(s, a), b) == Holding(s, a + b)
    ensures Holding(s, []) == s
  {
    assert s.current + a + b == s.current + (a + b);
    assert s.current + [] == s.current;
  }

  lemma {:induction false} ScanEscaped(s: Scan, t: Bytes, rest: Bytes, special: set<byte>)
    requires Valid(t) && Suffices(s, special)
    ensures Scanned(s, Escaped(t, special) + rest) == Scanned(Holding(s, t), rest)
    decreases |t|
  {
    if t == [] {
      assert Escaped(t, special) + rest == rest;
      HoldingMore(s, [], []);
    } else {
      FirstRuneOf(t);
      var r, left := t[..RuneLen(t)], t[RuneLen(t)..];
      EscapedThen(r, left, rest, special);
      ScanEscapedRune(s, r, Escaped(left, special) + rest, special);
      ScanEscaped(Holding(s, r), left, rest, special);
      HoldingMore(s, r, left);
    }
  }

  lemma ScanQuoted(tokens: seq<Bytes>, t: Bytes, rest: Bytes)
    requires Valid(t)
    ensures Scanned(Scan(tokens, [], false, false), Quoted(t) + rest) == Scanned(Scan(tokens, t, false, false), rest)
  {
    var inner := Escaped(t, IN_QUOTES);
    assert Quoted(t) + rest == [QUOTE] + (inner + ([QUOTE] + rest));
    ScanAscii(Scan(tokens, [], false, false), QUOTE, inner + ([QUOTE] + rest));
    ScanEscaped(Scan(tokens, [], true, false), t, [QUOTE] + rest, IN_QUOTES);
    assert [] + t == t;
    ScanAscii(Scan(tokens, t, true, false), QUOTE, rest);
  }

  predicate AreArguments(tokens: seq<Bytes>) {
    forall i :: 0 <= i < |tokens| ==> tokens[i] != [] && Valid(tokens[i])
  }

  lemma ScanQuotedThenSpace(done: seq<Bytes>, t: Bytes, rest: Bytes)
    requires Valid(t) && t != []
    ensures Scanned(Scan(done, [], false, false), Quoted(t) + [SPACE] + rest)
         == Scanned(Scan(done + [t], [], false, false), rest)
  {
    assert Quoted(t) + [SPACE] + rest == Quoted(t) + ([SPACE] + rest);
    ScanQuoted(done, t, [SPACE] + rest);
    ScanAscii(Scan(done, t, false, false), SPACE, rest);
  }

  lemma {:induction false} ScanCommandLine(done: seq<Bytes>, tokens: seq<Bytes>)
    requires AreArguments(tokens)
    ensures Flushed(Scanned(Scan(done, [], false, false), CommandLine(tokens))) == done + tokens
    decreases |tokens|
  {
    if tokens == [] {
      assert done + tokens == done;
    } else if |tokens| == 1 {
      assert Quoted(tokens[0]) + [] == Quoted(tokens[0]);
      ScanQuoted(done, tokens[0], []);
      assert tokens == [tokens[0]];
    } else {
      ScanQuotedThenSpace(done, tokens[0], CommandLine(tokens[1..]));
      ScanCommandLine(done + [tokens[0]], tokens[1..]);
      assert done + [tokens[0]] + tokens[1..] == done + tokens;
    }
  }

  lemma {:induction false} EscapedIsValid(t: Bytes, special: set<byte>)
    requires Valid(t) && IsAscii(special)
    ensures Valid(Escaped(t, special))
    ensures t != [] ==> Escaped(t, special) != [] && Escaped(t, special)[|Escaped(t, special)| - 1] == t[|t| - 1]
    decreases |t|
  {
    if t != [] {
      var n := RuneLen(t);
      var r, left := t[..n], t[n..];
      EscapedIsValid(left, special);
      FirstRuneOf(t);
      EscapedConcat(r, left, special);
      EscapedRuneIsValid(r, special);
      ValidConcat(Escaped(r, special), Escaped(left, special));
      if left == [] { assert r == t; }
    }
  }

  lemma EscapedRuneIsValid(r: Bytes, special: set<byte>)
    requires r != [] && RuneLen(r) == |r| && IsAscii(special)
    ensures Valid(Escaped(r, special))
    ensures Escaped(r, special) != [] && Escaped(r, special)[|Escaped(r, special)| - 1] == r[|r| - 1]
  {
    if |r| == 1 {
      assert Escaped(r, special) == EscapedByte(r[0], special) + [] == EscapedByte(r[0], special);
      AsciiIsValid(EscapedByte(r[0], special));
    } else {
      WideRune(r);
      EscapedOthers(r, [], special);
      assert r + [] == r && Escaped(r, special) == r;
      RuneIsValid(r);
      assert r[..|r|] == r;
    }
  }

  lemma QuotedIsValid(t: Bytes)
    requires Valid(t)
    ensures Valid(Quoted(t))
  {
    EscapedIsValid(t, IN_QUOTES);
    AsciiIsValid([QUOTE]);
    ValidConcat([QUOTE], Escaped(t, IN_QUOTES));
    ValidConcat([QUOTE] + Escaped(t, IN_QUOTES), [QUOTE]);
  }

  lemma {:induction false} CommandLineIsValid(tokens: seq<Bytes>)
    requires AreArguments(tokens)
    ensures var line := CommandLine(tokens);
            Valid(line) && (tokens != [] ==> line != [] && line[|line| - 1] == QUOTE)
  {
    if tokens != [] {
      QuotedIsValid(tokens[0]);
      if |tokens| > 1 {
        CommandLineIsValid(tokens[1..]);
        AsciiIsValid([SPACE]);
        ValidConcat(Quoted(tokens[0]), [SPACE]);
        ValidConcat(Quoted(tokens[0]) + [SPACE], CommandLine(tokens[1..]));
      }
    }
  }

  /** Parsing undoes quoting, for every list of non-empty arguments. */
  lemma ParsingUndoesQuoting(tokens: seq<Bytes>)
    requires AreArguments(tokens)
    ensures Parsed(CommandLine(tokens)) == tokens
  {
    CommandLineIsValid(tokens);
    LastArgumentLost(CommandLine(tokens));
    ScanCommandLine([], tokens);
    assert [] + tokens == tokens;
  }

  // ---- Words without quotes ----------------------------------------------------------------------------

  /** A word typed without quotes: a backslash before each space, quote and backslash. */
  function Typed(t: Bytes): Bytes {
    Escaped(t, BARE)
  }

  /** A word with none of these is typed as it is. */
  lemma PlainIsTyped(t: Bytes)
    ensures Typed(t) == t <==> SPACE !in t && QUOTE !in t && BACKSLASH !in t
  {
    if SPACE !in t && QUOTE !in t && BACKSLASH !in t {
      EscapedOthers(t, [], BARE);
      assert t + [] == t;
    } else {
      EscapedIsLonger(t, BARE);
    }
  }

  lemma {:induction false} EscapedIsLonger(t: Bytes, special: set<byte>)
    ensures |Escaped(t, special)| >= |t|
    ensures (exists b :: b in special && b in t) ==> |Escaped(t, special)| > |t|
  {
    if t != [] { EscapedIsLonger(t[1..], special); }
  }

  function Spaced(words: seq<Bytes>): Bytes {
    if words == [] then [] else if |words| == 1 then Typed(words[0])
    else Typed(words[0]) + [SPACE] + Spaced(words[1..])
  }

  lemma ScanWord(done: seq<Bytes>, t: Bytes, rest: Bytes)
    requires Valid(t)
    ensures Scanned(Scan(done, [], false, false), Typed(t) + rest) == Scanned(Scan(done, t, false, false), rest)
  {
    ScanEscaped(Scan(done, [], false, false), t, rest, BARE);
    assert [] + t == t;
  }

  lemma ScanWordThenSpace(done: seq<Bytes>, t: Bytes, rest: Bytes)
    requires Valid(t) && t != []
    ensures Scanned(Scan(done, [], false, false), Typed(t) + [SPACE] + rest)
         == Scanned(Scan(done + [t], [], false, false), rest)
  {
    assert Typed(t) + [SPACE] + rest == Typed(t) + ([SPACE] + rest);
    ScanWord(done, t, [SPACE] + rest);
    ScanAscii(Scan(done, t, false, false), SPACE, rest);
  }

  lemma ScanLastWord(done: seq<Bytes>, t: Bytes)
    requires Valid(t) && t != []
    ensures Flushed(Scanned(Scan(done, [], false, false), Typed(t))) == done + [t]
  {
    assert Typed(t) + [] == Typed(t);
    ScanWord(done, t, []);
  }

  lemma {:induction false} ScanWords(done: seq<Bytes>, words: seq<Bytes>)
    requires AreArguments(words)
    ensures Flushed(Scanned(Scan(done, [], false, false), Spaced(words))) == done + words
    decreases |words|
  {
    if words == [] {
      assert done + words == done;
    } else if |words| == 1 {
      ScanLastWord(done, words[0]);
      assert words == [words[0]];
    } else {
      ScanWordThenSpace(done, words[0], Spaced(words[1..]));
      ScanWords(done + [words[0]], words[1..]);
      assert done + [words[0]] + words[1..] == done + words;
    }
  }

  lemma {:induction false} SpacedIsValid(words: seq<Bytes>)
    requires AreArguments(words)
    ensures Valid(Spaced(words))
    decreases |words|
  {
    if words != [] {
      EscapedIsValid(words[0], BARE);
      if |words| > 1 {
        SpacedIsValid(words[1..]);
        AsciiIsValid([SPACE]);
        ValidConcat(Typed(words[0]), [SPACE]);
        ValidConcat(Typed(words[0]) + [SPACE], Spaced(words[1..]));
      }
    }
  }

  lemma {:induction false} SpacedEnds(words: seq<Bytes>, last: Bytes)
    requires AreArguments(words) && words != [] && words[|words| - 1] == last
    ensures last != [] && Spaced(words) != [] && Spaced(words)[|Spaced(words)| - 1] == last[|last| - 1]
    decreases |words|
  {
    if |words| > 1 { SpacedEnds(words[1..], last); } else { EscapedIsValid(last, BARE); }
  }

  lemma WordsOnLine(words: seq<Bytes>)
    requires AreArguments(words)
    ensures Arguments(Spaced(words)) == words
  {
    ScanWords([], words);
    assert [] + words == words;
  }

  /** Words typed without quotes, with spaces between, come back as they were meant, but without the last one
      if that ends in a multi-byte rune. */
  lemma TypedWordsComeBack(words: seq<Bytes>, last: Bytes)
    requires AreArguments(words) && words != [] && last == words[|words| - 1]
    ensures last != []
    ensures Parsed(Spaced(words)) == if last[|last| - 1] < 0x80 then words else words[..|words| - 1]
  {
    SpacedIsValid(words);
    SpacedEnds(words, last);
    LastArgumentLost(Spaced(words));
    WordsOnLine(words);
  }
}
