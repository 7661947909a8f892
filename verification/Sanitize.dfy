/** Cleaning a string for the log: no control characters, a bounded length, no rune cut in two. */
module Sanitize {
  import opened Utf8
  import Text

  predicate IsControl(b: byte) {
    b < 32 || b == 127
  }

  predicate NoControls(s: seq<byte>) {
    forall b :: b in s ==> !IsControl(b)
  }

  function Scrubbed(s: seq<byte>): seq<byte> {
    if s == [] then []
    else if RuneLen(s) == 0 then REPLACEMENT + Scrubbed(s[1..])
    else if IsControl(s[0]) then Scrubbed(s[1..])
    else s[..RuneLen(s)] + Scrubbed(s[RuneLen(s)..])
  }

  lemma {:induction false} ScrubbedIsClean(s: seq<byte>)
    ensures Valid(Scrubbed(s)) && NoControls(Scrubbed(s))
    decreases |s|
  {
    if s != [] {
      var n := RuneLen(s);
      if n == 0 {
        ScrubbedIsClean(s[1..]);
        ReplacementIsValid();
        ValidConcat(REPLACEMENT, Scrubbed(s[1..]));
      } else if IsControl(s[0]) {
        ScrubbedIsClean(s[1..]);
      } else {
        ScrubbedIsClean(s[n..]);
        RuneIsValid(s);
        RuneIsClean(s);
        ValidConcat(s[..n], Scrubbed(s[n..]));
      }
    }
  }

  lemma RuneIsClean(s: seq<byte>)
    requires RuneLen(s) > 0 && !IsControl(s[0])
    ensures NoControls(s[..RuneLen(s)])
  {
    var n := RuneLen(s);
    forall b | b in s[..n] ensures !IsControl(b) {
      var i :| 0 <= i < n && s[..n][i] == b;
      if i == 1 { assert IsSecond(s[0], s[1]); }
    }
  }

  /** Text that is valid and free of control characters is left alone, and no other text is. */
  lemma {:induction false} ScrubbedIffUnclean(s: seq<byte>)
    ensures Scrubbed(s) == s <==> Valid(s) && NoControls(s)
    decreases |s|
  {
    ScrubbedIsClean(s);
    if Valid(s) && NoControls(s) && s != [] {
      var n := RuneLen(s);
      ScrubbedIffUnclean(s[n..]);
      assert s == s[..n] + s[n..];
    }
  }

  /** Clean text survives, up to and after a control character, which is dropped. */
  lemma ControlsAreDropped(front: seq<byte>, c: byte, rest: seq<byte>)
    requires Valid(front) && NoControls(front) && IsControl(c)
    ensures Scrubbed(front + ([c] + rest)) == front + Scrubbed(rest)
  {
    CleanFront(front, [c] + rest);
    var s := [c] + rest;
    assert s[1..] == rest;
  }

  /** And up to and after a byte that is no part of a rune, which is replaced. */
  lemma StrayBytesAreReplaced(front: seq<byte>, c: byte, rest: seq<byte>)
    requires Valid(front) && NoControls(front) && RuneLen([c] + rest) == 0
    ensures Scrubbed(front + ([c] + rest)) == front + (REPLACEMENT + Scrubbed(rest))
  {
    CleanFront(front, [c] + rest);
    var s := [c] + rest;
    assert s[1..] == rest;
  }

  lemma {:induction false} CleanFront(front: seq<byte>, rest: seq<byte>)
    requires Valid(front) && NoControls(front)
    ensures Scrubbed(front + rest) == front + Scrubbed(rest)
    decreases |front|
  {
    if front == [] {
      assert front + rest == rest;
    } else {
      FirstRuneOf(front);
      var r, left := front[..RuneLen(front)], front[RuneLen(front)..];
      assert front[0] in front && NoControls(left);
      CleanFront(left, rest);
      RuneSurvives(r, left + rest);
      Regroup(r, left, rest);
      Regroup(r, left, Scrubbed(rest));
    }
  }

  lemma Regroup(a: seq<byte>, b: seq<byte>, c: seq<byte>)
    ensures a + (b + c) == a + b + c
  {
  }

  lemma RuneSurvives(r: seq<byte>, rest: seq<byte>)
    requires r != [] && RuneLen(r) == |r| && !IsControl(r[0])
    ensures Scrubbed(r + rest) == r + Scrubbed(rest)
  {
    var s := r + rest;
    assert s[..|r|] == r && s[|r|..] == rest;
    RunePrefix(r, s);
  }

  // ---- Trimming --------------------------------------------------------------------------------------

  /** How many bytes the Unicode space at the front of `s` takes; 0 if there is none. */
  function SpaceLen(s: seq<byte>): (n: nat)
    ensures n <= |s|
  {
    if |s| >= 1 && (0x09 <= s[0] <= 0x0D || s[0] == 0x20) then 1
    else if |s| >= 2 && s[0] == 0xC2 && (s[1] == 0x85 || s[1] == 0xA0) then 2
    else if |s| >= 3 && IsWideSpace(s[0], s[1], s[2]) then 3
    else 0
  }

  /** U+1680, U+2000 to U+200A, U+2028, U+2029, U+202F, U+205F and U+3000. */
  predicate IsWideSpace(a: byte, b: byte, c: byte) {
    || (a == 0xE1 && b == 0x9A && c == 0x80)
    || (a == 0xE2 && b == 0x80 && (0x80 <= c <= 0x8A || c == 0xA8 || c == 0xA9 || c == 0xAF))
    || (a == 0xE2 && b == 0x81 && c == 0x9F)
    || (a == 0xE3 && b == 0x80 && c == 0x80)
  }

  /** The same for the end of `s`. */
  function SpaceLenBack(s: seq<byte>): (n: nat)
    ensures n <= |s|
  {
    if |s| >= 1 && SpaceLen(s[|s| - 1..]) == 1 then 1
    else if |s| >= 2 && SpaceLen(s[|s| - 2..]) == 2 then 2
    else if |s| >= 3 && SpaceLen(s[|s| - 3..]) == 3 then 3
    else 0
  }

  function TrimFront(s: seq<byte>): seq<byte>
    decreases |s|
  {
    if SpaceLen(s) == 0 then s else TrimFront(s[SpaceLen(s)..])
  }

  function TrimBack(s: seq<byte>): (r: seq<byte>)
    ensures r <= s
    decreases |s|
  {
    if SpaceLenBack(s) == 0 then s else TrimBack(s[..|s| - SpaceLenBack(s)])
  }

  function Trimmed(s: seq<byte>): seq<byte> {
    TrimBack(TrimFront(s))
  }

  lemma {:induction false} TrimFrontTrims(s: seq<byte>)
    ensures SpaceLen(TrimFront(s)) == 0
    decreases |s|
  {
    if SpaceLen(s) != 0 { TrimFrontTrims(s[SpaceLen(s)..]); }
  }

  lemma {:induction false} TrimBackTrims(s: seq<byte>)
    ensures SpaceLenBack(TrimBack(s)) == 0
    decreases |s|
  {
    if SpaceLenBack(s) != 0 { TrimBackTrims(s[..|s| - SpaceLenBack(s)]); }
  }

  /** A space at the front of a prefix is one at the front of the whole. */
  lemma SpaceInFront(t: seq<byte>, s: seq<byte>)
    requires t <= s && SpaceLen(t) > 0
    ensures SpaceLen(s) == SpaceLen(t)
  {
  }

  /** Trimming leaves no space at either end. */
  lemma TrimmedHasNoSpaceAround(s: seq<byte>)
    ensures SpaceLen(Trimmed(s)) == 0 && SpaceLenBack(Trimmed(s)) == 0
  {
    TrimFrontTrims(s);
    TrimBackTrims(TrimFront(s));
    if SpaceLen(Trimmed(s)) > 0 { SpaceInFront(Trimmed(s), TrimFront(s)); }
  }

  /** A space is the encoding of a Unicode white space character. */
  lemma SpaceIffWhite(s: seq<byte>)
    ensures SpaceLen(s) > 0 <==> exists c: char :: Text.IsSpace(c) && Encode(c as int) <= s
  {
    if SpaceLen(s) > 0 {
      SpaceIsWhite(s);
      DecodedIsScalar(s);
      assert Encode(Decoded(s) as char as int) <= s;
    }
    if c: char :| Text.IsSpace(c) && Encode(c as int) <= s {
      WhiteIsSpace(c, s);
    }
  }

  lemma SpaceIsWhite(s: seq<byte>)
    requires SpaceLen(s) > 0
    ensures RuneLen(s) == SpaceLen(s) && IsScalar(Decoded(s)) && Text.IsSpace(Decoded(s) as char)
  {
  }

  lemma WhiteIsSpace(c: char, s: seq<byte>)
    requires Text.IsSpace(c) && Encode(c as int) <= s
    ensures SpaceLen(s) == |Encode(c as int)|
  {
    var r := Encode(c as int);
    assert forall i :: 0 <= i < |r| ==> s[i] == r[i];
  }

  /** A run of white space. */
  predicate IsSpaces(s: seq<byte>)
    decreases |s|
  {
    s == [] || (SpaceLen(s) > 0 && IsSpaces(s[SpaceLen(s)..]))
  }

  lemma SpaceBefore(r: seq<byte>, rest: seq<byte>)
    requires SpaceLen(r) == |r| > 0 && IsSpaces(rest)
    ensures IsSpaces(r + rest)
  {
    var s := r + rest;
    assert s[|r|..] == rest;
    SpaceInFront(r, s);
  }

  lemma SpaceAtFront(s: seq<byte>) returns (r: seq<byte>, rest: seq<byte>)
    requires SpaceLen(s) > 0
    ensures s == r + rest && SpaceLen(r) == |r| > 0 && TrimFront(s) == TrimFront(rest)
  {
    r, rest := s[..SpaceLen(s)], s[SpaceLen(s)..];
    SpaceInFront(r, s);
  }

  lemma SpaceAtBack(s: seq<byte>) returns (rest: seq<byte>, r: seq<byte>)
    requires SpaceLenBack(s) > 0
    ensures s == rest + r && SpaceLen(r) == |r| > 0 && TrimBack(s) == TrimBack(rest)
  {
    rest, r := s[..|s| - SpaceLenBack(s)], s[|s| - SpaceLenBack(s)..];
  }

  /** Trimming takes off white space only. */
  lemma {:induction false} TrimFrontDrops(s: seq<byte>) returns (front: seq<byte>)
    ensures IsSpaces(front) && s == front + TrimFront(s)
    decreases |s|
  {
    if SpaceLen(s) == 0 {
      front := [];
    } else {
      var r, rest := SpaceAtFront(s);
      var more := TrimFrontDrops(rest);
      SpaceBefore(r, more);
      Regroup(r, more, TrimFront(rest));
      front := r + more;
    }
  }

  lemma {:induction false} TrimBackDrops(s: seq<byte>, run: seq<byte>) returns (back: seq<byte>)
    requires IsSpaces(run)
    ensures IsSpaces(back) && s + run == TrimBack(s) + back
    decreases |s|
  {
    if SpaceLenBack(s) == 0 {
      back := run;
    } else {
      var rest, r := SpaceAtBack(s);
      SpaceBefore(r, run);
      Regroup(rest, r, run);
      back := TrimBackDrops(rest, r + run);
    }
  }

  /** What is left is the text between the white space at its ends. */
  lemma TrimmedIsTheMiddle(s: seq<byte>) returns (front: seq<byte>, back: seq<byte>)
    ensures IsSpaces(front) && IsSpaces(back) && s == front + (Trimmed(s) + back)
  {
    front := TrimFrontDrops(s);
    var t := TrimFront(s);
    back := TrimBackDrops(t, []);
    assert t + [] == t;
  }

  // ---- The whole -------------------------------------------------------------------------------------

  method BoundAndClean(text: seq<byte>, max: int) returns (r: seq<byte>)
    ensures var clean := Scrubbed(Trimmed(text));
            && r <= clean && NoControls(r) && (max > 0 ==> |r| <= max)
            && (max <= 0 || |clean| <= max ==> r == clean)
            && (0 < max < |clean| ==> r == clean[..RuneCut(clean, max)] && (Valid(r) <==> RuneLen(clean) <= max))
  {
    var s := Trimmed(text);
    var out: seq<byte> := [];
    var rest := s;
    while rest != []
      invariant Scrubbed(s) == out + Scrubbed(rest)
      decreases |rest|
    {
      var n := RuneLen(rest);
      if n == 0 {
        out := out + REPLACEMENT;
        rest := rest[1..];
      } else {
        if !IsControl(rest[0]) { out := out + rest[..n]; }
        rest := rest[n..];
      }
    }
    ScrubbedIsClean(s);
    assert out == Scrubbed(s);
    if max > 0 && |out| > max {
      CutBounds(out, max);
      var cut := CutAtRune(out, max);
      return out[..cut];
    }
    return out;
  }

  /** The walk back from the limit to the start of a rune. */
  method CutAtRune(out: seq<byte>, max: nat) returns (cut: nat)
    requires 0 < max < |out|
    ensures cut == RuneCut(out, max)
  {
    cut := max;
    while cut > 0 && cut < |out|
      invariant 0 <= cut <= max
      invariant LastBoundary(out, max) == LastBoundary(out, cut)
    {
      if out[cut] < 0x80 { break; }
      if out[cut] >= 0xC0 { break; }
      cut := cut - 1;
    }
    if cut <= 0 { cut := max; }
  }

  lemma CutBounds(s: seq<byte>, max: nat)
    requires Valid(s) && 0 < max < |s|
    ensures Valid(s[..RuneCut(s, max)]) <==> RuneLen(s) <= max
  {
    FirstBoundary(s, max);
    CutIsValidIffBoundary(s, RuneCut(s, max));
  }
}
