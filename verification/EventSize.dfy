/** The size of a text event as JSON, and what it means for cutting a body into chunks: text that needs little
    escaping is cut between runes, and there is text that is not. */
module EventSize {
  import opened Utf8
  import opened Chunking

  /** How many bytes json.Marshal writes for an ASCII character: characters special to HTML and most control
      characters become six. */
  function JsonWidth(b: byte): nat {
    if b == 0x22 || b == 0x5C || (0x08 <= b <= 0x0D && b != 0x0B) then 2
    else if b < 0x20 || b == 0x26 || b == 0x3C || b == 0x3E then 6
    else 1
  }

  /** For the rune of `n` bytes at the front; U+2028 and U+2029 become six bytes. */
  function JsonRune(s: seq<byte>, n: nat): nat
    requires 0 < n <= |s|
  {
    if n == 1 then JsonWidth(s[0])
    else if n == 3 && s[0] == 0xE2 && s[1] == 0x80 && (s[2] == 0xA8 || s[2] == 0xA9) then 6
    else n
  }

  /** A byte that starts no rune becomes the six bytes of an escaped U+FFFD. */
  function JsonLength(s: seq<byte>): nat
    decreases |s|
  {
    if s == [] then 0
    else
      var n := RuneLen(s);
      if n == 0 then 6 + JsonLength(s[1..]) else JsonRune(s, n) + JsonLength(s[n..])
  }

  function JsonSize(overhead: nat): seq<byte> -> nat {
    (s: seq<byte>) => overhead + JsonLength(s)
  }

  lemma {:induction false} LengthIsBounded(s: seq<byte>)
    ensures JsonLength(s) <= 6 * |s|
    decreases |s|
  {
    if s != [] { LengthIsBounded(s[if RuneLen(s) == 0 then 1 else RuneLen(s)..]); }
  }

  /** The bound that the chunker's termination in good time rests on. */
  lemma EscapingIsBounded(overhead: nat)
    requires overhead <= MAX_OVERHEAD
    ensures Roomy(JsonSize(overhead))
  {
    forall s: seq<byte> ensures JsonSize(overhead)(s) <= MAX_OVERHEAD + 6 * |s| {
      LengthIsBounded(s);
    }
  }

  // ---- Text that is cut cleanly ----------------------------------------------------------------------

  /** Text without the characters that become six bytes. */
  predicate LightlyEscaped(s: seq<byte>) {
    forall b :: b in s ==> JsonWidth(b) <= 2
  }

  lemma {:induction false} LightLength(s: seq<byte>)
    requires Valid(s) && LightlyEscaped(s)
    ensures JsonLength(s) <= 2 * |s|
    decreases |s|
  {
    if s != [] {
      assert JsonRune(s, RuneLen(s)) <= 2 * RuneLen(s) by { assert s[0] in s; }
      LightLength(s[RuneLen(s)..]);
    }
  }

  lemma LightPieceFits(overhead: nat, remaining: seq<byte>)
    requires Valid(remaining) && remaining != [] && LightlyEscaped(remaining) && overhead <= PER_EVENT_TARGET
    ensures Fits(JsonSize(overhead), Piece(remaining))
  {
    var piece := Piece(remaining);
    PieceIsClean(remaining);
    forall b | b in piece ensures JsonWidth(b) <= 2 { assert b in remaining; }
    LightLength(piece);
  }

  lemma AfterIsLight(size: seq<byte> -> nat, remaining: seq<byte>)
    requires LightlyEscaped(remaining)
    ensures LightlyEscaped(After(size, remaining))
  {
    var tail := remaining[|Chunk(size, remaining)|..];
    TrimLeftSplits(tail);
    forall b | b in After(size, remaining) ensures JsonWidth(b) <= 2 {
      assert b in tail;
      assert b in remaining;
    }
  }

  lemma LightCut(overhead: nat, body: seq<byte>)
    requires Valid(body) && body != [] && LightlyEscaped(body) && overhead <= PER_EVENT_TARGET
    ensures var size := JsonSize(overhead);
            CleanCut(size, body) && Valid(After(size, body)) && LightlyEscaped(After(size, body))
  {
    LightPieceFits(overhead, body);
    ChunkIsValidIff(JsonSize(overhead), body);
    AfterIsLight(JsonSize(overhead), body);
  }

  /** So every body of such text is cut between runes. */
  lemma {:induction false} LightTextIsCutCleanly(overhead: nat, body: seq<byte>, n: nat)
    requires Valid(body) && LightlyEscaped(body) && overhead <= PER_EVENT_TARGET
    ensures CleanCuts(JsonSize(overhead), body, n)
    decreases n
  {
    if body != [] && n > 0 {
      LightCut(overhead, body);
      LightTextIsCutCleanly(overhead, After(JsonSize(overhead), body), n - 1);
    }
  }

  // ---- Text that is cut inside a rune ----------------------------------------------------------------

  /** `n` times "<". */
  function Angles(n: nat): seq<byte> {
    if n == 0 then [] else [0x3C] + Angles(n - 1)
  }

  /** `n` times "é". */
  function Acutes(n: nat): seq<byte> {
    if n == 0 then [] else [0xC3, 0xA9] + Acutes(n - 1)
  }

  lemma {:induction false} AnglesAre(n: nat)
    ensures |Angles(n)| == n && forall i :: 0 <= i < n ==> Angles(n)[i] == 0x3C
  {
    if n > 0 { AnglesAre(n - 1); }
  }

  lemma {:induction false} AcutesAre(n: nat)
    ensures |Acutes(n)| == 2 * n && Valid(Acutes(n))
    ensures forall i :: 0 <= i < 2 * n ==> Acutes(n)[i] == if i % 2 == 0 then 0xC3 else 0xA9
  {
    if n > 0 {
      AcutesAre(n - 1);
      assert Acutes(n)[2..] == Acutes(n - 1);
    }
  }

  lemma AngleLength(s: seq<byte>, t: seq<byte>)
    requires s == [0x3C] + t
    ensures JsonLength(s) == 6 + JsonLength(t)
  {
    assert s[1..] == t;
  }

  lemma {:induction false} AnglesLength(n: nat, t: seq<byte>)
    ensures JsonLength(Angles(n) + t) == 6 * n + JsonLength(t)
  {
    if n == 0 {
      assert Angles(0) + t == t;
    } else {
      AnglesLength(n - 1, t);
      assert Angles(n) + t == [0x3C] + (Angles(n - 1) + t);
      AngleLength(Angles(n) + t, Angles(n - 1) + t);
    }
  }

  lemma AcuteLength(s: seq<byte>, t: seq<byte>)
    requires s == [0xC3, 0xA9] + t
    ensures JsonLength(s) == 2 + JsonLength(t)
  {
    assert s[2..] == t;
  }

  lemma HalfLength(s: seq<byte>)
    requires s == [0xC3]
    ensures JsonLength(s) == 6
  {
    assert s[1..] == [];
  }

  /** Half an "é" at the end counts six. */
  lemma {:induction false} AcutesLength(n: nat, j: nat)
    requires j <= 2 * n == |Acutes(n)|
    ensures JsonLength(Acutes(n)[..j]) == if j % 2 == 0 then j else j + 5
  {
    var s := Acutes(n)[..j];
    if j == 1 {
      HalfLength(s);
    } else if j >= 2 {
      AcutesAre(n - 1);
      var rest := Acutes(n - 1)[..j - 2];
      assert s == [0xC3, 0xA9] + rest;
      AcutesLength(n - 1, j - 2);
      AcuteLength(s, rest);
    }
  }

  function Mixed(x: nat, y: nat): seq<byte> {
    Angles(x) + Acutes(y)
  }

  lemma MixedIsValid(x: nat, y: nat)
    ensures Valid(Mixed(x, y)) && |Mixed(x, y)| == x + 2 * y
  {
    AnglesAre(x);
    AcutesAre(y);
    AsciiIsValid(Angles(x));
    ValidConcat(Angles(x), Acutes(y));
  }

  lemma MixedLength(x: nat, y: nat, k: nat)
    requires x <= k <= x + 2 * y
    ensures var s := Mixed(x, y);
            |s| == x + 2 * y && JsonLength(s[..k]) == 5 * x + k + if (k - x) % 2 == 0 then 0 else 5
  {
    AnglesAre(x);
    AcutesAre(y);
    assert Mixed(x, y)[..k] == Angles(x) + Acutes(y)[..k - x];
    AnglesLength(x, Acutes(y)[..k - x]);
    AcutesLength(y, k - x);
  }

  lemma MixedContinues(x: nat, y: nat, k: nat)
    requires x <= k < x + 2 * y && (k - x) % 2 == 1
    ensures k < |Mixed(x, y)| && IsContinuation(Mixed(x, y)[k])
  {
    AnglesAre(x);
    AcutesAre(y);
    assert Mixed(x, y)[k] == Acutes(y)[k - x];
  }

  lemma ShrunkOnce(size: seq<byte> -> nat, body: seq<byte>)
    requires body != [] && !Fits(size, body) && Fits(size, body[..Reduced(|body|)])
    ensures Shrunk(size, body) == body[..Reduced(|body|)]
  {
  }

  lemma SplitChunk(size: seq<byte> -> nat, body: seq<byte>)
    requires Valid(body) && 0 < |body| <= PER_EVENT_TARGET
    requires !Fits(size, body) && Fits(size, body[..Reduced(|body|)]) && IsContinuation(body[Reduced(|body|)])
    ensures !Valid(Chunk(size, body))
  {
    assert Piece(body) == body;
    ShrunkOnce(size, body);
    ChunkIsValidIff(size, body);
  }

  /** The event with `x` times "<" and `y` times "é" is too large, and what is left of it after one round of
      shrinking fits, but ends inside a rune. */
  predicate SplitsLastRune(overhead: nat, x: nat, y: nat) {
    var n := x + 2 * y;
    && 0 < n <= PER_EVENT_TARGET && x <= Reduced(n) && (Reduced(n) - x) % 2 == 1
    && overhead + 5 * x + n > MAX_MATRIX_CONTENT_SIZE >= overhead + 5 * x + Reduced(n) + 5
  }

  lemma MixedFitsShrunk(overhead: nat, x: nat, y: nat)
    requires SplitsLastRune(overhead, x, y)
    ensures var body := Mixed(x, y);
            && |body| == x + 2 * y && !Fits(JsonSize(overhead), body)
            && Fits(JsonSize(overhead), body[..Reduced(x + 2 * y)])
  {
    var n := x + 2 * y;
    MixedLength(x, y, n);
    MixedLength(x, y, Reduced(n));
    assert Mixed(x, y)[..n] == Mixed(x, y);
  }

  lemma MixedIsSplit(overhead: nat, x: nat, y: nat)
    requires SplitsLastRune(overhead, x, y)
    ensures Valid(Mixed(x, y)) && Mixed(x, y) != [] && !Valid(Chunk(JsonSize(overhead), Mixed(x, y)))
  {
    MixedIsValid(x, y);
    MixedFitsShrunk(overhead, x, y);
    MixedContinues(x, y, Reduced(x + 2 * y));
    SplitChunk(JsonSize(overhead), Mixed(x, y));
  }

  /** So shrinking can split a rune: there is a valid body whose first chunk is not valid, whatever the event
      holds besides, up to 900 bytes. */
  lemma ShrinkingCanSplitARune(overhead: nat)
    requires overhead <= 900
    ensures exists body :: Valid(body) && body != [] && !Valid(Chunk(JsonSize(overhead), body))
  {
    var x: nat, y: nat :| x == 6701 && y == 4839;
    assert Reduced(x + 2 * y) == 14742;
    assert SplitsLastRune(overhead, x, y);
    MixedIsSplit(overhead, x, y);
  }
}
