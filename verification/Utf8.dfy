/** UTF-8 as Go checks it (sections 3 and 4 of RFC 3629), and cutting a string of it in two. */
module Utf8 {

  type byte = b: int | 0 <= b < 256

  predicate IsContinuation(b: byte) {
    0x80 <= b <= 0xBF
  }

  /** The range of the second byte depends on the first: no overlong forms, no surrogates, nothing past
      U+10FFFF. */
  predicate IsSecond(lead: byte, b: byte) {
    var low := if lead == 0xE0 then 0xA0 else if lead == 0xF0 then 0x90 else 0x80;
    var high := if lead == 0xED then 0x9F else if lead == 0xF4 then 0x8F else 0xBF;
    low <= b <= high
  }

  /** How many bytes a rune takes that starts with this byte; 0 if none does. */
  function Width(lead: byte): nat {
    if lead < 0x80 then 1
    else if 0xC2 <= lead <= 0xDF then 2
    else if 0xE0 <= lead <= 0xEF then 3
    else if 0xF0 <= lead <= 0xF4 then 4
    else 0
  }

  /** The length of the rune at the front of `s`, or 0 if there is no well-formed one. */
  function RuneLen(s: seq<byte>): (n: nat)
    ensures n <= |s| && n <= 4
  {
    if s == [] then 0
    else
      var n := Width(s[0]);
      if n <= |s| && (n >= 2 ==> IsSecond(s[0], s[1]))
         && (n >= 3 ==> IsContinuation(s[2])) && (n >= 4 ==> IsContinuation(s[3]))
      then n else 0
  }

  /** The encoding of U+FFFD, which Go writes for a byte that is no part of a rune. */
  const REPLACEMENT: seq<byte> := [0xEF, 0xBF, 0xBD]

  predicate Valid(s: seq<byte>) {
    s == [] || (RuneLen(s) > 0 && Valid(s[RuneLen(s)..]))
  }

  /** A cut before `k` does not split a rune of a valid string exactly if no continuation byte follows. */
  predicate IsBoundary(s: seq<byte>, k: nat)
    requires k <= |s|
  {
    k == |s| || !IsContinuation(s[k])
  }

  /** The last boundary at or before `k`, found by looking at byte classes only; 0 if there is none. */
  function LastBoundary(s: seq<byte>, k: nat): (b: nat)
    requires k <= |s|
    ensures b <= k && (b > 0 ==> IsBoundary(s, b))
    ensures forall j :: b < j <= k ==> !IsBoundary(s, j)
  {
    if k == 0 || IsBoundary(s, k) then k else LastBoundary(s, k - 1)
  }

  /** A rune's own bytes decide that it is one. */
  lemma RunePrefix(s: seq<byte>, t: seq<byte>)
    requires RuneLen(s) > 0 && RuneLen(s) <= |t| && t[..RuneLen(s)] == s[..RuneLen(s)]
    ensures RuneLen(t) == RuneLen(s)
  {
    var n := RuneLen(s);
    assert forall i :: 0 <= i < n ==> t[i] == t[..n][i] && s[i] == s[..n][i];
  }

  /** A valid string is its first rune and a valid rest. */
  lemma FirstRuneOf(t: seq<byte>)
    requires Valid(t) && t != []
    ensures var n := RuneLen(t); n > 0 && RuneLen(t[..n]) == n && t == t[..n] + t[n..] && Valid(t[n..])
  {
    RuneStands(t);
  }

  lemma RuneStands(t: seq<byte>)
    requires RuneLen(t) > 0
    ensures RuneLen(t[..RuneLen(t)]) == RuneLen(t)
  {
    var r := t[..RuneLen(t)];
    assert r[..RuneLen(t)] == r;
    RunePrefix(t, r);
  }

  lemma ReplacementIsValid()
    ensures Valid(REPLACEMENT)
  {
    assert RuneLen(REPLACEMENT) == 3;
    assert REPLACEMENT[3..] == [];
  }

  lemma RuneIsValid(s: seq<byte>)
    requires RuneLen(s) > 0
    ensures Valid(s[..RuneLen(s)])
  {
    var r := s[..RuneLen(s)];
    RunePrefix(s, r);
    assert r[RuneLen(r)..] == [];
  }

  lemma {:induction false} ValidConcat(a: seq<byte>, b: seq<byte>)
    requires Valid(a)
    ensures Valid(a + b) <==> Valid(b)
    decreases |a|
  {
    if a == [] {
      assert a + b == b;
    } else {
      var n := RuneLen(a);
      assert (a + b)[..n] == a[..n];
      RunePrefix(a, a + b);
      assert (a + b)[n..] == a[n..] + b;
      ValidConcat(a[n..], b);
    }
  }

  lemma {:induction false} AsciiIsValid(s: seq<byte>)
    requires forall i :: 0 <= i < |s| ==> s[i] < 0x80
    ensures Valid(s)
  {
    if s != [] { AsciiIsValid(s[1..]); }
  }

  /** Validating a prefix and looking at the next byte are the same test, on a valid string. */
  lemma {:induction false} CutIsValidIffBoundary(s: seq<byte>, k: nat)
    requires Valid(s) && k <= |s|
    ensures Valid(s[..k]) <==> IsBoundary(s, k)
    ensures IsBoundary(s, k) ==> Valid(s[k..])
    decreases |s|
  {
    if s == [] || k == 0 {
      assert s[..k] == [] && s[k..] == s;
    } else {
      var n := RuneLen(s);
      if k < n {
        assert s[..k][0] == s[0];
        assert RuneLen(s[..k]) == 0;
      } else {
        assert s[..k][..n] == s[..n];
        RunePrefix(s, s[..k]);
        assert s[..k][n..] == s[n..][..k - n];
        assert s[n..][k - n..] == s[k..];
        CutIsValidIffBoundary(s[n..], k - n);
      }
    }
  }

  /** A boundary is never more than three bytes away. */
  lemma {:induction false} BoundaryIsNear(s: seq<byte>, k: nat)
    requires Valid(s) && k <= |s|
    ensures LastBoundary(s, k) + 3 >= k
    ensures IsBoundary(s, LastBoundary(s, k))
    decreases |s|
  {
    if s != [] {
      var n := RuneLen(s);
      if k < n {
        assert IsBoundary(s, 0);
      } else {
        BoundaryIsNear(s[n..], k - n);
        ShiftBoundary(s, n, k);
      }
    }
  }

  lemma {:induction false} ShiftBoundary(s: seq<byte>, n: nat, k: nat)
    requires n <= k <= |s| && IsBoundary(s[n..], LastBoundary(s[n..], k - n))
    ensures LastBoundary(s, k) == n + LastBoundary(s[n..], k - n)
    decreases k
  {
    if k == n {
      assert LastBoundary(s[n..], 0) == 0;
    } else if !IsBoundary(s, k) {
      assert !IsBoundary(s[n..], k - n);
      ShiftBoundary(s, n, k - 1);
    }
  }

  /** A suffix of a valid string is valid itself, or starts in the middle of a rune and then has no valid
      prefix at all. */
  lemma SuffixOfValid(s: seq<byte>, k: nat)
    requires Valid(s) && k < |s|
    ensures Valid(s[k..]) || RuneLen(s[k..]) == 0
  {
    CutIsValidIffBoundary(s, k);
  }

  lemma {:induction false} NoValidPrefix(s: seq<byte>, k: nat)
    requires s != [] && RuneLen(s) == 0 && 0 < k <= |s|
    ensures !Valid(s[..k])
  {
    assert s[..k][0] == s[0];
    if RuneLen(s[..k]) > 0 {
      assert s[..k][..RuneLen(s[..k])] == s[..RuneLen(s[..k])];
      RunePrefix(s[..k], s);
    }
  }

  // ---- Code points -------------------------------------------------------------------------------------

  /** A Unicode scalar value: a code point that is no surrogate. */
  predicate IsScalar(c: int) {
    0 <= c < 0xD800 || 0xE000 <= c <= 0x10FFFF
  }

  /** The encoding in section 3 of RFC 3629. */
  function Encode(c: int): (r: seq<byte>)
    requires IsScalar(c)
    ensures 1 <= |r| <= 4
  {
    if c < 0x80 then [c]
    else if c < 0x800 then [0xC0 + c / 0x40, 0x80 + c % 0x40]
    else if c < 0x10000 then [0xE0 + c / 0x1000, 0x80 + c / 0x40 % 0x40, 0x80 + c % 0x40]
    else [0xF0 + c / 0x40000, 0x80 + c / 0x1000 % 0x40, 0x80 + c / 0x40 % 0x40, 0x80 + c % 0x40]
  }

  lemma EncodingIsRune(c: int)
    requires IsScalar(c)
    ensures RuneLen(Encode(c)) == |Encode(c)|
  {
  }

  /** The code point of a rune. */
  function Decoded(s: seq<byte>): int
    requires RuneLen(s) > 0
  {
    var n := RuneLen(s);
    if n == 1 then s[0]
    else if n == 2 then Digit(s[0], 0xC0) * 0x40 + Digit(s[1], 0x80)
    else if n == 3 then Digit(s[0], 0xE0) * 0x1000 + Digit(s[1], 0x80) * 0x40 + Digit(s[2], 0x80)
    else Digit(s[0], 0xF0) * 0x40000 + Digit(s[1], 0x80) * 0x1000 + Digit(s[2], 0x80) * 0x40 + Digit(s[3], 0x80)
  }

  /** What a byte adds to the mark of its class. */
  function Digit(b: byte, mark: int): int {
    b - mark
  }

  lemma DecodedIsScalar(s: seq<byte>)
    requires RuneLen(s) > 0
    ensures IsScalar(Decoded(s))
    ensures Encode(Decoded(s)) == s[..RuneLen(s)]
  {
    var n := RuneLen(s);
    if n == 1 {
      assert s[..1] == [s[0]];
    } else if n == 2 {
      assert s[..2] == [s[0], s[1]];
    } else if n == 3 {
      assert s[..3] == [s[0], s[1], s[2]];
      EncodesThree(s[0], s[1], s[2]);
    } else {
      assert s[..4] == [s[0], s[1], s[2], s[3]];
      EncodesFour(s[0], s[1], s[2], s[3]);
    }
  }

  lemma EncodesThree(a: byte, b: byte, c: byte)
    requires 0xE0 <= a <= 0xEF && IsSecond(a, b) && IsContinuation(c)
    ensures var n := Digit(a, 0xE0) * 0x1000 + Digit(b, 0x80) * 0x40 + Digit(c, 0x80);
            IsScalar(n) && Encode(n) == [a, b, c]
  {
    ThreeDigits(a - 0xE0, b - 0x80, c - 0x80);
  }

  lemma EncodesFour(a: byte, b: byte, c: byte, d: byte)
    requires 0xF0 <= a <= 0xF4 && IsSecond(a, b) && IsContinuation(c) && IsContinuation(d)
    ensures var n := Digit(a, 0xF0) * 0x40000 + Digit(b, 0x80) * 0x1000 + Digit(c, 0x80) * 0x40 + Digit(d, 0x80);
            IsScalar(n) && Encode(n) == [a, b, c, d]
  {
    FourDigits(a - 0xF0, b - 0x80, c - 0x80, d - 0x80);
  }

  lemma ThreeDigits(a: int, b: int, c: int)
    requires 0 <= b < 0x40 && 0 <= c < 0x40
    ensures var n := a * 0x1000 + b * 0x40 + c; n / 0x1000 == a && n / 0x40 % 0x40 == b && n % 0x40 == c
  {
    var n := a * 0x1000 + b * 0x40 + c;
    assert n / 0x40 == a * 0x40 + b;
  }

  lemma FourDigits(a: int, b: int, c: int, d: int)
    requires 0 <= b < 0x40 && 0 <= c < 0x40 && 0 <= d < 0x40
    ensures var n := a * 0x40000 + b * 0x1000 + c * 0x40 + d;
            n / 0x40000 == a && n / 0x1000 % 0x40 == b && n / 0x40 % 0x40 == c && n % 0x40 == d
  {
    var n := a * 0x40000 + b * 0x1000 + c * 0x40 + d;
    assert n / 0x40 == a * 0x1000 + b * 0x40 + c && n / 0x1000 == a * 0x40 + b;
  }

  /** A string starts with a rune exactly if it starts with the encoding of a scalar value, and the rune is that
      encoding. */
  lemma RunesAreEncodings(s: seq<byte>)
    ensures RuneLen(s) > 0 <==> exists c :: IsScalar(c) && Encode(c) <= s
    ensures forall c :: IsScalar(c) && Encode(c) <= s ==> RuneLen(s) == |Encode(c)|
  {
    if RuneLen(s) > 0 { DecodedIsScalar(s); }
    forall c | IsScalar(c) && Encode(c) <= s ensures RuneLen(s) == |Encode(c)| {
      EncodingIsRune(c);
      RunePrefix(Encode(c), s);
    }
  }

  // ---- Cutting ---------------------------------------------------------------------------------------

  function LastIndex(s: seq<byte>, b: byte): (i: int)
    ensures -1 <= i < |s| && (i >= 0 ==> s[i] == b) && forall j :: i < j < |s| ==> s[j] != b
  {
    if s == [] then -1
    else if s[|s| - 1] == b then |s| - 1
    else LastIndex(s[..|s| - 1], b)
  }

  /** Where truncateUTF8PreserveWords cuts: at the last boundary, at the limit if there is none, and from
      there back to a space that is fewer than 512 bytes away. */
  function RuneCut(s: seq<byte>, maxBytes: nat): nat
    requires maxBytes < |s|
  {
    var b := LastBoundary(s, maxBytes);
    if b == 0 then maxBytes else b
  }

  /** The last space fewer than 512 bytes before the cut, unless that is the first byte; else the cut itself. */
  function WordCut(s: seq<byte>, cut: nat): (c: nat)
    requires cut <= |s|
    ensures c <= cut && c + 511 >= cut && (cut > 0 ==> c > 0) && (c < cut ==> s[c] == ' ' as int)
    ensures forall j :: (if c < cut then c else 0) < j < cut && cut - j < 512 ==> s[j] != ' ' as int
  {
    var space := LastIndex(s[..cut], ' ' as int);
    if space > 0 && cut - space < 512 then space else cut
  }

  /** The longest valid prefix within `k` bytes, by validating prefixes. */
  function LastValid(s: seq<byte>, k: nat): (c: nat)
    requires k <= |s|
    ensures c <= k
  {
    if k == 0 || Valid(s[..k]) then k else LastValid(s, k - 1)
  }

  /** What truncateUTF8PreserveWords leaves of any string, valid or not. */
  function Truncated(s: seq<byte>, maxBytes: nat): (r: seq<byte>)
    ensures r <= s && |r| <= maxBytes
  {
    if |s| <= maxBytes then s
    else
      var c := LastValid(s, maxBytes);
      s[..WordCut(s, if c == 0 then maxBytes else c)]
  }

  method TruncateUTF8PreserveWords(s: seq<byte>, maxBytes: nat) returns (r: seq<byte>, truncated: bool)
    ensures r == Truncated(s, maxBytes) && (truncated <==> |s| > maxBytes)
  {
    if |s| <= maxBytes { return s, false; }
    var cut := maxBytes;
    while cut > 0 && !Valid(s[..cut])
      invariant 0 <= cut <= maxBytes
      invariant LastValid(s, maxBytes) == LastValid(s, cut)
    {
      cut := cut - 1;
    }
    if cut <= 0 { cut := maxBytes; }
    var lastSpace := LastIndex(s[..cut], ' ' as int);
    if lastSpace > 0 && cut - lastSpace < 512 { cut := lastSpace; }
    return s[..cut], true;
  }

  lemma {:induction false} LastValidIsLast(s: seq<byte>, k: nat)
    requires k <= |s|
    ensures var c := LastValid(s, k); (c > 0 ==> Valid(s[..c])) && forall j :: c < j <= k ==> !Valid(s[..j])
  {
    if k > 0 && !Valid(s[..k]) { LastValidIsLast(s, k - 1); }
  }

  /** On valid text the cut is where the byte classes say; on text that starts inside a rune it is the limit. */
  lemma TruncatedAt(s: seq<byte>, maxBytes: nat)
    requires maxBytes < |s|
    ensures Valid(s) ==> Truncated(s, maxBytes) == s[..WordCut(s, RuneCut(s, maxBytes))]
    ensures RuneLen(s) == 0 ==> Truncated(s, maxBytes) == s[..WordCut(s, maxBytes)]
  {
    var c := LastValid(s, maxBytes);
    LastValidIsLast(s, maxBytes);
    if Valid(s) { ValidCutIsLast(s, maxBytes, c); }
    if RuneLen(s) == 0 && c > 0 { NoValidPrefix(s, c); }
  }

  /** Something is always left. */
  lemma TruncatedLeaves(s: seq<byte>, maxBytes: nat)
    requires s != [] && maxBytes > 0
    ensures Truncated(s, maxBytes) != []
  {
  }

  /** The prefix-validating loop stops where the byte classes say. */
  lemma {:induction false} ValidCutIsLast(s: seq<byte>, k: nat, cut: nat)
    requires Valid(s) && cut <= k <= |s|
    requires cut > 0 ==> Valid(s[..cut])
    requires forall j :: cut < j <= k ==> !Valid(s[..j])
    ensures cut == LastBoundary(s, k)
  {
    var b := LastBoundary(s, k);
    CutIsValidIffBoundary(s, cut);
    CutIsValidIffBoundary(s, b);
    assert Valid(s[..b]);
    assert cut == 0 || IsBoundary(s, cut);
  }

  /** On valid text the cut is clean if and only if the limit has room for the first rune; the loss against
      the limit is then at most 3 bytes to the boundary and 511 to the space, and what follows is valid. */
  lemma TruncationIsClean(s: seq<byte>, maxBytes: nat)
    requires Valid(s) && 0 < maxBytes < |s|
    ensures var r := Truncated(s, maxBytes);
            && (Valid(r) <==> RuneLen(s) <= maxBytes)
            && (Valid(r) ==> Valid(s[|r|..]) && |r| + 3 + 511 >= maxBytes)
            && (maxBytes >= 4 ==> Valid(r))
  {
    TruncatedAt(s, maxBytes);
    var b := LastBoundary(s, maxBytes);
    FirstBoundary(s, maxBytes);
    var cut := RuneCut(s, maxBytes);
    var c := WordCut(s, cut);
    BoundaryIsNear(s, maxBytes);
    CutIsValidIffBoundary(s, c);
    if b > 0 && c < cut { assert IsBoundary(s, c); }
    if b == 0 { SpaceIsBoundary(s, maxBytes); }
  }

  /** There is a boundary to cut at exactly if the first rune fits. */
  lemma FirstBoundary(s: seq<byte>, k: nat)
    requires Valid(s) && 0 < k < |s|
    ensures LastBoundary(s, k) > 0 <==> RuneLen(s) <= k
  {
    var n := RuneLen(s);
    CutIsValidIffBoundary(s, n);
    assert s[..n][..n] == s[..n];
    RunePrefix(s, s[..n]);
    assert s[..n][n..] == [];
    assert IsBoundary(s, n);
    forall j | 0 < j < n ensures !IsBoundary(s, j) {
      assert IsContinuation(s[j]);
    }
  }

  /** In a string cut inside its first rune there is no space to go back to. */
  lemma SpaceIsBoundary(s: seq<byte>, k: nat)
    requires Valid(s) && 0 < k < |s| && LastBoundary(s, k) == 0
    ensures WordCut(s, k) == k
  {
    var c := WordCut(s, k);
    forall j | 0 < j < k ensures s[j] != ' ' as int {
      assert !IsBoundary(s, j);
    }
  }
}
