/** Splitting a long message body over several Matrix events. */
module Chunking {
  import opened Wrappers
  import opened Utf8

  const MAX_MATRIX_CONTENT_SIZE: nat := 48 * 1024
  const PER_EVENT_TARGET: nat := 16 * 1024
  const MAX_CHUNKS: nat := 50

  predicate IsSpace(b: byte) {
    b == ' ' as int || b == '\n' as int || b == '\t' as int || b == '\r' as int
  }

  predicate AllSpace(s: seq<byte>) {
    forall b :: b in s ==> IsSpace(b)
  }

  function TrimLeft(s: seq<byte>): (r: seq<byte>)
    ensures |r| <= |s|
  {
    if s == [] || !IsSpace(s[0]) then s else TrimLeft(s[1..])
  }

  /** Trimming drops whitespace from the front, all of it, and nothing else. */
  lemma {:induction false} TrimLeftSplits(s: seq<byte>)
    ensures var r := TrimLeft(s);
            && s == s[..|s| - |r|] + r && AllSpace(s[..|s| - |r|])
            && (r != [] ==> !IsSpace(r[0]))
            && (Valid(s) ==> Valid(r))
  {
    if s != [] && IsSpace(s[0]) {
      TrimLeftSplits(s[1..]);
      var r := TrimLeft(s);
      assert s[..|s| - |r|] == [s[0]] + s[1..][..|s[1..]| - |r|];
    }
  }

  /** The pieces with the gaps that follow them. */
  function Woven(pieces: seq<seq<byte>>, gaps: seq<seq<byte>>): seq<byte>
    requires |pieces| == |gaps|
  {
    if pieces == [] then []
    else Woven(pieces[..|pieces| - 1], gaps[..|gaps| - 1]) + pieces[|pieces| - 1] + gaps[|gaps| - 1]
  }

  lemma WovenNext(pieces: seq<seq<byte>>, gaps: seq<seq<byte>>, piece: seq<byte>, gap: seq<byte>)
    requires |pieces| == |gaps|
    ensures Woven(pieces + [piece], gaps + [gap]) == Woven(pieces, gaps) + piece + gap
  {
    assert (pieces + [piece])[..|pieces|] == pieces && (gaps + [gap])[..|gaps|] == gaps;
  }

  // ---- Serialized size -------------------------------------------------------------------------------

  /** `size` gives the serialized size of a text event with this body. JSON escapes a byte into at most six. */
  ghost predicate EscapesBy(size: seq<byte> -> nat, overhead: nat) {
    forall s :: size(s) <= overhead + 6 * |s|
  }

  // With at most this much around the body, a body of 8000 bytes fits whatever it holds.
  const MAX_OVERHEAD: nat := MAX_MATRIX_CONTENT_SIZE - 6 * 8000

  predicate Fits(size: seq<byte> -> nat, s: seq<byte>) {
    size(s) <= MAX_MATRIX_CONTENT_SIZE
  }

  /** The next length the shrinking loop tries: a tenth less, at least 256 bytes less. */
  function Reduced(n: nat): (r: nat)
    requires n > 0
    ensures r < n && (n <= 256 ==> r == n - 1)
    ensures n > 256 ==> n - r >= 256 && 10 * (n - r) + 10 > n && (n - r == 256 || 10 * (n - r) <= n)
  {
    var less := n - (if n / 10 < 256 then 256 else n / 10);
    if less <= 0 then n - 1 else less
  }

  /** What shrinking leaves of a piece. */
  function Shrunk(size: seq<byte> -> nat, s: seq<byte>): (r: seq<byte>)
    ensures r <= s && (Fits(size, r) || r == [])
    decreases |s|
  {
    if Fits(size, s) || s == [] then s else Shrunk(size, s[..Reduced(|s|)])
  }

  /** A piece is shrunk only if it does not fit, and then by little more than it must: a prefix that is longer by
      256 bytes, or by a tenth of itself, does not fit either. */
  lemma {:induction false} ShrunkLosesLittle(size: seq<byte> -> nat, s: seq<byte>)
    ensures var r := Shrunk(size, s);
            if Fits(size, s) then r == s
            else s == [] || exists n :: |r| < n <= |s| && !Fits(size, s[..n])
                                        && (n - |r| <= 256 || 10 * (n - |r|) <= n)
    decreases |s|
  {
    if !Fits(size, s) && s != [] {
      var t := s[..Reduced(|s|)];
      ShrunkLosesLittle(size, t);
      if Fits(size, t) || t == [] {
        assert s[..|s|] == s;
      } else {
        var n :| |Shrunk(size, t)| < n <= |t| && !Fits(size, t[..n])
                 && (n - |Shrunk(size, t)| <= 256 || 10 * (n - |Shrunk(size, t)|) <= n);
        assert t[..n] == s[..n];
      }
    }
  }

  /** The shrinking loop of the chunker. */
  method Shrink(size: seq<byte> -> nat, s: seq<byte>) returns (r: seq<byte>)
    ensures r == Shrunk(size, s)
  {
    r := s;
    while !Fits(size, r) && |r| > 0
      invariant Shrunk(size, r) == Shrunk(size, s)
      decreases |r|
    {
      var reduceBy := |r| / 10;
      if reduceBy < 256 { reduceBy := 256; }
      var newLen := |r| - reduceBy;
      if newLen <= 0 { newLen := |r| - 1; }
      r := r[..newLen];
    }
  }

  /** With bounded escaping shrinking ends early. */
  lemma {:induction false} ShrunkIsLong(size: seq<byte> -> nat, s: seq<byte>)
    requires EscapesBy(size, MAX_OVERHEAD) && s != []
    ensures Shrunk(size, s) != [] && Fits(size, Shrunk(size, s)) && (Shrunk(size, s) == s || |Shrunk(size, s)| >= 7200)
    decreases |s|
  {
    if !Fits(size, s) {
      assert size(s) <= MAX_OVERHEAD + 6 * |s|;
      ShrunkIsLong(size, s[..Reduced(|s|)]);
    }
  }

  // ---- The chunker -----------------------------------------------------------------------------------

  datatype Delivery = Delivery(chunks: seq<seq<byte>>, omitted: Option<nat>)

  /** What the chunker may count on if events are as small as JSON makes them. */
  ghost predicate Roomy(size: seq<byte> -> nat) {
    EscapesBy(size, MAX_OVERHEAD)
  }

  /** What is cut off the front of a text before its size is looked at. */
  function Piece(remaining: seq<byte>): seq<byte> {
    Truncated(remaining, PER_EVENT_TARGET)
  }

  function Chunk(size: seq<byte> -> nat, remaining: seq<byte>): (c: seq<byte>)
    ensures c <= remaining && |c| <= PER_EVENT_TARGET && (Fits(size, c) || c == [])
  {
    Shrunk(size, Piece(remaining))
  }

  function After(size: seq<byte> -> nat, remaining: seq<byte>): seq<byte> {
    TrimLeft(remaining[|Chunk(size, remaining)|..])
  }

  /** The first `n` chunks of a text, and what remains after them. */
  function Chunks(size: seq<byte> -> nat, remaining: seq<byte>, n: nat): seq<seq<byte>>
    decreases n
  {
    if remaining == [] || n == 0 then [] else [Chunk(size, remaining)] + Chunks(size, After(size, remaining), n - 1)
  }

  function Remaining(size: seq<byte> -> nat, remaining: seq<byte>, n: nat): seq<byte>
    decreases n
  {
    if remaining == [] || n == 0 then remaining else Remaining(size, After(size, remaining), n - 1)
  }

  /** One chunk off the front of what remains. The cut is never empty, so the source's fallback for an
      empty one does not apply. */
  method CutChunk(remaining: seq<byte>, size: seq<byte> -> nat) returns (chunk: seq<byte>)
    requires remaining != []
    ensures chunk == Chunk(size, remaining)
    ensures Roomy(size) ==> chunk != []
    ensures Roomy(size) && (Valid(remaining) || RuneLen(remaining) == 0) ==> chunk == remaining || |chunk| >= 7200
  {
    var cut, truncated := TruncateUTF8PreserveWords(remaining, PER_EVENT_TARGET);
    TruncatedLeaves(remaining, PER_EVENT_TARGET);
    if truncated {
      TruncatedAt(remaining, PER_EVENT_TARGET);
      if Valid(remaining) { TruncationIsClean(remaining, PER_EVENT_TARGET); }
    }
    assert Valid(remaining) || RuneLen(remaining) == 0 ==> cut == remaining || |cut| >= 7200;
    if Roomy(size) { ShrunkIsLong(size, cut); }
    chunk := Shrink(size, cut);
  }

  /** One turn of the loop: cut a chunk, and trim the whitespace in front of the next one. */
  method Advance(remaining: seq<byte>, size: seq<byte> -> nat)
    returns (chunk: seq<byte>, ghost gap: seq<byte>, next: seq<byte>)
    requires remaining != []
    ensures chunk == Chunk(size, remaining) && next == After(size, remaining)
    ensures remaining == chunk + gap + next && AllSpace(gap)
    ensures Roomy(size) ==> chunk != []
    ensures Roomy(size) && (Valid(remaining) || RuneLen(remaining) == 0) ==> next == [] || |chunk| >= 7200
  {
    chunk := CutChunk(remaining, size);
    if |chunk| >= |remaining| {
      assert chunk == remaining && remaining[|chunk|..] == [];
      return chunk, [], [];
    }
    gap, next := SkipSpace(remaining[|chunk|..]);
    assert remaining == chunk + remaining[|chunk|..];
    assert chunk + (gap + next) == chunk + gap + next;
  }

  method SkipSpace(s: seq<byte>) returns (ghost gap: seq<byte>, next: seq<byte>)
    ensures s == gap + next && AllSpace(gap) && next == TrimLeft(s)
  {
    next := TrimLeft(s);
    gap := s[..|s| - |next|];
    TrimLeftSplits(s);
  }

  /** Each chunk is within the target and fits, unless shrinking had to give up on it. */
  predicate AreChunks(chunks: seq<seq<byte>>, size: seq<byte> -> nat) {
    forall c :: c in chunks ==> |c| <= PER_EVENT_TARGET && (Fits(size, c) || c == [])
  }

  /** The body is the chunks, whitespace after each of them, and what remains. */
  ghost predicate Splits(body: seq<byte>, chunks: seq<seq<byte>>, gaps: seq<seq<byte>>, rest: seq<byte>) {
    |gaps| == |chunks| && body == Woven(chunks, gaps) + rest && forall g :: g in gaps ==> AllSpace(g)
  }

  lemma SplitsNext(body: seq<byte>, chunks: seq<seq<byte>>, gaps: seq<seq<byte>>, rest: seq<byte>,
                   chunk: seq<byte>, gap: seq<byte>, next: seq<byte>)
    requires Splits(body, chunks, gaps, rest) && rest == chunk + gap + next && AllSpace(gap)
    ensures Splits(body, chunks + [chunk], gaps + [gap], next)
  {
    WovenNext(chunks, gaps, chunk, gap);
    assert Woven(chunks, gaps) + (chunk + gap + next) == Woven(chunks, gaps) + chunk + gap + next;
  }

  /** Splits a body into at most 50 chunks. The ghost results are what the whitespace trimming between
      chunks drops, and what remains. */
  method SplitBody(body: seq<byte>, size: seq<byte> -> nat)
    returns (d: Delivery, ghost gaps: seq<seq<byte>>, ghost rest: seq<byte>)
    ensures d.chunks == Chunks(size, body, MAX_CHUNKS) && rest == Remaining(size, body, MAX_CHUNKS)
    ensures Splits(body, d.chunks, gaps, rest) && AreChunks(d.chunks, size)
    ensures d.omitted == if rest == [] then None else Some(|rest|)
    ensures |d.chunks| <= MAX_CHUNKS && (rest != [] ==> |d.chunks| == MAX_CHUNKS)
    ensures Roomy(size) ==> [] !in d.chunks
    ensures Roomy(size) && Valid(body) && |body| <= MAX_CHUNKS * 7200 ==> d.omitted == None
  {
    var remaining := body;
    var chunks: seq<seq<byte>> := [];
    gaps := [];
    var chunkIndex := 1;
    while |remaining| > 0 && chunkIndex <= MAX_CHUNKS
      invariant chunkIndex == |chunks| + 1 <= MAX_CHUNKS + 1
      invariant Chunks(size, body, MAX_CHUNKS) == chunks + Chunks(size, remaining, MAX_CHUNKS + 1 - chunkIndex)
      invariant Remaining(size, body, MAX_CHUNKS) == Remaining(size, remaining, MAX_CHUNKS + 1 - chunkIndex)
      invariant Splits(body, chunks, gaps, remaining) && AreChunks(chunks, size)
      invariant Roomy(size) ==> [] !in chunks
      invariant Roomy(size) && Valid(body) ==> remaining == [] || |body| - |remaining| >= 7200 * |chunks|
    {
      if Valid(body) { SuffixIsSound(body, Woven(chunks, gaps), remaining); }
      ghost var left := MAX_CHUNKS + 1 - chunkIndex;
      NextChunk(chunks, size, remaining, left);
      var chunk, gap, next := Advance(remaining, size);
      SplitsNext(body, chunks, gaps, remaining, chunk, gap, next);
      chunks, gaps, remaining := chunks + [chunk], gaps + [gap], next;
      chunkIndex := chunkIndex + 1;
    }
    rest := remaining;
    assert chunks + [] == chunks;
    d := Delivery(chunks, if |remaining| > 0 && chunkIndex > MAX_CHUNKS then Some(|remaining|) else None);
  }

  lemma NextChunk(done: seq<seq<byte>>, size: seq<byte> -> nat, remaining: seq<byte>, n: nat)
    requires remaining != [] && n > 0
    ensures done + Chunks(size, remaining, n)
         == done + [Chunk(size, remaining)] + Chunks(size, After(size, remaining), n - 1)
  {
  }

  /** Delivers a body as one event if it is small and `whole` says that the event with it fits, else in
      chunks. */
  method DeliverBody(body: seq<byte>, whole: bool, size: seq<byte> -> nat)
    returns (d: Delivery, ghost gaps: seq<seq<byte>>, ghost rest: seq<byte>)
    ensures d.chunks == if whole && |body| <= PER_EVENT_TARGET then [body] else Chunks(size, body, MAX_CHUNKS)
    ensures Splits(body, d.chunks, gaps, rest)
    ensures d.omitted == if rest == [] then None else Some(|rest|)
    ensures |d.chunks| <= MAX_CHUNKS && forall c :: c in d.chunks ==> |c| <= PER_EVENT_TARGET
    ensures !(whole && |body| <= PER_EVENT_TARGET) ==> AreChunks(d.chunks, size) && (Roomy(size) ==> [] !in d.chunks)
    ensures Roomy(size) && Valid(body) && |body| <= MAX_CHUNKS * 7200 ==> d.omitted == None
  {
    if whole && |body| <= PER_EVENT_TARGET {
      assert Woven([body], [[]]) == body;
      return Delivery([body], None), [[]], [];
    }
    d, gaps, rest := SplitBody(body, size);
  }

  lemma SuffixIsSound(body: seq<byte>, done: seq<byte>, remaining: seq<byte>)
    requires Valid(body) && body == done + remaining && remaining != []
    ensures Valid(remaining) || RuneLen(remaining) == 0
  {
    assert remaining == body[|done|..];
    SuffixOfValid(body, |done|);
  }

  // ---- Whole runes -----------------------------------------------------------------------------------

  /** A piece that fits is cut between runes. */
  lemma PieceIsClean(remaining: seq<byte>)
    requires Valid(remaining) && remaining != []
    ensures Valid(Piece(remaining))
  {
    if |remaining| > PER_EVENT_TARGET { TruncationIsClean(remaining, PER_EVENT_TARGET); }
  }

  /** The piece fits as it is, or is shrunk to a length that happens to end between runes. */
  predicate CleanCut(size: seq<byte> -> nat, remaining: seq<byte>) {
    Fits(size, Piece(remaining)) || IsBoundary(remaining, |Shrunk(size, Piece(remaining))|)
  }

  /** A chunk of valid text is valid exactly if its cut is clean. */
  lemma ChunkIsValidIff(size: seq<byte> -> nat, remaining: seq<byte>)
    requires Valid(remaining) && remaining != []
    ensures Valid(Chunk(size, remaining)) <==> CleanCut(size, remaining)
    ensures Valid(Chunk(size, remaining)) ==> Valid(After(size, remaining))
  {
    var n := |Chunk(size, remaining)|;
    assert Chunk(size, remaining) == remaining[..n];
    CutLeavesValid(remaining, n);
    if Fits(size, Piece(remaining)) { PieceIsClean(remaining); }
  }

  lemma CutLeavesValid(s: seq<byte>, n: nat)
    requires Valid(s) && n <= |s|
    ensures Valid(s[..n]) <==> IsBoundary(s, n)
    ensures Valid(s[..n]) ==> Valid(TrimLeft(s[n..]))
  {
    CutIsValidIffBoundary(s, n);
    if Valid(s[..n]) { TrimLeftSplits(s[n..]); }
  }

  /** The first `n` cuts are clean. */
  predicate CleanCuts(size: seq<byte> -> nat, remaining: seq<byte>, n: nat)
    decreases n
  {
    remaining == [] || n == 0
    || (CleanCut(size, remaining) && CleanCuts(size, After(size, remaining), n - 1))
  }

  /** All chunks of a valid body are valid UTF-8 exactly if all cuts are clean. */
  lemma {:induction false} ChunksAreValidIff(size: seq<byte> -> nat, body: seq<byte>, n: nat)
    requires Valid(body)
    ensures AllValid(Chunks(size, body, n)) <==> CleanCuts(size, body, n)
    decreases n
  {
    if body != [] && n > 0 {
      ChunkIsValidIff(size, body);
      FirstAndRest(Chunk(size, body), Chunks(size, After(size, body), n - 1));
      if CleanCut(size, body) { ChunksAreValidIff(size, After(size, body), n - 1); }
    }
  }

  predicate AllValid(chunks: seq<seq<byte>>) {
    forall c :: c in chunks ==> Valid(c)
  }

  lemma FirstAndRest(first: seq<byte>, rest: seq<seq<byte>>)
    ensures AllValid([first] + rest) <==> Valid(first) && AllValid(rest)
  {
    assert first in [first] + rest;
    assert forall c :: c in rest ==> c in [first] + rest;
  }

  // ---- What a reader gets ------------------------------------------------------------------------------

  function Visible(s: seq<byte>): seq<byte> {
    if s == [] then [] else (if IsSpace(s[0]) then [] else [s[0]]) + Visible(s[1..])
  }

  lemma {:induction false} VisibleConcat(a: seq<byte>, b: seq<byte>)
    ensures Visible(a + b) == Visible(a) + Visible(b)
    decreases |a|
  {
    if a == [] {
      assert a + b == b;
    } else {
      assert (a + b)[1..] == a[1..] + b;
      VisibleConcat(a[1..], b);
    }
  }

  lemma {:induction false} SpaceIsInvisible(s: seq<byte>)
    requires AllSpace(s)
    ensures Visible(s) == []
  {
    if s != [] { SpaceIsInvisible(s[1..]); }
  }

  function Joined(pieces: seq<seq<byte>>): seq<byte> {
    if pieces == [] then [] else Joined(pieces[..|pieces| - 1]) + pieces[|pieces| - 1]
  }

  lemma VisiblePiece(front: seq<byte>, piece: seq<byte>, gap: seq<byte>)
    requires AllSpace(gap)
    ensures Visible(front + piece + gap) == Visible(front) + Visible(piece)
  {
    VisibleConcat(front + piece, gap);
    VisibleConcat(front, piece);
    SpaceIsInvisible(gap);
  }

  lemma {:induction false} VisibleWoven(chunks: seq<seq<byte>>, gaps: seq<seq<byte>>)
    requires |gaps| == |chunks| && forall g :: g in gaps ==> AllSpace(g)
    ensures Visible(Woven(chunks, gaps)) == Visible(Joined(chunks))
    decreases |chunks|
  {
    if chunks != [] {
      var n := |chunks| - 1;
      VisibleWoven(chunks[..n], gaps[..n]);
      VisiblePiece(Woven(chunks[..n], gaps[..n]), chunks[n], gaps[n]);
      VisibleConcat(Joined(chunks[..n]), chunks[n]);
    }
  }

  /** Whatever the events leave out between them is whitespace: the visible bytes of the body are those of
      the chunks, in order, followed by those of the part that is reported as omitted. */
  lemma NothingVisibleIsLost(body: seq<byte>, chunks: seq<seq<byte>>, gaps: seq<seq<byte>>, rest: seq<byte>)
    requires Splits(body, chunks, gaps, rest)
    ensures Visible(body) == Visible(Joined(chunks)) + Visible(rest)
  {
    VisibleConcat(Woven(chunks, gaps), rest);
    VisibleWoven(chunks, gaps);
  }
}
