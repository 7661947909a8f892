/** The subject of a reply: any chain of reply prefixes collapses to one. */
module Subject {
  import opened Text

  /** Where the first "]:" is, or the length. */
  predicate ClosesAt(s: string, i: nat) {
    i + 2 <= |s| && s[i] == ']' && s[i + 1] == ':'
  }

  function Closings(s: string): nat -> bool {
    (i: nat) => ClosesAt(s, i)
  }

  function FirstClosing(s: string): (i: nat)
    ensures i <= |s|
  {
    First(|s|, Closings(s), 0)
  }

  lemma FirstClosingCloses(s: string)
    ensures FirstClosing(s) < |s| ==> ClosesAt(s, FirstClosing(s))
  {
    FirstIsFirst(|s|, Closings(s), 0);
  }

  predicate StartsWithRe(s: string) {
    |s| >= 3 && Lower(s[0]) == 'r' && Lower(s[1]) == 'e' && s[2] == ':'
  }

  predicate StartsWithCountedRe(s: string) {
    && |s| >= 3 && Lower(s[0]) == 'r' && Lower(s[1]) == 'e' && s[2] == '['
    && FirstClosing(s) < |s|
  }

  /** What follows the reply prefix of `s`; the whole of `s` without one. */
  function AfterPrefix(s: string): (r: string)
    ensures StartsWithRe(s) || StartsWithCountedRe(s) ==> |r| < |s|
  {
    if StartsWithRe(s) then TrimShorter(s[3..]); TrimSpace(s[3..])
    else if StartsWithCountedRe(s) then
      FirstClosingCloses(s); TrimShorter(s[FirstClosing(s) + 2..]);
      TrimSpace(s[FirstClosing(s) + 2..])
    else s
  }

  lemma TrimShorter(s: string)
    ensures |TrimSpace(s)| <= |s|
  {
  }

  /** A subject without its reply prefixes. */
  function Stem(s: string): string
    decreases |s|
  {
    if StartsWithRe(s) || StartsWithCountedRe(s) then Stem(AfterPrefix(s)) else s
  }

  function Normalized(subject: string): string {
    "Re: " + Stem(TrimSpace(subject))
  }

  method NormalizeReplySubject(subject: string) returns (r: string)
    ensures r == Normalized(subject)
  {
    var s := TrimSpace(subject);
    while true
      invariant Stem(s) == Stem(TrimSpace(subject))
      decreases |s|
    {
      var lower := ToLower(s);
      LowerKeepsRest(s);
      if "re:" <= lower {
        assert lower[0] == 'r' && lower[1] == 'e' && lower[2] == ':';
        TrimShorter(s[3..]);
        s := TrimSpace(s[3..]);
      } else if "re[" <= lower {
        assert lower[0] == 'r' && lower[1] == 'e' && lower[2] == '[';
        var idx := FirstClosing(lower);
        FirstClosingCloses(s);
        if 0 < idx < |lower| {
          TrimShorter(s[idx + 2..]);
          s := TrimSpace(s[idx + 2..]);
        } else {
          return "Re: " + s;
        }
      } else {
        PrefixLowers(s);
        return "Re: " + s;
      }
    }
  }

  /** Lowercasing moves no bracket and no colon. */
  lemma LowerKeepsRest(s: string)
    ensures FirstClosing(ToLower(s)) == FirstClosing(s)
    ensures |s| > 2 ==> ToLower(s)[2] in {':', '['} ==> s[2] == ToLower(s)[2]
  {
    var lower := ToLower(s);
    FirstIsFirst(|s|, Closings(s), 0);
    var k := FirstClosing(s);
    assert forall i :: 0 <= i < |s| ==> (Closings(lower)(i) <==> Closings(s)(i));
    FirstIs(|s|, Closings(lower), 0, k);
  }

  lemma PrefixLowers(s: string)
    ensures StartsWithRe(s) ==> "re:" <= ToLower(s)
    ensures StartsWithCountedRe(s) ==> "re[" <= ToLower(s)
  {
    if |s| >= 3 { assert ToLower(s)[..3] == [Lower(s[0]), Lower(s[1]), Lower(s[2])]; }
  }

  // ---- Properties ------------------------------------------------------------------------------------

  predicate IsTrimmed(s: string) {
    s != "" ==> !IsSpace(s[0]) && !IsSpace(s[|s| - 1])
  }

  lemma TrimSpaceTrims(s: string)
    ensures IsTrimmed(TrimSpace(s))
  {
    var r := TrimRight(s, IsSpace);
    var t := TrimSpace(s);
    TrimRightDrops(s, IsSpace);
    TrimLeftDrops(r, IsSpace);
    if t != "" { assert t[|t| - 1] == r[|r| - 1]; }
  }

  /** No reply prefix is left, and no space around. */
  lemma {:induction false} StemIsBare(s: string)
    requires IsTrimmed(s)
    ensures var t := Stem(s); !StartsWithRe(t) && !StartsWithCountedRe(t) && IsTrimmed(t)
    decreases |s|
  {
    if StartsWithRe(s) || StartsWithCountedRe(s) {
      TrimSpaceTrims(s[3..]);
      if !StartsWithRe(s) {
        FirstClosingCloses(s);
        TrimSpaceTrims(s[FirstClosing(s) + 2..]);
      }
      StemIsBare(AfterPrefix(s));
    }
  }

  /** Space in front makes no difference. */
  lemma SpaceBefore(s: string)
    ensures TrimSpace(" " + s) == TrimSpace(s)
  {
    var r := TrimRight(s, IsSpace);
    var t := TrimSpace(s);
    TrimRightDrops(s, IsSpace);
    TrimLeftDrops(r, IsSpace);
    if r == "" {
      TrimRightIs(" " + s, IsSpace, "");
    } else {
      TrimRightIs(" " + s, IsSpace, " " + r);
      TrimLeftIs(" " + r, IsSpace, t);
    }
  }

  predicate Spaces(s: string) {
    forall i :: 0 <= i < |s| ==> IsSpace(s[i])
  }

  /** In front of a trimmed subject a prefix is all there is to strip, with or without space after it. */
  lemma StemAfterRe(p: string, gap: string, s: string)
    requires |p| == 3 && StartsWithRe(p) && Spaces(gap) && IsTrimmed(s)
    ensures Stem(TrimSpace(p + gap + s)) == Stem(s)
  {
    var t := p + gap + s;
    if s == "" {
      TrimRightIs(t, IsSpace, p);
      TrimmedStays(p);
      assert TrimSpace(t) == p && p[3..] == "";
      assert TrimSpace("") == "";
    } else {
      assert t[0] == p[0] && t[|t| - 1] == s[|s| - 1];
      TrimmedStays(t);
      assert t[3..] == gap + s;
      TrimRightIs(gap + s, IsSpace, gap + s);
      TrimLeftIs(gap + s, IsSpace, s);
    }
  }

  /** Normalizing twice is normalizing once: "Re: Re:" never appears. */
  lemma NormalizingIsIdempotent(subject: string)
    ensures Normalized(Normalized(subject)) == Normalized(subject)
  {
    var s := TrimSpace(subject);
    TrimSpaceTrims(subject);
    StemIsBare(s);
    assert "Re: " + Stem(s) == "Re:" + " " + Stem(s);
    StemAfterRe("Re:", " ", Stem(s));
  }

  /** A reply to a subject and a reply to its reply, in any letter case, have the same subject. */
  lemma ReplyPrefixIsAbsorbed(p: string, gap: string, subject: string)
    requires |p| == 3 && StartsWithRe(p) && Spaces(gap)
    ensures Normalized(p + gap + TrimSpace(subject)) == Normalized(subject)
  {
    TrimSpaceTrims(subject);
    StemAfterRe(p, gap, TrimSpace(subject));
  }

  /** A subject survives as it is exactly if it does not start with "re", in any letter case, and a colon or a
      bracket that a "]:" closes. */
  lemma SubjectIsKeptIff(subject: string)
    ensures var s := TrimSpace(subject);
            Normalized(subject) == "Re: " + s
            <==> !(|s| >= 3 && s[0] in {'r', 'R'} && s[1] in {'e', 'E'}
                   && (s[2] == ':' || (s[2] == '[' && exists i: nat :: ClosesAt(s, i))))
  {
    var s := TrimSpace(subject);
    FirstIsFirst(|s|, Closings(s), 0);
    StemIsShorter(s);
    if i: nat :| ClosesAt(s, i) { assert Closings(s)(i); }
    assert |"Re: " + Stem(s)| == 4 + |Stem(s)|;
    assert ("Re: " + Stem(s))[4..] == Stem(s);
  }

  lemma {:induction false} StemIsShorter(s: string)
    ensures |Stem(s)| <= |s| && (Stem(s) == s <==> !StartsWithRe(s) && !StartsWithCountedRe(s))
    decreases |s|
  {
    if StartsWithRe(s) || StartsWithCountedRe(s) { StemIsShorter(AfterPrefix(s)); }
  }

  /** One reply prefix, with or without a count. */
  predicate IsReplyPrefix(s: string) {
    (StartsWithRe(s) && |s| == 3) || (StartsWithCountedRe(s) && |s| == FirstClosing(s) + 2)
  }

  /** A run of reply prefixes and spaces. */
  predicate IsReplyRun(s: string)
    decreases |s|
  {
    s == "" || (IsSpace(s[0]) && IsReplyRun(s[1..]))
    || exists k :: 0 < k <= |s| && IsReplyPrefix(s[..k]) && IsReplyRun(s[k..])
  }

  lemma {:induction false} SpacesBeforeRun(gap: string, run: string)
    requires Spaces(gap) && IsReplyRun(run)
    ensures IsReplyRun(gap + run)
  {
    if gap == "" {
      assert gap + run == run;
    } else {
      SpacesBeforeRun(gap[1..], run);
      assert (gap + run)[1..] == gap[1..] + run;
    }
  }

  lemma PrefixBeforeRun(p: string, run: string)
    requires IsReplyPrefix(p) && IsReplyRun(run)
    ensures IsReplyRun(p + run)
  {
    var k := |p|;
    assert (p + run)[..k] == p && (p + run)[k..] == run;
  }

  /** A trimmed subject with a prefix: the prefix, a gap, and the trimmed rest. */
  lemma PrefixInFront(s: string) returns (p: string, gap: string, rest: string)
    requires IsTrimmed(s) && (StartsWithRe(s) || StartsWithCountedRe(s))
    ensures s == p + (gap + rest) && IsReplyPrefix(p) && Spaces(gap)
    ensures IsTrimmed(rest) && |rest| < |s| && Stem(s) == Stem(rest)
  {
    var k := 3;
    if !StartsWithRe(s) {
      CountedPrefix(s);
      k := FirstClosing(s) + 2;
    }
    p, rest := s[..k], AfterPrefix(s);
    gap := TrimmedBehind(s, k);
  }

  /** Behind any cut of a trimmed subject, trimming takes off only the space in front. */
  lemma TrimmedBehind(s: string, k: nat) returns (gap: string)
    requires IsTrimmed(s) && k <= |s|
    ensures s[k..] == gap + TrimSpace(s[k..]) && IsTrimmed(TrimSpace(s[k..])) && Spaces(gap)
  {
    var behind := s[k..];
    if behind != "" { assert behind[|behind| - 1] == s[|s| - 1]; }
    TrimRightIs(behind, IsSpace, behind);
    TrimLeftDrops(behind, IsSpace);
    TrimSpaceTrims(behind);
    gap := behind[..|behind| - |TrimSpace(behind)|];
  }

  lemma CountedPrefix(s: string)
    requires StartsWithCountedRe(s)
    ensures FirstClosing(s) >= 2 && FirstClosing(s) + 2 <= |s| && IsReplyPrefix(s[..FirstClosing(s) + 2])
  {
    FirstIsFirst(|s|, Closings(s), 0);
    var n := FirstClosing(s) + 2;
    var p := s[..n];
    forall i | 0 <= i < n - 2 ensures !Closings(p)(i) {
      assert !Closings(s)(i);
    }
    FirstIs(|p|, Closings(p), 0, n - 2);
  }

  /** Nothing but reply prefixes and space is taken off the front of a subject, and nothing off its end. */
  lemma {:induction false} StemIsTheRest(s: string) returns (run: string)
    requires IsTrimmed(s)
    ensures IsReplyRun(run) && s == run + Stem(s)
    decreases |s|
  {
    if StartsWithRe(s) || StartsWithCountedRe(s) {
      var p, gap, rest := PrefixInFront(s);
      var more := StemIsTheRest(rest);
      SpacesBeforeRun(gap, more);
      PrefixBeforeRun(p, gap + more);
      Regroup(p, gap, more, Stem(rest));
      run := p + (gap + more);
    } else {
      run := "";
    }
  }

  lemma Regroup(a: string, b: string, c: string, d: string)
    ensures a + (b + (c + d)) == a + (b + c) + d
  {
  }

  /** After "Re[", everything up to the first "]:" is taken for the count and absorbed, whatever it says. */
  lemma UpToClosingIsAbsorbed(p: string, count: string, subject: string)
    requires |p| == 3 && StartsWithRe(p[..2] + ":") && p[2] == '['
    requires forall i :: 0 <= i < |count| ==> !ClosesAt(count + "]", i)
    requires TrimSpace(subject) != ""
    ensures Normalized(p + count + "]: " + TrimSpace(subject)) == Normalized(subject)
  {
    var s := TrimSpace(subject);
    var t := p + count + "]: " + s;
    TrimSpaceTrims(subject);
    var k := 3 + |count|;
    CountHasNoClosing(p, count, "]: " + s);
    assert p + count + ("]: " + s) == t;
    FirstIs(|t|, Closings(t), 0, k);
    assert t[0] == p[0] && t[|t| - 1] == s[|s| - 1];
    TrimmedStays(t);
    assert StartsWithCountedRe(t);
    assert t[k + 2..] == " " + s;
    SpaceBefore(s);
    TrimmedStays(s);
  }

  lemma CountHasNoClosing(p: string, count: string, rest: string)
    requires |p| == 3 && p[0] != ']' && p[1] != ']' && p[2] != ']'
    requires rest != "" && rest[0] == ']'
    requires forall i :: 0 <= i < |count| ==> !ClosesAt(count + "]", i)
    ensures forall i :: 0 <= i < 3 + |count| ==> !ClosesAt(p + count + rest, i)
  {
    var t := p + count + rest;
    forall i | 0 <= i < 3 + |count| ensures !ClosesAt(t, i) {
      if i >= 3 {
        assert t[i] == (count + "]")[i - 3] && t[i + 1] == (count + "]")[i - 2];
        assert !ClosesAt(count + "]", i - 3);
      }
    }
  }
}
