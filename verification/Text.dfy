/** Go's string functions on the strings the quoting code handles. A string is a sequence of code points. */
module Text {

  /** unicode.IsSpace. */
  predicate IsSpace(c: char) {
    var n := c as int;
    0x09 <= n <= 0x0D || n == 0x20 || n == 0x85 || n == 0xA0 || n == 0x1680 || 0x2000 <= n <= 0x200A
    || n == 0x2028 || n == 0x2029 || n == 0x202F || n == 0x205F || n == 0x3000
  }

  function TrimRight(s: string, cut: char -> bool): (r: string)
    ensures r <= s
  {
    if s == "" || !cut(s[|s| - 1]) then s else TrimRight(s[..|s| - 1], cut)
  }

  function TrimLeft(s: string, cut: char -> bool): (r: string)
    ensures |r| <= |s|
  {
    if s == "" || !cut(s[0]) then s else TrimLeft(s[1..], cut)
  }

  function TrimSpace(s: string): string {
    TrimLeft(TrimRight(s, IsSpace), IsSpace)
  }

  function Lower(c: char): char {
    if 'A' <= c <= 'Z' then (c as int + 32) as char else c
  }

  /** ASCII lowercasing. */
  function ToLower(s: string): (r: string)
    ensures |r| == |s| && forall i :: 0 <= i < |s| ==> r[i] == Lower(s[i])
  {
    seq(|s|, i requires 0 <= i < |s| => Lower(s[i]))
  }

  // ---- Trimming --------------------------------------------------------------------------------------

  /** Trimming drops the trimmed characters at the end, all of them and no others. */
  lemma {:induction false} TrimRightDrops(s: string, cut: char -> bool)
    ensures var r := TrimRight(s, cut);
            && r <= s && (r != "" ==> !cut(r[|r| - 1]))
            && forall i :: |r| <= i < |s| ==> cut(s[i])
  {
    if s != "" && cut(s[|s| - 1]) { TrimRightDrops(s[..|s| - 1], cut); }
  }

  lemma {:induction false} TrimLeftDrops(s: string, cut: char -> bool)
    ensures var r := TrimLeft(s, cut);
            && r == s[|s| - |r|..] && (r != "" ==> !cut(r[0]))
            && forall i :: 0 <= i < |s| - |r| ==> cut(s[i])
  {
    if s != "" && cut(s[0]) { TrimLeftDrops(s[1..], cut); }
  }

  /** A right-trimmed prefix that only trimmed characters follow is the trimmed string. */
  lemma {:induction false} TrimRightIs(s: string, cut: char -> bool, r: string)
    requires r <= s && (r != "" ==> !cut(r[|r| - 1]))
    requires forall i :: |r| <= i < |s| ==> cut(s[i])
    ensures TrimRight(s, cut) == r
  {
    if |r| < |s| { TrimRightIs(s[..|s| - 1], cut, r); }
  }

  lemma {:induction false} TrimLeftIs(s: string, cut: char -> bool, r: string)
    requires |r| <= |s| && r == s[|s| - |r|..] && (r != "" ==> !cut(r[0]))
    requires forall i :: 0 <= i < |s| - |r| ==> cut(s[i])
    ensures TrimLeft(s, cut) == r
  {
    if |r| < |s| { TrimLeftIs(s[1..], cut, r); }
  }

  /** TrimSpace leaves something exactly if the string has a character that is no space. */
  lemma TrimSpaceEmpty(s: string)
    ensures TrimSpace(s) == "" <==> forall i :: 0 <= i < |s| ==> IsSpace(s[i])
  {
    var r := TrimRight(s, IsSpace);
    var t := TrimSpace(s);
    TrimRightDrops(s, IsSpace);
    TrimLeftDrops(r, IsSpace);
    if t != "" {
      assert !IsSpace(t[0]) && t[0] == r[|r| - |t|] == s[|r| - |t|];
    }
  }

  lemma TrimmedStays(s: string)
    requires s != "" ==> !IsSpace(s[0]) && !IsSpace(s[|s| - 1])
    ensures TrimSpace(s) == s
  {
    TrimRightIs(s, IsSpace, s);
    TrimLeftIs(s, IsSpace, s);
  }

  /** Trimming some of the space on the right first makes no difference to TrimSpace. */
  lemma TrimRightThenSpace(s: string, cut: char -> bool)
    requires forall c :: cut(c) ==> IsSpace(c)
    ensures TrimSpace(TrimRight(s, cut)) == TrimSpace(s)
  {
    var r := TrimRight(s, IsSpace);
    var t := TrimRight(s, cut);
    TrimRightDrops(s, IsSpace);
    TrimRightDrops(s, cut);
    assert r != "" ==> !cut(s[|r| - 1]);
    assert |r| <= |t|;
    TrimRightIs(t, IsSpace, r);
  }

  // ---- Lines -----------------------------------------------------------------------------------------

  /** strings.Split(s, "\n"). */
  function Split(s: string): (ls: seq<string>)
    ensures |ls| >= 1
  {
    if s == "" then [""]
    else
      var rest := Split(s[1..]);
      if s[0] == '\n' then [""] + rest else [[s[0]] + rest[0]] + rest[1..]
  }

  /** strings.Join(ls, "\n"). */
  function Join(ls: seq<string>): string {
    if ls == [] then "" else if |ls| == 1 then ls[0] else ls[0] + "\n" + Join(ls[1..])
  }

  predicate OneLine(s: string) {
    '\n' !in s
  }

  predicate AreLines(ls: seq<string>) {
    forall l :: l in ls ==> OneLine(l)
  }

  lemma JoinEmptyFirst(ls: seq<string>)
    requires ls != []
    ensures Join([""] + ls) == "\n" + Join(ls)
  {
    assert ([""] + ls)[1..] == ls;
  }

  lemma JoinLonger(c: char, ls: seq<string>)
    requires ls != []
    ensures Join([[c] + ls[0]] + ls[1..]) == [c] + Join(ls)
  {
    var longer := [[c] + ls[0]] + ls[1..];
    assert longer[1..] == ls[1..];
    if |ls| > 1 {
      assert ([c] + ls[0]) + "\n" + Join(ls[1..]) == [c] + (ls[0] + "\n" + Join(ls[1..]));
    }
  }

  lemma {:induction false} JoinSplit(s: string)
    ensures Join(Split(s)) == s
  {
    if s != "" {
      JoinSplit(s[1..]);
      assert [s[0]] + s[1..] == s;
      if s[0] == '\n' { JoinEmptyFirst(Split(s[1..])); } else { JoinLonger(s[0], Split(s[1..])); }
    }
  }

  lemma {:induction false} SplitAreLines(s: string)
    ensures AreLines(Split(s))
  {
    if s != "" {
      SplitAreLines(s[1..]);
      var rest := Split(s[1..]);
      assert OneLine(rest[0]);
      if s[0] != '\n' { assert OneLine([s[0]] + rest[0]); }
    }
  }

  /** A line break between two strings is a split between them. */
  lemma {:induction false} SplitConcat(a: string, b: string)
    ensures Split(a + "\n" + b) == Split(a) + Split(b)
  {
    var s := a + "\n" + b;
    if a == "" {
      assert s[1..] == b;
    } else {
      assert s[0] == a[0] && s[1..] == a[1..] + "\n" + b;
      SplitConcat(a[1..], b);
    }
  }

  lemma {:induction false} SplitLine(s: string)
    requires OneLine(s)
    ensures Split(s) == [s]
  {
    if s != "" {
      assert s[0] in s;
      SplitLine(s[1..]);
      assert [s[0]] + s[1..] == s;
    }
  }

  lemma {:induction false} SplitJoin(ls: seq<string>)
    requires ls != [] && AreLines(ls)
    ensures Split(Join(ls)) == ls
  {
    SplitLine(ls[0]);
    if |ls| > 1 {
      SplitJoin(ls[1..]);
      SplitConcat(ls[0], Join(ls[1..]));
    }
  }

  lemma {:induction false} JoinConcat(a: seq<string>, b: seq<string>)
    requires a != [] && b != []
    ensures Join(a + b) == Join(a) + "\n" + Join(b)
  {
    if |a| == 1 {
      assert (a + b)[1..] == b;
    } else {
      assert (a + b)[1..] == a[1..] + b;
      JoinConcat(a[1..], b);
    }
  }

  lemma JoinFirst(a: seq<string>, b: seq<string>)
    requires a != [] && b != []
    ensures Join(a) <= Join(a + b)
  {
    JoinConcat(a, b);
    assert Join(a) <= Join(a) + ("\n" + Join(b));
  }

  lemma JoinFront(ls: seq<string>, k: nat)
    requires k <= |ls|
    ensures Join(ls[..k]) <= Join(ls)
  {
    if 0 < k < |ls| {
      JoinFirst(ls[..k], ls[k..]);
      assert ls == ls[..k] + ls[k..];
    } else if k == |ls| {
      assert ls[..k] == ls;
    }
  }

  // ---- Searching -------------------------------------------------------------------------------------

  /** The first number from `i` on that satisfies `p`, or `n`. */
  function First(n: nat, p: nat -> bool, i: nat): (k: nat)
    requires i <= n
    ensures i <= k <= n
    decreases n - i
  {
    if i == n || p(i) then i else First(n, p, i + 1)
  }

  lemma {:induction false} FirstIsFirst(n: nat, p: nat -> bool, i: nat)
    requires i <= n
    ensures var k := First(n, p, i); (k < n ==> p(k)) && forall j :: i <= j < k ==> !p(j)
    decreases n - i
  {
    if i < n && !p(i) { FirstIsFirst(n, p, i + 1); }
  }

  lemma {:induction false} FirstIs(n: nat, p: nat -> bool, i: nat, k: nat)
    requires i <= k <= n && (k < n ==> p(k)) && forall j :: i <= j < k ==> !p(j)
    ensures First(n, p, i) == k
    decreases n - i
  {
    if i < k { FirstIs(n, p, i + 1, k); }
  }
}
