/** The insertion sort by which the thread cache picks its least recently used keys. */
module Eviction {

  datatype Entry = Entry(key: string, lastAccessed: int)

  /** `x` put into `s` from the right, before every entry used later than it. */
  function Inserted(s: seq<Entry>, x: Entry): (r: seq<Entry>)
    ensures |r| == |s| + 1
  {
    if s == [] || s[|s| - 1].lastAccessed <= x.lastAccessed then s + [x]
    else Inserted(s[..|s| - 1], x) + [s[|s| - 1]]
  }

  function Sorted(s: seq<Entry>): (r: seq<Entry>)
    ensures |r| == |s|
  {
    if s == [] then [] else Inserted(Sorted(s[..|s| - 1]), s[|s| - 1])
  }

  predicate Ordered(s: seq<Entry>) {
    forall i, j :: 0 <= i <= j < |s| ==> s[i].lastAccessed <= s[j].lastAccessed
  }

  lemma {:induction false} InsertedElements(s: seq<Entry>, x: Entry)
    ensures multiset(Inserted(s, x)) == multiset(s) + multiset{x}
  {
    if s != [] && s[|s| - 1].lastAccessed > x.lastAccessed {
      InsertedElements(s[..|s| - 1], x);
      assert s == s[..|s| - 1] + [s[|s| - 1]];
    }
  }

  lemma {:induction false} InsertedOrdered(s: seq<Entry>, x: Entry)
    requires Ordered(s)
    ensures Ordered(Inserted(s, x))
  {
    if s != [] && s[|s| - 1].lastAccessed > x.lastAccessed {
      var front, last := s[..|s| - 1], s[|s| - 1];
      InsertedOrdered(front, x);
      InsertedElements(front, x);
      var r := Inserted(front, x);
      forall e | e in r ensures e.lastAccessed <= last.lastAccessed {
        assert e in multiset(front) + multiset{x};
      }
      assert forall k :: 0 <= k < |r| ==> r[k] in r;
    }
  }

  /** The sort returns the same entries, oldest first. */
  lemma {:induction false} SortedIsOrdered(s: seq<Entry>)
    ensures Ordered(Sorted(s)) && multiset(Sorted(s)) == multiset(s)
  {
    if s != [] {
      SortedIsOrdered(s[..|s| - 1]);
      InsertedOrdered(Sorted(s[..|s| - 1]), s[|s| - 1]);
      InsertedElements(Sorted(s[..|s| - 1]), s[|s| - 1]);
      assert s == s[..|s| - 1] + [s[|s| - 1]];
    }
  }

  /** Where the inner loop stops is where the new entry belongs. */
  lemma {:induction false} InsertedAt(s: seq<Entry>, x: Entry, n: nat)
    requires n <= |s|
    requires forall k :: n <= k < |s| ==> s[k].lastAccessed > x.lastAccessed
    requires n > 0 ==> s[n - 1].lastAccessed <= x.lastAccessed
    ensures Inserted(s, x) == s[..n] + [x] + s[n..]
  {
    if n < |s| {
      var front, last := s[..|s| - 1], s[|s| - 1];
      InsertedAt(front, x, n);
      assert front[..n] == s[..n] && front[n..] + [last] == s[n..];
    } else {
      assert s[..n] == s && s[n..] == [];
    }
  }

  lemma Spliced(s: seq<Entry>, x: Entry, n: nat, r: seq<Entry>)
    requires n <= |s| && |r| == |s| + 1 && r[n] == x
    requires forall k :: 0 <= k < n ==> r[k] == s[k]
    requires forall k :: n <= k < |s| ==> r[k + 1] == s[k]
    ensures r == s[..n] + [x] + s[n..]
  {
    assert r[n + 1..] == s[n..];
  }

  /** The inner loop: shifts the entries before place `i` that are later than the one at `i` up by one, and
      stops below them. */
  method ShiftLater(a: array<Entry>, i: nat) returns (j: int)
    requires i < a.Length
    modifies a
    ensures -1 <= j < i && (j >= 0 ==> old(a[j]).lastAccessed <= old(a[i]).lastAccessed)
    ensures forall k :: 0 <= k <= j ==> a[k] == old(a[k])
    ensures forall k :: j < k < i ==> a[k + 1] == old(a[k]) && old(a[k]).lastAccessed > old(a[i]).lastAccessed
    ensures forall k :: i < k < a.Length ==> a[k] == old(a[k])
  {
    var key := a[i];
    j := i - 1;
    while j >= 0 && a[j].lastAccessed > key.lastAccessed
      invariant -1 <= j < i
      invariant forall k :: 0 <= k <= j ==> a[k] == old(a[k])
      invariant forall k :: j < k < i ==> a[k + 1] == old(a[k]) && old(a[k]).lastAccessed > key.lastAccessed
      invariant forall k :: i < k < a.Length ==> a[k] == old(a[k])
    {
      a[j + 1] := a[j];
      j := j - 1;
    }
  }

  /** One round of the sort: shift the later entries of the sorted part up, and drop the new one in. */
  method InsertNext(a: array<Entry>, i: nat)
    requires i < a.Length
    modifies a
    ensures a[..i + 1] == Inserted(old(a[..i]), old(a[i]))
    ensures forall k :: i < k < a.Length ==> a[k] == old(a[k])
  {
    ghost var p := a[..i];
    var key := a[i];
    var j := ShiftLater(a, i);
    a[j + 1] := key;
    InsertedAt(p, key, j + 1);
    Spliced(p, key, j + 1, a[..i + 1]);
  }

  method InsertionSort(a: array<Entry>)
    modifies a
    ensures a[..] == Sorted(old(a[..]))
  {
    ghost var was := a[..];
    var i := 0;
    while i < a.Length
      invariant 0 <= i <= a.Length
      invariant a[..i] == Sorted(was[..i])
      invariant forall k :: i <= k < a.Length ==> a[k] == was[k]
    {
      InsertNext(a, i);
      SortedNext(was, i);
      i := i + 1;
    }
    assert a[..] == a[..i] && was == was[..i];
  }

  lemma SortedNext(s: seq<Entry>, i: nat)
    requires i < |s|
    ensures Sorted(s[..i + 1]) == Inserted(Sorted(s[..i]), s[i])
  {
    assert s[..i + 1][..i] == s[..i];
  }

  /** An entry that occurs at two places counts at least twice. */
  lemma Repeats(s: seq<Entry>, i: int, j: int)
    requires 0 <= i < j < |s| && s[i] == s[j]
    ensures multiset(s)[s[i]] >= 2
  {
    assert s == s[..j] + s[j..];
    assert s[..j][i] == s[i] && s[j..][0] == s[j];
    assert s[i] in s[..j] && s[i] in s[j..];
  }
}
