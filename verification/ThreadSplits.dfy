/** When a size eviction takes one of a thread's two keys and leaves the other: exactly when the count falls
    inside the thread's own age group. */
module ThreadSplits {
  import opened Wrappers
  import opened ThreadState
  import opened ThreadRuns
  import opened ThreadExact

  function LastUse(s: State, k: string): int
    requires Wf(s) && k in s.known
  {
    assert s.known[k] in s.known.Values;
    s.store[s.known[k]].lastAccessed
  }

  /** The keys used before `time`, and up to it. */
  function Older(s: State, time: int): set<string>
    requires Wf(s)
  {
    set k | k in s.known && LastUse(s, k) < time
  }

  function UpTo(s: State, time: int): set<string>
    requires Wf(s)
  {
    set k | k in s.known && LastUse(s, k) <= time
  }

  /** Two keys of one thread. */
  predicate Twins(s: State, j: string, k: string) {
    j != k && j in s.known && k in s.known && s.known[j] == s.known[k]
  }

  /** The count falls inside the age group of these two keys: all older keys go, and not all of the group. */
  predicate Straddled(s: State, count: nat, j: string, k: string)
    requires Wf(s)
  {
    Twins(s, j, k) && |Older(s, LastUse(s, j))| < count < |UpTo(s, LastUse(s, j))|
  }

  lemma SomeMore(a: set<string>, b: set<string>)
    requires |a| < |b|
    ensures exists x :: x in b && x !in a
  {
    if forall x :: x in b ==> x in a { SubsetSize(b, a); }
  }

  lemma SizedBetween(a: set<string>, b: set<string>, n: nat) returns (v: set<string>)
    requires a <= b && |a| <= n <= |b|
    ensures a <= v <= b && |v| == n
    decreases n - |a|
  {
    v := a;
    if |a| < n {
      SomeMore(a, b);
      var x :| x in b && x !in a;
      v := SizedBetween(a + {x}, b, n);
    }
  }

  lemma TakenIsNotYounger(s: State, count: nat, victims: set<string>, v: string, x: string)
    requires Wf(s) && LegalVictims(s, count, victims) && v in victims && x in s.known && x !in victims
    ensures v in s.known && LastUse(s, v) <= LastUse(s, x)
  {
  }

  /** A legal choice that takes one of two twins takes everything older and nothing younger. */
  lemma SplitStraddles(s: State, count: nat, victims: set<string>, j: string, k: string)
    requires Wf(s) && LegalVictims(s, count, victims) && Twins(s, j, k) && j in victims && k !in victims
    ensures Straddled(s, count, j, k)
  {
    var time := LastUse(s, j);
    forall x | x in Older(s, time) ensures x in victims - {j} {
      if x !in victims { TakenIsNotYounger(s, count, victims, j, x); }
    }
    forall v | v in victims ensures v in UpTo(s, time) - {k} {
      TakenIsNotYounger(s, count, victims, v, k);
    }
    SubsetSize(Older(s, time), victims - {j});
    SubsetSize(victims, UpTo(s, time) - {k});
  }

  lemma StraddledSplits(s: State, count: nat, j: string, k: string) returns (victims: set<string>)
    requires Wf(s) && Straddled(s, count, j, k)
    ensures LegalVictims(s, count, victims) && j in victims && k !in victims
  {
    var time := LastUse(s, j);
    var low, high := Older(s, time) + {j}, UpTo(s, time) - {k};
    assert LastUse(s, k) == time;
    victims := SizedBetween(low, high, count);
    forall v, x | v in victims && x in s.known && x !in victims
      ensures s.store[s.known[v]].lastAccessed <= s.store[s.known[x]].lastAccessed {
      assert v in high && x !in low;
      assert LastUse(s, v) <= time <= LastUse(s, x);
    }
  }

  /** A legal eviction can split a thread if and only if some thread has two keys and the count falls inside
      its age group. */
  lemma EvictionCanSplitIff(s: State, count: nat)
    requires Wf(s)
    ensures (exists victims :: LegalVictims(s, count, victims) && !WholeThreads(s, victims))
            <==> exists j, k :: Straddled(s, count, j, k)
  {
    if victims :| LegalVictims(s, count, victims) && !WholeThreads(s, victims) {
      var j, k :| j in s.known && k in s.known && s.known[j] == s.known[k] && j in victims && k !in victims;
      SplitStraddles(s, count, victims, j, k);
    }
    if j, k :| Straddled(s, count, j, k) {
      var victims := StraddledSplits(s, count, j, k);
      assert !WholeThreads(s, victims);
    }
  }

  /** So from an exact index an eviction can leave an inexact one in exactly these states. */
  lemma EvictionCanBreakIff(s: State, count: nat)
    requires Exact(s)
    ensures (exists victims :: LegalVictims(s, count, victims) && !Exact(RemoveKeys(s, victims)))
            <==> exists j, k :: Straddled(s, count, j, k)
  {
    EvictionCanSplitIff(s, count);
    if victims :| LegalVictims(s, count, victims) && !Exact(RemoveKeys(s, victims)) {
      RemovalExact(s, victims);
    }
    if victims :| LegalVictims(s, count, victims) && !WholeThreads(s, victims) {
      RemovalExact(s, victims);
    }
  }
}
