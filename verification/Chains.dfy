/**
 Pointer chains in a flat buffer.

 A buffer is a sequence of words and a pointer is the index of a word in it.
 Every benchmark of the memory hierarchy walks such a chain with p = *p, and is
 meaningful only when the chain is one closed cycle over the intended words.
 */
module Chains {

  /** p = *p, n times; -1 once the walk has left the buffer. */
  function Walk(mem: seq<int>, p: int, n: nat): int {
    if n == 0 then p else
    var q := Walk(mem, p, n - 1);
    if 0 <= q < |mem| then mem[q] else -1
  }

  /** The first n steps from start visit each word of words exactly once, and no other word. */
  ghost predicate Visits(mem: seq<int>, start: int, n: nat, words: set<int>) {
    if n == 0 then words == {} else
    var w := Walk(mem, start, n - 1);
    w in words && Visits(mem, start, n - 1, words - {w})
  }

  /** n steps from start visit each word of words once and lead back to start. */
  ghost predicate Round(mem: seq<int>, start: int, n: nat, words: set<int>) {
    n > 0 && Visits(mem, start, n, words) && Walk(mem, start, n) == start
  }

  /** The walk from start, a word of the buffer, is one closed cycle through exactly the
      words of words; it takes |words| steps (see OneCycleVisitsOnce). */
  ghost predicate OneCycle(mem: seq<int>, start: int, words: set<int>) {
    0 <= start < |mem| && exists n: nat :: Round(mem, start, n, words)
  }

  ghost predicate Meets(mem: seq<int>, start: int, n: nat, a: int) {
    exists t: nat :: t < n && Walk(mem, start, t) == a
  }

  /** Visits means what it says. */
  lemma {:induction false} VisitsOnce(mem: seq<int>, start: int, n: nat, words: set<int>)
    requires Visits(mem, start, n, words)
    ensures |words| == n
    ensures forall t: nat | t < n :: Walk(mem, start, t) in words
    ensures forall t: nat, u: nat | t < u < n :: Walk(mem, start, t) != Walk(mem, start, u)
    ensures forall a | a in words :: Meets(mem, start, n, a)
  {
    if n > 0 {
      var w := Walk(mem, start, n - 1);
      VisitsOnce(mem, start, n - 1, words - {w});
      forall a | a in words ensures Meets(mem, start, n, a) {
        if a != w { assert Meets(mem, start, n - 1, a); }
      }
    }
  }

  /** One cycle starts on one of its words, never leaves them, meets each, and repeats none. */
  lemma OneCycleVisitsOnce(mem: seq<int>, start: int, words: set<int>)
    requires OneCycle(mem, start, words)
    ensures start in words && Walk(mem, start, |words|) == start
    ensures forall t: nat | t < |words| :: Walk(mem, start, t) in words
    ensures forall a | a in words :: Meets(mem, start, |words|, a)
    ensures forall t: nat, u: nat | t < u < |words| :: Walk(mem, start, t) != Walk(mem, start, u)
  {
    var n: nat :| Round(mem, start, n, words);
    VisitsOnce(mem, start, n, words);
    assert Walk(mem, start, 0) == start;
  }

  lemma {:induction false} LostWalk(mem: seq<int>, start: int, t: nat, n: nat)
    requires t < n && !(0 <= Walk(mem, start, t) < |mem|)
    ensures Walk(mem, start, n) == -1
  {
    if t + 1 < n { LostWalk(mem, start, t, n - 1); }
  }

  /** Every word of the cycle lies in the buffer and points to a word of the cycle. */
  lemma OneCycleClosed(mem: seq<int>, start: int, words: set<int>, a: int)
    requires OneCycle(mem, start, words) && a in words
    ensures 0 <= a < |mem| && mem[a] in words
  {
    OneCycleVisitsOnce(mem, start, words);
    assert Meets(mem, start, |words|, a);
    var t: nat :| t < |words| && Walk(mem, start, t) == a;
    if !(0 <= a < |mem|) { LostWalk(mem, start, t, |words|); }
    assert Walk(mem, start, t + 1) == mem[a];
  }

  /** p = *p, steps times: the benchmark loop itself. It never leaves the cycle. */
  method WalkChain(mem: array<int>, start: int, steps: nat, ghost words: set<int>) returns (p: int)
    requires OneCycle(mem[..], start, words)
    ensures p == Walk(mem[..], start, steps) && p in words
  {
    p := start;
    var n := 0;
    OneCycleVisitsOnce(mem[..], start, words);
    while n < steps
      invariant n <= steps && p in words && p == Walk(mem[..], start, n)
    {
      OneCycleClosed(mem[..], start, words, p);
      p := mem[p];
      n := n + 1;
    }
  }

  ghost predicate NoDup<T>(s: seq<T>) {
    forall i, j | 0 <= i < j < |s| :: s[i] != s[j]
  }

  /** Entry t of s points to the entry after it. */
  ghost predicate Points(mem: seq<int>, s: seq<int>, t: nat)
    requires t + 1 < |s|
  {
    0 <= s[t] < |mem| && mem[s[t]] == s[t + 1]
  }

  /** Each word listed in s points to the next one listed. */
  ghost predicate Linked(mem: seq<int>, s: seq<int>) {
    && (forall t | 0 <= t < |s| :: 0 <= s[t] < |mem|)
    && (forall t: nat | t + 1 < |s| :: Points(mem, s, t))
  }

  /** s lists one closed cycle, in the order in which it is walked. */
  ghost predicate Cycle(mem: seq<int>, s: seq<int>) {
    |s| > 0 && NoDup(s) && Linked(mem, s) && mem[s[|s| - 1]] == s[0]
  }

  function Elems<T>(s: seq<T>): set<T> {
    set a | a in s
  }

  /** A part has no more elements, and fewer if it is not all. */
  lemma SubsetCard<T>(a: set<T>, b: set<T>)
    requires a <= b
    ensures |a| <= |b| && (|a| == |b| ==> a == b)
  {
    assert b == a + (b - a);
  }

  lemma {:induction false} NoDupCard<T>(s: seq<T>)
    requires NoDup(s)
    ensures |Elems(s)| == |s|
  {
    if |s| > 0 {
      var r := s[..|s| - 1];
      NoDupCard(r);
      assert Elems(s) == Elems(r) + {s[|s| - 1]} by { assert s == r + [s[|s| - 1]]; }
    }
  }

  lemma {:induction false} CycleWalk(mem: seq<int>, s: seq<int>, t: nat)
    requires Cycle(mem, s) && t <= |s|
    ensures Walk(mem, s[0], t) == if t == |s| then s[0] else s[t]
  {
    if t > 0 {
      CycleWalk(mem, s, t - 1);
      if t < |s| { assert Points(mem, s, t - 1); }
    }
  }

  /** The walk from start visits the words of s in order. */
  ghost predicate WalksInOrder(mem: seq<int>, start: int, s: seq<int>) {
    forall t: nat {:trigger Walk(mem, start, t)} | t < |s| :: Walk(mem, start, t) == s[t]
  }

  lemma {:induction false} VisitsPrefix(mem: seq<int>, start: int, s: seq<int>, n: nat)
    requires WalksInOrder(mem, start, s) && NoDup(s) && n <= |s|
    ensures Visits(mem, start, n, Elems(s[..n]))
  {
    if n > 0 {
      VisitsPrefix(mem, start, s, n - 1);
      assert Walk(mem, start, n - 1) == s[n - 1];
      assert Elems(s[..n]) - {s[n - 1]} == Elems(s[..n - 1]) by {
        assert s[..n] == s[..n - 1] + [s[n - 1]];
      }
      assert s[n - 1] in s[..n];
    }
  }

  /** A listed cycle is one cycle over the listed words, walked in the order listed. */
  lemma CycleIsOneCycle(mem: seq<int>, s: seq<int>, start: int)
    requires Cycle(mem, s) && s[0] == start
    ensures OneCycle(mem, start, Elems(s)) && |Elems(s)| == |s|
    ensures WalksInOrder(mem, start, s)
  {
    NoDupCard(s);
    forall t: nat | t < |s| ensures Walk(mem, start, t) == s[t] {
      CycleWalk(mem, s, t);
    }
    CycleWalk(mem, s, |s|);
    VisitsPrefix(mem, start, s, |s|);
    assert s[..|s|] == s;
    assert Round(mem, start, |s|, Elems(s));
  }

  // ----- lists of runs

  function Flatten<T>(ss: seq<seq<T>>): seq<T> {
    if |ss| == 0 then [] else Flatten(ss[..|ss| - 1]) + ss[|ss| - 1]
  }

  lemma {:induction false} FlattenElems<T>(ss: seq<seq<T>>, a: T)
    ensures a in Flatten(ss) <==> exists i :: 0 <= i < |ss| && a in ss[i]
  {
    if |ss| > 0 {
      var r := ss[..|ss| - 1];
      FlattenElems(r, a);
      if a in Flatten(r) {
        var i :| 0 <= i < |r| && a in r[i];
        assert a in ss[i];
      }
      if i :| 0 <= i < |ss| && a in ss[i] {
        if i < |r| { assert a in r[i]; }
      }
    }
  }

  lemma {:induction false} FlattenConcat<T>(xs: seq<seq<T>>, ys: seq<seq<T>>)
    ensures Flatten(xs + ys) == Flatten(xs) + Flatten(ys)
  {
    if |ys| == 0 {
      assert xs + ys == xs;
    } else {
      FlattenConcat(xs, ys[..|ys| - 1]);
      assert (xs + ys)[..|xs + ys| - 1] == xs + ys[..|ys| - 1];
    }
  }

  ghost predicate Disjoint<T>(ss: seq<seq<T>>) {
    forall i, j, u, v | 0 <= i < j < |ss| && 0 <= u < |ss[i]| && 0 <= v < |ss[j]| :: ss[i][u] != ss[j][v]
  }

  lemma {:induction false} FlattenNoDup<T>(ss: seq<seq<T>>)
    requires forall i | 0 <= i < |ss| :: NoDup(ss[i])
    requires Disjoint(ss)
    ensures NoDup(Flatten(ss))
  {
    if |ss| > 0 {
      var n := |ss| - 1;
      var r := ss[..n];
      FlattenNoDup(r);
      forall x, y | 0 <= x < |Flatten(r)| && 0 <= y < |ss[n]| ensures Flatten(r)[x] != ss[n][y] {
        FlattenElems(r, Flatten(r)[x]);
        var i :| 0 <= i < |r| && Flatten(r)[x] in r[i];
        var u :| 0 <= u < |r[i]| && r[i][u] == Flatten(r)[x];
        assert ss[i][u] != ss[n][y];
      }
    }
  }

  /** The last word of run i points to the first word of run i + 1. */
  ghost predicate Joined(mem: seq<int>, ss: seq<seq<int>>, i: nat)
    requires i + 1 < |ss|
  {
    && |ss[i]| > 0 && |ss[i + 1]| > 0
    && var a := ss[i][|ss[i]| - 1];
       0 <= a < |mem| && mem[a] == ss[i + 1][0]
  }

  ghost predicate Run(mem: seq<int>, ss: seq<seq<int>>, i: nat)
    requires i < |ss|
  {
    |ss[i]| > 0 && Linked(mem, ss[i])
  }

  /** Runs that are linked inside, and each from its last word to the next run's first. */
  ghost predicate RunsLinked(mem: seq<int>, ss: seq<seq<int>>) {
    && (forall i: nat | i < |ss| :: Run(mem, ss, i))
    && (forall i: nat | i + 1 < |ss| :: Joined(mem, ss, i))
  }

  lemma {:induction false} FlattenLinked(mem: seq<int>, ss: seq<seq<int>>)
    requires RunsLinked(mem, ss) && |ss| > 0
    ensures var f := Flatten(ss);
            && |ss[0]| > 0 && |ss[|ss| - 1]| > 0
            && |f| > 0 && Linked(mem, f) && f[0] == ss[0][0]
            && f[|f| - 1] == ss[|ss| - 1][|ss[|ss| - 1]| - 1]
  {
    var n := |ss| - 1;
    assert Run(mem, ss, n);
    if n == 0 {
      assert Flatten(ss) == Flatten(ss[..n]) + ss[n] == ss[n];
    } else {
      var r := ss[..n];
      forall i: nat | i < |r| ensures Run(mem, r, i) { assert Run(mem, ss, i); }
      forall i: nat | i + 1 < |r| ensures Joined(mem, r, i) { assert Joined(mem, ss, i); }
      FlattenLinked(mem, r);
      var f := Flatten(r);
      assert Joined(mem, ss, n - 1);
      forall t: nat | t + 1 < |f + ss[n]| ensures Points(mem, f + ss[n], t) {
        if t + 1 < |f| { assert Points(mem, f, t); }
        if t >= |f| { assert Points(mem, ss[n], t - |f|); }
      }
    }
  }

  lemma {:induction false} FlattenLength<T>(ss: seq<seq<T>>, m: nat)
    requires forall x | 0 <= x < |ss| :: |ss[x]| == m
    ensures |Flatten(ss)| == |ss| * m
  {
    if |ss| > 0 { FlattenLength(ss[..|ss| - 1], m); }
  }

  /** When all runs before i have m entries, entry j of run i is entry i * m + j of the list. */
  lemma {:induction false} FlattenIndex<T>(ss: seq<seq<T>>, m: nat, i: nat, j: nat)
    requires i < |ss| && j < |ss[i]|
    requires forall x | 0 <= x < i :: |ss[x]| == m
    ensures 0 <= i * m + j < |Flatten(ss)| && Flatten(ss)[i * m + j] == ss[i][j]
    decreases |ss|
  {
    var n := |ss| - 1;
    var r := ss[..n];
    if i < n {
      FlattenIndex(r, m, i, j);
    } else {
      FlattenLength(r, m);
    }
  }

  // ----- exchanging two entries

  function SwapAt<T>(s: seq<T>, i: nat, j: nat): (r: seq<T>)
    requires i < |s| && j < |s|
    ensures |r| == |s|
  {
    s[i := s[j]][j := s[i]]
  }

  lemma SwapSame<T>(s: seq<T>, i: nat, j: nat)
    requires i < |s| && j < |s|
    ensures multiset(SwapAt(s, i, j)) == multiset(s)
  {
  }
}
