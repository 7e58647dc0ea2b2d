/**
 lib_mem.c: stride_initialize and tlb_initialize.

 The page shuffle of tlb_initialize is described by the list a of the frames now in each
 slot: walking a like a chain of pointers shows its cycles.
 */
module Tlb {
  import opened Arith
  import opened Chains
  import opened PageChains
  import opened BitOrder
  import opened MemInit
  import opened PageTables
  import opened MemFacts
  import opened LibMem

  // ----- the shuffle is one big cycle

  ghost predicate OnSome(cycles: seq<seq<int>>, x: int) {
    exists q :: 0 <= q < |cycles| && x in cycles[q]
  }

  /** Cycle q starts at slot q + 1. */
  ghost predicate CycleAt(a: seq<int>, cycles: seq<seq<int>>, q: nat)
    requires q < |cycles|
  {
    Cycle(a, cycles[q]) && cycles[q][0] == q + 1
  }

  ghost predicate InSlots(cycles: seq<seq<int>>, n: nat) {
    forall q, u | 0 <= q < |cycles| && 0 <= u < |cycles[q]| :: 1 <= cycles[q][u] < n
  }

  ghost predicate AllSlots(cycles: seq<seq<int>>, n: nat) {
    forall x | 1 <= x < n :: OnSome(cycles, x)
  }

  /** The slots 1 .. |a| - 1 fall into the listed cycles of a. */
  ghost predicate Cycles(a: seq<int>, cycles: seq<seq<int>>) {
    && (forall q: nat | q < |cycles| :: CycleAt(a, cycles, q))
    && Disjoint(cycles) && InSlots(cycles, |a|) && AllSlots(cycles, |a|)
  }

  function Identity(n: nat): seq<int> {
    seq(n, i requires 0 <= i < n => i)
  }

  lemma IdentityCycles(n: nat)
    requires n > 0
    ensures Cycles(Identity(n), seq(n - 1, q requires 0 <= q < n - 1 => [q + 1]))
  {
    var a, cycles := Identity(n), seq(n - 1, q requires 0 <= q < n - 1 => [q + 1]);
    forall x | 1 <= x < n ensures OnSome(cycles, x) { assert x in cycles[x - 1]; }
    forall q: nat | q < |cycles| ensures CycleAt(a, cycles, q) { assert cycles[q] == [q + 1]; }
  }

  /** Two cycles joined by swapping what their first slots hold. */
  function Merged(s: seq<int>, t: seq<int>): seq<int>
    requires |s| > 0 && |t| > 0
  {
    [s[0]] + t[1..] + [t[0]] + s[1..]
  }

  lemma MergedCycle(a: seq<int>, s: seq<int>, t: seq<int>)
    requires Cycle(a, s) && Cycle(a, t) && forall u, v | 0 <= u < |s| && 0 <= v < |t| :: s[u] != t[v]
    ensures Cycle(a[s[0] := a[t[0]]][t[0] := a[s[0]]], Merged(s, t))
    ensures Merged(s, t)[0] == s[0]
  {
    var a' := a[s[0] := a[t[0]]][t[0] := a[s[0]]];
    var m := Merged(s, t);
    MergedNoDup(s, t);
    forall x: nat | x + 1 < |m| ensures Points(a', m, x) { MergedPoints(a, s, t, x); }
    assert Last(m) == if |s| > 1 then Last(s) else t[0];
  }

  lemma MergedPoints(a: seq<int>, s: seq<int>, t: seq<int>, x: nat)
    requires Cycle(a, s) && Cycle(a, t) && forall u, v | 0 <= u < |s| && 0 <= v < |t| :: s[u] != t[v]
    requires x + 1 < |s| + |t|
    ensures Points(a[s[0] := a[t[0]]][t[0] := a[s[0]]], Merged(s, t), x)
  {
    if x < |t| {
      if x + 1 < |t| { assert Points(a, t, x); }
      if x == 0 && |t| == 1 { assert a[t[0]] == t[0]; }
      if x + 1 == |t| { assert a[Last(t)] == t[0]; }
    } else if x == |t| {
      assert Points(a, s, 0);
    } else {
      assert Points(a, s, x - |t|);
    }
  }

  lemma MergedNoDup(s: seq<int>, t: seq<int>)
    requires |s| > 0 && |t| > 0 && NoDup(s) && NoDup(t) && forall u, v | 0 <= u < |s| && 0 <= v < |t| :: s[u] != t[v]
    ensures NoDup(Merged(s, t))
  {
  }

  /** A cycle that avoids both slots is untouched by the swap. */
  lemma OtherCycle(a: seq<int>, s: seq<int>, i: nat, j: nat)
    requires i < |a| && j < |a| && Cycle(a, s) && i !in s && j !in s
    ensures Cycle(SwapAt(a, i, j), s)
  {
    forall t: nat | t + 1 < |s| ensures Points(SwapAt(a, i, j), s, t) { assert Points(a, s, t); }
  }

  /** The cycles once the last has been joined into cycle o. */
  function Joins(cycles: seq<seq<int>>, o: nat): seq<seq<int>>
    requires o + 1 < |cycles| && |cycles[o]| > 0 && |Last(cycles)| > 0
  {
    cycles[..|cycles| - 1][o := Merged(cycles[o], Last(cycles))]
  }

  lemma MergedElems(s: seq<int>, t: seq<int>, x: int)
    requires |s| > 0 && |t| > 0
    ensures x in Merged(s, t) <==> x in s || x in t
  {
    assert s == [s[0]] + s[1..] && t == [t[0]] + t[1..];
  }

  lemma JoinsSlots(cycles: seq<seq<int>>, o: nat, n: nat)
    requires o + 1 < |cycles| && |cycles[o]| > 0 && |Last(cycles)| > 0
    requires InSlots(cycles, n) && AllSlots(cycles, n) && Disjoint(cycles)
    ensures InSlots(Joins(cycles, o), n) && AllSlots(Joins(cycles, o), n)
  {
    var t, c := |cycles| - 1, Joins(cycles, o);
    forall u | 0 <= u < |c[o]| ensures 1 <= c[o][u] < n { MergedElems(cycles[o], cycles[t], c[o][u]); }
    forall x | 1 <= x < n ensures OnSome(c, x) {
      assert OnSome(cycles, x);
      var q :| 0 <= q < |cycles| && x in cycles[q];
      MergedElems(cycles[o], cycles[t], x);
      assert x in c[if q == t then o else q];
    }
  }

  lemma JoinsDisjoint(cycles: seq<seq<int>>, o: nat)
    requires o + 1 < |cycles| && |cycles[o]| > 0 && |Last(cycles)| > 0 && Disjoint(cycles)
    ensures Disjoint(Joins(cycles, o))
  {
    var t, c := |cycles| - 1, Joins(cycles, o);
    forall i, j, u, v | 0 <= i < j < |c| && 0 <= u < |c[i]| && 0 <= v < |c[j]| ensures c[i][u] != c[j][v] {
      if i == o {
        MergedElems(cycles[o], cycles[t], c[i][u]);
      } else if j == o {
        MergedElems(cycles[o], cycles[t], c[j][v]);
      }
    }
  }

  lemma JoinsCycle(a: seq<int>, cycles: seq<seq<int>>, o: nat, q: nat)
    requires o + 1 < |cycles| < |a| && q + 1 < |cycles| && Disjoint(cycles)
    requires CycleAt(a, cycles, q) && CycleAt(a, cycles, o) && CycleAt(a, cycles, |cycles| - 1)
    ensures CycleAt(SwapAt(a, o + 1, |cycles|), Joins(cycles, o), q)
  {
    var t := |cycles| - 1;
    if q == o {
      MergedCycle(a, cycles[o], cycles[t]);
    } else {
      assert o + 1 !in cycles[q] && t + 1 !in cycles[q] by {
        assert cycles[o][0] == o + 1 && cycles[t][0] == t + 1;
      }
      OtherCycle(a, cycles[q], o + 1, t + 1);
    }
  }

  /** Swapping the slots where cycle o and the last cycle start joins the two. */
  lemma MergeCycles(a: seq<int>, cycles: seq<seq<int>>, o: nat)
    requires Cycles(a, cycles) && o + 1 < |cycles| < |a|
    ensures |cycles[o]| > 0 && |Last(cycles)| > 0
    ensures Cycles(SwapAt(a, o + 1, |cycles|), Joins(cycles, o))
  {
    var t := |cycles| - 1;
    assert CycleAt(a, cycles, o) && CycleAt(a, cycles, t);
    JoinsDisjoint(cycles, o);
    JoinsSlots(cycles, o, |a|);
    hide CycleAt, Disjoint, InSlots, AllSlots;
    var a', c := SwapAt(a, o + 1, |cycles|), Joins(cycles, o);
    forall q: nat | q < t ensures CycleAt(a', c, q) {
      assert CycleAt(a, cycles, q);
      JoinsCycle(a, cycles, o, q);
    }
  }

  /** One cycle only: it runs through every slot but slot 0. */
  lemma SingleCycle(a: seq<int>, cycles: seq<seq<int>>)
    requires Cycles(a, cycles) && |cycles| == 1
    ensures OneCycle(a, 1, Below(|a|) - {0})
  {
    var s := cycles[0];
    assert CycleAt(a, cycles, 0);
    forall x ensures x in s <==> x in Below(|a|) - {0} {
      if 1 <= x < |a| { assert OnSome(cycles, x); }
    }
    assert Elems(s) == Below(|a|) - {0};
    hide Cycles;
    CycleIsOneCycle(a, s, 1);
  }

  /** On a cycle of two or more slots, no slot keeps its frame. */
  lemma NoneStays(a: seq<int>, words: set<int>, x: int, y: int)
    requires OneCycle(a, 1, words) && x in words && y in words && x != y
    ensures 0 <= x < |a| && a[x] != x
  {
    OneCycleClosed(a, 1, words, x);
    OneCycleVisitsOnce(a, 1, words);
    assert Meets(a, 1, |words|, x) && Meets(a, 1, |words|, y);
    var t: nat :| t < |words| && Walk(a, 1, t) == x;
    var u: nat :| u < |words| && Walk(a, 1, u) == y;
    assert Walk(a, 1, t + 1) == a[x];
    if t + 1 < |words| {
      assert Walk(a, 1, t) != Walk(a, 1, t + 1);
    } else {
      assert a[x] == 1 == Walk(a, 1, 0);
    }
  }

  /** pages are the frames in the order a, with the first in place. */
  ghost predicate Placed(pages: seq<int>, a: seq<int>, frames: seq<int>) {
    && |pages| == |a| == |frames| > 0 && a[0] == 0 && multiset(pages) == multiset(frames)
    && (forall x | 0 <= x < |a| :: 0 <= a[x] < |frames| && pages[x] == frames[a[x]])
  }

  lemma PlacedStep(pages: seq<int>, a: seq<int>, frames: seq<int>, i: nat, j: nat)
    requires Placed(pages, a, frames) && 0 < i < |a| && 0 < j < |a|
    ensures Placed(SwapAt(pages, i, j), SwapAt(a, i, j), frames)
  {
    SwapSame(pages, i, j);
  }

  /** The pages once the rounds above i are done: round i exchanges page i + 1 and page 1 + rnd(i) % i. */
  function Drawn(frames: seq<int>, rnd: nat -> nat, i: nat): (r: seq<int>)
    requires |frames| > 0
    ensures |r| == |frames|
    decreases |frames| - i
  {
    if i + 2 >= |frames| then frames
    else SwapAt(Drawn(frames, rnd, i + 1), 1 + rnd(i + 1) % (i + 1), i + 2)
  }

  /** Rounds up to i leave the places above i + 1 alone. */
  lemma {:induction false} DrawnStays(frames: seq<int>, rnd: nat -> nat, i: nat, x: nat)
    requires i + 1 < x < |frames|
    ensures Drawn(frames, rnd, 0)[x] == Drawn(frames, rnd, i)[x]
  {
    hide SwapAt;
    if i > 0 {
      DrawnStays(frames, rnd, i - 1, x);
      SwapElsewhere(Drawn(frames, rnd, i), 1 + rnd(i) % i, i + 1, x);
    }
  }

  lemma DrawnFirst(frames: seq<int>, rnd: nat -> nat)
    requires |frames| > 0
    ensures Drawn(frames, rnd, if |frames| == 1 then 0 else |frames| - 2) == frames
  {
  }

  lemma DrawnTop(frames: seq<int>, rnd: nat -> nat, i: nat)
    requires 0 < |frames| <= i + 2
    ensures Drawn(frames, rnd, i) == frames
  {
  }

  lemma DrawnNext(frames: seq<int>, rnd: nat -> nat, i: nat)
    requires 0 < i && i + 1 < |frames|
    ensures 0 <= rnd(i) % i < i && |Drawn(frames, rnd, i)| == |frames|
    ensures Drawn(frames, rnd, i - 1) == SwapAt(Drawn(frames, rnd, i), rnd(i) % i + 1, i + 1)
  {
    hide SwapAt;
  }

  lemma DrawnRound(frames: seq<int>, rnd: nat -> nat, i: nat)
    requires i + 2 < |frames|
    ensures Drawn(frames, rnd, i)[i + 2] == Drawn(frames, rnd, i + 1)[1 + rnd(i + 1) % (i + 1)]
  {
  }

  lemma SwapElsewhere(s: seq<int>, a: nat, b: nat, x: nat)
    requires a < |s| && b < |s| && x < |s| && x != a && x != b
    ensures SwapAt(s, a, b)[x] == s[x]
  {
  }

  lemma {:induction false} DrawnSame(frames: seq<int>, rnd: nat -> nat, i: nat)
    requires |frames| > 0
    ensures multiset(Drawn(frames, rnd, i)) == multiset(frames)
    decreases |frames| - i
  {
    hide SwapAt;
    if i + 2 < |frames| {
      DrawnSame(frames, rnd, i + 1);
      SwapSame(Drawn(frames, rnd, i + 1), 1 + rnd(i + 1) % (i + 1), i + 2);
    }
  }

  lemma DrawnChoice(frames: seq<int>, rnd: nat -> nat, rnd': nat -> nat, i: nat)
    requires NoDup(frames) && i + 2 < |frames| && Drawn(frames, rnd, 0) == Drawn(frames, rnd', 0)
    requires Drawn(frames, rnd, i + 1) == Drawn(frames, rnd', i + 1)
    ensures rnd(i + 1) % (i + 1) == rnd'(i + 1) % (i + 1)
    ensures Drawn(frames, rnd, i) == Drawn(frames, rnd', i)
  {
    hide Drawn, SwapAt, NoDup;
    var s, o, o' := Drawn(frames, rnd, i + 1), rnd(i + 1) % (i + 1), rnd'(i + 1) % (i + 1);
    ModInside(rnd(i + 1), i + 1);
    ModInside(rnd'(i + 1), i + 1);
    DrawnNoDup(frames, rnd, i + 1);
    DrawnStays(frames, rnd, i, i + 2);
    DrawnStays(frames, rnd', i, i + 2);
    DrawnRound(frames, rnd, i);
    DrawnRound(frames, rnd', i);
    assert s[1 + o] == s[1 + o'];
    SamePlace(s, 1 + o, 1 + o');
    DrawnNext(frames, rnd, i + 1);
    DrawnNext(frames, rnd', i + 1);
  }

  lemma SamePlace(s: seq<int>, x: nat, y: nat)
    requires NoDup(s) && x < |s| && y < |s| && s[x] == s[y]
    ensures x == y
  {
  }

  lemma DrawnNoDup(frames: seq<int>, rnd: nat -> nat, i: nat)
    requires NoDup(frames) && |frames| > 0
    ensures NoDup(Drawn(frames, rnd, i))
  {
    hide Drawn, NoDup;
    DrawnSame(frames, rnd, i);
    NoDupMultiset(Drawn(frames, rnd, i));
    NoDupMultiset(frames);
  }

  /** Different choices give different orders: the order of the pages tells every choice made. */
  lemma {:induction false} DrawnTells(frames: seq<int>, rnd: nat -> nat, rnd': nat -> nat, i: nat)
    requires NoDup(frames) && |frames| > 0 && Drawn(frames, rnd, 0) == Drawn(frames, rnd', 0)
    ensures Drawn(frames, rnd, i) == Drawn(frames, rnd', i)
    ensures forall j: nat | i < j < |frames| - 1 :: rnd(j) % j == rnd'(j) % j
    decreases |frames| - i
  {
    if i + 2 >= |frames| {
      DrawnTop(frames, rnd, i);
      DrawnTop(frames, rnd', i);
    } else {
      hide *;
      DrawnTells(frames, rnd, rnd', i + 1);
      DrawnChoice(frames, rnd, rnd', i);
    }
  }

  /** frames are the pages as allocated; rnd(i) % i is the random choice made at step i. */
  method ShufflePages(frames: seq<int>, rnd: nat -> nat) returns (pages: seq<int>, ghost a: seq<int>)
    requires |frames| > 0
    ensures Placed(pages, a, frames)
    ensures |frames| >= 2 ==> OneCycle(a, 1, Below(|frames|) - {0})
    ensures pages == Drawn(frames, rnd, 0)
    ensures |pages| == |frames| && multiset(pages) == multiset(frames) && pages[0] == frames[0]
    ensures |frames| >= 3 && NoDup(frames) ==> forall x | 1 <= x < |frames| :: pages[x] != frames[x]
  {
    pages, a := frames, Identity(|frames|);
    IdentityCycles(|frames|);
    ghost var cycles: seq<seq<int>> := seq(|frames| - 1, q requires 0 <= q < |frames| - 1 => [q + 1]);
    assert Placed(pages, a, frames);
    PlacedSize(pages, a, frames);
    DrawnFirst(frames, rnd);
    hide *;
    var i := |frames| - 2;
    while i > 0
      invariant i <= |frames| - 2 && |pages| == |a| == |frames|
      invariant Placed(pages, a, frames) && pages == Drawn(frames, rnd, if i < 0 then 0 else i)
      invariant Cycles(a, cycles) && (|frames| >= 2 ==> |cycles| == i + 1 && i >= 0)
    {
      var o := rnd(i) % i;
      ModInside(rnd(i), i);
      MergeCycles(a, cycles, o);
      JoinsCount(cycles, o);
      PlacedStep(pages, a, frames, o + 1, i + 1);
      DrawnNext(frames, rnd, i);
      cycles := Joins(cycles, o);
      a := SwapAt(a, o + 1, i + 1);
      pages := SwapAt(pages, o + 1, i + 1);
      PlacedSize(pages, a, frames);
      i := i - 1;
    }
    if |frames| >= 2 { SingleCycle(a, cycles); }
    Displaced(pages, a, frames);
  }

  lemma Displaced(pages: seq<int>, a: seq<int>, frames: seq<int>)
    requires Placed(pages, a, frames) && (|frames| >= 2 ==> OneCycle(a, 1, Below(|frames|) - {0}))
    ensures |pages| == |frames| && multiset(pages) == multiset(frames) && pages[0] == frames[0]
    ensures |frames| >= 3 && NoDup(frames) ==> forall x | 1 <= x < |frames| :: pages[x] != frames[x]
  {
    if |frames| >= 3 && NoDup(frames) {
      hide OneCycle;
      forall x | 1 <= x < |frames| ensures pages[x] != frames[x] {
        NoneStays(a, Below(|frames|) - {0}, x, if x == 1 then 2 else 1);
      }
    }
  }

  lemma PlacedSize(pages: seq<int>, a: seq<int>, frames: seq<int>)
    requires Placed(pages, a, frames)
    ensures |pages| == |a| == |frames|
  {
  }

  lemma JoinsCount(cycles: seq<seq<int>>, o: nat)
    requires o + 1 < |cycles| && |cycles[o]| > 0 && |Last(cycles)| > 0
    ensures |Joins(cycles, o)| == |cycles| - 1
  {
  }

  // ----- the chain: one word on each page

  function Stops(pages: seq<int>, lines: seq<int>): seq<int>
    requires |lines| > 0
  {
    seq(|pages|, i requires 0 <= i < |pages| => pages[i] + lines[i % |lines|])
  }

  lemma StopsCycle(m: seq<int>, pages: seq<int>, lines: seq<int>, pagesize: int)
    requires Separated(pages, pagesize, |m|) && Separated(lines, 1, pagesize) && |pages| > 0 && |lines| > 0
    requires forall x: nat | x + 1 < |pages| :: Points(m, Stops(pages, lines), x)
    requires m[Last(Stops(pages, lines))] == Stops(pages, lines)[0]
    ensures OneCycle(m, Stops(pages, lines)[0], Elems(Stops(pages, lines))) && NoDup(Stops(pages, lines))
    ensures WalksInOrder(m, Stops(pages, lines)[0], Stops(pages, lines))
  {
    var s := Stops(pages, lines);
    forall i | 0 <= i < |s| ensures pages[i] <= s[i] < pages[i] + pagesize { ModInside(i, |lines|); }
    CycleIsOneCycle(m, s, s[0]);
  }

  lemma ModInside(i: nat, n: nat)
    requires n > 0
    ensures 0 <= i % n < n && 0 % n == 0
  {
  }

  lemma StopsInside(pages: seq<int>, lines: seq<int>, pagesize: int, bound: int, i: nat, n: nat)
    requires Separated(pages, pagesize, bound) && Separated(lines, 1, pagesize) && i < |pages| && |lines| == n > 0
    ensures |Stops(pages, lines)| == |pages| && Stops(pages, lines)[i] == pages[i] + lines[i % n]
    ensures pages[i] <= Stops(pages, lines)[i] < pages[i] + pagesize && 0 <= Stops(pages, lines)[i] < bound
  {
    ModInside(i, n);
  }

  lemma StopsApart(pages: seq<int>, lines: seq<int>, pagesize: int, bound: int, x: nat, i: nat)
    requires Separated(pages, pagesize, bound) && Separated(lines, 1, pagesize) && x < |pages| && i < |pages| &&
             x != i && |lines| > 0
    ensures Stops(pages, lines)[x] != Stops(pages, lines)[i]
  {
    StopsInside(pages, lines, pagesize, bound, x, |lines|);
    StopsInside(pages, lines, pagesize, bound, i, |lines|);
  }

  /** The first i stops lead on. */
  ghost predicate Linking(m: seq<int>, s: seq<int>, i: nat)
    requires i < |s|
  {
    forall x: nat | x < i :: Points(m, s, x)
  }

  lemma LinkingStep(m: seq<int>, s: seq<int>, i: nat, to: int)
    requires i < |s| && 0 <= s[i] < |m| && Linking(m, s, i) && forall x | 0 <= x < |s| && x != i :: s[x] != s[i]
    ensures Linking(m[s[i] := to], s, i)
    ensures i + 1 < |s| && to == s[i + 1] ==> Linking(m[s[i] := to], s, i + 1)
  {
    var m' := m[s[i] := to];
    forall x: nat | x < i ensures Points(m', s, x) { assert Points(m, s, x); }
  }

  lemma StopStep(m: seq<int>, pages: seq<int>, lines: seq<int>, pagesize: int, i: nat, j: nat)
    requires Separated(pages, pagesize, |m|) && Separated(lines, 1, pagesize) && i < |pages| && j < |pages| &&
             |lines| > 0
    requires |Stops(pages, lines)| == |pages| && Linking(m, Stops(pages, lines), i)
    ensures var s := Stops(pages, lines);
            && s[i] == pages[i] + lines[i % |lines|] && s[j] == pages[j] + lines[j % |lines|] && 0 <= s[i] < |m|
            && Linking(m[s[i] := s[j]], s, i) && (j == i + 1 ==> Linking(m[s[i] := s[j]], s, j))
  {
    var s := Stops(pages, lines);
    hide Linking, Separated;
    StopsInside(pages, lines, pagesize, |m|, i, |lines|);
    StopsInside(pages, lines, pagesize, |m|, j, |lines|);
    forall x: nat | x < |s| && x != i ensures s[x] != s[i] { StopsApart(pages, lines, pagesize, |m|, x, i); }
    LinkingStep(m, s, i, s[j]);
  }

  /** The loop of tlb_initialize that runs through the pages. */
  method LinkStops(mem: array<int>, pages: seq<int>, lines: seq<int>, ghost pagesize: nat)
    requires Separated(pages, pagesize, mem.Length) && Separated(lines, 1, pagesize) && |pages| > 0 && |lines| > 0
    modifies mem
    ensures OneCycle(mem[..], pages[0] + lines[0], Elems(Stops(pages, lines)))
    ensures WalksInOrder(mem[..], pages[0] + lines[0], Stops(pages, lines))
  {
    ghost var s := Stops(pages, lines);
    var i := 0;
    assert Linking(mem[..], s, 0) && |s| == |pages|;
    hide *;
    while i < |pages| - 1
      invariant 0 <= i < |pages| == |s| && Linking(mem[..], s, i)
    {
      StopStep(mem[..], pages, lines, pagesize, i, i + 1);
      ghost var m := mem[..];
      ModInside(i, |lines|);
      ModInside(i + 1, |lines|);
      mem[pages[i] + lines[i % |lines|]] := pages[i + 1] + lines[(i + 1) % |lines|];
      assert mem[..] == m[s[i] := s[i + 1]];
      i := i + 1;
    }
    StopStep(mem[..], pages, lines, pagesize, i, 0);
    ModInside(i, |lines|);
    ModInside(0, |lines|);
    ghost var m := mem[..];
    mem[pages[i] + lines[i % |lines|]] := pages[0] + lines[0];
    assert mem[..] == m[s[i] := s[0]];
    LinkingAll(mem[..], s);
    StopsCycle(mem[..], pages, lines, pagesize);
  }

  /** Pages visited fewer than |lines| steps after one another are read at different offsets. */
  lemma OffsetsDiffer(pages: seq<int>, lines: seq<int>, x: nat, y: nat)
    requires NoDup(lines) && x < y < |pages| && y < x + |lines|
    ensures Stops(pages, lines)[x] - pages[x] != Stops(pages, lines)[y] - pages[y]
  {
    var n := |lines|;
    ModInside(x, n);
    ModInside(y, n);
    if x % n == y % n { SameRest(x, y, n); }
  }

  lemma LinkingAll(m: seq<int>, s: seq<int>)
    requires |s| > 0 && Linking(m, s, |s| - 1)
    ensures forall x: nat | x + 1 < |s| :: Points(m, s, x)
  {
  }

  /** The pages of mem are allocated one by one; frames says where each of them ended up. */
  method TlbInitialize(mem: array<int>, frames: seq<int>, pagesize: nat, rnd: nat -> nat)
    returns (pages: seq<int>, lines: seq<int>, ghost a: seq<int>)
    requires IsPow2(pagesize) && |frames| > 0 && Separated(frames, pagesize, mem.Length)
    modifies mem
    ensures Placed(pages, a, frames) && lines == WordOrder(pagesize, 1)
    ensures |frames| >= 2 ==> OneCycle(a, 1, Below(|frames|) - {0})
    ensures |frames| >= 3 ==> forall x | 1 <= x < |frames| :: pages[x] != frames[x]
    ensures pages == Drawn(frames, rnd, 0)
    ensures OneCycle(mem[..], frames[0], Elems(Stops(pages, lines)))
    ensures WalksInOrder(mem[..], frames[0], Stops(pages, lines))
    ensures forall x: nat | x < |pages| :: Stops(pages, lines)[x] == pages[x] + lines[x % |lines|]
    ensures forall x: nat | x < |pages| :: pages[x] <= Stops(pages, lines)[x] < pages[x] + pagesize
  {
    TlbFrames(frames, pagesize, mem.Length);
    hide *;
    var table := WordsInitialize(pagesize, 1);
    lines := table[..];
    pages, a := ShufflePages(frames, rnd);
    TlbReady(pages, lines, frames, pagesize, mem.Length);
    LinkStops(mem, pages, lines, pagesize);
  }

  lemma TlbFrames(frames: seq<int>, pagesize: nat, bound: int)
    requires IsPow2(pagesize) && |frames| > 0 && Separated(frames, pagesize, bound)
    ensures pagesize > 0 && NoDup(frames)
  {
  }

  lemma TlbReady(pages: seq<int>, lines: seq<int>, frames: seq<int>, pagesize: nat, bound: int)
    requires IsPow2(pagesize) && |frames| > 0 && Separated(frames, pagesize, bound)
    requires multiset(pages) == multiset(frames) && |pages| == |frames| && lines == WordOrder(pagesize, 1)
    ensures |pages| > 0 && |lines| > 0 && lines[0] == 0
    ensures Separated(pages, pagesize, bound) && Separated(lines, 1, pagesize)
    ensures |Stops(pages, lines)| == |pages|
    ensures forall x: nat | x < |pages| ::
              Stops(pages, lines)[x] == pages[x] + lines[x % |lines|] < pages[x] + pagesize &&
              lines[x % |lines|] >= 0
  {
    LinesFit(1, pagesize);
    SameEntriesSeparated(pages, frames, pagesize, bound);
    hide Separated, WordOrder, Stops, IsPow2;
    forall x: nat | x < |pages|
      ensures Stops(pages, lines)[x] == pages[x] + lines[x % |lines|] < pages[x] + pagesize
      ensures lines[x % |lines|] >= 0
    {
      StopsInside(pages, lines, pagesize, bound, x, |lines|);
    }
  }

  // ----- stride_initialize

  /** Every stride-th word up to the end of the buffer, in order, and back to the start. */
  method StrideInitialize(state: MemState, rnd: nat -> nat)
    requires state.Sizes()
    modifies state, state.p
    ensures state.len == old(state.len) && state.line == old(state.line) && state.p == old(state.p) && fresh(state.mem)
    ensures state.p[0] == 0
    ensures OneCycle(state.mem[..], 0, Elems(Multiples(NPages(state.len, state.line), state.line)))
    ensures WalksInOrder(state.mem[..], 0, Multiples(NPages(state.len, state.line), state.line))
  {
    state.BaseInitialize(rnd);
    assert state.line > 0;
    hide OneCycle, Elems, Multiples, NPages;
    LinkStrides(state.mem, state.len, state.line);
    state.p[0] := 0;
  }

  method LinkStrides(mem: array<int>, range: nat, stride: nat)
    requires 0 < stride && 0 < range <= mem.Length
    modifies mem
    ensures OneCycle(mem[..], 0, Elems(Multiples(NPages(range, stride), stride)))
    ensures WalksInOrder(mem[..], 0, Multiples(NPages(range, stride), stride))
  {
    ghost var n := NPages(range, stride);
    ghost var s := Multiples(n, stride);
    CeilBounds(range, stride);
    assert 0 < n && (n - 1) * stride < range <= n * stride;
    MultiplesSeparated(n, stride);
    assert Linking(mem[..], s, 0);
    hide Linking, OneCycle, NPages, Elems;
    var i := stride;
    ghost var k := 0;
    while i < range
      invariant k < n && i == (k + 1) * stride && Linking(mem[..], s, k)
      decreases n - k
    {
      StrideStep(range, stride, n, k);
      StrideStep(range, stride, n, k + 1);
      LinkingStep(mem[..], s, k, s[k + 1]);
      ghost var m := mem[..];
      mem[i - stride] := i;
      assert mem[..] == m[s[k] := s[k + 1]];
      i, k := i + stride, k + 1;
    }
    StrideStep(range, stride, n, k);
    LinkingStep(mem[..], s, k, 0);
    ghost var m := mem[..];
    mem[i - stride] := 0;
    assert mem[..] == m[s[k] := 0];
    LinkingAll(mem[..], s);
    CycleIsOneCycle(mem[..], s, 0);
  }

  lemma StrideStep(range: nat, stride: nat, n: nat, k: nat)
    requires 0 < stride && k < n && (n - 1) * stride < range <= n * stride
    ensures 0 <= k * stride < range && (k + 1) * stride == k * stride + stride
    ensures (k + 1) * stride < range <==> k + 1 < n
  {
    MulMonotone(0, k, stride);
    MulMonotone(k, n - 1, stride);
    if k + 1 < n { MulMonotone(k + 1, n - 1, stride); }
  }
}
