/**
 lib_mem.c: stride_initialize and thrash_initialize.

 thrash_initialize goes to another page at every step: in lane j it visits slot (i + j) mod n of
 page i, page after page, and then starts the next lane.
 */
module Thrash {
  import opened Arith
  import opened Chains
  import opened PageChains
  import opened BitOrder
  import opened MemInit
  import opened PageTables
  import opened MemFacts
  import opened LibMem

  // ----- rotation of the slots

  function Slot(i: nat, j: nat, n: nat): (r: nat)
    requires n > 0
    ensures r < n
  {
    (i + j) % n
  }

  lemma SlotInjective(i: nat, j: nat, j': nat, n: nat)
    requires 0 < n && j <= j' < n && Slot(i, j, n) == Slot(i, j', n)
    ensures j == j'
  {
    var q, q' := (i + j) / n, (i + j') / n;
    assert (q' - q) * n == j' - j;
    if q' - q > 0 { MulMonotone(1, q' - q, n); }
    if q' - q < 0 { MulMonotone(q' - q, -1, n); }
  }

  /** The lane in which page i is visited at slot s. */
  lemma SlotOnto(i: nat, s: nat, n: nat) returns (j: nat)
    requires s < n
    ensures j < n && Slot(i, j, n) == s
  {
    j := (s - i) % n;
    var q := (s - i) / n;
    assert s - i == q * n + j;
    assert i + j == (-q) * n + s;
    DivUnique(i + j, n, -q, s);
  }

  function Spot(pages: seq<int>, slots: seq<int>, i: nat, j: nat): int
    requires i < |pages| && |slots| > 0
  {
    pages[i] + slots[Slot(i, j, |slots|)]
  }

  /** Where the visit of page i in lane j leads: the next page, or the first page in the next lane. */
  function NextSpot(pages: seq<int>, slots: seq<int>, i: nat, j: nat): int
    requires i < |pages| && |slots| > 0
  {
    if i + 1 < |pages| then pages[i + 1] + slots[Slot(i, j + 1, |slots|)] else pages[0] + slots[Slot(0, j + 1, |slots|)]
  }

  ghost predicate LaneLink(m: seq<int>, pages: seq<int>, slots: seq<int>, i: nat, j: nat)
    requires i < |pages| && |slots| > 0
  {
    0 <= Spot(pages, slots, i, j) < |m| && m[Spot(pages, slots, i, j)] == NextSpot(pages, slots, i, j)
  }

  /** Pages before i, and page i in lanes before j, are linked. */
  ghost predicate LanesDone(m: seq<int>, pages: seq<int>, slots: seq<int>, i: nat, j: nat)
    requires |slots| > 0
  {
    forall x: nat, y: nat | x < |pages| && y < |slots| && (x < i || (x == i && y < j)) ::
    LaneLink(m, pages, slots, x, y)
  }

  ghost predicate Roomy(pages: seq<int>, slots: seq<int>, pagesize: int, bound: int) {
    Separated(pages, pagesize, bound) && Separated(slots, 1, pagesize)
  }

  lemma SpotsApart(pages: seq<int>, slots: seq<int>, pagesize: int, bound: int, i: nat, j: nat, x: nat, y: nat)
    requires Roomy(pages, slots, pagesize, bound) && i < |pages| && x < |pages| && j < |slots| && y < |slots|
    requires Spot(pages, slots, i, j) == Spot(pages, slots, x, y)
    ensures i == x && j == y
  {
    if i == x {
      if j <= y { SlotInjective(i, j, y, |slots|); } else { SlotInjective(i, y, j, |slots|); }
    }
  }

  lemma LanesStep(m: seq<int>, pages: seq<int>, slots: seq<int>, pagesize: int, i: nat, j: nat)
    requires Roomy(pages, slots, pagesize, |m|) && i < |pages| && j < |slots| && LanesDone(m, pages, slots, i, j)
    ensures 0 <= Spot(pages, slots, i, j) < |m|
    ensures LanesDone(m[Spot(pages, slots, i, j) := NextSpot(pages, slots, i, j)], pages, slots, i, j + 1)
  {
    var m' := m[Spot(pages, slots, i, j) := NextSpot(pages, slots, i, j)];
    forall x: nat, y: nat | x < |pages| && y < |slots| && (x < i || (x == i && y < j + 1))
      ensures LaneLink(m', pages, slots, x, y)
    {
      if x != i || y != j {
        assert LaneLink(m, pages, slots, x, y);
        if Spot(pages, slots, i, j) == Spot(pages, slots, x, y) {
          SpotsApart(pages, slots, pagesize, |m|, i, j, x, y);
        }
      }
    }
  }

  lemma LanesPage(m: seq<int>, pages: seq<int>, slots: seq<int>, i: nat)
    requires |slots| > 0 && LanesDone(m, pages, slots, i, |slots|)
    ensures LanesDone(m, pages, slots, i + 1, 0)
  {
  }

  lemma NoLanes(m: seq<int>, pages: seq<int>, slots: seq<int>)
    requires |slots| > 0
    ensures LanesDone(m, pages, slots, 0, 0)
  {
  }

  /** One pass of the inner loop: every slot of page cpage is made to point into page npage. */
  method RotatePage(mem: array<int>, pages: seq<int>, slots: seq<int>, ghost pagesize: nat, i: nat)
    requires Roomy(pages, slots, pagesize, mem.Length) && i < |pages| && |slots| > 0
    requires LanesDone(mem[..], pages, slots, i, 0)
    modifies mem
    ensures LanesDone(mem[..], pages, slots, i + 1, 0)
  {
    hide LanesDone, Roomy, LaneLink;
    var cpage, npage, k := pages[i], pages[0], 0;
    if i < |pages| - 1 {
      npage, k := pages[i + 1], i;
    }
    var j := 0;
    while j < |slots|
      invariant j <= |slots| && LanesDone(mem[..], pages, slots, i, j)
    {
      ghost var m := mem[..];
      LanesStep(m, pages, slots, pagesize, i, j);
      var cur := cpage + slots[Slot(i, j, |slots|)];
      var next := npage + slots[Slot(k, j + 1, |slots|)];
      mem[cur] := next;
      assert mem[..] == m[Spot(pages, slots, i, j) := NextSpot(pages, slots, i, j)];
      j := j + 1;
    }
    LanesPage(mem[..], pages, slots, i);
  }

  method RotatePages(mem: array<int>, pages: seq<int>, slots: seq<int>, ghost pagesize: nat)
    requires Roomy(pages, slots, pagesize, mem.Length) && |slots| > 0
    modifies mem
    ensures LanesDone(mem[..], pages, slots, |pages|, 0)
  {
    NoLanes(mem[..], pages, slots);
    hide LanesDone, Roomy;
    var i := 0;
    while i < |pages|
      invariant i <= |pages| && LanesDone(mem[..], pages, slots, i, 0)
    {
      RotatePage(mem, pages, slots, pagesize, i);
      i := i + 1;
    }
  }

  // ----- the cycle of lanes

  function Lane(pages: seq<int>, slots: seq<int>, j: nat): seq<int>
    requires |slots| > 0
  {
    seq(|pages|, i requires 0 <= i < |pages| => Spot(pages, slots, i, j))
  }

  function Lanes(pages: seq<int>, slots: seq<int>): seq<seq<int>>
    requires |slots| > 0
  {
    seq(|slots|, j requires 0 <= j < |slots| => Lane(pages, slots, j))
  }

  lemma LaneRun(m: seq<int>, pages: seq<int>, slots: seq<int>, j: nat)
    requires |pages| > 0 && j < |slots| && LanesDone(m, pages, slots, |pages|, 0)
    ensures Run(m, Lanes(pages, slots), j)
    ensures j + 1 < |slots| ==> Joined(m, Lanes(pages, slots), j)
    ensures j + 1 == |slots| ==> m[Last(Lane(pages, slots, j))] == pages[0] + slots[0]
  {
    var s := Lane(pages, slots, j);
    forall t: nat | t < |s| ensures 0 <= s[t] < |m| && (t + 1 < |s| ==> Points(m, s, t)) {
      assert LaneLink(m, pages, slots, t, j);
    }
    assert LaneLink(m, pages, slots, |pages| - 1, j);
    if j + 1 == |slots| { DivUnique(j + 1, |slots|, 1, 0); }
  }

  lemma LanesNoDup(pages: seq<int>, slots: seq<int>, pagesize: int, bound: int)
    requires Roomy(pages, slots, pagesize, bound) && |slots| > 0
    ensures NoDup(Flatten(Lanes(pages, slots)))
  {
    var ss := Lanes(pages, slots);
    forall i, j, u, v | 0 <= i < j < |ss| && 0 <= u < |ss[i]| && 0 <= v < |ss[j]| ensures ss[i][u] != ss[j][v] {
      if ss[i][u] == ss[j][v] { SpotsApart(pages, slots, pagesize, bound, u, i, v, j); }
    }
    forall j | 0 <= j < |ss| ensures NoDup(ss[j]) {
      forall u, v | 0 <= u < v < |ss[j]| ensures ss[j][u] != ss[j][v] {
        if ss[j][u] == ss[j][v] { SpotsApart(pages, slots, pagesize, bound, u, j, v, j); }
      }
    }
    FlattenNoDup(ss);
  }

  /** Every slot of every page lies in exactly the lanes' spots. */
  lemma LanesElems(pages: seq<int>, slots: seq<int>)
    requires |slots| > 0
    ensures Elems(Flatten(Lanes(pages, slots))) == Cells(pages, slots, [0])
  {
    var ss := Lanes(pages, slots);
    forall a ensures a in Flatten(ss) <==> a in Cells(pages, slots, [0]) {
      FlattenElems(ss, a);
      if j :| 0 <= j < |ss| && a in ss[j] {
        var i :| 0 <= i < |pages| && ss[j][i] == a;
        assert pages[i] in pages && slots[Slot(i, j, |slots|)] in slots && 0 in [0];
        assert a == pages[i] + slots[Slot(i, j, |slots|)] + 0;
      }
      if p, l, o :| p in pages && l in slots && o in [0] && a == p + l + o {
        var i: nat :| i < |pages| && pages[i] == p;
        var q: nat :| q < |slots| && slots[q] == l;
        var j := SlotOnto(i, q, |slots|);
        assert ss[j][i] == a;
      }
    }
  }

  lemma LanesRuns(m: seq<int>, pages: seq<int>, slots: seq<int>)
    requires |pages| > 0 && |slots| > 0 && LanesDone(m, pages, slots, |pages|, 0)
    ensures RunsLinked(m, Lanes(pages, slots))
  {
    var ss := Lanes(pages, slots);
    hide LanesDone, Run, Joined;
    forall j: nat | j < |ss| ensures Run(m, ss, j) { LaneRun(m, pages, slots, j); }
    forall j: nat | j + 1 < |ss| ensures Joined(m, ss, j) { LaneRun(m, pages, slots, j); }
  }

  lemma LanesClose(m: seq<int>, pages: seq<int>, slots: seq<int>)
    requires |pages| > 0 && |slots| > 0 && LanesDone(m, pages, slots, |pages|, 0)
    ensures var ss := Lanes(pages, slots);
            && |ss| > 0 && |ss[0]| > 0 && ss[0][0] == pages[0] + slots[0]
            && |Last(ss)| > 0 && 0 <= Last(Last(ss)) < |m| && m[Last(Last(ss))] == ss[0][0]
  {
    var n := |slots| - 1;
    assert Last(Lanes(pages, slots)) == Lane(pages, slots, n);
    FirstSpot(pages, slots);
    LastSpot(m, pages, slots, n);
    hide LanesDone, Slot;
    LaneRun(m, pages, slots, n);
  }

  lemma LanesRing(m: seq<int>, pages: seq<int>, slots: seq<int>)
    requires |pages| > 0 && |slots| > 0 && NoDup(Flatten(Lanes(pages, slots)))
    requires LanesDone(m, pages, slots, |pages|, 0)
    ensures OneCycle(m, pages[0] + slots[0], Elems(Flatten(Lanes(pages, slots))))
  {
    LanesClose(m, pages, slots);
    hide *;
    LanesRuns(m, pages, slots);
    RingIsCycle(m, Lanes(pages, slots));
    CycleIsOneCycle(m, Flatten(Lanes(pages, slots)), pages[0] + slots[0]);
  }

  /** For any number of slots the rotated layout is one cycle through every slot of every page. */
  lemma LanesCycle(m: seq<int>, pages: seq<int>, slots: seq<int>, pagesize: int)
    requires Roomy(pages, slots, pagesize, |m|) && |pages| > 0 && |slots| > 0
    requires LanesDone(m, pages, slots, |pages|, 0)
    ensures OneCycle(m, pages[0] + slots[0], Cells(pages, slots, [0]))
  {
    hide *;
    LanesNoDup(pages, slots, pagesize, |m|);
    LanesRing(m, pages, slots);
    LanesElems(pages, slots);
  }

  lemma FirstSpot(pages: seq<int>, slots: seq<int>)
    requires |pages| > 0 && |slots| > 0
    ensures Lanes(pages, slots)[0][0] == pages[0] + slots[0]
  {
    DivUnique(0, |slots|, 0, 0);
  }

  lemma LastSpot(m: seq<int>, pages: seq<int>, slots: seq<int>, n: nat)
    requires |pages| > 0 && n < |slots| && LanesDone(m, pages, slots, |pages|, 0)
    ensures 0 <= Last(Lane(pages, slots, n)) < |m|
  {
    assert LaneLink(m, pages, slots, |pages| - 1, n);
  }

  /** Each step goes to the page after the current one in the page table, so with two or more pages
      never to the same page. */
  lemma NextPageEachStep(m: seq<int>, pages: seq<int>, slots: seq<int>, pagesize: int, i: nat, q: nat)
    requires i < |pages| && q < |slots|
    requires Roomy(pages, slots, pagesize, |m|) && LanesDone(m, pages, slots, |pages|, 0)
    ensures var next := if i + 1 < |pages| then pages[i + 1] else pages[0];
            && 0 <= pages[i] + slots[q] < |m|
            && next <= m[pages[i] + slots[q]] < next + pagesize
            && (|pages| >= 2 ==> !(pages[i] <= m[pages[i] + slots[q]] < pages[i] + pagesize))
  {
    var j := SlotOnto(i, q, |slots|);
    assert LaneLink(m, pages, slots, i, j);
  }

  // ----- a buffer that is not a whole number of pages: one list of lines

  /** Whatever the list leads to, it is an entry of the list again. */
  ghost predicate Trapped(m: seq<int>, s: seq<int>) {
    forall a | a in s :: 0 <= a < |m| && m[a] in s
  }

  lemma {:induction false} TrappedWalk(m: seq<int>, s: seq<int>, start: int, t: nat)
    requires Trapped(m, s) && start in s
    ensures Walk(m, start, t) in s
  {
    if t > 0 { TrappedWalk(m, s, start, t - 1); }
  }

  ghost predicate ListDone(m: seq<int>, s: seq<int>, i: nat) {
    && (forall x | 0 <= x < |s| :: 0 <= s[x] < |m|)
    && (forall x | 0 <= x < i && x < |s| :: m[s[x]] in s)
    && (NoDup(s) ==> forall x: nat | x < i && x + 1 < |s| :: Points(m, s, x))
  }

  lemma ListStep(m: seq<int>, s: seq<int>, i: nat)
    requires i < |s| && ListDone(m, s, i)
    ensures i + 1 < |s| ==> ListDone(m[s[i] := s[i + 1]], s, i + 1)
    ensures i + 1 == |s| && s[0] == 0 ==> Trapped(m[s[i] := 0], s) && (NoDup(s) ==> Cycle(m[s[i] := 0], s))
  {
    if i + 1 < |s| {
      var m' := m[s[i] := s[i + 1]];
      if NoDup(s) {
        forall x: nat | x < i + 1 ensures Points(m', s, x) {
          if x < i { assert Points(m, s, x); }
        }
      }
    } else if s[0] == 0 {
      var m' := m[s[i] := 0];
      if NoDup(s) {
        forall x: nat | x + 1 < |s| ensures Points(m', s, x) { assert Points(m, s, x); }
      }
    }
  }

  /** Entry after entry, and from the last back to the start of the buffer. */
  method LinkList(mem: array<int>, s: seq<int>)
    requires |s| > 0 && s[0] == 0 && forall i | 0 <= i < |s| :: 0 <= s[i] < mem.Length
    modifies mem
    ensures NoDup(s) ==> Cycle(mem[..], s)
    ensures Trapped(mem[..], s)
  {
    var i := 0;
    assert ListDone(mem[..], s, 0);
    hide ListDone, NoDup, Cycle, Trapped;
    while i < |s| - 1
      invariant 0 <= i < |s| && ListDone(mem[..], s, i)
    {
      ListStep(mem[..], s, i);
      ghost var m := mem[..];
      mem[s[i]] := s[i + 1];
      assert mem[..] == m[s[i] := s[i + 1]];
      i := i + 1;
    }
    ListStep(mem[..], s, i);
    ghost var m := mem[..];
    mem[s[i]] := 0;
    assert mem[..] == m[s[i] := 0];
  }

  /** The bit-reversed list reaches all its multiples of line exactly when their number is a power of two;
      otherwise the entry at the leading bit comes out as 0 again and the last line is never reached. */
  lemma ListCycle(m: seq<int>, n: nat, line: nat)
    requires n > 0 && line > 0
    requires NoDup(WordOrder(n, line)) ==> Cycle(m, WordOrder(n, line))
    requires Trapped(m, WordOrder(n, line)) && WordOrder(n, line)[0] == 0
    ensures OneCycle(m, 0, Elems(Multiples(n, line))) <==> IsPow2(n)
  {
    WordOrderDistinct(n, line);
    NumBitsBounds(n);
    if IsPow2(n) {
      CycleIsOneCycle(m, WordOrder(n, line), 0);
      ListElems(NumBits(n), line);
    } else if OneCycle(m, 0, Elems(Multiples(n, line))) {
      LastLineMissed(m, n, line);
    }
  }

  lemma LastLineMissed(m: seq<int>, n: nat, line: nat)
    requires n > 0 && line > 0 && !IsPow2(n)
    requires Trapped(m, WordOrder(n, line)) && WordOrder(n, line)[0] == 0
    ensures !OneCycle(m, 0, Elems(Multiples(n, line)))
  {
    NumBitsBounds(n);
    var s, t, d := WordOrder(n, line), Multiples(n, line), NumBits(n);
    if OneCycle(m, 0, Elems(t)) {
      OneCycleVisitsOnce(m, 0, Elems(t));
      var a := Last(t);
      assert a in Elems(t) && Meets(m, 0, |Elems(t)|, a);
      var k: nat :| k < |Elems(t)| && Walk(m, 0, k) == a;
      TrappedWalk(m, s, 0, k);
      var i :| 0 <= i < |s| && s[i] == a;
      RevBound(d, i);
      ScaledApart(Rev(d, i), n - 1, line);
    }
  }

  lemma ListElems(d: nat, line: nat)
    ensures Elems(WordOrder(Pow2(d), line)) == Elems(Multiples(Pow2(d), line))
  {
    forall l ensures l in WordOrder(Pow2(d), line) <==> l in Multiples(Pow2(d), line) { OrderMultiples(d, line, l); }
  }

  lemma ListFits(n: nat, line: nat, bound: nat)
    requires n > 0 && line > 0 && n * line <= bound
    ensures WordOrder(n, line)[0] == 0
    ensures forall i | 0 <= i < n :: 0 <= WordOrder(n, line)[i] < bound
  {
    RevZero(NumBits(n));
    NumBitsBounds(n);
    forall i | 0 <= i < n ensures 0 <= WordOrder(n, line)[i] < bound {
      RevBound(NumBits(n), i);
      ScaledApart(Rev(NumBits(n), i), n, line);
    }
  }

  /** The state after a whole number of pages has been laid out. */
  ghost predicate PagesLaid(state: MemState)
    reads state, state.mem
  {
    && state.Based() && state.words == WordOrder(state.nlines, state.line) && |state.words| > 0
    && Roomy(state.pages[..state.npages], state.words, state.pagesize, state.mem.Length)
    && LanesDone(state.mem[..], state.pages[..state.npages], state.words, state.npages, 0)
  }

  method ThrashPages(state: MemState)
    requires state.Based() && state.Powers() && state.mem != state.p
    modifies state`nwords, state`words, state.mem, state.p
    ensures PagesLaid(state) && state.nwords == state.nlines && state.p[0] == state.pages[0]
    ensures OneCycle(state.mem[..], state.pages[0], Cells(state.pages[..state.npages], state.words, [0]))
  {
    state.nwords := state.pagesize / state.line;
    LinesFit(state.line, state.pagesize);
    var table := WordsInitialize(state.nwords, state.line);
    state.words := table[..];
    SomePagesFit(state);
    var pages := state.pages[..state.npages];
    hide Roomy, LanesDone, Cells, OneCycle, WordOrder, Separated, Shuffled, IsPow2, NPages;
    RotatePages(state.mem, pages, state.words, state.pagesize);
    LanesCycle(state.mem[..], pages, state.words, state.pagesize);
    state.p[0] := state.pages[0];
  }

  lemma SomePagesFit(state: MemState)
    requires state.Based() && state.Powers() && state.words == WordOrder(state.nlines, state.line)
    ensures Roomy(state.pages[..state.npages], state.words, state.pagesize, state.mem.Length)
    ensures |state.words| > 0 && state.words[0] == 0
  {
    LinesFit(state.line, state.pagesize);
  }

  method ThrashList(state: MemState)
    requires state.Based() && state.mem != state.p && state.len >= state.line && state.len <= state.mem.Length
    modifies state`nwords, state`words, state.mem, state.p
    ensures state.nwords == state.len / state.line > 0 && state.p[0] == 0
    ensures state.words == WordOrder(state.nwords, state.line)
    ensures OneCycle(state.mem[..], 0, Elems(Multiples(state.nwords, state.line))) <==> IsPow2(state.nwords)
  {
    state.nwords := state.len / state.line;
    ListRoom(state.len, state.line, state.nwords);
    var table := WordsInitialize(state.nwords, state.line);
    state.words := table[..];
    ListFits(state.nwords, state.line, state.mem.Length);
    hide OneCycle, Cycle, Trapped, IsPow2;
    LinkList(state.mem, state.words);
    ListCycle(state.mem[..], state.nwords, state.line);
    state.p[0] := 0;
  }

  method ThrashInitialize(state: MemState, rnd: nat -> nat)
    requires state.Sizes() && (if state.len % state.pagesize == 0 then state.Powers() else state.len >= state.line)
    modifies state, state.p
    ensures state.len == old(state.len) && state.line == old(state.line) && state.pagesize == old(state.pagesize)
    ensures state.p == old(state.p) && fresh(state.mem)
    ensures state.pages == Permuted(NPages(state.maxlen, state.pagesize), state.pagesize, rnd)
    ensures state.len % state.pagesize == 0 ==>
              && PagesLaid(state) && state.p[0] == state.pages[0]
              && OneCycle(state.mem[..], state.pages[0], Cells(state.pages[..state.npages], state.words, [0]))
    ensures state.len % state.pagesize != 0 ==>
              && state.nwords == state.len / state.line && state.p[0] == 0
              && (OneCycle(state.mem[..], 0, Elems(Multiples(state.nwords, state.line))) <==> IsPow2(state.nwords))
  {
    state.BaseInitialize(rnd);
    hide OneCycle, Cells, Elems, Multiples, PagesLaid;
    if state.len % state.pagesize != 0 {
      ThrashList(state);
    } else {
      ThrashPages(state);
    }
  }

  lemma ListRoom(len: nat, line: nat, n: int)
    requires 0 < line <= len && n == len / line
    ensures 0 < n && n * line <= len
  {
    AtLeastOne(line, len);
  }
}
