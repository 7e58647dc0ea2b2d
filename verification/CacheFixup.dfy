/**
 cache.c, pagesort and fixup_chunk: what they leave, as functions of the table and the clock's readings,
 and what their loops keep.
 */
module CacheFixup {
  import opened Arith
  import opened Chains
  import opened CacheTables

  /** Both tables exchange the same two entries. */
  function Pairs(pages: seq<int>, lat: seq<real>): seq<(int, real)>
    requires |pages| == |lat|
  {
    seq(|pages|, x requires 0 <= x < |pages| => (pages[x], lat[x]))
  }

  // ----- pagesort

  /** The first i latencies are in order and below the rest. */
  ghost predicate SortedTo(s: seq<real>, i: nat) {
    forall x, y | 0 <= x < i && x < y < |s| :: s[x] <= s[y]
  }

  /** Entry i is the least of entries i .. j-1. */
  ghost predicate LeastTo(s: seq<real>, i: nat, j: nat)
    requires i < |s|
  {
    forall y | i < y < j && y < |s| :: s[i] <= s[y]
  }

  lemma LeastStart(s: seq<real>, i: nat)
    requires i < |s|
    ensures LeastTo(s, i, i + 1)
  {
  }

  lemma SortStep(s: seq<real>, i: nat, j: nat)
    requires i < j < |s| && SortedTo(s, i) && LeastTo(s, i, j)
    ensures var t := if s[i] > s[j] then SwapAt(s, i, j) else s;
            SortedTo(t, i) && LeastTo(t, i, j + 1)
  {
  }

  lemma SortRound(s: seq<real>, i: nat)
    requires i < |s| && SortedTo(s, i) && LeastTo(s, i, |s|)
    ensures SortedTo(s, i + 1)
  {
  }

  lemma SortEnd(s: seq<real>, i: nat)
    requires |s| <= i + 1 && SortedTo(s, i)
    ensures SortedTo(s, |s|)
  {
  }

  lemma SliceLength(l: seq<real>, from: nat, n: nat)
    requires from + n <= |l|
    ensures |l[from..from + n]| == n
  {
  }

  lemma SliceIs(lat: array<real>, from: nat, n: nat)
    requires from + n <= lat.Length
    ensures lat[from..from + n] == lat[..][from..from + n]
  {
  }

  lemma SwapSlice(l: seq<real>, from: nat, n: nat, i: nat, j: nat)
    requires from + n <= |l| && i < n && j < n
    ensures SwapAt(l, from + i, from + j)[from..from + n] == SwapAt(l[from..from + n], i, j)
  {
  }

  /** Only the sorted parts changed, and they hold the same (page, latency) pairs. */
  ghost predicate SortedPart(p0: seq<int>, l0: seq<real>, p: seq<int>, l: seq<real>, at: nat, from: nat, n: nat) {
    && |p| == |p0| && |l| == |l0| && at + n <= |p| && from + n <= |l|
    && (forall x | 0 <= x < |p| && !(at <= x < at + n) :: p[x] == p0[x])
    && (forall x | 0 <= x < |l| && !(from <= x < from + n) :: l[x] == l0[x])
    && multiset(Pairs(p[at..at + n], l[from..from + n])) == multiset(Pairs(p0[at..at + n], l0[from..from + n]))
  }

  lemma PartStep(p0: seq<int>, l0: seq<real>, p: seq<int>, l: seq<real>, at: nat, from: nat, n: nat, i: nat, j: nat)
    requires SortedPart(p0, l0, p, l, at, from, n) && i < n && j < n
    ensures SortedPart(p0, l0, SwapAt(p, at + i, at + j), SwapAt(l, from + i, from + j), at, from, n)
  {
    hide Pairs;
    PairsSwap(p, l, at, from, n, i, j);
    SwapSame(Pairs(p[at..at + n], l[from..from + n]), i, j);
  }

  lemma PairsSwap(p: seq<int>, l: seq<real>, at: nat, from: nat, n: nat, i: nat, j: nat)
    requires at + n <= |p| && from + n <= |l| && i < n && j < n
    ensures |Pairs(p[at..at + n], l[from..from + n])| == n
    ensures Pairs(SwapAt(p, at + i, at + j)[at..at + n], SwapAt(l, from + i, from + j)[from..from + n]) ==
            SwapAt(Pairs(p[at..at + n], l[from..from + n]), i, j)
  {
  }

  // ----- fixup_chunk

  /** These pages were cheap enough to keep. */
  ghost predicate Kept(lat: seq<real>, from: nat, to: nat, base: real) {
    to <= |lat| && forall x | from <= x < to :: 0.995 * lat[x] <= base
  }

  ghost predicate Costly(lat: seq<real>, from: nat, to: nat, base: real) {
    to <= |lat| && forall x | from <= x < to :: 0.995 * lat[x] > base
  }

  ghost predicate Rising(lat: seq<real>, from: nat, to: nat) {
    to <= |lat| && forall x, y | from <= x < y < to :: lat[x] <= lat[y]
  }

  lemma NoneKept(lat: seq<real>, j: nat, base: real)
    requires j <= |lat|
    ensures Kept(lat, j, j, base)
  {
  }

  lemma NothingYet(pages: seq<int>, lat: seq<real>, base: real, chunk: nat, npages: nat)
    requires chunk <= |lat| && chunk <= npages
    ensures Kept(lat, 0, 0, base) && Costly(lat, chunk, chunk, base) &&
            SameOutside(pages, pages, npages - chunk, npages)
  {
  }

  lemma SortedRises(l: seq<real>, from: nat, n: nat)
    requires from + n <= |l| && SortedTo(l[from..from + n], n)
    ensures Rising(l, from, from + n)
  {
    forall x, y | from <= x < y < from + n ensures l[x] <= l[y] {
      assert l[from..from + n][x - from] == l[x] && l[from..from + n][y - from] == l[y];
    }
  }

  /** The last page in use was exchanged with the spare one, and the pages from the j-th on were sorted. */
  ghost predicate Settled(p0: seq<int>, l0: seq<real>, p: seq<int>, l: seq<real>, npages: nat, chunk: nat, j: nat,
                          spare: nat) {
    && j < chunk <= npages && npages <= spare < |p0| && chunk <= |l|
    && SortedPart(SwapAt(p0, npages - 1, spare), l0, p, l, npages - chunk + j, j, chunk - j)
    && SortedTo(l[j..j + (chunk - j)], chunk - j)
  }

  lemma SettledKeeps(s: seq<int>, p0: seq<int>, l0: seq<real>, p: seq<int>, l: seq<real>, npages: nat, chunk: nat,
                     j0: nat, j: nat, spare: nat, base: real)
    requires Settled(p0, l0, p, l, npages, chunk, j, spare) && j0 <= j
    requires Kept(l0, j0, j, base) && SameBelow(s, p0, npages - chunk + j0)
    ensures Kept(l, j0, j, base) && Rising(l, j, chunk) && SameBelow(s, p, npages - chunk + j0)
  {
    SortedRises(l, j, chunk - j);
  }

  ghost predicate SameOutside(s: seq<int>, t: seq<int>, from: nat, to: nat) {
    |s| == |t| && forall x | 0 <= x < |s| && !(from <= x < to) :: t[x] == s[x]
  }

  lemma SwapInside(s: seq<int>, t: seq<int>, from: nat, to: nat, i: nat, j: nat)
    requires SameOutside(s, t, from, to) && from <= i < to <= |s| && from <= j < to
    ensures SameOutside(s, SwapAt(t, i, j), from, to)
  {
  }

  lemma SwapBack(s: seq<int>, i: nat, j: nat)
    requires i < |s| && j < |s|
    ensures SwapAt(SwapAt(s, i, j), i, j) == s && SwapAt(s, i, j)[i] == s[j]
  {
  }

  ghost predicate SameBelow(s: seq<int>, t: seq<int>, n: nat) {
    n <= |s| == |t| && forall x | 0 <= x < n :: t[x] == s[x]
  }

  lemma BelowItself(s: seq<int>, n: nat)
    requires n <= |s|
    ensures SameBelow(s, s, n)
  {
  }

  lemma KeptChanged(l: seq<real>, j0: nat, j: nat, base: real, x: nat, t: real)
    requires Kept(l, j0, j, base) && j <= x < |l|
    ensures Kept(l[x := t], j0, j, base)
  {
  }

  lemma KeptNext(l: seq<real>, j0: nat, j: nat, next: nat, chunk: nat, base: real)
    requires Kept(l, j0, j, base) && Rising(l, j, chunk) && j0 <= j < chunk
    requires next == if 0.995 * l[j] <= base then j + 1 else j
    ensures Kept(l, j0, next, base) && Rising(l, next, chunk)
  {
  }

  lemma SortedTail(l: seq<real>, m: seq<real>, p0: seq<int>, p: seq<int>, at: nat, j: nat, chunk: nat, base: real)
    requires Kept(l, 0, j, base) && j <= chunk && SortedPart(p0, l, p, m, at, j, chunk - j)
    requires SortedTo(m[j..j + (chunk - j)], chunk - j)
    ensures Kept(m, 0, j, base) && Rising(m, j, chunk)
  {
    SortedRises(m, j, chunk - j);
  }

  /** Sorting from the j-th page on leaves the slots below the chunk alone. */
  lemma BelowSorted(s: seq<int>, p: seq<int>, l: seq<real>, q: seq<int>, m: seq<real>, npages: nat, chunk: nat, j: nat)
    requires j <= chunk <= npages <= |s| && SameOutside(s, p, npages - chunk, npages)
    requires SortedPart(p, l, q, m, npages - chunk + j, j, chunk - j)
    ensures SameBelow(s, q, npages - chunk)
  {
  }

  lemma BelowLess(s: seq<int>, t: seq<int>, n: nat, more: nat)
    requires SameBelow(s, t, more) && n <= more
    ensures SameBelow(s, t, n)
  {
  }

  lemma BelowBoth(s: seq<int>, p: seq<int>, q: seq<int>, n: nat)
    requires SameBelow(s, p, n) && SameBelow(p, q, n)
    ensures SameBelow(s, q, n)
  {
  }

  lemma ZeroTimes(lat: array<real>)
    requires lat.Length == 20 && forall x | 0 <= x < 20 :: lat[x] == 0.0
    ensures lat[..] == NoTimes()
  {
  }

  lemma RisingLater(l: seq<real>, j: nat, later: nat, chunk: nat)
    requires Rising(l, j, chunk) && j <= later
    ensures Rising(l, later, chunk)
  {
  }

  // ----- the table that is left

  datatype Part = Part(pages: seq<int>, lat: seq<real>)

  /** Entry i of the n pages at `at`, whose latencies are those at `from`, against entries j, j + 1, ... */
  function SortRow(s: Part, at: nat, from: nat, n: nat, i: nat, j: nat): (r: Part)
    requires at + n <= |s.pages| && from + n <= |s.lat| && i < j
    ensures |r.pages| == |s.pages| && |r.lat| == |s.lat|
    decreases n - j
  {
    if j >= n then s
    else if s.lat[from + i] > s.lat[from + j] then
      SortRow(Part(SwapAt(s.pages, at + i, at + j), SwapAt(s.lat, from + i, from + j)), at, from, n, i, j + 1)
    else SortRow(s, at, from, n, i, j + 1)
  }

  /** pagesort, from entry i on. */
  function SortRows(s: Part, at: nat, from: nat, n: nat, i: nat): (r: Part)
    requires at + n <= |s.pages| && from + n <= |s.lat|
    ensures |r.pages| == |s.pages| && |r.lat| == |s.lat|
    decreases n - i
  {
    if i + 1 >= n then s else SortRows(SortRow(s, at, from, n, i, i + 1), at, from, n, i + 1)
  }

  /** A table and its latencies, the page looked at, the number of rounds, and the clock's next reading. */
  datatype Stage = Stage(pages: seq<int>, lat: seq<real>, j: nat, k: nat, tick: nat)

  /** With the j-th page of the chunk back the walk takes time t: the page stays if it is cheap, and is put
      aside, in front of those already there, if not. */
  function KeptOrAside(s: Stage, at: nat, t: real, base: real): (r: Stage)
    requires s.j < s.k <= |s.lat| && at + s.k <= |s.pages|
    ensures |r.pages| == |s.pages| && |r.lat| == |s.lat| && r.k - r.j == s.k - s.j - 1 && r.k <= s.k
  {
    if 0.995 * t <= base then Stage(s.pages, s.lat[s.j := t], s.j + 1, s.k, s.tick + 1)
    else Stage(SwapAt(s.pages, at + s.j, at + s.k - 1), s.lat[s.k - 1 := t], s.j, s.k - 1, s.tick + 1)
  }

  /** The loop that sorts out the pages to keep, from (j, k) until they meet. */
  function Keep(clock: nat -> real, s: Stage, at: nat, base: real): (r: Stage)
    requires s.j <= s.k <= |s.lat| && at + s.k <= |s.pages|
    ensures |r.pages| == |s.pages| && |r.lat| == |s.lat| && r.j <= s.k
    decreases s.k - s.j
  {
    if s.j == s.k then s else Keep(clock, KeptOrAside(s, at, clock(s.tick), base), at, base)
  }

  /** available_index after n rounds in all. */
  function Later(n: nat, nspare: nat): (r: nat)
    requires nspare >= 2
    ensures r < nspare - 1
  {
    n % (nspare - 1)
  }

  /** The spare page tried in round n; the first spare page never is. */
  function Tried(n: nat, nspare: nat): (r: nat)
    requires nspare >= 2
    ensures 0 < r < nspare
  {
    nspare - 1 - Later(n, nspare)
  }

  /** Spare pages are tried in turn, from the last down to the second and round again. */
  lemma TriedNext(n: nat, nspare: nat)
    requires nspare >= 2
    ensures Tried(0, nspare) == nspare - 1
    ensures Tried(n + 1, nspare) == if Tried(n, nspare) == 1 then nspare - 1 else Tried(n, nspare) - 1
  {
    var d, r := nspare - 1, n % (nspare - 1);
    assert n == n / d * d + r;
    if r + 1 == d {
      DivUnique(n + 1, d, n / d + 1, 0);
    } else {
      DivUnique(n + 1, d, n / d, r + 1);
    }
  }

  lemma {:induction false} TriedAfter(n: nat, nspare: nat, k: nat)
    requires k + 1 < nspare
    ensures var first := Tried(n, nspare);
            Tried(n + k, nspare) == if k < first then first - k else first - k + nspare - 1
  {
    hide Tried;
    if k > 0 {
      TriedAfter(n, nspare, k - 1);
      TriedNext(n + k - 1, nspare);
    }
  }

  /** Any nspare - 1 rounds in a row try each spare page but the first, wherever the last search stopped. */
  lemma EachTried(n: nat, nspare: nat, page: nat) returns (k: nat)
    requires nspare >= 2 && 0 < page < nspare
    ensures k < nspare - 1 && Tried(n + k, nspare) == page
  {
    hide Tried;
    var first := Tried(n, nspare);
    k := if page <= first then first - page else first - page + nspare - 1;
    TriedAfter(n, nspare, k);
  }

  /** The next search goes on where this one stopped: available_index stands for all rounds so far. */
  lemma TriedLater(k: nat, n: nat, nspare: nat)
    requires nspare >= 2
    ensures Tried(k + Later(n, nspare), nspare) == Tried(k + n, nspare)
  {
    var d := nspare - 1;
    var m := k + n % d;
    assert n == n / d * d + n % d && m == m / d * d + m % d;
    Distribute(n / d, m / d, d);
    DivUnique(k + n, d, n / d + m / d, m % d);
  }

  /** What a round leaves in which the spare page took time t: if it beats the worst of the chunk it takes
      that one's place, and the pages from the j-th on are sorted. */
  function Taken(s: Part, t: real, spare: nat, chunk: nat, npages: nat, j: nat): (r: Part)
    requires j < chunk <= npages <= spare < |s.pages| && chunk <= |s.lat|
    ensures |r.pages| == |s.pages| && |r.lat| == |s.lat|
  {
    if t < s.lat[chunk - 1] then
      SortRows(Part(SwapAt(s.pages, npages - 1, spare), s.lat[chunk - 1 := t]), npages - chunk + j, j, chunk - j, 0)
    else s
  }

  /** One round of the loop that tries spare pages. */
  function TryRound(clock: nat -> real, s: Stage, chunk: nat, npages: nat, base: real, available: nat): (r: Stage)
    requires s.j < chunk <= npages && npages + 2 <= |s.pages| && chunk <= |s.lat|
    ensures |r.pages| == |s.pages| && |r.lat| == |s.lat| && s.j <= r.j <= s.j + 1 && r.k == s.k + 1
  {
    var p := Taken(Part(s.pages, s.lat), clock(s.tick), npages + Tried(s.k + available, |s.pages| - npages), chunk,
                   npages, s.j);
    Stage(p.pages, p.lat, if 0.995 * p.lat[s.j] <= base then s.j + 1 else s.j, s.k + 1, s.tick + 1)
  }

  function Rounds(clock: nat -> real, s: Stage, chunk: nat, npages: nat, base: real, available: nat): (r: Stage)
    requires s.j <= chunk <= npages && npages + 2 <= |s.pages| && chunk <= |s.lat|
    ensures |r.pages| == |s.pages| && |r.lat| == |s.lat| && s.j <= r.j <= chunk
    decreases 2 * npages - s.k
  {
    if s.j < chunk && s.k < 2 * npages
    then Rounds(clock, TryRound(clock, s, chunk, npages, base, available), chunk, npages, base, available)
    else s
  }

  /** The latencies start as zeros; none is read before it is measured. */
  function NoTimes(): (l: seq<real>)
    ensures |l| == 20
  {
    seq(20, _ => 0.0)
  }

  /** After the first loop and the first sort. */
  function Begun(clock: nat -> real, pages: seq<int>, tick: nat, i: nat, chunk: nat, npages: nat,
                 base: real): (r: Stage)
    requires chunk <= 20 && i + chunk <= npages <= |pages|
    ensures |r.pages| == |pages| && |r.lat| == 20 && r.j <= chunk
  {
    var m := Keep(clock, Stage(Moved(pages, i, npages, chunk), NoTimes(), 0, chunk, tick), npages - chunk, base);
    var p := SortRows(Part(m.pages, m.lat), npages - chunk + m.j, m.j, chunk - m.j, 0);
    Stage(p.pages, p.lat, m.j, 0, m.tick)
  }

  /** When all pages in use are in the chunk, half of them are kept in any case, and set the price. */
  function Halved(clock: nat -> real, s: Stage, chunk: nat, npages: nat): (r: Stage)
    requires s.j <= chunk
    ensures r.j <= chunk && r.pages == s.pages && r.lat == s.lat
  {
    if chunk >= npages && s.j < chunk / 2 then s.(j := chunk / 2, tick := s.tick + 1) else s
  }

  function Price(clock: nat -> real, s: Stage, chunk: nat, npages: nat, base: real): real {
    if chunk >= npages && s.j < chunk / 2 then clock(s.tick) else base
  }

  /** What fixup_chunk answers and leaves; before is the table it found, and changed or backed out. */
  datatype Fixed = Fixed(swapped: nat, baseline: real, before: seq<int>, pages: seq<int>, tick: nat, available: nat)

  /** The end of fixup_chunk: the table found is backed out when it does not save 0.1 percent. */
  function Decided(clock: nat -> real, saved: seq<int>, e: Stage, j0: nat, i: nat, chunk: nat, npages: nat,
                   baseline: real, restored: nat, available: nat): (f: Fixed)
    requires j0 <= e.j && i + chunk <= npages && npages + 2 <= |e.pages| == |saved| && restored <= |saved|
    ensures |f.pages| == |saved|
  {
    var t, next := clock(e.tick), Later(e.k + available, |saved| - npages);
    if e.j == j0 then Fixed(0, baseline, e.pages, e.pages, e.tick, next)
    else if t >= 0.999 * baseline then Fixed(0, baseline, e.pages, Restored(saved, e.pages, restored), e.tick + 1, next)
    else Fixed(e.j - j0, t, e.pages, Moved(e.pages, i, npages, chunk), e.tick + 1, next)
  }

  /** fixup_chunk, with the first `restored` entries of the table put back when it backs out. */
  function Fixup(clock: nat -> real, pages: seq<int>, tick: nat, available: nat, i: nat, chunk: nat, npages: nat,
                 baseline: real, chunkBaseline: real, restored: nat): (f: Fixed)
    requires 1 <= chunk <= 20 && i + chunk <= npages && npages + 2 <= |pages| && restored <= |pages|
    ensures |f.pages| == |pages|
  {
    var a := if available >= |pages| - npages then 0 else available;
    var b := Begun(clock, pages, tick, i, chunk, npages, chunkBaseline);
    var h := Halved(clock, b, chunk, npages);
    var e := Rounds(clock, h, chunk, npages, Price(clock, b, chunk, npages, chunkBaseline), a);
    Decided(clock, pages, e, h.j, i, chunk, npages, baseline, restored, a)
  }

  lemma RowStep(s: Part, at: nat, from: nat, n: nat, i: nat, j: nat)
    requires at + n <= |s.pages| && from + n <= |s.lat| && i < j < n
    ensures SortRow(s, at, from, n, i, j) ==
            SortRow(if s.lat[from + i] > s.lat[from + j]
                    then Part(SwapAt(s.pages, at + i, at + j), SwapAt(s.lat, from + i, from + j))
                    else s, at, from, n, i, j + 1)
  {
  }

  lemma RowEnd(s: Part, at: nat, from: nat, n: nat, i: nat, j: nat)
    requires at + n <= |s.pages| && from + n <= |s.lat| && i < j && n <= j
    ensures SortRow(s, at, from, n, i, j) == s
  {
  }

  lemma RowsStep(s: Part, at: nat, from: nat, n: nat, i: nat)
    requires at + n <= |s.pages| && from + n <= |s.lat| && i + 1 < n
    ensures SortRows(s, at, from, n, i) == SortRows(SortRow(s, at, from, n, i, i + 1), at, from, n, i + 1)
  {
  }

  lemma RowsEnd(s: Part, at: nat, from: nat, n: nat, i: nat)
    requires at + n <= |s.pages| && from + n <= |s.lat| && n <= i + 1
    ensures SortRows(s, at, from, n, i) == s
  {
  }

  lemma KeepStep(clock: nat -> real, s: Stage, at: nat, base: real)
    requires s.j < s.k <= |s.lat| && at + s.k <= |s.pages|
    ensures Keep(clock, s, at, base) == Keep(clock, KeptOrAside(s, at, clock(s.tick), base), at, base)
  {
  }

  lemma KeepEnd(clock: nat -> real, s: Stage, at: nat, base: real)
    requires s.j == s.k <= |s.lat| && at + s.k <= |s.pages|
    ensures Keep(clock, s, at, base) == s
  {
  }

  lemma RoundsStep(clock: nat -> real, s: Stage, chunk: nat, npages: nat, base: real, available: nat)
    requires s.j < chunk <= npages && npages + 2 <= |s.pages| && chunk <= |s.lat| && s.k < 2 * npages
    ensures Rounds(clock, s, chunk, npages, base, available) ==
            Rounds(clock, TryRound(clock, s, chunk, npages, base, available), chunk, npages, base, available)
  {
  }

  lemma RoundsEnd(clock: nat -> real, s: Stage, chunk: nat, npages: nat, base: real, available: nat)
    requires s.j <= chunk <= npages && npages + 2 <= |s.pages| && chunk <= |s.lat| && !(s.j < chunk && s.k < 2 * npages)
    ensures Rounds(clock, s, chunk, npages, base, available) == s
  {
  }

  lemma RoundIs(clock: nat -> real, s: Stage, chunk: nat, npages: nat, base: real, available: nat)
    requires s.j < chunk <= npages && npages + 2 <= |s.pages| && chunk <= |s.lat|
    ensures var spare := npages + Tried(s.k + available, |s.pages| - npages);
            var p := Taken(Part(s.pages, s.lat), clock(s.tick), spare, chunk, npages, s.j);
            TryRound(clock, s, chunk, npages, base, available) ==
            Stage(p.pages, p.lat, if 0.995 * p.lat[s.j] <= base then s.j + 1 else s.j, s.k + 1, s.tick + 1)
  {
  }

  lemma HalvedIs(clock: nat -> real, s: Stage, chunk: nat, npages: nat, base: real)
    requires s.j <= chunk
    ensures Halved(clock, s, chunk, npages) ==
            if chunk >= npages && s.j < chunk / 2 then Stage(s.pages, s.lat, chunk / 2, s.k, s.tick + 1) else s
    ensures Price(clock, s, chunk, npages, base) == if chunk >= npages && s.j < chunk / 2 then clock(s.tick) else base
  {
  }

  lemma FixupIs(clock: nat -> real, pages: seq<int>, tick: nat, available: nat, i: nat, chunk: nat, npages: nat,
                baseline: real, chunkBaseline: real, restored: nat)
    requires 1 <= chunk <= 20 && i + chunk <= npages && npages + 2 <= |pages| && restored <= |pages|
    ensures var a := if available >= |pages| - npages then 0 else available;
            var b := Begun(clock, pages, tick, i, chunk, npages, chunkBaseline);
            var h := Halved(clock, b, chunk, npages);
            var e := Rounds(clock, h, chunk, npages, Price(clock, b, chunk, npages, chunkBaseline), a);
            var next := Later(e.k + a, |pages| - npages);
            && |e.pages| == |pages| && h.j <= e.j
            && Fixup(clock, pages, tick, available, i, chunk, npages, baseline, chunkBaseline, restored) ==
               if e.j == h.j then Fixed(0, baseline, e.pages, e.pages, e.tick, next)
               else if clock(e.tick) >= 0.999 * baseline
               then Fixed(0, baseline, e.pages, Restored(pages, e.pages, restored), e.tick + 1, next)
               else Fixed(e.j - h.j, clock(e.tick), e.pages, Moved(e.pages, i, npages, chunk), e.tick + 1, next)
  {
    hide Begun, Rounds, Moved, Restored;
  }

  // ----- what every run keeps

  lemma {:induction false} RowSorts(p0: seq<int>, l0: seq<real>, s: Part, at: nat, from: nat, n: nat, i: nat, j: nat)
    requires at + n <= |s.pages| && from + n <= |s.lat| && i < j <= n && SortedPart(p0, l0, s.pages, s.lat, at, from, n)
    ensures var r := SortRow(s, at, from, n, i, j);
            SortedPart(p0, l0, r.pages, r.lat, at, from, n) && multiset(r.pages) == multiset(s.pages)
    decreases n - j
  {
    hide SortRow, SortedPart, SwapAt;
    if j < n {
      RowStep(s, at, from, n, i, j);
      if s.lat[from + i] > s.lat[from + j] {
        PartStep(p0, l0, s.pages, s.lat, at, from, n, i, j);
        SwapSame(s.pages, at + i, at + j);
        RowSorts(p0, l0, Part(SwapAt(s.pages, at + i, at + j), SwapAt(s.lat, from + i, from + j)), at, from, n, i,
                 j + 1);
      } else {
        RowSorts(p0, l0, s, at, from, n, i, j + 1);
      }
    } else {
      RowEnd(s, at, from, n, i, j);
    }
  }

  /** Sorting only exchanges pages inside the part. */
  lemma {:induction false} RowsSort(p0: seq<int>, l0: seq<real>, s: Part, at: nat, from: nat, n: nat, i: nat)
    requires at + n <= |s.pages| && from + n <= |s.lat| && SortedPart(p0, l0, s.pages, s.lat, at, from, n)
    ensures var r := SortRows(s, at, from, n, i);
            SortedPart(p0, l0, r.pages, r.lat, at, from, n) && multiset(r.pages) == multiset(s.pages)
    decreases n - i
  {
    hide SortRows, SortRow, SortedPart;
    if i + 1 < n {
      RowsStep(s, at, from, n, i);
      RowSorts(p0, l0, s, at, from, n, i, i + 1);
      RowsSort(p0, l0, SortRow(s, at, from, n, i, i + 1), at, from, n, i + 1);
    } else {
      RowsEnd(s, at, from, n, i);
    }
  }

  lemma SortedWithin(s: Part, at: nat, from: nat, n: nat)
    requires at + n <= |s.pages| && from + n <= |s.lat|
    ensures var r := SortRows(s, at, from, n, 0);
            multiset(r.pages) == multiset(s.pages) && SameOutside(s.pages, r.pages, at, at + n)
  {
    assert SortedPart(s.pages, s.lat, s.pages, s.lat, at, from, n);
    RowsSort(s.pages, s.lat, s, at, from, n, 0);
    hide SortRows;
  }

  lemma {:induction false} KeepWithin(clock: nat -> real, s: Stage, at: nat, base: real)
    requires s.j <= s.k <= |s.lat| && at + s.k <= |s.pages|
    ensures var r := Keep(clock, s, at, base);
            multiset(r.pages) == multiset(s.pages) && SameOutside(s.pages, r.pages, at, at + s.k)
    decreases s.k - s.j
  {
    hide Keep;
    if s.j < s.k {
      KeepStep(clock, s, at, base);
      var u := KeptOrAside(s, at, clock(s.tick), base);
      SwapSame(s.pages, at + s.j, at + s.k - 1);
      KeepWithin(clock, u, at, base);
      assert SameOutside(s.pages, u.pages, at, at + s.k);
    } else {
      KeepEnd(clock, s, at, base);
    }
  }

  lemma BegunIs(clock: nat -> real, pages: seq<int>, tick: nat, i: nat, chunk: nat, npages: nat, base: real)
    requires chunk <= 20 && i + chunk <= npages <= |pages|
    ensures var m := Keep(clock, Stage(Moved(pages, i, npages, chunk), NoTimes(), 0, chunk, tick), npages - chunk,
                          base);
            var p := SortRows(Part(m.pages, m.lat), npages - chunk + m.j, m.j, chunk - m.j, 0);
            Begun(clock, pages, tick, i, chunk, npages, base) == Stage(p.pages, p.lat, m.j, 0, m.tick)
  {
    hide Keep, SortRows, Moved;
  }

  lemma BegunWithin(clock: nat -> real, pages: seq<int>, tick: nat, i: nat, chunk: nat, npages: nat, base: real)
    requires chunk <= 20 && i + chunk <= npages <= |pages|
    ensures var b := Begun(clock, pages, tick, i, chunk, npages, base);
            multiset(b.pages) == multiset(pages) && SameOutside(Moved(pages, i, npages, chunk), b.pages, npages - chunk,
                                                                npages)
  {
    hide *;
    var at := npages - chunk;
    MovedSame(pages, i, npages, chunk);
    var u := Stage(Moved(pages, i, npages, chunk), NoTimes(), 0, chunk, tick);
    var m := Keep(clock, u, at, base);
    BegunIs(clock, pages, tick, i, chunk, npages, base);
    KeepWithin(clock, u, at, base);
    SortedWithin(Part(m.pages, m.lat), at + m.j, m.j, chunk - m.j);
    OutsideBoth(u.pages, m.pages, SortRows(Part(m.pages, m.lat), at + m.j, m.j, chunk - m.j, 0).pages, at, at + m.j,
                npages);
  }

  lemma OutsideBoth(s: seq<int>, p: seq<int>, q: seq<int>, from: nat, later: nat, to: nat)
    requires SameOutside(s, p, from, to) && SameOutside(p, q, later, to) && from <= later
    ensures SameOutside(s, q, from, to)
  {
  }

  lemma TakenWithin(s: Part, t: real, spare: nat, chunk: nat, npages: nat, j: nat)
    requires j < chunk <= npages <= spare < |s.pages| && chunk <= |s.lat|
    ensures var r := Taken(s, t, spare, chunk, npages, j);
            multiset(r.pages) == multiset(s.pages) && SameBelow(s.pages, r.pages, npages - chunk)
  {
    hide SortRows, SwapAt, SameBelow, SameOutside;
    var q := SwapAt(s.pages, npages - 1, spare);
    SwappedBelow(s.pages, npages - 1, spare, npages - chunk);
    if t < s.lat[chunk - 1] {
      SortedWithin(Part(q, s.lat[chunk - 1 := t]), npages - chunk + j, j, chunk - j);
      OutsideBelow(s.pages, q, SortRows(Part(q, s.lat[chunk - 1 := t]), npages - chunk + j, j, chunk - j, 0).pages,
                   npages - chunk, npages - chunk + j, npages);
    }
    BelowItself(s.pages, npages - chunk);
  }

  lemma SwappedBelow(s: seq<int>, i: nat, j: nat, n: nat)
    requires n <= i < |s| && n <= j < |s|
    ensures multiset(SwapAt(s, i, j)) == multiset(s) && SameBelow(s, SwapAt(s, i, j), n)
  {
    SwapSame(s, i, j);
  }

  lemma OutsideBelow(s: seq<int>, p: seq<int>, q: seq<int>, n: nat, from: nat, to: nat)
    requires SameBelow(s, p, n) && SameOutside(p, q, from, to) && n <= from
    ensures SameBelow(s, q, n)
  {
  }

  lemma {:induction false} RoundsWithin(clock: nat -> real, s: Stage, chunk: nat, npages: nat, base: real,
                                        available: nat)
    requires s.j <= chunk <= npages && npages + 2 <= |s.pages| && chunk <= |s.lat|
    ensures var r := Rounds(clock, s, chunk, npages, base, available);
            multiset(r.pages) == multiset(s.pages) && SameBelow(s.pages, r.pages, npages - chunk)
    decreases 2 * npages - s.k
  {
    hide Rounds, Taken, SameBelow;
    if s.j < chunk && s.k < 2 * npages {
      RoundsStep(clock, s, chunk, npages, base, available);
      var u := TryRound(clock, s, chunk, npages, base, available);
      TakenWithin(Part(s.pages, s.lat), clock(s.tick), npages + Tried(s.k + available, |s.pages| - npages), chunk,
                  npages, s.j);
      RoundsWithin(clock, u, chunk, npages, base, available);
      BelowBoth(s.pages, u.pages, Rounds(clock, u, chunk, npages, base, available).pages, npages - chunk);
    } else {
      RoundsEnd(clock, s, chunk, npages, base, available);
      BelowItself(s.pages, npages - chunk);
    }
  }

  /** For all readings: the table found holds the pages there were, and below the last slots in use it is the
      moved table. What is left is that table, the same with the chunk moved back, or a copy over it. */
  lemma FixupFound(clock: nat -> real, s: seq<int>, tick: nat, available: nat, i: nat, chunk: nat, npages: nat,
                   baseline: real, chunkBaseline: real, restored: nat)
    requires 1 <= chunk <= 20 && i + chunk <= npages && npages + 2 <= |s| && restored <= |s|
    ensures var f := Fixup(clock, s, tick, available, i, chunk, npages, baseline, chunkBaseline, restored);
            && multiset(f.before) == multiset(s) && SameBelow(Moved(s, i, npages, chunk), f.before, npages - chunk)
            && (f.pages == f.before || f.pages == Restored(s, f.before, restored) ||
               f.pages == Moved(f.before, i, npages, chunk))
            && (f.swapped > 0 ==> f.pages == Moved(f.before, i, npages, chunk))
  {
    FixupIs(clock, s, tick, available, i, chunk, npages, baseline, chunkBaseline, restored);
    hide *;
    var a := if available >= |s| - npages then 0 else available;
    var b := Begun(clock, s, tick, i, chunk, npages, chunkBaseline);
    BegunWithin(clock, s, tick, i, chunk, npages, chunkBaseline);
    var h := Halved(clock, b, chunk, npages);
    var base := Price(clock, b, chunk, npages, chunkBaseline);
    RoundsWithin(clock, h, chunk, npages, base, a);
    var e := Rounds(clock, h, chunk, npages, base, a);
    BelowMoved(Moved(s, i, npages, chunk), b.pages, e.pages, npages - chunk, npages);
  }

  lemma BelowMoved(m: seq<int>, p: seq<int>, q: seq<int>, n: nat, to: nat)
    requires SameOutside(m, p, n, to) && SameBelow(p, q, n)
    ensures SameBelow(m, q, n) && |q| == |m|
  {
  }

  /** fixup_chunk that finds nothing worth having, without backing out, does not put the chunk back: its first
      slot holds another page than before, unless the chunk is the end of the slots in use. */
  lemma NotPutBack(clock: nat -> real, s: seq<int>, tick: nat, available: nat, i: nat, chunk: nat, npages: nat,
                   baseline: real, chunkBaseline: real, restored: nat)
    requires NoDup(s) && 1 <= chunk <= 20 && i + chunk < npages && npages + 2 <= |s| && restored <= |s|
    requires var f := Fixup(clock, s, tick, available, i, chunk, npages, baseline, chunkBaseline, restored);
             f.swapped == 0 && f.pages == f.before
    ensures var p := Fixup(clock, s, tick, available, i, chunk, npages, baseline, chunkBaseline, restored).pages;
            |p| == |s| && p[i] == s[npages - chunk] != s[i]
  {
    FixupFound(clock, s, tick, available, i, chunk, npages, baseline, chunkBaseline, restored);
    MovedFrom(s, i, npages, chunk, i);
    hide Fixup, Moved, Restored;
  }

  // ----- runs that lose pages or leave them rearranged

  /** Before round `from` no page is cheap; then one is. */
  function CheapAt(from: nat): nat -> real {
    n => if n == from then 0.5 else 2.0
  }

  /** From reading `tick` on, only reading n is cheap. */
  ghost predicate CheapOnce(clock: nat -> real, tick: nat, n: nat) {
    forall m: nat | tick <= m :: clock(m) == if m == n then 0.5 else 2.0
  }

  lemma CheapIsOnce(tick: nat, n: nat)
    ensures CheapOnce(CheapAt(n), tick, n)
  {
  }

  lemma OnceLater(clock: nat -> real, tick: nat, n: nat, later: nat)
    requires CheapOnce(clock, tick, n) && tick <= later
    ensures CheapOnce(clock, later, n)
    ensures n < later ==> forall m: nat | later <= m :: clock(m) == 2.0
    ensures forall m: nat | later <= m < n :: clock(m) == 2.0
  {
  }

  lemma OnceIs(clock: nat -> real, tick: nat, n: nat, m: nat)
    requires CheapOnce(clock, tick, n) && tick <= m
    ensures clock(m) == if m == n then 0.5 else 2.0
  {
  }

  /** All the pages of the chunk are dear: they are all put aside, the first of them last. */
  lemma {:induction false} AllAside(clock: nat -> real, s: Stage, at: nat)
    requires s.j == 0 && s.k <= |s.lat| && at + s.k <= |s.pages|
    requires forall n | s.tick <= n < s.tick + s.k :: clock(n) == 2.0
    ensures var r := Keep(clock, s, at, 0.6);
            && r.j == 0 && r.tick == s.tick + s.k && |r.lat| == |s.lat|
            && (forall x | 0 <= x < s.k :: r.lat[x] == 2.0) && (forall x | s.k <= x < |s.lat| :: r.lat[x] == s.lat[x])
            && SameOutside(s.pages, r.pages, at, at + s.k) && (s.k > 0 ==> r.pages[at + s.k - 1] == s.pages[at])
    decreases s.k
  {
    hide Keep;
    if s.k > 0 {
      KeepStep(clock, s, at, 0.6);
      var u := KeptOrAside(s, at, clock(s.tick), 0.6);
      AllAside(clock, u, at);
    } else {
      KeepEnd(clock, s, at, 0.6);
    }
  }

  /** A part that is in order already. */
  lemma {:induction false} RowInOrder(s: Part, at: nat, from: nat, n: nat, i: nat, j: nat)
    requires at + n <= |s.pages| && from + n <= |s.lat| && i < j
    requires forall y | from + j <= y < from + n :: s.lat[from + i] <= s.lat[y]
    ensures SortRow(s, at, from, n, i, j) == s
    decreases n - j
  {
    if j < n { RowInOrder(s, at, from, n, i, j + 1); }
  }

  lemma {:induction false} InOrder(s: Part, at: nat, from: nat, n: nat, i: nat)
    requires at + n <= |s.pages| && from + n <= |s.lat|
    requires forall x, y | from + i <= x < y < from + n :: s.lat[x] <= s.lat[y]
    ensures SortRows(s, at, from, n, i) == s
    decreases n - i
  {
    hide SortRows;
    if i + 1 < n {
      RowsStep(s, at, from, n, i);
      RowInOrder(s, at, from, n, i, i + 1);
      InOrder(s, at, from, n, i + 1);
    } else {
      RowsEnd(s, at, from, n, i);
    }
  }

  lemma AllDear(clock: nat -> real, s: seq<int>, tick: nat, i: nat, chunk: nat, npages: nat)
    requires 1 <= chunk <= 20 && i + chunk <= npages <= |s| && forall n | tick <= n < tick + chunk :: clock(n) == 2.0
    ensures var b := Begun(clock, s, tick, i, chunk, npages, 0.6);
            && b.j == 0 && b.k == 0 && b.tick == tick + chunk && |b.lat| == 20 &&
               (forall x | 0 <= x < chunk :: b.lat[x] == 2.0)
            && SameOutside(Moved(s, i, npages, chunk), b.pages, npages - chunk, npages)
            && b.pages[npages - 1] == Moved(s, i, npages, chunk)[npages - chunk]
  {
    var at, u := npages - chunk, Stage(Moved(s, i, npages, chunk), NoTimes(), 0, chunk, tick);
    AllAside(clock, u, at);
    var m := Keep(clock, u, at, 0.6);
    InOrder(Part(m.pages, m.lat), at, 0, chunk, 0);
    hide Keep, SortRows, Moved;
  }

  /** Rounds in which no page beats the worst of the chunk, and the next to keep is too dear. */
  lemma {:induction false} IdleRounds(clock: nat -> real, s: Stage, chunk: nat, npages: nat, available: nat)
    requires s.j < chunk <= npages && npages + 2 <= |s.pages| && chunk <= |s.lat|
    requires s.lat[chunk - 1] == 2.0 && s.lat[s.j] == 2.0 && forall n | s.tick <= n :: clock(n) == 2.0
    ensures var r := Rounds(clock, s, chunk, npages, 0.6, available);
            r.pages == s.pages && r.j == s.j && r.tick >= s.tick
    decreases 2 * npages - s.k
  {
    hide Rounds;
    if s.k < 2 * npages {
      RoundsStep(clock, s, chunk, npages, 0.6, available);
      IdleRounds(clock, TryRound(clock, s, chunk, npages, 0.6, available), chunk, npages, available);
    } else {
      RoundsEnd(clock, s, chunk, npages, 0.6, available);
    }
  }

  /** When nothing is ever cheap the table is left as it was exactly if the chunk is the last page in use. */
  lemma LeavesRearranged(s: seq<int>, tick: nat, i: nat, chunk: nat, npages: nat, restored: nat)
    requires NoDup(s) && 1 <= chunk <= 20 && i + chunk <= npages && chunk < npages && npages + 2 <= |s| &&
             restored <= |s|
    ensures var f := Fixup(_ => 2.0, s, tick, 0, i, chunk, npages, 1.0, 0.6, restored);
            && f.swapped == 0 && f.baseline == 1.0 && f.pages == f.before
            && (f.pages == s <==> chunk == 1 && i + 1 == npages)
            && (chunk == 1 ==> f.pages == Moved(s, i, npages, 1))
  {
    var c: nat -> real := _ => 2.0;
    assert forall n: nat :: c(n) == 2.0;
    FixupIs(c, s, tick, 0, i, chunk, npages, 1.0, 0.6, restored);
    AllDear(c, s, tick, i, chunk, npages);
    var b := Begun(c, s, tick, i, chunk, npages, 0.6);
    HalvedIs(c, b, chunk, npages, 0.6);
    IdleRounds(c, b, chunk, npages, 0);
    hide *;
    RearrangedAt(s, b.pages, i, chunk, npages);
  }

  lemma RearrangedAt(s: seq<int>, p: seq<int>, i: nat, chunk: nat, npages: nat)
    requires NoDup(s) && 1 <= chunk && i + chunk <= npages < |s|
    requires SameOutside(Moved(s, i, npages, chunk), p, npages - chunk, npages)
    requires p[npages - 1] == Moved(s, i, npages, chunk)[npages - chunk]
    ensures p == s <==> chunk == 1 && i + 1 == npages
    ensures chunk == 1 ==> p == Moved(s, i, npages, 1)
  {
    if i + chunk < npages { MovedFrom(s, i, npages, chunk, i); }
    if i + chunk == npages { assert Moved(s, i, npages, chunk) == s; }
    hide Moved;
  }

  /** The part once its last latency has become the least. */
  lemma LeastLast(s: Part, at: nat, n: nat)
    requires 0 < n <= |s.lat| && at + n <= |s.pages|
    requires s.lat[n - 1] == 0.5 && forall x | 0 <= x < n - 1 :: s.lat[x] == 2.0
    ensures SortRows(s, at, 0, n, 0) == Part(SwapAt(s.pages, at, at + n - 1), SwapAt(s.lat, 0, n - 1))
  {
    var r := Part(SwapAt(s.pages, at, at + n - 1), SwapAt(s.lat, 0, n - 1));
    if n == 1 {
      assert r.pages == s.pages && r.lat == s.lat;
    } else {
      RowsStep(s, at, 0, n, 0);
      LeastRow(s, at, n, 1);
      InOrder(r, at, 0, n, 1);
    }
  }

  lemma {:induction false} LeastRow(s: Part, at: nat, n: nat, j: nat)
    requires 1 < n <= |s.lat| && at + n <= |s.pages| && 0 < j < n
    requires s.lat[n - 1] == 0.5 && forall x | 0 <= x < n - 1 :: s.lat[x] == 2.0
    ensures SortRow(s, at, 0, n, 0, j) == Part(SwapAt(s.pages, at, at + n - 1), SwapAt(s.lat, 0, n - 1))
    decreases n - j
  {
    hide SortRow;
    RowStep(s, at, 0, n, 0, j);
    if j < n - 1 {
      LeastRow(s, at, n, j + 1);
    } else {
      RowEnd(Part(SwapAt(s.pages, at, at + j), SwapAt(s.lat, 0, j)), at, 0, n, 0, n);
    }
  }

  /** The first spare page tried comes first in the chunk, and no other is taken. */
  lemma OneTaken(clock: nat -> real, s: Stage, chunk: nat, npages: nat, available: nat)
    requires s.j == 0 && s.k == 0 && 1 <= chunk <= npages && npages + 2 <= |s.pages| && chunk <= |s.lat|
    requires forall x | 0 <= x < chunk :: s.lat[x] == 2.0
    requires CheapOnce(clock, s.tick, s.tick)
    ensures var e := Rounds(clock, s, chunk, npages, 0.6, available);
            && e.j == 1 && e.tick > s.tick
            && e.pages[npages - chunk] == s.pages[npages + Tried(available, |s.pages| - npages)]
  {
    var u := OnePageIn(s, chunk, npages, available);
    RoundsStep(clock, s, chunk, npages, 0.6, available);
    OnceIs(clock, s.tick, s.tick, s.tick);
    OnceLater(clock, s.tick, s.tick, s.tick + 1);
    FirstTaken(clock, s, chunk, npages, available);
    hide Rounds, TryRound, CheapOnce, Tried;
    if chunk > 1 {
      IdleRounds(clock, u, chunk, npages, available);
    } else {
      RoundsEnd(clock, u, chunk, npages, 0.6, available);
    }
  }

  /** The stage after that page has been taken. */
  function OnePageIn(s: Stage, chunk: nat, npages: nat, available: nat): (u: Stage)
    requires 1 <= chunk <= npages && npages + 2 <= |s.pages| && chunk <= |s.lat|
    ensures |u.pages| == |s.pages|
    ensures u.pages[npages - chunk] == s.pages[npages + Tried(available, |s.pages| - npages)]
  {
    var spare := npages + Tried(available, |s.pages| - npages);
    Stage(SwapAt(SwapAt(s.pages, npages - 1, spare), npages - chunk, npages - 1),
          SwapAt(s.lat[chunk - 1 := 0.5], 0, chunk - 1), 1, 1, s.tick + 1)
  }

  lemma FirstTaken(clock: nat -> real, s: Stage, chunk: nat, npages: nat, available: nat)
    requires s.j == 0 && s.k == 0 && 1 <= chunk <= npages && npages + 2 <= |s.pages| && chunk <= |s.lat|
    requires forall x | 0 <= x < chunk :: s.lat[x] == 2.0
    requires clock(s.tick) == 0.5
    ensures TryRound(clock, s, chunk, npages, 0.6, available) == OnePageIn(s, chunk, npages, available)
  {
    var spare := npages + Tried(available, |s.pages| - npages);
    var p := Part(SwapAt(s.pages, npages - 1, spare), s.lat[chunk - 1 := 0.5]);
    LeastLast(p, npages - chunk, chunk);
    RoundIs(clock, s, chunk, npages, 0.6, available);
    hide SortRows, Tried;
  }

  /** A run of fixup_chunk that backs out, on any table and for any chunk: it had exchanged a page of the chunk
      with the last page of the table, and found the whole not faster. The pages are still all there exactly if
      the copy back takes the whole table or stops before the chunk; otherwise one is lost. */
  lemma LosesPage(s: seq<int>, tick: nat, i: nat, chunk: nat, npages: nat, restored: nat)
    requires NoDup(s) && 1 <= chunk <= 20 && i + chunk <= npages && chunk < npages && npages + 2 <= |s| &&
             restored <= |s|
    ensures var f := Fixup(CheapAt(tick + chunk), s, tick, 0, i, chunk, npages, 1.0, 0.6, restored);
            && f.swapped == 0 && f.before[npages - chunk] == s[|s| - 1] && f.pages == Restored(s, f.before, restored)
            && (multiset(f.pages) == multiset(s) <==> restored <= i || restored == |s|)
            && (i < restored < |s| ==> Lost(s, f.pages))
  {
    var c := CheapAt(tick + chunk);
    FixupFound(c, s, tick, 0, i, chunk, npages, 1.0, 0.6, restored);
    hide *;
    CheapIsOnce(tick, tick + chunk);
    CheapFixup(c, s, tick, 0, i, chunk, npages, 1.0, restored);
    TriedNext(0, |s| - npages);
    var t := Fixup(c, s, tick, 0, i, chunk, npages, 1.0, 0.6, restored).before;
    FoundLength(s, t);
    CrossesExact(s, t, i, chunk, npages, restored);
    BackOut(s, t, restored);
    LostIs(s, Restored(s, t, restored));
  }

  lemma FoundLength(s: seq<int>, t: seq<int>)
    requires multiset(s) == multiset(t)
    ensures |s| == |t|
  {
    assert |multiset(s)| == |multiset(t)|;
  }

  lemma LostIs(s: seq<int>, t: seq<int>)
    ensures Lost(s, t) <==> exists v :: v in s && v !in t
  {
  }

  /** The run up to its last reading: one page of the chunk was exchanged with the first spare page tried. */
  lemma CheapRounds(clock: nat -> real, s: seq<int>, tick: nat, i: nat, chunk: nat, npages: nat, available: nat)
    requires 1 <= chunk <= 20 && i + chunk <= npages && chunk < npages && npages + 2 <= |s|
    requires CheapOnce(clock, tick, tick + chunk)
    ensures var b := Begun(clock, s, tick, i, chunk, npages, 0.6);
            var e := Rounds(clock, b, chunk, npages, 0.6, available);
            && b.j == 0 && e.j == 1 && clock(e.tick) == 2.0 && |e.pages| == |s|
            && e.pages[npages - chunk] == s[npages + Tried(available, |s| - npages)]
  {
    hide *;
    OnceLater(clock, tick, tick + chunk, tick);
    AllDear(clock, s, tick, i, chunk, npages);
    var b := Begun(clock, s, tick, i, chunk, npages, 0.6);
    OnceLater(clock, tick, tick + chunk, tick + chunk);
    OneTaken(clock, b, chunk, npages, available);
    var e := Rounds(clock, b, chunk, npages, 0.6, available);
    OnceIs(clock, tick, tick + chunk, e.tick);
    var x := npages + Tried(available, |s| - npages);
    LastKept(s, i, chunk, npages, x);
    OutsideAt(Moved(s, i, npages, chunk), b.pages, npages - chunk, npages, x);
  }

  /** What that run answers depends on the baseline alone. */
  lemma CheapFixup(clock: nat -> real, s: seq<int>, tick: nat, available: nat, i: nat, chunk: nat, npages: nat,
                   baseline: real, restored: nat)
    requires 1 <= chunk <= 20 && i + chunk <= npages && chunk < npages && npages + 2 <= |s| && restored <= |s|
    requires CheapOnce(clock, tick, tick + chunk)
    ensures var f := Fixup(clock, s, tick, available, i, chunk, npages, baseline, 0.6, restored);
            var a := if available >= |s| - npages then 0 else available;
            && |f.before| == |s| && f.before[npages - chunk] == s[npages + Tried(a, |s| - npages)]
            && if 2.0 >= 0.999 * baseline
               then f.swapped == 0 && f.baseline == baseline && f.pages == Restored(s, f.before, restored)
               else f.swapped == 1 && f.baseline == 2.0 && f.pages == Moved(f.before, i, npages, chunk)
  {
    hide *;
    var a := if available >= |s| - npages then 0 else available;
    FixupIs(clock, s, tick, available, i, chunk, npages, baseline, 0.6, restored);
    HalvedIs(clock, Begun(clock, s, tick, i, chunk, npages, 0.6), chunk, npages, 0.6);
    CheapRounds(clock, s, tick, i, chunk, npages, a);
  }

  lemma OutsideAt(s: seq<int>, t: seq<int>, from: nat, to: nat, x: nat)
    requires SameOutside(s, t, from, to) && to <= x < |s|
    ensures |t| == |s| && t[x] == s[x]
  {
  }

  lemma LastKept(s: seq<int>, i: nat, chunk: nat, npages: nat, x: nat)
    requires i + chunk <= npages <= x < |s|
    ensures Moved(s, i, npages, chunk)[x] == s[x]
  {
    if i + chunk < npages { ShiftFirst(s, i, npages, chunk, chunk); }
  }

  lemma CrossesExact(s: seq<int>, t: seq<int>, i: nat, chunk: nat, npages: nat, restored: nat)
    requires NoDup(s) && multiset(t) == multiset(s) && 1 <= chunk && i + chunk <= npages < |s| == |t| && restored <= |s|
    requires SameBelow(Moved(s, i, npages, chunk), t, npages - chunk) && t[npages - chunk] == s[|s| - 1]
    ensures Crosses(s, t, restored) <==> i < restored < |s|
  {
    hide Moved;
    if restored <= i { NothingBefore(s, t, i, npages, chunk, restored); }
    if restored == |s| { WholeBackOut(s, t); }
    if i < restored < |s| {
      if restored <= npages - chunk {
        CrossesInside(s, t, i, npages, chunk, restored);
      } else {
        assert t[npages - chunk] == s[|s| - 1];
      }
    }
  }

  /** Whatever the readings, no page is lost. */
  ghost predicate NeverLoses(s: seq<int>, i: nat, chunk: nat, npages: nat, restored: nat)
    requires 1 <= chunk <= 20 && i + chunk <= npages && npages + 2 <= |s| && restored <= |s|
  {
    forall clock, tick: nat, available: nat, baseline, chunkBaseline ::
      AllKept(clock, s, tick, available, i, chunk, npages, baseline, chunkBaseline, restored)
  }

  ghost predicate AllKept(clock: nat -> real, s: seq<int>, tick: nat, available: nat, i: nat, chunk: nat, npages: nat,
                          baseline: real, chunkBaseline: real, restored: nat)
    requires 1 <= chunk <= 20 && i + chunk <= npages && npages + 2 <= |s| && restored <= |s|
  {
    multiset(Fixup(clock, s, tick, available, i, chunk, npages, baseline, chunkBaseline, restored).pages) == multiset(s)
  }

  /** fixup_chunk keeps all pages for all readings exactly if its copy back takes the whole table or stops before
      the chunk. test_chunk passes it chunks smaller than the slots in use. */
  lemma CopyExact(s: seq<int>, i: nat, chunk: nat, npages: nat, restored: nat)
    requires NoDup(s) && 1 <= chunk <= 20 && i + chunk <= npages && chunk < npages && npages + 2 <= |s| &&
             restored <= |s|
    ensures NeverLoses(s, i, chunk, npages, restored) <==> restored <= i || restored == |s|
  {
    hide Fixup;
    if restored <= i || restored == |s| {
      forall clock, tick: nat, available: nat, baseline, chunkBaseline
        ensures AllKept(clock, s, tick, available, i, chunk, npages, baseline, chunkBaseline, restored)
      {
        FixupKept(clock, s, tick, available, i, chunk, npages, baseline, chunkBaseline, restored);
      }
    } else {
      LosesPage(s, 0, i, chunk, npages, restored);
      assert !AllKept(CheapAt(chunk), s, 0, 0, i, chunk, npages, 1.0, 0.6, restored);
    }
  }

  lemma FixupKept(clock: nat -> real, s: seq<int>, tick: nat, available: nat, i: nat, chunk: nat, npages: nat,
                  baseline: real, chunkBaseline: real, restored: nat)
    requires NoDup(s) && 1 <= chunk <= 20 && i + chunk <= npages && npages + 2 <= |s| && restored <= |s|
    requires restored <= i || restored == |s|
    ensures AllKept(clock, s, tick, available, i, chunk, npages, baseline, chunkBaseline, restored)
  {
    FixupFound(clock, s, tick, available, i, chunk, npages, baseline, chunkBaseline, restored);
    hide Fixup, Moved, Restored, Crosses;
    var t := Fixup(clock, s, tick, available, i, chunk, npages, baseline, chunkBaseline, restored).before;
    FoundLength(s, t);
    MovedSame(t, i, npages, chunk);
    if restored <= i { NothingBefore(s, t, i, npages, chunk, restored); } else { WholeBackOut(s, t); }
    BackOut(s, t, restored);
  }
}
