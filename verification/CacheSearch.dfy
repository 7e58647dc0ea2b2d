/**
 cache.c: the recolouring search. Measured times are whatever the clock says.
 */
module CacheSearch {
  import opened Arith
  import opened Chains
  import opened PageChains
  import opened BitOrder
  import opened MemInit
  import opened PageTables
  import opened MemFacts
  import opened LibMem
  import opened CacheTables
  import opened CacheFixup
  import opened CacheTest
  import opened CacheMeasure
  import opened Options

  /** One measurement: the memory it walked, from where, over which words, with which page last, its time, and
      whether the pages in use were all different. */
  datatype Walked = Walked(mem: seq<int>, start: int, words: set<int>, last: int, time: real, distinct: bool)

  /** Every walk over different pages was one cycle. */
  ghost predicate AllCycles(log: seq<Walked>) {
    forall k | 0 <= k < |log| && log[k].distinct :: OneCycle(log[k].mem, log[k].start, log[k].words)
  }

  /** The lines of the last page a buffer of the given size uses. */
  function UsedLines(size: nat, line: nat, pagesize: nat): nat
    requires line > 0 && pagesize > 0
  {
    if size % pagesize == 0 then pagesize / line else (size % pagesize) / line
  }

  /** Sizes measure can handle: pages in the table, and at least one line of the last page. */
  ghost predicate Measurable(size: nat, line: nat, pagesize: nat, ntotal: nat)
    requires pagesize > 0
  {
    0 < size && NPages(size, pagesize) <= ntotal && (size % pagesize == 0 || size % pagesize >= line)
  }

  lemma UsedBounds(size: nat, line: nat, pagesize: nat, ntotal: nat)
    requires IsPow2(line) && IsPow2(pagesize) && line <= pagesize && Measurable(size, line, pagesize, ntotal)
    ensures 0 < UsedLines(size, line, pagesize) <= pagesize / line && 0 < NPages(size, pagesize)
  {
    LinesFit(line, pagesize);
    CeilBounds(size, pagesize);
    var r := size % pagesize;
    if r != 0 {
      AtLeastOne(line, r);
      DivBounds(r, line, 0, pagesize / line);
    }
  }

  lemma MinusMultiple(x: nat, c: nat, d: nat)
    requires d > 0 && c * d <= x
    ensures (x - c * d) / d == x / d - c && (x - c * d) % d == x % d
  {
    var q := x / d;
    assert x == q * d + x % d;
    Distribute(q - c, c, d);
    DivUnique(x - c * d, d, q - c, x % d);
  }

  lemma MinusPages(len: nat, c: nat, pagesize: nat)
    requires pagesize > 0 && len > 0 && c < NPages(len, pagesize)
    ensures 0 < len - c * pagesize
    ensures NPages(len - c * pagesize, pagesize) == NPages(len, pagesize) - c
    ensures (len - c * pagesize) % pagesize == len % pagesize
  {
    CeilBounds(len, pagesize);
    MulMonotone(c, NPages(len, pagesize) - 1, pagesize);
    MinusMultiple(len + pagesize - 1, c, pagesize);
    MinusMultiple(len, c, pagesize);
  }

  lemma WholeSize(q: nat, pagesize: nat)
    requires pagesize > 0 && q > 0
    ensures 0 < q * pagesize && NPages(q * pagesize, pagesize) == q && (q * pagesize) % pagesize == 0
  {
    MulMonotone(1, q, pagesize);
    DivUnique(q * pagesize + pagesize - 1, pagesize, q, pagesize - 1);
    DivUnique(q * pagesize, pagesize, q, 0);
  }

  /** A size that is a multiple of the line size is measured over exactly that many words. */
  lemma MeasuredSize(pages: seq<int>, lines: seq<int>, words: seq<int>, line: nat, pagesize: nat, bound: int, size: nat,
                     np: nat, used: nat)
    requires Orders(lines, words, line, pagesize) && Framed(pages, pagesize, bound)
    requires Measurable(size, line, pagesize, |pages|) && size % line == 0
    requires np == NPages(size, pagesize) && used == UsedLines(size, line, pagesize) && NoDup(pages[..np])
    ensures 0 < np <= |pages| && 0 < used <= |lines|
    ensures |PageWords(pages[..np], lines, words, used)| == size
  {
    hide *;
    MeasuredReady(pages, lines, words, line, pagesize, bound, size);
    FittingFits(pages, lines, words, line, pagesize, bound, np);
    SizeInLines(size, line, pagesize, |lines|);
    PageWordsCount(pages[..np], lines, words, line, pagesize, bound, used);
  }

  lemma MeasuredReady(pages: seq<int>, lines: seq<int>, words: seq<int>, line: nat, pagesize: nat, bound: int,
                      size: nat)
    requires Orders(lines, words, line, pagesize) && Framed(pages, pagesize, bound) &&
             Measurable(size, line, pagesize, |pages|)
    ensures 0 < size && 0 < NPages(size, pagesize) <= |pages| && 0 < UsedLines(size, line, pagesize) <= |lines|
    ensures |words| == line > 0 && |lines| == pagesize / line && pagesize == |lines| * line > 0
    ensures Fitting(pages, lines, words, line, pagesize, bound) && WordsOf(words, line) && NoDup(words)
    ensures lines[0] == 0 && words[0] == 0
  {
    UsedBounds(size, line, pagesize, |pages|);
    OrdersFit(pages, lines, words, line, pagesize, bound);
  }

  /** Counted in pages and what is left over. */
  lemma SizeInPages(size: nat, pagesize: nat) returns (d: nat, r: nat)
    requires pagesize > 0
    ensures size == d * pagesize + r && r < pagesize && r == size % pagesize
    ensures NPages(size, pagesize) == if r == 0 then d else d + 1
  {
    d, r := size / pagesize, size % pagesize;
    assert size == d * pagesize + r;
    if r == 0 {
      DivUnique(size + pagesize - 1, pagesize, d, pagesize - 1);
    } else {
      DivUnique(size + pagesize - 1, pagesize, d + 1, r - 1);
    }
  }

  /** What is left over of a multiple of the line size is one too. */
  lemma RestInLines(size: nat, d: nat, nl: nat, line: nat, r: nat)
    requires line > 0 && size % line == 0 && size == d * (nl * line) + r
    ensures r == (r / line) * line
  {
    var e := size / line;
    assert size == e * line;
    MulAssoc(d, nl, line);
    Distribute(e - d * nl, d * nl, line);
    assert r == (e - d * nl) * line;
    if e < d * nl { MulMonotone(e - d * nl, -1, line); }
    DivUnique(r, line, e - d * nl, 0);
  }

  lemma SizeInLines(size: nat, line: nat, pagesize: nat, nl: nat)
    requires 0 < size && 0 < line && 0 < pagesize == nl * line && size % line == 0 && nl == pagesize / line
    ensures line * ((NPages(size, pagesize) - 1) * nl + UsedLines(size, line, pagesize)) == size
  {
    var d, r := SizeInPages(size, pagesize);
    var np, u := NPages(size, pagesize), UsedLines(size, line, pagesize);
    RestInLines(size, d, nl, line, r);
    assert u == if r == 0 then nl else r / line;
    hide *;
    MulAssoc(np - 1, nl, line);
    Distribute((np - 1) * nl, u, line);
    if r == 0 { Distribute(d - 1, 1, pagesize); }
  }

  class Searcher {
    const mem: array<int>
    const lines: seq<int>
    const words: seq<int>
    const line: nat
    const pagesize: nat
    const clock: nat -> real
    var pages: seq<int>
    var available: nat
    var tick: nat
    ghost var log: seq<Walked>
    ghost var undone: seq<Undone>

    /** Every page of the table is threaded inside, and every walk so far over different pages was one cycle.
        A page may be in the table twice. */
    ghost predicate Valid()
      reads this, mem
    {
      && Orders(lines, words, line, pagesize) && Framed(pages, pagesize, mem.Length)
      && Inner(mem[..], pages, lines, line)
      && AllCycles(log) && AllBackedOut(undone)
    }

    /** What collect_data starts from: the pages mem_initialize threaded, and the table put back in address
        order. They can be measured exactly if mem_initialize used all lines of the last page. */
    constructor (st: MemState, clock: nat -> real)
      requires st.Laid() && st.len == st.maxlen
      ensures Valid() <==> st.LinesUsed() == st.nlines
      ensures log == [] && undone == [] && available == 0 && mem == st.mem && this.clock == clock
      ensures line == st.line && pagesize == st.pagesize && pages == Multiples(|st.pages|, pagesize) && NoDup(pages)
    {
      this.mem, this.lines, this.words := st.mem, st.lines, st.words;
      this.line, this.pagesize, this.clock := st.line, st.pagesize, clock;
      pages, available, tick, log, undone := st.pages, 0, 0, [], [];
      new;
      ghost var t := pages;
      var i := 0;
      while i < st.npages
        invariant 0 <= i <= st.npages && |pages| == |t| && pages[..i] == Multiples(i, pagesize)
        invariant log == [] && undone == [] && available == 0
      {
        pages := pages[i := i * pagesize];
        i := i + 1;
      }
      assert pages == Multiples(|t|, pagesize);
      LaidReady(st);
      SameNoDup(t, pages);
      SameWithin(pages, t);
      LaidInner(st);
      if Inner(mem[..], t, lines, line) { WithinValid(t); }
      if Valid() { InnerAnyOrder(mem[..], pages, t, lines, line); }
    }

    /** The table holds the same pages as t, in any order. */
    ghost predicate Same(t: seq<int>)
      reads this
    {
      |pages| == |t| && multiset(pages) == multiset(t)
    }

    lemma WithinValid(t: seq<int>)
      requires Orders(lines, words, line, pagesize) && Framed(t, pagesize, mem.Length) && Inner(mem[..], t, lines, line)
      requires AllCycles(log) && AllBackedOut(undone) && Within(pages, t)
      ensures Valid()
    {
      FramedWithin(pages, t, pagesize, mem.Length);
      InnerAnyOrder(mem[..], t, pages, lines, line);
    }

    lemma ReorderedValid(t: seq<int>)
      requires Orders(lines, words, line, pagesize) && Framed(t, pagesize, mem.Length) && Inner(mem[..], t, lines, line)
      requires AllCycles(log) && AllBackedOut(undone) && Same(t)
      ensures Valid()
    {
      SameWithin(pages, t);
      WithinValid(t);
    }

    /** measure: one walk over the first pages of the table; its time is the clock's next reading. It is one
        cycle if these pages are different. */
    method Measure(size: nat) returns (t: real)
      requires Valid() && Measurable(size, line, pagesize, |pages|)
      modifies this`tick, this`log, mem
      ensures Valid() && t == clock(old(tick)) && tick == old(tick) + 1
      ensures 0 < NPages(size, pagesize) <= |pages| && 0 < UsedLines(size, line, pagesize) <= |lines|
      ensures |log| == |old(log)| + 1 && log[..|old(log)|] == old(log)
      ensures Last(log).start == pages[0] && Last(log).last == pages[NPages(size, pagesize) - 1] && Last(log).time == t
      ensures Last(log).words == PageWords(pages[..NPages(size, pagesize)], lines, words,
                                           UsedLines(size, line, pagesize))
      ensures Last(log).distinct <==> NoDup(pages[..NPages(size, pagesize)])
    {
      var npages := NPages(size, pagesize);
      var nlines := UsedLines(size, line, pagesize);
      MeasuredReady(pages, lines, words, line, pagesize, mem.Length, size);
      ghost var during := MeasureChain(mem, pages, lines, words, line, pagesize, npages, nlines);
      if NoDup(pages[..npages]) { ChainWalked(during, npages, nlines); }
      t := clock(tick);
      log := log + [Walked(during, pages[0], PageWords(pages[..npages], lines, words, nlines), pages[npages - 1], t,
                           NoDup(pages[..npages]))];
      tick := tick + 1;
    }

    lemma ChainWalked(during: seq<int>, np: nat, used: nat)
      requires Orders(lines, words, line, pagesize) && Framed(pages, pagesize, mem.Length)
      requires 0 < np <= |pages| && 0 < used <= |lines| && |during| == mem.Length && NoDup(pages[..np])
      requires Threaded(during, pages[..np], lines, words, line, used)
      ensures OneCycle(during, pages[0], PageWords(pages[..np], lines, words, used))
    {
      hide *;
      WalkReady(np);
      ThreadedIsOneCycle(during, pages[..np], lines, words, line, used, pagesize);
    }

    lemma WalkReady(np: nat)
      requires Orders(lines, words, line, pagesize) && Framed(pages, pagesize, mem.Length)
      requires 0 < np <= |pages| && NoDup(pages[..np])
      ensures |words| > 0 && |lines| > 0 && pagesize > 0 && pages[..np][0] + lines[0] + words[0] == pages[0]
      ensures Fits(Flatten(Singles(pages[..np])), lines, words, line, pagesize, mem.Length)
    {
      OrdersFit(pages, lines, words, line, pagesize, mem.Length);
      FittingFits(pages, lines, words, line, pagesize, mem.Length, np);
    }

    /** remove_chunk: one walk without the chunk, over the table Removed describes; then the table is as before. */
    method RemoveChunk(i: nat, chunk: nat, npages: nat, len: nat) returns (t: real)
      requires Valid() && 0 < chunk < npages <= |pages| && i + chunk <= npages
      requires len > 0 && NPages(len, pagesize) == npages && Measurable(len, line, pagesize, |pages|)
      modifies this`pages, this`tick, this`log, mem
      ensures Valid() && pages == old(pages) && t == clock(old(tick)) && tick == old(tick) + 1
      ensures |log| == |old(log)| + 1 && log[..|old(log)|] == old(log)
      ensures 0 < UsedLines(len, line, pagesize) <= |lines| && |Removed(pages, i, npages, chunk)| == |pages|
      ensures Last(log).words == PageWords(Removed(pages, i, npages, chunk)[..npages - chunk], lines, words,
                                           UsedLines(len, line, pagesize))
    {
      hide *;
      RemoveReady(chunk, len);
      ghost var s := pages;
      SwapTowards(i, chunk, npages);
      SwappedValid(s, i, npages, chunk);
      t := Measure(len - chunk * pagesize);
      ghost var r := pages;
      ValidParts();
      SwapTowards(i, chunk, npages);
      SwappedValid(r, i, npages, chunk);
      RemovedTwice(s, i, npages, chunk);
    }

    lemma RemoveReady(chunk: nat, len: nat)
      requires Valid() && 0 < chunk && len > 0 && chunk < NPages(len, pagesize) <= |pages|
      requires Measurable(len, line, pagesize, |pages|)
      ensures 0 <= len - chunk * pagesize && Measurable(len - chunk * pagesize, line, pagesize, |pages|)
      ensures NPages(len - chunk * pagesize, pagesize) == NPages(len, pagesize) - chunk
      ensures UsedLines(len - chunk * pagesize, line, pagesize) == UsedLines(len, line, pagesize)
      ensures Orders(lines, words, line, pagesize) && Framed(pages, pagesize, mem.Length) &&
              Inner(mem[..], pages, lines, line)
      ensures AllCycles(log) && AllBackedOut(undone)
      ensures line > 0 && pagesize > 0
    {
      MinusPages(len, chunk, pagesize);
    }

    lemma ValidParts()
      requires Valid()
      ensures Orders(lines, words, line, pagesize) && Framed(pages, pagesize, mem.Length) &&
              Inner(mem[..], pages, lines, line)
      ensures AllCycles(log) && AllBackedOut(undone)
    {
    }

    lemma RemovedTwice(s: seq<int>, i: nat, n: nat, c: nat)
      requires i + c <= n <= |s|
      ensures |Removed(s, i, n, c)| == |s| && Removed(Removed(s, i, n, c), i, n, c) == s
    {
      if i + c < n { PassTwice(s, i, n, c); }
    }

    lemma SwappedValid(s: seq<int>, i: nat, n: nat, c: nat)
      requires Orders(lines, words, line, pagesize) && Framed(s, pagesize, mem.Length) && Inner(mem[..], s, lines, line)
      requires AllCycles(log) && AllBackedOut(undone)
      requires i + c <= n <= |s| && pages == Removed(s, i, n, c)
      ensures Valid() && |pages| == |s|
    {
      if i + c < n { PassSame(s, i, n, c); }
      ReorderedValid(s);
    }

    /** Unless the chunk is the last: its pages and those at the end of the slots in use change places, the
        outermost first, going towards each other. */
    method SwapTowards(i: nat, chunk: nat, npages: nat)
      requires i + chunk <= npages <= |pages|
      modifies this`pages
      ensures pages == Removed(old(pages), i, npages, chunk)
    {
      if i + chunk < npages {
        ghost var s := pages;
        PassStart(s, i, npages);
        var j := 0;
        while j < chunk
          invariant j <= chunk && pages == Pass(s, i, npages, j)
        {
          PassStep(s, i, npages, j);
          pages := SwapAt(pages, i + j, npages - 1 - j);
          j := j + 1;
        }
      }
    }

    // ----- the steps of fixup_chunk

    /** Two pages change places. */
    method Swap(i: nat, j: nat)
      requires Valid() && i < |pages| && j < |pages|
      modifies this`pages
      ensures Valid() && pages == SwapAt(old(pages), i, j) && Same(old(pages))
    {
      ghost var s := pages;
      pages := SwapAt(pages, i, j);
      SwapSame(s, i, j);
      ReorderedValid(s);
    }

    /** Exchanges the chunk with the last slots in use, page by page. */
    method MoveChunk(i: nat, chunk: nat, npages: nat)
      requires Valid() && i + chunk <= npages <= |pages|
      modifies this`pages
      ensures Valid() && pages == Moved(old(pages), i, npages, chunk) && Same(old(pages))
    {
      ghost var s := pages;
      ValidParts();
      if i + chunk < npages {
        ShiftStart(s, i, npages, chunk);
        var j := 0;
        while j < chunk
          invariant j <= chunk && pages == Shift(s, i, npages, chunk, j)
        {
          ShiftNext(s, i, npages, chunk, j);
          pages := SwapAt(pages, i + j, npages - chunk + j);
          j := j + 1;
        }
      }
      MovedSame(s, i, npages, chunk);
      IsSame(s);
      ReorderedValid(s);
    }

    lemma IsSame(t: seq<int>)
      requires |pages| == |t| && multiset(pages) == multiset(t)
      ensures Same(t)
    {
    }

    /** measure on the first q pages, whole. */
    method MeasurePages(q: nat) returns (t: real)
      requires Valid() && 0 < q <= |pages|
      modifies this`tick, this`log, mem
      ensures Valid() && |log| == |old(log)| + 1 && old(log) <= log && Clocked(log, pages[q - 1], t)
      ensures Last(log).words == PageWords(pages[..q], lines, words, |lines|) && |lines| > 0
      ensures t == clock(old(tick)) && tick == old(tick) + 1
    {
      assert pagesize > 0;
      WholeSize(q, pagesize);
      assert UsedLines(q * pagesize, line, pagesize) == |lines|;
      hide Valid;
      t := Measure(q * pagesize);
      LastClocked(log, pages[q - 1], t);
    }

    /** Exchanges entries i and j of the n pages at `at` and of their latencies. */
    method SwapBoth(n: nat, at: nat, lat: array<real>, from: nat, i: nat, j: nat)
      requires Valid() && at + n <= |pages| && from + n <= lat.Length && i < j < n
      modifies this`pages, lat
      ensures Valid() && pages == SwapAt(old(pages), at + i, at + j) && Same(old(pages))
      ensures lat[..] == SwapAt(old(lat[..]), from + i, from + j)
    {
      hide Valid;
      lat[from + i], lat[from + j] := lat[from + j], lat[from + i];
      Swap(at + i, at + j);
    }

    /** The inner loop of pagesort: entry i becomes the least of those from i on. */
    method SortPass(n: nat, at: nat, lat: array<real>, from: nat, i: nat, ghost p0: seq<int>, ghost l0: seq<real>)
      requires Valid() && at + n <= |pages| && from + n <= lat.Length && i < n
      requires SortedTo(lat[from..from + n], i) && SortedPart(p0, l0, pages, lat[..], at, from, n)
      modifies this`pages, lat
      ensures Valid() && Same(old(pages))
      ensures SortedTo(lat[from..from + n], i + 1) && SortedPart(p0, l0, pages, lat[..], at, from, n)
      ensures Part(pages, lat[..]) == SortRow(Part(old(pages), old(lat[..])), at, from, n, i, i + 1)
    {
      hide *;
      ghost var t, start := pages, Part(pages, lat[..]);
      IsSame(t);
      SliceLength(lat[..], from, n);
      LeastStart(lat[from..from + n], i);
      var j := i + 1;
      while j < n
        invariant i < j <= n && Valid() && Same(t) && |pages| == |t|
        invariant SortedTo(lat[from..from + n], i) && LeastTo(lat[from..from + n], i, j)
        invariant SortedPart(p0, l0, pages, lat[..], at, from, n)
        invariant SortRow(Part(pages, lat[..]), at, from, n, i, j) == SortRow(start, at, from, n, i, i + 1)
      {
        ghost var l, p := lat[from..from + n], pages;
        SortStep(l, i, j);
        RowStep(Part(pages, lat[..]), at, from, n, i, j);
        if lat[from + i] > lat[from + j] {
          PartStep(p0, l0, pages, lat[..], at, from, n, i, j);
          SwapSlice(lat[..], from, n, i, j);
          SameParts(t);
          SwapBoth(n, at, lat, from, i, j);
          SameStill(p, t);
          SliceIs(lat, from, n);
        }
        j := j + 1;
      }
      RowEnd(Part(pages, lat[..]), at, from, n, i, j);
      SortRound(lat[from..from + n], i);
    }

    lemma SameParts(t: seq<int>)
      requires Same(t)
      ensures |pages| == |t| && multiset(pages) == multiset(t)
    {
    }

    lemma SameStill(p: seq<int>, t: seq<int>)
      requires Same(p) && |p| == |t| && multiset(p) == multiset(t)
      ensures Same(t) && |pages| == |t|
    {
    }

    /** Sorts n pages by their latencies, smallest first; each page keeps its latency.
        For n == 0 the source's bound n - 1 wraps around and its loops swap nothing. */
    method PageSort(n: nat, at: nat, lat: array<real>, from: nat)
      requires Valid() && at + n <= |pages| && from + n <= lat.Length
      modifies this`pages, lat
      ensures Valid() && Same(old(pages))
      ensures SortedPart(old(pages), old(lat[..]), pages, lat[..], at, from, n)
      ensures SortedTo(lat[from..from + n], n)
      ensures Part(pages, lat[..]) == SortRows(Part(old(pages), old(lat[..])), at, from, n, 0)
    {
      ghost var p0, l0, start := pages, lat[..], Part(pages, lat[..]);
      var i := 0;
      assert SortedTo(lat[from..from + n], 0) && SortedPart(p0, l0, pages, lat[..], at, from, n);
      hide Valid, Pairs, SortedTo, SortedPart, SortRows, SortRow, Same;
      while i < n - 1
        invariant 0 <= i && (i < n || n == 0) && Valid() && Same(p0) && SortedTo(lat[from..from + n], i)
        invariant SortedPart(p0, l0, pages, lat[..], at, from, n) && |pages| == |p0|
        invariant SortRows(Part(pages, lat[..]), at, from, n, i) == SortRows(start, at, from, n, 0)
      {
        ghost var p := pages;
        RowsStep(Part(pages, lat[..]), at, from, n, i);
        SameParts(p0);
        SortPass(n, at, lat, from, i, p0, l0);
        SameStill(p, p0);
        i := i + 1;
      }
      RowsEnd(Part(pages, lat[..]), at, from, n, i);
      SortEnd(lat[from..from + n], i);
    }

    // ----- fixup_chunk

    /** One round of the first loop. */
    method KeepOne(chunk: nat, npages: nat, lat: array<real>, base: real, ghost s: seq<int>, j: nat, k: nat)
      returns (j': nat, k': nat)
      requires Valid() && Same(s) && j < k <= chunk <= npages <= |pages| && chunk <= lat.Length
      requires Kept(lat[..], 0, j, base) && Costly(lat[..], k, chunk, base)
      requires Matched(log, pages, lat[..], npages - chunk, 0, j) &&
               Matched(log, pages, lat[..], npages - chunk, k, chunk)
      requires SameOutside(s, pages, npages - chunk, npages)
      modifies this`pages, this`tick, this`log, mem, lat
      ensures j' <= k' <= chunk && k' - j' == k - j - 1 && Valid() && Same(s) && old(log) <= log &&
              |log| == |old(log)| + 1
      ensures Kept(lat[..], 0, j', base) && Costly(lat[..], k', chunk, base)
      ensures Matched(log, pages, lat[..], npages - chunk, 0, j') &&
              Matched(log, pages, lat[..], npages - chunk, k', chunk)
      ensures SameOutside(s, pages, npages - chunk, npages)
      ensures Stage(pages, lat[..], j', k', tick) ==
              KeptOrAside(Stage(old(pages), old(lat[..]), j, k, old(tick)), npages - chunk, clock(old(tick)), base)
    {
      hide Valid, SwapAt, Matched, Clocked, SameOutside;
      ghost var log0, p, lat0 := log, pages, lat[..];
      j', k' := j, k;
      var t := MeasurePages(npages - chunk + j + 1);
      MatchedMore(log0, log, p, lat0, npages - chunk, 0, j);
      MatchedMore(log0, log, p, lat0, npages - chunk, k, chunk);
      if 0.995 * t <= base {
        lat[j] := t;
        MatchedKept(log, p, lat0, npages - chunk, j, k, chunk, t);
        j' := j + 1;
      } else {
        k' := k - 1;
        lat[k'] := t;
        MatchedAside(log, p, lat0, npages - chunk, j, k', chunk, t);
        SwapInside(s, p, npages - chunk, npages, npages - chunk + j, npages - chunk + k');
        Swap(npages - chunk + j, npages - chunk + k');
      }
    }

    /** The first loop: with the chunk out, its pages come back one by one; those that cost nothing stay,
        the others are put aside behind them. */
    method KeepPages(chunk: nat, npages: nat, lat: array<real>, base: real) returns (j: nat)
      requires Valid() && 0 < chunk <= npages <= |pages| && chunk <= lat.Length
      modifies this`pages, this`tick, this`log, mem, lat
      ensures j <= chunk && Valid() && Same(old(pages)) && old(log) <= log && |log| == |old(log)| + chunk
      ensures Kept(lat[..], 0, j, base) && Costly(lat[..], j, chunk, base)
      ensures Matched(log, pages, lat[..], npages - chunk, 0, chunk)
      ensures SameOutside(old(pages), pages, npages - chunk, npages)
      ensures Stage(pages, lat[..], j, j, tick) ==
              Keep(clock, Stage(old(pages), old(lat[..]), 0, chunk, old(tick)), npages - chunk, base)
    {
      ghost var s, l, start := pages, log, Stage(pages, lat[..], 0, chunk, tick);
      NothingYet(pages, lat[..], base, chunk, npages);
      IsSame(s);
      hide *;
      NoneMatched(log, pages, lat[..], npages - chunk, 0);
      NoneMatched(log, pages, lat[..], npages - chunk, chunk);
      var k := chunk;
      j := 0;
      while j < k
        invariant j <= k <= chunk && Valid() && Same(s) && |pages| == |s| && l <= log && |log| == |l| + j + (chunk - k)
        invariant Kept(lat[..], 0, j, base) && Costly(lat[..], k, chunk, base)
        invariant Matched(log, pages, lat[..], npages - chunk, 0, j) &&
                  Matched(log, pages, lat[..], npages - chunk, k, chunk)
        invariant SameOutside(s, pages, npages - chunk, npages)
        invariant Keep(clock, Stage(pages, lat[..], j, k, tick), npages - chunk, base) ==
                  Keep(clock, start, npages - chunk, base)
      {
        KeepStep(clock, Stage(pages, lat[..], j, k, tick), npages - chunk, base);
        j, k := KeepOne(chunk, npages, lat, base, s, j, k);
        SameParts(s);
      }
      KeepEnd(clock, Stage(pages, lat[..], j, k, tick), npages - chunk, base);
      MatchedJoin(log, pages, lat[..], npages - chunk, j, chunk);
    }

    /** One measurement with a spare page in place of one of the chunk's. */
    method TryPage(original: nat, spare: nat, size: nat) returns (t: real)
      requires Valid() && original < |pages| && spare < |pages| && Measurable(size, line, pagesize, |pages|)
      requires NPages(size, pagesize) == original + 1
      modifies this`pages, this`tick, this`log, mem
      ensures Valid() && pages == old(pages) && old(log) <= log && Clocked(log, pages[spare], t)
      ensures t == clock(old(tick)) && tick == old(tick) + 1
      ensures |log| == |old(log)| + 1 && 0 < UsedLines(size, line, pagesize) <= |lines|
      ensures Last(log).words == PageWords(SwapAt(pages, original, spare)[..original + 1], lines, words,
                                           UsedLines(size, line, pagesize))
    {
      SwapBack(pages, original, spare);
      hide Valid, SwapAt, Measurable, NPages, UsedLines, PageWords;
      Swap(original, spare);
      t := Measure(size);
      LastClocked(log, pages[original], t);
      Swap(original, spare);
    }

    /** The size to measure for the j-th page of the chunk: whole pages, or all of len for the last one. */
    function SubsetLen(j: nat, chunk: nat, npages: nat, len: nat): nat
      requires j < chunk <= npages && pagesize > 0
    {
      if j == chunk - 1 && len % pagesize != 0 then len else (npages - chunk + j + 1) * pagesize
    }

    lemma SubsetMeasurable(j: nat, chunk: nat, npages: nat, len: nat)
      requires Valid() && j < chunk <= npages <= |pages|
      requires Spans(len, npages, line, pagesize, |pages|)
      ensures pagesize > 0 && line > 0 && Measurable(SubsetLen(j, chunk, npages, len), line, pagesize, |pages|)
      ensures UsedLines(SubsetLen(j, chunk, npages, len), line, pagesize) ==
              if j == chunk - 1 && len % pagesize != 0 then (len % pagesize) / line else |lines|
      ensures NPages(SubsetLen(j, chunk, npages, len), pagesize) == npages - chunk + j + 1
    {
      assert pagesize > 0;
      WholeSize(npages - chunk + j + 1, pagesize);
    }

    /** The best page seen takes the place of the worst, and the pages not kept yet are sorted again. */
    method Settle(j: nat, spare: nat, chunk: nat, npages: nat, lat: array<real>)
      requires Valid() && j < chunk <= npages && npages <= spare < |pages| && chunk <= lat.Length
      modifies this`pages, lat
      ensures Valid() && Same(old(pages))
      ensures Settled(old(pages), old(lat[..]), pages, lat[..], npages, chunk, j, spare)
      ensures Part(pages, lat[..]) ==
              SortRows(Part(SwapAt(old(pages), npages - 1, spare), old(lat[..])), npages - chunk + j, j, chunk - j, 0)
    {
      hide Valid, SwapAt, SortedTo, SortedPart, SortRows;
      Swap(npages - 1, spare);
      PageSort(chunk - j, npages - chunk + j, lat, j);
    }

    /** One round of the second loop: tries the spare page as the chunk's j-th page. */
    method TrySubstitute(j: nat, spare: nat, chunk: nat, npages: nat, len: nat, lat: array<real>) returns (t: real)
      requires Valid() && j < chunk <= npages && npages <= spare < |pages| && chunk <= lat.Length
      requires Spans(len, npages, line, pagesize, |pages|)
      modifies this`pages, this`tick, this`log, mem, lat
      ensures Valid() && Same(old(pages)) && old(log) <= log && Clocked(log, old(pages)[spare], t)
      ensures if t < old(lat[chunk - 1])
              then Settled(old(pages), old(lat[..])[chunk - 1 := t], pages, lat[..], npages, chunk, j, spare)
              else pages == old(pages) && lat[..] == old(lat[..])
      ensures t == clock(old(tick)) && tick == old(tick) + 1
      ensures var used := if j == chunk - 1 && len % pagesize != 0 then (len % pagesize) / line else |lines|;
              && |log| == |old(log)| + 1 && 0 < used <= |lines|
              && Last(log).words == PageWords(SwapAt(old(pages), npages - chunk + j, spare)[..npages - chunk + j + 1],
                                              lines, words, used)
      ensures Part(pages, lat[..]) == Taken(Part(old(pages), old(lat[..])), t, spare, chunk, npages, j)
    {
      SubsetMeasurable(j, chunk, npages, len);
      hide Valid, Spans, Measurable, SubsetLen, Settled, NPages, Clocked, SortRows, SwapAt, UsedLines, PageWords;
      t := TryPage(npages - chunk + j, spare, SubsetLen(j, chunk, npages, len));
      ghost var l := lat[..];
      if t < lat[chunk - 1] {
        lat[chunk - 1] := t;
        assert lat[..] == l[chunk - 1 := t];
        Settle(j, spare, chunk, npages, lat);
      }
    }

    method SetAvailable(v: nat)
      requires Valid()
      modifies this`available
      ensures Valid() && available == v
    {
      available := v;
    }

    /** The k-th round of the second loop. It never leaves the table when there are two spare pages: the
        spare it tries is one of the nspare - 1 last ones. */
    method Round(k: nat, chunk: nat, npages: nat, len: nat, base: real, ghost s: seq<int>, ghost j0: nat, j: nat,
                 lat: array<real>)
      returns (next: nat)
      requires Valid() && j0 <= j < chunk <= npages && npages + 2 <= |pages| && chunk <= lat.Length
      requires Spans(len, npages, line, pagesize, |pages|)
      requires Kept(lat[..], j0, j, base) && Rising(lat[..], j, chunk) && SameBelow(s, pages, npages - chunk + j0)
      requires Matched(log, pages, lat[..], npages - chunk, 0, chunk)
      modifies this`pages, this`tick, this`log, mem, lat
      ensures Valid() && Same(old(pages)) && old(log) <= log && j <= next <= j + 1
      ensures Kept(lat[..], j0, next, base) && Rising(lat[..], next, chunk) && SameBelow(s, pages, npages - chunk + j0)
      ensures Matched(log, pages, lat[..], npages - chunk, 0, chunk)
      ensures Stage(pages, lat[..], next, k + 1, tick) ==
              TryRound(clock, Stage(old(pages), old(lat[..]), j, k, old(tick)), chunk, npages, base, available)
    {
      hide *;
      ghost var log0, p, before, tick0 := log, pages, lat[..], tick;
      var substitute := Tried(k + available, |pages| - npages);
      var t := TrySubstitute(j, npages + substitute, chunk, npages, len, lat);
      MatchedMore(log0, log, p, before, npages - chunk, 0, chunk);
      RoundDone(log, s, p, before, pages, lat[..], npages, chunk, j0, j, npages + substitute, base, t);
      next := if 0.995 * lat[j] <= base then j + 1 else j;
      KeptNext(lat[..], j0, j, next, chunk, base);
      RoundIs(clock, Stage(p, before, j, k, tick0), chunk, npages, base, available);
    }

    /** The second loop: spare pages are tried until every page of the chunk is cheap, or 2 * npages rounds. */
    method SpareRounds(chunk: nat, npages: nat, len: nat, base: real, j0: nat, lat: array<real>)
      returns (j: nat, swapped: nat, k: nat)
      requires Valid() && j0 <= chunk && 0 < chunk <= npages && npages + 2 <= |pages| && chunk <= lat.Length
      requires Spans(len, npages, line, pagesize, |pages|)
      requires Rising(lat[..], j0, chunk) && Matched(log, pages, lat[..], npages - chunk, 0, chunk)
      modifies this`pages, this`tick, this`log, mem, lat
      ensures j0 <= j <= chunk && swapped == j - j0 && Valid() && Same(old(pages)) && |pages| == |old(pages)| &&
              old(log) <= log
      ensures Kept(lat[..], j0, j, base) && Rising(lat[..], j, chunk)
      ensures Matched(log, pages, lat[..], npages - chunk, 0, chunk)
      ensures SameBelow(old(pages), pages, npages - chunk + j0)
      ensures Stage(pages, lat[..], j, k, tick) ==
              Rounds(clock, Stage(old(pages), old(lat[..]), j0, 0, old(tick)), chunk, npages, base, available)
    {
      hide *;
      ghost var s, l := pages, log;
      ghost var end := Rounds(clock, Stage(pages, lat[..], j0, 0, tick), chunk, npages, base, available);
      BelowItself(s, npages - chunk + j0);
      NoneKept(lat[..], j0, base);
      IsSame(s);
      k := 0;
      j, swapped := j0, 0;
      while j < chunk && k < 2 * npages
        invariant j0 <= j <= chunk && Valid() && Same(s) && |pages| == |s| && l <= log
        invariant Kept(lat[..], j0, j, base) && Rising(lat[..], j, chunk)
        invariant SameBelow(s, pages, npages - chunk + j0)
        invariant Matched(log, pages, lat[..], npages - chunk, 0, chunk)
        invariant Rounds(clock, Stage(pages, lat[..], j, k, tick), chunk, npages, base, available) == end
        invariant swapped == j - j0
        decreases 2 * npages - k
      {
        ghost var p := pages;
        SameParts(s);
        RoundsStep(clock, Stage(pages, lat[..], j, k, tick), chunk, npages, base, available);
        var next := Round(k, chunk, npages, len, base, s, j0, j, lat);
        SameStill(p, s);
        if next > j { swapped := swapped + 1; }
        j := next;
        k := k + 1;
      }
      RoundsEnd(clock, Stage(pages, lat[..], j, k, tick), chunk, npages, base, available);
    }

    /** Then the rounds are counted for the next time. */
    method Substitute(chunk: nat, npages: nat, len: nat, base: real, j0: nat, lat: array<real>)
      returns (j: nat, swapped: nat)
      requires Valid() && j0 <= chunk && 0 < chunk <= npages && npages + 2 <= |pages| && chunk <= lat.Length
      requires Spans(len, npages, line, pagesize, |pages|)
      requires Rising(lat[..], j0, chunk) && Matched(log, pages, lat[..], npages - chunk, 0, chunk)
      modifies this`pages, this`tick, this`log, this`available, mem, lat
      ensures j0 <= j <= chunk && swapped == j - j0
      ensures Valid() && Same(old(pages)) && old(log) <= log && available < |pages| - npages - 1
      ensures Kept(lat[..], j0, j, base) && Rising(lat[..], j, chunk)
      ensures Matched(log, pages, lat[..], npages - chunk, 0, chunk)
      ensures SameBelow(old(pages), pages, npages - chunk + j0)
      ensures var e := Rounds(clock, Stage(old(pages), old(lat[..]), j0, 0, old(tick)), chunk, npages, base,
                              old(available));
              pages == e.pages && lat[..] == e.lat && j == e.j && tick == e.tick
              && available == Later(e.k + old(available), |pages| - npages)
    {
      hide *;
      var k;
      ghost var s := pages;
      var nspare := |pages| - npages;
      j, swapped, k := SpareRounds(chunk, npages, len, base, j0, lat);
      SameParts(s);
      SetAvailable(Later(k + available, nspare));
      IsSame(s);
    }

    /** Up to the sorted chunk: the pages are those of Begun, and below the chunk those of the moved table. */
    method FirstLoops(i: nat, chunk: nat, npages: nat, base: real, latencies: array<real>) returns (j: nat)
      requires Valid() && 0 < chunk <= 20 && i + chunk <= npages <= |pages|
      requires latencies[..] == NoTimes()
      modifies this`pages, this`tick, this`log, this`available, mem, latencies
      ensures j <= chunk && Valid() && Same(old(pages)) && old(log) <= log && |log| == |old(log)| + chunk
      ensures latencies.Length == 20 && Kept(latencies[..], 0, j, base) && Rising(latencies[..], j, chunk)
      ensures Matched(log, pages, latencies[..], npages - chunk, 0, chunk)
      ensures SameBelow(Moved(old(pages), i, npages, chunk), pages, npages - chunk)
      ensures Stage(pages, latencies[..], j, 0, tick) == Begun(clock, old(pages), old(tick), i, chunk, npages, base)
      ensures available == if old(available) >= |pages| - npages then 0 else old(available)
    {
      hide Matched, Valid, Kept, Costly, Rising, SameOutside, SameBelow, Moved, SortedPart, SortedTo, SortRows, Keep;
      assert latencies.Length == |latencies[..]| == 20;
      MoveChunk(i, chunk, npages);
      ghost var moved := pages;
      if available >= |pages| - npages { SetAvailable(0); }
      j := KeepPages(chunk, npages, latencies, base);
      ghost var p, lat := pages, latencies[..];
      PageSort(chunk - j, npages - chunk + j, latencies, j);
      SortedTail(lat, latencies[..], p, pages, npages - chunk + j, j, chunk, base);
      MatchedSorted(log, p, lat, pages, latencies[..], npages - chunk, j, chunk);
      BelowSorted(moved, p, lat, pages, latencies[..], npages, chunk, j);
    }

    /** The middle of fixup_chunk: the rounds of substitution, after halving the chunk where it is all there is. */
    method LaterLoops(chunk: nat, npages: nat, len: nat, base: real, first: nat, latencies: array<real>)
      returns (swapped: nat)
      requires Valid() && first <= chunk && 0 < chunk <= npages && npages + 2 <= |pages| && chunk <= latencies.Length
      requires Spans(len, npages, line, pagesize, |pages|)
      requires Rising(latencies[..], first, chunk) && Matched(log, pages, latencies[..], npages - chunk, 0, chunk)
      modifies this`pages, this`tick, this`log, this`available, mem, latencies
      ensures Valid() && Same(old(pages)) && old(log) <= log && SameBelow(old(pages), pages, npages - chunk)
      ensures var b := Stage(old(pages), old(latencies[..]), first, 0, old(tick));
              var h := Halved(clock, b, chunk, npages);
              var e := Rounds(clock, h, chunk, npages, Price(clock, b, chunk, npages, base), old(available));
              pages == e.pages && tick == e.tick && swapped == e.j - h.j
              && available == Later(e.k + old(available), |pages| - npages)
    {
      hide *;
      ghost var s, b := pages, Stage(pages, latencies[..], first, 0, tick);
      var j, price := first, base;
      if chunk >= npages && j < chunk / 2 {
        RisingLater(latencies[..], j, chunk / 2, chunk);
        j := chunk / 2;
        ghost var log0 := log;
        price := MeasurePages(npages - chunk + j + 1);
        MatchedMore(log0, log, pages, latencies[..], npages - chunk, 0, chunk);
      }
      HalvedIs(clock, b, chunk, npages, base);
      ghost var h := j;
      j, swapped := Substitute(chunk, npages, len, price, j, latencies);
      BelowLess(s, pages, npages - chunk, npages - chunk + h);
    }

    /** fixup_chunk. before is the table as the search left it; it is kept unless swapping brought nothing
        worth having, and then its first `restored` entries are overwritten with what they were on entry. */
    method FixupChunk(i: nat, chunk: nat, npages: nat, len: nat, baseline: real, chunkBaseline: real, restored: nat)
      returns (swapped: nat, newBaseline: real, ghost before: seq<int>)
      requires Valid() && 1 <= chunk <= 20 && i + chunk <= npages && npages + 2 <= |pages|
      requires Spans(len, npages, line, pagesize, |pages|) && restored <= |pages|
      modifies this`pages, this`tick, this`log, this`available, this`undone, mem
      ensures Valid() && old(log) <= log && |log| >= |old(log)| + chunk
      ensures Fixed(swapped, newBaseline, before, pages, tick, available) ==
              Fixup(clock, old(pages), old(tick), old(available), i, chunk, npages, baseline, chunkBaseline, restored)
      ensures swapped > 0 ==> newBaseline < 0.999 * baseline
      ensures swapped == 0 ==> newBaseline == baseline
      ensures |before| == |old(pages)| && multiset(before) == multiset(old(pages))
      ensures SameBelow(Moved(old(pages), i, npages, chunk), before, npages - chunk)
      ensures if undone == old(undone) then Same(old(pages))
              else undone == old(undone) + [Undone(old(pages), before, i, npages, chunk, restored)]
                   && pages == Restored(old(pages), before, restored)
    {
      hide *;
      var latencies := new real[20](_ => 0.0);
      ZeroTimes(latencies);
      var saved := pages;
      FixupIs(clock, saved, tick, available, i, chunk, npages, baseline, chunkBaseline, restored);
      var j := FirstLoops(i, chunk, npages, chunkBaseline, latencies);
      SameParts(saved);
      ghost var p := pages;
      swapped := LaterLoops(chunk, npages, len, chunkBaseline, j, latencies);
      SameStill(p, saved);
      SameParts(saved);
      before := pages;
      BelowBoth(Moved(saved, i, npages, chunk), p, before, npages - chunk);
      newBaseline := baseline;
      if swapped > 0 {
        newBaseline := Measured(len, npages);
        if newBaseline >= 0.999 * baseline {
          swapped, newBaseline := 0, baseline;
          IsSame(saved);
          PutBack(saved, restored, i, npages, chunk);
        } else {
          MoveChunk(i, chunk, npages);
          SameStill(before, saved);
        }
      }
    }

    /** measure on the whole buffer. */
    method Measured(len: nat, npages: nat) returns (t: real)
      requires Valid() && Spans(len, npages, line, pagesize, |pages|)
      modifies this`tick, this`log, mem
      ensures Valid() && old(log) <= log && |log| == |old(log)| + 1 && t == clock(old(tick)) && tick == old(tick) + 1
      ensures 0 < npages <= |pages| && 0 < UsedLines(len, line, pagesize) <= |lines|
      ensures Last(log).words == PageWords(pages[..npages], lines, words, UsedLines(len, line, pagesize))
    {
      t := Measure(len);
    }

    lemma RestoredTables(saved: seq<int>, t: seq<int>, r: nat)
      requires r <= |saved| == |t| && pages == Restored(saved, t, r) && Within(saved, t)
      ensures |pages| == |t| && Within(pages, t)
    {
      forall p | p in pages ensures p in t {
        if p in saved[..r] { assert p in saved; } else { assert p in t[r..]; }
      }
    }

    /** Backs out: the first r entries of the table are overwritten with the saved ones. */
    method PutBack(saved: seq<int>, r: nat, ghost i: nat, ghost n: nat, ghost c: nat)
      requires Valid() && r <= |saved| && Same(saved) && 0 < c && i + c <= n && n + 2 <= |saved|
      requires SameBelow(Moved(saved, i, n, c), pages, n - c)
      modifies this`pages, this`undone
      ensures Valid() && |pages| == |saved| == |old(pages)| && pages == Restored(saved, old(pages), r)
      ensures undone == old(undone) + [Undone(saved, old(pages), i, n, c, r)]
    {
      ghost var t, u := pages, Undone(saved, pages, i, n, c, r);
      pages := saved[..r] + pages[r..];
      OneBackOut(u, undone);
      SameWithin(t, saved);
      RestoredTables(saved, t, r);
      undone := undone + [u];
      WithinValid(t);
    }

    // ----- test_chunk and collect_sample

    /** What the back-outs since the table was t have left of it. */
    ghost predicate Keeps(t: seq<int>, from: nat, restored: nat)
      requires AllBackedOut(undone)
      reads this
    {
      Copied(t, pages, undone, from, restored)
    }

    lemma KeepsStart(restored: nat)
      requires Valid()
      ensures AllBackedOut(undone) && Keeps(pages, |undone|, restored)
    {
      SameConserved(pages, pages, undone);
    }

    lemma KeepsNow(t: seq<int>, from: nat, restored: nat)
      requires Valid() && Keeps(t, from, restored)
      ensures AllBackedOut(undone) && Copied(t, pages, undone, from, restored)
    {
    }

    lemma KeepsOn(t: seq<int>, w: seq<int>, u: seq<Undone>, from: nat, restored: nat)
      requires Valid() && AllBackedOut(u) && Copied(t, w, u, from, restored) && u <= undone
      requires Keeps(w, |u|, restored)
      ensures Keeps(t, from, restored) && |pages| == |t|
    {
      ConservedThen(t, w, pages, u, undone, from);
      forall k | from <= k < |undone| ensures undone[k].r == restored && |undone[k].saved| == |t| {
        if k < |u| { assert undone[k] == u[k]; }
      }
    }

    /** A copy of the whole table keeps the pages in any case. */
    lemma KeepsAll(t: seq<int>, from: nat)
      requires Valid() && Keeps(t, from, |t|)
      ensures |pages| == |t| && (NoDup(t) ==> Same(t))
    {
      WholeKeeps(undone, from, |t|);
    }

    lemma FixupKeeps(s: seq<int>, u: seq<Undone>, before: seq<int>, i: nat, n: nat, c: nat, restored: nat)
      requires Valid() && AllBackedOut(u) && |before| == |s| && restored <= |s|
      requires if undone == u then Same(s)
               else undone == u + [Undone(s, before, i, n, c, restored)] && pages == Restored(s, before, restored)
      ensures u <= undone && Keeps(s, |u|, restored) && |pages| == |s|
    {
      hide Crosses, Restored, BackedOut;
      if undone == u {
        SameConserved(s, pages, undone);
      } else {
        var d := Undone(s, before, i, n, c, restored);
        assert undone[|u|] == d;
        OneBackOut(d, u);
        assert |pages| == |s|;
      }
    }

    lemma ValidUndone()
      requires Valid()
      ensures AllBackedOut(undone)
    {
    }

    /** test_chunk: looks for pages that are better left out, in ever smaller chunks. Every chunk it hands
        to fixup_chunk has at most 20 pages, and fewer than are in use. It answers yes exactly when it
        found a table with a lower baseline. All pages are still in the table exactly if none of its
        back-outs lost one. */
    method TestChunk(i: nat, chunk: nat, npages: nat, len: nat, baseline: real, chunkBaseline: real, restored: nat)
      returns (modified: bool, newBaseline: real)
      requires Valid() && 1 <= chunk && i + chunk <= npages && 2 <= npages && npages + 2 <= |pages|
      requires Spans(len, npages, line, pagesize, |pages|) && restored <= |pages|
      modifies this`pages, this`tick, this`log, this`available, this`undone, mem
      ensures Valid() && |pages| == |old(pages)| && old(log) <= log && old(undone) <= undone
      ensures Keeps(old(pages), |old(undone)|, restored)
      ensures Faster(modified, newBaseline, baseline)
      ensures Found(pages, tick, available, newBaseline, modified) ==
              Tested(clock, Found(old(pages), old(tick), old(available), baseline, false), i, chunk, npages,
                     chunkBaseline, restored)
      ensures (|log| - |old(log)|) * Probe(chunk, npages) >= chunk
      decreases chunk, 1
    {
      hide *;
      ghost var s, l, u := pages, |log|, undone;
      ghost var start := Found(pages, tick, available, baseline, false);
      ValidUndone();
      ProbeIs(chunk, npages);
      if chunk <= 20 && chunk < npages {
        var swapped, b, before := FixupChunk(i, chunk, npages, len, baseline, chunkBaseline, restored);
        FixupKeeps(s, u, before, i, npages, chunk, restored);
        FixupFaster(swapped, b, baseline);
        TestedFixed(clock, start, i, chunk, npages, chunkBaseline, restored);
        return swapped > 0, b;
      }
      KeepsStart(restored);
      TestedParts(clock, start, i, chunk, npages, chunkBaseline, restored);
      var nodiff := baseline;
      var subchunk := (chunk + 19) / 20;
      var j := i;
      modified, newBaseline := false, baseline;
      NotFaster(baseline);
      ghost var width := subchunk;
      Product(0, width);
      while j < i + chunk
        invariant i <= j <= i + chunk && 0 < subchunk <= width < chunk && subchunk < npages
        invariant l <= |log| && (|log| - l) * width >= j - i
        invariant Valid() && AllBackedOut(undone) && |pages| == |s| && old(log) <= log && u <= undone
        invariant Keeps(s, |u|, restored) && Faster(modified, newBaseline, baseline)
        invariant Spans(len, npages, line, pagesize, |pages|)
        invariant Parts(clock, Tally(Found(pages, tick, available, newBaseline, modified), nodiff), j, i + chunk,
                        subchunk, npages, restored).found ==
                  Tested(clock, start, i, chunk, npages, chunkBaseline, restored)
        decreases i + chunk - j
      {
        PartsStep(clock, Tally(Found(pages, tick, available, newBaseline, modified), nodiff), j, i + chunk, subchunk,
                  npages, restored);
        if j + subchunk > i + chunk { subchunk := i + chunk - j; }
        modified, newBaseline, nodiff :=
          TestPart(j, subchunk, npages, len, baseline, modified, newBaseline, nodiff, restored, s, |u|, l, width,
                   j - i);
        j := j + subchunk;
      }
      PartsEnd(clock, Tally(Found(pages, tick, available, newBaseline, modified), nodiff), i + chunk, subchunk, npages,
               restored);
    }

    /** One round of test_chunk's loop. */
    method TestPart(j: nat, subchunk: nat, npages: nat, len: nat, ghost baseline: real, modified: bool, current: real,
                    nodiff: real, restored: nat, ghost s: seq<int>, ghost from: nat, ghost l: nat, ghost width: nat,
                    ghost done: int)
      returns (modified': bool, current': real, nodiff': real)
      requires Valid() && AllBackedOut(undone) && 0 < subchunk < npages && j + subchunk <= npages &&
               npages + 2 <= |pages| == |s|
      requires Spans(len, npages, line, pagesize, |pages|) && restored <= |s| && Keeps(s, from, restored)
      requires Faster(modified, current, baseline) && l <= |log| && (|log| - l) * width >= done && subchunk <= width
      modifies this`pages, this`tick, this`log, this`available, this`undone, mem
      ensures Valid() && AllBackedOut(undone) && |pages| == |s| && old(log) <= log && old(undone) <= undone
      ensures Keeps(s, from, restored) && Faster(modified', current', baseline)
      ensures l <= |log| && (|log| - l) * width >= done + subchunk
      ensures Tally(Found(pages, tick, available, current', modified'), nodiff') ==
              PartDone(clock, Tally(Found(old(pages), old(tick), old(available), current, modified), nodiff), j,
                       subchunk, npages, restored)
      decreases subchunk, 2
    {
      hide *;
      ghost var tally := Tally(Found(pages, tick, available, current, modified), nodiff);
      ghost var n, w, u := |log|, pages, undone;
      KeepsNow(s, from, restored);
      modified', current', nodiff' := modified, current, nodiff;
      var t := Suspect(j, subchunk, npages, len, current, nodiff);
      KeepsStart(restored);
      if t.None? {
        PartLeft(clock, tally, j, subchunk, npages, restored);
      } else {
        PartHanded(clock, tally, j, subchunk, npages, restored);
        var changed, b := TestChunk(j, subchunk, npages, len, current, t.value, restored);
        FasterStill(modified, current, baseline, changed, b);
        current' := b;
        if changed { modified' := true; } else { nodiff' := t.value; }
      }
      ValidUndone();
      KeepsOn(s, w, u, from, restored);
      MoreProbes(n - l, |log| - l, width);
    }

    /** Two walks without the chunk, the second only if the first was clearly faster; when both were, the slower
        of their times. */
    method Suspect(j: nat, subchunk: nat, npages: nat, len: nat, baseline: real, nodiff: real) returns (r: Option<real>)
      requires Valid() && 0 < subchunk < npages <= |pages| && j + subchunk <= npages
      requires Spans(len, npages, line, pagesize, |pages|)
      modifies this`pages, this`tick, this`log, mem
      ensures Valid() && pages == old(pages) && old(log) < log
      ensures var t, tt := clock(old(tick)), clock(old(tick) + 1);
              && (r.Some? <==> t < 0.99 * baseline && t < 0.999 * nodiff && tt < 0.99 * baseline && tt < 0.999 * nodiff)
              && (r.Some? ==> r.value == if t < tt then tt else t)
              && tick == old(tick) + if t < 0.99 * baseline && t < 0.999 * nodiff then 2 else 1
    {
      hide Valid, Measurable;
      var t := RemoveChunk(j, subchunk, npages, len);
      if t >= 0.99 * baseline || t >= 0.999 * nodiff { return None; }
      var tt := RemoveChunk(j, subchunk, npages, len);
      if tt > t { t := tt; }
      if t >= 0.99 * baseline || t >= 0.999 * nodiff { return None; }
      return Some(t);
    }

    /** collect_sample: up to eight rounds over all pages, as long as they change something. */
    method CollectSample(len: nat, restored: nat) returns (latency: real)
      requires Valid() && Collectable(len, line, pagesize, |pages|) && restored <= |pages|
      modifies this`pages, this`tick, this`log, this`available, this`undone, mem
      ensures Valid() && |pages| == |old(pages)| && old(log) < log && old(undone) <= undone
      ensures Keeps(old(pages), |old(undone)|, restored)
      ensures Faster(false, latency, old(clock(tick))) || Faster(true, latency, old(clock(tick)))
      ensures var r := Collected(clock, old(pages), old(tick), old(available), NPages(len, pagesize), restored);
              pages == r.pages && tick == r.tick && available == r.available && latency == r.baseline
    {
      ghost var s, l, u := pages, log, undone;
      hide *;
      CollectReady(len, line, pagesize, |pages|);
      var npages := NPages(len, pagesize);
      CollectedIs(clock, pages, tick, available, npages, restored);
      latency := Measured(len, npages);
      ghost var start := Found(pages, tick, available, latency, true);
      KeepsStart(restored);
      ghost var first := latency;
      NotFaster(first);
      if npages > 1 {
        var i, modified, faster := 0, true, false;
        while i < 8 && modified
          invariant Valid() && AllBackedOut(undone) && |pages| == |s| && l < log && u <= undone
          invariant Keeps(s, |u|, restored) && Spans(len, npages, line, pagesize, |pages|)
          invariant Faster(faster, latency, first) && i <= 8
          invariant Sampled(clock, Found(pages, tick, available, latency, modified), npages, restored, 8 - i) ==
                    Sampled(clock, start, npages, restored, 8)
          decreases 8 - i
        {
          var b;
          ghost var found := Found(pages, tick, available, latency, modified);
          SampledStep(clock, found, npages, restored, 8 - i);
          TestedFresh(clock, found, 0, npages, npages, 0.0, restored);
          ghost var w, v := pages, undone;
          KeepsNow(s, |u|, restored);
          modified, b := TestChunk(0, npages, npages, len, latency, 0.0, restored);
          ValidUndone();
          KeepsOn(s, w, v, |u|, restored);
          FasterStill(faster, latency, first, modified, b);
          latency, faster := b, faster || modified;
          i := i + 1;
        }
        SampledEnd(clock, Found(pages, tick, available, latency, modified), npages, restored, 8 - i);
      }
    }

    lemma SearchReady(lens: seq<nat>, left: nat, right: nat)
      requires Valid() && left <= right < |lens|
      requires forall x | left < x < right :: Collectable(lens[x], line, pagesize, |pages|)
      ensures pagesize > 0 && Sparing(PageCounts(lens, pagesize), left, right, |pages|)
    {
      assert pagesize > 0;
    }

    /** The start of search: compares the two samples, and gives up the left one if it is the slower. */
    method Rate(left: nat, right: nat, latency: array<real>, ratio: array<real>, ghost p: Profile)
      requires left < latency.Length == ratio.Length && right < latency.Length && latency != ratio
      requires p.lat == latency[..] && p.ratio == ratio[..]
      modifies latency, ratio
      ensures latency[..] == Rated(p, left, right).lat && ratio[..] == Rated(p, left, right).ratio
      ensures forall x | 0 <= x < latency.Length && x != left ::
                latency[x] == old(latency[x]) && ratio[x] == old(ratio[x])
      ensures old(latency[left]) > 0.0 ==>
                (ratio[left] > 1.35 || ratio[left] < 0.97 <==> old(latency[right]) > 1.35 * old(latency[left]))
    {
      hide *;
      RatedIs(p, left, right);
      if latency[left] > 0.0 {
        RatioAbove(latency[right], latency[left]);
        ratio[left] := latency[right] / latency[left];
        if ratio[left] < 0.98 {
          latency[left], ratio[left] := latency[right], 1.0;
        }
      }
    }

    /** Collects a sample and records its latency. */
    method TakeSample(middle: nat, len: nat, latency: array<real>, restored: nat, ghost p: Profile)
      requires Valid() && Collectable(len, line, pagesize, |pages|) && restored <= |pages| && middle < latency.Length
      requires p == Profile(latency[..], p.ratio, pages, tick, available)
      modifies this`pages, this`tick, this`log, this`available, this`undone, mem, latency
      ensures Valid() && |pages| == |old(pages)| && old(log) < log && old(undone) <= undone
      ensures Keeps(old(pages), |old(undone)|, restored)
      ensures pagesize > 0 && (NPages(len, pagesize) > 1 ==> NPages(len, pagesize) + 2 <= |pages|)
      ensures Profile(latency[..], p.ratio, pages, tick, available) ==
              Sampling(clock, p, middle, NPages(len, pagesize), restored)
      ensures forall x | 0 <= x < latency.Length && x != middle :: latency[x] == old(latency[x])
    {
      hide *;
      CollectReady(len, line, pagesize, |pages|);
      SamplingIs(clock, p, middle, NPages(len, pagesize), restored);
      var t := CollectSample(len, restored);
      latency[middle] := t;
      assert latency[..] == p.lat[middle := t];
    }

    /** search: fills in samples between two that were measured, where the latency rises. Only samples
        strictly between the two are collected, so the last one never is. If the table held no page twice,
        all pages are still there exactly if no back-out lost one, and so if the whole table is copied. */
    method Search(left: nat, right: nat, lens: seq<nat>, latency: array<real>, ratio: array<real>, restored: nat)
      requires Valid() && left <= right < |lens| == latency.Length == ratio.Length && latency != ratio
      requires forall x | left < x < right :: Collectable(lens[x], line, pagesize, |pages|)
      requires restored <= |pages|
      modifies this`pages, this`tick, this`log, this`available, this`undone, mem, latency, ratio
      ensures Valid() && |pages| == |old(pages)| && old(log) <= log && old(undone) <= undone
      ensures Keeps(old(pages), |old(undone)|, restored)
      ensures restored == |pages| && NoDup(old(pages)) ==> Same(old(pages))
      ensures forall x | 0 <= x < |lens| && x != left && !(left < x < right) :: latency[x] == old(latency[x]) &&
                ratio[x] == old(ratio[x])
      ensures old(latency[left]) > 0.0 ==>
                if right - left >= 2 && old(latency[right]) > 1.35 * old(latency[left]) then old(log) < log
                else log == old(log) && pages == old(pages)
      ensures pagesize > 0
      ensures var counts := PageCounts(lens, pagesize);
              && Sparing(counts, left, right, |old(pages)|)
              && Profile(latency[..], ratio[..], pages, tick, available) ==
                 Searched(clock, Profile(old(latency[..]), old(ratio[..]), old(pages), old(tick), old(available)), left,
                          right, counts, restored)
      decreases right - left
    {
      hide *;
      SearchReady(lens, left, right);
      ghost var p, counts := Profile(latency[..], ratio[..], pages, tick, available), PageCounts(lens, pagesize);
      SearchedSplit(clock, p, left, right, counts, restored);
      ghost var s, u := pages, undone;
      KeepsStart(restored);
      var middle := left + (right - left) / 2;
      Rate(left, right, latency, ratio, p);
      if !(middle == left || middle == right) && (ratio[left] > 1.35 || ratio[left] < 0.97) {
        ghost var q := Rated(p, left, right);
        TakeSample(middle, lens[middle], latency, restored, q);
        assert counts[middle] == NPages(lens[middle], pagesize);
        ghost var w, v := pages, undone;
        KeepsNow(s, |u|, restored);
        Search(middle, right, lens, latency, ratio, restored);
        KeepsOn(s, w, v, |u|, restored);
        ghost var w', v' := pages, undone;
        KeepsNow(s, |u|, restored);
        Search(left, middle, lens, latency, ratio, restored);
        KeepsOn(s, w', v', |u|, restored);
      }
      if restored == |pages| { KeepsAll(s, |u|); }
    }
  }

  /** The inner chains are complete exactly when mem_initialize used all lines of the last page. */
  lemma LaidInner(st: MemState)
    requires st.Laid() && st.len == st.maxlen
    ensures st.npages == |st.pages| > 0
    ensures Inner(st.mem[..], st.pages, st.lines, st.line) <==> st.LinesUsed() == st.nlines
  {
    assert st.pages[..st.npages] == st.pages;
    TablesFit(st.pages, st.lines, st.words, st.line, st.pagesize, st.mem.Length);
    var used := st.LinesUsed();
    if used == |st.lines| {
      ThreadedInner(st.mem[..], st.pages, st.lines, st.words, st.line);
    } else {
      ClosedEarly(st.mem[..], st.pages, st.lines, st.words, st.line, st.pagesize, used);
    }
  }

  /** The line that closes the round does not lead to the next line of its page. */
  lemma ClosedEarly(m: seq<int>, pages: seq<int>, lines: seq<int>, words: seq<int>, width: nat, pagesize: nat,
                    used: nat)
    requires Fits(pages, lines, words, width, pagesize, |m|) && WordsOf(words, width) && |words| > 0
    requires |pages| > 0 && 0 < used < |lines| && Threaded(m, pages, lines, words, width, used)
    ensures !Inner(m, pages, lines, width)
  {
    var n := |pages| - 1;
    var k: nat := 0;
    assert NextRound(m, Singles(pages), lines, words, used, k);
    assert 0 <= words[k] < width && 0 <= NextWord(words, k) < width;
    BlocksApart(pages, lines, width, pagesize, |m|, n, used, 0, 0);
    assert m[pages[n] + lines[used - 1] + words[k]] != pages[n] + lines[used] + words[k];
    assert !InnerLink(m, pages[n], lines, width, used - 1);
  }

  lemma LaidReady(st: MemState)
    requires st.Laid() && st.len == st.maxlen
    ensures st.npages == |st.pages| > 0
    ensures Orders(st.lines, st.words, st.line, st.pagesize) && Framed(st.pages, st.pagesize, st.mem.Length) &&
            NoDup(st.pages)
    ensures multiset(st.pages) == multiset(Multiples(|st.pages|, st.pagesize))
  {
    SeparatedFramed(st.pages, st.pagesize, st.mem.Length);
    SeparatedNoDup(st.pages, st.pagesize, st.mem.Length);
  }

  lemma ThreadedInner(m: seq<int>, pages: seq<int>, lines: seq<int>, words: seq<int>, width: int)
    requires Threaded(m, pages, lines, words, width, |lines|)
    ensures Inner(m, pages, lines, width)
  {
    forall p, j: nat | p in pages && j + 1 < |lines| ensures InnerLink(m, p, lines, width, j) {
      var x: nat :| x < |pages| && pages[x] == p;
      ThreadedLinks(m, pages, lines, words, width, x, j);
    }
  }

  function PageCounts(lens: seq<nat>, pagesize: nat): (r: seq<nat>)
    requires pagesize > 0
    ensures |r| == |lens| && forall x | 0 <= x < |lens| :: r[x] == NPages(lens[x], pagesize)
  {
    seq(|lens|, x requires 0 <= x < |lens| => NPages(lens[x], pagesize))
  }

  lemma RatioAbove(a: real, b: real)
    requires b > 0.0
    ensures a / b > 1.35 <==> a > 1.35 * b
  {
    var q := a / b;
    assert q * b == a;
    if q > 1.35 { TimesMore(1.35, q, b); } else { TimesMore(q, 1.35, b); }
  }

  lemma TimesMore(x: real, y: real, b: real)
    requires b > 0.0
    ensures x < y ==> x * b < y * b
    ensures x <= y ==> x * b <= y * b
  {
  }

  // ----- which latency belongs to which page

  /** A walk that ended with this page took time t. */
  ghost predicate Clocked(log: seq<Walked>, page: int, t: real) {
    exists k :: 0 <= k < |log| && log[k].last == page && log[k].time == t
  }

  lemma LastClocked(log: seq<Walked>, page: int, t: real)
    requires |log| > 0 && Last(log).last == page && Last(log).time == t
    ensures Clocked(log, page, t)
  {
  }

  lemma ClockedMore(log: seq<Walked>, log': seq<Walked>, page: int, t: real)
    requires Clocked(log, page, t) && log <= log'
    ensures Clocked(log', page, t)
  {
    var k :| 0 <= k < |log| && log[k].last == page && log[k].time == t;
    assert log'[k] == log[k];
  }

  /** Latency x is one that was measured with page at + x last. */
  ghost predicate Matched(log: seq<Walked>, pages: seq<int>, lat: seq<real>, at: nat, from: nat, to: nat) {
    to <= |lat| && at + to <= |pages| && forall x | from <= x < to :: MatchedAt(log, pages, lat, at, x)
  }

  ghost predicate MatchedAt(log: seq<Walked>, pages: seq<int>, lat: seq<real>, at: nat, x: nat)
    requires x < |lat| && at + x < |pages|
  {
    Clocked(log, pages[at + x], lat[x])
  }

  lemma NoneMatched(log: seq<Walked>, pages: seq<int>, lat: seq<real>, at: nat, x: nat)
    requires x <= |lat| && at + x <= |pages|
    ensures Matched(log, pages, lat, at, x, x)
  {
  }

  lemma MatchedMore(log: seq<Walked>, log': seq<Walked>, pages: seq<int>, lat: seq<real>, at: nat, from: nat, to: nat)
    requires Matched(log, pages, lat, at, from, to) && log <= log'
    ensures Matched(log', pages, lat, at, from, to)
  {
    forall x | from <= x < to ensures MatchedAt(log', pages, lat, at, x) {
      assert MatchedAt(log, pages, lat, at, x);
      ClockedMore(log, log', pages[at + x], lat[x]);
    }
  }

  /** The page measured stays where it is. */
  lemma MatchedKept(log: seq<Walked>, pages: seq<int>, lat: seq<real>, at: nat, j: nat, k: nat, chunk: nat, t: real)
    requires Matched(log, pages, lat, at, 0, j) && Matched(log, pages, lat, at, k, chunk) && j < k <= chunk
    requires Clocked(log, pages[at + j], t)
    ensures Matched(log, pages, lat[j := t], at, 0, j + 1) && Matched(log, pages, lat[j := t], at, k, chunk)
  {
    hide Clocked;
    var l := lat[j := t];
    forall x | 0 <= x < j + 1 ensures MatchedAt(log, pages, l, at, x) {
      if x < j { assert MatchedAt(log, pages, lat, at, x); }
    }
    forall x | k <= x < chunk ensures MatchedAt(log, pages, l, at, x) { assert MatchedAt(log, pages, lat, at, x); }
  }

  /** The page measured is put aside, in slot k. */
  lemma MatchedAside(log: seq<Walked>, pages: seq<int>, lat: seq<real>, at: nat, j: nat, k: nat, chunk: nat, t: real)
    requires Matched(log, pages, lat, at, 0, j) && Matched(log, pages, lat, at, k + 1, chunk) && j <= k < chunk
    requires Clocked(log, pages[at + j], t)
    ensures Matched(log, SwapAt(pages, at + j, at + k), lat[k := t], at, 0, j)
    ensures Matched(log, SwapAt(pages, at + j, at + k), lat[k := t], at, k, chunk)
  {
    hide Clocked;
    var p, l := SwapAt(pages, at + j, at + k), lat[k := t];
    forall x | 0 <= x < j ensures MatchedAt(log, p, l, at, x) { assert MatchedAt(log, pages, lat, at, x); }
    forall x | k <= x < chunk ensures MatchedAt(log, p, l, at, x) {
      if x > k { assert MatchedAt(log, pages, lat, at, x); }
    }
  }

  lemma MatchedJoin(log: seq<Walked>, pages: seq<int>, lat: seq<real>, at: nat, j: nat, chunk: nat)
    requires Matched(log, pages, lat, at, 0, j) && Matched(log, pages, lat, at, j, chunk)
    ensures Matched(log, pages, lat, at, 0, chunk)
  {
  }

  /** Sorting takes every page's latency along with it. */
  lemma MatchedSorted(log: seq<Walked>, p0: seq<int>, l0: seq<real>, p: seq<int>, l: seq<real>, at: nat, j: nat,
                      chunk: nat)
    requires j <= chunk && Matched(log, p0, l0, at, 0, chunk) && SortedPart(p0, l0, p, l, at + j, j, chunk - j)
    ensures Matched(log, p, l, at, 0, chunk)
  {
    hide Clocked;
    var b := Pairs(p[at + j..at + j + (chunk - j)], l[j..j + (chunk - j)]);
    var b0 := Pairs(p0[at + j..at + j + (chunk - j)], l0[j..j + (chunk - j)]);
    forall x | 0 <= x < chunk ensures MatchedAt(log, p, l, at, x) {
      if x < j {
        assert MatchedAt(log, p0, l0, at, x);
      } else {
        assert b[x - j] in multiset(b0);
        var y :| 0 <= y < |b0| && b0[y] == b[x - j];
        assert MatchedAt(log, p0, l0, at, j + y);
      }
    }
  }

  lemma MatchedSettled(log: seq<Walked>, p0: seq<int>, l0: seq<real>, p: seq<int>, l: seq<real>, npages: nat,
                       chunk: nat, j: nat, spare: nat, t: real)
    requires chunk <= npages <= spare < |p0| && Matched(log, p0, l0, npages - chunk, 0, chunk) && j < chunk <= |l0|
    requires Settled(p0, l0[chunk - 1 := t], p, l, npages, chunk, j, spare) && Clocked(log, p0[spare], t)
    ensures Matched(log, p, l, npages - chunk, 0, chunk)
  {
    hide Matched, SortedPart, SortedTo, SwapAt, Clocked;
    MatchedSwapped(log, p0, l0, npages - chunk, chunk, spare, t);
    MatchedSorted(log, SwapAt(p0, npages - 1, spare), l0[chunk - 1 := t], p, l, npages - chunk, j, chunk);
  }

  /** The last page of the chunk is exchanged with the spare one just measured. */
  lemma MatchedSwapped(log: seq<Walked>, p0: seq<int>, l0: seq<real>, at: nat, chunk: nat, spare: nat, t: real)
    requires 0 < chunk && Matched(log, p0, l0, at, 0, chunk) && at + chunk <= spare < |p0| && Clocked(log, p0[spare], t)
    ensures Matched(log, SwapAt(p0, at + chunk - 1, spare), l0[chunk - 1 := t], at, 0, chunk)
  {
    hide Clocked;
    var q, m := SwapAt(p0, at + chunk - 1, spare), l0[chunk - 1 := t];
    forall x | 0 <= x < chunk ensures MatchedAt(log, q, m, at, x) {
      if x < chunk - 1 { assert MatchedAt(log, p0, l0, at, x); }
    }
  }

  // ----- fixup_chunk

  /** A buffer of len uses npages pages of the table, and can be measured. */
  ghost predicate Spans(len: nat, npages: nat, line: nat, pagesize: nat, ntotal: nat) {
    len > 0 && pagesize > 0 && NPages(len, pagesize) == npages && Measurable(len, line, pagesize, ntotal)
  }

  /** What collect_sample needs of the table: two pages to spare, if it is to exchange any. */
  ghost predicate Collectable(len: nat, line: nat, pagesize: nat, ntotal: nat) {
    && pagesize > 0 && Spans(len, NPages(len, pagesize), line, pagesize, ntotal)
    && (NPages(len, pagesize) > 1 ==> NPages(len, pagesize) + 2 <= ntotal)
  }

  /** What holds before a round holds after it, whether or not the spare page was taken. */
  lemma RoundDone(log: seq<Walked>, s: seq<int>, p0: seq<int>, l0: seq<real>, p: seq<int>, l: seq<real>, npages: nat,
                  chunk: nat, j0: nat, j: nat, spare: nat, base: real, t: real)
    requires j0 <= j < chunk <= npages <= spare < |p0| && chunk <= |l0|
    requires Kept(l0, j0, j, base) && Rising(l0, j, chunk) && SameBelow(s, p0, npages - chunk + j0)
    requires Matched(log, p0, l0, npages - chunk, 0, chunk) && Clocked(log, p0[spare], t)
    requires if t < l0[chunk - 1] then Settled(p0, l0[chunk - 1 := t], p, l, npages, chunk, j, spare)
             else p == p0 && l == l0
    ensures Kept(l, j0, j, base) && Rising(l, j, chunk) && SameBelow(s, p, npages - chunk + j0)
    ensures Matched(log, p, l, npages - chunk, 0, chunk)
  {
    hide *;
    if t < l0[chunk - 1] {
      MatchedSettled(log, p0, l0, p, l, npages, chunk, j, spare, t);
      KeptChanged(l0, j0, j, base, chunk - 1, t);
      SettledKeeps(s, p0, l0[chunk - 1 := t], p, l, npages, chunk, j0, j, spare, base);
    }
  }

  lemma CollectReady(len: nat, line: nat, pagesize: nat, ntotal: nat)
    requires Collectable(len, line, pagesize, ntotal)
    ensures pagesize > 0 && Spans(len, NPages(len, pagesize), line, pagesize, ntotal)
    ensures NPages(len, pagesize) > 1 ==> NPages(len, pagesize) + 2 <= ntotal
  {
  }

  // ----- test_chunk

  /** Either nothing changed, or the new baseline is below 0.999 of the old one (still below 0 if that was). */
  ghost predicate Faster(modified: bool, b: real, baseline: real) {
    if !modified then b == baseline else if baseline >= 0.0 then b < 0.999 * baseline else b < 0.0
  }

  lemma NotFaster(b: real)
    ensures Faster(false, b, b)
  {
  }

  lemma FixupFaster(swapped: nat, b: real, baseline: real)
    requires if swapped > 0 then b < 0.999 * baseline else b == baseline
    ensures Faster(swapped > 0, b, baseline)
  {
  }

  lemma FasterStill(m: bool, b: real, baseline: real, changed: bool, next: real)
    requires Faster(m, b, baseline) && Faster(changed, next, b)
    ensures Faster(m || changed, next, baseline)
  {
  }

  /** How many pages test_chunk leaves out at a time. */
  function Probe(chunk: nat, npages: nat): nat {
    if chunk <= 20 && chunk < npages then 1 else (chunk + 19) / 20
  }

  lemma ProbeIs(chunk: nat, npages: nat)
    ensures Probe(chunk, npages) == if chunk <= 20 && chunk < npages then 1 else (chunk + 19) / 20
  {
  }

  lemma Product(n: int, width: nat)
    ensures n == 0 ==> n * width == 0
  {
  }

  lemma MoreProbes(n: int, n': int, width: nat)
    requires n < n'
    ensures n' * width >= n * width + width
  {
    MulMonotone(n + 1, n', width);
    Distribute(n, 1, width);
  }
}
