/** lib_mem.c: struct mem_state and the routines that lay out a page-based chain in it. */
module LibMem {
  import opened Arith
  import opened Chains
  import opened PageChains
  import opened BitOrder
  import opened MemInit
  import opened PageTables
  import opened MemFacts

  class MemState {
    var line: nat
    var pagesize: nat
    var len: nat
    var maxlen: nat
    var width: nat
    var nwords: nat
    var nlines: nat
    var npages: nat
    var pages: seq<int>
    var lines: seq<int>
    var words: seq<int>
    var mem: array<int>
    var p: array<int>

    constructor (line: nat, pagesize: nat, len: nat, maxlen: nat, width: nat)
      ensures this.line == line && this.pagesize == pagesize && this.len == len && this.maxlen == maxlen
      ensures this.width == width && fresh(mem) && fresh(p) && p.Length == MAX_MEM_PARALLELISM
    {
      this.line, this.pagesize, this.len, this.maxlen, this.width := line, pagesize, len, maxlen, width;
      nwords, nlines, npages := 0, 0, 0;
      pages, lines, words := [], [], [];
      mem := new int[0];
      p := new int[MAX_MEM_PARALLELISM];
    }

    /** What every initializer demands of its caller. */
    ghost predicate Sizes()
      reads this
    {
      && 0 < line && 0 < pagesize
      && 0 < len <= maxlen && 1 <= width <= MAX_MEM_PARALLELISM
      && p.Length == MAX_MEM_PARALLELISM
    }

    /** What those demand in addition that lay out lines and words in bit-reversed order. */
    ghost predicate Powers()
      reads this
    {
      IsPow2(line) && IsPow2(pagesize) && line <= pagesize
    }

    /** The state base_initialize leaves: sizes, a shuffled page table, a buffer that holds every page. */
    ghost predicate Based()
      reads this
    {
      && Sizes()
      && nlines == pagesize / line && npages == NPages(len, pagesize)
      && 0 < npages <= |pages| == NPages(maxlen, pagesize)
      && Shuffled(pages, pagesize) && Separated(pages, pagesize, mem.Length)
    }

    method BaseInitialize(rnd: nat -> nat)
      requires Sizes()
      modifies this
      ensures Based() && nwords == line && fresh(mem) && len <= mem.Length
      ensures pages == Permuted(NPages(maxlen, pagesize), pagesize, rnd)
      ensures unchanged(`line, `pagesize, `len, `maxlen, `width, `p)
    {
      hide IsPow2, Permuted, NPages, Separated, Shuffled;
      nwords := line;
      nlines := pagesize / line;
      NPagesMonotone(len, maxlen, pagesize);
      npages := NPages(len, pagesize);
      var nmpages := NPages(maxlen, pagesize);
      var table := Permutation(nmpages, pagesize, rnd);
      pages := table[..];
      mem := new int[maxlen + pagesize];
      ShuffledInside(pages, pagesize, mem.Length);
    }

    ghost predicate Ordered()
      reads this
    {
      && Based() && nwords == line && Tables(pages, lines, words, line, pagesize, mem.Length)
      && |words| == line && |lines| == nlines > 0 && words[0] == 0 && lines[0] == 0
    }

    /** How many lines of the last page mem_initialize uses. */
    ghost function LinesUsed(): (n: nat)
      requires Ordered()
      reads this
      ensures 0 < n <= |lines|
    {
      LastLinesBounds(NPointers(len, line), npages, nlines);
      LastLines(NPointers(len, line), npages, nlines)
    }

    /** The words mem_initialize threads. */
    ghost function ChainWords(): set<int>
      requires Ordered()
      reads this
    {
      PageWords(pages[..npages], lines, words, LinesUsed())
    }

    /** The links mem_initialize makes from one line to the next on the same page. */
    ghost function LinksLaid(): nat
      requires Ordered()
      reads this
    {
      Links(npages, nlines, LinesUsed())
    }

    /** The state mem_initialize leaves: pages of full lines, threaded through for every word of a line,
        with the lines used on the last page closing the round. */
    ghost predicate Laid()
      reads this, mem
    {
      Ordered() && Threaded(mem[..], pages[..npages], lines, words, line, LinesUsed())
    }

    method MemInitialize(rnd: nat -> nat)
      requires Sizes() && Powers() && (NPointers(len, line) >= 2 ==> NPointers(len, line) >= width)
      modifies this, p
      ensures unchanged(`line, `pagesize, `len, `maxlen, `width, `p) && fresh(mem)
      ensures pages == Permuted(NPages(maxlen, pagesize), pagesize, rnd)
      ensures Laid() && OneCycle(mem[..], pages[0], ChainWords())
      ensures len == maxlen && len % pagesize == 0 ==> OneCycle(mem[..], pages[0], Below(len))
      ensures Starts(p[..], old(p[..]), pages[..npages], lines, words, Apart(NPointers(len, line), width), LinksLaid())
      ensures forall k: nat | k < p.Length && Mark(k, Apart(NPointers(len, line), width)) < LinksLaid() ::
                p[k] in ChainWords()
      ensures LinksLaid() > 0 ==> p[0] == pages[0]
      ensures LinksLaid() > 0 <==> nlines >= 2 && NPointers(len, line) >= 2
    {
      BaseInitialize(rnd);
      hide *;
      OrderInitialize();
      ThreadAll();
    }

    method ThreadAll()
      requires Ordered() && (NPointers(len, line) >= 2 ==> NPointers(len, line) >= width) && mem != p
      modifies mem, p
      ensures Laid() && OneCycle(mem[..], pages[0], ChainWords())
      ensures len == maxlen && len % pagesize == 0 ==> OneCycle(mem[..], pages[0], Below(len))
      ensures Starts(p[..], old(p[..]), pages[..npages], lines, words, Apart(NPointers(len, line), width), LinksLaid())
      ensures forall k: nat | k < p.Length && Mark(k, Apart(NPointers(len, line), width)) < LinksLaid() ::
                p[k] in ChainWords()
      ensures LinksLaid() > 0 ==> p[0] == pages[0]
      ensures LinksLaid() > 0 <==> nlines >= 2 && NPointers(len, line) >= 2
    {
      ChainReady();
      WholeChain();
      hide *;
      var npointers := NPointers(len, line);
      BuildChain(mem, p, pages[..npages], lines, words, line, pagesize, npointers, width);
      ThreadedIsLaid();
      ChainCycle();
      StartsCovered(p[..], old(p[..]), pages[..npages], lines, words, LinesUsed(), Apart(npointers, width));
      LinksThere();
    }

    lemma LinksThere()
      requires Ordered()
      ensures LinksLaid() == Links(|pages[..npages]|, |lines|, LinesUsed())
      ensures LinksLaid() > 0 <==> nlines >= 2 && NPointers(len, line) >= 2
    {
      PointersBound(len, line, pagesize);
      SomeLinks(NPointers(len, line), npages, nlines);
    }

    lemma ThreadedIsLaid()
      requires Ordered() && Threaded(mem[..], pages[..npages], lines, words, line, LinesUsed())
      ensures Laid()
    {
    }

    lemma ChainCycle()
      requires Ordered()
      requires var pg := pages[..npages];
               OneCycle(mem[..], pg[0] + lines[0] + words[0],
                        PageWords(pg, lines, words, LastLines(NPointers(len, line), |pg|, |lines|)))
      ensures OneCycle(mem[..], pages[0], ChainWords())
      ensures len == maxlen && len % pagesize == 0 ==> OneCycle(mem[..], pages[0], Below(len))
    {
      WholeChain();
      var pg := pages[..npages];
      assert pg[0] + lines[0] + words[0] == pages[0];
      hide *;
      ChainReady();
    }

    /** All that threading the pages relies on. */
    lemma ChainReady()
      requires Ordered()
      ensures p.Length == MAX_MEM_PARALLELISM && line > 0 && pagesize > 0 && width >= 1
      ensures 0 < npages <= |pages| && |lines| == nlines > 0 && |words| == line && words[0] == 0 && lines[0] == 0
      ensures Fits(pages[..npages], lines, words, line, pagesize, mem.Length)
      ensures WordsOf(words, line) && NoDup(words)
      ensures FullPages(npages, nlines, NPointers(len, line))
      ensures LinesUsed() == LastLines(NPointers(len, line), npages, nlines)
      ensures ChainWords() == PageWords(pages[..npages], lines, words, LinesUsed())
    {
      PointersBound(len, line, pagesize);
      TablesFit(pages, lines, words, line, pagesize, mem.Length);
      FitsSome(pages, lines, words, line, pagesize, mem.Length, npages);
    }

    lemma WholeChain()
      requires Ordered()
      ensures len == maxlen && len % pagesize == 0 ==> ChainWords() == Below(len)
    {
      if len == maxlen && len % pagesize == 0 {
        assert pages[..npages] == pages;
        WholeLength(len, pagesize);
        hide Separated, IsPow2, Shuffled, NPages, LastLines;
        WholeBuffer(pages, line, pagesize, len, nlines, NPointers(len, line));
      }
    }

    /** words and lines in bit-reversed order. */
    method OrderInitialize()
      requires Based() && Powers() && nwords == line
      modifies this
      ensures unchanged(`line, `pagesize, `len, `maxlen, `width, `p, `pages, `mem, `nwords, `nlines, `npages)
      ensures Ordered()
    {
      hide Shuffled, Fits, NoDup, IsPow2, Separated, NPages;
      var lineTable := WordsInitialize(nlines, line);
      var wordTable := WordsInitialize(nwords, 1);
      lines, words := lineTable[..], wordTable[..];
      LinesFit(line, pagesize);
      TablesFit(pages, lines, words, line, pagesize, mem.Length);
    }

    // ----- line_initialize and line_test: one word of each line

    /** The chain line_initialize leaves, over the first n lines of each page. */
    ghost predicate LineLaid(n: nat)
      reads this, mem
    {
      && Based() && Powers() && lines == WordOrder(nlines, line) && 0 < n <= |lines|
      && Threaded(mem[..], pages[..npages], lines[..n], [0], 1, n)
    }

    method LineInitialize(rnd: nat -> nat)
      requires Sizes() && Powers()
      modifies this, p
      ensures unchanged(`line, `pagesize, `len, `maxlen, `p) && width == 1 && fresh(mem)
      ensures pages == Permuted(NPages(maxlen, pagesize), pagesize, rnd)
      ensures LineLaid(nlines) && p[0] == pages[0]
      ensures OneCycle(mem[..], pages[0], Cells(pages[..npages], lines, [0]))
    {
      BaseInitialize(rnd);
      var lineTable := WordsInitialize(nlines, line);
      lines := lineTable[..];
      width := 1;
      LineReady();
      hide *;
      ThreadLines(mem, pages[..npages], lines, pagesize);
      p[0] := pages[0] + lines[0];
      LinesLaid();
    }

    lemma LineReady()
      requires Based() && Powers() && lines == WordOrder(nlines, line)
      ensures p.Length == MAX_MEM_PARALLELISM && |lines| == nlines > 0 && lines[0] == 0 && 0 < npages <= |pages|
      ensures Fits(pages[..npages], lines, [0], 1, pagesize, mem.Length)
    {
      LinesFit(line, pagesize);
    }

    lemma LinesLaid()
      requires Based() && Powers() && lines == WordOrder(nlines, line) && 0 < |lines|
      requires Threaded(mem[..], pages[..npages], lines, [0], 1, |lines|)
      ensures LineLaid(nlines)
      ensures OneCycle(mem[..], pages[0], Cells(pages[..npages], lines, [0]))
    {
      assert lines[..|lines|] == lines;
      LineCycle(nlines);
    }

    /** Probes memory at the given stride by walking a shortened chain for any number of steps, and puts
        the full chain back. During the walk the chain is one cycle over the first pagesize / stride
        lines, which for a power of two are the multiples of the stride on every page. */
    method LineTest(stride: nat, steps: nat) returns (q: int, ghost during: seq<int>)
      requires LineLaid(nlines) && 0 < stride <= pagesize
      modifies mem
      ensures mem[..] == old(mem[..])
      ensures 0 < LinesProbed(pagesize, stride, nlines) <= |lines|
      ensures OneCycle(during, pages[0], Cells(pages[..npages], lines[..LinesProbed(pagesize, stride, nlines)], [0]))
      ensures IsPow2(stride) && line <= stride ==>
                OneCycle(during, pages[0], Cells(pages[..npages], Multiples(LinesProbed(pagesize, stride, nlines),
                                                                            stride), [0]))
      ensures q == Walk(during, pages[0], steps)
    {
      var n := pagesize / stride;
      ProbeReady(stride);
      hide *;
      ghost var m := mem[..];
      if n < nlines {
        ShortenLines(mem, pages[..npages], lines, pagesize, n);
      }
      during := mem[..];
      ProbeCycle(stride);
      q := WalkChain(mem, pages[0], steps, Cells(pages[..npages], lines[..LinesProbed(pagesize, stride, nlines)], [0]));
      if n < nlines {
        RestoreLines(mem, pages[..npages], lines, pagesize, n, m);
      }
    }

    lemma ProbeReady(stride: nat)
      requires LineLaid(nlines) && 0 < stride <= pagesize
      ensures pagesize / stride > 0 && |lines| == nlines && 0 < npages <= |pages|
      ensures LinesProbed(pagesize, stride, nlines) == if pagesize / stride < nlines then pagesize / stride else nlines
      ensures 0 < LinesProbed(pagesize, stride, nlines) <= |lines|
      ensures Fits(pages[..npages], lines, [0], 1, pagesize, mem.Length)
      ensures Threaded(mem[..], pages[..npages], lines, [0], 1, |lines|)
      ensures Based() && Powers() && lines == WordOrder(nlines, line)
      ensures IsPow2(stride) && line <= stride ==>
                Cells(pages[..npages], lines[..LinesProbed(pagesize, stride, nlines)], [0]) ==
                Cells(pages[..npages], Multiples(LinesProbed(pagesize, stride, nlines), stride), [0])
    {
      LineReady();
      assert lines[..|lines|] == lines;
      AtLeastOne(stride, pagesize);
      if IsPow2(stride) && line <= stride {
        OrderPrefix(line, stride, pagesize);
        OrderIsMultiples(pages[..npages], stride, pagesize);
      }
    }

    lemma ProbeCycle(stride: nat)
      requires Based() && Powers() && lines == WordOrder(nlines, line) && 0 < stride &&
               0 < LinesProbed(pagesize, stride, nlines) <= |lines|
      requires Threaded(mem[..], pages[..npages], lines[..LinesProbed(pagesize, stride, nlines)], [0], 1,
                        LinesProbed(pagesize, stride, nlines))
            || (LinesProbed(pagesize, stride, nlines) == |lines| &&
               Threaded(mem[..], pages[..npages], lines, [0], 1, |lines|))
      ensures OneCycle(mem[..], pages[0], Cells(pages[..npages], lines[..LinesProbed(pagesize, stride, nlines)], [0]))
    {
      assert lines[..|lines|] == lines;
      LineCycle(LinesProbed(pagesize, stride, nlines));
    }

    /** Over the first n lines of each page the chain is one cycle. */
    lemma LineCycle(n: nat)
      requires LineLaid(n)
      ensures OneCycle(mem[..], pages[0], Cells(pages[..npages], lines[..n], [0]))
    {
      LineReady();
      var pg, ls := pages[..npages], lines[..n];
      FitsPrefix(pg, lines, [0], 1, pagesize, mem.Length, n);
      FlattenSingles(pg);
      assert pg[0] + ls[0] + [0][0] == pages[0];
      hide *;
      ThreadedIsOneCycle(mem[..], pg, ls, [0], 1, n, pagesize);
      OneWordCells(pg, ls);
    }
  }

  // ----- the two loops of line_test

  /** a is the first word of line l of some page. */
  ghost predicate InColumn(pages: seq<int>, l: int, a: int) {
    exists p :: p in pages && a == p + l
  }

  ghost predicate ChangedColumn(m: seq<int>, m': seq<int>, pages: seq<int>, l: int) {
    |m'| == |m| && forall a | 0 <= a < |m| :: m'[a] == m[a] || InColumn(pages, l, a)
  }

  lemma ColumnStep(m: seq<int>, m0: seq<int>, pages: seq<int>, l: int, i: nat, to: int)
    requires ChangedColumn(m, m0, pages, l) && i < |pages| && 0 <= pages[i] + l < |m0|
    ensures ChangedColumn(m, m0[pages[i] + l := to], pages, l)
  {
    assert pages[i] in pages && InColumn(pages, l, pages[i] + l);
  }

  lemma OffColumn(pages: seq<int>, lines: seq<int>, pagesize: int, bound: int, n: nat, x: nat, y: nat)
    requires Fits(pages, lines, [0], 1, pagesize, bound) && n < |lines| && y < |lines| && y != n && x < |pages|
    ensures !InColumn(pages, lines[n], pages[x] + lines[y])
  {
    if p :| p in pages && pages[x] + lines[y] == p + lines[n] {
      var i :| 0 <= i < |pages| && pages[i] == p;
      BlocksApart(pages, lines, 1, pagesize, bound, x, y, i, n);
    }
  }

  /** On page x, line n - 1 leads to the next page instead of line n. */
  ghost predicate Skips(m: seq<int>, pages: seq<int>, lines: seq<int>, n: nat, x: nat)
    requires 0 < n <= |lines| && x + 1 < |pages|
  {
    0 <= pages[x] + lines[n - 1] < |m| && m[pages[x] + lines[n - 1]] == pages[x + 1] + lines[0]
  }

  ghost predicate Shortened(m: seq<int>, pages: seq<int>, lines: seq<int>, n: nat, i: nat)
    requires 0 < n <= |lines| && i < |pages|
  {
    forall x: nat | x < i :: Skips(m, pages, lines, n, x)
  }

  lemma ShortStep(m: seq<int>, pages: seq<int>, lines: seq<int>, pagesize: int, n: nat, i: nat, to: int)
    requires Fits(pages, lines, [0], 1, pagesize, |m|) && 0 < n <= |lines| && i < |pages| &&
             Shortened(m, pages, lines, n, i)
    ensures 0 <= pages[i] + lines[n - 1] < |m|
    ensures Shortened(m[pages[i] + lines[n - 1] := to], pages, lines, n, i)
    ensures i + 1 < |pages| && to == pages[i + 1] + lines[0] ==>
              Shortened(m[pages[i] + lines[n - 1] := to], pages, lines, n, i + 1)
  {
    var m' := m[pages[i] + lines[n - 1] := to];
    forall x: nat | x < i ensures Skips(m', pages, lines, n, x) {
      assert Skips(m, pages, lines, n, x);
      BlocksApart(pages, lines, 1, pagesize, |m|, x, n - 1, i, n - 1);
    }
  }

  lemma ShortThreaded(m: seq<int>, m': seq<int>, pages: seq<int>, lines: seq<int>, pagesize: int, n: nat)
    requires Fits(pages, lines, [0], 1, pagesize, |m|) && 0 < n < |lines| && |pages| > 0
    requires Threaded(m, pages, lines, [0], 1, |lines|) && ChangedColumn(m, m', pages, lines[n - 1])
    requires Shortened(m', pages, lines, n, |pages| - 1)
    requires RoundClosed(m', pages[|pages| - 1] + lines[n - 1], pages[0] + lines[0], [0])
    ensures Threaded(m', pages, lines[..n], [0], 1, n)
  {
    hide Threaded, Fits, Shortened, RoundClosed;
    var ls := lines[..n];
    forall x: nat, j: nat | x < |pages| && j + 1 < n ensures InLink(m', pages, ls, 1, x, j) {
      ThreadedLinks(m, pages, lines, [0], 1, x, j);
      OffColumn(pages, lines, pagesize, |m|, n - 1, x, j);
    }
    ShortLinks(m', pages, lines, n);
    FitsPrefix(pages, lines, [0], 1, pagesize, |m|, n);
    RoundLinked(m', pages, ls, [0], 1, pagesize, n);
    ThreadedFromLinks(m', pages, ls, [0], 1, n);
  }

  lemma ShortLinks(m: seq<int>, pages: seq<int>, lines: seq<int>, n: nat)
    requires 0 < n < |lines| && |pages| > 0 && Shortened(m, pages, lines, n, |pages| - 1)
    ensures forall x: nat | x + 1 < |pages| :: OutLink(m, pages, lines[..n], 1, x)
  {
    forall x: nat | x + 1 < |pages| ensures OutLink(m, pages, lines[..n], 1, x) {
      assert Skips(m, pages, lines, n, x);
    }
  }

  lemma NothingShortened(m: seq<int>, pages: seq<int>, lines: seq<int>, n: nat)
    requires 0 < n <= |lines| && |pages| > 0
    ensures Shortened(m, pages, lines, n, 0) && ChangedColumn(m, m, pages, lines[n - 1])
  {
  }

  method ShortenLines(mem: array<int>, pages: seq<int>, lines: seq<int>, ghost pagesize: nat, n: nat)
    requires Fits(pages, lines, [0], 1, pagesize, mem.Length) && 0 < n < |lines| && |pages| > 0
    requires Threaded(mem[..], pages, lines, [0], 1, |lines|)
    modifies mem
    ensures Threaded(mem[..], pages, lines[..n], [0], 1, n)
    ensures ChangedColumn(old(mem[..]), mem[..], pages, lines[n - 1])
  {
    hide Threaded, Shortened, ChangedColumn, Fits, RoundClosed;
    ghost var m := mem[..];
    NothingShortened(m, pages, lines, n);
    var i := 0;
    while i < |pages| - 1
      invariant 0 <= i <= |pages| - 1
      invariant Shortened(mem[..], pages, lines, n, i) && ChangedColumn(m, mem[..], pages, lines[n - 1])
    {
      ghost var m0 := mem[..];
      ShortStep(m0, pages, lines, pagesize, n, i, pages[i + 1] + lines[0]);
      ColumnStep(m, m0, pages, lines[n - 1], i, pages[i + 1] + lines[0]);
      mem[pages[i] + lines[n - 1]] := pages[i + 1] + lines[0];
      assert mem[..] == m0[pages[i] + lines[n - 1] := pages[i + 1] + lines[0]];
      i := i + 1;
    }
    ghost var m0 := mem[..];
    ShortStep(m0, pages, lines, pagesize, n, i, pages[0] + lines[0]);
    ColumnStep(m, m0, pages, lines[n - 1], i, pages[0] + lines[0]);
    mem[pages[i] + lines[n - 1]] := pages[0] + lines[0];
    assert mem[..] == m0[pages[i] + lines[n - 1] := pages[0] + lines[0]];
    OneWordLinked(m0, mem[..], pages[i] + lines[n - 1], pages[0] + lines[0]);
    ShortThreaded(m, mem[..], pages, lines, pagesize, n);
  }

  /** On page x, line n - 1 leads to line n as it should. */
  ghost predicate Repaired(m: seq<int>, pages: seq<int>, lines: seq<int>, n: nat, i: nat)
    requires 0 < n < |lines| && i <= |pages|
  {
    forall x | 0 <= x < i :: 0 <= pages[x] + lines[n - 1] < |m| && m[pages[x] + lines[n - 1]] == pages[x] + lines[n]
  }

  lemma RepairStep(m: seq<int>, pages: seq<int>, lines: seq<int>, pagesize: int, n: nat, i: nat)
    requires Fits(pages, lines, [0], 1, pagesize, |m|) && 0 < n < |lines| && i < |pages| &&
             Repaired(m, pages, lines, n, i)
    ensures 0 <= pages[i] + lines[n - 1] < |m|
    ensures Repaired(m[pages[i] + lines[n - 1] := pages[i] + lines[n]], pages, lines, n, i + 1)
  {
  }

  lemma AllRepaired(m: seq<int>, m': seq<int>, pages: seq<int>, lines: seq<int>, n: nat)
    requires 0 < n < |lines| && Threaded(m, pages, lines, [0], 1, |lines|)
    requires ChangedColumn(m, m', pages, lines[n - 1]) && Repaired(m', pages, lines, n, |pages|)
    ensures m' == m
  {
    hide Threaded;
    forall a | 0 <= a < |m| ensures m'[a] == m[a] {
      if InColumn(pages, lines[n - 1], a) {
        var p :| p in pages && a == p + lines[n - 1];
        var x: nat :| x < |pages| && pages[x] == p;
        ThreadedLinks(m, pages, lines, [0], 1, x, n - 1);
      }
    }
  }

  lemma NothingRepaired(m: seq<int>, pages: seq<int>, lines: seq<int>, n: nat)
    requires 0 < n < |lines|
    ensures Repaired(m, pages, lines, n, 0)
  {
  }

  /** "fixup full path again": line n - 1 of each page leads to line n once more. */
  method RestoreLines(mem: array<int>, pages: seq<int>, lines: seq<int>, ghost pagesize: nat, n: nat, ghost m: seq<int>)
    requires Fits(pages, lines, [0], 1, pagesize, mem.Length) && 0 < n < |lines| && |pages| > 0
    requires Threaded(m, pages, lines, [0], 1, |lines|) && ChangedColumn(m, mem[..], pages, lines[n - 1])
    modifies mem
    ensures mem[..] == m
  {
    hide Threaded, Repaired, ChangedColumn, Fits;
    NothingRepaired(mem[..], pages, lines, n);
    var i := 0;
    while i < |pages| - 1
      invariant 0 <= i <= |pages| - 1
      invariant Repaired(mem[..], pages, lines, n, i) && ChangedColumn(m, mem[..], pages, lines[n - 1])
    {
      ghost var m0 := mem[..];
      RepairStep(m0, pages, lines, pagesize, n, i);
      ColumnStep(m, m0, pages, lines[n - 1], i, pages[i] + lines[n]);
      mem[pages[i] + lines[n - 1]] := pages[i] + lines[n];
      assert mem[..] == m0[pages[i] + lines[n - 1] := pages[i] + lines[n]];
      i := i + 1;
    }
    ghost var m0 := mem[..];
    RepairStep(m0, pages, lines, pagesize, n, i);
    ColumnStep(m, m0, pages, lines[n - 1], i, pages[i] + lines[n]);
    mem[pages[i] + lines[n - 1]] := pages[i] + lines[n];
    assert mem[..] == m0[pages[i] + lines[n - 1] := pages[i] + lines[n]];
    AllRepaired(m, mem[..], pages, lines, n);
  }

  /** line_initialize's loops: the first word of each line, page after page, and back. */
  method ThreadLines(mem: array<int>, pages: seq<int>, lines: seq<int>, ghost pagesize: nat)
    requires Fits(pages, lines, [0], 1, pagesize, mem.Length) && |pages| > 0 && |lines| > 0
    modifies mem
    ensures Threaded(mem[..], pages, lines, [0], 1, |lines|)
  {
    hide Done, Threaded, ChangedOnly, BlockLinked, RoundClosed, Fits;
    var i := 0;
    NothingLinked(mem[..], pages, lines);
    while i < |pages| - 1
      invariant 0 <= i <= |pages| - 1 && Done(mem[..], pages, lines, 1, i, 0)
    {
      LinkLines(mem, pages, lines, pagesize, i);
      ghost var m := mem[..];
      BlockInside(pages, lines, [0], 1, pagesize, mem.Length, i, |lines| - 1);
      BlockInside(pages, lines, [0], 1, pagesize, mem.Length, i + 1, 0);
      mem[pages[i] + lines[|lines| - 1]] := pages[i + 1] + lines[0];
      OneWordLinked(m, mem[..], pages[i] + lines[|lines| - 1], pages[i + 1] + lines[0]);
      DonePage(m, mem[..], pages, lines, [0], 1, pagesize, i);
      i := i + 1;
    }
    LinkLines(mem, pages, lines, pagesize, i);
    ghost var m := mem[..];
    BlockInside(pages, lines, [0], 1, pagesize, mem.Length, i, |lines| - 1);
    mem[pages[i] + lines[|lines| - 1]] := pages[0] + lines[0];
    OneWordLinked(m, mem[..], pages[i] + lines[|lines| - 1], pages[0] + lines[0]);
    RoundLinked(mem[..], pages, lines, [0], 1, pagesize, |lines|);
    DoneRound(m, mem[..], pages, lines, [0], 1, pagesize, |lines|);
  }

  method LinkLines(mem: array<int>, pages: seq<int>, lines: seq<int>, ghost pagesize: nat, i: nat)
    requires Fits(pages, lines, [0], 1, pagesize, mem.Length) && i < |pages| && |lines| > 0
    requires Done(mem[..], pages, lines, 1, i, 0)
    modifies mem
    ensures Done(mem[..], pages, lines, 1, i, |lines| - 1)
  {
    hide Done, ChangedOnly, BlockLinked, Fits;
    var j := 0;
    while j < |lines| - 1
      invariant 0 <= j <= |lines| - 1 && Done(mem[..], pages, lines, 1, i, j)
    {
      ghost var m := mem[..];
      BlockInside(pages, lines, [0], 1, pagesize, mem.Length, i, j);
      mem[pages[i] + lines[j]] := pages[i] + lines[j + 1];
      OneWordLinked(m, mem[..], pages[i] + lines[j], pages[i] + lines[j + 1]);
      DoneStep(m, mem[..], pages, lines, [0], 1, pagesize, i, j);
      j := j + 1;
    }
  }

  lemma NothingLinked(m: seq<int>, pages: seq<int>, lines: seq<int>)
    ensures Done(m, pages, lines, 1, 0, 0)
  {
  }

  lemma OneWordLinked(m: seq<int>, m': seq<int>, from: int, to: int)
    requires 0 <= from < |m| && m' == m[from := to]
    ensures ChangedOnly(m, m', from, 1) && BlockLinked(m', from, to, 1) && RoundClosed(m', from, to, [0])
  {
  }

  /** The lines of a page line_test visits. */
  function LinesProbed(pagesize: nat, stride: nat, nlines: nat): nat
    requires 0 < stride
  {
    if pagesize / stride < nlines then pagesize / stride else nlines
  }

  lemma AtLeastOne(d: nat, n: nat)
    requires 0 < d <= n
    ensures n / d > 0
  {
    var q := n / d;
    assert n == q * d + n % d;
    if q <= 0 { MulMonotone(q, 0, d); }
  }

  lemma WholeLength(len: nat, pagesize: nat)
    requires 0 < len && 0 < pagesize && len % pagesize == 0
    ensures len == NPages(len, pagesize) * pagesize
  {
    var q := len / pagesize;
    assert len == q * pagesize;
    DivUnique(len + pagesize - 1, pagesize, q, pagesize - 1);
  }

  lemma PointersBound(len: nat, line: nat, pagesize: nat)
    requires 0 < len && IsPow2(line) && IsPow2(pagesize) && line <= pagesize
    ensures pagesize / line >= 0 && FullPages(NPages(len, pagesize), pagesize / line, NPointers(len, line))
  {
    LinesFit(line, pagesize);
    PageBounds(len, line, pagesize);
  }

  // ----- the loops of mem_initialize

  /** How many links lie between two starting pointers; without links it does not matter. */
  function Apart(npointers: nat, width: nat): (n: nat)
    ensures n > 0
  {
    if 1 <= width <= npointers then AtLeastOne(width, npointers); npointers / width else 1
  }

  /** The number of the link that starting pointer k belongs to. */
  function Mark(k: nat, step: nat): nat {
    k * step
  }

  /** The links from one line to the next on the same page. */
  function Links(npages: nat, nlines: nat, last: nat): nat
    requires npages > 0 && nlines > 0 && last > 0
  {
    MulMonotone(0, npages - 1, nlines - 1);
    (npages - 1) * (nlines - 1) + last - 1
  }

  /** a is where link number l starts: the given word of its line. */
  ghost predicate LinkStart(a: int, pages: seq<int>, lines: seq<int>, words: seq<int>, l: nat, word: nat) {
    && |lines| > 1 && |words| > 0 && l / (|lines| - 1) < |pages|
    && a == pages[l / (|lines| - 1)] + lines[l % (|lines| - 1)] + words[word % |words|]
  }

  /** After l links the starting pointers whose mark is below l are set, each to the start of that link, for
      one word of a line after the other; the others are as in p0. */
  ghost predicate Starts(p: seq<int>, p0: seq<int>, pages: seq<int>, lines: seq<int>, words: seq<int>, step: nat,
                         l: nat) {
    && |p| == |p0|
    && forall k: nat | k < |p| ::
         if Mark(k, step) < l then LinkStart(p[k], pages, lines, words, Mark(k, step), k) else p[k] == p0[k]
  }

  lemma MarkAt(k: nat, step: nat, l: nat)
    requires step > 0
    ensures Mark(k, step) == l <==> l % step == 0 && k == l / step
  {
    if Mark(k, step) == l { DivUnique(l, step, k, 0); }
  }

  lemma MarksRise(k: nat, k': nat, step: nat)
    requires k <= k'
    ensures Mark(k, step) <= Mark(k', step)
  {
    MulMonotone(k, k', step);
  }

  /** All of the first width pointers get set exactly when the last one's mark is among the links. On eight
      lines to a page, two full pages and width 16 that is not so: 14 links, and a mark on every one. */
  lemma AllStarts(npointers: nat, npages: nat, nlines: nat, width: nat, last: nat)
    requires 1 <= width <= npointers && npages > 0 && nlines > 0 && last > 0
    ensures (forall k: nat | k < width :: Mark(k, Apart(npointers, width)) < Links(npages, nlines, last)) <==>
            (width - 1) * (npointers / width) < (npages - 1) * (nlines - 1) + last - 1
    ensures Links(2, 8, 8) == 14 && Mark(14, Apart(16, 16)) == 14
  {
    var step, links := Apart(npointers, width), Links(npages, nlines, last);
    assert Mark(width - 1, step) == (width - 1) * (npointers / width);
    forall k: nat | k < width && Mark(width - 1, step) < links ensures Mark(k, step) < links {
      MarksRise(k, width - 1, step);
    }
  }

  /** Another link, with its starting pointer if it is a marked one. */
  lemma StartsStep(p: seq<int>, p0: seq<int>, pages: seq<int>, lines: seq<int>, words: seq<int>, step: nat, l: nat,
                   i: nat, j: nat, p': seq<int>)
    requires step > 0 && i < |pages| && j + 1 < |lines| && |words| > 0 && l == i * (|lines| - 1) + j
    requires Starts(p, p0, pages, lines, words, step, l)
    requires p' == if l % step == 0 &&
             l / step < |p| then p[l / step := pages[i] + lines[j] + words[(l / step) % |words|]] else p
    ensures Starts(p', p0, pages, lines, words, step, l + 1)
  {
    DivUnique(l, |lines| - 1, i, j);
    forall k: nat | k < |p'|
      ensures if Mark(k, step) < l + 1 then LinkStart(p'[k], pages, lines, words, Mark(k, step), k) else p'[k] == p0[k]
    {
      MarkAt(k, step, l);
      hide Mark;
    }
  }

  /** A starting pointer is in the chain. */
  lemma StartCovered(a: int, pages: seq<int>, lines: seq<int>, words: seq<int>, last: nat, l: nat, word: nat)
    requires |pages| > 0 && 0 < last <= |lines| && l < Links(|pages|, |lines|, last)
    requires LinkStart(a, pages, lines, words, l, word)
    ensures a in PageWords(pages, lines, words, last)
  {
    var n := |lines| - 1;
    var x, y := l / n, l % n;
    assert l == x * n + y;
    WordIndex(word, |words|);
    assert words[word % |words|] in words && lines[y] in lines;
    if x < |pages| - 1 {
      assert pages[x] in pages[..|pages| - 1];
    } else {
      assert y < last - 1;
      assert lines[y] in lines[..last] && Last(pages) in [Last(pages)];
    }
  }

  lemma StartsCovered(p: seq<int>, p0: seq<int>, pages: seq<int>, lines: seq<int>, words: seq<int>, last: nat,
                      step: nat)
    requires |pages| > 0 && 0 < last <= |lines|
    requires Starts(p, p0, pages, lines, words, step, Links(|pages|, |lines|, last))
    ensures forall k: nat | k < |p| && Mark(k, step) < Links(|pages|, |lines|, last) ::
              p[k] in PageWords(pages, lines, words, last)
    ensures |p| > 0 && 0 < Links(|pages|, |lines|, last) ==> |words| > 0 && p[0] == pages[0] + lines[0] + words[0]
  {
    hide Links, Mark, PageWords;
    forall k: nat | k < |p| && Mark(k, step) < Links(|pages|, |lines|, last)
      ensures p[k] in PageWords(pages, lines, words, last)
    {
      StartCovered(p[k], pages, lines, words, last, Mark(k, step), k);
    }
    if |p| > 0 && 0 < Links(|pages|, |lines|, last) {
      assert Mark(0, step) == 0 by { MarkZero(step); }
      assert LinkStart(p[0], pages, lines, words, Mark(0, step), 0);
      WordIndex(0, |words|);
    }
  }

  lemma MarkZero(step: nat)
    ensures Mark(0, step) == 0
  {
  }

  /** The lines of a page the inner loop links when its counter starts at l. */
  function PageLines(npointers: nat, nlines: nat, l: nat): nat {
    if npointers <= l + 1 || nlines <= 1 then 0 else if npointers - 1 - l < nlines - 1 then npointers - 1 - l
    else nlines - 1
  }

  /** The loop over the lines of page i; now and then a starting pointer is dropped. */
  method LinkPage(mem: array<int>, p: array<int>, ghost p0: seq<int>, pages: seq<int>, lines: seq<int>, words: seq<int>,
                  line: nat, ghost pagesize: nat, npointers: nat, width: nat, i: nat, l: nat)
    returns (j: nat, l': nat)
    requires mem != p && p.Length == MAX_MEM_PARALLELISM
    requires Fits(pages, lines, words, line, pagesize, mem.Length) && |words| == line && i < |pages| && |lines| > 0
    requires npointers >= 2 ==> 1 <= width <= npointers
    requires l == i * (|lines| - 1)
    requires Done(mem[..], pages, lines, line, i, 0) && Starts(p[..], p0, pages, lines, words, Apart(npointers, width),
                                                               l)
    modifies mem, p
    ensures j == PageLines(npointers, |lines|, l) && l' == l + j
    ensures Done(mem[..], pages, lines, line, i, j) && Starts(p[..], p0, pages, lines, words, Apart(npointers, width),
                                                              l')
  {
    hide Done, Starts, OneCycle;
    j, l' := 0, l;
    while j < |lines| - 1 && l' < npointers - 1
      invariant 0 <= j <= |lines| - 1 && l' == l + j
      invariant j > 0 ==> l' <= npointers - 1
      invariant Done(mem[..], pages, lines, line, i, j)
      invariant Starts(p[..], p0, pages, lines, words, Apart(npointers, width), l')
    {
      ghost var m, q := mem[..], p[..];
      LinkLine(mem, pages[i] + lines[j], pages[i] + lines[j + 1], line);
      DoneStep(m, mem[..], pages, lines, words, line, pagesize, i, j);
      var step := npointers / width;
      StepPositive(npointers, width);
      if l' % step == 0 && l' / step < MAX_MEM_PARALLELISM {
        var k := l' / step;
        WordIndex(k, |words|);
        p[k] := pages[i] + lines[j] + words[k % |words|];
      }
      StartsStep(q, p0, pages, lines, words, step, l', i, j, p[..]);
      j, l' := j + 1, l' + 1;
    }
  }

  lemma StepPositive(npointers: nat, width: nat)
    requires 1 <= width <= npointers
    ensures npointers / width >= 1 && 0 % (npointers / width) == 0 && 0 / (npointers / width) == 0
  {
  }

  lemma WordIndex(k: nat, n: nat)
    requires n > 0
    ensures k % n < n && (k == 0 ==> k % n == 0)
  {
  }

  /** Before the last page the counter never stops the inner loop; there it decides LastLines. */
  lemma PageLinesFull(npointers: nat, npages: nat, nlines: nat, i: nat)
    requires i < npages && nlines > 0 && FullPages(npages, nlines, npointers)
    ensures i * (nlines - 1) >= 0
    ensures i < npages - 1 ==> PageLines(npointers, nlines, i * (nlines - 1)) == nlines - 1
    ensures i == npages - 1 ==>
              PageLines(npointers, nlines, i * (nlines - 1)) == LastLines(npointers, npages, nlines) - 1
    ensures i * (nlines - 1) == 0 && nlines > 1 ==> i == 0
  {
    var b := nlines - 1;
    MulMonotone(0, i, b);
    if i > 0 { MulMonotone(1, i, b); }
    if i < npages - 1 {
      MulMonotone(i + 1, npages - 1, b);
      assert (npages - 1) * nlines == (npages - 1) * b + (npages - 1);
    }
  }

  method ThreadPages(mem: array<int>, p: array<int>, pages: seq<int>, lines: seq<int>, words: seq<int>,
                     line: nat, ghost pagesize: nat, npointers: nat, width: nat)
    requires mem != p && p.Length == MAX_MEM_PARALLELISM
    requires Fits(pages, lines, words, line, pagesize, mem.Length) && WordsOf(words, line) && NoDup(words) &&
             |words| == line
    requires |pages| > 0 && |lines| > 0 && FullPages(|pages|, |lines|, npointers)
    requires npointers >= 2 ==> 1 <= width <= npointers
    modifies mem, p
    ensures Threaded(mem[..], pages, lines, words, line, LastLines(npointers, |pages|, |lines|))
    ensures Starts(p[..], old(p[..]), pages, lines, words, Apart(npointers, width),
                   Links(|pages|, |lines|, LastLines(npointers, |pages|, |lines|)))
  {
    hide Done, Starts, Threaded, PageWords, LastLines, PageLines, ChangedOnly, BlockLinked, RoundClosed, Fits, WordsOf,
        NoDup;
    ghost var last := LastLines(npointers, |pages|, |lines|);
    LastLinesBounds(npointers, |pages|, |lines|);
    BlockInside(pages, lines, words, line, pagesize, mem.Length, 0, 0);
    ghost var p0 := p[..];
    NothingDone(mem[..], p0, pages, lines, words, line, Apart(npointers, width));
    var i, j, l := 0, 0, 0;
    while i < |pages|
      invariant 0 <= i <= |pages|
      invariant i < |pages| ==> l == i * (|lines| - 1)
      invariant i < |pages| ==> Done(mem[..], pages, lines, line, i, 0)
      invariant i == |pages| ==> j == last - 1 && Done(mem[..], pages, lines, line, i - 1, j)
      invariant i == |pages| ==> l == (i - 1) * (|lines| - 1) + last - 1
      invariant Starts(p[..], p0, pages, lines, words, Apart(npointers, width), l)
    {
      PageLinesFull(npointers, |pages|, |lines|, i);
      j, l := LinkPage(mem, p, p0, pages, lines, words, line, pagesize, npointers, width, i, l);
      if i < |pages| - 1 {
        ghost var m := mem[..];
        BlockInside(pages, lines, words, line, pagesize, mem.Length, i, j);
        BlockInside(pages, lines, words, line, pagesize, mem.Length, i + 1, 0);
        LinkWords(mem, pages[i] + lines[j], pages[i + 1] + lines[0], words, line);
        DonePage(m, mem[..], pages, lines, words, line, pagesize, i);
        assert (i + 1) * (|lines| - 1) == i * (|lines| - 1) + (|lines| - 1);
      }
      i := i + 1;
    }
    BlockInside(pages, lines, words, line, pagesize, mem.Length, |pages| - 1, j);
    ghost var m := mem[..];
    LinkRound(mem, pages[|pages| - 1] + lines[j], pages[0] + lines[0], words, line);
    RoundLinked(mem[..], pages, lines, words, line, pagesize, last);
    DoneRound(m, mem[..], pages, lines, words, line, pagesize, last);
  }

  /** Threading the pages makes one cycle, in which the starting pointers lie. */
  method BuildChain(mem: array<int>, p: array<int>, pages: seq<int>, lines: seq<int>, words: seq<int>,
                    line: nat, ghost pagesize: nat, npointers: nat, width: nat)
    requires mem != p && p.Length == MAX_MEM_PARALLELISM
    requires Fits(pages, lines, words, line, pagesize, mem.Length) && WordsOf(words, line) && NoDup(words) &&
             |words| == line
    requires |pages| > 0 && |lines| > 0 && FullPages(|pages|, |lines|, npointers)
    requires npointers >= 2 ==> 1 <= width <= npointers
    modifies mem, p
    ensures 0 < LastLines(npointers, |pages|, |lines|) <= |lines| && |words| > 0
    ensures Threaded(mem[..], pages, lines, words, line, LastLines(npointers, |pages|, |lines|))
    ensures OneCycle(mem[..], pages[0] + lines[0] + words[0],
                     PageWords(pages, lines, words, LastLines(npointers, |pages|, |lines|)))
    ensures Starts(p[..], old(p[..]), pages, lines, words, Apart(npointers, width),
                   Links(|pages|, |lines|, LastLines(npointers, |pages|, |lines|)))
  {
    LastLinesBounds(npointers, |pages|, |lines|);
    BlockInside(pages, lines, words, line, pagesize, mem.Length, 0, 0);
    FlattenSingles(pages);
    assert pagesize > 0;
    hide *;
    ThreadPages(mem, p, pages, lines, words, line, pagesize, npointers, width);
    ThreadedIsOneCycle(mem[..], pages, lines, words, line, LastLines(npointers, |pages|, |lines|), pagesize);
  }

  lemma NothingDone(m: seq<int>, p: seq<int>, pages: seq<int>, lines: seq<int>, words: seq<int>, line: nat, step: nat)
    ensures Done(m, pages, lines, line, 0, 0) && Starts(p, p, pages, lines, words, step, 0)
  {
  }

  lemma SomeLinks(npointers: nat, npages: nat, nlines: nat)
    requires npages > 0 && nlines > 0 && FullPages(npages, nlines, npointers)
    ensures LastLines(npointers, npages, nlines) > 0
    ensures Links(npages, nlines, LastLines(npointers, npages, nlines)) > 0 <==> nlines >= 2 && npointers >= 2
  {
    if npages > 1 && nlines > 1 {
      MulMonotone(1, npages - 1, nlines - 1);
      MulMonotone(1, npages - 1, nlines);
    }
  }

  lemma LastLinesBounds(npointers: nat, npages: nat, nlines: nat)
    requires nlines > 0
    ensures 0 < LastLines(npointers, npages, nlines) <= nlines
  {
  }

  lemma ShuffledInside(pages: seq<int>, pagesize: nat, bound: int)
    requires Shuffled(pages, pagesize) && pagesize > 0 && |pages| * pagesize <= bound
    ensures Separated(pages, pagesize, bound)
  {
    ShuffledSeparated(pages, pagesize);
  }

  lemma NPagesMonotone(a: nat, b: nat, pagesize: nat)
    requires 0 < a <= b && 0 < pagesize
    ensures 0 < NPages(a, pagesize) <= NPages(b, pagesize)
    ensures NPages(b, pagesize) * pagesize <= b + pagesize
  {
    CeilBounds(a, pagesize);
    CeilBounds(b, pagesize);
    var x, y := NPages(a, pagesize), NPages(b, pagesize);
    if x > y { MulMonotone(y, x - 1, pagesize); }
  }
}
