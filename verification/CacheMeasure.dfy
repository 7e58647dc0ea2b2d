/**
 cache.c, measure: the chain over the first pages of the table is closed, walked, and opened again.
 */
module CacheMeasure {
  import opened Chains
  import opened PageChains
  import opened BitOrder
  import opened MemInit
  import opened PageTables

  // ----- tables in which a page may occur more than once

  /** Every page lies in the buffer, and two different ones do not overlap. */
  ghost predicate Framed(pages: seq<int>, pagesize: int, bound: int) {
    && (forall p | p in pages :: 0 <= p && p + pagesize <= bound)
    && (forall p, q | p in pages && q in pages :: p == q || p + pagesize <= q || q + pagesize <= p)
  }

  /** Every entry of s is one of t. */
  ghost predicate Within(s: seq<int>, t: seq<int>) {
    forall p | p in s :: p in t
  }

  lemma FramedWithin(s: seq<int>, t: seq<int>, pagesize: int, bound: int)
    requires Framed(t, pagesize, bound) && Within(s, t)
    ensures Framed(s, pagesize, bound)
  {
  }

  lemma SameWithin(s: seq<int>, t: seq<int>)
    requires multiset(s) == multiset(t)
    ensures Within(s, t) && Within(t, s)
  {
    forall p | p in s ensures p in t { assert p in multiset(t); }
    forall p | p in t ensures p in s { assert p in multiset(s); }
  }

  lemma PrefixWithin(s: seq<int>, n: nat)
    requires n <= |s|
    ensures Within(s[..n], s)
  {
  }

  lemma SeparatedFramed(s: seq<int>, pagesize: int, bound: int)
    requires Separated(s, pagesize, bound)
    ensures Framed(s, pagesize, bound)
  {
  }

  lemma FramedSeparated(s: seq<int>, pagesize: int, bound: int)
    requires Framed(s, pagesize, bound) && NoDup(s)
    ensures Separated(s, pagesize, bound)
  {
    forall i | 0 <= i < |s| ensures 0 <= s[i] && s[i] + pagesize <= bound { assert s[i] in s; }
    forall i, j | 0 <= i < j < |s| ensures s[i] + pagesize <= s[j] || s[j] + pagesize <= s[i] {
      assert s[i] in s && s[j] in s && s[i] != s[j];
    }
  }

  /** Room for every line of every page and every word of every line. */
  ghost predicate Fitting(pages: seq<int>, lines: seq<int>, words: seq<int>, width: int, pagesize: int, bound: int) {
    Framed(pages, pagesize, bound) && Separated(lines, width, pagesize) && Separated(words, 1, width) && width > 0
  }

  lemma FittingFits(pages: seq<int>, lines: seq<int>, words: seq<int>, width: int, pagesize: int, bound: int, np: nat)
    requires Fitting(pages, lines, words, width, pagesize, bound) && np <= |pages| && NoDup(pages[..np])
    ensures Fits(pages[..np], lines, words, width, pagesize, bound)
    ensures Fits(Flatten(Singles(pages[..np])), lines, words, width, pagesize, bound)
  {
    PrefixWithin(pages, np);
    FramedWithin(pages[..np], pages, pagesize, bound);
    FramedSeparated(pages[..np], pagesize, bound);
    FlattenSingles(pages[..np]);
  }

  lemma LineInside(pages: seq<int>, lines: seq<int>, words: seq<int>, width: int, pagesize: int, bound: int, i: nat,
                   j: nat)
    requires Fitting(pages, lines, words, width, pagesize, bound) && i < |pages| && j < |lines|
    ensures 0 < width && 0 <= pages[i] + lines[j] && pages[i] + lines[j] + width <= bound
  {
    assert pages[i] in pages;
  }

  /** The line and word orders of a state whose line and page sizes are powers of two. */
  ghost predicate Orders(lines: seq<int>, words: seq<int>, line: nat, pagesize: nat) {
    && IsPow2(line) && IsPow2(pagesize) && line <= pagesize
    && lines == WordOrder(pagesize / line, line) && words == WordOrder(line, 1)
  }

  lemma OrdersFit(pages: seq<int>, lines: seq<int>, words: seq<int>, line: nat, pagesize: nat, bound: int)
    requires Orders(lines, words, line, pagesize) && Framed(pages, pagesize, bound)
    ensures Fitting(pages, lines, words, line, pagesize, bound)
    ensures WordsOf(words, line) && NoDup(words) && |words| == line > 0
    ensures |lines| == pagesize / line > 0 && lines[0] == 0 && words[0] == 0 && pagesize == |lines| * line
  {
    LinesFit(line, pagesize);
  }

  /** Line j of page p leads to line j + 1 of the same page. */
  ghost predicate InnerLink(m: seq<int>, p: int, lines: seq<int>, width: int, j: nat)
    requires j + 1 < |lines|
  {
    BlockLinked(m, p + lines[j], p + lines[j + 1], width)
  }

  /** The line-to-line chain inside every page of the table is intact; the order of the pages does not matter. */
  ghost predicate Inner(m: seq<int>, pages: seq<int>, lines: seq<int>, width: int) {
    forall p, j: nat | p in pages && j + 1 < |lines| :: InnerLink(m, p, lines, width, j)
  }

  lemma InnerAnyOrder(m: seq<int>, pages: seq<int>, pages': seq<int>, lines: seq<int>, width: int)
    requires Inner(m, pages, lines, width) && Within(pages', pages)
    ensures Inner(m, pages', lines, width)
  {
  }

  lemma InnerAt(m: seq<int>, pages: seq<int>, lines: seq<int>, width: int, x: nat, j: nat)
    requires Inner(m, pages, lines, width) && x < |pages| && j + 1 < |lines|
    ensures InLink(m, pages, lines, width, x, j)
  {
    assert InnerLink(m, pages[x], lines, width, j);
  }

  /** Rewriting line y of page i leaves the other inner links alone. */
  lemma InnerKept(m: seq<int>, m': seq<int>, pages: seq<int>, lines: seq<int>, words: seq<int>, width: int,
                  pagesize: int, i: nat, y: nat)
    requires Fitting(pages, lines, words, width, pagesize, |m|) && Inner(m, pages, lines, width)
    requires i < |pages| && y < |lines| && ChangedOnly(m, m', pages[i] + lines[y], width)
    requires y + 1 < |lines| ==> InLink(m', pages, lines, width, i, y)
    ensures Inner(m', pages, lines, width)
  {
    forall p, j: nat | p in pages && j + 1 < |lines| ensures InnerLink(m', p, lines, width, j) {
      if p != pages[i] || j != y {
        assert InnerLink(m, p, lines, width, j);
        LinesApart(pages, lines, width, pagesize, |m|, p, j, pages[i], y);
        KeepBlock(m, m', pages[i] + lines[y], width, p + lines[j], p + lines[j + 1]);
      }
    }
  }

  lemma LinesApart(pages: seq<int>, lines: seq<int>, width: int, pagesize: int, bound: int, p: int, j: nat, q: int,
                   y: nat)
    requires Framed(pages, pagesize, bound) && Separated(lines, width, pagesize)
    requires p in pages && q in pages && j < |lines| && y < |lines| && (p != q || j != y)
    ensures p + lines[j] + width <= q + lines[y] || q + lines[y] + width <= p + lines[j]
  {
  }

  /** Pages before i lead on to the next page. */
  ghost predicate Outer(m: seq<int>, pages: seq<int>, lines: seq<int>, width: int, i: nat)
    requires i < |pages| && |lines| > 0
  {
    forall x: nat | x < i :: OutLink(m, pages, lines, width, x)
  }

  lemma OuterStep(m: seq<int>, m': seq<int>, pages: seq<int>, lines: seq<int>, words: seq<int>, width: int,
                  pagesize: int, i: nat)
    requires Fits(pages, lines, words, width, pagesize, |m|) && i + 1 < |pages| && |lines| > 0
    requires Outer(m, pages, lines, width, i) && ChangedOnly(m, m', pages[i] + Last(lines), width)
    requires OutLink(m', pages, lines, width, i)
    ensures Outer(m', pages, lines, width, i + 1)
  {
    forall x: nat | x < i + 1 ensures OutLink(m', pages, lines, width, x) {
      if x < i {
        assert OutLink(m, pages, lines, width, x);
        OtherBlockKept(m, m', pages, lines, width, pagesize, |m|, i, |lines| - 1, x, |lines| - 1,
                       pages[x + 1] + lines[0]);
      }
    }
  }

  lemma ReadyForRound(m: seq<int>, pages: seq<int>, lines: seq<int>, width: int, np: nat, used: nat)
    requires 0 < np <= |pages| && 0 < used <= |lines| && Inner(m, pages, lines, width)
    requires Outer(m, pages[..np], lines, width, np - 1)
    ensures Done(m, pages[..np], lines, width, np - 1, used - 1)
  {
    var pg := pages[..np];
    forall x: nat, y: nat | x < np && y + 1 < |lines| ensures InLink(m, pg, lines, width, x, y) {
      InnerAt(m, pages, lines, width, x, y);
    }
  }

  /** The first loop: the pages in use are chained in table order, if none occurs twice. */
  method LinkPages(mem: array<int>, pages: seq<int>, lines: seq<int>, words: seq<int>, width: nat, ghost pagesize: nat,
                   np: nat)
    requires Fitting(pages, lines, words, width, pagesize, mem.Length) && WordsOf(words, width) && |lines| > 0 &&
             0 < np <= |pages|
    requires Inner(mem[..], pages, lines, width)
    modifies mem
    ensures Inner(mem[..], pages, lines, width)
    ensures NoDup(pages[..np]) ==> Outer(mem[..], pages[..np], lines, width, np - 1)
  {
    hide *;
    ghost var pg := pages[..np];
    NoneOut(mem[..], pages, lines, width, np);
    var i := 0;
    while i < np - 1
      invariant 0 <= i <= np - 1 && Inner(mem[..], pages, lines, width)
      invariant NoDup(pg) ==> Outer(mem[..], pg, lines, width, i)
    {
      ghost var m := mem[..];
      LineInside(pages, lines, words, width, pagesize, mem.Length, i, |lines| - 1);
      LineInside(pages, lines, words, width, pagesize, mem.Length, i + 1, 0);
      LinkWords(mem, pages[i] + lines[|lines| - 1], pages[i + 1] + lines[0], words, width);
      LastOut(m, mem[..], pages, lines, words, width, pagesize, np, i);
      i := i + 1;
    }
  }

  lemma NoneOut(m: seq<int>, pages: seq<int>, lines: seq<int>, width: int, np: nat)
    requires 0 < np <= |pages| && |lines| > 0
    ensures Outer(m, pages[..np], lines, width, 0)
  {
  }

  lemma LastOut(m: seq<int>, m': seq<int>, pages: seq<int>, lines: seq<int>, words: seq<int>, width: int, pagesize: int,
                np: nat, i: nat)
    requires Fitting(pages, lines, words, width, pagesize, |m|) && Inner(m, pages, lines, width)
    requires i + 1 < np <= |pages| && |lines| > 0
    requires ChangedOnly(m, m', pages[i] + lines[|lines| - 1], width)
    requires BlockLinked(m', pages[i] + lines[|lines| - 1], pages[i + 1] + lines[0], width)
    requires NoDup(pages[..np]) ==> Outer(m, pages[..np], lines, width, i)
    ensures Inner(m', pages, lines, width)
    ensures NoDup(pages[..np]) ==> Outer(m', pages[..np], lines, width, i + 1)
  {
    hide Fitting, Fits, Inner, Outer, ChangedOnly, BlockLinked, NoDup;
    InnerKept(m, m', pages, lines, words, width, pagesize, i, |lines| - 1);
    if NoDup(pages[..np]) {
      FittingFits(pages, lines, words, width, pagesize, |m|, np);
      OuterStep(m, m', pages[..np], lines, words, width, pagesize, i);
    }
  }

  lemma StillOnly(m: seq<int>, m1: seq<int>, m2: seq<int>, from: int, width: int)
    requires ChangedOnly(m, m1, from, width) && ChangedOnly(m1, m2, from, width)
    ensures ChangedOnly(m, m2, from, width)
  {
  }

  lemma RestoredLine(m: seq<int>, m': seq<int>, pages: seq<int>, lines: seq<int>, words: seq<int>, width: int,
                     pagesize: int, i: nat, y: nat)
    requires Fitting(pages, lines, words, width, pagesize, |m|) && Inner(m, pages, lines, width)
    requires i < |pages| && y < |lines| && ChangedOnly(m, m', pages[i] + lines[y], width)
    requires y + 1 < |lines| ==> BlockLinked(m', pages[i] + lines[y], pages[i] + lines[y + 1], width)
    ensures Inner(m', pages, lines, width)
  {
    InnerKept(m, m', pages, lines, words, width, pagesize, i, y);
  }

  /** measure, without the clock: during is the memory while the chain is walked. It is a chain through the
      pages in use if none of them is there twice; afterwards all inner chains are intact in any case. */
  method MeasureChain(mem: array<int>, pages: seq<int>, lines: seq<int>, words: seq<int>, width: nat,
                      ghost pagesize: nat, np: nat, used: nat) returns (ghost during: seq<int>)
    requires Fitting(pages, lines, words, width, pagesize, mem.Length) && WordsOf(words, width) && NoDup(words) &&
             |words| == width
    requires 0 < np <= |pages| && 0 < used <= |lines|
    requires Inner(mem[..], pages, lines, width)
    modifies mem
    ensures Inner(mem[..], pages, lines, width)
    ensures |during| == mem.Length && (NoDup(pages[..np]) ==> Threaded(during, pages[..np], lines, words, width, used))
  {
    hide *;
    LineInside(pages, lines, words, width, pagesize, mem.Length, np - 1, used - 1);
    LineInside(pages, lines, words, width, pagesize, mem.Length, 0, 0);
    if used < |lines| { LineInside(pages, lines, words, width, pagesize, mem.Length, np - 1, used); }
    LinkPages(mem, pages, lines, words, width, pagesize, np);
    ghost var m1 := mem[..];
    LinkRound(mem, pages[np - 1] + lines[used - 1], pages[0] + lines[0], words, width);
    during := mem[..];
    if NoDup(pages[..np]) { Closed(m1, during, pages, lines, words, width, pagesize, np, used); }
    if used < |lines| {
      LinkWords(mem, pages[np - 1] + lines[used - 1], pages[np - 1] + lines[used], words, width);
      StillOnly(m1, during, mem[..], pages[np - 1] + lines[used - 1], width);
    }
    RestoredLine(m1, mem[..], pages, lines, words, width, pagesize, np - 1, used - 1);
  }

  lemma Closed(m: seq<int>, m': seq<int>, pages: seq<int>, lines: seq<int>, words: seq<int>, width: nat, pagesize: nat,
               np: nat, used: nat)
    requires Fitting(pages, lines, words, width, pagesize, |m|) && |words| == width > 0
    requires 0 < np <= |pages| && 0 < used <= |lines| && Inner(m, pages, lines, width) && NoDup(pages[..np])
    requires Outer(m, pages[..np], lines, width, np - 1)
    requires ChangedOnly(m, m', pages[np - 1] + lines[used - 1], width)
    requires RoundClosed(m', pages[np - 1] + lines[used - 1], pages[0] + lines[0], words)
    ensures |m'| == |m| && Threaded(m', pages[..np], lines, words, width, used)
  {
    hide *;
    SameLength(m, m', pages[np - 1] + lines[used - 1], width);
    FittingFits(pages, lines, words, width, pagesize, |m|, np);
    PrefixEnds(pages, np);
    ReadyForRound(m, pages, lines, width, np, used);
    ClosedPages(m, m', pages[..np], lines, words, width, pagesize, used);
  }

  lemma SameLength(m: seq<int>, m': seq<int>, from: int, width: int)
    requires ChangedOnly(m, m', from, width)
    ensures |m'| == |m|
  {
  }

  lemma PrefixEnds(pages: seq<int>, np: nat)
    requires 0 < np <= |pages|
    ensures |pages[..np]| == np && pages[..np][np - 1] == pages[np - 1] && pages[..np][0] == pages[0]
  {
  }

  lemma ClosedPages(m: seq<int>, m': seq<int>, pages: seq<int>, lines: seq<int>, words: seq<int>, width: nat,
                    pagesize: nat, used: nat)
    requires Fits(pages, lines, words, width, pagesize, |m|) && |words| == width > 0 && |m'| == |m|
    requires 0 < |pages| && 0 < used <= |lines| && Done(m, pages, lines, width, |pages| - 1, used - 1)
    requires ChangedOnly(m, m', pages[|pages| - 1] + lines[used - 1], width)
    requires RoundClosed(m', pages[|pages| - 1] + lines[used - 1], pages[0] + lines[0], words)
    ensures Threaded(m', pages, lines, words, width, used)
  {
    assert pages[|pages| - 1] == Last(pages);
    hide *;
    RoundLinked(m', pages, lines, words, width, pagesize, used);
    DoneRound(m, m', pages, lines, words, width, pagesize, used);
  }
}
