/** What the chain of mem_initialize covers, in which order, and for which lengths it covers just that. */
module MemFacts {
  import opened Arith
  import opened Chains
  import opened PageChains
  import opened BitOrder
  import opened MemInit
  import opened PageTables

  /** 0 .. n - 1 */
  function Below(n: nat): (s: set<int>)
    ensures forall a :: a in s <==> 0 <= a < n
  {
    if n == 0 then {} else Below(n - 1) + {n - 1}
  }

  /** Every word of every listed block. */
  function Blocks(starts: seq<int>, size: nat): set<int> {
    set p, o | p in starts && o in Below(size) :: p + o
  }

  // ----- which words

  lemma Split(x: nat, d: nat, n: nat) returns (q: nat, r: nat)
    requires d > 0 && x < n * d
    ensures x == q * d + r && q < n && r < d
  {
    var y := x / d;
    r := x % d;
    assert x == y * d + r;
    if y >= n { MulMonotone(n, y, d); }
    if y < 0 { MulMonotone(y, -1, d); }
    q := y;
  }

  /** Lines and words in bit-reversed order reach every word of a page. */
  lemma LineAndWord(line: nat, pagesize: nat, x: nat) returns (l: int, o: int)
    requires IsPow2(line) && IsPow2(pagesize) && line <= pagesize && x < pagesize
    ensures l in WordOrder(pagesize / line, line) && o in WordOrder(line, 1) && x == l + o
  {
    IsPow2Quotient(line, pagesize);
    var d := NumBits(pagesize) - NumBits(line);
    var q, r := Split(x, line, Pow2(d));
    var i := WordOrderOnto(d, line, q);
    l, o := q * line, r;
    assert WordOrder(pagesize / line, line)[i] == l;
    WordOrderWords(NumBits(line));
  }

  lemma CellsAreBlocks(pages: seq<int>, line: nat, pagesize: nat)
    requires IsPow2(line) && IsPow2(pagesize) && line <= pagesize
    ensures Cells(pages, WordOrder(pagesize / line, line), WordOrder(line, 1)) == Blocks(pages, pagesize)
  {
    var lines, words := WordOrder(pagesize / line, line), WordOrder(line, 1);
    LinesFit(line, pagesize);
    forall a | a in Cells(pages, lines, words) ensures a in Blocks(pages, pagesize) {
      var p, l, o :| p in pages && l in lines && o in words && a == p + l + o;
      assert l + o in Below(pagesize);
    }
    forall a | a in Blocks(pages, pagesize) ensures a in Cells(pages, lines, words) {
      var p, x :| p in pages && x in Below(pagesize) && a == p + x;
      var l, o := LineAndWord(line, pagesize, x);
    }
  }

  lemma BlocksSplit(pages: seq<int>, size: nat)
    requires |pages| > 0
    ensures Blocks(pages, size) == Blocks(pages[..|pages| - 1], size) + Blocks([Last(pages)], size)
  {
    var front, back := pages[..|pages| - 1], [Last(pages)];
    assert pages == front + back;
    forall a | a in Blocks(pages, size) ensures a in Blocks(front, size) + Blocks(back, size) {
      var p, o :| p in pages && o in Below(size) && a == p + o;
      assert p in front || p in back;
    }
    forall a | a in Blocks(front, size) + Blocks(back, size) ensures a in Blocks(pages, size) {
      var p, o :| (p in front || p in back) && o in Below(size) && a == p + o;
      assert p in pages;
    }
  }

  /** With all lines of the last page in use, the chain covers the pages entirely. */
  lemma WholePages(pages: seq<int>, line: nat, pagesize: nat)
    requires |pages| > 0 && IsPow2(line) && IsPow2(pagesize) && line <= pagesize
    ensures var lines := WordOrder(pagesize / line, line);
            PageWords(pages, lines, WordOrder(line, 1), |lines|) == Blocks(pages, pagesize)
  {
    var lines := WordOrder(pagesize / line, line);
    assert lines[..|lines|] == lines;
    CellsAreBlocks(pages[..|pages| - 1], line, pagesize);
    CellsAreBlocks([Last(pages)], line, pagesize);
    BlocksSplit(pages, pagesize);
  }

  lemma ShuffledHas(pages: seq<int>, pagesize: nat, q: nat)
    requires Shuffled(pages, pagesize) && q < |pages|
    ensures q * pagesize in pages
  {
    var ms := Multiples(|pages|, pagesize);
    assert ms[q] in multiset(ms);
    assert q * pagesize in multiset(pages);
  }

  /** A shuffled page table covers the buffer from its first word on without a gap. */
  lemma ShuffledBlocks(pages: seq<int>, pagesize: nat)
    requires Shuffled(pages, pagesize) && pagesize > 0
    ensures |pages| * pagesize >= 0 && Blocks(pages, pagesize) == Below(|pages| * pagesize)
  {
    ShuffledSeparated(pages, pagesize);
    MulMonotone(0, |pages|, pagesize);
    forall a | a in Below(|pages| * pagesize) ensures a in Blocks(pages, pagesize) {
      var q, r := Split(a, pagesize, |pages|);
      ShuffledHas(pages, pagesize, q);
      assert r in Below(pagesize);
    }
    forall a | a in Blocks(pages, pagesize) ensures a in Below(|pages| * pagesize) {
      var p, o :| p in pages && o in Below(pagesize) && a == p + o;
      var i :| 0 <= i < |pages| && pages[i] == p;
    }
  }

  // ----- how many words

  lemma {:induction false} PageRunLength(pages: seq<int>, lines: seq<int>, last: nat, o: int)
    requires |pages| > 0 && last <= |lines|
    ensures |Flatten(WordGroups(Singles(pages), lines, last, o))| == (|pages| - 1) * |lines| + last
  {
    var groups := Singles(pages);
    var ss := WordGroups(groups, lines, last, o);
    var n := |ss| - 1;
    forall x: nat | x < |ss| ensures |ss[x]| == |LinesOf(groups, lines, last, x)| {
      FlattenLength(GroupLines(groups[x], LinesOf(groups, lines, last, x), o), 1);
    }
    FlattenLength(ss[..n], |lines|);
  }

  lemma PageWordsCount(pages: seq<int>, lines: seq<int>, words: seq<int>, width: int, pagesize: int, bound: int,
                       last: nat)
    requires Fits(pages, lines, words, width, pagesize, bound) && pagesize > 0
    requires |pages| > 0 && 0 < last <= |lines| && |words| > 0
    ensures |PageWords(pages, lines, words, last)| == |words| * ((|pages| - 1) * |lines| + last)
  {
    FlattenSingles(pages);
    hide *;
    var groups := Singles(pages);
    CoveredSingles(pages, lines, words, last);
    OrderLength(pages, lines, words, last);
    OrderNoDup(groups, lines, last, words, width, pagesize, bound);
    OrderElems(groups, lines, last, words);
    NoDupCard(Order(groups, lines, last, words));
  }

  lemma OrderLength(pages: seq<int>, lines: seq<int>, words: seq<int>, last: nat)
    requires |pages| > 0 && last <= |lines|
    ensures |Order(Singles(pages), lines, last, words)| == |words| * ((|pages| - 1) * |lines| + last)
  {
    var ss := OrderWords(Singles(pages), lines, last, words);
    forall k | 0 <= k < |ss| ensures |ss[k]| == (|pages| - 1) * |lines| + last {
      PageRunLength(pages, lines, last, words[k]);
    }
    FlattenLength(ss, (|pages| - 1) * |lines| + last);
  }

  // ----- in which order

  lemma WalkAt(mem: seq<int>, start: int, s: seq<int>, t: nat)
    requires WalksInOrder(mem, start, s) && t < |s|
    ensures Walk(mem, start, t) == s[t]
  {
  }

  /** All lines of all pages for one word of a line, then the same for the next word: step
      (k * npages + i) * nlines + j of the walk is line j of page i, word k. */
  lemma StepOfWalk(mem: seq<int>, pages: seq<int>, lines: seq<int>, words: seq<int>, width: int, pagesize: int,
                   i: nat, j: nat, k: nat, t: nat)
    requires Threaded(mem, pages, lines, words, width, |lines|) && pagesize > 0
    requires Fits(pages, lines, words, width, pagesize, |mem|)
    requires i < |pages| && j < |lines| && k < |words| && t == (k * |pages| + i) * |lines| + j
    ensures Walk(mem, pages[0] + lines[0] + words[0], t) == pages[i] + lines[j] + words[k]
  {
    hide *;
    StepIndex(k, |pages|, i, |lines|, j);
    OrderIndex(pages, lines, words, i, j, k);
    OrderStep(mem, pages, lines, words, width, pagesize, t);
  }

  lemma OrderStep(mem: seq<int>, pages: seq<int>, lines: seq<int>, words: seq<int>, width: int, pagesize: int, t: nat)
    requires Threaded(mem, pages, lines, words, width, |lines|) && pagesize > 0
    requires Fits(pages, lines, words, width, pagesize, |mem|)
    requires |pages| > 0 && |lines| > 0 && |words| > 0 && t < |Order(Singles(pages), lines, |lines|, words)|
    ensures Walk(mem, pages[0] + lines[0] + words[0], t) == Order(Singles(pages), lines, |lines|, words)[t]
  {
    FlattenSingles(pages);
    hide Threaded, Fits, PageWords, OneCycle, Order, WalksInOrder;
    ThreadedIsOneCycle(mem, pages, lines, words, width, |lines|, pagesize);
    WalkAt(mem, pages[0] + lines[0] + words[0], Order(Singles(pages), lines, |lines|, words), t);
  }

  lemma StepIndex(k: nat, m: nat, i: nat, n: nat, j: nat)
    ensures (k * m + i) * n + j == k * (m * n) + (i * n + j) >= 0
  {
    MulAssoc(k, m, n);
    Distribute(k * m, i, n);
    MulMonotone(0, k, m);
    MulMonotone(0, k * m + i, n);
  }

  lemma PageRunIndex(pages: seq<int>, lines: seq<int>, o: int, i: nat, j: nat)
    requires i < |pages| && j < |lines|
    ensures var f := Flatten(WordGroups(Singles(pages), lines, |lines|, o));
            && |f| == |pages| * |lines| && 0 <= i * |lines| + j < |f| && f[i * |lines| + j] == pages[i] + lines[j] + o
  {
    var groups := Singles(pages);
    assert lines[..|lines|] == lines;
    var ss := WordGroups(groups, lines, |lines|, o);
    forall x | 0 <= x < |ss| ensures |ss[x]| == |lines| {
      FlattenLength(GroupLines(groups[x], lines, o), 1);
    }
    FlattenLength(ss, |lines|);
    FlattenIndex(GroupLines(groups[i], lines, o), 1, j, 0);
    FlattenIndex(ss, |lines|, i, j);
  }

  lemma OrderIndex(pages: seq<int>, lines: seq<int>, words: seq<int>, i: nat, j: nat, k: nat)
    requires i < |pages| && j < |lines| && k < |words|
    ensures var s := Order(Singles(pages), lines, |lines|, words);
            var t := k * (|pages| * |lines|) + (i * |lines| + j);
            0 <= t < |s| && s[t] == pages[i] + lines[j] + words[k]
  {
    var ss := OrderWords(Singles(pages), lines, |lines|, words);
    forall x | 0 <= x < |ss| ensures |ss[x]| == |pages| * |lines| {
      PageRunIndex(pages, lines, words[x], i, j);
    }
    PageRunIndex(pages, lines, words[k], i, j);
    FlattenIndex(ss, |pages| * |lines|, k, i * |lines| + j);
  }

  // ----- for which lengths

  lemma LastLinesExact(npointers: nat, np: nat, nl: nat)
    requires 0 < npointers && 0 < np && 0 < nl && (np - 1) * nl <= npointers <= np * nl
    ensures (np - 1) * nl + LastLines(npointers, np, nl) == npointers <==> np == 1 || npointers == np * nl
  {
    var x := (np - 1) * nl;
    assert (np - 1) * (nl - 1) == x - (np - 1);
    assert np * nl == x + nl;
  }

  /** mem_initialize threads exactly the len / line lines it was asked for
      if and only if the buffer is one page, or its last page is in use to the end. */
  lemma ExactLength(len: nat, line: nat, pagesize: nat)
    requires IsPow2(line) && IsPow2(pagesize) && line <= pagesize && line <= len
    ensures var np, nl := NPages(len, pagesize), pagesize / line;
            (np - 1) * nl + LastLines(len / line, np, nl) == len / line <==> np == 1 || len / line == np * nl
  {
    var np, nl := NPages(len, pagesize), pagesize / line;
    LinesFit(line, pagesize);
    PageBounds(len, line, pagesize);
    MulMonotone(1, line, len);
    DivBounds(len, line, 1, len);
    LastLinesExact(len / line, np, nl);
  }

  /** On a whole number of pages, all of them in the table, the chain covers the buffer [0, len) exactly. */
  lemma WholeBuffer(pages: seq<int>, line: nat, pagesize: nat, len: nat, nl: nat, npointers: nat)
    requires IsPow2(line) && IsPow2(pagesize) && line <= pagesize && nl == pagesize / line && npointers == len / line
    requires Shuffled(pages, pagesize) && 0 < len && len == |pages| * pagesize
    ensures LastLines(npointers, |pages|, nl) == nl > 0 && |pages| > 0
    ensures PageWords(pages, WordOrder(nl, line), WordOrder(line, 1), nl) == Below(len)
  {
    WholeCounts(|pages|, line, pagesize, len, nl, npointers);
    hide LastLines;
    WholePages(pages, line, pagesize);
    ShuffledBlocks(pages, pagesize);
  }

  lemma WholeCounts(np: nat, line: nat, pagesize: nat, len: nat, nl: nat, npointers: nat)
    requires IsPow2(line) && IsPow2(pagesize) && line <= pagesize && nl == pagesize / line && npointers == len / line
    requires 0 < len && len == np * pagesize
    ensures 0 < np && 0 < nl && LastLines(npointers, np, nl) == nl
  {
    LinesFit(line, pagesize);
    hide IsPow2, LastLines, Separated, WordsOf;
    MulAssoc(np, nl, line);
    DivUnique(len, line, np * nl, 0);
    LastLinesWhole(np, nl);
  }

  lemma LastLinesWhole(np: nat, nl: nat)
    requires 0 < np && 0 < nl
    ensures np * nl >= 0 && LastLines(np * nl, np, nl) == nl
  {
    MulMonotone(0, np, nl);
    assert (np - 1) * (nl - 1) == np * nl - nl - np + 1;
  }

  // ----- chains that use one word of a line only

  lemma CellsConcat(front: seq<int>, back: seq<int>, lines: seq<int>, words: seq<int>)
    ensures Cells(front + back, lines, words) == Cells(front, lines, words) + Cells(back, lines, words)
  {
    forall a
      ensures a in Cells(front + back, lines, words) <==>
              a in Cells(front, lines, words) || a in Cells(back, lines, words)
    {
      if p, l, o :| p in front + back && l in lines && o in words && a == p + l + o {
        assert p in front || p in back;
      }
      if p, l, o :| (p in front || p in back) && l in lines && o in words && a == p + l + o {
        assert p in front + back;
      }
    }
  }

  lemma OneWordCells(pages: seq<int>, lines: seq<int>)
    requires |pages| > 0
    ensures PageWords(pages, lines, [0], |lines|) == Cells(pages, lines, [0])
  {
    var front, back := pages[..|pages| - 1], [Last(pages)];
    assert pages == front + back && lines[..|lines|] == lines;
    CellsConcat(front, back, lines, [0]);
  }

  /** The first pagesize / stride lines of the longer bit-reversed order are the shorter order
      for lines of that stride: its multiples, each once. */
  lemma OrderPrefix(line: nat, stride: nat, pagesize: nat)
    requires IsPow2(line) && IsPow2(stride) && IsPow2(pagesize) && line <= stride <= pagesize
    ensures 0 < pagesize / stride <= pagesize / line
    ensures WordOrder(pagesize / line, line)[..pagesize / stride] == WordOrder(pagesize / stride, stride)
  {
    IsPow2Quotient(line, pagesize);
    IsPow2Quotient(stride, pagesize);
    IsPow2Quotient(line, stride);
    var b, n, m := NumBits(stride) - NumBits(line), NumBits(pagesize) - NumBits(line),
        NumBits(pagesize) - NumBits(stride);
    PrefixEntries(b, m, line);
    assert n == m + b && stride == Pow2(b) * line;
  }

  lemma PrefixEntries(b: nat, m: nat, line: nat)
    ensures Pow2(m) <= Pow2(m + b)
    ensures WordOrder(Pow2(m + b), line)[..Pow2(m)] == WordOrder(Pow2(m), Pow2(b) * line)
  {
    NumBitsPow2(m + b);
    NumBitsPow2(m);
    Pow2Grows(m, b);
    forall i: nat | i < Pow2(m) ensures Rev(m + b, i) * line == Rev(m, i) * (Pow2(b) * line) {
      RevPrefix(m, m + b, i);
      MulAssoc(Rev(m, i), Pow2(b), line);
    }
  }

  lemma {:induction false} Pow2Grows(m: nat, b: nat)
    ensures Pow2(m) <= Pow2(m + b)
  {
    if b > 0 { Pow2Grows(m, b - 1); }
  }

  lemma CellsSameLines(pages: seq<int>, lines: seq<int>, lines': seq<int>, words: seq<int>)
    requires forall l :: l in lines <==> l in lines'
    ensures Cells(pages, lines, words) == Cells(pages, lines', words)
  {
  }

  /** The bit-reversed order of 2^d lines lists 0, stride, ..., (2^d - 1) * stride. */
  lemma OrderMultiples(d: nat, stride: nat, l: int)
    ensures l in WordOrder(Pow2(d), stride) <==> l in Multiples(Pow2(d), stride)
  {
    var s, t := WordOrder(Pow2(d), stride), Multiples(Pow2(d), stride);
    NumBitsPow2(d);
    if l in s {
      var i :| 0 <= i < |s| && s[i] == l;
      RevBound(d, i);
      assert t[Rev(d, i)] == l;
    }
    if l in t {
      var q :| 0 <= q < |t| && t[q] == l;
      var i := WordOrderOnto(d, stride, q);
      assert s[i] == l;
    }
  }

  lemma OrderIsMultiples(pages: seq<int>, stride: nat, pagesize: nat)
    requires IsPow2(stride) && IsPow2(pagesize) && stride <= pagesize
    ensures pagesize / stride >= 0
    ensures Cells(pages, WordOrder(pagesize / stride, stride), [0]) ==
            Cells(pages, Multiples(pagesize / stride, stride), [0])
  {
    IsPow2Quotient(stride, pagesize);
    var d := NumBits(pagesize) - NumBits(stride);
    var s, t := WordOrder(Pow2(d), stride), Multiples(Pow2(d), stride);
    forall l ensures l in s <==> l in t { OrderMultiples(d, stride, l); }
    CellsSameLines(pages, s, t, [0]);
  }
}
