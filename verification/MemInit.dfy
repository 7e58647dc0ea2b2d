/**
 lib_mem.c: the memory a benchmark walks and the routines that thread it.

 All sizes and offsets are counted in pointer-sized words, from the page-aligned
 base of the buffer.
 */
module MemInit {
  import opened Arith
  import opened Chains
  import opened PageChains

  const MAX_MEM_PARALLELISM := 16

  // ----- writes that stay inside one line of one page

  /** Nothing outside [from, from + width) changed. */
  ghost predicate ChangedOnly(m: seq<int>, m': seq<int>, from: int, width: int) {
    |m'| == |m| && forall a | 0 <= a < |m| && !(from <= a < from + width) :: m'[a] == m[a]
  }

  lemma KeepBlock(m: seq<int>, m': seq<int>, from: int, width: int, f: int, t: int)
    requires ChangedOnly(m, m', from, width) && BlockLinked(m, f, t, width)
    requires f + width <= from || from + width <= f
    ensures BlockLinked(m', f, t, width)
  {
  }

  /** Offsets 0 .. width - 1 in some order. */
  ghost predicate WordsOf(words: seq<int>, width: nat) {
    && |words| == width
    && (forall k | 0 <= k < width :: 0 <= words[k] < width)
    && (forall o | 0 <= o < width :: o in words)
  }

  /** Every word of a line points to the same word of another. */
  method LinkLine(mem: array<int>, from: nat, to: nat, line: nat)
    requires from + line <= mem.Length
    modifies mem
    ensures ChangedOnly(old(mem[..]), mem[..], from, line)
    ensures BlockLinked(mem[..], from, to, line)
  {
    var k := 0;
    while k < line
      invariant k <= line
      invariant forall a | from <= a < from + k :: mem[a] == to + (a - from)
      invariant forall a | 0 <= a < mem.Length && !(from <= a < from + k) :: mem[a] == old(mem[a])
    {
      mem[from + k] := to + k;
      k := k + 1;
    }
  }

  /** The same, visiting the words of the line in the order of the word table. */
  method LinkWords(mem: array<int>, from: nat, to: nat, words: seq<int>, width: nat)
    requires WordsOf(words, width) && from + width <= mem.Length
    modifies mem
    ensures ChangedOnly(old(mem[..]), mem[..], from, width)
    ensures BlockLinked(mem[..], from, to, width)
  {
    var k := 0;
    while k < |words|
      invariant k <= |words|
      invariant forall i | 0 <= i < k :: mem[from + words[i]] == to + words[i]
      invariant forall a | 0 <= a < mem.Length && !(from <= a < from + width) :: mem[a] == old(mem[a])
    {
      mem[from + words[k]] := to + words[k];
      k := k + 1;
    }
    forall a | from <= a < from + width ensures mem[a] == to + (a - from) {
      assert a - from in words;
      var i :| 0 <= i < |words| && words[i] == a - from;
    }
  }

  /** Each listed word of the line at from points to the next listed word of the line at to. */
  ghost predicate RoundClosed(m: seq<int>, from: int, to: int, words: seq<int>) {
    forall k | 0 <= k < |words| :: 0 <= from + words[k] < |m| && m[from + words[k]] == to + NextWord(words, k)
  }

  /** The closing loop: each word of the last line to the next word of the first line. */
  method LinkRound(mem: array<int>, from: nat, to: nat, words: seq<int>, width: nat)
    requires WordsOf(words, width) && NoDup(words) && from + width <= mem.Length
    modifies mem
    ensures ChangedOnly(old(mem[..]), mem[..], from, width)
    ensures RoundClosed(mem[..], from, to, words)
  {
    var k := 0;
    while k < |words|
      invariant k <= |words|
      invariant forall i | 0 <= i < k :: mem[from + words[i]] == to + NextWord(words, i)
      invariant forall a | 0 <= a < mem.Length && !(from <= a < from + width) :: mem[a] == old(mem[a])
    {
      var nw := if k == |words| - 1 then 0 else k + 1;
      mem[from + words[k]] := to + words[nw];
      k := k + 1;
    }
    forall i | 0 <= i < |words| ensures mem[..][from + words[i]] == to + NextWord(words, i) {
      assert mem[..][from + words[i]] == mem[from + words[i]];
    }
  }

  // ----- pages as groups of one

  function Singles(pages: seq<int>): seq<seq<int>> {
    seq(|pages|, i requires 0 <= i < |pages| => [pages[i]])
  }

  lemma {:induction false} FlattenSingles(pages: seq<int>)
    ensures Flatten(Singles(pages)) == pages
  {
    if |pages| > 0 {
      var n := |pages| - 1;
      FlattenSingles(pages[..n]);
      assert Singles(pages)[..n] == Singles(pages[..n]);
      assert pages == pages[..n] + [pages[n]];
    }
  }

  /** Line j of page x leads to line j + 1. */
  ghost predicate InLink(mem: seq<int>, pages: seq<int>, lines: seq<int>, width: int, x: nat, j: nat)
    requires x < |pages| && j + 1 < |lines|
  {
    BlockLinked(mem, pages[x] + lines[j], pages[x] + lines[j + 1], width)
  }

  /** The last line of page x leads to page x + 1. */
  ghost predicate OutLink(mem: seq<int>, pages: seq<int>, lines: seq<int>, width: int, x: nat)
    requires x + 1 < |pages| && |lines| > 0
  {
    BlockLinked(mem, pages[x] + Last(lines), pages[x + 1] + lines[0], width)
  }

  /** The whole chain over pages, of whose last page only the first `last` lines are used. */
  ghost predicate Threaded(mem: seq<int>, pages: seq<int>, lines: seq<int>, words: seq<int>, width: int, last: nat) {
    Grouped(mem, Singles(pages), lines, words, width, last)
  }

  lemma ThreadedFromLinks(mem: seq<int>, pages: seq<int>, lines: seq<int>, words: seq<int>, width: int, last: nat)
    requires |pages| > 0 && 0 < last <= |lines| && |words| > 0
    requires forall x: nat, j: nat | x < |pages| && j + 1 < (if x == |pages| - 1 then last else |lines|) ::
               InLink(mem, pages, lines, width, x, j)
    requires forall x: nat | x + 1 < |pages| :: OutLink(mem, pages, lines, width, x)
    requires forall k: nat | k < |words| :: NextRound(mem, Singles(pages), lines, words, last, k)
    ensures Threaded(mem, pages, lines, words, width, last)
  {
    var groups := Singles(pages);
    forall x: nat | x < |groups| ensures GroupLinked(mem, groups[x], LinesOf(groups, lines, last, x), width) {
      var ls := LinesOf(groups, lines, last, x);
      forall j: nat | j + 1 < |ls| ensures NextLine(mem, groups[x], ls, width, j) {
        assert InLink(mem, pages, lines, width, x, j);
      }
    }
    forall x: nat | x + 1 < |groups| ensures NextGroup(mem, groups, lines, width, x) {
      assert OutLink(mem, pages, lines, width, x);
    }
  }

  /** The converse: what the chain says of one line. */
  lemma ThreadedLinks(mem: seq<int>, pages: seq<int>, lines: seq<int>, words: seq<int>, width: int, x: nat, j: nat)
    requires Threaded(mem, pages, lines, words, width, |lines|) && x < |pages| && j < |lines|
    ensures j + 1 < |lines| ==> InLink(mem, pages, lines, width, x, j)
    ensures j + 1 == |lines| && x + 1 < |pages| ==> OutLink(mem, pages, lines, width, x)
  {
    var groups := Singles(pages);
    assert lines[..|lines|] == lines;
    assert GroupLinked(mem, groups[x], LinesOf(groups, lines, |lines|, x), width);
    if j + 1 < |lines| {
      assert NextLine(mem, groups[x], lines, width, j);
    } else if x + 1 < |pages| {
      assert NextGroup(mem, groups, lines, width, x);
    }
  }

  /** The blocks of two different (page, line) pairs do not overlap. */
  lemma BlocksApart(pages: seq<int>, lines: seq<int>, width: int, pagesize: int, bound: int,
                    x: nat, j: nat, y: nat, i: nat)
    requires Separated(pages, pagesize, bound) && Separated(lines, width, pagesize)
    requires x < |pages| && y < |pages| && j < |lines| && i < |lines| && (x != y || j != i)
    ensures pages[x] + lines[j] + width <= pages[y] + lines[i] || pages[y] + lines[i] + width <= pages[x] + lines[j]
  {
  }

  lemma OtherBlockKept(m: seq<int>, m': seq<int>, pages: seq<int>, lines: seq<int>, width: int, pagesize: int,
                       bound: int, i: nat, j: nat, x: nat, y: nat, t: int)
    requires Separated(pages, pagesize, bound) && Separated(lines, width, pagesize)
    requires i < |pages| && j < |lines| && x < |pages| && y < |lines| && (x != i || y != j)
    requires ChangedOnly(m, m', pages[i] + lines[j], width) && BlockLinked(m, pages[x] + lines[y], t, width)
    ensures BlockLinked(m', pages[x] + lines[y], t, width)
  {
    BlocksApart(pages, lines, width, pagesize, bound, x, y, i, j);
    KeepBlock(m, m', pages[i] + lines[j], width, pages[x] + lines[y], t);
  }

  /** The links set up once pages before i, and the first j lines of page i, are done. */
  ghost predicate Done(m: seq<int>, pages: seq<int>, lines: seq<int>, width: int, i: nat, j: nat) {
    && (forall x: nat, y: nat | x < |pages| && y + 1 < |lines| && (x < i || (x == i && y < j)) ::
          InLink(m, pages, lines, width, x, y))
    && (forall x: nat | x < i && x + 1 < |pages| && |lines| > 0 :: OutLink(m, pages, lines, width, x))
  }

  lemma DoneStep(m: seq<int>, m': seq<int>, pages: seq<int>, lines: seq<int>, words: seq<int>, width: int,
                 pagesize: int, i: nat, j: nat)
    requires Fits(pages, lines, words, width, pagesize, |m|)
    requires i < |pages| && j + 1 < |lines| && Done(m, pages, lines, width, i, j)
    requires ChangedOnly(m, m', pages[i] + lines[j], width)
    requires InLink(m', pages, lines, width, i, j)
    ensures Done(m', pages, lines, width, i, j + 1)
  {
    forall x: nat, y: nat | x < |pages| && y + 1 < |lines| && (x < i || (x == i && y < j + 1))
      ensures InLink(m', pages, lines, width, x, y)
    {
      if x != i || y != j {
        assert InLink(m, pages, lines, width, x, y);
        OtherBlockKept(m, m', pages, lines, width, pagesize, |m|, i, j, x, y, pages[x] + lines[y + 1]);
      }
    }
    forall x: nat | x < i && x + 1 < |pages| ensures OutLink(m', pages, lines, width, x) {
      assert OutLink(m, pages, lines, width, x);
      OtherBlockKept(m, m', pages, lines, width, pagesize, |m|, i, j, x, |lines| - 1, pages[x + 1] + lines[0]);
    }
  }

  lemma DonePage(m: seq<int>, m': seq<int>, pages: seq<int>, lines: seq<int>, words: seq<int>, width: int,
                 pagesize: int, i: nat)
    requires Fits(pages, lines, words, width, pagesize, |m|)
    requires i + 1 < |pages| && |lines| > 0 && Done(m, pages, lines, width, i, |lines| - 1)
    requires ChangedOnly(m, m', pages[i] + Last(lines), width)
    requires OutLink(m', pages, lines, width, i)
    ensures Done(m', pages, lines, width, i + 1, 0)
  {
    forall x: nat, y: nat | x < |pages| && y + 1 < |lines| && x < i + 1 ensures InLink(m', pages, lines, width, x, y) {
      assert InLink(m, pages, lines, width, x, y);
      OtherBlockKept(m, m', pages, lines, width, pagesize, |m|, i, |lines| - 1, x, y, pages[x] + lines[y + 1]);
    }
    forall x: nat | x < i + 1 && x + 1 < |pages| ensures OutLink(m', pages, lines, width, x) {
      if x < i {
        assert OutLink(m, pages, lines, width, x);
        OtherBlockKept(m, m', pages, lines, width, pagesize, |m|, i, |lines| - 1, x, |lines| - 1,
                       pages[x + 1] + lines[0]);
      }
    }
  }

  lemma SinglesEnds(pages: seq<int>)
    requires |pages| > 0
    ensures |Singles(pages)| == |pages| && Singles(pages)[0] == [pages[0]] && Last(Singles(pages)) == [Last(pages)]
    ensures forall x | 0 <= x < |pages| :: |Singles(pages)[x]| == 1
  {
  }

  lemma RoundLinked(m: seq<int>, pages: seq<int>, lines: seq<int>, words: seq<int>, width: int, pagesize: int,
                    last: nat)
    requires Fits(pages, lines, words, width, pagesize, |m|)
    requires |pages| > 0 && 0 < last <= |lines| && |words| > 0
    requires RoundClosed(m, pages[|pages| - 1] + lines[last - 1], pages[0] + lines[0], words)
    ensures forall k: nat | k < |words| :: NextRound(m, Singles(pages), lines, words, last, k)
  {
    BlockInside(pages, lines, words, width, pagesize, |m|, |pages| - 1, last - 1);
    SinglesEnds(pages);
    forall k: nat | k < |words| ensures NextRound(m, Singles(pages), lines, words, last, k) {
      hide Fits, Singles;
    }
  }

  /** Closing the round after the last line in use completes the chain. */
  lemma DoneRound(m: seq<int>, m': seq<int>, pages: seq<int>, lines: seq<int>, words: seq<int>, width: int,
                  pagesize: int, last: nat)
    requires Fits(pages, lines, words, width, pagesize, |m|)
    requires |pages| > 0 && 0 < last <= |lines| && |words| > 0
    requires Done(m, pages, lines, width, |pages| - 1, last - 1)
    requires ChangedOnly(m, m', Last(pages) + lines[last - 1], width)
    requires forall k: nat | k < |words| :: NextRound(m', Singles(pages), lines, words, last, k)
    ensures Threaded(m', pages, lines, words, width, last)
  {
    var n := |pages| - 1;
    forall x: nat, y: nat | x < |pages| && y + 1 < (if x == n then last else |lines|)
      ensures InLink(m', pages, lines, width, x, y)
    {
      assert InLink(m, pages, lines, width, x, y);
      OtherBlockKept(m, m', pages, lines, width, pagesize, |m|, n, last - 1, x, y, pages[x] + lines[y + 1]);
    }
    forall x: nat | x + 1 < |pages| ensures OutLink(m', pages, lines, width, x) {
      assert OutLink(m, pages, lines, width, x);
      OtherBlockKept(m, m', pages, lines, width, pagesize, |m|, n, last - 1, x, |lines| - 1, pages[x + 1] + lines[0]);
    }
    ThreadedFromLinks(m', pages, lines, words, width, last);
  }

  lemma BlockInside(pages: seq<int>, lines: seq<int>, words: seq<int>, width: int, pagesize: int, bound: int, i: nat,
                    j: nat)
    requires Fits(pages, lines, words, width, pagesize, bound) && i < |pages| && j < |lines|
    ensures 0 < width && 0 <= pages[i] + lines[j] && pages[i] + lines[j] + width <= bound
  {
  }

  // ----- sizes

  function NPages(len: nat, pagesize: nat): nat
    requires pagesize > 0
  {
    (len + pagesize - 1) / pagesize
  }

  function NPointers(len: nat, line: nat): nat
    requires line > 0
  {
    len / line
  }

  /** All pages but the last are full. */
  ghost predicate FullPages(npages: nat, nlines: nat, npointers: nat) {
    (npages - 1) * nlines <= npointers
  }

  /** The lines of the last page that mem_initialize threads: its counter l gains only
      nlines - 1 per page, but is stopped at npointers - 1. */
  function LastLines(npointers: nat, npages: nat, nlines: nat): nat {
    var rest := npointers - 1 - (npages - 1) * (nlines - 1);
    if rest <= 0 then 1 else if rest < nlines - 1 then 1 + rest else nlines
  }

  lemma PageBounds(len: nat, line: nat, pagesize: nat)
    requires 0 < len && 0 < line && 0 < pagesize && pagesize == (pagesize / line) * line
    ensures var np, nl := NPages(len, pagesize), pagesize / line;
            && (np - 1) * pagesize < len <= np * pagesize && 0 < np
            && (np - 1) * nl <= len / line <= np * nl
  {
    var np, nl := NPages(len, pagesize), pagesize / line;
    CeilBounds(len, pagesize);
    Regroup3(np - 1, nl, line);
    Regroup3(np, nl, line);
    DivBounds(len, line, (np - 1) * nl, np * nl);
  }

  lemma CeilBounds(len: nat, d: nat)
    requires len > 0 && d > 0
    ensures 0 < (len + d - 1) / d && ((len + d - 1) / d - 1) * d < len <= ((len + d - 1) / d) * d
  {
    var q := (len + d - 1) / d;
    assert len + d - 1 == q * d + (len + d - 1) % d;
    if q <= 0 { MulMonotone(q, 0, d); }
  }

  lemma Regroup3(a: int, b: int, c: int)
    ensures a * (b * c) == (a * b) * c
  {
  }

  lemma DivBounds(x: nat, d: nat, lo: int, hi: int)
    requires d > 0 && lo * d <= x <= hi * d
    ensures lo <= x / d <= hi
  {
    var q := x / d;
    assert x == q * d + x % d;
    if q < lo { MulMonotone(q + 1, lo, d); }
    if q > hi { MulMonotone(hi + 1, q, d); }
  }
}
