/** The page, line and word tables of a chain, and the cycle they describe. */
module PageTables {
  import opened Chains
  import opened PageChains
  import opened BitOrder
  import opened MemInit

  /** The tables of a state whose line and page sizes are powers of two. */
  ghost predicate Tables(pages: seq<int>, lines: seq<int>, words: seq<int>, line: nat, pagesize: nat, bound: int) {
    && IsPow2(line) && IsPow2(pagesize) && line <= pagesize
    && lines == WordOrder(pagesize / line, line) && words == WordOrder(line, 1)
    && Shuffled(pages, pagesize) && Separated(pages, pagesize, bound)
  }

  lemma WordOrderWords(n: nat)
    ensures WordsOf(WordOrder(Pow2(n), 1), Pow2(n))
  {
    WordOrderSeparated(n, 1);
    forall o | 0 <= o < Pow2(n) ensures o in WordOrder(Pow2(n), 1) {
      var i := WordOrderOnto(n, 1, o);
    }
  }

  lemma LinesFit(line: nat, pagesize: nat)
    requires IsPow2(line) && IsPow2(pagesize) && line <= pagesize
    ensures pagesize / line > 0 && pagesize == (pagesize / line) * line
    ensures Separated(WordOrder(pagesize / line, line), line, pagesize) && WordOrder(pagesize / line, line)[0] == 0
    ensures Separated(WordOrder(line, 1), 1, line) && WordOrder(line, 1)[0] == 0
    ensures WordsOf(WordOrder(line, 1), line)
  {
    IsPow2Quotient(line, pagesize);
    WordOrderSeparated(NumBits(pagesize) - NumBits(line), line);
    WordOrderSeparated(NumBits(line), 1);
    WordOrderWords(NumBits(line));
  }

  lemma TablesFit(pages: seq<int>, lines: seq<int>, words: seq<int>, line: nat, pagesize: nat, bound: int)
    requires Tables(pages, lines, words, line, pagesize, bound)
    ensures Fits(pages, lines, words, line, pagesize, bound)
    ensures WordsOf(words, line) && NoDup(words)
    ensures |lines| > 0 && lines[0] == 0 && words[0] == 0
  {
    LinesFit(line, pagesize);
  }

  lemma FitsSome(pages: seq<int>, lines: seq<int>, words: seq<int>, line: nat, pagesize: nat, bound: int, n: nat)
    requires Fits(pages, lines, words, line, pagesize, bound) && n <= |pages|
    ensures Fits(pages[..n], lines, words, line, pagesize, bound)
    ensures Fits(Flatten(Singles(pages[..n])), lines, words, line, pagesize, bound)
  {
    FlattenSingles(pages[..n]);
  }

  /** The words of the first n pages, of the last one only its first `last` lines. */
  function PageWords(pages: seq<int>, lines: seq<int>, words: seq<int>, last: nat): set<int>
    requires |pages| > 0 && last <= |lines|
  {
    Cells(pages[..|pages| - 1], lines, words) + Cells([Last(pages)], lines[..last], words)
  }

  lemma CoveredSingles(pages: seq<int>, lines: seq<int>, words: seq<int>, last: nat)
    requires |pages| > 0 && 0 < last <= |lines| && |words| > 0
    ensures Sized(Singles(pages), lines, words, last)
    ensures Covered(Singles(pages), lines, last, words) == PageWords(pages, lines, words, last)
  {
    var n := |pages| - 1;
    FlattenSingles(pages[..n]);
    assert Singles(pages)[..n] == Singles(pages[..n]);
    assert Last(Singles(pages)) == [Last(pages)];
  }

  lemma SinglesStart(pages: seq<int>)
    requires |pages| > 0
    ensures |Singles(pages)| > 0 && Singles(pages)[0] == [pages[0]]
  {
  }

  lemma SinglesWalked(mem: seq<int>, pages: seq<int>, lines: seq<int>, words: seq<int>, width: int, last: nat,
                      pagesize: int, start: int)
    requires Threaded(mem, pages, lines, words, width, last) && pagesize > 0
    requires Fits(Flatten(Singles(pages)), lines, words, width, pagesize, |mem|)
    requires |pages| > 0 && |lines| > 0 && |words| > 0 && start == pages[0] + lines[0] + words[0]
    ensures Sized(Singles(pages), lines, words, last)
    ensures OneCycle(mem, start, Covered(Singles(pages), lines, last, words))
    ensures WalksInOrder(mem, start, Order(Singles(pages), lines, last, words))
  {
    SinglesStart(pages);
    GroupedIsOneCycle(mem, Singles(pages), lines, words, width, last, pagesize, start);
  }

  lemma SinglesCycle(mem: seq<int>, start: int, pages: seq<int>, lines: seq<int>, words: seq<int>, last: nat)
    requires Sized(Singles(pages), lines, words, last) && |pages| > 0
    requires OneCycle(mem, start, Covered(Singles(pages), lines, last, words))
    ensures OneCycle(mem, start, PageWords(pages, lines, words, last))
  {
    CoveredSingles(pages, lines, words, last);
  }

  /** The chain over single pages is one cycle from its first page. */
  lemma ThreadedIsOneCycle(mem: seq<int>, pages: seq<int>, lines: seq<int>, words: seq<int>, width: int, last: nat,
                           pagesize: int)
    requires Threaded(mem, pages, lines, words, width, last) && pagesize > 0
    requires Fits(Flatten(Singles(pages)), lines, words, width, pagesize, |mem|)
    requires |pages| > 0 && 0 < last <= |lines| && |words| > 0
    ensures OneCycle(mem, pages[0] + lines[0] + words[0], PageWords(pages, lines, words, last))
    ensures WalksInOrder(mem, pages[0] + lines[0] + words[0], Order(Singles(pages), lines, last, words))
  {
    hide *;
    SinglesWalked(mem, pages, lines, words, width, last, pagesize, pages[0] + lines[0] + words[0]);
    SinglesCycle(mem, pages[0] + lines[0] + words[0], pages, lines, words, last);
  }
}
