/**
 lat_dram_page.c: regroup rewires the chain of mem_initialize so that, inside each group of
 pages, every step goes to another page.
 */
module DramPage {
  import opened Chains
  import opened BitOrder
  import opened PageChains
  import opened MemInit
  import opened PageTables
  import opened MemFacts
  import opened LibMem

  // ----- what regroup does to memory

  /** Page i of the group points, word for word, to page i + 1. */
  ghost predicate PageLinked(m: seq<int>, g: seq<int>, pagesize: int, i: nat)
    requires i + 1 < |g|
  {
    BlockLinked(m, g[i], g[i + 1], pagesize)
  }

  /** A pointer inside page `last` is moved to the same place in page `first`. */
  function Redirect(ptr: int, last: int, first: int, pagesize: int): int {
    if last <= ptr < last + pagesize then first + (ptr - last) else ptr
  }

  ghost predicate Outside(a: int, g: seq<int>, pagesize: int) {
    forall i | 0 <= i < |g| :: !(g[i] <= a < g[i] + pagesize)
  }

  ghost predicate Regrouped(m: seq<int>, m': seq<int>, g: seq<int>, pagesize: int)
    requires |g| > 0
  {
    && |m'| == |m|
    && (forall i: nat | i + 1 < |g| :: PageLinked(m', g, pagesize, i))
    && (forall a | 0 <= a < |m| && Last(g) <= a < Last(g) + pagesize ::
       m'[a] == Redirect(m[a], Last(g), g[0], pagesize))
    && (forall a | 0 <= a < |m| && Outside(a, g, pagesize) :: m'[a] == m[a])
  }

  // ----- one group of single pages becomes one group

  function Before(done: seq<seq<int>>, g: seq<int>, rest: seq<seq<int>>): seq<seq<int>> {
    done + Singles(g) + rest
  }

  function After(done: seq<seq<int>>, g: seq<int>, rest: seq<seq<int>>): seq<seq<int>> {
    done + [g] + rest
  }

  /** A block on a page that is not in the group keeps its links. */
  lemma BlockOutside(m: seq<int>, m': seq<int>, g: seq<int>, pagesize: int, p: int, l: int, to: int, width: int)
    requires |g| > 0 && Regrouped(m, m', g, pagesize) && BlockLinked(m, p + l, to, width)
    requires 0 <= l && l + width <= pagesize
    requires forall i | 0 <= i < |g| :: p + pagesize <= g[i] || g[i] + pagesize <= p
    ensures BlockLinked(m', p + l, to, width)
  {
    forall a | p + l <= a < p + l + width ensures m'[a] == to + (a - (p + l)) {
      assert Outside(a, g, pagesize);
    }
  }

  /** A page of another group lies apart from the pages of this one. */
  lemma PagesApart(done: seq<seq<int>>, g: seq<int>, rest: seq<seq<int>>, pagesize: int, bound: int, x: nat, i: nat)
    requires Separated(Flatten(done) + g + Flatten(rest), pagesize, bound)
    requires x < |done| + |rest| && i < |(done + rest)[x]|
    ensures var p := (done + rest)[x][i];
            forall k | 0 <= k < |g| :: p + pagesize <= g[k] || g[k] + pagesize <= p
  {
    var f := Flatten(done) + g + Flatten(rest);
    var p := (done + rest)[x][i];
    var y: nat;
    if x < |done| {
      FlattenElems(done, p);
      y :| y < |Flatten(done)| && Flatten(done)[y] == p;
      assert f[y] == p;
    } else {
      FlattenElems(rest, p);
      assert p in rest[x - |done|];
      var z: nat :| z < |Flatten(rest)| && Flatten(rest)[z] == p;
      y := |Flatten(done)| + |g| + z;
      assert f[y] == p;
    }
    forall k | 0 <= k < |g| ensures p + pagesize <= g[k] || g[k] + pagesize <= p {
      assert f[|Flatten(done)| + k] == g[k];
    }
  }

  /** The pages of g are apart from each other. */
  lemma OwnPagesApart(done: seq<seq<int>>, g: seq<int>, rest: seq<seq<int>>, pagesize: int, bound: int)
    requires Separated(Flatten(done) + g + Flatten(rest), pagesize, bound)
    ensures Separated(g, pagesize, bound)
  {
    var f := Flatten(done) + g + Flatten(rest);
    assert forall i | 0 <= i < |g| :: f[|Flatten(done)| + i] == g[i];
  }

  lemma OtherGroupKept(m: seq<int>, m': seq<int>, done: seq<seq<int>>, g: seq<int>, rest: seq<seq<int>>,
                       lines: seq<int>, width: int, pagesize: int, x: nat)
    requires |g| > 0 && Regrouped(m, m', g, pagesize) && Separated(lines, width, pagesize)
    requires Separated(Flatten(done) + g + Flatten(rest), pagesize, |m|)
    requires x < |done| + |rest| && |(done + rest)[x]| > 0
    requires GroupLinked(m, (done + rest)[x], lines, width)
    ensures GroupLinked(m', (done + rest)[x], lines, width)
  {
    var h := (done + rest)[x];
    forall i: nat, j: nat | i + 1 < |h| && j < |lines| ensures NextPage(m', h, lines, width, i, j) {
      assert NextPage(m, h, lines, width, i, j);
      PagesApart(done, g, rest, pagesize, |m|, x, i);
      BlockOutside(m, m', g, pagesize, h[i], lines[j], h[i + 1] + lines[j], width);
    }
    forall j: nat | j + 1 < |lines| ensures NextLine(m', h, lines, width, j) {
      assert NextLine(m, h, lines, width, j);
      PagesApart(done, g, rest, pagesize, |m|, x, |h| - 1);
      BlockOutside(m, m', g, pagesize, Last(h), lines[j], h[0] + lines[j + 1], width);
    }
  }

  /** The new group is linked as a group. */
  lemma NewGroupLinked(m: seq<int>, m': seq<int>, g: seq<int>, lines: seq<int>, width: int, pagesize: int)
    requires |g| > 1 && Regrouped(m, m', g, pagesize) && Separated(lines, width, pagesize) &&
             Separated(g, pagesize, |m|)
    requires GroupLinked(m, [Last(g)], lines, width)
    ensures GroupLinked(m', g, lines, width)
  {
    forall i: nat, j: nat | i + 1 < |g| && j < |lines| ensures NextPage(m', g, lines, width, i, j) {
      assert PageLinked(m', g, pagesize, i);
    }
    forall j: nat | j + 1 < |lines| ensures NextLine(m', g, lines, width, j) {
      assert NextLine(m, [Last(g)], lines, width, j);
    }
  }

  // ----- the links between groups

  lemma PageOutKept(m: seq<int>, m': seq<int>, done: seq<seq<int>>, g: seq<int>, rest: seq<seq<int>>,
                    lines: seq<int>, width: int, pagesize: int, x: nat, to: int)
    requires |g| > 0 && Regrouped(m, m', g, pagesize) && Separated(lines, width, pagesize) && |lines| > 0
    requires Separated(Flatten(done) + g + Flatten(rest), pagesize, |m|)
    requires x < |done| + |rest| && |(done + rest)[x]| > 0
    requires BlockLinked(m, Last((done + rest)[x]) + Last(lines), to, width)
    ensures BlockLinked(m', Last((done + rest)[x]) + Last(lines), to, width)
  {
    var h := (done + rest)[x];
    PagesApart(done, g, rest, pagesize, |m|, x, |h| - 1);
    BlockOutside(m, m', g, pagesize, Last(h), Last(lines), to, width);
  }

  lemma NextGroupKept(m: seq<int>, m': seq<int>, done: seq<seq<int>>, g: seq<int>, rest: seq<seq<int>>,
                      lines: seq<int>, width: int, pagesize: int, x: nat)
    requires |g| > 1 && |lines| > 0 && Regrouped(m, m', g, pagesize) && Separated(lines, width, pagesize)
    requires Separated(Flatten(done) + g + Flatten(rest), pagesize, |m|)
    requires forall y | 0 <= y < |Before(done, g, rest)| :: |Before(done, g, rest)[y]| > 0
    requires forall y: nat | y + 1 < |Before(done, g, rest)| :: NextGroup(m, Before(done, g, rest), lines, width, y)
    requires x + 1 < |After(done, g, rest)|
    ensures |After(done, g, rest)[x]| > 0 && |After(done, g, rest)[x + 1]| > 0
    ensures NextGroup(m', After(done, g, rest), lines, width, x)
  {
    var b, c, d := Before(done, g, rest), After(done, g, rest), |done|;
    if x < d {
      assert NextGroup(m, b, lines, width, x);
      assert b[x] == c[x] == (done + rest)[x] && b[x + 1][0] == c[x + 1][0];
      PageOutKept(m, m', done, g, rest, lines, width, pagesize, x, c[x + 1][0] + lines[0]);
    } else {
      var y := x + |g| - 1;
      assert NextGroup(m, b, lines, width, y);
      assert Last(b[y]) == Last(c[x]) && b[y + 1] == c[x + 1];
      if x == d {
        assert c[x + 1] == rest[0] == (done + rest)[d];
        PagesApart(done, g, rest, pagesize, |m|, d, 0);
        LastLineKept(m, m', g, lines, width, pagesize, c[x + 1][0]);
      } else {
        assert c[x] == (done + rest)[x - 1];
        PageOutKept(m, m', done, g, rest, lines, width, pagesize, x - 1, c[x + 1][0] + lines[0]);
      }
    }
  }

  /** The last line of the group's last page already leads out of that page, so it is left alone. */
  lemma LastLineKept(m: seq<int>, m': seq<int>, g: seq<int>, lines: seq<int>, width: int, pagesize: int, p: int)
    requires |g| > 1 && |lines| > 0 && Regrouped(m, m', g, pagesize) && Separated(lines, width, pagesize)
    requires p + pagesize <= Last(g) || Last(g) + pagesize <= p
    requires BlockLinked(m, Last(g) + Last(lines), p + lines[0], width)
    ensures BlockLinked(m', Last(g) + Last(lines), p + lines[0], width)
  {
  }

  lemma NextRoundKept(m: seq<int>, m': seq<int>, done: seq<seq<int>>, g: seq<int>, rest: seq<seq<int>>,
                      lines: seq<int>, words: seq<int>, width: int, pagesize: int, last: nat, k: nat)
    requires |g| > 1 && k < |words| && Regrouped(m, m', g, pagesize)
    requires Fits(Flatten(done) + g + Flatten(rest), lines, words, width, pagesize, |m|)
    requires Sized(Before(done, g, rest), lines, words, last) && Sized(After(done, g, rest), lines, words, last)
    requires NextRound(m, Before(done, g, rest), lines, words, last, k)
    ensures NextRound(m', After(done, g, rest), lines, words, last, k)
  {
    var b, c := Before(done, g, rest), After(done, g, rest);
    RoundEnds(done, g, rest, lines, words, last);
    LastApart(done, g, rest, lines, words, pagesize, |m|, last);
    hide Before, After, Sized, Flatten;
    RoundWordKept(m, m', g, lines, words, width, pagesize, last, Last(Last(c)), c[0][0], k);
  }

  /** The chain starts and ends with the same pages as before. */
  lemma RoundEnds(done: seq<seq<int>>, g: seq<int>, rest: seq<seq<int>>, lines: seq<int>, words: seq<int>, last: nat)
    requires Sized(Before(done, g, rest), lines, words, last) && Sized(After(done, g, rest), lines, words, last)
    ensures var b, c := Before(done, g, rest), After(done, g, rest);
            |b| > 0 && |c| > 0 && |b[0]| > 0 && |c[0]| > 0 && |Last(b)| > 0 && |Last(c)| > 0
            && b[0][0] == c[0][0] && Last(Last(b)) == Last(Last(c))
  {
  }

  /** The last page of the chain lies outside the group, or is its last page and apart from the chain's first. */
  lemma LastApart(done: seq<seq<int>>, g: seq<int>, rest: seq<seq<int>>, lines: seq<int>, words: seq<int>,
                  pagesize: int, bound: int, last: nat)
    requires |g| > 1 && Sized(After(done, g, rest), lines, words, last)
    requires Separated(Flatten(done) + g + Flatten(rest), pagesize, bound)
    ensures var c := After(done, g, rest);
            var p, first := Last(Last(c)), c[0][0];
            || (forall i | 0 <= i < |g| :: p + pagesize <= g[i] || g[i] + pagesize <= p)
            || (p == Last(g) && (first + pagesize <= p || p + pagesize <= first))
  {
    var c, d := After(done, g, rest), |done|;
    if |rest| > 0 {
      assert Last(c) == (done + rest)[d + |rest| - 1];
      PagesApart(done, g, rest, pagesize, bound, d + |rest| - 1, |Last(c)| - 1);
    } else {
      OwnPagesApart(done, g, rest, pagesize, bound);
      if d > 0 {
        assert c[0] == (done + rest)[0];
        PagesApart(done, g, rest, pagesize, bound, 0, 0);
      }
    }
  }

  /** So the word that closes the round is left alone. */
  lemma RoundWordKept(m: seq<int>, m': seq<int>, g: seq<int>, lines: seq<int>, words: seq<int>, width: int,
                      pagesize: int, last: nat, p: int, first: int, k: nat)
    requires |g| > 0 && Regrouped(m, m', g, pagesize) && Separated(lines, width, pagesize) && Separated(words, 1, width)
    requires 0 < last <= |lines| && k < |words|
    requires || (forall i | 0 <= i < |g| :: p + pagesize <= g[i] || g[i] + pagesize <= p)
             || (p == Last(g) && (first + pagesize <= p || p + pagesize <= first))
    requires 0 <= p + lines[last - 1] + words[k] < |m| && m[p + lines[last - 1] + words[k]] == first + lines[0] +
             NextWord(words, k)
    ensures |m'| == |m| && m'[p + lines[last - 1] + words[k]] == m[p + lines[last - 1] + words[k]]
  {
    var end := p + lines[last - 1] + words[k];
    assert p <= end < p + pagesize && 0 <= lines[0] + NextWord(words, k) < pagesize;
    if p != Last(g) || !(first + pagesize <= p || p + pagesize <= first) { assert Outside(end, g, pagesize); }
  }

  /** Regrouping the pages g turns them from groups of one into one group of the chain. */
  lemma GroupedStep(m: seq<int>, m': seq<int>, done: seq<seq<int>>, g: seq<int>, rest: seq<seq<int>>,
                    lines: seq<int>, words: seq<int>, width: int, pagesize: int, last: nat)
    requires |g| > 1 && Regrouped(m, m', g, pagesize)
    requires Fits(Flatten(done) + g + Flatten(rest), lines, words, width, pagesize, |m|)
    requires Grouped(m, Before(done, g, rest), lines, words, width, last)
    ensures Grouped(m', After(done, g, rest), lines, words, width, last)
  {
    var b, c, d := Before(done, g, rest), After(done, g, rest), |done|;
    forall x | 0 <= x < |c| ensures |c[x]| > 0 {
      if x < d { assert c[x] == b[x]; } else if x > d { assert c[x] == b[x + |g| - 1]; }
    }
    forall x: nat | x < |c| ensures GroupLinked(m', c[x], LinesOf(c, lines, last, x), width) {
      GroupKept(m, m', done, g, rest, lines, words, width, pagesize, last, x);
    }
    forall x: nat | x + 1 < |c| ensures NextGroup(m', c, lines, width, x) {
      NextGroupKept(m, m', done, g, rest, lines, width, pagesize, x);
    }
    forall k: nat | k < |words| ensures NextRound(m', c, lines, words, last, k) {
      NextRoundKept(m, m', done, g, rest, lines, words, width, pagesize, last, k);
    }
  }

  lemma LinesFitToo(groups: seq<seq<int>>, lines: seq<int>, last: nat, x: nat, width: int, pagesize: int)
    requires last <= |lines| && Separated(lines, width, pagesize)
    ensures Separated(LinesOf(groups, lines, last, x), width, pagesize)
  {
  }

  lemma GroupKept(m: seq<int>, m': seq<int>, done: seq<seq<int>>, g: seq<int>, rest: seq<seq<int>>,
                  lines: seq<int>, words: seq<int>, width: int, pagesize: int, last: nat, x: nat)
    requires |g| > 1 && Regrouped(m, m', g, pagesize)
    requires Fits(Flatten(done) + g + Flatten(rest), lines, words, width, pagesize, |m|)
    requires Grouped(m, Before(done, g, rest), lines, words, width, last)
    requires x < |After(done, g, rest)|
    ensures last <= |lines| && |After(done, g, rest)[x]| > 0
    ensures GroupLinked(m', After(done, g, rest)[x], LinesOf(After(done, g, rest), lines, last, x), width)
  {
    var b, c, d := Before(done, g, rest), After(done, g, rest), |done|;
    LinesFitToo(c, lines, last, x, width, pagesize);
    var used := LinesOf(c, lines, last, x);
    if x == d {
      var y := d + |g| - 1;
      assert b[y] == [Last(g)] && LinesOf(b, lines, last, y) == used;
      assert GroupLinked(m, b[y], LinesOf(b, lines, last, y), width);
      OwnPagesApart(done, g, rest, pagesize, |m|);
      NewGroupLinked(m, m', g, used, width, pagesize);
    } else {
      var y, z := if x < d then x else x + |g| - 1, if x < d then x else x - 1;
      assert b[y] == c[x] == (done + rest)[z] && LinesOf(b, lines, last, y) == used;
      assert GroupLinked(m, b[y], LinesOf(b, lines, last, y), width);
      OtherGroupKept(m, m', done, g, rest, used, width, pagesize, z);
    }
  }

  // ----- the loops of regroup

  /** Pages before i of the group are rewired, nothing else is. */
  ghost predicate Rewired(m: seq<int>, m': seq<int>, g: seq<int>, pagesize: int, i: nat)
    requires i < |g|
  {
    && |m'| == |m|
    && (forall x: nat | x < i :: PageLinked(m', g, pagesize, x))
    && (forall a | 0 <= a < |m| && Outside(a, g[..i], pagesize) :: m'[a] == m[a])
  }

  lemma RewiredStep(m: seq<int>, m0: seq<int>, m1: seq<int>, g: seq<int>, pagesize: int, i: nat)
    requires i + 1 < |g| && Separated(g, pagesize, |m|) && Rewired(m, m0, g, pagesize, i)
    requires ChangedOnly(m0, m1, g[i], pagesize) && BlockLinked(m1, g[i], g[i + 1], pagesize)
    ensures Rewired(m, m1, g, pagesize, i + 1)
  {
    forall x: nat | x < i + 1 ensures PageLinked(m1, g, pagesize, x) {
      if x < i {
        assert PageLinked(m0, g, pagesize, x);
        KeepBlock(m0, m1, g[i], pagesize, g[x], g[x + 1]);
      }
    }
    forall a | 0 <= a < |m| && Outside(a, g[..i + 1], pagesize) ensures m1[a] == m[a] {
      assert g[..i + 1][i] == g[i];
      assert forall x | 0 <= x < i :: g[..i][x] == g[..i + 1][x];
      assert Outside(a, g[..i], pagesize);
    }
  }

  lemma RewiredLast(m: seq<int>, m0: seq<int>, m1: seq<int>, g: seq<int>, pagesize: int)
    requires |g| > 1 && Separated(g, pagesize, |m|) && Rewired(m, m0, g, pagesize, |g| - 1)
    requires ChangedOnly(m0, m1, Last(g), pagesize)
    requires forall a | 0 <= a < |m| && Last(g) <= a < Last(g) + pagesize ::
               m1[a] == Redirect(m0[a], Last(g), g[0], pagesize)
    ensures Regrouped(m, m1, g, pagesize)
  {
    var n := |g| - 1;
    forall x: nat | x + 1 < |g| ensures PageLinked(m1, g, pagesize, x) {
      assert PageLinked(m0, g, pagesize, x);
      KeepBlock(m0, m1, g[n], pagesize, g[x], g[x + 1]);
    }
    forall a | 0 <= a < |m| && Last(g) <= a < Last(g) + pagesize ensures m0[a] == m[a] {
      assert Outside(a, g[..n], pagesize);
    }
    forall a | 0 <= a < |m| && Outside(a, g, pagesize) ensures m1[a] == m[a] {
      assert Outside(a, g[..n], pagesize);
    }
  }

  /** The loop over the last page: pointers into the page itself go to the first page instead. */
  method RedirectPage(mem: array<int>, page: nat, first: int, pagesize: nat)
    requires page + pagesize <= mem.Length
    modifies mem
    ensures ChangedOnly(old(mem[..]), mem[..], page, pagesize)
    ensures forall a | page <= a < page + pagesize :: mem[..][a] == Redirect(old(mem[..])[a], page, first, pagesize)
  {
    var i := 0;
    while i < pagesize
      invariant i <= pagesize
      invariant forall a | page <= a < page + i :: mem[a] == Redirect(old(mem[..])[a], page, first, pagesize)
      invariant forall a | 0 <= a < mem.Length && !(page <= a < page + i) :: mem[a] == old(mem[..])[a]
    {
      var ptr := mem[page + i];
      if page <= ptr && ptr < page + pagesize {
        var offset := ptr - page;
        mem[page + i] := first + offset;
      }
      i := i + 1;
    }
  }

  method Regroup(mem: array<int>, pages: seq<int>, pagesize: nat)
    requires Separated(pages, pagesize, mem.Length)
    modifies mem
    ensures |pages| <= 1 ==> mem[..] == old(mem[..])
    ensures |pages| > 1 ==> Regrouped(old(mem[..]), mem[..], pages, pagesize)
  {
    if |pages| <= 1 { return; }
    ghost var m := mem[..];
    var i := 0;
    while i < |pages| - 1
      invariant 0 <= i < |pages| && Rewired(m, mem[..], pages, pagesize, i)
    {
      ghost var m0 := mem[..];
      LinkLine(mem, pages[i], pages[i + 1], pagesize);
      RewiredStep(m, m0, mem[..], pages, pagesize, i);
      i := i + 1;
    }
    ghost var m0 := mem[..];
    RedirectPage(mem, pages[i], pages[0], pagesize);
    RewiredLast(m, m0, mem[..], pages, pagesize);
  }

  // ----- dram_page_initialize

  /** The page table cut into groups; the last may be short. */
  function Chunks(pages: seq<int>, group: nat): (c: seq<seq<int>>)
    requires group > 0
  {
    if |pages| == 0 then [] else
    var n := if group < |pages| then group else |pages|;
    [pages[..n]] + Chunks(pages[n..], group)
  }

  /** Groups of the asked size but for the last, covering the pages in order. */
  lemma {:induction false} ChunksSizes(pages: seq<int>, group: nat)
    requires group > 0
    ensures Flatten(Chunks(pages, group)) == pages
    ensures forall x | 0 <= x < |Chunks(pages, group)| ::
              0 < |Chunks(pages, group)[x]| <= group && (x + 1 < |Chunks(pages, group)| ==>
              |Chunks(pages, group)[x]| == group)
  {
    if |pages| > 0 {
      var n := if group < |pages| then group else |pages|;
      var c := Chunks(pages[n..], group);
      ChunksSizes(pages[n..], group);
      FlattenConcat([pages[..n]], c);
      assert Flatten([pages[..n]]) == Flatten([pages[..n]][..0]) + pages[..n];
      assert Chunks(pages, group) == [pages[..n]] + c;
      if n == |pages| { assert c == []; }
    }
  }

  /** The words of the chain after regrouping are those before exactly if the last group is one page, or all
      lines of its last page are used; otherwise the lines of its other pages beyond those used are left out. */
  lemma SameWords(groups: seq<seq<int>>, pages: seq<int>, lines: seq<int>, words: seq<int>, width: int, pagesize: int,
                  bound: int, last: nat)
    requires Sized(groups, lines, words, last) && Flatten(groups) == pages && |pages| > 0
    requires Fits(pages, lines, words, width, pagesize, bound) && pagesize > 0
    ensures Covered(groups, lines, last, words) == PageWords(pages, lines, words, last) <==>
            |Last(groups)| == 1 || last == |lines|
    ensures last == |lines| ==> Covered(groups, lines, last, words) == Cells(pages, lines, words)
  {
    var n := |groups| - 1;
    var front, g := Flatten(groups[..n]), groups[n];
    assert pages == front + g;
    if last == |lines| {
      assert lines[..last] == lines;
      CellsConcat(front, g, lines, words);
      CellsConcat(pages[..|pages| - 1], [Last(pages)], lines, words);
      assert pages == pages[..|pages| - 1] + [Last(pages)];
    } else if |g| == 1 {
      assert g == [Last(pages)] && front == pages[..|pages| - 1];
    } else {
      LinesLeftOut(front, g, pages, lines, words, width, pagesize, bound, last);
    }
  }

  lemma LinesLeftOut(front: seq<int>, g: seq<int>, pages: seq<int>, lines: seq<int>, words: seq<int>, width: int,
                     pagesize: int, bound: int, last: nat)
    requires pages == front + g && |g| > 1 && 0 < last < |lines| && |words| > 0 && pagesize > 0
    requires Fits(pages, lines, words, width, pagesize, bound)
    ensures Cells(front, lines, words) + Cells(g, lines[..last], words) != PageWords(pages, lines, words, last)
  {
    FitsParts(pages, lines, words, width, pagesize, bound);
    hide *;
    NotTwice(front, g, pages, lines, width, pagesize, bound, last);
    NotInFront(front, g, pages, lines, words, width, pagesize, bound, last);
    assert pages[..|pages| - 1][|front|] == g[0];
    InCells(pages[..|pages| - 1], lines, words, g[0], lines[last], words[0]);
    FullPagesIn(pages, lines, words, last);
  }

  lemma FitsParts(pages: seq<int>, lines: seq<int>, words: seq<int>, width: int, pagesize: int, bound: int)
    requires Fits(pages, lines, words, width, pagesize, bound)
    ensures width > 0 && Separated(pages, pagesize, bound) && Separated(lines, width, pagesize)
  {
  }

  lemma FullPagesIn(pages: seq<int>, lines: seq<int>, words: seq<int>, last: nat)
    requires |pages| > 0 && last <= |lines|
    ensures Cells(pages[..|pages| - 1], lines, words) <= PageWords(pages, lines, words, last)
  {
  }

  lemma InCells(pages: seq<int>, lines: seq<int>, words: seq<int>, p: int, l: int, o: int)
    requires p in pages && l in lines && o in words
    ensures p + l + o in Cells(pages, lines, words)
  {
  }

  lemma NotTwice(front: seq<int>, g: seq<int>, pages: seq<int>, lines: seq<int>, width: int, pagesize: int, bound: int,
                 last: nat)
    requires pages == front + g && |g| > 0 && last < |lines| && pagesize > 0 && width > 0
    requires Separated(pages, pagesize, bound) && Separated(lines, width, pagesize)
    ensures g[0] in pages && g[0] !in front && lines[last] in lines && lines[last] !in lines[..last]
  {
    SeparatedNoDup(pages, pagesize, bound);
    SeparatedNoDup(lines, width, pagesize);
    assert pages[|front|] == g[0] && forall y | 0 <= y < |front| :: pages[y] == front[y];
  }

  lemma NotInFront(front: seq<int>, g: seq<int>, pages: seq<int>, lines: seq<int>, words: seq<int>, width: int,
                   pagesize: int, bound: int, last: nat)
    requires pages == front + g && |g| > 0 && last < |lines| && |words| > 0
    requires Fits(pages, lines, words, width, pagesize, bound)
    requires g[0] in pages && g[0] !in front && lines[last] in lines && lines[last] !in lines[..last]
    ensures g[0] + lines[last] + words[0] !in Cells(front, lines, words) + Cells(g, lines[..last], words)
  {
    var a := g[0] + lines[last] + words[0];
    forall p, l, o | p in front && l in lines && o in words ensures a != p + l + o {
      assert p in pages;
      if a == p + l + o {
        AddrInjective(pages, lines, words, width, pagesize, bound, p, l, o, g[0], lines[last], words[0]);
      }
    }
    forall p, l, o | p in g && l in lines[..last] && o in words ensures a != p + l + o {
      assert p in pages && l in lines;
      if a == p + l + o {
        AddrInjective(pages, lines, words, width, pagesize, bound, p, l, o, g[0], lines[last], words[0]);
      }
    }
    hide Fits;
  }

  /** From word o of line j on page i of the group the chain goes to another of its pages: the same line of
      the next one, or from the last one the next line of the first. */
  ghost predicate OtherPage(m: seq<int>, g: seq<int>, lines: seq<int>, i: nat, j: nat, o: nat)
    requires i < |g| && j < |lines| && !(i == |g| - 1 && j == |lines| - 1)
  {
    var next := if i + 1 < |g| then g[i + 1] else g[0];
    && next != g[i] && 0 <= g[i] + lines[j] + o < |m|
    && m[g[i] + lines[j] + o] == next + (if i + 1 < |g| then lines[j] else lines[j + 1]) + o
  }

  /** Every step inside the group but the one that leaves it goes to another page. */
  ghost predicate ChangesPage(m: seq<int>, g: seq<int>, lines: seq<int>, width: int) {
    forall i: nat, j: nat, o: nat | i < |g| && j < |lines| && o < width && !(i == |g| - 1 && j == |lines| - 1) ::
      OtherPage(m, g, lines, i, j, o)
  }

  /** In a group of two or more pages that is so. */
  lemma NextPageInGroup(m: seq<int>, g: seq<int>, lines: seq<int>, width: int)
    requires |g| >= 2 && NoDup(g) && GroupLinked(m, g, lines, width)
    ensures ChangesPage(m, g, lines, width)
  {
    forall i: nat, j: nat, o: nat | i < |g| && j < |lines| && o < width && !(i == |g| - 1 && j == |lines| - 1)
      ensures OtherPage(m, g, lines, i, j, o)
    {
      if i + 1 < |g| {
        assert NextPage(m, g, lines, width, i, j);
      } else {
        assert NextLine(m, g, lines, width, j);
      }
    }
  }

  lemma AllGroupsChange(m: seq<int>, groups: seq<seq<int>>, lines: seq<int>, words: seq<int>, width: int, last: nat)
    requires Grouped(m, groups, lines, words, width, last) && NoDup(Flatten(groups))
    ensures last <= |lines| && AllChange(m, groups, lines, width, last)
  {
    FlattenParts(groups);
    hide ChangesPage;
    forall x: nat | x < |groups| && |groups[x]| >= 2 ensures ChangesPage(m, groups[x], LinesOf(groups, lines, last, x),
                                                                         width) {
      NextPageInGroup(m, groups[x], LinesOf(groups, lines, last, x), width);
    }
  }

  /** So it is in every group of two or more pages, over the lines the chain uses there. */
  ghost predicate AllChange(m: seq<int>, groups: seq<seq<int>>, lines: seq<int>, width: int, last: nat)
    requires last <= |lines|
  {
    forall x: nat | x < |groups| && |groups[x]| >= 2 :: ChangesPage(m, groups[x], LinesOf(groups, lines, last, x),
                                                                    width)
  }

  lemma SinglesSplit(pages: seq<int>, n: nat)
    requires n <= |pages|
    ensures Singles(pages) == Singles(pages[..n]) + Singles(pages[n..])
    ensures n == 1 ==> Singles(pages[..n]) == [pages[..n]]
  {
    if n == 1 { assert pages[..n] == [pages[0]]; }
  }

  /** Pages before i have been regrouped, the others are still single. */
  ghost predicate UpTo(m: seq<int>, pages: seq<int>, lines: seq<int>, words: seq<int>, width: int, last: nat,
                       group: nat, done: seq<seq<int>>, i: nat)
    requires i <= |pages| && group > 0
  {
    && Flatten(done) == pages[..i] && done + Chunks(pages[i..], group) == Chunks(pages, group)
    && Grouped(m, done + Singles(pages[i..]), lines, words, width, last)
  }

  /** Regrouping the pages [i, i + n) of the table: one round of the loop in dram_page_initialize. */
  lemma RegroupRound(m: seq<int>, m': seq<int>, pages: seq<int>, done: seq<seq<int>>, lines: seq<int>, words: seq<int>,
                     width: int, pagesize: int, last: nat, i: nat, n: nat)
    requires i + n <= |pages| && n > 0 && Flatten(done) == pages[..i]
    requires Fits(pages, lines, words, width, pagesize, |m|)
    requires Grouped(m, done + Singles(pages[i..]), lines, words, width, last)
    requires n == 1 ==> m' == m
    requires n > 1 ==> Regrouped(m, m', pages[i..i + n], pagesize)
    ensures Grouped(m', done + [pages[i..i + n]] + Singles(pages[i + n..]), lines, words, width, last)
  {
    var g, rest := pages[i..i + n], Singles(pages[i + n..]);
    SinglesSplit(pages[i..], n);
    assert pages[i..][..n] == g && pages[i..][n..] == pages[i + n..];
    assert done + Singles(pages[i..]) == Before(done, g, rest);
    FlattenSingles(pages[i + n..]);
    assert pages == pages[..i] + g + pages[i + n..];
    hide *;
    RegroupStep(m, m', pages, done, g, pages[i + n..], lines, words, width, pagesize, last);
  }

  lemma RegroupStep(m: seq<int>, m': seq<int>, pages: seq<int>, done: seq<seq<int>>, g: seq<int>, later: seq<int>,
                    lines: seq<int>, words: seq<int>, width: int, pagesize: int, last: nat)
    requires |g| > 0 && pages == Flatten(done) + g + later && Flatten(Singles(later)) == later
    requires Fits(pages, lines, words, width, pagesize, |m|)
    requires Grouped(m, Before(done, g, Singles(later)), lines, words, width, last)
    requires |g| == 1 ==> m' == m
    requires |g| > 1 ==> Regrouped(m, m', g, pagesize)
    ensures Grouped(m', done + [g] + Singles(later), lines, words, width, last)
  {
    hide Grouped, Fits, Regrouped;
    if |g| > 1 {
      GroupedStep(m, m', done, g, Singles(later), lines, words, width, pagesize, last);
    } else {
      assert g == [g[0]];
      assert Singles(g) == [g];
    }
  }

  lemma FlattenAppend(done: seq<seq<int>>, g: seq<int>)
    ensures Flatten(done + [g]) == Flatten(done) + g
  {
    assert (done + [g])[..|done|] == done;
  }

  lemma UpToStep(m: seq<int>, m': seq<int>, pages: seq<int>, done: seq<seq<int>>, lines: seq<int>, words: seq<int>,
                 width: int, pagesize: int, last: nat, group: nat, i: nat, n: nat)
    requires group > 0 && i < |pages| && n == (if group > |pages| - i then |pages| - i else group)
    requires Fits(pages, lines, words, width, pagesize, |m|) && UpTo(m, pages, lines, words, width, last, group, done,
                                                                     i)
    requires n == 1 ==> m' == m
    requires n > 1 ==> Regrouped(m, m', pages[i..i + n], pagesize)
    ensures UpTo(m', pages, lines, words, width, last, group, done + [pages[i..i + n]], i + n)
  {
    UpToParts(m, pages, lines, words, width, last, group, done, i);
    assert pages[..i] + pages[i..i + n] == pages[..i + n];
    hide *;
    RegroupRound(m, m', pages, done, lines, words, width, pagesize, last, i, n);
    FlattenAppend(done, pages[i..i + n]);
    ChunksStep(pages, group, i, n);
    assert done + [pages[i..i + n]] + Chunks(pages[i + n..], group) == done + Chunks(pages[i..], group);
    UpToIntro(m', pages, lines, words, width, last, group, done + [pages[i..i + n]], i + n);
  }

  lemma UpToParts(m: seq<int>, pages: seq<int>, lines: seq<int>, words: seq<int>, width: int, last: nat, group: nat,
                  done: seq<seq<int>>, i: nat)
    requires group > 0 && i <= |pages| && UpTo(m, pages, lines, words, width, last, group, done, i)
    ensures Flatten(done) == pages[..i] && done + Chunks(pages[i..], group) == Chunks(pages, group)
    ensures Grouped(m, done + Singles(pages[i..]), lines, words, width, last)
  {
  }

  lemma UpToIntro(m: seq<int>, pages: seq<int>, lines: seq<int>, words: seq<int>, width: int, last: nat, group: nat,
                  done: seq<seq<int>>, i: nat)
    requires group > 0 && i <= |pages|
    requires Flatten(done) == pages[..i] && done + Chunks(pages[i..], group) == Chunks(pages, group)
    requires Grouped(m, done + Singles(pages[i..]), lines, words, width, last)
    ensures UpTo(m, pages, lines, words, width, last, group, done, i)
  {
  }

  lemma UpToEnd(m: seq<int>, pages: seq<int>, lines: seq<int>, words: seq<int>, width: int, last: nat, group: nat,
                done: seq<seq<int>>)
    requires group > 0 && UpTo(m, pages, lines, words, width, last, group, done, |pages|)
    ensures Grouped(m, Chunks(pages, group), lines, words, width, last)
  {
    hide Grouped;
    assert pages[|pages|..] == [] && Singles([]) == [];
    assert done + Singles([]) == done == done + Chunks([], group);
  }

  lemma UpToStart(m: seq<int>, pages: seq<int>, lines: seq<int>, words: seq<int>, width: int, last: nat, group: nat)
    requires group > 0 && Threaded(m, pages, lines, words, width, last)
    ensures UpTo(m, pages, lines, words, width, last, group, [], 0)
  {
    assert pages[0..] == pages && [] + Singles(pages) == Singles(pages);
  }

  lemma SubSeparated(pages: seq<int>, gap: int, bound: int, i: nat, n: nat)
    requires Separated(pages, gap, bound) && i + n <= |pages|
    ensures Separated(pages[i..i + n], gap, bound)
  {
  }

  /** The loop over the groups. */
  method RegroupAll(mem: array<int>, pages: seq<int>, lines: seq<int>, words: seq<int>, ghost width: nat, pagesize: nat,
                    group: nat, ghost last: nat)
    requires Fits(pages, lines, words, width, pagesize, mem.Length) && group > 0
    requires Threaded(mem[..], pages, lines, words, width, last)
    modifies mem
    ensures Grouped(mem[..], Chunks(pages, group), lines, words, width, last)
  {
    hide *;
    UpToStart(mem[..], pages, lines, words, width, last, group);
    ghost var done: seq<seq<int>> := [];
    var i := 0;
    while i < |pages|
      invariant i <= |pages| && UpTo(mem[..], pages, lines, words, width, last, group, done, i)
    {
      var n := if group > |pages| - i then |pages| - i else group;
      ghost var m := mem[..];
      FitsPages(pages, lines, words, width, pagesize, mem.Length);
      SubSeparated(pages, pagesize, mem.Length, i, n);
      Regroup(mem, pages[i..i + n], pagesize);
      UpToStep(m, mem[..], pages, done, lines, words, width, pagesize, last, group, i, n);
      done := done + [pages[i..i + n]];
      i := i + n;
    }
    UpToEnd(mem[..], pages, lines, words, width, last, group, done);
  }

  lemma FitsPages(pages: seq<int>, lines: seq<int>, words: seq<int>, width: int, pagesize: int, bound: int)
    requires Fits(pages, lines, words, width, pagesize, bound)
    ensures Separated(pages, pagesize, bound)
  {
  }

  lemma ChunksStep(pages: seq<int>, group: nat, i: nat, n: nat)
    requires group > 0 && i < |pages| && n == if group > |pages| - i then |pages| - i else group
    ensures Chunks(pages[i..], group) == [pages[i..i + n]] + Chunks(pages[i + n..], group)
  {
    assert pages[i..][..n] == pages[i..i + n] && pages[i..][n..] == pages[i + n..];
  }

  /** The regrouped chain: one cycle, over the same words if the last group or its last page allows it. */
  lemma ChunksCycle(m: seq<int>, pages: seq<int>, lines: seq<int>, words: seq<int>, width: int, pagesize: int,
                    last: nat, group: nat)
    requires group > 0 && pagesize > 0 && |pages| > 0 && 0 < last <= |lines| && |words| > 0
    requires Fits(pages, lines, words, width, pagesize, |m|)
    requires Grouped(m, Chunks(pages, group), lines, words, width, last)
    ensures var c := Chunks(pages, group);
            && Sized(c, lines, words, last)
            && OneCycle(m, pages[0] + lines[0] + words[0], Covered(c, lines, last, words))
            && (Covered(c, lines, last, words) == PageWords(pages, lines, words, last) <==>
                |Last(c)| == 1 || last == |lines|)
            && (last == |lines| ==> Covered(c, lines, last, words) == Cells(pages, lines, words))
  {
    hide *;
    ChunksFacts(pages, lines, words, last, group);
    SameWords(Chunks(pages, group), pages, lines, words, width, pagesize, |m|, last);
    GroupedIsOneCycle(m, Chunks(pages, group), lines, words, width, last, pagesize, pages[0] + lines[0] + words[0]);
  }

  lemma ChunksFacts(pages: seq<int>, lines: seq<int>, words: seq<int>, last: nat, group: nat)
    requires group > 0 && |pages| > 0 && 0 < last <= |lines| && |words| > 0
    ensures var c := Chunks(pages, group);
            Sized(c, lines, words, last) && c[0][0] == pages[0] && Flatten(c) == pages
  {
    ChunksSizes(pages, group);
  }

  /** mem_initialize, then regroup on every group of pages. The chain is still one cycle. It has the same words
      exactly if the last group is one page or mem_initialize used all lines of the last page; otherwise it
      leaves out some lines of the last group. In every group of two or more pages it changes the page with
      every step. */
  method DramPageInitialize(state: MemState, group: nat, rnd: nat -> nat)
    requires state.Sizes() && state.Powers() && group > 0
    requires NPointers(state.len, state.line) >= 2 ==> NPointers(state.len, state.line) >= state.width
    modifies state, state.p
    ensures state.len == old(state.len) && state.pagesize == old(state.pagesize) && fresh(state.mem)
    ensures state.pages == Permuted(NPages(state.maxlen, state.pagesize), state.pagesize, rnd)
    ensures state.Ordered()
    ensures var c := Chunks(state.pages[..state.npages], group);
            && Grouped(state.mem[..], c, state.lines, state.words, state.line, state.LinesUsed())
            && OneCycle(state.mem[..], state.pages[0], Covered(c, state.lines, state.LinesUsed(), state.words))
            && (Covered(c, state.lines, state.LinesUsed(), state.words) == state.ChainWords() <==>
                |Last(c)| == 1 || state.LinesUsed() == state.nlines)
            && AllChange(state.mem[..], c, state.lines, state.line, state.LinesUsed())
    ensures state.LinesUsed() == state.nlines ==>
              OneCycle(state.mem[..], state.pages[0], Cells(state.pages[..state.npages], state.lines, state.words))
    ensures state.len == state.maxlen && state.len % state.pagesize == 0 ==>
              OneCycle(state.mem[..], state.pages[0], Below(state.len))
  {
    hide *;
    state.MemInitialize(rnd);
    LaidState(state);
    ghost var pages, last := state.pages[..state.npages], state.LinesUsed();
    RegroupAll(state.mem, state.pages[..state.npages], state.lines, state.words, state.line, state.pagesize, group,
               last);
    ChunksCycle(state.mem[..], pages, state.lines, state.words, state.line, state.pagesize, last, group);
    ChunksFacts(pages, state.lines, state.words, last, group);
    AllGroupsChange(state.mem[..], Chunks(pages, group), state.lines, state.words, state.line, last);
    WholeState(state);
  }

  lemma LaidState(state: MemState)
    requires state.Laid()
    ensures state.Ordered() && 0 < state.npages <= |state.pages| && NoDup(state.pages[..state.npages])
    ensures |state.lines| == state.nlines > 0 && |state.words| > 0 && state.pagesize > 0 &&
            |state.pages[..state.npages]| > 0
    ensures state.pages[..state.npages][0] + state.lines[0] + state.words[0] == state.pages[0]
    ensures Fits(state.pages[..state.npages], state.lines, state.words, state.line, state.pagesize, state.mem.Length)
    ensures Threaded(state.mem[..], state.pages[..state.npages], state.lines, state.words, state.line,
                     state.LinesUsed())
    ensures state.ChainWords() == PageWords(state.pages[..state.npages], state.lines, state.words, state.LinesUsed())
  {
    TablesFit(state.pages, state.lines, state.words, state.line, state.pagesize, state.mem.Length);
    FitsSome(state.pages, state.lines, state.words, state.line, state.pagesize, state.mem.Length, state.npages);
    SeparatedNoDup(state.pages, state.pagesize, state.mem.Length);
  }

  lemma WholeState(state: MemState)
    requires state.Ordered()
    ensures state.npages <= |state.pages| && state.pagesize > 0
    ensures state.len == state.maxlen && state.len % state.pagesize == 0 ==>
              && state.LinesUsed() == state.nlines
              && Cells(state.pages[..state.npages], state.lines, state.words) == Below(state.len)
  {
    if state.len == state.maxlen && state.len % state.pagesize == 0 {
      assert state.pages[..state.npages] == state.pages;
      WholeLength(state.len, state.pagesize);
      WholeBuffer(state.pages, state.line, state.pagesize, state.len, state.nlines, NPointers(state.len, state.line));
      CellsAreBlocks(state.pages, state.line, state.pagesize);
      ShuffledBlocks(state.pages, state.pagesize);
    }
  }
}
