/**
 The shape shared by every page-based chain: pages are taken in groups, a group
 is walked line by line (each line on all pages of the group in turn), and the
 whole set of lines is walked once for every word of a line.

 A group of one page is an ordinary page, so this covers the chains built by
 mem_initialize, line_initialize, line_test, measure and regroup alike.
 */
module PageChains {
  import opened Chains

  /** The blocks [s[i], s[i] + gap) are disjoint and lie inside [0, bound). */
  ghost predicate Separated(s: seq<int>, gap: int, bound: int) {
    && (forall i | 0 <= i < |s| :: 0 <= s[i] && s[i] + gap <= bound)
    && (forall i, j | 0 <= i < j < |s| :: s[i] + gap <= s[j] || s[j] + gap <= s[i])
  }

  /** Word o of the block at from points to word o of the block at to. */
  ghost predicate BlockLinked(mem: seq<int>, from: int, to: int, width: int) {
    && 0 <= from && from + width <= |mem|
    && (forall a | from <= a < from + width :: mem[a] == to + (a - from))
  }

  function Last<T>(s: seq<T>): T
    requires |s| > 0
  {
    s[|s| - 1]
  }

  /** One line on each page of a group. */
  function LineRun(g: seq<int>, l: int, o: int): seq<int> {
    seq(|g|, i requires 0 <= i < |g| => g[i] + l + o)
  }

  function GroupLines(g: seq<int>, lines: seq<int>, o: int): seq<seq<int>> {
    seq(|lines|, j requires 0 <= j < |lines| => LineRun(g, lines[j], o))
  }

  /** The last group may be entered for its first `last` lines only. */
  function LinesOf(groups: seq<seq<int>>, lines: seq<int>, last: nat, x: nat): seq<int>
    requires last <= |lines|
  {
    if x == |groups| - 1 then lines[..last] else lines
  }

  function WordGroups(groups: seq<seq<int>>, lines: seq<int>, last: nat, o: int): seq<seq<int>>
    requires last <= |lines|
  {
    seq(|groups|, x requires 0 <= x < |groups| => Flatten(GroupLines(groups[x], LinesOf(groups, lines, last, x), o)))
  }

  function OrderWords(groups: seq<seq<int>>, lines: seq<int>, last: nat, words: seq<int>): seq<seq<int>>
    requires last <= |lines|
  {
    seq(|words|, k requires 0 <= k < |words| => Flatten(WordGroups(groups, lines, last, words[k])))
  }

  /** The words of the chain in the order in which it is meant to be walked. */
  function Order(groups: seq<seq<int>>, lines: seq<int>, last: nat, words: seq<int>): seq<int>
    requires last <= |lines|
  {
    Flatten(OrderWords(groups, lines, last, words))
  }

  /** Line j of page i of a group points to line j of page i + 1. */
  ghost predicate NextPage(mem: seq<int>, g: seq<int>, lines: seq<int>, width: int, i: nat, j: nat)
    requires i + 1 < |g| && j < |lines|
  {
    BlockLinked(mem, g[i] + lines[j], g[i + 1] + lines[j], width)
  }

  /** Line j of the last page of a group points to line j + 1 of its first page. */
  ghost predicate NextLine(mem: seq<int>, g: seq<int>, lines: seq<int>, width: int, j: nat)
    requires |g| > 0 && j + 1 < |lines|
  {
    BlockLinked(mem, Last(g) + lines[j], g[0] + lines[j + 1], width)
  }

  ghost predicate GroupLinked(mem: seq<int>, g: seq<int>, lines: seq<int>, width: int)
    requires |g| > 0
  {
    && (forall i: nat, j: nat | i + 1 < |g| && j < |lines| :: NextPage(mem, g, lines, width, i, j))
    && (forall j: nat | j + 1 < |lines| :: NextLine(mem, g, lines, width, j))
  }

  ghost predicate Sized(groups: seq<seq<int>>, lines: seq<int>, words: seq<int>, last: nat) {
    && |groups| > 0 && (forall x | 0 <= x < |groups| :: |groups[x]| > 0)
    && 0 < last <= |lines| && |words| > 0
  }

  function NextWord(words: seq<int>, k: nat): int
    requires k < |words|
  {
    if k == |words| - 1 then words[0] else words[k + 1]
  }

  /** The last line of group x points to the first line of group x + 1. */
  ghost predicate NextGroup(mem: seq<int>, groups: seq<seq<int>>, lines: seq<int>, width: int, x: nat)
    requires x + 1 < |groups| && |groups[x]| > 0 && |groups[x + 1]| > 0 && |lines| > 0
  {
    BlockLinked(mem, Last(groups[x]) + Last(lines), groups[x + 1][0] + lines[0], width)
  }

  /** The end of the round for words[k] points to the start of the round for the next word. */
  ghost predicate NextRound(mem: seq<int>, groups: seq<seq<int>>, lines: seq<int>, words: seq<int>, last: nat, k: nat)
    requires Sized(groups, lines, words, last) && k < |words|
  {
    var end := Last(Last(groups)) + lines[last - 1] + words[k];
    0 <= end < |mem| && mem[end] == groups[0][0] + lines[0] + NextWord(words, k)
  }

  /** The links of the whole chain. */
  ghost predicate Grouped(mem: seq<int>, groups: seq<seq<int>>, lines: seq<int>, words: seq<int>, width: int, last: nat)
  {
    && Sized(groups, lines, words, last)
    && (forall x: nat | x < |groups| :: GroupLinked(mem, groups[x], LinesOf(groups, lines, last, x), width))
    && (forall x: nat | x + 1 < |groups| :: NextGroup(mem, groups, lines, width, x))
    && (forall k: nat | k < |words| :: NextRound(mem, groups, lines, words, last, k))
  }

  /** Pages apart, lines apart inside a page, words apart inside a line. */
  ghost predicate Fits(pages: seq<int>, lines: seq<int>, words: seq<int>, width: int, pagesize: int, bound: int) {
    && Separated(pages, pagesize, bound)
    && Separated(lines, width, pagesize)
    && Separated(words, 1, width)
    && width > 0
  }

  /** Every word o of every line l of every page p. */
  function Cells(pages: seq<int>, lines: seq<int>, words: seq<int>): set<int> {
    set p, l, o | p in pages && l in lines && o in words :: p + l + o
  }

  function Covered(groups: seq<seq<int>>, lines: seq<int>, last: nat, words: seq<int>): set<int>
    requires Sized(groups, lines, words, last)
  {
    Cells(Flatten(groups[..|groups| - 1]), lines, words) + Cells(Last(groups), lines[..last], words)
  }

  // ----- addresses determine page, line and word

  lemma AddrInjective(pages: seq<int>, lines: seq<int>, words: seq<int>, width: int, pagesize: int, bound: int,
                      p: int, l: int, o: int, p': int, l': int, o': int)
    requires Fits(pages, lines, words, width, pagesize, bound)
    requires p in pages && p' in pages && l in lines && l' in lines && o in words && o' in words
    requires p + l + o == p' + l' + o'
    ensures p == p' && l == l' && o == o'
  {
  }

  lemma {:induction false} FlattenParts<T>(ss: seq<seq<T>>)
    requires NoDup(Flatten(ss))
    ensures Disjoint(ss) && forall i | 0 <= i < |ss| :: NoDup(ss[i])
  {
    if |ss| > 0 {
      var n := |ss| - 1;
      var r := ss[..n];
      var f := Flatten(r);
      assert forall x, y | 0 <= x < y < |f| :: f[x] == Flatten(ss)[x] && f[y] == Flatten(ss)[y];
      FlattenParts(r);
      forall x, y | 0 <= x < y < |ss[n]| ensures ss[n][x] != ss[n][y] {
        assert Flatten(ss)[|f| + x] == ss[n][x] && Flatten(ss)[|f| + y] == ss[n][y];
      }
      forall i, u, v | 0 <= i < n && 0 <= u < |ss[i]| && 0 <= v < |ss[n]| ensures ss[i][u] != ss[n][v] {
        FlattenElems(r, r[i][u]);
        var x :| 0 <= x < |f| && f[x] == ss[i][u];
        assert Flatten(ss)[x] == f[x] && Flatten(ss)[|f| + v] == ss[n][v];
      }
    }
  }

  lemma SeparatedNoDup(s: seq<int>, gap: int, bound: int)
    requires Separated(s, gap, bound) && gap > 0
    ensures NoDup(s)
  {
  }

  // ----- who is in which run

  /** a is word o of some listed line of some listed page. */
  ghost predicate At(pages: seq<int>, lines: seq<int>, o: int, a: int) {
    exists p, l :: p in pages && l in lines && a == p + l + o
  }

  lemma GroupRunElems(g: seq<int>, lines: seq<int>, o: int, a: int)
    ensures a in Flatten(GroupLines(g, lines, o)) <==> At(g, lines, o, a)
  {
    var ss := GroupLines(g, lines, o);
    FlattenElems(ss, a);
    if j :| 0 <= j < |ss| && a in ss[j] {
      var i :| 0 <= i < |g| && ss[j][i] == a;
      assert g[i] in g && lines[j] in lines;
    }
    if p, l :| p in g && l in lines && a == p + l + o {
      var i :| 0 <= i < |g| && g[i] == p;
      var j :| 0 <= j < |lines| && lines[j] == l;
      assert ss[j][i] == a;
    }
  }

  lemma WordRunElems(groups: seq<seq<int>>, lines: seq<int>, last: nat, o: int, a: int)
    requires last <= |lines|
    ensures a in Flatten(WordGroups(groups, lines, last, o)) <==>
            exists x: nat :: x < |groups| && At(groups[x], LinesOf(groups, lines, last, x), o, a)
  {
    var ss := WordGroups(groups, lines, last, o);
    FlattenElems(ss, a);
    forall x: nat | x < |ss| ensures a in ss[x] <==> At(groups[x], LinesOf(groups, lines, last, x), o, a) {
      GroupRunElems(groups[x], LinesOf(groups, lines, last, x), o, a);
    }
  }

  lemma AtCovered(groups: seq<seq<int>>, lines: seq<int>, last: nat, words: seq<int>, x: nat, o: int, a: int)
    requires Sized(groups, lines, words, last) && x < |groups| && o in words
    requires At(groups[x], LinesOf(groups, lines, last, x), o, a)
    ensures a in Covered(groups, lines, last, words)
  {
    var n := |groups| - 1;
    var p, l :| p in groups[x] && l in LinesOf(groups, lines, last, x) && a == p + l + o;
    if x < n {
      assert groups[..n][x] == groups[x];
      FlattenElems(groups[..n], p);
    }
  }

  lemma CoveredAt(groups: seq<seq<int>>, lines: seq<int>, last: nat, words: seq<int>, a: int) returns (x: nat, k: nat)
    requires Sized(groups, lines, words, last) && a in Covered(groups, lines, last, words)
    ensures x < |groups| && k < |words| && At(groups[x], LinesOf(groups, lines, last, x), words[k], a)
  {
    var n := |groups| - 1;
    var full := Flatten(groups[..n]);
    var p, l, o: int;
    if a in Cells(full, lines, words) {
      p, l, o :| p in full && l in lines && o in words && a == p + l + o;
      FlattenElems(groups[..n], p);
      x :| 0 <= x < n && p in groups[..n][x];
    } else {
      p, l, o :| p in Last(groups) && l in lines[..last] && o in words && a == p + l + o;
      x := n;
    }
    k :| 0 <= k < |words| && words[k] == o;
  }

  lemma OrderElemCovered(groups: seq<seq<int>>, lines: seq<int>, last: nat, words: seq<int>, a: int)
    requires Sized(groups, lines, words, last) && a in Order(groups, lines, last, words)
    ensures a in Covered(groups, lines, last, words)
  {
    hide Covered;
    var ss := OrderWords(groups, lines, last, words);
    FlattenElems(ss, a);
    var k :| 0 <= k < |ss| && a in ss[k];
    WordRunElems(groups, lines, last, words[k], a);
    var x: nat :| x < |groups| && At(groups[x], LinesOf(groups, lines, last, x), words[k], a);
    AtCovered(groups, lines, last, words, x, words[k], a);
  }

  lemma CoveredElemOrder(groups: seq<seq<int>>, lines: seq<int>, last: nat, words: seq<int>, a: int)
    requires Sized(groups, lines, words, last) && a in Covered(groups, lines, last, words)
    ensures a in Order(groups, lines, last, words)
  {
    hide Covered;
    var ss := OrderWords(groups, lines, last, words);
    var x, k := CoveredAt(groups, lines, last, words, a);
    WordRunElems(groups, lines, last, words[k], a);
    assert a in ss[k];
    FlattenElems(ss, a);
  }

  lemma OrderElems(groups: seq<seq<int>>, lines: seq<int>, last: nat, words: seq<int>)
    requires Sized(groups, lines, words, last)
    ensures Elems(Order(groups, lines, last, words)) == Covered(groups, lines, last, words)
  {
    hide Covered, Order;
    forall a ensures a in Order(groups, lines, last, words) <==> a in Covered(groups, lines, last, words) {
      if a in Order(groups, lines, last, words) { OrderElemCovered(groups, lines, last, words, a); }
      if a in Covered(groups, lines, last, words) { CoveredElemOrder(groups, lines, last, words, a); }
    }
  }

  // ----- no word is listed twice

  lemma InAll(groups: seq<seq<int>>, lines: seq<int>, last: nat, o: int, a: int) returns (p: int, l: int)
    requires last <= |lines|
    requires a in Flatten(WordGroups(groups, lines, last, o))
    ensures p in Flatten(groups) && l in lines && a == p + l + o
  {
    WordRunElems(groups, lines, last, o, a);
    var x: nat :| x < |groups| && At(groups[x], LinesOf(groups, lines, last, x), o, a);
    p, l :| p in groups[x] && l in LinesOf(groups, lines, last, x) && a == p + l + o;
    FlattenElems(groups, p);
  }

  lemma GroupRunNoDup(g: seq<int>, lines: seq<int>, o: int, pages: seq<int>, width: int, pagesize: int, bound: int,
                      words: seq<int>)
    requires Fits(pages, lines, words, width, pagesize, bound) && o in words
    requires NoDup(g) && forall p | p in g :: p in pages
    ensures NoDup(Flatten(GroupLines(g, lines, o)))
  {
    var ss := GroupLines(g, lines, o);
    SeparatedNoDup(lines, width, pagesize);
    forall i, j, u, v | 0 <= i < j < |ss| && 0 <= u < |ss[i]| && 0 <= v < |ss[j]| ensures ss[i][u] != ss[j][v] {
      if ss[i][u] == ss[j][v] {
        AddrInjective(pages, lines, words, width, pagesize, bound, g[u], lines[i], o, g[v], lines[j], o);
      }
    }
    FlattenNoDup(ss);
  }

  lemma InGroup(groups: seq<seq<int>>, lines: seq<int>, last: nat, x: nat, o: int, a: int) returns (p: int, l: int)
    requires last <= |lines| && x < |groups|
    requires a in WordGroups(groups, lines, last, o)[x]
    ensures p in groups[x] && p in Flatten(groups) && l in lines && a == p + l + o
  {
    GroupRunElems(groups[x], LinesOf(groups, lines, last, x), o, a);
    p, l :| p in groups[x] && l in LinesOf(groups, lines, last, x) && a == p + l + o;
    FlattenElems(groups, p);
  }

  lemma FitsPrefix(pages: seq<int>, lines: seq<int>, words: seq<int>, width: int, pagesize: int, bound: int, last: nat)
    requires Fits(pages, lines, words, width, pagesize, bound) && last <= |lines|
    ensures Fits(pages, lines[..last], words, width, pagesize, bound)
  {
  }

  lemma WordRunNoDup(groups: seq<seq<int>>, lines: seq<int>, last: nat, o: int, words: seq<int>, width: int,
                     pagesize: int, bound: int)
    requires Sized(groups, lines, words, last) && o in words && pagesize > 0
    requires Fits(Flatten(groups), lines, words, width, pagesize, bound)
    ensures NoDup(Flatten(WordGroups(groups, lines, last, o)))
  {
    var pages := Flatten(groups);
    var ss := WordGroups(groups, lines, last, o);
    SeparatedNoDup(pages, pagesize, bound);
    FlattenParts(groups);
    FitsPrefix(pages, lines, words, width, pagesize, bound, last);
    forall x | 0 <= x < |ss| ensures NoDup(ss[x]) {
      forall p | p in groups[x] ensures p in pages { FlattenElems(groups, p); }
      GroupRunNoDup(groups[x], LinesOf(groups, lines, last, x), o, pages, width, pagesize, bound, words);
    }
    forall x, y, u, v | 0 <= x < y < |ss| && 0 <= u < |ss[x]| && 0 <= v < |ss[y]| ensures ss[x][u] != ss[y][v] {
      if ss[x][u] == ss[y][v] {
        var p, l := InGroup(groups, lines, last, x, o, ss[x][u]);
        var p', l' := InGroup(groups, lines, last, y, o, ss[y][v]);
        AddrInjective(pages, lines, words, width, pagesize, bound, p, l, o, p', l', o);
      }
    }
    FlattenNoDup(ss);
  }

  lemma OrderNoDup(groups: seq<seq<int>>, lines: seq<int>, last: nat, words: seq<int>, width: int, pagesize: int,
                   bound: int)
    requires Sized(groups, lines, words, last) && pagesize > 0
    requires Fits(Flatten(groups), lines, words, width, pagesize, bound)
    ensures NoDup(Order(groups, lines, last, words))
  {
    var ss := OrderWords(groups, lines, last, words);
    forall k | 0 <= k < |ss| ensures NoDup(ss[k]) {
      WordRunNoDup(groups, lines, last, words[k], words, width, pagesize, bound);
    }
    forall k, m, u, v | 0 <= k < m < |ss| && 0 <= u < |ss[k]| && 0 <= v < |ss[m]| ensures ss[k][u] != ss[m][v] {
      if ss[k][u] == ss[m][v] {
        var p, l := InAll(groups, lines, last, words[k], ss[k][u]);
        var p', l' := InAll(groups, lines, last, words[m], ss[m][v]);
        AddrInjective(Flatten(groups), lines, words, width, pagesize, bound, p, l, words[k], p', l', words[m]);
      }
    }
    FlattenNoDup(ss);
  }

  // ----- every listed word points to the next one

  lemma LineRunLinked(mem: seq<int>, g: seq<int>, lines: seq<int>, j: nat, o: int, width: int)
    requires |g| > 0 && j < |lines| && 0 <= o < width
    requires GroupLinked(mem, g, lines, width)
    requires 0 <= Last(g) + Last(lines) + o < |mem|
    ensures Linked(mem, LineRun(g, lines[j], o))
  {
    var s := LineRun(g, lines[j], o);
    forall t: nat | t + 1 < |s| ensures Points(mem, s, t) {
      assert NextPage(mem, g, lines, width, t, j);
    }
    forall t | 0 <= t < |s| ensures 0 <= s[t] < |mem| {
      if t + 1 < |s| {
        assert Points(mem, s, t);
      } else if j + 1 < |lines| {
        assert NextLine(mem, g, lines, width, j);
      }
    }
  }

  lemma GroupRunLinked(mem: seq<int>, g: seq<int>, lines: seq<int>, o: int, width: int)
    requires |g| > 0 && |lines| > 0 && 0 <= o < width
    requires GroupLinked(mem, g, lines, width)
    requires 0 <= Last(g) + Last(lines) + o < |mem|
    ensures var f := Flatten(GroupLines(g, lines, o));
            && |f| > 0 && Linked(mem, f) && f[0] == g[0] + lines[0] + o && Last(f) == Last(g) + Last(lines) + o
  {
    var ss := GroupLines(g, lines, o);
    forall j: nat | j < |ss| ensures Run(mem, ss, j) {
      LineRunLinked(mem, g, lines, j, o, width);
    }
    forall j: nat | j + 1 < |ss| ensures Joined(mem, ss, j) {
      assert NextLine(mem, g, lines, width, j);
    }
    FlattenLinked(mem, ss);
  }

  lemma WordGroupLinked(mem: seq<int>, groups: seq<seq<int>>, lines: seq<int>, words: seq<int>, width: int, last: nat,
                        k: nat, x: nat)
    requires Grouped(mem, groups, lines, words, width, last)
    requires k < |words| && 0 <= words[k] < width && x < |groups|
    ensures var f := WordGroups(groups, lines, last, words[k])[x];
            && |f| > 0 && Linked(mem, f) && f[0] == groups[x][0] + lines[0] + words[k]
            && Last(f) == Last(groups[x]) + Last(LinesOf(groups, lines, last, x)) + words[k]
  {
    if x + 1 < |groups| {
      assert NextGroup(mem, groups, lines, width, x);
    } else {
      assert NextRound(mem, groups, lines, words, last, k);
    }
    GroupRunLinked(mem, groups[x], LinesOf(groups, lines, last, x), words[k], width);
  }

  lemma WordGroupsJoined(mem: seq<int>, groups: seq<seq<int>>, lines: seq<int>, words: seq<int>, width: int, last: nat,
                         k: nat, x: nat)
    requires Grouped(mem, groups, lines, words, width, last)
    requires k < |words| && 0 <= words[k] < width && x + 1 < |groups|
    ensures Joined(mem, WordGroups(groups, lines, last, words[k]), x)
  {
    WordGroupLinked(mem, groups, lines, words, width, last, k, x);
    WordGroupLinked(mem, groups, lines, words, width, last, k, x + 1);
    assert NextGroup(mem, groups, lines, width, x);
  }

  lemma WordGroupsLinked(mem: seq<int>, groups: seq<seq<int>>, lines: seq<int>, words: seq<int>, width: int, last: nat,
                         k: nat)
    requires Grouped(mem, groups, lines, words, width, last)
    requires k < |words| && 0 <= words[k] < width
    ensures RunsLinked(mem, WordGroups(groups, lines, last, words[k]))
  {
    var ss := WordGroups(groups, lines, last, words[k]);
    forall x: nat | x < |ss| ensures Run(mem, ss, x) {
      WordGroupLinked(mem, groups, lines, words, width, last, k, x);
    }
    forall x: nat | x + 1 < |ss| ensures Joined(mem, ss, x) {
      WordGroupsJoined(mem, groups, lines, words, width, last, k, x);
    }
  }

  lemma WordRunLinked(mem: seq<int>, groups: seq<seq<int>>, lines: seq<int>, words: seq<int>, width: int, last: nat,
                      k: nat)
    requires Grouped(mem, groups, lines, words, width, last)
    requires k < |words| && 0 <= words[k] < width
    ensures var f := Flatten(WordGroups(groups, lines, last, words[k]));
            && |f| > 0 && Linked(mem, f) && f[0] == groups[0][0] + lines[0] + words[k]
            && Last(f) == Last(Last(groups)) + lines[last - 1] + words[k]
  {
    WordGroupsLinked(mem, groups, lines, words, width, last, k);
    FlattenLinked(mem, WordGroups(groups, lines, last, words[k]));
    WordGroupLinked(mem, groups, lines, words, width, last, k, 0);
    WordGroupLinked(mem, groups, lines, words, width, last, k, |groups| - 1);
  }

  lemma RoundJoined(mem: seq<int>, groups: seq<seq<int>>, lines: seq<int>, words: seq<int>, width: int, last: nat,
                    k: nat)
    requires Grouped(mem, groups, lines, words, width, last)
    requires k < |words| && 0 <= words[k] < width
    ensures var f := Flatten(WordGroups(groups, lines, last, words[k]));
            && |f| > 0 && Linked(mem, f) && f[0] == groups[0][0] + lines[0] + words[k]
            && 0 <= Last(f) < |mem| && mem[Last(f)] == groups[0][0] + lines[0] + NextWord(words, k)
  {
    WordRunLinked(mem, groups, lines, words, width, last, k);
    assert NextRound(mem, groups, lines, words, last, k);
  }

  lemma RoundsJoined(mem: seq<int>, groups: seq<seq<int>>, lines: seq<int>, words: seq<int>, width: int, last: nat,
                     k: nat)
    requires Grouped(mem, groups, lines, words, width, last)
    requires k + 1 < |words| && 0 <= words[k] < width && 0 <= words[k + 1] < width
    ensures Joined(mem, OrderWords(groups, lines, last, words), k)
  {
    RoundJoined(mem, groups, lines, words, width, last, k);
    RoundJoined(mem, groups, lines, words, width, last, k + 1);
  }

  lemma OrderRuns(mem: seq<int>, groups: seq<seq<int>>, lines: seq<int>, words: seq<int>, width: int, last: nat)
    requires Grouped(mem, groups, lines, words, width, last)
    requires forall k | 0 <= k < |words| :: 0 <= words[k] < width
    ensures RunsLinked(mem, OrderWords(groups, lines, last, words))
  {
    var ss := OrderWords(groups, lines, last, words);
    forall k: nat | k < |ss| ensures Run(mem, ss, k) {
      RoundJoined(mem, groups, lines, words, width, last, k);
    }
    forall k: nat | k + 1 < |ss| ensures Joined(mem, ss, k) {
      RoundsJoined(mem, groups, lines, words, width, last, k);
    }
  }

  lemma OrderCloses(mem: seq<int>, groups: seq<seq<int>>, lines: seq<int>, words: seq<int>, width: int, last: nat)
    requires Grouped(mem, groups, lines, words, width, last)
    requires forall k | 0 <= k < |words| :: 0 <= words[k] < width
    ensures var ss := OrderWords(groups, lines, last, words);
            && |ss[0]| > 0 && ss[0][0] == groups[0][0] + lines[0] + words[0]
            && |Last(ss)| > 0 && 0 <= Last(Last(ss)) < |mem| && mem[Last(Last(ss))] == ss[0][0]
  {
    assert Sized(groups, lines, words, last);
    hide Grouped, Linked, WordGroups;
    RoundJoined(mem, groups, lines, words, width, last, 0);
    RoundJoined(mem, groups, lines, words, width, last, |words| - 1);
  }

  lemma RingIsCycle(mem: seq<int>, ss: seq<seq<int>>)
    requires RunsLinked(mem, ss) && |ss| > 0 && |ss[0]| > 0 && |Last(ss)| > 0
    requires 0 <= Last(Last(ss)) < |mem| && mem[Last(Last(ss))] == ss[0][0]
    requires NoDup(Flatten(ss))
    ensures Cycle(mem, Flatten(ss)) && Flatten(ss)[0] == ss[0][0]
  {
    FlattenLinked(mem, ss);
  }

  lemma OrderIsCycle(mem: seq<int>, groups: seq<seq<int>>, lines: seq<int>, words: seq<int>, width: int, last: nat,
                     pagesize: int)
    requires Grouped(mem, groups, lines, words, width, last) && pagesize > 0
    requires Fits(Flatten(groups), lines, words, width, pagesize, |mem|)
    ensures Cycle(mem, Order(groups, lines, last, words))
    ensures Order(groups, lines, last, words)[0] == groups[0][0] + lines[0] + words[0]
  {
    OrderRuns(mem, groups, lines, words, width, last);
    OrderCloses(mem, groups, lines, words, width, last);
    OrderNoDup(groups, lines, last, words, width, pagesize, |mem|);
    RingIsCycle(mem, OrderWords(groups, lines, last, words));
  }

  lemma OrderWalked(mem: seq<int>, groups: seq<seq<int>>, lines: seq<int>, words: seq<int>, last: nat, start: int)
    requires Sized(groups, lines, words, last)
    requires Cycle(mem, Order(groups, lines, last, words)) && Order(groups, lines, last, words)[0] == start
    ensures OneCycle(mem, start, Covered(groups, lines, last, words))
    ensures WalksInOrder(mem, start, Order(groups, lines, last, words))
  {
    OrderElems(groups, lines, last, words);
    CycleIsOneCycle(mem, Order(groups, lines, last, words), start);
  }

  /** Main result: the links of Grouped make one closed cycle, walked in the stated order. */
  lemma GroupedIsOneCycle(mem: seq<int>, groups: seq<seq<int>>, lines: seq<int>, words: seq<int>, width: int, last: nat,
                          pagesize: int, start: int)
    requires Grouped(mem, groups, lines, words, width, last) && pagesize > 0
    requires Fits(Flatten(groups), lines, words, width, pagesize, |mem|)
    requires start == groups[0][0] + lines[0] + words[0]
    ensures OneCycle(mem, start, Covered(groups, lines, last, words))
    ensures WalksInOrder(mem, start, Order(groups, lines, last, words))
  {
    OrderIsCycle(mem, groups, lines, words, width, last, pagesize);
    OrderWalked(mem, groups, lines, words, last, start);
  }
}
