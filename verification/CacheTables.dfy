/** cache.c: the page-table manipulations of the recolouring search, as functions of the table. */
module CacheTables {
  import opened Chains
  import opened BitOrder
  import opened CacheMeasure

  // ----- remove_chunk: swapping towards each other from the chunk's start and the table's end

  /** Slot x has been reflected once, not twice, by the first j swaps. */
  predicate Reflected(x: int, i: nat, n: nat, j: nat) {
    i <= x < n && ((x - i < j) != (n - 1 - x < j))
  }

  /** The table after the first j swaps of pages[i+j] and pages[n-1-j]. */
  function Pass(s: seq<int>, i: nat, n: nat, j: nat): seq<int>
    requires i <= n <= |s|
  {
    seq(|s|, x requires 0 <= x < |s| => if Reflected(x, i, n, j) then s[i + n - 1 - x] else s[x])
  }

  lemma PassStep(s: seq<int>, i: nat, n: nat, j: nat)
    requires i + j < n <= |s|
    ensures Pass(s, i, n, j + 1) == SwapAt(Pass(s, i, n, j), i + j, n - 1 - j)
  {
    var p := Pass(s, i, n, j);
    assert !Reflected(i + j, i, n, j) || i + j > n - 1 - j;
  }

  lemma PassStart(s: seq<int>, i: nat, n: nat)
    requires i <= n <= |s|
    ensures Pass(s, i, n, 0) == s
  {
  }

  /** The same swaps once more restore the table, also when the chunk overlaps the tail. */
  lemma PassTwice(s: seq<int>, i: nat, n: nat, j: nat)
    requires i <= n <= |s|
    ensures Pass(Pass(s, i, n, j), i, n, j) == s
  {
  }

  lemma {:induction false} PassSame(s: seq<int>, i: nat, n: nat, j: nat)
    requires i + j <= n <= |s|
    ensures multiset(Pass(s, i, n, j)) == multiset(s)
  {
    if j == 0 {
      PassStart(s, i, n);
    } else {
      PassSame(s, i, n, j - 1);
      PassStep(s, i, n, j - 1);
      SwapSame(Pass(s, i, n, j - 1), i + j - 1, n - j);
    }
  }

  function Reverse(s: seq<int>): (r: seq<int>)
    ensures |r| == |s|
  {
    seq(|s|, k requires 0 <= k < |s| => s[|s| - 1 - k])
  }

  lemma {:induction false} ReverseSame(s: seq<int>)
    ensures multiset(Reverse(s)) == multiset(s)
  {
    if |s| > 0 {
      ReverseSame(s[1..]);
      assert s == [s[0]] + s[1..];
      assert Reverse(s) == Reverse(s[1..]) + [s[0]];
    }
  }

  /** What the first n - c slots hold after the first pass. */
  lemma PassPrefix(s: seq<int>, i: nat, n: nat, c: nat)
    requires i + c < n <= |s|
    ensures var m := if c < n - i - c then c else n - i - c;
            Pass(s, i, n, c)[..n - c] == s[..i] + Reverse(s[n - m..n]) + s[i + c..n - m]
  {
    var m := if c < n - i - c then c else n - i - c;
    var p, q := Pass(s, i, n, c)[..n - c], s[..i] + Reverse(s[n - m..n]) + s[i + c..n - m];
    assert |q| == i + m + (n - m - i - c) == n - c;
    forall x | 0 <= x < n - c ensures p[x] == q[x] {
      if i <= x < i + m {
        assert q[x] == Reverse(s[n - m..n])[x - i] == s[n - m..n][m - 1 - (x - i)];
      }
    }
  }

  lemma Rearranged(a: seq<int>, b: seq<int>, b': seq<int>, c: seq<int>)
    requires multiset(b') == multiset(b)
    ensures multiset(a + b' + c) == multiset(a + (c + b))
  {
  }

  /** The table while remove_chunk measures without the chunk. */
  function Removed(s: seq<int>, i: nat, n: nat, c: nat): seq<int>
    requires i + c <= n <= |s|
  {
    if i + c < n then Pass(s, i, n, c) else s
  }

  lemma PassedPrefix(s: seq<int>, p: seq<int>, head: seq<int>, tail: seq<int>, mid: seq<int>, out: seq<int>)
    requires p == head + Reverse(tail) + mid && out == mid + tail
    ensures multiset(p) == multiset(head + out)
  {
    ReverseSame(tail);
    Rearranged(head, tail, Reverse(tail), mid);
  }

  /** Its first n - c slots hold exactly the pages outside the chunk. */
  lemma RemovedIsolates(s: seq<int>, i: nat, n: nat, c: nat)
    requires i + c <= n <= |s|
    ensures |Removed(s, i, n, c)| == |s|
    ensures multiset(Removed(s, i, n, c)[..n - c]) == multiset(s[..i] + s[i + c..n])
  {
    if i + c < n { PassIsolates(s, i, n, c); } else { assert s[..i] + s[i + c..n] == s[..i]; }
  }

  lemma PassIsolates(s: seq<int>, i: nat, n: nat, c: nat)
    requires i + c < n <= |s|
    ensures multiset(Pass(s, i, n, c)[..n - c]) == multiset(s[..i] + s[i + c..n])
  {
    var m := if c < n - i - c then c else n - i - c;
    PassPrefix(s, i, n, c);
    assert s[i + c..n] == s[i + c..n - m] + s[n - m..n];
    hide *;
    PassedPrefix(s, Pass(s, i, n, c)[..n - c], s[..i], s[n - m..n], s[i + c..n - m], s[i + c..n]);
  }

  // ----- fixup_chunk: swapping each page of the chunk with the one a fixed distance on

  /** pages[i+j] and pages[n-c+j] swapped for j = 0 .. k-1, in this order. */
  function Shift(s: seq<int>, i: nat, n: nat, c: nat, k: nat): (r: seq<int>)
    requires k <= c && i + c <= n <= |s|
    ensures |r| == |s|
  {
    if k == 0 then s else SwapAt(Shift(s, i, n, c, k - 1), i + k - 1, n - c + k - 1)
  }

  lemma {:induction false} ShiftSame(s: seq<int>, i: nat, n: nat, c: nat, k: nat)
    requires k <= c && i + c <= n <= |s|
    ensures multiset(Shift(s, i, n, c, k)) == multiset(s)
  {
    hide SwapAt;
    if k > 0 {
      ShiftSame(s, i, n, c, k - 1);
      SwapSame(Shift(s, i, n, c, k - 1), i + k - 1, n - c + k - 1);
    }
  }

  lemma ShiftStart(s: seq<int>, i: nat, n: nat, c: nat)
    requires i + c <= n <= |s|
    ensures Shift(s, i, n, c, 0) == s
  {
  }

  lemma ShiftNext(s: seq<int>, i: nat, n: nat, c: nat, k: nat)
    requires k < c && i + c <= n <= |s|
    ensures Shift(s, i, n, c, k + 1) == SwapAt(Shift(s, i, n, c, k), i + k, n - c + k)
  {
  }

  /** The table with the chunk moved to the end of the slots in use. */
  function Moved(s: seq<int>, i: nat, n: nat, c: nat): (r: seq<int>)
    requires i + c <= n <= |s|
    ensures |r| == |s|
  {
    if i + c < n then Shift(s, i, n, c, c) else s
  }

  lemma MovedSame(s: seq<int>, i: nat, n: nat, c: nat)
    requires i + c <= n <= |s|
    ensures multiset(Moved(s, i, n, c)) == multiset(s)
  {
    if i + c < n { ShiftSame(s, i, n, c, c); }
  }

  /** The page found in slot x once the first k pages of the chunk have been exchanged with the tail. */
  function Exchanged(s: seq<int>, i: nat, n: nat, c: nat, k: nat, x: nat): int
    requires k <= c && i + c <= n <= |s| && x < |s|
  {
    if i <= x < i + k then s[n - c + (x - i)] else if n - c <= x < n - c + k then s[i + (x - (n - c))] else s[x]
  }

  /** Chunk and tail do not overlap: the two are exchanged. */
  lemma {:induction false} ShiftApart(s: seq<int>, i: nat, n: nat, c: nat, k: nat)
    requires k <= c && i + 2 * c <= n <= |s|
    ensures forall x: nat | x < |s| :: Shift(s, i, n, c, k)[x] == Exchanged(s, i, n, c, k, x)
  {
    if k > 0 {
      ShiftApart(s, i, n, c, k - 1);
      var p, u, v := Shift(s, i, n, c, k - 1), i + k - 1, n - c + k - 1;
      assert p[u] == Exchanged(s, i, n, c, k - 1, u) == s[u];
      assert p[v] == Exchanged(s, i, n, c, k - 1, v) == s[v];
      forall x: nat | x < |s| ensures Shift(s, i, n, c, k)[x] == Exchanged(s, i, n, c, k, x) {
        assert p[x] == Exchanged(s, i, n, c, k - 1, x);
      }
    }
  }

  /** They overlap: after k > d swaps slot i holds what was d further on, a page of the chunk. */
  lemma {:induction false} ShiftOverlap(s: seq<int>, i: nat, n: nat, c: nat, k: nat)
    requires 0 < k <= c && i + c < n <= |s| && n < i + 2 * c
    ensures Shift(s, i, n, c, k)[i] == s[n - c]
    ensures forall x | n - c + k <= x < |s| :: Shift(s, i, n, c, k)[x] == s[x]
  {
    if k > 1 { ShiftOverlap(s, i, n, c, k - 1); }
  }

  /** The last c slots hold the chunk, as "move everything to the end of the page list" has it. */
  ghost predicate AtEnd(t: seq<int>, s: seq<int>, i: nat, n: nat, c: nat)
    requires i + c <= n <= |s| && |t| == |s|
  {
    forall x | i <= x < i + c :: s[x] in t[n - c..n]
  }

  /** The move does what it says exactly when the chunk does not overlap the tail, or is the tail. */
  lemma MoveIsolates(s: seq<int>, i: nat, n: nat, c: nat)
    requires NoDup(s) && 0 < c && i + c <= n <= |s|
    ensures AtEnd(Moved(s, i, n, c), s, i, n, c) <==> i + 2 * c <= n || i + c == n
  {
    if i + c == n {
      assert forall x | i <= x < i + c :: s[n - c..n][x - i] == s[x];
    } else if i + 2 * c <= n {
      var t := Shift(s, i, n, c, c);
      ShiftApart(s, i, n, c, c);
      forall x | i <= x < i + c ensures s[x] in t[n - c..n] {
        assert t[n - c + (x - i)] == Exchanged(s, i, n, c, c, n - c + (x - i)) == s[x];
        assert t[n - c..n][x - i] == t[n - c + (x - i)];
      }
    } else {
      var t := Shift(s, i, n, c, c);
      ShiftOverlap(s, i, n, c, c);
      ShiftSame(s, i, n, c, c);
      if s[n - c] in t[n - c..n] {
        var y :| n - c <= y < n && t[y] == s[n - c];
        TwiceIn(t, i, y);
        OnceOnly(s, s[n - c]);
      }
      assert s[n - c] !in t[n - c..n];
    }
  }

  /** They overlap by less than the chunk: slot i + d, where d is the distance, ends up with what was d further on. */
  lemma {:induction false} ShiftOverlapNext(s: seq<int>, i: nat, n: nat, c: nat, k: nat)
    requires i + c < n <= |s| && n < i + 2 * c && n - c - i < k <= c
    ensures Shift(s, i, n, c, k)[n - c] == s[n - c + (n - c - i)]
  {
    if k > n - c - i + 1 {
      ShiftOverlapNext(s, i, n, c, k - 1);
    } else {
      ShiftOverlap(s, i, n, c, k - 1);
    }
  }

  /** "Move back to the middle of the pagelist" undoes the move exactly in the cases where that worked. */
  lemma MoveBack(s: seq<int>, i: nat, n: nat, c: nat)
    requires NoDup(s) && i + c < n <= |s|
    ensures Moved(Moved(s, i, n, c), i, n, c) == s <==> i + 2 * c <= n
  {
    var t := Shift(s, i, n, c, c);
    if i + 2 * c <= n {
      ShiftApart(s, i, n, c, c);
      ShiftApart(t, i, n, c, c);
      forall x: nat | x < |s| ensures Shift(t, i, n, c, c)[x] == s[x] {
        assert Shift(t, i, n, c, c)[x] == Exchanged(t, i, n, c, c, x);
      }
    } else {
      ShiftOverlap(t, i, n, c, c);
      ShiftOverlapNext(s, i, n, c, c);
      assert Shift(t, i, n, c, c)[i] == s[n - c + (n - c - i)] != s[i];
    }
  }

  lemma TwiceIn(t: seq<int>, x: nat, y: nat)
    requires x < y < |t| && t[x] == t[y]
    ensures multiset(t)[t[x]] >= 2
  {
    assert t == t[..y] + t[y..];
    assert t[..y][x] == t[x] && t[y..][0] == t[y];
    assert multiset(t[..y])[t[x]] >= 1 && multiset(t[y..])[t[x]] >= 1;
  }

  lemma {:induction false} OnceOnly(s: seq<int>, v: int)
    requires NoDup(s)
    ensures multiset(s)[v] <= 1
  {
    if |s| > 0 {
      var n := |s| - 1;
      OnceOnly(s[..n], v);
      assert s == s[..n] + [s[n]];
      if v == s[n] { assert v !in s[..n]; }
    }
  }

  // ----- fixup_chunk: backing out

  /** The first r entries are put back. */
  function Restored(saved: seq<int>, pages: seq<int>, r: nat): seq<int>
    requires r <= |saved| == |pages|
  {
    saved[..r] + pages[r..]
  }

  /** A page that was in a slot from r on is now in a slot before r, where the copy overwrites it. */
  ghost predicate Crosses(saved: seq<int>, pages: seq<int>, r: nat)
    requires r <= |saved| == |pages|
  {
    exists x, y :: 0 <= x < r <= y < |saved| && pages[x] == saved[y]
  }

  lemma SameNoDup(s: seq<int>, t: seq<int>)
    requires multiset(s) == multiset(t) && NoDup(s)
    ensures NoDup(t) && |s| == |t|
  {
    assert |s| == |multiset(s)| == |multiset(t)| == |t|;
    NoDupMultiset(s);
    NoDupMultiset(t);
  }

  /** As many different entries, all of them among the others: the same entries. */
  lemma AllThere(s: seq<int>, t: seq<int>)
    requires NoDup(s) && NoDup(t) && |s| == |t| && forall v | v in s :: v in t
    ensures multiset(s) == multiset(t)
  {
    NoDupCard(s);
    NoDupCard(t);
    assert Elems(s) <= Elems(t);
    SubsetCard(Elems(s), Elems(t));
    NoDupMultiset(s);
    NoDupMultiset(t);
    forall v ensures multiset(s)[v] == multiset(t)[v] {
      assert v in multiset(s) <==> v in Elems(s);
      assert v in multiset(t) <==> v in Elems(t);
    }
  }

  /** A page that crossed is lost. */
  lemma CrossingLoses(s: seq<int>, t: seq<int>, r: nat)
    requires NoDup(s) && NoDup(t) && r <= |s| == |t| && Crosses(s, t, r)
    ensures exists v :: v in s && v !in Restored(s, t, r)
  {
    var x, y :| 0 <= x < r <= y < |s| && t[x] == s[y];
    assert s[y] in s && s[y] !in Restored(s, t, r);
  }

  lemma NothingCrosses(s: seq<int>, t: seq<int>, r: nat)
    requires NoDup(s) && NoDup(t) && r <= |s| == |t| && multiset(s) == multiset(t) && !Crosses(s, t, r)
    ensures multiset(Restored(s, t, r)) == multiset(s)
  {
    forall v | v in t[..r] ensures v in s[..r] {
      assert v in multiset(t) && v in multiset(s);
      var y :| 0 <= y < |s| && s[y] == v;
      assert y < r;
      assert s[..r][y] == v;
    }
    AllThere(t[..r], s[..r]);
    assert t == t[..r] + t[r..] && s == s[..r] + s[r..];
  }

  /** bcopy puts the first r entries back. All pages are still there exactly when none of those that had been
      in a slot from r on is now in a slot before r; one that is, is lost, and another is there twice. */
  lemma BackOut(s: seq<int>, t: seq<int>, r: nat)
    requires NoDup(s) && multiset(t) == multiset(s) && r <= |s| == |t|
    ensures multiset(Restored(s, t, r)) == multiset(s) <==> !Crosses(s, t, r)
    ensures Crosses(s, t, r) ==> exists v :: v in s && v !in Restored(s, t, r)
  {
    SameNoDup(s, t);
    if Crosses(s, t, r) {
      CrossingLoses(s, t, r);
      var v :| v in s && v !in Restored(s, t, r);
      assert v in multiset(s) && v !in multiset(Restored(s, t, r));
    } else {
      NothingCrosses(s, t, r);
    }
  }

  /** Restoring the whole table loses nothing. */
  lemma WholeBackOut(s: seq<int>, t: seq<int>)
    requires |s| == |t|
    ensures !Crosses(s, t, |s|) && Restored(s, t, |s|) == s
  {
  }

  /** Where the first chunk pages of the moved table come from, when they do not overlap their origin. */
  lemma {:induction false} ShiftFirst(s: seq<int>, i: nat, n: nat, c: nat, k: nat)
    requires k <= c && i + c < n <= |s|
    ensures forall x: nat | i <= x < i + k && x < n - c :: Shift(s, i, n, c, k)[x] == s[n - c + (x - i)]
    ensures forall x: nat | n - c + k <= x < |s| || x < i :: Shift(s, i, n, c, k)[x] == s[x]
    ensures forall x: nat | i + k <= x < n - c :: Shift(s, i, n, c, k)[x] == s[x]
  {
    if k > 0 { ShiftFirst(s, i, n, c, k - 1); }
  }

  lemma MovedFrom(s: seq<int>, i: nat, n: nat, c: nat, x: nat)
    requires i + c <= n <= |s| && x < n - c && (i + c == n || x < i || i <= x < i + c)
    ensures Moved(s, i, n, c)[x] == if x < i || i + c == n then s[x] else s[n - c + (x - i)]
  {
    if i + c < n { ShiftFirst(s, i, n, c, c); }
  }

  /** A copy that stops before the chunk restores slots the move left alone. */
  lemma NothingBefore(s: seq<int>, t: seq<int>, i: nat, n: nat, c: nat, r: nat)
    requires NoDup(s) && i + c <= n <= |s| == |t| && r <= i
    requires forall x: nat | x < n - c :: t[x] == Moved(s, i, n, c)[x]
    ensures !Crosses(s, t, r)
  {
    forall x, y | 0 <= x < r <= y < |s| ensures t[x] != s[y] {
      MovedFrom(s, i, n, c, x);
      hide Moved;
      assert t[x] == s[x];
    }
  }

  /** How many slots at the chunk's start hold pages from the last slots, after the move. */
  function Filled(i: nat, n: nat, c: nat): nat
    requires i + c <= n
  {
    if c < n - c - i then c else n - c - i
  }

  /** A copy that stops inside the chunk, or after it but before all pages moved in are back, leaves one of
      these pages outside. */
  lemma CrossesInside(s: seq<int>, t: seq<int>, i: nat, n: nat, c: nat, r: nat)
    requires 0 < c && i + c < n <= |s| == |t| && i < r < n - c + Filled(i, n, c)
    requires forall x: nat | x < n - c :: t[x] == Moved(s, i, n, c)[x]
    ensures Crosses(s, t, r)
  {
    var w := Filled(i, n, c);
    var x: nat := if r < i + w then r - 1 else i + w - 1;
    MovedFrom(s, i, n, c, x);
    hide Moved;
    assert t[x] == s[n - c + (x - i)];
  }

  /** What the back-out of fixup_chunk finds: t holds the pages of s, and agrees with the moved table below the
      last c slots in use. A copy that stops before the chunk loses nothing; one that stops after it, among
      the slots in use, loses a page, if chunk and last slots do not overlap. */
  lemma BackOutInUse(s: seq<int>, t: seq<int>, i: nat, n: nat, c: nat, r: nat)
    requires NoDup(s) && multiset(t) == multiset(s) && 0 < c && i + c <= n <= |s| == |t| && r <= n
    requires forall x: nat | x < n - c :: t[x] == Moved(s, i, n, c)[x]
    ensures r <= i ==> !Crosses(s, t, r)
    ensures i + c < n && i < r < n - c + Filled(i, n, c) ==> Crosses(s, t, r)
    ensures i + 2 * c <= n && r < n ==> (multiset(Restored(s, t, r)) == multiset(s) <==> r <= i)
  {
    if r <= i { NothingBefore(s, t, i, n, c, r); }
    if i + c < n && i < r < n - c + Filled(i, n, c) { CrossesInside(s, t, i, n, c, r); }
    BackOut(s, t, r);
    hide Crosses, Restored, Moved, NoDup;
  }

  // ----- over a whole search

  /** One back-out: the table saved, the one it overwrote, the chunk [i, i + c) of the n slots in use, and how
      many entries were put back. */
  datatype Undone = Undone(saved: seq<int>, before: seq<int>, i: nat, n: nat, c: nat, r: nat)

  /** What fixup_chunk finds when it backs out. */
  ghost predicate BackedOut(u: Undone) {
    && 0 < u.c && u.i + u.c <= u.n && u.n + 2 <= |u.saved| == |u.before| && u.r <= |u.saved|
    && multiset(u.before) == multiset(u.saved)
    && forall x: nat | x < u.n - u.c :: u.before[x] == Moved(u.saved, u.i, u.n, u.c)[x]
  }

  ghost predicate Loses(u: Undone)
    requires BackedOut(u)
  {
    Crosses(u.saved, u.before, u.r)
  }

  ghost predicate AllBackedOut(undone: seq<Undone>) {
    forall k | 0 <= k < |undone| :: BackedOut(undone[k])
  }

  ghost predicate SomeLoses(undone: seq<Undone>, from: nat)
    requires AllBackedOut(undone)
  {
    exists k :: from <= k < |undone| && Loses(undone[k])
  }

  ghost predicate Lost(s: seq<int>, t: seq<int>) {
    exists v :: v in s && v !in t
  }

  /** t is what the back-outs from number `from` on, and exchanges between them, have made of s: no page is new,
      and if s held no page twice, then all pages are still there exactly if no back-out crossed. */
  ghost predicate Conserved(s: seq<int>, t: seq<int>, undone: seq<Undone>, from: nat)
    requires AllBackedOut(undone)
  {
    && |t| == |s| && Within(t, s)
    && (NoDup(s) ==> if SomeLoses(undone, from) then Lost(s, t) else multiset(t) == multiset(s))
  }

  /** The same, with all the back-outs copying the same number of entries. */
  ghost predicate Copied(s: seq<int>, t: seq<int>, undone: seq<Undone>, from: nat, r: nat)
    requires AllBackedOut(undone)
  {
    && from <= |undone| && Conserved(s, t, undone, from)
    && forall k | from <= k < |undone| :: undone[k].r == r && |undone[k].saved| == |s|
  }

  /** The exact condition where chunk and last slots do not overlap and the copy stops among the slots in use. */
  lemma BackedOutLoses(u: Undone)
    requires BackedOut(u) && NoDup(u.saved) && u.i + 2 * u.c <= u.n && u.r < u.n
    ensures Loses(u) <==> u.i < u.r
  {
    BackOutInUse(u.saved, u.before, u.i, u.n, u.c, u.r);
    BackOut(u.saved, u.before, u.r);
  }

  lemma WholeKeeps(undone: seq<Undone>, from: nat, n: nat)
    requires AllBackedOut(undone) && forall k | from <= k < |undone| :: undone[k].r == n == |undone[k].saved|
    ensures !SomeLoses(undone, from)
  {
    forall k | from <= k < |undone| ensures !Loses(undone[k]) {
      WholeBackOut(undone[k].saved, undone[k].before);
    }
  }

  lemma SameConserved(s: seq<int>, t: seq<int>, undone: seq<Undone>)
    requires |t| == |s| && multiset(t) == multiset(s) && AllBackedOut(undone)
    ensures Conserved(s, t, undone, |undone|)
  {
    SameWithin(t, s);
  }

  lemma OneBackOut(u: Undone, undone: seq<Undone>)
    requires BackedOut(u) && AllBackedOut(undone)
    ensures AllBackedOut(undone + [u]) && Conserved(u.saved, Restored(u.saved, u.before, u.r), undone + [u], |undone|)
  {
    var more := undone + [u];
    assert more[|undone|] == u;
    SameWithin(u.before, u.saved);
    RestoredWithin(u.saved, u.before, u.r);
    assert SomeLoses(more, |undone|) <==> Loses(u) by {
      if Loses(u) { assert Loses(more[|undone|]); }
    }
    if NoDup(u.saved) { BackOut(u.saved, u.before, u.r); }
  }

  lemma RestoredWithin(s: seq<int>, t: seq<int>, r: nat)
    requires r <= |s| == |t| && Within(t, s)
    ensures |Restored(s, t, r)| == |s| && Within(Restored(s, t, r), s)
  {
    forall p | p in Restored(s, t, r) ensures p in s {
      if p !in s[..r] { assert p in t[r..]; assert p in t; }
    }
  }

  /** Losing a page is for good. */
  lemma ConservedThen(s: seq<int>, t: seq<int>, w: seq<int>, undone: seq<Undone>, more: seq<Undone>, from: nat)
    requires AllBackedOut(more) && undone <= more && from <= |undone| && AllBackedOut(undone)
    requires Conserved(s, t, undone, from) && Conserved(t, w, more, |undone|)
    ensures Conserved(s, w, more, from)
  {
    hide Crosses, BackedOut;
    SomeLater(undone, more, from);
    if NoDup(s) {
      if SomeLoses(undone, from) {
        var v :| v in s && v !in t;
        assert v !in w;
      } else {
        SameNoDup(s, t);
        if SomeLoses(more, |undone|) {
          var v :| v in t && v !in w;
          assert v in s && v !in w;
        }
      }
    }
  }

  lemma SomeLater(undone: seq<Undone>, more: seq<Undone>, from: nat)
    requires AllBackedOut(more) && undone <= more && from <= |undone|
    ensures AllBackedOut(undone)
    ensures SomeLoses(more, from) <==> SomeLoses(undone, from) || SomeLoses(more, |undone|)
  {
    hide BackedOut, Crosses;
    forall k | 0 <= k < |undone| ensures BackedOut(undone[k]) {
      assert BackedOut(more[k]) && more[k] == undone[k];
    }
    if SomeLoses(more, from) {
      var k :| from <= k < |more| && Loses(more[k]);
      if k < |undone| { assert more[k] == undone[k]; }
    }
    if SomeLoses(undone, from) {
      var k :| from <= k < |undone| && Loses(undone[k]);
      assert more[k] == undone[k];
    }
  }
}
