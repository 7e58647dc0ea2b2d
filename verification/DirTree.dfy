/**
 lat_fs.c: a tree of directories for n files, planned by counting and then built by recursion.
 A path is the sequence of the numbers its components are named by, below the temporary directory [].
 */
module DirTree {
  import opened Arith

  type Path = seq<nat>

  // ----- powers and ceilings

  function Power(b: nat, e: nat): nat {
    if e == 0 then 1 else b * Power(b, e - 1)
  }

  lemma {:induction false} PowerPositive(b: nat, e: nat)
    requires b > 0
    ensures Power(b, e) > 0
  {
    if e > 0 {
      PowerPositive(b, e - 1);
      MulMonotone(1, b, Power(b, e - 1));
    }
  }

  /** n / max, and one more if something is left. */
  function CeilDiv(a: nat, b: nat): nat
    requires b > 0
  {
    a / b + if a % b != 0 then 1 else 0
  }

  lemma CeilIs(a: nat, b: nat, q: nat)
    requires b > 0 && (q - 1) * b < a <= q * b
    ensures CeilDiv(a, b) == q
  {
    if a == q * b { DivUnique(a, b, q, 0); } else { DivUnique(a, b, q - 1, a - (q - 1) * b); }
  }

  lemma CeilMeans(a: nat, b: nat)
    requires b > 0
    ensures a <= CeilDiv(a, b) * b && (a > 0 ==> (CeilDiv(a, b) - 1) * b < a && CeilDiv(a, b) > 0)
    ensures a == 0 ==> CeilDiv(a, b) == 0
  {
    var q, r := a / b, a % b;
    assert a == q * b + r;
    if a == 0 { DivUnique(0, b, 0, 0); }
    if r == 0 && q == 0 { assert a == 0; }
  }

  lemma Product3(a: int, b: int, c: int)
    ensures a * (b * c) == (a * c) * b == (a * b) * c
  {
  }

  /** Rounding up twice is rounding up once. */
  lemma CeilNested(a: nat, b: nat, c: nat)
    requires b > 0 && c > 0
    ensures b * c > 0 && CeilDiv(CeilDiv(a, b), c) == CeilDiv(a, b * c)
  {
    MulMonotone(1, b, c);
    var p := CeilDiv(a, b);
    var q := CeilDiv(p, c);
    CeilMeans(a, b);
    CeilMeans(p, c);
    CeilMeans(a, b * c);
    if a > 0 {
      Product3(q, b, c);
      Product3(q - 1, b, c);
      MulMonotone(p, q * c, b);
      MulMonotone((q - 1) * c, p - 1, b);
      CeilIs(a, b * c, q);
    }
  }

  /** Whole multiples of b add. */
  lemma CeilShift(k: nat, b: nat, m: nat)
    requires b > 0
    ensures CeilDiv(k * b + m, b) == k + CeilDiv(m, b)
  {
    var q, r := m / b, m % b;
    assert m == q * b + r;
    Distribute(k, q, b);
    DivUnique(k * b + m, b, k + q, r);
  }

  lemma CeilMonotone(a: nat, a': nat, b: nat)
    requires b > 0 && a <= a'
    ensures CeilDiv(a, b) <= CeilDiv(a', b)
  {
    CeilMeans(a, b);
    CeilMeans(a', b);
    if CeilDiv(a, b) > CeilDiv(a', b) { MulMonotone(CeilDiv(a', b), CeilDiv(a, b) - 1, b); }
  }

  lemma CeilSmaller(a: nat, b: nat)
    requires b >= 2 && a > 1
    ensures 0 < CeilDiv(a, b) < a
  {
    CeilMeans(a, b);
    var q := CeilDiv(a, b);
    if q >= a { MulMonotone(a - 1, q - 1, b); MulMonotone(2, b, a - 1); }
  }

  /** Up to b, and not empty: one. */
  lemma CeilOne(a: nat, b: nat)
    requires b > 0 && a > 0
    ensures CeilDiv(a, b) <= 1 <==> a <= b
    ensures CeilDiv(a, b) > 0
  {
    CeilMeans(a, b);
    if a <= b { CeilIs(a, b, 1); }
  }

  // ----- how many directories

  /** Directories below the root of a tree of depth d with m files: one for every max^k files, k = 1 .. d. */
  function Below(max: nat, d: nat, m: nat): nat
    requires max > 0
  {
    if d == 0 then 0 else PowerPositive(max, d); Below(max, d - 1, m) + CeilDiv(m, Power(max, d))
  }

  lemma {:induction false} BelowNone(max: nat, d: nat)
    requires max > 0
    ensures Below(max, d, 0) == 0
  {
    if d > 0 {
      BelowNone(max, d - 1);
      PowerPositive(max, d);
      CeilMeans(0, Power(max, d));
    }
  }

  lemma {:induction false} BelowMonotone(max: nat, d: nat, m: nat, m': nat)
    requires max > 0 && m <= m'
    ensures Below(max, d, m) <= Below(max, d, m')
  {
    if d > 0 {
      BelowMonotone(max, d - 1, m, m');
      PowerPositive(max, d);
      CeilMonotone(m, m', Power(max, d));
    }
  }

  /** A tree of files after i full subtrees of depth e or more. */
  lemma {:induction false} BelowShift(max: nat, d: nat, q: nat, m: nat)
    requires max > 0
    ensures Below(max, d, q * Power(max, d) + m) == Below(max, d, q * Power(max, d)) + Below(max, d, m)
    decreases d
  {
    if d > 0 {
      var p := Power(max, d);
      PowerPositive(max, d);
      Product3(q, max, Power(max, d - 1));
      BelowShift(max, d - 1, q * max, m);
      CeilShift(q, p, m);
      CeilShift(q, p, 0);
      CeilMeans(0, p);
    }
  }

  /** One more subdirectory, and what is below it. */
  lemma BelowStep(max: nat, d: nat, i: nat, m: nat)
    requires max > 0 && d > 0 && 0 < m <= Power(max, d)
    ensures Below(max, d, i * Power(max, d) + m) == Below(max, d, i * Power(max, d)) + 1 + Below(max, d - 1, m)
  {
    PowerPositive(max, d);
    BelowShift(max, d, i, m);
    CeilOne(m, Power(max, d));
  }

  // ----- names

  /** The last k digits of x in base max, highest first. */
  function Digits(max: nat, x: nat, k: nat): (s: Path)
    requires max > 0
    ensures |s| == k
    decreases k
  {
    if k == 0 then []
    else PowerPositive(max, k - 1); [x / Power(max, k - 1)] + Digits(max, x % Power(max, k - 1), k - 1)
  }

  lemma DigitsStep(max: nat, k: nat, i: nat, r: nat)
    requires max > 0 && r < Power(max, k)
    ensures Digits(max, i * Power(max, k) + r, k + 1) == [i] + Digits(max, r, k)
  {
    DivUnique(i * Power(max, k) + r, Power(max, k), i, r);
  }

  lemma DigitsLow(max: nat, x: nat, k: nat)
    requires max > 0 && x < Power(max, k)
    ensures forall j | 0 <= j < k :: Digits(max, x, k)[j] < max
    decreases k
  {
    if k > 0 {
      var p := Power(max, k - 1);
      PowerPositive(max, k - 1);
      DigitsLow(max, x % p, k - 1);
      if x / p >= max { MulMonotone(max, x / p, p); }
    }
  }

  /** What a name is in base max, its highest digit first. */
  function Number(max: nat, s: Path): nat {
    if s == [] then 0 else s[0] * Power(max, |s| - 1) + Number(max, s[1..])
  }

  /** The name of a file is its number, written with that many digits. */
  lemma {:induction false} DigitsNumber(max: nat, x: nat, k: nat)
    requires max > 0 && x < Power(max, k)
    ensures Number(max, Digits(max, x, k)) == x
    decreases k
  {
    if k > 0 {
      var p := Power(max, k - 1);
      PowerPositive(max, k - 1);
      var q, r := x / p, x % p;
      assert x == q * p + r;
      DigitsNumber(max, r, k - 1);
      DigitsStep(max, k - 1, q, r);
      hide *;
      NumberStep(max, q, Digits(max, r, k - 1));
    }
  }

  lemma NumberStep(max: nat, q: nat, s: Path)
    ensures Number(max, [q] + s) == q * Power(max, |s|) + Number(max, s)
  {
    hide Power;
    assert ([q] + s)[1..] == s;
  }

  /** Different files of the tree have different names. */
  lemma {:induction false} DigitsInjective(max: nat, x: nat, y: nat, k: nat)
    requires max > 0 && x < Power(max, k) && y < Power(max, k) && Digits(max, x, k) == Digits(max, y, k)
    ensures x == y
    decreases k
  {
    if k > 0 {
      var p := Power(max, k - 1);
      PowerPositive(max, k - 1);
      var dx, dy := Digits(max, x, k), Digits(max, y, k);
      assert dx[0] == x / p && dy[0] == y / p;
      assert dx[1..] == Digits(max, x % p, k - 1) && dy[1..] == Digits(max, y % p, k - 1);
      DigitsInjective(max, x % p, y % p, k - 1);
    }
  }

  function Parent(p: Path): Path {
    if p == [] then [] else p[..|p| - 1]
  }

  ghost predicate IsPrefix(p: Path, q: Path) {
    |p| <= |q| && q[..|p|] == p
  }

  // ----- what the recursion has built

  /** Files f0 .. f1-1 are named by the digits of their number below path. */
  ghost predicate Files(names: seq<Path>, path: Path, max: nat, d: nat, f0: nat, f1: nat)
    requires max > 0
  {
    f1 <= |names| && forall f | f0 <= f < f1 :: names[f] == path + Digits(max, f - f0, d + 1)
  }

  /** A directory below path, in one of its first `used` subdirectories, at most d levels down. */
  ghost predicate Inside(p: Path, path: Path, max: nat, d: nat, used: nat) {
    |path| < |p| <= |path| + d && IsPrefix(path, p) && p[|path|] < used && forall j | |path| <= j < |p| :: p[j] < max
  }

  ghost predicate Dirs(dirs: seq<Path>, path: Path, max: nat, d: nat, used: nat, d0: nat, d1: nat) {
    && d0 <= d1 < |dirs| && dirs[d0] == path
    && (forall x | d0 < x <= d1 :: Inside(dirs[x], path, max, d, used))
    && (forall x, y | d0 <= x < y <= d1 :: dirs[x] != dirs[y])
    && (forall x | d0 < x <= d1 :: Listed(dirs, Parent(dirs[x]), d0, x))
  }

  /** One of directories from .. to-1 is p. */
  ghost predicate Listed(dirs: seq<Path>, p: Path, from: nat, to: nat) {
    exists y :: from <= y < to <= |dirs| && dirs[y] == p
  }

  /** Every file's directory exists. */
  ghost predicate Housed(names: seq<Path>, dirs: seq<Path>, f0: nat, f1: nat, d0: nat, d1: nat) {
    f1 <= |names| && forall f | f0 <= f < f1 :: Listed(dirs, Parent(names[f]), d0, d1 + 1)
  }

  /** Only entries from .. to-1 changed. */
  ghost predicate Untouched(s: seq<Path>, s': seq<Path>, from: nat, to: nat) {
    |s'| == |s| && forall x | 0 <= x < |s| && !(from <= x < to) :: s'[x] == s[x]
  }

  lemma UntouchedBoth(s: seq<Path>, t: seq<Path>, u: seq<Path>, from: nat, mid: nat, to: nat)
    requires Untouched(s, t, from, mid) && Untouched(t, u, mid, to) && from <= mid <= to
    ensures Untouched(s, u, from, to)
  {
  }

  lemma ListedMore(dirs: seq<Path>, dirs': seq<Path>, p: Path, from: nat, to: nat, from': nat, to': nat)
    requires Listed(dirs, p, from, to) && from' <= from && to <= to' <= |dirs'| && |dirs'| == |dirs|
    requires forall x | from <= x < to :: dirs'[x] == dirs[x]
    ensures Listed(dirs', p, from', to')
  {
    var y :| from <= y < to <= |dirs| && dirs[y] == p;
    assert dirs'[y] == p;
  }

  lemma FilesStep(names: seq<Path>, names': seq<Path>, path: Path, max: nat, d: nat, f0: nat, i: nat, f1: nat, f2: nat)
    requires max > 0 && d > 0 && Files(names, path, max, d, f0, f1) && Untouched(names, names', f1, f2)
    requires Files(names', path + [i], max, d - 1, f1, f2)
    requires f1 == f0 + i * Power(max, d) && f2 <= f1 + Power(max, d)
    ensures Files(names', path, max, d, f0, f2)
  {
    forall f | f0 <= f < f2 ensures names'[f] == path + Digits(max, f - f0, d + 1) {
      if f >= f1 { FileName(path, max, d, i, f - f1, names'[f]); }
    }
  }

  lemma FileName(path: Path, max: nat, d: nat, i: nat, r: nat, name: Path)
    requires max > 0 && d > 0 && r < Power(max, d) && name == path + [i] + Digits(max, r, d)
    ensures name == path + Digits(max, i * Power(max, d) + r, d + 1)
  {
    DigitsStep(max, d, i, r);
    hide *;
    assert path + [i] + Digits(max, r, d) == path + ([i] + Digits(max, r, d));
  }

  lemma InsideChild(p: Path, path: Path, max: nat, d: nat, i: nat)
    requires d > 0 && i < max && (p == path + [i] || Inside(p, path + [i], max, d - 1, max))
    ensures Inside(p, path, max, d, i + 1) && p[|path|] == i
  {
    var c := path + [i];
    if p != c {
      assert p[..|c|] == c;
      assert p[..|path|] == c[..|path|] == path && p[|path|] == c[|path|] == i;
    }
  }

  /** After subdirectory i has been made and filled. */
  lemma DirsStep(dirs: seq<Path>, dirs': seq<Path>, path: Path, max: nat, d: nat, i: nat, d0: nat, d1: nat, d2: nat)
    requires d > 0 && i < max && Dirs(dirs, path, max, d, i, d0, d1) && Untouched(dirs, dirs', d1 + 1, d2 + 1)
    requires Dirs(dirs', path + [i], max, d - 1, max, d1 + 1, d2)
    ensures Dirs(dirs', path, max, d, i + 1, d0, d2)
  {
    forall x | d0 < x <= d2 ensures Inside(dirs'[x], path, max, d, i + 1) && (x > d1 ==> dirs'[x][|path|] == i) {
      if x <= d1 { assert Inside(dirs[x], path, max, d, i); } else { InsideChild(dirs'[x], path, max, d, i); }
    }
    forall x, y | d0 <= x < y <= d2 ensures dirs'[x] != dirs'[y] {
      if x <= d1 < y { assert x == d0 || Inside(dirs[x], path, max, d, i); }
    }
    forall x | d0 < x <= d2 ensures Listed(dirs', Parent(dirs'[x]), d0, x) {
      if x <= d1 {
        ListedMore(dirs, dirs', Parent(dirs[x]), d0, x, d0, x);
      } else if x == d1 + 1 {
        assert Parent(path + [i]) == path == dirs'[d0];
      } else {
        ListedMore(dirs', dirs', Parent(dirs'[x]), d1 + 1, x, d0, x);
      }
    }
  }

  lemma HousedStep(names: seq<Path>, names': seq<Path>, dirs: seq<Path>, dirs': seq<Path>,
                   f0: nat, f1: nat, f2: nat, d0: nat, d1: nat, d2: nat)
    requires Housed(names, dirs, f0, f1, d0, d1) && Housed(names', dirs', f1, f2, d1 + 1, d2)
    requires Untouched(names, names', f1, f2) && Untouched(dirs, dirs', d1 + 1, d2 + 1) && d0 <= d1 < d2 < |dirs|
    ensures Housed(names', dirs', f0, f2, d0, d2)
  {
    forall f | f0 <= f < f2 ensures Listed(dirs', Parent(names'[f]), d0, d2 + 1) {
      if f < f1 {
        ListedMore(dirs, dirs', Parent(names[f]), d0, d1 + 1, d0, d2 + 1);
      } else {
        ListedMore(dirs', dirs', Parent(names'[f]), d1 + 1, d2 + 1, d0, d2 + 1);
      }
    }
  }

  // ----- removing

  lemma SameLengthPrefix(p: Path, q: Path)
    requires IsPrefix(p, q)
    ensures |p| == |q| ==> p == q
  {
  }

  /** A directory inside another comes later, so going down from the last index removes it first. */
  lemma {:induction false} AncestorsFirst(dirs: seq<Path>, max: nat, d: nat, last: nat, x: nat, y: nat)
    requires Dirs(dirs, [], max, d, max, 0, last) && x <= last && y <= last
    requires IsPrefix(dirs[x], dirs[y]) && x != y
    ensures x < y
    decreases |dirs[y]|
  {
    assert x > 0 ==> Inside(dirs[x], [], max, d, max);
    SameLengthPrefix(dirs[x], dirs[y]);
    if y > 0 {
      assert Inside(dirs[y], [], max, d, max);
      var z: nat :| z < y && dirs[z] == Parent(dirs[y]);
      if z != x {
        assert dirs[z][..|dirs[x]|] == dirs[y][..|dirs[x]|];
        AncestorsFirst(dirs, max, d, last, x, z);
      }
    }
  }

  /** Of the entries of one directory no two have the same number, and numbers are below max. */
  lemma FewEntries(dirs: seq<Path>, max: nat, d: nat, last: nat, x: nat, y: nat)
    requires Dirs(dirs, [], max, d, max, 0, last) && 0 < x <= last && 0 < y <= last
    requires Parent(dirs[x]) == Parent(dirs[y])
    ensures |dirs[x]| > 0 && |dirs[y]| > 0 && dirs[x][|dirs[x]| - 1] < max
    ensures dirs[x][|dirs[x]| - 1] == dirs[y][|dirs[y]| - 1] ==> x == y
  {
    assert Inside(dirs[x], [], max, d, max) && Inside(dirs[y], [], max, d, max);
    ParentAndLast(dirs[x]);
    ParentAndLast(dirs[y]);
    hide Inside, Listed, Parent;
  }

  lemma ParentAndLast(p: Path)
    requires |p| > 0
    ensures p == Parent(p) + [p[|p| - 1]]
  {
  }

  /** The same for the files. */
  lemma FewFiles(names: seq<Path>, max: nat, d: nat, n: nat, f: nat, g: nat)
    requires max > 0 && Files(names, [], max, d, 0, n) && n <= Power(max, d + 1) && f < n && g < n
    requires Parent(names[f]) == Parent(names[g])
    ensures |names[f]| == |names[g]| == d + 1 && names[f][d] < max
    ensures names[f][d] == names[g][d] ==> f == g
  {
    assert names[f] == Digits(max, f, d + 1) && names[g] == Digits(max, g, d + 1);
    DigitsLow(max, f, d + 1);
    ParentAndLast(names[f]);
    ParentAndLast(names[g]);
    if names[f][d] == names[g][d] { DigitsInjective(max, f, g, d + 1); }
  }

  function Tail(p: Path): nat
    requires |p| > 0
  {
    p[|p| - 1]
  }

  /** Different numbers below max: no more than max of them. */
  lemma {:induction false} NumbersBound(s: set<nat>, paths: seq<Path>, max: nat)
    requires forall x | x in s :: x < |paths| && |paths[x]| > 0 && Tail(paths[x]) < max
    requires forall x, y | x in s && y in s && Tail(paths[x]) == Tail(paths[y]) :: x == y
    ensures |s| <= max
  {
    if max == 0 {
      assert s == {};
    } else if x :| x in s && Tail(paths[x]) == max - 1 {
      NumbersBound(s - {x}, paths, max - 1);
    } else {
      NumbersBound(s, paths, max - 1);
    }
  }

  /** The subdirectories of directory p. */
  ghost function DirsIn(dirs: seq<Path>, last: nat, p: Path): set<nat>
    requires last < |dirs|
  {
    set x: nat | 0 < x <= last && Parent(dirs[x]) == p
  }

  /** The files of directory p. */
  ghost function FilesIn(names: seq<Path>, n: nat, p: Path): set<nat>
    requires n <= |names|
  {
    set f: nat | f < n && Parent(names[f]) == p
  }

  /** No directory of the tree holds more than max entries, and none that holds files holds directories. */
  lemma EntriesBound(names: seq<Path>, dirs: seq<Path>, max: nat, d: nat, n: nat, last: nat, p: Path)
    requires max > 0 && Files(names, [], max, d, 0, n) && n <= Power(max, d + 1) && Dirs(dirs, [], max, d, max, 0, last)
    ensures |DirsIn(dirs, last, p)| + |FilesIn(names, n, p)| <= max
    ensures DirsIn(dirs, last, p) == {} || FilesIn(names, n, p) == {}
  {
    DirsBound(dirs, max, d, last, p);
    FilesBound(names, max, d, n, p);
    NotBoth(names, dirs, max, d, n, last, p);
    hide *;
  }

  lemma DirsBound(dirs: seq<Path>, max: nat, d: nat, last: nat, p: Path)
    requires Dirs(dirs, [], max, d, max, 0, last)
    ensures |DirsIn(dirs, last, p)| <= max
  {
    var s := DirsIn(dirs, last, p);
    forall x, y | x in s && y in s
      ensures |dirs[x]| > 0 && |dirs[y]| > 0 && Tail(dirs[x]) < max && (Tail(dirs[x]) == Tail(dirs[y]) ==> x == y)
    {
      FewEntries(dirs, max, d, last, x, y);
    }
    hide *;
    NumbersBound(s, dirs, max);
  }

  lemma FilesBound(names: seq<Path>, max: nat, d: nat, n: nat, p: Path)
    requires max > 0 && Files(names, [], max, d, 0, n) && n <= Power(max, d + 1)
    ensures |FilesIn(names, n, p)| <= max
  {
    var s := FilesIn(names, n, p);
    forall f, g | f in s && g in s
      ensures |names[f]| > 0 && |names[g]| > 0 && Tail(names[f]) < max && (Tail(names[f]) == Tail(names[g]) ==> f == g)
    {
      FewFiles(names, max, d, n, f, g);
    }
    hide *;
    NumbersBound(s, names, max);
  }

  lemma NotBoth(names: seq<Path>, dirs: seq<Path>, max: nat, d: nat, n: nat, last: nat, p: Path)
    requires max > 0 && Files(names, [], max, d, 0, n) && Dirs(dirs, [], max, d, max, 0, last)
    ensures DirsIn(dirs, last, p) == {} || FilesIn(names, n, p) == {}
  {
    forall x | x in DirsIn(dirs, last, p) ensures |p| < d { assert Inside(dirs[x], [], max, d, max); }
    forall f | f in FilesIn(names, n, p) ensures |p| == d { assert names[f] == [] + Digits(max, f, d + 1); }
  }

  // ----- the planner

  /** The loop of setup_names: directories level by level from the files up, until one holds them all. */
  method Plan(n: nat, max: nat) returns (ndirs: nat, depth: nat)
    requires n > 0 && max >= 2
    ensures ndirs == Below(max, depth, n) + 1 && n <= Power(max, depth + 1)
    ensures depth > 0 ==> Power(max, depth) < n
  {
    hide *;
    ndirs := CeilDiv(n, max);
    depth := 0;
    var level := ndirs;
    FirstLevel(n, max);
    while level > 1
      invariant PowerPos(max, depth + 1) && level == CeilLevel(n, max, depth) > 0
      invariant ndirs == Below(max, depth + 1, n)
      invariant depth > 0 ==> Power(max, depth) < n
      decreases level
    {
      NextLevel(n, max, depth, level);
      level := CeilDiv(level, max);
      ndirs := ndirs + level;
      depth := depth + 1;
    }
    LastLevel(n, max, depth);
  }

  /** Directories `depth` levels above the files' own. */
  function CeilLevel(n: nat, max: nat, depth: nat): nat
    requires max > 0
  {
    PowerPositive(max, depth + 1);
    CeilDiv(n, Power(max, depth + 1))
  }

  lemma FirstLevel(n: nat, max: nat)
    requires n > 0 && max >= 2
    ensures PowerPos(max, 1) && CeilDiv(n, max) == CeilLevel(n, max, 0) == Below(max, 1, n) > 0
  {
    assert Power(max, 1) == max;
    CeilOne(n, max);
  }

  ghost predicate PowerPos(max: nat, e: nat) {
    Power(max, e) > 0
  }

  lemma NextLevel(n: nat, max: nat, depth: nat, level: nat)
    requires n > 0 && max >= 2 && PowerPos(max, depth + 1) && level == CeilLevel(n, max, depth) > 1
    ensures PowerPos(max, depth + 2) && CeilDiv(level, max) == CeilLevel(n, max, depth + 1)
    ensures 0 < CeilDiv(level, max) < level && Power(max, depth + 1) < n
    ensures Below(max, depth + 2, n) == Below(max, depth + 1, n) + CeilDiv(level, max)
  {
    var p := Power(max, depth + 1);
    CeilNested(n, p, max);
    assert p * max == Power(max, depth + 2);
    CeilSmaller(level, max);
    CeilOne(n, p);
  }

  lemma LastLevel(n: nat, max: nat, depth: nat)
    requires n > 0 && max > 0 && PowerPos(max, depth + 1) && CeilLevel(n, max, depth) == 1
    ensures Below(max, depth + 1, n) == Below(max, depth, n) + 1 && n <= Power(max, depth + 1)
  {
    CeilOne(n, Power(max, depth + 1));
  }

  // ----- the builder

  function Min(a: nat, b: nat): nat {
    if a < b then a else b
  }

  /** Files a tree of depth d still gets when `left` are left. */
  function Room(max: nat, d: nat, left: nat): nat {
    Min(left, Power(max, d + 1))
  }

  lemma DirsUsed(dirs: seq<Path>, path: Path, max: nat, d: nat, used: nat, d0: nat, d1: nat)
    requires Dirs(dirs, path, max, d, used, d0, d1) && used <= max
    ensures Dirs(dirs, path, max, d, max, d0, d1)
  {
    forall x | d0 < x <= d1 ensures Inside(dirs[x], path, max, d, max) { assert Inside(dirs[x], path, max, d, used); }
  }

  /** Where subdirectory i starts, and that its files and directories fit. */
  lemma ChildFits(max: nat, d: nat, i: nat, left: nat, m: nat)
    requires max > 0 && d > 0 && i < max && m == Min(left, i * Power(max, d)) < left
    ensures m == i * Power(max, d) && 0 < Room(max, d - 1, left - m) <= Power(max, d)
    ensures m + Room(max, d - 1, left - m) == Min(left, (i + 1) * Power(max, d))
    ensures Below(max, d, m + Room(max, d - 1, left - m)) == Below(max, d, m) + 1 + Below(max, d - 1,
            Room(max, d - 1, left - m))
    ensures Below(max, d, m + Room(max, d - 1, left - m)) <= Below(max, d, Room(max, d, left))
  {
    var q := Power(max, d);
    PowerPositive(max, d);
    Distribute(i, 1, q);
    BelowStep(max, d, i, Room(max, d - 1, left - m));
    MulMonotone(i + 1, max, q);
    assert max * q == Power(max, d + 1);
    BelowMonotone(max, d, m + Room(max, d - 1, left - m), Room(max, d, left));
  }

  /** The loop stops at all of the directory's own room, also when it stops for i == ndirs. */
  lemma LoopEnds(max: nat, d: nat, i: nat, left: nat, m: nat)
    requires max > 0 && m == Min(left, i * Power(max, d)) && Power(max, d) > 0 && i <= max
    requires i == max || i >= left / Power(max, d) + 1 || m == left
    ensures m == Room(max, d, left)
  {
    hide *;
    var q := Power(max, d);
    PowerUp(max, d);
    MulMonotone(i, max, q);
    QuotientBelow(left, q);
    if i >= left / q + 1 { MulMonotone(left / q + 1, i, q); }
    MinIs(left, i * q);
    MinIs(left, Power(max, d + 1));
    RoomIs(max, d, left);
  }

  lemma PowerUp(max: nat, d: nat)
    ensures Power(max, d + 1) == max * Power(max, d)
  {
  }

  lemma QuotientBelow(a: nat, q: nat)
    requires q > 0
    ensures a < (a / q + 1) * q
  {
    Distribute(a / q, 1, q);
  }

  lemma MinIs(a: nat, b: nat)
    ensures Min(a, b) == if a < b then a else b
  {
  }

  lemma MinZero(a: nat, q: nat)
    ensures Min(a, 0 * q) == 0
  {
  }

  lemma RoomIs(max: nat, d: nat, left: nat)
    ensures Room(max, d, left) == Min(left, Power(max, d + 1))
  {
  }

  class Tree {
    const n: nat
    const max: nat
    const names: array<Path>
    const dirs: array<Path>
    var foff: nat
    var doff: nat

    /** setup_names. The plan has room for exactly what the recursion makes: every file gets the name its
        number spells in base max, and the last directory made is the last one planned. */
    constructor (n: nat, max: nat)
      requires n > 0 && max >= 2
      ensures this.n == n && this.max == max && names.Length == n && fresh(names) && fresh(dirs)
      ensures foff == n && doff == dirs.Length - 1
      ensures exists depth: nat ::
                && n <= Power(max, depth + 1)
                && Files(names[..], [], max, depth, 0, n)
                && Dirs(dirs[..], [], max, depth, max, 0, doff)
                && Housed(names[..], dirs[..], 0, n, 0, doff)
    {
      var ndirs, depth := Plan(n, max);
      this.n, this.max, foff, doff := n, max, 0, 0;
      names := new Path[n](_ => []);
      dirs := new Path[ndirs](_ => []);
      new;
      Recurse(depth);
    }

    /** setup_names_recurse: files and directories below directory doff, down to the given depth. */
    method Recurse(depth: nat)
      requires max > 0 && names != dirs && foff <= n == names.Length
      requires doff + Below(max, depth, Room(max, depth, n - foff)) < dirs.Length
      modifies this`foff, this`doff, names, dirs
      ensures foff == old(foff) + Room(max, depth, n - old(foff))
      ensures doff == old(doff) + Below(max, depth, foff - old(foff)) < dirs.Length
      ensures Files(names[..], old(dirs[doff]), max, depth, old(foff), foff)
      ensures Dirs(dirs[..], old(dirs[doff]), max, depth, max, old(doff), doff)
      ensures Housed(names[..], dirs[..], old(foff), foff, old(doff), doff)
      ensures Untouched(old(names[..]), names[..], old(foff), foff) &&
              Untouched(old(dirs[..]), dirs[..], old(doff) + 1, doff + 1)
      decreases depth, 2
    {
      if depth > 0 { MakeDirs(depth); } else { MakeFiles(); }
    }

    /** depth == 0: up to max files. */
    method MakeFiles()
      requires max > 0 && names != dirs && foff <= n == names.Length && doff < dirs.Length
      modifies this`foff, names
      ensures foff == old(foff) + Room(max, 0, n - old(foff))
      ensures Files(names[..], dirs[doff], max, 0, old(foff), foff)
      ensures Dirs(dirs[..], dirs[doff], max, 0, max, doff, doff)
      ensures Housed(names[..], dirs[..], old(foff), foff, doff, doff)
      ensures Untouched(old(names[..]), names[..], old(foff), foff)
    {
      ghost var f0 := foff;
      var basename := dirs[doff];
      assert Power(max, 1) == max;
      var i := 0;
      while i < max && foff < n
        invariant i <= max && foff == f0 + i <= n
        invariant forall f | f0 <= f < foff :: names[f] == basename + [f - f0]
        invariant forall f | 0 <= f < n && !(f0 <= f < foff) :: names[f] == old(names[f])
      {
        names[foff] := basename + [i];
        foff := foff + 1;
        i := i + 1;
      }
      FlatFiles(names[..], dirs[..], basename, max, f0, foff, doff);
    }

    /** depth > 0: up to max subdirectories, each made and filled in turn. */
    method MakeDirs(depth: nat)
      requires depth > 0 && max > 0 && names != dirs && foff <= n == names.Length
      requires doff + Below(max, depth, Room(max, depth, n - foff)) < dirs.Length
      modifies this`foff, this`doff, names, dirs
      ensures foff == old(foff) + Room(max, depth, n - old(foff))
      ensures doff == old(doff) + Below(max, depth, foff - old(foff)) < dirs.Length
      ensures Files(names[..], old(dirs[doff]), max, depth, old(foff), foff)
      ensures Dirs(dirs[..], old(dirs[doff]), max, depth, max, old(doff), doff)
      ensures Housed(names[..], dirs[..], old(foff), foff, old(doff), doff)
      ensures Untouched(old(names[..]), names[..], old(foff), foff) &&
              Untouched(old(dirs[..]), dirs[..], old(doff) + 1, doff + 1)
      decreases depth, 1
    {
      ghost var f0, d0, names0, dirs0 := foff, doff, names[..], dirs[..];
      hide *;
      var basename := dirs[doff];
      var left := n - foff;
      var count := CountFiles(depth);
      var ndirs := left / count + 1;
      NothingYet(names0, dirs0, basename, max, depth, f0, d0);
      MinZero(left, count);
      var i := 0;
      while i < max && i < ndirs && foff < n
        invariant i <= max && f0 <= foff <= n && d0 <= doff < dirs.Length
        invariant foff - f0 == Min(left, i * count) && doff == d0 + Below(max, depth, foff - f0)
        invariant Partly(names0, dirs0, names[..], dirs[..], basename, max, depth, i, f0, foff, d0, doff)
      {
        MakeDir(depth, i, basename, left, names0, dirs0, f0, d0);
        i := i + 1;
      }
      LoopEnds(max, depth, i, left, foff - f0);
      AllMade(names0, dirs0, names[..], dirs[..], basename, max, depth, i, f0, foff, d0, doff);
    }

    /** Subdirectory i. */
    method MakeDir(depth: nat, i: nat, basename: Path, ghost left: nat, ghost names0: seq<Path>, ghost dirs0: seq<Path>,
                   ghost f0: nat, ghost d0: nat)
      requires depth > 0 && i < max && names != dirs && f0 <= foff < n == names.Length && d0 <= doff && left == n - f0
      requires foff - f0 == Min(left, i * Power(max, depth)) && doff == d0 + Below(max, depth, foff - f0)
      requires d0 + Below(max, depth, Room(max, depth, left)) < dirs.Length
      requires Partly(names0, dirs0, names[..], dirs[..], basename, max, depth, i, f0, foff, d0, doff)
      modifies this`foff, this`doff, names, dirs
      ensures f0 <= foff <= n && d0 <= doff < dirs.Length
      ensures foff - f0 == Min(left, (i + 1) * Power(max, depth)) && doff == d0 + Below(max, depth, foff - f0)
      ensures Partly(names0, dirs0, names[..], dirs[..], basename, max, depth, i + 1, f0, foff, d0, doff)
      decreases depth, 0
    {
      ghost var f1, d1, names1, dirs1 := foff, doff, names[..], dirs[..];
      hide *;
      ChildFits(max, depth, i, left, foff - f0);
      doff := doff + 1;
      dirs[doff] := basename + [i];
      ghost var dirs2 := dirs[..];
      Recurse(depth - 1);
      WriteThenMore(dirs1, dirs2, dirs[..], d1, doff, basename + [i]);
      OneMore(names0, dirs0, names1, dirs1, names[..], dirs[..], basename, max, depth, i, f0, f1, foff, d0, d1, doff);
    }

    /** The files a subdirectory of a directory at this depth holds. */
    method CountFiles(depth: nat) returns (count: nat)
      requires depth > 0 && max > 0
      ensures count == Power(max, depth) > 0
    {
      count := max;
      var i := 1;
      assert Power(max, 1) == max;
      while i < depth
        invariant 1 <= i <= depth && count == Power(max, i)
      {
        count := count * max;
        i := i + 1;
      }
      PowerPositive(max, depth);
    }
  }

  /** i subdirectories have been made. */
  ghost predicate Partly(names0: seq<Path>, dirs0: seq<Path>, names: seq<Path>, dirs: seq<Path>, path: Path,
                         max: nat, d: nat, i: nat, f0: nat, f1: nat, d0: nat, d1: nat)
    requires max > 0
  {
    && Files(names, path, max, d, f0, f1) && Dirs(dirs, path, max, d, i, d0, d1) && Housed(names, dirs, f0, f1, d0, d1)
    && Untouched(names0, names, f0, f1) && Untouched(dirs0, dirs, d0 + 1, d1 + 1)
  }

  lemma OneMore(names0: seq<Path>, dirs0: seq<Path>, names1: seq<Path>, dirs1: seq<Path>, names: seq<Path>,
                dirs: seq<Path>, path: Path, max: nat, d: nat, i: nat, f0: nat, f1: nat, f2: nat,
                d0: nat, d1: nat, d2: nat)
    requires d > 0 && i < max && f0 <= f1 <= f2 && d0 <= d1 < d2 < |dirs|
    requires f1 == f0 + i * Power(max, d) && f2 <= f1 + Power(max, d)
    requires Partly(names0, dirs0, names1, dirs1, path, max, d, i, f0, f1, d0, d1)
    requires Files(names, path + [i], max, d - 1, f1, f2) && Dirs(dirs, path + [i], max, d - 1, max, d1 + 1, d2)
    requires Housed(names, dirs, f1, f2, d1 + 1, d2)
    requires Untouched(names1, names, f1, f2) && Untouched(dirs1, dirs, d1 + 1, d2 + 1)
    ensures Partly(names0, dirs0, names, dirs, path, max, d, i + 1, f0, f2, d0, d2)
  {
    hide Files, Dirs, Housed, Untouched, Power;
    UntouchedLength(dirs1, dirs, d1 + 1, d2 + 1);
    FilesStep(names1, names, path, max, d, f0, i, f1, f2);
    DirsStep(dirs1, dirs, path, max, d, i, d0, d1, d2);
    HousedStep(names1, names, dirs1, dirs, f0, f1, f2, d0, d1, d2);
    UntouchedBoth(names0, names1, names, f0, f1, f2);
    UntouchedBoth(dirs0, dirs1, dirs, d0 + 1, d1 + 1, d2 + 1);
  }

  lemma UntouchedLength(s: seq<Path>, s': seq<Path>, from: nat, to: nat)
    requires Untouched(s, s', from, to)
    ensures |s| == |s'|
  {
  }

  lemma WriteThenMore(s: seq<Path>, t: seq<Path>, u: seq<Path>, d1: nat, d2: nat, p: Path)
    requires d1 + 1 < |s| && t == s[d1 + 1 := p] && Untouched(t, u, d1 + 2, d2 + 1) && d1 + 1 <= d2
    ensures Untouched(s, u, d1 + 1, d2 + 1)
  {
  }

  lemma AllMade(names0: seq<Path>, dirs0: seq<Path>, names: seq<Path>, dirs: seq<Path>, path: Path,
                max: nat, d: nat, i: nat, f0: nat, f1: nat, d0: nat, d1: nat)
    requires max > 0 && i <= max && Partly(names0, dirs0, names, dirs, path, max, d, i, f0, f1, d0, d1)
    ensures Files(names, path, max, d, f0, f1) && Dirs(dirs, path, max, d, max, d0, d1) &&
            Housed(names, dirs, f0, f1, d0, d1)
    ensures Untouched(names0, names, f0, f1) && Untouched(dirs0, dirs, d0 + 1, d1 + 1)
  {
    hide Files, Dirs, Housed, Untouched;
    DirsUsed(dirs, path, max, d, i, d0, d1);
  }

  lemma NothingYet(names: seq<Path>, dirs: seq<Path>, path: Path, max: nat, d: nat, f0: nat, d0: nat)
    requires max > 0 && f0 <= |names| && d0 < |dirs| && dirs[d0] == path
    ensures Partly(names, dirs, names, dirs, path, max, d, 0, f0, f0, d0, d0)
    ensures Below(max, d, 0) == 0
  {
    BelowNone(max, d);
  }

  lemma FlatFiles(names: seq<Path>, dirs: seq<Path>, path: Path, max: nat, f0: nat, f1: nat, d0: nat)
    requires max > 0 && f0 <= f1 <= |names| && f1 - f0 <= max && d0 < |dirs| && dirs[d0] == path
    requires forall f | f0 <= f < f1 :: names[f] == path + [f - f0]
    ensures Files(names, path, max, 0, f0, f1) && Dirs(dirs, path, max, 0, max, d0, d0) &&
            Housed(names, dirs, f0, f1, d0, d0)
  {
    forall f | f0 <= f < f1 ensures names[f] == path + Digits(max, f - f0, 1) && Parent(names[f]) == path {
      assert Digits(max, f - f0, 1) == [(f - f0) / 1] + Digits(max, (f - f0) % 1, 0) == [f - f0];
    }
  }
}
