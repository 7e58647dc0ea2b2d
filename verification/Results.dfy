/** lib_timing.c, bench.h: tables of timing results, sorted by time per iteration, and their median. */
module Results {

  const TRIES := 11

  /** value_t: u microseconds for n iterations. */
  datatype Value = Value(u: nat, n: nat)

  /** u / (double)n, exactly. Every value in a table counts at least one iteration. */
  function Ratio(v: Value): real {
    if v.n == 0 then 0.0 else v.u as real / v.n as real
  }

  /** sizeof_result, in entries. */
  function Capacity(repetitions: nat): nat {
    if repetitions <= TRIES then TRIES else repetitions
  }

  /** Largest time per iteration first. */
  ghost predicate Sorted(s: seq<Value>) {
    forall x, y | 0 <= x < y < |s| :: Ratio(s[x]) >= Ratio(s[y])
  }

  /** v goes before the first entry with a smaller ratio. */
  function Place(s: seq<Value>, v: Value): (i: nat)
    ensures i <= |s|
    ensures forall x | 0 <= x < i :: Ratio(v) <= Ratio(s[x])
    ensures i < |s| ==> Ratio(v) > Ratio(s[i])
  {
    if s == [] then 0 else if Ratio(v) > Ratio(s[0]) then 0 else 1 + Place(s[1..], v)
  }

  /** What insertsort makes of a table: readings of no time are dropped. */
  function Insert(s: seq<Value>, v: Value): seq<Value> {
    if v.u == 0 then s else s[..Place(s, v)] + [v] + s[Place(s, v)..]
  }

  lemma PlaceUnique(s: seq<Value>, v: Value, i: nat)
    requires i <= |s| && (forall x | 0 <= x < i :: Ratio(v) <= Ratio(s[x]))
    requires i < |s| ==> Ratio(v) > Ratio(s[i])
    ensures Place(s, v) == i
  {
  }

  lemma InsertSorted(s: seq<Value>, v: Value)
    requires Sorted(s)
    ensures Sorted(Insert(s, v))
  {
  }

  lemma InsertSame(s: seq<Value>, v: Value)
    ensures multiset(Insert(s, v)) == multiset(s) + if v.u == 0 then multiset{} else multiset{v}
    ensures |Insert(s, v)| == |s| + if v.u == 0 then 0 else 1
  {
    assert s == s[..Place(s, v)] + s[Place(s, v)..];
  }

  /** result_t: N values at the front of an array. */
  class Table {
    var N: nat
    const v: array<Value>

    constructor (repetitions: nat)
      ensures N == 0 && v.Length == Capacity(repetitions) && fresh(v)
    {
      N := 0;
      v := new Value[Capacity(repetitions)](_ => Value(0, 1));
    }

    ghost predicate Valid()
      reads this, v
    {
      N <= v.Length && Sorted(v[..N])
    }

    ghost function Entries(): seq<Value>
      requires N <= v.Length
      reads this, v
    {
      v[..N]
    }

    /** insertsort: the entries from i on move up by one, and the new value goes in at i. */
    method InsertSort(u: nat, n: nat)
      requires Valid() && n > 0 && (u > 0 ==> N < v.Length)
      modifies this, v
      ensures Valid() && Entries() == Insert(old(Entries()), Value(u, n))
    {
      ghost var s := v[..N];
      InsertSorted(s, Value(u, n));
      if u == 0 { return; }
      var i := 0;
      while i < N && Ratio(Value(u, n)) <= Ratio(v[i])
        invariant 0 <= i <= N
        invariant forall x | 0 <= x < i :: Ratio(Value(u, n)) <= Ratio(s[x])
      {
        i := i + 1;
      }
      PlaceUnique(s, Value(u, n), i);
      ShiftUp(i);
      hide *;
      v[i] := Value(u, n);
      N := N + 1;
      Inserted(s, v[..N], i, Value(u, n));
    }

    /** Makes room for a value in place i: from the end on, every later value moves one place up. */
    method ShiftUp(i: nat)
      requires i <= N < v.Length
      modifies v
      ensures forall x | 0 <= x < i :: v[x] == old(v[..N])[x]
      ensures forall x | i <= x < N :: v[..N + 1][x + 1] == old(v[..N])[x]
    {
      var j := N;
      while j > i
        invariant i <= j <= N
        invariant forall x | 0 <= x < j :: v[x] == old(v[x])
        invariant forall x | j <= x < N :: v[x + 1] == old(v[x])
      {
        v[j] := v[j - 1];
        j := j - 1;
      }
    }

    /** save_median: the middle value, or between the two middle ones. */
    method SaveMedian() returns (m: Value)
      requires Valid()
      ensures m == Median(Entries())
      ensures N == 0 ==> m == Value(0, 1)
      ensures N % 2 == 1 ==>
                m in Entries() && Above(Entries(), Ratio(m)) <= N / 2 && Under(Entries(), Ratio(m)) <= N / 2
      ensures N > 0 && N % 2 == 0 ==> exists a: nat, b: nat :: MiddleTwo(Entries(), m, a, b)
    {
      if N > 0 { Middle(Entries()); }
      var i := N / 2;
      if N == 0 {
        m := Value(0, 1);
      } else if N % 2 != 0 {
        m := v[i];
      } else {
        m := Value((v[i].u + v[i - 1].u) / 2, (v[i].n + v[i - 1].n) / 2);
      }
    }

    /** save_minimum: the last value is the one with the least time per iteration. */
    method SaveMinimum() returns (m: Value)
      requires Valid()
      ensures N == 0 ==> m == Value(0, 1)
      ensures N > 0 ==> m in Entries() && forall e | e in Entries() :: Ratio(m) <= Ratio(e)
    {
      m := if N == 0 then Value(0, 1) else v[N - 1];
      assert N > 0 ==> v[..N][N - 1] == m;
      forall e | e in Entries() ensures N > 0 && Ratio(m) <= Ratio(e) {
        var x :| 0 <= x < N && v[..N][x] == e;
      }
    }
  }

  lemma Inserted(s: seq<Value>, r: seq<Value>, i: nat, v: Value)
    requires i <= |s| && |r| == |s| + 1 && v.u > 0 && Place(s, v) == i && r[i] == v
    requires forall x | 0 <= x < i :: r[x] == s[x]
    requires forall x | i <= x < |s| :: r[x + 1] == s[x]
    ensures r == Insert(s, v)
  {
    forall x | i < x < |r| ensures r[x] == Insert(s, v)[x] { assert r[x - 1 + 1] == s[x - 1]; }
  }

  function Median(s: seq<Value>): Value {
    var i := |s| / 2;
    if |s| == 0 then Value(0, 1)
    else if |s| % 2 != 0 then s[i]
    else Value((s[i].u + s[i - 1].u) / 2, (s[i].n + s[i - 1].n) / 2)
  }

  // ----- the median is the middle

  /** How many entries have a ratio above r. */
  function Above(s: seq<Value>, r: real): (n: nat)
    ensures n <= |s|
  {
    if s == [] then 0 else Above(s[1..], r) + if Ratio(s[0]) > r then 1 else 0
  }

  /** How many have one below r. */
  function Under(s: seq<Value>, r: real): (n: nat)
    ensures n <= |s|
  {
    if s == [] then 0 else Under(s[1..], r) + if Ratio(s[0]) < r then 1 else 0
  }

  /** m is half the sum of two entries; the others are in equal numbers above and under both, none between. */
  ghost predicate MiddleTwo(s: seq<Value>, m: Value, a: nat, b: nat) {
    && a < |s| && b < |s| && a != b && Ratio(s[a]) >= Ratio(s[b])
    && m.u == (s[a].u + s[b].u) / 2 && m.n == (s[a].n + s[b].n) / 2
    && Above(s, Ratio(s[a])) <= |s| / 2 - 1 && Under(s, Ratio(s[b])) <= |s| / 2 - 1
    && forall x | 0 <= x < |s| :: !(Ratio(s[b]) < Ratio(s[x]) < Ratio(s[a]))
  }

  lemma {:induction false} OthersAround(s: seq<Value>, k: nat)
    requires Sorted(s) && k < |s|
    ensures Above(s, Ratio(s[k])) <= k && Under(s, Ratio(s[k])) <= |s| - 1 - k
  {
    hide Ratio;
    if k > 0 {
      OthersAround(s[1..], k - 1);
    } else {
      NoneAbove(s[1..], Ratio(s[0]));
    }
  }

  lemma {:induction false} NoneAbove(s: seq<Value>, r: real)
    requires forall x | 0 <= x < |s| :: Ratio(s[x]) <= r
    ensures Above(s, r) == 0
  {
    hide Ratio;
    if s != [] { NoneAbove(s[1..], r); }
  }

  /** For an odd number of values an entry with at most half of the others on either side; for an even number
      half the sums of the two in the middle. */
  lemma Middle(s: seq<Value>)
    requires Sorted(s) && |s| > 0
    ensures |s| % 2 == 1 ==>
              Median(s) in s && Above(s, Ratio(Median(s))) <= |s| / 2 && Under(s, Ratio(Median(s))) <= |s| / 2
    ensures |s| % 2 == 0 ==> exists a: nat, b: nat :: MiddleTwo(s, Median(s), a, b)
  {
    hide *;
    var i := |s| / 2;
    OthersAround(s, i);
    if |s| % 2 == 1 {
      OddMiddle(s);
    } else {
      OthersAround(s, i - 1);
      EvenMiddle(s);
    }
  }

  lemma OddMiddle(s: seq<Value>)
    requires |s| % 2 == 1
    ensures Median(s) == s[|s| / 2] && Median(s) in s
  {
  }

  lemma EvenMiddle(s: seq<Value>)
    requires Sorted(s) && |s| > 0 && |s| % 2 == 0
    requires Above(s, Ratio(s[|s| / 2 - 1])) <= |s| / 2 - 1 && Under(s, Ratio(s[|s| / 2])) <= |s| / 2 - 1
    ensures exists a: nat, b: nat :: MiddleTwo(s, Median(s), a, b)
  {
    hide Ratio, Above, Under;
    assert MiddleTwo(s, Median(s), |s| / 2 - 1, |s| / 2);
  }

  /** One value has the larger time per iteration exactly if it has when both are multiplied out. */
  lemma RatioOrder(v: Value, w: Value)
    requires v.n > 0 && w.n > 0
    ensures Ratio(v) > Ratio(w) <==> v.u * w.n > w.u * v.n
  {
    var x, y, a, b := Ratio(v), Ratio(w), v.n as real, w.n as real;
    assert x * a == v.u as real && y * b == w.u as real;
    hide Ratio;
    RealOrder(x, y, a, b);
    RealProduct(v.u, w.n);
    RealProduct(w.u, v.n);
    var left, right := v.u * w.n, w.u * v.n;
    assert left as real == (x * a) * b;
    assert right as real == (y * b) * a;
  }

  lemma RealProduct(a: int, b: int)
    ensures (a * b) as real == a as real * b as real
  {
  }

  lemma RealOrder(x: real, y: real, a: real, b: real)
    requires a > 0.0 && b > 0.0
    ensures x > y <==> (x * a) * b > (y * b) * a
  {
    var p := a * b;
    assert p > 0.0 && (x * a) * b == x * p && (y * b) * a == y * p;
    if x > y { assert (x - y) * p > 0.0; } else { assert (y - x) * p >= 0.0; }
  }

  // ----- the median does not depend on the order in which values came in

  function Without(s: seq<Value>, j: nat): seq<Value>
    requires j < |s|
  {
    s[..j] + s[j + 1..]
  }

  lemma WithoutSame(s: seq<Value>, t: seq<Value>, j: nat)
    requires |s| > 0 && j < |t| && t[j] == s[0] && multiset(s) == multiset(t)
    ensures multiset(s[1..]) == multiset(Without(t, j))
  {
    assert s == [s[0]] + s[1..];
    assert t == t[..j] + [t[j]] + t[j + 1..];
    assert multiset(s[1..]) == multiset(s) - multiset{s[0]};
    assert multiset(Without(t, j)) == multiset(t[..j]) + multiset(t[j + 1..]) == multiset(t) - multiset{t[j]};
  }

  /** Two sorted tables of the same values agree on the ratio in every place, though values of equal ratio
      may be in another order. */
  lemma {:induction false} SortedRatios(s: seq<Value>, t: seq<Value>, k: nat)
    requires Sorted(s) && Sorted(t) && multiset(s) == multiset(t) && k < |s|
    ensures k < |t| && Ratio(s[k]) == Ratio(t[k])
  {
    assert |s| == |multiset(s)| == |t|;
    assert s[0] in multiset(t) && t[0] in multiset(s);
    var j :| 0 <= j < |t| && t[j] == s[0];
    if k > 0 {
      var rest := Without(t, j);
      WithoutSame(s, t, j);
      SortedRatios(s[1..], rest, k - 1);
      assert Ratio(t[0]) == Ratio(s[0]);
    }
  }

  /** For an odd number of values the ratio reported is that of the multiset, whatever order they came in. */
  lemma OddMedian(s: seq<Value>, t: seq<Value>)
    requires Sorted(s) && Sorted(t) && multiset(s) == multiset(t) && |s| % 2 == 1
    ensures Ratio(Median(s)) == Ratio(Median(t))
  {
    SortedRatios(s, t, |s| / 2);
    assert |s| == |multiset(s)| == |t|;
  }

  /** Two values, whichever comes first. */
  lemma PairMedian(s: seq<Value>, t: seq<Value>)
    requires multiset(s) == multiset(t) && |s| == 2
    ensures Median(s) == Median(t)
  {
    assert |t| == |multiset(t)| == |multiset(s)| == 2;
    assert s == [s[0], s[1]] && t == [t[0], t[1]];
    assert multiset(s)[t[0]] == multiset(t)[t[0]] && multiset(s)[s[0]] == multiset(t)[s[0]];
  }

  /** The same values, sorted, in whatever order they came in. */
  ghost predicate Reordered(s: seq<Value>, t: seq<Value>, n: nat) {
    |s| == n && Sorted(s) && Sorted(t) && multiset(s) == multiset(t)
  }

  /** The ratio reported for a table of n values never depends on the order they came in. */
  ghost predicate OrderFree(n: nat) {
    forall s, t | Reordered(s, t, n) :: Ratio(Median(s)) == Ratio(Median(t))
  }

  /** n times 1 microsecond for 2 iterations, but twice that at x: all ratios are the same. */
  function Level(n: nat, x: nat): (s: seq<Value>)
    ensures |s| == n
  {
    seq(n, k requires 0 <= k < n => if k == x then Value(2, 4) else Value(1, 2))
  }

  lemma LevelSorted(n: nat, x: nat)
    ensures Sorted(Level(n, x))
  {
    Halves();
    forall k | 0 <= k < n ensures Ratio(Level(n, x)[k]) == 0.5 {}
    hide Ratio, Level;
  }

  lemma Halves()
    ensures Ratio(Value(1, 2)) == Ratio(Value(2, 4)) == 0.5 && Ratio(Value(1, 3)) != 0.5
  {
  }

  lemma {:induction false} LevelSame(n: nat, x: nat)
    requires x < n
    ensures multiset(Level(n, x)) == multiset(Level(n - 1, n)) + multiset{Value(2, 4)}
  {
    var s := Level(n, x);
    assert s == s[..x] + [s[x]] + s[x + 1..];
    assert Level(n - 1, n) == s[..x] + s[x + 1..];
  }

  lemma LevelMedian(n: nat, x: nat)
    requires n >= 4 && n % 2 == 0 && x < n
    ensures Median(Level(n, x)) == if x == n / 2 then Value(1, 3) else if x == n / 2 - 1 then Value(1, 3)
            else Value(1, 2)
  {
  }

  /** With four or more values, an even number, the order matters: among equal ratios it decides which two
      are in the middle. */
  lemma EvenMedian(n: nat)
    requires n >= 4 && n % 2 == 0
    ensures !OrderFree(n)
  {
    var s, t := Level(n, n / 2), Level(n, n - 1);
    LevelSorted(n, n / 2);
    LevelSorted(n, n - 1);
    LevelSame(n, n / 2);
    LevelSame(n, n - 1);
    LevelMedian(n, n / 2);
    LevelMedian(n, n - 1);
    Halves();
    hide Level, Sorted, Median, Ratio;
    assert Reordered(s, t, n);
  }

  /** The median of n values is the same in whatever order they come, for all tables of n values, exactly when
      n is odd or at most 2. */
  lemma MedianOrder(n: nat)
    ensures OrderFree(n) <==> n % 2 == 1 || n <= 2
  {
    if n % 2 == 1 || n <= 2 {
      forall s, t | Reordered(s, t, n) ensures Ratio(Median(s)) == Ratio(Median(t)) {
        assert |s| == |multiset(s)| == |multiset(t)| == |t|;
        if n == 2 { PairMedian(s, t); } else if n % 2 == 1 { OddMedian(s, t); }
      }
    } else {
      EvenMedian(n);
    }
  }

  /** All values count the same number of iterations, as they do when several children run. */
  ghost predicate Counts(s: seq<Value>, n: nat) {
    forall x | 0 <= x < |s| :: s[x].n == n
  }

  lemma SameTime(v: Value, w: Value)
    requires v.n == w.n > 0 && Ratio(v) == Ratio(w)
    ensures v == w
  {
    var n := v.n as real;
    assert v.u as real / n * n == v.u as real && w.u as real / n * n == w.u as real;
  }

  /** Then the median itself does not depend on the order, for any number of values. */
  lemma CountMedian(s: seq<Value>, t: seq<Value>, n: nat)
    requires Sorted(s) && Sorted(t) && multiset(s) == multiset(t) && Counts(s, n) && n > 0
    ensures s == t && Median(s) == Median(t)
  {
    assert |s| == |multiset(s)| == |multiset(t)| == |t|;
    forall k | 0 <= k < |s| ensures s[k] == t[k] {
      SortedRatios(s, t, k);
      assert t[k] in multiset(s);
      SameTime(s[k], t[k]);
    }
  }

  lemma InsertCounts(s: seq<Value>, v: Value, n: nat)
    requires Counts(s, n) && v.n == n
    ensures Counts(Insert(s, v), n)
  {
  }

  // ----- one table out of many

  /** insertsort of every value of t, in order. */
  function Merge(s: seq<Value>, t: seq<Value>): (r: seq<Value>)
    decreases |t|
  {
    if t == [] then s else Merge(Insert(s, t[0]), t[1..])
  }

  /** No reading of no time. */
  ghost predicate Timed(s: seq<Value>) {
    forall x | 0 <= x < |s| :: s[x].u > 0 && s[x].n > 0
  }

  lemma {:induction false} MergeUnion(s: seq<Value>, t: seq<Value>)
    requires Sorted(s) && Timed(t)
    ensures Sorted(Merge(s, t)) && multiset(Merge(s, t)) == multiset(s) + multiset(t)
    ensures |Merge(s, t)| == |s| + |t|
    decreases |t|
  {
    hide Sorted, Ratio;
    if t != [] {
      InsertSorted(s, t[0]);
      InsertSame(s, t[0]);
      MergeUnion(Insert(s, t[0]), t[1..]);
      assert t == [t[0]] + t[1..];
    }
  }

  lemma InsertTimed(s: seq<Value>, v: Value)
    requires Timed(s) && v.n > 0
    ensures Timed(Insert(s, v))
  {
  }

  /** The loop of benchmp_parent over one child's table. */
  method MergeTable(merged: Table, t: seq<Value>)
    requires merged.Valid() && Timed(t) && merged.N + |t| <= merged.v.Length
    modifies merged, merged.v
    ensures merged.Valid() && merged.Entries() == Merge(old(merged.Entries()), t)
  {
    ghost var s := merged.Entries();
    assert t[0..] == t;
    var j := 0;
    while j < |t|
      invariant 0 <= j <= |t| && merged.Valid() && merged.N + (|t| - j) <= merged.v.Length
      invariant Merge(merged.Entries(), t[j..]) == Merge(s, t)
    {
      hide *;
      MergeNext(merged.Entries(), t, j);
      TimedAt(t, j);
      merged.InsertSort(t[j].u, t[j].n);
      j := j + 1;
    }
    assert t[j..] == [];
  }

  lemma MergeNext(s: seq<Value>, t: seq<Value>, j: nat)
    requires j < |t|
    ensures Merge(s, t[j..]) == Merge(Insert(s, t[j]), t[j + 1..])
  {
    assert t[j..][1..] == t[j + 1..];
  }

  lemma TimedAt(t: seq<Value>, j: nat)
    requires Timed(t) && j < |t|
    ensures t[j].u > 0 && t[j].n > 0
  {
  }

  /** A child takes repetitions samples, but at least one. */
  function MaxSamples(repetitions: nat): nat {
    if repetitions == 0 then 1 else repetitions
  }

  lemma ChildFits(repetitions: nat)
    ensures MaxSamples(repetitions) <= Capacity(repetitions)
  {
  }

  /** The merged table is sized for parallel * repetitions values: enough for every child's samples exactly
      when repetitions is at least 1, or there are no more children than TRIES. */
  lemma MergedFits(parallel: nat, repetitions: nat)
    ensures parallel * MaxSamples(repetitions) <= Capacity(parallel * repetitions) <==>
            repetitions >= 1 || parallel <= TRIES
  {
    if repetitions == 0 { assert parallel * repetitions == 0; }
  }
}
