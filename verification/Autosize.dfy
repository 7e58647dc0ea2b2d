/**
 lib_timing.c, benchmp_interval with one child, and bench.h, BENCH_INNER: how many iterations make a
 timing interval of the wanted length. What an interval costs per iteration may vary from one to the next.
 */
module Autosize {
  import opened Arith
  import opened BitOrder
  import opened Results

  const MAX_ITERATIONS := 0x800_0000  // 1 << 27

  /** An interval costs at least lo microseconds per iteration, or no time that the clock shows. */
  ghost predicate Bounded(cost: nat -> real, lo: real) {
    0.0 < lo && forall k :: cost(k) <= 0.0 || cost(k) >= lo
  }

  ghost predicate NonNegative(cost: nat -> real) {
    forall k :: cost(k) >= 0.0
  }

  lemma CostNonNegative(cost: nat -> real, k: nat)
    requires NonNegative(cost)
    ensures cost(k) >= 0.0
  {
  }

  /** Any interval costs between lo and hi microseconds per iteration, bounds that are close together. */
  ghost predicate Steady(cost: nat -> real, lo: real, hi: real) {
    0.0 < lo && 0.95 * hi < 0.99 * lo && forall k :: lo <= cost(k) <= hi
  }

  /** An exact cost is steady. */
  lemma ExactIsSteady(c: real)
    requires c > 0.0
    ensures Steady(_ => c, c, c)
  {
  }

  /** The measured time asks for another number of iterations. */
  predicate OffTarget(result: real, enough: nat) {
    result < 0.99 * enough as real || result > 1.2 * enough as real
  }

  /** The count that should take a tenth more than enough, at the rate just measured, and one more. */
  function Rescaled(iterations: nat, result: real, enough: nat): (n: nat)
    requires result > 0.0
  {
    var n := (iterations as real / result * (1.1 * enough as real) + 1.0).Floor;
    if n < 0 then 0 else n
  }

  /** Whatever the next interval costs per iteration, it will be long enough to count. */
  ghost predicate Settled(iterations: nat, lo: real, enough: nat) {
    iterations > 0 && lo * iterations as real > 0.95 * enough as real
  }

  // ----- products

  lemma Times(a: real, b: real, x: real)
    requires x > 0.0
    ensures a < b ==> a * x < b * x
    ensures a <= b ==> a * x <= b * x
  {
  }

  lemma SettledIfLong(iterations: nat, c: real, lo: real, hi: real, enough: nat)
    requires 0.0 < lo <= c <= hi && 0.95 * hi < 0.99 * lo && iterations > 0 && enough > 0
    requires c * iterations as real >= 0.99 * enough as real
    ensures Settled(iterations, lo, enough)
  {
    var n := iterations as real;
    Times(c, hi, n);
    Times(0.95 * hi, 0.99 * lo, n);
    assert (0.95 * hi) * n == 0.95 * (hi * n) && (0.99 * lo) * n == 0.99 * (lo * n);
  }

  lemma Reorder(a: real, b: real, c: real)
    ensures a * (b * c) == (b * a) * c
  {
  }

  lemma Associate(a: real, b: real, c: real)
    ensures a * (b * c) == (a * b) * c
  {
  }

  lemma PerIteration(n: real, c: real)
    requires n > 0.0 && c > 0.0
    ensures c * n > 0.0 && c * (n / (c * n)) == 1.0
  {
    Times(0.0, c, n);
    var r := c * n;
    var q := n / r;
    assert q * r == n;
    Reorder(q, c, n);
    var d := c * q;
    if d < 1.0 { Times(d, 1.0, n); }
    if d > 1.0 { Times(1.0, d, n); }
  }

  lemma RescaledLong(iterations: nat, c: real, enough: nat)
    requires iterations > 0 && c > 0.0 && enough > 0
    ensures c * iterations as real > 0.0
    ensures Rescaled(iterations, c * iterations as real, enough) > 0
    ensures c * Rescaled(iterations, c * iterations as real, enough) as real > 1.1 * enough as real
  {
    hide *;
    PerIteration(iterations as real, c);
    var r := c * iterations as real;
    RescaledIs(iterations, r, enough);
    Exceeds(c, iterations as real / r, 1.1 * enough as real, Rescaled(iterations, r, enough));
  }

  lemma RescaledIs(iterations: nat, result: real, enough: nat)
    requires result > 0.0
    ensures var x := (iterations as real / result * (1.1 * enough as real) + 1.0).Floor;
            Rescaled(iterations, result, enough) == if x < 0 then 0 else x
  {
  }

  /** q is what one unit of time makes in iterations; m of them take longer than e. */
  lemma Exceeds(c: real, q: real, e: real, m: nat)
    requires c > 0.0 && c * q == 1.0 && e > 0.0 && m == (var x := (q * e + 1.0).Floor; if x < 0 then 0 else x)
    ensures m > 0 && c * m as real > e
  {
    var x := q * e;
    Associate(c, q, e);
    Unit(c * q, e);
    assert c * x == e;
    if x <= 0.0 { NegativeProduct(c, x); }
    TimesLeft(c, x, m as real);
  }

  lemma Unit(p: real, e: real)
    requires p == 1.0
    ensures p * e == e
  {
  }

  lemma NegativeProduct(c: real, x: real)
    requires c > 0.0 && x <= 0.0
    ensures c * x <= 0.0
  {
  }

  lemma TimesLeft(c: real, a: real, b: real)
    requires c > 0.0 && a < b
    ensures c * a < c * b
  {
  }

  /** One rescaling is enough. */
  lemma SettledIfRescaled(iterations: nat, c: real, lo: real, hi: real, enough: nat)
    requires 0.0 < lo <= c <= hi && 0.95 * hi < 0.99 * lo && iterations > 0 && enough > 0
    ensures c * iterations as real > 0.0
    ensures Settled(Rescaled(iterations, c * iterations as real, enough), lo, enough)
  {
    RescaledLong(iterations, c, enough);
    SettledIfLong(Rescaled(iterations, c * iterations as real, enough), c, lo, hi, enough);
  }

  lemma SettledCounts(iterations: nat, c: real, lo: real, enough: nat)
    requires Settled(iterations, lo, enough) && lo <= c
    ensures c * iterations as real > 0.95 * enough as real
  {
    Times(lo, c, iterations as real);
  }

  // ----- benchmp_interval, one child

  class Child {
    const enough: nat
    const repetitions: nat
    var iterations: nat
    var i: nat
    var cooldown: bool
    const r: Table

    constructor (enough: nat, repetitions: nat)
      ensures this.enough == enough && this.repetitions == repetitions && fresh(r) && fresh(r.v)
      ensures iterations == 1 && i == 0 && !cooldown && r.N == 0 && Valid()
    {
      this.enough, this.repetitions := enough, repetitions;
      iterations, i, cooldown := 1, 0, false;
      r := new Table(repetitions);
    }

    ghost predicate Valid()
      reads this, r, r.v
    {
      && r.Valid() && r.v.Length == Capacity(repetitions) && r.N <= i && iterations > 0
      && (!cooldown ==> i < MaxSamples(repetitions)) && i <= MaxSamples(repetitions)
    }

    /** The timing_interval case, after an interval that took `result` microseconds net of overheads. */
    method Interval(result: real)
      requires Valid() && !cooldown
      modifies this`iterations, this`i, this`cooldown, r, r.v
      ensures Valid()
      ensures var counts := result > 0.95 * enough as real;
              && i == old(i) + (if counts then 1 else 0)
              && r.Entries() == (if counts then Insert(old(r.Entries()), Reading(result, old(iterations)))
                 else old(r.Entries()))
      ensures result > 0.95 * enough as real && result >= 1.0 ==>
                Gains(old(r.Entries()), r.Entries(), result, old(iterations))
      ensures result <= 0.95 * enough as real || result < 1.0 ==> r.Entries() == old(r.Entries())
      ensures var off := result < 0.99 * enough as real || result > 1.2 * enough as real;
              && iterations == (if !off then old(iterations)
                                else if result > 150.0 then Rescaled(old(iterations), result, enough)
                                else 8 * old(iterations))
              && cooldown == (
                   || (result > 0.95 * enough as real && old(i) + 1 >= repetitions)
                   || (off && result <= 150.0 && (iterations > 0x800_0000 || (result < 0.0 && iterations > 0x10_0000))))
    {
      hide Sorted, Insert, Rescaled, MaxSamples, Capacity, Reading, Gains;
      ReadingIs(r.Entries(), result, iterations);
      SamplesFit(repetitions, i);
      if result > 0.95 * enough as real {
        ghost var s := r.Entries();
        InsertSame(s, Reading(result, iterations));
        r.InsertSort(Reading(result, iterations).u, iterations);
        i := i + 1;
        if i >= repetitions { cooldown := true; }
      }
      if OffTarget(result, enough) {
        if result > 150.0 {
          RescaledPositive(iterations, result, enough);
          iterations := Rescaled(iterations, result, enough);
        } else {
          iterations := iterations * 8;
          if iterations > MAX_ITERATIONS || (result < 0.0 && iterations > 0x10_0000) { cooldown := true; }
        }
      }
    }

    lemma NotFull()
      requires Valid() && !cooldown
      ensures i < MaxSamples(repetitions)
    {
    }

    lemma AlonePositive()
      requires Valid()
      ensures iterations > 0
    {
    }

    /** The same for the three fields alone: a sample is one value more in the table. */
    method One(result: real)
      requires Valid() && !cooldown && (enough >= 2 ==> r.N == i)
      modifies this`iterations, this`i, this`cooldown, r, r.v
      ensures Valid() && (enough >= 2 ==> r.N == i)
      ensures AfterOne(old(iterations), old(i), result, iterations, i, cooldown, enough, repetitions)
    {
      hide Rescaled, Insert, Sorted, MaxSamples, Capacity, Gains;
      if enough >= 2 && result > 0.95 * enough as real { CountsOnce(r.Entries(), result, iterations, enough); }
      Interval(result);
    }
  }

  /** There is room for another sample, and it is the last one when there are enough. */
  lemma SamplesFit(repetitions: nat, i: nat)
    ensures MaxSamples(repetitions) <= Capacity(repetitions)
    ensures i < MaxSamples(repetitions) && i + 1 < repetitions ==> i + 1 < MaxSamples(repetitions)
  {
    ChildFits(repetitions);
  }

  /** Even many iterations take no time to speak of. */
  predicate GivesUp(result: real, enough: nat, iterations: nat) {
    OffTarget(result, enough) && result <= 150.0 &&
    (iterations > MAX_ITERATIONS || (result < 0.0 && iterations > 0x10_0000))
  }

  /** The time in whole microseconds, none if overheads were more than that, with the iterations timed. */
  function Reading(result: real, iterations: nat): Value {
    Value(if result >= 0.0 then result.Floor else 0, iterations)
  }

  /** The table holds one value more, of so many iterations, and of that time in whole microseconds. */
  ghost predicate Gains(s: seq<Value>, t: seq<Value>, result: real, iterations: nat) {
    exists v: Value ::
      && multiset(t) == multiset(s) + multiset{v} && v.n == iterations
      && v.u as real <= result < v.u as real + 1.0
  }

  lemma ReadingIs(s: seq<Value>, result: real, iterations: nat)
    ensures Reading(result, iterations).n == iterations
    ensures result >= 1.0 ==>
              Reading(result, iterations).u > 0 && Gains(s, Insert(s, Reading(result, iterations)), result, iterations)
    ensures result < 1.0 ==> Insert(s, Reading(result, iterations)) == s
  {
    hide Place;
    InsertSame(s, Reading(result, iterations));
  }

  /** The count after an interval of n iterations that took r: the time it takes at that rate is a tenth more
      than enough, and exceeds that by less than one iteration. */
  lemma RescaledExact(n: nat, r: real, enough: nat)
    requires n > 0 && r > 0.0 && enough > 0
    ensures var m := Rescaled(n, r, enough);
            m > 0 && (m as real - 1.0) * r <= n as real * (1.1 * enough as real) < m as real * r
  {
    var q, m := n as real / r, Rescaled(n, r, enough);
    assert q * r == n as real;
    RescaledPositive(n, r, enough);
    RescaledIs(n, r, enough);
    hide *;
    var x, e := m as real, 1.1 * enough as real;
    RateTimes(q, r, e, x);
    SameProduct(q * r, n as real, e);
    assert n as real * e < x * r;
  }

  lemma SameProduct(a: real, b: real, y: real)
    requires a == b
    ensures a * y == b * y
  {
  }

  lemma RateTimes(q: real, r: real, y: real, m: real)
    requires r > 0.0 && m - 1.0 <= q * y < m
    ensures (m - 1.0) * r <= (q * r) * y < m * r
  {
    var z := q * y;
    Times(m - 1.0, z, r);
    Times(z, m, r);
    assert z * r == (q * r) * y;
  }

  lemma RescaledPositive(iterations: nat, result: real, enough: nat)
    requires result > 0.0
    ensures Rescaled(iterations, result, enough) > 0
  {
    var x := iterations as real / result * (1.1 * enough as real);
    assert iterations as real / result >= 0.0;
    NotNegative(iterations as real / result, 1.1 * enough as real);
  }

  lemma NotNegative(a: real, b: real)
    requires a >= 0.0 && b >= 0.0
    ensures a * b >= 0.0
  {
  }

  // ----- a child by itself reaches cooldown

  function Pow8(g: nat): nat {
    if g == 0 then 1 else 8 * Pow8(g - 1)
  }

  lemma Pow8Nine()
    ensures Pow8(9) == MAX_ITERATIONS
  {
    assert Pow8(3) == 512;
    assert Pow8(6) == 512 * Pow8(3);
  }

  lemma {:induction false} Pow8Below(g: nat, h: nat)
    requires g <= h
    ensures 0 < Pow8(g) <= Pow8(h)
    decreases h
  {
    if g < h { Pow8Below(g, h - 1); } else if g > 0 { Pow8Below(g - 1, h - 1); }
  }

  /** Nine steps of growth are within the limit, the tenth is not. */
  lemma GrowthLimit(g: nat)
    ensures Pow8(g) > MAX_ITERATIONS <==> g >= 10
  {
    Pow8Nine();
    assert Pow8(10) == 8 * Pow8(9);
    hide Pow8;
    if g >= 10 { Pow8Below(10, g); } else { Pow8Below(g, 9); }
  }

  /** The iterations after an interval at cost c. */
  function Next(iterations: nat, c: real, enough: nat): nat
  {
    var result := c * iterations as real;
    if !OffTarget(result, enough) then iterations
    else if result > 150.0 then Rescaled(iterations, result, enough)
    else 8 * iterations
  }

  /** After an interval of n iterations that took r: as many on target, eight times as many when it was short,
      and otherwise the count that takes a tenth more than enough, rounded up or one more. */
  lemma NextExact(n: nat, c: real, enough: nat)
    requires n > 0 && enough > 0
    ensures var r, m := c * n as real, Next(n, c, enough);
            if 0.99 * enough as real <= r <= 1.2 * enough as real then m == n
            else if r <= 150.0 then m == 8 * n
            else m > 0 && (m as real - 1.0) * r <= n as real * (1.1 * enough as real) < m as real * r
  {
    var r := c * n as real;
    hide Rescaled;
    if r > 150.0 { RescaledExact(n, r, enough); }
  }

  lemma LongSettles(iterations: nat, c: real, lo: real, hi: real, enough: nat)
    requires 0.0 < lo <= c <= hi && 0.95 * hi < 0.99 * lo && iterations > 0 && enough > 0
    requires c * iterations as real > 150.0
    ensures Settled(Next(iterations, c, enough), lo, enough)
  {
    if OffTarget(c * iterations as real, enough) {
      SettledIfRescaled(iterations, c, lo, hi, enough);
    } else {
      SettledIfLong(iterations, c, lo, hi, enough);
    }
  }

  lemma PositiveTime(c: real, n: real)
    requires c > 0.0 && n > 0.0
    ensures c * n > 0.0
  {
  }

  /** An interval that counts leaves one value more in the table. */
  lemma CountsOnce(s: seq<Value>, result: real, iterations: nat, enough: nat)
    requires enough >= 2 && result > 0.95 * enough as real
    ensures |Insert(s, Reading(result, iterations))| == |s| + 1
  {
    InsertSame(s, Reading(result, iterations));
  }

  /** The time n iterations take. */
  function Lasted(c: real, n: nat): real {
    c * n as real
  }

  lemma LastedPositive(c: real, n: nat)
    requires c > 0.0 && n > 0
    ensures Lasted(c, n) > 0.0
  {
    PositiveTime(c, n as real);
  }

  /** How far it got after k intervals. Until the first one of more than 150 microseconds every interval
      multiplies the iterations by 8; after it every interval counts. */
  ghost predicate OnTheWay(n: nat, i: nat, cool: bool, k: nat, settled: bool, lo: real, enough: nat, repetitions: nat) {
    if cool then k <= 10 + i && i <= MaxSamples(repetitions) &&
    (i == MaxSamples(repetitions) || (i == 0 && n > MAX_ITERATIONS))
    else if settled then Settled(n, lo, enough) && k <= 10 + i && i < MaxSamples(repetitions)
    else n == Pow8(k) && n > 0 && i == 0 && k < 10
  }

  /** What one interval of `result` microseconds does to the three fields. */
  ghost predicate AfterOne(n: nat, i: nat, result: real, n': nat, i': nat, cool': bool, enough: nat, repetitions: nat) {
    && i' == (if result > 0.95 * enough as real then i + 1 else i)
    && n' == (if !OffTarget(result, enough) then n else if result > 150.0 then Rescaled(n, result, enough) else 8 * n)
    && cool' == ((i' > i && i' >= repetitions) || GivesUp(result, enough, n'))
  }

  lemma GrowthStep(n: nat, i: nat, k: nat, result: real, n': nat, i': nat, cool': bool, lo: real, enough: nat,
                   repetitions: nat)
    requires OnTheWay(n, i, false, k, false, lo, enough, repetitions) && enough > 158 && 0.0 <= result <= 150.0
    requires AfterOne(n, i, result, n', i', cool', enough, repetitions)
    ensures OnTheWay(n', i', cool', k + 1, false, lo, enough, repetitions)
  {
    hide Rescaled;
    GrowthLimit(k + 1);
    assert Pow8(k + 1) == 8 * Pow8(k);
    hide Pow8;
  }

  lemma LongStep(n: nat, i: nat, k: nat, settled: bool, c: real, n': nat, i': nat, cool': bool, lo: real, hi: real,
                 enough: nat, repetitions: nat)
    requires OnTheWay(n, i, false, k, settled, lo, enough, repetitions) && enough > 158
    requires 0.0 < lo <= c <= hi && 0.95 * hi < 0.99 * lo
    requires Lasted(c, n) > 150.0 && n > 0
    requires AfterOne(n, i, Lasted(c, n), n', i', cool', enough, repetitions)
    ensures OnTheWay(n', i', cool', k + 1, true, lo, enough, repetitions)
  {
    LongSettles(n, c, lo, hi, enough);
    if settled { SettledCounts(n, c, lo, enough); }
    hide Rescaled, Settled, Pow8;
  }

  lemma StillLong(n: nat, i: nat, k: nat, c: real, lo: real, enough: nat, repetitions: nat)
    requires OnTheWay(n, i, false, k, true, lo, enough, repetitions) && enough > 158 && 0.0 < lo <= c
    ensures Lasted(c, n) > 150.0
  {
    SettledCounts(n, c, lo, enough);
  }

  lemma OneMore(n: nat, i: nat, k: nat, settled: bool, c: real, n': nat, i': nat, cool': bool, lo: real, hi: real,
                enough: nat, repetitions: nat)
    requires OnTheWay(n, i, false, k, settled, lo, enough, repetitions) && enough > 158 && n > 0
    requires 0.0 < lo <= c <= hi && 0.95 * hi < 0.99 * lo
    requires AfterOne(n, i, Lasted(c, n), n', i', cool', enough, repetitions)
    ensures OnTheWay(n', i', cool', k + 1, settled || Lasted(c, n) > 150.0, lo, enough, repetitions)
  {
    hide *;
    LastedPositive(c, n);
    if settled { StillLong(n, i, k, c, lo, enough, repetitions); }
    if Lasted(c, n) > 150.0 {
      LongStep(n, i, k, settled, c, n', i', cool', lo, hi, enough, repetitions);
    } else {
      GrowthStep(n, i, k, Lasted(c, n), n', i', cool', lo, enough, repetitions);
    }
  }

  lemma NotYet(n: nat, i: nat, cool: bool, k: nat, settled: bool, lo: real, enough: nat, repetitions: nat)
    requires OnTheWay(n, i, cool, k, settled, lo, enough, repetitions)
    ensures k <= 10 + MaxSamples(repetitions) && (!cool ==> k < 10 + MaxSamples(repetitions))
    ensures cool ==> i == MaxSamples(repetitions) || (i == 0 && n > MAX_ITERATIONS)
  {
  }

  lemma AtStart(lo: real, enough: nat, repetitions: nat)
    ensures OnTheWay(1, 0, false, 0, false, lo, enough, repetitions)
  {
  }

  lemma CostAt(cost: nat -> real, lo: real, hi: real, k: nat)
    requires Steady(cost, lo, hi)
    ensures 0.0 < lo <= cost(k) <= hi && 0.95 * hi < 0.99 * lo
  {
  }

  // ----- whatever the costs

  /** More iterations than this always take long enough, or are too many. */
  function Limit(lo: real, enough: nat): (n: nat)
    requires lo > 0.0
    ensures n >= MAX_ITERATIONS
  {
    var b := (0.95 * enough as real / lo).Floor;
    if b < MAX_ITERATIONS then MAX_ITERATIONS else b
  }

  lemma ShortBelow(n: nat, c: real, lo: real, enough: nat)
    requires 0.0 < lo <= c && n > 0 && Lasted(c, n) <= 0.95 * enough as real
    ensures n <= Limit(lo, enough)
  {
    var e, x := 0.95 * enough as real, n as real;
    Times(lo, c, x);
    var q := e / lo;
    assert q * lo == e;
    assert lo * x == x * lo;
    if q < x { Times(q, x, lo); }
    FloorAtLeast(n, q);
    hide Lasted;
  }

  lemma FloorAtLeast(n: nat, q: real)
    requires n as real <= q
    ensures n <= q.Floor
  {
  }

  /** Rescaling after an interval that was too short multiplies the iterations by more than 1.1 / 0.95. */
  lemma RescaledGrows(n: nat, r: real, enough: nat)
    requires n > 0 && 0.0 < r <= 0.95 * enough as real
    ensures 19 * Rescaled(n, r, enough) >= 22 * n
  {
    var q, y := n as real / r, 1.1 * enough as real;
    assert q * r == n as real && q > 0.0;
    Scale(q, r, y);
    assert Rescaled(n, r, enough) as real > q * y;
  }

  lemma Scale(q: real, r: real, y: real)
    requires q > 0.0 && 22.0 * r <= 19.0 * y
    ensures 22.0 * (q * r) <= 19.0 * (q * y)
  {
    Times(22.0 * r, 19.0 * y, q);
    assert (22.0 * r) * q == 22.0 * (q * r) && (19.0 * y) * q == 19.0 * (q * y);
  }

  /** An interval that was too short makes the next one longer, unless there are too many iterations. */
  lemma ShortGrows(n: nat, c: real, lo: real, enough: nat)
    requires n > 0 && enough > 0 && lo > 0.0 && (c <= 0.0 || c >= lo) && Lasted(c, n) <= 0.95 * enough as real
    ensures OffTarget(Lasted(c, n), enough) && 19 * Next(n, c, enough) >= 22 * n
    ensures Lasted(c, n) > 150.0 || n <= MAX_ITERATIONS ==> n <= Limit(lo, enough)
  {
    if Lasted(c, n) > 150.0 {
      if c <= 0.0 { NoTime(c, n); }
      ShortBelow(n, c, lo, enough);
      RescaledGrows(n, Lasted(c, n), enough);
    }
    hide Rescaled, Limit;
  }

  lemma NoTime(c: real, n: nat)
    requires c <= 0.0
    ensures Lasted(c, n) <= 0.0
  {
    if c < 0.0 && n > 0 { Times(c, 0.0, n as real); }
  }

  /** 22 / 19 to the power k. */
  function Grown(k: nat): real {
    if k == 0 then 1.0 else Grown(k - 1) * 22.0 / 19.0
  }

  /** Five intervals that are too short at least double the iterations. */
  lemma {:induction false} GrownDoubles(m: nat)
    ensures Grown(5 * m) >= Pow2(m) as real
  {
    if m > 0 {
      GrownDoubles(m - 1);
      var k := 5 * (m - 1);
      assert Grown(k + 1) == Grown(k) * 22.0 / 19.0 && Grown(k + 2) == Grown(k + 1) * 22.0 / 19.0;
      assert Grown(k + 3) == Grown(k + 2) * 22.0 / 19.0 && Grown(k + 4) == Grown(k + 3) * 22.0 / 19.0;
      assert Grown(k + 5) == Grown(k + 4) * 22.0 / 19.0;
    }
  }

  lemma {:induction false} GrownMonotone(j: nat, k: nat)
    requires j <= k
    ensures 0.0 < Grown(j) <= Grown(k)
    decreases k
  {
    if j < k { GrownMonotone(j, k - 1); } else if j > 0 { GrownMonotone(j - 1, k - 1); }
  }

  /** How many intervals in a row can be too short. */
  function Quota(lo: real, enough: nat): nat
    requires lo > 0.0
  {
    5 * (NumBits(Limit(lo, enough)) + 1)
  }

  lemma WithinQuota(k: nat, n: nat, lo: real, enough: nat)
    requires lo > 0.0 && Grown(k) <= n as real && n <= Limit(lo, enough)
    ensures k < Quota(lo, enough)
  {
    var b := Limit(lo, enough);
    hide Limit;
    NumBitsBounds(b);
    GrownDoubles(NumBits(b) + 1);
    if k >= Quota(lo, enough) { GrownMonotone(Quota(lo, enough), k); }
  }

  /** t intervals so far, the last k of them without a sample. */
  ghost predicate Paced(n: nat, i: nat, cool: bool, k: nat, t: nat, lo: real, enough: nat, repetitions: nat) {
    && n > 0 && lo > 0.0 && i <= MaxSamples(repetitions)
    && if cool then
         t <= MaxSamples(repetitions) * (Quota(lo, enough) + 1) && (i == MaxSamples(repetitions) || n > 0x10_0000)
       else
         && i < MaxSamples(repetitions) && k <= Quota(lo, enough)
         && Grown(k) <= n as real && t <= i * (Quota(lo, enough) + 1) + k
  }

  lemma PaceBound(i: nat, m: nat, q: nat, k: nat, t: nat)
    requires i < m && k <= q && t <= i * (q + 1) + k
    ensures t + 1 <= (i + 1) * (q + 1) <= m * (q + 1)
  {
    Distribute(i, 1, q + 1);
    MulMonotone(i + 1, m, q + 1);
  }

  lemma PaceCounts(n: nat, i: nat, k: nat, t: nat, r: real, n': nat, i': nat, cool': bool, lo: real, enough: nat,
                   repetitions: nat)
    requires Paced(n, i, false, k, t, lo, enough, repetitions) && n' > 0 && r > 0.95 * enough as real
    requires AfterOne(n, i, r, n', i', cool', enough, repetitions)
    ensures Paced(n', i', cool', 0, t + 1, lo, enough, repetitions)
  {
    hide Quota, Rescaled;
    PaceBound(i, MaxSamples(repetitions), Quota(lo, enough), k, t);
  }

  lemma PaceShort(n: nat, i: nat, k: nat, t: nat, c: real, n': nat, i': nat, cool': bool, lo: real, enough: nat,
                  repetitions: nat)
    requires Paced(n, i, false, k, t, lo, enough, repetitions) && n' > 0 && Lasted(c, n) <= 0.95 * enough as real
    requires enough > 0 && (c <= 0.0 || c >= lo)
    requires AfterOne(n, i, Lasted(c, n), n', i', cool', enough, repetitions)
    ensures Paced(n', i', cool', k + 1, t + 1, lo, enough, repetitions)
  {
    ShortGrows(n, c, lo, enough);
    PaceBound(i, MaxSamples(repetitions), Quota(lo, enough), k, t);
    if !cool' { WithinQuota(k, n, lo, enough); }
    hide Quota, Rescaled, Lasted, Limit;
  }

  lemma PaceStep(n: nat, i: nat, k: nat, t: nat, c: real, n': nat, i': nat, cool': bool, lo: real, enough: nat,
                 repetitions: nat)
    requires Paced(n, i, false, k, t, lo, enough, repetitions) && n' > 0 && enough > 0 && (c <= 0.0 || c >= lo)
    requires AfterOne(n, i, Lasted(c, n), n', i', cool', enough, repetitions)
    ensures Paced(n', i', cool', if i' > i then 0 else k + 1, t + 1, lo, enough, repetitions)
  {
    Counted(n, i, Lasted(c, n), n', i', cool', enough, repetitions);
    hide *;
    if Lasted(c, n) > 0.95 * enough as real {
      PaceCounts(n, i, k, t, Lasted(c, n), n', i', cool', lo, enough, repetitions);
    } else {
      PaceShort(n, i, k, t, c, n', i', cool', lo, enough, repetitions);
    }
  }

  lemma Counted(n: nat, i: nat, r: real, n': nat, i': nat, cool': bool, enough: nat, repetitions: nat)
    requires AfterOne(n, i, r, n', i', cool', enough, repetitions)
    ensures i' > i <==> r > 0.95 * enough as real
  {
  }

  lemma PaceStart(lo: real, enough: nat, repetitions: nat)
    requires lo > 0.0
    ensures Paced(1, 0, false, 0, 0, lo, enough, repetitions)
  {
  }

  lemma PaceEnds(n: nat, i: nat, cool: bool, k: nat, t: nat, lo: real, enough: nat, repetitions: nat)
    requires Paced(n, i, cool, k, t, lo, enough, repetitions)
    ensures lo > 0.0 && i <= MaxSamples(repetitions) && t <= MaxSamples(repetitions) * (Quota(lo, enough) + 1)
    ensures cool ==> i == MaxSamples(repetitions) || n > 0x10_0000
    ensures !cool ==> t < MaxSamples(repetitions) * (Quota(lo, enough) + 1)
  {
    if !cool {
      hide Quota, Grown;
      PaceBound(i, MaxSamples(repetitions), Quota(lo, enough), k, t);
    }
  }

  lemma BoundedAt(cost: nat -> real, lo: real, k: nat)
    requires Bounded(cost, lo)
    ensures 0.0 < lo && (cost(k) <= 0.0 || cost(k) >= lo)
  {
  }

  /** Too many iterations are 2^27, or 2^20 if the overheads exceed the time. */
  lemma TooMany(n: nat, i: nat, c: real, n': nat, i': nat, cool': bool, enough: nat, repetitions: nat)
    requires AfterOne(n, i, Lasted(c, n), n', i', cool', enough, repetitions) && c >= 0.0 && i < MaxSamples(repetitions)
    ensures cool' ==> i' == MaxSamples(repetitions) || n' > MAX_ITERATIONS
  {
    if n > 0 && c > 0.0 { LastedPositive(c, n); }
    assert Lasted(c, n) >= 0.0;
    hide Lasted, Rescaled;
  }

  /** Without a bound below there is no end to it: after any interval there is a cost at which the next one
      neither counts nor gives up. */
  lemma NoEndWithoutBound(n: nat, i: nat, enough: nat, repetitions: nat) returns (c: real, n': nat)
    requires n > 0 && enough > 158
    ensures c > 0.0 && n' > n && AfterOne(n, i, Lasted(c, n), n', i, false, enough, repetitions)
  {
    c := 151.0 / n as real;
    assert Lasted(c, n) == 151.0;
    n' := Rescaled(n, 151.0, enough);
    RescaledGrows(n, 151.0, enough);
    hide Rescaled, Lasted;
  }

  /** benchmp_interval until cooldown, whatever each interval costs per iteration, as long as costs that show
      are not arbitrarily small. At the end the child has its samples, or asked for too many iterations. At
      steady costs no more than ten intervals do not count. */
  method RunAlone(cost: nat -> real, enough: nat, repetitions: nat, ghost lo: real, ghost hi: real)
    returns (child: Child, intervals: nat)
    requires Bounded(cost, lo) && enough > 0
    ensures fresh(child) && child.Valid() && child.cooldown && (enough >= 2 ==> child.r.N == child.i)
    ensures intervals <= MaxSamples(repetitions) * (Quota(lo, enough) + 1)
    ensures child.i == MaxSamples(repetitions) || child.iterations > 0x10_0000
    ensures NonNegative(cost) ==> child.i == MaxSamples(repetitions) || child.iterations > MAX_ITERATIONS
    ensures Steady(cost, lo, hi) && enough > 158 ==>
              && intervals <= 10 + MaxSamples(repetitions)
              && (child.i == MaxSamples(repetitions) || (child.i == 0 && child.iterations > MAX_ITERATIONS))
  {
    hide *;
    child := new Child(enough, repetitions);
    intervals := 0;
    ghost var settled, k, steady := false, 0, Steady(cost, lo, hi) && enough > 158;
    ghost var timed := NonNegative(cost);
    BoundedAt(cost, lo, 0);
    PaceStart(lo, enough, repetitions);
    AtStart(lo, enough, repetitions);
    PaceEnds(child.iterations, child.i, child.cooldown, k, intervals, lo, enough, repetitions);
    while !child.cooldown
      invariant fresh(child) && fresh(child.r) && fresh(child.r.v) && child.Valid()
      invariant child.enough == enough && child.repetitions == repetitions && (enough >= 2 ==> child.r.N == child.i)
      invariant Paced(child.iterations, child.i, child.cooldown, k, intervals, lo, enough, repetitions)
      invariant steady ==> OnTheWay(child.iterations, child.i, child.cooldown, intervals, settled, lo, enough,
                                    repetitions)
      invariant timed && child.cooldown ==> child.i == MaxSamples(repetitions) || child.iterations > MAX_ITERATIONS
      decreases !child.cooldown, MaxSamples(repetitions) * (Quota(lo, enough) + 1) - intervals
    {
      PaceEnds(child.iterations, child.i, child.cooldown, k, intervals, lo, enough, repetitions);
      BoundedAt(cost, lo, intervals);
      var c := cost(intervals);
      ghost var n, i, t := child.iterations, child.i, intervals;
      child.AlonePositive();
      child.NotFull();
      var result := Lasted(c, child.iterations);
      child.One(result);
      child.AlonePositive();
      intervals := intervals + 1;
      PaceStep(n, i, k, t, c, child.iterations, child.i, child.cooldown, lo, enough, repetitions);
      k := if child.i > i then 0 else k + 1;
      if timed {
        CostNonNegative(cost, t);
        TooMany(n, i, c, child.iterations, child.i, child.cooldown, enough, repetitions);
      }
      if steady {
        CostAt(cost, lo, hi, t);
        OneMore(n, i, t, settled, c, child.iterations, child.i, child.cooldown, lo, hi, enough, repetitions);
      }
      settled := settled || result > 150.0;
    }
    PaceEnds(child.iterations, child.i, child.cooldown, k, intervals, lo, enough, repetitions);
    if steady { NotYet(child.iterations, child.i, child.cooldown, intervals, settled, lo, enough, repetitions); }
  }

  // ----- BENCH_INNER

  /** The macro's static iteration count, kept from one use to the next. */
  class Inner {
    var iterations: nat

    constructor ()
      ensures iterations == 1
    {
      iterations := 1;
    }

    /** Times intervals until one is long enough, or gives up with a time of 0. The count saved with the time
        is the one the next interval would use; timed is the one that was timed. */
    method Bench(cost: nat -> real, enough: nat, ghost lo: real, ghost hi: real)
      returns (saved: Value, intervals: nat, ghost timed: nat)
      requires Bounded(cost, lo) && enough > 0 && iterations > 0
      modifies this
      ensures iterations > 0 && 1 <= intervals <= Quota(lo, enough) + 1
      ensures Steady(cost, lo, hi) && enough > 158 ==> intervals <= 12
      ensures var c := cost(intervals - 1);
              if Abandoned(timed, c, enough) then saved == Value(0, timed)
              else
                && Lasted(c, timed) >= 0.95 * enough as real
                && saved == Value(Whole(Lasted(c, timed)), Next(timed, c, enough))
      ensures saved.n == iterations && timed == CountAt(cost, old(iterations), enough, intervals - 1)
      ensures forall k | 0 <= k < intervals - 1 :: TooShort(cost, old(iterations), enough, k)
      ensures !Abandoned(timed, cost(intervals - 1), enough) ==>
                saved.u as real <= cost(intervals - 1) * timed as real < saved.u as real + 1.0
    {
      hide *;
      CountAtFirst(cost, iterations, enough);
      ghost var first := iterations;
      var r: real := 0.0;
      intervals, timed := 0, iterations;
      ghost var settled, steady := false, Steady(cost, lo, hi) && enough > 158;
      BoundedAt(cost, lo, 0);
      ShortAtFirst(iterations, lo, enough);
      if steady { InnerStart(iterations, lo, enough); }
      while r < 0.95 * enough as real
        invariant iterations > 0 && intervals <= Quota(lo, enough) + 1
        invariant r < 0.95 * enough as real ==> InnerPace(iterations, intervals, lo, enough)
        invariant steady && r < 0.95 * enough as real ==> InnerWay(iterations, intervals, settled, lo, enough)
        invariant steady ==> intervals <= 12
        invariant iterations == CountAt(cost, first, enough, intervals)
        invariant intervals > 0 ==> timed == CountAt(cost, first, enough, intervals - 1)
        invariant forall k | 0 <= k < intervals - 1 :: TooShort(cost, first, enough, k)
        invariant r < 0.95 * enough as real && intervals > 0 ==> TooShort(cost, first, enough, intervals - 1)
        invariant r >= 0.95 * enough as real ==>
                    && intervals > 0 && r == Lasted(cost(intervals - 1), timed) &&
                       !Abandoned(timed, cost(intervals - 1), enough)
                    && iterations == Next(timed, cost(intervals - 1), enough)
        decreases r < 0.95 * enough as real, Quota(lo, enough) + 1 - intervals
      {
        InnerQuota(iterations, intervals, lo, enough);
        BoundedAt(cost, lo, intervals);
        var c := cost(intervals);
        timed := iterations;
        r := Lasted(c, iterations);
        if steady {
          InnerBound(timed, intervals, settled, lo, enough);
          CostAt(cost, lo, hi, intervals);
        }
        intervals := intervals + 1;
        if Abandoned(iterations, c, enough) {
          saved := Value(0, iterations);
          return;
        }
        IsShort(cost, first, enough, intervals - 1);
        CountNext(cost, first, enough, intervals - 1);
        InnerGrows(timed, intervals - 1, c, lo, enough);
        if steady { InnerStep(timed, intervals - 1, settled, c, lo, hi, enough); }
        iterations := Next(iterations, c, enough);
        settled := settled || r > 150.0;
      }
      saved := Value(Whole(r), iterations);
      WholeIs(r);
      LastedIs(cost(intervals - 1), timed);
    }
  }

  /** The count timed in interval k, when none before it was given up. */
  function CountAt(cost: nat -> real, first: nat, enough: nat, k: nat): nat {
    if k == 0 then first else Next(CountAt(cost, first, enough, k - 1), cost(k - 1), enough)
  }

  /** Interval k did not last long enough. */
  ghost predicate TooShort(cost: nat -> real, first: nat, enough: nat, k: nat) {
    cost(k) * CountAt(cost, first, enough, k) as real < 0.95 * enough as real
  }

  lemma CountAtFirst(cost: nat -> real, first: nat, enough: nat)
    ensures CountAt(cost, first, enough, 0) == first && 0.0 <= 0.95 * enough as real
  {
  }

  lemma CountNext(cost: nat -> real, first: nat, enough: nat, k: nat)
    ensures CountAt(cost, first, enough, k + 1) == Next(CountAt(cost, first, enough, k), cost(k), enough)
  {
  }

  lemma IsShort(cost: nat -> real, first: nat, enough: nat, k: nat)
    ensures Lasted(cost(k), CountAt(cost, first, enough, k)) < 0.95 * enough as real ==>
              TooShort(cost, first, enough, k)
  {
  }

  lemma LastedIs(c: real, n: nat)
    ensures Lasted(c, n) == c * n as real
  {
  }

  /** The macro breaks off: even so many iterations take no time to speak of. */
  predicate Abandoned(timed: nat, c: real, enough: nat) {
    OffTarget(Lasted(c, timed), enough) && Lasted(c, timed) <= 150.0 && timed > MAX_ITERATIONS
  }

  /** k intervals have been too short. */
  ghost predicate InnerPace(n: nat, k: nat, lo: real, enough: nat) {
    lo > 0.0 && n > 0 && k <= Quota(lo, enough) && Grown(k) <= n as real
  }

  lemma ShortAtFirst(n: nat, lo: real, enough: nat)
    requires n > 0 && enough > 0 && lo > 0.0
    ensures InnerPace(n, 0, lo, enough) && 0.0 < 0.95 * enough as real
  {
  }

  lemma InnerQuota(n: nat, k: nat, lo: real, enough: nat)
    requires InnerPace(n, k, lo, enough)
    ensures k <= Quota(lo, enough)
  {
  }

  lemma InnerGrows(n: nat, k: nat, c: real, lo: real, enough: nat)
    requires InnerPace(n, k, lo, enough) && enough > 0 && (c <= 0.0 || c >= lo) && !Abandoned(n, c, enough)
    ensures Next(n, c, enough) > 0
    ensures Lasted(c, n) < 0.95 * enough as real ==> InnerPace(Next(n, c, enough), k + 1, lo, enough)
  {
    NextPositive(n, c, enough);
    if Lasted(c, n) < 0.95 * enough as real {
      ShortGrows(n, c, lo, enough);
      WithinQuota(k, n, lo, enough);
    }
    hide Next, Lasted, Quota, Limit;
  }

  lemma NextPositive(n: nat, c: real, enough: nat)
    requires n > 0
    ensures Next(n, c, enough) > 0
  {
    if Lasted(c, n) > 150.0 { RescaledPositive(n, Lasted(c, n), enough); }
    hide Rescaled;
  }

  function Whole(x: real): nat {
    if x < 0.0 then 0 else x.Floor
  }

  lemma WholeIs(x: real)
    requires x >= 0.0
    ensures Whole(x) as real <= x < Whole(x) as real + 1.0
  {
  }

  ghost predicate InnerWay(n: nat, k: nat, settled: bool, lo: real, enough: nat) {
    if settled then Settled(n, lo, enough) && k <= 11 else n >= Pow8(k) && k <= 10 && n > 0
  }

  lemma InnerStart(n: nat, lo: real, enough: nat)
    requires n > 0 && enough > 158
    ensures InnerWay(n, 0, false, lo, enough) && 0.0 < 0.95 * enough as real
  {
  }

  lemma InnerBound(n: nat, k: nat, settled: bool, lo: real, enough: nat)
    requires InnerWay(n, k, settled, lo, enough)
    ensures k <= 11
  {
  }

  lemma InnerStep(n: nat, k: nat, settled: bool, c: real, lo: real, hi: real, enough: nat)
    requires InnerWay(n, k, settled, lo, enough) && enough > 158 && n > 0
    requires 0.0 < lo <= c <= hi && 0.95 * hi < 0.99 * lo
    requires !Abandoned(n, c, enough)
    ensures Lasted(c, n) < 0.95 * enough as real ==>
              InnerWay(Next(n, c, enough), k + 1, settled || Lasted(c, n) > 150.0, lo, enough)
  {
    if settled { SettledCounts(n, c, lo, enough); }
    if Lasted(c, n) > 150.0 {
      LongSettles(n, c, lo, hi, enough);
      hide Next, Pow8;
    } else {
      GrowthLimit(k);
      assert Pow8(k + 1) == 8 * Pow8(k);
      hide Pow8, Settled;
    }
  }

  /** n iterations that took r are rescaled to n again exactly when less than one iteration is to be taken away. */
  lemma RescaledSame(n: nat, r: real, enough: nat)
    requires n > 0 && r > 1.2 * enough as real
    ensures Rescaled(n, r, enough) == n <==> n as real * (r - 1.1 * enough as real) <= r
  {
    var q, y, x := n as real / r, 1.1 * enough as real, n as real;
    assert q * r == x && q > 0.0;
    ScaledBack(x, q, r, y);
    WholePart(n, q * y);
  }

  /** q per unit of time, so q * y is x less one or more exactly when ... */
  lemma ScaledBack(x: real, q: real, r: real, y: real)
    requires x > 0.0 && r > 0.0 && q * r == x && 0.0 <= y < r
    ensures 0.0 <= q * y < x && (x - 1.0 <= q * y <==> x * (r - y) <= r)
  {
    if q <= 0.0 { Times(q, 0.0, r); }
    Times(y, r, q);
    NotNegative(q, y);
    assert x * (r - y) == (q * r) * (r - y) == r * (q * r - q * y) == r * (x - q * y);
    var d := x - q * y;
    if d <= 1.0 { Times(d, 1.0, r); } else { Times(1.0, d, r); }
    assert r * d == d * r;
  }

  lemma WholePart(n: nat, z: real)
    requires 0.0 <= z < n as real
    ensures (z + 1.0).Floor == n <==> n as real - 1.0 <= z
  {
  }

  /** The count saved is the count timed exactly when the time was on target, or so little over it that
      n * (r - 1.1 * enough) <= r: after a time that is too short it never is. */
  lemma SavedIsTimed(timed: nat, c: real, enough: nat)
    requires timed > 0 && enough > 0
    ensures var n, r, e := timed as real, Lasted(c, timed), enough as real;
            Next(timed, c, enough) == timed <==>
            0.99 * e <= r <= 1.2 * e || (r > 1.2 * e && r > 150.0 && n * (r - 1.1 * e) <= r)
  {
    var r := Lasted(c, timed);
    if r > 1.2 * enough as real && r > 150.0 {
      RescaledSame(timed, r, enough);
    } else if 150.0 < r < 0.99 * enough as real {
      RescaledMore(timed, r, enough);
    }
    hide Rescaled, Lasted;
  }

  lemma RescaledMore(n: nat, r: real, enough: nat)
    requires n > 0 && 0.0 < r < 0.99 * enough as real
    ensures Rescaled(n, r, enough) > n
  {
    var q, y := n as real / r, 1.1 * enough as real;
    assert q * r == n as real && q > 0.0;
    Times(r, y, q);
    assert r * q < y * q && r * q == q * r && y * q == q * y;
    assert Rescaled(n, r, enough) as real > q * y;
  }

  /** An overlong interval: 1000 iterations of 1 microsecond are saved as 551 iterations. */
  lemma SavedIsNotTimed()
    ensures Lasted(1.0, 1000) == 1000.0 && Next(1000, 1.0, 500) == 551
  {
    assert 1000.0 / 1000.0 * (1.1 * 500.0) + 1.0 == 551.0;
  }
}
