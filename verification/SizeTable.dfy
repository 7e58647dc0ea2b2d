/** cache.c, collect_data: the sizes that are measured, four to each octave. */
module SizeTable {
  import opened Arith
  import opened BitOrder
  import opened MemInit
  import opened CacheSearch

  /** Sample x of the table for start == 4 * quarter. */
  function SizeAt(quarter: nat, x: nat): nat {
    Step(quarter, x) * (4 + x % 4)
  }

  /** incr for sample x: it doubles after every fourth one. */
  function Step(quarter: nat, x: nat): nat {
    quarter * Pow2(x / 4)
  }

  lemma StepDoubles(quarter: nat, x: nat)
    ensures x % 4 == 3 ==> Step(quarter, x + 1) == 2 * Step(quarter, x)
    ensures x % 4 != 3 ==> Step(quarter, x + 1) == Step(quarter, x)
    ensures (x + 1) % 4 == if x % 4 == 3 then 0 else x % 4 + 1
  {
    var k := x / 4;
    assert x == 4 * k + x % 4;
    if x % 4 == 3 {
      assert (x + 1) / 4 == k + 1;
      MulAssoc(quarter, 2, Pow2(k));
    } else {
      assert (x + 1) / 4 == k;
    }
  }

  /** Each size is the one before plus the step. */
  lemma SizeGrows(quarter: nat, x: nat)
    ensures SizeAt(quarter, x + 1) == SizeAt(quarter, x) + Step(quarter, x)
  {
    StepDoubles(quarter, x);
    Distribute(4 + x % 4, 1, Step(quarter, x));
    if x % 4 == 3 { assert SizeAt(quarter, x + 1) == 2 * Step(quarter, x) * 4; }
  }

  lemma StepPositive(quarter: nat, x: nat)
    requires quarter > 0
    ensures Step(quarter, x) >= quarter && 4 * Step(quarter, x) <= SizeAt(quarter, x) < 8 * Step(quarter, x)
  {
    MulMonotone(1, Pow2(x / 4), quarter);
    var g := Step(quarter, x);
    MulMonotone(4, 4 + x % 4, g);
    MulMonotone(4 + x % 4, 7, g);
  }

  lemma {:induction false} SizesIncrease(quarter: nat, x: nat, y: nat)
    requires quarter > 0 && x < y
    ensures SizeAt(quarter, x) < SizeAt(quarter, y)
    decreases y
  {
    SizeGrows(quarter, y - 1);
    StepPositive(quarter, y - 1);
    if x < y - 1 { SizesIncrease(quarter, x, y - 1); }
  }

  function Sizes(quarter: nat, n: nat): seq<nat> {
    seq(n, x requires 0 <= x < n => SizeAt(quarter, x))
  }

  /** The first pair of loops: how many sizes there are up to maxlen. */
  method CountSizes(quarter: nat, maxlen: nat) returns (samples: nat)
    requires quarter > 0
    ensures SizeAt(quarter, samples) > maxlen && forall x | 0 <= x < samples :: SizeAt(quarter, x) <= maxlen
  {
    samples := 0;
    var len, incr := 4 * quarter, quarter;
    AtFirst(quarter);
    hide SizeAt, Step;
    while len <= maxlen
      invariant samples % 4 == 0 || len > maxlen
      invariant len == SizeAt(quarter, samples) && (len <= maxlen ==> incr == Step(quarter, samples))
      invariant forall x | 0 <= x < samples :: SizeAt(quarter, x) <= maxlen
      decreases maxlen - len
    {
      ghost var before := len;
      var i := 0;
      while i < 4 && len <= maxlen
        invariant 0 <= i <= 4 && len == SizeAt(quarter, samples) && before <= len && (i > 0 ==> before < len)
        invariant i < 4 ==> samples % 4 == i && incr == Step(quarter, samples)
        invariant i == 4 ==> samples % 4 == 0 && 2 * incr == Step(quarter, samples)
        invariant forall x | 0 <= x < samples :: SizeAt(quarter, x) <= maxlen
      {
        SizeGrows(quarter, samples);
        StepDoubles(quarter, samples);
        StepPositive(quarter, samples);
        samples, i, len := samples + 1, i + 1, len + incr;
      }
      incr := incr * 2;
    }
  }

  lemma AtFirst(quarter: nat)
    ensures SizeAt(quarter, 0) == 4 * quarter && Step(quarter, 0) == quarter
  {
  }

  /** The second pair of loops fills exactly the table that was allocated. */
  method FillSizes(quarter: nat, maxlen: nat, p: array<nat>)
    requires quarter > 0
    requires SizeAt(quarter, p.Length) > maxlen && forall x | 0 <= x < p.Length :: SizeAt(quarter, x) <= maxlen
    modifies p
    ensures p[..] == Sizes(quarter, p.Length)
  {
    var idx := 0;
    var len, incr := 4 * quarter, quarter;
    AtFirst(quarter);
    hide SizeAt, Step;
    while len <= maxlen
      invariant 0 <= idx <= p.Length && (idx % 4 == 0 || len > maxlen)
      invariant len == SizeAt(quarter, idx) && (len <= maxlen ==> incr == Step(quarter, idx))
      invariant forall x | 0 <= x < idx :: p[x] == SizeAt(quarter, x)
      decreases maxlen - len
    {
      ghost var before := len;
      var i := 0;
      while i < 4 && len <= maxlen
        invariant 0 <= i <= 4 && len == SizeAt(quarter, idx) && before <= len && (i > 0 ==> before < len)
        invariant 0 <= idx <= p.Length
        invariant i < 4 ==> idx % 4 == i && incr == Step(quarter, idx)
        invariant i == 4 ==> idx % 4 == 0 && 2 * incr == Step(quarter, idx)
        invariant forall x | 0 <= x < idx :: p[x] == SizeAt(quarter, x)
      {
        Inside(quarter, maxlen, p.Length, idx);
        p[idx] := len;
        SizeGrows(quarter, idx);
        StepDoubles(quarter, idx);
        StepPositive(quarter, idx);
        idx, i, len := idx + 1, i + 1, len + incr;
      }
      incr := incr * 2;
    }
  }

  lemma Inside(quarter: nat, maxlen: nat, n: nat, idx: nat)
    requires quarter > 0 && idx <= n && SizeAt(quarter, idx) <= maxlen < SizeAt(quarter, n)
    ensures idx < n
  {
  }

  // ----- what the search makes of the sizes

  lemma Quotient(size: nat, h: nat, a: nat, m: nat)
    requires h > 0 && m > 0 && size == a * h
    ensures size % (m * h) == 0 || size % (m * h) >= h
  {
    var p, q, r := m * h, size / (m * h), size % (m * h);
    MulMonotone(1, m, h);
    assert size == q * p + r;
    MulAssoc(q, m, h);
    Distribute(a - q * m, q * m, h);
    assert r == (a - q * m) * h;
    if a - q * m < 0 { MulMonotone(a - q * m, -1, h); }
    if a - q * m >= 1 { MulMonotone(1, a - q * m, h); }
  }

  lemma Pow2IsPow2(n: nat)
    ensures IsPow2(Pow2(n))
  {
    NumBitsPow2(n);
  }

  lemma StepIsPow2(quarter: nat, x: nat)
    requires IsPow2(quarter)
    ensures IsPow2(Step(quarter, x))
  {
    Pow2Add(NumBits(quarter), x / 4);
    Pow2IsPow2(NumBits(quarter) + x / 4);
  }

  lemma QuarterPage(pagesize: nat) returns (h: nat)
    requires IsPow2(pagesize) && 4 <= pagesize
    ensures pagesize == 4 * h && IsPow2(h) && h > 0
  {
    var n := NumBits(pagesize);
    TwoBits(pagesize);
    FourTimes(n - 2);
    Pow2IsPow2(n - 2);
    h := Pow2(n - 2);
  }

  lemma TwoBits(x: nat)
    requires x >= 4
    ensures NumBits(x) >= 2
  {
    assert NumBits(x) == 1 + NumBits(x / 2);
  }

  lemma FourTimes(n: nat)
    ensures Pow2(n + 2) == Pow2(n) * 4
  {
    assert Pow2(n + 2) == 2 * Pow2(n + 1);
  }

  lemma AtLeast(g: nat, h: nat)
    requires IsPow2(g) && IsPow2(h) && h < 2 * g
    ensures h <= g
  {
    if g < h {
      IsPow2Quotient(g, h);
      if NumBits(h) > NumBits(g) { MulMonotone(2, Pow2(NumBits(h) - NumBits(g)), g); }
    }
  }

  /** Every size can be measured: none is less than a line, and what is left over of whole pages is a
      multiple of a quarter page. */
  lemma SizesMeasurable(quarter: nat, x: nat, line: nat, pagesize: nat, ntotal: nat)
    requires IsPow2(quarter) && IsPow2(line) && IsPow2(pagesize) && line <= 4 * quarter && 4 * line <= pagesize
    requires NPages(SizeAt(quarter, x), pagesize) <= ntotal
    ensures Measurable(SizeAt(quarter, x), line, pagesize, ntotal)
  {
    var size := SizeAt(quarter, x);
    StepPositive(quarter, x);
    if size < pagesize { DivUnique(size, pagesize, 0, size); } else { LeftOver(quarter, x, line, pagesize); }
    hide SizeAt, NPages, IsPow2;
  }

  lemma LeftOver(quarter: nat, x: nat, line: nat, pagesize: nat)
    requires IsPow2(quarter) && IsPow2(line) && IsPow2(pagesize) && 4 * line <= pagesize <= SizeAt(quarter, x)
    ensures SizeAt(quarter, x) % pagesize == 0 || SizeAt(quarter, x) % pagesize >= line
  {
    hide *;
    Positive(quarter);
    Positive(line);
    StepPositive(quarter, x);
    StepIsPow2(quarter, x);
    var g := Step(quarter, x);
    var h := QuarterPage(pagesize);
    AtLeast(g, h);
    IsPow2Quotient(h, g);
    var q := Pow2(NumBits(g) - NumBits(h));
    SizeIn(quarter, x, q, h);
    Quotient(SizeAt(quarter, x), h, (4 + x % 4) * q, 4);
  }

  lemma Positive(n: nat)
    requires IsPow2(n)
    ensures n > 0
  {
  }

  lemma SizeIn(quarter: nat, x: nat, q: nat, h: nat)
    requires Step(quarter, x) == q * h
    ensures SizeAt(quarter, x) == ((4 + x % 4) * q) * h
  {
    MulAssoc(4 + x % 4, q, h);
  }

  /** What every sample but the last needs of the buffer: either none of them takes more than a page, or there
      is room for two more pages than the largest of them takes. */
  predicate Roomy(maxlen: nat, pagesize: nat)
    requires pagesize > 0
  {
    || 2 * maxlen < 3 * pagesize
    || maxlen > 8 * pagesize
    || (maxlen > 5 * pagesize && maxlen % pagesize != 0)
  }

  /** Powers of two: a quarter page or less, half a page, a page, or two pages and more. */
  lemma StepInPages(g: nat, pagesize: nat)
    requires IsPow2(g) && IsPow2(pagesize)
    ensures 8 * g <= pagesize || 4 * g == pagesize || 2 * g == pagesize || g == pagesize || g >= 2 * pagesize
  {
    var n, m := NumBits(g), NumBits(pagesize);
    if n < m {
      if m == n + 1 { assert Pow2(m) == 2 * Pow2(n); }
      if m == n + 2 { FourTimes(n); }
      if m > n + 2 { EightTimes(n); Pow2Order(n + 3, m); }
    } else if n > m {
      assert Pow2(m + 1) == 2 * Pow2(m);
      Pow2Order(m + 1, n);
    }
  }

  lemma EightTimes(n: nat)
    ensures Pow2(n + 3) == Pow2(n) * 8
  {
    FourTimes(n);
    assert Pow2(n + 3) == 2 * Pow2(n + 2);
  }

  lemma {:induction false} Pow2Order(m: nat, n: nat)
    requires m <= n
    ensures Pow2(m) <= Pow2(n)
    decreases n
  {
    if m < n { Pow2Order(m, n - 1); }
  }

  lemma Pages(x: nat, q: nat, pagesize: nat)
    requires pagesize > 0
    ensures x <= q * pagesize ==> NPages(x, pagesize) <= q
    ensures x > q * pagesize ==> NPages(x, pagesize) > q
    ensures x % pagesize != 0 ==> x != q * pagesize
  {
    var p := NPages(x, pagesize);
    if x == 0 { DivUnique(pagesize - 1, pagesize, 0, pagesize - 1); } else { CeilBounds(x, pagesize); }
    if x <= q * pagesize && p > q { MulMonotone(q, p - 1, pagesize); }
    if x > q * pagesize && p <= q { MulMonotone(p, q, pagesize); }
    if x == q * pagesize { DivUnique(x, pagesize, q, 0); }
  }

  /** A sample of more than one page that is not the last leaves two pages of the buffer to spare. */
  lemma SpareTwo(quarter: nat, x: nat, maxlen: nat, pagesize: nat)
    requires IsPow2(quarter) && IsPow2(pagesize) && SizeAt(quarter, x + 1) <= maxlen && Roomy(maxlen, pagesize)
    requires NPages(SizeAt(quarter, x), pagesize) > 1
    ensures NPages(SizeAt(quarter, x), pagesize) + 2 <= NPages(maxlen, pagesize)
  {
    hide *;
    Positive(quarter);
    Positive(pagesize);
    StepIsPow2(quarter, x);
    SizeGrows(quarter, x);
    StepPositive(quarter, x);
    StepInPages(Step(quarter, x), pagesize);
    SizeIs(quarter, x);
    Pages(SizeAt(quarter, x), 1, pagesize);
    RoomyIs(maxlen, pagesize);
    Spared(SizeAt(quarter, x), Step(quarter, x), x % 4, maxlen, pagesize);
  }

  lemma SizeIs(quarter: nat, x: nat)
    ensures SizeAt(quarter, x) == Step(quarter, x) * (4 + x % 4)
  {
  }

  lemma RoomyIs(maxlen: nat, pagesize: nat)
    requires pagesize > 0
    ensures Roomy(maxlen, pagesize) <==>
            2 * maxlen < 3 * pagesize || maxlen > 8 * pagesize || (maxlen > 5 * pagesize && maxlen % pagesize != 0)
  {
  }

  lemma Spared(size: nat, g: nat, a: nat, maxlen: nat, pagesize: nat)
    requires a < 4 && size == g * (4 + a) && size + g <= maxlen && pagesize > 0 && size > pagesize
    requires 8 * g <= pagesize || 4 * g == pagesize || 2 * g == pagesize || g == pagesize || g >= 2 * pagesize
    requires 2 * maxlen < 3 * pagesize || maxlen > 8 * pagesize || (maxlen > 5 * pagesize && maxlen % pagesize != 0)
    ensures NPages(size, pagesize) + 2 <= NPages(maxlen, pagesize)
  {
    MulMonotone(4 + a, 7, g);
    MulMonotone(4, 4 + a, g);
    if g >= 2 * pagesize {
      hide *;
      TwoMore(size, maxlen, pagesize);
    } else if g == pagesize {
      Distribute(4 + a, 1, pagesize);
      hide *;
      Pages(size, 4 + a, pagesize);
      Pages(maxlen, 5 + a, pagesize);
    } else if 2 * g == pagesize {
      hide *;
      Pages(size, 4, pagesize);
      Pages(maxlen, 5, pagesize);
    } else {
      assert 4 * g == pagesize && a >= 1;
      hide *;
      MulMonotone(5, 4 + a, g);
      Pages(size, 4, pagesize);
      Pages(maxlen, 5, pagesize);
    }
  }

  lemma TwoMore(size: nat, maxlen: nat, pagesize: nat)
    requires pagesize > 0 && size > 0 && size + 2 * pagesize <= maxlen
    ensures NPages(size, pagesize) + 2 <= NPages(maxlen, pagesize)
  {
    var p := NPages(size, pagesize);
    CeilBounds(size, pagesize);
    hide *;
    Distribute(p - 1, 2, pagesize);
    Pages(maxlen, p + 1, pagesize);
  }

  /** What collect_sample asks of its caller. */
  lemma SampleReady(quarter: nat, x: nat, maxlen: nat, line: nat, pagesize: nat)
    requires IsPow2(quarter) && IsPow2(line) && IsPow2(pagesize) && line <= 4 * quarter && 4 * line <= pagesize
    requires SizeAt(quarter, x + 1) <= maxlen && Roomy(maxlen, pagesize)
    ensures Collectable(SizeAt(quarter, x), line, pagesize, NPages(maxlen, pagesize))
  {
    var size := SizeAt(quarter, x);
    StepPositive(quarter, x);
    SizeGrows(quarter, x);
    if NPages(size, pagesize) > 1 {
      SpareTwo(quarter, x, maxlen, pagesize);
    } else {
      Pages(maxlen, 0, pagesize);
    }
    SizesMeasurable(quarter, x, line, pagesize, NPages(maxlen, pagesize));
  }

  /** What the samples before the last are ready for. */
  ghost predicate AllReady(quarter: nat, maxlen: nat, line: nat, pagesize: nat)
    requires pagesize > 0
  {
    forall x: nat :: Before(quarter, x, maxlen) ==>
    Collectable(SizeAt(quarter, x), line, pagesize, NPages(maxlen, pagesize))
  }

  /** Sample x is not the last. */
  predicate Before(quarter: nat, x: nat, maxlen: nat) {
    SizeAt(quarter, x + 1) <= maxlen
  }

  /** The sizes start at a page or less: every sample search may collect is ready exactly on a roomy buffer. */
  lemma ReadyExact(quarter: nat, maxlen: nat, line: nat, pagesize: nat)
    requires IsPow2(quarter) && IsPow2(line) && IsPow2(pagesize) && line <= 4 * quarter <= pagesize &&
             4 * line <= pagesize
    ensures AllReady(quarter, maxlen, line, pagesize) <==> Roomy(maxlen, pagesize)
  {
    if Roomy(maxlen, pagesize) {
      forall x: nat | Before(quarter, x, maxlen)
        ensures Collectable(SizeAt(quarter, x), line, pagesize, NPages(maxlen, pagesize))
      {
        SampleReady(quarter, x, maxlen, line, pagesize);
      }
    } else {
      var x := NotReady(quarter, maxlen, pagesize);
      assert Before(quarter, x, maxlen);
    }
  }

  /** The sample of a = 2^j * (4 + i) quarter pages. */
  lemma SampleOf(quarter: nat, pagesize: nat, j: nat, i: nat, a: nat) returns (x: nat)
    requires IsPow2(quarter) && IsPow2(pagesize) && 4 * quarter <= pagesize && i < 4 && a == Pow2(j) * (4 + i)
    ensures 4 * SizeAt(quarter, x) == a * pagesize
    ensures 4 * SizeAt(quarter, x + 1) == (a + Pow2(j)) * pagesize
  {
    hide *;
    Positive(quarter);
    QuarterBits(quarter, pagesize);
    var k := NumBits(pagesize) - 2 - NumBits(quarter);
    x := 4 * (k + j) + i;
    StepAt(quarter, pagesize, k, j, i);
    SizeGrows(quarter, x);
    SizeIs(quarter, x);
    Quarters(pagesize, Pow2(j), Step(quarter, x), i, a, SizeAt(quarter, x));
  }

  lemma Quarters(p: nat, b: nat, g: nat, i: nat, a: nat, size: nat)
    requires p * b == 4 * g && size == g * (4 + i) && a == b * (4 + i)
    ensures 4 * size == a * p && 4 * (size + g) == (a + b) * p
  {
    assert a * p == (p * b) * (4 + i);
    assert (a + b) * p == a * p + p * b;
  }

  lemma QuarterBits(quarter: nat, pagesize: nat)
    requires IsPow2(quarter) && IsPow2(pagesize) && 4 * quarter <= pagesize
    ensures NumBits(quarter) + 2 <= NumBits(pagesize)
  {
    var n, m := NumBits(quarter), NumBits(pagesize);
    FourTimes(n);
    assert Pow2(n + 2) == 2 * Pow2(n + 1);
    if m < n + 2 { Pow2Order(m, n + 1); }
  }

  lemma StepAt(quarter: nat, pagesize: nat, k: nat, j: nat, i: nat)
    requires IsPow2(quarter) && IsPow2(pagesize) && k + 2 + NumBits(quarter) == NumBits(pagesize) && i < 4
    ensures (4 * (k + j) + i) % 4 == i && pagesize * Pow2(j) == 4 * Step(quarter, 4 * (k + j) + i)
  {
    hide *;
    PageIs(quarter, pagesize, k);
    Pow2Add(k, j);
    StepIs(quarter, k + j, i);
    Fours(quarter, Pow2(k), Pow2(j), pagesize);
  }

  lemma StepIs(quarter: nat, k: nat, i: nat)
    requires i < 4
    ensures Step(quarter, 4 * k + i) == quarter * Pow2(k) && (4 * k + i) % 4 == i
  {
    assert (4 * k + i) / 4 == k;
  }

  lemma PageIs(quarter: nat, pagesize: nat, k: nat)
    requires IsPow2(quarter) && IsPow2(pagesize) && k + 2 + NumBits(quarter) == NumBits(pagesize)
    ensures pagesize == quarter * Pow2(k) * 4
  {
    Pow2Add(NumBits(quarter), k);
    FourTimes(NumBits(quarter) + k);
  }

  lemma Fours(a: nat, b: nat, c: nat, p: nat)
    requires p == a * b * 4
    ensures 4 * (a * (b * c)) == p * c
  {
  }

  lemma Unready(size: nat, lo: nat, maxlen: nat, pagesize: nat)
    requires pagesize > 0 && lo >= 1 && size > lo * pagesize && maxlen <= (lo + 2) * pagesize
    ensures 1 < NPages(size, pagesize) && NPages(maxlen, pagesize) < NPages(size, pagesize) + 2
  {
    hide NPages;
    Pages(size, lo, pagesize);
    Pages(maxlen, lo + 2, pagesize);
  }

  /** On any other buffer some sample search may collect leaves one page to spare or none. */
  lemma NotReady(quarter: nat, maxlen: nat, pagesize: nat) returns (x: nat)
    requires IsPow2(quarter) && IsPow2(pagesize) && 4 * quarter <= pagesize && pagesize > 0 && !Roomy(maxlen, pagesize)
    ensures SizeAt(quarter, x + 1) <= maxlen
    ensures 1 < NPages(SizeAt(quarter, x), pagesize) && NPages(maxlen, pagesize) < NPages(SizeAt(quarter, x),
            pagesize) + 2
  {
    hide *;
    RoomyIs(maxlen, pagesize);
    Twos();
    if maxlen <= 3 * pagesize {
      x := SampleOf(quarter, pagesize, 0, 1, 5);
      Unready(SizeAt(quarter, x), 1, maxlen, pagesize);
    } else if maxlen <= 4 * pagesize {
      x := SampleOf(quarter, pagesize, 1, 1, 10);
      Unready(SizeAt(quarter, x), 2, maxlen, pagesize);
    } else if maxlen <= 5 * pagesize {
      x := SampleOf(quarter, pagesize, 1, 3, 14);
      Unready(SizeAt(quarter, x), 3, maxlen, pagesize);
    } else {
      x := NextIsAll(quarter, maxlen, pagesize);
    }
  }

  lemma NextIsAll(quarter: nat, maxlen: nat, pagesize: nat) returns (x: nat)
    requires IsPow2(quarter) && IsPow2(pagesize) && 4 * quarter <= pagesize && pagesize > 0
    requires 5 * pagesize < maxlen <= 8 * pagesize && maxlen % pagesize == 0
    ensures SizeAt(quarter, x + 1) <= maxlen
    ensures 1 < NPages(SizeAt(quarter, x), pagesize) && NPages(maxlen, pagesize) < NPages(SizeAt(quarter, x),
            pagesize) + 2
  {
    hide *;
    Twos();
    var q := WholePages(maxlen, pagesize);
    x := SampleOf(quarter, pagesize, 2, q - 5, 4 * (q - 1));
    Sized(SizeAt(quarter, x), SizeAt(quarter, x + 1), q, maxlen, pagesize);
    Unready(SizeAt(quarter, x), q - 2, maxlen, pagesize);
  }

  lemma Twos()
    ensures Pow2(0) == 1 && Pow2(1) == 2 && Pow2(2) == 4
  {
  }

  lemma WholePages(maxlen: nat, pagesize: nat) returns (q: nat)
    requires pagesize > 0 && 5 * pagesize < maxlen <= 8 * pagesize && maxlen % pagesize == 0
    ensures maxlen == q * pagesize && 6 <= q <= 8
  {
    q := maxlen / pagesize;
    if q < 6 { MulMonotone(q, 5, pagesize); }
    if q > 8 { MulMonotone(9, q, pagesize); }
  }

  lemma Sized(size: nat, next: nat, q: nat, maxlen: nat, pagesize: nat)
    requires q >= 6 && maxlen == q * pagesize && pagesize > 0
    requires 4 * size == 4 * (q - 1) * pagesize && 4 * next == (4 * (q - 1) + 4) * pagesize
    ensures size > (q - 2) * pagesize && next == maxlen == (q - 2 + 2) * pagesize
  {
    Distribute(q - 2, 1, pagesize);
  }

  /** Pages of 512 words and a buffer of eight of them: sample 23 takes seven, and is not the last. */
  lemma OneSpare()
    ensures SizeAt(16, 23) == 3584 && SizeAt(16, 24) == 4096
    ensures !Roomy(4096, 512) && !Collectable(SizeAt(16, 23), 8, 512, NPages(4096, 512))
  {
    assert Pow2(5) == 32 && Pow2(6) == 64;
  }
}
