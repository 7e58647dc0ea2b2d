/**
 The two orders in which memory is visited: bit-reversed (words_initialize) and
 randomly shuffled (permutation).
 */
module BitOrder {
  import opened Arith
  import opened Chains
  import opened PageChains

  function Pow2(n: nat): (r: nat)
    ensures r > 0
  {
    if n == 0 then 1 else 2 * Pow2(n - 1)
  }

  /** The low n bits of i, in reverse order. */
  function Rev(n: nat, i: nat): nat {
    if n == 0 then 0 else (if i % 2 == 1 then Pow2(n - 1) else 0) + Rev(n - 1, i / 2)
  }

  /** The number of bits of max after its leading one. */
  function NumBits(max: nat): nat {
    if max < 2 then 0 else 1 + NumBits(max / 2)
  }

  lemma {:induction false} NumBitsBounds(max: nat)
    requires max > 0
    ensures Pow2(NumBits(max)) <= max < 2 * Pow2(NumBits(max))
  {
    if max >= 2 { NumBitsBounds(max / 2); }
  }

  lemma {:induction false} NumBitsPow2(n: nat)
    ensures NumBits(Pow2(n)) == n
  {
    if n > 0 { NumBitsPow2(n - 1); }
  }

  lemma {:induction false} RevBound(n: nat, i: nat)
    ensures Rev(n, i) < Pow2(n)
  {
    if n > 0 { RevBound(n - 1, i / 2); }
  }

  /** Setting bit n of a number of n bits. */
  function Top(n: nat, i: nat, b: bool): nat {
    if b then i + Pow2(n) else i
  }

  lemma {:induction false} RevTop(n: nat, i: nat, b: bool)
    requires i < Pow2(n)
    ensures Rev(n + 1, Top(n, i, b)) == 2 * Rev(n, i) + (if b then 1 else 0)
  {
    if n == 0 {
      assert Rev(1, Top(0, i, b)) == (if b then Pow2(0) else 0) + Rev(0, Top(0, i, b) / 2);
    } else {
      var x := Top(n, i, b);
      assert x % 2 == i % 2 && x / 2 == Top(n - 1, i / 2, b);
      RevTop(n - 1, i / 2, b);
    }
  }

  lemma {:induction false} RevRev(n: nat, i: nat)
    requires i < Pow2(n)
    ensures Rev(n, Rev(n, i)) == i
  {
    if n > 0 {
      RevRev(n - 1, i / 2);
      RevBound(n - 1, i / 2);
      RevTop(n - 1, Rev(n - 1, i / 2), i % 2 == 1);
    }
  }

  lemma RevInjective(n: nat, i: nat, j: nat)
    requires i < Pow2(n) && j < Pow2(n) && Rev(n, i) == Rev(n, j)
    ensures i == j
  {
    RevRev(n, i);
    RevRev(n, j);
  }

  lemma {:induction false} Pow2Add(m: nat, k: nat)
    ensures Pow2(m + k) == Pow2(m) * Pow2(k)
  {
    if m > 0 {
      Pow2Add(m - 1, k);
      MulAssoc(2, Pow2(m - 1), Pow2(k));
    }
  }

  /** The first 2^m entries of the longer order are the shorter order, spread out. */
  lemma {:induction false} RevPrefix(m: nat, n: nat, i: nat)
    requires m <= n && i < Pow2(m)
    ensures Rev(n, i) == Rev(m, i) * Pow2(n - m)
  {
    if m == 0 {
      RevZero(n);
    } else {
      RevPrefix(m - 1, n - 1, i / 2);
      Pow2Add(m - 1, n - m);
      Distribute(if i % 2 == 1 then Pow2(m - 1) else 0, Rev(m - 1, i / 2), Pow2(n - m));
    }
  }

  lemma {:induction false} RevZero(n: nat)
    ensures Rev(n, 0) == 0
  {
    if n > 0 { RevZero(n - 1); }
  }

  /** The bit-reversed order, as byte offsets: what words_initialize fills in. */
  function WordOrder(max: nat, scale: nat): seq<int> {
    seq(max, i requires 0 <= i < max => Rev(NumBits(max), i) * scale)
  }

  /** w >> b */
  function Shr(w: nat, b: nat): nat {
    if b == 0 then w else Shr(w, b - 1) / 2
  }

  predicate BitSet(w: nat, b: nat) {
    Shr(w, b) % 2 == 1
  }

  /** Bit b set in w. */
  function SetBit(w: nat, b: nat): nat {
    if BitSet(w, b) then w else w + Pow2(b)
  }

  lemma {:induction false} ShrMultiple(q: nat, b: nat)
    ensures q * Pow2(b) >= 0 && Shr(q * Pow2(b), b) == q
    decreases b
  {
    if b > 0 {
      MulAssoc(q, 2, Pow2(b - 1));
      ShrMultiple(2 * q, b - 1);
    }
  }

  /** Bit b is clear in a multiple of 2^(b+1). */
  lemma ClearBit(w: nat, q: nat, b: nat)
    requires w == q * Pow2(b + 1)
    ensures SetBit(w, b) == w + Pow2(b)
    ensures w == (2 * q) * Pow2(b) && w + Pow2(b) == (2 * q + 1) * Pow2(b)
  {
    MulAssoc(q, 2, Pow2(b));
    ShrMultiple(2 * q, b);
  }

  lemma RevStep(i: nat, nbits: nat, j: nat, w: nat, q: nat)
    requires j < nbits && w == q * Pow2(nbits - j)
    ensures var b := nbits - j - 1;
            var w', q' := if BitSet(i, j) then SetBit(w, b) else w, if BitSet(i, j) then 2 * q + 1 else 2 * q;
            && w' == q' * Pow2(b)
            && w' + Rev(b, Shr(i, j + 1)) == w + Rev(nbits - j, Shr(i, j))
  {
    ClearBit(w, q, nbits - j - 1);
  }

  /** The loop that reverses the low nbits bits of i. */
  method ReverseBits(i: nat, nbits: nat) returns (w: nat)
    ensures w == Rev(nbits, i)
  {
    w := 0;
    ghost var q := 0;
    var j := 0;
    assert Shr(i, 0) == i;
    while j < nbits
      invariant j <= nbits
      invariant w == q * Pow2(nbits - j)
      invariant w + Rev(nbits - j, Shr(i, j)) == Rev(nbits, i)
    {
      RevStep(i, nbits, j, w, q);
      if BitSet(i, j) {
        w, q := SetBit(w, nbits - j - 1), 2 * q + 1;
      } else {
        q := 2 * q;
      }
      j := j + 1;
    }
  }

  /** Bit i of the reversal is bit n - 1 - i of the number. */
  lemma {:induction false} RevBit(n: nat, x: nat, i: nat)
    requires i < n
    ensures Rev(n, x) / Pow2(i) % 2 == x / Pow2(n - 1 - i) % 2
  {
    var b, r := x % 2, Rev(n - 1, x / 2);
    RevBound(n - 1, x / 2);
    assert Rev(n, x) == b * Pow2(n - 1) + r;
    if i == n - 1 {
      DivUnique(Rev(n, x), Pow2(i), b, r);
      assert x / Pow2(0) == x;
    } else {
      RevBit(n - 1, x / 2, i);
      HalfPow2(x, n - 2 - i);
      Pow2Add(n - 1 - i, i);
      EvenPart(b, n - 1 - i, i, r);
    }
  }

  lemma HalfPow2(x: nat, k: nat)
    ensures x / 2 / Pow2(k) == x / Pow2(k + 1)
  {
    var p, h := Pow2(k), x / 2;
    var q, s := h / p, h % p;
    assert x == 2 * h + x % 2 && h == q * p + s;
    DivUnique(x, 2 * p, q, 2 * s + x % 2);
  }

  lemma EvenPart(b: nat, k: nat, i: nat, r: nat)
    requires k > 0
    ensures (b * (Pow2(k) * Pow2(i)) + r) / Pow2(i) % 2 == r / Pow2(i) % 2
  {
    var p, d, c := Pow2(i), Pow2(k), Pow2(k - 1);
    assert d == 2 * c;
    MulAssoc(b, d, p);
    EvenTimes(b, c);
    hide *;
    EvenQuotient(b * c, p, r);
    assert b * (d * p) == 2 * (b * c) * p;
  }

  lemma EvenTimes(b: nat, c: nat)
    ensures b * (2 * c) == 2 * (b * c)
  {
  }

  lemma EvenQuotient(q: int, p: nat, r: nat)
    requires p > 0 && q >= 0
    ensures (2 * q * p + r) / p % 2 == r / p % 2
  {
    var h := r / p;
    assert r == h * p + r % p;
    Distribute(2 * q, h, p);
    DivUnique(2 * q * p + r, p, 2 * q + h, r % p);
  }

  /** Halving max until nothing is left counts its bits below the highest. */
  method CountBits(max: nat) returns (nbits: nat)
    ensures nbits == NumBits(max)
  {
    var i := max / 2;
    nbits := 0;
    while i != 0
      invariant i >= 0 && nbits + (if i == 0 then 0 else NumBits(2 * i)) == NumBits(max)
      decreases i
    {
      i, nbits := i / 2, nbits + 1;
    }
  }

  method WordsInitialize(max: nat, scale: nat) returns (words: array<int>)
    ensures fresh(words) && words[..] == WordOrder(max, scale)
  {
    words := new int[max];
    var nbits := CountBits(max);
    var i := 0;
    while i < max
      invariant i <= max
      invariant words[..i] == WordOrder(max, scale)[..i]
    {
      var w := ReverseBits(i, nbits);
      words[i] := w * scale;
      i := i + 1;
    }
  }

  lemma ScaledApart(a: nat, b: nat, scale: nat)
    requires a < b
    ensures a * scale + scale <= b * scale
  {
    MulMonotone(a + 1, b, scale);
  }

  lemma RevApart(n: nat, scale: nat, i: nat, j: nat)
    requires i < j < Pow2(n)
    ensures var a, b := Rev(n, i) * scale, Rev(n, j) * scale; a + scale <= b || b + scale <= a
  {
    if Rev(n, i) == Rev(n, j) {
      RevInjective(n, i, j);
    } else if Rev(n, i) < Rev(n, j) {
      ScaledApart(Rev(n, i), Rev(n, j), scale);
    } else {
      ScaledApart(Rev(n, j), Rev(n, i), scale);
    }
  }

  lemma WordOrderSeparated(n: nat, scale: nat)
    requires scale > 0
    ensures Separated(WordOrder(Pow2(n), scale), scale, Pow2(n) * scale)
    ensures WordOrder(Pow2(n), scale)[0] == 0
  {
    var s := WordOrder(Pow2(n), scale);
    NumBitsPow2(n);
    RevZero(n);
    forall i | 0 <= i < |s| ensures 0 <= s[i] && s[i] + scale <= Pow2(n) * scale {
      RevBound(n, i);
      ScaledApart(Rev(n, i), Pow2(n), scale);
    }
    forall i, j | 0 <= i < j < |s| ensures s[i] + scale <= s[j] || s[j] + scale <= s[i] {
      RevApart(n, scale, i, j);
    }
  }

  /** The order is a permutation of 0, scale, 2*scale, ...: every multiple below the bound is reached. */
  lemma WordOrderOnto(n: nat, scale: nat, q: nat) returns (i: nat)
    requires q < Pow2(n)
    ensures i < Pow2(n) && WordOrder(Pow2(n), scale)[i] == q * scale
  {
    NumBitsPow2(n);
    RevBound(n, q);
    RevRev(n, q);
    i := Rev(n, q);
  }

  /** No two entries coincide exactly when max is a power of two. */
  lemma WordOrderDistinct(max: nat, scale: nat)
    requires max > 0 && scale > 0
    ensures NoDup(WordOrder(max, scale)) <==> max == Pow2(NumBits(max))
  {
    var n := NumBits(max);
    NumBitsBounds(max);
    if max == Pow2(n) {
      WordOrderSeparated(n, scale);
    } else {
      RevCarry(n);
      RevZero(n);
      assert WordOrder(max, scale)[0] == WordOrder(max, scale)[Pow2(n)];
    }
  }

  /** The bit above the low n is ignored. */
  lemma {:induction false} RevCarry(n: nat)
    ensures Rev(n, Pow2(n)) == 0
  {
    if n > 0 { RevCarry(n - 1); }
  }

  // ----- the shuffled page order

  function Multiples(n: nat, scale: nat): seq<int> {
    seq(n, i requires 0 <= i < n => i * scale)
  }

  /** s holds 0, scale, ..., each once, in any order. */
  ghost predicate Shuffled(s: seq<int>, scale: nat) {
    multiset(s) == multiset(Multiples(|s|, scale))
  }

  lemma {:induction false} NoDupMultiset(s: seq<int>)
    ensures NoDup(s) <==> forall v :: multiset(s)[v] <= 1
  {
    if |s| > 0 {
      var n := |s| - 1;
      var r := s[..n];
      NoDupMultiset(r);
      assert s == r + [s[n]];
      assert multiset(s) == multiset(r) + multiset{s[n]};
      if NoDup(s) {
        assert s[n] !in r;
      } else if NoDup(r) {
        var i, j :| 0 <= i < j < |s| && s[i] == s[j];
        assert r[i] == s[n];
        assert multiset(s)[s[n]] >= 2;
      } else {
        var v :| multiset(r)[v] > 1;
        assert multiset(s)[v] > 1;
      }
    }
  }

  ghost predicate IsPow2(x: nat) {
    x > 0 && x == Pow2(NumBits(x))
  }

  lemma {:induction false} NumBitsMonotone(a: nat, b: nat)
    requires a <= b
    ensures NumBits(a) <= NumBits(b)
  {
    if a >= 2 { NumBitsMonotone(a / 2, b / 2); }
  }

  /** Powers of two divide larger ones, and the quotient is one again. */
  lemma IsPow2Quotient(a: nat, b: nat)
    requires IsPow2(a) && IsPow2(b) && a <= b
    ensures NumBits(a) <= NumBits(b) && b / a == Pow2(NumBits(b) - NumBits(a))
    ensures b == Pow2(NumBits(b) - NumBits(a)) * a
  {
    NumBitsMonotone(a, b);
    var d := NumBits(b) - NumBits(a);
    Pow2Add(d, NumBits(a));
    assert b == Pow2(d) * a;
    DivUnique(b, a, Pow2(d), 0);
  }

  /** Two lists with the same entries have the same separation. */
  lemma SameEntriesSeparated(s: seq<int>, t: seq<int>, gap: int, bound: int)
    requires multiset(s) == multiset(t) && Separated(t, gap, bound) && gap > 0
    ensures Separated(s, gap, bound) && |s| == |t|
  {
    assert |s| == |multiset(s)| == |t|;
    NoDupMultiset(s);
    NoDupMultiset(t);
    forall i | 0 <= i < |s| ensures s[i] in t {
      assert s[i] in multiset(t);
    }
    forall i, j | 0 <= i < j < |s| ensures s[i] + gap <= s[j] || s[j] + gap <= s[i] {
      var x :| 0 <= x < |t| && t[x] == s[i];
      var y :| 0 <= y < |t| && t[y] == s[j];
      assert s[i] != s[j];
    }
  }

  lemma MultiplesSeparated(n: nat, scale: nat)
    requires scale > 0
    ensures Separated(Multiples(n, scale), scale, n * scale)
  {
    forall i | 0 <= i < n ensures 0 <= i * scale && i * scale + scale <= n * scale {
      MulMonotone(0, i, scale);
      MulMonotone(i + 1, n, scale);
    }
    forall i, j | 0 <= i < j < n ensures i * scale + scale <= j * scale {
      MulMonotone(i + 1, j, scale);
    }
  }

  lemma ShuffledSeparated(s: seq<int>, scale: nat)
    requires Shuffled(s, scale) && scale > 0
    ensures Separated(s, scale, |s| * scale)
  {
    MultiplesSeparated(|s|, scale);
    SameEntriesSeparated(s, Multiples(|s|, scale), scale, |s| * scale);
  }

  /** The first n rounds of the shuffle: round i exchanges place i and a place chosen at random. */
  function Shuffle(s: seq<int>, rnd: nat -> nat, n: nat): (r: seq<int>)
    requires n <= |s|
    ensures |r| == |s|
  {
    if n == 0 then s else SwapAt(Shuffle(s, rnd, n - 1), rnd(n - 1) % |s|, n - 1)
  }

  /** The order permutation() gives for these random numbers. */
  function Permuted(max: nat, scale: nat, rnd: nat -> nat): (r: seq<int>)
    ensures |r| == max
  {
    Shuffle(Multiples(max, scale), rnd, max)
  }

  /** Where the entry that starts at place q is after n rounds: an exchange it is part of takes it to the other
      of the two places, and no other exchange moves it. */
  function EndsUp(q: nat, rnd: nat -> nat, max: nat, n: nat): (place: nat)
    requires q < max && n <= max
    ensures place < max
  {
    if n == 0 then q
    else
      var place := EndsUp(q, rnd, max, n - 1);
      if place == n - 1 then rnd(n - 1) % max else if place == rnd(n - 1) % max then n - 1 else place
  }

  /** The multiple q * scale is where its exchanges have taken it. */
  lemma {:induction false} EntryAt(q: nat, rnd: nat -> nat, max: nat, scale: nat, n: nat)
    requires q < max && n <= max
    ensures Shuffle(Multiples(max, scale), rnd, n)[EndsUp(q, rnd, max, n)] == q * scale
  {
    if n > 0 { EntryAt(q, rnd, max, scale, n - 1); }
  }

  lemma {:induction false} ShuffleSame(s: seq<int>, rnd: nat -> nat, n: nat)
    requires n <= |s|
    ensures multiset(Shuffle(s, rnd, n)) == multiset(s)
  {
    hide SwapAt;
    if n > 0 {
      ShuffleSame(s, rnd, n - 1);
      SwapSame(Shuffle(s, rnd, n - 1), rnd(n - 1) % |s|, n - 1);
    }
  }

  /** Whatever the random numbers are, the order holds every multiple once. */
  lemma PermutedShuffled(max: nat, scale: nat, rnd: nat -> nat)
    ensures Shuffled(Permuted(max, scale, rnd), scale)
  {
    ShuffleSame(Multiples(max, scale), rnd, max);
  }

  /** The first n rounds see no later random number. */
  lemma {:induction false} ShuffleAgrees(s: seq<int>, rnd: nat -> nat, rnd': nat -> nat, n: nat)
    requires n <= |s| && forall i: nat | i < n :: rnd(i) == rnd'(i)
    ensures Shuffle(s, rnd, n) == Shuffle(s, rnd', n)
  {
    if n > 0 { ShuffleAgrees(s, rnd, rnd', n - 1); }
  }

  lemma Cancel(a: multiset<int>, b: multiset<int>, c: multiset<int>)
    requires a + b == a + c
    ensures b == c
  {
    assert a + b - a == b && a + c - a == c;
  }

  /** Where the prefixes agree, the next entry wanted is still among the rest. */
  lemma NextEntry(r: seq<int>, t: seq<int>, n: nat) returns (o: nat)
    requires multiset(r) == multiset(t) && |r| == |t| && n < |t| && r[..n] == t[..n]
    ensures n <= o < |r| && r[o] == t[n]
  {
    assert r == r[..n] + r[n..] && t == t[..n] + t[n..];
    assert multiset(r) == multiset(r[..n]) + multiset(r[n..]);
    assert multiset(t) == multiset(r[..n]) + multiset(t[n..]);
    Cancel(multiset(r[..n]), multiset(r[n..]), multiset(t[n..]));
    assert t[n] == t[n..][0] && t[n] in multiset(r[n..]);
    var i :| 0 <= i < |r[n..]| && r[n..][i] == t[n];
    o := n + i;
  }

  /** Random numbers with which the first n rounds put the first n entries wanted in their places. */
  lemma {:induction false} Choices(s: seq<int>, t: seq<int>, n: nat) returns (rnd: nat -> nat)
    requires multiset(s) == multiset(t) && |s| == |t| && n <= |t|
    ensures Shuffle(s, rnd, n)[..n] == t[..n]
  {
    hide SwapAt, Shuffle;
    if n == 0 { return i => 0; }
    var before := Choices(s, t, n - 1);
    var r := Shuffle(s, before, n - 1);
    ShuffleSame(s, before, n - 1);
    var o := NextEntry(r, t, n - 1);
    rnd := i => if i == n - 1 then o else before(i);
    ShuffleAgrees(s, before, rnd, n - 1);
    ChosenEntry(r, t, n - 1, o);
    LastRound(s, rnd, n, o);
  }

  lemma LastRound(s: seq<int>, rnd: nat -> nat, n: nat, o: nat)
    requires 0 < n <= |s| && o < |s| && rnd(n - 1) == o
    ensures Shuffle(s, rnd, n) == SwapAt(Shuffle(s, rnd, n - 1), o, n - 1)
  {
    hide SwapAt;
    assert o % |s| == o;
  }

  lemma ChosenEntry(r: seq<int>, t: seq<int>, n: nat, o: nat)
    requires |r| == |t| && n <= o < |r| && r[..n] == t[..n] && r[o] == t[n]
    ensures SwapAt(r, o, n)[..n + 1] == t[..n + 1]
  {
    forall i | 0 <= i < n ensures SwapAt(r, o, n)[i] == t[i] {
      assert r[..n][i] == t[..n][i];
    }
  }

  /** Every order can occur. */
  lemma AnyOrder(s: seq<int>, scale: nat) returns (rnd: nat -> nat)
    requires Shuffled(s, scale)
    ensures Permuted(|s|, scale, rnd) == s
  {
    rnd := Choices(Multiples(|s|, scale), s, |s|);
    assert Permuted(|s|, scale, rnd)[..|s|] == s[..|s|];
  }

  lemma PermutedIs(max: nat, scale: nat, rnd: nat -> nat)
    ensures |Multiples(max, scale)| == max && Permuted(max, scale, rnd) == Shuffle(Multiples(max, scale), rnd, max)
    ensures Shuffle(Multiples(max, scale), rnd, 0) == Multiples(max, scale)
  {
    hide SwapAt;
  }

  lemma ShuffleRound(s: seq<int>, rnd: nat -> nat, i: nat)
    requires i < |s|
    ensures 0 <= rnd(i) % |s| < |s| && |Shuffle(s, rnd, i)| == |s|
    ensures Shuffle(s, rnd, i + 1) == SwapAt(Shuffle(s, rnd, i), rnd(i) % |s|, i)
  {
    hide SwapAt;
  }

  lemma SwapIs(s: seq<int>, a: nat, b: nat)
    requires a < |s| && b < |s|
    ensures SwapAt(s, a, b) == s[a := s[b]][b := s[a]]
  {
  }

  /** permutation() returns the order its random numbers give, which holds every multiple of scale once. */
  method Permutation(max: nat, scale: nat, rnd: nat -> nat) returns (result: array<int>)
    ensures fresh(result) && result[..] == Permuted(max, scale, rnd) && Shuffled(result[..], scale)
    ensures forall q: nat | q < max :: result[EndsUp(q, rnd, max, max)] == q * scale
  {
    result := new int[max];
    var i := 0;
    while i < max
      invariant i <= max
      invariant result[..i] == Multiples(max, scale)[..i]
    {
      result[i] := i * scale;
      i := i + 1;
    }
    assert result[..] == Multiples(max, scale);
    PermutedIs(max, scale, rnd);
    hide *;
    i := 0;
    while i < max
      invariant i <= max
      invariant result[..] == Shuffle(Multiples(max, scale), rnd, i)
    {
      var o := rnd(i) % max;
      ShuffleRound(Multiples(max, scale), rnd, i);
      ghost var before := result[..];
      result[o], result[i] := result[i], result[o];
      SwapIs(before, o, i);
      assert result[..] == SwapAt(before, o, i);
      i := i + 1;
    }
    PermutedShuffled(max, scale, rnd);
    forall q: nat | q < max ensures result[..][EndsUp(q, rnd, max, max)] == q * scale {
      EntryAt(q, rnd, max, scale, max);
    }
  }
}
