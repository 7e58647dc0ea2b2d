/**
 lib_sched.c: which CPU a benchmark process is pinned to. The bits of the affinity mask are tested and set by
 shifting an int, which says nothing about the bits from the int's sign bit on.
 */
module Placement {
  import opened Arith
  import opened Chains
  import opened BitOrder
  import opened MemFacts
  import opened Options

  // ----- reverse_bits

  /** Bits needed for CPU numbers 0 .. ncpus-1, at least one. */
  function CpuBits(ncpus: nat): nat
    requires ncpus > 0
  {
    1 + NumBits(ncpus - 1)
  }

  /** The bits that the highest CPU number needs are counted, and that many low bits of the number reversed. */
  method ReverseCpu(cpu: nat, ncpus: nat) returns (r: nat)
    requires ncpus > 0
    ensures r == Rev(CpuBits(ncpus), cpu)
  {
    var nbits := CountBits(ncpus - 1);
    r := ReverseBits(cpu, nbits + 1);
  }

  lemma CpuBitsBounds(ncpus: nat)
    requires ncpus >= 2
    ensures CpuBits(ncpus) >= 1 && Pow2(CpuBits(ncpus) - 1) < ncpus <= Pow2(CpuBits(ncpus))
  {
    NumBitsBounds(ncpus - 1);
  }

  /** The CPU number k is spread to. */
  function Spread(ncpus: nat, k: nat): (cpu: nat)
    requires ncpus > 0
    ensures cpu < ncpus
  {
    Rev(CpuBits(ncpus), k) % ncpus
  }

  lemma {:induction false} AllOnes(n: nat)
    ensures Rev(n, Pow2(n) - 1) == Pow2(n) - 1
  {
    if n > 0 {
      AllOnes(n - 1);
      assert (Pow2(n) - 1) / 2 == Pow2(n - 1) - 1 && (Pow2(n) - 1) % 2 == 1;
    }
  }

  /** The number whose bits are all set but the last is the image of the one with all set but the first. */
  lemma AllButOne(n: nat)
    requires n > 0
    ensures Rev(n, Pow2(n - 1) - 1) == Pow2(n) - 2
  {
    AllOnes(n - 1);
    RevTop(n - 1, Pow2(n - 1) - 1, false);
  }

  lemma SmallMod(x: nat, n: nat)
    requires n > 0
    ensures x < n ==> x % n == x
    ensures n <= x < 2 * n ==> x % n == x - n
  {
    if n <= x < 2 * n { DivUnique(x, n, 1, x - n); }
  }

  /** On 2^n or 2^n - 1 CPUs reversal stays within range, and is injective. */
  lemma SpreadExact(ncpus: nat, k: nat)
    requires ncpus >= 2 && k < ncpus
    requires ncpus == Pow2(CpuBits(ncpus)) || ncpus == Pow2(CpuBits(ncpus)) - 1
    ensures Spread(ncpus, k) == Rev(CpuBits(ncpus), k)
  {
    var n := CpuBits(ncpus);
    CpuBitsBounds(ncpus);
    RevBound(n, k);
    AllOnes(n);
    if Rev(n, k) == Pow2(n) - 1 { RevInjective(n, k, Pow2(n) - 1); }
    SmallMod(Rev(n, k), ncpus);
  }

  /** Otherwise one CPU is never used. */
  lemma SpreadMisses(ncpus: nat, k: nat)
    requires ncpus >= 2 && k < ncpus && ncpus + 2 <= Pow2(CpuBits(ncpus))
    ensures Spread(ncpus, k) != Pow2(CpuBits(ncpus) - 1) - 1
  {
    var n := CpuBits(ncpus);
    CpuBitsBounds(ncpus);
    RevBound(n, k);
    AllButOne(n);
    SmallMod(Rev(n, k), ncpus);
    if Rev(n, k) == Pow2(n - 1) - 1 { RevRev(n, k); }
  }

  // ----- no two on one CPU

  ghost predicate Distinct(ncpus: nat)
    requires ncpus > 0
  {
    forall j, k | 0 <= j < k < ncpus :: Spread(ncpus, j) != Spread(ncpus, k)
  }

  lemma {:induction false} BelowCard(n: nat)
    ensures |Below(n)| == n
  {
    if n > 0 { BelowCard(n - 1); }
  }

  /** n different numbers below n leave none out. */
  lemma Pigeonhole(s: seq<int>, v: int)
    requires NoDup(s) && 0 <= v < |s| && forall k | 0 <= k < |s| :: 0 <= s[k] < |s|
    ensures v in s
  {
    if v !in s {
      NoDupCard(s);
      BelowCard(|s|);
      assert Elems(s) <= Below(|s|) - {v};
      SubsetCard(Elems(s), Below(|s|) - {v});
    }
  }

  lemma NotDistinct(ncpus: nat)
    requires ncpus >= 2 && ncpus + 2 <= Pow2(CpuBits(ncpus))
    ensures !Distinct(ncpus)
  {
    var s := seq(ncpus, k requires 0 <= k < ncpus => Spread(ncpus, k) as int);
    var v := Pow2(CpuBits(ncpus) - 1) - 1;
    CpuBitsBounds(ncpus);
    forall k | 0 <= k < ncpus ensures s[k] != v { SpreadMisses(ncpus, k); }
    if Distinct(ncpus) {
      hide Spread, CpuBits;
      Pigeonhole(s, v);
    }
  }

  lemma {:induction false} Pow2Monotone(m: nat, n: nat)
    requires m < n
    ensures 2 * Pow2(m) <= Pow2(n)
    decreases n
  {
    if m < n - 1 { Pow2Monotone(m, n - 1); }
  }

  /** Between two powers of two only the upper one is a power of two. */
  lemma OnlyPowers(x: nat, n: nat)
    requires n > 0 && Pow2(n - 1) < x < 2 * Pow2(n)
    ensures IsPow2(x) <==> x == Pow2(n)
  {
    NumBitsPow2(n);
    if IsPow2(x) {
      var m := NumBits(x);
      if m < n { if m < n - 1 { Pow2Monotone(m, n - 1); } }
      if m > n { Pow2Monotone(n, m); }
    }
  }

  /** Spreading gives every number below ncpus a CPU of its own exactly on 2^n or 2^n - 1 CPUs. */
  lemma SpreadDistinct(ncpus: nat)
    requires ncpus > 0
    ensures Distinct(ncpus) <==> IsPow2(ncpus) || IsPow2(ncpus + 1)
  {
    if ncpus >= 2 {
      var n := CpuBits(ncpus);
      CpuBitsBounds(ncpus);
      OnlyPowers(ncpus, n);
      OnlyPowers(ncpus + 1, n);
      if ncpus + 2 <= Pow2(n) {
        NotDistinct(ncpus);
      } else {
        forall j, k | 0 <= j < k < ncpus ensures Spread(ncpus, j) != Spread(ncpus, k) {
          SpreadExact(ncpus, j);
          SpreadExact(ncpus, k);
          if Rev(n, j) == Rev(n, k) { RevInjective(n, j, k); }
        }
      }
    }
  }

  // ----- sched_pin

  /** The bits of a word of the mask and of an int, and which bits of a word a one is found in when it has been
      shifted, as an int, to its sign bit or beyond: C leaves that open. */
  datatype Machine = Machine(wordBits: nat, intBits: nat, wild: nat -> set<nat>) {
    ghost predicate Valid() {
      wordBits > 0 && intBits >= 2 && forall k, x :: x in wild(k) ==> x < wordBits
    }

    /** The bits of 1 << k. */
    function Shift(k: nat): set<nat> {
      if k + 1 < intBits then {k} else wild(k)
    }
  }

  /** An affinity mask: for every word its set of bits. */
  type Mask = seq<set<nat>>

  /** CPU i is in the mask. */
  predicate CpuIn(mask: Mask, w: nat, i: nat)
    requires w > 0
  {
    i / w < |mask| && i % w in mask[i / w]
  }

  /** The test for CPU i finds something. */
  predicate Hit(m: Machine, mask: Mask, i: nat)
    requires m.wordBits > 0
  {
    i / m.wordBits < |mask| && mask[i / m.wordBits] * m.Shift(i % m.wordBits) != {}
  }

  /** How many of the first n tests find something. */
  function Hits(m: Machine, mask: Mask, n: nat): (c: nat)
    requires m.wordBits > 0
    ensures c <= n
  {
    if n == 0 then 0 else Hits(m, mask, n - 1) + if Hit(m, mask, n - 1) then 1 else 0
  }

  /** How many of the first n CPUs are in the mask. */
  function Allowed(mask: Mask, w: nat, n: nat): (c: nat)
    requires w > 0
    ensures c <= n
  {
    if n == 0 then 0 else Allowed(mask, w, n - 1) + if CpuIn(mask, w, n - 1) then 1 else 0
  }

  /** The bits of a mask of n words. */
  function Bits(m: Machine, n: nat): nat {
    n * m.wordBits
  }

  lemma WordOf(m: Machine, n: nat, i: nat)
    requires m.wordBits > 0
    ensures i < Bits(m, n) <==> i / m.wordBits < n
  {
    var q := i / m.wordBits;
    assert i == q * m.wordBits + i % m.wordBits;
    if q < n { MulMonotone(q + 1, n, m.wordBits); Distribute(q, 1, m.wordBits); }
        else { MulMonotone(n, q, m.wordBits); }
  }

  lemma {:induction false} HitsMonotone(m: Machine, mask: Mask, i: nat, j: nat)
    requires m.wordBits > 0 && i <= j
    ensures Hits(m, mask, i) <= Hits(m, mask, j)
    ensures i < j && Hit(m, mask, i) ==> Hits(m, mask, i) < Hits(m, mask, j)
    decreases j
  {
    if i < j { HitsMonotone(m, mask, i, j - 1); }
  }

  lemma {:induction false} AllowedMonotone(mask: Mask, w: nat, i: nat, j: nat)
    requires w > 0 && i <= j
    ensures Allowed(mask, w, i) <= Allowed(mask, w, j)
    ensures i < j && CpuIn(mask, w, i) ==> Allowed(mask, w, i) < Allowed(mask, w, j)
    decreases j
  {
    if i < j { AllowedMonotone(mask, w, i, j - 1); }
  }

  /** The mask of n words that the bit for CPU b is set in, as far as shifting an int can. */
  function Pin(m: Machine, n: nat, b: nat): (mask: Mask)
    requires m.wordBits > 0
    ensures |mask| == n && forall x | 0 <= x < n :: mask[x] == if x == b / m.wordBits then m.Shift(b % m.wordBits)
            else {}
  {
    seq(n, x => if x == b / m.wordBits then m.Shift(b % m.wordBits) else {})
  }

  /** CPU b is in the mask, and no other. */
  ghost predicate OnlyCpu(mask: Mask, w: nat, b: nat)
    requires w > 0
  {
    b / w < |mask| && forall x | 0 <= x < |mask| :: mask[x] == if x == b / w then {b % w} else {}
  }

  /** sched_pin ends up at test b: of those that find something, the one numbered cpu modulo their count. */
  ghost predicate PinnedAt(m: Machine, cpumask: Mask, cpu: nat, b: nat)
    requires m.wordBits > 0
  {
    && b < Bits(m, |cpumask|) && Hit(m, cpumask, b) && Hits(m, cpumask, Bits(m, |cpumask|)) > 0
    && Hits(m, cpumask, b) == cpu % Hits(m, cpumask, Bits(m, |cpumask|))
  }

  /** The loop over the affinity mask of the process. */
  method CountHits(m: Machine, cpumask: Mask) returns (ncpus: nat)
    requires m.wordBits > 0
    ensures ncpus == Hits(m, cpumask, Bits(m, |cpumask|))
  {
    ncpus := 0;
    for i := 0 to Bits(m, |cpumask|)
      invariant ncpus == Hits(m, cpumask, i)
    {
      if Hit(m, cpumask, i) { ncpus := ncpus + 1; }
    }
  }

  /** sched_pin on Linux. */
  method SchedPin(m: Machine, cpumask: Mask, cpu: nat) returns (mask: Mask, ghost b: nat)
    requires m.Valid() && Hits(m, cpumask, Bits(m, |cpumask|)) > 0
    ensures PinnedAt(m, cpumask, cpu, b) && mask == Pin(m, |cpumask|, b)
    ensures b % m.wordBits + 1 < m.intBits ==> OnlyCpu(mask, m.wordBits, b) && CpuIn(cpumask, m.wordBits, b)
    ensures m.wordBits < m.intBits ==>
              && Allowed(cpumask, m.wordBits, Bits(m, |cpumask|)) > 0
              && Allowed(cpumask, m.wordBits, b) == cpu % Allowed(cpumask, m.wordBits, Bits(m, |cpumask|))
  {
    hide *;
    ValidWord(m);
    NoHits(m, cpumask);
    var ncpus := CountHits(m, cpumask);
    var c := cpu % ncpus;
    mask := seq(|cpumask|, _ => {});
    var i, j := 0, 0;
    b := 0;
    while i < Bits(m, |cpumask|)
      invariant 0 <= i <= Bits(m, |cpumask|) && j == Hits(m, cpumask, i) <= c
      invariant mask == seq(|cpumask|, _ => {})
    {
      WordOf(m, |cpumask|, i);
      if Hit(m, cpumask, i) {
        if j >= c {
          var word := i / m.wordBits;
          mask := mask[word := mask[word] + m.Shift(i % m.wordBits)];
          b := i;
          PinIs(m, |cpumask|, b, mask);
          PinnedIs(m, cpumask, cpu, b);
          PinnedFacts(m, cpumask, cpu, b);
          return;
        }
        j := j + 1;
      }
      HitsNext(m, cpumask, i);
      i := i + 1;
    }
  }

  lemma ValidWord(m: Machine)
    requires m.Valid()
    ensures m.wordBits > 0
  {
  }

  lemma NoHits(m: Machine, mask: Mask)
    requires m.wordBits > 0
    ensures Hits(m, mask, 0) == 0
  {
  }

  lemma HitsNext(m: Machine, mask: Mask, n: nat)
    requires m.wordBits > 0
    ensures Hits(m, mask, n + 1) == Hits(m, mask, n) + if Hit(m, mask, n) then 1 else 0
  {
  }

  lemma PinIs(m: Machine, n: nat, b: nat, mask: Mask)
    requires m.wordBits > 0 && b / m.wordBits < n
    requires mask == seq(n, _ => {})[b / m.wordBits := {} + m.Shift(b % m.wordBits)]
    ensures mask == Pin(m, n, b)
  {
    assert {} + m.Shift(b % m.wordBits) == m.Shift(b % m.wordBits);
  }

  lemma PinnedIs(m: Machine, cpumask: Mask, cpu: nat, b: nat)
    requires m.wordBits > 0 && b < Bits(m, |cpumask|) && Hit(m, cpumask, b) && Hits(m, cpumask, Bits(m, |cpumask|)) > 0
    requires Hits(m, cpumask, b) == cpu % Hits(m, cpumask, Bits(m, |cpumask|))
    ensures PinnedAt(m, cpumask, cpu, b)
  {
  }

  lemma PinnedFacts(m: Machine, cpumask: Mask, cpu: nat, b: nat)
    requires m.Valid() && PinnedAt(m, cpumask, cpu, b)
    ensures b % m.wordBits + 1 < m.intBits ==>
              OnlyCpu(Pin(m, |cpumask|, b), m.wordBits, b) && CpuIn(cpumask, m.wordBits, b)
    ensures m.wordBits < m.intBits ==>
              && Allowed(cpumask, m.wordBits, Bits(m, |cpumask|)) > 0
              && Allowed(cpumask, m.wordBits, b) == cpu % Allowed(cpumask, m.wordBits, Bits(m, |cpumask|))
  {
    WordOf(m, |cpumask|, b);
    hide Bits;
    if b % m.wordBits + 1 < m.intBits { PinsCpu(m, cpumask, b); }
    if m.wordBits < m.intBits {
      PlainHits(m, cpumask, b);
      PlainHits(m, cpumask, Bits(m, |cpumask|));
    }
  }

  /** Below the int's sign bit the one CPU that was tested is set. */
  lemma PinsCpu(m: Machine, cpumask: Mask, b: nat)
    requires m.Valid() && b / m.wordBits < |cpumask| && b % m.wordBits + 1 < m.intBits
    ensures OnlyCpu(Pin(m, |cpumask|, b), m.wordBits, b)
    ensures Hit(m, cpumask, b) <==> CpuIn(cpumask, m.wordBits, b)
  {
    var x, s := b % m.wordBits, cpumask[b / m.wordBits];
    if x in s { assert x in s * {x}; }
  }

  ghost predicate PinsOnly(wordBits: nat, intBits: nat, wild: nat -> set<nat>, n: nat, b: nat)
    requires wordBits > 0
  {
    Machine(wordBits, intBits, wild).Valid() ==> OnlyCpu(Pin(Machine(wordBits, intBits, wild), n, b), wordBits, b)
  }

  /** The mask has exactly the bit of CPU b, whatever the machine makes of other shifts, exactly when this bit
      lies below the int's sign bit. */
  lemma PinExact(wordBits: nat, intBits: nat, n: nat, b: nat)
    requires wordBits > 0 && intBits >= 2 && b / wordBits < n
    ensures (forall wild :: PinsOnly(wordBits, intBits, wild, n, b)) <==> b % wordBits + 1 < intBits
  {
    if b % wordBits + 1 >= intBits {
      var wild: nat -> set<nat> := k => {};
      var m := Machine(wordBits, intBits, wild);
      assert m.Valid() && Pin(m, n, b)[b / wordBits] == {};
      assert !PinsOnly(wordBits, intBits, wild, n, b);
    } else {
      forall wild ensures PinsOnly(wordBits, intBits, wild, n, b) { }
    }
  }

  /** Two tests that find something are told apart by how many did so before. */
  lemma BitTells(m: Machine, cpumask: Mask, b: nat, b': nat)
    requires m.wordBits > 0 && Hit(m, cpumask, b) && Hit(m, cpumask, b')
    ensures Hits(m, cpumask, b) == Hits(m, cpumask, b') <==> b == b'
  {
    if b < b' { HitsMonotone(m, cpumask, b, b'); }
    if b' < b { HitsMonotone(m, cpumask, b', b); }
  }

  /** Where an int is wider than a word every test finds its CPU. */
  lemma {:induction false} PlainHits(m: Machine, cpumask: Mask, n: nat)
    requires m.Valid() && m.wordBits < m.intBits
    ensures Hits(m, cpumask, n) == Allowed(cpumask, m.wordBits, n)
  {
    if n > 0 {
      PlainHits(m, cpumask, n - 1);
      if (n - 1) / m.wordBits < |cpumask| { PinsCpu(m, cpumask, n - 1); }
    }
  }

  /** So do the first ones, below the sign bit of an int, in any case. */
  lemma {:induction false} FirstHits(m: Machine, cpumask: Mask, n: nat)
    requires m.Valid() && m.intBits <= m.wordBits && n < m.intBits
    ensures Hits(m, cpumask, n) == Allowed(cpumask, m.wordBits, n)
  {
    if n > 0 {
      FirstHits(m, cpumask, n - 1);
      DivUnique(n - 1, m.wordBits, 0, n - 1);
      if |cpumask| > 0 { PinsCpu(m, cpumask, n - 1); }
    }
  }

  /** The allowed CPUs are those that shifting an int can name. */
  ghost predicate Nameable(m: Machine, cpumask: Mask)
    requires m.wordBits > 0
  {
    m.wordBits < m.intBits || forall i: nat | CpuIn(cpumask, m.wordBits, i) :: i + 1 < m.intBits
  }

  lemma {:induction false} NoneBeyond(m: Machine, cpumask: Mask, n: nat)
    requires m.Valid() && m.intBits <= m.wordBits && Nameable(m, cpumask) && n + 1 >= m.intBits
    ensures Allowed(cpumask, m.wordBits, n) == Allowed(cpumask, m.wordBits, m.intBits - 1)
  {
    if n + 1 > m.intBits { NoneBeyond(m, cpumask, n - 1); }
  }

  /** Then the process is pinned to the allowed CPU of its number, and to no other. */
  lemma PinsAllowed(m: Machine, cpumask: Mask, cpu: nat, b: nat)
    requires m.Valid() && Nameable(m, cpumask) && cpu < Allowed(cpumask, m.wordBits, Bits(m, |cpumask|))
    requires PinnedAt(m, cpumask, cpu, b)
    ensures CpuIn(cpumask, m.wordBits, b) && Allowed(cpumask, m.wordBits, b) == cpu
    ensures OnlyCpu(Pin(m, |cpumask|, b), m.wordBits, b)
  {
    var n := Bits(m, |cpumask|);
    WordOf(m, |cpumask|, b);
    hide Bits;
    if m.wordBits < m.intBits {
      PlainHits(m, cpumask, b);
      PlainHits(m, cpumask, n);
      SmallMod(cpu, Hits(m, cpumask, n));
    } else {
      var first := m.intBits - 1;
      if n < first { AllowedMonotone(cpumask, m.wordBits, n, first); FirstHits(m, cpumask, n); } else {
        NoneBeyond(m, cpumask, n);
        HitsMonotone(m, cpumask, first, n);
      }
      FirstHits(m, cpumask, first);
      SmallMod(cpu, Hits(m, cpumask, n));
      if b >= first { HitsMonotone(m, cpumask, first, b); }
      FirstHits(m, cpumask, b);
      DivUnique(b, m.wordBits, 0, b);
    }
    PinsCpu(m, cpumask, b);
  }

  // ----- handle_scheduler

  /** The two custom policies come with the user's list of CPU numbers. */
  datatype Policy =
    | Default
    | Single
    | Balanced
    | BalancedSpread
    | Unique
    | UniqueSpread
    | Custom(cpus: seq<nat>)
    | CustomSpread(cpus: seq<nat>)

  /** The list is used round after round; an empty one means CPU 0. */
  function Listed(cpus: seq<nat>, which: nat): nat {
    if |cpus| == 0 then 0 else cpus[which % |cpus|]
  }

  /** handle_scheduler: the mask the process is pinned to, if it is. */
  method HandleScheduler(policy: Policy, childno: nat, benchproc: nat, nbenchprocs: nat, ncpus: nat, m: Machine,
                         cpumask: Mask)
    returns (mask: Option<Mask>, ghost b: nat)
    requires ncpus > 0 && m.Valid() && Hits(m, cpumask, Bits(m, |cpumask|)) > 0
    ensures mask.None? <==> policy.Default?
    ensures mask.Some? ==>
              && PinnedAt(m, cpumask, Asked(policy, childno, benchproc, nbenchprocs, ncpus), b)
              && mask.value == Pin(m, |cpumask|, b)
    ensures mask.Some? && Nameable(m, cpumask) && ncpus <= Allowed(cpumask, m.wordBits, Bits(m, |cpumask|)) ==>
              && OnlyCpu(mask.value, m.wordBits, b) && CpuIn(cpumask, m.wordBits, b)
              && Allowed(cpumask, m.wordBits, b) == Asked(policy, childno, benchproc, nbenchprocs, ncpus)
  {
    if policy.Default? { return None, 0; }
    ValidWord(m);
    hide *;
    var cpu := AskedCpu(policy, childno, benchproc, nbenchprocs, ncpus);
    var pinned;
    pinned, b := SchedPin(m, cpumask, cpu % ncpus);
    mask := Some(pinned);
    if Nameable(m, cpumask) && ncpus <= Allowed(cpumask, m.wordBits, Bits(m, |cpumask|)) {
      PinsAllowed(m, cpumask, cpu % ncpus, b);
    }
  }

  /** The CPU number of every policy but the default one. */
  method AskedCpu(policy: Policy, childno: nat, benchproc: nat, nbenchprocs: nat, ncpus: nat) returns (cpu: nat)
    requires ncpus > 0 && !policy.Default?
    ensures cpu % ncpus == Asked(policy, childno, benchproc, nbenchprocs, ncpus)
  {
    hide Rev, CpuBits, Listed;
    match policy {
      case Single => cpu := 0;
      case Balanced => cpu := childno;
      case BalancedSpread => cpu := ReverseCpu(childno, ncpus);
      case Unique => cpu := childno * (nbenchprocs + 1) + benchproc;
      case UniqueSpread => cpu := ReverseCpu(childno * (nbenchprocs + 1) + benchproc, ncpus);
      case Custom(cpus) => cpu := Listed(cpus, childno);
      case CustomSpread(cpus) => cpu := Listed(cpus, childno * (nbenchprocs + 1) + benchproc);
    }
  }

  /** Which process of the whole run this is: a child's processes are numbered one after the other. */
  function ProcessNumber(childno: nat, benchproc: nat, nbenchprocs: nat): nat {
    childno * (nbenchprocs + 1) + benchproc
  }

  /** The CPU among ncpus a policy places a process on. */
  function Asked(policy: Policy, childno: nat, benchproc: nat, nbenchprocs: nat, ncpus: nat): (cpu: nat)
    requires ncpus > 0
    ensures cpu < ncpus
  {
    match policy
    case Default => 0
    case Single => 0
    case Balanced => childno % ncpus
    case BalancedSpread => Spread(ncpus, childno)
    case Unique => ProcessNumber(childno, benchproc, nbenchprocs) % ncpus
    case UniqueSpread => Spread(ncpus, ProcessNumber(childno, benchproc, nbenchprocs))
    case Custom(cpus) => Listed(cpus, childno) % ncpus
    case CustomSpread(cpus) => Listed(cpus, ProcessNumber(childno, benchproc, nbenchprocs)) % ncpus
  }

  /** The CPU of every policy: a child's own number or that of the process, as it is, reversed, or looked up in
      the list, which goes round; the number is taken modulo the CPUs. */
  lemma AskedExact(childno: nat, benchproc: nat, nbenchprocs: nat, ncpus: nat, cpus: seq<nat>)
    requires ncpus > 0
    ensures var k := childno * (nbenchprocs + 1) + benchproc;
            && Asked(Single, childno, benchproc, nbenchprocs, ncpus) == 0
            && Asked(Balanced, childno, benchproc, nbenchprocs, ncpus) == childno % ncpus
            && Asked(Unique, childno, benchproc, nbenchprocs, ncpus) == k % ncpus
            && Asked(BalancedSpread, childno, benchproc, nbenchprocs, ncpus) == Rev(CpuBits(ncpus), childno) % ncpus
            && Asked(UniqueSpread, childno, benchproc, nbenchprocs, ncpus) == Rev(CpuBits(ncpus), k) % ncpus
            && (cpus == [] ==> Asked(Custom(cpus), childno, benchproc, nbenchprocs, ncpus) == 0)
            && (cpus == [] ==> Asked(CustomSpread(cpus), childno, benchproc, nbenchprocs, ncpus) == 0)
            && (cpus != [] ==> Asked(Custom(cpus), childno, benchproc, nbenchprocs, ncpus) ==
                               cpus[childno % |cpus|] % ncpus)
            && (cpus != [] ==> Asked(CustomSpread(cpus), childno, benchproc, nbenchprocs, ncpus) ==
                               cpus[k % |cpus|] % ncpus)
  {
    hide Rev, CpuBits;
  }

  /** Under BALANCED any ncpus children in a row take every CPU once. */
  lemma BalancedRound(first: nat, benchproc: nat, nbenchprocs: nat, ncpus: nat, cpu: nat) returns (childno: nat)
    requires cpu < ncpus
    ensures first <= childno < first + ncpus && Asked(Balanced, childno, benchproc, nbenchprocs, ncpus) == cpu
    ensures forall c: nat, p: nat | first <= c < first + ncpus && Asked(Balanced, c, p, nbenchprocs, ncpus) == cpu ::
              c == childno
  {
    var q, r := first / ncpus, first % ncpus;
    assert first == q * ncpus + r;
    var round := if cpu < r then q + 1 else q;
    Distribute(q, 1, ncpus);
    childno := round * ncpus + cpu;
    DivUnique(childno, ncpus, round, cpu);
    forall c: nat, p: nat | first <= c < first + ncpus && Asked(Balanced, c, p, nbenchprocs, ncpus) == cpu
      ensures c == childno
    {
      SameRest(c, childno, ncpus);
    }
  }

  /** End to end: BALANCED and, on 2^n or 2^n - 1 CPUs, BALANCED_SPREAD pin the processes of one child to one
      CPU, and those of different children to different ones, if there are no more children than CPUs. */
  lemma BalancedPlacement(policy: Policy, ncpus: nat, m: Machine, cpumask: Mask, nbenchprocs: nat,
                          c: nat, p: nat, b: nat, c': nat, p': nat, b': nat)
    requires policy.Balanced? || (policy.BalancedSpread? && (IsPow2(ncpus) || IsPow2(ncpus + 1)))
    requires m.Valid() && Nameable(m, cpumask) && Allowed(cpumask, m.wordBits, Bits(m, |cpumask|)) == ncpus > 0
    requires c < ncpus && c' < ncpus
    requires PinnedAt(m, cpumask, Asked(policy, c, p, nbenchprocs, ncpus), b)
    requires PinnedAt(m, cpumask, Asked(policy, c', p', nbenchprocs, ncpus), b')
    ensures b == b' <==> c == c'
    ensures OnlyCpu(Pin(m, |cpumask|, b), m.wordBits, b)
  {
    SpreadDistinct(ncpus);
    SmallMod(c, ncpus);
    SmallMod(c', ncpus);
    var cpu, cpu' := Asked(policy, c, p, nbenchprocs, ncpus), Asked(policy, c', p', nbenchprocs, ncpus);
    assert cpu == cpu' <==> c == c';
    hide *;
    PinsAllowed(m, cpumask, cpu, b);
    if c != c' { DifferentCpus(m, cpumask, cpu, cpu', b, b'); } else { SamePin(m, cpumask, cpu, b, b'); }
  }

  lemma SamePin(m: Machine, cpumask: Mask, cpu: nat, b: nat, b': nat)
    requires m.wordBits > 0 && PinnedAt(m, cpumask, cpu, b) && PinnedAt(m, cpumask, cpu, b')
    ensures b == b'
  {
    hide Bits, Hit, Hits;
    BitTells(m, cpumask, b, b');
  }

  lemma NumberBelow(childno: nat, benchproc: nat, nbenchprocs: nat, children: nat)
    requires childno < children && benchproc <= nbenchprocs
    ensures ProcessNumber(childno, benchproc, nbenchprocs) < children * (nbenchprocs + 1)
  {
    MulMonotone(childno + 1, children, nbenchprocs + 1);
    Distribute(childno, 1, nbenchprocs + 1);
  }

  /** Different processes have different numbers. */
  lemma NumberTells(c: nat, p: nat, c': nat, p': nat, nbenchprocs: nat)
    requires p <= nbenchprocs && p' <= nbenchprocs
    requires ProcessNumber(c, p, nbenchprocs) == ProcessNumber(c', p', nbenchprocs)
    ensures c == c' && p == p'
  {
    DivUnique(ProcessNumber(c, p, nbenchprocs), nbenchprocs + 1, c, p);
    DivUnique(ProcessNumber(c, p, nbenchprocs), nbenchprocs + 1, c', p');
  }

  /** Processes that ask for different CPUs get them, if there are as many and shifting an int can name them. */
  lemma DifferentCpus(m: Machine, cpumask: Mask, cpu: nat, cpu': nat, b: nat, b': nat)
    requires m.Valid() && Nameable(m, cpumask) && cpu != cpu'
    requires cpu < Allowed(cpumask, m.wordBits, Bits(m, |cpumask|)) &&
             cpu' < Allowed(cpumask, m.wordBits, Bits(m, |cpumask|))
    requires PinnedAt(m, cpumask, cpu, b) && PinnedAt(m, cpumask, cpu', b')
    ensures b != b' && OnlyCpu(Pin(m, |cpumask|, b), m.wordBits, b) && OnlyCpu(Pin(m, |cpumask|, b'), m.wordBits, b')
    ensures CpuIn(cpumask, m.wordBits, b) && CpuIn(cpumask, m.wordBits, b')
  {
    hide *;
    PinsAllowed(m, cpumask, cpu, b);
    PinsAllowed(m, cpumask, cpu', b');
  }

  /** A list of as many different CPUs as there are processes gives each its own. */
  lemma CustomPlacement(cpus: seq<nat>, ncpus: nat, m: Machine, cpumask: Mask, children: nat, nbenchprocs: nat,
                        c: nat, p: nat, b: nat, c': nat, p': nat, b': nat)
    requires forall x, y | 0 <= x < y < |cpus| :: cpus[x] != cpus[y]
    requires (forall x | 0 <= x < |cpus| :: cpus[x] < ncpus) && ncpus > 0
    requires m.Valid() && Nameable(m, cpumask) && Allowed(cpumask, m.wordBits, Bits(m, |cpumask|)) == ncpus
    requires children * (nbenchprocs + 1) <= |cpus|
    requires c < children && c' < children && p <= nbenchprocs && p' <= nbenchprocs && (c != c' || p != p')
    requires PinnedAt(m, cpumask, Asked(CustomSpread(cpus), c, p, nbenchprocs, ncpus), b)
    requires PinnedAt(m, cpumask, Asked(CustomSpread(cpus), c', p', nbenchprocs, ncpus), b')
    ensures b != b' && OnlyCpu(Pin(m, |cpumask|, b), m.wordBits, b) && OnlyCpu(Pin(m, |cpumask|, b'), m.wordBits, b')
  {
    var k, k' := ProcessNumber(c, p, nbenchprocs), ProcessNumber(c', p', nbenchprocs);
    NumberBelow(c, p, nbenchprocs, children);
    NumberBelow(c', p', nbenchprocs, children);
    if k == k' { NumberTells(c, p, c', p', nbenchprocs); }
    hide Spread, ProcessNumber, Allowed, PinnedAt, Nameable, OnlyCpu, Pin, CpuIn, Bits;
    SmallMod(k, |cpus|);
    SmallMod(k', |cpus|);
    SmallMod(cpus[k], ncpus);
    SmallMod(cpus[k'], ncpus);
    DifferentCpus(m, cpumask, cpus[k], cpus[k'], b, b');
  }

  /** End to end: with every CPU allowed, all of them below an int's sign bit, and no more processes than CPUs,
      UNIQUE pins no two of them to the same CPU; UNIQUE_SPREAD does not either on 2^n or 2^n - 1 CPUs. */
  lemma UniquePlacement(policy: Policy, ncpus: nat, m: Machine, cpumask: Mask, children: nat, nbenchprocs: nat,
                        c: nat, p: nat, b: nat, c': nat, p': nat, b': nat)
    requires policy.Unique? || (policy.UniqueSpread? && (IsPow2(ncpus) || IsPow2(ncpus + 1)))
    requires m.Valid() && Nameable(m, cpumask) && Allowed(cpumask, m.wordBits, Bits(m, |cpumask|)) == ncpus > 0
    requires children * (nbenchprocs + 1) <= ncpus
    requires c < children && c' < children && p <= nbenchprocs && p' <= nbenchprocs && (c, p) != (c', p')
    requires PinnedAt(m, cpumask, Asked(policy, c, p, nbenchprocs, ncpus), b)
    requires PinnedAt(m, cpumask, Asked(policy, c', p', nbenchprocs, ncpus), b')
    ensures b != b' && OnlyCpu(Pin(m, |cpumask|, b), m.wordBits, b) && OnlyCpu(Pin(m, |cpumask|, b'), m.wordBits, b')
  {
    var k, k' := ProcessNumber(c, p, nbenchprocs), ProcessNumber(c', p', nbenchprocs);
    NumberBelow(c, p, nbenchprocs, children);
    NumberBelow(c', p', nbenchprocs, children);
    if k == k' { NumberTells(c, p, c', p', nbenchprocs); }
    SpreadDistinct(ncpus);
    SmallMod(k, ncpus);
    SmallMod(k', ncpus);
    hide Spread, ProcessNumber, Allowed, PinnedAt, Nameable, OnlyCpu, Pin, CpuIn, Bits;
    DifferentCpus(m, cpumask, Asked(policy, c, p, nbenchprocs, ncpus), Asked(policy, c', p', nbenchprocs, ncpus), b,
                  b');
  }

  // ----- hosts with more CPUs than an int has bits

  /** The mask of a host on which the process may run on all of its CPUs 0 .. ncpus-1. */
  ghost predicate WholeHost(mask: Mask, w: nat, ncpus: nat)
    requires w > 0
  {
    forall i: nat :: CpuIn(mask, w, i) <==> i < ncpus
  }

  /** Every process of UNIQUE, one for each CPU, is pinned to the CPU of its number and to nothing else. */
  ghost predicate EachItsOwn(m: Machine, cpumask: Mask, ncpus: nat)
    requires m.wordBits > 0
  {
    forall k: nat, b: nat | k < ncpus && PinnedAt(m, cpumask, k, b) ::
      b == k && OnlyCpu(Pin(m, |cpumask|, b), m.wordBits, k)
  }

  ghost predicate AlwaysItsOwn(wordBits: nat, intBits: nat, wild: nat -> set<nat>, cpumask: Mask, ncpus: nat)
    requires wordBits > 0
  {
    Machine(wordBits, intBits, wild).Valid() ==> EachItsOwn(Machine(wordBits, intBits, wild), cpumask, ncpus)
  }

  lemma {:induction false} AllowedHost(mask: Mask, w: nat, ncpus: nat, n: nat)
    requires w > 0 && WholeHost(mask, w, ncpus)
    ensures Allowed(mask, w, n) == if n < ncpus then n else ncpus
  {
    if n > 0 { AllowedHost(mask, w, ncpus, n - 1); }
  }

  /** On such a host every process has a CPU of its own, whatever the machine makes of shifts to the sign bit
      or beyond, exactly when an int is wider than a word, or there are fewer CPUs than bits of an int. */
  lemma HostExact(wordBits: nat, intBits: nat, cpumask: Mask, ncpus: nat)
    requires wordBits > 0 && intBits >= 2 && ncpus > 0 && WholeHost(cpumask, wordBits, ncpus)
    ensures (forall wild :: AlwaysItsOwn(wordBits, intBits, wild, cpumask, ncpus)) <==>
            wordBits < intBits || ncpus < intBits
  {
    if wordBits < intBits || ncpus < intBits {
      forall wild ensures AlwaysItsOwn(wordBits, intBits, wild, cpumask, ncpus) {
        if Machine(wordBits, intBits, wild).Valid() { HostPlaced(Machine(wordBits, intBits, wild), cpumask, ncpus); }
      }
    } else {
      SignBitShared(wordBits, intBits, cpumask, ncpus);
    }
  }

  lemma HostBits(m: Machine, cpumask: Mask, ncpus: nat)
    requires m.wordBits > 0 && ncpus > 0 && WholeHost(cpumask, m.wordBits, ncpus)
    ensures ncpus <= Bits(m, |cpumask|)
  {
    assert CpuIn(cpumask, m.wordBits, ncpus - 1);
    WordOf(m, |cpumask|, ncpus - 1);
  }

  lemma HostPlaced(m: Machine, cpumask: Mask, ncpus: nat)
    requires m.Valid() && ncpus > 0 && WholeHost(cpumask, m.wordBits, ncpus) &&
             (m.wordBits < m.intBits || ncpus < m.intBits)
    ensures EachItsOwn(m, cpumask, ncpus)
  {
    HostBits(m, cpumask, ncpus);
    AllowedHost(cpumask, m.wordBits, ncpus, Bits(m, |cpumask|));
    assert Nameable(m, cpumask);
    forall k: nat, b: nat | k < ncpus && PinnedAt(m, cpumask, k, b)
      ensures b == k && OnlyCpu(Pin(m, |cpumask|, b), m.wordBits, k)
    {
      PinsAllowed(m, cpumask, k, b);
      AllowedHost(cpumask, m.wordBits, ncpus, b);
    }
  }

  /** On a machine that finds all these ones in bit 0 the CPU of the int's sign bit is not the one set. */
  lemma SignBitShared(wordBits: nat, intBits: nat, cpumask: Mask, ncpus: nat)
    requires 2 <= intBits <= wordBits && intBits <= ncpus && WholeHost(cpumask, wordBits, ncpus)
    ensures !AlwaysItsOwn(wordBits, intBits, (k: nat) => {0}, cpumask, ncpus)
  {
    var m, k: nat := Machine(wordBits, intBits, (k: nat) => {0}), intBits - 1;
    assert CpuIn(cpumask, wordBits, 0) && CpuIn(cpumask, wordBits, k);
    DivUnique(k, wordBits, 0, k);
    DivUnique(0, wordBits, 0, 0);
    assert 0 in cpumask[0] * m.Shift(k);
    HostBits(m, cpumask, ncpus);
    FirstHits(m, cpumask, k);
    AllowedHost(cpumask, wordBits, ncpus, k);
    HitsMonotone(m, cpumask, k, Bits(m, |cpumask|));
    SmallMod(k, Hits(m, cpumask, Bits(m, |cpumask|)));
    assert PinnedAt(m, cpumask, k, k);
    assert Pin(m, |cpumask|, k)[0] == {0} != {k};
  }

  function Ones(lo: nat, hi: nat): (s: set<nat>)
    ensures forall x: nat :: x in s <==> lo <= x < hi
    decreases hi
  {
    if hi <= lo then {} else Ones(lo, hi - 1) + {hi - 1}
  }

  /** 64-bit words and 32-bit ints whose shifts count modulo 32 and keep the sign. */
  function Lp64(): Machine {
    Machine(64, 32, k => if k % 32 == 31 then Ones(31, 64) else {k % 32})
  }

  /** All of 64 CPUs, in the three words sched_pin allocates for that many. */
  function Host64(): Mask {
    [Ones(0, 64), {}, {}]
  }

  lemma Word64(i: nat)
    ensures i / 64 == 0 <==> i < 64
    ensures i < 64 ==> i % 64 == i
  {
  }

  lemma Whole64()
    ensures Lp64().Valid() && WholeHost(Host64(), 64, 64)
  {
    hide Ones;
    forall i: nat ensures CpuIn(Host64(), 64, i) <==> i < 64 { Word64(i); }
  }

  lemma Hit64(i: nat)
    ensures Hit(Lp64(), Host64(), i) <==> i < 64
  {
    hide Ones;
    Word64(i);
    if i < 64 {
      var s := Lp64().Shift(i);
      assert if i % 32 == 31 && i >= 31 then 31 in s else i % 32 in s;
      assert if i % 32 == 31 && i >= 31 then 31 in Ones(0, 64) * s else i % 32 in Ones(0, 64) * s;
    }
  }

  lemma Pinned64(cpu: nat)
    requires cpu < 64
    ensures PinnedAt(Lp64(), Host64(), cpu, cpu)
  {
    hide *;
    Bits64();
    forall i: nat ensures Hit(Lp64(), Host64(), i) <==> i < 64 { Hit64(i); }
    HitsBelow(Lp64(), Host64(), 64, 192);
    HitsBelow(Lp64(), Host64(), 64, cpu);
    SmallMod(cpu, 64);
    PinnedIs(Lp64(), Host64(), cpu, cpu);
  }

  lemma Bits64()
    ensures Lp64().wordBits == 64 && |Host64()| == 3 && Bits(Lp64(), 3) == 192
  {
  }

  lemma Pin64()
    ensures Lp64().wordBits == 64 && OnlyCpu(Pin(Lp64(), 3, 8), 64, 8) && OnlyCpu(Pin(Lp64(), 3, 40), 64, 8)
  {
  }

  /** UNIQUE pins the processes 8 and 40 of 64 to CPU 8. */
  lemma TwoOnOneCpu()
    ensures Lp64().Valid() && WholeHost(Host64(), 64, 64)
    ensures Asked(Unique, 8, 0, 0, 64) == 8 && PinnedAt(Lp64(), Host64(), 8, 8) && OnlyCpu(Pin(Lp64(), 3, 8), 64, 8)
    ensures Asked(Unique, 40, 0, 0, 64) == 40 && PinnedAt(Lp64(), Host64(), 40, 40) &&
            OnlyCpu(Pin(Lp64(), 3, 40), 64, 8)
  {
    hide PinnedAt, WholeHost, Ones, Lp64, OnlyCpu, Pin, Host64, Machine.Valid;
    Whole64();
    Pinned64(8);
    Pinned64(40);
    Pin64();
  }

  lemma {:induction false} HitsBelow(m: Machine, mask: Mask, ncpus: nat, n: nat)
    requires m.wordBits > 0 && forall i: nat :: Hit(m, mask, i) <==> i < ncpus
    ensures Hits(m, mask, n) == if n < ncpus then n else ncpus
  {
    if n > 0 { HitsBelow(m, mask, ncpus, n - 1); }
  }

  /** On any other number of CPUs, with as many processes as CPUs, two of them share one. */
  lemma SharedCpu(ncpus: nat) returns (k: nat, k': nat)
    requires ncpus > 0 && !IsPow2(ncpus) && !IsPow2(ncpus + 1)
    ensures k < k' < ncpus && Asked(UniqueSpread, k, 0, 0, ncpus) == Asked(UniqueSpread, k', 0, 0, ncpus)
  {
    SpreadDistinct(ncpus);
    k, k' :| 0 <= k < k' < ncpus && Spread(ncpus, k) == Spread(ncpus, k');
    assert ProcessNumber(k, 0, 0) == k && ProcessNumber(k', 0, 0) == k';
  }
}
