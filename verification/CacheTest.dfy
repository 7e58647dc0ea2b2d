/**
 cache.c, test_chunk and collect_sample: what they answer and leave, as functions of the table and the
 clock's readings, and which readings make them do so.
 */
module CacheTest {
  import opened CacheTables
  import opened CacheFixup
  import opened Options

  /** What a search has come to: the table, the clock's next reading, available_index, the baseline, and whether
      it changed anything. */
  datatype Found = Found(pages: seq<int>, tick: nat, available: nat, baseline: real, modified: bool)

  /** The same between two parts of a chunk, and the slowest time without a part that turned out to be harmless. */
  datatype Tally = Tally(found: Found, nodiff: real)

  /** This time is clearly below the baseline, and below that of the last harmless part. */
  predicate Clear(t: real, baseline: real, nodiff: real) {
    t < 0.99 * baseline && t < 0.999 * nodiff
  }

  function Slower(t: real, tt: real): real {
    if tt > t then tt else t
  }

  /** test_chunk. A small chunk goes to fixup_chunk, any other is cut into 20 parts or fewer. */
  function Tested(clock: nat -> real, s: Found, i: nat, chunk: nat, npages: nat, chunkBaseline: real,
                  restored: nat): (r: Found)
    requires 1 <= chunk && i + chunk <= npages && 2 <= npages && npages + 2 <= |s.pages| && restored <= |s.pages|
    ensures |r.pages| == |s.pages|
    decreases chunk, 1, 0
  {
    if chunk <= 20 && chunk < npages then
      var f := Fixup(clock, s.pages, s.tick, s.available, i, chunk, npages, s.baseline, chunkBaseline, restored);
      Found(f.pages, f.tick, f.available, f.baseline, f.swapped > 0)
    else
      Parts(clock, Tally(s.(modified := false), s.baseline), i, i + chunk, (chunk + 19) / 20, npages, restored).found
  }

  /** The parts of test_chunk's loop from slot j on; the last may be shorter. */
  function Parts(clock: nat -> real, s: Tally, j: nat, end: nat, sub: nat, npages: nat, restored: nat): (r: Tally)
    requires 0 < sub < npages && j <= end <= npages && npages + 2 <= |s.found.pages| && restored <= |s.found.pages|
    ensures |r.found.pages| == |s.found.pages|
    decreases sub, 3, end - j
  {
    if j == end then s
    else
      var c := if j + sub > end then end - j else sub;
      Parts(clock, PartDone(clock, s, j, c, npages, restored), j + c, end, c, npages, restored)
  }

  /** One part: it is handed on when two walks without it are both clearly faster. */
  function PartDone(clock: nat -> real, s: Tally, j: nat, c: nat, npages: nat, restored: nat): (r: Tally)
    requires 0 < c < npages && j + c <= npages && npages + 2 <= |s.found.pages| && restored <= |s.found.pages|
    ensures |r.found.pages| == |s.found.pages|
    decreases c, 2, 0
  {
    var f := s.found;
    var t, tt := clock(f.tick), clock(f.tick + 1);
    if !Clear(t, f.baseline, s.nodiff) then Tally(f.(tick := f.tick + 1), s.nodiff)
    else if !Clear(tt, f.baseline, s.nodiff) then Tally(f.(tick := f.tick + 2), s.nodiff)
    else
      var r := Tested(clock, f.(tick := f.tick + 2), j, c, npages, Slower(t, tt), restored);
      Tally(r.(modified := f.modified || r.modified), if r.modified then s.nodiff else Slower(t, tt))
  }

  lemma TestedFixed(clock: nat -> real, s: Found, i: nat, chunk: nat, npages: nat, chunkBaseline: real, restored: nat)
    requires 1 <= chunk <= 20 && i + chunk <= npages && chunk < npages && npages + 2 <= |s.pages| &&
             restored <= |s.pages|
    ensures var f := Fixup(clock, s.pages, s.tick, s.available, i, chunk, npages, s.baseline, chunkBaseline, restored);
            Tested(clock, s, i, chunk, npages, chunkBaseline, restored) ==
            Found(f.pages, f.tick, f.available, f.baseline, f.swapped > 0)
  {
    hide Fixup, Parts;
  }

  lemma TestedParts(clock: nat -> real, s: Found, i: nat, chunk: nat, npages: nat, chunkBaseline: real, restored: nat)
    requires 1 <= chunk && i + chunk <= npages && 2 <= npages && npages + 2 <= |s.pages| && restored <= |s.pages|
    requires chunk > 20 || chunk == npages
    ensures 0 < (chunk + 19) / 20 < chunk
    ensures Tested(clock, s, i, chunk, npages, chunkBaseline, restored) ==
            Parts(clock, Tally(s.(modified := false), s.baseline), i, i + chunk, (chunk + 19) / 20, npages,
                  restored).found
  {
    hide Fixup, Parts;
  }

  lemma PartsStep(clock: nat -> real, s: Tally, j: nat, end: nat, sub: nat, npages: nat, restored: nat)
    requires 0 < sub < npages && j < end <= npages && npages + 2 <= |s.found.pages| && restored <= |s.found.pages|
    ensures var c := if j + sub > end then end - j else sub;
            Parts(clock, s, j, end, sub, npages, restored) ==
            Parts(clock, PartDone(clock, s, j, c, npages, restored), j + c, end, c, npages, restored)
  {
    hide PartDone;
  }

  lemma PartsEnd(clock: nat -> real, s: Tally, end: nat, sub: nat, npages: nat, restored: nat)
    requires 0 < sub < npages && end <= npages && npages + 2 <= |s.found.pages| && restored <= |s.found.pages|
    ensures Parts(clock, s, end, end, sub, npages, restored) == s
  {
  }

  /** A part whose two readings are both below the two limits in force is handed on, with that baseline and the
      slower reading; what comes of it is kept, and the slower reading is the new limit if it was harmless. */
  lemma PartHanded(clock: nat -> real, s: Tally, j: nat, c: nat, npages: nat, restored: nat)
    requires 0 < c < npages && j + c <= npages && npages + 2 <= |s.found.pages| && restored <= |s.found.pages|
    requires var f := s.found;
             && clock(f.tick) < 0.99 * f.baseline && clock(f.tick) < 0.999 * s.nodiff
             && clock(f.tick + 1) < 0.99 * f.baseline && clock(f.tick + 1) < 0.999 * s.nodiff
    ensures var f := s.found;
            var slower := if clock(f.tick) < clock(f.tick + 1) then clock(f.tick + 1) else clock(f.tick);
            var r := Tested(clock, Found(f.pages, f.tick + 2, f.available, f.baseline, false), j, c, npages, slower,
                            restored);
            PartDone(clock, s, j, c, npages, restored) ==
            Tally(Found(r.pages, r.tick, r.available, r.baseline, f.modified || r.modified),
                  if r.modified then s.nodiff else slower)
  {
    TestedFresh(clock, s.found.(tick := s.found.tick + 2), j, c, npages,
                Slower(clock(s.found.tick), clock(s.found.tick + 1)), restored);
    hide Tested;
  }

  /** Whether something was changed before makes no difference to test_chunk. */
  lemma TestedFresh(clock: nat -> real, s: Found, i: nat, chunk: nat, npages: nat, chunkBaseline: real, restored: nat)
    requires 1 <= chunk && i + chunk <= npages && 2 <= npages && npages + 2 <= |s.pages| && restored <= |s.pages|
    ensures Tested(clock, s, i, chunk, npages, chunkBaseline, restored) ==
            Tested(clock, s.(modified := false), i, chunk, npages, chunkBaseline, restored)
  {
    hide Fixup, Parts;
  }

  /** A part with a reading that is not clearly faster is left alone, after one reading if that is the first. */
  lemma PartLeft(clock: nat -> real, s: Tally, j: nat, c: nat, npages: nat, restored: nat)
    requires 0 < c < npages && j + c <= npages && npages + 2 <= |s.found.pages| && restored <= |s.found.pages|
    requires var f := s.found;
             || clock(f.tick) >= 0.99 * f.baseline || clock(f.tick) >= 0.999 * s.nodiff
             || clock(f.tick + 1) >= 0.99 * f.baseline || clock(f.tick + 1) >= 0.999 * s.nodiff
    ensures var f := s.found;
            var n := if clock(f.tick) >= 0.99 * f.baseline || clock(f.tick) >= 0.999 * s.nodiff then 1 else 2;
            PartDone(clock, s, j, c, npages, restored) ==
            Tally(Found(f.pages, f.tick + n, f.available, f.baseline, f.modified), s.nodiff)
  {
    hide Tested;
  }

  // ----- answers

  /** When no reading is clearly below the baseline the parts are all left alone. */
  lemma {:induction false} QuietParts(clock: nat -> real, s: Tally, j: nat, end: nat, sub: nat, npages: nat,
                                      restored: nat)
    requires 0 < sub < npages && j <= end <= npages && npages + 2 <= |s.found.pages| && restored <= |s.found.pages|
    requires forall n: nat | s.found.tick <= n < s.found.tick + (end - j) :: clock(n) >= 0.99 * s.found.baseline
    ensures var r := Parts(clock, s, j, end, sub, npages, restored);
            s.found.tick <= r.found.tick <= s.found.tick + (end - j) &&
            r == Tally(s.found.(tick := r.found.tick), s.nodiff)
    decreases end - j
  {
    hide *;
    if j < end {
      PartsStep(clock, s, j, end, sub, npages, restored);
      var c := if j + sub > end then end - j else sub;
      PartLeft(clock, s, j, c, npages, restored);
      QuietParts(clock, PartDone(clock, s, j, c, npages, restored), j + c, end, c, npages, restored);
    } else {
      PartsEnd(clock, s, end, sub, npages, restored);
    }
  }

  /** Then test_chunk answers no, and the table, the baseline and available_index are as they were. */
  lemma Quiet(clock: nat -> real, s: Found, i: nat, chunk: nat, npages: nat, chunkBaseline: real, restored: nat)
    requires 1 <= chunk && i + chunk <= npages && 2 <= npages && npages + 2 <= |s.pages| && restored <= |s.pages|
    requires chunk > 20 || chunk == npages
    requires forall n: nat | s.tick <= n < s.tick + chunk :: clock(n) >= 0.99 * s.baseline
    ensures var r := Tested(clock, s, i, chunk, npages, chunkBaseline, restored);
            r.pages == s.pages && r.available == s.available && r.baseline == s.baseline && !r.modified
  {
    hide *;
    TestedParts(clock, s, i, chunk, npages, chunkBaseline, restored);
    QuietParts(clock, Tally(s.(modified := false), s.baseline), i, i + chunk, (chunk + 19) / 20, npages, restored);
  }

  /** The first m parts are left alone when their first readings are not clearly faster, and the search goes on
      with the next part. */
  lemma {:induction false} PartsBefore(clock: nat -> real, s: Tally, j: nat, end: nat, sub: nat, npages: nat,
                                       restored: nat, m: nat)
    requires 0 < sub < npages && j + m * sub <= end <= npages && npages + 2 <= |s.found.pages| &&
             restored <= |s.found.pages|
    requires forall n: nat | s.found.tick <= n < s.found.tick + m :: clock(n) >= 0.99 * s.found.baseline
    ensures j <= j + m * sub
    ensures Parts(clock, s, j, end, sub, npages, restored) ==
            Parts(clock, Tally(s.found.(tick := s.found.tick + m), s.nodiff), j + m * sub, end, sub, npages, restored)
    decreases m
  {
    hide *;
    if m > 0 {
      assert m * sub == sub + (m - 1) * sub && (m - 1) * sub >= 0;
      PartsStep(clock, s, j, end, sub, npages, restored);
      PartLeft(clock, s, j, sub, npages, restored);
      PartsBefore(clock, PartDone(clock, s, j, sub, npages, restored), j + sub, end, sub, npages, restored, m - 1);
    }
  }

  /** What is changed stays changed. */
  lemma {:induction false} ModifiedStays(clock: nat -> real, s: Tally, j: nat, end: nat, sub: nat, npages: nat,
                                         restored: nat)
    requires 0 < sub < npages && j <= end <= npages && npages + 2 <= |s.found.pages| && restored <= |s.found.pages|
    requires s.found.modified
    ensures Parts(clock, s, j, end, sub, npages, restored).found.modified
    decreases end - j
  {
    hide Parts, Tested;
    if j < end {
      PartsStep(clock, s, j, end, sub, npages, restored);
      var c := if j + sub > end then end - j else sub;
      ModifiedStays(clock, PartDone(clock, s, j, c, npages, restored), j + c, end, c, npages, restored);
    } else {
      PartsEnd(clock, s, end, sub, npages, restored);
    }
  }

  /** How often the first part of a chunk is cut up again before it goes to fixup_chunk, and its size then. */
  function Depth(chunk: nat, npages: nat): nat
    requires 1 <= chunk && 2 <= npages
  {
    if chunk <= 20 && chunk < npages then 0 else 1 + Depth((chunk + 19) / 20, npages)
  }

  function Core(chunk: nat, npages: nat): (c: nat)
    requires 1 <= chunk && 2 <= npages
    ensures 1 <= c <= 20
  {
    if chunk <= 20 && chunk < npages then chunk else Core((chunk + 19) / 20, npages)
  }

  /** At every cut the first part is suspected, and fixup_chunk then finds one better page for the last of these. */
  ghost predicate Promising(clock: nat -> real, tick: nat, chunk: nat, npages: nat)
    requires 1 <= chunk && 2 <= npages
  {
    var from := tick + 2 * Depth(chunk, npages);
    && (forall n: nat | tick <= n < from :: clock(n) == 0.6)
    && CheapOnce(clock, from, from + Core(chunk, npages))
  }

  lemma PromisingPart(clock: nat -> real, tick: nat, chunk: nat, npages: nat)
    requires 1 <= chunk && 2 <= npages && (chunk > 20 || chunk >= npages) && Promising(clock, tick, chunk, npages)
    ensures Promising(clock, tick + 2, (chunk + 19) / 20, npages) && clock(tick) == 0.6 && clock(tick + 1) == 0.6
  {
    hide CheapOnce;
  }

  lemma PromisingCore(clock: nat -> real, tick: nat, chunk: nat, npages: nat)
    requires 1 <= chunk <= 20 && 2 <= npages && chunk < npages && Promising(clock, tick, chunk, npages)
    ensures CheapOnce(clock, tick, tick + chunk)
  {
    hide CheapOnce;
  }

  lemma {:induction false} PromisingFinds(clock: nat -> real, s: Found, i: nat, chunk: nat, npages: nat,
                                          chunkBaseline: real, restored: nat)
    requires 1 <= chunk && i + chunk <= npages && 2 <= npages && npages + 2 <= |s.pages| && restored <= |s.pages|
    requires Promising(clock, s.tick, chunk, npages) && s.baseline > 2.1
    requires chunk <= 20 && chunk < npages ==> chunkBaseline == 0.6
    ensures Tested(clock, s, i, chunk, npages, chunkBaseline, restored).modified
    decreases chunk
  {
    hide *;
    if chunk <= 20 && chunk < npages {
      PromisingCore(clock, s.tick, chunk, npages);
      CheapFixup(clock, s.pages, s.tick, s.available, i, chunk, npages, s.baseline, restored);
      TestedFixed(clock, s, i, chunk, npages, 0.6, restored);
    } else {
      var sub, u := (chunk + 19) / 20, Tally(s.(modified := false), s.baseline);
      TestedParts(clock, s, i, chunk, npages, chunkBaseline, restored);
      PromisingPart(clock, s.tick, chunk, npages);
      PartHanded(clock, u, i, sub, npages, restored);
      PromisingFinds(clock, Found(s.pages, s.tick + 2, s.available, s.baseline, false), i, sub, npages, 0.6, restored);
      PartsStep(clock, u, i, i + chunk, sub, npages, restored);
      ModifiedStays(clock, PartDone(clock, u, i, sub, npages, restored), i + sub, i + chunk, sub, npages, restored);
    }
  }

  /** For every table and every chunk that is cut up, some clock makes test_chunk answer yes, whatever the
      available_index, and for every baseline above 2.1. */
  lemma SomeClockFinds(s: Found, i: nat, chunk: nat, npages: nat, chunkBaseline: real, restored: nat)
    returns (clock: nat -> real)
    requires 1 <= chunk && i + chunk <= npages && 2 <= npages && npages + 2 <= |s.pages| && restored <= |s.pages|
    requires (chunk > 20 || chunk == npages) && s.baseline > 2.1
    ensures Tested(clock, s, i, chunk, npages, chunkBaseline, restored).modified
  {
    var from, core := s.tick + 2 * Depth(chunk, npages), Core(chunk, npages);
    clock := n => if n < from then 0.6 else if n == from + core then 0.5 else 2.0;
    assert Promising(clock, s.tick, chunk, npages);
    PromisingFinds(clock, s, i, chunk, npages, chunkBaseline, restored);
  }

  // ----- collect_sample

  /** The rounds of collect_sample: at most n more, as long as the last one changed something. */
  function Sampled(clock: nat -> real, s: Found, npages: nat, restored: nat, n: nat): (r: Found)
    requires 2 <= npages && npages + 2 <= |s.pages| && restored <= |s.pages|
    ensures |r.pages| == |s.pages|
    decreases n
  {
    if n == 0 || !s.modified then s
    else Sampled(clock, Tested(clock, s, 0, npages, npages, 0.0, restored), npages, restored, n - 1)
  }

  lemma SampledStep(clock: nat -> real, s: Found, npages: nat, restored: nat, n: nat)
    requires 2 <= npages && npages + 2 <= |s.pages| && restored <= |s.pages| && n > 0 && s.modified
    ensures Sampled(clock, s, npages, restored, n) ==
            Sampled(clock, Tested(clock, s, 0, npages, npages, 0.0, restored), npages, restored, n - 1)
  {
    hide Tested;
  }

  lemma SampledEnd(clock: nat -> real, s: Found, npages: nat, restored: nat, n: nat)
    requires 2 <= npages && npages + 2 <= |s.pages| && restored <= |s.pages| && (n == 0 || !s.modified)
    ensures Sampled(clock, s, npages, restored, n) == s
  {
  }

  /** When no later reading is clearly below the first, one round is made and nothing changes. */
  lemma QuietSample(clock: nat -> real, s: Found, npages: nat, restored: nat)
    requires 2 <= npages && npages + 2 <= |s.pages| && restored <= |s.pages| && s.modified
    requires forall n: nat | s.tick <= n < s.tick + npages :: clock(n) >= 0.99 * s.baseline
    ensures var r := Sampled(clock, s, npages, restored, 8);
            r.pages == s.pages && r.available == s.available && r.baseline == s.baseline
  {
    hide *;
    Quiet(clock, s, 0, npages, npages, 0.0, restored);
    SampledStep(clock, s, npages, restored, 8);
    SampledEnd(clock, Tested(clock, s, 0, npages, npages, 0.0, restored), npages, restored, 7);
  }

  /** collect_sample: the first measurement is the baseline, and pages are tried when there are several. */
  function Collected(clock: nat -> real, pages: seq<int>, tick: nat, available: nat, npages: nat,
                     restored: nat): (r: Found)
    requires (npages > 1 ==> npages + 2 <= |pages|) && restored <= |pages|
    ensures |r.pages| == |pages|
  {
    var first := Found(pages, tick + 1, available, clock(tick), true);
    if npages > 1 then Sampled(clock, first, npages, restored, 8) else first
  }

  lemma CollectedIs(clock: nat -> real, pages: seq<int>, tick: nat, available: nat, npages: nat, restored: nat)
    requires (npages > 1 ==> npages + 2 <= |pages|) && restored <= |pages|
    ensures Collected(clock, pages, tick, available, npages, restored) ==
            var first := Found(pages, tick + 1, available, clock(tick), true);
            if npages > 1 then Sampled(clock, first, npages, restored, 8) else first
  {
    hide Sampled;
  }

  // ----- search

  /** The samples' latencies and ratios, the table, the clock's next reading and available_index. */
  datatype Profile = Profile(lat: seq<real>, ratio: seq<real>, pages: seq<int>, tick: nat, available: nat)

  /** Samples of these numbers of pages leave two pages to spare, if there is anything to exchange. */
  ghost predicate Sparing(counts: seq<nat>, left: nat, right: nat, ntotal: nat) {
    right <= |counts| && forall x | left < x < right :: counts[x] > 1 ==> counts[x] + 2 <= ntotal
  }

  /** The ratio of the right sample to the left one; a left sample slower than the right one is overruled. */
  function Rated(p: Profile, left: nat, right: nat): (r: Profile)
    requires left < |p.lat| == |p.ratio| && right < |p.lat|
    ensures |r.lat| == |p.lat| && |r.ratio| == |p.ratio| && r.pages == p.pages && r.tick == p.tick
    ensures r.available == p.available && forall x | 0 <= x < |p.lat| && x != left :: r.lat[x] == p.lat[x]
  {
    if p.lat[left] <= 0.0 then p
    else if p.lat[right] / p.lat[left] < 0.98 then
      p.(lat := p.lat[left := p.lat[right]], ratio := p.ratio[left := 1.0])
    else p.(ratio := p.ratio[left := p.lat[right] / p.lat[left]])
  }

  /** The sample in the middle is taken. */
  function Sampling(clock: nat -> real, p: Profile, middle: nat, npages: nat, restored: nat): (r: Profile)
    requires middle < |p.lat| && (npages > 1 ==> npages + 2 <= |p.pages|) && restored <= |p.pages|
    ensures |r.lat| == |p.lat| && r.ratio == p.ratio && |r.pages| == |p.pages|
  {
    var f := Collected(clock, p.pages, p.tick, p.available, npages, restored);
    Profile(p.lat[middle := f.baseline], p.ratio, f.pages, f.tick, f.available)
  }

  /** search, over samples of these numbers of pages: the right half first. */
  ghost function Searched(clock: nat -> real, p: Profile, left: nat, right: nat, counts: seq<nat>,
                          restored: nat): (r: Profile)
    requires left <= right < |p.lat| == |p.ratio| == |counts| && Sparing(counts, left, right, |p.pages|)
    requires restored <= |p.pages|
    ensures |r.lat| == |r.ratio| == |p.lat| && |r.pages| == |p.pages|
    decreases right - left
  {
    var q, middle := Rated(p, left, right), left + (right - left) / 2;
    if middle == left || middle == right || !(q.ratio[left] > 1.35 || q.ratio[left] < 0.97) then q
    else
      var u := Sampling(clock, q, middle, counts[middle], restored);
      Searched(clock, Searched(clock, u, middle, right, counts, restored), left, middle, counts, restored)
  }

  lemma SearchedSplit(clock: nat -> real, p: Profile, left: nat, right: nat, counts: seq<nat>, restored: nat)
    requires left <= right < |p.lat| == |p.ratio| == |counts| && Sparing(counts, left, right, |p.pages|)
    requires restored <= |p.pages|
    ensures var q, middle := Rated(p, left, right), left + (right - left) / 2;
            && (left < middle < right ==>
                  Sparing(counts, middle, right, |p.pages|) && Sparing(counts, left, middle, |p.pages|) &&
                  (counts[middle] > 1 ==> counts[middle] + 2 <= |p.pages|))
            && Searched(clock, p, left, right, counts, restored) ==
               if left < middle < right && (q.ratio[left] > 1.35 || q.ratio[left] < 0.97)
               then var u := Sampling(clock, q, middle, counts[middle], restored);
                    Searched(clock, Searched(clock, u, middle, right, counts, restored), left, middle, counts, restored)
               else q
  {
    hide Sampling, Rated;
  }

  lemma RatedIs(p: Profile, left: nat, right: nat)
    requires left < |p.lat| == |p.ratio| && right < |p.lat|
    ensures Rated(p, left, right) ==
            if p.lat[left] <= 0.0 then p
            else if p.lat[right] / p.lat[left] < 0.98 then
              Profile(p.lat[left := p.lat[right]], p.ratio[left := 1.0], p.pages, p.tick, p.available)
            else Profile(p.lat, p.ratio[left := p.lat[right] / p.lat[left]], p.pages, p.tick, p.available)
  {
  }

  /** The latency recorded in the middle is the baseline collect_sample ends with. */
  lemma SamplingIs(clock: nat -> real, p: Profile, middle: nat, npages: nat, restored: nat)
    requires middle < |p.lat| && (npages > 1 ==> npages + 2 <= |p.pages|) && restored <= |p.pages|
    ensures var f := Collected(clock, p.pages, p.tick, p.available, npages, restored);
            var r := Sampling(clock, p, middle, npages, restored);
            && r.lat == p.lat[middle := f.baseline] && r.ratio == p.ratio
            && r.pages == f.pages && r.tick == f.tick && r.available == f.available
  {
    hide Collected;
  }
}
