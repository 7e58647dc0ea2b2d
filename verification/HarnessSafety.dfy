/** What holds in every run of benchmp, for any number of children and in any order of steps. */
module HarnessSafety {
  import opened Options
  import opened Results
  import opened Harness
  import opened HarnessInv

  lemma RunShape(f: Config, run: seq<State>, actions: seq<Action>)
    requires Run(f, run, actions)
    ensures |run| == |actions| + 1 && run[0] == Initial(f)
  {
  }

  /** Every state of every run satisfies the invariant. */
  lemma {:induction false} RunInv(f: Config, run: seq<State>, actions: seq<Action>, k: nat)
    requires f.Valid() && Run(f, run, actions) && k < |run|
    ensures Inv(f, run[k])
  {
    if k == 0 {
      InitInv(f);
    } else {
      RunInv(f, run, actions, k - 1);
      assert Moves(f, run, actions, k - 1);
      StepInv(f, run[k - 1], actions[k - 1]);
    }
  }

  // ----- overlap

  /** benchmp_interval's state is timing_interval. */
  predicate InInterval(p: Phase) {
    p.SawStart? || p.Timing? || p.SendDone?
  }

  /** Ready was sent, and the child is still running the benchmark: it has not seen a result byte. */
  predicate InLoop(p: Phase) {
    p == Warm(false) || p == SawStart(false) || p.Timing? || p.SendDone? || p.Cool?
  }

  /** While any child is in a timing interval, every child runs the benchmark. */
  lemma OverlapSafety(f: Config, run: seq<State>, actions: seq<Action>, k: nat, c: nat, d: nat)
    requires f.Valid() && Run(f, run, actions) && k < |run|
    requires c < f.parallel && d < f.parallel
    ensures |run[k].kids| == f.parallel
    ensures InInterval(run[k].kids[c].phase) ==> InLoop(run[k].kids[d].phase)
  {
    var s := run[k];
    RunInv(f, run, actions, k);
    hide Run, Moves, Count, Log, Record;
    assert KidOk(f, s.kids[c]) && KidOk(f, s.kids[d]);
    hide KidsOk, Sorted, Timed;
  }

  // ----- records

  /** Every record the parent has read is one child's, whole, and no two are of the same child. */
  lemma RecordsWhole(f: Config, run: seq<State>, actions: seq<Action>, k: nat, j: nat)
    requires f.Valid() && Run(f, run, actions) && k < |run| && j < |run[k].records|
    ensures var r := run[k].records;
            && Owner(r[j]) < f.parallel && r[j] == Record(f, Owner(r[j]))
            && (forall i | 0 <= i < |r| && i != j :: Owner(r[i]) != Owner(r[j]))
  {
    RunInv(f, run, actions, k);
    hide Run, Stage, Record, Owner;
    assert Whole(f, run[k], run[k].records[j]);
  }

  lemma ProductMonotone(a: nat, b: nat, m: nat)
    requires a <= b
    ensures a * m <= b * m
  {
  }

  /** No table grows beyond what sizeof_result allows, unless repetitions is 0 and there are many children
      (see HarnessProgress.CapacityExact). */
  lemma TablesFit(f: Config, run: seq<State>, actions: seq<Action>, k: nat, c: nat)
    requires f.Valid() && Run(f, run, actions) && k < |run| && c < f.parallel
    requires f.repetitions >= 1 || f.parallel <= TRIES
    ensures |run[k].kids| == f.parallel && |run[k].kids[c].table| <= Capacity(f.repetitions)
    ensures |run[k].merged| <= Capacity(f.parallel * f.repetitions)
  {
    var s := run[k];
    RunInv(f, run, actions, k);
    assert KidOk(f, s.kids[c]);
    ChildFits(f.repetitions);
    assert |s.records| <= f.parallel by { hide Record, Count; }
    MergedFits(f.parallel, f.repetitions);
    hide Run, Stage, KidsOk, Distinct, Whole;
    ProductMonotone(|s.records|, f.parallel, MaxSamples(f.repetitions));
  }

  // ----- the end of a run

  predicate AllDone(s: State) {
    s.parent.Finished? && forall c | 0 <= c < |s.kids| :: s.kids[c].phase.Exited?
  }

  /** The values of every child. */
  function AllValues(kids: seq<Kid>): multiset<Value> {
    if kids == [] then multiset{} else AllValues(kids[..|kids| - 1]) + multiset(kids[|kids| - 1].table)
  }

  lemma {:induction false} AllReported(kids: seq<Kid>)
    requires forall c | 0 <= c < |kids| :: Rank(kids[c].phase) >= 5
    ensures Total(kids, None) == AllValues(kids)
  {
    if kids != [] {
      AllReported(kids[..|kids| - 1]);
      hide Total;
      TotalLast(kids, None);
    }
  }

  /** When the parent sends exit bytes, its table is the sum of all children's, sorted. */
  lemma Merged(f: Config, s: State)
    requires Inv(f, s) && (s.parent.SendExit? || s.parent.Finished?)
    ensures multiset(s.merged) == AllValues(s.kids) && Sorted(s.merged) && |s.records| == f.parallel
  {
    AllReported(s.kids);
  }

  // ----- the samples taken

  /** The sample child c takes in this step, if it took any time. */
  function TakenIn(a: Action, c: nat): multiset<Value> {
    if a.Interval? && a.c == c && a.sample.Some? && a.sample.value.u > 0 then multiset{a.sample.value} else multiset{}
  }

  /** All of child c's. */
  function Taken(actions: seq<Action>, c: nat): multiset<Value> {
    if actions == [] then multiset{}
    else Taken(actions[..|actions| - 1], c) + TakenIn(actions[|actions| - 1], c)
  }

  /** Those of the first n children. */
  function AllTaken(actions: seq<Action>, n: nat): multiset<Value> {
    if n == 0 then multiset{} else AllTaken(actions, n - 1) + Taken(actions, n - 1)
  }

  lemma StepTable(f: Config, s: State, a: Action, c: nat)
    requires Enabled(f, s, a) && c < |s.kids|
    ensures var s' := Step(f, s, a);
            |s'.kids| == |s.kids| && multiset(s'.kids[c].table) == multiset(s.kids[c].table) + TakenIn(a, c)
  {
    if a.Interval? && a.sample.Some? { InsertSame(s.kids[a.c].table, a.sample.value); }
    hide Insert, Merge, TableIn, Record, Polled;
  }

  /** At any time in any run a child's table holds exactly the samples it has taken. */
  lemma {:induction false} TableHolds(f: Config, run: seq<State>, actions: seq<Action>, k: nat, c: nat)
    requires Run(f, run, actions) && k < |run| && c < f.parallel
    ensures |run[k].kids| == f.parallel && multiset(run[k].kids[c].table) == Taken(actions[..k], c)
  {
    hide Enabled, Step, TakenIn;
    if k > 0 {
      TableHolds(f, run, actions, k - 1, c);
      assert Moves(f, run, actions, k - 1);
      StepTable(f, run[k - 1], actions[k - 1], c);
      assert actions[..k][..k - 1] == actions[..k - 1];
    }
  }

  /** How many samples child c has taken, also those of no time. */
  function SamplesTaken(actions: seq<Action>, c: nat): nat {
    if actions == [] then 0
    else
      var a := actions[|actions| - 1];
      SamplesTaken(actions[..|actions| - 1], c) + if a.Interval? && a.c == c && a.sample.Some? then 1 else 0
  }

  /** Some interval made it give up. */
  predicate GaveUp(actions: seq<Action>, c: nat) {
    exists j | 0 <= j < |actions| :: actions[j].Interval? && actions[j].c == c && actions[j].giveUp
  }

  /** How a child that has counted n samples, and given up or not, is getting on. */
  predicate Counting(f: Config, kid: Kid, n: nat, gaveUp: bool) {
    && kid.i == n && (Rank(kid.phase) < 2 ==> n == 0 && !gaveUp)
    && (Rank(kid.phase) >= 2 ==> (kid.phase.Timing? <==> !gaveUp && (n == 0 || n < f.repetitions)))
  }

  lemma StepCounting(f: Config, s: State, a: Action, c: nat, n: nat, gaveUp: bool)
    requires Enabled(f, s, a) && c < |s.kids| && Counting(f, s.kids[c], n, gaveUp)
    ensures var s' := Step(f, s, a);
            var mine := a.Interval? && a.c == c;
            |s'.kids| == |s.kids| && Counting(f, s'.kids[c], if mine && a.sample.Some? then n + 1 else n,
                                              gaveUp || (mine && a.giveUp))
  {
    hide Insert, Merge, TableIn, Record;
  }

  /** A child that has started is in its intervals until it has taken one sample, and as many as repetitions, or
      one of its intervals made it give up; it stops right then. */
  lemma {:induction false} StopsExactly(f: Config, run: seq<State>, actions: seq<Action>, k: nat, c: nat)
    requires Run(f, run, actions) && k < |run| && c < f.parallel
    ensures |run[k].kids| == f.parallel
    ensures Counting(f, run[k].kids[c], SamplesTaken(actions[..k], c), GaveUp(actions[..k], c))
  {
    hide Enabled, Step, Counting, GaveUp;
    if k > 0 {
      StopsExactly(f, run, actions, k - 1, c);
      assert Moves(f, run, actions, k - 1);
      StepCounting(f, run[k - 1], actions[k - 1], c, SamplesTaken(actions[..k - 1], c), GaveUp(actions[..k - 1], c));
      GaveUpNext(actions[..k], c);
      assert actions[..k][..k - 1] == actions[..k - 1];
    } else {
      StartsCounting(f, c);
    }
  }

  lemma StartsCounting(f: Config, c: nat)
    requires c < f.parallel
    ensures Counting(f, Initial(f).kids[c], 0, GaveUp([], c))
  {
  }

  lemma GaveUpNext(actions: seq<Action>, c: nat)
    requires actions != []
    ensures var n := |actions| - 1;
            GaveUp(actions, c) <==> GaveUp(actions[..n], c) ||
                                    (actions[n].Interval? && actions[n].c == c && actions[n].giveUp)
  {
    var n := |actions| - 1;
    if GaveUp(actions[..n], c) {
      var j :| 0 <= j < n && actions[..n][j].Interval? && actions[..n][j].c == c && actions[..n][j].giveUp;
      assert actions[j] == actions[..n][j];
    }
    if GaveUp(actions, c) {
      var j :| 0 <= j < |actions| && actions[j].Interval? && actions[j].c == c && actions[j].giveUp;
      if j < n { assert actions[..n][j] == actions[j]; }
    }
  }

  lemma {:induction false} AllTables(kids: seq<Kid>, actions: seq<Action>)
    requires forall c | 0 <= c < |kids| :: multiset(kids[c].table) == Taken(actions, c)
    ensures AllValues(kids) == AllTaken(actions, |kids|)
  {
    if kids != [] { AllTables(kids[..|kids| - 1], actions); }
  }

  /** At the end of any run the parent's table holds exactly the samples all children have taken, sorted. */
  lemma MergedHolds(f: Config, run: seq<State>, actions: seq<Action>, k: nat)
    requires f.Valid() && Run(f, run, actions) && k < |run| && (run[k].parent.SendExit? || run[k].parent.Finished?)
    ensures multiset(run[k].merged) == AllTaken(actions[..k], f.parallel) && Sorted(run[k].merged)
  {
    hide *;
    RunShape(f, run, actions);
    RunInv(f, run, actions, k);
    Merged(f, run[k]);
    forall c: nat | c < f.parallel
      ensures |run[k].kids| == f.parallel && multiset(run[k].kids[c].table) == Taken(actions[..k], c)
    {
      TableHolds(f, run, actions, k, c);
    }
    AtLeastOne(f);
    TableHolds(f, run, actions, k, 0);
    AllTables(run[k].kids, actions[..k]);
  }

  lemma AtLeastOne(f: Config)
    requires f.Valid()
    ensures f.parallel >= 1
  {
  }

  /** Two runs that took the same samples report the same median ratio for an odd number of them, whatever
      order they came in, also when the numbers of iterations differ. */
  lemma MedianAnyOrder(f: Config, run: seq<State>, actions: seq<Action>, run': seq<State>, actions': seq<Action>,
                       k: nat, k': nat)
    requires f.Valid() && Run(f, run, actions) && Run(f, run', actions') && k < |run| && k' < |run'|
    requires run[k].parent.Finished? && run'[k'].parent.Finished?
    requires AllTaken(actions[..k], f.parallel) == AllTaken(actions'[..k'], f.parallel)
    requires |AllTaken(actions[..k], f.parallel)| % 2 == 1
    ensures Ratio(Median(run[k].merged)) == Ratio(Median(run'[k'].merged))
  {
    hide *;
    MergedHolds(f, run, actions, k);
    MergedHolds(f, run', actions', k');
    assert |run[k].merged| == |multiset(run[k].merged)|;
    OddMedian(run[k].merged, run'[k'].merged);
  }

  lemma {:induction false} AllCounts(kids: seq<Kid>, n: nat)
    requires forall c | 0 <= c < |kids| :: Counts(kids[c].table, n)
    ensures forall v | v in AllValues(kids) :: v.n == n
  {
    if kids != [] {
      var last := kids[|kids| - 1].table;
      AllCounts(kids[..|kids| - 1], n);
      assert Counts(last, n);
      forall v | v in AllValues(kids) ensures v.n == n {
        if v !in AllValues(kids[..|kids| - 1]) { assert v in last; }
      }
    }
  }

  lemma MergedCounts(f: Config, s: State)
    requires Inv(f, s) && s.parent.Finished? && f.parallel > 1
    ensures Counts(s.merged, f.iterations)
  {
    Merged(f, s);
    assert forall c | 0 <= c < |s.kids| :: KidOk(f, s.kids[c]) ==> Counts(s.kids[c].table, f.iterations);
    AllCounts(s.kids, f.iterations);
    forall x | 0 <= x < |s.merged| ensures s.merged[x].n == f.iterations {
      assert s.merged[x] in multiset(s.merged);
    }
  }

  /** With several children every interval has the same number of iterations, and then the median itself does
      not depend on the order in which they answer, for any number of samples. */
  lemma MedianParallel(f: Config, run: seq<State>, actions: seq<Action>, run': seq<State>, actions': seq<Action>,
                       k: nat, k': nat)
    requires f.Valid() && f.parallel > 1
    requires Run(f, run, actions) && Run(f, run', actions') && k < |run| && k' < |run'|
    requires run[k].parent.Finished? && run'[k'].parent.Finished?
    requires AllTaken(actions[..k], f.parallel) == AllTaken(actions'[..k'], f.parallel)
    ensures Median(run[k].merged) == Median(run'[k'].merged)
  {
    hide *;
    RunInv(f, run, actions, k);
    MergedHolds(f, run, actions, k);
    MergedHolds(f, run', actions', k');
    MergedCounts(f, run[k]);
    ValidCounts(f);
    CountMedian(run[k].merged, run'[k'].merged, f.iterations);
  }

  lemma ValidCounts(f: Config)
    requires f.Valid()
    ensures f.iterations > 0
  {
  }

  /** When all is done every child has read exactly one byte of each kind, and the pipes are empty. */
  lemma BytesConserved(f: Config, run: seq<State>, actions: seq<Action>, k: nat, c: nat)
    requires f.Valid() && Run(f, run, actions) && k < |run| && AllDone(run[k]) && c < f.parallel
    ensures var s := run[k];
            && |s.kids| == f.parallel && s.kids[c].starts == 1 && s.kids[c].results == 1 && s.kids[c].exits == 1
            && s.start == 0 && s.result == 0 && s.exit == 0 && s.resp == []
  {
    var s := run[k];
    RunInv(f, run, actions, k);
    assert KidOk(f, s.kids[c]);
    CountAll(s.kids, 6);
  }
}
