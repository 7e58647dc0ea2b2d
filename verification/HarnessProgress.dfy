/** benchmp never gets stuck: some process can always make progress, and only so much progress can be made. */
module HarnessProgress {
  import opened Arith
  import opened Options
  import opened Results
  import opened Harness
  import opened HarnessInv
  import opened HarnessSafety

  // ----- how much is left to do

  /** Steps a child has before it, apart from polls that find nothing and intervals without a sample. */
  function KidWork(f: Config, kid: Kid): nat {
    var m := MaxSamples(f.repetitions);
    match kid.phase
    case Exited => 0
    case WaitExit => 1
    case Report(w) => if w < f.size then 1 + (f.size - w) else 1
    case SawResult => f.size + 2
    case Cool => f.size + 3
    case SendDone => f.size + 4
    case Timing => f.size + 4 + (if kid.i < m then m - kid.i else 0)
    case SawStart(needWarmup) => f.size + m + (if needWarmup then 8 else 5)
    case Warm(needWarmup) => f.size + m + (if needWarmup then 9 else 6)
    case SendReady(_) => f.size + m + 7
  }

  function KidsWork(f: Config, kids: seq<Kid>): nat {
    if kids == [] then 0 else KidsWork(f, kids[..|kids| - 1]) + KidWork(f, kids[|kids| - 1])
  }

  /** n records: a result byte to write, and size bytes to read, for each. */
  function Records(f: Config, n: int): int {
    n * (f.size + 1)
  }

  lemma RecordsLess(f: Config, n: int)
    ensures Records(f, n) == Records(f, n - 1) + f.size + 1 && Records(f, 0) == 0
  {
  }

  lemma RecordsLeft(f: Config, n: nat)
    ensures Records(f, n) >= 0
  {
  }

  /** Reads and writes of the parent to come. */
  function ParentWork(f: Config, p: Parent): int {
    var n := f.parallel;
    match p
    case CollectReady(i) => (n - i) + n + n + Records(f, n) + n
    case SendStart(k) => (n - k) + n + Records(f, n) + n
    case CollectDone(i) => (n - i) + Records(f, n) + n
    case SendResult(i) => Records(f, n - i) + n
    case ReadRecord(i, buf) => Records(f, n - i) - 1 - |buf| + n
    case SendExit(k) => n - k
    case Finished => 0
  }

  function Work(f: Config, s: State): int {
    KidsWork(f, s.kids) + ParentWork(f, s.parent)
  }

  lemma {:induction false} KidsWorkPut(f: Config, kids: seq<Kid>, c: nat, kid: Kid)
    requires c < |kids|
    ensures KidsWork(f, kids[c := kid]) == KidsWork(f, kids) - KidWork(f, kids[c]) + KidWork(f, kid)
  {
    hide KidWork;
    var n := |kids| - 1;
    var k' := kids[c := kid];
    if c < n {
      KidsWorkPut(f, kids[..n], c, kid);
      assert k'[..n] == kids[..n][c := kid];
    } else {
      assert k'[..n] == kids[..n];
    }
  }

  // ----- steps make progress, or nothing happens

  lemma KidStep(f: Config, s: State, a: Action)
    requires Enabled(f, s, a) && !a.ParentRead? && !a.ParentWrite? && KidOk(f, s.kids[a.c])
    ensures var s' := Step(f, s, a);
            && s'.kids == s.kids[a.c := s'.kids[a.c]] && s'.parent == s.parent
            && (s' == s || KidWork(f, s'.kids[a.c]) < KidWork(f, s.kids[a.c]))
  {
    hide Sorted, Timed, Insert;
  }

  lemma RecordIndex(f: Config, s: State)
    requires Stage(f, s)
    ensures match s.parent
            case CollectReady(i) => i < f.parallel
            case SendStart(k) => k < f.parallel
            case CollectDone(i) => i < f.parallel
            case SendResult(i) => i < f.parallel
            case ReadRecord(i, buf) => i < f.parallel && |buf| < f.size
            case SendExit(k) => k < f.parallel
            case Finished => true
  {
    hide Record, Count;
  }

  lemma ParentStep(f: Config, s: State, a: Action)
    requires f.Valid() && Stage(f, s) && Enabled(f, s, a) && (a.ParentRead? || a.ParentWrite?)
    ensures Step(f, s, a).kids == s.kids && ParentWork(f, Step(f, s, a).parent) < ParentWork(f, s.parent)
  {
    hide Stage, Merge, TableIn, Records;
    RecordIndex(f, s);
    if s.parent.ReadRecord? || s.parent.SendResult? { RecordsLess(f, f.parallel - s.parent.i); }
  }

  /** Every step brings the run closer to its end, or changes nothing. */
  lemma StepWork(f: Config, s: State, a: Action)
    requires Inv(f, s) && Enabled(f, s, a)
    ensures Work(f, Step(f, s, a)) < Work(f, s) || Step(f, s, a) == s
  {
    ActorExists(f, s, a);
    InvParts(f, s);
    var s' := Step(f, s, a);
    if a.ParentRead? || a.ParentWrite? {
      ParentStep(f, s, a);
    } else {
      KidIsOk(f, s, a.c);
      KidStep(f, s, a);
      KidsWorkPut(f, s.kids, a.c, s'.kids[a.c]);
    }
    hide Step, Enabled, KidsOk, Stage, Log, KidWork, ParentWork, KidsWork, KidOk;
  }

  // ----- some process can always make progress

  /** An interval, if it is one, takes a sample of 1 microsecond. */
  predicate Timely(f: Config, a: Action) {
    a.Interval? ==> a.sample == Some(Value(1, f.iterations)) && !a.giveUp
  }

  /** A child that has not read its start byte, finished its intervals and sent done can get on with that,
      if the parent is not behind with its reading. */
  lemma BeforeDone(f: Config, s: State, c: nat) returns (a: Action)
    requires Inv(f, s) && c < |s.kids| && Rank(s.kids[c].phase) < 3
    requires Rank(s.kids[c].phase) == 1 ==> s.start > 0
    requires |s.resp| < f.capacity || Rank(s.kids[c].phase) == 1
    ensures Enabled(f, s, a) && Step(f, s, a) != s && Timely(f, a)
  {
    KidIsOk(f, s, c);
    hide Inv, Sorted, Timed, Insert;
    a := match s.kids[c].phase
         case Warm(_) => Poll(c)
         case SawStart(_) => ReadStart(c)
         case SendReady(_) => WriteReady(c)
         case Timing => Interval(c, Some(Value(1, f.iterations)), false)
         case _ => WriteDone(c);
    assert Step(f, s, a).kids[c] != s.kids[c];
  }

  lemma WhileCollecting(f: Config, s: State) returns (a: Action)
    requires Inv(f, s) && (s.parent.CollectReady? || s.parent.CollectDone?)
    ensures Enabled(f, s, a) && Step(f, s, a) != s && Timely(f, a)
  {
    InvParts(f, s);
    if |s.resp| > 0 {
      a := ParentRead;
      assert |Step(f, s, a).resp| < |s.resp|;
    } else {
      var r := if s.parent.CollectReady? then 1 else 3;
      assert Count(s.kids, r) < |s.kids| by { hide Record, Log, KidsOk; }
      var c := Behind(s.kids, r);
      if r == 3 && Rank(s.kids[c].phase) == 1 {
        CountAll(s.kids, 2);
        assert s.start > 0;
      }
      hide Stage, Log, KidsOk;
      a := BeforeDone(f, s, c);
    }
  }

  /** The parent tells the children to start: there is room, or a child that has not read its byte yet. */
  lemma WhileStarting(f: Config, s: State) returns (a: Action)
    requires Inv(f, s) && s.parent.SendStart?
    ensures Enabled(f, s, a) && Step(f, s, a) != s && Timely(f, a)
  {
    InvParts(f, s);
    if s.start < f.capacity {
      a := ParentWrite;
      WriteChanges(f, s);
    } else {
      assert Count(s.kids, 2) < |s.kids| && Ranks(s.kids, 1, 3) by { hide Record, Log, KidsOk; }
      var c := Behind(s.kids, 2);
      hide Stage, Log, KidsOk;
      a := BeforeDone(f, s, c);
    }
  }

  /** Or to exit. */
  lemma WhileReleasing(f: Config, s: State) returns (a: Action)
    requires Inv(f, s) && s.parent.SendExit?
    ensures Enabled(f, s, a) && Step(f, s, a) != s && Timely(f, a)
  {
    InvParts(f, s);
    if s.exit < f.capacity {
      a := ParentWrite;
      WriteChanges(f, s);
    } else {
      assert Count(s.kids, 6) < |s.kids| && Ranks(s.kids, 5, 6) by { hide Record, Log, KidsOk; }
      var c := Behind(s.kids, 6);
      hide Count, Record;
      a := ReadExit(c);
      assert Step(f, s, a).kids[c] != s.kids[c];
    }
  }

  lemma WhileAsking(f: Config, s: State)
    requires Inv(f, s) && s.parent.SendResult?
    ensures Room(f, s)
  {
    InvParts(f, s);
    hide Record, Count;
  }

  /** The parent waits for a record: the reporter can write, or a child that has not reported can get the byte. */
  lemma WhileReading(f: Config, s: State) returns (a: Action)
    requires Inv(f, s) && s.parent.ReadRecord?
    ensures Enabled(f, s, a) && Step(f, s, a) != s && Timely(f, a)
  {
    hide Record, Count, KidsOk, Log, Reporting, Idle;
    InvParts(f, s);
    if |s.resp| > 0 {
      a := ParentRead;
      assert |Step(f, s, a).resp| < |s.resp|;
    } else if s.reporter.None? {
      var c := Behind(s.kids, 4);
      Waiting(s.kids, c);
      a := if s.kids[c].phase.Cool? then Poll(c) else ReadResult(c);
      assert Step(f, s, a).kids[c] != s.kids[c];
    } else {
      ReporterWrites(f, s, s.reporter.value, s.parent.buf);
      a := WritePiece(s.reporter.value);
      assert |Step(f, s, a).resp| > |s.resp|;
    }
  }

  lemma Waiting(kids: seq<Kid>, c: nat)
    requires c < |kids| && Idle(kids, None) && Rank(kids[c].phase) < 4
    ensures kids[c].phase.Cool? || kids[c].phase.SawResult?
  {
  }

  lemma ReporterWrites(f: Config, s: State, o: nat, buf: seq<Byte>)
    requires Reporting(f, s, buf, o) && s.resp == [] && |buf| < f.size
    ensures o < |s.kids| && s.kids[o].phase.Report?
  {
    assert buf + s.resp == buf;
  }

  lemma WhileExiting(f: Config, s: State) returns (a: Action)
    requires Inv(f, s) && s.parent.Finished? && !AllDone(s)
    ensures Enabled(f, s, a) && Step(f, s, a) != s && Timely(f, a)
  {
    InvParts(f, s);
    var c: nat :| c < |s.kids| && !s.kids[c].phase.Exited?;
    CountAll(s.kids, 6);
    hide Count, Record;
    a := ReadExit(c);
    assert Step(f, s, a).kids[c] != s.kids[c];
  }

  /** No deadlock, however few bytes a pipe holds: until all is done, some process has a step that makes
      progress. */
  lemma NoDeadlock(f: Config, s: State) returns (a: Action)
    requires Inv(f, s) && !AllDone(s)
    ensures Enabled(f, s, a) && Step(f, s, a) != s && Work(f, Step(f, s, a)) < Work(f, s) && Timely(f, a)
  {
    hide *;
    match s.parent {
      case CollectReady(_) => a := WhileCollecting(f, s);
      case CollectDone(_) => a := WhileCollecting(f, s);
      case ReadRecord(_, _) => a := WhileReading(f, s);
      case Finished => a := WhileExiting(f, s);
      case SendStart(_) => a := WhileStarting(f, s);
      case SendExit(_) => a := WhileReleasing(f, s);
      case SendResult(_) =>
        a := ParentWrite;
        WhileAsking(f, s);
        WriteChanges(f, s);
    }
    StepWork(f, s, a);
  }

  lemma WriteChanges(f: Config, s: State)
    requires Room(f, s)
    ensures Enabled(f, s, ParentWrite) && Step(f, s, ParentWrite) != s && Timely(f, ParentWrite)
  {
  }

  // ----- whole runs

  lemma WorkLeft(f: Config, s: State)
    requires Inv(f, s)
    ensures Work(f, s) >= 0
  {
    hide *;
    InvParts(f, s);
    RecordIndex(f, s);
    ParentWorkLeft(f, s.parent);
    WorkSum(f, s);
  }

  lemma WorkSum(f: Config, s: State)
    ensures Work(f, s) == KidsWork(f, s.kids) + ParentWork(f, s.parent)
  {
  }

  lemma ParentWorkLeft(f: Config, p: Parent)
    requires match p
             case CollectReady(i) => i < f.parallel
             case SendStart(k) => k < f.parallel
             case CollectDone(i) => i < f.parallel
             case SendResult(i) => i < f.parallel
             case ReadRecord(i, buf) => i < f.parallel && |buf| < f.size
             case SendExit(k) => k < f.parallel
             case Finished => true
    ensures ParentWork(f, p) >= 0
  {
    hide Records;
    RecordsLeft(f, f.parallel);
    if p.SendResult? || p.ReadRecord? {
      RecordsLess(f, f.parallel - p.i);
      RecordsLeft(f, f.parallel - p.i - 1);
    }
  }

  /** How many steps of a run change anything. */
  function Moved(run: seq<State>): nat
    requires |run| > 0
  {
    if |run| == 1 then 0 else Moved(run[..|run| - 1]) + if run[|run| - 1] == run[|run| - 2] then 0 else 1
  }

  lemma RunPrefix(f: Config, run: seq<State>, actions: seq<Action>)
    requires Run(f, run, actions) && |actions| > 0
    ensures Run(f, run[..|actions|], actions[..|actions| - 1])
    ensures Moves(f, run, actions, |actions| - 1)
  {
    hide Initial;
    var r, b := run[..|actions|], actions[..|actions| - 1];
    forall k | 0 <= k < |b| ensures Moves(f, r, b, k) { assert Moves(f, run, actions, k); }
  }

  lemma LastMove(f: Config, run: seq<State>, actions: seq<Action>, n: nat)
    requires f.Valid() && Run(f, run, actions) && n + 1 == |actions|
    ensures Moved(run) == Moved(run[..|actions|]) + if run[n + 1] == run[n] then 0 else 1
    ensures Work(f, run[n + 1]) < Work(f, run[n]) || run[n + 1] == run[n]
  {
    RunInv(f, run, actions, n);
    assert Moves(f, run, actions, n);
    hide Work, Inv;
    StepWork(f, run[n], actions[n]);
  }

  /** No run makes more than Work(Initial) steps that change anything. */
  lemma {:induction false} BoundedRun(f: Config, run: seq<State>, actions: seq<Action>)
    requires f.Valid() && Run(f, run, actions)
    ensures Moved(run) + Work(f, run[|actions|]) <= Work(f, Initial(f)) && Moved(run) <= Work(f, Initial(f))
  {
    hide *;
    var n := |actions|;
    RunShape(f, run, actions);
    RunInv(f, run, actions, n);
    WorkLeft(f, run[n]);
    if n > 0 {
      RunPrefix(f, run, actions);
      LastMove(f, run, actions, n - 1);
      BoundedRun(f, run[..n], actions[..n - 1]);
    } else {
      NoMove(run);
    }
  }

  lemma NoMove(run: seq<State>)
    requires |run| == 1
    ensures Moved(run) == 0
  {
  }

  /** No sample was dropped for having taken no time. */
  ghost predicate Full(s: State) {
    forall c | 0 <= c < |s.kids| :: |s.kids[c].table| == s.kids[c].i
  }

  lemma FullStep(f: Config, s: State, a: Action)
    requires Full(s) && Enabled(f, s, a) && Timely(f, a)
    ensures Full(Step(f, s, a))
  {
    if a.Interval? { InsertSame(s.kids[a.c].table, a.sample.value); }
    hide Insert, Merge, TableIn, Record;
  }

  /** Every run can be continued until all is done. */
  lemma {:induction false} CanFinish(f: Config, run: seq<State>, actions: seq<Action>)
    returns (run': seq<State>, actions': seq<Action>)
    requires f.Valid() && Run(f, run, actions)
    ensures Run(f, run', actions') && run <= run' && actions <= actions' && AllDone(run'[|actions'|])
    ensures Full(run[|actions|]) ==> Full(run'[|actions'|])
    decreases Work(f, run[|actions|])
  {
    hide *;
    RunShape(f, run, actions);
    var s := run[|actions|];
    RunInv(f, run, actions, |actions|);
    if AllDone(s) { return run, actions; }
    WorkLeft(f, s);
    var a := NoDeadlock(f, s);
    RunOn(f, run, actions, a);
    if Full(s) { FullStep(f, s, a); }
    run', actions' := CanFinish(f, run + [Step(f, s, a)], actions + [a]);
  }

  lemma RunOn(f: Config, run: seq<State>, actions: seq<Action>, a: Action)
    requires Run(f, run, actions) && Enabled(f, run[|actions|], a)
    ensures Run(f, run + [Step(f, run[|actions|], a)], actions + [a])
  {
    hide Enabled, Step, Initial;
    var r, b := run + [Step(f, run[|actions|], a)], actions + [a];
    forall k | 0 <= k < |b| ensures Moves(f, r, b, k) {
      if k < |actions| { assert Moves(f, run, actions, k); }
    }
  }

  // ----- how large the tables get

  lemma {:induction false} AllSize(kids: seq<Kid>, m: nat)
    requires forall c | 0 <= c < |kids| :: |kids[c].table| == m
    ensures |AllValues(kids)| == |kids| * m
  {
    if kids != [] {
      AllSize(kids[..|kids| - 1], m);
      Distribute(|kids| - 1, 1, m);
    }
  }

  lemma DoneSize(f: Config, s: State)
    requires Inv(f, s) && AllDone(s) && Full(s) && f.parallel > 1
    ensures |s.merged| == f.parallel * MaxSamples(f.repetitions)
  {
    Merged(f, s);
    forall c | 0 <= c < |s.kids| ensures |s.kids[c].table| == MaxSamples(f.repetitions) { assert KidOk(f, s.kids[c]); }
    AllSize(s.kids, MaxSamples(f.repetitions));
    assert |s.merged| == |multiset(s.merged)|;
  }

  lemma FullAtFirst(f: Config)
    ensures Full(Initial(f)) && Run(f, [Initial(f)], [])
  {
  }

  /** There is a run in which every child reports as many samples as it can. */
  lemma LargestTable(f: Config) returns (run: seq<State>, actions: seq<Action>)
    requires f.Valid() && f.parallel > 1
    ensures Run(f, run, actions) && |run[|actions|].merged| == f.parallel * MaxSamples(f.repetitions)
  {
    hide *;
    FullAtFirst(f);
    run, actions := CanFinish(f, [Initial(f)], []);
    RunShape(f, run, actions);
    RunInv(f, run, actions, |actions|);
    DoneSize(f, run[|actions|]);
  }

  ghost predicate MergedWithin(f: Config, run: seq<State>, actions: seq<Action>) {
    Run(f, run, actions) ==> forall k | 0 <= k < |run| :: |run[k].merged| <= Capacity(f.parallel * f.repetitions)
  }

  /** The parent's table never overflows, in all runs, exactly when repetitions is at least 1 or there are no
      more than TRIES children. */
  lemma CapacityExact(f: Config)
    requires f.Valid()
    ensures (forall run, actions :: MergedWithin(f, run, actions)) <==> f.repetitions >= 1 || f.parallel <= TRIES
  {
    if f.repetitions >= 1 || f.parallel <= TRIES {
      forall run, actions ensures MergedWithin(f, run, actions) { WithinCapacity(f, run, actions); }
    } else {
      var run, actions := LargestTable(f);
      MergedFits(f.parallel, f.repetitions);
      Overflows(f, run, actions);
    }
  }

  lemma WithinCapacity(f: Config, run: seq<State>, actions: seq<Action>)
    requires f.Valid() && (f.repetitions >= 1 || f.parallel <= TRIES)
    ensures MergedWithin(f, run, actions)
  {
    if Run(f, run, actions) {
      forall k | 0 <= k < |run| ensures |run[k].merged| <= Capacity(f.parallel * f.repetitions) {
        TablesFit(f, run, actions, k, 0);
      }
    }
  }

  lemma Overflows(f: Config, run: seq<State>, actions: seq<Action>)
    requires Run(f, run, actions) && |run[|actions|].merged| > Capacity(f.parallel * f.repetitions)
    ensures !MergedWithin(f, run, actions)
  {
    hide Capacity;
  }
}
