/** What every step of the benchmp processes keeps. */
module HarnessInv {
  import opened Options
  import opened Results
  import opened Harness

  // ----- how far the children have come

  /** 1: ready was sent; 2: a start byte was read; 3: done was sent; 4: a result byte was read; 5: the whole
      record was written; 6: an exit byte was read. */
  function Rank(p: Phase): nat {
    match p
    case Warm(needWarmup) => if needWarmup then 0 else 1
    case SawStart(needWarmup) => if needWarmup then 0 else 1
    case SendReady(_) => 0
    case Timing => 2
    case SendDone => 2
    case Cool => 3
    case SawResult => 3
    case Report(_) => 4
    case WaitExit => 5
    case Exited => 6
  }

  function Reached(kid: Kid, r: nat): nat {
    if Rank(kid.phase) >= r then 1 else 0
  }

  function Count(kids: seq<Kid>, r: nat): (n: nat)
    ensures n <= |kids|
  {
    if kids == [] then 0 else Count(kids[..|kids| - 1], r) + Reached(kids[|kids| - 1], r)
  }

  lemma {:induction false} CountPut(kids: seq<Kid>, c: nat, kid: Kid, r: nat)
    requires c < |kids|
    ensures Count(kids[c := kid], r) == Count(kids, r) - Reached(kids[c], r) + Reached(kid, r)
  {
    var n := |kids| - 1;
    var k' := kids[c := kid];
    if c < n {
      CountPut(kids[..n], c, kid, r);
      assert k'[..n] == kids[..n][c := kid];
    } else {
      assert k'[..n] == kids[..n];
    }
  }

  lemma {:induction false} CountAll(kids: seq<Kid>, r: nat)
    ensures Count(kids, r) == |kids| <==> forall c | 0 <= c < |kids| :: Rank(kids[c].phase) >= r
    ensures Count(kids, r) == 0 <==> forall c | 0 <= c < |kids| :: Rank(kids[c].phase) < r
  {
    if kids != [] {
      var n := |kids| - 1;
      CountAll(kids[..n], r);
      assert forall c | 0 <= c < n :: kids[..n][c] == kids[c];
    }
  }

  /** Someone has not come as far as r. */
  lemma Behind(kids: seq<Kid>, r: nat) returns (c: nat)
    requires Count(kids, r) < |kids|
    ensures c < |kids| && Rank(kids[c].phase) < r
  {
    CountAll(kids, r);
    c :| c < |kids| && Rank(kids[c].phase) < r;
  }

  ghost predicate Ranks(kids: seq<Kid>, lo: nat, hi: nat) {
    forall c | 0 <= c < |kids| :: lo <= Rank(kids[c].phase) <= hi
  }

  /** Every child but `skip` waits for a result byte or has reported. */
  ghost predicate Idle(kids: seq<Kid>, skip: Option<nat>) {
    forall c | 0 <= c < |kids| && skip != Some(c) :: Rank(kids[c].phase) == 3 || Rank(kids[c].phase) == 5
  }

  ghost predicate NoneSaw(kids: seq<Kid>) {
    forall c | 0 <= c < |kids| :: !kids[c].phase.SawStart?
  }

  ghost predicate NoneAsked(kids: seq<Kid>) {
    forall c | 0 <= c < |kids| :: !kids[c].phase.SawResult?
  }

  ghost predicate Only(resp: seq<Byte>, b: Byte) {
    forall x | 0 <= x < |resp| :: resp[x] == b
  }

  // ----- each child by itself

  /** What a child has read is what its phase says; its table is sorted and no larger than its sample count.
      In parallel every child takes the same number of samples of the same number of iterations. */
  ghost predicate KidOk(f: Config, kid: Kid) {
    && !(kid.phase.SawStart? && kid.phase.needWarmup) && !(kid.phase.SendReady? && kid.phase.started)
    && kid.starts == Reached(kid, 2) && kid.results == Reached(kid, 4) && kid.exits == Reached(kid, 6)
    && Sorted(kid.table) && Timed(kid.table) && |kid.table| <= kid.i <= MaxSamples(f.repetitions)
    && (Rank(kid.phase) < 2 ==> kid.i == 0)
    && (kid.phase.Timing? ==> kid.i < MaxSamples(f.repetitions))
    && (kid.phase.Report? ==> kid.phase.written < f.size)
    && (f.parallel > 1 ==> Counts(kid.table, f.iterations))
    && (f.parallel > 1 && (kid.phase.SendDone? || Rank(kid.phase) >= 3) ==> kid.i == MaxSamples(f.repetitions))
  }

  ghost predicate KidsOk(f: Config, s: State) {
    |s.kids| == f.parallel && forall c | 0 <= c < |s.kids| :: KidOk(f, s.kids[c])
  }

  // ----- the pipes, stage by stage of the parent

  /** The reporter's record, as far as it is written, is what has been read of it and what is in the pipe. */
  ghost predicate Reporting(f: Config, s: State, buf: seq<Byte>, o: nat) {
    && o < |s.kids| && Idle(s.kids, Some(o))
    && match s.kids[o].phase
       case Report(w) => w <= f.size && buf + s.resp == Record(f, o)[..w]
       case WaitExit => buf + s.resp == Record(f, o)
       case _ => false
  }

  ghost predicate Stage(f: Config, s: State) {
    match s.parent
    case CollectReady(i) =>
      && i < f.parallel && Ranks(s.kids, 0, 1) && NoneSaw(s.kids) && s.start == 0 && s.result == 0 && s.exit == 0
      && Only(s.resp, Ready) && |s.resp| + i == Count(s.kids, 1) && s.reporter.None?
    case SendStart(k) =>
      && k < f.parallel && Ranks(s.kids, 1, 3) && NoneAsked(s.kids) && s.start + Count(s.kids, 2) == k &&
         s.result == 0 && s.exit == 0
      && Only(s.resp, Done) && |s.resp| == Count(s.kids, 3) && s.reporter.None?
    case CollectDone(i) =>
      && i < f.parallel && Ranks(s.kids, 1, 3) && NoneAsked(s.kids) && s.start + Count(s.kids, 2) == f.parallel &&
         s.result == 0 && s.exit == 0
      && Only(s.resp, Done) && |s.resp| + i == Count(s.kids, 3) && s.reporter.None?
    case SendResult(i) =>
      && i < f.parallel && Idle(s.kids, None) && s.start == 0 && s.result == 0 && s.exit == 0
      && s.resp == [] && Count(s.kids, 4) == i && s.reporter.None?
    case ReadRecord(i, buf) =>
      && i < f.parallel && s.start == 0 && s.exit == 0 && |buf| < f.size
      && (if s.reporter.None?
          then s.result == 1 && s.resp == [] && buf == [] && Idle(s.kids, None) && Count(s.kids, 4) == i
          else s.result == 0 && Reporting(f, s, buf, s.reporter.value) && Count(s.kids, 4) == i + 1)
    case SendExit(k) =>
      && k < f.parallel && Ranks(s.kids, 5, 6) && s.start == 0 && s.result == 0 && s.exit + Count(s.kids, 6) == k
      && s.resp == [] && s.reporter.None?
    case Finished =>
      && Ranks(s.kids, 5, 6) && s.start == 0 && s.result == 0 && s.exit + Count(s.kids, 6) == f.parallel
      && s.resp == [] && s.reporter.None?
  }

  // ----- what has been reported

  /** How many records the parent has read. */
  function Told(f: Config, p: Parent): nat {
    match p
    case CollectReady(_) => 0
    case SendStart(_) => 0
    case CollectDone(_) => 0
    case SendResult(i) => i
    case ReadRecord(i, _) => i
    case SendExit(_) => f.parallel
    case Finished => f.parallel
  }

  function Owner(record: seq<Byte>): nat {
    if |record| > 0 && record[0].Piece? then record[0].owner else 0
  }

  /** A whole record of one child, which has written it all and has been read. */
  ghost predicate Whole(f: Config, s: State, record: seq<Byte>) {
    var o := Owner(record);
    record == Record(f, o) && o < |s.kids| && Rank(s.kids[o].phase) >= 5 && s.reporter != Some(o)
  }

  ghost predicate Distinct(records: seq<seq<Byte>>) {
    forall j, k | 0 <= j < k < |records| :: Owner(records[j]) != Owner(records[k])
  }

  /** The values of children that have reported, but for skip. */
  function Part(c: nat, kid: Kid, skip: Option<nat>): multiset<Value> {
    if Rank(kid.phase) >= 5 && skip != Some(c) then multiset(kid.table) else multiset{}
  }

  function Total(kids: seq<Kid>, skip: Option<nat>): multiset<Value> {
    if kids == [] then multiset{} else Total(kids[..|kids| - 1], skip) + Part(|kids| - 1, kids[|kids| - 1], skip)
  }

  ghost predicate Log(f: Config, s: State) {
    && |s.records| == Told(f, s.parent) && Distinct(s.records)
    && (forall k | 0 <= k < |s.records| :: Whole(f, s, s.records[k]))
    && Sorted(s.merged) && multiset(s.merged) == Total(s.kids, s.reporter)
    && |s.merged| <= |s.records| * MaxSamples(f.repetitions)
  }

  ghost predicate Inv(f: Config, s: State) {
    f.Valid() && KidsOk(f, s) && Stage(f, s) && Log(f, s)
  }

  // ----- sums over the children

  lemma TotalLast(kids: seq<Kid>, skip: Option<nat>)
    requires |kids| > 0
    ensures Total(kids, skip) == Total(kids[..|kids| - 1], skip) + Part(|kids| - 1, kids[|kids| - 1], skip)
  {
  }

  lemma {:induction false} TotalPut(kids: seq<Kid>, c: nat, kid: Kid, skip: Option<nat>)
    requires c < |kids| && Part(c, kids[c], skip) == Part(c, kid, skip)
    ensures Total(kids[c := kid], skip) == Total(kids, skip)
  {
    hide *;
    var n := |kids| - 1;
    var k' := kids[c := kid];
    TotalLast(kids, skip);
    TotalLast(k', skip);
    if c < n {
      TotalPut(kids[..n], c, kid, skip);
      assert k'[..n] == kids[..n][c := kid];
    } else {
      assert k'[..n] == kids[..n];
    }
  }

  lemma {:induction false} TotalSkip(kids: seq<Kid>, o: nat)
    ensures Total(kids, None) == Total(kids, Some(o)) + (if o < |kids| then Part(o, kids[o], None) else multiset{})
  {
    if kids != [] {
      var n := |kids| - 1;
      TotalSkip(kids[..n], o);
      assert o < n ==> kids[..n][o] == kids[o];
      assert Part(n, kids[n], Some(o)) == if o == n then multiset{} else Part(n, kids[n], None);
      hide Part;
    }
  }

  // ----- the start

  lemma {:induction false} NoneYet(kids: seq<Kid>)
    requires forall c | 0 <= c < |kids| :: kids[c] == Kid(Warm(true), 0, [], 0, 0, 0)
    ensures Count(kids, 1) == 0 && Total(kids, None) == multiset{}
  {
    if kids != [] { NoneYet(kids[..|kids| - 1]); }
  }

  lemma InitInv(f: Config)
    requires f.Valid()
    ensures Inv(f, Initial(f))
  {
    NoneYet(Initial(f).kids);
  }

  // ----- what the three parts of the invariant depend on

  lemma InvParts(f: Config, s: State)
    requires Inv(f, s)
    ensures f.Valid() && KidsOk(f, s) && Stage(f, s) && Log(f, s) && |s.kids| == f.parallel
  {
  }

  lemma InvIntro(f: Config, s: State)
    requires f.Valid() && KidsOk(f, s) && Stage(f, s) && Log(f, s)
    ensures Inv(f, s)
  {
  }

  lemma KidsKept(f: Config, s: State, s': State, c: nat)
    requires KidsOk(f, s) && c < |s.kids| && |s'.kids| == |s.kids| && s'.kids == s.kids[c := s'.kids[c]]
    requires KidOk(f, s'.kids[c])
    ensures KidsOk(f, s')
  {
  }

  lemma KidsSame(f: Config, s: State, s': State)
    requires KidsOk(f, s) && s'.kids == s.kids
    ensures KidsOk(f, s')
  {
  }

  lemma KidIsOk(f: Config, s: State, c: nat)
    requires KidsOk(f, s) && c < |s.kids|
    ensures KidOk(f, s.kids[c])
  {
  }

  /** A child's step changes that child only, and leaves what was reported alone. */
  lemma LogKept(f: Config, s: State, s': State, c: nat)
    requires Log(f, s) && c < |s.kids| && |s'.kids| == |s.kids| && s'.kids == s.kids[c := s'.kids[c]]
    requires s'.parent == s.parent && s'.records == s.records && s'.merged == s.merged && s'.reporter == s.reporter
    requires Rank(s.kids[c].phase) >= 5 ==> Rank(s'.kids[c].phase) >= 5
    requires Part(c, s.kids[c], s.reporter) == Part(c, s'.kids[c], s.reporter)
    ensures Log(f, s')
  {
    TotalPut(s.kids, c, s'.kids[c], s.reporter);
    hide Total, Part, Sorted, Distinct, MaxSamples;
    forall k | 0 <= k < |s'.records| ensures Whole(f, s', s'.records[k]) { assert Whole(f, s, s.records[k]); }
  }

  lemma LogSame(f: Config, s: State, s': State)
    requires Log(f, s) && s'.kids == s.kids && s'.records == s.records && s'.merged == s.merged &&
             s'.reporter == s.reporter
    requires Told(f, s'.parent) == Told(f, s.parent)
    ensures Log(f, s')
  {
    hide Total, Sorted, Distinct, MaxSamples, Told;
    forall k | 0 <= k < |s'.records| ensures Whole(f, s', s'.records[k]) { assert Whole(f, s, s.records[k]); }
  }

  /** Counts after a step of child c. */
  lemma CountsPut(kids: seq<Kid>, c: nat, kid: Kid)
    requires c < |kids|
    ensures forall r: nat :: Count(kids[c := kid], r) == Count(kids, r) - Reached(kids[c], r) + Reached(kid, r)
  {
    forall r: nat ensures Count(kids[c := kid], r) == Count(kids, r) - Reached(kids[c], r) + Reached(kid, r) {
      CountPut(kids, c, kid, r);
    }
  }

  // ----- children's steps that change no pipe

  /** A step that changes no pipe and no rank keeps the stage; a byte is seen only if there is one. */
  lemma SameRank(f: Config, s: State, s': State, c: nat)
    requires Stage(f, s) && c < |s.kids| && |s'.kids| == |s.kids| && s' == s.(kids := s.kids[c := s'.kids[c]])
    requires Rank(s'.kids[c].phase) == Rank(s.kids[c].phase) && Rank(s.kids[c].phase) < 4
    requires s'.kids[c].phase.SawStart? ==> s.start > 0
    requires s'.kids[c].phase.SawResult? ==> s.result > 0
    ensures Stage(f, s')
  {
    hide Count, Record;
    CountsPut(s.kids, c, s'.kids[c]);
  }

  /** On its first call no child sees a start byte: the parent has not had its ready byte. */
  lemma PollKid(f: Config, s: State, c: nat)
    requires KidsOk(f, s) && Stage(f, s) && Enabled(f, s, Poll(c))
    ensures KidOk(f, Step(f, s, Poll(c)).kids[c]) && Rank(Polled(s, c)) == Rank(s.kids[c].phase) < 4
    ensures (Polled(s, c).SawStart? ==> s.start > 0) && (Polled(s, c).SawResult? ==> s.result > 0)
  {
    hide Count, Sorted, Timed, MaxSamples, Record;
  }

  lemma PollInv(f: Config, s: State, c: nat)
    requires Inv(f, s) && Enabled(f, s, Poll(c))
    ensures Inv(f, Step(f, s, Poll(c)))
  {
    var s' := Step(f, s, Poll(c));
    assert s'.kids[c].phase == Polled(s, c) && s'.kids[c].table == s.kids[c].table;
    hide *;
    InvParts(f, s);
    PollKid(f, s, c);
    KidsKept(f, s, s', c);
    SameRank(f, s, s', c);
    LowParts(c, s.kids[c], s'.kids[c], s.reporter);
    LogKept(f, s, s', c);
    InvIntro(f, s');
  }

  lemma LowParts(c: nat, kid: Kid, kid': Kid, skip: Option<nat>)
    requires Rank(kid.phase) < 5 && Rank(kid'.phase) < 5
    ensures Part(c, kid, skip) == Part(c, kid', skip)
  {
  }

  lemma IntervalKid(f: Config, kid: Kid, sample: Option<Value>, giveUp: bool)
    requires KidOk(f, kid) && kid.phase.Timing? && (sample.Some? ==> sample.value.n > 0)
    requires f.parallel > 1 ==> sample.Some? && sample.value.n == f.iterations && !giveUp
    ensures KidOk(f, AfterInterval(f, kid, sample, giveUp))
    ensures Rank(AfterInterval(f, kid, sample, giveUp).phase) == 2 &&
            !AfterInterval(f, kid, sample, giveUp).phase.SawStart?
    ensures !AfterInterval(f, kid, sample, giveUp).phase.SawResult?
  {
    hide Sorted, Timed, Insert, Counts;
    if sample.Some? {
      InsertSorted(kid.table, sample.value);
      InsertTimed(kid.table, sample.value);
      InsertSame(kid.table, sample.value);
      if f.parallel > 1 { InsertCounts(kid.table, sample.value, f.iterations); }
    }
  }

  lemma IntervalInv(f: Config, s: State, c: nat, sample: Option<Value>, giveUp: bool)
    requires Inv(f, s) && Enabled(f, s, Interval(c, sample, giveUp))
    ensures Inv(f, Step(f, s, Interval(c, sample, giveUp)))
  {
    var s' := Step(f, s, Interval(c, sample, giveUp));
    assert s'.kids[c] == AfterInterval(f, s.kids[c], sample, giveUp) && Rank(s.kids[c].phase) == 2;
    hide *;
    InvParts(f, s);
    KidIsOk(f, s, c);
    IntervalKid(f, s.kids[c], sample, giveUp);
    KidsKept(f, s, s', c);
    SameRank(f, s, s', c);
    LowParts(c, s.kids[c], s'.kids[c], s.reporter);
    LogKept(f, s, s', c);
    InvIntro(f, s');
  }

  // ----- children's reads and writes

  predicate PipeAction(a: Action, c: nat) {
    a == ReadStart(c) || a == WriteReady(c) || a == WriteDone(c) || a == WritePiece(c) || a == ReadExit(c)
  }

  lemma PipeKid(f: Config, s: State, c: nat, a: Action)
    requires Enabled(f, s, a) && PipeAction(a, c) && c < |s.kids| && KidOk(f, s.kids[c])
    ensures KidOk(f, Step(f, s, a).kids[c])
  {
    hide Sorted, Timed, Counts;
  }

  lemma PipeKeeps(f: Config, s: State, c: nat, a: Action)
    requires Enabled(f, s, a) && PipeAction(a, c) && c < |s.kids|
    ensures var s' := Step(f, s, a);
            && s'.kids == s.kids[c := s'.kids[c]] && s'.parent == s.parent && s'.records == s.records
            && s'.merged == s.merged && s'.reporter == s.reporter
  {
  }

  lemma PipeParts(f: Config, s: State, c: nat, a: Action)
    requires Enabled(f, s, a) && PipeAction(a, c) && c < |s.kids|
    requires a == WritePiece(c) ==> s.reporter == Some(c)
    ensures Rank(s.kids[c].phase) >= 5 ==> Rank(Step(f, s, a).kids[c].phase) >= 5
    ensures Part(c, s.kids[c], s.reporter) == Part(c, Step(f, s, a).kids[c], s.reporter)
  {
  }

  /** The changed child is as its phase says, and what the parent has of it stays. */
  lemma PipeStep(f: Config, s: State, c: nat, a: Action)
    requires KidsOk(f, s) && Log(f, s) && Enabled(f, s, a) && PipeAction(a, c) && c < |s.kids|
    requires a == WritePiece(c) ==> s.reporter == Some(c)
    ensures KidsOk(f, Step(f, s, a)) && Log(f, Step(f, s, a))
  {
    hide *;
    var s' := Step(f, s, a);
    KidIsOk(f, s, c);
    PipeKid(f, s, c, a);
    PipeKeeps(f, s, c, a);
    PipeParts(f, s, c, a);
    KidsKept(f, s, s', c);
    LogKept(f, s, s', c);
  }

  lemma ReadStartStage(f: Config, s: State, c: nat)
    requires KidsOk(f, s) && Stage(f, s) && Enabled(f, s, ReadStart(c))
    ensures Stage(f, Step(f, s, ReadStart(c)))
  {
    hide Count, KidsOk, Record, Sorted, Timed, MaxSamples;
    KidIsOk(f, s, c);
    CountsPut(s.kids, c, Step(f, s, ReadStart(c)).kids[c]);
  }

  lemma WriteReadyStage(f: Config, s: State, c: nat)
    requires KidsOk(f, s) && Stage(f, s) && Enabled(f, s, WriteReady(c))
    ensures Stage(f, Step(f, s, WriteReady(c)))
  {
    hide Count, KidsOk, Record, Sorted, Timed, MaxSamples;
    KidIsOk(f, s, c);
    CountsPut(s.kids, c, Step(f, s, WriteReady(c)).kids[c]);
  }

  lemma WriteDoneStage(f: Config, s: State, c: nat)
    requires Stage(f, s) && Enabled(f, s, WriteDone(c))
    ensures Stage(f, Step(f, s, WriteDone(c)))
  {
    hide Count, Record;
    CountsPut(s.kids, c, Step(f, s, WriteDone(c)).kids[c]);
  }

  lemma ReadExitStage(f: Config, s: State, c: nat)
    requires Stage(f, s) && Enabled(f, s, ReadExit(c))
    ensures Stage(f, Step(f, s, ReadExit(c)))
  {
    hide Count, Record;
    CountsPut(s.kids, c, Step(f, s, ReadExit(c)).kids[c]);
  }

  lemma RecordGrows(f: Config, o: nat, w: nat, buf: seq<Byte>, resp: seq<Byte>)
    requires w < f.size && buf + resp == Record(f, o)[..w]
    ensures buf + (resp + [Piece(o, w)]) == Record(f, o)[..w + 1]
    ensures w + 1 == f.size ==> buf + (resp + [Piece(o, w)]) == Record(f, o)
  {
    assert buf + (resp + [Piece(o, w)]) == buf + resp + [Piece(o, w)];
  }

  /** Only the reporter writes its record, while the parent reads one. */
  lemma Writer(f: Config, s: State, c: nat)
    requires KidsOk(f, s) && Stage(f, s) && Enabled(f, s, WritePiece(c))
    ensures s.parent.ReadRecord? && s.reporter == Some(c) && s.kids[c].phase.written < f.size
  {
    hide Count, Record, KidsOk;
    KidIsOk(f, s, c);
  }

  lemma WritePieceStage(f: Config, s: State, c: nat)
    requires KidsOk(f, s) && Stage(f, s) && Enabled(f, s, WritePiece(c))
    ensures Stage(f, Step(f, s, WritePiece(c)))
  {
    hide Count, Record, KidsOk;
    var w := s.kids[c].phase.written;
    Writer(f, s, c);
    RecordGrows(f, c, w, s.parent.buf, s.resp);
    CountPut(s.kids, c, Step(f, s, WritePiece(c)).kids[c], 4);
  }

  lemma PipeKinds(a: Action, c: nat)
    ensures PipeAction(a, c) <==>
            a == ReadStart(c) || a == WriteReady(c) || a == WriteDone(c) || a == WritePiece(c) || a == ReadExit(c)
  {
  }

  lemma PipeInv(f: Config, s: State, c: nat, a: Action)
    requires Inv(f, s) && Enabled(f, s, a) && PipeAction(a, c) && c < |s.kids|
    ensures Inv(f, Step(f, s, a))
  {
    hide *;
    PipeKinds(a, c);
    InvParts(f, s);
    if a == ReadStart(c) {
      ReadStartStage(f, s, c);
    } else if a == WriteReady(c) {
      WriteReadyStage(f, s, c);
    } else if a == WriteDone(c) {
      WriteDoneStage(f, s, c);
    } else if a == WritePiece(c) {
      Writer(f, s, c);
      WritePieceStage(f, s, c);
    } else {
      ReadExitStage(f, s, c);
    }
    PipeStep(f, s, c, a);
    InvIntro(f, Step(f, s, a));
  }

  /** The child that read the result byte becomes the reporter; nothing of its is counted before or after. */
  lemma LogReporter(f: Config, s: State, s': State, c: nat)
    requires Log(f, s) && c < |s.kids| && |s'.kids| == |s.kids| && s'.kids == s.kids[c := s'.kids[c]]
    requires s'.parent == s.parent && s'.records == s.records && s'.merged == s.merged
    requires s.reporter == None && s'.reporter == Some(c) && Rank(s.kids[c].phase) < 5 && Rank(s'.kids[c].phase) < 5
    ensures Log(f, s')
  {
    TotalReporter(s.kids, c, s'.kids[c]);
    hide Total, Sorted, Distinct, MaxSamples, Told;
    forall k | 0 <= k < |s'.records| ensures Whole(f, s', s'.records[k]) { assert Whole(f, s, s.records[k]); }
  }

  lemma TotalReporter(kids: seq<Kid>, c: nat, kid: Kid)
    requires c < |kids| && Rank(kids[c].phase) < 5 && Rank(kid.phase) < 5
    ensures Total(kids[c := kid], Some(c)) == Total(kids, None)
  {
    LowParts(c, kids[c], kid, None);
    TotalPut(kids, c, kid, None);
    TotalSkip(kids[c := kid], c);
    hide Total;
  }

  lemma ReadResultStage(f: Config, s: State, c: nat)
    requires f.Valid() && Stage(f, s) && Enabled(f, s, ReadResult(c))
    ensures Stage(f, Step(f, s, ReadResult(c))) && s.reporter == None
  {
    CountPut(s.kids, c, Step(f, s, ReadResult(c)).kids[c], 4);
    assert Record(f, c)[..0] == [];
    hide Count, Record;
  }

  lemma ReadResultKid(f: Config, s: State, c: nat)
    requires f.Valid() && KidsOk(f, s) && Enabled(f, s, ReadResult(c))
    ensures KidsOk(f, Step(f, s, ReadResult(c)))
    ensures Rank(s.kids[c].phase) == 3 && Rank(Step(f, s, ReadResult(c)).kids[c].phase) == 4
  {
    hide Sorted, Timed, Counts, MaxSamples, KidsOk;
    KidIsOk(f, s, c);
    KidsKept(f, s, Step(f, s, ReadResult(c)), c);
  }

  lemma ReadResultInv(f: Config, s: State, c: nat)
    requires Inv(f, s) && Enabled(f, s, ReadResult(c))
    ensures Inv(f, Step(f, s, ReadResult(c)))
  {
    var s' := Step(f, s, ReadResult(c));
    assert c < |s.kids| && s'.kids == s.kids[c := s'.kids[c]] && s'.reporter == Some(c);
    hide *;
    InvParts(f, s);
    ReadResultStage(f, s, c);
    ReadResultKid(f, s, c);
    LogReporter(f, s, s', c);
    InvIntro(f, s');
  }

  // ----- the parent's steps

  lemma ParentKeeps(f: Config, s: State, a: Action)
    requires Enabled(f, s, a) && (a.ParentWrite? || a.ParentRead?)
    requires a.ParentRead? && s.parent.ReadRecord? ==> |s.parent.buf| + 1 < f.size
    ensures var s' := Step(f, s, a);
            s'.kids == s.kids && s'.records == s.records && s'.merged == s.merged && s'.reporter == s.reporter
  {
  }

  lemma RecordKeeps(f: Config, s: State)
    requires Enabled(f, s, ParentRead) && s.parent.ReadRecord? && |s.parent.buf| + 1 >= f.size
    ensures Step(f, s, ParentRead).kids == s.kids && Step(f, s, ParentRead).reporter == None
  {
  }

  lemma WriteStage(f: Config, s: State)
    requires f.Valid() && Stage(f, s) && Enabled(f, s, ParentWrite)
    ensures Stage(f, Step(f, s, ParentWrite)) && Told(f, Step(f, s, ParentWrite).parent) == Told(f, s.parent)
  {
    hide Count, Record;
  }

  lemma ParentWriteInv(f: Config, s: State)
    requires Inv(f, s) && Enabled(f, s, ParentWrite)
    ensures Inv(f, Step(f, s, ParentWrite))
  {
    hide *;
    var s' := Step(f, s, ParentWrite);
    ParentKeeps(f, s, ParentWrite);
    InvParts(f, s);
    WriteStage(f, s);
    KidsSame(f, s, s');
    LogSame(f, s, s');
    InvIntro(f, s');
  }

  /** Every child has sent ready when the parent has collected `parallel` bytes. */
  lemma CollectReadyStage(f: Config, s: State)
    requires f.Valid() && |s.kids| == f.parallel && Stage(f, s) && Enabled(f, s, ParentRead) && s.parent.CollectReady?
    ensures Stage(f, Step(f, s, ParentRead)) && Told(f, Step(f, s, ParentRead).parent) == Told(f, s.parent)
  {
    hide Count, Record;
    CountAll(s.kids, 1);
    CountAll(s.kids, 2);
    CountAll(s.kids, 3);
  }

  /** Every child has left its measurement loop when the parent has collected as many done bytes. */
  lemma CollectDoneStage(f: Config, s: State)
    requires f.Valid() && |s.kids| == f.parallel && Stage(f, s) && Enabled(f, s, ParentRead) && s.parent.CollectDone?
    ensures Stage(f, Step(f, s, ParentRead)) && Told(f, Step(f, s, ParentRead).parent) == Told(f, s.parent)
  {
    hide Count, Record;
    CountAll(s.kids, 2);
    CountAll(s.kids, 3);
    CountAll(s.kids, 4);
  }

  lemma CollectInv(f: Config, s: State)
    requires Inv(f, s) && Enabled(f, s, ParentRead) && (s.parent.CollectReady? || s.parent.CollectDone?)
    ensures Inv(f, Step(f, s, ParentRead))
  {
    hide *;
    var s' := Step(f, s, ParentRead);
    ParentKeeps(f, s, ParentRead);
    InvParts(f, s);
    if s.parent.CollectReady? { CollectReadyStage(f, s); } else { CollectDoneStage(f, s); }
    KidsSame(f, s, s');
    LogSame(f, s, s');
    InvIntro(f, s');
  }

  /** A byte of the record moves from the pipe to the buffer; the last one completes the reporter's record. */
  lemma RecordByte(f: Config, s: State, o: nat, buf: seq<Byte>)
    requires KidsOk(f, s) && Reporting(f, s, buf, o) && |s.resp| > 0 && |buf| < f.size
    ensures buf + [s.resp[0]] + s.resp[1..] == buf + s.resp
    ensures |buf| + 1 == f.size ==> s.kids[o].phase.WaitExit? && s.resp[1..] == [] && buf + [s.resp[0]] == Record(f, o)
  {
    if |buf| + 1 == f.size {
      KidIsOk(f, s, o);
      assert |buf + s.resp| <= f.size;
      assert buf + s.resp == Record(f, o);
      assert buf + [s.resp[0]] == (buf + s.resp)[..f.size];
    }
  }

  lemma Reporter(f: Config, s: State)
    requires Stage(f, s) && s.parent.ReadRecord? && |s.resp| > 0
    ensures s.reporter.Some? && Reporting(f, s, s.parent.buf, s.reporter.value) && |s.parent.buf| < f.size
  {
  }

  lemma ReportingOn(f: Config, s: State, s': State, buf: seq<Byte>, buf': seq<Byte>, o: nat)
    requires Reporting(f, s, buf, o) && s'.kids == s.kids && buf' + s'.resp == buf + s.resp
    ensures Reporting(f, s', buf', o)
  {
  }

  lemma ReadOnStage(f: Config, s: State)
    requires KidsOk(f, s) && Stage(f, s) && Enabled(f, s, ParentRead) && s.parent.ReadRecord? &&
             |s.parent.buf| + 1 < f.size
    ensures Stage(f, Step(f, s, ParentRead)) && Told(f, Step(f, s, ParentRead).parent) == Told(f, s.parent)
  {
    hide Count, Record, Reporting, Idle, KidsOk;
    var buf := s.parent.buf;
    Reporter(f, s);
    RecordByte(f, s, s.reporter.value, buf);
    ReportingOn(f, s, Step(f, s, ParentRead), buf, buf + [s.resp[0]], s.reporter.value);
  }

  lemma ReadOnInv(f: Config, s: State)
    requires Inv(f, s) && Enabled(f, s, ParentRead) && s.parent.ReadRecord? && |s.parent.buf| + 1 < f.size
    ensures Inv(f, Step(f, s, ParentRead))
  {
    hide *;
    var s' := Step(f, s, ParentRead);
    ParentKeeps(f, s, ParentRead);
    InvParts(f, s);
    ReadOnStage(f, s);
    KidsSame(f, s, s');
    LogSame(f, s, s');
    InvIntro(f, s');
  }

  lemma RecordStart(f: Config, o: nat)
    requires f.size > 0
    ensures |Record(f, o)| == f.size && Record(f, o)[0] == Piece(o, 0) && Owner(Record(f, o)) == o
  {
  }

  lemma WholeRead(f: Config, s: State, s': State, o: nat)
    requires f.size > 0 && s.reporter == Some(o) && o < |s.kids| && Rank(s.kids[o].phase) >= 5
    requires s'.kids == s.kids && s'.records == s.records + [Record(f, o)] && s'.reporter == None
    requires Distinct(s.records) && forall k | 0 <= k < |s.records| :: Whole(f, s, s.records[k])
    ensures Distinct(s'.records) && forall k | 0 <= k < |s'.records| :: Whole(f, s', s'.records[k])
  {
    RecordStart(f, o);
    hide Record;
    forall k | 0 <= k < |s'.records| ensures Whole(f, s', s'.records[k]) {
      if k < |s.records| { assert Whole(f, s, s.records[k]); }
    }
    forall j, k | 0 <= j < k < |s'.records| ensures Owner(s'.records[j]) != Owner(s'.records[k]) {
      assert Whole(f, s, s.records[j]);
    }
  }

  lemma Bounded(n: nat, m: nat)
    ensures (n + 1) * m == n * m + m
  {
  }

  lemma TotalRead(kids: seq<Kid>, o: nat, merged: seq<Value>)
    requires o < |kids| && Rank(kids[o].phase) >= 5 && Sorted(merged) && Timed(kids[o].table)
    requires multiset(merged) == Total(kids, Some(o))
    ensures Sorted(Merge(merged, kids[o].table)) && multiset(Merge(merged, kids[o].table)) == Total(kids, None)
    ensures |Merge(merged, kids[o].table)| == |merged| + |kids[o].table|
  {
    hide Total, Sorted, Merge;
    MergeUnion(merged, kids[o].table);
    TotalSkip(kids, o);
  }

  lemma LogRead(f: Config, s: State, s': State, o: nat)
    requires f.Valid() && o < |s.kids| && KidOk(f, s.kids[o]) && Log(f, s) && s.reporter == Some(o) &&
             s.kids[o].phase.WaitExit?
    requires s'.kids == s.kids && s'.records == s.records + [Record(f, o)] &&
             Told(f, s'.parent) == Told(f, s.parent) + 1
    requires s'.merged == Merge(s.merged, s.kids[o].table) && s'.reporter == None
    ensures Log(f, s')
  {
    hide Total, Sorted, Distinct, Whole, Merge, Timed, Told, MaxSamples, Record;
    TotalRead(s.kids, o, s.merged);
    WholeRead(f, s, s', o);
    Bounded(|s.records|, MaxSamples(f.repetitions));
  }

  /** What the step that completes a record makes of the state. */
  lemma RecordRead(f: Config, s: State)
    requires f.Valid() && KidsOk(f, s) && Stage(f, s) && Enabled(f, s, ParentRead) && s.parent.ReadRecord?
    requires |s.parent.buf| + 1 >= f.size
    ensures s.reporter.Some? && s.reporter.value < |s.kids| && s.kids[s.reporter.value].phase.WaitExit?
    ensures Step(f, s, ParentRead).resp == []
    ensures Step(f, s, ParentRead).records == s.records + [Record(f, s.reporter.value)]
    ensures Step(f, s, ParentRead).merged == Merge(s.merged, s.kids[s.reporter.value].table)
  {
    hide Count, Record, Merge, KidsOk;
    var o, buf := s.reporter.value, s.parent.buf;
    Reporter(f, s);
    RecordByte(f, s, o, buf);
    RecordStart(f, o);
    assert TableIn(f, s.kids, buf + [s.resp[0]]) == s.kids[o].table;
  }

  lemma RecordStage(f: Config, s: State)
    requires f.Valid() && |s.kids| == f.parallel && Stage(f, s) && Enabled(f, s, ParentRead) && s.parent.ReadRecord?
    requires |s.parent.buf| + 1 >= f.size
    requires s.reporter.Some? && s.reporter.value < |s.kids| && s.kids[s.reporter.value].phase.WaitExit?
    requires Step(f, s, ParentRead).resp == []
    ensures Stage(f, Step(f, s, ParentRead)) && Told(f, Step(f, s, ParentRead).parent) == Told(f, s.parent) + 1
  {
    hide Count, Record, Merge, TableIn;
    CountAll(s.kids, 4);
    CountAll(s.kids, 6);
  }

  lemma RecordInv(f: Config, s: State)
    requires Inv(f, s) && Enabled(f, s, ParentRead) && s.parent.ReadRecord? && |s.parent.buf| + 1 >= f.size
    ensures Inv(f, Step(f, s, ParentRead))
  {
    hide *;
    var s' := Step(f, s, ParentRead);
    RecordKeeps(f, s);
    InvParts(f, s);
    RecordRead(f, s);
    RecordStage(f, s);
    KidIsOk(f, s, s.reporter.value);
    KidsSame(f, s, s');
    LogRead(f, s, s', s.reporter.value);
    InvIntro(f, s');
  }

  lemma ParentReadInv(f: Config, s: State)
    requires Inv(f, s) && Enabled(f, s, ParentRead)
    ensures Inv(f, Step(f, s, ParentRead))
  {
    assert s.parent.CollectReady? || s.parent.CollectDone? || s.parent.ReadRecord?;
    hide *;
    if !s.parent.ReadRecord? {
      CollectInv(f, s);
    } else if |s.parent.buf| + 1 < f.size {
      ReadOnInv(f, s);
    } else {
      RecordInv(f, s);
    }
  }

  /** Every step of every process keeps the invariant. */
  lemma StepInv(f: Config, s: State, a: Action)
    requires Inv(f, s) && Enabled(f, s, a)
    ensures Inv(f, Step(f, s, a))
  {
    hide *;
    ActorExists(f, s, a);
    if !a.ParentRead? && !a.ParentWrite? { PipeKinds(a, a.c); }
    match a
    case Poll(c) => PollInv(f, s, c);
    case Interval(c, sample, giveUp) => IntervalInv(f, s, c, sample, giveUp);
    case ReadResult(c) => ReadResultInv(f, s, c);
    case ParentRead => ParentReadInv(f, s);
    case ParentWrite => ParentWriteInv(f, s);
    case _ => PipeInv(f, s, a.c, a);
  }

  lemma ActorExists(f: Config, s: State, a: Action)
    requires Enabled(f, s, a)
    ensures !a.ParentRead? && !a.ParentWrite? ==> a.c < |s.kids|
  {
  }
}
