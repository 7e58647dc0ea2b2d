/**
 lib_timing.c, benchmp: one parent and P children that share four pipes, as a state machine whose steps
 are the reads, writes, polls and timing intervals of the processes, in any order.

 Bytes on the start, result and exit pipes are all alike, so these pipes are counters. The response pipe
 is a sequence; bytes of a result record carry their writer and position. Reads and writes of several bytes
 are as many steps, so that other processes may come between them.
 */
module Harness {
  import opened Options
  import opened Results

  // ----- processes and pipes

  /** Where a child is: in benchmp_interval's three states, and between the system calls of each. */
  datatype Phase =
    | Warm(needWarmup: bool)       // about to poll the start pipe
    | SawStart(needWarmup: bool)   // select saw a start byte; about to read one
    | SendReady(started: bool)     // about to write its ready byte
    | Timing                       // in a timing interval
    | SendDone                     // about to write its done byte
    | Cool                         // about to poll the result pipe
    | SawResult                    // select saw a result byte; about to read one
    | Report(written: nat)         // writing its record
    | WaitExit                     // about to read an exit byte
    | Exited

  /** i counts samples; starts, results and exits count the bytes read from the three pipes. */
  datatype Kid = Kid(phase: Phase, i: nat, table: seq<Value>, starts: nat, results: nat, exits: nat)

  datatype Byte = Ready | Done | Piece(owner: nat, k: nat)

  datatype Parent =
    | CollectReady(i: nat)
    | SendStart(k: nat)
    | CollectDone(i: nat)
    | SendResult(i: nat)
    | ReadRecord(i: nat, buf: seq<Byte>)
    | SendExit(k: nat)
    | Finished

  /** reporter is history: who read the last result byte, until its record has been read. */
  datatype State = State(kids: seq<Kid>, parent: Parent, start: nat, result: nat, exit: nat, resp: seq<Byte>,
                         records: seq<seq<Byte>>, merged: seq<Value>, reporter: Option<nat>)

  /** size is that of a record in bytes; iterations is how many of them an interval has when children run in
      parallel, fixed before they start; capacity is how many bytes a pipe holds. */
  datatype Config = Config(parallel: nat, repetitions: nat, size: nat, iterations: nat, capacity: nat) {
    predicate Valid() {
      parallel >= 1 && size >= 1 && iterations >= 1 && capacity >= 1
    }
  }

  datatype Action =
    | Poll(c: nat)
    | ReadStart(c: nat)
    | WriteReady(c: nat)
    | Interval(c: nat, sample: Option<Value>, giveUp: bool)
    | WriteDone(c: nat)
    | ReadResult(c: nat)
    | WritePiece(c: nat)
    | ReadExit(c: nat)
    | ParentRead
    | ParentWrite

  function Initial(f: Config): State {
    State(seq(f.parallel, _ => Kid(Warm(true), 0, [], 0, 0, 0)), CollectReady(0), 0, 0, 0, [], [], [], None)
  }

  /** The bytes of child o's record. */
  function Record(f: Config, o: nat): seq<Byte> {
    seq(f.size, k requires 0 <= k < f.size => Piece(o, k))
  }

  /** The table a complete record holds; nothing can be made of a mixture. */
  function TableIn(f: Config, kids: seq<Kid>, buf: seq<Byte>): seq<Value> {
    if |buf| > 0 && buf[0].Piece? && buf[0].owner < |kids| && buf == Record(f, buf[0].owner)
    then kids[buf[0].owner].table else []
  }

  // ----- steps

  /** A full pipe has no room for the parent's next byte. */
  predicate Room(f: Config, s: State) {
    match s.parent
    case SendStart(_) => s.start < f.capacity
    case SendResult(_) => s.result < f.capacity
    case SendExit(_) => s.exit < f.capacity
    case _ => false
  }

  /** Reads wait for a byte, and writes for room. When children run in parallel a sample is taken after every
      interval, of the same number of iterations, and there is nothing else to stop for. A child alone decides by
      how long the interval took (see Autosize). */
  predicate Enabled(f: Config, s: State, a: Action) {
    match a
    case Poll(c) => c < |s.kids| && (s.kids[c].phase.Warm? || s.kids[c].phase.Cool?)
    case ReadStart(c) => c < |s.kids| && s.kids[c].phase.SawStart? && s.start > 0
    case WriteReady(c) => c < |s.kids| && s.kids[c].phase.SendReady? && |s.resp| < f.capacity
    case Interval(c, sample, giveUp) =>
      && c < |s.kids| && s.kids[c].phase.Timing? && (sample.Some? ==> sample.value.n > 0)
      && (f.parallel > 1 ==> sample.Some? && sample.value.n == f.iterations && !giveUp)
    case WriteDone(c) => c < |s.kids| && s.kids[c].phase.SendDone? && |s.resp| < f.capacity
    case ReadResult(c) => c < |s.kids| && s.kids[c].phase.SawResult? && s.result > 0
    case WritePiece(c) => c < |s.kids| && s.kids[c].phase.Report? && |s.resp| < f.capacity
    case ReadExit(c) => c < |s.kids| && s.kids[c].phase.WaitExit? && s.exit > 0
    case ParentRead => |s.resp| > 0 && (s.parent.CollectReady? || s.parent.CollectDone? || s.parent.ReadRecord?)
    case ParentWrite => Room(f, s)
  }

  function Put(s: State, c: nat, kid: Kid): State
    requires c < |s.kids|
  {
    s.(kids := s.kids[c := kid])
  }

  /** A poll of an empty pipe leaves everything as it is, apart from a child's first call. */
  function Polled(s: State, c: nat): Phase
    requires c < |s.kids| && (s.kids[c].phase.Warm? || s.kids[c].phase.Cool?)
  {
    var p := s.kids[c].phase;
    if p.Cool? then (if s.result > 0 then SawResult else Cool)
    else if s.start > 0 then SawStart(p.needWarmup)
    else if p.needWarmup then SendReady(false)
    else p
  }

  function AfterInterval(f: Config, kid: Kid, sample: Option<Value>, giveUp: bool): Kid {
    var i := if sample.Some? then kid.i + 1 else kid.i;
    var table := if sample.Some? then Insert(kid.table, sample.value) else kid.table;
    var enough := sample.Some? && i >= f.repetitions;
    kid.(i := i, table := table, phase := if enough || giveUp then SendDone else Timing)
  }

  function ParentReads(f: Config, s: State): State
    requires Enabled(f, s, ParentRead)
  {
    var s' := s.(resp := s.resp[1..]);
    match s.parent
    case CollectReady(i) => s'.(parent := if i + 1 >= f.parallel then SendStart(0) else CollectReady(i + 1))
    case CollectDone(i) => s'.(parent := if i + 1 >= f.parallel then SendResult(0) else CollectDone(i + 1))
    case ReadRecord(i, buf) =>
      var buf' := buf + [s.resp[0]];
      if |buf'| < f.size then s'.(parent := ReadRecord(i, buf'))
      else
        s'.(parent := if i + 1 >= f.parallel then SendExit(0) else SendResult(i + 1),
            records := s.records + [buf'], merged := Merge(s.merged, TableIn(f, s.kids, buf')), reporter := None)
  }

  function ParentWrites(f: Config, s: State): State
    requires Enabled(f, s, ParentWrite)
  {
    match s.parent
    case SendStart(k) => s.(start := s.start + 1, parent := if k + 1 >= f.parallel then CollectDone(0)
        else SendStart(k + 1))
    case SendResult(i) => s.(result := s.result + 1, parent := ReadRecord(i, []))
    case SendExit(k) => s.(exit := s.exit + 1, parent := if k + 1 >= f.parallel then Finished else SendExit(k + 1))
  }

  function Step(f: Config, s: State, a: Action): State
    requires Enabled(f, s, a)
  {
    match a
    case Poll(c) => Put(s, c, s.kids[c].(phase := Polled(s, c)))
    case ReadStart(c) =>
      var kid := s.kids[c];
      Put(s, c, kid.(phase := if kid.phase.needWarmup then SendReady(true)
          else Timing, starts := kid.starts + 1)).(start := s.start - 1)
    case WriteReady(c) =>
      var kid := s.kids[c];
      Put(s, c, kid.(phase := if kid.phase.started then Timing else Warm(false))).(resp := s.resp + [Ready])
    case Interval(c, sample, giveUp) => Put(s, c, AfterInterval(f, s.kids[c], sample, giveUp))
    case WriteDone(c) => Put(s, c, s.kids[c].(phase := Cool)).(resp := s.resp + [Done])
    case ReadResult(c) =>
      Put(s, c, s.kids[c].(phase := Report(0), results := s.kids[c].results + 1)).(result := s.result - 1,
          reporter := Some(c))
    case WritePiece(c) =>
      var w := s.kids[c].phase.written;
      Put(s, c, s.kids[c].(phase := if w + 1 >= f.size then WaitExit else Report(w + 1))).(resp := s.resp +
          [Piece(c, w)])
    case ReadExit(c) => Put(s, c, s.kids[c].(phase := Exited, exits := s.kids[c].exits + 1)).(exit := s.exit - 1)
    case ParentRead => ParentReads(f, s)
    case ParentWrite => ParentWrites(f, s)
  }

  /** The states and the actions between them. */
  ghost predicate Run(f: Config, run: seq<State>, actions: seq<Action>) {
    && |run| == |actions| + 1 && run[0] == Initial(f)
    && forall k | 0 <= k < |actions| :: Moves(f, run, actions, k)
  }

  ghost predicate Moves(f: Config, run: seq<State>, actions: seq<Action>, k: nat)
    requires |run| == |actions| + 1 && k < |actions|
  {
    Enabled(f, run[k], actions[k]) && run[k + 1] == Step(f, run[k], actions[k])
  }
}
