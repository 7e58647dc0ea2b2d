/**
 getopt.c. Strings hold no NUL character; reading at the end of one is finding it at an end.
 */
module GetOpt {
  import opened Options

  datatype Answer = Eof | Error | Letter(c: char)

  /** The globals: optarg and optopt keep their values between calls. */
  datatype State = State(optind: nat, n: nat, optarg: Option<string>, optopt: Option<char>)

  // ----- one call, as a function

  /** -x..., a word with an option in it. */
  predicate OptionWord(w: string) {
    |w| >= 2 && w[0] == '-'
  }

  /** The first place in opts where c is. */
  function Find(opts: string, c: char): (t: nat)
    ensures t <= |opts| && (t < |opts| ==> opts[t] == c)
    ensures forall x | 0 <= x < t :: opts[x] != c
  {
    if opts == "" || opts[0] == c then 0 else 1 + Find(opts[1..], c)
  }

  /** What follows a letter in opts says how it takes an argument. */
  datatype Kind = Unknown | Flag | Required | Optional | Adjoining

  function KindOf(opts: string, c: char): Kind {
    var t := Find(opts, c);
    if t == |opts| then Unknown
    else if t + 1 == |opts| then Flag
    else if opts[t + 1] == ':' then Required
    else if opts[t + 1] == '|' then Optional
    else if opts[t + 1] == ';' then Adjoining
    else Flag
  }

  function Started(s: State): State {
    if s.optind == 0 then s.(optind := 1, n := 1) else s
  }

  predicate AtEnd(av: seq<string>, s: State) {
    s.optind >= |av| || !OptionWord(av[s.optind])
  }

  /** What assert(av[optind][n]) relies on. */
  predicate Ready(av: seq<string>, s: State) {
    var s := Started(s);
    AtEnd(av, s) || 1 <= s.n < |av[s.optind]|
  }

  function Advance(s: State): State {
    s.(optind := s.optind + 1, n := 1)
  }

  /** The state and the answer of one call. */
  function Call(av: seq<string>, opts: string, s0: State): (State, Answer)
    requires Ready(av, s0)
  {
    var s := Started(s0);
    if AtEnd(av, s) then (s, Eof)
    else
      var w := av[s.optind];
      var c := w[s.n];
      var rest := w[s.n + 1..];
      var kind := KindOf(opts, c);
      if kind.Unknown? then (s.(optopt := Some(c)), Error)
      else if kind.Flag? then (if rest == "" then Advance(s) else s.(n := s.n + 1), Letter(c))
      else if rest != "" then (Advance(s).(optarg := Some(rest)), Letter(c))
      else if kind.Optional? then (Advance(s).(optarg := None), Letter(c))
      else if kind.Adjoining? then (s.(optind := s.optind + 1, optarg := None, optopt := Some(c)), Error)
      else if s.optind + 1 == |av| || (|av[s.optind + 1]| > 0 && av[s.optind + 1][0] == '-')
          then (s.(optopt := Some(c)), Error)
      else (s.(optind := s.optind + 2, n := 1, optarg := Some(av[s.optind + 1])), Letter(c))
  }

  // ----- the code

  class Getopt {
    var optind: nat
    var n: nat
    var optarg: Option<string>
    var optopt: Option<char>

    constructor ()
      ensures Now() == State(0, 0, None, None)
    {
      optind, n, optarg, optopt := 0, 0, None, None;
    }

    function Now(): State
      reads this
    {
      State(optind, n, optarg, optopt)
    }

    method Next(av: seq<string>, opts: string) returns (r: Answer)
      requires Ready(av, Now())
      modifies this
      ensures (Now(), r) == Call(av, opts, old(Now()))
    {
      if optind == 0 {
        optind, n := 1, 1;
      }
      if optind >= |av| || |av[optind]| < 2 || av[optind][0] != '-' {
        return Eof;
      }
      assert n < |av[optind]|;
      var c := av[optind][n];
      var t := 0;
      while t < |opts| && opts[t] != c
        invariant 0 <= t <= |opts| && forall x | 0 <= x < t :: opts[x] != c
      {
        t := t + 1;
      }
      FindUnique(opts, c, t);
      if t == |opts| {
        optopt := Some(c);
        return Error;
      }
      var takes := if t + 1 < |opts| then opts[t + 1] else ' ';
      if takes != ':' && takes != '|' && takes != ';' {
        if n + 1 == |av[optind]| {
          optind, n := optind + 1, 1;
        } else {
          n := n + 1;
        }
        return Letter(c);
      }
      if n + 1 < |av[optind]| {
        optarg := Some(av[optind][n + 1..]);
        optind, n := optind + 1, 1;
        return Letter(c);
      }
      if takes == '|' {
        optarg := None;
        optind, n := optind + 1, 1;
        return Letter(c);
      }
      if takes == ';' {
        optarg := None;
        optind, optopt := optind + 1, Some(c);
        return Error;
      }
      if optind + 1 == |av| || (|av[optind + 1]| > 0 && av[optind + 1][0] == '-') {
        optopt := Some(c);
        return Error;
      }
      optarg := Some(av[optind + 1]);
      optind, n := optind + 2, 1;
      return Letter(c);
    }
  }

  lemma FindUnique(opts: string, c: char, t: nat)
    requires t <= |opts| && (t < |opts| ==> opts[t] == c) && forall x | 0 <= x < t :: opts[x] != c
    ensures Find(opts, c) == t
  {
  }

  // ----- errors

  /** The character after the first place of a letter in opts is what says how it takes an argument. */
  lemma KindExact(opts: string, c: char, t: nat)
    requires t < |opts| && opts[t] == c && forall x | 0 <= x < t :: opts[x] != c
    ensures var mark := if t + 1 < |opts| then opts[t + 1] else ' ';
            && (KindOf(opts, c).Required? <==> mark == ':') && (KindOf(opts, c).Optional? <==> mark == '|')
            && (KindOf(opts, c).Adjoining? <==> mark == ';')
            && (KindOf(opts, c).Flag? <==> mark != ':' && mark != '|' && mark != ';')
  {
    FindUnique(opts, c, t);
  }

  lemma UnknownExact(opts: string, c: char)
    ensures KindOf(opts, c).Unknown? <==> c !in opts
  {
    if c in opts {
      var t :| 0 <= t < |opts| && opts[t] == c;
    } else {
      assert Find(opts, c) == |opts|;
    }
  }

  /** The letter of this option is in error: it is not in opts, or its argument is missing at the end of the
      word; one in the next word, that does not begin with '-', will do for a ':' option alone. */
  predicate Erroneous(av: seq<string>, opts: string, s: State)
    requires !AtEnd(av, s) && 1 <= s.n < |av[s.optind]|
  {
    var c, last := av[s.optind][s.n], s.n + 1 == |av[s.optind]|;
    || c !in opts
    || (last && KindOf(opts, c).Adjoining?)
    || (last && KindOf(opts, c).Required? &&
       (s.optind + 1 == |av| || (|av[s.optind + 1]| > 0 && av[s.optind + 1][0] == '-')))
  }

  /** A call answers '?' exactly then, and optopt is the letter. Only a missing adjoining argument takes it past
      the word. */
  lemma ErrorExact(av: seq<string>, opts: string, s0: State)
    requires Ready(av, s0)
    ensures var s := Started(s0);
            var (t, r) := Call(av, opts, s0);
            && (r.Error? <==> !AtEnd(av, s) && Erroneous(av, opts, s))
            && (r.Error? ==>
                  var c := av[s.optind][s.n];
                  if KindOf(opts, c).Adjoining? then t == State(s.optind + 1, s.n, None, Some(c))
                  else t == State(s.optind, s.n, s.optarg, Some(c)))
  {
    var s := Started(s0);
    if !AtEnd(av, s) {
      UnknownExact(opts, av[s.optind][s.n]);
      hide KindOf;
    }
  }

  /** Calls after an error answer the same error for ever, exactly unless an adjoining argument was missing. */
  lemma ErrorRepeats(av: seq<string>, opts: string, s0: State)
    requires Ready(av, s0) && Call(av, opts, s0).1.Error?
    ensures var s, t := Started(s0), Call(av, opts, s0).0;
            !AtEnd(av, s) &&
            (Ready(av, t) && Call(av, opts, t) == (t, Error) <==> !KindOf(opts, av[s.optind][s.n]).Adjoining?)
  {
    var s, t := Started(s0), Call(av, opts, s0).0;
    ErrorExact(av, opts, s0);
    if KindOf(opts, av[s.optind][s.n]).Adjoining? && Ready(av, t) {
      ErrorExact(av, opts, t);
      if !AtEnd(av, t) { assert Started(t) == t; }
    }
    hide KindOf;
  }

  // ----- the assertion in the code

  /** A call leaves the state ready for the next one exactly when it does not move on to a shorter option
      word after an adjoining argument was missing: that error alone does not reset n. */
  lemma StaysReady(av: seq<string>, opts: string, s0: State)
    requires Ready(av, s0)
    ensures var s := Started(s0);
            var failed := !AtEnd(av, s) && KindOf(opts, av[s.optind][s.n]).Adjoining? && s.n + 1 == |av[s.optind]|;
            Ready(av, Call(av, opts, s0).0) <==>
            !(failed && s.optind + 1 < |av| && OptionWord(av[s.optind + 1]) && |av[s.optind + 1]| <= s.n)
  {
  }

  /** With "ab;" the words -ab -a make the assertion fail on the third call. */
  lemma AssertFails()
    ensures var av, opts := ["prog", "-ab", "-a"], "ab;";
            var s0 := State(0, 0, None, None);
            && Ready(av, s0) && Ready(av, Call(av, opts, s0).0)
            && !Ready(av, Call(av, opts, Call(av, opts, s0).0).0)
  {
    assert Find("ab;", 'a') == 0 && Find("ab;"[1..], 'b') == 0 && Find("ab;", 'b') == 1;
  }

  /** Without ';' in opts no letter is of that kind, so the assertion never fails. */
  lemma NeverFails(av: seq<string>, opts: string, s0: State)
    requires Ready(av, s0) && ';' !in opts
    ensures Ready(av, Call(av, opts, s0).0)
  {
    hide Call, Find;
    StaysReady(av, opts, s0);
  }

  // ----- printing options and reading them back

  /** How the last option of a word is written: not at all, -xarg, -x arg, or -x with its argument left out. */
  datatype Tail = End | Attached(c: char, arg: string) | Separate(c: char, arg: string) | Bare(c: char)

  /** A word of clustered flags and, it may be, one more option. */
  datatype Cluster = Cluster(flags: string, tail: Tail)

  /** Flags take no argument. An attached argument is not empty; one in the next word belongs to a ':' option
      and does not begin with '-'; only a '|' option leaves it out. */
  predicate Legal(opts: string, w: Cluster) {
    && (forall x | 0 <= x < |w.flags| :: KindOf(opts, w.flags[x]) == Flag)
    && match w.tail
       case End => w.flags != ""
       case Attached(c, arg) => KindOf(opts, c) != Unknown && KindOf(opts, c) != Flag && arg != ""
       case Separate(c, arg) => KindOf(opts, c) == Required && !(|arg| > 0 && arg[0] == '-')
       case Bare(c) => KindOf(opts, c) == Optional
  }

  function TailText(t: Tail): string {
    match t
    case End => ""
    case Attached(c, arg) => [c] + arg
    case Separate(c, _) => [c]
    case Bare(c) => [c]
  }

  function Text(w: Cluster): string {
    "-" + w.flags + TailText(w.tail)
  }

  /** The words of one cluster. */
  function Words(w: Cluster): seq<string> {
    if w.tail.Separate? then [Text(w), w.tail.arg] else [Text(w)]
  }

  function Render(ws: seq<Cluster>): seq<string> {
    if ws == [] then [] else Words(ws[0]) + Render(ws[1..])
  }

  /** What a call reports: the letter, and optarg after it. */
  type Report = (Answer, Option<string>)

  function TailReports(t: Tail): seq<Report> {
    match t
    case End => []
    case Attached(c, arg) => [(Letter(c), Some(arg))]
    case Separate(c, arg) => [(Letter(c), Some(arg))]
    case Bare(c) => [(Letter(c), None)]
  }

  /** A flag leaves optarg as it was. */
  function FlagReports(flags: string, before: Option<string>): seq<Report> {
    seq(|flags|, x requires 0 <= x < |flags| => (Letter(flags[x]), before))
  }

  function ArgAfter(t: Tail, before: Option<string>): Option<string> {
    match t
    case End => before
    case Attached(_, arg) => Some(arg)
    case Separate(_, arg) => Some(arg)
    case Bare(_) => None
  }

  function Reports(ws: seq<Cluster>, before: Option<string>): seq<Report> {
    if ws == [] then []
    else FlagReports(ws[0].flags, before) + TailReports(ws[0].tail) + Reports(ws[1..], ArgAfter(ws[0].tail, before))
  }

  /** Successive calls from s give these reports and end in s'. */
  ghost predicate Calls(av: seq<string>, opts: string, s: State, reports: seq<Report>, s': State)
    decreases |reports|
  {
    if reports == [] then s' == s
    else
      && Ready(av, s)
      && var (t, r) := Call(av, opts, s);
         r == reports[0].0 && t.optarg == reports[0].1 && Calls(av, opts, t, reports[1..], s')
  }

  lemma {:induction false} CallsJoin(av: seq<string>, opts: string, s: State, p: seq<Report>, t: State, q: seq<Report>,
                                     u: State)
    requires Calls(av, opts, s, p, t) && Calls(av, opts, t, q, u)
    ensures Calls(av, opts, s, p + q, u)
    decreases |p|
  {
    if p == [] {
      assert p + q == q;
    } else {
      CallsJoin(av, opts, Call(av, opts, s).0, p[1..], t, q, u);
      assert (p + q)[1..] == p[1..] + q && (p + q)[0] == p[0];
    }
  }

  /** Where s is in av: the rest of cluster w after its first x flags. */
  ghost predicate Within(av: seq<string>, s: State, w: Cluster, x: nat) {
    s.optind >= 1 && s.n == 1 + x && x <= |w.flags| && s.optind + |Words(w)| <= |av| &&
    av[s.optind..s.optind + |Words(w)|] == Words(w)
  }

  /** After the cluster. */
  function Past(s: State, w: Cluster, optarg: Option<string>): State {
    s.(optind := s.optind + |Words(w)|, n := 1, optarg := optarg)
  }

  lemma TextAt(w: Cluster, x: nat)
    requires x <= |w.flags|
    ensures |Text(w)| == 1 + |w.flags| + |TailText(w.tail)| && Text(w)[0] == '-'
    ensures x < |w.flags| ==> Text(w)[1 + x] == w.flags[x] && Text(w)[2 + x..] == w.flags[x + 1..] + TailText(w.tail)
    ensures x == |w.flags| && w.tail != End ==> Text(w)[1 + x] == w.tail.c
    ensures x == |w.flags| && w.tail.Attached? ==> Text(w)[2 + x..] == w.tail.arg
    ensures x == |w.flags| && (w.tail.Separate? || w.tail.Bare?) ==> Text(w)[2 + x..] == ""
  {
  }

  lemma WithinAt(av: seq<string>, s: State, w: Cluster, x: nat)
    requires Within(av, s, w, x)
    ensures s.optind < |av| && av[s.optind] == Text(w)
    ensures w.tail.Separate? ==> s.optind + 1 < |av| && av[s.optind + 1] == w.tail.arg
    ensures |Words(w)| == if w.tail.Separate? then 2 else 1
  {
    assert av[s.optind..s.optind + |Words(w)|][0] == Words(w)[0];
    if w.tail.Separate? { assert av[s.optind..s.optind + 2][1] == Words(w)[1]; }
  }

  /** One flag: on to the next letter, or past the word when it was the last. */
  lemma ReadFlag(av: seq<string>, opts: string, s: State, w: Cluster, x: nat)
    requires Legal(opts, w) && Within(av, s, w, x) && x < |w.flags|
    ensures Ready(av, s) && Call(av, opts, s).1 == Letter(w.flags[x])
    ensures Call(av, opts, s).0 == if x + 1 == |w.flags| && w.tail.End? then Past(s, w, s.optarg) else s.(n := 2 + x)
  {
    WithinAt(av, s, w, x);
    TextAt(w, x);
    hide KindOf, Text, Within, Words;
    assert KindOf(opts, w.flags[x]) == Flag;
  }

  /** The option at the end of a word. */
  lemma ReadTail(av: seq<string>, opts: string, s: State, w: Cluster)
    requires Legal(opts, w) && Within(av, s, w, |w.flags|) && w.tail != End
    ensures Ready(av, s) && Call(av, opts, s).1 == Letter(w.tail.c)
    ensures Call(av, opts, s).0 == Past(s, w, ArgAfter(w.tail, s.optarg))
    ensures TailReports(w.tail) == [(Letter(w.tail.c), ArgAfter(w.tail, s.optarg))]
  {
    WithinAt(av, s, w, |w.flags|);
    TextAt(w, |w.flags|);
    hide KindOf, Text, Within, Words;
  }

  lemma FlagFirst(w: Cluster, x: nat, before: Option<string>)
    requires x < |w.flags|
    ensures var r := FlagReports(w.flags[x..], before) + TailReports(w.tail);
            r != [] && r[0] == (Letter(w.flags[x]), before) && r[1..] == FlagReports(w.flags[x + 1..], before) +
            TailReports(w.tail)
  {
    var r := FlagReports(w.flags[x..], before);
    assert r[1..] == FlagReports(w.flags[x + 1..], before);
    assert (r + TailReports(w.tail))[1..] == r[1..] + TailReports(w.tail);
  }

  lemma WithinNext(av: seq<string>, s: State, w: Cluster, x: nat)
    requires Within(av, s, w, x) && x < |w.flags|
    ensures Within(av, s.(n := 2 + x), w, x + 1)
  {
  }

  lemma NoReports(w: Cluster, before: Option<string>)
    requires w.tail.End?
    ensures FlagReports(w.flags[|w.flags|..], before) + TailReports(w.tail) == [] && ArgAfter(w.tail, before) == before
  {
  }

  lemma TailOnly(w: Cluster, before: Option<string>)
    ensures FlagReports(w.flags[|w.flags|..], before) + TailReports(w.tail) == TailReports(w.tail)
  {
    assert FlagReports(w.flags[|w.flags|..], before) == [];
  }

  lemma CallsOne(av: seq<string>, opts: string, s: State, reports: seq<Report>, t: State, u: State)
    requires Ready(av, s) && reports != [] && Call(av, opts, s) == (t, reports[0].0) && t.optarg == reports[0].1
    requires Calls(av, opts, t, reports[1..], u)
    ensures Calls(av, opts, s, reports, u)
  {
    hide Call, Ready;
  }

  lemma CallsNone(av: seq<string>, opts: string, s: State)
    ensures Calls(av, opts, s, [], s)
  {
  }

  /** The rest of a cluster, from flag x on. */
  lemma {:induction false} ReadCluster(av: seq<string>, opts: string, s: State, w: Cluster, x: nat)
    requires Legal(opts, w) && Within(av, s, w, x) && x <= |w.flags| && (x < |w.flags| || !w.tail.End?)
    ensures Calls(av, opts, s, FlagReports(w.flags[x..], s.optarg) + TailReports(w.tail),
                  Past(s, w, ArgAfter(w.tail, s.optarg)))
    decreases |w.flags| - x
  {
    hide *;
    var u := Past(s, w, ArgAfter(w.tail, s.optarg));
    var r := FlagReports(w.flags[x..], s.optarg) + TailReports(w.tail);
    if x < |w.flags| {
      ReadFlag(av, opts, s, w, x);
      FlagFirst(w, x, s.optarg);
      if x + 1 == |w.flags| && w.tail.End? {
        NoReports(w, s.optarg);
        PastOptarg(s, w, s.optarg);
        CallsNone(av, opts, u);
        CallsOne(av, opts, s, r, u, u);
      } else {
        var t := s.(n := 2 + x);
        WithinNext(av, s, w, x);
        ReadCluster(av, opts, t, w, x + 1);
        PastSame(s, t, w, ArgAfter(w.tail, s.optarg));
        CallsOne(av, opts, s, r, t, u);
      }
    } else {
      ReadTail(av, opts, s, w);
      TailOnly(w, s.optarg);
      PastOptarg(s, w, ArgAfter(w.tail, s.optarg));
      CallsNone(av, opts, u);
      assert r[1..] == [];
      CallsOne(av, opts, s, r, u, u);
    }
  }

  lemma PastOptarg(s: State, w: Cluster, optarg: Option<string>)
    ensures Past(s, w, optarg).optarg == optarg
  {
  }

  lemma PastSame(s: State, t: State, w: Cluster, optarg: Option<string>)
    requires t == s.(n := t.n)
    ensures Past(t, w, optarg) == Past(s, w, optarg)
  {
  }

  function LastArg(ws: seq<Cluster>, before: Option<string>): Option<string> {
    if ws == [] then before else LastArg(ws[1..], ArgAfter(ws[0].tail, before))
  }

  ghost predicate AllLegal(opts: string, ws: seq<Cluster>) {
    forall x | 0 <= x < |ws| :: Legal(opts, ws[x])
  }

  ghost predicate Follows(av: seq<string>, i: nat, words: seq<string>) {
    i + |words| <= |av| && av[i..i + |words|] == words
  }

  lemma FollowsParts(av: seq<string>, i: nat, p: seq<string>, q: seq<string>)
    requires Follows(av, i, p + q)
    ensures Follows(av, i, p) && Follows(av, i + |p|, q)
  {
    assert av[i..i + |p|] == (p + q)[..|p|];
    assert av[i + |p|..i + |p + q|] == (p + q)[|p|..];
  }

  /** All clusters, from the start of the first. */
  lemma {:induction false} ReadAll(av: seq<string>, opts: string, s: State, ws: seq<Cluster>)
    requires AllLegal(opts, ws) && s.optind >= 1 && s.n == 1 && Follows(av, s.optind, Render(ws))
    ensures Calls(av, opts, s, Reports(ws, s.optarg),
                  State(s.optind + |Render(ws)|, 1, LastArg(ws, s.optarg), s.optopt))
    decreases |ws|
  {
    hide *;
    var u := State(s.optind + |Render(ws)|, 1, LastArg(ws, s.optarg), s.optopt);
    if ws == [] {
      NoClusters(s, u);
      CallsNone(av, opts, s);
    } else {
      var w, rest := ws[0], ws[1..];
      var a := ArgAfter(w.tail, s.optarg);
      var t := Past(s, w, a);
      FirstCluster(opts, ws, s.optarg);
      PastIs(s, w, a);
      FollowsParts(av, s.optind, Words(w), Render(rest));
      StartsWithin(av, s, w);
      LegalCluster(opts, w);
      ReadCluster(av, opts, s, w, 0);
      ReadAll(av, opts, t, rest);
      CallsJoin(av, opts, s, FlagReports(w.flags[0..], s.optarg) + TailReports(w.tail), t, Reports(rest, a), u);
    }
  }

  lemma NoClusters(s: State, u: State)
    requires s.n == 1 && u == State(s.optind + |Render([])|, 1, LastArg([], s.optarg), s.optopt)
    ensures u == s && Reports([], s.optarg) == []
  {
  }

  lemma FirstCluster(opts: string, ws: seq<Cluster>, before: Option<string>)
    requires ws != [] && AllLegal(opts, ws)
    ensures var w, rest, a := ws[0], ws[1..], ArgAfter(ws[0].tail, before);
            && Legal(opts, w) && AllLegal(opts, rest) && Render(ws) == Words(w) + Render(rest)
            && Reports(ws, before) == FlagReports(w.flags[0..], before) + TailReports(w.tail) + Reports(rest, a)
            && LastArg(ws, before) == LastArg(rest, a)
  {
    assert ws[0].flags[0..] == ws[0].flags;
  }

  lemma PastIs(s: State, w: Cluster, a: Option<string>)
    ensures Past(s, w, a) == State(s.optind + |Words(w)|, 1, a, s.optopt)
  {
  }

  lemma StartsWithin(av: seq<string>, s: State, w: Cluster)
    requires s.optind >= 1 && s.n == 1 && Follows(av, s.optind, Words(w))
    ensures Within(av, s, w, 0)
  {
  }

  lemma LegalCluster(opts: string, w: Cluster)
    requires Legal(opts, w)
    ensures |w.flags| > 0 || !w.tail.End?
  {
  }

  /** getopt undoes printing: for any legal clusters, followed by operands of which the first is no option
      word, successive calls from the start report every option with its argument, in order; then comes EOF,
      with optind at the first operand. */
  lemma RoundTrip(prog: string, ws: seq<Cluster>, operands: seq<string>, opts: string, s0: State) returns (t: State)
    requires AllLegal(opts, ws) && s0.optind == 0
    requires operands == [] || !OptionWord(operands[0])
    ensures var av := [prog] + Render(ws) + operands;
            && Calls(av, opts, s0, Reports(ws, s0.optarg), t)
            && Ready(av, t) && Call(av, opts, t).1 == Eof
            && Call(av, opts, t).0.optind == 1 + |Render(ws)| && av[1 + |Render(ws)|..] == operands
  {
    var av := [prog] + Render(ws) + operands;
    var s1 := Started(s0);
    var end := State(1 + |Render(ws)|, 1, LastArg(ws, s0.optarg), s0.optopt);
    assert av[1..1 + |Render(ws)|] == Render(ws);
    assert operands != [] ==> av[1 + |Render(ws)|] == operands[0];
    ReadAll(av, opts, s1, ws);
    if Reports(ws, s0.optarg) == [] {
      t := s0;
    } else {
      t := end;
      SameCalls(av, opts, s0, Reports(ws, s0.optarg), end);
    }
  }

  lemma SameCalls(av: seq<string>, opts: string, s0: State, reports: seq<Report>, u: State)
    requires s0.optind == 0 && reports != [] && Calls(av, opts, Started(s0), reports, u)
    ensures Calls(av, opts, s0, reports, u)
  {
    assert Call(av, opts, s0) == Call(av, opts, Started(s0));
  }
}
