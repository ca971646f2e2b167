/**
 The parallel test scheduler of the build script (deploy/build.py:1036-1170): tests wait
 in a queue, at most a given number run at once, and finished ones are recorded.  The
 list of running tests is edited while it is being iterated.
 */
module TestScheduler {
  import opened Basics

  datatype Test = Test(index: nat, name: string)

  /** What polling a process says. */
  datatype Poll = Running | Exited(code: int)

  datatype Record = Record(index: nat, passed: bool)

  datatype State = State(
    queue: seq<Test>,
    running: seq<Test>,
    passed: map<string, Record>,
    failed: map<string, Record>,
    skipped: seq<string>)

  datatype Options = Options(parallel: int, selects: string -> bool)

  // ------------------------------------------------------------------- a round

  /** list.remove: the first element equal to x goes. */
  function RemoveFirst<T(==)>(s: seq<T>, x: T): seq<T> {
    if s == [] then [] else if s[0] == x then s[1..] else [s[0]] + RemoveFirst(s[1..], x)
  }

  /** A test whose process has ended is taken off the list and its result recorded. */
  function Finish(s: State, test: Test, code: int): State {
    var record := Record(test.index, code == 0);
    var t := s.(running := RemoveFirst(s.running, test));
    if code == 0 then t.(passed := t.passed[test.name := record]) else t.(failed := t.failed[test.name := record])
  }

  lemma {:induction false} RemoveFirstLength<T>(s: seq<T>, x: T)
    ensures |RemoveFirst(s, x)| == if x in s then |s| - 1 else |s|
  {
    if s != [] { RemoveFirstLength(s[1..], x); }
  }

  /** The for loop over the running tests, from position i: the iterator counts positions,
      so after a removal it steps over the test that moved up. */
  function PollFrom(s: State, i: nat, poll: string -> Poll): State
    decreases |s.running| - i
  {
    if i >= |s.running| then s
    else
      match poll(s.running[i].name)
      case Running => PollFrom(s, i + 1, poll)
      case Exited(code) =>
        RemoveFirstLength(s.running, s.running[i]);
        PollFrom(Finish(s, s.running[i], code), i + 1, poll)
  }

  /** Tests are started from the front of the queue while there is room; tests the pattern
      does not select are skipped. */
  function Fill(s: State, o: Options): State
    decreases |s.queue|
  {
    if s.queue == [] || |s.running| >= o.parallel then s
    else
      Fill(if o.selects(s.queue[0].name) then Started(s) else Skipped(s), o)
  }

  function Round(s: State, o: Options, poll: string -> Poll): State { Fill(PollFrom(s, 0, poll), o) }

  // --------------------------------------------------------------- invariants

  function NamesOf(tests: seq<Test>): (r: seq<string>)
    ensures |r| == |tests| && forall i :: 0 <= i < |tests| ==> r[i] == tests[i].name
  {
    seq(|tests|, i requires 0 <= i < |tests| => tests[i].name)
  }

  /** Every name as often as the state holds it anywhere. */
  ghost function Bag(s: State): multiset<string> {
    multiset(NamesOf(s.queue)) + multiset(NamesOf(s.running))
    + multiset(s.passed.Keys) + multiset(s.failed.Keys) + multiset(s.skipped)
  }

  /** Each test is in exactly one of queued, running, passed, failed and skipped. */
  ghost predicate Partition(s: State, all: set<string>) { Bag(s) == multiset(all) }

  ghost predicate ResultsRight(s: State) {
    && (forall n :: n in s.passed ==> s.passed[n].passed)
    && (forall n :: n in s.failed ==> !s.failed[n].passed)
  }

  ghost predicate Inv(s: State, o: Options, all: set<string>) {
    Partition(s, all) && ResultsRight(s) && (o.parallel >= 0 ==> |s.running| <= o.parallel)
  }

  lemma NamesCons(s: seq<Test>)
    requires s != []
    ensures NamesOf(s) == [s[0].name] + NamesOf(s[1..])
    ensures multiset(NamesOf(s)) == multiset{s[0].name} + multiset(NamesOf(s[1..]))
  {
  }

  lemma {:induction false} RemoveFirstBag(s: seq<Test>, x: Test)
    requires x in s
    ensures multiset(NamesOf(s)) == multiset(NamesOf(RemoveFirst(s, x))) + multiset{x.name}
  {
    NamesCons(s);
    if s[0] != x {
      RemoveFirstBag(s[1..], x);
      NamesCons(RemoveFirst(s, x));
      assert RemoveFirst(s, x)[1..] == RemoveFirst(s[1..], x);
    }
  }

  /** How often a name occurs, place by place. */
  lemma BagCount(s: State, n: string)
    ensures Bag(s)[n] == multiset(NamesOf(s.queue))[n] + multiset(NamesOf(s.running))[n]
      + (if n in s.passed then 1 else 0) + (if n in s.failed then 1 else 0) + multiset(s.skipped)[n]
  {
  }

  lemma RunningIsUnrecorded(s: State, all: set<string>, test: Test)
    requires Partition(s, all) && test in s.running
    ensures test.name !in s.passed && test.name !in s.failed
  {
    BagCount(s, test.name);
    RemoveFirstBag(s.running, test);
    assert multiset(all)[test.name] <= 1;
  }

  lemma OneMore(names: set<string>, name: string)
    requires name !in names
    ensures multiset({name} + names) == multiset{name} + multiset(names)
  {
  }

  /** What leaves one bag and enters another stays in their sum. */
  lemma MovesOver(q: multiset<string>, r: multiset<string>, p: multiset<string>, f: multiset<string>,
      k: multiset<string>,
      m: multiset<string>)
    ensures q + r + (m + p) + f + k == q + (r + m) + p + f + k
    ensures q + r + p + (m + f) + k == q + (r + m) + p + f + k
  {
  }

  lemma FinishBag(s: State, test: Test, code: int)
    requires test in s.running && test.name !in s.passed && test.name !in s.failed
    ensures Bag(Finish(s, test, code)) == Bag(s)
  {
    var t := Finish(s, test, code);
    var name := test.name;
    RemoveFirstBag(s.running, test);
    MovesOver(multiset(NamesOf(s.queue)), multiset(NamesOf(t.running)), multiset(s.passed.Keys),
      multiset(s.failed.Keys), multiset(s.skipped), multiset{name});
    if code == 0 {
      OneMore(s.passed.Keys, name);
      assert t.passed.Keys == {name} + s.passed.Keys;
    } else {
      OneMore(s.failed.Keys, name);
      assert t.failed.Keys == {name} + s.failed.Keys;
    }
  }

  lemma FinishKeeps(s: State, o: Options, all: set<string>, test: Test, code: int)
    requires Inv(s, o, all) && test in s.running
    ensures Inv(Finish(s, test, code), o, all)
  {
    RunningIsUnrecorded(s, all, test);
    FinishBag(s, test, code);
    RemoveFirstLength(s.running, test);
  }

  /** One iteration of the loop over the running tests. */
  function Polled(s: State, i: nat, poll: string -> Poll): State
    requires i < |s.running|
  {
    match poll(s.running[i].name)
    case Running => s
    case Exited(code) => Finish(s, s.running[i], code)
  }

  lemma PollStep(s: State, i: nat, poll: string -> Poll)
    requires i < |s.running|
    ensures PollFrom(s, i, poll) == PollFrom(Polled(s, i, poll), i + 1, poll)
    ensures |Polled(s, i, poll).running| <= |s.running| && Polled(s, i, poll).queue == s.queue
  {
    RemoveFirstLength(s.running, s.running[i]);
  }

  lemma PolledKeeps(s: State, o: Options, all: set<string>, i: nat, poll: string -> Poll)
    requires Inv(s, o, all) && i < |s.running|
    ensures Inv(Polled(s, i, poll), o, all)
  {
    match poll(s.running[i].name)
    case Running =>
    case Exited(code) => FinishKeeps(s, o, all, s.running[i], code);
  }

  /** What every iteration keeps, the loop keeps. */
  lemma {:induction false} PollKeepsAny(s: State, i: nat, poll: string -> Poll, inv: State -> bool)
    requires inv(s)
    requires forall t, j: nat :: inv(t) && j < |t.running| ==> inv(Polled(t, j, poll))
    ensures inv(PollFrom(s, i, poll))
    decreases |s.running| - i
  {
    if i < |s.running| {
      PollStep(s, i, poll);
      PollKeepsAny(Polled(s, i, poll), i + 1, poll, inv);
    }
  }

  lemma PollKeeps(s: State, o: Options, all: set<string>, poll: string -> Poll)
    requires Inv(s, o, all)
    ensures Inv(PollFrom(s, 0, poll), o, all)
  {
    ghost var inv := t => Inv(t, o, all);
    forall t, j: nat | inv(t) && j < |t.running| ensures inv(Polled(t, j, poll)) {
      PolledKeeps(t, o, all, j, poll);
    }
    PollKeepsAny(s, 0, poll, inv);
  }

  /** The first test of the queue put on the list of running tests, or skipped. */
  function Started(s: State): State
    requires s.queue != []
  {
    s.(queue := s.queue[1..], running := s.running + [s.queue[0]])
  }

  function Skipped(s: State): State
    requires s.queue != []
  {
    s.(queue := s.queue[1..], skipped := s.skipped + [s.queue[0].name])
  }

  lemma StartedBag(s: State)
    requires s.queue != []
    ensures Bag(Started(s)) == Bag(s)
  {
    NamesCons(s.queue);
    assert NamesOf(Started(s).running) == NamesOf(s.running) + [s.queue[0].name];
  }

  lemma SkippedBag(s: State)
    requires s.queue != []
    ensures Bag(Skipped(s)) == Bag(s)
  {
    NamesCons(s.queue);
  }

  lemma {:induction false} FillKeeps(s: State, o: Options, all: set<string>)
    requires Inv(s, o, all)
    ensures Inv(Fill(s, o), o, all)
    decreases |s.queue|
  {
    if s.queue != [] && |s.running| < o.parallel {
      StartedBag(s);
      SkippedBag(s);
      FillKeeps(if o.selects(s.queue[0].name) then Started(s) else Skipped(s), o, all);
    }
  }

  /** Every round keeps the invariant, although it removes from the list it iterates over. */
  lemma RoundKeeps(s: State, o: Options, all: set<string>, poll: string -> Poll)
    requires Inv(s, o, all)
    ensures Inv(Round(s, o, poll), o, all)
  {
    PollKeeps(s, o, all, poll);
    FillKeeps(PollFrom(s, 0, poll), o, all);
  }

  /** When nothing is queued or running, every test has one recorded result or was skipped. */
  lemma FinishedResults(s: State, o: Options, all: set<string>)
    requires Inv(s, o, all) && s.queue == [] && s.running == []
    ensures s.passed.Keys !! s.failed.Keys
    ensures forall n :: n in all <==> n in s.passed || n in s.failed || n in s.skipped
    ensures forall n :: n in s.skipped ==> n !in s.passed && n !in s.failed
    ensures forall i, j :: 0 <= i < j < |s.skipped| ==> s.skipped[i] != s.skipped[j]
  {
    forall n
      ensures multiset(all)[n]
           == (if n in s.passed then 1 else 0) + (if n in s.failed then 1 else 0) + multiset(s.skipped)[n]
    {
      BagCount(s, n);
    }
    forall n ensures n in all <==> n in s.passed || n in s.failed || n in s.skipped {
      assert n in all <==> multiset(all)[n] == 1;
      assert n in s.skipped <==> multiset(s.skipped)[n] > 0;
    }
    forall n | n in s.skipped ensures n !in s.passed && n !in s.failed {
      assert multiset(s.skipped)[n] > 0 && multiset(all)[n] <= 1;
    }
    forall n | n in s.passed ensures n !in s.failed {
      assert multiset(all)[n] <= 1;
    }
    forall i, j | 0 <= i < j < |s.skipped| ensures s.skipped[i] != s.skipped[j] {
      assert multiset(all)[s.skipped[i]] <= 1;
      if s.skipped[i] == s.skipped[j] { Twice(s.skipped, i, j); }
    }
  }

  // ----------------------------------------------------------------- progress

  predicate Done(s: State) { s.queue == [] && s.running == [] }

  /** Each test has two steps before it: to be started (or skipped) and to end. */
  function Work(s: State): nat { 2 * |s.queue| + |s.running| }

  lemma {:induction false} PollWork(s: State, i: nat, poll: string -> Poll)
    ensures PollFrom(s, i, poll).queue == s.queue
    ensures |PollFrom(s, i, poll).running| <= |s.running|
    ensures i < |s.running| && poll(s.running[i].name).Exited? ==> |PollFrom(s, i, poll).running| < |s.running|
    decreases |s.running| - i
  {
    if i < |s.running| {
      match poll(s.running[i].name)
      case Running => PollWork(s, i + 1, poll);
      case Exited(code) =>
        RemoveFirstLength(s.running, s.running[i]);
        PollWork(Finish(s, s.running[i], code), i + 1, poll);
    }
  }

  lemma {:induction false} FillWork(s: State, o: Options)
    ensures Work(Fill(s, o)) <= Work(s)
    ensures s.queue != [] && |s.running| < o.parallel ==> Work(Fill(s, o)) < Work(s)
    decreases |s.queue|
  {
    if s.queue != [] && |s.running| < o.parallel {
      FillWork(if o.selects(s.queue[0].name) then Started(s) else Skipped(s), o);
    }
  }

  /** From position 1 on the loop over the running tests takes one off, or leaves the first. */
  lemma {:induction false} FirstStays(s: State, i: nat, poll: string -> Poll)
    requires s.running != [] && i > 0
    ensures var t := PollFrom(s, i, poll);
      |t.running| < |s.running| || (t.running != [] && t.running[0] == s.running[0])
    decreases |s.running| - i
  {
    if i < |s.running| {
      PollStep(s, i, poll);
      PollWork(Polled(s, i, poll), i + 1, poll);
      match poll(s.running[i].name)
      case Running => FirstStays(s, i + 1, poll);
      case Exited(code) => RemoveFirstLength(s.running, s.running[i]);
    }
  }

  lemma {:induction false} FillKeepsFirst(s: State, o: Options)
    requires s.running != []
    ensures Fill(s, o).running != [] && Fill(s, o).running[0] == s.running[0]
    decreases |s.queue|
  {
    if s.queue != [] && |s.running| < o.parallel {
      FillKeepsFirst(if o.selects(s.queue[0].name) then Started(s) else Skipped(s), o);
    }
  }

  /** There is someone to do what is left. */
  predicate CanWork(s: State, o: Options) { o.parallel >= 1 || s.queue == [] }

  /** A round gets work done, or waits for the first running test, which position 0 of the
      iteration never steps over. */
  lemma RoundProgress(s: State, o: Options, poll: string -> Poll)
    requires CanWork(s, o) && !Done(s)
    ensures var t := Round(s, o, poll);
      || Work(t) < Work(s)
      || (s.running != [] && poll(s.running[0].name) == Running && Work(t) <= Work(s)
          && t.running != [] && t.running[0] == s.running[0])
    ensures CanWork(Round(s, o, poll), o)
  {
    var p := PollFrom(s, 0, poll);
    PollWork(s, 0, poll);
    FillWork(p, o);
    if s.running != [] && poll(s.running[0].name) == Running {
      FirstStays(s, 1, poll);
      if |p.running| == |s.running| { FillKeepsFirst(p, o); }
    }
  }

  /** The state after at most n more rounds, stopping when everything is done. */
  function RoundsFrom(s: State, o: Options, polls: nat -> string -> Poll, r: nat, n: nat): State
    decreases n
  {
    if n == 0 || Done(s) then s else RoundsFrom(Round(s, o, polls(r)), o, polls, r + 1, n - 1)
  }

  /** Repeating a step until done, at most n times, keeps what the step keeps. */
  function Repeat<S>(s: S, step: (S, nat) -> S, done: S -> bool, r: nat, n: nat): S
    decreases n
  {
    if n == 0 || done(s) then s else Repeat(step(s, r), step, done, r + 1, n - 1)
  }

  lemma {:induction false} RepeatKeeps<S(!new)>(s: S, step: (S, nat) -> S, done: S -> bool, inv: S -> bool, r: nat,
      n: nat)
    requires inv(s) && forall t, k :: inv(t) ==> inv(step(t, k))
    ensures inv(Repeat(s, step, done, r, n))
    decreases n
  {
    if n > 0 && !done(s) {
      RepeatKeeps(step(s, r), step, done, inv, r + 1, n - 1);
    }
  }

  lemma {:induction false} RoundsAreRepeated(s: State, o: Options, polls: nat -> string -> Poll, r: nat, n: nat,
      step: (State, nat) -> State)
    requires forall t, k :: step(t, k) == Round(t, o, polls(k))
    ensures RoundsFrom(s, o, polls, r, n) == Repeat(s, step, Done, r, n)
    decreases n
  {
    if n > 0 && !Done(s) {
      RoundsAreRepeated(step(s, r), o, polls, r + 1, n - 1, step);
    }
  }

  /** The invariant holds at every point of every run. */
  lemma RunKeeps(s: State, o: Options, all: set<string>, polls: nat -> string -> Poll, r: nat, n: nat)
    requires Inv(s, o, all)
    ensures Inv(RoundsFrom(s, o, polls, r, n), o, all)
  {
    var step := (t: State, k: nat) => Round(t, o, polls(k));
    ghost var inv := t => Inv(t, o, all);
    forall t, k | inv(t) ensures inv(step(t, k)) {
      RoundKeeps(t, o, all, polls(k));
    }
    RoundsAreRepeated(s, o, polls, r, n, step);
    RepeatKeeps(s, step, Done, inv, r, n);
  }

  /** Polling finds the process of this name ended in round k or one of the next d rounds. */
  ghost predicate EndsBy(polls: nat -> string -> Poll, name: string, k: nat, d: nat) {
    exists j: nat :: k <= j <= k + d && polls(j)(name).Exited?
  }

  /** A bound: if no process lasts longer than d rounds, started whenever, the run is over
      after d + 1 rounds for each step of work, and d more. */
  lemma RunEndsWithin(s: State, o: Options, polls: nat -> string -> Poll, r: nat, d: nat, n: nat)
    requires CanWork(s, o) && forall k: nat, name :: EndsBy(polls, name, k, d)
    requires n >= (d + 1) * Work(s) + d
    ensures Done(RoundsFrom(s, o, polls, r, n))
  {
    RunEndsWaiting(s, o, polls, r, d, d, n);
  }

  /** w is how long the first running test can still last. */
  lemma {:induction false} RunEndsWaiting(s: State, o: Options, polls: nat -> string -> Poll, r: nat, d: nat, w: nat,
      n: nat)
    requires CanWork(s, o) && forall k: nat, name :: EndsBy(polls, name, k, d)
    requires w <= d && (s.running != [] ==> EndsBy(polls, s.running[0].name, r, w))
    requires n >= (d + 1) * Work(s) + w
    ensures Done(RoundsFrom(s, o, polls, r, n))
    decreases n
  {
    if !Done(s) {
      var t := Round(s, o, polls(r));
      RoundProgress(s, o, polls(r));
      if Work(t) < Work(s) {
        OneStepLess(d, Work(t), Work(s));
        RunEndsWaiting(t, o, polls, r + 1, d, d, n - 1);
      } else {
        StillToEnd(polls, s.running[0].name, r, w);
        RunEndsWaiting(t, o, polls, r + 1, d, w - 1, n - 1);
      }
    }
  }

  /** What is not over in a round is over in one after it. */
  lemma StillToEnd(polls: nat -> string -> Poll, name: string, r: nat, w: nat)
    requires EndsBy(polls, name, r, w) && polls(r)(name) == Running
    ensures w > 0 && EndsBy(polls, name, r + 1, w - 1)
  {
    var j: nat :| r <= j <= r + w && polls(j)(name).Exited?;
    assert j != r;
  }

  lemma OneStepLess(d: nat, a: nat, b: nat)
    requires a < b
    ensures (d + 1) * a + d < (d + 1) * b
  {
    MulMono(d + 1, a + 1, b);
    assert (d + 1) * (a + 1) == (d + 1) * a + (d + 1);
  }

  /** Polling finds the process of this name ended in round k or some later one. */
  ghost predicate Ends(polls: nat -> string -> Poll, name: string, k: nat) {
    exists j: nat :: k <= j && polls(j)(name).Exited?
  }

  /** Every process ends at some time, however late it is started.  (What polls says of a
      process that does not run is never looked at.) */
  ghost predicate AllEnd(polls: nat -> string -> Poll) {
    forall k: nat, name :: Ends(polls, name, k)
  }

  /** If every process ends, without any bound on how long it lasts, so does the run. */
  lemma RunEnds(s: State, o: Options, polls: nat -> string -> Poll, r: nat) returns (n: nat)
    requires CanWork(s, o) && AllEnd(polls)
    ensures Done(RoundsFrom(s, o, polls, r, n))
  {
    n := RunEndsAfter(s, o, polls, r, NextEnd(s, polls, r));
  }

  /** A round in which the first running test is found ended. */
  ghost function NextEnd(s: State, polls: nat -> string -> Poll, r: nat): (j: nat)
    requires AllEnd(polls)
    ensures r <= j && (s.running != [] ==> polls(j)(s.running[0].name).Exited?)
  {
    if s.running == [] then r
    else
      assert Ends(polls, s.running[0].name, r);
      var j: nat :| r <= j && polls(j)(s.running[0].name).Exited?;
      j
  }

  lemma {:induction false} RunEndsAfter(s: State, o: Options, polls: nat -> string -> Poll, r: nat,
      j: nat) returns (n: nat)
    requires CanWork(s, o) && AllEnd(polls)
    requires r <= j && (s.running != [] ==> polls(j)(s.running[0].name).Exited?)
    ensures Done(RoundsFrom(s, o, polls, r, n))
    decreases Work(s), j - r
  {
    n := 0;
    if !Done(s) {
      var t := Round(s, o, polls(r));
      RoundProgress(s, o, polls(r));
      var m;
      if Work(t) < Work(s) {
        m := RunEndsAfter(t, o, polls, r + 1, NextEnd(t, polls, r + 1));
      } else {
        m := RunEndsAfter(t, o, polls, r + 1, j);
      }
      n := m + 1;
    }
  }

  /** Without workers a queue stays as it is for ever. */
  lemma {:induction false} QueueWaitsWithoutWorkers(s: State, o: Options, polls: nat -> string -> Poll, r: nat, n: nat)
    requires o.parallel <= 0
    ensures RoundsFrom(s, o, polls, r, n).queue == s.queue
    decreases n
  {
    if n > 0 && !Done(s) {
      PollWork(s, 0, polls(r));
      QueueWaitsWithoutWorkers(Round(s, o, polls(r)), o, polls, r + 1, n - 1);
    }
  }

  /** The run is over after at most n rounds. */
  ghost predicate Over(s: State, o: Options, polls: nat -> string -> Poll, n: nat) {
    Done(RoundsFrom(s, o, polls, 0, n))
  }

  /** When every process ends, the run ends if and only if there is a worker or nothing to start. */
  lemma RunEndsExactly(s: State, o: Options, polls: nat -> string -> Poll)
    requires AllEnd(polls)
    ensures (exists n: nat :: Over(s, o, polls, n)) <==> o.parallel >= 1 || s.queue == []
  {
    if CanWork(s, o) {
      var n := RunEnds(s, o, polls, 0);
      assert Over(s, o, polls, n);
    } else {
      forall n: nat ensures !Over(s, o, polls, n) {
        QueueWaitsWithoutWorkers(s, o, polls, 0, n);
      }
    }
  }

  // ------------------------------------------------------------------ results

  /** A result is recorded only for a process that ended, and it says how it ended. */
  lemma {:induction false} PollRecords(s: State, i: nat, poll: string -> Poll, n: string)
    ensures var t := PollFrom(s, i, poll);
      && (n in t.passed ==> n in s.passed || poll(n) == Exited(0))
      && (n in t.failed ==> n in s.failed || (poll(n).Exited? && poll(n).code != 0))
      && (n in s.passed ==> n in t.passed) && (n in s.failed ==> n in t.failed)
    decreases |s.running| - i
  {
    if i < |s.running| {
      match poll(s.running[i].name)
      case Running => PollRecords(s, i + 1, poll, n);
      case Exited(code) =>
        RemoveFirstLength(s.running, s.running[i]);
        PollRecords(Finish(s, s.running[i], code), i + 1, poll, n);
    }
  }

  lemma {:induction false} FillRecords(s: State, o: Options)
    ensures Fill(s, o).passed == s.passed && Fill(s, o).failed == s.failed
    decreases |s.queue|
  {
    if s.queue != [] && |s.running| < o.parallel {
      FillRecords(if o.selects(s.queue[0].name) then Started(s) else Skipped(s), o);
    }
  }

  /** Over a whole run: what was not recorded at the start as passed (failed) is recorded so
      only because in some round its process was found to have ended with (without) code 0. */
  lemma {:induction false} ResultsAreExitCodes(s: State, o: Options, polls: nat -> string -> Poll, r: nat, n: nat,
      name: string)
    ensures var t := RoundsFrom(s, o, polls, r, n);
      && (name in t.passed && name !in s.passed ==> exists k :: r <= k < r + n && polls(k)(name) == Exited(0))
      && (name in t.failed && name !in s.failed ==>
            exists k :: r <= k < r + n && polls(k)(name).Exited? && polls(k)(name).code != 0)
    decreases n
  {
    if n > 0 && !Done(s) {
      var p := PollFrom(s, 0, polls(r));
      PollRecords(s, 0, polls(r), name);
      FillRecords(p, o);
      ResultsAreExitCodes(Fill(p, o), o, polls, r + 1, n - 1, name);
    }
  }

  /** What a run starts from: all tests queued. */
  function Initial(queue: seq<Test>): State { State(queue, [], map[], map[], []) }

  ghost predicate DistinctNames(queue: seq<Test>) {
    forall i, j :: 0 <= i < j < |queue| ==> queue[i].name != queue[j].name
  }

  ghost function AllNames(queue: seq<Test>): set<string> { set i | 0 <= i < |queue| :: queue[i].name }

  /** Tests with distinct names: each is in the queue, once. */
  lemma InitialInv(queue: seq<Test>, o: Options)
    requires DistinctNames(queue)
    ensures Inv(Initial(queue), o, AllNames(queue))
  {
    QueueNames(queue);
    assert NamesOf([]) == [];
  }

  lemma {:induction false} QueueNames(queue: seq<Test>)
    requires DistinctNames(queue)
    ensures multiset(NamesOf(queue)) == multiset(AllNames(queue))
  {
    if queue != [] {
      QueueNames(queue[1..]);
      NamesCons(queue);
      AllNamesCons(queue);
      OneMore(AllNames(queue[1..]), queue[0].name);
    }
  }

  lemma AllNamesCons(queue: seq<Test>)
    requires queue != [] && DistinctNames(queue)
    ensures AllNames(queue) == {queue[0].name} + AllNames(queue[1..])
    ensures queue[0].name !in AllNames(queue[1..]) && DistinctNames(queue[1..])
  {
    var rest := queue[1..];
    forall i | 0 <= i < |rest| ensures rest[i].name in AllNames(queue) && rest[i].name != queue[0].name {
      assert rest[i] == queue[i + 1];
    }
    forall i | 1 <= i < |queue| ensures queue[i].name in AllNames(rest) {
      assert queue[i] == rest[i - 1];
    }
  }

  /** At the end of a run every test has exactly one recorded result, or was skipped. */
  lemma AllTestsAccountedFor(s: State, o: Options, all: set<string>, polls: nat -> string -> Poll, n: nat)
    requires Inv(s, o, all) && Done(RoundsFrom(s, o, polls, 0, n))
    ensures var t := RoundsFrom(s, o, polls, 0, n);
      && t.passed.Keys !! t.failed.Keys
      && t.passed.Keys + t.failed.Keys == all - (set x | x in t.skipped)
      && ResultsRight(t)
  {
    RunKeeps(s, o, all, polls, 0, n);
    FinishedResults(RoundsFrom(s, o, polls, 0, n), o, all);
  }

  /** The code that polling reports for a process, whenever it reports one. */
  ghost predicate EndsWith(polls: nat -> string -> Poll, name: string, n: nat, code: int) {
    forall k: nat :: k < n && polls(k)(name).Exited? ==> polls(k)(name).code == code
  }

  /** At the end of a run a test that was not skipped is recorded as passed if and only if
      its process ended with code 0, and as failed if and only if it ended with another. */
  lemma PassedExactly(queue: seq<Test>, o: Options, polls: nat -> string -> Poll, n: nat, name: string, code: int)
    requires DistinctNames(queue) && Done(RoundsFrom(Initial(queue), o, polls, 0, n))
    requires EndsWith(polls, name, n, code)
    ensures var t := RoundsFrom(Initial(queue), o, polls, 0, n);
      name in AllNames(queue) && name !in t.skipped ==>
        (name in t.passed <==> code == 0) && (name in t.failed <==> code != 0)
  {
    var t := RoundsFrom(Initial(queue), o, polls, 0, n);
    InitialInv(queue, o);
    AllTestsAccountedFor(Initial(queue), o, AllNames(queue), polls, n);
    ResultsAreExitCodes(Initial(queue), o, polls, 0, n, name);
    assert name in AllNames(queue) && name !in t.skipped ==> name in t.passed.Keys + t.failed.Keys;
  }

  // ---------------------------------------------------------------- selection

  /** The names the pattern does not select, in the order of the queue. */
  function Unselected(queue: seq<Test>, o: Options): (r: seq<string>)
    ensures forall n :: n in r <==> exists i :: 0 <= i < |queue| && queue[i].name == n && !o.selects(n)
  {
    if queue == [] then []
    else
      var n := |queue| - 1;
      var rest := Unselected(queue[..n], o);
      assert forall i :: 0 <= i < |queue| ==> queue[i] == if i < n then queue[..n][i] else queue[n];
      if o.selects(queue[n].name) then rest else rest + [queue[n].name]
  }

  ghost function SelectedNames(queue: seq<Test>, o: Options): set<string> {
    set n | n in AllNames(queue) && o.selects(n)
  }

  /** What has left the queue and is not selected has been skipped, in the order of the queue. */
  ghost predicate Behind(rest: seq<Test>, skipped: seq<string>, o: Options, queue: seq<Test>) {
    && |rest| <= |queue| && rest == queue[|queue| - |rest|..]
    && skipped == Unselected(queue[..|queue| - |rest|], o)
  }

  /** What has left the queue: tests the pattern selects were started, the others skipped. */
  ghost predicate SelectionRight(s: State, o: Options, queue: seq<Test>) {
    && Behind(s.queue, s.skipped, o, queue)
    && (forall i :: 0 <= i < |s.running| ==> o.selects(s.running[i].name))
    && (forall n :: n in s.passed || n in s.failed ==> o.selects(n))
  }

  lemma {:induction false} RemoveFirstKeeps<T>(s: seq<T>, x: T, p: T -> bool)
    requires forall i :: 0 <= i < |s| ==> p(s[i])
    ensures forall i :: 0 <= i < |RemoveFirst(s, x)| ==> p(RemoveFirst(s, x)[i])
  {
    if s != [] && s[0] != x { RemoveFirstKeeps(s[1..], x, p); }
  }

  lemma PolledSelection(s: State, o: Options, queue: seq<Test>, i: nat, poll: string -> Poll)
    requires SelectionRight(s, o, queue) && i < |s.running|
    ensures SelectionRight(Polled(s, i, poll), o, queue)
  {
    var p := (t: Test) => o.selects(t.name);
    RemoveFirstKeeps(s.running, s.running[i], p);
    assert p(s.running[i]);
  }

  lemma OneMoreBehind(rest: seq<Test>, skipped: seq<string>, o: Options, queue: seq<Test>)
    requires Behind(rest, skipped, o, queue) && rest != []
    ensures Behind(rest[1..], if o.selects(rest[0].name) then skipped else skipped + [rest[0].name], o, queue)
  {
    var k := |queue| - |rest|;
    assert queue[..k + 1][..k] == queue[..k];
    assert queue[k] == rest[0] && rest[1..] == queue[k + 1..];
  }

  lemma StartedSelection(s: State, o: Options, queue: seq<Test>)
    requires SelectionRight(s, o, queue) && s.queue != []
    ensures o.selects(s.queue[0].name) ==> SelectionRight(Started(s), o, queue)
    ensures !o.selects(s.queue[0].name) ==> SelectionRight(Skipped(s), o, queue)
  {
    OneMoreBehind(s.queue, s.skipped, o, queue);
  }

  lemma {:induction false} FillSelection(s: State, o: Options, queue: seq<Test>)
    requires SelectionRight(s, o, queue)
    ensures SelectionRight(Fill(s, o), o, queue)
    decreases |s.queue|
  {
    if s.queue != [] && |s.running| < o.parallel {
      StartedSelection(s, o, queue);
      FillSelection(if o.selects(s.queue[0].name) then Started(s) else Skipped(s), o, queue);
    }
  }

  lemma RoundSelection(s: State, o: Options, queue: seq<Test>, poll: string -> Poll)
    requires SelectionRight(s, o, queue)
    ensures SelectionRight(Round(s, o, poll), o, queue)
  {
    ghost var inv := t => SelectionRight(t, o, queue);
    forall t, j: nat | inv(t) && j < |t.running| ensures inv(Polled(t, j, poll)) {
      PolledSelection(t, o, queue, j, poll);
    }
    PollKeepsAny(s, 0, poll, inv);
    FillSelection(PollFrom(s, 0, poll), o, queue);
  }

  /** At every point of every run: only selected tests are running or have a result, only
      others are skipped, and they are skipped in the order of the queue. */
  lemma RunSelection(queue: seq<Test>, o: Options, polls: nat -> string -> Poll, n: nat)
    ensures SelectionRight(RoundsFrom(Initial(queue), o, polls, 0, n), o, queue)
  {
    var step := (t: State, k: nat) => Round(t, o, polls(k));
    ghost var inv := t => SelectionRight(t, o, queue);
    assert queue[|queue| - |queue|..] == queue && queue[..0] == [];
    assert inv(Initial(queue));
    forall t, k | inv(t) ensures inv(step(t, k)) {
      RoundSelection(t, o, queue, polls(k));
    }
    RoundsAreRepeated(Initial(queue), o, polls, 0, n, step);
    RepeatKeeps(Initial(queue), step, Done, inv, 0, n);
  }

  /** At the end of a run exactly the tests the pattern selects have a result, and exactly
      the others were skipped, in the order of the queue. */
  lemma SelectedTestsHaveResults(queue: seq<Test>, o: Options, polls: nat -> string -> Poll, n: nat)
    requires DistinctNames(queue) && Done(RoundsFrom(Initial(queue), o, polls, 0, n))
    ensures var t := RoundsFrom(Initial(queue), o, polls, 0, n);
      && t.passed.Keys + t.failed.Keys == SelectedNames(queue, o)
      && t.passed.Keys !! t.failed.Keys
      && t.skipped == Unselected(queue, o)
  {
    var t := RoundsFrom(Initial(queue), o, polls, 0, n);
    InitialInv(queue, o);
    AllTestsAccountedFor(Initial(queue), o, AllNames(queue), polls, n);
    RunSelection(queue, o, polls, n);
    assert queue[..|queue| - |t.queue|] == queue;
    forall name ensures name in t.passed.Keys + t.failed.Keys <==> name in SelectedNames(queue, o) {
      assert name in t.skipped <==> exists i :: 0 <= i < |queue| && queue[i].name == name && !o.selects(name);
    }
  }

  lemma {:induction false} NothingUnselected(queue: seq<Test>, o: Options)
    requires forall n :: o.selects(n)
    ensures Unselected(queue, o) == []
  {
    if queue != [] { NothingUnselected(queue[..|queue| - 1], o); }
  }

  /** Without a pattern, which selects everything, every test is run. */
  lemma WithoutPatternAllAreRun(queue: seq<Test>, o: Options, polls: nat -> string -> Poll, n: nat)
    requires DistinctNames(queue) && Done(RoundsFrom(Initial(queue), o, polls, 0, n)) && forall n :: o.selects(n)
    ensures var t := RoundsFrom(Initial(queue), o, polls, 0, n);
      t.passed.Keys + t.failed.Keys == AllNames(queue) && t.skipped == []
  {
    var t := RoundsFrom(Initial(queue), o, polls, 0, n);
    SelectedTestsHaveResults(queue, o, polls, n);
    assert SelectedNames(queue, o) == AllNames(queue);
    NothingUnselected(queue, o);
  }

  lemma {:induction false} FillsUp(s: State, o: Options)
    ensures Fill(s, o).queue == [] || |Fill(s, o).running| >= o.parallel
    decreases |s.queue|
  {
    if s.queue != [] && |s.running| < o.parallel {
      FillsUp(if o.selects(s.queue[0].name) then Started(s) else Skipped(s), o);
    }
  }

  /** A round leaves no worker idle while tests are queued. */
  lemma NoIdleWorker(s: State, o: Options, poll: string -> Poll)
    ensures var t := Round(s, o, poll); t.queue == [] || |t.running| >= o.parallel
  {
    FillsUp(PollFrom(s, 0, poll), o);
  }

  // ---------------------------------------------------------------- in memory

  class Scheduler {
    var queue: seq<Test>
    var running: seq<Test>
    var passed: map<string, Record>
    var failed: map<string, Record>
    ghost var skipped: seq<string>

    ghost function Now(): State
      reads this
    {
      State(queue, running, passed, failed, skipped)
    }

    constructor (tests: seq<Test>)
      ensures Now() == Initial(tests)
    {
      queue, running, passed, failed, skipped := tests, [], map[], map[], [];
    }

    /** Checks on all running tests and takes the ended ones off the list. */
    method PollRunning(poll: string -> Poll)
      modifies this
      ensures Now() == PollFrom(old(Now()), 0, poll)
    {
      var i := 0;
      while i < |running|
        invariant PollFrom(Now(), i, poll) == PollFrom(old(Now()), 0, poll)
        decreases |running| - i
      {
        var test := running[i];
        match poll(test.name) {
          case Running =>
          case Exited(code) =>
            RemoveFirstLength(running, test);
            running := RemoveFirst(running, test);
            if code == 0 {
              passed := passed[test.name := Record(test.index, true)];
            } else {
              failed := failed[test.name := Record(test.index, false)];
            }
        }
        i := i + 1;
      }
    }

    /** Takes tests from the queue and starts them while there is room. */
    method StartTests(o: Options)
      modifies this
      ensures Now() == Fill(old(Now()), o)
    {
      while |queue| > 0 && |running| < o.parallel
        invariant Fill(Now(), o) == Fill(old(Now()), o)
        decreases |queue|
      {
        var test := queue[0];
        queue := queue[1..];
        if !o.selects(test.name) {
          skipped := skipped + [test.name];
          continue;
        }
        running := running + [test];
      }
    }

    /** One round of the scheduling loop. */
    method RunRound(o: Options, poll: string -> Poll)
      modifies this
      ensures Now() == Round(old(Now()), o, poll)
    {
      PollRunning(poll);
      StartTests(o);
    }

    /** The scheduling loop.  polls says what each round finds; every process ends at some
        time.  At exit nothing is queued or running. */
    method RunTests(o: Options, polls: nat -> string -> Poll)
      requires CanWork(Now(), o) && AllEnd(polls)
      modifies this
      ensures Done(Now()) && exists n: nat :: Now() == RoundsFrom(old(Now()), o, polls, 0, n)
    {
      var r := 0;
      ghost var total := RunEnds(Now(), o, polls, 0);
      while |queue| > 0 || |running| > 0
        invariant r <= total
        invariant RoundsFrom(Now(), o, polls, r, total - r) == RoundsFrom(old(Now()), o, polls, 0, total)
        decreases total - r
      {
        RunRound(o, polls(r));
        r := r + 1;
      }
    }
  }
}
