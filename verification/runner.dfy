/**
 * A sampled run of a test suite as an interleaved step system: the spawner
 * goroutine, one worker goroutine per test case, the buffered channel they share,
 * the wait group, and the collector that selects between the channel and a timer.
 *
 * Every channel or wait-group operation is one step.  Runs are sequences of steps
 * in any order the scheduler allows; the timer may fire whenever the collector is
 * still waiting.  A send on a closed channel, a second close and a negative
 * wait-group counter are panics, which the model can reach and the proofs exclude.
 */
module Runner {
  import opened Options
  import opened Samples
  import opened Seqs

  datatype Config = Config(cases: map<string, TestCase>, sampleCount: nat, oracle: Oracle)

  datatype WorkerState =
    | Unspawned
    | AtSample(i: nat)
    | Sending(i: nat, r: Result)
    | AtTeardown(i: nat)
    | Exited

  datatype Spawner =
    | Launching(todo: set<string>)
    | Added(name: string, todo: set<string>)
    | Closing
    | Finished

  datatype Collector = Collecting | Returned(timedOut: bool)

  datatype State = State(
    spawner: Spawner,
    workers: map<string, WorkerState>,
    waitGroup: nat,
    queue: seq<Result>,
    closed: bool,
    collector: Collector,
    results: map<string, seq<Result>>,
    panicked: bool)

  datatype Step =
    | Add(name: string)
    | Go
    | Waited
    | Close
    | Sample(name: string)
    | Send(name: string)
    | Teardown(name: string)
    | Done(name: string)
    | Receive
    | ReturnAll
    | Timeout

  function Capacity(c: Config): nat { |c.cases| * c.sampleCount }

  function Init(c: Config): State {
    State(Launching(c.cases.Keys), map n | n in c.cases :: Unspawned, 0, [], false, Collecting, map[], false)
  }

  /** What sample `i` of test `n` sends: at most one result. */
  function Outcome(c: Config, n: string, i: nat): (sent: seq<Result>)
    requires n in c.cases
    ensures |sent| <= 1
    ensures sent != [] ==> sent[0].name == n
  {
    Emit(n, c.cases[n], c.oracle(n, i))
  }

  /** The samples before `k` of test `n`, in order. */
  function Emitted(c: Config, n: string, k: nat): seq<Result>
    requires n in c.cases
  {
    if k == 0 then [] else Emitted(c, n, k - 1) + Outcome(c, n, k - 1)
  }

  predicate Working(w: WorkerState) { w.AtSample? || w.Sending? || w.AtTeardown? }

  /** A worker about to send on a full, open channel has to wait. */
  predicate Blocked(c: Config, s: State, n: string) {
    n in s.workers && s.workers[n].Sending? && !s.closed && |s.queue| >= Capacity(c)
  }

  predicate Enabled(c: Config, s: State, step: Step) {
    !s.panicked &&
    match step
    case Add(n) => s.spawner.Launching? && n in s.spawner.todo
    case Go => s.spawner.Added?
    case Waited => s.spawner == Launching({}) && s.waitGroup == 0
    case Close => s.spawner.Closing?
    case Sample(n) => n in s.workers && n in c.cases && s.workers[n].AtSample? && s.workers[n].i < c.sampleCount
    case Send(n) => n in s.workers && n in c.cases && s.workers[n].Sending? && !Blocked(c, s, n)
    case Teardown(n) => n in s.workers && s.workers[n].AtTeardown?
    case Done(n) => n in s.workers && s.workers[n].AtSample? && s.workers[n].i >= c.sampleCount
    case Receive => s.collector.Collecting? && s.queue != []
    case ReturnAll => s.collector.Collecting? && s.queue == [] && s.closed
    case Timeout => s.collector.Collecting?
  }

  /** The results collected so far under a name; an absent entry holds none. */
  function Of(results: map<string, seq<Result>>, n: string): seq<Result> {
    if n in results then results[n] else []
  }

  /** Grouping by test name, keeping the order of arrival. */
  function Collected(results: map<string, seq<Result>>, r: Result): map<string, seq<Result>> {
    results[r.name := Of(results, r.name) + [r]]
  }

  /** A worker after the callbacks of sample `i` up to its send, or past the sample if setup failed. */
  function AfterCallbacks(c: Config, n: string, i: nat): WorkerState
    requires n in c.cases
  {
    var sent := Outcome(c, n, i);
    if sent == [] then AtSample(i + 1) else Sending(i, sent[0])
  }

  /** A worker after its send: a failed request skips the teardown. */
  function AfterSend(c: Config, n: string, i: nat): WorkerState
    requires n in c.cases
  {
    if c.oracle(n, i).reply.RequestError? then AtSample(i + 1) else AtTeardown(i)
  }

  function Apply(c: Config, s: State, step: Step): State
    requires Enabled(c, s, step)
  {
    match step
    case Add(n) => s.(spawner := Added(n, s.spawner.todo - {n}), waitGroup := s.waitGroup + 1)
    case Go => s.(spawner := Launching(s.spawner.todo), workers := s.workers[s.spawner.name := AtSample(0)])
    case Waited => s.(spawner := Closing)
    case Close => if s.closed then s.(panicked := true) else s.(spawner := Finished, closed := true)
    case Sample(n) => s.(workers := s.workers[n := AfterCallbacks(c, n, s.workers[n].i)])
    case Send(n) =>
      if s.closed then s.(panicked := true)
      else s.(queue := s.queue + [s.workers[n].r], workers := s.workers[n := AfterSend(c, n, s.workers[n].i)])
    case Teardown(n) => s.(workers := s.workers[n := AtSample(s.workers[n].i + 1)])
    case Done(n) =>
      if s.waitGroup == 0 then s.(panicked := true)
      else s.(waitGroup := s.waitGroup - 1, workers := s.workers[n := Exited])
    case Receive => s.(queue := s.queue[1..], results := Collected(s.results, s.queue[0]))
    case ReturnAll => s.(collector := Returned(false))
    case Timeout => s.(collector := Returned(true))
  }

  /** The state at the end of a sequence of steps, if every step was enabled when it was taken. */
  ghost function Reached(c: Config, run: seq<Step>): Option<State> {
    if run == [] then Some(Init(c))
    else
      match Reached(c, run[..|run| - 1])
      case None => None
      case Some(s) =>
        var step := run[|run| - 1];
        if Enabled(c, s, step) then Some(Apply(c, s, step)) else None
  }

  /** What one result contributes to a name. */
  function Own(r: Result, n: string): seq<Result> { if r.name == n then [r] else [] }

  /** The results of one test among a sequence of results, in order. */
  function Named(rs: seq<Result>, n: string): (sub: seq<Result>)
    ensures |sub| <= |rs|
  {
    if rs == [] then []
    else Own(rs[0], n) + Named(rs[1..], n)
  }

  /** What the worker of test `n` has put on the channel so far. */
  function Produced(c: Config, n: string, w: WorkerState): seq<Result>
    requires n in c.cases
  {
    match w
    case Unspawned => []
    case AtSample(i) => Emitted(c, n, i)
    case Sending(i, _) => Emitted(c, n, i)
    case AtTeardown(i) => Emitted(c, n, i + 1)
    case Exited => Emitted(c, n, c.sampleCount)
  }

  lemma NamedFirst(rs: seq<Result>, n: string)
    requires rs != []
    ensures Named(rs, n) == Own(rs[0], n) + Named(rs[1..], n)
  {
  }

  lemma {:induction false} NamedSnoc(rs: seq<Result>, r: Result, n: string)
    ensures Named(rs + [r], n) == Named(rs, n) + Own(r, n)
  {
    hide Own;
    if rs == [] {
      assert rs + [r] == [r] && [r][1..] == [];
      assert Named([r], n) == Own(r, n) + Named([r][1..], n);
    } else {
      assert (rs + [r])[1..] == rs[1..] + [r];
      NamedSnoc(rs[1..], r, n);
      ConcatAssociates(Own(rs[0], n), Named(rs[1..], n), Own(r, n));
    }
  }

  /** The collector's receive loop on a channel that delivers `stream` and is then closed. */
  method Collect(stream: seq<Result>) returns (results: map<string, seq<Result>>)
    ensures forall n :: Of(results, n) == Named(stream, n)
    ensures forall n :: n in results <==> Named(stream, n) != []
  {
    results := map[];
    for i := 0 to |stream|
      invariant forall n :: Of(results, n) == Named(stream[..i], n)
      invariant forall n :: n in results ==> results[n] != []
    {
      var r := stream[i];
      ghost var before := results;
      if r.name !in results {
        results := results[r.name := []];
      }
      results := results[r.name := results[r.name] + [r]];
      assert stream[..i + 1] == stream[..i] + [r];
      forall n ensures Of(results, n) == Named(stream[..i + 1], n) {
        NamedSnoc(stream[..i], r, n);
        assert Of(before, n) == Named(stream[..i], n);
      }
    }
    assert stream[..|stream|] == stream;
  }
}
