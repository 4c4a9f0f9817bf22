/**
 * Every worker of a sampled run follows its sequential loop: the calls and sends it
 * has made in any interleaving are those of the loop up to where it stands.
 */
module RunnerTraces {
  import opened Options
  import opened Samples
  import opened Runner
  import opened RunnerSafety
  import opened Seqs

  /** What a step lets the worker of test `n` call or send. */
  ghost function Performed(c: Config, s: State, step: Step, n: string): seq<Event>
    requires n in c.cases && Enabled(c, s, step)
  {
    match step
    case Sample(m) => if m == n then BeforeSend(c.cases[n], c.oracle(n, s.workers[n].i)) else []
    case Send(m) => if m == n then [Sent(s.workers[n].r)] else []
    case Teardown(m) => if m == n && c.cases[n].hasTeardown then [CalledTeardown] else []
    case _ => []
  }

  /** All that the worker of test `n` has called and sent, in order. */
  ghost function Trace(c: Config, run: seq<Step>, n: string): seq<Event>
    requires n in c.cases && Reached(c, run).Some?
  {
    if run == [] then []
    else
      var before, step := run[..|run| - 1], run[|run| - 1];
      Trace(c, before, n) + Performed(c, Reached(c, before).value, step, n)
  }

  function Loop(c: Config, n: string, k: nat): seq<Event>
    requires n in c.cases
  {
    WorkerEvents(n, c.cases[n], c.oracle, k)
  }

  /** Where a worker stands in its loop. */
  ghost predicate Follows(c: Config, n: string, w: WorkerState, trace: seq<Event>)
    requires n in c.cases
  {
    match w
    case Unspawned => trace == []
    case AtSample(i) => trace == Loop(c, n, i)
    case Sending(i, _) => trace == Loop(c, n, i) + BeforeSend(c.cases[n], c.oracle(n, i))
    case AtTeardown(i) =>
      && c.oracle(n, i).reply.Response? && Emit(n, c.cases[n], c.oracle(n, i)) != []
      && trace == Loop(c, n, i) + BeforeSend(c.cases[n], c.oracle(n, i)) + AtSend(n, c.cases[n], c.oracle(n, i))
    case Exited => trace == Loop(c, n, c.sampleCount)
  }

  lemma LoopSnoc(c: Config, n: string, i: nat)
    requires n in c.cases
    ensures var tc, a := c.cases[n], c.oracle(n, i);
      Loop(c, n, i + 1) == Loop(c, n, i) + BeforeSend(tc, a) + AtSend(n, tc, a) + Ending(tc, a)
  {
    hide BeforeSend, AtSend, Ending, SampleEvents, WorkerEvents;
    var tc, a := c.cases[n], c.oracle(n, i);
    WorkerIsItsSamples(n, tc, c.oracle, i);
    SampleInParts(n, tc, a);
    ConcatAssociates(Loop(c, n, i), BeforeSend(tc, a) + AtSend(n, tc, a), Ending(tc, a));
    ConcatAssociates(Loop(c, n, i), BeforeSend(tc, a), AtSend(n, tc, a));
  }

  lemma NothingSentNothingAfter(n: string, tc: TestCase, a: Answers)
    requires Emit(n, tc, a) == []
    ensures AtSend(n, tc, a) == [] && Ending(tc, a) == []
  {
  }

  lemma SampleFollows(c: Config, n: string, i: nat, trace: seq<Event>)
    requires n in c.cases && i < c.sampleCount && Follows(c, n, AtSample(i), trace)
    ensures Follows(c, n, AfterCallbacks(c, n, i), trace + BeforeSend(c.cases[n], c.oracle(n, i)))
  {
    hide BeforeSend, Emit, WorkerEvents;
    LoopSnoc(c, n, i);
    var head := BeforeSend(c.cases[n], c.oracle(n, i));
    if Outcome(c, n, i) == [] {
      NothingSentNothingAfter(n, c.cases[n], c.oracle(n, i));
      assert trace + head + [] + [] == trace + head;
    }
  }

  lemma SendFollows(c: Config, n: string, i: nat, r: Result, trace: seq<Event>)
    requires n in c.cases && i < c.sampleCount && Outcome(c, n, i) == [r]
    requires Follows(c, n, Sending(i, r), trace)
    ensures Follows(c, n, AfterSend(c, n, i), trace + [Sent(r)])
  {
    hide BeforeSend, Emit, WorkerEvents;
    LoopSnoc(c, n, i);
    if c.oracle(n, i).reply.RequestError? {
      assert trace + [Sent(r)] + [] == trace + [Sent(r)];
    }
  }

  lemma TeardownFollows(c: Config, n: string, i: nat, trace: seq<Event>)
    requires n in c.cases && Follows(c, n, AtTeardown(i), trace)
    ensures Follows(c, n, AtSample(i + 1), trace + if c.cases[n].hasTeardown then [CalledTeardown] else [])
  {
    hide BeforeSend, WorkerEvents;
    LoopSnoc(c, n, i);
  }

  lemma SpawnFollows(c: Config, n: string, trace: seq<Event>)
    requires n in c.cases && Follows(c, n, Unspawned, trace)
    ensures Follows(c, n, AtSample(0), trace)
  {
  }

  lemma ExitFollows(c: Config, n: string, i: nat, trace: seq<Event>)
    requires n in c.cases && Follows(c, n, AtSample(i), trace) && i == c.sampleCount
    ensures Follows(c, n, Exited, trace)
  {
  }

  lemma FlowHasAll(c: Config, s: State, n: string)
    requires Flow(c, s) && n in c.cases
    ensures n in s.workers && WorkerOk(c, n, s.workers[n])
  {
    assert TestFlow(c, s, n);
  }

  lemma OthersStay(c: Config, s: State, step: Step, n: string)
    requires Inv(c, s) && Enabled(c, s, step) && n in c.cases
    requires Move(c, s, step).Some? ==> Move(c, s, step).value.0 != n
    ensures n in Apply(c, s, step).workers && Apply(c, s, step).workers[n] == s.workers[n]
    ensures Performed(c, s, step, n) == []
  {
    hide Flow, Counted, Launched, AfterCallbacks, AfterSend;
    FlowHasAll(c, s, n);
    StepDoesNotPanic(c, s, step);
  }

  lemma MovedFollows(c: Config, s: State, step: Step, n: string, trace: seq<Event>)
    requires Inv(c, s) && Enabled(c, s, step) && n in c.cases && n in s.workers && Follows(c, n, s.workers[n], trace)
    requires Move(c, s, step).Some? && Move(c, s, step).value.0 == n
    ensures Follows(c, n, Move(c, s, step).value.1, trace + Performed(c, s, step, n))
  {
    hide Flow, Counted, BeforeSend, AfterCallbacks, AfterSend, Loop, Emit, Follows;
    FlowHasAll(c, s, n);
    assert trace + [] == trace;
    match step
    case Sample(_) => SampleFollows(c, n, s.workers[n].i, trace);
    case Send(_) => SendFollows(c, n, s.workers[n].i, s.workers[n].r, trace);
    case Teardown(_) => TeardownFollows(c, n, s.workers[n].i, trace);
    case Go => SpawnFollows(c, n, trace);
    case Done(_) => ExitFollows(c, n, s.workers[n].i, trace);
  }

  /** Every step keeps every worker in its loop. */
  lemma StepFollows(c: Config, s: State, step: Step, n: string, trace: seq<Event>)
    requires Inv(c, s) && Enabled(c, s, step) && n in c.cases && n in s.workers && Follows(c, n, s.workers[n], trace)
    ensures n in Apply(c, s, step).workers
    ensures Follows(c, n, Apply(c, s, step).workers[n], trace + Performed(c, s, step, n))
  {
    hide Follows, Inv, Performed, Enabled, Apply, Move;
    if Move(c, s, step).Some? && Move(c, s, step).value.0 == n {
      MovedFollows(c, s, step, n, trace);
      StepDoesNotPanic(c, s, step);
      StepMovesOne(c, s, step);
    } else {
      OthersStay(c, s, step, n);
      assert trace + [] == trace;
    }
  }

  lemma NothingFollows(c: Config, n: string)
    requires n in c.cases
    ensures n in Init(c).workers && Follows(c, n, Init(c).workers[n], [])
  {
  }

  /** In every run, the calls and sends of each worker are those of its sequential loop up to where it stands. */
  lemma {:induction false} WorkersFollowTheirLoops(c: Config, run: seq<Step>, n: string)
    requires Reached(c, run).Some? && n in c.cases
    ensures n in Reached(c, run).value.workers
    ensures Follows(c, n, Reached(c, run).value.workers[n], Trace(c, run, n))
  {
    hide Follows, Inv, Enabled, Apply, Performed;
    if run == [] {
      NothingFollows(c, n);
    } else {
      var before := run[..|run| - 1];
      RunKeepsInv(c, before);
      WorkersFollowTheirLoops(c, before, n);
      StepFollows(c, Reached(c, before).value, run[|run| - 1], n, Trace(c, before, n));
    }
  }

  /** So a worker that has exited has made every call, and sent every result, exactly as its loop does. */
  lemma ExitedWorkersDidAll(c: Config, run: seq<Step>, n: string)
    requires Reached(c, run).Some? && n in c.cases
    ensures n in Reached(c, run).value.workers
    ensures Reached(c, run).value.workers[n].Exited? ==>
      Trace(c, run, n) == WorkerEvents(n, c.cases[n], c.oracle, c.sampleCount)
  {
    WorkersFollowTheirLoops(c, run, n);
  }

  // ---------------------------------------------------------------- who may move

  /**
   * Nobody waits for anyone but where the channel and the wait group say so: live
   * workers, the spawner short of its wait, a collector with something to receive and
   * the timer may each move in every reachable state.
   */
  lemma EveryoneMayMove(c: Config, run: seq<Step>, n: string)
    requires Reached(c, run).Some? && n in c.cases
    ensures var s := Reached(c, run).value;
      && n in s.workers
      && (s.workers[n].AtSample? ==> Enabled(c, s, if s.workers[n].i < c.sampleCount then Sample(n) else Done(n)))
      && (s.workers[n].Sending? ==> Enabled(c, s, Send(n)))
      && (s.workers[n].AtTeardown? ==> Enabled(c, s, Teardown(n)))
      && (s.spawner.Launching? && n in s.spawner.todo ==> Enabled(c, s, Add(n)))
      && (s.spawner.Added? ==> Enabled(c, s, Go))
      && (s.collector.Collecting? && s.queue != [] ==> Enabled(c, s, Receive))
      && (s.collector.Collecting? ==> Enabled(c, s, Timeout))
  {
    RunKeepsInv(c, run);
    var s := Reached(c, run).value;
    assert TestFlow(c, s, n);
    if s.workers[n].Sending? {
      SenderHasRoom(c, s, n);
    }
  }

  /** Once the collector has returned, nothing more is collected, and the timer changes no result. */
  lemma ReturnedIsFinal(c: Config, s: State, step: Step)
    requires Enabled(c, s, step)
    ensures s.collector.Returned? ==>
        Apply(c, s, step).collector == s.collector && Apply(c, s, step).results == s.results
    ensures step.Timeout? ==> s.collector.Collecting? && Apply(c, s, step) == s.(collector := Returned(true))
  {
  }
}
