/**
 * Sampled runs always finish: until everything has stopped some step is possible,
 * every step uses up a measure, and a run that cannot continue has returned all
 * results, or has timed out and left no goroutine behind.
 */
module RunnerLiveness {
  import opened Options
  import opened Runner
  import opened RunnerSafety
  import opened Sums

  /** Everything has stopped: the channel is closed, the workers are gone, the collector has returned. */
  predicate Stopped(s: State) {
    s.spawner.Finished? && s.collector.Returned?
  }

  ghost predicate Stuck(c: Config, s: State) {
    forall step :: !Enabled(c, s, step)
  }

  // ---------------------------------------------------------------- deadlock freedom

  /** A live worker can always take its next step. */
  lemma LiveWorkerCanStep(c: Config, s: State, n: string) returns (step: Step)
    requires Inv(c, s) && n in Live(s.workers)
    ensures Enabled(c, s, step) && !step.Timeout?
  {
    assert TestFlow(c, s, n);
    match s.workers[n]
    case AtSample(i) => step := if i < c.sampleCount then Sample(n) else Done(n);
    case Sending(_, _) =>
      SenderHasRoom(c, s, n);
      step := Send(n);
    case AtTeardown(_) => step := Teardown(n);
  }

  /** No deadlock: short of the end, a step other than the timer's is possible. */
  lemma DeadlockFree(c: Config, s: State) returns (step: Step)
    requires Inv(c, s) && !Stopped(s)
    ensures Enabled(c, s, step) && !step.Timeout?
  {
    match s.spawner
    case Launching(todo) =>
      if todo != {} {
        var n :| n in todo;
        step := Add(n);
      } else if s.waitGroup == 0 {
        step := Waited;
      } else {
        assert Live(s.workers) != {};
        var n :| n in Live(s.workers);
        step := LiveWorkerCanStep(c, s, n);
      }
    case Added(_, _) => step := Go;
    case Closing => step := Close;
    case Finished => step := if s.queue != [] then Receive else ReturnAll;
  }

  // ---------------------------------------------------------------- termination measure

  /** Four units per sample left, so that callbacks, send and teardown can each use one up. */
  function Weight(c: Config, w: WorkerState): nat {
    match w
    case Unspawned => 4 * c.sampleCount + 2
    case AtSample(i) => if i <= c.sampleCount then 4 * (c.sampleCount - i) + 1 else 0
    case Sending(i, _) => if i < c.sampleCount then 4 * (c.sampleCount - i) else 0
    case AtTeardown(i) => if i < c.sampleCount then 4 * (c.sampleCount - i) - 2 else 0
    case Exited => 0
  }

  function SpawnerWeight(spawner: Spawner): nat {
    match spawner
    case Launching(todo) => 2 * |todo| + 2
    case Added(_, todo) => 2 * |todo| + 3
    case Closing => 1
    case Finished => 0
  }

  ghost function Weights(c: Config, workers: map<string, WorkerState>): map<string, nat> {
    map n | n in workers :: Weight(c, workers[n])
  }

  ghost function Measure(c: Config, s: State): nat {
    Sum(Weights(c, s.workers)) + |s.queue| + SpawnerWeight(s.spawner) + if s.collector.Collecting? then 1 else 0
  }

  lemma WeightsAfter(c: Config, workers: map<string, WorkerState>, n: string, w: WorkerState)
    requires n in workers
    ensures Sum(Weights(c, workers[n := w])) == Sum(Weights(c, workers)) - Weight(c, workers[n]) + Weight(c, w)
  {
    assert Weights(c, workers[n := w]) == Weights(c, workers)[n := Weight(c, w)];
    SumUpdate(Weights(c, workers), n, Weight(c, w));
  }

  lemma MoveLosesWeight(c: Config, s: State, step: Step)
    requires Enabled(c, s, step) && Move(c, s, step).Some?
    requires var (n, _) := Move(c, s, step).value;
      n in s.workers && n in c.cases && WorkerOk(c, n, s.workers[n])
    requires step.Go? ==> s.workers[s.spawner.name].Unspawned?
    ensures var (n, w) := Move(c, s, step).value;
      Weight(c, w) + (if step.Send? then 2 else 1) <= Weight(c, s.workers[n])
  {
  }

  lemma MovedIsOk(c: Config, s: State, step: Step)
    requires Inv(c, s) && Enabled(c, s, step) && Move(c, s, step).Some?
    ensures var (n, _) := Move(c, s, step).value; n in s.workers && n in c.cases && WorkerOk(c, n, s.workers[n])
  {
    var (n, _) := Move(c, s, step).value;
    assert n in s.workers;
    assert TestFlow(c, s, n);
  }

  /** Moving a worker pays for what else the step does, which is at most one result more in the queue. */
  lemma MoveLosesMeasure(c: Config, s: State, step: Step)
    requires Inv(c, s) && Enabled(c, s, step) && Move(c, s, step).Some?
    ensures Measure(c, Apply(c, s, step)) < Measure(c, s)
  {
    hide Weight, Weights, Flow, Counted;
    var (n, w) := Move(c, s, step).value;
    StepDoesNotPanic(c, s, step);
    StepMovesOne(c, s, step);
    MovedIsOk(c, s, step);
    MoveLosesWeight(c, s, step);
    WeightsAfter(c, s.workers, n, w);
  }

  /** Every step, the timeout included, uses up the measure. */
  lemma StepLosesMeasure(c: Config, s: State, step: Step)
    requires Inv(c, s) && Enabled(c, s, step)
    ensures Measure(c, Apply(c, s, step)) < Measure(c, s)
  {
    hide Weight, Weights, Flow, Counted;
    if Move(c, s, step).Some? {
      MoveLosesMeasure(c, s, step);
    } else {
      StepDoesNotPanic(c, s, step);
    }
  }

  /** No run is longer than the measure of the initial state, whatever the scheduler and the timer do. */
  lemma {:induction false} RunsAreFinite(c: Config, run: seq<Step>)
    requires Reached(c, run).Some?
    ensures |run| + Measure(c, Reached(c, run).value) <= Measure(c, Init(c))
  {
    hide Measure, Inv, Enabled, Apply;
    if run != [] {
      var before := run[..|run| - 1];
      RunsAreFinite(c, before);
      RunKeepsInv(c, before);
      StepLosesMeasure(c, Reached(c, before).value, run[|run| - 1]);
    }
  }

  // ---------------------------------------------------------------- main theorems

  lemma CollectorAfter(c: Config, s: State, step: Step)
    requires Enabled(c, s, step)
    ensures Apply(c, s, step).collector ==
      if step.Timeout? then Returned(true) else if step.ReturnAll? then Returned(false) else s.collector
    ensures step.Timeout? || step.ReturnAll? ==> s.collector.Collecting?
  {
  }

  lemma {:induction false} TimedOutMeansTimeout(c: Config, run: seq<Step>)
    requires Reached(c, run).Some?
    ensures Reached(c, run).value.collector == Returned(true) <==> Timeout in run
  {
    if run != [] {
      var before, step := run[..|run| - 1], run[|run| - 1];
      TimedOutMeansTimeout(c, before);
      CollectorAfter(c, Reached(c, before).value, step);
      assert run == before + [step];
      assert Timeout in run <==> Timeout in before || step.Timeout?;
    }
  }

  /**
   * A run that cannot be continued has stopped everything: the channel is closed and
   * every worker has exited.  Without a timeout it returned the complete results.
   */
  lemma MaximalRunsComplete(c: Config, run: seq<Step>)
    requires Reached(c, run).Some? && Stuck(c, Reached(c, run).value)
    ensures var s := Reached(c, run).value;
      && s.closed && s.waitGroup == 0
      && (forall n :: n in c.cases ==> n in s.workers && s.workers[n].Exited?)
      && s.collector == Returned(Timeout in run)
      && (Timeout !in run ==> s.results == Complete(c))
  {
    RunKeepsInv(c, run);
    var s := Reached(c, run).value;
    if !Stopped(s) {
      var step := DeadlockFree(c, s);
      assert false;
    }
    NeverBlocksNeverPanics(c, run);
    TimedOutMeansTimeout(c, run);
    if Timeout !in run {
      ReturnedMeansComplete(c, run);
    }
  }

  lemma StoppedIsStuck(c: Config, s: State)
    requires Inv(c, s) && Stopped(s)
    ensures Stuck(c, s)
  {
    hide Flow, Counted;
    assert forall n :: n in s.workers ==> s.workers[n].Exited?;
  }

  lemma ReachedNext(c: Config, run: seq<Step>, step: Step)
    requires Reached(c, run).Some? && Enabled(c, Reached(c, run).value, step)
    ensures Reached(c, run + [step]) == Some(Apply(c, Reached(c, run).value, step))
  {
    assert (run + [step])[..|run + [step]| - 1] == run;
  }

  /** From every reachable state the run can be driven to the complete results, unless the timer already fired. */
  lemma {:induction false} CanComplete(c: Config, run: seq<Step>) returns (more: seq<Step>)
    requires Reached(c, run).Some?
    ensures run <= more && Reached(c, more).Some? && Stuck(c, Reached(c, more).value)
    ensures Timeout in more <==> Timeout in run
    decreases Measure(c, Reached(c, run).value)
  {
    hide Reached, Measure, Inv, Stuck, Enabled, Apply, Stopped;
    RunKeepsInv(c, run);
    var s := Reached(c, run).value;
    if Stopped(s) {
      StoppedIsStuck(c, s);
      more := run;
    } else {
      var step := DeadlockFree(c, s);
      ReachedNext(c, run, step);
      StepLosesMeasure(c, s, step);
      more := CanComplete(c, run + [step]);
      assert Timeout in run + [step] <==> Timeout in run;
    }
  }
}
