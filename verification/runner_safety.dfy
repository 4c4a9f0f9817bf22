/**
 * What every interleaving of a sampled run keeps: results arrive complete and in
 * order, sends never block and never meet a closed channel, and the wait group
 * counts exactly the workers that are still to finish.
 */
module RunnerSafety {
  import opened Options
  import opened Samples
  import opened Runner
  import opened Seqs
  import opened Sums

  ghost predicate WorkerOk(c: Config, n: string, w: WorkerState)
    requires n in c.cases
  {
    match w
    case AtSample(i) => i <= c.sampleCount
    case Sending(i, r) => i < c.sampleCount && Outcome(c, n, i) == [r]
    case AtTeardown(i) => i < c.sampleCount
    case _ => true
  }

  /** Nothing is lost, duplicated or reordered between a worker and its list of results. */
  ghost predicate TestFlow(c: Config, s: State, n: string)
    requires n in c.cases && n in s.workers
  {
    && WorkerOk(c, n, s.workers[n])
    && Of(s.results, n) + Named(s.queue, n) == Produced(c, n, s.workers[n])
  }

  ghost predicate Flow(c: Config, s: State) {
    && s.workers.Keys == c.cases.Keys
    && (forall n :: n in c.cases ==> TestFlow(c, s, n))
    && (forall n :: n in s.results ==> n in c.cases && s.results[n] != [])
    && (forall r :: r in s.queue ==> r.name in c.cases)
  }

  ghost function Live(workers: map<string, WorkerState>): set<string> {
    set n | n in workers && Working(workers[n])
  }

  /** The wait group counts the running workers and the one being launched. */
  ghost predicate Counted(s: State) {
    s.waitGroup == |Live(s.workers)| + if s.spawner.Added? then 1 else 0
  }

  /** How far the spawner is determines which workers exist and whether the channel is closed. */
  ghost predicate Launched(s: State) {
    && (s.closed <==> s.spawner.Finished?)
    && match s.spawner
       case Launching(todo) => forall n :: n in s.workers && s.workers[n].Unspawned? <==> n in todo
       case Added(name, todo) =>
         name !in todo && forall n :: n in s.workers && s.workers[n].Unspawned? <==> n in todo || n == name
       case _ => forall n :: n in s.workers ==> s.workers[n].Exited?
  }

  ghost predicate Inv(c: Config, s: State) {
    && !s.panicked
    && Flow(c, s)
    && Counted(s)
    && Launched(s)
    && (s.collector == Returned(false) ==> s.closed && s.queue == [])
  }

  lemma InitInv(c: Config)
    ensures Inv(c, Init(c))
  {
    assert Live(Init(c).workers) == {};
  }

  // ---------------------------------------------------------------- spawner and wait group

  lemma LiveAfter(workers: map<string, WorkerState>, n: string, w: WorkerState)
    requires n in workers
    ensures Live(workers[n := w]) == if Working(w) then Live(workers) + {n} else Live(workers) - {n}
  {
  }

  /** The worker a step moves, and the state it moves to. */
  ghost function Move(c: Config, s: State, step: Step): Option<(string, WorkerState)>
    requires Enabled(c, s, step)
  {
    match step
    case Go => Some((s.spawner.name, AtSample(0)))
    case Sample(n) => Some((n, AfterCallbacks(c, n, s.workers[n].i)))
    case Send(n) => Some((n, AfterSend(c, n, s.workers[n].i)))
    case Teardown(n) => Some((n, AtSample(s.workers[n].i + 1)))
    case Done(n) => Some((n, Exited))
    case _ => None
  }

  lemma StepMovesOne(c: Config, s: State, step: Step)
    requires Enabled(c, s, step) && !Apply(c, s, step).panicked
    ensures match Move(c, s, step)
      case None => Apply(c, s, step).workers == s.workers
      case Some((n, w)) => Apply(c, s, step).workers == s.workers[n := w]
  {
  }

  lemma StepKeepsCounted(c: Config, s: State, step: Step)
    requires Counted(s) && Launched(s) && s.workers.Keys == c.cases.Keys && Enabled(c, s, step)
    requires !Apply(c, s, step).panicked
    ensures Counted(Apply(c, s, step))
  {
    StepMovesOne(c, s, step);
    match Move(c, s, step)
    case None =>
    case Some((n, w)) =>
      LiveAfter(s.workers, n, w);
      if step.Go? {
        assert s.workers[n].Unspawned? && n !in Live(s.workers);
      } else {
        assert n in Live(s.workers);
      }
  }

  lemma StepKeepsLaunched(c: Config, s: State, step: Step)
    requires Counted(s) && Launched(s) && Enabled(c, s, step)
    ensures !Apply(c, s, step).panicked ==> Launched(Apply(c, s, step))
  {
    if step.Waited? {
      assert Live(s.workers) == {};
      forall n | n in s.workers ensures s.workers[n].Exited? {
        assert n !in Live(s.workers);
      }
    }
  }

  // ---------------------------------------------------------------- results

  /** A worker that moves on without sending. */
  lemma QuietMoveKeepsFlow(c: Config, s: State, n: string, w: WorkerState)
    requires Flow(c, s) && n in c.cases && WorkerOk(c, n, w)
    requires Produced(c, n, w) == Produced(c, n, s.workers[n])
    ensures Flow(c, s.(workers := s.workers[n := w]))
  {
    hide Named, Of, Produced;
    var t := s.(workers := s.workers[n := w]);
    forall m | m in c.cases ensures TestFlow(c, t, m) {
      assert TestFlow(c, s, m);
    }
  }

  lemma SendKeepsTestFlow(c: Config, s: State, n: string, m: string)
    requires Enabled(c, s, Send(n)) && !s.closed
    requires n in c.cases && n in s.workers && m in c.cases && m in s.workers
    requires TestFlow(c, s, n) && TestFlow(c, s, m)
    ensures TestFlow(c, Apply(c, s, Send(n)), m)
  {
    hide Named;
    var r := s.workers[n].r;
    NamedSnoc(s.queue, r, m);
    if m == n {
      var i := s.workers[n].i;
      assert Produced(c, n, AfterSend(c, n, i)) == Emitted(c, n, i) + [r];
      ConcatAssociates(Of(s.results, n), Named(s.queue, n), [r]);
    }
  }

  lemma SendKeepsFlow(c: Config, s: State, n: string)
    requires Flow(c, s) && Enabled(c, s, Send(n)) && !s.closed
    ensures Flow(c, Apply(c, s, Send(n)))
  {
    hide Named, Of, Produced, Emitted;
    var t := Apply(c, s, Send(n));
    var r := s.workers[n].r;
    assert TestFlow(c, s, n);
    assert r.name == n;
    assert t.queue == s.queue + [r] && t.results == s.results;
    forall x | x in t.queue ensures x.name in c.cases {
      assert x in s.queue || x == r;
    }
    forall m | m in c.cases ensures TestFlow(c, t, m) {
      assert TestFlow(c, s, m);
      SendKeepsTestFlow(c, s, n, m);
    }
  }

  lemma ReceiveKeepsTestFlow(c: Config, s: State, m: string)
    requires Enabled(c, s, Receive) && m in c.cases && m in s.workers && TestFlow(c, s, m)
    ensures TestFlow(c, Apply(c, s, Receive), m)
  {
    var r := s.queue[0];
    var own := Own(r, m);
    assert Named(s.queue, m) == own + Named(s.queue[1..], m);
    assert Of(Collected(s.results, r), m) == Of(s.results, m) + own;
    ConcatAssociates(Of(s.results, m), own, Named(s.queue[1..], m));
  }

  lemma ReceiveKeepsFlow(c: Config, s: State)
    requires Flow(c, s) && Enabled(c, s, Receive)
    ensures Flow(c, Apply(c, s, Receive))
  {
    hide Named, Of, Produced, Emitted;
    var t := Apply(c, s, Receive);
    assert s.queue[0] in s.queue;
    assert forall r :: r in t.queue ==> r in s.queue;
    forall m | m in c.cases ensures TestFlow(c, t, m) {
      assert TestFlow(c, s, m);
      ReceiveKeepsTestFlow(c, s, m);
    }
  }

  lemma CallbacksOk(c: Config, n: string, i: nat)
    requires n in c.cases && i < c.sampleCount
    ensures WorkerOk(c, n, AfterCallbacks(c, n, i))
    ensures Produced(c, n, AfterCallbacks(c, n, i)) == Emitted(c, n, i)
  {
    hide Outcome;
    var sent := Outcome(c, n, i);
    if sent == [] {
      assert Emitted(c, n, i + 1) == Emitted(c, n, i) + sent;
    } else {
      assert sent == [sent[0]];
    }
  }

  lemma SampleKeepsFlow(c: Config, s: State, n: string)
    requires Flow(c, s) && Enabled(c, s, Sample(n))
    ensures Flow(c, Apply(c, s, Sample(n)))
  {
    hide Emitted, Named, Of, Outcome;
    assert TestFlow(c, s, n);
    CallbacksOk(c, n, s.workers[n].i);
    QuietMoveKeepsFlow(c, s, n, AfterCallbacks(c, n, s.workers[n].i));
  }

  lemma TeardownOk(c: Config, n: string, i: nat)
    requires n in c.cases && i < c.sampleCount
    ensures WorkerOk(c, n, AtSample(i + 1)) && Produced(c, n, AtSample(i + 1)) == Produced(c, n, AtTeardown(i))
  {
  }

  lemma TeardownKeepsFlow(c: Config, s: State, n: string)
    requires Flow(c, s) && Enabled(c, s, Teardown(n))
    ensures Flow(c, Apply(c, s, Teardown(n)))
  {
    hide Produced, Emitted, Named, Of;
    assert TestFlow(c, s, n);
    TeardownOk(c, n, s.workers[n].i);
    QuietMoveKeepsFlow(c, s, n, AtSample(s.workers[n].i + 1));
  }

  lemma ExitKeepsFlow(c: Config, s: State, n: string)
    requires Flow(c, s) && Enabled(c, s, Done(n))
    ensures Flow(c, s.(workers := s.workers[n := Exited]))
  {
    hide Emitted, Named, Of;
    assert TestFlow(c, s, n);
    QuietMoveKeepsFlow(c, s, n, Exited);
  }

  lemma SameResults(c: Config, s: State, t: State)
    requires Flow(c, s) && t.workers == s.workers && t.queue == s.queue && t.results == s.results
    ensures Flow(c, t)
  {
    hide Produced, Named, Of, WorkerOk;
    forall m | m in c.cases ensures TestFlow(c, t, m) {
      assert TestFlow(c, s, m);
    }
  }

  lemma DoneKeepsFlow(c: Config, s: State, n: string)
    requires Flow(c, s) && Enabled(c, s, Done(n)) && s.waitGroup > 0
    ensures Flow(c, Apply(c, s, Done(n)))
  {
    hide Flow;
    ExitKeepsFlow(c, s, n);
    SameResults(c, s.(workers := s.workers[n := Exited]), Apply(c, s, Done(n)));
  }

  lemma GoKeepsFlow(c: Config, s: State)
    requires Flow(c, s) && Launched(s) && Enabled(c, s, Go)
    ensures Flow(c, Apply(c, s, Go))
  {
    hide Named, Of;
    var n := s.spawner.name;
    assert n in s.workers;
    QuietMoveKeepsFlow(c, s, n, AtSample(0));
    SameResults(c, s.(workers := s.workers[n := AtSample(0)]), Apply(c, s, Go));
  }

  lemma StepKeepsFlow(c: Config, s: State, step: Step)
    requires Flow(c, s) && Launched(s) && Enabled(c, s, step) && !Apply(c, s, step).panicked
    ensures Flow(c, Apply(c, s, step))
  {
    hide Flow, Produced, Emitted, Named, Of, AfterCallbacks, AfterSend;
    match step
    case Go => GoKeepsFlow(c, s);
    case Sample(n) => SampleKeepsFlow(c, s, n);
    case Send(n) => SendKeepsFlow(c, s, n);
    case Teardown(n) => TeardownKeepsFlow(c, s, n);
    case Done(n) => DoneKeepsFlow(c, s, n);
    case Receive => ReceiveKeepsFlow(c, s);
    case _ => SameResults(c, s, Apply(c, s, step));
  }

  lemma StepDoesNotPanic(c: Config, s: State, step: Step)
    requires Inv(c, s) && Enabled(c, s, step)
    ensures !Apply(c, s, step).panicked
  {
    if step.Done? {
      assert step.name in Live(s.workers);
    }
  }

  lemma StepKeepsInv(c: Config, s: State, step: Step)
    requires Inv(c, s) && Enabled(c, s, step)
    ensures Inv(c, Apply(c, s, step))
  {
    hide Counted, Launched, TestFlow;
    StepDoesNotPanic(c, s, step);
    StepKeepsCounted(c, s, step);
    StepKeepsLaunched(c, s, step);
    StepKeepsFlow(c, s, step);
  }

  lemma {:induction false} RunKeepsInv(c: Config, run: seq<Step>)
    requires Reached(c, run).Some?
    ensures Inv(c, Reached(c, run).value)
  {
    hide Inv;
    if run == [] {
      InitInv(c);
    } else {
      var before := run[..|run| - 1];
      RunKeepsInv(c, before);
      StepKeepsInv(c, Reached(c, before).value, run[|run| - 1]);
    }
  }

  // ---------------------------------------------------------------- the channel never blocks

  ghost function Queued(c: Config, queue: seq<Result>): map<string, nat> {
    map n | n in c.cases :: |Named(queue, n)|
  }

  lemma NothingQueued(c: Config)
    ensures Sum(Queued(c, [])) == 0
  {
    SumOfZeros(Queued(c, []));
  }

  lemma QueuedFirst(c: Config, queue: seq<Result>)
    requires queue != [] && queue[0].name in c.cases
    ensures var n, rest := queue[0].name, Queued(c, queue[1..]);
      Queued(c, queue) == rest[n := rest[n] + 1]
  {
    hide Named;
    forall n | n in c.cases ensures |Named(queue, n)| == |Own(queue[0], n)| + |Named(queue[1..], n)| {
      NamedFirst(queue, n);
    }
  }

  lemma {:induction false} QueueIsSum(c: Config, queue: seq<Result>)
    requires forall r :: r in queue ==> r.name in c.cases
    ensures |queue| == Sum(Queued(c, queue))
  {
    hide Named, Sum;
    if queue == [] {
      NothingQueued(c);
    } else {
      var n, rest := queue[0].name, Queued(c, queue[1..]);
      assert queue[0] in queue;
      QueueIsSum(c, queue[1..]);
      QueuedFirst(c, queue);
      SumUpdate(rest, n, rest[n] + 1);
    }
  }

  lemma {:induction false} EmittedGrows(c: Config, n: string, i: nat, k: nat)
    requires n in c.cases && i <= k
    ensures Emitted(c, n, i) <= Emitted(c, n, k)
    ensures |Emitted(c, n, k)| <= |Emitted(c, n, i)| + (k - i)
  {
    if i < k {
      EmittedGrows(c, n, i, k - 1);
    }
  }

  lemma ProducedBounds(c: Config, n: string, w: WorkerState)
    requires n in c.cases && WorkerOk(c, n, w)
    ensures Produced(c, n, w) <= Emitted(c, n, c.sampleCount)
    ensures |Produced(c, n, w)| <= if w.Sending? then c.sampleCount - 1 else c.sampleCount
  {
    var k := match w case AtSample(i) => i case Sending(i, _) => i case AtTeardown(i) => i + 1
      case Unspawned => 0 case Exited => c.sampleCount;
    EmittedGrows(c, n, 0, k);
    EmittedGrows(c, n, k, c.sampleCount);
  }

  /** A test's results in the queue, with room for the one its worker is about to send. */
  lemma QueuedBound(c: Config, s: State, n: string)
    requires Flow(c, s) && n in c.cases
    ensures |Named(s.queue, n)| + (if s.workers[n].Sending? then 1 else 0) <= c.sampleCount
  {
    hide Named, Of, Produced, Emitted;
    assert TestFlow(c, s, n);
    ProducedBounds(c, n, s.workers[n]);
    assert |Of(s.results, n) + Named(s.queue, n)| == |Produced(c, n, s.workers[n])|;
  }

  lemma QueuedKeys(c: Config, queue: seq<Result>)
    ensures |Queued(c, queue)| == |c.cases|
  {
    assert Queued(c, queue).Keys == c.cases.Keys;
    assert |Queued(c, queue)| == |Queued(c, queue).Keys| && |c.cases| == |c.cases.Keys|;
  }

  /** Whoever is about to send finds the channel open and with room. */
  lemma SenderHasRoom(c: Config, s: State, n: string)
    requires Inv(c, s) && n in c.cases && s.workers[n].Sending?
    ensures !s.closed && |s.queue| < Capacity(c)
  {
    hide Named, TestFlow, Counted;
    QueueIsSum(c, s.queue);
    var q := Queued(c, s.queue);
    forall m | m in q ensures q[m] <= c.sampleCount && (m == n ==> q[m] < c.sampleCount) {
      QueuedBound(c, s, m);
    }
    SumBelow(q, c.sampleCount, n);
    QueuedKeys(c, s.queue);
  }

  // ---------------------------------------------------------------- main theorems

  lemma QueueFits(c: Config, s: State)
    requires Inv(c, s)
    ensures |s.queue| <= Capacity(c)
  {
    hide Named, TestFlow, Counted, Launched;
    QueueIsSum(c, s.queue);
    var q := Queued(c, s.queue);
    forall m | m in q ensures q[m] <= c.sampleCount {
      QueuedBound(c, s, m);
    }
    SumAtMost(q, c.sampleCount);
    CopiesIsProduct(|q|, c.sampleCount);
    QueuedKeys(c, s.queue);
  }

  /** No panic is reachable and no worker ever waits for room, also after a timeout. */
  lemma NeverBlocksNeverPanics(c: Config, run: seq<Step>)
    requires Reached(c, run).Some?
    ensures var s := Reached(c, run).value;
      && !s.panicked
      && (forall n :: !Blocked(c, s, n))
      && (forall n :: n in s.workers && s.workers[n].Sending? ==> !s.closed)
      && |s.queue| <= |c.cases| * c.sampleCount
      && (s.closed ==> s.waitGroup == 0 && forall n :: n in s.workers ==> s.workers[n].Exited?)
      && s.waitGroup == |Live(s.workers)| + if s.spawner.Added? then 1 else 0
  {
    RunKeepsInv(c, run);
    var s := Reached(c, run).value;
    forall n | n in s.workers && s.workers[n].Sending? ensures !Blocked(c, s, n) && !s.closed {
      SenderHasRoom(c, s, n);
    }
    if s.closed {
      assert Live(s.workers) == {};
    }
    QueueFits(c, s);
  }

  /** How many results have been sent so far, received or not. */
  ghost function TotalSent(c: Config, s: State): nat
    requires s.workers.Keys == c.cases.Keys
  {
    Sum(map n | n in c.cases :: |Produced(c, n, s.workers[n])|)
  }

  /** The workers together never send more than the channel has room for, so nobody needs the collector. */
  lemma SendsWithinCapacity(c: Config, run: seq<Step>)
    requires Reached(c, run).Some?
    ensures Reached(c, run).value.workers.Keys == c.cases.Keys
    ensures TotalSent(c, Reached(c, run).value) <= |c.cases| * c.sampleCount == Capacity(c)
  {
    RunKeepsInv(c, run);
    var s := Reached(c, run).value;
    var sent: map<string, nat> := map n | n in c.cases :: |Produced(c, n, s.workers[n])|;
    forall n | n in sent ensures sent[n] <= c.sampleCount {
      assert TestFlow(c, s, n);
      ProducedBounds(c, n, s.workers[n]);
    }
    SumAtMost(sent, c.sampleCount);
    CopiesIsProduct(|sent|, c.sampleCount);
    assert sent.Keys == c.cases.Keys;
    assert |sent| == |sent.Keys| && |c.cases| == |c.cases.Keys|;
  }

  /** What a run without a timeout returns: every test's results in sample order; tests without any are absent. */
  ghost function Complete(c: Config): map<string, seq<Result>> {
    map n | n in c.cases && Emitted(c, n, c.sampleCount) != [] :: Emitted(c, n, c.sampleCount)
  }

  /** At every moment, and so also after a timeout, each list is a prefix of what its own worker sent. */
  lemma ResultsArePrefixes(c: Config, run: seq<Step>)
    requires Reached(c, run).Some?
    ensures var s := Reached(c, run).value;
      && s.workers.Keys == c.cases.Keys
      && s.results.Keys <= c.cases.Keys
      && (forall n :: n in s.results ==> s.results[n] != [])
      && (forall n :: n in c.cases ==>
           Of(s.results, n) <= Produced(c, n, s.workers[n]) <= Emitted(c, n, c.sampleCount))
  {
    RunKeepsInv(c, run);
    var s := Reached(c, run).value;
    forall n | n in c.cases ensures Of(s.results, n) <= Produced(c, n, s.workers[n]) <= Emitted(c, n, c.sampleCount) {
      assert TestFlow(c, s, n);
      ProducedBounds(c, n, s.workers[n]);
    }
  }

  lemma DrainedTest(c: Config, s: State, n: string)
    requires Flow(c, s) && n in c.cases && s.workers[n].Exited? && s.queue == []
    ensures Of(s.results, n) == Emitted(c, n, c.sampleCount)
  {
    hide Emitted, Of;
    assert TestFlow(c, s, n);
  }

  lemma DrainedIsComplete(c: Config, s: State)
    requires Inv(c, s) && s.closed && s.queue == []
    ensures s.results == Complete(c)
  {
    hide Emitted, TestFlow, Counted;
    forall n | n in c.cases ensures Of(s.results, n) == Emitted(c, n, c.sampleCount) {
      DrainedTest(c, s, n);
    }
    assert s.results.Keys == Complete(c).Keys;
  }

  /** Returning because the channel closed means returning everything. */
  lemma ReturnedMeansComplete(c: Config, run: seq<Step>)
    requires Reached(c, run).Some? && Reached(c, run).value.collector == Returned(false)
    ensures Reached(c, run).value.results == Complete(c)
  {
    RunKeepsInv(c, run);
    DrainedIsComplete(c, Reached(c, run).value);
  }

  /** The samples before `k` whose setup fails. */
  function SetupFailures(c: Config, n: string, k: nat): set<nat>
    requires n in c.cases
  {
    set i: nat | i < k && c.cases[n].hasSetup && c.oracle(n, i).setup.Some?
  }

  lemma SetupFailuresStep(c: Config, n: string, k: nat)
    requires n in c.cases
    ensures |SetupFailures(c, n, k + 1)| ==
      |SetupFailures(c, n, k)| + if c.cases[n].hasSetup && c.oracle(n, k).setup.Some? then 1 else 0
  {
    var before := SetupFailures(c, n, k);
    assert SetupFailures(c, n, k + 1) ==
      if c.cases[n].hasSetup && c.oracle(n, k).setup.Some? then before + {k} else before;
  }

  /** A test's full list has one entry per sample whose setup did not fail. */
  lemma {:induction false} EmittedCount(c: Config, n: string, k: nat)
    requires n in c.cases
    ensures |Emitted(c, n, k)| == k - |SetupFailures(c, n, k)|
  {
    if k == 0 {
      assert SetupFailures(c, n, k) == {};
    } else {
      hide SetupFailures;
      EmittedCount(c, n, k - 1);
      SetupFailuresStep(c, n, k - 1);
    }
  }

  /** The step system's view of a test's sends is the sequential worker's. */
  lemma {:induction false} EmittedIsWorkers(c: Config, n: string, k: nat)
    requires n in c.cases
    ensures Emitted(c, n, k) == Sends(WorkerEvents(n, c.cases[n], c.oracle, k))
  {
    if k > 0 {
      EmittedIsWorkers(c, n, k - 1);
      SampleSendsOnce(WorkerEvents(n, c.cases[n], c.oracle, k - 1), n, c.cases[n], c.oracle(n, k - 1));
    }
  }
}
