/**
 * A continuous run: one goroutine per test case, one sample each, sending on a
 * channel the caller owns.  `sent` is the order in which the sends complete.
 */
module Continuous {
  import opened Options
  import opened Samples
  import Runner
  import RunnerSafety
  import opened Sums

  datatype Suite = Suite(cases: map<string, TestCase>, oracle: Oracle)

  datatype GoState = Waiting | Ready | Sending(r: Result) | TearingDown | Over

  datatype State = State(goroutines: map<string, GoState>, sent: seq<Result>)

  datatype Step = Go(name: string) | Callbacks(name: string) | Send(name: string) | Teardown(name: string)

  function Init(c: Suite): State {
    State(map n | n in c.cases :: Waiting, [])
  }

  predicate Enabled(c: Suite, s: State, step: Step) {
    step.name in s.goroutines && step.name in c.cases &&
    var g := s.goroutines[step.name];
    match step
    case Go(_) => g.Waiting?
    case Callbacks(_) => g.Ready?
    case Send(_) => g.Sending?
    case Teardown(_) => g.TearingDown?
  }

  function Outcome(c: Suite, n: string): (sent: seq<Result>)
    requires n in c.cases
    ensures |sent| <= 1 && (sent != [] ==> sent[0].name == n)
  {
    Emit(n, c.cases[n], c.oracle(n, 0))
  }

  function Apply(c: Suite, s: State, step: Step): State
    requires Enabled(c, s, step)
  {
    var n := step.name;
    match step
    case Go(_) => s.(goroutines := s.goroutines[n := Ready])
    case Callbacks(_) =>
      var out := Outcome(c, n);
      s.(goroutines := s.goroutines[n := if out == [] then Over else Sending(out[0])])
    case Send(_) =>
      var after := if c.oracle(n, 0).reply.RequestError? then Over else TearingDown;
      State(s.goroutines[n := after], s.sent + [s.goroutines[n].r])
    case Teardown(_) => s.(goroutines := s.goroutines[n := Over])
  }

  ghost function Reached(c: Suite, run: seq<Step>): Option<State> {
    if run == [] then Some(Init(c))
    else
      match Reached(c, run[..|run| - 1])
      case None => None
      case Some(s) =>
        var step := run[|run| - 1];
        if Enabled(c, s, step) then Some(Apply(c, s, step)) else None
  }

  ghost predicate Quiet(c: Suite, s: State) {
    forall step :: !Enabled(c, s, step)
  }

  /** What the goroutine of test `n` has sent in this state. */
  function Produced(c: Suite, n: string, g: GoState): seq<Result>
    requires n in c.cases
  {
    if g.TearingDown? || g.Over? then Outcome(c, n) else []
  }

  ghost predicate TestOk(c: Suite, s: State, n: string)
    requires n in c.cases && n in s.goroutines
  {
    && Runner.Named(s.sent, n) == Produced(c, n, s.goroutines[n])
    && (s.goroutines[n].Sending? ==> Outcome(c, n) == [s.goroutines[n].r])
  }

  ghost predicate Inv(c: Suite, s: State) {
    && s.goroutines.Keys == c.cases.Keys
    && (forall n :: n in c.cases ==> TestOk(c, s, n))
    && (forall r :: r in s.sent ==> r.name in c.cases)
  }

  lemma SendKeepsTestOk(c: Suite, s: State, n: string, m: string)
    requires Enabled(c, s, Send(n)) && m in c.cases && m in s.goroutines
    requires TestOk(c, s, m) && TestOk(c, s, n)
    ensures TestOk(c, Apply(c, s, Send(n)), m)
  {
    hide Outcome, Runner.Named;
    Runner.NamedSnoc(s.sent, s.goroutines[n].r, m);
    if m == n {
      assert [] + Runner.Own(s.goroutines[n].r, n) == [s.goroutines[n].r];
    }
  }

  lemma StepKeepsTestOk(c: Suite, s: State, step: Step, m: string)
    requires Enabled(c, s, step) && m in c.cases && m in s.goroutines
    requires TestOk(c, s, m) && TestOk(c, s, step.name)
    ensures TestOk(c, Apply(c, s, step), m)
  {
    hide Outcome, Runner.Named;
    if step.Send? {
      SendKeepsTestOk(c, s, step.name, m);
    }
  }

  lemma StepKeepsInv(c: Suite, s: State, step: Step)
    requires Inv(c, s) && Enabled(c, s, step)
    ensures Inv(c, Apply(c, s, step))
  {
    hide Outcome, Produced, Runner.Named;
    var t := Apply(c, s, step);
    assert TestOk(c, s, step.name);
    forall m | m in c.cases ensures TestOk(c, t, m) {
      assert TestOk(c, s, m);
      StepKeepsTestOk(c, s, step, m);
    }
    forall r | r in t.sent ensures r.name in c.cases {
      assert r in s.sent || (step.Send? && r == s.goroutines[step.name].r && r.name == step.name);
    }
  }

  lemma {:induction false} RunKeepsInv(c: Suite, run: seq<Step>)
    requires Reached(c, run).Some?
    ensures Inv(c, Reached(c, run).value)
  {
    if run != [] {
      var before := run[..|run| - 1];
      RunKeepsInv(c, before);
      StepKeepsInv(c, Reached(c, before).value, run[|run| - 1]);
    }
  }

  // ---------------------------------------------------------------- every run goes quiet

  function Weight(g: GoState): nat {
    match g
    case Waiting => 4
    case Ready => 3
    case Sending(_) => 2
    case TearingDown => 1
    case Over => 0
  }

  ghost function Weights(goroutines: map<string, GoState>): map<string, nat> {
    map n | n in goroutines :: Weight(goroutines[n])
  }

  ghost function Measure(s: State): nat { Sum(Weights(s.goroutines)) }

  lemma StepLosesMeasure(c: Suite, s: State, step: Step)
    requires Enabled(c, s, step)
    ensures Measure(Apply(c, s, step)) < Measure(s)
  {
    var n, after := step.name, Apply(c, s, step).goroutines;
    assert Weights(after) == Weights(s.goroutines)[n := Weight(after[n])];
    SumUpdate(Weights(s.goroutines), n, Weight(after[n]));
  }

  /** No run is longer than the measure of the initial state. */
  lemma {:induction false} RunsAreFinite(c: Suite, run: seq<Step>)
    requires Reached(c, run).Some?
    ensures |run| + Measure(Reached(c, run).value) <= Measure(Init(c))
  {
    if run != [] {
      var before := run[..|run| - 1];
      RunsAreFinite(c, before);
      StepLosesMeasure(c, Reached(c, before).value, run[|run| - 1]);
    }
  }

  /** Every run can be continued until no goroutine can move. */
  lemma {:induction false} CanGoQuiet(c: Suite, run: seq<Step>) returns (more: seq<Step>)
    requires Reached(c, run).Some?
    ensures run <= more && Reached(c, more).Some? && Quiet(c, Reached(c, more).value)
    decreases Measure(Reached(c, run).value)
  {
    var s := Reached(c, run).value;
    if step :| Enabled(c, s, step) {
      var next := run + [step];
      assert next[..|next| - 1] == run;
      StepLosesMeasure(c, s, step);
      more := CanGoQuiet(c, next);
    } else {
      more := run;
    }
  }

  /** When no goroutine can move, each test case has sent its one outcome. */
  lemma QuietRunsSentAll(c: Suite, run: seq<Step>)
    requires Reached(c, run).Some? && Quiet(c, Reached(c, run).value)
    ensures var sent := Reached(c, run).value.sent;
      && (forall n :: n in c.cases ==> Runner.Named(sent, n) == Outcome(c, n))
      && (forall r :: r in sent ==> r.name in c.cases)
  {
    RunKeepsInv(c, run);
    var s := Reached(c, run).value;
    forall n | n in c.cases ensures Runner.Named(s.sent, n) == Outcome(c, n) {
      assert TestOk(c, s, n);
      assert !Enabled(c, s, Go(n)) && !Enabled(c, s, Callbacks(n));
      assert !Enabled(c, s, Send(n)) && !Enabled(c, s, Teardown(n));
    }
  }

  // ---------------------------------------------------------------- what each goroutine has called and sent

  ghost function Performed(c: Suite, s: State, step: Step, n: string): seq<Event>
    requires n in c.cases && Enabled(c, s, step)
  {
    if step.name != n then []
    else
      match step
      case Go(_) => []
      case Callbacks(_) => BeforeSend(c.cases[n], c.oracle(n, 0))
      case Send(_) => [Sent(s.goroutines[n].r)]
      case Teardown(_) => if c.cases[n].hasTeardown then [CalledTeardown] else []
  }

  ghost function Trace(c: Suite, run: seq<Step>, n: string): seq<Event>
    requires n in c.cases && Reached(c, run).Some?
  {
    if run == [] then []
    else
      var before, step := run[..|run| - 1], run[|run| - 1];
      Trace(c, before, n) + Performed(c, Reached(c, before).value, step, n)
  }

  ghost predicate Follows(c: Suite, n: string, g: GoState, trace: seq<Event>)
    requires n in c.cases
  {
    var tc, a := c.cases[n], c.oracle(n, 0);
    match g
    case Waiting => trace == []
    case Ready => trace == []
    case Sending(_) => trace == BeforeSend(tc, a)
    case TearingDown => a.reply.Response? && Emit(n, tc, a) != [] && trace == BeforeSend(tc, a) + AtSend(n, tc, a)
    case Over => trace == SampleEvents(n, tc, a)
  }

  lemma StepFollows(c: Suite, s: State, step: Step, n: string, trace: seq<Event>)
    requires Inv(c, s) && Enabled(c, s, step) && n in c.cases && n in s.goroutines
    requires Follows(c, n, s.goroutines[n], trace)
    ensures n in Apply(c, s, step).goroutines
    ensures Follows(c, n, Apply(c, s, step).goroutines[n], trace + Performed(c, s, step, n))
  {
    hide BeforeSend, Emit, SampleEvents, Runner.Named;
    assert trace + [] == trace;
    assert TestOk(c, s, n);
    var tc, a := c.cases[n], c.oracle(n, 0);
    SampleInParts(n, tc, a);
    var head, sent := BeforeSend(tc, a), AtSend(n, tc, a);
    assert [] + head == head && head + [] + [] == head && head + sent + [] == head + sent;
  }

  lemma NothingFollows(c: Suite, n: string)
    requires n in c.cases
    ensures n in Init(c).goroutines && Follows(c, n, Init(c).goroutines[n], [])
  {
  }

  /** In every run, the calls and sends of each goroutine are those of its one sample up to where it stands. */
  lemma {:induction false} GoroutinesFollowTheirSample(c: Suite, run: seq<Step>, n: string)
    requires Reached(c, run).Some? && n in c.cases
    ensures n in Reached(c, run).value.goroutines
    ensures Follows(c, n, Reached(c, run).value.goroutines[n], Trace(c, run, n))
  {
    hide Follows, Inv, Enabled, Apply, Performed;
    if run == [] {
      NothingFollows(c, n);
    } else {
      var before := run[..|run| - 1];
      RunKeepsInv(c, before);
      GoroutinesFollowTheirSample(c, before, n);
      StepFollows(c, Reached(c, before).value, run[|run| - 1], n, Trace(c, before, n));
    }
  }

  /** So when no goroutine can move, each has called and sent exactly what one sample does, teardown included. */
  lemma QuietRunsDidAll(c: Suite, run: seq<Step>, n: string)
    requires Reached(c, run).Some? && Quiet(c, Reached(c, run).value) && n in c.cases
    ensures Trace(c, run, n) == SampleEvents(n, c.cases[n], c.oracle(n, 0))
  {
    GoroutinesFollowTheirSample(c, run, n);
    var s := Reached(c, run).value;
    assert !Enabled(c, s, Go(n)) && !Enabled(c, s, Callbacks(n));
    assert !Enabled(c, s, Send(n)) && !Enabled(c, s, Teardown(n));
  }

  // ---------------------------------------------------------------- the two runners agree

  /** How often a result occurs among the collected results of a sampled run. */
  function CollectedCount(results: map<string, seq<Result>>, r: Result): nat {
    multiset(Runner.Of(results, r.name))[r]
  }

  lemma CountFirst(rs: seq<Result>, r: Result)
    requires rs != []
    ensures multiset(rs)[r] == multiset(Runner.Own(rs[0], r.name))[r] + multiset(rs[1..])[r]
    ensures multiset(Runner.Named(rs, r.name))[r]
         == multiset(Runner.Own(rs[0], r.name))[r] + multiset(Runner.Named(rs[1..], r.name))[r]
  {
    hide Runner.Named;
    Runner.NamedFirst(rs, r.name);
    assert rs == [rs[0]] + rs[1..];
  }

  lemma {:induction false} CountIsNamed(rs: seq<Result>, r: Result)
    ensures multiset(rs)[r] == multiset(Runner.Named(rs, r.name))[r]
  {
    hide Runner.Named, Runner.Own;
    if rs == [] {
      assert Runner.Named(rs, r.name) == [];
    } else {
      CountIsNamed(rs[1..], r);
      CountFirst(rs, r);
    }
  }

  lemma {:induction false} NamedNone(rs: seq<Result>, n: string)
    requires forall r :: r in rs ==> r.name != n
    ensures Runner.Named(rs, n) == []
  {
    if rs != [] {
      assert rs[0] in rs;
      NamedNone(rs[1..], n);
    }
  }

  /**
   * A continuous run that has gone quiet has sent exactly the results, as a
   * multiset, that any sampled run of the same cases with one sample per test
   * collects when it is not cut short by the timer.
   */
  lemma SameResultsAsOneSample(c: Suite, run: seq<Step>, one: Runner.Config, sampled: seq<Runner.Step>, r: Result)
    requires Reached(c, run).Some? && Quiet(c, Reached(c, run).value)
    requires one == Runner.Config(c.cases, 1, c.oracle)
    requires Runner.Reached(one, sampled).Some?
    requires Runner.Reached(one, sampled).value.collector == Runner.Returned(false)
    ensures multiset(Reached(c, run).value.sent)[r] == CollectedCount(Runner.Reached(one, sampled).value.results, r)
  {
    var sent := Reached(c, run).value.sent;
    QuietRunsSentAll(c, run);
    CountIsNamed(sent, r);
    RunnerSafety.ReturnedMeansComplete(one, sampled);
    if r.name in c.cases {
      assert Runner.Emitted(one, r.name, 1) == Runner.Emitted(one, r.name, 0) + Outcome(c, r.name);
    } else {
      NamedNone(sent, r.name);
    }
  }
}
