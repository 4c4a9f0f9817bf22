/**
 * One execution of one test case: the callbacks of a worker's loop body, in the
 * order in which they are called, and the result they put on the channel.
 *
 * The user's callbacks are an oracle: `Answers` says what every callback of one
 * sample returns.  Errors are their messages; a nil error is `None`.
 */
module Samples {
  import opened Options
  import opened Seqs

  datatype TestCase = TestCase(
    name: string,
    labels: seq<string>,
    testFunc: int,           // which request function; function values have no equality
    hasSetup: bool,
    assertions: nat,
    hasTeardown: bool)

  datatype Result = Result(name: string, error: Option<string>, latency: int, size: nat)

  datatype Reply = RequestError(message: string) | Response(size: nat)

  datatype Answers = Answers(
    setup: Option<string>,
    reply: Reply,
    latency: int,
    assertion: nat -> Option<string>)

  datatype Event = CalledSetup | CalledRequest | CalledAssertion(j: nat) | Sent(result: Result) | CalledTeardown

  /** A nil pointer stands for the empty message as well as for no error. */
  function NewString(message: string): (p: Option<string>) {
    if message == "" then None else Some(message)
  }

  function StringPtrFromErr(err: Option<string>): Option<string> {
    match err
    case None => None
    case Some(message) => NewString(message)
  }

  function NewResult(name: string, err: Option<string>, latency: int, size: nat): Result {
    Result(name, StringPtrFromErr(err), latency, size)
  }

  predicate SetupOk(tc: TestCase, a: Answers) {
    tc.hasSetup ==> a.setup.None?
  }

  predicate RequestOk(tc: TestCase, a: Answers) {
    SetupOk(tc, a) && a.reply.Response?
  }

  /** The index of the first failing assertion, or the number of assertions. */
  function FirstFailure(tc: TestCase, a: Answers, from: nat := 0): (j: nat)
    requires from <= tc.assertions
    ensures from <= j <= tc.assertions
    ensures forall k :: from <= k < j ==> a.assertion(k).None?
    ensures j < tc.assertions ==> a.assertion(j).Some?
    decreases tc.assertions - from
  {
    if from == tc.assertions || a.assertion(from).Some? then from
    else FirstFailure(tc, a, from + 1)
  }

  /** The assertion error that decides the sample, if any. */
  function Verdict(tc: TestCase, a: Answers): Option<string> {
    var j := FirstFailure(tc, a);
    if j < tc.assertions then a.assertion(j) else None
  }

  /** What one sample puts on the channel: one result, unless setup failed. */
  function Emit(name: string, tc: TestCase, a: Answers): (sent: seq<Result>)
    ensures |sent| == if SetupOk(tc, a) then 1 else 0
    ensures sent != [] ==> sent[0].name == name
  {
    if !SetupOk(tc, a) then []
    else
      match a.reply
      case RequestError(message) => [NewResult(name, Some(message), a.latency, 0)]
      case Response(size) => [NewResult(name, Verdict(tc, a), a.latency, size)]
  }

  /** How many assertions a sample calls that gets to them. */
  function Asserted(tc: TestCase, a: Answers): nat {
    var j := FirstFailure(tc, a);
    if j < tc.assertions then j + 1 else j
  }

  function AssertionCalls(count: nat): (calls: seq<Event>)
    ensures |calls| == count
  {
    seq(count, (j: nat) => CalledAssertion(j))
  }

  /** The calls and sends of one sample, appended to what its goroutine has done before. */
  function AfterSample(done: seq<Event>, name: string, tc: TestCase, a: Answers): seq<Event> {
    var setup := if tc.hasSetup then done + [CalledSetup] else done;
    if !SetupOk(tc, a) then setup
    else
      var called := setup + [CalledRequest];
      match a.reply
      case RequestError(message) => called + [Sent(NewResult(name, Some(message), a.latency, 0))]
      case Response(size) =>
        var asserted := called + AssertionCalls(Asserted(tc, a));
        var sent := asserted + [Sent(NewResult(name, Verdict(tc, a), a.latency, size))];
        if tc.hasTeardown then sent + [CalledTeardown] else sent
  }

  function SampleEvents(name: string, tc: TestCase, a: Answers): seq<Event> {
    AfterSample([], name, tc, a)
  }

  /** The results among a sequence of events, in order. */
  function Sends(events: seq<Event>): seq<Result> {
    if events == [] then []
    else (if events[0].Sent? then [events[0].result] else []) + Sends(events[1..])
  }

  lemma {:induction false} SendsConcat(xs: seq<Event>, ys: seq<Event>)
    ensures Sends(xs + ys) == Sends(xs) + Sends(ys)
  {
    if xs == [] {
      assert xs + ys == ys;
    } else {
      var first := if xs[0].Sent? then [xs[0].result] else [];
      assert (xs + ys)[0] == xs[0] && (xs + ys)[1..] == xs[1..] + ys;
      SendsConcat(xs[1..], ys);
      ConcatAssociates(first, Sends(xs[1..]), Sends(ys));
    }
  }

  lemma {:induction false} NoSends(events: seq<Event>)
    requires forall e :: e in events ==> !e.Sent?
    ensures Sends(events) == []
  {
    if events != [] {
      NoSends(events[1..]);
    }
  }

  lemma SendsSnoc(events: seq<Event>, e: Event)
    ensures Sends(events + [e]) == Sends(events) + if e.Sent? then [e.result] else []
  {
    SendsConcat(events, [e]);
  }

  /** Assertion calls and a teardown around one send do not send anything else. */
  lemma OneSendAmong(called: seq<Event>, count: nat, r: Result)
    ensures var sent := called + AssertionCalls(count) + [Sent(r)];
      && Sends(sent) == Sends(called) + [r]
      && Sends(sent + [CalledTeardown]) == Sends(called) + [r]
  {
    var calls := AssertionCalls(count);
    NoSends(calls);
    SendsConcat(called, calls);
    SendsSnoc(called + calls, Sent(r));
    SendsSnoc(called + calls + [Sent(r)], CalledTeardown);
  }

  /** Each sample puts exactly one result on the channel, unless its setup failed. */
  lemma SampleSendsOnce(done: seq<Event>, name: string, tc: TestCase, a: Answers)
    ensures Sends(AfterSample(done, name, tc, a)) == Sends(done) + Emit(name, tc, a)
  {
    var setup := if tc.hasSetup then done + [CalledSetup] else done;
    SendsSnoc(done, CalledSetup);
    if SetupOk(tc, a) {
      var called := setup + [CalledRequest];
      SendsSnoc(setup, CalledRequest);
      var r := Emit(name, tc, a)[0];
      if a.reply.RequestError? {
        SendsSnoc(called, Sent(r));
      } else {
        OneSendAmong(called, Asserted(tc, a), r);
      }
    }
  }

  /** Teardown is called exactly when setup and request succeeded: once, and after everything else. */
  lemma TeardownExactly(name: string, tc: TestCase, a: Answers)
    ensures var events := SampleEvents(name, tc, a);
      && (CalledTeardown in events <==> tc.hasTeardown && RequestOk(tc, a))
      && (forall i :: 0 <= i < |events| - 1 ==> events[i] != CalledTeardown)
  {
  }

  /** Assertions run up to the first failing one, and only after setup and request succeeded. */
  lemma AssertionsUpToFirstFailure(name: string, tc: TestCase, a: Answers, j: nat)
    ensures CalledAssertion(j) in SampleEvents(name, tc, a) <==>
            RequestOk(tc, a) && j < tc.assertions && forall k :: 0 <= k < j ==> a.assertion(k).None?
  {
    if RequestOk(tc, a) {
      var calls := AssertionCalls(Asserted(tc, a));
      if j < |calls| {
        assert calls[j] == CalledAssertion(j);
      }
    }
  }

  predicate Succeeded(tc: TestCase, a: Answers) {
    RequestOk(tc, a) && forall j :: 0 <= j < tc.assertions ==> a.assertion(j).None?
  }

  /** The error that decides a failed sample has no message. */
  predicate FailsSilently(tc: TestCase, a: Answers) {
    if a.reply.RequestError? then a.reply.message == ""
    else FirstFailure(tc, a) < tc.assertions && a.assertion(FirstFailure(tc, a)) == Some("")
  }

  /** The result of a sample carries an error exactly when the sample failed, with a message to report. */
  lemma ErrorReportedExactly(name: string, tc: TestCase, a: Answers)
    requires SetupOk(tc, a)
    ensures Emit(name, tc, a)[0].error.Some? <==> !Succeeded(tc, a) && !FailsSilently(tc, a)
  {
    if a.reply.Response? {
      var j := FirstFailure(tc, a);
      assert j < tc.assertions <==> !Succeeded(tc, a);
    }
  }

  // ---------------------------------------------------------------- what a sample does, by its answers alone

  /** The first failing assertion is `j`. */
  predicate FailsAt(tc: TestCase, a: Answers, j: nat) {
    j < tc.assertions && a.assertion(j).Some? && forall k :: 0 <= k < j ==> a.assertion(k).None?
  }

  lemma FirstFailureExactly(tc: TestCase, a: Answers, j: nat)
    ensures FailsAt(tc, a, j) <==> j == FirstFailure(tc, a) < tc.assertions
  {
  }

  /**
   * The result of a sample: none after a failed setup; otherwise its test's name, the
   * request's latency, the response's size and the message of the request error or of
   * the first failing assertion, where an empty message counts as none.
   */
  lemma SentExactly(name: string, tc: TestCase, a: Answers)
    ensures tc.hasSetup && a.setup.Some? ==> Emit(name, tc, a) == []
    ensures !(tc.hasSetup && a.setup.Some?) ==>
      match a.reply
      case RequestError(m) => Emit(name, tc, a) == [Result(name, if m == "" then None else Some(m), a.latency, 0)]
      case Response(size) =>
        && ((forall j :: 0 <= j < tc.assertions ==> a.assertion(j).None?) ==>
             Emit(name, tc, a) == [Result(name, None, a.latency, size)])
        && (forall j: nat :: FailsAt(tc, a, j) ==>
             var m := a.assertion(j).value;
             Emit(name, tc, a) == [Result(name, if m == "" then None else Some(m), a.latency, size)])
  {
    forall j: nat | FailsAt(tc, a, j) ensures j == FirstFailure(tc, a) {
      FirstFailureExactly(tc, a, j);
    }
  }

  /** A sample whose setup or request fails. */
  lemma FailedSampleExactly(name: string, tc: TestCase, a: Answers)
    ensures tc.hasSetup && a.setup.Some? ==> SampleEvents(name, tc, a) == [CalledSetup]
    ensures !(tc.hasSetup && a.setup.Some?) && a.reply.RequestError? ==>
      var m := a.reply.message;
      var tried := [CalledRequest, Sent(Result(name, if m == "" then None else Some(m), a.latency, 0))];
      SampleEvents(name, tc, a) == if tc.hasSetup then [CalledSetup] + tried else tried
  {
    assert [] + [CalledSetup] == [CalledSetup];
  }

  /** A sample that gets to its `n` assertions, all but the last of which pass. */
  lemma AssertedSampleExactly(name: string, tc: TestCase, a: Answers, n: nat)
    requires !(tc.hasSetup && a.setup.Some?) && a.reply.Response?
    requires if n > 0 && a.assertion(n - 1).Some? then FailsAt(tc, a, n - 1)
             else n == tc.assertions && forall j :: 0 <= j < n ==> a.assertion(j).None?
    ensures var m := if n > 0 && a.assertion(n - 1).Some? then a.assertion(n - 1).value else "";
      var result := Result(name, if m == "" then None else Some(m), a.latency, a.reply.size);
      SampleEvents(name, tc, a) ==
        (if tc.hasSetup then [CalledSetup] else []) + [CalledRequest] + seq(n, (j: nat) => CalledAssertion(j)) +
        [Sent(result)] + (if tc.hasTeardown then [CalledTeardown] else [])
  {
    assert [] + [CalledSetup] == [CalledSetup];
    if n > 0 && a.assertion(n - 1).Some? {
      FirstFailureExactly(tc, a, n - 1);
    } else {
      assert FirstFailure(tc, a) == tc.assertions;
    }
    assert Asserted(tc, a) == n && AssertionCalls(n) == seq(n, (j: nat) => CalledAssertion(j));
    assert NewResult(name, Verdict(tc, a), a.latency, a.reply.size) == Emit(name, tc, a)[0];
  }

  // ---------------------------------------------------------------- a sample in three parts

  /** What a sample calls before it sends, or altogether if its setup fails. */
  function BeforeSend(tc: TestCase, a: Answers): seq<Event> {
    (if tc.hasSetup then [CalledSetup] else []) +
    if tc.hasSetup && a.setup.Some? then []
    else [CalledRequest] + if a.reply.RequestError? then [] else AssertionCalls(Asserted(tc, a))
  }

  function AtSend(name: string, tc: TestCase, a: Answers): seq<Event> {
    if Emit(name, tc, a) == [] then [] else [Sent(Emit(name, tc, a)[0])]
  }

  function Ending(tc: TestCase, a: Answers): seq<Event> {
    if tc.hasTeardown && !(tc.hasSetup && a.setup.Some?) && a.reply.Response? then [CalledTeardown] else []
  }

  lemma SampleInParts(name: string, tc: TestCase, a: Answers)
    ensures SampleEvents(name, tc, a) == BeforeSend(tc, a) + AtSend(name, tc, a) + Ending(tc, a)
  {
    hide AssertionCalls, Asserted, Verdict, NewResult;
    assert [] + [CalledSetup] == [CalledSetup];
    var calls := AssertionCalls(Asserted(tc, a));
    var setup: seq<Event> := if tc.hasSetup then [CalledSetup] else [];
    ConcatAssociates(setup, [CalledRequest], calls);
  }

  // ---------------------------------------------------------------- the two worker bodies

  type Oracle = (string, nat) -> Answers

  /** The events of the samples before `n`, in order. */
  function WorkerEvents(name: string, tc: TestCase, oracle: Oracle, n: nat): seq<Event> {
    if n == 0 then []
    else AfterSample(WorkerEvents(name, tc, oracle, n - 1), name, tc, oracle(name, n - 1))
  }

  /** What a sample does does not depend on what its goroutine has done before. */
  lemma SampleAppends(done: seq<Event>, name: string, tc: TestCase, a: Answers)
    ensures AfterSample(done, name, tc, a) == done + SampleEvents(name, tc, a)
  {
    hide Asserted, Verdict, NewResult, AssertionCalls;
    var setup: seq<Event> := if tc.hasSetup then [CalledSetup] else [];
    assert [] + [CalledSetup] == [CalledSetup];
    assert (if tc.hasSetup then done + [CalledSetup] else done) == done + setup;
    if SetupOk(tc, a) {
      ConcatAssociates(done, setup, [CalledRequest]);
      var called := setup + [CalledRequest];
      if a.reply.RequestError? {
        ConcatAssociates(done, called, [Sent(NewResult(name, Some(a.reply.message), a.latency, 0))]);
      } else {
        var calls := AssertionCalls(Asserted(tc, a));
        var sent := Sent(NewResult(name, Verdict(tc, a), a.latency, a.reply.size));
        ConcatAssociates(done, called, calls);
        ConcatAssociates(done, called + calls, [sent]);
        ConcatAssociates(done, called + calls + [sent], [CalledTeardown]);
      }
    }
  }

  /** How often a sample performs this call. */
  function Calls(tc: TestCase, a: Answers, e: Event): nat {
    match e
    case CalledSetup => if tc.hasSetup then 1 else 0
    case CalledRequest => if SetupOk(tc, a) then 1 else 0
    case CalledAssertion(j) =>
      if RequestOk(tc, a) && j < tc.assertions && forall k :: 0 <= k < j ==> a.assertion(k).None? then 1 else 0
    case CalledTeardown => if tc.hasTeardown && RequestOk(tc, a) then 1 else 0
    case Sent(_) => 0
  }

  lemma AssertionCallsOnce(count: nat, e: Event)
    ensures multiset(AssertionCalls(count))[e] == if e.CalledAssertion? && e.j < count then 1 else 0
  {
    var calls := AssertionCalls(count);
    if count > 0 {
      AssertionCallsOnce(count - 1, e);
      assert calls == AssertionCalls(count - 1) + [CalledAssertion(count - 1)];
    }
  }

  lemma AssertedExactly(tc: TestCase, a: Answers, j: nat)
    ensures j < Asserted(tc, a) <==> j < tc.assertions && forall k :: 0 <= k < j ==> a.assertion(k).None?
  {
  }

  lemma CountSnoc(events: seq<Event>, last: Event, e: Event)
    ensures multiset(events + [last])[e] == multiset(events)[e] + if last == e then 1 else 0
  {
  }

  /** What follows the request of a sample that succeeds, counted. */
  lemma TailCalls(called: seq<Event>, tc: TestCase, a: Answers, r: Result, e: Event)
    requires RequestOk(tc, a) && !e.Sent?
    ensures var sent := called + AssertionCalls(Asserted(tc, a)) + [Sent(r)];
      multiset(if tc.hasTeardown then sent + [CalledTeardown] else sent)[e] ==
        multiset(called)[e] + if e.CalledAssertion? || e.CalledTeardown? then Calls(tc, a, e) else 0
  {
    var calls := AssertionCalls(Asserted(tc, a));
    AssertionCallsOnce(Asserted(tc, a), e);
    assert multiset(called + calls)[e] == multiset(called)[e] + multiset(calls)[e];
    CountSnoc(called + calls, Sent(r), e);
    CountSnoc(called + calls + [Sent(r)], CalledTeardown, e);
    if e.CalledAssertion? {
      AssertedExactly(tc, a, e.j);
    }
  }

  lemma HeadCalls(tc: TestCase, a: Answers, e: Event)
    requires RequestOk(tc, a)
    ensures e.CalledSetup? ==> Calls(tc, a, e) == if tc.hasSetup then 1 else 0
    ensures e.CalledRequest? ==> Calls(tc, a, e) == 1
  {
  }

  lemma SuccessCalls(name: string, tc: TestCase, a: Answers, e: Event)
    requires RequestOk(tc, a) && !e.Sent?
    ensures multiset(SampleEvents(name, tc, a))[e] == Calls(tc, a, e)
  {
    hide Calls, FirstFailure, Verdict, NewResult;
    var setup: seq<Event> := if tc.hasSetup then [CalledSetup] else [];
    assert [] + [CalledSetup] == [CalledSetup];
    TailCalls(setup + [CalledRequest], tc, a, NewResult(name, Verdict(tc, a), a.latency, a.reply.size), e);
    CountSnoc(setup, CalledRequest, e);
    HeadCalls(tc, a, e);
  }

  lemma FailureCalls(name: string, tc: TestCase, a: Answers, e: Event)
    requires !RequestOk(tc, a) && !e.Sent?
    ensures multiset(SampleEvents(name, tc, a))[e] == Calls(tc, a, e)
  {
    hide FirstFailure, Verdict, NewResult;
    assert [] + [CalledSetup] == [CalledSetup];
  }

  lemma SampleCalls(name: string, tc: TestCase, a: Answers, e: Event)
    requires !e.Sent?
    ensures multiset(SampleEvents(name, tc, a))[e] == Calls(tc, a, e)
  {
    if RequestOk(tc, a) {
      SuccessCalls(name, tc, a, e);
    } else {
      FailureCalls(name, tc, a, e);
    }
  }

  /** The samples of a worker follow each other, each with its own answers. */
  lemma WorkerIsItsSamples(name: string, tc: TestCase, oracle: Oracle, n: nat)
    ensures WorkerEvents(name, tc, oracle, 0) == []
    ensures WorkerEvents(name, tc, oracle, n + 1)
         == WorkerEvents(name, tc, oracle, n) + SampleEvents(name, tc, oracle(name, n))
  {
    SampleAppends(WorkerEvents(name, tc, oracle, n), name, tc, oracle(name, n));
  }

  function CallsBefore(name: string, tc: TestCase, oracle: Oracle, n: nat, e: Event): nat {
    if n == 0 then 0 else CallsBefore(name, tc, oracle, n - 1, e) + Calls(tc, oracle(name, n - 1), e)
  }

  /**
   * Over all its samples a worker calls setup, request, each assertion and teardown
   * exactly as often as there are samples that get that far.
   */
  lemma {:induction false} WorkerCalls(name: string, tc: TestCase, oracle: Oracle, n: nat, e: Event)
    requires !e.Sent?
    ensures multiset(WorkerEvents(name, tc, oracle, n))[e] == CallsBefore(name, tc, oracle, n, e)
  {
    hide AfterSample, SampleEvents, Calls;
    if n > 0 {
      var before, sample := WorkerEvents(name, tc, oracle, n - 1), SampleEvents(name, tc, oracle(name, n - 1));
      WorkerCalls(name, tc, oracle, n - 1, e);
      SampleAppends(before, name, tc, oracle(name, n - 1));
      SampleCalls(name, tc, oracle(name, n - 1), e);
      assert multiset(before + sample)[e] == multiset(before)[e] + multiset(sample)[e];
    }
  }

  /**
   * The assertions of one response, appending to the goroutine's events: they are
   * called in order up to the first failing one, whose result is sent at once.
   */
  method RunAssertions(name: string, tc: TestCase, a: Answers, size: nat, done: seq<Event>)
      returns (err: Option<string>, events: seq<Event>)
    ensures err == Verdict(tc, a)
    ensures var asserted := done + AssertionCalls(Asserted(tc, a));
      events == if err.Some? then asserted + [Sent(NewResult(name, err, a.latency, size))] else asserted
  {
    err, events := None, done;
    var j := 0;
    while j < tc.assertions
      invariant j <= tc.assertions
      invariant err.None? && events == done + AssertionCalls(j)
      invariant FirstFailure(tc, a) == FirstFailure(tc, a, j)
    {
      events := events + [CalledAssertion(j)];
      assert events == done + AssertionCalls(j + 1);
      err := a.assertion(j);
      if err.Some? {
        events := events + [Sent(NewResult(name, err, a.latency, size))];
        return;
      }
      j := j + 1;
    }
  }

  /** The goroutine of one test case in a sampled run. */
  method Worker(name: string, tc: TestCase, oracle: Oracle, sampleCount: nat) returns (events: seq<Event>)
    ensures events == WorkerEvents(name, tc, oracle, sampleCount)
  {
    hide Asserted, AssertionCalls, FirstFailure, Verdict, NewResult;
    events := [];
    for i := 0 to sampleCount
      invariant events == WorkerEvents(name, tc, oracle, i)
    {
      var a := oracle(name, i);
      if tc.hasSetup {
        events := events + [CalledSetup];
        if a.setup.Some? {
          continue;
        }
      }
      events := events + [CalledRequest];
      if a.reply.RequestError? {
        events := events + [Sent(NewResult(name, Some(a.reply.message), a.latency, 0))];
        continue;
      }
      var responseSize := a.reply.size;
      var err;
      err, events := RunAssertions(name, tc, a, responseSize, events);
      if err.None? {
        events := events + [Sent(NewResult(name, None, a.latency, responseSize))];
      }
      if tc.hasTeardown {
        events := events + [CalledTeardown];
      }
    }
  }

  /** The goroutine of one test case in a continuous run: one sample, with early returns. */
  method ContinuousWorker(name: string, tc: TestCase, a: Answers) returns (events: seq<Event>)
    ensures events == SampleEvents(name, tc, a)
  {
    hide Asserted, AssertionCalls, FirstFailure, Verdict, NewResult;
    events := [];
    if tc.hasSetup {
      events := events + [CalledSetup];
      if a.setup.Some? {
        return;
      }
    }
    events := events + [CalledRequest];
    if a.reply.RequestError? {
      events := events + [Sent(NewResult(name, Some(a.reply.message), a.latency, 0))];
      return;
    }
    var responseSize := a.reply.size;
    var err;
    err, events := RunAssertions(name, tc, a, responseSize, events);
    if err.None? {
      events := events + [Sent(NewResult(name, None, a.latency, responseSize))];
    }
    if tc.hasTeardown {
      events := events + [CalledTeardown];
    }
  }
}
