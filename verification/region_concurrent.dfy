/**
 * Requests handled concurrently by one region proxy.  Each cache operation, each
 * resolution and each eviction is one step; steps of different requests interleave
 * in any order, so that two requests for one cluster may both miss the cache.
 */
module ConcurrentProxy {
  import opened Options
  import opened RegionProxy

  datatype Phase =
    | Checking(left: seq<string>)
    | Resolving
    | Storing(value: string, left: seq<string>)
    | Answered(route: Route)

  datatype State = State(entries: map<string, string>, phases: seq<Phase>)

  datatype Step = Check(i: nat) | Resolve(i: nat) | Store(i: nat) | Evict(keys: set<string>)

  function Start(ids: ClusterIds): Phase {
    if ids.id == "" && ids.externalId == "" then Answered(Next) else Checking([ids.id, ids.externalId])
  }

  function Init(requests: seq<ClusterIds>): State {
    State(map[], seq(|requests|, (i: nat) requires i < |requests| => Start(requests[i])))
  }

  predicate Enabled(requests: seq<ClusterIds>, s: State, step: Step) {
    |s.phases| == |requests| &&
    match step
    case Check(i) => i < |s.phases| && s.phases[i].Checking?
    case Resolve(i) => i < |s.phases| && s.phases[i].Resolving?
    case Store(i) => i < |s.phases| && s.phases[i].Storing?
    case Evict(_) => true
  }

  function Apply(env: Env, requests: seq<ClusterIds>, s: State, step: Step): State
    requires Enabled(requests, s, step)
  {
    match step
    case Check(i) =>
      var left := s.phases[i].left;
      s.(phases := s.phases[i :=
        if left == [] then Resolving
        else if left[0] in s.entries then Answered(Dispatched(s.entries[left[0]]))
        else Checking(left[1..])])
    case Resolve(i) =>
      var ids := requests[i];
      s.(phases := s.phases[i :=
        match Stored(env, ids)
        case None => Answered(ErrorReply)
        case Some(value) => Storing(value, [ids.id, ids.externalId])])
    case Store(i) =>
      var Storing(value, left) := s.phases[i];
      if left == [] then s.(phases := s.phases[i := Answered(Uncached(env, requests[i]))])
      else State(if left[0] == "" then s.entries else s.entries[left[0] := value],
                 s.phases[i := Storing(value, left[1..])])
    case Evict(keys) => s.(entries := s.entries - keys)
  }

  ghost function Reached(env: Env, requests: seq<ClusterIds>, run: seq<Step>): Option<State> {
    if run == [] then Some(Init(requests))
    else
      match Reached(env, requests, run[..|run| - 1])
      case None => None
      case Some(s) =>
        var step := run[|run| - 1];
        if Enabled(requests, s, step) then Some(Apply(env, requests, s, step)) else None
  }

  // ---------------------------------------------------------------- invariant

  /** Request `j` got as far as storing what it resolved. */
  predicate HasResolved(s: State, j: nat) {
    j < |s.phases| && (s.phases[j].Storing? || s.phases[j].Answered?)
  }

  /** Request `j` left this entry. */
  predicate Left(env: Env, requests: seq<ClusterIds>, s: State, key: string, value: string, j: nat) {
    && j < |requests| && HasResolved(s, j)
    && key in requests[j].Keys() && Stored(env, requests[j]) == Some(value)
  }

  ghost predicate Justified(env: Env, requests: seq<ClusterIds>, s: State, key: string, value: string) {
    exists j: nat :: Left(env, requests, s, key, value, j)
  }

  /** An answer is the uncached one, or what some other request left under a shared id. */
  ghost predicate AnswerOk(env: Env, requests: seq<ClusterIds>, i: nat, route: Route)
    requires i < |requests|
  {
    || route == Uncached(env, requests[i])
    || (route.Dispatched? && exists j :: && 0 <= j < |requests| && j != i
                                       && requests[j].Keys() * requests[i].Keys() != {}
                                       && Stored(env, requests[j]) == Some(route.rhRegionId))
  }

  predicate IdsOf(ids: ClusterIds, keys: seq<string>) {
    forall k :: k in keys ==> k == "" || k in ids.Keys()
  }

  ghost predicate PhaseOk(env: Env, requests: seq<ClusterIds>, s: State, i: nat)
    requires i < |requests| && i < |s.phases|
  {
    match s.phases[i]
    case Checking(left) => requests[i].Keys() != {} && IdsOf(requests[i], left)
    case Resolving => requests[i].Keys() != {}
    case Storing(value, left) =>
      requests[i].Keys() != {} && IdsOf(requests[i], left) && Stored(env, requests[i]) == Some(value)
    case Answered(route) => AnswerOk(env, requests, i, route)
  }

  ghost predicate Inv(env: Env, requests: seq<ClusterIds>, s: State) {
    && |s.phases| == |requests|
    && (forall k :: k in s.entries ==> k != "" && Justified(env, requests, s, k, s.entries[k]))
    && (forall i :: 0 <= i < |requests| ==> PhaseOk(env, requests, s, i))
  }

  lemma StillLeft(env: Env, requests: seq<ClusterIds>, s: State, step: Step, k: string, v: string)
    requires Enabled(requests, s, step) && Justified(env, requests, s, k, v)
    ensures Justified(env, requests, Apply(env, requests, s, step), k, v)
  {
    var j: nat :| Left(env, requests, s, k, v, j);
    assert Left(env, requests, Apply(env, requests, s, step), k, v, j);
  }

  lemma HitIsOk(env: Env, requests: seq<ClusterIds>, s: State, i: nat)
    requires Inv(env, requests, s) && i < |requests| && s.phases[i].Checking?
    requires s.phases[i].left != [] && s.phases[i].left[0] in s.entries
    ensures AnswerOk(env, requests, i, Dispatched(s.entries[s.phases[i].left[0]]))
  {
    var k := s.phases[i].left[0];
    assert PhaseOk(env, requests, s, i);
    assert k in s.phases[i].left;
    var j: nat :| Left(env, requests, s, k, s.entries[k], j);
    assert k in requests[j].Keys() * requests[i].Keys();
  }

  lemma StepKeepsPhases(env: Env, requests: seq<ClusterIds>, s: State, step: Step, i: nat)
    requires Inv(env, requests, s) && Enabled(requests, s, step) && i < |requests|
    ensures PhaseOk(env, requests, Apply(env, requests, s, step), i)
  {
    assert PhaseOk(env, requests, s, i);
    if step == Check(i) && s.phases[i].left != [] && s.phases[i].left[0] in s.entries {
      HitIsOk(env, requests, s, i);
    }
    if step == Resolve(i) {
      var ids := requests[i];
      assert ids.id != "" ==> ids.id in ids.Keys();
      assert ids.externalId != "" ==> ids.externalId in ids.Keys();
    }
  }

  lemma StepKeepsInv(env: Env, requests: seq<ClusterIds>, s: State, step: Step)
    requires Inv(env, requests, s) && Enabled(requests, s, step)
    ensures Inv(env, requests, Apply(env, requests, s, step))
  {
    var t := Apply(env, requests, s, step);
    forall k | k in t.entries ensures k != "" && Justified(env, requests, t, k, t.entries[k]) {
      if k in s.entries && t.entries[k] == s.entries[k] {
        StillLeft(env, requests, s, step, k, s.entries[k]);
      } else {
        var i := step.i;
        assert PhaseOk(env, requests, s, i);
        assert k in s.phases[i].left;
        assert Left(env, requests, t, k, t.entries[k], i);
      }
    }
    forall i | 0 <= i < |requests| ensures PhaseOk(env, requests, t, i) {
      StepKeepsPhases(env, requests, s, step, i);
    }
  }

  lemma {:induction false} RunKeepsInv(env: Env, requests: seq<ClusterIds>, run: seq<Step>)
    requires Reached(env, requests, run).Some?
    ensures Inv(env, requests, Reached(env, requests, run).value)
  {
    if run == [] {
      forall i | 0 <= i < |requests| ensures PhaseOk(env, requests, Init(requests), i) {
        var ids := requests[i];
        assert ids.id != "" ==> ids.id in ids.Keys();
        assert ids.externalId != "" ==> ids.externalId in ids.Keys();
      }
    } else {
      var before := run[..|run| - 1];
      RunKeepsInv(env, requests, before);
      StepKeepsInv(env, requests, Reached(env, requests, before).value, run[|run| - 1]);
    }
  }

  // ---------------------------------------------------------------- main theorems

  /** Every request serves as all others that share an id with it. */
  ghost predicate AllServe(env: Env, requests: seq<ClusterIds>) {
    forall i, j | 0 <= i < |requests| && 0 <= j < |requests| && i != j ::
      requests[i].Keys() * requests[j].Keys() != {} ==> ServesAs(env, requests[i], requests[j])
  }

  ghost predicate AnsweredAsUncached(env: Env, requests: seq<ClusterIds>, run: seq<Step>, i: nat)
    requires i < |requests|
  {
    match Reached(env, requests, run)
    case None => true
    case Some(s) =>
      |s.phases| == |requests| &&
      (s.phases[i].Answered? ==> Target(s.phases[i].route) == Target(Uncached(env, requests[i])))
  }

  /** Whatever the interleaving, every request that has been answered got its uncached answer. */
  ghost predicate AlwaysAsUncached(env: Env, requests: seq<ClusterIds>) {
    forall run, i :: 0 <= i < |requests| ==> AnsweredAsUncached(env, requests, run, i)
  }

  lemma ServedAnswersAgree(env: Env, requests: seq<ClusterIds>, run: seq<Step>, i: nat)
    requires AllServe(env, requests) && i < |requests|
    ensures AnsweredAsUncached(env, requests, run, i)
  {
    if Reached(env, requests, run).Some? {
      RunKeepsInv(env, requests, run);
      var s := Reached(env, requests, run).value;
      assert PhaseOk(env, requests, s, i);
      if s.phases[i].Answered? && s.phases[i].route != Uncached(env, requests[i]) {
        var j :| 0 <= j < |requests| && j != i && requests[j].Keys() * requests[i].Keys() != {} &&
          Stored(env, requests[j]) == Some(s.phases[i].route.rhRegionId);
        assert ServesAs(env, requests[j], requests[i]);
      }
    }
  }

  lemma Nothing(env: Env, requests: seq<ClusterIds>) returns (run: seq<Step>)
    ensures run == [] && Reached(env, requests, run) == Some(Init(requests))
  {
    run := [];
  }

  /** One more step of a run. */
  lemma Take(env: Env, requests: seq<ClusterIds>, run: seq<Step>, step: Step) returns (next: seq<Step>)
    requires Reached(env, requests, run).Some? && Enabled(requests, Reached(env, requests, run).value, step)
    ensures next == run + [step]
    ensures Reached(env, requests, next) == Some(Apply(env, requests, Reached(env, requests, run).value, step))
  {
    next := run + [step];
    assert next[..|next| - 1] == run;
  }

  /** A request that starts while none of its ids is stored may miss both its keys. */
  lemma Miss(env: Env, requests: seq<ClusterIds>, run: seq<Step>, i: nat) returns (next: seq<Step>)
    requires i < |requests| && requests[i].Keys() != {} && Reached(env, requests, run).Some?
    requires var s := Reached(env, requests, run).value;
      && requests[i].Keys() !! s.entries.Keys && "" !in s.entries
      && |s.phases| == |requests| && s.phases[i] == Start(requests[i])
    ensures next == run + [Check(i), Check(i), Check(i)]
    ensures var s := Reached(env, requests, run).value;
      Reached(env, requests, next) == Some(s.(phases := s.phases[i := Resolving]))
  {
    hide Reached;
    var s := Reached(env, requests, run).value;
    next := Take(env, requests, run, Check(i));
    next := Take(env, requests, next, Check(i));
    next := Take(env, requests, next, Check(i));
    assert Reached(env, requests, next).value == s.(phases := s.phases[i := Resolving]);
  }

  /** A run in which request `i` misses the cache and resolves, before any other request does anything. */
  lemma ResolveFirst(env: Env, requests: seq<ClusterIds>, i: nat) returns (run: seq<Step>)
    requires i < |requests| && requests[i].Keys() != {} && Stored(env, requests[i]).Some?
    ensures var ids := requests[i];
      Reached(env, requests, run) ==
        Some(State(map[], Init(requests).phases[i := Storing(Stored(env, ids).value, [ids.id, ids.externalId])]))
  {
    hide Reached;
    var phases, ids := Init(requests).phases, requests[i];
    run := Nothing(env, requests);
    run := Miss(env, requests, run, i);
    run := Take(env, requests, run, Resolve(i));
    var storing := Storing(Stored(env, ids).value, [ids.id, ids.externalId]);
    assert phases[i := Resolving][i := storing] == phases[i := storing];
  }

  /** From there, a request that shares an id finds what the first one left. */
  lemma FindEntry(env: Env, requests: seq<ClusterIds>, i: nat, j: nat) returns (run: seq<Step>)
    requires i < |requests| && j < |requests| && i != j && Stored(env, requests[i]).Some?
    requires requests[i].Keys() * requests[j].Keys() != {}
    ensures Reached(env, requests, run).Some?
    ensures Reached(env, requests, run).value.phases[j] == Answered(Dispatched(Stored(env, requests[i]).value))
  {
    hide Reached;
    var v := Stored(env, requests[i]).value;
    run := ResolveFirst(env, requests, i);
    run := Take(env, requests, run, Store(i));
    run := Take(env, requests, run, Store(i));
    var s := Reached(env, requests, run).value;
    assert s.entries.Keys == requests[i].Keys() && forall k :: k in s.entries ==> s.entries[k] == v;
    assert s.phases[j] == Checking([requests[j].id, requests[j].externalId]);
    run := Take(env, requests, run, Check(j));
    if requests[j].id !in s.entries {
      run := Take(env, requests, run, Check(j));
    }
  }

  /**
   * Under all interleavings and evictions concurrent requests are answered as without
   * the cache exactly when whatever a request leaves serves all others sharing an id.
   */
  lemma AllServeExactly(env: Env, requests: seq<ClusterIds>)
    ensures AllServe(env, requests) <==> AlwaysAsUncached(env, requests)
  {
    if AllServe(env, requests) {
      forall run, i | 0 <= i < |requests| ensures AnsweredAsUncached(env, requests, run, i) {
        ServedAnswersAgree(env, requests, run, i);
      }
    } else {
      var i, j :| 0 <= i < |requests| && 0 <= j < |requests| && i != j &&
        requests[i].Keys() * requests[j].Keys() != {} && !ServesAs(env, requests[i], requests[j]);
      var run := FindEntry(env, requests, i, j);
      assert !AnsweredAsUncached(env, requests, run, j);
    }
  }

  /** No id of a request whose lookup fails is used by another request. */
  ghost predicate FailuresAlone(env: Env, requests: seq<ClusterIds>) {
    forall i, j :: 0 <= i < |requests| && 0 <= j < |requests| && i != j && LookupFails(env, requests[i]) ==>
      requests[i].Keys() * requests[j].Keys() == {}
  }

  /**
   * When shared ids name one cluster, concurrent requests are answered as without the
   * cache exactly when no failed lookup shares an id with another request.
   */
  lemma ConcurrentRoutesAgreeExactly(env: Env, requests: seq<ClusterIds>)
    requires NamesOneCluster(env, requests)
    ensures FailuresAlone(env, requests) <==> AlwaysAsUncached(env, requests)
  {
    forall i, j | 0 <= i < |requests| && 0 <= j < |requests| && i != j &&
      requests[i].Keys() * requests[j].Keys() != {}
      ensures ServesAs(env, requests[i], requests[j]) <==> !LookupFails(env, requests[i])
    {
      assert requests[i].Keys() * requests[j].Keys() == requests[j].Keys() * requests[i].Keys();
      assert Uncached(env, requests[i]) == Uncached(env, requests[j]);
      OneClusterServes(env, requests[i], requests[j]);
    }
    AllServeExactly(env, requests);
  }

  // ---------------------------------------------------------------- one request at a time

  /** The entries after both ids of a request got this value. */
  function WithBoth(entries: map<string, string>, ids: ClusterIds, value: string): map<string, string> {
    var first := if ids.id == "" then entries else entries[ids.id := value];
    if ids.externalId == "" then first else first[ids.externalId := value]
  }

  lemma HandledStores(env: Env, entries: map<string, string>, ids: ClusterIds)
    requires "" !in entries && ids.Keys() != {} && ids.Keys() !! entries.Keys
    ensures var (after, route, _) := Handled(env, KEEP, Cache(entries, 0), ids);
      && route == (if Stored(env, ids).None? then ErrorReply else Uncached(env, ids))
      && after.entries == match Stored(env, ids) case None => entries case Some(v) => WithBoth(entries, ids, v)
  {
    assert ids.id != "" ==> ids.id in ids.Keys();
    assert ids.externalId != "" ==> ids.externalId in ids.Keys();
    var c := Cache(entries, 0);
    MissExactly(env, c, ids, "");
    forall k ensures var after := Handled(env, KEEP, c, ids).0.entries;
      var expected := match Stored(env, ids) case None => entries case Some(v) => WithBoth(entries, ids, v);
      (k in after <==> k in expected) && (k in after ==> after[k] == expected[k])
    {
      MissExactly(env, c, ids, k);
    }
  }

  lemma StoreOne(env: Env, requests: seq<ClusterIds>, run: seq<Step>, i: nat, v: string, left: seq<string>)
      returns (next: seq<Step>)
    requires i < |requests| && Reached(env, requests, run).Some? && left != []
    requires var s := Reached(env, requests, run).value; |s.phases| == |requests| && s.phases[i] == Storing(v, left)
    ensures var s := Reached(env, requests, run).value;
      Reached(env, requests, next) == Some(
        State(if left[0] == "" then s.entries else s.entries[left[0] := v], s.phases[i := Storing(v, left[1..])]))
  {
    next := Take(env, requests, run, Store(i));
  }

  /** A request that misses stores what it resolves under both its ids and is answered. */
  lemma StoreAlone(env: Env, requests: seq<ClusterIds>, run: seq<Step>, i: nat) returns (next: seq<Step>)
    requires i < |requests| && Reached(env, requests, run).Some?
    requires var s := Reached(env, requests, run).value; |s.phases| == |requests| && s.phases[i] == Resolving
    ensures var s := Reached(env, requests, run).value;
      Reached(env, requests, next) == Some(
        match Stored(env, requests[i])
        case None => s.(phases := s.phases[i := Answered(ErrorReply)])
        case Some(v) =>
          State(WithBoth(s.entries, requests[i], v), s.phases[i := Answered(Uncached(env, requests[i]))]))
  {
    hide Reached, Uncached, Stored;
    var s, ids := Reached(env, requests, run).value, requests[i];
    next := Take(env, requests, run, Resolve(i));
    if Stored(env, ids).Some? {
      var v := Stored(env, ids).value;
      var first := if ids.id == "" then s.entries else s.entries[ids.id := v];
      next := StoreOne(env, requests, next, i, v, [ids.id, ids.externalId]);
      assert Reached(env, requests, next).value == State(first, s.phases[i := Storing(v, [ids.externalId])]);
      next := StoreOne(env, requests, next, i, v, [ids.externalId]);
      assert [ids.externalId][1..] == [];
      assert s.phases[i := Storing(v, [ids.externalId])][i := Storing(v, [])] == s.phases[i := Storing(v, [])];
      assert Reached(env, requests, next).value == State(WithBoth(s.entries, ids, v), s.phases[i := Storing(v, [])]);
      next := Take(env, requests, next, Store(i));
      var reply := Answered(Uncached(env, ids));
      assert s.phases[i := Storing(v, [])][i := reply] == s.phases[i := reply];
    }
  }

  lemma HitAlone(env: Env, requests: seq<ClusterIds>, run: seq<Step>, i: nat) returns (next: seq<Step>)
    requires i < |requests| && Reached(env, requests, run).Some?
    requires var s := Reached(env, requests, run).value;
      && |s.phases| == |requests| && s.phases[i] == Start(requests[i]) && requests[i] != ClusterIds("", "")
      && (requests[i].id in s.entries || requests[i].externalId in s.entries)
    ensures var s, ids := Reached(env, requests, run).value, requests[i];
      Reached(env, requests, next) == Some(s.(phases := s.phases[i :=
        Answered(Dispatched(s.entries[if ids.id in s.entries then ids.id else ids.externalId]))]))
  {
    hide Reached;
    var s := Reached(env, requests, run).value;
    next := Take(env, requests, run, Check(i));
    if requests[i].id !in s.entries {
      assert Reached(env, requests, next).value == s.(phases := s.phases[i := Checking([requests[i].externalId])]);
      next := Take(env, requests, next, Check(i));
    }
    assert Reached(env, requests, next).value == s.(phases := s.phases[i :=
      Answered(Dispatched(s.entries[if requests[i].id in s.entries then requests[i].id else requests[i].externalId]))]);
  }

  /** A request that runs alone, without an eviction, does what the sequential handler does. */
  lemma AloneIsHandled(env: Env, requests: seq<ClusterIds>, run: seq<Step>, i: nat) returns (next: seq<Step>)
    requires i < |requests| && Reached(env, requests, run).Some?
    requires var s := Reached(env, requests, run).value; i < |s.phases| && s.phases[i] == Start(requests[i])
    ensures var s := Reached(env, requests, run).value;
      var (after, route, _) := Handled(env, KEEP, Cache(s.entries, 0), requests[i]);
      Reached(env, requests, next) == Some(State(after.entries, s.phases[i := Answered(route)]))
  {
    hide Reached;
    RunKeepsInv(env, requests, run);
    var s, ids := Reached(env, requests, run).value, requests[i];
    if ids == ClusterIds("", "") {
      next := run;
      assert s.phases == s.phases[i := Answered(Next)];
    } else if ids.id in s.entries || ids.externalId in s.entries {
      HitExactly(env, Cache(s.entries, 0), ids);
      next := HitAlone(env, requests, run, i);
    } else {
      assert ids.id != "" ==> ids.id in ids.Keys();
      assert ids.externalId != "" ==> ids.externalId in ids.Keys();
      next := Miss(env, requests, run, i);
      next := StoreAlone(env, requests, next, i);
      HandledStores(env, s.entries, ids);
      var route := if Stored(env, ids).None? then ErrorReply else Uncached(env, ids);
      assert s.phases[i := Resolving][i := Answered(route)] == s.phases[i := Answered(route)];
    }
  }

  // ---------------------------------------------------------------- how often a cluster is resolved

  /** Two requests may both miss and both resolve, also for one cluster and without an eviction. */
  lemma MissesMayOverlap(env: Env, requests: seq<ClusterIds>, i: nat, j: nat) returns (run: seq<Step>)
    requires i < |requests| && j < |requests| && i != j && requests[i].Keys() != {} && requests[j].Keys() != {}
    ensures forall step :: step in run ==> !step.Evict?
    ensures Reached(env, requests, run).Some?
    ensures var phases := Reached(env, requests, run).value.phases; phases[i].Resolving? && phases[j].Resolving?
  {
    run := Nothing(env, requests);
    run := Miss(env, requests, run, i);
    run := Miss(env, requests, run, j);
  }

  /** Request `j` is on its way to a hit: a key still to be checked is in the cache, or it has been answered from it. */
  ghost predicate WillHit(requests: seq<ClusterIds>, s: State, j: nat, k: string) {
    && |s.phases| == |requests| && j < |requests| && k in s.entries
    && match s.phases[j]
       case Checking(left) => k in left
       case Answered(route) => route.Dispatched?
       case _ => false
  }

  lemma StepKeepsHit(env: Env, requests: seq<ClusterIds>, s: State, step: Step, j: nat, k: string)
    requires Enabled(requests, s, step) && !step.Evict? && WillHit(requests, s, j, k)
    ensures WillHit(requests, Apply(env, requests, s, step), j, k)
  {
    if step == Check(j) {
      var left := s.phases[j].left;
      assert left == [left[0]] + left[1..];
    }
  }

  /**
   * A request that starts once one of its keys is stored is answered from the cache
   * and never resolved, as long as nothing is evicted.
   */
  lemma {:induction false} StoredServesLater(env: Env, requests: seq<ClusterIds>, before: seq<Step>, after: seq<Step>,
                                            j: nat, k: string)
    requires Reached(env, requests, before + after).Some? && forall step :: step in after ==> !step.Evict?
    requires Reached(env, requests, before).Some? && j < |requests| && k in requests[j].Keys()
    requires var s := Reached(env, requests, before).value;
      |s.phases| == |requests| && k in s.entries && s.phases[j] == Start(requests[j])
    ensures WillHit(requests, Reached(env, requests, before + after).value, j, k)
    decreases |after|
  {
    if after == [] {
      assert before + after == before;
    } else {
      var n := |after| - 1;
      assert (before + after)[..|before + after| - 1] == before + after[..n];
      StoredServesLater(env, requests, before, after[..n], j, k);
      StepKeepsHit(env, requests, Reached(env, requests, before + after[..n]).value, after[n], j, k);
    }
  }

  ghost predicate ResolvesAfter(env: Env, requests: seq<ClusterIds>, before: seq<Step>, after: seq<Step>, j: nat) {
    && (forall step :: step in after ==> !step.Evict?)
    && match Reached(env, requests, before + after)
       case None => false
       case Some(s) => j < |s.phases| && s.phases[j].Resolving?
  }

  /** Without a further eviction, some continuation of the run makes request `j` resolve. */
  ghost predicate MayResolve(env: Env, requests: seq<ClusterIds>, before: seq<Step>, j: nat) {
    exists after :: ResolvesAfter(env, requests, before, after, j)
  }

  /**
   * A request that has an id and has not started yet may still be resolved, without a
   * further eviction, exactly when none of its ids is stored at that moment.
   */
  lemma MayResolveExactly(env: Env, requests: seq<ClusterIds>, before: seq<Step>, j: nat)
    requires Reached(env, requests, before).Some? && j < |requests| && requests[j].Keys() != {}
    requires var s := Reached(env, requests, before).value; j < |s.phases| && s.phases[j] == Start(requests[j])
    ensures MayResolve(env, requests, before, j) <==>
      requests[j].Keys() !! Reached(env, requests, before).value.entries.Keys
  {
    hide Reached;
    RunKeepsInv(env, requests, before);
    var s := Reached(env, requests, before).value;
    if requests[j].Keys() !! s.entries.Keys {
      var run := Miss(env, requests, before, j);
      assert ResolvesAfter(env, requests, before, [Check(j), Check(j), Check(j)], j);
    } else {
      var k :| k in requests[j].Keys() && k in s.entries;
      forall after ensures !ResolvesAfter(env, requests, before, after, j) {
        if ResolvesAfter(env, requests, before, after, j) {
          StoredServesLater(env, requests, before, after, j, k);
        }
      }
    }
  }

  /**
   * At any moment any entries may vanish, and no others do.  Afterwards such a request may
   * be resolved, without a further eviction, exactly when all its stored ids have vanished.
   */
  lemma EvictingLetsResolveExactly(env: Env, requests: seq<ClusterIds>, before: seq<Step>, j: nat, keys: set<string>)
    requires Reached(env, requests, before).Some? && j < |requests| && requests[j].Keys() != {}
    requires var s := Reached(env, requests, before).value; j < |s.phases| && s.phases[j] == Start(requests[j])
    ensures var s := Reached(env, requests, before).value;
      && Reached(env, requests, before + [Evict(keys)]) == Some(State(s.entries - keys, s.phases))
      && (MayResolve(env, requests, before + [Evict(keys)], j) <==> requests[j].Keys() * s.entries.Keys <= keys)
  {
    hide MayResolve;
    RunKeepsInv(env, requests, before);
    assert (before + [Evict(keys)])[..|before|] == before;
    MayResolveExactly(env, requests, before + [Evict(keys)], j);
  }

  // ---------------------------------------------------------------- what is cached

  /** Failures included, a non-empty cached region is always the directory's answer for a request with that id. */
  lemma ConcurrentRegionsAreTheDirectorys(env: Env, requests: seq<ClusterIds>, run: seq<Step>, key: string)
    requires Reached(env, requests, run).Some? && key in Reached(env, requests, run).value.entries
    ensures var r := Reached(env, requests, run).value.entries[key];
      key != "" &&
      (r != "" ==>
        exists j :: && 0 <= j < |requests| && (key == requests[j].id || key == requests[j].externalId)
                    && NotLocal(env, requests[j]) && DirectoryHas(env, requests[j], r))
  {
    RunKeepsInv(env, requests, run);
    var s := Reached(env, requests, run).value;
    var j: nat :| Left(env, requests, s, key, s.entries[key], j);
  }
}
