/** The label index of a test suite: how `Add` builds it and how a run flattens it. */
module Suites {
  import opened Options
  import opened Orders
  import opened Samples

  const ALL := "all"
  const ERRORTEST := "error"

  type Index = map<string, map<string, TestCase>>

  function Bucket(tests: Index, l: string): map<string, TestCase> {
    if l in tests then tests[l] else map[]
  }

  // ---------------------------------------------------------------- adding

  /** The label loop of `Add`; `None` when it finds the name already there and halts the process. */
  function Labelled(tests: Index, tc: TestCase, labels: seq<string>): Option<Index>
    decreases |labels|
  {
    if labels == [] then Some(tests)
    else
      var bucket := Bucket(tests, labels[0]);
      if tc.name in bucket then None
      else Labelled(tests[labels[0] := bucket[tc.name := tc]], tc, labels[1..])
  }

  function Added(tests: Index, tc: TestCase): Option<Index> {
    var bucket := Bucket(tests, ALL);
    if tc.name in bucket then None
    else
      Labelled(tests[ALL := if tc.name != ERRORTEST then bucket[tc.name := tc] else bucket], tc, tc.labels)
  }

  /** Adding cases one after the other; `None` once any of them halts. */
  function AddedAll(tests: Index, cases: seq<TestCase>): Option<Index> {
    if cases == [] then Some(tests)
    else
      match AddedAll(tests, cases[..|cases| - 1])
      case None => None
      case Some(before) => Added(before, cases[|cases| - 1])
  }

  lemma {:induction false} AddedAllStops(tests: Index, cases: seq<TestCase>, k: nat)
    requires k <= |cases| && AddedAll(tests, cases[..k]).None?
    ensures AddedAll(tests, cases).None?
    decreases |cases| - k
  {
    if k < |cases| {
      assert cases[..k + 1][..k] == cases[..k];
      AddedAllStops(tests, cases, k + 1);
    } else {
      assert cases[..k] == cases;
    }
  }

  /** Earlier labels win. */
  function Flattened(tests: Index, labels: seq<string>): map<string, TestCase> {
    if labels == [] then map[]
    else Bucket(tests, labels[|labels| - 1]) + Flattened(tests, labels[..|labels| - 1])
  }

  class TestSuite {
    var tests: Index

    constructor ()
      ensures tests == map[]
    {
      tests := map[];
    }

    method Add(tc: TestCase) returns (halted: bool)
      modifies this
      ensures halted <==> Added(old(tests), tc).None?
      ensures !halted ==> tests == Added(old(tests), tc).value
    {
      if ALL !in tests {
        tests := tests[ALL := map[]];
      }
      if tc.name in tests[ALL] {
        return true;
      }
      if tc.name != ERRORTEST {
        tests := tests[ALL := tests[ALL][tc.name := tc]];
      }
      ghost var start := tests;
      assert start == old(tests)[ALL := start[ALL]];
      var i := 0;
      while i < |tc.labels|
        invariant i <= |tc.labels|
        invariant Labelled(start, tc, tc.labels) == Labelled(tests, tc, tc.labels[i..])
      {
        var l := tc.labels[i];
        assert tc.labels[i..][0] == l && tc.labels[i..][1..] == tc.labels[i + 1..];
        if l !in tests {
          ghost var bare := tests;
          tests := tests[l := map[]];
          assert Bucket(bare, l) == tests[l] && bare[l := map[tc.name := tc]] == tests[l := map[tc.name := tc]];
        }
        if tc.name in tests[l] {
          return true;
        }
        tests := tests[l := tests[l][tc.name := tc]];
        i := i + 1;
      }
      halted := false;
    }

    method AddTestCases(cases: seq<TestCase>) returns (halted: bool)
      modifies this
      ensures halted <==> AddedAll(old(tests), cases).None?
      ensures !halted ==> tests == AddedAll(old(tests), cases).value
    {
      for i := 0 to |cases|
        invariant AddedAll(old(tests), cases[..i]) == Some(tests)
      {
        assert cases[..i + 1][..i] == cases[..i];
        halted := Add(cases[i]);
        if halted {
          AddedAllStops(old(tests), cases, i + 1);
          return;
        }
      }
      assert cases[..|cases|] == cases;
      halted := false;
    }

    /** The flattening at the start of a run. The inner loop takes a bucket's names in any order. */
    method Flatten(labels: seq<string>) returns (cases: map<string, TestCase>)
      ensures cases == Flattened(tests, labels)
    {
      cases := map[];
      for i := 0 to |labels|
        invariant cases == Flattened(tests, labels[..i])
      {
        ghost var before := cases;
        assert labels[..i + 1][..i] == labels[..i];
        if labels[i] in tests {
          var bucket := tests[labels[i]];
          var names := bucket.Keys;
          while names != {}
            invariant names <= bucket.Keys
            invariant cases == (map n | n in bucket.Keys - names :: bucket[n]) + before
          {
            var n :| n in names;
            if n !in cases {
              cases := cases[n := bucket[n]];
            }
            names := names - {n};
          }
          assert (map n | n in bucket.Keys - {} :: bucket[n]) == bucket;
        }
      }
      assert labels[..|labels|] == labels;
    }
  }

  // ---------------------------------------------------------------- what the index means

  /** A case belongs under its own labels, and under "all" unless it is the error test. */
  predicate Belongs(tc: TestCase, l: string) {
    l in tc.labels || (l == ALL && tc.name != ERRORTEST)
  }

  lemma {:induction false} LabelledMeaning(tests: Index, tc: TestCase, labels: seq<string>, l: string)
    requires Labelled(tests, tc, labels).Some?
    ensures Bucket(Labelled(tests, tc, labels).value, l) ==
            if l in labels then Bucket(tests, l)[tc.name := tc] else Bucket(tests, l)
    decreases |labels|
  {
    if labels != [] {
      var next := tests[labels[0] := Bucket(tests, labels[0])[tc.name := tc]];
      LabelledMeaning(next, tc, labels[1..], l);
      assert Bucket(next, l) == if l == labels[0] then Bucket(tests, l)[tc.name := tc] else Bucket(tests, l);
    }
  }

  lemma AddedMeaning(tests: Index, tc: TestCase, l: string)
    requires Added(tests, tc).Some?
    ensures Bucket(Added(tests, tc).value, l) ==
            if Belongs(tc, l) then Bucket(tests, l)[tc.name := tc] else Bucket(tests, l)
  {
    var bucket := Bucket(tests, ALL);
    var start := tests[ALL := if tc.name != ERRORTEST then bucket[tc.name := tc] else bucket];
    LabelledMeaning(start, tc, tc.labels, l);
  }

  /** The same on the maps themselves: where an addition puts the case, and what it leaves alone. */
  lemma AddedPlaces(tests: Index, tc: TestCase, l: string, n: string)
    requires Added(tests, tc).Some?
    ensures var after := Added(tests, tc).value;
      if n == tc.name && (l in tc.labels || (l == "all" && n != "error")) then
        l in after && n in after[l] && after[l][n] == tc
      else
        && (l in after && n in after[l] <==> l in tests && n in tests[l])
        && (l in tests && n in tests[l] ==> after[l][n] == tests[l][n])
  {
    AddedMeaning(tests, tc, l);
    assert n in Bucket(Added(tests, tc).value, l) <==> l in Added(tests, tc).value && n in Added(tests, tc).value[l];
  }

  /** A label list in which no label occurs twice. */
  predicate Distinct(labels: seq<string>) {
    forall i, j :: 0 <= i < j < |labels| ==> labels[i] != labels[j]
  }

  lemma DistinctRest(labels: seq<string>)
    requires labels != []
    ensures Distinct(labels) <==> Distinct(labels[1..]) && labels[0] !in labels[1..]
  {
    var rest := labels[1..];
    if Distinct(rest) && labels[0] !in rest {
      assert forall j :: 0 < j < |labels| ==> labels[j] in rest;
    }
    if Distinct(labels) {
      assert forall j :: 0 <= j < |rest| ==> rest[j] == labels[j + 1];
    }
  }

  lemma {:induction false} LabelledHalts(tests: Index, tc: TestCase, labels: seq<string>)
    ensures Labelled(tests, tc, labels).Some? <==>
            Distinct(labels) && forall l :: l in labels ==> tc.name !in Bucket(tests, l)
    decreases |labels|
  {
    if labels != [] {
      hide Distinct;
      var l0, rest := labels[0], labels[1..];
      var next := tests[l0 := Bucket(tests, l0)[tc.name := tc]];
      LabelledHalts(next, tc, rest);
      assert forall l :: l != l0 ==> Bucket(next, l) == Bucket(tests, l);
      assert labels == [l0] + rest;
      DistinctRest(labels);
      if tc.name !in Bucket(tests, l0) {
        assert l0 in rest ==> tc.name in Bucket(next, l0);
      }
    }
  }

  /**
   * Exactly when `Add` halts: the name is taken under "all" or under one of the
   * case's labels, a label is repeated, or a case other than the error test lists
   * "all" itself.
   */
  lemma AddHaltsExactly(tests: Index, tc: TestCase)
    ensures Added(tests, tc).None? <==>
      || ("all" in tests && tc.name in tests["all"])
      || !Distinct(tc.labels)
      || ("all" in tc.labels && tc.name != "error")
      || (exists l :: l in tc.labels && l in tests && tc.name in tests[l])
  {
    var bucket := Bucket(tests, ALL);
    if tc.name !in bucket {
      var start := tests[ALL := if tc.name != ERRORTEST then bucket[tc.name := tc] else bucket];
      LabelledHalts(start, tc, tc.labels);
      assert forall l :: l != ALL ==> Bucket(start, l) == Bucket(tests, l);
      assert tc.name in Bucket(start, ALL) <==> tc.name != ERRORTEST;
    }
  }

  /** Starting empty, a bucket holds exactly the added cases that belong there, under their own names. */
  lemma {:induction false} IndexHoldsAdded(cases: seq<TestCase>, l: string)
    requires AddedAll(map[], cases).Some?
    ensures var bucket := Bucket(AddedAll(map[], cases).value, l);
      && (forall i :: 0 <= i < |cases| && Belongs(cases[i], l) ==>
           cases[i].name in bucket && bucket[cases[i].name] == cases[i])
      && (forall n :: n in bucket ==>
           exists i :: 0 <= i < |cases| && Belongs(cases[i], l) && cases[i].name == n)
  {
    if cases != [] {
      var k := |cases| - 1;
      var before, tc := cases[..k], cases[k];
      IndexHoldsAdded(before, l);
      var tests := AddedAll(map[], before).value;
      AddedMeaning(tests, tc, l);
      AddHaltsExactly(tests, tc);
      var bucket := Bucket(Added(tests, tc).value, l);
      forall i | 0 <= i < |cases| && Belongs(cases[i], l)
        ensures cases[i].name in bucket && bucket[cases[i].name] == cases[i]
      {
        if i < k {
          assert before[i] == cases[i] && Belongs(before[i], l);
          if Belongs(tc, l) {
            assert tc.name !in Bucket(tests, l);
          }
        }
      }
      forall n | n in bucket ensures exists i :: 0 <= i < |cases| && Belongs(cases[i], l) && cases[i].name == n {
        if n in Bucket(tests, l) {
          var i :| 0 <= i < |before| && Belongs(before[i], l) && before[i].name == n;
          assert cases[i] == before[i];
        } else {
          assert cases[k].name == n;
        }
      }
    }
  }

  predicate ConsistentAt(tests: Index, l: string, n: string) {
    n in Bucket(tests, l) ==>
      && Bucket(tests, l)[n].name == n
      && (n != ERRORTEST ==> n in Bucket(tests, ALL) && Bucket(tests, ALL)[n] == Bucket(tests, l)[n])
  }

  ghost predicate Consistent(tests: Index) {
    forall l, n :: ConsistentAt(tests, l, n)
  }

  /** Every sequence of additions that does not halt keeps the index consistent. */
  lemma AdditionsAreConsistent(cases: seq<TestCase>)
    requires AddedAll(map[], cases).Some?
    ensures Consistent(AddedAll(map[], cases).value)
  {
    var tests := AddedAll(map[], cases).value;
    IndexHoldsAdded(cases, ALL);
    forall l, n | n in Bucket(tests, l) ensures ConsistentAt(tests, l, n) {
      IndexHoldsAdded(cases, l);
      var i :| 0 <= i < |cases| && Belongs(cases[i], l) && cases[i].name == n;
      if n != ERRORTEST {
        assert Belongs(cases[i], ALL);
      }
    }
  }

  // ---------------------------------------------------------------- flattening

  predicate FirstWith(tests: Index, labels: seq<string>, n: string, i: int) {
    && 0 <= i < |labels| && n in Bucket(tests, labels[i])
    && forall j :: 0 <= j < i ==> n !in Bucket(tests, labels[j])
  }

  /** A name is selected when some label has it, with the case of the first label that has it. */
  lemma {:induction false} FlattenedMeaning(tests: Index, labels: seq<string>, n: string)
    ensures n in Flattened(tests, labels) <==> exists i :: 0 <= i < |labels| && n in Bucket(tests, labels[i])
    ensures forall i :: FirstWith(tests, labels, n, i) ==> Flattened(tests, labels)[n] == Bucket(tests, labels[i])[n]
  {
    hide Bucket;
    if labels != [] {
      var k := |labels| - 1;
      var before := labels[..k];
      FlattenedMeaning(tests, before, n);
      assert forall j :: 0 <= j < k ==> before[j] == labels[j];
      assert forall j :: 0 <= j < k ==> (n in Bucket(tests, before[j]) <==> n in Bucket(tests, labels[j]));
      forall i | FirstWith(tests, labels, n, i) ensures Flattened(tests, labels)[n] == Bucket(tests, labels[i])[n] {
        if i < k {
          assert FirstWith(tests, before, n, i);
        }
      }
    }
  }

  /** The same on the maps themselves. */
  lemma SelectedExactly(tests: Index, labels: seq<string>, n: string)
    ensures n in Flattened(tests, labels) <==> exists l :: l in labels && l in tests && n in tests[l]
    ensures forall i | 0 <= i < |labels| && labels[i] in tests && n in tests[labels[i]] ::
      (forall j :: 0 <= j < i ==> !(labels[j] in tests && n in tests[labels[j]])) ==>
        n in Flattened(tests, labels) && Flattened(tests, labels)[n] == tests[labels[i]][n]
  {
    FlattenedMeaning(tests, labels, n);
    assert forall l :: n in Bucket(tests, l) <==> l in tests && n in tests[l];
    forall i | 0 <= i < |labels| && labels[i] in tests && n in tests[labels[i]] &&
      (forall j :: 0 <= j < i ==> !(labels[j] in tests && n in tests[labels[j]]))
      ensures n in Flattened(tests, labels) && Flattened(tests, labels)[n] == tests[labels[i]][n]
    {
      assert FirstWith(tests, labels, n, i);
    }
  }

  /** The labels that hold an error test all hold the same one. */
  ghost predicate OneErrorTest(tests: Index, labels: set<string>) {
    forall l, m :: l in labels && m in labels && ERRORTEST in Bucket(tests, l) && ERRORTEST in Bucket(tests, m) ==>
      Bucket(tests, l)[ERRORTEST] == Bucket(tests, m)[ERRORTEST]
  }

  lemma {:induction false} FlattenedFrom(tests: Index, labels: seq<string>, n: string)
    requires n in Flattened(tests, labels)
    ensures exists l :: l in labels && n in Bucket(tests, l) && Flattened(tests, labels)[n] == Bucket(tests, l)[n]
  {
    var k := |labels| - 1;
    if n in Flattened(tests, labels[..k]) {
      FlattenedFrom(tests, labels[..k], n);
    } else {
      assert labels[k] in labels;
    }
  }

  lemma SameLabelsSelect(tests: Index, xs: seq<string>, ys: seq<string>, n: string)
    requires SetOf(xs) == SetOf(ys) && n in Flattened(tests, xs)
    ensures n in Flattened(tests, ys)
  {
    hide Flattened, Bucket;
    FlattenedMeaning(tests, xs, n);
    FlattenedMeaning(tests, ys, n);
    var i :| 0 <= i < |xs| && n in Bucket(tests, xs[i]);
    assert xs[i] in SetOf(xs) && xs[i] in ys;
    var j :| 0 <= j < |ys| && ys[j] == xs[i];
  }

  lemma SameLabelsSameCase(tests: Index, xs: seq<string>, ys: seq<string>, n: string)
    requires Consistent(tests) && SetOf(xs) == SetOf(ys) && OneErrorTest(tests, SetOf(xs))
    requires n in Flattened(tests, xs) && n in Flattened(tests, ys)
    ensures Flattened(tests, xs)[n] == Flattened(tests, ys)[n]
  {
    hide Flattened, Bucket;
    FlattenedFrom(tests, xs, n);
    FlattenedFrom(tests, ys, n);
    var l :| l in xs && n in Bucket(tests, l) && Flattened(tests, xs)[n] == Bucket(tests, l)[n];
    var m :| m in ys && n in Bucket(tests, m) && Flattened(tests, ys)[n] == Bucket(tests, m)[n];
    assert l in SetOf(xs) && m in SetOf(ys);
    assert ConsistentAt(tests, l, n) && ConsistentAt(tests, m, n);
  }

  lemma SameLabelsSameCases(tests: Index, xs: seq<string>, ys: seq<string>)
    requires Consistent(tests) && SetOf(xs) == SetOf(ys) && OneErrorTest(tests, SetOf(xs))
    ensures Flattened(tests, xs) == Flattened(tests, ys)
  {
    hide Flattened, OneErrorTest, Consistent;
    forall n ensures n in Flattened(tests, xs) <==> n in Flattened(tests, ys) {
      if n in Flattened(tests, xs) {
        SameLabelsSelect(tests, xs, ys, n);
      }
      if n in Flattened(tests, ys) {
        SameLabelsSelect(tests, ys, xs, n);
      }
    }
    forall n | n in Flattened(tests, xs) ensures Flattened(tests, xs)[n] == Flattened(tests, ys)[n] {
      SameLabelsSameCase(tests, xs, ys, n);
    }
  }

  /** A list of the labels that begins with a chosen one. */
  lemma SomeOrderFrom(tests: Index, labels: set<string>, l: string) returns (xs: seq<string>)
    requires l in labels && ERRORTEST in Bucket(tests, l)
    ensures SetOf(xs) == labels
    ensures ERRORTEST in Flattened(tests, xs) && Flattened(tests, xs)[ERRORTEST] == Bucket(tests, l)[ERRORTEST]
  {
    xs := OrderFrom(labels, l);
    FlattenedMeaning(tests, xs, ERRORTEST);
    assert FirstWith(tests, xs, ERRORTEST, 0);
  }

  /**
   * The cases a run selects depend only on which labels are listed, not on their
   * order or repetition, exactly when those labels agree on the error test.
   */
  lemma FlattenOrderIndependentExactly(tests: Index, labels: set<string>)
    requires Consistent(tests)
    ensures OneErrorTest(tests, labels) <==>
      forall xs, ys :: SetOf(xs) == labels && SetOf(ys) == labels ==> Flattened(tests, xs) == Flattened(tests, ys)
  {
    if OneErrorTest(tests, labels) {
      forall xs, ys | SetOf(xs) == labels && SetOf(ys) == labels
        ensures Flattened(tests, xs) == Flattened(tests, ys)
      {
        SameLabelsSameCases(tests, xs, ys);
      }
    } else {
      var l, m :| l in labels && m in labels && ERRORTEST in Bucket(tests, l) && ERRORTEST in Bucket(tests, m) &&
        Bucket(tests, l)[ERRORTEST] != Bucket(tests, m)[ERRORTEST];
      var xs := SomeOrderFrom(tests, labels, l);
      var ys := SomeOrderFrom(tests, labels, m);
      assert Flattened(tests, xs) != Flattened(tests, ys);
    }
  }
}
