/** Iteration orders of maps and sets of names. */
module Orders {
  function SetOf(xs: seq<string>): set<string> { set x | x in xs }

  /** An iteration order over these keys takes each of them once. */
  ghost predicate Enumerates(order: seq<string>, keys: set<string>) {
    && (forall k :: k in order <==> k in keys)
    && forall i, j :: 0 <= i < j < |order| ==> order[i] != order[j]
  }

  lemma EnumeratesConcat(xs: seq<string>, ys: seq<string>, a: set<string>, b: set<string>)
    requires Enumerates(xs, a) && Enumerates(ys, b) && a !! b
    ensures Enumerates(xs + ys, a + b)
  {
    var order := xs + ys;
    forall i, j | 0 <= i < j < |order| ensures order[i] != order[j] {
      if i < |xs| <= j {
        assert order[i] in xs && order[j] in ys;
      }
    }
  }

  lemma EnumeratesOne(k: string)
    ensures Enumerates([k], {k})
  {
  }

  lemma {:induction false} EnumeratesAll(order: seq<string>, keys: set<string>)
    requires Enumerates(order, keys)
    ensures |order| == |keys|
  {
    if order != [] {
      var n := |order| - 1;
      var last, rest := order[n], order[..n];
      assert order == rest + [last] && last in order;
      assert forall i :: 0 <= i < n ==> rest[i] != last;
      EnumeratesAll(rest, keys - {last});
    }
  }

  /** The parts of an order are orders of disjoint parts of the keys. */
  lemma EnumeratesParts(xs: seq<string>, ys: seq<string>, keys: set<string>)
    requires Enumerates(xs + ys, keys)
    ensures Enumerates(xs, SetOf(xs)) && Enumerates(ys, SetOf(ys))
    ensures SetOf(xs) !! SetOf(ys) && SetOf(xs) + SetOf(ys) == keys
  {
    var order := xs + ys;
    forall i, j | 0 <= i < |xs| && 0 <= j < |ys| ensures xs[i] != ys[j] {
      assert order[i] == xs[i] && order[|xs| + j] == ys[j];
    }
    forall i, j | 0 <= i < j < |ys| ensures ys[i] != ys[j] {
      assert order[|xs| + i] == ys[i] && order[|xs| + j] == ys[j];
    }
    forall i, j | 0 <= i < j < |xs| ensures xs[i] != xs[j] {
      assert order[i] == xs[i] && order[j] == xs[j];
    }
    forall k ensures k in keys <==> k in xs || k in ys {
      assert k in order <==> k in xs || k in ys;
    }
  }

  lemma SetOfOne(k: string)
    ensures SetOf([k]) == {k}
  {
  }

  lemma SetOfMembers(xs: seq<string>)
    ensures forall k :: k in xs <==> k in SetOf(xs)
  {
  }

  lemma KeyAt(order: seq<string>, keys: set<string>, k: string) returns (i: nat)
    requires Enumerates(order, keys) && k in keys
    ensures i < |order| && order[i] == k
  {
    i :| 0 <= i < |order| && order[i] == k;
  }

  /** An order around one of its keys. */
  lemma Around(order: seq<string>, keys: set<string>, k: string) returns (before: seq<string>, after: seq<string>)
    requires Enumerates(order, keys) && k in keys
    ensures order == before + ([k] + after)
    ensures forall l :: l in before || l in after ==> l in keys && l != k
    ensures Enumerates(before, SetOf(before)) && Enumerates(after, SetOf(after))
    ensures SetOf(before) !! SetOf(after) && SetOf(before) + {k} + SetOf(after) == keys
  {
    hide Enumerates, SetOf;
    var i := KeyAt(order, keys, k);
    before, after := order[..i], order[i + 1..];
    assert order == before + ([k] + after);
    EnumeratesParts(before, [k] + after, keys);
    EnumeratesParts([k], after, SetOf([k] + after));
    SetOfOne(k);
    SetOfMembers(before);
    SetOfMembers(after);
  }

  lemma EnumeratedKeys(order: seq<string>, keys: set<string>)
    requires Enumerates(order, keys)
    ensures forall k :: k in order <==> k in keys
  {
  }

  /** What is left of an order after its first key. */
  lemma EnumeratesRest(order: seq<string>, keys: set<string>)
    requires Enumerates(order, keys) && order != []
    ensures order[0] in keys && Enumerates(order[1..], keys - {order[0]})
  {
    assert order == [order[0]] + order[1..];
    EnumeratesParts([order[0]], order[1..], keys);
    SetOfOne(order[0]);
    SetOfMembers(order[1..]);
  }

  ghost function SomeOrder(keys: set<string>): (order: seq<string>)
    ensures Enumerates(order, keys)
  {
    if keys == {} then []
    else
      var k :| k in keys;
      EnumeratesOne(k);
      EnumeratesConcat([k], SomeOrder(keys - {k}), {k}, keys - {k});
      assert {k} + (keys - {k}) == keys;
      [k] + SomeOrder(keys - {k})
  }

  /** Any of the keys may come first. */
  lemma OrderFrom(keys: set<string>, k: string) returns (order: seq<string>)
    requires k in keys
    ensures Enumerates(order, keys) && order[0] == k
  {
    EnumeratesOne(k);
    order := [k] + SomeOrder(keys - {k});
    EnumeratesConcat([k], SomeOrder(keys - {k}), {k}, keys - {k});
    assert {k} + (keys - {k}) == keys;
  }

  /** Any two of the keys may come last, in either order. */
  lemma OrdersUpTo(keys: set<string>, k: string, l: string) returns (first: seq<string>)
    requires k in keys && l in keys && k != l
    ensures Enumerates(first + [k, l], keys) && Enumerates(first + [l, k], keys)
  {
    var others := keys - {k, l};
    first := SomeOrder(others);
    assert others + {k, l} == keys;
    assert Enumerates([k, l], {k, l}) && Enumerates([l, k], {k, l});
    EnumeratesConcat(first, [k, l], others, {k, l});
    EnumeratesConcat(first, [l, k], others, {k, l});
  }

  /** Any three of the keys may come last. */
  lemma OrdersUpToThree(keys: set<string>, k: string, l: string, m: string) returns (first: seq<string>)
    requires {k, l, m} <= keys && k != l && k != m && l != m
    ensures Enumerates(first + [k, l, m], keys) && Enumerates(first + [k, m, l], keys)
  {
    var others := keys - {k, l, m};
    first := SomeOrder(others);
    assert others + {k, l, m} == keys;
    assert Enumerates([k, l, m], {k, l, m}) && Enumerates([k, m, l], {k, l, m});
    EnumeratesConcat(first, [k, l, m], others, {k, l, m});
    EnumeratesConcat(first, [k, m, l], others, {k, l, m});
  }
}
