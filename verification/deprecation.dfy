/** Matching request paths against deprecated endpoint patterns with `{...}` segments. */
module Deprecation {
  import opened Options
  import opened Orders
  import opened Strings

  /** A sunset date is its number of seconds; formatting it is not modelled. */
  datatype Endpoint = Endpoint(message: string, sunsetDate: int)

  const NO_ENDPOINT := Endpoint("", 0)

  function Segments(path: string): seq<string> {
    Split(Trim(path, '/'), '/')
  }

  predicate IsParameter(part: string) {
    HasPrefix(part, "{") && HasSuffix(part, "}")
  }

  /** Segment by segment: a parameter matches anything, everything else itself. */
  predicate Matches(path: string, pattern: string) {
    var p, q := Segments(path), Segments(pattern);
    |p| == |q| && forall i :: 0 <= i < |q| ==> IsParameter(q[i]) || p[i] == q[i]
  }

  method MatchesPattern(path: string, pattern: string) returns (matches: bool)
    ensures matches <==> Matches(path, pattern)
  {
    var pathParts := Segments(path);
    var patternParts := Segments(pattern);
    if |pathParts| != |patternParts| {
      return false;
    }
    for i := 0 to |patternParts|
      invariant forall j :: 0 <= j < i ==> IsParameter(patternParts[j]) || pathParts[j] == patternParts[j]
    {
      if IsParameter(patternParts[i]) {
        continue;
      }
      if pathParts[i] != patternParts[i] {
        return false;
      }
    }
    matches := true;
  }

  lemma ParameterExactly(part: string)
    ensures IsParameter(part) <==> exists name :: part == "{" + name + "}"
  {
    if IsParameter(part) {
      assert part[0] == '{' && part[|part| - 1] == '}';
      assert part == "{" + part[1..|part| - 1] + "}";
    }
    if name :| part == "{" + name + "}" {
      assert part[|part| - 1..] == "}";
    }
  }

  /** Without the outer slashes both have as many segments, equal but where the pattern's is in braces. */
  lemma MatchesSegmentwise(path: string, pattern: string)
    ensures var p, q := Split(Trim(path, '/'), '/'), Split(Trim(pattern, '/'), '/');
      Matches(path, pattern) <==>
        |p| == |q| && forall i :: 0 <= i < |q| ==> p[i] == q[i] || exists name :: q[i] == "{" + name + "}"
  {
    hide IsParameter, Split, Trim;
    var q := Split(Trim(pattern, '/'), '/');
    forall i | 0 <= i < |q| ensures IsParameter(q[i]) <==> exists name :: q[i] == "{" + name + "}" {
      ParameterExactly(q[i]);
    }
  }

  // ---------------------------------------------------------------- what matching means

  /** The pattern with a text filled in for each parameter; other entries of `fill` are ignored. */
  function Instantiate(parts: seq<string>, fill: seq<string>): (filled: seq<string>)
    requires |parts| == |fill|
    ensures |filled| == |parts|
    ensures forall i :: 0 <= i < |parts| ==> filled[i] == if IsParameter(parts[i]) then fill[i] else parts[i]
  {
    seq(|parts|, (i: nat) requires i < |parts| => if IsParameter(parts[i]) then fill[i] else parts[i])
  }

  /** `fill` gives each segment a text without a slash that turns the pattern into the path. */
  ghost predicate Fills(path: string, pattern: string, fill: seq<string>) {
    && |fill| == |Segments(pattern)|
    && (forall t :: t in fill ==> '/' !in t)
    && Trim(path, '/') == Join(Instantiate(Segments(pattern), fill), '/')
  }

  /** A path matches exactly when slash-free texts for the parameters turn the pattern into it. */
  lemma MatchesExactly(path: string, pattern: string)
    ensures Matches(path, pattern) <==> exists fill :: Fills(path, pattern, fill)
  {
    var p, q := Segments(path), Segments(pattern);
    SplitPartsLackSeparator(Trim(path, '/'), '/');
    SplitPartsLackSeparator(Trim(pattern, '/'), '/');
    if Matches(path, pattern) {
      assert Instantiate(q, p) == p;
      JoinSplit(Trim(path, '/'), '/');
      assert Fills(path, pattern, p);
    }
    if fill :| Fills(path, pattern, fill) {
      var filled := Instantiate(q, fill);
      forall t | t in filled ensures '/' !in t {
        var i :| 0 <= i < |filled| && filled[i] == t;
        assert fill[i] in fill && q[i] in q;
      }
      SplitJoin(filled, '/');
      assert p == filled;
    }
  }

  /** Leading and trailing slashes of either argument do not matter. */
  lemma SlashesDoNotMatter(path: string, pattern: string, a: nat, b: nat, c: nat, d: nat)
    ensures Matches(Repeat('/', a) + path + Repeat('/', b), Repeat('/', c) + pattern + Repeat('/', d))
        <==> Matches(path, pattern)
  {
    TrimIgnores(a, path, b, '/');
    TrimIgnores(c, pattern, d, '/');
  }

  /** Matching is reflexive, and without parameters it is equality up to outer slashes. */
  lemma MatchesItself(path: string, pattern: string)
    ensures Matches(pattern, pattern)
    ensures (forall part :: part in Segments(pattern) ==> !IsParameter(part)) ==>
      (Matches(path, pattern) <==> Trim(path, '/') == Trim(pattern, '/'))
  {
    if Matches(path, pattern) && forall part :: part in Segments(pattern) ==> !IsParameter(part) {
      assert Segments(path) == Segments(pattern);
      JoinSplit(Trim(path, '/'), '/');
      JoinSplit(Trim(pattern, '/'), '/');
    }
  }

  // ---------------------------------------------------------------- looking a path up

  type Endpoints = map<string, Endpoint>

  /** The first pattern of the list that matches. */
  function FirstMatch(path: string, order: seq<string>): (pattern: Option<string>)
    ensures pattern.Some? ==> pattern.value in order && Matches(path, pattern.value)
    ensures pattern.None? ==> forall q :: q in order ==> !Matches(path, q)
  {
    if order == [] then None
    else if Matches(path, order[0]) then Some(order[0])
    else FirstMatch(path, order[1..])
  }

  /** The lookup when the map is iterated in this order. */
  function Lookup(path: string, endpoints: Endpoints, order: seq<string>): (Endpoint, bool)
    requires forall k :: k in order ==> k in endpoints
  {
    if path in endpoints then (endpoints[path], true)
    else
      match FirstMatch(path, order)
      case None => (NO_ENDPOINT, false)
      case Some(pattern) => (endpoints[pattern], true)
  }

  /** Some iteration order of the map gives this answer. */
  ghost predicate Possible(path: string, endpoints: Endpoints, endpoint: Endpoint, found: bool) {
    exists order :: Enumerates(order, endpoints.Keys) && Lookup(path, endpoints, order) == (endpoint, found)
  }

  lemma ExactIsPossible(path: string, endpoints: Endpoints)
    requires path in endpoints
    ensures Possible(path, endpoints, endpoints[path], true)
  {
    var order := SomeOrder(endpoints.Keys);
    assert Lookup(path, endpoints, order) == (endpoints[path], true);
  }

  lemma {:induction false} FirstMatchAfter(path: string, xs: seq<string>, ys: seq<string>)
    requires forall k :: k in xs ==> !Matches(path, k)
    ensures FirstMatch(path, xs + ys) == FirstMatch(path, ys)
  {
    if xs == [] {
      assert xs + ys == ys;
    } else {
      assert (xs + ys)[1..] == xs[1..] + ys;
      FirstMatchAfter(path, xs[1..], ys);
    }
  }

  lemma HitIsPossible(path: string, endpoints: Endpoints, visited: seq<string>, left: set<string>, pattern: string)
    requires path !in endpoints && pattern in endpoints && Matches(path, pattern)
    requires left <= endpoints.Keys && pattern in left && Enumerates(visited, endpoints.Keys - left)
    requires forall k :: k in visited ==> !Matches(path, k)
    ensures Possible(path, endpoints, endpoints[pattern], true)
  {
    var ahead := OrderFrom(left, pattern);
    FirstMatchAfter(path, visited, ahead);
    EnumeratesConcat(visited, ahead, endpoints.Keys - left, left);
    assert endpoints.Keys - left + left == endpoints.Keys;
    assert Lookup(path, endpoints, visited + ahead) == (endpoints[pattern], true);
  }

  lemma MissIsPossible(path: string, endpoints: Endpoints, visited: seq<string>)
    requires path !in endpoints && Enumerates(visited, endpoints.Keys)
    requires forall k :: k in visited ==> !Matches(path, k)
    ensures Possible(path, endpoints, NO_ENDPOINT, false)
  {
    assert Lookup(path, endpoints, visited) == (NO_ENDPOINT, false);
  }

  method MatchDeprecatedEndpoint(path: string, endpoints: Endpoints) returns (endpoint: Endpoint, found: bool)
    ensures Possible(path, endpoints, endpoint, found)
  {
    hide Possible, Lookup, Matches;
    if path in endpoints {
      ExactIsPossible(path, endpoints);
      return endpoints[path], true;
    }
    var left := endpoints.Keys;
    ghost var visited: seq<string> := [];
    while left != {}
      invariant left <= endpoints.Keys && Enumerates(visited, endpoints.Keys - left)
      invariant forall k :: k in visited ==> !Matches(path, k)
    {
      var pattern :| pattern in left;
      var matches := MatchesPattern(path, pattern);
      if matches {
        HitIsPossible(path, endpoints, visited, left, pattern);
        return endpoints[pattern], true;
      }
      EnumeratesOne(pattern);
      EnumeratesConcat(visited, [pattern], endpoints.Keys - left, {pattern});
      assert endpoints.Keys - left + {pattern} == endpoints.Keys - (left - {pattern});
      visited := visited + [pattern];
      left := left - {pattern};
    }
    MissIsPossible(path, endpoints, visited);
    endpoint, found := NO_ENDPOINT, false;
  }

  /**
   * Whether a path is deprecated does not depend on the map's order, and an exact key always wins.
   */
  lemma FoundWhateverTheOrder(path: string, endpoints: Endpoints, order: seq<string>)
    requires Enumerates(order, endpoints.Keys)
    ensures Lookup(path, endpoints, order).1 <==> exists k :: k in endpoints && Matches(path, k)
    ensures path in endpoints ==> Lookup(path, endpoints, order) == (endpoints[path], true)
  {
    MatchesItself(path, path);
  }

  /** Without an exact key, the endpoint is that of the first pattern, in this order, that matches. */
  lemma LookupExactly(path: string, endpoints: Endpoints, order: seq<string>, i: nat)
    requires Enumerates(order, endpoints.Keys) && path !in endpoints
    ensures (forall k :: k in endpoints ==> !Matches(path, k)) ==>
      Lookup(path, endpoints, order) == (Endpoint("", 0), false)
    ensures i < |order| && Matches(path, order[i]) && (forall j :: 0 <= j < i ==> !Matches(path, order[j])) ==>
      order[i] in endpoints && Lookup(path, endpoints, order) == (endpoints[order[i]], true)
  {
    hide Matches;
    if i < |order| && Matches(path, order[i]) && forall j :: 0 <= j < i ==> !Matches(path, order[j]) {
      assert order[i] in order;
      assert order == order[..i] + order[i..] && order[i..][0] == order[i];
      FirstMatchAfter(path, order[..i], order[i..]);
    }
  }

  /** All patterns that match lead to the same endpoint. */
  ghost predicate Unambiguous(path: string, endpoints: Endpoints) {
    forall k, l :: k in endpoints && l in endpoints && Matches(path, k) && Matches(path, l) ==>
      endpoints[k] == endpoints[l]
  }

  ghost predicate OrderIndependent(path: string, endpoints: Endpoints) {
    forall p, q :: Enumerates(p, endpoints.Keys) && Enumerates(q, endpoints.Keys) ==>
      Lookup(path, endpoints, p) == Lookup(path, endpoints, q)
  }

  lemma UnambiguousLookups(path: string, endpoints: Endpoints, p: seq<string>, q: seq<string>)
    requires Enumerates(p, endpoints.Keys) && Enumerates(q, endpoints.Keys)
    requires path in endpoints || Unambiguous(path, endpoints)
    ensures Lookup(path, endpoints, p) == Lookup(path, endpoints, q)
  {
    if path !in endpoints {
      FoundWhateverTheOrder(path, endpoints, p);
      FoundWhateverTheOrder(path, endpoints, q);
    }
  }

  /** Starting the iteration at a matching pattern finds its endpoint. */
  lemma LookupFrom(path: string, endpoints: Endpoints, k: string) returns (order: seq<string>)
    requires path !in endpoints && k in endpoints && Matches(path, k)
    ensures Enumerates(order, endpoints.Keys) && Lookup(path, endpoints, order) == (endpoints[k], true)
  {
    order := OrderFrom(endpoints.Keys, k);
  }

  /** The endpoint found is independent of the order exactly when there is an exact key or no ambiguity. */
  lemma EndpointOrderIndependentExactly(path: string, endpoints: Endpoints)
    ensures OrderIndependent(path, endpoints) <==> (path in endpoints || Unambiguous(path, endpoints))
  {
    if path in endpoints || Unambiguous(path, endpoints) {
      forall p, q | Enumerates(p, endpoints.Keys) && Enumerates(q, endpoints.Keys)
        ensures Lookup(path, endpoints, p) == Lookup(path, endpoints, q)
      {
        UnambiguousLookups(path, endpoints, p, q);
      }
    } else {
      var k, l :| k in endpoints && l in endpoints && Matches(path, k) && Matches(path, l) &&
        endpoints[k] != endpoints[l];
      var p := LookupFrom(path, endpoints, k);
      var q := LookupFrom(path, endpoints, l);
      assert Lookup(path, endpoints, p) != Lookup(path, endpoints, q);
    }
  }
}
