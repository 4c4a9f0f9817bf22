/**
 * The region proxy: requests are routed by a local check and a remote directory,
 * behind a cache with two keys per cluster.
 *
 * The cache may lose any entries before any of its operations, which covers its
 * size limit and its expiry.  The local check and the directory are oracles that
 * answer alike throughout a run.
 */
module RegionProxy {
  import opened Options

  datatype ClusterIds = ClusterIds(id: string, externalId: string) {
    function Keys(): set<string> { {id, externalId} - {""} }
  }

  datatype LocalReply = LocalError | Local(isLocal: bool)
  datatype Lookup = LookupError | Region(rhRegionId: string)

  datatype Env = Env(local: Option<ClusterIds -> LocalReply>, byId: string -> Lookup, byExternalId: string -> Lookup)

  datatype Route = Next | ErrorReply | Dispatched(rhRegionId: string)

  /** Where the default dispatcher sends a request: an empty region means the next handler. */
  function Target(route: Route): Route {
    if route == Dispatched("") then Next else route
  }

  /** The directory is searched by id, or by external id when there is no id. */
  function GetRhRegionId(env: Env, ids: ClusterIds): Lookup {
    if ids.id != "" then env.byId(ids.id) else env.byExternalId(ids.externalId)
  }

  function CheckLocal(env: Env, ids: ClusterIds): LocalReply {
    match env.local
    case None => Local(false)
    case Some(check) => check(ids)
  }

  /** Routing without a cache. */
  function Uncached(env: Env, ids: ClusterIds): Route {
    if ids.id == "" && ids.externalId == "" then Next
    else
      match CheckLocal(env, ids)
      case LocalError => ErrorReply
      case Local(true) => Next
      case Local(false) =>
        match GetRhRegionId(env, ids)
        case LookupError => ErrorReply
        case Region(r) => Dispatched(r)
  }

  /** The local check lets the request through to the directory. */
  predicate NotLocal(env: Env, ids: ClusterIds) {
    env.local.None? || env.local.value(ids) == Local(false)
  }

  /** The directory gives this region for the id, or for the external id when there is no id. */
  predicate DirectoryHas(env: Env, ids: ClusterIds, r: string) {
    if ids.id != "" then env.byId(ids.id) == Region(r) else env.byExternalId(ids.externalId) == Region(r)
  }

  /** Routing by the oracles alone: no id, a local error, a local cluster, and the directory by id or external id. */
  lemma UncachedExactly(env: Env, ids: ClusterIds)
    ensures ids == ClusterIds("", "") ==> Uncached(env, ids) == Next
    ensures ids != ClusterIds("", "") && env.local.Some? && env.local.value(ids) == LocalError ==>
      Uncached(env, ids) == ErrorReply
    ensures env.local.Some? && env.local.value(ids) == Local(true) && ids != ClusterIds("", "") ==>
      Uncached(env, ids) == Next
    ensures NotLocal(env, ids) && ids.id != "" ==>
      match env.byId(ids.id)
      case LookupError => Uncached(env, ids) == ErrorReply
      case Region(r) => Uncached(env, ids) == Dispatched(r)
    ensures NotLocal(env, ids) && ids.id == "" && ids.externalId != "" ==>
      match env.byExternalId(ids.externalId)
      case LookupError => Uncached(env, ids) == ErrorReply
      case Region(r) => Uncached(env, ids) == Dispatched(r)
    ensures Target(Dispatched("")) == Next && forall r :: r != "" ==> Target(Dispatched(r)) == Dispatched(r)
    ensures Target(Next) == Next && Target(ErrorReply) == ErrorReply
  {
  }

  // ---------------------------------------------------------------- the cache

  type Evictions = nat -> set<string>

  datatype Cache = Cache(entries: map<string, string>, clock: nat)

  const EMPTY := Cache(map[], 0)

  /** What is left when the next operation starts. */
  function Before(c: Cache, gone: Evictions): Cache {
    Cache(c.entries - gone(c.clock), c.clock + 1)
  }

  function Checked(c: Cache, gone: Evictions, ids: seq<string>): (Cache, Option<string>)
    decreases |ids|
  {
    if ids == [] then (c, None)
    else
      var c1 := Before(c, gone);
      if ids[0] in c1.entries then (c1, Some(c1.entries[ids[0]])) else Checked(c1, gone, ids[1..])
  }

  function Updated(c: Cache, gone: Evictions, rhRegionId: string, ids: seq<string>): Cache
    decreases |ids|
  {
    if ids == [] then c
    else if ids[0] == "" then Updated(c, gone, rhRegionId, ids[1..])
    else
      var c1 := Before(c, gone);
      Updated(c1.(entries := c1.entries[ids[0] := rhRegionId]), gone, rhRegionId, ids[1..])
  }

  /** What a resolved request leaves in the cache; nothing after a local error. A failed lookup leaves "". */
  function Stored(env: Env, ids: ClusterIds): Option<string> {
    match CheckLocal(env, ids)
    case LocalError => None
    case Local(true) => Some("")
    case Local(false) =>
      match GetRhRegionId(env, ids)
      case LookupError => Some("")
      case Region(r) => Some(r)
  }

  /** One request: the cache afterwards, the route, and whether the request had to be resolved. */
  function Handled(env: Env, gone: Evictions, c: Cache, ids: ClusterIds): (Cache, Route, bool) {
    if ids.id == "" && ids.externalId == "" then (c, Next, false)
    else
      var keys := [ids.id, ids.externalId];
      match Checked(c, gone, keys)
      case (c1, Some(r)) => (c1, Dispatched(r), false)
      case (c1, None) =>
        match Stored(env, ids)
        case None => (c1, ErrorReply, true)
        case Some(r) => (Updated(c1, gone, r, keys), Uncached(env, ids), true)
  }

  /** What a request that has an id leaves behind when resolved, by the oracles' answers alone. */
  lemma StoredExactly(env: Env, ids: ClusterIds)
    ensures env.local.Some? && env.local.value(ids) == LocalError ==> Stored(env, ids) == None
    ensures env.local.Some? && env.local.value(ids) == Local(true) ==> Stored(env, ids) == Some("")
    ensures NotLocal(env, ids) && ids.id != "" ==>
      Stored(env, ids) == Some(match env.byId(ids.id) case LookupError => "" case Region(r) => r)
    ensures NotLocal(env, ids) && ids.id == "" ==>
      Stored(env, ids) == Some(match env.byExternalId(ids.externalId) case LookupError => "" case Region(r) => r)
  {
  }

  class ClusterCache {
    const gone: Evictions
    var entries: map<string, string>
    var clock: nat

    constructor (gone: Evictions)
      ensures this.gone == gone && Now() == EMPTY
    {
      this.gone := gone;
      entries := map[];
      clock := 0;
    }

    function Now(): Cache
      reads this
    {
      Cache(entries, clock)
    }

    method Get(key: string) returns (value: string, found: bool)
      modifies this
      ensures Now() == Before(old(Now()), gone)
      ensures found <==> key in entries
      ensures found ==> value == entries[key]
    {
      entries := entries - gone(clock);
      clock := clock + 1;
      found := key in entries;
      value := if found then entries[key] else "";
    }

    method Put(key: string, value: string)
      modifies this
      ensures var c := Before(old(Now()), gone); Now() == c.(entries := c.entries[key := value])
    {
      entries := (entries - gone(clock))[key := value];
      clock := clock + 1;
    }
  }

  /** The cache before request `i`. */
  function CacheAt(env: Env, gone: Evictions, requests: seq<ClusterIds>, i: nat): Cache
    requires i <= |requests|
  {
    if i == 0 then EMPTY
    else Handled(env, gone, CacheAt(env, gone, requests, i - 1), requests[i - 1]).0
  }

  function RouteAt(env: Env, gone: Evictions, requests: seq<ClusterIds>, i: nat): Route
    requires i < |requests|
  {
    Handled(env, gone, CacheAt(env, gone, requests, i), requests[i]).1
  }

  class Proxy {
    const env: Env
    const clusterCache: ClusterCache

    constructor (env: Env, cache: ClusterCache)
      ensures this.env == env && clusterCache == cache
    {
      this.env := env;
      clusterCache := cache;
    }

    method CheckCache(ids: seq<string>) returns (value: string, found: bool)
      modifies clusterCache
      ensures var (c, hit) := Checked(old(clusterCache.Now()), clusterCache.gone, ids);
        && clusterCache.Now() == c
        && found == hit.Some?
        && (found ==> value == hit.value)
    {
      ghost var start := clusterCache.Now();
      for i := 0 to |ids|
        invariant Checked(start, clusterCache.gone, ids) == Checked(clusterCache.Now(), clusterCache.gone, ids[i..])
      {
        assert ids[i..][0] == ids[i] && ids[i..][1..] == ids[i + 1..];
        value, found := clusterCache.Get(ids[i]);
        if found {
          return;
        }
      }
      value, found := "", false;
    }

    method UpdateCache(rhRegionId: string, ids: seq<string>)
      modifies clusterCache
      ensures clusterCache.Now() == Updated(old(clusterCache.Now()), clusterCache.gone, rhRegionId, ids)
    {
      ghost var start := clusterCache.Now();
      for i := 0 to |ids|
        invariant Updated(start, clusterCache.gone, rhRegionId, ids)
               == Updated(clusterCache.Now(), clusterCache.gone, rhRegionId, ids[i..])
      {
        assert ids[i..][0] == ids[i] && ids[i..][1..] == ids[i + 1..];
        if ids[i] != "" {
          clusterCache.Put(ids[i], rhRegionId);
        }
      }
    }

    method Handle(ids: ClusterIds) returns (route: Route, resolved: bool)
      modifies clusterCache
      ensures (clusterCache.Now(), route, resolved) == Handled(env, clusterCache.gone, old(clusterCache.Now()), ids)
    {
      if ids.id == "" && ids.externalId == "" {
        return Next, false;
      }
      var rhRegionId, found := CheckCache([ids.id, ids.externalId]);
      resolved := !found;
      if !found {
        if env.local.Some? {
          var reply := env.local.value(ids);
          if reply.LocalError? {
            return ErrorReply, true;
          }
          if reply.isLocal {
            UpdateCache("", [ids.id, ids.externalId]);
            return Next, true;
          }
        }
        var lookup := GetRhRegionId(env, ids);
        rhRegionId := if lookup.LookupError? then "" else lookup.rhRegionId;
        UpdateCache(rhRegionId, [ids.id, ids.externalId]);
        if lookup.LookupError? {
          return ErrorReply, true;
        }
      }
      route := Dispatched(rhRegionId);
    }

    /** A sequence of requests through one proxy, with the route of each. */
    method HandleAll(requests: seq<ClusterIds>) returns (routes: seq<Route>)
      requires clusterCache.Now() == EMPTY
      modifies clusterCache
      ensures |routes| == |requests|
      ensures forall i :: 0 <= i < |requests| ==> routes[i] == RouteAt(env, clusterCache.gone, requests, i)
    {
      routes := [];
      for i := 0 to |requests|
        invariant |routes| == i && clusterCache.Now() == CacheAt(env, clusterCache.gone, requests, i)
        invariant forall j :: 0 <= j < i ==> routes[j] == RouteAt(env, clusterCache.gone, requests, j)
      {
        var route, resolved := Handle(requests[i]);
        routes := routes + [route];
      }
    }
  }

  // ---------------------------------------------------------------- runs

  predicate ResolvedAt(env: Env, gone: Evictions, requests: seq<ClusterIds>, i: nat)
    requires i < |requests|
  {
    Handled(env, gone, CacheAt(env, gone, requests, i), requests[i]).2
  }

  // ---------------------------------------------------------------- where cached entries come from

  /** An entry was left by one of the first `i` requests, under one of that request's ids. */
  ghost predicate Justified(env: Env, requests: seq<ClusterIds>, i: nat, key: string, value: string)
    requires i <= |requests|
  {
    exists j :: 0 <= j < i && key in requests[j].Keys() && Stored(env, requests[j]) == Some(value)
  }

  ghost predicate AllJustified(env: Env, requests: seq<ClusterIds>, i: nat, entries: map<string, string>)
    requires i <= |requests|
  {
    forall k :: k in entries ==> Justified(env, requests, i, k, entries[k])
  }

  lemma {:induction false} CheckedOnlyLoses(c: Cache, gone: Evictions, ids: seq<string>)
    ensures var (c1, hit) := Checked(c, gone, ids);
      && (forall k :: k in c1.entries ==> k in c.entries && c1.entries[k] == c.entries[k])
      && (hit.Some? ==> exists k :: k in ids && k in c.entries && c.entries[k] == hit.value)
    decreases |ids|
  {
    if ids != [] {
      CheckedOnlyLoses(Before(c, gone), gone, ids[1..]);
    }
  }

  lemma {:induction false} UpdatedOnlyAdds(c: Cache, gone: Evictions, r: string, ids: seq<string>)
    ensures var c1 := Updated(c, gone, r, ids);
      forall k :: k in c1.entries ==>
        (k in c.entries && c1.entries[k] == c.entries[k]) || (k in ids && k != "" && c1.entries[k] == r)
    decreases |ids|
  {
    if ids != [] {
      var c1 := Before(c, gone);
      var next := if ids[0] == "" then c else c1.(entries := c1.entries[ids[0] := r]);
      UpdatedOnlyAdds(next, gone, r, ids[1..]);
      assert Updated(c, gone, r, ids) == Updated(next, gone, r, ids[1..]);
      assert forall k :: k in ids[1..] ==> k in ids;
    }
  }

  lemma HandledKeepsJustified(env: Env, gone: Evictions, requests: seq<ClusterIds>, i: nat, c: Cache)
    requires i < |requests| && AllJustified(env, requests, i, c.entries)
    ensures AllJustified(env, requests, i + 1, Handled(env, gone, c, requests[i]).0.entries)
  {
    var ids := requests[i];
    var keys := [ids.id, ids.externalId];
    var (c1, hit) := Checked(c, gone, keys);
    CheckedOnlyLoses(c, gone, keys);
    var after := Handled(env, gone, c, ids).0;
    if hit.None? && Stored(env, ids).Some? {
      UpdatedOnlyAdds(c1, gone, Stored(env, ids).value, keys);
    }
    forall k | k in after.entries ensures Justified(env, requests, i + 1, k, after.entries[k]) {
      if k in c.entries && after.entries[k] == c.entries[k] {
        assert Justified(env, requests, i, k, c.entries[k]);
      } else {
        assert k in ids.Keys() && Stored(env, ids) == Some(after.entries[k]);
      }
    }
  }

  lemma {:induction false} CacheIsJustified(env: Env, gone: Evictions, requests: seq<ClusterIds>, i: nat)
    requires i <= |requests|
    ensures AllJustified(env, requests, i, CacheAt(env, gone, requests, i).entries)
  {
    if i > 0 {
      CacheIsJustified(env, gone, requests, i - 1);
      HandledKeepsJustified(env, gone, requests, i - 1, CacheAt(env, gone, requests, i - 1));
    }
  }

  /**
   * In every run, with any evictions and failures: the empty string is never a key,
   * and a non-empty cached region is the directory's answer to an earlier request
   * with that id that was not found locally.
   */
  lemma CachedRegionsAreTheDirectorys(env: Env, gone: Evictions, requests: seq<ClusterIds>, i: nat, key: string)
    requires i <= |requests| && key in CacheAt(env, gone, requests, i).entries
    ensures key != ""
    ensures var r := CacheAt(env, gone, requests, i).entries[key];
      r != "" ==>
        exists j :: && 0 <= j < i && (key == requests[j].id || key == requests[j].externalId)
                    && NotLocal(env, requests[j]) && DirectoryHas(env, requests[j], r)
  {
    CacheIsJustified(env, gone, requests, i);
    var r := CacheAt(env, gone, requests, i).entries[key];
    assert Justified(env, requests, i, key, r);
  }

  /** So a request is only ever dispatched to a region the directory gave for it or for a request sharing an id. */
  lemma DispatchedRegionsAreTheDirectorys(env: Env, gone: Evictions, requests: seq<ClusterIds>, i: nat, r: string)
    requires i < |requests| && RouteAt(env, gone, requests, i) == Dispatched(r) && r != ""
    ensures exists j :: && 0 <= j <= i && requests[j].Keys() * requests[i].Keys() != {}
                        && NotLocal(env, requests[j]) && DirectoryHas(env, requests[j], r)
  {
    var ids, c := requests[i], CacheAt(env, gone, requests, i);
    var keys := [ids.id, ids.externalId];
    var (_, hit) := Checked(c, gone, keys);
    if hit.Some? {
      CheckedOnlyLoses(c, gone, keys);
      var k :| k in keys && k in c.entries && c.entries[k] == r;
      CachedRegionsAreTheDirectorys(env, gone, requests, i, k);
      var j :| 0 <= j < i && (k == requests[j].id || k == requests[j].externalId) &&
        NotLocal(env, requests[j]) && DirectoryHas(env, requests[j], r);
      assert k in requests[j].Keys() * ids.Keys();
    } else {
      assert ids.Keys() != {} by { assert ids.id in ids.Keys() || ids.externalId in ids.Keys(); }
      assert ids.Keys() * ids.Keys() == ids.Keys();
    }
  }

  // ---------------------------------------------------------------- agreement with uncached routing

  /** Requests that share an id name one cluster: they are resolved alike. */
  ghost predicate NamesOneCluster(env: Env, requests: seq<ClusterIds>) {
    forall i, j :: 0 <= i < j < |requests| && requests[i].Keys() * requests[j].Keys() != {} ==>
      Uncached(env, requests[i]) == Uncached(env, requests[j])
  }

  /** The request gets past the local check and its directory lookup fails. */
  predicate LookupFails(env: Env, ids: ClusterIds) {
    ids.Keys() != {} && CheckLocal(env, ids) == Local(false) && GetRhRegionId(env, ids).LookupError?
  }

  /** No id of a request whose lookup fails is used again. */
  ghost predicate FailuresNotRepeated(env: Env, requests: seq<ClusterIds>) {
    forall i, j :: 0 <= i < j < |requests| && LookupFails(env, requests[i]) ==>
      requests[i].Keys() * requests[j].Keys() == {}
  }

  ghost predicate RoutedAsUncached(env: Env, gone: Evictions, requests: seq<ClusterIds>) {
    forall i :: 0 <= i < |requests| ==>
      Target(RouteAt(env, gone, requests, i)) == Target(Uncached(env, requests[i]))
  }

  lemma StoredRoutesAlike(env: Env, ids: ClusterIds)
    requires ids.Keys() != {} && Stored(env, ids).Some? && !LookupFails(env, ids)
    ensures Target(Dispatched(Stored(env, ids).value)) == Target(Uncached(env, ids))
  {
  }

  /** Whatever the first request leaves in the cache routes the second as resolving the second would. */
  predicate ServesAs(env: Env, first: ClusterIds, second: ClusterIds) {
    Stored(env, first).Some? ==> Target(Dispatched(Stored(env, first).value)) == Target(Uncached(env, second))
  }

  /** Every request serves as all later ones that share an id with it. */
  ghost predicate SharedIdsServe(env: Env, requests: seq<ClusterIds>) {
    forall i, j :: 0 <= i < j < |requests| && requests[i].Keys() * requests[j].Keys() != {} ==>
      ServesAs(env, requests[i], requests[j])
  }

  lemma ServedRouteAgrees(env: Env, gone: Evictions, requests: seq<ClusterIds>, i: nat)
    requires SharedIdsServe(env, requests) && i < |requests|
    ensures Target(RouteAt(env, gone, requests, i)) == Target(Uncached(env, requests[i]))
  {
    hide CacheAt;
    var ids, c := requests[i], CacheAt(env, gone, requests, i);
    var keys := [ids.id, ids.externalId];
    CheckedOnlyLoses(c, gone, keys);
    var (_, hit) := Checked(c, gone, keys);
    if ids.Keys() != {} && hit.Some? {
      var k :| k in keys && k in c.entries && c.entries[k] == hit.value;
      CacheIsJustified(env, gone, requests, i);
      assert Justified(env, requests, i, k, hit.value);
      var j :| 0 <= j < i && k in requests[j].Keys() && Stored(env, requests[j]) == Some(hit.value);
      assert k in requests[j].Keys() * ids.Keys();
    } else {
      assert ids.id != "" ==> ids.id in ids.Keys();
      assert ids.externalId != "" ==> ids.externalId in ids.Keys();
    }
  }

  lemma ServedRoutesAgree(env: Env, gone: Evictions, requests: seq<ClusterIds>)
    requires SharedIdsServe(env, requests)
    ensures RoutedAsUncached(env, gone, requests)
  {
    hide RouteAt;
    forall i | 0 <= i < |requests|
      ensures Target(RouteAt(env, gone, requests, i)) == Target(Uncached(env, requests[i]))
    {
      ServedRouteAgrees(env, gone, requests, i);
    }
  }

  // ---------------------------------------------------------------- a cache that only ever keeps one key

  function AllKeys(requests: seq<ClusterIds>): set<string> {
    set ids, k | ids in requests && k in ids.Keys() :: k
  }

  function Keeping(k: string, requests: seq<ClusterIds>): Evictions {
    _ => AllKeys(requests) - {k}
  }

  lemma {:induction false} KeepingChecked(c: Cache, k: string, requests: seq<ClusterIds>, ids: seq<string>)
    requires c.entries.Keys <= AllKeys(requests)
    ensures var (c1, hit) := Checked(c, Keeping(k, requests), ids);
      && c1.entries.Keys <= c.entries.Keys
      && (k in c.entries ==> k in c1.entries && c1.entries[k] == c.entries[k])
      && hit == if k in ids && k in c.entries then Some(c.entries[k]) else None
    decreases |ids|
  {
    if ids != [] {
      var c1 := Before(c, Keeping(k, requests));
      assert forall x :: x in c1.entries ==> x == k;
      assert ids == [ids[0]] + ids[1..];
      if ids[0] !in c1.entries {
        KeepingChecked(c1, k, requests, ids[1..]);
      }
    }
  }

  lemma {:induction false} KeepingUpdated(c: Cache, k: string, requests: seq<ClusterIds>, r: string, ids: seq<string>)
    requires k != ""
    ensures var after := Updated(c, Keeping(k, requests), r, ids).entries;
      && (k in ids ==> k in after && after[k] == r)
      && (k !in ids && k in c.entries ==> k in after && after[k] == c.entries[k])
    decreases |ids|
  {
    if ids != [] {
      var c1 := Before(c, Keeping(k, requests));
      assert ids == [ids[0]] + ids[1..];
      var next := if ids[0] == "" then c else c1.(entries := c1.entries[ids[0] := r]);
      KeepingUpdated(next, k, requests, r, ids[1..]);
    }
  }

  /** The kept key stays as it is, answers its own requests, and is stored by one that finds it missing. */
  lemma KeepingHandled(env: Env, c: Cache, k: string, requests: seq<ClusterIds>, ids: ClusterIds)
    requires k != "" && c.entries.Keys <= AllKeys(requests)
    ensures var (after, route, _) := Handled(env, Keeping(k, requests), c, ids);
      && (k in c.entries ==> k in after.entries && after.entries[k] == c.entries[k])
      && (k in c.entries && k in ids.Keys() ==> route == Dispatched(c.entries[k]))
      && (k !in c.entries && k in ids.Keys() && Stored(env, ids).Some? ==>
           k in after.entries && after.entries[k] == Stored(env, ids).value)
  {
    var keys := [ids.id, ids.externalId];
    assert k in keys <==> k in ids.Keys();
    KeepingChecked(c, k, requests, keys);
    var c1 := Checked(c, Keeping(k, requests), keys).0;
    if Stored(env, ids).Some? {
      KeepingUpdated(c1, k, requests, Stored(env, ids).value, keys);
    }
  }

  lemma CachedKeysAreRequested(env: Env, gone: Evictions, requests: seq<ClusterIds>, i: nat)
    requires i <= |requests|
    ensures CacheAt(env, gone, requests, i).entries.Keys <= AllKeys(requests)
  {
    CacheIsJustified(env, gone, requests, i);
    var entries := CacheAt(env, gone, requests, i).entries;
    forall k | k in entries ensures k in AllKeys(requests) {
      assert Justified(env, requests, i, k, entries[k]);
      var j :| 0 <= j < i && k in requests[j].Keys();
      assert requests[j] in requests;
    }
  }

  /** A request that leaves something under this key. */
  predicate Leaves(env: Env, ids: ClusterIds, k: string) {
    k in ids.Keys() && Stored(env, ids).Some?
  }

  /** The first request to leave something under the kept key decides what it holds from then on. */
  lemma {:induction false} FirstDecides(env: Env, requests: seq<ClusterIds>, k: string, f: nat, m: nat)
    requires f < m <= |requests| && Leaves(env, requests[f], k)
    requires forall j :: 0 <= j < f ==> !Leaves(env, requests[j], k)
    ensures var entries := CacheAt(env, Keeping(k, requests), requests, m).entries;
      k in entries && entries[k] == Stored(env, requests[f]).value
  {
    var gone := Keeping(k, requests);
    var c := CacheAt(env, gone, requests, m - 1);
    CachedKeysAreRequested(env, gone, requests, m - 1);
    KeepingHandled(env, c, k, requests, requests[m - 1]);
    if f < m - 1 {
      FirstDecides(env, requests, k, f, m - 1);
    } else {
      CacheIsJustified(env, gone, requests, f);
      assert k in c.entries ==> Justified(env, requests, f, k, c.entries[k]);
    }
  }

  lemma {:induction false} FirstLeaving(env: Env, requests: seq<ClusterIds>, k: string, i: nat) returns (f: nat)
    requires i < |requests| && Leaves(env, requests[i], k)
    ensures f <= i && Leaves(env, requests[f], k) && forall j :: 0 <= j < f ==> !Leaves(env, requests[j], k)
  {
    if j: nat :| j < i && Leaves(env, requests[j], k) {
      f := FirstLeaving(env, requests, k, j);
    } else {
      f := i;
    }
  }

  /** After the first, a request with the kept key is routed to what the first one left. */
  lemma RoutedByFirst(env: Env, requests: seq<ClusterIds>, k: string, f: nat, m: nat)
    requires f < m < |requests| && Leaves(env, requests[f], k)
    requires forall j :: 0 <= j < f ==> !Leaves(env, requests[j], k)
    requires k in requests[m].Keys()
    ensures RouteAt(env, Keeping(k, requests), requests, m) == Dispatched(Stored(env, requests[f]).value)
  {
    FirstDecides(env, requests, k, f, m);
    CachedKeysAreRequested(env, Keeping(k, requests), requests, m);
    KeepingHandled(env, CacheAt(env, Keeping(k, requests), requests, m), k, requests, requests[m]);
  }

  lemma AgreementServes(env: Env, requests: seq<ClusterIds>, i: nat, j: nat, k: string)
    requires i < j < |requests| && k in requests[i].Keys() && k in requests[j].Keys()
    requires RoutedAsUncached(env, Keeping(k, requests), requests)
    ensures ServesAs(env, requests[i], requests[j])
  {
    hide CacheAt, Handled;
    if Stored(env, requests[i]).Some? {
      var f := FirstLeaving(env, requests, k, i);
      RoutedByFirst(env, requests, k, f, j);
      if f < i {
        RoutedByFirst(env, requests, k, f, i);
        StoredRoutesAlike(env, requests[i]);
      }
    }
  }

  /**
   * Cached and uncached routing agree under all evictions exactly when whatever a
   * request leaves in the cache serves every later request that shares an id with it.
   */
  lemma SharedIdsServeExactly(env: Env, requests: seq<ClusterIds>)
    ensures SharedIdsServe(env, requests) <==> forall gone :: RoutedAsUncached(env, gone, requests)
  {
    if SharedIdsServe(env, requests) {
      forall gone ensures RoutedAsUncached(env, gone, requests) {
        ServedRoutesAgree(env, gone, requests);
      }
    } else {
      var i, j :| 0 <= i < j < |requests| && requests[i].Keys() * requests[j].Keys() != {} &&
        !ServesAs(env, requests[i], requests[j]);
      var k :| k in requests[i].Keys() * requests[j].Keys();
      if RoutedAsUncached(env, Keeping(k, requests), requests) {
        AgreementServes(env, requests, i, j, k);
      }
    }
  }

  // ---------------------------------------------------------------- ids that name one cluster

  /** When shared ids name one cluster, a request serves as another exactly if its lookup did not fail. */
  lemma OneClusterServes(env: Env, first: ClusterIds, second: ClusterIds)
    requires Uncached(env, first) == Uncached(env, second) && first.Keys() != {}
    ensures ServesAs(env, first, second) <==> !LookupFails(env, first)
  {
    if Stored(env, first).Some? && !LookupFails(env, first) {
      StoredRoutesAlike(env, first);
    }
  }

  lemma OneClusterServesExactly(env: Env, requests: seq<ClusterIds>)
    requires NamesOneCluster(env, requests)
    ensures SharedIdsServe(env, requests) <==> FailuresNotRepeated(env, requests)
  {
    forall i, j | 0 <= i < j < |requests| && requests[i].Keys() * requests[j].Keys() != {}
      ensures ServesAs(env, requests[i], requests[j]) <==> !LookupFails(env, requests[i])
    {
      OneClusterServes(env, requests[i], requests[j]);
    }
  }

  /** Under any evictions, requests are routed as without the cache unless a failed lookup's id comes back. */
  lemma CachedRoutesAgree(env: Env, gone: Evictions, requests: seq<ClusterIds>)
    requires NamesOneCluster(env, requests) && FailuresNotRepeated(env, requests)
    ensures RoutedAsUncached(env, gone, requests)
  {
    OneClusterServesExactly(env, requests);
    ServedRoutesAgree(env, gone, requests);
  }

  /**
   * When shared ids name one cluster, cached and uncached routing agree under all
   * evictions exactly when no id of a failed lookup is used again.
   */
  lemma CachedRoutesAgreeExactly(env: Env, requests: seq<ClusterIds>)
    requires NamesOneCluster(env, requests)
    ensures FailuresNotRepeated(env, requests) <==> forall gone :: RoutedAsUncached(env, gone, requests)
  {
    OneClusterServesExactly(env, requests);
    SharedIdsServeExactly(env, requests);
  }

  // ---------------------------------------------------------------- without evictions

  const KEEP: Evictions := _ => {}

  lemma {:induction false} CheckedFinds(c: Cache, ids: seq<string>)
    ensures Checked(c, KEEP, ids).0.entries == c.entries
    ensures Checked(c, KEEP, ids).1.Some? <==> exists k :: k in ids && k in c.entries
    decreases |ids|
  {
    if ids != [] {
      assert c.entries - {} == c.entries;
      CheckedFinds(Before(c, KEEP), ids[1..]);
      assert ids == [ids[0]] + ids[1..];
    }
  }

  lemma {:induction false} UpdatedHolds(c: Cache, r: string, ids: seq<string>)
    ensures Updated(c, KEEP, r, ids).entries.Keys == c.entries.Keys + set k | k in ids && k != ""
    decreases |ids|
  {
    if ids != [] {
      assert c.entries - {} == c.entries;
      var c1 := Before(c, KEEP);
      UpdatedHolds(if ids[0] == "" then c else c1.(entries := c1.entries[ids[0] := r]), r, ids[1..]);
      assert ids == [ids[0]] + ids[1..];
    }
  }

  /** Before every operation exactly the entries that are gone are lost. */
  lemma BeforeExactly(c: Cache, gone: Evictions, k: string)
    ensures var after := Before(c, gone).entries;
      && (k in after <==> k in c.entries && k !in gone(c.clock))
      && (k in after ==> after[k] == c.entries[k])
  {
  }

  /** A request is answered from the cache by its id first, then by its external id; the cache stays as it is. */
  lemma HitExactly(env: Env, c: Cache, ids: ClusterIds)
    requires ids != ClusterIds("", "") && (ids.id in c.entries || ids.externalId in c.entries)
    ensures var (after, route, resolved) := Handled(env, KEEP, c, ids);
      && route == Dispatched(c.entries[if ids.id in c.entries then ids.id else ids.externalId])
      && after.entries == c.entries && !resolved
  {
    var keys := [ids.id, ids.externalId];
    assert c.entries - {} == c.entries;
    assert keys[1..] == [ids.externalId];
    CheckedFinds(c, keys);
  }

  lemma {:induction false} UpdatedExactly(c: Cache, r: string, ids: seq<string>, k: string)
    ensures var after := Updated(c, KEEP, r, ids).entries;
      && (k in ids && k != "" ==> k in after && after[k] == r)
      && (k !in ids || k == "" ==> (k in after <==> k in c.entries) && (k in c.entries ==> after[k] == c.entries[k]))
    decreases |ids|
  {
    if ids != [] {
      assert c.entries - {} == c.entries;
      var c1 := Before(c, KEEP);
      UpdatedExactly(if ids[0] == "" then c else c1.(entries := c1.entries[ids[0] := r]), r, ids[1..], k);
      assert ids == [ids[0]] + ids[1..];
    }
  }

  /** Otherwise it is resolved, and both its ids get what it leaves. */
  lemma MissExactly(env: Env, c: Cache, ids: ClusterIds, k: string)
    requires ids != ClusterIds("", "") && ids.id !in c.entries && ids.externalId !in c.entries
    ensures var (after, route, resolved) := Handled(env, KEEP, c, ids);
      && route == Uncached(env, ids) && resolved
      && (Stored(env, ids).Some? && (k == ids.id || k == ids.externalId) && k != "" ==>
           k in after.entries && after.entries[k] == Stored(env, ids).value)
      && (Stored(env, ids).None? || !(k == ids.id || k == ids.externalId) || k == "" ==>
           (k in after.entries <==> k in c.entries) && (k in c.entries ==> after.entries[k] == c.entries[k]))
  {
    var keys := [ids.id, ids.externalId];
    CheckedFinds(c, keys);
    if Stored(env, ids).Some? {
      UpdatedExactly(Checked(c, KEEP, keys).0, Stored(env, ids).value, keys, k);
    }
  }

  lemma HandledRemembers(env: Env, c: Cache, ids: ClusterIds)
    ensures var (after, _, resolved) := Handled(env, KEEP, c, ids);
      && c.entries.Keys <= after.entries.Keys
      && (resolved && Stored(env, ids).Some? ==> ids.Keys() <= after.entries.Keys)
      && (resolved ==> ids.Keys() !! c.entries.Keys)
      && (!resolved && ids.Keys() != {} ==> Handled(env, KEEP, c, ids).1.Dispatched?)
      && ("" !in c.entries && ids.Keys() !! c.entries.Keys && ids.Keys() != {} ==> resolved)
  {
    var keys := [ids.id, ids.externalId];
    CheckedFinds(c, keys);
    assert ids.id in keys && ids.externalId in keys;
    var c1 := Checked(c, KEEP, keys).0;
    if Stored(env, ids).Some? {
      UpdatedHolds(c1, Stored(env, ids).value, keys);
    }
  }

  lemma {:induction false} Remembered(env: Env, requests: seq<ClusterIds>, i: nat, j: nat)
    requires i <= j <= |requests|
    ensures CacheAt(env, KEEP, requests, i).entries.Keys <= CacheAt(env, KEEP, requests, j).entries.Keys
  {
    if i < j {
      Remembered(env, requests, i, j - 1);
      HandledRemembers(env, CacheAt(env, KEEP, requests, j - 1), requests[j - 1]);
    }
  }

  /** Without evictions a resolution, unless it failed in the local check, serves later requests sharing an id. */
  lemma ResolvedAtMostOnce(env: Env, requests: seq<ClusterIds>, i: nat, j: nat)
    requires i < j < |requests| && ResolvedAt(env, KEEP, requests, i) && !CheckLocal(env, requests[i]).LocalError?
    requires requests[i].Keys() * requests[j].Keys() != {}
    ensures !ResolvedAt(env, KEEP, requests, j) && RouteAt(env, KEEP, requests, j).Dispatched?
  {
    HandledRemembers(env, CacheAt(env, KEEP, requests, i), requests[i]);
    Remembered(env, requests, i + 1, j);
    var k :| k in requests[i].Keys() * requests[j].Keys();
    assert k in CacheAt(env, KEEP, requests, j).entries.Keys;
    HandledRemembers(env, CacheAt(env, KEEP, requests, j), requests[j]);
  }

  /** The request was resolved, and nothing went wrong in the local check. */
  predicate LeftEntries(env: Env, requests: seq<ClusterIds>, i: nat)
    requires i < |requests|
  {
    ResolvedAt(env, KEEP, requests, i) && !CheckLocal(env, requests[i]).LocalError?
  }

  lemma HandledAdds(env: Env, c: Cache, ids: ClusterIds, k: string)
    ensures var (after, _, resolved) := Handled(env, KEEP, c, ids);
      k in after.entries <==>
        k in c.entries || (resolved && !CheckLocal(env, ids).LocalError? && k in ids.Keys())
  {
    var keys := [ids.id, ids.externalId];
    CheckedFinds(c, keys);
    assert k in keys && k != "" <==> k in ids.Keys();
    if Stored(env, ids).Some? {
      UpdatedHolds(Checked(c, KEEP, keys).0, Stored(env, ids).value, keys);
    }
  }

  /** Without evictions the cached keys are exactly the ids of the earlier requests that left entries. */
  lemma {:induction false} CachedExactly(env: Env, requests: seq<ClusterIds>, i: nat, k: string)
    requires i <= |requests|
    ensures k in CacheAt(env, KEEP, requests, i).entries <==>
      exists j :: 0 <= j < i && LeftEntries(env, requests, j) && k in requests[j].Keys()
  {
    if i > 0 {
      var c := CacheAt(env, KEEP, requests, i - 1);
      CachedExactly(env, requests, i - 1, k);
      HandledAdds(env, c, requests[i - 1], k);
      assert LeftEntries(env, requests, i - 1) && k in requests[i - 1].Keys() ==>
        k in CacheAt(env, KEEP, requests, i).entries;
    }
  }

  /**
   * Without evictions a request is resolved exactly when it has an id and shares none
   * with an earlier request that was resolved without an error in the local check.
   */
  lemma ResolvedExactly(env: Env, requests: seq<ClusterIds>, j: nat)
    requires j < |requests|
    ensures ResolvedAt(env, KEEP, requests, j) <==>
      && requests[j].Keys() != {}
      && forall i :: 0 <= i < j && LeftEntries(env, requests, i) ==> requests[i].Keys() !! requests[j].Keys()
  {
    var c := CacheAt(env, KEEP, requests, j);
    HandledRemembers(env, c, requests[j]);
    CachedExactly(env, requests, j, "");
    forall k ensures k in c.entries <==>
      exists i :: 0 <= i < j && LeftEntries(env, requests, i) && k in requests[i].Keys()
    {
      CachedExactly(env, requests, j, k);
    }
    assert requests[j].Keys() != {} <==> requests[j].id != "" || requests[j].externalId != "" by {
      assert requests[j].id != "" ==> requests[j].id in requests[j].Keys();
      assert requests[j].externalId != "" ==> requests[j].externalId in requests[j].Keys();
    }
  }

  /** A repeated failure is answered from the cache, as if the cluster were served here. */
  lemma RepeatedFailureDiverges(env: Env, requests: seq<ClusterIds>, i: nat, j: nat)
    requires NamesOneCluster(env, requests) && i < j < |requests| && LookupFails(env, requests[i])
    requires requests[i].Keys() * requests[j].Keys() != {}
    ensures !RoutedAsUncached(env, KEEP, requests)
  {
    assert Uncached(env, requests[i]) == ErrorReply && Uncached(env, requests[j]) == ErrorReply;
    if ResolvedAt(env, KEEP, requests, i) {
      ResolvedAtMostOnce(env, requests, i, j);
    } else {
      HandledRemembers(env, CacheAt(env, KEEP, requests, i), requests[i]);
    }
  }
}
