/**
 * Offline-token restrictions: one poller publishes a set of restricted
 * organizations and then a feature flag, each under its own lock acquisition; a
 * request reads the flag, the number of organizations and the membership of its
 * own organization in three further critical sections.
 *
 * Organization ids and claims are strings.  The answers of the accounts service
 * and the token in the request are parameters.
 */
module Offline {
  import opened Options
  import opened Orders
  import Strings

  const SCOPE_OFFLINE_ACCESS := "offline_access"

  // ---------------------------------------------------------------- tokens

  datatype OrganizationClaim = NoOrganization | NotAnObject | Organization(id: Option<string>)

  datatype Token =
    | NoToken
    | InvalidToken
    | Claims(serviceAccount: bool, scope: Option<string>, orgId: Option<string>, organization: OrganizationClaim)

  datatype Settings = Settings(disableAllValidation: bool, errorOnMissingToken: bool)

  datatype Verdict =
    | Allowed
    | TokenError
    | NoOrganizationId
    | Restricted(orgId: string)

  /** What the token alone decides: a verdict, or the organization id to look up. */
  datatype Finding = Final(verdict: Verdict) | LookUp(orgId: string)

  function Inspect(settings: Settings, token: Token): Finding {
    match token
    case NoToken => Final(if settings.errorOnMissingToken then TokenError else Allowed)
    case InvalidToken => Final(TokenError)
    case Claims(serviceAccount, scope, orgId, organization) =>
      if serviceAccount || scope.None? || !Strings.Contains(scope.value, SCOPE_OFFLINE_ACCESS) then Final(Allowed)
      else if orgId.Some? then LookUp(orgId.value)
      else
        match organization
        case Organization(None) => Final(NoOrganizationId)
        case Organization(Some(id)) => LookUp(id)
        case _ => LookUp("")
  }

  // ---------------------------------------------------------------- one poll

  datatype LabelReply = LabelError | Labels(organizationIds: seq<string>)
  datatype OrgReply = OrgError | Orgs(externalIds: seq<string>)
  datatype FlagReply = FlagError | Flag(enabled: bool)

  datatype Poll = Poll(labels: LabelReply, orgs: OrgReply, flag: FlagReply)

  /** The label call succeeded and, if it found labels, the organization call did too. */
  predicate WhollySuccessful(p: Poll) {
    p.labels.Labels? && (p.labels.organizationIds == [] || p.orgs.Orgs?)
  }

  /** The external ids of a successful poll, none if there is no label. */
  function Found(p: Poll): set<string>
    requires WhollySuccessful(p)
  {
    if p.labels.organizationIds == [] then {} else set id | id in p.orgs.externalIds
  }

  /** The set a poll publishes: none if a call failed, the empty one if no label is found. */
  function Publication(p: Poll): Option<set<string>> {
    if p.labels.LabelError? then None
    else if p.labels.organizationIds == [] then Some({})
    else if p.orgs.OrgError? then None
    else Some(set id | id in p.orgs.externalIds)
  }

  datatype Published = Published(orgs: set<string>, flag: bool)

  function AfterOrgs(s: Published, p: Poll): Published {
    match Publication(p)
    case None => s
    case Some(orgs) => s.(orgs := orgs)
  }

  function AfterFlag(s: Published, p: Poll): Published {
    match p.flag
    case FlagError => s
    case Flag(enabled) => s.(flag := enabled)
  }

  /** The decision on what is published at one instant. */
  function Decide(settings: Settings, token: Token, s: Published): Verdict {
    if settings.disableAllValidation || !s.flag || s.orgs == {} then Allowed
    else
      match Inspect(settings, token)
      case Final(v) => v
      case LookUp(orgId) => if orgId in s.orgs then Restricted(orgId) else Allowed
  }

  /**
   * What is published at instant `i` of a sequence of polls.  Poll `k` takes
   * the organizations from instant `2k` to `2k + 1` and the flag from there to `2k + 2`.
   */
  function StateAt(polls: seq<Poll>, i: nat): Published
    requires i <= 2 * |polls|
  {
    if i == 0 then Published({}, false)
    else if i % 2 == 1 then AfterOrgs(StateAt(polls, i - 1), polls[i / 2])
    else AfterFlag(StateAt(polls, i - 1), polls[i / 2 - 1])
  }

  class TokenMiddleware {
    const settings: Settings
    var offlineRestrictedOrgs: set<string>
    var enforceOfflineOrgRestrictions: bool

    constructor (settings: Settings)
      ensures this.settings == settings && Current() == Published({}, false)
    {
      this.settings := settings;
      offlineRestrictedOrgs := {};
      enforceOfflineOrgRestrictions := false;
    }

    function Current(): Published
      reads this
    {
      Published(offlineRestrictedOrgs, enforceOfflineOrgRestrictions)
    }

    method PopulateOfflineRestrictedOrgs(p: Poll) returns (ok: bool)
      modifies this`offlineRestrictedOrgs
      ensures ok <==> WhollySuccessful(p)
      ensures offlineRestrictedOrgs == if ok then Found(p) else old(offlineRestrictedOrgs)
    {
      if p.labels.LabelError? {
        return false;
      }
      if p.labels.organizationIds == [] {
        offlineRestrictedOrgs := {};
        return true;
      }
      if p.orgs.OrgError? {
        return false;
      }
      var ids := p.orgs.externalIds;
      var found: set<string> := {};
      for i := 0 to |ids|
        invariant found == set id | id in ids[..i]
      {
        assert ids[..i + 1] == ids[..i] + [ids[i]];
        found := found + {ids[i]};
      }
      assert ids[..|ids|] == ids;
      offlineRestrictedOrgs := found;
      ok := true;
    }

    method CheckEnforceOfflineOrgRestrictions(p: Poll) returns (ok: bool)
      modifies this`enforceOfflineOrgRestrictions
      ensures ok <==> p.flag.Flag?
      ensures enforceOfflineOrgRestrictions == if ok then p.flag.enabled else old(enforceOfflineOrgRestrictions)
    {
      if p.flag.FlagError? {
        return false;
      }
      enforceOfflineOrgRestrictions := p.flag.enabled;
      ok := true;
    }

    /** A poll, the initial one included: organizations first, then the flag, whether or not the former failed. */
    method Check(p: Poll)
      modifies this
      ensures Current() == AfterFlag(AfterOrgs(old(Current()), p), p)
    {
      var okOrgs := PopulateOfflineRestrictedOrgs(p);
      var okFlag := CheckEnforceOfflineOrgRestrictions(p);
    }

    /** A whole sequence of polls. */
    method PollAll(polls: seq<Poll>)
      requires Current() == Published({}, false)
      modifies this
      ensures Current() == StateAt(polls, 2 * |polls|)
    {
      for k := 0 to |polls|
        invariant Current() == StateAt(polls, 2 * k)
      {
        Check(polls[k]);
        assert StateAt(polls, 2 * k + 2) == AfterFlag(StateAt(polls, 2 * k + 1), polls[k]);
      }
    }

    /** The check with no poll in between: the atomic decision. */
    method ValidateOfflineAccessByOrg(token: Token) returns (verdict: Verdict)
      ensures verdict == Decide(settings, token, Current())
    {
      if settings.disableAllValidation || !enforceOfflineOrgRestrictions {
        return Allowed;
      }
      if |offlineRestrictedOrgs| == 0 {
        return Allowed;
      }
      var finding := Inspect(settings, token);
      match finding {
        case Final(v) => return v;
        case LookUp(orgId) =>
          if orgId in offlineRestrictedOrgs {
            return Restricted(orgId);
          }
          return Allowed;
      }
    }
  }

  // ---------------------------------------------------------------- polls as a history

  /** Instant `i` is the first one after a publication of organizations. */
  predicate Publishes(polls: seq<Poll>, i: nat)
    requires i <= 2 * |polls|
  {
    i % 2 == 1 && Publication(polls[i / 2]).Some?
  }

  /** The last publication of organizations up to instant `i`; 0 if there is none. */
  function LastPublication(polls: seq<Poll>, i: nat): (j: nat)
    requires i <= 2 * |polls|
    ensures j <= i
    ensures j > 0 ==> Publishes(polls, j)
    ensures forall k :: j < k <= i ==> !Publishes(polls, k)
  {
    if i == 0 || Publishes(polls, i) then i else LastPublication(polls, i - 1)
  }

  lemma {:induction false} OrgsSinceLastPublication(polls: seq<Poll>, j: nat, i: nat)
    requires j <= i <= 2 * |polls|
    requires forall k :: j < k <= i ==> !Publishes(polls, k)
    ensures StateAt(polls, i).orgs == StateAt(polls, j).orgs
  {
    if j < i {
      OrgsSinceLastPublication(polls, j, i - 1);
      assert !Publishes(polls, i);
    }
  }

  lemma StateStep(polls: seq<Poll>, i: nat)
    requires 0 < i <= 2 * |polls|
    ensures StateAt(polls, i) ==
      if i % 2 == 1 then AfterOrgs(StateAt(polls, i - 1), polls[i / 2])
      else AfterFlag(StateAt(polls, i - 1), polls[i / 2 - 1])
  {
  }

  lemma PollSteps(polls: seq<Poll>, k: nat)
    requires k < |polls|
    ensures StateAt(polls, 2 * k + 1) == AfterOrgs(StateAt(polls, 2 * k), polls[k])
    ensures StateAt(polls, 2 * k + 2) == AfterFlag(StateAt(polls, 2 * k + 1), polls[k])
  {
    hide StateAt, AfterOrgs, AfterFlag;
    StateStep(polls, 2 * k + 1);
    StateStep(polls, 2 * k + 2);
  }

  lemma AfterOrgsExactly(s: Published, p: Poll)
    ensures AfterOrgs(s, p) == if WhollySuccessful(p) then s.(orgs := Found(p)) else s
  {
  }

  /** What one poll makes of the published set and the flag, by the replies alone. */
  lemma PollPublishes(polls: seq<Poll>, k: nat)
    requires k < |polls|
    ensures var p, before, between, after :=
        polls[k], StateAt(polls, 2 * k), StateAt(polls, 2 * k + 1), StateAt(polls, 2 * k + 2);
      && (p.labels.LabelError? ==> between.orgs == before.orgs)
      && (p.labels.Labels? && p.labels.organizationIds == [] ==> between.orgs == {})
      && (p.labels.Labels? && p.labels.organizationIds != [] && p.orgs.OrgError? ==> between.orgs == before.orgs)
      && (p.labels.Labels? && p.labels.organizationIds != [] && p.orgs.Orgs? ==>
           forall id :: id in between.orgs <==> id in p.orgs.externalIds)
      && between.flag == before.flag && after.orgs == between.orgs
      && (p.flag.FlagError? ==> after.flag == between.flag)
      && (p.flag.Flag? ==> after.flag == p.flag.enabled)
  {
    hide StateAt, AfterOrgs;
    PollSteps(polls, k);
    AfterOrgsExactly(StateAt(polls, 2 * k), polls[k]);
  }

  /** Poll `k` is the latest wholly successful one whose organizations are taken by instant `i`. */
  predicate LatestSuccess(polls: seq<Poll>, i: nat, k: nat) {
    && k < |polls| && 2 * k + 1 <= i && WhollySuccessful(polls[k])
    && forall m :: k < m < |polls| && 2 * m + 1 <= i ==> !WhollySuccessful(polls[m])
  }

  lemma {:induction false} OrgsOfLastPublication(polls: seq<Poll>, i: nat)
    requires i <= 2 * |polls|
    ensures var j := LastPublication(polls, i);
      StateAt(polls, i).orgs == if j == 0 then {} else Publication(polls[j / 2]).value
  {
    var j := LastPublication(polls, i);
    OrgsSinceLastPublication(polls, j, i);
  }

  lemma PublishesExactly(polls: seq<Poll>, k: nat)
    requires k < |polls|
    ensures Publishes(polls, 2 * k + 1) <==> WhollySuccessful(polls[k])
    ensures WhollySuccessful(polls[k]) ==> Publication(polls[k]) == Some(Found(polls[k]))
  {
  }

  /**
   * At every instant the published set is the initial empty one, or exactly the
   * set of the latest poll whose calls all succeeded; failed calls leave it alone.
   */
  lemma {:induction false} PublishedIsLatestSuccess(polls: seq<Poll>, i: nat)
    requires i <= 2 * |polls|
    ensures (forall k :: 0 <= k < |polls| && 2 * k + 1 <= i ==> !WhollySuccessful(polls[k])) ==>
        StateAt(polls, i).orgs == {}
    ensures forall k: nat :: LatestSuccess(polls, i, k) ==> StateAt(polls, i).orgs == Found(polls[k])
  {
    hide StateAt, Publication;
    var j := LastPublication(polls, i);
    OrgsOfLastPublication(polls, i);
    forall k: nat | k < |polls| && 2 * k + 1 <= i && WhollySuccessful(polls[k]) ensures j >= 2 * k + 1 {
      PublishesExactly(polls, k);
    }
    if j > 0 {
      PublishesExactly(polls, j / 2);
    }
  }

  /** How many polls there are up to the last successful flag call among the first `n`; 0 if there is none. */
  function LastFlag(polls: seq<Poll>, n: nat): (j: nat)
    requires n <= |polls|
    ensures j <= n
    ensures j > 0 ==> polls[j - 1].flag.Flag?
    ensures forall k :: j <= k < n ==> polls[k].flag.FlagError?
  {
    if n == 0 || polls[n - 1].flag.Flag? then n else LastFlag(polls, n - 1)
  }

  /** The same for the flag: the answer of the latest successful flag call, initially off. */
  lemma {:induction false} FlagIsLatestSuccess(polls: seq<Poll>, i: nat)
    requires i <= 2 * |polls|
    ensures var j := LastFlag(polls, i / 2);
      StateAt(polls, i).flag == (j > 0 && polls[j - 1].flag.enabled)
  {
    if i > 0 {
      FlagIsLatestSuccess(polls, i - 1);
      assert (i - 1) / 2 == if i % 2 == 0 then i / 2 - 1 else i / 2;
    }
  }

  // ---------------------------------------------------------------- three separate reads

  /** The instants of the three reads of one request. */
  datatype Reads = Reads(flag: nat, count: nat, member: nat) {
    predicate Within(polls: seq<Poll>) { flag <= count <= member <= 2 * |polls| }
  }

  /** The check with polls in between: each critical section sees its own instant. */
  function Validate(settings: Settings, token: Token, polls: seq<Poll>, r: Reads): Verdict
    requires r.Within(polls)
  {
    if settings.disableAllValidation || !StateAt(polls, r.flag).flag then Allowed
    else if StateAt(polls, r.count).orgs == {} then Allowed
    else
      match Inspect(settings, token)
      case Final(v) => v
      case LookUp(orgId) => if orgId in StateAt(polls, r.member).orgs then Restricted(orgId) else Allowed
  }

  // ---------------------------------------------------------------- the decision, by the token alone

  /** A person's token whose scope text contains the offline scope. */
  ghost predicate HasOfflineScope(token: Token) {
    token.Claims? && !token.serviceAccount && token.scope.Some? && Strings.Contains(token.scope.value, "offline_access")
  }

  /** The organization such a token names: its own claim, or the id of its organization object; "" without either. */
  ghost predicate Names(token: Token, orgId: string) {
    token.Claims? &&
    match token.orgId
    case Some(id) => id == orgId
    case None => if token.organization.Organization? then token.organization.id == Some(orgId) else orgId == ""
  }

  ghost predicate LacksOrganization(token: Token) {
    token.Claims? && token.orgId.None? && token.organization == Organization(None)
  }

  ghost predicate BadToken(settings: Settings, token: Token) {
    token.InvalidToken? || (token.NoToken? && settings.errorOnMissingToken)
  }

  /** What the three reads, with validation on, make of a token. */
  lemma ValidateExactly(settings: Settings, token: Token, polls: seq<Poll>, r: Reads, orgId: string)
    requires r.Within(polls)
    ensures var v := Validate(settings, token, polls, r);
      var on := !settings.disableAllValidation && StateAt(polls, r.flag).flag && StateAt(polls, r.count).orgs != {};
      && (v == Restricted(orgId) <==>
           on && HasOfflineScope(token) && Names(token, orgId) && orgId in StateAt(polls, r.member).orgs)
      && (v == NoOrganizationId <==> on && HasOfflineScope(token) && LacksOrganization(token))
      && (v == TokenError <==> on && BadToken(settings, token))
      && (v == Allowed <==>
           || !on
           || (!BadToken(settings, token) && !HasOfflineScope(token))
           || (HasOfflineScope(token) && !LacksOrganization(token) &&
               forall o :: Names(token, o) ==> o !in StateAt(polls, r.member).orgs))
  {
    if HasOfflineScope(token) && !LacksOrganization(token) {
      assert exists o :: Names(token, o) by {
        assert Names(token, if token.orgId.Some? then token.orgId.value
                            else if token.organization.Organization? then token.organization.id.value else "");
      }
    }
  }

  /** What is published at one instant makes the same of it. */
  lemma DecideExactly(settings: Settings, token: Token, s: Published, orgId: string)
    ensures var v := Decide(settings, token, s);
      var on := !settings.disableAllValidation && s.flag && s.orgs != {};
      && (v == Restricted(orgId) <==> on && HasOfflineScope(token) && Names(token, orgId) && orgId in s.orgs)
      && (v == NoOrganizationId <==> on && HasOfflineScope(token) && LacksOrganization(token))
      && (v == TokenError <==> on && BadToken(settings, token))
      && (v == Allowed <==>
           || !on
           || (!BadToken(settings, token) && !HasOfflineScope(token))
           || (HasOfflineScope(token) && !LacksOrganization(token) && forall o :: Names(token, o) ==> o !in s.orgs))
  {
    if HasOfflineScope(token) && !LacksOrganization(token) {
      assert exists o :: Names(token, o) by {
        assert Names(token, if token.orgId.Some? then token.orgId.value
                            else if token.organization.Organization? then token.organization.id.value else "");
      }
    }
  }

  // ---------------------------------------------------------------- atomicity

  /** Some instant from the first read up to `until` would have given this verdict atomically. */
  ghost predicate Explained(settings: Settings, token: Token, polls: seq<Poll>, from: nat, until: nat, v: Verdict)
    requires until <= 2 * |polls|
  {
    exists s :: from <= s <= until && Decide(settings, token, StateAt(polls, s)) == v
  }

  /** A verdict that does not look the organization up is final once the count is read. */
  function LastRead(v: Verdict, r: Reads): nat {
    if v.TokenError? || v.NoOrganizationId? then r.count else r.member
  }

  /** Every acceptance is the atomic decision at some instant of the request. */
  lemma AcceptanceIsAtomic(settings: Settings, token: Token, polls: seq<Poll>, r: Reads)
    requires r.Within(polls) && Validate(settings, token, polls, r) == Allowed
    ensures Explained(settings, token, polls, r.flag, r.member, Allowed)
  {
    if settings.disableAllValidation || !StateAt(polls, r.flag).flag {
      assert Decide(settings, token, StateAt(polls, r.flag)) == Allowed;
    } else if StateAt(polls, r.count).orgs == {} {
      assert Decide(settings, token, StateAt(polls, r.count)) == Allowed;
    } else {
      assert Decide(settings, token, StateAt(polls, r.member)) == Allowed;
    }
  }

  /** The flag is on at some instant up to `until` at which the organizations were already those of `until`. */
  ghost predicate OnSincePublication(polls: seq<Poll>, from: nat, until: nat)
    requires until <= 2 * |polls|
  {
    exists s :: from <= s <= until && LastPublication(polls, until) <= s && StateAt(polls, s).flag
  }

  /**
   * When the three reads of a request that finds the flag on and organizations
   * published always agree with one instant, whatever the published sets hold.
   */
  ghost predicate AtomicTiming(polls: seq<Poll>, r: Reads)
    requires r.Within(polls)
  {
    StateAt(polls, r.flag).flag && LastPublication(polls, r.count) > 0 ==>
      OnSincePublication(polls, r.flag, r.count) && OnSincePublication(polls, r.flag, r.member)
  }

  lemma TimingExplains(settings: Settings, token: Token, polls: seq<Poll>, r: Reads)
    requires r.Within(polls) && AtomicTiming(polls, r)
    ensures var v := Validate(settings, token, polls, r);
      Explained(settings, token, polls, r.flag, LastRead(v, r), v)
  {
    var v := Validate(settings, token, polls, r);
    if v == Allowed {
      AcceptanceIsAtomic(settings, token, polls, r);
    } else {
      OrgsOfLastPublication(polls, r.count);
      var until := LastRead(v, r);
      var s :| r.flag <= s <= until && LastPublication(polls, until) <= s && StateAt(polls, s).flag;
      OrgsSinceLastPublication(polls, s, until);
      assert Decide(settings, token, StateAt(polls, s)) == v;
    }
  }

  // ---------------------------------------------------------------- the timing condition is exact

  /** Polls that succeed and fail alike and give the same flag answers; the organizations may differ. */
  predicate SameTiming(p: seq<Poll>, q: seq<Poll>) {
    |p| == |q| && forall k :: 0 <= k < |p| ==>
      p[k].flag == q[k].flag && Publication(p[k]).Some? == Publication(q[k]).Some?
  }

  lemma {:induction false} SameTimingSameFlag(p: seq<Poll>, q: seq<Poll>, i: nat)
    requires SameTiming(p, q) && i <= 2 * |p|
    ensures StateAt(p, i).flag == StateAt(q, i).flag
    ensures LastPublication(p, i) == LastPublication(q, i)
  {
    if i > 0 {
      SameTimingSameFlag(p, q, i - 1);
    }
  }

  /** Polls of the same timing in which the publication at instant `j` holds `late` and all others `early`. */
  function Rewritten(polls: seq<Poll>, j: nat, early: seq<string>, late: seq<string>): (q: seq<Poll>)
    ensures |q| == |polls|
    ensures forall k :: 0 <= k < |polls| ==>
      && q[k].flag == polls[k].flag
      && Publication(q[k]) == if Publication(polls[k]).None? then None
                              else Some(SetOf(if k == j / 2 then late else early))
  {
    seq(|polls|, (k: nat) requires k < |polls| =>
      if Publication(polls[k]).None? then polls[k]
      else Poll(Labels(["org"]), Orgs(if k == j / 2 then late else early), polls[k].flag))
  }

  /** Within a request, every verdict is explained for every content of the published sets. */
  ghost predicate AlwaysExplained(polls: seq<Poll>, r: Reads)
    requires r.Within(polls)
  {
    forall settings, token, q :: SameTiming(polls, q) ==>
      var v := Validate(settings, token, q, r);
      Explained(settings, token, q, r.flag, LastRead(v, r), v)
  }

  const STRICT := Settings(false, true)

  function OfflineToken(orgId: string): Token {
    Claims(false, Some(SCOPE_OFFLINE_ACCESS), Some(orgId), NoOrganization)
  }

  lemma OfflineTokenLooksUp(orgId: string)
    ensures Inspect(STRICT, OfflineToken(orgId)) == LookUp(orgId)
  {
    assert Strings.At(SCOPE_OFFLINE_ACCESS, SCOPE_OFFLINE_ACCESS, 0);
  }

  lemma RewrittenState(polls: seq<Poll>, j: nat, early: seq<string>, late: seq<string>, i: nat)
    requires i <= 2 * |polls| && j <= 2 * |polls| && Publishes(polls, j)
    ensures var s := StateAt(Rewritten(polls, j, early, late), i);
      && s.flag == StateAt(polls, i).flag
      && s.orgs == if LastPublication(polls, i) == 0 then {}
                   else SetOf(if LastPublication(polls, i) == j then late else early)
  {
    var q := Rewritten(polls, j, early, late);
    SameTimingSameFlag(polls, q, i);
    OrgsOfLastPublication(q, i);
  }

  lemma {:induction false} LastPublicationGrows(polls: seq<Poll>, i: nat, k: nat)
    requires i <= k <= 2 * |polls|
    ensures LastPublication(polls, i) <= LastPublication(polls, k)
  {
    if i < k {
      LastPublicationGrows(polls, i, k - 1);
    }
  }

  /** If the flag was off ever since the last publication, its organizations can be restricted inexplicably. */
  lemma LateMemberUnexplained(polls: seq<Poll>, r: Reads)
    requires r.Within(polls) && StateAt(polls, r.flag).flag && LastPublication(polls, r.count) > 0
    requires !OnSincePublication(polls, r.flag, r.member)
    ensures !AlwaysExplained(polls, r)
  {
    LastPublicationGrows(polls, r.count, r.member);
    var j := LastPublication(polls, r.member);
    var q := Rewritten(polls, j, ["y"], ["x"]);
    var token := OfflineToken("x");
    OfflineTokenLooksUp("x");
    RewrittenState(polls, j, ["y"], ["x"], r.flag);
    RewrittenState(polls, j, ["y"], ["x"], r.count);
    RewrittenState(polls, j, ["y"], ["x"], r.member);
    assert "x" in SetOf(["x"]) && "y" in SetOf(["y"]);
    var v := Validate(STRICT, token, q, r);
    assert v == Restricted("x");
    forall s | r.flag <= s <= r.member ensures Decide(STRICT, token, StateAt(q, s)) != v {
      RewrittenState(polls, j, ["y"], ["x"], s);
      LastPublicationGrows(polls, s, r.member);
    }
    assert !Explained(STRICT, token, q, r.flag, LastRead(v, r), v);
  }

  /** Likewise a token error, which only needs some organization to be published. */
  lemma LateCountUnexplained(polls: seq<Poll>, r: Reads)
    requires r.Within(polls) && StateAt(polls, r.flag).flag && LastPublication(polls, r.count) > 0
    requires !OnSincePublication(polls, r.flag, r.count)
    ensures !AlwaysExplained(polls, r)
  {
    var j := LastPublication(polls, r.count);
    var q := Rewritten(polls, j, [], ["x"]);
    RewrittenState(polls, j, [], ["x"], r.flag);
    RewrittenState(polls, j, [], ["x"], r.count);
    assert "x" in SetOf(["x"]);
    var v := Validate(STRICT, NoToken, q, r);
    assert v == TokenError;
    forall s | r.flag <= s <= r.count ensures Decide(STRICT, NoToken, StateAt(q, s)) != v {
      RewrittenState(polls, j, [], ["x"], s);
      LastPublicationGrows(polls, s, r.count);
    }
    assert !Explained(STRICT, NoToken, q, r.flag, LastRead(v, r), v);
  }

  lemma SameTimingSameAtomicity(p: seq<Poll>, q: seq<Poll>, r: Reads)
    requires r.Within(p) && SameTiming(p, q) && AtomicTiming(p, r)
    ensures r.Within(q) && AtomicTiming(q, r)
  {
    SameTimingSameFlag(p, q, r.flag);
    SameTimingSameFlag(p, q, r.count);
    SameTimingSameFlag(p, q, r.member);
    forall s: nat | s <= 2 * |p| ensures StateAt(p, s).flag == StateAt(q, s).flag {
      SameTimingSameFlag(p, q, s);
    }
    if StateAt(q, r.flag).flag && LastPublication(q, r.count) > 0 {
      var s :| r.flag <= s <= r.count && LastPublication(p, r.count) <= s && StateAt(p, s).flag;
      var t :| r.flag <= t <= r.member && LastPublication(p, r.member) <= t && StateAt(p, t).flag;
      assert StateAt(q, s).flag && StateAt(q, t).flag;
    }
  }

  /**
   * The three reads are explainable by one instant for every content of the
   * published sets, every token and every setting exactly when the flag, if the
   * request found it on, was on at some instant since the last publication.
   */
  lemma AlwaysExplainedExactly(polls: seq<Poll>, r: Reads)
    requires r.Within(polls)
    ensures AlwaysExplained(polls, r) <==> AtomicTiming(polls, r)
  {
    if AtomicTiming(polls, r) {
      forall settings, token, q | SameTiming(polls, q)
        ensures Explained(settings, token, q, r.flag, LastRead(Validate(settings, token, q, r), r),
                          Validate(settings, token, q, r))
      {
        SameTimingSameAtomicity(polls, q, r);
        TimingExplains(settings, token, q, r);
      }
    } else if !OnSincePublication(polls, r.flag, r.member) {
      LateMemberUnexplained(polls, r);
    } else {
      LateCountUnexplained(polls, r);
    }
  }

  // ---------------------------------------------------------------- two sufficient timings

  /** Step `s` to `s + 1` switches the flag off. */
  predicate SwitchesOff(polls: seq<Poll>, s: nat)
    requires s < 2 * |polls|
  {
    StateAt(polls, s).flag && !StateAt(polls, s + 1).flag
  }

  /** Within the request, no publication of organizations follows a switch-off. */
  ghost predicate NoPublicationAfterOff(polls: seq<Poll>, r: Reads)
    requires r.Within(polls)
  {
    forall s, t :: r.flag <= s < t <= r.member && SwitchesOff(polls, s) ==> !Publishes(polls, t)
  }

  lemma {:induction false} FirstOff(polls: seq<Poll>, from: nat, until: nat) returns (s: nat)
    requires from <= until <= 2 * |polls| && StateAt(polls, from).flag && !StateAt(polls, until).flag
    ensures from <= s < until && SwitchesOff(polls, s)
    decreases until - from
  {
    if StateAt(polls, from + 1).flag {
      s := FirstOff(polls, from + 1, until);
    } else {
      s := from;
    }
  }

  lemma {:induction false} OnUntilOff(polls: seq<Poll>, from: nat, until: nat)
    requires from <= until <= 2 * |polls| && StateAt(polls, from).flag
    requires forall s, t :: from <= s < t <= until && SwitchesOff(polls, s) ==> !Publishes(polls, t)
    ensures OnSincePublication(polls, from, until)
  {
    if StateAt(polls, until).flag {
      assert until <= until;
    } else {
      OnUntilOff(polls, from, until - 1);
      var s :| from <= s <= until - 1 && LastPublication(polls, until - 1) <= s && StateAt(polls, s).flag;
      if Publishes(polls, until) {
        var u := FirstOff(polls, s, until);
        assert false;
      }
    }
  }

  /** Every verdict is atomic when no publication follows a switch-off within the request. */
  lemma QuietSwitchOffIsAtomic(settings: Settings, token: Token, polls: seq<Poll>, r: Reads)
    requires r.Within(polls) && NoPublicationAfterOff(polls, r)
    ensures var v := Validate(settings, token, polls, r);
      Explained(settings, token, polls, r.flag, LastRead(v, r), v)
  {
    if StateAt(polls, r.flag).flag {
      OnUntilOff(polls, r.flag, r.count);
      OnUntilOff(polls, r.flag, r.member);
    }
    TimingExplains(settings, token, polls, r);
  }

  /** Because each poll publishes organizations before the flag, a request that overlaps one poll at most is atomic. */
  lemma OnePollIsAtomic(settings: Settings, token: Token, polls: seq<Poll>, r: Reads, k: nat)
    requires r.Within(polls) && k < |polls| && 2 * k <= r.flag && r.member <= 2 * k + 2
    ensures var v := Validate(settings, token, polls, r);
      Explained(settings, token, polls, r.flag, LastRead(v, r), v)
  {
    forall s, t | r.flag <= s < t <= r.member && SwitchesOff(polls, s) ensures !Publishes(polls, t) {
      assert s == 2 * k + 1;
    }
    QuietSwitchOffIsAtomic(settings, token, polls, r);
  }

  /** A request can outlast a switch-off and the next publication, and then restricts inexplicably. */
  lemma LateRestrictionExample()
    ensures var on := Poll(Labels(["1"]), Orgs(["a"]), Flag(true));
      var off := Poll(LabelError, OrgError, Flag(false));
      var renewed := Poll(Labels(["1", "2"]), Orgs(["a", "b"]), Flag(false));
      var polls, r := [on, off, renewed], Reads(2, 3, 5);
      && r.Within(polls)
      && Validate(STRICT, OfflineToken("b"), polls, r) == Restricted("b")
      && !Explained(STRICT, OfflineToken("b"), polls, 0, 6, Restricted("b"))
  {
    OfflineTokenLooksUp("b");
    var on := Poll(Labels(["1"]), Orgs(["a"]), Flag(true));
    var off := Poll(LabelError, OrgError, Flag(false));
    var renewed := Poll(Labels(["1", "2"]), Orgs(["a", "b"]), Flag(false));
    var polls := [on, off, renewed];
    assert "a" in Publication(on).value && "b" in Publication(renewed).value;
    assert StateAt(polls, 0) == Published({}, false);
    assert StateAt(polls, 1) == Published(Publication(on).value, false);
    assert StateAt(polls, 2) == Published(Publication(on).value, true);
    assert StateAt(polls, 3) == StateAt(polls, 2);
    assert StateAt(polls, 4) == Published(Publication(on).value, false);
    assert StateAt(polls, 5) == Published(Publication(renewed).value, false);
    assert StateAt(polls, 6) == Published(Publication(renewed).value, false);
  }
}
