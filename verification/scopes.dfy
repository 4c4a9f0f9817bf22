/** Validation of the scopes of a token, and its combination with the offline-token check. */
module Scopes {
  import opened Options
  import opened Seqs
  import opened Strings
  import Offline

  datatype Config = Config(
    settings: Offline.Settings,
    required: seq<string>,
    denied: seq<string>,
    enforceServiceAccountScopes: bool)

  datatype Verdict =
    | Accepted
    | BadToken
    | Missing(scopes: seq<string>)
    | Denied(scopes: seq<string>)
    | OfflineRefused(verdict: Offline.Verdict)

  function Kept(scope: string, present: seq<string>, wanted: bool): seq<string> {
    if (scope in present) == wanted then [scope] else []
  }

  /** The scopes for which `wanted` says whether they are among `present`, in order and with repetitions. */
  function Select(scopes: seq<string>, present: seq<string>, wanted: bool): (kept: seq<string>)
    ensures |kept| <= |scopes|
  {
    if scopes == [] then []
    else Kept(scopes[0], present, wanted) + Select(scopes[1..], present, wanted)
  }

  /** The scopes a token presents, unless there is nothing to check. */
  function Presented(c: Config, token: Offline.Token): Option<seq<string>> {
    if !token.Claims? || (token.serviceAccount && !c.enforceServiceAccountScopes) || token.scope.None? then None
    else Some(Split(token.scope.value, ' '))
  }

  function Validate(c: Config, token: Offline.Token): Verdict {
    if c.settings.disableAllValidation || (c.required == [] && c.denied == []) then Accepted
    else if token.InvalidToken? || (token.NoToken? && c.settings.errorOnMissingToken) then BadToken
    else
      match Presented(c, token)
      case None => Accepted
      case Some(present) =>
        var missing := Select(c.required, present, false);
        var denied := Select(c.denied, present, true);
        if missing != [] then Missing(missing)
        else if denied != [] then Denied(denied)
        else Accepted
  }

  lemma {:induction false} SelectSnoc(scopes: seq<string>, s: string, present: seq<string>, wanted: bool)
    ensures Select(scopes + [s], present, wanted) ==
      Select(scopes, present, wanted) + Kept(s, present, wanted)
  {
    hide Kept;
    if scopes == [] {
      assert scopes + [s] == [s] && [s][1..] == [];
      assert Select([s], present, wanted) == Kept(s, present, wanted) + Select([s][1..], present, wanted);
    } else {
      assert (scopes + [s])[1..] == scopes[1..] + [s];
      SelectSnoc(scopes[1..], s, present, wanted);
      var first, last := Kept(scopes[0], present, wanted), Kept(s, present, wanted);
      ConcatAssociates(first, Select(scopes[1..], present, wanted), last);
    }
  }

  /** The nested loops over the configured scopes and the presented ones. */
  method Collect(scopes: seq<string>, present: seq<string>, wanted: bool) returns (kept: seq<string>)
    ensures kept == Select(scopes, present, wanted)
  {
    kept := [];
    for i := 0 to |scopes|
      invariant kept == Select(scopes[..i], present, wanted)
    {
      var found := false;
      for j := 0 to |present|
        invariant !found && scopes[i] !in present[..j]
      {
        if scopes[i] == present[j] {
          found := true;
          break;
        }
      }
      assert present[..|present|] == present;
      SelectSnoc(scopes[..i], scopes[i], present, wanted);
      assert scopes[..i + 1] == scopes[..i] + [scopes[i]];
      if found == wanted {
        kept := kept + [scopes[i]];
      }
    }
    assert scopes[..|scopes|] == scopes;
  }

  method ValidateScopes(c: Config, token: Offline.Token) returns (verdict: Verdict)
    ensures verdict == Validate(c, token)
  {
    if c.settings.disableAllValidation {
      return Accepted;
    }
    if |c.denied| == 0 && |c.required| == 0 {
      return Accepted;
    }
    if token.NoToken? && !c.settings.errorOnMissingToken {
      return Accepted;
    }
    if !token.Claims? {
      return BadToken;
    }
    if token.serviceAccount && !c.enforceServiceAccountScopes {
      return Accepted;
    }
    if token.scope.None? {
      return Accepted;
    }
    var present := Split(token.scope.value, ' ');
    if |c.required| > 0 {
      var missing := Collect(c.required, present, false);
      if |missing| > 0 {
        return Missing(missing);
      }
    }
    if |c.denied| > 0 {
      var denied := Collect(c.denied, present, true);
      if |denied| > 0 {
        return Denied(denied);
      }
    }
    verdict := Accepted;
  }

  /** Selecting keeps exactly the wanted scopes, as often as they were listed. */
  lemma {:induction false} SelectKeepsMultiplicity(scopes: seq<string>, present: seq<string>, wanted: bool, s: string)
    ensures multiset(Select(scopes, present, wanted))[s] == if (s in present) == wanted then multiset(scopes)[s] else 0
  {
    if scopes != [] {
      var first, rest := scopes[0], scopes[1..];
      var kept := Kept(first, present, wanted);
      SelectKeepsMultiplicity(rest, present, wanted, s);
      assert scopes == [first] + rest;
      assert multiset(scopes)[s] == (if s == first then 1 else 0) + multiset(rest)[s];
      var others := Select(rest, present, wanted);
      assert multiset(kept + others)[s] == multiset(kept)[s] + multiset(others)[s];
    }
  }

  predicate IsSubsequence(xs: seq<string>, ys: seq<string>)
    decreases |ys|
  {
    xs == [] || (ys != [] && ((xs[0] == ys[0] && IsSubsequence(xs[1..], ys[1..])) || IsSubsequence(xs, ys[1..])))
  }

  /** And in the order in which they were listed. */
  lemma {:induction false} SelectKeepsOrder(scopes: seq<string>, present: seq<string>, wanted: bool)
    ensures IsSubsequence(Select(scopes, present, wanted), scopes)
  {
    if scopes != [] {
      SelectKeepsOrder(scopes[1..], present, wanted);
      var kept := Select(scopes[1..], present, wanted);
      if (scopes[0] in present) == wanted {
        assert ([scopes[0]] + kept)[1..] == kept;
      } else {
        assert [] + kept == kept;
      }
    }
  }

  /** A scope listed as a whole also passes the substring test that guards the organization check. */
  lemma WholeScopeIsSubstring(scope: string, s: string)
    requires s in Split(scope, ' ')
    ensures Contains(scope, s)
  {
    SplitPartIsSubstring(scope, ' ', s);
  }

  lemma SelectsNothingExactly(scopes: seq<string>, present: seq<string>, wanted: bool)
    ensures Select(scopes, present, wanted) == [] <==> forall s :: s in scopes ==> (s in present) != wanted
  {
    hide Select;
    var kept := Select(scopes, present, wanted);
    if kept == [] {
      forall s | s in scopes ensures (s in present) != wanted {
        SelectKeepsMultiplicity(scopes, present, wanted, s);
        assert s in multiset(scopes);
      }
    } else {
      SelectKeepsMultiplicity(scopes, present, wanted, kept[0]);
      assert kept[0] in multiset(kept) && kept[0] in multiset(scopes);
    }
  }

  /** The scopes of this token have to be checked. */
  predicate HasToCheck(c: Config, token: Offline.Token) {
    && !c.settings.disableAllValidation && (c.required != [] || c.denied != [])
    && token.Claims? && (!token.serviceAccount || c.enforceServiceAccountScopes) && token.scope.Some?
  }

  /** `reported` are the listed scopes that are, or are not, among those presented: as often and in the order listed. */
  ghost predicate Reports(reported: seq<string>, listed: seq<string>, presented: string, wanted: bool) {
    && IsSubsequence(reported, listed)
    && forall s :: multiset(reported)[s] == if (s in Split(presented, ' ')) == wanted then multiset(listed)[s] else 0
  }

  lemma SelectReports(scopes: seq<string>, presented: string, wanted: bool)
    ensures Reports(Select(scopes, Split(presented, ' '), wanted), scopes, presented, wanted)
  {
    hide Select, IsSubsequence, Split;
    SelectKeepsOrder(scopes, Split(presented, ' '), wanted);
    forall s ensures multiset(Select(scopes, Split(presented, ' '), wanted))[s] ==
      if (s in Split(presented, ' ')) == wanted then multiset(scopes)[s] else 0
    {
      SelectKeepsMultiplicity(scopes, Split(presented, ' '), wanted, s);
    }
  }

  /** Exactly when which verdict is given, and what it reports. */
  lemma ValidateExactly(c: Config, token: Offline.Token)
    ensures var v := Validate(c, token);
      && (v == BadToken <==>
           && !c.settings.disableAllValidation && (c.required != [] || c.denied != [])
           && (token.InvalidToken? || (token.NoToken? && c.settings.errorOnMissingToken)))
      && (v.Missing? <==>
           HasToCheck(c, token) && exists s :: s in c.required && s !in Split(token.scope.value, ' '))
      && (v.Missing? ==> Reports(v.scopes, c.required, token.scope.value, false))
      && (v.Denied? <==>
           && HasToCheck(c, token) && (forall s :: s in c.required ==> s in Split(token.scope.value, ' '))
           && exists s :: s in c.denied && s in Split(token.scope.value, ' '))
      && (v.Denied? ==> Reports(v.scopes, c.denied, token.scope.value, true))
      && !v.OfflineRefused?
  {
    hide Select, Split, Reports;
    if HasToCheck(c, token) {
      var presented := token.scope.value;
      SelectsNothingExactly(c.required, Split(presented, ' '), false);
      SelectsNothingExactly(c.denied, Split(presented, ' '), true);
      SelectReports(c.required, presented, false);
      SelectReports(c.denied, presented, true);
    }
  }

  // ---------------------------------------------------------------- both validations

  /** `ValidateAll`: the offline check, with its three reads at these instants of the polls, then the scopes. */
  function ValidateAll(c: Config, token: Offline.Token, polls: seq<Offline.Poll>, r: Offline.Reads): Verdict
    requires r.Within(polls)
  {
    if c.settings.disableAllValidation then Accepted
    else
      var v := Offline.Validate(c.settings, token, polls, r);
      if v != Offline.Allowed then OfflineRefused(v) else Validate(c, token)
  }

  /**
   * Whatever the poller has published, a token is accepted only if its scopes are:
   * validation on and, unless it is an exempt service account or carries no scopes,
   * every required scope present and no denied one.
   */
  lemma AcceptedMeansScopesOk(c: Config, token: Offline.Token, polls: seq<Offline.Poll>, r: Offline.Reads)
    requires r.Within(polls) && !c.settings.disableAllValidation
    requires ValidateAll(c, token, polls, r) == Accepted && Presented(c, token).Some?
    ensures forall s :: s in c.required ==> s in Presented(c, token).value
    ensures forall s :: s in c.denied ==> s !in Presented(c, token).value
  {
    hide Select;
    var present := Presented(c, token).value;
    SelectsNothingExactly(c.required, present, false);
    SelectsNothingExactly(c.denied, present, true);
  }

  /** The organization a token is looked up under: its own claim, or else the id in the organization claim. */
  function OrganizationOf(token: Offline.Token): Option<string>
    requires token.Claims?
  {
    if token.orgId.Some? then token.orgId
    else if token.organization.Organization? then token.organization.id
    else Some("")
  }

  /**
   * A person's token that lists `offline_access` as a scope is refused for its
   * organization exactly when the first read finds the flag on, the second some
   * organization restricted and the third its own.
   */
  lemma RestrictedOfflineTokenIsRefused(c: Config, token: Offline.Token, polls: seq<Offline.Poll>, r: Offline.Reads,
                                        orgId: string)
    requires r.Within(polls) && !c.settings.disableAllValidation
    requires token.Claims? && !token.serviceAccount && token.scope.Some? && OrganizationOf(token) == Some(orgId)
    requires Offline.SCOPE_OFFLINE_ACCESS in Split(token.scope.value, ' ')
    ensures ValidateAll(c, token, polls, r) == OfflineRefused(Offline.Restricted(orgId)) <==>
      && Offline.StateAt(polls, r.flag).flag
      && Offline.StateAt(polls, r.count).orgs != {}
      && orgId in Offline.StateAt(polls, r.member).orgs
  {
    WholeScopeIsSubstring(token.scope.value, Offline.SCOPE_OFFLINE_ACCESS);
  }

  /** Both validations have their say, the offline check first; switching validation off silences both. */
  lemma ValidateAllExactly(c: Config, token: Offline.Token, polls: seq<Offline.Poll>, r: Offline.Reads)
    requires r.Within(polls)
    ensures var offline := Offline.Validate(c.settings, token, polls, r);
      ValidateAll(c, token, polls, r) ==
        if offline == Offline.Allowed then Validate(c, token) else OfflineRefused(offline)
    ensures c.settings.disableAllValidation ==> ValidateAll(c, token, polls, r) == Accepted
  {
  }
}
