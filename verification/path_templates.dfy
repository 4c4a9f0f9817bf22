/**
 * Two normalisers of path templates: the client metrics label a route with
 * `{[^}]*}` replaced by "-", and generated dashboards hold a path with `\{(.*?)}`
 * replaced by "-".  Both are related to one left-to-right scanner.
 */
module PathTemplates {
  import opened Options
  import opened Regex
  import opened Seqs

  /** `{[^}]*}`, as the client metrics compile it. */
  const METRICS_PATH_VAR := Then(One(Only('{')), Then(Star(Except('}'), true), One(Only('}'))))

  /** `\{(.*?)}`, as the dashboard generator compiles it; "." does not match a newline. */
  const NORMALIZE_PATH := Then(One(Only('{')), Then(Star(Except('\n'), false), One(Only('}'))))

  const PATH_VAR_SUB := "-"

  function ReducedTemplate(template: string): string {
    ReplaceAllString(METRICS_PATH_VAR, template, PATH_VAR_SUB)
  }

  function NormalizePath(path: string): string {
    ReplaceAllString(NORMALIZE_PATH, path, PATH_VAR_SUB)
  }

  // ---------------------------------------------------------------- one scanner for both

  /** The first closing brace after position `i`, unless a newline comes first and `dot` excludes newlines. */
  function Closing(s: string, i: nat, dot: bool): (j: Option<nat>)
    requires i <= |s|
    ensures j.Some? ==> i <= j.value < |s|
    decreases |s| - i
  {
    if i == |s| then None
    else if s[i] == '}' then Some(i)
    else if dot && s[i] == '\n' then None
    else Closing(s, i + 1, dot)
  }

  /** The scanner: a brace with a closing brace becomes "-" together with what is between them. */
  function Scan(s: string, i: nat, dot: bool): string
    requires i <= |s|
    decreases |s| - i
  {
    if i == |s| then ""
    else if s[i] == '{' && Closing(s, i + 1, dot).Some? then
      PATH_VAR_SUB + Scan(s, Closing(s, i + 1, dot).value + 1, dot)
    else [s[i]] + Scan(s, i + 1, dot)
  }

  lemma ScanReplaces(s: string, i: nat, dot: bool)
    requires i < |s| && s[i] == '{' && Closing(s, i + 1, dot).Some?
    ensures Scan(s, i, dot) == PATH_VAR_SUB + Scan(s, Closing(s, i + 1, dot).value + 1, dot)
  {
  }

  lemma ScanCopiesOne(s: string, i: nat, dot: bool)
    requires i < |s| && !(s[i] == '{' && Closing(s, i + 1, dot).Some?)
    ensures Scan(s, i, dot) == [s[i]] + Scan(s, i + 1, dot)
  {
  }

  lemma ScanEnds(s: string, dot: bool)
    ensures Scan(s, |s|, dot) == ""
  {
  }

  const GREEDY_REST := Then(Star(Except('}'), true), One(Only('}')))
  const LAZY_REST := Then(Star(Except('\n'), false), One(Only('}')))

  lemma OneEnds(c: char, s: string, i: nat)
    requires i <= |s|
    ensures Ends(One(Only(c)), s, i) == if i < |s| && s[i] == c then [i + 1] else []
  {
  }

  /** Trying the longest stretch without "}" first, only the stretch up to the first "}" works. */
  lemma {:induction false} GreedyRest(s: string, i: nat)
    requires i <= |s|
    ensures var j := Closing(s, i, false);
      Ends(GREEDY_REST, s, i) == if j.None? then [] else [j.value + 1]
    decreases |s| - i
  {
    hide Ends, EndsFrom;
    StarThen(Except('}'), true, One(Only('}')), s, i);
    OneEnds('}', s, i);
    if i < |s| && s[i] != '}' {
      GreedyRest(s, i + 1);
      assert Ends(GREEDY_REST, s, i) == Ends(GREEDY_REST, s, i + 1);
    } else {
      assert Ends(GREEDY_REST, s, i) == Ends(One(Only('}')), s, i);
    }
  }

  /** Trying the shortest stretch without a newline first, the first that works ends at the first "}". */
  lemma {:induction false} LazyRest(s: string, i: nat)
    requires i <= |s|
    ensures var j := Closing(s, i, true);
      if j.None? then Ends(LAZY_REST, s, i) == []
      else Ends(LAZY_REST, s, i) != [] && Ends(LAZY_REST, s, i)[0] == j.value + 1
    decreases |s| - i
  {
    hide Ends, EndsFrom;
    StarThen(Except('\n'), false, One(Only('}')), s, i);
    OneEnds('}', s, i);
    if i < |s| && s[i] != '\n' {
      LazyRest(s, i + 1);
    }
  }

  lemma OpeningThen(rest: Re, s: string, i: nat)
    requires i < |s|
    ensures Ends(Then(One(Only('{')), rest), s, i) == if s[i] == '{' then Ends(rest, s, i + 1) else []
  {
    OneEnds('{', s, i);
    EndsFromOne(rest, s, i + 1);
  }

  function Pattern(dot: bool): Re {
    if dot then NORMALIZE_PATH else METRICS_PATH_VAR
  }

  lemma GreedyMatch(s: string, i: nat)
    requires i < |s|
    ensures Match(METRICS_PATH_VAR, s, i) ==
      if s[i] == '{' && Closing(s, i + 1, false).Some? then Some(Closing(s, i + 1, false).value + 1) else None
  {
    hide Ends, EndsFrom, Closing;
    OpeningThen(GREEDY_REST, s, i);
    GreedyRest(s, i + 1);
    assert Ends(METRICS_PATH_VAR, s, i) == if s[i] == '{' then Ends(GREEDY_REST, s, i + 1) else [];
  }

  lemma LazyMatch(s: string, i: nat)
    requires i < |s|
    ensures Match(NORMALIZE_PATH, s, i) ==
      if s[i] == '{' && Closing(s, i + 1, true).Some? then Some(Closing(s, i + 1, true).value + 1) else None
  {
    hide Ends, EndsFrom, Closing;
    OpeningThen(LAZY_REST, s, i);
    LazyRest(s, i + 1);
    assert Ends(NORMALIZE_PATH, s, i) == if s[i] == '{' then Ends(LAZY_REST, s, i + 1) else [];
  }

  lemma MatchIsScan(s: string, i: nat, dot: bool)
    requires i < |s|
    ensures Match(Pattern(dot), s, i) ==
      if s[i] == '{' && Closing(s, i + 1, dot).Some? then Some(Closing(s, i + 1, dot).value + 1) else None
  {
    if dot { LazyMatch(s, i); } else { GreedyMatch(s, i); }
  }

  lemma {:induction false} ReplaceIsScan(s: string, i: nat, dot: bool)
    requires i <= |s|
    ensures ReplaceFrom(Pattern(dot), s, i, PATH_VAR_SUB) == Scan(s, i, dot)
    decreases |s| - i
  {
    hide Scan, Closing, Match, ReplaceFrom;
    if i < |s| {
      MatchIsScan(s, i, dot);
      ReplaceStep(Pattern(dot), s, i, PATH_VAR_SUB);
      if s[i] == '{' && Closing(s, i + 1, dot).Some? {
        ScanReplaces(s, i, dot);
        ReplaceIsScan(s, Closing(s, i + 1, dot).value + 1, dot);
      } else {
        ScanCopiesOne(s, i, dot);
        ReplaceIsScan(s, i + 1, dot);
      }
    } else {
      ScanEnds(s, dot);
      ReplaceEnds(Pattern(dot), s, PATH_VAR_SUB);
    }
  }

  lemma NormalisersAreScans(s: string)
    ensures ReducedTemplate(s) == Scan(s, 0, false) && NormalizePath(s) == Scan(s, 0, true)
  {
    ReplaceIsScan(s, 0, false);
    ReplaceIsScan(s, 0, true);
  }

  // ---------------------------------------------------------------- when the two agree

  predicate Broken(s: string, j: int, k: int, l: int) {
    && 0 <= j < k < l < |s| && s[j] == '{' && s[k] == '\n' && s[l] == '}'
    && forall m :: j < m < l ==> s[m] != '}'
  }

  /** From `i` on, some "{" is followed by a newline before its closing brace. */
  ghost predicate BrokenFrom(s: string, i: nat) {
    exists j, k, l :: i <= j < k < l < |s| && Broken(s, j, k, l)
  }

  /** Where both find a closing brace it is the same one, and the stricter scan fails only on a newline. */
  lemma {:induction false} ClosingMeaning(s: string, i: nat)
    requires i <= |s|
    ensures var j, d := Closing(s, i, false), Closing(s, i, true);
      && (d.Some? ==> d == j)
      && (j.Some? ==> s[j.value] == '}' && forall m :: i <= m < j.value ==> s[m] != '}')
      && (j.None? ==> forall m :: i <= m < |s| ==> s[m] != '}')
      && (d.Some? ==> forall m :: i <= m < d.value ==> s[m] != '\n')
      && (j.Some? && d.None? ==> exists k :: i <= k < j.value && s[k] == '\n')
    decreases |s| - i
  {
    if i < |s| {
      ClosingMeaning(s, i + 1);
    }
  }

  function Newlines(s: string): nat {
    if s == "" then 0 else (if s[0] == '\n' then 1 else 0) + Newlines(s[1..])
  }

  lemma {:induction false} NewlinesConcat(a: string, b: string)
    ensures Newlines(a + b) == Newlines(a) + Newlines(b)
  {
    if a == "" {
      assert a + b == b;
    } else {
      assert (a + b)[1..] == a[1..] + b;
      NewlinesConcat(a[1..], b);
    }
  }

  lemma {:induction false} NewlinesPositive(s: string, k: nat)
    requires k < |s| && s[k] == '\n'
    ensures Newlines(s) > 0
  {
    if k > 0 {
      NewlinesPositive(s[1..], k - 1);
    }
  }

  lemma {:induction false} NewlinesNone(s: string)
    requires forall k :: 0 <= k < |s| ==> s[k] != '\n'
    ensures Newlines(s) == 0
  {
    if s != "" {
      NewlinesNone(s[1..]);
    }
  }

  /** The newlines of the stretches that a scan replaces. */
  function Lost(s: string, i: nat, dot: bool): nat
    requires i <= |s|
    decreases |s| - i
  {
    if i == |s| then 0
    else if s[i] == '{' && Closing(s, i + 1, dot).Some? then
      var e := Closing(s, i + 1, dot).value + 1;
      Newlines(s[i..e]) + Lost(s, e, dot)
    else Lost(s, i + 1, dot)
  }

  lemma SkipKeepsNewlines(s: string, i: nat, dot: bool)
    requires i < |s| && s[i] == '{' && Closing(s, i + 1, dot).Some?
    ensures var e := Closing(s, i + 1, dot).value + 1;
      && Newlines(Scan(s, i, dot)) == Newlines(Scan(s, e, dot))
      && Newlines(s[i..]) == Newlines(s[i..e]) + Newlines(s[e..])
  {
    hide Scan, Closing, Newlines;
    var e := Closing(s, i + 1, dot).value + 1;
    ScanReplaces(s, i, dot);
    NewlinesConcat(PATH_VAR_SUB, Scan(s, e, dot));
    NewlinesNone(PATH_VAR_SUB);
    assert s[i..] == s[i..e] + s[e..];
    NewlinesConcat(s[i..e], s[e..]);
  }

  lemma CopyKeepsNewlines(s: string, i: nat, dot: bool)
    requires i < |s| && !(s[i] == '{' && Closing(s, i + 1, dot).Some?)
    ensures Newlines(Scan(s, i, dot)) - Newlines(Scan(s, i + 1, dot)) == Newlines(s[i..]) - Newlines(s[i + 1..])
  {
    hide Scan, Closing, Newlines;
    ScanCopiesOne(s, i, dot);
    NewlinesConcat([s[i]], Scan(s, i + 1, dot));
    assert s[i..] == [s[i]] + s[i + 1..];
    NewlinesConcat([s[i]], s[i + 1..]);
  }

  lemma LostSkips(s: string, i: nat, e: nat, dot: bool)
    requires i < e <= |s| && s[i] == '{' && Closing(s, i + 1, dot) == Some(e - 1)
    ensures Lost(s, i, dot) == Newlines(s[i..e]) + Lost(s, e, dot)
  {
  }

  lemma LostAtEnd(s: string, dot: bool)
    ensures Lost(s, |s|, dot) == 0 && Newlines(Scan(s, |s|, dot)) == 0 && Newlines(s[|s|..]) == 0
  {
  }

  lemma LostCopies(s: string, i: nat, dot: bool)
    requires i < |s| && !(s[i] == '{' && Closing(s, i + 1, dot).Some?)
    ensures Lost(s, i, dot) == Lost(s, i + 1, dot)
  {
  }

  /** A scan keeps all other newlines, and adds none. */
  lemma {:induction false} ScanLosesLost(s: string, i: nat, dot: bool)
    requires i <= |s|
    ensures Newlines(Scan(s, i, dot)) + Lost(s, i, dot) == Newlines(s[i..])
    decreases |s| - i
  {
    hide Scan, Closing, Newlines, Lost;
    if i == |s| {
      LostAtEnd(s, dot);
    } else {
      var closing := Closing(s, i + 1, dot);
      if s[i] == '{' && closing.Some? {
        var e := closing.value + 1;
        ScanLosesLost(s, e, dot);
        SkipKeepsNewlines(s, i, dot);
        LostSkips(s, i, e, dot);
      } else {
        ScanLosesLost(s, i + 1, dot);
        CopyKeepsNewlines(s, i, dot);
        LostCopies(s, i, dot);
      }
    }
  }

  lemma StretchHasNoNewline(s: string, i: nat)
    requires i < |s| && s[i] == '{' && Closing(s, i + 1, true).Some?
    ensures Newlines(s[i..Closing(s, i + 1, true).value + 1]) == 0
  {
    ClosingMeaning(s, i + 1);
    var e := Closing(s, i + 1, true).value + 1;
    assert s[e - 1] == '}';
    NewlinesNone(s[i..e]);
  }

  /** The stricter scan loses no newline. */
  lemma {:induction false} StrictLosesNone(s: string, i: nat)
    requires i <= |s|
    ensures Lost(s, i, true) == 0
    decreases |s| - i
  {
    hide Closing, Newlines, Lost;
    if i == |s| {
      LostAtEnd(s, true);
    } else if s[i] == '{' && Closing(s, i + 1, true).Some? {
      var e := Closing(s, i + 1, true).value + 1;
      StretchHasNoNewline(s, i);
      StrictLosesNone(s, e);
      LostSkips(s, i, e, true);
    } else {
      StrictLosesNone(s, i + 1);
      LostCopies(s, i, true);
    }
  }

  /** A broken brace begins within the stretch up to the next closing brace, which then holds a newline, or after it. */
  lemma BrokenWhere(s: string, i: nat, e: nat)
    requires i < e <= |s| && s[e - 1] == '}' && BrokenFrom(s, i)
    ensures BrokenFrom(s, e) || exists k :: i < k < e && s[k] == '\n'
  {
    var j, k, l :| i <= j < k < l < |s| && Broken(s, j, k, l);
    if j < e {
      assert j < e - 1;
      assert l <= e - 1;
    } else {
      assert Broken(s, j, k, l);
    }
  }

  lemma BrokenBeforeEnd(s: string, i: nat)
    requires i <= |s| && BrokenFrom(s, i)
    ensures i < |s|
  {
  }

  lemma BrokenLater(s: string, i: nat)
    requires i < |s| && BrokenFrom(s, i) && !(s[i] == '{' && Closing(s, i + 1, false).Some?)
    ensures BrokenFrom(s, i + 1)
  {
    var j, k, l :| i <= j < k < l < |s| && Broken(s, j, k, l);
    ClosingMeaning(s, i + 1);
  }

  lemma NewlineWithin(s: string, i: nat, e: nat)
    requires i < e <= |s| && exists k :: i < k < e && s[k] == '\n'
    ensures Newlines(s[i..e]) > 0
  {
    var k :| i < k < e && s[k] == '\n';
    assert s[i..e][k - i] == '\n';
    NewlinesPositive(s[i..e], k - i);
  }

  /** The other scan loses one when some brace is broken. */
  lemma {:induction false} LooseLosesSome(s: string, i: nat)
    requires i < |s| && BrokenFrom(s, i)
    ensures Lost(s, i, false) > 0
    decreases |s| - i
  {
    hide Closing, Newlines, Lost, BrokenFrom;
    if s[i] == '{' && Closing(s, i + 1, false).Some? {
      var e := Closing(s, i + 1, false).value + 1;
      assert s[e - 1] == '}' by { ClosingMeaning(s, i + 1); }
      BrokenWhere(s, i, e);
      LostSkips(s, i, e, false);
      if BrokenFrom(s, e) {
        BrokenBeforeEnd(s, e);
        LooseLosesSome(s, e);
      } else {
        NewlineWithin(s, i, e);
      }
    } else {
      BrokenLater(s, i);
      BrokenBeforeEnd(s, i + 1);
      LostCopies(s, i, false);
      LooseLosesSome(s, i + 1);
    }
  }

  lemma UnbrokenClosing(s: string, i: nat)
    requires i < |s| && s[i] == '{' && !BrokenFrom(s, i)
    ensures Closing(s, i + 1, false) == Closing(s, i + 1, true)
  {
    ClosingMeaning(s, i + 1);
    var j := Closing(s, i + 1, false);
    if j.Some? && Closing(s, i + 1, true).None? {
      var k :| i + 1 <= k < j.value && s[k] == '\n';
      assert Broken(s, i, k, j.value);
    }
  }

  lemma UnbrokenLater(s: string, i: nat, e: nat)
    requires i <= e <= |s| && !BrokenFrom(s, i)
    ensures !BrokenFrom(s, e)
  {
  }

  lemma {:induction false} UnbrokenScansAgree(s: string, i: nat)
    requires i <= |s| && !BrokenFrom(s, i)
    ensures Scan(s, i, false) == Scan(s, i, true)
    decreases |s| - i
  {
    hide Scan, Closing, BrokenFrom;
    if i == |s| {
      ScanEnds(s, false);
      ScanEnds(s, true);
    } else {
      if s[i] == '{' {
        UnbrokenClosing(s, i);
      }
      if s[i] == '{' && Closing(s, i + 1, true).Some? {
        ScanReplaces(s, i, false);
        ScanReplaces(s, i, true);
        UnbrokenLater(s, i, Closing(s, i + 1, true).value + 1);
        UnbrokenScansAgree(s, Closing(s, i + 1, true).value + 1);
      } else {
        ScanCopiesOne(s, i, false);
        ScanCopiesOne(s, i, true);
        UnbrokenLater(s, i, i + 1);
        UnbrokenScansAgree(s, i + 1);
      }
    }
  }

  /** The metrics label and the dashboard path agree exactly when no brace has a newline before its closing brace. */
  lemma NormalisersAgreeExactly(s: string)
    ensures ReducedTemplate(s) == NormalizePath(s) <==> !BrokenFrom(s, 0)
  {
    hide Scan, Lost, Newlines, BrokenFrom, ReducedTemplate, NormalizePath;
    NormalisersAreScans(s);
    if BrokenFrom(s, 0) {
      ScanLosesLost(s, 0, true);
      ScanLosesLost(s, 0, false);
      StrictLosesNone(s, 0);
      BrokenBeforeEnd(s, 0);
      LooseLosesSome(s, 0);
    } else {
      UnbrokenScansAgree(s, 0);
    }
  }

  lemma NewlineFreeNormalisersAgree(s: string)
    requires '\n' !in s
    ensures ReducedTemplate(s) == NormalizePath(s)
  {
    NormalisersAgreeExactly(s);
  }

  // ---------------------------------------------------------------- shape of the result

  /** No "{" has a "}" after it, for the stricter normaliser on one line. */
  ghost predicate Normal(s: string, dot: bool) {
    forall i, j :: 0 <= i < j < |s| && s[i] == '{' && s[j] == '}' ==>
      dot && exists k :: i < k < j && s[k] == '\n'
  }

  /** Every "}" of the text is behind a newline. */
  ghost predicate ClosingBehindNewline(t: string, dot: bool) {
    forall j :: 0 <= j < |t| && t[j] == '}' ==> dot && exists k :: 0 <= k < j && t[k] == '\n'
  }

  lemma PrependKeepsNormal(c: char, t: string, dot: bool)
    requires Normal(t, dot) && (c == '{' ==> ClosingBehindNewline(t, dot))
    ensures Normal([c] + t, dot)
  {
    var s := [c] + t;
    forall i, j | 0 <= i < j < |s| && s[i] == '{' && s[j] == '}' ensures dot && exists k :: i < k < j && s[k] == '\n' {
      assert t[j - 1] == '}';
      if i > 0 {
        assert t[i - 1] == '{';
        var k :| i - 1 < k < j - 1 && t[k] == '\n';
        assert s[k + 1] == '\n';
      } else {
        var k :| 0 <= k < j - 1 && t[k] == '\n';
        assert s[k + 1] == '\n';
      }
    }
  }

  lemma ClosingNested(s: string, i: nat, dot: bool)
    requires i < |s| && Closing(s, i, dot).None?
    ensures s[i] != '}' && (!(dot && s[i] == '\n') ==> Closing(s, i + 1, dot).None?)
  {
  }

  lemma NothingIsBehindNewline(dot: bool)
    ensures ClosingBehindNewline("", dot)
  {
  }

  lemma NewlineKeepsBehind(t: string)
    ensures ClosingBehindNewline(['\n'] + t, true)
  {
    assert (['\n'] + t)[0] == '\n';
  }

  lemma PrependKeepsBehind(c: char, t: string, dot: bool)
    requires ClosingBehindNewline(t, dot) && c != '}'
    ensures ClosingBehindNewline([c] + t, dot)
  {
    var s := [c] + t;
    forall j | 0 <= j < |s| && s[j] == '}' ensures dot && exists k :: 0 <= k < j && s[k] == '\n' {
      assert t[j - 1] == '}';
      var k :| 0 <= k < j - 1 && t[k] == '\n';
      assert s[k + 1] == '\n';
    }
  }

  lemma {:induction false} NoClosingInScan(s: string, i: nat, dot: bool)
    requires i <= |s| && Closing(s, i, dot).None?
    ensures ClosingBehindNewline(Scan(s, i, dot), dot)
    decreases |s| - i
  {
    hide Scan, Closing, ClosingBehindNewline;
    if i == |s| {
      ScanEnds(s, dot);
      NothingIsBehindNewline(dot);
    } else {
      ClosingNested(s, i, dot);
      ScanCopiesOne(s, i, dot);
      if s[i] == '\n' && dot {
        NewlineKeepsBehind(Scan(s, i + 1, dot));
      } else {
        NoClosingInScan(s, i + 1, dot);
        PrependKeepsBehind(s[i], Scan(s, i + 1, dot), dot);
      }
    }
  }

  lemma NothingIsNormal(dot: bool)
    ensures Normal("", dot)
  {
  }

  /** What a scan leaves is normal: the last thing standing before a closing brace is not an open one. */
  lemma {:induction false} ScanIsNormal(s: string, i: nat, dot: bool)
    requires i <= |s|
    ensures Normal(Scan(s, i, dot), dot)
    decreases |s| - i
  {
    hide Scan, Closing, Normal;
    if i == |s| {
      ScanEnds(s, dot);
      NothingIsNormal(dot);
    } else if s[i] == '{' && Closing(s, i + 1, dot).Some? {
      var e := Closing(s, i + 1, dot).value + 1;
      ScanReplaces(s, i, dot);
      ScanIsNormal(s, e, dot);
      PrependKeepsNormal('-', Scan(s, e, dot), dot);
    } else {
      ScanCopiesOne(s, i, dot);
      ScanIsNormal(s, i + 1, dot);
      if s[i] == '{' {
        NoClosingInScan(s, i + 1, dot);
      }
      PrependKeepsNormal(s[i], Scan(s, i + 1, dot), dot);
    }
  }

  /** Normal text is a fixed point. */
  lemma {:induction false} NormalIsFixed(s: string, i: nat, dot: bool)
    requires i <= |s| && Normal(s, dot)
    ensures Scan(s, i, dot) == s[i..]
    decreases |s| - i
  {
    hide Scan, Closing;
    if i < |s| {
      ClosingMeaning(s, i + 1);
      if s[i] == '{' && Closing(s, i + 1, dot).Some? {
        assert false;
      }
      ScanCopiesOne(s, i, dot);
      NormalIsFixed(s, i + 1, dot);
    } else {
      ScanEnds(s, dot);
    }
  }

  /**
   * Both normalisers are idempotent.  After the metrics one no "{" is followed by a
   * "}" at all; after the dashboard one only with a newline in between.
   */
  lemma NormalisersAreIdempotent(s: string)
    ensures Normal(ReducedTemplate(s), false) && ReducedTemplate(ReducedTemplate(s)) == ReducedTemplate(s)
    ensures Normal(NormalizePath(s), true) && NormalizePath(NormalizePath(s)) == NormalizePath(s)
  {
    NormalisersAreScans(s);
    ScanIsNormal(s, 0, false);
    ScanIsNormal(s, 0, true);
    NormalisersAreScans(Scan(s, 0, false));
    NormalisersAreScans(Scan(s, 0, true));
    NormalIsFixed(Scan(s, 0, false), 0, false);
    NormalIsFixed(Scan(s, 0, true), 0, true);
  }

  lemma {:induction false} ClosingAt(s: string, i: nat, j: nat, dot: bool)
    requires i <= j < |s| && s[j] == '}' && forall k :: i <= k < j ==> s[k] != '}' && (dot ==> s[k] != '\n')
    ensures Closing(s, i, dot) == Some(j)
    decreases j - i
  {
    if i < j {
      ClosingAt(s, i + 1, j, dot);
    }
  }

  lemma DashStep(s: string, i: nat, j: nat, dot: bool)
    requires i < j < |s| && s[i] == '{' && s[j] == '}'
    requires forall k :: i < k < j ==> s[k] != '}' && (dot ==> s[k] != '\n')
    ensures Scan(s, i, dot) == "-" + Scan(s, j + 1, dot)
  {
    hide Scan;
    ClosingAt(s, i + 1, j, dot);
    ScanReplaces(s, i, dot);
  }

  lemma {:induction false} ScanPlain(s: string, i: nat, n: nat, dot: bool)
    requires i <= n <= |s| && forall k :: i <= k < n ==> s[k] != '{'
    ensures Scan(s, i, dot) == s[i..n] + Scan(s, n, dot)
    decreases n - i
  {
    hide Scan;
    if i < n {
      ScanCopiesOne(s, i, dot);
      ScanPlain(s, i + 1, n, dot);
      assert s[i..n] == [s[i]] + s[i + 1..n];
      ConcatAssociates([s[i]], s[i + 1..n], Scan(s, n, dot));
    } else {
      assert s[i..n] == "";
    }
  }

  lemma {:induction false} ClosingTail(s: string, i: nat, t: string, k: nat, dot: bool)
    requires i <= |s| && k <= |t| && s[i..] == t[k..]
    ensures var a, b := Closing(s, i, dot), Closing(t, k, dot);
      if a.None? then b.None? else b.Some? && a.value - i == b.value - k
    decreases |s| - i
  {
    assert |s| - i == |t| - k;
    if i < |s| {
      assert s[i] == t[k] by { assert s[i..][0] == t[k..][0]; }
      assert s[i + 1..] == t[k + 1..] by { assert s[i..][1..] == s[i + 1..] && t[k..][1..] == t[k + 1..]; }
      ClosingTail(s, i + 1, t, k + 1, dot);
    }
  }

  lemma {:induction false} ScanTail(s: string, i: nat, t: string, k: nat, dot: bool)
    requires i <= |s| && k <= |t| && s[i..] == t[k..]
    ensures Scan(s, i, dot) == Scan(t, k, dot)
    decreases |s| - i
  {
    hide Scan, Closing;
    assert |s| - i == |t| - k;
    if i < |s| {
      assert s[i] == t[k] by { assert s[i..][0] == t[k..][0]; }
      assert s[i + 1..] == t[k + 1..] by { assert s[i..][1..] == s[i + 1..] && t[k..][1..] == t[k + 1..]; }
      ClosingTail(s, i + 1, t, k + 1, dot);
      var e := Closing(s, i + 1, dot);
      if s[i] == '{' && e.Some? {
        var d := e.value + 1 - i;
        assert s[i..][d..] == s[i + d..] && t[k..][d..] == t[k + d..];
        ScanReplaces(s, i, dot);
        ScanReplaces(t, k, dot);
        ScanTail(s, i + d, t, k + d, dot);
      } else {
        ScanCopiesOne(s, i, dot);
        ScanCopiesOne(t, k, dot);
        ScanTail(s, i + 1, t, k + 1, dot);
      }
    } else {
      ScanEnds(s, dot);
      ScanEnds(t, dot);
    }
  }

  lemma DashAt(s: string, i: nat, j: nat, before: string, after: string, dot: bool)
    requires i < j < |s| && s[i] == '{' && s[j] == '}' && s[0..i] == before && s[j + 1..] == after[0..]
    requires forall k :: 0 <= k < i ==> s[k] != '{'
    requires forall k :: i < k < j ==> s[k] != '}' && (dot ==> s[k] != '\n')
    ensures Scan(s, 0, dot) == before + "-" + Scan(after, 0, dot)
  {
    hide Scan;
    ScanPlain(s, 0, i, dot);
    DashStep(s, i, j, dot);
    ScanTail(s, j + 1, after, 0, dot);
    ConcatAssociates(before, "-", Scan(after, 0, dot));
  }

  /**
   * Text in which no "{" has a "}" after it is kept as it is;
   * by the dashboard's normaliser also if a newline is between.
   */
  lemma NormalTextIsKept(s: string)
    ensures (forall i, j :: 0 <= i < j < |s| && s[i] == '{' ==> s[j] != '}') ==>
      ReducedTemplate(s) == s && NormalizePath(s) == s
    ensures (forall i, j :: 0 <= i < j < |s| && s[i] == '{' && s[j] == '}' ==>
               exists k :: i < k < j && s[k] == '\n') ==>
      NormalizePath(s) == s
  {
    NormalisersAreScans(s);
    if forall i, j :: 0 <= i < j < |s| && s[i] == '{' ==> s[j] != '}' {
      NormalIsFixed(s, 0, false);
      NormalIsFixed(s, 0, true);
    }
    if forall i, j :: 0 <= i < j < |s| && s[i] == '{' && s[j] == '}' ==> exists k :: i < k < j && s[k] == '\n' {
      NormalIsFixed(s, 0, true);
    }
  }

  lemma PlaceholderAt(before: string, name: string, after: string)
    ensures var s, i := before + "{" + name + "}" + after, |before|;
      var j := i + 1 + |name|;
      && j < |s| && s[..i] == before && s[0..i] == before && s[i] == '{' && s[j] == '}' && s[j + 1..] == after[0..]
      && (forall k :: 0 <= k < i ==> s[k] in before)
      && (forall k :: i < k < j ==> s[k] in name)
  {
    var s := before + "{" + name + "}" + after;
    forall k | 0 <= k < |before| ensures s[k] in before { assert s[k] == before[k]; }
    forall k | |before| < k < |before| + 1 + |name| ensures s[k] in name { assert s[k] == name[k - |before| - 1]; }
  }

  /**
   * In both normalisers a placeholder becomes "-", with the plain text before it kept
   * and the text after it normalised; the dashboard's placeholder is on one line.
   */
  lemma PlaceholderBecomesDash(before: string, name: string, after: string)
    requires '{' !in before && '}' !in name
    ensures var s := before + "{" + name + "}" + after;
      && ReducedTemplate(s) == before + "-" + ReducedTemplate(after)
      && ('\n' !in name ==> NormalizePath(s) == before + "-" + NormalizePath(after))
  {
    hide Scan, ReducedTemplate, NormalizePath;
    var s := before + "{" + name + "}" + after;
    NormalisersAreScans(s);
    NormalisersAreScans(after);
    PlaceholderAt(before, name, after);
    DashAt(s, |before|, |before| + 1 + |name|, before, after, false);
    if '\n' !in name {
      DashAt(s, |before|, |before| + 1 + |name|, before, after, true);
    }
  }
}
