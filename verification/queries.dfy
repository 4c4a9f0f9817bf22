/**
 * The Prometheus queries of generated dashboards.  Each is a fixed template with
 * holes for the service and the path, formatted with the marker "SA" where the
 * account filter belongs; the marker is then replaced throughout the text by the
 * filter, or by nothing when service accounts are skipped.
 */
module Queries {
  import opened Seqs
  import opened Strings
  import PathTemplates

  const MARKER := "SA"
  const FILTER := ",service_account=~\"$account\""

  /** A template is cut where a comma begins a label, so that labels are parts of their own. */
  datatype Part = Text(t: string) | ServiceLabel | PathLabel | Account

  function RenderPart(p: Part, service: string, path: string, account: string): string {
    match p
    case Text(t) => t
    case ServiceLabel => ",service=~\"" + (service + "\"")
    case PathLabel => ",path=\"" + (path + "\"")
    case Account => account
  }

  /** `Sprintf` of a template, with a text of one's choice at the account marker. */
  function Format(parts: seq<Part>, service: string, path: string, account: string): string {
    if parts == [] then ""
    else RenderPart(parts[0], service, path, account) + Format(parts[1..], service, path, account)
  }

  function AccountText(skipServiceAccount: bool): string {
    if skipServiceAccount then "" else FILTER
  }

  /** One generated expression: format with the marker, then replace the marker in the whole text. */
  function Prepare(parts: seq<Part>, service: string, skipServiceAccount: bool, path: string): string {
    ReplaceAll(Format(parts, service, path, MARKER), MARKER, AccountText(skipServiceAccount))
  }

  // ---------------------------------------------------------------- the templates

  const COUNT := "api_inbound_request_count"
  const DURATION_SUM := "api_inbound_request_duration_sum"
  const DURATION_COUNT := "api_inbound_request_duration_count"
  const DURATION_BUCKET := "api_inbound_request_duration_bucket"

  const NOT_5XX := [",code!~\"5..|0\""]
  const ONLY_5XX := [",code=~\"5..|0\""]
  const NOT_2XX := [",code!~\"2..\""]
  const ONLY_4XX := [",code=~\"4..|0\""]
  const FAST := [",code!~\"5..|0\"", ",le=\"1\""]

  function Texts(ts: seq<string>): (parts: seq<Part>)
    ensures |parts| == |ts| && forall i :: 0 <= i < |ts| ==> parts[i] == Text(ts[i])
  {
    seq(|ts|, (i: nat) requires i < |ts| => Text(ts[i]))
  }

  /** One selector: metric, service, path, further labels, account marker. */
  function Selector(metric: string, labels: seq<string>): seq<Part> {
    [Text(metric), Text("{namespace=\"$namespace\""), ServiceLabel, PathLabel] + Texts(labels) + [Account]
  }

  /** The quotient of two aggregated selectors over the dashboard's range. */
  function Ratio(aggregate: string, above: string, aboveLabels: seq<string>, below: string, belowLabels: seq<string>)
    : seq<Part>
  {
    [Text("\n"), Text(aggregate)] + Selector(above, aboveLabels) +
    [Text("}[$__range]))\n/\n"), Text(aggregate)] + Selector(below, belowLabels) + [Text("}[$__range]))\n")]
  }

  const AVAILABILITY := Ratio("sum(increase(", COUNT, NOT_5XX, COUNT, [])
  const REQUESTS :=
    [Text("\nsum by (code"), Text(", method) (rate(")] + Selector(COUNT, []) + [Text("}[$__rate_interval]))\n")]
  const ERRORS1 := Ratio("sum (rate(", COUNT, NOT_2XX, COUNT, [])
  const ERRORS2 := Ratio("sum (rate(", COUNT, ONLY_5XX, COUNT, [])
  const ERRORS3 := Ratio("sum (rate(", COUNT, ONLY_4XX, COUNT, [])
  const DURATION := Ratio("sum (increase(", DURATION_SUM, NOT_5XX, DURATION_COUNT, NOT_5XX)
  const LATENCY := Ratio("sum(increase(", DURATION_BUCKET, FAST, DURATION_COUNT, NOT_5XX)

  /** The expressions generated for one path, outside the exception branch. */
  const TEMPLATES := [AVAILABILITY, REQUESTS, ERRORS1, ERRORS2, ERRORS3, DURATION, LATENCY]

  // ---------------------------------------------------------------- what makes a template safe

  predicate Unremarkable(c: char) { c != ',' && c != 'S' }

  /** Fixed text holds no marker, and no comma except as its first character; it does not begin like the filter. */
  predicate PlainText(t: string) {
    && t != "" && t[0] != 'S'
    && (forall i :: 1 <= i < |t| ==> Unremarkable(t[i]))
    && (t[0] == ',' ==> |t| > 1 && t[1] != 's')
  }

  predicate BeginsWithComma(p: Part) {
    p.Text? ==> p.t != "" && p.t[0] == ','
  }

  predicate IsLabel(p: Part) { p.ServiceLabel? || p.PathLabel? }

  predicate SafeAt(parts: seq<Part>, i: nat)
    requires i < |parts|
  {
    && (parts[i].Text? ==> PlainText(parts[i].t))
    && (IsLabel(parts[i]) ==> i + 1 < |parts| && BeginsWithComma(parts[i + 1]))
  }

  /** The fixed texts are plain, and after a label with a hole another label or the marker follows. */
  predicate Safe(parts: seq<Part>) {
    forall i :: 0 <= i < |parts| ==> SafeAt(parts, i)
  }

  lemma SafeConcat(xs: seq<Part>, ys: seq<Part>)
    requires Safe(xs) && Safe(ys)
    ensures Safe(xs + ys)
  {
    forall i | 0 <= i < |xs + ys| ensures SafeAt(xs + ys, i) {
      if i < |xs| {
        assert SafeAt(xs, i);
      } else {
        assert SafeAt(ys, i - |xs|);
      }
    }
  }

  lemma PlainBraces()
    ensures PlainText("{namespace=\"$namespace\"") && PlainText("}[$__rate_interval]))\n")
  {
  }

  lemma PlainBreaks()
    ensures PlainText("\n") && PlainText("}[$__range]))\n/\n") && PlainText("}[$__range]))\n")
  {
  }

  lemma PlainOpening()
    ensures PlainText("\nsum by (code") && PlainText(", method) (rate(")
  {
  }

  lemma SafeSelector(metric: string, labels: seq<string>)
    requires PlainText(metric)
    requires forall i :: 0 <= i < |labels| ==> PlainText(labels[i]) && labels[i][0] == ','
    ensures Safe(Selector(metric, labels))
    ensures ServiceLabel in Selector(metric, labels) && PathLabel in Selector(metric, labels)
  {
    var parts := Selector(metric, labels);
    PlainBraces();
    assert parts[2] == ServiceLabel && parts[3] == PathLabel;
    forall i | 0 <= i < |parts| ensures SafeAt(parts, i) {
      if 4 <= i < 4 + |labels| {
        assert parts[i] == Text(labels[i - 4]);
      }
    }
  }

  lemma SafeRatio(aggregate: string, above: string, aboveLabels: seq<string>, below: string, belowLabels: seq<string>)
    requires PlainText(aggregate) && PlainText(above) && PlainText(below)
    requires forall i :: 0 <= i < |aboveLabels| ==> PlainText(aboveLabels[i]) && aboveLabels[i][0] == ','
    requires forall i :: 0 <= i < |belowLabels| ==> PlainText(belowLabels[i]) && belowLabels[i][0] == ','
    ensures var parts := Ratio(aggregate, above, aboveLabels, below, belowLabels);
      Safe(parts) && ServiceLabel in parts && PathLabel in parts
  {
    hide PlainText, Selector, Texts;
    SafeSelector(above, aboveLabels);
    SafeSelector(below, belowLabels);
    var open, middle, close := [Text("\n"), Text(aggregate)], [Text("}[$__range]))\n/\n"), Text(aggregate)],
      [Text("}[$__range]))\n")];
    PlainBreaks();
    assert Safe(open) && Safe(middle) && Safe(close);
    SafeConcat(open, Selector(above, aboveLabels));
    SafeConcat(open + Selector(above, aboveLabels), middle);
    SafeConcat(open + Selector(above, aboveLabels) + middle, Selector(below, belowLabels));
    SafeConcat(open + Selector(above, aboveLabels) + middle + Selector(below, belowLabels), close);
  }

  lemma PlainMetrics()
    ensures PlainText(COUNT) && PlainText(DURATION_SUM)
  {
  }

  lemma PlainDurations()
    ensures PlainText(DURATION_COUNT) && PlainText(DURATION_BUCKET)
  {
  }

  lemma PlainAggregates()
    ensures PlainText("sum(increase(") && PlainText("sum (increase(") && PlainText("sum (rate(")
  {
  }

  lemma PlainCodes()
    ensures PlainText(",code!~\"5..|0\"") && PlainText(",code=~\"5..|0\"") && PlainText(",code!~\"2..\"")
    ensures PlainText(",code=~\"4..|0\"") && PlainText(",le=\"1\"")
  {
  }

  lemma SafeRequests()
    ensures Safe(REQUESTS) && ServiceLabel in REQUESTS && PathLabel in REQUESTS
  {
    hide PlainText, Selector, Texts;
    PlainMetrics();
    SafeSelector(COUNT, []);
    var open, close := [Text("\nsum by (code"), Text(", method) (rate(")], [Text("}[$__rate_interval]))\n")];
    PlainOpening();
    PlainBraces();
    assert Safe(open) && Safe(close);
    SafeConcat(open, Selector(COUNT, []));
    SafeConcat(open + Selector(COUNT, []), close);
  }

  lemma TemplatesAreSafe(k: nat)
    requires k < |TEMPLATES|
    ensures Safe(TEMPLATES[k]) && ServiceLabel in TEMPLATES[k] && PathLabel in TEMPLATES[k]
  {
    hide PlainText, Safe, Selector, Texts;
    PlainMetrics();
    PlainDurations();
    PlainAggregates();
    PlainCodes();
    match k
    case 0 => SafeRatio("sum(increase(", COUNT, NOT_5XX, COUNT, []);
    case 1 => SafeRequests();
    case 2 => SafeRatio("sum (rate(", COUNT, NOT_2XX, COUNT, []);
    case 3 => SafeRatio("sum (rate(", COUNT, ONLY_5XX, COUNT, []);
    case 4 => SafeRatio("sum (rate(", COUNT, ONLY_4XX, COUNT, []);
    case 5 => SafeRatio("sum (increase(", DURATION_SUM, NOT_5XX, DURATION_COUNT, NOT_5XX);
    case 6 => SafeRatio("sum(increase(", DURATION_BUCKET, FAST, DURATION_COUNT, NOT_5XX);
    case _ =>
  }

  // ---------------------------------------------------------------- the marker

  lemma MarkerDoesNotStraddle(a: string, b: string)
    requires a == "" || a[|a| - 1] != 'S'
    ensures NoStraddle(a, b, MARKER)
  {
    forall i | 0 <= i < |a| && |a| < i + |MARKER| ensures !At(a + b, MARKER, i) {
      AtChar(a + b, MARKER, i, 0);
    }
  }

  lemma NoMarkerWithoutS(t: string)
    requires 'S' !in t
    ensures !Contains(t, MARKER)
  {
    forall i | 0 <= i <= |t| ensures !At(t, MARKER, i) {
      AtChar(t, MARKER, i, 0);
    }
  }

  /** Replacing the marker inside a label only affects its hole. */
  lemma MarkerInLabel(before: string, hole: string, rep: string)
    requires before != "" && 'S' !in before
    ensures ReplaceAll(before + (hole + "\""), MARKER, rep) == before + (ReplaceAll(hole, MARKER, rep) + "\"")
  {
    MarkerDoesNotStraddle(before, hole + "\"");
    ReplaceAllConcat(before, hole + "\"", MARKER, rep);
    NoMarkerWithoutS(before);
    ReplaceAllNone(before, MARKER, rep);
    forall i | 0 <= i < |hole| && |hole| < i + |MARKER| ensures !At(hole + "\"", MARKER, i) {
      AtChar(hole + "\"", MARKER, i, 1);
    }
    ReplaceAllConcat(hole, "\"", MARKER, rep);
  }

  /** A part after the marker has been replaced inside it. */
  function Marked(p: Part, service: string, path: string, rep: string): string {
    RenderPart(p, ReplaceAll(service, MARKER, rep), ReplaceAll(path, MARKER, rep), rep)
  }

  lemma MarkerInPart(p: Part, service: string, path: string, rep: string)
    requires p.Text? ==> PlainText(p.t)
    ensures ReplaceAll(RenderPart(p, service, path, MARKER), MARKER, rep) == Marked(p, service, path, rep)
    ensures var t := RenderPart(p, service, path, MARKER); t != "" && t[|t| - 1] != 'S'
  {
    match p
    case Text(t) =>
      assert forall i :: 0 <= i < |t| ==> t[i] != 'S';
      NoMarkerWithoutS(t);
      ReplaceAllNone(t, MARKER, rep);
    case ServiceLabel => MarkerInLabel(",service=~\"", service, rep);
    case PathLabel => MarkerInLabel(",path=\"", path, rep);
    case Account =>
      assert MARKER[2..] == "";
      assert ReplaceAll(MARKER, MARKER, rep) == rep + ReplaceAll("", MARKER, rep);
  }

  lemma SafeTail(parts: seq<Part>)
    requires Safe(parts) && parts != []
    ensures Safe(parts[1..])
  {
    forall i | 0 <= i < |parts[1..]| ensures SafeAt(parts[1..], i) {
      assert SafeAt(parts, i + 1);
    }
  }

  /** Replacing throughout the formatted text is replacing inside each part. */
  lemma {:induction false} PrepareIsPerPart(parts: seq<Part>, service: string, path: string, rep: string)
    requires Safe(parts)
    ensures ReplaceAll(Format(parts, service, path, MARKER), MARKER, rep)
         == Format(parts, ReplaceAll(service, MARKER, rep), ReplaceAll(path, MARKER, rep), rep)
  {
    if parts != [] {
      assert SafeAt(parts, 0);
      SafeTail(parts);
      PrepareIsPerPart(parts[1..], service, path, rep);
      MarkerInPart(parts[0], service, path, rep);
      var first, rest := RenderPart(parts[0], service, path, MARKER), Format(parts[1..], service, path, MARKER);
      MarkerDoesNotStraddle(first, rest);
      ReplaceAllConcat(first, rest, MARKER, rep);
    }
  }

  function LengthWith(parts: seq<Part>, service: nat, path: nat, account: string): nat {
    if parts == [] then 0
    else
      var hole := if parts[0].ServiceLabel? then service else if parts[0].PathLabel? then path else 0;
      |RenderPart(parts[0], "", "", account)| + hole + LengthWith(parts[1..], service, path, account)
  }

  lemma {:induction false} FormatLength(parts: seq<Part>, service: string, path: string, account: string)
    ensures |Format(parts, service, path, account)| == LengthWith(parts, |service|, |path|, account)
  {
    if parts != [] {
      FormatLength(parts[1..], service, path, account);
    }
  }

  /** Text grows with its holes, and strictly when a hole it has does. */
  lemma {:induction false} LongerHoles(parts: seq<Part>, s1: nat, p1: nat, s2: nat, p2: nat, account: string)
    requires s1 <= s2 && p1 <= p2
    ensures LengthWith(parts, s1, p1, account) <= LengthWith(parts, s2, p2, account)
    ensures (s1 < s2 && ServiceLabel in parts) || (p1 < p2 && PathLabel in parts) ==>
      LengthWith(parts, s1, p1, account) < LengthWith(parts, s2, p2, account)
  {
    if parts != [] {
      LongerHoles(parts[1..], s1, p1, s2, p2, account);
      assert parts == [parts[0]] + parts[1..];
    }
  }

  lemma HolesUnchangedExactly(parts: seq<Part>, service: string, path: string, sub: string, rep: string,
                              account: string)
    requires sub != "" && |sub| != |rep| && ServiceLabel in parts && PathLabel in parts
    ensures (Format(parts, ReplaceAll(service, sub, rep), ReplaceAll(path, sub, rep), account)
             == Format(parts, service, path, account)) <==>
            (!Contains(service, sub) && !Contains(path, sub))
  {
    var s, p := ReplaceAll(service, sub, rep), ReplaceAll(path, sub, rep);
    ReplaceAllLength(service, sub, rep);
    ReplaceAllLength(path, sub, rep);
    if !Contains(service, sub) && !Contains(path, sub) {
      ReplaceAllNone(service, sub, rep);
      ReplaceAllNone(path, sub, rep);
    } else {
      FormatLength(parts, s, p, account);
      FormatLength(parts, service, path, account);
      if |rep| < |sub| {
        LongerHoles(parts, |s|, |p|, |service|, |path|, account);
      } else {
        LongerHoles(parts, |service|, |path|, |s|, |p|, account);
      }
    }
  }

  /**
   * Replacing the marker in the whole text touches only the template's own
   * placeholders exactly when neither the service nor the path contains the marker.
   */
  lemma PreparedAsIntendedExactly(k: nat, service: string, skip: bool, path: string)
    requires k < |TEMPLATES|
    ensures (Prepare(TEMPLATES[k], service, skip, path) == Format(TEMPLATES[k], service, path, AccountText(skip))) <==>
            (!Contains(service, MARKER) && !Contains(path, MARKER))
  {
    TemplatesAreSafe(k);
    var rep := AccountText(skip);
    PrepareIsPerPart(TEMPLATES[k], service, path, rep);
    HolesUnchangedExactly(TEMPLATES[k], service, path, MARKER, rep, rep);
  }

  // ---------------------------------------------------------------- the generated texts

  function SelectorText(metric: string, labels: string, service: string, path: string, account: string): string {
    metric + "{namespace=\"$namespace\",service=~\"" + service + "\",path=\"" + path + "\"" + labels + account
  }

  function RatioText(aggregate: string, above: string, below: string): string {
    "\n" + aggregate + above + "}[$__range]))\n/\n" + aggregate + below + "}[$__range]))\n"
  }

  /** The seven expressions, written out: availability, requests, three kinds of errors, duration and latency. */
  function Expression(k: nat, s: string, p: string, account: string): string
    requires k < 7
  {
    match k
    case 0 => RatioText("sum(increase(",
                        SelectorText("api_inbound_request_count", ",code!~\"5..|0\"", s, p, account),
                        SelectorText("api_inbound_request_count", "", s, p, account))
    case 1 => "\nsum by (code, method) (rate(" + SelectorText("api_inbound_request_count", "", s, p, account) +
              "}[$__rate_interval]))\n"
    case 2 => RatioText("sum (rate(",
                        SelectorText("api_inbound_request_count", ",code!~\"2..\"", s, p, account),
                        SelectorText("api_inbound_request_count", "", s, p, account))
    case 3 => RatioText("sum (rate(",
                        SelectorText("api_inbound_request_count", ",code=~\"5..|0\"", s, p, account),
                        SelectorText("api_inbound_request_count", "", s, p, account))
    case 4 => RatioText("sum (rate(",
                        SelectorText("api_inbound_request_count", ",code=~\"4..|0\"", s, p, account),
                        SelectorText("api_inbound_request_count", "", s, p, account))
    case 5 => RatioText("sum (increase(",
                        SelectorText("api_inbound_request_duration_sum", ",code!~\"5..|0\"", s, p, account),
                        SelectorText("api_inbound_request_duration_count", ",code!~\"5..|0\"", s, p, account))
    case _ => RatioText("sum(increase(",
                        SelectorText("api_inbound_request_duration_bucket", ",code!~\"5..|0\",le=\"1\"", s, p, account),
                        SelectorText("api_inbound_request_duration_count", ",code!~\"5..|0\"", s, p, account))
  }

  lemma {:induction false} FormatConcat(xs: seq<Part>, ys: seq<Part>, s: string, p: string, account: string)
    ensures Format(xs + ys, s, p, account) == Format(xs, s, p, account) + Format(ys, s, p, account)
  {
    hide RenderPart;
    if xs == [] {
      assert xs + ys == ys;
    } else {
      assert (xs + ys)[1..] == xs[1..] + ys;
      FormatConcat(xs[1..], ys, s, p, account);
      ConcatAssociates(RenderPart(xs[0], s, p, account), Format(xs[1..], s, p, account), Format(ys, s, p, account));
    }
  }

  lemma FormatOne(part: Part, s: string, p: string, account: string)
    ensures Format([part], s, p, account) == RenderPart(part, s, p, account)
  {
    assert Format([part], s, p, account) == RenderPart(part, s, p, account) + Format([part][1..], s, p, account);
  }

  lemma FormatTwo(first: Part, second: Part, s: string, p: string, account: string)
    ensures Format([first, second], s, p, account)
         == RenderPart(first, s, p, account) + RenderPart(second, s, p, account)
  {
    hide RenderPart, Format;
    assert [first, second] == [first] + [second];
    FormatConcat([first], [second], s, p, account);
    FormatOne(first, s, p, account);
    FormatOne(second, s, p, account);
  }

  function Joined(ts: seq<string>): string {
    if ts == [] then "" else ts[0] + Joined(ts[1..])
  }

  lemma {:induction false} FormatTexts(ts: seq<string>, s: string, p: string, account: string)
    ensures Format(Texts(ts), s, p, account) == Joined(ts)
  {
    if ts != [] {
      assert Texts(ts) == [Text(ts[0])] + Texts(ts[1..]);
      assert Texts(ts)[1..] == Texts(ts[1..]);
      FormatTexts(ts[1..], s, p, account);
    }
  }

  lemma Namespace()
    ensures "{namespace=\"$namespace\"" + ",service=~\"" == "{namespace=\"$namespace\",service=~\""
    ensures "\"" + ",path=\"" == "\",path=\""
  {
  }

  lemma SelectorPieces(metric: string, labels: string, s: string, p: string, account: string)
    ensures metric + "{namespace=\"$namespace\""
            + (",service=~\"" + (s + "\"") + (",path=\"" + (p + "\""))) + (labels + account)
         == SelectorText(metric, labels, s, p, account)
  {
    Namespace();
    var a, b, c, d, q := "{namespace=\"$namespace\"", ",service=~\"", "\"", ",path=\"", "\"";
    assert metric + a + (b + (s + c) + (d + (p + q))) + (labels + account)
        == metric + (a + b) + s + (c + d) + p + q + labels + account;
  }

  lemma SelectorIsText(metric: string, labels: seq<string>, s: string, p: string, account: string)
    ensures Format(Selector(metric, labels), s, p, account) == SelectorText(metric, Joined(labels), s, p, account)
  {
    hide Format, Texts;
    var open, holes := [Text(metric), Text("{namespace=\"$namespace\"")], [ServiceLabel, PathLabel];
    assert Selector(metric, labels) == (open + holes) + (Texts(labels) + [Account]);
    FormatConcat(open + holes, Texts(labels) + [Account], s, p, account);
    FormatConcat(open, holes, s, p, account);
    FormatConcat(Texts(labels), [Account], s, p, account);
    FormatTwo(open[0], open[1], s, p, account);
    FormatTwo(ServiceLabel, PathLabel, s, p, account);
    FormatTexts(labels, s, p, account);
    FormatOne(Account, s, p, account);
    SelectorPieces(metric, Joined(labels), s, p, account);
  }

  lemma RatioIsText(aggregate: string, above: string, aboveLabels: seq<string>, below: string, belowLabels: seq<string>,
                    s: string, p: string, account: string)
    ensures Format(Ratio(aggregate, above, aboveLabels, below, belowLabels), s, p, account)
         == RatioText(aggregate, SelectorText(above, Joined(aboveLabels), s, p, account),
                      SelectorText(below, Joined(belowLabels), s, p, account))
  {
    hide Format, Selector, SelectorText, Joined;
    var open, middle, close := [Text("\n"), Text(aggregate)], [Text("}[$__range]))\n/\n"), Text(aggregate)],
      [Text("}[$__range]))\n")];
    var first, second := Selector(above, aboveLabels), Selector(below, belowLabels);
    FormatConcat(open + first + middle + second, close, s, p, account);
    FormatConcat(open + first + middle, second, s, p, account);
    FormatConcat(open + first, middle, s, p, account);
    FormatConcat(open, first, s, p, account);
    FormatTwo(open[0], open[1], s, p, account);
    FormatTwo(middle[0], middle[1], s, p, account);
    FormatOne(close[0], s, p, account);
    SelectorIsText(above, aboveLabels, s, p, account);
    SelectorIsText(below, belowLabels, s, p, account);
    var x := SelectorText(above, Joined(aboveLabels), s, p, account);
    var y := SelectorText(below, Joined(belowLabels), s, p, account);
    ConcatAssociates("\n" + aggregate + x, "}[$__range]))\n/\n", aggregate);
  }

  lemma JoinedOne(text: string)
    ensures Joined([text]) == text
  {
    assert Joined([text]) == text + Joined([text][1..]);
  }

  lemma JoinedLabels()
    ensures Joined([]) == "" && Joined(NOT_5XX) == ",code!~\"5..|0\"" && Joined(ONLY_5XX) == ",code=~\"5..|0\""
    ensures Joined(NOT_2XX) == ",code!~\"2..\"" && Joined(ONLY_4XX) == ",code=~\"4..|0\""
    ensures Joined(FAST) == ",code!~\"5..|0\",le=\"1\""
  {
    JoinedOne(",code!~\"5..|0\"");
    JoinedOne(",code=~\"5..|0\"");
    JoinedOne(",code!~\"2..\"");
    JoinedOne(",code=~\"4..|0\"");
    JoinedOne(",le=\"1\"");
    assert FAST[1..] == [",le=\"1\""];
  }

  lemma RequestsIsText(s: string, p: string, account: string)
    ensures Format(REQUESTS, s, p, account) == Expression(1, s, p, account)
  {
    hide Format, Selector, SelectorText, Joined;
    var open, close := [Text("\nsum by (code"), Text(", method) (rate(")], [Text("}[$__rate_interval]))\n")];
    FormatConcat(open + Selector(COUNT, []), close, s, p, account);
    FormatConcat(open, Selector(COUNT, []), s, p, account);
    FormatTwo(open[0], open[1], s, p, account);
    FormatOne(close[0], s, p, account);
    SelectorIsText(COUNT, [], s, p, account);
    JoinedLabels();
    assert "\nsum by (code" + ", method) (rate(" == "\nsum by (code, method) (rate(";
  }

  /** The templates are the seven expressions. */
  lemma TemplatesAreExpressions(k: nat, s: string, p: string, account: string)
    requires k < 7
    ensures |TEMPLATES| == 7 && Format(TEMPLATES[k], s, p, account) == Expression(k, s, p, account)
  {
    hide Format, Ratio, SelectorText, RatioText, Joined;
    JoinedLabels();
    match k
    case 0 => RatioIsText("sum(increase(", COUNT, NOT_5XX, COUNT, [], s, p, account);
    case 1 => RequestsIsText(s, p, account);
    case 2 => RatioIsText("sum (rate(", COUNT, NOT_2XX, COUNT, [], s, p, account);
    case 3 => RatioIsText("sum (rate(", COUNT, ONLY_5XX, COUNT, [], s, p, account);
    case 4 => RatioIsText("sum (rate(", COUNT, ONLY_4XX, COUNT, [], s, p, account);
    case 5 => RatioIsText("sum (increase(", DURATION_SUM, NOT_5XX, DURATION_COUNT, NOT_5XX, s, p, account);
    case 6 => RatioIsText("sum(increase(", DURATION_BUCKET, FAST, DURATION_COUNT, NOT_5XX, s, p, account);
  }

  /** For a service and a path without the marker, the expression with the filter, or without it, is generated. */
  lemma PreparedText(k: nat, service: string, skip: bool, path: string)
    requires k < 7 && !Contains(service, "SA") && !Contains(path, "SA")
    ensures |TEMPLATES| == 7
    ensures Prepare(TEMPLATES[k], service, skip, path)
         == Expression(k, service, path, if skip then "" else ",service_account=~\"$account\"")
  {
    hide Format, Prepare, Expression;
    TemplatesAreExpressions(k, service, path, AccountText(skip));
    PreparedAsIntendedExactly(k, service, skip, path);
  }

  // ---------------------------------------------------------------- the account filter

  lemma FilterHasOneComma(k: nat)
    requires 1 <= k < |FILTER|
    ensures FILTER[k] != ','
  {
  }

  /** The filter's only comma is its first character, so it can only begin where a comma stands. */
  lemma FilterBeginsAtComma(s: string, i: int)
    ensures At(s, FILTER, i) ==> s[i] == ',' && s[i + 1] == 's' && s[i + 8] == '_'
    ensures At(s, FILTER, i) ==> forall j :: i < j < i + |FILTER| ==> s[j] != ','
  {
    AtChar(s, FILTER, i, 0);
    AtChar(s, FILTER, i, 1);
    AtChar(s, FILTER, i, 8);
    forall j | i < j < i + |FILTER| ensures At(s, FILTER, i) ==> s[j] != ',' {
      AtChar(s, FILTER, i, j - i);
      assert FILTER[j - i] != ',' by { FilterHasOneComma(j - i); }
    }
  }

  /** Removing the filter leaves fixed text alone and does not reach over its end. */
  lemma FilterInText(t: string, rest: string)
    requires PlainText(t)
    ensures NoStraddle(t, rest, FILTER) && ReplaceAll(t, FILTER, "") == t
  {
    forall i | 0 <= i < |t| ensures !At(t + rest, FILTER, i) {
      FilterBeginsAtComma(t + rest, i);
      assert i > 0 ==> Unremarkable(t[i]);
    }
    forall i | 0 <= i <= |t| ensures !At(t, FILTER, i) {
      FilterBeginsAtComma(t, i);
      assert 0 < i < |t| ==> Unremarkable(t[i]);
    }
    ReplaceAllNone(t, FILTER, "");
  }

  /** A label, whose hole may end in all but the closing quote of the filter. */
  lemma FilterInLabel(before: string, hole: string, rest: string)
    requires before in {",service=~\"", ",path=\""} && rest != "" && rest[0] == ','
    ensures NoStraddle(before + (hole + "\""), rest, FILTER)
    ensures ReplaceAll(before + (hole + "\""), FILTER, "") == before + ReplaceAll(hole + "\"", FILTER, "")
  {
    var quoted := hole + "\"";
    var whole := before + quoted;
    forall i | 0 <= i < |whole| && |whole| < i + |FILTER| ensures !At(whole + rest, FILTER, i) {
      FilterBeginsAtComma(whole + rest, i);
      assert (whole + rest)[|whole|] == ',';
    }
    forall i | 0 <= i < |before| ensures !At(whole, FILTER, i) {
      FilterBeginsAtComma(whole, i);
      assert whole[i] == before[i];
      assert before[1] == (if before == ",path=\"" then 'p' else 's') == whole[1];
      assert before == ",service=~\"" ==> whole[8] == before[8] == '=';
    }
    forall i | 0 <= i <= |before| ensures !At(before, FILTER, i) { }
    ReplaceAllNone(before, FILTER, "");
    ReplaceAllConcat(before, quoted, FILTER, "");
  }

  /** What removing the filter makes of one part. */
  function Stripped(p: Part, service: string, path: string): string {
    match p
    case Text(t) => t
    case ServiceLabel => ",service=~\"" + ReplaceAll(service + "\"", FILTER, "")
    case PathLabel => ",path=\"" + ReplaceAll(path + "\"", FILTER, "")
    case Account => ""
  }

  function StrippedAll(parts: seq<Part>, service: string, path: string): string {
    if parts == [] then "" else Stripped(parts[0], service, path) + StrippedAll(parts[1..], service, path)
  }

  lemma RestBeginsWithComma(parts: seq<Part>, service: string, path: string)
    requires Safe(parts) && parts != [] && IsLabel(parts[0])
    ensures var rest := Format(parts[1..], service, path, FILTER); rest != "" && rest[0] == ','
  {
    assert SafeAt(parts, 0);
    assert parts[1..][0] == parts[1];
  }

  lemma {:induction false} StripIsPerPart(parts: seq<Part>, service: string, path: string)
    requires Safe(parts)
    ensures ReplaceAll(Format(parts, service, path, FILTER), FILTER, "") == StrippedAll(parts, service, path)
  {
    if parts != [] {
      assert SafeAt(parts, 0);
      SafeTail(parts);
      StripIsPerPart(parts[1..], service, path);
      var rest := Format(parts[1..], service, path, FILTER);
      match parts[0] {
        case Text(t) =>
          FilterInText(t, rest);
          ReplaceAllConcat(t, rest, FILTER, "");
        case Account =>
          assert (FILTER + rest)[|FILTER|..] == rest;
        case ServiceLabel =>
          RestBeginsWithComma(parts, service, path);
          FilterInLabel(",service=~\"", service, rest);
          ReplaceAllConcat(",service=~\"" + (service + "\""), rest, FILTER, "");
        case PathLabel =>
          RestBeginsWithComma(parts, service, path);
          FilterInLabel(",path=\"", path, rest);
          ReplaceAllConcat(",path=\"" + (path + "\""), rest, FILTER, "");
      }
    }
  }

  lemma StrippedPartShorter(p: Part, service: string, path: string)
    ensures var stripped, skipped := |Stripped(p, service, path)|, |RenderPart(p, service, path, "")|;
      && stripped <= skipped
      && (p.ServiceLabel? && Contains(service + "\"", FILTER) ==> stripped < skipped)
      && (p.PathLabel? && Contains(path + "\"", FILTER) ==> stripped < skipped)
  {
    ReplaceAllLength(service + "\"", FILTER, "");
    ReplaceAllLength(path + "\"", FILTER, "");
  }

  lemma {:induction false} StrippedShorter(parts: seq<Part>, service: string, path: string)
    ensures var stripped, skipped := |StrippedAll(parts, service, path)|, |Format(parts, service, path, "")|;
      && stripped <= skipped
      && (ServiceLabel in parts && Contains(service + "\"", FILTER) ==> stripped < skipped)
      && (PathLabel in parts && Contains(path + "\"", FILTER) ==> stripped < skipped)
  {
    if parts != [] {
      StrippedShorter(parts[1..], service, path);
      StrippedPartShorter(parts[0], service, path);
      assert parts == [parts[0]] + parts[1..];
    }
  }

  lemma {:induction false} StrippedIsSkipped(parts: seq<Part>, service: string, path: string)
    requires !Contains(service + "\"", FILTER) && !Contains(path + "\"", FILTER)
    ensures StrippedAll(parts, service, path) == Format(parts, service, path, "")
  {
    if parts != [] {
      StrippedIsSkipped(parts[1..], service, path);
      ReplaceAllNone(service + "\"", FILTER, "");
      ReplaceAllNone(path + "\"", FILTER, "");
    }
  }

  /**
   * Deleting the account filter from an expression gives the expression generated
   * when service accounts are skipped exactly when neither the service nor the path,
   * each with its closing quote, contains the filter.
   */
  lemma DeletingTheFilterSkipsExactly(k: nat, service: string, path: string)
    requires k < |TEMPLATES| && !Contains(service, MARKER) && !Contains(path, MARKER)
    ensures (ReplaceAll(Prepare(TEMPLATES[k], service, false, path), FILTER, "")
             == Prepare(TEMPLATES[k], service, true, path)) <==>
            (!Contains(service + "\"", FILTER) && !Contains(path + "\"", FILTER))
  {
    PreparedAsIntendedExactly(k, service, false, path);
    PreparedAsIntendedExactly(k, service, true, path);
    TemplatesAreSafe(k);
    StripIsPerPart(TEMPLATES[k], service, path);
    StrippedShorter(TEMPLATES[k], service, path);
    if !Contains(service + "\"", FILTER) && !Contains(path + "\"", FILTER) {
      StrippedIsSkipped(TEMPLATES[k], service, path);
    }
  }

  /** All of the filter but its closing quote, which the quote of a label completes. */
  const UNQUOTED := FILTER[..|FILTER| - 1]

  /** It holds neither the marker nor the filter, also with a slash before it. */
  lemma UnquotedLooksHarmless()
    ensures forall text :: text in {UNQUOTED, "/" + UNQUOTED} ==>
      !Contains(text, MARKER) && !Contains(text, FILTER) && Contains(text + "\"", FILTER)
  {
    assert forall i :: 0 <= i < |FILTER| ==> FILTER[i] != 'S';
    NoMarkerWithoutS(UNQUOTED);
    NoMarkerWithoutS("/" + UNQUOTED);
    assert UNQUOTED + "\"" == FILTER && At(FILTER, FILTER, 0);
    var path := "/" + UNQUOTED;
    assert At(path + "\"", FILTER, 1) by {
      assert path + "\"" == "/" + FILTER;
    }
    assert !At(path, FILTER, 0) by {
      AtChar(path, FILTER, 0, 0);
    }
  }

  /** The closing quote matters: this path lacks the filter, yet the query has it once too often. */
  lemma QuoteCompletesTheFilterInPath(k: nat, service: string)
    requires k < |TEMPLATES| && !Contains(service, MARKER)
    ensures var path := "/" + UNQUOTED;
      && !Contains(path, MARKER) && !Contains(path, FILTER)
      && ReplaceAll(Prepare(TEMPLATES[k], service, false, path), FILTER, "")
         != Prepare(TEMPLATES[k], service, true, path)
  {
    UnquotedLooksHarmless();
    DeletingTheFilterSkipsExactly(k, service, "/" + UNQUOTED);
  }

  /** Likewise this service. */
  lemma QuoteCompletesTheFilterInService(k: nat, path: string)
    requires k < |TEMPLATES| && !Contains(path, MARKER)
    ensures
      && !Contains(UNQUOTED, MARKER) && !Contains(UNQUOTED, FILTER)
      && ReplaceAll(Prepare(TEMPLATES[k], UNQUOTED, false, path), FILTER, "")
         != Prepare(TEMPLATES[k], UNQUOTED, true, path)
  {
    UnquotedLooksHarmless();
    DeletingTheFilterSkipsExactly(k, UNQUOTED, path);
  }

  // ---------------------------------------------------------------- queries for normalised paths

  /** No "S" is directly followed by an "A". */
  predicate NoMarker(s: string) {
    forall k :: 0 <= k < |s| - 1 && s[k] == 'S' ==> s[k + 1] != 'A'
  }

  lemma NoMarkerMeans(s: string)
    ensures NoMarker(s) <==> !Contains(s, MARKER)
  {
    if !NoMarker(s) {
      var k :| 0 <= k < |s| - 1 && s[k] == 'S' && s[k + 1] == 'A';
      assert At(s, MARKER, k);
    }
    if Contains(s, MARKER) {
      var k :| 0 <= k <= |s| && At(s, MARKER, k);
      AtChar(s, MARKER, k, 0);
      AtChar(s, MARKER, k, 1);
    }
  }

  lemma NothingIsNoMarker()
    ensures NoMarker("")
  {
  }

  lemma NoMarkerAt(s: string, i: nat)
    requires NoMarker(s) && i + 1 < |s| && s[i] == 'S'
    ensures s[i + 1] != 'A'
  {
  }

  lemma PrependBringsNoMarker(c: char, t: string)
    requires NoMarker(t) && (c == 'S' && t != "" ==> t[0] != 'A')
    ensures NoMarker([c] + t)
  {
    var s := [c] + t;
    forall k | 0 <= k < |s| - 1 && s[k] == 'S' ensures s[k + 1] != 'A' {
      assert k > 0 ==> s[k] == t[k - 1] && s[k + 1] == t[k];
    }
  }

  /** Replacing placeholders by "-" brings no "S" and "A" together. */
  lemma {:induction false} ScanBringsNoMarker(s: string, i: nat, dot: bool)
    requires i <= |s| && NoMarker(s)
    ensures var t := PathTemplates.Scan(s, i, dot);
      NoMarker(t) && (t != "" && t[0] == 'A' ==> i < |s| && s[i] == 'A')
    decreases |s| - i
  {
    hide PathTemplates.Scan, PathTemplates.Closing, NoMarker;
    if i == |s| {
      PathTemplates.ScanEnds(s, dot);
      NothingIsNoMarker();
    } else {
      var closing := PathTemplates.Closing(s, i + 1, dot);
      if s[i] == '{' && closing.Some? {
        PathTemplates.ScanReplaces(s, i, dot);
        ScanBringsNoMarker(s, closing.value + 1, dot);
        PrependBringsNoMarker('-', PathTemplates.Scan(s, closing.value + 1, dot));
      } else {
        PathTemplates.ScanCopiesOne(s, i, dot);
        ScanBringsNoMarker(s, i + 1, dot);
        if s[i] == 'S' && i + 1 < |s| {
          NoMarkerAt(s, i);
        }
        PrependBringsNoMarker(s[i], PathTemplates.Scan(s, i + 1, dot));
      }
    }
  }

  /**
   * The path text in the query generated for a template is the path label that the
   * client metrics would record for the same template, when neither the service nor
   * the template contains the marker and the template is a single line.
   */
  lemma QueriesHoldReducedTemplate(k: nat, service: string, skip: bool, template: string)
    requires k < |TEMPLATES| && !Contains(service, MARKER) && !Contains(template, MARKER) && '\n' !in template
    ensures Prepare(TEMPLATES[k], service, skip, PathTemplates.NormalizePath(template))
         == Format(TEMPLATES[k], service, PathTemplates.ReducedTemplate(template), AccountText(skip))
  {
    var path := PathTemplates.NormalizePath(template);
    PathTemplates.NormalisersAreScans(template);
    NoMarkerMeans(template);
    ScanBringsNoMarker(template, 0, true);
    NoMarkerMeans(path);
    PreparedAsIntendedExactly(k, service, skip, path);
    PathTemplates.NewlineFreeNormalisersAgree(template);
  }
}
