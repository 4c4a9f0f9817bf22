/** The rows of a generated dashboard: row numbers, row ids and item ids over all panel kinds. */
module Dashboard {
  import opened Options
  import Strings

  /** `refId` is the code point of the reference letter. */
  datatype Target = Target(expr: string, refId: int)

  /**
   * A configured custom panel.  `timeseries` is the outcome of the case-insensitive
   * type comparison; the targets are filled in where they are, in the configuration.
   */
  datatype CustomPanel = CustomPanel(timeseries: bool, targets: array<Target>)

  datatype ConfigPanel =
    | FiveItems(path: string)
    | Routes
    | OpenApi(paths: set<string>)
    | Custom(path: string, panels: seq<CustomPanel>)
    | OtherKind

  datatype Item = Item(id: int, pluginVersion: string, targets: Option<array<Target>>)

  /** What is planned for a row: its kind, its title and its number of items. */
  datatype Plan = Plan(custom: bool, title: string, count: nat)

  datatype Row = Row(plan: Plan, id: int, y: int, items: seq<Item>)

  // ---------------------------------------------------------------- sorted paths

  /** Character-wise order, a proper prefix being less. */
  predicate Less(a: string, b: string) {
    b != "" && (a == "" || a[0] < b[0] || (a[0] == b[0] && Less(a[1..], b[1..])))
  }

  lemma {:induction false} LessIsTotal(a: string, b: string)
    ensures a == b || Less(a, b) || Less(b, a)
  {
    if a != "" && b != "" && a[0] == b[0] {
      LessIsTotal(a[1..], b[1..]);
      assert a == [a[0]] + a[1..] && b == [b[0]] + b[1..];
    }
  }

  lemma {:induction false} LessIsStrict(a: string, b: string, c: string)
    ensures !Less(a, a)
    ensures Less(a, b) && Less(b, c) ==> Less(a, c)
    decreases |a|
  {
    if a != "" {
      LessIsStrict(a[1..], if b == "" then "" else b[1..], if c == "" then "" else c[1..]);
    }
  }

  /** The first difference is at position `i`, where `a` has the smaller character. */
  predicate SmallerAt(a: string, b: string, i: nat) {
    i < |a| && i < |b| && a[..i] == b[..i] && a[i] < b[i]
  }

  /** Sorted before: a proper prefix, or a smaller character at the first difference. */
  ghost predicate Precedes(a: string, b: string) {
    (|a| < |b| && a == b[..|a|]) || exists i: nat :: SmallerAt(a, b, i)
  }

  lemma SmallerAgreesBefore(a: string, b: string, i: nat)
    requires SmallerAt(a, b, i)
    ensures i == 0 || a[0] == b[0]
  {
    if i > 0 {
      assert a[..i][0] == b[..i][0];
    }
  }

  lemma PrefixTail(a: string, b: string)
    requires a != "" && b != "" && a[0] == b[0] && |a| < |b|
    ensures a == b[..|a|] <==> a[1..] == b[1..][..|a| - 1]
  {
    assert a == [a[0]] + a[1..];
    assert b[..|a|] == [a[0]] + b[1..][..|a| - 1];
  }

  lemma PrefixOf(a: string, i: nat)
    requires i + 1 <= |a|
    ensures a[..i + 1] == [a[0]] + a[1..][..i] && a[..i + 1][1..] == a[1..][..i]
  {
  }

  lemma SmallerTail(a: string, b: string, i: nat)
    requires a != "" && b != "" && a[0] == b[0]
    ensures SmallerAt(a, b, i + 1) <==> SmallerAt(a[1..], b[1..], i)
  {
    if i + 1 < |a| && i + 1 < |b| {
      PrefixOf(a, i);
      PrefixOf(b, i);
    }
  }

  lemma PrecedesTail(a: string, b: string)
    requires a != "" && b != "" && a[0] == b[0]
    ensures Precedes(a, b) <==> Precedes(a[1..], b[1..])
  {
    if |a| < |b| {
      PrefixTail(a, b);
    }
    if i: nat :| SmallerAt(a, b, i) {
      SmallerTail(a, b, i - 1);
    }
    if i: nat :| SmallerAt(a[1..], b[1..], i) {
      SmallerTail(a, b, i);
    }
  }

  lemma {:induction false} LessExactly(a: string, b: string)
    ensures Less(a, b) <==> Precedes(a, b)
  {
    if a != "" && b != "" && a[0] == b[0] {
      LessExactly(a[1..], b[1..]);
      PrecedesTail(a, b);
    } else if a != "" && b != "" {
      assert a[0] < b[0] ==> SmallerAt(a, b, 0);
      forall i: nat | SmallerAt(a, b, i) ensures i == 0 {
        SmallerAgreesBefore(a, b, i);
      }
      if |a| < |b| {
        assert b[..|a|][0] != a[0];
      }
    }
  }

  predicate Ascending(xs: seq<string>) {
    forall i, j :: 0 <= i < j < |xs| ==> Less(xs[i], xs[j])
  }

  function Insert(x: string, xs: seq<string>): (ys: seq<string>)
    ensures forall k :: k in ys <==> k == x || k in xs
  {
    if xs == [] || Less(x, xs[0]) then [x] + xs else [xs[0]] + Insert(x, xs[1..])
  }

  lemma {:induction false} InsertAscends(x: string, xs: seq<string>)
    requires Ascending(xs) && x !in xs
    ensures Ascending(Insert(x, xs))
  {
    if xs != [] {
      LessIsTotal(x, xs[0]);
      if Less(x, xs[0]) {
        forall j | 0 <= j < |xs| ensures Less(x, xs[j]) {
          LessIsStrict(x, xs[0], xs[j]);
        }
      } else {
        InsertAscends(x, xs[1..]);
        var rest := Insert(x, xs[1..]);
        forall j | 0 <= j < |rest| ensures Less(xs[0], rest[j]) {
          assert rest[j] in rest;
          assert rest[j] == x || rest[j] in xs[1..];
        }
      }
    }
  }

  lemma RestLacksFirst(xs: seq<string>)
    requires Ascending(xs) && xs != []
    ensures Ascending(xs[1..]) && forall k :: k in xs[1..] <==> k in xs && k != xs[0]
  {
    LessIsStrict(xs[0], xs[0], xs[0]);
    assert xs == [xs[0]] + xs[1..];
  }

  lemma SameLeast(xs: seq<string>, ys: seq<string>)
    requires Ascending(xs) && Ascending(ys) && xs != [] && ys != []
    requires forall k :: k in xs <==> k in ys
    ensures xs[0] == ys[0]
  {
    if xs[0] != ys[0] {
      assert xs[0] in ys && ys[0] in xs;
      var i :| 0 <= i < |ys| && ys[i] == xs[0];
      var j :| 0 <= j < |xs| && xs[j] == ys[0];
      LessIsStrict(xs[0], ys[0], xs[0]);
    }
  }

  /** An ascending list is determined by its elements. */
  lemma {:induction false} AscendingIsUnique(xs: seq<string>, ys: seq<string>)
    requires Ascending(xs) && Ascending(ys) && forall k :: k in xs <==> k in ys
    ensures xs == ys
  {
    assert (xs != [] ==> xs[0] in xs) && (ys != [] ==> ys[0] in ys);
    if xs != [] && ys != [] {
      SameLeast(xs, ys);
      RestLacksFirst(xs);
      RestLacksFirst(ys);
      AscendingIsUnique(xs[1..], ys[1..]);
      assert xs == [xs[0]] + xs[1..] && ys == [ys[0]] + ys[1..];
    }
  }

  /** The keys in ascending order. */
  ghost function SortedKeys(keys: set<string>): (xs: seq<string>)
    ensures Ascending(xs) && forall k :: k in xs <==> k in keys
  {
    if keys == {} then []
    else
      var k :| k in keys;
      InsertAscends(k, SortedKeys(keys - {k}));
      Insert(k, SortedKeys(keys - {k}))
  }

  /** The map's keys, appended in whatever order the iteration takes. */
  method Keys(keys: set<string>) returns (result: seq<string>)
    ensures forall k :: k in result <==> k in keys
    ensures forall i, j :: 0 <= i < j < |result| ==> result[i] != result[j]
  {
    result := [];
    var left := keys;
    while left != {}
      invariant left <= keys && forall k :: k in result <==> k in keys - left
      invariant forall i, j :: 0 <= i < j < |result| ==> result[i] != result[j]
    {
      var k :| k in left;
      assert k !in result;
      result := result + [k];
      left := left - {k};
    }
  }

  /** Sorting, as the library does it. */
  method SortStrings(paths: seq<string>) returns (sorted: seq<string>)
    requires forall i, j :: 0 <= i < j < |paths| ==> paths[i] != paths[j]
    ensures Ascending(sorted) && forall k :: k in sorted <==> k in paths
  {
    sorted := [];
    for i := 0 to |paths|
      invariant Ascending(sorted) && forall k :: k in sorted <==> k in paths[..i]
    {
      InsertAscends(paths[i], sorted);
      sorted := Insert(paths[i], sorted);
      assert paths[..i + 1] == paths[..i] + [paths[i]];
    }
    assert paths[..|paths|] == paths;
  }

  // ---------------------------------------------------------------- what is planned

  function PathPlans(paths: seq<string>): (plans: seq<Plan>)
    ensures |plans| == |paths| && forall i :: 0 <= i < |paths| ==> plans[i] == Plan(false, paths[i], 5)
  {
    seq(|paths|, (i: nat) requires i < |paths| => Plan(false, paths[i], 5))
  }

  ghost function PlansOf(p: ConfigPanel): seq<Plan> {
    match p
    case FiveItems(path) => [Plan(false, path, 5)]
    case Routes => [Plan(false, "$route", 5)]
    case OpenApi(paths) => PathPlans(SortedKeys(paths))
    case Custom(path, panels) => [Plan(true, path, |panels|)]
    case OtherKind => []
  }

  /** The titles of these plans are exactly the paths, in ascending order. */
  ghost predicate TitledBy(plans: seq<Plan>, paths: set<string>) {
    && (forall i :: 0 <= i < |plans| ==> !plans[i].custom && plans[i].count == 5 && plans[i].title in paths)
    && (forall path :: path in paths ==> exists i :: 0 <= i < |plans| && plans[i].title == path)
    && (forall i, j :: 0 <= i < j < |plans| ==> Precedes(plans[i].title, plans[j].title))
  }

  lemma PathHasPlan(sorted: seq<string>, path: string)
    requires path in sorted
    ensures exists i :: 0 <= i < |sorted| && PathPlans(sorted)[i].title == path
  {
    var i :| 0 <= i < |sorted| && sorted[i] == path;
    assert PathPlans(sorted)[i].title == path;
  }

  lemma SortedPathsAreTitles(paths: set<string>)
    ensures TitledBy(PathPlans(SortedKeys(paths)), paths)
  {
    hide Precedes, Less, SortedKeys;
    var sorted := SortedKeys(paths);
    var plans := PathPlans(sorted);
    forall path | path in paths ensures exists i :: 0 <= i < |plans| && plans[i].title == path {
      PathHasPlan(sorted, path);
    }
    forall i, j | 0 <= i < j < |plans| ensures Precedes(plans[i].title, plans[j].title) {
      LessExactly(sorted[i], sorted[j]);
    }
  }

  /** The rows of each kind of panel: how many, their titles and their numbers of items. */
  lemma PlansOfExactly(p: ConfigPanel)
    ensures match p
      case FiveItems(path) => PlansOf(p) == [Plan(false, path, 5)]
      case Routes => PlansOf(p) == [Plan(false, "$route", 5)]
      case OpenApi(paths) => TitledBy(PlansOf(p), paths)
      case Custom(path, panels) => PlansOf(p) == [Plan(true, path, |panels|)]
      case OtherKind => PlansOf(p) == []
  {
    if p.OpenApi? {
      SortedPathsAreTitles(p.paths);
    }
  }

  /** The rows of all configured panels, in order. */
  ghost function Plans(panels: seq<ConfigPanel>): seq<Plan> {
    if panels == [] then [] else Plans(panels[..|panels| - 1]) + PlansOf(panels[|panels| - 1])
  }

  lemma PlansSnoc(panels: seq<ConfigPanel>, n: nat)
    requires n < |panels|
    ensures Plans(panels[..n + 1]) == Plans(panels[..n]) + PlansOf(panels[n])
  {
    assert panels[..n + 1][..n] == panels[..n];
  }

  function PlansIn(rows: seq<Row>): (plans: seq<Plan>)
    ensures |plans| == |rows| && forall k :: 0 <= k < |rows| ==> plans[k] == rows[k].plan
  {
    seq(|rows|, (k: nat) requires k < |rows| => rows[k].plan)
  }

  function ItemsBefore(rows: seq<Row>, k: nat): nat
    requires k <= |rows|
  {
    if k == 0 then 0 else ItemsBefore(rows, k - 1) + |rows[k - 1].items|
  }

  /** Row `k` has its number of items; item ids count on from 1 over all rows; a custom row's number lags by one. */
  predicate Numbered(rows: seq<Row>, k: nat)
    requires k < |rows|
  {
    var row := rows[k];
    && |row.items| == row.plan.count
    && row.id == (if row.plan.custom then k else k + 1)
    && row.y == row.id - 1
    && forall i :: 0 <= i < |row.items| ==> row.items[i].id == ItemsBefore(rows, k) + i + 1
  }

  lemma {:induction false} ItemsBeforeSnoc(rows: seq<Row>, row: Row, k: nat)
    requires k <= |rows|
    ensures ItemsBefore(rows + [row], k) == ItemsBefore(rows, k)
  {
    if k > 0 {
      ItemsBeforeSnoc(rows, row, k - 1);
      assert (rows + [row])[k - 1] == rows[k - 1];
    }
  }

  lemma ItemsBeforeAll(rows: seq<Row>, row: Row)
    ensures ItemsBefore(rows + [row], |rows| + 1) == ItemsBefore(rows, |rows|) + |row.items|
  {
    ItemsBeforeSnoc(rows, row, |rows|);
  }

  /** The counters of the main loop after these rows, which are those planned. */
  ghost predicate Going(rows: seq<Row>, plans: seq<Plan>, rowNum: int, panelId: int, fldId: int) {
    && PlansIn(rows) == plans
    && (forall k :: 0 <= k < |rows| ==> Numbered(rows, k))
    && panelId == |rows| && rowNum == |rows| - 1 && fldId == ItemsBefore(rows, |rows|) + 1
  }

  lemma GoingAtFirst(panels: seq<ConfigPanel>)
    requires panels == []
    ensures Going([], Plans(panels), -1, 0, 1)
  {
  }

  lemma GoingMeansNumbered(rows: seq<Row>, plans: seq<Plan>, rowNum: int, panelId: int, fldId: int)
    requires Going(rows, plans, rowNum, panelId, fldId)
    ensures PlansIn(rows) == plans && forall k :: 0 <= k < |rows| ==> Numbered(rows, k)
  {
  }

  lemma NumberedSnoc(rows: seq<Row>, row: Row)
    requires forall k :: 0 <= k < |rows| ==> Numbered(rows, k)
    requires |row.items| == row.plan.count && row.y == row.id - 1
    requires row.id == if row.plan.custom then |rows| else |rows| + 1
    requires forall i :: 0 <= i < |row.items| ==> row.items[i].id == ItemsBefore(rows, |rows|) + i + 1
    ensures forall k :: 0 <= k < |rows| + 1 ==> Numbered(rows + [row], k)
    ensures ItemsBefore(rows + [row], |rows| + 1) == ItemsBefore(rows, |rows|) + |row.items|
  {
    hide ItemsBefore;
    var more := rows + [row];
    forall k | 0 <= k < |more| ensures Numbered(more, k) {
      ItemsBeforeSnoc(rows, row, k);
      if k < |rows| {
        assert Numbered(rows, k) && more[k] == rows[k];
      }
    }
    ItemsBeforeAll(rows, row);
  }

  lemma RowKeepsGoing(rows: seq<Row>, plans: seq<Plan>, rowNum: int, panelId: int, fldId: int, row: Row)
    requires Going(rows, plans, rowNum, panelId, fldId)
    requires |row.items| == row.plan.count && row.y == row.id - 1
    requires row.id == if row.plan.custom then panelId else panelId + 1
    requires forall i :: 0 <= i < |row.items| ==> row.items[i].id == fldId + i
    ensures Going(rows + [row], plans + [row.plan], rowNum + 1, panelId + 1, fldId + |row.items|)
  {
    NumberedSnoc(rows, row);
    assert PlansIn(rows + [row]) == PlansIn(rows) + [row.plan];
  }

  // ---------------------------------------------------------------- generation

  /** A row of five generated items, whose queries are the subject of another module. */
  method CreateFive(title: string, rowNum: int, panelId: int, fldId: int) returns (nextId: int, row: Row)
    ensures nextId == fldId + 5
    ensures row.plan == Plan(false, title, 5) && row.id == panelId && row.y == rowNum && |row.items| == 5
    ensures forall i :: 0 <= i < 5 ==> row.items[i].id == fldId + i
  {
    var items := [Item(fldId, "", None), Item(fldId + 1, "", None), Item(fldId + 2, "", None),
                  Item(fldId + 3, "", None), Item(fldId + 4, "", None)];
    nextId, row := fldId + 5, Row(Plan(false, title, 5), panelId, rowNum, items);
  }

  /** Targets with the service filled in, and with reference letters from 'A' on. */
  function Filled(targets: seq<Target>, service: string): (filled: seq<Target>)
    ensures |filled| == |targets|
    ensures forall i :: 0 <= i < |targets| ==>
      filled[i] == Target(Strings.ReplaceAll(targets[i].expr, "grafana.service", service), 'A' as int + i)
  {
    seq(|targets|, (i: nat) requires i < |targets| =>
      Target(Strings.ReplaceAll(targets[i].expr, "grafana.service", service), 'A' as int + i))
  }

  /** The inner loop over one panel's targets, which it overwrites. */
  method FillTargets(targets: array<Target>, service: string)
    modifies targets
    ensures targets[..] == Filled(old(targets[..]), service)
  {
    var refId := 'A' as int;
    for i := 0 to targets.Length
      invariant refId == 'A' as int + i
      invariant targets[..i] == Filled(old(targets[..]), service)[..i]
      invariant targets[i..] == old(targets[..])[i..]
    {
      assert targets[i] == targets[i..][0] == old(targets[..])[i];
      targets[i] := Target(Strings.ReplaceAll(targets[i].expr, "grafana.service", service), refId);
      refId := refId + 1;
    }
    assert targets[..targets.Length] == targets[..];
  }

  function TargetsOf(panels: seq<CustomPanel>): set<array<Target>> {
    set k | 0 <= k < |panels| :: panels[k].targets
  }

  /** Each panel has targets of its own. */
  predicate OwnTargets(panels: seq<CustomPanel>) {
    forall j, k :: 0 <= j < k < |panels| ==> panels[j].targets != panels[k].targets
  }

  /** What the targets of some panels hold. */
  function TargetTexts(panels: seq<CustomPanel>): (texts: seq<seq<Target>>)
    reads TargetsOf(panels)
    ensures |texts| == |panels| && forall k :: 0 <= k < |panels| ==> texts[k] == panels[k].targets[..]
  {
    seq(|panels|, (k: nat) requires k < |panels| reads TargetsOf(panels) => panels[k].targets[..])
  }

  function FilledTexts(texts: seq<seq<Target>>, service: string): (filled: seq<seq<Target>>)
    ensures |filled| == |texts| && forall k :: 0 <= k < |texts| ==> filled[k] == Filled(texts[k], service)
  {
    seq(|texts|, (k: nat) requires k < |texts| => Filled(texts[k], service))
  }

  method CreateCustom(title: string, panels: seq<CustomPanel>, rowNum: int, panelId: int, fldId: int, service: string)
      returns (nextId: int, row: Row)
    requires OwnTargets(panels)
    modifies TargetsOf(panels)
    ensures nextId == fldId + |panels|
    ensures row.plan == Plan(true, title, |panels|) && row.id == panelId && row.y == rowNum
    ensures |row.items| == |panels|
    ensures forall k :: 0 <= k < |panels| ==>
      row.items[k] == Item(fldId + k, if panels[k].timeseries then "10.4.1" else "7.2.1", Some(panels[k].targets))
    ensures TargetTexts(panels) == FilledTexts(old(TargetTexts(panels)), service)
  {
    var items: seq<Item> := [];
    nextId := fldId;
    for k := 0 to |panels|
      invariant nextId == fldId + k && |items| == k
      invariant forall j :: 0 <= j < k ==>
        items[j] == Item(fldId + j, if panels[j].timeseries then "10.4.1" else "7.2.1", Some(panels[j].targets))
      invariant forall j :: 0 <= j < k ==> panels[j].targets[..] == Filled(old(panels[j].targets[..]), service)
      invariant forall j :: k <= j < |panels| ==> panels[j].targets[..] == old(panels[j].targets[..])
    {
      FillTargets(panels[k].targets, service);
      items := items + [Item(nextId, if panels[k].timeseries then "10.4.1" else "7.2.1", Some(panels[k].targets))];
      nextId := nextId + 1;
    }
    row := Row(Plan(true, title, |panels|), panelId, rowNum, items);
  }

  /** The rows of an OpenAPI document: one per path, in sorted order. */
  method AddPaths(paths: set<string>, before: seq<Row>, ghost planned: seq<Plan>,
                  rowNum0: int, panelId0: int, fldId0: int)
      returns (rows: seq<Row>, rowNum: int, panelId: int, fldId: int)
    requires Going(before, planned, rowNum0, panelId0, fldId0) && panelId0 == rowNum0 + 1
    ensures Going(rows, planned + PathPlans(SortedKeys(paths)), rowNum, panelId, fldId) && panelId == rowNum + 1
    ensures TitledBy(PathPlans(SortedKeys(paths)), paths)
  {
    hide Going, TitledBy, SortedKeys;
    rows, rowNum, panelId, fldId := before, rowNum0, panelId0, fldId0;
    var keys := Keys(paths);
    var sorted := SortStrings(keys);
    AscendingIsUnique(sorted, SortedKeys(paths));
    SortedPathsAreTitles(paths);
    assert planned + PathPlans(sorted[..0]) == planned;
    for i := 0 to |sorted|
      invariant Going(rows, planned + PathPlans(sorted[..i]), rowNum, panelId, fldId) && panelId == rowNum + 1
    {
      var row;
      ghost var from := fldId;
      rowNum, panelId := rowNum + 1, panelId + 1;
      fldId, row := CreateFive(sorted[i], rowNum, panelId, fldId);
      RowKeepsGoing(rows, planned + PathPlans(sorted[..i]), rowNum - 1, panelId - 1, from, row);
      rows := rows + [row];
      assert planned + PathPlans(sorted[..i + 1]) == planned + PathPlans(sorted[..i]) + [row.plan];
    }
    assert sorted[..|sorted|] == sorted;
  }

  /** The targets that a panel of the configuration brings. */
  function OwnedBy(p: ConfigPanel): set<array<Target>> {
    if p.Custom? then TargetsOf(p.panels) else {}
  }

  /** The body of the main loop: every kind of panel advances the same three counters. */
  method AddPanel(p: ConfigPanel, before: seq<Row>, ghost planned: seq<Plan>,
                  rowNum0: int, panelId0: int, fldId0: int, service: string)
      returns (rows: seq<Row>, rowNum: int, panelId: int, fldId: int)
    requires Going(before, planned, rowNum0, panelId0, fldId0) && panelId0 == rowNum0 + 1
    requires p.Custom? ==> OwnTargets(p.panels)
    modifies OwnedBy(p)
    ensures Going(rows, planned + PlansOf(p), rowNum, panelId, fldId) && panelId == rowNum + 1
    ensures p.Custom? ==> TargetTexts(p.panels) == FilledTexts(old(TargetTexts(p.panels)), service)
  {
    hide Going, FilledTexts, TargetTexts, SortedKeys, PathPlans;
    rows, rowNum, panelId, fldId := before, rowNum0, panelId0, fldId0;
    var row;
    match p {
      case FiveItems(path) =>
        rowNum, panelId := rowNum + 1, panelId + 1;
        fldId, row := CreateFive(path, rowNum, panelId, fldId);
        RowKeepsGoing(before, planned, rowNum0, panelId0, fldId0, row);
        rows := rows + [row];
      case Routes =>
        rowNum, panelId := rowNum + 1, panelId + 1;
        fldId, row := CreateFive("$route", rowNum, panelId, fldId);
        RowKeepsGoing(before, planned, rowNum0, panelId0, fldId0, row);
        rows := rows + [row];
      case OpenApi(paths) =>
        rows, rowNum, panelId, fldId := AddPaths(paths, before, planned, rowNum0, panelId0, fldId0);
      case Custom(path, custom) =>
        fldId, row := CreateCustom(path, custom, rowNum, panelId, fldId, service);
        rowNum, panelId := rowNum + 1, panelId + 1;
        RowKeepsGoing(before, planned, rowNum0, panelId0, fldId0, row);
        rows := rows + [row];
      case OtherKind =>
        assert planned + [] == planned;
    }
  }

  /** All targets in the configuration. */
  ghost function AllTargets(panels: seq<ConfigPanel>): (all: set<array<Target>>)
    ensures forall p :: p in panels ==> OwnedBy(p) <= all
  {
    set p, a | p in panels && a in OwnedBy(p) :: a
  }

  /** Each custom panel has targets of its own, as decoding a configuration makes them. */
  ghost predicate Decoded(panels: seq<ConfigPanel>) {
    && (forall m :: 0 <= m < |panels| && panels[m].Custom? ==> OwnTargets(panels[m].panels))
    && (forall m, n :: 0 <= m < |panels| && 0 <= n < |panels| && m != n ==> OwnedBy(panels[m]) !! OwnedBy(panels[n]))
  }

  method GenerateGrafana(panels: seq<ConfigPanel>, service: string) returns (rows: seq<Row>)
    requires Decoded(panels)
    modifies AllTargets(panels)
    ensures PlansIn(rows) == Plans(panels)
    ensures forall k :: 0 <= k < |rows| ==> Numbered(rows, k)
    ensures forall m :: 0 <= m < |panels| && panels[m].Custom? ==>
      TargetTexts(panels[m].panels) == FilledTexts(old(TargetTexts(panels[m].panels)), service)
  {
    hide Going, Plans, PlansOf, AllTargets, FilledTexts, PlansIn, Numbered;
    var rowNum, panelId, fldId := -1, 0, 1;
    rows := [];
    GoingAtFirst(panels[..0]);
    for n := 0 to |panels|
      invariant Going(rows, Plans(panels[..n]), rowNum, panelId, fldId) && panelId == rowNum + 1
      invariant forall m :: 0 <= m < |panels| && panels[m].Custom? ==>
        var before := old(TargetTexts(panels[m].panels));
        TargetTexts(panels[m].panels) == if m < n then FilledTexts(before, service) else before
    {
      PlansSnoc(panels, n);
      assert forall m :: 0 <= m < |panels| && m != n ==> OwnedBy(panels[m]) !! OwnedBy(panels[n]);
      rows, rowNum, panelId, fldId :=
        AddPanel(panels[n], rows, Plans(panels[..n]), rowNum, panelId, fldId, service);
    }
    assert panels[..|panels|] == panels;
    GoingMeansNumbered(rows, Plans(panels), rowNum, panelId, fldId);
  }

  // ---------------------------------------------------------------- what the numbering means

  function Ids(items: seq<Item>): (ids: seq<int>)
    ensures |ids| == |items| && forall i :: 0 <= i < |items| ==> ids[i] == items[i].id
  {
    seq(|items|, (i: nat) requires i < |items| => items[i].id)
  }

  /** All item ids of the first `k` rows, in dashboard order. */
  function ItemIds(rows: seq<Row>, k: nat): seq<int>
    requires k <= |rows|
  {
    if k == 0 then [] else ItemIds(rows, k - 1) + Ids(rows[k - 1].items)
  }

  /** The item ids in dashboard order are exactly 1, 2, ..., N. */
  lemma {:induction false} ItemIdsCount(rows: seq<Row>, k: nat)
    requires k <= |rows| && forall j :: 0 <= j < |rows| ==> Numbered(rows, j)
    ensures |ItemIds(rows, k)| == ItemsBefore(rows, k)
    ensures forall i :: 0 <= i < |ItemIds(rows, k)| ==> ItemIds(rows, k)[i] == i + 1
  {
    if k > 0 {
      ItemIdsCount(rows, k - 1);
      assert Numbered(rows, k - 1);
    }
  }

  /** Row numbers never decrease; two rows share an id exactly when a custom row directly follows a generated one. */
  lemma RowIdsCollideExactly(rows: seq<Row>, i: nat, j: nat)
    requires i < j < |rows| && forall k :: 0 <= k < |rows| ==> Numbered(rows, k)
    ensures rows[i].id == rows[i].y + 1 == (if rows[i].plan.custom then i else i + 1) && rows[i].y <= rows[j].y
    ensures rows[i].id == rows[j].id <==> j == i + 1 && !rows[i].plan.custom && rows[j].plan.custom
  {
    assert Numbered(rows, i) && Numbered(rows, j);
  }
}
