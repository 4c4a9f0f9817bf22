/**
 * The extra fields of a log event: a flat list of alternating keys and values, to
 * which the registered callbacks add theirs in the order of a map iteration, is
 * turned into one map.
 */
module Extras {
  import opened Options
  import opened Orders
  import opened Seqs

  datatype Value = Str(s: string) | Other(id: int)

  const MISSING_VALUE := Str("(MISSING)")

  /** `%d` of a natural number. */
  function Decimal(n: nat): string {
    if n < 10 then [('0' as int + n) as char] else Decimal(n / 10) + [('0' as int + n % 10) as char]
  }

  /** The key that the element at index `i` stands for. */
  function KeyOf(v: Value, i: nat): string {
    if !v.Str? then "(NOT_A_STRING[" + Decimal(i) + "])"
    else if v.s == "" then "(MISSING_KEY[" + Decimal(i) + "])"
    else v.s
  }

  lemma KeyShape(v: Value, i: nat)
    ensures KeyOf(v, i) != "" && (!v.Str? ==> KeyOf(v, i)[0] == '(')
  {
  }

  lemma NamedKey(s: string, i: nat)
    requires s != ""
    ensures KeyOf(Str(s), i) == s
  {
  }

  lemma DecimalLength(n: nat)
    ensures |Decimal(n)| > 0 && (|Decimal(n)| == 1 <==> n < 10)
  {
  }

  lemma {:induction false} DecimalIsInjective(m: nat, n: nat)
    requires Decimal(m) == Decimal(n)
    ensures m == n
  {
    var s, k := Decimal(m), |Decimal(m)| - 1;
    if m < 10 || n < 10 {
      DecimalLength(m);
      DecimalLength(n);
    } else {
      assert Decimal(m / 10) == s[..k] == Decimal(n / 10);
      DecimalIsInjective(m / 10, n / 10);
      assert '0' as int + m % 10 == s[k] as int == '0' as int + n % 10;
    }
  }

  /** The number a text of digits stands for. */
  function Parsed(s: string): nat
    requires forall i :: 0 <= i < |s| ==> '0' <= s[i] <= '9'
  {
    if s == "" then 0 else 10 * Parsed(s[..|s| - 1]) + (s[|s| - 1] as int - '0' as int)
  }

  /** A number's text has digits only, no leading zero, and stands for the number. */
  lemma {:induction false} DecimalReadsBack(n: nat)
    ensures forall i :: 0 <= i < |Decimal(n)| ==> '0' <= Decimal(n)[i] <= '9'
    ensures Parsed(Decimal(n)) == n && (n > 0 ==> Decimal(n)[0] != '0')
  {
    if n < 10 {
      assert Decimal(n)[..0] == "";
    } else {
      DecimalReadsBack(n / 10);
      assert Decimal(n)[..|Decimal(n)| - 1] == Decimal(n / 10);
    }
  }

  /** The element is no key of its own: taken for one, it becomes a name that shows its position. */
  predicate Positional(v: Value) { !v.Str? || v.s == "" }

  function Opening(v: Value): string {
    if v.Str? then "(MISSING_KEY[" else "(NOT_A_STRING["
  }

  lemma Between(a: string, s: string, b: string)
    ensures (a + s + b)[|a|..|a + s + b| - |b|] == s
  {
  }

  /** Two such names are equal exactly for equal positions and kinds. */
  lemma PositionsShow(v: Value, m: nat, w: Value, n: nat)
    requires Positional(v) && Positional(w)
    ensures KeyOf(v, m) == KeyOf(w, n) <==> m == n && v.Str? == w.Str?
  {
    hide Decimal;
    if KeyOf(v, m) == KeyOf(w, n) {
      assert KeyOf(v, m)[1] == Opening(v)[1] && KeyOf(w, n)[1] == Opening(w)[1];
      var i := |Opening(v)|;
      Between(Opening(v), Decimal(m), "])");
      Between(Opening(w), Decimal(n), "])");
      DecimalIsInjective(m, n);
    }
  }

  /** What follows a key: its value, or the marker when nothing follows. */
  function ValueAfter(kvs: seq<Value>, j: nat): Value {
    if j + 1 < |kvs| then kvs[j + 1] else MISSING_VALUE
  }

  type Field = (string, Value)

  /** The fields of a list whose first element has index `base`, in order. */
  function Fields(kvs: seq<Value>, base: nat): seq<Field> {
    if kvs == [] then []
    else if |kvs| == 1 then [(KeyOf(kvs[0], base), MISSING_VALUE)]
    else [(KeyOf(kvs[0], base), kvs[1])] + Fields(kvs[2..], base + 2)
  }

  lemma {:induction false} FieldsLength(kvs: seq<Value>, base: nat)
    ensures |Fields(kvs, base)| == (|kvs| + 1) / 2
  {
    hide KeyOf;
    if |kvs| >= 2 {
      FieldsLength(kvs[2..], base + 2);
    }
  }

  /** Field `i` has the key at position `2i` and what follows it. */
  lemma {:induction false} FieldAt(kvs: seq<Value>, base: nat, i: nat)
    requires i < |Fields(kvs, base)|
    ensures 2 * i < |kvs|
    ensures Fields(kvs, base)[i] == (KeyOf(kvs[2 * i], base + 2 * i), ValueAfter(kvs, 2 * i))
    decreases i
  {
    hide KeyOf;
    if i > 0 {
      FieldAt(kvs[2..], base + 2, i - 1);
    }
  }

  /** A map built field by field. */
  function Merge(fields: seq<Field>): map<string, Value> {
    if fields == [] then map[]
    else
      var last := fields[|fields| - 1];
      Merge(fields[..|fields| - 1])[last.0 := last.1]
  }

  function Extra(kvs: seq<Value>): map<string, Value> { Merge(Fields(kvs, 0)) }

  lemma {:induction false} MergeConcat(a: seq<Field>, b: seq<Field>)
    ensures Merge(a + b) == Merge(a) + Merge(b)
  {
    if b == [] {
      assert a + b == a;
    } else {
      var n := |b| - 1;
      assert (a + b)[..|a + b| - 1] == a + b[..n];
      MergeConcat(a, b[..n]);
    }
  }

  lemma {:induction false} FieldsConcat(a: seq<Value>, b: seq<Value>, base: nat)
    requires |a| % 2 == 0
    ensures Fields(a + b, base) == Fields(a, base) + Fields(b, base + |a|)
  {
    hide KeyOf;
    if a == [] {
      assert a + b == b;
    } else {
      assert (a + b)[0] == a[0] && (a + b)[1] == a[1] && (a + b)[2..] == a[2..] + b;
      FieldsConcat(a[2..], b, base + 2);
    }
  }

  /** Up to a position, the fields are those up to the last key before it, and one more. */
  lemma FieldsSnoc(kvs: seq<Value>, n: nat)
    requires 0 < n <= |kvs|
    ensures var j := if n % 2 == 1 then n - 1 else n - 2;
      Fields(kvs[..n], 0) ==
        Fields(kvs[..j], 0) + [(KeyOf(kvs[j], j), if n % 2 == 1 then MISSING_VALUE else kvs[n - 1])]
  {
    hide KeyOf;
    var j := if n % 2 == 1 then n - 1 else n - 2;
    var tail := kvs[j..n];
    assert kvs[..n] == kvs[..j] + tail;
    FieldsConcat(kvs[..j], tail, 0);
    assert tail[0] == kvs[j] && (|tail| == 2 ==> tail[1] == kvs[n - 1]);
    assert |tail| == 2 ==> tail[2..] == [];
  }

  /** An empty list gives a nil map. */
  method ContextToLegacyExtra(kvs: seq<Value>) returns (ret: Option<map<string, Value>>)
    ensures ret == if kvs == [] then None else Some(Extra(kvs))
  {
    if kvs == [] {
      return None;
    }
    var fields: map<string, Value> := map[];
    var currKey := "";
    for i := 0 to |kvs|
      invariant i % 2 == 0 ==> currKey == "" && fields == Extra(kvs[..i])
      invariant i % 2 == 1 ==> currKey == KeyOf(kvs[i - 1], i - 1) && fields == Extra(kvs[..i - 1])
    {
      var curr := kvs[i];
      if i % 2 == 0 {
        currKey := KeyOf(curr, i);
        continue;
      }
      FieldsSnoc(kvs, i + 1);
      fields := fields[currKey := curr];
      currKey := "";
    }
    assert kvs[..|kvs|] == kvs;
    KeyShape(kvs[|kvs| - 1], |kvs| - 1);
    if currKey != "" {
      FieldsSnoc(kvs, |kvs|);
      fields := fields[currKey := MISSING_VALUE];
    }
    ret := Some(fields);
  }

  // ---------------------------------------------------------------- what the fields are

  /** `i` is the last field with this key. */
  ghost predicate LastAt(fields: seq<Field>, i: nat, key: string) {
    i < |fields| && fields[i].0 == key && forall m :: i < m < |fields| ==> fields[m].0 != key
  }

  lemma {:induction false} MergeLastWins(fields: seq<Field>, key: string)
    ensures key in Merge(fields) <==> exists i :: 0 <= i < |fields| && fields[i].0 == key
    ensures forall i: nat :: LastAt(fields, i, key) ==> Merge(fields)[key] == fields[i].1
  {
    if fields != [] {
      var n := |fields| - 1;
      MergeLastWins(fields[..n], key);
      assert forall i :: 0 <= i < n ==> fields[..n][i] == fields[i];
      forall i: nat | LastAt(fields, i, key) ensures Merge(fields)[key] == fields[i].1 {
        assert i < n ==> LastAt(fields[..n], i, key);
      }
    }
  }

  predicate IsKeyAt(kvs: seq<Value>, j: nat, key: string) {
    j < |kvs| && j % 2 == 0 && KeyOf(kvs[j], j) == key
  }

  lemma KeyIsField(kvs: seq<Value>, j: nat, key: string)
    requires IsKeyAt(kvs, j, key)
    ensures j / 2 < |Fields(kvs, 0)| && Fields(kvs, 0)[j / 2] == (key, ValueAfter(kvs, j))
  {
    hide KeyOf;
    FieldsLength(kvs, 0);
    FieldAt(kvs, 0, j / 2);
  }

  lemma FieldWith(fields: seq<Field>, key: string) returns (i: nat)
    requires key in Merge(fields)
    ensures i < |fields| && fields[i].0 == key
  {
    MergeLastWins(fields, key);
    i :| 0 <= i < |fields| && fields[i].0 == key;
  }

  lemma PresentHasKey(kvs: seq<Value>, key: string) returns (j: nat)
    requires key in Extra(kvs)
    ensures IsKeyAt(kvs, j, key)
  {
    hide KeyOf, Merge, Fields;
    var i := FieldWith(Fields(kvs, 0), key);
    FieldAt(kvs, 0, i);
    j := 2 * i;
  }

  lemma KeyIsPresent(kvs: seq<Value>, j: nat, key: string)
    requires IsKeyAt(kvs, j, key)
    ensures key in Extra(kvs)
  {
    hide KeyOf, Merge, Fields, IsKeyAt;
    KeyIsField(kvs, j, key);
    MergeLastWins(Fields(kvs, 0), key);
  }

  /** A field is present exactly when some even position holds its key. */
  lemma ExtraPresence(kvs: seq<Value>, key: string)
    ensures key in Extra(kvs) <==> exists j: nat :: IsKeyAt(kvs, j, key)
  {
    hide Extra, IsKeyAt;
    if key in Extra(kvs) {
      var j := PresentHasKey(kvs, key);
    }
    if j: nat :| IsKeyAt(kvs, j, key) {
      KeyIsPresent(kvs, j, key);
    }
  }

  lemma OtherKeyIsOtherField(kvs: seq<Value>, m: nat, key: string)
    requires m < |Fields(kvs, 0)| && !IsKeyAt(kvs, 2 * m, key)
    ensures Fields(kvs, 0)[m].0 != key
  {
    hide KeyOf;
    FieldAt(kvs, 0, m);
  }

  /** The last key wins: its value is what follows it, or the marker when nothing does: the length is odd. */
  lemma ExtraLastWins(kvs: seq<Value>, j: nat, key: string)
    requires IsKeyAt(kvs, j, key) && forall m :: j < m < |kvs| ==> !IsKeyAt(kvs, m, key)
    ensures key in Extra(kvs) && Extra(kvs)[key] == ValueAfter(kvs, j)
    ensures j + 1 == |kvs| ==> |kvs| % 2 == 1 && Extra(kvs)[key] == MISSING_VALUE
  {
    hide KeyOf, Merge;
    var fields := Fields(kvs, 0);
    MergeLastWins(fields, key);
    KeyIsField(kvs, j, key);
    forall m | j / 2 < m < |fields| ensures fields[m].0 != key {
      FieldsLength(kvs, 0);
      OtherKeyIsOtherField(kvs, m, key);
    }
    assert LastAt(fields, j / 2, key);
  }

  /** What stands under a key of its own: what follows its last occurrence, or the marker at the end of the list. */
  lemma NamedFieldExactly(kvs: seq<Value>, j: nat, key: string)
    requires j < |kvs| && j % 2 == 0 && kvs[j] == Str(key) && key != ""
    requires forall m :: j < m < |kvs| && m % 2 == 0 ==> !(kvs[m] == Str(key) || Positional(kvs[m]))
    ensures key in Extra(kvs) && Extra(kvs)[key] == if j + 1 < |kvs| then kvs[j + 1] else Str("(MISSING)")
  {
    hide KeyOf, Extra;
    NamedKey(key, j);
    forall m | j < m < |kvs| ensures !IsKeyAt(kvs, m, key) {
      if m % 2 == 0 {
        NamedKey(kvs[m].s, m);
      }
    }
    ExtraLastWins(kvs, j, key);
  }

  /** The names of keys that are none, with the position written out. */
  lemma PositionTexts(id: int, i: nat)
    ensures KeyOf(Other(id), i) == "(NOT_A_STRING[" + Decimal(i) + "])"
    ensures KeyOf(Str(""), i) == "(MISSING_KEY[" + Decimal(i) + "])"
    ensures KeyOf(Other(id), 12) == "(NOT_A_STRING[12])" && KeyOf(Str(""), 0) == "(MISSING_KEY[0])"
  {
    assert Decimal(12) == "12" && Decimal(0) == "0";
  }

  // ---------------------------------------------------------------- merging

  /** The keys of the list are non-empty strings, so that no index shows in a field name. */
  predicate NamedKeys(kvs: seq<Value>) {
    forall j :: 0 <= j < |kvs| && j % 2 == 0 ==> kvs[j].Str? && kvs[j].s != ""
  }

  lemma {:induction false} BaseDoesNotShow(kvs: seq<Value>, b1: nat, b2: nat)
    requires NamedKeys(kvs)
    ensures Fields(kvs, b1) == Fields(kvs, b2)
    decreases |kvs|
  {
    if |kvs| >= 2 {
      assert forall j :: 0 <= j < |kvs[2..]| ==> kvs[2..][j] == kvs[j + 2];
      BaseDoesNotShow(kvs[2..], b1 + 2, b2 + 2);
    }
  }

  /** Appending to an even list merges the two maps, the appended fields winning. */
  lemma ExtraMerges(a: seq<Value>, b: seq<Value>)
    requires |a| % 2 == 0 && NamedKeys(b)
    ensures Extra(a + b) == Extra(a) + Extra(b)
  {
    hide KeyOf, Fields, Merge;
    FieldsConcat(a, b, 0);
    BaseDoesNotShow(b, |a|, 0);
    MergeConcat(Fields(a, 0), Fields(b, 0));
  }

  // ---------------------------------------------------------------- callbacks in any order

  type Callbacks = map<string, Option<Value>>

  /** What one callback contributes: its key and its answer, or nothing if it is nil. */
  function Pair(k: string, callbacks: Callbacks): seq<Value>
    requires k in callbacks
  {
    match callbacks[k]
    case None => []
    case Some(v) => [Str(k), v]
  }

  /** The keys and answers of the callbacks in this order; nil callbacks are skipped. */
  function FromContext(order: seq<string>, callbacks: Callbacks): seq<Value>
    requires forall k :: k in order ==> k in callbacks
  {
    if order == [] then [] else Pair(order[0], callbacks) + FromContext(order[1..], callbacks)
  }

  lemma {:induction false} FromContextConcat(xs: seq<string>, ys: seq<string>, callbacks: Callbacks)
    requires forall k :: k in xs || k in ys ==> k in callbacks
    ensures FromContext(xs + ys, callbacks) == FromContext(xs, callbacks) + FromContext(ys, callbacks)
  {
    if xs == [] {
      assert xs + ys == ys;
    } else {
      assert (xs + ys)[1..] == xs[1..] + ys;
      FromContextConcat(xs[1..], ys, callbacks);
      ConcatAssociates(Pair(xs[0], callbacks), FromContext(xs[1..], callbacks), FromContext(ys, callbacks));
    }
  }

  lemma FromContextOne(k: string, callbacks: Callbacks)
    requires k in callbacks
    ensures FromContext([k], callbacks) == Pair(k, callbacks)
  {
    assert FromContext([k], callbacks) == Pair(k, callbacks) + FromContext([k][1..], callbacks);
  }

  method ExtrasFromContext(callbacks: Callbacks) returns (ret: seq<Value>)
    ensures exists order :: Enumerates(order, callbacks.Keys) && ret == FromContext(order, callbacks)
  {
    ret := [];
    ghost var order: seq<string> := [];
    var left := callbacks.Keys;
    while left != {}
      invariant left <= callbacks.Keys && Enumerates(order, callbacks.Keys - left)
      invariant ret == FromContext(order, callbacks)
    {
      var k :| k in left;
      FromContextConcat(order, [k], callbacks);
      FromContextOne(k, callbacks);
      if callbacks[k].Some? {
        ret := ret + [Str(k), callbacks[k].value];
      }
      EnumeratesOne(k);
      EnumeratesConcat(order, [k], callbacks.Keys - left, {k});
      assert callbacks.Keys - left + {k} == callbacks.Keys - (left - {k});
      order := order + [k];
      left := left - {k};
    }
    assert Enumerates(order, callbacks.Keys) && ret == FromContext(order, callbacks);
  }

  /** What is logged: the caller's pairs followed by the callbacks'. */
  function Logged(kvs: seq<Value>, order: seq<string>, callbacks: Callbacks): map<string, Value>
    requires forall k :: k in order ==> k in callbacks
  {
    Extra(kvs + FromContext(order, callbacks))
  }

  /** The answers of the callbacks that are not nil. */
  function AnswerMap(callbacks: Callbacks): map<string, Value> {
    map k | k in callbacks && callbacks[k].Some? :: callbacks[k].value
  }

  function AnswersIn(order: seq<string>, callbacks: Callbacks): map<string, Value>
    requires forall k :: k in order ==> k in callbacks
  {
    map k | k in order && callbacks[k].Some? :: callbacks[k].value
  }

  /** The callbacks' list is made of whole fields under the registered keys. */
  lemma {:induction false} FromContextNamed(order: seq<string>, callbacks: Callbacks)
    requires forall k :: k in order ==> k in callbacks && k != ""
    ensures var kvs := FromContext(order, callbacks); |kvs| % 2 == 0 && NamedKeys(kvs)
  {
    if order != [] {
      assert forall x :: x in order[1..] ==> x in order;
      FromContextNamed(order[1..], callbacks);
      var rest := FromContext(order[1..], callbacks);
      var kvs := FromContext(order, callbacks);
      if callbacks[order[0]].Some? {
        assert kvs == [Str(order[0]), callbacks[order[0]].value] + rest;
        forall j | 0 <= j < |kvs| && j % 2 == 0 ensures kvs[j].Str? && kvs[j].s != "" {
          assert j >= 2 ==> kvs[j] == rest[j - 2];
        }
      } else {
        assert kvs == rest;
      }
    }
  }

  lemma OneField(k: string, v: Value)
    requires k != ""
    ensures Extra([Str(k), v]) == map[k := v]
  {
    assert [Str(k), v][2..] == [];
    assert Fields([Str(k), v], 0) == [(k, v)];
    assert [(k, v)][..0] == [] && Merge([]) == map[];
  }

  lemma AnswersOneMore(k: string, rest: seq<string>, callbacks: Callbacks)
    requires k in callbacks && k !in rest && forall x :: x in rest ==> x in callbacks
    ensures AnswersIn([k] + rest, callbacks) ==
      if callbacks[k].Some? then map[k := callbacks[k].value] + AnswersIn(rest, callbacks)
      else AnswersIn(rest, callbacks)
  {
    assert forall x :: x in [k] + rest <==> x == k || x in rest;
  }

  lemma OneMoreCallback(k: string, rest: seq<string>, callbacks: Callbacks)
    requires k != "" && k in callbacks && k !in rest && forall x :: x in rest ==> x in callbacks && x != ""
    requires Extra(FromContext(rest, callbacks)) == AnswersIn(rest, callbacks)
    ensures Extra(FromContext([k] + rest, callbacks)) == AnswersIn([k] + rest, callbacks)
  {
    hide KeyOf, Merge, Fields;
    AnswersOneMore(k, rest, callbacks);
    var more := FromContext(rest, callbacks);
    assert ([k] + rest)[1..] == rest;
    match callbacks[k]
    case Some(v) =>
      FromContextNamed(rest, callbacks);
      OneField(k, v);
      ExtraMerges([Str(k), v], more);
    case None =>
      assert [] + more == more;
  }

  /** Whatever the order, the callbacks alone contribute their own map. */
  lemma {:induction false} FromContextExtra(order: seq<string>, callbacks: Callbacks)
    requires forall k :: k in order ==> k in callbacks && k != ""
    requires forall i, j :: 0 <= i < j < |order| ==> order[i] != order[j]
    ensures Extra(FromContext(order, callbacks)) == AnswersIn(order, callbacks)
  {
    hide KeyOf;
    if order != [] {
      var k, rest := order[0], order[1..];
      assert order == [k] + rest;
      forall i | 0 <= i < |rest| ensures rest[i] != k {
        assert order[0] != order[i + 1];
      }
      forall i, j | 0 <= i < j < |rest| ensures rest[i] != rest[j] {
        assert order[i + 1] != order[j + 1];
      }
      forall x | x in rest ensures x in order && x in callbacks && x != "" {
      }
      FromContextExtra(rest, callbacks);
      assert k in order;
      OneMoreCallback(k, rest, callbacks);
    }
  }

  /** After a list of even length the callbacks' answers are merged in, whatever the order. */
  lemma EvenListLogs(kvs: seq<Value>, order: seq<string>, callbacks: Callbacks)
    requires |kvs| % 2 == 0 && "" !in callbacks && Enumerates(order, callbacks.Keys)
    ensures Logged(kvs, order, callbacks) == Extra(kvs) + AnswerMap(callbacks)
  {
    hide Extra;
    assert forall k :: k in order ==> k in callbacks && k != "";
    FromContextNamed(order, callbacks);
    ExtraMerges(kvs, FromContext(order, callbacks));
    FromContextExtra(order, callbacks);
    assert AnswersIn(order, callbacks) == AnswerMap(callbacks);
  }

  // ---------------------------------------------------------------- lists that end in a key

  /** The key that waits for a value at the end of an odd list. */
  function DanglingKey(kvs: seq<Value>): string
    requires kvs != []
  {
    KeyOf(kvs[|kvs| - 1], |kvs| - 1)
  }

  /** The answer is never taken for this key, wherever from this position on it stands. */
  ghost predicate NeverReads(v: Value, key: string, from: nat) {
    forall n: nat :: n >= from ==> KeyOf(v, n) != key
  }

  /** An answer that shows its position never reads as a dangling key that shows an earlier one. */
  lemma PositionalNeverReads(kvs: seq<Value>, v: Value)
    requires kvs != [] && Positional(kvs[|kvs| - 1]) && Positional(v)
    ensures NeverReads(v, DanglingKey(kvs), |kvs|)
  {
    hide KeyOf;
    forall n: nat | n >= |kvs| ensures KeyOf(v, n) != DanglingKey(kvs) {
      PositionsShow(v, n, kvs[|kvs| - 1], |kvs| - 1);
    }
  }

  predicate Answers(callbacks: Callbacks, k: string, v: Value) {
    k in callbacks && callbacks[k] == Some(v)
  }

  ghost predicate IsAnswer(callbacks: Callbacks, v: Value) {
    exists k :: Answers(callbacks, k, v)
  }

  /** A list of whole fields whose values are answers. */
  ghost predicate AnswerFields(kvs: seq<Value>, callbacks: Callbacks) {
    kvs == [] || (|kvs| >= 2 && IsAnswer(callbacks, kvs[1]) && AnswerFields(kvs[2..], callbacks))
  }

  lemma {:induction false} AnswerFieldsConcat(xs: seq<Value>, ys: seq<Value>, callbacks: Callbacks)
    requires AnswerFields(xs, callbacks) && AnswerFields(ys, callbacks)
    ensures AnswerFields(xs + ys, callbacks)
  {
    hide IsAnswer;
    if xs == [] {
      assert xs + ys == ys;
    } else {
      AnswerFieldsConcat(xs[2..], ys, callbacks);
      assert (xs + ys)[2..] == xs[2..] + ys;
    }
  }

  lemma {:induction false} AnswerFieldsAreEven(kvs: seq<Value>, callbacks: Callbacks)
    requires AnswerFields(kvs, callbacks)
    ensures |kvs| % 2 == 0
  {
    if kvs != [] {
      AnswerFieldsAreEven(kvs[2..], callbacks);
    }
  }

  /** The answers stand at the odd positions. */
  lemma {:induction false} AnswerAt(kvs: seq<Value>, callbacks: Callbacks, j: nat)
    requires AnswerFields(kvs, callbacks) && j < |kvs| && j % 2 == 1
    ensures IsAnswer(callbacks, kvs[j])
    decreases j
  {
    if j > 1 {
      AnswerAt(kvs[2..], callbacks, j - 2);
    }
  }

  lemma PairIsAnswerField(k: string, callbacks: Callbacks)
    requires k in callbacks
    ensures AnswerFields(Pair(k, callbacks), callbacks)
  {
    if callbacks[k].Some? {
      assert Answers(callbacks, k, callbacks[k].value);
    }
  }

  lemma NoAnswerFields(callbacks: Callbacks)
    ensures AnswerFields([], callbacks)
  {
  }

  /** The callbacks' list is made of keys and their answers. */
  lemma {:induction false} ContextHasAnswers(order: seq<string>, callbacks: Callbacks)
    requires forall k :: k in order ==> k in callbacks
    ensures AnswerFields(FromContext(order, callbacks), callbacks)
  {
    hide AnswerFields;
    if order == [] {
      NoAnswerFields(callbacks);
    } else {
      assert forall k :: k in order[1..] ==> k in order;
      ContextHasAnswers(order[1..], callbacks);
      PairIsAnswerField(order[0], callbacks);
      AnswerFieldsConcat(Pair(order[0], callbacks), FromContext(order[1..], callbacks), callbacks);
    }
  }

  lemma DanglingKeyStands(kvs: seq<Value>, added: seq<Value>)
    requires |kvs| % 2 == 1
    ensures IsKeyAt(kvs + added, |kvs| - 1, DanglingKey(kvs))
  {
    hide KeyOf;
  }

  lemma AnswerNeverReads(callbacks: Callbacks, v: Value, n: nat, key: string, from: nat)
    requires from <= n && IsAnswer(callbacks, v)
    requires forall k, w :: Answers(callbacks, k, w) ==> NeverReads(w, key, from)
    ensures KeyOf(v, n) != key
  {
    hide KeyOf;
    var k :| Answers(callbacks, k, v);
  }

  lemma AnswerIsNotKey(kvs: seq<Value>, added: seq<Value>, m: nat, key: string, callbacks: Callbacks)
    requires |kvs| % 2 == 1 && AnswerFields(added, callbacks) && |kvs| <= m < |kvs + added|
    requires forall k, v :: Answers(callbacks, k, v) ==> NeverReads(v, key, |kvs|)
    ensures !IsKeyAt(kvs + added, m, key)
  {
    hide KeyOf, AnswerFields, IsAnswer, NeverReads;
    if m % 2 == 0 {
      AnswerAt(added, callbacks, m - |kvs|);
      AnswerNeverReads(callbacks, (kvs + added)[m], m, key, |kvs|);
    }
  }

  /** No answer reads as the list's dangling key at any position after the list. */
  ghost predicate Unread(kvs: seq<Value>, callbacks: Callbacks)
    requires kvs != []
  {
    forall k, v :: Answers(callbacks, k, v) ==> NeverReads(v, DanglingKey(kvs), |kvs|)
  }

  /**
   * After any odd list, the dangling key takes the key of the first callback that is
   * not nil as its value, if no callback's answer reads as the dangling key.
   */
  lemma OddListTakesFirstKey(kvs: seq<Value>, first: string, order: seq<string>, callbacks: Callbacks)
    requires |kvs| % 2 == 1 && (forall k :: k in order ==> k in callbacks)
    requires first in callbacks && callbacks[first].Some?
    requires [Str(first)] <= FromContext(order, callbacks)
    requires Unread(kvs, callbacks)
    ensures var logged, key := Logged(kvs, order, callbacks), DanglingKey(kvs);
      key in logged && logged[key] == Str(first)
  {
    var added := FromContext(order, callbacks);
    hide KeyOf, Extra, NeverReads, FromContext, AnswerFields, IsKeyAt, DanglingKey;
    var all, key, j := kvs + added, DanglingKey(kvs), |kvs| - 1;
    ContextHasAnswers(order, callbacks);
    forall m | j < m < |all| ensures !IsKeyAt(all, m, key) {
      AnswerIsNotKey(kvs, added, m, key, callbacks);
    }
    DanglingKeyStands(kvs, added);
    assert ValueAfter(all, j) == added[0];
    ExtraLastWins(all, j, key);
  }

  /** So two such callbacks can be told apart by their order. */
  lemma OddListDependsOnOrder(kvs: seq<Value>, k: string, l: string, callbacks: Callbacks)
      returns (p: seq<string>, q: seq<string>)
    requires |kvs| % 2 == 1 && k != l && k in callbacks && l in callbacks && callbacks[k].Some? && callbacks[l].Some?
    requires Unread(kvs, callbacks)
    ensures Enumerates(p, callbacks.Keys) && Enumerates(q, callbacks.Keys)
    ensures Logged(kvs, p, callbacks) != Logged(kvs, q, callbacks)
  {
    p := OrderFrom(callbacks.Keys, k);
    q := OrderFrom(callbacks.Keys, l);
    OddListTakesFirstKey(kvs, k, p, callbacks);
    OddListTakesFirstKey(kvs, l, q, callbacks);
  }

  lemma FromContextLastTwo(first: seq<string>, k: string, l: string, callbacks: Callbacks)
    requires k in callbacks && l in callbacks && (forall m :: m in first ==> m in callbacks)
    ensures FromContext(first + [k, l], callbacks)
         == FromContext(first, callbacks) + (Pair(k, callbacks) + Pair(l, callbacks))
  {
    FromContextConcat(first, [k, l], callbacks);
    assert [k, l] == [k] + [l];
    FromContextConcat([k], [l], callbacks);
    FromContextOne(k, callbacks);
    FromContextOne(l, callbacks);
  }

  lemma LastKeysWin(start: seq<Value>, x: string, a: Value, y: string, b: Value)
    requires |start| % 2 == 1
    ensures var extra, ra, rb := Extra(start + [Str(x), a, Str(y), b]), KeyOf(a, |start| + 1), KeyOf(b, |start| + 3);
      && rb in extra && extra[rb] == MISSING_VALUE
      && (ra != rb ==> ra in extra && extra[ra] == Str(y))
  {
    hide KeyOf, Extra;
    var all, n := start + [Str(x), a, Str(y), b], |start|;
    var ra, rb := KeyOf(a, n + 1), KeyOf(b, n + 3);
    assert IsKeyAt(all, n + 3, rb) && IsKeyAt(all, n + 1, ra);
    ExtraLastWins(all, n + 3, rb);
    if ra != rb {
      assert !IsKeyAt(all, n + 3, ra);
      ExtraLastWins(all, n + 1, ra);
    }
  }

  lemma ThirdLastKeyWins(start: seq<Value>, x: string, a: Value, y: string, b: Value, z: string, c: Value)
    requires |start| % 2 == 1
    requires KeyOf(a, |start| + 1) != KeyOf(b, |start| + 3) && KeyOf(a, |start| + 1) != KeyOf(c, |start| + 5)
    ensures var extra, ra := Extra(start + [Str(x), a, Str(y), b, Str(z), c]), KeyOf(a, |start| + 1);
      ra in extra && extra[ra] == Str(y)
  {
    hide KeyOf, Extra;
    var all, n := start + [Str(x), a, Str(y), b, Str(z), c], |start|;
    var ra := KeyOf(a, n + 1);
    assert IsKeyAt(all, n + 1, ra) && !IsKeyAt(all, n + 3, ra) && !IsKeyAt(all, n + 5, ra);
    ExtraLastWins(all, n + 1, ra);
  }

  /** The last answer takes the marker, and the one before it the last key, unless both read the same. */
  lemma LastTwo(kvs: seq<Value>, first: seq<string>, x: string, y: string, callbacks: Callbacks)
    requires |kvs| % 2 == 1 && x in callbacks && y in callbacks && (forall m :: m in first ==> m in callbacks)
    requires callbacks[x].Some? && callbacks[y].Some?
    ensures var logged, n := Logged(kvs, first + [x, y], callbacks), |kvs| + |FromContext(first, callbacks)|;
      var ra, rb := KeyOf(callbacks[x].value, n + 1), KeyOf(callbacks[y].value, n + 3);
      && rb in logged && logged[rb] == MISSING_VALUE
      && (ra != rb ==> ra in logged && logged[ra] == Str(y))
  {
    hide KeyOf, Extra, FromContext, AnswerFields;
    var a, b := callbacks[x].value, callbacks[y].value;
    var start := kvs + FromContext(first, callbacks);
    ContextHasAnswers(first, callbacks);
    AnswerFieldsAreEven(FromContext(first, callbacks), callbacks);
    FromContextLastTwo(first, x, y, callbacks);
    assert kvs + FromContext(first + [x, y], callbacks) == start + [Str(x), a, Str(y), b];
    LastKeysWin(start, x, a, y, b);
  }

  /** The third-last answer takes the last key but one, unless a later one reads the same. */
  lemma ThirdLast(kvs: seq<Value>, first: seq<string>, x: string, y: string, z: string, callbacks: Callbacks)
    requires |kvs| % 2 == 1 && (forall m :: m in first ==> m in callbacks)
    requires x in callbacks && y in callbacks && z in callbacks
    requires forall m :: m in first + [x, y, z] ==> m in callbacks
    requires callbacks[x].Some? && callbacks[y].Some? && callbacks[z].Some?
    requires var n := |kvs| + |FromContext(first, callbacks)|;
      && KeyOf(callbacks[x].value, n + 1) != KeyOf(callbacks[y].value, n + 3)
      && KeyOf(callbacks[x].value, n + 1) != KeyOf(callbacks[z].value, n + 5)
    ensures var logged, n := Logged(kvs, first + [x, y, z], callbacks), |kvs| + |FromContext(first, callbacks)|;
      var ra := KeyOf(callbacks[x].value, n + 1);
      ra in logged && logged[ra] == Str(y)
  {
    hide KeyOf, Extra, FromContext, AnswerFields;
    var a, b, c := callbacks[x].value, callbacks[y].value, callbacks[z].value;
    var before := FromContext(first, callbacks);
    var start := kvs + before;
    ContextHasAnswers(first, callbacks);
    AnswerFieldsAreEven(before, callbacks);
    FromContextLastTwo(first + [x], y, z, callbacks);
    FromContextConcat(first, [x], callbacks);
    FromContextOne(x, callbacks);
    assert first + [x, y, z] == first + [x] + [y, z];
    assert kvs + FromContext(first + [x, y, z], callbacks) == start + [Str(x), a, Str(y), b, Str(z), c];
    ThirdLastKeyWins(start, x, a, y, b, z, c);
  }

  /** The answers are non-empty strings, so that no index shows when one of them is taken for a key. */
  predicate NamedAnswers(callbacks: Callbacks) {
    forall k :: k in callbacks && callbacks[k].Some? ==> !Positional(callbacks[k].value)
  }

  /** Two last callbacks with different texts for answers can be told apart by their order. */
  lemma LastTwoShow(kvs: seq<Value>, first: seq<string>, x: string, y: string, callbacks: Callbacks)
    requires |kvs| % 2 == 1 && x != y && (forall m :: m in first + [x, y] ==> m in callbacks)
    requires callbacks[x].Some? && callbacks[y].Some? && callbacks[x] != callbacks[y]
    requires !Positional(callbacks[x].value) && !Positional(callbacks[y].value)
    ensures Logged(kvs, first + [x, y], callbacks) != Logged(kvs, first + [y, x], callbacks)
  {
    hide KeyOf, Logged, FromContext;
    var n := |kvs| + |FromContext(first, callbacks)|;
    var a, b := callbacks[x].value.s, callbacks[y].value.s;
    NamedKey(a, n + 1);
    NamedKey(a, n + 3);
    NamedKey(b, n + 1);
    NamedKey(b, n + 3);
    LastTwo(kvs, first, x, y, callbacks);
    LastTwo(kvs, first, y, x, callbacks);
  }

  // ---------------------------------------------------------------- exactly when the order shows

  /** Any two callbacks that are not nil both answer with this text. */
  predicate AllAnswer(callbacks: Callbacks, text: string) {
    forall k, l :: k in callbacks && l in callbacks && k != l && callbacks[k].Some? && callbacks[l].Some? ==>
      callbacks[k].value == Str(text)
  }

  /** What is logged after this list does not depend on the order in which the callbacks are iterated. */
  ghost predicate OrderIndependentFor(kvs: seq<Value>, callbacks: Callbacks) {
    forall p, q :: Enumerates(p, callbacks.Keys) && Enumerates(q, callbacks.Keys) ==>
      Logged(kvs, p, callbacks) == Logged(kvs, q, callbacks)
  }

  lemma {:induction false} NoneContributes(order: seq<string>, callbacks: Callbacks)
    requires forall k :: k in order ==> k in callbacks && callbacks[k].None?
    ensures FromContext(order, callbacks) == []
  {
    if order != [] {
      assert forall k :: k in order[1..] ==> k in order;
      NoneContributes(order[1..], callbacks);
    }
  }

  lemma OnlyOneContributes(order: seq<string>, keys: set<string>, callbacks: Callbacks, k: string)
    requires Enumerates(order, keys) && keys <= callbacks.Keys && k in keys
    requires forall l :: l in keys && l != k ==> callbacks[l].None?
    ensures FromContext(order, callbacks) == Pair(k, callbacks)
  {
    hide FromContext, Pair;
    var before, after := Around(order, keys, k);
    FromContextConcat(before, [k] + after, callbacks);
    FromContextConcat([k], after, callbacks);
    FromContextOne(k, callbacks);
    NoneContributes(before, callbacks);
    NoneContributes(after, callbacks);
  }

  /** These two callbacks are not nil, and all others are. */
  predicate OnlyTwo(callbacks: Callbacks, x: string, y: string) {
    && x in callbacks && y in callbacks && x != y && callbacks[x].Some? && callbacks[y].Some?
    && forall k :: k in callbacks && k != x && k != y ==> callbacks[k].None?
  }

  lemma TwoContribute(order: seq<string>, callbacks: Callbacks, x: string, y: string)
    requires Enumerates(order, callbacks.Keys) && OnlyTwo(callbacks, x, y)
    ensures var kvs := FromContext(order, callbacks);
      kvs == Pair(x, callbacks) + Pair(y, callbacks) || kvs == Pair(y, callbacks) + Pair(x, callbacks)
  {
    hide FromContext, Pair;
    var before, after := Around(order, callbacks.Keys, x);
    FromContextConcat(before, [x] + after, callbacks);
    FromContextConcat([x], after, callbacks);
    FromContextOne(x, callbacks);
    assert y in SetOf(before) + {x} + SetOf(after);
    if y in SetOf(before) {
      OnlyOneContributes(before, SetOf(before), callbacks, y);
      assert forall k :: k in after ==> k in SetOf(after);
      NoneContributes(after, callbacks);
    } else {
      OnlyOneContributes(after, SetOf(after), callbacks, y);
      assert forall k :: k in before ==> k in SetOf(before);
      NoneContributes(before, callbacks);
    }
  }

  /** Fields that all have one key leave the last one. */
  lemma OneKeyMerges(fields: seq<Field>, key: string)
    requires fields != [] && forall i :: 0 <= i < |fields| ==> fields[i].0 == key
    ensures Merge(fields) == map[key := fields[|fields| - 1].1]
  {
    MergeLastWins(fields, key);
    assert LastAt(fields, |fields| - 1, key);
    forall k | k in Merge(fields) ensures k == key {
      MergeLastWins(fields, k);
    }
  }

  /** An odd list in which every key reads the same leaves the marker under it. */
  lemma OneKeyList(kvs: seq<Value>, base: nat, key: string)
    requires |kvs| % 2 == 1 && forall j :: 0 <= j < |kvs| && j % 2 == 0 ==> KeyOf(kvs[j], base + j) == key
    ensures Merge(Fields(kvs, base)) == map[key := MISSING_VALUE]
  {
    hide KeyOf;
    var fields := Fields(kvs, base);
    FieldsLength(kvs, base);
    forall i | 0 <= i < |fields| ensures fields[i].0 == key {
      FieldAt(kvs, base, i);
    }
    FieldAt(kvs, base, |fields| - 1);
    OneKeyMerges(fields, key);
  }

  lemma EqualAnswersRead(last: Value, n: nat, order: seq<string>, callbacks: Callbacks)
    requires forall k :: k in order ==> k in callbacks
    requires forall k, v :: Answers(callbacks, k, v) ==> v == Str(KeyOf(last, n))
    ensures Merge(Fields([last] + FromContext(order, callbacks), n)) == map[KeyOf(last, n) := MISSING_VALUE]
  {
    hide KeyOf, Merge, Fields, FromContext;
    var added, key := FromContext(order, callbacks), KeyOf(last, n);
    var tail := [last] + added;
    ContextHasAnswers(order, callbacks);
    AnswerFieldsAreEven(added, callbacks);
    KeyShape(last, n);
    forall j | 0 <= j < |tail| && j % 2 == 0 ensures KeyOf(tail[j], n + j) == key {
      if j > 0 {
        AnswerAt(added, callbacks, j - 1);
        NamedKey(key, n + j);
      }
    }
    OneKeyList(tail, n, key);
  }

  /** If all answers read as the dangling key, only the marker is left under it. */
  lemma EqualAnswersLog(kvs: seq<Value>, order: seq<string>, callbacks: Callbacks)
    requires |kvs| % 2 == 1 && (forall k :: k in order ==> k in callbacks)
    requires forall k, v :: Answers(callbacks, k, v) ==> v == Str(DanglingKey(kvs))
    ensures Logged(kvs, order, callbacks) == Extra(kvs[..|kvs| - 1]) + map[DanglingKey(kvs) := MISSING_VALUE]
  {
    hide KeyOf, Merge, Fields, FromContext;
    var n, added := |kvs| - 1, FromContext(order, callbacks);
    EqualAnswersRead(kvs[n], n, order, callbacks);
    assert kvs + added == kvs[..n] + ([kvs[n]] + added);
    FieldsConcat(kvs[..n], [kvs[n]] + added, 0);
    MergeConcat(Fields(kvs[..n], 0), Fields([kvs[n]] + added, n));
  }

  lemma OddListIndependent(kvs: seq<Value>, callbacks: Callbacks, p: seq<string>, q: seq<string>)
    requires |kvs| % 2 == 1 && AllAnswer(callbacks, DanglingKey(kvs))
    requires Enumerates(p, callbacks.Keys) && Enumerates(q, callbacks.Keys)
    ensures Logged(kvs, p, callbacks) == Logged(kvs, q, callbacks)
  {
    hide FromContext, Extra;
    if k, l :| k in callbacks && l in callbacks && k != l && callbacks[k].Some? && callbacks[l].Some? {
      forall m, v | Answers(callbacks, m, v) ensures v == Str(DanglingKey(kvs)) {
        assert m != k || m != l;
      }
      EqualAnswersLog(kvs, p, callbacks);
      EqualAnswersLog(kvs, q, callbacks);
    } else if k :| k in callbacks && callbacks[k].Some? {
      OnlyOneContributes(p, callbacks.Keys, callbacks, k);
      OnlyOneContributes(q, callbacks.Keys, callbacks, k);
    } else {
      NoneContributes(p, callbacks);
      NoneContributes(q, callbacks);
    }
  }

  lemma OddListDependent(kvs: seq<Value>, callbacks: Callbacks) returns (p: seq<string>, q: seq<string>)
    requires |kvs| % 2 == 1 && NamedAnswers(callbacks) && !AllAnswer(callbacks, DanglingKey(kvs))
    ensures Enumerates(p, callbacks.Keys) && Enumerates(q, callbacks.Keys)
    ensures Logged(kvs, p, callbacks) != Logged(kvs, q, callbacks)
  {
    var key := DanglingKey(kvs);
    var k, l :| k in callbacks && l in callbacks && k != l && callbacks[k].Some? && callbacks[l].Some? &&
      callbacks[k].value != Str(key);
    if m :| Answers(callbacks, m, Str(key)) {
      var first := OrdersUpTo(callbacks.Keys, k, m);
      p, q := first + [k, m], first + [m, k];
      LastTwoShow(kvs, first, k, m, callbacks);
    } else {
      forall m, v | Answers(callbacks, m, v) ensures NeverReads(v, key, |kvs|) {
        assert v == Str(v.s);
      }
      p, q := OddListDependsOnOrder(kvs, k, l, callbacks);
    }
  }

  // ---------------------------------------------------------------- two callbacks

  lemma MergeThree(first: Field, second: Field, third: Field)
    ensures Merge([first, second, third]) == map[first.0 := first.1][second.0 := second.1][third.0 := third.1]
  {
    hide Merge;
    assert [first, second, third] == [first] + [second] + [third];
    MergeConcat([first] + [second], [third]);
    MergeConcat([first], [second]);
    OneKeyMerges([first], first.0);
    OneKeyMerges([second], second.0);
    OneKeyMerges([third], third.0);
  }

  lemma ThreeFields(k: Value, x: Value, a: Value, y: Value, b: Value, base: nat)
    ensures Fields([k, x, a, y, b], base)
         == [(KeyOf(k, base), x), (KeyOf(a, base + 2), y), (KeyOf(b, base + 4), MISSING_VALUE)]
  {
    hide KeyOf;
    var kvs := [k, x, a, y, b];
    assert kvs[2..] == [a, y, b] && [a, y, b][2..] == [b];
    assert Fields([b], base + 4) == [(KeyOf(b, base + 4), MISSING_VALUE)];
    assert Fields([a, y, b], base + 2) == [(KeyOf(a, base + 2), y)] + Fields([b], base + 4);
    assert Fields(kvs, base) == [(KeyOf(k, base), x)] + Fields([a, y, b], base + 2);
  }

  /** What two callbacks, `x` first, do to the fields of a list that ends in a key at position `n - 1`. */
  function ThenTwo(fields: map<string, Value>, key: string, n: nat, x: string, a: Value, y: string, b: Value)
    : map<string, Value>
  {
    fields[key := Str(x)][KeyOf(a, n + 1) := Str(y)][KeyOf(b, n + 3) := MISSING_VALUE]
  }

  lemma TwoLogged(kvs: seq<Value>, x: string, a: Value, y: string, b: Value)
    requires |kvs| % 2 == 1
    ensures Extra(kvs + [Str(x), a, Str(y), b])
         == ThenTwo(Extra(kvs[..|kvs| - 1]), DanglingKey(kvs), |kvs|, x, a, y, b)
  {
    hide KeyOf, Merge, Fields;
    var n := |kvs| - 1;
    var tail := [kvs[n], Str(x), a, Str(y), b];
    assert kvs + [Str(x), a, Str(y), b] == kvs[..n] + tail;
    FieldsConcat(kvs[..n], tail, 0);
    MergeConcat(Fields(kvs[..n], 0), Fields(tail, n));
    ThreeFields(kvs[n], Str(x), a, Str(y), b, n);
    MergeThree((KeyOf(kvs[n], n), Str(x)), (KeyOf(a, n + 2), Str(y)), (KeyOf(b, n + 4), MISSING_VALUE));
  }

  /** The three assignments that two callbacks make give the same fields in both orders. */
  predicate TwoAgree(kvs: seq<Value>, callbacks: Callbacks, x: string, y: string)
    requires kvs != [] && OnlyTwo(callbacks, x, y)
  {
    var fields, key, a, b := Extra(kvs[..|kvs| - 1]), DanglingKey(kvs), callbacks[x].value, callbacks[y].value;
    ThenTwo(fields, key, |kvs|, x, a, y, b) == ThenTwo(fields, key, |kvs|, y, b, x, a)
  }

  lemma OneOfTwoLogged(kvs: seq<Value>, callbacks: Callbacks, x: string, y: string, order: seq<string>)
    requires |kvs| % 2 == 1 && OnlyTwo(callbacks, x, y)
    requires forall k :: k in order ==> k in callbacks
    requires FromContext(order, callbacks) == Pair(x, callbacks) + Pair(y, callbacks)
    ensures Logged(kvs, order, callbacks) == ThenTwo(Extra(kvs[..|kvs| - 1]), DanglingKey(kvs), |kvs|,
                                                     x, callbacks[x].value, y, callbacks[y].value)
  {
    hide Extra, FromContext, ThenTwo;
    var a, b := callbacks[x].value, callbacks[y].value;
    assert Pair(x, callbacks) + Pair(y, callbacks) == [Str(x), a, Str(y), b];
    TwoLogged(kvs, x, a, y, b);
  }

  lemma TwoInOrder(keys: set<string>, callbacks: Callbacks, x: string, y: string) returns (order: seq<string>)
    requires keys == callbacks.Keys && OnlyTwo(callbacks, x, y)
    ensures Enumerates(order, keys) && FromContext(order, callbacks) == Pair(x, callbacks) + Pair(y, callbacks)
  {
    hide FromContext, Pair;
    var first := OrdersUpTo(keys, x, y);
    order := first + [x, y];
    assert forall k :: k in first ==> k in order;
    FromContextLastTwo(first, x, y, callbacks);
    forall k | k in first ensures callbacks[k].None? {
      var i :| 0 <= i < |first| && first[i] == k;
      assert order[i] == k && order[|first|] == x && order[|first| + 1] == y;
    }
    NoneContributes(first, callbacks);
  }

  /** With two callbacks that are not nil, the order does not show exactly when their assignments agree. */
  lemma TwoAgreeExactly(kvs: seq<Value>, callbacks: Callbacks, x: string, y: string)
    requires |kvs| % 2 == 1 && OnlyTwo(callbacks, x, y)
    ensures OrderIndependentFor(kvs, callbacks) <==> TwoAgree(kvs, callbacks, x, y)
  {
    hide FromContext, Extra, ThenTwo, Pair, Logged;
    assert OnlyTwo(callbacks, y, x);
    if TwoAgree(kvs, callbacks, x, y) {
      forall p | Enumerates(p, callbacks.Keys)
        ensures Logged(kvs, p, callbacks) == ThenTwo(Extra(kvs[..|kvs| - 1]), DanglingKey(kvs), |kvs|,
                                                     x, callbacks[x].value, y, callbacks[y].value)
      {
        TwoContribute(p, callbacks, x, y);
        if FromContext(p, callbacks) == Pair(x, callbacks) + Pair(y, callbacks) {
          OneOfTwoLogged(kvs, callbacks, x, y, p);
        } else {
          OneOfTwoLogged(kvs, callbacks, y, x, p);
        }
      }
    } else {
      var p := TwoInOrder(callbacks.Keys, callbacks, x, y);
      var q := TwoInOrder(callbacks.Keys, callbacks, y, x);
      OneOfTwoLogged(kvs, callbacks, x, y, p);
      OneOfTwoLogged(kvs, callbacks, y, x, q);
    }
  }

  // ---------------------------------------------------------------- three callbacks or more

  function NonNil(keys: set<string>, callbacks: Callbacks): set<string>
    requires keys <= callbacks.Keys
  {
    set k | k in keys && callbacks[k].Some?
  }

  lemma NonNilWithout(keys: set<string>, callbacks: Callbacks, k: string)
    requires keys <= callbacks.Keys && k in keys
    ensures |NonNil(keys, callbacks)| == |NonNil(keys - {k}, callbacks)| + if callbacks[k].Some? then 1 else 0
  {
    var rest := NonNil(keys - {k}, callbacks);
    assert NonNil(keys, callbacks) == if callbacks[k].Some? then rest + {k} else rest;
  }

  /** Every order gives a list of the same length. */
  lemma {:induction false} ContextLength(order: seq<string>, keys: set<string>, callbacks: Callbacks)
    requires Enumerates(order, keys) && keys <= callbacks.Keys
    ensures |FromContext(order, callbacks)| == 2 * |NonNil(keys, callbacks)|
    decreases |order|
  {
    hide Enumerates;
    if order == [] {
      EnumeratesAll(order, keys);
      assert NonNil(keys, callbacks) == {};
    } else {
      var k := order[0];
      EnumeratesRest(order, keys);
      EnumeratedKeys(order, keys);
      ContextLength(order[1..], keys - {k}, callbacks);
      NonNilWithout(keys, callbacks, k);
    }
  }

  /** Every order logs this. */
  ghost predicate AlwaysLogs(kvs: seq<Value>, callbacks: Callbacks, logged: map<string, Value>) {
    forall p :: Enumerates(p, callbacks.Keys) ==> Logged(kvs, p, callbacks) == logged
  }

  /** The position of the last answer, whatever the order. */
  function LastPosition(kvs: seq<Value>, callbacks: Callbacks): int {
    |kvs| + 2 * |NonNil(callbacks.Keys, callbacks)| - 1
  }

  lemma {:induction false} AllContribute(order: seq<string>, callbacks: Callbacks)
    requires forall k :: k in order ==> k in callbacks && callbacks[k].Some?
    ensures |FromContext(order, callbacks)| == 2 * |order|
  {
    if order != [] {
      assert forall k :: k in order[1..] ==> k in order;
      AllContribute(order[1..], callbacks);
    }
  }

  lemma LengthBefore(first: seq<string>, last: seq<string>, callbacks: Callbacks)
    requires Enumerates(first + last, callbacks.Keys) && (forall k :: k in last ==> callbacks[k].Some?)
    requires (forall k :: k in first + last ==> k in callbacks)
    ensures |FromContext(first, callbacks)| == 2 * |NonNil(callbacks.Keys, callbacks)| - 2 * |last|
  {
    hide FromContext;
    ContextLength(first + last, callbacks.Keys, callbacks);
    FromContextConcat(first, last, callbacks);
    AllContribute(last, callbacks);
  }

  /** What two callbacks, taken last, say about fields that every order logs. */
  lemma LastTwoLogged(kvs: seq<Value>, callbacks: Callbacks, logged: map<string, Value>, x: string, y: string)
    requires |kvs| % 2 == 1 && AlwaysLogs(kvs, callbacks, logged) && x != y
    requires x in callbacks && y in callbacks && callbacks[x].Some? && callbacks[y].Some?
    ensures var t := LastPosition(kvs, callbacks);
      t >= |kvs| + 3 &&
      var ra, rb := KeyOf(callbacks[x].value, t - 2), KeyOf(callbacks[y].value, t);
      && rb in logged && logged[rb] == MISSING_VALUE
      && (ra != rb ==> ra in logged && logged[ra] == Str(y))
  {
    hide KeyOf, FromContext, Logged;
    var first := OrdersUpTo(callbacks.Keys, x, y);
    assert forall k :: k in first ==> k in first + [x, y];
    LengthBefore(first, [x, y], callbacks);
    LastTwo(kvs, first, x, y, callbacks);
  }

  /** Likewise three. */
  lemma LastThreeLogged(kvs: seq<Value>, callbacks: Callbacks, logged: map<string, Value>,
                        x: string, y: string, z: string)
    requires |kvs| % 2 == 1 && AlwaysLogs(kvs, callbacks, logged) && x != y && x != z && y != z
    requires x in callbacks && y in callbacks && z in callbacks
    requires callbacks[x].Some? && callbacks[y].Some? && callbacks[z].Some?
    ensures var t := LastPosition(kvs, callbacks);
      t >= |kvs| + 5 &&
      var ra := KeyOf(callbacks[x].value, t - 4);
      ra != KeyOf(callbacks[y].value, t - 2) && ra != KeyOf(callbacks[z].value, t) ==>
        ra in logged && logged[ra] == Str(y)
  {
    hide KeyOf, FromContext, Logged;
    var first := OrdersUpToThree(callbacks.Keys, x, y, z);
    assert forall k :: k in first ==> k in first + [x, y, z];
    LengthBefore(first, [x, y, z], callbacks);
    var n := |kvs| + |FromContext(first, callbacks)|;
    if KeyOf(callbacks[x].value, n + 1) != KeyOf(callbacks[y].value, n + 3) &&
       KeyOf(callbacks[x].value, n + 1) != KeyOf(callbacks[z].value, n + 5)
    {
      ThirdLast(kvs, first, x, y, z, callbacks);
    }
  }

  /** An answer that reads as a positional one's name at another position is a text, and reads the same everywhere. */
  lemma ImitatorIsText(v: Value, m: nat, w: Value, n: nat)
    requires Positional(v) && KeyOf(v, m) == KeyOf(w, n) && m != n
    ensures !Positional(w) && forall i: nat :: KeyOf(w, i) == KeyOf(v, m)
  {
    hide KeyOf;
    if Positional(w) {
      PositionsShow(v, m, w, n);
    } else {
      NamedKey(w.s, n);
      forall i: nat ensures KeyOf(w, i) == KeyOf(v, m) { NamedKey(w.s, i); }
    }
  }

  /** With a third callback, no text can imitate the name of a positional answer so that no order shows. */
  lemma ImitationShows(kvs: seq<Value>, callbacks: Callbacks, logged: map<string, Value>,
                       x: string, y: string, z: string)
    requires |kvs| % 2 == 1 && x != y && x != z && y != z
    requires x in callbacks && y in callbacks && z in callbacks
    requires callbacks[x].Some? && callbacks[y].Some? && callbacks[z].Some? && Positional(callbacks[x].value)
    requires var t := LastPosition(kvs, callbacks);
      t >= 2 && KeyOf(callbacks[x].value, t - 2) == KeyOf(callbacks[y].value, t)
    ensures !AlwaysLogs(kvs, callbacks, logged)
  {
    hide KeyOf, AlwaysLogs, LastPosition;
    var t, a, b, c := LastPosition(kvs, callbacks), callbacks[x].value, callbacks[y].value, callbacks[z].value;
    ImitatorIsText(a, t - 2, b, t);
    PositionsShow(a, t - 2, a, t);
    if AlwaysLogs(kvs, callbacks, logged) {
      LastTwoLogged(kvs, callbacks, logged, y, x);
      LastTwoLogged(kvs, callbacks, logged, x, y);
      LastTwoLogged(kvs, callbacks, logged, y, z);
      assert KeyOf(c, t) == KeyOf(b, t);
      ImitatorIsText(a, t - 2, c, t);
      LastThreeLogged(kvs, callbacks, logged, x, y, z);
      LastThreeLogged(kvs, callbacks, logged, x, z, y);
      PositionsShow(a, t - 4, a, t - 2);
    }
  }

  /** So among three callbacks a positional answer always lets the order show. */
  lemma PositionalShows(kvs: seq<Value>, callbacks: Callbacks, x: string, y: string, z: string)
    requires |kvs| % 2 == 1 && x != y && x != z && y != z
    requires x in callbacks && y in callbacks && z in callbacks
    requires callbacks[x].Some? && callbacks[y].Some? && callbacks[z].Some? && Positional(callbacks[x].value)
    ensures !OrderIndependentFor(kvs, callbacks)
  {
    hide KeyOf, LastPosition, Logged;
    if OrderIndependentFor(kvs, callbacks) {
      var logged := Logged(kvs, SomeOrder(callbacks.Keys), callbacks);
      var t := LastPosition(kvs, callbacks);
      LastTwoLogged(kvs, callbacks, logged, x, y);
      LastTwoLogged(kvs, callbacks, logged, x, z);
      if KeyOf(callbacks[x].value, t - 2) == KeyOf(callbacks[y].value, t) {
        ImitationShows(kvs, callbacks, logged, x, y, z);
      } else {
        ImitationShows(kvs, callbacks, logged, x, z, y);
      }
    }
  }

  lemma ThreeDepend(kvs: seq<Value>, callbacks: Callbacks, k: string, l: string, m: string)
    requires |kvs| % 2 == 1 && k != l && k != m && l != m
    requires k in callbacks && l in callbacks && m in callbacks
    requires callbacks[k].Some? && callbacks[l].Some? && callbacks[m].Some?
    requires !AllAnswer(callbacks, DanglingKey(kvs))
    ensures !OrderIndependentFor(kvs, callbacks)
  {
    hide KeyOf, Logged, AllAnswer;
    if NamedAnswers(callbacks) {
      var p, q := OddListDependent(kvs, callbacks);
    } else {
      var x :| x in callbacks && callbacks[x].Some? && Positional(callbacks[x].value);
      if x == k {
        PositionalShows(kvs, callbacks, x, l, m);
      } else if x == l {
        PositionalShows(kvs, callbacks, x, k, m);
      } else {
        PositionalShows(kvs, callbacks, x, k, l);
      }
    }
  }

  // ---------------------------------------------------------------- main theorems

  lemma OddListExactly(kvs: seq<Value>, callbacks: Callbacks)
    requires |kvs| % 2 == 1 && !AllAnswer(callbacks, DanglingKey(kvs))
    ensures OrderIndependentFor(kvs, callbacks) <==>
      exists x, y :: OnlyTwo(callbacks, x, y) && TwoAgree(kvs, callbacks, x, y)
  {
    hide OrderIndependentFor, TwoAgree, KeyOf;
    if x, y :| OnlyTwo(callbacks, x, y) && TwoAgree(kvs, callbacks, x, y) {
      TwoAgreeExactly(kvs, callbacks, x, y);
    } else {
      var k, l :| k in callbacks && l in callbacks && k != l && callbacks[k].Some? && callbacks[l].Some?;
      if OnlyTwo(callbacks, k, l) {
        TwoAgreeExactly(kvs, callbacks, k, l);
      } else {
        var m :| m in callbacks && m != k && m != l && callbacks[m].Some?;
        ThreeDepend(kvs, callbacks, k, l, m);
      }
    }
  }

  /**
   * List by list, for any answers: what is logged is independent of the map's iteration
   * order exactly when the caller's list is even, or any two callbacks that are not nil
   * both answer with the list's dangling key, or exactly two are not nil and the three
   * assignments they make agree in both orders.
   */
  lemma ListOrderIndependentExactly(kvs: seq<Value>, callbacks: Callbacks)
    requires |kvs| % 2 == 0 ==> "" !in callbacks
    ensures OrderIndependentFor(kvs, callbacks) <==>
      || |kvs| % 2 == 0
      || AllAnswer(callbacks, DanglingKey(kvs))
      || exists x, y :: OnlyTwo(callbacks, x, y) && TwoAgree(kvs, callbacks, x, y)
  {
    hide Logged, KeyOf, TwoAgree;
    if |kvs| % 2 == 0 {
      forall p, q | Enumerates(p, callbacks.Keys) && Enumerates(q, callbacks.Keys)
        ensures Logged(kvs, p, callbacks) == Logged(kvs, q, callbacks)
      {
        EvenListLogs(kvs, p, callbacks);
        EvenListLogs(kvs, q, callbacks);
      }
    } else if AllAnswer(callbacks, DanglingKey(kvs)) {
      forall p, q | Enumerates(p, callbacks.Keys) && Enumerates(q, callbacks.Keys)
        ensures Logged(kvs, p, callbacks) == Logged(kvs, q, callbacks)
      {
        OddListIndependent(kvs, callbacks, p, q);
      }
    } else {
      OddListExactly(kvs, callbacks);
    }
  }

  /** No callback with a positional answer is registered under the marker's text or answers with the dangling key. */
  ghost predicate Unimitated(kvs: seq<Value>, callbacks: Callbacks)
    requires kvs != []
  {
    forall k, v :: Answers(callbacks, k, v) && Positional(v) ==>
      Str(k) != MISSING_VALUE && NeverReads(v, DanglingKey(kvs), |kvs|)
  }

  /** Either the answer is the text of the dangling key, or it does not read as it in either position. */
  lemma ReadsAsKey(kvs: seq<Value>, callbacks: Callbacks, x: string, a: Value)
    requires kvs != [] && Answers(callbacks, x, a) && Unimitated(kvs, callbacks)
    ensures var key, n := DanglingKey(kvs), |kvs|;
      if a == Str(key) then KeyOf(a, n + 1) == KeyOf(a, n + 3) == key
      else KeyOf(a, n + 1) != key && KeyOf(a, n + 3) != key
  {
    hide KeyOf;
    KeyShape(kvs[|kvs| - 1], |kvs| - 1);
    if !Positional(a) {
      NamedKey(a.s, |kvs| + 1);
      NamedKey(a.s, |kvs| + 3);
    }
  }

  /** If neither answer reads as the key, the two orders differ. */
  lemma NoneReads(fields: map<string, Value>, key: string, n: nat, x: string, a: Value, y: string, b: Value)
    requires x != y && KeyOf(a, n + 1) != key && KeyOf(a, n + 3) != key
    requires KeyOf(b, n + 1) != key && KeyOf(b, n + 3) != key
    ensures ThenTwo(fields, key, n, x, a, y, b) != ThenTwo(fields, key, n, y, b, x, a)
  {
    hide KeyOf;
    assert ThenTwo(fields, key, n, x, a, y, b)[key] == Str(x);
    assert ThenTwo(fields, key, n, y, b, x, a)[key] == Str(y);
  }

  /** If only `y` answers with the key, the two orders differ. */
  lemma OneReads(fields: map<string, Value>, key: string, n: nat, x: string, a: Value, y: string, b: Value)
    requires x != y && KeyOf(b, n + 1) == KeyOf(b, n + 3) == key
    requires KeyOf(a, n + 1) != key && KeyOf(a, n + 3) != key
    requires Positional(a) ==> Str(x) != MISSING_VALUE
    ensures ThenTwo(fields, key, n, x, a, y, b) != ThenTwo(fields, key, n, y, b, x, a)
  {
    var f, g := ThenTwo(fields, key, n, x, a, y, b), ThenTwo(fields, key, n, y, b, x, a);
    hide KeyOf;
    assert f[key] == MISSING_VALUE && g[key] == Str(x);
    if !Positional(a) {
      NamedKey(a.s, n + 1);
      NamedKey(a.s, n + 3);
      assert f[a.s] == Str(y) && g[a.s] == MISSING_VALUE;
    }
  }

  /** Then two callbacks agree only if both answer with the dangling key. */
  lemma TwoAgreeUnimitated(kvs: seq<Value>, callbacks: Callbacks, x: string, y: string)
    requires |kvs| % 2 == 1 && OnlyTwo(callbacks, x, y) && Unimitated(kvs, callbacks)
    requires TwoAgree(kvs, callbacks, x, y)
    ensures callbacks[x].value == callbacks[y].value == Str(DanglingKey(kvs))
  {
    hide KeyOf, Extra, NeverReads;
    var key, n, a, b := DanglingKey(kvs), |kvs|, callbacks[x].value, callbacks[y].value;
    ReadsAsKey(kvs, callbacks, x, a);
    ReadsAsKey(kvs, callbacks, y, b);
    assert Answers(callbacks, x, a) && Answers(callbacks, y, b);
    if a == Str(key) && b != Str(key) {
      OneReads(Extra(kvs[..n - 1]), key, n, y, b, x, a);
    } else if b == Str(key) && a != Str(key) {
      OneReads(Extra(kvs[..n - 1]), key, n, x, a, y, b);
    } else if a != Str(key) {
      NoneReads(Extra(kvs[..n - 1]), key, n, x, a, y, b);
    }
  }

  /**
   * When no positional answer is imitated, as when all answers are non-empty strings,
   * what is left of the condition is that the list is even or any two callbacks that
   * are not nil both answer with the list's dangling key.
   */
  lemma UnimitatedOrderIndependentExactly(kvs: seq<Value>, callbacks: Callbacks)
    requires if |kvs| % 2 == 0 then "" !in callbacks else Unimitated(kvs, callbacks)
    ensures OrderIndependentFor(kvs, callbacks) <==> |kvs| % 2 == 0 || AllAnswer(callbacks, DanglingKey(kvs))
  {
    hide OrderIndependentFor, TwoAgree, Unimitated;
    ListOrderIndependentExactly(kvs, callbacks);
    if |kvs| % 2 == 1 {
      if x, y :| OnlyTwo(callbacks, x, y) && TwoAgree(kvs, callbacks, x, y) {
        TwoAgreeUnimitated(kvs, callbacks, x, y);
        assert AllAnswer(callbacks, DanglingKey(kvs));
      }
    }
  }

  // An answer that is not a string becomes a key that shows its position, which literal keys can imitate.
  const IMITATED := "(NOT_A_STRING[2])"
  const IMITATING := "(NOT_A_STRING[4])"

  /** Two callbacks with different answers, one of them registered under the text of the marker. */
  const IMITATION: Callbacks := map["(MISSING)" := Some(Other(0)), "b" := Some(Str(IMITATED))]

  lemma Positions()
    ensures KeyOf(Other(0), 2) == IMITATED && KeyOf(Other(0), 4) == IMITATING
  {
  }

  /** So two callbacks can agree without answering alike: here the answers differ, and yet both orders log the same. */
  lemma ImitatedPositionsHideTheOrder()
    ensures var kvs := [Str(IMITATING)];
      !AllAnswer(IMITATION, DanglingKey(kvs)) && OrderIndependentFor(kvs, IMITATION)
  {
    hide KeyOf, OrderIndependentFor, Extra;
    var kvs, m, b := [Str(IMITATING)], "(MISSING)", "b";
    Positions();
    NamedKey(IMITATING, 0);
    NamedKey(IMITATED, 2);
    NamedKey(IMITATED, 4);
    assert IMITATION[m] != IMITATION[b] && OnlyTwo(IMITATION, m, b);
    assert TwoAgree(kvs, IMITATION, m, b);
    TwoAgreeExactly(kvs, IMITATION, m, b);
  }

  /** Over all lists of a length and all answers under these keys. */
  ghost predicate OrderIndependent(n: nat, keys: set<string>) {
    forall kvs, callbacks: Callbacks :: |kvs| == n && callbacks.Keys == keys ==> OrderIndependentFor(kvs, callbacks)
  }

  /**
   * With two or more callbacks under non-empty keys, all lists of a length are logged
   * independently of the order, whatever the answers, exactly when the length is even.
   */
  lemma OrderIndependentExactly(n: nat, keys: set<string>, k1: string, k2: string)
    requires "" !in keys && k1 in keys && k2 in keys && k1 != k2
    ensures OrderIndependent(n, keys) <==> n % 2 == 0
  {
    if n % 2 == 0 {
      forall kvs, callbacks: Callbacks | |kvs| == n && callbacks.Keys == keys
        ensures OrderIndependentFor(kvs, callbacks)
      {
        UnimitatedOrderIndependentExactly(kvs, callbacks);
      }
    } else {
      var kvs := seq(n, _ => Str("x"));
      var callbacks: Callbacks := map k | k in keys :: Some(Str("y"));
      UnimitatedOrderIndependentExactly(kvs, callbacks);
      NamedKey("x", n - 1);
      assert DanglingKey(kvs) == "x" && callbacks[k1] == callbacks[k2] == Some(Str("y"));
      assert !AllAnswer(callbacks, DanglingKey(kvs));
      assert !OrderIndependentFor(kvs, callbacks);
    }
  }
}
