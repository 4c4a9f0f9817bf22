/** The operations of Go's `strings` package that the modelled code uses, on character sequences. */
module Strings {
  import opened Seqs

  predicate HasPrefix(s: string, p: string) { p <= s }

  predicate HasSuffix(s: string, p: string) { |p| <= |s| && s[|s| - |p|..] == p }

  /** `sub` occurs in `s` at position `i`. */
  predicate At(s: string, sub: string, i: int) {
    0 <= i <= |s| - |sub| && s[i..i + |sub|] == sub
  }

  predicate Contains(s: string, sub: string) {
    exists i :: 0 <= i <= |s| && At(s, sub, i)
  }

  lemma AtChar(s: string, sub: string, i: int, k: nat)
    requires k < |sub|
    ensures At(s, sub, i) ==> s[i + k] == sub[k]
  {
    if At(s, sub, i) {
      assert s[i..i + |sub|][k] == s[i + k];
    }
  }

  lemma ContainsExactly(s: string, sub: string)
    ensures Contains(s, sub) <==> exists before, after :: s == before + sub + after
  {
    if Contains(s, sub) {
      var i :| 0 <= i <= |s| && At(s, sub, i);
      assert s == s[..i] + sub + s[i + |sub|..];
    }
    if before, after :| s == before + sub + after {
      assert s[|before|..|before| + |sub|] == sub;
      assert At(s, sub, |before|);
    }
  }

  lemma AtDrop(s: string, k: nat, sub: string, i: nat)
    requires k <= |s|
    ensures At(s[k..], sub, i) <==> At(s, sub, i + k)
  {
    if i <= |s[k..]| - |sub| {
      assert s[k..][i..i + |sub|] == s[i + k..i + k + |sub|];
    }
  }

  lemma ContainsTail(s: string, sub: string)
    requires s != "" && sub != ""
    ensures Contains(s, sub) <==> sub <= s || Contains(s[1..], sub)
  {
    assert At(s, sub, 0) <==> sub <= s;
    if Contains(s, sub) && !(sub <= s) {
      var i :| 0 <= i <= |s| && At(s, sub, i);
      AtDrop(s, 1, sub, i - 1);
      assert At(s[1..], sub, i - 1);
    }
    if Contains(s[1..], sub) {
      var i :| 0 <= i <= |s[1..]| && At(s[1..], sub, i);
      AtDrop(s, 1, sub, i);
    }
  }

  // ---------------------------------------------------------------- Split and Join

  function Split(s: string, sep: char): (parts: seq<string>)
    ensures parts != []
  {
    if s == "" then [""]
    else
      var rest := Split(s[1..], sep);
      if s[0] == sep then [""] + rest else [[s[0]] + rest[0]] + rest[1..]
  }

  function Join(parts: seq<string>, sep: char): string
    requires parts != []
  {
    if |parts| == 1 then parts[0] else parts[0] + [sep] + Join(parts[1..], sep)
  }

  lemma {:induction false} JoinSplit(s: string, sep: char)
    ensures Join(Split(s, sep), sep) == s
  {
    if s != "" {
      JoinSplit(s[1..], sep);
      var rest := Split(s[1..], sep);
      var parts := Split(s, sep);
      if s[0] == sep {
        assert parts[1..] == rest;
      } else if |rest| > 1 {
        assert parts[1..] == rest[1..];
        assert [s[0]] + rest[0] + [sep] + Join(rest[1..], sep) == [s[0]] + (rest[0] + [sep] + Join(rest[1..], sep));
      }
    }
  }

  lemma {:induction false} SplitPartsLackSeparator(s: string, sep: char)
    ensures forall p :: p in Split(s, sep) ==> sep !in p
  {
    if s != "" {
      SplitPartsLackSeparator(s[1..], sep);
      var rest := Split(s[1..], sep);
      assert sep !in rest[0];
      forall p | p in Split(s, sep) ensures sep !in p {
        assert p == "" || p in rest || p == [s[0]] + rest[0];
      }
    }
  }

  lemma {:induction false} SplitPrefix(p: string, s: string, sep: char)
    requires sep !in p
    ensures Split(p + s, sep) == [p + Split(s, sep)[0]] + Split(s, sep)[1..]
  {
    if p == "" {
      assert p + s == s && p + Split(s, sep)[0] == Split(s, sep)[0];
    } else {
      assert (p + s)[1..] == p[1..] + s;
      SplitPrefix(p[1..], s, sep);
      assert [p[0]] + (p[1..] + Split(s, sep)[0]) == p + Split(s, sep)[0];
    }
  }

  lemma {:induction false} SplitJoin(parts: seq<string>, sep: char)
    requires parts != [] && forall p :: p in parts ==> sep !in p
    ensures Split(Join(parts, sep), sep) == parts
  {
    var p, rest := parts[0], parts[1..];
    if rest == [] {
      SplitPrefix(p, "", sep);
      assert p + "" == p;
    } else {
      SplitJoin(rest, sep);
      var s := [sep] + Join(rest, sep);
      assert s[1..] == Join(rest, sep);
      SplitPrefix(p, s, sep);
      assert p + s == p + [sep] + Join(rest, sep);
      assert p + "" == p;
    }
  }

  lemma {:induction false} SplitHeadIsPrefix(s: string, sep: char)
    ensures Split(s, sep)[0] <= s
  {
    if s != "" {
      SplitHeadIsPrefix(s[1..], sep);
      assert s == [s[0]] + s[1..];
    }
  }

  /** Every part of a split is a substring of the whole. */
  lemma {:induction false} SplitPartIsSubstring(s: string, sep: char, p: string)
    requires p in Split(s, sep)
    ensures Contains(s, p)
  {
    var k :| 0 <= k < |Split(s, sep)| && Split(s, sep)[k] == p;
    if k == 0 {
      SplitHeadIsPrefix(s, sep);
      assert At(s, p, 0);
    } else {
      var rest := Split(s[1..], sep);
      assert p in rest by {
        if s[0] == sep { assert rest[k - 1] == p; } else { assert rest[k] == p; }
      }
      SplitPartIsSubstring(s[1..], sep, p);
      var i :| 0 <= i <= |s[1..]| && At(s[1..], p, i);
      AtDrop(s, 1, p, i);
    }
  }

  // ---------------------------------------------------------------- Trim

  function TrimLeft(s: string, c: char): string {
    if s != "" && s[0] == c then TrimLeft(s[1..], c) else s
  }

  function TrimRight(s: string, c: char): string {
    if s != "" && s[|s| - 1] == c then TrimRight(s[..|s| - 1], c) else s
  }

  /** `Trim` with a cut set of one character. */
  function Trim(s: string, c: char): string {
    TrimRight(TrimLeft(s, c), c)
  }

  function Repeat(c: char, n: nat): (s: string)
    ensures |s| == n && forall i :: 0 <= i < n ==> s[i] == c
  {
    seq(n, _ => c)
  }

  lemma {:induction false} TrimLeftRepeat(n: nat, s: string, c: char)
    ensures TrimLeft(Repeat(c, n) + s, c) == TrimLeft(s, c)
  {
    if n == 0 {
      assert Repeat(c, 0) + s == s;
    } else {
      assert (Repeat(c, n) + s)[1..] == Repeat(c, n - 1) + s;
      TrimLeftRepeat(n - 1, s, c);
    }
  }

  lemma {:induction false} TrimRightRepeat(n: nat, s: string, c: char)
    ensures TrimRight(s + Repeat(c, n), c) == TrimRight(s, c)
  {
    if n == 0 {
      assert s + Repeat(c, 0) == s;
    } else {
      var t := s + Repeat(c, n);
      assert t[..|t| - 1] == s + Repeat(c, n - 1);
      TrimRightRepeat(n - 1, s, c);
    }
  }

  /** Trailing separators survive a left trim, unless nothing else is left. */
  lemma {:induction false} TrimLeftKeepsTail(s: string, n: nat, c: char)
    ensures TrimLeft(s + Repeat(c, n), c) == if TrimLeft(s, c) == "" then "" else TrimLeft(s, c) + Repeat(c, n)
  {
    if s == "" {
      assert s + Repeat(c, n) == Repeat(c, n) + "";
      TrimLeftRepeat(n, "", c);
    } else if s[0] == c {
      assert (s + Repeat(c, n))[1..] == s[1..] + Repeat(c, n);
      TrimLeftKeepsTail(s[1..], n, c);
    }
  }

  /** Leading and trailing copies of the trimmed character do not matter. */
  lemma TrimIgnores(m: nat, s: string, n: nat, c: char)
    ensures Trim(Repeat(c, m) + s + Repeat(c, n), c) == Trim(s, c)
  {
    assert Repeat(c, m) + s + Repeat(c, n) == Repeat(c, m) + (s + Repeat(c, n));
    TrimLeftRepeat(m, s + Repeat(c, n), c);
    TrimLeftKeepsTail(s, n, c);
    TrimRightRepeat(n, TrimLeft(s, c), c);
  }

  lemma {:induction false} TrimLeftDrops(s: string, c: char) returns (m: nat)
    ensures s == Repeat(c, m) + TrimLeft(s, c)
    ensures TrimLeft(s, c) != "" ==> TrimLeft(s, c)[0] != c
  {
    if s != "" && s[0] == c {
      m := TrimLeftDrops(s[1..], c);
      m := m + 1;
      assert s == [s[0]] + s[1..] && Repeat(c, m) == [c] + Repeat(c, m - 1);
    } else {
      m := 0;
      assert Repeat(c, 0) + s == s;
    }
  }

  lemma {:induction false} TrimRightDrops(s: string, c: char) returns (n: nat)
    ensures s == TrimRight(s, c) + Repeat(c, n)
    ensures TrimRight(s, c) != "" ==> TrimRight(s, c)[0] == s[0] && TrimRight(s, c)[|TrimRight(s, c)| - 1] != c
  {
    if s != "" && s[|s| - 1] == c {
      n := TrimRightDrops(s[..|s| - 1], c);
      n := n + 1;
      assert s == s[..|s| - 1] + [c] && Repeat(c, n) == Repeat(c, n - 1) + [c];
    } else {
      n := 0;
      assert s + Repeat(c, 0) == s;
    }
  }

  /** A trim removes copies of the character from both ends, and leaves none there. */
  lemma TrimExactly(s: string, c: char) returns (m: nat, n: nat)
    ensures s == Repeat(c, m) + Trim(s, c) + Repeat(c, n)
    ensures Trim(s, c) != "" ==> Trim(s, c)[0] != c && Trim(s, c)[|Trim(s, c)| - 1] != c
  {
    m := TrimLeftDrops(s, c);
    n := TrimRightDrops(TrimLeft(s, c), c);
    ConcatAssociates(Repeat(c, m), Trim(s, c), Repeat(c, n));
  }

  // ---------------------------------------------------------------- ReplaceAll

  /** Non-overlapping occurrences of `sub`, from the left, become `rep`. */
  function ReplaceAll(s: string, sub: string, rep: string): string
    requires sub != ""
  {
    if |s| < |sub| then s
    else if sub <= s then rep + ReplaceAll(s[|sub|..], sub, rep)
    else [s[0]] + ReplaceAll(s[1..], sub, rep)
  }

  /** No occurrence of `sub` in `a + b` begins in `a` and ends in `b`. */
  ghost predicate NoStraddle(a: string, b: string, sub: string) {
    forall i :: 0 <= i < |a| && |a| < i + |sub| ==> !At(a + b, sub, i)
  }

  lemma NoMatchAtHead(a: string, b: string, sub: string)
    requires a != "" && NoStraddle(a, b, sub) && !(sub <= a)
    ensures !(sub <= a + b)
  {
    if |sub| <= |a| {
      assert (a + b)[..|sub|] == a[..|sub|];
    } else {
      assert sub <= a + b ==> At(a + b, sub, 0);
    }
  }

  lemma ReplaceAllShort(s: string, sub: string, rep: string)
    requires |s| < |sub|
    ensures ReplaceAll(s, sub, rep) == s
  {
  }

  lemma DropKeepsNoStraddle(a: string, b: string, sub: string, k: nat)
    requires NoStraddle(a, b, sub) && k <= |a|
    ensures NoStraddle(a[k..], b, sub)
  {
    assert a[k..] + b == (a + b)[k..];
    forall i | 0 <= i < |a[k..]| && |a[k..]| < i + |sub| ensures !At(a[k..] + b, sub, i) {
      AtDrop(a + b, k, sub, i);
    }
  }

  lemma ReplaceAllHit(s: string, sub: string, rep: string)
    requires sub != "" && sub <= s
    ensures ReplaceAll(s, sub, rep) == rep + ReplaceAll(s[|sub|..], sub, rep)
  {
  }

  /** A character that begins no occurrence is copied. */
  lemma ReplaceAllMiss(s: string, sub: string, rep: string)
    requires sub != "" && s != "" && !(sub <= s)
    ensures ReplaceAll(s, sub, rep) == [s[0]] + ReplaceAll(s[1..], sub, rep)
  {
    if |s| < |sub| {
      ReplaceAllShort(s[1..], sub, rep);
      assert s == [s[0]] + s[1..];
    }
  }

  /** Replacing distributes over concatenation when no occurrence straddles the seam. */
  lemma {:induction false} ReplaceAllConcat(a: string, b: string, sub: string, rep: string)
    requires sub != "" && NoStraddle(a, b, sub)
    ensures ReplaceAll(a + b, sub, rep) == ReplaceAll(a, sub, rep) + ReplaceAll(b, sub, rep)
    decreases |a|
  {
    hide ReplaceAll, NoStraddle;
    var s := a + b;
    if a == "" {
      assert s == b;
      ReplaceAllShort(a, sub, rep);
    } else if sub <= a {
      assert sub <= s;
      assert s[|sub|..] == a[|sub|..] + b;
      DropKeepsNoStraddle(a, b, sub, |sub|);
      ReplaceAllConcat(a[|sub|..], b, sub, rep);
      ReplaceAllHit(s, sub, rep);
      ReplaceAllHit(a, sub, rep);
      ConcatAssociates(rep, ReplaceAll(a[|sub|..], sub, rep), ReplaceAll(b, sub, rep));
    } else {
      NoMatchAtHead(a, b, sub);
      assert s[1..] == a[1..] + b;
      DropKeepsNoStraddle(a, b, sub, 1);
      ReplaceAllConcat(a[1..], b, sub, rep);
      ReplaceAllMiss(s, sub, rep);
      ReplaceAllMiss(a, sub, rep);
      ConcatAssociates([a[0]], ReplaceAll(a[1..], sub, rep), ReplaceAll(b, sub, rep));
    }
  }

  /** Text without an occurrence is left alone. */
  lemma {:induction false} ReplaceAllNone(s: string, sub: string, rep: string)
    requires sub != "" && !Contains(s, sub)
    ensures ReplaceAll(s, sub, rep) == s
  {
    if |s| >= |sub| {
      ContainsTail(s, sub);
      ReplaceAllNone(s[1..], sub, rep);
    }
  }

  /** A replacement of another length is noticed in the length of the result exactly when something is replaced. */
  lemma {:induction false} ReplaceAllLength(s: string, sub: string, rep: string)
    requires sub != ""
    ensures |rep| < |sub| ==> |ReplaceAll(s, sub, rep)| <= |s|
    ensures |rep| > |sub| ==> |ReplaceAll(s, sub, rep)| >= |s|
    ensures |rep| != |sub| ==> (|ReplaceAll(s, sub, rep)| == |s| <==> !Contains(s, sub))
  {
    if |s| >= |sub| {
      ContainsTail(s, sub);
      if sub <= s {
        ReplaceAllLength(s[|sub|..], sub, rep);
      } else {
        ReplaceAllLength(s[1..], sub, rep);
      }
    }
  }
}
