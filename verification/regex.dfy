/**
 * The fragment of Go's regular expressions that the two path normalisers use,
 * with leftmost-first matching: a repetition tries its lengths longest first when
 * greedy and shortest first when lazy, and a match is the first way that works.
 */
module Regex {
  import opened Options
  import opened Seqs

  datatype CharClass = Only(c: char) | Except(c: char) {
    predicate Has(x: char) { if Only? then x == c else x != c }
  }

  datatype Re = One(cls: CharClass) | Star(cls: CharClass, greedy: bool) | Then(first: Re, second: Re)

  predicate Positions(s: string, ps: seq<nat>) {
    forall k :: 0 <= k < |ps| ==> ps[k] <= |s|
  }

  /** The ends of all matches that start at `i`, in the order in which they are preferred. */
  function Ends(re: Re, s: string, i: nat): (ends: seq<nat>)
    requires i <= |s|
    ensures Positions(s, ends)
    decreases re, |s| - i, 0
  {
    match re
    case One(cls) => if i < |s| && cls.Has(s[i]) then [i + 1] else []
    case Star(cls, greedy) =>
      var more := if i < |s| && cls.Has(s[i]) then Ends(re, s, i + 1) else [];
      if greedy then more + [i] else [i] + more
    case Then(first, second) => EndsFrom(second, s, Ends(first, s, i))
  }

  /** The same from several starts, the earlier ones preferred. */
  function EndsFrom(re: Re, s: string, starts: seq<nat>): (ends: seq<nat>)
    requires Positions(s, starts)
    ensures Positions(s, ends)
    decreases re, |s| + 1, |starts|
  {
    if starts == [] then [] else Ends(re, s, starts[0]) + EndsFrom(re, s, starts[1..])
  }

  /** The end of the match at `i`, if there is one. */
  function Match(re: Re, s: string, i: nat): (end: Option<nat>)
    requires i <= |s|
    ensures end.Some? ==> end.value <= |s|
  {
    var ends := Ends(re, s, i);
    if ends == [] then None else Some(ends[0])
  }

  /** Non-overlapping matches from position `i` on, leftmost first, become `rep`. Empty matches are not used here. */
  function ReplaceFrom(re: Re, s: string, i: nat, rep: string): string
    requires i <= |s|
    decreases |s| - i
  {
    if i == |s| then ""
    else
      var end := Match(re, s, i);
      if end.Some? && end.value > i then rep + ReplaceFrom(re, s, end.value, rep)
      else [s[i]] + ReplaceFrom(re, s, i + 1, rep)
  }

  function ReplaceAllString(re: Re, s: string, rep: string): string {
    ReplaceFrom(re, s, 0, rep)
  }

  lemma {:induction false} EndsFromConcat(re: Re, s: string, xs: seq<nat>, ys: seq<nat>)
    requires Positions(s, xs) && Positions(s, ys)
    ensures EndsFrom(re, s, xs + ys) == EndsFrom(re, s, xs) + EndsFrom(re, s, ys)
  {
    hide Ends;
    if xs == [] {
      assert xs + ys == ys;
    } else {
      assert (xs + ys)[1..] == xs[1..] + ys;
      EndsFromConcat(re, s, xs[1..], ys);
      ConcatAssociates(Ends(re, s, xs[0]), EndsFrom(re, s, xs[1..]), EndsFrom(re, s, ys));
    }
  }

  lemma EndsFromOne(re: Re, s: string, i: nat)
    requires i <= |s|
    ensures EndsFrom(re, s, [i]) == Ends(re, s, i)
  {
    assert EndsFrom(re, s, [i]) == Ends(re, s, i) + EndsFrom(re, s, [i][1..]);
  }

  /** A repetition followed by something else: stop here or go on, in the preferred order. */
  lemma StarThen(cls: CharClass, greedy: bool, second: Re, s: string, i: nat)
    requires i <= |s|
    ensures var re := Then(Star(cls, greedy), second);
      Ends(re, s, i) ==
        if !(i < |s| && cls.Has(s[i])) then Ends(second, s, i)
        else if greedy then Ends(re, s, i + 1) + Ends(second, s, i)
        else Ends(second, s, i) + Ends(re, s, i + 1)
  {
    var star := Star(cls, greedy);
    EndsFromOne(second, s, i);
    if i < |s| && cls.Has(s[i]) {
      var more := Ends(star, s, i + 1);
      EndsFromConcat(second, s, more, [i]);
      EndsFromConcat(second, s, [i], more);
    } else {
      assert Ends(star, s, i) == [i];
    }
  }

  lemma ReplaceEnds(re: Re, s: string, rep: string)
    ensures ReplaceFrom(re, s, |s|, rep) == ""
  {
  }

  lemma ReplaceStep(re: Re, s: string, i: nat, rep: string)
    requires i < |s|
    ensures ReplaceFrom(re, s, i, rep) ==
      match Match(re, s, i)
      case Some(e) => if e > i then rep + ReplaceFrom(re, s, e, rep) else [s[i]] + ReplaceFrom(re, s, i + 1, rep)
      case None => [s[i]] + ReplaceFrom(re, s, i + 1, rep)
  {
  }
}
