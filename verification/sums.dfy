/** Sums of the values of a finite map, used for capacities and termination measures. */
module Sums {
  ghost function Sum(m: map<string, nat>): nat
    decreases |m|
  {
    if m == map[] then 0
    else
      var k :| k in m;
      assert (m - {k}).Keys == m.Keys - {k};
      m[k] + Sum(m - {k})
  }

  /** Any key may be taken out first. */
  lemma {:induction false} SumWithout(m: map<string, nat>, k: string)
    requires k in m
    ensures Sum(m) == m[k] + Sum(m - {k})
    decreases |m|
  {
    var k0 :| k0 in m && Sum(m) == m[k0] + Sum(m - {k0});
    if k0 != k {
      assert (m - {k0}).Keys == m.Keys - {k0} && (m - {k}).Keys == m.Keys - {k};
      SumWithout(m - {k0}, k);
      SumWithout(m - {k}, k0);
      assert m - {k0} - {k} == m - {k} - {k0};
    }
  }

  lemma SumUpdate(m: map<string, nat>, k: string, v: nat)
    requires k in m
    ensures Sum(m[k := v]) == Sum(m) - m[k] + v
  {
    SumWithout(m, k);
    SumWithout(m[k := v], k);
    assert m[k := v] - {k} == m - {k};
  }

  /** `count * bound`, by repeated addition. */
  ghost function Copies(count: nat, bound: nat): nat {
    if count == 0 then 0 else bound + Copies(count - 1, bound)
  }

  lemma {:induction false} CopiesIsProduct(count: nat, bound: nat)
    ensures Copies(count, bound) == count * bound
  {
    if count > 0 {
      CopiesIsProduct(count - 1, bound);
      assert (count - 1) * bound == count * bound - bound;
    }
  }

  lemma {:induction false} SumAtMost(m: map<string, nat>, bound: nat)
    requires forall k :: k in m ==> m[k] <= bound
    ensures Sum(m) <= Copies(|m|, bound)
    decreases |m|
  {
    if m != map[] {
      var k :| k in m && Sum(m) == m[k] + Sum(m - {k});
      assert (m - {k}).Keys == m.Keys - {k};
      assert |m - {k}| == |m| - 1;
      SumAtMost(m - {k}, bound);
    }
  }

  /** One entry strictly below the bound leaves room in the total. */
  lemma SumBelow(m: map<string, nat>, bound: nat, k: string)
    requires forall j :: j in m ==> m[j] <= bound
    requires k in m && m[k] < bound
    ensures Sum(m) < |m| * bound
  {
    SumWithout(m, k);
    assert (m - {k}).Keys == m.Keys - {k};
    assert |m - {k}| == |m| - 1;
    SumAtMost(m - {k}, bound);
    CopiesIsProduct(|m|, bound);
  }

  lemma {:induction false} SumOfZeros(m: map<string, nat>)
    requires forall k :: k in m ==> m[k] == 0
    ensures Sum(m) == 0
  {
    SumAtMost(m, 0);
    CopiesIsProduct(|m|, 0);
  }
}
