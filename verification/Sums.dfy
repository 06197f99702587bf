/** Sums of vectors, and how they follow their entries. */
module Sums {

  function Sum(s: seq<nat>): nat {
    if s == [] then 0 else s[0] + Sum(s[1..])
  }

  predicate Below(a: seq<nat>, b: seq<nat>) {
    |a| == |b| && forall i :: 0 <= i < |a| ==> a[i] <= b[i]
  }

  lemma {:induction false} SumIsMonotone(a: seq<nat>, b: seq<nat>)
    requires Below(a, b)
    ensures Sum(a) <= Sum(b)
    ensures a != b ==> Sum(a) < Sum(b)
  {
    if a != [] {
      SumIsMonotone(a[1..], b[1..]);
      assert a == [a[0]] + a[1..] && b == [b[0]] + b[1..];
    }
  }

  lemma {:induction false} SumIsBounded(a: seq<nat>, most: nat)
    requires forall i :: 0 <= i < |a| ==> a[i] <= most
    ensures Sum(a) <= |a| * most
  {
    if a != [] {
      SumIsBounded(a[1..], most);
      assert |a| * most == most + (|a| - 1) * most;
    }
  }

  lemma {:induction false} SumUpdate(a: seq<nat>, i: nat, v: nat)
    requires i < |a|
    ensures Sum(a[i := v]) == Sum(a) - a[i] + v
  {
    if i == 0 {
      assert a[0 := v][1..] == a[1..];
    } else {
      SumUpdate(a[1..], i - 1, v);
      assert a[i := v][1..] == a[1..][i - 1 := v];
    }
  }
}
