/** Sums over the threads of a system, as measures use them. */
module Totals {

  function Total(a: seq<nat>): nat {
    if a == [] then 0 else a[0] + Total(a[1..])
  }

  lemma {:induction false} TotalUpdate(a: seq<nat>, t: nat, x: nat)
    requires t < |a|
    ensures Total(a[t := x]) == Total(a) - a[t] + x
  {
    if t == 0 {
      assert a[t := x][1..] == a[1..];
    } else {
      TotalUpdate(a[1..], t - 1, x);
      assert a[t := x][1..] == a[1..][t - 1 := x];
    }
  }

  lemma {:induction false} TotalMonotone(a: seq<nat>, b: seq<nat>)
    requires |a| == |b| && forall t :: 0 <= t < |a| ==> a[t] <= b[t]
    ensures Total(a) <= Total(b)
  {
    if a != [] {
      assert forall t :: 0 <= t < |a[1..]| ==> a[1..][t] == a[t + 1] <= b[t + 1] == b[1..][t];
      TotalMonotone(a[1..], b[1..]);
    }
  }
}
