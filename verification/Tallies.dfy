/**
 * How many threads are at which kind of program point: the account of an element counter that
 * producers increment after linking and consumers decrement before unlinking.
 */
module Tallies {
  /** Linked but not counted yet; counted out but not unlinked yet; counted out in vain. */
  datatype Kind = Neutral | Uncounted | Reserved | Failing

  function Count(ks: seq<Kind>, k: Kind): nat {
    if ks == [] then 0 else Count(ks[1..], k) + if ks[0] == k then 1 else 0
  }

  lemma {:induction false} CountUpdate(ks: seq<Kind>, t: nat, to: Kind, k: Kind)
    requires t < |ks|
    ensures Count(ks[t := to], k) == Count(ks, k) - (if ks[t] == k then 1 else 0) + (if to == k then 1 else 0)
  {
    if t == 0 {
      assert ks[0 := to][1..] == ks[1..];
    } else {
      assert ks[t := to][1..] == ks[1..][t - 1 := to];
      CountUpdate(ks[1..], t - 1, to, k);
    }
  }

  lemma {:induction false} CountAtLeast(ks: seq<Kind>, t: nat)
    requires t < |ks|
    ensures Count(ks, ks[t]) >= 1
  {
    if t > 0 { CountAtLeast(ks[1..], t - 1); }
  }

  lemma {:induction false} CountSum(ks: seq<Kind>)
    ensures Count(ks, Uncounted) + Count(ks, Reserved) + Count(ks, Failing) <= |ks|
  {
    if ks != [] { CountSum(ks[1..]); }
  }

  lemma {:induction false} CountNone(ks: seq<Kind>)
    requires forall t :: 0 <= t < |ks| ==> ks[t] == Neutral
    ensures Count(ks, Uncounted) == 0 && Count(ks, Reserved) == 0 && Count(ks, Failing) == 0
  {
    if ks != [] { CountNone(ks[1..]); }
  }
}
