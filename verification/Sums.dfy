/** Sums of a weight over all threads: a step of one thread moves a sum by what that thread's place
    weighs before and after. */
module Sums {

  function Sum<W, P>(weigh: (W, P) -> nat, w: W, pcs: seq<P>): nat {
    if pcs == [] then 0 else weigh(w, pcs[0]) + Sum(weigh, w, pcs[1..])
  }

  lemma {:induction false} SumUpdate<W, P>(weigh: (W, P) -> nat, w: W, pcs: seq<P>, t: nat, pc: P)
    requires t < |pcs|
    ensures Sum(weigh, w, pcs[t := pc]) + weigh(w, pcs[t]) == Sum(weigh, w, pcs) + weigh(w, pc)
  {
    if t == 0 {
      assert pcs[t := pc][1..] == pcs[1..];
    } else {
      assert pcs[t := pc][1..] == pcs[1..][t - 1 := pc];
      SumUpdate(weigh, w, pcs[1..], t - 1, pc);
    }
  }

  lemma {:induction false} SumAtLeast<W, P>(weigh: (W, P) -> nat, w: W, pcs: seq<P>, t: nat)
    requires t < |pcs|
    ensures weigh(w, pcs[t]) <= Sum(weigh, w, pcs)
  {
    if t > 0 {
      SumAtLeast(weigh, w, pcs[1..], t - 1);
    }
  }

  lemma {:induction false} SumAtMost<W, P>(weigh: (W, P) -> nat, w: W, pcs: seq<P>)
    requires forall t :: 0 <= t < |pcs| ==> weigh(w, pcs[t]) <= 1
    ensures Sum(weigh, w, pcs) <= |pcs|
  {
    if pcs != [] {
      SumAtMost(weigh, w, pcs[1..]);
    }
  }

  lemma {:induction false} ZeroSum<W, P>(weigh: (W, P) -> nat, w: W, pcs: seq<P>)
    requires forall t :: 0 <= t < |pcs| ==> weigh(w, pcs[t]) == 0
    ensures Sum(weigh, w, pcs) == 0
  {
    if pcs != [] {
      ZeroSum(weigh, w, pcs[1..]);
    }
  }
}
