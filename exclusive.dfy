/** Counting the `true` flags of a rendered list: how many carousel dots,
    tab buttons or tab panels are active at once. */
module Exclusive {

  function CountTrue(flags: seq<bool>): nat
    decreases |flags|
  {
    if flags == [] then 0 else (if flags[0] then 1 else 0) + CountTrue(flags[1..])
  }

  /** A list whose flag is set exactly at position k has exactly one set. */
  lemma {:induction false} OneHotCount(flags: seq<bool>, k: int)
    requires 0 <= k < |flags|
    requires forall i | 0 <= i < |flags| :: flags[i] == (i == k)
    ensures CountTrue(flags) == 1
    decreases |flags|
  {
    if k == 0 {
      NoneSetCount(flags[1..]);
    } else {
      OneHotCount(flags[1..], k - 1);
    }
  }

  lemma {:induction false} NoneSetCount(flags: seq<bool>)
    requires forall i | 0 <= i < |flags| :: !flags[i]
    ensures CountTrue(flags) == 0
    decreases |flags|
  {
    if flags != [] {
      NoneSetCount(flags[1..]);
    }
  }
}
