/** Counting: the sums of truth values in the thread, lock and vnode models, and the set bits of a bitmap. */
module Counting {

  function Indicator(b: bool): nat { if b then 1 else 0 }

  function CountTrue(bits: seq<bool>): (n: nat)
    ensures n <= |bits|
  {
    if bits == [] then 0 else Indicator(bits[0]) + CountTrue(bits[1..])
  }

  lemma {:induction false} CountFull(bits: seq<bool>)
    ensures CountTrue(bits) == |bits| <==> forall i | 0 <= i < |bits| :: bits[i]
  {
    if bits != [] {
      CountFull(bits[1..]);
      assert forall i | 1 <= i < |bits| :: bits[i] == bits[1..][i - 1];
    }
  }

  lemma {:induction false} CountNone(bits: seq<bool>)
    ensures CountTrue(bits) == 0 <==> forall i | 0 <= i < |bits| :: !bits[i]
  {
    if bits != [] {
      CountNone(bits[1..]);
      assert forall i | 1 <= i < |bits| :: bits[i] == bits[1..][i - 1];
    }
  }

  lemma {:induction false} CountSet(bits: seq<bool>, i: nat, v: bool)
    requires i < |bits| && bits[i] != v
    ensures CountTrue(bits[i := v]) == CountTrue(bits) + (if v then 1 else -1)
  {
    if i == 0 {
      assert bits[i := v][1..] == bits[1..];
    } else {
      assert bits[i := v][1..] == bits[1..][i - 1 := v];
      CountSet(bits[1..], i - 1, v);
    }
  }
}
