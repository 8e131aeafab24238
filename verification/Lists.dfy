/** Lists of numbers without repetition, as the heap's lists of pagerefs and the table of loaded vnodes are. */
module Lists {

  predicate NoDup(q: seq<nat>) {
    forall i, j | 0 <= i < j < |q| :: q[i] != q[j]
  }

  lemma NoDupCons(x: nat, q: seq<nat>)
    requires NoDup(q) && x !in q
    ensures NoDup([x] + q)
  {
  }

  /** q without its first p. */
  function Remove(q: seq<nat>, p: nat): seq<nat> {
    if q == [] then [] else if q[0] == p then q[1..] else [q[0]] + Remove(q[1..], p)
  }

  lemma {:induction false} RemoveKeeps(q: seq<nat>, p: nat)
    requires NoDup(q)
    ensures NoDup(Remove(q, p))
    ensures forall x :: x in Remove(q, p) <==> x in q && x != p
  {
    if q != [] {
      RemoveKeeps(q[1..], p);
      assert q[0] !in q[1..];
      if q[0] != p {
        NoDupCons(q[0], Remove(q[1..], p));
      }
    }
  }

  lemma {:induction false} RemoveAt(q: seq<nat>, i: nat)
    requires i < |q| && forall k | 0 <= k < i :: q[k] != q[i]
    ensures Remove(q, q[i]) == q[..i] + q[i + 1..]
  {
    if i > 0 {
      RemoveAt(q[1..], i - 1);
      assert q[1..][..i - 1] == q[1..i];
      assert q[..i] == [q[0]] + q[1..i];
    }
  }

  lemma {:induction false} RemoveNone(q: seq<nat>, p: nat)
    requires p !in q
    ensures Remove(q, p) == q
  {
    if q != [] {
      RemoveNone(q[1..], p);
    }
  }
}
