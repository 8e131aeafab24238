/**
 thread_consider_migration of src/kern/thread/thread.c, run by CPU me: hands threads from the end of its own run
 queue to CPUs that have less than their share.

 The run queue locks are dropped between the passes, so that what the first pass counted need not be what the
 later passes find: seen are the lengths at the time of the first pass.  Only CPU me takes threads off its own
 queue, so that this one can only have grown.  late are threads that others put there during the second pass.
 */
module Migration {

  type Tid = nat

  function Sum(q: seq<nat>): nat {
    if q == [] then 0 else q[0] + Sum(q[1..])
  }

  lemma {:induction false} SumPush(q: seq<nat>, x: nat)
    ensures Sum(q + [x]) == Sum(q) + x
  {
    if q == [] {
      assert q + [x] == [x];
    } else {
      assert (q + [x])[1..] == q[1..] + [x];
      SumPush(q[1..], x);
    }
  }

  /** DIVROUNDUP. */
  function Share(total: nat, n: nat): (s: nat)
    requires n > 0
    ensures n * s >= total
  {
    (total + n - 1) / n
  }

  /** The share is the least that is enough for everybody. */
  lemma LeastShare(total: nat, n: nat)
    requires n > 0
    ensures var s := Share(total, n); n * s >= total && (s > 0 ==> n * (s - 1) < total)
  {
    var s := Share(total, n);
    assert total + n - 1 == n * s + (total + n - 1) % n;
    assert s > 0 ==> n * (s - 1) == n * s - n;
  }

  /** All threads on the queues. */
  function Threads(q: seq<seq<Tid>>): multiset<Tid> {
    if q == [] then multiset{} else multiset(q[0]) + Threads(q[1..])
  }

  lemma {:induction false} ThreadsUpdate(q: seq<seq<Tid>>, i: nat, x: seq<Tid>)
    requires i < |q|
    ensures Threads(q[i := x]) + multiset(q[i]) == Threads(q) + multiset(x)
  {
    if i == 0 {
      assert q[i := x][1..] == q[1..];
    } else {
      assert q[i := x][1..] == q[1..][i - 1 := x];
      ThreadsUpdate(q[1..], i - 1, x);
      SumOf(multiset(q[0]), Threads(q[1..]), Threads(q[1..][i - 1 := x]), multiset(q[i]), multiset(x));
    }
  }

  lemma SumOf(a: multiset<Tid>, b: multiset<Tid>, b': multiset<Tid>, c: multiset<Tid>, d: multiset<Tid>)
    requires b' + c == b + d
    ensures a + b' + c == a + b + d
  {
    forall t
      ensures (a + b' + c)[t] == (a + b + d)[t]
    {
      assert (b' + c)[t] == (b + d)[t];
    }
  }

  /** One queue and the victims change together. */
  lemma Exchanged(all: multiset<Tid>, all': multiset<Tid>, q: multiset<Tid>, q': multiset<Tid>,
                  v: multiset<Tid>, v': multiset<Tid>, total: multiset<Tid>)
    requires all' + q == all + q' && q' + v' == q + v && all + v == total
    ensures all' + v' == total
  {
    forall t
      ensures (all' + v')[t] == total[t]
    {
      assert (all' + q)[t] == (all + q')[t] && (q' + v')[t] == (q + v)[t] && (all + v)[t] == total[t];
    }
  }

  /** How many threads CPUs other than me, from i on, are short of their share. */
  function Deficit(lens: seq<nat>, share: nat, me: nat, i: nat): nat
    requires i <= |lens|
    decreases |lens| - i
  {
    if i == |lens| then 0
    else Shortage(lens[i], share, i == me) + Deficit(lens, share, me, i + 1)
  }

  /** What one CPU is short of; CPU me does not count. */
  function Shortage(len: nat, share: nat, me: bool): nat {
    if !me && len < share then share - len else 0
  }

  /** The other CPUs are short of at least what CPU me has too much. */
  lemma {:induction false} DeficitEnough(lens: seq<nat>, share: nat, me: nat, i: nat)
    requires me < |lens| && i <= |lens|
    ensures Deficit(lens, share, me, i) + Sum(lens[i..]) >= (|lens| - i) * share
            + (if i <= me then lens[me] - share else 0)
    decreases |lens| - i
  {
    if i < |lens| {
      DeficitEnough(lens, share, me, i + 1);
      assert lens[i..][1..] == lens[i + 1..];
      Once(|lens| - i, share);
    }
  }

  lemma Once(k: int, share: int)
    ensures k * share == (k - 1) * share + share
  {
  }

  /** What the first pass finds out. */
  method CountThreads(seen: seq<nat>, me: nat) returns (mine: nat, total: nat)
    requires me < |seen|
    ensures mine == seen[me] && total == Sum(seen)
  {
    mine, total := 0, 0;
    var i := 0;
    while i < |seen|
      invariant i <= |seen| && total == Sum(seen[..i]) && (me < i ==> mine == seen[me])
    {
      assert seen[..i + 1] == seen[..i] + [seen[i]];
      SumPush(seen[..i], seen[i]);
      total := total + seen[i];
      if i == me {
        mine := seen[i];
      }
      i := i + 1;
    }
    assert seen[..i] == seen;
  }

  /** Takes n threads off the end of a queue, keeping their order. */
  method TakeVictims(q: seq<Tid>, n: nat) returns (rest: seq<Tid>, victims: seq<Tid>)
    requires n <= |q|
    ensures rest == q[..|q| - n] && victims == q[|q| - n..]
  {
    rest, victims := q, [];
    var i := 0;
    while i < n
      invariant i <= n && rest == q[..|q| - i] && victims == q[|q| - i..]
    {
      victims := [rest[|rest| - 1]] + victims;
      rest := rest[..|rest| - 1];
      i := i + 1;
    }
  }

  /** q' is q with threads added, none of them cur, and no longer than share unless q was. */
  ghost predicate Received(q: seq<Tid>, q': seq<Tid>, share: nat, cur: Tid) {
    && |q| <= |q'| && q'[..|q|] == q
    && (|q'| <= share || q' == q)
    && cur !in q'[|q|..]
  }

  /** The inner loop: fills one queue up to its share, skipping cur. */
  method FillQueue(q: seq<Tid>, vs: seq<Tid>, n: nat, share: nat, cur: Tid)
    returns (q': seq<Tid>, victims: seq<Tid>, left: nat)
    requires n <= |vs|
    ensures Received(q, q', share, cur)
    ensures left <= n && left <= |victims| && multiset(q') + multiset(victims) == multiset(q) + multiset(vs)
    ensures left == 0 || |q'| >= share
    ensures multiset(victims)[cur] == multiset(vs)[cur]
    ensures cur !in vs ==> cur !in victims && |victims| == |vs| - (n - left) && |q'| == |q| + (n - left)
  {
    q', victims, left := q, vs, n;
    while |q'| < share && left > 0
      invariant left <= n && left <= |victims| && multiset(q') + multiset(victims) == multiset(q) + multiset(vs)
      invariant multiset(victims)[cur] == multiset(vs)[cur]
      invariant |q| <= |q'| && q'[..|q|] == q && (|q'| <= share || q' == q) && cur !in q'[|q|..]
      invariant cur !in vs ==> cur !in victims && |victims| == |vs| - (n - left) && |q'| == |q| + (n - left)
      decreases left
    {
      var t := victims[0];
      assert victims == [t] + victims[1..];
      victims := victims[1..];
      if t == cur {
        victims := victims + [t];
      } else {
        q' := q' + [t];
      }
      left := left - 1;
    }
  }

  function Lengths(q: seq<seq<Tid>>): (r: seq<nat>)
    ensures |r| == |q| && forall i | 0 <= i < |q| :: r[i] == |q[i]|
  {
    seq(|q|, i requires 0 <= i < |q| => |q[i]|)
  }

  lemma DeficitNext(lens: seq<nat>, share: nat, me: nat, i: nat)
    requires i < |lens|
    ensures Deficit(lens, share, me, i)
         == Shortage(lens[i], share, i == me) + Deficit(lens, share, me, i + 1)
  {
  }

  /** Visits CPU i in the second pass. */
  method Visit(queues: array<seq<Tid>>, i: nat, cur: Tid, vs: seq<Tid>, n: nat, share: nat)
    returns (victims: seq<Tid>, left: nat)
    requires i < queues.Length && n <= |vs|
    modifies queues
    ensures queues[..] == old(queues[..])[i := queues[i]] && Received(old(queues[i]), queues[i], share, cur)
    ensures Threads(queues[..]) + multiset(victims) == Threads(old(queues[..])) + multiset(vs)
    ensures left <= n && left <= |victims| && multiset(victims)[cur] == multiset(vs)[cur]
    ensures cur !in vs && n == |vs| ==>
              cur !in victims && left == |victims|
                && (left == 0 || left <= n - Shortage(|old(queues[i])|, share, false))
  {
    hide Threads;
    ghost var before := queues[..];
    var q;
    q, victims, left := FillQueue(queues[i], vs, n, share, cur);
    ThreadsUpdate(before, i, q);
    queues[i] := q;
    assert queues[..] == before[i := q];
    Exchanged(Threads(before), Threads(queues[..]), multiset(before[i]), multiset(q), multiset(vs), multiset(victims),
              Threads(before) + multiset(vs));
  }

  /** The CPUs before i, except me, have been visited, and the others not. */
  ghost predicate Visited(was: seq<seq<Tid>>, now: seq<seq<Tid>>, i: nat, me: nat, share: nat, cur: Tid) {
    && |now| == |was|
    && (forall k | 0 <= k < |was| && k < i && k != me :: Received(was[k], now[k], share, cur))
    && (forall k | 0 <= k < |was| && (i <= k || k == me) :: now[k] == was[k])
  }

  lemma VisitedNext(was: seq<seq<Tid>>, now: seq<seq<Tid>>, q: seq<Tid>, i: nat, me: nat, share: nat, cur: Tid)
    requires Visited(was, now, i, me, share, cur) && i < |was| && (i == me ==> q == now[i])
    requires i != me ==> Received(now[i], q, share, cur)
    ensures Visited(was, now[i := q], i + 1, me, share, cur)
  {
  }

  lemma VisitedAll(was: seq<seq<Tid>>, now: seq<seq<Tid>>, i: nat, me: nat, share: nat, cur: Tid)
    requires Visited(was, now, i, me, share, cur) && me < |was|
    ensures |now| == |was| && now[me] == was[me]
    ensures forall k | 0 <= k < |was| && k != me :: Received(was[k], now[k], share, cur)
    ensures Visited(was, now, |was|, me, share, cur)
  {
  }

  /** One turn of the second pass. */
  method Turn(queues: array<seq<Tid>>, i: nat, me: nat, cur: Tid, vs: seq<Tid>, n: nat, share: nat,
      ghost was: seq<seq<Tid>>)
    returns (victims: seq<Tid>, left: nat)
    requires i < queues.Length == |was| && n <= |vs| && Visited(was, queues[..], i, me, share, cur)
    modifies queues
    ensures Visited(was, queues[..], i + 1, me, share, cur)
    ensures Threads(queues[..]) + multiset(victims) == Threads(old(queues[..])) + multiset(vs)
    ensures left <= n && left <= |victims| && multiset(victims)[cur] == multiset(vs)[cur]
    ensures cur !in vs && n == |vs| ==>
              cur !in victims && left == |victims| && (left == 0 || left <= n - Shortage(|was[i]|, share, i == me))
  {
    hide Threads, Received, Visited;
    ghost var now := queues[..];
    NotYet(was, now, i, me, share, cur);
    victims, left := vs, n;
    if i != me {
      victims, left := Visit(queues, i, cur, vs, n, share);
    }
    assert queues[..] == now[i := queues[i]];
    VisitedNext(was, now, queues[i], i, me, share, cur);
  }

  /** The second pass, over the other CPUs. */
  method Distribute(queues: array<seq<Tid>>, me: nat, cur: Tid, vs: seq<Tid>, n: nat, share: nat)
    returns (victims: seq<Tid>)
    requires me < queues.Length && n <= |vs|
    modifies queues
    ensures Visited(old(queues[..]), queues[..], queues.Length, me, share, cur)
    ensures Threads(queues[..]) + multiset(victims) == Threads(old(queues[..])) + multiset(vs)
    ensures multiset(victims)[cur] == multiset(vs)[cur]
    ensures cur !in vs && n == |vs| <= Deficit(Lengths(old(queues[..])), share, me, 0) ==> victims == []
  {
    victims := vs;
    var left := n;
    var i := 0;
    ghost var was := queues[..];
    ghost var lens := Lengths(was);
    NoDeficit(lens, share, me);
    assert forall k | 0 <= k < |was| :: lens[k] == |was[k]|;
    assert Visited(was, was, 0, me, share, cur);
    ghost var total := Threads(was) + multiset(vs);
    ghost var enough := cur !in vs && n == |vs| <= Deficit(lens, share, me, 0);
    hide Threads, Received, Deficit, Visited, Lengths, Shortage;
    while i < queues.Length && left > 0
      invariant i <= queues.Length && left <= |victims|
      invariant Visited(was, queues[..], i, me, share, cur)
      invariant Threads(queues[..]) + multiset(victims) == total
      invariant multiset(victims)[cur] == multiset(vs)[cur]
      invariant enough ==> cur !in victims && left == |victims| && left <= Deficit(lens, share, me, i)
    {
      DeficitNext(lens, share, me, i);
      victims, left := Turn(queues, i, me, cur, victims, left, share, was);
      i := i + 1;
    }
    VisitedAll(was, queues[..], i, me, share, cur);
  }

  lemma NotYet(was: seq<seq<Tid>>, now: seq<seq<Tid>>, i: nat, me: nat, share: nat, cur: Tid)
    requires Visited(was, now, i, me, share, cur) && i < |was|
    ensures |now| == |was| && now[i] == was[i]
  {
  }

  lemma NoDeficit(lens: seq<nat>, share: nat, me: nat)
    ensures Deficit(lens, share, me, |lens|) == 0
  {
  }

  lemma Unchanged(q: seq<seq<Tid>>, share: nat, cur: Tid)
    ensures forall k | 0 <= k < |q| :: Received(q[k], q[k], share, cur)
  {
  }

  /** thread_consider_migration. */
  method ConsiderMigration(queues: array<seq<Tid>>, me: nat, cur: Tid, seen: seq<nat>, late: seq<Tid>)
    requires me < queues.Length == |seen| && seen[me] <= |queues[me]|
    modifies queues
    ensures Threads(queues[..])
            == Threads(old(queues[..])) + (if seen[me] < Share(Sum(seen), |seen|) then multiset{} else multiset(late))
    ensures forall i | 0 <= i < queues.Length && i != me ::
            Received(old(queues[i]), queues[i], Share(Sum(seen), |seen|), cur)
    ensures cur in old(queues[me]) ==> cur in queues[me]
    ensures (forall i | 0 <= i < |seen| :: seen[i] == |old(queues[i])|) && cur !in old(queues[me]) && late == []
              && seen[me] >= Share(Sum(seen), |seen|)
            ==> |queues[me]| == Share(Sum(seen), |seen|)
  {
    hide Threads, Deficit, Lengths, Received, Sum, Share, Visited;
    var mine, total := CountThreads(seen, me);
    var share := Share(total, |seen|);
    if mine < share {
      Unchanged(queues[..], share, cur);
      return;
    }
    var toSend := mine - share;
    ghost var start := queues[..];
    var q := queues[me];
    var rest, victims := TakeVictims(q, toSend);
    assert q == rest + victims;
    ghost var taken := victims;
    ThreadsUpdate(start, me, rest);
    queues[me] := rest;
    assert queues[..] == start[me := rest];
    Enough(seen, start, queues[..], share, me);
    ghost var middle := Threads(queues[..]);
    ghost var sent := queues[..];
    victims := Distribute(queues, me, cur, victims, toSend, share);
    VisitedAll(sent, queues[..], queues.Length, me, share, cur);
    ghost var last := queues[..];
    ThreadsUpdate(last, me, rest + late + victims);
    queues[me] := rest + late + victims;
    assert queues[..] == last[me := rest + late + victims];
    Balance(Threads(start), middle, Threads(last), Threads(queues[..]), q, rest, taken, victims, late);
    assert cur in taken ==> cur in victims;
  }

  /** Nothing is lost or doubled on the way. */
  lemma Balance(start: multiset<Tid>, middle: multiset<Tid>, last: multiset<Tid>, end: multiset<Tid>,
                q: seq<Tid>, rest: seq<Tid>, taken: seq<Tid>, victims: seq<Tid>, late: seq<Tid>)
    requires q == rest + taken && middle + multiset(q) == start + multiset(rest)
    requires last + multiset(victims) == middle + multiset(taken)
    requires end + multiset(rest) == last + multiset(rest + late + victims)
    ensures end == start + multiset(late)
  {
    forall t
      ensures end[t] == (start + multiset(late))[t]
    {
      assert multiset(q) == multiset(rest) + multiset(taken);
      assert multiset(rest + late + victims) == multiset(rest) + multiset(late) + multiset(victims);
      assert (middle + multiset(q))[t] == (start + multiset(rest))[t];
      assert (last + multiset(victims))[t] == (middle + multiset(taken))[t];
      assert (end + multiset(rest))[t] == (last + multiset(rest + late + victims))[t];
    }
  }

  /** If nothing changed since the first pass, the others can take everything that is to be sent. */
  lemma Enough(seen: seq<nat>, start: seq<seq<Tid>>, now: seq<seq<Tid>>, share: nat, me: nat)
    requires |seen| == |start| == |now| > me && share == Share(Sum(seen), |seen|) && seen[me] >= share
    requires forall i | 0 <= i < |now| && i != me :: now[i] == start[i]
    ensures (forall i | 0 <= i < |seen| :: seen[i] == |start[i]|) ==>
            seen[me] - share <= Deficit(Lengths(now), share, me, 0)
  {
    if forall i | 0 <= i < |seen| :: seen[i] == |start[i]| {
      DeficitEnough(seen, share, me, 0);
      assert seen[0..] == seen;
      DeficitBut(seen, Lengths(now), share, me, 0);
    }
  }

  lemma {:induction false} DeficitBut(lens: seq<nat>, lens': seq<nat>, share: nat, me: nat, i: nat)
    requires |lens| == |lens'| && i <= |lens| && forall k | i <= k < |lens| && k != me :: lens[k] == lens'[k]
    ensures Deficit(lens, share, me, i) == Deficit(lens', share, me, i)
    decreases |lens| - i
  {
    if i < |lens| {
      DeficitBut(lens, lens', share, me, i + 1);
    }
  }
}
