/**
 Semaphores and sleep locks of src/kern/thread/synch.c as steps of threads.

 One step is one critical section of the object's spinlock.  wchan_sleep puts the thread on the wait channel
 before it gives up the spinlock, so that testing and going to sleep are one step; wchan_wakeone makes the first
 sleeper runnable, but that thread has to take the spinlock and test again, and others may come first.
 */
module WaitChannels {
  import opened Counting

  datatype PC = Away | Asleep | Woken | Inside

  /** How many threads are in state pc. */
  function Count(ths: seq<PC>, pc: PC): nat {
    if ths == [] then 0 else Indicator(ths[0] == pc) + Count(ths[1..], pc)
  }

  lemma {:induction false} CountUpdate(ths: seq<PC>, t: nat, x: PC, pc: PC)
    requires t < |ths|
    ensures Count(ths[t := x], pc) + Indicator(ths[t] == pc) == Count(ths, pc) + Indicator(x == pc)
  {
    if t == 0 {
      assert ths[t := x][1..] == ths[1..];
    } else {
      assert ths[t := x][1..] == ths[1..][t - 1 := x];
      CountUpdate(ths[1..], t - 1, x, pc);
    }
  }

  lemma {:induction false} CountAt(ths: seq<PC>, t: nat, pc: PC)
    requires t < |ths| && ths[t] == pc
    ensures Count(ths, pc) > 0
  {
    if t > 0 {
      CountAt(ths[1..], t - 1, pc);
    }
  }

  lemma {:induction false} CountNone(ths: seq<PC>, pc: PC)
    requires forall t | 0 <= t < |ths| :: ths[t] != pc
    ensures Count(ths, pc) == 0
  {
    if ths != [] {
      CountNone(ths[1..], pc);
    }
  }

  lemma {:induction false} CountTwo(ths: seq<PC>, t: nat, u: nat, pc: PC)
    requires t < u < |ths| && ths[t] == pc && ths[u] == pc
    ensures Count(ths, pc) > 1
  {
    if t == 0 {
      CountAt(ths[1..], u - 1, pc);
    } else {
      CountTwo(ths[1..], t - 1, u - 1, pc);
    }
  }

  /** The wait channel holds exactly the sleeping threads, each once. */
  ghost predicate QueueOk(queue: seq<nat>, ths: seq<PC>) {
    && (forall i | 0 <= i < |queue| :: queue[i] < |ths| && ths[queue[i]] == Asleep)
    && (forall i, j | 0 <= i < j < |queue| :: queue[i] != queue[j])
    && (forall t | 0 <= t < |ths| && ths[t] == Asleep :: t in queue)
  }

  lemma Sleeps(queue: seq<nat>, ths: seq<PC>, t: nat)
    requires QueueOk(queue, ths) && t < |ths| && ths[t] != Asleep
    ensures QueueOk(queue + [t], ths[t := Asleep])
  {
    var q, ths' := queue + [t], ths[t := Asleep];
    forall u | 0 <= u < |ths'| && ths'[u] == Asleep
      ensures u in q
    {
      if u == t {
        assert q[|queue|] == t;
      } else {
        assert u in queue;
      }
    }
  }

  lemma Wakes(queue: seq<nat>, ths: seq<PC>)
    requires QueueOk(queue, ths) && queue != []
    ensures queue[0] < |ths| && QueueOk(queue[1..], ths[queue[0] := Woken])
  {
    var q, ths' := queue[1..], ths[queue[0] := Woken];
    forall u | 0 <= u < |ths'| && ths'[u] == Asleep
      ensures u in q
    {
      assert u in queue && u != queue[0];
    }
  }

  lemma Moves(queue: seq<nat>, ths: seq<PC>, t: nat, x: PC)
    requires QueueOk(queue, ths) && t < |ths| && ths[t] != Asleep && x != Asleep
    ensures QueueOk(queue, ths[t := x])
  {
  }
}

module Semaphores {
  import opened WaitChannels

  const UINT_MAX: nat := 0xffff_ffff

  datatype Sem = Sem(count: nat, queue: seq<nat>, threads: seq<PC>)

  datatype Action = P(t: nat) | V(t: nat)

  /** A thread may call P, or come back from its sleep in P; V asserts that the count does not wrap around. */
  predicate Enabled(s: Sem, a: Action) {
    && a.t < |s.threads|
    && match a
       case P(t) => s.threads[t] == Away || s.threads[t] == Woken
       case V(t) => s.threads[t] == Away && s.count < UINT_MAX && (s.queue != [] ==> s.queue[0] < |s.threads|)
  }

  function Exec(s: Sem, a: Action): Sem
    requires Enabled(s, a)
  {
    match a
    case P(t) =>
      if s.count == 0 then s.(queue := s.queue + [t], threads := s.threads[t := Asleep])
      else s.(count := s.count - 1, threads := s.threads[t := Away])
    case V(t) =>
      var s1 := s.(count := s.count + 1);
      if s.queue == [] then s1
      else s1.(queue := s.queue[1..], threads := s.threads[s.queue[0] := Woken])
  }

  ghost predicate Inv(s: Sem) {
    && QueueOk(s.queue, s.threads)
    && (s.queue != [] ==> Count(s.threads, Woken) >= s.count)
  }

  lemma StepInv(s: Sem, a: Action)
    requires Inv(s) && Enabled(s, a)
    ensures Inv(Exec(s, a))
  {
    match a
    case P(t) =>
      if s.count == 0 {
        Sleeps(s.queue, s.threads, t);
      } else {
        Moves(s.queue, s.threads, t, Away);
        CountUpdate(s.threads, t, Away, Woken);
      }
    case V(t) =>
      if s.queue != [] {
        Wakes(s.queue, s.threads);
        CountUpdate(s.threads, s.queue[0], Woken, Woken);
      }
  }

  ghost predicate Steps(s: Sem, acts: seq<Action>, s': Sem)
    decreases |acts|
  {
    if acts == [] then s' == s else Enabled(s, acts[0]) && Steps(Exec(s, acts[0]), acts[1..], s')
  }

  /** sem_create, with n threads about. */
  function Create(n: nat, initial: nat): Sem {
    Sem(initial, [], seq(n, _ => Away))
  }

  lemma {:induction false} StepsInv(s: Sem, acts: seq<Action>, s': Sem)
    requires Inv(s) && Steps(s, acts, s')
    ensures Inv(s')
    decreases |acts|
  {
    if acts != [] {
      hide Inv;
      StepInv(s, acts[0]);
      StepsInv(Exec(s, acts[0]), acts[1..], s');
    }
  }

  /** How many calls of P return in the run: those after whose step the thread is away again. */
  ghost function Returned(s: Sem, acts: seq<Action>): nat
    decreases |acts|
  {
    if acts == [] || !Enabled(s, acts[0]) then 0
    else
      var s1 := Exec(s, acts[0]);
      (if acts[0].P? && acts[0].t < |s1.threads| && s1.threads[acts[0].t] == Away then 1 else 0)
        + Returned(s1, acts[1..])
  }

  /** How many calls of V there are in the run. */
  function Raised(acts: seq<Action>): nat {
    if acts == [] then 0 else (if acts[0].V? then 1 else 0) + Raised(acts[1..])
  }

  lemma {:induction false} CountInRun(s: Sem, acts: seq<Action>, s': Sem)
    requires Steps(s, acts, s')
    ensures s'.count + Returned(s, acts) == s.count + Raised(acts)
    decreases |acts|
  {
    if acts != [] {
      CountInRun(Exec(s, acts[0]), acts[1..], s');
    }
  }

  /** The count is the initial one plus the calls of V minus the calls of P that have returned. */
  lemma CountIsExact(n: nat, initial: nat, acts: seq<Action>, s: Sem)
    requires Steps(Create(n, initial), acts, s)
    ensures s.count == initial + Raised(acts) - Returned(Create(n, initial), acts)
  {
    CountInRun(Create(n, initial), acts, s);
  }

  /** No lost wakeups: while threads sleep, as many woken threads as the count are still to try again. */
  lemma NoLostWakeups(n: nat, initial: nat, acts: seq<Action>, s: Sem)
    requires Steps(Create(n, initial), acts, s) && s.queue != []
    ensures Count(s.threads, Woken) >= s.count
    ensures s.count > 0 ==> exists t | 0 <= t < |s.threads| :: s.threads[t] == Woken
    ensures forall t | 0 <= t < |s.threads| :: s.threads[t] == Asleep <==> t in s.queue
  {
    StepsInv(Create(n, initial), acts, s);
    if forall t | 0 <= t < |s.threads| :: s.threads[t] != Woken {
      CountNone(s.threads, Woken);
    }
  }
}

module Locks {
  import opened WaitChannels

  /** holder is lk_holder, or -1. */
  datatype Lock = Lock(taken: bool, holder: int, queue: seq<nat>, threads: seq<PC>)

  datatype Action = Acquire(t: nat) | Release(t: nat)

  /** lock_release does not look at who calls it. */
  predicate Enabled(s: Lock, a: Action) {
    && a.t < |s.threads|
    && match a
       case Acquire(t) => s.threads[t] == Away || s.threads[t] == Woken
       case Release(t) =>
         (s.threads[t] == Away || s.threads[t] == Inside) && (s.queue != [] ==> s.queue[0] < |s.threads|)
  }

  function Exec(s: Lock, a: Action): Lock
    requires Enabled(s, a)
  {
    match a
    case Acquire(t) =>
      if s.taken then s.(queue := s.queue + [t], threads := s.threads[t := Asleep])
      else s.(taken := true, holder := t, threads := s.threads[t := Inside])
    case Release(t) =>
      var s1 := s.(taken := false, holder := -1, threads := s.threads[t := Away]);
      if s.queue == [] then s1
      else s1.(queue := s.queue[1..], threads := s1.threads[s.queue[0] := Woken])
  }

  /** A free lock with sleepers has a woken thread that is still to try again. */
  ghost predicate Wakeful(s: Lock) {
    QueueOk(s.queue, s.threads) && (!s.taken && s.queue != [] ==> Count(s.threads, Woken) > 0)
  }

  /** The lock is taken exactly when a thread is inside, which is then the holder. */
  ghost predicate Exclusive(s: Lock) {
    && (s.taken ==> 0 <= s.holder < |s.threads| && s.threads[s.holder] == Inside)
    && (!s.taken ==> s.holder == -1)
    && (forall t | 0 <= t < |s.threads| && s.threads[t] == Inside :: s.taken && s.holder == t)
  }

  lemma AcquireWakeful(s: Lock, t: nat)
    requires Wakeful(s) && Enabled(s, Acquire(t))
    ensures Wakeful(Exec(s, Acquire(t)))
  {
    if s.taken {
      Sleeps(s.queue, s.threads, t);
    } else {
      Moves(s.queue, s.threads, t, Inside);
    }
  }

  lemma ReleaseWakeful(s: Lock, t: nat)
    requires Wakeful(s) && Enabled(s, Release(t))
    ensures Wakeful(Exec(s, Release(t)))
  {
    var ths := s.threads[t := Away];
    Moves(s.queue, s.threads, t, Away);
    if s.queue != [] {
      Wakes(s.queue, ths);
      CountAt(ths[s.queue[0] := Woken], s.queue[0], Woken);
    }
  }

  lemma StepWakeful(s: Lock, a: Action)
    requires Wakeful(s) && Enabled(s, a)
    ensures Wakeful(Exec(s, a))
  {
    match a
    case Acquire(t) => AcquireWakeful(s, t);
    case Release(t) => ReleaseWakeful(s, t);
  }

  lemma AcquireExclusive(s: Lock, t: nat)
    requires Exclusive(s) && Enabled(s, Acquire(t))
    ensures Exclusive(Exec(s, Acquire(t)))
  {
  }

  /** lock_release keeps mutual exclusion exactly if the caller holds the lock, or nobody does. */
  lemma ReleaseExclusive(s: Lock, t: nat)
    requires Exclusive(s) && QueueOk(s.queue, s.threads) && Enabled(s, Release(t))
    ensures Exclusive(Exec(s, Release(t))) <==> !s.taken || s.holder == t
  {
    var s' := Exec(s, Release(t));
    if s.queue != [] {
      assert s.threads[s.queue[0]] == Asleep;
    }
    if s.taken && s.holder != t {
      assert s'.threads[s.holder] == Inside;
    }
  }

  ghost predicate Steps(s: Lock, acts: seq<Action>, s': Lock)
    decreases |acts|
  {
    if acts == [] then s' == s else Enabled(s, acts[0]) && Steps(Exec(s, acts[0]), acts[1..], s')
  }

  /** Every release in the run is by the holder, or of a free lock. */
  ghost predicate HolderOnly(s: Lock, acts: seq<Action>)
    decreases |acts|
  {
    acts == [] || (Enabled(s, acts[0])
                   && (acts[0].Release? && s.taken ==> s.holder == acts[0].t)
                   && HolderOnly(Exec(s, acts[0]), acts[1..]))
  }

  function Create(n: nat): Lock {
    Lock(false, -1, [], seq(n, _ => Away))
  }

  lemma {:induction false} StepsWakeful(s: Lock, acts: seq<Action>, s': Lock)
    requires Wakeful(s) && Steps(s, acts, s')
    ensures Wakeful(s')
    decreases |acts|
  {
    if acts != [] {
      hide Wakeful;
      StepWakeful(s, acts[0]);
      StepsWakeful(Exec(s, acts[0]), acts[1..], s');
    }
  }

  /** No lost wakeups, whoever releases: a free lock with sleepers has a woken thread that has yet to try again. */
  lemma NoLostWakeups(n: nat, acts: seq<Action>, s: Lock)
    requires Steps(Create(n), acts, s) && !s.taken && s.queue != []
    ensures exists t | 0 <= t < |s.threads| :: s.threads[t] == Woken
    ensures forall t | 0 <= t < |s.threads| :: s.threads[t] == Asleep <==> t in s.queue
  {
    StepsWakeful(Create(n), acts, s);
    if forall t | 0 <= t < |s.threads| :: s.threads[t] != Woken {
      CountNone(s.threads, Woken);
    }
  }

  lemma StepExclusive(s: Lock, a: Action)
    requires Exclusive(s) && QueueOk(s.queue, s.threads) && Enabled(s, a)
    requires a.Release? && s.taken ==> s.holder == a.t
    ensures Exclusive(Exec(s, a))
  {
    match a
    case Acquire(t) => AcquireExclusive(s, t);
    case Release(t) => ReleaseExclusive(s, t);
  }

  lemma {:induction false} StepsExclusive(s: Lock, acts: seq<Action>, s': Lock)
    requires Wakeful(s) && Exclusive(s) && Steps(s, acts, s') && HolderOnly(s, acts)
    ensures Exclusive(s')
    decreases |acts|
  {
    if acts != [] {
      assert QueueOk(s.queue, s.threads);
      hide Exclusive, Wakeful;
      StepWakeful(s, acts[0]);
      StepExclusive(s, acts[0]);
      StepsExclusive(Exec(s, acts[0]), acts[1..], s');
    }
  }

  /** Mutual exclusion, when only the holder releases. */
  lemma MutualExclusion(n: nat, acts: seq<Action>, s: Lock, t: nat, u: nat)
    requires Steps(Create(n), acts, s) && HolderOnly(Create(n), acts)
    requires t < |s.threads| && u < |s.threads| && s.threads[t] == Inside && s.threads[u] == Inside
    ensures t == u && s.taken && s.holder == t
  {
    StepsExclusive(Create(n), acts, s);
  }

  /** Without that, two threads can be inside. */
  lemma TwoInside()
    ensures var acts := [Acquire(0), Release(1), Acquire(1)];
            exists s :: Steps(Create(2), acts, s) && |s.threads| == 2 && s.threads[0] == Inside
              && s.threads[1] == Inside
  {
    var s0 := Create(2);
    var s1 := Exec(s0, Acquire(0));
    var s2 := Exec(s1, Release(1));
    var s3 := Exec(s2, Acquire(1));
    var acts := [Acquire(0), Release(1), Acquire(1)];
    assert acts[1..] == [Release(1), Acquire(1)] && acts[1..][1..] == [Acquire(1)] && acts[1..][1..][1..] == [];
    assert Steps(s3, [], s3);
    assert Steps(s2, [Acquire(1)], s3);
    assert Steps(s1, [Release(1), Acquire(1)], s3);
    assert Steps(s0, acts, s3);
  }
}
