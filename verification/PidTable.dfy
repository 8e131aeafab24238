/**
 Waiting for processes: the pid table of src/kern/proc/proc.c and the condition variable under it
 (src/kern/thread/synch.c), as steps of threads.

 pidTable->plock is a lock whose holder is owner; a blocked lock_acquire is a step that cannot be taken yet.
 cv_wait takes the condition variable's spinlock, releases plock, and gives up the spinlock only when it is on
 the wait channel; cv_broadcast takes the same spinlock.  spin is the thread that has it, or -1.
 */
module PidTable {

  const PID_MIN: nat := 2
  const PID_MAX: nat := 32767

  datatype Status = Unused | Running | Zombie | Available

  datatype PC =
    | Away
    // proc_waitpid
    | WaitLock(p: nat, reap: bool)    // lock_acquire
    | WaitTest(p: nat, reap: bool)    // has plock, looks at the status
    | CvSpin(p: nat, reap: bool)      // cv_wait: about to take the spinlock
    | CvRelease(p: nat, reap: bool)   // has the spinlock, about to release plock
    | CvSleep(p: nat, reap: bool)     // about to go to sleep
    | Asleep(p: nat, reap: bool)
    | Woken(p: nat, reap: bool)       // made runnable, to take and give up the spinlock
    | ReapLock(p: nat)
    | ReapSet(p: nat)                 // has plock, about to make the slot available
    // proc_exit
    | ExitLock(p: nat)
    | ExitSet(p: nat)                 // has plock, about to become a zombie
    | ExitSpin                        // cv_broadcast: about to take the spinlock
    | ExitWake                        // has it, about to wake everybody
    | ExitRelease                     // about to release plock
    // addPidEntry
    | AddLock
    | AddSet

  datatype State = State(status: seq<Status>, first: int, owner: int, spin: int, threads: seq<PC>)

  // ---------------------------------------------------------------- findFirstFreePid

  predicate Free(st: Status) {
    st == Unused || st == Available
  }

  /** The least free slot from i on, or -1. */
  function LeastFree(status: seq<Status>, i: nat): (r: int)
    requires |status| > PID_MAX && i <= PID_MAX
    ensures r == -1 || (i <= r < PID_MAX && Free(status[r]) && forall k | i <= k < r :: !Free(status[k]))
    ensures r == -1 <==> forall k | i <= k < PID_MAX :: !Free(status[k])
    decreases PID_MAX - i
  {
    if i == PID_MAX then -1 else if Free(status[i]) then i else LeastFree(status, i + 1)
  }

  method FindFirstFreePid(status: seq<Status>) returns (first: int)
    requires |status| > PID_MAX
    ensures first == LeastFree(status, PID_MIN)
  {
    var i := PID_MIN;
    while i < PID_MAX
      invariant PID_MIN <= i <= PID_MAX && LeastFree(status, i) == LeastFree(status, PID_MIN)
    {
      if status[i] == Unused || status[i] == Available {
        return i;
      }
      i := i + 1;
    }
    return -1;
  }

  // ---------------------------------------------------------------- the steps

  datatype Action = Call(t: nat, pc: PC) | Step(t: nat)

  /** The thread will reap pid p. */
  predicate Reaps(pc: PC, p: nat) {
    match pc
    case WaitLock(q, reap) => reap && q == p
    case WaitTest(q, reap) => reap && q == p
    case CvSpin(q, reap) => reap && q == p
    case CvRelease(q, reap) => reap && q == p
    case CvSleep(q, reap) => reap && q == p
    case Asleep(q, reap) => reap && q == p
    case Woken(q, reap) => reap && q == p
    case ReapLock(q) => q == p
    case ReapSet(q) => q == p
    case _ => false
  }

  /** The thread is process p on its way out. */
  predicate Exits(pc: PC, p: nat) {
    (pc.ExitLock? || pc.ExitSet?) && pc.p == p
  }

  /** Where a thread may enter: any number may wait for a pid, one of them to reap it; a process exits once. */
  predicate Entry(s: State, pc: PC) {
    match pc
    case WaitLock(p, reap) => p < |s.status| && (reap ==> forall u | 0 <= u < |s.threads| :: !Reaps(s.threads[u], p))
    case ExitLock(p) =>
      p < |s.status| && s.status[p] == Running && forall u | 0 <= u < |s.threads| :: !Exits(s.threads[u], p)
    case AddLock => true
    case _ => false
  }

  predicate Enabled(s: State, a: Action) {
    && a.t < |s.threads| && |s.status| > PID_MAX
    && match a
       case Call(t, pc) => s.threads[t] == Away && Entry(s, pc)
       case Step(t) =>
         match s.threads[t]
         case Away => false
         case Asleep(_, _) => false
         case WaitLock(_, _) => s.owner < 0
         case ReapLock(_) => s.owner < 0
         case ExitLock(_) => s.owner < 0
         case AddLock => s.owner < 0
         case CvSpin(_, _) => s.spin < 0
         case Woken(_, _) => s.spin < 0
         case ExitSpin => s.spin < 0
         case WaitTest(p, _) => p < |s.status|
         case ReapSet(p) => p < |s.status|
         case ExitSet(p) => p < |s.status|
         case AddSet => s.first < |s.status|
         case _ => true
  }

  /** wchan_wakeall. */
  function WakeAll(ths: seq<PC>): (r: seq<PC>)
    ensures |r| == |ths|
    ensures forall t | 0 <= t < |ths| :: r[t] == if ths[t].Asleep? then Woken(ths[t].p, ths[t].reap) else ths[t]
  {
    if ths == [] then []
    else [if ths[0].Asleep? then Woken(ths[0].p, ths[0].reap) else ths[0]] + WakeAll(ths[1..])
  }

  function Go(s: State, t: nat, pc: PC): State
    requires t < |s.threads|
  {
    s.(threads := s.threads[t := pc])
  }

  function Exec(s: State, a: Action): State
    requires Enabled(s, a)
  {
    match a
    case Call(t, pc) => Go(s, t, pc)
    case Step(t) =>
      match s.threads[t]
      case WaitLock(p, reap) => Go(s, t, WaitTest(p, reap)).(owner := t)
      case WaitTest(p, reap) =>
        if s.status[p] != Zombie then Go(s, t, CvSpin(p, reap))
        else Go(s, t, if reap then ReapLock(p) else Away).(owner := -1)
      case CvSpin(p, reap) => Go(s, t, CvRelease(p, reap)).(spin := t)
      case CvRelease(p, reap) => Go(s, t, CvSleep(p, reap)).(owner := -1)
      case CvSleep(p, reap) => Go(s, t, Asleep(p, reap)).(spin := -1)
      case Woken(p, reap) => Go(s, t, WaitLock(p, reap))
      case ReapLock(p) => Go(s, t, ReapSet(p)).(owner := t)
      case ReapSet(p) =>
        var status := s.status[p := Available];
        Go(s, t, Away).(status := status, first := LeastFree(status, PID_MIN), owner := -1)
      case ExitLock(p) => Go(s, t, ExitSet(p)).(owner := t)
      case ExitSet(p) => Go(s, t, ExitSpin).(status := s.status[p := Zombie])
      case ExitSpin => Go(s, t, ExitWake).(spin := t)
      case ExitWake => s.(threads := WakeAll(s.threads)[t := ExitRelease], spin := -1)
      case ExitRelease => Go(s, t, Away).(owner := -1)
      case AddLock => Go(s, t, AddSet).(owner := t)
      case AddSet =>
        if s.first < 0 then Go(s, t, Away).(owner := -1)
        else
          var status := s.status[s.first := Running];
          Go(s, t, Away).(status := status, first := LeastFree(status, PID_MIN), owner := -1)
  }

  // ---------------------------------------------------------------- the invariant

  predicate HasLock(pc: PC) {
    pc.WaitTest? || pc.CvSpin? || pc.CvRelease? || pc.ReapSet? || pc.ExitSet? || pc.ExitSpin? || pc.ExitWake?
    || pc.ExitRelease? || pc.AddSet?
  }

  predicate HasSpin(pc: PC) {
    pc.CvRelease? || pc.CvSleep? || pc.ExitWake?
  }

  /** In cv_wait, past the release of plock and not yet woken. */
  predicate Waiting(pc: PC) {
    pc.CvSleep? || pc.Asleep?
  }

  predicate Names(pc: PC) {
    pc.WaitLock? || pc.WaitTest? || pc.CvSpin? || pc.CvRelease? || pc.CvSleep? || pc.Asleep? || pc.Woken?
    || pc.ReapLock? || pc.ReapSet? || pc.ExitLock? || pc.ExitSet?
  }

  /** The holder of plock is about to wake everybody. */
  ghost predicate WakeComing(s: State) {
    0 <= s.owner < |s.threads| && (s.threads[s.owner].ExitSpin? || s.threads[s.owner].ExitWake?)
  }

  ghost predicate ThreadOk(s: State, t: nat)
    requires t < |s.threads|
  {
    var pc := s.threads[t];
    && (HasLock(pc) <==> s.owner == t)
    && (HasSpin(pc) <==> s.spin == t)
    && (Names(pc) ==> pc.p < |s.status|)
    && (pc.CvSpin? || pc.CvRelease? ==> s.status[pc.p] != Zombie)
    && (Waiting(pc) && s.status[pc.p] == Zombie ==> WakeComing(s))
    && (pc.ReapLock? || pc.ReapSet? ==> s.status[pc.p] == Zombie)
    && (pc.ExitLock? || pc.ExitSet? ==> s.status[pc.p] == Running)
  }

  /** One reaper and one exit per pid. */
  ghost predicate Alone(s: State) {
    forall t, u, p | 0 <= t < |s.threads| && 0 <= u < |s.threads| && t != u ::
      && !(Reaps(s.threads[t], p) && Reaps(s.threads[u], p))
      && !(Exits(s.threads[t], p) && Exits(s.threads[u], p))
  }

  ghost predicate Inv(s: State) {
    && |s.status| > PID_MAX && s.owner < |s.threads| && s.spin < |s.threads|
    && s.first == LeastFree(s.status, PID_MIN)
    && (forall t | 0 <= t < |s.threads| :: ThreadOk(s, t))
    && Alone(s)
  }

  // ---------------------------------------------------------------- every step keeps the invariant

  /** Only thread t moves; the locks change hands only between nobody and t. */
  ghost predicate Moves(s: State, s': State, t: nat)
    requires t < |s.threads|
  {
    && |s'.threads| == |s.threads| && |s'.status| == |s.status|
    && (forall u | 0 <= u < |s.threads| && u != t :: s'.threads[u] == s.threads[u])
    && (s'.owner == s.owner || (s.owner < 0 && s'.owner == t) || (s.owner == t && s'.owner < 0))
    && (s'.spin == s.spin || (s.spin < 0 && s'.spin == t) || (s.spin == t && s'.spin < 0))
  }

  /** The status of a slot that another thread relies on is the same, and no slot becomes a zombie's. */
  ghost predicate Steady(s: State, s': State, t: nat)
    requires t < |s.threads| && |s'.status| == |s.status|
  {
    && (forall p | 0 <= p < |s.status| && s'.status[p] == Zombie :: s.status[p] == Zombie)
    && (forall u | 0 <= u < |s.threads| && u != t ::
          var pc := s.threads[u];
          pc.ReapLock? || pc.ReapSet? || pc.ExitLock? || pc.ExitSet? ==>
            pc.p < |s.status| && s'.status[pc.p] == s.status[pc.p])
  }

  lemma OthersOk(s: State, s': State, t: nat, u: nat)
    requires Inv(s) && t < |s.threads| && Moves(s, s', t) && u < |s.threads| && u != t
    requires Steady(s, s', t) && (WakeComing(s) ==> WakeComing(s'))
    ensures ThreadOk(s', u)
  {
    hide Alone;
    assert ThreadOk(s, u) && ThreadOk(s, t);
  }

  lemma AloneKept(s: State, s': State, t: nat)
    requires Alone(s) && t < |s.threads| && Moves(s, s', t)
    requires forall p ::
               (Reaps(s'.threads[t], p) ==> Reaps(s.threads[t], p))
               && (Exits(s'.threads[t], p) ==> Exits(s.threads[t], p))
    ensures Alone(s')
  {
  }

  lemma PlainStep(s: State, s': State, t: nat)
    requires Inv(s) && t < |s.threads| && Moves(s, s', t) && s'.owner < |s.threads| && s'.spin < |s.threads|
    requires Steady(s, s', t) && (WakeComing(s) ==> WakeComing(s')) && Alone(s')
    requires s'.first == LeastFree(s'.status, PID_MIN)
    requires ThreadOk(s', t)
    ensures Inv(s')
  {
    hide Alone, Steady;
    forall u | 0 <= u < |s'.threads|
      ensures ThreadOk(s', u)
    {
      if u != t {
        OthersOk(s, s', t, u);
      }
    }
  }

  predicate ExitStep(pc: PC) {
    pc.ExitSet? || pc.ExitSpin? || pc.ExitWake?
  }

  predicate TableStep(pc: PC) {
    pc.ReapSet? || pc.AddSet?
  }

  lemma CallInv(s: State, t: nat, pc: PC)
    requires Inv(s) && Enabled(s, Call(t, pc))
    ensures Inv(Exec(s, Call(t, pc)))
  {
    assert ThreadOk(s, t);
    var s' := Exec(s, Call(t, pc));
    hide LeastFree;
    assert Alone(s');
    hide Alone, Steady;
    SteadySame(s, s', t);
    PlainStep(s, s', t);
  }

  predicate Relies(pc: PC) {
    pc.ReapLock? || pc.ReapSet? || pc.ExitLock? || pc.ExitSet?
  }

  lemma InTable(s: State)
    requires Inv(s)
    ensures forall u | 0 <= u < |s.threads| && Relies(s.threads[u]) :: s.threads[u].p < |s.status|
  {
    forall u | 0 <= u < |s.threads| && Relies(s.threads[u])
      ensures s.threads[u].p < |s.status|
    {
      assert ThreadOk(s, u);
    }
  }

  lemma SteadySame(s: State, s': State, t: nat)
    requires Inv(s) && t < |s.threads| && s'.status == s.status
    ensures Steady(s, s', t)
  {
    InTable(s);
    hide Alone;
  }

  lemma WaitMoves(s: State, t: nat)
    requires Inv(s) && Enabled(s, Step(t)) && !ExitStep(s.threads[t]) && !TableStep(s.threads[t])
    ensures var s' := Exec(s, Step(t));
            && Moves(s, s', t) && s'.owner < |s.threads| && s'.spin < |s.threads| && s'.status == s.status
               && s'.first == s.first
  {
    assert ThreadOk(s, t);
    hide Alone, LeastFree;
  }

  lemma WaitAlone(s: State, t: nat)
    requires Enabled(s, Step(t)) && !ExitStep(s.threads[t]) && !TableStep(s.threads[t])
    ensures var s' := Exec(s, Step(t));
            forall p ::
              (Reaps(s'.threads[t], p) ==> Reaps(s.threads[t], p))
              && (Exits(s'.threads[t], p) ==> Exits(s.threads[t], p))
  {
    hide LeastFree;
  }

  predicate CvStep(pc: PC) {
    pc.CvSpin? || pc.CvRelease? || pc.CvSleep? || pc.Woken?
  }

  lemma CvSelf(s: State, s': State, t: nat)
    requires Inv(s) && Enabled(s, Step(t)) && CvStep(s.threads[t]) && s' == Exec(s, Step(t))
             && |s'.threads| == |s.threads|
    ensures ThreadOk(s', t) && (WakeComing(s) ==> WakeComing(s'))
  {
    hide Alone, LeastFree;
    assert ThreadOk(s, t);
    var pc := s.threads[t];
    if pc.CvSpin? {
      assert s' == Go(s, t, CvRelease(pc.p, pc.reap)).(spin := t);
    } else if pc.CvRelease? {
      assert s' == Go(s, t, CvSleep(pc.p, pc.reap)).(owner := -1);
    } else if pc.CvSleep? {
      assert s' == Go(s, t, Asleep(pc.p, pc.reap)).(spin := -1);
    } else {
      assert s' == Go(s, t, WaitLock(pc.p, pc.reap));
    }
  }

  lemma LockSelf(s: State, s': State, t: nat)
    requires Inv(s) && Enabled(s, Step(t)) && !ExitStep(s.threads[t]) && !TableStep(s.threads[t])
             && !CvStep(s.threads[t])
    requires s' == Exec(s, Step(t)) && |s'.threads| == |s.threads|
    ensures ThreadOk(s', t) && (WakeComing(s) ==> WakeComing(s'))
  {
    assert ThreadOk(s, t);
    hide Alone, LeastFree;
  }

  lemma MovesLength(s: State, s': State, t: nat)
    requires t < |s.threads| && Moves(s, s', t)
    ensures |s'.threads| == |s.threads|
  {
  }

  lemma WaitInv(s: State, t: nat)
    requires Inv(s) && Enabled(s, Step(t)) && !ExitStep(s.threads[t]) && !TableStep(s.threads[t])
    ensures Inv(Exec(s, Step(t)))
  {
    var s' := Exec(s, Step(t));
    hide Alone, Steady, Exec, Enabled, ThreadOk, WakeComing, Moves, Reaps, Exits;
    WaitMoves(s, t);
    WaitAlone(s, t);
    MovesLength(s, s', t);
    if CvStep(s.threads[t]) {
      CvSelf(s, s', t);
    } else {
      LockSelf(s, s', t);
    }
    AloneKept(s, s', t);
    SteadySame(s, s', t);
    PlainStep(s, s', t);
  }

  /** A slot that nobody relies on may change, but not to a zombie's. */
  lemma SteadyBut(s: State, s': State, t: nat, p: nat)
    requires Inv(s) && t < |s.threads| && p < |s.status| && |s'.status| == |s.status|
    requires s'.status == s.status[p := s'.status[p]] && s'.status[p] != Zombie
    requires forall u | 0 <= u < |s.threads| && u != t && Relies(s.threads[u]) :: s.threads[u].p != p
    ensures Steady(s, s', t)
  {
    InTable(s);
    hide Alone;
  }

  /** Making a slot available concerns no other reaper, and no exiting process. */
  lemma ReapSteady(s: State, t: nat)
    requires Inv(s) && t < |s.threads| && s.threads[t].ReapSet?
    ensures forall u | 0 <= u < |s.threads| && u != t && Relies(s.threads[u]) :: s.threads[u].p != s.threads[t].p
  {
    assert ThreadOk(s, t);
    var p := s.threads[t].p;
    forall u | 0 <= u < |s.threads| && u != t && Relies(s.threads[u])
      ensures s.threads[u].p != p
    {
      assert ThreadOk(s, u);
      assert Reaps(s.threads[t], p) && !Reaps(s.threads[u], p);
    }
  }

  lemma ReapSelf(s: State, s': State, t: nat)
    requires Inv(s) && Enabled(s, Step(t)) && s.threads[t].ReapSet? && s' == Exec(s, Step(t))
    ensures Moves(s, s', t) && s'.owner < |s.threads| && s'.spin < |s.threads|
    ensures s'.first == LeastFree(s'.status, PID_MIN) && s'.threads[t] == Away && s'.owner == -1 && s'.spin == s.spin
    ensures s'.status == s.status[s.threads[t].p := Available]
  {
    assert ThreadOk(s, t);
    hide Alone;
  }

  /** Leaving with plock, which is released. */
  lemma LeaveQuiet(s: State, s': State, t: nat)
    requires Inv(s) && t < |s.threads| && (s.threads[t].AddSet? || s.threads[t].ReapSet?) && Moves(s, s', t)
    requires s'.threads[t] == Away && s'.owner == -1 && s'.spin == s.spin
    ensures ThreadOk(s', t) && (WakeComing(s) ==> WakeComing(s'))
  {
    assert ThreadOk(s, t);
    hide Alone, LeastFree;
  }

  lemma ReapInv(s: State, t: nat)
    requires Inv(s) && Enabled(s, Step(t)) && s.threads[t].ReapSet?
    ensures Inv(Exec(s, Step(t)))
  {
    var s', p := Exec(s, Step(t)), s.threads[t].p;
    assert ThreadOk(s, t);
    hide Alone, Steady, Exec, Enabled, ThreadOk, WakeComing, LeastFree;
    ReapSelf(s, s', t);
    LeaveQuiet(s, s', t);
    AloneKept(s, s', t);
    ReapSteady(s, t);
    SteadyBut(s, s', t, p);
    PlainStep(s, s', t);
  }

  /** Giving a free slot to a new process concerns no reaper, and no exiting process. */
  lemma AddSteady(s: State, t: nat)
    requires Inv(s) && t < |s.threads| && s.first >= 0
    ensures forall u | 0 <= u < |s.threads| && Relies(s.threads[u]) :: s.threads[u].p != s.first
  {
    forall u | 0 <= u < |s.threads| && Relies(s.threads[u])
      ensures s.threads[u].p != s.first
    {
      assert ThreadOk(s, u);
    }
  }

  lemma AddSelf(s: State, s': State, t: nat)
    requires Inv(s) && Enabled(s, Step(t)) && s.threads[t].AddSet? && s' == Exec(s, Step(t))
    ensures Moves(s, s', t) && s'.owner < |s.threads| && s'.spin < |s.threads|
    ensures s'.first == LeastFree(s'.status, PID_MIN) && s'.threads[t] == Away && s'.owner == -1 && s'.spin == s.spin
    ensures s.first < 0 ==> s'.status == s.status
    ensures s.first >= 0 ==> s'.status == s.status[s.first := Running]
  {
    assert ThreadOk(s, t);
    hide Alone;
  }

  lemma AddInv(s: State, t: nat)
    requires Inv(s) && Enabled(s, Step(t)) && s.threads[t].AddSet?
    ensures Inv(Exec(s, Step(t)))
  {
    var s' := Exec(s, Step(t));
    hide Alone, Steady, Exec, Enabled, ThreadOk, WakeComing, LeastFree;
    AddSelf(s, s', t);
    LeaveQuiet(s, s', t);
    AloneKept(s, s', t);
    if s.first < 0 {
      SteadySame(s, s', t);
    } else {
      AddSteady(s, t);
      SteadyBut(s, s', t, s.first);
    }
    PlainStep(s, s', t);
  }

  /** The least free slot does not change when a running process becomes a zombie. */
  lemma {:induction false} SameLeast(status: seq<Status>, status': seq<Status>, i: nat)
    requires |status| == |status'| > PID_MAX && i <= PID_MAX
    requires forall k | 0 <= k < |status| :: Free(status'[k]) <==> Free(status[k])
    ensures LeastFree(status', i) == LeastFree(status, i)
    decreases PID_MAX - i
  {
    if i < PID_MAX {
      SameLeast(status, status', i + 1);
    }
  }

  /** Becoming a zombie: every sleeper is about to be woken, because plock is held until the broadcast. */
  lemma ExitSetInv(s: State, t: nat)
    requires Inv(s) && Enabled(s, Step(t)) && s.threads[t].ExitSet?
    ensures Inv(Exec(s, Step(t)))
  {
    assert ThreadOk(s, t);
    var s', p := Exec(s, Step(t)), s.threads[t].p;
    assert WakeComing(s');
    AloneKept(s, s', t);
    SameLeast(s.status, s'.status, PID_MIN);
    forall u | 0 <= u < |s'.threads|
      ensures ThreadOk(s', u)
    {
      assert ThreadOk(s, u);
      assert u != t ==> !Exits(s.threads[u], p);
    }
  }

  lemma ExitSpinInv(s: State, t: nat)
    requires Inv(s) && Enabled(s, Step(t)) && s.threads[t].ExitSpin?
    ensures Inv(Exec(s, Step(t)))
  {
    assert ThreadOk(s, t);
    var s' := Exec(s, Step(t));
    AloneKept(s, s', t);
    SteadySame(s, s', t);
    hide Alone, Steady;
    PlainStep(s, s', t);
  }

  lemma WakeAlone(s: State, s': State, t: nat)
    requires Alone(s) && t < |s.threads| && s.threads[t].ExitWake? && s'.threads == WakeAll(s.threads)[t := ExitRelease]
    ensures Alone(s')
  {
    forall u, p | 0 <= u < |s'.threads|
      ensures (Reaps(s'.threads[u], p) ==> Reaps(s.threads[u], p))
              && (Exits(s'.threads[u], p) ==> Exits(s.threads[u], p))
    {
    }
    hide Reaps, Exits, WakeAll;
  }

  /** The broadcast finds every waiter on the wait channel: nobody is between releasing plock and going to sleep. */
  lemma ExitWakeInv(s: State, t: nat)
    requires Inv(s) && Enabled(s, Step(t)) && s.threads[t].ExitWake?
    ensures Inv(Exec(s, Step(t)))
    ensures forall u | 0 <= u < |s.threads| :: !Waiting(Exec(s, Step(t)).threads[u])
  {
    assert ThreadOk(s, t);
    var s' := Exec(s, Step(t));
    WakeAlone(s, s', t);
    hide Alone, WakeAll, LeastFree;
    forall u | 0 <= u < |s'.threads|
      ensures ThreadOk(s', u) && !Waiting(s'.threads[u])
    {
      assert ThreadOk(s, u);
    }
  }

  lemma StepInv(s: State, a: Action)
    requires Inv(s) && Enabled(s, a)
    ensures Inv(Exec(s, a))
  {
    hide Inv, Exec;
    if a.Call? {
      CallInv(s, a.t, a.pc);
    } else if s.threads[a.t].ExitSet? {
      ExitSetInv(s, a.t);
    } else if s.threads[a.t].ExitSpin? {
      ExitSpinInv(s, a.t);
    } else if s.threads[a.t].ExitWake? {
      ExitWakeInv(s, a.t);
    } else if s.threads[a.t].ReapSet? {
      ReapInv(s, a.t);
    } else if s.threads[a.t].AddSet? {
      AddInv(s, a.t);
    } else {
      WaitInv(s, a.t);
    }
  }

  // ---------------------------------------------------------------- runs

  ghost predicate Steps(s: State, acts: seq<Action>, s': State)
    decreases |acts|
  {
    if acts == [] then s' == s else Enabled(s, acts[0]) && Steps(Exec(s, acts[0]), acts[1..], s')
  }

  /** pid_table_init, with n threads about: pid 1 is the kernel's. */
  function Start(n: nat): State {
    State(seq(PID_MAX + 1, p => if p == 1 then Running else Unused), PID_MIN, -1, -1, seq(n, _ => Away))
  }

  lemma StartInv(n: nat)
    ensures Inv(Start(n))
  {
    var s := Start(n);
    assert Free(s.status[PID_MIN]);
  }

  lemma {:induction false} StepsInv(s: State, acts: seq<Action>, s': State)
    requires Inv(s) && Steps(s, acts, s')
    ensures Inv(s')
    decreases |acts|
  {
    if acts != [] {
      hide Inv, Exec, Enabled;
      StepInv(s, acts[0]);
      StepsInv(Exec(s, acts[0]), acts[1..], s');
    }
  }

  ghost predicate Reachable(s: State) {
    exists n, acts :: Steps(Start(n), acts, s)
  }

  lemma ReachableInv(s: State)
    requires Reachable(s)
    ensures Inv(s)
  {
    var n, acts :| Steps(Start(n), acts, s);
    StartInv(n);
    StepsInv(Start(n), acts, s);
  }

  /** When plock is free, nobody sleeps, or is about to sleep, waiting for a zombie. */
  lemma NobodySleepsOnZombie(s: State, t: nat)
    requires Reachable(s) && s.owner < 0 && t < |s.threads| && Waiting(s.threads[t])
    ensures s.threads[t].p < |s.status| && s.status[s.threads[t].p] != Zombie
  {
    ReachableInv(s);
    assert ThreadOk(s, t);
  }

  /** No broadcast falls between a waiter's release of plock and its going to sleep: it wakes every waiter. */
  lemma BroadcastReachesAll(s: State, t: nat, u: nat)
    requires Reachable(s) && t < |s.threads| && u < |s.threads| && s.threads[t].ExitWake?
    ensures !s.threads[u].CvSleep?
    ensures Enabled(s, Step(t)) && !Waiting(Exec(s, Step(t)).threads[u])
  {
    ReachableInv(s);
    assert ThreadOk(s, t) && ThreadOk(s, u);
    ExitWakeInv(s, t);
  }

  /** firstFreePid is the least free slot, or -1 if there is none. */
  lemma FirstFreeIsLeast(s: State)
    requires Reachable(s)
    ensures |s.status| > PID_MAX
    ensures s.first == -1 || (PID_MIN <= s.first < PID_MAX && Free(s.status[s.first])
                                 && forall k | PID_MIN <= k < s.first :: !Free(s.status[k]))
    ensures s.first == -1 <==> forall k | PID_MIN <= k < PID_MAX :: !Free(s.status[k])
  {
    ReachableInv(s);
  }

  /** A process is given a slot that was free, and reaped only as a zombie. */
  lemma SlotsUsedWell(s: State, t: nat)
    requires Reachable(s) && t < |s.threads| && Enabled(s, Step(t))
    ensures s.threads[t].AddSet? && s.first >= 0 ==> Free(s.status[s.first])
    ensures s.threads[t].ReapSet? ==> s.status[s.threads[t].p] == Zombie
    ensures s.threads[t].ExitSet? ==> s.status[s.threads[t].p] == Running
    ensures var s', pc := Exec(s, Step(t)), s.threads[t];
            s'.status == if pc.AddSet? && s.first >= 0 then s.status[s.first := Running]
                         else if pc.ExitSet? then s.status[pc.p := Zombie]
                         else if pc.ReapSet? then s.status[pc.p := Available]
                         else s.status
  {
    ReachableInv(s);
    assert ThreadOk(s, t);
    hide LeastFree, Alone;
  }

  // ---------------------------------------------------------------- which waiters return

  /** The step makes slot p available. */
  predicate ReapsNow(s: State, a: Action, p: nat) {
    a.Step? && a.t < |s.threads| && s.threads[a.t] == ReapSet(p)
  }

  /** The step gives slot p to a new process. */
  predicate AddsNow(s: State, a: Action, p: nat) {
    a.Step? && a.t < |s.threads| && s.threads[a.t] == AddSet && s.first == p
  }

  ghost predicate Reaped(s: State, acts: seq<Action>, p: nat)
    decreases |acts|
  {
    acts != [] && Enabled(s, acts[0]) && (ReapsNow(s, acts[0], p) || Reaped(Exec(s, acts[0]), acts[1..], p))
  }

  ghost predicate Reused(s: State, acts: seq<Action>, p: nat)
    decreases |acts|
  {
    acts != [] && Enabled(s, acts[0]) && (AddsNow(s, acts[0], p) || Reused(Exec(s, acts[0]), acts[1..], p))
  }

  /** A zombie stays one until it is reaped, and what was reaped stays available until its slot is used again. */
  lemma SlotStep(s: State, a: Action, p: nat)
    requires Inv(s) && Enabled(s, a) && p < |s.status|
    ensures |Exec(s, a).status| == |s.status|
    ensures s.status[p] == Zombie ==> Exec(s, a).status[p] == if ReapsNow(s, a, p) then Available else Zombie
    ensures s.status[p] == Available && !AddsNow(s, a, p) ==> Exec(s, a).status[p] == Available
  {
    hide Inv;
    SlotFacts(s, a.t);
    hide LeastFree, WakeAll, Entry;
  }

  lemma SlotFacts(s: State, t: nat)
    requires Inv(s) && t < |s.threads|
    ensures s.first >= 0 ==> s.first < |s.status| && Free(s.status[s.first])
    ensures s.threads[t].ExitSet? ==> s.threads[t].p < |s.status| && s.status[s.threads[t].p] == Running
  {
    assert ThreadOk(s, t);
    hide Alone, WakeComing;
  }

  lemma {:induction false} AvailableStays(s: State, acts: seq<Action>, s': State, p: nat)
    requires Inv(s) && Steps(s, acts, s') && p < |s.status| && s.status[p] == Available && !Reused(s, acts, p)
    ensures p < |s'.status| && s'.status[p] == Available
    decreases |acts|
  {
    if acts != [] {
      hide Inv, Exec, Enabled;
      StepInv(s, acts[0]);
      SlotStep(s, acts[0], p);
      AvailableStays(Exec(s, acts[0]), acts[1..], s', p);
    }
  }

  /** Unless its slot is used again, a process is still a zombie exactly if nobody has reaped it. */
  lemma {:induction false} ZombieUnlessReaped(s: State, acts: seq<Action>, s': State, p: nat)
    requires Inv(s) && Steps(s, acts, s') && p < |s.status| && s.status[p] == Zombie && !Reused(s, acts, p)
    ensures p < |s'.status| && (s'.status[p] == Zombie <==> !Reaped(s, acts, p))
    decreases |acts|
  {
    if acts != [] {
      hide Inv, Exec, Enabled;
      StepInv(s, acts[0]);
      SlotStep(s, acts[0], p);
      if ReapsNow(s, acts[0], p) {
        AvailableStays(Exec(s, acts[0]), acts[1..], s', p);
      } else {
        ZombieUnlessReaped(Exec(s, acts[0]), acts[1..], s', p);
      }
    }
  }

  /**
   After its process has become a zombie, a waiter that looks at the status returns, or goes on to reap, exactly if
   nobody has reaped the process in the meantime, unless the slot was used again; otherwise it goes back to sleep.
   */
  lemma ReturnsUnlessReaped(s: State, acts: seq<Action>, s': State, t: nat)
    requires Reachable(s) && Steps(s, acts, s') && t < |s'.threads| && s'.threads[t].WaitTest?
    requires var p := s'.threads[t].p; p < |s.status| && s.status[p] == Zombie && !Reused(s, acts, p)
    ensures Enabled(s', Step(t))
    ensures var pc := s'.threads[t];
            var after := Exec(s', Step(t)).threads[t];
            && (Reaped(s, acts, pc.p) ==> after == CvSpin(pc.p, pc.reap))
            && (!Reaped(s, acts, pc.p) ==> after == if pc.reap then ReapLock(pc.p) else Away)
  {
    hide Steps, Reaped, Reused, Reachable, Inv;
    ReachableInv(s);
    ZombieUnlessReaped(s, acts, s', s'.threads[t].p);
    StepsInv(s, acts, s');
    TableSize(s');
  }

  lemma TableSize(s: State)
    requires Inv(s)
    ensures |s.status| > PID_MAX
  {
  }

  /** While t is the one that will reap p, only t makes the slot available. */
  lemma OnlyReaper(s: State, a: Action, t: nat, p: nat)
    requires Inv(s) && Enabled(s, a) && t < |s.threads| && Reaps(s.threads[t], p) && p < |s.status|
             && s.status[p] == Zombie
    ensures |Exec(s, a).threads| == |s.threads| && |Exec(s, a).status| == |s.status|
    ensures (a == Step(t) && s.threads[t] == ReapSet(p)) ||
            (Reaps(Exec(s, a).threads[t], p) && Exec(s, a).status[p] == Zombie && !Exec(s, a).threads[t].CvSpin?)
  {
    hide Inv, LeastFree;
    SlotStep(s, a, p);
    if a.t == t {
      ReaperStep(s, a, t, p);
    } else {
      OneReaper(s, a.t, t, p);
      StaysOrWoken(s, a, t);
      NotSpinning(s, t);
      hide Exec;
    }
  }

  lemma NotSpinning(s: State, t: nat)
    requires Inv(s) && t < |s.threads|
    ensures s.threads[t].CvSpin? ==> s.threads[t].p < |s.status| && s.status[s.threads[t].p] != Zombie
  {
    assert ThreadOk(s, t);
    hide Alone, WakeComing;
  }

  lemma OneReaper(s: State, t: nat, u: nat, p: nat)
    requires Inv(s) && t < |s.threads| && u < |s.threads| && t != u && Reaps(s.threads[u], p)
    ensures !Reaps(s.threads[t], p)
  {
    assert Alone(s);
    hide ThreadOk, LeastFree;
  }

  /** A step of another thread at most wakes t. */
  lemma StaysOrWoken(s: State, a: Action, t: nat)
    requires Enabled(s, a) && t < |s.threads| && t != a.t
    ensures |Exec(s, a).threads| == |s.threads|
    ensures var pc := s.threads[t];
            Exec(s, a).threads[t] == pc || (pc.Asleep? && Exec(s, a).threads[t] == Woken(pc.p, pc.reap))
  {
    hide LeastFree, Entry;
  }

  lemma ReaperStep(s: State, a: Action, t: nat, p: nat)
    requires Enabled(s, a) && a.t == t && Reaps(s.threads[t], p) && p < |s.status| && s.status[p] == Zombie
    ensures |Exec(s, a).threads| == |s.threads|
    ensures (a == Step(t) && s.threads[t] == ReapSet(p)) ||
            (Reaps(Exec(s, a).threads[t], p) && !Exec(s, a).threads[t].CvSpin?)
  {
    hide LeastFree, WakeAll, Entry;
  }

  /** t itself makes the slot available in the run. */
  ghost predicate ReapedBy(s: State, acts: seq<Action>, t: nat, p: nat)
    decreases |acts|
  {
    && acts != [] && Enabled(s, acts[0])
    && ((acts[0] == Step(t) && ReapsNow(s, acts[0], p)) || ReapedBy(Exec(s, acts[0]), acts[1..], t, p))
  }

  lemma {:induction false} ReaperRuns(s: State, acts: seq<Action>, s': State, t: nat, p: nat)
    requires Inv(s) && Steps(s, acts, s') && t < |s.threads| && Reaps(s.threads[t], p)
    requires p < |s.status| && s.status[p] == Zombie && !ReapedBy(s, acts, t, p)
    ensures t < |s'.threads| && Reaps(s'.threads[t], p) && p < |s'.status| && s'.status[p] == Zombie
    ensures acts != [] ==> !s'.threads[t].CvSpin?
    decreases |acts|
  {
    if acts != [] {
      hide Inv, Exec, Enabled;
      StepInv(s, acts[0]);
      OnlyReaper(s, acts[0], t, p);
      ReaperRuns(Exec(s, acts[0]), acts[1..], s', t, p);
    }
  }

  /**
   The waiter that is to reap a process is never missed: once the process is a zombie it stays one, and the waiter does
   not go back to sleep, until the waiter itself has reaped it.
   */
  lemma ReaperReturns(s: State, acts: seq<Action>, s': State, t: nat, p: nat)
    requires Reachable(s) && Steps(s, acts, s') && t < |s.threads| && Reaps(s.threads[t], p)
    requires p < |s.status| && s.status[p] == Zombie && !ReapedBy(s, acts, t, p)
    ensures t < |s'.threads| && Reaps(s'.threads[t], p) && p < |s'.status| && s'.status[p] == Zombie
    ensures acts != [] ==> !s'.threads[t].CvSpin?
  {
    hide Steps, ReapedBy, Reachable, Inv;
    ReachableInv(s);
    ReaperRuns(s, acts, s', t, p);
  }

  // ---------------------------------------------------------------- a waiter that is missed

  lemma {:induction false} Then(s: State, as1: seq<Action>, s1: State, as2: seq<Action>, s2: State)
    requires Steps(s, as1, s1) && Steps(s1, as2, s2)
    ensures Steps(s, as1 + as2, s2)
    decreases |as1|
  {
    hide Exec, Enabled;
    if as1 == [] {
      assert as1 + as2 == as2;
    } else {
      Then(Exec(s, as1[0]), as1[1..], s1, as2, s2);
      assert (as1 + as2)[1..] == as1[1..] + as2;
    }
  }

  lemma OneStep(s: State, a: Action)
    requires Enabled(s, a)
    ensures Steps(s, [a], Exec(s, a))
  {
    hide Exec;
    assert Steps(Exec(s, a), [a][1..], Exec(s, a));
  }

  /** Thread t steps once more. */
  lemma AndStep(s: State, acts: seq<Action>, s1: State, a: Action) returns (acts': seq<Action>)
    requires Steps(s, acts, s1) && Enabled(s1, a)
    ensures Steps(s, acts', Exec(s1, a))
  {
    hide Steps, Exec, Enabled;
    OneStep(s1, a);
    Then(s, acts, s1, [a], Exec(s1, a));
    acts' := acts + [a];
  }

  /** Nobody has a lock. */
  predicate Quiet(s: State) {
    s.owner == -1 && s.spin == -1 && |s.status| > PID_MAX
  }

  /** A waiter for a process that is no zombie goes to sleep. */
  lemma SleepRun(s: State, t: nat, p: nat, reap: bool) returns (acts: seq<Action>)
    requires Quiet(s) && t < |s.threads| && s.threads[t] == WaitLock(p, reap) && p < |s.status| && s.status[p] != Zombie
    ensures Steps(s, acts, Go(s, t, Asleep(p, reap)))
  {
    hide Steps, LeastFree;
    var a := Step(t);
    OneStep(s, a);
    acts := [a];
    var s1 := Exec(s, a);
    acts := AndStep(s, acts, s1, a);
    var s2 := Exec(s1, a);
    acts := AndStep(s, acts, s2, a);
    var s3 := Exec(s2, a);
    acts := AndStep(s, acts, s3, a);
    var s4 := Exec(s3, a);
    acts := AndStep(s, acts, s4, a);
    assert Exec(s4, a) == Go(s, t, Asleep(p, reap));
  }

  /** A waiter for a zombie reaps it. */
  lemma ReapRun(s: State, t: nat, p: nat) returns (acts: seq<Action>)
    requires Quiet(s) && t < |s.threads| && s.threads[t] == WaitLock(p, true) && p < |s.status| && s.status[p] == Zombie
    ensures var status := s.status[p := Available];
            Steps(s, acts, Go(s, t, Away).(status := status, first := LeastFree(status, PID_MIN)))
  {
    hide Steps, LeastFree;
    var a := Step(t);
    OneStep(s, a);
    acts := [a];
    var s1 := Exec(s, a);
    acts := AndStep(s, acts, s1, a);
    var s2 := Exec(s1, a);
    acts := AndStep(s, acts, s2, a);
    var s3 := Exec(s2, a);
    acts := AndStep(s, acts, s3, a);
    var status := s.status[p := Available];
    assert Exec(s3, a) == Go(s, t, Away).(status := status, first := LeastFree(status, PID_MIN));
  }

  /** A process exits and wakes everybody. */
  lemma ExitRun(s: State, t: nat, p: nat) returns (acts: seq<Action>)
    requires Quiet(s) && t < |s.threads| && s.threads[t] == ExitLock(p) && p < |s.status|
    ensures Steps(s, acts, s.(status := s.status[p := Zombie], threads := WakeAll(s.threads)[t := Away]))
  {
    hide Steps, LeastFree, WakeAll;
    var a := Step(t);
    OneStep(s, a);
    acts := [a];
    var s1 := Exec(s, a);
    acts := AndStep(s, acts, s1, a);
    var s2 := Exec(s1, a);
    acts := AndStep(s, acts, s2, a);
    var s3 := Exec(s2, a);
    acts := AndStep(s, acts, s3, a);
    var s4 := Exec(s3, a);
    acts := AndStep(s, acts, s4, a);
    assert s3.threads == s.threads[t := ExitWake];
    WakeOther(s.threads, t, ExitWake, ExitLock(p));
    assert Exec(s4, a) == s.(status := s.status[p := Zombie], threads := WakeAll(s.threads)[t := Away]);
  }

  lemma WakeOther(ths: seq<PC>, t: nat, pc: PC, was: PC)
    requires t < |ths| && ths[t] == was && !pc.Asleep? && !was.Asleep?
    ensures WakeAll(ths[t := pc])[t := ExitRelease][t := Away] == WakeAll(ths)[t := Away]
  {
  }

  /** A new process in the first free slot. */
  lemma AddRun(s: State, t: nat) returns (acts: seq<Action>)
    requires Quiet(s) && t < |s.threads| && s.threads[t] == AddLock && 0 <= s.first < |s.status|
    ensures var status := s.status[s.first := Running];
            Steps(s, acts, Go(s, t, Away).(status := status, first := LeastFree(status, PID_MIN)))
  {
    hide Steps, LeastFree;
    var a := Step(t);
    OneStep(s, a);
    acts := [a];
    var s1 := Exec(s, a);
    acts := AndStep(s, acts, s1, a);
    var status := s.status[s.first := Running];
    assert Exec(s1, a) == Go(s, t, Away).(status := status, first := LeastFree(status, PID_MIN));
  }

  /**
   A run of a waiter 0 that does not reap, a reaper 1 and a process of thread 2: the process exits and wakes the waiter,
   the reaper comes first, and the waiter goes back to sleep for a slot that is available.  No thread can step any more.
   */
  lemma MissedWaiter() returns (s: State)
    ensures Reachable(s) && s.threads == [Asleep(PID_MIN, false), Away, Away]
    ensures |s.status| > PID_MAX && s.status[PID_MIN] == Available
    ensures forall t: nat :: !Enabled(s, Step(t))
  {
    hide Steps, LeastFree, WakeAll;
    var p := PID_MIN;
    var s0 := Start(3);
    var s1, as1 := AddedOne(s0);
    var s2, as2 := CallAndSleep(s1);
    var s3, as3 := ExitedOne(s2);
    var s4, as4 := ReapedOne(s3);
    var s5, as5 := SleepsAgain(s4);
    Then(s0, as1, s1, as2, s2);
    Then(s0, as1 + as2, s2, as3, s3);
    Then(s0, as1 + as2 + as3, s3, as4, s4);
    Then(s0, as1 + as2 + as3 + as4, s4, as5, s5);
    assert Steps(Start(3), as1 + as2 + as3 + as4 + as5, s5);
    s := s5;
  }

  lemma AddedOne(s: State) returns (s': State, acts: seq<Action>)
    requires s == Start(3)
    ensures Steps(s, acts, s') && Quiet(s') && s'.threads == [Away, Away, Away] && s'.status[PID_MIN] == Running
  {
    hide Steps, LeastFree;
    var a := Call(2, AddLock);
    OneStep(s, a);
    var s1 := Exec(s, a);
    var more := AddRun(s1, 2);
    var status := s1.status[s1.first := Running];
    s' := Go(s1, 2, Away).(status := status, first := LeastFree(status, PID_MIN));
    Then(s, [a], s1, more, s');
    acts := [a] + more;
  }

  lemma CallAndSleep(s: State) returns (s': State, acts: seq<Action>)
    requires Quiet(s) && s.threads == [Away, Away, Away] && s.status[PID_MIN] == Running
    ensures Steps(s, acts, s') && s' == s.(threads := [Asleep(PID_MIN, false), Away, Away])
  {
    hide Steps;
    var a := Call(0, WaitLock(PID_MIN, false));
    OneStep(s, a);
    var s1 := Exec(s, a);
    var more := SleepRun(s1, 0, PID_MIN, false);
    s' := Go(s1, 0, Asleep(PID_MIN, false));
    Then(s, [a], s1, more, s');
    acts := [a] + more;
  }

  lemma ExitedOne(s: State) returns (s': State, acts: seq<Action>)
    requires Quiet(s) && s.threads == [Asleep(PID_MIN, false), Away, Away] && s.status[PID_MIN] == Running
    ensures Steps(s, acts, s')
    ensures s' == s.(threads := [Woken(PID_MIN, false), Away, Away], status := s.status[PID_MIN := Zombie])
  {
    hide Steps, WakeAll;
    var a := Call(2, ExitLock(PID_MIN));
    OneStep(s, a);
    var s1 := Exec(s, a);
    var more := ExitRun(s1, 2, PID_MIN);
    s' := s1.(status := s1.status[PID_MIN := Zombie], threads := WakeAll(s1.threads)[2 := Away]);
    Then(s, [a], s1, more, s');
    acts := [a] + more;
    assert s'.threads == [Woken(PID_MIN, false), Away, Away];
  }

  lemma ReapedOne(s: State) returns (s': State, acts: seq<Action>)
    requires Quiet(s) && s.threads == [Woken(PID_MIN, false), Away, Away] && s.status[PID_MIN] == Zombie
    ensures Steps(s, acts, s') && Quiet(s') && s'.threads == s.threads && s'.status == s.status[PID_MIN := Available]
  {
    hide Steps, LeastFree;
    var a := Call(1, WaitLock(PID_MIN, true));
    OneStep(s, a);
    var s1 := Exec(s, a);
    var more := ReapRun(s1, 1, PID_MIN);
    var status := s1.status[PID_MIN := Available];
    s' := Go(s1, 1, Away).(status := status, first := LeastFree(status, PID_MIN));
    Then(s, [a], s1, more, s');
    acts := [a] + more;
  }

  lemma SleepsAgain(s: State) returns (s': State, acts: seq<Action>)
    requires Quiet(s) && s.threads == [Woken(PID_MIN, false), Away, Away] && s.status[PID_MIN] == Available
    ensures Steps(s, acts, s') && s' == s.(threads := [Asleep(PID_MIN, false), Away, Away])
  {
    hide Steps;
    var a := Step(0);
    OneStep(s, a);
    var s1 := Exec(s, a);
    var more := SleepRun(s1, 0, PID_MIN, false);
    s' := Go(s1, 0, Asleep(PID_MIN, false));
    Then(s, [a], s1, more, s');
    acts := [a] + more;
  }
}
