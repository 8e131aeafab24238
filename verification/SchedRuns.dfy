/**
 What thread_switch (src/kern/thread/thread.c) promises to the thread that calls it, over whole runs: the level it
 comes back with, and what has to happen before it comes back.
 */
module SchedRuns {
  import opened Sched

  /** Thread t runs ordinary code on some CPU. */
  ghost predicate InBody(s: State, t: Tid) {
    exists c :: 0 <= c < |s.cpus| && s.cpus[c].cur == t && s.cpus[c].phase.Body?
  }

  // ---------------------------------------------------------------- the level of a thread that comes back

  /** t is inside thread_switch, or has not started yet, with this saved level. */
  ghost predicate Parked(s: State, t: Tid, saved: Saved) {
    t in s.threads && s.threads[t].saved == saved && !InBody(s, t)
  }

  /** Splx leaves the level asked for. */
  lemma SplxIs(s: State, c: nat, high: bool)
    requires c < |s.cpus| && s.cpus[c].cur in s.threads
    requires s.threads[s.cpus[c].cur].high && !high ==> s.threads[s.cpus[c].cur].count > 0
    ensures var s', t := Splx(s, c, high), s.cpus[c].cur;
            && t in s'.threads && s'.threads[t].high == high && s'.threads.Keys == s.threads.Keys
            && (forall u | u in s.threads :: s'.threads[u].saved == s.threads[u].saved)
            && |s'.cpus| == |s.cpus|
            && forall d | 0 <= d < |s.cpus| :: s'.cpus[d].cur == s.cpus[d].cur && s'.cpus[d].phase == s.cpus[d].phase
  {
  }

  lemma ReleaseIs(s: State, c: nat, l: Lock)
    requires c < |s.cpus| && s.cpus[c].cur in s.threads
    requires s.cpus[c].spinlocks > 0 && s.threads[s.cpus[c].cur].count > 0
    ensures var s' := SpinRelease(s, c, l);
            && s'.threads.Keys == s.threads.Keys
            && (forall u | u in s.threads :: s'.threads[u].saved == s.threads[u].saved)
            && |s'.cpus| == |s.cpus|
            && forall d | 0 <= d < |s.cpus| :: s'.cpus[d].cur == s.cpus[d].cur && s'.cpus[d].phase == s.cpus[d].phase
  {
  }

  lemma AcquireIs(s: State, c: nat, l: Lock)
    requires c < |s.cpus| && s.cpus[c].cur in s.threads
    ensures var s' := SpinAcquire(s, c, l);
            && s'.threads.Keys == s.threads.Keys
            && (forall u | u in s.threads :: s'.threads[u].saved == s.threads[u].saved)
            && |s'.cpus| == |s.cpus|
            && forall d | 0 <= d < |s.cpus| :: s'.cpus[d].cur == s.cpus[d].cur && s'.cpus[d].phase == s.cpus[d].phase
  {
  }

  /** The steps after which a CPU is in ordinary code although it was not before. */
  predicate Returns(a: Action) {
    a.Enqueue? || a.ReapZombies?
  }

  /** What a step leaves alone: the saved levels of all threads but one that calls thread_switch. */
  ghost predicate SavedKept(s: State, s': State, a: Action) {
    forall u | u in s.threads && u in s'.threads && !(a.Switch? && a.c < |s.cpus| && s.cpus[a.c].cur == u) ::
      s'.threads[u].saved == s.threads[u].saved
  }

  /** A CPU in ordinary code was there before, with the same thread, or has just returned from thread_switch. */
  ghost predicate BodiesKept(s: State, s': State, a: Action) {
    && |s'.cpus| == |s.cpus|
    && forall d | 0 <= d < |s.cpus| && s'.cpus[d].phase.Body? ::
         s'.cpus[d].cur == s.cpus[d].cur && (s.cpus[d].phase.Body? || (d == a.c && Returns(a)))
  }

  lemma LevelStepKeeps(s: State, a: Action)
    requires CanExec(s, a) && (a.SplHigh? || a.SplNone? || a.Acquire? || a.Release?)
    ensures SavedKept(s, Exec(s, a), a) && BodiesKept(s, Exec(s, a), a)
  {
    if a.SplHigh? || a.SplNone? {
      SplxIs(s, a.c, a.SplHigh?);
    } else if a.Acquire? {
      AcquireIs(s, a.c, a.l);
    } else {
      ReleaseIs(s, a.c, a.l);
    }
    hide Splx, SpinAcquire, SpinRelease;
  }

  predicate ListStep(a: Action) {
    a.Fork? || a.TakeWaiter? || a.MakeRunnable? || a.TakeVictim? || a.PlaceVictim? || a.ReturnVictim?
  }

  lemma ListStepKeeps(s: State, a: Action)
    requires CanExec(s, a) && ListStep(a)
    ensures SavedKept(s, Exec(s, a), a) && BodiesKept(s, Exec(s, a), a)
  {
    hide Splx, SpinAcquire, SpinRelease;
  }

  lemma CallKeeps(s: State, a: Action)
    requires CanExec(s, a) && (a.Switch? || a.SetNewState?)
    ensures SavedKept(s, Exec(s, a), a) && BodiesKept(s, Exec(s, a), a)
  {
    if a.Switch? {
      SplxIs(s, a.c, true);
    }
    hide Splx, SpinAcquire, SpinRelease;
  }

  lemma LockKeeps(s: State, a: Action)
    requires CanExec(s, a) && (a.LockQueue? || a.Unidle?)
    ensures SavedKept(s, Exec(s, a), a) && BodiesKept(s, Exec(s, a), a)
  {
    AcquireIs(s, a.c, RunQ(a.c));
    hide Splx, SpinAcquire, SpinRelease;
  }

  lemma UnlockKeeps(s: State, a: Action)
    requires CanExec(s, a) && (a.UnlockChannel? || a.ResumeNext?)
    ensures SavedKept(s, Exec(s, a), a) && BodiesKept(s, Exec(s, a), a)
  {
    if a.UnlockChannel? {
      ReleaseIs(s, a.c, Other(s.cpus[a.c].phase.w));
    } else {
      ReleaseIs(MarkRunning(s, a.c), a.c, RunQ(a.c));
    }
    hide Splx, SpinAcquire, SpinRelease;
  }

  lemma PickKeeps(s: State, a: Action)
    requires CanExec(s, a) && a.PickNext?
    ensures SavedKept(s, Exec(s, a), a) && BodiesKept(s, Exec(s, a), a)
  {
    ReleaseIs(s, a.c, RunQ(a.c));
    hide Splx, SpinAcquire, SpinRelease;
  }

  lemma ReturnStepKeeps(s: State, a: Action)
    requires CanExec(s, a) && Returns(a)
    ensures SavedKept(s, Exec(s, a), a) && BodiesKept(s, Exec(s, a), a)
    ensures var s', t := Exec(s, a), s.cpus[a.c].cur;
            s'.cpus[a.c].phase.Body? ==>
              t in s'.threads && s'.threads[t].high == (s.threads[t].saved == Level(true))
  {
    var c := a.c;
    var th := s.threads[s.cpus[c].cur];
    if a.ReapZombies? {
      SplxIs(Exorcise(s, c), c, th.saved.Level? && th.saved.high);
    } else if s.cpus[c].phase.ns.Yielding? && s.cpus[c].runq == [] {
      ReleaseIs(s, c, RunQ(c));
      SplxIs(SpinRelease(s, c, RunQ(c)), c, th.saved.high);
    }
    hide Splx, SpinAcquire, SpinRelease;
  }

  lemma StepKeeps(s: State, a: Action)
    requires CanExec(s, a)
    ensures SavedKept(s, Exec(s, a), a) && BodiesKept(s, Exec(s, a), a)
    ensures Returns(a) && Exec(s, a).cpus[a.c].phase.Body? ==>
              var t := s.cpus[a.c].cur;
              t in Exec(s, a).threads && Exec(s, a).threads[t].high == (s.threads[t].saved == Level(true))
  {
    hide Exec, SavedKept, BodiesKept;
    if Returns(a) {
      ReturnStepKeeps(s, a);
    } else if a.Switch? || a.SetNewState? {
      CallKeeps(s, a);
    } else if a.LockQueue? || a.Unidle? {
      LockKeeps(s, a);
    } else if a.UnlockChannel? || a.ResumeNext? {
      UnlockKeeps(s, a);
    } else if a.PickNext? {
      PickKeeps(s, a);
    } else if ListStep(a) {
      ListStepKeeps(s, a);
    } else {
      LevelStepKeeps(s, a);
    }
  }

  /** After any step a parked thread is gone, still parked, or back with the level that it saved. */
  lemma ParkedStep(s: State, a: Action, t: Tid, saved: Saved)
    requires CanExec(s, a) && Parked(s, t, saved) && t in Exec(s, a).threads
    ensures InBody(Exec(s, a), t) ==> Exec(s, a).threads[t].high == (saved == Level(true))
    ensures !InBody(Exec(s, a), t) ==> Parked(Exec(s, a), t, saved)
  {
    hide Exec;
    var s' := Exec(s, a);
    StepKeeps(s, a);
    assert a.Switch? && s.cpus[a.c].cur == t ==> InBody(s, t);
    assert s'.threads[t].saved == saved;
    if InBody(s', t) {
      var d :| 0 <= d < |s'.cpus| && s'.cpus[d].cur == t && s'.cpus[d].phase.Body?;
      assert s.cpus[d].cur == t;
    }
  }

  /** A run in which t exists all the time and never gets back to ordinary code. */
  ghost predicate Gone(s: State, acts: seq<Action>, s': State, t: Tid)
    decreases |acts|
  {
    && t in s.threads && !InBody(s, t)
    && if acts == [] then s' == s else CanExec(s, acts[0]) && Gone(Exec(s, acts[0]), acts[1..], s', t)
  }

  lemma {:induction false} ParkedRun(s: State, acts: seq<Action>, s': State, t: Tid, saved: Saved)
    requires Gone(s, acts, s', t) && Parked(s, t, saved)
    ensures Parked(s', t, saved)
    decreases |acts|
  {
    hide Exec, CanExec, Parked, InBody;
    if acts != [] {
      assert t in Exec(s, acts[0]).threads && !InBody(Exec(s, acts[0]), t);
      ParkedStep(s, acts[0], t, saved);
      ParkedRun(Exec(s, acts[0]), acts[1..], s', t, saved);
    }
  }

  lemma StepInvAt(s: State, a: Action)
    requires Inv(s) && CanExec(s, a)
    ensures Inv(Exec(s, a))
  {
    hide Inv, Exec;
    StepInv(s, a);
  }

  lemma Spinlocks(s: State, c: nat)
    requires Inv(s) && c < |s.cpus|
    ensures s.cpus[c].phase.Reap? ==> s.cpus[c].spinlocks == 0
    ensures s.cpus[c].phase == Queue(Yielding) ==> s.cpus[c].spinlocks == 1
  {
    assert PhaseOk(s, c) && LevelOk(s, c);
    hide Conserved, ListsOk, HeldBy;
  }

  lemma SplxLocks(s: State, c: nat, high: bool)
    requires c < |s.cpus| && s.cpus[c].cur in s.threads
    requires s.threads[s.cpus[c].cur].high && !high ==> s.threads[s.cpus[c].cur].count > 0
    ensures |Splx(s, c, high).cpus| == |s.cpus| && Splx(s, c, high).cpus[c].spinlocks == s.cpus[c].spinlocks
  {
  }

  lemma ReleaseLocks(s: State, c: nat, l: Lock)
    requires c < |s.cpus| && s.cpus[c].cur in s.threads
    requires s.cpus[c].spinlocks > 0 && s.threads[s.cpus[c].cur].count > 0
    ensures |SpinRelease(s, c, l).cpus| == |s.cpus|
    ensures SpinRelease(s, c, l).cpus[c].spinlocks == s.cpus[c].spinlocks - 1
  {
  }

  /** A CPU that has just returned holds no spinlock, so its interrupts are on exactly at the low level. */
  lemma ReturnsUnlocked(s: State, a: Action, c: nat)
    requires Inv(s) && CanExec(s, a) && Returns(a) && c == a.c
    requires |Exec(s, a).cpus| == |s.cpus| && Exec(s, a).cpus[c].phase.Body?
    ensures Exec(s, a).cpus[c].spinlocks == 0
  {
    hide Inv;
    Spinlocks(s, c);
    var th := s.threads[s.cpus[c].cur];
    if a.ReapZombies? {
      SplxLocks(Exorcise(s, c), c, th.saved.Level? && th.saved.high);
    } else if s.cpus[c].phase.ns.Yielding? && s.cpus[c].runq == [] {
      ReleaseIs(s, c, RunQ(c));
      ReleaseLocks(s, c, RunQ(c));
      SplxLocks(SpinRelease(s, c, RunQ(c)), c, th.saved.high);
    }
    hide Splx, SpinRelease;
  }

  lemma LevelAt(s: State, c: nat)
    requires Inv(s) && c < |s.cpus|
    ensures s.cpus[c].cur in s.threads && LevelOk(s, c)
  {
  }

  lemma SwitchParks(s: State, c: nat, ns: NewState)
    requires Inv(s) && CanExec(s, Switch(c, ns))
    ensures Parked(Exec(s, Switch(c, ns)), s.cpus[c].cur, Level(s.threads[s.cpus[c].cur].high))
  {
    hide Inv;
    var s', t := Exec(s, Switch(c, ns)), s.cpus[c].cur;
    SplxIs(s, c, true);
    hide Splx;
    forall d: nat | d < |s.cpus| && d != c
      ensures s.cpus[d].cur != t
    {
      OneCpu(s, c, d);
    }
  }

  lemma OneCpu(s: State, c: nat, d: nat)
    requires Inv(s) && c < |s.cpus| && d < |s.cpus| && c != d
    ensures s.cpus[c].cur != s.cpus[d].cur
  {
    assert LevelOk(s, c) && LevelOk(s, d);
    hide Conserved, ListsOk, HeldBy;
  }

  /**
   thread_switch returns at the interrupt level that it was called with, on whichever CPU and after whatever others
   did: s is the state of the call, s1 the last one before the thread t is back in ordinary code.  It has no spinlock
   then, and interrupts are on exactly if the level is low.
   */
  lemma ReturnsAtItsLevel(s: State, c: nat, ns: NewState, acts: seq<Action>, s1: State, a: Action, d: nat)
    requires Reachable(s) && CanExec(s, Switch(c, ns))
    requires Gone(Exec(s, Switch(c, ns)), acts, s1, s.cpus[c].cur) && CanExec(s1, a)
    requires var s', t := Exec(s1, a), s.cpus[c].cur;
             t in s'.threads && d < |s'.cpus| && s'.cpus[d].cur == t && s'.cpus[d].phase.Body?
    ensures var s', t := Exec(s1, a), s.cpus[c].cur;
            && s'.threads[t].high == s.threads[t].high
            && s'.cpus[d].spinlocks == 0 && (s'.cpus[d].irq <==> !s.threads[t].high)
  {
    hide Reachable, Inv, Exec, CanExec, Parked;
    ReachableInv(s);
    SwitchAt(s, c, ns);
    var t := s.cpus[c].cur;
    var s0 := Exec(s, Switch(c, ns));
    SwitchParks(s, c, ns);
    StepInvAt(s, Switch(c, ns));
    BackAtLevel(s0, acts, s1, a, t, Level(s.threads[t].high), d);
  }

  lemma SwitchAt(s: State, c: nat, ns: NewState)
    requires CanExec(s, Switch(c, ns))
    ensures c < |s.cpus| && s.cpus[c].cur in s.threads
  {
  }

  lemma BackAtLevel(s0: State, acts: seq<Action>, s1: State, a: Action, t: Tid, saved: Saved, d: nat)
    requires Inv(s0) && Parked(s0, t, saved) && Gone(s0, acts, s1, t) && CanExec(s1, a)
    requires var s' := Exec(s1, a);
             t in s'.threads && d < |s'.cpus| && s'.cpus[d].cur == t && s'.cpus[d].phase.Body?
    ensures var s' := Exec(s1, a);
            && s'.threads[t].high == (saved == Level(true))
            && s'.cpus[d].spinlocks == 0 && (s'.cpus[d].irq <==> saved != Level(true))
  {
    hide Inv, Exec, CanExec;
    GoneInv(s0, acts, s1, t);
    ParkedRun(s0, acts, s1, t, saved);
    var s' := Exec(s1, a);
    assert InBody(s', t);
    ParkedStep(s1, a, t, saved);
    StepInvAt(s1, a);
    StepKeeps(s1, a);
    assert d == a.c && Returns(a);
    ReturnsUnlocked(s1, a, d);
    LevelAt(s', d);
  }

  lemma {:induction false} GoneInv(s: State, acts: seq<Action>, s': State, t: Tid)
    requires Inv(s) && Gone(s, acts, s', t)
    ensures Inv(s')
    decreases |acts|
  {
    hide Inv, Exec, CanExec, InBody;
    if acts != [] {
      StepInvAt(s, acts[0]);
      GoneInv(Exec(s, acts[0]), acts[1..], s', t);
    }
  }

  /** A forked thread is at the low level, with interrupts on, when it first gets to its own code. */
  lemma ForkedStartsLow(s: State, c: nat, t: Tid, acts: seq<Action>, s1: State, a: Action, d: nat)
    requires Reachable(s) && CanExec(s, Fork(c, t)) && Gone(Exec(s, Fork(c, t)), acts, s1, t) && CanExec(s1, a)
    requires var s' := Exec(s1, a);
             t in s'.threads && d < |s'.cpus| && s'.cpus[d].cur == t && s'.cpus[d].phase.Body?
    ensures var s' := Exec(s1, a); !s'.threads[t].high && s'.cpus[d].spinlocks == 0 && s'.cpus[d].irq
  {
    hide Reachable, Inv, CanExec, InBody;
    ReachableInv(s);
    assert Gone(Exec(s, Fork(c, t)), acts, s1, t);
    ForkParks(s, c, t);
    StepInvAt(s, Fork(c, t));
    hide Exec;
    BackAtLevel(Exec(s, Fork(c, t)), acts, s1, a, t, Fresh, d);
  }

  lemma ForkParks(s: State, c: nat, t: Tid)
    requires CanExec(s, Fork(c, t)) && !InBody(Exec(s, Fork(c, t)), t)
    ensures Parked(Exec(s, Fork(c, t)), t, Fresh)
  {
    hide InBody;
  }

  // ---------------------------------------------------------------- what has to happen before it comes back

  /** On the list that thread_switch puts its caller on. */
  ghost predicate Resting(s: State, t: Tid, ns: NewState) {
    match ns
    case Yielding => exists c :: 0 <= c < |s.cpus| && t in s.cpus[c].runq
    case Sleeping(w) => w < |s.wchans| && t in s.wchans[w]
    case Exiting => exists c :: 0 <= c < |s.cpus| && t in s.cpus[c].zombies
  }

  ghost predicate OnItsWay(s: State, t: Tid, ns: NewState) {
    exists c :: 0 <= c < |s.cpus| && s.cpus[c].cur == t
      && (s.cpus[c].phase == Enter(ns) || s.cpus[c].phase == Queue(ns))
  }

  ghost predicate PutAway(s: State, t: Tid, ns: NewState) {
    t in s.threads && (OnItsWay(s, t, ns) || Resting(s, t, ns))
  }

  /** The step takes t off wait channel w. */
  predicate Wakes(s: State, a: Action, t: Tid, w: nat) {
    a.TakeWaiter? && a.w == w && w < |s.wchans| && s.wchans[w] != [] && s.wchans[w][0] == t
  }

  /** What a step leaves alone: the other CPUs' place in the code, zombies and waiters. */
  ghost predicate Frame(s: State, s': State, a: Action) {
    && |s'.cpus| == |s.cpus| && |s'.wchans| == |s.wchans|
    && (forall d | 0 <= d < |s.cpus| && d != a.c ::
       s'.cpus[d].cur == s.cpus[d].cur && s'.cpus[d].phase == s.cpus[d].phase)
    && (forall d, u | 0 <= d < |s.cpus| && u in s.cpus[d].zombies ::
          u in s'.cpus[d].zombies || (a.ReapZombies? && d == a.c))
    && (forall w, u | 0 <= w < |s.wchans| && u in s.wchans[w] :: u in s'.wchans[w] || Wakes(s, a, u, w))
  }

  lemma SplxFrame(s: State, c: nat, high: bool)
    requires c < |s.cpus| && s.cpus[c].cur in s.threads
    requires s.threads[s.cpus[c].cur].high && !high ==> s.threads[s.cpus[c].cur].count > 0
    ensures var s' := Splx(s, c, high);
            && s'.wchans == s.wchans && s'.cpus == s.cpus[c := s'.cpus[c]] && s'.cpus[c].zombies == s.cpus[c].zombies
            && s'.cpus[c].cur == s.cpus[c].cur && s'.cpus[c].phase == s.cpus[c].phase
               && s'.cpus[c].runq == s.cpus[c].runq
  {
  }

  lemma ReleaseFrame(s: State, c: nat, l: Lock)
    requires c < |s.cpus| && s.cpus[c].cur in s.threads
    requires s.cpus[c].spinlocks > 0 && s.threads[s.cpus[c].cur].count > 0
    ensures var s' := SpinRelease(s, c, l);
            && s'.wchans == s.wchans && s'.cpus == s.cpus[c := s'.cpus[c]] && s'.cpus[c].zombies == s.cpus[c].zombies
            && s'.cpus[c].cur == s.cpus[c].cur && s'.cpus[c].phase == s.cpus[c].phase
               && s'.cpus[c].runq == s.cpus[c].runq
  {
  }

  lemma AcquireFrame(s: State, c: nat, l: Lock)
    requires c < |s.cpus| && s.cpus[c].cur in s.threads
    ensures var s' := SpinAcquire(s, c, l);
            && s'.wchans == s.wchans && s'.cpus == s.cpus[c := s'.cpus[c]] && s'.cpus[c].zombies == s.cpus[c].zombies
            && s'.cpus[c].cur == s.cpus[c].cur && s'.cpus[c].phase == s.cpus[c].phase
               && s'.cpus[c].runq == s.cpus[c].runq
  {
  }

  lemma LevelStepFrame(s: State, a: Action)
    requires CanExec(s, a) && (a.SplHigh? || a.SplNone? || a.Acquire? || a.Release?)
    ensures Frame(s, Exec(s, a), a)
  {
    if a.SplHigh? || a.SplNone? {
      SplxFrame(s, a.c, a.SplHigh?);
    } else if a.Acquire? {
      AcquireFrame(s, a.c, a.l);
    } else {
      ReleaseFrame(s, a.c, a.l);
    }
    hide Splx, SpinAcquire, SpinRelease;
  }

  lemma ListStepFrame(s: State, a: Action)
    requires CanExec(s, a) && ListStep(a)
    ensures Frame(s, Exec(s, a), a)
  {
    hide Splx, SpinAcquire, SpinRelease;
    if a.TakeWaiter? {
      var q := s.wchans[a.w];
      assert q == [q[0]] + q[1..];
    }
  }

  lemma CallFrame(s: State, a: Action)
    requires CanExec(s, a) && (a.Switch? || a.SetNewState? || a.LockQueue? || a.Unidle?)
    ensures Frame(s, Exec(s, a), a)
  {
    if a.Switch? {
      SplxFrame(s, a.c, true);
    } else {
      AcquireFrame(s, a.c, RunQ(a.c));
    }
    hide Splx, SpinAcquire, SpinRelease;
  }

  lemma UnlockFrame(s: State, a: Action)
    requires CanExec(s, a) && (a.UnlockChannel? || a.ResumeNext? || a.PickNext?)
    ensures Frame(s, Exec(s, a), a)
  {
    if a.UnlockChannel? {
      ReleaseFrame(s, a.c, Other(s.cpus[a.c].phase.w));
    } else if a.ResumeNext? {
      ReleaseFrame(MarkRunning(s, a.c), a.c, RunQ(a.c));
    } else {
      ReleaseFrame(s, a.c, RunQ(a.c));
    }
    hide Splx, SpinAcquire, SpinRelease;
  }

  lemma ReturnFrame(s: State, a: Action)
    requires CanExec(s, a) && Returns(a)
    ensures Frame(s, Exec(s, a), a)
  {
    var c := a.c;
    var th := s.threads[s.cpus[c].cur];
    if a.ReapZombies? {
      SplxFrame(Exorcise(s, c), c, th.saved.Level? && th.saved.high);
    } else if s.cpus[c].phase.ns.Yielding? && s.cpus[c].runq == [] {
      ReleaseIs(s, c, RunQ(c));
      ReleaseFrame(s, c, RunQ(c));
      SplxFrame(SpinRelease(s, c, RunQ(c)), c, th.saved.high);
    }
    hide Splx, SpinAcquire, SpinRelease;
  }

  lemma StepFrame(s: State, a: Action)
    requires CanExec(s, a)
    ensures Frame(s, Exec(s, a), a)
  {
    hide Exec, Frame;
    if Returns(a) {
      ReturnFrame(s, a);
    } else if a.Switch? || a.SetNewState? || a.LockQueue? || a.Unidle? {
      CallFrame(s, a);
    } else if a.UnlockChannel? || a.ResumeNext? || a.PickNext? {
      UnlockFrame(s, a);
    } else if ListStep(a) {
      ListStepFrame(s, a);
    } else {
      LevelStepFrame(s, a);
    }
  }

  /** The own CPU's steps on the way to the list. */
  lemma OwnStep(s: State, a: Action, t: Tid, ns: NewState)
    requires CanExec(s, a) && s.cpus[a.c].cur == t && !ns.Yielding?
    requires s.cpus[a.c].phase == Enter(ns) || s.cpus[a.c].phase == Queue(ns)
    ensures OnItsWay(Exec(s, a), t, ns) || Resting(Exec(s, a), t, ns)
  {
    var s', c := Exec(s, a), a.c;
    if s.cpus[c].phase == Enter(ns) {
      AcquireFrame(s, c, RunQ(c));
      hide SpinAcquire;
      assert s'.cpus[c].cur == t && s'.cpus[c].phase == Queue(ns);
    } else if ns.Exiting? {
      assert t in s'.cpus[c].zombies;
    } else {
      assert t in s'.wchans[ns.w];
    }
  }

  lemma PutAwayStep(s: State, a: Action, t: Tid, ns: NewState)
    requires CanExec(s, a) && PutAway(s, t, ns) && !ns.Yielding? && t in Exec(s, a).threads
    requires ns.Sleeping? ==> !Wakes(s, a, t, ns.w)
    ensures PutAway(Exec(s, a), t, ns)
  {
    var s' := Exec(s, a);
    StepFrame(s, a);
    if OnItsWay(s, t, ns) {
      var c :| 0 <= c < |s.cpus| && s.cpus[c].cur == t
        && (s.cpus[c].phase == Enter(ns) || s.cpus[c].phase == Queue(ns));
      hide Exec;
      if c == a.c {
        OwnStep(s, a, t, ns);
      } else {
        assert s'.cpus[c].cur == t;
      }
    } else if ns.Exiting? {
      var c :| 0 <= c < |s.cpus| && t in s.cpus[c].zombies;
      if a.ReapZombies? {
        ReapedAreGone(s, a.c);
      }
      hide Exec;
      assert t in s'.cpus[c].zombies;
    } else {
      hide Exec;
    }
  }

  lemma ReapedAreGone(s: State, c: nat)
    requires CanExec(s, ReapZombies(c))
    ensures forall t | t in s.cpus[c].zombies :: t !in Exec(s, ReapZombies(c)).threads
  {
    SplxIs(Exorcise(s, c), c, s.threads[s.cpus[c].cur].saved.Level? && s.threads[s.cpus[c].cur].saved.high);
    hide Splx;
    assert forall t | t in s.cpus[c].zombies :: t in Dead(s, c);
  }

  lemma AwayAt(s: State, t: Tid, ns: NewState) returns (p: Place)
    requires PutAway(s, t, ns)
    ensures At(s, t, p) && (p.Running? ==> !s.cpus[p.c].phase.Body?)
  {
    if OnItsWay(s, t, ns) {
      var c :| 0 <= c < |s.cpus| && s.cpus[c].cur == t
        && (s.cpus[c].phase == Enter(ns) || s.cpus[c].phase == Queue(ns));
      p := Running(c);
    } else if ns.Sleeping? {
      p := OnChannel(ns.w);
    } else if ns.Exiting? {
      var c :| 0 <= c < |s.cpus| && t in s.cpus[c].zombies;
      p := OnZombies(c);
    } else {
      var c :| 0 <= c < |s.cpus| && t in s.cpus[c].runq;
      p := OnQueue(c);
    }
  }

  /** Whoever is put away is not in ordinary code. */
  lemma NotBack(s: State, t: Tid, ns: NewState)
    requires Inv(s) && PutAway(s, t, ns)
    ensures !InBody(s, t)
  {
    hide Phases, Levels, ListsOk, Conserved, PutAway;
    var p := AwayAt(s, t, ns);
    forall d | 0 <= d < |s.cpus| && s.cpus[d].cur == t
      ensures !s.cpus[d].phase.Body?
    {
      if s.cpus[d].phase.Body? {
        OnePlace(s, t, p, Running(d));
      }
    }
  }

  /** A run in which t exists all the time, and is not taken off the channel that it sleeps on. */
  ghost predicate NotWoken(s: State, acts: seq<Action>, s': State, t: Tid, ns: NewState)
    decreases |acts|
  {
    && t in s.threads
    && if acts == [] then s' == s
       else
         && CanExec(s, acts[0]) && (ns.Sleeping? ==> !Wakes(s, acts[0], t, ns.w))
         && NotWoken(Exec(s, acts[0]), acts[1..], s', t, ns)
  }

  lemma {:induction false} PutAwayRun(s: State, acts: seq<Action>, s': State, t: Tid, ns: NewState)
    requires Inv(s) && NotWoken(s, acts, s', t, ns) && PutAway(s, t, ns) && !ns.Yielding?
    ensures Inv(s') && PutAway(s', t, ns)
    decreases |acts|
  {
    hide Inv, Exec, CanExec, PutAway;
    if acts != [] {
      assert t in Exec(s, acts[0]).threads;
      PutAwayStep(s, acts[0], t, ns);
      StepInvAt(s, acts[0]);
      PutAwayRun(Exec(s, acts[0]), acts[1..], s', t, ns);
    }
  }

  lemma SwitchPutsAway(s: State, c: nat, ns: NewState)
    requires CanExec(s, Switch(c, ns))
    ensures PutAway(Exec(s, Switch(c, ns)), s.cpus[c].cur, ns)
  {
    var s', t := Exec(s, Switch(c, ns)), s.cpus[c].cur;
    SplxIs(s, c, true);
    SplxFrame(s, c, true);
    hide Splx;
    assert s'.cpus[c].cur == t && s'.cpus[c].phase == Enter(ns);
  }

  /**
   A thread that sleeps does not come back before it was taken off that very channel, and one that exits never comes
   back: until then it is on its way to the channel or to the zombies, or there.
   */
  lemma ComesBackOnlyWoken(s: State, c: nat, ns: NewState, acts: seq<Action>, s': State)
    requires Reachable(s) && CanExec(s, Switch(c, ns)) && !ns.Yielding?
    requires NotWoken(Exec(s, Switch(c, ns)), acts, s', s.cpus[c].cur, ns)
    ensures PutAway(s', s.cpus[c].cur, ns) && !InBody(s', s.cpus[c].cur)
  {
    hide Reachable, Inv, Exec, CanExec, PutAway, InBody;
    ReachableInv(s);
    SwitchAt(s, c, ns);
    SwitchPutsAway(s, c, ns);
    StepInvAt(s, Switch(c, ns));
    PutAwayRun(Exec(s, Switch(c, ns)), acts, s', s.cpus[c].cur, ns);
    NotBack(s', s.cpus[c].cur, ns);
  }

  /** A thread that yields while others are ready goes to the end of the queue, and the first of the queue runs. */
  lemma YieldsToTheFirst(s: State, c: nat)
    requires Reachable(s) && c < |s.cpus| && s.cpus[c].phase == Queue(Yielding) && s.cpus[c].runq != []
    ensures CanExec(s, Enqueue(c)) && CanExec(Exec(s, Enqueue(c)), SetNewState(c))
    ensures CanExec(Exec(Exec(s, Enqueue(c)), SetNewState(c)), PickNext(c))
    ensures var s' := Exec(Exec(Exec(s, Enqueue(c)), SetNewState(c)), PickNext(c));
            && |s'.cpus| == |s.cpus| && s'.cpus[c].phase.Resume? && s'.cpus[c].cur == s.cpus[c].runq[0]
            && s'.cpus[c].runq == s.cpus[c].runq[1..] + [s.cpus[c].cur]
  {
    hide Reachable, Inv;
    ReachableInv(s);
    CurrentExists(s, c);
    StepInv(s, Enqueue(c));
    var s1 := Exec(s, Enqueue(c));
    StepInv(s1, SetNewState(c));
    var s2 := Exec(s1, SetNewState(c));
    StepInv(s2, PickNext(c));
  }

  lemma CurrentExists(s: State, c: nat)
    requires Inv(s) && c < |s.cpus|
    ensures s.cpus[c].cur in s.threads
  {
  }

  // ---------------------------------------------------------------- what the other steps do

  /** The level calls set the level, an acquired lock is the CPU's own, and a released one is free. */
  lemma LevelsAndLocks(s: State, a: Action)
    requires Reachable(s) && CanExec(s, a)
    ensures var s', t := Exec(s, a), s.cpus[a.c].cur;
            match a
            case SplHigh(c) => t in s'.threads && s'.threads[t].high
            case SplNone(c) => t in s'.threads && !s'.threads[t].high
            case Acquire(c, l) => IHold(s', c, l) && HeldBy(s', c) == HeldBy(s, c) + {l}
            case Release(c, l) => l !in s'.holder && HeldBy(s', c) == HeldBy(s, c) - {l}
            case _ => true
  {
    hide Reachable;
    match a
    case SplHigh(c) => SplxIs(s, c, true);
    case SplNone(c) => SplxIs(s, c, false);
    case _ =>
  }

  /**
   Who moves where: a forked thread and a woken one go to the waker's hands, from there to the end of their own CPU's
   queue; migration takes the last of the own queue, puts it at the end of another one, or back.
   */
  lemma MovesThreads(s: State, a: Action)
    requires Reachable(s) && CanExec(s, a)
    ensures var s' := Exec(s, a);
            match a
            case Fork(c, t) =>
              && t !in s.threads && At(s', t, BeingWoken(c)) && s'.threads.Keys == s.threads.Keys + {t}
              && s'.threads[t].cpu == s.threads[s.cpus[c].cur].cpu
            case TakeWaiter(c, w) =>
              && At(s', s.wchans[w][0], BeingWoken(c)) && s'.wchans == s.wchans[w := s.wchans[w][1..]]
            case MakeRunnable(c) =>
              var t := s.cpus[c].woken[0];
              var d := s.threads[t].cpu;
              && |s'.cpus| == |s.cpus| && s'.cpus[d].runq == s.cpus[d].runq + [t]
              && s'.cpus[c].woken == s.cpus[c].woken[1..] && t in s'.threads && s'.threads[t].state == Ready
            case TakeVictim(c) =>
              var q := s.cpus[c].runq;
              |s'.cpus| == |s.cpus| && s'.cpus[c].runq + [q[|q| - 1]] == q && At(s', q[|q| - 1], BeingMoved(c))
            case PlaceVictim(c, d) =>
              var t := s.cpus[c].victims[0];
              t != s.cpus[c].cur ==>
                && |s'.cpus| == |s.cpus| && s'.cpus[d].runq == s.cpus[d].runq + [t] && s'.threads[t].cpu == d
                && s'.cpus[c].victims == s.cpus[c].victims[1..]
            case ReturnVictim(c) =>
              && |s'.cpus| == |s.cpus| && s'.cpus[c].runq == s.cpus[c].runq + [s.cpus[c].victims[0]]
              && s'.cpus[c].victims == s.cpus[c].victims[1..]
            case _ => true
  {
    hide Reachable, Splx, SpinAcquire, SpinRelease;
  }

  /** Where a step leads in the code of thread_switch, and what it does to the locks on the way. */
  ghost predicate NextPhase(s: State, s': State, a: Action)
    requires a.c < |s.cpus|
  {
    var p, q := s.cpus[a.c].phase, s.cpus[a.c].runq;
    && |s'.cpus| == |s.cpus|
    && match a
       case Switch(_, ns) => s'.cpus[a.c].phase == Enter(ns)
       case LockQueue(_) => p.Enter? && s'.cpus[a.c].phase == Queue(p.ns) && IHold(s', a.c, RunQ(a.c))
       case Enqueue(_) =>
         && p.Queue?
         && s'.cpus[a.c].phase == (if p.ns.Sleeping? then Unlock(p.ns.w)
                                   else if p.ns.Yielding? && q == [] then Body else SetState(p.ns))
       case UnlockChannel(_) =>
         p.Unlock? && s'.cpus[a.c].phase == SetState(Sleeping(p.w)) && Other(p.w) !in s'.holder
       case SetNewState(_) => s'.cpus[a.c].phase == Pick
       case PickNext(_) => s'.cpus[a.c].phase == (if q == [] then Idle else Resume)
       case Unidle(_) => s'.cpus[a.c].phase == Pick && IHold(s', a.c, RunQ(a.c))
       case ResumeNext(_) => s'.cpus[a.c].phase == Reap && RunQ(a.c) !in s'.holder
       case ReapZombies(_) => s'.cpus[a.c].phase == Body && s'.cpus[a.c].zombies == []
       case _ => s'.cpus[a.c].phase == p
  }

  lemma WayIn(s: State, a: Action)
    requires CanExec(s, a) && (a.Switch? || a.LockQueue? || a.Enqueue? || a.UnlockChannel? || a.SetNewState?)
    ensures NextPhase(s, Exec(s, a), a)
  {
  }

  lemma WayOut(s: State, a: Action)
    requires CanExec(s, a) && (a.PickNext? || a.Unidle? || a.ResumeNext? || a.ReapZombies?)
    ensures NextPhase(s, Exec(s, a), a)
  {
  }

  lemma NoWay(s: State, a: Action)
    requires CanExec(s, a)
    requires !(a.Switch? || a.LockQueue? || a.Enqueue? || a.UnlockChannel? || a.SetNewState?)
    requires !(a.PickNext? || a.Unidle? || a.ResumeNext? || a.ReapZombies?)
    ensures NextPhase(s, Exec(s, a), a)
  {
  }

  /** Every step of a CPU inside thread_switch takes it to the next point of the code. */
  lemma SwitchGoesOn(s: State, a: Action)
    requires CanExec(s, a)
    ensures NextPhase(s, Exec(s, a), a)
  {
    hide Exec, NextPhase;
    if a.Switch? || a.LockQueue? || a.Enqueue? || a.UnlockChannel? || a.SetNewState? {
      WayIn(s, a);
    } else if a.PickNext? || a.Unidle? || a.ResumeNext? || a.ReapZombies? {
      WayOut(s, a);
    } else {
      NoWay(s, a);
    }
  }
}
