/**
 The thread system of src/kern/thread as steps of CPUs: interrupt levels (spl.c), spinlocks
 (spinlock.c) and the scheduler, wait channels and migration (thread.c).

 A step of a CPU is one operation on a spinlock, one list operation under the lock that protects it,
 or one of the pieces into which those cut thread_switch.  Ordinary kernel code appears as the steps
 that it may take: raising and lowering the level, taking and giving spinlocks, forking, waking and
 migrating threads, and calling thread_switch.  A busy spinlock_acquire is a step that cannot be
 taken yet.
 */
module Sched {
  import opened Counting

  type Tid = nat

  datatype TState = Run | Ready | Sleep | Zombie

  /** What thread_switch does with the saved level when the thread comes back. */
  datatype Saved = Fresh | Level(high: bool)

  /**
   high is t_curspl == IPL_HIGH, count is t_iplhigh_count.  boot marks a thread that a CPU was started
   with: until it first comes back from a switch, its t_state is still the S_READY of thread_create.
   */
  datatype Thread = Thread(state: TState, cpu: nat, high: bool, count: nat, saved: Saved, boot: bool)

  /** The lock of CPU c's run queue, or any other spinlock; wait channel w is guarded by Other(w). */
  datatype Lock = RunQ(c: nat) | Other(id: nat)

  datatype NewState = Yielding | Sleeping(w: nat) | Exiting

  datatype Phase =
    | Body                    // ordinary code
    | Enter(ns: NewState)     // in thread_switch, about to take the run queue lock
    | Queue(ns: NewState)     // has it, about to queue the current thread
    | Unlock(w: nat)          // on wait channel w, about to release its lock
    | SetState(ns: NewState)  // about to set t_state
    | Pick                    // about to take the next thread off the run queue
    | Idle                    // in cpu_idle, where interrupts are handled
    | Resume                  // has switched, about to release the run queue lock
    | Reap                    // about to clean up zombies and lower the level

  /** woken and victims are the local variables of the wake-up and migration code. */
  datatype Cpu = Cpu(
    cur: Tid,
    spinlocks: nat,
    irq: bool,
    isidle: bool,
    runq: seq<Tid>,
    zombies: seq<Tid>,
    woken: seq<Tid>,
    victims: seq<Tid>,
    phase: Phase)

  datatype State = State(
    cpus: seq<Cpu>,
    threads: map<Tid, Thread>,
    wchans: seq<seq<Tid>>,
    holder: map<Lock, nat>)

  datatype Action =
    | SplHigh(c: nat)
    | SplNone(c: nat)
    | Acquire(c: nat, l: Lock)
    | Release(c: nat, l: Lock)
    | Fork(c: nat, t: Tid)
    | TakeWaiter(c: nat, w: nat)
    | MakeRunnable(c: nat)
    | TakeVictim(c: nat)
    | PlaceVictim(c: nat, d: nat)
    | ReturnVictim(c: nat)
    | Switch(c: nat, ns: NewState)
    | LockQueue(c: nat)
    | Enqueue(c: nat)
    | UnlockChannel(c: nat)
    | SetNewState(c: nat)
    | PickNext(c: nat)
    | Unidle(c: nat)
    | ResumeNext(c: nat)
    | ReapZombies(c: nat)

  // ---------------------------------------------------------------- spl.c

  /** splraise: turns interrupts off on the first raise. */
  function SplRaise(s: State, c: nat): State
    requires c < |s.cpus| && s.cpus[c].cur in s.threads
  {
    var cpu := s.cpus[c];
    var th := s.threads[cpu.cur];
    s.(cpus := s.cpus[c := cpu.(irq := cpu.irq && th.count != 0)],
       threads := s.threads[cpu.cur := th.(count := th.count + 1)])
  }

  /** spllower: turns interrupts on when the last raise is undone. */
  function SplLower(s: State, c: nat): State
    requires c < |s.cpus| && s.cpus[c].cur in s.threads && s.threads[s.cpus[c].cur].count > 0
  {
    var cpu := s.cpus[c];
    var th := s.threads[cpu.cur];
    s.(cpus := s.cpus[c := cpu.(irq := cpu.irq || th.count == 1)],
       threads := s.threads[cpu.cur := th.(count := th.count - 1)])
  }

  function SetLevel(s: State, c: nat, high: bool): State
    requires c < |s.cpus| && s.cpus[c].cur in s.threads
  {
    var t := s.cpus[c].cur;
    s.(threads := s.threads[t := s.threads[t].(high := high)])
  }

  /** splx. */
  function Splx(s: State, c: nat, high: bool): State
    requires c < |s.cpus| && s.cpus[c].cur in s.threads
    requires var th := s.threads[s.cpus[c].cur]; th.high && !high ==> th.count > 0
  {
    var th := s.threads[s.cpus[c].cur];
    if !th.high && high then SetLevel(SplRaise(s, c), c, high)
    else if th.high && !high then SplLower(SetLevel(s, c, high), c)
    else s
  }

  // ---------------------------------------------------------------- spinlock.c

  function SpinAcquire(s: State, c: nat, l: Lock): State
    requires c < |s.cpus| && s.cpus[c].cur in s.threads
  {
    var s1 := SplRaise(s, c);
    s1.(cpus := s1.cpus[c := s1.cpus[c].(spinlocks := s1.cpus[c].spinlocks + 1)], holder := s1.holder[l := c])
  }

  function SpinRelease(s: State, c: nat, l: Lock): State
    requires c < |s.cpus| && s.cpus[c].cur in s.threads
    requires s.cpus[c].spinlocks > 0 && s.threads[s.cpus[c].cur].count > 0
  {
    var s1 := s.(cpus := s.cpus[c := s.cpus[c].(spinlocks := s.cpus[c].spinlocks - 1)], holder := s.holder - {l});
    SplLower(s1, c)
  }

  predicate IHold(s: State, c: nat, l: Lock) {
    l in s.holder && s.holder[l] == c
  }

  // ---------------------------------------------------------------- the invariant

  /** The locks that CPU c holds. */
  ghost function HeldBy(s: State, c: nat): set<Lock> {
    set l | l in s.holder && s.holder[l] == c
  }

  function ChannelLock(ns: NewState): set<Lock> {
    if ns.Sleeping? then {Other(ns.w)} else {}
  }

  /** The current thread is nowhere else; in the other phases it is on a list as well. */
  predicate CurrentOnly(p: Phase) {
    p.Body? || p.Enter? || p.Queue? || p.Resume? || p.Reap?
  }

  function CountOnCpu(cpu: Cpu, t: Tid): nat {
    Indicator(CurrentOnly(cpu.phase) && cpu.cur == t) + multiset(cpu.runq)[t] + multiset(cpu.zombies)[t]
    + multiset(cpu.woken)[t] + multiset(cpu.victims)[t]
  }

  function CountOnCpus(cpus: seq<Cpu>, t: Tid): nat {
    if cpus == [] then 0 else CountOnCpu(cpus[0], t) + CountOnCpus(cpus[1..], t)
  }

  function CountOnChannels(ws: seq<seq<Tid>>, t: Tid): nat {
    if ws == [] then 0 else multiset(ws[0])[t] + CountOnChannels(ws[1..], t)
  }

  /** In how many places thread t is. */
  function Places(s: State, t: Tid): nat {
    CountOnCpus(s.cpus, t) + CountOnChannels(s.wchans, t)
  }

  /** Conservation: every thread is in exactly one place. */
  ghost predicate Conserved(s: State) {
    forall t :: Places(s, t) == Indicator(t in s.threads)
  }

  ghost predicate IsCurrent(s: State, t: Tid) {
    t in s.threads && s.threads[t].cpu < |s.cpus| && s.cpus[s.threads[t].cpu].cur == t
  }

  /** The state that a thread is about to get while its own CPU puts it away; Run in other phases. */
  function QueuedAs(p: Phase): TState {
    if p.Unlock? then Sleep else if p.SetState? && !p.ns.Yielding? then StateOf(p.ns) else Run
  }

  /** The state of thread t, where a thread being put away already counts as put away. */
  function Effective(s: State, t: Tid): TState
    requires t in s.threads
  {
    var th := s.threads[t];
    if th.cpu < |s.cpus| && s.cpus[th.cpu].cur == t && QueuedAs(s.cpus[th.cpu].phase) != Run then
      QueuedAs(s.cpus[th.cpu].phase)
    else
      th.state
  }

  ghost predicate StateIs(s: State, t: Tid, st: TState) {
    t in s.threads && Effective(s, t) == st
  }

  ghost predicate QueuedOn(s: State, t: Tid, c: nat) {
    StateIs(s, t, Ready) && s.threads[t].cpu == c
  }

  ghost predicate WokenOk(s: State, t: Tid) {
    StateIs(s, t, Ready) || StateIs(s, t, Sleep)
  }

  ghost predicate ZombieOn(s: State, t: Tid, c: nat) {
    StateIs(s, t, Zombie) && s.threads[t].cpu == c
  }

  /** Every list of CPU c holds threads in the state that the list stands for. */
  ghost predicate CpuListsOk(s: State, c: nat)
    requires c < |s.cpus|
  {
    && (forall t | t in s.cpus[c].runq :: QueuedOn(s, t, c))
    && (forall t | t in s.cpus[c].victims :: QueuedOn(s, t, c))
    && (forall t | t in s.cpus[c].woken :: WokenOk(s, t))
    && (forall t | t in s.cpus[c].zombies :: ZombieOn(s, t, c))
  }

  ghost predicate ChannelsOk(s: State) {
    forall w, t | 0 <= w < |s.wchans| && t in s.wchans[w] :: StateIs(s, t, Sleep)
  }

  ghost predicate ListsOk(s: State) {
    && (forall c | 0 <= c < |s.cpus| :: CpuListsOk(s, c))
    && ChannelsOk(s)
  }

  /** The t_state of a thread that is running. */
  function RunningState(th: Thread): TState {
    if th.boot then Ready else Run
  }

  /** Which locks a CPU holds inside thread_switch, and what its current thread looks like. */
  ghost predicate PhaseOk(s: State, c: nat)
    requires c < |s.cpus| && s.cpus[c].cur in s.threads
  {
    var cpu := s.cpus[c];
    var th := s.threads[cpu.cur];
    && cpu.isidle == (cpu.phase.Pick? || cpu.phase.Idle?)
    && (!cpu.phase.Body? ==> th.high)
    && (!cpu.phase.Body? && !cpu.phase.Idle? ==> cpu.woken == [] && cpu.victims == [])
    && match cpu.phase
       case Body => th.state == RunningState(th)
       case Enter(ns) =>
         th.state == RunningState(th) && th.saved.Level? && HeldBy(s, c) == ChannelLock(ns) && NewStateOk(s, ns)
       case Queue(ns) =>
         th.state == RunningState(th) && th.saved.Level? && HeldBy(s, c) == ChannelLock(ns) + {RunQ(c)}
           && NewStateOk(s, ns)
       case Unlock(w) => HeldBy(s, c) == {Other(w), RunQ(c)}
       case SetState(ns) => HeldBy(s, c) == {RunQ(c)} && (ns.Yielding? ==> th.state == Ready)
       case Pick => HeldBy(s, c) == {RunQ(c)}
       case Idle => true
       case Resume => th.state == Ready && HeldBy(s, c) == {RunQ(c)}
       case Reap => th.state == Run && !th.boot && HeldBy(s, c) == {}
  }

  predicate NewStateOk(s: State, ns: NewState) {
    ns.Sleeping? ==> ns.w < |s.wchans|
  }

  /** The interrupt level: raised once for t_curspl and once for every spinlock of the CPU. */
  ghost predicate LevelOk(s: State, c: nat)
    requires c < |s.cpus| && s.cpus[c].cur in s.threads
  {
    var cpu := s.cpus[c];
    var th := s.threads[cpu.cur];
    && th.cpu == c
    && cpu.spinlocks == |HeldBy(s, c)|
    && th.count == Indicator(th.high) + cpu.spinlocks
    && (cpu.irq <==> th.count == 0)
  }

  /** A thread that no CPU is running was left with interrupts off and a run queue lock to release. */
  ghost predicate SwitchedOut(th: Thread) {
    th.high && th.count == 2
  }

  /** Levels and locks, for running and for switched-out threads. */
  ghost predicate Levels(s: State) {
    && (forall c | 0 <= c < |s.cpus| :: s.cpus[c].cur in s.threads && LevelOk(s, c))
    && (forall t | t in s.threads && !IsCurrent(s, t) :: SwitchedOut(s.threads[t]))
    && (forall l | l in s.holder :: s.holder[l] < |s.cpus|)
  }

  ghost predicate Phases(s: State) {
    && (forall c | 0 <= c < |s.cpus| :: s.cpus[c].cur in s.threads && PhaseOk(s, c))
    && (forall t | t in s.threads :: s.threads[t].cpu < |s.cpus|)
  }

  ghost predicate Inv(s: State) {
    Conserved(s) && ListsOk(s) && Phases(s) && Levels(s)
  }

  // ---------------------------------------------------------------- the steps

  function UpdateCpu(s: State, c: nat, cpu: Cpu): State
    requires c < |s.cpus|
  {
    s.(cpus := s.cpus[c := cpu])
  }

  function SetPhase(s: State, c: nat, p: Phase): State
    requires c < |s.cpus|
  {
    UpdateCpu(s, c, s.cpus[c].(phase := p))
  }

  function SetThread(s: State, t: Tid, th: Thread): State {
    s.(threads := s.threads[t := th])
  }

  /** Where kernel code outside thread_switch runs: in a thread, or in a handler that interrupts idling. */
  predicate InCode(p: Phase) {
    p.Body? || p.Idle?
  }

  /** wchan_sleep asserts that its caller holds the channel's lock and no other; yield and exit hold none. */
  predicate MaySwitch(s: State, c: nat, ns: NewState)
    requires c < |s.cpus|
  {
    match ns
    case Sleeping(w) => w < |s.wchans| && IHold(s, c, Other(w)) && s.cpus[c].spinlocks == 1
    case _ => s.cpus[c].spinlocks == 0
  }

  /** Everything the step needs: the state of locks and lists that the source asserts or waits for. */
  predicate Enabled(s: State, a: Action) {
    && a.c < |s.cpus|
    && s.cpus[a.c].cur in s.threads
    && var cpu := s.cpus[a.c];
       match a
       case SplHigh(c) => cpu.phase.Body?
       case SplNone(c) => cpu.phase.Body?
       case Acquire(c, l) => InCode(cpu.phase) && l !in s.holder
       case Release(c, l) => InCode(cpu.phase) && IHold(s, c, l)
       case Fork(c, t) => cpu.phase.Body? && t !in s.threads
       case TakeWaiter(c, w) => InCode(cpu.phase) && w < |s.wchans| && IHold(s, c, Other(w)) && s.wchans[w] != []
       case MakeRunnable(c) =>
         && InCode(cpu.phase) && cpu.woken != [] && cpu.woken[0] in s.threads
         && s.threads[cpu.woken[0]].cpu < |s.cpus| && IHold(s, c, RunQ(s.threads[cpu.woken[0]].cpu))
       case TakeVictim(c) => InCode(cpu.phase) && IHold(s, c, RunQ(c)) && cpu.runq != []
       case PlaceVictim(c, d) =>
         && InCode(cpu.phase) && d != c && d < |s.cpus| && IHold(s, c, RunQ(d))
         && cpu.victims != [] && cpu.victims[0] in s.threads
       case ReturnVictim(c) => InCode(cpu.phase) && IHold(s, c, RunQ(c)) && cpu.victims != []
       case Switch(c, ns) =>
         && cpu.phase.Body? && cpu.woken == [] && cpu.victims == []
         && MaySwitch(s, c, ns)
       case LockQueue(c) => cpu.phase.Enter? && RunQ(c) !in s.holder
       case Enqueue(c) => cpu.phase.Queue?
       case UnlockChannel(c) => cpu.phase.Unlock?
       case SetNewState(c) => cpu.phase.SetState?
       case PickNext(c) => cpu.phase.Pick?
       case Unidle(c) =>
         cpu.phase.Idle? && cpu.spinlocks == 0 && cpu.woken == [] && cpu.victims == [] && RunQ(c) !in s.holder
       case ResumeNext(c) => cpu.phase.Resume?
       case ReapZombies(c) => cpu.phase.Reap?
  }

  function StateOf(ns: NewState): TState {
    match ns
    case Yielding => Ready
    case Sleeping(_) => Sleep
    case Exiting => Zombie
  }

  /** thread_fork up to its call of thread_make_runnable. */
  function ForkThread(s: State, c: nat, t: Tid): State
    requires c < |s.cpus| && s.cpus[c].cur in s.threads
  {
    SetThread(UpdateCpu(s, c, s.cpus[c].(woken := s.cpus[c].woken + [t])),
              t, Thread(Ready, s.threads[s.cpus[c].cur].cpu, true, 2, Fresh, false))
  }

  /** The list operation of wchan_wakeone and wchan_wakeall: takes the first waiter. */
  function ExecTakeWaiter(s: State, c: nat, w: nat): State
    requires c < |s.cpus| && w < |s.wchans| && s.wchans[w] != []
  {
    UpdateCpu(s, c, s.cpus[c].(woken := s.cpus[c].woken + [s.wchans[w][0]]))
    .(wchans := s.wchans[w := s.wchans[w][1..]])
  }

  /** thread_make_runnable under the run queue lock of the target's CPU. */
  function ExecMakeRunnable(s: State, c: nat): State
    requires c < |s.cpus| && s.cpus[c].woken != [] && s.cpus[c].woken[0] in s.threads
    requires s.threads[s.cpus[c].woken[0]].cpu < |s.cpus|
  {
    var t := s.cpus[c].woken[0];
    var d := s.threads[t].cpu;
    var s1 := UpdateCpu(s, c, s.cpus[c].(woken := s.cpus[c].woken[1..]));
    var s2 := UpdateCpu(s1, d, s1.cpus[d].(runq := s1.cpus[d].runq + [t]));
    SetThread(s2, t, s2.threads[t].(state := Ready))
  }

  /** One round of the migration loop: a victim goes to CPU d unless it is the current thread. */
  function ExecPlaceVictim(s: State, c: nat, d: nat): State
    requires c < |s.cpus| && d < |s.cpus| && s.cpus[c].victims != [] && s.cpus[c].victims[0] in s.threads
  {
    var cpu := s.cpus[c];
    var t := cpu.victims[0];
    if t == cpu.cur then
      UpdateCpu(s, c, cpu.(victims := cpu.victims[1..] + [t]))
    else
      var s1 := UpdateCpu(s, c, cpu.(victims := cpu.victims[1..]));
      var s2 := UpdateCpu(s1, d, s1.cpus[d].(runq := s1.cpus[d].runq + [t]));
      SetThread(s2, t, s2.threads[t].(cpu := d))
  }

  function QueueSelf(s: State, c: nat): State
    requires c < |s.cpus| && s.cpus[c].cur in s.threads
  {
    var cpu := s.cpus[c];
    SetThread(UpdateCpu(s, c, cpu.(runq := cpu.runq + [cpu.cur], phase := SetState(Yielding))),
              cpu.cur, s.threads[cpu.cur].(state := Ready))
  }

  function SleepSelf(s: State, c: nat, w: nat): State
    requires c < |s.cpus| && w < |s.wchans|
  {
    SetPhase(s, c, Unlock(w)).(wchans := s.wchans[w := s.wchans[w] + [s.cpus[c].cur]])
  }

  function BurySelf(s: State, c: nat): State
    requires c < |s.cpus|
  {
    var cpu := s.cpus[c];
    UpdateCpu(s, c, cpu.(zombies := cpu.zombies + [cpu.cur], phase := SetState(Exiting)))
  }

  /** The switch statement of thread_switch and the test before it. */
  function ExecEnqueue(s: State, c: nat): State
    requires c < |s.cpus| && s.cpus[c].cur in s.threads && s.cpus[c].phase.Queue?
    requires s.threads[s.cpus[c].cur].saved.Level? && NewStateOk(s, s.cpus[c].phase.ns)
    requires s.cpus[c].spinlocks > 0 && s.threads[s.cpus[c].cur].count > 1
  {
    var cpu := s.cpus[c];
    var th := s.threads[cpu.cur];
    match cpu.phase.ns
    case Yielding =>
      if cpu.runq == [] then
        SetPhase(Splx(SpinRelease(s, c, RunQ(c)), c, th.saved.high), c, Body)
      else
        QueueSelf(s, c)
    case Sleeping(w) => SleepSelf(s, c, w)
    case Exiting => BurySelf(s, c)
  }

  /** thread_switch keeps the level it was called with in a local variable of the thread. */
  function SaveLevel(s: State, c: nat, high: bool): State
    requires c < |s.cpus| && s.cpus[c].cur in s.threads
  {
    var t := s.cpus[c].cur;
    SetThread(s, t, s.threads[t].(saved := Level(high)))
  }

  function MarkRunning(s: State, c: nat): State
    requires c < |s.cpus| && s.cpus[c].cur in s.threads
  {
    var t := s.cpus[c].cur;
    SetThread(s, t, s.threads[t].(state := Run, boot := false))
  }

  /** Sets t_state and c_isidle before the search for the next thread. */
  function ExecSetState(s: State, c: nat): State
    requires c < |s.cpus| && s.cpus[c].cur in s.threads && s.cpus[c].phase.SetState?
  {
    var cpu := s.cpus[c];
    SetThread(UpdateCpu(s, c, cpu.(isidle := true, phase := Pick)),
              cpu.cur, s.threads[cpu.cur].(state := StateOf(cpu.phase.ns)))
  }

  /** The switch to the first thread of the run queue. */
  function TakeNext(s: State, c: nat): State
    requires c < |s.cpus| && s.cpus[c].runq != []
  {
    var cpu := s.cpus[c];
    UpdateCpu(s, c, cpu.(runq := cpu.runq[1..], isidle := false, cur := cpu.runq[0], phase := Resume))
  }

  /** One turn of the loop that looks for the next thread. */
  function ExecPick(s: State, c: nat): State
    requires c < |s.cpus| && s.cpus[c].cur in s.threads
    requires s.cpus[c].spinlocks > 0 && s.threads[s.cpus[c].cur].count > 0
  {
    var cpu := s.cpus[c];
    if cpu.runq == [] then
      SetPhase(SpinRelease(s, c, RunQ(c)), c, Idle)
    else
      TakeNext(s, c)
  }

  function Dead(s: State, c: nat): set<Tid>
    requires c < |s.cpus|
  {
    set t | t in s.cpus[c].zombies
  }

  /** exorcise: destroys the zombies of CPU c. */
  function Exorcise(s: State, c: nat): State
    requires c < |s.cpus|
  {
    UpdateCpu(s, c, s.cpus[c].(zombies := [], phase := Body)).(threads := s.threads - Dead(s, c))
  }

  /** exorcise, then splx with the saved level, or spl0 in thread_startup. */
  function ExecReap(s: State, c: nat): State
    requires c < |s.cpus| && s.cpus[c].cur in s.threads && s.cpus[c].cur !in s.cpus[c].zombies
    requires s.threads[s.cpus[c].cur].high ==> s.threads[s.cpus[c].cur].count > 0
  {
    var saved := s.threads[s.cpus[c].cur].saved;
    Splx(Exorcise(s, c), c, saved.Level? && saved.high)
  }

  /** What each step relies on; the invariant provides it. */
  predicate CanExec(s: State, a: Action) {
    && Enabled(s, a)
    && var cpu := s.cpus[a.c];
       var th := s.threads[cpu.cur];
       && (th.high ==> th.count > 0)
       && (a.Release? || a.UnlockChannel? || a.PickNext? || a.ResumeNext? ==> cpu.spinlocks > 0 && th.count > 0)
       && (a.Enqueue? ==> th.saved.Level? && NewStateOk(s, cpu.phase.ns) && cpu.spinlocks > 0 && th.count > 1)
       && (a.ReapZombies? ==> cpu.cur !in cpu.zombies)
  }

  function Exec(s: State, a: Action): State
    requires CanExec(s, a)
  {
    var cpu := s.cpus[a.c];
    var th := s.threads[cpu.cur];
    match a
    case SplHigh(c) => Splx(s, c, true)
    case SplNone(c) => Splx(s, c, false)
    case Acquire(c, l) => SpinAcquire(s, c, l)
    case Release(c, l) => SpinRelease(s, c, l)
    case Fork(c, t) => ForkThread(s, c, t)
    case TakeWaiter(c, w) => ExecTakeWaiter(s, c, w)
    case MakeRunnable(c) => ExecMakeRunnable(s, c)
    case TakeVictim(c) =>
      var k := |cpu.runq| - 1;
      UpdateCpu(s, c, cpu.(runq := cpu.runq[..k], victims := [cpu.runq[k]] + cpu.victims))
    case PlaceVictim(c, d) => ExecPlaceVictim(s, c, d)
    case ReturnVictim(c) =>
      UpdateCpu(s, c, cpu.(victims := cpu.victims[1..], runq := cpu.runq + [cpu.victims[0]]))
    case Switch(c, ns) => SetPhase(SaveLevel(Splx(s, c, true), c, th.high), c, Enter(ns))
    case LockQueue(c) => SetPhase(SpinAcquire(s, c, RunQ(c)), c, Queue(cpu.phase.ns))
    case Enqueue(c) => ExecEnqueue(s, c)
    case UnlockChannel(c) => SetPhase(SpinRelease(s, c, Other(cpu.phase.w)), c, SetState(Sleeping(cpu.phase.w)))
    case SetNewState(c) => ExecSetState(s, c)
    case PickNext(c) => ExecPick(s, c)
    case Unidle(c) => SetPhase(SpinAcquire(s, c, RunQ(c)), c, Pick)
    case ResumeNext(c) => SetPhase(SpinRelease(MarkRunning(s, c), c, RunQ(c)), c, Reap)
    case ReapZombies(c) => ExecReap(s, c)
  }

  // ---------------------------------------------------------------- what the level operations keep

  /** Lists, current threads and states are the same; only levels and locks may differ. */
  ghost predicate SameLists(s: State, s': State) {
    && |s'.cpus| == |s.cpus| && s'.wchans == s.wchans && s'.threads.Keys == s.threads.Keys
    && (forall c | 0 <= c < |s.cpus| ::
          var a, b := s.cpus[c], s'.cpus[c];
          && b.cur == a.cur && b.isidle == a.isidle && b.phase == a.phase
          && b.runq == a.runq && b.zombies == a.zombies && b.woken == a.woken && b.victims == a.victims)
    && (forall t | t in s.threads ::
          var a, b := s.threads[t], s'.threads[t];
          b.state == a.state && b.cpu == a.cpu && b.saved == a.saved && b.boot == a.boot)
  }

  lemma {:induction false} CountSame(a: seq<Cpu>, b: seq<Cpu>, t: Tid)
    requires |a| == |b|
    requires forall c | 0 <= c < |a| :: CountOnCpu(a[c], t) == CountOnCpu(b[c], t)
    ensures CountOnCpus(a, t) == CountOnCpus(b, t)
  {
    if a != [] {
      CountSame(a[1..], b[1..], t);
    }
  }

  lemma SameListsConserved(s: State, s': State)
    requires Conserved(s) && SameLists(s, s')
    ensures Conserved(s')
  {
    forall t
      ensures Places(s', t) == Indicator(t in s'.threads)
    {
      assert Places(s, t) == Indicator(t in s.threads);
      CountSame(s.cpus, s'.cpus, t);
    }
  }

  lemma SameListsThread(s: State, s': State, t: Tid)
    requires SameLists(s, s')
    ensures IsCurrent(s', t) <==> IsCurrent(s, t)
    ensures forall st :: StateIs(s', t, st) <==> StateIs(s, t, st)
  {
  }

  lemma SameListsKeep(s: State, s': State)
    requires ListsOk(s) && SameLists(s, s')
    ensures ListsOk(s')
  {
    forall t, st
      ensures StateIs(s', t, st) <==> StateIs(s, t, st)
    {
      SameListsThread(s, s', t);
    }
    hide StateIs;
    forall c | 0 <= c < |s'.cpus|
      ensures CpuListsOk(s', c)
    {
      assert CpuListsOk(s, c);
    }
  }

  ghost predicate SameLocks(s: State, s': State, c: nat) {
    forall d | d != c :: HeldBy(s', d) == HeldBy(s, d)
  }

  lemma AcquireHeld(s: State, c: nat, l: Lock)
    requires c < |s.cpus| && s.cpus[c].cur in s.threads && l !in s.holder
    ensures var s' := SpinAcquire(s, c, l);
            SameLists(s, s') && SameLocks(s, s', c) && HeldBy(s', c) == HeldBy(s, c) + {l}
  {
  }

  /** One CPU's operation on its level keeps the others' levels. */
  lemma LevelsOf(s: State, s': State, c: nat)
    requires Levels(s) && c < |s.cpus| && SameLists(s, s') && SameLocks(s, s', c)
    requires forall d | 0 <= d < |s.cpus| && d != c :: s'.cpus[d] == s.cpus[d]
    requires forall t | t in s.threads && t != s.cpus[c].cur :: s'.threads[t] == s.threads[t]
    requires LevelOk(s', c)
    requires forall l | l in s'.holder :: s'.holder[l] < |s.cpus|
    ensures Levels(s')
  {
    hide HeldBy;
    assert forall u :: (u in s'.threads <==> u in s'.threads.Keys) && (u in s.threads <==> u in s.threads.Keys);
    forall d | 0 <= d < |s'.cpus|
      ensures s'.cpus[d].cur in s'.threads && LevelOk(s', d)
    {
      assert LevelOk(s, d) && LevelOk(s, c);
    }
    forall t | t in s'.threads && !IsCurrent(s', t)
      ensures SwitchedOut(s'.threads[t])
    {
      assert !IsCurrent(s, t) && LevelOk(s, c);
    }
  }

  lemma AcquireLevels(s: State, c: nat, l: Lock)
    requires Levels(s) && c < |s.cpus| && l !in s.holder
    ensures var s' := SpinAcquire(s, c, l);
            Levels(s') && s'.threads[s.cpus[c].cur].high == s.threads[s.cpus[c].cur].high
  {
    AcquireHeld(s, c, l);
    var s' := SpinAcquire(s, c, l);
    assert |HeldBy(s, c) + {l}| == |HeldBy(s, c)| + 1;
    assert LevelOk(s, c) && LevelOk(s', c);
    hide HeldBy, Levels, LevelOk;
    LevelsOf(s, s', c);
  }

  lemma ReleaseHeld(s: State, c: nat, l: Lock)
    requires c < |s.cpus| && s.cpus[c].cur in s.threads && IHold(s, c, l)
    requires s.cpus[c].spinlocks > 0 && s.threads[s.cpus[c].cur].count > 0
    ensures var s' := SpinRelease(s, c, l);
            SameLists(s, s') && SameLocks(s, s', c) && HeldBy(s', c) == HeldBy(s, c) - {l}
  {
  }

  lemma HolderCounts(s: State, c: nat, l: Lock)
    requires Levels(s) && c < |s.cpus| && IHold(s, c, l)
    ensures l in HeldBy(s, c)
    ensures s.cpus[c].spinlocks > 0
    ensures s.threads[s.cpus[c].cur].count > Indicator(s.threads[s.cpus[c].cur].high)
  {
    assert l in HeldBy(s, c);
    assert LevelOk(s, c);
  }

  lemma ReleaseLevels(s: State, c: nat, l: Lock)
    requires Levels(s) && c < |s.cpus| && IHold(s, c, l)
    requires s.cpus[c].spinlocks > 0 && s.threads[s.cpus[c].cur].count > 0
    ensures var s' := SpinRelease(s, c, l);
            Levels(s') && s'.threads[s.cpus[c].cur].high == s.threads[s.cpus[c].cur].high
  {
    HolderCounts(s, c, l);
    ReleaseHeld(s, c, l);
    var s' := SpinRelease(s, c, l);
    assert |HeldBy(s, c) - {l}| == |HeldBy(s, c)| - 1;
    assert LevelOk(s, c) && LevelOk(s', c);
    hide HeldBy, Levels, LevelOk;
    LevelsOf(s, s', c);
  }

  lemma SplxFrame(s: State, c: nat, high: bool)
    requires c < |s.cpus| && s.cpus[c].cur in s.threads && LevelOk(s, c)
    ensures s.threads[s.cpus[c].cur].high ==> s.threads[s.cpus[c].cur].count > 0
    ensures var s', t := Splx(s, c, high), s.cpus[c].cur;
            && SameLists(s, s') && s'.holder == s.holder && s'.threads[t].high == high
            && s'.cpus[c].spinlocks == s.cpus[c].spinlocks
            && s'.threads[t].count == Indicator(high) + s'.cpus[c].spinlocks
            && (s'.cpus[c].irq <==> s'.threads[t].count == 0)
            && (forall d | 0 <= d < |s.cpus| && d != c :: s'.cpus[d] == s.cpus[d])
            && (forall u | u in s.threads && u != t :: s'.threads[u] == s.threads[u])
  {
    hide HeldBy;
  }

  lemma SplxLevels(s: State, c: nat, high: bool)
    requires Levels(s) && c < |s.cpus|
    ensures s.threads[s.cpus[c].cur].high ==> s.threads[s.cpus[c].cur].count > 0
    ensures var s' := Splx(s, c, high);
            && Levels(s') && SameLists(s, s') && s'.holder == s.holder
            && s'.threads[s.cpus[c].cur].high == high
  {
    assert LevelOk(s, c);
    SplxFrame(s, c, high);
    var s' := Splx(s, c, high);
    assert forall d :: HeldBy(s', d) == HeldBy(s, d);
    hide HeldBy, Splx;
    LevelsOf(s, s', c);
  }

  // ---------------------------------------------------------------- steps that only change levels

  lemma CurrentsDiffer(s: State, c: nat, d: nat)
    requires Levels(s) && c < |s.cpus| && d < |s.cpus| && c != d
    ensures s.cpus[c].cur != s.cpus[d].cur
  {
    assert LevelOk(s, c) && LevelOk(s, d);
  }

  /** Everything about CPUs other than c is as before. */
  ghost predicate OthersSame(s: State, s': State, c: nat) {
    && |s'.cpus| == |s.cpus|
    && forall d | 0 <= d < |s.cpus| && d != c ::
         && s'.cpus[d] == s.cpus[d] && HeldBy(s', d) == HeldBy(s, d)
         && s.cpus[d].cur in s.threads && s.cpus[d].cur in s'.threads
         && s'.threads[s.cpus[d].cur] == s.threads[s.cpus[d].cur]
  }

  lemma OthersPhase(s: State, s': State, c: nat, d: nat)
    requires OthersSame(s, s', c) && |s'.wchans| == |s.wchans| && d < |s.cpus| && d != c
    requires s.cpus[d].cur in s.threads && PhaseOk(s, d)
    ensures s'.cpus[d].cur in s'.threads && PhaseOk(s', d)
  {
    hide HeldBy;
  }

  lemma AcquireOthers(s: State, c: nat, l: Lock)
    requires Levels(s) && c < |s.cpus| && l !in s.holder
    ensures OthersSame(s, SpinAcquire(s, c, l), c)
  {
    AcquireHeld(s, c, l);
    hide HeldBy;
    forall d | 0 <= d < |s.cpus| && d != c
      ensures s.cpus[d].cur != s.cpus[c].cur
    {
      CurrentsDiffer(s, c, d);
    }
  }

  lemma ReleaseOthers(s: State, c: nat, l: Lock)
    requires Levels(s) && c < |s.cpus| && IHold(s, c, l)
    requires s.cpus[c].spinlocks > 0 && s.threads[s.cpus[c].cur].count > 0
    ensures OthersSame(s, SpinRelease(s, c, l), c)
  {
    ReleaseHeld(s, c, l);
    hide HeldBy;
    forall d | 0 <= d < |s.cpus| && d != c
      ensures s.cpus[d].cur != s.cpus[c].cur
    {
      CurrentsDiffer(s, c, d);
    }
  }

  lemma SplxOthers(s: State, c: nat, high: bool)
    requires Levels(s) && c < |s.cpus|
    requires s.threads[s.cpus[c].cur].high ==> s.threads[s.cpus[c].cur].count > 0
    ensures OthersSame(s, Splx(s, c, high), c)
  {
    forall d | 0 <= d < |s.cpus| && d != c
      ensures s.cpus[d].cur != s.cpus[c].cur
    {
      CurrentsDiffer(s, c, d);
    }
  }

  lemma AllPhases(s: State, s': State, c: nat)
    requires Phases(s) && OthersSame(s, s', c) && |s'.wchans| == |s.wchans| && c < |s.cpus|
    requires s'.cpus[c].cur in s'.threads && PhaseOk(s', c)
    requires forall t | t in s'.threads :: s'.threads[t].cpu < |s.cpus|
    ensures Phases(s')
  {
    forall d | 0 <= d < |s'.cpus|
      ensures s'.cpus[d].cur in s'.threads && PhaseOk(s', d)
    {
      if d != c {
        OthersPhase(s, s', c, d);
      }
    }
  }

  lemma StepSplx(s: State, c: nat, high: bool)
    requires Inv(s) && c < |s.cpus| && s.cpus[c].phase.Body?
    ensures s.threads[s.cpus[c].cur].high ==> s.threads[s.cpus[c].cur].count > 0
    ensures Inv(Splx(s, c, high))
  {
    SplxLevels(s, c, high);
    SplxOthers(s, c, high);
    var s' := Splx(s, c, high);
    hide Splx, Levels, Conserved, ListsOk;
    SameListsConserved(s, s');
    SameListsKeep(s, s');
    AllPhases(s, s', c);
  }

  lemma StepAcquire(s: State, c: nat, l: Lock)
    requires Inv(s) && c < |s.cpus| && InCode(s.cpus[c].phase) && l !in s.holder
    ensures Inv(SpinAcquire(s, c, l))
  {
    AcquireHeld(s, c, l);
    AcquireLevels(s, c, l);
    AcquireOthers(s, c, l);
    var s' := SpinAcquire(s, c, l);
    hide SpinAcquire, Levels, Conserved, ListsOk, HeldBy;
    SameListsConserved(s, s');
    SameListsKeep(s, s');
    AllPhases(s, s', c);
  }

  lemma StepRelease(s: State, c: nat, l: Lock)
    requires Inv(s) && c < |s.cpus| && InCode(s.cpus[c].phase) && IHold(s, c, l)
    ensures s.cpus[c].spinlocks > 0 && s.threads[s.cpus[c].cur].count > 0
    ensures Inv(SpinRelease(s, c, l))
  {
    HolderCounts(s, c, l);
    ReleaseHeld(s, c, l);
    ReleaseLevels(s, c, l);
    ReleaseOthers(s, c, l);
    var s' := SpinRelease(s, c, l);
    hide SpinRelease, Levels, Conserved, ListsOk, HeldBy;
    SameListsConserved(s, s');
    SameListsKeep(s, s');
    AllPhases(s, s', c);
  }

  // ---------------------------------------------------------------- steps that change a level and the phase

  /** The parts of the invariant that do not look at the locks of a phase. */
  ghost predicate Rest(s: State) {
    Conserved(s) && ListsOk(s) && Levels(s)
  }

  lemma RestSame(s: State, s': State)
    requires Conserved(s) && ListsOk(s) && SameLists(s, s') && Levels(s')
    ensures Rest(s')
  {
    SameListsConserved(s, s');
    SameListsKeep(s, s');
  }

  lemma SetPhaseConserved(s: State, c: nat, p: Phase)
    requires Conserved(s) && c < |s.cpus|
    requires CurrentOnly(p) == CurrentOnly(s.cpus[c].phase)
    ensures Conserved(SetPhase(s, c, p))
  {
    var s' := SetPhase(s, c, p);
    forall t
      ensures Places(s', t) == Indicator(t in s'.threads)
    {
      assert Places(s, t) == Indicator(t in s.threads);
      CountSame(s.cpus, s'.cpus, t);
    }
  }

  lemma SetPhaseLists(s: State, c: nat, p: Phase)
    requires ListsOk(s) && c < |s.cpus|
    requires QueuedAs(p) == QueuedAs(s.cpus[c].phase)
    ensures ListsOk(SetPhase(s, c, p))
  {
    var s' := SetPhase(s, c, p);
    forall t, st
      ensures StateIs(s', t, st) <==> StateIs(s, t, st)
    {
    }
    hide StateIs;
    forall d | 0 <= d < |s'.cpus|
      ensures CpuListsOk(s', d)
    {
      assert CpuListsOk(s, d);
    }
  }

  lemma SetPhaseLevels(s: State, c: nat, p: Phase)
    requires Levels(s) && c < |s.cpus|
    ensures Levels(SetPhase(s, c, p))
  {
    var s' := SetPhase(s, c, p);
    assert forall d :: HeldBy(s', d) == HeldBy(s, d);
    hide HeldBy;
    forall d | 0 <= d < |s'.cpus|
      ensures s'.cpus[d].cur in s'.threads && LevelOk(s', d)
    {
      assert LevelOk(s, d);
    }
    assert forall t :: IsCurrent(s', t) <==> IsCurrent(s, t);
  }

  lemma SetPhaseRest(s: State, c: nat, p: Phase)
    requires Rest(s) && c < |s.cpus|
    requires CurrentOnly(p) == CurrentOnly(s.cpus[c].phase) && QueuedAs(p) == QueuedAs(s.cpus[c].phase)
    ensures Rest(SetPhase(s, c, p))
    ensures forall d :: HeldBy(SetPhase(s, c, p), d) == HeldBy(s, d)
  {
    SetPhaseConserved(s, c, p);
    SetPhaseLists(s, c, p);
    SetPhaseLevels(s, c, p);
  }

  lemma SetPhaseOthers(s: State, s1: State, c: nat, p: Phase)
    requires OthersSame(s, s1, c) && c < |s.cpus|
    ensures OthersSame(s, SetPhase(s1, c, p), c)
  {
    assert forall d :: HeldBy(SetPhase(s1, c, p), d) == HeldBy(s1, d);
    hide HeldBy;
  }

  /** A level or lock operation of CPU c: nothing moves, and c ends up with these locks and this level. */
  ghost predicate LevelChange(s: State, s': State, c: nat, held: set<Lock>, high: bool)
    requires c < |s.cpus| && s.cpus[c].cur in s.threads
  {
    && SameLists(s, s') && Rest(s') && OthersSame(s, s', c)
    && HeldBy(s', c) == held && s'.threads[s.cpus[c].cur].high == high
  }

  lemma AcquireChange(s: State, c: nat, l: Lock)
    requires Rest(s) && c < |s.cpus| && l !in s.holder
    ensures LevelChange(s, SpinAcquire(s, c, l), c, HeldBy(s, c) + {l}, s.threads[s.cpus[c].cur].high)
  {
    AcquireHeld(s, c, l);
    AcquireLevels(s, c, l);
    AcquireOthers(s, c, l);
    RestSame(s, SpinAcquire(s, c, l));
  }

  lemma ReleaseChange(s: State, c: nat, l: Lock)
    requires Rest(s) && c < |s.cpus| && l in HeldBy(s, c)
    ensures s.cpus[c].spinlocks > 0
    ensures s.threads[s.cpus[c].cur].count > Indicator(s.threads[s.cpus[c].cur].high)
    ensures LevelChange(s, SpinRelease(s, c, l), c, HeldBy(s, c) - {l}, s.threads[s.cpus[c].cur].high)
  {
    HolderCounts(s, c, l);
    ReleaseHeld(s, c, l);
    ReleaseLevels(s, c, l);
    ReleaseOthers(s, c, l);
    RestSame(s, SpinRelease(s, c, l));
  }

  lemma SplxChange(s: State, c: nat, high: bool)
    requires Rest(s) && c < |s.cpus|
    ensures s.threads[s.cpus[c].cur].high ==> s.threads[s.cpus[c].cur].count > 0
    ensures LevelChange(s, Splx(s, c, high), c, HeldBy(s, c), high)
  {
    SplxLevels(s, c, high);
    SplxOthers(s, c, high);
    RestSame(s, Splx(s, c, high));
  }

  /** Completes a step whose last act is to move CPU c to phase p. */
  lemma FinishPhase(s: State, s1: State, c: nat, p: Phase)
    requires Inv(s) && c < |s.cpus| && s.cpus[c].cur in s.threads
    requires SameLists(s, s1) && Rest(s1) && OthersSame(s, s1, c)
    requires CurrentOnly(p) == CurrentOnly(s.cpus[c].phase) && QueuedAs(p) == QueuedAs(s.cpus[c].phase)
    requires PhaseOk(SetPhase(s1, c, p), c)
    ensures Inv(SetPhase(s1, c, p))
  {
    SetPhaseRest(s1, c, p);
    SetPhaseOthers(s, s1, c, p);
    hide Rest, PhaseOk, OthersSame;
    AllPhases(s, SetPhase(s1, c, p), c);
  }

  lemma HeldAfterPhase(s: State, c: nat, p: Phase)
    requires c < |s.cpus|
    ensures forall d :: HeldBy(SetPhase(s, c, p), d) == HeldBy(s, d)
  {
  }

  lemma QueuePhase(s: State, s1: State, c: nat)
    requires SameLists(s, s1) && c < |s.cpus| && s.cpus[c].cur in s.threads
    requires s.cpus[c].phase.Enter? && PhaseOk(s, c)
    requires HeldBy(s1, c) == HeldBy(s, c) + {RunQ(c)} && s1.threads[s.cpus[c].cur].high
    ensures PhaseOk(SetPhase(s1, c, Queue(s.cpus[c].phase.ns)), c)
  {
    HeldAfterPhase(s1, c, Queue(s.cpus[c].phase.ns));
    hide HeldBy;
  }

  lemma StepLockQueue(s: State, c: nat)
    requires Inv(s) && c < |s.cpus| && s.cpus[c].phase.Enter? && RunQ(c) !in s.holder
    ensures Inv(SetPhase(SpinAcquire(s, c, RunQ(c)), c, Queue(s.cpus[c].phase.ns)))
  {
    var s1 := SpinAcquire(s, c, RunQ(c));
    assert PhaseOk(s, c) && s.threads[s.cpus[c].cur].high;
    hide SpinAcquire, Rest, HeldBy, OthersSame, Levels, ListsOk, Conserved, SameLists, PhaseOk;
    AcquireChange(s, c, RunQ(c));
    QueuePhase(s, s1, c);
    FinishPhase(s, s1, c, Queue(s.cpus[c].phase.ns));
  }

  lemma PickPhase(s: State, s1: State, c: nat)
    requires SameLists(s, s1) && c < |s.cpus| && s.cpus[c].cur in s.threads
    requires s.cpus[c].phase.Idle? && PhaseOk(s, c) && s.cpus[c].woken == [] && s.cpus[c].victims == []
    requires HeldBy(s1, c) == {RunQ(c)} && s1.threads[s.cpus[c].cur].high
    ensures PhaseOk(SetPhase(s1, c, Pick), c)
  {
    HeldAfterPhase(s1, c, Pick);
    hide HeldBy;
  }

  lemma StepUnidle(s: State, c: nat)
    requires Inv(s) && c < |s.cpus| && s.cpus[c].phase.Idle? && RunQ(c) !in s.holder
    requires s.cpus[c].spinlocks == 0 && s.cpus[c].woken == [] && s.cpus[c].victims == []
    ensures Inv(SetPhase(SpinAcquire(s, c, RunQ(c)), c, Pick))
  {
    var s1 := SpinAcquire(s, c, RunQ(c));
    assert PhaseOk(s, c) && LevelOk(s, c) && s.threads[s.cpus[c].cur].high;
    assert HeldBy(s, c) + {RunQ(c)} == {RunQ(c)};
    hide SpinAcquire, Rest, HeldBy, OthersSame, Levels, ListsOk, Conserved, SameLists, PhaseOk;
    AcquireChange(s, c, RunQ(c));
    PickPhase(s, s1, c);
    FinishPhase(s, s1, c, Pick);
  }

  lemma StepUnlockChannel(s: State, c: nat)
    requires Inv(s) && c < |s.cpus| && s.cpus[c].phase.Unlock?
    ensures s.cpus[c].spinlocks > 0 && s.threads[s.cpus[c].cur].count > 0
    ensures Inv(SetPhase(SpinRelease(s, c, Other(s.cpus[c].phase.w)), c, SetState(Sleeping(s.cpus[c].phase.w))))
  {
    assert PhaseOk(s, c) && s.threads[s.cpus[c].cur].high;
    var w := s.cpus[c].phase.w;
    assert Other(w) in HeldBy(s, c) && HeldBy(s, c) - {Other(w)} == {RunQ(c)};
    hide SpinRelease, Rest, HeldBy, OthersSame, Levels, ListsOk, Conserved, SameLists, PhaseOk;
    ReleaseChange(s, c, Other(w));
    var s1 := SpinRelease(s, c, Other(w));
    SleepingPhase(s, s1, c);
    FinishPhase(s, s1, c, SetState(Sleeping(w)));
  }

  lemma SleepingPhase(s: State, s1: State, c: nat)
    requires SameLists(s, s1) && c < |s.cpus| && s.cpus[c].cur in s.threads
    requires s.cpus[c].phase.Unlock? && PhaseOk(s, c) && s1.threads[s.cpus[c].cur].high && HeldBy(s1, c) == {RunQ(c)}
    ensures PhaseOk(SetPhase(s1, c, SetState(Sleeping(s.cpus[c].phase.w))), c)
  {
    HeldAfterPhase(s1, c, SetState(Sleeping(s.cpus[c].phase.w)));
    hide HeldBy;
  }

  lemma StepPickEmpty(s: State, c: nat)
    requires Inv(s) && c < |s.cpus| && s.cpus[c].phase.Pick?
    ensures s.cpus[c].spinlocks > 0 && s.threads[s.cpus[c].cur].count > 0
    ensures Inv(SetPhase(SpinRelease(s, c, RunQ(c)), c, Idle))
  {
    hide SpinRelease, HeldBy, OthersSame, Levels, ListsOk, Conserved, Phases, SameLists, PhaseOk;
    Picking(s, c);
    ReleaseChange(s, c, RunQ(c));
    var s1 := SpinRelease(s, c, RunQ(c));
    IdlePhase(s, s1, c);
    FinishPhase(s, s1, c, Idle);
  }

  lemma Picking(s: State, c: nat)
    requires Phases(s) && c < |s.cpus| && s.cpus[c].phase.Pick?
    ensures s.cpus[c].cur in s.threads && PhaseOk(s, c) && RunQ(c) in HeldBy(s, c) && s.threads[s.cpus[c].cur].high
  {
  }

  lemma IdlePhase(s: State, s1: State, c: nat)
    requires SameLists(s, s1) && c < |s.cpus| && s.cpus[c].cur in s.threads
    requires s.cpus[c].phase.Pick? && PhaseOk(s, c) && s1.threads[s.cpus[c].cur].high
    ensures PhaseOk(SetPhase(s1, c, Idle), c)
  {
    hide HeldBy;
  }

  lemma BodyPhase(s: State, s1: State, c: nat)
    requires SameLists(s, s1) && c < |s.cpus| && s.cpus[c].cur in s.threads
    requires s.cpus[c].phase.Queue? && PhaseOk(s, c)
    ensures PhaseOk(SetPhase(s1, c, Body), c)
  {
  }

  lemma ReleaseThenSplx(s: State, c: nat, l: Lock, high: bool)
    requires Rest(s) && c < |s.cpus| && s.cpus[c].cur in s.threads && l in HeldBy(s, c)
    ensures s.cpus[c].spinlocks > 0
    ensures s.threads[s.cpus[c].cur].count > Indicator(s.threads[s.cpus[c].cur].high)
    ensures var s2 := Splx(SpinRelease(s, c, l), c, high);
            SameLists(s, s2) && Rest(s2) && OthersSame(s, s2, c)
  {
    hide SpinRelease, Splx, Rest, HeldBy, OthersSame;
    ReleaseChange(s, c, l);
    var s1 := SpinRelease(s, c, l);
    assert s1.cpus[c].cur == s.cpus[c].cur;
    SplxChange(s1, c, high);
    OthersTwice(s, s1, Splx(s1, c, high), c);
    SameListsTwice(s, s1, Splx(s1, c, high));
  }

  /** The short cut of thread_switch: nothing else to run, so release the lock and go on. */
  lemma StepNothingElse(s: State, c: nat)
    requires Inv(s) && c < |s.cpus| && s.cpus[c].phase.Queue?
    ensures s.cpus[c].spinlocks > 0 && s.threads[s.cpus[c].cur].count > 1 && s.threads[s.cpus[c].cur].saved.Level?
    ensures Inv(SetPhase(Splx(SpinRelease(s, c, RunQ(c)), c, s.threads[s.cpus[c].cur].saved.high), c, Body))
  {
    assert PhaseOk(s, c) && RunQ(c) in HeldBy(s, c) && s.threads[s.cpus[c].cur].saved.Level?;
    assert s.threads[s.cpus[c].cur].high;
    var high := s.threads[s.cpus[c].cur].saved.high;
    hide SpinRelease, Splx, Rest, HeldBy, OthersSame, SameLists, Levels, ListsOk, Conserved, PhaseOk;
    ReleaseThenSplx(s, c, RunQ(c), high);
    var s2 := Splx(SpinRelease(s, c, RunQ(c)), c, high);
    BodyPhase(s, s2, c);
    FinishPhase(s, s2, c, Body);
  }

  lemma OthersTwice(s: State, s1: State, s2: State, c: nat)
    requires OthersSame(s, s1, c) && OthersSame(s1, s2, c)
    ensures OthersSame(s, s2, c)
  {
  }

  lemma SameListsTwice(s: State, s1: State, s2: State)
    requires SameLists(s, s1) && SameLists(s1, s2)
    ensures SameLists(s, s2)
  {
  }

  // ---------------------------------------------------------------- counting places

  lemma {:induction false} CountUpdate(cpus: seq<Cpu>, c: nat, x: Cpu, t: Tid)
    requires c < |cpus|
    ensures CountOnCpus(cpus[c := x], t) + CountOnCpu(cpus[c], t) == CountOnCpus(cpus, t) + CountOnCpu(x, t)
  {
    if c == 0 {
      assert cpus[c := x][1..] == cpus[1..];
    } else {
      assert cpus[c := x][1..] == cpus[1..][c - 1 := x];
      CountUpdate(cpus[1..], c - 1, x, t);
    }
  }

  lemma {:induction false} ChannelUpdate(ws: seq<seq<Tid>>, w: nat, x: seq<Tid>, t: Tid)
    requires w < |ws|
    ensures CountOnChannels(ws[w := x], t) + multiset(ws[w])[t] == CountOnChannels(ws, t) + multiset(x)[t]
  {
    if w == 0 {
      assert ws[w := x][1..] == ws[1..];
    } else {
      assert ws[w := x][1..] == ws[1..][w - 1 := x];
      ChannelUpdate(ws[1..], w - 1, x, t);
    }
  }

  lemma {:induction false} CountTwo(cpus: seq<Cpu>, c: nat, d: nat, t: Tid)
    requires c < |cpus| && d < |cpus|
    ensures CountOnCpu(cpus[c], t) <= CountOnCpus(cpus, t)
    ensures c != d ==> CountOnCpu(cpus[c], t) + CountOnCpu(cpus[d], t) <= CountOnCpus(cpus, t)
  {
    if c == 0 {
      if d > 0 {
        CountTwo(cpus[1..], d - 1, d - 1, t);
      }
    } else if d == 0 {
      CountTwo(cpus[1..], c - 1, c - 1, t);
    } else {
      CountTwo(cpus[1..], c - 1, d - 1, t);
    }
  }

  lemma {:induction false} ChannelCounts(ws: seq<seq<Tid>>, w: nat, v: nat, t: Tid)
    requires w < |ws| && v < |ws|
    ensures multiset(ws[w])[t] <= CountOnChannels(ws, t)
    ensures w != v ==> multiset(ws[w])[t] + multiset(ws[v])[t] <= CountOnChannels(ws, t)
  {
    if w == 0 {
      if v > 0 {
        ChannelCounts(ws[1..], v - 1, v - 1, t);
      }
    } else if v == 0 {
      ChannelCounts(ws[1..], w - 1, w - 1, t);
    } else {
      ChannelCounts(ws[1..], w - 1, v - 1, t);
    }
  }

  lemma Pushed(q: seq<Tid>, x: Tid, t: Tid)
    ensures multiset(q + [x])[t] == multiset(q)[t] + Indicator(t == x)
    ensures multiset([x] + q)[t] == multiset(q)[t] + Indicator(t == x)
  {
  }

  lemma Popped(q: seq<Tid>, t: Tid)
    requires q != []
    ensures multiset(q)[t] == multiset(q[1..])[t] + Indicator(t == q[0])
    ensures multiset(q)[t] == multiset(q[..|q| - 1])[t] + Indicator(t == q[|q| - 1])
  {
    assert q == [q[0]] + q[1..];
    assert q == q[..|q| - 1] + [q[|q| - 1]];
  }

  /** A thread on one list of CPU c is on no other list. */
  ghost predicate OnlyAtCpu(s: State, t: Tid, c: nat)
    requires c < |s.cpus|
  {
    && CountOnCpu(s.cpus[c], t) == 1
    && (forall d | 0 <= d < |s.cpus| && d != c :: CountOnCpu(s.cpus[d], t) == 0)
    && (forall w | 0 <= w < |s.wchans| :: t !in s.wchans[w])
  }

  lemma AtCpu(s: State, t: Tid, c: nat)
    requires Conserved(s) && c < |s.cpus| && CountOnCpu(s.cpus[c], t) > 0
    ensures t in s.threads && OnlyAtCpu(s, t, c)
  {
    assert Places(s, t) == Indicator(t in s.threads);
    CountTwo(s.cpus, c, c, t);
    forall d | 0 <= d < |s.cpus| && d != c
      ensures CountOnCpu(s.cpus[d], t) == 0
    {
      CountTwo(s.cpus, c, d, t);
    }
    forall w | 0 <= w < |s.wchans|
      ensures t !in s.wchans[w]
    {
      ChannelCounts(s.wchans, w, w, t);
    }
  }

  /** A thread on channel w is on no CPU and on no other channel. */
  lemma AtChannel(s: State, t: Tid, w: nat)
    requires Conserved(s) && w < |s.wchans| && t in s.wchans[w]
    ensures t in s.threads
    ensures forall d | 0 <= d < |s.cpus| :: CountOnCpu(s.cpus[d], t) == 0
    ensures multiset(s.wchans[w])[t] == 1
    ensures forall v | 0 <= v < |s.wchans| && v != w :: t !in s.wchans[v]
  {
    assert Places(s, t) == Indicator(t in s.threads);
    ChannelCounts(s.wchans, w, w, t);
    forall d | 0 <= d < |s.cpus|
      ensures CountOnCpu(s.cpus[d], t) == 0
    {
      CountTwo(s.cpus, d, d, t);
    }
    forall v | 0 <= v < |s.wchans| && v != w
      ensures t !in s.wchans[v]
    {
      ChannelCounts(s.wchans, w, v, t);
    }
  }

  // ---------------------------------------------------------------- frames for list operations

  /** Threads outside ts look the same. */
  ghost predicate SameThreads(s: State, s': State, ts: set<Tid>) {
    forall u | u !in ts ::
      && (u in s'.threads <==> u in s.threads)
      && (u in s.threads ==> Effective(s', u) == Effective(s, u) && s'.threads[u].cpu == s.threads[u].cpu)
  }

  ghost predicate Within(q: seq<Tid>, q': seq<Tid>, ts: set<Tid>) {
    forall u | u in q' :: u in ts || u in q
  }

  /** Only members of ts have joined any list. */
  ghost predicate OnlyMoved(s: State, s': State, ts: set<Tid>) {
    && |s'.cpus| == |s.cpus| && |s'.wchans| == |s.wchans|
    && (forall c | 0 <= c < |s.cpus| ::
          && Within(s.cpus[c].runq, s'.cpus[c].runq, ts) && Within(s.cpus[c].victims, s'.cpus[c].victims, ts)
          && Within(s.cpus[c].woken, s'.cpus[c].woken, ts) && Within(s.cpus[c].zombies, s'.cpus[c].zombies, ts))
    && (forall w | 0 <= w < |s.wchans| :: Within(s.wchans[w], s'.wchans[w], ts))
  }

  /** The lists that t is on are the right ones. */
  ghost predicate PlacedOk(s: State, t: Tid) {
    && (forall c | 0 <= c < |s.cpus| ::
          && (t in s.cpus[c].runq ==> QueuedOn(s, t, c)) && (t in s.cpus[c].victims ==> QueuedOn(s, t, c))
          && (t in s.cpus[c].woken ==> WokenOk(s, t)) && (t in s.cpus[c].zombies ==> ZombieOn(s, t, c)))
    && (forall w | 0 <= w < |s.wchans| && t in s.wchans[w] :: StateIs(s, t, Sleep))
  }

  lemma ListsMoved(s: State, s': State, ts: set<Tid>)
    requires ListsOk(s) && SameThreads(s, s', ts) && OnlyMoved(s, s', ts)
    requires forall t | t in ts :: PlacedOk(s', t)
    ensures ListsOk(s')
  {
    hide Effective;
    forall c | 0 <= c < |s'.cpus|
      ensures CpuListsOk(s', c)
    {
      assert CpuListsOk(s, c);
    }
    forall w, t | 0 <= w < |s'.wchans| && t in s'.wchans[w]
      ensures StateIs(s', t, Sleep)
    {
      assert t in ts || t in s.wchans[w];
      assert t !in ts ==> StateIs(s, t, Sleep);
    }
  }

  /** The part of CPU d that its level depends on. */
  ghost predicate SameLevel(s: State, s': State, d: nat)
    requires d < |s.cpus| && d < |s'.cpus|
  {
    var a, b := s.cpus[d], s'.cpus[d];
    && b.cur == a.cur && b.spinlocks == a.spinlocks && b.irq == a.irq
    && a.cur in s.threads && a.cur in s'.threads
    && var x, y := s.threads[a.cur], s'.threads[a.cur];
       y.high == x.high && y.count == x.count && y.cpu == x.cpu
  }

  lemma LevelsKept(s: State, s': State)
    requires Levels(s) && |s'.cpus| == |s.cpus| && s'.holder == s.holder
    requires forall d | 0 <= d < |s.cpus| :: SameLevel(s, s', d)
    requires forall t | t in s'.threads && !IsCurrent(s', t) :: SwitchedOut(s'.threads[t])
    ensures Levels(s')
  {
    assert forall d :: HeldBy(s', d) == HeldBy(s, d);
    hide HeldBy;
    forall d | 0 <= d < |s'.cpus|
      ensures s'.cpus[d].cur in s'.threads && LevelOk(s', d)
    {
      assert LevelOk(s, d) && SameLevel(s, s', d);
    }
  }

  /** The part of CPU d that its phase depends on. */
  ghost predicate SamePhase(s: State, s': State, d: nat)
    requires d < |s.cpus| && d < |s'.cpus|
  {
    var a, b := s.cpus[d], s'.cpus[d];
    && b.cur == a.cur && b.phase == a.phase && b.isidle == a.isidle
    && (InCode(a.phase) || (b.woken == a.woken && b.victims == a.victims))
    && a.cur in s.threads && a.cur in s'.threads
    && var x, y := s.threads[a.cur], s'.threads[a.cur];
       y.high == x.high && y.saved == x.saved && y.boot == x.boot
         && (y.state == x.state || a.phase.Pick? || a.phase.Idle?)
  }

  lemma PhasesKept(s: State, s': State)
    requires Phases(s) && |s'.cpus| == |s.cpus| && s'.holder == s.holder && |s'.wchans| == |s.wchans|
    requires forall d | 0 <= d < |s.cpus| :: SamePhase(s, s', d)
    requires forall t | t in s'.threads :: s'.threads[t].cpu < |s.cpus|
    ensures Phases(s')
  {
    forall d | 0 <= d < |s'.cpus|
      ensures s'.cpus[d].cur in s'.threads && PhaseOk(s', d)
    {
      assert HeldBy(s', d) == HeldBy(s, d);
      assert PhaseOk(s, d) && SamePhase(s, s', d);
    }
  }

  ghost predicate SameCpuRest(s: State, s': State) {
    && |s'.cpus| == |s.cpus| && |s'.wchans| == |s.wchans| && s'.holder == s.holder
    && (forall d | 0 <= d < |s.cpus| :: SameLevel(s, s', d) && SamePhase(s, s', d))
    && (forall t | t in s'.threads :: s'.threads[t].cpu < |s.cpus|)
    && (forall t | t in s'.threads && !IsCurrent(s', t) :: SwitchedOut(s'.threads[t]))
  }

  lemma MoveStep(s: State, s': State, t: Tid)
    requires Inv(s) && Conserved(s') && SameCpuRest(s, s')
    requires SameThreads(s, s', {t}) && OnlyMoved(s, s', {t}) && PlacedOk(s', t)
    ensures Inv(s')
  {
    hide Conserved, SameThreads, OnlyMoved, PlacedOk, PhaseOk, LevelOk, SwitchedOut, IsCurrent;
    ListsMoved(s, s', {t});
    LevelsKept(s, s');
    PhasesKept(s, s');
  }

  lemma InList(cpu: Cpu, t: Tid)
    ensures (t in cpu.runq || t in cpu.zombies || t in cpu.woken || t in cpu.victims) ==> CountOnCpu(cpu, t) > 0
    ensures CurrentOnly(cpu.phase) ==> CountOnCpu(cpu, cpu.cur) > 0
  {
  }

  // ---------------------------------------------------------------- waking, forking and migrating

  lemma ForkConserved(s: State, s': State, c: nat, t: Tid)
    requires Conserved(s) && c < |s.cpus| && t !in s.threads
    requires s'.cpus == s.cpus[c := s.cpus[c].(woken := s.cpus[c].woken + [t])] && s'.wchans == s.wchans
    requires s'.threads.Keys == s.threads.Keys + {t}
    ensures Conserved(s')
  {
    forall u
      ensures Places(s', u) == Indicator(u in s'.threads)
    {
      assert Places(s, u) == Indicator(u in s.threads);
      assert u in s'.threads <==> u in s'.threads.Keys;
      CountUpdate(s.cpus, c, s.cpus[c].(woken := s.cpus[c].woken + [t]), u);
      Pushed(s.cpus[c].woken, t, u);
    }
  }

  /** Lists of CPUs and channels may differ, and thread t; nothing else. */
  ghost predicate OnlyLists(s: State, s': State, t: Tid) {
    && |s'.cpus| == |s.cpus| && |s'.wchans| == |s.wchans| && s'.holder == s.holder
    && (forall d | 0 <= d < |s.cpus| ::
          var a, b := s.cpus[d], s'.cpus[d];
          && b.cur == a.cur && b.phase == a.phase && b.isidle == a.isidle
          && b.spinlocks == a.spinlocks && b.irq == a.irq
          && (InCode(a.phase) || (b.woken == a.woken && b.victims == a.victims)))
    && t in s'.threads && s'.threads.Keys == s.threads.Keys + {t}
    && (forall u | u in s.threads && u != t :: s'.threads[u] == s.threads[u])
  }

  lemma OnlyListsThreads(s: State, s': State, t: Tid)
    requires OnlyLists(s, s', t)
    ensures SameThreads(s, s', {t})
  {
    assert forall u :: (u in s'.threads <==> u in s'.threads.Keys) && (u in s.threads <==> u in s.threads.Keys);
  }

  /** t stays where it is as far as levels and phases can tell. */
  ghost predicate Unseen(s: State, s': State, t: Tid)
    requires t in s'.threads
  {
    var y := s'.threads[t];
    && y.cpu < |s.cpus|
    && if IsCurrent(s, t) then
         var x := s.threads[t];
         && y.cpu == x.cpu && y.high == x.high && y.count == x.count && y.saved == x.saved && y.boot == x.boot
         && (y.state == x.state || s.cpus[x.cpu].phase.Pick? || s.cpus[x.cpu].phase.Idle?)
       else
         SwitchedOut(y) && forall d | 0 <= d < |s.cpus| :: s.cpus[d].cur != t
  }

  lemma OnlyListsRest(s: State, s': State, t: Tid)
    requires Phases(s) && Levels(s) && OnlyLists(s, s', t) && Unseen(s, s', t)
    ensures SameCpuRest(s, s')
  {
    hide PhaseOk, HeldBy;
    assert forall u :: (u in s'.threads <==> u in s'.threads.Keys) && (u in s.threads <==> u in s.threads.Keys);
    forall d | 0 <= d < |s.cpus|
      ensures SameLevel(s, s', d) && SamePhase(s, s', d)
    {
      assert s.cpus[d].cur in s.threads && LevelOk(s, d);
    }
    forall u | u in s'.threads && !IsCurrent(s', u)
      ensures SwitchedOut(s'.threads[u])
    {
      if u != t {
        assert !IsCurrent(s, u);
      }
    }
  }

  lemma NotCurrent(s: State, t: Tid)
    requires Levels(s) && (t in s.threads ==> !IsCurrent(s, t))
    ensures forall d | 0 <= d < |s.cpus| :: s.cpus[d].cur != t
  {
    forall d | 0 <= d < |s.cpus|
      ensures s.cpus[d].cur != t
    {
      assert s.cpus[d].cur in s.threads && LevelOk(s, d);
    }
  }

  lemma NowhereYet(s: State, t: Tid)
    requires ListsOk(s) && t !in s.threads
    ensures forall d | 0 <= d < |s.cpus| ::
              t !in s.cpus[d].runq && t !in s.cpus[d].victims && t !in s.cpus[d].zombies && t !in s.cpus[d].woken
    ensures forall w | 0 <= w < |s.wchans| :: t !in s.wchans[w]
  {
    forall d | 0 <= d < |s.cpus|
      ensures t !in s.cpus[d].runq && t !in s.cpus[d].victims && t !in s.cpus[d].zombies && t !in s.cpus[d].woken
    {
      assert CpuListsOk(s, d);
    }
    forall w | 0 <= w < |s.wchans|
      ensures t !in s.wchans[w]
    {
      assert t in s.wchans[w] ==> StateIs(s, t, Sleep);
    }
  }

  lemma ForkFrame(s: State, c: nat, t: Tid)
    requires c < |s.cpus| && s.cpus[c].cur in s.threads && s.threads[s.cpus[c].cur].cpu < |s.cpus|
    requires s.cpus[c].phase.Body? && t !in s.threads
    requires forall d | 0 <= d < |s.cpus| :: s.cpus[d].cur != t
    ensures OnlyLists(s, ForkThread(s, c, t), t) && Unseen(s, ForkThread(s, c, t), t)
  {
  }

  lemma ForkPlaced(s: State, c: nat, t: Tid)
    requires c < |s.cpus| && s.cpus[c].cur in s.threads
    requires forall d | 0 <= d < |s.cpus| :: s.cpus[d].cur != t
    requires forall d | 0 <= d < |s.cpus| ::
               t !in s.cpus[d].runq && t !in s.cpus[d].victims && t !in s.cpus[d].zombies && t !in s.cpus[d].woken
    requires forall w | 0 <= w < |s.wchans| :: t !in s.wchans[w]
    ensures OnlyMoved(s, ForkThread(s, c, t), {t}) && PlacedOk(ForkThread(s, c, t), t)
  {
    assert Effective(ForkThread(s, c, t), t) == Ready;
    hide Effective;
  }

  /** thread_fork: the new thread starts as if it had been switched out. */
  lemma StepFork(s: State, c: nat, t: Tid)
    requires Inv(s) && c < |s.cpus| && s.cpus[c].phase.Body? && t !in s.threads
    ensures Inv(ForkThread(s, c, t))
  {
    var s' := ForkThread(s, c, t);
    assert s.cpus[c].cur in s.threads && LevelOk(s, c);
    NotCurrent(s, t);
    NowhereYet(s, t);
    ForkFrame(s, c, t);
    ForkPlaced(s, c, t);
    ForkConserved(s, s', c, t);
    hide *;
    ListStep(s, s', t);
  }

  lemma ListStep(s: State, s': State, t: Tid)
    requires Inv(s) && Conserved(s')
    requires OnlyLists(s, s', t) && Unseen(s, s', t) && OnlyMoved(s, s', {t}) && PlacedOk(s', t)
    ensures Inv(s')
  {
    hide Conserved, ListsOk, Phases, Levels, SameCpuRest, OnlyMoved, PlacedOk, Unseen, SameThreads;
    OnlyListsRest(s, s', t);
    OnlyListsThreads(s, s', t);
    MoveStep(s, s', t);
  }

  lemma StillUnseen(s: State, s': State, t: Tid)
    requires Phases(s) && Levels(s) && t in s.threads && t in s'.threads && s'.threads[t] == s.threads[t]
    ensures Unseen(s, s', t)
  {
    if !IsCurrent(s, t) {
      NotCurrent(s, t);
    }
  }

  lemma WaiterConserved(s: State, c: nat, w: nat)
    requires Conserved(s) && c < |s.cpus| && w < |s.wchans| && s.wchans[w] != []
    ensures Conserved(ExecTakeWaiter(s, c, w))
  {
    var s' := ExecTakeWaiter(s, c, w);
    forall u
      ensures Places(s', u) == Indicator(u in s'.threads)
    {
      assert Places(s, u) == Indicator(u in s.threads);
      CountUpdate(s.cpus, c, s'.cpus[c], u);
      ChannelUpdate(s.wchans, w, s.wchans[w][1..], u);
      Pushed(s.cpus[c].woken, s.wchans[w][0], u);
      Popped(s.wchans[w], u);
    }
  }

  lemma WaiterAlone(s: State, w: nat)
    requires Conserved(s) && ListsOk(s) && w < |s.wchans| && s.wchans[w] != []
    ensures var t := s.wchans[w][0];
            && t in s.threads && StateIs(s, t, Sleep) && t !in s.wchans[w][1..]
            && (forall d | 0 <= d < |s.cpus| ::
                  t !in s.cpus[d].runq && t !in s.cpus[d].victims && t !in s.cpus[d].zombies && t !in s.cpus[d].woken)
            && (forall v | 0 <= v < |s.wchans| && v != w :: t !in s.wchans[v])
  {
    var t := s.wchans[w][0];
    AtChannel(s, t, w);
    Popped(s.wchans[w], t);
    assert StateIs(s, t, Sleep);
    forall d | 0 <= d < |s.cpus|
      ensures t !in s.cpus[d].runq && t !in s.cpus[d].victims && t !in s.cpus[d].zombies && t !in s.cpus[d].woken
    {
      InList(s.cpus[d], t);
    }
  }

  lemma WaiterFrame(s: State, c: nat, w: nat)
    requires c < |s.cpus| && w < |s.wchans| && s.wchans[w] != [] && InCode(s.cpus[c].phase)
             && s.wchans[w][0] in s.threads
    ensures var s', t := ExecTakeWaiter(s, c, w), s.wchans[w][0];
            OnlyLists(s, s', t) && OnlyMoved(s, s', {t})
  {
    assert s.threads.Keys == s.threads.Keys + {s.wchans[w][0]};
  }

  lemma WaiterPlaced(s: State, c: nat, w: nat)
    requires c < |s.cpus| && w < |s.wchans| && s.wchans[w] != [] && Conserved(s) && ListsOk(s)
    ensures PlacedOk(ExecTakeWaiter(s, c, w), s.wchans[w][0])
  {
    var s', t := ExecTakeWaiter(s, c, w), s.wchans[w][0];
    WaiterAlone(s, w);
    assert StateIs(s', t, Sleep);
    hide StateIs, Conserved, ListsOk;
  }

  lemma StepTakeWaiter(s: State, c: nat, w: nat)
    requires Inv(s) && c < |s.cpus| && InCode(s.cpus[c].phase) && w < |s.wchans| && s.wchans[w] != []
    ensures Inv(ExecTakeWaiter(s, c, w))
  {
    var s', t := ExecTakeWaiter(s, c, w), s.wchans[w][0];
    assert s'.threads == s.threads;
    hide Conserved, ListsOk, Levels, Phases, OnlyLists, OnlyMoved, PlacedOk, Unseen;
    WaiterConserved(s, c, w);
    WaiterAlone(s, w);
    WaiterFrame(s, c, w);
    WaiterPlaced(s, c, w);
    StillUnseen(s, s', t);
    ListStep(s, s', t);
  }

  function MoveVictim(s: State, c: nat, runq: seq<Tid>, victims: seq<Tid>): State
    requires c < |s.cpus|
  {
    UpdateCpu(s, c, s.cpus[c].(runq := runq, victims := victims))
  }

  lemma VictimConserved(s: State, c: nat, runq: seq<Tid>, victims: seq<Tid>)
    requires Conserved(s) && c < |s.cpus|
    requires multiset(runq) + multiset(victims) == multiset(s.cpus[c].runq) + multiset(s.cpus[c].victims)
    ensures Conserved(MoveVictim(s, c, runq, victims))
  {
    var s' := MoveVictim(s, c, runq, victims);
    forall u
      ensures Places(s', u) == Indicator(u in s'.threads)
    {
      assert Places(s, u) == Indicator(u in s.threads);
      CountUpdate(s.cpus, c, s'.cpus[c], u);
      assert (multiset(runq) + multiset(victims))[u] == multiset(runq)[u] + multiset(victims)[u];
      assert (multiset(s.cpus[c].runq) + multiset(s.cpus[c].victims))[u]
          == multiset(s.cpus[c].runq)[u] + multiset(s.cpus[c].victims)[u];
    }
  }

  lemma VictimFrame(s: State, c: nat, runq: seq<Tid>, victims: seq<Tid>, t: Tid)
    requires c < |s.cpus| && InCode(s.cpus[c].phase) && t in s.threads
    requires forall u | u in runq :: u == t || u in s.cpus[c].runq
    requires forall u | u in victims :: u == t || u in s.cpus[c].victims
    ensures OnlyLists(s, MoveVictim(s, c, runq, victims), t) && OnlyMoved(s, MoveVictim(s, c, runq, victims), {t})
  {
    assert s.threads.Keys == s.threads.Keys + {t};
  }

  lemma VictimPlaced(s: State, c: nat, runq: seq<Tid>, victims: seq<Tid>, t: Tid)
    requires Conserved(s) && ListsOk(s) && c < |s.cpus|
    requires t in s.cpus[c].runq || t in s.cpus[c].victims
    ensures t in s.threads && PlacedOk(MoveVictim(s, c, runq, victims), t)
  {
    var s' := MoveVictim(s, c, runq, victims);
    InList(s.cpus[c], t);
    AtCpu(s, t, c);
    forall d | 0 <= d < |s.cpus| && d != c
      ensures t !in s.cpus[d].runq && t !in s.cpus[d].victims && t !in s.cpus[d].zombies && t !in s.cpus[d].woken
    {
      InList(s.cpus[d], t);
    }
    assert t !in s.cpus[c].zombies && t !in s.cpus[c].woken;
    assert CpuListsOk(s, c) && QueuedOn(s, t, c);
    assert QueuedOn(s', t, c);
    hide QueuedOn, Conserved, ListsOk, CpuListsOk;
  }

  /** Moving a thread between the run queue and the victims of its own CPU. */
  lemma StepVictim(s: State, c: nat, runq: seq<Tid>, victims: seq<Tid>, t: Tid)
    requires Inv(s) && c < |s.cpus| && InCode(s.cpus[c].phase)
    requires multiset(runq) + multiset(victims) == multiset(s.cpus[c].runq) + multiset(s.cpus[c].victims)
    requires t in s.cpus[c].runq || t in s.cpus[c].victims
    requires forall u | u in runq :: u == t || u in s.cpus[c].runq
    requires forall u | u in victims :: u == t || u in s.cpus[c].victims
    ensures Inv(MoveVictim(s, c, runq, victims))
  {
    var s' := MoveVictim(s, c, runq, victims);
    assert s'.threads == s.threads;
    hide Conserved, ListsOk, Levels, Phases, OnlyLists, OnlyMoved, PlacedOk, Unseen;
    VictimConserved(s, c, runq, victims);
    VictimPlaced(s, c, runq, victims, t);
    VictimFrame(s, c, runq, victims, t);
    StillUnseen(s, s', t);
    ListStep(s, s', t);
  }

  lemma StepTakeVictim(s: State, c: nat)
    requires Inv(s) && c < |s.cpus| && InCode(s.cpus[c].phase) && s.cpus[c].runq != []
    ensures var q := s.cpus[c].runq;
            Inv(MoveVictim(s, c, q[..|q| - 1], [q[|q| - 1]] + s.cpus[c].victims))
  {
    var q := s.cpus[c].runq;
    assert q == q[..|q| - 1] + [q[|q| - 1]];
    hide Inv;
    StepVictim(s, c, q[..|q| - 1], [q[|q| - 1]] + s.cpus[c].victims, q[|q| - 1]);
  }

  lemma StepReturnVictim(s: State, c: nat)
    requires Inv(s) && c < |s.cpus| && InCode(s.cpus[c].phase) && s.cpus[c].victims != []
    ensures var v := s.cpus[c].victims; Inv(MoveVictim(s, c, s.cpus[c].runq + [v[0]], v[1..]))
  {
    var v := s.cpus[c].victims;
    assert v == [v[0]] + v[1..];
    hide Inv;
    StepVictim(s, c, s.cpus[c].runq + [v[0]], v[1..], v[0]);
  }

  lemma StepSkipVictim(s: State, c: nat)
    requires Inv(s) && c < |s.cpus| && InCode(s.cpus[c].phase) && s.cpus[c].victims != []
    ensures var v := s.cpus[c].victims; Inv(MoveVictim(s, c, s.cpus[c].runq, v[1..] + [v[0]]))
  {
    var v := s.cpus[c].victims;
    assert v == [v[0]] + v[1..];
    hide Inv;
    StepVictim(s, c, s.cpus[c].runq, v[1..] + [v[0]], v[0]);
  }

  lemma QueueCount(cpu: Cpu, t: Tid, u: Tid)
    ensures CountOnCpu(cpu.(runq := cpu.runq + [t]), u) == CountOnCpu(cpu, u) + Indicator(u == t)
  {
    Pushed(cpu.runq, t, u);
  }

  lemma WokenCount(cpu: Cpu, u: Tid)
    requires cpu.woken != []
    ensures CountOnCpu(cpu, u) == CountOnCpu(cpu.(woken := cpu.woken[1..]), u) + Indicator(u == cpu.woken[0])
  {
    Popped(cpu.woken, u);
  }

  lemma VictimCount(cpu: Cpu, u: Tid)
    requires cpu.victims != []
    ensures CountOnCpu(cpu, u) == CountOnCpu(cpu.(victims := cpu.victims[1..]), u) + Indicator(u == cpu.victims[0])
  {
    Popped(cpu.victims, u);
  }

  lemma RunnableConserved(s: State, c: nat)
    requires Conserved(s) && c < |s.cpus| && s.cpus[c].woken != [] && s.cpus[c].woken[0] in s.threads
    requires s.threads[s.cpus[c].woken[0]].cpu < |s.cpus|
    ensures Conserved(ExecMakeRunnable(s, c))
  {
    var t := s.cpus[c].woken[0];
    var d := s.threads[t].cpu;
    var s1 := UpdateCpu(s, c, s.cpus[c].(woken := s.cpus[c].woken[1..]));
    var s2 := UpdateCpu(s1, d, s1.cpus[d].(runq := s1.cpus[d].runq + [t]));
    hide CountOnCpu;
    forall u
      ensures Places(ExecMakeRunnable(s, c), u) == Indicator(u in s.threads)
    {
      assert Places(s, u) == Indicator(u in s.threads);
      CountUpdate(s.cpus, c, s1.cpus[c], u);
      CountUpdate(s1.cpus, d, s2.cpus[d], u);
      WokenCount(s.cpus[c], u);
      QueueCount(s1.cpus[d], t, u);
    }
  }

  /** The first woken thread is on no other list, and its CPU is not in the middle of putting it away. */
  lemma WokenAlone(s: State, c: nat)
    requires Inv(s) && c < |s.cpus| && InCode(s.cpus[c].phase) && s.cpus[c].woken != []
    requires s.cpus[c].woken[0] in s.threads && s.threads[s.cpus[c].woken[0]].cpu < |s.cpus|
    requires IHold(s, c, RunQ(s.threads[s.cpus[c].woken[0]].cpu))
    ensures var t := s.cpus[c].woken[0];
            && OnlyAtCpu(s, t, c) && t !in s.cpus[c].woken[1..]
            && t !in s.cpus[c].runq && t !in s.cpus[c].zombies && t !in s.cpus[c].victims
            && (IsCurrent(s, t) ==> s.cpus[s.threads[t].cpu].phase.Pick? || s.cpus[s.threads[t].cpu].phase.Idle?)
  {
    var t := s.cpus[c].woken[0];
    var d := s.threads[t].cpu;
    InList(s.cpus[c], t);
    AtCpu(s, t, c);
    Popped(s.cpus[c].woken, t);
    if IsCurrent(s, t) {
      assert PhaseOk(s, d);
      InList(s.cpus[d], t);
      assert !CurrentOnly(s.cpus[d].phase);
      assert d == c || RunQ(d) !in HeldBy(s, d);
    }
  }

  lemma RunnableFrame(s: State, c: nat)
    requires Phases(s) && Levels(s) && c < |s.cpus| && InCode(s.cpus[c].phase) && s.cpus[c].woken != []
    requires s.cpus[c].woken[0] in s.threads && s.threads[s.cpus[c].woken[0]].cpu < |s.cpus|
    requires var t := s.cpus[c].woken[0];
             IsCurrent(s, t) ==> s.cpus[s.threads[t].cpu].phase.Pick? || s.cpus[s.threads[t].cpu].phase.Idle?
    ensures var s', t := ExecMakeRunnable(s, c), s.cpus[c].woken[0];
            t in s'.threads && OnlyLists(s, s', t) && Unseen(s, s', t)
  {
    hide OnlyLists, Phases;
    RunnableLists(s, c);
    var t := s.cpus[c].woken[0];
    if !IsCurrent(s, t) {
      NotCurrent(s, t);
    }
  }

  lemma RunnableLists(s: State, c: nat)
    requires c < |s.cpus| && InCode(s.cpus[c].phase) && s.cpus[c].woken != []
    requires s.cpus[c].woken[0] in s.threads && s.threads[s.cpus[c].woken[0]].cpu < |s.cpus|
    ensures OnlyLists(s, ExecMakeRunnable(s, c), s.cpus[c].woken[0])
  {
  }

  lemma RunnableQueued(s: State, c: nat)
    requires c < |s.cpus| && s.cpus[c].woken != []
    requires s.cpus[c].woken[0] in s.threads && s.threads[s.cpus[c].woken[0]].cpu < |s.cpus|
    requires var t := s.cpus[c].woken[0];
             IsCurrent(s, t) ==> s.cpus[s.threads[t].cpu].phase.Pick? || s.cpus[s.threads[t].cpu].phase.Idle?
    ensures var t := s.cpus[c].woken[0]; QueuedOn(ExecMakeRunnable(s, c), t, s.threads[t].cpu)
  {
  }

  lemma RunnableMoved(s: State, c: nat)
    requires c < |s.cpus| && s.cpus[c].woken != []
    requires s.cpus[c].woken[0] in s.threads && s.threads[s.cpus[c].woken[0]].cpu < |s.cpus|
    ensures OnlyMoved(s, ExecMakeRunnable(s, c), {s.cpus[c].woken[0]})
  {
  }

  lemma RunnablePlaced(s: State, c: nat)
    requires c < |s.cpus| && s.cpus[c].woken != []
    requires s.cpus[c].woken[0] in s.threads && s.threads[s.cpus[c].woken[0]].cpu < |s.cpus|
    requires var t := s.cpus[c].woken[0];
             && OnlyAtCpu(s, t, c) && t !in s.cpus[c].woken[1..]
             && t !in s.cpus[c].runq && t !in s.cpus[c].zombies && t !in s.cpus[c].victims
             && QueuedOn(ExecMakeRunnable(s, c), t, s.threads[t].cpu)
    ensures var s', t := ExecMakeRunnable(s, c), s.cpus[c].woken[0];
            PlacedOk(s', t)
  {
    var s', t := ExecMakeRunnable(s, c), s.cpus[c].woken[0];
    forall d | 0 <= d < |s.cpus| && d != c
      ensures t !in s.cpus[d].runq && t !in s.cpus[d].victims && t !in s.cpus[d].zombies && t !in s.cpus[d].woken
    {
      InList(s.cpus[d], t);
    }
    hide QueuedOn, Effective;
  }

  /** thread_make_runnable puts a woken or new thread on the run queue of its own CPU. */
  lemma StepMakeRunnable(s: State, c: nat)
    requires Inv(s) && c < |s.cpus| && InCode(s.cpus[c].phase) && s.cpus[c].woken != []
    requires s.cpus[c].woken[0] in s.threads && s.threads[s.cpus[c].woken[0]].cpu < |s.cpus|
    requires IHold(s, c, RunQ(s.threads[s.cpus[c].woken[0]].cpu))
    ensures Inv(ExecMakeRunnable(s, c))
  {
    WokenAlone(s, c);
    var s', t := ExecMakeRunnable(s, c), s.cpus[c].woken[0];
    hide Conserved, ListsOk, Levels, Phases, OnlyLists, OnlyMoved, PlacedOk, Unseen, OnlyAtCpu, IsCurrent, QueuedOn,
         ExecMakeRunnable;
    RunnableConserved(s, c);
    RunnableFrame(s, c);
    RunnableQueued(s, c);
    RunnableMoved(s, c);
    RunnablePlaced(s, c);
    ListStep(s, s', t);
  }

  lemma PlaceConserved(s: State, c: nat, d: nat)
    requires Conserved(s) && c < |s.cpus| && d < |s.cpus| && d != c
    requires s.cpus[c].victims != [] && s.cpus[c].victims[0] in s.threads && s.cpus[c].victims[0] != s.cpus[c].cur
    ensures Conserved(ExecPlaceVictim(s, c, d))
  {
    var t := s.cpus[c].victims[0];
    var s1 := UpdateCpu(s, c, s.cpus[c].(victims := s.cpus[c].victims[1..]));
    var s2 := UpdateCpu(s1, d, s1.cpus[d].(runq := s1.cpus[d].runq + [t]));
    hide CountOnCpu;
    forall u
      ensures Places(ExecPlaceVictim(s, c, d), u) == Indicator(u in s.threads)
    {
      assert Places(s, u) == Indicator(u in s.threads);
      CountUpdate(s.cpus, c, s1.cpus[c], u);
      CountUpdate(s1.cpus, d, s2.cpus[d], u);
      VictimCount(s.cpus[c], u);
      QueueCount(s1.cpus[d], t, u);
    }
  }

  lemma PlaceFrame(s: State, c: nat, d: nat)
    requires Levels(s) && c < |s.cpus| && d < |s.cpus| && d != c && InCode(s.cpus[c].phase)
    requires s.cpus[c].victims != [] && QueuedOn(s, s.cpus[c].victims[0], c) && s.cpus[c].victims[0] != s.cpus[c].cur
    ensures var s', t := ExecPlaceVictim(s, c, d), s.cpus[c].victims[0];
            t in s'.threads && OnlyLists(s, s', t) && Unseen(s, s', t)
  {
    var s', t := ExecPlaceVictim(s, c, d), s.cpus[c].victims[0];
    assert OnlyLists(s, s', t);
    assert !IsCurrent(s, t);
    NotCurrent(s, t);
  }

  lemma VictimAlone(s: State, c: nat)
    requires Conserved(s) && c < |s.cpus| && s.cpus[c].victims != []
    ensures var t := s.cpus[c].victims[0];
            && OnlyAtCpu(s, t, c) && t !in s.cpus[c].victims[1..]
            && t !in s.cpus[c].runq && t !in s.cpus[c].zombies && t !in s.cpus[c].woken
  {
    var t := s.cpus[c].victims[0];
    InList(s.cpus[c], t);
    AtCpu(s, t, c);
    Popped(s.cpus[c].victims, t);
  }

  lemma PlacePlaced(s: State, c: nat, d: nat)
    requires c < |s.cpus| && d < |s.cpus| && d != c
    requires s.cpus[c].victims != [] && QueuedOn(s, s.cpus[c].victims[0], c) && s.cpus[c].victims[0] != s.cpus[c].cur
    requires s.cpus[c].victims[0] != s.cpus[d].cur
    requires var t := s.cpus[c].victims[0];
             && OnlyAtCpu(s, t, c) && t !in s.cpus[c].victims[1..]
             && t !in s.cpus[c].runq && t !in s.cpus[c].zombies && t !in s.cpus[c].woken
    ensures var s', t := ExecPlaceVictim(s, c, d), s.cpus[c].victims[0];
            OnlyMoved(s, s', {t}) && PlacedOk(s', t)
  {
    var s', t := ExecPlaceVictim(s, c, d), s.cpus[c].victims[0];
    forall e | 0 <= e < |s.cpus| && e != c
      ensures t !in s.cpus[e].runq && t !in s.cpus[e].victims && t !in s.cpus[e].zombies && t !in s.cpus[e].woken
    {
      InList(s.cpus[e], t);
    }
    assert QueuedOn(s', t, d);
    hide QueuedOn, Effective;
  }

  lemma CurrentElsewhere(s: State, t: Tid, c: nat, d: nat)
    requires Levels(s) && QueuedOn(s, t, c) && d < |s.cpus| && d != c
    ensures s.cpus[d].cur != t
  {
    assert LevelOk(s, d);
  }

  /** The migration loop moves a victim that is not the current thread to CPU d, and its t_cpu with it. */
  lemma StepPlaceVictim(s: State, c: nat, d: nat)
    requires Inv(s) && c < |s.cpus| && InCode(s.cpus[c].phase) && d != c && d < |s.cpus|
    requires s.cpus[c].victims != [] && s.cpus[c].victims[0] in s.threads
    ensures Inv(ExecPlaceVictim(s, c, d))
  {
    var s', t := ExecPlaceVictim(s, c, d), s.cpus[c].victims[0];
    if t == s.cpus[c].cur {
      StepSkipVictim(s, c);
      assert s' == MoveVictim(s, c, s.cpus[c].runq, s.cpus[c].victims[1..] + [t]);
    } else {
      assert CpuListsOk(s, c) && QueuedOn(s, t, c);
      hide Conserved, ListsOk, Levels, Phases, OnlyLists, OnlyMoved, PlacedOk, Unseen, ExecPlaceVictim, QueuedOn;
      PlaceConserved(s, c, d);
      PlaceFrame(s, c, d);
      VictimAlone(s, c);
      CurrentElsewhere(s, t, c, d);
      PlacePlaced(s, c, d);
      ListStep(s, s', t);
    }
  }

  // ---------------------------------------------------------------- thread_switch

  /** CPU c works on its current thread: only its lists, its phase and that thread's state change. */
  ghost predicate OnlyCurrent(s: State, s': State, c: nat)
    requires c < |s.cpus| && s.cpus[c].cur in s.threads
  {
    var t := s.cpus[c].cur;
    && |s'.cpus| == |s.cpus| && |s'.wchans| == |s.wchans| && s'.holder == s.holder
    && (forall d | 0 <= d < |s.cpus| && d != c :: s'.cpus[d] == s.cpus[d])
    && s'.cpus[c].cur == t && s'.cpus[c].spinlocks == s.cpus[c].spinlocks && s'.cpus[c].irq == s.cpus[c].irq
    && s'.threads.Keys == s.threads.Keys
    && (forall u | u in s.threads && u != t :: s'.threads[u] == s.threads[u])
    && s'.threads[t].high == s.threads[t].high && s'.threads[t].count == s.threads[t].count
    && s'.threads[t].cpu == s.threads[t].cpu
  }

  lemma CurrentThreads(s: State, s': State, c: nat)
    requires c < |s.cpus| && s.cpus[c].cur in s.threads && OnlyCurrent(s, s', c)
    ensures SameThreads(s, s', {s.cpus[c].cur})
  {
    assert forall u :: (u in s'.threads <==> u in s'.threads.Keys) && (u in s.threads <==> u in s.threads.Keys);
  }

  lemma CurrentLevels(s: State, s': State, c: nat)
    requires Levels(s) && c < |s.cpus| && OnlyCurrent(s, s', c)
    ensures Levels(s')
  {
    assert forall u :: (u in s'.threads <==> u in s'.threads.Keys) && (u in s.threads <==> u in s.threads.Keys);
    hide HeldBy, LevelOk;
    forall d | 0 <= d < |s.cpus|
      ensures SameLevel(s, s', d)
    {
    }
    forall t | t in s'.threads && !IsCurrent(s', t)
      ensures SwitchedOut(s'.threads[t])
    {
      assert !IsCurrent(s, t);
    }
    LevelsKept(s, s');
  }

  lemma CurrentOthers(s: State, s': State, c: nat)
    requires Levels(s) && Phases(s) && c < |s.cpus| && OnlyCurrent(s, s', c)
    ensures OthersSame(s, s', c)
    ensures forall t | t in s'.threads :: s'.threads[t].cpu < |s.cpus|
  {
    assert forall d :: HeldBy(s', d) == HeldBy(s, d);
    assert forall u :: (u in s'.threads <==> u in s'.threads.Keys) && (u in s.threads <==> u in s.threads.Keys);
    hide HeldBy, PhaseOk;
    forall d | 0 <= d < |s.cpus| && d != c
      ensures s.cpus[d].cur in s.threads && s.cpus[d].cur != s.cpus[c].cur
    {
      CurrentsDiffer(s, c, d);
    }
  }

  lemma CurrentStep(s: State, s': State, c: nat)
    requires Inv(s) && c < |s.cpus| && s.cpus[c].cur in s.threads && OnlyCurrent(s, s', c) && Conserved(s')
    requires OnlyMoved(s, s', {s.cpus[c].cur}) && PlacedOk(s', s.cpus[c].cur)
    requires s.cpus[c].cur in s'.threads && PhaseOk(s', c)
    ensures Inv(s')
  {
    hide Conserved, ListsOk, OnlyMoved, PlacedOk, PhaseOk, SameThreads, Levels, OthersSame;
    CurrentThreads(s, s', c);
    CurrentLevels(s, s', c);
    CurrentOthers(s, s', c);
    ListsMoved(s, s', {s.cpus[c].cur});
    AllPhases(s, s', c);
  }

  /** The current thread of a CPU that runs it is on no list at all. */
  ghost predicate OnNoList(s: State, t: Tid) {
    && (forall d | 0 <= d < |s.cpus| ::
          t !in s.cpus[d].runq && t !in s.cpus[d].victims && t !in s.cpus[d].zombies && t !in s.cpus[d].woken)
    && (forall w | 0 <= w < |s.wchans| :: t !in s.wchans[w])
  }

  lemma CurrentOnNoList(s: State, c: nat)
    requires Conserved(s) && c < |s.cpus| && CurrentOnly(s.cpus[c].phase)
    ensures s.cpus[c].cur in s.threads && OnNoList(s, s.cpus[c].cur)
  {
    var t := s.cpus[c].cur;
    InList(s.cpus[c], t);
    AtCpu(s, t, c);
    forall d | 0 <= d < |s.cpus|
      ensures t !in s.cpus[d].runq && t !in s.cpus[d].victims && t !in s.cpus[d].zombies && t !in s.cpus[d].woken
    {
      if d != c {
        InList(s.cpus[d], t);
      }
    }
  }

  lemma PutAwayCount(cpu: Cpu, u: Tid)
    requires CurrentOnly(cpu.phase)
    ensures CountOnCpu(cpu.(runq := cpu.runq + [cpu.cur], phase := SetState(Yielding)), u) == CountOnCpu(cpu, u)
    ensures CountOnCpu(cpu.(zombies := cpu.zombies + [cpu.cur], phase := SetState(Exiting)), u) == CountOnCpu(cpu, u)
  {
    Pushed(cpu.runq, cpu.cur, u);
    Pushed(cpu.zombies, cpu.cur, u);
  }

  lemma QueueSelfConserved(s: State, c: nat)
    requires Conserved(s) && c < |s.cpus| && s.cpus[c].cur in s.threads && CurrentOnly(s.cpus[c].phase)
    ensures Conserved(QueueSelf(s, c))
  {
    hide CountOnCpu;
    forall u
      ensures Places(QueueSelf(s, c), u) == Indicator(u in s.threads)
    {
      assert Places(s, u) == Indicator(u in s.threads);
      CountUpdate(s.cpus, c, QueueSelf(s, c).cpus[c], u);
      PutAwayCount(s.cpus[c], u);
    }
  }

  lemma BurySelfConserved(s: State, c: nat)
    requires Conserved(s) && c < |s.cpus| && CurrentOnly(s.cpus[c].phase)
    ensures Conserved(BurySelf(s, c))
  {
    hide CountOnCpu;
    forall u
      ensures Places(BurySelf(s, c), u) == Indicator(u in s.threads)
    {
      assert Places(s, u) == Indicator(u in s.threads);
      CountUpdate(s.cpus, c, BurySelf(s, c).cpus[c], u);
      PutAwayCount(s.cpus[c], u);
    }
  }

  lemma SleepSelfConserved(s: State, c: nat, w: nat)
    requires Conserved(s) && c < |s.cpus| && CurrentOnly(s.cpus[c].phase) && w < |s.wchans|
    ensures Conserved(SleepSelf(s, c, w))
  {
    var s' := SleepSelf(s, c, w);
    forall u
      ensures Places(s', u) == Indicator(u in s.threads)
    {
      assert Places(s, u) == Indicator(u in s.threads);
      CountUpdate(s.cpus, c, s'.cpus[c], u);
      ChannelUpdate(s.wchans, w, s'.wchans[w], u);
      Pushed(s.wchans[w], s.cpus[c].cur, u);
    }
  }

  lemma QueueSelfPlaced(s: State, c: nat)
    requires c < |s.cpus| && s.cpus[c].cur in s.threads && s.threads[s.cpus[c].cur].cpu == c
             && OnNoList(s, s.cpus[c].cur)
    ensures OnlyCurrent(s, QueueSelf(s, c), c)
    ensures OnlyMoved(s, QueueSelf(s, c), {s.cpus[c].cur}) && PlacedOk(QueueSelf(s, c), s.cpus[c].cur)
  {
    assert QueuedOn(QueueSelf(s, c), s.cpus[c].cur, c);
    hide QueuedOn;
  }

  lemma SleepSelfPlaced(s: State, c: nat, w: nat)
    requires c < |s.cpus| && s.cpus[c].cur in s.threads && s.threads[s.cpus[c].cur].cpu == c
             && OnNoList(s, s.cpus[c].cur)
    requires w < |s.wchans|
    ensures OnlyCurrent(s, SleepSelf(s, c, w), c)
    ensures OnlyMoved(s, SleepSelf(s, c, w), {s.cpus[c].cur}) && PlacedOk(SleepSelf(s, c, w), s.cpus[c].cur)
  {
    assert StateIs(SleepSelf(s, c, w), s.cpus[c].cur, Sleep);
    hide StateIs;
  }

  lemma BurySelfPlaced(s: State, c: nat)
    requires c < |s.cpus| && s.cpus[c].cur in s.threads && s.threads[s.cpus[c].cur].cpu == c
             && OnNoList(s, s.cpus[c].cur)
    ensures OnlyCurrent(s, BurySelf(s, c), c)
    ensures OnlyMoved(s, BurySelf(s, c), {s.cpus[c].cur}) && PlacedOk(BurySelf(s, c), s.cpus[c].cur)
  {
    assert ZombieOn(BurySelf(s, c), s.cpus[c].cur, c);
    hide ZombieOn;
  }

  /** The facts about a CPU that is about to queue its current thread. */
  lemma AboutToQueue(s: State, c: nat)
    requires Inv(s) && c < |s.cpus| && s.cpus[c].phase.Queue?
    ensures s.cpus[c].cur in s.threads && s.threads[s.cpus[c].cur].cpu == c
    ensures OnNoList(s, s.cpus[c].cur) && PhaseOk(s, c)
  {
    assert LevelOk(s, c) && PhaseOk(s, c);
    CurrentOnNoList(s, c);
  }

  lemma QueueSelfPhase(s: State, c: nat)
    requires c < |s.cpus| && s.cpus[c].cur in s.threads && PhaseOk(s, c) && s.cpus[c].phase == Queue(Yielding)
    ensures PhaseOk(QueueSelf(s, c), c)
  {
    assert HeldBy(QueueSelf(s, c), c) == HeldBy(s, c);
    hide HeldBy;
  }

  lemma StepQueueSelf(s: State, c: nat)
    requires Inv(s) && c < |s.cpus| && s.cpus[c].phase.Queue? && s.cpus[c].phase.ns.Yielding?
    ensures s.cpus[c].cur in s.threads && Inv(QueueSelf(s, c))
  {
    AboutToQueue(s, c);
    var s' := QueueSelf(s, c);
    QueueSelfPhase(s, c);
    hide Conserved, ListsOk, Phases, Levels, PhaseOk, OnNoList, QueueSelf, OnlyCurrent, OnlyMoved, PlacedOk;
    QueueSelfConserved(s, c);
    QueueSelfPlaced(s, c);
    CurrentStep(s, s', c);
  }

  lemma StepSleepSelf(s: State, c: nat, w: nat)
    requires Inv(s) && c < |s.cpus| && s.cpus[c].phase == Queue(Sleeping(w))
    ensures w < |s.wchans| && Inv(SleepSelf(s, c, w))
  {
    AboutToQueue(s, c);
    var s' := SleepSelf(s, c, w);
    assert HeldBy(s', c) == HeldBy(s, c);
    assert PhaseOk(s', c);
    hide Conserved, ListsOk, Phases, Levels, PhaseOk, OnNoList, SleepSelf, OnlyCurrent, OnlyMoved, PlacedOk;
    SleepSelfConserved(s, c, w);
    SleepSelfPlaced(s, c, w);
    CurrentStep(s, s', c);
  }

  lemma StepBurySelf(s: State, c: nat)
    requires Inv(s) && c < |s.cpus| && s.cpus[c].phase == Queue(Exiting)
    ensures Inv(BurySelf(s, c))
  {
    AboutToQueue(s, c);
    var s' := BurySelf(s, c);
    assert HeldBy(s', c) == HeldBy(s, c);
    assert PhaseOk(s', c);
    hide Conserved, ListsOk, Phases, Levels, PhaseOk, OnNoList, BurySelf, OnlyCurrent, OnlyMoved, PlacedOk;
    BurySelfConserved(s, c);
    BurySelfPlaced(s, c);
    CurrentStep(s, s', c);
  }

  lemma SetStateConserved(s: State, c: nat)
    requires Conserved(s) && c < |s.cpus| && s.cpus[c].cur in s.threads && s.cpus[c].phase.SetState?
    ensures Conserved(ExecSetState(s, c))
  {
    var s' := ExecSetState(s, c);
    forall u
      ensures Places(s', u) == Indicator(u in s'.threads)
    {
      assert Places(s, u) == Indicator(u in s.threads);
      CountSame(s.cpus, s'.cpus, u);
    }
  }

  lemma SetStateFrame(s: State, c: nat)
    requires c < |s.cpus| && s.cpus[c].cur in s.threads && s.cpus[c].phase.SetState? && PhaseOk(s, c)
    requires s.threads[s.cpus[c].cur].cpu == c
    ensures OnlyCurrent(s, ExecSetState(s, c), c)
    ensures SameThreads(s, ExecSetState(s, c), {}) && OnlyMoved(s, ExecSetState(s, c), {})
  {
    hide HeldBy;
  }

  lemma SetStatePhase(s: State, c: nat)
    requires c < |s.cpus| && s.cpus[c].cur in s.threads && s.cpus[c].phase.SetState? && PhaseOk(s, c)
    ensures PhaseOk(ExecSetState(s, c), c)
  {
    assert HeldBy(ExecSetState(s, c), c) == HeldBy(s, c);
    hide HeldBy;
  }

  lemma StepSetState(s: State, c: nat)
    requires Inv(s) && c < |s.cpus| && s.cpus[c].phase.SetState?
    ensures s.cpus[c].cur in s.threads && Inv(ExecSetState(s, c))
  {
    assert PhaseOk(s, c) && LevelOk(s, c);
    hide Conserved, ListsOk, Phases, Levels, PhaseOk, OnlyCurrent, SameThreads, OnlyMoved;
    SetStateConserved(s, c);
    SetStateFrame(s, c);
    SetStatePhase(s, c);
    SetStateRest(s, ExecSetState(s, c), c);
  }

  lemma SetStateRest(s: State, s': State, c: nat)
    requires Inv(s) && c < |s.cpus| && s.cpus[c].cur in s.threads && OnlyCurrent(s, s', c) && Conserved(s')
    requires SameThreads(s, s', {}) && OnlyMoved(s, s', {})
    requires s'.cpus[c].cur in s'.threads && PhaseOk(s', c)
    ensures Inv(s')
  {
    hide Conserved, ListsOk, OnlyMoved, PhaseOk, SameThreads, Levels, OthersSame;
    CurrentLevels(s, s', c);
    CurrentOthers(s, s', c);
    ListsMoved(s, s', {});
    AllPhases(s, s', c);
  }

  lemma NextCount(cpu: Cpu, u: Tid)
    requires !CurrentOnly(cpu.phase) && cpu.runq != []
    ensures CountOnCpu(cpu.(runq := cpu.runq[1..], isidle := false, cur := cpu.runq[0], phase := Resume), u)
         == CountOnCpu(cpu, u)
  {
    Popped(cpu.runq, u);
  }

  lemma NextConserved(s: State, c: nat)
    requires Conserved(s) && c < |s.cpus| && s.cpus[c].runq != [] && !CurrentOnly(s.cpus[c].phase)
    ensures Conserved(TakeNext(s, c))
  {
    hide CountOnCpu;
    forall u
      ensures Places(TakeNext(s, c), u) == Indicator(u in s.threads)
    {
      assert Places(s, u) == Indicator(u in s.threads);
      CountUpdate(s.cpus, c, TakeNext(s, c).cpus[c], u);
      NextCount(s.cpus[c], u);
    }
  }

  lemma NextLists(s: State, c: nat)
    requires ListsOk(s) && c < |s.cpus| && s.cpus[c].runq != [] && s.cpus[c].phase.Pick?
    requires QueuedOn(s, s.cpus[c].runq[0], c)
    ensures ListsOk(TakeNext(s, c))
  {
    var s' := TakeNext(s, c);
    assert SameThreads(s, s', {});
    assert OnlyMoved(s, s', {});
    hide SameThreads, OnlyMoved, ListsOk;
    ListsMoved(s, s', {});
  }

  /** The thread left behind has count 2, as has the thread that goes on. */
  lemma NextLevels(s: State, c: nat)
    requires Levels(s) && c < |s.cpus| && s.cpus[c].runq != [] && s.cpus[c].phase.Pick?
    requires QueuedOn(s, s.cpus[c].runq[0], c)
    requires HeldBy(s, c) == {RunQ(c)} && s.threads[s.cpus[c].cur].high
    ensures Levels(TakeNext(s, c))
  {
    var s' := TakeNext(s, c);
    assert LevelOk(s, c);
    assert SwitchedOut(s.threads[s.cpus[c].cur]);
    assert SwitchedOut(s.threads[s.cpus[c].runq[0]]);
    assert forall d :: HeldBy(s', d) == HeldBy(s, d);
    hide HeldBy;
    forall d | 0 <= d < |s'.cpus|
      ensures s'.cpus[d].cur in s'.threads && LevelOk(s', d)
    {
      assert LevelOk(s, d);
    }
    forall t | t in s'.threads && !IsCurrent(s', t)
      ensures SwitchedOut(s'.threads[t])
    {
      assert t == s.cpus[c].cur || !IsCurrent(s, t);
    }
  }

  lemma NextOthers(s: State, c: nat)
    requires Phases(s) && c < |s.cpus| && s.cpus[c].runq != []
    ensures OthersSame(s, TakeNext(s, c), c)
  {
    assert forall d :: HeldBy(TakeNext(s, c), d) == HeldBy(s, d);
    hide HeldBy, PhaseOk;
  }

  /** thread_switch commits to the next thread. */
  lemma StepTakeNext(s: State, c: nat)
    requires Inv(s) && c < |s.cpus| && s.cpus[c].phase.Pick? && s.cpus[c].runq != []
    ensures Inv(TakeNext(s, c))
  {
    var s', t := TakeNext(s, c), s.cpus[c].runq[0];
    assert CpuListsOk(s, c) && QueuedOn(s, t, c);
    assert PhaseOk(s, c) && LevelOk(s, c);
    assert HeldBy(s', c) == HeldBy(s, c);
    NextLevels(s, c);
    assert LevelOk(s', c);
    assert PhaseOk(s', c) by {
      assert t == s.cpus[c].cur || !IsCurrent(s, t);
    }
    hide Conserved, ListsOk, Levels, PhaseOk, OthersSame, HeldBy, QueuedOn;
    NextConserved(s, c);
    NextLists(s, c);
    NextOthers(s, c);
    AllPhases(s, s', c);
  }

  lemma KeysConserved(s: State, s': State)
    requires Conserved(s) && s'.cpus == s.cpus && s'.wchans == s.wchans && s'.threads.Keys == s.threads.Keys
    ensures Conserved(s')
  {
    forall u
      ensures Places(s', u) == Indicator(u in s'.threads)
    {
      assert Places(s, u) == Indicator(u in s.threads);
      assert u in s'.threads <==> u in s.threads.Keys;
    }
  }

  lemma SaveLevelFrame(s: State, c: nat, high: bool)
    requires c < |s.cpus| && s.cpus[c].cur in s.threads && s.cpus[c].phase.Body? && PhaseOk(s, c)
    ensures var s' := SaveLevel(s, c, high);
            OnlyCurrent(s, s', c) && SameThreads(s, s', {}) && OnlyMoved(s, s', {}) && PhaseOk(s', c)
  {
    hide HeldBy;
  }

  lemma SaveLevelRest(s: State, c: nat, high: bool)
    requires Inv(s) && c < |s.cpus| && s.cpus[c].cur in s.threads && s.cpus[c].phase.Body?
    ensures Inv(SaveLevel(s, c, high))
  {
    var s' := SaveLevel(s, c, high);
    assert PhaseOk(s, c);
    hide Conserved, ListsOk, Phases, Levels, OnlyCurrent, SameThreads, OnlyMoved, PhaseOk;
    SaveLevelFrame(s, c, high);
    KeysConserved(s, s');
    SetStateRest(s, s', c);
  }

  lemma EnterLocks(s: State, c: nat, ns: NewState)
    requires Levels(s) && c < |s.cpus| && MaySwitch(s, c, ns)
    ensures HeldBy(s, c) == ChannelLock(ns) && NewStateOk(s, ns)
  {
    assert LevelOk(s, c);
    if ns.Sleeping? {
      var rest := HeldBy(s, c) - {Other(ns.w)};
      assert Other(ns.w) in HeldBy(s, c);
      assert |rest| == 0;
    }
  }

  lemma EnterPhase(s: State, c: nat, ns: NewState, high: bool)
    requires c < |s.cpus| && s.cpus[c].cur in s.threads && PhaseOk(s, c) && s.cpus[c].phase.Body?
    requires HeldBy(s, c) == ChannelLock(ns) && NewStateOk(s, ns) && s.threads[s.cpus[c].cur].high
    requires s.cpus[c].woken == [] && s.cpus[c].victims == []
    ensures PhaseOk(SetPhase(SaveLevel(s, c, high), c, Enter(ns)), c)
  {
    assert HeldBy(SetPhase(SaveLevel(s, c, high), c, Enter(ns)), c) == HeldBy(s, c);
    hide HeldBy;
  }

  /** Entry to thread_switch. */
  lemma StepSwitch(s: State, c: nat, ns: NewState)
    requires Inv(s) && c < |s.cpus| && s.cpus[c].phase.Body? && s.cpus[c].woken == [] && s.cpus[c].victims == []
    requires MaySwitch(s, c, ns)
    ensures s.cpus[c].cur in s.threads
    ensures s.threads[s.cpus[c].cur].high ==> s.threads[s.cpus[c].cur].count > 0
    ensures var s1 := Splx(s, c, true);
            Inv(SetPhase(SaveLevel(s1, c, s.threads[s.cpus[c].cur].high), c, Enter(ns)))
  {
    EnterLocks(s, c, ns);
    SplxLevels(s, c, true);
    StepSplx(s, c, true);
    var s1, high := Splx(s, c, true), s.threads[s.cpus[c].cur].high;
    assert HeldBy(s1, c) == HeldBy(s, c);
    assert PhaseOk(s1, c) && s1.cpus[c].phase.Body?;
    hide Conserved, ListsOk, Levels, Phases, Splx, HeldBy, PhaseOk, OthersSame;
    SaveLevelRest(s1, c, high);
    EnterPhase(s1, c, ns, high);
    var s2 := SaveLevel(s1, c, high);
    SwitchFinish(s2, c, ns);
  }

  lemma SwitchFinish(s: State, c: nat, ns: NewState)
    requires Inv(s) && c < |s.cpus| && s.cpus[c].cur in s.threads && s.cpus[c].phase.Body?
    requires PhaseOk(SetPhase(s, c, Enter(ns)), c)
    ensures Inv(SetPhase(s, c, Enter(ns)))
  {
    assert OthersSame(s, s, c);
    hide PhaseOk, OthersSame, Conserved, ListsOk, Levels;
    FinishPhase(s, s, c, Enter(ns));
  }

  lemma MarkRunningFrame(s: State, c: nat)
    requires c < |s.cpus| && s.cpus[c].cur in s.threads && OnNoList(s, s.cpus[c].cur)
    ensures var s', t := MarkRunning(s, c), s.cpus[c].cur;
            OnlyCurrent(s, s', c) && OnlyMoved(s, s', {t}) && PlacedOk(s', t)
  {
  }

  lemma MarkRunningRest(s: State, c: nat)
    requires Inv(s) && c < |s.cpus| && s.cpus[c].phase.Resume?
    ensures s.cpus[c].cur in s.threads
    ensures Rest(MarkRunning(s, c)) && OthersSame(s, MarkRunning(s, c), c)
  {
    CurrentOnNoList(s, c);
    var s', t := MarkRunning(s, c), s.cpus[c].cur;
    hide Conserved, ListsOk, Phases, Levels, OnlyMoved, PlacedOk, SameThreads, OnlyCurrent, OthersSame, OnNoList;
    MarkRunningFrame(s, c);
    KeysConserved(s, s');
    CurrentThreads(s, s', c);
    CurrentLevels(s, s', c);
    CurrentOthers(s, s', c);
    ListsMoved(s, s', {t});
  }

  lemma ReapPhase(s: State, s1: State, s2: State, c: nat)
    requires c < |s.cpus| && s.cpus[c].cur in s.threads && s.cpus[c].phase.Resume? && PhaseOk(s, c)
    requires s1 == MarkRunning(s, c) && SameLists(s1, s2) && HeldBy(s2, c) == {} && s2.threads[s.cpus[c].cur].high
    ensures PhaseOk(SetPhase(s2, c, Reap), c)
  {
    HeldAfterPhase(s2, c, Reap);
    hide HeldBy;
  }

  lemma MarkHeld(s: State, c: nat)
    requires c < |s.cpus| && s.cpus[c].cur in s.threads
    ensures forall d :: HeldBy(MarkRunning(s, c), d) == HeldBy(s, d)
    ensures MarkRunning(s, c).cpus == s.cpus && MarkRunning(s, c).threads.Keys == s.threads.Keys
    ensures MarkRunning(s, c).threads[s.cpus[c].cur].high == s.threads[s.cpus[c].cur].high
    ensures |MarkRunning(s, c).wchans| == |s.wchans|
    ensures forall t | t in s.threads :: MarkRunning(s, c).threads[t].cpu == s.threads[t].cpu
  {
  }

  lemma KeepCpus(s: State, s': State, n: nat)
    requires SameLists(s, s') && forall t | t in s.threads :: s.threads[t].cpu < n
    ensures forall t | t in s'.threads :: s'.threads[t].cpu < n
  {
    assert forall u :: (u in s'.threads <==> u in s'.threads.Keys) && (u in s.threads <==> u in s.threads.Keys);
  }

  lemma ResumeRest(s: State, c: nat)
    requires Inv(s) && c < |s.cpus| && s.cpus[c].cur in s.threads && s.cpus[c].phase.Resume? && PhaseOk(s, c)
    ensures var s1 := MarkRunning(s, c);
            && s1.cpus[c].spinlocks > 0 && s1.threads[s.cpus[c].cur].count > 0
            && var s2 := SpinRelease(s1, c, RunQ(c));
               && Rest(s2) && SameLists(s1, s2) && OthersSame(s, s2, c)
               && HeldBy(s2, c) == {} && s2.threads[s.cpus[c].cur].high
  {
    assert RunQ(c) in HeldBy(s, c) && HeldBy(s, c) - {RunQ(c)} == {};
    assert s.threads[s.cpus[c].cur].high;
    var s1 := MarkRunning(s, c);
    MarkHeld(s, c);
    MarkRunningRest(s, c);
    hide Inv, Rest, HeldBy, OthersSame, SameLists, MarkRunning, SpinRelease, PhaseOk;
    ReleaseChange(s1, c, RunQ(c));
    var s2 := SpinRelease(s1, c, RunQ(c));
    OthersTwice(s, s1, s2, c);
  }

  /** A thread resumes, or starts, by releasing the run queue lock that it owns. */
  lemma StepResume(s: State, c: nat)
    requires Inv(s) && c < |s.cpus| && s.cpus[c].phase.Resume?
    ensures s.cpus[c].cur in s.threads
    ensures var s1 := MarkRunning(s, c);
            && s1.cpus[c].spinlocks > 0 && s1.threads[s.cpus[c].cur].count > 0
            && Inv(SetPhase(SpinRelease(s1, c, RunQ(c)), c, Reap))
  {
    assert PhaseOk(s, c);
    ResumeRest(s, c);
    var s1 := MarkRunning(s, c);
    var s2 := SpinRelease(s1, c, RunQ(c));
    ReapPhase(s, s1, s2, c);
    MarkHeld(s, c);
    hide PhaseOk, Rest, HeldBy, OthersSame, MarkRunning, SpinRelease;
    KeepCpus(s1, s2, |s.cpus|);
    assert |s2.wchans| == |s.wchans|;
    ResumeFinish(s, s2, c);
  }

  lemma ResumeFinish(s: State, s2: State, c: nat)
    requires Inv(s) && Rest(s2) && c < |s.cpus| && OthersSame(s, s2, c) && |s2.wchans| == |s.wchans|
    requires s2.cpus[c].phase.Resume? && s2.cpus[c].cur in s2.threads && PhaseOk(SetPhase(s2, c, Reap), c)
    requires forall t | t in s2.threads :: s2.threads[t].cpu < |s.cpus|
    ensures Inv(SetPhase(s2, c, Reap))
  {
    SetPhaseRest(s2, c, Reap);
    SetPhaseOthers(s, s2, c, Reap);
    hide PhaseOk, OthersSame, Conserved, ListsOk, Levels;
    AllPhases(s, SetPhase(s2, c, Reap), c);
  }

  // ---------------------------------------------------------------- exorcise

  /** What exorcise asserts of the zombies it destroys. */
  lemma ZombiesAreDead(s: State, c: nat, z: Tid)
    requires Inv(s) && c < |s.cpus| && s.cpus[c].phase.Reap? && z in s.cpus[c].zombies
    ensures z != s.cpus[c].cur && z in s.threads && s.threads[z].state == Zombie
    ensures forall d | 0 <= d < |s.cpus| :: s.cpus[d].cur != z
  {
    CurrentOnNoList(s, c);
    assert CpuListsOk(s, c) && ZombieOn(s, z, c);
    forall d | 0 <= d < |s.cpus|
      ensures s.cpus[d].cur != z
    {
      assert LevelOk(s, d);
    }
  }

  lemma ZombiesUnlisted(s: State, c: nat, z: Tid)
    requires Conserved(s) && c < |s.cpus| && z in s.cpus[c].zombies
    ensures z in s.threads && CountOnCpu(s.cpus[c], z) == 1 && multiset(s.cpus[c].zombies)[z] == 1
    ensures forall d | 0 <= d < |s.cpus| :: z !in s.cpus[d].runq && z !in s.cpus[d].victims && z !in s.cpus[d].woken
    ensures forall d | 0 <= d < |s.cpus| && d != c :: z !in s.cpus[d].zombies
    ensures forall w | 0 <= w < |s.wchans| :: z !in s.wchans[w]
  {
    InList(s.cpus[c], z);
    AtCpu(s, z, c);
    forall d | 0 <= d < |s.cpus|
      ensures z !in s.cpus[d].runq && z !in s.cpus[d].victims && z !in s.cpus[d].woken
      ensures d != c ==> z !in s.cpus[d].zombies
    {
      if d != c {
        InList(s.cpus[d], z);
      }
    }
  }

  lemma ReapCount(cpu: Cpu, u: Tid)
    requires cpu.phase.Reap?
    ensures CountOnCpu(cpu, u) == CountOnCpu(cpu.(zombies := [], phase := Body), u) + multiset(cpu.zombies)[u]
  {
  }

  lemma ReapConserved(s: State, c: nat)
    requires Conserved(s) && c < |s.cpus| && s.cpus[c].phase.Reap?
    ensures Conserved(Exorcise(s, c))
  {
    var s' := Exorcise(s, c);
    forall u
      ensures Places(s', u) == Indicator(u in s'.threads)
    {
      assert Places(s, u) == Indicator(u in s.threads);
      CountUpdate(s.cpus, c, s'.cpus[c], u);
      ReapCount(s.cpus[c], u);
      if u in s.cpus[c].zombies {
        ZombiesUnlisted(s, c, u);
      }
    }
  }

  lemma ReapPlaced(s: State, c: nat, z: Tid)
    requires Conserved(s) && c < |s.cpus| && z in s.cpus[c].zombies
    ensures PlacedOk(Exorcise(s, c), z)
  {
    ZombiesUnlisted(s, c, z);
    hide Conserved;
  }

  lemma ReapFrame(s: State, c: nat)
    requires c < |s.cpus| && s.cpus[c].phase.Reap?
    ensures SameThreads(s, Exorcise(s, c), Dead(s, c)) && OnlyMoved(s, Exorcise(s, c), Dead(s, c))
  {
  }

  lemma ReapLists(s: State, c: nat)
    requires ListsOk(s) && Conserved(s) && c < |s.cpus| && s.cpus[c].phase.Reap?
    ensures ListsOk(Exorcise(s, c))
  {
    hide SameThreads, OnlyMoved, ListsOk, PlacedOk, Conserved, Exorcise;
    forall z | z in Dead(s, c)
      ensures PlacedOk(Exorcise(s, c), z)
    {
      ReapPlaced(s, c, z);
    }
    ReapFrame(s, c);
    ListsMoved(s, Exorcise(s, c), Dead(s, c));
  }

  lemma ReapLevels(s: State, c: nat)
    requires Levels(s) && c < |s.cpus|
    requires forall d | 0 <= d < |s.cpus| :: s.cpus[d].cur !in Dead(s, c)
    ensures Levels(Exorcise(s, c))
  {
    var s' := Exorcise(s, c);
    hide HeldBy, LevelOk;
    forall d | 0 <= d < |s.cpus|
      ensures SameLevel(s, s', d)
    {
    }
    forall t | t in s'.threads && !IsCurrent(s', t)
      ensures SwitchedOut(s'.threads[t])
    {
      assert !IsCurrent(s, t);
    }
    LevelsKept(s, s');
  }

  lemma ReapOthers(s: State, c: nat)
    requires Phases(s) && c < |s.cpus| && s.cpus[c].phase.Reap?
    requires forall d | 0 <= d < |s.cpus| :: s.cpus[d].cur !in Dead(s, c)
    ensures Phases(Exorcise(s, c))
  {
    var s' := Exorcise(s, c);
    assert forall d :: HeldBy(s', d) == HeldBy(s, d);
    assert PhaseOk(s, c) && PhaseOk(s', c);
    hide HeldBy, PhaseOk;
    AllPhases(s, s', c);
  }

  /** A thread that comes back cleans up its predecessors and restores its own level. */
  lemma StepReap(s: State, c: nat)
    requires Inv(s) && c < |s.cpus| && s.cpus[c].phase.Reap?
    ensures s.cpus[c].cur in s.threads && s.cpus[c].cur !in s.cpus[c].zombies
    ensures s.threads[s.cpus[c].cur].high ==> s.threads[s.cpus[c].cur].count > 0
    ensures Inv(ExecReap(s, c))
  {
    assert LevelOk(s, c);
    forall d | 0 <= d < |s.cpus|
      ensures s.cpus[d].cur !in Dead(s, c)
    {
      if s.cpus[d].cur in s.cpus[c].zombies {
        ZombiesAreDead(s, c, s.cpus[d].cur);
      }
    }
    assert Exorcise(s, c).cpus[c].phase.Body?;
    var high := s.threads[s.cpus[c].cur].saved.Level? && s.threads[s.cpus[c].cur].saved.high;
    hide Conserved, ListsOk, Phases, Levels, Splx;
    ReapConserved(s, c);
    ReapLists(s, c);
    ReapLevels(s, c);
    ReapOthers(s, c);
    StepSplx(Exorcise(s, c), c, high);
  }

  // ---------------------------------------------------------------- every step

  lemma StepEnqueue(s: State, c: nat)
    requires Inv(s) && CanExec(s, Enqueue(c))
    ensures Inv(Exec(s, Enqueue(c)))
  {
    hide Inv, Splx, SpinRelease, QueueSelf, SleepSelf, BurySelf;
    match s.cpus[c].phase.ns
    case Yielding =>
      StepNothingElse(s, c);
      StepQueueSelf(s, c);
    case Sleeping(w) => StepSleepSelf(s, c, w);
    case Exiting => StepBurySelf(s, c);
  }

  lemma StepPickNext(s: State, c: nat)
    requires Inv(s) && CanExec(s, PickNext(c))
    ensures Inv(Exec(s, PickNext(c)))
  {
    hide Inv, SpinRelease;
    StepPickEmpty(s, c);
    if s.cpus[c].runq != [] {
      StepTakeNext(s, c);
    }
  }

  /** The invariant provides everything that an enabled step relies on. */
  lemma StepPossible(s: State, a: Action)
    requires Inv(s) && Enabled(s, a)
    ensures CanExec(s, a)
  {
    var c := a.c;
    assert PhaseOk(s, c) && LevelOk(s, c);
    if a.Release? {
      HolderCounts(s, c, a.l);
    } else if a.UnlockChannel? {
      StepUnlockChannel(s, c);
    } else if a.PickNext? {
      StepPickEmpty(s, c);
    } else if a.ResumeNext? {
      StepResume(s, c);
    } else if a.Enqueue? {
      StepNothingElse(s, c);
    } else if a.ReapZombies? {
      StepReap(s, c);
    }
  }

  predicate LevelAction(a: Action) {
    a.SplHigh? || a.SplNone? || a.Acquire? || a.Release?
  }

  predicate ListAction(a: Action) {
    a.Fork? || a.TakeWaiter? || a.MakeRunnable? || a.TakeVictim? || a.PlaceVictim? || a.ReturnVictim?
  }

  lemma LevelActionInv(s: State, a: Action)
    requires Inv(s) && CanExec(s, a) && LevelAction(a)
    ensures Inv(Exec(s, a))
  {
    hide Inv;
    match a
    case SplHigh(c) => StepSplx(s, c, true);
    case SplNone(c) => StepSplx(s, c, false);
    case Acquire(c, l) => StepAcquire(s, c, l);
    case Release(c, l) => StepRelease(s, c, l);
  }

  lemma ListActionInv(s: State, a: Action)
    requires Inv(s) && CanExec(s, a) && ListAction(a)
    ensures Inv(Exec(s, a))
  {
    hide Inv;
    match a
    case Fork(c, t) => StepFork(s, c, t);
    case TakeWaiter(c, w) => StepTakeWaiter(s, c, w);
    case MakeRunnable(c) => StepMakeRunnable(s, c);
    case TakeVictim(c) => StepTakeVictim(s, c);
    case PlaceVictim(c, d) => StepPlaceVictim(s, c, d);
    case ReturnVictim(c) => StepReturnVictim(s, c);
  }

  lemma SwitchActionInv(s: State, a: Action)
    requires Inv(s) && CanExec(s, a) && !LevelAction(a) && !ListAction(a)
    ensures Inv(Exec(s, a))
  {
    hide Inv;
    match a
    case Switch(c, ns) => StepSwitch(s, c, ns);
    case LockQueue(c) => StepLockQueue(s, c);
    case Enqueue(c) => StepEnqueue(s, c);
    case UnlockChannel(c) => StepUnlockChannel(s, c);
    case SetNewState(c) => StepSetState(s, c);
    case PickNext(c) => StepPickNext(s, c);
    case Unidle(c) => StepUnidle(s, c);
    case ResumeNext(c) => StepResume(s, c);
    case ReapZombies(c) => StepReap(s, c);
  }

  /** Every step that the locks allow respects the source's assertions and keeps the invariant. */
  lemma StepInv(s: State, a: Action)
    requires Inv(s) && Enabled(s, a)
    ensures CanExec(s, a) && Inv(Exec(s, a))
  {
    StepPossible(s, a);
    hide Inv, Exec, CanExec, Enabled;
    if LevelAction(a) {
      LevelActionInv(s, a);
    } else if ListAction(a) {
      ListActionInv(s, a);
    } else {
      SwitchActionInv(s, a);
    }
  }

  // ---------------------------------------------------------------- runs

  function BootThread(c: nat): Thread {
    Thread(Ready, c, true, 1, Fresh, true)
  }

  function BootCpu(c: nat): Cpu {
    Cpu(c, 0, false, false, [], [], [], [], Body)
  }

  /** n CPUs as cpu_create leaves them, and m empty wait channels. */
  function Boot(n: nat, m: nat): State {
    State(seq(n, c requires 0 <= c < n => BootCpu(c)),
          map c: Tid | 0 <= c < n :: BootThread(c),
          seq(m, w => []),
          map[])
  }

  lemma {:induction false} BootCounts(cpus: seq<Cpu>, k: nat, t: Tid)
    requires forall c | 0 <= c < |cpus| :: cpus[c] == BootCpu(k + c)
    ensures CountOnCpus(cpus, t) == Indicator(k <= t < k + |cpus|)
  {
    if cpus != [] {
      BootCounts(cpus[1..], k + 1, t);
    }
  }

  lemma {:induction false} EmptyChannels(ws: seq<seq<Tid>>, t: Tid)
    requires forall w | 0 <= w < |ws| :: ws[w] == []
    ensures CountOnChannels(ws, t) == 0
  {
    if ws != [] {
      EmptyChannels(ws[1..], t);
    }
  }

  lemma BootConserved(n: nat, m: nat)
    ensures Conserved(Boot(n, m))
  {
    var s := Boot(n, m);
    forall t
      ensures Places(s, t) == Indicator(t in s.threads)
    {
      BootCounts(s.cpus, 0, t);
      EmptyChannels(s.wchans, t);
    }
  }

  lemma BootInv(n: nat, m: nat)
    ensures Inv(Boot(n, m))
  {
    var s := Boot(n, m);
    BootConserved(n, m);
    assert forall d :: HeldBy(s, d) == {};
    hide Conserved, HeldBy;
  }

  /** s' is reached from s by these actions. */
  ghost predicate Steps(s: State, acts: seq<Action>, s': State)
    decreases |acts|
  {
    if acts == [] then s' == s
    else CanExec(s, acts[0]) && Steps(Exec(s, acts[0]), acts[1..], s')
  }

  lemma {:induction false} RunInv(s: State, acts: seq<Action>, s': State)
    requires Inv(s) && Steps(s, acts, s')
    ensures Inv(s')
    decreases |acts|
  {
    if acts != [] {
      hide Inv, Exec;
      StepInv(s, acts[0]);
      RunInv(Exec(s, acts[0]), acts[1..], s');
    }
  }

  ghost predicate Reachable(s: State) {
    exists n, m, acts :: Steps(Boot(n, m), acts, s)
  }

  lemma ReachableInv(s: State)
    requires Reachable(s)
    ensures Inv(s)
  {
    var n, m, acts :| Steps(Boot(n, m), acts, s);
    BootInv(n, m);
    RunInv(Boot(n, m), acts, s);
  }

  // ---------------------------------------------------------------- what every reachable state satisfies

  /** Where a thread can be. */
  datatype Place = Running(c: nat) | OnQueue(c: nat) | OnChannel(w: nat) | OnZombies(c: nat) | BeingWoken(c: nat)
    | BeingMoved(c: nat)

  ghost predicate At(s: State, t: Tid, p: Place) {
    match p
    case Running(c) => c < |s.cpus| && CurrentOnly(s.cpus[c].phase) && s.cpus[c].cur == t
    case OnQueue(c) => c < |s.cpus| && t in s.cpus[c].runq
    case OnChannel(w) => w < |s.wchans| && t in s.wchans[w]
    case OnZombies(c) => c < |s.cpus| && t in s.cpus[c].zombies
    case BeingWoken(c) => c < |s.cpus| && t in s.cpus[c].woken
    case BeingMoved(c) => c < |s.cpus| && t in s.cpus[c].victims
  }

  /** t_state agrees with the place; a thread in transit has the state it comes from or goes to. */
  ghost predicate StateFits(s: State, t: Tid, p: Place) {
    && t in s.threads
    && var th := s.threads[t];
       match p
       case Running(c) =>
         th.cpu == c < |s.cpus| && (th.state == RunningState(th) || (s.cpus[c].phase.Resume? && th.state == Ready))
       case OnQueue(c) => th.cpu == c && th.state == Ready
       case OnChannel(w) => StateIs(s, t, Sleep)
       case OnZombies(c) => th.cpu == c && StateIs(s, t, Zombie)
       case BeingWoken(c) => th.state == Ready || StateIs(s, t, Sleep)
       case BeingMoved(c) => th.cpu == c && th.state == Ready
  }

  lemma SomePlace(s: State, t: Tid)
    requires Conserved(s) && t in s.threads
    ensures exists p :: At(s, t, p)
  {
    assert Places(s, t) == 1;
    if CountOnCpus(s.cpus, t) > 0 {
      var c := SomeCpu(s.cpus, t);
      var cpu := s.cpus[c];
      if t in cpu.runq {
        assert At(s, t, OnQueue(c));
      } else if t in cpu.zombies {
        assert At(s, t, OnZombies(c));
      } else if t in cpu.woken {
        assert At(s, t, BeingWoken(c));
      } else if t in cpu.victims {
        assert At(s, t, BeingMoved(c));
      } else {
        assert At(s, t, Running(c));
      }
    } else {
      var w := SomeChannel(s.wchans, t);
      assert At(s, t, OnChannel(w));
    }
  }

  lemma {:induction false} SomeCpu(cpus: seq<Cpu>, t: Tid) returns (c: nat)
    requires CountOnCpus(cpus, t) > 0
    ensures c < |cpus| && CountOnCpu(cpus[c], t) > 0
  {
    if CountOnCpu(cpus[0], t) > 0 {
      c := 0;
    } else {
      c := SomeCpu(cpus[1..], t);
      c := c + 1;
    }
  }

  lemma {:induction false} SomeChannel(ws: seq<seq<Tid>>, t: Tid) returns (w: nat)
    requires CountOnChannels(ws, t) > 0
    ensures w < |ws| && t in ws[w]
  {
    if t in ws[0] {
      w := 0;
    } else {
      w := SomeChannel(ws[1..], t);
      w := w + 1;
    }
  }

  lemma AtCounts(s: State, t: Tid, p: Place)
    requires At(s, t, p) && !p.OnChannel?
    ensures CountOnCpu(s.cpus[p.c], t) > 0
  {
    InList(s.cpus[p.c], t);
  }

  /** Two places on one CPU would count twice. */
  lemma SameCpuPlace(s: State, t: Tid, p: Place, q: Place)
    requires At(s, t, p) && At(s, t, q) && !p.OnChannel? && !q.OnChannel? && p.c == q.c
    requires CountOnCpu(s.cpus[p.c], t) == 1
    ensures p == q
  {
  }

  lemma OnePlace(s: State, t: Tid, p: Place, q: Place)
    requires Conserved(s) && At(s, t, p) && At(s, t, q)
    ensures p == q
  {
    if p.OnChannel? {
      AtChannel(s, t, p.w);
      if !q.OnChannel? {
        AtCounts(s, t, q);
      }
    } else if q.OnChannel? {
      AtChannel(s, t, q.w);
      AtCounts(s, t, p);
    } else {
      AtCounts(s, t, p);
      AtCounts(s, t, q);
      AtCpu(s, t, p.c);
      SameCpuPlace(s, t, p, q);
    }
  }

  lemma PlaceFits(s: State, t: Tid, p: Place)
    requires Inv(s) && At(s, t, p)
    ensures StateFits(s, t, p)
  {
    if p.OnChannel? {
      assert StateIs(s, t, Sleep);
    } else {
      assert CpuListsOk(s, p.c) && PhaseOk(s, p.c) && LevelOk(s, p.c);
    }
  }

  /** Conservation: in every reachable state each thread is in exactly one place, and t_state and t_cpu say so. */
  lemma ThreadsConserved(s: State, t: Tid)
    requires Reachable(s)
    ensures t in s.threads <==> exists p :: At(s, t, p)
    ensures forall p, q | At(s, t, p) && At(s, t, q) :: p == q
    ensures forall p | At(s, t, p) :: StateFits(s, t, p)
  {
    ReachableInv(s);
    if t in s.threads {
      SomePlace(s, t);
    }
    forall p, q | At(s, t, p) && At(s, t, q)
      ensures p == q
    {
      OnePlace(s, t, p, q);
    }
    forall p | At(s, t, p)
      ensures StateFits(s, t, p)
    {
      PlaceFits(s, t, p);
    }
  }

  /** Interrupt-level accounting. */
  lemma LevelAccounting(s: State, c: nat)
    requires Reachable(s) && c < |s.cpus|
    ensures s.cpus[c].cur in s.threads
    ensures var th := s.threads[s.cpus[c].cur];
            && th.count == Indicator(th.high) + s.cpus[c].spinlocks
            && s.cpus[c].spinlocks == |HeldBy(s, c)|
            && (s.cpus[c].irq <==> th.count == 0)
  {
    ReachableInv(s);
    assert LevelOk(s, c);
  }

  /** Every thread that is not on a CPU has t_iplhigh_count 2. */
  lemma SwitchedOutAtTwo(s: State, t: Tid)
    requires Reachable(s) && t in s.threads && forall c | 0 <= c < |s.cpus| :: s.cpus[c].cur != t
    ensures s.threads[t].high && s.threads[t].count == 2
  {
    ReachableInv(s);
    assert !IsCurrent(s, t);
  }

  /** A thread that starts or resumes owns the run queue lock of its CPU and no other lock. */
  lemma ResumesWithItsLock(s: State, c: nat)
    requires Reachable(s) && c < |s.cpus| && s.cpus[c].phase.Resume?
    ensures s.cpus[c].cur in s.threads && s.threads[s.cpus[c].cur].cpu == c
    ensures HeldBy(s, c) == {RunQ(c)} && s.cpus[c].spinlocks == 1
    ensures s.threads[s.cpus[c].cur].count == 2 && !s.cpus[c].irq
  {
    ReachableInv(s);
    assert PhaseOk(s, c) && LevelOk(s, c);
  }

  /** No enabled step can break an assertion of the source; those about the caller's own locks are in Enabled. */
  lemma NoAssertionFails(s: State, a: Action)
    requires Reachable(s) && Enabled(s, a)
    ensures CanExec(s, a)
    ensures a.ReapZombies? ==> forall z | z in s.cpus[a.c].zombies ::
              z in s.threads && s.threads[z].state == Zombie && forall d | 0 <= d < |s.cpus| :: s.cpus[d].cur != z
  {
    ReachableInv(s);
    StepPossible(s, a);
    if a.ReapZombies? {
      forall z | z in s.cpus[a.c].zombies
        ensures z in s.threads && s.threads[z].state == Zombie && forall d | 0 <= d < |s.cpus| :: s.cpus[d].cur != z
      {
        ZombiesAreDead(s, a.c, z);
      }
    }
  }

  /**
   thread_yield and thread_exit do not look at c_spinlocks.  On the way to the switch the count is two
   more than the spinlocks that the caller holds, so the thread is left with 2 exactly if it held none,
   or, when it sleeps and its channel's lock is released, exactly one.
   */
  lemma LeftWithTwo(s: State, c: nat, w: nat)
    requires Levels(s) && c < |s.cpus| && RunQ(c) !in s.holder
    requires s.threads[s.cpus[c].cur].high ==> s.threads[s.cpus[c].cur].count > 0
    ensures var s1 := SpinAcquire(Splx(s, c, true), c, RunQ(c));
            var th := s1.threads[s.cpus[c].cur];
            && th.high && th.count == 2 + s.cpus[c].spinlocks
            && (SwitchedOut(th) <==> s.cpus[c].spinlocks == 0)
            && (SwitchedOut(SpinRelease(s1, c, Other(w)).threads[s.cpus[c].cur]) <==> s.cpus[c].spinlocks == 1)
  {
    assert LevelOk(s, c);
  }

  /** A thread that yields with a spinlock held, just after boot, is left with a count of 3. */
  lemma YieldWithALock() returns (s: State)
    ensures Reachable(s) && s.cpus == [BootCpu(0).(spinlocks := 1)] && RunQ(0) !in s.holder && 0 in s.threads
    ensures var th := SpinAcquire(Splx(s, 0, true), 0, RunQ(0)).threads[0]; th.count == 3 && !SwitchedOut(th)
  {
    hide Inv;
    var a := Acquire(0, Other(0));
    BootInv(1, 1);
    StepPossible(Boot(1, 1), a);
    s := Exec(Boot(1, 1), a);
    assert Steps(s, [], s);
    assert Steps(Boot(1, 1), [a], s);
    ReachableInv(s);
    assert Levels(s);
    LeftWithTwo(s, 0, 0);
  }
}
