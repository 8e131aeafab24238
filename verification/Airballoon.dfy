/**
 The airballoon synchronisation problem of src/kern/synchprobs/airballoon.c as an interleaving of
 atomic steps, for n ropes and k FlowerKillers.  One step is one access to shared memory or one lock
 operation; a blocked lock_acquire is a thread that cannot step.  The result of random() is an input
 of the step, and thread_yield is left to the interleaving.
 */
module Airballoon {
  import opened Counting

  datatype Tid = Marigold | Dandelion | Balloon | Killer(i: nat) | Main

  datatype Lock = Rope(r: nat) | Count | Print | Threads

  /** What a FlowerKiller remembers of one attempt: two stakes and the ropes read from them. */
  datatype Swap = Swap(s1: nat, s2: nat, r1: nat, r2: nat) {
    function First(): nat { if r1 < r2 then r1 else r2 }
    function Second(): nat { if r1 < r2 then r2 else r1 }
  }

  /** Stages of one round of dandelion() and marigold(), once the rope is chosen. */
  datatype CutStage =
    | CutAcquire | CutTest | CutRecheck | CutSever
    | CutCountAcquire | CutLoad | CutStore(v: int) | CutCountRelease | CutRelease

  /** Stages of one round of flowerkiller(), once both ropes are read. */
  datatype SwapStage =
    | SwapAcquire1 | SwapHolds | SwapAcquire2
    | SwapSevered1 | SwapSevered2 | SwapMapped1 | SwapMapped2
    | SwapTemp | SwapLoad(temp: nat) | SwapStore1(temp: nat, x: nat) | SwapStore2(temp: nat)
    | SwapPrintAcquire | SwapPrintRelease | SwapRelease2 | SwapRelease1

  /** The next thing a thread will do. */
  datatype PC =
    | Unborn
      // dandelion and marigold
    | CutTop
    | CutRead(stake: nat)
    | Cutting(stake: nat, rope: nat, cut: CutStage)
      // flowerkiller
    | SwapTop
    | SwapRead1(s1: nat, s2: nat)
    | SwapRead2(s1: nat, s2: nat, r1: nat)
    | Swapping(w: Swap, swap: SwapStage)
      // the test for the end that every loop makes
    | EndAcquire
    | EndTest
    | EndRelease(stop: bool)
      // leaving a worker
    | ExitAcquire
    | ExitLoad
    | ExitStore(v: int)
    | ExitRelease
    | Exited
      // airballoon() itself
    | MainFork(next: nat)
    | MainWaitAcquire
    | MainWaitTest
    | MainWaitRelease(stop: bool)
    | MainReset
    | MainDestroy(next: nat)
    | MainDone

  datatype State = State(
    n: nat,
    k: nat,
    mappings: seq<nat>,
    severed: seq<bool>,
    ropesLeft: int,
    threadsLeft: int,
    owner: map<Lock, Tid>,
    destroyed: set<Lock>,
    pc: map<Tid, PC>)

  predicate IsTid(t: Tid, k: nat) {
    t.Killer? ==> t.i < k
  }

  /** The thread that the j-th thread_fork of airballoon() starts. */
  function Forked(j: nat, k: nat): Tid {
    if j == 0 then Marigold else if j == 1 then Dandelion else if j < k + 2 then Killer(j - 2) else Balloon
  }

  function Top(t: Tid): PC {
    match t
    case Marigold => CutTop
    case Dandelion => CutTop
    case Killer(_) => SwapTop
    case Balloon => EndAcquire
    case Main => EndAcquire
  }

  /** The lock that a thread destroys as its j-th. */
  function Destroyed(j: nat, n: nat): Lock {
    if j < n then Rope(j) else if j == n then Count else if j == n + 1 then Print else Threads
  }

  function Init(n: nat, k: nat): State {
    State(n, k, seq(n, i => i), seq(n, i => false), n, 3 + k, map[], {},
          map t | t in AllTids(k) :: if t == Main then MainFork(0) else Unborn)
  }

  function AllTids(k: nat): set<Tid> {
    {Marigold, Dandelion, Balloon, Main} + (set i | 0 <= i < k :: Killer(i))
  }

  lemma AllTidsAre(k: nat, t: Tid)
    ensures t in AllTids(k) <==> IsTid(t, k)
  {
    match t
    case Killer(i) => assert i < k ==> Killer(i) in AllTids(k);
    case _ =>
  }

  // ---------------------------------------------------------------- locks of a program point

  datatype Option<T> = None | Some(value: T)

  function CutHeld(rope: nat, cut: CutStage): set<Lock> {
    match cut
    case CutAcquire => {}
    case CutLoad => {Rope(rope), Count}
    case CutStore(_) => {Rope(rope), Count}
    case CutCountRelease => {Rope(rope), Count}
    case _ => {Rope(rope)}
  }

  function SwapHeld(w: Swap, swap: SwapStage): set<Lock> {
    match swap
    case SwapAcquire1 => {}
    case SwapHolds => {Rope(w.First())}
    case SwapAcquire2 => {Rope(w.First())}
    case SwapPrintRelease => {Rope(w.First()), Rope(w.Second()), Print}
    case SwapRelease1 => {Rope(w.First())}
    case _ => {Rope(w.First()), Rope(w.Second())}
  }

  /** The locks that a thread at this point holds. */
  function Held(pc: PC): set<Lock> {
    match pc
    case Cutting(_, rope, cut) => CutHeld(rope, cut)
    case Swapping(w, swap) => SwapHeld(w, swap)
    case EndTest => {Count}
    case EndRelease(_) => {Count}
    case ExitLoad => {Threads}
    case ExitStore(_) => {Threads}
    case ExitRelease => {Threads}
    case MainWaitTest => {Threads}
    case MainWaitRelease(_) => {Threads}
    case _ => {}
  }

  /** The lock whose lock_acquire is next. */
  function Wants(pc: PC): Option<Lock> {
    match pc
    case Cutting(_, rope, CutAcquire) => Some(Rope(rope))
    case Cutting(_, _, CutCountAcquire) => Some(Count)
    case Swapping(w, SwapAcquire1) => Some(Rope(w.First()))
    case Swapping(w, SwapAcquire2) => Some(Rope(w.Second()))
    case Swapping(_, SwapPrintAcquire) => Some(Print)
    case EndAcquire => Some(Count)
    case ExitAcquire => Some(Threads)
    case MainWaitAcquire => Some(Threads)
    case _ => None
  }

  /** The lock whose lock_release is next. */
  function Releases(pc: PC): Option<Lock> {
    match pc
    case Cutting(_, _, CutCountRelease) => Some(Count)
    case Cutting(_, rope, CutRelease) => Some(Rope(rope))
    case Swapping(_, SwapPrintRelease) => Some(Print)
    case Swapping(w, SwapRelease2) => Some(Rope(w.Second()))
    case Swapping(w, SwapRelease1) => Some(Rope(w.First()))
    case EndRelease(_) => Some(Count)
    case ExitRelease => Some(Threads)
    case MainWaitRelease(_) => Some(Threads)
    case _ => None
  }

  predicate Finished(pc: PC) {
    pc.Exited? || pc.MainDone?
  }

  predicate Enabled(s: State, t: Tid) {
    && t in s.pc
    && !s.pc[t].Unborn? && !Finished(s.pc[t])
    && (Wants(s.pc[t]).Some? ==> Wants(s.pc[t]).value !in s.owner)
  }

  // ---------------------------------------------------------------- the steps

  predicate SwapInRange(n: nat, w: Swap) {
    w.s1 < n && w.s2 < n && w.s1 != w.s2 && w.r1 < n && w.r2 < n
  }

  /** Which points thread t can be at, with stakes and ropes below n. */
  predicate InRange(n: nat, t: Tid, pc: PC) {
    match pc
    case Unborn => t != Main
    case CutTop => t.Marigold? || t.Dandelion?
    case CutRead(stake) => t.Marigold? && stake < n
    case Cutting(stake, rope, cut) =>
      (t.Marigold? || (t.Dandelion? && !cut.CutRecheck?)) && stake < n && rope < n
    case SwapTop => t.Killer?
    case SwapRead1(s1, s2) => t.Killer? && s1 < n && s2 < n && s1 != s2
    case SwapRead2(s1, s2, r1) => t.Killer? && s1 < n && s2 < n && s1 != s2 && r1 < n
    case Swapping(w, swap) =>
      && t.Killer? && SwapInRange(n, w)
      && (w.r1 == w.r2 ==> swap.SwapAcquire1? || swap.SwapHolds? || swap.SwapRelease1?)
    case EndAcquire => true
    case EndTest => true
    case EndRelease(_) => true
    case ExitAcquire => t != Main
    case ExitLoad => t != Main
    case ExitStore(_) => t != Main
    case ExitRelease => t != Main
    case Exited => t != Main
    case MainDestroy(j) => t == Main && j <= n + 2
    case _ => t == Main
  }

  /** Sizes and ranges; everything a step needs to be well defined. */
  ghost predicate WellFormed(s: State) {
    && s.n > 0 && |s.mappings| == s.n && |s.severed| == s.n
    && (forall t :: t in s.pc <==> IsTid(t, s.k))
    && (forall t | t in s.pc :: InRange(s.n, t, s.pc[t]))
    && (forall i | 0 <= i < s.n :: s.mappings[i] < s.n)
  }

  function Goto(s: State, t: Tid, pc: PC): State {
    s.(pc := s.pc[t := pc])
  }

  function Grab(s: State, t: Tid, l: Lock, pc: PC): State {
    s.(pc := s.pc[t := pc], owner := s.owner[l := t])
  }

  /** lock_release frees the lock whoever calls it; see synch.c. */
  function Drop(s: State, t: Tid, l: Lock, pc: PC): State {
    s.(pc := s.pc[t := pc], owner := s.owner - {l})
  }

  predicate Sized(s: State) {
    s.n > 0 && |s.mappings| == s.n && |s.severed| == s.n
  }

  function ExecCut(s: State, t: Tid, stake: nat, rope: nat, cut: CutStage): State
    requires Sized(s) && stake < s.n && rope < s.n
  {
    match cut
    case CutAcquire => Grab(s, t, Rope(rope), Cutting(stake, rope, CutTest))
    case CutTest =>
      Goto(s, t, Cutting(stake, rope,
                         if s.severed[rope] then CutRelease else if t == Marigold then CutRecheck else CutSever))
    case CutRecheck => Goto(s, t, Cutting(stake, rope, if rope == s.mappings[stake] then CutSever else CutRelease))
    case CutSever => Goto(s, t, Cutting(stake, rope, CutCountAcquire)).(severed := s.severed[rope := true])
    case CutCountAcquire => Grab(s, t, Count, Cutting(stake, rope, CutLoad))
    case CutLoad => Goto(s, t, Cutting(stake, rope, CutStore(s.ropesLeft)))
    case CutStore(v) => Goto(s, t, Cutting(stake, rope, CutCountRelease)).(ropesLeft := v - 1)
    case CutCountRelease => Drop(s, t, Count, Cutting(stake, rope, CutRelease))
    case CutRelease => Drop(s, t, Rope(rope), EndAcquire)
  }

  predicate IHold(s: State, t: Tid, l: Lock) {
    l in s.owner && s.owner[l] == t
  }

  function ExecSwap(s: State, t: Tid, w: Swap, swap: SwapStage): State
    requires Sized(s) && SwapInRange(s.n, w)
  {
    match swap
    case SwapAcquire1 => Grab(s, t, Rope(w.First()), Swapping(w, SwapHolds))
    case SwapHolds =>
      var next := if !IHold(s, t, Rope(w.Second())) && IHold(s, t, Rope(w.First())) then SwapAcquire2 else SwapRelease1;
      Goto(s, t, Swapping(w, next))
    case SwapAcquire2 => Grab(s, t, Rope(w.Second()), Swapping(w, SwapSevered1))
    case SwapSevered1 => Goto(s, t, Swapping(w, if s.severed[w.r1] then SwapRelease2 else SwapSevered2))
    case SwapSevered2 => Goto(s, t, Swapping(w, if s.severed[w.r2] then SwapRelease2 else SwapMapped1))
    case SwapMapped1 => Goto(s, t, Swapping(w, if w.r1 == s.mappings[w.s1] then SwapMapped2 else SwapRelease2))
    case SwapMapped2 => Goto(s, t, Swapping(w, if w.r2 == s.mappings[w.s2] then SwapTemp else SwapRelease2))
    case SwapTemp => Goto(s, t, Swapping(w, SwapLoad(s.mappings[w.s1])))
    case SwapLoad(temp) => Goto(s, t, Swapping(w, SwapStore1(temp, s.mappings[w.s2])))
    case SwapStore1(temp, x) => Goto(s, t, Swapping(w, SwapStore2(temp))).(mappings := s.mappings[w.s1 := x])
    case SwapStore2(temp) => Goto(s, t, Swapping(w, SwapPrintAcquire)).(mappings := s.mappings[w.s2 := temp])
    case SwapPrintAcquire => Grab(s, t, Print, Swapping(w, SwapPrintRelease))
    case SwapPrintRelease => Drop(s, t, Print, Swapping(w, SwapRelease2))
    case SwapRelease2 => Drop(s, t, Rope(w.Second()), Swapping(w, SwapRelease1))
    case SwapRelease1 => Drop(s, t, Rope(w.First()), EndAcquire)
  }

  function ExecMain(s: State, t: Tid): State
    requires s.pc.Keys >= {t}
  {
    match s.pc[t]
    case MainFork(j) =>
      if j < s.k + 3 then
        s.(pc := s.pc[Forked(j, s.k) := Top(Forked(j, s.k))][t := MainFork(j + 1)])
      else
        Goto(s, t, EndAcquire)
    case MainWaitAcquire => Grab(s, t, Threads, MainWaitTest)
    case MainWaitTest => Goto(s, t, MainWaitRelease(s.threadsLeft <= 0))
    case MainWaitRelease(stop) => Drop(s, t, Threads, if stop then MainReset else MainWaitAcquire)
    case MainReset => Goto(s, t, MainDestroy(0)).(ropesLeft := s.n)
    case MainDestroy(j) =>
      Goto(s, t, if j < s.n + 2 then MainDestroy(j + 1) else MainDone)
      .(destroyed := s.destroyed + {Destroyed(j, s.n)})
    case _ => s
  }

  /** One step of thread t; x and y are what random() returns. */
  function Exec(s: State, t: Tid, x: nat, y: nat): State
    requires Sized(s) && t in s.pc && InRange(s.n, t, s.pc[t])
  {
    match s.pc[t]
    case CutTop => Goto(s, t, if t == Marigold then CutRead(x % s.n) else Cutting(x % s.n, x % s.n, CutAcquire))
    case CutRead(stake) => Goto(s, t, Cutting(stake, s.mappings[stake], CutAcquire))
    case Cutting(stake, rope, cut) => ExecCut(s, t, stake, rope, cut)
    case SwapTop => Goto(s, t, if x % s.n == y % s.n then SwapTop else SwapRead1(x % s.n, y % s.n))
    case SwapRead1(s1, s2) => Goto(s, t, SwapRead2(s1, s2, s.mappings[s1]))
    case SwapRead2(s1, s2, r1) => Goto(s, t, Swapping(Swap(s1, s2, r1, s.mappings[s2]), SwapAcquire1))
    case Swapping(w, swap) => ExecSwap(s, t, w, swap)
    case EndAcquire => Grab(s, t, Count, EndTest)
    case EndTest => Goto(s, t, EndRelease(s.ropesLeft <= 0))
    case EndRelease(stop) =>
      Drop(s, t, Count, if !stop then Top(t) else if t == Main then MainWaitAcquire else ExitAcquire)
    case ExitAcquire => Grab(s, t, Threads, ExitLoad)
    case ExitLoad => Goto(s, t, ExitStore(s.threadsLeft))
    case ExitStore(v) => Goto(s, t, ExitRelease).(threadsLeft := v - 1)
    case ExitRelease => Drop(s, t, Threads, Exited)
    case _ => ExecMain(s, t)
  }

  ghost predicate StepBy(s: State, s': State, t: Tid, x: nat, y: nat) {
    WellFormed(s) && Enabled(s, t) && s' == Exec(s, t, x, y)
  }

  ghost predicate Step(s: State, s': State) {
    exists t, x, y :: StepBy(s, s', t, x, y)
  }

  // ---------------------------------------------------------------- the invariant

  predicate Holds(s: State, t: Tid, l: Lock) {
    t in s.pc && l in Held(s.pc[t])
  }

  /** The owner recorded in a lock is the thread whose program point holds it. */
  ghost predicate Owned(s: State) {
    && (forall t, l | Holds(s, t, l) :: l in s.owner && s.owner[l] == t)
    && (forall l | l in s.owner :: Holds(s, s.owner[l], l))
  }

  ghost predicate AllSevered(s: State) {
    forall r | 0 <= r < |s.severed| :: s.severed[r]
  }

  /** The thread has found ropes_left at zero. */
  predicate SawEnd(pc: PC) {
    match pc
    case EndRelease(stop) => stop
    case ExitAcquire => true
    case ExitLoad => true
    case ExitStore(_) => true
    case ExitRelease => true
    case Exited => true
    case MainWaitAcquire => true
    case MainWaitTest => true
    case MainWaitRelease(_) => true
    case MainReset => true
    case MainDestroy(_) => true
    case MainDone => true
    case _ => false
  }

  ghost predicate Unsevered(s: State, w: Swap)
    requires Sized(s) && SwapInRange(s.n, w)
  {
    !s.severed[w.r1] && !s.severed[w.r2]
  }

  /** A swap whose four conditions have been checked under both rope locks. */
  ghost predicate InPlace(s: State, w: Swap)
    requires Sized(s) && SwapInRange(s.n, w)
  {
    Unsevered(s, w) && s.mappings[w.s1] == w.r1 && s.mappings[w.s2] == w.r2
  }

  /** Between the two stores: both stakes show r2 and r1 is nowhere. */
  ghost predicate HalfDone(s: State, w: Swap)
    requires Sized(s) && SwapInRange(s.n, w)
  {
    && Unsevered(s, w) && s.mappings[w.s1] == w.r2 && s.mappings[w.s2] == w.r2
    && forall i | 0 <= i < s.n :: s.mappings[i] != w.r1
  }

  ghost predicate Swapped(s: State, w: Swap)
    requires Sized(s) && SwapInRange(s.n, w)
  {
    s.mappings[w.s1] == w.r2 && s.mappings[w.s2] == w.r1
  }

  ghost predicate CutLocal(s: State, t: Tid, stake: nat, rope: nat, cut: CutStage)
    requires Sized(s) && stake < s.n && rope < s.n
  {
    match cut
    case CutRecheck => !s.severed[rope]
    case CutSever => !s.severed[rope] && (t == Marigold ==> s.mappings[stake] == rope)
    case CutCountAcquire => s.severed[rope]
    case CutLoad => s.severed[rope]
    case CutStore(v) => s.severed[rope] && v == s.ropesLeft
    case CutCountRelease => s.severed[rope]
    case CutRelease => s.severed[rope] || (t == Marigold && s.mappings[stake] != rope)
    case _ => true
  }

  ghost predicate SwapLocal(s: State, w: Swap, swap: SwapStage)
    requires Sized(s) && SwapInRange(s.n, w)
  {
    match swap
    case SwapSevered2 => !s.severed[w.r1]
    case SwapMapped1 => Unsevered(s, w)
    case SwapMapped2 => Unsevered(s, w) && s.mappings[w.s1] == w.r1
    case SwapTemp => InPlace(s, w)
    case SwapLoad(temp) => InPlace(s, w) && temp == w.r1
    case SwapStore1(temp, x) => InPlace(s, w) && temp == w.r1 && x == w.r2
    case SwapStore2(temp) => HalfDone(s, w) && temp == w.r1
    case SwapPrintAcquire => Swapped(s, w)
    case SwapPrintRelease => Swapped(s, w)
    case SwapRelease2 => !InPlace(s, w)
    case _ => true
  }

  /** What a thread knows at its program point. */
  ghost predicate Local(s: State, t: Tid)
    requires Sized(s) && t in s.pc && InRange(s.n, t, s.pc[t])
  {
    match s.pc[t]
    case Cutting(stake, rope, cut) => CutLocal(s, t, stake, rope, cut)
    case Swapping(w, swap) => SwapLocal(s, w, swap)
    case ExitStore(v) => v == s.threadsLeft
    case _ => true
  }

  /** t is the FlowerKiller between its two stores to stakes i and j. */
  ghost predicate SwappingAt(s: State, t: Tid, i: nat, j: nat) {
    && t in s.pc && s.pc[t].Swapping? && s.pc[t].swap.SwapStore2?
    && var w := s.pc[t].w; (w.s1 == i && w.s2 == j) || (w.s1 == j && w.s2 == i)
  }

  /** Two stakes show the same rope only while some FlowerKiller is between its two stores there. */
  ghost predicate Distinct(s: State) {
    forall i, j | 0 <= i < |s.mappings| && 0 <= j < |s.mappings| && i != j && s.mappings[i] == s.mappings[j] ::
      exists t :: SwappingAt(s, t, i, j)
  }

  /** Severed, but ropes_left not yet decremented. */
  function Pending(pc: PC): nat {
    if pc.Cutting? && (pc.cut.CutCountAcquire? || pc.cut.CutLoad? || pc.cut.CutStore?) then 1 else 0
  }

  predicate WasReset(pc: PC) {
    pc.MainDestroy? || pc.MainDone?
  }

  predicate Shutdown(pc: PC) {
    (pc.MainWaitRelease? && pc.stop) || pc.MainReset? || WasReset(pc)
  }

  ghost predicate RopesCounted(s: State)
    requires WellFormed(s)
  {
    !WasReset(s.pc[Main]) ==>
      s.ropesLeft == s.n - CountTrue(s.severed) + Pending(s.pc[Marigold]) + Pending(s.pc[Dandelion])
  }

  /** 1 while the worker has yet to decrement threads_left. */
  function Left(pc: PC): nat {
    if pc.ExitRelease? || pc.Exited? then 0 else 1
  }

  function KillersLeft(pc: map<Tid, PC>, k: nat): nat
    requires forall i | 0 <= i < k :: Killer(i) in pc
  {
    if k == 0 then 0 else KillersLeft(pc, k - 1) + Left(pc[Killer(k - 1)])
  }

  ghost predicate ThreadsCounted(s: State)
    requires WellFormed(s)
  {
    s.threadsLeft == Left(s.pc[Marigold]) + Left(s.pc[Dandelion]) + Left(s.pc[Balloon]) + KillersLeft(s.pc, s.k)
  }

  ghost predicate MainWaited(s: State)
    requires WellFormed(s)
  {
    && (Shutdown(s.pc[Main]) ==> forall t | t in s.pc && t != Main :: s.pc[t].Exited?)
    && (!WasReset(s.pc[Main]) ==> s.destroyed == {})
  }

  /** The threads still to be forked are exactly those that do not exist yet. */
  ghost predicate Forking(s: State)
    requires WellFormed(s)
  {
    if s.pc[Main].MainFork? then
      && s.pc[Main].next <= s.k + 3
      && (forall j | 0 <= j < s.k + 3 :: s.pc[Forked(j, s.k)].Unborn? <==> s.pc[Main].next <= j)
    else
      forall t | t in s.pc :: !s.pc[t].Unborn?
  }

  ghost predicate Inv(s: State) {
    && WellFormed(s)
    && Owned(s)
    && (forall t | t in s.pc :: Local(s, t))
    && (forall t | t in s.pc && SawEnd(s.pc[t]) :: AllSevered(s))
    && Distinct(s)
    && RopesCounted(s)
    && ThreadsCounted(s)
    && MainWaited(s)
    && Forking(s)
  }

  // ---------------------------------------------------------------- preservation, part by part

  lemma SameOwner(s: State, t1: Tid, t2: Tid, l: Lock)
    requires Owned(s) && Holds(s, t1, l) && Holds(s, t2, l)
    ensures t1 == t2
  {
  }

  /** Every step takes one lock, gives one back, or leaves the locks alone. */
  ghost predicate LockEffect(s: State, s': State, t: Tid, pc: PC)
    requires t in s'.pc
  {
    var pc' := s'.pc[t];
    if Wants(pc).Some? then
      && s'.owner == s.owner[Wants(pc).value := t]
      && Held(pc') == Held(pc) + {Wants(pc).value}
    else if Releases(pc).Some? then
      && s'.owner == s.owner - {Releases(pc).value}
      && Held(pc') == Held(pc) - {Releases(pc).value}
      && Releases(pc).value in Held(pc)
    else
      s'.owner == s.owner && Held(pc') == Held(pc)
  }

  lemma LocksCut(s: State, t: Tid, stake: nat, rope: nat, cut: CutStage)
    requires Sized(s) && stake < s.n && rope < s.n
    ensures LockEffect(s, ExecCut(s, t, stake, rope, cut), t, Cutting(stake, rope, cut))
  {
  }

  predicate SwapLocking(swap: SwapStage) {
    swap.SwapAcquire1? || swap.SwapHolds? || swap.SwapAcquire2? || swap.SwapPrintAcquire? || swap.SwapPrintRelease?
    || swap.SwapRelease2? || swap.SwapRelease1?
  }

  lemma LocksSwapQuiet(s: State, t: Tid, w: Swap, swap: SwapStage)
    requires Sized(s) && SwapInRange(s.n, w) && w.r1 != w.r2 && !SwapLocking(swap)
    ensures LockEffect(s, ExecSwap(s, t, w, swap), t, Swapping(w, swap))
  {
  }

  lemma LocksSwap(s: State, t: Tid, w: Swap, swap: SwapStage)
    requires Sized(s) && SwapInRange(s.n, w)
    requires w.r1 == w.r2 ==> swap.SwapAcquire1? || swap.SwapHolds? || swap.SwapRelease1?
    ensures LockEffect(s, ExecSwap(s, t, w, swap), t, Swapping(w, swap))
  {
    if !SwapLocking(swap) {
      LocksSwapQuiet(s, t, w, swap);
    } else if swap.SwapHolds? || swap.SwapPrintAcquire? || swap.SwapPrintRelease? {
      LocksSwapPrint(s, t, w, swap);
    }
  }

  lemma LocksSwapPrint(s: State, t: Tid, w: Swap, swap: SwapStage)
    requires Sized(s) && SwapInRange(s.n, w) && (swap.SwapHolds? || swap.SwapPrintAcquire? || swap.SwapPrintRelease?)
    requires w.r1 == w.r2 ==> swap.SwapHolds?
    ensures LockEffect(s, ExecSwap(s, t, w, swap), t, Swapping(w, swap))
  {
  }

  lemma LocksMain(s: State, t: Tid)
    requires WellFormed(s) && Enabled(s, t) && MainPoint(s.pc[t])
    ensures t in ExecMain(s, t).pc && LockEffect(s, ExecMain(s, t), t, s.pc[t])
  {
  }

  predicate EndPoint(pc: PC) {
    pc.EndAcquire? || pc.EndTest? || pc.EndRelease? || pc.ExitAcquire? || pc.ExitLoad? || pc.ExitStore?
    || pc.ExitRelease?
  }

  predicate MainPoint(pc: PC) {
    pc.MainFork? || pc.MainWaitAcquire? || pc.MainWaitTest? || pc.MainWaitRelease? || pc.MainReset? || pc.MainDestroy?
  }

  lemma LocksEnd(s: State, t: Tid, x: nat, y: nat)
    requires WellFormed(s) && Enabled(s, t) && EndPoint(s.pc[t])
    ensures LockEffect(s, Exec(s, t, x, y), t, s.pc[t])
  {
    hide ExecCut, ExecSwap, ExecMain;
  }

  lemma LocksTop(s: State, t: Tid, x: nat, y: nat)
    requires WellFormed(s) && Enabled(s, t)
    requires !EndPoint(s.pc[t]) && !MainPoint(s.pc[t]) && !s.pc[t].Cutting? && !s.pc[t].Swapping?
    ensures LockEffect(s, Exec(s, t, x, y), t, s.pc[t])
  {
    hide ExecCut, ExecSwap;
  }

  lemma ExecIsMain(s: State, t: Tid, x: nat, y: nat)
    requires WellFormed(s) && Enabled(s, t) && MainPoint(s.pc[t])
    ensures Exec(s, t, x, y) == ExecMain(s, t)
  {
    hide ExecMain;
  }

  lemma LocksExec(s: State, t: Tid, x: nat, y: nat)
    requires WellFormed(s) && Enabled(s, t)
    ensures LockEffect(s, Exec(s, t, x, y), t, s.pc[t])
  {
    hide LockEffect, EndPoint, MainPoint, ExecMain, ExecCut, ExecSwap;
    if s.pc[t].Cutting? {
      LocksCut(s, t, s.pc[t].stake, s.pc[t].rope, s.pc[t].cut);
    } else if s.pc[t].Swapping? {
      LocksSwap(s, t, s.pc[t].w, s.pc[t].swap);
    } else if EndPoint(s.pc[t]) {
      LocksEnd(s, t, x, y);
    } else if MainPoint(s.pc[t]) {
      ExecIsMain(s, t, x, y);
      LocksMain(s, t);
    } else {
      LocksTop(s, t, x, y);
    }
  }

  lemma ForkedIs(j: nat, k: nat)
    requires j < k + 3
    ensures IsTid(Forked(j, k), k) && Forked(j, k) != Main
  {
  }

  /** A step moves its own thread, and a fork also the thread it starts. */
  ghost predicate OnlyMoves(s: State, s': State, t: Tid)
    requires t in s.pc
  {
    && s'.n == s.n && s'.k == s.k && s'.pc.Keys == s.pc.Keys
    && forall t2 | t2 in s.pc && t2 != t ::
         s'.pc[t2] == s.pc[t2] || (s.pc[t].MainFork? && s.pc[t2].Unborn? && s'.pc[t2] == Top(t2))
  }

  ghost predicate MovesOnly(s: State, s': State, t: Tid) {
    s'.n == s.n && s'.k == s.k && s'.pc.Keys == s.pc.Keys && forall t2 | t2 in s.pc && t2 != t :: s'.pc[t2] == s.pc[t2]
  }

  lemma MovesCut(s: State, t: Tid, stake: nat, rope: nat, cut: CutStage)
    requires Sized(s) && stake < s.n && rope < s.n && t in s.pc
    ensures MovesOnly(s, ExecCut(s, t, stake, rope, cut), t)
  {
  }

  lemma MovesSwap(s: State, t: Tid, w: Swap, swap: SwapStage)
    requires Sized(s) && SwapInRange(s.n, w) && t in s.pc
    ensures MovesOnly(s, ExecSwap(s, t, w, swap), t)
  {
  }

  lemma MovesMain(s: State, t: Tid)
    requires WellFormed(s) && Forking(s) && Enabled(s, t) && t == Main
    ensures OnlyMoves(s, ExecMain(s, t), t)
  {
    if s.pc[t].MainFork? && s.pc[t].next < s.k + 3 {
      var c := Forked(s.pc[t].next, s.k);
      ForkedIs(s.pc[t].next, s.k);
      assert s.pc[c].Unborn?;
    }
  }

  lemma StepMoves(s: State, t: Tid, x: nat, y: nat)
    requires WellFormed(s) && Forking(s) && Enabled(s, t)
    ensures OnlyMoves(s, Exec(s, t, x, y), t)
  {
    if s.pc[t].Cutting? {
      MovesCut(s, t, s.pc[t].stake, s.pc[t].rope, s.pc[t].cut);
    } else if s.pc[t].Swapping? {
      MovesSwap(s, t, s.pc[t].w, s.pc[t].swap);
    } else if s.pc[t].MainFork? {
      MovesMain(s, t);
    } else {
      assert MovesOnly(s, Exec(s, t, x, y), t);
    }
  }

  lemma StepOwned(s: State, s': State, t: Tid)
    requires Owned(s) && Enabled(s, t)
    requires OnlyMoves(s, s', t)
    requires LockEffect(s, s', t, s.pc[t])
    ensures Owned(s')
  {
    forall t2, l | Holds(s', t2, l)
      ensures l in s'.owner && s'.owner[l] == t2
    {
      if t2 != t {
        assert Holds(s, t2, l);
        assert Releases(s.pc[t]) == Some(l) ==> Holds(s, t, l);
      } else if Wants(s.pc[t]) != Some(l) {
        assert Holds(s, t, l);
      }
    }
    forall l | l in s'.owner
      ensures Holds(s', s'.owner[l], l)
    {
      if Wants(s.pc[t]) != Some(l) {
        assert Holds(s, s.owner[l], l);
      }
    }
  }

  // ------ ranges

  lemma RangeCut(s: State, t: Tid, stake: nat, rope: nat, cut: CutStage)
    requires Sized(s) && InRange(s.n, t, Cutting(stake, rope, cut))
    ensures InRange(s.n, t, ExecCut(s, t, stake, rope, cut).pc[t])
  {
  }

  lemma RangeSwap(s: State, t: Tid, w: Swap, swap: SwapStage)
    requires Sized(s) && InRange(s.n, t, Swapping(w, swap))
    requires swap.SwapHolds? ==> IHold(s, t, Rope(w.First()))
    ensures InRange(s.n, t, ExecSwap(s, t, w, swap).pc[t])
  {
  }

  lemma RangeSelf(s: State, t: Tid, x: nat, y: nat)
    requires WellFormed(s) && Owned(s) && Enabled(s, t)
    ensures InRange(s.n, t, Exec(s, t, x, y).pc[t])
  {
    hide ExecCut, ExecSwap, Wants;
    if s.pc[t].Cutting? {
      RangeCut(s, t, s.pc[t].stake, s.pc[t].rope, s.pc[t].cut);
    } else if s.pc[t].Swapping? {
      assert s.pc[t].swap.SwapHolds? ==> Holds(s, t, Rope(s.pc[t].w.First()));
      RangeSwap(s, t, s.pc[t].w, s.pc[t].swap);
    }
  }

  /** The arrays change in these ways only. */
  ghost predicate OnlyWrites(s: State, s': State, t: Tid)
    requires t in s.pc
  {
    var pc := s.pc[t];
    && (if pc.Swapping? && pc.swap.SwapStore1? && pc.w.s1 < |s.mappings| then
          s'.mappings == s.mappings[pc.w.s1 := pc.swap.x]
        else if pc.Swapping? && pc.swap.SwapStore2? && pc.w.s2 < |s.mappings| then
          s'.mappings == s.mappings[pc.w.s2 := pc.swap.temp]
        else
          s'.mappings == s.mappings)
    && (if pc.Cutting? && pc.cut.CutSever? && pc.rope < |s.severed| then
          s'.severed == s.severed[pc.rope := true]
        else
          s'.severed == s.severed)
    && (if pc.Cutting? && pc.cut.CutStore? then
          s'.ropesLeft == pc.cut.v - 1
        else if pc.MainReset? then
          s'.ropesLeft == s.n
        else
          s'.ropesLeft == s.ropesLeft)
    && s'.threadsLeft == (if pc.ExitStore? then pc.v - 1 else s.threadsLeft)
    && s'.destroyed == (if pc.MainDestroy? then s.destroyed + {Destroyed(pc.next, s.n)} else s.destroyed)
  }

  lemma WritesCut(s: State, t: Tid, stake: nat, rope: nat, cut: CutStage)
    requires Sized(s) && stake < s.n && rope < s.n && t in s.pc && s.pc[t] == Cutting(stake, rope, cut)
    ensures OnlyWrites(s, ExecCut(s, t, stake, rope, cut), t)
  {
  }

  lemma WritesSwap(s: State, t: Tid, w: Swap, swap: SwapStage)
    requires Sized(s) && SwapInRange(s.n, w) && t in s.pc && s.pc[t] == Swapping(w, swap)
    ensures OnlyWrites(s, ExecSwap(s, t, w, swap), t)
  {
  }

  lemma StepWrites(s: State, t: Tid, x: nat, y: nat)
    requires WellFormed(s) && Enabled(s, t)
    ensures OnlyWrites(s, Exec(s, t, x, y), t)
  {
    match s.pc[t]
    case Cutting(stake, rope, cut) => WritesCut(s, t, stake, rope, cut);
    case Swapping(w, swap) => WritesSwap(s, t, w, swap);
    case _ =>
  }

  lemma StepWellFormed(s: State, s': State, t: Tid)
    requires WellFormed(s) && t in s.pc && Local(s, t)
    requires OnlyMoves(s, s', t) && OnlyWrites(s, s', t)
    requires t in s'.pc && InRange(s.n, t, s'.pc[t])
    ensures WellFormed(s')
  {
    forall t2 | t2 in s'.pc
      ensures InRange(s'.n, t2, s'.pc[t2])
    {
      if t2 != t && s'.pc[t2] != s.pc[t2] {
        assert s'.pc[t2] == Top(t2);
        assert InRange(s.n, t2, s.pc[t2]);
      }
    }
  }

  // ------ what threads know

  lemma LocalCut(s: State, t: Tid, stake: nat, rope: nat, cut: CutStage)
    requires Sized(s) && InRange(s.n, t, Cutting(stake, rope, cut))
    requires CutLocal(s, t, stake, rope, cut)
    ensures var s' := ExecCut(s, t, stake, rope, cut);
            s'.pc[t].Cutting? ==>
              s'.pc[t].stake == stake && s'.pc[t].rope == rope && CutLocal(s', t, stake, rope, s'.pc[t].cut)
  {
  }

  lemma LocalSwap(s: State, t: Tid, w: Swap, swap: SwapStage)
    requires Sized(s) && InRange(s.n, t, Swapping(w, swap))
    requires SwapLocal(s, w, swap)
    requires swap.SwapStore1? ==> forall i | 0 <= i < s.n && s.mappings[i] == w.r1 :: i == w.s1
    ensures var s' := ExecSwap(s, t, w, swap);
            s'.pc[t].Swapping? ==> s'.pc[t].w == w && SwapLocal(s', w, s'.pc[t].swap)
  {
  }

  lemma StepSelf(s: State, t: Tid, x: nat, y: nat)
    requires WellFormed(s) && Owned(s) && Distinct(s) && Enabled(s, t)
    requires forall t2 | t2 in s.pc :: Local(s, t2)
    requires WellFormed(Exec(s, t, x, y))
    ensures Local(Exec(s, t, x, y), t)
  {
    hide Owned, Distinct;
    match s.pc[t]
    case Cutting(stake, rope, cut) => LocalCut(s, t, stake, rope, cut);
    case Swapping(w, swap) =>
      if swap.SwapStore1? {
        forall i | 0 <= i < s.n && s.mappings[i] == w.r1
          ensures i == w.s1
        {
          if i != w.s1 {
            ShowsOnce(s, t, w.r1, i, w.s1);
          }
        }
      }
      LocalSwap(s, t, w, swap);
    case _ =>
  }

  /** A rope whose lock t holds is shown at one stake, unless t itself is between its stores. */
  lemma ShowsOnce(s: State, t: Tid, r: nat, i: nat, j: nat)
    requires WellFormed(s) && Owned(s) && Distinct(s) && Holds(s, t, Rope(r))
    requires forall t2 | t2 in s.pc :: Local(s, t2)
    requires i < s.n && j < s.n && s.mappings[i] == r && s.mappings[j] == r && i != j
    ensures SwappingAt(s, t, i, j)
  {
    var t2 :| SwappingAt(s, t2, i, j);
    assert Local(s, t2);
    var w := s.pc[t2].w;
    assert w.r2 == r;
    assert Holds(s, t2, Rope(w.r2));
    SameOwner(s, t, t2, Rope(r));
  }

  /** What another thread knows survives: whatever it rests on is under a lock of its own. */
  lemma OtherCut(s: State, s': State, t: Tid, t2: Tid)
    requires WellFormed(s) && WellFormed(s') && Owned(s) && t in s.pc && t2 in s.pc && t2 != t
    requires Local(s, t) && Local(s, t2) && OnlyWrites(s, s', t) && s'.n == s.n
    requires s.pc[t2].Cutting? && t2 in s'.pc && s'.pc[t2] == s.pc[t2]
    requires !Shutdown(s.pc[t])
    ensures Local(s', t2)
  {
    var pc2 := s.pc[t2];
    if pc2.cut.CutAcquire? {
      return;
    }
    assert Holds(s, t2, Rope(pc2.rope));
    var pc := s.pc[t];
    if pc.Cutting? && pc.cut.CutSever? {
      assert Holds(s, t, Rope(pc.rope));
    } else if pc.Cutting? && pc.cut.CutStore? {
      assert Holds(s, t, Count);
      assert pc2.cut.CutStore? ==> Holds(s, t2, Count);
    } else if pc.Swapping? && (pc.swap.SwapStore1? || pc.swap.SwapStore2?) {
      assert Holds(s, t, Rope(pc.w.r1)) && Holds(s, t, Rope(pc.w.r2));
    }
  }

  lemma OtherSwap(s: State, s': State, t: Tid, t2: Tid)
    requires WellFormed(s) && WellFormed(s') && Owned(s) && t in s.pc && t2 in s.pc && t2 != t
    requires Local(s, t) && Local(s, t2) && OnlyWrites(s, s', t) && s'.n == s.n
    requires s.pc[t2].Swapping? && t2 in s'.pc && s'.pc[t2] == s.pc[t2]
    ensures Local(s', t2)
  {
    var pc, pc2 := s.pc[t], s.pc[t2];
    var w := pc2.w;
    if pc2.swap.SwapAcquire1? || pc2.swap.SwapHolds? || pc2.swap.SwapAcquire2? || pc2.swap.SwapRelease1? {
      return;
    }
    assert Holds(s, t2, Rope(w.r1)) && Holds(s, t2, Rope(w.r2));
    if pc.Cutting? && pc.cut.CutSever? {
      assert Holds(s, t, Rope(pc.rope));
    } else if pc.Swapping? && (pc.swap.SwapStore1? || pc.swap.SwapStore2?) {
      assert Holds(s, t, Rope(pc.w.r1)) && Holds(s, t, Rope(pc.w.r2));
    }
  }

  lemma StepOther(s: State, s': State, t: Tid, t2: Tid)
    requires Inv(s) && WellFormed(s') && t in s.pc && t2 in s.pc && t2 != t
    requires OnlyMoves(s, s', t) && OnlyWrites(s, s', t)
    ensures Local(s', t2)
  {
    hide Distinct, RopesCounted, ThreadsCounted, Forking, CutLocal, SwapLocal;
    if s'.pc[t2] != s.pc[t2] || Shutdown(s.pc[t]) {
      return;
    }
    match s.pc[t2]
    case Cutting(_, _, _) => OtherCut(s, s', t, t2);
    case Swapping(_, _) => OtherSwap(s, s', t, t2);
    case ExitStore(_) => OtherExit(s, s', t, t2);
    case _ =>
  }

  lemma OtherExit(s: State, s': State, t: Tid, t2: Tid)
    requires Inv(s) && WellFormed(s') && t in s.pc && t2 in s.pc && t2 != t
    requires OnlyMoves(s, s', t) && OnlyWrites(s, s', t)
    requires s'.pc[t2] == s.pc[t2] && s.pc[t2].ExitStore?
    ensures Local(s', t2)
  {
    hide Distinct, RopesCounted, ThreadsCounted, Forking, CutLocal, SwapLocal;
    assert Local(s, t2);
    assert Holds(s, t2, Threads);
    assert s.pc[t].ExitStore? ==> Holds(s, t, Threads);
  }

  // ------ counting ropes

  lemma SawEndExec(s: State, t: Tid, x: nat, y: nat)
    requires WellFormed(s) && Enabled(s, t)
    ensures SawEnd(Exec(s, t, x, y).pc[t]) ==> SawEnd(s.pc[t]) || (s.pc[t].EndTest? && s.ropesLeft <= 0)
  {
    if s.pc[t].Cutting? {
      assert !SawEnd(ExecCut(s, t, s.pc[t].stake, s.pc[t].rope, s.pc[t].cut).pc[t]);
    } else if s.pc[t].Swapping? {
      assert !SawEnd(ExecSwap(s, t, s.pc[t].w, s.pc[t].swap).pc[t]);
    }
  }

  lemma StepSawEnd(s: State, s': State, t: Tid, t2: Tid)
    requires Inv(s) && t in s.pc && OnlyMoves(s, s', t) && OnlyWrites(s, s', t)
    requires t in s'.pc && (SawEnd(s'.pc[t]) ==> SawEnd(s.pc[t]) || (s.pc[t].EndTest? && s.ropesLeft <= 0))
    requires t2 in s'.pc && SawEnd(s'.pc[t2])
    ensures AllSevered(s')
  {
    if SawEnd(s.pc[t2]) {
      assert AllSevered(s);
    } else {
      assert t2 == t && s.pc[t].EndTest?;
      assert t == Main || !WasReset(s.pc[Main]);
      CountFull(s.severed);
    }
  }

  predicate Severs(pc: PC) {
    pc.Cutting? && pc.cut.CutSever?
  }

  predicate Decrements(pc: PC) {
    pc.Cutting? && pc.cut.CutStore?
  }

  lemma PendingCut(s: State, t: Tid, stake: nat, rope: nat, cut: CutStage)
    requires Sized(s) && stake < s.n && rope < s.n
    ensures Pending(ExecCut(s, t, stake, rope, cut).pc[t])
            == Pending(Cutting(stake, rope, cut)) + (if cut.CutSever? then 1 else if cut.CutStore? then -1 else 0)
  {
  }

  lemma PendingSwap(s: State, t: Tid, w: Swap, swap: SwapStage)
    requires Sized(s) && SwapInRange(s.n, w)
    ensures Pending(ExecSwap(s, t, w, swap).pc[t]) == 0
  {
  }

  lemma PendingExec(s: State, t: Tid, x: nat, y: nat)
    requires WellFormed(s) && Enabled(s, t)
    ensures Pending(Exec(s, t, x, y).pc[t])
            == Pending(s.pc[t]) + (if Severs(s.pc[t]) then 1 else if Decrements(s.pc[t]) then -1 else 0)
  {
    match s.pc[t]
    case Cutting(stake, rope, cut) => PendingCut(s, t, stake, rope, cut);
    case Swapping(w, swap) => PendingSwap(s, t, w, swap);
    case _ =>
  }

  lemma ResetStays(s: State, t: Tid, x: nat, y: nat)
    requires Inv(s) && Enabled(s, t) && WellFormed(Exec(s, t, x, y)) && OnlyMoves(s, Exec(s, t, x, y), t)
    requires WasReset(s.pc[Main]) || s.pc[t].MainReset?
    ensures WasReset(Exec(s, t, x, y).pc[Main])
  {
    hide Distinct, ThreadsCounted, RopesCounted, Forking, Owned, MainWaited, Local, ExecSwap, ExecCut;
  }

  lemma StepRopesCounted(s: State, t: Tid, x: nat, y: nat)
    requires Inv(s) && Enabled(s, t)
    requires var s' := Exec(s, t, x, y);
             OnlyMoves(s, s', t) && OnlyWrites(s, s', t) && WellFormed(s')
    ensures RopesCounted(Exec(s, t, x, y))
  {
    hide Distinct, ThreadsCounted, Forking, Owned, MainWaited, ExecSwap, ExecMain, SwapLocal, SawEnd;
    var s' := Exec(s, t, x, y);
    if WasReset(s.pc[Main]) || s.pc[t].MainReset? {
      ResetStays(s, t, x, y);
      return;
    }
    PendingExec(s, t, x, y);
    if Severs(s.pc[t]) {
      assert Local(s, t);
      CountSet(s.severed, s.pc[t].rope, true);
    } else if Decrements(s.pc[t]) {
      assert Local(s, t);
    }
    assert forall t2 | t2 in s.pc && t2 != t :: Pending(s'.pc[t2]) == Pending(s.pc[t2]);
    assert s'.ropesLeft == s'.n - CountTrue(s'.severed) + Pending(s'.pc[Marigold]) + Pending(s'.pc[Dandelion]);
  }

  // ------ counting threads

  lemma {:induction false} KillersSame(pc: map<Tid, PC>, pc': map<Tid, PC>, k: nat)
    requires forall i | 0 <= i < k :: Killer(i) in pc && Killer(i) in pc' && Left(pc[Killer(i)]) == Left(pc'[Killer(i)])
    ensures KillersLeft(pc, k) == KillersLeft(pc', k)
  {
    if k > 0 {
      KillersSame(pc, pc', k - 1);
    }
  }

  lemma {:induction false} KillersOneLess(pc: map<Tid, PC>, pc': map<Tid, PC>, k: nat, j: nat)
    requires j < k
    requires forall i | 0 <= i < k :: Killer(i) in pc && Killer(i) in pc'
    requires forall i | 0 <= i < k && i != j :: Left(pc[Killer(i)]) == Left(pc'[Killer(i)])
    requires Left(pc[Killer(j)]) == 1 && Left(pc'[Killer(j)]) == 0
    ensures KillersLeft(pc', k) == KillersLeft(pc, k) - 1
  {
    if j == k - 1 {
      KillersSame(pc, pc', k - 1);
    } else {
      KillersOneLess(pc, pc', k - 1, j);
    }
  }

  lemma {:induction false} KillersNone(pc: map<Tid, PC>, k: nat)
    requires forall i | 0 <= i < k :: Killer(i) in pc
    requires KillersLeft(pc, k) == 0
    ensures forall i | 0 <= i < k :: Left(pc[Killer(i)]) == 0
  {
    if k > 0 {
      KillersNone(pc, k - 1);
    }
  }

  lemma LeftSwap(s: State, t: Tid, w: Swap, swap: SwapStage)
    requires Sized(s) && SwapInRange(s.n, w)
    ensures Left(ExecSwap(s, t, w, swap).pc[t]) == 1
  {
  }

  lemma LeftExec(s: State, t: Tid, x: nat, y: nat)
    requires WellFormed(s) && Enabled(s, t)
    ensures Left(Exec(s, t, x, y).pc[t]) == if s.pc[t].ExitStore? then 0 else Left(s.pc[t])
  {
    match s.pc[t]
    case Swapping(w, swap) => LeftSwap(s, t, w, swap);
    case _ =>
  }

  lemma OthersLeft(s: State, s': State, t: Tid)
    requires WellFormed(s) && WellFormed(s') && t in s.pc && OnlyMoves(s, s', t)
    ensures forall t2 | t2 in s.pc && t2 != t :: Left(s'.pc[t2]) == Left(s.pc[t2])
    ensures forall t2 | t2 in s.pc && s.pc[t2].ExitStore? :: t2 != Main && Left(s.pc[t2]) == 1
  {
  }

  lemma StepThreadsCounted(s: State, s': State, t: Tid)
    requires WellFormed(s) && ThreadsCounted(s) && t in s.pc && Local(s, t)
    requires WellFormed(s') && OnlyMoves(s, s', t)
             && s'.threadsLeft == (if s.pc[t].ExitStore? then s.pc[t].v - 1 else s.threadsLeft)
    requires t in s'.pc && Left(s'.pc[t]) == if s.pc[t].ExitStore? then 0 else Left(s.pc[t])
    ensures ThreadsCounted(s')
  {
    hide CutLocal, SwapLocal, Left;
    OthersLeft(s, s', t);
    if s.pc[t].ExitStore? && t.Killer? {
      KillersOneLess(s.pc, s'.pc, s.k, t.i);
    } else {
      assert s.pc[t].ExitStore? ==> t != Main;
      assert forall i | 0 <= i < s.k :: Killer(i) in s.pc && Left(s'.pc[Killer(i)]) == Left(s.pc[Killer(i)]);
      KillersSame(s.pc, s'.pc, s.k);
    }
  }

  /** threads_left at zero, read under its lock, means that every worker is gone. */
  lemma AllGone(s: State, t: Tid)
    requires WellFormed(s) && Owned(s) && ThreadsCounted(s)
    requires s.pc[Main].MainWaitTest? && s.threadsLeft <= 0 && t in s.pc && t != Main
    ensures s.pc[t].Exited?
  {
    KillersNone(s.pc, s.k);
    if t.Killer? {
      assert Left(s.pc[Killer(t.i)]) == 0;
    }
    if s.pc[t].ExitRelease? {
      assert Holds(s, t, Threads) && Holds(s, Main, Threads);
    }
  }

  lemma StepMainWaited(s: State, t: Tid, x: nat, y: nat)
    requires Inv(s) && Enabled(s, t)
    requires var s' := Exec(s, t, x, y);
             OnlyMoves(s, s', t) && OnlyWrites(s, s', t) && WellFormed(s')
    ensures MainWaited(Exec(s, t, x, y))
  {
    hide Distinct, RopesCounted, ThreadsCounted, Forking, Local, Owned, ExecCut, ExecSwap;
    var s' := Exec(s, t, x, y);
    if Shutdown(s'.pc[Main]) && !Shutdown(s.pc[Main]) {
      assert t == Main && s.pc[t].MainWaitTest?;
      forall t2 | t2 in s'.pc && t2 != Main
        ensures s'.pc[t2].Exited?
      {
        AllGone(s, t2);
      }
    }
  }

  // ------ forking

  lemma ForkedInjective(i: nat, j: nat, k: nat)
    requires i < k + 3 && j < k + 3 && Forked(i, k) == Forked(j, k)
    ensures i == j
  {
  }

  function ForkIndex(t: Tid, k: nat): nat {
    match t
    case Marigold => 0
    case Dandelion => 1
    case Killer(i) => i + 2
    case _ => k + 2
  }

  lemma ForkIndexIs(t: Tid, k: nat)
    requires IsTid(t, k) && t != Main
    ensures ForkIndex(t, k) < k + 3 && Forked(ForkIndex(t, k), k) == t
  {
  }

  /** What a step does to the progress of forking. */
  ghost predicate ForkEffect(s: State, s': State, t: Tid)
    requires t in s.pc
  {
    && t in s'.pc && !s'.pc[t].Unborn?
    && if s.pc[t].MainFork? then
         if s.pc[t].next < s.k + 3 then
           s'.pc == s.pc[Forked(s.pc[t].next, s.k) := Top(Forked(s.pc[t].next, s.k))][t := MainFork(s.pc[t].next + 1)]
         else
           s'.pc == s.pc[t := EndAcquire]
       else
         !s'.pc[t].MainFork?
  }

  lemma ForkExec(s: State, t: Tid, x: nat, y: nat)
    requires WellFormed(s) && Enabled(s, t)
    ensures ForkEffect(s, Exec(s, t, x, y), t)
  {
    if s.pc[t].Cutting? {
      assert ForkEffect(s, ExecCut(s, t, s.pc[t].stake, s.pc[t].rope, s.pc[t].cut), t);
    } else if s.pc[t].Swapping? {
      assert ForkEffect(s, ExecSwap(s, t, s.pc[t].w, s.pc[t].swap), t);
    }
  }

  lemma StepForkingMain(s: State, s': State)
    requires WellFormed(s) && Forking(s) && WellFormed(s') && s.pc[Main].MainFork? && s'.k == s.k
    requires ForkEffect(s, s', Main)
    ensures Forking(s')
  {
    var next := s.pc[Main].next;
    if next < s.k + 3 {
      forall j | 0 <= j < s.k + 3
        ensures s'.pc[Forked(j, s.k)].Unborn? <==> next + 1 <= j
      {
        ForkedIs(j, s.k);
        if j != next && Forked(j, s.k) == Forked(next, s.k) {
          ForkedInjective(j, next, s.k);
        }
      }
    } else {
      forall t2 | t2 in s'.pc
        ensures !s'.pc[t2].Unborn?
      {
        if t2 != Main {
          ForkIndexIs(t2, s.k);
        }
      }
    }
  }

  lemma StepForking(s: State, s': State, t: Tid)
    requires WellFormed(s) && Forking(s) && WellFormed(s') && Enabled(s, t)
    requires OnlyMoves(s, s', t) && ForkEffect(s, s', t)
    ensures Forking(s')
  {
    if s.pc[t].MainFork? {
      StepForkingMain(s, s');
    } else if s.pc[Main].MainFork? {
      forall j | 0 <= j < s.k + 3
        ensures s'.pc[Forked(j, s.k)].Unborn? <==> s.pc[Main].next <= j
      {
        ForkedIs(j, s.k);
      }
    }
  }

  // ------ the stakes

  lemma StepDistinctStore1(s: State, s': State, t: Tid, i: nat, j: nat)
    requires Inv(s) && t in s.pc && OnlyMoves(s, s', t) && t in s'.pc
    requires s.pc[t].Swapping? && s.pc[t].swap.SwapStore1?
    requires var w := s.pc[t].w;
             && s'.mappings == s.mappings[w.s1 := w.r2]
             && s'.pc[t].Swapping? && s'.pc[t].swap.SwapStore2? && s'.pc[t].w == w
    requires i < s.n && j < s.n && i != j && s'.mappings[i] == s'.mappings[j]
    ensures exists t2 :: SwappingAt(s', t2, i, j)
  {
    var w := s.pc[t].w;
    assert Local(s, t);
    if i != w.s1 && j != w.s1 {
      var t2 :| SwappingAt(s, t2, i, j);
      assert SwappingAt(s', t2, i, j);
    } else {
      var other := if i == w.s1 then j else i;
      if other != w.s2 {
        assert Holds(s, t, Rope(w.r2));
        ShowsOnce(s, t, w.r2, other, w.s2);
      }
      assert SwappingAt(s', t, i, j);
    }
  }

  lemma StepDistinctStore2(s: State, s': State, t: Tid, i: nat, j: nat)
    requires Inv(s) && t in s.pc && OnlyMoves(s, s', t)
    requires s.pc[t].Swapping? && s.pc[t].swap.SwapStore2?
    requires s'.mappings == s.mappings[s.pc[t].w.s2 := s.pc[t].w.r1]
    requires i < s.n && j < s.n && i != j && s'.mappings[i] == s'.mappings[j]
    ensures exists t2 :: SwappingAt(s', t2, i, j)
  {
    hide RopesCounted, ThreadsCounted, MainWaited, Forking, Owned, CutLocal;
    var w := s.pc[t].w;
    assert Local(s, t);
    assert i != w.s2 && j != w.s2;
    var t2 :| SwappingAt(s, t2, i, j);
    assert SwappingAt(s', t2, i, j);
  }

  lemma StepDistinct(s: State, t: Tid, x: nat, y: nat)
    requires Inv(s) && Enabled(s, t)
    requires var s' := Exec(s, t, x, y); OnlyMoves(s, s', t) && OnlyWrites(s, s', t)
    ensures Distinct(Exec(s, t, x, y))
  {
    hide RopesCounted, ThreadsCounted, MainWaited, Forking, Owned, ExecCut;
    var s' := Exec(s, t, x, y);
    assert Local(s, t);
    forall i, j | 0 <= i < |s'.mappings| && 0 <= j < |s'.mappings| && i != j && s'.mappings[i] == s'.mappings[j]
      ensures exists t2 :: SwappingAt(s', t2, i, j)
    {
      if s.pc[t].Swapping? && s.pc[t].swap.SwapStore1? {
        StepDistinctStore1(s, s', t, i, j);
      } else if s.pc[t].Swapping? && s.pc[t].swap.SwapStore2? {
        StepDistinctStore2(s, s', t, i, j);
      } else {
        var t2 :| SwappingAt(s, t2, i, j);
        assert SwappingAt(s', t2, i, j);
      }
    }
  }

  // ---------------------------------------------------------------- the invariant holds in every run

  lemma InitInv(n: nat, k: nat)
    requires n > 0
    ensures Inv(Init(n, k))
  {
    var s := Init(n, k);
    forall t
      ensures t in s.pc <==> IsTid(t, k)
    {
      AllTidsAre(k, t);
    }
    forall j | 0 <= j < k + 3
      ensures s.pc[Forked(j, k)].Unborn?
    {
      ForkedIs(j, k);
    }
    CountNone(s.severed);
    AllLeft(s.pc, k);
  }

  lemma {:induction false} AllLeft(pc: map<Tid, PC>, k: nat)
    requires forall i | 0 <= i < k :: Killer(i) in pc && Left(pc[Killer(i)]) == 1
    ensures KillersLeft(pc, k) == k
  {
    if k > 0 {
      AllLeft(pc, k - 1);
    }
  }

  lemma StepInv(s: State, t: Tid, x: nat, y: nat)
    requires Inv(s) && Enabled(s, t)
    ensures Inv(Exec(s, t, x, y))
  {
    var s' := Exec(s, t, x, y);
    StepMoves(s, t, x, y);
    StepWrites(s, t, x, y);
    LocksExec(s, t, x, y);
    SawEndExec(s, t, x, y);
    LeftExec(s, t, x, y);
    ForkExec(s, t, x, y);
    RangeSelf(s, t, x, y);
    assert Local(s, t);
    StepWellFormed(s, s', t);
    StepOwned(s, s', t);
    StepSelf(s, t, x, y);
    StepDistinct(s, t, x, y);
    StepRopesCounted(s, t, x, y);
    StepMainWaited(s, t, x, y);
    hide Exec;
    forall t2 | t2 in s'.pc
      ensures Local(s', t2)
    {
      if t2 != t {
        StepOther(s, s', t, t2);
      }
    }
    forall t2 | t2 in s'.pc && SawEnd(s'.pc[t2])
      ensures AllSevered(s')
    {
      StepSawEnd(s, s', t, t2);
    }
    StepThreadsCounted(s, s', t);
    StepForking(s, s', t);
  }

  /** A finite run from the start of airballoon(). */
  ghost predicate Run(tr: seq<State>, n: nat, k: nat) {
    && |tr| > 0 && tr[0] == Init(n, k)
    && forall i | 0 <= i < |tr| - 1 :: Step(tr[i], tr[i + 1])
  }

  lemma {:induction false} RunInv(tr: seq<State>, n: nat, k: nat, i: nat)
    requires n > 0 && Run(tr, n, k) && i < |tr|
    ensures Inv(tr[i])
  {
    hide Inv, Exec, Enabled, Init, Step;
    if i == 0 {
      InitInv(n, k);
    } else {
      RunInv(tr, n, k, i - 1);
      var t, x, y := StepOf(tr, n, k, i - 1);
      StepInv(tr[i - 1], t, x, y);
    }
  }

  lemma StepOf(tr: seq<State>, n: nat, k: nat, i: nat) returns (t: Tid, x: nat, y: nat)
    requires Run(tr, n, k) && i < |tr| - 1
    ensures WellFormed(tr[i]) && Enabled(tr[i], t) && tr[i + 1] == Exec(tr[i], t, x, y)
  {
    assert Step(tr[i], tr[i + 1]);
    t, x, y :| StepBy(tr[i], tr[i + 1], t, x, y);
  }

  // ---------------------------------------------------------------- what follows for the stakes

  ghost predicate IsPermutation(m: seq<nat>) {
    && (forall i, j | 0 <= i < j < |m| :: m[i] != m[j])
    && (forall i | 0 <= i < |m| :: m[i] < |m|)
    && (forall r | 0 <= r < |m| :: r in m)
  }

  function Ropes(n: nat): (r: set<nat>)
    ensures |r| == n && forall i | i in r :: i < n
  {
    if n == 0 then {} else Ropes(n - 1) + {n - 1}
  }

  lemma {:induction false} AllRopes(n: nat, r: nat)
    requires r < n
    ensures r in Ropes(n)
  {
    if r < n - 1 {
      AllRopes(n - 1, r);
    }
  }

  function Shown(m: seq<nat>): set<nat> {
    if m == [] then {} else Shown(m[..|m| - 1]) + {m[|m| - 1]}
  }

  lemma {:induction false} ShownAre(m: seq<nat>)
    ensures forall r :: r in Shown(m) <==> r in m
  {
    if m != [] {
      ShownAre(m[..|m| - 1]);
      assert m == m[..|m| - 1] + [m[|m| - 1]];
    }
  }

  lemma {:induction false} ShownSize(m: seq<nat>)
    requires forall i, j | 0 <= i < j < |m| :: m[i] != m[j]
    ensures |Shown(m)| == |m|
  {
    if m != [] {
      ShownSize(m[..|m| - 1]);
      ShownAre(m[..|m| - 1]);
    }
  }

  /** n different ropes on n stakes are all the ropes. */
  lemma Pigeonhole(m: seq<nat>)
    requires forall i, j | 0 <= i < j < |m| :: m[i] != m[j]
    requires forall i | 0 <= i < |m| :: m[i] < |m|
    ensures IsPermutation(m)
  {
    ShownSize(m);
    ShownAre(m);
    assert Shown(m) <= Ropes(|m|) by {
      forall i | 0 <= i < |m|
        ensures m[i] in Ropes(|m|)
      {
        AllRopes(|m|, m[i]);
      }
    }
    FullSubset(Shown(m), Ropes(|m|));
    forall r | 0 <= r < |m|
      ensures r in m
    {
      AllRopes(|m|, r);
      assert r in Shown(m);
    }
  }

  lemma {:induction false} FullSubset(a: set<nat>, b: set<nat>)
    requires a <= b && |a| == |b|
    ensures a == b
  {
    if a != b {
      var x :| x in b && x !in a;
      SubsetSize(a, b - {x});
    }
  }

  lemma {:induction false} SubsetSize(a: set<nat>, b: set<nat>)
    requires a <= b
    ensures |a| <= |b|
  {
    if a != {} {
      var x :| x in a;
      SubsetSize(a - {x}, b - {x});
    }
  }

  ghost predicate SwapUnderWay(s: State, t: Tid) {
    t in s.pc && s.pc[t].Swapping? && s.pc[t].swap.SwapStore2?
  }

  /** In every reachable state without a half-done swap, the stakes hold all ropes, each once. */
  lemma StakesArePermuted(tr: seq<State>, n: nat, k: nat, i: nat)
    requires n > 0 && Run(tr, n, k) && i < |tr|
    requires forall t :: !SwapUnderWay(tr[i], t)
    ensures IsPermutation(tr[i].mappings)
  {
    RunInv(tr, n, k, i);
    forall a, b | 0 <= a < b < |tr[i].mappings|
      ensures tr[i].mappings[a] != tr[i].mappings[b]
    {
      if tr[i].mappings[a] == tr[i].mappings[b] {
        var t :| SwappingAt(tr[i], t, a, b);
        assert SwapUnderWay(tr[i], t);
      }
    }
    Pigeonhole(tr[i].mappings);
  }

  /** A half-done swap belongs to the one thread that holds both rope locks, and only its stakes agree. */
  lemma HalfDoneSwap(tr: seq<State>, n: nat, k: nat, i: nat, t: Tid)
    requires n > 0 && Run(tr, n, k) && i < |tr| && SwapUnderWay(tr[i], t)
    ensures var s, w := tr[i], tr[i].pc[t].w;
            && IHold(s, t, Rope(w.r1)) && IHold(s, t, Rope(w.r2))
            && |s.mappings| == n && SwapInRange(n, w) && w.r1 != w.r2
            && (forall a | 0 <= a < n :: s.mappings[a] == w.r2 <==> a == w.s1 || a == w.s2)
            && (forall a | 0 <= a < n :: s.mappings[a] != w.r1)
            && s.pc[t].swap.temp == w.r1
  {
    RunInv(tr, n, k, i);
    RunSize(tr, n, k, i);
    var s, w := tr[i], tr[i].pc[t].w;
    assert Local(s, t);
    assert Holds(s, t, Rope(w.r1)) && Holds(s, t, Rope(w.r2));
    forall a | 0 <= a < n && s.mappings[a] == w.r2
      ensures a == w.s1 || a == w.s2
    {
      if a != w.s1 && a != w.s2 {
        ShowsOnce(s, t, w.r2, a, w.s1);
      }
    }
  }

  lemma {:induction false} RunSize(tr: seq<State>, n: nat, k: nat, i: nat)
    requires n > 0 && Run(tr, n, k) && i < |tr|
    ensures tr[i].n == n && tr[i].k == k
  {
    hide Exec, Enabled, Step, Forking, WellFormed, Owned, Distinct, Local;
    if i > 0 {
      RunSize(tr, n, k, i - 1);
      RunInv(tr, n, k, i - 1);
      var t, x, y := StepOf(tr, n, k, i - 1);
      StepMoves(tr[i - 1], t, x, y);
    }
  }

  /** One step leaves a severed rope severed and on its stake. */
  lemma SeveredStaysStep(s: State, t: Tid, x: nat, y: nat, stake: nat)
    requires Inv(s) && Enabled(s, t) && stake < s.n && s.severed[s.mappings[stake]]
    ensures var s' := Exec(s, t, x, y);
            |s'.mappings| == s.n && |s'.severed| == s.n
            && s'.mappings[stake] == s.mappings[stake] && s'.severed[s.mappings[stake]]
  {
    StepWrites(s, t, x, y);
    assert Local(s, t);
  }

  /** Once severed, a rope stays severed and its stake shows it for the rest of the run. */
  lemma {:induction false} SeveredStays(tr: seq<State>, n: nat, k: nat, i: nat, j: nat, stake: nat, rope: nat)
    requires n > 0 && Run(tr, n, k) && i <= j < |tr|
    requires stake < |tr[i].mappings| && rope < |tr[i].severed|
    requires tr[i].mappings[stake] == rope && tr[i].severed[rope]
    ensures stake < |tr[j].mappings| && rope < |tr[j].severed|
    ensures tr[j].mappings[stake] == rope && tr[j].severed[rope]
  {
    hide Run;
    if i < j {
      SeveredStays(tr, n, k, i, j - 1, stake, rope);
      SeveredStaysNext(tr, n, k, j - 1, stake);
    }
  }

  lemma SeveredStaysNext(tr: seq<State>, n: nat, k: nat, i: nat, stake: nat)
    requires n > 0 && Run(tr, n, k) && i < |tr| - 1
    requires stake < |tr[i].mappings| && tr[i].mappings[stake] < |tr[i].severed|
    requires tr[i].severed[tr[i].mappings[stake]]
    ensures stake < |tr[i + 1].mappings| && tr[i].mappings[stake] < |tr[i + 1].severed|
    ensures tr[i + 1].mappings[stake] == tr[i].mappings[stake] && tr[i + 1].severed[tr[i].mappings[stake]]
  {
    RunInv(tr, n, k, i);
    var t, x, y := StepOf(tr, n, k, i);
    SeveredStaysStep(tr[i], t, x, y, stake);
  }

  /** A thread that severs finds the rope unsevered, and Marigold finds it on the stake she names. */
  lemma SeversOnce(tr: seq<State>, n: nat, k: nat, i: nat, t: Tid)
    requires n > 0 && Run(tr, n, k) && i < |tr| && t in tr[i].pc && Severs(tr[i].pc[t])
    ensures var s, pc := tr[i], tr[i].pc[t];
            && pc.rope < |s.severed| && !s.severed[pc.rope] && IHold(s, t, Rope(pc.rope))
            && (t == Marigold ==> pc.stake < |s.mappings| && s.mappings[pc.stake] == pc.rope)
  {
    RunInv(tr, n, k, i);
    assert Local(tr[i], t);
    assert Holds(tr[i], t, Rope(tr[i].pc[t].rope));
  }

  lemma {:induction false} SeveredForever(tr: seq<State>, n: nat, k: nat, i: nat, j: nat, rope: nat)
    requires n > 0 && Run(tr, n, k) && i <= j < |tr|
    requires rope < |tr[i].severed| && tr[i].severed[rope]
    ensures rope < |tr[j].severed| && tr[j].severed[rope]
  {
    hide Run;
    if i < j {
      SeveredForever(tr, n, k, i, j - 1, rope);
      SeveredNext(tr, n, k, j - 1, rope);
    }
  }

  lemma SeveredNext(tr: seq<State>, n: nat, k: nat, i: nat, rope: nat)
    requires Run(tr, n, k) && i < |tr| - 1
    requires rope < |tr[i].severed| && tr[i].severed[rope]
    ensures rope < |tr[i + 1].severed| && tr[i + 1].severed[rope]
  {
    var t, x, y := StepOf(tr, n, k, i);
    StepWrites(tr[i], t, x, y);
  }

  /** Two severing steps of one run cut different ropes. */
  lemma SeveredAtMostOnce(tr: seq<State>, n: nat, k: nat, i: nat, j: nat, t1: Tid, t2: Tid, x: nat, y: nat)
    requires n > 0 && Run(tr, n, k) && i < j < |tr|
    requires StepBy(tr[i], tr[i + 1], t1, x, y) && Severs(tr[i].pc[t1])
    requires t2 in tr[j].pc && Severs(tr[j].pc[t2])
    ensures tr[i].pc[t1].rope != tr[j].pc[t2].rope
  {
    StepWrites(tr[i], t1, x, y);
    SeversOnce(tr, n, k, i, t1);
    SeversOnce(tr, n, k, j, t2);
    hide Run, Exec;
    SeveredForever(tr, n, k, i + 1, j, tr[i].pc[t1].rope);
  }

  /** A thread that gives a rope back without severing it has found it severed, or, Marigold, off its stake. */
  lemma CutsWhatItCan(tr: seq<State>, n: nat, k: nat, i: nat, t: Tid)
    requires n > 0 && Run(tr, n, k) && i < |tr| && t in tr[i].pc
    requires tr[i].pc[t].Cutting? && tr[i].pc[t].cut.CutRelease?
    ensures var s, pc := tr[i], tr[i].pc[t];
            && pc.rope < |s.severed| && pc.stake < |s.mappings|
            && (s.severed[pc.rope] || (t == Marigold && s.mappings[pc.stake] != pc.rope))
  {
    RunInv(tr, n, k, i);
    assert Local(tr[i], t);
  }

  /**
   A FlowerKiller that has both locks swaps if it can: when it announces the swap the two ropes have changed places, and
   when it gives the second lock back, they have, or one is severed, or one was not on its stake.
   */
  lemma SwapsWhatItCan(tr: seq<State>, n: nat, k: nat, i: nat, t: Tid)
    requires n > 0 && Run(tr, n, k) && i < |tr| && t in tr[i].pc && tr[i].pc[t].Swapping?
    ensures var s, w := tr[i], tr[i].pc[t].w;
            && Sized(s) && SwapInRange(s.n, w)
            && (tr[i].pc[t].swap.SwapPrintAcquire? ==> s.mappings[w.s1] == w.r2 && s.mappings[w.s2] == w.r1)
            && (tr[i].pc[t].swap.SwapRelease2? ==> !InPlace(s, w))
  {
    RunInv(tr, n, k, i);
    assert Local(tr[i], t);
    assert InRange(tr[i].n, t, tr[i].pc[t]);
  }

  /** Every stake can be drawn, and the rope a thread goes for is the one that the stake shows when it reads it. */
  lemma ReadsTheStakes(tr: seq<State>, n: nat, k: nat, i: nat, t: Tid, x: nat, y: nat)
    requires n > 0 && Run(tr, n, k) && i < |tr| && Enabled(tr[i], t) && x < n && y < n
    ensures WellFormed(tr[i])
    ensures var s, pc, pc' := tr[i], tr[i].pc[t], Exec(tr[i], t, x, y).pc[t];
            match pc
            case CutTop => pc' == if t == Marigold then CutRead(x) else Cutting(x, x, CutAcquire)
            case CutRead(stake) => stake < n && pc' == Cutting(stake, s.mappings[stake], CutAcquire)
            case SwapTop => x != y ==> pc' == SwapRead1(x, y)
            case SwapRead1(s1, s2) => s1 < n && pc' == SwapRead2(s1, s2, s.mappings[s1])
            case SwapRead2(s1, s2, r1) => s2 < n && pc' == Swapping(Swap(s1, s2, r1, s.mappings[s2]), SwapAcquire1)
            case _ => true
  {
    RunInv(tr, n, k, i);
    RunSize(tr, n, k, i);
    hide Owned, Distinct, RopesCounted, ThreadsCounted, MainWaited, Forking, Local;
    assert InRange(n, t, tr[i].pc[t]);
    InBounds(x, n);
    InBounds(y, n);
  }

  lemma InBounds(x: nat, n: nat)
    requires x < n
    ensures x % n == x
  {
  }

  /** It goes for the second lock exactly if the two racy reads gave different ropes. */
  lemma TakesBothLocks(tr: seq<State>, n: nat, k: nat, i: nat, t: Tid, x: nat, y: nat)
    requires n > 0 && Run(tr, n, k) && i < |tr| && t in tr[i].pc
    requires tr[i].pc[t].Swapping? && tr[i].pc[t].swap.SwapHolds?
    ensures WellFormed(tr[i]) && Enabled(tr[i], t)
    ensures var w := tr[i].pc[t].w;
            Exec(tr[i], t, x, y).pc[t] == Swapping(w, if w.r1 != w.r2 then SwapAcquire2 else SwapRelease1)
  {
    RunInv(tr, n, k, i);
    var s, w := tr[i], tr[i].pc[t].w;
    assert InRange(s.n, t, s.pc[t]);
    assert Holds(s, t, Rope(w.First()));
    assert IHold(s, t, Rope(w.Second())) ==> Holds(s, t, Rope(w.Second()));
    hide Distinct, RopesCounted, ThreadsCounted, MainWaited, Forking, Local;
  }

  // ---------------------------------------------------------------- counting

  /** ropes_left counts the ropes up to the cuts under way, and reads zero only when all are cut. */
  lemma RopesLeft(tr: seq<State>, n: nat, k: nat, i: nat)
    requires n > 0 && Run(tr, n, k) && i < |tr|
    requires Main in tr[i].pc && !WasReset(tr[i].pc[Main])
    ensures Marigold in tr[i].pc && Dandelion in tr[i].pc
    ensures tr[i].ropesLeft
            == n - CountTrue(tr[i].severed) + Pending(tr[i].pc[Marigold]) + Pending(tr[i].pc[Dandelion])
    ensures tr[i].ropesLeft <= 0 ==> AllSevered(tr[i])
  {
    RunInv(tr, n, k, i);
    RunSize(tr, n, k, i);
    CountFull(tr[i].severed);
  }

  /** The balloon announces the escape only when every rope has been severed. */
  lemma EscapeIsTrue(tr: seq<State>, n: nat, k: nat, i: nat)
    requires n > 0 && Run(tr, n, k) && i < |tr|
    requires Balloon in tr[i].pc && SawEnd(tr[i].pc[Balloon])
    ensures |tr[i].severed| == n && AllSevered(tr[i])
  {
    RunInv(tr, n, k, i);
    RunSize(tr, n, k, i);
  }

  // ---------------------------------------------------------------- no deadlock, no use after destroy

  /** The order in which locks are taken. */
  function Rank(l: Lock, n: nat): nat {
    match l
    case Rope(r) => r
    case Count => n
    case Print => n + 1
    case Threads => n + 2
  }

  /** A thread only waits for a lock above every lock it holds. */
  lemma WaitsUpwards(s: State, t: Tid, l: Lock)
    requires Inv(s) && Holds(s, t, l) && Wants(s.pc[t]).Some?
    ensures Rank(l, s.n) < Rank(Wants(s.pc[t]).value, s.n) <= s.n + 2
  {
    assert InRange(s.n, t, s.pc[t]);
  }

  /** Following the owners of the awaited locks leads to a thread that can step. */
  lemma {:induction false} SomeoneCanStep(s: State, t: Tid) returns (t': Tid)
    requires Inv(s) && t in s.pc && !s.pc[t].Unborn? && !Finished(s.pc[t])
    ensures Enabled(s, t')
    decreases if Wants(s.pc[t]).Some? then s.n + 3 - Rank(Wants(s.pc[t]).value, s.n) else 0
  {
    hide Distinct, RopesCounted, ThreadsCounted, MainWaited, Forking, Local;
    if Enabled(s, t) {
      return t;
    }
    var l := Wants(s.pc[t]).value;
    var o := s.owner[l];
    assert Holds(s, o, l);
    assert InRange(s.n, t, s.pc[t]);
    if Wants(s.pc[o]).Some? {
      WaitsUpwards(s, o, l);
    }
    t' := SomeoneCanStep(s, o);
  }

  /** No reachable state is stuck: as long as some thread has not finished, some thread can step. */
  lemma NoDeadlock(tr: seq<State>, n: nat, k: nat, i: nat, t: Tid)
    requires n > 0 && Run(tr, n, k) && i < |tr|
    requires t in tr[i].pc && !Finished(tr[i].pc[t])
    ensures exists t2 :: Enabled(tr[i], t2)
  {
    RunInv(tr, n, k, i);
    var start := if tr[i].pc[t].Unborn? then Main else t;
    var t2 := SomeoneCanStep(tr[i], start);
  }

  /** A lock is released only by its holder, and never touched once main has destroyed it. */
  lemma LocksUsedWell(tr: seq<State>, n: nat, k: nat, i: nat, t: Tid)
    requires n > 0 && Run(tr, n, k) && i < |tr| && Enabled(tr[i], t)
    ensures Releases(tr[i].pc[t]).Some? ==> IHold(tr[i], t, Releases(tr[i].pc[t]).value)
    ensures Releases(tr[i].pc[t]).Some? ==> Releases(tr[i].pc[t]).value !in tr[i].destroyed
    ensures Wants(tr[i].pc[t]).Some? ==> Wants(tr[i].pc[t]).value !in tr[i].destroyed
  {
    RunInv(tr, n, k, i);
    var s := tr[i];
    assert InRange(s.n, t, s.pc[t]);
    if Releases(s.pc[t]).Some? {
      assert Holds(s, t, Releases(s.pc[t]).value);
    }
    if WasReset(s.pc[Main]) {
      assert t == Main;
    }
  }

  /** When main starts to destroy the locks, every worker has exited and every lock is free. */
  lemma DestroysQuietly(tr: seq<State>, n: nat, k: nat, i: nat)
    requires n > 0 && Run(tr, n, k) && i < |tr|
    requires Main in tr[i].pc && tr[i].pc[Main].MainDestroy?
    ensures forall t | t in tr[i].pc && t != Main :: tr[i].pc[t].Exited?
    ensures tr[i].owner == map[] && AllSevered(tr[i])
  {
    RunInv(tr, n, k, i);
    var s := tr[i];
    assert forall t, l :: !Holds(s, t, l);
  }
}
