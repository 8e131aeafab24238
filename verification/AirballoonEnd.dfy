/**
 That airballoon() (src/kern/synchprobs/airballoon.c) can always end: from every state of every run some continuation
 severs all ropes, lets every thread exit and main return.  With one rope and a FlowerKiller it never ends.

 The proof ranks states by the threads still to be forked, the ropes still whole, the severed ropes not yet counted,
 and the distance of the threads from a goal.  In each state one thread is in focus; if it waits for a lock, the chain
 of owners leads to a thread that can step, and such a thread comes closer to giving its locks up.
 */
module AirballoonEnd {
  import opened Airballoon
  import opened Counting

  // ---------------------------------------------------------------- distances of one thread

  /** Steps until a thread holds no lock. */
  function ToUnlocked(pc: PC): nat {
    match pc
    case Cutting(_, _, cut) => CutToUnlocked(cut)
    case Swapping(_, swap) => SwapToUnlocked(swap)
    case EndRelease(_) => 1
    case EndTest => 2
    case ExitRelease => 1
    case ExitStore(_) => 2
    case ExitLoad => 3
    case MainWaitRelease(_) => 1
    case MainWaitTest => 2
    case _ => 0
  }

  function CutToUnlocked(cut: CutStage): nat {
    match cut
    case CutAcquire => 0
    case CutRelease => 1
    case CutCountRelease => 2
    case CutStore(_) => 3
    case CutLoad => 4
    case CutCountAcquire => 5
    case CutSever => 6
    case CutRecheck => 7
    case CutTest => 8
  }

  function SwapToUnlocked(swap: SwapStage): nat {
    match swap
    case SwapAcquire1 => 0
    case SwapRelease1 => 1
    case SwapRelease2 => 2
    case SwapPrintRelease => 3
    case SwapPrintAcquire => 4
    case SwapStore2(_) => 5
    case SwapStore1(_, _) => 6
    case SwapLoad(_) => 7
    case SwapTemp => 8
    case SwapMapped2 => 9
    case SwapMapped1 => 10
    case SwapSevered2 => 11
    case SwapSevered1 => 12
    case SwapAcquire2 => 13
    case SwapHolds => 14
  }

  /** Steps until a worker has exited, once all ropes are severed and counted. */
  function ToExit(pc: PC): nat {
    match pc
    case Exited => 0
    case ExitRelease => 1
    case ExitStore(_) => 2
    case ExitLoad => 3
    case ExitAcquire => 4
    case EndRelease(stop) => if stop then 5 else 40
    case EndTest => 6
    case EndAcquire => 7
    case Cutting(_, _, cut) => 8 + CutToUnlocked(cut) + (if cut.CutAcquire? then 9 else 0)
    case CutRead(_) => 18
    case CutTop => 19
    case Swapping(_, swap) => 8 + SwapToUnlocked(swap) + (if swap.SwapAcquire1? then 15 else 0)
    case SwapRead2(_, _, _) => 24
    case SwapRead1(_, _) => 25
    case SwapTop => 26
    case _ => 50
  }

  /** Steps until main is done, once every worker has exited. */
  function ToDone(pc: PC, n: nat): nat {
    match pc
    case MainDone => 0
    case MainDestroy(j) => if j <= n + 2 then n + 3 - j else 0
    case MainReset => n + 4
    case MainWaitRelease(stop) => if stop then n + 5 else n + 8
    case MainWaitTest => n + 6
    case MainWaitAcquire => n + 7
    case EndRelease(stop) => if stop then n + 8 else n + 11
    case EndTest => n + 9
    case EndAcquire => n + 10
    case _ => 0
  }

  /** Steps until Dandelion severs a rope, if it picks one that is whole. */
  function ToSever(pc: PC, severed: seq<bool>): nat {
    match pc
    case CutTop => 4
    case Cutting(_, rope, cut) =>
      if cut.CutAcquire? || cut.CutTest? then
        (if rope < |severed| && severed[rope] then 9 else 2) + (if cut.CutAcquire? then 1 else 0)
      else if cut.CutSever? then 1
      else 7 + CutToUnlocked(cut)
    case EndRelease(_) => 5
    case EndTest => 6
    case EndAcquire => 7
    case _ => 0
  }

  /** Steps until a severed rope is counted. */
  function ToCount(pc: PC): nat {
    match pc
    case Cutting(_, _, CutCountAcquire) => 3
    case Cutting(_, _, CutLoad) => 2
    case Cutting(_, _, CutStore(_)) => 1
    case _ => 0
  }

  lemma LockHolderCloser(s: State, t: Tid, x: nat, y: nat)
    requires WellFormed(s) && Enabled(s, t) && Held(s.pc[t]) != {}
    ensures ToUnlocked(Exec(s, t, x, y).pc[t]) < ToUnlocked(s.pc[t])
  {
    assert InRange(s.n, t, s.pc[t]);
    match s.pc[t]
    case Cutting(stake, rope, cut) => CutCloser(s, t, stake, rope, cut);
    case Swapping(w, swap) => SwapCloser(s, t, w, swap);
    case _ =>
  }

  lemma CutCloser(s: State, t: Tid, stake: nat, rope: nat, cut: CutStage)
    requires Sized(s) && stake < s.n && rope < s.n
    ensures var pc' := ExecCut(s, t, stake, rope, cut).pc[t];
            && (pc' == EndAcquire || (pc'.Cutting? && pc'.stake == stake && pc'.rope == rope))
            && (!cut.CutAcquire? ==> ToUnlocked(pc') < CutToUnlocked(cut))
            && ToExit(pc') < ToExit(Cutting(stake, rope, cut))
  {
  }

  lemma SwapCloser(s: State, t: Tid, w: Swap, swap: SwapStage)
    requires Sized(s) && SwapInRange(s.n, w)
    ensures var pc' := ExecSwap(s, t, w, swap).pc[t];
            && (!swap.SwapAcquire1? ==> ToUnlocked(pc') < SwapToUnlocked(swap))
            && ToExit(pc') < ToExit(Swapping(w, swap))
  {
  }

  lemma WorkerCloser(s: State, t: Tid, x: nat, y: nat)
    requires WellFormed(s) && Enabled(s, t) && t != Main && AllSevered(s) && s.ropesLeft <= 0
    requires t.Killer? && s.pc[t].SwapTop? ==> x % s.n != y % s.n
    ensures ToExit(Exec(s, t, x, y).pc[t]) < ToExit(s.pc[t])
  {
    assert InRange(s.n, t, s.pc[t]);
    match s.pc[t]
    case Cutting(stake, rope, cut) => CutCloser(s, t, stake, rope, cut);
    case Swapping(w, swap) => SwapCloser(s, t, w, swap);
    case _ =>
  }

  lemma MainCloser(s: State, x: nat, y: nat)
    requires WellFormed(s) && Enabled(s, Main) && !s.pc[Main].MainFork?
    requires s.pc[Main].EndTest? ==> s.ropesLeft <= 0
    requires s.threadsLeft <= 0
    ensures ToDone(Exec(s, Main, x, y).pc[Main], s.n) < ToDone(s.pc[Main], s.n)
  {
    assert InRange(s.n, Main, s.pc[Main]);
  }

  lemma DandelionCloser(s: State, x: nat, y: nat)
    requires WellFormed(s) && Enabled(s, Dandelion) && !SawEnd(s.pc[Dandelion]) && s.ropesLeft > 0
    requires s.pc[Dandelion].CutTop? ==> !s.severed[x % s.n]
    requires s.pc[Dandelion].Cutting? && s.pc[Dandelion].cut.CutSever? ==> !s.severed[s.pc[Dandelion].rope]
    ensures var s' := Exec(s, Dandelion, x, y);
            s'.severed == s.severed ==> ToSever(s'.pc[Dandelion], s.severed) < ToSever(s.pc[Dandelion], s.severed)
  {
    assert InRange(s.n, Dandelion, s.pc[Dandelion]);
  }

  lemma CounterCloser(s: State, t: Tid, x: nat, y: nat)
    requires WellFormed(s) && Enabled(s, t) && Pending(s.pc[t]) > 0
    ensures var pc' := Exec(s, t, x, y).pc[t]; Pending(pc') > 0 ==> ToCount(pc') < ToCount(s.pc[t])
  {
    assert InRange(s.n, t, s.pc[t]);
  }

  // ---------------------------------------------------------------- sums over threads

  function Weight(exit: bool, pc: PC): nat {
    if exit then ToExit(pc) else ToUnlocked(pc)
  }

  function KillersSum(exit: bool, pc: map<Tid, PC>, k: nat): nat
    requires forall i | 0 <= i < k :: Killer(i) in pc
  {
    if k == 0 then 0 else KillersSum(exit, pc, k - 1) + Weight(exit, pc[Killer(k - 1)])
  }

  ghost predicate HasWorkers(pc: map<Tid, PC>, k: nat) {
    Marigold in pc && Dandelion in pc && Balloon in pc && Main in pc && forall i | 0 <= i < k :: Killer(i) in pc
  }

  ghost function WorkersSum(exit: bool, pc: map<Tid, PC>, k: nat): nat
    requires HasWorkers(pc, k)
  {
    Weight(exit, pc[Marigold]) + Weight(exit, pc[Dandelion]) + Weight(exit, pc[Balloon]) + KillersSum(exit, pc, k)
  }

  lemma {:induction false} KillersUpdate(exit: bool, pc: map<Tid, PC>, k: nat, t: Tid, p: PC)
    requires t in pc && forall i | 0 <= i < k :: Killer(i) in pc
    ensures KillersSum(exit, pc[t := p], k) + (if t.Killer? && t.i < k then Weight(exit, pc[t]) else 0)
            == KillersSum(exit, pc, k) + (if t.Killer? && t.i < k then Weight(exit, p) else 0)
  {
    if k > 0 {
      KillersUpdate(exit, pc, k - 1, t, p);
    }
  }

  lemma WorkersUpdate(exit: bool, pc: map<Tid, PC>, k: nat, t: Tid, p: PC)
    requires HasWorkers(pc, k) && t in pc && IsTid(t, k)
    ensures HasWorkers(pc[t := p], k)
    ensures t != Main ==>
              WorkersSum(exit, pc[t := p], k) + Weight(exit, pc[t]) == WorkersSum(exit, pc, k) + Weight(exit, p)
    ensures t == Main ==> WorkersSum(exit, pc[t := p], k) == WorkersSum(exit, pc, k)
  {
    KillersUpdate(exit, pc, k, t, p);
    hide ToExit, ToUnlocked;
  }

  lemma {:induction false} KillerNotOut(pc: map<Tid, PC>, k: nat) returns (t: Tid)
    requires (forall i | 0 <= i < k :: Killer(i) in pc) && KillersSum(true, pc, k) > 0
    ensures t.Killer? && t.i < k && !pc[t].Exited?
  {
    if !pc[Killer(k - 1)].Exited? {
      t := Killer(k - 1);
    } else {
      t := KillerNotOut(pc, k - 1);
    }
  }

  lemma {:induction false} KillersOut(pc: map<Tid, PC>, k: nat, i: nat)
    requires (forall j | 0 <= j < k :: Killer(j) in pc) && KillersSum(true, pc, k) == 0 && i < k
    ensures pc[Killer(i)].Exited?
  {
    if i < k - 1 {
      KillersOut(pc, k - 1, i);
    }
  }

  /** Some worker has not exited, or all have. */
  lemma NotOut(pc: map<Tid, PC>, k: nat) returns (t: Tid)
    requires HasWorkers(pc, k) && WorkersSum(true, pc, k) > 0
    ensures t in pc && t != Main && IsTid(t, k) && !pc[t].Exited?
  {
    if !pc[Marigold].Exited? {
      t := Marigold;
    } else if !pc[Dandelion].Exited? {
      t := Dandelion;
    } else if !pc[Balloon].Exited? {
      t := Balloon;
    } else {
      t := KillerNotOut(pc, k);
    }
  }

  lemma AllOut(pc: map<Tid, PC>, k: nat, t: Tid)
    requires HasWorkers(pc, k) && WorkersSum(true, pc, k) == 0 && t in pc && t != Main && IsTid(t, k)
    ensures pc[t].Exited?
  {
    if t.Killer? {
      KillersOut(pc, k, t.i);
    }
  }

  // ---------------------------------------------------------------- the rank of a state

  function Unforked(s: State): nat
    requires Main in s.pc
  {
    match s.pc[Main]
    case MainFork(j) => if j <= s.k + 3 then s.k + 4 - j else 0
    case _ => 0
  }

  function Whole(s: State): nat {
    |s.severed| - CountTrue(s.severed)
  }

  function Uncounted(s: State): nat
    requires Marigold in s.pc && Dandelion in s.pc
  {
    Pending(s.pc[Marigold]) + Pending(s.pc[Dandelion])
  }

  /** The thread that is to count its rope next. */
  function Counter(s: State): Tid
    requires Marigold in s.pc
  {
    if Pending(s.pc[Marigold]) > 0 then Marigold else Dandelion
  }

  /** All other threads' steps until they hold no lock. */
  ghost function OthersLocked(s: State, f: Tid): nat
    requires HasWorkers(s.pc, s.k) && f in s.pc && IsTid(f, s.k)
  {
    WorkersUpdate(false, s.pc, s.k, f, Exited);
    WorkersSum(false, s.pc[f := Exited], s.k) + ToUnlocked(s.pc[Main])
  }

  ghost function Distance(s: State): nat
    requires HasWorkers(s.pc, s.k)
  {
    if Unforked(s) > 0 then 0
    else if Whole(s) > 0 then OthersLocked(s, Dandelion) + ToSever(s.pc[Dandelion], s.severed)
    else if Uncounted(s) > 0 then OthersLocked(s, Counter(s)) + ToCount(s.pc[Counter(s)])
    else WorkersSum(true, s.pc, s.k)
  }

  ghost function MainDistance(s: State): nat
    requires HasWorkers(s.pc, s.k)
  {
    if Unforked(s) > 0 || Whole(s) > 0 || Uncounted(s) > 0 then 0
    else if WorkersSum(true, s.pc, s.k) > 0 then ToUnlocked(s.pc[Main])
    else ToDone(s.pc[Main], s.n)
  }

  /** s' ranks below s. */
  ghost predicate Below(s': State, s: State)
    requires HasWorkers(s.pc, s.k) && HasWorkers(s'.pc, s'.k)
  {
    || Unforked(s') < Unforked(s)
    || (Unforked(s') == Unforked(s) &&
        (|| Whole(s') < Whole(s)
         || (Whole(s') == Whole(s) &&
             (|| Uncounted(s') < Uncounted(s)
              || (Uncounted(s') == Uncounted(s) &&
                  (|| Distance(s') < Distance(s)
                   || (Distance(s') == Distance(s) && MainDistance(s') < MainDistance(s))))))))
  }

  // ---------------------------------------------------------------- what a step does to it

  lemma Workers(s: State)
    requires WellFormed(s)
    ensures HasWorkers(s.pc, s.k)
  {
  }

  /** Main has forked everything and every thread exists. */
  ghost predicate AllForked(s: State) {
    Main in s.pc && !s.pc[Main].MainFork?
  }

  lemma StepShape(s: State, t: Tid, x: nat, y: nat)
    requires Inv(s) && Enabled(s, t) && AllForked(s)
    ensures var s' := Exec(s, t, x, y);
            t in s'.pc && s'.pc == s.pc[t := s'.pc[t]] && s'.n == s.n && s'.k == s.k && AllForked(s')
  {
    hide Owned, Distinct, RopesCounted, ThreadsCounted, MainWaited, Local;
    StepMoves(s, t, x, y);
    assert InRange(s.n, t, s.pc[t]);
    if t == Main {
      MainNeverForksAgain(s, x, y);
    }
  }

  lemma MainNeverForksAgain(s: State, x: nat, y: nat)
    requires WellFormed(s) && Enabled(s, Main) && !s.pc[Main].MainFork?
    ensures !Exec(s, Main, x, y).pc[Main].MainFork?
  {
    assert InRange(s.n, Main, s.pc[Main]);
  }

  /** Severing makes the whole ropes fewer; a step that does not leaves them, and counts no new rope. */
  lemma StepRopes(s: State, t: Tid, x: nat, y: nat)
    requires Inv(s) && Enabled(s, t) && AllForked(s)
    ensures var s' := Exec(s, t, x, y);
            && |s'.severed| == |s.severed|
            && (if Severs(s.pc[t]) then Whole(s') < Whole(s) else s'.severed == s.severed)
            && Marigold in s'.pc && Dandelion in s'.pc
            && (!Severs(s.pc[t]) ==>
               forall u | u == Marigold || u == Dandelion :: Pending(s'.pc[u]) <= Pending(s.pc[u]))
  {
    StepWrites(s, t, x, y);
    StepShape(s, t, x, y);
    if !Severs(s.pc[t]) {
      PendingStep(s, t, x, y);
    }
    assert Local(s, t);
    hide Owned, Distinct, RopesCounted, ThreadsCounted, MainWaited, Forking, Exec;
    if Severs(s.pc[t]) {
      CountSet(s.severed, s.pc[t].rope, true);
    }
  }

  lemma PendingStep(s: State, t: Tid, x: nat, y: nat)
    requires WellFormed(s) && Enabled(s, t) && !Severs(s.pc[t])
    ensures Pending(Exec(s, t, x, y).pc[t]) <= Pending(s.pc[t])
  {
    assert InRange(s.n, t, s.pc[t]);
  }

  /** A step of a thread outside the focus that holds a lock. */
  lemma OthersCloser(s: State, f: Tid, t: Tid, x: nat, y: nat)
    requires Inv(s) && Enabled(s, t) && AllForked(s) && f in s.pc && f != Main && t != f && Held(s.pc[t]) != {}
    ensures var s' := Exec(s, t, x, y);
            && HasWorkers(s.pc, s.k) && HasWorkers(s'.pc, s'.k) && f in s'.pc && IsTid(f, s.k) && s'.k == s.k
            && OthersLocked(s', f) < OthersLocked(s, f) && s'.pc[f] == s.pc[f]
  {
    hide Inv, Exec, Enabled, ToUnlocked, WorkersSum, Held;
    EnabledExists(s, t);
    Known(s, f);
    Known(s, t);
    LockHolderCloser(s, t, x, y);
    StepShape(s, t, x, y);
    OthersInMap(s.pc, s.k, f, t, Exec(s, t, x, y).pc[t]);
  }

  lemma EnabledExists(s: State, t: Tid)
    requires Enabled(s, t)
    ensures t in s.pc
  {
  }

  lemma Known(s: State, t: Tid)
    requires Inv(s)
    ensures WellFormed(s) && HasWorkers(s.pc, s.k) && (t in s.pc <==> IsTid(t, s.k))
  {
    hide Owned, Distinct, RopesCounted, ThreadsCounted, MainWaited, Local, Forking;
    Workers(s);
  }

  lemma OthersInMap(pc: map<Tid, PC>, k: nat, f: Tid, t: Tid, p: PC)
    requires HasWorkers(pc, k) && f in pc && IsTid(f, k) && t in pc && IsTid(t, k) && f != Main && t != f
    requires ToUnlocked(p) < ToUnlocked(pc[t])
    ensures HasWorkers(pc[f := Exited], k) && HasWorkers(pc[t := p], k) && HasWorkers(pc[t := p][f := Exited], k)
    ensures WorkersSum(false, pc[t := p][f := Exited], k) + ToUnlocked(pc[t := p][Main])
            < WorkersSum(false, pc[f := Exited], k) + ToUnlocked(pc[Main])
  {
    hide ToUnlocked, WorkersSum;
    assert pc[t := p][f := Exited] == pc[f := Exited][t := p];
    WorkersUpdate(false, pc[f := Exited], k, t, p);
  }

  /** A step of the thread in focus leaves the others' distance alone. */
  lemma OthersSame(s: State, f: Tid, x: nat, y: nat)
    requires Inv(s) && Enabled(s, f) && AllForked(s) && f != Main
    ensures var s' := Exec(s, f, x, y);
            && HasWorkers(s.pc, s.k) && HasWorkers(s'.pc, s'.k) && f in s'.pc && IsTid(f, s.k) && s'.k == s.k
            && OthersLocked(s', f) == OthersLocked(s, f)
  {
    hide Inv, Exec, Enabled, ToUnlocked, WorkersSum;
    Known(s, f);
    EnabledExists(s, f);
    StepShape(s, f, x, y);
    var s' := Exec(s, f, x, y);
    WorkersUpdate(false, s.pc, s.k, f, s'.pc[f]);
    assert s'.pc[f := Exited] == s.pc[f := Exited];
  }

  // ---------------------------------------------------------------- some step ranks lower

  /** The owners of the awaited locks lead to a thread that can step: t itself, or one that holds a lock. */
  lemma {:induction false} Chain(s: State, t: Tid) returns (t': Tid)
    requires Inv(s) && t in s.pc && !s.pc[t].Unborn? && !Finished(s.pc[t])
    ensures t' in s.pc && Enabled(s, t') && (t' == t || Held(s.pc[t']) != {})
    decreases if Wants(s.pc[t]).Some? then s.n + 3 - Rank(Wants(s.pc[t]).value, s.n) else 0
  {
    hide Distinct, RopesCounted, ThreadsCounted, MainWaited, Forking, Local;
    if Enabled(s, t) {
      return t;
    }
    var l := Wants(s.pc[t]).value;
    var o := s.owner[l];
    assert Holds(s, o, l);
    assert InRange(s.n, t, s.pc[t]);
    if Wants(s.pc[o]).Some? {
      WaitsUpwards(s, o, l);
    }
    t' := Chain(s, o);
    assert l in Held(s.pc[o]);
  }

  lemma ForkStep(s: State) returns (t: Tid, x: nat, y: nat)
    requires Inv(s) && s.pc[Main].MainFork?
    ensures Enabled(s, t) && WellFormed(s) && WellFormed(Exec(s, t, x, y))
    ensures HasWorkers(s.pc, s.k) && HasWorkers(Exec(s, t, x, y).pc, Exec(s, t, x, y).k) && Below(Exec(s, t, x, y), s)
  {
    t, x, y := Main, 0, 0;
    StepInv(s, t, x, y);
    Workers(s);
    Workers(Exec(s, t, x, y));
    assert s.pc[Main].next <= s.k + 3;
    hide Owned, Distinct, RopesCounted, ThreadsCounted, MainWaited, Local, Distance, MainDistance;
  }

  lemma NoneUnborn(s: State, t: Tid)
    requires Inv(s) && AllForked(s) && t in s.pc
    ensures !s.pc[t].Unborn?
  {
    assert Forking(s);
    hide Owned, Distinct, RopesCounted, ThreadsCounted, MainWaited, Local;
  }

  /** While a rope is whole, Dandelion goes on, and ropes_left says so. */
  lemma DandelionGoesOn(s: State) returns (r: nat)
    requires Inv(s) && AllForked(s) && Whole(s) > 0
    ensures Dandelion in s.pc && !SawEnd(s.pc[Dandelion]) && s.ropesLeft > 0 && r < s.n && r < |s.severed|
            && !s.severed[r]
  {
    CountFull(s.severed);
    r :| 0 <= r < |s.severed| && !s.severed[r];
    assert !AllSevered(s);
    assert IsTid(Dandelion, s.k) && IsTid(Main, s.k);
    ResetSawEnd(s.pc[Main]);
    hide Owned, Distinct, ThreadsCounted, MainWaited, Local, Forking;
  }

  lemma ResetSawEnd(pc: PC)
    ensures WasReset(pc) ==> SawEnd(pc)
  {
  }

  lemma SeverFacts(s: State)
    requires Inv(s) && Dandelion in s.pc
    ensures s.pc[Dandelion].Cutting? && s.pc[Dandelion].cut.CutSever? ==>
              s.pc[Dandelion].rope < |s.severed| && !s.severed[s.pc[Dandelion].rope]
    ensures s.pc[Dandelion].Cutting? ==> s.pc[Dandelion].rope < s.n
  {
    assert Local(s, Dandelion);
    assert InRange(s.n, Dandelion, s.pc[Dandelion]);
    hide Owned, Distinct, RopesCounted, ThreadsCounted, MainWaited, Forking;
  }

  lemma SeverStep(s: State) returns (t: Tid, x: nat, y: nat)
    requires Inv(s) && AllForked(s) && Whole(s) > 0
    ensures Enabled(s, t) && WellFormed(s) && WellFormed(Exec(s, t, x, y))
    ensures HasWorkers(s.pc, s.k) && HasWorkers(Exec(s, t, x, y).pc, Exec(s, t, x, y).k) && Below(Exec(s, t, x, y), s)
  {
    hide Inv, Exec, Enabled, ToSever, SawEnd, OthersLocked, Held, Pending, HasWorkers;
    x := DandelionGoesOn(s);
    y := 0;
    NoneUnborn(s, Dandelion);
    NotFinished(s.pc[Dandelion]);
    t := Chain(s, Dandelion);
    Shapes(s, t, x, y);
    StepRopes(s, t, x, y);
    var s' := Exec(s, t, x, y);
    if !Severs(s.pc[t]) && Uncounted(s') == Uncounted(s) {
      if t == Dandelion {
        OthersSame(s, t, x, y);
        SeverFacts(s);
        SmallMod(x, s.n);
        DandelionCloser(s, x, y);
      } else {
        OthersCloser(s, Dandelion, t, x, y);
      }
    }
  }

  lemma SmallMod(x: nat, n: nat)
    requires x < n
    ensures x % n == x
  {
  }

  lemma NotFinished(pc: PC)
    requires !SawEnd(pc)
    ensures !Finished(pc)
  {
  }

  /** What is needed to compare the ranks before and after a step. */
  lemma Shapes(s: State, t: Tid, x: nat, y: nat)
    requires Inv(s) && Enabled(s, t) && AllForked(s)
    ensures WellFormed(s) && WellFormed(Exec(s, t, x, y)) && AllForked(Exec(s, t, x, y))
    ensures HasWorkers(s.pc, s.k) && HasWorkers(Exec(s, t, x, y).pc, Exec(s, t, x, y).k)
    ensures Unforked(s) == 0 && Unforked(Exec(s, t, x, y)) == 0
  {
    hide Exec, Enabled, Owned, Distinct, RopesCounted, ThreadsCounted, MainWaited, Local, Forking;
    StepInv(s, t, x, y);
    StepShape(s, t, x, y);
    Workers(s);
    Workers(Exec(s, t, x, y));
  }

  lemma CountStep(s: State) returns (t: Tid, x: nat, y: nat)
    requires Inv(s) && AllForked(s) && Whole(s) == 0 && Marigold in s.pc && Dandelion in s.pc && Uncounted(s) > 0
    ensures Enabled(s, t) && WellFormed(s) && WellFormed(Exec(s, t, x, y))
    ensures HasWorkers(s.pc, s.k) && HasWorkers(Exec(s, t, x, y).pc, Exec(s, t, x, y).k) && Below(Exec(s, t, x, y), s)
  {
    hide Inv, Exec, Enabled, OthersLocked, Held, HasWorkers, ToCount;
    var f := Counter(s);
    x, y := 0, 0;
    t := Chain(s, f);
    Shapes(s, t, x, y);
    StepRopes(s, t, x, y);
    var s' := Exec(s, t, x, y);
    if !Severs(s.pc[t]) && Uncounted(s') == Uncounted(s) {
      assert Counter(s') == f;
      if t == f {
        OthersSame(s, f, x, y);
        CounterCloser(s, f, x, y);
      } else {
        OthersCloser(s, f, t, x, y);
      }
    }
  }

  // ---------------------------------------------------------------- everybody leaves

  lemma AllCounted(s: State)
    requires Inv(s) && AllForked(s) && Whole(s) == 0 && Marigold in s.pc && Dandelion in s.pc && Uncounted(s) == 0
    ensures AllSevered(s) && Main in s.pc && (!WasReset(s.pc[Main]) ==> s.ropesLeft <= 0)
    ensures Shutdown(s.pc[Main]) ==> forall t | t in s.pc && t != Main :: s.pc[t].Exited?
  {
    CountFull(s.severed);
    hide Owned, Distinct, ThreadsCounted, Local, Forking;
  }

  lemma LeaveStep(s: State) returns (t: Tid, x: nat, y: nat)
    requires Inv(s) && AllForked(s) && Whole(s) == 0 && HasWorkers(s.pc, s.k) && Uncounted(s) == 0
    requires WorkersSum(true, s.pc, s.k) > 0 && (s.n > 1 || s.k == 0)
    ensures Enabled(s, t) && WellFormed(s) && WellFormed(Exec(s, t, x, y))
    ensures HasWorkers(Exec(s, t, x, y).pc, Exec(s, t, x, y).k) && Below(Exec(s, t, x, y), s)
  {
    var f := NotOut(s.pc, s.k);
    hide Inv, Exec, Enabled, Held, HasWorkers, WorkersSum, ToUnlocked, ToExit;
    AllCounted(s);
    NoneUnborn(s, f);
    WorkerPoint(s, f);
    x, y := 0, 1;
    t := Chain(s, f);
    Shapes(s, t, x, y);
    StepRopes(s, t, x, y);
    StepShape(s, t, x, y);
    assert IsTid(t, s.k);
    var s' := Exec(s, t, x, y);
    if !Severs(s.pc[t]) {
      WorkersUpdate(true, s.pc, s.k, t, s'.pc[t]);
      if t == Main {
        LockHolderCloser(s, t, x, y);
      } else {
        DifferentStakes(s, t);
        WorkerCloser(s, t, x, y);
      }
    }
  }

  lemma WorkerPoint(s: State, t: Tid)
    requires WellFormed(s) && t in s.pc && t != Main && !s.pc[t].Exited?
    ensures !Finished(s.pc[t])
  {
    assert InRange(s.n, t, s.pc[t]);
  }

  lemma DifferentStakes(s: State, t: Tid)
    requires s.n > 1 || s.k == 0
    requires WellFormed(s) && t in s.pc
    ensures t.Killer? ==> 0 % s.n != 1 % s.n
  {
    assert IsTid(t, s.k);
  }

  lemma DoneStep(s: State) returns (t: Tid, x: nat, y: nat)
    requires Inv(s) && AllForked(s) && Whole(s) == 0 && HasWorkers(s.pc, s.k) && Uncounted(s) == 0
    requires WorkersSum(true, s.pc, s.k) == 0 && !s.pc[Main].MainDone?
    ensures Enabled(s, t) && WellFormed(s) && WellFormed(Exec(s, t, x, y))
    ensures HasWorkers(Exec(s, t, x, y).pc, Exec(s, t, x, y).k) && Below(Exec(s, t, x, y), s)
  {
    WorkersOut(s);
    hide Inv, Exec, Enabled, HasWorkers, WorkersSum, ToDone;
    AllCounted(s);
    NoneLeft(s);
    NoneUnborn(s, Main);
    x, y := 0, 0;
    t := Chain(s, Main);
    assert t == Main;
    MainAtEndTest(s);
    Shapes(s, t, x, y);
    StepRopes(s, t, x, y);
    StepShape(s, t, x, y);
    var s' := Exec(s, t, x, y);
    WorkersUpdate(true, s.pc, s.k, t, s'.pc[t]);
    MainCloser(s, x, y);
  }

  lemma WorkersOut(s: State)
    requires Inv(s) && HasWorkers(s.pc, s.k) && WorkersSum(true, s.pc, s.k) == 0
    ensures forall t | t in s.pc && t != Main :: s.pc[t].Exited?
  {
    hide Owned, Distinct, RopesCounted, ThreadsCounted, MainWaited, Local, Forking, WorkersSum;
    forall t | t in s.pc && t != Main
      ensures s.pc[t].Exited?
    {
      assert IsTid(t, s.k);
      AllOut(s.pc, s.k, t);
    }
  }

  lemma {:induction false} NoKillersLeft(pc: map<Tid, PC>, k: nat)
    requires forall i | 0 <= i < k :: Killer(i) in pc && pc[Killer(i)].Exited?
    ensures KillersLeft(pc, k) == 0
  {
    if k > 0 {
      NoKillersLeft(pc, k - 1);
    }
  }

  lemma NoneLeft(s: State)
    requires Inv(s) && HasWorkers(s.pc, s.k) && forall t | t in s.pc && t != Main :: s.pc[t].Exited?
    ensures s.threadsLeft == 0
  {
    hide Owned, Distinct, RopesCounted, MainWaited, Local, Forking;
    NoKillersLeft(s.pc, s.k);
  }

  lemma MainAtEndTest(s: State)
    requires WellFormed(s) && Main in s.pc
    ensures s.pc[Main].EndTest? ==> !WasReset(s.pc[Main])
    ensures !Severs(s.pc[Main])
  {
    assert InRange(s.n, Main, s.pc[Main]);
  }

  /** In every state that is not the end, some step leads to a lower rank. */
  lemma Progress(s: State) returns (t: Tid, x: nat, y: nat)
    requires Inv(s) && (s.n > 1 || s.k == 0) && Main in s.pc && !s.pc[Main].MainDone?
    ensures WellFormed(s) && t in s.pc && Enabled(s, t) && WellFormed(Exec(s, t, x, y))
    ensures HasWorkers(s.pc, s.k) && HasWorkers(Exec(s, t, x, y).pc, Exec(s, t, x, y).k) && Below(Exec(s, t, x, y), s)
  {
    hide Owned, Distinct, RopesCounted, ThreadsCounted, MainWaited, Local, Forking;
    hide Exec, Enabled, Whole, Uncounted, Below, WorkersSum;
    Workers(s);
    if s.pc[Main].MainFork? {
      t, x, y := ForkStep(s);
    } else if Whole(s) > 0 {
      t, x, y := SeverStep(s);
    } else if Uncounted(s) > 0 {
      t, x, y := CountStep(s);
    } else if WorkersSum(true, s.pc, s.k) > 0 {
      t, x, y := LeaveStep(s);
    } else {
      t, x, y := DoneStep(s);
    }
    EnabledExists(s, t);
  }

  // ---------------------------------------------------------------- runs to the end

  /** A run from s on. */
  ghost predicate Continues(s: State, tr: seq<State>) {
    && |tr| > 0 && tr[0] == s
    && forall i | 0 <= i < |tr| - 1 :: Step(tr[i], tr[i + 1])
  }

  /** All ropes are severed, every worker has exited, and main has returned. */
  ghost predicate Ended(s: State) {
    && AllSevered(s) && Main in s.pc && s.pc[Main].MainDone?
    && forall t | t in s.pc && t != Main :: s.pc[t].Exited?
  }

  lemma DoneIsEnded(s: State)
    requires Inv(s) && Main in s.pc && s.pc[Main].MainDone?
    ensures Ended(s)
  {
    hide Owned, Distinct, RopesCounted, ThreadsCounted, Local, Forking;
  }

  lemma {:induction false} Finish(s: State) returns (tr: seq<State>)
    requires Inv(s) && HasWorkers(s.pc, s.k) && (s.n > 1 || s.k == 0)
    ensures Continues(s, tr) && Ended(tr[|tr| - 1])
    decreases Unforked(s), Whole(s), Uncounted(s), Distance(s), MainDistance(s)
  {
    hide Inv, Exec, Enabled, Ended, Unforked, Whole, Uncounted, Distance, MainDistance, Step;
    if s.pc[Main].MainDone? {
      DoneIsEnded(s);
      tr := [s];
    } else {
      var t, x, y := Progress(s);
      StepInv(s, t, x, y);
      var s' := Exec(s, t, x, y);
      SameSize(s, t, x, y);
      StepIs(s, t, x, y);
      var rest := Finish(s');
      tr := [s] + rest;
      forall i | 0 <= i < |tr| - 1
        ensures Step(tr[i], tr[i + 1])
      {
        if i > 0 {
          assert tr[i] == rest[i - 1] && tr[i + 1] == rest[i];
        }
      }
    }
  }

  lemma SameSize(s: State, t: Tid, x: nat, y: nat)
    requires Inv(s) && Enabled(s, t)
    ensures Exec(s, t, x, y).n == s.n && Exec(s, t, x, y).k == s.k
  {
    hide Exec, Enabled, Owned, Distinct, RopesCounted, ThreadsCounted, MainWaited, Local;
    StepMoves(s, t, x, y);
  }

  lemma StepIs(s: State, t: Tid, x: nat, y: nat)
    requires WellFormed(s) && Enabled(s, t)
    ensures Step(s, Exec(s, t, x, y))
  {
    hide Exec;
    assert StepBy(s, Exec(s, t, x, y), t, x, y);
  }

  /**
   However far airballoon() has got and whatever has happened, it can still end with all ropes severed, unless there is
   one rope and a FlowerKiller.
   */
  lemma CanAlwaysEnd(tr: seq<State>, n: nat, k: nat) returns (more: seq<State>)
    requires n > 0 && (n > 1 || k == 0) && Run(tr, n, k)
    ensures Run(tr + more, n, k) && Ended((tr + more)[|tr + more| - 1])
  {
    hide Inv, Step, Ended, Init, HasWorkers;
    var last := |tr| - 1;
    RunInv(tr, n, k, last);
    RunSize(tr, n, k, last);
    InvWorkers(tr[last]);
    var rest := Finish(tr[last]);
    more := rest[1..];
    var all := tr + more;
    assert forall i | last <= i < |all| :: all[i] == rest[i - last];
    forall i | 0 <= i < |all| - 1
      ensures Step(all[i], all[i + 1])
    {
      if i < last {
        assert all[i] == tr[i] && all[i + 1] == tr[i + 1];
      } else {
        assert all[i] == rest[i - last] && all[i + 1] == rest[i - last + 1];
      }
    }
  }

  lemma InvWorkers(s: State)
    requires Inv(s)
    ensures HasWorkers(s.pc, s.k)
  {
    hide Owned, Distinct, RopesCounted, ThreadsCounted, MainWaited, Local, Forking;
    Workers(s);
  }

  /** With one rope a FlowerKiller always draws the same stake twice, and goes on without looking for the end. */
  lemma {:induction false} OneRopeKiller(tr: seq<State>, k: nat, i: nat)
    requires k > 0 && Run(tr, 1, k) && i < |tr|
    ensures Killer(0) in tr[i].pc && (tr[i].pc[Killer(0)].Unborn? || tr[i].pc[Killer(0)].SwapTop?)
  {
    hide Inv, Step;
    if i == 0 {
      AllTidsAre(k, Killer(0));
    } else {
      OneRopeKiller(tr, k, i - 1);
      RunInv(tr, 1, k, i - 1);
      RunSize(tr, 1, k, i - 1);
      var t, x, y := StepOf(tr, 1, k, i - 1);
      OneRopeStep(tr[i - 1], t, x, y);
    }
  }

  lemma OneRopeStep(s: State, t: Tid, x: nat, y: nat)
    requires Inv(s) && Enabled(s, t) && s.n == 1
    requires Killer(0) in s.pc && (s.pc[Killer(0)].Unborn? || s.pc[Killer(0)].SwapTop?)
    ensures var s' := Exec(s, t, x, y);
            Killer(0) in s'.pc && (s'.pc[Killer(0)].Unborn? || s'.pc[Killer(0)].SwapTop?)
  {
    StepMoves(s, t, x, y);
    hide Inv;
    assert x % 1 == y % 1 == 0;
    if t != Killer(0) {
      hide Exec, Enabled;
    }
  }

  /** airballoon() can end exactly if there are two ropes or no FlowerKiller. */
  lemma EndsUnlessOneRope(n: nat, k: nat)
    requires n > 0
    ensures (exists tr :: Run(tr, n, k) && Ended(tr[|tr| - 1])) <==> n > 1 || k == 0
  {
    hide Inv, Init, Step;
    if n > 1 || k == 0 {
      assert Run([Init(n, k)], n, k);
      var more := CanAlwaysEnd([Init(n, k)], n, k);
    } else {
      forall tr | Run(tr, n, k)
        ensures !Ended(tr[|tr| - 1])
      {
        OneRopeKiller(tr, k, |tr| - 1);
      }
    }
  }
}
