/**
 Lifetime of SFS vnodes: reference counts (src/kern/vfs/vnode.c) and the table of loaded inodes
 (src/kern/fs/sfs/sfs_inode.c), as steps of threads.

 A step is one critical section of a vnode's vn_countlock, or one access to the table under vfs_biglock,
 which is recursive.  Between the decision of vnode_decref to reclaim a vnode and the reclaim itself,
 other threads may run; the reference that the decision was made about is handed to the reclaim.
 */
module Vnodes {
  import opened Counting
  import Lists

  type Vid = nat

  datatype Vnode = Vnode(ino: nat, refcount: nat)

  datatype PC =
    | Running
    | Found(v: Vid)         // sfs_loadvnode has found v in the table
    | Creating(ino: nat)    // sfs_loadvnode has not found ino in the table
    | Reclaim(v: Vid)       // vnode_decref has decided to call VOP_RECLAIM
    | Check(v: Vid)         // sfs_reclaim has the big lock, and is to look at the count
    | Removing(v: Vid)      // the count was 1
    | Removed(v: Vid)       // v is out of the table and cleaned up, and the big lock still held
    | Freeing(v: Vid)       // about to kfree v

  /** held are the references that a thread owns, depth is how often it has the big lock. */
  datatype Thread = Thread(held: multiset<Vid>, depth: nat, pc: PC)

  /** owner is the thread with the big lock, if there is one. */
  datatype State = State(vnodes: map<Vid, Vnode>, table: seq<Vid>, threads: seq<Thread>, owner: int)

  datatype Action =
    | LockBig(t: nat)
    | UnlockBig(t: nat)
    | Lookup(t: nat, ino: nat)
    | TakeFound(t: nat)
    | Create(t: nat, v: Vid)
    | Incref(t: nat, v: Vid)
    | Decref(t: nat, v: Vid)
    | Give(t: nat, u: nat, v: Vid)
    | LockReclaim(t: nat)
    | CheckCount(t: nat)
    | Remove(t: nat)
    | ReleaseBig(t: nat)
    | Free(t: nat)

  predicate MayLock(s: State, t: nat) {
    s.owner < 0 || s.owner == t
  }

  /** The position of the vnode for ino in the table, or the table's length. */
  function Search(s: State, table: seq<Vid>, ino: nat): (i: nat)
    ensures i <= |table|
    ensures i < |table| && table[i] in s.vnodes ==> s.vnodes[table[i]].ino == ino
    ensures forall k | 0 <= k < i && table[k] in s.vnodes :: s.vnodes[table[k]].ino != ino
  {
    if table == [] || (table[0] in s.vnodes && s.vnodes[table[0]].ino == ino) then 0 else 1 + Search(s, table[1..], ino)
  }

  /** What the callers promise: references are used only by threads that own them, the table only with the big lock. */
  predicate Enabled(s: State, a: Action) {
    && a.t < |s.threads|
    && var th := s.threads[a.t];
       match a
       case LockBig(t) => th.pc.Running? && MayLock(s, t)
       case UnlockBig(t) => th.pc.Running? && th.depth > 0
       case Lookup(t, ino) => th.pc.Running? && th.depth > 0
       case TakeFound(t) => th.pc.Found?
       case Create(t, v) => th.pc.Creating? && v !in s.vnodes
       case Incref(t, v) => th.pc.Running? && v in th.held
       case Decref(t, v) => th.pc.Running? && v in th.held
       case Give(t, u, v) => th.pc.Running? && v in th.held && u < |s.threads| && u != t
       case LockReclaim(t) => th.pc.Reclaim? && MayLock(s, t)
       case CheckCount(t) => th.pc.Check?
       case Remove(t) => th.pc.Removing?
       case ReleaseBig(t) => th.pc.Removed?
       case Free(t) => th.pc.Freeing?
  }

  /** What the code asserts, or would crash without. */
  predicate Safe(s: State, a: Action)
    requires Enabled(s, a)
  {
    var th := s.threads[a.t];
    match a
    case TakeFound(t) => th.pc.v in s.vnodes
    case Incref(t, v) => v in s.vnodes
    case Decref(t, v) => v in s.vnodes && s.vnodes[v].refcount > 0
    case CheckCount(t) => th.pc.v in s.vnodes && s.vnodes[th.pc.v].refcount >= 1 && th.depth > 0
    case Remove(t) => th.pc.v in s.vnodes && th.pc.v in s.table && s.vnodes[th.pc.v].refcount == 1
    case ReleaseBig(t) => th.depth > 0
    case Free(t) => th.pc.v in s.vnodes
    case _ => true
  }

  function SetThread(s: State, t: nat, th: Thread): State
    requires t < |s.threads|
  {
    s.(threads := s.threads[t := th])
  }

  function SetCount(s: State, v: Vid, n: nat): State
    requires v in s.vnodes
  {
    s.(vnodes := s.vnodes[v := s.vnodes[v].(refcount := n)])
  }

  /** vfs_biglock_acquire and vfs_biglock_release, and where the thread goes on. */
  function Lock(s: State, t: nat, pc: PC): State
    requires t < |s.threads|
  {
    SetThread(s, t, s.threads[t].(depth := s.threads[t].depth + 1, pc := pc)).(owner := t)
  }

  function Unlock(s: State, t: nat, pc: PC): State
    requires t < |s.threads| && s.threads[t].depth > 0
  {
    SetThread(s, t, s.threads[t].(depth := s.threads[t].depth - 1, pc := pc))
    .(owner := if s.threads[t].depth == 1 then -1 else s.owner)
  }

  /** vnode_decref: the last reference is not counted down but handed to the reclaim. */
  function ExecDecref(s: State, t: nat, v: Vid): State
    requires t < |s.threads| && v in s.vnodes && s.vnodes[v].refcount > 0
  {
    var th := s.threads[t].(held := s.threads[t].held - multiset{v});
    if s.vnodes[v].refcount > 1 then SetThread(SetCount(s, v, s.vnodes[v].refcount - 1), t, th)
    else SetThread(s, t, th.(pc := Reclaim(v)))
  }

  function Exec(s: State, a: Action): State
    requires Enabled(s, a) && Safe(s, a)
  {
    var th := s.threads[a.t];
    match a
    case LockBig(t) => Lock(s, t, Running)
    case UnlockBig(t) => Unlock(s, t, Running)
    case Lookup(t, ino) =>
      var i := Search(s, s.table, ino);
      SetThread(s, t, th.(pc := if i < |s.table| then Found(s.table[i]) else Creating(ino)))
    case TakeFound(t) =>
      SetThread(SetCount(s, th.pc.v, s.vnodes[th.pc.v].refcount + 1), t,
                th.(held := th.held + multiset{th.pc.v}, pc := Running))
    case Create(t, v) =>
      SetThread(s, t, th.(held := th.held + multiset{v}, pc := Running))
      .(vnodes := s.vnodes[v := Vnode(th.pc.ino, 1)], table := s.table + [v])
    case Incref(t, v) =>
      SetThread(SetCount(s, v, s.vnodes[v].refcount + 1), t, th.(held := th.held + multiset{v}))
    case Decref(t, v) => ExecDecref(s, t, v)
    case Give(t, u, v) =>
      SetThread(SetThread(s, t, th.(held := th.held - multiset{v})), u,
                s.threads[u].(held := s.threads[u].held + multiset{v}))
    case LockReclaim(t) => Lock(s, t, Check(th.pc.v))
    case CheckCount(t) =>
      var v := th.pc.v;
      if s.vnodes[v].refcount != 1 then Unlock(SetCount(s, v, s.vnodes[v].refcount - 1), t, Running)
      else SetThread(s, t, th.(pc := Removing(v)))
    case Remove(t) =>
      var v := th.pc.v;
      SetThread(SetCount(s, v, 0), t, th.(pc := Removed(v))).(table := Lists.Remove(s.table, v))
    case ReleaseBig(t) => Unlock(s, t, Freeing(th.pc.v))
    case Free(t) => SetThread(s, t, th.(pc := Running)).(vnodes := s.vnodes - {th.pc.v})
  }

  // ---------------------------------------------------------------- the invariant

  /** The reclaim of v is pending in this thread. */
  predicate Pending(th: Thread, v: Vid) {
    (th.pc.Reclaim? || th.pc.Check? || th.pc.Removing?) && th.pc.v == v
  }

  predicate Destroying(th: Thread, v: Vid) {
    (th.pc.Removed? || th.pc.Freeing?) && th.pc.v == v
  }

  /** The references that all threads own. */
  function Outstanding(ths: seq<Thread>, v: Vid): nat {
    if ths == [] then 0 else ths[0].held[v] + Outstanding(ths[1..], v)
  }

  function PendingCount(ths: seq<Thread>, v: Vid): nat {
    if ths == [] then 0 else Indicator(Pending(ths[0], v)) + PendingCount(ths[1..], v)
  }

  function DestroyCount(ths: seq<Thread>, v: Vid): nat {
    if ths == [] then 0 else Indicator(Destroying(ths[0], v)) + DestroyCount(ths[1..], v)
  }

  /** A vnode in the table is counted exactly; one that is being destroyed belongs to one thread alone. */
  ghost predicate Counted(s: State, v: Vid) {
    if v in s.table then
      && v in s.vnodes && DestroyCount(s.threads, v) == 0
      && s.vnodes[v].refcount == Outstanding(s.threads, v) + PendingCount(s.threads, v)
      && s.vnodes[v].refcount > 0 && PendingCount(s.threads, v) <= 1
    else
      && Outstanding(s.threads, v) == 0 && PendingCount(s.threads, v) == 0
      && DestroyCount(s.threads, v) == Indicator(v in s.vnodes)
  }

  ghost predicate TableOk(s: State) {
    && (forall i | 0 <= i < |s.table| :: s.table[i] in s.vnodes)
    && (forall i, j | 0 <= i < j < |s.table| && s.table[i] in s.vnodes && s.table[j] in s.vnodes ::
          s.table[i] != s.table[j] && s.vnodes[s.table[i]].ino != s.vnodes[s.table[j]].ino)
  }

  ghost predicate NoSuchInode(s: State, ino: nat) {
    forall i | 0 <= i < |s.table| && s.table[i] in s.vnodes :: s.vnodes[s.table[i]].ino != ino
  }

  predicate NeedsLock(pc: PC) {
    pc.Found? || pc.Creating? || pc.Check? || pc.Removing? || pc.Removed?
  }

  ghost predicate ThreadOk(s: State, t: nat)
    requires t < |s.threads|
  {
    var th := s.threads[t];
    && (th.depth > 0 <==> s.owner == t)
    && (NeedsLock(th.pc) ==> th.depth > 0)
    && match th.pc
       case Found(v) => v in s.table
       case Creating(ino) => NoSuchInode(s, ino)
       case Removing(v) => v in s.vnodes && s.vnodes[v].refcount == 1
       case _ => true
  }

  ghost predicate Inv(s: State) {
    && TableOk(s)
    && s.owner < |s.threads|
    && (forall t | 0 <= t < |s.threads| :: ThreadOk(s, t))
    && (forall v :: Counted(s, v))
  }

  // ---------------------------------------------------------------- counting

  lemma {:induction false} CountUpdate(ths: seq<Thread>, t: nat, th: Thread, v: Vid)
    requires t < |ths|
    ensures Outstanding(ths[t := th], v) + ths[t].held[v] == Outstanding(ths, v) + th.held[v]
    ensures PendingCount(ths[t := th], v) + Indicator(Pending(ths[t], v))
            == PendingCount(ths, v) + Indicator(Pending(th, v))
    ensures DestroyCount(ths[t := th], v) + Indicator(Destroying(ths[t], v))
            == DestroyCount(ths, v) + Indicator(Destroying(th, v))
  {
    if t == 0 {
      assert ths[t := th][1..] == ths[1..];
    } else {
      assert ths[t := th][1..] == ths[1..][t - 1 := th];
      CountUpdate(ths[1..], t - 1, th, v);
    }
  }

  lemma {:induction false} CountAtLeast(ths: seq<Thread>, t: nat, v: Vid)
    requires t < |ths|
    ensures Outstanding(ths, v) >= ths[t].held[v]
    ensures PendingCount(ths, v) >= Indicator(Pending(ths[t], v))
    ensures DestroyCount(ths, v) >= Indicator(Destroying(ths[t], v))
  {
    if t > 0 {
      CountAtLeast(ths[1..], t - 1, v);
    }
  }

  /** Only thread t is different, and it refers to the same vnodes in the same way. */
  ghost predicate SameRefs(s: State, s': State, t: nat)
    requires t < |s.threads|
  {
    && |s'.threads| == |s.threads| && s'.threads == s.threads[t := s'.threads[t]]
    && s'.vnodes == s.vnodes && s'.table == s.table
    && s'.threads[t].held == s.threads[t].held
    && forall v :: (Pending(s'.threads[t], v) <==> Pending(s.threads[t], v))
                && (Destroying(s'.threads[t], v) <==> Destroying(s.threads[t], v))
  }

  lemma SameRefsCounted(s: State, s': State, t: nat)
    requires Inv(s) && t < |s.threads| && SameRefs(s, s', t)
    ensures forall v :: Counted(s', v)
  {
    forall v
      ensures Counted(s', v)
    {
      assert Counted(s, v);
      CountUpdate(s.threads, t, s'.threads[t], v);
    }
  }

  /**
   The other threads do not notice: the table is the same, or t has the big lock; counts of vnodes being removed are the
   same.
   */
  ghost predicate OthersQuiet(s: State, s': State, t: nat)
    requires t < |s.threads|
  {
    && |s'.threads| == |s.threads| && (forall u | 0 <= u < |s.threads| && u != t :: s'.threads[u] == s.threads[u])
    && (s'.owner == s.owner || ((s.owner < 0 || s.owner == t) && (s'.owner < 0 || s'.owner == t)))
    && ((s'.table == s.table && s'.vnodes.Keys == s.vnodes.Keys
         && forall v | v in s.vnodes :: s'.vnodes[v].ino == s.vnodes[v].ino) || s.owner == t)
  }

  lemma OthersOk(s: State, s': State, t: nat, u: nat)
    requires Inv(s) && t < |s.threads| && OthersQuiet(s, s', t) && u < |s.threads| && u != t
    requires s.threads[u].pc.Removing? && s.owner != t && s.threads[u].pc.v in s.vnodes ==>
               s.threads[u].pc.v in s'.vnodes
                 && s'.vnodes[s.threads[u].pc.v].refcount == s.vnodes[s.threads[u].pc.v].refcount
    ensures ThreadOk(s', u)
  {
    assert ThreadOk(s, u) && ThreadOk(s, t);
    assert forall v :: (v in s.vnodes <==> v in s.vnodes.Keys) && (v in s'.vnodes <==> v in s'.vnodes.Keys);
  }

  /** Steps that only move a thread along, or the big lock. */
  lemma QuietStep(s: State, s': State, t: nat)
    requires Inv(s) && t < |s.threads| && SameRefs(s, s', t) && OthersQuiet(s, s', t) && s'.owner < |s.threads|
    requires ThreadOk(s', t)
    ensures Inv(s')
  {
    SameRefsCounted(s, s', t);
    forall u | 0 <= u < |s'.threads|
      ensures ThreadOk(s', u)
    {
      if u != t {
        OthersOk(s, s', t, u);
      }
    }
  }

  lemma StepLock(s: State, t: nat, pc: PC)
    requires Inv(s) && t < |s.threads| && MayLock(s, t)
    requires (s.threads[t].pc.Running? && pc.Running?) || (s.threads[t].pc.Reclaim? && pc == Check(s.threads[t].pc.v))
    ensures Inv(Lock(s, t, pc))
  {
    assert ThreadOk(s, t);
    QuietStep(s, Lock(s, t, pc), t);
  }

  lemma StepUnlock(s: State, t: nat, pc: PC)
    requires Inv(s) && t < |s.threads| && s.threads[t].depth > 0
    requires (s.threads[t].pc.Running? && pc.Running?) || (s.threads[t].pc.Removed? && pc == Freeing(s.threads[t].pc.v))
    ensures Inv(Unlock(s, t, pc))
  {
    assert ThreadOk(s, t);
    QuietStep(s, Unlock(s, t, pc), t);
  }

  lemma StepLookup(s: State, t: nat, ino: nat)
    requires Inv(s) && t < |s.threads| && s.threads[t].pc.Running? && s.threads[t].depth > 0
    ensures Inv(Exec(s, Lookup(t, ino)))
  {
    assert ThreadOk(s, t);
    var i := Search(s, s.table, ino);
    var s' := Exec(s, Lookup(t, ino));
    if i < |s.table| {
      assert s.table[i] in s.table;
    }
    QuietStep(s, s', t);
  }

  // ---------------------------------------------------------------- references

  /** A vnode that a thread refers to is in the table, and counted. */
  lemma HeldIsCounted(s: State, t: nat, v: Vid)
    requires Inv(s) && t < |s.threads| && (v in s.threads[t].held || Pending(s.threads[t], v))
    ensures v in s.table && v in s.vnodes && s.vnodes[v].refcount > 0
  {
    assert Counted(s, v);
    CountAtLeast(s.threads, t, v);
  }

  /** Nobody is removing a vnode that a thread owns a reference to. */
  lemma HeldNotRemoved(s: State, t: nat, u: nat, v: Vid)
    requires Inv(s) && t < |s.threads| && u < |s.threads| && v in s.threads[t].held
    ensures s.threads[u].pc != Removing(v)
  {
    assert Counted(s, v) && ThreadOk(s, u);
    CountAtLeast(s.threads, t, v);
    CountAtLeast(s.threads, u, v);
  }

  /** The count of v and thread t's references to it change together. */
  ghost predicate RefStep(s: State, s': State, t: nat, v: Vid)
    requires t < |s.threads|
  {
    && |s'.threads| == |s.threads| && s'.threads == s.threads[t := s'.threads[t]]
    && s'.table == s.table && v in s.vnodes && v in s'.vnodes
    && s'.vnodes == s.vnodes[v := s.vnodes[v].(refcount := s'.vnodes[v].refcount)]
    && (forall w | w != v ::
          && s'.threads[t].held[w] == s.threads[t].held[w]
          && (Pending(s'.threads[t], w) <==> Pending(s.threads[t], w)))
    && (forall w :: Destroying(s'.threads[t], w) <==> Destroying(s.threads[t], w))
    && s'.vnodes[v].refcount - s.vnodes[v].refcount
       == s'.threads[t].held[v] - s.threads[t].held[v]
          + Indicator(Pending(s'.threads[t], v)) - Indicator(Pending(s.threads[t], v))
  }

  lemma RefStepCounted(s: State, s': State, t: nat, v: Vid)
    requires Inv(s) && t < |s.threads| && RefStep(s, s', t, v) && v in s.table && s'.vnodes[v].refcount > 0
    requires Pending(s'.threads[t], v) && !Pending(s.threads[t], v) ==> PendingCount(s.threads, v) == 0
    ensures forall w :: Counted(s', w)
  {
    forall w
      ensures Counted(s', w)
    {
      assert Counted(s, w);
      CountUpdate(s.threads, t, s'.threads[t], w);
    }
  }

  lemma RefStepTable(s: State, s': State, t: nat, v: Vid)
    requires Inv(s) && t < |s.threads| && RefStep(s, s', t, v)
    ensures TableOk(s')
  {
  }

  lemma RefStepInv(s: State, s': State, t: nat, v: Vid)
    requires Inv(s) && t < |s.threads| && RefStep(s, s', t, v) && v in s.table && s'.vnodes[v].refcount > 0
    requires Pending(s'.threads[t], v) && !Pending(s.threads[t], v) ==> PendingCount(s.threads, v) == 0
    requires OthersQuiet(s, s', t) && s'.owner < |s.threads| && ThreadOk(s', t)
    requires v in s.threads[t].held || s.owner == t
    ensures Inv(s')
  {
    RefStepCounted(s, s', t, v);
    RefStepTable(s, s', t, v);
    forall u | 0 <= u < |s'.threads|
      ensures ThreadOk(s', u)
    {
      if u != t {
        if s.owner != t {
          HeldNotRemoved(s, t, u, v);
        }
        OthersOk(s, s', t, u);
      }
    }
  }

  lemma StepTakeFound(s: State, t: nat)
    requires Inv(s) && t < |s.threads| && s.threads[t].pc.Found?
    ensures Safe(s, TakeFound(t)) && Inv(Exec(s, TakeFound(t)))
  {
    assert ThreadOk(s, t);
    var v := s.threads[t].pc.v;
    assert Counted(s, v);
    var s' := Exec(s, TakeFound(t));
    RefStepInv(s, s', t, v);
  }

  lemma StepIncref(s: State, t: nat, v: Vid)
    requires Inv(s) && t < |s.threads| && s.threads[t].pc.Running? && v in s.threads[t].held
    ensures Safe(s, Incref(t, v)) && Inv(Exec(s, Incref(t, v)))
  {
    HeldIsCounted(s, t, v);
    assert ThreadOk(s, t);
    RefStepInv(s, Exec(s, Incref(t, v)), t, v);
  }

  /** The decision to reclaim is made with the only reference, so that no other reclaim is pending. */
  lemma StepDecref(s: State, t: nat, v: Vid)
    requires Inv(s) && t < |s.threads| && s.threads[t].pc.Running? && v in s.threads[t].held
    ensures Safe(s, Decref(t, v)) && Inv(Exec(s, Decref(t, v)))
  {
    HeldIsCounted(s, t, v);
    assert ThreadOk(s, t) && Counted(s, v);
    CountAtLeast(s.threads, t, v);
    RefStepInv(s, Exec(s, Decref(t, v)), t, v);
  }

  /** sfs_reclaim looks at the count again, under the big lock. */
  lemma StepCheckCount(s: State, t: nat)
    requires Inv(s) && t < |s.threads| && s.threads[t].pc.Check?
    ensures Safe(s, CheckCount(t)) && Inv(Exec(s, CheckCount(t)))
  {
    var v := s.threads[t].pc.v;
    HeldIsCounted(s, t, v);
    assert ThreadOk(s, t);
    var s' := Exec(s, CheckCount(t));
    if s.vnodes[v].refcount == 1 {
      QuietStep(s, s', t);
    } else {
      RefStepInv(s, s', t, v);
    }
  }

  lemma GiveCounted(s: State, t: nat, u: nat, v: Vid)
    requires Inv(s) && Enabled(s, Give(t, u, v))
    ensures forall w :: Counted(Exec(s, Give(t, u, v)), w)
  {
    var th, uh := s.threads[t].(held := s.threads[t].held - multiset{v}),
      s.threads[u].(held := s.threads[u].held + multiset{v});
    var s1 := SetThread(s, t, th);
    forall w
      ensures Counted(Exec(s, Give(t, u, v)), w)
    {
      assert Counted(s, w);
      CountUpdate(s.threads, t, th, w);
      CountUpdate(s1.threads, u, uh, w);
    }
  }

  lemma StepGive(s: State, t: nat, u: nat, v: Vid)
    requires Inv(s) && Enabled(s, Give(t, u, v))
    ensures Inv(Exec(s, Give(t, u, v)))
  {
    var s' := Exec(s, Give(t, u, v));
    GiveCounted(s, t, u, v);
    forall k | 0 <= k < |s'.threads|
      ensures ThreadOk(s', k)
    {
      assert ThreadOk(s, k);
    }
  }

  // ---------------------------------------------------------------- the table

  lemma CreateTable(s: State, t: nat, v: Vid)
    requires Inv(s) && Enabled(s, Create(t, v))
    ensures TableOk(Exec(s, Create(t, v))) && v !in s.table
  {
    assert ThreadOk(s, t);
    assert v in s.table ==> Counted(s, v);
  }

  lemma CreateCounted(s: State, t: nat, v: Vid)
    requires Inv(s) && Enabled(s, Create(t, v)) && v !in s.table
    ensures forall w :: Counted(Exec(s, Create(t, v)), w)
  {
    var s' := Exec(s, Create(t, v));
    forall w
      ensures Counted(s', w)
    {
      assert Counted(s, w);
      CountUpdate(s.threads, t, s'.threads[t], w);
      assert w in s'.table <==> w in s.table || w == v;
    }
  }

  /** An inode that is not in the table gets a vnode, in the table, with one reference. */
  lemma StepCreate(s: State, t: nat, v: Vid)
    requires Inv(s) && Enabled(s, Create(t, v))
    ensures Inv(Exec(s, Create(t, v)))
  {
    var s' := Exec(s, Create(t, v));
    CreateTable(s, t, v);
    CreateCounted(s, t, v);
    assert ThreadOk(s, t);
    forall u | 0 <= u < |s'.threads|
      ensures ThreadOk(s', u)
    {
      if u != t {
        OthersOk(s, s', t, u);
      }
    }
  }

  lemma TableDistinct(s: State)
    requires TableOk(s)
    ensures Lists.NoDup(s.table)
    ensures forall v, w | v in s.table && w in s.table && v != w ::
            v in s.vnodes && w in s.vnodes && s.vnodes[v].ino != s.vnodes[w].ino
  {
    forall v, w | v in s.table && w in s.table && v != w
      ensures v in s.vnodes && w in s.vnodes && s.vnodes[v].ino != s.vnodes[w].ino
    {
      var i :| 0 <= i < |s.table| && s.table[i] == v;
      var j :| 0 <= j < |s.table| && s.table[j] == w;
    }
  }

  /** A table whose entries are entries of another one is as good. */
  lemma SubTable(s: State, s': State)
    requires TableOk(s) && (forall i, j | 0 <= i < j < |s'.table| :: s'.table[i] != s'.table[j])
    requires forall v | v in s'.table ::
             v in s.table && v in s'.vnodes && v in s.vnodes && s'.vnodes[v].ino == s.vnodes[v].ino
    ensures TableOk(s')
  {
    TableDistinct(s);
    forall i, j | 0 <= i < j < |s'.table|
      ensures s'.vnodes[s'.table[i]].ino != s'.vnodes[s'.table[j]].ino
    {
      assert s'.table[i] in s'.table && s'.table[j] in s'.table;
    }
  }

  lemma RemoveCounted(s: State, t: nat)
    requires Inv(s) && Enabled(s, Remove(t)) && Safe(s, Remove(t))
    ensures forall w :: Counted(Exec(s, Remove(t)), w)
    ensures TableOk(Exec(s, Remove(t)))
  {
    var s', v := Exec(s, Remove(t)), s.threads[t].pc.v;
    TableDistinct(s);
    Lists.RemoveKeeps(s.table, v);
    assert Counted(s, v);
    CountAtLeast(s.threads, t, v);
    forall w
      ensures Counted(s', w)
    {
      assert Counted(s, w);
      CountUpdate(s.threads, t, s'.threads[t], w);
    }
    forall w | w in s'.table
      ensures w in s.vnodes
    {
      assert Counted(s, w);
    }
    SubTable(s, s');
  }

  /** The vnode leaves the table with nobody else referring to it. */
  lemma StepRemove(s: State, t: nat)
    requires Inv(s) && t < |s.threads| && s.threads[t].pc.Removing?
    ensures Safe(s, Remove(t)) && Inv(Exec(s, Remove(t)))
  {
    HeldIsCounted(s, t, s.threads[t].pc.v);
    assert ThreadOk(s, t);
    var s' := Exec(s, Remove(t));
    RemoveCounted(s, t);
    forall u | 0 <= u < |s'.threads|
      ensures ThreadOk(s', u)
    {
      if u != t {
        OthersOk(s, s', t, u);
      }
    }
  }

  lemma FreeCounted(s: State, t: nat)
    requires Inv(s) && Enabled(s, Free(t))
    ensures Safe(s, Free(t)) && s.threads[t].pc.v !in s.table
    ensures forall w :: Counted(Exec(s, Free(t)), w)
  {
    var v := s.threads[t].pc.v;
    assert Counted(s, v);
    CountAtLeast(s.threads, t, v);
    var s' := Exec(s, Free(t));
    forall w
      ensures Counted(s', w)
    {
      assert Counted(s, w);
      CountUpdate(s.threads, t, s'.threads[t], w);
    }
  }

  lemma StepFree(s: State, t: nat)
    requires Inv(s) && Enabled(s, Free(t))
    ensures Safe(s, Free(t)) && Inv(Exec(s, Free(t)))
  {
    FreeCounted(s, t);
    var s', v := Exec(s, Free(t)), s.threads[t].pc.v;
    assert forall i | 0 <= i < |s.table| :: s.table[i] != v;
    forall u | 0 <= u < |s'.threads|
      ensures ThreadOk(s', u)
    {
      assert ThreadOk(s, u);
      if s.threads[u].pc.Removing? {
        HeldIsCounted(s, u, s.threads[u].pc.v);
      }
    }
  }

  lemma StepInv(s: State, a: Action)
    requires Inv(s) && Enabled(s, a)
    ensures Safe(s, a) && Inv(Exec(s, a))
  {
    assert ThreadOk(s, a.t);
    hide Inv;
    match a
    case LockBig(t) => StepLock(s, t, Running);
    case UnlockBig(t) => StepUnlock(s, t, Running);
    case Lookup(t, ino) => StepLookup(s, t, ino);
    case TakeFound(t) => StepTakeFound(s, t);
    case Create(t, v) => StepCreate(s, t, v);
    case Incref(t, v) => StepIncref(s, t, v);
    case Decref(t, v) => StepDecref(s, t, v);
    case Give(t, u, v) => StepGive(s, t, u, v);
    case LockReclaim(t) => StepLock(s, t, Check(s.threads[t].pc.v));
    case CheckCount(t) => StepCheckCount(s, t);
    case Remove(t) => StepRemove(s, t);
    case ReleaseBig(t) => StepUnlock(s, t, Freeing(s.threads[t].pc.v));
    case Free(t) => StepFree(s, t);
  }

  // ---------------------------------------------------------------- runs

  ghost predicate Steps(s: State, acts: seq<Action>, s': State)
    decreases |acts|
  {
    if acts == [] then s' == s
    else Enabled(s, acts[0]) && Safe(s, acts[0]) && Steps(Exec(s, acts[0]), acts[1..], s')
  }

  /** n threads and nothing loaded. */
  function Start(n: nat): State {
    State(map[], [], seq(n, _ => Thread(multiset{}, 0, Running)), -1)
  }

  lemma {:induction false} NoneYet(ths: seq<Thread>, v: Vid)
    requires forall t | 0 <= t < |ths| :: ths[t] == Thread(multiset{}, 0, Running)
    ensures Outstanding(ths, v) == PendingCount(ths, v) == DestroyCount(ths, v) == 0
  {
    if ths != [] {
      NoneYet(ths[1..], v);
    }
  }

  lemma StartInv(n: nat)
    ensures Inv(Start(n))
  {
    forall v
      ensures Counted(Start(n), v)
    {
      NoneYet(Start(n).threads, v);
    }
  }

  lemma {:induction false} StepsInv(s: State, acts: seq<Action>, s': State)
    requires Inv(s) && Steps(s, acts, s')
    ensures Inv(s')
    decreases |acts|
  {
    if acts != [] {
      hide Inv, Exec, Enabled, Safe;
      StepInv(s, acts[0]);
      StepsInv(Exec(s, acts[0]), acts[1..], s');
    }
  }

  ghost predicate Reachable(s: State) {
    exists n, acts :: Steps(Start(n), acts, s)
  }

  lemma ReachableInv(s: State)
    requires Reachable(s)
    ensures Inv(s)
  {
    var n, acts :| Steps(Start(n), acts, s);
    StartInv(n);
    StepsInv(Start(n), acts, s);
  }

  // ---------------------------------------------------------------- what every run guarantees

  /**
   The count is the number of references that threads own, plus the one handed to a pending reclaim; there is at most
   one.
   */
  lemma CountIsExact(s: State, v: Vid)
    requires Reachable(s) && v in s.table
    ensures v in s.vnodes && PendingCount(s.threads, v) <= 1
    ensures s.vnodes[v].refcount == Outstanding(s.threads, v) + PendingCount(s.threads, v)
  {
    ReachableInv(s);
    assert Counted(s, v);
  }

  /** A reference is always good: the vnode is loaded, counted, and not being destroyed. */
  lemma ReferencesAreGood(s: State, t: nat, v: Vid)
    requires Reachable(s) && t < |s.threads| && v in s.threads[t].held
    ensures v in s.table && v in s.vnodes && s.vnodes[v].refcount > 0
    ensures forall u | 0 <= u < |s.threads| :: !Destroying(s.threads[u], v)
  {
    ReachableInv(s);
    HeldIsCounted(s, t, v);
    assert Counted(s, v);
    forall u | 0 <= u < |s.threads|
      ensures !Destroying(s.threads[u], v)
    {
      CountAtLeast(s.threads, u, v);
    }
  }

  /** A vnode is taken out of the table, and freed, only when nobody else refers to it. */
  lemma DestroyedAlone(s: State, t: nat, v: Vid, u: nat)
    requires Reachable(s) && t < |s.threads| && u < |s.threads| && u != t
    requires s.threads[t].pc == Removing(v) || Destroying(s.threads[t], v)
    ensures v !in s.threads[t].held && v !in s.threads[u].held
    ensures !Pending(s.threads[u], v) && !Destroying(s.threads[u], v) && s.threads[u].pc != Found(v)
  {
    ReachableInv(s);
    assert ThreadOk(s, t) && ThreadOk(s, u) && Counted(s, v);
    CountAtLeast(s.threads, t, v);
    CountAtLeast(s.threads, u, v);
    var rest := s.threads[t].(pc := Running);
    CountUpdate(s.threads, t, rest, v);
    CountAtLeast(s.threads[t := rest], u, v);
  }

  /** The table never has two vnodes for one inode. */
  lemma OneVnodePerInode(s: State, i: nat, j: nat)
    requires Reachable(s) && i < |s.table| && j < |s.table|
    ensures s.table[i] in s.vnodes && s.table[j] in s.vnodes
    ensures s.vnodes[s.table[i]].ino == s.vnodes[s.table[j]].ino ==> i == j
  {
    ReachableInv(s);
  }

  /** No step can break an assertion of the source, or use a vnode that was freed. */
  lemma NoAssertionFails(s: State, a: Action)
    requires Reachable(s) && Enabled(s, a)
    ensures Safe(s, a)
  {
    ReachableInv(s);
    StepInv(s, a);
  }

  // ---------------------------------------------------------------- what loading an inode returns

  /** As long as a vnode is loaded it stands for the same inode. */
  lemma InodeStays(s: State, a: Action, v: Vid)
    requires Enabled(s, a) && Safe(s, a) && v in s.vnodes && v in Exec(s, a).vnodes
    ensures Exec(s, a).vnodes[v].ino == s.vnodes[v].ino
  {
  }

  /** The same over every run in which it stays loaded. */
  ghost predicate StaysLoaded(s: State, acts: seq<Action>, v: Vid)
    decreases |acts|
  {
    && v in s.vnodes
    && (acts != [] && Enabled(s, acts[0]) && Safe(s, acts[0]) ==> StaysLoaded(Exec(s, acts[0]), acts[1..], v))
  }

  lemma {:induction false} InodeStaysInRun(s: State, acts: seq<Action>, s': State, v: Vid)
    requires Steps(s, acts, s') && StaysLoaded(s, acts, v)
    ensures v in s'.vnodes && v in s.vnodes && s'.vnodes[v].ino == s.vnodes[v].ino
    decreases |acts|
  {
    if acts != [] {
      hide Enabled, Safe, Exec;
      InodeStaysInRun(Exec(s, acts[0]), acts[1..], s', v);
      InodeStays(s, acts[0], v);
    }
  }

  /** Thread t is in sfs_loadvnode(ino), past the search of the table. */
  ghost predicate Loading(s: State, t: nat, ino: nat) {
    && t < |s.threads|
    && match s.threads[t].pc
       case Found(v) => v in s.vnodes && s.vnodes[v].ino == ino
       case Creating(i) => i == ino
       case _ => false
  }

  lemma LookupLoads(s: State, t: nat, ino: nat)
    requires Inv(s) && Enabled(s, Lookup(t, ino))
    ensures var s' := Exec(s, Lookup(t, ino)); Loading(s', t, ino) && s'.threads[t].held == s.threads[t].held
  {
    var i := Search(s, s.table, ino);
    assert i < |s.table| ==> s.table[i] in s.vnodes;
  }

  /** The references that others give to thread t. */
  function Given(acts: seq<Action>, t: nat): multiset<Vid> {
    if acts == [] then multiset{}
    else (if acts[0].Give? && acts[0].u == t then multiset{acts[0].v} else multiset{}) + Given(acts[1..], t)
  }

  lemma OthersWhileLoading(s: State, a: Action, t: nat, ino: nat)
    requires Inv(s) && Enabled(s, a) && Safe(s, a) && a.t != t && Loading(s, t, ino)
    ensures var s' := Exec(s, a);
            && Loading(s', t, ino)
            && s'.threads[t].held
               == s.threads[t].held + (if a.Give? && a.u == t then multiset{a.v} else multiset{})
  {
    var s' := Exec(s, a);
    PlaceKept(s, a, t);
    if s.threads[t].pc.Found? {
      var v := s.threads[t].pc.v;
      FoundIsLoaded(s, t, v);
      StepInv(s, a);
      FoundIsLoaded(s', t, v);
      InodeStays(s, a, v);
    }
  }

  lemma PlaceKept(s: State, a: Action, t: nat)
    requires Enabled(s, a) && Safe(s, a) && a.t != t && t < |s.threads|
    ensures var s' := Exec(s, a);
            && t < |s'.threads| && s'.threads[t].pc == s.threads[t].pc
            && s'.threads[t].held
               == s.threads[t].held + (if a.Give? && a.u == t then multiset{a.v} else multiset{})
  {
  }

  lemma FoundIsLoaded(s: State, t: nat, v: Vid)
    requires Inv(s) && t < |s.threads| && s.threads[t].pc == Found(v)
    ensures v in s.table && v in s.vnodes
  {
    assert ThreadOk(s, t);
    hide Counted;
  }

  lemma {:induction false} LoadingRun(s: State, acts: seq<Action>, s': State, t: nat, ino: nat)
    requires Inv(s) && Steps(s, acts, s') && Loading(s, t, ino) && forall a | a in acts :: a.t != t
    ensures Inv(s') && Loading(s', t, ino) && s'.threads[t].held == s.threads[t].held + Given(acts, t)
    decreases |acts|
  {
    if acts != [] {
      hide Inv, Enabled, Safe, Exec, Loading;
      assert acts[0] in acts;
      LoadingIndex(s, t, ino);
      OthersWhileLoading(s, acts[0], t, ino);
      StepInv(s, acts[0]);
      assert forall a | a in acts[1..] :: a in acts;
      LoadingIndex(Exec(s, acts[0]), t, ino);
      LoadingRun(Exec(s, acts[0]), acts[1..], s', t, ino);
      LoadingIndex(s', t, ino);
    }
  }

  lemma LoadingIndex(s: State, t: nat, ino: nat)
    requires Loading(s, t, ino)
    ensures t < |s.threads| && !s.threads[t].pc.Running?
  {
  }

  /**
   sfs_loadvnode(ino) hands out a vnode of inode ino.  acts are what other threads do between the search of the table
   and the end of the call, which is t's next step a; of the references that t has then, the ones that it was given in
   the meantime and one to the vnode are new.
   */
  lemma LoadsTheInode(s: State, t: nat, ino: nat, acts: seq<Action>, s1: State, a: Action) returns (v: Vid)
    requires Reachable(s) && Enabled(s, Lookup(t, ino)) && Steps(Exec(s, Lookup(t, ino)), acts, s1)
    requires (forall b | b in acts :: b.t != t) && a.t == t && Enabled(s1, a)
    ensures t < |s1.threads| && !s1.threads[t].pc.Running? && Safe(s1, a)
    ensures var s' := Exec(s1, a);
            && t < |s'.threads| && s'.threads[t].pc.Running?
            && s'.threads[t].held == s.threads[t].held + Given(acts, t) + multiset{v}
            && v in s'.table && v in s'.vnodes && s'.vnodes[v].ino == ino
  {
    hide Reachable, Inv, Loading, Steps, Enabled, Safe, Exec;
    ReachableInv(s);
    StepInv(s, Lookup(t, ino));
    LookupEnabled(s, t, ino);
    LookupLoads(s, t, ino);
    LoadingRun(Exec(s, Lookup(t, ino)), acts, s1, t, ino);
    LoadingIndex(s1, t, ino);
    StepInv(s1, a);
    v := LastStep(s1, a, t, ino);
  }

  lemma LookupEnabled(s: State, t: nat, ino: nat)
    requires Enabled(s, Lookup(t, ino))
    ensures t < |s.threads|
  {
  }

  /** The end of the call. */
  lemma LastStep(s: State, a: Action, t: nat, ino: nat) returns (v: Vid)
    requires Inv(s) && Loading(s, t, ino) && a.t == t && Enabled(s, a) && Safe(s, a)
    ensures t < |s.threads|
    ensures var s' := Exec(s, a);
            && t < |s'.threads| && s'.threads[t].pc.Running? && s'.threads[t].held == s.threads[t].held + multiset{v}
            && v in s'.table && v in s'.vnodes && s'.vnodes[v].ino == ino
  {
    if s.threads[t].pc.Found? {
      v := s.threads[t].pc.v;
      FoundIsLoaded(s, t, v);
    } else {
      v := a.v;
    }
    hide Inv;
  }

  // ---------------------------------------------------------------- what the other steps do

  /** The references of every thread change as the calls say, and by nothing else. */
  lemma ReferencesMove(s: State, a: Action, u: nat)
    requires Reachable(s) && Enabled(s, a) && Safe(s, a) && u < |s.threads|
    ensures var s' := Exec(s, a);
            var was := s.threads[u].held;
            u < |s'.threads| &&
            s'.threads[u].held ==
              match a
              case TakeFound(t) => if u == t then was + multiset{s.threads[t].pc.v} else was
              case Create(t, v) => if u == t then was + multiset{v} else was
              case Incref(t, v) => if u == t then was + multiset{v} else was
              case Decref(t, v) => if u == t then was - multiset{v} else was
              case Give(t, w, v) => if u == t then was - multiset{v} else if u == w then was + multiset{v} else was
              case _ => was
  {
    hide Reachable;
  }

  /** The big lock is recursive: taken and given up as often, and free again at the last. */
  lemma BigLockNests(s: State, a: Action)
    requires Reachable(s) && Enabled(s, a) && Safe(s, a)
    ensures var s', th := Exec(s, a), s.threads[a.t];
            && |s'.threads| == |s.threads|
            && match a
               case LockBig(t) => s'.threads[t].depth == th.depth + 1 && s'.owner == t
               case LockReclaim(t) => s'.threads[t].depth == th.depth + 1 && s'.owner == t
               case UnlockBig(t) => s'.threads[t].depth == th.depth - 1 && (s'.owner < 0 <==> th.depth == 1)
               case ReleaseBig(t) => s'.threads[t].depth == th.depth - 1 && (s'.owner < 0 <==> th.depth == 1)
               case _ => true
  {
    hide Inv;
    ReachableInv(s);
    OwnerIs(s, a.t);
    hide Reachable;
  }

  lemma OwnerIs(s: State, t: nat)
    requires Inv(s) && t < |s.threads|
    ensures s.threads[t].depth > 0 <==> s.owner == t
  {
    assert ThreadOk(s, t);
    hide Counted;
  }

  /** vnode_decref reclaims exactly if it was the last reference. */
  lemma LastDecrefReclaims(s: State, t: nat, v: Vid)
    requires Reachable(s) && Enabled(s, Decref(t, v)) && Safe(s, Decref(t, v))
    ensures var s' := Exec(s, Decref(t, v));
            && t < |s'.threads| && v in s'.vnodes
            && s'.threads[t].pc
               == (if Outstanding(s.threads, v) + PendingCount(s.threads, v) == 1 then Reclaim(v) else Running)
  {
    ReachableInv(s);
    HeldIsCounted(s, t, v);
    assert Counted(s, v);
    hide Reachable;
  }

  /**
   sfs_reclaim with the big lock held: if nobody has taken a reference in the meantime, its next four steps take the
   vnode out of the table and free it; otherwise the next one gives its own reference up and leaves the vnode.
   */
  lemma ReclaimFrees(s: State, t: nat, v: Vid)
    requires Reachable(s) && t < |s.threads| && s.threads[t].pc == Check(v)
    ensures Enabled(s, CheckCount(t)) && Safe(s, CheckCount(t)) && v in s.vnodes
    ensures s.vnodes[v].refcount > 1 ==>
              var s' := Exec(s, CheckCount(t));
              && s'.threads[t].pc == Running && v in s'.vnodes && s'.table == s.table
              && s'.vnodes[v].refcount == s.vnodes[v].refcount - 1
    ensures s.vnodes[v].refcount == 1 ==>
              exists s1, s2, s3, s4 ::
                && s1 == Exec(s, CheckCount(t)) && Next(s1, Remove(t), s2) && Next(s2, ReleaseBig(t), s3)
                && Next(s3, Free(t), s4)
                && v !in s4.vnodes && v !in s4.table && t < |s4.threads| && s4.threads[t].pc == Running
  {
    hide Reachable, Inv;
    ReachableInv(s);
    StepInv(s, CheckCount(t));
    if s.vnodes[v].refcount == 1 {
      var s1 := Exec(s, CheckCount(t));
      StepInv(s1, Remove(t));
      var s2 := Exec(s1, Remove(t));
      Unlisted(s1, t, v);
      StepInv(s2, ReleaseBig(t));
      var s3 := Exec(s2, ReleaseBig(t));
      StepInv(s3, Free(t));
      var s4 := Exec(s3, Free(t));
      assert Next(s1, Remove(t), s2) && Next(s2, ReleaseBig(t), s3) && Next(s3, Free(t), s4);
    }
  }

  ghost predicate Next(s: State, a: Action, s': State) {
    Enabled(s, a) && Safe(s, a) && s' == Exec(s, a)
  }

  lemma Unlisted(s: State, t: nat, v: Vid)
    requires Inv(s) && Enabled(s, Remove(t)) && Safe(s, Remove(t)) && s.threads[t].pc.v == v
    ensures v !in Exec(s, Remove(t)).table
  {
    TableDistinct(s);
    hide Inv;
    Lists.RemoveKeeps(s.table, v);
  }
}
