/**
 The pages of pagerefs of src/kern/vm/kmalloc.c beside the steps of the heap.

 allocpageref sets the bit of a pageref first and gets the page that holds it, if that page is missing, with
 kmalloc_spinlock dropped.  If there is no memory the bit stays set.  freepageref walks over the pages of
 pagerefs up to the right one and asserts that a missing page has no bits set.  This module says when that
 assertion fails.
 */
module KheapRoots {
  import opened KheapSpec

  /** present says which pages of pagerefs exist. */
  datatype State = State(h: Heap, present: seq<bool>)

  datatype Event =
    | Section(a: Action)  // a step of the heap
    | Install(p: nat)     // allocpagerefpage got a page for the call that has set the bit of p

  /** The assertion of freepageref on its way to p. */
  predicate CanFreeRef(present: seq<bool>, inuse: set<nat>, p: nat)
    requires |present| == ROOTS && p < REFS
  {
    forall k | k in inuse && k / PER_PAGE < p / PER_PAGE :: present[k / PER_PAGE]
  }

  ghost predicate Ok(s: State) {
    && Inv(s.h) && |s.present| == ROOTS
    && (forall p | p in s.h.pages && p < REFS :: s.present[p / PER_PAGE])
  }

  /** x is the last live block of the page of p, and p cannot be freed. */
  ghost predicate PanicsOn(s: State, p: nat, x: nat)
    requires |s.present| == ROOTS
  {
    && BlockOf(s.h, p, x) && p < REFS
    && LiveOn(s.h, s.h.pages[p]) == {x - s.h.pages[p].addr}
    && !CanFreeRef(s.present, s.h.inuse, p)
  }

  /** Freeing x breaks the assertion. */
  ghost predicate Panics(s: State, x: nat)
    requires |s.present| == ROOTS
  {
    exists p: nat :: PanicsOn(s, p, x)
  }

  ghost predicate CanStep(s: State, e: Event) {
    && |s.present| == ROOTS
    && match e
       case Section(a) =>
         && CanExec(s.h, a)
         && (a.AddPage? ==> a.p < REFS && s.present[a.p / PER_PAGE])
         && (a.Free? ==> !Panics(s, a.x))
       case Install(p) => p in s.h.inuse && p !in s.h.pages && p < REFS
  }

  function Next(s: State, e: Event): State
    requires e.Section? ==> CanExec(s.h, e.a)
    requires e.Install? ==> e.p / PER_PAGE < |s.present|
  {
    match e
    case Section(a) => s.(h := Exec(s.h, a))
    case Install(p) => s.(present := s.present[p / PER_PAGE := true])
  }

  ghost predicate Runs(s: State, es: seq<Event>, s': State)
    decreases |es|
  {
    if es == [] then s' == s
    else CanStep(s, es[0]) && Runs(Next(s, es[0]), es[1..], s')
  }

  function Boot(): State {
    State(Empty(), seq(ROOTS, _ => false))
  }

  // ---------------------------------------------------------------- every event keeps the invariant

  lemma PagesOfStep(h: Heap, a: Action, p: nat)
    requires Inv(h) && CanExec(h, a) && p in Exec(h, a).pages
    ensures p in h.pages || (a.AddPage? && p == a.p)
  {
    if a.Free? {
      hide Inv;
      FreeEffect(h, a.x, Owner(h, a.x));
    }
  }

  lemma StepOk(s: State, e: Event)
    requires Ok(s) && CanStep(s, e)
    ensures Ok(Next(s, e))
  {
    hide Inv, Exec, CanExec, Panics;
    if e.Section? {
      StepInvAt(s.h, e.a);
      forall p | p in Next(s, e).h.pages && p < REFS
        ensures s.present[p / PER_PAGE]
      {
        PagesOfStep(s.h, e.a, p);
      }
    }
  }

  lemma StepInvAt(h: Heap, a: Action)
    requires Inv(h) && CanExec(h, a)
    ensures Inv(Exec(h, a))
  {
    hide Inv, Exec;
    StepInv(h, a);
  }

  lemma BootOk()
    ensures Ok(Boot())
  {
    EmptyInv();
  }

  lemma {:induction false} RunsOk(s: State, es: seq<Event>, s': State)
    requires Ok(s) && Runs(s, es, s')
    ensures Ok(s')
    decreases |es|
  {
    hide Ok, Panics, CanExec, Exec;
    if es != [] {
      StepOk(s, es[0]);
      RunsOk(Next(s, es[0]), es[1..], s');
    }
  }

  /** The heap's own steps of a run. */
  function Sections(es: seq<Event>): seq<Action> {
    if es == [] then [] else (if es[0].Section? then [es[0].a] else []) + Sections(es[1..])
  }

  /** What is proved of every run of the heap holds of the heap here. */
  lemma {:induction false} RunsAreSteps(s: State, es: seq<Event>, s': State)
    requires Runs(s, es, s')
    ensures Steps(s.h, Sections(es), s'.h)
    decreases |es|
  {
    if es != [] {
      hide CanExec, Exec, Panics;
      RunsAreSteps(Next(s, es[0]), es[1..], s');
      if es[0].Section? {
        assert Sections(es)[0] == es[0].a && Sections(es)[1..] == Sections(es[1..]);
      } else {
        assert Sections(es) == Sections(es[1..]);
      }
    }
  }

  /** In every run from boot the heap is a reachable one, and a listed pageref is on a page that exists. */
  lemma ListedExist(es: seq<Event>, s: State, p: nat)
    requires Runs(Boot(), es, s)
    ensures Reachable(s.h) && |s.present| == ROOTS
    ensures p in s.h.pages ==> p < REFS && p in s.h.inuse && s.present[p / PER_PAGE]
  {
    hide Runs, Steps;
    BootOk();
    RunsOk(Boot(), es, s);
    RunsAreSteps(Boot(), es, s);
  }

  // ---------------------------------------------------------------- when the assertion holds

  /** Below a pageref in use no page of pagerefs is missing. */
  ghost predicate Stacked(s: State) {
    && |s.present| == ROOTS
    && (forall k, r | k in s.h.inuse && 0 <= r < k / PER_PAGE && r < ROOTS :: s.present[r])
  }

  /** The guard of allocpageref: every page of pagerefs before the first with a clear bit exists. */
  predicate Guard(s: State) {
    && |s.present| == ROOTS
    && (forall r | 0 <= r < LeastUnused(s.h.inuse, 0) / PER_PAGE :: s.present[r])
  }

  /** Reserving a pageref keeps the order exactly under the guard. */
  lemma ReserveStacked(s: State)
    requires Stacked(s) && Enabled(s.h, Reserve)
    ensures Stacked(Next(s, Section(Reserve))) <==> Guard(s)
  {
    var p := LeastUnused(s.h.inuse, 0);
    var s' := Next(s, Section(Reserve));
    assert p in s'.h.inuse;
    if Stacked(s') {
      forall r | 0 <= r < p / PER_PAGE
        ensures s.present[r]
      {
        assert s'.present[r];
      }
    }
  }

  lemma InuseOfStep(h: Heap, a: Action, k: nat)
    requires Inv(h) && CanExec(h, a) && !a.Reserve? && k in Exec(h, a).inuse
    ensures k in h.inuse
  {
    if a.Free? {
      hide Inv;
      FreeEffect(h, a.x, Owner(h, a.x));
    }
  }

  /** Every other event keeps the order. */
  lemma StepStacked(s: State, e: Event)
    requires Ok(s) && Stacked(s) && CanStep(s, e)
    requires e == Section(Reserve) ==> Guard(s)
    ensures Stacked(Next(s, e))
  {
    hide Inv, Panics, Exec, Guard;
    if e == Section(Reserve) {
      ReserveStacked(s);
    } else if e.Section? {
      var s' := Next(s, e);
      forall k, r | k in s'.h.inuse && 0 <= r < k / PER_PAGE && r < ROOTS
        ensures s'.present[r]
      {
        InuseOfStep(s.h, e.a, k);
      }
    }
  }

  /** With the order kept, nothing that can be freed panics. */
  lemma StackedIsSafe(s: State, x: nat)
    requires Ok(s) && Stacked(s)
    ensures !Panics(s, x)
  {
    forall p: nat | p in s.h.pages && p < REFS
      ensures CanFreeRef(s.present, s.h.inuse, p)
    {
      assert p in s.h.inuse;
    }
  }

  /** Every allocpageref of a run meets its guard. */
  ghost predicate Guarded(s: State, es: seq<Event>)
    decreases |es|
  {
    es == [] ||
    (CanStep(s, es[0]) && (es[0] == Section(Reserve) ==> Guard(s)) && Guarded(Next(s, es[0]), es[1..]))
  }

  lemma {:induction false} RunsStacked(s: State, es: seq<Event>, s': State)
    requires Ok(s) && Stacked(s) && Runs(s, es, s') && Guarded(s, es)
    ensures Ok(s') && Stacked(s')
    decreases |es|
  {
    hide Ok, Stacked, Panics, CanExec, Exec, Guard;
    if es != [] {
      StepOk(s, es[0]);
      StepStacked(s, es[0]);
      RunsStacked(Next(s, es[0]), es[1..], s');
    }
  }

  /** A run from boot in which every allocpageref meets its guard never panics in freepageref. */
  lemma GuardedIsSafe(es: seq<Event>, s: State, x: nat)
    requires Runs(Boot(), es, s) && Guarded(Boot(), es)
    ensures |s.present| == ROOTS && !Panics(s, x)
  {
    BootOk();
    RunsStacked(Boot(), es, s);
    StackedIsSafe(s, x);
  }

  // ---------------------------------------------------------------- when it fails

  /** The pageref that the next allocpageref takes, if there is one. */
  function Taken(s: State): nat {
    LeastUnused(s.h.inuse, 0)
  }

  /** A call gets a page and takes a pageref, whose page of pagerefs arrives if it was missing. */
  function Getting(s: State, page: nat): seq<Event>
    requires |s.present| == ROOTS && Taken(s) < REFS
  {
    [Section(GetPage(page)), Section(Reserve)] + (if s.present[Taken(s) / PER_PAGE] then [] else [Install(Taken(s))])
  }

  /** A whole call: it also enters its new page. */
  function WholeCall(s: State, page: nat, sz: nat): seq<Event>
    requires |s.present| == ROOTS && Taken(s) < REFS
  {
    Getting(s, page) + [Section(AddPage(page, Taken(s), sz))]
  }

  function AfterReserve(s: State, page: nat): State
    requires |s.present| == ROOTS && Taken(s) < REFS
  {
    State(s.h.(inuse := s.h.inuse + {Taken(s)}, transit := s.h.transit + {page}),
          s.present[Taken(s) / PER_PAGE := true])
  }

  /** Whether the pageref can be freed again is decided when it is taken. */
  lemma FreeableIffGuard(s: State, page: nat)
    requires |s.present| == ROOTS && Taken(s) < REFS
    ensures var t := AfterReserve(s, page); CanFreeRef(t.present, t.h.inuse, Taken(s)) <==> Guard(s)
  {
    var t, p := AfterReserve(s, page), Taken(s);
    if CanFreeRef(t.present, t.h.inuse, p) {
      forall r | 0 <= r < p / PER_PAGE
        ensures s.present[r]
      {
        assert r * PER_PAGE in t.h.inuse && r * PER_PAGE / PER_PAGE == r;
      }
    }
  }

  /** The first block of a new page. */
  lemma FirstOfNew(h: Heap, page: nat, p: nat, sz: nat) returns (off: nat)
    requires Inv(h) && Enabled(h, AddPage(page, p, sz)) && |h.same| == NSIZES
    ensures var b := BlockType(sz);
            var h' := TakeBlock(Link(h, page, p, b), p, sz);
            && IsBlock(b, off) && p in h'.pages && h'.pages[p].addr == page && h'.pages[p].blk == b
            && |h'.pages[p].free| + 1 == Blocks(b)
            && page + off !in h.live && h'.live == h.live[page + off := sz] && h'.inuse == h.inuse
  {
    hide Inv, FreeListOk;
    var b := BlockType(sz);
    LinkFree(h, page, p, b);
    var h1 := Link(h, page, p, b);
    TakenFresh(h1, p, sz);
    off := h1.pages[p].free[0];
    BlockAt(b, Blocks(b) - 1);
  }

  /** A page that was just entered has one live block. */
  lemma EnteredPage(h: Heap, page: nat, p: nat, sz: nat) returns (x: nat)
    requires Inv(h) && Enabled(h, AddPage(page, p, sz))
    ensures CanExec(h, AddPage(page, p, sz)) && Inv(Exec(h, AddPage(page, p, sz)))
    ensures var h' := Exec(h, AddPage(page, p, sz));
            && x !in h.live && h'.live == h.live[x := sz] && h'.inuse == h.inuse
            && BlockOf(h', p, x) && |h'.pages[p].free| + 1 == Blocks(h'.pages[p].blk)
  {
    hide Inv, Link, TakeBlock, Blocks;
    AddPageInv(h, page, p, sz);
    var off := FirstOfNew(h, page, p, sz);
    x := page + off;
  }

  /** Freeing a block panics exactly if it makes its page fully free and the page's pageref cannot be freed. */
  lemma PanicsAt(s: State, p: nat, x: nat)
    requires Ok(s) && BlockOf(s.h, p, x)
    ensures p < REFS
    ensures Panics(s, x) <==>
            |s.h.pages[p].free| + 1 == Blocks(s.h.pages[p].blk) && !CanFreeRef(s.present, s.h.inuse, p)
  {
    hide Inv, LiveOn, CanFreeRef, Blocks, BlockOf;
    ListedInRange(s.h, p, x);
    LastOfPage(s.h, p, x);
    assert PanicsOn(s, p, x) ==> Panics(s, x);
    if Panics(s, x) {
      var q: nat :| PanicsOn(s, q, x);
      FindsOwner(s.h, x, p);
      FindsOwner(s.h, x, q);
    }
  }

  lemma LastOfPage(h: Heap, p: nat, x: nat)
    requires Inv(h) && BlockOf(h, p, x)
    ensures p in h.pages && h.pages[p].blk < NSIZES
    ensures |h.pages[p].free| + 1 == Blocks(h.pages[p].blk) <==> LiveOn(h, h.pages[p]) == {x - h.pages[p].addr}
  {
    hide Inv, LiveOn, Blocks, IsBlock, PageOk;
    PageIsOk(h, p);
    LastBlock(h, h.pages[p], x - h.pages[p].addr);
  }

  lemma ListedInRange(h: Heap, p: nat, x: nat)
    requires Inv(h) && BlockOf(h, p, x)
    ensures p in h.pages && p in h.inuse && p < REFS
  {
  }

  lemma ReserveRuns(s: State, page: nat)
    requires Ok(s) && Enabled(s.h, Reserve) && Unowned(s.h, page, 1)
    ensures Taken(s) < REFS && Taken(s) !in s.h.pages && Ok(AfterReserve(s, page))
    ensures Runs(s, Getting(s, page), AfterReserve(s, page))
  {
    hide Inv;
    var p := Taken(s);
    var e1, e2, e3 := Section(GetPage(page)), Section(Reserve), Install(p);
    TakenIsNew(s.h);
    StepOk(s, e1);
    var s1 := Next(s, e1);
    StepOk(s1, e2);
    var s2 := Next(s1, e2);
    hide Runs;
    RunsOne(s, e1);
    RunsMore(s, [e1], s1, e2);
    assert [e1] + [e2] == [e1, e2];
    if s.present[p / PER_PAGE] {
      assert s2 == AfterReserve(s, page);
      assert Getting(s, page) == [e1, e2];
    } else {
      StepOk(s2, e3);
      assert Next(s2, e3) == AfterReserve(s, page);
      RunsMore(s, [e1, e2], s2, e3);
    }
  }

  lemma RunsOne(s: State, e: Event)
    requires CanStep(s, e)
    ensures Runs(s, [e], Next(s, e))
  {
    assert Runs(Next(s, e), [e][1..], Next(s, e));
  }

  lemma TakenIsNew(h: Heap)
    requires Inv(h) && Enabled(h, Reserve)
    ensures LeastUnused(h.inuse, 0) !in h.inuse && LeastUnused(h.inuse, 0) !in h.pages
  {
  }

  /**
   A call takes a pageref and its new page of blocks is the one freed next: freepageref panics exactly if the
   guard of allocpageref did not hold.
   */
  lemma PanicsIffUnguarded(s: State, page: nat, sz: nat) returns (s': State, x: nat)
    requires Ok(s) && Enabled(s.h, Reserve) && Unowned(s.h, page, 1) && sz < LARGEST
    ensures Taken(s) < REFS && Runs(s, WholeCall(s, page, sz), s') && Ok(s')
    ensures x !in s.h.live && s'.h.live == s.h.live[x := sz]
    ensures Panics(s', x) <==> !Guard(s)
  {
    hide Inv, Panics, Guard, Runs, Getting, BlockOf, LiveOn, CanFreeRef, Unowned;
    ReserveRuns(s, page);
    var t, p := AfterReserve(s, page), Taken(s);
    x := EnteredPage(t.h, page, p, sz);
    var e := Section(AddPage(page, p, sz));
    s' := Next(t, e);
    StepOk(t, e);
    RunsMore(s, Getting(s, page), t, e);
    FreeableIffGuard(s, page);
    PanicsAt(s', p, x);
  }

  // ---------------------------------------------------------------- a run that panics

  function Below(n: nat): (b: set<nat>)
    ensures forall k: nat :: k in b <==> k < n
  {
    if n == 0 then {} else Below(n - 1) + {n - 1}
  }

  /** The state after n calls that did not get the first page of pagerefs. */
  function Failed(n: nat): State {
    Boot().(h := Empty().(inuse := Below(n)))
  }

  /** n calls that get a page, take a pageref, do not get the page for it, and give their own page back. */
  function FailingCalls(n: nat, page: nat): seq<Event> {
    if n == 0 then []
    else FailingCalls(n - 1, page) + [Section(GetPage(page))] + [Section(Reserve)] + [Section(GiveBack(page))]
  }

  lemma {:induction false} FailedCalls(n: nat, page: nat)
    requires n <= PER_PAGE && page > 0 && page % PAGE == 0
    ensures Runs(Boot(), FailingCalls(n, page), Failed(n)) && Ok(Failed(n)) && Taken(Failed(n)) == n
  {
    hide Ok, Boot, Inv;
    LeastOfFirst(n, 0);
    if n == 0 {
      BootOk();
      assert Failed(0) == Boot();
    } else {
      FailedCalls(n - 1, page);
      FailsAgain(n, page);
      hide Runs, CanStep, Failed, Next;
      var es, s0 := FailingCalls(n - 1, page), Failed(n - 1);
      var e1, e2, e3 := Section(GetPage(page)), Section(Reserve), Section(GiveBack(page));
      var s1 := Next(s0, e1);
      RunsMore(Boot(), es, s0, e1);
      RunsMore(Boot(), es + [e1], s1, e2);
      RunsMore(Boot(), es + [e1] + [e2], Next(s1, e2), e3);
    }
  }

  lemma FailsAgain(n: nat, page: nat)
    requires 0 < n <= PER_PAGE && Ok(Failed(n - 1)) && Taken(Failed(n - 1)) == n - 1 && page > 0 && page % PAGE == 0
    ensures var s0, e1, e2, e3 := Failed(n - 1), Section(GetPage(page)), Section(Reserve), Section(GiveBack(page));
            && CanStep(s0, e1) && CanStep(Next(s0, e1), e2) && CanStep(Next(Next(s0, e1), e2), e3)
            && Next(Next(Next(s0, e1), e2), e3) == Failed(n) && Ok(Failed(n))
  {
    hide Inv;
    var s0, e1, e2, e3 := Failed(n - 1), Section(GetPage(page)), Section(Reserve), Section(GiveBack(page));
    StepOk(s0, e1);
    StepOk(Next(s0, e1), e2);
    StepOk(Next(Next(s0, e1), e2), e3);
    assert {page} - {page} == {};
  }

  lemma {:induction false} LeastOfFirst(n: nat, k: nat)
    requires k <= n <= REFS
    ensures LeastUnused(Below(n), k) == n
    decreases n - k
  {
    if k < n {
      LeastOfFirst(n, k + 1);
    }
  }

  lemma {:induction false} RunsMore(s: State, es: seq<Event>, s': State, e: Event)
    requires Runs(s, es, s') && CanStep(s', e)
    ensures Runs(s, es + [e], Next(s', e))
    decreases |es|
  {
    hide CanExec, Exec, Panics;
    if es == [] {
      assert Runs(Next(s, e), [], Next(s, e));
      assert ([] + [e])[1..] == [];
    } else {
      RunsMore(Next(s, es[0]), es[1..], s', e);
      assert (es + [e])[1..] == es[1..] + [e];
    }
  }

  /**
   256 calls, one after the other, that do not get the first page of pagerefs; then one that gets everything it
   asks for.  Freeing what that call returned panics.
   */
  lemma AfterFailures(page: nat, sz: nat) returns (s: State, s': State, x: nat)
    requires page > 0 && page % PAGE == 0 && sz < LARGEST
    ensures Runs(Boot(), FailingCalls(PER_PAGE, page), s) && s.h.live == map[] && s.h.pages == map[]
    ensures |s.present| == ROOTS && Taken(s) < REFS
    ensures Runs(s, WholeCall(s, page, sz), s') && s'.h.live == map[x := sz]
    ensures |s'.present| == ROOTS && Panics(s', x)
  {
    hide Inv, Runs, Panics, Getting, FailingCalls;
    FailedCalls(PER_PAGE, page);
    s := Failed(PER_PAGE);
    assert !Guard(s) by {
      assert !s.present[0];
    }
    s', x := PanicsIffUnguarded(s, page, sz);
  }
}
