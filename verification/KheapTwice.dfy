/**
 Freeing a block twice (src/kern/vm/kmalloc.c).

 subpage_kfree compares the block with the head of its page's free list only.  Kheap says what its writes leave
 when the block is on the list further down; this module says what follows from that.
 */
module KheapTwice {
  import opened KheapSpec
  import opened Kheap

  // ---------------------------------------------------------------- a free list that is a loop

  /** Allocations from one page get ptrs, one after the other; mems are the memories that they find. */
  ghost predicate Takes(r: Ref, mems: seq<map<nat, nat>>, ptrs: seq<nat>, r': Ref)
    requires |mems| == |ptrs|
    decreases |ptrs|
  {
    if ptrs == [] then r' == r
    else
      && ptrs[0] == PageAddr(r) + r.off && ptrs[0] in mems[0] && TakeOk(r, mems[0][ptrs[0]])
      && Takes(AfterTake(r, mems[0][ptrs[0]]), mems[1..], ptrs[1..], r')
  }

  /** The addresses of the blocks c[j..]. */
  function Addresses(page: nat, c: seq<nat>, j: nat): (q: seq<nat>)
    requires j <= |c|
    ensures |q| == |c| - j && forall k | 0 <= k < |q| :: q[k] == page + c[j + k]
    decreases |c| - j
  {
    if j == |c| then [] else [page + c[j]] + Addresses(page, c, j + 1)
  }

  /** The words of c[j..] lead on around the circle, each at the time when its block is taken. */
  ghost predicate LeadsOn(mems: seq<map<nat, nat>>, page: nat, c: seq<nat>, j: nat) {
    && j <= |c| && |mems| == |c| - j
    && forall k | j <= k < |c| ::
         page + c[k] in mems[k - j] && mems[k - j][page + c[k]] == page + Around(c, k + 1)
  }

  lemma AroundOne(r: Ref, mems: seq<map<nat, nat>>, page: nat, c: seq<nat>, j: nat) returns (r1: Ref)
    requires page > 0 && j < |c| && (forall k | 0 <= k < |c| :: c[k] < PAGE) && LeadsOn(mems, page, c, j)
    requires PageAddr(r) == page && r.off == c[j] && r.nfree > 1
    ensures page + c[j] in mems[0] && TakeOk(r, mems[0][page + c[j]]) && r1 == AfterTake(r, mems[0][page + c[j]])
    ensures PageAddr(r1) == page && r1.off == Around(c, j + 1) && r1.nfree == r.nfree - 1
    ensures LeadsOn(mems[1..], page, c, j + 1)
  {
    r1 := AfterTake(r, mems[0][page + c[j]]);
    assert PageAddr(r1) == PageAddr(r);
    hide PageAddr;
  }

  /** Going around the circle from position j. */
  lemma {:induction false} AroundFrom(r: Ref, mems: seq<map<nat, nat>>, page: nat, c: seq<nat>, j: nat)
    returns (r': Ref)
    requires page > 0 && c != [] && (forall k | 0 <= k < |c| :: c[k] < PAGE) && LeadsOn(mems, page, c, j)
    requires PageAddr(r) == page && r.off == Around(c, j) && r.nfree > |c| - j
    ensures |mems| == |c| - j && Takes(r, mems, Addresses(page, c, j), r')
    ensures PageAddr(r') == page && r'.off == c[0] && r'.nfree == r.nfree - (|c| - j)
    decreases |c| - j
  {
    hide PageAddr, TakeOk, AfterTake;
    assert |mems| == |c| - j;
    hide LeadsOn;
    if j == |c| {
      r' := r;
    } else {
      var r1 := AroundOne(r, mems, page, c, j);
      r' := AroundFrom(r1, mems[1..], page, c, j + 1);
      var ptr, q := page + c[j], Addresses(page, c, j + 1);
      assert Addresses(page, c, j) == [ptr] + q;
      hide Takes, Addresses;
      TakesFirst(r, mems, ptr, q, r1, r');
    }
  }

  lemma TakesFirst(r: Ref, mems: seq<map<nat, nat>>, ptr: nat, q: seq<nat>, r1: Ref, r': Ref)
    requires |mems| == |q| + 1 && ptr == PageAddr(r) + r.off && ptr in mems[0] && TakeOk(r, mems[0][ptr])
    requires r1 == AfterTake(r, mems[0][ptr]) && Takes(r1, mems[1..], q, r')
    ensures Takes(r, mems, [ptr] + q, r')
  {
    hide PageAddr, TakeOk;
    assert ([ptr] + q)[1..] == q;
  }

  /** Until its block is taken, nobody writes into a word of the circle. */
  ghost predicate Untouched(mem: map<nat, nat>, mems: seq<map<nat, nat>>, page: nat, c: seq<nat>) {
    && |mems| == |c|
    && forall j, k | 0 <= j <= k < |c| && page + c[k] in mem ::
         page + c[k] in mems[j] && mems[j][page + c[k]] == mem[page + c[k]]
  }

  lemma AgainInPage(h: Heap, p: nat, x: nat, i: nat)
    requires Inv(h) && FreeAgain(h, p, x) && i < |h.pages[p].free|
    ensures h.pages[p].addr > 0 && forall k | 0 <= k < |Cycle(h.pages[p].free, i)| ::
            Cycle(h.pages[p].free, i)[k] < PAGE
  {
    hide Inv;
    Aligned(h, p);
    forall k | 0 <= k < |Cycle(h.pages[p].free, i)|
      ensures Cycle(h.pages[p].free, i)[k] < PAGE
    {
      FreeIsBlock(h, p, Cycle(h.pages[p].free, i)[k]);
    }
  }

  /**
   A free block x that is not at the head, entry i of its page's free list, was freed again and the page not given
   back.  The next i + 1 allocations from the page get x and the i blocks freed after it, whatever the clients write
   into the blocks that they get.  Then x is at the head again although it is in use.  The allocation after that gets x
   a second time exactly if the word v that x then holds is an address on the page and x was not the last of the list,
   or v is 0 and x was the last; otherwise an assertion of subpage_kmalloc fails.
   */
  lemma HandedOutAgain(refs: seq<Ref>, refs': seq<Ref>, mem: map<nat, nat>, mem': map<nat, nat>, h: Heap,
                       p: nat, x: nat, i: nat, mems: seq<map<nat, nat>>)
    returns (r': Ref)
    requires Inv(h) && PageRep(refs, mem, h) && FreeAgain(h, p, x) && Loops(refs, refs', mem', h, p, x)
    requires i < |h.pages[p].free| && h.pages[p].free[i] == x - h.pages[p].addr
    requires Untouched(mem', mems, h.pages[p].addr, Cycle(h.pages[p].free, i))
    ensures i > 0 && Addresses(h.pages[p].addr, Cycle(h.pages[p].free, i), 0)[0] == x
    ensures Takes(refs'[p], mems, Addresses(h.pages[p].addr, Cycle(h.pages[p].free, i), 0), r')
    ensures PageAddr(r') == h.pages[p].addr && PageAddr(r') + r'.off == x
    ensures forall v: nat :: TakeOk(r', v) <==>
              if v == 0 then i + 1 == |h.pages[p].free|
              else i + 1 < |h.pages[p].free| && h.pages[p].addr <= v < h.pages[p].addr + PAGE
  {
    hide Inv, PageRep, Looped, Untouched, FreeAgain, PageAddr, RefType, Takes, TakeOk, Cycle;
    AgainInPage(h, p, x, i);
    AgainStart(refs, refs', mem, mem', h, p, x, i);
    CycleAt(h.pages[p].free, i, 0);
    r' := CircleTaken(refs'[p], mem', mems, h.pages[p].addr, Cycle(h.pages[p].free, i));
    LastTake(r', h.pages[p].addr, |h.pages[p].free| - i);
  }

  /** The pageref and the circle that the second free leaves. */
  lemma AgainStart(refs: seq<Ref>, refs': seq<Ref>, mem: map<nat, nat>, mem': map<nat, nat>, h: Heap, p: nat, x: nat,
                   i: nat)
    requires PageRep(refs, mem, h) && FreeAgain(h, p, x) && Loops(refs, refs', mem', h, p, x)
    requires i < |h.pages[p].free| && h.pages[p].free[i] == x - h.pages[p].addr
    ensures i > 0 && Looped(mem', h.pages[p].addr, Cycle(h.pages[p].free, i)) && |Cycle(h.pages[p].free, i)| == i + 1
    ensures PageAddr(refs'[p]) == h.pages[p].addr && refs'[p].off == x - h.pages[p].addr
    ensures refs'[p].nfree == |h.pages[p].free| + 1
  {
    hide PageRep, Looped;
    TypeOf(refs, mem, h, p);
  }

  /** Allocations that go once around the circle. */
  lemma CircleTaken(r: Ref, mem: map<nat, nat>, mems: seq<map<nat, nat>>, page: nat, c: seq<nat>) returns (r': Ref)
    requires page > 0 && c != [] && (forall k | 0 <= k < |c| :: c[k] < PAGE)
    requires Looped(mem, page, c) && Untouched(mem, mems, page, c)
    requires PageAddr(r) == page && r.off == c[0] && r.nfree > |c|
    ensures |mems| == |c| && Takes(r, mems, Addresses(page, c, 0), r')
    ensures PageAddr(r') == page && r'.off == c[0] && r'.nfree == r.nfree - |c|
  {
    hide Looped, Takes, PageAddr;
    assert |mems| == |c|;
    hide Untouched, LeadsOn;
    CircleLeadsOn(mem, mems, page, c);
    r' := AroundFrom(r, mems, page, c, 0);
  }

  lemma LastTake(r: Ref, page: nat, n: nat)
    requires PageAddr(r) == page && r.off < PAGE && r.nfree == n > 0
    ensures forall v: nat :: TakeOk(r, v) <==> if v == 0 then n == 1 else n > 1 && page <= v < page + PAGE
  {
    hide PageAddr;
  }

  lemma CircleLeadsOn(mem: map<nat, nat>, mems: seq<map<nat, nat>>, page: nat, c: seq<nat>)
    requires Looped(mem, page, c) && Untouched(mem, mems, page, c)
    ensures LeadsOn(mems, page, c, 0)
  {
  }

  // ---------------------------------------------------------------- a page given back too early

  /** A page whose free list lacks one block has one live block. */
  lemma OneLive(h: Heap, p: nat) returns (y: nat)
    requires Inv(h) && LastAgain(h, p)
    ensures y in h.live && OnPage(h.pages[p], y)
  {
    hide Inv, Blocks, IsBlock, PageOk, FreeListOk;
    PageIsOk(h, p);
    FreePlus(h, h.pages[p]);
    var off :| off in LiveOn(h, h.pages[p]);
    AllBlocksCount(h.pages[p].blk);
    y := h.pages[p].addr + off;
    OffsetInPage(h.pages[p].blk, off);
  }

  lemma FreePlus(h: Heap, pg: Page)
    requires PageOk(h, pg) && |pg.free| + 1 == Blocks(pg.blk)
    ensures LiveOn(h, pg) != {}
  {
    hide Blocks, LiveOn;
    FreePlusLive(h, pg);
  }

  lemma OffsetInPage(b: nat, off: nat)
    requires b < NSIZES && IsBlock(b, off)
    ensures off < PAGE
  {
  }

  /**
   If the second free makes the page count as fully free, the page is given back while a block y on it is live.  After
   that alloc_kpages may hand the page out: to the next big allocation, say, which then overlaps y.
   */
  lemma GivenBackLive(h: Heap, p: nat, x: nat) returns (y: nat)
    requires Inv(h) && FreeAgain(h, p, x) && LastAgain(h, p)
    ensures y in h.live && OnPage(h.pages[p], y) && y != x && |h.same| == NSIZES
    ensures var h' := Unlink(h, p);
            && y in h'.live && !Inv(h') && (forall q: nat :: !BlockOf(h', q, y))
            && CanExec(h', GiveBack(h.pages[p].addr))
            && Enabled(Exec(h', GiveBack(h.pages[p].addr)), AllocBig(h.pages[p].addr, LARGEST))
  {
    y := OneLive(h, p);
    assert |h.same| == NSIZES;
    hide Inv;
    AgainIsFree(h, p, x);
    hide FreeAgain, LastAgain, IsBlock;
    Aligned(h, p);
    NoPageOf(h, p, y);
    PageIsFree(h, p);
  }

  lemma NoPageOf(h: Heap, p: nat, y: nat)
    requires Inv(h) && p in h.pages && h.pages[p].blk < |h.same| && y in h.live && OnPage(h.pages[p], y)
    ensures var h' := Unlink(h, p); !Inv(h') && forall q: nat :: !BlockOf(h', q, y)
  {
    var h' := Unlink(h, p);
    forall q: nat
      ensures !BlockOf(h', q, y)
    {
      if BlockOf(h', q, y) {
        hide Inv, IsBlock;
        OnePageOnly(h, p, q, y);
      }
    }
    assert y in h'.live;
    hide ListsOk, PagesOk, Apart, BlockOf;
  }

  /** Nobody but the page itself owns it. */
  lemma PageIsFree(h: Heap, p: nat)
    requires Inv(h) && p in h.pages && h.pages[p].blk < |h.same|
    requires h.pages[p].addr % PAGE == 0 && h.pages[p].addr > 0
    ensures var h', page := Unlink(h, p), h.pages[p].addr;
            CanExec(h', GiveBack(page)) && Enabled(Exec(h', GiveBack(page)), AllocBig(page, LARGEST))
  {
    var page := h.pages[p].addr;
    var h' := Unlink(h, p);
    var h'' := Exec(h', GiveBack(page));
    assert PagesFor(LARGEST) == 1;
    forall q | q in h''.pages
      ensures PageMissesBig(h''.pages[q].addr, page, 1)
    {
      PagesDiffer(h, p, q);
      Aligned(h, q);
      PagesApart(page, h.pages[q].addr);
    }
    assert Apart(h);
    hide ListsOk, PagesOk, LiveOk;
    forall f | f in h''.transit
      ensures PageMissesBig(f, page, 1)
    {
      assert f in h.transit && f != page;
      PagesApart(page, f);
    }
    forall z | z in h''.big
      ensures page + 1 * PAGE <= z || z + h''.big[z].pages * PAGE <= page
    {
      assert PageMissesBig(page, z, h.big[z].pages);
    }
  }

  // ---------------------------------------------------------------- runs

  const SIZE: nat := 512
  const BLK: nat := 5

  /** A heap of one page, at address 4096, of eight blocks of 512 bytes. */
  function OnePage(free: seq<nat>, live: map<nat, nat>): Heap {
    Heap([0], seq(NSIZES, b => if b == BLK then [0] else []), map[0 := Page(PAGE, BLK, free)], {0}, live, map[], {})
  }

  lemma AllocStep(free: seq<nat>, live: map<nat, nat>)
    requires free != []
    ensures var h := OnePage(free, live);
            CanExec(h, Alloc(SIZE)) && Exec(h, Alloc(SIZE)) == OnePage(free[1..], live[PAGE + free[0] := SIZE])
  {
    var h := OnePage(free, live);
    assert BlockType(SIZE) == BLK && h.same[BLK] == [0];
    assert FirstFree([0], h.pages) == 0;
  }

  lemma FreeStep(free: seq<nat>, live: map<nat, nat>, x: nat)
    requires x in live && PAGE <= x < PAGE + PAGE && |free| + 1 < 8
    ensures var h := OnePage(free, live);
            CanExec(h, Free(x)) && Exec(h, Free(x)) == OnePage([x - PAGE] + free, live - {x})
  {
    var h := OnePage(free, live);
    assert FirstOn([0], h.pages, x) == 0;
    assert Blocks(BLK) == 8;
  }

  /** Up to the first block of the page. */
  lemma FirstSteps() returns (acts: seq<Action>)
    ensures Steps(Empty(), acts, OnePage([3072, 2560, 2048, 1536, 1024, 512, 0], map[PAGE + 3584 := SIZE]))
  {
    var a1, a2, a3 := GetPage(PAGE), Reserve, AddPage(PAGE, 0, SIZE);
    acts := [a1, a2, a3];
    var h1 := Exec(Empty(), a1);
    assert LeastUnused({}, 0) == 0;
    var h2 := Exec(h1, a2);
    assert h2 == Empty().(inuse := {0}, transit := {PAGE});
    FirstBlockOf(h2);
    var h3 := Exec(h2, a3);
    hide Exec, CanExec, OnePage;
    assert Steps(h3, [], h3);
    assert Steps(h2, [a3], h3);
    assert acts[1..] == [a2, a3] && acts[1..][1..] == [a3];
  }

  lemma FirstBlockOf(h: Heap)
    requires h == Empty().(inuse := {0}, transit := {PAGE})
    ensures CanExec(h, AddPage(PAGE, 0, SIZE))
    ensures Exec(h, AddPage(PAGE, 0, SIZE)) == OnePage([3072, 2560, 2048, 1536, 1024, 512, 0], map[PAGE + 3584 := SIZE])
  {
    FillEight();
    var free := [3584, 3072, 2560, 2048, 1536, 1024, 512, 0];
    hide Fill, Blocks;
    var h1 := Link(h, PAGE, 0, BLK);
    assert h1 == OnePage(free, map[]) by {
      OneList(h);
    }
    hide OnePage;
    OnePageTake(free, map[]);
    assert free[1..] == [3072, 2560, 2048, 1536, 1024, 512, 0];
    assert map[][PAGE + 3584 := SIZE] == map[PAGE + 3584 := SIZE];
  }

  lemma OneList(h: Heap)
    requires h.same == Empty().same
    ensures |h.same| == NSIZES && h.same[BLK := [0] + h.same[BLK]] == OnePage([], map[]).same
  {
    var q := h.same[BLK := [0] + h.same[BLK]];
    forall b | 0 <= b < NSIZES
      ensures q[b] == OnePage([], map[]).same[b]
    {
      assert h.same[b] == [];
    }
  }

  lemma OnePageTake(free: seq<nat>, live: map<nat, nat>)
    requires free != []
    ensures 0 in OnePage(free, live).pages && OnePage(free, live).pages[0].free == free
    ensures TakeBlock(OnePage(free, live), 0, SIZE) == OnePage(free[1..], live[PAGE + free[0] := SIZE])
  {
  }

  lemma FillEight()
    ensures BlockType(SIZE) == BLK && Fill(BLK, Blocks(BLK)) == [3584, 3072, 2560, 2048, 1536, 1024, 512, 0]
  {
    var q := Fill(BLK, Blocks(BLK));
    assert Blocks(BLK) == 8;
    assert forall i | 0 <= i < 8 :: q[i] == BlockOffset(BLK, 7 - i);
  }

  lemma {:induction false} OneMore(h: Heap, acts: seq<Action>, h': Heap, a: Action)
    requires Steps(h, acts, h') && CanExec(h', a)
    ensures Steps(h, acts + [a], Exec(h', a))
    decreases |acts|
  {
    hide CanExec, Exec;
    if acts == [] {
      assert Steps(Exec(h, a), [], Exec(h, a));
      assert ([] + [a])[1..] == [];
    } else {
      OneMore(Exec(h, acts[0]), acts[1..], h', a);
      assert (acts + [a])[1..] == acts[1..] + [a];
    }
  }

  lemma ThenAlloc(acts: seq<Action>, free: seq<nat>, live: map<nat, nat>) returns (acts': seq<Action>)
    requires Steps(Empty(), acts, OnePage(free, live)) && free != []
    ensures Steps(Empty(), acts', OnePage(free[1..], live[PAGE + free[0] := SIZE]))
  {
    hide OnePage, CanExec, Exec, Steps;
    AllocStep(free, live);
    OneMore(Empty(), acts, OnePage(free, live), Alloc(SIZE));
    acts' := acts + [Alloc(SIZE)];
  }

  lemma ThenFree(acts: seq<Action>, free: seq<nat>, live: map<nat, nat>, x: nat) returns (acts': seq<Action>)
    requires Steps(Empty(), acts, OnePage(free, live)) && x in live && PAGE <= x < PAGE + PAGE && |free| + 1 < 8
    ensures Steps(Empty(), acts', OnePage([x - PAGE] + free, live - {x}))
  {
    hide OnePage, CanExec, Exec, Steps;
    FreeStep(free, live, x);
    OneMore(Empty(), acts, OnePage(free, live), Free(x));
    acts' := acts + [Free(x)];
  }

  /** n blocks of 512 bytes are allocated, then the first freed, then the second; the first is x. */
  lemma FreedTwo(n: nat) returns (h: Heap, x: nat)
    requires n == 3 || n == 4
    ensures Reachable(h) && FreeAgain(h, 0, x) && h.pages[0].free[1] == x - h.pages[0].addr
    ensures LastAgain(h, 0) <==> n == 3
  {
    hide OnePage, Steps;
    var a, b, c, d := PAGE + 3584, PAGE + 3072, PAGE + 2560, PAGE + 2048;
    var free, live := [3072, 2560, 2048, 1536, 1024, 512, 0], map[a := SIZE];
    var acts := FirstSteps();
    acts := ThenAlloc(acts, free, live);
    free, live := free[1..], live[b := SIZE];
    acts := ThenAlloc(acts, free, live);
    free, live := free[1..], live[c := SIZE];
    if n == 4 {
      acts := ThenAlloc(acts, free, live);
      free, live := free[1..], live[d := SIZE];
    }
    acts := ThenFree(acts, free, live, a);
    free, live := [a - PAGE] + free, live - {a};
    acts := ThenFree(acts, free, live, b);
    free, live := [b - PAGE] + free, live - {b};
    h, x := OnePage(free, live), a;
    IsAgain(free, live, n);
  }

  lemma IsAgain(free: seq<nat>, live: map<nat, nat>, n: nat)
    requires 3 <= n <= 4 && |free| == 10 - n && free[0] == 3072 && free[1] == 3584
    ensures var h := OnePage(free, live);
            FreeAgain(h, 0, PAGE + 3584) && h.pages[0].free[1] == 3584 && h.pages[0].addr == PAGE
            && (LastAgain(h, 0) <==> n == 3)
  {
    assert Blocks(BLK) == 8;
  }
}
