/**
 The kernel heap of src/kern/vm/kmalloc.c as a state machine over its critical sections.

 kmalloc_spinlock is dropped around alloc_kpages and free_kpages, so between two sections of one call
 any number of sections of other calls may happen.  Each section is one step here; pages that a call
 has in its hands while the lock is free are in transit.  Kheap shows that the pointers, counters and
 bitmaps of the source carry out these steps.
 */
module KheapSpec {
  import opened Lists
  import Words

  const PAGE: nat := 4096
  const NSIZES: nat := 8
  const SIZES: seq<nat> := [16, 32, 64, 128, 256, 512, 1024, 2048]
  const LARGEST: nat := 2048

  /** pagerefs per page of pagerefs, pages of pagerefs, and pagerefs altogether. */
  const PER_PAGE: nat := 256
  const ROOTS: nat := 16
  const REFS: nat := 4096

  /** A page of the heap: its address, the index of its block size, and the offsets on its free list. */
  datatype Page = Page(addr: nat, blk: nat, free: seq<nat>)

  datatype Big = Big(pages: nat, size: nat)

  /**
   all and same are the list of all pages and the lists by block size, as numbers of pagerefs.  live maps
   the address of every block in use to the size asked for, big the address of every multi-page allocation
   to its number of pages and the size asked for.
   */
  datatype Heap = Heap(
    all: seq<nat>,
    same: seq<seq<nat>>,
    pages: map<nat, Page>,
    inuse: set<nat>,
    live: map<nat, nat>,
    big: map<nat, Big>,
    transit: set<nat>)

  function Blocks(b: nat): nat
    requires b < NSIZES
  {
    PAGE / SIZES[b]
  }

  predicate IsBlock(b: nat, off: nat)
    requires b < NSIZES
  {
    off < PAGE && off % SIZES[b] == 0
  }

  predicate OnPage(pg: Page, x: nat) {
    pg.addr <= x < pg.addr + PAGE
  }

  // ---------------------------------------------------------------- blocks of a page

  lemma BlockFits(b: nat, off: nat)
    requires b < NSIZES && IsBlock(b, off)
    ensures off + SIZES[b] <= PAGE
  {
    if b == 0 {} else if b == 1 {} else if b == 2 {} else if b == 3 {}
    else if b == 4 {} else if b == 5 {} else if b == 6 {} else {}
  }

  lemma BlocksApart(b: nat, x: nat, y: nat)
    requires b < NSIZES && IsBlock(b, x) && IsBlock(b, y) && x < y
    ensures x + SIZES[b] <= y
  {
    if b == 0 {} else if b == 1 {} else if b == 2 {} else if b == 3 {}
    else if b == 4 {} else if b == 5 {} else if b == 6 {} else {}
  }

  function BlockOffset(b: nat, k: nat): nat
    requires b < NSIZES
  {
    k * SIZES[b]
  }

  lemma BlockAt(b: nat, k: nat)
    requires b < NSIZES && k < Blocks(b)
    ensures IsBlock(b, BlockOffset(b, k))
  {
    if b == 0 {} else if b == 1 {} else if b == 2 {} else if b == 3 {}
    else if b == 4 {} else if b == 5 {} else if b == 6 {} else {}
  }

  lemma BlockIndex(b: nat, off: nat)
    requires b < NSIZES && IsBlock(b, off)
    ensures off / SIZES[b] < Blocks(b) && off == off / SIZES[b] * SIZES[b]
  {
    if b == 0 {} else if b == 1 {} else if b == 2 {} else if b == 3 {}
    else if b == 4 {} else if b == 5 {} else if b == 6 {} else {}
  }

  /** The free list of a new page: its blocks from the last to the first. */
  function Fill(b: nat, n: nat): (q: seq<nat>)
    requires b < NSIZES
    ensures |q| == n
    ensures forall i | 0 <= i < n :: q[i] == BlockOffset(b, n - 1 - i)
  {
    if n == 0 then [] else [BlockOffset(b, n - 1)] + Fill(b, n - 1)
  }

  lemma FillBlocks(b: nat, n: nat)
    requires b < NSIZES && n <= Blocks(b)
    ensures forall i | 0 <= i < n :: IsBlock(b, Fill(b, n)[i])
    ensures NoDup(Fill(b, n))
    ensures forall off: nat | IsBlock(b, off) && off / SIZES[b] < n :: off in Fill(b, n)
  {
    var q := Fill(b, n);
    forall i | 0 <= i < n
      ensures IsBlock(b, q[i])
    {
      BlockAt(b, n - 1 - i);
    }
    forall i, j | 0 <= i < j < n
      ensures q[i] != q[j]
    {
      var x, y := n - 1 - i, n - 1 - j;
      assert x > y && SIZES[b] > 0;
      Bigger(x, y, SIZES[b]);
    }
    forall off: nat | IsBlock(b, off) && off / SIZES[b] < n
      ensures off in q
    {
      BlockIndex(b, off);
      assert q[n - 1 - off / SIZES[b]] == off;
    }
  }

  lemma Bigger(x: int, y: int, z: int)
    requires x > y && z > 0
    ensures x * z > y * z
  {
  }

  // ---------------------------------------------------------------- lists of pagerefs

  /** The first page of the list that has a free block. */
  function FirstFree(q: seq<nat>, pages: map<nat, Page>): (i: nat)
    ensures i <= |q|
    ensures i < |q| && q[i] in pages ==> pages[q[i]].free != []
    ensures forall k | 0 <= k < i && q[k] in pages :: pages[q[k]].free == []
  {
    if q == [] || (q[0] in pages && pages[q[0]].free != []) then 0 else 1 + FirstFree(q[1..], pages)
  }

  /** The first page of the list that contains address x. */
  function FirstOn(q: seq<nat>, pages: map<nat, Page>, x: nat): (i: nat)
    ensures i <= |q|
    ensures i < |q| && q[i] in pages ==> OnPage(pages[q[i]], x)
    ensures forall k | 0 <= k < i && q[k] in pages :: !OnPage(pages[q[k]], x)
  {
    if q == [] || (q[0] in pages && OnPage(pages[q[0]], x)) then 0 else 1 + FirstOn(q[1..], pages, x)
  }

  // ---------------------------------------------------------------- the invariant

  /** The free list of a page: distinct blocks of the page, exactly those that are not live. */
  ghost predicate FreeListOk(h: Heap, pg: Page) {
    && pg.blk < NSIZES && pg.addr % PAGE == 0 && pg.addr > 0
    && NoDup(pg.free) && |pg.free| <= Blocks(pg.blk)
    && (forall off | off in pg.free :: IsBlock(pg.blk, off))
    && (forall off: nat | IsBlock(pg.blk, off) :: off in pg.free <==> pg.addr + off !in h.live)
  }

  /** No listed page is fully free. */
  ghost predicate PageOk(h: Heap, pg: Page) {
    FreeListOk(h, pg) && |pg.free| < Blocks(pg.blk)
  }

  ghost predicate PagesOk(h: Heap) {
    forall p | p in h.pages :: PageOk(h, h.pages[p])
  }

  /** The lists by size partition the list of all pages, and every listed pageref is in use. */
  ghost predicate ListsOk(h: Heap) {
    && NoDup(h.all) && |h.same| == NSIZES
    && (forall p :: p in h.pages <==> p in h.all)
    && (forall b | 0 <= b < NSIZES :: NoDup(h.same[b]))
    && (forall b, p | 0 <= b < NSIZES :: p in h.same[b] <==> (p in h.pages && h.pages[p].blk == b))
    && (forall p | p in h.pages :: p in h.inuse)
    && (forall p | p in h.inuse :: p < REFS)
  }

  predicate PageMissesBig(f: nat, x: nat, n: nat) {
    f + PAGE <= x || x + n * PAGE <= f
  }

  /** No page is owned twice. */
  ghost predicate Apart(h: Heap) {
    && (forall p, q | p in h.pages && q in h.pages && p != q :: h.pages[p].addr != h.pages[q].addr)
    && (forall p | p in h.pages :: h.pages[p].addr !in h.transit)
    && (forall f | f in h.transit :: f % PAGE == 0 && f > 0)
    && (forall x | x in h.big :: x % PAGE == 0 && x > 0 && h.big[x].pages > 0 && h.big[x].size <= h.big[x].pages * PAGE)
    && (forall p, x | p in h.pages && x in h.big :: PageMissesBig(h.pages[p].addr, x, h.big[x].pages))
    && (forall f, x | f in h.transit && x in h.big :: PageMissesBig(f, x, h.big[x].pages))
    && (forall x, y | x in h.big && y in h.big && x < y :: x + h.big[x].pages * PAGE <= y)
  }

  /** x is a block of page p that can hold what was asked for. */
  ghost predicate BlockOf(h: Heap, p: nat, x: nat) {
    && p in h.pages && x in h.live && h.pages[p].blk < NSIZES
    && OnPage(h.pages[p], x) && IsBlock(h.pages[p].blk, x - h.pages[p].addr)
    && h.live[x] <= SIZES[h.pages[p].blk]
  }

  ghost predicate LiveOk(h: Heap) {
    forall x | x in h.live :: exists p :: BlockOf(h, p, x)
  }

  ghost predicate Inv(h: Heap) {
    ListsOk(h) && PagesOk(h) && Apart(h) && LiveOk(h)
  }

  // ---------------------------------------------------------------- the steps

  datatype Action =
    | Alloc(sz: nat)                      // subpage_kmalloc finds a page with a free block
    | GetPage(page: nat)                  // alloc_kpages(1)
    | Reserve                             // allocpageref
    | AddPage(page: nat, p: nat, sz: nat) // the rest of subpage_kmalloc
    | GiveBack(page: nat)                 // free_kpages
    | Free(x: nat)                        // subpage_kfree
    | AllocBig(x: nat, sz: nat)           // kmalloc of LARGEST bytes or more
    | FreeBig(x: nat)                     // kfree of such an allocation

  /** blocktype. */
  function BlockType(sz: nat): (b: nat)
    requires sz <= LARGEST
    ensures b < NSIZES && sz <= SIZES[b]
    ensures forall k | 0 <= k < b :: SIZES[k] < sz
  {
    if sz <= 16 then 0 else if sz <= 32 then 1 else if sz <= 64 then 2 else if sz <= 128 then 3
    else if sz <= 256 then 4 else if sz <= 512 then 5 else if sz <= 1024 then 6 else 7
  }

  /**
   The pages that kmalloc asks for, computed in size_t.  They are enough, and not one too many, exactly for
   sizes up to the last whole page of the address space; above that the sum wraps and there are none.
   */
  function PagesFor(sz: nat): (n: nat)
    requires sz < Words.W32
    ensures n * PAGE >= sz <==> sz <= Words.W32 - PAGE
    ensures 0 < sz <= Words.W32 - PAGE ==> n > 0 && (n - 1) * PAGE < sz
    ensures sz > Words.W32 - PAGE ==> n == 0
  {
    (sz + PAGE - 1) % Words.W32 / PAGE
  }

  /** What is assumed of alloc_kpages: a page-aligned address of n pages that nobody owns. */
  predicate Unowned(h: Heap, x: nat, n: nat) {
    && x % PAGE == 0 && x > 0
    && (forall p | p in h.pages :: PageMissesBig(h.pages[p].addr, x, n))
    && (forall f | f in h.transit :: PageMissesBig(f, x, n))
    && (forall y | y in h.big :: x + n * PAGE <= y || y + h.big[y].pages * PAGE <= x)
  }

  function LeastUnused(inuse: set<nat>, p: nat): (q: nat)
    requires p <= REFS
    ensures p <= q <= REFS
    ensures q < REFS ==> q !in inuse
    ensures forall k | p <= k < q :: k in inuse
    decreases REFS - p
  {
    if p == REFS || p !in inuse then p else LeastUnused(inuse, p + 1)
  }

  predicate Enabled(h: Heap, a: Action) {
    match a
    case Alloc(sz) =>
      && sz < LARGEST && |h.same| == NSIZES
      && FirstFree(h.same[BlockType(sz)], h.pages) < |h.same[BlockType(sz)]|
    case GetPage(page) => Unowned(h, page, 1)
    case Reserve => LeastUnused(h.inuse, 0) < REFS
    case AddPage(page, p, sz) => page in h.transit && p in h.inuse && p !in h.pages && sz < LARGEST
    case GiveBack(page) => page in h.transit
    case Free(x) => x in h.live
    case AllocBig(x, sz) => LARGEST <= sz <= Words.W32 - PAGE && Unowned(h, x, PagesFor(sz))
    case FreeBig(x) => x in h.big
  }

  function TakeBlock(h: Heap, p: nat, sz: nat): Heap
    requires p in h.pages && h.pages[p].free != []
  {
    var pg := h.pages[p];
    h.(pages := h.pages[p := pg.(free := pg.free[1..])], live := h.live[pg.addr + pg.free[0] := sz])
  }

  /** Enters a new page, all of whose blocks are free, at the head of both lists. */
  function Link(h: Heap, page: nat, p: nat, b: nat): Heap
    requires b < |h.same| && b < NSIZES
  {
    h.(all := [p] + h.all,
       same := h.same[b := [p] + h.same[b]],
       pages := h.pages[p := Page(page, b, Fill(b, Blocks(b)))],
       transit := h.transit - {page})
  }

  function ReturnBlock(h: Heap, p: nat, x: nat): Heap
    requires p in h.pages && h.pages[p].addr <= x
  {
    var pg := h.pages[p];
    h.(pages := h.pages[p := pg.(free := [x - pg.addr] + pg.free)], live := h.live - {x})
  }

  /** Takes a page off both lists and gives up its pageref; the page itself is about to be freed. */
  function Unlink(h: Heap, p: nat): Heap
    requires p in h.pages && h.pages[p].blk < |h.same|
  {
    var pg := h.pages[p];
    h.(all := Remove(h.all, p),
       same := h.same[pg.blk := Remove(h.same[pg.blk], p)],
       pages := h.pages - {p},
       inuse := h.inuse - {p},
       transit := h.transit + {pg.addr})
  }

  predicate OwnerFound(h: Heap, x: nat) {
    var i := FirstOn(h.all, h.pages, x);
    && i < |h.all| && h.all[i] in h.pages
    && h.pages[h.all[i]].blk < NSIZES && h.pages[h.all[i]].blk < |h.same|
  }

  function Owner(h: Heap, x: nat): (p: nat)
    requires OwnerFound(h, x)
    ensures p in h.pages && OnPage(h.pages[p], x)
  {
    h.all[FirstOn(h.all, h.pages, x)]
  }

  function FreeBlock(h: Heap, x: nat): Heap
    requires OwnerFound(h, x)
  {
    var p := Owner(h, x);
    var h1 := ReturnBlock(h, p, x);
    if |h1.pages[p].free| == Blocks(h1.pages[p].blk) then Unlink(h1, p) else h1
  }

  /** What a step relies on; the invariant provides it. */
  predicate CanExec(h: Heap, a: Action) {
    && Enabled(h, a)
    && match a
       case Alloc(sz) => var q := h.same[BlockType(sz)]; q[FirstFree(q, h.pages)] in h.pages
       case AddPage(_, _, _) => |h.same| == NSIZES
       case Free(x) => OwnerFound(h, x)
       case _ => true
  }

  function Exec(h: Heap, a: Action): Heap
    requires CanExec(h, a)
  {
    match a
    case Alloc(sz) =>
      var q := h.same[BlockType(sz)];
      TakeBlock(h, q[FirstFree(q, h.pages)], sz)
    case GetPage(page) => h.(transit := h.transit + {page})
    case Reserve => h.(inuse := h.inuse + {LeastUnused(h.inuse, 0)})
    case AddPage(page, p, sz) => TakeBlock(Link(h, page, p, BlockType(sz)), p, sz)
    case GiveBack(page) => h.(transit := h.transit - {page})
    case Free(x) => FreeBlock(h, x)
    case AllocBig(x, sz) => h.(big := h.big[x := Big(PagesFor(sz), sz)])
    case FreeBig(x) => h.(big := h.big - {x})
  }

  // ---------------------------------------------------------------- every step keeps the invariant

  lemma SameFrame(a: nat, b: nat, x: nat)
    requires a % PAGE == 0 && b % PAGE == 0 && a <= x < a + PAGE && b <= x < b + PAGE
    ensures a == b
  {
  }

  /** As the invariant, except that page p may be fully free. */
  ghost predicate InvBut(h: Heap, p: nat) {
    && ListsOk(h) && Apart(h) && LiveOk(h)
    && p in h.pages && FreeListOk(h, h.pages[p])
    && (forall q | q in h.pages && q != p :: PageOk(h, h.pages[q]))
  }

  /** A page's free list does not depend on blocks of other pages. */
  lemma OtherPage(h: Heap, h': Heap, pg: Page, f: nat, x: nat)
    requires FreeListOk(h, pg) && f % PAGE == 0 && f != pg.addr && f <= x < f + PAGE
    requires forall y | y != x :: y in h'.live <==> y in h.live
    ensures FreeListOk(h', pg)
  {
    forall off: nat | IsBlock(pg.blk, off)
      ensures off in pg.free <==> pg.addr + off !in h'.live
    {
      if pg.addr + off == x {
        SameFrame(pg.addr, f, x);
      }
    }
  }

  /** The addresses of the pages are as before. */
  ghost predicate SameAddrs(h: Heap, h': Heap) {
    && (forall p | p in h'.pages :: p in h.pages && h'.pages[p].addr == h.pages[p].addr)
    && h'.transit == h.transit && h'.big == h.big
  }

  lemma ApartKept(h: Heap, h': Heap)
    requires Apart(h) && SameAddrs(h, h')
    ensures Apart(h')
  {
  }

  lemma TakeTail(h: Heap, h': Heap, pg: Page)
    requires FreeListOk(h, pg) && pg.free != []
    requires forall y :: y in h'.live <==> y in h.live || y == pg.addr + pg.free[0]
    ensures PageOk(h', pg.(free := pg.free[1..]))
  {
    assert pg.free == [pg.free[0]] + pg.free[1..];
    assert pg.free[0] !in pg.free[1..];
    hide IsBlock;
  }

  lemma OtherPages(h: Heap, h': Heap, p: nat, x: nat)
    requires Apart(h) && p in h.pages && h.pages[p].addr % PAGE == 0 && OnPage(h.pages[p], x)
    requires forall q | q in h.pages && q != p :: PageOk(h, h.pages[q])
    requires forall q | q in h'.pages && q != p :: q in h.pages && h'.pages[q] == h.pages[q]
    requires forall y | y != x :: y in h'.live <==> y in h.live
    ensures forall q | q in h'.pages && q != p :: PageOk(h', h'.pages[q])
  {
    hide FreeListOk, IsBlock;
    forall q | q in h'.pages && q != p
      ensures PageOk(h', h'.pages[q])
    {
      assert PageOk(h, h.pages[q]);
      OtherPage(h, h', h.pages[q], h.pages[p].addr, x);
    }
  }

  lemma TakePages(h: Heap, p: nat, sz: nat)
    requires InvBut(h, p) && h.pages[p].free != []
    ensures PagesOk(TakeBlock(h, p, sz))
  {
    var h', pg := TakeBlock(h, p, sz), h.pages[p];
    var x := pg.addr + pg.free[0];
    assert pg.free[0] in pg.free;
    assert OnPage(pg, x);
    TakeTail(h, h', pg);
    hide PageOk, FreeListOk, LiveOk, ListsOk;
    OtherPages(h, h', p, x);
  }

  lemma TakenBlock(h: Heap, p: nat, sz: nat)
    requires p in h.pages && FreeListOk(h, h.pages[p]) && h.pages[p].free != [] && sz <= SIZES[h.pages[p].blk]
    ensures BlockOf(TakeBlock(h, p, sz), p, h.pages[p].addr + h.pages[p].free[0])
  {
    assert h.pages[p].free[0] in h.pages[p].free;
  }

  lemma LiveMore(h: Heap, h': Heap, x: nat, p: nat)
    requires LiveOk(h) && BlockOf(h', p, x)
    requires forall y | y in h'.live && y != x :: y in h.live && h'.live[y] == h.live[y]
    requires forall q | q in h.pages ::
               q in h'.pages && h'.pages[q].addr == h.pages[q].addr && h'.pages[q].blk == h.pages[q].blk
    ensures LiveOk(h')
  {
    hide IsBlock;
    forall y | y in h'.live
      ensures exists q :: BlockOf(h', q, y)
    {
      if y != x {
        var q :| BlockOf(h, q, y);
        assert BlockOf(h', q, y);
      }
    }
  }

  lemma TakeLive(h: Heap, p: nat, sz: nat)
    requires InvBut(h, p) && h.pages[p].free != [] && sz <= SIZES[h.pages[p].blk]
    ensures LiveOk(TakeBlock(h, p, sz))
  {
    hide FreeListOk, PageOk, Apart, ListsOk, LiveOk, BlockOf;
    TakenBlock(h, p, sz);
    LiveMore(h, TakeBlock(h, p, sz), h.pages[p].addr + h.pages[p].free[0], p);
  }

  lemma TakeLists(h: Heap, p: nat, sz: nat)
    requires ListsOk(h) && p in h.pages && h.pages[p].free != []
    ensures ListsOk(TakeBlock(h, p, sz))
  {
  }

  lemma TakeInv(h: Heap, p: nat, sz: nat)
    requires InvBut(h, p) && h.pages[p].free != [] && sz <= SIZES[h.pages[p].blk]
    ensures Inv(TakeBlock(h, p, sz))
  {
    assert SameAddrs(h, TakeBlock(h, p, sz));
    hide FreeListOk, PageOk, LiveOk, ListsOk, Apart, PagesOk;
    ApartKept(h, TakeBlock(h, p, sz));
    TakeLists(h, p, sz);
    TakePages(h, p, sz);
    TakeLive(h, p, sz);
  }

  lemma AllocInv(h: Heap, sz: nat)
    requires Inv(h) && Enabled(h, Alloc(sz))
    ensures CanExec(h, Alloc(sz)) && Inv(Exec(h, Alloc(sz)))
  {
    var b := BlockType(sz);
    var q := h.same[b];
    var p := q[FirstFree(q, h.pages)];
    assert p in q;
    assert p in h.pages && h.pages[p].blk == b;
    assert PageOk(h, h.pages[p]);
    TakeInv(h, p, sz);
  }

  lemma LinkLists(h: Heap, page: nat, p: nat, b: nat)
    requires ListsOk(h) && b < NSIZES && p in h.inuse && p !in h.pages
    ensures ListsOk(Link(h, page, p, b))
  {
    hide NoDup, Fill, Blocks;
    var h' := Link(h, page, p, b);
    NoDupCons(p, h.all);
    NoDupCons(p, h.same[b]);
    forall c, q | 0 <= c < NSIZES
      ensures q in h'.same[c] <==> (q in h'.pages && h'.pages[q].blk == c)
    {
      assert q in h.same[c] <==> (q in h.pages && h.pages[q].blk == c);
    }
  }

  lemma PageAligned(h: Heap, p: nat)
    requires PagesOk(h) && p in h.pages
    ensures h.pages[p].addr % PAGE == 0 && h.pages[p].blk < NSIZES && h.pages[p].addr > 0
  {
    assert PageOk(h, h.pages[p]);
  }

  lemma BlockOnPage(h: Heap, p: nat, x: nat)
    requires BlockOf(h, p, x)
    ensures p in h.pages && h.pages[p].blk < NSIZES && OnPage(h.pages[p], x)
            && IsBlock(h.pages[p].blk, x - h.pages[p].addr)
  {
  }

  lemma TransitAligned(h: Heap, f: nat)
    requires Apart(h) && f in h.transit
    ensures f % PAGE == 0 && f > 0 && forall p | p in h.pages :: h.pages[p].addr != f
  {
  }

  /** No block of a page in transit is live. */
  lemma TransitDead(h: Heap, page: nat, x: nat)
    requires Inv(h) && page in h.transit && page <= x < page + PAGE
    ensures x !in h.live
  {
    if x in h.live {
      var p :| BlockOf(h, p, x);
      hide *;
      TransitFrame(h, page, x, p);
    }
  }

  lemma TransitFrame(h: Heap, page: nat, x: nat, p: nat)
    requires Inv(h) && page in h.transit && BlockOf(h, p, x)
    ensures !(page <= x < page + PAGE)
  {
    hide PagesOk, BlockOf, Apart, LiveOk, ListsOk;
    BlockOnPage(h, p, x);
    PageAligned(h, p);
    TransitAligned(h, page);
    hide IsBlock;
    if page <= x < page + PAGE {
      SameFrame(page, h.pages[p].addr, x);
    }
  }

  lemma NewPageFree(h: Heap, page: nat, b: nat)
    requires page % PAGE == 0 && page > 0 && b < NSIZES
    requires forall x | page <= x < page + PAGE :: x !in h.live
    ensures FreeListOk(h, Page(page, b, Fill(b, Blocks(b))))
  {
    FillBlocks(b, Blocks(b));
    AllBlocksCount(b);
  }

  lemma LinkFree(h: Heap, page: nat, p: nat, b: nat)
    requires Inv(h) && page in h.transit && b < NSIZES && |h.same| == NSIZES
    ensures var h' := Link(h, page, p, b); FreeListOk(h', h'.pages[p])
  {
    forall x | page <= x < page + PAGE
      ensures x !in h.live
    {
      TransitDead(h, page, x);
    }
    hide FreeListOk, PagesOk, ListsOk, LiveOk, Apart;
    TransitAligned(h, page);
    NewPageFree(Link(h, page, p, b), page, b);
  }

  lemma LinkApart(h: Heap, page: nat, p: nat, b: nat)
    requires Apart(h) && page in h.transit && b < NSIZES && |h.same| == NSIZES
    ensures Apart(Link(h, page, p, b))
  {
  }

  /** Blocks of pages that stay listed stay live. */
  lemma LiveKept(h: Heap, h': Heap)
    requires LiveOk(h)
    requires forall y | y in h'.live :: y in h.live && h'.live[y] == h.live[y]
    requires forall q, y | y in h'.live && BlockOf(h, q, y) ::
               q in h'.pages && h'.pages[q].addr == h.pages[q].addr && h'.pages[q].blk == h.pages[q].blk
    ensures LiveOk(h')
  {
    forall y | y in h'.live
      ensures exists q :: BlockOf(h', q, y)
    {
      var q :| BlockOf(h, q, y);
      assert BlockOf(h', q, y);
    }
  }

  lemma PagesKept(h: Heap, h': Heap, p: nat)
    requires forall q | q in h.pages && q != p :: PageOk(h, h.pages[q])
    requires h'.live == h.live
    requires forall q | q in h'.pages && q != p :: q in h.pages && h'.pages[q] == h.pages[q]
    ensures forall q | q in h'.pages && q != p :: PageOk(h', h'.pages[q])
  {
    forall q | q in h'.pages && q != p
      ensures PageOk(h', h'.pages[q])
    {
      assert PageOk(h, h.pages[q]);
    }
  }

  lemma LinkInv(h: Heap, page: nat, p: nat, b: nat)
    requires Inv(h) && page in h.transit && p in h.inuse && p !in h.pages && b < NSIZES
    ensures InvBut(Link(h, page, p, b), p)
  {
    var h' := Link(h, page, p, b);
    LinkFree(h, page, p, b);
    LinkLists(h, page, p, b);
    hide PageOk, FreeListOk, ListsOk, Apart, LiveOk;
    LinkApart(h, page, p, b);
    LiveKept(h, h');
    PagesKept(h, h', p);
  }

  lemma AddPageInv(h: Heap, page: nat, p: nat, sz: nat)
    requires Inv(h) && Enabled(h, AddPage(page, p, sz))
    ensures CanExec(h, AddPage(page, p, sz)) && Inv(Exec(h, AddPage(page, p, sz)))
  {
    var b := BlockType(sz);
    LinkInv(h, page, p, b);
    assert Blocks(b) > 0;
    TakeInv(Link(h, page, p, b), p, sz);
  }

  /** The page that the search finds is the page of the block. */
  lemma FindsOwner(h: Heap, x: nat, p: nat)
    requires Inv(h) && BlockOf(h, p, x)
    ensures OwnerFound(h, x) && Owner(h, x) == p
  {
    var i := FirstOn(h.all, h.pages, x);
    assert p in h.all;
    var k :| 0 <= k < |h.all| && h.all[k] == p;
    assert i <= k;
    var q := h.all[i];
    assert q in h.pages && PageOk(h, h.pages[q]) && PageOk(h, h.pages[p]);
    SameFrame(h.pages[p].addr, h.pages[q].addr, x);
  }

  lemma ReturnFree(h: Heap, h': Heap, pg: Page, off: nat)
    requires PageOk(h, pg) && IsBlock(pg.blk, off) && pg.addr + off in h.live
    requires forall y :: y in h'.live <==> y in h.live && y != pg.addr + off
    ensures FreeListOk(h', pg.(free := [off] + pg.free))
  {
    NoDupCons(off, pg.free);
    hide IsBlock, NoDup;
  }

  lemma ReturnLists(h: Heap, p: nat, x: nat)
    requires ListsOk(h) && p in h.pages && h.pages[p].addr <= x
    ensures ListsOk(ReturnBlock(h, p, x))
  {
  }

  lemma ReturnLive(h: Heap, p: nat, x: nat)
    requires LiveOk(h) && p in h.pages && h.pages[p].addr <= x
    ensures LiveOk(ReturnBlock(h, p, x))
  {
    hide IsBlock;
    LiveKept(h, ReturnBlock(h, p, x));
  }

  lemma ReturnPages(h: Heap, p: nat, x: nat)
    requires PagesOk(h) && Apart(h) && BlockOf(h, p, x)
    ensures var h' := ReturnBlock(h, p, x);
            && FreeListOk(h', h'.pages[p])
            && (forall q | q in h'.pages && q != p :: PageOk(h', h'.pages[q]))
  {
    var h', pg := ReturnBlock(h, p, x), h.pages[p];
    hide FreeListOk, IsBlock, Apart;
    PageAligned(h, p);
    ReturnFree(h, h', pg, x - pg.addr);
    OtherPages(h, h', p, x);
  }

  lemma ReturnInv(h: Heap, p: nat, x: nat)
    requires Inv(h) && BlockOf(h, p, x)
    ensures InvBut(ReturnBlock(h, p, x), p)
  {
    hide PageOk, PagesOk, FreeListOk, ListsOk, Apart, LiveOk, BlockOf, IsBlock;
    BlockOnPage(h, p, x);
    assert SameAddrs(h, ReturnBlock(h, p, x));
    ReturnLists(h, p, x);
    ReturnPages(h, p, x);
    ReturnLive(h, p, x);
    ApartKept(h, ReturnBlock(h, p, x));
  }

  function AllBlocks(b: nat): set<nat>
    requires b < NSIZES
  {
    set off | off in Fill(b, Blocks(b))
  }

  function Elements(q: seq<nat>): set<nat> {
    set x | x in q
  }

  lemma {:induction false} Distinct(q: seq<nat>)
    requires NoDup(q)
    ensures |Elements(q)| == |q|
  {
    if q != [] {
      Distinct(q[1..]);
      assert q[0] !in q[1..];
      assert Elements(q) == {q[0]} + Elements(q[1..]);
    }
  }

  lemma AllBlocksCount(b: nat)
    requires b < NSIZES
    ensures |AllBlocks(b)| == Blocks(b)
    ensures forall off: nat :: off in AllBlocks(b) <==> IsBlock(b, off)
  {
    FillBlocks(b, Blocks(b));
    Distinct(Fill(b, Blocks(b)));
    assert AllBlocks(b) == Elements(Fill(b, Blocks(b)));
    forall off: nat
      ensures off in AllBlocks(b) <==> IsBlock(b, off)
    {
      if IsBlock(b, off) {
        BlockIndex(b, off);
      }
    }
  }

  lemma SubsetFull(s: set<nat>, t: set<nat>)
    requires s <= t && |s| == |t|
    ensures s == t
  {
    if s != t {
      assert s < t;
      SmallerSet(s, t);
    }
  }

  lemma SmallerSet(s: set<nat>, t: set<nat>)
    requires s < t
    ensures |s| < |t|
  {
    var rest := t - s;
    assert t == s + rest;
    assert rest != {};
  }

  /** A page with as many free blocks as blocks has no live one. */
  lemma FullyFree(h: Heap, pg: Page, off: nat)
    requires FreeListOk(h, pg) && |pg.free| == Blocks(pg.blk) && IsBlock(pg.blk, off)
    ensures off in pg.free
  {
    AllBlocksCount(pg.blk);
    Distinct(pg.free);
    SubsetFull(Elements(pg.free), AllBlocks(pg.blk));
    assert off in Elements(pg.free);
  }

  lemma NoneLive(h: Heap, p: nat, y: nat)
    requires p in h.pages && FreeListOk(h, h.pages[p]) && |h.pages[p].free| == Blocks(h.pages[p].blk)
    ensures !BlockOf(h, p, y)
  {
    if BlockOf(h, p, y) {
      FullyFree(h, h.pages[p], y - h.pages[p].addr);
    }
  }

  lemma UnlinkLists(h: Heap, p: nat)
    requires ListsOk(h) && p in h.pages && h.pages[p].blk < NSIZES
    ensures ListsOk(Unlink(h, p))
  {
    hide NoDup, Remove;
    var h', b := Unlink(h, p), h.pages[p].blk;
    RemoveKeeps(h.all, p);
    RemoveKeeps(h.same[b], p);
    forall c, q | 0 <= c < NSIZES
      ensures q in h'.same[c] <==> (q in h'.pages && h'.pages[q].blk == c)
    {
      assert q in h.same[c] <==> (q in h.pages && h.pages[q].blk == c);
    }
  }

  lemma UnlinkApart(h: Heap, p: nat)
    requires Apart(h) && p in h.pages && h.pages[p].blk < |h.same| && h.pages[p].addr % PAGE == 0 && h.pages[p].addr > 0
    ensures Apart(Unlink(h, p))
  {
  }

  lemma ButPage(h: Heap, p: nat)
    requires InvBut(h, p)
    ensures |h.same| == NSIZES && h.pages[p].blk < NSIZES && h.pages[p].addr % PAGE == 0 && h.pages[p].addr > 0
  {
  }

  lemma BlockElsewhere(h: Heap, p: nat, q: nat, y: nat)
    requires InvBut(h, p) && |h.pages[p].free| == Blocks(h.pages[p].blk) && BlockOf(h, q, y)
    ensures q != p && q in h.pages
  {
    hide PageOk, FreeListOk, ListsOk, Apart, LiveOk, BlockOf, IsBlock, Blocks;
    ButPage(h, p);
    BlockOnPage(h, q, y);
    if q == p {
      NoneLive(h, p, y);
    }
  }

  lemma UnlinkLive(h: Heap, p: nat)
    requires InvBut(h, p) && |h.pages[p].free| == Blocks(h.pages[p].blk)
    ensures h.pages[p].blk < |h.same| && LiveOk(Unlink(h, p))
  {
    hide PageOk, FreeListOk, ListsOk, Apart, LiveOk, BlockOf, Blocks, Remove;
    ButPage(h, p);
    var h' := Unlink(h, p);
    forall q, y | y in h'.live && BlockOf(h, q, y)
      ensures q != p && q in h.pages
    {
      BlockElsewhere(h, p, q, y);
    }
    LiveKept(h, h');
  }

  lemma UnlinkInv(h: Heap, p: nat)
    requires InvBut(h, p) && |h.pages[p].free| == Blocks(h.pages[p].blk)
    ensures Inv(Unlink(h, p))
  {
    hide PageOk, FreeListOk, ListsOk, Apart, LiveOk, Blocks, Remove;
    ButPage(h, p);
    UnlinkLists(h, p);
    UnlinkApart(h, p);
    UnlinkLive(h, p);
    PagesKept(h, Unlink(h, p), p);
  }

  lemma FreeInv(h: Heap, x: nat)
    requires Inv(h) && x in h.live
    ensures CanExec(h, Free(x)) && Inv(Exec(h, Free(x)))
  {
    var p :| BlockOf(h, p, x);
    FindsOwner(h, x, p);
    ReturnInv(h, p, x);
    var h1 := ReturnBlock(h, p, x);
    if |h1.pages[p].free| == Blocks(h1.pages[p].blk) {
      UnlinkInv(h1, p);
    }
  }

  lemma GetPageApart(h: Heap, page: nat)
    requires Apart(h) && PagesOk(h) && Unowned(h, page, 1)
    ensures Apart(h.(transit := h.transit + {page}))
  {
    hide FreeListOk;
    assert forall p | p in h.pages :: PageMissesBig(h.pages[p].addr, page, 1);
  }

  lemma AllocBigApart(h: Heap, x: nat, n: nat, sz: nat)
    requires Apart(h) && n > 0 && Unowned(h, x, n) && sz <= n * PAGE
    ensures Apart(h.(big := h.big[x := Big(n, sz)]))
  {
  }

  lemma PageStepApart(h: Heap, a: Action)
    requires Apart(h) && PagesOk(h) && CanExec(h, a)
    requires a.GetPage? || a.Reserve? || a.GiveBack? || a.AllocBig? || a.FreeBig?
    ensures Apart(Exec(h, a))
  {
    if a.GetPage? {
      GetPageApart(h, a.page);
    } else if a.AllocBig? {
      AllocBigApart(h, a.x, PagesFor(a.sz), a.sz);
    } else {
      hide PagesOk, Unowned;
    }
  }

  lemma PageStepLists(h: Heap, a: Action)
    requires ListsOk(h) && CanExec(h, a)
    requires a.GetPage? || a.Reserve? || a.GiveBack? || a.AllocBig? || a.FreeBig?
    ensures ListsOk(Exec(h, a))
  {
    hide Unowned, PagesFor, NoDup;
  }

  lemma PageStepInv(h: Heap, a: Action)
    requires Inv(h) && Enabled(h, a)
    requires a.GetPage? || a.Reserve? || a.GiveBack? || a.AllocBig? || a.FreeBig?
    ensures CanExec(h, a) && Inv(Exec(h, a))
  {
    var h' := Exec(h, a);
    PageStepLists(h, a);
    hide PageOk, ListsOk, Apart, LiveOk, Unowned, PagesFor;
    PageStepApart(h, a);
    LiveKept(h, h');
    forall q | q in h'.pages
      ensures PageOk(h', h'.pages[q])
    {
      PageStaysOk(h, h', q);
    }
  }

  lemma PageStaysOk(h: Heap, h': Heap, q: nat)
    requires q in h.pages && PageOk(h, h.pages[q]) && h'.live == h.live && q in h'.pages && h'.pages[q] == h.pages[q]
    ensures PageOk(h', h'.pages[q])
  {
  }

  lemma StepInv(h: Heap, a: Action)
    requires Inv(h) && Enabled(h, a)
    ensures CanExec(h, a) && Inv(Exec(h, a))
  {
    hide Inv;
    if a.Alloc? {
      AllocInv(h, a.sz);
    } else if a.AddPage? {
      AddPageInv(h, a.page, a.p, a.sz);
    } else if a.Free? {
      FreeInv(h, a.x);
    } else {
      PageStepInv(h, a);
    }
  }

  // ---------------------------------------------------------------- runs

  ghost predicate Steps(h: Heap, acts: seq<Action>, h': Heap)
    decreases |acts|
  {
    if acts == [] then h' == h
    else CanExec(h, acts[0]) && Steps(Exec(h, acts[0]), acts[1..], h')
  }

  function Empty(): Heap {
    Heap([], seq(NSIZES, _ => []), map[], {}, map[], map[], {})
  }

  lemma EmptyInv()
    ensures Inv(Empty())
  {
  }

  lemma {:induction false} StepsInv(h: Heap, acts: seq<Action>, h': Heap)
    requires Inv(h) && Steps(h, acts, h')
    ensures Inv(h')
    decreases |acts|
  {
    if acts != [] {
      hide Inv, Exec;
      StepInv(h, acts[0]);
      StepsInv(Exec(h, acts[0]), acts[1..], h');
    }
  }

  ghost predicate Reachable(h: Heap) {
    exists acts :: Steps(Empty(), acts, h)
  }

  lemma ReachableInv(h: Heap)
    requires Reachable(h)
    ensures Inv(h)
  {
    var acts :| Steps(Empty(), acts, h);
    EmptyInv();
    StepsInv(Empty(), acts, h);
  }

  // ---------------------------------------------------------------- what every run guarantees

  /** The offsets of the live blocks of a page. */
  function LiveOn(h: Heap, pg: Page): set<nat>
    requires pg.blk < NSIZES
  {
    set off | off in AllBlocks(pg.blk) && pg.addr + off in h.live
  }

  lemma DisjointCount(f: set<nat>, l: set<nat>, t: set<nat>)
    requires f + l == t && f * l == {}
    ensures |f| + |l| == |t|
  {
    assert |f + l| == |f| + |l|;
  }

  lemma FreePlusLive(h: Heap, pg: Page)
    requires FreeListOk(h, pg)
    ensures |pg.free| + |LiveOn(h, pg)| == Blocks(pg.blk)
  {
    hide IsBlock, Blocks, AllBlocks, NoDup;
    AllBlocksCount(pg.blk);
    Distinct(pg.free);
    var f, l, t := Elements(pg.free), LiveOn(h, pg), AllBlocks(pg.blk);
    assert f + l == t && f * l == {};
    DisjointCount(f, l, t);
  }

  /**
   Every page of every reachable heap: its free list has distinct block-aligned offsets inside the page,
   free and live blocks together make up the page, and at least one block is live.
   */
  lemma FreeLists(h: Heap, p: nat)
    requires Reachable(h) && p in h.pages
    ensures var pg := h.pages[p];
            && pg.blk < NSIZES && NoDup(pg.free)
            && (forall off | off in pg.free :: IsBlock(pg.blk, off))
            && |pg.free| + |LiveOn(h, pg)| == Blocks(pg.blk)
            && LiveOn(h, pg) != {}
  {
    hide Reachable, IsBlock, Blocks, LiveOn;
    ReachableInv(h);
    assert PageOk(h, h.pages[p]);
    FreePlusLive(h, h.pages[p]);
  }

  /** The bytes that an allocation may use: its block, or its pages. */
  ghost predicate Extent(h: Heap, x: nat, n: nat) {
    || (exists p :: BlockOf(h, p, x) && p in h.pages && h.pages[p].blk < NSIZES && n == SIZES[h.pages[p].blk])
    || (x in h.big && n == h.big[x].pages * PAGE)
  }

  lemma PagesApart(f: nat, g: nat)
    requires f % PAGE == 0 && g % PAGE == 0 && f != g
    ensures f + PAGE <= g || g + PAGE <= f
  {
  }

  lemma OffsetsApart(f: nat, b: nat, x: nat, g: nat, c: nat, y: nat)
    requires b < NSIZES && c < NSIZES && IsBlock(b, x) && IsBlock(c, y)
    requires (f == g && b == c && x < y) || f + PAGE <= g
    ensures f + x + SIZES[b] <= g + y
  {
    BlockFits(b, x);
    if f == g && b == c && x < y {
      BlocksApart(b, x, y);
    }
  }

  lemma BlocksDisjoint(h: Heap, x: nat, p: nat, y: nat, q: nat)
    requires Inv(h) && BlockOf(h, p, x) && BlockOf(h, q, y) && x < y
    ensures x + SIZES[h.pages[p].blk] <= y
  {
    hide IsBlock, PagesOk, ListsOk, LiveOk;
    var f, g := h.pages[p].addr, h.pages[q].addr;
    PageAligned(h, p);
    PageAligned(h, q);
    assert p != q ==> f != g;
    hide Apart;
    if p != q {
      PagesApart(f, g);
    }
    OffsetsApart(f, h.pages[p].blk, x - f, g, h.pages[q].blk, y - g);
  }

  lemma BlockThenBig(h: Heap, x: nat, p: nat, y: nat)
    requires Inv(h) && BlockOf(h, p, x) && y in h.big
    ensures x < y ==> x + SIZES[h.pages[p].blk] <= y
    ensures y < x ==> y + h.big[y].pages * PAGE <= x
  {
    hide PagesOk, ListsOk, LiveOk;
    var pg := h.pages[p];
    assert PageMissesBig(pg.addr, y, h.big[y].pages) && h.big[y].pages > 0;
    hide Apart;
    BlockFits(pg.blk, x - pg.addr);
    hide IsBlock;
  }

  /** No two allocations overlap. */
  lemma NoOverlap(h: Heap, x: nat, m: nat, y: nat, n: nat)
    requires Reachable(h) && Extent(h, x, m) && Extent(h, y, n) && x < y
    ensures x + m <= y
  {
    ReachableInv(h);
    hide Reachable, BlockOf, Inv;
    if p :| BlockOf(h, p, x) && p in h.pages && h.pages[p].blk < NSIZES && m == SIZES[h.pages[p].blk] {
      if q :| BlockOf(h, q, y) {
        BlocksDisjoint(h, x, p, y, q);
      } else {
        BlockThenBig(h, x, p, y);
      }
    } else {
      if q :| BlockOf(h, q, y) {
        BlockThenBig(h, y, q, x);
      } else {
        BigsApart(h, x, y);
      }
    }
  }

  lemma BigsApart(h: Heap, x: nat, y: nat)
    requires Inv(h) && x in h.big && y in h.big && x < y
    ensures x + h.big[x].pages * PAGE <= y
  {
  }

  /** Every allocation has room for what was asked for. */
  lemma BigEnough(h: Heap, x: nat)
    requires Reachable(h)
    ensures x in h.live ==> exists n: nat :: Extent(h, x, n) && n >= h.live[x]
    ensures x in h.big ==> exists n: nat :: Extent(h, x, n) && n >= h.big[x].size
  {
    ReachableInv(h);
    hide Reachable;
    if x in h.live {
      var p :| BlockOf(h, p, x);
      assert Extent(h, x, SIZES[h.pages[p].blk]);
    }
    if x in h.big {
      assert Extent(h, x, h.big[x].pages * PAGE);
    }
  }

  /**
   alloc_kpages keeps a big allocation away from the others exactly if the number of pages did not wrap: asked
   for no pages, it may hand out the address of an allocation that is in use.
   */
  lemma FreshUnlessWrapped(h: Heap, x: nat, sz: nat)
    requires Reachable(h) && x in h.big && LARGEST <= sz < Words.W32
    ensures Unowned(h, x, PagesFor(sz)) <==> sz > Words.W32 - PAGE
  {
    ReachableInv(h);
    hide Reachable, ListsOk, PagesOk, LiveOk;
    var n := PagesFor(sz);
    hide PagesFor;
    if n == 0 {
      UnownedNothing(h, x);
    }
  }

  lemma UnownedNothing(h: Heap, x: nat)
    requires Apart(h) && x in h.big
    ensures Unowned(h, x, 0)
  {
    forall p | p in h.pages
      ensures PageMissesBig(h.pages[p].addr, x, 0)
    {
      assert PageMissesBig(h.pages[p].addr, x, h.big[x].pages);
    }
    forall f | f in h.transit
      ensures PageMissesBig(f, x, 0)
    {
      assert PageMissesBig(f, x, h.big[x].pages);
    }
  }

  /** After one page was allocated, a request of the largest size may be given the same page. */
  lemma LargestSize() returns (h: Heap)
    ensures PagesFor(0xFFFF_FFFF) == 0
    ensures Reachable(h) && PAGE in h.big && Unowned(h, PAGE, PagesFor(0xFFFF_FFFF))
  {
    var a := AllocBig(PAGE, LARGEST);
    assert CanExec(Empty(), a);
    h := Exec(Empty(), a);
    assert Steps(h, [], h);
    assert Steps(Empty(), [a], h);
    FreshUnlessWrapped(h, PAGE, 0xFFFF_FFFF);
  }

  lemma TakenFresh(h: Heap, p: nat, sz: nat)
    requires p in h.pages && FreeListOk(h, h.pages[p]) && h.pages[p].free != []
    ensures var x := h.pages[p].addr + h.pages[p].free[0];
            x !in h.live && TakeBlock(h, p, sz).live == h.live[x := sz]
  {
    assert h.pages[p].free[0] in h.pages[p].free;
    assert IsBlock(h.pages[p].blk, h.pages[p].free[0]);
    hide IsBlock;
  }

  /** The page that an allocation step takes its block from, after the step has linked a new page if it does. */
  function Source(h: Heap, a: Action): (Heap, nat)
    requires CanExec(h, a) && (a.Alloc? || a.AddPage?)
  {
    if a.Alloc? then
      var q := h.same[BlockType(a.sz)];
      (h, q[FirstFree(q, h.pages)])
    else
      (Link(h, a.page, a.p, BlockType(a.sz)), a.p)
  }

  lemma SourceFree(h: Heap, a: Action)
    requires Inv(h) && CanExec(h, a) && (a.Alloc? || a.AddPage?)
    ensures var (h1, p) := Source(h, a);
            && h1.live == h.live
            && p in h1.pages && FreeListOk(h1, h1.pages[p]) && h1.pages[p].free != []
            && Exec(h, a) == TakeBlock(h1, p, a.sz)
  {
    if a.Alloc? {
      var (h1, p) := Source(h, a);
      assert PageOk(h, h.pages[p]);
    } else {
      assert |h.same| == NSIZES;
      hide Inv, FreeListOk;
      LinkFree(h, a.page, a.p, BlockType(a.sz));
    }
  }

  /** An allocation gets an address that is not in use and leaves the others alone. */
  lemma AllocFresh(h: Heap, a: Action) returns (x: nat)
    requires Reachable(h) && Enabled(h, a) && (a.Alloc? || a.AddPage?)
    ensures CanExec(h, a)
    ensures x !in h.live && Exec(h, a).live == h.live[x := a.sz]
  {
    hide Reachable, Inv, FreeListOk, Exec, CanExec, Enabled;
    ReachableInv(h);
    StepInv(h, a);
    SourceFree(h, a);
    var (h1, p) := Source(h, a);
    hide Source;
    TakenFresh(h1, p, a.sz);
    x := h1.pages[p].addr + h1.pages[p].free[0];
  }

  /** The block is the only live one exactly if one more free block would make the page fully free. */
  lemma LastBlock(h: Heap, pg: Page, off: nat)
    requires PageOk(h, pg) && IsBlock(pg.blk, off) && pg.addr + off in h.live
    ensures |pg.free| + 1 == Blocks(pg.blk) <==> LiveOn(h, pg) == {off}
  {
    FreePlusLive(h, pg);
    AllBlocksCount(pg.blk);
    hide IsBlock, Blocks, AllBlocks, FreeListOk;
    assert off in LiveOn(h, pg);
    if |LiveOn(h, pg)| == 1 {
      SubsetFull({off}, LiveOn(h, pg));
    }
  }

  /** A page leaves the lists, and its pageref is given up, exactly when its last live block is freed. */
  lemma ReturnedWithLast(h: Heap, x: nat, p: nat)
    requires Reachable(h) && BlockOf(h, p, x)
    ensures CanExec(h, Free(x))
    ensures var h' := Exec(h, Free(x));
            && h'.live == h.live - {x}
            && (p !in h'.pages <==> LiveOn(h, h.pages[p]) == {x - h.pages[p].addr})
            && h'.inuse == (if p in h'.pages then h.inuse else h.inuse - {p})
            && h'.transit == (if p in h'.pages then h.transit else h.transit + {h.pages[p].addr})
            && (forall q | q != p :: q in h'.pages <==> q in h.pages)
  {
    hide Reachable, Inv, PageOk, IsBlock, Blocks, LiveOn, Exec, CanExec;
    ReachableInv(h);
    StepInv(h, Free(x));
    PageIsOk(h, p);
    FindsOwner(h, x, p);
    FreeEffect(h, x, p);
    LastBlock(h, h.pages[p], x - h.pages[p].addr);
  }

  lemma PageIsOk(h: Heap, p: nat)
    requires Inv(h) && p in h.pages
    ensures PageOk(h, h.pages[p])
  {
  }

  lemma FreeEffect(h: Heap, x: nat, p: nat)
    requires CanExec(h, Free(x)) && OwnerFound(h, x) && Owner(h, x) == p
    ensures var h' := Exec(h, Free(x));
            && h'.live == h.live - {x}
            && (p !in h'.pages <==> |h.pages[p].free| + 1 == Blocks(h.pages[p].blk))
            && h'.inuse == (if p in h'.pages then h.inuse else h.inuse - {p})
            && h'.transit == (if p in h'.pages then h.transit else h.transit + {h.pages[p].addr})
            && (forall q | q != p :: q in h'.pages <==> q in h.pages)
  {
    hide Blocks;
  }

  /** The lists by size partition the list of all pages by block type, and listed pagerefs are in use. */
  lemma Bookkeeping(h: Heap, p: nat)
    requires Reachable(h)
    ensures NoDup(h.all) && |h.same| == NSIZES && forall b | 0 <= b < NSIZES :: NoDup(h.same[b])
    ensures p in h.all <==> exists b | 0 <= b < NSIZES :: p in h.same[b]
    ensures forall b, c | 0 <= b < NSIZES && 0 <= c < NSIZES && p in h.same[b] && p in h.same[c] :: b == c
    ensures p in h.all ==> p in h.inuse && p in h.pages && h.pages[p].blk < NSIZES && p in h.same[h.pages[p].blk]
  {
    ReachableInv(h);
    if p in h.all {
      PageAligned(h, p);
      assert p in h.same[h.pages[p].blk];
    }
  }
}
