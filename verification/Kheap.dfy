/**
 The kernel heap of src/kern/vm/kmalloc.c with its pagerefs, its lists, its in-page free lists and its
 bitmap of pagerefs, changed in place.  Every method is one critical section of kmalloc_spinlock, or a
 part of one, and carries out a step of KheapSpec.
 */
module Kheap {
  import opened Counting
  import opened KheapSpec
  import opened Lists
  import Roots = KheapRoots
  import Words

  const NULL: int := -1
  const INVALID_OFFSET: nat := 0xffff

  /** A struct pageref; pagerefs are named by their number among all pages of pagerefs. */
  datatype Ref = Ref(nextSame: int, nextAll: int, pab: nat, off: nat, nfree: nat)

  function PageAddr(r: Ref): nat { r.pab - r.pab % PAGE }

  function RefType(r: Ref): nat { r.pab % PAGE }

  /** MKPAB packs a page address and a block type into one word. */
  function MkPab(page: nat, blk: nat): nat { page - page % PAGE + blk % PAGE }

  lemma PabParts(r: Ref, page: nat, blk: nat)
    requires r.pab == MkPab(page, blk) && page % PAGE == 0 && blk < PAGE
    ensures PageAddr(r) == page && RefType(r) == blk
  {
  }

  // ---------------------------------------------------------------- what the fields represent

  function NodeAt(q: seq<nat>, i: nat): int {
    if i < |q| then q[i] else NULL
  }

  /** The list of all pages, linked through next_all. */
  ghost predicate AllChain(refs: seq<Ref>, head: int, q: seq<nat>) {
    && head == NodeAt(q, 0)
    && forall i | 0 <= i < |q| :: q[i] < |refs| && refs[q[i]].nextAll == NodeAt(q, i + 1)
  }

  /** A list of pages of one size, linked through next_samesize. */
  ghost predicate SameChain(refs: seq<Ref>, head: int, q: seq<nat>) {
    && head == NodeAt(q, 0)
    && forall i | 0 <= i < |q| :: q[i] < |refs| && refs[q[i]].nextSame == NodeAt(q, i + 1)
  }

  function NextFree(page: nat, free: seq<nat>, i: nat): nat {
    if i < |free| then page + free[i] else 0
  }

  /** The free list of a page, linked through the first word of every free block. */
  ghost predicate FreeChain(mem: map<nat, nat>, page: nat, off: nat, free: seq<nat>) {
    && off == (if free == [] then INVALID_OFFSET else free[0])
    && forall i | 0 <= i < |free| :: page + free[i] in mem && mem[page + free[i]] == NextFree(page, free, i + 1)
  }

  ghost predicate RefOk(r: Ref, mem: map<nat, nat>, pg: Page) {
    && PageAddr(r) == pg.addr && RefType(r) == pg.blk && r.nfree == |pg.free|
    && FreeChain(mem, pg.addr, r.off, pg.free)
  }

  ghost predicate ListRep(refs: seq<Ref>, sizebases: seq<int>, allbase: int, h: Heap) {
    && |refs| == REFS && |sizebases| == NSIZES && |h.same| == NSIZES
    && AllChain(refs, allbase, h.all)
    && forall b | 0 <= b < NSIZES :: SameChain(refs, sizebases[b], h.same[b])
  }

  ghost predicate PageRep(refs: seq<Ref>, mem: map<nat, nat>, h: Heap) {
    |refs| == REFS && forall p | p in h.pages :: p < REFS && RefOk(refs[p], mem, h.pages[p])
  }

  function RootBits(inuse: seq<bool>, r: nat): seq<bool>
    requires |inuse| == REFS && r < ROOTS
  {
    inuse[r * PER_PAGE..(r + 1) * PER_PAGE]
  }

  /** The bitmap of pagerefs in use, and the number of its bits per page of pagerefs. */
  ghost predicate BitRep(inuse: seq<bool>, numinuse: seq<nat>, h: Heap) {
    && |inuse| == REFS && |numinuse| == ROOTS
    && (forall p | 0 <= p < REFS :: inuse[p] <==> p in h.inuse)
    && (forall r | 0 <= r < ROOTS :: numinuse[r] == CountTrue(RootBits(inuse, r)))
  }

  /** present says which pages of pagerefs exist; the pagerefs on the lists are on such pages. */
  ghost predicate RootRep(present: seq<bool>, h: Heap) {
    && |present| == ROOTS
    && (forall p | p in h.pages && p < REFS :: present[p / PER_PAGE])
  }

  // ---------------------------------------------------------------- free lists in memory

  /** Taking the first block leaves the rest of the chain. */
  lemma ChainTail(mem: map<nat, nat>, page: nat, off: nat, free: seq<nat>)
    requires page > 0 && free != [] && FreeChain(mem, page, off, free)
    ensures off == free[0] && page + off in mem
    ensures var next := mem[page + off];
            && (next != 0 <==> |free| > 1)
            && (next != 0 ==> next == page + free[1])
            && FreeChain(mem, page, if next != 0 then next - page else INVALID_OFFSET, free[1..])
  {
    assert page + free[0] in mem && mem[page + free[0]] == NextFree(page, free, 1);
    forall i | 0 <= i < |free[1..]|
      ensures page + free[1..][i] in mem && mem[page + free[1..][i]] == NextFree(page, free[1..], i + 1)
    {
      assert page + free[i + 1] in mem && mem[page + free[i + 1]] == NextFree(page, free, i + 2);
    }
  }

  lemma ChainSame(mem: map<nat, nat>, mem': map<nat, nat>, page: nat, off: nat, free: seq<nat>)
    requires FreeChain(mem, page, off, free)
    requires forall x | x in free && page + x in mem :: page + x in mem' && mem'[page + x] == mem[page + x]
    ensures FreeChain(mem', page, off, free)
  {
    forall i | 0 <= i < |free|
      ensures page + free[i] in mem' && mem'[page + free[i]] == NextFree(page, free, i + 1)
    {
      assert page + free[i] in mem;
      assert free[i] in free;
    }
  }

  /** A block put in front of the chain. */
  lemma ChainCons(mem: map<nat, nat>, page: nat, off: nat, free: seq<nat>, x: nat)
    requires FreeChain(mem, page, off, free) && page + x in mem
    requires mem[page + x] == NextFree(page, free, 0)
    ensures FreeChain(mem, page, x, [x] + free)
  {
    var q := [x] + free;
    forall i | 0 <= i < |q|
      ensures page + q[i] in mem && mem[page + q[i]] == NextFree(page, q, i + 1)
    {
      if i > 0 {
        assert page + free[i - 1] in mem && mem[page + free[i - 1]] == NextFree(page, free, i);
      }
    }
  }

  /** The links among pagerefs are the same. */
  ghost predicate SameLinks(refs: seq<Ref>, refs': seq<Ref>) {
    |refs'| == |refs| && forall p | 0 <= p < |refs| ::
      refs'[p].nextSame == refs[p].nextSame && refs'[p].nextAll == refs[p].nextAll
  }

  lemma ListRepKept(refs: seq<Ref>, refs': seq<Ref>, sizebases: seq<int>, allbase: int, h: Heap, h': Heap)
    requires ListRep(refs, sizebases, allbase, h) && SameLinks(refs, refs') && h'.all == h.all && h'.same == h.same
    ensures ListRep(refs', sizebases, allbase, h')
  {
    forall b | 0 <= b < NSIZES
      ensures SameChain(refs', sizebases[b], h.same[b])
    {
      assert SameChain(refs, sizebases[b], h.same[b]);
    }
  }

  /** Changing the free list of page p in its pageref and its own words. */
  lemma PageRepKept(refs: seq<Ref>, refs': seq<Ref>, mem: map<nat, nat>, mem': map<nat, nat>, h: Heap, h': Heap, p: nat)
    requires PageRep(refs, mem, h) && |refs'| == REFS && p < REFS
    requires forall q | 0 <= q < REFS && q != p ::
             PageAddr(refs'[q]) == PageAddr(refs[q]) && RefType(refs'[q]) == RefType(refs[q])
                                                 && refs'[q].nfree == refs[q].nfree && refs'[q].off == refs[q].off
    requires forall q | q in h'.pages && q != p :: q in h.pages && h'.pages[q] == h.pages[q]
    requires forall q, x | q in h.pages && q != p && x in h.pages[q].free && h.pages[q].addr + x in mem ::
               h.pages[q].addr + x in mem' && mem'[h.pages[q].addr + x] == mem[h.pages[q].addr + x]
    requires p in h'.pages ==> RefOk(refs'[p], mem', h'.pages[p])
    ensures PageRep(refs', mem', h')
  {
    hide PageAddr, RefType;
    forall q | q in h'.pages
      ensures q < REFS && RefOk(refs'[q], mem', h'.pages[q])
    {
      if q != p {
        assert RefOk(refs[q], mem, h.pages[q]);
        ChainSame(mem, mem', h.pages[q].addr, refs[q].off, h.pages[q].free);
      }
    }
  }

  lemma BlockPositive(h: Heap, p: nat)
    requires InvBut(h, p)
    ensures h.pages[p].addr > 0 && h.pages[p].addr % PAGE == 0 && h.pages[p].blk < NSIZES
    ensures forall x | x in h.pages[p].free :: x < PAGE
  {
    forall x | x in h.pages[p].free
      ensures x < PAGE
    {
      assert IsBlock(h.pages[p].blk, x);
    }
  }

  /** What the code at doalloc may rely on, and its assertions. */
  lemma FirstBlock(refs: seq<Ref>, mem: map<nat, nat>, h: Heap, pr: nat)
    requires PageRep(refs, mem, h) && pr in h.pages && h.pages[pr].free != []
    requires h.pages[pr].addr > 0 && forall x | x in h.pages[pr].free :: x < PAGE
    ensures |refs| == REFS && pr < REFS && refs[pr].nfree > 0 && refs[pr].off < PAGE
    ensures PageAddr(refs[pr]) == h.pages[pr].addr && refs[pr].off == h.pages[pr].free[0]
    ensures var ptr := PageAddr(refs[pr]) + refs[pr].off;
            && ptr in mem && ptr > 0
            && (mem[ptr] != 0 <==> refs[pr].nfree > 1)
            && (mem[ptr] != 0 ==> 0 <= mem[ptr] - PageAddr(refs[pr]) < PAGE)
  {
    hide PageAddr, RefType;
    var pg := h.pages[pr];
    assert RefOk(refs[pr], mem, pg);
    ChainTail(mem, pg.addr, refs[pr].off, pg.free);
    assert pg.free[0] in pg.free;
    if |pg.free| > 1 {
      assert pg.free[1] in pg.free;
    }
  }

  /** The pageref after its first free block is taken. */
  function AfterTake(r: Ref, next: nat): Ref
    requires r.nfree > 0 && (next != 0 ==> PageAddr(r) <= next)
  {
    r.(nfree := r.nfree - 1, off := if next != 0 then next - PageAddr(r) else INVALID_OFFSET)
  }

  /** The assertions of the code at doalloc, for the pageref and the word at the head of the free list. */
  predicate TakeOk(r: Ref, next: nat) {
    && r.off < PAGE && r.nfree > 0
    && if next != 0 then r.nfree > 1 && PageAddr(r) <= next < PageAddr(r) + PAGE else r.nfree == 1
  }

  lemma TakeRef(r: Ref, mem: map<nat, nat>, pg: Page)
    requires RefOk(r, mem, pg) && pg.free != [] && pg.addr > 0
    ensures pg.addr + r.off in mem && r.nfree > 0
    ensures mem[pg.addr + r.off] != 0 ==> PageAddr(r) <= mem[pg.addr + r.off]
    ensures RefOk(AfterTake(r, mem[pg.addr + r.off]), mem, pg.(free := pg.free[1..]))
  {
    ChainTail(mem, pg.addr, r.off, pg.free);
  }

  lemma TakeRep(refs: seq<Ref>, sizebases: seq<int>, allbase: int, mem: map<nat, nat>, h: Heap, pr: nat, sz: nat)
    requires ListRep(refs, sizebases, allbase, h) && PageRep(refs, mem, h)
    requires pr in h.pages && h.pages[pr].free != [] && h.pages[pr].addr > 0
    ensures pr < REFS && refs[pr].nfree > 0 && PageAddr(refs[pr]) + refs[pr].off in mem
    ensures var next := mem[PageAddr(refs[pr]) + refs[pr].off];
            && (next != 0 ==> PageAddr(refs[pr]) <= next)
            && var refs' := refs[pr := AfterTake(refs[pr], next)];
               ListRep(refs', sizebases, allbase, TakeBlock(h, pr, sz)) && PageRep(refs', mem, TakeBlock(h, pr, sz))
  {
    var h' := TakeBlock(h, pr, sz);
    assert RefOk(refs[pr], mem, h.pages[pr]);
    TakeRef(refs[pr], mem, h.pages[pr]);
    var refs' := refs[pr := AfterTake(refs[pr], mem[PageAddr(refs[pr]) + refs[pr].off])];
    hide RefOk, FreeChain;
    ListRepKept(refs, refs', sizebases, allbase, h, h');
    PageRepKept(refs, refs', mem, mem, h, h', pr);
  }

  lemma BitsKept(inuse: seq<bool>, numinuse: seq<nat>, present: seq<bool>, h: Heap, h': Heap)
    requires BitRep(inuse, numinuse, h) && RootRep(present, h)
    requires h'.inuse == h.inuse && forall p :: p in h'.pages <==> p in h.pages
    ensures BitRep(inuse, numinuse, h') && RootRep(present, h')
  {
  }

  /** A step along a list of pages of one size. */
  lemma SameNext(refs: seq<Ref>, sizebases: seq<int>, allbase: int, mem: map<nat, nat>, h: Heap, b: nat, i: nat)
    requires Inv(h) && ListRep(refs, sizebases, allbase, h) && PageRep(refs, mem, h) && b < NSIZES
    requires i < |h.same[b]|
    ensures var p := h.same[b][i];
            && p < REFS && p in h.pages && h.pages[p].blk == b && InvBut(h, p)
            && refs[p].nfree == |h.pages[p].free| && RefType(refs[p]) == b
            && refs[p].nextSame == NodeAt(h.same[b], i + 1)
  {
    var p := h.same[b][i];
    assert p in h.same[b];
    assert SameChain(refs, sizebases[b], h.same[b]);
    assert p in h.pages && RefOk(refs[p], mem, h.pages[p]) && PageOk(h, h.pages[p]);
  }

  lemma SameHead(refs: seq<Ref>, sizebases: seq<int>, allbase: int, h: Heap, b: nat)
    requires ListRep(refs, sizebases, allbase, h) && b < NSIZES
    ensures |refs| == REFS && |sizebases| == NSIZES && |h.same| == NSIZES && sizebases[b] == NodeAt(h.same[b], 0)
  {
    assert SameChain(refs, sizebases[b], h.same[b]);
  }

  /** The first page with a free block, as a loop finds it. */
  lemma FoundFree(q: seq<nat>, pages: map<nat, Page>, i: nat)
    requires forall p | p in q :: p in pages
    requires i <= |q| && forall k | 0 <= k < i :: pages[q[k]].free == []
    requires i == |q| || pages[q[i]].free != []
    ensures FirstFree(q, pages) == i
  {
    var j := FirstFree(q, pages);
    assert j < |q| ==> q[j] in q;
    assert i < |q| ==> q[i] in q;
  }

  /** The search result decides whether the step is possible, and what it does. */
  lemma AllocIs(h: Heap, sz: nat, i: nat)
    requires Inv(h) && sz < LARGEST && i == FirstFree(h.same[BlockType(sz)], h.pages)
    ensures var q := h.same[BlockType(sz)];
            && (Enabled(h, Alloc(sz)) <==> i < |q|)
            && (i < |q| ==>
                  && CanExec(h, Alloc(sz)) && q[i] in h.pages && h.pages[q[i]].free != []
                  && Exec(h, Alloc(sz)) == TakeBlock(h, q[i], sz))
  {
    AllListed(h, BlockType(sz));
    var q := h.same[BlockType(sz)];
    assert i < |q| ==> q[i] in q;
  }

  lemma AllListed(h: Heap, b: nat)
    requires Inv(h) && b < NSIZES
    ensures |h.same| == NSIZES && forall p | p in h.same[b] :: p in h.pages
  {
  }

  // ---------------------------------------------------------------- the bitmap of pagerefs

  lemma RootSet(inuse: seq<bool>, p: nat, v: bool, r: nat)
    requires |inuse| == REFS && p < REFS && r < ROOTS
    ensures r != p / PER_PAGE ==> RootBits(inuse[p := v], r) == RootBits(inuse, r)
    ensures r == p / PER_PAGE ==>
              RootBits(inuse[p := v], r) == RootBits(inuse, r)[p % PER_PAGE := v]
                && RootBits(inuse, r)[p % PER_PAGE] == inuse[p]
  {
  }

  /** Setting or clearing one bit, and counting it. */
  lemma FlipBit(inuse: seq<bool>, numinuse: seq<nat>, h: Heap, p: nat, v: bool)
    requires BitRep(inuse, numinuse, h) && p < REFS && inuse[p] != v
    ensures var r := p / PER_PAGE;
            && r < ROOTS && (v ==> numinuse[r] < PER_PAGE) && (!v ==> numinuse[r] > 0)
            && var h' := h.(inuse := if v then h.inuse + {p} else h.inuse - {p});
               BitRep(inuse[p := v], numinuse[r := if v then numinuse[r] + 1 else numinuse[r] - 1], h')
  {
    var r := p / PER_PAGE;
    RootSet(inuse, p, v, r);
    CountSet(RootBits(inuse, r), p % PER_PAGE, v);
    hide RootBits, CountTrue;
    forall k | 0 <= k < ROOTS
      ensures k != r ==> RootBits(inuse[p := v], k) == RootBits(inuse, k)
    {
      RootSet(inuse, p, v, k);
    }
  }

  /** A page of pagerefs whose count has reached its size has no clear bit. */
  lemma RootFull(inuse: seq<bool>, numinuse: seq<nat>, h: Heap, r: nat)
    requires BitRep(inuse, numinuse, h) && r < ROOTS && numinuse[r] >= PER_PAGE
    ensures forall k | r * PER_PAGE <= k < (r + 1) * PER_PAGE :: inuse[k]
  {
    var bits := RootBits(inuse, r);
    CountFull(bits);
    forall k | r * PER_PAGE <= k < (r + 1) * PER_PAGE
      ensures inuse[k]
    {
      assert bits[k - r * PER_PAGE];
    }
  }

  lemma ReserveRep(present: seq<bool>, h: Heap, p: nat)
    requires RootRep(present, h)
    ensures |present| == ROOTS && RootRep(present, h.(inuse := h.inuse + {p}))
  {
  }

  /** The count of a page of pagerefs is 0 exactly if none of them is in use. */
  lemma RootEmpty(inuse: seq<bool>, numinuse: seq<nat>, h: Heap, r: nat)
    requires BitRep(inuse, numinuse, h) && r < ROOTS
    ensures numinuse[r] == 0 <==> forall k | k in h.inuse && k < REFS :: k / PER_PAGE != r
  {
    var bits := RootBits(inuse, r);
    CountNone(bits);
    forall k | k in h.inuse && k < REFS && k / PER_PAGE == r
      ensures bits[k - r * PER_PAGE]
    {
      assert bits[k - r * PER_PAGE] == inuse[k];
    }
    forall i | 0 <= i < |bits| && bits[i]
      ensures r * PER_PAGE + i in h.inuse && (r * PER_PAGE + i) / PER_PAGE == r
    {
      assert bits[i] == inuse[r * PER_PAGE + i];
    }
  }

  lemma ListPageKept(refs: seq<Ref>, sizebases: seq<int>, allbase: int, mem: map<nat, nat>, h: Heap, h': Heap)
    requires ListRep(refs, sizebases, allbase, h) && PageRep(refs, mem, h)
    requires h'.all == h.all && h'.same == h.same && h'.pages == h.pages
    ensures ListRep(refs, sizebases, allbase, h') && PageRep(refs, mem, h')
  {
  }

  lemma LeastIs(s: set<nat>, p: nat)
    requires p <= REFS && (p < REFS ==> p !in s) && forall k | 0 <= k < p :: k in s
    ensures LeastUnused(s, 0) == p
  {
    var q := LeastUnused(s, 0);
    assert q < p ==> q in s;
  }

  lemma ReserveIs(h: Heap, p: nat)
    requires Inv(h) && p <= REFS && (p < REFS ==> p !in h.inuse) && forall k | 0 <= k < p :: k in h.inuse
    ensures Enabled(h, Reserve) <==> p < REFS
    ensures p < REFS ==> CanExec(h, Reserve) && Exec(h, Reserve) == h.(inuse := h.inuse + {p}) && p !in h.pages
    ensures p < REFS ==> Inv(h.(inuse := h.inuse + {p}))
  {
    LeastIs(h.inuse, p);
    if p < REFS {
      hide Inv;
      StepInv(h, Reserve);
    }
    assert forall q | q in h.pages :: q in h.inuse;
  }

  predicate WordFull(inuse: seq<bool>, base: nat)
    requires base + 32 <= |inuse|
  {
    forall k | base <= k < base + 32 :: inuse[k]
  }

  // ---------------------------------------------------------------- entering a page

  lemma AllCons(refs: seq<Ref>, refs': seq<Ref>, head: int, q: seq<nat>, p: nat)
    requires AllChain(refs, head, q) && p < |refs| && p !in q && |refs'| == |refs|
    requires forall k | 0 <= k < |refs| && k != p :: refs'[k] == refs[k]
    requires refs'[p].nextAll == head
    ensures AllChain(refs', p, [p] + q)
  {
    var q' := [p] + q;
    forall i | 0 <= i < |q'|
      ensures q'[i] < |refs'| && refs'[q'[i]].nextAll == NodeAt(q', i + 1)
    {
      if i > 0 {
        assert q[i - 1] in q;
        assert refs[q[i - 1]].nextAll == NodeAt(q, i);
      }
    }
  }

  lemma SameCons(refs: seq<Ref>, refs': seq<Ref>, head: int, q: seq<nat>, p: nat)
    requires SameChain(refs, head, q) && p < |refs| && p !in q && |refs'| == |refs|
    requires forall k | 0 <= k < |refs| && k != p :: refs'[k] == refs[k]
    ensures SameChain(refs', head, q)
    ensures refs'[p].nextSame == head ==> SameChain(refs', p, [p] + q)
  {
    forall i | 0 <= i < |q|
      ensures q[i] < |refs'| && refs'[q[i]].nextSame == NodeAt(q, i + 1)
    {
      assert q[i] in q;
      assert refs[q[i]].nextSame == NodeAt(q, i + 1);
    }
    var q' := [p] + q;
    forall i | 1 <= i < |q'|
      ensures q'[i] < |refs'| && refs'[q'[i]].nextSame == NodeAt(q', i + 1)
    {
      assert refs[q[i - 1]].nextSame == NodeAt(q, i);
    }
  }

  /** Before and after a new pageref is put at the head of both lists. */
  lemma LinkList(refs: seq<Ref>, sizebases: seq<int>, allbase: int, h: Heap, page: nat, p: nat, b: nat, r: Ref)
    requires ListRep(refs, sizebases, allbase, h) && p < REFS && p !in h.all && b < NSIZES
    requires forall c | 0 <= c < NSIZES :: p !in h.same[c]
    requires r.nextSame == sizebases[b] && r.nextAll == allbase
    ensures ListRep(refs[p := r], sizebases[b := p], p, Link(h, page, p, b))
  {
    var refs' := refs[p := r];
    AllCons(refs, refs', allbase, h.all, p);
    hide AllChain, SameChain;
    forall c | 0 <= c < NSIZES
      ensures SameChain(refs', sizebases[b := p][c], Link(h, page, p, b).same[c])
    {
      SameCons(refs, refs', sizebases[c], h.same[c], p);
    }
  }

  lemma LinkPages(refs: seq<Ref>, mem: map<nat, nat>, mem': map<nat, nat>, h: Heap, page: nat, p: nat, b: nat, r: Ref)
    requires Inv(h) && PageRep(refs, mem, h) && page in h.transit && p < REFS && p !in h.pages && b < NSIZES
             && |h.same| == NSIZES
    requires forall x | x in mem && !(page <= x < page + PAGE) :: x in mem' && mem'[x] == mem[x]
    requires r.pab == MkPab(page, b) && r.nfree == Blocks(b) && FreeChain(mem', page, r.off, Fill(b, Blocks(b)))
    ensures PageRep(refs[p := r], mem', Link(h, page, p, b))
  {
    TransitAligned(h, page);
    PabParts(r, page, b);
    forall q, x | q in h.pages && x in h.pages[q].free
      ensures !(page <= h.pages[q].addr + x < page + PAGE)
    {
      assert PageOk(h, h.pages[q]) && IsBlock(h.pages[q].blk, x);
      OtherFrame(page, h.pages[q].addr, x);
    }
    hide Inv, MkPab, PageAddr, RefType, FreeChain, IsBlock;
    PageRepKept(refs, refs[p := r], mem, mem', h, Link(h, page, p, b), p);
  }

  lemma OtherFrame(f: nat, g: nat, x: nat)
    requires f % PAGE == 0 && g % PAGE == 0 && f != g && x < PAGE
    ensures !(f <= g + x < f + PAGE)
  {
  }

  /** A block that is not on the chain, written to point to its head. */
  lemma ChainPut(mem: map<nat, nat>, page: nat, off: nat, free: seq<nat>, x: nat)
    requires FreeChain(mem, page, off, free) && x !in free
    ensures FreeChain(mem[page + x := NextFree(page, free, 0)], page, x, [x] + free)
  {
    var mem' := mem[page + x := NextFree(page, free, 0)];
    ChainSame(mem, mem', page, off, free);
    ChainCons(mem', page, off, free, x);
  }

  lemma InPage(b: nat, k: nat)
    requires b < NSIZES && k < Blocks(b)
    ensures BlockOffset(b, k) < PAGE
  {
    hide Blocks;
    BlockAt(b, k);
  }

  lemma FillOne(mem: map<nat, nat>, page: nat, b: nat)
    requires b < NSIZES
    ensures Blocks(b) > 0 && BlockOffset(b, 0) == 0
    ensures FreeChain(mem[page := 0], page, BlockOffset(b, 0), Fill(b, 1))
  {
    assert Fill(b, 1) == [0];
  }

  lemma FillBelow(b: nat, i: nat)
    requires b < NSIZES
    ensures BlockOffset(b, i) !in Fill(b, i)
    ensures Fill(b, i + 1) == [BlockOffset(b, i)] + Fill(b, i)
  {
    forall k | 0 <= k < i
      ensures Fill(b, i)[k] != BlockOffset(b, i)
    {
      Bigger(i, i - 1 - k, SIZES[b]);
    }
  }

  /** One turn of the loop that strings a new page's blocks together. */
  lemma FillStep(mem: map<nat, nat>, page: nat, b: nat, i: nat)
    requires b < NSIZES && 0 < i
    requires FreeChain(mem, page, BlockOffset(b, i - 1), Fill(b, i))
    ensures var mem' := mem[page + BlockOffset(b, i) := page + BlockOffset(b, i - 1)];
            FreeChain(mem', page, BlockOffset(b, i), Fill(b, i + 1))
  {
    hide BlockOffset, FreeChain, Fill;
    var q, x, y := Fill(b, i), BlockOffset(b, i), BlockOffset(b, i - 1);
    FillBelow(b, i);
    assert q[0] == y;
    ChainPut(mem, page, y, q, x);
  }

  lemma AddPageIs(h: Heap, page: nat, p: nat, sz: nat)
    requires Inv(h) && page in h.transit && p in h.inuse && p !in h.pages && sz < LARGEST
    ensures |h.same| == NSIZES && p < REFS && p !in h.all && forall c | 0 <= c < NSIZES :: p !in h.same[c]
    ensures page % PAGE == 0 && page > 0
    ensures CanExec(h, AddPage(page, p, sz))
    ensures var h1 := Link(h, page, p, BlockType(sz));
            && InvBut(h1, p) && h1.pages[p].free != [] && Exec(h, AddPage(page, p, sz)) == TakeBlock(h1, p, sz)
            && (forall q :: q in h1.pages <==> q in h.pages || q == p) && h1.inuse == h.inuse
  {
    LinkInv(h, page, p, BlockType(sz));
    TransitAligned(h, page);
    FillOne(map[], page, BlockType(sz));
  }

  lemma LinkRoots(inuse: seq<bool>, numinuse: seq<nat>, present: seq<bool>, h: Heap, h1: Heap, p: nat)
    requires BitRep(inuse, numinuse, h) && RootRep(present, h) && |present| == ROOTS && p < REFS
             && present[p / PER_PAGE]
    requires h1.inuse == h.inuse && forall q :: q in h1.pages <==> q in h.pages || q == p
    ensures BitRep(inuse, numinuse, h1) && RootRep(present, h1)
  {
  }

  // ---------------------------------------------------------------- unlinking a page

  lemma CutHead(q: seq<nat>, i: nat)
    requires i < |q|
    ensures i == 0 ==> q[..i] + q[i + 1..] == q[1..]
    ensures NodeAt(q[..i] + q[i + 1..], 0) == NodeAt(q, if i == 0 then 1 else 0)
  {
  }

  /** What stands at position k, and what follows it, after position i was cut out. */
  lemma CutNode(q: seq<nat>, i: nat, k: nat)
    requires i < |q| && k < |q| - 1
    ensures var q' := q[..i] + q[i + 1..];
            && q'[k] == (if k < i then q[k] else q[k + 1])
            && NodeAt(q', k + 1) == NodeAt(q, if k + 1 < i then k + 1 else k + 2)
  {
  }

  /** Bypassing the entry at position i of a list of one size. */
  lemma SameUnlink(refs: seq<Ref>, head: int, q: seq<nat>, i: nat)
    requires SameChain(refs, head, q) && NoDup(q) && i < |q|
    ensures i == 0 ==> SameChain(refs, refs[q[0]].nextSame, q[1..])
    ensures i > 0 ==>
            SameChain(refs[q[i - 1] := refs[q[i - 1]].(nextSame := refs[q[i]].nextSame)], head, q[..i] + q[i + 1..])
  {
    hide NodeAt;
    var q' := q[..i] + q[i + 1..];
    var refs' := if i == 0 then refs else refs[q[i - 1] := refs[q[i - 1]].(nextSame := refs[q[i]].nextSame)];
    CutHead(q, i);
    forall k | 0 <= k < |q'|
      ensures q'[k] < |refs'| && refs'[q'[k]].nextSame == NodeAt(q', k + 1)
    {
      CutNode(q, i, k);
    }
  }

  /** Bypassing the entry at position i of the list of all pages. */
  lemma AllUnlink(refs: seq<Ref>, head: int, q: seq<nat>, i: nat)
    requires AllChain(refs, head, q) && NoDup(q) && i < |q|
    ensures i == 0 ==> AllChain(refs, refs[q[0]].nextAll, q[1..])
    ensures i > 0 ==>
            AllChain(refs[q[i - 1] := refs[q[i - 1]].(nextAll := refs[q[i]].nextAll)], head, q[..i] + q[i + 1..])
  {
    hide NodeAt;
    var q' := q[..i] + q[i + 1..];
    var refs' := if i == 0 then refs else refs[q[i - 1] := refs[q[i - 1]].(nextAll := refs[q[i]].nextAll)];
    CutHead(q, i);
    forall k | 0 <= k < |q'|
      ensures q'[k] < |refs'| && refs'[q'[k]].nextAll == NodeAt(q', k + 1)
    {
      CutNode(q, i, k);
    }
  }

  ghost predicate SameButSame(refs: seq<Ref>, refs': seq<Ref>) {
    |refs'| == |refs| && forall p | 0 <= p < |refs| :: refs'[p] == refs[p].(nextSame := refs'[p].nextSame)
  }

  ghost predicate SameButAll(refs: seq<Ref>, refs': seq<Ref>) {
    |refs'| == |refs| && forall p | 0 <= p < |refs| :: refs'[p] == refs[p].(nextAll := refs'[p].nextAll)
  }

  function WithoutSame(h: Heap, b: nat, p: nat): Heap
    requires b < |h.same|
  {
    h.(same := h.same[b := Remove(h.same[b], p)])
  }

  function WithoutAll(h: Heap, p: nat): Heap {
    h.(all := Remove(h.all, p))
  }

  lemma OtherSame(refs: seq<Ref>, refs': seq<Ref>, sizebases: seq<int>, allbase: int, h: Heap, b: nat, c: nat, q: nat)
    requires ListRep(refs, sizebases, allbase, h) && |refs'| == |refs| && b < NSIZES && c < NSIZES && c != b
    requires forall k | 0 <= k < |refs| && k != q :: refs'[k] == refs[k]
    requires q !in h.same[c]
    ensures SameChain(refs', sizebases[c], h.same[c])
  {
    assert SameChain(refs, sizebases[c], h.same[c]);
    forall i | 0 <= i < |h.same[c]|
      ensures h.same[c][i] < |refs'| && refs'[h.same[c][i]].nextSame == NodeAt(h.same[c], i + 1)
    {
      assert h.same[c][i] in h.same[c];
    }
  }

  lemma AllButSame(refs: seq<Ref>, refs': seq<Ref>, head: int, q: seq<nat>)
    requires AllChain(refs, head, q) && SameButSame(refs, refs')
    ensures AllChain(refs', head, q)
  {
    forall i | 0 <= i < |q|
      ensures q[i] < |refs'| && refs'[q[i]].nextAll == NodeAt(q, i + 1)
    {
      assert refs[q[i]].nextAll == NodeAt(q, i + 1);
    }
  }

  /** The lists after the first entry of size list b is bypassed. */
  lemma UnlinkSameHead(refs: seq<Ref>, sizebases: seq<int>, allbase: int, h: Heap, b: nat)
    requires ListRep(refs, sizebases, allbase, h) && b < NSIZES && NoDup(h.same[b]) && h.same[b] != []
    ensures h.same[b][0] < REFS
    ensures ListRep(refs, sizebases[b := refs[h.same[b][0]].nextSame], allbase, WithoutSame(h, b, h.same[b][0]))
  {
    var q := h.same[b];
    SameStep(refs, sizebases, allbase, h, b, 0);
    assert SameChain(refs, sizebases[b], q);
    hide SameChain, AllChain;
    SameUnlink(refs, sizebases[b], q, 0);
    assert Remove(q, q[0]) == q[1..];
  }

  /** The lists after a later entry of size list b is bypassed. */
  lemma UnlinkSameNext(refs: seq<Ref>, sizebases: seq<int>, allbase: int, h: Heap, b: nat, i: nat)
    requires ListRep(refs, sizebases, allbase, h) && b < NSIZES && NoDup(h.same[b]) && 0 < i < |h.same[b]|
    requires forall c, p | 0 <= c < NSIZES && c != b && p in h.same[b] :: p !in h.same[c]
    ensures var q := h.same[b];
            && q[i] < REFS && q[i - 1] < REFS
            && var refs' := refs[q[i - 1] := refs[q[i - 1]].(nextSame := refs[q[i]].nextSame)];
               SameButSame(refs, refs') && ListRep(refs', sizebases, allbase, WithoutSame(h, b, q[i]))
  {
    var q := h.same[b];
    SameStep(refs, sizebases, allbase, h, b, i);
    SameStep(refs, sizebases, allbase, h, b, i - 1);
    assert SameChain(refs, sizebases[b], q);
    hide SameChain, AllChain;
    SameUnlink(refs, sizebases[b], q, i);
    RemoveAt(q, i);
    var refs' := refs[q[i - 1] := refs[q[i - 1]].(nextSame := refs[q[i]].nextSame)];
    assert SameButSame(refs, refs');
    AllButSame(refs, refs', allbase, h.all);
    forall c | 0 <= c < NSIZES && c != b
      ensures SameChain(refs', sizebases[c], h.same[c])
    {
      assert q[i - 1] in q;
      OtherSame(refs, refs', sizebases, allbase, h, b, c, q[i - 1]);
    }
  }

  /** The lists after the first entry of the list of all pages is bypassed. */
  lemma UnlinkAllHead(refs: seq<Ref>, sizebases: seq<int>, allbase: int, h: Heap)
    requires ListRep(refs, sizebases, allbase, h) && NoDup(h.all) && h.all != []
    ensures h.all[0] < REFS && ListRep(refs, sizebases, refs[h.all[0]].nextAll, WithoutAll(h, h.all[0]))
  {
    AllStep(refs, sizebases, allbase, h, 0);
    hide SameChain, AllChain;
    AllUnlink(refs, allbase, h.all, 0);
    assert Remove(h.all, h.all[0]) == h.all[1..];
  }

  lemma UnlinkAllNext(refs: seq<Ref>, sizebases: seq<int>, allbase: int, h: Heap, i: nat)
    requires ListRep(refs, sizebases, allbase, h) && NoDup(h.all) && 0 < i < |h.all|
    ensures var q := h.all;
            && q[i] < REFS && q[i - 1] < REFS
            && var refs' := refs[q[i - 1] := refs[q[i - 1]].(nextAll := refs[q[i]].nextAll)];
               SameButAll(refs, refs') && ListRep(refs', sizebases, allbase, WithoutAll(h, q[i]))
  {
    var q := h.all;
    AllStep(refs, sizebases, allbase, h, i);
    AllStep(refs, sizebases, allbase, h, i - 1);
    hide SameChain, AllChain;
    AllUnlink(refs, allbase, q, i);
    RemoveAt(q, i);
    var refs' := refs[q[i - 1] := refs[q[i - 1]].(nextAll := refs[q[i]].nextAll)];
    assert SameButAll(refs, refs');
    forall c | 0 <= c < NSIZES
      ensures SameChain(refs', sizebases[c], h.same[c])
    {
      SameButAllChain(refs, refs', sizebases[c], h.same[c]);
    }
  }

  lemma SameButAllChain(refs: seq<Ref>, refs': seq<Ref>, head: int, q: seq<nat>)
    requires SameChain(refs, head, q) && SameButAll(refs, refs')
    ensures SameChain(refs', head, q)
  {
    forall i | 0 <= i < |q|
      ensures q[i] < |refs'| && refs'[q[i]].nextSame == NodeAt(q, i + 1)
    {
      assert refs[q[i]].nextSame == NodeAt(q, i + 1);
    }
  }

  lemma AllStep(refs: seq<Ref>, sizebases: seq<int>, allbase: int, h: Heap, i: nat)
    requires ListRep(refs, sizebases, allbase, h) && i < |h.all|
    ensures |refs| == REFS && h.all[i] < REFS && refs[h.all[i]].nextAll == NodeAt(h.all, i + 1)
  {
  }

  lemma AllHead(refs: seq<Ref>, sizebases: seq<int>, allbase: int, h: Heap)
    requires ListRep(refs, sizebases, allbase, h)
    ensures |refs| == REFS && allbase == NodeAt(h.all, 0)
  {
  }

  lemma SameStep(refs: seq<Ref>, sizebases: seq<int>, allbase: int, h: Heap, b: nat, i: nat)
    requires ListRep(refs, sizebases, allbase, h) && b < NSIZES && i < |h.same[b]|
    ensures h.same[b][i] < REFS && refs[h.same[b][i]].nextSame == NodeAt(h.same[b], i + 1)
  {
    assert SameChain(refs, sizebases[b], h.same[b]);
  }

  // ---------------------------------------------------------------- freeing a block

  /**
   What subpage_kfree does: not a heap page, a panic because of the address, a failed assertion because the block
   is at the head of the free list already, a failed assertion of freepageref, or freed; page is the page to give
   back, or 0.
   */
  datatype FreeResult = NotOurs | BadAddress | Caught | Panicked | Freed(page: nat)

  /** mem' differs from mem at most in n bytes from x. */
  ghost predicate OnlyAt(mem: map<nat, nat>, mem': map<nat, nat>, x: nat, n: nat) {
    forall y | y in mem && !(x <= y < x + n) :: y in mem' && mem'[y] == mem[y]
  }

  /** No free block lies inside a live one. */
  lemma FreeOutside(h: Heap, p: nat, x: nat, q: nat, y: nat)
    requires Inv(h) && BlockOf(h, p, x) && q in h.pages && y in h.pages[q].free
    ensures var z := h.pages[q].addr + y; !(x <= z < x + SIZES[h.pages[p].blk])
  {
    hide Inv, BlockOf, IsBlock;
    BlockOnPage(h, p, x);
    Aligned(h, q);
    Aligned(h, p);
    FreeIsBlock(h, q, y);
    if q == p {
      LiveNotFree(h, p, x, y);
      Between(h.pages[p].blk, x - h.pages[p].addr, y);
    } else {
      PagesDiffer(h, p, q);
      InOwnPage(h.pages[p].addr, h.pages[p].blk, x - h.pages[p].addr, h.pages[q].addr, h.pages[q].blk, y);
    }
  }

  lemma Aligned(h: Heap, p: nat)
    requires Inv(h) && p in h.pages
    ensures h.pages[p].addr % PAGE == 0 && h.pages[p].blk < NSIZES && h.pages[p].addr > 0
  {
    PageAligned(h, p);
  }

  lemma FreeIsBlock(h: Heap, q: nat, y: nat)
    requires Inv(h) && q in h.pages && y in h.pages[q].free
    ensures h.pages[q].blk < NSIZES && IsBlock(h.pages[q].blk, y)
  {
    PageIsOk(h, q);
  }

  lemma LiveNotFree(h: Heap, p: nat, x: nat, y: nat)
    requires Inv(h) && BlockOf(h, p, x) && y in h.pages[p].free
    ensures y != x - h.pages[p].addr
  {
    hide Inv, BlockOf;
    BlockOnPage(h, p, x);
    BlockIsLive(h, p, x);
    PageIsOk(h, p);
    hide *;
    FreeNotLive(h, h.pages[p], y);
  }

  lemma BlockIsLive(h: Heap, p: nat, x: nat)
    requires BlockOf(h, p, x)
    ensures x in h.live
  {
  }

  lemma FreeNotLive(h: Heap, pg: Page, y: nat)
    requires PageOk(h, pg) && y in pg.free
    ensures pg.addr + y !in h.live
  {
    hide NoDup, Blocks;
    assert IsBlock(pg.blk, y);
    hide IsBlock;
  }

  lemma PagesDiffer(h: Heap, p: nat, q: nat)
    requires Inv(h) && p in h.pages && q in h.pages && p != q
    ensures h.pages[p].addr != h.pages[q].addr
  {
  }

  lemma Between(b: nat, x: nat, y: nat)
    requires b < NSIZES && IsBlock(b, x) && IsBlock(b, y) && x != y
    ensures !(x <= y < x + SIZES[b])
  {
    if x < y {
      BlocksApart(b, x, y);
    }
  }

  lemma InOwnPage(f: nat, b: nat, x: nat, g: nat, c: nat, y: nat)
    requires b < NSIZES && c < NSIZES && IsBlock(b, x) && IsBlock(c, y)
    requires f % PAGE == 0 && g % PAGE == 0 && f != g
    ensures !(f + x <= g + y < f + x + SIZES[b])
  {
    BlockFits(b, x);
    PagesApart(f, g);
  }

  /** Whatever is written into a live block, the free lists stay as they are. */
  lemma WriteInside(refs: seq<Ref>, mem: map<nat, nat>, mem': map<nat, nat>, h: Heap, p: nat, x: nat)
    requires Inv(h) && PageRep(refs, mem, h) && BlockOf(h, p, x) && OnlyAt(mem, mem', x, SIZES[h.pages[p].blk])
    ensures PageRep(refs, mem', h)
  {
    hide Inv, BlockOf, IsBlock, PageAddr, RefType;
    forall q | q in h.pages
      ensures RefOk(refs[q], mem', h.pages[q])
    {
      assert RefOk(refs[q], mem, h.pages[q]);
      forall y | y in h.pages[q].free && h.pages[q].addr + y in mem
        ensures h.pages[q].addr + y in mem' && mem'[h.pages[q].addr + y] == mem[h.pages[q].addr + y]
      {
        FreeOutside(h, p, x, q, y);
      }
      ChainSame(mem, mem', h.pages[q].addr, refs[q].off, h.pages[q].free);
    }
  }

  lemma RefOf(refs: seq<Ref>, mem: map<nat, nat>, h: Heap, p: nat)
    requires PageRep(refs, mem, h) && p in h.pages
    ensures |refs| == REFS && p < REFS && RefOk(refs[p], mem, h.pages[p])
  {
  }

  lemma ReturnRef(r: Ref, mem: map<nat, nat>, pg: Page, off: nat)
    requires RefOk(r, mem, pg) && off !in pg.free
    ensures RefOk(r.(off := off, nfree := r.nfree + 1), mem[pg.addr + off := NextFree(pg.addr, pg.free, 0)],
                  pg.(free := [off] + pg.free))
  {
    hide NextFree;
    ChainPut(mem, pg.addr, r.off, pg.free, off);
    hide FreeChain;
  }

  lemma NotOnFreeLists(h: Heap, p: nat, x: nat)
    requires Inv(h) && BlockOf(h, p, x)
    ensures forall q, y | q in h.pages && y in h.pages[q].free :: h.pages[q].addr + y != x
  {
    hide Inv, BlockOf;
    forall q, y | q in h.pages && y in h.pages[q].free
      ensures h.pages[q].addr + y != x
    {
      FreeOutside(h, p, x, q, y);
      BlockOnPage(h, p, x);
    }
  }

  /** The pageref and the words of memory after block x of page p is put on its free list. */
  lemma ReturnRep(refs: seq<Ref>, sizebases: seq<int>, allbase: int, mem: map<nat, nat>, h: Heap, p: nat, x: nat)
    requires Inv(h) && ListRep(refs, sizebases, allbase, h) && PageRep(refs, mem, h) && BlockOf(h, p, x)
    ensures |refs| == REFS && p < REFS && p in h.pages && h.pages[p].addr <= x
    ensures var off := x - h.pages[p].addr;
            var refs' := refs[p := refs[p].(off := off, nfree := refs[p].nfree + 1)];
            var mem' := mem[x := NextFree(h.pages[p].addr, h.pages[p].free, 0)];
            ListRep(refs', sizebases, allbase, ReturnBlock(h, p, x)) && PageRep(refs', mem', ReturnBlock(h, p, x))
  {
    hide Inv, BlockOf, IsBlock, NextFree, RefOk, PageAddr, RefType, PageRep, ListRep;
    BlockOnPage(h, p, x);
    RefOf(refs, mem, h, p);
    NotOnFreeLists(h, p, x);
    var pg, off := h.pages[p], x - h.pages[p].addr;
    var refs' := refs[p := refs[p].(off := off, nfree := refs[p].nfree + 1)];
    var mem' := mem[x := NextFree(pg.addr, pg.free, 0)];
    ReturnRef(refs[p], mem, pg, off);
    ListRepKept(refs, refs', sizebases, allbase, h, ReturnBlock(h, p, x));
    PageRepKept(refs, refs', mem, mem', h, ReturnBlock(h, p, x), p);
  }

  /** A step along the list of all pages. */
  lemma AllNext(refs: seq<Ref>, sizebases: seq<int>, allbase: int, mem: map<nat, nat>, h: Heap, i: nat)
    requires Inv(h) && ListRep(refs, sizebases, allbase, h) && PageRep(refs, mem, h) && i < |h.all|
    ensures var p := h.all[i];
            && |refs| == REFS && p < REFS && p in h.pages && h.pages[p].blk < NSIZES
            && PageAddr(refs[p]) == h.pages[p].addr && RefType(refs[p]) == h.pages[p].blk
            && refs[p].nextAll == NodeAt(h.all, i + 1)
  {
    var p := h.all[i];
    assert p in h.all;
    assert p in h.pages;
    hide PageAddr, RefType;
    AllStep(refs, sizebases, allbase, h, i);
    RefOf(refs, mem, h, p);
    Aligned(h, p);
  }

  lemma AllOfPages(h: Heap)
    requires Inv(h)
    ensures forall p :: p in h.pages <==> p in h.all
  {
  }

  ghost predicate HeadOfPage(h: Heap, p: nat, x: nat) {
    p in h.pages && h.pages[p].free != [] && h.pages[p].addr + h.pages[p].free[0] == x
  }

  /** x is the block that was freed last on its page. */
  ghost predicate AtHead(h: Heap, x: nat) {
    exists p :: HeadOfPage(h, p, x)
  }

  /** x is a free block of page p, freed before some other block of it. */
  ghost predicate FreeAgain(h: Heap, p: nat, x: nat) {
    && p in h.pages && h.pages[p].blk < NSIZES && h.pages[p].addr <= x
    && x - h.pages[p].addr in h.pages[p].free && !HeadOfPage(h, p, x)
  }

  /** Every aligned address on a page is a live block, the head of the free list, or another free block. */
  lemma BlockIsOneOf(h: Heap, p: nat, x: nat)
    requires Inv(h) && p in h.pages && OnPage(h.pages[p], x) && h.pages[p].blk < NSIZES
    requires IsBlock(h.pages[p].blk, x - h.pages[p].addr)
    ensures x in h.live || HeadOfPage(h, p, x) || FreeAgain(h, p, x)
  {
    hide Inv, IsBlock, PageOk;
    PageIsOk(h, p);
    FreeUnlessLive(h, h.pages[p], x - h.pages[p].addr);
  }

  lemma FreeUnlessLive(h: Heap, pg: Page, off: nat)
    requires PageOk(h, pg) && pg.blk < NSIZES && IsBlock(pg.blk, off)
    ensures off in pg.free <==> pg.addr + off !in h.live
  {
    hide IsBlock, Blocks, NoDup;
  }

  lemma AgainIsFree(h: Heap, p: nat, x: nat)
    requires Inv(h) && FreeAgain(h, p, x)
    ensures OnPage(h.pages[p], x) && IsBlock(h.pages[p].blk, x - h.pages[p].addr) && x !in h.live && !AtHead(h, x)
  {
    hide Inv;
    FreeIsBlock(h, p, x - h.pages[p].addr);
    if x in h.live {
      LiveIsBlock(h, p, x);
      LiveNotFree(h, p, x, x - h.pages[p].addr);
    }
    HeadHere(h, p, x);
  }

  /** An address is on one page at most. */
  lemma OnePageOnly(h: Heap, p: nat, q: nat, x: nat)
    requires Inv(h) && p in h.pages && q in h.pages && OnPage(h.pages[p], x) && OnPage(h.pages[q], x)
    ensures p == q
  {
    hide Inv;
    Aligned(h, p);
    Aligned(h, q);
    SameFrame(h.pages[p].addr, h.pages[q].addr, x);
    OneRef(h, p, q);
  }

  lemma HeadOnPage(h: Heap, p: nat, x: nat)
    requires Inv(h) && HeadOfPage(h, p, x)
    ensures OnPage(h.pages[p], x) && h.pages[p].blk < NSIZES && IsBlock(h.pages[p].blk, x - h.pages[p].addr)
    ensures x !in h.live
  {
    hide Inv;
    FreeIsBlock(h, p, h.pages[p].free[0]);
    if x in h.live {
      LiveIsBlock(h, p, x);
      LiveNotFree(h, p, x, h.pages[p].free[0]);
    }
  }

  lemma HeadHere(h: Heap, p: nat, x: nat)
    requires Inv(h) && p in h.pages && OnPage(h.pages[p], x)
    ensures AtHead(h, x) <==> HeadOfPage(h, p, x)
    ensures AtHead(h, x) ==> x !in h.live && h.pages[p].blk < NSIZES && IsBlock(h.pages[p].blk, x - h.pages[p].addr)
  {
    hide Inv, IsBlock;
    if AtHead(h, x) {
      var q :| HeadOfPage(h, q, x);
      HeadOnPage(h, q, x);
      OnePageOnly(h, p, q, x);
    }
  }

  lemma OneRef(h: Heap, p: nat, q: nat)
    requires Inv(h) && p in h.pages && q in h.pages && h.pages[p].addr == h.pages[q].addr
    ensures p == q
  {
    hide ListsOk, PagesOk, LiveOk;
  }

  /** A live address on page p is a block of page p. */
  lemma LiveIsBlock(h: Heap, p: nat, x: nat)
    requires Inv(h) && p in h.pages && OnPage(h.pages[p], x) && x in h.live
    ensures BlockOf(h, p, x)
  {
    var q :| BlockOf(h, q, x);
    hide Inv, BlockOf;
    BlockOnPage(h, q, x);
    OnePageOnly(h, p, q, x);
  }

  lemma FreeIs(h: Heap, p: nat, x: nat)
    requires Inv(h) && BlockOf(h, p, x)
    ensures CanExec(h, Free(x)) && p in h.pages && h.pages[p].addr <= x && h.pages[p].blk < NSIZES && |h.same| == NSIZES
    ensures |h.pages[p].free| + 1 <= Blocks(h.pages[p].blk)
    ensures var h1 := ReturnBlock(h, p, x);
            Exec(h, Free(x)) == (if |h.pages[p].free| + 1 == Blocks(h.pages[p].blk) then Unlink(h1, p) else h1)
    ensures Inv(Exec(h, Free(x)))
  {
    hide Blocks, IsBlock;
    FindsOwner(h, x, p);
    PageIsOk(h, p);
    assert x in h.live && |h.same| == NSIZES;
    hide Inv, BlockOf, FreeListOk;
    FreeInv(h, x);
  }

  /** The fields of the pagerefs that describe pages are the same. */
  ghost predicate SamePages(refs: seq<Ref>, refs': seq<Ref>) {
    |refs'| == |refs| && forall p | 0 <= p < |refs| ::
      refs'[p].pab == refs[p].pab && refs'[p].off == refs[p].off && refs'[p].nfree == refs[p].nfree
  }

  lemma PagesAfterUnlink(refs: seq<Ref>, refs': seq<Ref>, mem: map<nat, nat>, h: Heap, h': Heap)
    requires PageRep(refs, mem, h) && SamePages(refs, refs')
    requires forall p | p in h'.pages :: p in h.pages && h'.pages[p] == h.pages[p]
    ensures PageRep(refs', mem, h')
  {
    hide FreeChain;
    forall p | p in h'.pages
      ensures p < REFS && RefOk(refs'[p], mem, h'.pages[p])
    {
      assert RefOk(refs[p], mem, h.pages[p]);
    }
  }

  lemma ListShape(refs: seq<Ref>, sizebases: seq<int>, allbase: int, h: Heap)
    requires ListRep(refs, sizebases, allbase, h)
    ensures |refs| == REFS && |h.same| == NSIZES
  {
  }

  lemma ButLists(h: Heap, p: nat)
    requires ListsOk(h) && p in h.pages && h.pages[p].blk < NSIZES
    ensures |h.same| == NSIZES && h.pages[p].blk < NSIZES && NoDup(h.same[h.pages[p].blk]) && NoDup(h.all)
    ensures forall c, q | 0 <= c < NSIZES && c != h.pages[p].blk && q in h.same[h.pages[p].blk] :: q !in h.same[c]
    ensures p in h.inuse && p < REFS && forall k | k in h.inuse :: k < REFS
  {
    var b := h.pages[p].blk;
    forall c, q | 0 <= c < NSIZES && c != b && q in h.same[b]
      ensures q !in h.same[c]
    {
      assert q in h.same[b] <==> (q in h.pages && h.pages[q].blk == b);
      assert q in h.same[c] <==> (q in h.pages && h.pages[q].blk == c);
    }
  }

  lemma RootsAfterUnlink(present: seq<bool>, h: Heap, p: nat)
    requires RootRep(present, h) && p in h.pages && p in h.inuse && p < REFS && h.pages[p].blk < |h.same|
    ensures |present| == ROOTS && present[p / PER_PAGE]
    ensures RootRep(present, Unlink(h, p))
  {
  }

  lemma ListsAfterUnlink(refs: seq<Ref>, sizebases: seq<int>, allbase: int, h: Heap, p: nat)
    requires p in h.pages && h.pages[p].blk < |h.same|
             && ListRep(refs, sizebases, allbase, WithoutAll(WithoutSame(h, h.pages[p].blk, p), p))
    ensures ListRep(refs, sizebases, allbase, Unlink(h, p))
  {
  }

  lemma BitsAfterUnlink(inuse: seq<bool>, numinuse: seq<nat>, h: Heap, p: nat)
    requires p in h.pages && h.pages[p].blk < |h.same| && BitRep(inuse, numinuse, h.(inuse := h.inuse - {p}))
    ensures BitRep(inuse, numinuse, Unlink(h, p))
  {
    hide CountTrue, RootBits;
  }

  lemma TypeOf(refs: seq<Ref>, mem: map<nat, nat>, h: Heap, p: nat)
    requires PageRep(refs, mem, h) && p in h.pages
    ensures |refs| == REFS && p < REFS
    ensures RefType(refs[p]) == h.pages[p].blk && PageAddr(refs[p]) == h.pages[p].addr
            && refs[p].nfree == |h.pages[p].free|
  {
    hide PageAddr, RefType;
    RefOf(refs, mem, h, p);
  }

  /** What the pageref says about the head of the free list. */
  lemma HeadOf(refs: seq<Ref>, mem: map<nat, nat>, h: Heap, p: nat)
    requires Inv(h) && PageRep(refs, mem, h) && p in h.pages
    ensures |refs| == REFS && p < REFS
    ensures var pg := h.pages[p];
            && (refs[p].off == INVALID_OFFSET <==> pg.free == [])
            && (pg.free != [] ==> refs[p].off == pg.free[0] && refs[p].off in pg.free)
            && NextFree(pg.addr, pg.free, 0) == (if refs[p].off == INVALID_OFFSET then 0 else pg.addr + refs[p].off)
  {
    hide Inv, PageAddr, RefType;
    RefOf(refs, mem, h, p);
    if h.pages[p].free != [] {
      FreeIsBlock(h, p, h.pages[p].free[0]);
    }
  }

  lemma NotLive(h: Heap, x: nat)
    requires Inv(h) && forall p | p in h.pages :: !OnPage(h.pages[p], x)
    ensures x !in h.live
  {
    hide IsBlock;
    assert forall p :: !BlockOf(h, p, x);
  }

  lemma Misaligned(h: Heap, p: nat, x: nat)
    requires Inv(h) && p in h.pages && OnPage(h.pages[p], x) && h.pages[p].blk < NSIZES
    requires (x - h.pages[p].addr) % SIZES[h.pages[p].blk] != 0
    ensures x !in h.live
  {
    if x in h.live {
      hide Inv;
      LiveIsBlock(h, p, x);
    }
  }

  // ---------------------------------------------------------------- freeing a block again

  /** The word that goes in front of the free list: the address of its head, or 0. */
  function HeadWord(r: Ref): nat {
    if r.off == INVALID_OFFSET then 0 else PageAddr(r) + r.off
  }

  function AfterPut(r: Ref, x: nat): Ref
    requires PageAddr(r) <= x
  {
    r.(off := x - PageAddr(r), nfree := r.nfree + 1)
  }

  /** The blocks from entry i of a free list, put in front again, up to itself. */
  function Cycle(free: seq<nat>, i: nat): seq<nat>
    requires i < |free|
  {
    [free[i]] + free[..i]
  }

  function Around(c: seq<nat>, k: nat): nat
    requires c != []
  {
    if k < |c| then c[k] else c[0]
  }

  /** The blocks c of the page are linked in a circle. */
  ghost predicate Looped(mem: map<nat, nat>, page: nat, c: seq<nat>) {
    forall k | 0 <= k < |c| :: page + c[k] in mem && mem[page + c[k]] == page + Around(c, k + 1)
  }

  /** One more free block would make page p count as fully free. */
  ghost predicate LastAgain(h: Heap, p: nat) {
    p in h.pages && h.pages[p].blk < NSIZES && |h.pages[p].free| + 1 == Blocks(h.pages[p].blk)
  }

  /** The free list of page p starts at x and comes back to x; it counts one block more than it had. */
  ghost predicate Loops(refs: seq<Ref>, refs': seq<Ref>, mem': map<nat, nat>, h: Heap, p: nat, x: nat) {
    && p in h.pages && p < |refs| && h.pages[p].addr <= x
    && var pg, off := h.pages[p], x - h.pages[p].addr;
       && refs' == refs[p := refs[p].(off := off, nfree := |pg.free| + 1)]
       && (forall i | 0 <= i < |pg.free| && pg.free[i] == off :: i > 0 && Looped(mem', pg.addr, Cycle(pg.free, i)))
  }

  lemma AgainOnPage(h: Heap, p: nat, x: nat)
    requires Inv(h) && FreeAgain(h, p, x)
    ensures p in h.pages && OnPage(h.pages[p], x) && x !in h.live && !AtHead(h, x)
    ensures h.pages[p].blk < NSIZES && (x - h.pages[p].addr) % SIZES[h.pages[p].blk] == 0
  {
    hide Inv;
    AgainIsFree(h, p, x);
  }

  lemma BlockOrAgain(refs: seq<Ref>, mem: map<nat, nat>, h: Heap, p: nat, x: nat)
    requires Inv(h) && PageRep(refs, mem, h) && (BlockOf(h, p, x) || FreeAgain(h, p, x))
    ensures p in h.pages && h.pages[p].addr <= x && h.pages[p].blk < NSIZES && |h.same| == NSIZES && ListsOk(h)
    ensures |refs| == REFS && p < REFS && RefType(refs[p]) == h.pages[p].blk && PageAddr(refs[p]) == h.pages[p].addr
    ensures refs[p].nfree == |h.pages[p].free| && |h.pages[p].free| < Blocks(h.pages[p].blk)
    ensures refs[p].off != INVALID_OFFSET ==> PageAddr(refs[p]) + refs[p].off != x
    ensures !(BlockOf(h, p, x) && FreeAgain(h, p, x)) && h.pages[p].addr > 0
  {
    Aligned(h, p);
    assert |h.same| == NSIZES && ListsOk(h);
    hide Inv, ListsOk, PageRep, IsBlock, Blocks;
    TypeOf(refs, mem, h, p);
    HeadOf(refs, mem, h, p);
    PageIsOk(h, p);
    if BlockOf(h, p, x) {
      NotOnFreeLists(h, p, x);
    }
  }

  /** What the writes for a live block leave. */
  lemma PutRep(refs: seq<Ref>, sizebases: seq<int>, allbase: int, mem: map<nat, nat>, mem': map<nat, nat>, h: Heap,
               p: nat, x: nat)
    requires Inv(h) && ListRep(refs, sizebases, allbase, h) && PageRep(refs, mem, h) && BlockOf(h, p, x)
    requires |refs| == REFS && p < REFS && RefType(refs[p]) == h.pages[p].blk && PageAddr(refs[p]) == h.pages[p].addr
    requires OnlyAt(mem, mem', x, SIZES[h.pages[p].blk]) && x in mem' && mem'[x] == HeadWord(refs[p])
    ensures |h.same| == NSIZES
    ensures var refs', h' := refs[p := AfterPut(refs[p], x)], ReturnBlock(h, p, x);
            && ListsOk(h') && ListRep(refs', sizebases, allbase, h') && RefType(refs'[p]) == h'.pages[p].blk
            && PageRep(refs', mem', h') && PageRep(refs', mem', Unlink(h', p))
  {
    hide Inv, ListsOk, ListRep, PageRep, BlockOf, IsBlock, PageAddr, RefType, Blocks, NextFree, FreeAgain, OnlyAt;
    BlockOrAgain(refs, mem, h, p, x);
    ReturnLists(h, p, x);
    WriteInside(refs, mem, mem', h, p, x);
    ReturnRep(refs, sizebases, allbase, mem', h, p, x);
    HeadOf(refs, mem', h, p);
    assert mem'[x := mem'[x]] == mem';
    var refs', h' := refs[p := AfterPut(refs[p], x)], ReturnBlock(h, p, x);
    RefTypeKept(refs[p], x);
    PagesAfterUnlink(refs', refs', mem', h', Unlink(h', p));
  }

  lemma ReturnLists(h: Heap, p: nat, x: nat)
    requires Inv(h) && BlockOf(h, p, x)
    ensures ListsOk(ReturnBlock(h, p, x))
  {
    hide Inv, FreeListOk, PageOk, Apart, LiveOk, ListsOk, BlockOf;
    ReturnInv(h, p, x);
  }

  lemma RefTypeKept(r: Ref, x: nat)
    requires PageAddr(r) <= x
    ensures RefType(AfterPut(r, x)) == RefType(r) && PageAddr(AfterPut(r, x)) == PageAddr(r)
  {
  }

  /** A free block of page p shares no bytes with the free blocks of other pages, nor with others of its page. */
  lemma AgainOutside(h: Heap, p: nat, x: nat, q: nat, y: nat)
    requires Inv(h) && FreeAgain(h, p, x) && q in h.pages && y in h.pages[q].free && h.pages[q].addr + y != x
    ensures var z := h.pages[q].addr + y; !(x <= z < x + SIZES[h.pages[p].blk])
  {
    hide Inv, IsBlock;
    Aligned(h, q);
    Aligned(h, p);
    FreeIsBlock(h, q, y);
    FreeIsBlock(h, p, x - h.pages[p].addr);
    if q == p {
      Between(h.pages[p].blk, x - h.pages[p].addr, y);
    } else {
      PagesDiffer(h, p, q);
      InOwnPage(h.pages[p].addr, h.pages[p].blk, x - h.pages[p].addr, h.pages[q].addr, h.pages[q].blk, y);
    }
  }

  /** What the writes for a block that is free already leave: a loop, and everything else as it was. */
  lemma AgainRep(refs: seq<Ref>, sizebases: seq<int>, allbase: int, mem: map<nat, nat>, mem': map<nat, nat>, h: Heap,
                 p: nat, x: nat)
    requires Inv(h) && ListRep(refs, sizebases, allbase, h) && PageRep(refs, mem, h) && FreeAgain(h, p, x)
    requires |refs| == REFS && p < REFS && RefType(refs[p]) == h.pages[p].blk && PageAddr(refs[p]) == h.pages[p].addr
    requires OnlyAt(mem, mem', x, SIZES[h.pages[p].blk]) && x in mem' && mem'[x] == HeadWord(refs[p])
    ensures |h.same| == NSIZES
    ensures var refs' := refs[p := AfterPut(refs[p], x)];
            && ListRep(refs', sizebases, allbase, h) && RefType(refs'[p]) == h.pages[p].blk
            && PageRep(refs', mem', Unlink(h, p)) && Loops(refs, refs', mem', h, p, x)
            && (refs'[p].nfree == Blocks(h.pages[p].blk) <==> LastAgain(h, p))
  {
    hide Inv, ListRep, PageRep, PageAddr, RefType, Blocks, FreeAgain, Looped;
    BlockOrAgain(refs, mem, h, p, x);
    RefTypeKept(refs[p], x);
    var refs' := refs[p := AfterPut(refs[p], x)];
    ListRepKept(refs, refs', sizebases, allbase, h, h);
    AgainPages(refs, refs', mem, mem', h, p, x);
    forall i | 0 <= i < |h.pages[p].free| && h.pages[p].free[i] == x - h.pages[p].addr
      ensures i > 0 && Looped(mem', h.pages[p].addr, Cycle(h.pages[p].free, i))
    {
      AgainLoops(refs, mem, mem', h, p, x, i);
    }
  }

  lemma AgainPages(refs: seq<Ref>, refs': seq<Ref>, mem: map<nat, nat>, mem': map<nat, nat>, h: Heap, p: nat, x: nat)
    requires Inv(h) && PageRep(refs, mem, h) && FreeAgain(h, p, x) && p < |refs| && PageAddr(refs[p]) <= x
    requires refs' == refs[p := AfterPut(refs[p], x)] && OnlyAt(mem, mem', x, SIZES[h.pages[p].blk])
    requires h.pages[p].blk < |h.same|
    ensures PageRep(refs', mem', Unlink(h, p))
  {
    hide Inv, PageRep, PageAddr, RefType, AfterPut, RefOk;
    assert p in h.pages;
    hide FreeAgain;
    RefOf(refs, mem, h, p);
    forall q, y | q in h.pages && q != p && y in h.pages[q].free && h.pages[q].addr + y in mem
      ensures h.pages[q].addr + y in mem' && mem'[h.pages[q].addr + y] == mem[h.pages[q].addr + y]
    {
      AgainElsewhere(h, p, x, q, y);
      AgainOutside(h, p, x, q, y);
    }
    PageRepKept(refs, refs', mem, mem', h, Unlink(h, p), p);
  }

  lemma AgainElsewhere(h: Heap, p: nat, x: nat, q: nat, y: nat)
    requires Inv(h) && FreeAgain(h, p, x) && q in h.pages && q != p && y in h.pages[q].free
    ensures h.pages[q].addr + y != x
  {
    hide Inv;
    AgainIsFree(h, p, x);
    FreeIsBlock(h, q, y);
    if h.pages[q].addr + y == x {
      OnePageOnly(h, p, q, x);
    }
  }

  lemma AgainLoops(refs: seq<Ref>, mem: map<nat, nat>, mem': map<nat, nat>, h: Heap, p: nat, x: nat, i: nat)
    requires Inv(h) && PageRep(refs, mem, h) && FreeAgain(h, p, x) && p < |refs|
    requires OnlyAt(mem, mem', x, SIZES[h.pages[p].blk]) && x in mem' && mem'[x] == HeadWord(refs[p])
    requires i < |h.pages[p].free| && h.pages[p].free[i] == x - h.pages[p].addr
    ensures i > 0 && Looped(mem', h.pages[p].addr, Cycle(h.pages[p].free, i))
  {
    hide Inv, PageRep, PageAddr, RefType, NextFree, OnlyAt;
    assert i > 0;
    var pg := h.pages[p];
    hide FreeAgain;
    RefOf(refs, mem, h, p);
    HeadOf(refs, mem, h, p);
    hide RefOk;
    forall k | 0 <= k < i
      ensures pg.addr + pg.free[k] in mem' && mem'[pg.addr + pg.free[k]] == pg.addr + pg.free[k + 1]
    {
      AgainWord(refs, mem, mem', h, p, x, i, k);
    }
    CycleLoops(mem', pg.addr, pg.free, i);
  }

  lemma AgainWord(refs: seq<Ref>, mem: map<nat, nat>, mem': map<nat, nat>, h: Heap, p: nat, x: nat, i: nat, k: nat)
    requires Inv(h) && PageRep(refs, mem, h) && FreeAgain(h, p, x)
    requires OnlyAt(mem, mem', x, SIZES[h.pages[p].blk])
    requires k < i < |h.pages[p].free| && h.pages[p].free[i] == x - h.pages[p].addr
    ensures h.pages[p].addr + h.pages[p].free[k] in mem'
    ensures mem'[h.pages[p].addr + h.pages[p].free[k]] == h.pages[p].addr + h.pages[p].free[k + 1]
  {
    hide Inv, PageRep, PageAddr, RefType, PageOk, OnlyAt;
    var pg := h.pages[p];
    assert pg.addr + pg.free[i] == x;
    hide FreeAgain;
    RefOf(refs, mem, h, p);
    PageIsOk(h, p);
    ListedOnce(h, pg, k, i);
    ChainWord(mem, pg.addr, refs[p].off, pg.free, k);
    hide RefOk, FreeChain;
    AgainOutside(h, p, x, p, pg.free[k]);
    KeptAt(mem, mem', x, SIZES[pg.blk], pg.addr + pg.free[k]);
  }

  lemma ChainWord(mem: map<nat, nat>, page: nat, off: nat, free: seq<nat>, k: nat)
    requires FreeChain(mem, page, off, free) && k + 1 < |free|
    ensures page + free[k] in mem && mem[page + free[k]] == page + free[k + 1]
  {
  }

  lemma KeptAt(mem: map<nat, nat>, mem': map<nat, nat>, x: nat, n: nat, y: nat)
    requires OnlyAt(mem, mem', x, n) && y in mem && !(x <= y < x + n)
    ensures y in mem' && mem'[y] == mem[y]
  {
  }

  lemma ListedOnce(h: Heap, pg: Page, k: nat, i: nat)
    requires PageOk(h, pg) && k < i < |pg.free|
    ensures pg.free[k] != pg.free[i]
  {
  }

  lemma CycleAt(free: seq<nat>, i: nat, k: nat)
    requires k <= i < |free|
    ensures Cycle(free, i)[k] == (if k == 0 then free[i] else free[k - 1])
    ensures Around(Cycle(free, i), k + 1) == free[k]
  {
  }

  lemma CycleLoops(mem: map<nat, nat>, page: nat, free: seq<nat>, i: nat)
    requires 0 < i < |free| && page + free[i] in mem && mem[page + free[i]] == page + free[0]
    requires forall k | 0 <= k < i :: page + free[k] in mem && mem[page + free[k]] == page + free[k + 1]
    ensures Looped(mem, page, Cycle(free, i))
  {
    hide Around;
    forall k | 0 <= k < |Cycle(free, i)|
      ensures var c := Cycle(free, i); page + c[k] in mem && mem[page + c[k]] == page + Around(c, k + 1)
    {
      CycleAt(free, i, k);
    }
  }

  // ---------------------------------------------------------------- whole calls

  lemma EmptyBits(inuse: seq<bool>, numinuse: seq<nat>)
    requires |inuse| == REFS && |numinuse| == ROOTS
    requires (forall p | 0 <= p < REFS :: !inuse[p]) && forall r | 0 <= r < ROOTS :: numinuse[r] == 0
    ensures BitRep(inuse, numinuse, Empty())
  {
    forall r | 0 <= r < ROOTS
      ensures CountTrue(RootBits(inuse, r)) == 0
    {
      CountNone(RootBits(inuse, r));
    }
  }

  /** Steps that only move pages between owners leave the representation alone. */
  lemma PageStepRep(h: Heap, a: Action)
    requires Inv(h) && Enabled(h, a) && (a.GetPage? || a.GiveBack? || a.AllocBig? || a.FreeBig?)
    ensures CanExec(h, a) && Inv(Exec(h, a))
    ensures var h' := Exec(h, a);
            h'.all == h.all && h'.same == h.same && h'.pages == h.pages && h'.inuse == h.inuse && h'.live == h.live
  {
    hide Inv;
    PageStepInv(h, a);
  }

  lemma BigOffPages(h: Heap, x: nat)
    requires Inv(h) && x in h.big
    ensures x % PAGE == 0 && x > 0 && x !in h.live && forall p | p in h.pages :: !OnPage(h.pages[p], x)
  {
    assert Apart(h);
    forall p | p in h.pages
      ensures !OnPage(h.pages[p], x)
    {
      assert PageMissesBig(h.pages[p].addr, x, h.big[x].pages) && h.big[x].pages > 0;
    }
    NotLive(h, x);
  }

  lemma NotAgain(h: Heap, x: nat)
    requires Inv(h) && (x in h.live || forall p | p in h.pages :: !OnPage(h.pages[p], x))
    ensures forall p: nat :: !FreeAgain(h, p, x)
  {
    hide Inv, FreeAgain;
    forall p: nat | FreeAgain(h, p, x)
      ensures false
    {
      AgainOnPage(h, p, x);
    }
  }

  lemma HeadIsFree(h: Heap, x: nat)
    requires Inv(h) && (x in h.live || forall p | p in h.pages :: !OnPage(h.pages[p], x))
    ensures !AtHead(h, x)
  {
    hide Inv;
    forall p | HeadOfPage(h, p, x)
      ensures false
    {
      HeadOnPage(h, p, x);
    }
  }

  lemma ZeroNotLive(h: Heap)
    requires Inv(h)
    ensures 0 !in h.live
  {
    if 0 in h.live {
      hide Inv;
      LivePositive(h, 0);
    }
  }

  lemma LivePositive(h: Heap, x: nat)
    requires Inv(h) && x in h.live
    ensures x > 0 && x !in h.big
  {
    var p :| BlockOf(h, p, x);
    hide Inv, BlockOf;
    BlockOnPage(h, p, x);
    Aligned(h, p);
    if x in h.big {
      BigOffPages(h, x);
    }
  }

  lemma PanicsWhen(present: seq<bool>, h: Heap, p: nat, x: nat)
    requires Inv(h) && RootRep(present, h) && BlockOf(h, p, x)
    ensures |present| == ROOTS && p < REFS && p in h.pages && h.pages[p].blk < NSIZES
    ensures Roots.Panics(Roots.State(h, present), x) <==>
            |h.pages[p].free| + 1 == Blocks(h.pages[p].blk) && !Roots.CanFreeRef(present, h.inuse, p)
  {
    hide Inv, Roots.Panics, Roots.CanFreeRef, Blocks;
    Roots.PanicsAt(Roots.State(h, present), p, x);
  }

  lemma LivePanics(s: Roots.State, x: nat)
    requires |s.present| == ROOTS && x !in s.h.live
    ensures !Roots.Panics(s, x)
  {
  }

  lemma RootsShape(present: seq<bool>, h: Heap)
    requires RootRep(present, h)
    ensures |present| == ROOTS
  {
  }

  lemma UnownedBig(h: Heap, x: nat, n: nat)
    requires Inv(h) && Unowned(h, x, n) && n > 0
    ensures x !in h.big
  {
    assert Apart(h);
  }

  lemma UnownedNew(h: Heap, page: nat)
    requires Unowned(h, page, 1)
    ensures page !in h.transit
  {
    assert page in h.transit ==> PageMissesBig(page, page, 1);
  }

  lemma TakenIsFresh(h: Heap, p: nat, sz: nat)
    requires InvBut(h, p) && h.pages[p].free != []
    ensures h.pages[p].addr + h.pages[p].free[0] !in h.live
  {
    hide FreeListOk, PageOk, ListsOk, Apart, LiveOk;
    TakenFresh(h, p, sz);
  }

  /** No page of blocks of the smallest sufficient size has a free block. */
  ghost predicate NoneFree(h: Heap, sz: nat)
    requires sz <= LARGEST
  {
    forall p | p in h.pages && h.pages[p].blk == BlockType(sz) :: h.pages[p].free == []
  }

  lemma NoneFreeIs(h: Heap, sz: nat)
    requires Inv(h) && sz < LARGEST
    ensures NoneFree(h, sz) <==> !Enabled(h, Alloc(sz))
  {
    var b := BlockType(sz);
    ListsAre(h, b);
    hide Inv, BlockType;
    var q := h.same[b];
    var i := FirstFree(q, h.pages);
    if i < |q| {
      assert q[i] in q;
    } else {
      forall p | p in h.pages && h.pages[p].blk == b
        ensures h.pages[p].free == []
      {
        assert p in q;
      }
    }
  }

  lemma ListsAre(h: Heap, b: nat)
    requires Inv(h) && b < NSIZES
    ensures |h.same| == NSIZES && forall p :: p in h.same[b] <==> p in h.pages && h.pages[p].blk == b
  {
  }

  /** No new page can be had: no memory, no pageref, or no page for the lowest pageref that is not in use. */
  predicate NoNewPage(h: Heap, present: seq<bool>, page: nat, va: nat)
    requires |present| == ROOTS
  {
    var p := LeastUnused(h.inuse, 0);
    page == 0 || p == REFS || (va == 0 && !present[p / PER_PAGE])
  }

  class Allocator {
    var refs: seq<Ref>
    var sizebases: seq<int>
    var allbase: int
    var mem: map<nat, nat>
    var inuse: seq<bool>
    var numinuse: seq<nat>
    var present: seq<bool>
    ghost var h: Heap

    constructor ()
      ensures Valid() && h == Empty()
    {
      refs := seq(REFS, _ => Ref(NULL, NULL, 0, 0, 0));
      sizebases := seq(NSIZES, _ => NULL);
      allbase := NULL;
      mem := map[];
      inuse := seq(REFS, _ => false);
      numinuse := seq(ROOTS, _ => 0);
      present := seq(ROOTS, _ => false);
      h := Empty();
      new;
      EmptyInv();
      EmptyBits(inuse, numinuse);
      hide Inv, BitRep;
    }

    ghost predicate Rep()
      reads this
    {
      && ListRep(refs, sizebases, allbase, h)
      && PageRep(refs, mem, h)
      && BitRep(inuse, numinuse, h)
      && RootRep(present, h)
    }

    ghost predicate Valid()
      reads this
    {
      Inv(h) && Rep()
    }

    /**
     The code at doalloc, on whatever is in the pageref and at the head of the free list; ok is false if one of its
     assertions fails.
     */
    method TakeHead(pr: nat) returns (ok: bool, ptr: nat)
      requires pr < |refs| && refs[pr].nfree > 0 && PageAddr(refs[pr]) + refs[pr].off in mem
      modifies this`refs
      ensures ptr == PageAddr(old(refs)[pr]) + old(refs)[pr].off && (ok <==> TakeOk(old(refs)[pr], mem[ptr]))
      ensures refs == if ok then old(refs)[pr := AfterTake(old(refs)[pr], mem[ptr])] else old(refs)
    {
      hide PageAddr;
      var prpage := PageAddr(refs[pr]);
      ptr := prpage + refs[pr].off;
      if refs[pr].off >= PAGE {
        return false, ptr;
      }
      var next := mem[ptr];
      var r := refs[pr].(nfree := refs[pr].nfree - 1);
      if next != 0 {
        if !(r.nfree > 0 && 0 <= next - prpage < PAGE) {
          return false, ptr;
        }
        r := r.(off := next - prpage);
      } else {
        if r.nfree != 0 {
          return false, ptr;
        }
        r := r.(off := INVALID_OFFSET);
      }
      refs := refs[pr := r];
      return true, ptr;
    }

    /** The same for a page with a free block, where the assertions hold. */
    method TakeFirst(pr: nat, sz: nat) returns (ptr: nat)
      requires Rep() && InvBut(h, pr)
      requires pr in h.pages && h.pages[pr].free != [] && h.pages[pr].blk < NSIZES && sz <= SIZES[h.pages[pr].blk]
      modifies this`refs, this`h
      ensures Valid()
      ensures h == TakeBlock(old(h), pr, sz)
      ensures ptr == old(h).pages[pr].addr + old(h).pages[pr].free[0] && ptr != 0 && ptr !in old(h).live
    {
      hide ListRep, PageRep, BitRep, RootRep, Inv, InvBut, PageAddr;
      BlockPositive(h, pr);
      TakenIsFresh(h, pr, sz);
      FirstBlock(refs, mem, h, pr);
      TakeRep(refs, sizebases, allbase, mem, h, pr, sz);
      BitsKept(inuse, numinuse, present, h, TakeBlock(h, pr, sz));
      TakeInv(h, pr, sz);
      var ok;
      ok, ptr := TakeHead(pr);
      assert ok;
      h := TakeBlock(h, pr, sz);
    }

    /** blocktype: the first block size that is large enough. */
    method TypeFor(sz: nat) returns (b: nat)
      requires sz <= LARGEST
      ensures b == BlockType(sz)
    {
      b := 0;
      while b < NSIZES
        invariant b <= BlockType(sz)
        decreases NSIZES - b
      {
        if sz <= SIZES[b] {
          return;
        }
        b := b + 1;
      }
    }

    /** The first critical section of subpage_kmalloc: looks for a page with a free block. */
    method AllocFrom(sz: nat) returns (ptr: nat)
      requires Valid() && sz < LARGEST
      modifies this`refs, this`h
      ensures Valid()
      ensures ptr != 0 <==> Enabled(old(h), Alloc(sz))
      ensures ptr != 0 ==> CanExec(old(h), Alloc(sz)) && h == Exec(old(h), Alloc(sz))
                            && ptr !in old(h).live && h.live == old(h).live[ptr := sz]
      ensures ptr == 0 ==> h == old(h) && refs == old(refs)
    {
      hide Inv, ListRep, PageRep, BitRep, RootRep, InvBut, RefType, Enabled, CanExec, Exec, BlockType;
      var b := TypeFor(sz);
      SameHead(refs, sizebases, allbase, h, b);
      AllListed(h, b);
      var pr := sizebases[b];
      ghost var i := 0;
      while pr != NULL
        invariant h == old(h) && refs == old(refs)
        invariant i <= |h.same[b]| && pr == NodeAt(h.same[b], i)
        invariant forall k | 0 <= k < i :: h.pages[h.same[b][k]].free == []
        decreases |h.same[b]| - i
      {
        SameNext(refs, sizebases, allbase, mem, h, b, i);
        assert RefType(refs[pr]) == b;
        if refs[pr].nfree > 0 {
          FoundFree(h.same[b], h.pages, i);
          AllocIs(h, sz, i);
          ptr := TakeFirst(pr, sz);
          return;
        }
        pr := refs[pr].nextSame;
        i := i + 1;
      }
      FoundFree(h.same[b], h.pages, i);
      AllocIs(h, sz, i);
      ptr := 0;
    }

    /**
     allocpageref up to the point where it may call allocpagerefpage: finds the first clear bit, page by
     page and word by word, and sets it.
     */
    method AllocPageRef() returns (p: int)
      requires Valid()
      modifies this`inuse, this`numinuse, this`h
      ensures Valid()
      ensures p != NULL <==> Enabled(old(h), Reserve)
      ensures p != NULL ==> 0 <= p < REFS && CanExec(old(h), Reserve) && h == Exec(old(h), Reserve)
                            && p in h.inuse && p !in old(h).inuse && p !in h.pages
      ensures p == NULL ==> h == old(h)
    {
      hide Inv, ListRep, PageRep, RootRep, RootBits, CountTrue, Enabled, Exec, CanExec;
      var whichroot := 0;
      while whichroot < ROOTS
        invariant whichroot <= ROOTS
        invariant h == old(h) && inuse == old(inuse) && numinuse == old(numinuse)
        invariant forall k | 0 <= k < whichroot * PER_PAGE :: inuse[k]
      {
        if numinuse[whichroot] >= PER_PAGE {
          RootFull(inuse, numinuse, h, whichroot);
        } else {
          var i := 0;
          while i < PER_PAGE / 32
            invariant i <= PER_PAGE / 32
            invariant h == old(h) && inuse == old(inuse) && numinuse == old(numinuse)
            invariant forall k | 0 <= k < whichroot * PER_PAGE + i * 32 :: inuse[k]
          {
            if !WordFull(inuse, whichroot * PER_PAGE + i * 32) {
              p := SetFirstBit(whichroot, i);
              return;
            }
            i := i + 1;
          }
        }
        whichroot := whichroot + 1;
      }
      ReserveIs(h, REFS);
      p := NULL;
    }

    /** The innermost loop: sets the first clear bit of a word that has one. */
    method SetFirstBit(whichroot: nat, i: nat) returns (p: nat)
      requires Valid() && whichroot < ROOTS && i < PER_PAGE / 32
      requires forall k | 0 <= k < whichroot * PER_PAGE + i * 32 :: inuse[k]
      requires !WordFull(inuse, whichroot * PER_PAGE + i * 32)
      modifies this`inuse, this`numinuse, this`h
      ensures Valid()
      ensures Enabled(old(h), Reserve) && CanExec(old(h), Reserve) && h == Exec(old(h), Reserve)
      ensures p < REFS && p in h.inuse && p !in old(h).inuse && p !in h.pages
    {
      hide Inv, ListRep, PageRep, RootRep, RootBits, CountTrue, Enabled, Exec, CanExec;
      var j := 0;
      while j < 32
        invariant j <= 32
        invariant h == old(h) && inuse == old(inuse) && numinuse == old(numinuse)
        invariant forall k | 0 <= k < whichroot * PER_PAGE + i * 32 + j :: inuse[k]
      {
        p := whichroot * PER_PAGE + i * 32 + j;
        if !inuse[p] {
          MarkRef(p);
          return;
        }
        j := j + 1;
      }
      assert false;
    }

    method MarkRef(p: nat)
      requires Valid() && p < REFS && !inuse[p]
      requires forall k | 0 <= k < p :: inuse[k]
      modifies this`inuse, this`numinuse, this`h
      ensures Valid()
      ensures Enabled(old(h), Reserve) && CanExec(old(h), Reserve) && h == Exec(old(h), Reserve)
      ensures p in h.inuse && p !in old(h).inuse && p !in h.pages
    {
      hide Inv, ListRep, PageRep, RootRep, RootBits, CountTrue, Enabled, Exec, CanExec;
      ReserveIs(h, p);
      RootsShape(present, h);
      FlipBit(inuse, numinuse, h, p, true);
      ReserveRep(present, h, p);
      ListPageKept(refs, sizebases, allbase, mem, h, h.(inuse := h.inuse + {p}));
      var root := p / PER_PAGE;
      hide BitRep;
      inuse := inuse[p := true];
      numinuse := numinuse[root := numinuse[root] + 1];
      h := h.(inuse := h.inuse + {p});
    }

    /**
     allocpagerefpage after its call of alloc_kpages, which gave page va, or 0.  Another call may have stored a
     page in the meantime.
     */
    method InstallRefPage(p: nat, va: nat)
      requires Valid() && p in h.inuse && p < REFS
      modifies this`present
      ensures Valid() && |old(present)| == ROOTS
      ensures present == if va == 0 then old(present) else old(present)[p / PER_PAGE := true]
    {
      hide Inv, ListRep, PageRep, BitRep;
      if va == 0 {
        return;
      }
      if present[p / PER_PAGE] {
        assert present[p / PER_PAGE := true] == present;
        return;
      }
      present := present[p / PER_PAGE := true];
    }

    /** The loop that makes the free list of a new page. */
    method FillPage(page: nat, b: nat) returns (fla: nat)
      requires b < NSIZES && page > 0
      modifies this`mem
      ensures page <= fla && FreeChain(mem, page, fla - page, Fill(b, Blocks(b)))
      ensures fla - page == BlockOffset(b, Blocks(b) - 1)
      ensures forall x | x in old(mem) && !(page <= x < page + PAGE) :: x in mem && mem[x] == old(mem)[x]
    {
      hide Blocks, IsBlock, BlockOffset, FreeChain, Fill;
      var n := Blocks(b);
      FillOne(mem, page, b);
      fla := page;
      mem := mem[page := 0];
      var i := 1;
      while i < n
        invariant 1 <= i <= n && fla == page + BlockOffset(b, i - 1)
        invariant FreeChain(mem, page, BlockOffset(b, i - 1), Fill(b, i))
        invariant forall x | x in old(mem) && !(page <= x < page + PAGE) :: x in mem && mem[x] == old(mem)[x]
      {
        FillStep(mem, page, b, i);
        InPage(b, i);
        fla := page + BlockOffset(b, i);
        mem := mem[fla := page + BlockOffset(b, i - 1)];
        i := i + 1;
      }
    }

    /** The last critical section of subpage_kmalloc: enters the new page, then takes a block of it. */
    method EnterPage(page: nat, p: nat, sz: nat) returns (ptr: nat)
      requires Valid() && page in h.transit && p in h.inuse && p !in h.pages && sz < LARGEST
      requires |present| == ROOTS && p < REFS && present[p / PER_PAGE]
      modifies this`refs, this`sizebases, this`allbase, this`mem, this`h
      ensures Valid()
      ensures CanExec(old(h), AddPage(page, p, sz)) && h == Exec(old(h), AddPage(page, p, sz))
      ensures ptr != 0 && ptr !in old(h).live && h.live == old(h).live[ptr := sz]
    {
      hide Inv, InvBut, ListRep, PageRep, BitRep, RootRep, CanExec, Exec, Blocks, FreeChain, MkPab, Fill, BlockOffset;
      AddPageIs(h, page, p, sz);
      var b := TypeFor(sz);
      ghost var h1 := Link(h, page, p, b);
      SameHead(refs, sizebases, allbase, h, b);
      var fla := FillPage(page, b);
      var r := Ref(sizebases[b], allbase, MkPab(page, b), fla - page, Blocks(b));
      LinkList(refs, sizebases, allbase, h, page, p, b, r);
      LinkPages(refs, old(mem), mem, h, page, p, b, r);
      LinkRoots(inuse, numinuse, present, h, h1, p);
      refs := refs[p := r];
      sizebases := sizebases[b := p];
      allbase := p;
      h := h1;
      ptr := TakeFirst(p, sz);
    }

    /** The first loop of remove_lists; prev stands for the place that guy points into. */
    method RemoveSame(pr: nat, b: nat)
      requires ListRep(refs, sizebases, allbase, h) && b < NSIZES && |h.same| == NSIZES && NoDup(h.same[b])
      requires forall c, p | 0 <= c < NSIZES && c != b && p in h.same[b] :: p !in h.same[c]
      modifies this`refs, this`sizebases
      ensures ListRep(refs, sizebases, allbase, WithoutSame(h, b, pr))
      ensures SameButSame(old(refs), refs)
    {
      hide ListRep;
      SameHead(refs, sizebases, allbase, h, b);
      ghost var q := h.same[b];
      var prev, cur := NULL, sizebases[b];
      ghost var i := 0;
      while cur != NULL
        invariant refs == old(refs) && sizebases == old(sizebases)
        invariant i <= |q| && cur == NodeAt(q, i) && prev == (if i == 0 then NULL else q[i - 1])
        invariant forall k | 0 <= k < i :: q[k] != pr
        decreases |q| - i
      {
        SameStep(refs, sizebases, allbase, h, b, i);
        if cur == pr {
          if prev == NULL {
            UnlinkSameHead(refs, sizebases, allbase, h, b);
            sizebases := sizebases[b := refs[pr].nextSame];
          } else {
            UnlinkSameNext(refs, sizebases, allbase, h, b, i);
            refs := refs[prev := refs[prev].(nextSame := refs[pr].nextSame)];
          }
          return;
        }
        prev, cur := cur, refs[cur].nextSame;
        i := i + 1;
      }
      RemoveNone(q, pr);
      assert WithoutSame(h, b, pr) == h;
    }

    /** The second loop of remove_lists. */
    method RemoveAll(pr: nat)
      requires ListRep(refs, sizebases, allbase, h) && NoDup(h.all)
      modifies this`refs, this`allbase
      ensures ListRep(refs, sizebases, allbase, WithoutAll(h, pr))
      ensures SameButAll(old(refs), refs)
    {
      hide ListRep;
      AllHead(refs, sizebases, allbase, h);
      ghost var q := h.all;
      var prev, cur := NULL, allbase;
      ghost var i := 0;
      while cur != NULL
        invariant refs == old(refs) && allbase == old(allbase)
        invariant i <= |q| && cur == NodeAt(q, i) && prev == (if i == 0 then NULL else q[i - 1])
        invariant forall k | 0 <= k < i :: q[k] != pr
        decreases |q| - i
      {
        AllStep(refs, sizebases, allbase, h, i);
        if cur == pr {
          if prev == NULL {
            UnlinkAllHead(refs, sizebases, allbase, h);
            allbase := refs[pr].nextAll;
          } else {
            UnlinkAllNext(refs, sizebases, allbase, h, i);
            refs := refs[prev := refs[prev].(nextAll := refs[pr].nextAll)];
          }
          return;
        }
        prev, cur := cur, refs[cur].nextAll;
        i := i + 1;
      }
      RemoveNone(q, pr);
      assert WithoutAll(h, pr) == h;
    }

    /**
     freepageref: finds the page of pagerefs that p is on and clears its bit.  ok is false if the assertion about
     the pages before it fails.
     */
    method FreePageRef(p: nat) returns (ok: bool)
      requires BitRep(inuse, numinuse, h) && |present| == ROOTS && p < REFS && p in h.inuse && present[p / PER_PAGE]
      requires forall k | k in h.inuse :: k < REFS
      modifies this`inuse, this`numinuse
      ensures ok <==> Roots.CanFreeRef(present, h.inuse, p)
      ensures ok ==> BitRep(inuse, numinuse, h.(inuse := h.inuse - {p}))
      ensures !ok ==> inuse == old(inuse) && numinuse == old(numinuse)
    {
      var whichroot := 0;
      while whichroot < ROOTS
        invariant whichroot <= p / PER_PAGE
        invariant inuse == old(inuse) && numinuse == old(numinuse)
        invariant forall k | k in h.inuse && k / PER_PAGE < whichroot :: present[k / PER_PAGE]
      {
        RootEmpty(inuse, numinuse, h, whichroot);
        if !present[whichroot] {
          if numinuse[whichroot] != 0 {
            return false;
          }
        } else {
          var j := p - whichroot * PER_PAGE;
          if 0 <= j < PER_PAGE {
            FlipBit(inuse, numinuse, h, p, false);
            hide BitRep;
            inuse := inuse[p := false];
            numinuse := numinuse[whichroot := numinuse[whichroot] - 1];
            return true;
          }
        }
        whichroot := whichroot + 1;
      }
      assert false;
    }

    /** fill_deadbeef. */
    method FillDeadbeef(x: nat, len: nat)
      modifies this`mem
      ensures OnlyAt(old(mem), mem, x, len)
    {
      var i := 0;
      while i < len / 4
        invariant OnlyAt(old(mem), mem, x, len)
      {
        mem := mem[x + 4 * i := 0xdeadbeef];
        i := i + 1;
      }
    }

    /** A client writes into a block that it has. */
    method ClientWrite(ghost p: nat, ghost x: nat, y: nat, v: nat)
      requires Valid() && BlockOf(h, p, x) && p in h.pages && h.pages[p].blk < NSIZES
      requires x <= y < x + SIZES[h.pages[p].blk]
      modifies this`mem
      ensures Valid() && mem == old(mem)[y := v]
    {
      hide Inv, ListRep, PageRep, BitRep, RootRep, BlockOf;
      WriteInside(refs, mem, mem[y := v], h, p, x);
      mem := mem[y := v];
    }

    /** The search of subpage_kfree for the page that x is on. */
    method FindPage(x: nat) returns (pr: int)
      requires Valid()
      ensures pr == NULL <==> forall p | p in h.pages :: !OnPage(h.pages[p], x)
      ensures pr != NULL ==> pr >= 0 && pr in h.pages && OnPage(h.pages[pr], x)
    {
      hide Inv, ListRep, PageRep, BitRep, RootRep, PageAddr, RefType;
      AllHead(refs, sizebases, allbase, h);
      AllOfPages(h);
      pr := allbase;
      ghost var i := 0;
      while pr != NULL
        invariant i <= |h.all| && pr == NodeAt(h.all, i)
        invariant forall k | 0 <= k < i :: !OnPage(h.pages[h.all[k]], x)
        decreases |h.all| - i
      {
        AllNext(refs, sizebases, allbase, mem, h, i);
        assert RefType(refs[pr]) < NSIZES;
        if PageAddr(refs[pr]) <= x < PageAddr(refs[pr]) + PAGE {
          return;
        }
        pr := refs[pr].nextAll;
        i := i + 1;
      }
      forall p | p in h.pages
        ensures !OnPage(h.pages[p], x)
      {
        assert p in h.all;
      }
    }

    /** A page that counts as fully free leaves the lists and gives up its pageref, if freepageref lets it. */
    method ReleasePage(pr: nat) returns (ok: bool)
      requires ListRep(refs, sizebases, allbase, h) && BitRep(inuse, numinuse, h) && RootRep(present, h) && ListsOk(h)
      requires pr in h.pages && h.pages[pr].blk < NSIZES && pr < REFS && RefType(refs[pr]) == h.pages[pr].blk
      requires PageRep(refs, mem, Unlink(h, pr))
      modifies this`refs, this`sizebases, this`allbase, this`inuse, this`numinuse, this`h
      ensures |present| == ROOTS && (ok <==> Roots.CanFreeRef(present, old(h).inuse, pr))
      ensures ok ==> Rep() && h == Unlink(old(h), pr)
    {
      hide ListsOk, ListRep, PageRep, BitRep, RootRep, Roots.CanFreeRef, RefType, Remove, NoDup;
      ListShape(refs, sizebases, allbase, h);
      ghost var h0, b := h, h.pages[pr].blk;
      ButLists(h, pr);
      RootsAfterUnlink(present, h, pr);
      RemoveSame(pr, RefType(refs[pr]));
      h := WithoutSame(h, b, pr);
      RemoveAll(pr);
      h := h0;
      PagesAfterUnlink(old(refs), refs, mem, Unlink(h0, pr), Unlink(h0, pr));
      ListsAfterUnlink(refs, sizebases, allbase, h0, pr);
      ok := FreePageRef(pr);
      if ok {
        BitsAfterUnlink(inuse, numinuse, h0, pr);
        h := Unlink(h0, pr);
      }
    }

    /**
     subpage_kfree up to its check of the free list's head.  Freed(0) means that it goes on, with page pr: x is a live
     block, or a free one that is not at the head.
     */
    method CheckFree(x: nat) returns (r: FreeResult, pr: nat)
      requires Valid()
      ensures r in {NotOurs, BadAddress, Caught, Freed(0)}
      ensures r.NotOurs? <==> forall p | p in h.pages :: !OnPage(h.pages[p], x)
      ensures r.Caught? <==> AtHead(h, x)
      ensures r.Freed? <==> x in h.live || exists p: nat :: FreeAgain(h, p, x)
      ensures r.Freed? ==> BlockOf(h, pr, x) || FreeAgain(h, pr, x)
    {
      hide Inv, ListRep, PageRep, BitRep, RootRep, BlockOf, FreeAgain, PageAddr, RefType, AtHead;
      forall p: nat | FreeAgain(h, p, x)
        ensures p in h.pages && OnPage(h.pages[p], x) && x !in h.live && !AtHead(h, x)
      {
        AgainOnPage(h, p, x);
      }
      var p := FindPage(x);
      if p == NULL {
        NotLive(h, x);
        HeadIsFree(h, x);
        return NotOurs, 0;
      }
      pr := p;
      TypeOf(refs, mem, h, pr);
      Aligned(h, pr);
      HeadHere(h, pr, x);
      HeadOf(refs, mem, h, pr);
      var prpage, blk := PageAddr(refs[pr]), RefType(refs[pr]);
      if (x - prpage) % SIZES[blk] != 0 {
        Misaligned(h, pr, x);
        forall q: nat | FreeAgain(h, q, x)
          ensures false
        {
          AgainOnPage(h, q, x);
          OnePageOnly(h, q, pr, x);
        }
        return BadAddress, pr;
      }
      if refs[pr].off != INVALID_OFFSET && prpage + refs[pr].off == x {
        return Caught, pr;
      }
      BlockIsOneOf(h, pr, x);
      if x in h.live {
        LiveIsBlock(h, pr, x);
      }
      return Freed(0), pr;
    }

    /**
     The critical section of subpage_kfree, for any address.  A live block is freed.  A block that is at the head of its
     free list already is noticed; any other free block is not, and then the free list becomes a loop, or the page is
     given back although a block of it is live.
     */
    method SubpageKfree(x: nat) returns (r: FreeResult)
      requires Valid()
      modifies this`refs, this`sizebases, this`allbase, this`mem, this`inuse, this`numinuse, this`h
      ensures r.NotOurs? <==> forall p | p in old(h).pages :: !OnPage(old(h).pages[p], x)
      ensures r.Caught? <==> AtHead(old(h), x)
      ensures r.Freed? || r.Panicked? <==> x in old(h).live || exists p: nat :: FreeAgain(old(h), p, x)
      ensures r.NotOurs? || r.BadAddress? ==> Valid() && h == old(h) && mem == old(mem) && refs == old(refs)
      ensures |present| == ROOTS
      ensures x in old(h).live ==> (r.Panicked? <==> Roots.Panics(Roots.State(old(h), present), x))
      ensures x in old(h).live && r.Freed? ==> Valid() && CanExec(old(h), Free(x)) && h == Exec(old(h), Free(x))
                                               && h.transit == old(h).transit + (if r.page == 0 then {} else {r.page})
      ensures forall p: nat | FreeAgain(old(h), p, x) && !LastAgain(old(h), p) ::
                && r == Freed(0) && h == old(h) && Loops(old(refs), refs, mem, h, p, x)
                && sizebases == old(sizebases) && allbase == old(allbase) && inuse == old(inuse)
      ensures forall p: nat | FreeAgain(old(h), p, x) && LastAgain(old(h), p) ::
                && p < REFS && |old(h).same| == NSIZES
                && r == (if Roots.CanFreeRef(present, old(h).inuse, p) then Freed(old(h).pages[p].addr) else Panicked)
                && (r.Freed? ==> Rep() && h == Unlink(old(h), p))
    {
      hide Inv, ListRep, PageRep, BitRep, RootRep, CanExec, Exec, BlockOf, FreeAgain, AtHead, Loops, LastAgain;
      hide Roots.Panics, Roots.CanFreeRef;
      RootsShape(present, h);
      forall p: nat | FreeAgain(h, p, x)
        ensures p in h.pages && OnPage(h.pages[p], x) && x !in h.live
      {
        AgainOnPage(h, p, x);
      }
      var pr;
      r, pr := CheckFree(x);
      if !r.Freed? {
        return;
      }
      if FreeAgain(h, pr, x) {
        forall p: nat | FreeAgain(h, p, x)
          ensures p == pr
        {
          OnePageOnly(h, p, pr, x);
        }
      } else {
        BlockIsLive(h, pr, x);
      }
      r := PutBack(pr, x);
    }

    /** The writes of subpage_kfree: the block is filled, and put in front of its page's free list. */
    method WriteBack(pr: nat, x: nat)
      requires pr < |refs| && RefType(refs[pr]) < NSIZES && PageAddr(refs[pr]) <= x
      requires refs[pr].off != INVALID_OFFSET ==> PageAddr(refs[pr]) + refs[pr].off != x
      modifies this`refs, this`mem
      ensures OnlyAt(old(mem), mem, x, SIZES[RefType(old(refs)[pr])])
      ensures x in mem && mem[x] == HeadWord(old(refs)[pr])
      ensures refs == old(refs)[pr := AfterPut(old(refs)[pr], x)]
    {
      hide PageAddr, RefType;
      var prpage, blk := PageAddr(refs[pr]), RefType(refs[pr]);
      FillDeadbeef(x, SIZES[blk]);
      if refs[pr].off == INVALID_OFFSET {
        mem := mem[x := 0];
      } else {
        mem := mem[x := prpage + refs[pr].off];
        assert mem[x] != x;
      }
      refs := refs[pr := refs[pr].(off := x - prpage, nfree := refs[pr].nfree + 1)];
    }

    /** The rest of subpage_kfree, for a block of page pr. */
    method PutBack(pr: nat, x: nat) returns (r: FreeResult)
      requires Valid() && (BlockOf(h, pr, x) || FreeAgain(h, pr, x))
      modifies this`refs, this`sizebases, this`allbase, this`mem, this`inuse, this`numinuse, this`h
      ensures r.Freed? || r.Panicked?
      ensures |present| == ROOTS && pr < REFS && pr in old(h).pages && |old(h).same| == NSIZES
      ensures BlockOf(old(h), pr, x) ==> (r.Panicked? <==> Roots.Panics(Roots.State(old(h), present), x))
      ensures BlockOf(old(h), pr, x) && r.Freed? ==>
                && Valid() && CanExec(old(h), Free(x)) && h == Exec(old(h), Free(x))
                && h.transit == old(h).transit + (if r.page == 0 then {} else {r.page})
      ensures FreeAgain(old(h), pr, x) && !LastAgain(old(h), pr) ==>
                && r == Freed(0) && h == old(h) && Loops(old(refs), refs, mem, h, pr, x)
                && sizebases == old(sizebases) && allbase == old(allbase) && inuse == old(inuse)
      ensures FreeAgain(old(h), pr, x) && LastAgain(old(h), pr) ==>
                && r == (if Roots.CanFreeRef(present, old(h).inuse, pr) then Freed(old(h).pages[pr].addr) else Panicked)
                && (r.Freed? ==> Rep() && h == Unlink(old(h), pr))
    {
      hide Inv, ListsOk, ListRep, PageRep, BitRep, RootRep, Blocks, CanExec, Exec, BlockOf, FreeAgain, PageAddr,
           RefType;
      hide Roots.Panics, Roots.CanFreeRef, Loops, LastAgain, HeadWord;
      BlockOrAgain(refs, mem, h, pr, x);
      var prpage, blk := PageAddr(refs[pr]), RefType(refs[pr]);
      WriteBack(pr, x);
      ghost var live := BlockOf(h, pr, x);
      if live {
        PanicsWhen(present, h, pr, x);
        FreeIs(h, pr, x);
        PutRep(old(refs), sizebases, allbase, old(mem), mem, h, pr, x);
        BitsKept(inuse, numinuse, present, h, ReturnBlock(h, pr, x));
        h := ReturnBlock(h, pr, x);
      } else {
        RootsShape(present, h);
        AgainRep(old(refs), sizebases, allbase, old(mem), mem, h, pr, x);
      }
      assert refs[pr].nfree <= Blocks(blk);
      if refs[pr].nfree == Blocks(blk) {
        var ok := ReleasePage(pr);
        return if ok then Freed(prpage) else Panicked;
      }
      return Freed(0);
    }

    /** alloc_kpages or free_kpages: pages change hands, the heap's own structures do not. */
    ghost method MovePages(a: Action)
      requires Valid() && Enabled(h, a) && (a.GetPage? || a.GiveBack? || a.AllocBig? || a.FreeBig?)
      modifies this`h
      ensures Valid() && CanExec(old(h), a) && h == Exec(old(h), a)
      ensures h.pages == old(h).pages && h.inuse == old(h).inuse && h.live == old(h).live
    {
      hide Inv, ListRep, PageRep, BitRep, RootRep, Enabled, CanExec, Exec;
      PageStepRep(h, a);
      ListPageKept(refs, sizebases, allbase, mem, h, Exec(h, a));
      BitsKept(inuse, numinuse, present, h, Exec(h, a));
      h := Exec(h, a);
    }

    /**
     kmalloc when nothing else happens meanwhile.  page is what alloc_kpages returns for this call, and va
     what it returns if a page of pagerefs is needed as well.  Without that page the call fails and the bit of
     its pageref stays set; with a size whose page count wraps it returns an address that owns nothing.
     */
    method Kmalloc(sz: nat, page: nat, va: nat) returns (ptr: nat)
      requires Valid() && sz < Words.W32
      requires page == 0 || Unowned(h, page, if sz >= LARGEST then PagesFor(sz) else 1)
      modifies this
      ensures Valid() && |old(present)| == ROOTS
      ensures sz < LARGEST ==> (ptr == 0 <==> NoneFree(old(h), sz) && NoNewPage(old(h), old(present), page, va))
      ensures sz >= LARGEST ==> ptr == page
      ensures ptr == 0 ==> h == old(h) || (va == 0 && CanExec(old(h), Reserve) && h == Exec(old(h), Reserve))
      ensures ptr != 0 && sz < LARGEST ==>
              ptr !in old(h).live && h.live == old(h).live[ptr := sz] && h.big == old(h).big
      ensures ptr != 0 && LARGEST <= sz <= Words.W32 - PAGE ==>
                ptr !in old(h).big && h == old(h).(big := old(h).big[ptr := Big(PagesFor(sz), sz)])
      ensures sz > Words.W32 - PAGE ==> h == old(h)
      ensures h.transit == old(h).transit
    {
      hide Inv, ListRep, PageRep, BitRep, RootRep, Unowned, PagesFor, NoneFree, LeastUnused;
      RootsShape(present, h);
      if sz >= LARGEST {
        if page != 0 && sz <= Words.W32 - PAGE {
          UnownedBig(h, page, PagesFor(sz));
          MovePages(AllocBig(page, sz));
        }
        return page;
      }
      NoneFreeIs(h, sz);
      ptr := AllocFrom(sz);
      if ptr != 0 || page == 0 {
        return;
      }
      UnownedNew(h, page);
      MovePages(GetPage(page));
      var p := AllocPageRef();
      if p == NULL {
        MovePages(GiveBack(page));
        return 0;
      }
      if !present[p / PER_PAGE] {
        InstallRefPage(p, va);
        if !present[p / PER_PAGE] {
          MovePages(GiveBack(page));
          return 0;
        }
      }
      ptr := EnterPage(page, p, sz);
    }

    /** kfree when nothing else happens meanwhile; ok is false if freepageref panics. */
    method Kfree(x: nat) returns (ok: bool)
      requires Valid() && (x == 0 || x in h.live || x in h.big)
      modifies this
      ensures |old(present)| == ROOTS && (ok <==> !Roots.Panics(Roots.State(old(h), old(present)), x))
      ensures ok ==> Valid()
      ensures ok && x != 0 ==> h.live == old(h).live - {x} && h.big == old(h).big - {x}
      ensures x == 0 ==> h == old(h)
    {
      hide Inv, ListRep, PageRep, BitRep, RootRep, FreeAgain, Roots.Panics, AtHead;
      RootsShape(present, h);
      if x == 0 {
        ZeroNotLive(h);
        LivePanics(Roots.State(h, present), x);
        return true;
      }
      if x in h.big {
        BigOffPages(h, x);
      } else {
        LivePositive(h, x);
      }
      NotAgain(h, x);
      if x !in h.live {
        LivePanics(Roots.State(h, present), x);
      }
      HeadIsFree(h, x);
      var r := SubpageKfree(x);
      match r
      case NotOurs =>
        assert x % PAGE == 0;
        MovePages(FreeBig(x));
        return true;
      case Panicked =>
        return false;
      case Freed(page) =>
        if page != 0 {
          MovePages(GiveBack(page));
        }
        return true;
      case BadAddress => assert false;
      case Caught => assert false;
    }
  }
}
