/**
 Block ownership in SFS: what inodes, indirect blocks and the free block bitmap say about each other.

 The number of direct blocks in an inode and of entries in an indirect block are nd and per.  Block 0 is
 the superblock, so that a block number of 0 stands for no block.
 */
module SfsSpec {

  datatype Inode = Inode(direct: seq<nat>, indirect: nat, size: nat, links: nat)

  /** used is the free block bitmap, which may be longer than the disk; files maps inode numbers to inodes. */
  datatype Fs = Fs(nd: nat, per: nat, used: seq<bool>, files: map<nat, Inode>, disk: seq<seq<nat>>)

  /**
   The places that hold block numbers: an inode's own block, its direct blocks, its indirect block, the entries in that.
   */
  datatype Slot = Self(ino: nat) | Direct(ino: nat, k: nat) | Indirect(ino: nat) | Entry(ino: nat, k: nat)

  predicate Shape(fs: Fs) {
    && fs.nd > 0 && fs.per > 0 && |fs.used| >= |fs.disk| > 0
    && (forall i | i in fs.files :: i > 0 && |fs.files[i].direct| == fs.nd)
    && (forall b | 0 <= b < |fs.disk| :: |fs.disk[b]| == fs.per)
  }

  /** The block number in a slot, 0 if there is none. */
  function BlockAt(fs: Fs, s: Slot): nat
    requires Shape(fs)
  {
    if s.ino !in fs.files then 0
    else
      var f := fs.files[s.ino];
      match s
      case Self(i) => i
      case Direct(_, k) => if k < fs.nd then f.direct[k] else 0
      case Indirect(_) => f.indirect
      case Entry(_, k) => if 0 < f.indirect < |fs.disk| && k < fs.per then fs.disk[f.indirect][k] else 0
  }

  /** Every block in a slot is on the disk and marked used. */
  ghost predicate Marked(fs: Fs)
    requires Shape(fs)
  {
    forall s :: BlockAt(fs, s) != 0 ==> BlockAt(fs, s) < |fs.disk| && fs.used[BlockAt(fs, s)]
  }

  /** No block is in two slots. */
  ghost predicate Once(fs: Fs)
    requires Shape(fs)
  {
    forall s, t :: BlockAt(fs, s) == BlockAt(fs, t) && BlockAt(fs, s) != 0 ==> s == t
  }

  ghost predicate Inv(fs: Fs) {
    && Shape(fs) && Marked(fs) && Once(fs)
    && fs.used[0] && (forall b | |fs.disk| <= b < |fs.used| :: fs.used[b])
  }

  ghost predicate Unreached(fs: Fs, b: nat)
    requires Shape(fs)
  {
    forall s :: BlockAt(fs, s) != b
  }

  /** Block k of a file. */
  function Lookup(fs: Fs, i: nat, k: nat): nat
    requires Shape(fs)
  {
    if k < fs.nd then BlockAt(fs, Direct(i, k)) else BlockAt(fs, Entry(i, k - fs.nd))
  }

  function Zeros(n: nat): seq<nat> {
    seq(n, _ => 0)
  }

  // ---------------------------------------------------------------- changes

  /** Marks block b and clears it. */
  function Take(fs: Fs, b: nat): Fs
    requires b < |fs.disk| <= |fs.used|
  {
    fs.(used := fs.used[b := true], disk := fs.disk[b := Zeros(fs.per)])
  }

  function Unmark(fs: Fs, b: nat): Fs
    requires b < |fs.used|
  {
    fs.(used := fs.used[b := false])
  }

  function SetDirect(fs: Fs, i: nat, k: nat, b: nat): Fs
    requires i in fs.files && k < |fs.files[i].direct|
  {
    fs.(files := fs.files[i := fs.files[i].(direct := fs.files[i].direct[k := b])])
  }

  function SetIndirect(fs: Fs, i: nat, b: nat): Fs
    requires i in fs.files
  {
    fs.(files := fs.files[i := fs.files[i].(indirect := b)])
  }

  /** Writes the indirect block of file i. */
  function WriteEntries(fs: Fs, i: nat, entries: seq<nat>): Fs
    requires i in fs.files && fs.files[i].indirect < |fs.disk|
  {
    fs.(disk := fs.disk[fs.files[i].indirect := entries])
  }

  function AddFile(fs: Fs, i: nat): Fs {
    fs.(files := fs.files[i := Inode(Zeros(fs.nd), 0, 0, 0)])
  }

  function DropFile(fs: Fs, i: nat): Fs {
    fs.(files := fs.files - {i})
  }

  function SetSize(fs: Fs, i: nat, size: nat): Fs
    requires i in fs.files
  {
    fs.(files := fs.files[i := fs.files[i].(size := size)])
  }

  // ---------------------------------------------------------------- one slot at a time

  /** The slots of fs' are those of fs, except that slot s0 holds b. */
  ghost predicate OneSlot(fs: Fs, fs': Fs, s0: Slot, b: nat)
    requires Shape(fs) && Shape(fs')
  {
    forall s :: BlockAt(fs', s) == if s == s0 then b else BlockAt(fs, s)
  }

  /** A slot may be cleared, or filled with a block that is marked and in no slot. */
  lemma OneSlotInv(fs: Fs, fs': Fs, s0: Slot, b: nat)
    requires Inv(fs) && Shape(fs') && OneSlot(fs, fs', s0, b)
    requires fs'.used == fs.used && |fs'.disk| == |fs.disk|
    requires b == 0 || (b < |fs.disk| && fs.used[b] && Unreached(fs, b))
    ensures Inv(fs')
  {
    assert |fs'.used| == |fs.used| && |fs'.used| >= |fs'.disk|;
    hide Shape, BlockAt;
    forall s
      ensures BlockAt(fs', s) != 0 ==> BlockAt(fs', s) < |fs'.disk| && fs'.used[BlockAt(fs', s)]
    {
      assert BlockAt(fs', s) == if s == s0 then b else BlockAt(fs, s);
    }
    forall s, t
      ensures BlockAt(fs', s) == BlockAt(fs', t) && BlockAt(fs', s) != 0 ==> s == t
    {
      assert BlockAt(fs', s) == if s == s0 then b else BlockAt(fs, s);
      assert BlockAt(fs', t) == if t == s0 then b else BlockAt(fs, t);
    }
  }

  ghost predicate SameSlots(fs: Fs, fs': Fs)
    requires Shape(fs) && Shape(fs')
  {
    forall s :: BlockAt(fs', s) == BlockAt(fs, s)
  }

  /** Taking a free block changes no slot and leaves the block in none. */
  lemma TakeInv(fs: Fs, b: nat)
    requires Inv(fs) && b < |fs.used| && !fs.used[b]
    ensures 0 < b < |fs.disk| && Unreached(fs, b)
    ensures var fs' := Take(fs, b);
            Inv(fs') && SameSlots(fs, fs') && Unreached(fs', b)
  {
    var fs' := Take(fs, b);
    assert b < |fs.disk|;
    forall s
      ensures BlockAt(fs, s) != b && BlockAt(fs', s) == BlockAt(fs, s)
    {
      assert BlockAt(fs, s) != b;
      if s.Entry? && s.ino in fs.files {
        assert BlockAt(fs, Indirect(s.ino)) != b;
      }
    }
    assert Shape(fs');
    hide Shape, BlockAt;
    forall s
      ensures BlockAt(fs', s) != 0 ==> BlockAt(fs', s) < |fs'.disk| && fs'.used[BlockAt(fs', s)]
    {
      assert BlockAt(fs', s) == BlockAt(fs, s);
    }
    forall s, t
      ensures BlockAt(fs', s) == BlockAt(fs', t) && BlockAt(fs', s) != 0 ==> s == t
    {
      assert BlockAt(fs', s) == BlockAt(fs, s) && BlockAt(fs', t) == BlockAt(fs, t);
    }
  }

  /** A block in no slot may be marked free. */
  lemma UnmarkInv(fs: Fs, b: nat)
    requires Inv(fs) && 0 < b < |fs.disk| && Unreached(fs, b)
    ensures Inv(Unmark(fs, b)) && SameSlots(fs, Unmark(fs, b))
  {
    var fs' := Unmark(fs, b);
    assert Shape(fs');
    assert forall s :: BlockAt(fs', s) == BlockAt(fs, s);
    hide Shape, BlockAt;
    forall s
      ensures BlockAt(fs', s) != 0 ==> BlockAt(fs', s) < |fs'.disk| && fs'.used[BlockAt(fs', s)]
    {
      assert BlockAt(fs', s) == BlockAt(fs, s);
    }
  }

  lemma DirectSlot(fs: Fs, i: nat, k: nat, b: nat)
    requires Shape(fs) && i in fs.files && k < fs.nd
    ensures Shape(SetDirect(fs, i, k, b)) && OneSlot(fs, SetDirect(fs, i, k, b), Direct(i, k), b)
  {
  }

  /** All entries of the indirect block are 0, or there is none. */
  predicate NoEntries(fs: Fs, b: nat) {
    0 < b < |fs.disk| ==> forall k | 0 <= k < |fs.disk[b]| :: fs.disk[b][k] == 0
  }

  /** An empty indirect block may be put in or taken out. */
  lemma IndirectSlot(fs: Fs, i: nat, b: nat)
    requires Shape(fs) && i in fs.files && NoEntries(fs, fs.files[i].indirect) && NoEntries(fs, b)
    ensures Shape(SetIndirect(fs, i, b)) && OneSlot(fs, SetIndirect(fs, i, b), Indirect(i), b)
  {
    var fs' := SetIndirect(fs, i, b);
    forall s
      ensures BlockAt(fs', s) == if s == Indirect(i) then b else BlockAt(fs, s)
    {
    }
  }

  /** The entries of one file's indirect block, and nothing else, may change. */
  lemma EntrySlots(fs: Fs, i: nat, entries: seq<nat>)
    requires Inv(fs) && i in fs.files && fs.files[i].indirect > 0 && |entries| == fs.per
    ensures fs.files[i].indirect < |fs.disk| && Shape(WriteEntries(fs, i, entries))
    ensures forall s :: BlockAt(WriteEntries(fs, i, entries), s)
                     == if s.Entry? && s.ino == i then (if s.k < fs.per then entries[s.k] else 0) else BlockAt(fs, s)
  {
    assert BlockAt(fs, Indirect(i)) == fs.files[i].indirect;
    var fs' := WriteEntries(fs, i, entries);
    forall s
      ensures BlockAt(fs', s) == if s.Entry? && s.ino == i then (if s.k < fs.per then entries[s.k] else 0)
              else BlockAt(fs, s)
    {
      if s.Entry? && s.ino in fs.files && s.ino != i {
        assert BlockAt(fs, Indirect(s.ino)) == fs.files[s.ino].indirect;
      }
    }
  }

  lemma EntrySlot(fs: Fs, i: nat, k: nat, b: nat)
    requires Inv(fs) && i in fs.files && fs.files[i].indirect > 0 && k < fs.per
    ensures fs.files[i].indirect < |fs.disk|
    ensures var fs' := WriteEntries(fs, i, fs.disk[fs.files[i].indirect][k := b]);
            Shape(fs') && OneSlot(fs, fs', Entry(i, k), b)
  {
    assert BlockAt(fs, Indirect(i)) == fs.files[i].indirect;
    var entries := fs.disk[fs.files[i].indirect];
    EntrySlots(fs, i, entries[k := b]);
    var fs' := WriteEntries(fs, i, entries[k := b]);
    forall s
      ensures BlockAt(fs', s) == if s == Entry(i, k) then b else BlockAt(fs, s)
    {
      if s.Entry? && s.ino == i {
        assert BlockAt(fs, s) == if s.k < fs.per then entries[s.k] else 0;
      }
    }
  }

  lemma AddSlot(fs: Fs, i: nat)
    requires Shape(fs) && i > 0 && i !in fs.files
    ensures Shape(AddFile(fs, i)) && OneSlot(fs, AddFile(fs, i), Self(i), i)
  {
  }

  /** A file whose slots are all empty may be dropped. */
  lemma DropSlot(fs: Fs, i: nat)
    requires Shape(fs) && i in fs.files
    requires fs.files[i].indirect == 0 && forall k | 0 <= k < fs.nd :: fs.files[i].direct[k] == 0
    ensures Shape(DropFile(fs, i)) && OneSlot(fs, DropFile(fs, i), Self(i), 0)
  {
  }

  /** Clearing a slot leaves its block in no slot. */
  lemma Cleared(fs: Fs, fs': Fs, s0: Slot, b: nat)
    requires Inv(fs) && Shape(fs') && OneSlot(fs, fs', s0, 0) && b == BlockAt(fs, s0) != 0
    ensures Unreached(fs', b)
  {
    hide BlockAt, Shape;
    forall s
      ensures BlockAt(fs', s) != b
    {
      assert BlockAt(fs', s) == if s == s0 then 0 else BlockAt(fs, s);
    }
  }

  // ---------------------------------------------------------------- adding blocks to a file

  /** The logical maps of all files are the same, except possibly at block k of file i. */
  ghost predicate SameElsewhere(fs: Fs, fs': Fs, i: nat, k: nat)
    requires Shape(fs) && Shape(fs')
  {
    && fs'.nd == fs.nd && fs'.per == fs.per
    && forall j, m | j != i || m != k :: Lookup(fs', j, m) == Lookup(fs, j, m)
  }

  ghost predicate SameLookups(fs: Fs, fs': Fs)
    requires Shape(fs) && Shape(fs')
  {
    && fs'.nd == fs.nd && fs'.per == fs.per
    && forall j, m :: Lookup(fs', j, m) == Lookup(fs, j, m)
  }

  /** Block b, which was free, is now marked, cleared and block k of file i; nothing else was mapped or unmapped. */
  ghost predicate Mapped(fs: Fs, fs': Fs, i: nat, k: nat, b: nat)
    requires Shape(fs) && Shape(fs')
  {
    && 0 < b < |fs.disk| && !fs.used[b] && |fs'.disk| == |fs.disk|
    && Lookup(fs', i, k) == b && fs'.disk[b] == Zeros(fs.per)
    && SameElsewhere(fs, fs', i, k)
  }

  lemma MapDirect(fs: Fs, i: nat, k: nat, b: nat)
    requires Inv(fs) && i in fs.files && k < fs.nd && fs.files[i].direct[k] == 0 && b < |fs.used| && !fs.used[b]
    ensures b < |fs.disk|
    ensures var fs' := SetDirect(Take(fs, b), i, k, b); Inv(fs') && Mapped(fs, fs', i, k, b)
  {
    TakeInv(fs, b);
    var fs1 := Take(fs, b);
    DirectSlot(fs1, i, k, b);
    hide BlockAt, Shape;
    OneSlotInv(fs1, SetDirect(fs1, i, k, b), Direct(i, k), b);
  }

  /** The first step of mapping a block through a missing indirect block. */
  lemma MapIndirect(fs: Fs, i: nat, b: nat)
    requires Inv(fs) && i in fs.files && fs.files[i].indirect == 0 && b < |fs.used| && !fs.used[b]
    ensures 0 < b < |fs.disk|
    ensures var fs' := SetIndirect(Take(fs, b), i, b);
            Inv(fs') && SameLookups(fs, fs') && fs'.disk[b] == Zeros(fs.per)
  {
    TakeInv(fs, b);
    var fs1 := Take(fs, b);
    assert NoEntries(fs1, b) && NoEntries(fs1, 0);
    IndirectSlot(fs1, i, b);
    hide BlockAt, Shape;
    OneSlotInv(fs1, SetIndirect(fs1, i, b), Indirect(i), b);
  }

  lemma MapEntry(fs: Fs, i: nat, k: nat, b: nat)
    requires Inv(fs) && i in fs.files && fs.files[i].indirect > 0 && k < fs.per && b < |fs.used| && !fs.used[b]
    requires fs.files[i].indirect < |fs.disk| && fs.disk[fs.files[i].indirect][k] == 0
    ensures b < |fs.disk|
    ensures var fs' := WriteEntries(Take(fs, b), i, fs.disk[fs.files[i].indirect][k := b]);
            Inv(fs') && Mapped(fs, fs', i, fs.nd + k, b)
  {
    TakeInv(fs, b);
    var fs1, d := Take(fs, b), fs.files[i].indirect;
    assert BlockAt(fs, Indirect(i)) == d;
    assert d != b && fs1.disk[d] == fs.disk[d];
    EntrySlot(fs1, i, k, b);
    hide BlockAt, Shape;
    OneSlotInv(fs1, WriteEntries(fs1, i, fs1.disk[d][k := b]), Entry(i, k), b);
  }

  lemma IndirectOnDisk(fs: Fs, i: nat)
    requires Inv(fs) && i in fs.files
    ensures fs.files[i].indirect < |fs.disk| && |fs.files[i].direct| == fs.nd
    ensures fs.files[i].indirect > 0 ==> |fs.disk[fs.files[i].indirect]| == fs.per
  {
    assert BlockAt(fs, Indirect(i)) == fs.files[i].indirect;
  }

  /** A block that a file maps is marked, so that the panics of sfs_bmap cannot happen. */
  lemma MappedIsUsed(fs: Fs, i: nat, k: nat)
    requires Inv(fs) && Lookup(fs, i, k) != 0
    ensures Lookup(fs, i, k) < |fs.disk| && fs.used[Lookup(fs, i, k)]
  {
    var s := if k < fs.nd then Direct(i, k) else Entry(i, k - fs.nd);
    assert BlockAt(fs, s) == Lookup(fs, i, k);
  }

  /** Mapping a block after the indirect block was added. */
  lemma MappedAfter(fs: Fs, fs1: Fs, fs2: Fs, i: nat, k: nat, b: nat)
    requires Shape(fs) && Shape(fs1) && Shape(fs2) && SameLookups(fs, fs1) && Mapped(fs1, fs2, i, k, b)
    requires |fs1.disk| == |fs.disk| && |fs1.used| == |fs.used|
    requires forall c | 0 <= c < |fs.used| && fs.used[c] :: fs1.used[c]
    ensures Mapped(fs, fs2, i, k, b)
  {
    hide Lookup;
    assert |fs.disk| <= |fs.used|;
    hide Shape;
  }

  /** The number of an indirect block and the offset in it. */
  function IndirectPos(x: nat, n: nat): (r: (nat, nat))
    requires n > 0
    ensures r.0 >= 1 <==> x >= n
    ensures x < n ==> r.1 == x
  {
    (x / n, x % n)
  }

  lemma NoIndirect(fs: Fs, i: nat, k: nat)
    requires Shape(fs) && i in fs.files && fs.files[i].indirect == 0
    ensures Lookup(fs, i, fs.nd + k) == 0
  {
  }

  // ---------------------------------------------------------------- truncation

  /** The entries from lo up to n are cleared. */
  function Cut(q: seq<nat>, lo: nat, n: nat): (r: seq<nat>)
    ensures |r| == |q|
    ensures forall k | 0 <= k < |q| :: r[k] == if lo <= k < n then 0 else q[k]
  {
    seq(|q|, k requires 0 <= k < |q| => if lo <= k < n then 0 else q[k])
  }

  /** The blocks in those entries. */
  function Dropped(q: seq<nat>, lo: nat, n: nat): set<nat>
    requires n <= |q|
  {
    if n == 0 then {}
    else if n - 1 >= lo && q[n - 1] != 0 then Dropped(q, lo, n - 1) + {q[n - 1]}
    else Dropped(q, lo, n - 1)
  }

  lemma {:induction false} DroppedIs(q: seq<nat>, lo: nat, n: nat)
    requires n <= |q|
    ensures forall b :: b in Dropped(q, lo, n) <==> b != 0 && exists k :: lo <= k < n && q[k] == b
  {
    if n > 0 {
      DroppedIs(q, lo, n - 1);
    }
  }

  function Release(used: seq<bool>, gone: set<nat>): (r: seq<bool>)
    ensures |r| == |used|
    ensures forall b | 0 <= b < |used| :: r[b] <==> used[b] && b !in gone
  {
    seq(|used|, b requires 0 <= b < |used| => used[b] && b !in gone)
  }

  /** Drops the direct blocks from lo on. */
  function TruncDirect(fs: Fs, i: nat, lo: nat): Fs
    requires i in fs.files
  {
    var q := fs.files[i].direct;
    fs.(used := Release(fs.used, Dropped(q, lo, |q|)),
        files := fs.files[i := fs.files[i].(direct := Cut(q, lo, |q|))])
  }

  predicate AllZero(q: seq<nat>) {
    forall k | 0 <= k < |q| :: q[k] == 0
  }

  /** Drops the entries of the indirect block from lo on, and the block itself if it has no entry left. */
  function TruncIndirect(fs: Fs, i: nat, lo: nat): Fs
    requires i in fs.files && fs.files[i].indirect < |fs.disk|
  {
    var d := fs.files[i].indirect;
    var q := fs.disk[d];
    var rest := Cut(q, lo, |q|);
    if AllZero(rest) then
      fs.(used := Release(fs.used, Dropped(q, lo, |q|) + {d}), files := fs.files[i := fs.files[i].(indirect := 0)])
    else
      fs.(used := Release(fs.used, Dropped(q, lo, |q|)), disk := fs.disk[d := rest])
  }

  /** The first entry of the indirect block that truncation to l blocks drops: the first one strictly past block l. */
  function FirstEntry(fs: Fs, l: nat): nat {
    if l < fs.nd then 0 else l + 1 - fs.nd
  }

  /** sfs_itrunc to l blocks and size bytes. */
  function Truncate(fs: Fs, i: nat, l: nat, size: nat): Fs
    requires i in fs.files
  {
    var fs1 := TruncDirect(fs, i, l);
    var d := fs.files[i].indirect;
    var fs2 := if l < fs.nd + fs.per - 1 && 0 < d < |fs.disk| then TruncIndirect(fs1, i, FirstEntry(fs, l)) else fs1;
    SetSize(fs2, i, size)
  }

  /** Some slots are emptied and exactly their blocks released. */
  lemma ReleaseInv(fs: Fs, fs': Fs, gone: set<nat>)
    requires Inv(fs) && Shape(fs') && |fs'.disk| == |fs.disk| && fs'.used == Release(fs.used, gone) && 0 !in gone
    requires forall s :: BlockAt(fs', s) == BlockAt(fs, s) || BlockAt(fs', s) == 0
    requires forall b | b in gone :: b < |fs.disk| && exists s :: BlockAt(fs, s) == b && BlockAt(fs', s) == 0
    ensures Inv(fs')
  {
    assert |fs'.used| == |fs.used| && |fs.used| >= |fs.disk|;
    hide BlockAt, Shape;
    forall s
      ensures BlockAt(fs', s) != 0 ==> BlockAt(fs', s) < |fs'.disk| && fs'.used[BlockAt(fs', s)]
    {
      var b := BlockAt(fs', s);
      if b != 0 {
        assert BlockAt(fs, s) == b;
      }
    }
    forall s, t
      ensures BlockAt(fs', s) == BlockAt(fs', t) && BlockAt(fs', s) != 0 ==> s == t
    {
      assert BlockAt(fs', s) != 0 ==> BlockAt(fs', s) == BlockAt(fs, s);
      assert BlockAt(fs', t) != 0 ==> BlockAt(fs', t) == BlockAt(fs, t);
    }
  }

  lemma TruncDirectSlots(fs: Fs, i: nat, lo: nat)
    requires Shape(fs) && i in fs.files
    ensures Shape(TruncDirect(fs, i, lo))
    ensures forall s :: BlockAt(TruncDirect(fs, i, lo), s)
                     == if s.Direct? && s.ino == i && lo <= s.k then 0 else BlockAt(fs, s)
  {
  }

  lemma TruncDirectInv(fs: Fs, i: nat, lo: nat)
    requires Inv(fs) && i in fs.files
    ensures Inv(TruncDirect(fs, i, lo))
  {
    var fs', q := TruncDirect(fs, i, lo), fs.files[i].direct;
    TruncDirectSlots(fs, i, lo);
    var gone := Dropped(q, lo, |q|);
    DroppedIs(q, lo, |q|);
    forall b | b in gone
      ensures b < |fs.disk| && exists s :: BlockAt(fs, s) == b && BlockAt(fs', s) == 0
    {
      var k :| lo <= k < |q| && q[k] == b;
      assert BlockAt(fs, Direct(i, k)) == b && BlockAt(fs', Direct(i, k)) == 0;
    }
    hide BlockAt, Shape;
    ReleaseInv(fs, fs', gone);
  }

  lemma TruncIndirectSlots(fs: Fs, i: nat, lo: nat)
    requires Inv(fs) && i in fs.files && 0 < fs.files[i].indirect < |fs.disk|
    ensures Shape(TruncIndirect(fs, i, lo))
    ensures var d := fs.files[i].indirect;
            var gone := AllZero(Cut(fs.disk[d], lo, fs.per));
            forall s :: BlockAt(TruncIndirect(fs, i, lo), s)
                     == if s.Entry? && s.ino == i && lo <= s.k then 0
                        else if s == Indirect(i) && gone then 0
                        else BlockAt(fs, s)
  {
    var fs', d := TruncIndirect(fs, i, lo), fs.files[i].indirect;
    var q := fs.disk[d];
    var rest := Cut(q, lo, |q|);
    if AllZero(rest) {
      forall s: Slot
        ensures s.Entry? && s.ino == i && s.k < lo ==> BlockAt(fs, s) == 0
      {
        assert s.Entry? && s.ino == i && s.k < lo && s.k < fs.per ==> rest[s.k] == 0;
      }
    } else {
      forall s
        ensures BlockAt(fs', s) == if s.Entry? && s.ino == i && lo <= s.k then 0 else BlockAt(fs, s)
      {
        if s.Entry? && s.ino in fs.files && s.ino != i {
          assert BlockAt(fs, Indirect(s.ino)) == fs.files[s.ino].indirect;
          assert BlockAt(fs, Indirect(i)) == d;
        }
      }
    }
  }

  lemma TruncIndirectInv(fs: Fs, i: nat, lo: nat)
    requires Inv(fs) && i in fs.files && 0 < fs.files[i].indirect < |fs.disk|
    ensures Inv(TruncIndirect(fs, i, lo))
  {
    var fs', d := TruncIndirect(fs, i, lo), fs.files[i].indirect;
    var q := fs.disk[d];
    TruncIndirectSlots(fs, i, lo);
    var gone := Dropped(q, lo, |q|) + (if AllZero(Cut(q, lo, |q|)) then {d} else {});
    DroppedIs(q, lo, |q|);
    forall b | b in gone
      ensures b < |fs.disk| && exists s :: BlockAt(fs, s) == b && BlockAt(fs', s) == 0
    {
      if b in Dropped(q, lo, |q|) {
        var k :| lo <= k < |q| && q[k] == b;
        assert BlockAt(fs, Entry(i, k)) == b && BlockAt(fs', Entry(i, k)) == 0;
      } else {
        assert BlockAt(fs, Indirect(i)) == b && BlockAt(fs', Indirect(i)) == 0;
      }
    }
    assert Dropped(q, lo, |q|) + {} == Dropped(q, lo, |q|);
    hide BlockAt, Shape;
    ReleaseInv(fs, fs', gone);
  }

  lemma SizeSlots(fs: Fs, i: nat, size: nat)
    requires Shape(fs) && i in fs.files
    ensures Shape(SetSize(fs, i, size)) && SameSlots(fs, SetSize(fs, i, size))
    ensures Inv(fs) ==> Inv(SetSize(fs, i, size))
  {
    var fs' := SetSize(fs, i, size);
    assert Shape(fs');
    assert forall s :: BlockAt(fs', s) == BlockAt(fs, s);
    hide BlockAt, Shape;
    if Inv(fs) {
      forall s
        ensures BlockAt(fs', s) != 0 ==> BlockAt(fs', s) < |fs'.disk| && fs'.used[BlockAt(fs', s)]
      {
        assert BlockAt(fs', s) == BlockAt(fs, s);
      }
      forall s, t
        ensures BlockAt(fs', s) == BlockAt(fs', t) && BlockAt(fs', s) != 0 ==> s == t
      {
        assert BlockAt(fs', s) == BlockAt(fs, s) && BlockAt(fs', t) == BlockAt(fs, t);
      }
    }
  }

  lemma TruncateInv(fs: Fs, i: nat, l: nat, size: nat)
    requires Inv(fs) && i in fs.files
    ensures Inv(Truncate(fs, i, l, size))
  {
    TruncDirectInv(fs, i, l);
    var fs1 := TruncDirect(fs, i, l);
    if l < fs.nd + fs.per - 1 && 0 < fs.files[i].indirect < |fs.disk| {
      TruncIndirectInv(fs1, i, FirstEntry(fs, l));
      SizeSlots(TruncIndirect(fs1, i, FirstEntry(fs, l)), i, size);
    } else {
      SizeSlots(fs1, i, size);
    }
  }

  // ---------------------------------------------------------------- what truncation keeps, drops and releases

  /** Which blocks of a file truncation to l blocks keeps: past the direct blocks, block l stays too. */
  predicate Keeps(fs: Fs, l: nat, k: nat) {
    if k < fs.nd then k < l else k <= l
  }

  /** The indirect block is inspected, and no entry of it is kept. */
  ghost predicate IndirectGoes(fs: Fs, i: nat, l: nat)
    requires Shape(fs)
  {
    && BlockAt(fs, Indirect(i)) != 0 && l < fs.nd + fs.per - 1
    && forall k | fs.nd <= k && Keeps(fs, l, k) :: Lookup(fs, i, k) == 0
  }

  lemma GoesIsAllZero(fs: Fs, i: nat, l: nat)
    requires Shape(fs) && i in fs.files && 0 < fs.files[i].indirect < |fs.disk|
    ensures AllZero(Cut(fs.disk[fs.files[i].indirect], FirstEntry(fs, l), fs.per))
       <==> forall k | fs.nd <= k && Keeps(fs, l, k) :: Lookup(fs, i, k) == 0
  {
    var q, lo := fs.disk[fs.files[i].indirect], FirstEntry(fs, l);
    var rest := Cut(q, lo, fs.per);
    if AllZero(rest) {
      forall k | fs.nd <= k && Keeps(fs, l, k)
        ensures Lookup(fs, i, k) == 0
      {
        if k - fs.nd < fs.per {
          assert rest[k - fs.nd] == 0;
        }
      }
    }
    if forall k | fs.nd <= k && Keeps(fs, l, k) :: Lookup(fs, i, k) == 0 {
      forall m | 0 <= m < |rest|
        ensures rest[m] == 0
      {
        assert m < lo ==> Keeps(fs, l, fs.nd + m) && Lookup(fs, i, fs.nd + m) == q[m];
      }
    }
  }

  /** The slots after truncation. */
  ghost predicate TruncatedSlots(fs: Fs, fs': Fs, i: nat, l: nat)
    requires Shape(fs) && Shape(fs')
  {
    forall s :: BlockAt(fs', s)
             == if s.Direct? && s.ino == i && !Keeps(fs, l, s.k) then 0
                else if s.Entry? && s.ino == i && !Keeps(fs, l, fs.nd + s.k) then 0
                else if s == Indirect(i) && IndirectGoes(fs, i, l) then 0
                else BlockAt(fs, s)
  }

  /** The part of truncation that inspects the indirect block. */
  lemma TruncateSlotsIndirect(fs: Fs, fs1: Fs, fs2: Fs, i: nat, l: nat)
    requires Inv(fs) && i in fs.files && l < fs.nd + fs.per - 1 && 0 < fs.files[i].indirect < |fs.disk|
    requires Shape(fs1) && Shape(fs2)
    requires forall s :: BlockAt(fs1, s) == if s.Direct? && s.ino == i && l <= s.k then 0 else BlockAt(fs, s)
    requires forall s :: BlockAt(fs2, s)
                      == if s.Entry? && s.ino == i && FirstEntry(fs, l) <= s.k then 0
                         else if s == Indirect(i)
                           && AllZero(Cut(fs.disk[fs.files[i].indirect], FirstEntry(fs, l), fs.per)) then 0
                         else BlockAt(fs1, s)
    ensures TruncatedSlots(fs, fs2, i, l)
  {
    GoesIsAllZero(fs, i, l);
    assert BlockAt(fs, Indirect(i)) == fs.files[i].indirect;
    forall s: Slot
      ensures s.Direct? && s.k >= fs.nd ==> BlockAt(fs, s) == 0
    {
    }
    hide BlockAt, Lookup;
  }

  lemma TruncateSlots(fs: Fs, i: nat, l: nat, size: nat)
    requires Inv(fs) && i in fs.files
    ensures Shape(Truncate(fs, i, l, size)) && TruncatedSlots(fs, Truncate(fs, i, l, size), i, l)
  {
    TruncDirectSlots(fs, i, l);
    TruncDirectInv(fs, i, l);
    IndirectOnDisk(fs, i);
    var fs1, lo := TruncDirect(fs, i, l), FirstEntry(fs, l);
    if l < fs.nd + fs.per - 1 && 0 < fs.files[i].indirect < |fs.disk| {
      TruncIndirectSlots(fs1, i, lo);
      var fs2 := TruncIndirect(fs1, i, lo);
      TruncateSlotsIndirect(fs, fs1, fs2, i, l);
      SizeSlots(fs2, i, size);
      SizeTruncated(fs, fs2, i, l, size);
    } else {
      SizeSlots(fs1, i, size);
      assert BlockAt(fs, Indirect(i)) == fs.files[i].indirect;
    }
  }

  lemma SizeTruncated(fs: Fs, fs2: Fs, i: nat, l: nat, size: nat)
    requires Shape(fs) && Shape(fs2) && i in fs2.files && TruncatedSlots(fs, fs2, i, l)
    ensures Shape(SetSize(fs2, i, size)) && TruncatedSlots(fs, SetSize(fs2, i, size), i, l)
  {
    SizeSlots(fs2, i, size);
    var fs3 := SetSize(fs2, i, size);
    hide BlockAt, Shape, Keeps, IndirectGoes, SetSize;
    assert forall s :: BlockAt(fs3, s) == BlockAt(fs2, s);
  }

  lemma SlotsLookup(fs: Fs, fs': Fs, i: nat, l: nat, j: nat, k: nat)
    requires Shape(fs) && Shape(fs') && fs'.nd == fs.nd && TruncatedSlots(fs, fs', i, l)
    ensures Lookup(fs', j, k) == (if j == i && !Keeps(fs, l, k) then 0 else Lookup(fs, j, k))
    ensures BlockAt(fs', Indirect(j)) == (if j == i && IndirectGoes(fs, i, l) then 0 else BlockAt(fs, Indirect(j)))
  {
    hide BlockAt, IndirectGoes, Shape, Keeps;
  }

  /** Truncation keeps the blocks that it should, drops the others, and leaves other files alone. */
  lemma TruncateLookup(fs: Fs, i: nat, l: nat, size: nat, j: nat, k: nat)
    requires Inv(fs) && i in fs.files
    ensures var fs' := Truncate(fs, i, l, size);
            && Inv(fs')
            && Lookup(fs', j, k) == (if j == i && !Keeps(fs, l, k) then 0 else Lookup(fs, j, k))
            && BlockAt(fs', Indirect(j)) == (if j == i && IndirectGoes(fs, i, l) then 0 else BlockAt(fs, Indirect(j)))
  {
    TruncateSlots(fs, i, l, size);
    TruncateInv(fs, i, l, size);
    assert Truncate(fs, i, l, size).nd == fs.nd;
    hide BlockAt, Truncate, Inv, IndirectGoes, Shape, Keeps, Lookup, TruncatedSlots;
    SlotsLookup(fs, Truncate(fs, i, l, size), i, l, j, k);
  }

  /** A block of file i that truncation unmaps. */
  ghost predicate Unmapped(fs: Fs, i: nat, l: nat, b: nat)
    requires Shape(fs)
  {
    b != 0 && ((exists k :: !Keeps(fs, l, k) && Lookup(fs, i, k) == b)
      || (b == BlockAt(fs, Indirect(i)) && IndirectGoes(fs, i, l)))
  }

  lemma DirectDropped(fs: Fs, i: nat, l: nat, b: nat)
    requires Shape(fs) && i in fs.files
    ensures b in Dropped(fs.files[i].direct, l, fs.nd) <==>
            b != 0 && exists k: nat | k < fs.nd :: !Keeps(fs, l, k) && Lookup(fs, i, k) == b
  {
    var q := fs.files[i].direct;
    DroppedIs(q, l, fs.nd);
    if b in Dropped(q, l, fs.nd) {
      var k :| l <= k < fs.nd && q[k] == b;
      assert !Keeps(fs, l, k) && Lookup(fs, i, k) == b;
    }
    if b != 0 && exists k: nat | k < fs.nd :: !Keeps(fs, l, k) && Lookup(fs, i, k) == b {
      var k: nat :| k < fs.nd && !Keeps(fs, l, k) && Lookup(fs, i, k) == b;
      assert q[k] == b;
    }
  }

  lemma EntryDropped(fs: Fs, i: nat, l: nat, b: nat)
    requires Shape(fs) && i in fs.files && 0 < fs.files[i].indirect < |fs.disk|
    ensures b in Dropped(fs.disk[fs.files[i].indirect], FirstEntry(fs, l), fs.per)
       <==> b != 0 && exists k | fs.nd <= k :: !Keeps(fs, l, k) && Lookup(fs, i, k) == b
  {
    var q, lo := fs.disk[fs.files[i].indirect], FirstEntry(fs, l);
    DroppedIs(q, lo, fs.per);
    if b in Dropped(q, lo, fs.per) {
      var m :| lo <= m < fs.per && q[m] == b;
      assert !Keeps(fs, l, fs.nd + m) && Lookup(fs, i, fs.nd + m) == b;
    }
    if b != 0 && exists k | fs.nd <= k :: !Keeps(fs, l, k) && Lookup(fs, i, k) == b {
      var k :| fs.nd <= k && !Keeps(fs, l, k) && Lookup(fs, i, k) == b;
      assert q[k - fs.nd] == b;
    }
  }

  /** Truncation frees exactly the blocks that it unmaps. */
  lemma TruncateReleases(fs: Fs, i: nat, l: nat, size: nat, b: nat)
    requires Inv(fs) && i in fs.files && b < |fs.used|
    ensures var fs' := Truncate(fs, i, l, size);
            |fs'.used| == |fs.used| && (fs'.used[b] <==> fs.used[b] && !Unmapped(fs, i, l, b))
  {
    IndirectOnDisk(fs, i);
    DirectDropped(fs, i, l, b);
    assert BlockAt(fs, Indirect(i)) == fs.files[i].indirect;
    if 0 < fs.files[i].indirect < |fs.disk| {
      EntryDropped(fs, i, l, b);
      GoesIsAllZero(fs, i, l);
      if l >= fs.nd + fs.per - 1 {
        assert forall k | fs.nd <= k && !Keeps(fs, l, k) :: Lookup(fs, i, k) == 0;
      }
    } else {
      assert forall k | fs.nd <= k :: Lookup(fs, i, k) == 0;
    }
  }

  /** Truncation to nothing leaves no block in any slot of the file. */
  lemma TruncateAll(fs: Fs, i: nat, size: nat)
    requires Inv(fs) && i in fs.files
    ensures var fs' := Truncate(fs, i, 0, size);
            && i in fs'.files && fs'.files[i].indirect == 0 && fs'.nd == fs.nd
            && forall k | 0 <= k < fs.nd :: |fs'.files[i].direct| == fs.nd && fs'.files[i].direct[k] == 0
  {
    TruncateSlots(fs, i, 0, size);
    var fs' := Truncate(fs, i, 0, size);
    assert BlockAt(fs', Indirect(i)) == fs'.files[i].indirect;
    assert forall k | fs.nd <= k :: !Keeps(fs, 0, k);
    forall k | 0 <= k < fs.nd
      ensures fs'.files[i].direct[k] == 0
    {
      assert BlockAt(fs', Direct(i, k)) == fs'.files[i].direct[k];
    }
  }

  /**
   The test at sfs_bmap.c:264 is strict.  Nothing is left at or past block l exactly if block l was a
   direct block or was not mapped.
   */
  lemma NothingLeftPast(fs: Fs, i: nat, l: nat, size: nat)
    requires Inv(fs) && i in fs.files
    ensures Inv(Truncate(fs, i, l, size))
    ensures (forall k | l <= k :: Lookup(Truncate(fs, i, l, size), i, k) == 0) <==> l < fs.nd || Lookup(fs, i, l) == 0
  {
    TruncateInv(fs, i, l, size);
    var fs' := Truncate(fs, i, l, size);
    forall k
      ensures Lookup(fs', i, k) == if !Keeps(fs, l, k) then 0 else Lookup(fs, i, k)
    {
      TruncateLookup(fs, i, l, size, i, k);
    }
    hide Lookup, Truncate, Inv;
    assert Lookup(fs', i, l) == if !Keeps(fs, l, l) then 0 else Lookup(fs, i, l);
  }

  // ---------------------------------------------------------------- one turn of each truncation loop

  lemma CutStep(q: seq<nat>, lo: nat, n: nat)
    requires n < |q|
    ensures Cut(q, lo, n + 1) == if n >= lo && q[n] != 0 then Cut(q, lo, n)[n := 0] else Cut(q, lo, n)
    ensures Dropped(q, lo, n + 1) == Dropped(q, lo, n) + (if n >= lo && q[n] != 0 then {q[n]} else {})
  {
  }

  lemma ReleaseStep(used: seq<bool>, gone: set<nat>, b: nat)
    requires b < |used|
    ensures Release(used, gone + {b}) == Release(used, gone)[b := false]
  {
  }

  lemma ReleaseNone(used: seq<bool>)
    ensures Release(used, {}) == used
  {
  }

  lemma NothingCut(fs: Fs, i: nat, lo: nat)
    requires Inv(fs) && i in fs.files
    ensures var q := fs.files[i].direct;
            |q| == fs.nd && Cut(q, lo, 0) == q
            && Release(fs.used, Dropped(q, lo, 0)) == fs.used
  {
    ReleaseNone(fs.used);
  }

  /** The block that the first loop is about to free is still marked. */
  lemma NextDirectUsed(fs: Fs, i: nat, lo: nat, n: nat)
    requires Inv(fs) && i in fs.files && lo <= n < fs.nd && fs.files[i].direct[n] != 0
    ensures var b := fs.files[i].direct[n];
            0 < b < |fs.disk| <= |fs.used| && b !in Dropped(fs.files[i].direct, lo, n) && fs.used[b]
  {
    var q := fs.files[i].direct;
    DroppedIs(q, lo, n);
    assert BlockAt(fs, Direct(i, n)) == q[n];
    forall k | lo <= k < n
      ensures q[k] != q[n]
    {
      assert BlockAt(fs, Direct(i, k)) == q[k];
    }
  }

  /** The block that the second loop is about to free is still marked. */
  lemma NextEntryUsed(fs: Fs, i: nat, lo: nat, n: nat)
    requires Inv(fs) && i in fs.files && 0 < fs.files[i].indirect < |fs.disk| && lo <= n < fs.per
    requires fs.disk[fs.files[i].indirect][n] != 0
    ensures var q := fs.disk[fs.files[i].indirect];
            0 < q[n] < |fs.disk| <= |fs.used| && q[n] !in Dropped(q, lo, n) && fs.used[q[n]]
  {
    var q := fs.disk[fs.files[i].indirect];
    DroppedIs(q, lo, n);
    assert BlockAt(fs, Entry(i, n)) == q[n];
    forall k | lo <= k < n
      ensures q[k] != q[n]
    {
      assert BlockAt(fs, Entry(i, k)) == q[k];
    }
  }

  /** The indirect block is still marked after its entries are freed. */
  lemma IndirectUsed(fs: Fs, i: nat, lo: nat)
    requires Inv(fs) && i in fs.files && 0 < fs.files[i].indirect < |fs.disk|
    ensures var d := fs.files[i].indirect;
            |fs.disk[d]| == fs.per && fs.used[d] && d !in Dropped(fs.disk[d], lo, fs.per)
  {
    var d := fs.files[i].indirect;
    DroppedIs(fs.disk[d], lo, fs.per);
    assert BlockAt(fs, Indirect(i)) == d;
    forall k | 0 <= k < fs.per
      ensures fs.disk[d][k] != d
    {
      assert BlockAt(fs, Entry(i, k)) == fs.disk[d][k];
    }
  }

  // ---------------------------------------------------------------- making and erasing files

  /** A new inode in block b. */
  lemma MakeInv(fs: Fs, b: nat)
    requires Inv(fs) && b < |fs.used| && !fs.used[b]
    ensures 0 < b < |fs.disk| && b !in fs.files
    ensures var fs' := AddFile(Take(fs, b), b);
            && Inv(fs') && fs'.nd == fs.nd
            && (forall k :: Lookup(fs', b, k) == 0) && (forall j, k | j != b :: Lookup(fs', j, k) == Lookup(fs, j, k))
  {
    TakeInv(fs, b);
    assert b in fs.files ==> BlockAt(fs, Self(b)) == b;
    var fs1 := Take(fs, b);
    AddSlot(fs1, b);
    var fs' := AddFile(fs1, b);
    assert forall k :: Lookup(fs', b, k) == 0;
    hide BlockAt, Shape;
    OneSlotInv(fs1, fs', Self(b), b);
  }

  /** Erases file i: truncates it to nothing, and gives up its inode. */
  function Erase(fs: Fs, i: nat): Fs
    requires i in fs.files && i < |fs.used|
  {
    var fs1 := DropFile(Truncate(fs, i, 0, 0), i);
    fs1.(used := fs1.used[i := false])
  }

  lemma EraseInv(fs: Fs, i: nat)
    requires Inv(fs) && i in fs.files
    ensures 0 < i < |fs.disk| && fs.used[i] && Inv(Erase(fs, i))
  {
    assert BlockAt(fs, Self(i)) == i;
    TruncateInv(fs, i, 0, 0);
    TruncateAll(fs, i, 0);
    var fs1 := Truncate(fs, i, 0, 0);
    assert BlockAt(fs1, Self(i)) == i;
    DropSlot(fs1, i);
    var fs2 := DropFile(fs1, i);
    assert fs2.used == fs1.used && fs2.disk == fs1.disk && |fs1.disk| == |fs.disk|;
    hide BlockAt, Shape, Truncate, DropFile;
    OneSlotInv(fs1, fs2, Self(i), 0);
    Cleared(fs1, fs2, Self(i), i);
    UnmarkInv(fs2, i);
    assert Erase(fs, i) == Unmark(fs2, i);
  }

  ghost predicate BlockOf(fs: Fs, i: nat, b: nat)
    requires Shape(fs)
  {
    b != 0 && exists s: Slot :: s.ino == i && BlockAt(fs, s) == b
  }

  lemma UnmappedAll(fs: Fs, i: nat, b: nat)
    requires Shape(fs) && i in fs.files && b != i
    ensures Unmapped(fs, i, 0, b) <==> BlockOf(fs, i, b)
  {
    assert forall k | fs.nd <= k :: !Keeps(fs, 0, k);
    if Unmapped(fs, i, 0, b) {
      if k: nat :| !Keeps(fs, 0, k) && Lookup(fs, i, k) == b {
        var s := if k < fs.nd then Direct(i, k) else Entry(i, k - fs.nd);
        assert BlockAt(fs, s) == b;
      }
    }
    if BlockOf(fs, i, b) {
      var s: Slot :| s.ino == i && BlockAt(fs, s) == b;
      match s
      case Direct(_, k) => assert !Keeps(fs, 0, k) && Lookup(fs, i, k) == b;
      case Entry(_, k) => assert !Keeps(fs, 0, fs.nd + k) && Lookup(fs, i, fs.nd + k) == b;
      case Indirect(_) =>
      case Self(_) =>
    }
  }

  /** Erasing a file releases every block that it has, and no other. */
  lemma EraseReleases(fs: Fs, i: nat, b: nat)
    requires Inv(fs) && i in fs.files && b < |fs.used|
    ensures i < |fs.used| && |Erase(fs, i).used| == |fs.used|
    ensures Erase(fs, i).used[b] <==> fs.used[b] && !BlockOf(fs, i, b)
  {
    EraseInv(fs, i);
    TruncateReleases(fs, i, 0, 0, b);
    if b == i {
      assert BlockAt(fs, Self(i)) == b;
    } else {
      UnmappedAll(fs, i, b);
    }
  }

  /** One file, in block 1, whose second block is block 3, through the indirect block 2. */
  function Example(): Fs {
    Fs(1, 2, [true, true, true, true], map[1 := Inode([0], 2, 1024, 1)], [[0, 0], [0, 0], [3, 0], [0, 0]])
  }

  /** Truncating it to one block leaves block 3 mapped past the end. */
  lemma StaysPastTheEnd()
    ensures Inv(Example()) && Inv(Truncate(Example(), 1, 1, 512)) && Lookup(Truncate(Example(), 1, 1, 512), 1, 1) == 3
  {
    var fs := Example();
    assert Shape(fs);
    forall s
      ensures BlockAt(fs, s)
              == (if s == Self(1) then 1 else if s == Indirect(1) then 2 else if s == Entry(1, 0) then 3 else 0)
    {
    }
    hide BlockAt, Shape;
    TruncateLookup(fs, 1, 1, 512, 1, 1);
  }
}
