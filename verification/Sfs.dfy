/** Block mapping and truncation of src/kern/fs/sfs: sfs_balloc.c, sfs_bmap.c and parts of sfs_inode.c. */
module Sfs {
  import opened SfsSpec
  import opened Bitmaps
  import opened Counting
  import Words

  datatype Errno = OK | ENOSPC | EFBIG | ENOMEM | EIO

  const BLOCKSIZE: nat := 512

  /** The number of blocks that hold len bytes. */
  function WholeBlocks(len: nat): nat {
    (len + BLOCKSIZE - 1) / BLOCKSIZE
  }

  /** That number as sfs_itrunc keeps it, in 32 bits. */
  function BlockLen(len: nat): (l: nat)
    ensures l == WholeBlocks(len) <==> len <= BLOCKSIZE * (Words.W32 - 1)
  {
    WholeBlocks(len) % Words.W32
  }

  lemma NoBlocks()
    ensures BlockLen(0) == 0
  {
  }

  /** Block k has bytes below len exactly if it is one of those blocks. */
  lemma BelowLength(len: nat, k: nat)
    ensures k * BLOCKSIZE < len <==> k < WholeBlocks(len)
  {
  }

  /** What sfs_itrunc does to the volume. */
  function AfterItrunc(fs: Fs, i: nat, len: nat): Fs
    requires i in fs.files
  {
    Truncate(fs, i, BlockLen(len), len % Words.W32)
  }

  /**
   sfs_itrunc keeps every block that has bytes below the new length exactly if the file has no block between the
   length in 32 bits and the real one, other than what the strict test keeps.  That is always so if the length
   fits.
   */
  lemma KeepsBelowLength(fs: Fs, i: nat, len: nat)
    requires Inv(fs) && i in fs.files
    ensures Inv(AfterItrunc(fs, i, len))
    ensures (forall k: nat | k * BLOCKSIZE < len :: Lookup(AfterItrunc(fs, i, len), i, k) == Lookup(fs, i, k)) <==>
            (forall k: nat | BlockLen(len) <= k < WholeBlocks(len) && Lookup(fs, i, k) != 0 ::
              fs.nd <= k == BlockLen(len))
    ensures AfterItrunc(fs, i, len).files.Keys == fs.files.Keys
    ensures AfterItrunc(fs, i, len).files[i].size == len % Words.W32
    ensures AfterItrunc(fs, i, len).files[i].links == fs.files[i].links
    ensures forall j | j in fs.files && j != i :: AfterItrunc(fs, i, len).files[j] == fs.files[j]
    ensures len <= BLOCKSIZE * (Words.W32 - 1) ==>
              forall k: nat | k * BLOCKSIZE < len :: Lookup(AfterItrunc(fs, i, len), i, k) == Lookup(fs, i, k)
  {
    var fs' := AfterItrunc(fs, i, len);
    var l, w := BlockLen(len), WholeBlocks(len);
    TruncateInv(fs, i, l, len % Words.W32);
    assert l <= w;
    forall k: nat
      ensures Lookup(fs', i, k) == if Keeps(fs, l, k) then Lookup(fs, i, k) else 0
      ensures k * BLOCKSIZE < len <==> k < w
    {
      TruncateLookup(fs, i, l, len % Words.W32, i, k);
      BelowLength(len, k);
    }
    hide Inv, Truncate, Lookup, BlockLen, WholeBlocks;
    forall k: nat | k < l
      ensures Keeps(fs, l, k)
    {
    }
    forall k: nat | k >= l
      ensures Keeps(fs, l, k) <==> fs.nd <= k == l
    {
    }
  }

  /** A length of 2^41 bytes has, in 32 bits, no blocks: every file is emptied. */
  lemma TwoToThe41(fs: Fs, i: nat, k: nat)
    requires Inv(fs) && i in fs.files
    ensures var fs' := AfterItrunc(fs, i, 0x200_0000_0000);
            Inv(fs') && fs'.files[i].size == 0 && Lookup(fs', i, k) == 0
  {
    assert BlockLen(0x200_0000_0000) == 0;
    TruncateLookup(fs, i, 0, 0, i, k);
    TruncateAll(fs, i, 0);
  }

  lemma IndirectSize(fs: Fs, i: nat)
    requires Inv(fs) && i in fs.files && 0 < fs.files[i].indirect < |fs.disk|
    ensures |fs.disk[fs.files[i].indirect]| == fs.per
  {
  }

  lemma CutNone(q: seq<nat>, lo: nat)
    ensures Cut(q, lo, 0) == q && Dropped(q, lo, 0) == {}
  {
  }

  /** The first j entries are empty. */
  predicate EmptyUpTo(q: seq<nat>, j: nat) {
    forall k | 0 <= k < j && k < |q| :: q[k] == 0
  }

  lemma EmptySteps(q: seq<nat>, lo: nat, j: nat)
    ensures EmptyUpTo(Cut(q, lo, 0), 0)
    ensures j < |q| ==>
              (EmptyUpTo(Cut(q, lo, j + 1), j + 1) <==> EmptyUpTo(Cut(q, lo, j), j) && Cut(q, lo, j + 1)[j] == 0)
    ensures j == |q| ==> (EmptyUpTo(Cut(q, lo, j), j) <==> AllZero(Cut(q, lo, j)))
  {
    if j < |q| {
      assert forall k | 0 <= k < j :: Cut(q, lo, j + 1)[k] == Cut(q, lo, j)[k];
    }
  }

  /** The number of free blocks. */
  function FreeBlocks(used: seq<bool>): nat {
    |used| - CountTrue(used)
  }

  lemma NoneFree(used: seq<bool>)
    ensures FreeBlocks(used) == 0 <==> forall b | 0 <= b < |used| :: used[b]
  {
    CountFull(used);
  }

  lemma OneFewer(used: seq<bool>, b: nat)
    requires b < |used| && !used[b]
    ensures FreeBlocks(used) == FreeBlocks(used[b := true]) + 1
  {
    CountSet(used, b, true);
  }

  /** The blocks that sfs_bmap takes to map block k of file i: itself, and the indirect block if that is missing. */
  function Needs(fs: Fs, i: nat, k: nat): nat
    requires i in fs.files
  {
    if k < fs.nd || fs.files[i].indirect != 0 then 1 else 2
  }

  /** A file's own block is still marked after the file is truncated. */
  lemma SelfKept(fs: Fs, i: nat)
    requires Inv(fs) && i in fs.files
    ensures !Unmapped(fs, i, 0, i)
  {
    assert BlockAt(fs, Self(i)) == i;
    forall k: nat
      ensures Lookup(fs, i, k) != i
    {
      var s := if k < fs.nd then Direct(i, k) else Entry(i, k - fs.nd);
      assert BlockAt(fs, s) == Lookup(fs, i, k);
    }
    assert BlockAt(fs, Indirect(i)) != i;
  }

  lemma EraseReady(fs: Fs, i: nat)
    requires Inv(fs) && i in fs.files
    ensures i < |fs.used| && Inv(Erase(fs, i))
    ensures var fs1 := Truncate(fs, i, 0, 0);
            |fs1.used| == |fs.used| && fs1.used[i] && Erase(fs, i) == DropFile(fs1, i).(used := fs1.used[i := false])
  {
    EraseInv(fs, i);
    TruncateReleases(fs, i, 0, 0, i);
    SelfKept(fs, i);
  }

  class Volume {
    const nd: nat
    const per: nat
    const freemap: Bitmap
    var files: map<nat, Inode>
    var disk: seq<seq<nat>>

    /** A mounted volume, as consistent as it was found. */
    constructor (nd: nat, per: nat, freemap: Bitmap, files: map<nat, Inode>, disk: seq<seq<nat>>)
      requires freemap.Valid() && Inv(Fs(nd, per, freemap.Bits(), files, disk))
      ensures this.freemap == freemap && Valid() && State() == Fs(nd, per, freemap.Bits(), files, disk)
    {
      this.nd, this.per, this.freemap, this.files, this.disk := nd, per, freemap, files, disk;
    }

    ghost function State(): Fs
      requires freemap.Valid()
      reads this, freemap, freemap.v
    {
      Fs(nd, per, freemap.Bits(), files, disk)
    }

    ghost predicate Valid()
      reads this, freemap, freemap.v
    {
      freemap.Valid() && Inv(State())
    }

    /** sfs_balloc: takes the lowest free block and clears it. */
    method Balloc() returns (err: Errno, b: nat)
      requires Valid()
      modifies this`disk, freemap.v
      ensures freemap.Valid() && err in {OK, ENOSPC} && files == old(files)
      ensures err == ENOSPC <==> FreeBlocks(old(State()).used) == 0
      ensures err == ENOSPC ==> State() == old(State())
      ensures err == OK ==>
              b < |old(State()).used| && !old(State()).used[b] && b < |old(disk)| && State() == Take(old(State()), b)
      ensures err == OK ==> forall c | 0 <= c < b :: old(State()).used[c]
      ensures err == OK ==> FreeBlocks(old(State()).used) == FreeBlocks(State().used) + 1
    {
      NoneFree(State().used);
      hide FreeBlocks;
      var ok;
      ok, b := freemap.Alloc();
      if !ok {
        return ENOSPC, 0;
      }
      TakeInv(old(State()), b);
      OneFewer(old(State()).used, b);
      assert b < |disk|;
      disk := disk[b := Zeros(per)];
      return OK, b;
    }

    /** sfs_bused. */
    method Bused(b: nat) returns (on: bool)
      requires Valid() && b < |disk|
      ensures on == State().used[b]
    {
      on := freemap.IsSet(b);
    }

    /** sfs_bmap. */
    method Bmap(i: nat, fileblock: nat, doalloc: bool) returns (err: Errno, block: nat)
      requires Valid() && i in files
      modifies this, freemap.v
      ensures Valid()
      ensures err == EFBIG <==> fileblock >= nd + per
      ensures err == OK ==> block == Lookup(State(), i, fileblock)
      ensures !doalloc || fileblock >= nd + per || Lookup(old(State()), i, fileblock) != 0 ==>
              err != ENOSPC && State() == old(State())
      ensures err == ENOSPC <==>
                && doalloc && fileblock < nd + per && Lookup(old(State()), i, fileblock) == 0
                && FreeBlocks(old(State()).used) < Needs(old(State()), i, fileblock)
      ensures doalloc && err == OK && Lookup(old(State()), i, fileblock) == 0 ==>
              Mapped(old(State()), State(), i, fileblock, block)
      ensures err == ENOSPC ==> SameLookups(old(State()), State())
    {
      hide FreeBlocks;
      IndirectOnDisk(State(), i);
      if fileblock < nd {
        block := files[i].direct[fileblock];
        if block == 0 && doalloc {
          err, block := Balloc();
          if err != OK {
            return;
          }
          MapDirect(old(State()), i, fileblock, block);
          files := files[i := files[i].(direct := files[i].direct[fileblock := block])];
        }
        CheckUsed(i, fileblock, block);
        return OK, block;
      }
      err, block := BmapIndirect(i, fileblock - nd, doalloc);
    }

    /** The test for a block that is in use but marked free, which would be a panic. */
    method CheckUsed(ghost i: nat, ghost k: nat, block: nat)
      requires Valid() && block == Lookup(State(), i, k)
    {
      if block != 0 {
        MappedIsUsed(State(), i, k);
        var on := Bused(block);
        assert on;
      }
    }

    /** sfs_bmap for blocks beyond the direct ones. */
    method BmapIndirect(i: nat, fileblock: nat, doalloc: bool) returns (err: Errno, block: nat)
      requires Valid() && i in files
      modifies this, freemap.v
      ensures Valid()
      ensures err == EFBIG <==> fileblock >= per
      ensures err == OK ==> block == Lookup(State(), i, nd + fileblock)
      ensures !doalloc || fileblock >= per || Lookup(old(State()), i, nd + fileblock) != 0 ==>
              err != ENOSPC && State() == old(State())
      ensures err == ENOSPC <==>
                && doalloc && fileblock < per && Lookup(old(State()), i, nd + fileblock) == 0
                && FreeBlocks(old(State()).used) < Needs(old(State()), i, nd + fileblock)
      ensures doalloc && err == OK && Lookup(old(State()), i, nd + fileblock) == 0 ==>
              Mapped(old(State()), State(), i, nd + fileblock, block)
      ensures err == ENOSPC ==> SameLookups(old(State()), State())
    {
      IndirectOnDisk(State(), i);
      hide FreeBlocks, BlockAt, Lookup, Marked, Once, Take, Mapped, IndirectPos, Bitmap.Valid, Bitmap.Bits;
      var (idnum, idoff) := IndirectPos(fileblock, per);
      if idnum >= 1 {
        return EFBIG, 0;
      }
      var idblock := files[i].indirect;
      if idblock == 0 && !doalloc {
        NoIndirect(State(), i, fileblock);
        return OK, 0;
      }
      if idblock == 0 {
        err, block := BmapNew(i, idoff);
      } else {
        err, block := BmapEntry(i, idoff, doalloc);
      }
    }

    /** sfs_bmap with allocation for a file that has no indirect block. */
    method BmapNew(i: nat, idoff: nat) returns (err: Errno, block: nat)
      requires Valid() && i in files && files[i].indirect == 0 && idoff < per
      modifies this, freemap.v
      ensures Valid()
      ensures err in {OK, ENOSPC} && Lookup(old(State()), i, nd + idoff) == 0
      ensures err == ENOSPC <==> FreeBlocks(old(State()).used) < 2
      ensures err == OK ==>
              block == Lookup(State(), i, nd + idoff) && Mapped(old(State()), State(), i, nd + idoff, block)
      ensures err == ENOSPC ==> SameLookups(old(State()), State())
    {
      NoIndirect(State(), i, idoff);
      hide FreeBlocks, BlockAt, Lookup, Marked, Once, Take, Mapped;
      var idblock;
      err, idblock := AddIndirect(i);
      if err != OK {
        return err, 0;
      }
      ghost var mid := State();
      err, block := BmapEntry(i, idoff, true);
      if err == OK {
        MappedAfter(old(State()), mid, State(), i, nd + idoff, block);
      }
    }

    /** Gives a file its indirect block. */
    method AddIndirect(i: nat) returns (err: Errno, idblock: nat)
      requires Valid() && i in files && files[i].indirect == 0
      modifies this, freemap.v
      ensures Valid()
      ensures err in {OK, ENOSPC}
      ensures err == ENOSPC <==> FreeBlocks(old(State()).used) == 0
      ensures err == ENOSPC ==> State() == old(State())
      ensures err == OK ==> FreeBlocks(old(State()).used) == FreeBlocks(State().used) + 1
      ensures err == OK ==>
                && i in files && files[i].indirect == idblock > 0 && SameLookups(old(State()), State())
                && |disk| == |old(disk)| && |State().used| == |old(State()).used|
                && forall c | 0 <= c < |State().used| && old(State()).used[c] :: State().used[c]
    {
      hide FreeBlocks;
      err, idblock := Balloc();
      if err == OK {
        MapIndirect(old(State()), i, idblock);
        files := files[i := files[i].(indirect := idblock)];
      }
    }

    /** sfs_bmap once there is an indirect block. */
    method BmapEntry(i: nat, idoff: nat, doalloc: bool) returns (err: Errno, block: nat)
      requires Valid() && i in files && files[i].indirect > 0 && idoff < per
      modifies this`disk, freemap.v
      ensures Valid()
      ensures err in {OK, ENOSPC}
      ensures err == OK ==> block == Lookup(State(), i, nd + idoff)
      ensures !doalloc || Lookup(old(State()), i, nd + idoff) != 0 ==> err == OK && State() == old(State())
      ensures err == ENOSPC <==>
              doalloc && Lookup(old(State()), i, nd + idoff) == 0 && FreeBlocks(old(State()).used) == 0
      ensures doalloc && err == OK && Lookup(old(State()), i, nd + idoff) == 0 ==>
              Mapped(old(State()), State(), i, nd + idoff, block)
      ensures err == ENOSPC ==> State() == old(State())
    {
      hide FreeBlocks;
      IndirectOnDisk(State(), i);
      var idblock := files[i].indirect;
      var idbuf := disk[idblock];
      block := idbuf[idoff];
      if block == 0 && doalloc {
        err, block := Balloc();
        if err != OK {
          return err, 0;
        }
        MapEntry(old(State()), i, idoff, block);
        idbuf := idbuf[idoff := block];
        disk := disk[idblock := idbuf];
      }
      CheckUsed(i, nd + idoff, block);
      return OK, block;
    }

    /** sfs_bfree. */
    method Bfree(b: nat)
      requires freemap.Valid() && b < freemap.nbits && freemap.Bits()[b]
      modifies freemap.v
      ensures freemap.Valid() && freemap.Bits() == old(freemap.Bits())[b := false]
    {
      freemap.Unmark(b);
    }

    /** Frees entry n of q, after the entries before it that are to go. */
    method FreeNext(ghost used: seq<bool>, ghost q: seq<nat>, ghost lo: nat, ghost n: nat, block: nat)
      requires freemap.Valid() && n < |q| && block == q[n] != 0 && lo <= n
      requires block < |used| && used[block] && block !in Dropped(q, lo, n)
      requires freemap.Bits() == Release(used, Dropped(q, lo, n))
      modifies freemap.v
      ensures freemap.Valid() && freemap.Bits() == Release(used, Dropped(q, lo, n + 1))
    {
      CutStep(q, lo, n);
      ReleaseStep(used, Dropped(q, lo, n), block);
      Bfree(block);
    }

    /** Direct block n, of which q is the original list: dropped if it is past the new length. */
    method DropDirect(i: nat, blocklen: nat, n: nat, ghost fs: Fs, ghost q: seq<nat>)
      requires freemap.Valid() && Inv(fs) && i in fs.files && fs.nd == nd && q == fs.files[i].direct && n < nd == |q|
      requires i in files && files[i].direct == Cut(q, blocklen, n)
      requires freemap.Bits() == Release(fs.used, Dropped(q, blocklen, n))
      modifies this`files, freemap.v
      ensures freemap.Valid() && freemap.Bits() == Release(fs.used, Dropped(q, blocklen, n + 1))
      ensures files == old(files)[i := old(files)[i].(direct := Cut(q, blocklen, n + 1))]
    {
      hide Inv, Release, Dropped;
      var block := files[i].direct[n];
      CutStep(q, blocklen, n);
      if n >= blocklen && block != 0 {
        NextDirectUsed(fs, i, blocklen, n);
        FreeNext(fs.used, q, blocklen, n, block);
        files := files[i := files[i].(direct := files[i].direct[n := 0])];
      }
    }

    /** The first loop of sfs_itrunc: drops direct blocks. */
    method TruncateDirect(i: nat, blocklen: nat)
      requires Valid() && i in files
      modifies this`files, freemap.v
      ensures freemap.Valid() && State() == TruncDirect(old(State()), i, blocklen)
    {
      ghost var fs, q := State(), files[i].direct;
      NothingCut(fs, i, blocklen);
      DropAllDirect(i, blocklen, fs, q);
    }

    method DropAllDirect(i: nat, blocklen: nat, ghost fs: Fs, ghost q: seq<nat>)
      requires freemap.Valid() && Inv(fs) && i in fs.files && fs.nd == nd == |q| && q == fs.files[i].direct
      requires i in files && files[i].direct == Cut(q, blocklen, 0)
               && freemap.Bits() == Release(fs.used, Dropped(q, blocklen, 0))
      modifies this`files, freemap.v
      ensures freemap.Valid() && freemap.Bits() == Release(fs.used, Dropped(q, blocklen, nd))
      ensures files == old(files)[i := old(files)[i].(direct := Cut(q, blocklen, nd))]
    {
      hide Inv, Release, Dropped, Cut;
      var n := 0;
      while n < nd
        invariant n <= nd && freemap.Valid()
        invariant files == old(files)[i := old(files)[i].(direct := Cut(q, blocklen, n))]
        invariant freemap.Bits() == Release(fs.used, Dropped(q, blocklen, n))
      {
        DropDirect(i, blocklen, n, fs, q);
        n := n + 1;
      }
    }

    /**
     Entry j of the indirect block, of which q is the original content: dropped if it is strictly past the new length.
     */
    method DropEntry(i: nat, blocklen: nat, j: nat, idbuf: seq<nat>, ghost fs: Fs, ghost q: seq<nat>)
      returns (buf: seq<nat>, dropped: bool)
      requires freemap.Valid() && Inv(fs) && i in fs.files && fs.nd == nd && fs.per == per
               && 0 < fs.files[i].indirect < |fs.disk|
      requires q == fs.disk[fs.files[i].indirect] && j < per == |q| && idbuf == Cut(q, FirstEntry(fs, blocklen), j)
      requires freemap.Bits() == Release(fs.used, Dropped(q, FirstEntry(fs, blocklen), j))
      modifies freemap.v
      ensures freemap.Valid() && freemap.Bits() == Release(fs.used, Dropped(q, FirstEntry(fs, blocklen), j + 1))
      ensures buf == Cut(q, FirstEntry(fs, blocklen), j + 1) && (!dropped ==> buf == idbuf)
    {
      hide Inv, Release, Dropped;
      ghost var lo := FirstEntry(fs, blocklen);
      CutStep(q, lo, j);
      buf, dropped := idbuf, false;
      if blocklen < nd + j && buf[j] != 0 {
        NextEntryUsed(fs, i, lo, j);
        FreeNext(fs.used, q, lo, j, buf[j]);
        buf := buf[j := 0];
        dropped := true;
      }
    }

    /** The second loop of sfs_itrunc, over the entries of the indirect block in idbuf. */
    method TruncateEntries(i: nat, blocklen: nat, idbuf: seq<nat>)
      returns (buf: seq<nat>, hasnonzero: bool, iddirty: bool)
      requires Valid() && i in files && 0 < files[i].indirect < |disk| && idbuf == disk[files[i].indirect]
      modifies freemap.v
      ensures freemap.Valid()
      ensures var lo := FirstEntry(old(State()), blocklen);
              && |idbuf| == per && buf == Cut(idbuf, lo, per)
              && freemap.Bits() == Release(old(State()).used, Dropped(idbuf, lo, per))
              && (hasnonzero <==> !AllZero(buf))
              && (!iddirty ==> buf == idbuf)
    {
      ghost var fs := State();
      ghost var lo := FirstEntry(fs, blocklen);
      hide Inv, Release, Dropped, FirstEntry, Cut, EmptyUpTo, AllZero, Bitmap.Valid, Bitmap.Bits;
      IndirectSize(fs, i);
      CutNone(idbuf, lo);
      ReleaseNone(fs.used);
      buf, hasnonzero, iddirty := idbuf, false, false;
      EmptySteps(idbuf, lo, 0);
      var j := 0;
      while j < per
        invariant j <= per && freemap.Valid()
        invariant buf == Cut(idbuf, lo, j)
        invariant freemap.Bits() == Release(fs.used, Dropped(idbuf, lo, j))
        invariant hasnonzero <==> !EmptyUpTo(buf, j)
        invariant !iddirty ==> buf == idbuf
      {
        var dropped;
        EmptySteps(idbuf, lo, j);
        buf, dropped := DropEntry(i, blocklen, j, buf, fs, idbuf);
        if dropped {
          iddirty := true;
        }
        if buf[j] != 0 {
          hasnonzero := true;
        }
        j := j + 1;
      }
      EmptySteps(idbuf, lo, per);
    }

    /** sfs_itrunc to blocklen blocks. */
    method TruncateTo(i: nat, blocklen: nat, len: nat)
      requires Valid() && i in files
      modifies this, freemap.v
      ensures Valid() && State() == Truncate(old(State()), i, blocklen, len)
    {
      ghost var fs := State();
      TruncDirectInv(fs, i, blocklen);
      TruncateInv(fs, i, blocklen, len);
      TruncateDirect(i, blocklen);
      IndirectOnDisk(State(), i);
      var idblock := files[i].indirect;
      var highblock := nd + per - 1;
      if blocklen < highblock && idblock != 0 {
        DropEntries(i, blocklen);
      }
      hide Inv;
      files := files[i := files[i].(size := len)];
    }

    /** The part of sfs_itrunc that inspects the indirect block. */
    method DropEntries(i: nat, blocklen: nat)
      requires Valid() && i in files && 0 < files[i].indirect < |disk|
      modifies this, freemap.v
      ensures freemap.Valid() && State() == TruncIndirect(old(State()), i, FirstEntry(old(State()), blocklen))
    {
      var idblock := files[i].indirect;
      ghost var fs := State();
      ghost var lo := FirstEntry(fs, blocklen);
      IndirectUsed(fs, i, lo);
      var idbuf, hasnonzero, iddirty := TruncateEntries(i, blocklen, disk[idblock]);
      hide Inv, Shape, Bitmap.Valid, Bitmap.Bits;
      if !hasnonzero {
        ReleaseStep(fs.used, Dropped(fs.disk[idblock], lo, per), idblock);
        Bfree(idblock);
        files := files[i := files[i].(indirect := 0)];
      } else if iddirty {
        disk := disk[idblock := idbuf];
      }
    }

    /** sfs_itrunc. */
    method Itrunc(i: nat, len: nat)
      requires Valid() && i in files
      modifies this, freemap.v
      ensures Valid() && State() == AfterItrunc(old(State()), i, len)
    {
      TruncateTo(i, BlockLen(len), len % Words.W32);
    }

    /**
     sfs_makeobj: a new file with an inode block of its own and nothing else.  load is what sfs_loadvnode returns;
     if it fails the block is free again.
     */
    method MakeObj(load: Errno) returns (err: Errno, ino: nat)
      requires Valid() && load in {OK, ENOMEM, EIO}
      modifies this, freemap.v
      ensures Valid() && err in {load, ENOSPC}
      ensures err == ENOSPC <==> FreeBlocks(old(State()).used) == 0
      ensures err == ENOSPC ==> State() == old(State())
      ensures err == OK ==> ino !in old(files) && ino < |old(disk)| && State() == AddFile(Take(old(State()), ino), ino)
      ensures err != OK ==> State().used == old(State()).used && files == old(files) && SameSlots(old(State()), State())
    {
      err, ino := Balloc();
      if err != OK {
        return;
      }
      err := load;
      if err != OK {
        TakeInv(old(State()), ino);
        UnmarkInv(State(), ino);
        Bfree(ino);
        assert State() == Unmark(Take(old(State()), ino), ino);
        return;
      }
      MakeInv(old(State()), ino);
      files := files[ino := Inode(Zeros(nd), 0, 0, 0)];
    }

    /** sfs_reclaim of a file that nobody holds: without links it is erased, otherwise it stays as it is. */
    method Reclaim(i: nat)
      requires Valid() && i in files
      modifies this, freemap.v
      ensures Valid()
      ensures old(files)[i].links > 0 ==> State() == old(State())
      ensures old(files)[i].links == 0 ==> i < |old(State()).used| && State() == Erase(old(State()), i)
    {
      if files[i].links == 0 {
        hide Inv, Truncate, Erase, BlockLen;
        NoBlocks();
        EraseReady(State(), i);
        Itrunc(i, 0);
        Bfree(i);
        files := files - {i};
        assert State() == Erase(old(State()), i);
      }
    }
  }
}
