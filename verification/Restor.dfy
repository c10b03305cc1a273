/** restor: the write-through cache, the free list, bmap and itrunc. */
module Restor {
  import opened Disk
  import opened BlockTree
  import opened FileTree

  const NCACHE := 3

  datatype CacheSlot = CacheSlot(bno: int, time: int, block: Block)

  datatype Option<T> = None | Some(value: T)

  class Volume {
    var disk: Disk
    const cache: array<CacheSlot>
    var curcache: nat

    var nfree: int
    const free: array<int>
    var tfree: int

    const taddr: array<int>
    var curbno: nat

    /** The free list as a stack of block numbers above the marker 0. */
    ghost var stack: seq<int>

    ghost predicate Cached()
      reads `disk, `curcache, cache
    {
      cache.Length == NCACHE && curcache < NCACHE && Coherent(cache[..], disk)
    }

    ghost predicate FreeList()
      reads `disk, `nfree, `stack, free
    {
      free.Length == NICFREE && Chain(disk, nfree, free[..], stack) && Stack(stack)
    }

    /** The free list, even if a block is on it twice. */
    ghost predicate Listed()
      reads `disk, `nfree, `stack, free
    {
      free.Length == NICFREE && Chain(disk, nfree, free[..], stack)
    }

    ghost predicate Valid()
      reads `disk, `curcache, `nfree, `stack, cache, free
    {
      Cached() && FreeList()
    }

    /** A file system with the free list (nfree, free) in its superblock.  The cache
        starts with all slots zero. */
    constructor (disk: Disk, nfree: int, free: array<int>, tfree: int, ghost stack: seq<int>)
      requires free.Length == NICFREE && Chain(disk, nfree, free[..], stack) && Stack(stack)
      ensures Valid() && fresh(cache) && fresh(taddr) && taddr.Length == NADDR
      ensures this.disk == disk && this.free == free && this.nfree == nfree && this.tfree == tfree
      ensures this.stack == stack
    {
      this.disk, this.nfree, this.free, this.tfree, this.stack := disk, nfree, free, tfree, stack;
      cache := new CacheSlot[NCACHE](i => CacheSlot(0, 0, Zeroes()));
      taddr := new int[NADDR](i => 0);
      curcache, curbno := 0, 0;
      new;
      hide Chain, Stack;
      NoBlockHeld(cache[..], disk);
    }

    method DWrite(bno: int, b: Block)
      requires Cached()
      modifies `disk, cache
      ensures Cached() && disk == old(disk)[bno := b]
    {
      ghost var was := cache[..];
      var i := 0;
      while i < NCACHE
        invariant 0 <= i <= NCACHE && SameSlots(was, cache[..]) && disk == old(disk)
        invariant forall m :: 0 <= m < i ==> was[m].bno != bno
      {
        if cache[i].bno == bno {
          cache[i] := CacheSlot(bno, 0, b);
          disk := disk[bno := b];
          return;
        }
        cache[i] := cache[i].(time := cache[i].time + 1);
        i := i + 1;
      }
      disk := disk[bno := b];
    }

    /** Reading through the cache returns what is on the disk, whichever slot is
        hit or replaced. */
    method DRead(bno: int) returns (buf: Block)
      requires Cached() && bno >= 1
      modifies `curcache, cache
      ensures Cached() && buf == At(disk, bno)
    {
      hide Coherent;
      ghost var was, start := cache[..], curcache;
      var i, j := 0, 0;
      while i < NCACHE
        invariant 0 <= i <= NCACHE && 0 <= j < NCACHE && curcache < NCACHE
        invariant SameSlots(was, cache[..])
        invariant curcache == (start + i) % NCACHE
        invariant forall m :: 0 <= m < NCACHE && Visited(start, i, m) ==> was[m].bno != bno
      {
        curcache := curcache + 1;
        if curcache >= NCACHE {
          curcache := 0;
        }
        var slot := cache[curcache];
        if slot.bno == bno {
          buf := slot.block;
          cache[curcache] := slot.(time := 0);
          CacheHit(was, cache[..], disk);
          Held(was, disk, curcache);
          return;
        }
        cache[curcache] := slot.(time := slot.time + 1);
        if cache[j].time < cache[curcache].time {
          j := curcache;
        }
        i := i + 1;
      }
      assert forall m :: 0 <= m < NCACHE ==> Visited(start, NCACHE, m);
      buf := At(disk, bno);
      CacheMiss(was, cache[..], disk, j, bno);
      SetSlot(j, CacheSlot(bno, 0, buf));
    }

    method SetSlot(j: nat, slot: CacheSlot)
      requires j < cache.Length
      modifies cache
      ensures cache[..] == old(cache[..])[j := slot]
    {
      cache[j] := slot;
    }

    /** The in-core list as the contents of a free-list block; the rest of the
        block is an uninitialised stack buffer. */
    method FreeBlock() returns (fbuf: Block)
      requires free.Length == NICFREE
      ensures DfNfree(fbuf) == nfree && DfFree(fbuf) == free[..]
    {
      assert |Zeroes()| == NINDIR;
      var junk: seq<int> :| |junk| == NINDIR;
      var n := nfree;
      fbuf := junk[0 := n];
      var i := 0;
      while i < NICFREE
        invariant 0 <= i <= NICFREE && fbuf[0] == nfree
        invariant forall m :: 0 <= m < i ==> fbuf[m + 1] == free[m]
      {
        fbuf := fbuf[i + 1 := free[i]];
        i := i + 1;
      }
    }

    method LoadFreeBlock(fbuf: Block)
      requires free.Length == NICFREE
      modifies `nfree, free
      ensures nfree == DfNfree(fbuf) && free[..] == DfFree(fbuf)
    {
      nfree := DfNfree(fbuf);
      var i := 0;
      while i < NICFREE
        invariant 0 <= i <= NICFREE
        invariant forall m :: 0 <= m < i ==> free[m] == DfFree(fbuf)[m]
        invariant nfree == DfNfree(fbuf)
      {
        free[i] := DfFree(fbuf)[i];
        i := i + 1;
      }
    }

    /** Put a block on the free list. */
    method BFree(bn: int)
      requires Valid() && bn >= 1
      modifies `disk, `nfree, `tfree, `stack, cache, free
      ensures Cached() && stack == old(stack) + [bn] && tfree == old(tfree) + 1
      ensures bn !in old(stack) ==> Valid()
      ensures nfree > 1 ==> Listed()
      ensures DifferAt(old(disk), disk, bn, bn)
    {
      hide Volume.Cached, Chain, Stack;
      ghost var list := free[..];
      ChainTop(disk, nfree, list, stack);
      if nfree >= NICFREE {
        Spill(bn);
      }
      free[nfree] := bn;
      nfree := nfree + 1;
      tfree := tfree + 1;
      stack := stack + [bn];
      hide *;
      assert free[..] == list[old(nfree) % NICFREE := bn];
      if bn !in old(stack) {
        ListPush(old(disk), old(nfree), list, old(stack), disk, nfree, free[..], bn);
      } else if old(nfree) < NICFREE {
        PushInCore(disk, old(nfree), list, old(stack), bn);
      }
    }

    /** A full in-core list goes into the block freed. */
    method Spill(bn: int)
      requires Cached() && free.Length == NICFREE
      modifies `disk, `nfree, cache
      ensures Cached() && nfree == 0 && DifferAt(old(disk), disk, bn, bn)
      ensures DfNfree(At(disk, bn)) == old(nfree) && DfFree(At(disk, bn)) == free[..]
    {
      hide Volume.Cached;
      var fbuf := FreeBlock();
      nfree := 0;
      DWrite(bn, fbuf);
    }

    /** Take a block off the free list and clear it; fails (the program exits)
        when only the marker is left. */
    method BAlloc() returns (ok: bool, bno: int)
      requires Valid()
      modifies `disk, `nfree, `tfree, `stack, `curcache, cache, free
      ensures ok <==> |old(stack)| > 1
      ensures ok ==> Valid() && stack + [bno] == old(stack) && tfree == old(tfree) - 1
      ensures ok ==> bno >= 1 && At(disk, bno) == Zeroes() && DifferAt(old(disk), disk, bno, bno)
      ensures !ok ==> disk == old(disk)
    {
      hide Volume.Cached, Chain, Stack;
      ghost var list := free[..];
      ChainTop(disk, nfree, list, stack);
      if nfree == 0 {
        return false, 0;
      }
      nfree := nfree - 1;
      bno := free[nfree];
      if bno == 0 {
        return false, 0;
      }
      stack := stack[..|stack| - 1];
      if nfree == 0 {
        var fbuf := DRead(bno);
        LoadFreeBlock(fbuf);
      }
      ChainPop(disk, old(nfree), list, old(stack));
      label Popped:
      DWrite(bno, Zeroes());
      tfree := tfree - 1;
      ChainFrame(old@Popped(disk), disk, nfree, free[..], stack);
      ok := true;
    }
  
    /** Free every block of the tree at bn: f1 and f2 say how many more levels
        of indirection are below it.  The blocks go onto the free list below
        first and right to left, although the list overwrites freed blocks while
        the walk goes on. */
    method TLoop(bn: int, f1: bool, f2: bool)
      requires (f2 ==> f1) && bn != 0
      requires Valid() && Freeable(stack, Sub(disk, Depth(f1, f2), bn))
      modifies `disk, `nfree, `tfree, `stack, `curcache, cache, free
      ensures Valid() && Freed(old(disk), disk, old(stack), stack, Sub(old(disk), Depth(f1, f2), bn))
      ensures tfree - old(tfree) == |stack| - |old(stack)|
      decreases f1, f2
    {
      hide Coherent, Chain, Stack, Once, Kids, Sub, Freeable, Freeing, Freed;
      ghost var d, st, l := disk, stack, Depth(f1, f2) - 1;
      ghost var t := Sub(d, l + 1, bn);
      FreeingStart(d, st, t);
      SubIsKids(d, l, bn);
      FreeableMember(st, t, bn);
      var ibuf := DRead(bn);
      var i := NINDIR;
      while i > 0
        invariant 0 <= i <= NINDIR && Valid()
        invariant Freeing(d, disk, st, stack, t, Kids(d, l, ibuf, i) + [bn])
        invariant tfree - old(tfree) == |stack| - |st|
      {
        i := i - 1;
        var nb := ibuf[i];
        ghost var s, rest := Sub(d, l, nb), Kids(d, l, ibuf, i) + [bn];
        ghost var was, before := disk, stack;
        NextKid(d, l, ibuf, i, bn);
        FreeingHead(d, disk, st, stack, t, s, rest);
        SubFrame(d, disk, l, nb);
        if nb != 0 {
          if f1 {
            TLoop(nb, f2, false);
          } else {
            OneBlock(d, nb);
            FreeableOne(stack, nb);
            BFree(nb);
            FreedOne(was, disk, before, stack, nb);
          }
        } else {
          FreedNone(d, disk, stack, l);
        }
        FreeingStep(d, was, disk, st, before, stack, t, s, rest);
      }
      NoKids(d, l, ibuf, bn);
      FreeingHead(d, disk, st, stack, t, [bn], []);
      FreeableOne(stack, bn);
      ghost var was, before := disk, stack;
      BFree(bn);
      FreedOne(was, disk, before, stack, bn);
      FreeingStep(d, was, disk, st, before, stack, t, [bn], []);
      FreeingEnd(d, disk, st, stack, t);
    }
  
    /** Free all the blocks of an inode.  Its first address, which comes last, may be of
        a block that it does not own: then that is freed too, a second time if it was
        free, and if there was room for it in core it is on the list twice. */
    method ITrunc(mode: FileType, iaddr: Addrs)
      requires Valid()
      requires mode == Regular || mode == Directory ==>
        Freeable(stack, Blocks(disk, iaddr[0 := 0])) && iaddr[0] >= 0
      modifies `disk, `nfree, `tfree, `stack, `curcache, cache, free
      ensures Cached() && (nfree > 1 ==> Listed())
      ensures mode == Regular || mode == Directory ==>
        Freed(old(disk), disk, old(stack), stack, Blocks(old(disk), iaddr))
      ensures mode == Unallocated || mode == Special || Freeable(old(stack), Blocks(old(disk), iaddr)) ==> Valid()
      ensures mode == Unallocated || mode == Special ==> disk == old(disk) && stack == old(stack)
      ensures tfree - old(tfree) == |stack| - |old(stack)|
    {
      hide Coherent, Chain, Stack, Once, Sub, FileBlocks, Blocks, Freeable, Freeing, Freed;
      if mode == Unallocated {
        return;
      }
      if mode != Directory && mode != Regular {
        return;
      }
      ghost var d, st := disk, stack;
      TruncOthers(iaddr);
      var bn := iaddr[0];
      if bn != 0 {
        ghost var was, now := disk, stack;
        BFree(bn);
        FreedFirst(d, was, disk, st, now, stack, iaddr);
      } else {
        assert iaddr[0 := 0] == iaddr;
      }
    }

    /** All addresses but the first, the last one first. */
    method TruncOthers(iaddr: Addrs)
      requires Valid() && Freeable(stack, Blocks(disk, iaddr[0 := 0]))
      modifies `disk, `nfree, `tfree, `stack, `curcache, cache, free
      ensures Valid() && Freed(old(disk), disk, old(stack), stack, Blocks(old(disk), iaddr[0 := 0]))
      ensures tfree - old(tfree) == |stack| - |old(stack)|
    {
      hide Coherent, Chain, Stack, Once, Sub, FileBlocks, Freeable, Freeing, Freed;
      ghost var d, st, a := disk, stack, iaddr[0 := 0];
      ghost var t := Blocks(d, a);
      FreeingStart(d, st, t);
      var i := NADDR;
      while i > 1
        invariant 1 <= i <= NADDR && Valid()
        invariant Freeing(d, disk, st, stack, t, FileBlocks(d, a, i))
        invariant tfree - old(tfree) == |stack| - |st|
      {
        i := i - 1;
        var bn := iaddr[i];
        ghost var s, rest := Sub(d, LevelOf(i), bn), FileBlocks(d, a, i);
        ghost var was, before := disk, stack;
        NextAddress(d, a, i);
        FreeingHead(d, disk, st, stack, t, s, rest);
        SubFrame(d, disk, LevelOf(i), bn);
        if bn == 0 {
          FreedNone(d, disk, stack, LevelOf(i));
        } else if i == NADDR - 3 {
          TLoop(bn, false, false);
        } else if i == NADDR - 2 {
          TLoop(bn, true, false);
        } else if i == NADDR - 1 {
          TLoop(bn, true, true);
        } else {
          OneBlock(d, bn);
          FreeableOne(stack, bn);
          BFree(bn);
          FreedOne(was, disk, before, stack, bn);
        }
        FreeingStep(d, was, disk, st, before, stack, t, s, rest);
      }
      NoFirst(d, iaddr);
      FreeingEnd(d, disk, st, stack, t);
    }

    /** How many levels of indirection file block k needs: j is 3, 2 or 1 for a
        single, double or triple indirect block and 0 beyond the largest file;
        bn is the offset below it and sh the shift for its first index. */
    method Levels(k: nat) returns (j: nat, sh: nat, bn: nat)
      requires k >= NADDR - 3
      ensures j <= 3 && (j == 0 <==> k >= MAXFB)
      ensures j > 0 ==> Slot(k) == (NADDR - j, bn) && sh == NSHIFT * (4 - j)
    {
      Shifts();
      sh := 0;
      var nb: nat := 1;
      bn := k - (NADDR - 3);
      j := 3;
      while j > 0
        invariant 0 <= j <= 3 && sh == NSHIFT * (3 - j)
        invariant nb == Exp2(sh)
        invariant bn ==
          k - (NADDR - 3) - (if j < 3 then 256 else 0) - (if j < 2 then 65536 else 0) - (if j < 1 then 16777216 else 0)
      {
        sh := sh + NSHIFT;
        nb := nb * 256;
        if bn < nb {
          break;
        }
        bn := bn - nb;
        j := j - 1;
      }
    }

    /** The address at index i of the indirect block nb; if there is none a fresh
        block is entered there. */
    method Fetch(nb: int, i: nat) returns (ok: bool, nnb: int)
      requires Valid() && nb >= 1 && nb !in stack && i < NINDIR
      modifies `disk, `nfree, `tfree, `stack, `curcache, cache, free
      ensures ok <==> At(old(disk), nb)[i] != 0 || |old(stack)| > 1
      ensures ok ==> Valid() && Fetched(old(disk), old(stack), disk, stack, nb, i, nnb)
      ensures ok ==> tfree - old(tfree) == |stack| - |old(stack)|
    {
      hide Coherent, Chain, Stack;
      var indir := DRead(nb);
      nnb := indir[i];
      ok := true;
      if nnb == 0 {
        ok, nnb := BAlloc();
        if !ok {
          return;
        }
        label Allocated:
        assert nnb in old(stack);
        indir := indir[i := nnb];
        ChainTop(disk, nfree, free[..], stack);
        DWrite(nb, indir);
        ChainFrame(old@Allocated(disk), disk, nfree, free[..], stack);
      }
    }

    /** Fetch through the indirect blocks, from the block nb at level 4 - j0.
        The ghost arguments are the disk, inode and free list that bmap started
        from, and the inode now. */
    method Through(k: nat, root: int, j0: nat, sh0: nat, bn: nat, ghost d: Disk, ghost a: Addrs, ghost st: seq<int>,
                   ghost cur: Addrs)
      returns (ok: bool, nb: int)
      requires Valid() && NADDR - 3 <= k < MAXFB && 1 <= j0 <= 3 && sh0 == NSHIFT * (4 - j0) && bn < Pow(4 - j0)
      requires Grown(d, a, st, disk, cur, stack, k) && FilePath(disk, cur, k, 4 - j0, root, bn)
      requires Needed(d, a, k) == |st| - |stack| + Missing(disk, 4 - j0, root, bn)
      modifies `disk, `nfree, `tfree, `stack, `curcache, cache, free
      ensures ok <==> |st| > Needed(d, a, k)
      ensures ok ==> |st| - |stack| == Needed(d, a, k)
      ensures ok ==> Valid() && Mapped(d, a, st, disk, cur, stack, k, nb)
      ensures ok ==> tfree - old(tfree) == |stack| - |old(stack)|
    {
      hide Coherent, Chain, Stack, Once, Sub, FileBlocks, Freeable, Look, Slot, Missing, FilePath, Grown, Mapped,
        Needed, Fetched, Remainder, Index, DigitRest;
      var j, sh := j0, sh0;
      WholeRemainder(bn, 4 - j0);
      nb := root;
      ghost var r: nat := bn;
      while j <= 3
        invariant 1 <= j <= 4 && sh == NSHIFT * (4 - j)
        invariant Valid() && r < Pow(4 - j) && Remainder(bn, 4 - j, r)
        invariant Grown(d, a, st, disk, cur, stack, k)
        invariant FilePath(disk, cur, k, 4 - j, nb, r)
        invariant Needed(d, a, k) == |st| - |stack| + Missing(disk, 4 - j, nb, r)
        invariant tfree - old(tfree) == |stack| - |old(stack)|
      {
        ghost var now, before, l := disk, stack, 4 - j;
        IndexIsDigit(bn, l, r);
        PathNode(d, a, st, now, cur, before, k, l, nb, r);
        MissingNode(now, l, nb, r);
        sh := sh - NSHIFT;
        var i := Index(bn, sh);
        var nnb;
        ok, nnb := Fetch(nb, i);
        if !ok {
          return;
        }
        GrownFetched(d, a, st, now, cur, before, disk, stack, k, l, nb, r, nnb);
        PathFetched(now, cur, before, disk, stack, k, l, nb, r, nnb);
        MissingFetched(now, before, disk, stack, l, nb, r, nnb);
        nb := nnb;
        r := DigitRest(r, l);
        j := j + 1;
      }
      ChainTop(disk, nfree, free[..], stack);
      GrownMapped(d, a, st, disk, cur, stack, k, nb, r);
      ok := true;
    }

    /** Map file block k to a disk block, allocating it and the indirect blocks
        that lead to it.  Whatever the first address is, only mapping block 0 has
        to do with it: the rest holds for the inode with z in its place. */
    method BMap(iaddr: array<int>, k: nat, ghost z: int) returns (ok: bool, nb: int)
      requires iaddr.Length == NADDR && iaddr != free
      requires Valid() && Freeable(stack, Blocks(disk, iaddr[..][0 := z]))
      modifies `disk, `nfree, `tfree, `stack, `curcache, cache, free, iaddr
      ensures k >= MAXFB ==>
        ok && nb == 0 && Valid() && disk == old(disk) && stack == old(stack) && iaddr[..] == old(iaddr[..])
      ensures k != 0 ==> iaddr[0] == old(iaddr[0])
      ensures k < MAXFB ==> (ok <==> |old(stack)| > Needed(old(disk), old(iaddr[..][0 := z]), k))
      ensures k < MAXFB && ok ==> |old(stack)| - |stack| == Needed(old(disk), old(iaddr[..][0 := z]), k)
      ensures k < MAXFB && ok ==> Valid()
      ensures k < MAXFB && ok ==>
        Mapped(old(disk), old(iaddr[..][0 := z]), old(stack), disk, Rest(iaddr[..], k == 0, z), stack, k, nb)
      ensures ok ==> tfree - old(tfree) == |stack| - |old(stack)|
    {
      hide Coherent, Chain, Stack, Once, Sub, FileBlocks, Freeable, Look, Slot, Missing, FilePath, Grown, Mapped;
      ghost var d, a, st := disk, iaddr[..][0 := z], stack;
      ChainTop(d, nfree, free[..], st);
      if k < NADDR - 3 {
        ok, nb := BAlloc();
        if ok {
          iaddr[k] := nb;
          assert Rest(iaddr[..], k == 0, z) == a[k := nb];
          DirectMapped(d, a, st, disk, stack, k, nb);
        }
        return;
      }
      var j, sh, bn := Levels(k);
      if j == 0 {
        return true, 0;
      }
      GrownNothing(d, a, st, k);
      nb := iaddr[NADDR - j];
      if nb == 0 {
        ok, nb := BAlloc();
        if !ok {
          return;
        }
        iaddr[NADDR - j] := nb;
        assert iaddr[..][0 := z] == a[NADDR - j := nb];
        GrownRoot(d, a, st, disk, stack, k, nb);
      } else {
        RootPath(d, a, k);
      }
      ok, nb := Through(k, nb, j, sh, bn, d, a, st, iaddr[..][0 := z]);
    }

    /** The addresses of the file being restored.  The first is that of the dump
        until block 0 is restored, and is not counted before. */
    ghost function Addresses(log: seq<Option<Block>>): Addrs
      requires taddr.Length == NADDR
      reads taddr
    {
      Rest(taddr[..], Started(log), 0)
    }

    /** The file being restored holds the blocks of the log so far. */
    ghost predicate Holding(log: seq<Option<Block>>)
      reads `disk, `curcache, `nfree, `stack, `curbno, cache, free, taddr
    {
      && Valid() && taddr.Length == NADDR && taddr != free && curbno == |log|
      && Freeable(stack, Blocks(disk, Addresses(log)))
      && Contents(disk, Addresses(log), log)
    }

    /** The inode as it stands has the blocks of the file. */
    ghost predicate AllThere(file: seq<Option<Block>>)
      reads `disk, taddr
    {
      taddr.Length == NADDR && Contents(disk, taddr[..], file)
    }

    /** Restore the next block of the file; beyond the largest file bmap gives
        block 0, which is then overwritten. */
    method RstrFile(b: Block, ghost log: seq<Option<Block>>) returns (ok: bool)
      requires Holding(log)
      modifies `disk, `nfree, `tfree, `stack, `curcache, `curbno, cache, free, taddr
      ensures ok <==> |log| >= MAXFB || |old(stack)| > Needed(old(disk), old(Addresses(log)), |log|)
      ensures ok ==> Holding(log + [Some(b)])
      ensures ok ==> Replaced(old(disk), old(Addresses(log)), old(stack), disk, Addresses(log + [Some(b)]), stack)
      ensures ok ==> tfree - old(tfree) == |stack| - |old(stack)|
      ensures ok && |log| < MAXFB ==> |old(stack)| - |stack| == Needed(old(disk), old(Addresses(log)), |log|)
      ensures ok && |log| >= MAXFB ==> stack == old(stack) && taddr[..] == old(taddr[..]) && disk == old(disk)[0 := b]
      ensures log != [] ==> taddr[0] == old(taddr[0])
    {
      hide Coherent, Chain, Stack, Once, Blocks, Freeable, Lookup, Mapped, Needed, Missing, Contents, Replaced;
      ghost var z := if Started(log) then taddr[0] else 0;
      assert taddr[..][0 := z] == Addresses(log);
      var d;
      ok, d := BMap(taddr, curbno, z);
      if !ok {
        return;
      }
      StartedMore(log, Some(b));
      assert Rest(taddr[..], curbno == 0, z) == Addresses(log + [Some(b)]);
      label Mapping:
      ChainTop(disk, nfree, free[..], stack);
      if curbno < MAXFB {
        MappedData(old(disk), old(Addresses(log)), old(stack), disk, Addresses(log + [Some(b)]), stack,
                   curbno, d, b, log);
      } else {
        MarkerBelow(disk, nfree, free[..], stack);
        OutsideWrite(disk, Addresses(log), stack, b, log);
      }
      DWrite(d, b);
      curbno := curbno + 1;
      ChainFrame(old@Mapping(disk), disk, nfree, free[..], stack);
    }

    method RstrSkip(ghost log: seq<Option<Block>>)
      requires Holding(log)
      modifies `curbno
      ensures Holding(log + [None])
    {
      hide Coherent, Chain, Stack, Once, Blocks, Freeable, Lookup;
      StartedMore(log, None);
      curbno := curbno + 1;
    }

    /** An inode starts with no address but the first of the dump. */
    method ClearAddresses(first: int)
      requires taddr.Length == NADDR
      modifies taddr
      ensures taddr[0] == first && forall m :: 0 < m < NADDR ==> taddr[m] == 0
    {
      for i := 0 to NADDR
        invariant forall m :: 0 <= m < i ==> taddr[m] == 0
      {
        taddr[i] := 0;
      }
      taddr[0] := first;
    }

    /** Restore a whole file; None is a block the dump skipped, and first is the
        first address that the dump's inode had, which for a special file is its device
        number.  The inode then holds the file if
        and only if that address is 0 or block 0 was restored; otherwise it has
        that address for block 0. */
    method RestoreFile(file: seq<Option<Block>>, first: int) returns (ok: bool)
      requires Valid() && taddr.Length == NADDR && taddr != free
      modifies `disk, `nfree, `tfree, `stack, `curcache, `curbno, cache, free, taddr
      ensures ok ==> Holding(file) && (Started(file) || first == 0 ==> Addresses(file) == taddr[..])
      ensures ok ==> (AllThere(file) <==> Started(file) || first == 0) && (!Started(file) ==> taddr[0] == first)
      ensures ok ==> multiset(stack + Blocks(disk, Addresses(file))) == multiset(old(stack)) && stack <= old(stack)
      ensures ok ==> forall b :: b !in old(stack) ==> At(disk, b) == At(old(disk), b)
      ensures ok ==> tfree - old(tfree) == |stack| - |old(stack)|
      ensures !ok ==> |old(stack)| <= 4 * |file|
    {
      hide Coherent, Chain, Stack, Once, Blocks, Freeable, Lookup, Needed, Missing, Contents, Replaced;
      curbno := 0;
      ClearAddresses(first);
      NoFile(disk, Addresses([]), stack);
      ghost var st := stack;
      assert file[..0] == [];
      for i := 0 to |file|
        invariant Holding(file[..i]) && (!Started(file[..i]) ==> taddr[0] == first)
        invariant multiset(stack + Blocks(disk, Addresses(file[..i]))) == multiset(st) && stack <= st
        invariant forall b :: b !in st ==> At(disk, b) == At(old(disk), b)
        invariant tfree - old(tfree) == |stack| - |st|
        invariant |st| - |stack| <= 4 * i
      {
        assert file[..i + 1] == file[..i] + [file[i]];
        StartedMore(file[..i], file[i]);
        if file[i].Some? {
          ghost var a, now, before := Addresses(file[..i]), stack, disk;
          if i < MAXFB {
            FewMissing(disk, a, i);
          }
          ok := RstrFile(file[i].value, file[..i]);
          if !ok {
            return;
          }
          ReplacedFrame(st, old(disk), before, a, now, disk, Addresses(file[..i + 1]), stack);
        } else {
          RstrSkip(file[..i]);
        }
      }
      assert file[..|file|] == file;
      ok := true;
      FirstLookup(disk, taddr[..]);
      if Started(file) || first == 0 {
        assert Addresses(file) == taddr[..];
      } else {
        FirstWrong(disk, taddr[..], file);
      }
    }

    /** Restoring a file and truncating it gives back the same free blocks, unless
        block 0 is a hole and an address for it was taken over: that block, which the
        file never owned, is then freed too, and if it was free, twice. */
    method RestoreThenTruncate(file: seq<Option<Block>>, first: int) returns (ok: bool)
      requires Valid() && taddr.Length == NADDR && taddr != free && first >= 0
      modifies `disk, `nfree, `tfree, `stack, `curcache, `curbno, cache, free, taddr
      ensures ok ==> Cached() && multiset(stack) == multiset(old(stack)) + Foreign(file, first)
      ensures ok ==> (tfree == old(tfree) <==> first == 0 || Started(file))
      ensures ok ==> tfree == old(tfree) + |Foreign(file, first)|
      ensures ok && (first == 0 || Started(file) || first !in old(stack)) ==> Valid()
      ensures ok && nfree > 1 ==> Listed()
      ensures !ok ==> |old(stack)| <= 4 * |file|
    {
      hide Coherent, Chain, Stack, Once, Blocks, Freeable, Started, Contents, Freed;
      ok := RestoreFile(file, first);
      if ok {
        ghost var st, now, d, more := old(stack), stack, disk, Foreign(file, first);
        FreeableToo(stack, disk, taddr[..], Addresses(file), st, more);
        ITrunc(Regular, taddr[..]);
        FreedStack(d, disk, now, stack, Blocks(d, taddr[..]));
        SizeWith(stack, st, more);
      }
    }
  }

  /** Block 0 was restored. */
  predicate Started(log: seq<Option<Block>>) { log != [] && log[0].Some? }

  /** An address taken over from the dump that no block restored has replaced. */
  ghost function Foreign(file: seq<Option<Block>>, first: int): multiset<int> {
    if first == 0 || Started(file) then multiset{} else multiset{first}
  }

  lemma {:induction false} FirstBlock(d: Disk, a: Addrs, n: nat)
    requires 1 <= n <= NADDR && a[0] != 0
    ensures FileBlocks(d, a, n) == FileBlocks(d, a[0 := 0], n) + [a[0]]
  {
    hide Sub;
    if n > 1 {
      FirstBlock(d, a, n - 1);
    } else {
      HoleIsEmpty(d, 0);
      DirectBlock(d, a[0]);
    }
  }

  lemma DirectBlock(d: Disk, b: int)
    requires b != 0
    ensures Sub(d, 0, b) == [b]
  {
  }

  /** The file can be freed with the address it does not own. */
  lemma FreeableToo(st: seq<int>, d: Disk, a: Addrs, own: Addrs, st0: seq<int>, more: multiset<int>)
    requires multiset(st + Blocks(d, own)) == multiset(st0) && Freeable(st, Blocks(d, own))
    requires if more == multiset{} then own == a
             else own == a[0 := 0] && more == multiset{a[0]} && a[0] >= 1
    ensures multiset(st + Blocks(d, a)) == multiset(st0) + more
    ensures Freeable(st, Blocks(d, a[0 := 0])) && a[0] >= 0
    ensures more == multiset{} || a[0] !in st0 ==> Freeable(st, Blocks(d, a))
  {
    assert |a| > 0;
    hide *;
    if more == multiset{} {
      FreeableOwn(st, d, a);
    } else {
      FreeableForeign(st, Blocks(d, own), Blocks(d, a), st0, a[0]) by {
        BlocksFirst(d, a);
      }
    }
  }

  lemma FreeableOwn(st: seq<int>, d: Disk, a: Addrs)
    requires Freeable(st, Blocks(d, a))
    ensures Freeable(st, Blocks(d, a[0 := 0])) && a[0] >= 0
  {
    assert |a| > 0;
    hide *;
    if a[0] == 0 {
      NoneFirst(a);
    } else {
      BlocksFirst(d, a);
      FreeableLess(st, Blocks(d, a[0 := 0]), a[0]);
    }
  }

  lemma NoneFirst(a: Addrs)
    requires a[0] == 0
    ensures a[0 := 0] == a
  {
  }

  lemma FreeableForeign(st: seq<int>, own: seq<int>, bs: seq<int>, st0: seq<int>, x: int)
    requires bs == own + [x] && multiset(st + own) == multiset(st0) && Freeable(st, own) && x >= 1
    ensures multiset(st + bs) == multiset(st0) + multiset{x}
    ensures x !in st0 ==> Freeable(st, bs)
  {
    hide *;
    MoreBlock(st, own, st0, x);
    if x !in st0 {
      OneMoreBlock(st, own, st0, x);
    }
  }

  lemma BlocksFirst(d: Disk, a: Addrs)
    requires a[0] != 0
    ensures Blocks(d, a) == Blocks(d, a[0 := 0]) + [a[0]]
  {
    FirstBlock(d, a, NADDR);
    hide FileBlocks;
  }

  lemma FreeableLess(st: seq<int>, bs: seq<int>, x: int)
    requires Freeable(st, bs + [x])
    ensures Freeable(st, bs) && x >= 1
  {
    assert st + (bs + [x]) == st + bs + [x];
    assert x in bs + [x];
    assert forall b :: b in bs ==> b in bs + [x];
    assert forall b :: multiset(st + bs)[b] <= multiset(st + bs + [x])[b];
  }

  lemma MoreBlock(st: seq<int>, bs: seq<int>, st0: seq<int>, x: int)
    requires multiset(st + bs) == multiset(st0)
    ensures multiset(st + (bs + [x])) == multiset(st0) + multiset{x}
  {
    assert st + (bs + [x]) == st + bs + [x];
  }

  /** The first address was freed after the others. */
  lemma FreedFirst(d: Disk, e: Disk, f: Disk, st: seq<int>, now: seq<int>, next: seq<int>, a: Addrs)
    requires Freed(d, e, st, now, Blocks(d, a[0 := 0])) && a[0] != 0
    requires next == now + [a[0]] && DifferAt(e, f, a[0], a[0])
    ensures Freed(d, f, st, next, Blocks(d, a))
    ensures Freeable(st, Blocks(d, a)) ==> a[0] !in now
  {
    assert |a| > 0;
    hide *;
    BlocksFirst(d, a);
    FreedMore(d, e, f, st, now, Blocks(d, a[0 := 0]), a[0]);
  }

  lemma FreedMore(d: Disk, e: Disk, f: Disk, st: seq<int>, now: seq<int>, bs: seq<int>, x: int)
    requires Freed(d, e, st, now, bs) && DifferAt(e, f, x, x)
    ensures Freed(d, f, st, now + [x], bs + [x])
    ensures Freeable(st, bs + [x]) ==> x !in now
  {
    assert st + bs + [x] == st + (bs + [x]);
    assert forall b :: b in bs + [x] <==> b in bs || b == x;
    if Freeable(st, bs + [x]) {
      assert multiset(now + [x])[x] <= 1;
    }
  }

  lemma FreedStack(d: Disk, e: Disk, st: seq<int>, now: seq<int>, bs: seq<int>)
    requires Freed(d, e, st, now, bs)
    ensures now == st + bs
  {
  }

  lemma NoFirst(d: Disk, a: Addrs)
    ensures FileBlocks(d, a[0 := 0], 1) == []
  {
    HoleIsEmpty(d, 0);
  }

  lemma OneMoreBlock(st: seq<int>, bs: seq<int>, st0: seq<int>, x: int)
    requires Freeable(st, bs) && multiset(st + bs) == multiset(st0) && x >= 1 && x !in st0
    ensures Freeable(st, bs + [x]) && multiset(st + (bs + [x])) == multiset(st0) + multiset{x}
  {
    assert st + (bs + [x]) == st + bs + [x];
    assert multiset(st0)[x] == 0;
  }

  lemma SizeWith(s: seq<int>, t: seq<int>, more: multiset<int>)
    requires multiset(s) == multiset(t) + more
    ensures |s| == |t| + |more|
  {
    assert |multiset(s)| == |s| && |multiset(t)| == |t|;
  }

  lemma StartedMore(log: seq<Option<Block>>, b: Option<Block>)
    ensures Started(log + [b]) <==> Started(log) || (log == [] && b.Some?)
  {
  }

  /** The addresses a, with z for the first unless that is known. */
  function Rest(a: Addrs, known: bool, z: int): Addrs { if known then a else a[0 := z] }

  lemma FirstLookup(d: Disk, a: Addrs)
    ensures Lookup(d, a, 0) == a[0]
  {
  }

  lemma FirstWrong(d: Disk, a: Addrs, file: seq<Option<Block>>)
    requires !Started(file) && Lookup(d, a, 0) != 0
    ensures !Contents(d, a, file)
  {
    hide Lookup;
    assert 0 < MAXFB;
  }

  /** File block k reads back as entry k of the log; blocks that were skipped or
      not reached yet are holes. */
  ghost predicate Contents(d: Disk, a: Addrs, log: seq<Option<Block>>) {
    forall k: nat :: k < MAXFB ==>
      if k < |log| && log[k].Some? then Lookup(d, a, k) != 0 && At(d, Lookup(d, a, k)) == log[k].value
      else Lookup(d, a, k) == 0
  }

  /** Blocks moved between the free list and the file only, and no block outside
      both changed. */
  ghost predicate Replaced(d0: Disk, a0: Addrs, st0: seq<int>, d: Disk, a: Addrs, st: seq<int>) {
    && st <= st0 && multiset(st + Blocks(d, a)) == multiset(st0 + Blocks(d0, a0))
    && forall b :: b !in st0 && b !in Blocks(d0, a0) ==> At(d, b) == At(d0, b)
  }

  lemma NoFile(d: Disk, a: Addrs, st: seq<int>)
    requires Stack(st) && forall i :: 0 <= i < NADDR ==> a[i] == 0
    ensures Blocks(d, a) == [] && Freeable(st, Blocks(d, a)) && Contents(d, a, []) && st + Blocks(d, a) == st
  {
    hide Slot;
    EmptyFile(d, a, |a|);
    assert st + [] == st;
  }

  lemma ReplacedFrame(st0: seq<int>, d0: Disk, d: Disk, a: Addrs, st: seq<int>, e: Disk, b: Addrs, now: seq<int>)
    requires Replaced(d, a, st, e, b, now) && st <= st0 && multiset(st + Blocks(d, a)) == multiset(st0)
    requires forall x :: x !in st0 ==> At(d, x) == At(d0, x)
    ensures now <= st0 && multiset(now + Blocks(e, b)) == multiset(st0)
    ensures forall x :: x !in st0 ==> At(e, x) == At(d0, x)
  {
    hide Blocks;
    forall x | x !in st0
      ensures At(e, x) == At(d0, x)
    {
      assert multiset(st0)[x] == 0;
      assert multiset(st + Blocks(d, a))[x] == 0;
    }
  }

  lemma FewMissing(d: Disk, a: Addrs, k: nat)
    requires k < MAXFB
    ensures Needed(d, a, k) <= 4
  {
    hide Slot;
    MissingBound(d, LevelOf(Slot(k).0), a[Slot(k).0], Slot(k).1);
  }

  lemma {:induction false} MissingBound(d: Disk, lvl: nat, bn: int, k: nat)
    requires k < Pow(lvl)
    ensures Missing(d, lvl, bn, k) <= lvl + 1
    decreases lvl
  {
    hide Digit, DigitRest, Pow;
    if bn != 0 && lvl > 0 {
      MissingBound(d, lvl - 1, At(d, bn)[Digit(k, lvl)], DigitRest(k, lvl));
    }
  }

  /** Writing the block just mapped adds it to the contents and leaves the rest. */
  lemma MappedData(d0: Disk, a0: Addrs, st0: seq<int>, d: Disk, a: Addrs, st: seq<int>, k: nat, nb: int, b: Block,
                   log: seq<Option<Block>>)
    requires k < MAXFB && k == |log| && Contents(d0, a0, log)
    requires Mapped(d0, a0, st0, d, a, st, k, nb)
    ensures var e := d[nb := b];
      Replaced(d0, a0, st0, e, a, st) && Freeable(st, Blocks(e, a)) && Contents(e, a, log + [Some(b)])
    ensures nb !in st
  {
    hide Slot, Blocks, Lookup, Freeable;
    var e := d[nb := b];
    OnceInFile(st, Blocks(d, a));
    DataBlock(d, a, k);
    DataWrite(d, e, a, k);
    BlockOf(Blocks(d, a), Blocks(e, a), st);
    Conserved(st0, Blocks(d0, a0), st, Blocks(d, a), nb, Overwritten(a0, k));
    NotOverwritten(d0, a0, k);
    MappedContents(d0, a0, st0, d, a, st, k, nb, b, log);
    hide Contents;
  }

  lemma MappedContents(d0: Disk, a0: Addrs, st0: seq<int>, d: Disk, a: Addrs, st: seq<int>, k: nat, nb: int, b: Block,
                       log: seq<Option<Block>>)
    requires k < MAXFB && k == |log| && Contents(d0, a0, log)
    requires Mapped(d0, a0, st0, d, a, st, k, nb)
    requires forall j: nat :: j < MAXFB ==> Lookup(d[nb := b], a, j) == Lookup(d, a, j)
    ensures Contents(d[nb := b], a, log + [Some(b)])
  {
    hide Slot, Blocks, Lookup, Freeable, Overwritten, Once;
    OnceInFile(st, Blocks(d, a));
    var e, more := d[nb := b], log + [Some(b)];
    forall j: nat | j < MAXFB
      ensures if j < |more| && more[j].Some?
              then Lookup(e, a, j) != 0 && At(e, Lookup(e, a, j)) == more[j].value
              else Lookup(e, a, j) == 0
    {
      assert Lookup(e, a, j) == Lookup(d, a, j);
      if j != k && Lookup(d, a, j) == nb {
        LookupInjective(d, a, j, k);
      }
    }
  }

  lemma NotOverwritten(d: Disk, a: Addrs, k: nat)
    requires k < MAXFB && Lookup(d, a, k) == 0
    ensures Overwritten(a, k) == multiset{}
  {
  }

  lemma BlockOf(bs: seq<int>, cs: seq<int>, st: seq<int>)
    requires multiset(bs) == multiset(cs)
    ensures Freeable(st, bs) ==> Freeable(st, cs)
    ensures multiset(st + bs) == multiset(st + cs)
  {
    assert multiset(st + bs) == multiset(st) + multiset(bs);
    assert multiset(st + cs) == multiset(st) + multiset(cs);
    forall b | b in cs
      ensures b in bs
    {
      assert b in multiset(cs);
    }
  }

  lemma Conserved(st0: seq<int>, bs0: seq<int>, st: seq<int>, bs: seq<int>, b: int, lost: multiset<int>)
    requires multiset(st + bs) + lost == multiset(st0 + bs0) && b in bs
    ensures b in st0 || b in bs0
  {
    assert multiset(st + bs)[b] >= multiset(bs)[b] >= 1;
    assert multiset(st0 + bs0)[b] >= 1;
    assert b in st0 + bs0;
  }

  lemma OutsideWrite(d: Disk, a: Addrs, st: seq<int>, b: Block, log: seq<Option<Block>>)
    requires |log| >= MAXFB && Contents(d, a, log) && Freeable(st, Blocks(d, a)) && 0 in st
    ensures var e := d[0 := b];
      Replaced(d, a, st, e, a, st) && Freeable(st, Blocks(e, a)) && Contents(e, a, log + [Some(b)])
  {
    hide Slot, FileBlocks, Look;
    var e := d[0 := b];
    NoMarkerInFile(d, a, |a|);
    FileFrame(d, e, a, |a|);
    forall k: nat | k < MAXFB
      ensures Lookup(e, a, k) == Lookup(d, a, k)
    {
      var i := Slot(k).0;
      NoMarker(d, LevelOf(i), a[i]);
      LookFrame(d, e, LevelOf(i), a[i], Slot(k).1);
    }
    forall k: nat | k < MAXFB && Lookup(d, a, k) != 0
      ensures At(e, Lookup(d, a, k)) == At(d, Lookup(d, a, k))
    {
    }
  }

  const NSHIFT := 8

  function Exp2(n: nat): (p: nat)
    ensures p >= 1
  {
    if n == 0 then 1 else 2 * Exp2(n - 1)
  }

  datatype FileType = Unallocated | Regular | Directory | Special

  lemma Shifts()
    ensures Exp2(0) == 1 && Exp2(8) == 256 && Exp2(16) == 65536 && Exp2(24) == 16777216
  {
    assert Exp2(4) == 16;
    assert Exp2(8) == 256;
    assert Exp2(12) == 4096;
    assert Exp2(16) == 65536;
    assert Exp2(20) == 1048576;
  }

  /** (bn >> sh) & NMASK */
  function Index(bn: nat, sh: nat): (i: nat)
    ensures i < NINDIR
  {
    bn / Exp2(sh) % NINDIR
  }

  /** r is the offset of bn below an indirect block of level l. */
  ghost predicate Remainder(bn: nat, l: nat, r: nat) {
    Pow(l) > 0 && r == bn % Pow(l)
  }

  lemma WholeRemainder(bn: nat, l: nat)
    requires l <= 3 && bn < Pow(l)
    ensures Remainder(bn, l, bn)
  {
    Powers();
    hide Pow;
    assert l == 0 || l == 1 || l == 2 || l == 3;
  }

  /** Shifting and masking pick the digit of the offset. */
  lemma IndexIsDigit(bn: nat, l: nat, r: nat)
    requires 1 <= l <= 3 && r < Pow(l) && Remainder(bn, l, r)
    ensures Index(bn, NSHIFT * (l - 1)) == Digit(r, l)
    ensures Remainder(bn, l - 1, DigitRest(r, l))
  {
    Shifts();
    Powers();
    hide Pow, Exp2;
    if l == 1 {
    } else if l == 2 {
      MiddleDigit(bn, bn / 256, bn % 256, bn / 256 / 256, bn / 256 % 256);
    } else {
      TopDigit(bn, bn / 65536, bn % 65536, bn / 65536 / 256, bn / 65536 % 256);
    }
  }

  lemma MiddleDigit(bn: nat, u: nat, v: nat, s: nat, t: nat)
    requires bn == 256 * u + v && v < 256 && u == 256 * s + t && t < 256
    ensures bn % 65536 == 256 * t + v && (256 * t + v) / 256 == t && (256 * t + v) % 256 == v
  {
    assert bn == 65536 * s + (256 * t + v);
  }

  lemma TopDigit(bn: nat, u: nat, v: nat, s: nat, t: nat)
    requires bn == 65536 * u + v && v < 65536 && u == 256 * s + t && t < 256
    ensures bn % 16777216 == 65536 * t + v && (65536 * t + v) / 65536 == t && (65536 * t + v) % 65536 == v
  {
    assert bn == 16777216 * s + (65536 * t + v);
  }

  /** Blocks that must be taken off the free list to map file block k. */
  ghost function Needed(d: Disk, a: Addrs, k: nat): nat
    requires k < MAXFB
  {
    if k < NADDR - 3 then 1 else Missing(d, LevelOf(Slot(k).0), a[Slot(k).0], Slot(k).1)
  }

  /** The direct block that mapping block k overwrites in the inode. */
  function Overwritten(a: Addrs, k: nat): multiset<int> {
    if k < NADDR - 3 && a[k] != 0 then multiset{a[k]} else multiset{}
  }

  /** What holds while the path to file block k is being built: free and file
      blocks are conserved, no other file block moves or changes, and blocks of
      other files are untouched. */
  ghost predicate Grown(d0: Disk, a0: Addrs, st0: seq<int>, d: Disk, a: Addrs, st: seq<int>, k: nat) {
    && k < MAXFB && Freeable(st, Blocks(d, a)) && st <= st0
    && multiset(st + Blocks(d, a)) + Overwritten(a0, k) == multiset(st0 + Blocks(d0, a0))
    && (forall j: nat :: j < MAXFB && j != k ==> Lookup(d, a, j) == Lookup(d0, a0, j))
    && (forall j: nat :: j < MAXFB && j != k && Lookup(d0, a0, j) != 0 ==>
          At(d, Lookup(d0, a0, j)) == At(d0, Lookup(d0, a0, j)))
    && (forall b :: b !in st0 && b !in Blocks(d0, a0) ==> At(d, b) == At(d0, b))
    && (if k >= NADDR - 3 && Lookup(d0, a0, k) != 0 then d == d0 && a == a0 && st == st0
        else Lookup(d, a, k) != 0 ==> Lookup(d, a, k) in st0 && At(d, Lookup(d, a, k)) == Zeroes())
  }

  /** File block k is now held by nb: by the block that held it before, if k is
      behind an indirect block and had one, and by a fresh cleared block
      otherwise. */
  ghost predicate Mapped(d0: Disk, a0: Addrs, st0: seq<int>, d: Disk, a: Addrs, st: seq<int>, k: nat, nb: int) {
    Grown(d0, a0, st0, d, a, st, k) && nb >= 1 && Lookup(d, a, k) == nb
  }

  lemma FreshOutside(d: Disk, a: Addrs, st0: seq<int>, st: seq<int>, x: int)
    requires Freeable(st0, Blocks(d, a)) && st + [x] == st0
    ensures Once(multiset(Blocks(d, a))) && x !in Blocks(d, a) && x !in st
    ensures multiset(st0 + Blocks(d, a)) == multiset(st) + multiset{x} + multiset(Blocks(d, a))
  {
    hide Blocks;
    var bs := Blocks(d, a);
    assert multiset(st0 + bs) == multiset(st) + multiset([x]) + multiset(bs);
    assert multiset(st0 + bs)[x] <= 1;
    forall y
      ensures multiset(bs)[y] <= 1
    {
      assert multiset(st0 + bs)[y] <= 1;
    }
  }

  /** The way to file block k leads to the block nb with l levels left and
      offset r. */
  ghost predicate FilePath(d: Disk, a: Addrs, k: nat, l: nat, nb: int, r: nat)
    requires k < MAXFB
  {
    OnPath(d, LevelOf(Slot(k).0), a[Slot(k).0], Slot(k).1, l, nb, r)
  }

  /** Allocating the root x of address i: blocks are conserved, except that the
      tree that hung there is dropped. */
  lemma RootConserved(d: Disk, a: Addrs, st0: seq<int>, e: Disk, st: seq<int>, i: nat, x: int)
    requires i < NADDR && Freeable(st0, Blocks(d, a)) && st + [x] == st0 && x >= 1
    requires At(e, x) == Zeroes() && DifferAt(d, e, x, x)
    ensures multiset(st + Blocks(e, a[i := x])) + multiset(Sub(d, LevelOf(i), a[i])) == multiset(st0 + Blocks(d, a))
    ensures Freeable(st, Blocks(e, a[i := x]))
    ensures x !in Blocks(d, a) && x in st0
    ensures forall j: nat :: j < MAXFB ==>
      Lookup(e, a[i := x], j) == if Slot(j).0 != i then Lookup(d, a, j) else if LevelOf(i) == 0 then x else 0
  {
    hide Blocks, Lookup, Sub, Slot;
    FreshOutside(d, a, st0, st, x);
    NewRoot(d, e, a, i, x);
    Moved(st0, Blocks(d, a), st, Blocks(e, a[i := x]), x, multiset(Sub(d, LevelOf(i), a[i])));
    assert (st + [x])[|st|] == x;
  }

  /** Moving the top x of the free list into the blocks of a file, which may
      lose some others, conserves blocks and keeps them apart. */
  lemma Moved(st0: seq<int>, bs0: seq<int>, st: seq<int>, bs: seq<int>, x: int, lost: multiset<int>)
    requires Freeable(st0, bs0) && st + [x] == st0 && x >= 1
    requires multiset(bs) + lost == multiset(bs0) + multiset{x}
    ensures Freeable(st, bs) && multiset(st + bs) + lost == multiset(st0 + bs0)
  {
    assert multiset(st0 + bs0) == multiset(st) + multiset([x]) + multiset(bs0);
    assert multiset(st + bs) == multiset(st) + multiset(bs);
    assert multiset([x]) == multiset{x};
    forall y
      ensures (multiset(st + bs) + lost)[y] == multiset(st0 + bs0)[y]
    {
      assert (multiset(bs) + lost)[y] == (multiset(bs0) + multiset{x})[y];
    }
    forall y
      ensures multiset(st + bs)[y] <= 1
    {
      assert multiset(st0 + bs0)[y] <= 1;
    }
    forall b | b in bs
      ensures b >= 1
    {
      assert (multiset(bs) + lost)[b] >= 1;
      assert (multiset(bs0) + multiset{x})[b] >= 1;
      if b != x {
        assert multiset(bs0)[b] >= 1;
        assert b in bs0;
      }
    }
  }

  lemma DirectRoot(d: Disk, a: Addrs, k: nat)
    requires k < NADDR - 3
    ensures multiset(Sub(d, LevelOf(k), a[k])) == Overwritten(a, k) && LevelOf(k) == 0
    ensures forall j: nat :: j < MAXFB ==> (Slot(j).0 == k <==> j == k)
  {
  }

  lemma DirectMapped(d: Disk, a: Addrs, st0: seq<int>, e: Disk, st: seq<int>, k: nat, x: int)
    requires k < NADDR - 3 && Freeable(st0, Blocks(d, a)) && st + [x] == st0 && x >= 1
    requires At(e, x) == Zeroes() && DifferAt(d, e, x, x)
    ensures Mapped(d, a, st0, e, a[k := x], st, k, x)
  {
    hide Blocks, Lookup, Freeable;
    RootConserved(d, a, st0, e, st, k, x);
    DirectRoot(d, a, k);
    forall j: nat | j < MAXFB && j != k && Lookup(d, a, j) != 0
      ensures At(e, Lookup(d, a, j)) == At(d, Lookup(d, a, j))
    {
      DataBlock(d, a, j);
    }
    assert Slot(k).0 == k && k < MAXFB;
    assert Lookup(e, a[k := x], k) == x;
    assert Grown(d, a, st0, e, a[k := x], st, k);
  }

  lemma GrownNothing(d: Disk, a: Addrs, st: seq<int>, k: nat)
    requires NADDR - 3 <= k < MAXFB && Freeable(st, Blocks(d, a))
    ensures Grown(d, a, st, d, a, st, k)
    ensures a[Slot(k).0] == 0 ==> Needed(d, a, k) >= 1
  {
    hide Blocks, Lookup, Freeable;
  }

  lemma GrownRoot(d: Disk, a: Addrs, st0: seq<int>, e: Disk, st: seq<int>, k: nat, x: int)
    requires NADDR - 3 <= k < MAXFB && Freeable(st0, Blocks(d, a)) && st + [x] == st0 && x >= 1
    requires At(e, x) == Zeroes() && DifferAt(d, e, x, x) && a[Slot(k).0] == 0
    ensures Grown(d, a, st0, e, a[Slot(k).0 := x], st, k)
    ensures FilePath(e, a[Slot(k).0 := x], k, LevelOf(Slot(k).0), x, Slot(k).1)
    ensures Needed(d, a, k) == 1 + Missing(e, LevelOf(Slot(k).0), x, Slot(k).1)
  {
    hide Blocks, Freeable;
    var i := Slot(k).0;
    RootConserved(d, a, st0, e, st, i, x);
    HoleIsEmpty(d, LevelOf(i));
    MissingBelow(e, LevelOf(i), x, Slot(k).1);
    forall j: nat | j < MAXFB && j != k && Lookup(d, a, j) != 0
      ensures At(e, Lookup(d, a, j)) == At(d, Lookup(d, a, j))
    {
      DataBlock(d, a, j);
    }
  }

  lemma RootPath(d: Disk, a: Addrs, k: nat)
    requires NADDR - 3 <= k < MAXFB && a[Slot(k).0] != 0
    ensures FilePath(d, a, k, LevelOf(Slot(k).0), a[Slot(k).0], Slot(k).1)
  {
  }

  /** An indirect block on the way is a real block, and in use. */
  lemma PathNode(d0: Disk, a0: Addrs, st0: seq<int>, d: Disk, a: Addrs, st: seq<int>, k: nat, l: nat, nb: int, r: nat)
    requires k < MAXFB && Grown(d0, a0, st0, d, a, st, k)
    requires 1 <= l && r < Pow(l) && FilePath(d, a, k, l, nb, r)
    ensures nb >= 1 && nb !in st && Freeable(st, Blocks(d, a))
  {
    hide Blocks, Lookup, Slot, Pow;
    PathInTree(d, LevelOf(Slot(k).0), a[Slot(k).0], Slot(k).1, l, nb, r);
    TreeInFile(d, a, Slot(k).0, nb);
    UsedNotFree(st, Blocks(d, a), nb);
  }

  lemma UsedNotFree(st: seq<int>, bs: seq<int>, b: int)
    requires Freeable(st, bs) && b in bs
    ensures b !in st && b >= 1
  {
    assert multiset(st + bs)[b] <= 1;
    assert multiset(bs)[b] >= 1;
  }

  /** The fetch through index i of block nb gave x. */
  ghost predicate Fetched(d: Disk, st: seq<int>, e: Disk, now: seq<int>, nb: int, i: nat, x: int) {
    if i < NINDIR && At(d, nb)[i] != 0 then x == At(d, nb)[i] && d == e && st == now
    else x >= 1 && now + [x] == st && Grafted(d, e, nb, i, x)
  }

  lemma GrownFetched(d0: Disk, a0: Addrs, st0: seq<int>, d: Disk, a: Addrs, st: seq<int>, e: Disk, now: seq<int>,
                     k: nat, l: nat, nb: int, r: nat, x: int)
    requires NADDR - 3 <= k < MAXFB && Grown(d0, a0, st0, d, a, st, k)
    requires 1 <= l && r < Pow(l) && FilePath(d, a, k, l, nb, r) && Fetched(d, st, e, now, nb, Digit(r, l), x)
    ensures Grown(d0, a0, st0, e, a, now, k)
  {
    hide Once, Freeable, Look, Slot, FilePath, Grown, Pow, Digit, Blocks, Grafted;
    if At(d, nb)[Digit(r, l)] == 0 {
      GrownGraft(d0, a0, st0, d, a, st, e, now, k, l, nb, r, x);
    }
  }

  lemma PathFetched(d: Disk, a: Addrs, st: seq<int>, e: Disk, now: seq<int>, k: nat, l: nat, nb: int, r: nat, x: int)
    requires k < MAXFB && Freeable(st, Blocks(d, a))
    requires 1 <= l && r < Pow(l) && FilePath(d, a, k, l, nb, r) && Fetched(d, st, e, now, nb, Digit(r, l), x)
    ensures FilePath(e, a, k, l - 1, x, DigitRest(r, l))
  {
    hide Once, Freeable, Look, Slot, FilePath, Pow, Digit, DigitRest, Blocks, Grafted;
    if At(d, nb)[Digit(r, l)] != 0 {
      PathStep(d, a, k, l, nb, r);
    } else {
      assert (now + [x])[|now|] == x;
      GraftStep(d, e, a, st, k, l, nb, r, x);
    }
  }

  /** Each fetch that finds nothing brings the end one allocation nearer. */
  lemma MissingFetched(d: Disk, st: seq<int>, e: Disk, now: seq<int>, l: nat, nb: int, r: nat, x: int)
    requires 1 <= l && r < Pow(l) && nb != 0 && Fetched(d, st, e, now, nb, Digit(r, l), x)
    ensures Missing(d, l, nb, r) - |st| == Missing(e, l - 1, x, DigitRest(r, l)) - |now|
  {
    hide Pow, Digit, DigitRest;
    if At(d, nb)[Digit(r, l)] == 0 {
      MissingBelow(e, l - 1, x, DigitRest(r, l));
    }
  }

  lemma MissingNode(d: Disk, l: nat, nb: int, r: nat)
    requires 1 <= l && r < Pow(l) && nb != 0
    ensures At(d, nb)[Digit(r, l)] == 0 ==> Missing(d, l, nb, r) >= 1
  {
    hide Pow, Digit, DigitRest;
  }

  /** The fresh block x was entered at the node nb on the way to file block k. */
  ghost predicate FileGrafted(d: Disk, e: Disk, a: Addrs, k: nat, l: nat, nb: int, r: nat, x: int) {
    && k < MAXFB && 1 <= l && r < Pow(l)
    && FilePath(d, a, k, l, nb, r)
    && Grafted(d, e, nb, Digit(r, l), x)
  }

  /** A graft keeps the file and the free list in step: the block comes off one
      and goes into the other, and only file block k can be affected. */
  lemma GrownGraft(d0: Disk, a0: Addrs, st0: seq<int>, d: Disk, a: Addrs, st: seq<int>, e: Disk, now: seq<int>,
                   k: nat, l: nat, nb: int, r: nat, x: int)
    requires Grown(d0, a0, st0, d, a, st, k) && now + [x] == st && x >= 1 && k >= NADDR - 3
    requires FileGrafted(d, e, a, k, l, nb, r, x)
    ensures Grown(d0, a0, st0, e, a, now, k)
  {
    hide Blocks, Lookup, Slot, Pow, Digit, DigitRest, FilePath;
    assert (now + [x])[|now|] == x;
    assert DifferAt(d, e, nb, x) && At(e, x) == Zeroes();
    assert k < MAXFB && 1 <= l && r < Pow(l) && FilePath(d, a, k, l, nb, r);
    hide Freeable, Once, FileGrafted, Grafted, Overwritten, DifferAt, Zeroes;
    GraftStep(d, e, a, st, k, l, nb, r, x);
    MovedWhole(st, Blocks(d, a), now, Blocks(e, a), x);
    NodeInFile(d, a, k, l, nb, r);
    UsedNotFree(st, Blocks(d, a), nb);
    GraftFrame(d0, a0, st0, d, a, st, e, k, nb, x);
    forall j: nat | j < MAXFB && j != k && Lookup(d0, a0, j) != 0
      ensures At(e, Lookup(d0, a0, j)) == At(d0, Lookup(d0, a0, j))
    {
      GraftKeeps(d, e, a, st, k, l, nb, r, x, j);
    }
  }

  /** Blocks outside the file and the free list are left alone. */
  lemma GraftFrame(d0: Disk, a0: Addrs, st0: seq<int>, d: Disk, a: Addrs, st: seq<int>, e: Disk, k: nat, nb: int,
                   x: int)
    requires Grown(d0, a0, st0, d, a, st, k) && x in st && nb in Blocks(d, a) && DifferAt(d, e, nb, x)
    ensures forall b :: b !in st0 && b !in Blocks(d0, a0) ==> At(e, b) == At(d0, b)
  {
    hide Blocks, Lookup, Freeable;
    Conserved(st0, Blocks(d0, a0), st, Blocks(d, a), nb, Overwritten(a0, k));
  }

  /** Nothing is lost. */
  lemma MovedWhole(st0: seq<int>, bs0: seq<int>, st: seq<int>, bs: seq<int>, x: int)
    requires Freeable(st0, bs0) && st + [x] == st0 && x >= 1 && multiset(bs) == multiset(bs0) + multiset{x}
    ensures Freeable(st, bs) && multiset(st + bs) == multiset(st0 + bs0)
  {
    hide Freeable;
    var none: multiset<int> := multiset{};
    assert multiset(bs) + none == multiset(bs0) + multiset{x};
    Moved(st0, bs0, st, bs, x, none);
    assert multiset(st + bs) + none == multiset(st + bs);
  }

  /** The other data blocks keep their contents. */
  lemma GraftKeeps(d: Disk, e: Disk, a: Addrs, st: seq<int>, k: nat, l: nat, nb: int, r: nat, x: int, j: nat)
    requires j < MAXFB && Lookup(d, a, j) != 0 && Freeable(st, Blocks(d, a)) && x in st
    requires FileGrafted(d, e, a, k, l, nb, r, x) && DifferAt(d, e, nb, x)
    ensures At(e, Lookup(d, a, j)) == At(d, Lookup(d, a, j))
  {
    hide Blocks, Lookup, Slot, Pow, Digit, DigitRest, FilePath, Freeable, Grafted;
    OnceInFile(st, Blocks(d, a));
    DataBlock(d, a, j);
    DataNotNode(d, a, j, k, l, nb, r);
  }

  lemma OnceInFile(st: seq<int>, bs: seq<int>)
    requires Freeable(st, bs)
    ensures Once(multiset(bs)) && forall b :: b in st ==> b !in bs
  {
    forall x
      ensures multiset(bs)[x] <= 1 && (x in st ==> x !in bs)
    {
      assert multiset(st + bs)[x] <= 1;
    }
  }

  lemma NodeInFile(d: Disk, a: Addrs, k: nat, l: nat, nb: int, r: nat)
    requires k < MAXFB && 1 <= l && r < Pow(l) && FilePath(d, a, k, l, nb, r)
    ensures nb in Blocks(d, a)
    ensures At(d, nb)[Digit(r, l)] == 0 ==> Lookup(d, a, k) == 0
  {
    hide Blocks, Slot, Pow, Digit, DigitRest;
    PathInTree(d, LevelOf(Slot(k).0), a[Slot(k).0], Slot(k).1, l, nb, r);
    TreeInFile(d, a, Slot(k).0, nb);
  }

  lemma DataNotNode(d: Disk, a: Addrs, j: nat, k: nat, l: nat, nb: int, r: nat)
    requires j < MAXFB && k < MAXFB && 1 <= l && r < Pow(l) && FilePath(d, a, k, l, nb, r)
    requires Once(multiset(Blocks(d, a)))
    ensures Lookup(d, a, j) != nb
  {
    hide Blocks, Slot, Pow, Digit, DigitRest;
    DataNotIndirect(d, a, j, k, l, nb, r);
  }

  lemma GraftStep(d: Disk, e: Disk, a: Addrs, st: seq<int>, k: nat, l: nat, nb: int, r: nat, x: int)
    requires Freeable(st, Blocks(d, a)) && x in st
    requires FileGrafted(d, e, a, k, l, nb, r, x)
    ensures FilePath(e, a, k, l - 1, x, DigitRest(r, l))
    ensures multiset(Blocks(e, a)) == multiset(Blocks(d, a)) + multiset{x}
    ensures forall j: nat :: j < MAXFB ==> Lookup(e, a, j) == if l == 1 && j == k then x else Lookup(d, a, j)
  {
    hide Blocks, Lookup, Slot, Pow, OnPath, Digit, DigitRest, Grafted;
    var bs := Blocks(d, a);
    forall y
      ensures multiset(bs)[y] <= 1 && (y == x ==> multiset(bs)[y] == 0)
    {
      assert multiset(st + bs)[y] <= 1;
      assert x in multiset(st);
    }
    assert multiset(bs)[x] == 0 && Once(multiset(bs));
    TreeOnce(d, a, Slot(k).0);
    if x in Sub(d, LevelOf(Slot(k).0), a[Slot(k).0]) {
      TreeInFile(d, a, Slot(k).0, x);
    }
    FileGraft(d, e, a, k, l, nb, r, x);
  }

  lemma MissingBelow(e: Disk, l: nat, x: int, r: nat)
    requires x != 0 && At(e, x) == Zeroes() && r < Pow(l)
    ensures Missing(e, l, x, r) == l
  {
    if l > 0 {
      assert Zeroes()[Digit(r, l)] == 0;
    }
  }

  lemma PathStep(d: Disk, a: Addrs, k: nat, l: nat, nb: int, r: nat)
    requires k < MAXFB && 1 <= l && r < Pow(l) && FilePath(d, a, k, l, nb, r)
    requires At(d, nb)[Digit(r, l)] != 0
    ensures FilePath(d, a, k, l - 1, At(d, nb)[Digit(r, l)], DigitRest(r, l))
  {
    PathLonger(d, LevelOf(Slot(k).0), a[Slot(k).0], Slot(k).1, l, nb, r);
  }

  lemma GrownMapped(d0: Disk, a0: Addrs, st0: seq<int>, d: Disk, a: Addrs, st: seq<int>, k: nat, nb: int, r: nat)
    requires k < MAXFB && r < Pow(0) && Grown(d0, a0, st0, d, a, st, k)
    requires FilePath(d, a, k, 0, nb, r)
    ensures Mapped(d0, a0, st0, d, a, st, k, nb)
    ensures Missing(d, 0, nb, r) == 0
  {
    hide Blocks, Slot, Grown;
    PathInTree(d, LevelOf(Slot(k).0), a[Slot(k).0], Slot(k).1, 0, nb, r);
    TreeInFile(d, a, Slot(k).0, nb);
    GrownFreeable(d0, a0, st0, d, a, st, k);
    UsedNotFree(st, Blocks(d, a), nb);
  }

  lemma GrownFreeable(d0: Disk, a0: Addrs, st0: seq<int>, d: Disk, a: Addrs, st: seq<int>, k: nat)
    requires Grown(d0, a0, st0, d, a, st, k)
    ensures Freeable(st, Blocks(d, a))
  {
  }

  /** Levels of indirection of the block tloop is called on. */
  function Depth(f1: bool, f2: bool): nat {
    if !f1 then 1 else if !f2 then 2 else 3
  }

  /** The blocks bs may be freed: they are real, and neither free already nor
      listed twice. */
  ghost predicate Freeable(st: seq<int>, bs: seq<int>) {
    Once(multiset(st + bs)) && forall b :: b in bs ==> b >= 1
  }

  /** The blocks bs, and only they, went onto the free list in that order; no
      other block changed. */
  ghost predicate Freed(d: Disk, e: Disk, st: seq<int>, now: seq<int>, bs: seq<int>) {
    now == st + bs && forall b :: b !in bs ==> At(e, b) == At(d, b)
  }

  /** Of the blocks t, the blocks rest are still to be freed, and are as they
      were. */
  ghost predicate Freeing(d: Disk, e: Disk, st: seq<int>, now: seq<int>, t: seq<int>, rest: seq<int>) {
    && Freeable(st, t)
    && |rest| <= |t| && t == t[..|t| - |rest|] + rest
    && now == st + t[..|t| - |rest|]
    && forall b :: At(e, b) != At(d, b) ==> b in t[..|t| - |rest|]
  }

  lemma FreeingStart(d: Disk, st: seq<int>, t: seq<int>)
    requires Freeable(st, t)
    ensures Freeing(d, d, st, st, t, t)
  {
  }

  lemma FreeingHead(d: Disk, e: Disk, st: seq<int>, now: seq<int>, t: seq<int>, s: seq<int>, rest: seq<int>)
    requires Freeing(d, e, st, now, t, s + rest)
    ensures Freeable(now, s) && AgreeOn(d, e, s)
  {
    var done := t[..|t| - |s + rest|];
    assert st + t == st + done + s + rest;
    forall x
      ensures multiset(now + s)[x] <= 1
    {
      assert multiset(st + t)[x] <= 1;
    }
    forall b | b in s
      ensures b >= 1 && At(d, b) == At(e, b)
    {
      assert b in s + rest && b in t;
      assert multiset(st + t)[b] <= 1;
      assert multiset(s)[b] >= 1;
      assert multiset(done)[b] == 0;
    }
  }

  lemma FreeingStep(d: Disk, e: Disk, f: Disk, st: seq<int>, now: seq<int>, next: seq<int>, t: seq<int>, s: seq<int>,
                    rest: seq<int>)
    requires Freeing(d, e, st, now, t, s + rest) && Freed(e, f, now, next, s)
    ensures Freeing(d, f, st, next, t, rest)
  {
    var done := t[..|t| - |s + rest|];
    assert t == done + s + rest;
    assert t[..|t| - |rest|] == done + s;
  }

  lemma FreeingEnd(d: Disk, e: Disk, st: seq<int>, now: seq<int>, t: seq<int>)
    requires Freeing(d, e, st, now, t, [])
    ensures Freed(d, e, st, now, t)
  {
    assert t[..|t|] == t;
  }

  lemma FreeableMember(st: seq<int>, bs: seq<int>, b: int)
    requires Freeable(st, bs) && b in bs
    ensures b >= 1
  {
  }

  lemma FreeableOne(st: seq<int>, b: int)
    requires Freeable(st, [b])
    ensures b >= 1 && b !in st
  {
    assert b in [b];
    assert multiset(st + [b])[b] == multiset(st)[b] + 1;
  }

  lemma FreedOne(d: Disk, e: Disk, st: seq<int>, now: seq<int>, b: int)
    requires now == st + [b] && DifferAt(d, e, b, b)
    ensures Freed(d, e, st, now, [b])
  {
  }

  lemma FreedNone(d: Disk, e: Disk, st: seq<int>, l: nat)
    ensures Freed(e, e, st, st, Sub(d, l, 0))
  {
    assert st + [] == st;
  }

  lemma SubIsKids(d: Disk, l: nat, bn: int)
    requires bn != 0
    ensures Sub(d, l + 1, bn) == Kids(d, l, At(d, bn), NINDIR) + [bn]
  {
  }

  lemma NextAddress(d: Disk, a: Addrs, i: nat)
    requires i < NADDR
    ensures FileBlocks(d, a, i + 1) == Sub(d, LevelOf(i), a[i]) + FileBlocks(d, a, i)
  {
    hide Sub;
  }

  lemma NextKid(d: Disk, l: nat, ws: Block, i: nat, bn: int)
    requires i < NINDIR
    ensures Kids(d, l, ws, i + 1) + [bn] == Sub(d, l, ws[i]) + (Kids(d, l, ws, i) + [bn])
  {
    hide Sub;
  }

  lemma NoKids(d: Disk, l: nat, ws: Block, bn: int)
    ensures Kids(d, l, ws, 0) + [bn] == [bn] + []
  {
  }

  lemma OneBlock(d: Disk, nb: int)
    requires nb != 0
    ensures Sub(d, 0, nb) == [nb]
  {
  }

  /** The cache is write-through, and no block is held in two slots.  Slots
      start out claiming to hold block 0, which is never read through it. */
  ghost predicate Coherent(slots: seq<CacheSlot>, disk: Disk) {
    && (forall i :: 0 <= i < |slots| && slots[i].bno >= 1 ==> slots[i].block == At(disk, slots[i].bno))
    && forall i, j :: 0 <= i < j < |slots| && slots[i].bno >= 1 ==> slots[i].bno != slots[j].bno
  }

  lemma NoBlockHeld(slots: seq<CacheSlot>, disk: Disk)
    requires forall i :: 0 <= i < |slots| ==> slots[i].bno == 0
    ensures Coherent(slots, disk)
  {
  }

  /** Only the use times differ. */
  ghost predicate SameSlots(s: seq<CacheSlot>, t: seq<CacheSlot>) {
    |s| == |t| && forall i :: 0 <= i < |s| ==> t[i].bno == s[i].bno && t[i].block == s[i].block
  }

  /** Slot m is among the first i looked at after slot start. */
  ghost predicate Visited(start: nat, i: nat, m: int) {
    (m - start - 1) % NCACHE < i
  }

  /** The address next to be allocated is the top of the stack, and it is the
      marker exactly when nothing else is left. */
  lemma ChainTop(d: Disk, nfree: int, free: seq<int>, st: seq<int>)
    requires |free| == NICFREE && Chain(d, nfree, free, st) && Stack(st)
    ensures 1 <= nfree <= NICFREE && nfree <= |st| && free[nfree - 1] == st[|st| - 1]
    ensures st[|st| - 1] == 0 <==> |st| == 1
    ensures |st| > 1 ==> st[|st| - 1] >= 1 && Stack(st[..|st| - 1]) && st[..|st| - 1] + [st[|st| - 1]] == st
    ensures |st| > 1 ==> st[|st| - 1] !in st[..|st| - 1]
  {
    assert free[nfree - 1] == free[..nfree][nfree - 1] == st[|st| - nfree..][nfree - 1];
    if |st| > 1 {
      LastOf(st);
    }
    if |st| == 1 {
      assert nfree == 1;
    }
  }

  /** Replacing any slot by a block that was in none keeps the cache coherent. */
  lemma CacheMiss(was: seq<CacheSlot>, now: seq<CacheSlot>, disk: Disk, j: nat, bno: int)
    requires Coherent(was, disk) && SameSlots(was, now) && j < |was|
    requires forall m :: 0 <= m < |was| ==> was[m].bno != bno
    ensures Coherent(now[j := CacheSlot(bno, 0, At(disk, bno))], disk)
  {
  }

  lemma CacheHit(was: seq<CacheSlot>, now: seq<CacheSlot>, disk: Disk)
    requires Coherent(was, disk) && SameSlots(was, now)
    ensures Coherent(now, disk)
  {
  }

  lemma Held(slots: seq<CacheSlot>, disk: Disk, i: nat)
    requires Coherent(slots, disk) && i < |slots| && slots[i].bno >= 1
    ensures slots[i].block == At(disk, slots[i].bno)
  {
  }

  lemma StackPush(st: seq<int>, bn: int)
    requires Stack(st) && bn >= 1 && bn !in st
    ensures Stack(st + [bn])
  {
    assert multiset(st)[bn] == 0;
  }

  /** The free list with a block on top, put into the full list or chained to it. */
  lemma ListPush(d: Disk, nfree: int, free: seq<int>, st: seq<int>, e: Disk, nfree': int, free': seq<int>, bn: int)
    requires |free| == NICFREE && Chain(d, nfree, free, st) && Stack(st) && bn >= 1 && bn !in st
    requires DifferAt(d, e, bn, bn) && free' == free[nfree % NICFREE := bn] && nfree' == nfree % NICFREE + 1
    requires nfree == NICFREE ==> DfNfree(At(e, bn)) == nfree && DfFree(At(e, bn)) == free
    ensures Chain(e, nfree', free', st + [bn]) && Stack(st + [bn])
  {
    hide Chain, Stack, DfFree, DfNfree;
    ChainTop(d, nfree, free, st);
    ChainPush(d, nfree, free, st, e, nfree', free', bn);
    StackPush(st, bn);
  }

  /** The free list after its top was taken off. */
  lemma ChainPop(d: Disk, nfree: int, free: seq<int>, st: seq<int>)
    requires |free| == NICFREE && Chain(d, nfree, free, st) && |st| > 1
    ensures if nfree > 1 then Chain(d, nfree - 1, free, st[..|st| - 1])
            else Chain(d, DfNfree(At(d, free[0])), DfFree(At(d, free[0])), st[..|st| - 1])
  {
    var s := st[..|st| - 1];
    if nfree > 1 {
      assert free[..nfree - 1] == free[..nfree][..nfree - 1] == s[|s| - (nfree - 1)..];
      assert s[..|s| - (nfree - 1)] == st[..|st| - nfree];
    }
  }
}
