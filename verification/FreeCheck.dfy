/** fsck phases 5 and 6: checking the free list of an arbitrary disk, and
    rebuilding it with interleaving. */
module FreeCheck {
  import opened Disk
  import opened FreeMake
  import opened FsckTypes
  import opened Numbers

  const MAXCYL := 500
  const STEPSIZE := 9
  const CYLSIZE := 400

  /** The blocks of [fmin, fmax) that no file uses. */
  ghost function Unused(blkmap: seq<bool>, fmin: int, fmax: int): (s: set<int>)
    requires 0 <= fmin <= fmax == |blkmap|
  {
    set b | fmin <= b < fmax && !blkmap[b]
  }

  /** The list (nfree, free) on disk d holds every block of u exactly once and
      nothing else, as the stack st shows.  A count of 0 is an empty list. */
  ghost predicate ListsAs(d: Disk, nfree: int, free: seq<int>, u: set<int>, st: seq<int>)
    requires |free| == NICFREE
  {
    if nfree == 0 then u == {} && st == [0]
    else Chain(d, nfree, free, st) && Once(multiset(st)) && forall b :: b in u <==> b in st && b != 0
  }

  ghost predicate Lists(d: Disk, nfree: int, free: seq<int>, u: set<int>)
    requires |free| == NICFREE
  {
    exists st :: ListsAs(d, nfree, free, u, st)
  }

  /** The first block the list goes on in is the one the buffer is marked as
      holding, so that the walk takes the superblock's list, which was laid over the
      buffer, for its contents. */
  predicate Reread(fbno: int, nfree: int, free: seq<int>)
    requires |free| == NICFREE
  {
    nfree != 0 && free[0] != 0 && free[0] == fbno
  }

  class Fsck {
    const fmin: int
    const fmax: int
    var disk: Disk

    // the superblock
    var nfree: int
    var free: seq<int>
    var tfree: int

    var dinfoStep: int
    var dinfoCyl: int

    // bit maps, one bit per block
    const blkmap: array<bool>
    const freemap: array<bool>

    // the buffer fileblk
    var fbno: int
    var fbuf: Block

    var fixfree: bool
    var badblk: int
    var dupblk: int
    var nFree: int
    var nBlks: int

    constructor (fmin: int, fmax: int)
      requires 1 <= fmin < fmax
      ensures Valid() && this.fmin == fmin && this.fmax == fmax && fresh(blkmap) && fresh(freemap)
    {
      this.fmin, this.fmax := fmin, fmax;
      blkmap, freemap := new bool[fmax](i => false), new bool[fmax](i => false);
      disk, nfree, free, tfree, dinfoStep, dinfoCyl := map[], 0, Zeroes()[..NICFREE], 0, 0, 0;
      fbno, fbuf, fixfree, badblk, dupblk, nFree, nBlks := -1, Zeroes(), false, 0, 0, 0, 0;
    }

    ghost predicate Valid()
      reads `free
    {
      1 <= fmin < fmax == blkmap.Length == freemap.Length && blkmap != freemap && |free| == NICFREE
    }

    /** Look at one entry of the free list. */
    method Pass5(blk: int, preen: bool, reply: bool) returns (r: Status)
      requires Valid()
      modifies `fixfree, `badblk, `dupblk, `nFree, freemap
      ensures r == Exit ==> fixfree && (OutRange(fmin, fmax, blk) || old(freemap[blk]))
      ensures r != Exit ==>
        if OutRange(fmin, fmax, blk) then
          fixfree && badblk == old(badblk) + 1 && dupblk == old(dupblk) && nFree == old(nFree) &&
          freemap[..] == old(freemap[..]) &&
          r == if badblk >= MAXBAD then Stop else Skip
        else if old(freemap[blk]) then
          fixfree && badblk == old(badblk) && dupblk == old(dupblk) + 1 && nFree == old(nFree) &&
          freemap[..] == old(freemap[..]) &&
          r == if dupblk >= DUPTBLSIZE then Stop else KeepOn
        else
          fixfree == old(fixfree) && badblk == old(badblk) && dupblk == old(dupblk) && nFree == old(nFree) + 1 &&
          freemap[..] == old(freemap[..])[blk := true] && r == KeepOn
    {
      if OutRange(fmin, fmax, blk) {
        fixfree := true;
        if preen {
          return Exit;
        }
        badblk := badblk + 1;
        if badblk >= MAXBAD {
          if !reply {
            return Exit;
          }
          return Stop;
        }
        return Skip;
      }
      if freemap[blk] {
        fixfree := true;
        dupblk := dupblk + 1;
        if dupblk >= DUPTBLSIZE {
          if !reply {
            return Exit;
          }
          return Stop;
        }
      } else {
        nFree := nFree + 1;
        freemap[blk] := true;
      }
      r := KeepOn;
    }

    /** The walk is under way: the counts agree with the blocks done, and nothing
        has gone wrong if the list is as it should be. */
    ghost predicate Walking(c: Start, done: seq<int>)
      reads `free, `fixfree, `badblk, `dupblk, `nFree, freemap
    {
      && Valid()
      && Tally(c.used, freemap[..], fmin, fmax, done, nFree, badblk, dupblk, fixfree)
      && badblk < MAXBAD && dupblk < DUPTBLSIZE
      && (c.good ==> !fixfree)
    }

    /** Look at entry ap of a free-list block while the walk is under way. */
    method Look(nf: int, fr: seq<int>, ap: int, preen: bool, reply: bool, ghost c: Start, ghost rest: seq<int>,
                ghost below: seq<int>)
      returns (r: Status)
      requires |fr| == NICFREE && 0 <= ap < nf <= NICFREE && (ap == 0 ==> fr[0] != 0)
      requires Walking(c, fr[ap + 1..nf] + below)
      requires c.good ==> Ahead(disk, fmin, fmax, c, rest, below, nf, fr)
      modifies `fixfree, `badblk, `dupblk, `nFree, freemap
      ensures |fr[ap..nf] + below| <= Limit(fmin, fmax)
      ensures r == KeepOn || r == Skip ==> Walking(c, fr[ap..nf] + below)
      ensures r == KeepOn ==> nFree + dupblk == old(nFree + dupblk) + 1
      ensures r == Skip ==> nFree + dupblk == old(nFree + dupblk)
      ensures !fixfree ==> !old(fixfree) && r == KeepOn && fmin <= fr[ap] < fmax && !c.used[fr[ap]]
      ensures r != KeepOn ==> fixfree && !c.good
    {
      hide Chain, Tally, Ahead;
      ghost var done := fr[ap + 1..nf] + below;
      assert fr[ap..nf] + below == [fr[ap]] + done;
      if c.good {
        GoodEntry(disk, fmin, fmax, c, rest, below, nf, fr, ap, freemap[..], nFree, badblk, dupblk);
      }
      TallyStep(c.used, freemap[..], fmin, fmax, done, nFree, badblk, dupblk, fixfree, fr[ap]);
      r := Pass5(fr[ap], preen, reply);
    }

    /** The entries of one free-list block but the first, from the top down. */
    method Entries(nf: int, fr: seq<int>, preen: bool, reply: bool, ghost c: Start, ghost rest: seq<int>,
                   ghost below: seq<int>)
      returns (r: Status, ghost done: seq<int>)
      requires |fr| == NICFREE && 1 <= nf <= NICFREE && Walking(c, below)
      requires c.good ==> Ahead(disk, fmin, fmax, c, rest, below, nf, fr)
      modifies `fixfree, `badblk, `dupblk, `nFree, freemap
      ensures r == KeepOn ==> done == fr[1..nf] + below && Walking(c, done)
      ensures r == KeepOn ==> nFree + dupblk >= old(nFree + dupblk)
      ensures r != KeepOn ==> fixfree && !c.good && |done| <= Limit(fmin, fmax)
      ensures !fixfree ==> !old(fixfree)
    {
      hide Chain, Tally, Ahead;
      var ap := nf - 1;
      assert fr[ap + 1..nf] + below == below;
      while ap > 0
        invariant 0 <= ap < nf && Walking(c, fr[ap + 1..nf] + below)
        invariant nFree + dupblk >= old(nFree + dupblk) && (!fixfree ==> !old(fixfree))
      {
        r := Look(nf, fr, ap, preen, reply, c, rest, below);
        if r == Stop || r == Exit {
          return r, fr[ap..nf] + below;
        }
        ap := ap - 1;
      }
      return KeepOn, fr[1..nf] + below;
    }

    /** Walk the free list from the buffer, whatever is on the disk.  done is the
        list of the blocks looked at, the latest first. */
    method FreeChk(preen: bool, reply: bool) returns (exited: bool, ghost done: seq<int>)
      requires Valid() && !fixfree && badblk == 0 && dupblk == 0 && nFree == 0
      modifies `fixfree, `badblk, `dupblk, `nFree, `fbno, `fbuf, freemap
      ensures |done| <= (fmax - fmin) + DUPTBLSIZE + MAXBAD
      ensures exited ==> fixfree
      ensures var u, n0, f0 := Unused(old(freemap[..]), fmin, fmax), DfNfree(old(fbuf)), DfFree(old(fbuf));
        !fixfree && nFree == |u| <==> Lists(disk, n0, f0, u) && !Reread(old(fbno), n0, f0)
    {
      hide Chain, Tally, Sound, ListsAs, Once, Marked, Unused, Lists, Ahead, DfNfree, DfFree, At;
      ghost var u := Unused(freemap[..], fmin, fmax);
      ghost var c := Begin(disk, freemap[..], fmin, fmax, fbno, fbuf);
      done := [];
      exited := false;
      if DfNfree(fbuf) == 0 {
        EmptyList(disk, DfNfree(fbuf), DfFree(fbuf), u);
        return;
      }
      SoundStart(disk, fmin, fmax, c);
      ghost var rest, loaded := c.st, false;
      while true
        invariant Walking(c, done)
        invariant !c.stale && !fixfree ==> Sound(disk, DfNfree(fbuf), DfFree(fbuf), c.n0, c.f0, done)
        invariant c.good ==> Ahead(disk, fmin, fmax, c, rest, done, DfNfree(fbuf), DfFree(fbuf))
        invariant loaded ==> fbuf == At(disk, fbno) && !c.stale
        invariant !loaded ==> fbno == old(fbno) && DfNfree(fbuf) == c.n0 && DfFree(fbuf) == c.f0
        decreases fmax - fmin + DUPTBLSIZE - nFree - dupblk
      {
        var nf, fr := DfNfree(fbuf), DfFree(fbuf);
        ghost var below := done;
        TallyBound(c.used, freemap[..], fmin, fmax, done, nFree, badblk, dupblk, fixfree);
        if c.good {
          ChainCount(disk, fmin, fmax, c, rest, done, nf, fr);
        }
        if nf <= 0 || nf > NICFREE {
          fixfree := true;
          return preen, done;
        }
        var r;
        r, done := Entries(nf, fr, preen, reply, c, rest, below);
        if r != KeepOn {
          return r == Exit, done;
        }
        TallyBound(c.used, freemap[..], fmin, fmax, done, nFree, badblk, dupblk, fixfree);
        if fr[0] == 0 {
          AtMarker(disk, fmin, fmax, c, rest, below, nf, fr, freemap[..], nFree, badblk, dupblk, fixfree, u);
          return;
        }
        r := Look(nf, fr, 0, preen, reply, c, rest, below);
        done := fr[0..nf] + below;
        if r != KeepOn {
          return r == Exit, done;
        }
        if fbno != fr[0] {
          fbuf := At(disk, fr[0]);
          fbno := fr[0];
          loaded := true;
        }
        TallyBound(c.used, freemap[..], fmin, fmax, done, nFree, badblk, dupblk, fixfree);
        if !c.stale && !fixfree {
          SoundNext(disk, nf, fr, c.n0, c.f0, below);
        }
        if c.good {
          rest := AheadNext(disk, fmin, fmax, c, rest, below, nf, fr);
        }
      }
    }
  
    /** Phase 5: is the free list on the disk all right?  A wrong count in the
        superblock alone is corrected when fix says so. */
    method Phase5(preen: bool, reply: bool, fix: bool) returns (exited: bool, accepted: bool)
      requires Valid() && !fixfree && nFree == 0
      requires nBlks == fmax - fmin - |Unused(blkmap[..], fmin, fmax)|
      modifies `fixfree, `badblk, `dupblk, `nFree, `fbno, `fbuf, `tfree, freemap
      ensures accepted ==> !exited
      ensures accepted <==>
        Lists(disk, nfree, free, Unused(blkmap[..], fmin, fmax)) && !Reread(old(fbno), nfree, free)
      ensures accepted && (preen || fix) ==> tfree == |Unused(blkmap[..], fmin, fmax)|
    {
      hide Lists, Unused;
      CopyMap();
      badblk, dupblk := 0, 0;
      LoadBuffer();
      ghost var done;
      exited, done := FreeChk(preen, reply);
      if !fixfree {
        if nBlks + nFree != fmax - fmin {
          fixfree := true;
        } else if nFree != tfree {
          if preen || fix {
            tfree := nFree;
          }
        }
      }
      accepted := !fixfree;
    }

    method CopyMap()
      requires Valid()
      modifies freemap
      ensures freemap[..] == blkmap[..]
    {
      var i := 0;
      while i < fmax
        invariant 0 <= i <= fmax && freemap[..i] == blkmap[..i]
      {
        freemap[i] := blkmap[i];
        i := i + 1;
      }
      assert freemap[..fmax] == freemap[..] && blkmap[..fmax] == blkmap[..];
    }

    /** Overlay the buffer with the superblock's list. */
    method LoadBuffer()
      requires Valid()
      modifies `fbuf
      ensures DfNfree(fbuf) == nfree && DfFree(fbuf) == free
    {
      var b, n := fbuf, nfree;
      b := b[0 := n];
      var i := 0;
      while i < NICFREE
        invariant 0 <= i <= NICFREE && b[0] == nfree && forall m :: 0 <= m < i ==> b[m + 1] == free[m]
      {
        var a := free[i];
        b := b[i + 1 := a];
        i := i + 1;
      }
      fbuf := b;
    }

    /** The order in which the blocks of a cylinder go onto the list. */
    method Interleave(step: nat, cyl: nat) returns (addr: array<int>)
      requires 0 < step <= cyl <= MAXCYL
      ensures fresh(addr) && addr.Length == MAXCYL && addr[..cyl] == Spread(step, cyl, 0, Slots(cyl))
    {
      hide Spread, FirstFree, Distance, Slots;
      addr := new int[MAXCYL](i => 0);
      var flg := new bool[MAXCYL](i => false);
      ghost var left, all := Slots(cyl), Spread(step, cyl, 0, Slots(cyl));
      var i := 0;
      assert addr[..0] + all == all;
      for j := 0 to cyl
        invariant 0 <= i < cyl && |left| == cyl - j && (forall v: nat :: v in left <==> v < cyl && !flg[v])
        invariant addr[..j] + Spread(step, cyl, i, left) == all
      {
        ghost var u: nat :| u in left;
        ghost var before, start := addr[..j], i;
        i := Probe(flg, i, cyl, left, u);
        SpreadStep(step, cyl, start, left, u);
        addr[j] := i + 1;
        assert addr[..j + 1] == before + [i + 1];
        flg[i] := true;
        left := left - {i};
        i := (i + step) % cyl;
      }
      SpreadNone(step, cyl, i, left);
    }

    /** The search for the next slot that is left. */
    method Probe(flg: array<bool>, start: nat, cyl: nat, ghost left: set<nat>, ghost u: nat) returns (i: nat)
      requires start < cyl <= flg.Length && u in left && forall v: nat :: v in left <==> v < cyl && !flg[v]
      ensures i == FirstFree(start, left, cyl, cyl) && i in left
    {
      i := start;
      ghost var n := cyl;
      while flg[i]
        invariant 0 <= i < cyl && Distance(i, u, cyl) < n
        invariant FirstFree(i, left, cyl, n) == FirstFree(start, left, cyl, cyl)
        decreases n
      {
        Wrap(i, cyl);
        i := (i + 1) % cyl;
        n := n - 1;
      }
    }

    /** Put one block on the list being built in the buffer. */
    method PutBack(blk: int, ghost st: seq<int>)
      requires Chain(disk, DfNfree(fbuf), DfFree(fbuf), st) && blk >= 1 && blk !in st
      modifies `disk, `fbno, `fbuf, `tfree
      ensures Chain(disk, DfNfree(fbuf), DfFree(fbuf), st + [blk])
      ensures tfree == old(tfree) + 1 && forall b :: b != blk ==> At(disk, b) == At(old(disk), b)
    {
      ghost var nf, fr := DfNfree(fbuf), DfFree(fbuf);
      ChainNonempty(disk, nf, fr, st);
      hide Chain;
      tfree := tfree + 1;
      var b := fbuf;
      if b[0] >= NICFREE {
        fbno := blk;
        disk := disk[blk := b];
        b := Zeroes();
      }
      var n := b[0];
      b := b[n + 1 := blk];
      b := b[0 := n + 1];
      fbuf := b;
      assert nf < NICFREE ==> DfFree(fbuf) == fr[nf := blk];
      ChainPush(old(disk), nf, fr, st, disk, DfNfree(fbuf), DfFree(fbuf), blk);
    }

    /** Put the unused blocks of one cylinder back. */
    method Cylinder(addr: array<int>, cyl: nat, base: int, ghost before: seq<int>) returns (ghost pushed: seq<int>)
      requires Valid() && 0 < cyl <= addr.Length && base > 0
      requires Once(multiset(addr[..cyl])) && forall a: int :: a in addr[..cyl] <==> 1 <= a <= cyl
      requires Chain(disk, DfNfree(fbuf), DfFree(fbuf), [0] + before) && tfree == |before|
      requires forall b :: b in before ==> b >= base
      modifies `disk, `fbno, `fbuf, `tfree
      ensures pushed == before + Row(addr[..cyl], base, cyl, blkmap[..], fmin)
      ensures Chain(disk, DfNfree(fbuf), DfFree(fbuf), [0] + pushed) && tfree == |pushed|
      ensures forall b :: b !in Unused(blkmap[..], fmin, fmax) ==> At(disk, b) == At(old(disk), b)
    {
      hide Chain, Unused, Row, Once, InRow, DfNfree, DfFree;
      ghost var used, sp := blkmap[..], addr[..cyl];
      pushed := before;
      RowStart(sp, base, used, fmin, before);
      var i := 0;
      while i < cyl
        invariant 0 <= i <= cyl && pushed == before + Row(sp, base, i, used, fmin)
        invariant Chain(disk, DfNfree(fbuf), DfFree(fbuf), [0] + pushed) && tfree == |pushed|
        invariant forall b :: b !in Unused(used, fmin, fmax) ==> At(disk, b) == At(old(disk), b)
      {
        var blk := base - addr[i];
        assert addr[i] == sp[i];
        RowNext(sp, base, i, used, fmin, before);
        if !OutRange(fmin, fmax, blk) && !blkmap[blk] {
          InUnused(used, fmin, fmax, blk);
          PutBack(blk, [0] + pushed);
          assert [0] + pushed + [blk] == [0] + (pushed + [blk]);
          pushed := pushed + [blk];
        }
        i := i + 1;
      }
    }

    /** Phase 6: rebuild the free list from the block map.  Every unused block
        goes onto it once, cylinder by cylinder in the interleaved order; no
        other block changes. */
    method MakeFree(cylsize: int, stepsize: int)
      requires Valid()
      modifies `disk, `nfree, `free, `tfree, `fbno, `fbuf, `dinfoStep, `dinfoCyl
      ensures Valid()
      ensures dinfoStep == Geometry(cylsize, stepsize, old(dinfoStep), old(dinfoCyl)).0
      ensures dinfoCyl == Geometry(cylsize, stepsize, old(dinfoStep), old(dinfoCyl)).1
      ensures ListsAs(disk, nfree, free, Unused(blkmap[..], fmin, fmax),
                      [0] + Sweep(Spread(dinfoStep, dinfoCyl, 0, Slots(dinfoCyl)),
                                  Roundup(fmax, dinfoCyl), blkmap[..], fmin))
      ensures tfree == |Unused(blkmap[..], fmin, fmax)|
      ensures forall b :: b !in Unused(blkmap[..], fmin, fmax) ==> At(disk, b) == At(old(disk), b)
    {
      hide Chain, ListsAs, Spread, Slots, Unused, Row, Sweep, Once, InRow, DfNfree, DfFree;
      nfree, tfree := 0, 0;
      Spacing(cylsize, stepsize);
      var step: nat, cyl: nat := dinfoStep, dinfoCyl;
      var addr := Interleave(step, cyl);
      SweepAll(addr, step, cyl);
      nfree := DfNfree(fbuf);
      free := DfFree(fbuf);
    }

    /** The spacing asked for, or that of the superblock, or the default. */
    method Spacing(cylsize: int, stepsize: int)
      modifies `dinfoStep, `dinfoCyl
      ensures dinfoStep == Geometry(cylsize, stepsize, old(dinfoStep), old(dinfoCyl)).0
      ensures dinfoCyl == Geometry(cylsize, stepsize, old(dinfoStep), old(dinfoCyl)).1
      ensures 0 < dinfoStep <= dinfoCyl <= MAXCYL
    {
      if !(cylsize == 0 || stepsize == 0) {
        dinfoStep, dinfoCyl := stepsize, cylsize;
      }
      if dinfoStep > dinfoCyl || dinfoStep <= 0 || dinfoCyl <= 0 || dinfoCyl > MAXCYL {
        dinfoStep, dinfoCyl := STEPSIZE, CYLSIZE;
      }
    }

    /** Every unused block goes onto the list, from the last cylinder to the first. */
    method SweepAll(addr: array<int>, ghost step: nat, cyl: nat)
      requires Valid() && tfree == 0 && 0 < step <= cyl <= MAXCYL && addr.Length >= cyl
      requires addr[..cyl] == Spread(step, cyl, 0, Slots(cyl))
      modifies `disk, `fbno, `fbuf, `tfree
      ensures ListsAs(disk, DfNfree(fbuf), DfFree(fbuf), Unused(blkmap[..], fmin, fmax),
                      [0] + Sweep(addr[..cyl], Roundup(fmax, cyl), blkmap[..], fmin))
      ensures tfree == |Unused(blkmap[..], fmin, fmax)|
      ensures forall b :: b !in Unused(blkmap[..], fmin, fmax) ==> At(disk, b) == At(old(disk), b)
    {
      hide Chain, ListsAs, Spread, Slots, Unused, Row, Sweep, Once, InRow, DfNfree, DfFree;
      ghost var used, sp := blkmap[..], addr[..cyl];
      var baseblk := Roundup(fmax, cyl);
      fbuf := Zeroes()[0 := 1];
      ghost var pushed: seq<int> := [];
      ghost var all := Sweep(sp, baseblk, used, fmin);
      SpreadFacts(step, cyl);
      RoundedUp(fmax, cyl);
      FreshList(disk, fbuf);
      while baseblk > 0
        invariant baseblk >= 0 && baseblk % cyl == 0 && blkmap[..] == used && addr[..cyl] == sp
        invariant pushed + Sweep(sp, baseblk, used, fmin) == all
        invariant Chain(disk, DfNfree(fbuf), DfFree(fbuf), [0] + pushed) && tfree == |pushed|
        invariant forall b :: b in pushed ==> b >= baseblk
        invariant forall b :: b !in Unused(used, fmin, fmax) ==> At(disk, b) == At(old(disk), b)
        modifies `disk, `fbno, `fbuf, `tfree
        decreases baseblk
      {
        ghost var before := pushed;
        pushed := Cylinder(addr, cyl, baseblk, before);
        RowEnd(sp, baseblk, used, fmin, before);
        Multiple(baseblk, cyl);
        baseblk := baseblk - cyl;
      }
      SweepEnd(sp, baseblk, used, fmin, pushed);
      Rebuilt(disk, DfNfree(fbuf), DfFree(fbuf), used, fmin, fmax, sp, Roundup(fmax, cyl), pushed);
    }

    /** A list that was just rebuilt passes the check, without complaint. */
    method SalvageThenCheck(cylsize: int, stepsize: int, preen: bool, reply: bool, fix: bool)
      returns (exited: bool, accepted: bool)
      requires Valid() && nFree == 0
      requires nBlks == fmax - fmin - |Unused(blkmap[..], fmin, fmax)|
      modifies `disk, `nfree, `free, `tfree, `fbno, `fbuf, `dinfoStep, `dinfoCyl, `fixfree, `badblk, `dupblk, `nFree,
        freemap
      ensures accepted && !exited
    {
      hide Chain, ListsAs, Spread, Slots, Unused, Row, Sweep, Once;
      MakeFree(cylsize, stepsize);
      fixfree, fbno := false, -1;          // the next run starts with no block cached
      RealUnused(blkmap[..], fmin, fmax);
      if nfree != 0 && free[0] != 0 {
        ListsFirst(disk, nfree, free, Unused(blkmap[..], fmin, fmax));
      }
      exited, accepted := Phase5(preen, reply, fix);
    }
  }

  /** The spacing used: the one asked for, or the superblock's, or the default. */
  function Geometry(cylsize: int, stepsize: int, dstep: int, dcyl: int): (g: (nat, nat))
    ensures 0 < g.0 <= g.1 <= MAXCYL
    ensures cylsize != 0 && stepsize != 0 && 0 < stepsize <= cylsize <= 500 ==> g.0 == stepsize && g.1 == cylsize
    ensures cylsize != 0 && stepsize != 0 && !(0 < stepsize <= cylsize <= 500) ==> g == (9, 400)
    ensures (cylsize == 0 || stepsize == 0) && 0 < dstep <= dcyl <= 500 ==> g.0 == dstep && g.1 == dcyl
    ensures (cylsize == 0 || stepsize == 0) && !(0 < dstep <= dcyl <= 500) ==> g == (9, 400)
  {
    var ask := cylsize != 0 && stepsize != 0;
    var step, cyl := if ask then stepsize else dstep, if ask then cylsize else dcyl;
    if step > cyl || step <= 0 || cyl <= 0 || cyl > MAXCYL then (STEPSIZE, CYLSIZE) else (step, cyl)
  }

  lemma SpreadFacts(step: nat, cyl: nat)
    requires 0 < step <= cyl
    ensures var sp := Spread(step, cyl, 0, Slots(cyl));
      |sp| == cyl && Once(multiset(sp)) && forall a: int :: a in sp <==> 1 <= a <= cyl
  {
    hide Spread;
    var slots := Slots(cyl);
    hide Slots;
    SpreadIsPermutation(step, cyl, 0, slots);
    assert forall a: int :: Address(a, slots) <==> 1 <= a <= cyl;
  }

  lemma RealUnused(used: seq<bool>, fmin: int, fmax: int)
    requires 0 <= fmin <= fmax == |used|
    ensures forall b :: b in Unused(used, fmin, fmax) ==> b >= 0
  {
  }

  lemma ChainNonempty(d: Disk, nf: int, fr: seq<int>, st: seq<int>)
    requires |fr| == NICFREE && Chain(d, nf, fr, st)
    ensures 1 <= nf <= NICFREE
  {
  }

  lemma FreshList(d: Disk, b: Block)
    requires b == Zeroes()[0 := 1]
    ensures [0] + [] == [0] && Chain(d, DfNfree(b), DfFree(b), [0])
  {
    assert DfFree(b)[..1] == [0];
  }

  lemma RowStart(sp: seq<int>, base: int, used: seq<bool>, fmin: nat, before: seq<int>)
    ensures before == before + Row(sp, base, 0, used, fmin)
  {
    assert before + [] == before;
  }

  /** The next block of a row is put back exactly when it is unused, and it is not
      on the list yet. */
  lemma RowNext(sp: seq<int>, base: int, i: nat, used: seq<bool>, fmin: nat, before: seq<int>)
    requires i < |sp| && Once(multiset(sp)) && (forall a: int :: a in sp <==> 1 <= a <= |sp|)
    requires fmin >= 1 && forall b :: b in before ==> b >= base
    ensures var blk := base - sp[i];
      before + Row(sp, base, i + 1, used, fmin) ==
      before + Row(sp, base, i, used, fmin) + if Free(blk, used, fmin) then [blk] else []
    ensures base - sp[i] !in before + Row(sp, base, i, used, fmin)
  {
    assert sp[i] in sp;
    RowBlocks(sp, base, i, used, fmin);
    OnceApart(sp, i);
    hide Once;
  }

  lemma RowEnd(sp: seq<int>, base: int, used: seq<bool>, fmin: nat, before: seq<int>)
    requires |sp| > 0 && base > 0 && forall a: int :: a in sp <==> 1 <= a <= |sp|
    ensures before + Row(sp, base, |sp|, used, fmin) + Sweep(sp, base - |sp|, used, fmin) ==
      before + Sweep(sp, base, used, fmin)
    ensures forall b :: b in Row(sp, base, |sp|, used, fmin) ==> base - |sp| <= b < base
  {
    RowBlocks(sp, base, |sp|, used, fmin);
    assert sp[..|sp|] == sp;
    hide Row;
  }

  lemma SweepEnd(sp: seq<int>, base: int, used: seq<bool>, fmin: nat, pushed: seq<int>)
    requires base <= 0
    ensures pushed + Sweep(sp, base, used, fmin) == pushed
  {
  }

  /** A list of the swept blocks lists the unused blocks. */
  lemma Rebuilt(d: Disk, nfree: int, free: seq<int>, used: seq<bool>, fmin: int, fmax: int, sp: seq<int>, base: int,
                pushed: seq<int>)
    requires 1 <= fmin < fmax == |used| && |free| == NICFREE && Chain(d, nfree, free, [0] + pushed)
    requires |sp| > 0 && Once(multiset(sp)) && forall a: int :: a in sp <==> 1 <= a <= |sp|
    requires base >= fmax && base % |sp| == 0 && pushed == Sweep(sp, base, used, fmin)
    ensures ListsAs(d, nfree, free, Unused(used, fmin, fmax), [0] + pushed)
    ensures |pushed| == |Unused(used, fmin, fmax)|
  {
    ChainNonempty(d, nfree, free, [0] + pushed);
    SweepComplete(sp, base, used, fmin);
    hide Chain, Sweep;
    OnceSingle(0);
    OnceConcat([0], pushed);
    OnceSize(pushed, Unused(used, fmin, fmax));
  }

  lemma {:induction false} OnceSize(s: seq<int>, u: set<int>)
    requires Once(multiset(s)) && forall b :: b in u <==> b in s
    ensures |s| == |u|
    decreases |s|
  {
    if s == [] {
      assert forall b :: b in u ==> b in s;
      assert u == {};
    } else {
      LastOf(s);
      var last := s[|s| - 1];
      assert s == s[..|s| - 1] + [last];
      OnceSize(s[..|s| - 1], u - {last});
    }
  }

  /** What the walk started from: the free map, whether the buffer is marked as
      holding the next block, the list in the buffer, and the stack it denotes when
      it lists the unused blocks. */
  datatype Start = Start(used: seq<bool>, stale: bool, n0: int, f0: seq<int>, good: bool, st: seq<int>)

  ghost function Limit(fmin: int, fmax: int): int {
    (fmax - fmin) + DUPTBLSIZE + MAXBAD
  }

  ghost function Begin(d: Disk, used: seq<bool>, fmin: int, fmax: int, fbno: int, fbuf: Block): (c: Start)
    requires 0 <= fmin <= fmax == |used|
    ensures var u := Unused(used, fmin, fmax); var n0, f0 := DfNfree(fbuf), DfFree(fbuf);
      && c.used == used && c.stale == Reread(fbno, n0, f0) && c.n0 == n0 && c.f0 == f0
      && (c.good <==> !c.stale && Lists(d, n0, f0, u))
      && (c.good ==> ListsAs(d, n0, f0, u, c.st))
  {
    var u := Unused(used, fmin, fmax);
    var n0, f0 := DfNfree(fbuf), DfFree(fbuf);
    if !Reread(fbno, n0, f0) && Lists(d, n0, f0, u) then
      var st :| ListsAs(d, n0, f0, u, st);
      Start(used, false, n0, f0, true, st)
    else
      Start(used, Reread(fbno, n0, f0), n0, f0, false, [])
  }

  /** In the good case, the buffer holds what is left of the list below done. */
  ghost predicate Ahead(d: Disk, fmin: int, fmax: int, c: Start, rest: seq<int>, done: seq<int>, nf: int,
                        fr: seq<int>) {
    && 0 <= fmin <= fmax == |c.used| && |fr| == |c.f0| == NICFREE && c.n0 != 0
    && ListsAs(d, c.n0, c.f0, Unused(c.used, fmin, fmax), c.st)
    && c.st == rest + done && Chain(d, nf, fr, rest) && c.st[0] == 0
  }

  /** Blocks newly marked in the free map. */
  ghost function Marked(used: seq<bool>, now: seq<bool>, fmin: int, fmax: int): set<int>
    requires 0 <= fmin <= fmax == |used| == |now|
  {
    set b | fmin <= b < fmax && now[b] && !used[b]
  }

  /** The counters agree with the blocks looked at, and while nothing was wrong
      these are the blocks newly marked, each once. */
  ghost predicate Tally(used: seq<bool>, now: seq<bool>, fmin: int, fmax: int, done: seq<int>, nFree: int,
                        badblk: int, dupblk: int, fixfree: bool) {
    && 0 <= fmin <= fmax == |used| == |now|
    && (forall b :: 0 <= b < fmax && used[b] ==> now[b])
    && nFree == |Marked(used, now, fmin, fmax)|
    && |done| == nFree + badblk + dupblk
    && 0 <= badblk <= MAXBAD && 0 <= dupblk <= DUPTBLSIZE
    && (!fixfree ==> Once(multiset(done)) && forall b :: b in done <==> b in Marked(used, now, fmin, fmax))
  }

  /** Any list the buffer (nf, fr) starts is what is left of the list (n0, f0)
      below done. */
  ghost predicate Sound(d: Disk, nf: int, fr: seq<int>, n0: int, f0: seq<int>, done: seq<int>)
    requires |fr| == |f0| == NICFREE
  {
    forall s :: Chain(d, nf, fr, s) ==> Chain(d, n0, f0, s + done)
  }

  /** A list of one block, which holds the marker. */
  lemma OneFree(d: Disk, b: int, free: seq<int>, u: set<int>)
    requires |free| == NICFREE && free[0] == b != 0 && u == {b}
    requires DfNfree(At(d, b)) == 1 && DfFree(At(d, b))[0] == 0
    ensures Lists(d, 1, free, u)
  {
    var st := [0, b];
    var fr := DfFree(At(d, b));
    hide DfNfree, DfFree;
    assert st[..1] == [0] == fr[..1] && free[..1] == st[1..];
    assert Chain(d, 1, fr, [0]);
    assert Chain(d, 1, free, st);
    assert multiset(st) == multiset{0, b};
    assert ListsAs(d, 1, free, u, st);
  }

  /** A list that is all right but is turned down: blocks 2 to 4 of a volume are in
      use but for block 3, and the buffer is marked as holding that, as it is after a
      directory that block 3 belonged to was cleared. */
  lemma GoodButReread()
    ensures exists d: Disk, free: seq<int>, blkmap: seq<bool> ::
      && |free| == NICFREE && |blkmap| == 5
      && Lists(d, 1, free, Unused(blkmap, 2, 5)) && Reread(3, 1, free)
  {
    var block := Zeroes()[0 := 1];
    var d: Disk := map[3 := block];
    var free := Zeroes()[..NICFREE][0 := 3];
    assert DfNfree(block) == 1 && DfFree(block)[0] == 0;
    var blkmap := [true, true, true, false, true];
    assert Unused(blkmap, 2, 5) == {3};
    hide Lists, Unused, DfNfree, DfFree;
    OneFree(d, 3, free, Unused(blkmap, 2, 5));
    assert Reread(3, 1, free);
  }

  /** A good list goes on in one of the blocks it lists. */
  lemma ListsFirst(d: Disk, nfree: int, free: seq<int>, u: set<int>)
    requires |free| == NICFREE && Lists(d, nfree, free, u) && nfree != 0 && free[0] != 0
    ensures free[0] in u
  {
    var st :| ListsAs(d, nfree, free, u, st);
    assert free[0] == free[..nfree][0] == st[|st| - nfree];
  }

  lemma EmptyList(d: Disk, nfree: int, free: seq<int>, u: set<int>)
    requires |free| == NICFREE && nfree == 0
    ensures |u| == 0 <==> Lists(d, nfree, free, u)
  {
    if u == {} {
      assert ListsAs(d, nfree, free, u, [0]);
    }
  }

  lemma SoundStart(d: Disk, fmin: int, fmax: int, c: Start)
    requires 0 <= fmin <= fmax == |c.used| && |c.f0| == NICFREE && c.n0 != 0
    requires c.good ==> ListsAs(d, c.n0, c.f0, Unused(c.used, fmin, fmax), c.st)
    ensures Sound(d, c.n0, c.f0, c.n0, c.f0, [])
    ensures c.good ==> Ahead(d, fmin, fmax, c, c.st, [], c.n0, c.f0)
    ensures Tally(c.used, c.used, fmin, fmax, [], 0, 0, 0, false)
  {
    if c.good {
      MarkerBelow(d, c.n0, c.f0, c.st);
      assert c.st == c.st + [];
    }
    hide Chain;
    forall s | Chain(d, c.n0, c.f0, s)
      ensures Chain(d, c.n0, c.f0, s + [])
    {
      assert s + [] == s;
    }
    assert Marked(c.used, c.used, fmin, fmax) == {};
  }

  lemma ChainCount(d: Disk, fmin: int, fmax: int, c: Start, rest: seq<int>, done: seq<int>, nf: int, fr: seq<int>)
    requires Ahead(d, fmin, fmax, c, rest, done, nf, fr)
    ensures 1 <= nf <= NICFREE
  {
  }

  lemma InUnused(used: seq<bool>, fmin: int, fmax: int, b: int)
    requires 0 <= fmin <= b < fmax == |used| && !used[b]
    ensures b in Unused(used, fmin, fmax)
  {
  }

  /** Going on to the block the last entry names keeps the walk sound. */
  lemma SoundNext(d: Disk, nf: int, fr: seq<int>, n0: int, f0: seq<int>, below: seq<int>)
    requires |fr| == |f0| == NICFREE && 1 <= nf <= NICFREE && fr[0] != 0 && Sound(d, nf, fr, n0, f0, below)
    ensures Sound(d, DfNfree(At(d, fr[0])), DfFree(At(d, fr[0])), n0, f0, fr[0..nf] + below)
  {
    hide Chain;
    forall s | Chain(d, DfNfree(At(d, fr[0])), DfFree(At(d, fr[0])), s)
      ensures Chain(d, n0, f0, s + (fr[0..nf] + below))
    {
      ChainExtend(d, nf, fr, s);
      assert s + fr[..nf] + below == s + (fr[0..nf] + below);
    }
  }

  lemma ChainExtend(d: Disk, nf: int, fr: seq<int>, s: seq<int>)
    requires |fr| == NICFREE && 1 <= nf <= NICFREE && fr[0] != 0
    requires Chain(d, DfNfree(At(d, fr[0])), DfFree(At(d, fr[0])), s)
    ensures Chain(d, nf, fr, s + fr[..nf])
  {
    hide DfNfree, DfFree;
    var t := s + fr[..nf];
    assert t[..|t| - nf] == s && t[|t| - nf..] == fr[..nf];
  }

  lemma AheadNext(d: Disk, fmin: int, fmax: int, c: Start, rest: seq<int>, below: seq<int>, nf: int, fr: seq<int>)
    returns (next: seq<int>)
    requires Ahead(d, fmin, fmax, c, rest, below, nf, fr) && fr[0] != 0
    ensures Ahead(d, fmin, fmax, c, next, fr[0..nf] + below, DfNfree(At(d, fr[0])), DfFree(At(d, fr[0])))
  {
    AheadParts(d, fmin, fmax, c, rest, below, nf, fr);
    ChainBelow(d, nf, fr, rest);
    next := rest[..|rest| - nf];
    hide Chain, ListsAs, Unused, DfNfree, DfFree, Once;
    Regroup(next, fr, nf, below);
  }

  lemma Regroup(s: seq<int>, fr: seq<int>, nf: int, below: seq<int>)
    requires 0 <= nf <= |fr|
    ensures s + fr[..nf] + below == s + (fr[0..nf] + below)
  {
    assert fr[0..nf] == fr[..nf];
  }

  lemma ChainBelow(d: Disk, nf: int, fr: seq<int>, st: seq<int>)
    requires |fr| == NICFREE && Chain(d, nf, fr, st) && fr[0] != 0
    ensures 1 <= nf <= |st| && nf <= NICFREE && st == st[..|st| - nf] + fr[..nf]
    ensures Chain(d, DfNfree(At(d, fr[0])), DfFree(At(d, fr[0])), st[..|st| - nf])
  {
    hide DfNfree, DfFree;
  }

  /** The walk ends well, at the marker, exactly when the list was good. */
  lemma AtMarker(d: Disk, fmin: int, fmax: int, c: Start, rest: seq<int>, below: seq<int>, nf: int, fr: seq<int>,
                 now: seq<bool>, nFree: int, badblk: int, dupblk: int, fixfree: bool, u: set<int>)
    requires |fr| == |c.f0| == NICFREE && 1 <= nf <= NICFREE && fr[0] == 0 && c.n0 != 0
    requires Tally(c.used, now, fmin, fmax, fr[1..nf] + below, nFree, badblk, dupblk, fixfree)
    requires 1 <= fmin && u == Unused(c.used, fmin, fmax)
    requires !c.stale && !fixfree ==> Sound(d, nf, fr, c.n0, c.f0, below)
    requires c.good ==> Ahead(d, fmin, fmax, c, rest, below, nf, fr) && !fixfree
    ensures !fixfree && nFree == |u| && !c.stale ==> Lists(d, c.n0, c.f0, u)
    ensures c.good ==> nFree == |u|
  {
    assert 0 !in u;
    hide Chain, Sound, Tally, Marked, Unused, Ahead, ListsAs, Once;
    var done := fr[1..nf] + below;
    assert fr[..nf] + below == [0] + done;
    if !fixfree {
      TallySet(c.used, now, fmin, fmax, done, nFree, badblk, dupblk, u);
      if !c.stale && nFree == |u| {
        SoundEnd(d, nf, fr, c.n0, c.f0, below, done, u);
      }
      if c.good {
        AheadTop(d, fmin, fmax, c, rest, below, nf, fr);
        AheadEnd(d, fmin, fmax, c, rest, below, nf, fr);
      }
    }
  }

  /** Without mistakes, the blocks done are unused, and all the unused ones if
      there are as many. */
  lemma TallySet(used: seq<bool>, now: seq<bool>, fmin: int, fmax: int, done: seq<int>, nFree: int, badblk: int,
                 dupblk: int, u: set<int>)
    requires Tally(used, now, fmin, fmax, done, nFree, badblk, dupblk, false) && u == Unused(used, fmin, fmax)
    ensures Once(multiset(done)) && forall b :: b in done ==> b in u
    ensures nFree == |u| <==> (forall b :: b in u <==> b in done)
  {
    var m := Marked(used, now, fmin, fmax);
    assert m <= u;
    assert |u - m| == |u| - |m|;
    if nFree == |u| {
      assert u - m == {};
      assert u == m;
    }
    if forall b :: b in u <==> b in done {
      assert u == m;
    }
  }

  lemma SoundEnd(d: Disk, nf: int, fr: seq<int>, n0: int, f0: seq<int>, below: seq<int>, done: seq<int>, u: set<int>)
    requires |fr| == |f0| == NICFREE && 1 <= nf <= NICFREE && fr[0] == 0 && n0 != 0 && Sound(d, nf, fr, n0, f0, below)
    requires fr[..nf] + below == [0] + done && Once(multiset(done))
    requires 0 !in u && forall b :: b in u <==> b in done
    ensures ListsAs(d, n0, f0, u, [0] + done)
  {
    var st := [0] + done;
    assert Chain(d, nf, fr, fr[..nf]);
    hide Chain;
    assert Chain(d, n0, f0, st);
    forall x
      ensures multiset(st)[x] <= 1
    {
      assert multiset(st) == multiset{0} + multiset(done);
      assert multiset(done)[0] == 0;
    }
  }

  lemma AheadEnd(d: Disk, fmin: int, fmax: int, c: Start, rest: seq<int>, below: seq<int>, nf: int, fr: seq<int>)
    requires Ahead(d, fmin, fmax, c, rest, below, nf, fr) && fr[0] == 0
    ensures c.st == fr[..nf] + below
    ensures forall b :: b in c.st && b != 0 ==> b in fr[1..nf] + below
    ensures forall b :: b in fr[1..nf] + below ==> b in c.st && b != 0
  {
    AheadParts(d, fmin, fmax, c, rest, below, nf, fr);
    hide *;
    ZeroFirst(fr, nf, below, c.st);
  }

  lemma ZeroFirst(fr: seq<int>, nf: int, below: seq<int>, st: seq<int>)
    requires 1 <= nf <= |fr| && fr[0] == 0 && st == fr[..nf] + below && Once(multiset(st))
    ensures forall b :: b in fr[1..nf] + below <==> b in st && b != 0
  {
    var tail := fr[1..nf] + below;
    assert st == [0] + tail;
    assert multiset(st) == multiset{0} + multiset(tail);
    assert multiset(st)[0] <= 1;
    assert multiset(tail)[0] == 0;
  }

  lemma AheadParts(d: Disk, fmin: int, fmax: int, c: Start, rest: seq<int>, below: seq<int>, nf: int, fr: seq<int>)
    requires Ahead(d, fmin, fmax, c, rest, below, nf, fr)
    ensures 1 <= nf <= NICFREE == |fr| && Chain(d, nf, fr, rest) && c.st == rest + below && Once(multiset(c.st))
    ensures fr[0] == 0 ==> c.st == fr[..nf] + below
  {
    hide Unused;
  }

  lemma TallyBound(used: seq<bool>, now: seq<bool>, fmin: int, fmax: int, done: seq<int>, nFree: int, badblk: int,
                   dupblk: int, fixfree: bool)
    requires Tally(used, now, fmin, fmax, done, nFree, badblk, dupblk, fixfree)
    ensures nFree <= fmax - fmin && |done| == nFree + badblk + dupblk
    ensures |done| <= fmax - fmin + DUPTBLSIZE + MAXBAD
  {
    RangeSize(fmin, fmax, Marked(used, now, fmin, fmax));
  }

  /** How looking at blk changes the counts, whatever it is. */
  lemma TallyStep(used: seq<bool>, now: seq<bool>, fmin: int, fmax: int, done: seq<int>, nFree: int, badblk: int,
                  dupblk: int, fixfree: bool, blk: int)
    requires Tally(used, now, fmin, fmax, done, nFree, badblk, dupblk, fixfree)
    requires badblk < MAXBAD && dupblk < DUPTBLSIZE && fmin >= 1
    ensures |done| + 1 <= fmax - fmin + DUPTBLSIZE + MAXBAD
    ensures fmin <= blk < fmax && used[blk] ==> now[blk]
    ensures if blk < fmin || blk >= fmax
            then Tally(used, now, fmin, fmax, [blk] + done, nFree, badblk + 1, dupblk, true)
            else if now[blk] then Tally(used, now, fmin, fmax, [blk] + done, nFree, badblk, dupblk + 1, true)
            else Tally(used, now[blk := true], fmin, fmax, [blk] + done, nFree + 1, badblk, dupblk, fixfree)
  {
    RangeSize(fmin, fmax, Marked(used, now, fmin, fmax));
    if fmin <= blk < fmax && !now[blk] {
      var next := now[blk := true];
      assert Marked(used, next, fmin, fmax) == Marked(used, now, fmin, fmax) + {blk};
      if !fixfree {
        assert multiset(done)[blk] == 0;
        assert multiset([blk] + done) == multiset{blk} + multiset(done);
      }
    }
  }

  /** While the list is as it should be, its next entry is an unused block not
      met before. */
  lemma GoodEntry(d: Disk, fmin: int, fmax: int, c: Start, rest: seq<int>, below: seq<int>, nf: int, fr: seq<int>,
                  ap: int, now: seq<bool>, nFree: int, badblk: int, dupblk: int)
    requires Ahead(d, fmin, fmax, c, rest, below, nf, fr) && 0 <= ap < nf <= NICFREE && (ap == 0 ==> fr[0] != 0)
    requires Tally(c.used, now, fmin, fmax, fr[ap + 1..nf] + below, nFree, badblk, dupblk, false)
    ensures fmin <= fr[ap] < fmax && !now[fr[ap]]
  {
    AheadTop(d, fmin, fmax, c, rest, below, nf, fr);
    hide Ahead, Chain, Tally, Once, Unused, ListsAs;
    Slices(rest, nf, fr, ap, below);
    var top, b, done := rest[..|rest| - nf] + fr[..ap], fr[ap], fr[ap + 1..nf] + below;
    Between(top, b, done, c.st);
    assert b != 0 by {
      assert (top + [b] + done)[0] == 0;
    }
    TallyFresh(c.used, now, fmin, fmax, done, nFree, badblk, dupblk, b);
  }

  lemma AheadTop(d: Disk, fmin: int, fmax: int, c: Start, rest: seq<int>, below: seq<int>, nf: int, fr: seq<int>)
    requires Ahead(d, fmin, fmax, c, rest, below, nf, fr)
    ensures 1 <= nf <= |rest| && rest[|rest| - nf..] == fr[..nf] && nf <= NICFREE
    ensures Once(multiset(c.st)) && c.st == rest + below && c.st[0] == 0
    ensures forall b :: b in Unused(c.used, fmin, fmax) <==> b in c.st && b != 0
  {
  }

  lemma Slices(rest: seq<int>, nf: int, fr: seq<int>, ap: int, below: seq<int>)
    requires 0 <= ap < nf <= |rest| && nf <= |fr| && rest[|rest| - nf..] == fr[..nf]
    ensures rest + below == (rest[..|rest| - nf] + fr[..ap]) + [fr[ap]] + (fr[ap + 1..nf] + below)
  {
    assert rest == rest[..|rest| - nf] + fr[..nf];
    assert fr[..nf] == fr[..ap] + [fr[ap]] + fr[ap + 1..nf];
  }

  lemma Between(top: seq<int>, b: int, done: seq<int>, st: seq<int>)
    requires st == top + [b] + done && Once(multiset(st))
    ensures b in st && b !in done && b !in top
  {
    assert multiset(st) == multiset(top) + multiset{b} + multiset(done);
    assert multiset(st)[b] <= 1;
    assert st[|top|] == b;
  }

  lemma TallyFresh(used: seq<bool>, now: seq<bool>, fmin: int, fmax: int, done: seq<int>, nFree: int, badblk: int,
                   dupblk: int, b: int)
    requires Tally(used, now, fmin, fmax, done, nFree, badblk, dupblk, false)
    requires b in Unused(used, fmin, fmax) && b !in done
    ensures fmin <= b < fmax && !now[b]
  {
  }
}
