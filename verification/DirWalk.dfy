/** fsck phase 2: the walk down the directories. */
module DirWalk {
  import opened Disk
  import opened BlockTree
  import opened FileTree
  import opened DirGraph
  import opened FsckTypes

  /** Inodes that may still be descended into. */
  function Pending(s: seq<State>): nat {
    if s == [] then 0 else (if Open(s[0]) then 1 else 0) + Pending(s[1..])
  }

  predicate Open(s: State) {
    s == Dir || s == Clear
  }

  lemma {:induction false} PendingLess(s: seq<State>, t: seq<State>)
    requires |s| == |t| && forall i :: 0 <= i < |s| && Open(t[i]) ==> Open(s[i])
    ensures Pending(t) <= Pending(s)
    ensures forall i :: 0 <= i < |s| && Open(s[i]) && !Open(t[i]) ==> Pending(t) < Pending(s)
  {
    if s != [] {
      PendingLess(s[1..], t[1..]);
      forall i | 0 < i < |s| && Open(s[i]) && !Open(t[i])
        ensures Pending(t[1..]) < Pending(s[1..])
      {
        assert s[1..][i - 1] == s[i] && t[1..][i - 1] == t[i];
      }
    }
  }

  lemma PendingLater(v: Volume, s: Snap, t: Snap, ps: seq<Pos>, ds: seq<int>, c: multiset<int>)
    requires Walked(v, s, t, ps, ds, c)
    ensures Pending(t.state) <= Pending(s.state)
  {
    PendingLess(s.state, t.state);
  }

  /** The counts went down by c. */
  ghost predicate Counted(a: seq<int>, b: seq<int>, c: multiset<int>) {
    |a| == |b| && forall i :: 0 <= i < |a| ==> b[i] == a[i] - c[i]
  }

  class Fsck {
    var v: Volume
    var disk: Disk
    const state: array<State>
    const lncnt: array<int>

    // the buffer fileblk
    var fbno: int
    var fbuf: Block
    var dirty: bool

    var inum: int
    var filsize: int

    /** Blocks that may be written: the data blocks of directories. */
    ghost var data: set<int>

    constructor (v: Volume)
      requires v.fmin >= 0
      ensures this.v == v && disk == v.disk && !dirty && Valid() && fresh(state) && fresh(lncnt)
    {
      this.v := v;
      state, lncnt := new State[|v.inodes|](i => Unallocated), new int[|v.inodes|](i => 0);
      disk, fbno, fbuf, dirty, inum, filsize, data := v.disk, -1, Zeroes(), false, 0, 0, {};
    }

    ghost predicate Valid()
      reads `v, `disk, `fbno, `fbuf, `dirty, state
    {
      && state.Length == lncnt.Length == |v.inodes| && v.fmin >= 0
      && (fbno == -1 ==> !dirty)
      && (fbno != -1 && !dirty ==> fbuf == At(disk, fbno))
      && forall i :: 0 <= i < state.Length && state[i] == Dir ==> v.inodes[i].isDir
    }

    /** Indirect blocks are as they were before the walk. */
    ghost predicate Steady()
      reads `v, `disk, `fbno, `dirty, `data
    {
      Clean(v, data) && (dirty ==> fbno in data) && forall b :: b !in data ==> At(disk, b) == At(v.disk, b)
    }

    ghost predicate Ready()
      reads `v, `disk, `fbno, `fbuf, `dirty, `data, state
    {
      Valid() && Steady()
    }

    /** The disk with the buffered block in place, and the states. */
    ghost function Now(): Snap
      reads `disk, `fbno, `fbuf, state
    {
      Snap(if fbno == -1 then disk else disk[fbno := fbuf], state[..])
    }

    /** Bring a block into the buffer, writing back the one that is there. */
    method GetBlk(blk: int)
      requires Ready() && blk >= 0
      modifies `disk, `fbno, `fbuf, `dirty
      ensures Ready() && fbno == blk && fbuf == At(old(Now()).disk, blk)
      ensures forall b :: At(Now().disk, b) == At(old(Now()).disk, b)
    {
      if fbno == blk {
        return;
      }
      if dirty {
        disk := disk[fbno := fbuf];
      }
      dirty := false;
      fbuf := At(disk, blk);
      fbno := blk;
    }

    /** Deal with the entry found at p, which names ino; true when it is to be removed. */
    method Pass2(ino: int, ghost p: Pos) returns (alter: bool, ghost ds: seq<int>, ghost c: multiset<int>)
      requires Ready() && p.Valid() && Ino(Now(), p) == ino
      modifies `disk, `fbno, `fbuf, `dirty, `inum, `filsize, state, lncnt
      ensures Ready() && filsize == old(filsize)
      ensures Counted(old(lncnt[..]), lncnt[..], c)
      ensures !alter ==> Walked(v, old(Now()), Now(), [p], ds, c)
      ensures alter ==> Removable(v, old(Now()), p) && Now() == old(Now()) && c == multiset{} && ds == []
      decreases Pending(state[..]), 2
    {
      hide Clean, Walked, Entries, Links, Pending;
      ds, c, alter := [], multiset{}, false;
      ghost var s := Now();
      inum := ino;
      if inum == 0 {
        WalkedBad(v, s, s, p);
        return;
      }
      if inum >= |v.inodes| || inum < ROOTINO {
        alter := Reply();
        if !alter {
          WalkedBad(v, s, s, p);
        }
        return;
      }
      if state[inum] == Clear {
        alter := Reply();
        if alter {
          return;
        }
        state[inum] := if v.inodes[inum].isDir then Dir else File;
        PendingLess(s.state, state[..]);
      }
      alter, ds, c := Again(ino, p, s);
    }

    /** The entry names an inode in the volume, which is not or no longer to be
        cleared; s is what was found at first. */
    method Again(ino: int, ghost p: Pos, ghost s: Snap)
      returns (alter: bool, ghost ds: seq<int>, ghost c: multiset<int>)
      requires Ready() && p.Valid() && v.Names(ino) && inum == ino && state[ino] != Clear
      requires |s.state| == |v.inodes| && s.disk == Now().disk && Ino(s, p) == ino
      requires
        || state[..] == s.state
        || (s.state[ino] == Clear && state[..] == s.state[ino := if v.inodes[ino].isDir then Dir else File])
      modifies `disk, `fbno, `fbuf, `dirty, `inum, `filsize, state, lncnt
      ensures Ready() && filsize == old(filsize)
      ensures Counted(old(lncnt[..]), lncnt[..], c)
      ensures !alter ==> Walked(v, s, Now(), [p], ds, c)
      ensures alter ==> Removable(v, s, p) && Now() == s && c == multiset{} && ds == []
      decreases Pending(state[..]), 1
    {
      hide Clean, Walked, Entries, Links, Pending;
      ds, c, alter := [], multiset{}, false;
      match state[inum] {
        case Unallocated =>
          alter := Reply();
          if !alter {
            WalkedBad(v, s, s, p);
          }
        case File =>
          lncnt[inum] := lncnt[inum] - 1;
          c := multiset{inum};
          assert Now().state == s.state[ino := File];
          WalkedFile(v, s, Now(), p);
        case Dir =>
          lncnt[inum] := lncnt[inum] - 1;
          assert state[..][inum := File] == s.state[ino := File];
          ds, c := Descend();
          WalkedInto(v, s, Now(), p, ino, ds, c);
          ds, c := [ino] + ds, multiset{ino} + c;
      }
    }

    /** Walk over the directory inum. */
    method Descend() returns (ghost ds: seq<int>, ghost c: multiset<int>)
      requires Ready() && v.Names(inum) && state[inum] == Dir
      modifies `disk, `fbno, `fbuf, `dirty, `inum, `filsize, state, lncnt
      ensures Ready() && filsize == old(filsize)
      ensures Counted(old(lncnt[..]), lncnt[..], c)
      ensures Walked(v, old(Now()).(state := old(state[..])[old(inum) := File]), Now(), Entries(v, old(inum)), ds, c)
      decreases Pending(state[..]), 0
    {
      hide Clean, Walked, Entries, Links, Pending;
      state[inum] := File;
      assert state[..] == old(state[..])[inum := File];
      PendingLess(old(state[..]), state[..]);
      assert Open(old(state[..])[inum]) && !Open(state[..][inum]);
      var ip := v.inodes[inum];
      var savsize := filsize;
      filsize := ip.size;
      assert AllBelow(v, data, ip.addrs) by {
        CleanAt(v, data, inum);
      }
      ds, c := CkInode(ip.addrs);
      filsize := savsize;
      EntriesAre(v, old(inum));
    }

    /** Walk over the blocks of a directory, direct and indirect, until its size is
        used up. */
    method CkInode(a: Addrs) returns (ghost ds: seq<int>, ghost c: multiset<int>)
      requires Ready() && AllBelow(v, data, a)
      modifies `disk, `fbno, `fbuf, `dirty, `inum, `filsize, state, lncnt
      ensures Ready() && Counted(old(lncnt[..]), lncnt[..], c)
      ensures Walked(v, old(Now()), Now(), Listing(v, DataOf(v, a, NADDR), old(filsize)), ds, c)
      decreases Pending(state[..]), 14
    {
      hide Clean, Walked, Entries, Links, Pending, Listing, Scanned, DataOf, DataIn, Below;
      ghost var s, size := Now(), filsize;
      ds, c := [], multiset{};
      ScannedNothing(v, s, size);
      DataNone(v, a);
      var ap := 0;
      while ap < NADDR
        invariant 0 <= ap <= NADDR && Ready() && Counted(old(lncnt[..]), lncnt[..], c)
        invariant Scanned(v, s, Now(), DataOf(v, a, ap), size, filsize, KeepOn, ds, c)
      {
        ghost var t, left, next := Now(), filsize, DataIn(v, LevelOf(ap), a[ap]);
        ScannedLess(v, s, t, DataOf(v, a, ap), size, left, KeepOn, ds, c);
        var ret;
        ghost var es, e;
        ret, es, e := Child(a[ap], LevelOf(ap));
        ScannedThen(v, s, t, Now(), DataOf(v, a, ap), size, left, ds, c, next, filsize, ret, es, e);
        DataNext(v, a, ap);
        ds, c := ds + es, c + e;
        if ret == Stop {
          ghost var rest := DataRest(v, a, ap + 1, NADDR);
          ScannedStop(v, s, Now(), DataOf(v, a, ap + 1), rest, size, filsize, ds, c);
          ScannedIs(v, s, Now(), DataOf(v, a, NADDR), size, filsize, Stop, ds, c);
          return;
        }
        ap := ap + 1;
      }
      ScannedIs(v, s, Now(), DataOf(v, a, NADDR), size, filsize, KeepOn, ds, c);
    }

    /** One address: nothing, a data block, or an indirect block. */
    method Child(blk: int, lvl: nat) returns (r: Status, ghost ds: seq<int>, ghost c: multiset<int>)
      requires Ready() && Below(v, data, lvl, blk) && lvl <= 3
      modifies `disk, `fbno, `fbuf, `dirty, `inum, `filsize, state, lncnt
      ensures Ready() && Counted(old(lncnt[..]), lncnt[..], c)
      ensures Scanned(v, old(Now()), Now(), DataIn(v, lvl, blk), old(filsize), filsize, Going(r), ds, c)
      ensures r == KeepOn || r == Skip || r == Stop
      decreases Pending(state[..]), 6 + 2 * lvl
    {
      hide Clean, Walked, Entries, Links, Pending, Listing, Scanned, Below, DataIn;
      DataLeaf(v, data, lvl, blk);
      if blk == 0 {
        ds, c := [], multiset{};
        ScannedNothing(v, Now(), filsize);
        return KeepOn, ds, c;
      }
      if lvl > 0 {
        r, ds, c := IBlock(blk, lvl);
      } else {
        ghost var s, size := Now(), filsize;
        r, ds, c := DirScan(blk);
        ScannedOne(v, s, Now(), blk, size, filsize, r, ds, c);
      }
    }

    /** The addresses of an indirect block, which is read into a buffer of its own. */
    method IBlock(blk: int, ilevel: nat) returns (r: Status, ghost ds: seq<int>, ghost c: multiset<int>)
      requires Ready() && blk != 0 && 1 <= ilevel <= 3 && Below(v, data, ilevel, blk)
      modifies `disk, `fbno, `fbuf, `dirty, `inum, `filsize, state, lncnt
      ensures Ready() && Counted(old(lncnt[..]), lncnt[..], c)
      ensures Scanned(v, old(Now()), Now(), DataIn(v, ilevel, blk), old(filsize), filsize, Going(r), ds, c)
      ensures r == KeepOn || r == Skip || r == Stop
      decreases Pending(state[..]), 5 + 2 * ilevel
    {
      hide Clean, Walked, Entries, Links, Pending, Listing, Scanned, DataIn, DataKids, Below;
      ghost var s, size := Now(), filsize;
      ds, c := [], multiset{};
      ScannedNothing(v, s, size);
      DataLeaf(v, data, ilevel, blk);
      if OutRange(v.fmin, v.fmax, blk) {
        return Skip, ds, c;
      }
      var ib := At(disk, blk);
      KidsNone(v, ilevel - 1, ib);
      var ap := 0;
      while ap < NINDIR
        invariant 0 <= ap <= NINDIR && Ready() && Counted(old(lncnt[..]), lncnt[..], c)
        invariant Scanned(v, s, Now(), DataKids(v, ilevel - 1, ib, ap), size, filsize, KeepOn, ds, c)
      {
        ghost var t, left, next := Now(), filsize, DataIn(v, ilevel - 1, ib[ap]);
        ScannedLess(v, s, t, DataKids(v, ilevel - 1, ib, ap), size, left, KeepOn, ds, c);
        var n;
        ghost var es, e;
        n, es, e := Child(ib[ap], ilevel - 1);
        ScannedThen(v, s, t, Now(), DataKids(v, ilevel - 1, ib, ap), size, left, ds, c, next, filsize, n, es, e);
        KidsNext(v, ilevel - 1, ib, ap);
        ds, c := ds + es, c + e;
        if n == Stop {
          ghost var rest := KidsRest(v, ilevel - 1, ib, ap + 1, NINDIR);
          ScannedStop(v, s, Now(), DataKids(v, ilevel - 1, ib, ap + 1), rest, size, filsize, ds, c);
          return n, ds, c;
        }
        ap := ap + 1;
      }
      return KeepOn, ds, c;
    }

    /** Walk over the entries of one block.  Nested walks use the same buffer, so
        the block is fetched again for every entry. */
    method DirScan(blk: int) returns (r: Status, ghost ds: seq<int>, ghost c: multiset<int>)
      requires Ready() && (blk in data || OutRange(v.fmin, v.fmax, blk))
      modifies `disk, `fbno, `fbuf, `dirty, `inum, `filsize, state, lncnt
      ensures Ready() && Counted(old(lncnt[..]), lncnt[..], c)
      ensures Walked(v, old(Now()), Now(), Part(v, blk, old(filsize)), ds, c)
      ensures filsize == After(v, blk, old(filsize))
      ensures r == if OutRange(v.fmin, v.fmax, blk) then Skip else if filsize > 0 then KeepOn else Stop
      decreases Pending(state[..]), 4
    {
      hide Clean, Walked, Entries, Links, Pending, Listing, InBlock, Remaining, OutRange;
      ghost var s, size := Now(), filsize;
      ds, c := [], multiset{};
      WalkedNothing(v, s, s);
      if OutRange(v.fmin, v.fmax, blk) {
        filsize := filsize - BSIZE;
        return Skip, ds, c;
      }
      ghost var done: seq<Pos> := [];
      var i := 0;
      while i < NDIRECT && filsize > 0
        invariant 0 <= i <= NDIRECT && Ready() && Counted(old(lncnt[..]), lncnt[..], c)
        invariant done + InBlock(blk, filsize, i) == InBlock(blk, size, 0)
        invariant Remaining(filsize, i) == Remaining(size, 0)
        invariant Walked(v, s, Now(), done, ds, c)
        decreases NDIRECT - i
      {
        ghost var es, e;
        es, e := Scan(blk, i, s, done, ds, c);
        InBlockStep(done, blk, filsize, i);
        done, ds, c := done + [Pos(blk, i)], ds + es, c + e;
        i := i + 1;
        filsize := filsize - DIRENT;
      }
      InBlockEnd(done, blk, filsize, i);
      r := if filsize > 0 then KeepOn else Stop;
    }

    /** One entry: fetch it, deal with it, and put it back if it changed.  The
        ghost arguments are the walk that led here. */
    method Scan(blk: int, i: nat, ghost s: Snap, ghost done: seq<Pos>, ghost ds: seq<int>, ghost c: multiset<int>)
      returns (ghost es: seq<int>, ghost e: multiset<int>)
      requires Ready() && i < NDIRECT && blk in data && !OutRange(v.fmin, v.fmax, blk)
      requires Walked(v, s, Now(), done, ds, c)
      modifies `disk, `fbno, `fbuf, `dirty, `inum, `filsize, state, lncnt
      ensures Ready() && Counted(old(lncnt[..]), lncnt[..], e) && filsize == old(filsize)
      ensures Walked(v, s, Now(), done + [Pos(blk, i)], ds + es, c + e)
      decreases Pending(s.state), 3
    {
      hide Clean, Walked, Entries, Links, Pending;
      ghost var t, p := Now(), Pos(blk, i);
      PendingLater(v, s, t, done, ds, c);
      GetBlk(blk);
      ghost var u := Now();
      assert state[..] == t.state;
      WalkedNothing(v, t, u);
      WalkedThen(v, s, t, u, done, ds, c, [], [], multiset{});
      var d_ino := DIno(fbuf, i);
      var alter;
      alter, es, e := Pass2(d_ino, p);
      if alter {
        Remove(blk, i);
        WalkedBad(v, u, Now(), p);
      }
      WalkedThen(v, s, u, Now(), done + [], ds + [], c + multiset{}, [p], es, e);
      assert done + [] + [p] == done + [p] && ds + [] + es == ds + es && c + multiset{} + e == c + e;
    }

    /** Remove entry i of a block. */
    method Remove(blk: int, i: nat)
      requires Ready() && i < NDIRECT && blk in data && !OutRange(v.fmin, v.fmax, blk)
      modifies `disk, `fbno, `fbuf, `dirty
      ensures Ready() && Ino(Now(), Pos(blk, i)) == 0
      ensures forall q: Pos :: q.Valid() && q != Pos(blk, i) ==> Ino(Now(), q) == Ino(old(Now()), q)
    {
      hide Clean;
      GetBlk(blk);
      Removing(fbuf, i);
      hide DIno, Removed;
      fbuf := Removed(fbuf, i);
      dirty := true;
    }

    /** Phase 2 starts at the root.  Afterwards the directories left in state Dir
        are those that cannot be reached from the root, and every link count is
        down by the entries that name the inode in reachable directories, which
        are dirs.  If the operator agrees, a root that is a plain file is made a
        directory, and one with bad or duplicate blocks is walked as one. */
    method Phase2() returns (exited: bool, ghost dirs: seq<int>)
      requires Valid() && v.Names(ROOTINO) && Typed(v, state[..])
      requires disk == v.disk && !dirty && Apart(RootMade(v))
      modifies `v, `data, `disk, `fbno, `fbuf, `dirty, `inum, `filsize, state, lncnt
      ensures Valid()
      ensures !exited ==> v == RootMade(old(v))
      ensures !exited ==> forall d :: d in dirs <==> v.Names(d) && v.inodes[d].isDir && Reachable(v, Now(), d)
      ensures !exited ==> forall i, j :: 0 <= i < j < |dirs| ==> dirs[i] != dirs[j]
      ensures !exited ==> forall i :: ROOTINO <= i < state.Length ==>
        (state[i] == Dir <==> old(state[i]) == Dir && !Reachable(v, Now(), i))
      ensures !exited ==>
        (forall d :: d in dirs ==> v.Names(d)) && Counted(old(lncnt[..]), lncnt[..], Links(v, Now(), Flat(v, dirs)))
    {
      hide Clean, Walked, Entries, Links, Pending, Reachable, Flat, Typed, Path, Edge;
      ghost var v0, s0 := v, state[..];
      dirs := [];
      exited := Root();
      if exited {
        return;
      }
      TypedRoot(v0, s0);
      ghost var s, ds, c := Now(), [], multiset{};
      ds, c := Descend();
      FromRoot(v, s, Now(), ds, c);
      dirs := [ROOTINO] + ds;
    }

    /** Is there a root directory, or is one made? */
    method Root() returns (exited: bool)
      requires Valid() && v.Names(ROOTINO) && disk == v.disk && !dirty && Apart(RootMade(v))
      modifies `v, `data, `inum, state
      ensures Valid()
      ensures !exited ==> Ready() && v == RootMade(old(v)) && inum == ROOTINO && state[ROOTINO] == Dir
      ensures !exited ==> state[..] == old(state[..])[ROOTINO := Dir]
    {
      hide Clean;
      inum := ROOTINO;
      match state[inum] {
        case Unallocated =>
          return true;
        case File =>
          var yes := Reply();
          if !yes {
            return true;
          }
          v := RootMade(v);
          state[inum] := Dir;
        case Clear =>
          var yes := Reply();
          if !yes {
            return true;
          }
          v := RootMade(v);
          state[inum] := Dir;
        case Dir =>
      }
      assert v == RootMade(old(v));
      ghost var blocks: set<int> :| Clean(v, blocks);
      data := blocks;
      exited := false;
    }
  }

  /** The entries met in block b of a directory with the given size left, and the
      size left after it. */
  function Part(v: Volume, b: int, size: int): seq<Pos> {
    if OutRange(v.fmin, v.fmax, b) then [] else InBlock(b, size, 0)
  }

  function After(v: Volume, b: int, size: int): int {
    if OutRange(v.fmin, v.fmax, b) then size - BSIZE else Remaining(size, 0)
  }

  lemma InBlockStep(done: seq<Pos>, b: int, size: int, i: nat)
    requires i < NDIRECT && size > 0
    ensures done + InBlock(b, size, i) == done + [Pos(b, i)] + InBlock(b, size - DIRENT, i + 1)
    ensures Remaining(size, i) == Remaining(size - DIRENT, i + 1)
  {
  }

  lemma InBlockEnd(done: seq<Pos>, b: int, size: int, i: nat)
    requires i <= NDIRECT && (i == NDIRECT || size <= 0)
    ensures done + InBlock(b, size, i) == done && Remaining(size, i) == size
  {
  }

  lemma EntriesAre(v: Volume, ino: int)
    requires v.Names(ino)
    ensures Entries(v, ino) == Listing(v, DataOf(v, v.inodes[ino].addrs, NADDR), v.inodes[ino].size)
  {
  }

  /** The size is used up within that block, */
  predicate Stops(v: Volume, b: int, size: int) {
    !OutRange(v.fmin, v.fmax, b) && Remaining(size, 0) <= 0
  }

  /** or within those. */
  predicate Stopped(v: Volume, blocks: seq<int>, size: int) {
    blocks != [] && (Stops(v, blocks[0], size) || Stopped(v, blocks[1..], After(v, blocks[0], size)))
  }

  function Left(v: Volume, blocks: seq<int>, size: int): int {
    if blocks == [] then size
    else if Stops(v, blocks[0], size) then After(v, blocks[0], size)
    else Left(v, blocks[1..], After(v, blocks[0], size))
  }

  lemma {:induction false} ListingThen(v: Volume, xs: seq<int>, ys: seq<int>, size: int)
    ensures Stopped(v, xs, size) ==> Listing(v, xs + ys, size) == Listing(v, xs, size)
    ensures Stopped(v, xs, size) ==> Stopped(v, xs + ys, size) && Left(v, xs + ys, size) == Left(v, xs, size)
    ensures !Stopped(v, xs, size) ==>
      Listing(v, xs + ys, size) == Listing(v, xs, size) + Listing(v, ys, Left(v, xs, size))
    ensures !Stopped(v, xs, size) ==>
      Left(v, xs + ys, size) == Left(v, ys, Left(v, xs, size)) &&
      (Stopped(v, xs + ys, size) <==> Stopped(v, ys, Left(v, xs, size)))
  {
    hide InBlock, Remaining, OutRange;
    if xs == [] {
      assert xs + ys == ys;
    } else {
      assert (xs + ys)[1..] == xs[1..] + ys;
      ListingThen(v, xs[1..], ys, After(v, xs[0], size));
    }
  }

  /** The blocks xs were walked over with that size left before and after. */
  ghost predicate Scanned(v: Volume, s: Snap, t: Snap, xs: seq<int>, size: int, left: int, r: Status, ds: seq<int>,
                          c: multiset<int>) {
    && Walked(v, s, t, Listing(v, xs, size), ds, c) && left == Left(v, xs, size)
    && (r == Stop <==> Stopped(v, xs, size))
  }

  function Going(r: Status): Status { if r == Stop then Stop else KeepOn }

  lemma ScannedNothing(v: Volume, s: Snap, size: int)
    requires |s.state| == |v.inodes|
    ensures Scanned(v, s, s, [], size, size, KeepOn, [], multiset{})
  {
    WalkedNothing(v, s, s);
  }

  lemma ScannedOne(v: Volume, s: Snap, t: Snap, blk: int, size: int, left: int, r: Status, ds: seq<int>,
                   c: multiset<int>)
    requires Walked(v, s, t, Part(v, blk, size), ds, c) && left == After(v, blk, size)
    requires r == if OutRange(v.fmin, v.fmax, blk) then Skip else if left > 0 then KeepOn else Stop
    ensures Scanned(v, s, t, [blk], size, left, Going(r), ds, c)
  {
    hide Walked, InBlock, Remaining, OutRange;
    var rest := [blk][1..];
    assert rest == [];
    assert Listing(v, [blk], size) == Part(v, blk, size) + [] == Part(v, blk, size);
    assert Stopped(v, [blk], size) <==> Stops(v, blk, size);
    assert Left(v, [blk], size) == After(v, blk, size);
  }

  lemma ScannedThen(v: Volume, s: Snap, t: Snap, u: Snap, xs: seq<int>, size: int, left: int, ds: seq<int>,
                    c: multiset<int>, ys: seq<int>, left': int, r: Status, es: seq<int>, e: multiset<int>)
    requires Scanned(v, s, t, xs, size, left, KeepOn, ds, c) && Scanned(v, t, u, ys, left, left', Going(r), es, e)
    ensures Scanned(v, s, u, xs + ys, size, left', Going(r), ds + es, c + e)
  {
    hide Walked, Listing, Left, Stopped;
    ListingThen(v, xs, ys, size);
    WalkedThen(v, s, t, u, Listing(v, xs, size), ds, c, Listing(v, ys, left), es, e);
  }

  lemma ScannedStop(v: Volume, s: Snap, t: Snap, xs: seq<int>, ys: seq<int>, size: int, left: int, ds: seq<int>,
                    c: multiset<int>)
    requires Scanned(v, s, t, xs, size, left, Stop, ds, c)
    ensures Scanned(v, s, t, xs + ys, size, left, Stop, ds, c)
  {
    hide Walked, Listing, Left, Stopped;
    ListingThen(v, xs, ys, size);
  }

  lemma ScannedIs(v: Volume, s: Snap, t: Snap, xs: seq<int>, size: int, left: int, r: Status, ds: seq<int>,
                  c: multiset<int>)
    requires Scanned(v, s, t, xs, size, left, r, ds, c)
    ensures Walked(v, s, t, Listing(v, xs, size), ds, c)
  {
  }

  lemma ScannedLess(v: Volume, s: Snap, t: Snap, xs: seq<int>, size: int, left: int, r: Status, ds: seq<int>,
                    c: multiset<int>)
    requires Scanned(v, s, t, xs, size, left, r, ds, c)
    ensures Pending(t.state) <= Pending(s.state)
  {
    hide Walked, Listing;
    PendingLater(v, s, t, Listing(v, xs, size), ds, c);
  }

  lemma DataLeaf(v: Volume, data: set<int>, lvl: nat, bn: int)
    requires Below(v, data, lvl, bn)
    ensures bn == 0 ==> DataIn(v, lvl, bn) == []
    ensures bn != 0 && lvl == 0 ==> DataIn(v, lvl, bn) == [bn] && bn in data
    ensures bn != 0 && lvl > 0 && OutRange(v.fmin, v.fmax, bn) ==> DataIn(v, lvl, bn) == []
    ensures bn != 0 && lvl > 0 && !OutRange(v.fmin, v.fmax, bn) ==>
      bn !in data && DataIn(v, lvl, bn) == DataKids(v, lvl - 1, At(v.disk, bn), NINDIR) &&
      forall i :: 0 <= i < NINDIR ==> Below(v, data, lvl - 1, At(v.disk, bn)[i])
  {
    hide DataKids;
  }

  lemma KidsNone(v: Volume, lvl: nat, ws: Block)
    ensures DataKids(v, lvl, ws, 0) == []
  {
  }

  lemma KidsNext(v: Volume, lvl: nat, ws: Block, n: nat)
    requires n < NINDIR
    ensures DataKids(v, lvl, ws, n + 1) == DataKids(v, lvl, ws, n) + DataIn(v, lvl, ws[n])
  {
    hide DataIn;
  }

  lemma {:induction false} KidsRest(v: Volume, lvl: nat, ws: Block, n: nat, m: nat) returns (rest: seq<int>)
    requires n <= m <= NINDIR
    ensures DataKids(v, lvl, ws, m) == DataKids(v, lvl, ws, n) + rest
    decreases m
  {
    hide *;
    if n == m {
      rest := [];
    } else {
      var some := KidsRest(v, lvl, ws, n, m - 1);
      KidsNext(v, lvl, ws, m - 1);
      rest := some + DataIn(v, lvl, ws[m - 1]);
    }
  }

  lemma DataNone(v: Volume, a: Addrs)
    ensures DataOf(v, a, 0) == []
  {
  }

  lemma DataNext(v: Volume, a: Addrs, n: nat)
    requires n < NADDR
    ensures DataOf(v, a, n + 1) == DataOf(v, a, n) + DataIn(v, LevelOf(n), a[n])
  {
    hide DataIn;
  }

  lemma {:induction false} DataRest(v: Volume, a: Addrs, n: nat, m: nat) returns (rest: seq<int>)
    requires n <= m <= NADDR
    ensures DataOf(v, a, m) == DataOf(v, a, n) + rest
    decreases m
  {
    hide *;
    if n == m {
      rest := [];
    } else {
      var some := DataRest(v, a, n, m - 1);
      DataNext(v, a, m - 1);
      rest := some + DataIn(v, LevelOf(m - 1), a[m - 1]);
    }
  }

  lemma CleanAt(v: Volume, data: set<int>, d: int)
    requires Clean(v, data) && v.Names(d) && v.inodes[d].isDir
    ensures AllBelow(v, data, v.inodes[d].addrs)
  {
  }

  lemma Removing(b: Block, i: nat)
    requires i < NDIRECT
    ensures forall j :: 0 <= j < NDIRECT ==> DIno(Removed(b, i), j) == if j == i then 0 else DIno(b, j)
  {
    hide DIno, Removed;
    forall j | 0 <= j < NDIRECT
      ensures DIno(Removed(b, i), j) == if j == i then 0 else DIno(b, j)
    {
      RemovedIno(b, i, j);
    }
  }

  /** The volume with a directory for its root. */
  function RootMade(v: Volume): Volume
    requires v.Names(ROOTINO)
  {
    v.(inodes := v.inodes[ROOTINO := v.inodes[ROOTINO].(isDir := true)])
  }

  /** After phase 1, a directory is in state Dir or Clear. */
  ghost predicate Typed(v: Volume, state: seq<State>) {
    |state| == |v.inodes| && forall i :: 0 <= i < |state| && v.inodes[i].isDir ==> Open(state[i])
  }

  lemma TypedRoot(v: Volume, state: seq<State>)
    requires Typed(v, state) && v.Names(ROOTINO)
    ensures Typed(RootMade(v), state[ROOTINO := Dir])
  {
  }

  /** Directory a has an entry naming b. */
  ghost predicate Edge(v: Volume, t: Snap, a: int, b: int) {
    v.Names(a) && v.inodes[a].isDir && exists p: Pos :: p in Entries(v, a) && NamesIt(t, p, b)
  }

  ghost predicate Path(v: Volume, t: Snap, path: seq<int>) {
    |path| > 0 && path[0] == ROOTINO && forall k :: 0 <= k < |path| - 1 ==> Edge(v, t, path[k], path[k + 1])
  }

  /** There is a path of entries from the root to i. */
  ghost predicate Reachable(v: Volume, t: Snap, i: int) {
    exists path :: Path(v, t, path) && path[|path| - 1] == i
  }

  lemma ReachStep(v: Volume, t: Snap, a: int, b: int)
    requires Reachable(v, t, a) && Edge(v, t, a, b)
    ensures Reachable(v, t, b)
  {
    hide Edge;
    var path :| Path(v, t, path) && path[|path| - 1] == a;
    var longer := path + [b];
    assert Path(v, t, longer) && longer[|longer| - 1] == b;
  }

  /** Everything visited is reachable, */
  lemma {:induction false} VisitedReachable(v: Volume, s: Snap, t: Snap, ds: seq<int>, k: nat)
    requires v.Names(ROOTINO) && v.inodes[ROOTINO].isDir && Visited(v, s, t, ds) && k < |ds|
    requires forall m :: 0 <= m < |ds| ==> NamedBefore(v, t, Entries(v, ROOTINO), ds, m)
    ensures Reachable(v, t, ds[k])
    decreases k
  {
    hide Reachable, Entries;
    assert NamedBefore(v, t, Entries(v, ROOTINO), ds, k);
    var p: Pos :| NamesIt(t, p, ds[k]) && (p in Entries(v, ROOTINO) || ListedIn(v, p, ds[..k]));
    if p in Entries(v, ROOTINO) {
      RootReachable(v, t);
      ReachStep(v, t, ROOTINO, ds[k]);
    } else {
      var d :| d in ds[..k] && v.Names(d) && p in Entries(v, d);
      var m :| 0 <= m < |ds[..k]| && ds[..k][m] == d;
      VisitedReachable(v, s, t, ds, m);
      ReachStep(v, t, d, ds[k]);
    }
  }

  lemma RootReachable(v: Volume, t: Snap)
    ensures Reachable(v, t, ROOTINO)
  {
    assert Path(v, t, [ROOTINO]);
  }

  /** and every directory on a path from the root is visited. */
  lemma {:induction false} PathVisited(v: Volume, s: Snap, s0: Snap, t: Snap, ds: seq<int>, path: seq<int>, k: nat)
    requires |s.state| == |v.inodes| && v.Names(ROOTINO) && Typed(v, s.state)
    requires s0 == s.(state := s.state[ROOTINO := File])
    requires Later(v, s0, t) && Visited(v, s0, t, ds) && AllSettled(v, t, Entries(v, ROOTINO))
    requires AllSettled(v, t, Flat(v, ds))
    requires Path(v, t, path) && k < |path| && v.Names(path[k]) && v.inodes[path[k]].isDir
    ensures path[k] == ROOTINO || path[k] in ds
    decreases k
  {
    hide Entries, Flat, Later;
    if k > 0 {
      var a, b := path[k - 1], path[k];
      assert Edge(v, t, a, b);
      PathVisited(v, s, s0, t, ds, path, k - 1);
      var p: Pos :| p in Entries(v, a) && NamesIt(t, p, b);
      assert Settled(v, t, p) by {
        if a != ROOTINO {
          FlatListed(v, ds, p);
          assert ListedIn(v, p, ds);
        }
      }
      NotUnallocated(v, s0, t, b);
    }
  }

  lemma NotUnallocated(v: Volume, s: Snap, t: Snap, b: int)
    requires Later(v, s, t) && v.Names(b) && s.state[b] != Unallocated
    ensures t.state[b] != Unallocated
  {
  }

  lemma FromRoot(v: Volume, s: Snap, t: Snap, ds: seq<int>, c: multiset<int>)
    requires |s.state| == |v.inodes| && v.Names(ROOTINO) && v.inodes[ROOTINO].isDir && Typed(v, s.state)
    requires forall i :: 0 <= i < |s.state| && s.state[i] == Dir ==> v.inodes[i].isDir
    requires Walked(v, s.(state := s.state[ROOTINO := File]), t, Entries(v, ROOTINO), ds, c)
    ensures |t.state| == |s.state|
    ensures forall d :: d in [ROOTINO] + ds <==> v.Names(d) && v.inodes[d].isDir && Reachable(v, t, d)
    ensures forall i, j :: 0 <= i < j < |[ROOTINO] + ds| ==> ([ROOTINO] + ds)[i] != ([ROOTINO] + ds)[j]
    ensures forall i :: ROOTINO <= i < |t.state| ==> (t.state[i] == Dir <==> s.state[i] == Dir && !Reachable(v, t, i))
    ensures c == Links(v, t, Flat(v, [ROOTINO] + ds))
  {
    hide Reachable, Entries, Links, Flat, Later, AllSettled, NamedBefore, Typed;
    var s0, all := s.(state := s.state[ROOTINO := File]), [ROOTINO] + ds;
    RootNotVisited(v, s, s0, t, ds);
    forall d
      ensures d in all <==> v.Names(d) && v.inodes[d].isDir && Reachable(v, t, d)
    {
      if d in ds {
        var k :| 0 <= k < |ds| && ds[k] == d;
        VisitedReachable(v, s0, t, ds, k);
      }
      RootReachable(v, t);
      if v.Names(d) && v.inodes[d].isDir && Reachable(v, t, d) {
        ReachableVisited(v, s, s0, t, ds, d);
      }
    }
    forall i, j | 0 <= i < j < |all|
      ensures all[i] != all[j]
    {
      assert all[j] == ds[j - 1] && ds[j - 1] in ds;
      assert i > 0 ==> all[i] == ds[i - 1];
    }
    forall i | ROOTINO <= i < |t.state|
      ensures t.state[i] == Dir <==> s.state[i] == Dir && !Reachable(v, t, i)
    {
      StateOf(v, s0, t, i);
    }
    FlatCons(v, ROOTINO, ds);
    LinksConcat(v, t, Entries(v, ROOTINO), Flat(v, ds));
  }

  lemma RootNotVisited(v: Volume, s: Snap, s0: Snap, t: Snap, ds: seq<int>)
    requires |s.state| == |v.inodes| && v.Names(ROOTINO) && s0 == s.(state := s.state[ROOTINO := File])
    requires Later(v, s0, t) && Visited(v, s0, t, ds)
    ensures |t.state| == |s.state| && t.state[ROOTINO] == File && ROOTINO !in ds && forall d :: d in ds ==> v.Names(d)
  {
  }

  lemma ReachableVisited(v: Volume, s: Snap, s0: Snap, t: Snap, ds: seq<int>, d: int)
    requires |s.state| == |v.inodes| && v.Names(ROOTINO) && Typed(v, s.state)
    requires s0 == s.(state := s.state[ROOTINO := File])
    requires Later(v, s0, t) && Visited(v, s0, t, ds) && AllSettled(v, t, Entries(v, ROOTINO))
    requires AllSettled(v, t, Flat(v, ds))
    requires v.Names(d) && v.inodes[d].isDir && Reachable(v, t, d)
    ensures d == ROOTINO || d in ds
  {
    hide Entries, Flat, Later, Visited, Edge;
    var path :| Path(v, t, path) && path[|path| - 1] == d;
    PathVisited(v, s, s0, t, ds, path, |path| - 1);
  }

  lemma StateOf(v: Volume, s0: Snap, t: Snap, i: int)
    requires Later(v, s0, t) && 0 <= i < |t.state|
    ensures t.state[i] == s0.state[i] || t.state[i] == File
  {
  }
}
