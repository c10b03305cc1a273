/** fsck phase 2 on values: what a walk over directory entries has done. */
module DirGraph {
  import opened Disk
  import opened BlockTree
  import opened FileTree
  import opened FsckTypes

  const NDIRECT := 64
  const DIRENT := 16
  const BSIZE := 1024
  const ROOTINO := 2

  datatype State = Unallocated | File | Dir | Clear

  /** The inode number of entry i of a directory block: an entry is four longs, and
      the number is the low half of the first. */
  function DIno(b: Block, i: nat): (n: int)
    requires i < NDIRECT
    ensures 0 <= n < 65536
  {
    b[4 * i] % 65536
  }

  function Removed(b: Block, i: nat): Block
    requires i < NDIRECT
  {
    b[4 * i := b[4 * i] - b[4 * i] % 65536]
  }

  lemma RemovedIno(b: Block, i: nat, j: nat)
    requires i < NDIRECT && j < NDIRECT
    ensures DIno(Removed(b, i), j) == if j == i then 0 else DIno(b, j)
  {
    var x := b[4 * i];
    assert x - x % 65536 == 65536 * (x / 65536);
  }

  /** What the walk uses of an inode: its type, its size in bytes and its
      addresses. */
  datatype Inode = Inode(isDir: bool, size: int, addrs: Addrs)

  /** The volume: the range of data blocks, the inodes 0..imax, and the disk as it is
      before the walk. */
  datatype Volume = Volume(fmin: int, fmax: int, inodes: seq<Inode>, disk: Disk) {
    predicate Names(ino: int) { ROOTINO <= ino < |inodes| }
  }

  /** The data blocks below an address, in file order: an indirect block outside the
      volume is not followed. */
  function DataIn(v: Volume, lvl: nat, bn: int): seq<int>
    decreases lvl, 0
  {
    if bn == 0 then []
    else if lvl == 0 then [bn]
    else if OutRange(v.fmin, v.fmax, bn) then []
    else DataKids(v, lvl - 1, At(v.disk, bn), NINDIR)
  }

  function DataKids(v: Volume, lvl: nat, ws: Block, n: nat): seq<int>
    requires n <= NINDIR
    decreases lvl, n + 1
  {
    if n == 0 then [] else DataKids(v, lvl, ws, n - 1) + DataIn(v, lvl, ws[n - 1])
  }

  function DataOf(v: Volume, a: Addrs, n: nat): seq<int>
    requires n <= NADDR
  {
    if n == 0 then [] else DataOf(v, a, n - 1) + DataIn(v, LevelOf(n - 1), a[n - 1])
  }

  /** The data blocks below an address are among data, its indirect blocks are
      not. */
  ghost predicate Below(v: Volume, data: set<int>, lvl: nat, bn: int) {
    bn == 0 ||
    if lvl == 0 then bn in data
    else OutRange(v.fmin, v.fmax, bn) ||
         (bn !in data && forall i :: 0 <= i < NINDIR ==> Below(v, data, lvl - 1, At(v.disk, bn)[i]))
  }

  ghost predicate AllBelow(v: Volume, data: set<int>, a: Addrs) {
    forall n :: 0 <= n < NADDR ==> Below(v, data, LevelOf(n), a[n])
  }

  /** data holds the data blocks of all directories and none of their indirect
      blocks. */
  ghost predicate Clean(v: Volume, data: set<int>) {
    forall d :: v.Names(d) && v.inodes[d].isDir ==> AllBelow(v, data, v.inodes[d].addrs)
  }

  /** No block is a data block of a directory and an indirect block of one. */
  ghost predicate Apart(v: Volume) {
    exists data: set<int> :: Clean(v, data)
  }

  /** An entry: a block and an index in it. */
  datatype Pos = Pos(block: int, index: int) {
    predicate Valid() { 0 <= index < NDIRECT }
  }

  /** The entries of one block that a directory of the given remaining size has. */
  function InBlock(b: int, size: int, i: nat): (s: seq<Pos>)
    requires i <= NDIRECT
    ensures forall p :: p in s ==> p.Valid()
    decreases NDIRECT - i
  {
    if i == NDIRECT || size <= 0 then [] else [Pos(b, i)] + InBlock(b, size - DIRENT, i + 1)
  }

  /** The size that remains after that block. */
  function Remaining(size: int, i: nat): int
    requires i <= NDIRECT
    decreases NDIRECT - i
  {
    if i == NDIRECT || size <= 0 then size else Remaining(size - DIRENT, i + 1)
  }

  /** The entries of a directory: those of its blocks in order, until its size is
      used up; a block outside the volume is passed over. */
  function Listing(v: Volume, blocks: seq<int>, size: int): (s: seq<Pos>)
    ensures forall p :: p in s ==> p.Valid()
  {
    if blocks == [] then []
    else if OutRange(v.fmin, v.fmax, blocks[0]) then Listing(v, blocks[1..], size - BSIZE)
    else InBlock(blocks[0], size, 0) +
         if Remaining(size, 0) > 0 then Listing(v, blocks[1..], Remaining(size, 0)) else []
  }

  function Entries(v: Volume, ino: int): (s: seq<Pos>)
    requires v.Names(ino)
    ensures forall p :: p in s ==> p.Valid()
  {
    Listing(v, DataOf(v, v.inodes[ino].addrs, NADDR), v.inodes[ino].size)
  }

  /** p is in the n-th of the blocks, which is in the volume, and before the end of a
      directory of that size. */
  ghost predicate EntryAt(v: Volume, blocks: seq<int>, size: int, p: Pos, n: nat) {
    && n < |blocks| && p.block == blocks[n] && v.fmin <= p.block < v.fmax && 0 <= p.index < 64
    && 1024 * n + 16 * p.index < size
  }

  lemma {:induction false} InBlockHas(b: int, size: int, i: nat, p: Pos)
    requires i <= NDIRECT
    ensures p in InBlock(b, size, i) <==> p.block == b && i <= p.index < 64 && 16 * (p.index - i) < size
    decreases NDIRECT - i
  {
    if i < NDIRECT && size > 0 {
      InBlockHas(b, size - DIRENT, i + 1, p);
    }
  }

  lemma {:induction false} RemainingIs(size: int, i: nat)
    requires i <= NDIRECT
    ensures if size > 16 * (64 - i) then Remaining(size, i) == size - 16 * (64 - i) else Remaining(size, i) <= 0
    decreases NDIRECT - i
  {
    if i < NDIRECT && size > 0 {
      RemainingIs(size - DIRENT, i + 1);
    }
  }

  lemma {:induction false} ListingHas(v: Volume, blocks: seq<int>, size: int, p: Pos)
    ensures p in Listing(v, blocks, size) <==> exists n: nat :: EntryAt(v, blocks, size, p, n)
  {
    hide Remaining, InBlock;
    if blocks != [] {
      var rest, left := blocks[1..], size - 1024;
      ListingHas(v, rest, left, p);
      InBlockHas(blocks[0], size, 0, p);
      RemainingIs(size, 0);
      assert EntryAt(v, blocks, size, p, 0) <==>
        p.block == blocks[0] && v.fmin <= p.block < v.fmax && 0 <= p.index < 64 && 16 * p.index < size;
      if n: nat :| EntryAt(v, rest, left, p, n) {
        assert EntryAt(v, blocks, size, p, n + 1);
      }
      if n: nat :| EntryAt(v, blocks, size, p, n) && n > 0 {
        assert EntryAt(v, rest, left, p, n - 1);
      }
    }
  }

  /** The entries of a directory are those of its data blocks in the volume, up to its
      size. */
  lemma DirectoryHas(v: Volume, d: int, p: Pos)
    requires v.Names(d)
    ensures p in Entries(v, d) <==>
      exists n: nat :: EntryAt(v, DataOf(v, v.inodes[d].addrs, NADDR), v.inodes[d].size, p, n)
  {
    ListingHas(v, DataOf(v, v.inodes[d].addrs, NADDR), v.inodes[d].size, p);
  }

  /** All entries of the directories ds. */
  function Flat(v: Volume, ds: seq<int>): (s: seq<Pos>)
    requires forall d :: d in ds ==> v.Names(d)
    ensures forall p :: p in s ==> p.Valid()
  {
    if ds == [] then [] else Entries(v, ds[0]) + Flat(v, ds[1..])
  }

  /** The disk as the walk sees it, and the inode states. */
  datatype Snap = Snap(disk: Disk, state: seq<State>)

  function Ino(s: Snap, p: Pos): int
    requires p.Valid()
  {
    DIno(At(s.disk, p.block), p.index)
  }

  /** The entry is empty, or names nothing, or names an inode dealt with. */
  predicate Settled(v: Volume, s: Snap, p: Pos)
    requires p.Valid() && |s.state| == |v.inodes|
  {
    v.Names(Ino(s, p)) ==> s.state[Ino(s, p)] == Unallocated || s.state[Ino(s, p)] == File
  }

  /** The entry counts as a link. */
  predicate Counts(v: Volume, s: Snap, p: Pos)
    requires p.Valid() && |s.state| == |v.inodes|
  {
    v.Names(Ino(s, p)) && s.state[Ino(s, p)] != Unallocated
  }

  /** The inodes that the entries ps count for. */
  function Links(v: Volume, s: Snap, ps: seq<Pos>): multiset<int>
    requires |s.state| == |v.inodes| && forall p :: p in ps ==> p.Valid()
  {
    if ps == [] then multiset{}
    else (if Counts(v, s, ps[0]) then multiset{Ino(s, ps[0])} else multiset{}) + Links(v, s, ps[1..])
  }

  /** Time passes: allocated inodes can only become files or visited directories,
      and entries can only be removed, and only while they name no allocated
      inode or one to be cleared. */
  ghost predicate Later(v: Volume, s: Snap, t: Snap) {
    && |s.state| == |t.state| == |v.inodes|
    && (forall i :: 0 <= i < |s.state| ==>
          t.state[i] == s.state[i] || (t.state[i] == File && s.state[i] != Unallocated))
    && forall p: Pos :: p.Valid() ==> Ino(t, p) == Ino(s, p) || (Ino(t, p) == 0 && Removable(v, s, p))
  }

  /** The entry names no allocated inode, or one that is to be cleared. */
  predicate Removable(v: Volume, s: Snap, p: Pos)
    requires p.Valid() && |s.state| == |v.inodes|
  {
    v.Names(Ino(s, p)) ==> s.state[Ino(s, p)] == Unallocated || s.state[Ino(s, p)] == Clear
  }

  lemma LaterTrans(v: Volume, s: Snap, t: Snap, u: Snap)
    requires Later(v, s, t) && Later(v, t, u)
    ensures Later(v, s, u)
  {
  }

  /** What is settled stays settled and keeps counting as it did. */
  lemma SettledStays(v: Volume, s: Snap, t: Snap, p: Pos)
    requires Later(v, s, t) && p.Valid() && Settled(v, s, p)
    ensures Settled(v, t, p)
    ensures Counts(v, t, p) == Counts(v, s, p) && (Counts(v, s, p) ==> Ino(t, p) == Ino(s, p))
  {
  }

  lemma {:induction false} LinksStay(v: Volume, s: Snap, t: Snap, ps: seq<Pos>)
    requires Later(v, s, t) && forall p :: p in ps ==> p.Valid() && Settled(v, s, p)
    ensures Links(v, t, ps) == Links(v, s, ps)
  {
    if ps != [] {
      SettledStays(v, s, t, ps[0]);
      LinksStay(v, s, t, ps[1..]);
    }
  }

  lemma {:induction false} LinksConcat(v: Volume, s: Snap, ps: seq<Pos>, qs: seq<Pos>)
    requires |s.state| == |v.inodes| && forall p :: p in ps + qs ==> p.Valid()
    ensures (forall p :: p in ps ==> p.Valid()) && (forall p :: p in qs ==> p.Valid())
    ensures Links(v, s, ps + qs) == Links(v, s, ps) + Links(v, s, qs)
  {
    assert forall p :: p in ps ==> p in ps + qs;
    assert forall p :: p in qs ==> p in ps + qs;
    if ps == [] {
      assert ps + qs == qs;
    } else {
      assert (ps + qs)[1..] == ps[1..] + qs;
      LinksConcat(v, s, ps[1..], qs);
    }
  }

  /** One entry more counts for the inode whose number is in its first two bytes, if that
      is one of the volume and allocated. */
  lemma LinkMore(v: Volume, s: Snap, ps: seq<Pos>, p: Pos, i: int)
    requires |s.state| == |v.inodes| && p.Valid() && forall q :: q in ps + [p] ==> q.Valid()
    ensures forall q :: q in ps ==> q.Valid()
    ensures Links(v, s, ps + [p])[i] == Links(v, s, ps)[i] +
      if 2 <= i < |v.inodes| && At(s.disk, p.block)[4 * p.index] % 65536 == i && s.state[i] != Unallocated then 1 else 0
  {
    LinksConcat(v, s, ps, [p]);
    assert [p][1..] == [] && Links(v, s, []) == multiset{};
  }

  lemma {:induction false} FlatConcat(v: Volume, ds: seq<int>, es: seq<int>)
    requires forall d :: d in ds + es ==> v.Names(d)
    ensures (forall d :: d in ds ==> v.Names(d)) && (forall d :: d in es ==> v.Names(d))
    ensures Flat(v, ds + es) == Flat(v, ds) + Flat(v, es)
  {
    hide Entries;
    assert forall d :: d in ds ==> d in ds + es;
    assert forall d :: d in es ==> d in ds + es;
    if ds == [] {
      assert ds + es == es;
    } else {
      assert (ds + es)[1..] == ds[1..] + es;
      FlatConcat(v, ds[1..], es);
    }
  }

  /** Walking over the entries ps, from s to t, visited the directories ds: all
      entries met are settled; those that count were counted, giving c; every
      inode that became File is a file or one of ds; and each of ds is named by
      an entry met before it. */
  ghost predicate Walked(v: Volume, s: Snap, t: Snap, ps: seq<Pos>, ds: seq<int>, c: multiset<int>) {
    && Later(v, s, t)
    && (forall p :: p in ps ==> p.Valid())
    && Visited(v, s, t, ds)
    && AllSettled(v, t, ps) && AllSettled(v, t, Flat(v, ds))
    && c == Links(v, t, ps) + Links(v, t, Flat(v, ds))
    && forall k :: 0 <= k < |ds| ==> NamedBefore(v, t, ps, ds, k)
  }

  ghost predicate AllSettled(v: Volume, t: Snap, ps: seq<Pos>) {
    |t.state| == |v.inodes| && forall p :: p in ps ==> p.Valid() && Settled(v, t, p)
  }

  /** The directories ds, each once, became File, and apart from them only files
      did. */
  ghost predicate Visited(v: Volume, s: Snap, t: Snap, ds: seq<int>) {
    && |s.state| == |t.state| == |v.inodes|
    && (forall d :: d in ds ==> v.Names(d) && v.inodes[d].isDir && s.state[d] != File && t.state[d] == File)
    && (forall i, j :: 0 <= i < j < |ds| ==> ds[i] != ds[j])
    && (forall i :: 0 <= i < |t.state| && s.state[i] != File && t.state[i] == File ==> i in ds || !v.inodes[i].isDir)
  }

  /** Directory k of ds is named by one of the entries ps, or by an entry of an
      earlier directory of ds. */
  ghost predicate NamedBefore(v: Volume, t: Snap, ps: seq<Pos>, ds: seq<int>, k: nat) {
    && k < |ds|
    && exists p: Pos :: NamesIt(t, p, ds[k]) && (p in ps || ListedIn(v, p, ds[..k]))
  }

  ghost predicate NamesIt(t: Snap, p: Pos, d: int) {
    p.Valid() && Ino(t, p) == d
  }

  /** The entry p is one of the directories ds'. */
  ghost predicate ListedIn(v: Volume, p: Pos, ds: seq<int>) {
    exists d :: d in ds && v.Names(d) && p in Entries(v, d)
  }

  lemma {:induction false} FlatListed(v: Volume, ds: seq<int>, p: Pos)
    requires forall d :: d in ds ==> v.Names(d)
    ensures p in Flat(v, ds) <==> ListedIn(v, p, ds)
  {
    hide Entries;
    if ds != [] {
      FlatListed(v, ds[1..], p);
    }
  }

  /** Two walks one after the other. */
  lemma WalkedThen(v: Volume, s: Snap, t: Snap, u: Snap, ps: seq<Pos>, ds: seq<int>, c: multiset<int>,
                   qs: seq<Pos>, es: seq<int>, e: multiset<int>)
    requires Walked(v, s, t, ps, ds, c) && Walked(v, t, u, qs, es, e)
    ensures Walked(v, s, u, ps + qs, ds + es, c + e)
  {
    hide Later, Visited, AllSettled, NamedBefore, Links, Flat;
    LaterTrans(v, s, t, u);
    VisitedThen(v, s, t, u, ds, es);
    VisitedNames(v, s, t, ds);
    VisitedNames(v, t, u, es);
    FlatConcat(v, ds, es);
    LinksConcat(v, u, ps, qs);
    LinksConcat(v, u, Flat(v, ds), Flat(v, es));
    SettledThen(v, t, u, ps, qs);
    SettledThen(v, t, u, Flat(v, ds), Flat(v, es));
    forall k | 0 <= k < |ds + es|
      ensures NamedBefore(v, u, ps + qs, ds + es, k)
    {
      if k < |ds| {
        NamedFirst(v, s, t, u, ps, ds, qs, es, k);
      } else {
        NamedSecond(v, u, ps, ds, qs, es, k - |ds|);
      }
    }
  }

  lemma VisitedNames(v: Volume, s: Snap, t: Snap, ds: seq<int>)
    requires Visited(v, s, t, ds)
    ensures |s.state| == |t.state| == |v.inodes| && forall d :: d in ds ==> v.Names(d)
  {
  }

  lemma VisitedThen(v: Volume, s: Snap, t: Snap, u: Snap, ds: seq<int>, es: seq<int>)
    requires Later(v, s, t) && Later(v, t, u) && Visited(v, s, t, ds) && Visited(v, t, u, es)
    ensures Visited(v, s, u, ds + es)
  {
    forall i, j | 0 <= i < j < |ds + es|
      ensures (ds + es)[i] != (ds + es)[j]
    {
      if i < |ds| <= j {
        assert ds[i] in ds && es[j - |ds|] in es;
      }
    }
  }

  /** Settled entries count the same later. */
  lemma SettledThen(v: Volume, t: Snap, u: Snap, ps: seq<Pos>, qs: seq<Pos>)
    requires Later(v, t, u) && AllSettled(v, t, ps) && AllSettled(v, u, qs)
    ensures AllSettled(v, u, ps + qs) && Links(v, u, ps) == Links(v, t, ps)
  {
    LinksStay(v, t, u, ps);
    forall p | p in ps
      ensures Settled(v, u, p)
    {
      SettledStays(v, t, u, p);
    }
  }

  lemma NamedFirst(v: Volume, s: Snap, t: Snap, u: Snap, ps: seq<Pos>, ds: seq<int>, qs: seq<Pos>, es: seq<int>, k: nat)
    requires Visited(v, s, t, ds) && Later(v, t, u) && NamedBefore(v, t, ps, ds, k)
    ensures NamedBefore(v, u, ps + qs, ds + es, k)
  {
    hide ListedIn;
    var p :| NamesIt(t, p, ds[k]) && (p in ps || ListedIn(v, p, ds[..k]));
    assert ds[k] in ds;
    assert (ds + es)[..k] == ds[..k];
    assert p in ps ==> p in ps + qs;
    assert NamesIt(u, p, (ds + es)[k]);
  }

  lemma NamedSecond(v: Volume, u: Snap, ps: seq<Pos>, ds: seq<int>, qs: seq<Pos>, es: seq<int>, k: nat)
    requires NamedBefore(v, u, qs, es, k)
    ensures NamedBefore(v, u, ps + qs, ds + es, |ds| + k)
  {
    hide Entries;
    var p :| NamesIt(u, p, es[k]) && (p in qs || ListedIn(v, p, es[..k]));
    assert (ds + es)[..|ds| + k] == ds + es[..k];
    if p !in qs {
      var e :| e in es[..k] && v.Names(e) && p in Entries(v, e);
      assert e in ds + es[..k];
    } else {
      assert p in ps + qs;
    }
    assert NamesIt(u, p, (ds + es)[|ds| + k]);
  }

  /** Nothing but the buffering of the disk changed. */
  lemma WalkedNothing(v: Volume, s: Snap, t: Snap)
    requires |s.state| == |v.inodes| && t.state == s.state && forall b :: At(t.disk, b) == At(s.disk, b)
    ensures Walked(v, s, t, [], [], multiset{})
  {
  }

  /** An entry that leads nowhere: it is empty, or it names nothing, and was kept
      or removed. */
  lemma WalkedBad(v: Volume, s: Snap, t: Snap, p: Pos)
    requires p.Valid() && |s.state| == |v.inodes| && t.state == s.state
    requires if Ino(t, p) == 0 then Removable(v, s, p) || Ino(s, p) == 0 else Ino(t, p) == Ino(s, p) && !Counts(v, s, p)
    requires forall q: Pos :: q.Valid() && q != p ==> Ino(t, q) == Ino(s, q)
    ensures Walked(v, s, t, [p], [], multiset{})
  {
    OneLink(v, t, p);
  }

  lemma OneLink(v: Volume, t: Snap, p: Pos)
    requires p.Valid() && |t.state| == |v.inodes|
    ensures Links(v, t, [p]) == if Counts(v, t, p) then multiset{Ino(t, p)} else multiset{}
    ensures Links(v, t, []) == multiset{} && Flat(v, []) == []
  {
    assert [p][1..] == [];
  }

  /** An entry that names a file, perhaps one that was to be cleared. */
  lemma WalkedFile(v: Volume, s: Snap, t: Snap, p: Pos)
    requires p.Valid() && |s.state| == |v.inodes| && Counts(v, s, p)
    requires forall q: Pos :: q.Valid() ==> Ino(t, q) == Ino(s, q)
    requires var i := Ino(s, p); t.state == s.state[i := File] && (s.state[i] != File ==> !v.inodes[i].isDir)
    ensures Walked(v, s, t, [p], [], multiset{Ino(s, p)})
  {
    OneLink(v, t, p);
  }

  /** An entry that names a directory d, which is then walked over. */
  lemma WalkedInto(v: Volume, s: Snap, t: Snap, p: Pos, d: int, ds: seq<int>, c: multiset<int>)
    requires p.Valid() && v.Names(d) && |s.state| == |v.inodes| && Ino(s, p) == d && v.inodes[d].isDir
    requires s.state[d] == Dir || s.state[d] == Clear
    requires Walked(v, s.(state := s.state[d := File]), t, Entries(v, d), ds, c)
    ensures Walked(v, s, t, [p], [d] + ds, multiset{d} + c)
  {
    hide Later, Visited, AllSettled, NamedBefore, Links, Flat, Entries;
    var s0 := s.(state := s.state[d := File]);
    Entered(v, s, s0, t, p, d, ds);
    OneLink(v, t, p);
    assert ([d] + ds)[1..] == ds;
    VisitedNames(v, s, t, [d] + ds);
    FlatCons(v, d, ds);
    LinksConcat(v, t, Entries(v, d), Flat(v, ds));
    SettledBoth(v, t, Entries(v, d), Flat(v, ds));
    forall k | 0 <= k < |[d] + ds|
      ensures NamedBefore(v, t, [p], [d] + ds, k)
    {
      if k == 0 {
        NamedEntry(v, t, p, [d] + ds);
      } else {
        NamedInside(v, t, p, d, ds, k - 1);
      }
    }
  }

  lemma Entered(v: Volume, s: Snap, s0: Snap, t: Snap, p: Pos, d: int, ds: seq<int>)
    requires p.Valid() && v.Names(d) && |s.state| == |v.inodes| && Ino(s, p) == d && v.inodes[d].isDir
    requires s.state[d] == Dir || s.state[d] == Clear
    requires s0 == s.(state := s.state[d := File]) && Later(v, s0, t) && Visited(v, s0, t, ds)
    ensures Later(v, s, t) && Visited(v, s, t, [d] + ds)
    ensures Ino(t, p) == d && Counts(v, t, p) && AllSettled(v, t, [p])
  {
    assert forall q: Pos :: q.Valid() ==> Ino(s0, q) == Ino(s, q);
    assert Ino(s0, p) == d;
    assert s0.state[d] == File;
    assert d !in ds;
  }

  lemma FlatCons(v: Volume, d: int, ds: seq<int>)
    requires v.Names(d) && forall e :: e in ds ==> v.Names(e)
    ensures (forall e :: e in [d] + ds ==> v.Names(e)) && Flat(v, [d] + ds) == Entries(v, d) + Flat(v, ds)
  {
    assert ([d] + ds)[1..] == ds;
    hide Entries;
  }

  lemma SettledBoth(v: Volume, t: Snap, ps: seq<Pos>, qs: seq<Pos>)
    requires AllSettled(v, t, ps) && AllSettled(v, t, qs)
    ensures AllSettled(v, t, ps + qs)
  {
  }

  lemma NamedEntry(v: Volume, t: Snap, p: Pos, ds: seq<int>)
    requires |ds| > 0 && p.Valid() && Ino(t, p) == ds[0]
    ensures NamedBefore(v, t, [p], ds, 0)
  {
    assert NamesIt(t, p, ds[0]) && p in [p];
  }

  lemma NamedInside(v: Volume, t: Snap, p: Pos, d: int, ds: seq<int>, k: nat)
    requires v.Names(d) && NamedBefore(v, t, Entries(v, d), ds, k)
    ensures NamedBefore(v, t, [p], [d] + ds, k + 1)
  {
    hide Entries;
    var q :| NamesIt(t, q, ds[k]) && (q in Entries(v, d) || ListedIn(v, q, ds[..k]));
    var front := ([d] + ds)[..k + 1];
    assert front == [d] + ds[..k];
    assert d in front;
    assert ListedIn(v, q, front) by {
      if q !in Entries(v, d) {
        var e :| e in ds[..k] && v.Names(e) && q in Entries(v, e);
        assert e in front;
      }
    }
  }
}
