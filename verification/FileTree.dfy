/** The thirteen addresses of an inode as one map from file block to disk block. */
module FileTree {
  import opened Disk
  import opened BlockTree

  type Addrs = a: seq<int> | |a| == NADDR witness [0, 0, 0, 0, 0, 0, 0, 0, 0, 0, 0, 0, 0]

  /** Levels of indirection behind address i. */
  function LevelOf(i: nat): nat {
    if i < NADDR - 3 then 0 else i - (NADDR - 4)
  }

  /** The number of blocks a file can have. */
  const MAXFB: nat := NADDR - 3 + 256 + 65536 + 16777216

  lemma Powers()
    ensures Pow(0) == 1 && Pow(1) == 256 && Pow(2) == 65536 && Pow(3) == 16777216
  {
    assert Pow(1) == NINDIR * Pow(0);
    assert Pow(2) == NINDIR * Pow(1);
    assert Pow(3) == NINDIR * Pow(2);
  }

  /** The address file block k hangs from, and its offset there. */
  function Slot(k: nat): (s: (nat, nat))
    requires k < MAXFB
    ensures s.0 < NADDR && s.1 < Pow(LevelOf(s.0))
    ensures s.0 < NADDR - 3 <==> k < NADDR - 3
  {
    Powers();
    if k < NADDR - 3 then (k, 0)
    else if k < NADDR - 3 + 256 then (NADDR - 3, k - (NADDR - 3))
    else if k < NADDR - 3 + 256 + 65536 then (NADDR - 2, k - (NADDR - 3 + 256))
    else (NADDR - 1, k - (NADDR - 3 + 256 + 65536))
  }

  lemma SlotDetermines(j: nat, k: nat)
    requires j < MAXFB && k < MAXFB && Slot(j) == Slot(k)
    ensures j == k
  {
  }

  /** The disk block holding file block k, or 0 for a hole. */
  function Lookup(d: Disk, a: Addrs, k: nat): int
    requires k < MAXFB
  {
    Look(d, LevelOf(Slot(k).0), a[Slot(k).0], Slot(k).1)
  }

  /** Every block of the file, in the order itrunc releases them. */
  ghost function FileBlocks(d: Disk, a: Addrs, n: nat): seq<int>
    requires n <= NADDR
    decreases n
  {
    if n == 0 then [] else Sub(d, LevelOf(n - 1), a[n - 1]) + FileBlocks(d, a, n - 1)
  }

  ghost function Blocks(d: Disk, a: Addrs): seq<int> {
    FileBlocks(d, a, |a|)
  }

  lemma {:induction false} FileFrame(d: Disk, e: Disk, a: Addrs, n: nat)
    requires n <= NADDR && AgreeOn(d, e, FileBlocks(d, a, n))
    ensures FileBlocks(e, a, n) == FileBlocks(d, a, n)
    decreases n
  {
    hide Sub;
    if n > 0 {
      SubFrame(d, e, LevelOf(n - 1), a[n - 1]);
      FileFrame(d, e, a, n - 1);
    }
  }

  lemma {:induction false} FileSame(d: Disk, a: Addrs, b: Addrs, n: nat)
    requires n <= NADDR && forall i :: 0 <= i < n ==> a[i] == b[i]
    ensures FileBlocks(d, a, n) == FileBlocks(d, b, n)
    decreases n
  {
    hide Sub;
    if n > 0 {
      FileSame(d, a, b, n - 1);
    }
  }

  /** The tree at address i can be taken out of the file. */
  lemma {:induction false} FileSplit(d: Disk, a: Addrs, n: nat, i: nat)
    requires i < n <= NADDR
    ensures multiset(FileBlocks(d, a, n)) == multiset(Sub(d, LevelOf(i), a[i])) + multiset(FileBlocks(d, a[i := 0], n))
    decreases n
  {
    HoleIsEmpty(d, LevelOf(i));
    hide Sub;
    if i == n - 1 {
      FileSame(d, a, a[i := 0], n - 1);
    } else {
      FileSplit(d, a, n - 1, i);
    }
  }

  lemma {:induction false} EmptyFile(d: Disk, a: Addrs, n: nat)
    requires n <= NADDR && forall i :: 0 <= i < NADDR ==> a[i] == 0
    ensures FileBlocks(d, a, n) == []
    decreases n
  {
    if n > 0 {
      EmptyFile(d, a, n - 1);
    }
  }

  lemma TreeInFile(d: Disk, a: Addrs, i: nat, b: int)
    requires i < NADDR && b in Sub(d, LevelOf(i), a[i])
    ensures b in Blocks(d, a)
  {
    hide Sub;
    FileSplit(d, a, NADDR, i);
    assert b in multiset(Sub(d, LevelOf(i), a[i]));
    assert b in multiset(Blocks(d, a));
  }

  lemma TreesApart(d: Disk, a: Addrs, i: nat, m: nat, b: int)
    requires i < NADDR && m < NADDR && i != m && Once(multiset(Blocks(d, a)))
    requires b in Sub(d, LevelOf(i), a[i])
    ensures b !in Sub(d, LevelOf(m), a[m])
  {
    hide Sub, FileBlocks;
    FileSplit(d, a, NADDR, i);
    FileSplit(d, a[i := 0], NADDR, m);
    assert multiset(Blocks(d, a))[b] <= 1;
    assert multiset(Sub(d, LevelOf(i), a[i]))[b] >= 1;
    assert multiset(Sub(d, LevelOf(m), a[m]))[b] == 0;
  }

  lemma TreeOnce(d: Disk, a: Addrs, i: nat)
    requires i < NADDR && Once(multiset(Blocks(d, a)))
    ensures Once(multiset(Sub(d, LevelOf(i), a[i])))
  {
    hide Sub, FileBlocks;
    FileSplit(d, a, NADDR, i);
    forall x
      ensures multiset(Sub(d, LevelOf(i), a[i]))[x] <= 1
    {
      assert multiset(Blocks(d, a))[x] <= 1;
    }
  }

  /** Disks d and e differ at blocks nb and x at most. */
  ghost predicate DifferAt(d: Disk, e: Disk, nb: int, x: int) {
    forall b :: b != nb && b != x ==> At(e, b) == At(d, b)
  }

  /** A change from d to e inside the tree at address i, involving at most its
      block nb and the outside block x. */
  ghost predicate Inside(d: Disk, e: Disk, a: Addrs, i: nat, nb: int, x: int) {
    && i < NADDR && Once(multiset(Blocks(d, a))) && DifferAt(d, e, nb, x)
    && (nb == x || nb in Sub(d, LevelOf(i), a[i]))
    && x !in Blocks(d, a)
  }

  /** It leaves the other trees alone, */
  lemma OtherTrees(d: Disk, e: Disk, a: Addrs, i: nat, nb: int, x: int)
    requires Inside(d, e, a, i, nb, x)
    ensures FileBlocks(e, a[i := 0], NADDR) == FileBlocks(d, a[i := 0], NADDR)
  {
    hide Sub, FileBlocks;
    FileSplit(d, a, NADDR, i);
    var whole, rest := multiset(Blocks(d, a)), multiset(FileBlocks(d, a[i := 0], NADDR));
    assert whole[nb] <= 1 && whole[x] == 0;
    assert nb == x || multiset(Sub(d, LevelOf(i), a[i]))[nb] >= 1;
    assert rest[nb] == 0 && rest[x] == 0;
    FileFrame(d, e, a[i := 0], NADDR);
  }

  /** and the lookups that go through them. */
  lemma OtherLookup(d: Disk, e: Disk, a: Addrs, i: nat, nb: int, x: int, j: nat)
    requires Inside(d, e, a, i, nb, x)
    requires j < MAXFB && Slot(j).0 != i
    ensures Lookup(e, a, j) == Lookup(d, a, j)
  {
    hide Sub, FileBlocks, Look, Slot;
    var m := Slot(j).0;
    forall b | b in Sub(d, LevelOf(m), a[m])
      ensures b != nb && b != x
    {
      TreeInFile(d, a, m, b);
      TreesApart(d, a, m, i, b);
    }
    LookFrame(d, e, LevelOf(m), a[m], Slot(j).1);
  }

  /** Setting address i to a fresh cleared block x exchanges the tree that was
      there for x. */
  lemma NewRoot(d: Disk, e: Disk, a: Addrs, i: nat, x: int)
    requires i < NADDR && Once(multiset(Blocks(d, a))) && x !in Blocks(d, a) && x != 0
    requires DifferAt(d, e, x, x) && At(e, x) == Zeroes()
    ensures multiset(Blocks(e, a[i := x])) + multiset(Sub(d, LevelOf(i), a[i])) == multiset(Blocks(d, a)) + multiset{x}
    ensures forall j: nat :: j < MAXFB ==>
      Lookup(e, a[i := x], j) == if Slot(j).0 != i then Lookup(d, a, j) else if LevelOf(i) == 0 then x else 0
  {
    hide Sub, FileBlocks, Look, Slot;
    OtherTrees(d, e, a, i, x, x);
    FileSplit(d, a, NADDR, i);
    FileSplit(e, a[i := x], NADDR, i);
    assert a[i := x][i := 0] == a[i := 0];
    NewTree(e, LevelOf(i), x);
    forall j: nat | j < MAXFB && Slot(j).0 != i
      ensures Lookup(e, a[i := x], j) == Lookup(d, a, j)
    {
      OtherLookup(d, e, a, i, x, x, j);
    }
  }

  /** Grafting a fresh block x at a node on the path to file block k adds x to
      the file, and changes the lookup of k only. */
  lemma FileGraft(d: Disk, e: Disk, a: Addrs, k: nat, l: nat, nb: int, r: nat, x: int)
    requires k < MAXFB && Once(multiset(Blocks(d, a))) && x !in Blocks(d, a)
    requires Graftable(d, e, LevelOf(Slot(k).0), a[Slot(k).0], Slot(k).1, l, nb, r, x)
    ensures multiset(Blocks(e, a)) == multiset(Blocks(d, a)) + multiset{x}
    ensures forall j: nat :: j < MAXFB ==> Lookup(e, a, j) == if l == 1 && j == k then x else Lookup(d, a, j)
    ensures OnPath(e, LevelOf(Slot(k).0), a[Slot(k).0], Slot(k).1, l - 1, x, DigitRest(r, l))
  {
    hide Sub, FileBlocks, Look, Slot;
    var i, s := Slot(k).0, Slot(k).1;
    PathInTree(d, LevelOf(i), a[i], s, l, nb, r);
    OtherTrees(d, e, a, i, nb, x);
    FileSplit(d, a, NADDR, i);
    FileSplit(e, a, NADDR, i);
    GraftAdds(d, e, LevelOf(i), a[i], s, l, nb, r, x);
    GraftPath(d, e, LevelOf(i), a[i], s, l, nb, r, x);
    forall j: nat | j < MAXFB
      ensures Lookup(e, a, j) == if l == 1 && j == k then x else Lookup(d, a, j)
    {
      if Slot(j).0 != i {
        OtherLookup(d, e, a, i, nb, x, j);
      } else {
        GraftLook(d, e, LevelOf(i), a[i], s, l, nb, r, x, Slot(j).1);
        if Slot(j).1 == s {
          SlotDetermines(j, k);
        }
      }
    }
  }

  /** The block holding file block j is a block of the file, but none of the
      indirect blocks met on the way to file block k. */
  lemma DataBlock(d: Disk, a: Addrs, j: nat)
    requires j < MAXFB
    ensures Lookup(d, a, j) != 0 ==> Lookup(d, a, j) in Blocks(d, a)
  {
    hide Sub, FileBlocks, Slot;
    var i := Slot(j).0;
    LookInTree(d, LevelOf(i), a[i], Slot(j).1);
    if Lookup(d, a, j) != 0 {
      TreeInFile(d, a, i, Lookup(d, a, j));
    }
  }

  lemma DataNotIndirect(d: Disk, a: Addrs, j: nat, k: nat, l: nat, nb: int, r: nat)
    requires j < MAXFB && k < MAXFB && Once(multiset(Blocks(d, a)))
    requires 1 <= l && OnPath(d, LevelOf(Slot(k).0), a[Slot(k).0], Slot(k).1, l, nb, r)
    ensures Lookup(d, a, j) != nb
  {
    hide Sub, FileBlocks, Slot;
    var i, m := Slot(j).0, Slot(k).0;
    LookInTree(d, LevelOf(i), a[i], Slot(j).1);
    PathInTree(d, LevelOf(m), a[m], Slot(k).1, l, nb, r);
    if i == m {
      TreeOnce(d, a, i);
      LeafNotNode(d, LevelOf(i), a[i], Slot(j).1, Slot(k).1, l, nb, r);
    } else {
      TreesApart(d, a, m, i, nb);
    }
  }

  /** Distinct file blocks are held by distinct disk blocks. */
  lemma {:induction false} LookInjective(d: Disk, lvl: nat, bn: int, j: nat, k: nat)
    requires j < Pow(lvl) && k < Pow(lvl) && Once(multiset(Sub(d, lvl, bn)))
    requires Look(d, lvl, bn, j) != 0 && Look(d, lvl, bn, j) == Look(d, lvl, bn, k)
    ensures j == k
    decreases lvl
  {
    hide Sub, Kids, Digit, DigitRest;
    if lvl != 0 {
      var ws := At(d, bn);
      var i, m := Digit(j, lvl), Digit(k, lvl);
      var rj, rk := DigitRest(j, lvl), DigitRest(k, lvl);
      LookInTree(d, lvl - 1, ws[i], rj);
      LookInTree(d, lvl - 1, ws[m], rk);
      if i != m {
        KidsApart(d, lvl, bn, i, m, Look(d, lvl, bn, j));
      }
      KidApart(d, lvl, bn, i);
      LookInjective(d, lvl - 1, ws[i], rj, rk);
      DigitsDetermine(j, k, lvl);
    }
  }

  lemma LookupInjective(d: Disk, a: Addrs, j: nat, k: nat)
    requires j < MAXFB && k < MAXFB && Once(multiset(Blocks(d, a)))
    requires Lookup(d, a, j) != 0 && Lookup(d, a, j) == Lookup(d, a, k)
    ensures j == k
  {
    hide Sub, FileBlocks, Slot;
    var i, m := Slot(j).0, Slot(k).0;
    LookInTree(d, LevelOf(i), a[i], Slot(j).1);
    LookInTree(d, LevelOf(m), a[m], Slot(k).1);
    if i != m {
      TreesApart(d, a, i, m, Lookup(d, a, j));
    }
    TreeOnce(d, a, i);
    LookInjective(d, LevelOf(i), a[i], Slot(j).1, Slot(k).1);
    SlotDetermines(j, k);
  }

  lemma {:induction false} NoMarkerInFile(d: Disk, a: Addrs, n: nat)
    requires n <= NADDR
    ensures 0 !in FileBlocks(d, a, n)
    decreases n
  {
    if n > 0 {
      NoMarker(d, LevelOf(n - 1), a[n - 1]);
      NoMarkerInFile(d, a, n - 1);
    }
  }

  /** Writing the data of file block k changes neither the blocks of the file
      nor any lookup. */
  lemma DataWrite(d: Disk, e: Disk, a: Addrs, k: nat)
    requires k < MAXFB && Lookup(d, a, k) != 0 && Once(multiset(Blocks(d, a)))
    requires DifferAt(d, e, Lookup(d, a, k), Lookup(d, a, k))
    ensures multiset(Blocks(e, a)) == multiset(Blocks(d, a))
    ensures forall j: nat :: j < MAXFB ==> Lookup(e, a, j) == Lookup(d, a, j)
  {
    hide Sub, FileBlocks, Slot;
    var i := Slot(k).0;
    TreeOnce(d, a, i);
    NoMarkerInFile(d, a, NADDR);
    LookInTree(d, LevelOf(i), a[i], Slot(k).1);
    LeafWrite(d, e, LevelOf(i), a[i], Slot(k).1);
    OtherTrees(d, e, a, i, Lookup(d, a, k), 0);
    FileSplit(d, a, NADDR, i);
    FileSplit(e, a, NADDR, i);
    forall j: nat | j < MAXFB && Slot(j).0 != i
      ensures Lookup(e, a, j) == Lookup(d, a, j)
    {
      OtherLookup(d, e, a, i, Lookup(d, a, k), 0, j);
    }
  }
}
