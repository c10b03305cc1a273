/** Where the blocks of a file are: restor's map from file block to disk block, and
    the order in which fsck comes to the data blocks of a directory. */
module FileOrder {
  import opened Disk
  import opened BlockTree
  import opened FileTree
  import opened FsckTypes
  import opened DirGraph

  /** Entry i of the indirect block b; a hole has none. */
  function EntryOf(d: Disk, b: int, i: nat): int
    requires i < 256
  {
    if b == 0 then 0 else At(d, b)[i]
  }

  /** The layout of a file: ten direct blocks, 256 behind one indirect block, 65536
      behind the entries of a double one, and the rest behind a triple one. */
  lemma Layout(d: Disk, a: Addrs, i: nat, j: nat, k: nat)
    requires i < 256 && j < 256 && k < 256
    ensures i < 10 ==> Lookup(d, a, i) == a[i]
    ensures Lookup(d, a, 10 + i) == EntryOf(d, a[10], i)
    ensures Lookup(d, a, 266 + 256 * i + j) == EntryOf(d, EntryOf(d, a[11], i), j)
    ensures Lookup(d, a, 65802 + 65536 * i + 256 * j + k) ==
      EntryOf(d, EntryOf(d, EntryOf(d, a[12], i), j), k)
  {
    Powers();
    hide Pow, Digit, DigitRest, Look;
    if i < 10 {
      LookLeaf(d, a[i], 0);
    }
    LookOne(d, a[10], i);
    LookTwo(d, a[11], i, j);
    LookThree(d, a[12], i, j, k);
  }

  lemma LookLeaf(d: Disk, bn: int, k: nat)
    requires k < Pow(0)
    ensures Look(d, 0, bn, k) == bn
  {
  }

  /** Entry q of an indirect block leads to the data blocks from q times the size of
      a subtree on. */
  lemma LookDown(d: Disk, lvl: nat, bn: int, q: nat, r: nat)
    requires lvl >= 1 && q < NINDIR && r < Pow(lvl - 1)
    ensures q * Pow(lvl - 1) + r < Pow(lvl)
    ensures Look(d, lvl, bn, q * Pow(lvl - 1) + r) == if bn == 0 then 0 else Look(d, lvl - 1, At(d, bn)[q], r)
  {
    var p, k := Pow(lvl - 1), q * Pow(lvl - 1) + r;
    assert Pow(lvl) == NINDIR * p;
    Below(q, p, r, NINDIR);
    Parts(k, p, q, r);
    assert Digit(k, lvl) == q && DigitRest(k, lvl) == r;
    hide Pow, Digit, DigitRest;
  }

  lemma Below(q: nat, p: nat, r: nat, n: nat)
    requires q < n && r < p
    ensures q * p + r < n * p
  {
    assert (q + 1) * p <= n * p;
  }

  lemma Parts(k: int, p: int, q: int, r: int)
    requires k == q * p + r && 0 <= r < p
    ensures k / p == q && k % p == r
  {
    var x := k / p - q;
    assert k == p * (k / p) + k % p;
    assert p * x == r - k % p;
    assert x >= 1 ==> p * x >= p;
    assert x <= -1 ==> p * x <= -p;
  }

  lemma LookOne(d: Disk, bn: int, i: nat)
    requires i < 256
    ensures i < Pow(1) && Look(d, 1, bn, i) == EntryOf(d, bn, i)
  {
    Powers();
    LookDown(d, 1, bn, i, 0);
    hide Pow, Look;
    if bn != 0 {
      LookLeaf(d, At(d, bn)[i], 0);
    }
  }

  lemma LookHole(d: Disk, lvl: nat, k: nat)
    requires k < Pow(lvl)
    ensures Look(d, lvl, 0, k) == 0
  {
  }

  lemma LookTwo(d: Disk, bn: int, i: nat, j: nat)
    requires i < 256 && j < 256
    ensures 256 * i + j < Pow(2) && Look(d, 2, bn, 256 * i + j) == EntryOf(d, EntryOf(d, bn, i), j)
  {
    Powers();
    LookDown(d, 2, bn, i, j);
    hide Pow, Look;
    LookOne(d, EntryOf(d, bn, i), j);
  }

  lemma LookThree(d: Disk, bn: int, i: nat, j: nat, k: nat)
    requires i < 256 && j < 256 && k < 256
    ensures 65536 * i + 256 * j + k < Pow(3)
    ensures Look(d, 3, bn, 65536 * i + 256 * j + k) == EntryOf(d, EntryOf(d, EntryOf(d, bn, i), j), k)
  {
    Powers();
    LookDown(d, 3, bn, i, 256 * j + k);
    hide Pow, Look;
    LookTwo(d, EntryOf(d, bn, i), j, k);
  }

  // The order of the blocks.

  function Present(b: int): seq<int> { if b == 0 then [] else [b] }

  /** The disk blocks that the first n file blocks are mapped to, holes left out. */
  function InOrder(d: Disk, a: Addrs, n: nat): seq<int>
    requires n <= MAXFB
  {
    if n == 0 then [] else InOrder(d, a, n - 1) + Present(Lookup(d, a, n - 1))
  }

  /** The same below one address. */
  function Ordered(d: Disk, lvl: nat, bn: int, n: nat): seq<int>
    requires n <= Pow(lvl)
  {
    if n == 0 then [] else Ordered(d, lvl, bn, n - 1) + Present(Look(d, lvl, bn, n - 1))
  }

  ghost predicate Within(v: Volume, bs: seq<int>) {
    forall b :: b in bs ==> !OutRange(v.fmin, v.fmax, b)
  }

  lemma {:induction false} NoneOrdered(d: Disk, lvl: nat, n: nat)
    requires n <= Pow(lvl)
    ensures Ordered(d, lvl, 0, n) == []
  {
    hide Pow, Look;
    if n > 0 {
      NoneOrdered(d, lvl, n - 1);
      LookHole(d, lvl, n - 1);
    }
  }

  /** x is where the data blocks below entry q of an indirect block begin. */
  ghost predicate Begins(x: nat, q: nat, lvl: nat) {
    lvl >= 1 && x == q * Pow(lvl - 1)
  }

  /** The blocks below entry q come after those below the entries before. */
  lemma {:induction false} OrderedDown(d: Disk, lvl: nat, bn: int, q: nat, x: nat, r: nat, y: nat)
    requires Begins(x, q, lvl) && bn != 0 && q < NINDIR && r <= Pow(lvl - 1) && y == x + r
    ensures y <= Pow(lvl)
    ensures Ordered(d, lvl, bn, y) == Ordered(d, lvl, bn, x) + Ordered(d, lvl - 1, At(d, bn)[q], r)
    decreases r
  {
    Filled(lvl, q, x);
    hide *;
    var c := At(d, bn)[q];
    if r == 0 {
      OrderedNone(d, lvl - 1, c);
      assert Ordered(d, lvl, bn, x) + [] == Ordered(d, lvl, bn, x);
    } else {
      OrderedDown(d, lvl, bn, q, x, r - 1, y - 1);
      LookFrom(d, lvl, bn, q, x, r - 1, y - 1);
      OrderedMore(d, lvl, bn, y - 1, y);
      OrderedMore(d, lvl - 1, c, r - 1, r);
      Regroup(Ordered(d, lvl, bn, x), Ordered(d, lvl - 1, c, r - 1), Present(Look(d, lvl, bn, y - 1)));
    }
  }

  lemma Regroup(s: seq<int>, t: seq<int>, u: seq<int>)
    ensures (s + t) + u == s + (t + u)
  {
  }

  lemma OrderedNone(d: Disk, lvl: nat, bn: int)
    ensures Ordered(d, lvl, bn, 0) == []
  {
  }

  lemma OrderedMore(d: Disk, lvl: nat, bn: int, n: nat, m: nat)
    requires m == n + 1 <= Pow(lvl)
    ensures Ordered(d, lvl, bn, m) == Ordered(d, lvl, bn, n) + Present(Look(d, lvl, bn, n))
  {
  }

  lemma LookFrom(d: Disk, lvl: nat, bn: int, q: nat, x: nat, r: nat, y: nat)
    requires Begins(x, q, lvl) && bn != 0 && q < NINDIR && r < Pow(lvl - 1) && y == x + r
    ensures y < Pow(lvl) && Look(d, lvl, bn, y) == Look(d, lvl - 1, At(d, bn)[q], r)
  {
    LookDown(d, lvl, bn, q, r);
  }

  lemma Filled(lvl: nat, q: nat, x: nat)
    requires Begins(x, q, lvl) && q < NINDIR
    ensures x + Pow(lvl - 1) <= Pow(lvl) && Begins(x + Pow(lvl - 1), q + 1, lvl)
  {
    assert Pow(lvl) == NINDIR * Pow(lvl - 1);
    hide Pow;
    Steps(q, Pow(lvl - 1), x, NINDIR);
  }

  lemma Steps(q: nat, p: nat, x: nat, n: nat)
    requires q < n && x == q * p
    ensures x + p == (q + 1) * p && (q + 1) * p <= n * p && (q == n - 1 ==> x + p == n * p)
  {
    var m := n - q - 1;
    assert n * p == (q + 1) * p + m * p;
  }

  /** Below an address the data blocks in order are those fsck comes to. */
  lemma {:induction false} TreeOrder(v: Volume, lvl: nat, bn: int)
    requires Within(v, Sub(v.disk, lvl, bn))
    ensures Ordered(v.disk, lvl, bn, Pow(lvl)) == DataIn(v, lvl, bn)
    decreases lvl, 0
  {
    if bn == 0 {
      NoneOrdered(v.disk, lvl, Pow(lvl));
    } else if lvl == 0 {
      assert Ordered(v.disk, 0, bn, 0) == [];
      LookLeaf(v.disk, bn, 0);
    } else {
      assert bn in Sub(v.disk, lvl, bn);
      assert Begins(Pow(lvl), NINDIR, lvl);
      KidsOrder(v, lvl, bn, NINDIR, Pow(lvl));
    }
  }

  lemma {:induction false} KidsOrder(v: Volume, lvl: nat, bn: int, n: nat, y: nat)
    requires Begins(y, n, lvl) && bn != 0 && n <= NINDIR && Within(v, Sub(v.disk, lvl, bn))
    ensures y <= Pow(lvl) && Ordered(v.disk, lvl, bn, y) == DataKids(v, lvl - 1, At(v.disk, bn), n)
    decreases lvl - 1, n + 1
  {
    if n > 0 {
      var q: nat, b, p := n - 1, At(v.disk, bn)[n - 1], Pow(lvl - 1);
      var x := Prior(n, y, lvl);
      SubWithin(v, lvl, bn, q);
      var ws := At(v.disk, bn);
      assert DataKids(v, lvl - 1, ws, n) == DataKids(v, lvl - 1, ws, q) + DataIn(v, lvl - 1, b);
      hide *;
      KidsOrder(v, lvl, bn, q, x);
      OrderedDown(v.disk, lvl, bn, q, x, p, y);
      TreeOrder(v, lvl - 1, b);
    } else {
      NothingBegins(y, lvl);
      OrderedNone(v.disk, lvl, bn);
    }
  }

  lemma NothingBegins(y: nat, lvl: nat)
    requires Begins(y, 0, lvl)
    ensures y == 0
  {
  }

  lemma Prior(n: nat, y: nat, lvl: nat) returns (x: nat)
    requires Begins(y, n, lvl) && n > 0
    ensures x + Pow(lvl - 1) == y && Begins(x, n - 1, lvl)
  {
    var p := Pow(lvl - 1);
    assert n * p == (n - 1) * p + p;
    x := (n - 1) * p;
  }

  lemma SubWithin(v: Volume, lvl: nat, bn: int, q: nat)
    requires lvl >= 1 && bn != 0 && q < NINDIR && Within(v, Sub(v.disk, lvl, bn))
    ensures Within(v, Sub(v.disk, lvl - 1, At(v.disk, bn)[q]))
  {
    KidIn(v.disk, lvl, bn, q);
    hide Sub;
  }

  /** The first file block that hangs from address i. */
  function FirstOf(i: nat): (n: nat)
    requires i <= NADDR
    ensures n <= MAXFB
  {
    if i <= 10 then i else if i == 11 then 266 else if i == 12 then 65802 else MAXFB
  }

  lemma LookupBelow(d: Disk, a: Addrs, i: nat, x: nat, r: nat)
    requires i < NADDR && x == FirstOf(i) && r < Pow(LevelOf(i))
    ensures x + r < MAXFB && Lookup(d, a, x + r) == Look(d, LevelOf(i), a[i], r)
  {
    Powers();
    assert Slot(x + r) == (i, r);
    hide Pow, Look, Slot;
  }

  lemma NextAddress(i: nat)
    requires i < NADDR
    ensures FirstOf(i) + Pow(LevelOf(i)) == FirstOf(i + 1)
  {
    Powers();
    hide Pow;
  }

  lemma {:induction false} AddressOrder(d: Disk, a: Addrs, i: nat, x: nat, r: nat, y: nat)
    requires i < NADDR && x == FirstOf(i) && r <= Pow(LevelOf(i)) && y == x + r
    ensures y <= MAXFB && InOrder(d, a, y) == InOrder(d, a, x) + Ordered(d, LevelOf(i), a[i], r)
    decreases r
  {
    hide Pow, Look, Lookup, FirstOf, LevelOf;
    if r == 0 {
      assert InOrder(d, a, x) + [] == InOrder(d, a, x);
    } else {
      AddressOrder(d, a, i, x, r - 1, y - 1);
      LookupBelow(d, a, i, x, r - 1);
    }
  }

  /** In a file whose blocks are in the volume, what restor maps block after block is
      what fsck scans of a directory. */
  lemma {:induction false} SameOrder(v: Volume, a: Addrs, n: nat)
    requires n <= NADDR && Within(v, FileBlocks(v.disk, a, n))
    ensures InOrder(v.disk, a, FirstOf(n)) == DataOf(v, a, n)
  {
    hide *;
    if n == 0 {
      NothingBefore(v, a);
    } else {
      var m: nat := n - 1;
      var x, b := FirstOf(m), a[m];
      FileWithin(v, a, m);
      NextAddress(m);
      AddressOrder(v.disk, a, m, x, Pow(LevelOf(m)), FirstOf(n));
      TreeOrder(v, LevelOf(m), b);
      SameOrder(v, a, m);
      NextData(v, a, m, n);
    }
  }

  lemma NothingBefore(v: Volume, a: Addrs)
    ensures InOrder(v.disk, a, FirstOf(0)) == DataOf(v, a, 0)
  {
  }

  lemma NextData(v: Volume, a: Addrs, m: nat, n: nat)
    requires n == m + 1 <= NADDR
    ensures DataOf(v, a, n) == DataOf(v, a, m) + DataIn(v, LevelOf(m), a[m])
  {
  }

  lemma FileWithin(v: Volume, a: Addrs, m: nat)
    requires m < NADDR && Within(v, FileBlocks(v.disk, a, m + 1))
    ensures Within(v, FileBlocks(v.disk, a, m)) && Within(v, Sub(v.disk, LevelOf(m), a[m]))
  {
    hide Sub;
    var s, t := Sub(v.disk, LevelOf(m), a[m]), FileBlocks(v.disk, a, m);
    assert FileBlocks(v.disk, a, m + 1) == s + t;
    assert forall b :: b in s || b in t ==> b in s + t;
  }

  // The order in which the blocks of a file are released.

  /** The elements of s occur in t in the same order. */
  ghost predicate Sublist(s: seq<int>, t: seq<int>) {
    s == [] ||
    (t != [] &&
     (Sublist(s, t[..|t| - 1]) || (s[|s| - 1] == t[|t| - 1] && Sublist(s[..|s| - 1], t[..|t| - 1]))))
  }

  lemma SublistMore(s: seq<int>, t: seq<int>, x: int)
    requires Sublist(s, t)
    ensures Sublist(s, t + [x]) && Sublist(s + [x], t + [x])
  {
    assert (t + [x])[..|t + [x]| - 1] == t && (s + [x])[..|s + [x]| - 1] == s;
  }

  lemma {:induction false} SublistConcat(s: seq<int>, t: seq<int>, s': seq<int>, t': seq<int>)
    requires Sublist(s, t) && Sublist(s', t')
    ensures Sublist(s + s', t + t')
    decreases |t'|
  {
    if t' == [] {
      assert s + s' == s && t + t' == t;
    } else {
      var x, u := t'[|t'| - 1], t'[..|t'| - 1];
      assert t + t' == (t + u) + [x];
      if Sublist(s', u) {
        SublistConcat(s, t, s', u);
        SublistMore(s + s', t + u, x);
      } else {
        var w := s'[..|s'| - 1];
        SublistConcat(s, t, w, u);
        assert s + s' == (s + w) + [x];
        SublistMore(s + w, t + u, x);
      }
    }
  }

  lemma {:induction false} TreeReleased(v: Volume, lvl: nat, bn: int)
    requires Within(v, Sub(v.disk, lvl, bn))
    ensures Sublist(Reversed(DataIn(v, lvl, bn)), Sub(v.disk, lvl, bn))
    decreases lvl, 0
  {
    if bn != 0 && lvl == 0 {
      assert Reversed([bn]) == [bn] && [bn][..0] == [];
    } else if bn != 0 {
      assert bn in Sub(v.disk, lvl, bn);
      KidsReleased(v, lvl, bn, NINDIR);
      hide Sublist, DataKids, Kids;
      SublistMore(Reversed(DataKids(v, lvl - 1, At(v.disk, bn), NINDIR)),
                  Kids(v.disk, lvl - 1, At(v.disk, bn), NINDIR), bn);
    }
  }

  lemma {:induction false} KidsReleased(v: Volume, lvl: nat, bn: int, n: nat)
    requires lvl > 0 && bn != 0 && n <= NINDIR && Within(v, Sub(v.disk, lvl, bn))
    ensures Sublist(Reversed(DataKids(v, lvl - 1, At(v.disk, bn), n)), Kids(v.disk, lvl - 1, At(v.disk, bn), n))
    decreases lvl - 1, n + 1
  {
    if n > 0 {
      var ws, q: nat := At(v.disk, bn), n - 1;
      SubWithin(v, lvl, bn, q);
      TreeReleased(v, lvl - 1, ws[q]);
      KidsReleased(v, lvl, bn, q);
      var a, b := DataKids(v, lvl - 1, ws, q), DataIn(v, lvl - 1, ws[q]);
      assert DataKids(v, lvl - 1, ws, n) == a + b;
      assert Kids(v.disk, lvl - 1, ws, n) == Sub(v.disk, lvl - 1, ws[q]) + Kids(v.disk, lvl - 1, ws, q);
      hide *;
      ReversedConcat(a, b);
      SublistConcat(Reversed(b), Sub(v.disk, lvl - 1, ws[q]), Reversed(a), Kids(v.disk, lvl - 1, ws, q));
    }
  }

  lemma {:induction false} FileReleased(v: Volume, a: Addrs, n: nat)
    requires n <= NADDR && Within(v, FileBlocks(v.disk, a, n))
    ensures Sublist(Reversed(DataOf(v, a, n)), FileBlocks(v.disk, a, n))
  {
    hide *;
    if n == 0 {
      NothingReleased(v, a);
    } else {
      var m: nat := n - 1;
      var s, t := DataOf(v, a, m), DataIn(v, LevelOf(m), a[m]);
      FileWithin(v, a, m);
      TreeReleased(v, LevelOf(m), a[m]);
      FileReleased(v, a, m);
      NextData(v, a, m, n);
      NextBlocks(v.disk, a, m, n);
      ReversedConcat(s, t);
      SublistConcat(Reversed(t), Sub(v.disk, LevelOf(m), a[m]), Reversed(s), FileBlocks(v.disk, a, m));
    }
  }

  lemma NothingReleased(v: Volume, a: Addrs)
    ensures Sublist(Reversed(DataOf(v, a, 0)), FileBlocks(v.disk, a, 0))
  {
  }

  lemma NextBlocks(d: Disk, a: Addrs, m: nat, n: nat)
    requires n == m + 1 <= NADDR
    ensures FileBlocks(d, a, n) == Sub(d, LevelOf(m), a[m]) + FileBlocks(d, a, m)
  {
    hide Sub;
  }

  /** Bounds of some block numbers. */
  lemma {:induction false} Bounds(bs: seq<int>) returns (lo: int, hi: int)
    ensures forall b :: b in bs ==> lo <= b < hi
  {
    if bs == [] {
      lo, hi := 0, 0;
    } else {
      var x := bs[|bs| - 1];
      lo, hi := Bounds(bs[..|bs| - 1]);
      assert bs == bs[..|bs| - 1] + [x];
      lo, hi := if x < lo then x else lo, if x >= hi then x + 1 else hi;
    }
  }

  /** The data blocks of a file are released from its last block to its first. */
  lemma ReleasedLastFirst(d: Disk, a: Addrs)
    ensures Sublist(Reversed(InOrder(d, a, MAXFB)), Blocks(d, a))
  {
    var lo, hi := Bounds(Blocks(d, a));
    var v := Volume(lo, hi, [], d);
    assert Within(v, FileBlocks(d, a, NADDR));
    SameOrder(v, a, NADDR);
    FileReleased(v, a, NADDR);
    hide Sublist, InOrder, FileBlocks, DataOf;
  }

  /** An indirect block is released after all below it. */
  lemma BlockLast(d: Disk, lvl: nat, bn: int, i: nat) returns (before: seq<int>, after: seq<int>)
    requires lvl > 0 && bn != 0 && i < NINDIR
    ensures Sub(d, lvl, bn) == before + Sub(d, lvl - 1, At(d, bn)[i]) + after + [bn]
  {
    before, after := KidsApart(d, lvl - 1, At(d, bn), NINDIR, i);
  }

  lemma {:induction false} KidsApart(d: Disk, lvl: nat, ws: Block, n: nat, i: nat)
    returns (before: seq<int>, after: seq<int>)
    requires i < n <= NINDIR
    ensures Kids(d, lvl, ws, n) == before + Sub(d, lvl, ws[i]) + after
    decreases n
  {
    if i == n - 1 {
      before, after := [], Kids(d, lvl, ws, n - 1);
    } else {
      before, after := KidsApart(d, lvl, ws, n - 1, i);
      before := Sub(d, lvl, ws[n - 1]) + before;
    }
  }
}
