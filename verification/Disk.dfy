/** Blocks, disks and the chained free list shared by restor and fsck.
    The block size is the 1024-byte configuration of sys/h/param.h. */
module Disk {

  const NINDIR := 256
  const NICFREE := 178

  /** A block seen as its NINDIR longs.  The C unions overlay the same words as
      an indirect block, as a free-list block (count, then NICFREE addresses)
      or as file data. */
  type Block = b: seq<int> | |b| == NINDIR witness Zeroes()

  function Zeroes(): (b: seq<int>)
    ensures |b| == NINDIR && forall i :: 0 <= i < NINDIR ==> b[i] == 0
  {
    seq(NINDIR, i => 0)
  }

  /** A disk is total: blocks never written read as zeroes. */
  type Disk = map<int, Block>

  function At(d: Disk, b: int): Block {
    if b in d then d[b] else Zeroes()
  }

  function DfNfree(b: Block): int { b[0] }

  function DfFree(b: Block): (s: seq<int>)
    ensures |s| == NICFREE
  {
    b[1..NICFREE + 1]
  }

  /** No element occurs twice. */
  ghost predicate Once(m: multiset<int>) {
    forall x :: m[x] <= 1
  }

  ghost predicate AgreeOn(d: Disk, e: Disk, s: seq<int>) {
    forall b :: b in s ==> At(d, b) == At(e, b)
  }

  /** The free list (nfree, free) continued on disk d denotes the stack st, top
      last.  The bottom is the marker 0; the lowest address held in core is the
      block holding the rest of the list. */
  ghost predicate Chain(d: Disk, nfree: int, free: seq<int>, st: seq<int>)
    requires |free| == NICFREE
    decreases |st|
  {
    && 1 <= nfree <= NICFREE
    && nfree <= |st|
    && free[..nfree] == st[|st| - nfree..]
    && if |st| == nfree then free[0] == 0
       else free[0] != 0 && Chain(d, DfNfree(At(d, free[0])), DfFree(At(d, free[0])), st[..|st| - nfree])
  }

  /** Everything above the marker is a real block, and no block is listed twice. */
  ghost predicate Stack(st: seq<int>) {
    && (forall i :: 1 <= i < |st| ==> st[i] >= 1)
    && Once(multiset(st))
  }

  /** Writing blocks outside the list leaves the list alone. */
  lemma {:induction false} ChainFrame(d: Disk, e: Disk, nfree: int, free: seq<int>, st: seq<int>)
    requires |free| == NICFREE && Chain(d, nfree, free, st)
    requires forall b :: b in st && b != 0 ==> At(d, b) == At(e, b)
    ensures Chain(e, nfree, free, st)
    decreases |st|
  {
    if |st| > nfree {
      assert free[0] == st[|st| - nfree];
      ChainFrame(d, e, DfNfree(At(d, free[0])), DfFree(At(d, free[0])), st[..|st| - nfree]);
    }
  }

  /** A free list denotes one stack. */
  lemma {:induction false} ChainUnique(d: Disk, nfree: int, free: seq<int>, s: seq<int>, t: seq<int>)
    requires |free| == NICFREE && Chain(d, nfree, free, s) && Chain(d, nfree, free, t)
    ensures s == t
    decreases |s|
  {
    if free[0] != 0 {
      ChainUnique(d, DfNfree(At(d, free[0])), DfFree(At(d, free[0])), s[..|s| - nfree], t[..|t| - nfree]);
      assert s == s[..|s| - nfree] + free[..nfree] == t;
    } else {
      assert |s| == nfree == |t|;
      assert s == free[..nfree] == t;
    }
  }

  lemma LastOf(s: seq<int>)
    requires s != [] && Once(multiset(s))
    ensures s[|s| - 1] !in s[..|s| - 1] && Once(multiset(s[..|s| - 1]))
    ensures multiset(s) == multiset(s[..|s| - 1]) + multiset{s[|s| - 1]}
  {
    var init, last := s[..|s| - 1], s[|s| - 1];
    assert s == init + [last];
    assert multiset(s)[last] == multiset(init)[last] + 1;
    assert multiset(init)[last] == 0;
    forall x
      ensures multiset(init)[x] <= 1
    {
      assert multiset(s)[x] == multiset(init)[x] + multiset([last])[x];
    }
  }

  /** The marker is at the bottom of the free list. */
  lemma {:induction false} MarkerBelow(d: Disk, nfree: int, free: seq<int>, st: seq<int>)
    requires |free| == NICFREE && Chain(d, nfree, free, st)
    ensures st[0] == 0 && 0 in st
    decreases |st|
  {
    if |st| > nfree {
      MarkerBelow(d, DfNfree(At(d, free[0])), DfFree(At(d, free[0])), st[..|st| - nfree]);
    }
    assert st[0] == 0;
  }

  /** The free list after bfree put bn on it, in core or as a new first block. */
  lemma ChainPush(d: Disk, nfree: int, free: seq<int>, st: seq<int>, e: Disk, nfree': int, free': seq<int>, bn: int)
    requires |free| == NICFREE && |free'| == NICFREE && Chain(d, nfree, free, st) && bn >= 1 && bn !in st
    requires forall b :: b != bn ==> At(e, b) == At(d, b)
    requires if nfree < NICFREE then nfree' == nfree + 1 && free' == free[nfree := bn]
             else nfree' == 1 && free'[0] == bn && DfNfree(At(e, bn)) == nfree && DfFree(At(e, bn)) == free
    ensures Chain(e, nfree', free', st + [bn])
  {
    ChainFrame(d, e, nfree, free, st);
    if nfree < NICFREE {
      PushInCore(e, nfree, free, st, bn);
    } else {
      PushBlock(e, nfree, free, st, free', bn);
    }
  }

  lemma PushInCore(e: Disk, nfree: int, free: seq<int>, st: seq<int>, bn: int)
    requires |free| == NICFREE && Chain(e, nfree, free, st) && nfree < NICFREE
    ensures Chain(e, nfree + 1, free[nfree := bn], st + [bn])
  {
    var s, free' := st + [bn], free[nfree := bn];
    assert free'[..nfree + 1] == free[..nfree] + [bn] == s[|s| - nfree - 1..];
    assert s[..|s| - nfree - 1] == st[..|st| - nfree];
  }

  lemma PushBlock(e: Disk, nfree: int, free: seq<int>, st: seq<int>, free': seq<int>, bn: int)
    requires |free| == NICFREE && |free'| == NICFREE && Chain(e, nfree, free, st) && bn != 0 && free'[0] == bn
    requires DfNfree(At(e, bn)) == nfree && DfFree(At(e, bn)) == free
    ensures Chain(e, 1, free', st + [bn])
  {
    var s := st + [bn];
    assert |st| >= 1;
    assert s[..|s| - 1] == st;
    hide Chain, DfFree;
    ChainFromBlock(e, free', s);
  }

  lemma ChainFromBlock(e: Disk, free: seq<int>, s: seq<int>)
    requires |free| == NICFREE && |s| > 1 && free[0] != 0 && free[0] == s[|s| - 1]
    requires Chain(e, DfNfree(At(e, free[0])), DfFree(At(e, free[0])), s[..|s| - 1])
    ensures Chain(e, 1, free, s)
  {
    hide DfNfree, DfFree;
  }

  lemma OnceConcat(s: seq<int>, t: seq<int>)
    requires Once(multiset(s)) && Once(multiset(t)) && forall b :: b in s ==> b !in t
    ensures Once(multiset(s + t))
  {
    assert multiset(s + t) == multiset(s) + multiset(t);
    forall x
      ensures multiset(s + t)[x] <= 1
    {
      assert x in s ==> multiset(t)[x] == 0;
      assert x !in s ==> multiset(s)[x] == 0;
    }
  }

  lemma OnceSingle(b: int)
    ensures Once(multiset([b]))
  {
  }

  lemma OnceNone()
    ensures Once(multiset([]))
  {
  }
}
