/** The indirect-block trees of an inode, read off the disk. */
module BlockTree {
  import opened Disk

  const NADDR := 13

  /** Number of data blocks below an address with lvl levels of indirection. */
  function Pow(lvl: nat): nat {
    if lvl == 0 then 1 else NINDIR * Pow(lvl - 1)
  }

  /** Every block of the tree at bn, in the order itrunc releases them: an
      indirect block comes after all it points at. */
  ghost function Sub(d: Disk, lvl: nat, bn: int): seq<int>
    decreases lvl, 0
  {
    if bn == 0 then []
    else if lvl == 0 then [bn]
    else Kids(d, lvl - 1, At(d, bn), |At(d, bn)|) + [bn]
  }

  /** The trees at addresses n-1, n-2, ..., 0 of an indirect block. */
  ghost function Kids(d: Disk, lvl: nat, ws: Block, n: nat): seq<int>
    requires n <= NINDIR
    decreases lvl, n + 1
  {
    if n == 0 then [] else Sub(d, lvl, ws[n - 1]) + Kids(d, lvl, ws, n - 1)
  }

  /** The address used at an indirect block of level lvl to reach data block
      k, and the offset of k below that address. */
  function Digit(k: nat, lvl: nat): (i: nat)
    requires 1 <= lvl && k < Pow(lvl)
    ensures i < NINDIR
  {
    DigitBound(k, lvl);
    k / Pow(lvl - 1)
  }

  function DigitRest(k: nat, lvl: nat): (r: nat)
    requires 1 <= lvl && k < Pow(lvl)
    ensures r < Pow(lvl - 1)
  {
    DigitBound(k, lvl);
    k % Pow(lvl - 1)
  }

  lemma DigitBound(k: nat, lvl: nat)
    requires 1 <= lvl && k < Pow(lvl)
    ensures Pow(lvl - 1) >= 1 && 0 <= k / Pow(lvl - 1) < NINDIR && 0 <= k % Pow(lvl - 1) < Pow(lvl - 1)
  {
    var p := Pow(lvl - 1);
    PowPositive(lvl - 1);
    var q, r := k / p, k % p;
    assert k == p * q + r;
    assert q >= NINDIR ==> p * q >= p * NINDIR;
  }

  lemma PowPositive(lvl: nat)
    ensures Pow(lvl) >= 1
  {
  }

  /** Two data blocks reached by the same address and offset are the same. */
  lemma DigitsDetermine(j: nat, k: nat, lvl: nat)
    requires 1 <= lvl && j < Pow(lvl) && k < Pow(lvl)
    requires Digit(j, lvl) == Digit(k, lvl) && DigitRest(j, lvl) == DigitRest(k, lvl)
    ensures j == k
  {
    hide Pow;
    PowPositive(lvl - 1);
    SameParts(j, k, Pow(lvl - 1));
  }

  lemma SameParts(j: int, k: int, p: int)
    requires p > 0 && j / p == k / p && j % p == k % p
    ensures j == k
  {
    assert j == p * (j / p) + j % p && k == p * (k / p) + k % p;
  }

  /** The data block k of the tree at bn, or 0 for a hole. */
  function Look(d: Disk, lvl: nat, bn: int, k: nat): int
    requires k < Pow(lvl)
    decreases lvl
  {
    if bn == 0 || lvl == 0 then bn
    else Look(d, lvl - 1, At(d, bn)[Digit(k, lvl)], DigitRest(k, lvl))
  }

  /** Blocks outside the tree do not matter to it. */
  lemma {:induction false} SubFrame(d: Disk, e: Disk, lvl: nat, bn: int)
    requires AgreeOn(d, e, Sub(d, lvl, bn))
    ensures Sub(e, lvl, bn) == Sub(d, lvl, bn)
    decreases lvl, 0
  {
    if bn != 0 && lvl != 0 {
      assert bn in Sub(d, lvl, bn);
      KidsFrame(d, e, lvl - 1, At(d, bn), NINDIR);
    }
  }

  lemma {:induction false} KidsFrame(d: Disk, e: Disk, lvl: nat, ws: Block, n: nat)
    requires n <= NINDIR && AgreeOn(d, e, Kids(d, lvl, ws, n))
    ensures Kids(e, lvl, ws, n) == Kids(d, lvl, ws, n)
    decreases lvl, n + 1
  {
    if n > 0 {
      SubFrame(d, e, lvl, ws[n - 1]);
      KidsFrame(d, e, lvl, ws, n - 1);
    }
  }

  lemma {:induction false} LookFrame(d: Disk, e: Disk, lvl: nat, bn: int, k: nat)
    requires k < Pow(lvl) && AgreeOn(d, e, Sub(d, lvl, bn))
    ensures Look(e, lvl, bn, k) == Look(d, lvl, bn, k)
    decreases lvl
  {
    if bn != 0 && lvl != 0 {
      assert bn in Sub(d, lvl, bn);
      KidIn(d, lvl, bn, Digit(k, lvl));
      LookFrame(d, e, lvl - 1, At(d, bn)[Digit(k, lvl)], DigitRest(k, lvl));
    }
  }

  /** The tree at address i can be taken out of an indirect block. */
  lemma {:induction false} KidsSplit(d: Disk, lvl: nat, ws: Block, n: nat, i: nat)
    requires i < n <= NINDIR
    ensures multiset(Kids(d, lvl, ws, n)) == multiset(Sub(d, lvl, ws[i])) + multiset(Kids(d, lvl, ws[i := 0], n))
    decreases n
  {
    hide Pow, Sub, Kids;
    KidsStep(d, lvl, ws, n);
    KidsStep(d, lvl, ws[i := 0], n);
    if i == n - 1 {
      KidsSame(d, lvl, ws, ws[i := 0], n - 1);
      HoleIsEmpty(d, lvl);
    } else {
      KidsSplit(d, lvl, ws, n - 1, i);
    }
  }

  lemma KidsStep(d: Disk, lvl: nat, ws: Block, n: nat)
    requires 0 < n <= NINDIR
    ensures multiset(Kids(d, lvl, ws, n)) == multiset(Kids(d, lvl, ws, n - 1)) + multiset(Sub(d, lvl, ws[n - 1]))
  {
    hide Sub;
  }

  lemma {:induction false} KidsSame(d: Disk, lvl: nat, ws: Block, vs: Block, n: nat)
    requires n <= NINDIR && ws[..n] == vs[..n]
    ensures Kids(d, lvl, ws, n) == Kids(d, lvl, vs, n)
    decreases n
  {
    if n > 0 {
      assert ws[n - 1] == ws[..n][n - 1] == vs[..n][n - 1] == vs[n - 1];
      assert ws[..n - 1] == ws[..n][..n - 1] == vs[..n][..n - 1] == vs[..n - 1];
      KidsSame(d, lvl, ws, vs, n - 1);
    }
  }

  /** The tree below address i of bn, and the rest of the tree at bn. */
  lemma KidIn(d: Disk, lvl: nat, bn: int, i: nat)
    requires bn != 0 && lvl >= 1 && i < NINDIR
    ensures multiset(Sub(d, lvl, bn)) ==
            multiset(Sub(d, lvl - 1, At(d, bn)[i])) +
            multiset(Kids(d, lvl - 1, At(d, bn)[i := 0], NINDIR)) + multiset{bn}
    ensures forall b :: b in Sub(d, lvl - 1, At(d, bn)[i]) ==> b in Sub(d, lvl, bn)
  {
    KidsSplit(d, lvl - 1, At(d, bn), NINDIR, i);
    forall b | b in Sub(d, lvl - 1, At(d, bn)[i])
      ensures b in Sub(d, lvl, bn)
    {
      assert b in multiset(Sub(d, lvl - 1, At(d, bn)[i]));
      assert b in multiset(Sub(d, lvl, bn));
    }
  }

  /** A cleared indirect block points at nothing. */
  lemma {:induction false} KidsOfZeroes(d: Disk, lvl: nat, n: nat)
    requires n <= NINDIR
    ensures Kids(d, lvl, Zeroes(), n) == []
    decreases n
  {
    if n > 0 {
      KidsOfZeroes(d, lvl, n - 1);
    }
  }

  /** The walk towards data block k from bn arrives at the indirect block nb
      with l levels left and offset r. */
  ghost predicate OnPath(d: Disk, lvl: nat, bn: int, k: nat, l: nat, nb: int, r: nat)
    requires k < Pow(lvl)
    decreases lvl
  {
    if lvl == l then bn == nb && nb != 0 && r == k
    else lvl > l && bn != 0 && OnPath(d, lvl - 1, At(d, bn)[Digit(k, lvl)], DigitRest(k, lvl), l, nb, r)
  }

  lemma {:induction false} PathInTree(d: Disk, lvl: nat, bn: int, k: nat, l: nat, nb: int, r: nat)
    requires k < Pow(lvl) && OnPath(d, lvl, bn, k, l, nb, r)
    ensures nb in Sub(d, lvl, bn) && nb != 0 && l <= lvl && r < Pow(l)
    ensures Look(d, lvl, bn, k) == Look(d, l, nb, r)
    decreases lvl
  {
    if lvl > l {
      PathInTree(d, lvl - 1, At(d, bn)[Digit(k, lvl)], DigitRest(k, lvl), l, nb, r);
      KidIn(d, lvl, bn, Digit(k, lvl));
    }
  }

  /** A path can be followed one address further. */
  lemma {:induction false} PathLonger(d: Disk, lvl: nat, bn: int, k: nat, l: nat, nb: int, r: nat)
    requires k < Pow(lvl) && 1 <= l && OnPath(d, lvl, bn, k, l, nb, r) && r < Pow(l)
    requires At(d, nb)[Digit(r, l)] != 0
    ensures OnPath(d, lvl, bn, k, l - 1, At(d, nb)[Digit(r, l)], DigitRest(r, l))
    decreases lvl
  {
    hide Pow, Digit, DigitRest;
    if lvl > l {
      PathLonger(d, lvl - 1, At(d, bn)[Digit(k, lvl)], DigitRest(k, lvl), l, nb, r);
    }
  }

  lemma {:induction false} LookInTree(d: Disk, lvl: nat, bn: int, k: nat)
    requires k < Pow(lvl)
    ensures Look(d, lvl, bn, k) != 0 ==> Look(d, lvl, bn, k) in Sub(d, lvl, bn)
    decreases lvl
  {
    if bn != 0 && lvl != 0 {
      LookInTree(d, lvl - 1, At(d, bn)[Digit(k, lvl)], DigitRest(k, lvl));
      KidIn(d, lvl, bn, Digit(k, lvl));
    }
  }

  /** In a tree without repetition the trees below an indirect block are apart
      from it and from each other. */
  lemma KidApart(d: Disk, lvl: nat, bn: int, i: nat)
    requires bn != 0 && lvl >= 1 && i < NINDIR && Once(multiset(Sub(d, lvl, bn)))
    ensures Once(multiset(Sub(d, lvl - 1, At(d, bn)[i])))
    ensures bn !in Sub(d, lvl - 1, At(d, bn)[i])
  {
    KidIn(d, lvl, bn, i);
    var whole, kid := multiset(Sub(d, lvl, bn)), multiset(Sub(d, lvl - 1, At(d, bn)[i]));
    assert whole[bn] <= 1 && kid[bn] == 0;
    forall x
      ensures kid[x] <= 1
    {
      assert whole[x] <= 1;
    }
  }

  lemma KidsApart(d: Disk, lvl: nat, bn: int, i: nat, m: nat, x: int)
    requires bn != 0 && lvl >= 1 && i < NINDIR && m < NINDIR && i != m && Once(multiset(Sub(d, lvl, bn)))
    requires x in Sub(d, lvl - 1, At(d, bn)[i])
    ensures x !in Sub(d, lvl - 1, At(d, bn)[m])
  {
    hide Sub, Kids, Pow;
    KidIn(d, lvl, bn, i);
    KidsSplit(d, lvl - 1, At(d, bn)[i := 0], NINDIR, m);
    var whole := multiset(Sub(d, lvl, bn));
    assert whole[x] <= 1;
    assert multiset(Sub(d, lvl - 1, At(d, bn)[i]))[x] >= 1;
    assert multiset(Sub(d, lvl - 1, At(d, bn)[m]))[x] == 0;
  }

  /** No data block of the tree is one of its indirect blocks. */
  lemma {:induction false} LeafNotNode(d: Disk, lvl: nat, bn: int, j: nat, k: nat, l: nat, nb: int, r: nat)
    requires j < Pow(lvl) && k < Pow(lvl) && Once(multiset(Sub(d, lvl, bn)))
    requires 1 <= l && OnPath(d, lvl, bn, k, l, nb, r)
    ensures Look(d, lvl, bn, j) != nb
    decreases lvl
  {
    hide Sub, Kids, Pow;
    var ws := At(d, bn);
    var i, rj := Digit(j, lvl), DigitRest(j, lvl);
    KidApart(d, lvl, bn, i);
    LookInTree(d, lvl - 1, ws[i], rj);
    if lvl > l {
      var m, rk := Digit(k, lvl), DigitRest(k, lvl);
      PathInTree(d, lvl - 1, ws[m], rk, l, nb, r);
      if i == m {
        LeafNotNode(d, lvl - 1, ws[i], rj, rk, l, nb, r);
      } else {
        KidsApart(d, lvl, bn, m, i, nb);
      }
    }
  }

  /** Disk e is disk d after the empty address i of block nb was set to the
      fresh block x, itself cleared. */
  ghost predicate Grafted(d: Disk, e: Disk, nb: int, i: nat, x: int) {
    && i < NINDIR && nb != x && x != 0 && At(d, nb)[i] == 0
    && At(e, nb) == At(d, nb)[i := x]
    && At(e, x) == Zeroes()
    && forall b :: b != nb && b != x ==> At(e, b) == At(d, b)
  }

  /** A cleared block is a tree of its own. */
  lemma NewTree(e: Disk, l: nat, x: int)
    requires At(e, x) == Zeroes()
    ensures Sub(e, l, x) == if x == 0 then [] else [x]
    ensures forall j: nat :: j < Pow(l) ==> Look(e, l, x, j) == if l == 0 then x else 0
  {
    if l != 0 {
      KidsOfZeroes(e, l - 1, NINDIR);
      forall j: nat | j < Pow(l)
        ensures Look(e, l, x, j) == 0
      {
        assert Zeroes()[Digit(j, l)] == 0;
      }
    }
  }

  lemma HoleIsEmpty(d: Disk, l: nat)
    ensures Sub(d, l, 0) == []
  {
  }

  /** What the change from d to e at nb, and the fresh block x, leave alone
      around address i of bn: the remaining addresses hold the same trees. */
  ghost predicate Elsewhere(d: Disk, e: Disk, lvl: nat, bn: int, i: nat, nb: int, x: int) {
    && bn != 0 && lvl >= 1 && i < NINDIR && Once(multiset(Sub(d, lvl, bn)))
    && (nb == bn || nb in Sub(d, lvl - 1, At(d, bn)[i]))
    && x !in Sub(d, lvl, bn)
    && forall b :: b != nb && b != x ==> At(e, b) == At(d, b)
  }

  lemma RestUntouched(d: Disk, e: Disk, lvl: nat, bn: int, i: nat, nb: int, x: int)
    requires Elsewhere(d, e, lvl, bn, i, nb, x)
    ensures Kids(e, lvl - 1, At(d, bn)[i := 0], NINDIR) == Kids(d, lvl - 1, At(d, bn)[i := 0], NINDIR)
  {
    hide Sub, Kids, Pow;
    var ws := At(d, bn);
    KidIn(d, lvl, bn, i);
    var whole, rest := multiset(Sub(d, lvl, bn)), multiset(Kids(d, lvl - 1, ws[i := 0], NINDIR));
    assert whole[nb] <= 1 && whole[x] == 0;
    assert nb == bn || multiset(Sub(d, lvl - 1, ws[i]))[nb] >= 1;
    assert rest[nb] == 0 && rest[x] == 0;
    KidsFrame(d, e, lvl - 1, ws[i := 0], NINDIR);
  }

  lemma LookElsewhere(d: Disk, e: Disk, lvl: nat, bn: int, i: nat, nb: int, x: int, j: nat)
    requires Elsewhere(d, e, lvl, bn, i, nb, x)
    requires j < Pow(lvl) && Digit(j, lvl) != i
    ensures var m, r := Digit(j, lvl), DigitRest(j, lvl);
      Look(e, lvl - 1, At(d, bn)[m], r) == Look(d, lvl - 1, At(d, bn)[m], r)
  {
    hide Sub, Kids, Pow, Look;
    var m := Digit(j, lvl);
    KidIn(d, lvl, bn, m);
    if nb != bn {
      KidsApart(d, lvl, bn, i, m, nb);
    } else {
      KidApart(d, lvl, bn, m);
    }
    LookFrame(d, e, lvl - 1, At(d, bn)[m], DigitRest(j, lvl));
  }

  /** A fresh block x is grafted at the node nb on the path to data block k. */
  ghost predicate Graftable(d: Disk, e: Disk, lvl: nat, bn: int, k: nat, l: nat, nb: int, r: nat, x: int) {
    && k < Pow(lvl) && 1 <= l && r < Pow(l)
    && OnPath(d, lvl, bn, k, l, nb, r)
    && Once(multiset(Sub(d, lvl, bn))) && x !in Sub(d, lvl, bn)
    && Grafted(d, e, nb, Digit(r, l), x)
  }

  lemma GraftBelow(d: Disk, e: Disk, lvl: nat, bn: int, k: nat, l: nat, nb: int, r: nat, x: int)
    requires Graftable(d, e, lvl, bn, k, l, nb, r, x) && lvl != l
    ensures lvl >= 1 && bn != 0 && At(e, bn) == At(d, bn)
    ensures Graftable(d, e, lvl - 1, At(d, bn)[Digit(k, lvl)], DigitRest(k, lvl), l, nb, r, x)
    ensures Elsewhere(d, e, lvl, bn, Digit(k, lvl), nb, x)
  {
    hide Sub, Kids, Pow, Digit, DigitRest, Look;
    var i := Digit(k, lvl);
    KidIn(d, lvl, bn, i);
    KidApart(d, lvl, bn, i);
    PathInTree(d, lvl - 1, At(d, bn)[i], DigitRest(k, lvl), l, nb, r);
    PathInTree(d, lvl, bn, k, lvl, bn, k);
  }

  /** Grafting a block into a tree adds that block and nothing else. */
  lemma {:induction false} GraftAdds(d: Disk, e: Disk, lvl: nat, bn: int, k: nat, l: nat, nb: int, r: nat, x: int)
    requires Graftable(d, e, lvl, bn, k, l, nb, r, x)
    ensures multiset(Sub(e, lvl, bn)) == multiset(Sub(d, lvl, bn)) + multiset{x}
    decreases lvl
  {
    hide Sub, Kids, Pow, Look, DigitRest;
    var i := Digit(k, lvl);
    var ws, vs := At(d, bn), At(e, bn);
    if lvl == l {
      NewTree(e, l - 1, x);
      assert Sub(d, l - 1, ws[i]) == [] by {
        HoleIsEmpty(d, l - 1);
      }
      assert vs[i := 0] == ws[i := 0];
    } else {
      GraftBelow(d, e, lvl, bn, k, l, nb, r, x);
      GraftAdds(d, e, lvl - 1, ws[i], DigitRest(k, lvl), l, nb, r, x);
    }
    OneMoreInKid(d, e, lvl, bn, i, nb, x);
  }

  /** A tree whose i-th subtree gained one block gained that block. */
  lemma OneMoreInKid(d: Disk, e: Disk, lvl: nat, bn: int, i: nat, nb: int, x: int)
    requires Elsewhere(d, e, lvl, bn, i, nb, x) && At(e, bn)[i := 0] == At(d, bn)[i := 0]
    requires multiset(Sub(e, lvl - 1, At(e, bn)[i])) == multiset(Sub(d, lvl - 1, At(d, bn)[i])) + multiset{x}
    ensures multiset(Sub(e, lvl, bn)) == multiset(Sub(d, lvl, bn)) + multiset{x}
  {
    hide Sub, Kids, Pow;
    KidIn(d, lvl, bn, i);
    KidIn(e, lvl, bn, i);
    RestUntouched(d, e, lvl, bn, i, nb, x);
  }

  /** It changes the lookup of k only, and only when a data block was added. */
  lemma {:induction false} GraftLook(d: Disk, e: Disk, lvl: nat, bn: int, k: nat, l: nat, nb: int, r: nat, x: int,
                                     j: nat)
    requires Graftable(d, e, lvl, bn, k, l, nb, r, x) && j < Pow(lvl)
    ensures Look(e, lvl, bn, j) == if l == 1 && j == k then x else Look(d, lvl, bn, j)
    decreases lvl
  {
    hide Sub, Kids;
    var i := Digit(k, lvl);
    var ws := At(d, bn);
    if lvl == l {
      NewTree(e, l - 1, x);
    } else {
      GraftBelow(d, e, lvl, bn, k, l, nb, r, x);
    }
    if Digit(j, lvl) != i {
      LookElsewhere(d, e, lvl, bn, i, nb, x, j);
    } else {
      if DigitRest(j, lvl) == DigitRest(k, lvl) {
        DigitsDetermine(j, k, lvl);
      }
      if lvl != l {
        GraftLook(d, e, lvl - 1, ws[i], DigitRest(k, lvl), l, nb, r, x, DigitRest(j, lvl));
      }
    }
  }

  /** The path to k now goes one step further. */
  lemma {:induction false} GraftPath(d: Disk, e: Disk, lvl: nat, bn: int, k: nat, l: nat, nb: int, r: nat, x: int)
    requires Graftable(d, e, lvl, bn, k, l, nb, r, x)
    ensures OnPath(e, lvl, bn, k, l - 1, x, DigitRest(r, l))
    decreases lvl
  {
    hide Sub, Kids, Pow, Look, Digit, DigitRest;
    if lvl != l {
      GraftBelow(d, e, lvl, bn, k, l, nb, r, x);
      GraftPath(d, e, lvl - 1, At(d, bn)[Digit(k, lvl)], DigitRest(k, lvl), l, nb, r, x);
    }
  }

  lemma {:induction false} NoMarker(d: Disk, lvl: nat, bn: int)
    ensures 0 !in Sub(d, lvl, bn)
    decreases lvl, 0
  {
    if bn != 0 && lvl != 0 {
      NoMarkerKids(d, lvl - 1, At(d, bn), NINDIR);
    }
  }

  lemma {:induction false} NoMarkerKids(d: Disk, lvl: nat, ws: Block, n: nat)
    requires n <= NINDIR
    ensures 0 !in Kids(d, lvl, ws, n)
    decreases lvl, n + 1
  {
    if n > 0 {
      NoMarker(d, lvl, ws[n - 1]);
      NoMarkerKids(d, lvl, ws, n - 1);
    }
  }

  /** Writing data block k of a tree changes neither its blocks nor any lookup. */
  lemma {:induction false} LeafWrite(d: Disk, e: Disk, lvl: nat, bn: int, k: nat)
    requires k < Pow(lvl) && Look(d, lvl, bn, k) != 0 && Once(multiset(Sub(d, lvl, bn)))
    requires forall b :: b != Look(d, lvl, bn, k) ==> At(e, b) == At(d, b)
    ensures multiset(Sub(e, lvl, bn)) == multiset(Sub(d, lvl, bn))
    ensures forall j: nat :: j < Pow(lvl) ==> Look(e, lvl, bn, j) == Look(d, lvl, bn, j)
    decreases lvl
  {
    if lvl != 0 {
      hide Sub, Kids, Pow;
      var i, r := Digit(k, lvl), DigitRest(k, lvl);
      var leaf := Look(d, lvl, bn, k);
      KidApart(d, lvl, bn, i);
      LookInTree(d, lvl - 1, At(d, bn)[i], r);
      NoMarker(d, lvl, bn);
      assert Elsewhere(d, e, lvl, bn, i, leaf, 0);
      LeafWrite(d, e, lvl - 1, At(d, bn)[i], r);
      RestUntouched(d, e, lvl, bn, i, leaf, 0);
      KidIn(d, lvl, bn, i);
      KidIn(e, lvl, bn, i);
      forall j: nat | j < Pow(lvl)
        ensures Look(e, lvl, bn, j) == Look(d, lvl, bn, j)
      {
        if Digit(j, lvl) != i {
          LookElsewhere(d, e, lvl, bn, i, leaf, 0, j);
        }
      }
    }
  }

  /** How many blocks must be allocated to reach data block k. */
  ghost function Missing(d: Disk, lvl: nat, bn: int, k: nat): (m: nat)
    requires k < Pow(lvl)
    decreases lvl
  {
    if bn == 0 then lvl + 1
    else if lvl == 0 then 0
    else Missing(d, lvl - 1, At(d, bn)[Digit(k, lvl)], DigitRest(k, lvl))
  }

  function Reversed(s: seq<int>): (r: seq<int>)
    ensures |r| == |s|
  {
    if s == [] then [] else [s[|s| - 1]] + Reversed(s[..|s| - 1])
  }

  lemma {:induction false} ReversedConcat(s: seq<int>, t: seq<int>)
    ensures Reversed(s + t) == Reversed(t) + Reversed(s)
  {
    if t == [] {
      assert s + t == s;
    } else {
      ReversedConcat(s, t[..|t| - 1]);
      assert (s + t)[..|s + t| - 1] == s + t[..|t| - 1];
    }
  }
}
