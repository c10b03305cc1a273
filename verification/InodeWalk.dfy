/** fsck's walk over the blocks of an inode, direct and indirect, and the phases
    that it serves: claiming blocks, looking for duplicates again, and releasing. */
module InodeWalk {
  import opened Disk
  import opened BlockTree
  import opened FileTree
  import opened DupTable
  import opened FsckTypes

  // The order of the walk.

  /** The blocks that a walk below the address bn comes to on an arbitrary disk: a
      block outside the volume is not followed. */
  ghost function Visits(lo: int, hi: int, d: Disk, lvl: nat, bn: int): seq<int>
    decreases lvl, 0
  {
    if bn == 0 then []
    else if lvl == 0 || OutRange(lo, hi, bn) then [bn]
    else [bn] + KidsVisits(lo, hi, d, lvl - 1, At(d, bn), |At(d, bn)|)
  }

  ghost function KidsVisits(lo: int, hi: int, d: Disk, lvl: nat, ws: Block, n: nat): seq<int>
    requires n <= NINDIR
    decreases lvl, n + 1
  {
    if n == 0 then [] else KidsVisits(lo, hi, d, lvl, ws, n - 1) + Visits(lo, hi, d, lvl, ws[n - 1])
  }

  ghost function FileVisits(lo: int, hi: int, d: Disk, a: Addrs, n: nat): seq<int>
    requires n <= NADDR
  {
    if n == 0 then [] else FileVisits(lo, hi, d, a, n - 1) + Visits(lo, hi, d, LevelOf(n - 1), a[n - 1])
  }

  /** An inode in use: special files have no blocks. */
  datatype Inode = Inode(special: bool, addrs: Addrs)

  ghost function InodeVisits(lo: int, hi: int, d: Disk, i: Inode): seq<int> {
    if i.special then [] else FileVisits(lo, hi, d, i.addrs, NADDR)
  }

  ghost function AllVisits(lo: int, hi: int, d: Disk, inos: seq<Inode>): seq<int> {
    if inos == [] then [] else AllVisits(lo, hi, d, inos[..|inos| - 1]) + InodeVisits(lo, hi, d, inos[|inos| - 1])
  }

  /** Those in the volume, each as often as it is come to: what the walk claims. */
  function ClaimsOf(lo: int, hi: int, vs: seq<int>): multiset<int> {
    if vs == [] then multiset{}
    else ClaimsOf(lo, hi, vs[..|vs| - 1]) +
         if OutRange(lo, hi, vs[|vs| - 1]) then multiset{} else multiset{vs[|vs| - 1]}
  }

  lemma ClaimsOfNone(lo: int, hi: int)
    ensures ClaimsOf(lo, hi, []) == multiset{}
  {
  }

  lemma ClaimsOfOne(lo: int, hi: int, b: int)
    ensures ClaimsOf(lo, hi, [b]) == if OutRange(lo, hi, b) then multiset{} else multiset{b}
  {
    assert [b][..0] == [];
  }

  lemma {:induction false} ClaimsOfConcat(lo: int, hi: int, vs: seq<int>, ws: seq<int>)
    ensures ClaimsOf(lo, hi, vs + ws) == ClaimsOf(lo, hi, vs) + ClaimsOf(lo, hi, ws)
  {
    hide *;
    if ws == [] {
      ClaimsOfNone(lo, hi);
      assert vs + ws == vs;
    } else {
      var init, b := ws[..|ws| - 1], ws[|ws| - 1];
      ClaimsOfConcat(lo, hi, vs, init);
      ClaimsOfLast(lo, hi, vs + init, b);
      ClaimsOfLast(lo, hi, init, b);
      assert vs + ws == vs + init + [b] && ws == init + [b];
    }
  }

  lemma ClaimsOfLast(lo: int, hi: int, vs: seq<int>, b: int)
    ensures ClaimsOf(lo, hi, vs + [b]) == ClaimsOf(lo, hi, vs) + if OutRange(lo, hi, b) then multiset{} else multiset{b}
  {
    assert (vs + [b])[..|vs|] == vs;
  }

  lemma {:induction false} ClaimsOfCount(lo: int, hi: int, vs: seq<int>, b: int)
    ensures ClaimsOf(lo, hi, vs)[b] == if OutRange(lo, hi, b) then 0 else multiset(vs)[b]
  {
    if vs != [] {
      ClaimsOfCount(lo, hi, vs[..|vs| - 1], b);
      assert vs == vs[..|vs| - 1] + [vs[|vs| - 1]];
    }
  }

  // What the walk is for.

  datatype Pfunc = PASS1 | PASS1B | PASS4

  /** What counts of the state: the claims, what was wrong, the table of duplicates
      and the blocks in its front. */
  datatype Tally = Tally(claims: multiset<int>, bad: int, dup: int, table: multiset<int>, front: set<int>)

  ghost predicate Ready(c: Claims, pf: Pfunc)
    reads c, c.blkmap, c.duplist
  {
    && c.Valid()
    && match pf
      case PASS1 => Front(c.Table(), c.muldup) && c.badblk < MAXBAD && c.dupblk < MAXDUP
      case PASS1B => Distinct(c.Table(), c.muldup) && c.muldup > 0
      case PASS4 => true
  }

  /** After a call that stopped the front may be empty, or a limit reached. */
  ghost predicate Over(c: Claims, pf: Pfunc, r: Status)
    reads c, c.blkmap, c.duplist
  {
    if pf == PASS1B && r == Stop then c.Valid() && Distinct(c.Table(), c.muldup) && c.muldup == 0
    else if pf == PASS1 && !GoesOn(r) then c.Valid() && Front(c.Table(), c.muldup)
    else Ready(c, pf)
  }

  ghost function Now(c: Claims): Tally
    requires c.Valid()
    reads c, c.blkmap, c.duplist
  {
    Tally(c.claims, c.badblk, c.dupblk, multiset(c.Table()), FrontSet(c.Table(), c.muldup))
  }

  ghost function FrontSet(t: seq<int>, n: nat): set<int> { set b | b in t && n <= |t| && b in t[..n] }

  predicate GoesOn(r: Status) { r == KeepOn || r == Skip }

  /** The blocks are in the volume, and nothing is claimed twice. */
  ghost predicate Fits(lo: int, hi: int, claims: multiset<int>, vs: seq<int>) {
    (forall b :: b in vs ==> !OutRange(lo, hi, b)) && Once(claims + multiset(vs))
  }

  /** How many of the blocks come to are outside the volume, */
  ghost function Outs(lo: int, hi: int, vs: seq<int>): nat {
    if vs == [] then 0 else Outs(lo, hi, vs[..|vs| - 1]) + if OutRange(lo, hi, vs[|vs| - 1]) then 1 else 0
  }

  /** and how many are claimed already when they are come to. */
  ghost function Repeats(lo: int, hi: int, claims: multiset<int>, vs: seq<int>): nat {
    if vs == [] then 0
    else
      var before, b := vs[..|vs| - 1], vs[|vs| - 1];
      Repeats(lo, hi, claims, before) +
      if !OutRange(lo, hi, b) && b in claims + ClaimsOf(lo, hi, before) then 1 else 0
  }

  /** An inode is not broken off before it has ten blocks outside the volume or ten
      claimed already, or there are more copies than the table can hold. */
  ghost predicate Allowed(lo: int, hi: int, s: Tally, vs: seq<int>) {
    && s.bad + Outs(lo, hi, vs) < 10
    && s.dup + Repeats(lo, hi, s.claims, vs) < 10
    && |s.table| + Repeats(lo, hi, s.claims, vs) <= 100
  }

  /** The state after all of vs was claimed. */
  ghost predicate AllClaimed(lo: int, hi: int, s: Tally, t: Tally, vs: seq<int>) {
    && t.claims == s.claims + ClaimsOf(lo, hi, vs)
    && |t.table| == |s.table| + Repeats(lo, hi, s.claims, vs)
  }

  /** Only the first p were, and the next is one too many. */
  ghost predicate ClaimedTo(lo: int, hi: int, s: Tally, t: Tally, vs: seq<int>, p: nat) {
    && p < |vs| && Allowed(lo, hi, s, vs[..p]) && !Allowed(lo, hi, s, vs[..p + 1])
    && AllClaimed(lo, hi, s, t, vs[..p])
  }

  /** Claiming adds what was come to, unless there is too much that is wrong: then it
      stops there. */
  ghost predicate DidClaim(lo: int, hi: int, r: Status, s: Tally, t: Tally, vs: seq<int>) {
    && (GoesOn(r) <==> Allowed(lo, hi, s, vs))
    && (GoesOn(r) ==> AllClaimed(lo, hi, s, t, vs) && t.bad == s.bad + Outs(lo, hi, vs))
    && (GoesOn(r) ==> t.dup == s.dup + Repeats(lo, hi, s.claims, vs))
    && (!GoesOn(r) ==> exists p: nat :: ClaimedTo(lo, hi, s, t, vs, p))
  }

  lemma {:induction false} OutsConcat(lo: int, hi: int, vs: seq<int>, ws: seq<int>)
    ensures Outs(lo, hi, vs + ws) == Outs(lo, hi, vs) + Outs(lo, hi, ws)
  {
    if ws == [] {
      assert vs + ws == vs;
    } else {
      var init, b := ws[..|ws| - 1], ws[|ws| - 1];
      OutsConcat(lo, hi, vs, init);
      assert (vs + ws)[..|vs + ws| - 1] == vs + init;
    }
  }

  lemma {:induction false} RepeatsConcat(lo: int, hi: int, claims: multiset<int>, vs: seq<int>, ws: seq<int>)
    ensures Repeats(lo, hi, claims, vs + ws) ==
      Repeats(lo, hi, claims, vs) + Repeats(lo, hi, claims + ClaimsOf(lo, hi, vs), ws)
  {
    if ws == [] {
      assert vs + ws == vs;
    } else {
      var init, b := ws[..|ws| - 1], ws[|ws| - 1];
      RepeatsConcat(lo, hi, claims, vs, init);
      ClaimsOfConcat(lo, hi, vs, init);
      assert (vs + ws)[..|vs + ws| - 1] == vs + init && (vs + ws)[|vs + ws| - 1] == b;
      hide ClaimsOf;
      assert claims + ClaimsOf(lo, hi, vs + init) == claims + ClaimsOf(lo, hi, vs) + ClaimsOf(lo, hi, init);
    }
  }

  /** What is allowed of a longer walk. */
  lemma AllowedThen(lo: int, hi: int, s: Tally, t: Tally, vs: seq<int>, ws: seq<int>)
    requires AllClaimed(lo, hi, s, t, vs)
    requires t.bad == s.bad + Outs(lo, hi, vs) && t.dup == s.dup + Repeats(lo, hi, s.claims, vs)
    ensures Allowed(lo, hi, s, vs + ws) <==> Allowed(lo, hi, t, ws)
    ensures Repeats(lo, hi, s.claims, vs + ws) == Repeats(lo, hi, s.claims, vs) + Repeats(lo, hi, t.claims, ws)
    ensures Outs(lo, hi, vs + ws) == Outs(lo, hi, vs) + Outs(lo, hi, ws)
  {
    OutsConcat(lo, hi, vs, ws);
    RepeatsConcat(lo, hi, s.claims, vs, ws);
    hide Outs, Repeats, ClaimsOf;
  }

  lemma AllowedLess(lo: int, hi: int, s: Tally, vs: seq<int>, ws: seq<int>)
    requires Allowed(lo, hi, s, vs + ws)
    ensures Allowed(lo, hi, s, vs)
  {
    OutsConcat(lo, hi, vs, ws);
    RepeatsConcat(lo, hi, s.claims, vs, ws);
    hide Outs, Repeats, ClaimsOf;
  }

  /** What fits has nothing wrong. */
  lemma {:induction false} FitsRight(lo: int, hi: int, claims: multiset<int>, vs: seq<int>)
    requires Fits(lo, hi, claims, vs)
    ensures Outs(lo, hi, vs) == 0 && Repeats(lo, hi, claims, vs) == 0
  {
    if vs != [] {
      var init, b := vs[..|vs| - 1], vs[|vs| - 1];
      assert vs == init + [b];
      FitsBoth(lo, hi, claims, init, [b]);
      FitsRight(lo, hi, claims, init);
      FitsAll(lo, hi, claims, init);
      assert (claims + multiset(init) + multiset([b]))[b] <= 1;
      assert b in vs;
    }
  }

  /** Each block of the front that was come to is reported once and leaves the
      front; it stops when none is left. */
  ghost predicate DidScan(lo: int, hi: int, r: Status, s: Tally, t: Tally, vs: seq<int>, rep: seq<int>) {
    && r != Exit && t.claims == s.claims && t.table == s.table
    && Distinct(rep, |rep|) && (forall b :: b in rep ==> b in s.front && b in vs && !OutRange(lo, hi, b))
    && (forall b :: b in t.front <==> b in s.front && b !in rep)
    && (GoesOn(r) ==> forall b :: b in s.front && b in vs && !OutRange(lo, hi, b) ==> b in rep)
    && (r == Stop ==> t.front == {})
  }

  ghost predicate DidRelease(lo: int, hi: int, r: Status, s: Tally, t: Tally, vs: seq<int>) {
    GoesOn(r) && t.claims == s.claims - ClaimsOf(lo, hi, vs)
  }

  /** What a part of the walk did that came to vs, reporting rep. */
  ghost predicate Did(pf: Pfunc, lo: int, hi: int, r: Status, s: Tally, t: Tally, vs: seq<int>, rep: seq<int>) {
    match pf
    case PASS1 => DidClaim(lo, hi, r, s, t, vs)
    case PASS1B => DidScan(lo, hi, r, s, t, vs, rep)
    case PASS4 => DidRelease(lo, hi, r, s, t, vs)
  }

  lemma DidNothing(pf: Pfunc, lo: int, hi: int, s: Tally)
    requires pf == PASS1 ==> s.bad < MAXBAD && s.dup < MAXDUP && |s.table| <= DUPTBLSIZE
    ensures Did(pf, lo, hi, KeepOn, s, s, [], [])
  {
    ClaimsOfNone(lo, hi);
    assert s.claims - multiset{} == s.claims == s.claims + multiset{};
  }

  lemma ReadyNothing(c: Claims, pf: Pfunc)
    requires Ready(c, pf)
    ensures c.Valid() && Did(pf, c.fmin, c.fmax, KeepOn, Now(c), Now(c), [], [])
  {
    hide Did;
    assert |multiset(c.Table())| == c.enddup;
    DidNothing(pf, c.fmin, c.fmax, Now(c));
  }

  lemma FitsBoth(lo: int, hi: int, claims: multiset<int>, vs: seq<int>, ws: seq<int>)
    requires Fits(lo, hi, claims, vs + ws)
    ensures Fits(lo, hi, claims, vs) && Fits(lo, hi, claims + multiset(vs), ws)
  {
    assert forall b :: b in vs || b in ws ==> b in vs + ws;
    assert multiset(vs + ws) == multiset(vs) + multiset(ws);
    forall b
      ensures (claims + multiset(vs))[b] <= 1 && (claims + multiset(vs) + multiset(ws))[b] <= 1
    {
      assert (claims + multiset(vs + ws))[b] <= 1;
    }
  }

  lemma FitsAll(lo: int, hi: int, claims: multiset<int>, vs: seq<int>)
    requires Fits(lo, hi, claims, vs)
    ensures ClaimsOf(lo, hi, vs) == multiset(vs)
  {
    forall b
      ensures ClaimsOf(lo, hi, vs)[b] == multiset(vs)[b]
    {
      ClaimsOfCount(lo, hi, vs, b);
    }
  }

  lemma ClaimThen(lo: int, hi: int, n: Status, s: Tally, t: Tally, u: Tally, vs: seq<int>, ws: seq<int>)
    requires DidClaim(lo, hi, KeepOn, s, t, vs) && DidClaim(lo, hi, n, t, u, ws)
    ensures DidClaim(lo, hi, n, s, u, vs + ws)
  {
    hide Outs, Repeats, ClaimsOf, Allowed, ClaimedTo;
    AllowedThen(lo, hi, s, t, vs, ws);
    if GoesOn(n) {
      ClaimedThen(lo, hi, s, t, u, vs, ws);
    } else {
      var p: nat :| ClaimedTo(lo, hi, t, u, ws, p);
      StoppedThen(lo, hi, s, t, u, vs, ws, p, |vs| + p);
    }
  }

  lemma ClaimedThen(lo: int, hi: int, s: Tally, t: Tally, u: Tally, vs: seq<int>, ws: seq<int>)
    requires AllClaimed(lo, hi, s, t, vs) && AllClaimed(lo, hi, t, u, ws)
    ensures AllClaimed(lo, hi, s, u, vs + ws)
  {
    ClaimsOfConcat(lo, hi, vs, ws);
    RepeatsConcat(lo, hi, s.claims, vs, ws);
    hide Repeats, ClaimsOf;
  }

  lemma StoppedThen(lo: int, hi: int, s: Tally, t: Tally, u: Tally, vs: seq<int>, ws: seq<int>, p: nat, q: nat)
    requires AllClaimed(lo, hi, s, t, vs) && ClaimedTo(lo, hi, t, u, ws, p) && q == |vs| + p
    requires t.bad == s.bad + Outs(lo, hi, vs) && t.dup == s.dup + Repeats(lo, hi, s.claims, vs)
    ensures ClaimedTo(lo, hi, s, u, vs + ws, q)
  {
    hide Outs, Repeats, ClaimsOf, Allowed, AllClaimed;
    var x, y := ws[..p], ws[..p + 1];
    StoppedAt(lo, hi, s, t, u, vs, x, y);
    SliceThen(vs, ws, p, q);
  }

  lemma SliceThen(vs: seq<int>, ws: seq<int>, p: nat, q: nat)
    requires p < |ws| && q == |vs| + p
    ensures q < |vs + ws| && (vs + ws)[..q] == vs + ws[..p] && (vs + ws)[..q + 1] == vs + ws[..p + 1]
  {
  }

  lemma StoppedAt(lo: int, hi: int, s: Tally, t: Tally, u: Tally, vs: seq<int>, x: seq<int>, y: seq<int>)
    requires AllClaimed(lo, hi, s, t, vs) && AllClaimed(lo, hi, t, u, x)
    requires t.bad == s.bad + Outs(lo, hi, vs) && t.dup == s.dup + Repeats(lo, hi, s.claims, vs)
    requires Allowed(lo, hi, t, x) && !Allowed(lo, hi, t, y)
    ensures Allowed(lo, hi, s, vs + x) && !Allowed(lo, hi, s, vs + y) && AllClaimed(lo, hi, s, u, vs + x)
  {
    hide *;
    AllowedThen(lo, hi, s, t, vs, x);
    AllowedThen(lo, hi, s, t, vs, y);
    ClaimedThen(lo, hi, s, t, u, vs, x);
  }

  lemma ScanThen(lo: int, hi: int, n: Status, s: Tally, t: Tally, u: Tally, vs: seq<int>, ws: seq<int>, rep: seq<int>,
                 rep': seq<int>)
    requires DidScan(lo, hi, KeepOn, s, t, vs, rep) && DidScan(lo, hi, n, t, u, ws, rep')
    ensures DidScan(lo, hi, n, s, u, vs + ws, rep + rep')
  {
    var all := rep + rep';
    forall i, j | 0 <= i < j < |all|
      ensures all[i] != all[j]
    {
      if i < |rep| <= j {
        assert all[i] == rep[i] && all[j] == rep'[j - |rep|];
        assert rep[i] in rep && rep'[j - |rep|] in rep';
        assert rep'[j - |rep|] in t.front;
      }
    }
    assert forall b :: b in vs + ws <==> b in vs || b in ws;
  }

  lemma ReleaseThen(lo: int, hi: int, n: Status, s: Tally, t: Tally, u: Tally, vs: seq<int>, ws: seq<int>)
    requires DidRelease(lo, hi, KeepOn, s, t, vs) && DidRelease(lo, hi, n, t, u, ws)
    ensures DidRelease(lo, hi, n, s, u, vs + ws)
  {
    ClaimsOfConcat(lo, hi, vs, ws);
    var x, y := ClaimsOf(lo, hi, vs), ClaimsOf(lo, hi, ws);
    assert s.claims - x - y == s.claims - (x + y);
  }

  /** Two parts of a walk after one another. */
  lemma DidThen(pf: Pfunc, lo: int, hi: int, n: Status, s: Tally, t: Tally, u: Tally, vs: seq<int>, ws: seq<int>,
                rep: seq<int>, rep': seq<int>)
    requires Did(pf, lo, hi, KeepOn, s, t, vs, rep) && Did(pf, lo, hi, n, t, u, ws, rep')
    ensures Did(pf, lo, hi, n, s, u, vs + ws, rep + rep')
  {
    hide DidClaim, DidScan, DidRelease;
    match pf {
      case PASS1 => ClaimThen(lo, hi, n, s, t, u, vs, ws);
      case PASS1B => ScanThen(lo, hi, n, s, t, u, vs, ws, rep, rep');
      case PASS4 => ReleaseThen(lo, hi, n, s, t, u, vs, ws);
    }
  }

  /** Skipping and going on are the same to a walk. */
  lemma DidOn(pf: Pfunc, lo: int, hi: int, n: Status, s: Tally, t: Tally, vs: seq<int>, rep: seq<int>)
    requires Did(pf, lo, hi, n, s, t, vs, rep) && GoesOn(n)
    ensures Did(pf, lo, hi, KeepOn, s, t, vs, rep)
  {
    hide Fits, ClaimsOf;
  }

  /** A walk that was stopped did not come to the rest. */
  lemma DidStop(pf: Pfunc, lo: int, hi: int, n: Status, s: Tally, t: Tally, vs: seq<int>, ws: seq<int>, rep: seq<int>)
    requires Did(pf, lo, hi, n, s, t, vs, rep) && !GoesOn(n)
    ensures Did(pf, lo, hi, n, s, t, vs + ws, rep)
  {
    assert forall b :: b in vs ==> b in vs + ws;
    hide Outs, Repeats, ClaimsOf, Allowed, AllClaimed;
    if pf == PASS1 {
      var p: nat :| ClaimedTo(lo, hi, s, t, vs, p);
      assert (vs + ws)[..p] == vs[..p] && (vs + ws)[..p + 1] == vs[..p + 1];
      assert ClaimedTo(lo, hi, s, t, vs + ws, p);
      if Allowed(lo, hi, s, vs + ws) {
        AllowedLess(lo, hi, s, vs, ws);
      }
    }
  }

  // The walk.

  /** Call the pass on one block. */
  method Apply(c: Claims, pf: Pfunc, blk: int) returns (r: Status, rep: seq<int>)
    requires Ready(c, pf)
    modifies c, c.blkmap, c.duplist
    ensures Over(c, pf, r) && Did(pf, c.fmin, c.fmax, r, old(Now(c)), Now(c), [blk], rep)
    ensures GoesOn(r) ==> (r == Skip <==> OutRange(c.fmin, c.fmax, blk))
  {
    hide Agrees, Front, Marked, Distinct, InVolume, Fits, DidClaim, DidScan, DidRelease, Now;
    rep := [];
    match pf {
      case PASS1 => r := Claim(c, blk);
      case PASS1B => r, rep := Scan(c, blk);
      case PASS4 => r := Release(c, blk);
    }
  }

  method Claim(c: Claims, blk: int) returns (r: Status)
    requires Ready(c, PASS1)
    modifies c, c.blkmap, c.duplist
    ensures Over(c, PASS1, r)
    ensures DidClaim(c.fmin, c.fmax, r, old(Now(c)), Now(c), [blk])
    ensures GoesOn(r) ==> (r == Skip <==> OutRange(c.fmin, c.fmax, blk))
  {
    hide Agrees, Front, Marked, Distinct, InVolume, DidClaim;
    ghost var s := Now(c);
    ClaimedOne(c.fmin, c.fmax, s.claims, c.blkmap[..], c.Table(), blk);
    var reply := Reply();
    r := c.Pass1(blk, reply);
    ClaimOne(c.fmin, c.fmax, r, s, Now(c), blk);
  }

  method Scan(c: Claims, blk: int) returns (r: Status, rep: seq<int>)
    requires c.Valid() && Distinct(c.Table(), c.muldup) && c.muldup > 0
    modifies c, c.duplist
    ensures c.Valid() && Distinct(c.Table(), c.muldup) && (c.muldup == 0 <==> r == Stop)
    ensures DidScan(c.fmin, c.fmax, r, old(Now(c)), Now(c), [blk], rep)
    ensures GoesOn(r) ==> (r == Skip <==> OutRange(c.fmin, c.fmax, blk))
  {
    hide Agrees, Marked, Distinct, InVolume, DidScan;
    ghost var s, t, n := Now(c), c.Table(), c.muldup;
    DistinctFits(t, n);
    var found;
    r, found := c.Pass1b(blk);
    rep := if found then [blk] else [];
    DistinctFits(c.Table(), c.muldup);
    ScanOne(c.fmin, c.fmax, r, t, n, c.Table(), c.muldup, s, Now(c), blk, found);
  }

  method Release(c: Claims, blk: int) returns (r: Status)
    requires c.Valid()
    modifies c, c.blkmap, c.duplist
    ensures c.Valid() && DidRelease(c.fmin, c.fmax, r, old(Now(c)), Now(c), [blk])
    ensures r == Skip <==> OutRange(c.fmin, c.fmax, blk)
  {
    ghost var s := Now(c);
    if OutRange(c.fmin, c.fmax, blk) {
      NotClaimed(c.fmin, c.fmax, c.claims, c.blkmap[..], c.Table(), blk);
    }
    hide Agrees, Marked, Distinct, InVolume, DidRelease;
    r := c.Pass4(blk);
    ReleaseOne(c.fmin, c.fmax, r, s, Now(c), blk);
  }

  /** Nothing outside the volume is claimed. */
  lemma NotClaimed(lo: int, hi: int, claims: multiset<int>, bits: seq<bool>, t: seq<int>, b: int)
    requires Agrees(claims, bits, t) && InVolume(bits, lo) && |bits| == hi && OutRange(lo, hi, b)
    ensures claims[b] == 0
  {
  }

  /** A block of the volume has a bit if it is claimed. */
  lemma ClaimedOne(lo: int, hi: int, claims: multiset<int>, bits: seq<bool>, t: seq<int>, b: int)
    requires Agrees(claims, bits, t) && |bits| == hi && lo >= 0
    ensures !OutRange(lo, hi, b) ==> (b in claims <==> bits[b])
  {
  }

  lemma ClaimOne(lo: int, hi: int, r: Status, s: Tally, t: Tally, b: int)
    requires var again := !OutRange(lo, hi, b) && b in s.claims;
      && t.claims == (if r == KeepOn then s.claims + multiset{b} else s.claims)
      && (r == KeepOn <==> !OutRange(lo, hi, b) && (again ==> s.dup + 1 < 10 && |s.table| < 100))
      && (r == Skip <==> OutRange(lo, hi, b) && s.bad + 1 < 10)
      && t.bad == s.bad + (if OutRange(lo, hi, b) then 1 else 0)
      && t.dup == s.dup + (if again then 1 else 0)
      && |t.table| == |s.table| + if r == KeepOn && again then 1 else 0
    requires s.bad < 10 && s.dup < 10 && |s.table| <= 100
    ensures DidClaim(lo, hi, r, s, t, [b])
  {
    ClaimsOfOne(lo, hi, b);
    var vs := [b];
    assert vs[..0] == [] && vs[..1] == vs;
    assert s.claims + multiset{} == s.claims;
    assert Outs(lo, hi, vs) == if OutRange(lo, hi, b) then 1 else 0;
    assert Repeats(lo, hi, s.claims, vs) == if !OutRange(lo, hi, b) && b in s.claims then 1 else 0;
    assert !GoesOn(r) ==> ClaimedTo(lo, hi, s, t, vs, 0);
  }

  lemma ScanOne(lo: int, hi: int, r: Status, t0: seq<int>, n0: nat, t1: seq<int>, n1: nat, s: Tally, t: Tally, b: int,
                found: bool)
    requires n0 <= |t0| && n1 <= |t1| && multiset(t1) == multiset(t0)
    requires found <==> !OutRange(lo, hi, b) && b in t0[..n0]
    requires forall x :: x in t1[..n1] <==> x in t0[..n0] && !(found && x == b)
    requires r == if OutRange(lo, hi, b) then Skip else if found && n1 == 0 then Stop else KeepOn
    requires s.front == FrontSet(t0, n0) && t.front == FrontSet(t1, n1)
    requires t.claims == s.claims && s.table == multiset(t0) && t.table == multiset(t1)
    ensures DidScan(lo, hi, r, s, t, [b], if found then [b] else [])
  {
    forall x
      ensures (x in s.front <==> x in t0[..n0]) && (x in t.front <==> x in t1[..n1])
    {
    }
  }

  lemma ReleaseOne(lo: int, hi: int, r: Status, s: Tally, t: Tally, b: int)
    requires t.claims == s.claims - multiset{b} && r == (if OutRange(lo, hi, b) then Skip else KeepOn)
    requires OutRange(lo, hi, b) ==> s.claims[b] == 0
    ensures DidRelease(lo, hi, r, s, t, [b])
  {
    ClaimsOfOne(lo, hi, b);
    if OutRange(lo, hi, b) {
      assert s.claims - multiset{b} == s.claims - multiset{};
    }
  }

  lemma VisitsLeaf(lo: int, hi: int, d: Disk, lvl: nat, bn: int)
    ensures Visits(lo, hi, d, lvl, 0) == []
    ensures bn != 0 && (lvl == 0 || OutRange(lo, hi, bn)) ==> Visits(lo, hi, d, lvl, bn) == [bn]
  {
  }

  lemma VisitsNode(lo: int, hi: int, d: Disk, lvl: nat, bn: int)
    requires bn != 0 && lvl >= 1 && !OutRange(lo, hi, bn)
    ensures Visits(lo, hi, d, lvl, bn) == [bn] + KidsVisits(lo, hi, d, lvl - 1, At(d, bn), |At(d, bn)|)
  {
  }

  lemma KidsNone(lo: int, hi: int, d: Disk, lvl: nat, ws: Block)
    ensures KidsVisits(lo, hi, d, lvl, ws, 0) == []
  {
  }

  lemma KidsNext(lo: int, hi: int, d: Disk, lvl: nat, ws: Block, n: nat)
    requires n < NINDIR
    ensures KidsVisits(lo, hi, d, lvl, ws, n + 1) == KidsVisits(lo, hi, d, lvl, ws, n) + Visits(lo, hi, d, lvl, ws[n])
  {
    hide Visits;
  }

  lemma Associate(s: seq<int>, t: seq<int>, u: seq<int>)
    ensures s + (t + u) == s + t + u && s + [] == s
  {
  }

  /** The rest of an indirect block. */
  lemma {:induction false} KidsAll(lo: int, hi: int, d: Disk, lvl: nat, ws: Block, n: nat, m: nat)
    returns (rest: seq<int>)
    requires n <= m <= NINDIR
    ensures KidsVisits(lo, hi, d, lvl, ws, m) == KidsVisits(lo, hi, d, lvl, ws, n) + rest
    decreases m
  {
    hide *;
    if n == m {
      rest := [];
    } else {
      var some := KidsAll(lo, hi, d, lvl, ws, n, m - 1);
      KidsNext(lo, hi, d, lvl, ws, m - 1);
      rest := some + Visits(lo, hi, d, lvl, ws[m - 1]);
      Associate(KidsVisits(lo, hi, d, lvl, ws, n), some, Visits(lo, hi, d, lvl, ws[m - 1]));
    }
  }

  /** A walk that ended at an indirect block itself, or at one of its addresses. */
  lemma StopsThere(pf: Pfunc, lo: int, hi: int, n: Status, s: Tally, t: Tally, d: Disk, lvl: nat, bn: int,
                   rep: seq<int>)
    requires Did(pf, lo, hi, n, s, t, [bn], rep) && !GoesOn(n) && bn != 0
    ensures Did(pf, lo, hi, n, s, t, Visits(lo, hi, d, lvl, bn), rep)
  {
    hide Did;
    if lvl == 0 || OutRange(lo, hi, bn) {
      VisitsLeaf(lo, hi, d, lvl, bn);
    } else {
      VisitsNode(lo, hi, d, lvl, bn);
      DidStop(pf, lo, hi, n, s, t, [bn], KidsVisits(lo, hi, d, lvl - 1, At(d, bn), |At(d, bn)|), rep);
    }
  }

  lemma KidStops(pf: Pfunc, lo: int, hi: int, n: Status, s: Tally, t: Tally, d: Disk, lvl: nat, bn: int, ap: nat,
                 rep: seq<int>)
    requires bn != 0 && lvl >= 1 && !OutRange(lo, hi, bn) && ap < NINDIR && !GoesOn(n)
    requires Did(pf, lo, hi, n, s, t, [bn] + KidsVisits(lo, hi, d, lvl - 1, At(d, bn), ap + 1), rep)
    ensures Did(pf, lo, hi, n, s, t, Visits(lo, hi, d, lvl, bn), rep)
  {
    hide *;
    assert |At(d, bn)| == NINDIR;
    VisitsNode(lo, hi, d, lvl, bn);
    var some := KidsVisits(lo, hi, d, lvl - 1, At(d, bn), ap + 1);
    var rest := KidsAll(lo, hi, d, lvl - 1, At(d, bn), ap + 1, |At(d, bn)|);
    assert [bn] + some + rest == [bn] + (some + rest);
    DidStop(pf, lo, hi, n, s, t, [bn] + some, rest, rep);
  }

  lemma KidDone(pf: Pfunc, lo: int, hi: int, n: Status, s: Tally, t: Tally, u: Tally, d: Disk, lvl: nat, bn: int,
                ap: nat, rep: seq<int>, rep': seq<int>)
    requires lvl >= 1 && ap < |At(d, bn)|
    requires Did(pf, lo, hi, KeepOn, s, t, [bn] + KidsVisits(lo, hi, d, lvl - 1, At(d, bn), ap), rep)
    requires Did(pf, lo, hi, n, t, u, Visits(lo, hi, d, lvl - 1, At(d, bn)[ap]), rep')
    ensures Did(pf, lo, hi, n, s, u, [bn] + KidsVisits(lo, hi, d, lvl - 1, At(d, bn), ap + 1), rep + rep')
  {
    hide *;
    var some, kid := KidsVisits(lo, hi, d, lvl - 1, At(d, bn), ap), Visits(lo, hi, d, lvl - 1, At(d, bn)[ap]);
    DidThen(pf, lo, hi, n, s, t, u, [bn] + some, kid, rep, rep');
    KidsNext(lo, hi, d, lvl - 1, At(d, bn), ap);
    assert [bn] + some + kid == [bn] + (some + kid);
  }

  lemma BlockSize(b: Block)
    ensures |b| == NINDIR
  {
  }

  lemma ReadyOver(c: Claims, pf: Pfunc, r: Status)
    ensures GoesOn(r) ==> Over(c, pf, r) == Ready(c, pf)
    ensures Over(c, pf, r) ==> c.Valid()
    ensures Ready(c, pf) ==> c.Valid()
  {
  }

  /** An indirect block and what is behind it. */
  method IBlock(c: Claims, pf: Pfunc, d: Disk, blk: int, ilevel: nat) returns (r: Status, rep: seq<int>)
    requires Ready(c, pf) && blk != 0 && ilevel >= 1
    modifies c, c.blkmap, c.duplist
    ensures Over(c, pf, r)
    ensures Did(pf, c.fmin, c.fmax, r, old(Now(c)), Now(c), Visits(c.fmin, c.fmax, d, ilevel, blk), rep)
    decreases ilevel, 1
  {
    hide *;
    ReadyOver(c, pf, KeepOn);
    ghost var s, lo, hi := Now(c), c.fmin, c.fmax;
    r, rep := Apply(c, pf, blk);
    ReadyOver(c, pf, r);
    if r == Skip {
      Goes(r);
      VisitsLeaf(lo, hi, d, ilevel, blk);
      return;
    }
    if r != KeepOn {
      Goes(r);
      StopsThere(pf, lo, hi, r, s, Now(c), d, ilevel, blk, rep);
      return;
    }
    Goes(r);
    var ws: Block := At(d, blk);
    BlockSize(ws);
    KidsNone(lo, hi, d, ilevel - 1, ws);
    assert [blk] + [] == [blk];
    var ap := 0;
    while ap < |ws|
      invariant 0 <= ap <= |ws| && Ready(c, pf) && c.Valid()
      invariant Did(pf, lo, hi, KeepOn, s, Now(c), [blk] + KidsVisits(lo, hi, d, ilevel - 1, ws, ap), rep)
    {
      ghost var t := Now(c);
      var n, more := Child(c, pf, d, ws[ap], ilevel - 1);
      Goes(n);
      ReadyOver(c, pf, n);
      KidDone(pf, lo, hi, n, s, t, Now(c), d, ilevel, blk, ap, rep, more);
      rep := rep + more;
      if n == Stop || n == Exit {
        KidStops(pf, lo, hi, n, s, Now(c), d, ilevel, blk, ap, rep);
        return n, rep;
      }
      DidOn(pf, lo, hi, n, s, Now(c), [blk] + KidsVisits(lo, hi, d, ilevel - 1, ws, ap + 1), rep);
      ap := ap + 1;
    }
    VisitsNode(lo, hi, d, ilevel, blk);
    ReadyOver(c, pf, KeepOn);
    return KeepOn, rep;
  }

  lemma Goes(r: Status)
    ensures GoesOn(r) <==> r == KeepOn || r == Skip
  {
  }

  /** One address: nothing, a block, or an indirect block. */
  method Child(c: Claims, pf: Pfunc, d: Disk, blk: int, lvl: nat) returns (n: Status, rep: seq<int>)
    requires Ready(c, pf)
    modifies c, c.blkmap, c.duplist
    ensures Over(c, pf, n)
    ensures Did(pf, c.fmin, c.fmax, n, old(Now(c)), Now(c), Visits(c.fmin, c.fmax, d, lvl, blk), rep)
    decreases lvl, 2
  {
    hide *;
    ReadyOver(c, pf, KeepOn);
    Goes(KeepOn);
    VisitsLeaf(c.fmin, c.fmax, d, lvl, blk);
    if blk == 0 {
      ReadyNothing(c, pf);
      return KeepOn, [];
    }
    if lvl > 0 {
      n, rep := IBlock(c, pf, d, blk, lvl);
    } else {
      n, rep := Apply(c, pf, blk);
    }
  }

  lemma FileNone(lo: int, hi: int, d: Disk, a: Addrs)
    ensures FileVisits(lo, hi, d, a, 0) == []
  {
  }

  lemma FileNext(lo: int, hi: int, d: Disk, a: Addrs, n: nat)
    requires n < NADDR
    ensures FileVisits(lo, hi, d, a, n + 1) == FileVisits(lo, hi, d, a, n) + Visits(lo, hi, d, LevelOf(n), a[n])
  {
    hide Visits;
  }

  lemma {:induction false} FileAll(lo: int, hi: int, d: Disk, a: Addrs, n: nat, m: nat) returns (rest: seq<int>)
    requires n <= m <= NADDR
    ensures FileVisits(lo, hi, d, a, m) == FileVisits(lo, hi, d, a, n) + rest
    decreases m
  {
    hide *;
    if n == m {
      rest := [];
    } else {
      var some := FileAll(lo, hi, d, a, n, m - 1);
      FileNext(lo, hi, d, a, m - 1);
      rest := some + Visits(lo, hi, d, LevelOf(m - 1), a[m - 1]);
      Associate(FileVisits(lo, hi, d, a, n), some, Visits(lo, hi, d, LevelOf(m - 1), a[m - 1]));
    }
  }

  /** All blocks of an inode. */
  method CkInode(c: Claims, pf: Pfunc, d: Disk, ino: Inode) returns (r: Status, rep: seq<int>)
    requires Ready(c, pf)
    modifies c, c.blkmap, c.duplist
    ensures Over(c, pf, r) && Did(pf, c.fmin, c.fmax, r, old(Now(c)), Now(c), InodeVisits(c.fmin, c.fmax, d, ino), rep)
    ensures r != Skip
  {
    hide Ready, Over, Did, Visits, FileVisits, Now, GoesOn;
    ReadyOver(c, pf, KeepOn);
    Goes(KeepOn);
    ghost var s, lo, hi, a := Now(c), c.fmin, c.fmax, ino.addrs;
    ReadyNothing(c, pf);
    if ino.special {
      return KeepOn, [];
    }
    FileNone(lo, hi, d, a);
    var ap := 0;
    rep := [];
    while ap < NADDR
      invariant 0 <= ap <= NADDR && Ready(c, pf) && c.Valid()
      invariant Did(pf, lo, hi, KeepOn, s, Now(c), FileVisits(lo, hi, d, a, ap), rep)
    {
      ghost var t := Now(c);
      var n, more := Child(c, pf, d, ino.addrs[ap], LevelOf(ap));
      Goes(n);
      ReadyOver(c, pf, n);
      DidThen(pf, lo, hi, n, s, t, Now(c), FileVisits(lo, hi, d, a, ap), Visits(lo, hi, d, LevelOf(ap), a[ap]),
              rep, more);
      FileNext(lo, hi, d, a, ap);
      rep := rep + more;
      if n == Stop || n == Exit {
        ghost var rest := FileAll(lo, hi, d, a, ap + 1, NADDR);
        DidStop(pf, lo, hi, n, s, Now(c), FileVisits(lo, hi, d, a, ap + 1), rest, rep);
        return n, rep;
      }
      DidOn(pf, lo, hi, n, s, Now(c), FileVisits(lo, hi, d, a, ap + 1), rep);
      ap := ap + 1;
    }
    ReadyOver(c, pf, KeepOn);
    return KeepOn, rep;
  }

  // The phases.

  lemma AllNone(lo: int, hi: int, d: Disk)
    ensures AllVisits(lo, hi, d, []) == []
  {
  }

  lemma AllNext(lo: int, hi: int, d: Disk, inos: seq<Inode>, n: nat)
    requires n < |inos|
    ensures AllVisits(lo, hi, d, inos[..n + 1]) == AllVisits(lo, hi, d, inos[..n]) + InodeVisits(lo, hi, d, inos[n])
  {
    assert inos[..n + 1][..n] == inos[..n];
    hide InodeVisits;
  }

  /** An inode with the blocks vs is not broken off, claims and n copies in the table
      being there before: the numbers are the program's. */
  ghost predicate Fine(lo: int, hi: int, claims: multiset<int>, n: nat, vs: seq<int>) {
    && Outs(lo, hi, vs) < 10 && Repeats(lo, hi, claims, vs) < 10
    && n + Repeats(lo, hi, claims, vs) <= 100
  }

  /** How many of its blocks are claimed. */
  ghost function Acted(lo: int, hi: int, claims: multiset<int>, n: nat, vs: seq<int>): (p: nat)
    ensures p <= |vs|
  {
    if vs == [] || Fine(lo, hi, claims, n, vs) then |vs| else Acted(lo, hi, claims, n, vs[..|vs| - 1])
  }

  datatype Sum = Sum(claims: multiset<int>, copies: nat)

  /** The claims after some inodes, some of which may have been broken off, and the
      size of the table. */
  ghost function After(lo: int, hi: int, d: Disk, s: Sum, inos: seq<Inode>): Sum {
    if inos == [] then s
    else
      var t, vs := After(lo, hi, d, s, inos[..|inos| - 1]), InodeVisits(lo, hi, d, inos[|inos| - 1]);
      Claimed(lo, hi, t, vs[..Acted(lo, hi, t.claims, t.copies, vs)])
  }

  ghost function Claimed(lo: int, hi: int, t: Sum, vs: seq<int>): Sum {
    Sum(t.claims + ClaimsOf(lo, hi, vs), t.copies + Repeats(lo, hi, t.claims, vs))
  }

  /** No inode is broken off. */
  ghost predicate Unbroken(lo: int, hi: int, d: Disk, s: Sum, inos: seq<Inode>) {
    forall k :: 0 <= k < |inos| ==> FineAt(lo, hi, d, s, inos, k)
  }

  ghost predicate FineAt(lo: int, hi: int, d: Disk, s: Sum, inos: seq<Inode>, k: nat)
    requires k < |inos|
  {
    var t := After(lo, hi, d, s, inos[..k]);
    Fine(lo, hi, t.claims, t.copies, InodeVisits(lo, hi, d, inos[k]))
  }

  /** No inode has ten blocks outside the volume, or ten that it or inodes before it
      came to before, and all in all there are at most a hundred copies. */
  ghost predicate Limits(lo: int, hi: int, d: Disk, s: Sum, inos: seq<Inode>) {
    forall k :: 0 <= k < |inos| ==> LimitAt(lo, hi, d, s, inos, k)
  }

  ghost predicate LimitAt(lo: int, hi: int, d: Disk, s: Sum, inos: seq<Inode>, k: nat)
    requires k < |inos|
  {
    && Outs(lo, hi, InodeVisits(lo, hi, d, inos[k])) < 10
    && Repeats(lo, hi, s.claims + ClaimsOf(lo, hi, AllVisits(lo, hi, d, inos[..k])),
               InodeVisits(lo, hi, d, inos[k])) < 10
    && s.copies + Repeats(lo, hi, s.claims, AllVisits(lo, hi, d, inos[..k + 1])) <= 100
  }

  lemma AfterNext(lo: int, hi: int, d: Disk, s: Sum, inos: seq<Inode>, i: nat)
    requires i < |inos|
    ensures var t, vs := After(lo, hi, d, s, inos[..i]), InodeVisits(lo, hi, d, inos[i]);
      After(lo, hi, d, s, inos[..i + 1]) == Claimed(lo, hi, t, vs[..Acted(lo, hi, t.claims, t.copies, vs)])
  {
    assert inos[..i + 1][..i] == inos[..i];
    hide Claimed, Acted, InodeVisits;
  }

  lemma FineSame(lo: int, hi: int, d: Disk, s: Sum, inos: seq<Inode>, i: nat, k: nat)
    requires k < i <= |inos|
    ensures FineAt(lo, hi, d, s, inos[..i], k) <==> FineAt(lo, hi, d, s, inos, k)
  {
    assert inos[..i][..k] == inos[..k] && inos[..i][k] == inos[k];
    hide After, Fine, InodeVisits;
  }

  ghost predicate FineTo(lo: int, hi: int, d: Disk, s: Sum, inos: seq<Inode>, i: nat)
    requires i <= |inos|
  {
    forall k :: 0 <= k < i ==> FineAt(lo, hi, d, s, inos, k)
  }

  lemma UnbrokenAt(lo: int, hi: int, d: Disk, s: Sum, inos: seq<Inode>, i: nat)
    requires i <= |inos|
    ensures Unbroken(lo, hi, d, s, inos[..i]) <==> FineTo(lo, hi, d, s, inos, i)
  {
    hide FineAt;
    forall k | 0 <= k < i
      ensures FineAt(lo, hi, d, s, inos[..i], k) <==> FineAt(lo, hi, d, s, inos, k)
    {
      FineSame(lo, hi, d, s, inos, i, k);
    }
  }

  lemma FineNext(lo: int, hi: int, d: Disk, s: Sum, inos: seq<Inode>, i: nat, j: nat)
    requires i < |inos| && j == i + 1
    ensures FineTo(lo, hi, d, s, inos, j) <==> FineTo(lo, hi, d, s, inos, i) && FineAt(lo, hi, d, s, inos, i)
    ensures Unbroken(lo, hi, d, s, inos) ==> FineTo(lo, hi, d, s, inos, j)
  {
    hide FineAt;
  }

  lemma UnbrokenNext(lo: int, hi: int, d: Disk, s: Sum, inos: seq<Inode>, i: nat)
    requires i < |inos|
    ensures Unbroken(lo, hi, d, s, inos[..i + 1]) <==>
      Unbroken(lo, hi, d, s, inos[..i]) && FineAt(lo, hi, d, s, inos, i)
    ensures Unbroken(lo, hi, d, s, inos) ==> Unbroken(lo, hi, d, s, inos[..i + 1])
  {
    hide *;
    var j := i + 1;
    UnbrokenAt(lo, hi, d, s, inos, i);
    UnbrokenAt(lo, hi, d, s, inos, j);
    FineNext(lo, hi, d, s, inos, i, j);
  }

  lemma FineAllowed(lo: int, hi: int, s: Tally, n: nat, vs: seq<int>)
    requires s.bad == s.dup == 0 && |s.table| == n
    ensures Allowed(lo, hi, s, vs) <==> Fine(lo, hi, s.claims, n, vs)
  {
    hide Outs, Repeats;
  }

  lemma FineLess(lo: int, hi: int, claims: multiset<int>, n: nat, vs: seq<int>, ws: seq<int>)
    requires Fine(lo, hi, claims, n, vs + ws)
    ensures Fine(lo, hi, claims, n, vs)
  {
    OutsConcat(lo, hi, vs, ws);
    RepeatsConcat(lo, hi, claims, vs, ws);
    hide Outs, Repeats, ClaimsOf;
  }

  lemma {:induction false} ActedIs(lo: int, hi: int, claims: multiset<int>, n: nat, vs: seq<int>, p: nat)
    requires p < |vs| && Fine(lo, hi, claims, n, vs[..p]) && !Fine(lo, hi, claims, n, vs[..p + 1])
    ensures Acted(lo, hi, claims, n, vs) == p
  {
    hide Fine;
    var init := vs[..|vs| - 1];
    if Fine(lo, hi, claims, n, vs) {
      assert vs == vs[..p + 1] + vs[p + 1..];
      FineLess(lo, hi, claims, n, vs[..p + 1], vs[p + 1..]);
    }
    if p + 1 == |vs| {
      assert vs[..p] == init;
    } else {
      assert init[..p] == vs[..p] && init[..p + 1] == vs[..p + 1];
      ActedIs(lo, hi, claims, n, init, p);
    }
  }

  /** What one inode does. */
  lemma ClaimedBy(lo: int, hi: int, r: Status, s: Tally, t: Tally, n: nat, vs: seq<int>)
    requires DidClaim(lo, hi, r, s, t, vs) && s.bad == s.dup == 0 && |s.table| == n
    ensures GoesOn(r) <==> Fine(lo, hi, s.claims, n, vs)
    ensures Sum(t.claims, |t.table|) == Claimed(lo, hi, Sum(s.claims, n), vs[..Acted(lo, hi, s.claims, n, vs)])
  {
    hide Outs, Repeats, ClaimsOf, Allowed, Fine;
    FineAllowed(lo, hi, s, n, vs);
    if GoesOn(r) {
      assert vs[..|vs|] == vs;
    } else {
      var p: nat :| ClaimedTo(lo, hi, s, t, vs, p);
      FineAllowed(lo, hi, s, n, vs[..p]);
      FineAllowed(lo, hi, s, n, vs[..p + 1]);
      ActedIs(lo, hi, s.claims, n, vs, p);
    }
  }

  /** Phase 1: the blocks of all inodes are claimed.  An inode with too many bad or
      duplicate blocks is broken off, or ends the program. */
  method Phase1(c: Claims, d: Disk, inos: seq<Inode>) returns (exited: bool, whole: bool)
    requires c.Valid() && Front(c.Table(), c.muldup)
    modifies c, c.blkmap, c.duplist
    ensures c.Valid() && Front(c.Table(), c.muldup)
    ensures whole <==> Limits(c.fmin, c.fmax, d, Sum(old(c.claims), old(c.enddup)), inos)
    ensures exited ==> !whole
    ensures !exited ==>
      Sum(c.claims, c.enddup) == After(c.fmin, c.fmax, d, Sum(old(c.claims), old(c.enddup)), inos)
    ensures whole ==> c.claims == old(c.claims) + ClaimsOf(c.fmin, c.fmax, AllVisits(c.fmin, c.fmax, d, inos))
    ensures !exited ==>
      old(c.claims) <= c.claims <= old(c.claims) + ClaimsOf(c.fmin, c.fmax, AllVisits(c.fmin, c.fmax, d, inos))
  {
    hide Agrees, Front, Marked, Distinct, InVolume, DidClaim, AllVisits, InodeVisits, ClaimsOf, After, Claimed, Acted,
      Fine, Limits, Unbroken;
    ghost var lo, hi, s := c.fmin, c.fmax, Sum(c.claims, c.enddup);
    UnbrokenTells(lo, hi, d, s, inos);
    UnbrokenNone(lo, hi, d, s);
    assert inos[..0] == [];
    whole := true;
    var i := 0;
    while i < |inos|
      invariant 0 <= i <= |inos| && c.Valid() && Front(c.Table(), c.muldup)
      invariant Sum(c.claims, c.enddup) == After(lo, hi, d, s, inos[..i])
      invariant whole <==> Unbroken(lo, hi, d, s, inos[..i])
    {
      c.badblk, c.dupblk := 0, 0;
      ghost var t, n, vs := Now(c), c.enddup, InodeVisits(lo, hi, d, inos[i]);
      assert |multiset(c.Table())| == c.enddup;
      var r, rep := CkInode(c, PASS1, d, inos[i]);
      assert |multiset(c.Table())| == c.enddup;
      ClaimedBy(lo, hi, r, t, Now(c), n, vs);
      AfterNext(lo, hi, d, s, inos, i);
      UnbrokenNext(lo, hi, d, s, inos, i);
      whole := whole && r != Stop && r != Exit;
      i := i + 1;
      if r == Exit {
        return true, false;
      }
    }
    assert inos[..i] == inos;
    AfterBound(lo, hi, d, s, inos);
    exited := false;
  }

  lemma UnbrokenNone(lo: int, hi: int, d: Disk, s: Sum)
    ensures Unbroken(lo, hi, d, s, []) && After(lo, hi, d, s, []) == s
  {
  }

  lemma {:induction false} AfterBound(lo: int, hi: int, d: Disk, s: Sum, inos: seq<Inode>)
    ensures s.claims <= After(lo, hi, d, s, inos).claims <= s.claims + ClaimsOf(lo, hi, AllVisits(lo, hi, d, inos))
  {
    if inos == [] {
      ClaimsOfNone(lo, hi);
    } else {
      var init := inos[..|inos| - 1];
      var vs, t := InodeVisits(lo, hi, d, inos[|inos| - 1]), After(lo, hi, d, s, init);
      var p := Acted(lo, hi, t.claims, t.copies, vs);
      assert AllVisits(lo, hi, d, inos) == AllVisits(lo, hi, d, init) + vs;
      assert After(lo, hi, d, s, inos).claims == t.claims + ClaimsOf(lo, hi, vs[..p]);
      hide *;
      AfterBound(lo, hi, d, s, init);
      ClaimsOfConcat(lo, hi, AllVisits(lo, hi, d, init), vs);
      ClaimsPrefix(lo, hi, vs, p);
    }
  }

  lemma ClaimsPrefix(lo: int, hi: int, vs: seq<int>, p: nat)
    requires p <= |vs|
    ensures ClaimsOf(lo, hi, vs[..p]) <= ClaimsOf(lo, hi, vs)
  {
    hide ClaimsOf;
    ClaimsOfConcat(lo, hi, vs[..p], vs[p..]);
    assert vs == vs[..p] + vs[p..];
  }

  /** Unbroken inodes claim all they come to. */
  lemma {:induction false} UnbrokenSum(lo: int, hi: int, d: Disk, s: Sum, inos: seq<Inode>)
    requires Unbroken(lo, hi, d, s, inos)
    ensures After(lo, hi, d, s, inos) == Claimed(lo, hi, s, AllVisits(lo, hi, d, inos))
  {
    if inos == [] {
      ClaimsOfNone(lo, hi);
      assert s.claims + multiset{} == s.claims;
    } else {
      var n: nat := |inos| - 1;
      assert inos[..n + 1] == inos;
      var vs, t := InodeVisits(lo, hi, d, inos[n]), After(lo, hi, d, s, inos[..n]);
      var before := AllVisits(lo, hi, d, inos[..n]);
      assert AllVisits(lo, hi, d, inos) == before + vs;
      assert Fine(lo, hi, t.claims, t.copies, vs) ==> Acted(lo, hi, t.claims, t.copies, vs) == |vs|;
      assert vs[..|vs|] == vs;
      hide After, AllVisits, InodeVisits, ClaimsOf, Repeats, Acted, Fine, Unbroken;
      UnbrokenNext(lo, hi, d, s, inos, n);
      AfterNext(lo, hi, d, s, inos, n);
      UnbrokenSum(lo, hi, d, s, inos[..n]);
      ClaimedMore(lo, hi, s, before, vs);
    }
  }

  lemma ClaimedMore(lo: int, hi: int, s: Sum, vs: seq<int>, ws: seq<int>)
    ensures Claimed(lo, hi, Claimed(lo, hi, s, vs), ws) == Claimed(lo, hi, s, vs + ws)
  {
    ClaimsOfConcat(lo, hi, vs, ws);
    RepeatsConcat(lo, hi, s.claims, vs, ws);
    hide ClaimsOf, Repeats;
  }

  /** One inode more, those before being unbroken. */
  lemma FineLimit(lo: int, hi: int, d: Disk, s: Sum, inos: seq<Inode>, k: nat)
    requires k < |inos| && After(lo, hi, d, s, inos[..k]) == Claimed(lo, hi, s, AllVisits(lo, hi, d, inos[..k]))
    ensures LimitAt(lo, hi, d, s, inos, k) <==> FineAt(lo, hi, d, s, inos, k)
  {
    AllNext(lo, hi, d, inos, k);
    hide After, AllVisits, InodeVisits, ClaimsOf, Repeats, Outs;
    RepeatsConcat(lo, hi, s.claims, AllVisits(lo, hi, d, inos[..k]), InodeVisits(lo, hi, d, inos[k]));
  }

  lemma {:induction false} UnbrokenTo(lo: int, hi: int, d: Disk, s: Sum, inos: seq<Inode>, i: nat)
    requires i <= |inos|
    ensures Unbroken(lo, hi, d, s, inos[..i]) <==> forall k :: 0 <= k < i ==> LimitAt(lo, hi, d, s, inos, k)
  {
    hide After, AllVisits, InodeVisits, ClaimsOf, Repeats, Outs, LimitAt, Fine, FineAt, Claimed;
    if i > 0 {
      var k: nat := i - 1;
      UnbrokenTo(lo, hi, d, s, inos, k);
      UnbrokenNext(lo, hi, d, s, inos, k);
      if Unbroken(lo, hi, d, s, inos[..k]) {
        UnbrokenSum(lo, hi, d, s, inos[..k]);
        FineLimit(lo, hi, d, s, inos, k);
      }
    } else {
      assert inos[..0] == [];
    }
  }

  lemma UnbrokenTells(lo: int, hi: int, d: Disk, s: Sum, inos: seq<Inode>)
    ensures Unbroken(lo, hi, d, s, inos) <==> Limits(lo, hi, d, s, inos)
    ensures Limits(lo, hi, d, s, inos) ==>
      After(lo, hi, d, s, inos).claims == s.claims + ClaimsOf(lo, hi, AllVisits(lo, hi, d, inos))
  {
    hide After, AllVisits, InodeVisits, ClaimsOf, Repeats, Outs, LimitAt, Fine, FineAt;
    UnbrokenTo(lo, hi, d, s, inos, |inos|);
    assert inos[..|inos|] == inos;
    if Unbroken(lo, hi, d, s, inos) {
      UnbrokenSum(lo, hi, d, s, inos);
    }
  }

  lemma {:induction false} AllRest(lo: int, hi: int, d: Disk, inos: seq<Inode>, n: nat, m: nat) returns (rest: seq<int>)
    requires n <= m <= |inos|
    ensures AllVisits(lo, hi, d, inos[..m]) == AllVisits(lo, hi, d, inos[..n]) + rest
    decreases m
  {
    hide *;
    if n == m {
      rest := [];
    } else {
      var some := AllRest(lo, hi, d, inos, n, m - 1);
      AllNext(lo, hi, d, inos, m - 1);
      rest := some + InodeVisits(lo, hi, d, inos[m - 1]);
      Associate(AllVisits(lo, hi, d, inos[..n]), some, InodeVisits(lo, hi, d, inos[m - 1]));
    }
  }

  /** Phase 1b: the same blocks are gone through again until all duplicates were
      found.  Each block of the table that comes up is reported, once. */
  method Phase1b(c: Claims, d: Disk, inos: seq<Inode>) returns (rep: seq<int>)
    requires c.Valid() && Front(c.Table(), c.muldup) && c.muldup > 0
    modifies c, c.blkmap, c.duplist
    ensures c.Valid() && c.claims == old(c.claims) && multiset(c.Table()) == old(multiset(c.Table()))
    ensures Distinct(rep, |rep|)
    ensures forall b :: b in rep <==>
      b in old(c.Table()) && b in AllVisits(c.fmin, c.fmax, d, inos) && !OutRange(c.fmin, c.fmax, b)
  {
    FrontDistinct(c.Table(), c.muldup);
    hide Agrees, Front, Marked, Distinct, InVolume, DidScan, AllVisits, InodeVisits, OutRange;
    ghost var lo, hi, s := c.fmin, c.fmax, Now(c);
    DidNothing(PASS1B, lo, hi, s);
    AllNone(lo, hi, d);
    assert inos[..0] == [];
    rep := [];
    var i := 0;
    while i < |inos|
      invariant 0 <= i <= |inos| && Ready(c, PASS1B)
      invariant DidScan(lo, hi, KeepOn, s, Now(c), AllVisits(lo, hi, d, inos[..i]), rep)
    {
      ghost var t := Now(c);
      var r, more := CkInode(c, PASS1B, d, inos[i]);
      ScanInode(lo, hi, d, inos, i, i + 1, r, s, t, Now(c), rep, more);
      rep := rep + more;
      i := i + 1;
      if r == Stop {
        ScanStopped(lo, hi, d, inos, i, s, Now(c), rep);
        return;
      }
    }
    assert inos[..i] == inos;
    ScanEnd(lo, hi, KeepOn, s, Now(c), AllVisits(lo, hi, d, inos), rep);
  }

  lemma ScanInode(lo: int, hi: int, d: Disk, inos: seq<Inode>, i: nat, j: nat, r: Status, s: Tally, t: Tally, u: Tally,
                  rep: seq<int>, more: seq<int>)
    requires i < |inos| && j == i + 1 && DidScan(lo, hi, KeepOn, s, t, AllVisits(lo, hi, d, inos[..i]), rep)
    requires DidScan(lo, hi, r, t, u, InodeVisits(lo, hi, d, inos[i]), more)
    ensures DidScan(lo, hi, r, s, u, AllVisits(lo, hi, d, inos[..j]), rep + more) && r != Exit
    ensures GoesOn(r) ==> DidScan(lo, hi, KeepOn, s, u, AllVisits(lo, hi, d, inos[..j]), rep + more)
  {
    hide AllVisits, InodeVisits, DidScan;
    AllNext(lo, hi, d, inos, i);
    ScanThen(lo, hi, r, s, t, u, AllVisits(lo, hi, d, inos[..i]), InodeVisits(lo, hi, d, inos[i]), rep, more);
    ScanNoExit(lo, hi, r, s, u, AllVisits(lo, hi, d, inos[..j]), rep + more);
    if GoesOn(r) {
      DidOn(PASS1B, lo, hi, r, s, u, AllVisits(lo, hi, d, inos[..j]), rep + more);
    }
  }

  lemma ScanStopped(lo: int, hi: int, d: Disk, inos: seq<Inode>, i: nat, s: Tally, t: Tally, rep: seq<int>)
    requires i <= |inos| && DidScan(lo, hi, Stop, s, t, AllVisits(lo, hi, d, inos[..i]), rep)
    ensures t.claims == s.claims && t.table == s.table && Distinct(rep, |rep|)
    ensures forall b :: b in rep <==> b in s.front && b in AllVisits(lo, hi, d, inos) && !OutRange(lo, hi, b)
  {
    hide AllVisits, DidScan, Distinct, OutRange;
    var rest := AllRest(lo, hi, d, inos, i, |inos|);
    assert inos[..|inos|] == inos;
    DidStop(PASS1B, lo, hi, Stop, s, t, AllVisits(lo, hi, d, inos[..i]), rest, rep);
    ScanEnd(lo, hi, Stop, s, t, AllVisits(lo, hi, d, inos), rep);
  }

  lemma FrontDistinct(t: seq<int>, n: nat)
    requires Front(t, n)
    ensures Distinct(t, n) && forall b :: b in t <==> b in FrontSet(t, n)
  {
  }

  lemma ScanNoExit(lo: int, hi: int, r: Status, s: Tally, t: Tally, vs: seq<int>, rep: seq<int>)
    requires DidScan(lo, hi, r, s, t, vs, rep)
    ensures r != Exit
  {
  }

  lemma ScanEnd(lo: int, hi: int, r: Status, s: Tally, t: Tally, vs: seq<int>, rep: seq<int>)
    requires DidScan(lo, hi, r, s, t, vs, rep)
    ensures t.claims == s.claims && t.table == s.table && Distinct(rep, |rep|)
    ensures forall b :: b in rep <==> b in s.front && b in vs && !OutRange(lo, hi, b)
  {
  }

  /** Phases 1 and 1b of a whole check: unless the operator ends it, exactly the blocks
      claimed more than once are reported.  No inode is broken off exactly if all stay
      within the limits, and then the claims are all blocks come to. */
  method FindDuplicates(c: Claims, d: Disk, inos: seq<Inode>)
    returns (exited: bool, whole: bool, rep: seq<int>)
    requires c.Valid() && Front(c.Table(), c.muldup) && c.claims == multiset{}
    modifies c, c.blkmap, c.duplist
    ensures c.Valid()
    ensures whole <==> Limits(c.fmin, c.fmax, d, Sum(multiset{}, 0), inos)
    ensures whole ==> !exited && c.claims == ClaimsOf(c.fmin, c.fmax, AllVisits(c.fmin, c.fmax, d, inos))
    ensures !exited ==> c.claims == After(c.fmin, c.fmax, d, Sum(multiset{}, 0), inos).claims
    ensures !exited ==> Distinct(rep, |rep|) && forall b :: b in rep <==> c.claims[b] > 1
  {
    NoCopies(c.claims, c.blkmap[..], c.Table());
    hide Front, Marked, InVolume, AllVisits, ClaimsOf, After, Limits;
    rep := [];
    exited, whole := Phase1(c, d, inos);
    assert multiset{} + ClaimsOf(c.fmin, c.fmax, AllVisits(c.fmin, c.fmax, d, inos)) ==
           ClaimsOf(c.fmin, c.fmax, AllVisits(c.fmin, c.fmax, d, inos));
    if exited {
      return;
    }
    ghost var bits, t := c.blkmap[..], c.Table();
    FrontEmpty(t, c.muldup);
    if c.enddup != 0 {
      rep := Phase1b(c, d, inos);
    }
    ReportedTwice(c.fmin, c.fmax, c.claims, bits, t, AllVisits(c.fmin, c.fmax, d, inos));
  }

  lemma NoCopies(claims: multiset<int>, bits: seq<bool>, t: seq<int>)
    requires Agrees(claims, bits, t) && claims == multiset{}
    ensures t == []
  {
    forall b
      ensures multiset(t)[b] == 0
    {
      assert claims[b] == 0;
      assert b in t <==> multiset(t)[b] > 0;
    }
    assert multiset(t) == multiset{};
    assert |multiset(t)| == |t|;
  }

  lemma FrontHas(t: seq<int>, n: nat, b: int)
    requires Front(t, n) && b in t
    ensures n <= |t| && b in t[..n]
  {
  }

  lemma FrontEmpty(t: seq<int>, n: nat)
    requires Front(t, n)
    ensures n == 0 <==> t == []
  {
    FrontFits(t, n);
    if t != [] {
      FrontHas(t, n, t[0]);
    }
  }

  /** The table holds exactly the blocks with more than one claim. */
  lemma ReportedTwice(lo: int, hi: int, claims: multiset<int>, bits: seq<bool>, t: seq<int>, vs: seq<int>)
    requires Agrees(claims, bits, t) && claims <= ClaimsOf(lo, hi, vs)
    ensures forall b :: b in t && b in vs && !OutRange(lo, hi, b) <==> claims[b] > 1
    ensures t == [] ==> forall b :: claims[b] <= 1
  {
    forall b
      ensures b in t && b in vs && !OutRange(lo, hi, b) <==> claims[b] > 1
    {
      ClaimsOfCount(lo, hi, vs, b);
      assert b in t <==> multiset(t)[b] > 0;
      assert b in vs <==> multiset(vs)[b] > 0;
    }
  }

  /** Clearing an inode takes back exactly what it claims. */
  method Clear(c: Claims, d: Disk, ino: Inode)
    requires c.Valid()
    modifies c, c.blkmap, c.duplist
    ensures c.Valid() && c.claims == old(c.claims) - ClaimsOf(c.fmin, c.fmax, InodeVisits(c.fmin, c.fmax, d, ino))
  {
    hide Agrees, Marked, InVolume, ClaimsOf, InodeVisits;
    var r, rep := CkInode(c, PASS4, d, ino);
  }

  /** After that the claims are those of the other inodes. */
  lemma {:induction false} WithoutInode(lo: int, hi: int, d: Disk, inos: seq<Inode>, k: nat)
    requires k < |inos|
    ensures ClaimsOf(lo, hi, AllVisits(lo, hi, d, inos)) - ClaimsOf(lo, hi, InodeVisits(lo, hi, d, inos[k])) ==
      ClaimsOf(lo, hi, AllVisits(lo, hi, d, inos[..k] + inos[k + 1..]))
  {
    var a, i, b := inos[..k], inos[k], inos[k + 1..];
    assert inos == a + [i] + b;
    hide *;
    AllConcat(lo, hi, d, a + [i], b);
    AllConcat(lo, hi, d, a, [i]);
    AllConcat(lo, hi, d, a, b);
    AllOne(lo, hi, d, i);
    var x, y, z := AllVisits(lo, hi, d, a), InodeVisits(lo, hi, d, i), AllVisits(lo, hi, d, b);
    ClaimsOfConcat(lo, hi, x + y, z);
    ClaimsOfConcat(lo, hi, x, y);
    ClaimsOfConcat(lo, hi, x, z);
  }

  lemma AllOne(lo: int, hi: int, d: Disk, i: Inode)
    ensures AllVisits(lo, hi, d, [i]) == InodeVisits(lo, hi, d, i)
  {
    AllNext(lo, hi, d, [i], 0);
    assert [i][..1] == [i] && [i][..0] == [];
    AllNone(lo, hi, d);
    hide AllVisits, InodeVisits;
  }

  lemma {:induction false} AllConcat(lo: int, hi: int, d: Disk, a: seq<Inode>, b: seq<Inode>)
    ensures AllVisits(lo, hi, d, a + b) == AllVisits(lo, hi, d, a) + AllVisits(lo, hi, d, b)
  {
    hide AllVisits, InodeVisits;
    if b == [] {
      assert a + b == a;
      AllNone(lo, hi, d);
    } else {
      var n := |b| - 1;
      AllConcat(lo, hi, d, a, b[..n]);
      AllNext(lo, hi, d, a + b, |a| + n);
      AllNext(lo, hi, d, b, n);
      assert (a + b)[..|a| + n] == a + b[..n] && (a + b)[..|a| + n + 1] == a + b && b[..n + 1] == b;
    }
  }

  // On well-formed trees the walk comes to exactly the blocks that itrunc frees.

  ghost predicate InRange(lo: int, hi: int, s: seq<int>) {
    forall b :: b in s ==> !OutRange(lo, hi, b)
  }

  lemma InRangeConcat(lo: int, hi: int, s: seq<int>, t: seq<int>)
    requires InRange(lo, hi, s + t)
    ensures InRange(lo, hi, s) && InRange(lo, hi, t)
  {
    assert forall b :: b in s || b in t ==> b in s + t;
  }

  lemma {:induction false} TreeVisited(lo: int, hi: int, d: Disk, lvl: nat, bn: int)
    requires InRange(lo, hi, Sub(d, lvl, bn))
    ensures Visits(lo, hi, d, lvl, bn) == Reversed(Sub(d, lvl, bn))
    decreases lvl, 0
  {
    if bn != 0 && lvl > 0 {
      var ws := At(d, bn);
      var kids := Kids(d, lvl - 1, ws, |ws|);
      assert Sub(d, lvl, bn) == kids + [bn];
      assert bn in Sub(d, lvl, bn);
      VisitsNode(lo, hi, d, lvl, bn);
      hide *;
      InRangeConcat(lo, hi, kids, [bn]);
      KidsVisited(lo, hi, d, lvl - 1, ws, |ws|);
      ReversedConcat(kids, [bn]);
      ReversedOne(bn);
    } else if bn != 0 {
      ReversedOne(bn);
    }
  }

  lemma ReversedOne(x: int)
    ensures Reversed([x]) == [x]
  {
    assert Reversed([x][..0]) == [];
  }

  lemma {:induction false} KidsVisited(lo: int, hi: int, d: Disk, lvl: nat, ws: Block, n: nat)
    requires n <= NINDIR && InRange(lo, hi, Kids(d, lvl, ws, n))
    ensures KidsVisits(lo, hi, d, lvl, ws, n) == Reversed(Kids(d, lvl, ws, n))
    decreases lvl, n + 1
  {
    if n > 0 {
      var first, rest := Sub(d, lvl, ws[n - 1]), Kids(d, lvl, ws, n - 1);
      assert Kids(d, lvl, ws, n) == first + rest;
      KidsNext(lo, hi, d, lvl, ws, n - 1);
      hide *;
      InRangeConcat(lo, hi, first, rest);
      TreeVisited(lo, hi, d, lvl, ws[n - 1]);
      KidsVisited(lo, hi, d, lvl, ws, n - 1);
      ReversedConcat(first, rest);
    }
  }

  /** In a file in the volume the walk comes to the blocks in just the reverse of the
      order in which itrunc releases them. */
  lemma {:induction false} FileVisited(lo: int, hi: int, d: Disk, a: Addrs, n: nat)
    requires n <= NADDR && InRange(lo, hi, FileBlocks(d, a, n))
    ensures FileVisits(lo, hi, d, a, n) == Reversed(FileBlocks(d, a, n))
  {
    if n > 0 {
      var first, rest := Sub(d, LevelOf(n - 1), a[n - 1]), FileBlocks(d, a, n - 1);
      assert FileBlocks(d, a, n) == first + rest;
      FileNext(lo, hi, d, a, n - 1);
      hide *;
      InRangeConcat(lo, hi, first, rest);
      TreeVisited(lo, hi, d, LevelOf(n - 1), a[n - 1]);
      FileVisited(lo, hi, d, a, n - 1);
      ReversedConcat(first, rest);
    }
  }

  /** Without anything wrong the limits are kept. */
  lemma FitsLimits(lo: int, hi: int, d: Disk, s: Sum, inos: seq<Inode>)
    requires Fits(lo, hi, s.claims, AllVisits(lo, hi, d, inos)) && s.copies <= 100
    ensures Limits(lo, hi, d, s, inos)
  {
    hide LimitAt, AllVisits, Fits;
    forall k | 0 <= k < |inos|
      ensures LimitAt(lo, hi, d, s, inos, k)
    {
      FitsLimit(lo, hi, d, s, inos, k, k + 1);
    }
  }

  lemma FitsLimit(lo: int, hi: int, d: Disk, s: Sum, inos: seq<Inode>, k: nat, j: nat)
    requires k < |inos| && j == k + 1 && Fits(lo, hi, s.claims, AllVisits(lo, hi, d, inos)) && s.copies <= 100
    ensures LimitAt(lo, hi, d, s, inos, k)
  {
    assert inos[..|inos|] == inos;
    hide AllVisits, InodeVisits, Fits, Outs, Repeats, ClaimsOf;
    var rest := AllRest(lo, hi, d, inos, j, |inos|);
    var before, vs := AllVisits(lo, hi, d, inos[..k]), InodeVisits(lo, hi, d, inos[k]);
    AllNext(lo, hi, d, inos, k);
    FitsBoth(lo, hi, s.claims, before + vs, rest);
    FitsRight(lo, hi, s.claims, before + vs);
    FitsBoth(lo, hi, s.claims, before, vs);
    FitsAll(lo, hi, s.claims, before);
    FitsRight(lo, hi, s.claims + multiset(before), vs);
  }

  // An example.

  lemma {:induction false} FirstVisited(lo: int, hi: int, d: Disk, a: Addrs, n: nat)
    requires 1 <= n <= NADDR && a[0] != 0 && forall k :: 0 < k < NADDR ==> a[k] == 0
    ensures FileVisits(lo, hi, d, a, n) == [a[0]]
  {
    if n == 1 {
      FileNone(lo, hi, d, a);
      VisitsLeaf(lo, hi, d, 0, a[0]);
    } else {
      FirstVisited(lo, hi, d, a, n - 1);
      VisitsLeaf(lo, hi, d, LevelOf(n - 1), a[n - 1]);
      hide Visits;
    }
  }

  lemma TwoVisits(lo: int, hi: int, d: Disk, ino: Inode, b: int)
    requires InodeVisits(lo, hi, d, ino) == [b]
    ensures AllVisits(lo, hi, d, [ino, ino][..0]) == [] && AllVisits(lo, hi, d, [ino, ino][..1]) == [b]
    ensures AllVisits(lo, hi, d, [ino, ino][..2]) == AllVisits(lo, hi, d, [ino, ino]) == [b, b]
  {
    var inos := [ino, ino];
    assert inos[..0] == [] && inos[..2] == inos;
    hide InodeVisits, AllVisits;
    AllNone(lo, hi, d);
    AllNext(lo, hi, d, inos, 0);
    AllNext(lo, hi, d, inos, 1);
  }

  lemma TwoCounts(lo: int, hi: int, b: int)
    requires !OutRange(lo, hi, b)
    ensures ClaimsOf(lo, hi, []) == multiset{} && ClaimsOf(lo, hi, [b]) == multiset{b}
    ensures ClaimsOf(lo, hi, [b, b]) == multiset{b, b} && Outs(lo, hi, [b]) == 0
    ensures forall c :: Repeats(lo, hi, c, [b]) == if b in c then 1 else 0
    ensures Repeats(lo, hi, multiset{}, [b, b]) == 1
  {
    ClaimsOfNone(lo, hi);
    ClaimsOfOne(lo, hi, b);
    ClaimsOfLast(lo, hi, [b], b);
    assert [b] + [b] == [b, b] && [b, b][..1] == [b] && [b][..0] == [];
    var none: multiset<int> := multiset{};
    forall c: multiset<int>
      ensures Repeats(lo, hi, c, [b]) == if b in c then 1 else 0
    {
      assert Repeats(lo, hi, c, []) == 0;
      assert c + multiset{} == c;
    }
    assert none + multiset{b} == multiset{b};
  }

  lemma TwoWithin(lo: int, hi: int, d: Disk, ino: Inode, b: int)
    requires InodeVisits(lo, hi, d, ino) == [b] && !OutRange(lo, hi, b)
    ensures Limits(lo, hi, d, Sum(multiset{}, 0), [ino, ino])
  {
    var inos, s := [ino, ino], Sum(multiset{}, 0);
    TwoVisits(lo, hi, d, ino, b);
    TwoCounts(lo, hi, b);
    FirstClaims(lo, hi, b);
    hide *;
    LimitWhen(lo, hi, d, inos, 0, 1, multiset{}, [b], [b]);
    LimitWhen(lo, hi, d, inos, 1, 2, multiset{b}, [b, b], [b]);
    BothLimits(lo, hi, d, s, inos);
  }

  lemma FirstClaims(lo: int, hi: int, b: int)
    requires !OutRange(lo, hi, b)
    ensures multiset{} + ClaimsOf(lo, hi, []) == multiset{} && multiset{} + ClaimsOf(lo, hi, [b]) == multiset{b}
  {
    assert [b][..0] == [];
  }

  lemma BothLimits(lo: int, hi: int, d: Disk, s: Sum, inos: seq<Inode>)
    requires |inos| == 2 && LimitAt(lo, hi, d, s, inos, 0) && LimitAt(lo, hi, d, s, inos, 1)
    ensures Limits(lo, hi, d, s, inos)
  {
    hide LimitAt;
  }

  lemma LimitWhen(lo: int, hi: int, d: Disk, inos: seq<Inode>, k: nat, j: nat, claims: multiset<int>, upto: seq<int>,
                  vs: seq<int>)
    requires k < |inos| && j == k + 1
    requires multiset{} + ClaimsOf(lo, hi, AllVisits(lo, hi, d, inos[..k])) == claims
    requires AllVisits(lo, hi, d, inos[..j]) == upto && InodeVisits(lo, hi, d, inos[k]) == vs
    requires Outs(lo, hi, vs) < 10 && Repeats(lo, hi, claims, vs) < 10 && Repeats(lo, hi, multiset{}, upto) <= 100
    ensures LimitAt(lo, hi, d, Sum(multiset{}, 0), inos, k)
  {
    hide InodeVisits, AllVisits, ClaimsOf, Outs, Repeats;
  }

  /** Two inodes with the same first block: it is reported. */
  method TwoInodes() returns (exited: bool, whole: bool, rep: seq<int>)
    ensures !exited && whole && rep == [5]
  {
    var c := new Claims(2, 10);
    var ino := Inode(false, [5, 0, 0, 0, 0, 0, 0, 0, 0, 0, 0, 0, 0]);
    var d: Disk := map[];
    FirstVisited(2, 10, d, ino.addrs, NADDR);
    assert InodeVisits(2, 10, d, ino) == [5];
    TwoVisits(2, 10, d, ino, 5);
    TwoCounts(2, 10, 5);
    TwoWithin(2, 10, d, ino, 5);
    hide InodeVisits, Repeats, Outs, Limits, AllVisits, ClaimsOf, After, Front;
    exited, whole, rep := FindDuplicates(c, d, [ino, ino]);
    OnlyOne(rep, multiset{5, 5}, 5);
  }

  lemma OnlyOne(rep: seq<int>, claims: multiset<int>, b: int)
    requires Distinct(rep, |rep|) && claims == multiset{b, b} && forall x :: x in rep <==> claims[x] > 1
    ensures rep == [b]
  {
    assert b in rep;
    assert rep[0] in rep && rep[|rep| - 1] in rep;
    assert rep[0] == rep[|rep| - 1];
  }
}
