/** fsck phases 1, 1b and 4: accounting for blocks that several inodes claim. */
module DupTable {
  import opened FsckTypes

  ghost function Marked(bits: seq<bool>): set<int> {
    set b | 0 <= b < |bits| && bits[b]
  }

  /** A block's bit together with its copies in the table is the number of its
      claims. */
  ghost predicate Agrees(claims: multiset<int>, bits: seq<bool>, table: seq<int>) {
    && (forall b :: b in table ==> 0 <= b < |bits| && bits[b])
    && forall b :: claims[b] == if 0 <= b < |bits| && bits[b] then 1 + multiset(table)[b] else 0
  }

  ghost predicate InVolume(bits: seq<bool>, fmin: int) {
    forall b :: 0 <= b < |bits| && bits[b] ==> b >= fmin
  }

  /** The front of the table holds each block of the table exactly once. */
  ghost predicate Front(table: seq<int>, n: nat) {
    && Distinct(table, n)
    && forall b :: b in table ==> b in table[..n]
  }

  ghost predicate Distinct(table: seq<int>, n: nat) {
    n <= |table| && forall i, j :: 0 <= i < j < n ==> table[i] != table[j]
  }

  class Claims {
    const fmin: int
    const fmax: int
    const blkmap: array<bool>
    const duplist: array<int>
    var enddup: nat
    var muldup: nat
    var badblk: int
    var dupblk: int
    var nBlks: int
    var filsize: int

    /** The blocks claimed so far, with multiplicity. */
    ghost var claims: multiset<int>

    constructor (fmin: int, fmax: int)
      requires 0 <= fmin <= fmax
      ensures Valid() && Front(Table(), muldup) && claims == multiset{} && this.fmin == fmin && this.fmax == fmax
      ensures fresh(blkmap) && fresh(duplist)
    {
      this.fmin, this.fmax := fmin, fmax;
      blkmap, duplist := new bool[fmax](i => false), new int[DUPTBLSIZE](i => 0);
      enddup, muldup, badblk, dupblk, nBlks, filsize := 0, 0, 0, 0, 0, 0;
      claims := multiset{};
      new;
      assert Marked(blkmap[..]) == {};
    }

    ghost function Table(): seq<int>
      requires enddup <= duplist.Length
      reads `enddup, duplist
    {
      duplist[..enddup]
    }

    ghost predicate Valid()
      reads `enddup, `nBlks, `claims, blkmap, duplist
    {
      && 0 <= fmin <= fmax == blkmap.Length && duplist.Length == DUPTBLSIZE && enddup <= DUPTBLSIZE
      && Agrees(claims, blkmap[..], Table())
      && InVolume(blkmap[..], fmin)
      && nBlks == |Marked(blkmap[..])|
    }

    /** Claim a block for the current inode.  reply is the answer to CONTINUE
        when there are too many bad or duplicate blocks. */
    method Pass1(blk: int, reply: bool) returns (r: Status)
      requires Valid() && Front(Table(), muldup)
      modifies `enddup, `muldup, `badblk, `dupblk, `nBlks, `filsize, `claims, blkmap, duplist
      ensures Valid() && Front(Table(), muldup)
      ensures claims == if r == KeepOn then old(claims) + multiset{blk} else old(claims)
      ensures r == KeepOn <==>
        !OutRange(fmin, fmax, blk) && (!old(blkmap[blk]) || (old(dupblk) + 1 < MAXDUP && old(enddup) < DUPTBLSIZE))
      ensures !(r == KeepOn && old(blkmap[blk])) ==> Table() == old(Table())
      ensures r == Skip <==> OutRange(fmin, fmax, blk) && old(badblk) + 1 < MAXBAD
      ensures filsize == old(filsize) + if r == KeepOn then 1 else 0
      ensures badblk == old(badblk) + if OutRange(fmin, fmax, blk) then 1 else 0
      ensures dupblk == old(dupblk) + if !OutRange(fmin, fmax, blk) && old(blkmap[blk]) then 1 else 0
      ensures enddup == old(enddup) + if r == KeepOn && old(blkmap[blk]) then 1 else 0
    {
      hide Agrees, Front, Marked, Distinct, InVolume;
      if OutRange(fmin, fmax, blk) {
        badblk := badblk + 1;
        if badblk >= MAXBAD {
          return if reply then Stop else Exit;
        }
        return Skip;
      }
      if blkmap[blk] {
        dupblk := dupblk + 1;
        if dupblk >= MAXDUP {
          return if reply then Stop else Exit;
        }
        if enddup >= DUPTBLSIZE {
          return if reply then Stop else Exit;
        }
        ClaimAgain(blk);
      } else {
        ClaimFirst(blk);
      }
      filsize := filsize + 1;
      r := KeepOn;
    }

    /** A block that is claimed already goes into the table once more. */
    method ClaimAgain(blk: int)
      requires Valid() && Front(Table(), muldup) && enddup < DUPTBLSIZE && 0 <= blk < fmax && blkmap[blk]
      modifies `enddup, `muldup, `claims, duplist
      ensures Valid() && Front(Table(), muldup) && enddup == old(enddup) + 1 && claims == old(claims) + multiset{blk}
    {
      hide Agrees, Front, Marked, Distinct, InVolume;
      ghost var t := Table();
      Remember(blk);
      NextClaim(claims, blkmap[..], t, Table(), blk);
      claims := claims + multiset{blk};
    }

    /** Another one gets its bit. */
    method ClaimFirst(blk: int)
      requires Valid() && 0 <= blk < fmax && fmin <= blk && !blkmap[blk]
      modifies `nBlks, `claims, blkmap
      ensures Valid() && claims == old(claims) + multiset{blk}
    {
      hide Agrees, Marked, Distinct, InVolume;
      FirstClaim(claims, blkmap[..], Table(), blk, fmin);
      Mark(blk);
      claims := claims + multiset{blk};
    }

    method Mark(blk: int)
      requires 0 <= blk < blkmap.Length
      modifies `nBlks, blkmap
      ensures nBlks == old(nBlks) + 1 && blkmap[..] == old(blkmap[..])[blk := true]
    {
      nBlks := nBlks + 1;
      blkmap[blk] := true;
    }

    /** The search that passes 1, 1b and 4 share: blk among the first n entries. */
    method Find(n: nat, blk: int) returns (i: nat)
      requires n <= duplist.Length
      ensures i <= n && (i < n ==> duplist[i] == blk)
      ensures i == n ==> blk !in duplist[..n] && forall k :: 0 <= k < n ==> duplist[k] != blk
    {
      i := 0;
      while i < n
        invariant 0 <= i <= n && forall k :: 0 <= k < i ==> duplist[k] != blk
      {
        if duplist[i] == blk {
          return;
        }
        i := i + 1;
      }
    }

    /** Enter one more copy of blk, in front if it is the first. */
    method Remember(blk: int)
      requires duplist.Length == DUPTBLSIZE && enddup < DUPTBLSIZE && Front(Table(), muldup)
      modifies `enddup, `muldup, duplist
      ensures enddup == old(enddup) + 1 && Front(Table(), muldup)
      ensures multiset(Table()) == old(multiset(Table())) + multiset{blk}
    {
      hide Front;
      ghost var t := Table();
      FrontFits(t, muldup);
      var dlp := Find(muldup, blk);
      if dlp < muldup {
        duplist[enddup] := blk;
        enddup := enddup + 1;
        Appended(t, Table(), blk);
        AddCopy(t, muldup, dlp, blk);
      } else {
        duplist[enddup] := duplist[muldup];
        enddup := enddup + 1;
        duplist[muldup] := blk;
        muldup := muldup + 1;
        FrontEntered(t, muldup - 1, Table(), blk);
        EnterFront(t, muldup - 1, Table(), blk);
      }
    }

    /** Look for a block that was claimed again later: report it, once. */
    method Pass1b(blk: int) returns (r: Status, reported: bool)
      requires Valid() && Distinct(Table(), muldup)
      modifies `muldup, duplist
      ensures Valid() && Distinct(Table(), muldup)
      ensures multiset(Table()) == old(multiset(Table()))
      ensures reported <==> !OutRange(fmin, fmax, blk) && blk in old(Table()[..muldup])
      ensures forall b :: b in Table()[..muldup] <==> b in old(Table()[..muldup]) && !(reported && b == blk)
      ensures muldup == old(muldup) - if reported then 1 else 0
      ensures r == if OutRange(fmin, fmax, blk) then Skip else if reported && muldup == 0 then Stop else KeepOn
    {
      hide Agrees, InVolume, Marked, Distinct;
      reported := false;
      r := KeepOn;
      ghost var t, n := Table(), muldup;
      DistinctFits(t, n);
      if OutRange(fmin, fmax, blk) {
        return Skip, false;
      }
      var dlp := Find(muldup, blk);
      assert duplist[..n] == t[..n];
      if dlp < muldup {
        MoveBack(dlp, blk);
        SameCounts(claims, blkmap[..], t, Table());
        r, reported := if muldup == 0 then Stop else KeepOn, true;
      }
    }

    /** Move entry i just behind the front part, which shrinks by one. */
    method MoveBack(i: nat, blk: int)
      requires duplist.Length == DUPTBLSIZE && i < muldup <= enddup <= DUPTBLSIZE && duplist[i] == blk
      requires Distinct(Table(), muldup)
      modifies `muldup, duplist
      ensures muldup == old(muldup) - 1 && Distinct(Table(), muldup) && multiset(Table()) == old(multiset(Table()))
      ensures blk in old(Table()[..muldup])
      ensures forall b :: b in Table()[..muldup] <==> b in old(Table()[..muldup]) && b != blk
    {
      hide Distinct;
      ghost var t := Table();
      muldup := muldup - 1;
      duplist[i] := duplist[muldup];
      duplist[muldup] := blk;
      assert Table() == t[i := t[muldup]][muldup := blk];
      SwapOut(t, i, muldup + 1, Table());
    }

    /** Drop entry i, filling its place from the end. */
    method Drop(i: nat)
      requires duplist.Length == DUPTBLSIZE && i < enddup <= DUPTBLSIZE
      modifies `enddup, duplist
      ensures enddup == old(enddup) - 1
      ensures multiset(Table()) + multiset{old(duplist[i])} == old(multiset(Table()))
    {
      ghost var t := Table();
      enddup := enddup - 1;
      duplist[i] := duplist[enddup];
      assert Table() == t[i := t[|t| - 1]][..|t| - 1];
      TakeOut(t, i, Table());
    }

    /** Release one claim of a block: a copy in the table if there is one, and
        else its bit. */
    method Pass4(blk: int) returns (r: Status)
      requires Valid()
      modifies `enddup, `nBlks, `claims, blkmap, duplist
      ensures Valid() && claims == old(claims) - multiset{blk}
      ensures r == if OutRange(fmin, fmax, blk) then Skip else KeepOn
      ensures blkmap[..] == if old(claims)[blk] == 1 then old(blkmap[..])[blk := false] else old(blkmap[..])
    {
      hide Agrees, InVolume, Marked;
      ghost var bits, t := blkmap[..], Table();
      InTable(claims, bits, t, blk, fmin);
      if OutRange(fmin, fmax, blk) {
        return Skip;
      }
      if blkmap[blk] {
        var dlp := Find(enddup, blk);
        if dlp < enddup {
          assert t[dlp] == blk;
          Drop(dlp);
          OneLess(claims, bits, t, Table(), blk);
        } else {
          blkmap[blk] := false;
          assert blkmap[..] == bits[blk := false];
          LastClaim(claims, bits, t, blk, fmin);
          nBlks := nBlks - 1;
        }
        claims := claims - multiset{blk};
      }
      r := KeepOn;
    }
  }

  lemma FirstClaim(c: multiset<int>, bits: seq<bool>, t: seq<int>, b: int, fmin: int)
    requires Agrees(c, bits, t) && 0 <= b < |bits| && !bits[b] && InVolume(bits, fmin) && b >= fmin
    ensures InVolume(bits[b := true], fmin)
    ensures Agrees(c + multiset{b}, bits[b := true], t)
    ensures |Marked(bits[b := true])| == |Marked(bits)| + 1
  {
    assert multiset(t)[b] == 0;
    assert Marked(bits[b := true]) == Marked(bits) + {b};
  }

  lemma NextClaim(c: multiset<int>, bits: seq<bool>, t: seq<int>, u: seq<int>, b: int)
    requires Agrees(c, bits, t) && 0 <= b < |bits| && bits[b] && multiset(u) == multiset(t) + multiset{b}
    ensures Agrees(c + multiset{b}, bits, u)
  {
    forall x | x in u
      ensures 0 <= x < |bits| && bits[x]
    {
      assert x in multiset(u);
      if x != b {
        assert multiset(u)[x] == multiset(t)[x];
        assert x in t;
      }
    }
  }

  lemma SameCounts(c: multiset<int>, bits: seq<bool>, t: seq<int>, u: seq<int>)
    requires Agrees(c, bits, t) && multiset(u) == multiset(t)
    ensures Agrees(c, bits, u)
  {
    forall x | x in u
      ensures x in t
    {
      assert x in multiset(u);
    }
  }

  lemma OneLess(c: multiset<int>, bits: seq<bool>, t: seq<int>, u: seq<int>, b: int)
    requires Agrees(c, bits, t) && b in t && multiset(u) + multiset{b} == multiset(t)
    ensures Agrees(c - multiset{b}, bits, u) && c[b] > 1
  {
    assert multiset(t)[b] >= 1;
    forall x | x in u
      ensures x in t
    {
      assert x in multiset(u);
      assert multiset(t)[x] >= multiset(u)[x];
    }
  }

  lemma LastClaim(c: multiset<int>, bits: seq<bool>, t: seq<int>, b: int, fmin: int)
    requires Agrees(c, bits, t) && 0 <= b < |bits| && bits[b] && b !in t && InVolume(bits, fmin)
    ensures InVolume(bits[b := false], fmin)
    ensures Agrees(c - multiset{b}, bits[b := false], t) && c[b] == 1
    ensures |Marked(bits[b := false])| == |Marked(bits)| - 1
  {
    assert multiset(t)[b] == 0;
    assert Marked(bits[b := false]) == Marked(bits) - {b};
  }

  lemma InTable(c: multiset<int>, bits: seq<bool>, t: seq<int>, b: int, fmin: int)
    requires fmin >= 0 && Agrees(c, bits, t) && InVolume(bits, fmin)
    ensures !(fmin <= b < |bits| && bits[b]) ==> c[b] == 0 && c - multiset{b} == c
    ensures c[b] == 1 ==> 0 <= b < |bits|
  {
  }

  lemma FrontEntered(t: seq<int>, n: nat, u: seq<int>, b: int)
    requires n <= |t| && |u| == |t| + 1 && u[n] == b && (n < |t| ==> u[|t|] == t[n])
    requires forall k :: 0 <= k < |t| && k != n ==> u[k] == t[k]
    requires forall k :: 0 <= k < n ==> t[k] != b
    ensures u == (if n == |t| then t + [b] else t[n := b] + [t[n]]) && b !in t[..n]
  {
  }

  lemma Appended(t: seq<int>, u: seq<int>, b: int)
    requires |u| == |t| + 1 && u[|t|] == b && forall k :: 0 <= k < |t| ==> u[k] == t[k]
    ensures u == t + [b]
  {
  }

  lemma EnterFront(t: seq<int>, n: nat, u: seq<int>, b: int)
    requires Front(t, n) && b !in t[..n]
    requires u == if n == |t| then t + [b] else t[n := b] + [t[n]]
    ensures Front(u, n + 1) && multiset(u) == multiset(t) + multiset{b}
  {
    assert u[..n + 1] == t[..n] + [b];
    forall i, j | 0 <= i < j < n + 1
      ensures u[i] != u[j]
    {
      assert u[i] == t[..n][i];
    }
    if n < |t| {
      assert t[n] in t;
    }
  }

  lemma FrontFits(t: seq<int>, n: nat)
    requires Front(t, n)
    ensures n <= |t|
  {
  }

  lemma DistinctFits(t: seq<int>, n: nat)
    requires Distinct(t, n)
    ensures n <= |t|
  {
  }

  lemma AddCopy(t: seq<int>, n: nat, i: nat, b: int)
    requires Front(t, n) && i < n && t[i] == b
    ensures Front(t + [b], n) && multiset(t + [b]) == multiset(t) + multiset{b}
  {
    assert (t + [b])[..n] == t[..n];
    assert t[..n][i] == b;
  }

  lemma SwapOut(t: seq<int>, i: nat, n: nat, u: seq<int>)
    requires i < n && Distinct(t, n) && u == t[i := t[n - 1]][n - 1 := t[i]]
    ensures multiset(u) == multiset(t) && Distinct(u, n - 1)
    ensures t[i] in t[..n]
    ensures forall b :: b in u[..n - 1] <==> b in t[..n] && b != t[i]
  {
    assert t[..n][i] == t[i];
    forall b | b in t[..n] && b != t[i]
      ensures b in u[..n - 1]
    {
      var k :| 0 <= k < n && t[k] == b;
      assert u[..n - 1][if k == n - 1 then i else k] == b;
    }
  }

  lemma TakeOut(t: seq<int>, i: nat, u: seq<int>)
    requires i < |t| && |u| == |t| - 1 && u == t[i := t[|t| - 1]][..|t| - 1]
    ensures multiset(t) == multiset(u) + multiset{t[i]}
    ensures forall b :: b in u ==> b in t
  {
    var v := t[i := t[|t| - 1]];
    assert v == u + [t[|t| - 1]];
    assert multiset(v) == multiset(t) - multiset{t[i]} + multiset{t[|t| - 1]};
  }
}
