/** fsck's maps: kept in memory, or paged through a pool of buffers backed by the
    scratch file. */
module MapPool {

  const BSIZE := 1024

  type Data = s: seq<bv8> | |s| == BSIZE witness Zeroes()

  function Zeroes(): (s: seq<bv8>)
    ensures |s| == BSIZE
  {
    seq(BSIZE, i => 0)
  }

  datatype Buf = Buf(bno: int, data: Data, dirty: bool)

  type File = map<int, Data>

  function At(f: File, b: int): Data {
    if b in f then f[b] else Zeroes()
  }

  /** No block is in two buffers, and a clean buffer agrees with the file. */
  ghost predicate Coherent(pool: seq<Buf>, f: File) {
    && (forall i, j :: 0 <= i < j < |pool| && pool[i].bno >= 0 ==> pool[i].bno != pool[j].bno)
    && forall i :: 0 <= i < |pool| ==> Clean(pool[i], f)
  }

  ghost predicate Clean(b: Buf, f: File) {
    if b.bno < 0 then !b.dirty else b.dirty || b.data == At(f, b.bno)
  }

  /** The contents of block b: those of its buffer, or else those of the file. */
  ghost function Content(pool: seq<Buf>, f: File, b: int): Data {
    if pool == [] then At(f, b) else if pool[0].bno == b then pool[0].data else Content(pool[1..], f, b)
  }

  lemma {:induction false} ContentAt(pool: seq<Buf>, f: File, b: int, i: nat)
    requires i < |pool| && pool[i].bno == b && forall j :: 0 <= j < i ==> pool[j].bno != b
    ensures Content(pool, f, b) == pool[i].data
  {
    if i > 0 {
      ContentAt(pool[1..], f, b, i - 1);
    }
  }

  lemma {:induction false} ContentAbsent(pool: seq<Buf>, f: File, b: int)
    requires forall j :: 0 <= j < |pool| ==> pool[j].bno != b
    ensures Content(pool, f, b) == At(f, b)
  {
    if pool != [] {
      ContentAbsent(pool[1..], f, b);
    }
  }

  /** Two pools that hold the same buffers in any order give the same contents. */
  lemma SameBuffers(pool: seq<Buf>, q: seq<Buf>, f: File, b: int)
    requires b >= 0 && Coherent(pool, f) && Coherent(q, f) && forall x :: x in q <==> x in pool
    ensures Content(q, f, b) == Content(pool, f, b)
  {
    if i: nat :| i < |pool| && pool[i].bno == b {
      ContentAt(pool, f, b, i);
      assert pool[i] in q;
      var j: nat :| j < |q| && q[j] == pool[i];
      ContentAt(q, f, b, j);
    } else {
      ContentAbsent(pool, f, b);
      forall j | 0 <= j < |q|
        ensures q[j].bno != b
      {
        assert q[j] in pool;
      }
      ContentAbsent(q, f, b);
    }
  }

  function ToFront(pool: seq<Buf>, i: nat): seq<Buf>
    requires i < |pool|
  {
    [pool[i]] + pool[..i] + pool[i + 1..]
  }

  /** Where buffer k of the reordered pool was. */
  function Was(i: nat, k: nat): nat {
    if k == 0 then i else if k <= i then k - 1 else k
  }

  lemma ToFrontAt(pool: seq<Buf>, i: nat)
    requires i < |pool|
    ensures |ToFront(pool, i)| == |pool|
    ensures forall k: nat :: k < |pool| ==> Was(i, k) < |pool| && ToFront(pool, i)[k] == pool[Was(i, k)]
  {
  }

  lemma StillCoherent(pool: seq<Buf>, f: File, i: nat)
    requires i < |pool| && Coherent(pool, f)
    ensures Coherent(ToFront(pool, i), f)
  {
    ToFrontAt(pool, i);
    hide ToFront;
    var q := ToFront(pool, i);
    forall j, k | 0 <= j < k < |q| && q[j].bno >= 0
      ensures q[j].bno != q[k].bno
    {
      assert Was(i, j) != Was(i, k);
      assert q[j] == pool[Was(i, j)] && q[k] == pool[Was(i, k)];
    }
  }

  lemma MovedToFront(pool: seq<Buf>, f: File, i: nat)
    requires i < |pool| && Coherent(pool, f)
    ensures Coherent(ToFront(pool, i), f)
    ensures forall b :: b >= 0 ==> Content(ToFront(pool, i), f, b) == Content(pool, f, b)
  {
    StillCoherent(pool, f, i);
    SameMembers(pool, i);
    hide Coherent, Content;
    forall b | b >= 0
      ensures Content(ToFront(pool, i), f, b) == Content(pool, f, b)
    {
      SameBuffers(pool, ToFront(pool, i), f, b);
    }
  }

  lemma SameMembers(pool: seq<Buf>, i: nat)
    requires i < |pool|
    ensures forall x :: x in ToFront(pool, i) <==> x in pool
  {
    assert pool == pool[..i] + [pool[i]] + pool[i + 1..];
  }

  /** Writing back the front buffer and reading block b into it. */
  lemma Reloaded(pool: seq<Buf>, f: File, g: File, blk: int)
    requires pool != [] && Coherent(pool, f) && blk >= 0 && forall j :: 0 <= j < |pool| ==> pool[j].bno != blk
    requires g == if pool[0].dirty then f[pool[0].bno := pool[0].data] else f
    ensures Coherent(pool[0 := Buf(blk, At(g, blk), false)], g)
    ensures forall b :: b >= 0 ==> Content(pool[0 := Buf(blk, At(g, blk), false)], g, b) == Content(pool, f, b)
  {
    var q := pool[0 := Buf(blk, At(g, blk), false)];
    assert Clean(pool[0], f);
    forall i | 0 <= i < |q|
      ensures Clean(q[i], g)
    {
      if i > 0 {
        assert q[i] == pool[i] && Clean(pool[i], f);
      }
    }
    forall i, j | 0 <= i < j < |q| && q[i].bno >= 0
      ensures q[i].bno != q[j].bno
    {
      assert q[j] == pool[j];
    }
    assert Coherent(q, g);
    forall b | b >= 0
      ensures Content(q, g, b) == Content(pool, f, b)
    {
      assert q[1..] == pool[1..];
      if i: nat :| 1 <= i < |pool| && pool[i].bno == b {
        ContentAt(pool, f, b, i);
        ContentAt(q, g, b, i);
      } else {
        ContentAbsent(pool[1..], f, b);
        ContentAbsent(pool[1..], g, b);
      }
    }
  }

  lemma Written(pool: seq<Buf>, f: File, d: Data)
    requires pool != [] && pool[0].bno >= 0 && Coherent(pool, f)
    ensures Coherent(pool[0 := Buf(pool[0].bno, d, true)], f)
    ensures forall b :: Content(pool[0 := Buf(pool[0].bno, d, true)], f, b) ==
                        if b == pool[0].bno then d else Content(pool, f, b)
  {
    var q := pool[0 := Buf(pool[0].bno, d, true)];
    assert q[1..] == pool[1..];
    forall b
      ensures Content(q, f, b) == if b == pool[0].bno then d else Content(pool, f, b)
    {
      if b == pool[0].bno {
        ContentAt(q, f, b, 0);
      }
    }
  }

  /** The pages held by the pool and the file make up the bytes mem. */
  ghost predicate Pages(pool: seq<Buf>, f: File, mem: seq<bv8>) {
    && |mem| % BSIZE == 0
    && forall b :: 0 <= b && (b + 1) * BSIZE <= |mem| ==> Content(pool, f, b) == mem[b * BSIZE..(b + 1) * BSIZE]
  }

  lemma SamePages(pool: seq<Buf>, f: File, q: seq<Buf>, g: File, mem: seq<bv8>)
    requires Pages(pool, f, mem) && forall b :: b >= 0 ==> Content(q, g, b) == Content(pool, f, b)
    ensures Pages(q, g, mem)
  {
    hide Content;
  }

  class Maps {
    const inCore: bool
    const core: array<bv8>
    var pool: seq<Buf>
    var sfile: File

    /** The bytes of all the maps, wherever they are kept. */
    ghost var mem: seq<bv8>

    constructor (inCore: bool, core: array<bv8>, nbuf: nat, nblk: nat)
      requires nbuf >= 1 && forall i :: 0 <= i < core.Length ==> core[i] == 0
      ensures Valid() && this.inCore == inCore && this.core == core
      ensures mem == seq(if inCore then core.Length else nblk * BSIZE, i => 0)
    {
      this.inCore, this.core := inCore, core;
      pool := seq(nbuf, i => Buf(-1, Zeroes(), false));
      sfile := map[];
      mem := seq(if inCore then core.Length else nblk * BSIZE, i => 0);
      new;
      if !inCore {
        assert |mem| == nblk * BSIZE;
        forall b | 0 <= b && (b + 1) * BSIZE <= |mem|
          ensures Content(pool, sfile, b) == mem[b * BSIZE..(b + 1) * BSIZE]
        {
          ContentAbsent(pool, sfile, b);
        }
      }
    }

    ghost predicate Valid()
      reads `pool, `sfile, `mem, core
    {
      if inCore then core[..] == mem
      else pool != [] && Coherent(pool, sfile) && Pages(pool, sfile, mem)
    }

    /** The byte at offset byte of the map starting at base is within reach. */
    ghost predicate Located(base: nat, byte: nat)
      reads `pool, `mem
    {
      && base + byte < |mem| && (inCore || base % BSIZE == 0)
      && (!inCore ==> pool != [] && pool[0].bno == base / BSIZE + byte / BSIZE)
    }

    /** Move the buffer of a block to the front, or failing that the last one. */
    method Search(blk: int)
      requires !inCore && Valid() && blk >= 0
      modifies `pool
      ensures Valid() && |pool| == old(|pool|)
      ensures old(pool[0].bno) != blk && |pool| > 1 ==> pool[1] == old(pool[0])
      ensures pool[0].bno != blk ==> forall i :: 0 <= i < |pool| ==> pool[i].bno != blk
    {
      hide Coherent, Content;
      var i := 0;
      while i + 1 < |pool| && pool[i].bno != blk
        invariant 0 <= i < |pool| && forall j :: 0 <= j < i ==> pool[j].bno != blk
      {
        i := i + 1;
      }
      MovedToFront(pool, sfile, i);
      SamePages(pool, sfile, ToFront(pool, i), sfile, mem);
      pool := ToFront(pool, i);
    }

    /** Bring a page to the front of the pool. */
    method GetBlk(blk: int)
      requires !inCore && Valid() && blk >= 0
      modifies `pool, `sfile
      ensures Valid() && pool[0].bno == blk && |pool| == old(|pool|)
      ensures old(pool[0].bno) != blk && |pool| > 1 ==> pool[1] == old(pool[0])
    {
      hide Coherent, Content;
      Search(blk);
      var bp := pool[0];
      if bp.bno == blk {
        return;
      }
      ghost var f := sfile;
      if bp.dirty {
        sfile := sfile[bp.bno := bp.data];
      }
      Reloaded(pool, f, sfile, blk);
      SamePages(pool, f, pool[0 := Buf(blk, At(sfile, blk), false)], sfile, mem);
      pool := pool[0 := Buf(blk, At(sfile, blk), false)];
    }

    /** Copy one page over another.  Both are held at once, so the pool must have
        two buffers. */
    method CopyPage(from: nat, to: nat)
      requires !inCore && Valid() && |pool| >= 2 && from != to && (from + 1) * BSIZE <= |mem|
      requires (to + 1) * BSIZE <= |mem|
      modifies `pool, `sfile, `mem
      ensures Valid() && |pool| >= 2
      ensures mem == old(mem)[..to * BSIZE] + old(mem)[from * BSIZE..(from + 1) * BSIZE] + old(mem)[(to + 1) * BSIZE..]
    {
      hide Coherent, Content;
      GetBlk(from);
      GetBlk(to);
      var bp1, bp2 := pool[1], pool[0];
      PageIs(pool, sfile, mem, from, 1);
      PageCopied(pool, sfile, mem, to, bp1.data);
      pool := pool[0 := Buf(bp2.bno, bp1.data, true)];
      mem := mem[..to * BSIZE] + bp1.data + mem[(to + 1) * BSIZE..];
    }

    /** Copy the first n bytes to the next n. */
    method CopyCore(n: nat)
      requires inCore && Valid() && 2 * n <= |mem|
      modifies `mem, core
      ensures Valid() && mem == old(mem)[..n] + old(mem)[..n] + old(mem)[2 * n..]
    {
      ghost var was := mem;
      var i := 0;
      while i < n
        invariant 0 <= i <= n && core.Length == |was|
        invariant forall k :: 0 <= k < |was| && !(n <= k < n + i) ==> core[k] == was[k]
        invariant forall k :: 0 <= k < i ==> core[n + k] == was[k]
      {
        core[n + i] := core[i];
        i := i + 1;
      }
      mem := was[..n] + was[..n] + was[2 * n..];
      CopyEnded(was, n, core[..]);
    }

    /** Copy the first n pages to the next n. */
    method CopyPages(n: nat)
      requires !inCore && Valid() && |pool| >= 2 && 2 * (n * BSIZE) <= |mem|
      modifies `pool, `sfile, `mem
      ensures Valid() && mem == old(mem)[..n * BSIZE] + old(mem)[..n * BSIZE] + old(mem)[2 * (n * BSIZE)..]
    {
      ghost var was := mem;
      var blk := 0;
      CopyBegun(was, n * BSIZE);
      while blk < n
        invariant 0 <= blk <= n && Valid() && |pool| >= 2
        invariant mem == Copied(was, n * BSIZE, blk * BSIZE)
      {
        ghost var m := mem;
        CopyPage(blk, blk + n);
        CopyStep(was, n * BSIZE, blk * BSIZE, m, mem);
        blk := blk + 1;
      }
    }

    method Locate(base: nat, byte: nat)
      requires Valid() && base + byte < |mem| && (inCore || base % BSIZE == 0)
      modifies `pool, `sfile
      ensures Valid() && Located(base, byte)
    {
      if !inCore {
        GetBlk(base / BSIZE + byte / BSIZE);
      }
    }

    /** The next byte is in the same page. */
    lemma NextLocated(base: nat, byte: nat)
      requires Located(base, byte) && base + byte + 1 < |mem| && (byte + 1) / BSIZE == byte / BSIZE
      ensures Located(base, byte + 1)
    {
    }

    method Peek(base: nat, byte: nat) returns (v: bv8)
      requires Valid() && Located(base, byte)
      ensures v == mem[base + byte]
    {
      if inCore {
        v := core[base + byte];
      } else {
        v := pool[0].data[byte % BSIZE];
        PageByte(pool, sfile, mem, base, byte);
      }
    }

    method Poke(base: nat, byte: nat, v: bv8)
      requires Valid() && Located(base, byte)
      modifies `pool, `mem, core
      ensures Valid() && mem == old(mem)[base + byte := v] && Located(base, byte)
    {
      hide Coherent, Content;
      ghost var m := mem;
      mem := mem[base + byte := v];
      if inCore {
        core[base + byte] := v;
      } else {
        var bp := pool[0];
        var d: Data := bp.data[byte % BSIZE := v];
        PagePoke(pool, sfile, m, base, byte, v);
        pool := pool[0 := Buf(bp.bno, d, true)];
      }
    }
  }

  lemma CopyEnded(was: seq<bv8>, n: nat, now: seq<bv8>)
    requires 2 * n <= |was| == |now|
    requires forall k :: 0 <= k < |was| && !(n <= k < n + n) ==> now[k] == was[k]
    requires forall k :: 0 <= k < n ==> now[n + k] == was[k]
    ensures now == was[..n] + was[..n] + was[2 * n..]
  {
    forall k | n <= k < n + n
      ensures now[k] == was[k - n]
    {
      assert now[n + (k - n)] == was[k - n];
    }
  }

  lemma PageByte(pool: seq<Buf>, f: File, mem: seq<bv8>, base: nat, byte: nat)
    requires Pages(pool, f, mem) && pool != [] && base % BSIZE == 0 && base + byte < |mem|
    requires pool[0].bno == base / BSIZE + byte / BSIZE
    ensures pool[0].data[byte % BSIZE] == mem[base + byte]
  {
    var b := base / BSIZE + byte / BSIZE;
    assert base + byte == b * BSIZE + byte % BSIZE;
    assert (b + 1) * BSIZE <= |mem|;
    assert Content(pool, f, b) == pool[0].data;
  }

  lemma PagePoke(pool: seq<Buf>, f: File, mem: seq<bv8>, base: nat, byte: nat, v: bv8)
    requires Coherent(pool, f) && Pages(pool, f, mem) && pool != [] && base % BSIZE == 0 && base + byte < |mem|
    requires pool[0].bno == base / BSIZE + byte / BSIZE
    ensures var q := pool[0 := Buf(pool[0].bno, pool[0].data[byte % BSIZE := v], true)];
      Coherent(q, f) && Pages(q, f, mem[base + byte := v])
  {
    Written(pool, f, pool[0].data[byte % BSIZE := v]);
    hide Coherent, Content;
    var q := pool[0 := Buf(pool[0].bno, pool[0].data[byte % BSIZE := v], true)];
    var n, mem' := base / BSIZE + byte / BSIZE, mem[base + byte := v];
    assert base + byte == n * BSIZE + byte % BSIZE;
    forall b | 0 <= b && (b + 1) * BSIZE <= |mem'|
      ensures Content(q, f, b) == mem'[b * BSIZE..(b + 1) * BSIZE]
    {
      assert Content(pool, f, b) == mem[b * BSIZE..(b + 1) * BSIZE];
      if b == n {
        PageByte(pool, f, mem, base, byte);
        assert Content(pool, f, b) == pool[0].data by {
          FrontContent(pool, f);
        }
      }
    }
  }

  lemma FrontContent(pool: seq<Buf>, f: File)
    requires pool != []
    ensures Content(pool, f, pool[0].bno) == pool[0].data
  {
  }

  lemma PageIs(pool: seq<Buf>, f: File, mem: seq<bv8>, b: nat, i: nat)
    requires Coherent(pool, f) && Pages(pool, f, mem) && i < |pool| && pool[i].bno == b && (b + 1) * BSIZE <= |mem|
    ensures pool[i].data == mem[b * BSIZE..(b + 1) * BSIZE]
  {
    ContentAt(pool, f, b, i);
  }

  lemma PageCopied(pool: seq<Buf>, f: File, mem: seq<bv8>, n: nat, d: Data)
    requires Coherent(pool, f) && Pages(pool, f, mem) && pool != [] && pool[0].bno == n && (n + 1) * BSIZE <= |mem|
    ensures var q := pool[0 := Buf(n, d, true)];
      Coherent(q, f) && Pages(q, f, mem[..n * BSIZE] + d + mem[(n + 1) * BSIZE..])
  {
    Written(pool, f, d);
    hide Coherent, Content;
    var q, mem' := pool[0 := Buf(n, d, true)], mem[..n * BSIZE] + d + mem[(n + 1) * BSIZE..];
    forall b | 0 <= b && (b + 1) * BSIZE <= |mem'|
      ensures Content(q, f, b) == mem'[b * BSIZE..(b + 1) * BSIZE]
    {
      assert Content(pool, f, b) == mem[b * BSIZE..(b + 1) * BSIZE];
      if b < n {
        assert (b + 1) * BSIZE <= n * BSIZE;
      } else if b > n {
        assert (n + 1) * BSIZE <= b * BSIZE;
      }
    }
  }

  /** The bytes after the first done of n bytes were copied to the next n. */
  ghost function Copied(mem: seq<bv8>, n: nat, done: nat): seq<bv8>
    requires done <= n && 2 * n <= |mem|
  {
    mem[..n] + mem[..done] + mem[n + done..]
  }

  lemma CopyBegun(mem: seq<bv8>, n: nat)
    requires 2 * n <= |mem|
    ensures Copied(mem, n, 0) == mem
  {
  }

  lemma CopyStep(was: seq<bv8>, n: nat, done: nat, m: seq<bv8>, next: seq<bv8>)
    requires done + BSIZE <= n && 2 * n <= |was| && m == Copied(was, n, done)
    requires next == m[..n + done] + m[done..done + BSIZE] + m[n + done + BSIZE..]
    ensures next == Copied(was, n, done + BSIZE)
  {
    assert m[done..done + BSIZE] == was[done..done + BSIZE];
    assert was[..done + BSIZE] == was[..done] + was[done..done + BSIZE];
    assert m[..n + done] == was[..n] + was[..done];
    assert m[n + done + BSIZE..] == was[n + done + BSIZE..];
  }
}
