/** fsck's three maps as plain arrays, in memory or paged. */
module FsckMaps {
  import opened MapBytes
  import opened MapPool
  import opened Numbers

  const BITSPB := 8
  const STATEPB := 4

  /** The map at base, as a sequence of n bits, 2-bit states or shorts. */
  ghost predicate BitsAt(mem: seq<bv8>, base: nat, bits: seq<bool>) {
    forall b :: 0 <= b < |bits| ==> base + b / 8 < |mem| && bits[b] == Bit(mem[base + b / 8], b % 8)
  }

  ghost predicate PairsAt(mem: seq<bv8>, base: nat, pairs: seq<bv8>) {
    forall i :: 0 <= i < |pairs| ==> base + i / 4 < |mem| && pairs[i] == Pair(mem[base + i / 4], i % 4)
  }

  ghost predicate ShortsAt(mem: seq<bv8>, base: nat, shorts: seq<int>) {
    forall i :: 0 <= i < |shorts| ==>
      base + 2 * i + 1 < |mem| && shorts[i] == Short(mem[base + 2 * i], mem[base + 2 * i + 1])
  }

  lemma BitsSet(mem: seq<bv8>, base: nat, bits: seq<bool>, b: nat, on: bool)
    requires BitsAt(mem, base, bits) && b < |bits| && base + b / 8 < |mem|
    ensures BitsAt(mem[base + b / 8 := WithBit(mem[base + b / 8], b % 8, on)], base, bits[b := on])
  {
    hide Bit, WithBit;
    forall j | 0 <= j < |bits| && j / 8 == b / 8
      ensures j % 8 == b % 8 ==> j == b
      ensures Bit(WithBit(mem[base + b / 8], b % 8, on), j % 8) == if j == b then on else Bit(mem[base + b / 8], j % 8)
    {
      SetBit(mem[base + b / 8], b % 8, on, j % 8);
    }
  }

  lemma BitsElsewhere(mem: seq<bv8>, base: nat, bits: seq<bool>, a: nat, v: bv8)
    requires BitsAt(mem, base, bits) && a < |mem|
    requires a < base || forall b :: 0 <= b < |bits| ==> base + b / 8 < a
    ensures BitsAt(mem[a := v], base, bits)
  {
  }

  lemma PairsSet(mem: seq<bv8>, base: nat, pairs: seq<bv8>, i: nat, s: bv8)
    requires PairsAt(mem, base, pairs) && i < |pairs| && base + i / 4 < |mem| && s <= 3
    ensures PairsAt(mem[base + i / 4 := WithPair(mem[base + i / 4], i % 4, s)], base, pairs[i := s])
  {
    hide Pair, WithPair;
    forall j | 0 <= j < |pairs| && j / 4 == i / 4
      ensures j % 4 == i % 4 ==> j == i
      ensures Pair(WithPair(mem[base + i / 4], i % 4, s), j % 4) == if j == i then s else Pair(mem[base + i / 4], j % 4)
    {
      SetPair(mem[base + i / 4], i % 4, s, j % 4);
    }
  }

  lemma PairsElsewhere(mem: seq<bv8>, base: nat, pairs: seq<bv8>, a: nat, v: bv8)
    requires PairsAt(mem, base, pairs) && a < |mem|
    requires a < base || forall i :: 0 <= i < |pairs| ==> base + i / 4 < a
    ensures PairsAt(mem[a := v], base, pairs)
  {
  }

  lemma ShortsSet(mem: seq<bv8>, base: nat, shorts: seq<int>, i: nat, x: int)
    requires ShortsAt(mem, base, shorts) && i < |shorts| && base + 2 * i + 1 < |mem|
    ensures ShortsAt(mem[base + 2 * i := Low(x)][base + 2 * i + 1 := High(x)], base, shorts[i := Wrap(x)])
  {
    ShortOf(x);
  }

  lemma ShortsElsewhere(mem: seq<bv8>, base: nat, shorts: seq<int>, a: nat, v: bv8)
    requires ShortsAt(mem, base, shorts) && a < |mem|
    requires a < base || forall i :: 0 <= i < |shorts| ==> base + 2 * i + 1 < a
    ensures ShortsAt(mem[a := v], base, shorts)
  {
  }

  datatype Op = Set | Get | Clear

  class Tables {
    const m: Maps
    const fmax: nat
    const imax: nat
    const sbase: nat      // where the state map starts, and the free map of phase 5
    const lbase: nat      // where the link counts start

    /** The maps, as plain arrays. */
    ghost var blocks: seq<bool>
    ghost var states: seq<bv8>
    ghost var counts: seq<int>

    constructor (m: Maps, fmax: nat, imax: nat, sbase: nat, lbase: nat)
      requires m.Valid() && m.mem == seq(|m.mem|, i => 0) && Room(fmax, imax, sbase, lbase, m.inCore, |m.mem|)
      ensures Valid() && this.m == m
      ensures blocks == seq(fmax, i => false) && states == seq(imax + 1, i => 0) && counts == seq(imax + 1, i => 0)
    {
      this.m, this.fmax, this.imax, this.sbase, this.lbase := m, fmax, imax, sbase, lbase;
      blocks, states, counts := seq(fmax, i => false), seq(imax + 1, i => 0), seq(imax + 1, i => 0);
    }

    ghost predicate Valid()
      reads this, m, m.core
    {
      m.Valid() && MapsAt(m.mem, fmax, imax, sbase, lbase, m.inCore, blocks, states, counts)
    }

    /** The block map. */
    method DoMap(blk: nat, op: Op) returns (r: bool)
      requires Valid() && blk < fmax
      modifies `blocks, m, m.core
      ensures Valid()
      ensures blocks ==
        match op {
          case Set => old(blocks)[blk := true]
          case Get => old(blocks)
          case Clear => old(blocks)[blk := false]
        }
      ensures op == Get ==> r == old(blocks)[blk]
    {
      hide MapsAt, Bit, WithBit, Maps.Valid;
      var byte, n := blk / BITSPB, blk % BITSPB;
      BlockAt(m.mem, fmax, imax, sbase, lbase, m.inCore, blocks, states, counts, blk, op == Set);
      m.Locate(0, byte);
      var p := m.Peek(0, byte);
      r := true;
      if op == Get {
        r := Bit(p, n);
        return;
      }
      m.Poke(0, byte, WithBit(p, n, op == Set));
      blocks := blocks[blk := op == Set];
    }

    /** The state of inode inum: set to s, or read. */
    method DoState(inum: nat, s: bv8, op: Op) returns (r: bv8)
      requires Valid() && inum <= imax && s <= 3
      modifies `states, m, m.core
      ensures Valid()
      ensures states == if op == Set then old(states)[inum := s] else old(states)
      ensures r == match op { case Set => s case Get => old(states)[inum] case Clear => 0 }
    {
      hide MapsAt, Pair, WithPair, Maps.Valid;
      var byte := inum / STATEPB;
      StateAt(m.mem, fmax, imax, sbase, lbase, m.inCore, blocks, states, counts, inum, s);
      m.Locate(sbase, byte);
      var p := m.Peek(sbase, byte);
      match op {
        case Get =>
          r := Pair(p, inum % STATEPB);
        case Clear =>
          r := 0;
        case Set =>
          m.Poke(sbase, byte, WithPair(p, inum % STATEPB, s));
          states := states[inum := s];
          r := s;
      }
    }

    /** The link count of inode inum: set to val, read, or decremented, as a
        short. */
    method DoLncnt(inum: nat, val: int, op: Op) returns (r: int)
      requires Valid() && inum <= imax
      modifies `counts, m, m.core
      ensures Valid()
      ensures counts == match op {
          case Set => old(counts)[inum := Wrap(val)]
          case Get => old(counts)
          case Clear => old(counts)[inum := Wrap(old(counts)[inum] - 1)]
        }
      ensures r == counts[inum]
    {
      hide MapsAt, Short, Wrap, Low, High, Maps.Valid, Maps.Located;
      r := ReadCount(inum);
      if op == Get {
        return;
      }
      var x := if op == Set then val else r - 1;
      StoreCount(inum, x);
      ShortOf(x);
      r := Short(Low(x), High(x));
    }

    method ReadCount(inum: nat) returns (r: int)
      requires Valid() && inum <= imax
      modifies m`pool, m`sfile
      ensures Valid() && m.Located(lbase, 2 * inum) && m.Located(lbase, 2 * inum + 1)
      ensures |counts| == imax + 1 && r == counts[inum]
    {
      hide MapsAt, Short, Wrap, Low, High, Maps.Valid, Maps.Located;
      CountAt(m.mem, fmax, imax, sbase, lbase, m.inCore, blocks, states, counts, inum, 0);
      m.Locate(lbase, 2 * inum);
      OnePage(inum);
      m.NextLocated(lbase, 2 * inum);
      var lo := m.Peek(lbase, 2 * inum);
      var hi := m.Peek(lbase, 2 * inum + 1);
      r := Short(lo, hi);
    }

    method StoreCount(inum: nat, x: int)
      requires Valid() && inum <= imax && m.Located(lbase, 2 * inum) && m.Located(lbase, 2 * inum + 1)
      modifies `counts, m, m.core
      ensures Valid() && counts == old(counts)[inum := Wrap(x)]
    {
      hide MapsAt, Short, Wrap, Low, High, Maps.Valid, Maps.Located;
      CountAt(m.mem, fmax, imax, sbase, lbase, m.inCore, blocks, states, counts, inum, x);
      PokeShort(2 * inum, Low(x), High(x));
      counts := counts[inum := Wrap(x)];
    }

    /** Store both bytes of a link count. */
    method PokeShort(byte: nat, lo: bv8, hi: bv8)
      requires m.Valid() && m.Located(lbase, byte) && m.Located(lbase, byte + 1)
      modifies m, m.core
      ensures m.Valid() && m.mem == old(m.mem)[lbase + byte := lo][lbase + (byte + 1) := hi]
    {
      hide Coherent, Pages;
      m.Poke(lbase, byte, lo);
      m.Poke(lbase, byte + 1, hi);
    }

    /** In phase 5 the free map takes the place of the states and link counts. */
    ghost predicate ValidFree(freeBits: seq<bool>)
      reads this, m, m.core
    {
      && m.Valid() && Room(fmax, imax, sbase, lbase, m.inCore, |m.mem|)
      && |blocks| == |freeBits| == fmax && BitsAt(m.mem, 0, blocks) && BitsAt(m.mem, sbase, freeBits)
    }

    /** Start the free map as a copy of the block map. */
    method CopyMap()
      requires Valid() && (m.inCore || |m.pool| >= 2)
      modifies m, m.core
      ensures ValidFree(blocks)
    {
      hide PairsAt, ShortsAt;
      ghost var mem := m.mem;
      if m.inCore {
        m.CopyCore(sbase);
      } else {
        m.CopyPages(sbase / BSIZE);
      }
      BitsCopied(mem, m.mem, sbase, blocks);
    }

    /** The free map of phase 5. */
    method DoFMap(blk: nat, op: Op, ghost freeBits: seq<bool>) returns (r: bool, ghost now: seq<bool>)
      requires ValidFree(freeBits) && blk < fmax
      modifies m, m.core
      ensures ValidFree(now)
      ensures now ==
        match op {
          case Set => freeBits[blk := true]
          case Get => freeBits
          case Clear => freeBits[blk := false]
        }
      ensures op == Get ==> r == freeBits[blk]
    {
      hide BitsAt, PairsAt, ShortsAt, Bit, WithBit;
      var byte, n := blk / BITSPB, blk % BITSPB;
      BitIn(m.mem, sbase, freeBits, blk);
      assert m.inCore || sbase % BSIZE == 0;
      hide Room;
      m.Locate(sbase, byte);
      var p := m.Peek(sbase, byte);
      r, now := true, freeBits;
      if op == Get {
        r := Bit(p, n);
        return;
      }
      BitsSet(m.mem, sbase, freeBits, blk, op == Set);
      BitsElsewhere(m.mem, 0, blocks, sbase + byte, WithBit(p, n, op == Set));
      m.Poke(sbase, byte, WithBit(p, n, op == Set));
      now := freeBits[blk := op == Set];
    }
  }

  /** The maps lie one after the other within size bytes. */
  predicate Room(fmax: nat, imax: nat, sbase: nat, lbase: nat, inCore: bool, size: nat) {
    && fmax <= 8 * sbase && sbase + imax / 4 < lbase && lbase + 2 * imax + 1 < size
    && 2 * sbase <= size
    && (!inCore ==> sbase % BSIZE == 0 && lbase % BSIZE == 0)
  }

  /** The three maps lie in the bytes mem. */
  ghost predicate MapsAt(mem: seq<bv8>, fmax: nat, imax: nat, sbase: nat, lbase: nat, inCore: bool,
                         blocks: seq<bool>, states: seq<bv8>, counts: seq<int>) {
    && Room(fmax, imax, sbase, lbase, inCore, |mem|)
    && |blocks| == fmax && |states| == |counts| == imax + 1
    && BitsAt(mem, 0, blocks) && PairsAt(mem, sbase, states) && ShortsAt(mem, lbase, counts)
  }

  lemma BitIn(mem: seq<bv8>, base: nat, bits: seq<bool>, b: nat)
    requires BitsAt(mem, base, bits) && b < |bits|
    ensures base + b / 8 < |mem| && bits[b] == Bit(mem[base + b / 8], b % 8)
  {
  }

  /** Where a block's bit is, and what storing it does to the maps. */
  lemma BlockAt(mem: seq<bv8>, fmax: nat, imax: nat, sbase: nat, lbase: nat, inCore: bool,
                blocks: seq<bool>, states: seq<bv8>, counts: seq<int>, b: nat, on: bool)
    requires MapsAt(mem, fmax, imax, sbase, lbase, inCore, blocks, states, counts) && b < fmax
    ensures b / BITSPB < |mem| && |blocks| == fmax && blocks[b] == Bit(mem[b / BITSPB], b % BITSPB)
    ensures var now := mem[b / BITSPB := WithBit(mem[b / BITSPB], b % BITSPB, on)];
      MapsAt(now, fmax, imax, sbase, lbase, inCore, blocks[b := on], states, counts)
  {
    hide BitsAt, PairsAt, ShortsAt, Bit, WithBit;
    var a := b / BITSPB;
    BitIn(mem, 0, blocks, b);
    BitsSet(mem, 0, blocks, b, on);
    PairsElsewhere(mem, sbase, states, a, WithBit(mem[a], b % BITSPB, on));
    ShortsElsewhere(mem, lbase, counts, a, WithBit(mem[a], b % BITSPB, on));
  }

  /** Where a state is, and what storing one does to the maps. */
  lemma StateAt(mem: seq<bv8>, fmax: nat, imax: nat, sbase: nat, lbase: nat, inCore: bool,
                blocks: seq<bool>, states: seq<bv8>, counts: seq<int>, i: nat, s: bv8)
    requires MapsAt(mem, fmax, imax, sbase, lbase, inCore, blocks, states, counts) && i <= imax && s <= 3
    ensures sbase + i / STATEPB < |mem| && |states| == imax + 1 && (inCore || sbase % BSIZE == 0)
    ensures states[i] == Pair(mem[sbase + i / STATEPB], i % STATEPB)
    ensures var now := mem[sbase + i / STATEPB := WithPair(mem[sbase + i / STATEPB], i % STATEPB, s)];
      MapsAt(now, fmax, imax, sbase, lbase, inCore, blocks, states[i := s], counts)
  {
    hide BitsAt, PairsAt, ShortsAt, Pair, WithPair;
    var a := sbase + i / STATEPB;
    PairIn(mem, sbase, states, i);
    PairsSet(mem, sbase, states, i, s);
    BitsElsewhere(mem, 0, blocks, a, WithPair(mem[a], i % STATEPB, s));
    ShortsElsewhere(mem, lbase, counts, a, WithPair(mem[a], i % STATEPB, s));
  }

  /** Where a link count is, and what storing one does to the maps. */
  lemma CountAt(mem: seq<bv8>, fmax: nat, imax: nat, sbase: nat, lbase: nat, inCore: bool,
                blocks: seq<bool>, states: seq<bv8>, counts: seq<int>, i: nat, x: int)
    requires MapsAt(mem, fmax, imax, sbase, lbase, inCore, blocks, states, counts) && i <= imax
    ensures lbase + 2 * i + 1 < |mem| && |counts| == imax + 1 && (inCore || lbase % BSIZE == 0)
    ensures counts[i] == Short(mem[lbase + 2 * i], mem[lbase + (2 * i + 1)])
    ensures var now := mem[lbase + 2 * i := Low(x)][lbase + (2 * i + 1) := High(x)];
      MapsAt(now, fmax, imax, sbase, lbase, inCore, blocks, states, counts[i := Wrap(x)])
  {
    hide Bit, Pair, Low, High, Wrap, Short;
    var a := lbase + 2 * i;
    var mid := mem[a := Low(x)];
    ShortIn(mem, lbase, counts, i);
    BitsElsewhere(mem, 0, blocks, a, Low(x));
    BitsElsewhere(mid, 0, blocks, a + 1, High(x));
    PairsElsewhere(mem, sbase, states, a, Low(x));
    PairsElsewhere(mid, sbase, states, a + 1, High(x));
    ShortsSet(mem, lbase, counts, i, x);
  }

  /** Both bytes of a count are in one page. */
  lemma OnePage(i: nat)
    ensures (2 * i + 1) / BSIZE == 2 * i / BSIZE
  {
    assert 2 * i + 1 == BSIZE * (2 * i / BSIZE) + (2 * i % BSIZE + 1);
  }

  lemma BitsCopied(mem: seq<bv8>, now: seq<bv8>, n: nat, bits: seq<bool>)
    requires BitsAt(mem, 0, bits) && |bits| <= 8 * n && 2 * n <= |mem|
    requires now == mem[..n] + mem[..n] + mem[2 * n..]
    ensures BitsAt(now, 0, bits) && BitsAt(now, n, bits)
  {
    hide Bit;
  }

  lemma PairIn(mem: seq<bv8>, base: nat, pairs: seq<bv8>, i: nat)
    requires PairsAt(mem, base, pairs) && i < |pairs|
    ensures base + i / 4 < |mem| && pairs[i] == Pair(mem[base + i / 4], i % 4)
  {
  }

  lemma ShortIn(mem: seq<bv8>, base: nat, shorts: seq<int>, i: nat)
    requires ShortsAt(mem, base, shorts) && i < |shorts|
    ensures base + 2 * i + 1 < |mem| && shorts[i] == Short(mem[base + 2 * i], mem[base + 2 * i + 1])
  {
  }

  /** The sizes of the three maps as setup computes them, for memory and, with
      each rounded up to a block, for the scratch file. */
  function MapSizes(fmax: nat, imax: nat, paged: bool): (s: (nat, nat, nat)) {
    var bmapsz := Roundup(Howmany(fmax, BITSPB), 2);
    var lncntsz := (imax + 1) * 2;
    var smapsz0 := Roundup(Howmany(imax + 1, STATEPB), 2);
    var smapsz := if bmapsz > smapsz0 + lncntsz then bmapsz - lncntsz else smapsz0;
    if paged then (Roundup(bmapsz, BSIZE), Roundup(smapsz, BSIZE), Roundup(lncntsz, BSIZE))
    else (bmapsz, smapsz, lncntsz)
  }

  /** These sizes leave room for the maps, and for the free map over the last two
      of them. */
  lemma SetupLeavesRoom(fmax: nat, imax: nat, paged: bool)
    ensures var (b, s, l) := MapSizes(fmax, imax, paged);
      Room(fmax, imax, b, b + s, !paged, b + s + l) && (paged ==> (b + s + l) % BSIZE == 0)
  {
    hide Roundup, Howmany;
    CoreSizes(fmax, imax);
    var (b, s, l) := MapSizes(fmax, imax, false);
    if paged {
      RoundedBlock(b);
      RoundedBlock(s);
      RoundedBlock(l);
      RoundedOrder(b, s, l);
      var (pb, ps, pl) := (Roundup(b, BSIZE), Roundup(s, BSIZE), Roundup(l, BSIZE));
      assert MapSizes(fmax, imax, true) == (pb, ps, pl);
      hide MapSizes;
      BlockSums(pb, ps, pl);
    }
  }

  lemma BlockSums(b: nat, s: nat, l: nat)
    requires b % BSIZE == 0 && s % BSIZE == 0 && l % BSIZE == 0
    ensures (b + s) % BSIZE == 0 && (b + s + l) % BSIZE == 0
  {
    BlockSum(b, s);
    BlockSum(b + s, l);
  }

  lemma BlockSum(x: nat, y: nat)
    requires x % BSIZE == 0 && y % BSIZE == 0
    ensures (x + y) % BSIZE == 0
  {
    var q, r := x / BSIZE, y / BSIZE;
    assert x + y == BSIZE * (q + r);
    MultipleMod(BSIZE, q + r);
  }

  lemma CoreSizes(fmax: nat, imax: nat)
    ensures var (b, s, l) := MapSizes(fmax, imax, false);
            fmax <= 8 * b && imax / 4 < s && 2 * imax + 1 < l && b <= s + l
  {
    hide Roundup, Howmany;
    HowmanyFits(fmax);
    HowmanyStates(imax + 1);
  }

  lemma HowmanyFits(x: nat)
    ensures 8 * Howmany(x, BITSPB) >= x
  {
  }

  lemma HowmanyStates(x: nat)
    ensures 4 * Howmany(x, STATEPB) >= x
  {
  }

  lemma RoundedBlock(x: nat)
    ensures Roundup(x, BSIZE) % BSIZE == 0
  {
    RoundedUp(x, BSIZE);
  }

  lemma RoundedOrder(b: nat, s: nat, l: nat)
    requires b <= s + l
    ensures Roundup(b, BSIZE) <= Roundup(s, BSIZE) + Roundup(l, BSIZE)
  {
  }
}
