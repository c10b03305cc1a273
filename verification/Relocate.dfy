/** ld's relocation of a segment, and that two passes of it make one. */
module Relocate {

  type Byte = b: int | 0 <= b < 256 witness 0

  type Name = string

  const N_ABS := 2
  const N_TEXT := 4
  const N_DATA := 6
  const N_BSS := 8

  /** n & N_TYPE, where N_TYPE is 036. */
  function NType(n: nat): nat { n / 2 % 16 * 2 }

  predicate SegmentType(n: nat) {
    n == N_ABS || n == N_TEXT || n == N_DATA || n == N_BSS
  }

  /** A global symbol: undefined, or with the type and the value it has in the
      result. */
  datatype Symbol = Undefined | Defined(typ: nat, value: int)

  datatype Reloc = Reloc(address: nat, length: nat, pcrel: bool, ext: bool, symbolnum: nat)

  /** What one pass knows when it relocates a segment: the displacements of the
      three segments of the file and of this one, its position in the result, the
      file's symbols by number, the global symbols, and their numbers in the result. */
  datatype Pass = Pass(ctrel: int, cdrel: int, cbrel: int, creloc: int, position: nat, names: seq<Name>,
    glob: map<Name, Symbol>, outnum: map<Name, nat>)

  function Disp(e: Pass, typ: nat): int {
    if typ == N_TEXT then e.ctrel else if typ == N_DATA then e.cdrel else if typ == N_BSS then e.cbrel else 0
  }

  /** A relocation that the pass can do. */
  predicate Doable(e: Pass, r: Reloc) {
    && r.length <= 2
    && if r.ext then
         r.symbolnum < |e.names| && e.names[r.symbolnum] in e.glob && SymbolOk(e, e.names[r.symbolnum])
       else SegmentType(NType(r.symbolnum))
  }

  predicate SymbolOk(e: Pass, n: Name)
    requires n in e.glob
  {
    match e.glob[n]
    case Undefined => n in e.outnum
    case Defined(typ, v) => SegmentType(NType(typ))
  }

  /** What is added to the field. */
  function Delta(e: Pass, r: Reloc): int
    requires Doable(e, r)
  {
    (if r.ext then
       match e.glob[e.names[r.symbolnum]]
       case Undefined => 0
       case Defined(typ, v) => v
     else Disp(e, NType(r.symbolnum)))
    - if r.pcrel then e.creloc else 0
  }

  /** What the relocation becomes in the result. */
  function Next(e: Pass, r: Reloc): Reloc
    requires Doable(e, r)
  {
    var moved := r.(address := r.address + e.position);
    if !r.ext then moved
    else
      match e.glob[e.names[r.symbolnum]]
      case Undefined => moved.(symbolnum := e.outnum[e.names[r.symbolnum]])
      case Defined(typ, v) => moved.(symbolnum := NType(typ), ext := false)
  }

  // Two passes.

  /** The second pass reads the result of the first: a symbol left undefined has
      the number the first gave it. */
  ghost predicate Follows(e1: Pass, e2: Pass) {
    forall n :: n in e1.glob && e1.glob[n].Undefined? && n in e1.outnum ==>
      e1.outnum[n] < |e2.names| && e2.names[e1.outnum[n]] == n
  }

  /** One pass instead of two: the displacements add up, and a symbol that the first
      pass defined moves with its segment in the second. */
  ghost predicate Combines(e1: Pass, e2: Pass, e: Pass) {
    && e.ctrel == e1.ctrel + e2.ctrel && e.cdrel == e1.cdrel + e2.cdrel && e.cbrel == e1.cbrel + e2.cbrel
    && e.creloc == e1.creloc + e2.creloc && e.position == e1.position + e2.position
    && e.names == e1.names && e.outnum == e2.outnum
    && forall n :: n in e1.glob ==> CombinesAt(e1, e2, e, n)
  }

  ghost predicate CombinesAt(e1: Pass, e2: Pass, e: Pass, n: Name)
    requires n in e1.glob
  {
    match e1.glob[n]
    case Undefined => n in e2.glob ==> n in e.glob && e.glob[n] == e2.glob[n]
    case Defined(typ, v) => n in e.glob && e.glob[n] == Defined(typ, v + Disp(e2, NType(typ)))
  }

  lemma NTypeTwice(n: nat)
    ensures NType(NType(n)) == NType(n)
  {
  }

  /** A field gets the same from two passes as from one, and the same relocation is
      left. */
  lemma TwoPasses(e1: Pass, e2: Pass, e: Pass, r: Reloc)
    requires Follows(e1, e2) && Combines(e1, e2, e) && Doable(e1, r) && Doable(e2, Next(e1, r))
    ensures Doable(e, r) && Delta(e, r) == Delta(e1, r) + Delta(e2, Next(e1, r))
    ensures Next(e, r) == Next(e2, Next(e1, r))
  {
    if r.ext {
      var n := e1.names[r.symbolnum];
      assert CombinesAt(e1, e2, e, n);
      if e1.glob[n].Defined? {
        NTypeTwice(e1.glob[n].typ);
      }
    }
    hide NType;
  }

  // Fields of a segment: 1, 2 or 4 bytes, the low byte first.

  const LONG := 0x1_0000_0000

  function Bytes(length: nat): (n: nat) { if length == 0 then 1 else if length == 1 then 2 else 4 }

  function Modulus(length: nat): (m: nat)
    ensures m > 0
  {
    if length == 0 then 0x100 else if length == 1 then 0x1_0000 else LONG
  }

  function Get(code: seq<Byte>, a: nat, length: nat): (v: nat)
    requires a + Bytes(length) <= |code|
    ensures v < Modulus(length)
  {
    var b0: int := code[a];
    if length == 0 then b0
    else
      var b1: int := code[a + 1];
      if length == 1 then b0 + 0x100 * b1
      else
        var b2: int, b3: int := code[a + 2], code[a + 3];
        b0 + 0x100 * b1 + 0x1_0000 * b2 + 0x100_0000 * b3
  }

  /** The bits of x that a field has. */
  function Cut(x: int, length: nat): (v: nat) { x % Modulus(length) }

  /** Byte x belongs to the field of r. */
  predicate InField(r: Reloc, x: int) {
    r.address <= x < r.address + Bytes(r.length)
  }

  /** The fields lie in the segment and do not overlap. */
  ghost predicate Layout(rels: seq<Reloc>, n: nat) {
    && (forall i :: 0 <= i < |rels| ==> rels[i].address + Bytes(rels[i].length) <= n)
    && forall i, j :: 0 <= i < j < |rels| ==> Disjoint(rels[i], rels[j])
  }

  ghost predicate Disjoint(r: Reloc, s: Reloc) {
    r.address + Bytes(r.length) <= s.address || s.address + Bytes(s.length) <= r.address
  }

  ghost predicate Loose(rels: seq<Reloc>, x: int) {
    forall i :: 0 <= i < |rels| ==> !InField(rels[i], x)
  }

  /** The field of r has d added, in as many bits as it has. */
  ghost predicate Added(c: seq<Byte>, c': seq<Byte>, r: Reloc, d: int) {
    && |c| == |c'| && r.address + Bytes(r.length) <= |c|
    && Get(c', r.address, r.length) == Cut(Get(c, r.address, r.length) + d, r.length)
  }

  /** The segment c' is c relocated by a pass, and rels' what is left to relocate. */
  ghost predicate Relocated(e: Pass, c: seq<Byte>, c': seq<Byte>, rels: seq<Reloc>) {
    && |c| == |c'| && Layout(rels, |c|)
    && (forall i :: 0 <= i < |rels| ==> Doable(e, rels[i]) && Added(c, c', rels[i], Delta(e, rels[i])))
    && forall x :: 0 <= x < |c| && Loose(rels, x) ==> c'[x] == c[x]
  }

  /** A field's value tells its bytes. */
  lemma SameField(c: seq<Byte>, c': seq<Byte>, r: Reloc, x: nat)
    requires |c| == |c'| && r.address + Bytes(r.length) <= |c| && InField(r, x)
    requires Get(c, r.address, r.length) == Get(c', r.address, r.length)
    ensures c[x] == c'[x]
  {
    var a := r.address;
    if r.length >= 2 {
      Digits(c[a], c[a + 1], c[a + 2], c[a + 3], c'[a], c'[a + 1], c'[a + 2], c'[a + 3]);
    }
  }

  /** A pass determines what becomes of a segment. */
  lemma RelocatedOnce(e: Pass, c: seq<Byte>, b: seq<Byte>, b': seq<Byte>, rels: seq<Reloc>)
    requires Relocated(e, c, b, rels) && Relocated(e, c, b', rels)
    ensures b == b'
  {
    hide Doable, Get, Delta, InField, Bytes, Disjoint;
    forall x: nat | x < |c|
      ensures b[x] == b'[x]
    {
      if Loose(rels, x) {
        assert b[x] == c[x];
      } else {
        var i :| 0 <= i < |rels| && InField(rels[i], x);
        SameField(b, b', rels[i], x);
      }
    }
  }

  lemma Digits(a: Byte, b: Byte, c: Byte, d: Byte, a': Byte, b': Byte, c': Byte, d': Byte)
    requires a + 0x100 * b + 0x1_0000 * c + 0x100_0000 * d == a' + 0x100 * b' + 0x1_0000 * c' + 0x100_0000 * d'
    ensures a == a' && b == b' && c == c' && d == d'
  {
    LowDigit(a, b + 0x100 * c + 0x1_0000 * d, a', b' + 0x100 * c' + 0x1_0000 * d');
    LowDigit(b, c + 0x100 * d, b', c' + 0x100 * d');
    LowDigit(c, d, c', d');
  }

  lemma LowDigit(a: Byte, h: int, a': Byte, h': int)
    requires a + 0x100 * h == a' + 0x100 * h'
    ensures a == a' && h == h'
  {
  }

  /** The field of r set to v. */
  function Put(c: seq<Byte>, r: Reloc, v: nat): (c': seq<Byte>)
    requires r.address + Bytes(r.length) <= |c|
    ensures |c'| == |c| && forall x :: 0 <= x < |c| && !InField(r, x) ==> c'[x] == c[x]
  {
    var a := r.address;
    if r.length == 0 then c[a := v % 0x100]
    else if r.length == 1 then c[a := v % 0x100][a + 1 := v / 0x100 % 0x100]
    else c[a := v % 0x100][a + 1 := v / 0x100 % 0x100][a + 2 := v / 0x1_0000 % 0x100][a + 3 := v / 0x100_0000 % 0x100]
  }

  lemma PutGet(c: seq<Byte>, r: Reloc, v: nat)
    requires r.address + Bytes(r.length) <= |c| && v < Modulus(r.length)
    ensures Get(Put(c, r, v), r.address, r.length) == v
  {
    var q1 := v / 0x100;
    var q2 := q1 / 0x100;
    var q3 := q2 / 0x100;
    LowBytes(v, q1, q2, q3);
    assert v / 0x1_0000 == q2 && v / 0x100_0000 == q3;
  }

  /** What the bytes of the field are, and that the others stay, fixes a segment. */
  lemma PutOnly(c: seq<Byte>, c': seq<Byte>, r: Reloc, v: nat)
    requires |c| == |c'| && r.address + Bytes(r.length) <= |c| && v < Modulus(r.length)
    requires Get(c', r.address, r.length) == v && forall x :: 0 <= x < |c| && !InField(r, x) ==> c'[x] == c[x]
    ensures c' == Put(c, r, v)
  {
    PutGet(c, r, v);
    var p := Put(c, r, v);
    hide Get, Put, Modulus, Bytes;
    forall x | 0 <= x < |c|
      ensures c'[x] == p[x]
    {
      if InField(r, x) {
        SameField(c', p, r, x);
      }
    }
  }

  /** The field of r with d added. */
  function PutAdded(c: seq<Byte>, r: Reloc, d: int): (c': seq<Byte>)
    requires r.address + Bytes(r.length) <= |c|
    ensures |c'| == |c| && forall x :: 0 <= x < |c| && !InField(r, x) ==> c'[x] == c[x]
  {
    Put(c, r, Cut(Get(c, r.address, r.length) + d, r.length))
  }

  lemma PutAddedAdds(c: seq<Byte>, r: Reloc, d: int)
    requires r.address + Bytes(r.length) <= |c|
    ensures Added(c, PutAdded(c, r, d), r, d)
  {
    hide Get, Put, Modulus, Bytes;
    PutGet(c, r, Cut(Get(c, r.address, r.length) + d, r.length));
  }

  /** The fields lie in the segment, and all can be relocated. */
  ghost predicate Fit(e: Pass, rels: seq<Reloc>, n: nat) {
    forall i :: 0 <= i < |rels| ==> rels[i].address + Bytes(rels[i].length) <= n && Doable(e, rels[i])
  }

  /** The fields of all relocations one after the other, whether they overlap or
      not. */
  ghost function Applied(e: Pass, c: seq<Byte>, rels: seq<Reloc>): (c': seq<Byte>)
    requires Fit(e, rels, |c|)
    ensures |c'| == |c|
  {
    if rels == [] then c
    else PutAdded(Applied(e, c, rels[..|rels| - 1]), rels[|rels| - 1], Delta(e, rels[|rels| - 1]))
  }

  lemma FitMore(e: Pass, rels: seq<Reloc>, i: nat, n: nat)
    requires i < |rels|
    ensures Fit(e, rels[..i + 1], n) <==>
      Fit(e, rels[..i], n) && rels[i].address + Bytes(rels[i].length) <= n && Doable(e, rels[i])
  {
    hide Doable, Bytes;
    assert forall j :: 0 <= j < i ==> rels[..i][j] == rels[..i + 1][j];
    assert rels[..i + 1][i] == rels[i];
  }

  lemma AppliedMore(e: Pass, c: seq<Byte>, rels: seq<Reloc>, i: nat)
    requires i < |rels| && Fit(e, rels[..i + 1], |c|)
    ensures Fit(e, rels[..i], |c|) && rels[i].address + Bytes(rels[i].length) <= |c| && Doable(e, rels[i])
    ensures Applied(e, c, rels[..i + 1]) == PutAdded(Applied(e, c, rels[..i]), rels[i], Delta(e, rels[i]))
  {
    FitMore(e, rels, i, |c|);
    assert rels[..i + 1][..i] == rels[..i] && rels[..i + 1][i] == rels[i];
    hide PutAdded, Delta, Doable, Bytes;
  }

  /** When they do not overlap, each field has its own amount added. */
  lemma {:induction false} AppliedRelocates(e: Pass, c: seq<Byte>, rels: seq<Reloc>, n: nat)
    requires n <= |rels| && Layout(rels, |c|) && Fit(e, rels[..n], |c|)
    ensures Relocated(e, c, Applied(e, c, rels[..n]), rels[..n])
    decreases n
  {
    if n == 0 {
      assert rels[..0] == [];
      NothingRelocated(e, c, rels);
      hide Relocated;
    } else {
      hide *;
      var m: nat := n - 1;
      AppliedMore(e, c, rels, m);
      AppliedRelocates(e, c, rels, m);
      AppliedNext(e, c, rels, m);
    }
  }

  lemma AppliedNext(e: Pass, c: seq<Byte>, rels: seq<Reloc>, m: nat)
    requires m < |rels| && Layout(rels, |c|) && Fit(e, rels[..m + 1], |c|) && Fit(e, rels[..m], |c|)
    requires Relocated(e, c, Applied(e, c, rels[..m]), rels[..m])
    ensures Relocated(e, c, Applied(e, c, rels[..m + 1]), rels[..m + 1])
  {
    hide *;
    AppliedMore(e, c, rels, m);
    var was := Applied(e, c, rels[..m]);
    PutAddedAdds(was, rels[m], Delta(e, rels[m]));
    OneMore(e, c, was, Applied(e, c, rels[..m + 1]), rels, m);
  }

  /** A word, and a byte that is its first. */
  predicate Overlapping(c: seq<Byte>, w: Reloc, b: Reloc) {
    w.length == 1 && b.length == 0 && w.address == b.address && w.address + 2 <= |c|
  }

  /** When they do, two passes need not make one: a carry of the byte added to first
      is lost to the word around it. */
  lemma OverlapsDiffer()
    ensures exists c, w, b :: Overlapping(c, w, b) &&
              PutAdded(PutAdded(PutAdded(PutAdded(c, w, 0), b, 1), w, 1), b, 0) != PutAdded(PutAdded(c, w, 1), b, 1)
  {
    var c: seq<Byte>, w, b := [255, 0], Reloc(0, 1, false, false, N_TEXT), Reloc(0, 0, false, false, N_DATA);
    assert Overlapping(c, w, b);
    assert PutAdded(c, w, 0) == [255, 0];
    assert PutAdded([255, 0], b, 1) == [0, 0];
    assert PutAdded([0, 0], w, 1) == [1, 0];
    assert PutAdded([1, 0], b, 0) == [1, 0];
    assert PutAdded(c, w, 1) == [0, 1];
    assert PutAdded([0, 1], b, 1) == [1, 1];
  }

  /** How far the place moves that a relocation refers to: a symbol now defined is at its
      value, and one in a segment of the file moves with that. */
  function TargetMove(e: Pass, r: Reloc): int
    requires Doable(e, r)
  {
    if r.ext then
      match e.glob[e.names[r.symbolnum]]
      case Defined(_, v) => v
      case Undefined => 0
    else
      match r.symbolnum / 2 % 16
      case 1 => 0
      case 2 => e.ctrel
      case 3 => e.cdrel
      case _ => e.cbrel
  }

  /** A field moves by as much as what it refers to; a pc-relative field does together
      with its own place, which moves by the displacement of its segment. */
  lemma FieldMoves(e: Pass, r: Reloc, c: seq<Byte>, c': seq<Byte>, place: int, place': int)
    requires Doable(e, r) && Added(c, c', r, Delta(e, r)) && place' == place + e.creloc
    ensures var was, now := Get(c, r.address, r.length), Get(c', r.address, r.length);
      if r.pcrel then now == (was + place + TargetMove(e, r) - place') % Modulus(r.length)
      else now == (was + TargetMove(e, r)) % Modulus(r.length)
  {
    MoveIs(e, r);
    hide Delta, TargetMove, Doable, Get, Modulus, Bytes;
  }

  lemma MoveIs(e: Pass, r: Reloc)
    requires Doable(e, r)
    ensures Delta(e, r) == TargetMove(e, r) - if r.pcrel then e.creloc else 0
  {
  }

  /** The bytes of a field, the low one first. */
  lemma FieldBytes(c: seq<Byte>, a: nat, length: nat, v: nat)
    requires length <= 2 && a + Bytes(length) <= |c| && v == Get(c, a, length)
    ensures c[a] == v % 256
    ensures length >= 1 ==> c[a + 1] == v / 256 % 256
    ensures length == 2 ==> c[a + 2] == v / 65536 % 256 && c[a + 3] == v / 16777216
  {
    var b0: int := c[a];
    if length >= 1 {
      var b1: int := c[a + 1];
      var b2: int, b3: int := if length == 2 then c[a + 2] else 0, if length == 2 then c[a + 3] else 0;
      var h2 := b2 + 256 * b3;
      var h1 := b1 + 256 * h2;
      assert v == b0 + 256 * h1;
      hide *;
      Byte0(v, b0, h1);
      Byte0(h1, b1, h2);
      Byte0(h2, b2, b3);
      Byte2(v, b0 + 256 * b1, h2);
      Byte3(v, b0 + 256 * b1 + 65536 * b2, b3);
    }
  }

  lemma Byte0(v: int, b: int, h: int)
    requires v == b + 256 * h && 0 <= b < 256
    ensures v % 256 == b && v / 256 == h
  {
  }

  lemma Byte2(v: int, r: int, h: int)
    requires v == r + 65536 * h && 0 <= r < 65536
    ensures v / 65536 == h
  {
  }

  lemma Byte3(v: int, r: int, h: int)
    requires v == r + 16777216 * h && 0 <= r < 16777216
    ensures v / 16777216 == h
  {
  }

  lemma AddTwice(v: nat, d1: int, d2: int, m: nat)
    requires m > 0
    ensures ((v + d1) % m + d2) % m == (v + (d1 + d2)) % m
  {
    ModDrop(v + d1, d2, m);
  }

  lemma ModDrop(x: int, y: int, m: nat)
    requires m > 0
    ensures (x % m + y) % m == (x + y) % m
  {
    var q := x / m;
    assert x == q * m + x % m;
    ModShift(x % m + y, q, m);
    assert x % m + y + q * m == x + y;
  }

  lemma ModShift(x: int, q: int, m: nat)
    requires m > 0
    ensures (x + q * m) % m == x % m
  {
    var a, b := x / m, (x + q * m) / m;
    assert x == a * m + x % m && x + q * m == b * m + (x + q * m) % m;
    assert (b - a - q) * m == x % m - (x + q * m) % m;
    MulBound(b - a - q, m);
  }

  lemma MulBound(k: int, m: int)
    requires m > 0
    ensures (k >= 1 ==> k * m >= m) && (k <= -1 ==> k * m <= -m)
  {
  }

  /** The result of one pass inside a larger segment, relocated once more. */
  ghost predicate Inside(e1: Pass, c1: seq<Byte>, rels: seq<Reloc>, b: seq<Byte>, brels: seq<Reloc>, first: nat) {
    && (forall i :: 0 <= i < |rels| ==> Doable(e1, rels[i]))
    && e1.position + |c1| <= |b| && b[e1.position..e1.position + |c1|] == c1
    && first + |rels| <= |brels| && (forall i :: 0 <= i < |rels| ==> brels[first + i] == Next(e1, rels[i]))
    && forall j, x | 0 <= j < |brels| && !(first <= j < first + |rels|) ::
      e1.position <= x < e1.position + |c1| ==> !InField(brels[j], x)
  }

  lemma GetMoved(b: seq<Byte>, p: nat, n: nat, a: nat, length: nat)
    requires p + n <= |b| && a + Bytes(length) <= n
    ensures Get(b[p..p + n], a, length) == Get(b, p + a, length)
  {
  }

  /** A segment c is relocated to c1, which becomes part of b; b is relocated to b'.
      The same segment is relocated at once to one. */
  ghost predicate TwoRuns(e1: Pass, e2: Pass, e: Pass, c: seq<Byte>, c1: seq<Byte>, rels: seq<Reloc>, b: seq<Byte>,
                          b': seq<Byte>, brels: seq<Reloc>, first: nat, one: seq<Byte>) {
    && Follows(e1, e2) && Combines(e1, e2, e)
    && Relocated(e1, c, c1, rels) && Inside(e1, c1, rels, b, brels, first) && Relocated(e2, b, b', brels)
    && Relocated(e, c, one, rels)
  }

  /** Relocating a segment by itself and then inside the result, as ld -r followed
      by ld does, leaves every byte as relocating it once does. */
  lemma Composes(e1: Pass, e2: Pass, e: Pass, c: seq<Byte>, c1: seq<Byte>, rels: seq<Reloc>, b: seq<Byte>,
                 b': seq<Byte>, brels: seq<Reloc>, first: nat, one: seq<Byte>)
    requires TwoRuns(e1, e2, e, c, c1, rels, b, b', brels, first, one)
    ensures e1.position + |c| <= |b'| && |one| == |c| && forall x :: 0 <= x < |one| ==> one[x] == b'[e1.position + x]
  {
    assert e1.position + |c| <= |b'| && |one| == |c|;
    hide *;
    forall x | 0 <= x < |one|
      ensures one[x] == b'[e1.position + x]
    {
      ByteComposes(e1, e2, e, c, c1, rels, b, b', brels, first, one, x);
    }
  }

  lemma ByteComposes(e1: Pass, e2: Pass, e: Pass, c: seq<Byte>, c1: seq<Byte>, rels: seq<Reloc>, b: seq<Byte>,
                     b': seq<Byte>, brels: seq<Reloc>, first: nat, one: seq<Byte>, x: nat)
    requires TwoRuns(e1, e2, e, c, c1, rels, b, b', brels, first, one) && x < |c|
    ensures e1.position + |c| <= |b'| && b'[e1.position + x] == one[x]
  {
    hide Follows, Combines, Get, Next, Doable, Added;
    var p := e1.position;
    if i :| 0 <= i < |rels| && InField(rels[i], x) {
      FieldComposes(e1, e2, e, c, c1, rels, b, b', brels, first, one, i);
      SameField(b'[p..p + |c|], one, rels[i], x);
    } else {
      assert Loose(rels, x);
      LooseInside(e1, c1, rels, b, brels, first, x);
      assert b[p..p + |c1|][x] == c1[x];
    }
  }

  lemma LooseInside(e1: Pass, c1: seq<Byte>, rels: seq<Reloc>, b: seq<Byte>, brels: seq<Reloc>, first: nat, x: nat)
    requires Inside(e1, c1, rels, b, brels, first) && Loose(rels, x) && x < |c1|
    ensures Loose(brels, e1.position + x)
  {
    hide Next;
    forall j | 0 <= j < |brels|
      ensures !InField(brels[j], e1.position + x)
    {
      if first <= j < first + |rels| {
        assert brels[first + (j - first)] == Next(e1, rels[j - first]);
        NextPlace(e1, rels[j - first]);
      }
    }
  }

  lemma NextPlace(e: Pass, r: Reloc)
    requires Doable(e, r)
    ensures Next(e, r).address == r.address + e.position && Next(e, r).length == r.length
  {
  }

  lemma FieldComposes(e1: Pass, e2: Pass, e: Pass, c: seq<Byte>, c1: seq<Byte>, rels: seq<Reloc>, b: seq<Byte>,
                      b': seq<Byte>, brels: seq<Reloc>, first: nat, one: seq<Byte>, i: nat)
    requires TwoRuns(e1, e2, e, c, c1, rels, b, b', brels, first, one) && i < |rels|
    ensures rels[i].address + Bytes(rels[i].length) <= |c|
    ensures Get(b'[e1.position..e1.position + |c|], rels[i].address, rels[i].length) ==
      Get(one, rels[i].address, rels[i].length)
  {
    var r, s := rels[i], brels[first + i];
    assert s == Next(e1, r) && Doable(e1, r) && Doable(e, r) && Doable(e2, s);
    assert Added(c, c1, r, Delta(e1, r)) && Added(b, b', s, Delta(e2, s)) && Added(c, one, r, Delta(e, r));
    assert |c| == |c1| && |b| == |b'| && e1.position + |c| <= |b| && b[e1.position..e1.position + |c|] == c1;
    hide *;
    FieldSum(e1, e2, e, c, c1, r, b, b', one);
  }

  lemma FieldSum(e1: Pass, e2: Pass, e: Pass, c: seq<Byte>, c1: seq<Byte>, r: Reloc, b: seq<Byte>, b': seq<Byte>,
                 one: seq<Byte>)
    requires Follows(e1, e2) && Combines(e1, e2, e) && Doable(e1, r) && Doable(e2, Next(e1, r)) && Doable(e, r)
    requires Added(c, c1, r, Delta(e1, r)) && Added(b, b', Next(e1, r), Delta(e2, Next(e1, r)))
    requires Added(c, one, r, Delta(e, r))
    requires |c| == |c1| && |b| == |b'| && e1.position + |c| <= |b| && b[e1.position..e1.position + |c|] == c1
    ensures r.address + Bytes(r.length) <= |c|
    ensures Get(b'[e1.position..e1.position + |c|], r.address, r.length) == Get(one, r.address, r.length)
  {
    NextPlace(e1, r);
    TwoPasses(e1, e2, e, r);
    assert r.address + Bytes(r.length) <= |c|;
    hide Follows, Combines, Get, Delta, Next, Modulus, Doable;
    var p, s := e1.position, Next(e1, r);
    GetMoved(b, p, |c|, r.address, r.length);
    GetMoved(b', p, |c|, r.address, r.length);
    AddTwice(Get(c, r.address, r.length), Delta(e1, r), Delta(e2, s), Modulus(r.length));
  }

  // The program.

  /** 32-bit arithmetic. */
  function Long(x: int): int { (x + LONG / 2) % LONG - LONG / 2 }

  lemma LongKeeps(x: int, length: nat)
    ensures Long(x) % Modulus(length) == x % Modulus(length)
  {
    var y := x + LONG / 2;
    var q := y / LONG;
    assert Long(x) == x - q * LONG;
    if length == 0 {
      ModShift(x, -q * 0x100_0000, 0x100);
    } else if length == 1 {
      ModShift(x, -q * 0x1_0000, 0x1_0000);
    } else {
      ModShift(x, -q, LONG);
    }
  }

  /** The signed value of a field. */
  method Fetch(codep: array<Byte>, cp: nat, length: nat) returns (tw: int)
    requires length <= 2 && cp + Bytes(length) <= codep.Length
    ensures Cut(tw, length) == Get(codep[..], cp, length)
  {
    var b0: int := codep[cp];
    if length == 0 {
      tw := if b0 < 0x80 then b0 else b0 - 0x100;
    } else {
      var b1: int := codep[cp + 1];
      if length == 1 {
        tw := b0 + 0x100 * b1;
        tw := if tw < 0x8000 then tw else tw - 0x1_0000;
      } else {
        var b2: int, b3: int := codep[cp + 2], codep[cp + 3];
        tw := b0 + 0x100 * b1 + 0x1_0000 * b2 + 0x100_0000 * b3;
        tw := if tw < LONG / 2 then tw else tw - LONG;
      }
    }
  }

  method Store(codep: array<Byte>, cp: nat, length: nat, tw: int)
    requires length <= 2 && cp + Bytes(length) <= codep.Length
    modifies codep
    ensures Get(codep[..], cp, length) == Cut(tw, length)
    ensures forall x :: 0 <= x < codep.Length && !(cp <= x < cp + Bytes(length)) ==> codep[x] == old(codep[x])
  {
    var q1 := tw / 0x100;
    var q2 := q1 / 0x100;
    var q3 := q2 / 0x100;
    LowBytes(tw, q1, q2, q3);
    codep[cp] := tw % 0x100;
    if length >= 1 {
      codep[cp + 1] := q1 % 0x100;
    }
    if length == 2 {
      codep[cp + 2] := q2 % 0x100;
      codep[cp + 3] := q3 % 0x100;
    }
  }

  lemma LowBytes(v: int, q1: int, q2: int, q3: int)
    requires q1 == v / 0x100 && q2 == q1 / 0x100 && q3 == q2 / 0x100
    ensures v % 0x1_0000 == v % 0x100 + 0x100 * (q1 % 0x100)
    ensures v % LONG == v % 0x100 + 0x100 * (q1 % 0x100) + 0x1_0000 * (q2 % 0x100) + 0x100_0000 * (q3 % 0x100)
  {
    var q4 := q3 / 0x100;
    Unique(v, 0x1_0000, q2, v % 0x100 + 0x100 * (q1 % 0x100));
    Unique(v, LONG, q4, v % 0x100 + 0x100 * (q1 % 0x100) + 0x1_0000 * (q2 % 0x100) + 0x100_0000 * (q3 % 0x100));
  }

  /** A remainder is known by its quotient. */
  lemma Unique(v: int, m: nat, q: int, r: int)
    requires m > 0 && v == r + q * m && 0 <= r < m
    ensures v % m == r
  {
    ModShift(r, q, m);
  }

  predicate Overflows(tw: int, length: nat) {
    (length == 0 && !(-128 <= tw <= 127)) || (length == 1 && !(-32768 <= tw <= 32767))
  }

  /** Relocate one field. */
  method Relocate1(codep: array<Byte>, rp: Reloc, e: Pass) returns (ok: bool, next: Reloc, warn: bool)
    requires rp.address + Bytes(rp.length) <= codep.Length
    modifies codep
    ensures ok <==> Doable(e, rp)
    ensures !ok ==> codep[..] == old(codep[..])
    ensures ok ==> next == Next(e, rp) && codep[..] == PutAdded(old(codep[..]), rp, Delta(e, rp))
  {
    hide Get, Modulus, Cut, Long, NType, Disp, Overflows, SegmentType, Put;
    ok, next, warn := false, rp, false;
    if rp.length > 2 {
      return;
    }
    ghost var v := Get(codep[..], rp.address, rp.length);
    var tw := Fetch(codep, rp.address, rp.length);
    CutGet(codep[..], rp.address, rp.length);
    ghost var d := 0;
    if rp.ext {
      if rp.symbolnum >= |e.names| || e.names[rp.symbolnum] !in e.glob || !SymbolOk(e, e.names[rp.symbolnum]) {
        return;
      }
      match e.glob[e.names[rp.symbolnum]] {
        case Undefined =>
          next := next.(symbolnum := e.outnum[e.names[rp.symbolnum]]);
        case Defined(typ, value) =>
          next := next.(symbolnum := NType(typ), ext := false);
          d := value;
          tw := AddLong(tw, value, v, 0, rp.length);
      }
    } else {
      if !SegmentType(NType(rp.symbolnum)) {
        return;
      }
      d := Disp(e, NType(rp.symbolnum));
      tw := AddLong(tw, Disp(e, NType(rp.symbolnum)), v, 0, rp.length);
    }
    if rp.pcrel {
      tw := AddLong(tw, -e.creloc, v, d, rp.length);
      d := d - e.creloc;
    }
    warn := Overflows(tw, rp.length);
    ghost var c := codep[..];
    Store(codep, rp.address, rp.length, tw);
    PutOnly(c, codep[..], rp, Cut(tw, rp.length));
    next := next.(address := next.address + e.position);
    ok := true;
  }

  lemma CutGet(c: seq<Byte>, a: nat, length: nat)
    requires a + Bytes(length) <= |c|
    ensures Cut(Get(c, a, length), length) == Get(c, a, length)
  {
    hide Get;
  }

  method AddLong(tw: int, x: int, ghost v: int, ghost d: int, ghost length: nat) returns (r: int)
    requires Cut(tw, length) == Cut(v + d, length)
    ensures Cut(r, length) == Cut(v + (d + x), length)
  {
    r := Long(tw + x);
    LongKeeps(tw + x, length);
    ModDrop(tw, x, Modulus(length));
    ModDrop(v + d, x, Modulus(length));
  }

  /** Relocate a segment; not ok if a relocation cannot be done. */
  method Load2td(codep: array<Byte>, relp: array<Reloc>, e: Pass) returns (ok: bool, warn: bool)
    requires forall i :: 0 <= i < relp.Length ==> relp[i].address + Bytes(relp[i].length) <= codep.Length
    modifies codep, relp
    ensures ok <==> forall i :: 0 <= i < relp.Length ==> Doable(e, old(relp[i]))
    ensures ok ==> Fit(e, old(relp[..]), codep.Length) && codep[..] == Applied(e, old(codep[..]), old(relp[..]))
    ensures ok ==> forall i :: 0 <= i < relp.Length ==> relp[i] == Next(e, old(relp[i]))
  {
    ghost var c, rels := codep[..], relp[..];
    ok, warn := true, false;
    hide *;
    var i := 0;
    NoneApplied(e, c);
    NonePassed(e, rels);
    assert rels[..0] == [];
    while i < relp.Length
      invariant 0 <= i <= relp.Length && Passed(e, rels, relp[..], i)
      invariant Fit(e, rels[..i], |c|) && codep[..] == Applied(e, c, rels[..i])
    {
      var rp := relp[i];
      PassedAt(e, rels, relp[..], i);
      ghost var before := relp[..];
      var next, w;
      ok, next, w := Relocate1(codep, rp, e);
      if !ok {
        return;
      }
      OneApplied(e, c, rels, i, codep[..]);
      relp[i] := next;
      assert relp[..] == before[i := next];
      PassedMore(e, rels, before, i);
      warn := warn || w;
      i := i + 1;
    }
    assert rels[..i] == rels;
    AllPassed(e, rels, relp[..]);
  }

  /** The first i relocations are done and turned into those of the result. */
  ghost predicate Passed(e: Pass, rels: seq<Reloc>, now: seq<Reloc>, i: nat) {
    && |now| == |rels| && (forall j :: 0 <= j < i && j < |rels| ==> Doable(e, rels[j]) && now[j] == Next(e, rels[j]))
    && forall j :: i <= j < |rels| ==> now[j] == rels[j]
  }

  lemma PassedAt(e: Pass, rels: seq<Reloc>, now: seq<Reloc>, i: nat)
    requires Passed(e, rels, now, i) && i < |rels|
    ensures |now| == |rels| && now[i] == rels[i]
  {
    hide Doable, Next;
  }

  lemma PassedMore(e: Pass, rels: seq<Reloc>, now: seq<Reloc>, i: nat)
    requires Passed(e, rels, now, i) && i < |rels| == |now| && Doable(e, rels[i])
    ensures Passed(e, rels, now[i := Next(e, rels[i])], i + 1)
  {
    hide Doable, Next;
  }

  lemma NonePassed(e: Pass, rels: seq<Reloc>)
    ensures Passed(e, rels, rels, 0)
  {
  }

  lemma AllPassed(e: Pass, rels: seq<Reloc>, now: seq<Reloc>)
    requires Passed(e, rels, now, |rels|)
    ensures |now| == |rels| && forall j :: 0 <= j < |rels| ==> Doable(e, rels[j]) && now[j] == Next(e, rels[j])
  {
    hide Doable, Next;
  }

  lemma OneApplied(e: Pass, c: seq<Byte>, rels: seq<Reloc>, i: nat, now: seq<Byte>)
    requires i < |rels| && Fit(e, rels[..i], |c|) && rels[i].address + Bytes(rels[i].length) <= |c|
    requires Doable(e, rels[i])
    requires now == PutAdded(Applied(e, c, rels[..i]), rels[i], Delta(e, rels[i]))
    ensures Fit(e, rels[..i + 1], |c|) && now == Applied(e, c, rels[..i + 1])
  {
    hide *;
    FitMore(e, rels, i, |c|);
    AppliedMore(e, c, rels, i);
  }

  lemma NoneApplied(e: Pass, c: seq<Byte>)
    ensures Fit(e, [], |c|) && Applied(e, c, []) == c
  {
  }

  lemma NothingRelocated(e: Pass, c: seq<Byte>, rels: seq<Reloc>)
    requires Layout(rels, |c|)
    ensures Relocated(e, c, c, [])
  {
  }

  /** One more field, the others left as they are. */
  lemma OneMore(e: Pass, c: seq<Byte>, was: seq<Byte>, now: seq<Byte>, rels: seq<Reloc>, i: nat)
    requires i < |rels| && Layout(rels, |c|) && Relocated(e, c, was, rels[..i]) && |now| == |was| && Doable(e, rels[i])
    requires Added(was, now, rels[i], Delta(e, rels[i]))
    requires forall x :: 0 <= x < |was| && !InField(rels[i], x) ==> now[x] == was[x]
    ensures Relocated(e, c, now, rels[..i + 1])
  {
    var some, more := rels[..i], rels[..i + 1];
    assert some == more[..i] && more[i] == rels[i];
    LayoutPart(rels, i + 1, |c|);
    hide Get, Cut, Delta, Doable, Layout, Bytes, InField, Added;
    forall j | 0 <= j < |more|
      ensures Doable(e, more[j]) && Added(c, now, more[j], Delta(e, more[j]))
    {
      if j < i {
        assert more[j] == some[j];
        FieldKept(c, was, now, rels, i, j, Delta(e, rels[j]));
      } else {
        FieldFirst(e, c, was, now, rels, i);
      }
    }
    forall x | 0 <= x < |c| && Loose(more, x)
      ensures now[x] == c[x]
    {
      LoosePart(more, i, x);
    }
  }

  lemma LayoutPart(rels: seq<Reloc>, i: nat, n: nat)
    requires Layout(rels, n) && i <= |rels|
    ensures Layout(rels[..i], n)
  {
    hide Disjoint, Bytes;
  }

  lemma LoosePart(rels: seq<Reloc>, i: nat, x: int)
    requires Loose(rels, x) && i < |rels|
    ensures Loose(rels[..i], x) && !InField(rels[i], x)
  {
    hide InField;
  }

  /** An earlier field is not touched. */
  lemma FieldKept(c: seq<Byte>, was: seq<Byte>, now: seq<Byte>, rels: seq<Reloc>, i: nat, j: nat, d: int)
    requires j < i < |rels| && Layout(rels, |c|) && |c| == |was| == |now| && Added(c, was, rels[j], d)
    requires forall x :: 0 <= x < |was| && !InField(rels[i], x) ==> now[x] == was[x]
    ensures Added(c, now, rels[j], d)
  {
    assert Disjoint(rels[j], rels[i]);
    hide Get, Cut, Bytes, Layout;
    SameBytes(was, now, rels[j]);
  }

  /** The next field still has the bytes it had. */
  lemma FieldFirst(e: Pass, c: seq<Byte>, was: seq<Byte>, now: seq<Byte>, rels: seq<Reloc>, i: nat)
    requires i < |rels| && Layout(rels, |c|) && Relocated(e, c, was, rels[..i]) && |now| == |was| && Doable(e, rels[i])
    requires Added(was, now, rels[i], Delta(e, rels[i]))
    ensures Added(c, now, rels[i], Delta(e, rels[i]))
  {
    hide Get, Cut, Delta, Doable, Bytes;
    forall x | 0 <= x < |c| && InField(rels[i], x)
      ensures was[x] == c[x]
    {
      forall j | 0 <= j < i
        ensures !InField(rels[..i][j], x)
      {
        assert Disjoint(rels[j], rels[i]);
      }
      assert Loose(rels[..i], x);
    }
    SameBytes(c, was, rels[i]);
  }

  lemma SameBytes(c: seq<Byte>, c': seq<Byte>, r: Reloc)
    requires |c| == |c'| && r.address + Bytes(r.length) <= |c|
    requires forall x :: 0 <= x < |c| && InField(r, x) ==> c'[x] == c[x]
    ensures Get(c', r.address, r.length) == Get(c, r.address, r.length)
  {
  }
}
