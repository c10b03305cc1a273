/** ld's layout of segments, and that linking the result of ld -r puts and
    relocates everything as linking its files at once does. */
module Relink {
  import opened Numbers
  import opened Relocate

  const PAGSIZ := 1024
  const LONGSZ := 4

  /** What a file's header says.  Ordinary object files have their data right
      after their text, the others at the next page. */
  datatype Header = Header(omagic: bool, text: nat, data: nat, bss: nat)

  function DataStart(h: Header): (n: nat) { if h.omagic then h.text else Roundup(h.text, PAGSIZ) }

  /** Something for each of the three segments: sizes, addresses or
      displacements. */
  datatype Three = Three(t: int, d: int, b: int)

  function Plus(x: Three, y: Three): Three { Three(x.t + y.t, x.d + y.d, x.b + y.b) }

  /** What a file adds to the segments of the result. */
  function Size(h: Header): Three { Three(h.text, Roundup(h.data, LONGSZ), Roundup(h.bss, LONGSZ)) }

  function Total(hs: seq<Header>): Three {
    if hs == [] then Three(0, 0, 0) else Plus(Total(hs[..|hs| - 1]), Size(hs[|hs| - 1]))
  }

  /** Where the text starts, what the data is aligned to, the hole before it and
      the common storage after it. */
  datatype Options = Options(textbase: int, align: nat, hsize: int, csize: int)

  /** A link that keeps its relocation, as with -r. */
  const KEEP: Options := Options(0, LONGSZ, 0, 0)

  /** Where the three segments of the result start. */
  function Start(hs: seq<Header>, op: Options): Three
    requires op.align > 0
  {
    var sz := Total(hs);
    var d := Roundup(sz.t + op.textbase, op.align) + op.hsize;
    Three(op.textbase, d, d + sz.d + Roundup(op.csize, LONGSZ))
  }

  /** Where those of file i go. */
  function Origin(hs: seq<Header>, i: nat, op: Options): Three
    requires i <= |hs| && op.align > 0
  {
    Plus(Start(hs, op), Total(hs[..i]))
  }

  /** The segments lie one after the other: of each kind those of the files, without
      gaps but those that round them up to whole longs, the text from its base, the data
      at the alignment asked for, and the bss behind the common storage. */
  lemma Layout(hs: seq<Header>, op: Options, i: nat)
    requires i < |hs| && op.align > 0
    ensures Origin(hs, 0, op).t == op.textbase && Origin(hs, i + 1, op).t == Origin(hs, i, op).t + hs[i].text
    ensures GoesOnAt(Origin(hs, i, op).d, hs[i].data, Origin(hs, i + 1, op).d, 4)
    ensures GoesOnAt(Origin(hs, i, op).b, hs[i].bss, Origin(hs, i + 1, op).b, 4)
    ensures GoesOnAt(0, Origin(hs, |hs|, op).t, Origin(hs, 0, op).d - op.hsize, op.align)
    ensures GoesOnAt(Origin(hs, |hs|, op).d, op.csize, Origin(hs, 0, op).b, 4)
  {
    assert hs[..i + 1][..i] == hs[..i] && hs[..|hs|] == hs && hs[..0] == [];
    RoundupLeast(hs[i].data, 4, 0);
    RoundupLeast(hs[i].bss, 4, 0);
    RoundupLeast(Total(hs).t + op.textbase, op.align, 0);
    RoundupLeast(op.csize, 4, 0);
    hide Roundup;
  }

  /** What is size long at one place goes on at the other, a multiple of n further. */
  predicate GoesOnAt(here: int, size: int, there: int, n: nat)
    requires n > 0
  {
    (there - here) % n == 0 && size <= there - here < size + n
  }

  /** By how much segments at o are moved from where the file has them. */
  function Moved(h: Header, o: Three): Three {
    Three(o.t, o.d - DataStart(h), o.b - DataStart(h) - h.data)
  }

  /** The header ld -r writes. */
  function Output(hs: seq<Header>): Header {
    TotalNat(hs);
    Header(true, Roundup(Total(hs).t, LONGSZ), Total(hs).d, Total(hs).b)
  }

  lemma {:induction false} TotalNat(hs: seq<Header>)
    ensures Total(hs).t >= 0 && Total(hs).d >= 0 && Total(hs).b >= 0
    ensures Total(hs).d % LONGSZ == 0 && Total(hs).b % LONGSZ == 0
  {
    if hs != [] {
      var h := hs[|hs| - 1];
      TotalNat(hs[..|hs| - 1]);
      SizeWords(h);
      hide Roundup, Size;
    }
  }

  lemma SizeWords(h: Header)
    ensures Size(h).t >= 0 && Size(h).d >= 0 && Size(h).b >= 0
    ensures Size(h).d % LONGSZ == 0 && Size(h).b % LONGSZ == 0
  {
    RoundedUp(h.data, LONGSZ);
    RoundedUp(h.bss, LONGSZ);
  }

  lemma TotalNone()
    ensures Total([]) == Three(0, 0, 0)
  {
  }

  lemma TotalLast(hs: seq<Header>, h: Header)
    ensures Total(hs + [h]) == Plus(Total(hs), Size(h))
  {
    hide Plus, Size;
    assert (hs + [h])[..|hs|] == hs;
  }

  lemma TotalOne(h: Header)
    ensures Total([h]) == Size(h)
  {
    hide Size;
    assert [h] == [] + [h];
    TotalLast([], h);
    TotalNone();
  }

  lemma {:induction false} TotalConcat(hs: seq<Header>, ks: seq<Header>)
    ensures Total(hs + ks) == Plus(Total(hs), Total(ks))
  {
    hide Total, Size;
    if ks == [] {
      TotalNone();
      assert hs + ks == hs;
    } else {
      var init, last := ks[..|ks| - 1], ks[|ks| - 1];
      TotalConcat(hs, init);
      assert hs + ks == hs + init + [last];
      TotalLast(hs + init, last);
      assert ks == init + [last];
      TotalLast(init, last);
    }
  }

  /** The two moves of a file's segments, into the output of ld -r and from there to
      o, are one move to their places relative to o. */
  lemma MovedTwice(hs: seq<Header>, i: nat, o: Three)
    requires i < |hs|
    ensures Plus(Moved(hs[i], Origin(hs, i, KEEP)), Moved(Output(hs), o)) == Moved(hs[i], Plus(o, Total(hs[..i])))
  {
    TotalNat(hs);
    hide Total, Roundup;
    Aligned(0);
  }

  // The files a + f + b linked at once, and with the output of ld -r for those of f.

  function Whole(a: seq<Header>, f: seq<Header>, b: seq<Header>): seq<Header> { a + f + b }

  function Relinked(a: seq<Header>, f: seq<Header>, b: seq<Header>): seq<Header> { a + [Output(f)] + b }

  /** The padding that rounds up the text of the output can shift the data, and the
      text of later files. */
  predicate NoShift(a: seq<Header>, f: seq<Header>, b: seq<Header>, op: Options)
    requires op.align > 0
  {
    var t, all := Total(f).t, Total(a + f + b).t + op.textbase;
    && Roundup(all, op.align) == Roundup(all + (Roundup(t, LONGSZ) - t), op.align)
    && (b != [] ==> Roundup(t, LONGSZ) == t)
  }

  /** Everything is put where it would be. */
  ghost predicate SamePlaces(a: seq<Header>, f: seq<Header>, b: seq<Header>, op: Options)
    requires op.align > 0
  {
    && (forall k :: 0 <= k < |a| ==> SameFirst(a, f, b, op, k))
    && (forall i :: 0 <= i < |f| ==> SameMiddle(a, f, b, op, i))
    && forall k :: 0 <= k < |b| ==> SameLast(a, f, b, op, k)
  }

  ghost predicate SameFirst(a: seq<Header>, f: seq<Header>, b: seq<Header>, op: Options, k: nat)
    requires op.align > 0 && k < |a|
  {
    Origin(Relinked(a, f, b), k, op) == Origin(Whole(a, f, b), k, op)
  }

  ghost predicate SameMiddle(a: seq<Header>, f: seq<Header>, b: seq<Header>, op: Options, i: nat)
    requires op.align > 0 && i < |f|
  {
    Plus(Origin(Relinked(a, f, b), |a|, op), Total(f[..i])) == Origin(Whole(a, f, b), |a| + i, op)
  }

  ghost predicate SameLast(a: seq<Header>, f: seq<Header>, b: seq<Header>, op: Options, k: nat)
    requires op.align > 0 && k < |b|
  {
    Origin(Relinked(a, f, b), |a| + 1 + k, op) == Origin(Whole(a, f, b), |a| + |f| + k, op)
  }

  function Padding(f: seq<Header>): int { Roundup(Total(f).t, LONGSZ) - Total(f).t }

  lemma Totals(a: seq<Header>, f: seq<Header>, b: seq<Header>)
    ensures Total(Whole(a, f, b)) == Whole3(a, f, b)
    ensures Total(Relinked(a, f, b)) == Plus(Whole3(a, f, b), Three(Padding(f), 0, 0))
  {
    hide Total, Roundup, Padding;
    var g := Output(f);
    TotalConcat(a + f, b);
    TotalConcat(a, f);
    TotalConcat(a + [g], b);
    TotalConcat(a, [g]);
    OutputSize(f);
    TotalOne(g);
  }

  lemma OutputSize(f: seq<Header>)
    ensures Size(Output(f)) == Plus(Total(f), Three(Padding(f), 0, 0))
  {
    hide Total;
    TotalNat(f);
    Aligned(Total(f).d);
    Aligned(Total(f).b);
  }

  function Whole3(a: seq<Header>, f: seq<Header>, b: seq<Header>): Three { Plus(Plus(Total(a), Total(f)), Total(b)) }

  lemma Aligned(x: int)
    requires x % LONGSZ == 0
    ensures Roundup(x, LONGSZ) == x
  {
  }

  /** What comes before a file. */
  lemma BeforeFirst(a: seq<Header>, f: seq<Header>, b: seq<Header>, k: nat)
    requires k <= |a|
    ensures k <= |Whole(a, f, b)| && Total(Whole(a, f, b)[..k]) == Total(a[..k])
    ensures k <= |Relinked(a, f, b)| && Total(Relinked(a, f, b)[..k]) == Total(a[..k])
  {
    hide Total, Output;
    assert Whole(a, f, b)[..k] == a[..k] && Relinked(a, f, b)[..k] == a[..k];
  }

  lemma BeforeMiddle(a: seq<Header>, f: seq<Header>, b: seq<Header>, i: nat)
    requires i <= |f|
    ensures |a| + i <= |Whole(a, f, b)| && Total(Whole(a, f, b)[..|a| + i]) == Plus(Total(a), Total(f[..i]))
  {
    hide Total, Plus;
    assert Whole(a, f, b)[..|a| + i] == a + f[..i];
    TotalConcat(a, f[..i]);
  }

  lemma BeforeLast(a: seq<Header>, f: seq<Header>, b: seq<Header>, k: nat)
    requires k <= |b|
    ensures |a| + |f| + k <= |Whole(a, f, b)| && |a| + 1 + k <= |Relinked(a, f, b)|
    ensures Total(Whole(a, f, b)[..|a| + |f| + k]) == Whole3(a, f, b[..k])
    ensures Total(Relinked(a, f, b)[..|a| + 1 + k]) == Plus(Whole3(a, f, b[..k]), Three(Padding(f), 0, 0))
  {
    hide Total, Whole3, Plus, Output;
    assert Whole(a, f, b)[..|a| + |f| + k] == Whole(a, f, b[..k]);
    assert Relinked(a, f, b)[..|a| + 1 + k] == Relinked(a, f, b[..k]);
    Totals(a, f, b[..k]);
  }

  predicate SameStart(a: seq<Header>, f: seq<Header>, b: seq<Header>, op: Options)
    requires op.align > 0
  {
    Start(Relinked(a, f, b), op) == Start(Whole(a, f, b), op)
  }

  lemma StartPlace(a: seq<Header>, f: seq<Header>, b: seq<Header>, op: Options)
    requires op.align > 0
    ensures NoShift(a, f, b, op) <==> SameStart(a, f, b, op) && (b != [] ==> Padding(f) == 0)
  {
    Totals(a, f, b);
    hide Total, Roundup, Relinked;
  }

  lemma FirstPlace(a: seq<Header>, f: seq<Header>, b: seq<Header>, op: Options, k: nat)
    requires op.align > 0 && k < |a|
    ensures SameFirst(a, f, b, op, k) <==> SameStart(a, f, b, op)
  {
    BeforeFirst(a, f, b, k);
    hide Total, Start, Whole, Relinked, Plus;
    PlusCancel(Start(Relinked(a, f, b), op), Start(Whole(a, f, b), op), Total(a[..k]), Total([]));
  }

  lemma MiddlePlace(a: seq<Header>, f: seq<Header>, b: seq<Header>, op: Options, i: nat)
    requires op.align > 0 && i < |f|
    ensures SameMiddle(a, f, b, op, i) <==> SameStart(a, f, b, op)
  {
    BeforeFirst(a, f, b, |a|);
    BeforeMiddle(a, f, b, i);
    assert a[..|a|] == a;
    hide Total, Start, Whole, Relinked, Plus;
    PlusCancel(Start(Relinked(a, f, b), op), Start(Whole(a, f, b), op), Total(a), Total(f[..i]));
  }

  lemma PlusCancel(x: Three, y: Three, z: Three, w: Three)
    ensures Plus(Plus(x, z), w) == Plus(y, Plus(z, w)) <==> x == y
    ensures Plus(x, z) == Plus(y, z) <==> x == y
  {
  }

  lemma LastPlace(a: seq<Header>, f: seq<Header>, b: seq<Header>, op: Options, k: nat)
    requires op.align > 0 && k < |b|
    ensures SameLast(a, f, b, op, k) <==> SameStart(a, f, b, op) && Padding(f) == 0
  {
    BeforeLast(a, f, b, k);
    assert Start(Relinked(a, f, b), op).t == Start(Whole(a, f, b), op).t;
    hide Total, Start, Whole, Relinked, Whole3, Padding, Plus;
    PlusPadding(Start(Relinked(a, f, b), op), Start(Whole(a, f, b), op), Whole3(a, f, b[..k]), Padding(f));
  }

  lemma PlusPadding(x: Three, y: Three, z: Three, p: int)
    requires x.t == y.t
    ensures Plus(x, Plus(z, Three(p, 0, 0))) == Plus(y, z) <==> x == y && p == 0
  {
  }

  /** Everything is put where it would be exactly when the padding shifts nothing;
      whole words of text are enough. */
  lemma SameExactly(a: seq<Header>, f: seq<Header>, b: seq<Header>, op: Options)
    requires op.align > 0 && f != []
    ensures SamePlaces(a, f, b, op) <==> NoShift(a, f, b, op)
    ensures Total(f).t % LONGSZ == 0 ==> NoShift(a, f, b, op)
  {
    WholeWords(a, f, b, op);
    hide Total, NoShift, SamePlaces, SameStart, Padding;
    StartPlace(a, f, b, op);
    if SamePlaces(a, f, b, op) {
      PlacesTell(a, f, b, op);
    } else if NoShift(a, f, b, op) {
      PlacesFollow(a, f, b, op);
    }
  }

  lemma WholeWords(a: seq<Header>, f: seq<Header>, b: seq<Header>, op: Options)
    requires op.align > 0
    ensures Total(f).t % LONGSZ == 0 ==> NoShift(a, f, b, op)
  {
    if Total(f).t % LONGSZ == 0 {
      Aligned(Total(f).t);
    }
    hide Total, Roundup;
  }

  lemma PlacesTell(a: seq<Header>, f: seq<Header>, b: seq<Header>, op: Options)
    requires op.align > 0 && f != [] && SamePlaces(a, f, b, op)
    ensures SameStart(a, f, b, op) && (b != [] ==> Padding(f) == 0)
  {
    hide SameMiddle, SameLast, SameFirst, SameStart, Padding;
    MiddlePlace(a, f, b, op, 0);
    if b != [] {
      LastPlace(a, f, b, op, 0);
    }
  }

  lemma PlacesFollow(a: seq<Header>, f: seq<Header>, b: seq<Header>, op: Options)
    requires op.align > 0 && SameStart(a, f, b, op) && (b != [] ==> Padding(f) == 0)
    ensures SamePlaces(a, f, b, op)
  {
    hide SameMiddle, SameLast, SameFirst, SameStart, Padding;
    forall k | 0 <= k < |a|
      ensures SameFirst(a, f, b, op, k)
    {
      FirstPlace(a, f, b, op, k);
    }
    forall i | 0 <= i < |f|
      ensures SameMiddle(a, f, b, op, i)
    {
      MiddlePlace(a, f, b, op, i);
    }
    forall k | 0 <= k < |b|
      ensures SameLast(a, f, b, op, k)
    {
      LastPlace(a, f, b, op, k);
    }
  }

  // Symbols.

  /** The type of a symbol without the bit that no type of a definition has. */
  type Kind = n: nat | n % 32 < 16 witness 5

  datatype Def = Def(typ: Kind, value: int)

  /** An object file: its header and the global names it defines. */
  datatype File = File(h: Header, defs: map<Name, Def>)

  function Headers(fs: seq<File>): (hs: seq<Header>)
    ensures |hs| == |fs| && forall i :: 0 <= i < |fs| ==> hs[i] == fs[i].h
  {
    seq(|fs|, i requires 0 <= i < |fs| => fs[i].h)
  }

  /** A definition that is not of one of the segments counts as absolute. */
  function Settled(typ: Kind): Kind { if N_TEXT <= typ % 16 <= N_BSS + 1 then typ else 1 + N_ABS }

  /** How far a symbol of a type moves with its segment. */
  function Shift(m: Three, typ: nat): int {
    if NType(typ) == N_TEXT then m.t else if NType(typ) == N_DATA then m.d else if NType(typ) == N_BSS then m.b else 0
  }

  lemma ShiftSum(x: Three, y: Three, typ: nat)
    ensures Shift(Plus(x, y), typ) == Shift(x, typ) + Shift(y, typ)
  {
    hide NType;
  }

  /** A definition, with its file's segments at o. */
  function Placed(f: File, o: Three, n: Name): (s: Symbol)
    requires n in f.defs
    ensures s.Defined? && s.typ % 32 < 16 && Settled(s.typ) == s.typ
  {
    var d := f.defs[n];
    Defined(Settled(d.typ), d.value + Shift(Moved(f.h, o), Settled(d.typ)))
  }

  /** What a name comes to in a link: the first definition from file j on. */
  function Global(fs: seq<File>, op: Options, n: Name, j: nat): (s: Symbol)
    requires op.align > 0 && j <= |fs|
    ensures s.Defined? ==> s.typ % 32 < 16 && Settled(s.typ) == s.typ
    decreases |fs| - j
  {
    if j == |fs| then Undefined
    else if n in fs[j].defs then Placed(fs[j], Origin(Headers(fs), j, op), n)
    else Global(fs, op, n, j + 1)
  }

  /** A name is what the first file that defines it says; its value moves with the
      segment of its type, and a definition of no segment is absolute. */
  lemma FirstDefinition(fs: seq<File>, op: Options, n: Name, j: nat, i: nat)
    requires op.align > 0 && i <= j < |fs| && n in fs[j].defs && forall k :: i <= k < j ==> n !in fs[k].defs
    ensures IsPlaced(fs[j].defs[n], fs[j].h, Origin(Headers(fs), j, op), Global(fs, op, n, i))
    decreases j - i
  {
    hide Origin, IsPlaced, Placed, Headers;
    if i < j {
      FirstDefinition(fs, op, n, j, i + 1);
    } else {
      PlacedAs(fs[j], Origin(Headers(fs), j, op), n);
    }
  }

  /** A definition moves with the text, the data or the bss of its file to where those
      are, or has type 3. */
  ghost predicate IsPlaced(d: Def, h: Header, o: Three, s: Symbol) {
    && s.Defined?
    && (d.typ % 16 == 4 || d.typ % 16 == 5 ==> s == Defined(d.typ, d.value + o.t))
    && (d.typ % 16 == 6 || d.typ % 16 == 7 ==> s == Defined(d.typ, d.value - DataStart(h) + o.d))
    && (d.typ % 16 == 8 || d.typ % 16 == 9 ==> s == Defined(d.typ, d.value - (DataStart(h) + h.data) + o.b))
    && (d.typ % 16 < 4 || d.typ % 16 > 9 ==> s == Defined(3, d.value))
  }

  lemma PlacedAs(f: File, o: Three, n: Name)
    requires n in f.defs
    ensures IsPlaced(f.defs[n], f.h, o, Placed(f, o, n))
  {
    var d := f.defs[n];
    TypeOf(d.typ);
    SettledIs(d.typ);
    hide DataStart, NType, Settled;
  }

  lemma SettledIs(typ: Kind)
    ensures Settled(typ) == if 4 <= typ % 16 <= 9 then typ else 3
    ensures NType(3) == 2
  {
  }

  /** The segment of a type. */
  lemma TypeOf(typ: Kind)
    ensures typ % 16 == 4 || typ % 16 == 5 ==> NType(typ) == 4
    ensures typ % 16 == 6 || typ % 16 == 7 ==> NType(typ) == 6
    ensures typ % 16 == 8 || typ % 16 == 9 ==> NType(typ) == 8
  {
    var q, r := typ / 32, typ % 32;
    Half(typ, q, r);
    LowBits(typ / 2, q, r / 2);
    LowBits(typ, 2 * q, r);
  }

  lemma Half(x: nat, q: nat, r: nat)
    requires x == 32 * q + r
    ensures x / 2 == 16 * q + r / 2
  {
  }

  lemma LowBits(x: nat, q: nat, r: nat)
    requires x == 16 * q + r && r < 16
    ensures x % 16 == r
  {
  }

  function Known(fs: seq<File>): set<Name> {
    set i, n | 0 <= i < |fs| && n in fs[i].defs.Keys :: n
  }

  /** The file ld -r writes: its symbols have their values in that file. */
  function Keep(fs: seq<File>): File {
    File(Output(Headers(fs)),
         map n | n in Known(fs) && Global(fs, KEEP, n, 0).Defined? ::
           Def(Global(fs, KEEP, n, 0).typ, Global(fs, KEEP, n, 0).value))
  }

  /** No name is defined twice. */
  ghost predicate Single(fs: seq<File>) {
    forall j, k :: 0 <= j < k < |fs| ==> fs[j].defs.Keys !! fs[k].defs.Keys
  }

  lemma {:induction false} GlobalIs(fs: seq<File>, op: Options, n: Name, i: nat, j: nat)
    requires op.align > 0 && j <= i < |fs| && n in fs[i].defs && Single(fs)
    ensures Global(fs, op, n, j) == Placed(fs[i], Origin(Headers(fs), i, op), n)
    decreases i - j
  {
    hide Placed, Origin, Headers;
    if j < i {
      assert fs[j].defs.Keys !! fs[i].defs.Keys;
      GlobalIs(fs, op, n, i, j + 1);
    }
  }

  lemma {:induction false} GlobalNone(fs: seq<File>, op: Options, n: Name, j: nat)
    requires op.align > 0 && j <= |fs| && forall i :: j <= i < |fs| ==> n !in fs[i].defs
    ensures Global(fs, op, n, j) == Undefined
    decreases |fs| - j
  {
    hide Placed, Origin, Headers;
    if j < |fs| {
      GlobalNone(fs, op, n, j + 1);
    }
  }

  /** The files, and the same with the output of ld -r for f. */
  function AllFiles(a: seq<File>, f: seq<File>, b: seq<File>): seq<File> { a + f + b }

  function KeptFiles(a: seq<File>, f: seq<File>, b: seq<File>): seq<File> { a + [Keep(f)] + b }

  lemma AllHeaders(a: seq<File>, f: seq<File>, b: seq<File>)
    ensures Headers(AllFiles(a, f, b)) == Whole(Headers(a), Headers(f), Headers(b))
    ensures Headers(KeptFiles(a, f, b)) == Relinked(Headers(a), Headers(f), Headers(b))
  {
    assert Keep(f).h == Output(Headers(f));
    hide Keep, Output;
  }

  /** A symbol is the same in both links; one that f defines moves with its segment
      in the second. */
  ghost predicate MovesOn(a: seq<File>, f: seq<File>, b: seq<File>, op: Options, n: Name)
    requires op.align > 0
  {
    && Global(KeptFiles(a, f, b), op, n, 0) == Global(AllFiles(a, f, b), op, n, 0)
    && match Global(f, KEEP, n, 0)
       case Undefined => true
       case Defined(typ, v) => Global(AllFiles(a, f, b), op, n, 0) == MovedWith(a, f, b, op, typ, v)
  }

  /** A definition in the output of ld -r, with its segment moved by the second link. */
  function MovedWith(a: seq<File>, f: seq<File>, b: seq<File>, op: Options, typ: nat, v: int): Symbol
    requires op.align > 0
  {
    Counts(a, f, b);
    Defined(typ, v + Shift(Moved(Output(Headers(f)), Origin(Headers(KeptFiles(a, f, b)), |a|, op)), typ))
  }

  lemma SymbolsMove(a: seq<File>, f: seq<File>, b: seq<File>, op: Options, n: Name)
    requires op.align > 0 && Single(AllFiles(a, f, b)) && SamePlaces(Headers(a), Headers(f), Headers(b), op)
    ensures MovesOn(a, f, b, op, n)
  {
    if i: nat :| i < |f| && n in f[i].defs {
      MiddleMoves(a, f, b, op, n, i);
    } else {
      GlobalNone(f, KEEP, n, 0);
      OthersStay(a, f, b, op, n);
    }
  }

  lemma MiddleMoves(a: seq<File>, f: seq<File>, b: seq<File>, op: Options, n: Name, i: nat)
    requires op.align > 0 && Single(AllFiles(a, f, b)) && SamePlaces(Headers(a), Headers(f), Headers(b), op)
    requires i < |f| && n in f[i].defs
    ensures MovesOn(a, f, b, op, n)
  {
    assert KEEP.align > 0;
    hide *;
    MiddlePlaced(a, f, b, op, n, i);
    SingleMiddle(a, f, b);
    GlobalIs(f, KEEP, n, i, 0);
    MiddleValue(f, i, Origin(Headers(KeptFiles(a, f, b)), |a|, op), n);
    KnownHas(f, i, n);
    KeptValue(a, f, b, op, n);
    MovesDefined(a, f, b, op, n);
  }

  lemma KnownHas(f: seq<File>, i: nat, n: Name)
    requires i < |f| && n in f[i].defs
    ensures n in Known(f)
  {
    assert n in f[i].defs.Keys;
  }

  lemma KeptSingle(a: seq<File>, f: seq<File>, b: seq<File>)
    requires Single(AllFiles(a, f, b))
    ensures Single(KeptFiles(a, f, b))
  {
    var kept := KeptFiles(a, f, b);
    hide Keep;
    forall j, k | 0 <= j < k < |kept|
      ensures kept[j].defs.Keys !! kept[k].defs.Keys
    {
      forall n | n in kept[j].defs.Keys
        ensures n !in kept[k].defs.Keys
      {
        if n in kept[k].defs.Keys {
          var x := DefinedIn(a, f, b, j, n);
          var y := DefinedIn(a, f, b, k, n);
        }
      }
    }
  }

  lemma DefinedIn(a: seq<File>, f: seq<File>, b: seq<File>, j: nat, n: Name) returns (x: nat)
    requires j < |KeptFiles(a, f, b)| && n in KeptFiles(a, f, b)[j].defs.Keys
    ensures x < |AllFiles(a, f, b)| && n in AllFiles(a, f, b)[x].defs.Keys
    ensures if j < |a| then x == j else if j == |a| then |a| <= x < |a| + |f| else x == j - 1 + |f|
  {
    if j == |a| {
      assert n in Known(f);
      var i, m :| 0 <= i < |f| && m in f[i].defs.Keys && m == n;
      x := |a| + i;
    } else {
      x := if j < |a| then j else j - 1 + |f|;
    }
  }

  /** What a name of f comes to in the second link. */
  lemma KeptValue(a: seq<File>, f: seq<File>, b: seq<File>, op: Options, n: Name)
    requires op.align > 0 && Single(AllFiles(a, f, b)) && n in Known(f) && Global(f, KEEP, n, 0).Defined?
    ensures Global(KeptFiles(a, f, b), op, n, 0) ==
      MovedWith(a, f, b, op, Global(f, KEEP, n, 0).typ, Global(f, KEEP, n, 0).value)
  {
    assert n in Keep(f).defs && Keep(f).h == Output(Headers(f));
    var s := Global(f, KEEP, n, 0);
    assert Keep(f).defs[n] == Def(s.typ, s.value);
    Counts(a, f, b);
    assert KeptFiles(a, f, b)[|a|] == Keep(f);
    KeptSingle(a, f, b);
    GlobalIs(KeptFiles(a, f, b), op, n, |a|, 0);
    hide Global, Moved, Output, Headers, Origin, Shift, Keep, KeptFiles, AllFiles;
  }

  lemma MiddlePlaced(a: seq<File>, f: seq<File>, b: seq<File>, op: Options, n: Name, i: nat)
    requires op.align > 0 && Single(AllFiles(a, f, b)) && SamePlaces(Headers(a), Headers(f), Headers(b), op)
    requires i < |f| && n in f[i].defs
    ensures |a| < |KeptFiles(a, f, b)|
    ensures Global(AllFiles(a, f, b), op, n, 0) ==
      Placed(f[i], Plus(Origin(Headers(KeptFiles(a, f, b)), |a|, op), Total(Headers(f)[..i])), n)
  {
    hide *;
    MiddleFile(a, f, b, op, i);
    GlobalIs(AllFiles(a, f, b), op, n, |a| + i, 0);
  }

  lemma MovesDefined(a: seq<File>, f: seq<File>, b: seq<File>, op: Options, n: Name)
    requires op.align > 0 && Global(f, KEEP, n, 0).Defined? && |a| < |KeptFiles(a, f, b)|
    requires var s := Global(f, KEEP, n, 0);
      && Global(KeptFiles(a, f, b), op, n, 0) == MovedWith(a, f, b, op, s.typ, s.value)
      && Global(AllFiles(a, f, b), op, n, 0) ==
           Defined(s.typ, s.value +
                          Shift(Moved(Output(Headers(f)), Origin(Headers(KeptFiles(a, f, b)), |a|, op)), s.typ))
    ensures MovesOn(a, f, b, op, n)
  {
    hide Global, Moved, Output, Headers, Origin, Shift;
  }

  /** A file of f in the link of all. */
  lemma MiddleFile(a: seq<File>, f: seq<File>, b: seq<File>, op: Options, i: nat)
    requires op.align > 0 && SamePlaces(Headers(a), Headers(f), Headers(b), op) && i < |f|
    ensures |a| + i < |AllFiles(a, f, b)| && AllFiles(a, f, b)[|a| + i] == f[i]
    ensures |a| < |KeptFiles(a, f, b)| && KeptFiles(a, f, b)[|a|] == Keep(f)
    ensures Origin(Headers(AllFiles(a, f, b)), |a| + i, op) ==
      Plus(Origin(Headers(KeptFiles(a, f, b)), |a|, op), Total(Headers(f)[..i]))
  {
    AllHeaders(a, f, b);
    assert SameMiddle(Headers(a), Headers(f), Headers(b), op, i);
    hide Headers, Origin, Keep, Total, Plus, Whole, Relinked;
  }

  lemma MiddleValue(f: seq<File>, i: nat, o: Three, n: Name)
    requires i < |f| && n in f[i].defs
    ensures var s := Placed(f[i], Origin(Headers(f), i, KEEP), n);
      Placed(f[i], Plus(o, Total(Headers(f)[..i])), n) ==
      Defined(s.typ, s.value + Shift(Moved(Output(Headers(f)), o), s.typ))
  {
    var hs := Headers(f);
    MovedTwice(hs, i, o);
    hide Headers, Moved, Output, Total, Origin, Plus, Shift;
    ShiftSum(Moved(f[i].h, Origin(hs, i, KEEP)), Moved(Output(hs), o), Settled(f[i].defs[n].typ));
  }

  lemma SingleMiddle(a: seq<File>, f: seq<File>, b: seq<File>)
    requires Single(AllFiles(a, f, b))
    ensures Single(f)
  {
    var fs := AllFiles(a, f, b);
    forall j, k | 0 <= j < k < |f|
      ensures f[j].defs.Keys !! f[k].defs.Keys
    {
      assert f[j] == fs[|a| + j] && f[k] == fs[|a| + k];
    }
  }

  /** Names that f does not define. */
  lemma OthersStay(a: seq<File>, f: seq<File>, b: seq<File>, op: Options, n: Name)
    requires op.align > 0 && SamePlaces(Headers(a), Headers(f), Headers(b), op)
    requires forall i :: 0 <= i < |f| ==> n !in f[i].defs
    ensures Global(KeptFiles(a, f, b), op, n, 0) == Global(AllFiles(a, f, b), op, n, 0)
  {
    GlobalNone(f, KEEP, n, 0);
    assert n !in Keep(f).defs;
    hide *;
    Counts(a, f, b);
    LastStay(a, f, b, op, n, 0);
    SkipFile(a, f, b, op, n);
    SkipFiles(a, f, b, op, n, 0);
    FirstStay(a, f, b, op, n, 0);
  }

  lemma GlobalStep(fs: seq<File>, op: Options, n: Name, j: nat)
    requires op.align > 0 && j < |fs|
    ensures Global(fs, op, n, j) ==
      if n in fs[j].defs then Placed(fs[j], Origin(Headers(fs), j, op), n) else Global(fs, op, n, j + 1)
  {
    hide Placed, Origin, Headers;
  }

  lemma GlobalEnd(fs: seq<File>, op: Options, n: Name)
    requires op.align > 0
    ensures Global(fs, op, n, |fs|) == Undefined
  {
  }

  /** A file of b in both links. */
  lemma LastFile(a: seq<File>, f: seq<File>, b: seq<File>, op: Options, k: nat)
    requires op.align > 0 && SamePlaces(Headers(a), Headers(f), Headers(b), op) && k < |b|
    ensures |a| + |f| + k < |AllFiles(a, f, b)| && AllFiles(a, f, b)[|a| + |f| + k] == b[k]
    ensures |a| + 1 + k < |KeptFiles(a, f, b)| && KeptFiles(a, f, b)[|a| + 1 + k] == b[k]
    ensures Origin(Headers(KeptFiles(a, f, b)), |a| + 1 + k, op) ==
      Origin(Headers(AllFiles(a, f, b)), |a| + |f| + k, op)
  {
    AllHeaders(a, f, b);
    assert SameLast(Headers(a), Headers(f), Headers(b), op, k);
    hide Headers, Origin, Keep, Whole, Relinked;
  }

  lemma Counts(a: seq<File>, f: seq<File>, b: seq<File>)
    ensures |AllFiles(a, f, b)| == |a| + |f| + |b| && |KeptFiles(a, f, b)| == |a| + 1 + |b|
  {
    hide Keep;
  }

  lemma {:induction false} LastStay(a: seq<File>, f: seq<File>, b: seq<File>, op: Options, n: Name, k: nat)
    requires op.align > 0 && SamePlaces(Headers(a), Headers(f), Headers(b), op) && k <= |b|
    ensures |a| + 1 + k <= |KeptFiles(a, f, b)| && |a| + |f| + k <= |AllFiles(a, f, b)|
    ensures Global(KeptFiles(a, f, b), op, n, |a| + 1 + k) == Global(AllFiles(a, f, b), op, n, |a| + |f| + k)
    decreases |b| - k
  {
    hide *;
    Counts(a, f, b);
    if k < |b| {
      LastStay(a, f, b, op, n, k + 1);
      LastFile(a, f, b, op, k);
      GlobalStep(KeptFiles(a, f, b), op, n, |a| + 1 + k);
      GlobalStep(AllFiles(a, f, b), op, n, |a| + |f| + k);
    } else {
      GlobalEnd(KeptFiles(a, f, b), op, n);
      GlobalEnd(AllFiles(a, f, b), op, n);
    }
  }

  lemma SkipFile(a: seq<File>, f: seq<File>, b: seq<File>, op: Options, n: Name)
    requires op.align > 0 && n !in Keep(f).defs
    ensures |KeptFiles(a, f, b)| >= |a| + 1
    ensures Global(KeptFiles(a, f, b), op, n, |a|) == Global(KeptFiles(a, f, b), op, n, |a| + 1)
  {
    Counts(a, f, b);
    assert KeptFiles(a, f, b)[|a|] == Keep(f);
    hide *;
    GlobalStep(KeptFiles(a, f, b), op, n, |a|);
  }

  lemma {:induction false} SkipFiles(a: seq<File>, f: seq<File>, b: seq<File>, op: Options, n: Name, i: nat)
    requires op.align > 0 && i <= |f| && forall j :: 0 <= j < |f| ==> n !in f[j].defs
    ensures |AllFiles(a, f, b)| >= |a| + |f|
    ensures Global(AllFiles(a, f, b), op, n, |a| + i) == Global(AllFiles(a, f, b), op, n, |a| + |f|)
    decreases |f| - i
  {
    Counts(a, f, b);
    if i < |f| {
      assert AllFiles(a, f, b)[|a| + i] == f[i];
      hide *;
      SkipFiles(a, f, b, op, n, i + 1);
      GlobalStep(AllFiles(a, f, b), op, n, |a| + i);
    }
  }

  /** A file of a in both links. */
  lemma FirstFile(a: seq<File>, f: seq<File>, b: seq<File>, op: Options, k: nat)
    requires op.align > 0 && SamePlaces(Headers(a), Headers(f), Headers(b), op) && k < |a|
    ensures k < |AllFiles(a, f, b)| && AllFiles(a, f, b)[k] == a[k]
    ensures k < |KeptFiles(a, f, b)| && KeptFiles(a, f, b)[k] == a[k]
    ensures Origin(Headers(KeptFiles(a, f, b)), k, op) == Origin(Headers(AllFiles(a, f, b)), k, op)
  {
    AllHeaders(a, f, b);
    assert SameFirst(Headers(a), Headers(f), Headers(b), op, k);
    hide Headers, Origin, Keep, Whole, Relinked;
  }

  lemma {:induction false} FirstStay(a: seq<File>, f: seq<File>, b: seq<File>, op: Options, n: Name, k: nat)
    requires op.align > 0 && SamePlaces(Headers(a), Headers(f), Headers(b), op) && k <= |a|
    requires |a| <= |KeptFiles(a, f, b)| && |a| <= |AllFiles(a, f, b)|
    requires Global(KeptFiles(a, f, b), op, n, |a|) == Global(AllFiles(a, f, b), op, n, |a|)
    ensures Global(KeptFiles(a, f, b), op, n, k) == Global(AllFiles(a, f, b), op, n, k)
    decreases |a| - k
  {
    hide *;
    if k < |a| {
      FirstStay(a, f, b, op, n, k + 1);
      FirstFile(a, f, b, op, k);
      GlobalStep(KeptFiles(a, f, b), op, n, k);
      GlobalStep(AllFiles(a, f, b), op, n, k);
    }
  }

  // The passes of ld over one segment of a file.

  /** What pass 2 knows when it relocates the text or data of file i: names are the
      file's symbols by number, known all global names, and outnum their numbers in
      the result. */
  function SegmentPass(isData: bool, fs: seq<File>, i: nat, op: Options, names: seq<Name>, known: set<Name>,
                       outnum: map<Name, nat>): Pass
    requires op.align > 0 && i < |fs|
  {
    var hs := Headers(fs);
    var m, before := Moved(hs[i], Origin(hs, i, op)), Total(hs[..i]);
    TotalNat(hs[..i]);
    Pass(m.t, m.d, m.b, if isData then m.d else m.t, if isData then before.d else before.t,
         names, map n | n in known :: Global(fs, op, n, 0), outnum)
  }

  lemma DispIs(e: Pass, m: Three, typ: nat)
    requires e.ctrel == m.t && e.cdrel == m.d && e.cbrel == m.b
    ensures Disp(e, NType(typ)) == Shift(m, typ)
  {
    hide NType;
  }

  /** Relocating a file of f for ld -r, and then as part of its output, combines to
      relocating it once in the link of all files. */
  lemma PassesCombine(isData: bool, a: seq<File>, f: seq<File>, b: seq<File>, op: Options, i: nat,
                      names: seq<Name>, names2: seq<Name>, known: set<Name>,
                      outnum: map<Name, nat>, outnum2: map<Name, nat>)
    requires op.align > 0 && Single(AllFiles(a, f, b)) && SamePlaces(Headers(a), Headers(f), Headers(b), op) && i < |f|
    ensures |a| < |KeptFiles(a, f, b)| && |a| + i < |AllFiles(a, f, b)|
    ensures Combines(SegmentPass(isData, f, i, KEEP, names, known, outnum),
                     SegmentPass(isData, KeptFiles(a, f, b), |a|, op, names2, known, outnum2),
                     SegmentPass(isData, AllFiles(a, f, b), |a| + i, op, names, known, outnum2))
  {
    assert KEEP.align > 0 && Keep(f).h == Output(Headers(f));
    hide *;
    Counts(a, f, b);
    MiddleFile(a, f, b, op, i);
    var e1 := SegmentPass(isData, f, i, KEEP, names, known, outnum);
    var e2 := SegmentPass(isData, KeptFiles(a, f, b), |a|, op, names2, known, outnum2);
    var e := SegmentPass(isData, AllFiles(a, f, b), |a| + i, op, names, known, outnum2);
    PlacesCombine(isData, a, f, b, op, i, names, names2, known, outnum, outnum2);
    forall n | n in e1.glob
      ensures CombinesAt(e1, e2, e, n)
    {
      SymbolsMove(a, f, b, op, n);
      SymbolCombines(isData, a, f, b, op, i, names, names2, known, outnum, outnum2, n);
    }
    CombinesIs(e1, e2, e);
  }

  lemma CombinesIs(e1: Pass, e2: Pass, e: Pass)
    requires e.ctrel == e1.ctrel + e2.ctrel && e.cdrel == e1.cdrel + e2.cdrel && e.cbrel == e1.cbrel + e2.cbrel
    requires e.creloc == e1.creloc + e2.creloc && e.position == e1.position + e2.position
    requires e.names == e1.names && e.outnum == e2.outnum
    requires forall n :: n in e1.glob ==> CombinesAt(e1, e2, e, n)
    ensures Combines(e1, e2, e)
  {
    hide CombinesAt;
  }

  lemma PlacesCombine(isData: bool, a: seq<File>, f: seq<File>, b: seq<File>, op: Options, i: nat,
                      names: seq<Name>, names2: seq<Name>, known: set<Name>,
                      outnum: map<Name, nat>, outnum2: map<Name, nat>)
    requires op.align > 0 && SamePlaces(Headers(a), Headers(f), Headers(b), op) && i < |f|
    requires |a| < |KeptFiles(a, f, b)| && |a| + i < |AllFiles(a, f, b)|
    ensures var e1 := SegmentPass(isData, f, i, KEEP, names, known, outnum);
      var e2 := SegmentPass(isData, KeptFiles(a, f, b), |a|, op, names2, known, outnum2);
      var e := SegmentPass(isData, AllFiles(a, f, b), |a| + i, op, names, known, outnum2);
      && e.ctrel == e1.ctrel + e2.ctrel && e.cdrel == e1.cdrel + e2.cdrel && e.cbrel == e1.cbrel + e2.cbrel
      && e.creloc == e1.creloc + e2.creloc && e.position == e1.position + e2.position
      && e.names == e1.names && e.outnum == e2.outnum && e1.glob.Keys == e.glob.Keys == e2.glob.Keys == known
  {
    assert KEEP.align > 0 && Keep(f).h == Output(Headers(f));
    SegmentIs(isData, f, i, KEEP, names, known, outnum);
    SegmentIs(isData, KeptFiles(a, f, b), |a|, op, names2, known, outnum2);
    SegmentIs(isData, AllFiles(a, f, b), |a| + i, op, names, known, outnum2);
    hide *;
    MiddleFile(a, f, b, op, i);
    MovesCombine(a, f, b, op, i);
    Positions(a, f, b, i);
    SumsFollow(isData, SegmentPass(isData, f, i, KEEP, names, known, outnum),
      SegmentPass(isData, KeptFiles(a, f, b), |a|, op, names2, known, outnum2),
               SegmentPass(isData, AllFiles(a, f, b), |a| + i, op, names, known, outnum2),
               Moved(f[i].h, Origin(Headers(f), i, KEEP)), Total(Headers(f)[..i]),
               Moved(Output(Headers(f)), Origin(Headers(KeptFiles(a, f, b)), |a|, op)),
               Total(Headers(KeptFiles(a, f, b))[..|a|]));
  }

  lemma SegmentIs(isData: bool, fs: seq<File>, i: nat, op: Options, names: seq<Name>, known: set<Name>,
                  outnum: map<Name, nat>)
    requires op.align > 0 && i < |fs|
    ensures var e := SegmentPass(isData, fs, i, op, names, known, outnum);
      LaidOut(isData, e, Moved(fs[i].h, Origin(Headers(fs), i, op)), Total(Headers(fs)[..i])) &&
      e.names == names && e.outnum == outnum && e.glob.Keys == known
  {
    hide Origin, Moved, Total, Global;
  }

  /** The pass moves segments by m, those of the files before having sizes before. */
  predicate LaidOut(isData: bool, e: Pass, m: Three, before: Three) {
    && e.ctrel == m.t && e.cdrel == m.d && e.cbrel == m.b
    && (e.creloc == if isData then m.d else m.t) && e.position == if isData then before.d else before.t
  }

  lemma SumsFollow(isData: bool, e1: Pass, e2: Pass, e: Pass, m1: Three, before1: Three, m2: Three, before2: Three)
    requires LaidOut(isData, e1, m1, before1) && LaidOut(isData, e2, m2, before2)
    requires LaidOut(isData, e, Plus(m1, m2), Plus(before2, before1))
    ensures e.ctrel == e1.ctrel + e2.ctrel && e.cdrel == e1.cdrel + e2.cdrel && e.cbrel == e1.cbrel + e2.cbrel
    ensures e.creloc == e1.creloc + e2.creloc && e.position == e1.position + e2.position
  {
  }

  lemma MovesCombine(a: seq<File>, f: seq<File>, b: seq<File>, op: Options, i: nat)
    requires op.align > 0 && SamePlaces(Headers(a), Headers(f), Headers(b), op) && i < |f|
    requires |a| < |KeptFiles(a, f, b)| && |a| + i < |AllFiles(a, f, b)|
    ensures Moved(f[i].h, Origin(Headers(AllFiles(a, f, b)), |a| + i, op)) ==
      Plus(Moved(f[i].h, Origin(Headers(f), i, KEEP)),
        Moved(Output(Headers(f)), Origin(Headers(KeptFiles(a, f, b)), |a|, op)))
  {
    assert KEEP.align > 0;
    hide *;
    MiddleFile(a, f, b, op, i);
    MovedTwice(Headers(f), i, Origin(Headers(KeptFiles(a, f, b)), |a|, op));
  }

  lemma Positions(a: seq<File>, f: seq<File>, b: seq<File>, i: nat)
    requires i < |f| && |a| < |KeptFiles(a, f, b)| && |a| + i < |AllFiles(a, f, b)|
    ensures Total(Headers(AllFiles(a, f, b))[..|a| + i]) ==
      Plus(Total(Headers(KeptFiles(a, f, b))[..|a|]), Total(Headers(f)[..i]))
  {
    hide *;
    AllHeaders(a, f, b);
    BeforeFirst(Headers(a), Headers(f), Headers(b), |a|);
    BeforeMiddle(Headers(a), Headers(f), Headers(b), i);
    assert Headers(a)[..|a|] == Headers(a);
  }

  lemma SymbolCombines(isData: bool, a: seq<File>, f: seq<File>, b: seq<File>, op: Options, i: nat,
                       names: seq<Name>, names2: seq<Name>, known: set<Name>,
                       outnum: map<Name, nat>, outnum2: map<Name, nat>, n: Name)
    requires op.align > 0 && i < |f| && MovesOn(a, f, b, op, n)
    requires |a| < |KeptFiles(a, f, b)| && |a| + i < |AllFiles(a, f, b)|
    requires KeptFiles(a, f, b)[|a|].h == Output(Headers(f)) && n in known
    ensures var e1 := SegmentPass(isData, f, i, KEEP, names, known, outnum);
      n in e1.glob && CombinesAt(e1, SegmentPass(isData, KeptFiles(a, f, b), |a|, op, names2, known, outnum2),
                                 SegmentPass(isData, AllFiles(a, f, b), |a| + i, op, names, known, outnum2), n)
  {
    hide Origin, Moved, Output, Total, Global, Keep, KeptFiles, AllFiles, NType, Shift;
    var e2 := SegmentPass(isData, KeptFiles(a, f, b), |a|, op, names2, known, outnum2);
    var s := Global(f, KEEP, n, 0);
    if s.Defined? {
      DispIs(e2, Moved(Output(Headers(f)), Origin(Headers(KeptFiles(a, f, b)), |a|, op)), s.typ);
    }
  }

  // What ld -r writes: the relocated segments end to end.

  function Join<T>(ps: seq<seq<T>>): seq<T> {
    if ps == [] then [] else Join(ps[..|ps| - 1]) + ps[|ps| - 1]
  }

  lemma JoinLast<T>(ps: seq<seq<T>>, i: nat)
    requires i < |ps|
    ensures Join(ps[..i + 1]) == Join(ps[..i]) + ps[i]
  {
    assert ps[..i + 1][..i] == ps[..i];
  }

  /** Piece i lies after those before it. */
  lemma {:induction false} JoinAt<T>(ps: seq<seq<T>>, i: nat, n: nat, x: nat)
    requires i < n <= |ps| && x < |ps[i]|
    ensures |Join(ps[..i])| + x < |Join(ps[..n])| && Join(ps[..n])[|Join(ps[..i])| + x] == ps[i][x]
    decreases n
  {
    JoinLast(ps, n - 1);
    if i < n - 1 {
      JoinAt(ps, i, n - 1, x);
    }
    hide Join;
  }

  lemma {:induction false} JoinMonotone<T>(ps: seq<seq<T>>, i: nat, n: nat)
    requires i <= n <= |ps|
    ensures |Join(ps[..i])| <= |Join(ps[..n])|
    decreases n
  {
    if i < n {
      JoinLast(ps, n - 1);
      JoinMonotone(ps, i, n - 1);
    }
    hide Join;
  }

  /** Every element is in one of the pieces. */
  lemma {:induction false} JoinWhere<T>(ps: seq<seq<T>>, n: nat, j: nat) returns (k: nat, x: nat)
    requires n <= |ps| && j < |Join(ps[..n])|
    ensures k < n && x < |ps[k]| && j == |Join(ps[..k])| + x && Join(ps[..n])[j] == ps[k][x]
    decreases n
  {
    assert ps[..0] == [];
    assert n > 0;
    JoinLast(ps, n - 1);
    hide Join;
    if j < |Join(ps[..n - 1])| {
      k, x := JoinWhere(ps, n - 1, j);
    } else {
      k, x := n - 1, j - |Join(ps[..n - 1])|;
    }
  }

  /** A segment and its relocation. */
  datatype Segment = Segment(code: seq<Byte>, rels: seq<Reloc>)

  /** Data is filled up to a whole word, text is not. */
  function Filled(isData: bool, code: seq<Byte>): seq<Byte> {
    code + if isData then Zeros(Roundup(|code|, LONGSZ) - |code|) else []
  }

  function Zeros(n: nat): seq<Byte> { seq(n, i => 0) }

  function Codes(isData: bool, outs: seq<Segment>): (ps: seq<seq<Byte>>)
    ensures |ps| == |outs| && forall k :: 0 <= k < |outs| ==> ps[k] == Filled(isData, outs[k].code)
  {
    seq(|outs|, k requires 0 <= k < |outs| => Filled(isData, outs[k].code))
  }

  function Rels(outs: seq<Segment>): (ps: seq<seq<Reloc>>)
    ensures |ps| == |outs| && forall k :: 0 <= k < |outs| ==> ps[k] == outs[k].rels
  {
    seq(|outs|, k requires 0 <= k < |outs| => outs[k].rels)
  }

  /** out is seg relocated by the pass. */
  ghost predicate Done(e: Pass, seg: Segment, out: Segment) {
    && Relocated(e, seg.code, out.code, seg.rels) && |out.rels| == |seg.rels|
    && forall j :: 0 <= j < |seg.rels| ==> Doable(e, seg.rels[j]) && out.rels[j] == Next(e, seg.rels[j])
  }

  /** Segment k of the files f goes where its pass puts it. */
  ghost predicate InPlace(isData: bool, e: Pass, outs: seq<Segment>, k: nat)
    requires k <= |outs|
  {
    e.position == |Join(Codes(isData, outs)[..k])|
  }

  /** The segments of all files, each relocated by its pass. */
  ghost predicate AllDone(isData: bool, es: seq<Pass>, segs: seq<Segment>, outs: seq<Segment>) {
    && |es| == |segs| == |outs|
    && forall k :: 0 <= k < |outs| ==> Done(es[k], segs[k], outs[k]) && InPlace(isData, es[k], outs, k)
  }

  /** They make up the segment g that is written. */
  ghost predicate Written(isData: bool, outs: seq<Segment>, g: Segment) {
    Join(Codes(isData, outs)) <= g.code && g.rels == Join(Rels(outs))
  }

  lemma DoneAt(isData: bool, es: seq<Pass>, segs: seq<Segment>, outs: seq<Segment>, k: nat)
    requires AllDone(isData, es, segs, outs) && k < |outs|
    ensures |es| == |segs| == |outs| && Done(es[k], segs[k], outs[k]) && InPlace(isData, es[k], outs, k)
  {
    hide Done, InPlace;
  }

  /** In the segment ld -r writes, that of each file is inside as its pass put it. */
  lemma InsideOutput(isData: bool, es: seq<Pass>, segs: seq<Segment>, outs: seq<Segment>, g: Segment, i: nat)
    requires AllDone(isData, es, segs, outs) && Written(isData, outs, g) && i < |outs|
    ensures |es| == |segs| == |outs|
    ensures Relocate.Inside(es[i], outs[i].code, segs[i].rels, g.code, g.rels, |Join(Rels(outs)[..i])|)
  {
    hide *;
    DoneAt(isData, es, segs, outs, i);
    CodeInside(isData, es[i], outs, g, i);
    RelsInside(isData, outs, g, i);
    forall j, x | 0 <= j < |g.rels| && !(|Join(Rels(outs)[..i])| <= j < |Join(Rels(outs)[..i])| + |outs[i].rels|) &&
                  es[i].position <= x < es[i].position + |outs[i].code|
      ensures !InField(g.rels[j], x)
    {
      OtherField(isData, es, segs, outs, g, i, j, x);
    }
    InsideIs(es[i], segs[i], outs[i], g, |Join(Rels(outs)[..i])|);
  }

  lemma InsideIs(e: Pass, seg: Segment, out: Segment, g: Segment, first: nat)
    requires Done(e, seg, out)
    requires e.position + |out.code| <= |g.code| && g.code[e.position..e.position + |out.code|] == out.code
    requires first + |out.rels| <= |g.rels| && forall j :: 0 <= j < |out.rels| ==> g.rels[first + j] == out.rels[j]
    requires forall j, x | 0 <= j < |g.rels| && !(first <= j < first + |out.rels|) ::
      e.position <= x < e.position + |out.code| ==> !InField(g.rels[j], x)
    ensures Relocate.Inside(e, out.code, seg.rels, g.code, g.rels, first)
  {
    hide Relocated, Next, Doable, InField;
  }

  lemma CodeInside(isData: bool, e: Pass, outs: seq<Segment>, g: Segment, i: nat)
    requires i < |outs| && InPlace(isData, e, outs, i) && Written(isData, outs, g)
    ensures e.position + |outs[i].code| <= |g.code| && g.code[e.position..e.position + |outs[i].code|] == outs[i].code
  {
    hide *;
    CodesWritten(isData, outs, g);
    PlaceIs(isData, e, outs, i);
    var ps, c1 := Codes(isData, outs), outs[i].code;
    JoinMonotone(ps, i + 1, |ps|);
    FilledCode(isData, c1);
    forall x | 0 <= x < |c1|
      ensures g.code[e.position + x] == c1[x]
    {
      JoinAt(ps, i, |ps|, x);
    }
  }

  lemma CodesWritten(isData: bool, outs: seq<Segment>, g: Segment)
    requires Written(isData, outs, g)
    ensures var all := Join(Codes(isData, outs)[..|Codes(isData, outs)|]);
      |all| <= |g.code| && forall x :: 0 <= x < |all| ==> g.code[x] == all[x]
  {
    var ps := Codes(isData, outs);
    assert ps[..|ps|] == ps;
    hide Join, Codes, Rels;
  }

  lemma FilledCode(isData: bool, code: seq<Byte>)
    ensures |code| <= |Filled(isData, code)| && forall x :: 0 <= x < |code| ==> Filled(isData, code)[x] == code[x]
  {
    hide Roundup;
  }

  lemma RelsInside(isData: bool, outs: seq<Segment>, g: Segment, i: nat)
    requires i < |outs| && Written(isData, outs, g)
    ensures var first := |Join(Rels(outs)[..i])|;
      first + |outs[i].rels| <= |g.rels| && forall j :: 0 <= j < |outs[i].rels| ==> g.rels[first + j] == outs[i].rels[j]
  {
    var ps := Rels(outs);
    assert ps[..|ps|] == ps;
    hide Join, Rels;
    JoinLast(ps, i);
    JoinMonotone(ps, i + 1, |ps|);
    forall j | 0 <= j < |outs[i].rels|
      ensures g.rels[|Join(ps[..i])| + j] == outs[i].rels[j]
    {
      JoinAt(ps, i, |ps|, j);
    }
  }

  /** The relocation of another file's segment is of a field in that segment. */
  lemma OtherField(isData: bool, es: seq<Pass>, segs: seq<Segment>, outs: seq<Segment>, g: Segment, i: nat, j: nat,
                   x: int)
    requires AllDone(isData, es, segs, outs) && Written(isData, outs, g) && i < |outs| && j < |g.rels|
    requires var first := |Join(Rels(outs)[..i])|; !(first <= j < first + |outs[i].rels|)
    requires |es| == |outs| && es[i].position <= x < es[i].position + |outs[i].code|
    ensures !InField(g.rels[j], x)
  {
    var ps, cs := Rels(outs), Codes(isData, outs);
    assert ps[..|ps|] == ps && g.rels == Join(ps);
    hide *;
    var k, m := JoinWhere(ps, |ps|, j);
    DoneAt(isData, es, segs, outs, i);
    DoneAt(isData, es, segs, outs, k);
    FieldInside(es[k], segs[k], outs[k], m);
    PlaceIs(isData, es[k], outs, k);
    PlaceIs(isData, es[i], outs, i);
    if k < i {
      JoinMonotone(cs, k + 1, i);
    } else if k > i {
      JoinMonotone(cs, i + 1, k);
    }
    FieldOf(g.rels[j], x);
  }

  lemma FieldOf(r: Reloc, x: int)
    ensures InField(r, x) <==> r.address <= x < r.address + Bytes(r.length)
  {
  }

  lemma PlaceIs(isData: bool, e: Pass, outs: seq<Segment>, k: nat)
    requires k < |outs| && InPlace(isData, e, outs, k)
    ensures e.position == |Join(Codes(isData, outs)[..k])|
    ensures e.position + |outs[k].code| <= |Join(Codes(isData, outs)[..k + 1])|
  {
    JoinLast(Codes(isData, outs), k);
    hide Join;
  }

  lemma FieldInside(e: Pass, seg: Segment, out: Segment, m: nat)
    requires Done(e, seg, out) && m < |out.rels|
    ensures e.position <= out.rels[m].address
    ensures out.rels[m].address + Bytes(out.rels[m].length) <= e.position + |out.code|
  {
    assert Doable(e, seg.rels[m]) && out.rels[m] == Next(e, seg.rels[m]);
    NextPlace(e, seg.rels[m]);
    hide Next, Doable;
  }

  // Both together.

  /** What is needed to number symbols: those of each file of f, those of its output,
      the global names, and their numbers in the output and in the final result. */
  datatype Numbering = Numbering(names: seq<seq<Name>>, names2: seq<Name>, known: set<Name>, outnum: map<Name, nat>,
    outnum2: map<Name, nat>)

  ghost predicate Numbered(u: Numbering, f: seq<File>) {
    |u.names| == |f| && forall n :: n in u.outnum ==> u.outnum[n] < |u.names2| && u.names2[u.outnum[n]] == n
  }

  function KeepPass(isData: bool, f: seq<File>, u: Numbering, k: nat): Pass
    requires k < |f| == |u.names|
  {
    SegmentPass(isData, f, k, KEEP, u.names[k], u.known, u.outnum)
  }

  /** ld -r over the segments of f. */
  ghost predicate FirstRun(isData: bool, f: seq<File>, u: Numbering, segs: seq<Segment>, outs: seq<Segment>,
                           g: Segment) {
    && |f| == |u.names| == |segs| == |outs| && Written(isData, outs, g)
    && forall k :: 0 <= k < |f| ==> FirstRunAt(isData, f, u, segs, outs, k)
  }

  ghost predicate FirstRunAt(isData: bool, f: seq<File>, u: Numbering, segs: seq<Segment>, outs: seq<Segment>, k: nat)
    requires k < |f| == |u.names| == |segs| == |outs|
  {
    && Done(KeepPass(isData, f, u, k), segs[k], outs[k])
    && |segs[k].code| == if isData then f[k].h.data else f[k].h.text
  }

  function Side(isData: bool, x: Three): int { if isData then x.d else x.t }

  lemma {:induction false} JoinLength(isData: bool, f: seq<File>, u: Numbering, segs: seq<Segment>,
                                      outs: seq<Segment>, g: Segment, k: nat)
    requires FirstRun(isData, f, u, segs, outs, g) && k <= |f|
    ensures |Join(Codes(isData, outs)[..k])| == Side(isData, Total(Headers(f)[..k]))
    decreases k
  {
    hide *;
    RunLengths(isData, f, u, segs, outs, g);
    var hs, cs := Headers(f), Codes(isData, outs);
    if k == 0 {
      assert hs[..0] == [] && cs[..0] == [];
      NoneJoined(isData);
    } else {
      FilledLength(isData, f, u, segs, outs, g, k - 1);
      JoinLength(isData, f, u, segs, outs, g, k - 1);
      JoinLast(cs, k - 1);
      assert hs[..k] == hs[..k - 1] + [hs[k - 1]];
      TotalLast(hs[..k - 1], hs[k - 1]);
      SideSum(isData, Total(hs[..k - 1]), Size(hs[k - 1]));
    }
  }

  lemma NoneJoined(isData: bool)
    ensures |Join<Byte>([])| == Side(isData, Total([]))
  {
    TotalNone();
  }

  lemma SideSum(isData: bool, x: Three, y: Three)
    ensures Side(isData, Plus(x, y)) == Side(isData, x) + Side(isData, y)
  {
  }

  lemma FilledLength(isData: bool, f: seq<File>, u: Numbering, segs: seq<Segment>, outs: seq<Segment>, g: Segment,
                     k: nat)
    requires FirstRun(isData, f, u, segs, outs, g) && k < |f|
    ensures k < |outs| && |Filled(isData, outs[k].code)| == Side(isData, Size(f[k].h))
  {
    assert FirstRunAt(isData, f, u, segs, outs, k);
    hide FirstRun, Done, KeepPass, Roundup;
    DoneLength(KeepPass(isData, f, u, k), segs[k], outs[k]);
  }

  lemma DoneLength(e: Pass, seg: Segment, out: Segment)
    requires Done(e, seg, out)
    ensures |out.code| == |seg.code|
  {
  }

  lemma FirstRunDone(isData: bool, f: seq<File>, u: Numbering, segs: seq<Segment>, outs: seq<Segment>, g: Segment)
    returns (es: seq<Pass>)
    requires FirstRun(isData, f, u, segs, outs, g)
    ensures |es| == |f| && AllDone(isData, es, segs, outs)
    ensures forall k :: 0 <= k < |f| ==> es[k] == KeepPass(isData, f, u, k)
  {
    hide Done, KeepPass, Written;
    es := seq(|f|, k requires 0 <= k < |f| => KeepPass(isData, f, u, k));
    forall k | 0 <= k < |f|
      ensures Done(es[k], segs[k], outs[k]) && InPlace(isData, es[k], outs, k)
    {
      assert FirstRunAt(isData, f, u, segs, outs, k);
      JoinLength(isData, f, u, segs, outs, g, k);
      KeepPosition(isData, f, u, k);
    }
  }

  lemma KeepPosition(isData: bool, f: seq<File>, u: Numbering, k: nat)
    requires k < |f| == |u.names|
    ensures KeepPass(isData, f, u, k).position == Side(isData, Total(Headers(f)[..k]))
  {
    hide Total, Headers, Global, Origin, Moved;
  }

  /** The files a, f and b are linked after ld -r joined those of f into one.  A
      segment of f then has the same bytes as when all files are linked at once:
      outs and g are what ld -r makes of the segments segs of f, now is what the
      second link makes of g, and one is what a single link makes of segment i. */
  lemma LinkTwice(isData: bool, a: seq<File>, f: seq<File>, b: seq<File>, op: Options, u: Numbering,
                  segs: seq<Segment>, outs: seq<Segment>, g: Segment, now: seq<Byte>, i: nat, one: seq<Byte>)
    requires op.align > 0 && Single(AllFiles(a, f, b)) && NoShift(Headers(a), Headers(f), Headers(b), op)
    requires Numbered(u, f) && FirstRun(isData, f, u, segs, outs, g) && i < |f|
    requires |a| < |KeptFiles(a, f, b)| && |a| + i < |AllFiles(a, f, b)|
    requires Relocated(SegmentPass(isData, KeptFiles(a, f, b), |a|, op, u.names2, u.known, u.outnum2),
                       g.code, now, g.rels)
    requires Relocated(SegmentPass(isData, AllFiles(a, f, b), |a| + i, op, u.names[i], u.known, u.outnum2),
                       segs[i].code, one, segs[i].rels)
    ensures var p := |Join(Codes(isData, outs)[..i])|;
      |one| == |segs[i].code| && p + |one| <= |now| && forall x :: 0 <= x < |one| ==> one[x] == now[p + x]
  {
    hide *;
    RunLengths(isData, f, u, segs, outs, g);
    var e1 := KeepPass(isData, f, u, i);
    var e2 := SegmentPass(isData, KeptFiles(a, f, b), |a|, op, u.names2, u.known, u.outnum2);
    var e := SegmentPass(isData, AllFiles(a, f, b), |a| + i, op, u.names[i], u.known, u.outnum2);
    SegmentIs(isData, KeptFiles(a, f, b), |a|, op, u.names2, u.known, u.outnum2);
    NumberedFollows(isData, u, f, i, e2);
    var first := |Join(Rels(outs)[..i])|;
    SameExactly(Headers(a), Headers(f), Headers(b), op);
    PassesCombine(isData, a, f, b, op, i, u.names[i], u.names2, u.known, u.outnum, u.outnum2);
    KeepIs(isData, f, u, i);
    var es := FirstRunDone(isData, f, u, segs, outs, g);
    DoneAt(isData, es, segs, outs, i);
    PlaceIs(isData, e1, outs, i);
    InsideOutput(isData, es, segs, outs, g, i);
    DoneRelocated(e1, segs[i], outs[i]);
    TwoRunsIs(e1, e2, e, segs[i].code, outs[i].code, segs[i].rels, g.code, now, g.rels, first, one);
    Composes(e1, e2, e, segs[i].code, outs[i].code, segs[i].rels, g.code, now, g.rels, first, one);
  }

  /** The file of all that a file of the second link is. */
  function Elsewhere(a: seq<File>, f: seq<File>, j: nat): nat {
    if j <= |a| then j else j - 1 + |f|
  }

  /** A file that is not one of f is relocated in both links by the same pass, */
  lemma OtherPass(isData: bool, a: seq<File>, f: seq<File>, b: seq<File>, op: Options, j: nat, names: seq<Name>,
                  known: set<Name>, outnum: map<Name, nat>)
    requires op.align > 0 && Single(AllFiles(a, f, b)) && NoShift(Headers(a), Headers(f), Headers(b), op)
    requires j < |KeptFiles(a, f, b)| && j != |a|
    ensures Elsewhere(a, f, j) < |AllFiles(a, f, b)|
    ensures SegmentPass(isData, KeptFiles(a, f, b), j, op, names, known, outnum) ==
      SegmentPass(isData, AllFiles(a, f, b), Elsewhere(a, f, j), op, names, known, outnum)
  {
    OtherFile(a, f, b, op, j);
    forall n
      ensures Global(KeptFiles(a, f, b), op, n, 0) == Global(AllFiles(a, f, b), op, n, 0)
    {
      SymbolsMove(a, f, b, op, n);
      hide Global, KeptFiles, AllFiles, MovedWith, Keep, Headers;
    }
    hide Global, Total, Moved, Origin, KeptFiles, AllFiles, Headers, Elsewhere;
  }

  lemma OtherFile(a: seq<File>, f: seq<File>, b: seq<File>, op: Options, j: nat)
    requires op.align > 0 && NoShift(Headers(a), Headers(f), Headers(b), op) && j < |KeptFiles(a, f, b)| && j != |a|
    ensures SamePlaces(Headers(a), Headers(f), Headers(b), op)
    ensures var e := Elsewhere(a, f, j);
      && e < |AllFiles(a, f, b)| && KeptFiles(a, f, b)[j] == AllFiles(a, f, b)[e]
      && Origin(Headers(KeptFiles(a, f, b)), j, op) == Origin(Headers(AllFiles(a, f, b)), e, op)
      && Total(Headers(KeptFiles(a, f, b))[..j]) == Total(Headers(AllFiles(a, f, b))[..e])
  {
    hide NoShift, SamePlaces, SameStart, Padding, Origin, Total, Keep, Headers;
    StartPlace(Headers(a), Headers(f), Headers(b), op);
    PlacesFollow(Headers(a), Headers(f), Headers(b), op);
    Counts(a, f, b);
    AllHeaders(a, f, b);
    hide KeptFiles, AllFiles;
    if j < |a| {
      FirstFile(a, f, b, op, j);
      BeforeFirst(Headers(a), Headers(f), Headers(b), j);
    } else {
      LastFile(a, f, b, op, j - |a| - 1);
      BeforeLast(Headers(a), Headers(f), Headers(b), j - |a| - 1);
    }
  }

  /** and so has the same bytes. */
  lemma LinkOther(isData: bool, a: seq<File>, f: seq<File>, b: seq<File>, op: Options, j: nat, names: seq<Name>,
                  known: set<Name>, outnum: map<Name, nat>, seg: Segment, now: seq<Byte>, one: seq<Byte>)
    requires op.align > 0 && Single(AllFiles(a, f, b)) && NoShift(Headers(a), Headers(f), Headers(b), op)
    requires j < |KeptFiles(a, f, b)| && j != |a| && Elsewhere(a, f, j) < |AllFiles(a, f, b)|
    requires Relocated(SegmentPass(isData, KeptFiles(a, f, b), j, op, names, known, outnum), seg.code, now, seg.rels)
    requires Relocated(SegmentPass(isData, AllFiles(a, f, b), Elsewhere(a, f, j), op, names, known, outnum),
                       seg.code, one, seg.rels)
    ensures now == one
  {
    hide *;
    OtherPass(isData, a, f, b, op, j, names, known, outnum);
    RelocatedOnce(SegmentPass(isData, KeptFiles(a, f, b), j, op, names, known, outnum), seg.code, now, one, seg.rels);
  }

  lemma KeepIs(isData: bool, f: seq<File>, u: Numbering, k: nat)
    requires k < |f| == |u.names|
    ensures KeepPass(isData, f, u, k) == SegmentPass(isData, f, k, KEEP, u.names[k], u.known, u.outnum)
  {
    hide SegmentPass;
  }

  lemma DoneRelocated(e: Pass, seg: Segment, out: Segment)
    requires Done(e, seg, out)
    ensures Relocated(e, seg.code, out.code, seg.rels)
  {
    hide Relocated, Next, Doable;
  }

  lemma RunLengths(isData: bool, f: seq<File>, u: Numbering, segs: seq<Segment>, outs: seq<Segment>, g: Segment)
    requires FirstRun(isData, f, u, segs, outs, g)
    ensures |f| == |u.names| == |segs| == |outs| && Written(isData, outs, g)
  {
    hide FirstRunAt, Written;
  }

  lemma NumberedFollows(isData: bool, u: Numbering, f: seq<File>, i: nat, e2: Pass)
    requires Numbered(u, f) && i < |f| && e2.names == u.names2
    ensures |u.names| == |f| && Follows(KeepPass(isData, f, u, i), e2)
  {
    hide Global, Origin, Moved, Total, Headers;
  }

  lemma TwoRunsIs(e1: Pass, e2: Pass, e: Pass, c: seq<Byte>, c1: seq<Byte>, rels: seq<Reloc>, b: seq<Byte>,
                  b': seq<Byte>, brels: seq<Reloc>, first: nat, one: seq<Byte>)
    requires Follows(e1, e2) && Combines(e1, e2, e)
    requires Relocated(e1, c, c1, rels) && Relocate.Inside(e1, c1, rels, b, brels, first) && Relocated(e2, b, b', brels)
    requires Relocated(e, c, one, rels)
    ensures TwoRuns(e1, e2, e, c, c1, rels, b, b', brels, first, one)
  {
    hide Follows, Combines, Relocated, Relocate.Inside;
  }

  predicate LeftAlone(typ: Kind) { typ % 16 == 1 || (typ % 16 % 2 == 0 && !(N_TEXT <= typ % 16 <= N_BSS + 1)) }

  lemma KindType(typ: Kind)
    ensures NType(typ) == typ % 16 - typ % 16 % 2
  {
    KindBits(typ, typ / 32, typ % 32);
  }

  lemma KindBits(typ: nat, q: nat, r: nat)
    requires typ == 32 * q + r && r < 16
    ensures NType(typ) == r - r % 2 && typ % 16 == r
  {
    var h := r / 2;
    assert r == 2 * h + r % 2 && typ == 2 * (16 * q + h) + r % 2;
    assert typ / 2 == 16 * q + h;
    Unique(typ / 2, 16, q, h);
    Unique(typ, 16, 2 * q, r);
  }

  // The program: sizes in pass 1, origins and displacements in pass 2.

  class Linker {
    var ctrel: int
    var cdrel: int
    var cbrel: int
    var tsize: int
    var dsize: int
    var bsize: int
    var torigin: int
    var dorigin: int
    var borigin: int

    constructor ()
      ensures Sizes() == Three(0, 0, 0)
    {
      ctrel, cdrel, cbrel, tsize, dsize, bsize, torigin, dorigin, borigin := 0, 0, 0, 0, 0, 0, 0, 0, 0;
    }

    function Sizes(): Three reads this { Three(tsize, dsize, bsize) }

    function Origins(): Three reads this { Three(torigin, dorigin, borigin) }

    function Displaced(): Three reads this { Three(ctrel, cdrel, cbrel) }

    /** The segments as the file has them, against address 0. */
    method ReadHdr(h: Header)
      modifies `cdrel, `cbrel
      ensures cdrel == Moved(h, Three(0, 0, 0)).d && cbrel == Moved(h, Three(0, 0, 0)).b
    {
      if !h.omagic {
        cdrel := -Roundup(h.text, PAGSIZ);
        cbrel := cdrel - h.data;
      } else {
        cdrel := 0 - h.text;
        cbrel := cdrel - h.data;
      }
    }

    /** Pass 1 over a file that is loaded: its symbols are displaced by what came
        before it. */
    method Load1(h: Header)
      modifies `ctrel, `cdrel, `cbrel, `tsize, `dsize, `bsize
      ensures Displaced() == Moved(h, old(Sizes())) && Sizes() == Plus(old(Sizes()), Size(h))
    {
      ReadHdr(h);
      ctrel := tsize;
      cdrel := cdrel + dsize;
      cbrel := cbrel + bsize;
      tsize := tsize + h.text;
      dsize := dsize + Roundup(h.data, LONGSZ);
      bsize := bsize + Roundup(h.bss, LONGSZ);
    }

    /** Between the passes: where the segments of the result start. */
    method Middle(op: Options, ghost hs: seq<Header>)
      requires op.align > 0 && Sizes() == Total(hs)
      modifies `torigin, `dorigin, `borigin, `bsize
      ensures Origins() == Start(hs, op)
    {
      var database := Roundup(tsize + op.textbase, op.align);
      database := database + op.hsize;
      var csize := Roundup(op.csize, LONGSZ);
      torigin := op.textbase;
      dorigin := database;
      var corigin := dorigin + dsize;
      borigin := corigin + csize;
      bsize := bsize + csize;
    }

    /** Pass 2 over a file: the displacements its segments are relocated with. */
    method Load2(h: Header)
      modifies `ctrel, `cdrel, `cbrel, `torigin, `dorigin, `borigin
      ensures Displaced() == Moved(h, old(Origins())) && Origins() == Plus(old(Origins()), Size(h))
    {
      ReadHdr(h);
      ctrel := torigin;
      cdrel := cdrel + dorigin;
      cbrel := cbrel + borigin;
      torigin := torigin + h.text;
      dorigin := dorigin + Roundup(h.data, LONGSZ);
      borigin := borigin + Roundup(h.bss, LONGSZ);
    }

    /** The value of a definition moves with its segment; undefined symbols, and
        local ones of no segment, are left alone. */
    method SymReloc(typ: Kind, value: int) returns (t: Kind, v: int)
      ensures if LeftAlone(typ) then t == typ && v == value
              else t == Settled(typ) && v == value + Shift(Displaced(), Settled(typ))
    {
      hide NType;
      KindType(typ);
      KindType(1 + N_ABS);
      t, v := typ, value;
      var n := typ % 16;
      if n == N_TEXT || n == 1 + N_TEXT {
        v := v + ctrel;
      } else if n == N_DATA || n == 1 + N_DATA {
        v := v + cdrel;
      } else if n == N_BSS || n == 1 + N_BSS {
        v := v + cbrel;
      } else if n != 1 {
        if n % 2 == 1 {
          t := 1 + N_ABS;
        }
      }
    }

    /** The final value of a symbol: pass 1 left it relative to the segment. */
    method Settle(typ: Kind, value: int) returns (v: int)
      ensures v == value + Shift(Origins(), typ)
    {
      v := value;
      if NType(typ) == N_TEXT {
        v := v + torigin;
      } else if NType(typ) == N_DATA {
        v := v + dorigin;
      } else if NType(typ) == N_BSS {
        v := v + borigin;
      }
    }

    /** All displacements of a link. */
    method Link(hs: seq<Header>, op: Options) returns (moves: seq<Three>)
      requires op.align > 0 && Sizes() == Three(0, 0, 0)
      modifies this
      ensures |moves| == |hs| && forall i :: 0 <= i < |hs| ==> moves[i] == Moved(hs[i], Origin(hs, i, op))
    {
      hide Total, Plus, Moved, Size, Start;
      TotalNone();
      assert hs[..0] == [];
      var i := 0;
      while i < |hs|
        invariant 0 <= i <= |hs| && Sizes() == Total(hs[..i])
      {
        assert hs[..i + 1] == hs[..i] + [hs[i]];
        TotalLast(hs[..i], hs[i]);
        Load1(hs[i]);
        i := i + 1;
      }
      assert hs[..i] == hs;
      Middle(op, hs);
      PlusNone(Start(hs, op));
      moves := [];
      i := 0;
      while i < |hs|
        invariant 0 <= i <= |hs| && Origins() == Plus(Start(hs, op), Total(hs[..i])) && |moves| == i
        invariant forall k :: 0 <= k < i ==> moves[k] == Moved(hs[k], Origin(hs, k, op))
      {
        assert hs[..i + 1] == hs[..i] + [hs[i]];
        TotalLast(hs[..i], hs[i]);
        PlusThree(Start(hs, op), Total(hs[..i]), Size(hs[i]));
        Load2(hs[i]);
        moves := moves + [Displaced()];
        i := i + 1;
      }
    }
  }

  lemma PlusNone(x: Three)
    ensures Plus(x, Three(0, 0, 0)) == x
  {
  }

  lemma PlusThree(x: Three, y: Three, z: Three)
    ensures Plus(Plus(x, y), z) == Plus(x, Plus(y, z))
  {
  }

  /** A definition has the same value after pass 1 and the step between as pass 2
      gives it again, so a symbol defined once is not taken for multiply defined. */
  lemma ValuesAgree(h: Header, before: Three, start: Three, typ: nat)
    ensures Shift(Moved(h, before), typ) + Shift(start, typ) == Shift(Moved(h, Plus(start, before)), typ)
  {
    hide NType;
  }
}
