/** What ld's pass 1 makes of the symbols of all files, by name. */
module LinkMap {

  datatype Sym = Sym(name: string, typ: int, value: int, hash: nat)

  const UNDF := 1
  const TEXT := 5

  /** What the linker knows of a name. */
  datatype Entry = Entry(typ: int, value: int)

  /** The symbol defines a name that was undefined, and not merely as common
      storage of a size while it is program text. */
  predicate Defines(m: map<string, Entry>, c: Sym) {
    c.typ % 2 == 1 && c.name in m && m[c.name].typ == UNDF && c.typ != UNDF && !(m[c.name].value != 0 && c.typ == TEXT)
  }

  /** The symbol of a file merged into what is known. */
  function Merge(m: map<string, Entry>, c: Sym): map<string, Entry> {
    if c.typ % 2 == 0 then m
    else if c.name !in m || Defines(m, c) then m[c.name := Entry(c.typ, c.value)]
    else if m[c.name].typ == UNDF == c.typ && c.value > m[c.name].value then m[c.name := Entry(UNDF, c.value)]
    else m
  }

  function MergeAll(m: map<string, Entry>, cs: seq<Sym>): map<string, Entry> {
    if cs == [] then m else Merge(MergeAll(m, cs[..|cs| - 1]), cs[|cs| - 1])
  }

  /** How many symbols of a file define something when their turn comes. */
  function Definitions(m: map<string, Entry>, cs: seq<Sym>): nat {
    if cs == [] then 0
    else Definitions(m, cs[..|cs| - 1]) + if Defines(MergeAll(m, cs[..|cs| - 1]), cs[|cs| - 1]) then 1 else 0
  }

  lemma MergeNone(m: map<string, Entry>)
    ensures MergeAll(m, []) == m && Definitions(m, []) == 0
  {
  }

  lemma MergeNext(m: map<string, Entry>, cs: seq<Sym>, i: nat)
    requires i < |cs|
    ensures MergeAll(m, cs[..i + 1]) == Merge(MergeAll(m, cs[..i]), cs[i])
    ensures Definitions(m, cs[..i + 1]) ==
      Definitions(m, cs[..i]) + if Defines(MergeAll(m, cs[..i]), cs[i]) then 1 else 0
  {
    assert cs[..i + 1][..i] == cs[..i];
  }

  /** What stays of all: everything known before, and the names listed. */
  function Leftover(m: map<string, Entry>, all: map<string, Entry>, names: seq<string>): map<string, Entry> {
    map name | name in all && (name in m || name in names) :: all[name]
  }

  // All files of a link.

  datatype Member = Member(lib: bool, syms: seq<Sym>)

  /** A file is merged, but of a library member that defines nothing only sizes stay. */
  function Step(m: map<string, Entry>, f: Member): map<string, Entry> {
    var all := MergeAll(m, f.syms);
    if f.lib && Definitions(m, f.syms) == 0 then Leftover(m, all, []) else all
  }

  function LinkAll(files: seq<Member>): map<string, Entry> {
    if files == [] then map[] else Step(LinkAll(files[..|files| - 1]), files[|files| - 1])
  }

  // What that comes to for a name, by the symbols in their order.

  /** An external symbol of that name. */
  predicate Named(c: Sym, n: string) { c.typ % 2 == 1 && c.name == n }

  /** Symbol j refers to the name. */
  predicate Asks(cs: seq<Sym>, j: nat, n: string) {
    j < |cs| && Named(cs[j], n) && cs[j].typ == 1
  }

  /** v is the largest size with which the first i symbols refer to the name. */
  ghost predicate Largest(cs: seq<Sym>, i: nat, n: string, v: int) {
    && (exists j: nat :: j < i && Asks(cs, j, n) && cs[j].value == v)
    && forall j: nat :: j < i && Asks(cs, j, n) ==> cs[j].value <= v
  }

  /** Symbol i can define the name: it is not a reference, nor program text where
      common storage of a size was asked for. */
  ghost predicate Gives(cs: seq<Sym>, i: nat, n: string) {
    && i < |cs| && Named(cs[i], n) && cs[i].typ != 1
    && !(cs[i].typ == 5 && exists v :: v != 0 && Largest(cs, i, n, v))
  }

  ghost predicate FirstGives(cs: seq<Sym>, i: nat, n: string) {
    Gives(cs, i, n) && forall j: nat :: j < i ==> !Gives(cs, j, n)
  }

  /** A name is known if there is a symbol of that name; it is defined if one of them
      defines it, by the first that does; and otherwise it has the largest size asked
      for. */
  ghost predicate Outcome(cs: seq<Sym>, m: map<string, Entry>, n: string) {
    && (n in m <==> exists i :: 0 <= i < |cs| && Named(cs[i], n))
    && (n in m && m[n].typ != 1 <==> exists i: nat :: FirstGives(cs, i, n))
    && (forall i: nat :: FirstGives(cs, i, n) ==> n in m && m[n] == Entry(cs[i].typ, cs[i].value))
    && (n in m && m[n].typ == 1 ==> Largest(cs, |cs|, n, m[n].value))
  }

  ghost predicate IsOutcome(cs: seq<Sym>, m: map<string, Entry>) {
    forall n :: Outcome(cs, m, n)
  }

  /** Symbol x defines a name that was asked for and not defined before. */
  ghost predicate Resolves(cs: seq<Sym>, x: nat) {
    x < |cs| && FirstGives(cs, x, cs[x].name) && exists j: nat :: j < x && Asks(cs, j, cs[x].name)
  }

  /** After the symbols cs, a file with the symbols fs defines a name asked for. */
  ghost predicate Wants(cs: seq<Sym>, fs: seq<Sym>) {
    exists x: nat :: |cs| <= x && Resolves(cs + fs, x)
  }

  /** The references of fs to names of cs. */
  ghost function Sizes(cs: seq<Sym>, fs: seq<Sym>): seq<Sym> {
    if fs == [] then []
    else
      var c := fs[|fs| - 1];
      Sizes(cs, fs[..|fs| - 1]) + if c.typ == 1 && exists i :: 0 <= i < |cs| && Named(cs[i], c.name) then [c] else []
  }

  /** The symbols of a link: all of a file that is loaded, and of a library member that
      is not only its references to names known before it. */
  ghost function Symbols(files: seq<Member>): seq<Sym> {
    if files == [] then []
    else
      var cs, f := Symbols(files[..|files| - 1]), files[|files| - 1];
      cs + if f.lib && !Wants(cs, f.syms) then Sizes(cs, f.syms) else f.syms
  }

  lemma AsksSame(cs: seq<Sym>, ds: seq<Sym>, j: nat, n: string)
    requires j < |cs|
    ensures Asks(cs + ds, j, n) <==> Asks(cs, j, n)
    ensures (cs + ds)[j] == cs[j]
  {
  }

  lemma LargestSame(cs: seq<Sym>, ds: seq<Sym>, i: nat, n: string, v: int)
    requires i <= |cs|
    ensures Largest(cs + ds, i, n, v) <==> Largest(cs, i, n, v)
  {
    hide Asks;
    forall j: nat | j < i
      ensures (Asks(cs + ds, j, n) <==> Asks(cs, j, n)) && (cs + ds)[j] == cs[j]
    {
      AsksSame(cs, ds, j, n);
    }
  }

  /** What comes later does not matter. */
  lemma GivesSame(cs: seq<Sym>, ds: seq<Sym>, i: nat, n: string)
    requires i < |cs|
    ensures Gives(cs + ds, i, n) <==> Gives(cs, i, n)
  {
    hide Largest, Named;
    assert (cs + ds)[i] == cs[i];
    forall v
      ensures Largest(cs + ds, i, n, v) <==> Largest(cs, i, n, v)
    {
      LargestSame(cs, ds, i, n, v);
    }
  }

  lemma FirstSame(cs: seq<Sym>, ds: seq<Sym>, i: nat, n: string)
    requires i < |cs|
    ensures FirstGives(cs + ds, i, n) <==> FirstGives(cs, i, n)
  {
    hide Gives;
    forall j: nat | j <= i
      ensures Gives(cs + ds, j, n) <==> Gives(cs, j, n)
    {
      GivesSame(cs, ds, j, n);
    }
  }

  lemma {:induction false} FirstOf(cs: seq<Sym>, i: nat, n: string) returns (x: nat)
    requires Gives(cs, i, n)
    ensures x <= i && FirstGives(cs, x, n)
    decreases i
  {
    hide Gives;
    if j: nat :| j < i && Gives(cs, j, n) {
      x := FirstOf(cs, j, n);
    } else {
      x := i;
    }
  }

  // The outcome, one symbol after another.

  lemma LargestUnique(cs: seq<Sym>, i: nat, n: string, v: int, w: int)
    requires Largest(cs, i, n, v) && Largest(cs, i, n, w)
    ensures v == w
  {
    var j: nat :| j < i && Asks(cs, j, n) && cs[j].value == v;
    var k: nat :| k < i && Asks(cs, k, n) && cs[k].value == w;
  }

  lemma LastIs(cs: seq<Sym>, c: Sym, n: string)
    ensures (cs + [c])[|cs|] == c && |cs + [c]| == |cs| + 1
    ensures Asks(cs + [c], |cs|, n) <==> Named(c, n) && c.typ == 1
  {
  }

  /** The largest size is that before or that of the last symbol. */
  lemma LargestNext(cs: seq<Sym>, c: Sym, n: string, v: int)
    ensures !(Named(c, n) && c.typ == 1) ==> (Largest(cs + [c], |cs| + 1, n, v) <==> Largest(cs, |cs|, n, v))
    ensures Named(c, n) && c.typ == 1 && Largest(cs, |cs|, n, v) ==>
      Largest(cs + [c], |cs| + 1, n, if c.value > v then c.value else v)
    ensures Named(c, n) && c.typ == 1 && (forall j: nat :: !Asks(cs, j, n)) ==>
      Largest(cs + [c], |cs| + 1, n, c.value)
  {
    var ds := cs + [c];
    LastIs(cs, c, n);
    forall j: nat | j < |cs|
      ensures (Asks(ds, j, n) <==> Asks(cs, j, n)) && ds[j] == cs[j]
    {
      AsksSame(cs, [c], j, n);
    }
    hide Asks, Named;
    if Named(c, n) && c.typ == 1 {
      assert Asks(ds, |cs|, n);
      if Largest(cs, |cs|, n, v) {
        var j: nat :| j < |cs| && Asks(cs, j, n) && cs[j].value == v;
        assert Asks(ds, j, n);
      }
    } else if Largest(cs, |cs|, n, v) {
      var j: nat :| j < |cs| && Asks(cs, j, n) && cs[j].value == v;
      assert Asks(ds, j, n);
    } else if Largest(ds, |cs| + 1, n, v) {
      var j: nat :| j < |cs| + 1 && Asks(ds, j, n) && ds[j].value == v;
      assert Asks(cs, j, n);
      forall k: nat | k < |cs| && Asks(cs, k, n)
        ensures cs[k].value <= v
      {
        assert Asks(ds, k, n);
      }
    }
  }

  /** The last symbol defines the name if none did before. */
  lemma FirstNext(cs: seq<Sym>, c: Sym, n: string)
    ensures forall i: nat :: i < |cs| ==> (FirstGives(cs + [c], i, n) <==> FirstGives(cs, i, n))
    ensures FirstGives(cs + [c], |cs|, n) <==>
      (forall i: nat :: !FirstGives(cs, i, n)) && Named(c, n) && c.typ != 1 &&
      !(c.typ == 5 && exists v :: v != 0 && Largest(cs, |cs|, n, v))
  {
    var ds := cs + [c];
    LastIs(cs, c, n);
    forall v
      ensures Largest(ds, |cs|, n, v) <==> Largest(cs, |cs|, n, v)
    {
      LargestSame(cs, [c], |cs|, n, v);
    }
    forall i: nat | i < |cs|
      ensures FirstGives(ds, i, n) <==> FirstGives(cs, i, n)
      ensures Gives(ds, i, n) <==> Gives(cs, i, n)
    {
      FirstSame(cs, [c], i, n);
      GivesSame(cs, [c], i, n);
    }
    assert Gives(ds, |cs|, n) <==>
      Named(c, n) && c.typ != 1 && !(c.typ == 5 && exists v :: v != 0 && Largest(cs, |cs|, n, v));
    NoneFirst(cs, n);
    hide Largest, Named, Gives;
  }

  /** If no symbol is the first to define the name, none defines it. */
  lemma NoneFirst(cs: seq<Sym>, n: string)
    ensures (exists i: nat :: FirstGives(cs, i, n)) <==> exists i: nat :: i < |cs| && Gives(cs, i, n)
  {
    hide Largest, Named;
    if i: nat :| i < |cs| && Gives(cs, i, n) {
      var x := FirstOf(cs, i, n);
    }
  }

  lemma NamedNext(cs: seq<Sym>, c: Sym, n: string)
    ensures (exists i :: 0 <= i < |cs + [c]| && Named((cs + [c])[i], n)) <==>
      (exists i :: 0 <= i < |cs| && Named(cs[i], n)) || Named(c, n)
  {
    hide Named;
    var ds := cs + [c];
    assert ds[|cs|] == c;
    if i :| 0 <= i < |cs| && Named(cs[i], n) {
      assert Named(ds[i], n);
    }
  }

  /** A name that no symbol has is neither asked for nor defined. */
  lemma Unnamed(cs: seq<Sym>, n: string)
    requires !exists i :: 0 <= i < |cs| && Named(cs[i], n)
    ensures forall j: nat :: !Asks(cs, j, n) && !FirstGives(cs, j, n)
    ensures forall i, v :: !Largest(cs, i, n, v)
  {
  }

  lemma OutcomeNext(cs: seq<Sym>, m: map<string, Entry>, c: Sym, n: string)
    requires Outcome(cs, m, n)
    ensures Outcome(cs + [c], Merge(m, c), n)
  {
    var ds := cs + [c];
    NamedNext(cs, c, n);
    FirstNext(cs, c, n);
    assert forall i: nat :: FirstGives(ds, i, n) ==> i <= |cs|;
    assert ds[|cs|] == c && forall i: nat :: i < |cs| ==> ds[i] == cs[i];
    forall v
      ensures !(Named(c, n) && c.typ == 1) ==> (Largest(ds, |cs| + 1, n, v) <==> Largest(cs, |cs|, n, v))
    {
      LargestNext(cs, c, n, v);
    }
    if n !in m {
      Unnamed(cs, n);
      LargestNext(cs, c, n, 0);
    } else if m[n].typ == 1 {
      LargestNext(cs, c, n, m[n].value);
      forall v | Largest(cs, |cs|, n, v)
        ensures v == m[n].value
      {
        LargestUnique(cs, |cs|, n, v, m[n].value);
      }
    }
    hide Largest, FirstGives;
  }

  /** What pass 1 knows of every name, by the symbols alone. */
  lemma {:induction false} MergeOutcome(cs: seq<Sym>)
    ensures IsOutcome(cs, MergeAll(map[], cs))
  {
    hide Outcome, Merge;
    if cs == [] {
      forall n
        ensures Outcome([], map[], n)
      {
        OutcomeNone(n);
      }
    } else {
      var k := |cs| - 1;
      MergeOutcome(cs[..k]);
      assert cs == cs[..k] + [cs[k]];
      forall n
        ensures Outcome(cs, MergeAll(map[], cs), n)
      {
        OutcomeNext(cs[..k], MergeAll(map[], cs[..k]), cs[k], n);
      }
    }
  }

  lemma OutcomeNone(n: string)
    ensures Outcome([], map[], n)
  {
  }

  // Library members.

  /** A symbol counts as a definition exactly if it defines a name asked for and not
      defined before. */
  lemma DefinesResolves(cs: seq<Sym>, c: Sym)
    ensures Defines(MergeAll(map[], cs), c) <==> Resolves(cs + [c], |cs|)
  {
    var m, n, ds := MergeAll(map[], cs), c.name, cs + [c];
    MergeOutcome(cs);
    assert Outcome(cs, m, n);
    FirstNext(cs, c, n);
    LastIs(cs, c, n);
    forall j: nat | j < |cs|
      ensures Asks(ds, j, n) <==> Asks(cs, j, n)
    {
      AsksSame(cs, [c], j, n);
    }
    if n in m && m[n].typ == 1 {
      forall v | Largest(cs, |cs|, n, v)
        ensures v == m[n].value
      {
        LargestUnique(cs, |cs|, n, v, m[n].value);
      }
    }
    hide MergeAll, FirstGives;
  }

  lemma ResolvesSame(cs: seq<Sym>, ds: seq<Sym>, x: nat)
    requires x < |cs|
    ensures Resolves(cs + ds, x) <==> Resolves(cs, x)
  {
    var n := cs[x].name;
    FirstSame(cs, ds, x, n);
    forall j: nat | j < x
      ensures Asks(cs + ds, j, n) <==> Asks(cs, j, n)
    {
      AsksSame(cs, ds, j, n);
    }
    assert (cs + ds)[x] == cs[x];
    hide FirstGives, Asks;
  }

  lemma {:induction false} MergeConcat(m: map<string, Entry>, cs: seq<Sym>, fs: seq<Sym>)
    ensures MergeAll(m, cs + fs) == MergeAll(MergeAll(m, cs), fs)
  {
    hide Merge;
    if fs == [] {
      assert cs + fs == cs;
    } else {
      var k := |fs| - 1;
      MergeConcat(m, cs, fs[..k]);
      assert (cs + fs)[..|cs + fs| - 1] == cs + fs[..k];
    }
  }

  /** A member defines something exactly if one of its symbols defines a name asked
      for and not defined before. */
  lemma {:induction false} DefinitionsWanted(cs: seq<Sym>, fs: seq<Sym>)
    ensures Definitions(MergeAll(map[], cs), fs) > 0 <==> Wants(cs, fs)
  {
    hide Resolves, Defines, MergeAll;
    if fs != [] {
      var gs, c := fs[..|fs| - 1], fs[|fs| - 1];
      DefinitionsWanted(cs, gs);
      MergeConcat(map[], cs, gs);
      DefinesResolves(cs + gs, c);
      assert cs + fs == cs + gs + [c];
      forall x: nat | x < |cs + gs|
        ensures Resolves(cs + fs, x) <==> Resolves(cs + gs, x)
      {
        ResolvesSame(cs + gs, [c], x);
      }
      ResolvesInside(cs + gs);
      ResolvesInside(cs + fs);
    } else {
      ResolvesInside(cs + fs);
    }
  }

  lemma ResolvesInside(cs: seq<Sym>)
    ensures forall x: nat :: Resolves(cs, x) ==> x < |cs|
  {
  }

  lemma {:induction false} KeysStay(m: map<string, Entry>, fs: seq<Sym>)
    ensures forall n :: n in m ==> n in MergeAll(m, fs)
  {
    if fs != [] {
      KeysStay(m, fs[..|fs| - 1]);
    }
  }

  /** Of a member that defines nothing, just the sizes stay with which it refers to
      names known before. */
  lemma {:induction false} DroppedSizes(cs: seq<Sym>, fs: seq<Sym>)
    requires Definitions(MergeAll(map[], cs), fs) == 0
    ensures Leftover(MergeAll(map[], cs), MergeAll(MergeAll(map[], cs), fs), []) ==
      MergeAll(MergeAll(map[], cs), Sizes(cs, fs))
  {
    var m := MergeAll(map[], cs);
    if fs == [] {
      MergeNone(m);
      assert Leftover(m, m, []) == m;
    } else {
      var gs, c := fs[..|fs| - 1], fs[|fs| - 1];
      var kept := if c.typ == 1 && exists i :: 0 <= i < |cs| && Named(cs[i], c.name) then [c] else [];
      DroppedSizes(cs, gs);
      KeysStay(m, gs);
      MergeConcat(m, Sizes(cs, gs), kept);
      MergeOutcome(cs);
      assert Outcome(cs, m, c.name);
      assert Sizes(cs, fs) == Sizes(cs, gs) + kept;
      DroppedNext(m, MergeAll(m, gs), MergeAll(m, Sizes(cs, gs)), c, kept);
    }
  }

  lemma DroppedNext(m: map<string, Entry>, all: map<string, Entry>, left: map<string, Entry>, c: Sym, kept: seq<Sym>)
    requires left == Leftover(m, all, []) && !Defines(all, c) && forall n :: n in m ==> n in all
    requires kept == if c.typ == 1 && c.name in m then [c] else []
    ensures Leftover(m, Merge(all, c), []) == MergeAll(left, kept)
  {
    if kept == [] {
      MergeNone(left);
      assert Leftover(m, Merge(all, c), []) == left;
    } else {
      assert MergeAll(left, [c]) == Merge(left, c) by {
        MergeNone(left);
        assert [c][..0] == [];
      }
      assert Leftover(m, Merge(all, c), []) == Merge(left, c);
    }
  }

  lemma {:induction false} LinkIs(files: seq<Member>)
    ensures LinkAll(files) == MergeAll(map[], Symbols(files))
  {
    hide MergeAll, Definitions, Leftover, Wants, Sizes;
    if files == [] {
      MergeNone(map[]);
    } else {
      var fs, f := files[..|files| - 1], files[|files| - 1];
      var cs := Symbols(fs);
      LinkIs(fs);
      DefinitionsWanted(cs, f.syms);
      if f.lib && !Wants(cs, f.syms) {
        DroppedSizes(cs, f.syms);
        MergeConcat(map[], cs, Sizes(cs, f.syms));
      } else {
        MergeConcat(map[], cs, f.syms);
      }
    }
  }

  /** What a link knows of every name, by its symbols alone. */
  lemma LinkOutcome(files: seq<Member>)
    ensures IsOutcome(Symbols(files), LinkAll(files))
  {
    LinkIs(files);
    MergeOutcome(Symbols(files));
  }
}
