/** sort: runs that fit in core, merged seven at a time. */
module SortMerge {
  import opened Decimal
  import opened SortKeys
  import opened SortOrder
  import opened QuickSort

  const N := 7

  /** The order of the output. */
  ghost predicate InOrder(k: Keys, s: seq<Line>) {
    forall i, j :: 0 <= i < j < |s| ==> Sign(k, s[i], s[j]) >= 0
  }

  /** All lines of some files. */
  ghost function Lines(fs: seq<seq<Line>>): multiset<Line> {
    if fs == [] then multiset{} else Lines(fs[..|fs| - 1]) + multiset(fs[|fs| - 1])
  }

  ghost predicate AllInOrder(k: Keys, fs: seq<seq<Line>>) {
    forall i :: 0 <= i < |fs| ==> InOrder(k, fs[i])
  }

  lemma {:induction false} LinesConcat(fs: seq<seq<Line>>, gs: seq<seq<Line>>)
    ensures Lines(fs + gs) == Lines(fs) + Lines(gs)
  {
    if gs == [] {
      assert fs + gs == fs;
    } else {
      assert (fs + gs)[..|fs + gs| - 1] == fs + gs[..|gs| - 1];
      LinesConcat(fs, gs[..|gs| - 1]);
    }
  }

  lemma LinesOne(f: seq<Line>)
    ensures Lines([f]) == multiset(f)
  {
    assert [f][..0] == [];
  }

  /** What a record of the merge still has to give. */
  ghost function Pending(m: Merg): seq<Line> {
    [m.l] + m.b
  }

  ghost function Mass(s: seq<Merg>): multiset<Line> {
    if s == [] then multiset{} else Mass(s[..|s| - 1]) + multiset(Pending(s[|s| - 1]))
  }

  lemma {:induction false} MassConcat(s: seq<Merg>, t: seq<Merg>)
    ensures Mass(s + t) == Mass(s) + Mass(t)
  {
    if t == [] {
      assert s + t == s;
    } else {
      assert (s + t)[..|s + t| - 1] == s + t[..|t| - 1];
      MassConcat(s, t[..|t| - 1]);
    }
  }

  lemma MassOne(m: Merg)
    ensures Mass([m]) == multiset(Pending(m))
  {
    assert [m][..0] == [];
  }

  /** Rearranging the records changes nothing. */
  lemma {:induction false} MassSame(s: seq<Merg>, t: seq<Merg>)
    requires multiset(s) == multiset(t)
    ensures Mass(s) == Mass(t)
  {
    if s == [] {
      assert |t| == |multiset(t)| == 0;
    } else {
      var i := TakeOut(s, t);
      var m, u, v := s[|s| - 1], t[..i], t[i + 1..];
      MassSame(s[..|s| - 1], u + v);
      MassConcat(u, v);
      MassConcat(u, [m]);
      MassConcat(u + [m], v);
      MassOne(m);
    }
  }

  lemma TakeOut(s: seq<Merg>, t: seq<Merg>) returns (i: nat)
    requires multiset(s) == multiset(t) && s != []
    ensures i < |t| && t == t[..i] + [s[|s| - 1]] + t[i + 1..]
    ensures multiset(s[..|s| - 1]) == multiset(t[..i] + t[i + 1..])
  {
    var m, init := s[|s| - 1], s[..|s| - 1];
    assert s == init + [m];
    assert m in multiset(t);
    i :| 0 <= i < |t| && t[i] == m;
    var u, v := t[..i], t[i + 1..];
    assert t == u + [m] + v;
    assert multiset(s) == multiset(init) + multiset([m]);
    assert multiset(t) == multiset(u) + multiset([m]) + multiset(v);
    assert multiset(u + v) == multiset(u) + multiset(v);
    assert multiset(init) == multiset(s) - multiset([m]);
  }

  /** One more line at the end. */
  lemma AppendOrder(k: Keys, s: seq<Line>, l: Line)
    requires InOrder(k, s) && (s != [] ==> Sign(k, s[|s| - 1], l) >= 0)
    ensures InOrder(k, s + [l])
  {
    hide Sign;
    forall i | 0 <= i < |s|
      ensures Sign(k, s[i], l) >= 0
    {
      SignOrder(k, s[i], s[|s| - 1], l);
    }
  }

  /** Lines in order are determined by what lines they are. */
  lemma {:induction false} OrderUnique(k: Keys, s: seq<Line>, t: seq<Line>)
    requires InOrder(k, s) && InOrder(k, t) && multiset(s) == multiset(t)
    ensures s == t
  {
    if s == [] {
      assert |t| == |multiset(t)| == 0;
    } else {
      assert |t| == |multiset(t)| == |s|;
      SameFirst(k, s, t);
      hide InOrder;
      assert s == [s[0]] + s[1..] && t == [t[0]] + t[1..];
      assert multiset(s[1..]) == multiset(s) - multiset([s[0]]) && multiset(t[1..]) == multiset(t) - multiset([t[0]]);
      OrderUnique(k, s[1..], t[1..]);
    }
  }

  lemma SameFirst(k: Keys, s: seq<Line>, t: seq<Line>)
    requires InOrder(k, s) && InOrder(k, t) && multiset(s) == multiset(t) && s != [] && t != []
    ensures s[0] == t[0] && InOrder(k, s[1..]) && InOrder(k, t[1..])
  {
    hide Sign;
    assert s[0] in multiset(t) && t[0] in multiset(s);
    var i :| 0 <= i < |t| && t[i] == s[0];
    var j :| 0 <= j < |s| && s[j] == t[0];
    SignOrder(k, s[0], t[0], t[0]);
  }

  /** The elements before i are ordered but for the one at ip, which goes below
      everything behind it. */
  ghost predicate Sifting(s: seq<Merg>, ip: nat, i: nat, k: Keys) {
    && ip < i <= |s|
    && (forall x, y :: 0 <= x < y < i && x != ip && y != ip ==> Order(k, s[x], s[y]) <= 0)
    && forall y :: ip < y < i ==> Order(k, s[ip], s[y]) <= 0
  }

  lemma SiftStarts(s: seq<Merg>, i: nat, k: Keys)
    requires 0 < i <= |s| && Ordered(s, 0, i - 1, k)
    ensures Sifting(s, i - 1, i, k)
  {
  }

  lemma SiftStep(s: seq<Merg>, ip: nat, i: nat, k: Keys)
    requires Sifting(s, ip, i, k) && ip > 0 && Order(k, s[ip], s[ip - 1]) < 0
    ensures Sifting(s[ip - 1 := s[ip]][ip := s[ip - 1]], ip - 1, i, k)
  {
    hide Order;
  }

  lemma SiftEnds(s: seq<Merg>, ip: nat, i: nat, k: Keys)
    requires Sifting(s, ip, i, k) && (ip > 0 ==> Order(k, s[ip], s[ip - 1]) >= 0)
    ensures Ordered(s, 0, i, k)
  {
    hide Sign;
    forall x, y | 0 <= x < y < i
      ensures Order(k, s[x], s[y]) <= 0
    {
      if y == ip {
        SignOrder(k, s[ip].l, s[ip - 1].l, s[x].l);
        SignOrder(k, s[ip - 1].l, s[x].l, s[x].l);
        SignOrder(k, s[ip].l, s[x].l, s[x].l);
      }
    }
  }

  /** Every record's lines come in order. */
  ghost predicate Readable(s: seq<Merg>, i: nat, k: Keys) {
    i <= |s| && forall x :: 0 <= x < i ==> InOrder(k, Pending(s[x]))
  }

  lemma ReadableShuffled(s: seq<Merg>, t: seq<Merg>, i: nat, k: Keys)
    requires Readable(s, i, k) && Shuffled(s, t, 0, i)
    ensures Readable(t, i, k) && Mass(t[..i]) == Mass(s[..i])
  {
    RangeSame(s, t, 0, i);
    hide InOrder;
    forall x | 0 <= x < i
      ensures InOrder(k, Pending(t[x]))
    {
      var y := Origin(s, 0, i, t[x]);
    }
    assert s[0..i] == s[..i] && t[0..i] == t[..i];
    MassSame(s[..i], t[..i]);
  }

  /** The last line written sorts before all that are pending. */
  ghost predicate Leads(out: seq<Line>, s: seq<Merg>, i: nat, k: Keys) {
    out != [] ==> i <= |s| && forall x :: 0 <= x < i ==> Sign(k, out[|out| - 1], s[x].l) >= 0
  }

  /** The state of a merge: out is written, the first i records are open. */
  ghost predicate Merging(fs: seq<seq<Line>>, out: seq<Line>, s: seq<Merg>, i: nat, k: Keys) {
    && i <= |s| && Ordered(s, 0, i, k) && Readable(s, i, k) && Leads(out, s, i, k)
    && InOrder(k, out) && multiset(out) + Mass(s[..i]) == Lines(fs)
  }

  /** The last record's line sorts before all that are pending. */
  lemma LastLeads(s: seq<Merg>, i: nat, l: Line, out: seq<Line>, k: Keys)
    requires Ordered(s, 0, i, k) && i > 0 && l == s[i - 1].l
    ensures Leads(out + [l], s, i, k)
  {
    hide Sign;
    forall x | 0 <= x < i
      ensures Sign(k, l, s[x].l) >= 0
    {
      SignOrder(k, l, s[x].l, s[x].l);
    }
  }

  lemma RestInOrder(k: Keys, m: Merg)
    requires InOrder(k, Pending(m)) && m.b != []
    ensures InOrder(k, m.b) && Sign(k, m.l, m.b[0]) >= 0
  {
    hide Sign;
    var p := Pending(m);
    assert p[0] == m.l && p[1] == m.b[0];
    forall x, y | 0 <= x < y < |m.b|
      ensures Sign(k, m.b[x], m.b[y]) >= 0
    {
      assert p[x + 1] == m.b[x] && p[y + 1] == m.b[y];
    }
  }

  lemma WriteMass(out: seq<Line>, s: seq<Merg>, i: nat)
    requires 0 < i <= |s|
    ensures multiset(out + [s[i - 1].l]) + Mass(s[..i - 1]) + multiset(s[i - 1].b) == multiset(out) + Mass(s[..i])
  {
    var m := s[i - 1];
    assert s[..i] == s[..i - 1] + [m];
    MassConcat(s[..i - 1], [m]);
    MassOne(m);
  }

  /** The record's file is at its end. */
  lemma FileEnds(fs: seq<seq<Line>>, out: seq<Line>, s: seq<Merg>, i: nat, k: Keys)
    requires Merging(fs, out, s, i, k) && i > 0 && s[i - 1].b == []
    ensures Merging(fs, out + [s[i - 1].l], s, i - 1, k)
  {
    hide *;
    MergingParts(fs, out, s, i, k);
    var l := s[i - 1].l;
    WriteLast(out, s, i);
    LastLeads(s, i, l, out, k);
    FewerOpen(out + [l], s, i, k);
    AppendOrder(k, out, l);
    FileEnded(fs, out + [l], s, i - 1, k);
  }

  lemma MergingParts(fs: seq<seq<Line>>, out: seq<Line>, s: seq<Merg>, i: nat, k: Keys)
    requires Merging(fs, out, s, i, k)
    ensures i <= |s| && Ordered(s, 0, i, k) && Readable(s, i, k) && Leads(out, s, i, k) && InOrder(k, out)
    ensures multiset(out) + Mass(s[..i]) == Lines(fs)
    ensures i > 0 && out != [] ==> Sign(k, out[|out| - 1], s[i - 1].l) >= 0
  {
    hide InOrder, Sign, Mass, Lines, Ordered, Readable;
  }

  lemma FewerOpen(out: seq<Line>, s: seq<Merg>, i: nat, k: Keys)
    requires 0 < i <= |s| && Ordered(s, 0, i, k) && Readable(s, i, k) && Leads(out, s, i, k)
    ensures Ordered(s, 0, i - 1, k) && Readable(s, i - 1, k) && Leads(out, s, i - 1, k)
  {
    hide Sign, Order, InOrder;
  }

  lemma WriteLast(out: seq<Line>, s: seq<Merg>, i: nat)
    requires 0 < i <= |s| && s[i - 1].b == []
    ensures multiset(out + [s[i - 1].l]) + Mass(s[..i - 1]) == multiset(out) + Mass(s[..i])
  {
    hide *;
    WriteMass(out, s, i);
    var none: seq<Line> := [];
    assert multiset(none) == multiset{};
  }

  lemma FileEnded(fs: seq<seq<Line>>, out: seq<Line>, s: seq<Merg>, i: nat, k: Keys)
    requires i <= |s| && Ordered(s, 0, i, k) && Readable(s, i, k) && Leads(out, s, i, k) && InOrder(k, out)
    requires multiset(out) + Mass(s[..i]) == Lines(fs)
    ensures Merging(fs, out, s, i, k)
  {
    hide InOrder, Mass, Lines, Ordered, Readable, Leads;
  }

  /** The record with its next line. */
  function NextOf(m: Merg): Merg
    requires m.b != []
  {
    Merg(m.b[0], m.b[1..])
  }

  /** The record has another line, which is sifted into place. */
  lemma NextLine(fs: seq<seq<Line>>, out: seq<Line>, s: seq<Merg>, i: nat, t: seq<Merg>, k: Keys)
    requires Merging(fs, out, s, i, k) && i > 0 && s[i - 1].b != []
    requires Shuffled(s[i - 1 := NextOf(s[i - 1])], t, 0, i) && Ordered(t, 0, i, k)
    ensures Merging(fs, out + [s[i - 1].l], t, i, k)
  {
    var l, u := s[i - 1].l, s[i - 1 := NextOf(s[i - 1])];
    assert out != [] ==> Sign(k, out[|out| - 1], l) >= 0;
    hide InOrder, Sign, Mass, Readable, Leads, Ordered, Shuffled, NextOf;
    AppendOrder(k, out, l);
    NextReadable(s, i, u, k);
    NextLeads(out, s, i, u, k);
    NextMass(s, u, i);
    WriteMass(out, s, i);
    ReadableShuffled(u, t, i, k);
    LeadsShuffled(out + [l], u, t, i, k);
    SameLength(u, t);
  }

  lemma SameLength(s: seq<Merg>, t: seq<Merg>)
    requires exists a: nat, l: nat :: Shuffled(s, t, a, l)
    ensures |s| == |t|
  {
  }

  lemma NextReadable(s: seq<Merg>, i: nat, u: seq<Merg>, k: Keys)
    requires Readable(s, i, k) && i > 0 && s[i - 1].b != [] && u == s[i - 1 := NextOf(s[i - 1])]
    ensures Readable(u, i, k)
  {
    assert InOrder(k, Pending(s[i - 1]));
    RestInOrder(k, s[i - 1]);
    hide InOrder;
    assert Pending(u[i - 1]) == s[i - 1].b;
  }

  lemma NextLeads(out: seq<Line>, s: seq<Merg>, i: nat, u: seq<Merg>, k: Keys)
    requires Readable(s, i, k) && Ordered(s, 0, i, k) && i > 0 && s[i - 1].b != [] && u == s[i - 1 := NextOf(s[i - 1])]
    ensures Leads(out + [s[i - 1].l], u, i, k)
  {
    assert InOrder(k, Pending(s[i - 1]));
    RestInOrder(k, s[i - 1]);
    LastLeads(s, i, s[i - 1].l, out, k);
    hide InOrder, Sign;
  }

  lemma NextMass(s: seq<Merg>, u: seq<Merg>, i: nat)
    requires 0 < i <= |s| && s[i - 1].b != [] && u == s[i - 1 := NextOf(s[i - 1])]
    ensures Mass(u[..i]) == Mass(s[..i - 1]) + multiset(s[i - 1].b)
  {
    var n := u[i - 1];
    assert Pending(n) == s[i - 1].b;
    assert u[..i] == s[..i - 1] + [n];
    MassConcat(s[..i - 1], [n]);
    MassOne(n);
  }

  lemma LeadsShuffled(out: seq<Line>, u: seq<Merg>, t: seq<Merg>, i: nat, k: Keys)
    requires Leads(out, u, i, k) && Shuffled(u, t, 0, i) && i <= |u|
    ensures Leads(out, t, i, k)
  {
    RangeSame(u, t, 0, i);
    hide Sign;
    if out != [] {
      forall x | 0 <= x < i
        ensures Sign(k, out[|out| - 1], t[x].l) >= 0
      {
        var y := Origin(u, 0, i, t[x]);
      }
    }
  }

  class Sorter {
    const k: Keys

    /** The most lines, and the most characters but for the last line, of a run. */
    const nlines: nat
    const ntext: nat

    /** The input files, and behind them the runs. */
    const eargc: nat
    var files: seq<seq<Line>>

    /** What was written to the output, if it was. */
    var out: seq<Line>
    var written: bool

    const lspace: array<Merg>
    const ibuf: array<Merg>

    constructor (k: Keys, inputs: seq<seq<Line>>, nlines: nat, ntext: nat)
      requires nlines > 0 && ntext > 0
      ensures this.k == k && this.nlines == nlines && this.ntext == ntext && eargc == |inputs| && files == inputs
      ensures !written
      ensures lspace.Length == nlines && ibuf.Length == 256 && fresh(lspace) && fresh(ibuf)
    {
      this.k, this.nlines, this.ntext, eargc, files, out, written := k, nlines, ntext, |inputs|, inputs, [], false;
      lspace, ibuf := new Merg[nlines](i => Merg([], [])), new Merg[256](i => Merg([], []));
    }

    /** Read the next line of a record's file: true at its end. */
    method RLine(i: nat) returns (eof: bool)
      requires i < ibuf.Length
      modifies ibuf
      ensures eof == (old(ibuf[i]).b == [])
      ensures ibuf[..] == if eof then old(ibuf[..]) else old(ibuf[..])[i := NextOf(old(ibuf[i]))]
    {
      var p := ibuf[i];
      if p.b == [] {
        return true;
      }
      ibuf[i] := Merg(p.b[0], p.b[1..]);
      eof := false;
    }

    /** Move the last of the first i records down to its place. */
    method Sift(i: nat)
      requires 0 < i <= ibuf.Length && Ordered(ibuf[..], 0, i - 1, k)
      modifies ibuf
      ensures Ordered(ibuf[..], 0, i, k) && Shuffled(old(ibuf[..]), ibuf[..], 0, i)
    {
      hide *;
      var ip := i - 1;
      ghost var was := ibuf[..];
      ShuffledSame(was, 0, i);
      SiftStarts(was, i, k);
      while ip > 0
        invariant 0 <= ip < i && Sifting(ibuf[..], ip, i, k) && Shuffled(was, ibuf[..], 0, i)
      {
        var c := Compare(k, ibuf[ip].l, ibuf[ip - 1].l);
        CompareIs(c, k, ibuf[ip], ibuf[ip - 1]);
        if c >= 0 {
          break;
        }
        SiftStep(ibuf[..], ip, i, k);
        SwapShuffles(was, ibuf[..], 0, i, ip - 1, ip);
        Exchange(ibuf, ip - 1, ip, ibuf[..]);
        ip := ip - 1;
      }
      SiftEnds(ibuf[..], ip, i, k);
    }

    /** Open the files, and keep those that have a line. */
    method Open(fs: seq<seq<Line>>) returns (j: nat)
      requires |fs| <= N && ibuf.Length == 256 && AllInOrder(k, fs)
      modifies ibuf
      ensures j <= |fs| && Readable(ibuf[..], j, k) && Mass(ibuf[..j]) == Lines(fs)
    {
      hide Sign, Mass, Lines, InOrder, Readable;
      j := 0;
      NoFiles(ibuf[..], k);
      assert fs[..0] == [] && ibuf[..0] == [];
      for i := 0 to |fs|
        invariant j <= i && Readable(ibuf[..], j, k) && Mass(ibuf[..j]) == Lines(fs[..i])
      {
        ghost var was := ibuf[..];
        assert InOrder(k, fs[i]);
        ibuf[j] := Merg([], fs[i]);
        var eof := RLine(j);
        assert fs[..i + 1] == fs[..i] + [fs[i]];
        assert ibuf[..j] == was[..j] && ibuf[..j + 1] == was[..j] + [ibuf[j]];
        OneFileReadable(was, j, ibuf[..], fs[i], k);
        OneFile(was[..j], ibuf[j], fs[..i], fs[i]);
        if !eof {
          j := j + 1;
        }
      }
      assert fs[..|fs|] == fs;
    }

    /** The line of the last open record is written: read on, and bring the record
        to its place, or close it. */
    method Advance(ghost fs: seq<seq<Line>>, ghost out: seq<Line>, i: nat) returns (n: nat)
      requires 0 < i <= ibuf.Length && Merging(fs, out, ibuf[..], i, k)
      modifies ibuf
      ensures n <= i && Merging(fs, out + [old(ibuf[i - 1]).l], ibuf[..], n, k)
    {
      hide *;
      ghost var s := ibuf[..];
      n := i;
      var eof := RLine(n - 1);
      if eof {
        FileEnds(fs, out, s, i, k);
        n := n - 1;
        if n == 0 {
          return;
        }
      }
      ghost var u := ibuf[..];
      SiftReady(fs, out, s, i, n, u, k);
      Sift(n);
      if eof {
        MergeShuffled(fs, out + [s[i - 1].l], u, ibuf[..], n, k);
      } else {
        NextLine(fs, out, s, i, ibuf[..], k);
      }
    }

    /** Merge files into one. */
    method Merge(fs: seq<seq<Line>>) returns (o: seq<Line>)
      requires |fs| <= N && ibuf.Length == 256 && AllInOrder(k, fs)
      modifies ibuf
      ensures InOrder(k, o) && multiset(o) == Lines(fs)
    {
      assert |fs| <= ibuf.Length;
      hide *;
      var j := Open(fs);
      ghost var s := ibuf[..];
      assert s[..j] == ibuf[..j];
      ghost var nest := QSort(ibuf, 0, j, k);
      o := [];
      var i: nat := j;
      MergeStarts(fs, s, ibuf[..], i, k);
      while i > 0
        invariant i <= |fs| && Merging(fs, o, ibuf[..], i, k)
        decreases |Lines(fs)| - |o|
      {
        MergeGoes(fs, o, ibuf[..], i, k);
        ghost var w := o;
        o := o + [ibuf[i - 1].l];
        i := Advance(fs, w, i);
      }
      MergeEnds(fs, o, ibuf[..], k);
    }

    /** Open the next files while there is nothing left to read. */
    method NextInput(fi0: nat, p0: nat) returns (fi: nat, p: nat)
      requires eargc <= |files| && Reads(files[..eargc], fi0, p0)
      ensures Reads(files[..eargc], fi, p) && Unread(files[..eargc], fi, p) == Unread(files[..eargc], fi0, p0)
      ensures fi <= eargc && (fi < eargc ==> p < |files[fi]|)
    {
      ghost var fs := files[..eargc];
      fi, p := fi0, p0;
      assert Reads(fs, fi, p) && fi <= eargc;
      hide *;
      while fi < eargc && p == |files[fi]|
        invariant fi <= eargc && (fi < eargc ==> p <= |files[fi]|)
        invariant Reads(fs, fi, p) && Unread(fs, fi, p) == Unread(fs, fi0, p0)
        decreases eargc - fi
      {
        assert fs[fi] == files[fi];
        NextFile(fs, fi, p);
        fi, p := fi + 1, 0;
      }
    }

    /** Fill the core with lines of the input files: lp of them, fi and p is where
        reading goes on; done at the end of the last file. */
    method FillRun(fi0: nat, p0: nat) returns (lp: nat, fi: nat, p: nat, done: bool)
      requires eargc <= |files| && lspace.Length == nlines && nlines > 0 && ntext > 0 && Reads(files[..eargc], fi0, p0)
      modifies lspace
      ensures lp <= nlines && Plain(lspace[..], lp) && Reads(files[..eargc], fi, p)
      ensures Mass(lspace[..lp]) + Unread(files[..eargc], fi, p) == Unread(files[..eargc], fi0, p0)
      ensures if done then fi == eargc else lp > 0
    {
      hide *;
      ghost var fs := files[..eargc];
      assert lspace[..0] == [];
      lp, fi, p, done := 0, fi0, p0, false;
      var cp := 0;
      PlainNone(lspace[..]);
      while lp < nlines && cp < ntext
        invariant lp <= nlines && Plain(lspace[..], lp) && Reads(fs, fi, p) && cp >= 0 && (cp > 0 ==> lp > 0)
        invariant Mass(lspace[..lp]) + Unread(fs, fi, p) == Unread(fs, fi0, p0)
        decreases nlines - lp
      {
        fi, p := NextInput(fi, p);
        if fi == eargc {
          done := true;
          break;
        }
        ghost var was := lspace[..];
        var line := files[fi][p];
        lspace[lp] := Merg(line, []);
        cp := cp + |line| + 1;
        assert fs[fi] == files[fi];
        assert lspace[..] == was[lp := Merg(line, [])];
        assert lspace[..][..lp + 1] == lspace[..lp + 1] && was[..lp] == lspace[..lp];
        ReadOne(fs, fi, p, was, lspace[..], lp);
        lp, p := lp + 1, p + 1;
      }
    }

    /** Write the sorted lines, the last one first. */
    method WriteRun(lp0: nat) returns (run: seq<Line>)
      requires lp0 <= lspace.Length && Ordered(lspace[..], 0, lp0, k) && Plain(lspace[..], lp0)
      ensures InOrder(k, run) && multiset(run) == Mass(lspace[..lp0])
    {
      hide *;
      run := [];
      var lp: nat := lp0;
      ghost var s := lspace[..];
      while lp > 0
        invariant lp <= lp0 && run + Backwards(s, lp) == Backwards(s, lp0)
      {
        BackwardsStep(s, lp);
        lp := lp - 1;
        run := run + [lspace[lp].l];
      }
      NoneBackwards(s);
      assert run + [] == run;
      BackwardsInOrder(s, lp0, k);
      BackwardsMass(s, lp0);
      assert lspace[..][..lp0] == lspace[..lp0];
    }

    ghost predicate Ready()
    {
      nlines > 0 && ntext > 0 && lspace.Length == nlines && ibuf.Length == 256
    }

    /** Read the next lines and sort them: s is what was read. */
    method MakeRun(fi0: nat, p0: nat) returns (run: seq<Line>, fi: nat, p: nat, done: bool, ghost s: seq<Merg>)
      requires Ready() && eargc <= |files| && Reads(files[..eargc], fi0, p0)
      modifies lspace
      ensures Reads(files[..eargc], fi, p) && (if done then fi == eargc else s != [])
      ensures Mass(s) + Unread(files[..eargc], fi, p) == Unread(files[..eargc], fi0, p0)
      ensures InOrder(k, run) && multiset(run) == Mass(s)
    {
      assert nlines > 0 && ntext > 0 && lspace.Length == nlines;
      hide *;
      var lp: nat;
      lp, fi, p, done := FillRun(fi0, p0);
      ghost var t := lspace[..];
      s := t[..lp];
      assert s == lspace[..lp];
      ghost var nest := QSort(lspace, 0, lp, k);
      PlainShuffled(t, lspace[..], lp);
      run := WriteRun(lp);
      assert lspace[..][..lp] == lspace[..lp];
    }

    /** Make one run of the next lines: a new file, or the output if it is the only
        run. */
    method OneRun(ghost fs: seq<seq<Line>>, fi0: nat, p0: nat) returns (fi: nat, p: nat, done: bool)
      requires Ready() && !written && |files| >= eargc && files[..eargc] == fs
      requires Halfway(fs, files[eargc..], fi0, p0, k)
      modifies `files, `out, `written, lspace
      ensures |files| >= eargc && files[..eargc] == fs
      ensures if done then RunsMade(fs, files[eargc..], written, out, k)
        else !written && Halfway(fs, files[eargc..], fi, p, k) && |Unread(fs, fi, p)| < |Unread(fs, fi0, p0)|
    {
      hide *;
      ghost var runs := files[eargc..];
      HalfwayReads(fs, runs, fi0, p0, k);
      var run: seq<Line>;
      ghost var s: seq<Merg>;
      run, fi, p, done, s := MakeRun(fi0, p0);
      RunStep(fs, runs, run, fi0, p0, fi, p, s, done, k);
      if !done || |files| != eargc {
        OneFileMore(files, eargc, run);
        files := files + [run];
        if done {
          MadeWritten(fs, runs + [run], out, k);
        }
      } else {
        assert runs == [];
        out, written := run, true;
      }
    }

    /** Sort the input files into runs. */
    method SortRuns()
      requires Ready() && |files| == eargc && !written
      modifies `files, `out, `written, lspace
      ensures |files| >= eargc && RunsMade(old(files), files[eargc..], written, out, k)
    {
      hide *;
      ghost var fs := files;
      assert files[..eargc] == fs && files[eargc..] == [];
      var fi: nat, p: nat, done := 0, 0, false;
      SortBegins(fs, k);
      while !done
        invariant |files| >= eargc && files[..eargc] == fs
        invariant if done then RunsMade(fs, files[eargc..], written, out, k)
                  else !written && Halfway(fs, files[eargc..], fi, p, k)
        decreases if done then 0 else 1 + |Unread(fs, fi, p)|
      {
        fi, p, done := OneRun(fs, fi, p);
      }
    }

    /** Merge some of the files, from a on, into a new one behind them. */
    method MergeSome(ghost fs: seq<seq<Line>>, a: nat) returns (i: nat)
      requires Ready() && !written && a < |files| && RunsMade(fs, files[a..], false, out, k)
      modifies `files, ibuf
      ensures a < i < |files| == |old(files)| + 1 && i == (if a + N >= |old(files)| then |old(files)| else a + N)
      ensures RunsMade(fs, files[i..], false, out, k)
    {
      assert ibuf.Length == 256;
      i := a + N;
      if i >= |files| {
        i := |files|;
      }
      assert i - a <= N;
      ghost var runs := files[a..];
      SomeInOrder(fs, runs, files[a..i], i - a, out, k);
      hide *;
      var run := Merge(files[a..i]);
      MergeStep(fs, runs, files[a..i], i - a, run, out, k);
      OneFileMore(files, i, run);
      files := files + [run];
      assert runs[i - a..] == old(files)[i..];
    }

    /** The whole program: the output is the lines of all files, in order. */
    method Run(mflg: bool, unsafeout: bool)
      requires Ready() && eargc > 0 && |files| == eargc && !written && (mflg ==> AllInOrder(k, files))
      modifies `files, `out, `written, lspace, ibuf
      ensures written && InOrder(k, out) && multiset(out) == Lines(old(files))
      ensures !k.general && k.fields[0].rflg == 1 ==> Ascending(out)
    {
      ghost var fs := files;
      assert files[eargc..] == [] && files[0..] == files;
      assert mflg ==> RunsMade(fs, files[0..], false, out, k);
      hide AllInOrder, InOrder, Lines, RunsMade;
      if !mflg {
        SortRuns();
      }
      var a: nat := if mflg then 0 else eargc;
      Guard(fs, files[a..], written, out, k);
      while a + N < |files| || (unsafeout && a < eargc)
        invariant eargc <= |files| && a <= |files| && (written ==> a == |files|)
        invariant RunsMade(fs, files[a..], written, out, k)
        decreases 2 * (|files| - a) + if a < eargc then 1 else 0
      {
        a := MergeSome(fs, a);
        Guard(fs, files[a..], written, out, k);
      }
      Guard(fs, files[a..], written, out, k);
      if a != |files| {
        SomeInOrder(fs, files[a..], files[a..], |files| - a, out, k);
        out := Merge(files[a..]);
        written := true;
      }
      if !k.general && k.fields[0].rflg == 1 {
        PlainOutput(k, out);
      }
    }
  }

  /** Without options the output ascends. */
  lemma PlainOutput(k: Keys, out: seq<Line>)
    requires InOrder(k, out) && !k.general && k.fields[0].rflg == 1
    ensures Ascending(out)
  {
    hide Sign;
    AscendingIs(k, out);
  }

  /** Something is left to merge unless the output is written. */
  lemma Guard(fs: seq<seq<Line>>, runs: seq<seq<Line>>, written: bool, out: seq<Line>, k: Keys)
    requires RunsMade(fs, runs, written, out, k)
    ensures written <==> runs == []
    ensures written ==> InOrder(k, out) && multiset(out) == Lines(fs)
  {
  }

  lemma SomeInOrder(fs: seq<seq<Line>>, runs: seq<seq<Line>>, some: seq<seq<Line>>, n: nat, out: seq<Line>, k: Keys)
    requires RunsMade(fs, runs, false, out, k) && n <= |runs| && some == runs[..n]
    ensures AllInOrder(k, some) && (n == |runs| ==> Lines(some) == Lines(fs))
  {
    hide InOrder;
    assert n == |runs| ==> some == runs;
  }

  lemma MergeStep(fs: seq<seq<Line>>, runs: seq<seq<Line>>, some: seq<seq<Line>>, n: nat, run: seq<Line>,
                  out: seq<Line>, k: Keys)
    requires RunsMade(fs, runs, false, out, k) && n <= |runs| && some == runs[..n] && InOrder(k, run)
    requires multiset(run) == Lines(some)
    ensures RunsMade(fs, runs[n..] + [run], false, out, k)
  {
    hide InOrder, Lines;
    assert AllInOrder(k, runs[n..]);
    OneMore(k, runs[n..], run);
    hide AllInOrder;
    SameLines(runs, some, runs[n..], run);
  }

  /** Lines merged into one run are the lines they were. */
  lemma SameLines(runs: seq<seq<Line>>, some: seq<seq<Line>>, rest: seq<seq<Line>>, run: seq<Line>)
    requires runs == some + rest && multiset(run) == Lines(some)
    ensures Lines(rest + [run]) == Lines(runs)
  {
    hide *;
    LinesConcat(some, rest);
    LinesConcat(rest, [run]);
    LinesOne(run);
  }

  /** Where reading goes on. */
  ghost predicate Reads(fs: seq<seq<Line>>, fi: nat, p: nat) {
    fi <= |fs| && if fi < |fs| then p <= |fs[fi]| else p == 0
  }

  ghost function Unread(fs: seq<seq<Line>>, fi: nat, p: nat): multiset<Line>
    decreases |fs| - fi
  {
    if fi >= |fs| then multiset{}
    else multiset(if p <= |fs[fi]| then fs[fi][p..] else []) + Unread(fs, fi + 1, 0)
  }

  lemma {:induction false} UnreadLines(fs: seq<seq<Line>>, fi: nat)
    requires fi <= |fs|
    ensures Unread(fs, fi, 0) + Lines(fs[..fi]) == Lines(fs)
    decreases |fs| - fi
  {
    if fi == |fs| {
      assert fs[..fi] == fs;
    } else {
      UnreadLines(fs, fi + 1);
      assert fs[..fi + 1][..fi] == fs[..fi];
      assert fs[fi][0..] == fs[fi];
    }
  }

  lemma NextFile(fs: seq<seq<Line>>, fi: nat, p: nat)
    requires fi < |fs| && p == |fs[fi]|
    ensures Unread(fs, fi + 1, 0) == Unread(fs, fi, p) && Reads(fs, fi + 1, 0)
  {
    assert fs[fi][p..] == [];
  }

  /** Plain lines: records that have no file. */
  ghost predicate Plain(s: seq<Merg>, i: nat) {
    i <= |s| && forall x :: 0 <= x < i ==> s[x].b == []
  }

  lemma PlainNone(s: seq<Merg>)
    ensures Plain(s, 0) && Mass([]) == multiset{}
  {
  }

  lemma PlainShuffled(s: seq<Merg>, t: seq<Merg>, i: nat)
    requires Plain(s, i) && Shuffled(s, t, 0, i)
    ensures Plain(t, i) && Mass(t[..i]) == Mass(s[..i])
  {
    RangeSame(s, t, 0, i);
    forall x | 0 <= x < i
      ensures t[x].b == []
    {
      var y := Origin(s, 0, i, t[x]);
    }
    assert s[0..i] == s[..i] && t[0..i] == t[..i];
    MassSame(s[..i], t[..i]);
  }

  lemma ReadOne(fs: seq<seq<Line>>, fi: nat, p: nat, s: seq<Merg>, t: seq<Merg>, lp: nat)
    requires fi < |fs| && p < |fs[fi]| && lp < |s| && t == s[lp := Merg(fs[fi][p], [])] && Plain(s, lp)
    ensures Plain(t, lp + 1) && Reads(fs, fi, p + 1)
    ensures Mass(t[..lp + 1]) + Unread(fs, fi, p + 1) == Mass(s[..lp]) + Unread(fs, fi, p)
  {
    assert Plain(t, lp + 1) && Reads(fs, fi, p + 1);
    hide *;
    var m := Merg(fs[fi][p], []);
    assert t[..lp + 1] == s[..lp] + [m];
    MassConcat(s[..lp], [m]);
    MassOne(m);
    PlainPending(m);
    UnreadStep(fs, fi, p);
  }

  lemma PlainPending(m: Merg)
    requires m.b == []
    ensures Pending(m) == [m.l]
  {
  }

  lemma UnreadStep(fs: seq<seq<Line>>, fi: nat, p: nat)
    requires fi < |fs| && p < |fs[fi]|
    ensures Unread(fs, fi, p) == multiset([fs[fi][p]]) + Unread(fs, fi, p + 1)
  {
    assert fs[fi][p..] == [fs[fi][p]] + fs[fi][p + 1..];
  }

  /** The lines of the first lp records, the last one first. */
  function Backwards(s: seq<Merg>, lp: nat): seq<Line>
    requires lp <= |s|
  {
    if lp == 0 then [] else [s[lp - 1].l] + Backwards(s, lp - 1)
  }

  lemma {:induction false} BackwardsAt(s: seq<Merg>, lp: nat, i: nat)
    requires i < lp <= |s|
    ensures |Backwards(s, lp)| == lp && Backwards(s, lp)[i] == s[lp - 1 - i].l
  {
    if lp > 1 {
      BackwardsAt(s, lp - 1, if i > 0 then i - 1 else 0);
    }
  }

  /** What is written is in order. */
  lemma BackwardsInOrder(s: seq<Merg>, lp: nat, k: Keys)
    requires lp <= |s| && Ordered(s, 0, lp, k)
    ensures InOrder(k, Backwards(s, lp))
  {
    hide Sign, Backwards;
    var run := Backwards(s, lp);
    forall i, j | 0 <= i < j < |run|
      ensures Sign(k, run[i], run[j]) >= 0
    {
      if lp > 0 {
        BackwardsAt(s, lp, 0);
        BackwardsAt(s, lp, i);
        BackwardsAt(s, lp, j);
        SignOrder(k, run[i], run[j], run[j]);
        assert Order(k, s[lp - 1 - j], s[lp - 1 - i]) <= 0;
      } else {
        NoneBackwards(s);
      }
    }
  }

  lemma BackwardsStep(s: seq<Merg>, lp: nat)
    requires 0 < lp <= |s|
    ensures Backwards(s, lp) == [s[lp - 1].l] + Backwards(s, lp - 1)
  {
  }

  lemma NoneBackwards(s: seq<Merg>)
    ensures Backwards(s, 0) == []
  {
  }

  /** And nothing is lost. */
  lemma {:induction false} BackwardsMass(s: seq<Merg>, lp: nat)
    requires Plain(s, lp)
    ensures multiset(Backwards(s, lp)) == Mass(s[..lp])
  {
    hide *;
    PlainUpTo(s, lp);
    if lp > 0 {
      BackwardsStep(s, lp);
      BackwardsMass(s, lp - 1);
      PlainMass(s, lp, s[lp - 1]);
    } else {
      NoneBackwards(s);
      PlainNone(s);
      assert s[..0] == [];
    }
  }

  lemma PlainUpTo(s: seq<Merg>, lp: nat)
    requires Plain(s, lp)
    ensures lp <= |s| && (lp > 0 ==> Plain(s, lp - 1) && s[lp - 1].b == [])
  {
  }

  lemma PlainMass(s: seq<Merg>, lp: nat, m: Merg)
    requires 0 < lp <= |s| && m == s[lp - 1] && m.b == []
    ensures Mass(s[..lp]) == Mass(s[..lp - 1]) + multiset([m.l])
  {
    hide *;
    assert s[..lp] == s[..lp - 1] + [m];
    MassConcat(s[..lp - 1], [m]);
    MassOne(m);
    PlainPending(m);
  }

  /** The lines are in the runs and the input still to be read. */
  ghost predicate Halfway(fs: seq<seq<Line>>, runs: seq<seq<Line>>, fi: nat, p: nat, k: Keys) {
    Reads(fs, fi, p) && AllInOrder(k, runs) && Lines(runs) + Unread(fs, fi, p) == Lines(fs)
  }

  /** The lines are in the output, or in the runs. */
  ghost predicate RunsMade(fs: seq<seq<Line>>, runs: seq<seq<Line>>, written: bool, out: seq<Line>, k: Keys) {
    if written then runs == [] && InOrder(k, out) && multiset(out) == Lines(fs)
    else runs != [] && AllInOrder(k, runs) && Lines(runs) == Lines(fs)
  }

  lemma OneFileMore(files: seq<seq<Line>>, e: nat, run: seq<Line>)
    requires e <= |files|
    ensures (files + [run])[e..] == files[e..] + [run] && (files + [run])[..e] == files[..e]
  {
  }

  lemma MadeWritten(fs: seq<seq<Line>>, runs: seq<seq<Line>>, out: seq<Line>, k: Keys)
    requires RunsMade(fs, runs, false, [], k)
    ensures RunsMade(fs, runs, false, out, k)
  {
  }

  lemma HalfwayReads(fs: seq<seq<Line>>, runs: seq<seq<Line>>, fi: nat, p: nat, k: Keys)
    requires Halfway(fs, runs, fi, p, k)
    ensures Reads(fs, fi, p)
  {
  }

  lemma SortBegins(fs: seq<seq<Line>>, k: Keys)
    ensures Halfway(fs, [], 0, 0, k)
  {
    UnreadLines(fs, 0);
    assert fs[..0] == [];
  }

  /** One more run. */
  lemma RunStep(fs: seq<seq<Line>>, runs: seq<seq<Line>>, run: seq<Line>, fi0: nat, p0: nat, fi: nat, p: nat,
                s: seq<Merg>, done: bool, k: Keys)
    requires Halfway(fs, runs, fi0, p0, k) && Reads(fs, fi, p) && Mass(s) + Unread(fs, fi, p) == Unread(fs, fi0, p0)
    requires InOrder(k, run) && multiset(run) == Mass(s) && if done then fi == |fs| else s != []
    ensures !done ==> Halfway(fs, runs + [run], fi, p, k) && |Unread(fs, fi, p)| < |Unread(fs, fi0, p0)|
    ensures done ==> RunsMade(fs, runs + [run], false, [], k)
    ensures done && runs == [] ==> RunsMade(fs, [], true, run, k)
  {
    assert Reads(fs, fi0, p0) && AllInOrder(k, runs) && Lines(runs) + Unread(fs, fi0, p0) == Lines(fs);
    if !done {
      MassSize(s);
    }
    assert Lines([]) == multiset{} && (done ==> Unread(fs, fi, p) == multiset{});
    hide Reads, InOrder, AllInOrder, Lines, Mass, Unread;
    LinesConcat(runs, [run]);
    LinesOne(run);
    OneMore(k, runs, run);
    Sizes(Unread(fs, fi0, p0), Mass(s), Unread(fs, fi, p));
    Regroup(Lines(runs), Mass(s), Unread(fs, fi, p));
  }

  lemma OneMore(k: Keys, runs: seq<seq<Line>>, run: seq<Line>)
    requires AllInOrder(k, runs) && InOrder(k, run)
    ensures AllInOrder(k, runs + [run])
  {
    hide InOrder;
  }

  lemma Sizes(m: multiset<Line>, s: multiset<Line>, t: multiset<Line>)
    requires s + t == m
    ensures |m| == |s| + |t|
  {
  }

  lemma Regroup(m: multiset<Line>, s: multiset<Line>, t: multiset<Line>)
    ensures m + s + t == m + (s + t)
    ensures multiset{} + s == s && s + multiset{} == s && m + s + multiset{} == m + s
  {
  }

  lemma MassSize(s: seq<Merg>)
    requires s != []
    ensures |Mass(s)| >= 1
  {
    assert s == s[..|s| - 1] + [s[|s| - 1]];
    MassConcat(s[..|s| - 1], [s[|s| - 1]]);
    MassOne(s[|s| - 1]);
  }

  lemma NoFiles(s: seq<Merg>, k: Keys)
    ensures Readable(s, 0, k) && Mass([]) == Lines([])
  {
  }

  /** Opening one more file. */
  lemma OneFile(s: seq<Merg>, m: Merg, g: seq<seq<Line>>, f: seq<Line>)
    requires Mass(s) == Lines(g)
    ensures f == [] ==> Mass(s) == Lines(g + [f])
    ensures Pending(m) == f ==> Mass(s + [m]) == Lines(g + [f])
  {
    hide *;
    LinesConcat(g, [f]);
    LinesOne(f);
    MassConcat(s, [m]);
    MassOne(m);
    assert f == [] ==> multiset(f) == multiset{};
  }

  lemma OneFileReadable(s: seq<Merg>, j: nat, t: seq<Merg>, f: seq<Line>, k: Keys)
    requires j < |s| == |t| && t[..j] == s[..j] && InOrder(k, f) && Readable(s, j, k)
    requires f != [] ==> t[j] == Merg(f[0], f[1..])
    ensures Readable(t, j, k) && (f != [] ==> Readable(t, j + 1, k) && Pending(t[j]) == f)
  {
    hide InOrder;
    assert forall x :: 0 <= x < j ==> t[x] == s[..j][x];
    assert f != [] ==> Pending(t[j]) == f;
  }

  lemma MergeStarts(fs: seq<seq<Line>>, s: seq<Merg>, t: seq<Merg>, j: nat, k: Keys)
    requires Readable(s, j, k) && Mass(s[..j]) == Lines(fs) && Shuffled(s, t, 0, j) && Ordered(t, 0, j, k)
    ensures Merging(fs, [], t, j, k)
  {
    ReadableShuffled(s, t, j, k);
  }

  /** While a record is open not everything is written. */
  lemma MergeGoes(fs: seq<seq<Line>>, out: seq<Line>, s: seq<Merg>, i: nat, k: Keys)
    requires Merging(fs, out, s, i, k) && i > 0
    ensures |out| < |Lines(fs)|
  {
    hide InOrder, Readable, Ordered, Leads;
    WriteMass(out, s, i);
    assert |multiset(out + [s[i - 1].l])| == |out| + 1;
  }

  lemma SiftReady(fs: seq<seq<Line>>, out: seq<Line>, s: seq<Merg>, i: nat, n: nat, u: seq<Merg>, k: Keys)
    requires 0 < n <= i <= |s| && Merging(fs, out, s, i, k)
    requires if n < i then u == s else s[i - 1].b != [] && u == s[i - 1 := NextOf(s[i - 1])]
    ensures Ordered(u, 0, n - 1, k)
  {
    hide Order, Readable, Leads, InOrder, Mass;
  }

  lemma MergeShuffled(fs: seq<seq<Line>>, out: seq<Line>, s: seq<Merg>, t: seq<Merg>, i: nat, k: Keys)
    requires Merging(fs, out, s, i, k) && Shuffled(s, t, 0, i) && Ordered(t, 0, i, k)
    ensures Merging(fs, out, t, i, k)
  {
    hide Mass, Readable, Leads, InOrder;
    ReadableShuffled(s, t, i, k);
    LeadsShuffled(out, s, t, i, k);
  }

  lemma MergeEnds(fs: seq<seq<Line>>, out: seq<Line>, s: seq<Merg>, k: Keys)
    requires Merging(fs, out, s, 0, k)
    ensures InOrder(k, out) && multiset(out) == Lines(fs)
  {
    assert s[..0] == [];
  }

  lemma CompareIs(c: int, k: Keys, x: Merg, y: Merg)
    requires Sgn(c) == Sign(k, x.l, y.l)
    ensures c >= 0 <==> Order(k, x, y) >= 0
    ensures c < 0 <==> Order(k, x, y) < 0
  {
  }
}
