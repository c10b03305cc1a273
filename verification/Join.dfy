/** join: a merge of two sorted files that goes back over equal lines. */
module Join {
  import opened SortKeys
  import opened SortOrder

  /** A line split into fields; key is the one to join on. */
  datatype Rec = Rec(key: Line, fields: seq<Line>)

  /** What is printed: two lines joined, or a line without a partner. */
  datatype Out = Pair(a: Rec, b: Rec) | Left(a: Rec) | Right(b: Rec)

  /** strcmp of the join fields, which compares signed characters up to and with the
      null character at the end: that comes before those above it only. */
  function Comp(a: Rec, b: Rec): int {
    -Lex(Ended(a.key), Ended(b.key))
  }

  function Ended(s: Line): seq<int> { s + [0] }

  lemma EndedSame(s: Line, t: Line)
    ensures Ended(s) == Ended(t) <==> s == t
  {
    if Ended(s) == Ended(t) {
      assert s == Ended(s)[..|s|] && t == Ended(t)[..|t|];
    }
  }

  /** The first difference is at d, and there s is smaller. */
  ghost predicate SmallerAt(s: seq<int>, t: seq<int>, d: int) {
    0 <= d < |s| && d < |t| && s[..d] == t[..d] && s[d] < t[d]
  }

  /** A key comes before another without a null character if it is smaller where they
      first differ, up to and with the null character that ends them. */
  lemma CompIs(a: Rec, b: Rec)
    requires 0 !in b.key
    ensures Comp(a, b) < 0 <==> exists d :: SmallerAt(a.key + [0], b.key + [0], d)
  {
    var s, t := Ended(a.key), Ended(b.key);
    LexIs(s, t);
    hide Lex;
    assert s[|a.key|] == 0 && forall x :: 0 <= x < |b.key| ==> t[x] == b.key[x] && t[x] != 0;
    if d :| DiffersAt(s, t, d) {
      assert forall x :: 0 <= x < d ==> s[x] == s[..d][x] == t[..d][x] == t[x];
      assert SmallerAt(s, t, d);
    }
    if d :| SmallerAt(s, t, d) {
      assert DiffersAt(s, t, d);
    }
  }

  ghost predicate Sorted(f: seq<Rec>) {
    forall x, y :: 0 <= x <= y < |f| ==> Comp(f[x], f[y]) <= 0
  }

  ghost predicate NonBlank(f: seq<Rec>) {
    forall x :: 0 <= x < |f| ==> f[x].fields != []
  }

  lemma CompOrder(a: Rec, b: Rec, c: Rec)
    ensures Comp(a, b) == 0 <==> a.key == b.key
    ensures Comp(a, b) == -Comp(b, a)
    ensures Comp(a, b) <= 0 && Comp(b, c) <= 0 ==> Comp(a, c) <= 0
    ensures Comp(a, b) < 0 && Comp(b, c) <= 0 ==> Comp(a, c) < 0
    ensures Comp(a, b) <= 0 && Comp(b, c) < 0 ==> Comp(a, c) < 0
  {
    hide Lex, Ended;
    EndedSame(a.key, b.key);
    var x, y, z := Ended(a.key), Ended(b.key), Ended(c.key);
    LexAnti(x, y);
    LexAnti(y, z);
    LexAnti(x, z);
    if Comp(a, b) <= 0 && Comp(b, c) <= 0 {
      LexTrans(x, y, z);
      if Comp(a, c) == 0 {
        LexTrans(z, x, y);
        LexTrans(y, z, x);
      }
    }
  }

  // The join: for each line of the first file the lines of the second that match.

  function Row(a: Rec, f2: seq<Rec>): seq<Out> {
    if f2 == [] then []
    else Row(a, f2[..|f2| - 1]) + if a.key == f2[|f2| - 1].key then [Pair(a, f2[|f2| - 1])] else []
  }

  function NestedLoop(f1: seq<Rec>, f2: seq<Rec>): seq<Out> {
    if f1 == [] then [] else NestedLoop(f1[..|f1| - 1], f2) + Row(f1[|f1| - 1], f2)
  }

  ghost predicate HasPartner(a: Rec, f: seq<Rec>) {
    exists y :: 0 <= y < |f| && a.key == f[y].key
  }

  /** The lines of f that have no partner in g, in their order. */
  ghost function Alone(f: seq<Rec>, g: seq<Rec>): seq<Rec> {
    if f == [] then []
    else Alone(f[..|f| - 1], g) + if HasPartner(f[|f| - 1], g) then [] else [f[|f| - 1]]
  }

  /** As often as a line of the first file meets one of the second with its key, so
      often the pair is printed. */
  lemma {:induction false} PairsCount(f1: seq<Rec>, f2: seq<Rec>, a: Rec, b: Rec)
    ensures multiset(NestedLoop(f1, f2))[Pair(a, b)] ==
      if a.key == b.key then multiset(f1)[a] * multiset(f2)[b] else 0
  {
    hide Row;
    if f1 != [] {
      var before, c := f1[..|f1| - 1], f1[|f1| - 1];
      PairsCount(before, f2, a, b);
      RowCount(c, f2, a, b);
      assert f1 == before + [c];
      assert multiset(f1)[a] == multiset(before)[a] + if a == c then 1 else 0;
      OneMoreTimes(multiset(before)[a], multiset(f2)[b]);
      assert multiset(NestedLoop(before, f2) + Row(c, f2)) == multiset(NestedLoop(before, f2)) + multiset(Row(c, f2));
    }
  }

  lemma OneMoreTimes(m: nat, n: nat)
    ensures (m + 1) * n == m * n + n
  {
  }

  lemma {:induction false} RowCount(c: Rec, f2: seq<Rec>, a: Rec, b: Rec)
    ensures multiset(Row(c, f2))[Pair(a, b)] == if a == c && a.key == b.key then multiset(f2)[b] else 0
  {
    if f2 != [] {
      var before, d := f2[..|f2| - 1], f2[|f2| - 1];
      RowCount(c, before, a, b);
      assert f2 == before + [d];
      assert multiset(f2)[b] == multiset(before)[b] + if b == d then 1 else 0;
      var last := if c.key == d.key then [Pair(c, d)] else [];
      assert multiset(Row(c, before) + last) == multiset(Row(c, before)) + multiset(last);
    }
  }

  /** The pairs are in the order of the lines of the first file, and for one of those in
      the order of the lines of the second. */
  lemma PairsOrder(f1: seq<Rec>, f2: seq<Rec>, x: nat, y: nat) returns (i: nat, j: nat, i': nat, j': nat)
    requires x < y < |NestedLoop(f1, f2)|
    ensures i < |f1| && j < |f2| && NestedLoop(f1, f2)[x] == Pair(f1[i], f2[j])
    ensures i' < |f1| && j' < |f2| && NestedLoop(f1, f2)[y] == Pair(f1[i'], f2[j'])
    ensures i < i' || (i == i' && j < j')
  {
    i', j' := PairAt(f1, f2, y);
    var before, row := NestedLoop(f1[..i'], f2), Row(f1[i'], f2[..j']);
    assert NestedLoop(f1, f2)[x] == (before + row)[x];
    if x < |before| {
      i, j := PairAt(f1[..i'], f2, x);
    } else {
      i := i';
      j := RowAt(f1[i'], f2[..j'], x - |before|);
    }
  }

  lemma {:induction false} PairAt(f1: seq<Rec>, f2: seq<Rec>, x: nat) returns (i: nat, j: nat)
    requires x < |NestedLoop(f1, f2)|
    ensures i < |f1| && j < |f2| && NestedLoop(f1, f2)[x] == Pair(f1[i], f2[j])
    ensures NestedLoop(f1, f2)[..x] == NestedLoop(f1[..i], f2) + Row(f1[i], f2[..j])
  {
    var n := |f1| - 1;
    var before := NestedLoop(f1[..n], f2);
    hide NestedLoop, Row;
    if x < |before| {
      i, j := PairAt(f1[..n], f2, x);
      assert f1[..n][..i] == f1[..i];
    } else {
      i := n;
      j := RowAt(f1[n], f2, x - |before|);
    }
  }

  lemma {:induction false} RowAt(a: Rec, f2: seq<Rec>, x: nat) returns (j: nat)
    requires x < |Row(a, f2)|
    ensures j < |f2| && Row(a, f2)[x] == Pair(a, f2[j]) && Row(a, f2)[..x] == Row(a, f2[..j])
  {
    var n := |f2| - 1;
    if x < |Row(a, f2[..n])| {
      j := RowAt(a, f2[..n], x);
      assert f2[..n][..j] == f2[..j];
    } else {
      j := n;
    }
  }

  // The three kinds of lines in an output.

  function Pairs(o: seq<Out>): seq<Out> {
    if o == [] then [] else Pairs(o[..|o| - 1]) + if o[|o| - 1].Pair? then [o[|o| - 1]] else []
  }

  function Lefts(o: seq<Out>): seq<Rec> {
    if o == [] then [] else Lefts(o[..|o| - 1]) + if o[|o| - 1].Left? then [o[|o| - 1].a] else []
  }

  function Rights(o: seq<Out>): seq<Rec> {
    if o == [] then [] else Rights(o[..|o| - 1]) + if o[|o| - 1].Right? then [o[|o| - 1].b] else []
  }

  lemma Written(o: seq<Out>, x: Out)
    ensures Pairs(o + [x]) == Pairs(o) + if x.Pair? then [x] else []
    ensures Lefts(o + [x]) == Lefts(o) + if x.Left? then [x.a] else []
    ensures Rights(o + [x]) == Rights(o) + if x.Right? then [x.b] else []
  {
    assert (o + [x])[..|o|] == o;
  }

  // The merge.

  /** The first i lines of f1 and the first j of f2 are done with: whatever is left
      sorts after what is done in the other file. */
  ghost predicate Apart(f1: seq<Rec>, i: nat, f2: seq<Rec>, j: nat) {
    && i <= |f1| && j <= |f2|
    && (forall x, y :: i <= x < |f1| && 0 <= y < j ==> Comp(f1[x], f2[y]) > 0)
    && forall x, y :: 0 <= x < i && j <= y < |f2| ==> Comp(f1[x], f2[y]) < 0
  }

  /** What is printed for the lines done with, kind by kind. */
  ghost predicate Kinds(o: seq<Out>, f1: seq<Rec>, i: nat, f2: seq<Rec>, j: nat, aflg: int) {
    && Apart(f1, i, f2, j)
    && Pairs(o) == NestedLoop(f1[..i], f2)
    && Lefts(o) == (if aflg % 2 == 1 then Alone(f1[..i], f2) else [])
    && Rights(o) == if aflg >= 2 then Alone(f2[..j], f1) else []
  }

  lemma TakeOne<T>(f: seq<T>, i: nat)
    requires i < |f|
    ensures f[..i + 1][..i] == f[..i] && f[..i + 1][i] == f[i] && |f[..i + 1]| == i + 1
  {
  }

  lemma {:induction false} RowNone(a: Rec, f2: seq<Rec>)
    requires !HasPartner(a, f2)
    ensures Row(a, f2) == []
  {
    if f2 != [] {
      var init := f2[..|f2| - 1];
      assert forall y :: 0 <= y < |init| ==> init[y] == f2[y];
      RowNone(a, init);
    }
  }

  /** The next line of the second file sorts before what is left of the first. */
  lemma RightKinds(o: seq<Out>, f1: seq<Rec>, i: nat, f2: seq<Rec>, j: nat, aflg: int)
    requires Kinds(o, f1, i, f2, j, aflg) && Sorted(f1) && Sorted(f2) && j < |f2|
    requires i < |f1| ==> Comp(f1[i], f2[j]) > 0
    ensures Kinds(if aflg >= 2 then o + [Right(f2[j])] else o, f1, i, f2, j + 1, aflg)
  {
    RightPassed(f1, i, f2, j);
    AloneNext(f2, j, f1);
    hide HasPartner, Apart, Sorted, Comp, Row, Alone, NestedLoop, Pairs, Lefts, Rights;
    Written(o, Right(f2[j]));
  }

  lemma RightPassed(f1: seq<Rec>, i: nat, f2: seq<Rec>, j: nat)
    requires Apart(f1, i, f2, j) && Sorted(f1) && Sorted(f2) && j < |f2| && (i < |f1| ==> Comp(f1[i], f2[j]) > 0)
    ensures Apart(f1, i, f2, j + 1) && !HasPartner(f2[j], f1)
  {
    hide Comp;
    forall x | i <= x < |f1|
      ensures Comp(f1[x], f2[j]) > 0
    {
      CompOrder(f2[j], f1[i], f1[x]);
      CompOrder(f2[j], f1[x], f1[x]);
    }
    forall x | 0 <= x < |f1|
      ensures f1[x].key != f2[j].key
    {
      CompOrder(f1[x], f2[j], f2[j]);
    }
  }

  lemma LeftKinds(o: seq<Out>, f1: seq<Rec>, i: nat, f2: seq<Rec>, j: nat, aflg: int)
    requires Kinds(o, f1, i, f2, j, aflg) && Sorted(f1) && Sorted(f2) && i < |f1|
    requires j < |f2| ==> Comp(f1[i], f2[j]) < 0
    ensures Kinds(if aflg % 2 == 1 then o + [Left(f1[i])] else o, f1, i + 1, f2, j, aflg)
  {
    LeftPassed(f1, i, f2, j);
    AloneNext(f1, i, f2);
    NestedNext(f1, i, f2);
    RowNone(f1[i], f2);
    hide HasPartner, Apart, Sorted, Comp, Row, Alone, NestedLoop, Pairs, Lefts, Rights;
    Written(o, Left(f1[i]));
    assert NestedLoop(f1[..i + 1], f2) == NestedLoop(f1[..i], f2);
  }

  lemma LeftPassed(f1: seq<Rec>, i: nat, f2: seq<Rec>, j: nat)
    requires Apart(f1, i, f2, j) && Sorted(f1) && Sorted(f2) && i < |f1| && (j < |f2| ==> Comp(f1[i], f2[j]) < 0)
    ensures Apart(f1, i + 1, f2, j) && !HasPartner(f1[i], f2)
  {
    hide Comp;
    forall y | j <= y < |f2|
      ensures Comp(f1[i], f2[y]) < 0
    {
      CompOrder(f1[i], f2[j], f2[y]);
    }
    forall y | 0 <= y < |f2|
      ensures f1[i].key != f2[y].key
    {
      CompOrder(f1[i], f2[y], f2[y]);
    }
  }

  lemma AloneNext(f: seq<Rec>, i: nat, g: seq<Rec>)
    requires i < |f| && !HasPartner(f[i], g)
    ensures Alone(f[..i + 1], g) == Alone(f[..i], g) + [f[i]]
  {
    TakeOne(f, i);
    hide HasPartner;
  }

  // Equal lines: lines i0 to i of f1 and b to e of f2 have one key.

  ghost predicate Group(f1: seq<Rec>, i0: nat, i: nat, f2: seq<Rec>, b: nat, e: nat) {
    && Apart(f1, i0, f2, b) && i0 <= i <= |f1| && b < e <= |f2|
    && (forall x :: i0 <= x < i ==> f1[x].key == f2[b].key)
    && (forall y :: b <= y < e ==> f2[y].key == f2[b].key)
  }

  ghost predicate Ends(f2: seq<Rec>, b: nat, e: nat) {
    b < e <= |f2| && (e < |f2| ==> Comp(f2[b], f2[e]) < 0)
  }

  /** The pairs of line i with the lines up to q. */
  function Begun(f1: seq<Rec>, i: nat, f2: seq<Rec>, q: nat): seq<Out>
    requires q <= |f2|
  {
    if i < |f1| then Row(f1[i], f2[..q]) else []
  }

  /** What is printed inside a group: all pairs of the lines before i, and those of
      line i up to q; nothing without a partner. */
  ghost predicate GroupKinds(o: seq<Out>, f1: seq<Rec>, i0: nat, i: nat, f2: seq<Rec>, b: nat, q: nat, aflg: int) {
    && i0 <= i <= |f1| && b <= q <= |f2|
    && Pairs(o) == NestedLoop(f1[..i], f2) + Begun(f1, i, f2, q)
    && Lefts(o) == (if aflg % 2 == 1 then Alone(f1[..i0], f2) else [])
    && Rights(o) == if aflg >= 2 then Alone(f2[..b], f1) else []
  }

  lemma {:induction false} RowRest(a: Rec, f2: seq<Rec>, e: nat, n: nat)
    requires e <= n <= |f2| && forall y :: e <= y < n ==> a.key != f2[y].key
    ensures Row(a, f2[..n]) == Row(a, f2[..e])
    decreases n
  {
    if e < n {
      TakeOne(f2, n - 1);
      RowRest(a, f2, e, n - 1);
    }
  }

  lemma {:induction false} AloneSame(f: seq<Rec>, g: seq<Rec>, i: nat, n: nat)
    requires i <= n <= |f| && forall x :: i <= x < n ==> HasPartner(f[x], g)
    ensures Alone(f[..n], g) == Alone(f[..i], g)
    decreases n
  {
    if i < n {
      TakeOne(f, n - 1);
      AloneSame(f, g, i, n - 1);
    }
  }

  /** Line i has no pairs before the group. */
  lemma NothingBegun(f1: seq<Rec>, i0: nat, i: nat, f2: seq<Rec>, b: nat)
    requires Apart(f1, i0, f2, b) && i0 <= i
    ensures Begun(f1, i, f2, b) == []
  {
    hide Comp;
    if i < |f1| {
      forall y | 0 <= y < b
        ensures f1[i].key != f2[y].key
      {
        CompOrder(f1[i], f2[y], f2[y]);
      }
      RowRest(f1[i], f2, 0, b);
      assert f2[..0] == [];
    }
  }

  lemma GroupStartsKinds(o: seq<Out>, f1: seq<Rec>, i: nat, f2: seq<Rec>, b: nat, aflg: int)
    requires Kinds(o, f1, i, f2, b, aflg) && i < |f1| && b < |f2| && Comp(f1[i], f2[b]) == 0
    ensures GroupKinds(o, f1, i, i, f2, b, b, aflg) && Group(f1, i, i, f2, b, b + 1)
  {
    hide Comp, NestedLoop, Alone, Pairs, Lefts, Rights;
    NothingBegun(f1, i, i, f2, b);
  }

  lemma RowNext(a: Rec, f2: seq<Rec>, q: nat)
    requires q < |f2| && a.key == f2[q].key
    ensures Row(a, f2[..q + 1]) == Row(a, f2[..q]) + [Pair(a, f2[q])]
  {
    TakeOne(f2, q);
  }

  /** One more pair. */
  lemma PairKinds(o: seq<Out>, f1: seq<Rec>, i0: nat, i: nat, f2: seq<Rec>, b: nat, q: nat, aflg: int)
    requires GroupKinds(o, f1, i0, i, f2, b, q, aflg) && i < |f1| && q < |f2| && f1[i].key == f2[q].key
    ensures GroupKinds(o + [Pair(f1[i], f2[q])], f1, i0, i, f2, b, q + 1, aflg)
  {
    hide NestedLoop, Alone, Pairs, Lefts, Rights, Row;
    RowNext(f1[i], f2, q);
    Written(o, Pair(f1[i], f2[q]));
    Associate(NestedLoop(f1[..i], f2), Row(f1[i], f2[..q]), [Pair(f1[i], f2[q])]);
  }

  lemma Associate(s: seq<Out>, t: seq<Out>, u: seq<Out>)
    ensures s + (t + u) == s + t + u
  {
  }

  lemma RowDone(a: Rec, f2: seq<Rec>, b: nat, e: nat)
    requires Sorted(f2) && Ends(f2, b, e) && a.key == f2[b].key
    ensures Row(a, f2[..e]) == Row(a, f2)
  {
    hide Comp, Row;
    forall y | e <= y < |f2|
      ensures a.key != f2[y].key
    {
      CompOrder(f2[b], f2[e], f2[y]);
      CompOrder(f2[b], f2[y], f2[y]);
    }
    RowRest(a, f2, e, |f2|);
    assert f2[..|f2|] == f2;
  }

  lemma NestedNext(f1: seq<Rec>, i: nat, f2: seq<Rec>)
    requires i < |f1|
    ensures NestedLoop(f1[..i + 1], f2) == NestedLoop(f1[..i], f2) + Row(f1[i], f2)
  {
    TakeOne(f1, i);
    hide Row;
  }

  /** At the end of the group line i has all its pairs: go back, and on to the next
      line. */
  lemma GoBackKinds(o: seq<Out>, f1: seq<Rec>, i0: nat, i: nat, f2: seq<Rec>, b: nat, e: nat, aflg: int)
    requires Sorted(f2) && Group(f1, i0, i, f2, b, e) && Ends(f2, b, e) && i < |f1| && f1[i].key == f2[b].key
    requires GroupKinds(o, f1, i0, i, f2, b, e, aflg)
    ensures Group(f1, i0, i + 1, f2, b, e) && GroupKinds(o, f1, i0, i + 1, f2, b, b, aflg)
  {
    hide NestedLoop, Alone, Pairs, Lefts, Rights, Row, Sorted, Comp, Apart, Ends;
    RowDone(f1[i], f2, b, e);
    NestedNext(f1, i, f2);
    NothingBegun(f1, i0, i + 1, f2, b);
    assert NestedLoop(f1[..i + 1], f2) + [] == NestedLoop(f1[..i + 1], f2);
  }

  /** The next line of f1 is past the group. */
  lemma GroupEndsKinds(o: seq<Out>, f1: seq<Rec>, i0: nat, i: nat, f2: seq<Rec>, b: nat, e: nat, aflg: int)
    requires Sorted(f1) && Sorted(f2) && Group(f1, i0, i, f2, b, e) && Ends(f2, b, e) && i0 < i
    requires GroupKinds(o, f1, i0, i, f2, b, b, aflg) && (i < |f1| ==> Comp(f1[i], f2[b]) > 0)
    ensures Kinds(o, f1, i, f2, e, aflg)
  {
    hide *;
    GroupBounds(f1, i0, i, f2, b, e);
    GroupPartners(f1, i0, i, f2, b, e);
    GroupApart(f1, i0, i, f2, b, e);
    NothingBegun(f1, i0, i, f2, b);
    AloneSame(f1, f2, i0, i);
    AloneSame(f2, f1, b, e);
    AllKinds(o, f1, i0, i, f2, b, e, aflg);
  }

  lemma GroupBounds(f1: seq<Rec>, i0: nat, i: nat, f2: seq<Rec>, b: nat, e: nat)
    requires Group(f1, i0, i, f2, b, e)
    ensures Apart(f1, i0, f2, b) && i0 <= i <= |f1| && b < e <= |f2|
  {
    hide Apart;
  }

  lemma AllKinds(o: seq<Out>, f1: seq<Rec>, i0: nat, i: nat, f2: seq<Rec>, b: nat, e: nat, aflg: int)
    requires GroupKinds(o, f1, i0, i, f2, b, b, aflg) && Apart(f1, i, f2, e) && b <= e <= |f2|
    requires Begun(f1, i, f2, b) == []
    requires Alone(f1[..i], f2) == Alone(f1[..i0], f2) && Alone(f2[..e], f1) == Alone(f2[..b], f1)
    ensures Kinds(o, f1, i, f2, e, aflg)
  {
    hide NestedLoop, Alone, Pairs, Lefts, Rights, Begun, Apart;
  }

  lemma GroupPartners(f1: seq<Rec>, i0: nat, i: nat, f2: seq<Rec>, b: nat, e: nat)
    requires Group(f1, i0, i, f2, b, e) && i0 < i
    ensures forall x :: i0 <= x < i ==> HasPartner(f1[x], f2)
    ensures forall y :: b <= y < e ==> HasPartner(f2[y], f1)
  {
    hide Apart;
    forall x | i0 <= x < i
      ensures HasPartner(f1[x], f2)
    {
      assert f1[x].key == f2[b].key;
    }
    forall y | b <= y < e
      ensures HasPartner(f2[y], f1)
    {
      assert f2[y].key == f1[i0].key;
    }
  }

  lemma GroupApart(f1: seq<Rec>, i0: nat, i: nat, f2: seq<Rec>, b: nat, e: nat)
    requires Sorted(f1) && Sorted(f2) && Group(f1, i0, i, f2, b, e) && Ends(f2, b, e)
    requires i < |f1| ==> Comp(f1[i], f2[b]) > 0
    ensures Apart(f1, i, f2, e)
  {
    hide Comp;
    forall x, y | i <= x < |f1| && 0 <= y < e
      ensures Comp(f1[x], f2[y]) > 0
    {
      if y >= b {
        CompOrder(f2[b], f1[i], f1[x]);
        CompOrder(f2[y], f2[b], f1[x]);
        CompOrder(f1[x], f2[y], f2[y]);
      }
    }
    forall x, y | 0 <= x < i && e <= y < |f2|
      ensures Comp(f1[x], f2[y]) < 0
    {
      if x >= i0 {
        CompOrder(f2[b], f2[e], f2[y]);
        CompOrder(f1[x], f2[b], f2[y]);
      }
    }
  }

  // The kinds together: everything is printed in the order of the join field.

  /** The line that an output line is sorted by. */
  function KeyOf(x: Out): Rec {
    match x
    case Pair(a, b) => a
    case Left(a) => a
    case Right(b) => b
  }

  ghost predicate OutSorted(o: seq<Out>) {
    forall x, y :: 0 <= x <= y < |o| ==> Comp(KeyOf(o[x]), KeyOf(o[y])) <= 0
  }

  /** Nothing printed sorts after the line a. */
  ghost predicate UpTo(o: seq<Out>, a: Rec) {
    OutSorted(o) && forall x :: 0 <= x < |o| ==> Comp(KeyOf(o[x]), a) <= 0
  }

  ghost predicate InStep(o: seq<Out>, f1: seq<Rec>, i: nat, f2: seq<Rec>, j: nat) {
    OutSorted(o) && (i < |f1| ==> UpTo(o, f1[i])) && (j < |f2| ==> UpTo(o, f2[j]))
  }

  /** What is printed for the lines done with. */
  ghost predicate Printed(o: seq<Out>, f1: seq<Rec>, i: nat, f2: seq<Rec>, j: nat, aflg: int) {
    Kinds(o, f1, i, f2, j, aflg) && InStep(o, f1, i, f2, j)
  }

  /** What is printed inside a group. */
  ghost predicate Pairing(o: seq<Out>, f1: seq<Rec>, i0: nat, i: nat, f2: seq<Rec>, b: nat, q: nat, aflg: int) {
    GroupKinds(o, f1, i0, i, f2, b, q, aflg) && b < |f2| && UpTo(o, f2[b])
  }

  lemma UpToNext(o: seq<Out>, x: Out, a: Rec)
    requires UpTo(o, KeyOf(x)) && Comp(KeyOf(x), a) == 0
    ensures UpTo(o + [x], KeyOf(x)) && UpTo(o + [x], a)
  {
    hide Comp, KeyOf;
    CompOrder(KeyOf(x), KeyOf(x), KeyOf(x));
    var n := o + [x];
    forall y | 0 <= y < |n|
      ensures Comp(KeyOf(n[y]), KeyOf(x)) <= 0 && Comp(KeyOf(n[y]), a) <= 0
    {
      CompOrder(KeyOf(n[y]), KeyOf(x), a);
    }
  }

  lemma UpToMore(o: seq<Out>, a: Rec, b: Rec)
    requires UpTo(o, a) && Comp(a, b) <= 0
    ensures UpTo(o, b)
  {
    hide Comp, KeyOf;
    forall x | 0 <= x < |o|
      ensures Comp(KeyOf(o[x]), b) <= 0
    {
      CompOrder(KeyOf(o[x]), a, b);
    }
  }

  lemma Follows(f: seq<Rec>, i: nat)
    requires Sorted(f) && i < |f|
    ensures i + 1 < |f| ==> Comp(f[i], f[i + 1]) <= 0
    ensures Comp(f[i], f[i]) == 0
  {
    CompOrder(f[i], f[i], f[i]);
    hide Comp;
  }

  /** The next line of the second file sorts before what is left of the first. */
  lemma RightAlone(o: seq<Out>, f1: seq<Rec>, i: nat, f2: seq<Rec>, j: nat, aflg: int)
    requires Printed(o, f1, i, f2, j, aflg) && Sorted(f1) && Sorted(f2) && j < |f2|
    requires i < |f1| ==> Comp(f1[i], f2[j]) > 0
    ensures Printed(if aflg >= 2 then o + [Right(f2[j])] else o, f1, i, f2, j + 1, aflg)
  {
    hide *;
    PrintedParts(o, f1, i, f2, j, aflg);
    RightKinds(o, f1, i, f2, j, aflg);
    Follows(f2, j);
    if i < |f1| {
      CompOrder(f1[i], f2[j], f2[j]);
    }
    Keys(f2[j], f2[j]);
    var n := if aflg >= 2 then o + [Right(f2[j])] else o;
    StepOn(o, n, Right(f2[j]), f1, i, f2, j + 1);
    PrintedIs(n, f1, i, f2, j + 1, aflg);
  }

  lemma Keys(a: Rec, b: Rec)
    ensures KeyOf(Pair(a, b)) == a && KeyOf(Left(a)) == a && KeyOf(Right(b)) == b
  {
  }

  lemma PrintedParts(o: seq<Out>, f1: seq<Rec>, i: nat, f2: seq<Rec>, j: nat, aflg: int)
    requires Printed(o, f1, i, f2, j, aflg)
    ensures Kinds(o, f1, i, f2, j, aflg) && (i < |f1| ==> UpTo(o, f1[i])) && (j < |f2| ==> UpTo(o, f2[j]))
  {
    hide Kinds, UpTo, OutSorted;
  }

  lemma PrintedIs(o: seq<Out>, f1: seq<Rec>, i: nat, f2: seq<Rec>, j: nat, aflg: int)
    requires Kinds(o, f1, i, f2, j, aflg) && InStep(o, f1, i, f2, j)
    ensures Printed(o, f1, i, f2, j, aflg)
  {
    hide Kinds, InStep;
  }

  /** The next line of the first file sorts before what is left of the second. */
  lemma LeftAlone(o: seq<Out>, f1: seq<Rec>, i: nat, f2: seq<Rec>, j: nat, aflg: int)
    requires Printed(o, f1, i, f2, j, aflg) && Sorted(f1) && Sorted(f2) && i < |f1|
    requires j < |f2| ==> Comp(f1[i], f2[j]) < 0
    ensures Printed(if aflg % 2 == 1 then o + [Left(f1[i])] else o, f1, i + 1, f2, j, aflg)
  {
    hide *;
    PrintedParts(o, f1, i, f2, j, aflg);
    LeftKinds(o, f1, i, f2, j, aflg);
    Follows(f1, i);
    Keys(f1[i], f1[i]);
    var n := if aflg % 2 == 1 then o + [Left(f1[i])] else o;
    StepOn(o, n, Left(f1[i]), f1, i + 1, f2, j);
    PrintedIs(n, f1, i + 1, f2, j, aflg);
  }

  /** A line passed over, printed or not. */
  lemma StepOn(o: seq<Out>, n: seq<Out>, x: Out, f1: seq<Rec>, i: nat, f2: seq<Rec>, j: nat)
    requires UpTo(o, KeyOf(x)) && (n == o || n == o + [x]) && Comp(KeyOf(x), KeyOf(x)) == 0
    requires (i < |f1| ==> Comp(KeyOf(x), f1[i]) <= 0) && (j < |f2| ==> Comp(KeyOf(x), f2[j]) <= 0)
    ensures InStep(n, f1, i, f2, j)
  {
    UpToNext(o, x, KeyOf(x));
    UpToSorted(n, KeyOf(x));
    hide Comp, UpTo, OutSorted;
    if i < |f1| {
      UpToMore(n, KeyOf(x), f1[i]);
    }
    if j < |f2| {
      UpToMore(n, KeyOf(x), f2[j]);
    }
  }

  lemma UpToSorted(o: seq<Out>, a: Rec)
    requires UpTo(o, a)
    ensures OutSorted(o)
  {
  }

  lemma GroupStarts(o: seq<Out>, f1: seq<Rec>, i: nat, f2: seq<Rec>, b: nat, aflg: int)
    requires Printed(o, f1, i, f2, b, aflg) && i < |f1| && b < |f2| && Comp(f1[i], f2[b]) == 0
    ensures Pairing(o, f1, i, i, f2, b, b, aflg) && Group(f1, i, i, f2, b, b + 1)
  {
    hide UpTo, OutSorted;
    GroupStartsKinds(o, f1, i, f2, b, aflg);
    hide Kinds, GroupKinds, Comp;
  }

  /** One more pair. */
  lemma PairOne(o: seq<Out>, f1: seq<Rec>, i0: nat, i: nat, f2: seq<Rec>, b: nat, q: nat, aflg: int)
    requires Pairing(o, f1, i0, i, f2, b, q, aflg) && i < |f1| && q < |f2| && f1[i].key == f2[q].key == f2[b].key
    ensures Pairing(o + [Pair(f1[i], f2[q])], f1, i0, i, f2, b, q + 1, aflg)
  {
    PairKinds(o, f1, i0, i, f2, b, q, aflg);
    CompOrder(f1[i], f2[b], f2[b]);
    hide GroupKinds, Comp, UpTo;
    UpToMore(o, f2[b], f1[i]);
    UpToNext(o, Pair(f1[i], f2[q]), f2[b]);
  }

  /** At the end of the group line i has all its pairs: go back, and on to the next
      line. */
  lemma GoBack(o: seq<Out>, f1: seq<Rec>, i0: nat, i: nat, f2: seq<Rec>, b: nat, e: nat, aflg: int)
    requires Sorted(f2) && Group(f1, i0, i, f2, b, e) && Ends(f2, b, e) && i < |f1| && f1[i].key == f2[b].key
    requires Pairing(o, f1, i0, i, f2, b, e, aflg)
    ensures Group(f1, i0, i + 1, f2, b, e) && Pairing(o, f1, i0, i + 1, f2, b, b, aflg)
  {
    hide UpTo, Sorted, Group, Ends, GroupKinds;
    GoBackKinds(o, f1, i0, i, f2, b, e, aflg);
  }

  /** The next line of f1 is past the group. */
  lemma GroupEnds(o: seq<Out>, f1: seq<Rec>, i0: nat, i: nat, f2: seq<Rec>, b: nat, e: nat, aflg: int)
    requires Sorted(f1) && Sorted(f2) && Group(f1, i0, i, f2, b, e) && Ends(f2, b, e) && i0 < i
    requires Pairing(o, f1, i0, i, f2, b, b, aflg) && (i < |f1| ==> Comp(f1[i], f2[b]) > 0)
    ensures Printed(o, f1, i, f2, e, aflg)
  {
    GroupEndsKinds(o, f1, i0, i, f2, b, e, aflg);
    CompOrder(f2[b], f2[b], f2[b]);
    UpToSorted(o, f2[b]);
    if i < |f1| {
      CompOrder(f1[i], f2[b], f2[b]);
    }
    hide UpTo, Sorted, Group, GroupKinds, Kinds, Comp, OutSorted;
    if i < |f1| {
      UpToMore(o, f2[b], f1[i]);
    }
    if e < |f2| {
      UpToMore(o, f2[b], f2[e]);
    }
  }

  lemma PrintedStarts(f1: seq<Rec>, f2: seq<Rec>, aflg: int)
    ensures Printed([], f1, 0, f2, 0, aflg)
  {
    KindsStart(f1, f2, aflg);
    hide Kinds;
  }

  /** The output of a join, in the order of the join field: the nested-loop join,
      and the lines without a partner that -a asks for. */
  ghost predicate IsJoin(o: seq<Out>, f1: seq<Rec>, f2: seq<Rec>, aflg: int) {
    && OutSorted(o) && Pairs(o) == NestedLoop(f1, f2)
    && Lefts(o) == (if aflg % 2 == 1 then Alone(f1, f2) else [])
    && Rights(o) == if aflg >= 2 then Alone(f2, f1) else []
  }

  lemma PrintedEnds(o: seq<Out>, f1: seq<Rec>, i: nat, f2: seq<Rec>, j: nat, aflg: int)
    requires Printed(o, f1, i, f2, j, aflg) && (i == |f1| || j == |f2|) && 0 <= aflg <= 3
    requires aflg != 0 ==> i == |f1| && j == |f2|
    ensures IsJoin(o, f1, f2, aflg)
  {
    KindsEnd(o, f1, i, f2, j, aflg);
    hide Kinds, OutSorted, UpTo;
  }

  class Joiner {
    const f1: seq<Rec>
    const f2: seq<Rec>
    const aflg: int

    /** The places in the files, the lines at hand, and how many fields they have:
        0 at the end of the file. */
    var at1: nat
    var at2: nat
    var l1: Rec
    var l2: Rec
    var n1: nat
    var n2: nat
    var out: seq<Out>

    constructor (f1: seq<Rec>, f2: seq<Rec>, aflg: int)
      ensures this.f1 == f1 && this.f2 == f2 && this.aflg == aflg && at1 == at2 == 0 && out == []
    {
      this.f1, this.f2, this.aflg := f1, f2, aflg;
      at1, at2, l1, l2, n1, n2, out := 0, 0, Rec([], []), Rec([], []), 0, 0, [];
    }

    ghost predicate Input()
    {
      Sorted(f1) && Sorted(f2) && NonBlank(f1) && NonBlank(f2) && 0 <= aflg <= 3
    }

    /** Line i of the first file is at hand, or its end. */
    ghost predicate Hand1(i: nat)
      reads `at1, `l1, `n1
    {
      i <= |f1| && if i < |f1| then at1 == i + 1 && l1 == f1[i] && n1 == |l1.fields| > 0 else at1 == |f1| && n1 == 0
    }

    ghost predicate Hand2(j: nat)
      reads `at2, `l2, `n2
    {
      j <= |f2| && if j < |f2| then at2 == j + 1 && l2 == f2[j] && n2 == |l2.fields| > 0 else at2 == |f2| && n2 == 0
    }

    method Get1()
      requires at1 <= |f1| && NonBlank(f1)
      modifies `at1, `l1, `n1
      ensures Hand1(old(at1))
    {
      if at1 < |f1| {
        l1 := f1[at1];
        n1 := |l1.fields|;
        at1 := at1 + 1;
      } else {
        n1 := 0;
      }
    }

    method Get2()
      requires at2 <= |f2| && NonBlank(f2)
      modifies `at2, `l2, `n2
      ensures Hand2(old(at2))
    {
      if at2 < |f2| {
        l2 := f2[at2];
        n2 := |l2.fields|;
        at2 := at2 + 1;
      } else {
        n2 := 0;
      }
    }

    /** Print a pair, and go on in the second file. */
    method PrintPair(ghost i0: nat, ghost i: nat, ghost b: nat, ghost q: nat)
      requires NonBlank(f2) && Hand1(i) && Hand2(q) && i < |f1| && q < |f2|
      requires b < |f2| && f1[i].key == f2[q].key == f2[b].key
      requires Pairing(out, f1, i0, i, f2, b, q, aflg)
      modifies `at2, `l2, `n2, `out
      ensures Hand2(q + 1) && Pairing(out, f1, i0, i, f2, b, q + 1, aflg)
    {
      hide Pairing, NonBlank;
      PairOne(out, f1, i0, i, f2, b, q, aflg);
      out := out + [Pair(l1, l2)];
      Get2();
    }

    /** Go back in the second file, and on in the first. */
    method Rewind(ghost i: nat, bot2: nat)
      requires NonBlank(f1) && NonBlank(f2) && Hand1(i) && i < |f1| && bot2 <= |f2|
      modifies `at1, `l1, `n1, `at2, `l2, `n2
      ensures Hand1(i + 1) && Hand2(bot2)
    {
      hide NonBlank;
      at2 := bot2;
      Get2();
      Get1();
    }

    /** A group of lines with the same join field. */
    method JoinGroup(ghost i0: nat, bot2: nat) returns (ghost i: nat, top2: nat)
      requires Input() && Hand1(i0) && Hand2(bot2) && i0 < |f1| && bot2 < |f2| && Comp(l1, l2) == 0
      requires Printed(out, f1, i0, f2, bot2, aflg)
      modifies `at1, `l1, `n1, `at2, `l2, `n2, `out
      ensures i0 < i && bot2 < top2 && Hand1(i) && Hand2(top2) && Printed(out, f1, i, f2, top2, aflg)
    {
      hide Comp, Sorted, Apart, Printed, Pairing;
      GroupStarts(out, f1, i0, f2, bot2, aflg);
      ghost var q: nat := bot2;
      top2 := bot2;
      while n2 > 0 && Comp(l1, l2) == 0
        invariant Hand1(i0) && Hand2(q) && bot2 <= q && top2 == q
        invariant q == bot2 ==> n2 > 0 && Comp(l1, l2) == 0
        invariant Pairing(out, f1, i0, i0, f2, bot2, q, aflg)
        invariant Group(f1, i0, i0, f2, bot2, if q == bot2 then q + 1 else q)
        decreases |f2| - q
      {
        GroupGrows(f1, i0, f2, bot2, q);
        top2 := at2;
        PrintPair(i0, i0, bot2, q);
        q := q + 1;
      }
      GroupFull(f1, i0, f2, bot2, q);
      GoBack(out, f1, i0, i0, f2, bot2, q, aflg);
      Rewind(i0, bot2);
      i := GroupRest(i0, bot2, top2);
    }

    /** Inside a group with line i of the first file and q of the second at hand. */
    ghost predicate InGroup(i0: nat, i: nat, b: nat, e: nat, q: nat)
      reads `at1, `l1, `n1, `at2, `l2, `n2, `out
    {
      && i0 < i && Hand1(i) && Hand2(q) && b <= q <= e && b < e <= |f2| && Ends(f2, b, e)
      && Pairing(out, f1, i0, i, f2, b, q, aflg) && Group(f1, i0, i, f2, b, e)
      && (q > b ==> i < |f1| && f1[i].key == f2[b].key)
    }

    /** One step inside a group: a pair, the end of a row, or the end of the group. */
    method GroupStep(ghost i0: nat, ghost i: nat, bot2: nat, top2: nat, ghost q: nat)
      returns (ghost n: nat, ghost r: nat, done: bool)
      requires Input() && InGroup(i0, i, bot2, top2, q)
      modifies `at1, `l1, `n1, `at2, `l2, `n2, `out
      ensures if done then i0 < n && Hand1(n) && Hand2(top2) && Printed(out, f1, n, f2, top2, aflg)
        else InGroup(i0, n, bot2, top2, r) && ((n == i + 1 && i < |f1|) || (n == i && r == q + 1))
    {
      hide Comp, Sorted, Printed, Pairing, NonBlank, Group, Ends;
      n, r, done := i, q, false;
      Inside(f1, i0, i, f2, bot2, top2, q);
      if n1 > 0 && n2 > 0 && Comp(l1, l2) == 0 {
        PrintPair(i0, i, bot2, q);
        r := q + 1;
      } else if (n1 > 0 && n2 > 0 && Comp(l1, l2) < 0) || n2 == 0 {
        GoBack(out, f1, i0, i, f2, bot2, q, aflg);
        Rewind(i, bot2);
        n, r := i + 1, bot2;
      } else {
        GroupEnds(out, f1, i0, i, f2, bot2, top2, aflg);
        at2 := top2;
        Get2();
        done := true;
      }
    }

    /** The other lines of the first file in the group, each with all of the second. */
    method GroupRest(ghost i0: nat, bot2: nat, top2: nat) returns (ghost i: nat)
      requires Input() && InGroup(i0, i0 + 1, bot2, top2, bot2)
      modifies `at1, `l1, `n1, `at2, `l2, `n2, `out
      ensures i0 < i && Hand1(i) && Hand2(top2) && Printed(out, f1, i, f2, top2, aflg)
    {
      var done := false;
      ghost var q: nat := bot2;
      i := i0 + 1;
      while !done
        invariant if done then i0 < i && Hand1(i) && Hand2(top2) && Printed(out, f1, i, f2, top2, aflg)
                  else InGroup(i0, i, bot2, top2, q)
        decreases !done, |f1| - i, top2 - q
      {
        InGroupBounds(i0, i, bot2, top2, q);
        hide InGroup, Printed, Input;
        i, q, done := GroupStep(i0, i, bot2, top2, q);
        if !done {
          InGroupBounds(i0, i, bot2, top2, q);
        }
      }
    }

    lemma InGroupBounds(i0: nat, i: nat, b: nat, e: nat, q: nat)
      requires InGroup(i0, i, b, e, q)
      ensures i <= |f1| && q <= e
    {
    }

    /** The whole merge. */
    method Run()
      requires Input() && at1 == at2 == 0 && out == []
      modifies this
      ensures IsJoin(out, f1, f2, aflg)
    {
      hide Comp, Sorted, Printed;
      Get1();
      var bot2 := at2;
      Get2();
      ghost var i: nat := 0;
      PrintedStarts(f1, f2, aflg);
      while (n1 > 0 && n2 > 0) || (aflg != 0 && n1 + n2 > 0)
        invariant Hand1(i) && Hand2(bot2) && Printed(out, f1, i, f2, bot2, aflg)
        decreases |f1| - i + |f2| - bot2
      {
        if (n1 > 0 && n2 > 0 && Comp(l1, l2) > 0) || n1 == 0 {
          RightAlone(out, f1, i, f2, bot2, aflg);
          if aflg >= 2 {
            out := out + [Right(l2)];
          }
          bot2 := at2;
          Get2();
        } else if (n1 > 0 && n2 > 0 && Comp(l1, l2) < 0) || n2 == 0 {
          LeftAlone(out, f1, i, f2, bot2, aflg);
          if aflg % 2 == 1 {
            out := out + [Left(l1)];
          }
          Get1();
          i := i + 1;
        } else {
          i, bot2 := JoinGroup(i, bot2);
        }
      }
      PrintedEnds(out, f1, i, f2, bot2, aflg);
    }
  }

  lemma GroupGrows(f1: seq<Rec>, i: nat, f2: seq<Rec>, b: nat, q: nat)
    requires Group(f1, i, i, f2, b, if q == b then q + 1 else q) && q < |f2| && i < |f1|
    requires Comp(f1[i], f2[b]) == 0 && Comp(f1[i], f2[q]) == 0
    ensures Group(f1, i, i, f2, b, q + 1) && f1[i].key == f2[q].key
  {
    CompOrder(f1[i], f2[b], f2[b]);
    CompOrder(f1[i], f2[q], f2[q]);
  }

  /** The group is all lines with its key. */
  lemma GroupFull(f1: seq<Rec>, i: nat, f2: seq<Rec>, b: nat, q: nat)
    requires Sorted(f2) && b < q && Group(f1, i, i, f2, b, q) && i < |f1| && Comp(f1[i], f2[b]) == 0
    requires q < |f2| ==> Comp(f1[i], f2[q]) != 0
    ensures Ends(f2, b, q) && f1[i].key == f2[b].key
  {
    hide Comp;
    CompOrder(f1[i], f2[b], f2[b]);
    if q < |f2| {
      CompOrder(f1[i], f2[q], f2[q]);
      CompOrder(f2[b], f2[q], f2[q]);
    }
  }

  /** What a comparison inside the group means. */
  lemma Inside(f1: seq<Rec>, i0: nat, i: nat, f2: seq<Rec>, b: nat, e: nat, q: nat)
    requires Sorted(f1) && Group(f1, i0, i, f2, b, e) && Ends(f2, b, e) && i0 < i && b <= q <= e
    requires q > b ==> i < |f1| && f1[i].key == f2[b].key
    ensures i < |f1| && q < |f2| && Comp(f1[i], f2[q]) == 0 ==> q < e && f1[i].key == f2[q].key == f2[b].key
    ensures i < |f1| && q < |f2| && Comp(f1[i], f2[q]) < 0 ==> q == e && f1[i].key == f2[b].key
    ensures q == |f2| ==> q == e && i < |f1| && f1[i].key == f2[b].key
    ensures q < |f2| && (i < |f1| ==> Comp(f1[i], f2[q]) > 0) ==> q == b
  {
    hide Comp, Sorted;
    if i < |f1| && q < e {
      Below(f1, i0, i, f2, b, e, q);
      CompOrder(f1[i], f2[q], f2[q]);
    } else if i < |f1| && e < |f2| {
      CompOrder(f1[i], f2[b], f2[e]);
    }
  }

  /** The first file never lies before the group again. */
  lemma Below(f1: seq<Rec>, i0: nat, i: nat, f2: seq<Rec>, b: nat, e: nat, q: nat)
    requires Sorted(f1) && Group(f1, i0, i, f2, b, e) && i0 < i < |f1| && b <= q < e
    ensures Comp(f1[i], f2[q]) >= 0
  {
    hide Comp, Apart;
    assert f2[q].key == f2[b].key == f1[i0].key && Comp(f1[i0], f1[i]) <= 0;
    CompOrder(f2[q], f1[i0], f1[i]);
    CompOrder(f1[i], f2[q], f2[q]);
  }

  lemma KindsStart(f1: seq<Rec>, f2: seq<Rec>, aflg: int)
    ensures Kinds([], f1, 0, f2, 0, aflg)
  {
    assert f1[..0] == [] && f2[..0] == [];
  }

  lemma {:induction false} NestedRest(f1: seq<Rec>, f2: seq<Rec>, i: nat, n: nat)
    requires i <= n <= |f1| && forall x :: i <= x < n ==> !HasPartner(f1[x], f2)
    ensures NestedLoop(f1[..n], f2) == NestedLoop(f1[..i], f2)
    decreases n
  {
    if i < n {
      TakeOne(f1, n - 1);
      NestedRest(f1, f2, i, n - 1);
      RowNone(f1[n - 1], f2);
    }
  }

  lemma KindsEnd(o: seq<Out>, f1: seq<Rec>, i: nat, f2: seq<Rec>, j: nat, aflg: int)
    requires Kinds(o, f1, i, f2, j, aflg) && (i == |f1| || j == |f2|) && 0 <= aflg <= 3
    requires aflg != 0 ==> i == |f1| && j == |f2|
    ensures Pairs(o) == NestedLoop(f1, f2)
    ensures Lefts(o) == if aflg % 2 == 1 then Alone(f1, f2) else []
    ensures Rights(o) == if aflg >= 2 then Alone(f2, f1) else []
  {
    hide NestedLoop, Alone, Pairs, Lefts, Rights, Comp;
    NoPartnersLeft(f1, i, f2, j);
    hide HasPartner;
    NestedRest(f1, f2, i, |f1|);
    assert f1[..|f1|] == f1 && f2[..|f2|] == f2;
  }

  lemma NoPartnersLeft(f1: seq<Rec>, i: nat, f2: seq<Rec>, j: nat)
    requires Apart(f1, i, f2, j) && (i == |f1| || j == |f2|)
    ensures forall x :: i <= x < |f1| ==> !HasPartner(f1[x], f2)
  {
    hide Comp;
    forall x | i <= x < |f1|
      ensures !HasPartner(f1[x], f2)
    {
      forall y | 0 <= y < |f2|
        ensures f1[x].key != f2[y].key
      {
        CompOrder(f1[x], f2[y], f2[y]);
      }
    }
  }

  // There is only one such output.

  /** What an output line can be: a pair has a key of both files, the others only of
      their own. */
  ghost predicate Proper(x: Out, f1: seq<Rec>, f2: seq<Rec>) {
    match x
    case Pair(a, b) => HasPartner(a, f1) && HasPartner(a, f2)
    case Left(a) => HasPartner(a, f1) && !HasPartner(a, f2)
    case Right(b) => HasPartner(b, f2) && !HasPartner(b, f1)
  }

  lemma SamePartner(a: Rec, b: Rec, f: seq<Rec>)
    requires a.key == b.key
    ensures HasPartner(a, f) <==> HasPartner(b, f)
  {
  }

  /** Lines with the same key are of the same kind. */
  lemma SameKind(x: Out, y: Out, f1: seq<Rec>, f2: seq<Rec>)
    requires Proper(x, f1, f2) && Proper(y, f1, f2) && KeyOf(x).key == KeyOf(y).key
    ensures x.Pair? == y.Pair? && x.Left? == y.Left? && x.Right? == y.Right?
  {
    SamePartner(KeyOf(x), KeyOf(y), f1);
    SamePartner(KeyOf(x), KeyOf(y), f2);
    hide HasPartner;
  }

  /** The kinds hold all lines. */
  lemma {:induction false} InKinds(o: seq<Out>, x: Out)
    ensures x in o <==>
      match x {
        case Pair(_, _) => x in Pairs(o)
        case Left(a) => a in Lefts(o)
        case Right(b) => b in Rights(o)
      }
  {
    if o != [] {
      InKinds(o[..|o| - 1], x);
      assert o == o[..|o| - 1] + [o[|o| - 1]];
    }
  }

  lemma {:induction false} RowProper(a: Rec, f1: seq<Rec>, f2: seq<Rec>, x: Out)
    requires x in Row(a, f2) && HasPartner(a, f1)
    ensures Proper(x, f1, f2)
  {
    assert f2[..|f2|] == f2;
    var y := RowHas(a, f2, |f2|, x);
  }

  lemma {:induction false} RowHas(a: Rec, f2: seq<Rec>, n: nat, x: Out) returns (y: nat)
    requires n <= |f2| && x in Row(a, f2[..n])
    ensures y < n && x == Pair(a, f2[y]) && a.key == f2[y].key
    decreases n
  {
    assert f2[..0] == [];
    assert n > 0;
    TakeOne(f2, n - 1);
    if x in Row(a, f2[..n - 1]) {
      y := RowHas(a, f2, n - 1, x);
    } else {
      y := n - 1;
    }
  }

  lemma {:induction false} NestedProper(f1: seq<Rec>, f2: seq<Rec>, n: nat, x: Out)
    requires n <= |f1| && x in NestedLoop(f1[..n], f2)
    ensures Proper(x, f1, f2)
    decreases n
  {
    assert f1[..0] == [];
    assert n > 0;
    TakeOne(f1, n - 1);
    if x in NestedLoop(f1[..n - 1], f2) {
      NestedProper(f1, f2, n - 1, x);
    } else {
      RowProper(f1[n - 1], f1, f2, x);
    }
    hide Row, Proper;
  }

  lemma {:induction false} AloneProper(f: seq<Rec>, g: seq<Rec>, n: nat, a: Rec)
    requires n <= |f| && a in Alone(f[..n], g)
    ensures HasPartner(a, f) && !HasPartner(a, g)
    decreases n
  {
    assert f[..0] == [];
    assert n > 0;
    TakeOne(f, n - 1);
    if a in Alone(f[..n - 1], g) {
      AloneProper(f, g, n - 1, a);
    } else {
      assert a == f[n - 1];
    }
  }

  lemma AllProper(o: seq<Out>, f1: seq<Rec>, f2: seq<Rec>, aflg: int, x: Out)
    requires IsJoin(o, f1, f2, aflg) && x in o
    ensures Proper(x, f1, f2)
  {
    InKinds(o, x);
    assert f1[..|f1|] == f1 && f2[..|f2|] == f2;
    hide OutSorted, NestedLoop, Alone, HasPartner;
    match x {
      case Pair(_, _) => NestedProper(f1, f2, |f1|, x);
      case Left(a) => AloneProper(f1, f2, |f1|, a);
      case Right(b) => AloneProper(f2, f1, |f2|, b);
    }
  }

  /** Two sorted outputs of proper lines, the same kind by kind. */
  ghost predicate Twins(o: seq<Out>, q: seq<Out>, f1: seq<Rec>, f2: seq<Rec>) {
    && OutSorted(o) && OutSorted(q) && Pairs(o) == Pairs(q) && Lefts(o) == Lefts(q) && Rights(o) == Rights(q)
    && (forall x :: x in o ==> Proper(x, f1, f2)) && forall x :: x in q ==> Proper(x, f1, f2)
  }

  /** The last line of one is in the other, so it does not sort after its last. */
  lemma LastBefore(o: seq<Out>, q: seq<Out>, f1: seq<Rec>, f2: seq<Rec>)
    requires Twins(o, q, f1, f2) && o != []
    ensures q != [] && Comp(KeyOf(o[|o| - 1]), KeyOf(q[|q| - 1])) <= 0
  {
    var x := o[|o| - 1];
    assert x in o;
    InKinds(o, x);
    InKinds(q, x);
    hide Comp, KeyOf, Pairs, Lefts, Rights;
    var y :| 0 <= y < |q| && q[y] == x;
  }

  lemma {:induction false} TwinsSame(o: seq<Out>, q: seq<Out>, f1: seq<Rec>, f2: seq<Rec>)
    requires Twins(o, q, f1, f2)
    ensures o == q
    decreases |o|
  {
    if o == [] {
      if q != [] {
        TwinsSwap(o, q, f1, f2);
        LastBefore(q, o, f1, f2);
      }
    } else {
      LastSame(o, q, f1, f2);
      var x, o', q' := o[|o| - 1], o[..|o| - 1], q[..|q| - 1];
      assert o == o' + [x] && q == q' + [x];
      TwinsLess(o', q', x, f1, f2);
      TwinsSame(o', q', f1, f2);
    }
  }

  lemma TwinsSwap(o: seq<Out>, q: seq<Out>, f1: seq<Rec>, f2: seq<Rec>)
    requires Twins(o, q, f1, f2)
    ensures Twins(q, o, f1, f2)
  {
    hide OutSorted, Pairs, Lefts, Rights, Proper;
  }

  lemma LastSame(o: seq<Out>, q: seq<Out>, f1: seq<Rec>, f2: seq<Rec>)
    requires Twins(o, q, f1, f2) && o != []
    ensures q != [] && o[|o| - 1] == q[|q| - 1]
  {
    LastBefore(o, q, f1, f2);
    TwinsSwap(o, q, f1, f2);
    LastBefore(q, o, f1, f2);
    var x, y := o[|o| - 1], q[|q| - 1];
    CompOrder(KeyOf(x), KeyOf(y), KeyOf(y));
    assert x in o && y in q;
    hide Comp, OutSorted, Proper;
    SameKind(x, y, f1, f2);
    LastKind(o);
    LastKind(q);
  }

  /** The last line is the last of its kind. */
  lemma LastKind(o: seq<Out>)
    requires o != []
    ensures match o[|o| - 1] {
      case Pair(_, _) => Pairs(o) != [] && Pairs(o)[|Pairs(o)| - 1] == o[|o| - 1]
      case Left(a) => Lefts(o) != [] && Lefts(o)[|Lefts(o)| - 1] == a
      case Right(b) => Rights(o) != [] && Rights(o)[|Rights(o)| - 1] == b
    }
  {
  }

  lemma TwinsLess(o: seq<Out>, q: seq<Out>, x: Out, f1: seq<Rec>, f2: seq<Rec>)
    requires Twins(o + [x], q + [x], f1, f2)
    ensures Twins(o, q, f1, f2)
  {
    Written(o, x);
    Written(q, x);
    SortedLess(o, x);
    SortedLess(q, x);
    assert forall y :: y in o ==> y in o + [x];
    assert forall y :: y in q ==> y in q + [x];
    hide OutSorted, Pairs, Lefts, Rights, Proper;
    Unappend(Pairs(o), Pairs(q), x);
    Unappend(Lefts(o), Lefts(q), if x.Left? then x.a else KeyOf(x));
    Unappend(Rights(o), Rights(q), if x.Right? then x.b else KeyOf(x));
  }

  lemma Unappend<T>(s: seq<T>, t: seq<T>, x: T)
    ensures s + [x] == t + [x] ==> s == t
    ensures s + [] == s && t + [] == t
  {
    if s + [x] == t + [x] {
      assert s == (s + [x])[..|s + [x]| - 1] == (t + [x])[..|t + [x]| - 1] == t;
    }
  }

  lemma SortedLess(o: seq<Out>, x: Out)
    requires OutSorted(o + [x])
    ensures OutSorted(o)
  {
    hide Comp, KeyOf;
    assert forall y :: 0 <= y < |o| ==> (o + [x])[y] == o[y];
  }

  /** The output of a join is determined by the files and the flags. */
  lemma JoinUnique(o: seq<Out>, q: seq<Out>, f1: seq<Rec>, f2: seq<Rec>, aflg: int)
    requires IsJoin(o, f1, f2, aflg) && IsJoin(q, f1, f2, aflg)
    ensures o == q
  {
    forall x | x in o
      ensures Proper(x, f1, f2)
    {
      AllProper(o, f1, f2, aflg, x);
    }
    forall x | x in q
      ensures Proper(x, f1, f2)
    {
      AllProper(q, f1, f2, aflg, x);
    }
    hide OutSorted, Proper;
    TwinsSame(o, q, f1, f2);
  }
}
