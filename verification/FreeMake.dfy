/** fsck phase 6: the order in which makefree puts blocks back. */
module FreeMake {
  import opened Disk
  import opened Numbers

  /** The slots 0..n-1. */
  function Slots(n: nat): (s: set<nat>)
    ensures |s| == n && forall v: nat :: v in s <==> v < n
  {
    if n == 0 then {} else Slots(n - 1) + {n - 1}
  }

  /** The first slot at or after i, going round, that is left; n bounds the slots
      tried. */
  function FirstFree(i: nat, left: set<nat>, cyl: nat, n: nat): nat
    requires cyl > 0
    decreases n
  {
    if n == 0 || i in left then i else FirstFree((i + 1) % cyl, left, cyl, n - 1)
  }

  /** The addresses of the slots left, each step slots after the one before it,
      or in the next slot that is left. */
  function Spread(step: nat, cyl: nat, i: nat, left: set<nat>): seq<int>
    requires cyl > 0
    decreases |left|
  {
    var s := FirstFree(i, left, cyl, cyl);
    if s !in left then [] else [s + 1] + Spread(step, cyl, (s + step) % cyl, left - {s})
  }

  lemma SpreadStep(step: nat, cyl: nat, i: nat, left: set<nat>, u: nat)
    requires i < cyl && u in left && u < cyl
    ensures var s := FirstFree(i, left, cyl, cyl);
      s in left && Spread(step, cyl, i, left) == [s + 1] + Spread(step, cyl, (s + step) % cyl, left - {s})
  {
    FindsFree(i, left, cyl, cyl, u);
  }

  lemma SpreadNone(step: nat, cyl: nat, i: nat, left: set<nat>)
    requires cyl > 0 && |left| == 0
    ensures Spread(step, cyl, i, left) == []
  {
  }

  /** How many steps round from i to u. */
  function Distance(i: nat, u: nat, cyl: nat): int {
    if i <= u then u - i else u + cyl - i
  }

  lemma Wrap(i: nat, cyl: nat)
    requires i < cyl
    ensures (i + 1) % cyl == if i + 1 == cyl then 0 else i + 1
  {
  }

  lemma {:induction false} FindsFree(i: nat, left: set<nat>, cyl: nat, n: nat, u: nat)
    requires i < cyl && u < cyl && u in left && Distance(i, u, cyl) < n
    ensures FirstFree(i, left, cyl, n) in left
    decreases n
  {
    if i !in left {
      Wrap(i, cyl);
      FindsFree((i + 1) % cyl, left, cyl, n - 1, u);
    }
  }

  /** a is the address of a slot that is left. */
  predicate Address(a: int, left: set<nat>) {
    a >= 1 && a - 1 in left
  }

  lemma AddressStep(left: set<nat>, s: nat)
    requires s in left
    ensures forall a: int :: Address(a, left) <==> a == s + 1 || Address(a, left - {s})
    ensures !Address(s + 1, left - {s})
  {
  }

  /** Spread takes exactly the slots that were left, each once. */
  lemma {:induction false} SpreadIsPermutation(step: nat, cyl: nat, i: nat, left: set<nat>)
    requires i < cyl && forall v :: v in left ==> v < cyl
    ensures |Spread(step, cyl, i, left)| == |left|
    ensures forall a: int :: a in Spread(step, cyl, i, left) <==> Address(a, left)
    ensures Once(multiset(Spread(step, cyl, i, left)))
    decreases |left|
  {
    hide Address;
    if left != {} {
      hide Spread, FirstFree, Distance, Once;
      var u :| u in left;
      var s := FirstFree(i, left, cyl, cyl);
      var rest := Spread(step, cyl, (s + step) % cyl, left - {s});
      SpreadStep(step, cyl, i, left, u);
      SpreadIsPermutation(step, cyl, (s + step) % cyl, left - {s});
      OnceSingle(s + 1);
      AddressStep(left, s);
      OnceConcat([s + 1], rest);
    } else {
      NoAddress();
    }
  }

  lemma NoAddress()
    ensures forall a: int :: !Address(a, {})
  {
  }

  /** From slot i on and round, s is the first of the slots left. */
  ghost predicate FirstLeft(i: int, left: set<nat>, cyl: int, s: int) {
    && 0 <= s < cyl && s in left
    && if i <= s then forall u: nat :: i <= u < s ==> u !in left
       else (forall u: nat :: i <= u < cyl ==> u !in left) && forall u: nat :: u < s ==> u !in left
  }

  lemma {:induction false} FreeIsFirst(i: nat, left: set<nat>, cyl: nat, n: nat, u: nat)
    requires i < cyl && u < cyl && u in left && Distance(i, u, cyl) < n && forall v :: v in left ==> v < cyl
    ensures FirstLeft(i, left, cyl, FirstFree(i, left, cyl, n))
    decreases n
  {
    if i !in left {
      Wrap(i, cyl);
      FreeIsFirst((i + 1) % cyl, left, cyl, n - 1, u);
    }
  }

  /** The slots left when those of some addresses are taken. */
  ghost function LeftBy(left: set<nat>, taken: seq<int>): set<nat> {
    set v | v in left && v + 1 !in taken
  }

  /** Each slot taken is the first one left from step slots behind the one before. */
  lemma {:induction false} SpreadSteps(step: nat, cyl: nat, i: nat, left: set<nat>, n: nat)
    requires i < cyl && n < |left| && forall v :: v in left ==> v < cyl
    ensures StepAt(step, cyl, i, left, Spread(step, cyl, i, left), n)
    decreases n
  {
    var s := SpreadFirst(step, cyl, i, left);
    var next, from := left - {s}, (s + step) % cyl;
    var sp, rest := Spread(step, cyl, i, left), Spread(step, cyl, from, next);
    hide *;
    if n == 0 {
      FirstStep(step, cyl, i, left, s, rest, sp);
    } else {
      SpreadSteps(step, cyl, from, next, n - 1);
      LaterStep(step, cyl, i, left, s, rest, sp, n);
    }
  }

  /** The n-th slot taken is the first one left from step slots behind the one before. */
  ghost predicate StepAt(step: nat, cyl: nat, i: nat, left: set<nat>, sp: seq<int>, n: nat)
    requires cyl > 0
  {
    n < |sp| &&
    FirstLeft(if n == 0 then i else (sp[n - 1] - 1 + step) % cyl, LeftBy(left, sp[..n]), cyl, sp[n] - 1)
  }

  lemma FirstStep(step: nat, cyl: nat, i: nat, left: set<nat>, s: nat, rest: seq<int>, sp: seq<int>)
    requires cyl > 0 && sp == [s + 1] + rest && FirstLeft(i, left, cyl, s)
    ensures StepAt(step, cyl, i, left, sp, 0)
  {
    TakenNone(left, sp);
    hide FirstLeft;
  }

  lemma LaterStep(step: nat, cyl: nat, i: nat, left: set<nat>, s: nat, rest: seq<int>, sp: seq<int>, n: nat)
    requires cyl > 0 && sp == [s + 1] + rest && n > 0 && StepAt(step, cyl, (s + step) % cyl, left - {s}, rest, n - 1)
    ensures StepAt(step, cyl, i, left, sp, n)
  {
    TakenNext(left, s, rest, sp, n);
    hide FirstLeft, LeftBy;
  }

  lemma SpreadFirst(step: nat, cyl: nat, i: nat, left: set<nat>) returns (s: nat)
    requires i < cyl && left != {} && forall v :: v in left ==> v < cyl
    ensures s in left && s < cyl && FirstLeft(i, left, cyl, s)
    ensures Spread(step, cyl, i, left) == [s + 1] + Spread(step, cyl, (s + step) % cyl, left - {s})
  {
    hide Spread, FirstFree;
    var u :| u in left;
    s := FirstFree(i, left, cyl, cyl);
    SpreadStep(step, cyl, i, left, u);
    FreeIsFirst(i, left, cyl, cyl, u);
  }

  lemma TakenNone(left: set<nat>, sp: seq<int>)
    ensures LeftBy(left, sp[..0]) == left
  {
  }

  lemma TakenNext(left: set<nat>, s: nat, rest: seq<int>, sp: seq<int>, n: nat)
    requires sp == [s + 1] + rest && 0 < n < |sp|
    ensures LeftBy(left, sp[..n]) == LeftBy(left - {s}, rest[..n - 1])
    ensures sp[n] == rest[n - 1] && sp[n - 1] == if n == 1 then s + 1 else rest[n - 2]
  {
    assert sp[..n] == [s + 1] + rest[..n - 1];
  }

  predicate Free(b: int, used: seq<bool>, fmin: nat) {
    fmin <= b < |used| && !used[b]
  }

  /** The unused blocks among base - addr[0], ..., base - addr[n - 1]. */
  function Row(addr: seq<int>, base: int, n: nat, used: seq<bool>, fmin: nat): seq<int>
    requires n <= |addr|
  {
    if n == 0 then []
    else Row(addr, base, n - 1, used, fmin) + if Free(base - addr[n - 1], used, fmin) then [base - addr[n - 1]] else []
  }

  /** All the unused blocks below base, cylinder by cylinder from the top. */
  function Sweep(addr: seq<int>, base: int, used: seq<bool>, fmin: nat): seq<int>
    decreases base
  {
    if base <= 0 || |addr| == 0 then []
    else Row(addr, base, |addr|, used, fmin) + Sweep(addr, base - |addr|, used, fmin)
  }

  predicate InRow(addr: seq<int>, base: int, n: nat, b: int)
    requires n <= |addr|
  {
    base - b in addr[..n]
  }

  lemma {:induction false} RowBlocks(addr: seq<int>, base: int, n: nat, used: seq<bool>, fmin: nat)
    requires n <= |addr|
    ensures forall b :: b in Row(addr, base, n, used, fmin) <==> Free(b, used, fmin) && InRow(addr, base, n, b)
    decreases n
  {
    hide Free;
    if n > 0 {
      RowBlocks(addr, base, n - 1, used, fmin);
      assert addr[..n] == addr[..n - 1] + [addr[n - 1]];
    }
  }

  lemma {:induction false} RowOnce(addr: seq<int>, base: int, n: nat, used: seq<bool>, fmin: nat)
    requires n <= |addr| && Once(multiset(addr))
    ensures Once(multiset(Row(addr, base, n, used, fmin)))
    decreases n
  {
    hide Free, Once;
    if n > 0 {
      var row, b := Row(addr, base, n - 1, used, fmin), base - addr[n - 1];
      RowOnce(addr, base, n - 1, used, fmin);
      RowBlocks(addr, base, n - 1, used, fmin);
      OnceApart(addr, n - 1);
      OnceSingle(b);
      OnceConcat(row, [b]);
      assert row + [] == row;
    } else {
      OnceNone();
    }
  }

  lemma OnceApart(s: seq<int>, n: nat)
    requires n < |s| && Once(multiset(s))
    ensures s[n] !in s[..n]
  {
    var a, z, c := s[..n], s[n], s[n + 1..];
    assert s == a + [z] + c;
    assert multiset(s) == multiset(a) + multiset([z]) + multiset(c);
    assert multiset(s)[z] == multiset(a)[z] + multiset([z])[z] + multiset(c)[z];
    assert multiset([z])[z] == 1;
    assert multiset(s)[z] <= 1;
  }

  /** The sweep meets every unused block below base exactly once. */
  lemma {:induction false} SweepComplete(addr: seq<int>, base: int, used: seq<bool>, fmin: nat)
    requires Once(multiset(addr)) && |addr| > 0 && base % |addr| == 0 && base >= 0
    requires forall a :: a in addr <==> 1 <= a <= |addr|
    ensures Once(multiset(Sweep(addr, base, used, fmin)))
    ensures forall b :: b in Sweep(addr, base, used, fmin) <==> b < base && Free(b, used, fmin)
    decreases base
  {
    hide Row, Free;
    var cyl := |addr|;
    if base > 0 {
      Multiple(base, cyl);
      SweepComplete(addr, base - cyl, used, fmin);
      RowOnce(addr, base, cyl, used, fmin);
      RowBlocks(addr, base, cyl, used, fmin);
      assert addr[..cyl] == addr;
      assert forall b :: InRow(addr, base, cyl, b) <==> base - cyl <= b < base;
      OnceConcat(Row(addr, base, cyl, used, fmin), Sweep(addr, base - cyl, used, fmin));
    } else {
      FreeNonnegative(used, fmin);
    }
  }

  /** In one cylinder, b comes before b' in the order of the slots. */
  ghost predicate SlotsInOrder(addr: seq<int>, top: int, b: int, b': int) {
    exists i, j :: 0 <= i < j < |addr| && b == top - addr[i] && b' == top - addr[j]
  }

  /** b is in a cylinder above that of b', or before it in the same one. */
  ghost predicate InSweepOrder(addr: seq<int>, base: int, b: int, b': int)
    requires |addr| > 0
  {
    exists top: int :: InOrderAt(addr, base, top, b, b')
  }

  ghost predicate InOrderAt(addr: seq<int>, base: int, top: int, b: int, b': int)
    requires |addr| > 0
  {
    Whole(base - top, |addr|) && (b >= top > b' || SlotsInOrder(addr, top, b, b'))
  }

  /** x is a whole number of cylinders. */
  predicate Whole(x: int, cyl: nat)
    requires cyl > 0
  {
    x % cyl == 0
  }

  lemma {:induction false} RowFrom(addr: seq<int>, base: int, n: nat, used: seq<bool>, fmin: nat, y: nat)
    returns (j: nat)
    requires n <= |addr| && y < |Row(addr, base, n, used, fmin)|
    ensures j < n && Row(addr, base, n, used, fmin)[y] == base - addr[j]
    ensures |Row(addr, base, j, used, fmin)| == y
    ensures Row(addr, base, j, used, fmin) == Row(addr, base, n, used, fmin)[..y]
    decreases n
  {
    hide Free;
    var before := Row(addr, base, n - 1, used, fmin);
    if y < |before| {
      j := RowFrom(addr, base, n - 1, used, fmin, y);
    } else {
      j := n - 1;
    }
  }

  lemma RowOrder(addr: seq<int>, base: int, used: seq<bool>, fmin: nat, x: nat, y: nat)
    requires x < y < |Row(addr, base, |addr|, used, fmin)|
    ensures SlotsInOrder(addr, base, Row(addr, base, |addr|, used, fmin)[x], Row(addr, base, |addr|, used, fmin)[y])
  {
    var j := RowFrom(addr, base, |addr|, used, fmin, y);
    var i := RowFrom(addr, base, j, used, fmin, x);
  }

  /** The sweep goes through the cylinders from the top, and through each in the order of
      the slots. */
  lemma {:induction false} SweepOrder(addr: seq<int>, base: int, used: seq<bool>, fmin: nat, x: nat, y: nat)
    requires |addr| > 0 && Once(multiset(addr)) && base % |addr| == 0 && base >= 0
    requires forall a :: a in addr <==> 1 <= a <= |addr|
    requires x < y < |Sweep(addr, base, used, fmin)|
    ensures InSweepOrder(addr, base, Sweep(addr, base, used, fmin)[x], Sweep(addr, base, used, fmin)[y])
    decreases base
  {
    var row, all := Row(addr, base, |addr|, used, fmin), Sweep(addr, base, used, fmin);
    var low := base - |addr|;
    var rest := Sweep(addr, low, used, fmin);
    Multiple(base, |addr|);
    assert all == row + rest;
    hide *;
    if y < |row| {
      RowOrder(addr, base, used, fmin, x, y);
      OrderHere(addr, base, all[x], all[y]);
    } else if x >= |row| {
      SweepOrder(addr, low, used, fmin, x - |row|, y - |row|);
      OrderUp(addr, base, low, all[x], all[y]);
    } else {
      Across(addr, base, low, used, fmin, all[x], all[y]);
    }
  }

  lemma OrderHere(addr: seq<int>, base: int, b: int, b': int)
    requires |addr| > 0 && SlotsInOrder(addr, base, b, b')
    ensures InSweepOrder(addr, base, b, b')
  {
    assert InOrderAt(addr, base, base, b, b');
  }

  lemma OrderUp(addr: seq<int>, base: int, low: int, b: int, b': int)
    requires |addr| > 0 && low == base - |addr| && InSweepOrder(addr, low, b, b')
    ensures InSweepOrder(addr, base, b, b')
  {
    hide SlotsInOrder, Whole;
    var top: int :| InOrderAt(addr, low, top, b, b');
    OneMore(low - top, base - top, |addr|);
    assert InOrderAt(addr, base, top, b, b');
  }

  lemma Across(addr: seq<int>, base: int, low: int, used: seq<bool>, fmin: nat, b: int, b': int)
    requires |addr| > 0 && Once(multiset(addr)) && low == base - |addr| && low >= 0 && low % |addr| == 0
    requires forall a :: a in addr <==> 1 <= a <= |addr|
    requires b in Row(addr, base, |addr|, used, fmin) && b' in Sweep(addr, low, used, fmin)
    ensures InSweepOrder(addr, base, b, b')
  {
    hide Free, Once, Row, Sweep;
    SweepComplete(addr, low, used, fmin);
    RowBlocks(addr, base, |addr|, used, fmin);
    assert addr[..|addr|] == addr;
    assert base - b in addr;
    OneMore(0, base - low, |addr|);
    hide Whole;
    assert InOrderAt(addr, base, low, b, b');
  }

  lemma OneMore(x: int, y: int, c: nat)
    requires c > 0 && y == x + c && (x == 0 || Whole(x, c))
    ensures Whole(y, c)
  {
    var q := x / c;
    assert x == c * q;
    assert y == c * (q + 1);
    MultipleMod(c, q + 1);
  }

  lemma FreeNonnegative(used: seq<bool>, fmin: nat)
    ensures forall b :: Free(b, used, fmin) ==> b >= 0
  {
  }

  lemma Multiple(base: int, cyl: int)
    requires cyl > 0 && base > 0 && base % cyl == 0
    ensures base >= cyl && (base - cyl) % cyl == 0
  {
    var q := base / cyl;
    assert base == cyl * q;
    assert q <= 0 ==> cyl * q <= 0;
    assert base - cyl == cyl * (q - 1);
    MultipleMod(cyl, q - 1);
  }
}
