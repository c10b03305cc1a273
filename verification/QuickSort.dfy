/** sort's in-place quicksort: fat pivot, smaller part first. */
module QuickSort {

  import opened SortKeys

  /** A record of merge: the line at hand and the lines still to read.  sort's own
      pointers to lines are such records without more lines. */
  datatype Merg = Merg(l: Line, b: seq<Line>)

  /** Positive if x sorts before y. */
  ghost function Order(k: Keys, x: Merg, y: Merg): int
  {
    Sign(k, x.l, y.l)
  }

  /** The array order: compare is never positive from left to right. */
  ghost predicate Ordered(s: seq<Merg>, a: nat, l: nat, k: Keys) {
    l <= |s| && forall i, j :: a <= i < j < l ==> Order(k, s[i], s[j]) <= 0
  }

  /** t is s with the elements from a to l rearranged. */
  ghost predicate Shuffled(s: seq<Merg>, t: seq<Merg>, a: nat, l: nat) {
    && |s| == |t| && multiset(s) == multiset(t)
    && forall x :: 0 <= x < |s| && !(a <= x < l) ==> s[x] == t[x]
  }

  ghost predicate Below(s: seq<Merg>, lo: nat, hi: nat, p: Merg, k: Keys) {
    hi <= |s| && forall x :: lo <= x < hi ==> Order(k, s[x], p) < 0
  }

  ghost predicate Like(s: seq<Merg>, lo: nat, hi: nat, p: Merg, k: Keys) {
    hi <= |s| && forall x :: lo <= x < hi ==> Order(k, s[x], p) == 0
  }

  ghost predicate Above(s: seq<Merg>, lo: nat, hi: nat, p: Merg, k: Keys) {
    hi <= |s| && forall x :: lo <= x < hi ==> Order(k, s[x], p) > 0
  }

  /** How x stands to the pivot p is how it stands to any element like p. */
  lemma LikePivot(k: Keys, x: Merg, e: Merg, p: Merg)
    requires Order(k, e, p) == 0
    ensures Order(k, x, e) < 0 <==> Order(k, x, p) < 0
    ensures Order(k, x, e) == 0 <==> Order(k, x, p) == 0
    ensures Order(k, e, x) > 0 <==> Order(k, x, p) < 0
    ensures Order(k, e, x) < 0 <==> Order(k, x, p) > 0
    ensures Order(k, e, x) == 0 <==> Order(k, x, p) == 0
  {
    hide Sign;
    SignOrder(k, e.l, p.l, p.l);
    SignOrder(k, x.l, e.l, e.l);
  }

  lemma ShuffledSame(s: seq<Merg>, a: nat, l: nat)
    ensures Shuffled(s, s, a, l)
  {
  }

  lemma ShuffledThen(s: seq<Merg>, t: seq<Merg>, u: seq<Merg>, a: nat, b: nat, m: nat, l: nat)
    requires Shuffled(s, t, a, l) && Shuffled(t, u, b, m) && a <= b && m <= l
    ensures Shuffled(s, u, a, l)
  {
  }

  lemma SwapShuffles(s: seq<Merg>, t: seq<Merg>, a: nat, l: nat, i: nat, j: nat)
    requires Shuffled(s, t, a, l) && a <= i < l <= |t| && a <= j < l
    ensures Shuffled(s, t[i := t[j]][j := t[i]], a, l)
  {
  }

  lemma RotateShuffles(s: seq<Merg>, t: seq<Merg>, a: nat, l: nat, p: nat, q: nat, r: nat)
    requires Shuffled(s, t, a, l) && a <= p < l <= |t| && a <= q < l && a <= r < l && p != q && p != r
    ensures Shuffled(s, t[p := t[r]][r := t[q]][q := t[p]], a, l)
  {
    hide *;
    SwapShuffles(s, t, a, l, p, r);
    var u := t[p := t[r]][r := t[p]];
    SwapShuffles(s, u, a, l, r, q);
    assert u[r := u[q]][q := u[r]] == t[p := t[r]][r := t[q]][q := t[p]];
  }

  /** Elements rearranged within a range satisfy what all of them did. */
  lemma RangeSame(s: seq<Merg>, t: seq<Merg>, a: nat, l: nat)
    requires Shuffled(s, t, a, l) && a <= l <= |s|
    ensures multiset(s[a..l]) == multiset(t[a..l])
    ensures forall x :: a <= x < l ==> t[x] in s[a..l]
  {
    assert s == s[..a] + s[a..l] + s[l..];
    assert t == t[..a] + t[a..l] + t[l..];
    assert s[..a] == t[..a] && s[l..] == t[l..];
    assert multiset(s) == multiset(s[..a]) + multiset(s[a..l]) + multiset(s[l..]);
    assert multiset(t) == multiset(t[..a]) + multiset(t[a..l]) + multiset(t[l..]);
    RangeCancel(multiset(s[..a]), multiset(s[a..l]), multiset(t[a..l]), multiset(s[l..]));
    forall x | a <= x < l
      ensures t[x] in s[a..l]
    {
      assert t[x] == t[a..l][x - a];
      assert t[x] in multiset(t[a..l]);
    }
  }

  lemma RangeCancel(m: multiset<Merg>, s: multiset<Merg>, t: multiset<Merg>, n: multiset<Merg>)
    requires m + s + n == m + t + n
    ensures s == t
  {
    forall x
      ensures s[x] == t[x]
    {
      assert (m + s + n)[x] == (m + t + n)[x];
    }
  }

  /** Between the pivot's likes, lp to hp, and the sorted-out ends are the elements
      still to be looked at. */
  ghost predicate Zones(s: seq<Merg>, a: nat, i: nat, lp: nat, hp: nat, j: nat, l: nat, p: Merg, k: Keys) {
    && a <= i <= lp <= hp <= j < l <= |s|
    && Below(s, a, i, p, k) && Like(s, lp, hp + 1, p, k) && Above(s, j + 1, l, p, k)
  }

  /** An element left of the pivot's likes waits to go above. */
  ghost predicate Held(s: seq<Merg>, i: nat, lp: nat, p: Merg, k: Keys) {
    i < lp ==> i < |s| && Order(k, s[i], p) > 0
  }

  lemma LikeLow(s: seq<Merg>, a: nat, i: nat, lp: nat, hp: nat, j: nat, l: nat, p: Merg, k: Keys)
    requires Zones(s, a, i, lp, hp, j, l, p, k) && i < lp && Order(k, s[i], p) == 0
    ensures Zones(s[i := s[lp - 1]][lp - 1 := s[i]], a, i, lp - 1, hp, j, l, p, k)
  {
    hide Order;
  }

  lemma LikeHigh(s: seq<Merg>, a: nat, i: nat, lp: nat, hp: nat, j: nat, l: nat, p: Merg, k: Keys)
    requires Zones(s, a, i, lp, hp, j, l, p, k) && hp < j && Order(k, s[j], p) == 0
    ensures Zones(s[hp + 1 := s[j]][j := s[hp + 1]], a, i, lp, hp + 1, j, l, p, k)
    ensures Held(s, i, lp, p, k) ==> Held(s[hp + 1 := s[j]][j := s[hp + 1]], i, lp, p, k)
  {
    hide Order;
  }

  lemma Across(s: seq<Merg>, a: nat, i: nat, lp: nat, hp: nat, j: nat, l: nat, p: Merg, k: Keys)
    requires Zones(s, a, i, lp, hp, j, l, p, k) && i < lp && hp < j && Held(s, i, lp, p, k) && Order(k, s[j], p) < 0
    ensures Zones(s[i := s[j]][j := s[i]], a, i + 1, lp, hp, j - 1, l, p, k)
  {
    hide Order;
  }

  lemma ShiftUp(s: seq<Merg>, a: nat, i: nat, lp: nat, hp: nat, j: nat, l: nat, p: Merg, k: Keys)
    requires Zones(s, a, i, lp, hp, j, l, p, k) && i == lp && hp < j && Order(k, s[j], p) < 0
    ensures Zones(s[i := s[j]][j := s[hp + 1]][hp + 1 := s[i]], a, lp + 1, lp + 1, hp + 1, j, l, p, k)
    ensures Held(s[i := s[j]][j := s[hp + 1]][hp + 1 := s[i]], lp + 1, lp + 1, p, k)
  {
    hide Order;
  }

  lemma ShiftDown(s: seq<Merg>, a: nat, i: nat, lp: nat, hp: nat, j: nat, l: nat, p: Merg, k: Keys)
    requires Zones(s, a, i, lp, hp, j, l, p, k) && i < lp && hp == j && Held(s, i, lp, p, k)
    ensures Zones(s[j := s[i]][i := s[lp - 1]][lp - 1 := s[j]], a, i, lp - 1, hp - 1, hp - 1, l, p, k)
  {
    hide Order;
  }

  lemma Past(s: seq<Merg>, a: nat, i: nat, lp: nat, hp: nat, j: nat, l: nat, p: Merg, k: Keys)
    requires Zones(s, a, i, lp, hp, j, l, p, k) && i < lp && Order(k, s[i], p) < 0
    ensures Zones(s, a, i + 1, lp, hp, j, l, p, k)
  {
    hide Order;
  }

  lemma Before(s: seq<Merg>, a: nat, i: nat, lp: nat, hp: nat, j: nat, l: nat, p: Merg, k: Keys)
    requires Zones(s, a, i, lp, hp, j, l, p, k) && hp < j && Order(k, s[j], p) > 0
    ensures Zones(s, a, i, lp, hp, j - 1, l, p, k)
  {
    hide Order;
  }

  /** Comparing with an end of the pivot's likes compares with the pivot. */
  lemma Compared(s: seq<Merg>, a: nat, i: nat, lp: nat, hp: nat, j: nat, l: nat, p: Merg, k: Keys)
    requires Zones(s, a, i, lp, hp, j, l, p, k)
    ensures i < lp ==>
      (Order(k, s[i], s[lp]) < 0 <==> Order(k, s[i], p) < 0) && (Order(k, s[i], s[lp]) == 0 <==> Order(k, s[i], p) == 0)
    ensures hp < j ==>
      (Order(k, s[hp], s[j]) > 0 <==> Order(k, s[j], p) < 0) && (Order(k, s[hp], s[j]) == 0 <==> Order(k, s[j], p) == 0)
  {
    LikePivot(k, s[i], s[lp], p);
    LikePivot(k, s[j], s[hp], p);
  }

  lemma Finished(s: seq<Merg>, a: nat, lp: nat, hp: nat, l: nat, p: Merg, k: Keys)
    requires Zones(s, a, lp, lp, hp, hp, l, p, k)
    ensures Below(s, a, lp, p, k) && Like(s, lp, hp + 1, p, k) && Above(s, hp + 1, l, p, k)
  {
    hide Order;
  }

  /** The element at i joins the pivot's likes. */
  method JoinLow(arr: array<Merg>, ghost was: seq<Merg>, a: nat, i: nat, lp: nat, hp: nat, j: nat, l: nat,
                 ghost p: Merg, ghost k: Keys)
    requires a <= i <= lp <= hp <= j < l <= arr.Length && Zones(arr[..], a, i, lp, hp, j, l, p, k)
    requires Shuffled(was, arr[..], a, l)
    requires i < lp && Order(k, arr[i], p) == 0
    modifies arr
    ensures Zones(arr[..], a, i, lp - 1, hp, j, l, p, k)
    ensures Shuffled(was, arr[..], a, l)
  {
    hide *;
    ghost var s := arr[..];
    LikeLow(s, a, i, lp, hp, j, l, p, k);
    SwapShuffles(was, s, a, l, i, lp - 1);
    Exchange(arr, i, lp - 1, s);
  }

  /** Look at the elements left of the pivot's likes until one belongs above. */
  method ScanLow(arr: array<Merg>, a: nat, i0: nat, lp0: nat, hp: nat, j: nat, l: nat, ghost p: Merg, k: Keys)
    returns (i: nat, lp: nat)
    requires a <= i0 <= lp0 <= hp <= j < l <= arr.Length && Zones(arr[..], a, i0, lp0, hp, j, l, p, k)
    modifies arr
    ensures i0 <= i <= lp <= lp0 && Zones(arr[..], a, i, lp, hp, j, l, p, k) && Shuffled(old(arr[..]), arr[..], a, l)
    ensures Held(arr[..], i, lp, p, k)
  {
    i, lp := i0, lp0;
    ghost var was := arr[..];
    ShuffledSame(was, a, l);
    hide *;
    while i < lp
      invariant a <= i0 <= i <= lp <= lp0 && lp <= hp <= j < l
      invariant Zones(arr[..], a, i, lp, hp, j, l, p, k) && Shuffled(was, arr[..], a, l)
    {
      Compared(arr[..], a, i, lp, hp, j, l, p, k);
      var r := Compare(k, arr[i].l, arr[lp].l);
      if r == 0 {
        JoinLow(arr, was, a, i, lp, hp, j, l, p, k);
        lp := lp - 1;
      } else if r < 0 {
        Past(arr[..], a, i, lp, hp, j, l, p, k);
        i := i + 1;
      } else {
        break;
      }
    }
  }

  /** The element at j joins the pivot's likes. */
  method JoinHigh(arr: array<Merg>, ghost was: seq<Merg>, a: nat, i: nat, lp: nat, hp: nat, j: nat, l: nat,
                  ghost p: Merg, ghost k: Keys)
    requires a <= i <= lp <= hp <= j < l <= arr.Length && Zones(arr[..], a, i, lp, hp, j, l, p, k)
    requires Shuffled(was, arr[..], a, l)
    requires hp < j && Order(k, arr[j], p) == 0 && Held(arr[..], i, lp, p, k)
    modifies arr
    ensures Zones(arr[..], a, i, lp, hp + 1, j, l, p, k) && Held(arr[..], i, lp, p, k)
    ensures Shuffled(was, arr[..], a, l)
  {
    hide *;
    ghost var s := arr[..];
    LikeHigh(s, a, i, lp, hp, j, l, p, k);
    SwapShuffles(was, s, a, l, hp + 1, j);
    Exchange(arr, hp + 1, j, s);
  }

  /** The element at j goes below, and the pivot's likes move up. */
  method PushUp(arr: array<Merg>, ghost was: seq<Merg>, a: nat, i: nat, lp: nat, hp: nat, j: nat, l: nat,
                ghost p: Merg, ghost k: Keys)
    requires a <= i <= lp <= hp <= j < l <= arr.Length && Zones(arr[..], a, i, lp, hp, j, l, p, k)
    requires Shuffled(was, arr[..], a, l)
    requires i == lp && hp < j && Order(k, arr[j], p) < 0
    modifies arr
    ensures Zones(arr[..], a, lp + 1, lp + 1, hp + 1, j, l, p, k) && Held(arr[..], lp + 1, lp + 1, p, k)
    ensures Shuffled(was, arr[..], a, l)
  {
    hide *;
    ghost var s := arr[..];
    ShiftUp(s, a, i, lp, hp, j, l, p, k);
    RotateShuffles(was, s, a, l, i, hp + 1, j);
    Rotate(arr, i, hp + 1, j, s);
  }

  /** The element held at i and the one at j change places. */
  method Trade(arr: array<Merg>, ghost was: seq<Merg>, a: nat, i: nat, lp: nat, hp: nat, j: nat, l: nat,
               ghost p: Merg, ghost k: Keys)
    requires a <= i <= lp <= hp <= j < l <= arr.Length && Zones(arr[..], a, i, lp, hp, j, l, p, k)
    requires Shuffled(was, arr[..], a, l)
    requires i < lp && hp < j && Order(k, arr[j], p) < 0 && Held(arr[..], i, lp, p, k)
    modifies arr
    ensures Zones(arr[..], a, i + 1, lp, hp, j - 1, l, p, k)
    ensures Shuffled(was, arr[..], a, l)
  {
    hide *;
    ghost var s := arr[..];
    Across(s, a, i, lp, hp, j, l, p, k);
    SwapShuffles(was, s, a, l, i, j);
    Exchange(arr, i, j, s);
  }

  /** The element held at i goes above, and the pivot's likes move down. */
  method PushDown(arr: array<Merg>, ghost was: seq<Merg>, a: nat, i: nat, lp: nat, hp: nat, j: nat, l: nat,
                  ghost p: Merg, ghost k: Keys)
    requires a <= i <= lp <= hp <= j < l <= arr.Length && Zones(arr[..], a, i, lp, hp, j, l, p, k)
    requires Shuffled(was, arr[..], a, l)
    requires i < lp && hp == j && Held(arr[..], i, lp, p, k)
    modifies arr
    ensures Zones(arr[..], a, i, lp - 1, hp - 1, hp - 1, l, p, k)
    ensures Shuffled(was, arr[..], a, l)
  {
    hide *;
    ghost var s := arr[..];
    ShiftDown(s, a, i, lp, hp, j, l, p, k);
    RotateShuffles(was, s, a, l, j, lp - 1, i);
    Rotate(arr, j, lp - 1, i, s);
  }

  /** Look at the elements right of the pivot's likes until none is left, or until
      one was exchanged with the element that belongs above. */
  method ScanHigh(arr: array<Merg>, a: nat, i0: nat, lp0: nat, hp0: nat, j0: nat, l: nat, ghost p: Merg, k: Keys)
    returns (i: nat, lp: nat, hp: nat, j: nat, exchanged: bool)
    requires a <= i0 <= lp0 <= hp0 <= j0 < l <= arr.Length && Zones(arr[..], a, i0, lp0, hp0, j0, l, p, k)
    requires Held(arr[..], i0, lp0, p, k)
    modifies arr
    ensures a <= i <= lp <= hp <= j < l && Zones(arr[..], a, i, lp, hp, j, l, p, k)
    ensures Shuffled(old(arr[..]), arr[..], a, l)
    ensures lp - i + j - hp <= lp0 - i0 + j0 - hp0
    ensures if exchanged then lp - i + j - hp < lp0 - i0 + j0 - hp0 else j == hp && Held(arr[..], i, lp, p, k)
  {
    ghost var was, left := arr[..], lp0 - i0 + j0 - hp0;
    i, lp, hp, j, exchanged := i0, lp0, hp0, j0, false;
    ShuffledSame(was, a, l);
    hide *;
    while j > hp
      invariant a <= i <= lp <= hp <= j < l
      invariant Zones(arr[..], a, i, lp, hp, j, l, p, k) && Shuffled(was, arr[..], a, l)
      invariant lp - i + j - hp <= left
      invariant Held(arr[..], i, lp, p, k)
      decreases j - hp
    {
      Compared(arr[..], a, i, lp, hp, j, l, p, k);
      var r := Compare(k, arr[hp].l, arr[j].l);
      if r == 0 {
        JoinHigh(arr, was, a, i, lp, hp, j, l, p, k);
        hp := hp + 1;
      } else if r > 0 && i == lp {
        PushUp(arr, was, a, i, lp, hp, j, l, p, k);
        hp := hp + 1;
        lp := lp + 1;
        i := lp;
      } else if r > 0 {
        Trade(arr, was, a, i, lp, hp, j, l, p, k);
        j := j - 1;
        i := i + 1;
        return i, lp, hp, j, true;
      } else {
        Before(arr[..], a, i, lp, hp, j, l, p, k);
        j := j - 1;
      }
    }
  }

  /** Split the range into the elements below, like and above a pivot: what is
      like the pivot gathers around it, the rest is exchanged across it. */
  method Partition(arr: array<Merg>, a: nat, l: nat, k: Keys) returns (lp: nat, hp: nat, ghost p: Merg)
    requires a + 1 < l <= arr.Length
    modifies arr
    ensures a <= lp <= hp < l
    ensures Below(arr[..], a, lp, p, k) && Like(arr[..], lp, hp + 1, p, k) && Above(arr[..], hp + 1, l, p, k)
    ensures Shuffled(old(arr[..]), arr[..], a, l)
  {
    lp := a + (l - a) / 2;
    hp := lp;
    p := arr[lp];
    var i: nat, j: nat := a, l - 1;
    SelfLike(k, p);
    assert Zones(arr[..], a, i, lp, hp, j, l, p, k);
    ShuffledSame(arr[..], a, l);
    hide Shuffled, Below, Like, Above, Order, Held;
    while true
      invariant Zones(arr[..], a, i, lp, hp, j, l, p, k) && Shuffled(old(arr[..]), arr[..], a, l)
      decreases lp - i + j - hp
    {
      ghost var was := old(arr[..]);
      ghost var now := arr[..];
      i, lp := ScanLow(arr, a, i, lp, hp, j, l, p, k);
      ShuffledThen(was, now, arr[..], a, a, l, l);
      now := arr[..];
      var exchanged;
      i, lp, hp, j, exchanged := ScanHigh(arr, a, i, lp, hp, j, l, p, k);
      ShuffledThen(was, now, arr[..], a, a, l, l);
      if exchanged {
        continue;
      }
      if i == lp {
        break;
      }
      PushDown(arr, was, a, i, lp, hp, j, l, p, k);
      lp := lp - 1;
      hp := hp - 1;
      j := hp;
    }
    Finished(arr[..], a, lp, hp, l, p, k);
  }

  lemma SelfLike(k: Keys, p: Merg)
    ensures Order(k, p, p) == 0
  {
    SignOrder(k, p.l, p.l, p.l);
  }

  method Exchange(arr: array<Merg>, p: nat, q: nat, ghost s: seq<Merg>)
    requires p < arr.Length && q < arr.Length && s == arr[..]
    modifies arr
    ensures arr[..] == s[p := s[q]][q := s[p]]
  {
    var t := arr[p];
    arr[p] := arr[q];
    arr[q] := t;
  }

  /** p gets the element of r, r that of q, and q that of p. */
  method Rotate(arr: array<Merg>, p: nat, q: nat, r: nat, ghost s: seq<Merg>)
    requires p < arr.Length && q < arr.Length && r < arr.Length && p != q && p != r && s == arr[..]
    modifies arr
    ensures arr[..] == s[p := s[r]][r := s[q]][q := s[p]]
  {
    var t := arr[p];
    arr[p] := arr[r];
    arr[r] := arr[q];
    arr[q] := t;
  }

  function Pow2(n: nat): (p: nat)
    ensures p >= 1
  {
    if n == 0 then 1 else 2 * Pow2(n - 1)
  }

  /** nest calls within one another fit n elements: at most log2(n) + 1 of them. */
  ghost predicate Nested(nest: nat, n: nat) {
    nest <= 1 || Pow2(nest - 1) <= n
  }

  /** Any two elements from a0 to l0 are in order, unless both are still to be
      sorted, from a to l. */
  ghost predicate Frozen(s: seq<Merg>, a0: nat, a: nat, l: nat, l0: nat, k: Keys) {
    && a0 <= a && l <= l0 <= |s|
    && forall x, y :: a0 <= x < y < l0 && !(a <= x && y < l) ==> Order(k, s[x], s[y]) <= 0
  }

  lemma FrozenShuffled(s: seq<Merg>, t: seq<Merg>, a0: nat, a: nat, l: nat, l0: nat, k: Keys)
    requires Frozen(s, a0, a, l, l0, k) && Shuffled(s, t, a, l) && a <= l
    ensures Frozen(t, a0, a, l, l0, k)
  {
    RangeSame(s, t, a, l);
    hide Order;
    forall x, y | a0 <= x < y < l0 && !(a <= x && y < l)
      ensures Order(k, t[x], t[y]) <= 0
    {
      var x' := if a <= x < l then Origin(s, a, l, t[x]) else x;
      var y' := if a <= y < l then Origin(s, a, l, t[y]) else y;
      assert Order(k, s[x'], s[y']) <= 0;
    }
  }

  ghost function Origin(s: seq<Merg>, a: nat, l: nat, m: Merg): (x: nat)
    requires a <= l <= |s| && m in s[a..l]
    ensures a <= x < l && s[x] == m
  {
    var i :| 0 <= i < l - a && s[a..l][i] == m;
    a + i
  }

  ghost predicate Split(s: seq<Merg>, a: nat, lp: nat, hp: nat, l: nat, p: Merg, k: Keys) {
    a <= lp <= hp < l && Below(s, a, lp, p, k) && Like(s, lp, hp + 1, p, k) && Above(s, hp + 1, l, p, k)
  }

  lemma SplitShuffled(s: seq<Merg>, t: seq<Merg>, a: nat, lp: nat, hp: nat, l: nat, p: Merg, k: Keys)
    requires Split(s, a, lp, hp, l, p, k) && (Shuffled(s, t, a, lp) || Shuffled(s, t, hp + 1, l))
    ensures Split(t, a, lp, hp, l, p, k)
  {
    hide Order;
    if Shuffled(s, t, a, lp) {
      RangeSame(s, t, a, lp);
      forall x | a <= x < lp
        ensures Order(k, t[x], p) < 0
      {
        assert s[Origin(s, a, lp, t[x])] == t[x];
      }
    } else {
      RangeSame(s, t, hp + 1, l);
      forall x | hp + 1 <= x < l
        ensures Order(k, t[x], p) > 0
      {
        assert s[Origin(s, hp + 1, l, t[x])] == t[x];
      }
    }
  }

  /** Across the pivot elements are in order. */
  lemma SplitOrder(s: seq<Merg>, a: nat, lp: nat, hp: nat, l: nat, p: Merg, k: Keys, x: nat, y: nat)
    requires Split(s, a, lp, hp, l, p, k) && a <= x < y < l && !(y < lp) && !(hp < x)
    ensures Order(k, s[x], s[y]) <= 0
  {
    hide Sign;
    assert Order(k, s[x], p) <= 0 && Order(k, s[y], p) >= 0;
    SignOrder(k, s[y].l, p.l, s[x].l);
    SignOrder(k, s[x].l, p.l, p.l);
    SignOrder(k, s[x].l, s[y].l, p.l);
  }

  /** With one part sorted, the other is what is left. */
  lemma HighSorted(s: seq<Merg>, a0: nat, a: nat, lp: nat, hp: nat, l: nat, l0: nat, p: Merg, k: Keys)
    requires Frozen(s, a0, a, l, l0, k) && Split(s, a, lp, hp, l, p, k) && Ordered(s, hp + 1, l, k)
    ensures Frozen(s, a0, a, lp, l0, k)
  {
    hide Order;
    forall x, y | a0 <= x < y < l0 && !(a <= x && y < lp)
      ensures Order(k, s[x], s[y]) <= 0
    {
      if a <= x <= hp && y < l {
        SplitOrder(s, a, lp, hp, l, p, k, x, y);
      }
    }
  }

  lemma LowSorted(s: seq<Merg>, a0: nat, a: nat, lp: nat, hp: nat, l: nat, l0: nat, p: Merg, k: Keys)
    requires Frozen(s, a0, a, l, l0, k) && Split(s, a, lp, hp, l, p, k) && Ordered(s, a, lp, k)
    ensures Frozen(s, a0, hp + 1, l, l0, k)
  {
    hide Order;
    forall x, y | a0 <= x < y < l0 && !(hp + 1 <= x && y < l)
      ensures Order(k, s[x], s[y]) <= 0
    {
      if a <= x && lp <= y < l {
        SplitOrder(s, a, lp, hp, l, p, k, x, y);
      }
    }
  }

  /** The state of the sort: what is sorted is final, and nothing is lost. */
  ghost predicate Sorting(was: seq<Merg>, s: seq<Merg>, a0: nat, a: nat, l: nat, l0: nat, k: Keys) {
    Frozen(s, a0, a, l, l0, k) && Shuffled(was, s, a0, l0)
  }

  lemma SplitStep(was: seq<Merg>, s: seq<Merg>, t: seq<Merg>, a0: nat, a: nat, lp: nat, hp: nat, l: nat, l0: nat,
                  p: Merg, k: Keys)
    requires Sorting(was, s, a0, a, l, l0, k) && Shuffled(s, t, a, l) && a0 <= a <= lp <= hp < l <= l0
    requires Below(t, a, lp, p, k) && Like(t, lp, hp + 1, p, k) && Above(t, hp + 1, l, p, k)
    ensures Sorting(was, t, a0, a, l, l0, k) && Split(t, a, lp, hp, l, p, k)
  {
    FrozenShuffled(s, t, a0, a, l, l0, k);
    ShuffledThen(was, s, t, a0, a, l, l0);
    hide *;
    SplitIs(t, a, lp, hp, l, p, k);
  }

  lemma HighStep(was: seq<Merg>, s: seq<Merg>, t: seq<Merg>, a0: nat, a: nat, lp: nat, hp: nat, l: nat, l0: nat,
                 p: Merg, k: Keys)
    requires Sorting(was, s, a0, a, l, l0, k) && Split(s, a, lp, hp, l, p, k) && Shuffled(s, t, hp + 1, l)
    requires Ordered(t, hp + 1, l, k)
    requires a0 <= a <= lp <= hp < l <= l0
    ensures Sorting(was, t, a0, a, lp, l0, k)
  {
    hide Frozen, Shuffled, Split, Ordered;
    SplitShuffled(s, t, a, lp, hp, l, p, k);
    ShuffledWider(s, t, a, hp + 1, l, l);
    FrozenShuffled(s, t, a0, a, l, l0, k);
    ShuffledThen(was, s, t, a0, a, l, l0);
    HighSorted(t, a0, a, lp, hp, l, l0, p, k);
  }

  lemma LowStep(was: seq<Merg>, s: seq<Merg>, t: seq<Merg>, a0: nat, a: nat, lp: nat, hp: nat, l: nat, l0: nat,
                p: Merg, k: Keys)
    requires Sorting(was, s, a0, a, l, l0, k) && Split(s, a, lp, hp, l, p, k) && Shuffled(s, t, a, lp)
    requires Ordered(t, a, lp, k)
    requires a0 <= a <= lp <= hp < l <= l0
    ensures Sorting(was, t, a0, hp + 1, l, l0, k)
  {
    hide Frozen, Shuffled, Split, Ordered;
    SplitShuffled(s, t, a, lp, hp, l, p, k);
    ShuffledWider(s, t, a, a, lp, l);
    FrozenShuffled(s, t, a0, a, l, l0, k);
    ShuffledThen(was, s, t, a0, a, l, l0);
    LowSorted(t, a0, a, lp, hp, l, l0, p, k);
  }

  lemma SortStarts(s: seq<Merg>, a0: nat, l0: nat, k: Keys)
    requires a0 <= l0 <= |s|
    ensures Sorting(s, s, a0, a0, l0, l0, k)
  {
    ShuffledSame(s, a0, l0);
    FrozenAll(s, a0, l0, k);
  }

  lemma SortEnds(was: seq<Merg>, s: seq<Merg>, a0: nat, a: nat, l: nat, l0: nat, k: Keys)
    requires Sorting(was, s, a0, a, l, l0, k) && l - a <= 1
    ensures Ordered(s, a0, l0, k) && Shuffled(was, s, a0, l0)
  {
    hide Shuffled;
    AllFrozen(s, a0, a, l, l0, k);
  }

  lemma FrozenAll(s: seq<Merg>, a0: nat, l0: nat, k: Keys)
    requires a0 <= l0 <= |s|
    ensures Frozen(s, a0, a0, l0, l0, k)
  {
  }

  lemma AllFrozen(s: seq<Merg>, a0: nat, a: nat, l: nat, l0: nat, k: Keys)
    requires Frozen(s, a0, a, l, l0, k) && l - a <= 1
    ensures Ordered(s, a0, l0, k)
  {
  }

  /** Sort the array from a0 to l0. */
  method QSort(arr: array<Merg>, a0: nat, l0: nat, k: Keys) returns (ghost nest: nat)
    requires a0 <= l0 <= arr.Length
    modifies arr
    ensures Ordered(arr[..], a0, l0, k) && Shuffled(old(arr[..]), arr[..], a0, l0)
    ensures nest >= 1 && Nested(nest, l0 - a0)
    decreases l0 - a0, 1
  {
    var a: nat, l: nat := a0, l0;
    nest := 1;
    assert Nested(nest, l0 - a0);
    hide *;
    ghost var was := arr[..];
    SortStarts(was, a0, l0, k);
    while l - a > 1
      invariant a0 <= a <= l <= l0
      invariant Sorting(was, arr[..], a0, a, l, l0, k)
      invariant nest >= 1 && Nested(nest, l0 - a0)
      decreases l - a
    {
      ghost var n;
      a, l, n := SortPart(arr, was, a0, a, l, l0, k);
      nest := if n + 1 > nest then n + 1 else nest;
    }
    SortEnds(was, arr[..], a0, a, l, l0, k);
  }

  /** Of the two parts beside the pivot's likes the smaller one is sorted by a nested
      call, and the other is left. */
  method SortPart(arr: array<Merg>, ghost was: seq<Merg>, ghost a0: nat, a: nat, l: nat, ghost l0: nat, k: Keys)
    returns (a': nat, l': nat, ghost n: nat)
    requires a0 <= a <= l <= l0 <= arr.Length && l - a > 1 && Sorting(was, arr[..], a0, a, l, l0, k)
    modifies arr
    ensures a0 <= a' <= l' <= l0 && l' - a' < l - a && Sorting(was, arr[..], a0, a', l', l0, k)
    ensures Nested(n + 1, l0 - a0)
    decreases l - a, 0
  {
    hide *;
    ghost var s := arr[..];
    var lp, hp, p := Partition(arr, a, l, k);
    ghost var t := arr[..];
    SplitStep(was, s, t, a0, a, lp, hp, l, l0, p, k);
    if lp - a >= l - hp {
      n := QSort(arr, hp + 1, l, k);
      HighStep(was, t, arr[..], a0, a, lp, hp, l, l0, p, k);
      Half(n, l - hp - 1, l - a, l0 - a0);
      a', l' := a, lp;
    } else {
      n := QSort(arr, a, lp, k);
      LowStep(was, t, arr[..], a0, a, lp, hp, l, l0, p, k);
      Half(n, lp - a, l - a, l0 - a0);
      a', l' := hp + 1, l;
    }
  }

  lemma SplitIs(s: seq<Merg>, a: nat, lp: nat, hp: nat, l: nat, p: Merg, k: Keys)
    requires a <= lp <= hp < l && Below(s, a, lp, p, k) && Like(s, lp, hp + 1, p, k) && Above(s, hp + 1, l, p, k)
    ensures Split(s, a, lp, hp, l, p, k)
  {
  }

  lemma ShuffledWider(s: seq<Merg>, t: seq<Merg>, a: nat, b: nat, m: nat, l: nat)
    requires Shuffled(s, t, b, m) && a <= b && m <= l
    ensures Shuffled(s, t, a, l)
  {
  }

  lemma Half(nest: nat, m: nat, n: nat, n0: nat)
    requires Nested(nest, m) && 2 * m <= n && 2 <= n <= n0
    ensures Nested(nest + 1, n0)
  {
    assert nest == 1 ==> Pow2(1) == 2;
  }
}
