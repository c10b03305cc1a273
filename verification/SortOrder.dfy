/** What sort's order of lines comes to, option by option. */
module SortOrder {
  import opened Decimal
  import opened SortKeys

  /** s is a proper front of t, or smaller where they first differ. */
  ghost predicate Before(s: seq<int>, t: seq<int>) {
    exists d :: DiffersAt(s, t, d)
  }

  ghost predicate DiffersAt(s: seq<int>, t: seq<int>, d: int) {
    0 <= d <= |s| && d < |t| && s[..d] == t[..d] && (d == |s| || s[d] < t[d])
  }

  lemma {:induction false} LexIs(s: seq<int>, t: seq<int>)
    ensures Lex(s, t) == if s == t then 0 else if Before(s, t) then 1 else -1
    ensures Before(s, t) ==> s != t && !Before(t, s)
    ensures s == t || Before(s, t) || Before(t, s)
  {
    if s == [] || t == [] || s[0] != t[0] {
      DiffersAtOnce(s, t);
      DiffersAtOnce(t, s);
    } else {
      LexIs(s[1..], t[1..]);
      BeforeTail(s, t);
      BeforeTail(t, s);
      assert s == [s[0]] + s[1..] && t == [t[0]] + t[1..];
    }
  }

  lemma DiffersAtOnce(s: seq<int>, t: seq<int>)
    requires s == [] || t == [] || s[0] != t[0]
    ensures Before(s, t) <==> t != [] && (s == [] || s[0] < t[0])
  {
    if t != [] && (s == [] || s[0] < t[0]) {
      assert DiffersAt(s, t, 0);
    }
    if d :| DiffersAt(s, t, d) {
      SameHead(s, t, d);
    }
  }

  lemma SameHead(s: seq<int>, t: seq<int>, d: int)
    requires DiffersAt(s, t, d)
    ensures d > 0 ==> s != [] && t != [] && s[0] == t[0]
  {
    if d > 0 {
      assert s[..d][0] == t[..d][0];
    }
  }

  lemma BeforeTail(s: seq<int>, t: seq<int>)
    requires s != [] && t != [] && s[0] == t[0]
    ensures Before(s, t) <==> Before(s[1..], t[1..])
  {
    if d :| DiffersAt(s, t, d) {
      assert s[1..][..d - 1] == s[..d][1..] && t[1..][..d - 1] == t[..d][1..];
      assert DiffersAt(s[1..], t[1..], d - 1);
    }
    if d :| DiffersAt(s[1..], t[1..], d) {
      assert s[..d + 1] == [s[0]] + s[1..][..d] && t[..d + 1] == [t[0]] + t[1..][..d];
      assert DiffersAt(s, t, d + 1);
    }
  }

  // Text keys.

  /** Without -f, -d and -i a key is compared as it is. */
  lemma {:induction false} PlainText(f: Field, s: Line, p: nat, l: nat)
    requires l <= |s| && !f.fold && f.ignore == Nothing
    ensures Text(f, s, p, l) == if p <= l then s[p..l] else []
    decreases l - p
  {
    if p < l {
      PlainText(f, s, p + 1, l);
      assert s[p..l] == [s[p]] + s[p + 1..l];
    }
  }

  /** The part of a line that a key is, empty if its end comes before its start. */
  function Key(k: Keys, i: nat, s: Line): Line
    requires i < |k.fields|
  {
    if KeyStart(k, i, s) <= KeyEnd(k, i, s) then s[KeyStart(k, i, s)..KeyEnd(k, i, s)] else []
  }

  lemma PlainKey(k: Keys, i: nat, x: Line, y: Line)
    requires i < |k.fields| && !k.fields[i].nflg && !k.fields[i].fold && k.fields[i].ignore == Nothing
    ensures FieldSign(k, i, x, y) == if Key(k, i, x) == Key(k, i, y) then 0
      else if Before(Key(k, i, x), Key(k, i, y)) then k.fields[i].rflg else -k.fields[i].rflg
  {
    PlainText(k.fields[i], x, KeyStart(k, i, x), KeyEnd(k, i, x));
    PlainText(k.fields[i], y, KeyStart(k, i, y), KeyEnd(k, i, y));
    LexIs(Key(k, i, x), Key(k, i, y));
    hide Lex, Before;
  }

  /** The capital and the small form of a letter, or a backslash and a bracket. */
  predicate Alike(c: int, d: int) {
    || ('A' as int <= c <= 'Z' as int && d == c + ('a' as int - 'A' as int))
    || (c == '\\' as int && d == ']' as int)
  }

  /** -f makes the two cases of a letter alike, and a bracket and a backslash, and
      nothing else; the capitals and what is no letter stay as they are. */
  lemma FoldIs(c: Char, d: Char)
    ensures Code(false, c) == c
    ensures Code(true, c) == Code(true, d) <==>
      c == d || Alike(c, d) || Alike(d, c)
    ensures !('a' as int <= c <= 'z' as int) && c != ']' as int ==> Code(true, c) == c
  {
  }

  /** -d leaves letters, digits, blanks and tabs; -i what can be printed, and tabs. */
  lemma IgnoredIs(c: Char)
    ensures !Ignored(Nothing, c)
    ensures !Ignored(NonDict, c) <==>
      'a' as int <= c <= 'z' as int || 'A' as int <= c <= 'Z' as int || '0' as int <= c <= '9' as int ||
      c == ' ' as int || c == '\t' as int
    ensures !Ignored(NonPrint, c) <==> ' ' as int <= c <= '~' as int || c == '\t' as int
  {
  }

  /** What a key is compared by is made up of its characters in order, each coded or
      left out by itself. */
  lemma {:induction false} TextParts(f: Field, s: Line, p: nat, q: nat, l: nat)
    requires p <= q <= l <= |s|
    ensures Text(f, s, p, l) == Text(f, s, p, q) + Text(f, s, q, l)
    ensures q == p + 1 ==> Text(f, s, p, q) == if Ignored(f.ignore, s[p]) then [] else [Code(f.fold, s[p])]
    decreases q - p
  {
    if p < q {
      TextParts(f, s, p + 1, q, l);
    }
  }

  // Numbers.

  /** A number with one more digit. */
  lemma {:induction false} WholeDigit(s: seq<int>, d: int)
    ensures Whole(s + [d]) == 10 * Whole(s) + (d - '0' as int)
  {
    if s == [] {
      assert [d][1..] == [];
      assert Pow10(0) == 1;
    } else {
      WholeDigit(s[1..], d);
      assert (s + [d])[1..] == s[1..] + [d];
      TenTimes(s[0] - 48, |s|);
    }
  }

  lemma TenTimes(d: int, n: nat)
    requires n > 0
    ensures d * Pow10(n) == 10 * (d * Pow10(n - 1))
  {
  }

  /** Digits behind the point are a number divided by a power of ten. */
  lemma {:induction false} PartIs(s: seq<int>)
    ensures Part(s) * Pow10(|s|) as real == Whole(s) as real
  {
    if s != [] {
      PartIs(s[1..]);
      var d, r, p := (s[0] - 48) as real, Part(s[1..]), Pow10(|s| - 1) as real;
      assert Pow10(|s|) as real == 10.0 * p;
      Tenth(d, r, p);
      assert d * p == ((s[0] - 48) * Pow10(|s| - 1)) as real;
    }
  }

  lemma Tenth(d: real, r: real, p: real)
    ensures (d + r) / 10.0 * (10.0 * p) == d * p + r * p
  {
    var x := (d + r) / 10.0;
    assert x * 10.0 == d + r;
    assert x * (10.0 * p) == (x * 10.0) * p;
  }

  lemma {:induction false} WholeConcat(s: seq<int>, t: seq<int>)
    ensures Whole(s + t) == Whole(s) * Pow10(|t|) + Whole(t)
    decreases |t|
  {
    if t == [] {
      assert s + t == s;
    } else {
      var u, d := t[..|t| - 1], t[|t| - 1];
      WholeConcat(s, u);
      assert s + t == (s + u) + [d] && t == u + [d];
      WholeDigit(s + u, d);
      WholeDigit(u, d);
      TenTimes(Whole(s), |t|);
    }
  }

  /** The value of a number is that of all its digits, the point moved back. */
  lemma ValueIs(n: Number)
    ensures Value(n) * Pow10(|n.part|) as real ==
      if n.negative then -(Whole(n.whole + n.part) as real) else Whole(n.whole + n.part) as real
  {
    hide *;
    var w, p, x, v := Whole(n.whole), Pow10(|n.part|), Part(n.part), Whole(n.whole + n.part);
    PartIs(n.part);
    WholeConcat(n.whole, n.part);
    Scaled(w, x, p, p as real, Whole(n.part), v);
    ValueSigned(n);
    Signed(n.negative, w as real + x, Value(n), p as real, v as real);
  }

  lemma ValueSigned(n: Number)
    ensures Value(n) ==
      if n.negative then -(Whole(n.whole) as real + Part(n.part)) else Whole(n.whole) as real + Part(n.part)
  {
    hide Whole, Part;
  }

  lemma Signed(negative: bool, m: real, x: real, q: real, v: real)
    requires m * q == v && x == if negative then -m else m
    ensures x * q == if negative then -v else v
  {
    Negate(m, q);
  }

  lemma Scaled(w: int, x: real, p: int, q: real, r: int, v: int)
    requires q == p as real && x * q == r as real && v == w * p + r
    ensures (w as real + x) * q == v as real
  {
    Distribute(w as real, x, q);
    Product(w, p);
  }

  lemma Distribute(a: real, b: real, c: real)
    ensures (a + b) * c == a * c + b * c
  {
  }

  lemma Negate(a: real, b: real)
    ensures -a * b == -(a * b)
  {
  }

  lemma Product(a: int, b: int)
    ensures a as real * b as real == (a * b) as real
  {
  }

  ghost predicate AreDigits(s: seq<int>) {
    forall i :: 0 <= i < |s| ==> '0' as int <= s[i] <= '9' as int
  }

  /** A number as it is written. */
  ghost function Written(neg: bool, ds: seq<int>, point: bool, fs: seq<int>): seq<int> {
    (if neg then ['-' as int] else []) + ds + if point then ['.' as int] + fs else []
  }

  lemma DigitsEndAt(s: Line, p: nat, ds: seq<int>, l: nat)
    requires p + |ds| <= |s| && s[p..p + |ds|] == ds && AreDigits(ds) && p + |ds| <= l
    requires p + |ds| == l || !('0' as int <= At(s, p + |ds|) <= '9' as int)
    ensures DigitsEnd(s, p, l) == p + |ds|
    decreases |ds|
  {
    if ds != [] {
      assert s[p] == s[p..p + |ds|][0];
      assert s[p + 1..p + 1 + |ds[1..]|] == ds[1..];
      DigitsEndAt(s, p + 1, ds[1..], l);
    }
  }

  lemma BlanksEndAt(s: Line, p: nat, b: nat)
    requires p <= b <= |s| && forall j :: p <= j < b ==> s[j] == ' ' as int || s[j] == '\t' as int
    requires b < |s| && s[b] != ' ' as int && s[b] != '\t' as int
    ensures PastBlanks(s, p) == b
    decreases b - p
  {
    if p < b {
      BlanksEndAt(s, p + 1, b);
    }
  }

  /** A numeric key that holds a number behind blanks reads as that number. */
  lemma NumberRead(tab: int, s: Line, p: nat, b: nat, l: nat, neg: bool, ds: seq<int>, point: bool, fs: seq<int>)
    requires p <= b < l <= |s| && (tab == 0 || s[p] != tab) && AreDigits(ds) && AreDigits(fs)
    requires forall j :: p <= j < b ==> s[j] == ' ' as int || s[j] == '\t' as int
    requires s[b..l] == Written(neg, ds, point, fs)
    ensures NumberAt(tab, s, p, l) == Number(neg, ds, if point then fs else [])
  {
    hide *;
    var d := if neg then b + 1 else b;
    var q := d + |ds|;
    WrittenAt(s, b, l, neg, ds, point, fs);
    BlanksEndAt(s, p, b);
    WrittenEnds(s, d, q, l, ds, point, fs);
    NumberParts(tab, s, p, l, b, d, q);
  }

  lemma WrittenEnds(s: Line, d: nat, q: nat, l: nat, ds: seq<int>, point: bool, fs: seq<int>)
    requires d + |ds| == q <= l <= |s| && s[d..q] == ds && AreDigits(ds) && AreDigits(fs)
    requires if point then q < l && s[q] == '.' as int && q + 1 + |fs| == l && s[q + 1..l] == fs else q == l
    ensures DigitsEnd(s, d, l) == q
    ensures DigitsEnd(s, if point then q + 1 else q, l) == l
    ensures !point && q + 1 <= |s| ==> DigitsEnd(s, q + 1, l) == q + 1
  {
    hide DigitsEnd, AreDigits;
    DigitsEndAt(s, d, ds, l);
    if point {
      DigitsEndAt(s, q + 1, fs, l);
    } else {
      PastLast(s, q + 1, l);
      PastLast(s, q, l);
    }
  }

  lemma NumberParts(tab: int, s: Line, p: nat, l: nat, b: nat, d: nat, q: nat)
    requires p <= b < |s| && (p < l && tab != 0 ==> s[p] != tab) && PastBlanks(s, p) == b
    requires d == (if s[b] == '-' as int then b + 1 else b) && DigitsEnd(s, d, l) == q
    ensures q < |s| && s[q] == '.' as int ==>
      NumberAt(tab, s, p, l) == Number(d > b, s[d..q], s[q + 1..DigitsEnd(s, q + 1, l)])
    ensures !(q < |s| && s[q] == '.' as int) ==>
      NumberAt(tab, s, p, l) == Number(d > b, s[d..q], s[q..DigitsEnd(s, q, l)])
  {
    hide DigitsEnd, PastBlanks, Digits;
  }

  lemma PastLast(s: Line, p: nat, l: nat)
    ensures l <= p <= |s| ==> DigitsEnd(s, p, l) == p
  {
  }

  lemma Within(s: Line, b: nat, l: nat, x: nat, y: nat, d: nat, q: nat)
    requires b <= l <= |s| && x <= y && d == b + x && q == b + y && q <= l
    ensures s[b..l][x..y] == s[d..q] && (q < l ==> s[b..l][y] == s[q])
  {
    var u, v := s[b..l][x..y], s[d..q];
    assert |u| == |v| && forall i :: 0 <= i < |u| ==> u[i] == v[i];
  }

  lemma WrittenAt(s: Line, b: nat, l: nat, neg: bool, ds: seq<int>, point: bool, fs: seq<int>)
    requires b < l <= |s| && s[b..l] == Written(neg, ds, point, fs) && AreDigits(ds) && AreDigits(fs)
    ensures var d := if neg then b + 1 else b;
      var q := d + |ds|;
      && q <= l && s[d..q] == ds && (neg <==> s[b] == '-' as int) && s[b] != ' ' as int && s[b] != '\t' as int
      && (point ==> q < l && s[q] == '.' as int && q + 1 + |fs| == l && s[q + 1..l] == fs)
      && (!point ==> q == l)
  {
    var d := if neg then b + 1 else b;
    var q, w := d + |ds|, s[b..l];
    assert s[b] == w[0];
    var x := WrittenParts(w, neg, ds, point, fs);
    hide *;
    Within(s, b, l, x, x + |ds|, d, q);
    if point {
      Within(s, b, l, x + |ds| + 1, |w|, q + 1, l);
    }
  }

  lemma WrittenParts(w: seq<int>, neg: bool, ds: seq<int>, point: bool, fs: seq<int>) returns (x: nat)
    requires w != [] && w == Written(neg, ds, point, fs) && AreDigits(ds) && AreDigits(fs)
    ensures x == (if neg then 1 else 0) && |w| == x + |ds| + if point then 1 + |fs| else 0
    ensures w[x..x + |ds|] == ds && (neg <==> w[0] == '-' as int) && w[0] != ' ' as int && w[0] != '\t' as int
    ensures point ==> w[x + |ds|] == '.' as int && w[x + |ds| + 1..|w|] == fs
  {
    x := if neg then 1 else 0;
    var sign, rest := if neg then ['-' as int] else [], if point then ['.' as int] + fs else [];
    assert w == sign + ds + rest;
    assert ds != [] ==> '0' as int <= ds[0] <= '9' as int;
    hide AreDigits, Written;
    assert w[x..] == ds + rest;
    assert w[x + |ds|..] == rest;
    assert w[0] == if neg then '-' as int else if ds != [] then ds[0] else '.' as int;
  }

  /** The separator before a numeric key is passed over. */
  lemma NumberBehindTab(tab: int, s: Line, p: nat, l: nat)
    requires tab != 0 && p < l <= |s| && s[p] == tab
    ensures NumberAt(tab, s, p, l) == NumberAt(0, s, p + 1, l)
  {
  }

  // All keys.

  /** The first key by which lines differ decides, and the whole lines do if there is none. */
  lemma {:induction false} FirstKey(k: Keys, i: nat, n: nat, x: Line, y: Line)
    requires i <= n <= |k.fields| && forall j: nat :: i <= j < n ==> FieldSign(k, j, x, y) == 0
    ensures n < |k.fields| && FieldSign(k, n, x, y) != 0 ==>
      KeysSign(k, i, x, y) == KeysOnly(k, i, x, y) == FieldSign(k, n, x, y)
    ensures n == |k.fields| ==> KeysOnly(k, i, x, y) == 0 && KeysSign(k, i, x, y) == k.fields[0].rflg * Lex(x, y)
    decreases n - i
  {
    hide FieldSign, Lex;
    if i < n {
      FirstKey(k, i + 1, n, x, y);
    }
  }

  /** Without options lines are in ascending order. */
  lemma PlainOrder(k: Keys, x: Line, y: Line)
    requires !k.general && k.fields[0].rflg == 1
    ensures Sign(k, x, y) >= 0 <==> x == y || Before(x, y)
  {
    LexIs(x, y);
    hide Lex, Before;
  }

  ghost predicate Ascending(ls: seq<Line>) {
    forall i, j :: 0 <= i < j < |ls| ==> ls[i] == ls[j] || Before(ls[i], ls[j])
  }

  lemma AscendingIs(k: Keys, ls: seq<Line>)
    requires !k.general && k.fields[0].rflg == 1 && forall i, j :: 0 <= i < j < |ls| ==> Sign(k, ls[i], ls[j]) >= 0
    ensures Ascending(ls)
  {
    hide Sign, Before;
    forall i, j | 0 <= i < j < |ls|
      ensures ls[i] == ls[j] || Before(ls[i], ls[j])
    {
      PlainOrder(k, ls[i], ls[j]);
    }
  }

  // Where a key starts and ends.

  /** How many times a character occurs in a part of a line. */
  ghost function Count(s: Line, p: int, r: int, tab: Char): nat
  {
    if 0 <= p <= r <= |s| then multiset(s[p..r])[tab] else 0
  }

  /** A place r behind i separators, at the last of them for the end of a key; there
      is none if there are fewer. */
  ghost predicate TabPlace(s: Line, p: nat, i: nat, tab: Char, last: bool, f: Skipped) {
    && (f.Over? <==> Count(s, p, |s|, tab) >= i)
    && (f.Over? ==> p <= f.p <= |s|)
    && (f.Over? && i == 0 ==> f.p == p)
    && (f.Over? && i > 0 && last ==> f.p < |s| && s[f.p] == tab && Count(s, p, f.p, tab) == i - 1)
    && (f.Over? && i > 0 && !last ==> p < f.p && s[f.p - 1] == tab && Count(s, p, f.p, tab) == i)
  }

  /** With a field separator a key starts behind as many separators as fields are to
      be skipped, and ends before the last of them; it is the end of the line if there
      are fewer. */
  lemma {:induction false} TabFields(s: Line, p: nat, i: nat, tab: Char, last: bool)
    requires p <= |s| && tab != 0
    ensures TabPlace(s, p, i, tab, last, SkipFields(s, p, i, tab, last))
    decreases i
  {
    if i == 0 {
      SkipNone(s, p, tab, last);
    } else {
      hide SkipFields, Count, TabAt, TabPlace;
      var q := TabAt(s, p, tab);
      SkipOne(s, p, i, tab, last);
      if q < |s| {
        var next := if i > 1 || !last then q + 1 else q;
        TabFields(s, next, i - 1, tab, last);
        TabNext(s, p, i, q, tab, last, SkipFields(s, next, i - 1, tab, last));
      } else {
        TabOut(s, p, i, tab, last);
      }
    }
  }

  lemma TabOut(s: Line, p: nat, i: nat, tab: Char, last: bool)
    requires p <= |s| && i > 0 && forall j :: p <= j < |s| ==> s[j] != tab
    ensures TabPlace(s, p, i, tab, last, Out)
  {
    CountFirst(s, p, |s|, |s|, tab);
  }

  lemma TabNext(s: Line, p: nat, i: nat, q: nat, tab: Char, last: bool, f: Skipped)
    requires p <= q < |s| && i > 0 && s[q] == tab && forall j :: p <= j < q ==> s[j] != tab
    requires TabPlace(s, if i > 1 || !last then q + 1 else q, i - 1, tab, last, f)
    ensures TabPlace(s, p, i, tab, last, f)
  {
    hide Count;
    CountFirst(s, p, q, |s|, tab);
    CountNone(s, q + 1, tab);
    if f.Over? {
      CountFirst(s, p, q, f.p, tab);
    }
  }

  lemma CountNone(s: Line, p: nat, tab: Char)
    ensures Count(s, p, p, tab) == 0
  {
  }

  lemma CountFirst(s: Line, p: nat, q: nat, r: nat, tab: Char)
    requires p <= q <= |s| && p <= r <= |s| && (q < |s| ==> s[q] == tab) && forall j :: p <= j < q ==> s[j] != tab
    ensures Count(s, p, r, tab) == if r <= q then 0 else 1 + Count(s, q + 1, r, tab)
  {
    if q < r {
      assert s[p..r] == s[p..q] + [s[q]] + s[q + 1..r];
      NoTab(s[p..q], tab);
    } else {
      NoTab(s[p..r], tab);
    }
  }

  lemma NoTab(s: Line, tab: Char)
    requires forall j :: 0 <= j < |s| ==> s[j] != tab
    ensures multiset(s)[tab] == 0
  {
  }

  // Without a separator, fields are what stands between blanks.

  predicate Space(c: int) { c == ' ' as int || c == '\t' as int }

  predicate Begins(s: Line, j: int) {
    0 <= j < |s| && !Space(s[j]) && (j == 0 || Space(s[j - 1]))
  }

  /** How many fields begin in a part of a line. */
  ghost function Fields(s: Line, p: nat, r: nat): nat
    decreases r
  {
    if r <= p then 0 else Fields(s, p, r - 1) + if Begins(s, r - 1) then 1 else 0
  }

  /** The i-th field from p on ends at r, before a blank. */
  ghost predicate FieldEnd(s: Line, p: nat, i: nat, r: nat) {
    p < r < |s| && Space(s[r]) && !Space(s[r - 1]) && Fields(s, p, r) == i
  }

  /** A place r behind i fields; there is none if fewer end before the line does. */
  ghost predicate FieldPlace(s: Line, p: nat, i: nat, f: Skipped) {
    && (i == 0 ==> f == Over(p))
    && (i > 0 && f.Over? ==> FieldEnd(s, p, i, f.p))
    && (i > 0 && f.Out? ==> forall r: nat :: !FieldEnd(s, p, i, r))
  }

  /** Without a field separator a key starts or ends behind as many fields as are to
      be skipped; it is the end of the line if fewer end before it. */
  lemma {:induction false} BlankFields(s: Line, p: nat, i: nat, last: bool)
    requires p <= |s| && (p == 0 || (p < |s| && Space(s[p])))
    ensures FieldPlace(s, p, i, SkipFields(s, p, i, 0, last))
    decreases i
  {
    if i == 0 {
      SkipNone(s, p, 0, last);
    } else {
      var b := PastBlanks(s, p);
      var q := BlankAt(s, b);
      SkipOne(s, p, i, 0, last);
      OneField(s, p, b, q);
      hide SkipFields, PastBlanks, BlankAt, FieldPlace, Fields;
      if q < |s| {
        BlankFields(s, q, i - 1, last);
        FieldNext(s, p, i, q, SkipFields(s, q, i - 1, 0, last));
      } else {
        FieldOut(s, p, i);
      }
    }
  }

  /** Up to q there is one field, which starts at b and ends at q. */
  ghost predicate FirstField(s: Line, p: nat, q: nat) {
    && p <= q <= |s| && (forall r: nat :: p < r <= q && r < |s| && Space(s[r]) && !Space(s[r - 1]) ==> r == q)
    && (q < |s| ==> FieldEnd(s, p, 1, q))
  }

  lemma OneField(s: Line, p: nat, b: nat, q: nat)
    requires p <= b <= q <= |s| && (p == 0 || (p < |s| && Space(s[p])))
    requires (b < |s| ==> !Space(s[b])) && forall j :: p <= j < b ==> Space(s[j])
    requires (q < |s| ==> Space(s[q])) && forall j :: b <= j < q ==> !Space(s[j])
    ensures FirstField(s, p, q)
  {
    NoField(s, p, b);
    if q < |s| {
      assert b < q;
      SameField(s, p, b, q);
    }
  }

  lemma {:induction false} NoField(s: Line, p: nat, b: nat)
    requires p <= b <= |s| && forall j :: p <= j < b ==> Space(s[j])
    ensures Fields(s, p, b) == 0
  {
    if p < b {
      NoField(s, p, b - 1);
    }
  }

  lemma {:induction false} SameField(s: Line, p: nat, b: nat, q: nat)
    requires p <= b < q <= |s| && Fields(s, p, b) == 0 && Begins(s, b) && forall j :: b <= j < q ==> !Space(s[j])
    ensures Fields(s, p, q) == 1
  {
    if q > b + 1 {
      SameField(s, p, b, q - 1);
    }
  }

  lemma {:induction false} FieldsSplit(s: Line, p: nat, q: nat, r: nat)
    requires p <= q <= r
    ensures Fields(s, p, r) == Fields(s, p, q) + Fields(s, q, r)
    decreases r
  {
    if q < r {
      FieldsSplit(s, p, q, r - 1);
    }
  }

  lemma FieldOut(s: Line, p: nat, i: nat)
    requires FirstField(s, p, |s|) && i > 0
    ensures FieldPlace(s, p, i, Out)
  {
    hide Fields;
  }

  lemma FieldNext(s: Line, p: nat, i: nat, q: nat, f: Skipped)
    requires FirstField(s, p, q) && q < |s| && i > 0 && FieldPlace(s, q, i - 1, f)
    ensures FieldPlace(s, p, i, f)
  {
    hide Fields;
    forall r: nat
      ensures q < r ==> (FieldEnd(s, p, i, r) <==> FieldEnd(s, q, i - 1, r))
      ensures FieldEnd(s, p, i, r) ==> q < r || (i == 1 && r == q)
    {
      if q <= r {
        FieldsSplit(s, p, q, r);
      }
    }
  }

  /** A mark of a key: behind the fields, and the blanks after them with -b, it is
      n characters on, but not past the line. */
  lemma SkipIs(s: Line, mark: Mark, tab: Char, last: bool) returns (f: Skipped, q: int)
    requires mark.m >= 0 && mark.n >= 0
    ensures if tab != 0 then TabPlace(s, 0, mark.m, tab, last, f) else FieldPlace(s, 0, mark.m, f)
    ensures f.Out? ==> Skip(s, mark, tab, last) == |s|
    ensures f.Over? ==> f.p <= q <= |s| && (tab != 0 || !mark.b ==> q == f.p)
    ensures f.Over? && tab == 0 && mark.b ==>
      (forall j :: f.p <= j < q ==> Space(s[j])) && (q < |s| ==> !Space(s[q]))
    ensures f.Over? ==> Skip(s, mark, tab, last) == if q + mark.n <= |s| then q + mark.n else |s|
  {
    if tab != 0 {
      TabFields(s, 0, mark.m, tab, last);
    } else {
      BlankFields(s, 0, mark.m, last);
    }
    hide SkipFields, TabPlace, FieldPlace, PastBlanks;
    f := SkipFields(s, 0, mark.m, tab, last);
    q := 0;
    if f.Over? {
      q := if tab == 0 && mark.b then PastBlanks(s, f.p) else f.p;
    }
  }
}
