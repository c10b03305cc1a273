/** sort's order of lines: keys, numbers and text, and the whole line last. */
module SortKeys {
  import opened Decimal

  /** A character of a line: signed, and never the newline that ends the line. */
  type Char = c: int | -128 <= c < 128 && c != NL witness 0

  type Line = seq<Char>

  const NL := 10

  /** The character at p; the newline follows the line. */
  function At(s: Line, p: nat): int {
    if p < |s| then s[p] else NL
  }

  datatype Ignore = Nothing | NonPrint | NonDict

  /** One end of a key: skip m fields, then n characters; -1 fields is the end of
      the line. */
  datatype Mark = Mark(m: int, n: int, b: bool)

  datatype Field = Field(fold: bool, ignore: Ignore, nflg: bool, rflg: int, from: Mark, to: Mark)

  /** The options: fields[0] holds the global ones, the others are the keys.
      Without any option lines are compared as they are. */
  datatype Options = Options(fields: seq<Field>, tabchar: int, general: bool)

  predicate Valid(k: Options) {
    && |k.fields| >= 1 && k.tabchar != NL
    && forall i :: 0 <= i < |k.fields| ==> k.fields[i].rflg == 1 || k.fields[i].rflg == -1
  }

  const PROTO := Field(false, Nothing, false, 1, Mark(0, 0, false), Mark(-1, 0, false))

  type Keys = k: Options | Valid(k) witness Options([PROTO], 0, false)

  predicate Blank(c: int) { c == 32 || c == 9 }

  /** The ignore tables. */
  predicate Ignored(g: Ignore, c: int) {
    match g
    case Nothing => false
    case NonPrint => c < 9 || 10 < c < 32 || c == 127
    case NonDict => !(c == 9 || c == 10 || c == 32 || 48 <= c <= 57 || 65 <= c <= 90 || 97 <= c <= 122)
  }

  /** The code tables: fold makes letters upper case, and ']' a backslash. */
  function Code(fold: bool, c: int): int {
    if !fold then c else if 97 <= c <= 122 then c - 32 else if c == 93 then 92 else c
  }

  /** Positive if s sorts before t: an end comes before any character. */
  function Lex(s: seq<int>, t: seq<int>): int {
    if s == [] then (if t == [] then 0 else 1)
    else if t == [] then -1
    else if s[0] == t[0] then Lex(s[1..], t[1..])
    else if s[0] < t[0] then 1
    else -1
  }

  // The ends of a key: where skip's loops lead.

  function TabAt(s: Line, p: nat, tab: int): (q: nat)
    requires p <= |s|
    ensures p <= q <= |s| && (q < |s| ==> s[q] == tab) && forall j :: p <= j < q ==> s[j] != tab
    decreases |s| - p
  {
    if p < |s| && s[p] != tab then TabAt(s, p + 1, tab) else p
  }

  function PastBlanks(s: Line, p: nat): (q: nat)
    requires p <= |s|
    ensures p <= q <= |s| && !Blank(At(s, q)) && forall j :: p <= j < q ==> Blank(s[j])
    decreases |s| - p
  {
    if p < |s| && Blank(s[p]) then PastBlanks(s, p + 1) else p
  }

  function BlankAt(s: Line, p: nat): (q: nat)
    requires p <= |s|
    ensures p <= q <= |s| && (q < |s| ==> Blank(s[q])) && forall j :: p <= j < q ==> !Blank(s[j])
    decreases |s| - p
  {
    if p < |s| && !Blank(s[p]) then BlankAt(s, p + 1) else p
  }

  datatype Skipped = Over(p: nat) | Out

  /** The position i fields on, unless the line ends before. */
  function SkipFields(s: Line, p: nat, i: nat, tab: int, last: bool): (r: Skipped)
    requires p <= |s|
    ensures r.Over? ==> r.p <= |s|
    decreases i
  {
    if i == 0 then Over(p)
    else
      var q := if tab != 0 then TabAt(s, p, tab) else BlankAt(s, PastBlanks(s, p));
      if q == |s| then Out
      else SkipFields(s, if tab != 0 && (i > 1 || !last) then q + 1 else q, i - 1, tab, last)
  }

  /** Where a mark of a key leads in a line. */
  function Skip(s: Line, mark: Mark, tab: int, last: bool): (r: nat)
    ensures r <= |s|
  {
    if mark.m < 0 then |s|
    else match SkipFields(s, 0, mark.m, tab, last)
      case Out => |s|
      case Over(p) =>
        var q := if tab == 0 && mark.b then PastBlanks(s, p) else p;
        if mark.n <= 0 then q else if q + mark.n <= |s| then q + mark.n else |s|
  }

  /** Field 0 is the whole line. */
  function KeyStart(k: Keys, i: nat, s: Line): (r: nat)
    requires i < |k.fields|
    ensures r <= |s|
  {
    if i == 0 then 0 else Skip(s, k.fields[i].from, k.tabchar, false)
  }

  function KeyEnd(k: Keys, i: nat, s: Line): (r: nat)
    requires i < |k.fields|
    ensures r <= |s|
  {
    if i == 0 then |s| else Skip(s, k.fields[i].to, k.tabchar, true)
  }

  /** What a text key compares: the characters not ignored, coded. */
  function Text(f: Field, s: Line, p: nat, l: nat): seq<int>
    requires l <= |s|
    decreases l - p
  {
    if p >= l then []
    else if Ignored(f.ignore, s[p]) then Text(f, s, p + 1, l)
    else [Code(f.fold, s[p])] + Text(f, s, p + 1, l)
  }

  function DigitsEnd(s: Line, p: nat, l: nat): (q: nat)
    requires p <= |s|
    ensures p <= q <= |s| && Digits(s[p..q]) && (q >= l || !IsDigit(At(s, q)))
    decreases |s| - p
  {
    if p < l && IsDigit(At(s, p)) then DigitsEnd(s, p + 1, l) else p
  }

  /** Where the digits start, after a field separator, blanks and a minus sign. */
  function SignAt(tab: int, s: Line, p: nat, l: nat): (q: nat)
    requires p <= |s|
    ensures q <= |s|
  {
    PastBlanks(s, if tab != 0 && p < l && At(s, p) == tab then (if p < |s| then p + 1 else p) else p)
  }

  /** The number a numeric key holds. */
  function NumberAt(tab: int, s: Line, p: nat, l: nat): (n: Number)
    requires p <= |s|
    ensures IsNumber(n)
  {
    var b := SignAt(tab, s, p, l);
    var d := if At(s, b) == 45 then b + 1 else b;
    var q := DigitsEnd(s, d, l);
    var r := if At(s, q) == 46 then q + 1 else q;
    Number(d > b, s[d..q], s[r..DigitsEnd(s, r, l)])
  }

  /** The order of one key: 1 if x sorts before y by it, -1 if after. */
  ghost function FieldSign(k: Keys, i: nat, x: Line, y: Line): int
    requires i < |k.fields|
  {
    var f := k.fields[i];
    if f.nflg then
      f.rflg * SgnR(Value(NumberAt(k.tabchar, y, KeyStart(k, i, y), KeyEnd(k, i, y))) -
                    Value(NumberAt(k.tabchar, x, KeyStart(k, i, x), KeyEnd(k, i, x))))
    else
      f.rflg * Lex(Text(f, x, KeyStart(k, i, x), KeyEnd(k, i, x)), Text(f, y, KeyStart(k, i, y), KeyEnd(k, i, y)))
  }

  /** The order by the keys from the i-th on, and by the whole line if they agree. */
  ghost function KeysSign(k: Keys, i: nat, x: Line, y: Line): int
    decreases |k.fields| - i
  {
    if i >= |k.fields| then k.fields[0].rflg * Lex(x, y)
    else if FieldSign(k, i, x, y) != 0 then FieldSign(k, i, x, y)
    else KeysSign(k, i + 1, x, y)
  }

  /** The order by the keys from the i-th on alone, which is all there is with -u. */
  ghost function KeysOnly(k: Keys, i: nat, x: Line, y: Line): int
    decreases |k.fields| - i
  {
    if i >= |k.fields| then 0
    else if FieldSign(k, i, x, y) != 0 then FieldSign(k, i, x, y)
    else KeysOnly(k, i + 1, x, y)
  }

  /** sort's order: 1 if x sorts before y, -1 if after. */
  ghost function Sign(k: Keys, x: Line, y: Line): int
  {
    KeysSign(k, if !k.general then |k.fields| else if |k.fields| > 1 then 1 else 0, x, y)
  }

  // The order is total, and only a line itself is like it.

  lemma {:induction false} LexAnti(s: seq<int>, t: seq<int>)
    ensures Lex(s, t) == -Lex(t, s) && -1 <= Lex(s, t) <= 1
    ensures Lex(s, t) == 0 <==> s == t
  {
    if s != [] && t != [] {
      LexAnti(s[1..], t[1..]);
      assert s == [s[0]] + s[1..] && t == [t[0]] + t[1..];
    }
  }

  lemma {:induction false} LexTrans(s: seq<int>, t: seq<int>, u: seq<int>)
    requires Lex(s, t) >= 0 && Lex(t, u) >= 0
    ensures Lex(s, u) >= 0
  {
    if s != [] && t != [] && u != [] {
      if s[0] == t[0] && t[0] == u[0] {
        LexTrans(s[1..], t[1..], u[1..]);
      }
    }
  }

  /** Both ways of one key, either way round. */
  lemma FieldAnti(k: Keys, i: nat, x: Line, y: Line)
    requires i < |k.fields|
    ensures FieldSign(k, i, x, y) == -FieldSign(k, i, y, x)
  {
    var f := k.fields[i];
    LexAnti(Text(f, x, KeyStart(k, i, x), KeyEnd(k, i, x)), Text(f, y, KeyStart(k, i, y), KeyEnd(k, i, y)));
  }

  lemma FieldTrans(k: Keys, i: nat, x: Line, y: Line, z: Line)
    requires i < |k.fields| && FieldSign(k, i, x, y) >= 0 && FieldSign(k, i, y, z) >= 0
    ensures FieldSign(k, i, x, z) >= 0
  {
    var f := k.fields[i];
    var s := Text(f, x, KeyStart(k, i, x), KeyEnd(k, i, x));
    var t := Text(f, y, KeyStart(k, i, y), KeyEnd(k, i, y));
    var u := Text(f, z, KeyStart(k, i, z), KeyEnd(k, i, z));
    LexAnti(s, t);
    LexAnti(t, u);
    LexAnti(s, u);
    if !f.nflg {
      if f.rflg == 1 {
        LexTrans(s, t, u);
      } else {
        LexTrans(u, t, s);
      }
    }
  }

  lemma {:induction false} KeysAnti(k: Keys, i: nat, x: Line, y: Line)
    ensures KeysSign(k, i, x, y) == -KeysSign(k, i, y, x)
    ensures KeysSign(k, i, x, y) == 0 <==> x == y
    decreases |k.fields| - i
  {
    hide FieldSign;
    if i < |k.fields| {
      FieldAnti(k, i, x, y);
      FieldAnti(k, i, x, x);
      KeysAnti(k, i + 1, x, y);
    } else {
      LexAnti(x, y);
    }
  }

  lemma {:induction false} KeysTrans(k: Keys, i: nat, x: Line, y: Line, z: Line)
    requires KeysSign(k, i, x, y) >= 0 && KeysSign(k, i, y, z) >= 0
    ensures KeysSign(k, i, x, z) >= 0
    decreases |k.fields| - i
  {
    hide FieldSign, Lex;
    if i < |k.fields| {
      FieldTrans(k, i, x, y, z);
      FieldAnti(k, i, x, y);
      FieldAnti(k, i, y, z);
      FieldAnti(k, i, x, z);
      if FieldSign(k, i, x, z) == 0 {
        if FieldSign(k, i, x, y) > 0 {
          FieldTrans(k, i, y, z, x);
        }
        if FieldSign(k, i, y, z) > 0 {
          FieldTrans(k, i, z, x, y);
        }
        KeysTrans(k, i + 1, x, y, z);
      }
    } else {
      WholeTrans(k.fields[0].rflg, x, y, z);
    }
  }

  lemma WholeTrans(rflg: int, x: Line, y: Line, z: Line)
    requires (rflg == 1 || rflg == -1) && rflg * Lex(x, y) >= 0 && rflg * Lex(y, z) >= 0
    ensures rflg * Lex(x, z) >= 0
  {
    hide Lex;
    LexAnti(x, y);
    LexAnti(y, z);
    LexAnti(x, z);
    if rflg == 1 {
      LexTrans(x, y, z);
    } else {
      LexTrans(z, y, x);
    }
  }

  /** Lines are totally ordered, whatever the options. */
  lemma SignOrder(k: Keys, x: Line, y: Line, z: Line)
    ensures Sign(k, x, y) == -Sign(k, y, x)
    ensures Sign(k, x, y) == 0 <==> x == y
    ensures Sign(k, x, y) >= 0 && Sign(k, y, z) >= 0 ==> Sign(k, x, z) >= 0
  {
    hide KeysSign;
    var i := if !k.general then |k.fields| else if |k.fields| > 1 then 1 else 0;
    KeysAnti(k, i, x, y);
    if KeysSign(k, i, x, y) >= 0 && KeysSign(k, i, y, z) >= 0 {
      KeysTrans(k, i, x, y, z);
    }
  }

  // The program: skip, cmpa and cmp.

  method FindTab(s: Line, p: nat, tab: int) returns (q: nat)
    requires p <= |s| && tab != NL
    ensures q == TabAt(s, p, tab)
  {
    q := p;
    while At(s, q) != tab && At(s, q) != NL
      invariant p <= q <= |s| && TabAt(s, q, tab) == TabAt(s, p, tab)
      decreases |s| - q
    {
      q := q + 1;
    }
  }

  method DropBlanks(s: Line, p: nat) returns (q: nat)
    requires p <= |s|
    ensures q == PastBlanks(s, p)
  {
    q := p;
    while Blank(At(s, q))
      invariant p <= q <= |s| && PastBlanks(s, q) == PastBlanks(s, p)
      decreases |s| - q
    {
      q := q + 1;
    }
  }

  method FindBlank(s: Line, p: nat) returns (q: nat)
    requires p <= |s|
    ensures q == BlankAt(s, p)
  {
    q := p;
    while !Blank(At(s, q)) && At(s, q) != NL
      invariant p <= q <= |s| && BlankAt(s, q) == BlankAt(s, p)
      decreases |s| - q
    {
      q := q + 1;
    }
  }

  /** Over m fields: not in if the line ends before. */
  method SkipOver(s: Line, m: int, tab: int, last: bool) returns (p: nat, within: bool)
    requires tab != NL && m >= 0
    ensures p <= |s| && SkipFields(s, 0, m, tab, last) == if within then Over(p) else Out
  {
    hide TabAt, BlankAt, PastBlanks, Blank, SkipFields;
    p := 0;
    var i: int := m;
    while i > 0
      invariant 0 <= i <= m && p <= |s|
      invariant SkipFields(s, p, i, tab, last) == SkipFields(s, 0, m, tab, last)
    {
      SkipOne(s, p, i, tab, last);
      i := i - 1;
      if tab != 0 {
        p := FindTab(s, p, tab);
        if p == |s| {
          return p, false;
        }
        if i > 0 || !last {
          p := p + 1;
        }
      } else {
        p := DropBlanks(s, p);
        p := FindBlank(s, p);
        if p == |s| {
          return p, false;
        }
      }
    }
    SkipNone(s, p, tab, last);
    within := true;
  }

  lemma SkipOne(s: Line, p: nat, i: nat, tab: int, last: bool)
    requires p <= |s| && i > 0
    ensures var q := if tab != 0 then TabAt(s, p, tab) else BlankAt(s, PastBlanks(s, p));
      SkipFields(s, p, i, tab, last) ==
      if q == |s| then Out else SkipFields(s, if tab != 0 && (i > 1 || !last) then q + 1 else q, i - 1, tab, last)
  {
    hide TabAt, BlankAt, PastBlanks;
  }

  lemma SkipNone(s: Line, p: nat, tab: int, last: bool)
    requires p <= |s|
    ensures SkipFields(s, p, 0, tab, last) == Over(p)
  {
  }

  method SkipTo(s: Line, mark: Mark, tab: int, last: bool) returns (p: nat)
    requires tab != NL
    ensures p == Skip(s, mark, tab, last)
  {
    hide TabAt, BlankAt, PastBlanks, SkipFields, Blank;
    if mark.m < 0 {
      return |s|;
    }
    var within;
    p, within := SkipOver(s, mark.m, tab, last);
    if !within {
      return |s|;
    }
    if tab == 0 && mark.b {
      p := DropBlanks(s, p);
    }
    var i := mark.n;
    ghost var q := p;
    while i > 0
      invariant q <= p <= |s| && i <= mark.n
      invariant if mark.n > 0 then i >= 0 && p == q + mark.n - i else p == q && i == mark.n
    {
      if p == |s| {
        return;
      }
      p := p + 1;
      i := i - 1;
    }
  }

  /** Compare whole lines. */
  method CmpA(k: Keys, x: Line, y: Line) returns (r: int)
    ensures r == k.fields[0].rflg * Lex(x, y)
  {
    var p := 0;
    assert x[0..] == x && y[0..] == y;
    while At(x, p) == At(y, p)
      invariant p <= |x| && p <= |y| && Lex(x[p..], y[p..]) == Lex(x, y)
      decreases |x| - p
    {
      if At(x, p) == NL {
        return 0;
      }
      p := p + 1;
    }
    var rflg := k.fields[0].rflg;
    r := if At(x, p) == NL then rflg else if At(y, p) == NL then -rflg else if At(y, p) > At(x, p) then rflg else -rflg;
  }

  /** Compare the text of a key. */
  method CmpText(f: Field, x: Line, pa0: nat, la: nat, y: Line, pb0: nat, lb: nat) returns (r: int)
    requires pa0 <= |x| && la <= |x| && pb0 <= |y| && lb <= |y| && (f.rflg == 1 || f.rflg == -1)
    ensures Sgn(r) == f.rflg * Lex(Text(f, x, pa0, la), Text(f, y, pb0, lb))
  {
    var pa: nat, pb: nat := pa0, pb0;
    while true
      invariant pa <= |x| && pb <= |y|
      invariant Lex(Text(f, x, pa, la), Text(f, y, pb, lb)) == Lex(Text(f, x, pa0, la), Text(f, y, pb0, lb))
      decreases |x| - pa
    {
      pa := DropIgnored(f, x, pa, la);
      pb := DropIgnored(f, y, pb, lb);
      if pa >= la || At(x, pa) == NL {
        if pb < lb && At(y, pb) != NL {
          return f.rflg;
        }
        return 0;
      }
      if pb >= lb || At(y, pb) == NL {
        return -f.rflg;
      }
      var sa := Code(f.fold, At(y, pb)) - Code(f.fold, At(x, pa));
      pa, pb := pa + 1, pb + 1;
      if sa != 0 {
        return sa * f.rflg;
      }
    }
  }

  method DropIgnored(f: Field, s: Line, p: nat, ghost l: nat) returns (q: nat)
    requires p <= |s| && l <= |s|
    ensures p <= q <= |s| && Text(f, s, q, l) == Text(f, s, p, l) && !Ignored(f.ignore, At(s, q))
  {
    q := p;
    while Ignored(f.ignore, At(s, q))
      invariant p <= q <= |s| && Text(f, s, q, l) == Text(f, s, p, l)
      decreases |s| - q
    {
      q := q + 1;
    }
  }

  method PastSign(tab: int, s: Line, p: nat, l: nat) returns (q: nat, minus: bool)
    requires p <= |s| && l <= |s|
    ensures var b := SignAt(tab, s, p, l); minus == (At(s, b) == 45) && q == if minus then b + 1 else b
  {
    q := p;
    if tab != 0 {
      if q < l && At(s, q) == tab {
        q := q + 1;
      }
    }
    q := DropBlanks(s, q);
    minus := At(s, q) == 45;
    if minus {
      q := q + 1;
    }
  }

  method FindDigitsEnd(s: Line, p: nat, l: nat) returns (q: nat)
    requires p <= |s|
    ensures q == DigitsEnd(s, p, l)
  {
    q := p;
    while q < l && IsDigit(At(s, q))
      invariant p <= q <= |s| && DigitsEnd(s, q, l) == DigitsEnd(s, p, l)
    {
      q := q + 1;
    }
  }

  /** Compare the digits that both numbers have before the point, from the right:
      the last difference seen counts. */
  method LowDigits(x: Line, pa: nat, jpa: nat, y: Line, pb: nat, jpb: nat) returns (ipa: nat, ipb: nat, a: int)
    requires pa <= jpa <= |x| && pb <= jpb <= |y| && Digits(x[pa..jpa]) && Digits(y[pb..jpb])
    ensures pa <= ipa <= jpa && pb <= ipb <= jpb && jpa - ipa == jpb - ipb && (ipa == pa || ipb == pb)
    ensures Sgn(a) == Sgn(Whole(y[ipb..jpb]) - Whole(x[ipa..jpa]))
  {
    ipa, ipb, a := jpa, jpb, 0;
    assert x[ipa..jpa] == [] && y[ipb..jpb] == [];
    while ipa > pa && ipb > pb
      invariant pa <= ipa <= jpa && pb <= ipb <= jpb && jpa - ipa == jpb - ipb
      invariant Sgn(a) == Sgn(Whole(y[ipb..jpb]) - Whole(x[ipa..jpa]))
    {
      MoreDigits(x, pa, ipa, jpa);
      MoreDigits(y, pb, ipb, jpb);
      HigherDigit(x[ipa - 1], x[ipa..jpa], y[ipb - 1], y[ipb..jpb]);
      hide Whole, Digits;
      ipb := ipb - 1;
      ipa := ipa - 1;
      var b := y[ipb] - x[ipa];
      if b != 0 {
        a := b;
      }
    }
  }

  lemma MoreDigits(s: Line, p: nat, i: nat, q: nat)
    requires p < i <= q <= |s| && Digits(s[p..q])
    ensures Digits(s[i..q]) && s[i - 1..q] == [s[i - 1]] + s[i..q]
  {
    forall k | 0 <= k < |s[i..q]|
      ensures IsDigit(s[i..q][k])
    {
      assert s[i..q][k] == s[p..q][i - p + k];
    }
  }

  /** Whether the digits left of q are all zeros, looking from the right. */
  method ZerosBack(s: Line, p: nat, q: nat) returns (zero: bool)
    requires p <= q <= |s|
    ensures zero <==> AllZero(s[p..q])
  {
    var i := q;
    while i > p
      invariant p <= i <= q && forall k :: i <= k < q ==> s[k] == 48
    {
      i := i - 1;
      if s[i] != 48 {
        assert s[p..q][i - p] != 48;
        return false;
      }
    }
    zero := true;
  }

  /** Whether the digits from p on are all zeros. */
  method ZerosOn(s: Line, p: nat, l: nat) returns (zero: bool)
    requires p <= |s|
    ensures zero <==> AllZero(s[p..DigitsEnd(s, p, l)])
  {
    var i := p;
    ghost var q := DigitsEnd(s, p, l);
    while i < l && IsDigit(At(s, i))
      invariant p <= i <= q && DigitsEnd(s, i, l) == q && forall k :: p <= k < i ==> s[k] == 48
    {
      if At(s, i) != 48 {
        assert s[p..q][i - p] != 48;
        return false;
      }
      i := i + 1;
    }
    zero := true;
  }

  /** Compare the digits after the points: the first difference counts. */
  method FirstDigits(x: Line, pa0: nat, la: nat, ghost qa: nat, y: Line, pb0: nat, lb: nat, ghost qb: nat)
    returns (pa: nat, pb: nat, a: int)
    requires pa0 <= |x| && pb0 <= |y| && qa == DigitsEnd(x, pa0, la) && qb == DigitsEnd(y, pb0, lb)
    ensures pa0 <= pa <= qa == DigitsEnd(x, pa, la) && pb0 <= pb <= qb == DigitsEnd(y, pb, lb)
    ensures SgnR(Part(y[pb0..qb]) - Part(x[pa0..qa])) ==
      if a != 0 then Sgn(a) else SgnR(Part(y[pb..qb]) - Part(x[pa..qa]))
    ensures a == 0 ==> pa == qa || pb == qb
  {
    pa, pb, a := pa0, pb0, 0;
    hide *;
    while pa < la && IsDigit(At(x, pa)) && pb < lb && IsDigit(At(y, pb))
      invariant pa0 <= pa <= qa == DigitsEnd(x, pa, la) && pb0 <= pb <= qb == DigitsEnd(y, pb, lb) <= |y| && qa <= |x|
      invariant SgnR(Part(y[pb..qb]) - Part(x[pa..qa])) == SgnR(Part(y[pb0..qb]) - Part(x[pa0..qa]))
    {
      DigitPair(x, pa, la, y, pb, lb);
      a := At(y, pb) - At(x, pa);
      pb := pb + 1;
      pa := pa + 1;
      if a != 0 {
        return;
      }
    }
    NoDigit(x, pa, la);
    NoDigit(y, pb, lb);
  }

  lemma OneDigit(s: Line, p: nat, l: nat)
    requires p <= |s| && p < l && IsDigit(At(s, p))
    ensures p < |s| && At(s, p) == s[p] && p < DigitsEnd(s, p, l) == DigitsEnd(s, p + 1, l) <= |s|
    ensures s[p..DigitsEnd(s, p, l)] == [s[p]] + s[p + 1..DigitsEnd(s, p, l)] && Digits(s[p + 1..DigitsEnd(s, p, l)])
  {
  }

  lemma DigitPair(x: Line, pa: nat, la: nat, y: Line, pb: nat, lb: nat)
    requires pa <= |x| && pa < la && IsDigit(At(x, pa)) && pb <= |y| && pb < lb && IsDigit(At(y, pb))
    ensures pa < DigitsEnd(x, pa, la) == DigitsEnd(x, pa + 1, la) <= |x|
    ensures pb < DigitsEnd(y, pb, lb) == DigitsEnd(y, pb + 1, lb) <= |y|
    ensures var d, qa, qb := At(y, pb) - At(x, pa), DigitsEnd(x, pa, la), DigitsEnd(y, pb, lb);
      SgnR(Part(y[pb..qb]) - Part(x[pa..qa])) ==
      if d == 0 then SgnR(Part(y[pb + 1..qb]) - Part(x[pa + 1..qa])) else Sgn(d)
  {
    hide *;
    OneDigit(x, pa, la);
    OneDigit(y, pb, lb);
    EarlierDigit(x[pa], x[pa + 1..DigitsEnd(x, pa, la)], y[pb], y[pb + 1..DigitsEnd(y, pb, lb)]);
  }

  lemma NoDigit(s: Line, p: nat, l: nat)
    requires p <= |s|
    ensures DigitsEnd(s, p, l) == p <==> p >= l || !IsDigit(At(s, p))
  {
  }

  /** The digits before the point are as good as equal. */
  ghost predicate WholeAlike(m: Number, n: Number) {
    Whole(m.whole) == Whole(n.whole) && (m.negative != n.negative ==> Whole(m.whole) == 0)
  }

  /** r tells the order of two numbers. */
  ghost predicate Tells(r: int, rflg: int, m: Number, n: Number) {
    Sgn(r) == rflg * SgnR(Value(n) - Value(m))
  }

  ghost predicate Pair(rflg: int, m: Number, n: Number) {
    IsNumber(m) && IsNumber(n) && (rflg == 1 || rflg == -1)
  }

  /** Compare the digits before the points. */
  method CmpWhole(rflg: int, ghost m: Number, ghost n: Number, sa: int, sb: int, x: Line, pa: nat, jpa: nat, y: Line,
                  pb: nat, jpb: nat)
    returns (r: int, decided: bool)
    requires Pair(rflg, m, n) && sa == SignOf(rflg, m) && sb == SignOf(rflg, n)
    requires pa <= jpa <= |x| && pb <= jpb <= |y| && m.whole == x[pa..jpa] && n.whole == y[pb..jpb]
    ensures if decided then Tells(r, rflg, m, n) else WholeAlike(m, n)
  {
    assert (sa == sb <==> m.negative == n.negative) && -1 <= sa <= 1 && -1 <= sb <= 1;
    hide *;
    var ipa, ipb, a := jpa, jpb, 0;
    if sa == sb {
      PairDigits(rflg, m, n);
      ipa, ipb, a := LowDigits(x, pa, jpa, y, pb, jpb);
    }
    ghost var hi, lo, hi', lo' := x[pa..ipa], x[ipa..jpa], y[pb..ipb], y[ipb..jpb];
    SliceSplit(x, pa, ipa, jpa);
    SliceSplit(y, pb, ipb, jpb);
    var zero := ZerosBack(x, pa, ipa);
    if !zero {
      NotEmpty(hi);
      HighDigit(m, hi, lo, n, rflg);
      return -sa, true;
    }
    zero := ZerosBack(y, pb, ipb);
    if !zero {
      NotEmpty(hi');
      HighDigitOther(m, n, hi', lo', rflg);
      return sb, true;
    }
    if sa == sb {
      LowDigitsTell(m, hi, lo, n, hi', lo', a, sa, rflg);
    } else {
      OnlyZeros(m, hi, lo, n, hi', lo', rflg);
    }
    return a * sa, a != 0;
  }

  lemma SliceSplit(x: Line, p: nat, i: nat, j: nat)
    requires p <= i <= j <= |x|
    ensures x[p..j] == x[p..i] + x[i..j]
  {
  }

  lemma PairDigits(rflg: int, m: Number, n: Number)
    requires Pair(rflg, m, n)
    ensures Digits(m.whole) && Digits(n.whole)
  {
  }

  lemma NotEmpty(s: seq<int>)
    requires !AllZero(s)
    ensures s != []
  {
  }

  lemma HighDigit(m: Number, hi: seq<int>, lo: seq<int>, n: Number, rflg: int)
    requires Pair(rflg, m, n) && m.whole == hi + lo && !AllZero(hi) && (m.negative == n.negative ==> |n.whole| == |lo|)
    ensures Tells(-SignOf(rflg, m), rflg, m, n)
  {
    HighDigitDecides(m, hi, lo, n, rflg);
    hide Value;
  }

  lemma HighDigitOther(m: Number, n: Number, hi: seq<int>, lo: seq<int>, rflg: int)
    requires Pair(rflg, m, n) && n.whole == hi + lo && !AllZero(hi) && (m.negative == n.negative ==> |m.whole| == |lo|)
    ensures Tells(SignOf(rflg, n), rflg, m, n)
  {
    HighDigitDecides(n, hi, lo, m, rflg);
    hide Value;
  }

  lemma LowDigitsTell(m: Number, hi: seq<int>, lo: seq<int>, n: Number, hi': seq<int>, lo': seq<int>, a: int, sa: int,
                      rflg: int)
    requires Pair(rflg, m, n) && sa == SignOf(rflg, m) && m.negative == n.negative
    requires Sgn(a) == Sgn(Whole(lo') - Whole(lo))
    requires m.whole == hi + lo && n.whole == hi' + lo' && AllZero(hi) && AllZero(hi')
    ensures if a != 0 then Tells(a * sa, rflg, m, n) else WholeAlike(m, n)
  {
    LowDigitsDecide(m, hi, lo, n, hi', lo', a, rflg);
    hide Value, Whole, SignOf;
  }

  lemma OnlyZeros(m: Number, hi: seq<int>, lo: seq<int>, n: Number, hi': seq<int>, lo': seq<int>, rflg: int)
    requires Pair(rflg, m, n) && m.whole == hi + lo && n.whole == hi' + lo' && AllZero(hi) && AllZero(hi')
    requires lo == lo' == []
    ensures WholeAlike(m, n)
  {
    LeadingZeros(hi, lo);
    LeadingZeros(hi', lo');
  }

  /** Compare the digits after the points. */
  method CmpPart(rflg: int, ghost m: Number, ghost n: Number, sa: int, sb: int, x: Line, pa0: nat, la: nat, y: Line,
                 pb0: nat, lb: nat)
    returns (r: int)
    requires Pair(rflg, m, n) && sa == SignOf(rflg, m) && sb == SignOf(rflg, n) && WholeAlike(m, n)
    requires pa0 <= |x| && pb0 <= |y| && m.part == x[pa0..DigitsEnd(x, pa0, la)]
    requires n.part == y[pb0..DigitsEnd(y, pb0, lb)]
    ensures Tells(r, rflg, m, n)
  {
    assert (sa == sb <==> m.negative == n.negative) && -1 <= sa <= 1 && -1 <= sb <= 1;
    hide *;
    ghost var qa, qb := DigitsEnd(x, pa0, la), DigitsEnd(y, pb0, lb);
    var pa, pb, a := pa0, pb0, 0;
    if sa == sb {
      pa, pb, a := FirstDigits(x, pa0, la, qa, y, pb0, lb, qb);
      if a != 0 {
        PartTells(m, n, a, rflg);
        return a * sa;
      }
    }
    var zero := ZerosOn(x, pa, la);
    if !zero {
      NotEmpty(x[pa..qa]);
      RestTells(m, n, x[pa..qa], y[pb..qb], rflg);
      return -sa;
    }
    zero := ZerosOn(y, pb, lb);
    if !zero {
      NotEmpty(y[pb..qb]);
      RestTellsOther(m, n, x[pa..qa], y[pb..qb], rflg);
      return sb;
    }
    RestAlike(m, n, x[pa..qa], y[pb..qb], rflg);
    return 0;
  }

  lemma PartTells(m: Number, n: Number, a: int, rflg: int)
    requires Pair(rflg, m, n) && m.negative == n.negative && WholeAlike(m, n) && a != 0
    requires Sgn(a) == SgnR(Part(n.part) - Part(m.part))
    ensures Tells(a * SignOf(rflg, m), rflg, m, n)
  {
    PartDecides(m, n, a, rflg);
    hide Value, Whole, SignOf, Part;
  }

  /** What is left of the digits after the points says as much as all of them. */
  ghost predicate Rest(m: Number, n: Number, s: seq<int>, t: seq<int>) {
    if m.negative == n.negative
    then (s == [] || t == []) && SgnR(Part(n.part) - Part(m.part)) == SgnR(Part(t) - Part(s))
    else s == m.part && t == n.part
  }

  lemma RestTells(m: Number, n: Number, s: seq<int>, t: seq<int>, rflg: int)
    requires Pair(rflg, m, n) && WholeAlike(m, n) && Rest(m, n, s, t) && Digits(s) && !AllZero(s)
    ensures Tells(-SignOf(rflg, m), rflg, m, n)
  {
    PartZero(s);
    PartRange(s);
    NotEmpty(s);
    PartNone();
    hide Digits, AllZero, Value, Whole, Part;
    if m.negative == n.negative {
      PartTells(m, n, -1, rflg);
    } else {
      NonzeroDecides(m, n, rflg);
    }
  }

  lemma RestTellsOther(m: Number, n: Number, s: seq<int>, t: seq<int>, rflg: int)
    requires Pair(rflg, m, n) && WholeAlike(m, n) && Rest(m, n, s, t) && Digits(t) && !AllZero(t)
    ensures Tells(SignOf(rflg, n), rflg, m, n)
  {
    PartZero(t);
    PartRange(t);
    NotEmpty(t);
    PartNone();
    hide Digits, AllZero, Value, Whole, Part;
    if m.negative == n.negative {
      PartTells(m, n, 1, rflg);
    } else {
      NonzeroDecides(n, m, rflg);
    }
  }

  lemma RestAlike(m: Number, n: Number, s: seq<int>, t: seq<int>, rflg: int)
    requires Pair(rflg, m, n) && WholeAlike(m, n) && Rest(m, n, s, t) && Digits(s) && Digits(t) && AllZero(s)
    requires AllZero(t)
    ensures Tells(0, rflg, m, n)
  {
    PartZero(s);
    PartZero(t);
    hide Digits, AllZero, Value, Whole, Part;
    if m.negative == n.negative {
      PartDecides(m, n, 0, rflg);
    } else {
      BothZero(m, n);
    }
  }

  lemma PartNone()
    ensures Part([]) == 0.0
  {
  }

  /** Compare numeric keys by their digits, without converting them to numbers. */
  method CmpNumber(tab: int, rflg: int, x: Line, pa0: nat, la: nat, y: Line, pb0: nat, lb: nat) returns (r: int)
    requires pa0 <= |x| && la <= |x| && pb0 <= |y| && lb <= |y| && (rflg == 1 || rflg == -1)
    ensures Tells(r, rflg, NumberAt(tab, x, pa0, la), NumberAt(tab, y, pb0, lb))
  {
    hide Tells, Value, Digits, WholeAlike, NumberAt, IsNumber, DigitsEnd;
    var pa, na := PastSign(tab, x, pa0, la);
    var pb, nb := PastSign(tab, y, pb0, lb);
    var sa := if na then -rflg else rflg;
    var sb := if nb then -rflg else rflg;
    var jpa := FindDigitsEnd(x, pa, la);
    var jpb := FindDigitsEnd(y, pb, lb);
    ghost var m, n := NumberAt(tab, x, pa0, la), NumberAt(tab, y, pb0, lb);
    NumberParts(tab, x, pa0, la, na, pa);
    NumberParts(tab, y, pb0, lb, nb, pb);
    hide SignAt;
    var decided;
    r, decided := CmpWhole(rflg, m, n, sa, sb, x, pa, jpa, y, pb, jpb);
    if decided {
      return;
    }
    pa := if At(x, jpa) == 46 then jpa + 1 else jpa;
    pb := if At(y, jpb) == 46 then jpb + 1 else jpb;
    r := CmpPart(rflg, m, n, sa, sb, x, pa, la, y, pb, lb);
  }

  lemma NumberParts(tab: int, s: Line, p: nat, l: nat, minus: bool, d: nat)
    requires p <= |s|
    requires var b := SignAt(tab, s, p, l); minus == (At(s, b) == 45) && d == if minus then b + 1 else b
    ensures var n := NumberAt(tab, s, p, l); IsNumber(n) && n.negative == minus
    ensures d <= DigitsEnd(s, d, l) <= |s| && NumberAt(tab, s, p, l).whole == s[d..DigitsEnd(s, d, l)]
    ensures var q := DigitsEnd(s, d, l); var r := if At(s, q) == 46 then q + 1 else q;
      r <= |s| && NumberAt(tab, s, p, l).part == s[r..DigitsEnd(s, r, l)]
  {
    hide SignAt, DigitsEnd, IsNumber;
  }

  method CmpField(k: Keys, i: nat, x: Line, y: Line) returns (r: int)
    requires i < |k.fields|
    ensures Sgn(r) == FieldSign(k, i, x, y)
  {
    var f := k.fields[i];
    hide Text, NumberAt, Skip, Value, Lex;
    var pa, pb, la, lb := 0, 0, |x|, |y|;
    if i > 0 {
      la := SkipTo(x, f.to, k.tabchar, true);
      pa := SkipTo(x, f.from, k.tabchar, false);
      lb := SkipTo(y, f.to, k.tabchar, true);
      pb := SkipTo(y, f.from, k.tabchar, false);
    }
    if f.nflg {
      r := CmpNumber(k.tabchar, f.rflg, x, pa, la, y, pb, lb);
    } else {
      r := CmpText(f, x, pa, la, y, pb, lb);
    }
  }

  /** Without -u, lines with the same keys are in the order of the whole lines. */
  lemma {:induction false} KeysFirst(k: Keys, i: nat, x: Line, y: Line)
    ensures KeysSign(k, i, x, y) ==
      if KeysOnly(k, i, x, y) != 0 then KeysOnly(k, i, x, y) else k.fields[0].rflg * Lex(x, y)
    decreases |k.fields| - i
  {
    hide FieldSign, Lex;
    if i < |k.fields| {
      KeysFirst(k, i + 1, x, y);
    }
  }

  /** Compare by the keys in turn, then by the whole lines unless lines with the
      same keys are to count as the same. */
  method Cmp(k: Keys, uflg: bool, x: Line, y: Line) returns (r: int)
    requires k.general
    ensures Sgn(r) == if uflg then KeysOnly(k, if |k.fields| > 1 then 1 else 0, x, y) else Sign(k, x, y)
  {
    hide FieldSign, Lex;
    var i := if |k.fields| > 1 then 1 else 0;
    ghost var i0 := i;
    while i < |k.fields|
      invariant i0 <= i <= |k.fields| && KeysSign(k, i, x, y) == Sign(k, x, y)
      invariant KeysOnly(k, i, x, y) == KeysOnly(k, i0, x, y)
    {
      r := CmpField(k, i, x, y);
      if r != 0 {
        return;
      }
      i := i + 1;
    }
    if uflg {
      return 0;
    }
    r := CmpA(k, x, y);
    LexAnti(x, y);
  }

  /** The comparison sort calls. */
  method Compare(k: Keys, x: Line, y: Line) returns (r: int)
    ensures Sgn(r) == Sign(k, x, y)
  {
    if k.general {
      r := Cmp(k, false, x, y);
    } else {
      r := CmpA(k, x, y);
      LexAnti(x, y);
    }
  }
}
