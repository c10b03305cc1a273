/** Decimal digit strings of any length and their exact values. */
module Decimal {

  predicate IsDigit(c: int) { 48 <= c <= 57 }

  predicate Digits(s: seq<int>) {
    forall i :: 0 <= i < |s| ==> IsDigit(s[i])
  }

  function Pow10(n: nat): (p: int)
    ensures p >= 1
  {
    if n == 0 then 1 else 10 * Pow10(n - 1)
  }

  /** The value of digits before the point. */
  function Whole(s: seq<int>): int {
    if s == [] then 0 else (s[0] - 48) * Pow10(|s| - 1) + Whole(s[1..])
  }

  /** The value of digits after the point. */
  function Part(s: seq<int>): real {
    if s == [] then 0.0 else ((s[0] - 48) as real + Part(s[1..])) / 10.0
  }

  function Sgn(x: int): int {
    if x > 0 then 1 else if x < 0 then -1 else 0
  }

  function SgnR(x: real): int {
    if x > 0.0 then 1 else if x < 0.0 then -1 else 0
  }

  lemma {:induction false} WholeRange(s: seq<int>)
    requires Digits(s)
    ensures 0 <= Whole(s) < Pow10(|s|)
  {
    if s != [] {
      WholeRange(s[1..]);
      var d, p := s[0] - 48, Pow10(|s| - 1);
      assert d >= 0 && d <= 9;
      assert d * p >= 0;
      assert (9 - d) * p >= 0;
    }
  }

  lemma {:induction false} PartRange(s: seq<int>)
    requires Digits(s)
    ensures 0.0 <= Part(s) < 1.0
  {
    if s != [] {
      PartRange(s[1..]);
    }
  }

  ghost predicate AllZero(s: seq<int>) {
    forall i :: 0 <= i < |s| ==> s[i] == 48
  }

  lemma AllZeroStep(s: seq<int>)
    requires s != []
    ensures AllZero(s) <==> s[0] == 48 && AllZero(s[1..])
  {
    assert s == [s[0]] + s[1..];
  }

  lemma DigitTimes(d: int, p: int)
    requires d >= 0 && p >= 1
    ensures d * p >= 0 && (d * p == 0 <==> d == 0)
  {
  }

  /** A digit string is zero if all its digits are. */
  lemma {:induction false} WholeZero(s: seq<int>)
    requires Digits(s)
    ensures Whole(s) == 0 <==> AllZero(s)
  {
    if s != [] {
      AllZeroStep(s);
      WholeRange(s[1..]);
      WholeZero(s[1..]);
      hide AllZero, Digits, Pow10;
      DigitTimes(s[0] - 48, Pow10(|s| - 1));
    }
  }

  lemma {:induction false} PartZero(s: seq<int>)
    requires Digits(s)
    ensures Part(s) == 0.0 <==> AllZero(s)
  {
    if s != [] {
      AllZeroStep(s);
      PartRange(s[1..]);
      PartZero(s[1..]);
      hide AllZero;
    }
  }

  /** Digits in front: the value of a string from its two pieces. */
  lemma {:induction false} WholeConcat(s: seq<int>, t: seq<int>)
    ensures Whole(s + t) == Whole(s) * Pow10(|t|) + Whole(t)
  {
    if s == [] {
      assert s + t == t;
    } else {
      WholeConcat(s[1..], t);
      assert (s + t)[1..] == s[1..] + t;
      PowSum(|s| - 1, |t|);
      Distribute(s[0] - 48, Pow10(|s| - 1), Whole(s[1..]), Pow10(|t|));
    }
  }

  lemma Distribute(d: int, p: int, w: int, q: int)
    ensures (d * p + w) * q == d * (p * q) + w * q
  {
  }

  lemma {:induction false} PowSum(m: nat, n: nat)
    ensures Pow10(m + n) == Pow10(m) * Pow10(n)
  {
    if m > 0 {
      PowSum(m - 1, n);
    }
  }

  function Times(d: int, p: int): int { d * p }

  lemma WholeCons(c: int, t: seq<int>)
    ensures Whole([c] + t) == Times(c - 48, Pow10(|t|)) + Whole(t)
  {
    hide *;
    var s := [c] + t;
    assert s[1..] == t && |s| - 1 == |t|;
    WholeStep(s);
  }

  lemma WholeStep(s: seq<int>)
    requires s != []
    ensures Whole(s) == Times(s[0] - 48, Pow10(|s| - 1)) + Whole(s[1..])
  {
  }

  lemma PartCons(c: int, t: seq<int>)
    ensures Part([c] + t) == ((c - 48) as real + Part(t)) / 10.0
  {
    assert ([c] + t)[1..] == t;
  }

  /** A higher digit outweighs all lower ones. */
  lemma HigherDigit(b: int, s: seq<int>, c: int, t: seq<int>)
    requires Digits(s) && Digits(t) && |s| == |t|
    ensures Sgn(Whole([c] + t) - Whole([b] + s)) == if b == c then Sgn(Whole(t) - Whole(s)) else Sgn(c - b)
  {
    hide *;
    WholeCons(b, s);
    WholeCons(c, t);
    WholeRange(s);
    WholeRange(t);
    Outweighs(b - 48, Whole(s), c - 48, Whole(t), Pow10(|s|));
  }

  lemma Outweighs(b: int, s: int, c: int, t: int, p: int)
    requires 0 <= s < p && 0 <= t < p
    ensures Sgn((Times(c, p) + t) - (Times(b, p) + s)) == if b == c then Sgn(t - s) else Sgn(c - b)
  {
    assert c * p - b * p == (c - b) * p;
    assert c - b >= 1 ==> (c - b) * p >= p;
    assert c - b <= -1 ==> (c - b) * p <= -p;
  }

  /** So does an earlier digit after the point. */
  lemma EarlierDigit(b: int, s: seq<int>, c: int, t: seq<int>)
    requires Digits(s) && Digits(t)
    ensures SgnR(Part([c] + t) - Part([b] + s)) == if b == c then SgnR(Part(t) - Part(s)) else Sgn(c - b)
  {
    hide *;
    PartCons(b, s);
    PartCons(c, t);
    PartRange(s);
    PartRange(t);
    TenthsOutweigh(b - 48, Part(s), c - 48, Part(t));
  }

  lemma TenthsOutweigh(b: int, s: real, c: int, t: real)
    requires 0.0 <= s < 1.0 && 0.0 <= t < 1.0
    ensures SgnR((c as real + t) / 10.0 - (b as real + s) / 10.0) == if b == c then SgnR(t - s) else Sgn(c - b)
  {
    var x, y := c as real + t, b as real + s;
    assert x / 10.0 - y / 10.0 == (x - y) / 10.0;
    assert c - b >= 1 ==> c as real - b as real >= 1.0;
    assert c - b <= -1 ==> c as real - b as real <= -1.0;
  }

  /** A signed decimal: minus sign, digits before and after the point. */
  datatype Number = Number(negative: bool, whole: seq<int>, part: seq<int>)

  ghost predicate IsNumber(n: Number) {
    Digits(n.whole) && Digits(n.part)
  }

  function Magnitude(n: Number): real {
    Whole(n.whole) as real + Part(n.part)
  }

  /** The exact value. */
  function Value(n: Number): real {
    if n.negative then -Magnitude(n) else Magnitude(n)
  }

  lemma MagnitudeSign(n: Number)
    requires IsNumber(n)
    ensures Magnitude(n) >= 0.0
    ensures Magnitude(n) == 0.0 <==> Whole(n.whole) == 0 && Part(n.part) == 0.0
  {
    WholeRange(n.whole);
    PartRange(n.part);
  }

  /** Magnitudes compare by the digits before the point, then by those after. */
  lemma MagnitudeOrder(m: Number, n: Number)
    requires IsNumber(m) && IsNumber(n)
    ensures SgnR(Magnitude(n) - Magnitude(m)) ==
      if Whole(m.whole) != Whole(n.whole) then Sgn(Whole(n.whole) - Whole(m.whole))
      else SgnR(Part(n.part) - Part(m.part))
  {
    PartRange(m.part);
    PartRange(n.part);
    var d := Whole(n.whole) - Whole(m.whole);
    assert d as real == Whole(n.whole) as real - Whole(m.whole) as real;
    assert d >= 1 ==> d as real >= 1.0;
    assert d <= -1 ==> d as real <= -1.0;
  }

  /** Leading zeros do not count. */
  lemma LeadingZeros(s: seq<int>, t: seq<int>)
    requires Digits(s + t) && AllZero(s)
    ensures Whole(s + t) == Whole(t)
  {
    forall i | 0 <= i < |s|
      ensures IsDigit(s[i])
    {
      assert (s + t)[i] == s[i];
    }
    WholeConcat(s, t);
    WholeZero(s);
  }

  /** A nonzero digit beyond the length of another number outweighs it. */
  lemma LongerNumber(s: seq<int>, t: seq<int>, u: seq<int>)
    requires Digits(s) && Digits(t) && Digits(u) && !AllZero(s) && |u| == |t|
    ensures Whole(s + t) > Whole(u)
  {
    assert AllZero(s) <==> Whole(s) == 0 by {
      WholeZero(s);
    }
    hide *;
    WholeConcat(s, t);
    WholeRange(s);
    WholeRange(t);
    WholeRange(u);
    AtLeast(Whole(s), Pow10(|t|));
  }

  lemma AtLeast(w: int, p: int)
    requires w >= 1 && p >= 0
    ensures w * p >= p
  {
  }

  /** The sign that cmp gives a number: the field's own, or its opposite. */
  function SignOf(rflg: int, n: Number): int {
    if n.negative then -rflg else rflg
  }

  /** The number whose magnitude decides sorts by its own sign. */
  lemma LargerDecides(m: Number, n: Number, rflg: int)
    requires IsNumber(m) && IsNumber(n) && (rflg == 1 || rflg == -1)
    requires if m.negative == n.negative then Magnitude(m) > Magnitude(n) else Magnitude(m) > 0.0
    ensures rflg * SgnR(Value(n) - Value(m)) == -SignOf(rflg, m)
    ensures rflg * SgnR(Value(m) - Value(n)) == SignOf(rflg, m)
  {
    MagnitudeSign(m);
    MagnitudeSign(n);
    hide Magnitude;
  }

  /** Numbers of the same sign sort by their magnitudes. */
  lemma SameSigns(m: Number, n: Number, rflg: int, a: int)
    requires IsNumber(m) && IsNumber(n) && (rflg == 1 || rflg == -1) && m.negative == n.negative
    requires Sgn(a) == SgnR(Magnitude(n) - Magnitude(m))
    ensures Sgn(a * SignOf(rflg, m)) == rflg * SgnR(Value(n) - Value(m))
  {
    hide Magnitude;
  }

  /** A nonzero digit where the other number has none decides, whatever the other is. */
  lemma HighDigitDecides(m: Number, hi: seq<int>, lo: seq<int>, n: Number, rflg: int)
    requires IsNumber(m) && IsNumber(n) && (rflg == 1 || rflg == -1)
    requires m.whole == hi + lo && !AllZero(hi) && (m.negative == n.negative ==> |n.whole| == |lo|)
    ensures rflg * SgnR(Value(n) - Value(m)) == -SignOf(rflg, m)
    ensures rflg * SgnR(Value(m) - Value(n)) == SignOf(rflg, m)
  {
    DigitsSplit(hi, lo);
    hide Value, Magnitude, Whole, Part, AllZero, Digits;
    if m.negative == n.negative {
      LongerNumber(hi, lo, n.whole);
      MagnitudeOrder(m, n);
    } else {
      var none: seq<int> := seq(|lo|, i => 48);
      assert Digits(none) by {
        ZeroDigits(|lo|);
      }
      LongerNumber(hi, lo, none);
      WholeRange(none);
      MagnitudeSign(m);
    }
    LargerDecides(m, n, rflg);
  }

  lemma ZeroDigits(n: nat)
    ensures Digits(seq(n, i => 48))
  {
  }

  lemma DigitsSplit(s: seq<int>, t: seq<int>)
    requires Digits(s + t)
    ensures Digits(s) && Digits(t)
  {
    assert forall i :: 0 <= i < |s| ==> (s + t)[i] == s[i];
    assert forall i :: 0 <= i < |t| ==> (s + t)[|s| + i] == t[i];
  }

  /** Without such digits the low ones decide, if they differ. */
  lemma LowDigitsDecide(m: Number, hi: seq<int>, lo: seq<int>, n: Number, hi': seq<int>, lo': seq<int>, a: int,
                        rflg: int)
    requires IsNumber(m) && IsNumber(n) && (rflg == 1 || rflg == -1) && m.negative == n.negative
    requires m.whole == hi + lo && n.whole == hi' + lo' && AllZero(hi) && AllZero(hi')
    requires Sgn(a) == Sgn(Whole(lo') - Whole(lo))
    ensures Sgn(a) == Sgn(Whole(n.whole) - Whole(m.whole))
    ensures a != 0 ==> Sgn(a * SignOf(rflg, m)) == rflg * SgnR(Value(n) - Value(m))
  {
    hide Value, Magnitude, Whole, Part, AllZero, Digits;
    LeadingZeros(hi, lo);
    LeadingZeros(hi', lo');
    MagnitudeOrder(m, n);
    if a != 0 {
      SameSigns(m, n, rflg, a);
    }
  }

  /** Then the digits after the point decide. */
  lemma PartDecides(m: Number, n: Number, d: int, rflg: int)
    requires IsNumber(m) && IsNumber(n) && (rflg == 1 || rflg == -1) && m.negative == n.negative
    requires Whole(m.whole) == Whole(n.whole) && Sgn(d) == SgnR(Part(n.part) - Part(m.part))
    ensures Sgn(d * SignOf(rflg, m)) == rflg * SgnR(Value(n) - Value(m))
  {
    hide Value, Magnitude, Whole, Part, Digits;
    MagnitudeOrder(m, n);
    SameSigns(m, n, rflg, d);
  }

  /** With opposite signs any nonzero digit decides. */
  lemma NonzeroDecides(m: Number, n: Number, rflg: int)
    requires IsNumber(m) && IsNumber(n) && (rflg == 1 || rflg == -1) && m.negative != n.negative && !AllZero(m.part)
    ensures rflg * SgnR(Value(n) - Value(m)) == -SignOf(rflg, m)
    ensures rflg * SgnR(Value(m) - Value(n)) == SignOf(rflg, m)
  {
    hide Value, Magnitude, Whole, Part, Digits;
    PartZero(m.part);
    MagnitudeSign(m);
    LargerDecides(m, n, rflg);
  }

  /** Zero and minus zero are the same. */
  lemma BothZero(m: Number, n: Number)
    requires IsNumber(m) && IsNumber(n) && Whole(m.whole) == Whole(n.whole) == 0 && AllZero(m.part) && AllZero(n.part)
    ensures Value(m) == Value(n)
  {
    PartZero(m.part);
    PartZero(n.part);
  }
}
