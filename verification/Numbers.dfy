/** Arithmetic that several programs share. */
module Numbers {

  lemma MultipleMod(c: int, q: int)
    requires c > 0
    ensures (c * q) % c == 0
  {
    var x := c * q;
    var y := x / c - q;
    assert c * y == -(x % c);
    assert y >= 1 ==> c * y >= c;
    assert y <= -1 ==> c * y <= -c;
  }

  /** How many pieces of size y hold x. */
  function Howmany(x: int, y: int): (n: int)
    requires y > 0
    ensures x >= 0 ==> n >= 0
  {
    (x + (y - 1)) / y
  }

  /** x rounded up to a multiple of y. */
  function Roundup(x: int, y: int): (r: int)
    requires y > 0
    ensures r >= x
  {
    RoundedUp(x, y);
    Howmany(x, y) * y
  }

  lemma RoundedUp(x: int, y: int)
    requires y > 0
    ensures Howmany(x, y) * y >= x && Howmany(x, y) * y % y == 0
  {
    var q := Howmany(x, y);
    assert x + (y - 1) == y * q + (x + (y - 1)) % y;
    assert y * q == q * y;
    MultipleMod(y, q);
  }

  /** It is the least multiple of y that is not below x. */
  lemma RoundupLeast(x: int, y: int, m: int)
    requires y > 0
    ensures Roundup(x, y) % y == 0 && x <= Roundup(x, y) < x + y
    ensures m % y == 0 && m >= x ==> Roundup(x, y) <= m
  {
    RoundedUp(x, y);
    var q, r := Howmany(x, y), (x + (y - 1)) % y;
    var p := q * y;
    assert x + (y - 1) == p + r;
    if m % y == 0 && m >= x {
      var k := m / y;
      var n := k * y;
      assert m == n;
      hide *;
      NoLater(q, k, y, p, n);
    }
  }

  lemma NoLater(q: int, k: int, y: int, p: int, n: int)
    requires y > 0 && p == q * y && n == k * y && p < n + y
    ensures p <= n
  {
    var d := q - k;
    assert p - n == d * y;
    assert d >= 1 ==> d * y >= y;
    assert d <= 0 ==> d * y <= 0;
  }

  /** A set of numbers of a range is no larger than the range. */
  lemma {:induction false} RangeSize(lo: int, hi: int, s: set<int>)
    requires lo <= hi && forall b :: b in s ==> lo <= b < hi
    ensures |s| <= hi - lo
    decreases hi - lo
  {
    if lo < hi {
      RangeSize(lo, hi - 1, s - {hi - 1});
    } else {
      assert s == {};
    }
  }
}
