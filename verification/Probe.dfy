/** ld's quadratic rehash: the buckets h, h+1, h+4, h+9, ... of a table. */
module Probe {
  import opened Numbers

  const NSYM := 1103
  const HSIZE := 2 * NSYM

  /** The bucket tried after k rehashes. */
  function At(h: nat, k: nat): (b: nat)
    requires h < HSIZE
    ensures b < HSIZE
  {
    (h + k * k) % HSIZE
  }

  /** The linear search for a divisor of 1103. */
  predicate NoDivisorFrom(a: nat)
    requires 2 <= a
    decreases 34 - a
  {
    a >= 34 || (NSYM % a != 0 && NoDivisorFrom(a + 1))
  }

  lemma {:induction false} NoDivisor(a: nat, b: nat)
    requires 2 <= a <= b < 34 && NoDivisorFrom(a)
    ensures NSYM % b != 0
    decreases b - a
  {
    if a < b {
      NoDivisor(a + 1, b);
    }
  }

  /** 1103 is prime. */
  lemma Prime(a: nat)
    requires 2 <= a < NSYM
    ensures NSYM % a != 0
  {
    assert NoDivisorFrom(30);
    assert NoDivisorFrom(26);
    assert NoDivisorFrom(22);
    assert NoDivisorFrom(18);
    assert NoDivisorFrom(14);
    assert NoDivisorFrom(10);
    assert NoDivisorFrom(6);
    assert NoDivisorFrom(2);
    if a < 34 {
      NoDivisor(2, a);
    } else {
      var q, r := NSYM / a, NSYM % a;
      assert NSYM == a * q + r;
      assert 1 <= q < 34 by {
        assert q >= 34 ==> a * q >= 34 * 34;
      }
      if q > 1 {
        NoDivisor(2, q);
        NotMultiple(NSYM, q, a);
      }
    }
  }

  lemma NotMultiple(n: int, q: int, a: int)
    requires q > 0 && n % q != 0
    ensures n != q * a
  {
    MultipleMod(q, a);
  }

  /** If 1103 divides a*b but is larger than a, it divides b: divide 1103 by a and
      go on with the remainder. */
  lemma {:induction false} Euclid(a: nat, b: nat, m: nat)
    requires 1 <= a < NSYM && a * b == NSYM * m
    ensures b % NSYM == 0
    decreases a
  {
    if a == 1 {
      MultipleMod(NSYM, m);
    } else {
      Prime(a);
      var q, r := NSYM / a, NSYM % a;
      Remainder(a, b, m, q, r);
      assert b >= q * m by {
        assert r * b == NSYM * (b - q * m);
        assert r * b >= 0;
      }
      Euclid(r, b, b - q * m);
    }
  }

  lemma Remainder(a: nat, b: nat, m: nat, q: nat, r: nat)
    requires a * b == NSYM * m && NSYM == a * q + r
    ensures r * b == NSYM * (b - q * m)
  {
    calc {
      r * b;
      (NSYM - a * q) * b;
      NSYM * b - a * q * b;
      NSYM * b - q * (a * b);
      NSYM * b - q * (NSYM * m);
      NSYM * (b - q * m);
    }
  }

  /** The 1103 probes of a name are all different. */
  lemma ProbesDistinct(h: nat, j: nat, k: nat)
    requires h < HSIZE && j < k < NSYM
    ensures At(h, j) != At(h, k)
  {
    if At(h, j) == At(h, k) {
      var x, y := h + k * k, h + j * j;
      SquareDifference(k, j, x, y);
      NoCollision(k - j, k + j, x / HSIZE - y / HSIZE);
    }
  }

  lemma SquareDifference(k: nat, j: nat, x: nat, y: nat)
    requires j <= k && x - y == k * k - j * j && x % HSIZE == y % HSIZE
    ensures (k - j) * (k + j) == HSIZE * (x / HSIZE - y / HSIZE)
  {
    assert (k - j) * (k + j) == k * k - j * j;
  }

  /** The difference and the sum of two probe numbers have the same parity, so
      their product is not a multiple of 2206. */
  lemma NoCollision(d: nat, s: nat, m: int)
    requires 1 <= d < NSYM && 1 <= s < 2 * NSYM && (s - d) % 2 == 0
    ensures d * s != HSIZE * m
  {
    if d * s == HSIZE * m {
      assert d * s >= 1;
      assert m >= 1;
      assert d * s == NSYM * (2 * m);
      Euclid(d, s, 2 * m);
    }
  }
}
