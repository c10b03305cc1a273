/** How fsck packs block bits, 2-bit inode states and 16-bit link counts into
    bytes. */
module MapBytes {

  /** 1 << k */
  function Mask(k: nat): bv8
    requires k < 8
  {
    if k == 0 then 1 else if k == 1 then 2 else if k == 2 then 4 else if k == 3 then 8
    else if k == 4 then 16 else if k == 5 then 32 else if k == 6 then 64 else 128
  }

  predicate Bit(v: bv8, k: nat)
    requires k < 8
  {
    v & Mask(k) != 0
  }

  /** v | n, or v & ~n, for n == 1 << k. */
  function WithBit(v: bv8, k: nat, on: bool): bv8
    requires k < 8
  {
    if on then v | Mask(k) else v & !Mask(k)
  }

  lemma SetBit(v: bv8, k: nat, on: bool, j: nat)
    requires k < 8 && j < 8
    ensures Bit(WithBit(v, k, on), j) == if j == k then on else Bit(v, j)
  {
  }

  /** (v >> 2*k) & 3 */
  function Pair(v: bv8, k: nat): bv8
    requires k < 4
  {
    if k == 0 then v & 3 else if k == 1 then (v >> 2) & 3 else if k == 2 then (v >> 4) & 3 else (v >> 6) & 3
  }

  /** (v & ~(3 << 2*k)) | (s << 2*k) */
  function WithPair(v: bv8, k: nat, s: bv8): bv8
    requires k < 4
  {
    if k == 0 then (v & !3) | s else if k == 1 then (v & !12) | (s << 2)
    else if k == 2 then (v & !48) | (s << 4) else (v & !192) | (s << 6)
  }

  lemma SetPair(v: bv8, k: nat, s: bv8, j: nat)
    requires k < 4 && j < 4 && s <= 3
    ensures Pair(WithPair(v, k, s), j) == if j == k then s else Pair(v, j)
  {
  }

  /** Two bytes, low first, as a short. */
  function Short(lo: bv8, hi: bv8): int {
    var u := lo as int + 256 * (hi as int);
    if u >= 32768 then u - 65536 else u
  }

  /** The value a short takes when x is stored in it. */
  function Wrap(x: int): int {
    var u := x % 65536;
    if u >= 32768 then u - 65536 else u
  }

  function Low(x: int): bv8 { (x % 256) as bv8 }
  function High(x: int): bv8 { (x / 256 % 256) as bv8 }

  lemma NextByte(b: bv8, n: nat)
    requires n < 255 && b as int == n
    ensures (b + 1) as int == n + 1
  {
  }

  /** The byte whose value is n. */
  lemma {:induction false} ByteWith(n: nat) returns (b: bv8)
    requires n < 256
    ensures b as int == n
  {
    if n == 0 {
      b := 0;
    } else {
      var a := ByteWith(n - 1);
      NextByte(a, n - 1);
      b := a + 1;
    }
  }

  lemma Back(b: bv8)
    ensures (b as int) as bv8 == b
  {
  }

  lemma ByteOf(n: int)
    requires 0 <= n < 256
    ensures (n as bv8) as int == n
  {
    var b := ByteWith(n);
    Back(b);
  }

  lemma Halves(x: int, q: int, h: int, l: int)
    requires x == 256 * (256 * q + h) + l && 0 <= h < 256 && 0 <= l < 256
    ensures x % 65536 == l + 256 * h
  {
    assert x == 65536 * q + (256 * h + l);
  }

  lemma ShortOf(x: int)
    ensures Short(Low(x), High(x)) == Wrap(x)
  {
    ByteOf(x % 256);
    ByteOf(x / 256 % 256);
    Halves(x, x / 256 / 256, x / 256 % 256, x % 256);
  }
}
