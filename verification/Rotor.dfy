/** crypt: a rotor machine that is its own inverse. */
module Rotor {

  const ROTORSZ := 256

  /** A byte.  The tables hold chars, but all uses take them modulo 256. */
  type Byte = b: int | 0 <= b < ROTORSZ witness 0

  function Mask(x: int): (b: Byte) { x % ROTORSZ }

  // The tables.

  ghost predicate Distinct(s: seq<Byte>) {
    forall i, j :: 0 <= i < j < |s| ==> s[i] != s[j]
  }

  /** All bytes, each once. */
  ghost predicate Permutation(s: seq<Byte>) {
    |s| == ROTORSZ && Distinct(s)
  }

  /** t undoes s. */
  ghost predicate Inverse(s: seq<Byte>, t: seq<Byte>) {
    |s| == |t| == ROTORSZ && forall i: Byte :: t[s[i]] == i && s[t[i]] == i
  }

  /** Bytes are paired off, none with itself. */
  ghost predicate Pairing(s: seq<Byte>) {
    |s| == ROTORSZ && forall i: Byte :: s[i] != i && s[s[i]] == i
  }

  /** n different numbers below n are all of them: if v were missing, the last
      number could stand in its place among fewer. */
  lemma {:induction false} Onto(s: seq<int>, n: nat, v: int)
    requires |s| == n && 0 <= v < n && (forall i :: 0 <= i < n ==> 0 <= s[i] < n)
    requires forall i, j :: 0 <= i < j < n ==> s[i] != s[j]
    ensures v in s
    decreases n
  {
    if v !in s {
      var m := n - 1;
      // without v, and with n - 1 renamed to v, the numbers are below n - 1
      var t := seq(m, i requires 0 <= i < m => if s[i] == m then v else s[i]);
      var last := if s[m] == m then v else s[m];
      assert s[m] in s;
      forall i | 0 <= i < m
        ensures 0 <= t[i] < m && t[i] != last
      {
        assert s[i] in s;
      }
      Onto(t, m, last);
    }
  }

  // The machine.

  /** One byte through the rotor, at positions n1 and n2. */
  function Cipher(t1: seq<Byte>, t2: seq<Byte>, t3: seq<Byte>, n1: nat, n2: nat, i: Byte): (o: Byte)
    requires |t1| == |t2| == |t3| == ROTORSZ
  {
    Mask(t2[Mask(t3[Mask(t1[Mask(i + n1)] + n2)] - n2)] - n1)
  }

  /** Masking a number less than one turn away from a byte. */
  lemma MaskNear(x: Byte, y: int)
    requires y == x || y == x + ROTORSZ || y == x - ROTORSZ
    ensures Mask(y) == x
  {
  }

  /** Adding and taking away a position. */
  lemma MaskBack(x: Byte, n: nat)
    requires n < ROTORSZ
    ensures Mask(Mask(x + n) - n) == x && Mask(Mask(x - n) + n) == x
  {
    hide Mask;
    var up: Byte := if x + n < ROTORSZ then x + n else x + n - ROTORSZ;
    MaskNear(up, x + n);
    MaskNear(x, up - n);
    var down: Byte := if x >= n then x - n else x - n + ROTORSZ;
    MaskNear(down, x - n);
    MaskNear(x, down + n);
  }

  /** The rotor, turned by n1, leads a byte and what it is enciphered to into entries
      that are partners, n2 further on. */
  lemma CipherPartners(t1: seq<Byte>, t2: seq<Byte>, t3: seq<Byte>, n1: nat, n2: nat, i: Byte)
    requires Inverse(t1, t2) && |t3| == ROTORSZ && n1 < ROTORSZ && n2 < ROTORSZ
    ensures var o := Cipher(t1, t2, t3, n1, n2, i);
      (t1[(o + n1) % 256] + n2) % 256 == t3[(t1[(i + n1) % 256] + n2) % 256]
  {
    hide Mask;
    var a: Byte := Mask(i + n1);
    var b: Byte := Mask(t1[a] + n2);
    var d: Byte := Mask(t3[b] - n2);
    var o: Byte := Mask(t2[d] - n1);
    MaskBack(t3[b], n2);
    MaskBack(t2[d], n1);
    assert t1[t2[d]] == d;
    MaskIs(i + n1);
    MaskIs(t1[a] + n2);
    MaskIs(o + n1);
    MaskIs(d + n2);
    hide Inverse;
  }

  lemma MaskIs(x: int)
    ensures Mask(x) == x % 256
  {
  }

  /** At the same positions a second pass undoes the first, and no byte is left
      as it is. */
  lemma CipherTwice(t1: seq<Byte>, t2: seq<Byte>, t3: seq<Byte>, n1: nat, n2: nat, i: Byte)
    requires Inverse(t1, t2) && Pairing(t3) && n1 < ROTORSZ && n2 < ROTORSZ
    ensures var o := Cipher(t1, t2, t3, n1, n2, i); Cipher(t1, t2, t3, n1, n2, o) == i && o != i
  {
    hide Mask;
    var a: Byte := Mask(i + n1);
    var b: Byte := Mask(t1[a] + n2);
    var c: Byte := t3[b];
    var d: Byte := Mask(c - n2);
    var o: Byte := Mask(t2[d] - n1);
    MaskBack(i, n1);
    MaskBack(t1[a], n2);
    MaskBack(c, n2);
    MaskBack(t2[d], n1);
    assert t1[t2[d]] == d && t2[t1[a]] == a && t3[c] == b && c != b;
  }

  // The set-up.

  /** How many of the first n entries are not paired yet. */
  ghost function Unset(s: seq<Byte>, n: nat): nat
    requires n <= |s|
  {
    if n == 0 then 0 else Unset(s, n - 1) + if s[n - 1] == 0 then 1 else 0
  }

  lemma {:induction false} SomeUnset(s: seq<Byte>, n: nat) returns (z: nat)
    requires n <= |s| && Unset(s, n) > 0
    ensures z < n && s[z] == 0
  {
    if s[n - 1] == 0 {
      z := n - 1;
    } else {
      z := SomeUnset(s, n - 1);
    }
  }

  lemma {:induction false} UnsetSame(s: seq<Byte>, t: seq<Byte>, n: nat)
    requires n <= |s| && n <= |t| && forall i :: 0 <= i < n ==> (s[i] == 0 <==> t[i] == 0)
    ensures Unset(s, n) == Unset(t, n)
  {
    if n > 0 {
      UnsetSame(s, t, n - 1);
    }
  }

  lemma {:induction false} UnsetLess(s: seq<Byte>, n: nat, z: nat, v: Byte)
    requires z < n <= |s| && s[z] == 0 && v != 0
    ensures Unset(s[z := v], n) == Unset(s, n) - 1
  {
    if z == n - 1 {
      UnsetSame(s, s[z := v], n - 1);
    } else {
      UnsetLess(s, n - 1, z, v);
    }
  }

  /** From n on every entry is paired; below n the entries paired have their
      partners from n on, and the others are an even number. */
  ghost predicate Paired(s: seq<Byte>, n: nat) {
    && n <= |s| == ROTORSZ
    && (forall j: Byte :: n <= j ==> s[j] != j && s[s[j]] == j)
    && (forall j: Byte :: j < n && s[j] != 0 ==> s[j] >= n && s[s[j]] == j)
    && Unset(s, n) % 2 == 0
  }

  lemma {:induction false} UnsetAll(s: seq<Byte>, n: nat)
    requires n <= |s| && forall i :: 0 <= i < n ==> s[i] == 0
    ensures Unset(s, n) == n
  {
    if n > 0 {
      UnsetAll(s, n - 1);
    }
  }

  lemma PairedStarts(s: seq<Byte>)
    requires |s| == ROTORSZ && forall i :: 0 <= i < |s| ==> s[i] == 0
    ensures Paired(s, |s|)
  {
    UnsetAll(s, |s|);
    hide Unset;
  }

  /** An entry met already paired. */
  lemma PairedSkip(s: seq<Byte>, k: nat)
    requires Paired(s, k + 1) && s[k] != 0
    ensures Paired(s, k)
  {
  }

  /** An entry not paired has company below: it is not the first, and a search
      finds another. */
  lemma Company(s: seq<Byte>, k: nat) returns (z: nat)
    requires Paired(s, k + 1) && s[k] == 0
    ensures z < k && s[z] == 0
  {
    z := SomeUnset(s, k);
  }

  lemma PairedWith(s: seq<Byte>, k: Byte, ic: Byte)
    requires Paired(s, k + 1) && s[k] == 0 && ic < k && s[ic] == 0
    ensures Paired(s[k := ic][ic := k], k)
  {
    var t := s[k := ic][ic := k];
    UnsetLess(s, k, ic, k);
    UnsetSame(s[ic := k], t, k);
    assert Unset(s, k + 1) == Unset(s, k) + 1;
    hide Unset;
  }

  lemma PairedAll(s: seq<Byte>)
    requires Paired(s, 0)
    ensures Pairing(s)
  {
  }

  // 32-bit arithmetic.

  const W := 0x1_0000_0000

  function Long(x: int): int { (x + W / 2) % W - W / 2 }

  /** The remainder towards zero, as an unsigned number. */
  function Random(seed: int): (r: nat)
  {
    if seed >= 0 then seed % 65521 else (W - (-seed) % 65521) % W
  }

  /** A random number is the seed but for a multiple of 65521; a negative seed leaves it
      less than that below the top of the range. */
  lemma RandomIs(seed: int)
    ensures seed >= 0 ==> Random(seed) < 65521 && (seed - Random(seed)) % 65521 == 0
    ensures seed < 0 ==>
      Random(seed) == 0 || (0 < 0x1_0000_0000 - Random(seed) < 65521 &&
                            (-seed - (0x1_0000_0000 - Random(seed))) % 65521 == 0)
    ensures seed < 0 && Random(seed) == 0 ==> (-seed) % 65521 == 0
  {
    var x := if seed >= 0 then seed else -seed;
    var r := x % 65521;
    Rest(x, r);
    assert Random(seed) == if seed >= 0 || r == 0 then r else 0x1_0000_0000 - r by {
      Below(r);
    }
    hide *;
  }

  lemma Below(r: nat)
    requires r < 65521
    ensures (0x1_0000_0000 - r) % 0x1_0000_0000 == if r == 0 then 0 else 0x1_0000_0000 - r
  {
  }

  lemma Rest(x: nat, r: nat)
    requires r == x % 65521
    ensures r < 65521 && (x - r) % 65521 == 0
  {
    var q := x / 65521;
    assert x - r == 65521 * q;
  }

  lemma OneOn(ic: nat, k: nat)
    requires ic < k
    ensures (ic + 1) % k == if ic + 1 == k then 0 else ic + 1
  {
  }

  lemma LongSame(x: int, y: int, n: int)
    requires y == x + W * n
    ensures Long(y) == Long(x)
  {
    var q := (x + W / 2) / W;
    var r := (x + W / 2) % W;
    assert y + W / 2 == W * (q + n) + r;
    Remainder(y + W / 2, q + n, r);
  }

  lemma Remainder(x: int, q: int, r: int)
    requires x == W * q + r && 0 <= r < W
    ensures x % W == r
  {
  }

  lemma LongNear(x: int) returns (n: int)
    ensures Long(x) == x + W * n
  {
    n := -((x + W / 2) / W);
  }

  /** Wrapping in between makes no difference. */
  lemma LongOnce(a: int, x: int, y: int, b: int)
    requires y == a * x
    ensures Long(Long(a * Long(x)) + b) == Long(y + b)
  {
    var n := LongNear(x);
    var m := LongNear(a * Long(x));
    assert a * Long(x) == y + W * (a * n) by {
      assert a * (x + W * n) == a * x + W * (a * n);
    }
    LongSame(y + b, Long(a * Long(x)) + b, a * n + m);
  }

  // What the key makes of the tables.

  /** The seed from the characters of the key, as if it had no bounds. */
  ghost function KeySeed(buf: seq<int>, n: nat): int
    requires n <= |buf|
  {
    if n == 0 then 123 else KeySeed(buf, n - 1) * buf[n - 1] + (n - 1)
  }

  /** The seed after n entries, as if it had no bounds. */
  ghost function SeedAt(buf: seq<int>, n: nat): int
    requires |buf| == 13
  {
    if n == 0 then KeySeed(buf, 13) else 5 * SeedAt(buf, n - 1) + buf[(n - 1) % 13]
  }

  /** The n-th random number, which is drawn for entry ROTORSZ - n. */
  ghost function Draw(buf: seq<int>, n: nat): nat
    requires |buf| == 13
  {
    Random(Long(SeedAt(buf, n)))
  }

  /** The last entry is picked from those left by the next random number, and the one
      that was last takes its place. */
  ghost function Shuffled(left: seq<Byte>, buf: seq<int>): (s: seq<Byte>)
    requires |buf| == 13 && |left| <= ROTORSZ
    ensures |s| == |left|
    decreases |left|
  {
    if left == [] then []
    else
      var k := |left| - 1;
      var ic := Draw(buf, ROTORSZ - k) % 256 % |left|;
      Shuffled(left[ic := left[k]][..k], buf) + [left[ic]]
  }

  /** The first entry not paired among the first k, from start on and round. */
  ghost predicate FirstFree(s: seq<Byte>, k: nat, start: nat, ic: nat)
    requires k <= |s|
  {
    && start < k && ic < k && s[ic] == 0
    && if start <= ic then forall j :: start <= j < ic ==> s[j] != 0
       else (forall j :: start <= j < k ==> s[j] != 0) && forall j :: 0 <= j < ic ==> s[j] != 0
  }

  /** From the last of the first n entries down, each not paired yet is paired with the
      one that the rest of its random number finds, which gives t. */
  ghost predicate PairsUp(s: seq<Byte>, n: nat, buf: seq<int>, t: seq<Byte>)
    requires |buf| == 13 && n <= |s| == ROTORSZ
    decreases n, 1
  {
    if n == 0 then t == s
    else if s[n - 1] != 0 then PairsUp(s, n - 1, buf, t)
    else exists ic :: PairsVia(s, n, buf, t, ic)
  }

  ghost predicate PairsVia(s: seq<Byte>, n: nat, buf: seq<int>, t: seq<Byte>, ic: nat)
    requires |buf| == 13 && 0 < n <= |s| == ROTORSZ
    decreases n - 1, 2
  {
    && n > 1 && ic < ROTORSZ && FirstFree(s, n - 1, Draw(buf, ROTORSZ - n + 1) / 256 % 256 % (n - 1), ic)
    && PairsUp(s[n - 1 := ic][ic := n - 1], n - 1, buf, t)
  }

  /** Entry k paired, unless it is, with the first one free from a random start on. */
  ghost predicate PairedOff(s: seq<Byte>, k: nat, random: nat, t: seq<Byte>)
    requires k < |s| == ROTORSZ
  {
    if s[k] != 0 then t == s
    else k > 0 && exists ic: nat :: FirstFree(s, k, random % 256 % k, ic) && t == s[k := ic][ic := k]
  }

  lemma FreeInside(s: seq<Byte>, k: nat, start: nat, ic: nat)
    requires k <= |s| && FirstFree(s, k, start, ic)
    ensures ic < k
  {
  }

  lemma PairsNext(s: seq<Byte>, n: nat, buf: seq<int>, random: nat, s': seq<Byte>, t: seq<Byte>)
    requires |buf| == 13 && 0 < n <= |s| == |s'| == ROTORSZ && random == Draw(buf, ROTORSZ - n + 1) / 256
    requires PairedOff(s, n - 1, random, s') && PairsUp(s', n - 1, buf, t)
    ensures PairsUp(s, n, buf, t)
  {
    if s[n - 1] == 0 {
      hide FirstFree, Draw;
      var ic: nat :| FirstFree(s, n - 1, random % 256 % (n - 1), ic) && s' == s[n - 1 := ic][ic := n - 1];
      FreeInside(s, n - 1, random % 256 % (n - 1), ic);
      assert PairsVia(s, n, buf, t, ic);
    }
  }

  /** One more entry is picked. */
  lemma ShuffledNext(all: seq<Byte>, k: nat, ic: nat, buf: seq<int>, all': seq<Byte>)
    requires |buf| == 13 && k < |all| == ROTORSZ && ic == Draw(buf, ROTORSZ - k) % 256 % (k + 1)
    requires all' == all[k := all[ic]][ic := all[k]]
    ensures Shuffled(all[..k + 1], buf) + all[k + 1..] == Shuffled(all'[..k], buf) + all'[k..]
  {
    var left, rest := all[..k + 1], all[k + 1..];
    var front := left[ic := left[k]][..k];
    assert all'[..k] == front;
    assert all'[k..] == [left[ic]] + rest;
    ShuffledIs(left, k, ic, front, buf);
    Regroup(Shuffled(front, buf), [left[ic]], rest);
  }

  lemma ShuffledIs(left: seq<Byte>, k: nat, ic: nat, front: seq<Byte>, buf: seq<int>)
    requires |buf| == 13 && |left| == k + 1 <= ROTORSZ && ic == Draw(buf, ROTORSZ - k) % 256 % (k + 1)
    requires front == left[ic := left[k]][..k]
    ensures Shuffled(left, buf) == Shuffled(front, buf) + [left[ic]]
  {
    hide Draw, Random, Long, SeedAt;
  }

  lemma Regroup(a: seq<Byte>, b: seq<Byte>, c: seq<Byte>)
    ensures (a + b) + c == a + (b + c)
  {
  }

  lemma SeedNext(buf: seq<int>, n: nat, seed: int)
    requires |buf| == 13 && seed == Long(SeedAt(buf, n))
    ensures Long(Long(5 * seed) + buf[n % 13]) == Long(SeedAt(buf, n + 1))
  {
    LongOnce(5, SeedAt(buf, n), 5 * SeedAt(buf, n), buf[n % 13]);
  }

  lemma KeySeedNext(buf: seq<int>, n: nat, seed: int)
    requires n < |buf| && seed == Long(KeySeed(buf, n))
    ensures Long(Long(seed * buf[n]) + n) == Long(KeySeed(buf, n + 1))
  {
    LongOnce(buf[n], KeySeed(buf, n), buf[n] * KeySeed(buf, n), n);
  }

  lemma NoneIs(s: seq<Byte>)
    requires |s| == ROTORSZ && forall j :: 0 <= j < ROTORSZ ==> s[j] == 0
    ensures s == NoPartners()
  {
  }

  lemma SeedStarts(buf: seq<int>)
    requires |buf| == 13
    ensures Long(KeySeed(buf, 0)) == 123 && KeySeed(buf, 13) == SeedAt(buf, 0)
  {
  }

  lemma DrawIs(buf: seq<int>, n: nat)
    requires |buf| == 13
    ensures Draw(buf, n) == Random(Long(SeedAt(buf, n)))
  {
  }

  lemma SetUp(buf: seq<int>, s: seq<Byte>, t: seq<Byte>)
    requires |buf| == 13 && |s| == |t| == ROTORSZ
    ensures Shuffled(s[..0], buf) + s[0..] == s && PairsUp(t, 0, buf, t)
  {
  }

  function AllBytes(): (s: seq<Byte>)
    ensures |s| == ROTORSZ && forall j :: 0 <= j < ROTORSZ ==> s[j] == j
  {
    seq(ROTORSZ, i requires 0 <= i < ROTORSZ => i)
  }

  function NoPartners(): (s: seq<Byte>)
    ensures |s| == ROTORSZ && forall j :: 0 <= j < ROTORSZ ==> s[j] == 0
  {
    seq(ROTORSZ, i => 0)
  }

  class Machine {
    const t1: array<Byte>
    const t2: array<Byte>
    const t3: array<Byte>

    constructor ()
      ensures t1.Length == t2.Length == t3.Length == ROTORSZ && fresh(t1) && fresh(t2) && fresh(t3)
      ensures t1 != t2 && t1 != t3 && t2 != t3
      ensures forall i :: 0 <= i < ROTORSZ ==> t3[i] == 0
    {
      t1, t2, t3 := new Byte[ROTORSZ](i => 0), new Byte[ROTORSZ](i => 0), new Byte[ROTORSZ](i => 0);
    }

    ghost predicate Separate()
    {
      t1.Length == t2.Length == t3.Length == ROTORSZ && t1 != t2 && t1 != t3 && t2 != t3
    }

    /** The first entry not paired among the first k, from ic on and round. */
    method Probe(k: nat, ic0: nat, ghost z: nat) returns (ic: nat)
      requires t3.Length == ROTORSZ && ic0 < k <= ROTORSZ && z < k && t3[z] == 0
      ensures FirstFree(t3[..], k, ic0, ic)
    {
      ic := ic0;
      while t3[ic] != 0
        invariant ic < k
        invariant ic0 <= ic ==> forall j :: ic0 <= j < ic ==> t3[j] != 0
        invariant ic < ic0 ==> (forall j :: ic0 <= j < k ==> t3[j] != 0) && forall j :: 0 <= j < ic ==> t3[j] != 0
        decreases if ic <= z then z - ic else z + k - ic
      {
        OneOn(ic, k);
        ic := (ic + 1) % k;
      }
    }

    /** Exchange two entries of the first table. */
    method Exchange(k: nat, ic: nat)
      requires t1.Length == ROTORSZ && k < ROTORSZ && ic < ROTORSZ && Distinct(t1[..])
      modifies t1
      ensures t1[..] == old(t1[..])[k := old(t1[ic])][ic := old(t1[k])] && Distinct(t1[..])
    {
      var temp := t1[k];
      t1[k] := t1[ic];
      t1[ic] := temp;
    }

    /** Pair entry k with one below, unless it is paired. */
    method Pair(k: Byte, random: nat)
      requires t3.Length == ROTORSZ && Paired(t3[..], k + 1)
      modifies t3
      ensures Paired(t3[..], k) && PairedOff(old(t3[..]), k, random, t3[..])
    {
      if t3[k] != 0 {
        PairedSkip(t3[..], k);
        return;
      }
      ghost var s: seq<Byte> := t3[..];
      ghost var z := Company(s, k);
      var ic: Byte := Probe(k, random % ROTORSZ % k, z);
      PairedWith(s, k, ic);
      t3[k] := ic;
      t3[ic] := k;
      assert t3[..] == s[k := ic][ic := k as Byte];
    }

    /** The tables from the 13 characters that makekey made of the key. */
    method Setup(buf: seq<int>)
      requires Separate() && |buf| == 13 && forall i :: 0 <= i < ROTORSZ ==> t3[i] == 0
      modifies t1, t2, t3
      ensures Permutation(t1[..]) && Inverse(t1[..], t2[..]) && Pairing(t3[..])
      ensures t1[..] == Shuffled(AllBytes(), buf) && PairsUp(NoPartners(), ROTORSZ, buf, t3[..])
    {
      hide Paired, Pairing, Inverse, PairsUp, Shuffled, Draw, SeedAt, KeySeed, Long, Random, PairedOff;
      NoneIs(t3[..]);
      var seed := 123;
      SeedStarts(buf);
      for i := 0 to 13
        invariant seed == Long(KeySeed(buf, i))
        modifies {}
      {
        KeySeedNext(buf, i, seed);
        seed := Long(Long(seed * buf[i]) + i);
      }
      for i := 0 to ROTORSZ
        invariant t3[..] == NoPartners() && forall j :: 0 <= j < i ==> t1[j] == j
        modifies t1
      {
        t1[i] := i;
      }
      assert Distinct(t1[..]);
      assert t1[..] == AllBytes();
      PairedStarts(t3[..]);
      ghost var picked := Shuffled(AllBytes(), buf);
      assert t1[..][..ROTORSZ] == t1[..] && t1[..][ROTORSZ..] == [];
      for i := 0 to ROTORSZ
        invariant Distinct(t1[..]) && Paired(t3[..], ROTORSZ - i) && seed == Long(SeedAt(buf, i))
        invariant Shuffled(t1[..][..ROTORSZ - i], buf) + t1[..][ROTORSZ - i..] == picked
        invariant forall t :: PairsUp(t3[..], ROTORSZ - i, buf, t) ==> PairsUp(NoPartners(), ROTORSZ, buf, t)
        modifies t1, t3
      {
        SeedNext(buf, i, seed);
        seed := Long(Long(5 * seed) + buf[i % 13]);
        DrawIs(buf, i + 1);
        var random := Random(seed);
        var k := ROTORSZ - 1 - i;
        ghost var was1, was3 := t1[..], t3[..];
        Exchange(k, random % ROTORSZ % (k + 1));
        ShuffledNext(was1, k, random % ROTORSZ % (k + 1), buf, t1[..]);
        Pair(k, random / 256);
        forall t | PairsUp(t3[..], k, buf, t)
          ensures PairsUp(was3, k + 1, buf, t)
        {
          PairsNext(was3, k + 1, buf, random / 256, t3[..], t);
        }
      }
      PairedAll(t3[..]);
      SetUp(buf, t1[..], t3[..]);
      Invert();
    }

    /** The second table undoes the first. */
    method Invert()
      requires Separate() && Distinct(t1[..])
      modifies t2
      ensures Inverse(t1[..], t2[..])
    {
      for i := 0 to ROTORSZ
        invariant forall j :: 0 <= j < i ==> t2[t1[j]] == j
        modifies t2
      {
        assert forall j :: 0 <= j < i ==> t1[..][j] != t1[..][i];
        t2[t1[i]] := i;
      }
      BothWays(t1[..], t2[..]);
    }

    /** Encipher a whole input. */
    method Run(input: seq<Byte>) returns (output: seq<Byte>)
      requires t1.Length == t2.Length == t3.Length == ROTORSZ
      ensures output == Ciphered(t1[..], t2[..], t3[..], input)
    {
      hide Cipher;
      var n1: nat, n2: nat := 0, 0;
      output := [];
      for x := 0 to |input|
        invariant n1 == x % ROTORSZ && n2 == x / ROTORSZ % ROTORSZ
        invariant output == Ciphered(t1[..], t2[..], t3[..], input[..x])
      {
        CipheredNext(t1[..], t2[..], t3[..], input, x);
        var i := t2[Mask(t3[Mask(t1[Mask(input[x] + n1)] + n2)] - n2)] - n1;
        CipherIs(t1[..], t2[..], t3[..], n1, n2, input[x]);
        output := output + [Mask(i)];
        Turn(x);
        n1 := n1 + 1;
        if n1 == ROTORSZ {
          n1 := 0;
          n2 := n2 + 1;
          if n2 == ROTORSZ {
            n2 := 0;
          }
        }
      }
      assert input[..|input|] == input;
    }
  }

  lemma BothWays(s: seq<Byte>, t: seq<Byte>)
    requires |s| == |t| == ROTORSZ && Distinct(s) && forall j :: 0 <= j < ROTORSZ ==> t[s[j]] == j
    ensures Inverse(s, t)
  {
    forall v: Byte
      ensures s[t[v]] == v
    {
      Onto(s, |s|, v);
      var j :| 0 <= j < |s| && s[j] == v;
    }
  }

  /** The rotor positions after x bytes. */
  lemma Turn(x: nat)
    ensures (x + 1) % ROTORSZ == if x % ROTORSZ + 1 == ROTORSZ then 0 else x % ROTORSZ + 1
    ensures (x + 1) / ROTORSZ == x / ROTORSZ + if x % ROTORSZ + 1 == ROTORSZ then 1 else 0
    ensures x % ROTORSZ + 1 == ROTORSZ ==>
      (x + 1) / ROTORSZ % ROTORSZ == if x / ROTORSZ % ROTORSZ + 1 == ROTORSZ then 0 else x / ROTORSZ % ROTORSZ + 1
  {
  }

  /** A whole text: the positions count the bytes before. */
  function Ciphered(t1: seq<Byte>, t2: seq<Byte>, t3: seq<Byte>, text: seq<Byte>): (o: seq<Byte>)
    requires |t1| == |t2| == |t3| == ROTORSZ
    ensures |o| == |text|
  {
    if text == [] then []
    else
      var x := |text| - 1;
      Ciphered(t1, t2, t3, text[..x]) + [Cipher(t1, t2, t3, x % ROTORSZ, x / ROTORSZ % ROTORSZ, text[x])]
  }

  lemma CipheredNext(t1: seq<Byte>, t2: seq<Byte>, t3: seq<Byte>, text: seq<Byte>, x: nat)
    requires |t1| == |t2| == |t3| == ROTORSZ && x < |text|
    ensures Ciphered(t1, t2, t3, text[..x + 1]) ==
      Ciphered(t1, t2, t3, text[..x]) + [Cipher(t1, t2, t3, x % ROTORSZ, x / ROTORSZ % ROTORSZ, text[x])]
  {
    assert text[..x + 1][..x] == text[..x];
  }

  lemma CipherIs(t1: seq<Byte>, t2: seq<Byte>, t3: seq<Byte>, n1: nat, n2: nat, i: Byte)
    requires |t1| == |t2| == |t3| == ROTORSZ
    ensures Cipher(t1, t2, t3, n1, n2, i) == Mask(t2[Mask(t3[Mask(t1[Mask(i + n1)] + n2)] - n2)] - n1)
  {
  }

  lemma CipheredStep(t1: seq<Byte>, t2: seq<Byte>, t3: seq<Byte>, text: seq<Byte>, x: nat)
    requires |t1| == |t2| == |t3| == ROTORSZ && |text| == x + 1
    ensures Ciphered(t1, t2, t3, text) ==
      Ciphered(t1, t2, t3, text[..x]) + [Cipher(t1, t2, t3, x % ROTORSZ, x / ROTORSZ % ROTORSZ, text[x])]
  {
    hide Cipher;
  }

  /** With the tables of one key, enciphering twice gives the text back. */
  lemma {:induction false} TwiceTheSame(t1: seq<Byte>, t2: seq<Byte>, t3: seq<Byte>, text: seq<Byte>)
    requires Inverse(t1, t2) && Pairing(t3)
    ensures Ciphered(t1, t2, t3, Ciphered(t1, t2, t3, text)) == text
  {
    if text != [] {
      assert |t1| == |t2| == |t3| == ROTORSZ;
      hide *;
      var x, o := |text| - 1, Ciphered(t1, t2, t3, text);
      TwiceTheSame(t1, t2, t3, text[..x]);
      Positions(x);
      CipherTwice(t1, t2, t3, x % ROTORSZ, x / ROTORSZ % ROTORSZ, text[x]);
      CipheredStep(t1, t2, t3, text, x);
      CipheredStep(t1, t2, t3, o, x);
      assert o[..x] == Ciphered(t1, t2, t3, text[..x]);
    }
  }

  lemma Positions(x: nat)
    ensures 0 <= x % ROTORSZ < ROTORSZ && 0 <= x / ROTORSZ % ROTORSZ < ROTORSZ
  {
  }
}
