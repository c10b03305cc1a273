/** ld's segmented symbol table: lookup, enter and symfree. */
module SymTab {
  import opened Numbers
  import opened Probe
  import opened LinkMap

  const NSEG := 40

  /** One segment: the symbols used so far, and its hash table, whose buckets are
      -1 or the index of a symbol. */
  datatype Segment = Segment(syms: seq<Sym>, hash: seq<int>)

  const FRESH: Segment := Segment([], NoBuckets())

  function NoBuckets(): (s: seq<int>)
    ensures |s| == HSIZE && forall b :: 0 <= b < HSIZE ==> s[b] == -1
  {
    seq(HSIZE, i => -1)
  }

  /** Each character is added to twice the sum so far. */
  function Fold(s: string, sh: int): int {
    if s == [] then sh else Fold(s[1..], 2 * sh + s[0] as int)
  }

  /** The hash of a name: only the low 31 bits of the sum count. */
  function Hash(name: string): (h: nat)
    ensures h < HSIZE
  {
    Fold(name, 0) % 0x8000_0000 % HSIZE
  }

  datatype Outcome = Found(bucket: nat) | Full | Botch

  /** Symbols and buckets point at each other. */
  ghost predicate Linked(s: Segment) {
    && |s.hash| == HSIZE && |s.syms| <= NSYM
    && (forall i :: 0 <= i < |s.syms| ==> s.syms[i].hash < HSIZE && s.hash[s.syms[i].hash] == i)
    && forall b :: 0 <= b < HSIZE && s.hash[b] != -1 ==> 0 <= s.hash[b] < |s.syms| && s.syms[s.hash[b]].hash == b
  }

  /** What the probes of a name in a segment come to, from probe k on. */
  ghost function Search(s: Segment, name: string, k: nat): Outcome
    requires Linked(s)
    decreases NSYM - k
  {
    if k >= NSYM then Botch
    else
      var b := At(Hash(name), k);
      if s.hash[b] == -1 then (if |s.syms| == NSYM then Full else Found(b))
      else if s.syms[s.hash[b]].name == name then Found(b)
      else Search(s, name, k + 1)
  }

  /** Symbol i sits at its k-th probe, and the probes before hold older symbols. */
  ghost predicate PlacedAt(s: Segment, i: nat, k: nat)
    requires Linked(s) && i < |s.syms|
  {
    && k < NSYM && At(Hash(s.syms[i].name), k) == s.syms[i].hash
    && forall j: nat :: j < k ==> Taken(s, Hash(s.syms[i].name), j, i)
  }

  /** Probe j of hash h finds one of the first n symbols. */
  ghost predicate Taken(s: Segment, h: nat, j: nat, n: nat)
    requires Linked(s) && h < HSIZE
  {
    0 <= s.hash[At(h, j)] < n
  }

  ghost predicate TakenTo(s: Segment, h: nat, k: nat)
    requires Linked(s) && h < HSIZE
  {
    forall j: nat :: j < k ==> Taken(s, h, j, |s.syms|)
  }

  /** A search for symbol i gets to it. */
  ghost predicate Reached(s: Segment, i: nat)
    requires Linked(s) && i < |s.syms|
  {
    exists k: nat :: PlacedAt(s, i, k)
  }

  ghost predicate Placed(s: Segment) {
    Linked(s) && forall i :: 0 <= i < |s.syms| ==> Reached(s, i)
  }

  ghost predicate Has(s: Segment, name: string) {
    exists i :: 0 <= i < |s.syms| && s.syms[i].name == name
  }

  ghost predicate DistinctNames(s: Segment) {
    forall i, j :: 0 <= i < j < |s.syms| ==> s.syms[i].name != s.syms[j].name
  }

  /** A symbol that is there is found. */
  lemma {:induction false} SearchFinds(s: Segment, i: nat, j: nat, k: nat)
    requires Placed(s) && DistinctNames(s) && i < |s.syms| && j <= k && PlacedAt(s, i, k)
    ensures Search(s, s.syms[i].name, j) == Found(s.syms[i].hash)
    decreases k - j
  {
    hide Hash, At;
    if j < k {
      assert Taken(s, Hash(s.syms[i].name), j, i);
      SearchFinds(s, i, j + 1, k);
    }
  }

  /** Probe k of hash h leads to bucket b, and all probes before it are taken. */
  ghost predicate Leads(s: Segment, h: nat, b: nat, k: nat)
    requires Linked(s) && h < HSIZE
  {
    k < NSYM && At(h, k) == b && TakenTo(s, h, k)
  }

  /** The first probe of hash h that finds nothing leads to bucket b. */
  ghost predicate Vacant(s: Segment, h: nat, b: nat)
    requires Linked(s) && h < HSIZE
  {
    b < HSIZE && s.hash[b] == -1 && exists k: nat :: Leads(s, h, b, k)
  }

  /** A name that is not there leads to an empty bucket, unless the segment is
      full; all buckets probed before it are taken. */
  lemma {:induction false} SearchMisses(s: Segment, name: string, k: nat)
    requires Linked(s) && !Has(s, name) && k <= NSYM && TakenTo(s, Hash(name), k)
    ensures match Search(s, name, k) {
      case Found(b) => |s.syms| < NSYM && Vacant(s, Hash(name), b)
      case Full => |s.syms| == NSYM
      case Botch => |s.syms| == NSYM && TakenTo(s, Hash(name), NSYM)
    }
    decreases NSYM - k
  {
    hide Hash;
    if k == NSYM {
      AllTaken(s, Hash(name), NSYM);
      forall v | v in Values(s, Hash(name), NSYM)
        ensures 0 <= v < |s.syms|
      {
        assert Hit(s, Hash(name), NSYM, v);
      }
      var v := Values(s, Hash(name), NSYM);
      RangeSize(0, |s.syms|, v);
    } else if s.hash[At(Hash(name), k)] == -1 {
      assert Leads(s, Hash(name), At(Hash(name), k), k);
      if |s.syms| < NSYM {
        assert Vacant(s, Hash(name), At(Hash(name), k));
      }
    } else {
      assert Taken(s, Hash(name), k, |s.syms|);
      SearchMisses(s, name, k + 1);
    }
  }

  /** The symbols that the first k probes find. */
  ghost function Values(s: Segment, h: nat, k: nat): set<int>
    requires Linked(s) && h < HSIZE
  {
    if k == 0 then {} else Values(s, h, k - 1) + {s.hash[At(h, k - 1)]}
  }

  /** One of the first k probes finds symbol v. */
  ghost predicate Hit(s: Segment, h: nat, k: nat, v: int)
    requires Linked(s) && h < HSIZE
  {
    0 <= v < |s.syms| && exists j: nat :: j < k && Probed(s, h, j, v)
  }

  ghost predicate Probed(s: Segment, h: nat, j: nat, v: int)
    requires Linked(s) && h < HSIZE
  {
    0 <= v < |s.syms| && At(h, j) == s.syms[v].hash
  }

  /** The distinct probes of a name hold distinct symbols. */
  lemma {:induction false} AllTaken(s: Segment, h: nat, k: nat)
    requires Linked(s) && h < HSIZE && k <= NSYM && TakenTo(s, h, k)
    ensures |Values(s, h, k)| == k
    ensures forall v :: v in Values(s, h, k) ==> Hit(s, h, k, v)
  {
    if k > 0 {
      AllTaken(s, h, k - 1);
      var v := s.hash[At(h, k - 1)];
      assert Taken(s, h, k - 1, |s.syms|);
      hide At;
      if v in Values(s, h, k - 1) {
        assert Hit(s, h, k - 1, v);
        var j: nat :| j < k - 1 && Probed(s, h, j, v);
        ProbesDistinct(h, j, k - 1);
      }
      assert Probed(s, h, k - 1, v);
      forall w | w in Values(s, h, k)
        ensures Hit(s, h, k, w)
      {
        if w != v {
          assert Hit(s, h, k - 1, w);
        }
      }
    }
  }

  /** Where a name is, or would go: the segments are tried in turn. */
  datatype Place = Bucket(seg: nat, bucket: nat) | TableBotch | Overflow

  ghost predicate Linkage(segs: seq<Segment>) {
    |segs| == NSEG && forall g :: 0 <= g < NSEG ==> Linked(segs[g])
  }

  ghost function Locate(segs: seq<Segment>, name: string, g: nat): Place
    requires Linkage(segs)
    decreases NSEG - g
  {
    if g >= NSEG then Overflow
    else match Search(segs[g], name, 0)
      case Found(b) => Bucket(g, b)
      case Full => Locate(segs, name, g + 1)
      case Botch => TableBotch
  }

  /** The table: segments before cur are full, those after it empty; every symbol
      is where its probes lead, no name is there twice, and the way to each symbol
      passes the full segments before its own. */
  ghost predicate Table(segs: seq<Segment>, cur: nat) {
    && Linkage(segs) && cur < NSEG
    && (forall g :: 0 <= g < NSEG ==> Placed(segs[g]) && DistinctNames(segs[g]))
    && (forall g :: 0 <= g < cur ==> |segs[g].syms| == NSYM)
    && (forall g :: cur < g < NSEG ==> segs[g].syms == [])
    && forall f, g, i :: 0 <= f < g < NSEG && 0 <= i < |segs[g].syms| ==> Passes(segs[f], segs[g].syms[i].name)
  }

  ghost predicate Passes(s: Segment, name: string) {
    Linked(s) && |s.syms| == NSYM && !Has(s, name) && Search(s, name, 0) == Full
  }

  ghost predicate Entered(segs: seq<Segment>, name: string) {
    exists g :: 0 <= g < |segs| && Has(segs[g], name)
  }

  /** The bucket holds the symbol of that name. */
  ghost predicate Holds(segs: seq<Segment>, g: nat, b: nat, name: string)
    requires Linkage(segs)
  {
    g < NSEG && b < HSIZE && segs[g].hash[b] != -1 && segs[g].syms[segs[g].hash[b]].name == name
  }

  ghost predicate PassesTo(segs: seq<Segment>, g: nat, name: string)
    requires g <= |segs|
  {
    forall f :: 0 <= f < g ==> Passes(segs[f], name)
  }

  /** What a lookup may say of a name: its bucket if it is entered; if not, an
      empty bucket of the current segment, or of the next one if that is full; or
      an error, which needs a full segment. */
  ghost predicate Sited(segs: seq<Segment>, cur: nat, name: string, p: Place)
    requires Linkage(segs) && cur < NSEG
  {
    match p
    case Bucket(f, b) =>
      if Entered(segs, name) then Holds(segs, f, b, name)
      else
        && f < NSEG && |segs[f].syms| < NSYM && Vacant(segs[f], Hash(name), b)
        && (f == cur || (f == cur + 1 && |segs[cur].syms| == NSYM))
    case TableBotch =>
      !Entered(segs, name) && exists f :: 0 <= f < NSEG && |segs[f].syms| == NSYM && AllHit(segs[f], name)
    case Overflow => !Entered(segs, name) && forall f :: 0 <= f < NSEG ==> |segs[f].syms| == NSYM
  }

  /** All probes of the name hit symbols. */
  ghost predicate AllHit(s: Segment, name: string) {
    Linked(s) && TakenTo(s, Hash(name), NSYM)
  }

  /** A name entered is found in its bucket; a name not entered leads to an empty
      bucket of the current segment, or of the next if that one is full, or to an
      error that needs a full segment. */
  lemma {:induction false} Located(segs: seq<Segment>, cur: nat, name: string, g: nat)
    requires Table(segs, cur) && g <= NSEG && PassesTo(segs, g, name)
    ensures Sited(segs, cur, name, Locate(segs, name, g))
    ensures Locate(segs, name, g).Bucket? ==> PassesTo(segs, Locate(segs, name, g).seg, name)
    decreases NSEG - g
  {
    hide Hash, Search, Placed, DistinctNames;
    if g < NSEG {
      if Has(segs[g], name) {
        var i :| 0 <= i < |segs[g].syms| && segs[g].syms[i].name == name;
        assert Placed(segs[g]) && DistinctNames(segs[g]);
        Sits(segs[g], i);
        assert Holds(segs, g, segs[g].syms[i].hash, name);
      } else {
        SearchMisses(segs[g], name, 0);
        if Search(segs[g], name, 0) == Full {
          assert Passes(segs[g], name);
          Located(segs, cur, name, g + 1);
        } else {
          NotEntered(segs, cur, name, g);
          if Search(segs[g], name, 0) == Botch {
            assert AllHit(segs[g], name);
          } else {
            Open(segs, cur, name, g);
          }
        }
      }
    }
  }

  /** A segment with room that the name reaches is the current one, or the next if
      that one is full. */
  lemma Open(segs: seq<Segment>, cur: nat, name: string, g: nat)
    requires Table(segs, cur) && g < NSEG && PassesTo(segs, g, name) && |segs[g].syms| < NSYM
    ensures g == cur || (g == cur + 1 && |segs[cur].syms| == NSYM)
  {
    hide Search, Placed, DistinctNames, Has;
    if cur + 1 < NSEG {
      assert !Passes(segs[cur + 1], name);
    }
    if g > cur {
      assert Passes(segs[cur], name);
    }
  }

  lemma Sits(s: Segment, i: nat)
    requires Placed(s) && DistinctNames(s) && i < |s.syms|
    ensures Search(s, s.syms[i].name, 0) == Found(s.syms[i].hash)
  {
    hide Hash, At, Search, DistinctNames;
    assert Reached(s, i);
    var k: nat :| PlacedAt(s, i, k);
    SearchFinds(s, i, 0, k);
  }

  /** A name that stops in a segment without being there is nowhere. */
  lemma NotEntered(segs: seq<Segment>, cur: nat, name: string, g: nat)
    requires Table(segs, cur) && g < NSEG && PassesTo(segs, g, name)
    requires !Has(segs[g], name) && Search(segs[g], name, 0) != Full
    ensures !Entered(segs, name)
  {
    hide Hash, Search, Placed, DistinctNames;
    forall f | 0 <= f < |segs|
      ensures !Has(segs[f], name)
    {
      if f < g {
        assert Passes(segs[f], name);
      } else if f > g {
        forall i | 0 <= i < |segs[f].syms|
          ensures segs[f].syms[i].name != name
        {
          assert Passes(segs[g], segs[f].syms[i].name);
        }
      }
    }
  }

  /** Enter symbol y in its bucket. */
  function Put(s: Segment, y: Sym): Segment
    requires y.hash < |s.hash|
  {
    Segment(s.syms + [y], s.hash[y.hash := |s.syms|])
  }

  lemma PutPlaced(s: Segment, y: Sym)
    requires Placed(s) && |s.syms| < NSYM && Vacant(s, Hash(y.name), y.hash)
    ensures Placed(Put(s, y))
  {
    hide Hash, At;
    var t, n := Put(s, y), |s.syms|;
    assert Linked(t) by {
      hide Reached;
    }
    forall i | 0 <= i < |t.syms|
      ensures Reached(t, i)
    {
      if i < n {
        assert Reached(s, i);
        var k: nat :| PlacedAt(s, i, k);
        StillTaken(s, y, Hash(s.syms[i].name), k, i);
        assert PlacedAt(t, i, k);
      } else {
        var k: nat :| Leads(s, Hash(y.name), y.hash, k);
        StillTaken(s, y, Hash(y.name), k, n);
        assert PlacedAt(t, n, k);
      }
    }
  }

  lemma StillTaken(s: Segment, y: Sym, h: nat, k: nat, n: nat)
    requires Linked(s) && y.hash < HSIZE && s.hash[y.hash] == -1 && Linked(Put(s, y)) && h < HSIZE
    requires forall j: nat :: j < k ==> Taken(s, h, j, n)
    ensures forall j: nat :: j < k ==> Taken(Put(s, y), h, j, n)
  {
    assert |s.hash| == |Put(s, y).hash| == HSIZE;
    hide At, Linked;
    forall j: nat | j < k
      ensures Taken(Put(s, y), h, j, n)
    {
      assert Taken(s, h, j, n);
    }
  }

  /** A table stays one when a name that was looked up is entered. */
  lemma PutTable(segs: seq<Segment>, cur: nat, y: Sym)
    requires Table(segs, cur) && |segs[cur].syms| < NSYM && !Entered(segs, y.name) && PassesTo(segs, cur, y.name)
    requires Vacant(segs[cur], Hash(y.name), y.hash)
    ensures Table(segs[cur := Put(segs[cur], y)], cur)
  {
    assert |segs[cur].hash| == HSIZE;
    hide Hash, Search, Placed, Linked;
    var s, t := segs[cur], segs[cur := Put(segs[cur], y)];
    assert !Has(s, y.name);
    PutPlaced(s, y);
    assert Placed(t[cur]);
    forall g | 0 <= g < NSEG
      ensures Linked(t[g]) && Placed(t[g]) && DistinctNames(t[g])
    {
      PlacedLinked(t[g]);
    }
    forall f, g, i | 0 <= f < g < NSEG && 0 <= i < |t[g].syms|
      ensures Passes(t[f], t[g].syms[i].name)
    {
      hide Passes;
      assert g <= cur && t[f] == segs[f];
      if i < |segs[g].syms| {
        assert t[g].syms[i] == segs[g].syms[i];
        assert Passes(segs[f], segs[g].syms[i].name);
      } else {
        assert g == cur && t[g].syms[i] == y;
      }
    }
  }

  lemma PlacedLinked(s: Segment)
    requires Placed(s)
    ensures Linked(s)
  {
  }

  /** The segment with only its first n symbols. */
  ghost function Trunc(s: Segment, n: nat): Segment
    requires n <= |s.syms|
  {
    Segment(s.syms[..n], seq(|s.hash|, b requires 0 <= b < |s.hash| => if s.hash[b] >= n then -1 else s.hash[b]))
  }

  lemma TruncAll(s: Segment)
    requires Linked(s)
    ensures Trunc(s, |s.syms|) == s
  {
  }

  lemma TruncStep(s: Segment, n: nat)
    requires Linked(s) && n < |s.syms|
    ensures var t := Trunc(s, n + 1);
            && |t.syms| == n + 1 && t.syms[n].hash < |t.hash|
            && Segment(t.syms[..n], t.hash[t.syms[n].hash := -1]) == Trunc(s, n)
  {
  }

  lemma TruncPut(s: Segment, y: Sym, n: nat)
    requires Linked(s) && y.hash < HSIZE && s.hash[y.hash] == -1 && n <= |s.syms|
    ensures Trunc(Put(s, y), n) == Trunc(s, n)
  {
  }

  lemma TruncPlaced(s: Segment, n: nat)
    requires Placed(s) && DistinctNames(s) && n <= |s.syms|
    ensures Placed(Trunc(s, n)) && DistinctNames(Trunc(s, n))
  {
    hide Hash, At;
    var t := Trunc(s, n);
    assert Linked(t) by {
      hide Reached;
    }
    forall i | 0 <= i < n
      ensures Reached(t, i)
    {
      assert Reached(s, i);
      var k: nat :| PlacedAt(s, i, k);
      forall j: nat | j < k
        ensures Taken(t, Hash(t.syms[i].name), j, i)
      {
        assert Taken(s, Hash(s.syms[i].name), j, i);
      }
      assert PlacedAt(t, i, k);
    }
  }

  /** A place in the symbol table: segment and index; no place before the first
      symbol is entered. */
  datatype Ref = Nil | Sp(seg: nat, idx: nat)

  ghost predicate Inside(segs: seq<Segment>, r: Ref) {
    r.Sp? && r.seg < |segs| && r.idx <= |segs[r.seg].syms|
  }

  /** The table as it was when r was the next place. */
  ghost function Cut(segs: seq<Segment>, r: Ref): seq<Segment>
    requires Inside(segs, r)
  {
    seq(|segs|, f requires 0 <= f < |segs| =>
      if f < r.seg then segs[f] else if f == r.seg then Trunc(segs[f], r.idx) else Trunc(segs[f], 0))
  }

  /** r is the place after the last symbol. */
  ghost predicate Next(segs: seq<Segment>, cur: nat, r: Ref) {
    match r
    case Nil => forall g :: 0 <= g < |segs| ==> segs[g].syms == []
    case Sp(g, n) => g <= cur && g < |segs| && n == |segs[g].syms| && forall f :: g < f < |segs| ==> segs[f].syms == []
  }

  lemma CutNow(segs: seq<Segment>, cur: nat, r: Ref)
    requires Linkage(segs) && Next(segs, cur, r) && r.Sp?
    ensures Inside(segs, r) && Cut(segs, r) == segs
  {
    hide Linked, Trunc;
    forall f | 0 <= f < |segs|
      ensures Cut(segs, r)[f] == segs[f]
    {
      TruncAll(segs[f]);
    }
  }

  /** Entering a symbol does not change what an earlier place remembers. */
  lemma CutPut(segs: seq<Segment>, cur: nat, y: Sym, r: Ref)
    requires Linkage(segs) && cur < NSEG && y.hash < |segs[cur].hash| && segs[cur].hash[y.hash] == -1
    requires Inside(segs, r) && r.seg <= cur
    ensures var t := segs[cur := Put(segs[cur], y)]; Inside(t, r) && Cut(t, r) == Cut(segs, r)
  {
    hide Trunc;
    assert y.hash < HSIZE;
    TruncPut(segs[cur], y, 0);
    if r.seg == cur {
      TruncPut(segs[cur], y, r.idx);
    }
    var t := segs[cur := Put(segs[cur], y)];
    assert Inside(t, r);
    assert Cut(t, r) == Cut(segs, r);
  }

  lemma CutTable(segs: seq<Segment>, cur: nat, r: Ref)
    requires Table(segs, cur) && Inside(segs, r) && r.seg <= cur
    ensures Table(Cut(segs, r), r.seg) && Next(Cut(segs, r), r.seg, r)
  {
    hide Placed, DistinctNames, Passes, Linked;
    var t := Cut(segs, r);
    forall g | 0 <= g < NSEG
      ensures Linked(t[g]) && Placed(t[g]) && DistinctNames(t[g])
    {
      if g >= r.seg {
        TruncPlaced(segs[g], if g == r.seg then r.idx else 0);
      }
      PlacedLinked(t[g]);
    }
    forall f, g, i | 0 <= f < g < NSEG && 0 <= i < |t[g].syms|
      ensures Passes(t[f], t[g].syms[i].name)
    {
      assert g <= r.seg && t[f] == segs[f] && t[g].syms[i] == segs[g].syms[i];
    }
  }

  /** The hash of a name as lookup computes it, in 32-bit arithmetic. */
  method HashName(name: string) returns (h: nat)
    ensures h == Hash(name)
  {
    hide Hash, Fold;
    var sh: nat, i := 0, 0;
    ghost var t, q := 0, 0;
    assert name[0..] == name;
    while i < |name|
      invariant 0 <= i <= |name| && Fold(name[i..], t) == Fold(name, 0)
      invariant sh < 0x1_0000_0000 && t == sh + 0x1_0000_0000 * q
    {
      FoldNext(name, i, t);
      var c := 2 * sh + name[i] as int;
      q := 2 * q + c / 0x1_0000_0000;
      t := 2 * t + name[i] as int;
      sh := c % 0x1_0000_0000;
      i := i + 1;
    }
    assert name[i..] == "";
    FoldNone(t);
    LowBits(sh, t, q);
    h := sh % 0x8000_0000 % HSIZE;
    HashIs(name, t);
  }

  lemma FoldNext(s: string, i: nat, t: int)
    requires i < |s|
    ensures Fold(s[i..], t) == Fold(s[i + 1..], 2 * t + s[i] as int)
  {
    assert s[i..][1..] == s[i + 1..];
  }

  lemma FoldNone(t: int)
    ensures Fold("", t) == t
  {
  }

  lemma HashIs(name: string, t: int)
    requires t == Fold(name, 0)
    ensures Hash(name) == t % 0x8000_0000 % HSIZE
  {
  }

  lemma LowBits(sh: int, t: int, q: int)
    requires t == sh + 0x1_0000_0000 * q
    ensures sh % 0x8000_0000 == t % 0x8000_0000
  {
  }

  /** One rehash: add the next odd number, minus the table size if past the end. */
  lemma NextProbe(h: nat, k: nat)
    requires h < HSIZE && k < NSYM
    ensures At(h, k + 1) == (var b := At(h, k) + 2 * k + 1; if b >= HSIZE then b - HSIZE else b)
  {
    assert (k + 1) * (k + 1) == k * k + 2 * k + 1;
    NextMod(h + k * k, 2 * k + 1);
  }

  lemma AtFirst(h: nat)
    requires h < HSIZE
    ensures At(h, 0) == h
  {
  }

  lemma NextMod(x: nat, d: nat)
    requires d < HSIZE
    ensures (x + d) % HSIZE == (var b := x % HSIZE + d; if b >= HSIZE then b - HSIZE else b)
  {
  }

  lemma TableLinkage(segs: seq<Segment>, cur: nat)
    requires Table(segs, cur)
    ensures Linkage(segs) && cur < NSEG
  {
  }

  lemma TableLinked(segs: seq<Segment>, cur: nat, g: nat)
    requires Table(segs, cur) && g < NSEG
    ensures Linked(segs[g])
  {
  }

  /** A full segment makes the next one current. */
  lemma Advance(segs: seq<Segment>, cur: nat, r: Ref, name: string)
    requires Table(segs, cur) && cur + 1 < NSEG && Passes(segs[cur], name)
    ensures Table(segs, cur + 1) && (Next(segs, cur, r) ==> Next(segs, cur + 1, r))
  {
    hide Placed, DistinctNames, Hash, Search, Has;
  }

  lemma SitedHere(segs: seq<Segment>, cur: nat, name: string, g: nat, b: nat)
    requires Linkage(segs) && g <= cur < NSEG && Sited(segs, cur, name, Bucket(g, b))
    ensures !Entered(segs, name) ==> g == cur
  {
  }

  ghost predicate SomeFull(segs: seq<Segment>) {
    exists g :: 0 <= g < |segs| && |segs[g].syms| == NSYM
  }

  lemma SitedError(segs: seq<Segment>, cur: nat, name: string, p: Place)
    requires Linkage(segs) && cur < NSEG && Sited(segs, cur, name, p) && !p.Bucket?
    ensures SomeFull(segs)
  {
    assert p == Overflow ==> |segs[0].syms| == NSYM;
  }

  /** A search that ends at a full segment passes it. */
  lemma FullPasses(segs: seq<Segment>, cur: nat, name: string, g: nat)
    requires Table(segs, cur) && g < NSEG && Search(segs[g], name, 0) == Full
    ensures Passes(segs[g], name)
  {
    hide Hash, Search;
    if Has(segs[g], name) {
      var i :| 0 <= i < |segs[g].syms| && segs[g].syms[i].name == name;
      Sits(segs[g], i);
    }
    SearchMisses(segs[g], name, 0);
  }

  /** The reference is to the symbol of that name. */
  ghost predicate Refers(segs: seq<Segment>, r: Ref, name: string) {
    r.Sp? && r.seg < |segs| && r.idx < |segs[r.seg].syms| && segs[r.seg].syms[r.idx].name == name
  }

  lemma RefersInside(segs: seq<Segment>, r: Ref, name: string)
    requires Refers(segs, r, name)
    ensures Inside(segs, r)
  {
  }

  /** What a symbol is entered after can still be cut back to. */
  /** Places up to the current segment remember the same table. */
  ghost predicate CutsStay(segs: seq<Segment>, cur: nat, t: seq<Segment>) {
    forall p: Ref :: Inside(segs, p) && p.seg <= cur ==> Inside(t, p) && Cut(t, p) == Cut(segs, p)
  }

  lemma CutsSame(segs: seq<Segment>, cur: nat)
    ensures CutsStay(segs, cur, segs)
  {
  }

  lemma CutsPut(segs: seq<Segment>, cur: nat, y: Sym)
    requires Linkage(segs) && cur < NSEG && y.hash < |segs[cur].hash| && segs[cur].hash[y.hash] == -1
    ensures CutsStay(segs, cur, segs[cur := Put(segs[cur], y)])
  {
    assert cur < |segs|;
    hide Cut, Put;
    forall p: Ref | Inside(segs, p) && p.seg <= cur
      ensures var t := segs[cur := Put(segs[cur], y)]; Inside(t, p) && Cut(t, p) == Cut(segs, p)
    {
      CutPut(segs, cur, y, p);
    }
  }

  lemma SitedBucket(segs: seq<Segment>, cur: nat, name: string, g: nat, b: nat)
    requires Linkage(segs) && cur < NSEG && Sited(segs, cur, name, Bucket(g, b))
    ensures g < NSEG && b < HSIZE == |segs[g].hash|
    ensures segs[g].hash[b] == -1 <==> !Entered(segs, name)
    ensures segs[g].hash[b] != -1 ==> 0 <= segs[g].hash[b] && Refers(segs, Sp(g, segs[g].hash[b]), name)
    ensures segs[g].hash[b] == -1 ==> |segs[g].syms| < NSYM && Vacant(segs[g], Hash(name), b)
  {
  }

  lemma PutNext(segs: seq<Segment>, cur: nat, y: Sym)
    requires Table(segs, cur) && y.hash < |segs[cur].hash|
    ensures var t := segs[cur := Put(segs[cur], y)]; Next(t, cur, Sp(cur, |t[cur].syms|))
  {
    hide Placed, DistinctNames, Passes, Linked;
  }

  lemma PutIs(s: Segment, y: Sym)
    requires y.hash < |s.hash|
    ensures Put(s, y) == Segment(s.syms + [y], s.hash[y.hash := |s.syms|])
  {
  }

  lemma EnteredPut(segs: seq<Segment>, cur: nat, y: Sym)
    requires cur < |segs| && y.hash < |segs[cur].hash|
    ensures forall m :: Entered(segs[cur := Put(segs[cur], y)], m) <==> m == y.name || Entered(segs, m)
    ensures Refers(segs[cur := Put(segs[cur], y)], Sp(cur, |segs[cur].syms|), y.name)
  {
    var t := segs[cur := Put(segs[cur], y)];
    assert t[cur].syms[|segs[cur].syms|] == y;
    assert Has(t[cur], y.name);
    forall m, g | 0 <= g < |segs|
      ensures Has(t[g], m) <==> Has(segs[g], m) || (g == cur && m == y.name)
    {
      if Has(segs[g], m) {
        var i :| 0 <= i < |segs[g].syms| && segs[g].syms[i].name == m;
        assert t[g].syms[i].name == m;
      }
    }
    forall m
      ensures Entered(t, m) <==> m == y.name || Entered(segs, m)
    {
      hide Has, Put;
      if Entered(segs, m) {
        var g :| 0 <= g < |segs| && Has(segs[g], m);
        assert Has(t[g], m);
      }
    }
  }

  /** There are no symbols. */
  ghost predicate Empty(segs: seq<Segment>) {
    forall g :: 0 <= g < |segs| ==> segs[g].syms == []
  }

  lemma EmptyRepresents(segs: seq<Segment>)
    requires Empty(segs)
    ensures Represents(segs, map[])
  {
  }

  /** Empty tables are all the same, whatever they held before. */
  lemma EmptySame(segs: seq<Segment>, cur: nat, segs': seq<Segment>, cur': nat)
    requires Table(segs, cur) && Table(segs', cur') && Empty(segs) && Empty(segs')
    ensures Restored(segs, segs')
  {
    hide Placed, DistinctNames, Passes;
    TableLinkage(segs, cur);
    TableLinkage(segs', cur');
    forall g | 0 <= g < |segs|
      ensures segs[g] == segs'[g]
    {
      assert segs[g].hash == segs'[g].hash;
    }
  }

  /** Nothing is left below the first place. */
  lemma CutAll(segs: seq<Segment>, cur: nat, t: seq<Segment>)
    requires Table(segs, cur) && |t| == NSEG && forall f :: 0 <= f < NSEG ==> t[f] == Trunc(segs[f], 0)
    ensures Table(t, 0) && Empty(t)
  {
    hide Table;
    TableLinkage(segs, cur);
    CutTable(segs, cur, Sp(0, 0));
    assert t == Cut(segs, Sp(0, 0));
  }

  lemma EmptyAfter(segs: seq<Segment>, cur: nat)
    requires Table(segs, cur)
    ensures forall f :: cur < f < NSEG ==> segs[f] == Trunc(segs[f], 0)
  {
    hide Placed, DistinctNames, Linked, Passes, Trunc;
    forall f | cur < f < NSEG
      ensures segs[f] == Trunc(segs[f], 0)
    {
      TruncAll(segs[f]);
    }
  }

  /** The segments with the type and value of one symbol changed. */
  ghost function Changed(segs: seq<Segment>, r: Ref, typ: int, value: int): seq<Segment>
    requires r.Sp? && r.seg < |segs| && r.idx < |segs[r.seg].syms|
  {
    var s := segs[r.seg];
    segs[r.seg := Segment(s.syms[r.idx := s.syms[r.idx].(typ := typ, value := value)], s.hash)]
  }

  /** Same names in the same buckets. */
  ghost predicate Alike(s: Segment, t: Segment) {
    && s.hash == t.hash && |s.syms| == |t.syms|
    && forall i :: 0 <= i < |s.syms| ==> s.syms[i].name == t.syms[i].name && s.syms[i].hash == t.syms[i].hash
  }

  ghost predicate AllAlike(segs: seq<Segment>, segs': seq<Segment>) {
    |segs| == |segs'| && forall g :: 0 <= g < |segs| ==> Alike(segs[g], segs'[g])
  }

  /** Nothing but the size of an undefined common symbol may have grown. */
  ghost predicate Kept(a: Sym, b: Sym) {
    b == a || (a.typ == UNDF && b.value > a.value && b == a.(value := b.value))
  }

  ghost predicate KeptAll(s: Segment, t: Segment) {
    && s.hash == t.hash && |s.syms| == |t.syms|
    && forall i :: 0 <= i < |s.syms| ==> Kept(s.syms[i], t.syms[i])
  }

  ghost predicate Restored(segs: seq<Segment>, segs': seq<Segment>) {
    |segs| == |segs'| && forall g :: 0 <= g < |segs| ==> KeptAll(segs[g], segs'[g])
  }

  lemma RestoredSame(segs: seq<Segment>)
    ensures Restored(segs, segs)
  {
  }

  lemma RestoredAlike(segs: seq<Segment>, segs': seq<Segment>)
    requires Restored(segs, segs')
    ensures AllAlike(segs, segs')
  {
    forall g | 0 <= g < |segs|
      ensures Alike(segs[g], segs'[g])
    {
      assert KeptAll(segs[g], segs'[g]);
    }
  }

  lemma NextFits(segs: seq<Segment>, cur: nat, r: Ref)
    requires Next(segs, cur, r) && r.Sp?
    ensures Inside(segs, r) && r.seg <= cur
  {
  }

  lemma ChangedAlike(segs: seq<Segment>, r: Ref, typ: int, value: int)
    requires r.Sp? && r.seg < |segs| && r.idx < |segs[r.seg].syms|
    ensures AllAlike(segs, Changed(segs, r, typ, value))
  {
  }

  lemma ChangedEntered(segs: seq<Segment>, r: Ref, typ: int, value: int)
    requires r.Sp? && r.seg < |segs| && r.idx < |segs[r.seg].syms|
    ensures forall m :: Entered(segs, m) ==> Entered(Changed(segs, r, typ, value), m)
    ensures forall p: Ref :: Inside(segs, p) ==> Inside(Changed(segs, r, typ, value), p)
  {
    var t := Changed(segs, r, typ, value);
    forall m | Entered(segs, m)
      ensures Entered(t, m)
    {
      var g :| 0 <= g < |segs| && Has(segs[g], m);
      var i :| 0 <= i < |segs[g].syms| && segs[g].syms[i].name == m;
      assert t[g].syms[i].name == m;
      assert Has(t[g], m);
    }
  }

  /** Changing only the size of an undefined symbol can be lived with. */
  lemma GrowOnly(was: seq<Segment>, segs: seq<Segment>, p: Ref, r: Ref, value: int)
    requires Inside(segs, p) && Inside(segs, r) && r.idx < |segs[r.seg].syms|
    requires segs[r.seg].syms[r.idx].typ == UNDF && value > segs[r.seg].syms[r.idx].value
    ensures var t := Changed(segs, r, UNDF, value);
            Inside(t, p) && (Restored(was, Cut(segs, p)) ==> Restored(was, Cut(t, p)))
  {
    var t := Changed(segs, r, UNDF, value);
    var a, b := Cut(segs, p), Cut(t, p);
    if Restored(was, a) {
      forall g | 0 <= g < |was|
        ensures KeptAll(was[g], b[g])
      {
        assert KeptAll(was[g], a[g]);
        forall i | 0 <= i < |was[g].syms|
          ensures Kept(was[g].syms[i], b[g].syms[i])
        {
          assert Kept(was[g].syms[i], a[g].syms[i]);
        }
      }
    }
  }

  /** The same for all places at once. */
  lemma Grows(segs: seq<Segment>, now: seq<Segment>, r: Ref, value: int)
    requires Inside(now, r) && r.idx < |now[r.seg].syms|
    requires now[r.seg].syms[r.idx].typ == UNDF && value > now[r.seg].syms[r.idx].value
    ensures var t := Changed(now, r, UNDF, value);
      forall p: Ref :: Inside(now, p) && Inside(segs, p) ==>
        Inside(t, p) && (Restored(Cut(segs, p), Cut(now, p)) ==> Restored(Cut(segs, p), Cut(t, p)))
  {
    hide Changed, Cut, Restored;
    forall p: Ref | Inside(now, p) && Inside(segs, p)
      ensures var t := Changed(now, r, UNDF, value);
        Inside(t, p) && (Restored(Cut(segs, p), Cut(now, p)) ==> Restored(Cut(segs, p), Cut(t, p)))
    {
      GrowOnly(Cut(segs, p), now, p, r, value);
    }
  }

  lemma {:induction false} AlikeSearch(s: Segment, t: Segment, name: string, k: nat)
    requires Linked(s) && Linked(t) && Alike(s, t)
    ensures Search(s, name, k) == Search(t, name, k)
    decreases NSYM - k
  {
    hide Hash, At;
    if k < NSYM {
      AlikeSearch(s, t, name, k + 1);
    }
  }

  lemma {:induction false} AlikeLocate(segs: seq<Segment>, segs': seq<Segment>, name: string, g: nat)
    requires Linkage(segs) && Linkage(segs') && AllAlike(segs, segs')
    ensures Locate(segs, name, g) == Locate(segs', name, g)
    decreases NSEG - g
  {
    hide Search, Linked, Alike;
    if g < NSEG {
      AlikeSearch(segs[g], segs'[g], name, 0);
      AlikeLocate(segs, segs', name, g + 1);
    }
  }

  lemma AlikePlaced(s: Segment, t: Segment)
    requires Placed(s) && DistinctNames(s) && Alike(s, t)
    ensures Placed(t) && DistinctNames(t)
  {
    hide Hash, At;
    assert Linked(t) by {
      hide Reached;
    }
    forall i | 0 <= i < |t.syms|
      ensures Reached(t, i)
    {
      assert Reached(s, i);
      var k: nat :| PlacedAt(s, i, k);
      forall j: nat | j < k
        ensures Taken(t, Hash(t.syms[i].name), j, i)
      {
        assert Taken(s, Hash(s.syms[i].name), j, i);
      }
      assert PlacedAt(t, i, k);
    }
  }

  lemma AlikePasses(s: Segment, t: Segment, name: string)
    requires Passes(s, name) && Linked(t) && Alike(s, t)
    ensures Passes(t, name)
  {
    hide Hash, Search, Linked;
    AlikeSearch(s, t, name, 0);
  }

  lemma AlikeTable(segs: seq<Segment>, segs': seq<Segment>, cur: nat)
    requires Table(segs, cur) && AllAlike(segs, segs')
    ensures Table(segs', cur)
  {
    hide Linked, Placed, DistinctNames, Passes;
    forall g | 0 <= g < NSEG
      ensures Linked(segs'[g]) && Placed(segs'[g]) && DistinctNames(segs'[g]) && |segs'[g].syms| == |segs[g].syms|
    {
      AlikePlaced(segs[g], segs'[g]);
      PlacedLinked(segs'[g]);
    }
    forall f, g, i | 0 <= f < g < NSEG && 0 <= i < |segs'[g].syms|
      ensures Passes(segs'[f], segs'[g].syms[i].name)
    {
      assert Passes(segs[f], segs[g].syms[i].name);
      assert Alike(segs[g], segs'[g]);
      AlikePasses(segs[f], segs'[f], segs'[g].syms[i].name);
    }
  }

  lemma AlikeNext(segs: seq<Segment>, segs': seq<Segment>, cur: nat, r: Ref)
    requires Next(segs, cur, r) && AllAlike(segs, segs')
    ensures Next(segs', cur, r)
  {
  }

  /** The segments hold exactly the entries of the map, each once. */
  ghost predicate Represents(segs: seq<Segment>, m: map<string, Entry>) {
    && (forall name :: name in m <==> Entered(segs, name))
    && forall g, i :: 0 <= g < |segs| && 0 <= i < |segs[g].syms| ==> Shows(m, segs[g].syms[i])
  }

  ghost predicate Shows(m: map<string, Entry>, y: Sym) {
    y.name in m && m[y.name] == Entry(y.typ, y.value)
  }

  lemma RepresentsPut(segs: seq<Segment>, cur: nat, y: Sym, m: map<string, Entry>)
    requires cur < |segs| && y.hash < |segs[cur].hash| && Represents(segs, m) && !Entered(segs, y.name)
    ensures Represents(segs[cur := Put(segs[cur], y)], m[y.name := Entry(y.typ, y.value)])
  {
    EnteredPut(segs, cur, y);
    var t, n := segs[cur := Put(segs[cur], y)], m[y.name := Entry(y.typ, y.value)];
    forall g, i | 0 <= g < |t| && 0 <= i < |t[g].syms|
      ensures Shows(n, t[g].syms[i])
    {
      if i < |segs[g].syms| {
        assert Shows(m, segs[g].syms[i]);
        assert Has(segs[g], segs[g].syms[i].name);
      }
    }
  }

  lemma RepresentsChanged(segs: seq<Segment>, cur: nat, r: Ref, typ: int, value: int, m: map<string, Entry>)
    requires Table(segs, cur) && r.Sp? && r.seg < |segs| && r.idx < |segs[r.seg].syms| && Represents(segs, m)
    ensures Represents(Changed(segs, r, typ, value), m[segs[r.seg].syms[r.idx].name := Entry(typ, value)])
  {
    hide Placed, Linked, Search;
    var name := segs[r.seg].syms[r.idx].name;
    var t, n := Changed(segs, r, typ, value), m[name := Entry(typ, value)];
    ChangedSame(segs, r, typ, value);
    assert Has(segs[r.seg], name);
    forall g, i | 0 <= g < |t| && 0 <= i < |t[g].syms|
      ensures Shows(n, t[g].syms[i])
    {
      if g != r.seg || i != r.idx {
        assert t[g].syms[i] == segs[g].syms[i];
        assert Shows(m, segs[g].syms[i]);
        Elsewhere(segs, cur, r, g, i);
      }
    }
  }

  lemma ChangedSame(segs: seq<Segment>, r: Ref, typ: int, value: int)
    requires r.Sp? && r.seg < |segs| && r.idx < |segs[r.seg].syms|
    ensures forall m :: Entered(segs, m) <==> Entered(Changed(segs, r, typ, value), m)
  {
    var y := segs[r.seg].syms[r.idx];
    ChangedEntered(segs, r, typ, value);
    ChangedEntered(Changed(segs, r, typ, value), r, y.typ, y.value);
    var s, t := segs[r.seg], Changed(Changed(segs, r, typ, value), r, y.typ, y.value);
    assert y.(typ := typ, value := value).(typ := y.typ, value := y.value) == y;
    assert t[r.seg].syms == s.syms;
    assert t == segs;
  }

  /** No two symbols have the same name. */
  lemma Elsewhere(segs: seq<Segment>, cur: nat, r: Ref, g: nat, i: nat)
    requires Table(segs, cur) && r.Sp? && r.seg < |segs| && r.idx < |segs[r.seg].syms|
    requires g < |segs| && i < |segs[g].syms| && (g != r.seg || i != r.idx)
    ensures segs[g].syms[i].name != segs[r.seg].syms[r.idx].name
  {
    hide Placed, Linked, Search;
    if g < r.seg {
      assert Passes(segs[g], segs[r.seg].syms[r.idx].name);
    } else if g > r.seg {
      assert Passes(segs[r.seg], segs[g].syms[i].name);
    } else {
      assert DistinctNames(segs[g]);
    }
  }

  lemma Shown(segs: seq<Segment>, m: map<string, Entry>, r: Ref)
    requires Represents(segs, m) && r.Sp? && r.seg < |segs| && r.idx < |segs[r.seg].syms|
    ensures Shows(m, segs[r.seg].syms[r.idx])
  {
  }

  /** The entries of the names still entered. */
  ghost function Left(m: map<string, Entry>, segs: seq<Segment>): map<string, Entry> {
    map name | name in m && Entered(segs, name) :: m[name]
  }

  lemma RepresentsCut(segs: seq<Segment>, p: Ref, m: map<string, Entry>)
    requires Inside(segs, p) && Represents(segs, m)
    ensures Represents(Cut(segs, p), Left(m, Cut(segs, p)))
  {
    var t := Cut(segs, p);
    forall g, i | 0 <= g < |t| && 0 <= i < |t[g].syms|
      ensures Shows(Left(m, t), t[g].syms[i])
    {
      assert t[g].syms[i] == segs[g].syms[i];
      assert Shows(m, segs[g].syms[i]);
      assert Has(t[g], t[g].syms[i].name);
    }
    forall name | Entered(t, name)
      ensures name in m
    {
      var g :| 0 <= g < |t| && Has(t[g], name);
      var i :| 0 <= i < |t[g].syms| && t[g].syms[i].name == name;
      assert Shows(m, segs[g].syms[i]);
    }
  }

  /** The names of the first n symbols. */
  ghost function Names(s: Segment, n: nat): set<string>
    requires n <= |s.syms|
  {
    set i | 0 <= i < n :: s.syms[i].name
  }

  lemma {:induction false} NamesDiffer(s: Segment, n: nat)
    requires DistinctNames(s) && n <= |s.syms|
    ensures |Names(s, n)| == n
  {
    if n > 0 {
      NamesDiffer(s, n - 1);
      NamesNext(s, n - 1);
      hide *;
      assert |Names(s, n - 1) + {s.syms[n - 1].name}| == n;
    }
  }

  lemma NamesNext(s: Segment, n: nat)
    requires DistinctNames(s) && n < |s.syms|
    ensures Names(s, n + 1) == Names(s, n) + {s.syms[n].name} && s.syms[n].name !in Names(s, n)
  {
    var name := s.syms[n].name;
    forall x
      ensures x in Names(s, n + 1) <==> x in Names(s, n) || x == name
    {
      if x in Names(s, n + 1) {
        var i :| 0 <= i < n + 1 && s.syms[i].name == x;
      }
    }
  }

  /** A table with a full segment knows at least as many names. */
  lemma FullKnows(segs: seq<Segment>, cur: nat, m: map<string, Entry>)
    requires Table(segs, cur) && Represents(segs, m) && SomeFull(segs)
    ensures |m| >= NSYM
  {
    hide Placed, Passes, Linked;
    var g :| 0 <= g < |segs| && |segs[g].syms| == NSYM;
    NamesDiffer(segs[g], NSYM);
    forall name | name in Names(segs[g], NSYM)
      ensures name in m.Keys
    {
      assert Has(segs[g], name);
    }
    Fewer(Names(segs[g], NSYM), m.Keys);
  }

  lemma NotLocated(segs: seq<Segment>, cur: nat, name: string, m: map<string, Entry>)
    requires Table(segs, cur) && Represents(segs, m) && Linkage(segs) && !Locate(segs, name, 0).Bucket?
    ensures cur < NSEG && Sited(segs, cur, name, Locate(segs, name, 0)) && |m| >= NSYM
  {
    hide Table, Represents, Locate, Sited, SomeFull;
    TableLinkage(segs, cur);
    Located(segs, cur, name, 0);
    SitedError(segs, cur, name, Locate(segs, name, 0));
    FullKnows(segs, cur, m);
  }

  lemma WellLocated(segs: seq<Segment>, cur: nat, name: string, g: nat, b: nat)
    requires Table(segs, cur) && Linkage(segs) && Locate(segs, name, 0) == Bucket(g, b) && g <= cur
    ensures cur < NSEG && Sited(segs, cur, name, Bucket(g, b)) && (!Entered(segs, name) ==> g == cur)
  {
    hide Table, Locate, Sited, Entered;
    TableLinkage(segs, cur);
    Located(segs, cur, name, 0);
    SitedHere(segs, cur, name, g, b);
  }

  lemma Fewer(s: set<string>, t: set<string>)
    requires s <= t
    ensures |s| <= |t|
  {
    assert |t| == |s| + |t - s|;
  }

  lemma {:induction false} MergeSize(m: map<string, Entry>, cs: seq<Sym>)
    ensures |MergeAll(m, cs)| <= |m| + |cs|
  {
    if cs != [] {
      MergeSize(m, cs[..|cs| - 1]);
      OneMore(MergeAll(m, cs[..|cs| - 1]), cs[|cs| - 1]);
    }
  }

  lemma OneMore(m: map<string, Entry>, c: Sym)
    ensures |Merge(m, c)| <= |m| + 1
  {
    assert Merge(m, c).Keys <= m.Keys + {c.name};
    Fewer(Merge(m, c).Keys, m.Keys + {c.name});
  }

  /** None of the symbols is external. */
  ghost predicate Local(cs: seq<Sym>) {
    forall i :: 0 <= i < |cs| ==> cs[i].typ % 2 == 0
  }

  lemma LocalNone()
    ensures Local([])
  {
  }

  lemma LocalNext(cs: seq<Sym>, i: nat)
    requires i < |cs|
    ensures Local(cs[..i + 1]) <==> Local(cs[..i]) && cs[i].typ % 2 == 0
  {
    assert cs[..i + 1] == cs[..i] + [cs[i]];
    if Local(cs[..i + 1]) {
      forall j | 0 <= j < i
        ensures cs[..i][j].typ % 2 == 0
      {
        assert cs[..i][j] == cs[..i + 1][j];
      }
      assert cs[..i + 1][i] == cs[i];
    }
  }

  // The symbols in the order in which they were entered.

  /** The index of a place in the whole table. */
  function Symx(r: Ref): nat {
    match r
    case Nil => 0
    case Sp(g, n) => g * NSYM + n
  }

  /** A place behind a symbol. */
  predicate Behind(r: Ref) {
    r.Sp? ==> r.seg < NSEG && 1 <= r.idx <= NSYM
  }

  ghost function NamesOf(s: Segment): seq<string> {
    seq(|s.syms|, i requires 0 <= i < |s.syms| => s.syms[i].name)
  }

  /** The names in the first g segments. */
  ghost function Listed(segs: seq<Segment>, g: nat): seq<string>
    requires g <= |segs|
  {
    if g == 0 then [] else Listed(segs, g - 1) + NamesOf(segs[g - 1])
  }

  lemma {:induction false} ListedSize(segs: seq<Segment>, cur: nat, g: nat)
    requires Table(segs, cur) && g <= NSEG
    ensures |Listed(segs, g)| == if g <= cur then g * NSYM else cur * NSYM + |segs[cur].syms|
  {
    hide Linked, Placed, DistinctNames, Passes;
    if g > 0 {
      ListedSize(segs, cur, g - 1);
    }
  }

  lemma {:induction false} ListedPut(segs: seq<Segment>, cur: nat, y: Sym, g: nat)
    requires Table(segs, cur) && g <= NSEG && y.hash < |segs[cur].hash|
    ensures Listed(segs[cur := Put(segs[cur], y)], g) == Listed(segs, g) + if g > cur then [y.name] else []
  {
    hide Linked, Placed, DistinctNames, Passes;
    if g > 0 {
      ListedPut(segs, cur, y, g - 1);
      if g - 1 == cur {
        assert NamesOf(Put(segs[cur], y)) == NamesOf(segs[cur]) + [y.name];
      } else if g - 1 > cur {
        assert NamesOf(segs[g - 1]) == [];
      }
    }
  }

  lemma {:induction false} ListedAlike(segs: seq<Segment>, segs': seq<Segment>, g: nat)
    requires AllAlike(segs, segs') && g <= |segs|
    ensures Listed(segs', g) == Listed(segs, g)
  {
    if g > 0 {
      ListedAlike(segs, segs', g - 1);
      assert Alike(segs[g - 1], segs'[g - 1]);
      assert NamesOf(segs'[g - 1]) == NamesOf(segs[g - 1]);
    }
  }

  lemma {:induction false} ListedCut(segs: seq<Segment>, cur: nat, r: Ref, g: nat)
    requires Table(segs, cur) && Inside(segs, r) && r.seg <= cur && g <= NSEG
    ensures g > r.seg ==> Symx(r) <= |Listed(segs, g)| && Listed(Cut(segs, r), g) == Listed(segs, g)[..Symx(r)]
    ensures g <= r.seg ==> Listed(Cut(segs, r), g) == Listed(segs, g)
  {
    hide Linked, Placed, DistinctNames, Passes;
    if g > 0 {
      ListedCut(segs, cur, r, g - 1);
      ListedSize(segs, cur, g - 1);
      var t := Cut(segs, r);
      if g - 1 == r.seg {
        assert NamesOf(t[g - 1]) == NamesOf(segs[g - 1])[..r.idx];
      } else if g - 1 > r.seg {
        assert NamesOf(t[g - 1]) == [];
      }
    }
  }

  /** A place is in the table exactly when that many symbols are. */
  lemma Reaches(segs: seq<Segment>, cur: nat, r: Ref)
    requires Table(segs, cur) && r.Sp? && Behind(r)
    ensures Inside(segs, r) && r.seg <= cur <==> Symx(r) <= |Listed(segs, NSEG)|
  {
    hide Placed, DistinctNames, Passes;
    ListedSize(segs, cur, NSEG);
    TableLinked(segs, cur, cur);
    if r.seg < cur {
      assert r.seg * NSYM + NSYM <= cur * NSYM;
    } else if r.seg > cur {
      assert r.seg * NSYM >= cur * NSYM + NSYM;
    }
  }

  lemma FullBelow(segs: seq<Segment>, cur: nat, g: nat)
    requires Table(segs, cur) && g < NSEG
    ensures |segs| == NSEG && (g < cur ==> |segs[g].syms| == NSYM)
  {
  }

  /** The next place is behind the last symbol. */
  lemma NextIsLast(segs: seq<Segment>, cur: nat, r: Ref)
    requires Table(segs, cur) && Next(segs, cur, r)
    ensures Symx(r) == |Listed(segs, NSEG)|
  {
    hide Placed, DistinctNames, Passes, Linked;
    ListedSize(segs, cur, NSEG);
    var g := if r.Sp? then r.seg + 1 else 0;
    if g < NSEG {
      FullBelow(segs, cur, g);
    }
  }

  lemma {:induction false} ListedHas(segs: seq<Segment>, g: nat, name: string)
    requires g <= |segs|
    ensures name in Listed(segs, g) <==> exists f :: 0 <= f < g && Has(segs[f], name)
  {
    if g > 0 {
      ListedHas(segs, g - 1, name);
      var s := segs[g - 1];
      assert name in NamesOf(s) <==> Has(s, name) by {
        if Has(s, name) {
          var i :| 0 <= i < |s.syms| && s.syms[i].name == name;
          assert NamesOf(s)[i] == name;
        }
      }
    }
  }

  predicate Different<T(==)>(s: seq<T>) {
    forall i, j :: 0 <= i < j < |s| ==> s[i] != s[j]
  }

  lemma {:induction false} ListedDiffer(segs: seq<Segment>, cur: nat, g: nat)
    requires Table(segs, cur) && g <= NSEG
    ensures Different(Listed(segs, g))
  {
    hide Linked, Placed, Passes;
    if g > 0 {
      ListedDiffer(segs, cur, g - 1);
      var s, t := Listed(segs, g - 1), NamesOf(segs[g - 1]);
      assert Different(t) by {
        assert DistinctNames(segs[g - 1]);
      }
      forall i, j | 0 <= i < |s| && 0 <= j < |t|
        ensures s[i] != t[j]
      {
        NotBefore(segs, cur, g - 1, j);
        assert s[i] in s;
      }
    }
  }

  lemma NotBefore(segs: seq<Segment>, cur: nat, g: nat, j: nat)
    requires Table(segs, cur) && g < NSEG && j < |segs[g].syms|
    ensures segs[g].syms[j].name !in Listed(segs, g)
  {
    hide Linked, Placed, DistinctNames;
    var name := segs[g].syms[j].name;
    ListedHas(segs, g, name);
    forall f | 0 <= f < g
      ensures !Has(segs[f], name)
    {
      assert Passes(segs[f], segs[g].syms[j].name);
    }
  }

  lemma {:induction false} DifferentSize<T(!new)>(s: seq<T>)
    requires Different(s)
    ensures |set x | x in s| == |s|
  {
    if s != [] {
      var last, front := s[|s| - 1], s[..|s| - 1];
      DifferentSize(front);
      assert s == front + [last];
      assert (set x | x in s) == (set x | x in front) + {last};
    }
  }

  /** The names listed are those known, each once. */
  lemma ListedAll(segs: seq<Segment>, cur: nat, m: map<string, Entry>)
    requires Table(segs, cur) && Represents(segs, m)
    ensures |Listed(segs, NSEG)| == |m| && forall name :: name in m <==> name in Listed(segs, NSEG)
  {
    TableLinkage(segs, cur);
    ListedDiffer(segs, cur, NSEG);
    forall name
      ensures name in m <==> name in Listed(segs, NSEG)
    {
      hide Linkage, Table;
      assert |segs| == NSEG && (name in m <==> Entered(segs, name));
      ListedHas(segs, NSEG, name);
    }
    hide *;
    DifferentSize(Listed(segs, NSEG));
    assert (set x | x in Listed(segs, NSEG)) == m.Keys;
  }

  /** The names that a file adds to those known, in their order. */
  function NewNames(m: map<string, Entry>, cs: seq<Sym>): seq<string> {
    if cs == [] then []
    else NewNames(m, cs[..|cs| - 1]) + AddedBy(MergeAll(m, cs[..|cs| - 1]), cs[|cs| - 1])
  }

  function AddedBy(m: map<string, Entry>, c: Sym): seq<string> {
    if c.typ % 2 == 1 && c.name !in m then [c.name] else []
  }

  lemma NewNamesNone(m: map<string, Entry>)
    ensures NewNames(m, []) == []
  {
  }

  lemma NewNamesNext(m: map<string, Entry>, cs: seq<Sym>, i: nat)
    requires i < |cs|
    ensures NewNames(m, cs[..i + 1]) == NewNames(m, cs[..i]) + AddedBy(MergeAll(m, cs[..i]), cs[i])
  {
    assert cs[..i + 1][..i] == cs[..i];
  }

  function Front(names: seq<string>, n: int): seq<string> {
    if n < 0 then [] else if n <= |names| then names[..n] else names
  }

  /** The symbols do not reach the place. */
  predicate Missed(p: Ref, all: map<string, Entry>) {
    p.Sp? && Symx(p) > |all|
  }

  lemma MissedExactly(segs: seq<Segment>, cur: nat, m: map<string, Entry>, p: Ref)
    requires Table(segs, cur) && Represents(segs, m) && Behind(p)
    ensures Missed(p, m) <==> p.Sp? && !(Inside(segs, p) && p.seg <= cur)
  {
    hide Table, Represents, Listed, Inside, Behind, Symx;
    ListedAll(segs, cur, m);
    if p.Sp? {
      Reaches(segs, cur, p);
    }
  }

  /** Where the next place is, by what is known. */
  lemma NextCounts(segs: seq<Segment>, cur: nat, m: map<string, Entry>, p: Ref)
    requires Table(segs, cur) && Represents(segs, m) && Next(segs, cur, p)
    ensures Symx(p) == |m|
  {
    hide Table, Represents, Listed, Next;
    ListedAll(segs, cur, m);
    NextIsLast(segs, cur, p);
  }

  /** What is known after the symbols were cut back to p. */
  lemma LeftoverIs(segs: seq<Segment>, cur: nat, m: map<string, Entry>, now: seq<Segment>, cur': nat,
                   all: map<string, Entry>, names: seq<string>, p: Ref, d: nat)
    requires Table(segs, cur) && Represents(segs, m) && Table(now, cur') && Represents(now, all)
    requires Listed(now, NSEG) == Listed(segs, NSEG) + names && Inside(now, p) && p.seg <= cur' && Symx(p) == |m| + d
    ensures d <= |names| && Left(all, Cut(now, p)) == Leftover(m, all, Front(names, d))
    ensures |Cut(now, p)| == NSEG && |Listed(Cut(now, p), NSEG)| == Symx(p)
  {
    assert NSEG > 0;
    hide *;
    FullBelow(segs, cur, 0);
    CutListed(now, cur', p);
    ListedCount(segs, cur, m);
    FrontOf(Listed(now, NSEG), Listed(segs, NSEG), names, Symx(p), d);
    LeftIs(segs, cur, m, all, Cut(now, p), Front(names, d));
  }

  lemma ListedCount(segs: seq<Segment>, cur: nat, m: map<string, Entry>)
    requires Table(segs, cur) && Represents(segs, m)
    ensures |segs| == NSEG && |Listed(segs, NSEG)| == |m|
  {
    hide Listed, Represents;
    FullBelow(segs, cur, 0);
    ListedAll(segs, cur, m);
  }

  lemma CutListed(segs: seq<Segment>, cur: nat, p: Ref)
    requires Table(segs, cur) && Inside(segs, p) && p.seg <= cur
    ensures |Cut(segs, p)| == |segs| == NSEG && Symx(p) <= |Listed(segs, NSEG)|
    ensures Listed(Cut(segs, p), NSEG) == Listed(segs, NSEG)[..Symx(p)]
  {
    hide Listed, Linked, Placed, DistinctNames, Passes, Trunc;
    ListedCut(segs, cur, p, NSEG);
  }

  lemma FrontOf(r: seq<string>, s: seq<string>, t: seq<string>, n: nat, d: nat)
    requires r == s + t && n == |s| + d && n <= |r|
    ensures d <= |t| && |r[..n]| == n && r[..n] == s + Front(t, d)
  {
  }

  lemma LeftIs(segs: seq<Segment>, cur: nat, m: map<string, Entry>, all: map<string, Entry>, cut: seq<Segment>,
               more: seq<string>)
    requires Table(segs, cur) && Represents(segs, m)
    requires |cut| == |segs| == NSEG && Listed(cut, NSEG) == Listed(segs, NSEG) + more
    ensures Left(all, cut) == Leftover(m, all, more)
  {
    hide Listed, Table, Represents;
    ListedAll(segs, cur, m);
    forall name
      ensures Entered(cut, name) <==> name in m || name in more
    {
      ListedHas(cut, NSEG, name);
    }
    hide Entered;
  }

  /** Cutting back restored the table exactly when the place was current. */
  lemma RestoredExactly(segs: seq<Segment>, cur: nat, m: map<string, Entry>, cut: seq<Segment>, n: nat)
    requires Table(segs, cur) && Represents(segs, m) && |cut| == NSEG && |Listed(cut, NSEG)| == n
    ensures Restored(segs, cut) ==> n == |m|
  {
    ListedAll(segs, cur, m);
    TableLinkage(segs, cur);
    hide *;
    if Restored(segs, cut) {
      RestoredAlike(segs, cut);
      ListedAlike(segs, cut, NSEG);
    }
  }

  lemma NothingEntered(segs: seq<Segment>, m: map<string, Entry>)
    requires Represents(segs, m) && m == map[]
    ensures Empty(segs)
  {
    assert forall g :: 0 <= g < |segs| && |segs[g].syms| > 0 ==> Shows(m, segs[g].syms[0]);
  }

  lemma RestoredTrans(a: seq<Segment>, b: seq<Segment>, c: seq<Segment>)
    requires Restored(a, b) && Restored(b, c)
    ensures Restored(a, c)
  {
    forall g | 0 <= g < |a|
      ensures KeptAll(a[g], c[g])
    {
      assert KeptAll(a[g], b[g]) && KeptAll(b[g], c[g]);
      forall i | 0 <= i < |a[g].syms|
        ensures Kept(a[g].syms[i], c[g].syms[i])
      {
        assert Kept(a[g].syms[i], b[g].syms[i]) && Kept(b[g].syms[i], c[g].syms[i]);
      }
    }
  }

  /** A table restored answers every lookup as before. */
  lemma SameAnswers(segs: seq<Segment>, cur: nat, segs': seq<Segment>, cur': nat)
    requires Table(segs, cur) && Table(segs', cur') && Restored(segs, segs')
    ensures Linkage(segs) && Linkage(segs') && forall name :: Locate(segs', name, 0) == Locate(segs, name, 0)
  {
    TableLinkage(segs, cur);
    TableLinkage(segs', cur');
    RestoredAlike(segs, segs');
    hide *;
    forall name
      ensures Locate(segs', name, 0) == Locate(segs, name, 0)
    {
      AlikeLocate(segs, segs', name, 0);
    }
  }

  // All files of a link.

  /** A file with one symbol, and a library member with one that it refers to. */
  lemma TwoFiles(a: Sym, b: Sym)
    requires a.typ == UNDF && b.typ == TEXT && a.value == 0 && a.name == b.name
    ensures Plain([Member(false, [a]), Member(true, [b])]) && AllSymbols([Member(false, [a]), Member(true, [b])]) == 2
    ensures LinkAll([Member(false, [a]), Member(true, [b])]) == map[b.name := Entry(TEXT, b.value)]
  {
    var f, g, m := Member(false, [a]), Member(true, [b]), map[a.name := Entry(UNDF, 0)];
    OneSymbol(a);
    OneSymbol(b);
    MergeNone(m);
    MergeNext(m, [b], 0);
    LinkNone();
    assert [b][..0] == [] && [b][..1] == [b];
    assert [f, g][..1] == [f] && [f][..0] == [];
    assert LinkAll([f]) == m;
    assert AllSymbols([]) == 0 && AllSymbols([f]) == 1;
  }

  function AllSymbols(files: seq<Member>): nat {
    if files == [] then 0 else AllSymbols(files[..|files| - 1]) + |files[|files| - 1].syms|
  }

  /** No library member is turned down while nothing is known and an earlier one has
      left a place behind. */
  ghost predicate Plain(files: seq<Member>) {
    forall i :: 0 <= i < |files| && files[i].lib && Definitions(map[], files[i].syms) == 0 &&
                LinkAll(files[..i]) == map[] ==>
      forall j :: 0 <= j < i ==> Local(files[j].syms)
  }

  lemma LinkNext(files: seq<Member>, i: nat)
    requires i < |files|
    ensures LinkAll(files[..i + 1]) == Step(LinkAll(files[..i]), files[i])
    ensures AllSymbols(files[..i + 1]) == AllSymbols(files[..i]) + |files[i].syms|
  {
    assert files[..i + 1][..i] == files[..i];
  }

  lemma {:induction false} SymbolsMore(files: seq<Member>, i: nat)
    requires i <= |files|
    ensures AllSymbols(files[..i]) <= AllSymbols(files)
    decreases |files| - i
  {
    if i < |files| {
      LinkNext(files, i);
      SymbolsMore(files, i + 1);
    } else {
      assert files[..i] == files;
    }
  }

  lemma {:induction false} LinkSize(files: seq<Member>)
    ensures |LinkAll(files)| <= AllSymbols(files)
  {
    if files != [] {
      var before, f := files[..|files| - 1], files[|files| - 1];
      LinkSize(before);
      MergeSize(LinkAll(before), f.syms);
      hide LinkAll, MergeAll;
      var all := MergeAll(LinkAll(before), f.syms);
      Fewer(Leftover(LinkAll(before), all, []).Keys, all.Keys);
      assert LinkAll(files) == Step(LinkAll(before), f) by {
        LinkLast(files);
      }
    }
  }

  lemma LinkLast(files: seq<Member>)
    requires files != []
    ensures LinkAll(files) == Step(LinkAll(files[..|files| - 1]), files[|files| - 1])
  {
  }

  lemma LinkNone()
    ensures LinkAll([]) == map[] && AllSymbols([]) == 0
  {
  }

  /** In a plain link no place is stale. */
  lemma NotMissed(files: seq<Member>, i: nat, m: map<string, Entry>, p: Ref)
    requires Plain(files) && i < |files| && m == LinkAll(files[..i]) && (m != map[] ==> Symx(p) == |m|)
    requires (forall j :: 0 <= j < i ==> Local(files[j].syms)) ==> p == Nil
    ensures files[i].lib && Definitions(m, files[i].syms) == 0 ==>
      !Missed(p, MergeAll(m, files[i].syms)) && Symx(p) == |m|
  {
    hide LinkAll, MergeAll, Definitions, Local;
    MergeGrows(m, files[i].syms);
  }

  lemma {:induction false} MergeGrows(m: map<string, Entry>, cs: seq<Sym>)
    ensures |m| <= |MergeAll(m, cs)| && m.Keys <= MergeAll(m, cs).Keys
  {
    if cs != [] {
      MergeGrows(m, cs[..|cs| - 1]);
    }
    Fewer(m.Keys, MergeAll(m, cs).Keys);
  }

  lemma StepIs(m: map<string, Entry>, f: Member, n: map<string, Entry>)
    ensures n == Step(m, f) <==>
      n == if f.lib && Definitions(m, f.syms) == 0 then Leftover(m, MergeAll(m, f.syms), []) else MergeAll(m, f.syms)
  {
  }

  lemma NothingLeft(all: map<string, Entry>, names: seq<string>)
    ensures Leftover(map[], all, []) == map[] && Front(names, 0) == []
  {
  }

  lemma OneSymbol(c: Sym)
    ensures MergeAll(map[], [c]) == if c.typ % 2 == 0 then map[] else map[c.name := Entry(c.typ, c.value)]
    ensures NewNames(map[], [c]) == if c.typ % 2 == 0 then [] else [c.name]
    ensures Definitions(map[], [c]) == 0
  {
    assert [c][..0] == [];
  }

  /** The table t with a new symbol. */
  lemma Entering(segs: seq<Segment>, cur: nat, y: Sym, m: map<string, Entry>, t: seq<Segment>, n: nat)
    requires Table(segs, cur) && Represents(segs, m) && |segs[cur].syms| < NSYM && !Entered(segs, y.name)
    requires PassesTo(segs, cur, y.name) && Vacant(segs[cur], Hash(y.name), y.hash)
    requires t == segs[cur := Put(segs[cur], y)] && |segs[cur].syms| == n
    ensures Table(t, cur) && |segs| == |t| == NSEG && |t[cur].syms| == n + 1 && Next(t, cur, Sp(cur, n + 1))
    ensures Represents(t, m[y.name := Entry(y.typ, y.value)]) && Refers(t, Sp(cur, n), y.name)
    ensures CutsStay(segs, cur, t)
  {
    assert y.hash < |segs[cur].hash| && segs[cur].hash[y.hash] == -1;
    PutIs(segs[cur], y);
    hide *;
    FullBelow(segs, cur, cur);
    TableLinkage(segs, cur);
    PutTable(segs, cur, y);
    PutNext(segs, cur, y);
    EnteredPut(segs, cur, y);
    RepresentsPut(segs, cur, y, m);
    CutsPut(segs, cur, y);
  }

  class SymbolTable {
    const symseg: array<Segment>
    var csymseg: int              // -1 once symfree has run through all segments
    var nextsym: Ref
    var lastsym: Ref

    /** The entries, by name. */
    ghost var contents: map<string, Entry>

    /** The table proper: it can be searched and entered into.  While nothing is known
        the next place may be a stale one. */
    ghost predicate Whole()
      reads `csymseg, `nextsym, `contents, symseg
    {
      && symseg.Length == NSEG && csymseg >= 0
      && Table(symseg[..], csymseg)
      && Represents(symseg[..], contents)
      && (contents == map[] || Next(symseg[..], csymseg, nextsym))
    }

    /** And the next place is known. */
    ghost predicate Valid()
      reads `csymseg, `nextsym, `contents, symseg
    {
      Whole() && Next(symseg[..], csymseg, nextsym)
    }

    /** All symbols were taken back; the next lookup starts over. */
    ghost predicate Emptied()
      reads `csymseg, `contents, symseg
    {
      && symseg.Length == NSEG && csymseg == -1
      && Table(symseg[..], 0) && Empty(symseg[..]) && contents == map[]
    }

    constructor ()
      ensures Valid() && fresh(symseg) && nextsym == Nil && contents == map[]
    {
      symseg := new Segment[NSEG](i => FRESH);
      csymseg, nextsym, lastsym, contents := 0, Nil, Nil, map[];
    }

    /** The search of one segment, for a name with hash sh. */
    method SearchSegment(g: nat, sh: nat, name: string) returns (r: Outcome)
      requires Whole() && g < NSEG && sh == Hash(name)
      ensures r == Search(symseg[g], name, 0)
    {
      hide Hash, At, Table, Placed, Represents;
      assert Linked(symseg[g]) by {
        TableLinked(symseg[..], csymseg, g);
      }
      var gp := symseg[g];
      var hp, i := sh, 1;
      ghost var k := 0;
      assert At(sh, 0) == sh by {
        AtFirst(sh);
      }
      while i < HSIZE
        invariant i == 2 * k + 1 && k <= NSYM && hp == At(sh, k)
        invariant Search(gp, name, k) == Search(gp, name, 0)
      {
        if gp.hash[hp] == -1 {
          return if |gp.syms| == NSYM then Full else Found(hp);
        }
        if gp.syms[gp.hash[hp]].name == name {
          return Found(hp);
        }
        NextProbe(sh, k);
        hp := hp + i;
        i := i + 2;
        if hp >= HSIZE {
          hp := hp - HSIZE;
        }
        k := k + 1;
      }
      r := Botch;
    }

    /** Where the name is or goes; the current segment becomes the one looked at. */
    method Lookup(name: string) returns (r: Place)
      requires Whole() || Emptied()
      modifies `csymseg
      ensures Whole() && (old(Valid()) ==> Valid())
      ensures r == Locate(symseg[..], name, 0)
      ensures Sited(symseg[..], csymseg, name, r)
      ensures r.Bucket? && !Entered(symseg[..], name) ==> r.seg == csymseg
      ensures csymseg >= old(csymseg)
      ensures !r.Bucket? ==> |contents| >= NSYM
    {
      var sh := HashName(name);
      hide Hash, Table, Next, Search, Sited, Entered, Represents, Empty;
      var g := 0;
      if csymseg < 0 {
        EmptyRepresents(symseg[..]);
        TableLinkage(symseg[..], 0);
      } else {
        TableLinkage(symseg[..], csymseg);
      }
      while g < NSEG
        invariant 0 <= g <= NSEG && g <= csymseg + 1 <= NSEG && old(csymseg) <= csymseg && Linkage(symseg[..])
        invariant if csymseg < 0 then g == 0 && Emptied() && Represents(symseg[..], contents) else Whole()
        invariant old(Valid()) ==> Valid()
        invariant PassesTo(symseg[..], g, name)
        invariant Locate(symseg[..], name, g) == Locate(symseg[..], name, 0)
        decreases NSEG - g
      {
        assert symseg[..][g] == symseg[g];
        Open(g, name);
        var out := SearchSegment(g, sh, name);
        match out {
        case Found(b) =>
          WellLocated(symseg[..], csymseg, name, g, b);
          return Bucket(g, b);
        case Full =>
          FullPasses(symseg[..], csymseg, name, g);
        case Botch =>
          NotLocated(symseg[..], csymseg, name, contents);
          return TableBotch;
        }
        g := g + 1;
      }
      NotLocated(symseg[..], csymseg, name, contents);
      r := Overflow;
    }

    /** A lookup that goes on to an unused segment makes it the current one. */
    method Open(g: nat, name: string)
      requires g < NSEG && (Whole() || (g == 0 && Emptied())) && g <= csymseg + 1
      requires PassesTo(symseg[..], g, name)
      modifies `csymseg
      ensures Whole() && csymseg == if g > old(csymseg) then g else old(csymseg)
      ensures old(Valid()) ==> Valid()
    {
      hide Table, Next, Represents, Empty, Passes;
      if g > csymseg {
        if g > 0 {
          assert Passes(symseg[..][g - 1], name);
          Advance(symseg[..], csymseg, nextsym, name);
        } else {
          EmptyRepresents(symseg[..]);
        }
        csymseg := g;
      }
    }

    /** Enter a name at the bucket that lookup found: 1 if it is new, 0 if it was
        there, -1 for the error that never happens. */
    method Enter(hp: Place, name: string, typ: int, value: int) returns (r: int)
      requires Whole() && hp.Bucket? && hp == Locate(symseg[..], name, 0)
      requires Entered(symseg[..], name) || hp.seg == csymseg
      modifies `nextsym, `lastsym, `contents, symseg
      ensures Valid()
      ensures r == if name in old(contents) then 0 else 1
      ensures contents == if r == 1 then old(contents)[name := Entry(typ, value)] else old(contents)
      ensures r == 0 ==> symseg[..] == old(symseg[..]) && nextsym == old(nextsym)
      ensures r == 1 ==> hp.bucket < |old(symseg[csymseg]).hash|
      ensures r == 1 ==>
        symseg[..] ==
        old(symseg[..])[csymseg := Put(old(symseg[csymseg]), Sym(name, typ, value, hp.bucket))]
      ensures r == 1 ==> nextsym == Sp(csymseg, |symseg[csymseg].syms|)
      ensures Refers(symseg[..], lastsym, name)
      ensures CutsStay(old(symseg[..]), csymseg, symseg[..])
    {
      hide Hash, Table, Search, Cut, Put, Inside, Vacant, Refers;
      ghost var segs := symseg[..];
      assert name in contents <==> Entered(segs, name);
      hide Represents, Entered, Next;
      TableLinkage(segs, csymseg);
      Located(segs, csymseg, name, 0);
      SitedBucket(segs, csymseg, name, hp.seg, hp.bucket);
      var b := symseg[hp.seg].hash[hp.bucket];
      if b == -1 {
        if hp.seg != csymseg {
          return -1;
        }
        New(Sym(name, typ, value, hp.bucket));
        r := 1;
      } else {
        lastsym := Sp(hp.seg, b);
        CutsSame(segs, csymseg);
        r := 0;
      }
    }

    /** Enter a new symbol at an empty bucket of the current segment. */
    method New(y: Sym)
      requires Whole() && |symseg[csymseg].syms| < NSYM && !Entered(symseg[..], y.name)
      requires PassesTo(symseg[..], csymseg, y.name)
      requires Linked(symseg[csymseg]) && Vacant(symseg[csymseg], Hash(y.name), y.hash)
      modifies `nextsym, `lastsym, `contents, symseg
      ensures Valid() && contents == old(contents)[y.name := Entry(y.typ, y.value)]
      ensures y.hash < |old(symseg[csymseg]).hash|
      ensures symseg[..] == old(symseg[..])[csymseg := Put(old(symseg[csymseg]), y)]
      ensures nextsym == Sp(csymseg, |symseg[csymseg].syms|) && Refers(symseg[..], lastsym, y.name)
      ensures CutsStay(old(symseg[..]), csymseg, symseg[..])
    {
      ghost var segs, cur := symseg[..], csymseg;
      assert y.hash < |segs[cur].hash| && segs[cur].hash[y.hash] == -1;
      hide *;
      var n := |symseg[csymseg].syms|;
      lastsym := Sp(csymseg, n);
      Fill(csymseg, y);
      nextsym := Sp(csymseg, n + 1);
      Entering(segs, cur, y, contents, symseg[..], n);
      contents := contents[y.name := Entry(y.typ, y.value)];
    }

    /** The symbol goes behind the others of its segment. */
    method Fill(g: nat, y: Sym)
      requires g < symseg.Length && y.hash < |symseg[g].hash|
      modifies symseg
      ensures symseg[..] == old(symseg[..])[g := Put(old(symseg[g]), y)]
      ensures |symseg[g].syms| == |old(symseg[g]).syms| + 1
    {
      PutIs(symseg[g], y);
      symseg[g] := Segment(symseg[g].syms + [y], symseg[g].hash[y.hash := |symseg[g].syms|]);
    }

    /** Take back every symbol entered since saved was the next place. */
    method SymFree(saved: Ref) returns (botch: bool)
      requires Whole() || Emptied()
      modifies `csymseg, `nextsym, `contents, symseg
      ensures botch <==> saved.Sp? && !(saved.seg <= old(csymseg) && old(Inside(symseg[..], saved)))
      ensures saved.Sp? && !botch ==> Valid() && contents == Left(old(contents), symseg[..])
      ensures saved.Sp? && !botch ==>
        symseg[..] == old(Cut(symseg[..], saved)) && nextsym == saved && csymseg == saved.seg
      ensures saved == Nil || botch ==> Emptied() && nextsym == old(nextsym)
    {
      hide Table, Next, Trunc, Linked, Represents, Left, Empty;
      if csymseg < 0 {
        return saved.Sp?;
      }
      ghost var segs, cur := symseg[..], csymseg;
      TableLinkage(segs, cur);
      if saved.Sp? && saved.seg <= cur && Inside(segs, saved) {
        CutTable(segs, cur, saved);
        RepresentsCut(segs, saved, contents);
      }
      var gp := csymseg;
      EmptyAfter(segs, csymseg);
      while gp >= 0
        invariant -1 <= gp == csymseg < NSEG
        invariant saved.Sp? && saved.seg <= cur && Inside(segs, saved) ==> saved.seg <= gp
        invariant forall f :: 0 <= f <= gp ==> symseg[f] == segs[f]
        invariant forall f :: gp < f < NSEG ==> symseg[f] == Trunc(segs[f], 0)
        modifies `csymseg, `nextsym, `contents, symseg
        invariant contents == old(contents) && nextsym == old(nextsym)
      {
        var found := ClearSegment(gp, saved);
        if found {
          nextsym := saved;
          assert symseg[..] == Cut(segs, saved);
          contents := Left(contents, symseg[..]);
          return false;
        }
        gp := gp - 1;
        csymseg := csymseg - 1;
      }
      CutAll(segs, cur, symseg[..]);
      contents := map[];
      botch := saved.Sp?;
    }

    /** Take back the symbols of one segment, the last one first, until its next
        place is the one saved. */
    method ClearSegment(g: nat, saved: Ref) returns (found: bool)
      requires g < symseg.Length && Linked(symseg[g])
      modifies symseg
      ensures found <==> saved.Sp? && saved.seg == g && saved.idx <= |old(symseg[g]).syms|
      ensures symseg[..] == old(symseg[..])[g := Trunc(old(symseg[g]), if found then saved.idx else 0)]
    {
      hide Trunc, Linked;
      ghost var seg := symseg[g];
      var sp: int := |symseg[g].syms|;
      TruncAll(seg);
      if Sp(g, sp) == saved {
        return true;
      }
      sp := sp - 1;
      while sp >= 0
        invariant -1 <= sp < |seg.syms|
        invariant saved.Sp? && saved.seg == g && saved.idx <= |seg.syms| ==> saved.idx <= sp
        invariant symseg[..] == old(symseg[..])[g := Trunc(seg, sp + 1)]
      {
        TruncStep(seg, sp);
        var s := symseg[g];
        symseg[g] := Segment(s.syms[..sp], s.hash[s.syms[sp].hash := -1]);
        if Sp(g, sp) == saved {
          return true;
        }
        sp := sp - 1;
      }
      found := false;
    }

    /** Give the last symbol looked up a new type and value. */
    method Change(typ: int, value: int)
      requires Whole() && lastsym.Sp? && lastsym.seg < NSEG && lastsym.idx < |symseg[lastsym.seg].syms|
      modifies `contents, symseg
      ensures Whole() && (old(Valid()) ==> Valid())
      ensures symseg[..] == old(Changed(symseg[..], lastsym, typ, value))
      ensures contents == old(contents)[old(symseg[lastsym.seg].syms[lastsym.idx].name) := Entry(typ, value)]
    {
      hide Table, Next, Represents;
      ghost var segs := symseg[..];
      assert Shows(contents, symseg[lastsym.seg].syms[lastsym.idx]) by {
        Shown(segs, contents, lastsym);
      }
      RepresentsChanged(segs, csymseg, lastsym, typ, value, contents);
      contents := contents[symseg[lastsym.seg].syms[lastsym.idx].name := Entry(typ, value)];
      var s := symseg[lastsym.seg];
      symseg[lastsym.seg] := Segment(s.syms[lastsym.idx := s.syms[lastsym.idx].(typ := typ, value := value)], s.hash);
      assert symseg[..] == Changed(segs, lastsym, typ, value);
      ChangedAlike(segs, lastsym, typ, value);
      AlikeTable(segs, symseg[..], csymseg);
      if Next(segs, csymseg, nextsym) {
        AlikeNext(segs, symseg[..], csymseg, nextsym);
      }
    }

    /** A place that can still be cut back to. */
    ghost predicate Saved(p: Ref)
      reads `csymseg, symseg
    {
      Inside(symseg[..], p) && p.seg <= csymseg
    }

    /** Pass 1 over one symbol of a file: whether it defines something that was
        undefined.  Not ok if the table is in error, which takes a full segment. */
    method LoadSym(cursym: Sym) returns (ok: bool, def: bool)
      requires Whole() || Emptied()
      modifies this, symseg
      ensures if ok then Whole() || Emptied() else |old(contents)| >= NSYM
      ensures ok && old(Valid()) ==> Valid()
      ensures ok ==> contents == Merge(old(contents), cursym) && (def <==> Defines(old(contents), cursym))
      ensures cursym.typ % 2 == 0 ==>
        ok && !def && symseg[..] == old(symseg[..]) && nextsym == old(nextsym) && contents == old(contents)
      ensures ok && cursym.typ % 2 != 0 ==> Valid()
      ensures ok && Behind(old(nextsym)) ==> Behind(nextsym)
      ensures ok ==>
        Listed(symseg[..], NSEG) == old(Listed(symseg[..], NSEG)) + AddedBy(old(contents), cursym)
      ensures ok ==> forall p: Ref :: old(Saved(p)) ==>
        Saved(p) && (!def ==> Restored(old(Cut(symseg[..], p)), Cut(symseg[..], p)))
    {
      hide Table, Cut, Sited, Entered, Locate, Restored, Next, SomeFull, Represents, Empty, Inside, Listed;
      ok, def := true, false;
      AllRestored();
      if cursym.typ % 2 == 0 {
        return;
      }
      ghost var segs := symseg[..];
      var hp := Lookup(cursym.name);
      if !hp.Bucket? {
        return false, false;
      }
      TableLinkage(symseg[..], csymseg);
      ghost var cur := csymseg;
      TableLinked(segs, cur, cur);
      var isnew := Enter(hp, cursym.name, cursym.typ, cursym.value);
      if isnew == 1 {
        TableLinked(symseg[..], cur, cur);
        ListedPut(segs, cur, Sym(cursym.name, cursym.typ, cursym.value, hp.bucket), NSEG);
        return;
      }
      TableLinkage(symseg[..], csymseg);
      var sp := symseg[lastsym.seg].syms[lastsym.idx];
      assert Shows(contents, sp) by {
        Shown(symseg[..], contents, lastsym);
      }
      if sp.typ != UNDF {
        return;
      }
      if cursym.typ == UNDF {
        if cursym.value > sp.value {
          RefersInside(symseg[..], lastsym, cursym.name);
          Grows(segs, symseg[..], lastsym, cursym.value);
          ChangedAlike(segs, lastsym, sp.typ, cursym.value);
          ListedAlike(segs, Changed(segs, lastsym, sp.typ, cursym.value), NSEG);
          Change(sp.typ, cursym.value);
        }
        return;
      }
      if sp.value != 0 && cursym.typ == TEXT {
        return;
      }
      def := true;
      ChangedEntered(symseg[..], lastsym, cursym.typ, cursym.value);
      ChangedAlike(segs, lastsym, cursym.typ, cursym.value);
      ListedAlike(segs, Changed(segs, lastsym, cursym.typ, cursym.value), NSEG);
      Change(cursym.typ, cursym.value);
    }

    lemma AllRestored()
      requires Whole() || Emptied()
      ensures forall p: Ref :: Saved(p) ==> Restored(Cut(symseg[..], p), Cut(symseg[..], p))
    {
      hide Cut, Restored, Table, Represents;
      forall p: Ref | Saved(p)
        ensures Restored(Cut(symseg[..], p), Cut(symseg[..], p))
      {
        RestoredSame(Cut(symseg[..], p));
      }
    }

    /** Pass 1 over the symbols of a file or library member: 1 if it is loaded, 0 if
        a library member defined nothing that was wanted, -1 if the table is in
        error.  A member not wanted is taken back to the place saved.  If no symbol
        was known before it, that place is not kept, and the next place stays where
        the member ended: for the next member not wanted it is stale, and either
        missed or found too early. */
    method Load1(libflg: bool, member: seq<Sym>) returns (r: int)
      requires (Whole() || Emptied()) && Behind(nextsym)
      modifies this, symseg
      ensures -1 <= r <= 1
      ensures r == -1 ==>
        || |old(contents)| + |member| >= NSYM
        || (libflg && Definitions(old(contents), member) == 0 &&
            Missed(old(nextsym), MergeAll(old(contents), member)))
      ensures r != -1 ==> (Whole() || Emptied()) && Behind(nextsym)
      ensures r == 1 ==>
        contents == MergeAll(old(contents), member) && (libflg ==> Definitions(old(contents), member) > 0)
      ensures r == 1 && (old(Valid()) || !Local(member)) ==> Valid()
      ensures r != -1 && Local(member) ==> nextsym == old(nextsym)
      ensures r == 0 ==> libflg && Definitions(old(contents), member) == 0
      ensures r == 0 ==> !Missed(old(nextsym), MergeAll(old(contents), member))
      ensures r == 0 && old(nextsym).Sp? ==> Valid() && nextsym == old(nextsym) && Symx(nextsym) >= |old(contents)|
      ensures r == 0 && old(nextsym).Sp? ==>
        contents == Leftover(old(contents), MergeAll(old(contents), member),
                             Front(NewNames(old(contents), member), Symx(nextsym) - |old(contents)|))
      ensures r == 0 && old(nextsym) == Nil ==> Emptied() && Symx(nextsym) == |MergeAll(map[], member)|
      ensures r == 0 ==>
        (Restored(old(symseg[..]), symseg[..]) <==> old(nextsym) == Nil || Symx(old(nextsym)) == |old(contents)|)
      ensures r == 0 && Restored(old(symseg[..]), symseg[..]) ==>
        Linkage(symseg[..]) && forall name :: Locate(symseg[..], name, 0) == old(Locate(symseg[..], name, 0))
    {
      hide Table, Cut, Locate, Restored, Next, SomeFull, Represents, MergeAll, Definitions, Left, Empty, Defines,
        Merge, Local, Inside, Listed, NewNames, AddedBy, Leftover, Entered, Front;
      ghost var segs, m, known := symseg[..], contents, contents != map[] && nextsym.Sp?;
      var savnext := nextsym;
      Tabled();
      if contents != map[] {
        NextCounts(segs, Current(), m, nextsym);
      }
      if known {
        TableLinkage(segs, csymseg);
        CutNow(segs, csymseg, savnext);
        NextFits(segs, csymseg, savnext);
        RestoredSame(segs);
      }
      MergeNone(m);
      NewNamesNone(m);
      LocalNone();
      assert member[..0] == [];
      var ndef, i := 0, 0;
      while i < |member|
        invariant 0 <= i <= |member| && (Whole() || Emptied()) && Behind(nextsym)
        invariant old(Valid()) || !Local(member[..i]) ==> Valid()
        invariant known ==> Saved(savnext)
        invariant ndef >= 0 && (known && ndef == 0 ==> Restored(segs, Cut(symseg[..], savnext)))
        invariant contents == MergeAll(m, member[..i]) && ndef == Definitions(m, member[..i])
        invariant Listed(symseg[..], NSEG) == Listed(segs, NSEG) + NewNames(m, member[..i])
        invariant Local(member[..i]) ==> symseg[..] == segs && nextsym == old(nextsym) && contents == m
      {
        MergeNext(m, member, i);
        NewNamesNext(m, member, i);
        LocalNext(member, i);
        ghost var before := if known then Cut(symseg[..], savnext) else segs;
        var ok, def := LoadSym(member[i]);
        if !ok {
          MergeSize(m, member[..i]);
          return -1;
        }
        if def {
          ndef := ndef + 1;
        } else if known && ndef == 0 {
          RestoredTrans(segs, before, Cut(symseg[..], savnext));
        }
        i := i + 1;
      }
      assert member[..i] == member;
      if !libflg || ndef > 0 {
        return 1;
      }
      r := TakeBack(savnext, segs, old(Current()), m, NewNames(m, member));
      if r == 0 && Restored(segs, symseg[..]) {
        Tabled();
        SameAnswers(segs, old(Current()), symseg[..], Current());
      }
    }

    /** A member that is not wanted is taken back to the place saved before it. */
    method TakeBack(savnext: Ref, ghost segs: seq<Segment>, ghost was: nat, ghost m: map<string, Entry>,
                    ghost names: seq<string>)
      returns (r: int)
      requires (Whole() || Emptied()) && Behind(nextsym) && Behind(savnext)
      requires Table(segs, was) && Represents(segs, m) && (m != map[] ==> Next(segs, was, savnext))
      requires savnext == Nil ==> m == map[] && (Valid() || (contents == map[] && nextsym == Nil))
      requires Listed(symseg[..], NSEG) == Listed(segs, NSEG) + names
      requires m != map[] ==> Saved(savnext) && Restored(segs, Cut(symseg[..], savnext))
      modifies `csymseg, `nextsym, `contents, symseg
      ensures r == if Missed(savnext, old(contents)) then -1 else 0
      ensures r == 0 ==> Behind(nextsym)
      ensures r == 0 && savnext.Sp? ==> Valid() && nextsym == savnext && Symx(nextsym) >= |m|
      ensures r == 0 && savnext.Sp? ==> contents == Leftover(m, old(contents), Front(names, Symx(nextsym) - |m|))
      ensures r == 0 && savnext == Nil ==> Emptied() && Symx(nextsym) == |old(contents)|
      ensures r == 0 ==> (Restored(segs, symseg[..]) <==> savnext == Nil || Symx(savnext) == |m|)
    {
      hide Table, Cut, Restored, Next, Represents, Left, Empty, Inside, Listed, Leftover, Entered, Front;
      ghost var now, cur, all := symseg[..], Current(), contents;
      Tabled();
      if Emptied() && savnext.Sp? {
        NotInside(savnext);
      }
      MissedExactly(now, cur, all, savnext);
      if Next(now, cur, nextsym) {
        NextCounts(now, cur, all, nextsym);
      }
      if m != map[] {
        NextCounts(segs, was, m, savnext);
      }
      var botch := SymFree(savnext);
      if botch {
        return -1;
      }
      if savnext.Sp? {
        LeftoverIs(segs, was, m, now, cur, all, names, savnext, Symx(savnext) - |m|);
        RestoredExactly(segs, was, m, symseg[..], Symx(savnext));
      } else {
        NothingEntered(segs, m);
        EmptySame(segs, was, symseg[..], 0);
      }
      return 0;
    }

    ghost function Current(): nat
      reads `csymseg
    {
      if csymseg < 0 then 0 else csymseg
    }

    lemma NotInside(p: Ref)
      requires Emptied() && p.Sp? && Behind(p)
      ensures !Inside(symseg[..], p)
    {
      hide Table;
    }

    lemma Tabled()
      requires Whole() || Emptied()
      ensures symseg.Length == NSEG && Table(symseg[..], Current()) && Represents(symseg[..], contents)
      ensures contents != map[] ==> Next(symseg[..], Current(), nextsym)
    {
      hide Table, Represents, Next;
      if Emptied() {
        EmptyRepresents(symseg[..]);
      }
    }

    /** Two library members, neither of which defines anything, before any symbol is
        known: the second is an error exactly when it has fewer names than the first,
        and otherwise as many of its names as the first had are left behind. */
    static method RejectTwo(first: seq<Sym>, second: seq<Sym>)
      returns (r1: int, r2: int, ghost left: map<string, Entry>)
      requires Definitions(map[], first) == 0 && Definitions(map[], second) == 0
      requires |first| < NSYM && |second| < NSYM
      ensures r1 == 0
      ensures r2 == if |MergeAll(map[], second)| < |MergeAll(map[], first)| then -1 else 0
      ensures r2 == 0 ==>
        left == Leftover(map[], MergeAll(map[], second), Front(NewNames(map[], second), |MergeAll(map[], first)|))
    {
      hide MergeAll, Definitions, Leftover, NewNames, Restored, Locate, Local;
      var t := new SymbolTable();
      r1 := t.Load1(true, first);
      var p := t.nextsym;
      r2 := t.Load1(true, second);
      left := t.contents;
      if r2 == 0 && p == Nil {
        NothingLeft(MergeAll(map[], second), NewNames(map[], second));
      }
    }

    /** A member with an undefined symbol, and then one with local symbols only, which
        fails, or one with another undefined symbol, which stays. */
    static method RejectExamples() returns (r: int, s: int, ghost left: map<string, Entry>)
      ensures r == -1 && s == 0
      ensures left == map["b" := Entry(UNDF, 0)]
    {
      var a, b, c := Sym("a", UNDF, 0, 0), Sym("b", UNDF, 0, 0), Sym("c", TEXT - 1, 0, 0);
      OneSymbol(a);
      OneSymbol(b);
      OneSymbol(c);
      ghost var l;
      var r1;
      r1, r, l := RejectTwo([a], [c]);
      r1, s, left := RejectTwo([a], [b]);
    }

    /** Pass 1 over all files, as long as no error ends it. */
    method Pass1(files: seq<Member>) returns (ok: bool)
      requires Valid() && contents == map[] && nextsym == Nil
      modifies this, symseg
      ensures ok && Plain(files) ==> (Whole() || Emptied()) && contents == LinkAll(files)
      ensures ok && Plain(files) ==> IsOutcome(Symbols(files), contents)
      ensures !ok && Plain(files) ==> AllSymbols(files) >= NSYM
    {
      hide Table, Next, Represents, MergeAll, Definitions, Leftover, NewNames, Restored, Locate, Local, Empty, Step,
        LinkAll, Plain, Missed, Front, AllSymbols, IsOutcome, Symbols;
      LinkNone();
      var i := 0;
      assert files[..0] == [];
      while i < |files|
        invariant 0 <= i <= |files| && (Whole() || Emptied()) && Behind(nextsym)
        invariant Plain(files) ==> contents == LinkAll(files[..i])
        invariant (forall j :: 0 <= j < i ==> Local(files[j].syms)) ==> nextsym == Nil
      {
        Tabled();
        if contents != map[] {
          NextCounts(symseg[..], Current(), contents, nextsym);
        }
        ghost var m, p := contents, nextsym;
        LinkNext(files, i);
        LinkSize(files[..i]);
        if Plain(files) {
          NotMissed(files, i, m, p);
        }
        var r := Load1(files[i].lib, files[i].syms);
        if r == -1 {
          SymbolsMore(files, i + 1);
          return false;
        }
        if r == 0 {
          NothingLeft(MergeAll(m, files[i].syms), NewNames(m, files[i].syms));
        }
        StepIs(m, files[i], contents);
        i := i + 1;
      }
      assert files[..i] == files;
      LinkOutcome(files);
      ok := true;
    }

    /** A file refers to a name that a member of a library then defines. */
    static method PassExample() returns (ok: bool, ghost m: map<string, Entry>)
      ensures ok && m == map["f" := Entry(TEXT, 100)]
    {
      hide MergeAll, Definitions, Leftover, Restored, Locate, IsOutcome, Symbols;
      var files := [Member(false, [Sym("f", UNDF, 0, 0)]), Member(true, [Sym("f", TEXT, 100, 0)])];
      TwoFiles(files[0].syms[0], files[1].syms[0]);
      var t := new SymbolTable();
      ok := t.Pass1(files);
      m := t.contents;
    }
  }
}
