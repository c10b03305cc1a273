/** How many nodes and edges the trie of some keywords has. */
module KeywordCount {
  import opened KeywordTrie

  /** The prefixes of the keywords, without the empty one: the states. */
  ghost function Prefixes(words: set<seq<Char>>): set<seq<Char>> {
    set w, i | w in words && 1 <= i <= |w| :: w[..i]
  }

  /** Some keyword goes on after p. */
  ghost predicate Extended(words: set<seq<Char>>, p: seq<Char>) {
    exists c: Char :: p + [c] in Prefixes(words)
  }

  /** The prefixes after which no keyword goes on. */
  ghost function Leaves(words: set<seq<Char>>): set<seq<Char>> {
    set p | p in Prefixes(words) + {[]} && !Extended(words, p)
  }

  /** The nodes of the trie: one for each edge, and one for each state without. */
  ghost function Need(words: set<seq<Char>>): nat {
    |Prefixes(words)| + |Leaves(words)|
  }

  lemma Prefix(words: set<seq<Char>>, w: seq<Char>, i: nat)
    requires w in words && 1 <= i <= |w|
    ensures w[..i] in Prefixes(words)
  {
  }

  lemma PrefixOf(words: set<seq<Char>>, p: seq<Char>) returns (w: seq<Char>)
    requires p in Prefixes(words)
    ensures w in words && 1 <= |p| <= |w| && w[..|p|] == p
  {
    var v, i :| v in words && 1 <= i <= |v| && p == v[..i];
    w := v;
  }

  lemma PrefixClosed(words: set<seq<Char>>, p: seq<Char>, i: nat)
    requires p in Prefixes(words) && 1 <= i <= |p|
    ensures p[..i] in Prefixes(words)
  {
    var w := PrefixOf(words, p);
    assert w[..i] == p[..i];
    Prefix(words, w, i);
  }

  /** The prefixes of k that are longer than i. */
  ghost function Longer(k: seq<Char>, i: nat): set<seq<Char>> {
    set j | i < j <= |k| :: k[..j]
  }

  lemma {:induction false} LongerSize(k: seq<Char>, i: nat)
    requires i <= |k|
    ensures |Longer(k, i)| == |k| - i
    decreases |k| - i
  {
    if i < |k| {
      LongerSize(k, i + 1);
      assert Longer(k, i) == Longer(k, i + 1) + {k[..i + 1]};
      forall j | i + 1 < j <= |k|
        ensures k[..j] != k[..i + 1]
      {
        assert |k[..j]| == j;
      }
      assert k[..i + 1] !in Longer(k, i + 1);
    } else {
      assert Longer(k, i) == {};
    }
  }

  /** The first i characters of k are a state, one more are not. */
  ghost predicate Leaving(words: set<seq<Char>>, k: seq<Char>, i: nat) {
    i < |k| && (i == 0 || k[..i] in Prefixes(words)) && k[..i + 1] !in Prefixes(words)
  }

  lemma PrefixesNew(words: set<seq<Char>>, k: seq<Char>, i: nat)
    requires Leaving(words, k, i)
    ensures Prefixes(words + {k}) == Prefixes(words) + Longer(k, i)
    ensures Prefixes(words) !! Longer(k, i)
    ensures |Prefixes(words + {k})| == |Prefixes(words)| + |k| - i
  {
    NewOnes(words, k, i);
    forall p
      ensures p in Prefixes(words + {k}) <==> p in Prefixes(words) + Longer(k, i)
    {
      OneWord(words, k, p);
      OldOnes(words, k, i, p);
    }
    hide Prefixes, Longer;
    LongerSize(k, i);
    assert |Prefixes(words) + Longer(k, i)| == |Prefixes(words)| + |Longer(k, i)|;
  }

  lemma NewOnes(words: set<seq<Char>>, k: seq<Char>, i: nat)
    requires Leaving(words, k, i)
    ensures Prefixes(words) !! Longer(k, i)
  {
    hide Prefixes;
    forall j | i < j <= |k|
      ensures k[..j] !in Prefixes(words)
    {
      assert k[..j][..i + 1] == k[..i + 1];
      if k[..j] in Prefixes(words) {
        PrefixClosed(words, k[..j], i + 1);
      }
    }
  }

  lemma OldOnes(words: set<seq<Char>>, k: seq<Char>, i: nat, p: seq<Char>)
    requires Leaving(words, k, i)
    ensures 1 <= |p| <= |k| && p == k[..|p|] ==> p in Prefixes(words) || p in Longer(k, i)
    ensures p in Longer(k, i) ==> 1 <= |p| <= |k| && p == k[..|p|]
  {
    hide Prefixes;
    if 1 <= |p| <= i && p == k[..|p|] {
      assert k[..i][..|p|] == p;
      PrefixClosed(words, k[..i], |p|);
    }
    if p in Longer(k, i) {
      var j :| i < j <= |k| && p == k[..j];
      assert |p| == j;
    }
  }

  lemma PrefixesCount(words: set<seq<Char>>, k: seq<Char>, i: nat)
    requires Leaving(words, k, i)
    ensures |Prefixes(words + {k})| == |Prefixes(words)| + |k| - i
  {
    hide *;
    PrefixesNew(words, k, i);
  }

  lemma OneWord(words: set<seq<Char>>, k: seq<Char>, p: seq<Char>)
    ensures p in Prefixes(words + {k}) <==> p in Prefixes(words) || (1 <= |p| <= |k| && p == k[..|p|])
  {
    if p in Prefixes(words + {k}) {
      var w := PrefixOf(words + {k}, p);
      if w in words {
        Prefix(words, w, |p|);
      }
    }
    if p in Prefixes(words) {
      var w := PrefixOf(words, p);
      Prefix(words + {k}, w, |p|);
    }
    if 1 <= |p| <= |k| && p == k[..|p|] {
      Prefix(words + {k}, k, |p|);
    }
  }

  lemma ExtendedNew(words: set<seq<Char>>, k: seq<Char>, i: nat, p: seq<Char>)
    requires Leaving(words, k, i)
    ensures Extended(words + {k}, p) <==> Extended(words, p) || (i <= |p| < |k| && p == k[..|p|])
  {
    PrefixesNew(words, k, i);
    LongerAfter(k, i, p);
    hide Prefixes, Longer, Leaving;
    forall c: Char
      ensures p + [c] in Prefixes(words + {k}) <==> p + [c] in Prefixes(words) || p + [c] in Longer(k, i)
    {
    }
  }

  lemma LongerAfter(k: seq<Char>, i: nat, p: seq<Char>)
    requires i < |k|
    ensures (exists c: Char :: p + [c] in Longer(k, i)) <==> i <= |p| < |k| && p == k[..|p|]
  {
    if i <= |p| < |k| && p == k[..|p|] {
      assert k[..|p| + 1] in Longer(k, i);
      assert p + [k[|p|]] == k[..|p| + 1];
    }
    if c: Char :| p + [c] in Longer(k, i) {
      var j :| i < j <= |k| && k[..j] == p + [c];
      assert |k[..j]| == |p| + 1;
      assert k[..|p|] == k[..j][..|p|] == p;
    }
  }

  lemma LeavesNew(words: set<seq<Char>>, k: seq<Char>, i: nat)
    requires Leaving(words, k, i)
    ensures Leaves(words + {k}) == Leaves(words) - {k[..i]} + {k} && k !in Leaves(words)
    ensures k[..i] in Leaves(words) <==> !Extended(words, k[..i])
  {
    hide Prefixes, Leaves, Extended;
    forall p
      ensures p in Leaves(words + {k}) <==> p in Leaves(words) - {k[..i]} + {k}
    {
      LeafNew(words, k, i, p);
    }
    LeafNew(words, k, i, k);
    LeafIs(words, k[..i]);
  }

  lemma LeafIs(words: set<seq<Char>>, p: seq<Char>)
    ensures p in Leaves(words) <==> (p == [] || p in Prefixes(words)) && !Extended(words, p)
  {
    hide Prefixes, Extended;
  }

  lemma LeafNew(words: set<seq<Char>>, k: seq<Char>, i: nat, p: seq<Char>)
    requires Leaving(words, k, i)
    ensures p in Leaves(words + {k}) <==> p == k || (p in Leaves(words) && p != k[..i])
    ensures p == k ==> p !in Leaves(words)
    ensures k[..i] == [] || k[..i] in Prefixes(words)
  {
    LeafIs(words, p);
    LeafIs(words + {k}, p);
    PrefixesNew(words, k, i);
    ExtendedNew(words, k, i, p);
    hide Prefixes, Leaves, Extended;
    assert k[..|k|] == k;
    if p == k {
      assert p in Longer(k, i);
      NotExtended(words, k);
    } else if p in Longer(k, i) {
      var j :| i < j <= |k| && p == k[..j];
      assert |p| == j;
    } else if i <= |p| < |k| && p == k[..|p|] {
      assert |p| > i ==> p in Longer(k, i);
    }
  }

  lemma NotExtended(words: set<seq<Char>>, k: seq<Char>)
    requires k != [] && k !in Prefixes(words)
    ensures !Extended(words, k)
  {
    forall c: Char
      ensures k + [c] !in Prefixes(words)
    {
      assert (k + [c])[..|k|] == k;
      if k + [c] in Prefixes(words) {
        PrefixClosed(words, k + [c], |k|);
      }
    }
  }

  /** A keyword with new prefixes takes a node for each, and one more if another
      keyword goes on differently from where it leaves. */
  lemma NeedNew(words: set<seq<Char>>, k: seq<Char>, i: nat)
    requires Leaving(words, k, i)
    ensures Need(words + {k}) == Need(words) + |k| - i + if Extended(words, k[..i]) then 1 else 0
  {
    PrefixesNew(words, k, i);
    LeavesNew(words, k, i);
    hide Prefixes, Leaves, Extended;
    var l := Leaves(words) - {k[..i]};
    assert |l| == |Leaves(words)| - if k[..i] in Leaves(words) then 1 else 0;
    assert k != k[..i];
    assert k !in l;
  }

  lemma NeedOld(words: set<seq<Char>>, k: seq<Char>)
    requires k in Prefixes(words)
    ensures Prefixes(words + {k}) == Prefixes(words) && Need(words + {k}) == Need(words)
  {
    forall p
      ensures p in Prefixes(words + {k}) <==> p in Prefixes(words)
    {
      OneWord(words, k, p);
      if 1 <= |p| <= |k| && p == k[..|p|] {
        PrefixClosed(words, k, |p|);
      }
    }
    hide Prefixes;
    assert Prefixes(words + {k}) == Prefixes(words);
    assert forall p :: Extended(words + {k}, p) <==> Extended(words, p);
    assert Leaves(words + {k}) == Leaves(words);
  }

  /** Where a keyword leaves the prefixes there are. */
  lemma LeavesAt(words: set<seq<Char>>, k: seq<Char>) returns (i: nat)
    requires k != [] && k !in Prefixes(words)
    ensures Leaving(words, k, i)
  {
    hide Prefixes;
    assert k[..|k|] == k;
    i := 0;
    while k[..i + 1] in Prefixes(words)
      invariant i < |k| && (i == 0 || k[..i] in Prefixes(words))
      decreases |k| - i
    {
      i := i + 1;
    }
  }

  /** More keywords take no fewer nodes. */
  lemma NeedMore(words: set<seq<Char>>, k: seq<Char>)
    requires k != []
    ensures Need(words) <= Need(words + {k}) && |Prefixes(words + {k})| <= |Prefixes(words)| + |k|
  {
    if k in Prefixes(words) {
      NeedOld(words, k);
    } else {
      var i := LeavesAt(words, k);
      NeedNew(words, k, i);
      PrefixesNew(words, k, i);
    }
  }

  function Characters(keywords: seq<seq<Char>>): nat {
    if keywords == [] then 0 else Characters(keywords[..|keywords| - 1]) + |keywords[|keywords| - 1]|
  }

  lemma {:induction false} NeedRest(keywords: seq<seq<Char>>, n: nat)
    requires n <= |keywords| && forall i :: 0 <= i < |keywords| ==> keywords[i] != []
    ensures Need(WordSet(keywords[..n])) <= Need(WordSet(keywords))
    decreases |keywords| - n
  {
    hide *;
    if n < |keywords| {
      OneWordMore(keywords, n);
      NeedMore(WordSet(keywords[..n]), keywords[n]);
      NeedRest(keywords, n + 1);
    } else {
      assert keywords[..n] == keywords;
    }
  }

  lemma NoPrefixes()
    ensures Prefixes({}) == {} && Leaves({}) == {[]} && Need({}) == 1
  {
    assert Prefixes({}) == {};
    assert Leaves({}) == {[]};
  }

  /** There are no more states than characters. */
  lemma {:induction false} PrefixesFew(keywords: seq<seq<Char>>)
    requires forall i :: 0 <= i < |keywords| ==> keywords[i] != []
    ensures |Prefixes(WordSet(keywords))| <= Characters(keywords)
  {
    if keywords == [] {
      NoWords();
      NoPrefixes();
    } else {
      var n := |keywords| - 1;
      PrefixesFew(keywords[..n]);
      hide Prefixes, WordSet, Need;
      assert keywords[..n + 1] == keywords;
      OneWordMore(keywords, n);
      NeedMore(WordSet(keywords[..n]), keywords[n]);
    }
  }

  /** The nodes are at most twice the states and the root. */
  lemma NeedBound(words: set<seq<Char>>)
    ensures |Prefixes(words)| <= Need(words) <= 2 * |Prefixes(words)| + 1
  {
    hide Prefixes;
    var all := Prefixes(words) + {[]};
    Subset(Leaves(words), all);
    assert |all| <= |Prefixes(words)| + 1;
  }

  lemma Subset<T(!new)>(s: set<T>, t: set<T>)
    requires s <= t
    ensures |s| <= |t|
  {
    assert |t| == |s| + |t - s|;
  }

  // The trie.

  /** The number of nodes with an edge. */
  ghost function Edges(inp: seq<int>): nat {
    if inp == [] then 0 else Edges(inp[..|inp| - 1]) + if inp[|inp| - 1] != 0 then 1 else 0
  }

  lemma {:induction false} EdgesOne(inp: seq<int>, s: nat, c: int)
    requires s < |inp| && inp[s] == 0 && c != 0
    ensures Edges(inp[s := c]) == Edges(inp) + 1
  {
    var n := |inp| - 1;
    if s == n {
      assert inp[s := c][..n] == inp[..n];
    } else {
      EdgesOne(inp[..n], s, c);
      assert inp[s := c][..n] == inp[..n][s := c];
    }
  }

  lemma EdgesLast(inp: seq<int>)
    ensures Edges(inp + [0]) == Edges(inp)
  {
    assert (inp + [0])[..|inp|] == inp;
  }

  /** No node is pointed at twice. */
  ghost predicate Tree(t: Trie) {
    && |t.inp| == |t.nst| == |t.link| > 0 && Pointers(t.nst, |t.inp|) && Pointers(t.link, |t.inp|)
    && PointApart(t.nst, t.link)
  }

  /** Each points at another of n nodes, or is 0. */
  ghost predicate Pointers(s: seq<nat>, n: nat) {
    (forall i :: 0 <= i < |s| ==> s[i] < n) && forall i, j :: 0 <= i < j < |s| && s[i] != 0 ==> s[i] != s[j]
  }

  ghost predicate PointApart(s: seq<nat>, t: seq<nat>) {
    forall i, j :: 0 <= i < |s| && 0 <= j < |t| && s[i] != 0 ==> s[i] != t[j]
  }

  lemma PointNew(s: seq<nat>, i: nat, n: nat)
    requires Pointers(s, n) && i < |s| && n > 0
    ensures Pointers(s[i := n] + [0], n + 1) && Pointers(s + [0], n + 1)
  {
  }

  lemma ApartNew(s: seq<nat>, t: seq<nat>, i: nat, n: nat)
    requires Pointers(s, n) && Pointers(t, n) && PointApart(s, t) && n > 0
    ensures i < |s| ==> PointApart(s[i := n] + [0], t + [0])
    ensures i < |t| ==> PointApart(s + [0], t[i := n] + [0])
  {
  }

  lemma TreeEdge(t: Trie, s: nat, c: Char)
    requires Tree(t) && s < |t.inp|
    ensures Tree(WithEdge(t, s, c))
  {
    hide Pointers, PointApart;
    PointNew(t.nst, s, |t.inp|);
    PointNew(t.link, s, |t.inp|);
    ApartNew(t.nst, t.link, s, |t.inp|);
  }

  lemma TreeLink(t: Trie, s: nat)
    requires Tree(t) && s < |t.inp|
    ensures Tree(WithLink(t, s))
  {
    hide Pointers, PointApart;
    PointNew(t.nst, s, |t.inp|);
    PointNew(t.link, s, |t.inp|);
    ApartNew(t.nst, t.link, s, |t.inp|);
  }

  /** The trie has the states and the size that the keywords need. */
  ghost predicate Fits(t: Trie, lab: seq<seq<Char>>, words: set<seq<Char>>) {
    && Tree(t) && |lab| == |t.inp| == Need(words) <= MAXSIZ && Edges(t.inp) == |Prefixes(words)|
    && LabelsIn(lab, words) && LinksFull(t)
  }

  ghost predicate LabelsIn(lab: seq<seq<Char>>, words: set<seq<Char>>) {
    forall i :: 0 <= i < |lab| ==> lab[i] == [] || lab[i] in Prefixes(words)
  }

  /** Only the first node of a state can be without an edge. */
  ghost predicate LinksFull(t: Trie)
    requires |t.inp| == |t.link|
  {
    forall i :: 0 <= i < |t.link| && t.link[i] != 0 ==> t.link[i] < |t.inp| && t.inp[t.link[i]] != 0
  }

  ghost predicate LinksBut(t: Trie, s: nat)
    requires |t.inp| == |t.link|
  {
    forall i :: 0 <= i < |t.link| && t.link[i] != 0 ==>
      t.link[i] < |t.inp| && (t.link[i] == s || t.inp[t.link[i]] != 0)
  }

  /** From (t0, l0), d nodes were added along the keyword, from node s0 on. */
  ghost predicate Along(t0: Trie, l0: seq<seq<Char>>, t: Trie, l: seq<seq<Char>>, k: seq<Char>, s0: nat, d: nat) {
    && |l0| == |t0.inp| == |t0.nst| == |t0.link| && |l| == |t.inp| == |t.nst| == |t.link| && s0 < |l0|
    && |l| == |l0| + d && Edges(t.inp) == Edges(t0.inp) + d && (Tree(t0) ==> Tree(t))
    && (forall j :: 0 <= j < |l0| ==> t.link[j] == t0.link[j] && l[j] == l0[j] && (t0.inp[j] != 0 ==> t.inp[j] != 0))
    && (forall j :: |l0| <= j < |l| ==> t.link[j] == 0 && l[j] != [] && |l[j]| <= |k| && l[j] == k[..|l[j]|])
    && (d > 0 ==> t.inp[s0] != 0)
  }

  lemma AlongNone(t: Trie, l: seq<seq<Char>>, k: seq<Char>, s0: nat)
    requires |l| == |t.inp| == |t.nst| == |t.link| && s0 < |l|
    ensures Along(t, l, t, l, k, s0, 0)
  {
  }

  lemma AlongNext(t0: Trie, l0: seq<seq<Char>>, t: Trie, l: seq<seq<Char>>, k: seq<Char>, s0: nat, d: nat, s: nat,
                  i: nat)
    requires Along(t0, l0, t, l, k, s0, d) && s < |l| && t.inp[s] == 0 && (d == 0 ==> s == s0)
    requires i < |k| && l[s] == k[..i]
    ensures Along(t0, l0, WithEdge(t, s, k[i]), l + [l[s] + [k[i]]], k, s0, d + 1)
  {
    assert l[s] + [k[i]] == k[..i + 1];
    EdgesOne(t.inp, s, k[i]);
    EdgesLast(t.inp[s := k[i]]);
    if Tree(t) {
      TreeEdge(t, s, k[i]);
    }
    hide Tree, Edges;
  }

  lemma {:induction false} LeadsUnique(t: Trie, lab: seq<seq<Char>>, k: seq<Char>, m: nat, n: nat)
    requires Labelled(t, lab) && Leads(t, lab, k, m) && Leads(t, lab, k, n)
    ensures m == n
    decreases |k|
  {
    if k != [] {
      var g: nat :| LeadsVia(t, lab, k, m, g);
      var h: nat :| LeadsVia(t, lab, k, n, h);
      LeadsUnique(t, lab, k[..|k| - 1], g, h);
    }
  }

  lemma {:induction false} LeadsPrefix(t: Trie, lab: seq<seq<Char>>, k: seq<Char>, m: nat, i: nat) returns (n: nat)
    requires Labelled(t, lab) && Leads(t, lab, k, m) && i <= |k|
    ensures Leads(t, lab, k[..i], n)
    decreases |k|
  {
    if i == |k| {
      assert k[..i] == k;
      n := m;
    } else {
      var h: nat :| LeadsVia(t, lab, k, m, h);
      n := LeadsPrefix(t, lab, k[..|k| - 1], h, i);
      assert k[..|k| - 1][..i] == k[..i];
    }
  }

  /** A state from which there is no edge over c. */
  lemma NoState(t: Trie, lab: seq<seq<Char>>, out: seq<bool>, words: set<seq<Char>>, p: seq<Char>, h: nat, c: Char)
    requires Labelled(t, lab) && (forall w :: w in words ==> Entered(t, lab, out, w))
    requires Leads(t, lab, p, h) && h < |lab| && Edge(t, lab, h, c) == 0
    ensures p + [c] !in Prefixes(words)
  {
    var q := p + [c];
    assert q[..|q| - 1] == p;
    if q in Prefixes(words) {
      hide Labelled, Edge;
      var w := PrefixOf(words, q);
      var m: nat :| m < |out| && out[m] && Leads(t, lab, w, m);
      var n := LeadsPrefix(t, lab, w, m, |q|);
      var g: nat :| LeadsVia(t, lab, q, n, g);
      LeadsUnique(t, lab, p, g, h);
    }
  }

  lemma {:induction false} PassingEnd(t: Trie, lab: seq<seq<Char>>, h: nat, s: nat, c: Char)
    requires Labelled(t, lab) && LinksFull(t) && Passing(t, lab, h, s, c) && s < |lab| && t.inp[s] == 0
    ensures s == h
    decreases |lab| - h
  {
    if h != s {
      PassingEnd(t, lab, t.link[h], s, c);
    }
  }

  /** The keyword leaves the trie at the node without an edge, */
  lemma LeavesEmpty(t: Trie, lab: seq<seq<Char>>, out: seq<bool>, words: set<seq<Char>>, k: seq<Char>, i: nat,
                    h: nat, s: nat)
    requires Labelled(t, lab) && Fits(t, lab, words) && forall w :: w in words ==> Entered(t, lab, out, w)
    requires i < |k| && Leads(t, lab, k[..i], h) && Passing(t, lab, h, s, k[i]) && s < |lab| && t.inp[s] == 0
    ensures Leaving(words, k, i) && !Extended(words, k[..i])
  {
    PassingEnd(t, lab, h, s, k[i]);
    LeadsLabel(t, lab, k[..i], h);
    assert NodeOk(t, lab, s);
    hide Labelled, Leads, Passing, Entered, Prefixes, Tree;
    forall c: Char
      ensures k[..i] + [c] !in Prefixes(words)
    {
      NoState(t, lab, out, words, k[..i], h, c);
    }
    assert k[..i + 1] == k[..i] + [k[i]];
  }

  /** or at the last node of a state that has others. */
  lemma LeavesLast(t: Trie, lab: seq<seq<Char>>, out: seq<bool>, words: set<seq<Char>>, k: seq<Char>, i: nat,
                   h: nat, s: nat)
    requires Labelled(t, lab) && Fits(t, lab, words) && forall w :: w in words ==> Entered(t, lab, out, w)
    requires i < |k| && Leads(t, lab, k[..i], h) && Passing(t, lab, h, s, k[i]) && s < |lab|
    requires t.inp[s] != 0 && t.inp[s] != k[i] && t.link[s] == 0
    ensures Leaving(words, k, i) && Extended(words, k[..i])
  {
    PassingEdge(t, lab, h, s, k[i]);
    LeadsLabel(t, lab, k[..i], h);
    assert NodeOk(t, lab, s);
    assert Edge(t, lab, s, k[i]) == 0;
    hide Labelled, Leads, Passing, Entered, Prefixes, Tree, Edge;
    NoState(t, lab, out, words, k[..i], h, k[i]);
    assert k[..i + 1] == k[..i] + [k[i]];
    var c: Char := t.inp[s];
    assert lab[t.nst[s]] == k[..i] + [c];
  }

  lemma FitsNone()
    ensures Fits(Trie([0], [0], [0]), [[]], {})
  {
    NoPrefixes();
    var t := Trie([0], [0], [0]);
    EdgesLast([]);
    assert t.inp == [] + [0] && Edges(t.inp) == 0;
    hide Need, Edges, Prefixes;
    FitsWhen(t, [[]], {});
  }

  lemma FitsSize(t: Trie, lab: seq<seq<Char>>, words: set<seq<Char>>)
    requires Fits(t, lab, words)
    ensures |lab| == Need(words) <= MAXSIZ && (words == {} ==> |lab| == 1)
  {
    NoPrefixes();
  }

  lemma PassingLabel(t: Trie, lab: seq<seq<Char>>, p: seq<Char>, h: nat, s: nat, c: Char)
    requires Labelled(t, lab) && Leads(t, lab, p, h) && Passing(t, lab, h, s, c)
    ensures s < |lab| && lab[s] == p
  {
    hide Labelled;
    PassingEdge(t, lab, h, s, c);
    LeadsLabel(t, lab, p, h);
  }

  lemma AlongChain(t: Trie, lab: seq<seq<Char>>, l: seq<seq<Char>>, u: Trie, k: seq<Char>, s: nat, d: nat)
    requires Along(t, lab, u, l, k, s, d) && |lab| == 1 && t.link[0] == 0
    ensures Chain(u)
  {
    hide Tree, Edges;
  }

  lemma CountsNew(t: Trie, lab: seq<seq<Char>>, words: set<seq<Char>>, k: seq<Char>, i: nat)
    requires Fits(t, lab, words) && Leaving(words, k, i)
    ensures Need(words + {k}) == |lab| + |k| - i + if Extended(words, k[..i]) then 1 else 0
    ensures |Prefixes(words + {k})| == Edges(t.inp) + |k| - i
  {
    LeavingInside(words, k, i);
    hide *;
    FitsParts(t, lab, words);
    PrefixesCount(words, k, i);
    NeedNew(words, k, i);
  }

  lemma FitsEmpty(t: Trie, lab: seq<seq<Char>>, l: seq<seq<Char>>, u: Trie, words: set<seq<Char>>, k: seq<Char>,
                  i: nat, s: nat, d: nat)
    requires Fits(t, lab, words) && Leaving(words, k, i) && !Extended(words, k[..i])
    requires Along(t, lab, u, l, k, s, d) && d == |k| - i && |l| <= MAXSIZ
    ensures Fits(u, l, words + {k})
  {
    LeavingInside(words, k, i);
    hide *;
    FitsParts(t, lab, words);
    FullBut(t, s);
    CountsNew(t, lab, words, k, i);
    FitsAfter(t, lab, u, l, words, k, s, d);
  }

  lemma FitsAfter(t: Trie, lab: seq<seq<Char>>, u: Trie, l: seq<seq<Char>>, words: set<seq<Char>>, k: seq<Char>,
                  s: nat, d: nat)
    requires Along(t, lab, u, l, k, s, d) && d > 0 && |l| <= MAXSIZ
    requires Tree(t) && |t.inp| == |t.link| && LabelsIn(lab, words) && LinksBut(t, s)
    requires Need(words + {k}) == |lab| + d && |Prefixes(words + {k})| == Edges(t.inp) + d
    ensures Fits(u, l, words + {k})
  {
    hide *;
    AlongLabels(t, lab, l, u, words, k, s, d);
    AlongFull(t, lab, l, u, k, s, d);
    AlongSizes(t, lab, l, u, k, s, d);
    FitsWhen(u, l, words + {k});
  }

  lemma FullBut(t: Trie, s: nat)
    requires |t.inp| == |t.link| && LinksFull(t)
    ensures LinksBut(t, s)
  {
  }

  lemma LeavingInside(words: set<seq<Char>>, k: seq<Char>, i: nat)
    requires Leaving(words, k, i)
    ensures i < |k|
  {
  }

  /** What Fits says, with its parts hidden. */
  lemma FitsParts(t: Trie, lab: seq<seq<Char>>, words: set<seq<Char>>)
    requires Fits(t, lab, words)
    ensures Tree(t) && |lab| == |t.inp| == |t.link| == Need(words) <= MAXSIZ && Edges(t.inp) == |Prefixes(words)|
    ensures LabelsIn(lab, words) && LinksFull(t)
  {
    hide Need, Edges, Prefixes;
  }

  lemma FitsWhen(t: Trie, lab: seq<seq<Char>>, words: set<seq<Char>>)
    requires Tree(t) && |lab| == |t.inp| == |t.link| == Need(words) && Need(words) <= MAXSIZ
    requires Edges(t.inp) == |Prefixes(words)| && LinksFull(t)
    requires LabelsIn(lab, words)
    ensures Fits(t, lab, words)
  {
    hide Need, Edges, Prefixes, Tree, LinksFull;
  }

  lemma FitsLast(t: Trie, lab: seq<seq<Char>>, l: seq<seq<Char>>, u: Trie, words: set<seq<Char>>, k: seq<Char>,
                 i: nat, s: nat, d: nat)
    requires Fits(t, lab, words) && Leaving(words, k, i) && Extended(words, k[..i]) && s < |lab|
    requires Along(WithLink(t, s), lab + [k[..i]], u, l, k, |lab|, d) && d == |k| - i && |l| <= MAXSIZ
    ensures Fits(u, l, words + {k})
  {
    LinkParts(t, s);
    LinkLabels(lab, words, k, i);
    LeavingInside(words, k, i);
    hide *;
    FitsParts(t, lab, words);
    FitsLinked(t, lab, WithLink(t, s), lab + [k[..i]], l, u, words, k, i, d);
  }

  lemma FitsLinked(t: Trie, lab: seq<seq<Char>>, v: Trie, m: seq<seq<Char>>, l: seq<seq<Char>>, u: Trie,
                   words: set<seq<Char>>, k: seq<Char>, i: nat, d: nat)
    requires Fits(t, lab, words) && Leaving(words, k, i) && Extended(words, k[..i]) && |m| == |lab| + 1
    requires Tree(v) && |v.inp| == |v.link| && Edges(v.inp) == Edges(t.inp)
    requires LinksBut(v, |lab|) && LabelsIn(m, words)
    requires Along(v, m, u, l, k, |lab|, d) && d == |k| - i && |l| <= MAXSIZ
    ensures Fits(u, l, words + {k})
  {
    LeavingInside(words, k, i);
    hide *;
    CountsNew(t, lab, words, k, i);
    FitsAfter(v, m, u, l, words, k, |lab|, d);
  }

  lemma LinkLabels(lab: seq<seq<Char>>, words: set<seq<Char>>, k: seq<Char>, i: nat)
    requires Leaving(words, k, i) && LabelsIn(lab, words)
    ensures LabelsIn(lab + [k[..i]], words)
  {
    hide Prefixes;
  }

  lemma LinkParts(t: Trie, s: nat)
    requires Tree(t) && |t.inp| == |t.link| && LinksFull(t) && s < |t.inp|
    ensures var v := WithLink(t, s);
      Tree(v) && |v.inp| == |v.link| == |t.inp| + 1 && Edges(v.inp) == Edges(t.inp) && LinksBut(v, |t.inp|)
  {
    TreeLink(t, s);
    EdgesLast(t.inp);
    hide Edges;
  }

  lemma AlongLabels(t: Trie, lab: seq<seq<Char>>, l: seq<seq<Char>>, u: Trie, words: set<seq<Char>>, k: seq<Char>,
                    s: nat, d: nat)
    requires Along(t, lab, u, l, k, s, d) && LabelsIn(lab, words)
    ensures LabelsIn(l, words + {k})
  {
    hide Prefixes, Tree, Edges;
    forall i | 0 <= i < |l|
      ensures l[i] == [] || l[i] in Prefixes(words + {k})
    {
      OneWord(words, k, l[i]);
    }
  }

  lemma AlongFull(t: Trie, lab: seq<seq<Char>>, l: seq<seq<Char>>, u: Trie, k: seq<Char>, s: nat, d: nat)
    requires Along(t, lab, u, l, k, s, d) && d > 0 && LinksBut(t, s)
    ensures LinksFull(u)
  {
    hide Tree, Edges;
  }

  lemma AlongSizes(t: Trie, lab: seq<seq<Char>>, l: seq<seq<Char>>, u: Trie, k: seq<Char>, s: nat, d: nat)
    requires Along(t, lab, u, l, k, s, d)
    ensures |l| == |u.inp| == |u.nst| == |u.link| == |lab| + d && Edges(u.inp) == Edges(t.inp) + d
    ensures Tree(t) ==> Tree(u)
  {
    hide Tree, Edges;
  }

  lemma FitsOld(t: Trie, lab: seq<seq<Char>>, words: set<seq<Char>>, k: seq<Char>, m: nat)
    requires Fits(t, lab, words) && m < |lab| && lab[m] == k != []
    ensures Fits(t, lab, words + {k}) && Need(words + {k}) == |lab|
  {
    NeedOld(words, k);
  }

  // The states that are queued.

  /** How many states are queued for a node and those below and beside it. */
  ghost function Puts(t: Trie, lab: seq<seq<Char>>, i: nat): nat
    requires Labelled(t, lab) && i < |lab|
    decreases |lab| - i
  {
    assert NodeOk(t, lab, i);
    (if t.inp[i] != 0 then 1 + Puts(t, lab, t.nst[i]) else 0) + if t.link[i] != 0 then Puts(t, lab, t.link[i]) else 0
  }

  /** The nodes below and beside a node. */
  ghost function Below(t: Trie, lab: seq<seq<Char>>, i: nat): set<nat>
    requires Labelled(t, lab) && i < |lab|
    decreases |lab| - i
  {
    assert NodeOk(t, lab, i);
    {i} + (if t.inp[i] != 0 then Below(t, lab, t.nst[i]) else {}) +
    if t.link[i] != 0 then Below(t, lab, t.link[i]) else {}
  }

  lemma {:induction false} BelowAfter(t: Trie, lab: seq<seq<Char>>, i: nat)
    requires Labelled(t, lab) && i < |lab|
    ensures i in Below(t, lab, i) && forall x :: x in Below(t, lab, i) ==> i <= x < |lab|
    decreases |lab| - i
  {
    assert NodeOk(t, lab, i);
    if t.inp[i] != 0 {
      BelowAfter(t, lab, t.nst[i]);
    }
    if t.link[i] != 0 {
      BelowAfter(t, lab, t.link[i]);
    }
  }

  ghost predicate PointsAt(t: Trie, p: nat, x: nat)
    requires |t.nst| == |t.link|
  {
    p < |t.nst| && x != 0 && (t.nst[p] == x || t.link[p] == x)
  }

  lemma {:induction false} BelowParent(t: Trie, lab: seq<seq<Char>>, i: nat, x: nat) returns (p: nat)
    requires Labelled(t, lab) && i < |lab| && x in Below(t, lab, i) && x != i
    ensures p in Below(t, lab, i) && PointsAt(t, p, x)
    decreases |lab| - i
  {
    assert NodeOk(t, lab, i);
    if t.inp[i] != 0 && x in Below(t, lab, t.nst[i]) {
      if x == t.nst[i] {
        p := i;
      } else {
        p := BelowParent(t, lab, t.nst[i], x);
      }
    } else {
      if x == t.link[i] {
        p := i;
      } else {
        p := BelowParent(t, lab, t.link[i], x);
      }
    }
  }

  lemma OneParent(t: Trie, p: nat, q: nat, x: nat)
    requires Tree(t) && PointsAt(t, p, x) && PointsAt(t, q, x)
    ensures p == q
  {
  }

  /** What is below a node is not beside it. */
  lemma {:induction false} BelowApart(t: Trie, lab: seq<seq<Char>>, i: nat, x: nat)
    requires Labelled(t, lab) && Tree(t) && i < |lab| && t.inp[i] != 0 && t.link[i] != 0
    requires i < t.nst[i] < |lab| && i < t.link[i] < |lab| && x in Below(t, lab, t.nst[i])
    ensures x !in Below(t, lab, t.link[i])
    decreases x
  {
    var a, b := t.nst[i], t.link[i];
    assert PointsAt(t, i, a) && PointsAt(t, i, b) && a != b;
    hide Tree, Labelled;
    if x in Below(t, lab, b) {
      BelowAfter(t, lab, a);
      BelowAfter(t, lab, b);
      if x == a {
        var q := BelowParent(t, lab, b, x);
        OneParent(t, i, q, x);
      } else if x == b {
        var q := BelowParent(t, lab, a, x);
        OneParent(t, i, q, x);
      } else {
        var p := BelowParent(t, lab, a, x);
        var q := BelowParent(t, lab, b, x);
        OneParent(t, p, q, x);
        PointsOn(t, lab, p, x);
        BelowApart(t, lab, i, p);
      }
    }
  }

  lemma PointsOn(t: Trie, lab: seq<seq<Char>>, p: nat, x: nat)
    requires Labelled(t, lab) && PointsAt(t, p, x)
    ensures p < x
  {
    assert NodeOk(t, lab, p);
  }

  ghost function WithEdges(t: Trie, s: set<nat>): set<nat> {
    set x | x in s && x < |t.inp| && t.inp[x] != 0
  }

  lemma {:induction false} PutsBelow(t: Trie, lab: seq<seq<Char>>, i: nat)
    requires Labelled(t, lab) && Tree(t) && i < |lab|
    ensures Puts(t, lab, i) == |WithEdges(t, Below(t, lab, i))|
    decreases |lab| - i
  {
    assert NodeOk(t, lab, i);
    assert Puts(t, lab, i) == (if t.inp[i] != 0 then 1 + Puts(t, lab, t.nst[i]) else 0) +
                              if t.link[i] != 0 then Puts(t, lab, t.link[i]) else 0;
    var a := if t.inp[i] != 0 then Below(t, lab, t.nst[i]) else {};
    var b := if t.link[i] != 0 then Below(t, lab, t.link[i]) else {};
    assert Below(t, lab, i) == {i} + a + b;
    assert i < |t.inp|;
    assert (t.inp[i] != 0 ==> i < t.nst[i] < |lab|) && (t.link[i] != 0 ==> i < t.link[i] < |lab|);
    hide *;
    NoneWith(t);
    if t.inp[i] != 0 {
      PutsBelow(t, lab, t.nst[i]);
      BelowAfter(t, lab, t.nst[i]);
    }
    if t.link[i] != 0 {
      PutsBelow(t, lab, t.link[i]);
      BelowAfter(t, lab, t.link[i]);
    }
    forall x | x in a
      ensures x !in b
    {
      if t.inp[i] != 0 && t.link[i] != 0 {
        BelowApart(t, lab, i, x);
      }
    }
    assert i !in a && i !in b;
    WithUnion(t, i, a, b);
  }

  lemma NoneWith(t: Trie)
    ensures WithEdges(t, {}) == {}
  {
  }

  lemma WithUnion(t: Trie, i: nat, a: set<nat>, b: set<nat>)
    requires a !! b && i !in a && i !in b && i < |t.inp|
    ensures |WithEdges(t, {i} + a + b)| ==
      |WithEdges(t, a)| + |WithEdges(t, b)| + if t.inp[i] != 0 then 1 else 0
  {
    var e, f, g := WithEdges(t, a), WithEdges(t, b), if t.inp[i] != 0 then {i} else {};
    assert WithEdges(t, {i} + a + b) == g + e + f;
    assert g !! e && g !! f && e !! f;
    hide WithEdges;
    Sum(g, e, f);
  }

  lemma Sum(r: set<nat>, s: set<nat>, t: set<nat>)
    requires r !! s && r !! t && s !! t
    ensures |r + s + t| == |r| + |s| + |t|
  {
    assert r + s !! t;
    assert |r + s + t| == |r + s| + |t|;
  }

  lemma {:induction false} EdgesAre(inp: seq<int>)
    ensures Edges(inp) == |set x: nat | x < |inp| && inp[x] != 0|
  {
    if inp != [] {
      var n := |inp| - 1;
      EdgesAre(inp[..n]);
      var s, r := set x: nat | x < n && inp[..n][x] != 0, set x: nat | x < |inp| && inp[x] != 0;
      assert r == s + if inp[n] != 0 then {n} else {};
    }
  }

  /** No more states are queued than there are edges. */
  lemma PutsFew(t: Trie, lab: seq<seq<Char>>)
    requires Labelled(t, lab) && Tree(t)
    ensures Puts(t, lab, 0) <= Edges(t.inp)
  {
    PutsBelow(t, lab, 0);
    EdgesAre(t.inp);
    var all := set x: nat | x < |t.inp| && t.inp[x] != 0;
    assert WithEdges(t, Below(t, lab, 0)) <= all;
    Subset(WithEdges(t, Below(t, lab, 0)), all);
  }

  lemma {:induction false} PutsEdge(t: Trie, lab: seq<seq<Char>>, h: nat, c: Char)
    requires Labelled(t, lab) && h < |lab| && Edge(t, lab, h, c) != 0
    ensures Puts(t, lab, h) >= 1 + Puts(t, lab, Edge(t, lab, h, c))
    decreases |lab| - h
  {
    assert NodeOk(t, lab, h);
    if t.inp[h] != c {
      PutsEdge(t, lab, t.link[h], c);
    }
  }

  /** At least as many are queued as a keyword has characters. */
  lemma {:induction false} PutsAlong(t: Trie, lab: seq<seq<Char>>, k: seq<Char>, m: nat)
    requires Labelled(t, lab) && Leads(t, lab, k, m)
    ensures m < |lab| && Puts(t, lab, 0) >= |k| + Puts(t, lab, m)
    decreases |k|
  {
    if k != [] {
      var h: nat :| LeadsVia(t, lab, k, m, h);
      PutsAlong(t, lab, k[..|k| - 1], h);
      PutsEdge(t, lab, h, k[|k| - 1]);
    }
  }

  /** No state has more than one edge. */
  predicate Chain(t: Trie) {
    forall i :: 0 <= i < |t.link| ==> t.link[i] == 0
  }

  lemma PrefixesOne(k: seq<Char>)
    requires k != []
    ensures |Prefixes({k})| == |k| && Need({k}) == |k| + 1
  {
    NoPrefixes();
    assert {} + {k} == {k};
    assert Leaving({}, k, 0);
    PrefixesNew({}, k, 0);
    NeedNew({}, k, 0);
    assert !Extended({}, k[..0]);
  }
}
