/** fgrep's keyword trie: nodes chained by link, with one edge each. */
module KeywordTrie {

  const MAXSIZ := 6000
  const NL := 10

  /** A character of a keyword or a text; 0 marks a node without an edge. */
  type Char = c: int | 0 < c < 256 witness 32

  /** The edges: node i leads over inp[i] to nst[i]; link[i] is the next node of the
      same state.  Node 0 is the root, and 0 in nst or link means none. */
  datatype Trie = Trie(inp: seq<int>, nst: seq<nat>, link: seq<nat>)

  /** The labels: what leads from the root to the state of a node. */
  ghost predicate Labelled(t: Trie, lab: seq<seq<Char>>) {
    && |lab| == |t.inp| == |t.nst| == |t.link| >= 1 && lab[0] == []
    && forall i :: 0 <= i < |lab| ==> NodeOk(t, lab, i)
  }

  ghost predicate NodeOk(t: Trie, lab: seq<seq<Char>>, i: nat)
    requires i < |lab| == |t.inp| == |t.nst| == |t.link|
  {
    && 0 <= t.inp[i] < 256
    && (t.inp[i] != 0 ==> i < t.nst[i] < |lab| && lab[t.nst[i]] == lab[i] + [t.inp[i]])
    && (t.link[i] != 0 ==> i < t.link[i] < |lab| && lab[t.link[i]] == lab[i])
    && (t.inp[i] == 0 ==> t.nst[i] == 0 && t.link[i] == 0)
  }

  /** Where the state of node i goes over c; 0 if nowhere. */
  ghost function Edge(t: Trie, lab: seq<seq<Char>>, i: nat, c: Char): (r: nat)
    requires Labelled(t, lab) && i < |lab|
    ensures r < |lab| && (r != 0 ==> lab[r] == lab[i] + [c])
    decreases |lab| - i
  {
    assert NodeOk(t, lab, i);
    if t.inp[i] == c then t.nst[i] else if t.link[i] == 0 then 0 else Edge(t, lab, t.link[i], c)
  }

  /** The walk from the root over a word gets to node m. */
  ghost predicate Leads(t: Trie, lab: seq<seq<Char>>, k: seq<Char>, m: nat)
    requires Labelled(t, lab)
    decreases |k|, 1
  {
    if k == [] then m == 0 else exists h: nat :: LeadsVia(t, lab, k, m, h)
  }

  ghost predicate LeadsVia(t: Trie, lab: seq<seq<Char>>, k: seq<Char>, m: nat, h: nat)
    requires Labelled(t, lab) && k != []
    decreases |k|, 0
  {
    h < |lab| && Leads(t, lab, k[..|k| - 1], h) && m != 0 && Edge(t, lab, h, k[|k| - 1]) == m
  }

  /** Node s is reached from h by links past nodes with other edges than c. */
  ghost predicate Passing(t: Trie, lab: seq<seq<Char>>, h: nat, s: nat, c: Char)
    requires Labelled(t, lab)
    decreases |lab| - h
  {
    && h < |lab|
    && (h == s ||
        (NodeOk(t, lab, h) && t.inp[h] != 0 && t.inp[h] != c && t.link[h] != 0 && Passing(t, lab, t.link[h], s, c)))
  }

  lemma {:induction false} PassingEdge(t: Trie, lab: seq<seq<Char>>, h: nat, s: nat, c: Char)
    requires Labelled(t, lab) && Passing(t, lab, h, s, c)
    ensures s < |lab| && lab[s] == lab[h] && Edge(t, lab, h, c) == Edge(t, lab, s, c)
    decreases |lab| - h
  {
    if h != s {
      PassingEdge(t, lab, t.link[h], s, c);
    }
  }

  lemma {:induction false} PassingOn(t: Trie, lab: seq<seq<Char>>, h: nat, s: nat, c: Char)
    requires Labelled(t, lab) && Passing(t, lab, h, s, c) && s < |lab|
    requires t.inp[s] != 0 && t.inp[s] != c && t.link[s] != 0
    ensures Passing(t, lab, h, t.link[s], c)
    decreases |lab| - h
  {
    assert NodeOk(t, lab, h);
    if h != s {
      PassingOn(t, lab, t.link[h], s, c);
    }
  }

  /** Nodes are only added: what was there stays. */
  ghost predicate Grown(t: Trie, lab: seq<seq<Char>>, t': Trie, lab': seq<seq<Char>>) {
    && Labelled(t, lab) && Labelled(t', lab')
    && |lab| <= |lab'| && lab == lab'[..|lab|]
    && forall i :: 0 <= i < |lab| ==> Stays(t, t', i)
  }

  ghost predicate Stays(t: Trie, t': Trie, i: nat)
    requires i < |t.inp| == |t.nst| == |t.link| && i < |t'.inp| == |t'.nst| == |t'.link|
  {
    && (t.inp[i] != 0 ==> t'.inp[i] == t.inp[i] && t'.nst[i] == t.nst[i])
    && (t.link[i] != 0 ==> t'.link[i] == t.link[i])
  }

  lemma {:induction false} EdgeStays(t: Trie, lab: seq<seq<Char>>, t': Trie, lab': seq<seq<Char>>, i: nat, c: Char)
    requires Grown(t, lab, t', lab') && i < |lab| && Edge(t, lab, i, c) != 0
    ensures Edge(t', lab', i, c) == Edge(t, lab, i, c)
    decreases |lab| - i
  {
    assert Stays(t, t', i) && NodeOk(t, lab, i);
    if t.inp[i] != c {
      EdgeStays(t, lab, t', lab', t.link[i], c);
    }
  }

  lemma {:induction false} LeadsStays(t: Trie, lab: seq<seq<Char>>, t': Trie, lab': seq<seq<Char>>, k: seq<Char>,
                                      m: nat)
    requires Grown(t, lab, t', lab') && Leads(t, lab, k, m)
    ensures Leads(t', lab', k, m)
    decreases |k|
  {
    if k != [] {
      var h: nat :| LeadsVia(t, lab, k, m, h);
      LeadsStays(t, lab, t', lab', k[..|k| - 1], h);
      EdgeStays(t, lab, t', lab', h, k[|k| - 1]);
      assert LeadsVia(t', lab', k, m, h);
    }
  }

  lemma {:induction false} PassingStays(t: Trie, lab: seq<seq<Char>>, t': Trie, lab': seq<seq<Char>>, h: nat, s: nat,
                                        c: Char)
    requires Grown(t, lab, t', lab') && Passing(t, lab, h, s, c)
    ensures Passing(t', lab', h, s, c)
    decreases |lab| - h
  {
    if h != s {
      assert Stays(t, t', h);
      PassingStays(t, lab, t', lab', t.link[h], s, c);
      assert NodeOk(t', lab', h);
    }
  }

  lemma LeadsLabel(t: Trie, lab: seq<seq<Char>>, k: seq<Char>, m: nat)
    requires Labelled(t, lab) && Leads(t, lab, k, m)
    ensures m < |lab| && lab[m] == k
    decreases |k|
  {
    if k != [] {
      var h: nat :| LeadsVia(t, lab, k, m, h);
      LeadsLabel(t, lab, k[..|k| - 1], h);
      assert k == k[..|k| - 1] + [k[|k| - 1]];
    }
  }

  /** A walk over one character more goes on from the one before. */
  lemma LeadsBack(t: Trie, lab: seq<seq<Char>>, k: seq<Char>, c: Char, m: nat) returns (h: nat)
    requires Labelled(t, lab) && Leads(t, lab, k + [c], m)
    ensures h < |lab| && Leads(t, lab, k, h) && m != 0 && Edge(t, lab, h, c) == m
  {
    var l := k + [c];
    assert l != [] && l[..|l| - 1] == k;
    h :| LeadsVia(t, lab, l, m, h);
  }

  // Adding a node.

  /** Node s gets an edge to a new node. */
  function WithEdge(t: Trie, s: nat, c: Char): Trie
    requires s < |t.inp| == |t.nst| == |t.link|
  {
    Trie(t.inp[s := c] + [0], t.nst[s := |t.inp|] + [0], t.link + [0])
  }

  lemma AddEdge(t: Trie, lab: seq<seq<Char>>, s: nat, c: Char)
    requires Labelled(t, lab) && s < |lab| && t.inp[s] == 0
    ensures Grown(t, lab, WithEdge(t, s, c), lab + [lab[s] + [c]])
  {
    var u, l := WithEdge(t, s, c), lab + [lab[s] + [c]];
    forall i | 0 <= i < |l|
      ensures NodeOk(u, l, i)
    {
      if i < |lab| {
        assert NodeOk(t, lab, i);
      }
    }
    hide NodeOk;
    assert l[..|lab|] == lab;
  }

  /** The state of node s gets another node. */
  function WithLink(t: Trie, s: nat): Trie
    requires s < |t.inp| == |t.nst| == |t.link|
  {
    Trie(t.inp + [0], t.nst + [0], t.link[s := |t.inp|] + [0])
  }

  lemma AddLink(t: Trie, lab: seq<seq<Char>>, s: nat)
    requires Labelled(t, lab) && s < |lab| && t.inp[s] != 0 && t.link[s] == 0
    ensures Grown(t, lab, WithLink(t, s), lab + [lab[s]])
  {
    var u, l := WithLink(t, s), lab + [lab[s]];
    forall i | 0 <= i < |l|
      ensures NodeOk(u, l, i)
    {
      if i < |lab| {
        assert NodeOk(t, lab, i);
      }
    }
    hide NodeOk;
    assert l[..|lab|] == lab;
  }

  // What is marked as the end of a keyword.

  /** The marked states are those of words. */
  ghost predicate Marks(lab: seq<seq<Char>>, out: seq<bool>, words: set<seq<Char>>) {
    |out| == |lab| && forall i :: 0 <= i < |lab| && out[i] ==> lab[i] in words
  }

  /** A search for the word ends in a marked state. */
  ghost predicate Entered(t: Trie, lab: seq<seq<Char>>, out: seq<bool>, k: seq<Char>)
    requires Labelled(t, lab)
  {
    exists m: nat :: m < |out| && out[m] && Leads(t, lab, k, m)
  }

  lemma EnteredStays(t: Trie, lab: seq<seq<Char>>, out: seq<bool>, t': Trie, lab': seq<seq<Char>>, out': seq<bool>,
                     k: seq<Char>)
    requires Grown(t, lab, t', lab') && Entered(t, lab, out, k) && |out| <= |out'|
    requires forall i :: 0 <= i < |out| && out[i] ==> out'[i]
    ensures Entered(t', lab', out', k)
  {
    var m: nat :| m < |out| && out[m] && Leads(t, lab, k, m);
    LeadsStays(t, lab, t', lab', k, m);
  }

  lemma OneMore(k: seq<Char>, i: nat)
    requires i < |k|
    ensures k[..i + 1] != [] && k[..i + 1][..i] == k[..i] && k[..i + 1][i] == k[i] && |k[..i + 1]| == i + 1
    ensures k[..i + 1] == k[..i] + [k[i]]
  {
  }

  /** A walk that goes on over the edge of node s. */
  lemma LeadsOn(t: Trie, lab: seq<seq<Char>>, k: seq<Char>, i: nat, h: nat, s: nat)
    requires Labelled(t, lab) && i < |k| && Leads(t, lab, k[..i], h) && Passing(t, lab, h, s, k[i]) && s < |lab|
    requires t.inp[s] == k[i]
    ensures t.nst[s] != 0 && Leads(t, lab, k[..i + 1], t.nst[s]) && t.nst[s] < |lab|
  {
    PassingEdge(t, lab, h, s, k[i]);
    assert NodeOk(t, lab, s);
    OneMore(k, i);
    hide Edge;
    assert Edge(t, lab, s, k[i]) == t.nst[s] by {
      EdgeHere(t, lab, s, k[i]);
    }
    assert LeadsVia(t, lab, k[..i + 1], t.nst[s], h);
  }

  lemma EdgeHere(t: Trie, lab: seq<seq<Char>>, s: nat, c: Char)
    requires Labelled(t, lab) && s < |lab| && t.inp[s] == c
    ensures Edge(t, lab, s, c) == t.nst[s]
  {
  }

  lemma GrownSame(t: Trie, lab: seq<seq<Char>>)
    requires Labelled(t, lab)
    ensures Grown(t, lab, t, lab)
  {
    hide NodeOk;
    assert lab == lab[..|lab|];
  }

  lemma GrownThen(t: Trie, l: seq<seq<Char>>, t': Trie, l': seq<seq<Char>>, u: Trie, m: seq<seq<Char>>)
    requires Grown(t, l, t', l') && Grown(t', l', u, m)
    ensures Grown(t, l, u, m)
  {
    hide NodeOk;
    assert m[..|l|] == m[..|l'|][..|l|];
    forall i | 0 <= i < |l|
      ensures Stays(t, u, i)
    {
      assert Stays(t, t', i) && Stays(t', u, i);
    }
  }

  /** The end of a walk whose last steps were made new: one step. */
  lemma NewStep(t: Trie, lab: seq<seq<Char>>, k: seq<Char>, i: nat, h: nat, s: nat)
    requires Labelled(t, lab) && i < |k| && Leads(t, lab, k[..i], h) && Passing(t, lab, h, s, k[i]) && s < |lab|
    requires t.inp[s] == 0
    ensures var u, l := WithEdge(t, s, k[i]), lab + [lab[s] + [k[i]]];
      Grown(t, lab, u, l) && Labelled(u, l) && Leads(u, l, k[..i + 1], |lab|) && u.inp[|lab|] == 0
  {
    hide Leads, Passing, NodeOk;
    var u, l := WithEdge(t, s, k[i]), lab + [lab[s] + [k[i]]];
    AddEdge(t, lab, s, k[i]);
    LeadsStays(t, lab, u, l, k[..i], h);
    PassingStays(t, lab, u, l, h, s, k[i]);
    LeadsOn(u, l, k, i, h, s);
  }

  lemma NewLink(t: Trie, lab: seq<seq<Char>>, k: seq<Char>, i: nat, h: nat, s: nat)
    requires Labelled(t, lab) && i < |k| && Leads(t, lab, k[..i], h) && Passing(t, lab, h, s, k[i]) && s < |lab|
    requires t.inp[s] != 0 && t.inp[s] != k[i] && t.link[s] == 0
    ensures var u, l := WithLink(t, s), lab + [lab[s]];
      Grown(t, lab, u, l) && Labelled(u, l) && Leads(u, l, k[..i], h) &&
      Passing(u, l, h, |lab|, k[i]) && u.inp[|lab|] == 0
  {
    hide Leads, Passing, NodeOk;
    var u, l := WithLink(t, s), lab + [lab[s]];
    AddLink(t, lab, s);
    LeadsStays(t, lab, u, l, k[..i], h);
    PassingStays(t, lab, u, l, h, s, k[i]);
    PassingOn(u, l, h, s, k[i]);
  }

  /** The marks after a word was entered at node m. */
  lemma MarkWord(t: Trie, lab: seq<seq<Char>>, out: seq<bool>, t': Trie, lab': seq<seq<Char>>, m: nat, k: seq<Char>,
                 words: set<seq<Char>>)
    requires Grown(t, lab, t', lab') && |out| == |lab| && m < |lab'| && Leads(t', lab', k, m) && Marks(lab, out, words)
    ensures Marks(lab', Marked(out, |lab'|, m), words + {k}) && Entered(t', lab', Marked(out, |lab'|, m), k)
    ensures forall w :: Entered(t, lab, out, w) ==> Entered(t', lab', Marked(out, |lab'|, m), w)
  {
    var o := Marked(out, |lab'|, m);
    LeadsLabel(t', lab', k, m);
    forall i | 0 <= i < |lab'| && o[i]
      ensures lab'[i] in words + {k}
    {
      assert i < |lab| ==> lab'[i] == lab'[..|lab|][i];
    }
    hide NodeOk, Leads;
    forall w | Entered(t, lab, out, w)
      ensures Entered(t', lab', o, w)
    {
      EnteredStays(t, lab, out, t', lab', o, w);
    }
  }

  function Marked(out: seq<bool>, n: nat, m: nat): (o: seq<bool>)
    requires |out| <= n && m < n
    ensures |o| == n && forall i :: 0 <= i < n ==> o[i] == (i == m || (i < |out| && out[i]))
  {
    seq(n, i requires 0 <= i < n => i == m || (i < |out| && out[i]))
  }

  ghost function WordSet(s: seq<seq<Char>>): set<seq<Char>> {
    set w | w in s
  }

  lemma NoWords()
    ensures WordSet([]) == {}
  {
  }

  lemma OneWordMore(s: seq<seq<Char>>, i: nat)
    requires i < |s|
    ensures WordSet(s[..i + 1]) == WordSet(s[..i]) + {s[i]}
  {
    assert s[..i + 1] == s[..i] + [s[i]];
  }

  /** The table after a keyword was entered at a new node. */
  lemma Finish(t: Trie, lab: seq<seq<Char>>, out: seq<bool>, t': Trie, lab': seq<seq<Char>>, out': seq<bool>,
               words: set<seq<Char>>, k: seq<Char>)
    requires Grown(t, lab, t', lab') && |lab'| > |lab| == |out| && Leads(t', lab', k, |lab'| - 1)
    requires out' == Marked(out, |lab'|, |lab'| - 1)
    requires Marks(lab, out, words) && forall w :: w in words ==> Entered(t, lab, out, w)
    ensures Labelled(t', lab') && Marks(lab', out', words + {k})
    ensures forall w :: w in words + {k} ==> Entered(t', lab', out', w)
  {
    MarkWord(t, lab, out, t', lab', |lab'| - 1, k, words);
    hide Labelled, Leads, Marks, Entered;
  }

  lemma RootLeads(t: Trie, lab: seq<seq<Char>>, k: seq<Char>)
    requires Labelled(t, lab) && k != []
    ensures Leads(t, lab, k[..0], 0) && Passing(t, lab, 0, 0, k[0])
  {
  }

  lemma MarksSize(lab: seq<seq<Char>>, out: seq<bool>, words: set<seq<Char>>)
    requires Marks(lab, out, words)
    ensures |out| == |lab|
  {
  }

  lemma NodeFacts(t: Trie, lab: seq<seq<Char>>, s: nat)
    requires Labelled(t, lab) && s < |lab|
    ensures t.link[s] != 0 ==> s < t.link[s] < |lab|
    ensures t.inp[s] != 0 ==> s < t.nst[s] < |lab|
  {
    assert NodeOk(t, lab, s);
  }

  lemma LabelledSizes(t: Trie, lab: seq<seq<Char>>)
    requires Labelled(t, lab)
    ensures |lab| == |t.inp| == |t.nst| == |t.link| >= 1 && lab[0] == []
  {
  }

  lemma PassingStart(t: Trie, lab: seq<seq<Char>>, s: nat, c: Char)
    requires Labelled(t, lab) && s < |lab|
    ensures Passing(t, lab, s, s, c)
  {
  }
}
