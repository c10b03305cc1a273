/** fgrep's failure links: what each state's link is. */
module KeywordLinks {
  import opened KeywordTrie
  import opened KeywordCount

  /** Node i is of the state of node q, at or behind it. */
  ghost predicate InState(t: Trie, lab: seq<seq<Char>>, q: nat, i: nat)
    requires Labelled(t, lab)
    decreases |lab| - q
  {
    q < |lab| && (q == i || (NodeOk(t, lab, q) && t.link[q] != 0 && InState(t, lab, t.link[q], i)))
  }

  lemma {:induction false} StateLabel(t: Trie, lab: seq<seq<Char>>, q: nat, i: nat)
    requires Labelled(t, lab) && InState(t, lab, q, i)
    ensures q <= i < |lab| && lab[i] == lab[q]
    decreases |lab| - q
  {
    if q != i {
      StateLabel(t, lab, t.link[q], i);
    }
  }

  lemma {:induction false} StateEnd(t: Trie, lab: seq<seq<Char>>, q: nat, r: nat, i: nat)
    requires Labelled(t, lab) && InState(t, lab, q, r) && r < |lab| && t.link[r] == i != 0
    ensures InState(t, lab, q, i)
    decreases |lab| - q
  {
    assert NodeOk(t, lab, q);
    if q != r {
      StateEnd(t, lab, t.link[q], r, i);
    }
  }

  lemma {:induction false} LinkInto(t: Trie, lab: seq<seq<Char>>, q: nat, x: nat) returns (r: nat)
    requires Labelled(t, lab) && InState(t, lab, q, x) && q != x
    ensures InState(t, lab, q, r) && r < |lab| && t.link[r] == x != 0
    decreases |lab| - q
  {
    if t.link[q] == x {
      r := q;
    } else {
      r := LinkInto(t, lab, t.link[q], x);
    }
  }

  /** Of two nodes with a common one behind them, one is behind the other. */
  lemma {:induction false} StatesMeet(t: Trie, lab: seq<seq<Char>>, p: nat, q: nat, i: nat)
    requires Labelled(t, lab) && Tree(t) && InState(t, lab, p, i) && InState(t, lab, q, i)
    ensures InState(t, lab, p, q) || InState(t, lab, q, p)
    decreases |lab| - p
  {
    hide Tree;
    if p != i {
      var n := t.link[p];
      StatesMeet(t, lab, n, q, i);
      if InState(t, lab, q, n) && q != n {
        var r := LinkInto(t, lab, q, n);
        OneLink(t, p, r);
      }
    }
  }

  lemma OneLink(t: Trie, p: nat, r: nat)
    requires Tree(t) && p < |t.link| && r < |t.link| && t.link[p] == t.link[r] != 0
    ensures p == r
  {
  }

  lemma NotBoth(t: Trie, p: nat, r: nat)
    requires Tree(t) && p < |t.nst| && r < |t.link| && t.nst[p] != 0
    ensures t.nst[p] != t.link[r]
  {
  }

  /** Different nodes lead to different states. */
  lemma StatesApart(t: Trie, lab: seq<seq<Char>>, p: nat, q: nat, i: nat)
    requires Labelled(t, lab) && Tree(t) && p < |lab| && q < |lab| && p != q && t.nst[p] != 0 && t.nst[q] != 0
    requires InState(t, lab, t.nst[p], i)
    ensures !InState(t, lab, t.nst[q], i)
  {
    assert t.nst[p] != t.nst[q];
    hide Tree;
    if InState(t, lab, t.nst[q], i) {
      StatesMeet(t, lab, t.nst[p], t.nst[q], i);
      if InState(t, lab, t.nst[p], t.nst[q]) {
        var r := LinkInto(t, lab, t.nst[p], t.nst[q]);
        NotBoth(t, q, r);
      } else {
        var r := LinkInto(t, lab, t.nst[q], t.nst[p]);
        NotBoth(t, p, r);
      }
    }
  }

  /** Where a link from a state with link f leads over c: on from f, or else from the root. */
  ghost function Through(t: Trie, lab: seq<seq<Char>>, f: nat, c: Char): (r: nat)
    requires Labelled(t, lab)
    ensures r < |lab|
  {
    if 0 < f < |lab| && Edge(t, lab, f, c) != 0 then Edge(t, lab, f, c) else Edge(t, lab, 0, c)
  }

  /** The links of the state of q are set to g, and it is marked if g is; a link to the
      root is left as it is. */
  ghost predicate Relinked(t: Trie, lab: seq<seq<Char>>, q: nat, g: nat, fail: seq<nat>, out: seq<bool>,
                           fail': seq<nat>, out': seq<bool>)
    requires Labelled(t, lab)
  {
    && |fail| == |fail'| == |out| == |out'| == |lab| && g < |lab|
    && forall i :: 0 <= i < |lab| ==>
         if g != 0 && InState(t, lab, q, i) then fail'[i] == g && (out'[i] <==> out[i] || out[g])
         else fail'[i] == fail[i] && (out'[i] <==> out[i])
  }

  /** The same as far as node q, which is of that state. */
  ghost predicate RelinkedTo(t: Trie, lab: seq<seq<Char>>, q0: nat, q: nat, g: nat, fail: seq<nat>, out: seq<bool>,
                             fail': seq<nat>, out': seq<bool>)
    requires Labelled(t, lab)
  {
    && |fail| == |fail'| == |out| == |out'| == |lab| && g < |lab| && InState(t, lab, q0, q)
    && forall i :: 0 <= i < |lab| ==>
         if InState(t, lab, q0, i) && !InState(t, lab, q, i) then fail'[i] == g && (out'[i] <==> out[i] || out[g])
         else fail'[i] == fail[i] && (out'[i] <==> out[i])
  }

  lemma RelinkFirst(t: Trie, lab: seq<seq<Char>>, q: nat, g: nat, fail: seq<nat>, out: seq<bool>)
    requires Labelled(t, lab) && q < |lab| && g < |lab| == |fail| == |out|
    ensures RelinkedTo(t, lab, q, q, g, fail, out, fail, out)
  {
  }

  lemma RelinkNext(t: Trie, lab: seq<seq<Char>>, q0: nat, q: nat, g: nat, fail: seq<nat>, out: seq<bool>,
                   fail1: seq<nat>, out1: seq<bool>, fail': seq<nat>, out': seq<bool>)
    requires Labelled(t, lab) && RelinkedTo(t, lab, q0, q, g, fail, out, fail1, out1)
    requires q < |lab| && |lab[g]| < |lab[q]| && fail' == fail1[q := g]
    requires out' == if out1[g] then out1[q := true] else out1
    ensures t.link[q] == 0 && g != 0 ==> Relinked(t, lab, q0, g, fail, out, fail', out')
    ensures t.link[q] != 0 ==> RelinkedTo(t, lab, q0, t.link[q], g, fail, out, fail', out')
  {
    StateLabel(t, lab, q0, q);
    NotInside(t, lab, q0, g);
    assert out1[g] == out[g];
    StateSplit(t, lab, q);
    if t.link[q] != 0 {
      StateEnd(t, lab, q0, q, t.link[q]);
    }
    hide Labelled, InState;
  }

  lemma NotInside(t: Trie, lab: seq<seq<Char>>, q: nat, g: nat)
    requires Labelled(t, lab) && q < |lab| && g < |lab| && |lab[g]| < |lab[q]|
    ensures !InState(t, lab, q, g)
  {
    if InState(t, lab, q, g) {
      StateLabel(t, lab, q, g);
    }
  }

  lemma StateSplit(t: Trie, lab: seq<seq<Char>>, q: nat)
    requires Labelled(t, lab) && q < |lab|
    ensures t.link[q] == 0 ==> forall i: nat :: InState(t, lab, q, i) <==> i == q
    ensures t.link[q] != 0 ==> !InState(t, lab, t.link[q], q)
    ensures t.link[q] != 0 ==> forall i: nat :: InState(t, lab, q, i) <==> i == q || InState(t, lab, t.link[q], i)
  {
    assert NodeOk(t, lab, q);
    if t.link[q] != 0 && InState(t, lab, t.link[q], q) {
      StateLabel(t, lab, t.link[q], q);
    }
  }

  ghost predicate Linkable(t: Trie, lab: seq<seq<Char>>, s: nat)
    requires Labelled(t, lab)
  {
    s < |lab| && lab[s] != [] && 0 < t.inp[s] < 256
  }

  /** The links of the state that node s leads to are the ones that its own link gives. */
  ghost predicate LinkedOn(t: Trie, lab: seq<seq<Char>>, fail: seq<nat>, s: nat)
    requires Labelled(t, lab) && Linkable(t, lab, s) && |fail| == |lab|
  {
    forall i: nat :: i < |lab| && InState(t, lab, t.nst[s], i) ==> fail[i] == Through(t, lab, fail[s], t.inp[s])
  }

  ghost predicate NotYet(t: Trie, lab: seq<seq<Char>>, fail: seq<nat>, s: nat)
    requires Labelled(t, lab) && Linkable(t, lab, s) && |fail| == |lab|
  {
    forall i: nat :: i < |lab| && InState(t, lab, t.nst[s], i) ==> fail[i] == 0
  }

  /** States led to from a node done are linked, others not. */
  ghost predicate SoFar(t: Trie, lab: seq<seq<Char>>, fail: seq<nat>, done: set<nat>)
    requires Labelled(t, lab)
  {
    && |fail| == |lab|
    && (forall s: nat :: Linkable(t, lab, s) ==>
          if s in done then LinkedOn(t, lab, fail, s) else NotYet(t, lab, fail, s))
    && forall i: nat :: i < |lab| && |lab[i]| <= 1 ==> fail[i] == 0
  }

  /** One more state is linked; no node done has a label longer than s. */
  lemma LinkedMore(t: Trie, lab: seq<seq<Char>>, fail: seq<nat>, out: seq<bool>, fail': seq<nat>, out': seq<bool>,
                   done: set<nat>, s: nat)
    requires Labelled(t, lab) && Tree(t) && Linkable(t, lab, s) && SoFar(t, lab, fail, done)
    requires forall x :: x in done ==> x < |lab| && |lab[x]| <= |lab[s]|
    requires Relinked(t, lab, t.nst[s], Through(t, lab, fail[s], t.inp[s]), fail, out, fail', out')
    ensures SoFar(t, lab, fail', done + {s})
  {
    assert NodeOk(t, lab, s);
    hide Tree, InState, Through, Labelled, Linkable;
    forall x: nat | Linkable(t, lab, x)
      ensures if x in done + {s} then LinkedOn(t, lab, fail', x) else NotYet(t, lab, fail', x)
    {
      if x == s {
        LinkedNow(t, lab, fail, out, fail', out', s);
      } else {
        LinkedStays(t, lab, fail, out, fail', out', x, s, x in done);
      }
    }
    ShortStay(t, lab, fail, out, fail', out', s);
  }

  lemma LinkedNow(t: Trie, lab: seq<seq<Char>>, fail: seq<nat>, out: seq<bool>, fail': seq<nat>, out': seq<bool>,
                  s: nat)
    requires Labelled(t, lab) && Linkable(t, lab, s) && |fail| == |lab|
    requires LinkedOn(t, lab, fail, s) || NotYet(t, lab, fail, s)
    requires Relinked(t, lab, t.nst[s], Through(t, lab, fail[s], t.inp[s]), fail, out, fail', out')
    ensures |fail'| == |lab| && LinkedOn(t, lab, fail', s)
  {
    assert NodeOk(t, lab, s);
    SelfStays(t, lab, s);
    hide InState, Through, Labelled;
  }

  /** A node is not of the state it leads to. */
  lemma SelfStays(t: Trie, lab: seq<seq<Char>>, s: nat)
    requires Labelled(t, lab) && Linkable(t, lab, s)
    ensures t.nst[s] < |lab| && forall x: nat :: x < |lab| && |lab[x]| <= |lab[s]| ==> !InState(t, lab, t.nst[s], x)
  {
    assert NodeOk(t, lab, s);
    forall x: nat | x < |lab| && InState(t, lab, t.nst[s], x)
      ensures |lab[x]| > |lab[s]|
    {
      StateLabel(t, lab, t.nst[s], x);
    }
  }

  lemma LinkedStays(t: Trie, lab: seq<seq<Char>>, fail: seq<nat>, out: seq<bool>, fail': seq<nat>, out': seq<bool>,
                    x: nat, s: nat, linked: bool)
    requires Labelled(t, lab) && Tree(t) && Linkable(t, lab, s) && Linkable(t, lab, x) && x != s && |fail| == |lab|
    requires if linked then LinkedOn(t, lab, fail, x) && |lab[x]| <= |lab[s]| else NotYet(t, lab, fail, x)
    requires Relinked(t, lab, t.nst[s], Through(t, lab, fail[s], t.inp[s]), fail, out, fail', out')
    ensures |fail'| == |lab| && if linked then LinkedOn(t, lab, fail', x) else NotYet(t, lab, fail', x)
  {
    assert NodeOk(t, lab, s) && NodeOk(t, lab, x);
    SelfStays(t, lab, s);
    forall i: nat | i < |lab| && InState(t, lab, t.nst[x], i)
      ensures !InState(t, lab, t.nst[s], i)
    {
      StatesApart(t, lab, x, s, i);
    }
    hide InState, Through, Labelled, Tree;
  }

  lemma ShortStay(t: Trie, lab: seq<seq<Char>>, fail: seq<nat>, out: seq<bool>, fail': seq<nat>, out': seq<bool>,
                  s: nat)
    requires Labelled(t, lab) && Linkable(t, lab, s) && |fail| == |lab|
    requires forall i: nat :: i < |lab| && |lab[i]| <= 1 ==> fail[i] == 0
    requires Relinked(t, lab, t.nst[s], Through(t, lab, fail[s], t.inp[s]), fail, out, fail', out')
    ensures |fail'| == |lab| && forall i: nat :: i < |lab| && |lab[i]| <= 1 ==> fail'[i] == 0
  {
    SelfStays(t, lab, s);
    hide InState, Through, Labelled;
  }

  // The states queued, by the length of their labels.

  ghost predicate Waiting(t: Trie, lab: seq<seq<Char>>, queue: seq<nat>, s: nat)
    requires Labelled(t, lab)
  {
    exists x :: 0 <= x < |queue| && queue[x] < |lab| && s in Below(t, lab, queue[x])
  }

  /** Every node not done is to come: it is below or beside node s, if there is one, or
      below a state in the queue. */
  ghost predicate Covered(t: Trie, lab: seq<seq<Char>>, queue: seq<nat>, done: set<nat>, rest: set<nat>)
    requires Labelled(t, lab)
  {
    forall x: nat :: x < |lab| && x in Below(t, lab, 0) && lab[x] != [] ==>
      x in done || x in rest || Waiting(t, lab, queue, x)
  }

  /** The queue is in the order of depth, and what is done is not below depth d. */
  ghost predicate ByDepth(lab: seq<seq<Char>>, queue: seq<nat>, done: set<nat>, d: nat) {
    && (forall x :: 0 <= x < |queue| ==> queue[x] < |lab| && d <= |lab[queue[x]]| <= d + 1)
    && (forall x, y :: 0 <= x < y < |queue| ==> |lab[queue[x]]| <= |lab[queue[y]]|)
    && forall x :: x in done ==> x < |lab| && |lab[x]| <= d
  }

  lemma DepthTake(lab: seq<seq<Char>>, queue: seq<nat>, done: set<nat>, d: nat)
    requires ByDepth(lab, queue, done, d) && queue != []
    ensures queue[0] < |lab| && ByDepth(lab, queue[1..], done, |lab[queue[0]]|)
  {
  }

  lemma DepthPut(lab: seq<seq<Char>>, queue: seq<nat>, done: set<nat>, d: nat, s: nat, q: nat)
    requires ByDepth(lab, queue, done, d) && s < |lab| && |lab[s]| == d && q < |lab| && |lab[q]| == d + 1
    ensures ByDepth(lab, queue + [q], done + {s}, d)
  {
  }

  lemma BelowIs(t: Trie, lab: seq<seq<Char>>, s: nat)
    requires Labelled(t, lab) && s < |lab|
    ensures t.inp[s] != 0 ==> t.nst[s] < |lab|
    ensures t.link[s] != 0 ==> t.link[s] < |lab|
    ensures Below(t, lab, s) ==
      {s} + (if t.inp[s] != 0 then Below(t, lab, t.nst[s]) else {}) + BelowNext(t, lab, s)
  {
    assert NodeOk(t, lab, s);
  }

  /** The nodes beside node s. */
  ghost function BelowNext(t: Trie, lab: seq<seq<Char>>, s: nat): set<nat>
    requires Labelled(t, lab) && s < |lab|
  {
    assert NodeOk(t, lab, s);
    if t.link[s] != 0 then Below(t, lab, t.link[s]) else {}
  }

  lemma CoverTake(t: Trie, lab: seq<seq<Char>>, queue: seq<nat>, done: set<nat>)
    requires Labelled(t, lab) && Covered(t, lab, queue, done, {}) && queue != [] && queue[0] < |lab|
    ensures Covered(t, lab, queue[1..], done, Below(t, lab, queue[0]))
  {
    hide Labelled, Below;
    forall x: nat | Waiting(t, lab, queue, x)
      ensures x in Below(t, lab, queue[0]) || Waiting(t, lab, queue[1..], x)
    {
      var y :| 0 <= y < |queue| && queue[y] < |lab| && x in Below(t, lab, queue[y]);
      if y > 0 {
        assert queue[1..][y - 1] == queue[y];
      }
    }
  }

  lemma CoverPut(t: Trie, lab: seq<seq<Char>>, queue: seq<nat>, done: set<nat>, s: nat)
    requires Labelled(t, lab) && s < |lab| && Covered(t, lab, queue, done, Below(t, lab, s))
    ensures t.inp[s] == 0 ==> Covered(t, lab, queue, done + {s}, BelowNext(t, lab, s))
    ensures t.inp[s] != 0 ==> Covered(t, lab, queue + [t.nst[s]], done + {s}, BelowNext(t, lab, s))
  {
    BelowIs(t, lab, s);
    hide Labelled, Below, BelowNext;
    if t.inp[s] != 0 {
      var more := queue + [t.nst[s]];
      forall x: nat
        ensures Waiting(t, lab, queue, x) || x in Below(t, lab, t.nst[s]) ==> Waiting(t, lab, more, x)
      {
        assert more[|queue|] == t.nst[s];
        if y :| 0 <= y < |queue| && queue[y] < |lab| && x in Below(t, lab, queue[y]) {
          assert more[y] == queue[y];
        }
      }
    }
  }

  /** The states of the root are loaded first. */
  lemma CoverRoot(t: Trie, lab: seq<seq<Char>>, queue: seq<nat>, s: nat)
    requires Labelled(t, lab) && s < |lab| && lab[s] == [] && Covered(t, lab, queue, {}, Below(t, lab, s))
    ensures t.inp[s] == 0 ==> Covered(t, lab, queue, {}, BelowNext(t, lab, s))
    ensures t.inp[s] != 0 ==> Covered(t, lab, queue + [t.nst[s]], {}, BelowNext(t, lab, s))
  {
    CoverPut(t, lab, queue, {}, s);
    hide Below, BelowNext, Waiting;
  }

  /** In the end every state is linked as its parent's link says. */
  ghost predicate AllLinked(t: Trie, lab: seq<seq<Char>>, fail: seq<nat>)
    requires Labelled(t, lab)
  {
    && |fail| == |lab| && (forall i: nat :: i < |lab| && |lab[i]| <= 1 ==> fail[i] == 0)
    && forall s: nat :: Linkable(t, lab, s) && s in Below(t, lab, 0) ==> LinkedOn(t, lab, fail, s)
  }

  lemma LinkedEnd(t: Trie, lab: seq<seq<Char>>, fail: seq<nat>, done: set<nat>)
    requires Labelled(t, lab) && SoFar(t, lab, fail, done) && Covered(t, lab, [], done, {})
    ensures AllLinked(t, lab, fail)
  {
    hide Labelled, Below, LinkedOn, NotYet;
  }

  lemma LinkedStart(t: Trie, lab: seq<seq<Char>>, fail: seq<nat>)
    requires Labelled(t, lab) && |fail| == |lab| && forall i :: 0 <= i < |fail| ==> fail[i] == 0
    ensures SoFar(t, lab, fail, {})
  {
    hide Labelled, InState;
  }

  // All of it together.

  ghost predicate Linking(t: Trie, lab: seq<seq<Char>>, fail: seq<nat>, queue: seq<nat>, done: set<nat>,
                          rest: set<nat>, d: nat)
  {
    && Labelled(t, lab) && Tree(t) && SoFar(t, lab, fail, done) && Covered(t, lab, queue, done, rest)
    && ByDepth(lab, queue, done, d)
  }

  /** The root's states are in the queue, in any order. */
  ghost predicate RootLoaded(t: Trie, lab: seq<seq<Char>>, queue: seq<nat>, rest: set<nat>)
  {
    Labelled(t, lab) && Covered(t, lab, queue, {}, rest) && ByDepth(lab, queue, {}, 0)
  }

  lemma RootFirst(t: Trie, lab: seq<seq<Char>>)
    requires Labelled(t, lab)
    ensures RootLoaded(t, lab, [], Below(t, lab, 0))
  {
  }

  lemma RootNext(t: Trie, lab: seq<seq<Char>>, queue: seq<nat>, s: nat)
    requires Labelled(t, lab) && s < |lab| && lab[s] == [] && RootLoaded(t, lab, queue, Below(t, lab, s))
    ensures RootLoaded(t, lab, if t.inp[s] == 0 then queue else queue + [t.nst[s]], BelowNext(t, lab, s))
  {
    assert NodeOk(t, lab, s);
    hide Covered, Labelled, ByDepth;
    CoverRoot(t, lab, queue, s);
    if t.inp[s] != 0 {
      DepthRoot(lab, queue, s, t.nst[s]);
    }
  }

  lemma DepthRoot(lab: seq<seq<Char>>, queue: seq<nat>, s: nat, q: nat)
    requires ByDepth(lab, queue, {}, 0) && s < |lab| && lab[s] == [] && q < |lab| && |lab[q]| == 1
    ensures ByDepth(lab, queue + [q], {}, 0)
  {
    DepthPut(lab, queue, {}, 0, s, q);
  }

  lemma NextIs(t: Trie, lab: seq<seq<Char>>, s: nat)
    requires Labelled(t, lab) && s < |lab|
    ensures t.link[s] < |lab|
    ensures BelowNext(t, lab, s) == if t.link[s] != 0 then Below(t, lab, t.link[s]) else {}
  {
    assert NodeOk(t, lab, s);
  }

  lemma StartLinking(t: Trie, lab: seq<seq<Char>>, fail: seq<nat>, queue: seq<nat>)
    requires RootLoaded(t, lab, queue, {}) && SoFar(t, lab, fail, {}) && Tree(t)
    ensures Linking(t, lab, fail, queue, {}, {}, 0)
  {
  }

  lemma TakeLinking(t: Trie, lab: seq<seq<Char>>, fail: seq<nat>, queue: seq<nat>, done: set<nat>, d: nat)
    requires Linking(t, lab, fail, queue, done, {}, d) && queue != []
    ensures queue[0] < |lab| && Labelled(t, lab)
    ensures Linking(t, lab, fail, queue[1..], done, Below(t, lab, queue[0]), |lab[queue[0]]|)
  {
    hide Covered, Labelled, Tree, SoFar;
    DepthTake(lab, queue, done, d);
    CoverTake(t, lab, queue, done);
    hide ByDepth;
  }

  /** A node without an edge is passed over. */
  lemma PassLinking(t: Trie, lab: seq<seq<Char>>, fail: seq<nat>, queue: seq<nat>, done: set<nat>, s: nat, d: nat)
    requires Labelled(t, lab) && s < |lab| && |lab[s]| == d && t.inp[s] == 0
    requires Linking(t, lab, fail, queue, done, Below(t, lab, s), d)
    ensures Linking(t, lab, fail, queue, done + {s}, BelowNext(t, lab, s), d)
  {
    CoverPut(t, lab, queue, done, s);
    hide Covered, Labelled, Tree, LinkedOn, NotYet;
  }

  lemma PutLinking(t: Trie, lab: seq<seq<Char>>, fail: seq<nat>, out: seq<bool>, fail': seq<nat>, out': seq<bool>,
                   queue: seq<nat>, done: set<nat>, s: nat, d: nat)
    requires Labelled(t, lab) && s < |lab| && |lab[s]| == d && lab[s] != [] && t.inp[s] != 0
    requires Linking(t, lab, fail, queue, done, Below(t, lab, s), d)
    requires 0 < t.inp[s] < 256
    requires Relinked(t, lab, t.nst[s], Through(t, lab, fail[s], t.inp[s]), fail, out, fail', out')
    ensures Linking(t, lab, fail', queue + [t.nst[s]], done + {s}, BelowNext(t, lab, s), d)
  {
    assert NodeOk(t, lab, s);
    assert ByDepth(lab, queue, done, d);
    hide Covered, Labelled, Tree, SoFar, Relinked, Through;
    CoverPut(t, lab, queue, done, s);
    DepthPut(lab, queue, done, d, s, t.nst[s]);
    LinkedMore(t, lab, fail, out, fail', out', done, s);
    hide ByDepth;
  }

  lemma EndLinking(t: Trie, lab: seq<seq<Char>>, fail: seq<nat>, done: set<nat>, d: nat)
    requires Linking(t, lab, fail, [], done, {}, d)
    ensures Labelled(t, lab) && AllLinked(t, lab, fail)
  {
    hide Covered, Labelled, Tree, SoFar, ByDepth;
    LinkedEnd(t, lab, fail, done);
  }
}
