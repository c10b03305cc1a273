/** fgrep: keywords, failure links, and the lines that hold a keyword. */
module Fgrep {
  import opened KeywordTrie
  import opened KeywordCount
  import opened KeywordLinks

  ghost predicate Suffix(a: seq<Char>, b: seq<Char>) {
    |a| <= |b| && b[|b| - |a|..] == a
  }

  lemma SuffixSelf(a: seq<Char>)
    ensures Suffix(a, a) && Suffix([], a)
  {
  }

  lemma SuffixThen(a: seq<Char>, b: seq<Char>, c: seq<Char>)
    requires Suffix(a, b) && Suffix(b, c)
    ensures Suffix(a, c)
  {
    assert c[|c| - |a|..] == c[|c| - |b|..][|b| - |a|..];
  }

  lemma SuffixOn(a: seq<Char>, b: seq<Char>, c: Char)
    requires Suffix(a, b)
    ensures Suffix(a + [c], b + [c])
  {
    assert (b + [c])[|b| - |a|..] == b[|b| - |a|..] + [c];
  }

  /** A failure link leads to a shorter state whose label ends that of its own. */
  ghost predicate Fails(lab: seq<seq<Char>>, fail: seq<nat>) {
    |fail| == |lab| && forall i :: 0 <= i < |lab| && fail[i] != 0 ==> FailOk(lab, i, fail[i])
  }

  ghost predicate FailOk(lab: seq<seq<Char>>, i: nat, f: nat) {
    i < |lab| && f < |lab| && |lab[f]| < |lab[i]| && Suffix(lab[f], lab[i])
  }

  /** The label of a marked state ends with a keyword. */
  ghost predicate Ends(lab: seq<seq<Char>>, out: seq<bool>, words: set<seq<Char>>) {
    |out| == |lab| && forall i :: 0 <= i < |lab| && out[i] ==> EndsWord(lab[i], words)
  }

  ghost predicate EndsWord(s: seq<Char>, words: set<seq<Char>>) {
    exists w :: w in words && Suffix(w, s)
  }

  /** Every state marked before is marked. */
  ghost predicate Kept(a: seq<bool>, b: seq<bool>) {
    |a| == |b| && forall i :: 0 <= i < |a| && a[i] ==> b[i]
  }

  lemma KeptSame(a: seq<bool>)
    ensures Kept(a, a)
  {
  }

  lemma KeptThen(a: seq<bool>, b: seq<bool>, c: seq<bool>)
    requires Kept(a, b) && Kept(b, c)
    ensures Kept(a, c)
  {
  }

  lemma FirstOf(x: nat, rest: seq<nat>, all: seq<nat>)
    requires [x] + rest == all
    ensures all != [] && all[0] == x && all[1..] == rest
  {
  }

  lemma MarksEnd(lab: seq<seq<Char>>, out: seq<bool>, words: set<seq<Char>>)
    requires Marks(lab, out, words)
    ensures Ends(lab, out, words)
  {
    forall i | 0 <= i < |lab| && out[i]
      ensures EndsWord(lab[i], words)
    {
      SuffixSelf(lab[i]);
    }
  }

  lemma EndsOn(a: seq<Char>, b: seq<Char>, words: set<seq<Char>>)
    requires EndsWord(a, words) && Suffix(a, b)
    ensures EndsWord(b, words)
  {
    var w :| w in words && Suffix(w, a);
    SuffixThen(w, a, b);
  }

  /** The nodes below and beside a node. */
  ghost function Size(t: Trie, lab: seq<seq<Char>>, i: nat): nat
    requires Labelled(t, lab) && i < |lab|
    decreases |lab| - i
  {
    assert NodeOk(t, lab, i);
    1 + (if t.inp[i] != 0 then Size(t, lab, t.nst[i]) else 0) + if t.link[i] != 0 then Size(t, lab, t.link[i]) else 0
  }

  /** The states still to be looked at. */
  ghost predicate Queued(lab: seq<seq<Char>>, queue: seq<nat>) {
    forall x :: 0 <= x < |queue| ==> queue[x] < |lab| && lab[queue[x]] != []
  }

  ghost function Load(t: Trie, lab: seq<seq<Char>>, queue: seq<nat>): nat
    requires Labelled(t, lab) && Queued(lab, queue)
  {
    if queue == [] then 0 else Size(t, lab, queue[0]) + Load(t, lab, queue[1..])
  }

  lemma {:induction false} LoadMore(t: Trie, lab: seq<seq<Char>>, queue: seq<nat>, q: nat)
    requires Labelled(t, lab) && Queued(lab, queue) && q < |lab| && lab[q] != []
    ensures Queued(lab, queue + [q]) && Load(t, lab, queue + [q]) == Load(t, lab, queue) + Size(t, lab, q)
  {
    if queue == [] {
      assert [] + [q] == [q] && [q][1..] == [];
    } else {
      LoadMore(t, lab, queue[1..], q);
      assert (queue + [q])[1..] == queue[1..] + [q];
      hide Size, Labelled;
    }
  }

  const QSIZE := 400

  /** How many states will be queued for those in the queue. */
  ghost function PutsAll(t: Trie, lab: seq<seq<Char>>, queue: seq<nat>): nat
    requires Labelled(t, lab) && Queued(lab, queue)
  {
    if queue == [] then 0 else Puts(t, lab, queue[0]) + PutsAll(t, lab, queue[1..])
  }

  lemma {:induction false} PutsMore(t: Trie, lab: seq<seq<Char>>, queue: seq<nat>, q: nat)
    requires Labelled(t, lab) && Queued(lab, queue) && q < |lab| && lab[q] != []
    ensures Queued(lab, queue + [q]) && PutsAll(t, lab, queue + [q]) == PutsAll(t, lab, queue) + Puts(t, lab, q)
  {
    if queue == [] {
      assert [] + [q] == [q] && [q][1..] == [];
    } else {
      PutsMore(t, lab, queue[1..], q);
      assert (queue + [q])[1..] == queue[1..] + [q];
      hide Puts, Labelled;
    }
  }

  /** The keywords have fewer prefixes than the queue has room for. */
  ghost predicate Few(words: set<seq<Char>>) {
    |Prefixes(words)| < QSIZE - 1
  }

  /** The queue is never used beyond its slots, or holds one state at a time. */
  ghost predicate Narrow(t: Trie, total: nat) {
    total < QSIZE - 1 || Chain(t)
  }

  /** The queue, from front to rear, has not gone round: of total states in all, those
      not yet queued are below the states in it, and the rest more. */
  ghost predicate StraightAt(t: Trie, lab: seq<seq<Char>>, front: nat, rear: nat, queue: seq<nat>, more: nat,
                             total: nat)
    requires Labelled(t, lab) && Queued(lab, queue)
  {
    && front <= rear < QSIZE && |queue| == rear - front && rear + PutsAll(t, lab, queue) + more == total
    && (Chain(t) ==> |queue| <= 1)
  }

  lemma StraightNone(t: Trie, lab: seq<seq<Char>>)
    requires Labelled(t, lab)
    ensures Queued(lab, []) && StraightAt(t, lab, 0, 0, [], Puts(t, lab, 0), Puts(t, lab, 0))
  {
  }

  lemma StraightEnd(t: Trie, lab: seq<seq<Char>>, front: nat, rear: nat, queue: seq<nat>, total: nat)
    requires Labelled(t, lab) && Queued(lab, queue) && StraightAt(t, lab, front, rear, queue, 0, total)
    requires front == rear
    ensures total < QSIZE
  {
  }

  lemma PutsIs(t: Trie, lab: seq<seq<Char>>, s: nat)
    requires Labelled(t, lab) && s < |lab|
    ensures t.inp[s] != 0 ==> s < t.nst[s] < |lab|
    ensures t.link[s] != 0 ==> s < t.link[s] < |lab|
    ensures Puts(t, lab, s) ==
      (if t.inp[s] != 0 then 1 + Puts(t, lab, t.nst[s]) else 0) +
      if t.link[s] != 0 then Puts(t, lab, t.link[s]) else 0
  {
    assert NodeOk(t, lab, s);
  }

  lemma ChainEnds(t: Trie, s: nat)
    requires s < |t.link| && t.link[s] != 0
    ensures !Chain(t)
  {
  }

  ghost function Rest(t: Trie, lab: seq<seq<Char>>, s: nat): nat
    requires Labelled(t, lab) && s < |lab|
  {
    assert NodeOk(t, lab, s);
    if t.link[s] != 0 then Puts(t, lab, t.link[s]) else 0
  }

  lemma RestIs(t: Trie, lab: seq<seq<Char>>, s: nat)
    requires Labelled(t, lab) && s < |lab|
    ensures s < |t.link| && (t.link[s] != 0 ==> t.link[s] < |lab|)
    ensures Rest(t, lab, s) == if t.link[s] != 0 then Puts(t, lab, t.link[s]) else 0
  {
    assert NodeOk(t, lab, s);
  }

  lemma ChainNarrow(t: Trie, total: nat)
    ensures Chain(t) ==> Narrow(t, total)
  {
  }

  lemma PutFirst(t: Trie, lab: seq<seq<Char>>, rear: nat, queue: seq<nat>, s: nat, total: nat)
    requires Labelled(t, lab) && Queued(lab, queue) && s < |lab| && t.inp[s] != 0 && Narrow(t, total)
    requires t.nst[s] < |lab| && lab[t.nst[s]] != []
    requires StraightAt(t, lab, 0, rear, queue, Puts(t, lab, s), total) && (Chain(t) ==> queue == [])
    ensures Queued(lab, queue + [t.nst[s]]) && |queue| + 1 < QSIZE - 1
    ensures StraightAt(t, lab, 0, rear + 1, queue + [t.nst[s]], Rest(t, lab, s), total)
  {
    LabelledSizes(t, lab);
    hide Labelled;
    PutsIs(t, lab, s);
    PutsMore(t, lab, queue, t.nst[s]);
  }

  lemma TakeFirst(t: Trie, lab: seq<seq<Char>>, front: nat, rear: nat, queue: seq<nat>, total: nat)
    requires Labelled(t, lab) && Queued(lab, queue) && queue != []
    requires StraightAt(t, lab, front, rear, queue, 0, total)
    ensures queue[0] < |lab| && Queued(lab, queue[1..]) && front < QSIZE - 1
    ensures StraightAt(t, lab, front + 1, rear, queue[1..], Puts(t, lab, queue[0]), total)
    ensures Chain(t) ==> queue[1..] == []
  {
  }

  lemma PutOne(t: Trie, lab: seq<seq<Char>>, front: nat, rear: nat, queue: seq<nat>, s: nat, total: nat)
    requires Labelled(t, lab) && Queued(lab, queue) && s < |lab| && t.inp[s] != 0 && Narrow(t, total)
    requires t.nst[s] < |lab| && lab[t.nst[s]] != []
    requires StraightAt(t, lab, front, rear, queue, Puts(t, lab, s), total) && (Chain(t) ==> queue == [])
    ensures Queued(lab, queue + [t.nst[s]]) && |queue| != QSIZE - 1
    ensures rear < QSIZE - 1 ==>
      StraightAt(t, lab, front, rear + 1, queue + [t.nst[s]], Rest(t, lab, s), total)
    ensures rear == QSIZE - 1 ==> front == rear && total >= QSIZE
    ensures rear < QSIZE
  {
    LabelledSizes(t, lab);
    hide Labelled;
    PutsIs(t, lab, s);
    PutsMore(t, lab, queue, t.nst[s]);
  }

  /** What becomes of a state to be queued: it is, or the queue is full, or the place
      after the last slot would be used next. */
  datatype Queueing = DONE | OVERFLOW | OUTSIDE

  /** The queue of states, in a ring of slots. */
  class Ring {
    const slots: array<nat>
    var front: nat
    var rear: nat

    ghost predicate Valid()
      reads this
    {
      slots.Length == QSIZE && front < QSIZE && rear < QSIZE
    }

    ghost function Contents(): seq<nat>
      requires Valid()
      reads this, slots
    {
      if front <= rear then slots[front..rear] else slots[front..] + slots[..rear]
    }

    constructor ()
      ensures Valid() && fresh(slots) && Contents() == [] && front == rear == 0
    {
      slots := new nat[QSIZE](i => 0);
      front, rear := 0, 0;
    }

    lemma Empty()
      requires Valid()
      ensures rear == front <==> Contents() == []
    {
    }

    /** The states of the root's edges come first. */
    method Load(x: nat) returns (r: Queueing)
      requires Valid() && front == 0
      modifies `rear, slots
      ensures r == if |old(Contents())| + 1 < QSIZE - 1 then DONE else OVERFLOW
      ensures r == DONE ==> Valid() && Contents() == old(Contents()) + [x] && rear == old(rear) + 1
    {
      slots[rear] := x;
      rear := rear + 1;
      r := if rear >= QSIZE - 1 then OVERFLOW else DONE;
    }

    method Get() returns (x: nat)
      requires Valid() && rear != front
      modifies `front
      ensures Valid() && [x] + Contents() == old(Contents())
      ensures front == if old(front) == QSIZE - 1 then 0 else old(front) + 1
    {
      x := slots[front];
      front := if front == QSIZE - 1 then 0 else front + 1;
    }

    /** One more state.  The queue is full with all slots but one in use; and if it
        is empty at the last slot, the next place is outside. */
    method Put(x: nat) returns (r: Queueing)
      requires Valid()
      modifies `rear, slots
      ensures r == OVERFLOW <==> |old(Contents())| == QSIZE - 1
      ensures r == OUTSIDE <==> front == old(rear) == QSIZE - 1
      ensures r == DONE ==> Valid() && Contents() == old(Contents()) + [x]
      ensures old(rear) < QSIZE - 1 ==> rear == old(rear) + 1
    {
      slots[rear] := x;
      r := DONE;
      if front < rear {
        if rear >= QSIZE - 1 {
          if front == 0 {
            r := OVERFLOW;
          } else {
            rear := 0;
          }
        } else {
          rear := rear + 1;
        }
      } else {
        rear := rear + 1;
        if rear == front {
          r := OVERFLOW;
        } else if rear == QSIZE {
          r := OUTSIDE;
        }
      }
    }
  }

  class Words {
    var t: Trie
    var out: seq<bool>
    var fail: seq<nat>

    /** The labels of the nodes, and the keywords entered. */
    ghost var lab: seq<seq<Char>>
    ghost var words: set<seq<Char>>

    constructor ()
      ensures Valid() && words == {} && t.inp == [0]
    {
      t, out, fail, lab, words := Trie([0], [0], [0]), [false], [0], [[]], {};
      new;
      FitsNone();
    }

    /** The marked states are those of the keywords, and every keyword has one. */
    ghost predicate Valid()
      reads this
    {
      && Labelled(t, lab) && Marks(lab, out, words) && |fail| == |lab|
      && (forall i :: 0 <= i < |fail| ==> fail[i] == 0)
      && [] !in words && (forall w :: w in words ==> Entered(t, lab, out, w))
      && Fits(t, lab, words)
    }

    /** A new node: false if the table is full. */
    method Alloc() returns (ok: bool)
      requires |out| == |fail| == |t.inp|
      modifies `out, `fail
      ensures ok <==> |t.inp| < MAXSIZ
      ensures ok ==> out == old(out) + [false] && fail == old(fail) + [0]
    {
      ok := |t.inp| < MAXSIZ;
      if ok {
        out, fail := out + [false], fail + [0];
      }
    }

    /** Enter what is left of a keyword, from its i-th character on, at the empty
        node s of state h. */
    method EnterRest(k: seq<Char>, i0: nat, ghost h0: nat, s0: nat) returns (ok: bool)
      requires |out| == |fail| == |lab| && Labelled(t, lab) && i0 < |k| && s0 < |lab| && t.inp[s0] == 0
      requires Leads(t, lab, k[..i0], h0) && Passing(t, lab, h0, s0, k[i0])
      modifies `t, `out, `fail, `lab
      ensures ok <==> |old(lab)| + |k| - i0 <= MAXSIZ
      ensures ok ==> Along(old(t), old(lab), t, lab, k, s0, |k| - i0) && |lab| == |old(lab)| + |k| - i0
      ensures ok ==> Grown(old(t), old(lab), t, lab) && |fail| == |lab| > |old(lab)|
      ensures ok ==> (forall i :: |old(fail)| <= i < |fail| ==> fail[i] == 0) && fail[..|old(fail)|] == old(fail)
      ensures ok ==> Leads(t, lab, k, |lab| - 1) && out == Marked(old(out), |lab|, |lab| - 1)
    {
      hide Labelled, Leads, Passing, Grown, Along;
      var s: nat, i: nat := s0, i0;
      ghost var h: nat := h0;
      ghost var n := |lab|;
      LabelledSizes(t, lab);
      GrownSame(t, lab);
      AlongNone(t, lab, k, s0);
      PassingLabel(t, lab, k[..i0], h, s, k[i0]);
      assert k[..|k|] == k && fail == old(fail)[..n];
      while i < |k|
        invariant i0 <= i <= |k| && n <= |lab| == |out| == |fail| == |t.inp| == |t.nst| == |t.link| && s < |lab|
        invariant t.inp[s] == 0
        invariant Labelled(t, lab) && Grown(old(t), old(lab), t, lab)
        invariant i < |k| ==> Leads(t, lab, k[..i], h) && Passing(t, lab, h, s, k[i])
        invariant i > i0 ==> n < |lab| && s == |lab| - 1 && Leads(t, lab, k[..i], s)
        invariant if i == i0 then s == s0 else |lab| <= MAXSIZ
        invariant |lab| == n + i - i0 && lab[s] == k[..i] && Along(old(t), old(lab), t, lab, k, s0, i - i0)
        invariant (forall j :: 0 <= j < n ==> out[j] == old(out)[j]) && (forall j :: n <= j < |out| ==> !out[j])
        invariant fail[..n] == old(fail) && forall j :: n <= j < |fail| ==> fail[j] == 0
      {
        var c := k[i];
        ok := Alloc();
        if !ok {
          return;
        }
        NewStep(t, lab, k, i, h, s);
        GrownThen(old(t), old(lab), t, lab, WithEdge(t, s, c), lab + [lab[s] + [c]]);
        AlongNext(old(t), old(lab), t, lab, k, s0, i - i0, s, i);
        assert k[..i + 1] == k[..i] + [c];
        lab := lab + [lab[s] + [c]];
        t := WithEdge(t, s, c);
        LabelledSizes(t, lab);
        s := |t.inp| - 1;
        h := s;
        i := i + 1;
        if i < |k| {
          PassingStart(t, lab, s, k[i]);
        }
      }
      out := out[s := true];
      ok := true;
      assert out == Marked(old(out), |lab|, |lab| - 1);
    }

    /** Enter one keyword. */
    method EnterWord(k: seq<Char>) returns (ok: bool)
      requires Valid() && k != []
      modifies this
      ensures ok <==> Need(old(words) + {k}) <= MAXSIZ
      ensures ok ==> Valid() && words == old(words) + {k}
      ensures ok && old(words) == {} ==> Chain(t)
    {
      hide Labelled, Leads, Passing, Grown, Marks, Entered, Fits, Along, Need, Leaving, Extended, Prefixes, Chain;
      FitsSize(t, lab, words);
      var s: nat, i: nat := 0, 0;
      ghost var h: nat := 0;
      LabelledSizes(t, lab);
      GrownSame(t, lab);
      RootLeads(t, lab, k);
      MarksSize(lab, out, words);
      while i < |k|
        invariant i <= |k| && s < |lab| && t == old(t) && lab == old(lab) && out == old(out) && fail == old(fail)
        invariant words == old(words) && (|lab| == 1 ==> i == 0)
        invariant i < |k| ==> Leads(t, lab, k[..i], h) && Passing(t, lab, h, s, k[i])
        invariant i == |k| ==> Leads(t, lab, k, s)
        decreases |k| - i, |lab| - s
      {
        var c := k[i];
        NodeFacts(t, lab, s);
        if t.inp[s] == c {
          LeadsOn(t, lab, k, i, h, s);
          s := t.nst[s];
          h := s;
          i := i + 1;
          if i < |k| {
            PassingStart(t, lab, s, k[i]);
          } else {
            assert k[..i] == k;
          }
          continue;
        }
        if t.inp[s] == 0 {
          LeavesEmpty(t, lab, out, words, k, i, h, s);
          NeedNew(words, k, i);
          ok := EnterRest(k, i, h, s);
          if ok {
            FitsEmpty(old(t), old(lab), lab, t, words, k, i, s, |k| - i);
            if old(words) == {} {
              AlongChain(old(t), old(lab), lab, t, k, s, |k| - i);
            }
            Finish(old(t), old(lab), old(out), t, lab, out, words, k);
            words := words + {k};
          }
          return;
        }
        if t.link[s] == 0 {
          ok := Branch(k, i, h, s);
          return;
        }
        PassingOn(t, lab, h, s, c);
        s := t.link[s];
      }
      out := out[s := true];
      assert out == Marked(old(out), |lab|, s);
      MarkWord(t, lab, old(out), t, lab, s, k, words);
      LeadsLabel(t, lab, k, s);
      FitsOld(t, lab, words, k, s);
      words := words + {k};
      ok := true;
    }

    /** Enter what is left of a keyword at a new node of a state that has others. */
    method Branch(k: seq<Char>, i: nat, ghost h: nat, s: nat) returns (ok: bool)
      requires Valid() && k != [] && i < |k| && s < |lab| == |t.inp| == |t.nst| == |t.link|
      requires Leads(t, lab, k[..i], h) && Passing(t, lab, h, s, k[i])
      requires t.inp[s] != 0 && t.inp[s] != k[i] && t.link[s] == 0
      modifies this
      ensures ok <==> Need(old(words) + {k}) <= MAXSIZ
      ensures ok ==> Valid() && words == old(words) + {k}
    {
      hide Labelled, Leads, Passing, Grown, Marks, Entered, Fits, Along, Need, Leaving, Extended, Prefixes;
      FitsSize(t, lab, words);
      LabelledSizes(t, lab);
      MarksSize(lab, out, words);
      LeavesLast(t, lab, out, words, k, i, h, s);
      NeedNew(words, k, i);
      PassingLabel(t, lab, k[..i], h, s, k[i]);
      ok := Alloc();
      if !ok {
        return;
      }
      NewLink(t, lab, k, i, h, s);
      ghost var u, l := t, lab;
      lab := lab + [lab[s]];
      t := WithLink(t, s);
      LabelledSizes(t, lab);
      ghost var o := out;
      ok := EnterRest(k, i, h, |t.inp| - 1);
      if ok {
        GrownThen(old(t), old(lab), WithLink(u, s), l + [l[s]], t, lab);
        assert out == Marked(old(out), |lab|, |lab| - 1);
        FitsLast(u, l, lab, t, words, k, i, s, |k| - i);
        Finish(old(t), old(lab), old(out), t, lab, out, words, k);
        words := words + {k};
      }
    }

    /** The whole keyword list, each keyword ended by a newline. */
    method CGotoFn(keywords: seq<seq<Char>>) returns (ok: bool)
      requires Valid() && words == {} && forall i :: 0 <= i < |keywords| ==> keywords[i] != []
      modifies this
      ensures ok <==> Need(WordSet(keywords)) <= MAXSIZ
      ensures ok ==> Valid() && words == WordSet(keywords)
    {
      hide Valid, WordSet, Need;
      ok := true;
      var i := 0;
      NoWords();
      assert keywords[..0] == [];
      while i < |keywords|
        invariant 0 <= i <= |keywords| && Valid() && words == WordSet(keywords[..i])
      {
        OneWordMore(keywords, i);
        ok := EnterWord(keywords[i]);
        if !ok {
          NeedRest(keywords, i + 1);
          return;
        }
        i := i + 1;
      }
      assert keywords[..i] == keywords;
      ValidSize();
    }

    lemma ValidSize()
      requires Valid()
      ensures Need(words) <= MAXSIZ
    {
      hide Labelled, Marks, Entered, Need, Prefixes, Tree;
    }

    /** All states of the chain of q fail to f. */
    method SetFail(q0: nat, f: nat)
      requires Labelled(t, lab) && Fails(lab, fail) && Ends(lab, out, words) && q0 < |lab| && FailOk(lab, q0, f)
      modifies `out, `fail
      ensures Fails(lab, fail) && Ends(lab, out, words)
      ensures Kept(old(out), out) && (f != 0 ==> Relinked(t, lab, q0, f, old(fail), old(out), fail, out))
    {
      hide Labelled, EndsWord, Relinked, RelinkedTo;
      var q: nat := q0;
      LabelledSizes(t, lab);
      FailShorter(lab, q0, f);
      RelinkFirst(t, lab, q0, f, fail, out);
      while true
        invariant q < |lab| == |out| == |old(out)| && lab[q] == lab[q0] && Fails(lab, fail) && Ends(lab, out, words)
        invariant forall i :: 0 <= i < |out| && old(out)[i] ==> out[i]
        invariant RelinkedTo(t, lab, q0, q, f, old(fail), old(out), fail, out)
        decreases |lab| - q
      {
        ghost var fail1, out1 := fail, out;
        fail := fail[q := f];
        if out[f] {
          EndsOn(lab[f], lab[q], words);
          out := out[q := true];
        }
        NodeFacts(t, lab, q);
        SameState(t, lab, q);
        RelinkNext(t, lab, q0, q, f, old(fail), old(out), fail1, out1, fail, out);
        if t.link[q] == 0 {
          break;
        }
        q := t.link[q];
      }
    }

    ghost predicate Linked()
      reads this
    {
      Labelled(t, lab) && Fails(lab, fail) && Ends(lab, out, words)
    }

    /** The failure link of the state that node s leads to: the first state down
        the links, or else from the root, that has the same edge. */
    method LinkFail(s: nat)
      requires Linked() && s < |lab| && lab[s] != [] && t.inp[s] != 0
      modifies `out, `fail
      ensures Linked() && Kept(old(out), out) && Labelled(t, lab) && s < |old(fail)| && 0 < t.inp[s] < 256
      ensures Relinked(t, lab, t.nst[s], Through(t, lab, old(fail)[s], t.inp[s]), old(fail), old(out), fail, out)
    {
      LinkedParts();
      hide Labelled, Ends, EndsWord, Relinked, Edge, Through;
      LabelledSizes(t, lab);
      SameState(t, lab, s);
      var q := t.nst[s];
      var state: nat, bstart := fail[s], fail[s] == 0;
      ghost var c: Char := t.inp[s];
      StartBelow(lab, fail, s);
      ThroughIs(t, lab, fail[s], c);
      RelinkedNone(t, lab, q, fail, out);
      while true
        invariant state < |lab| && FailOk(lab, s, state) && out == old(out) && fail == old(fail)
        invariant if bstart then fail[s] == 0 || Edge(t, lab, fail[s], c) == 0 else fail[s] != 0
        invariant Edge(t, lab, state, c) == Edge(t, lab, if bstart then 0 else fail[s], c)
        decreases !bstart, |lab| - state
      {
        SameState(t, lab, state);
        OverEdge(t, lab, state, c);
        if t.inp[state] == t.inp[s] {
          StepBelow(lab, s, state, t.inp[s], q, t.nst[state]);
          SetFail(q, t.nst[state]);
          break;
        }
        if t.link[state] != 0 {
          state := t.link[state];
        } else if !bstart {
          state := 0;
          bstart := true;
          RootBelow(lab, s);
        } else {
          break;
        }
      }
    }

    /** The failure links of all states, in order of depth.  The queue may overflow,
        which ends the program, or be left at its end.  Neither happens if there are
        few states; and in a trie of one branch it is left exactly when there are as
        many states as slots. */
    method CFail() returns (r: Queueing)
      requires Valid()
      modifies `out, `fail
      ensures r == DONE ==> Linked() && AllEntered() && Kept(old(out), out)
      ensures r == DONE ==> Labelled(t, lab) && AllLinked(t, lab, fail)
      ensures Few(words) ==> r == DONE
      ensures Chain(t) ==> r == if Puts(t, lab, 0) < QSIZE then DONE else OUTSIDE
    {
      hide *;
      var queue := new Ring();
      ghost var before := out;
      StillEntered();
      ghost var total := Start();
      r := LinkQueued(queue, total);
      if r == DONE {
        EnteredKept(t, lab, before, out, words);
        IsEntered();
      }
    }

    /** The same, with an empty queue. */
    method LinkQueued(queue: Ring, ghost total: nat) returns (r: Queueing)
      requires Linked() && Labelled(t, lab) && queue.Valid() && queue.front == queue.rear == 0
      requires queue.Contents() == [] && total == Puts(t, lab, 0) && SoFar(t, lab, fail, {}) && Tree(t)
      modifies `out, `fail, queue, queue.slots
      ensures r == DONE ==> Linked() && Kept(old(out), out)
      ensures r == DONE ==> Labelled(t, lab) && AllLinked(t, lab, fail)
      ensures Narrow(t, total) ==> r == if total < QSIZE then DONE else OUTSIDE
    {
      hide *;
      r := LoadRoot(queue, total);
      if r == DONE {
        StartLinking(t, lab, fail, queue.Contents());
        r := LinkAll(queue, total);
      }
    }

    /** Look at the states in the queue, and those queued for them. */
    method LinkAll(queue: Ring, ghost total: nat) returns (r: Queueing)
      requires Linked() && Labelled(t, lab) && queue.Valid() && Queued(lab, queue.Contents())
      requires Narrow(t, total) ==> StraightAt(t, lab, queue.front, queue.rear, queue.Contents(), 0, total)
      requires Linking(t, lab, fail, queue.Contents(), {}, {}, 0)
      modifies `out, `fail, queue, queue.slots
      ensures r == DONE ==> Linked() && Kept(old(out), out)
      ensures r == DONE ==> Labelled(t, lab) && AllLinked(t, lab, fail)
      ensures Narrow(t, total) ==> r == if total < QSIZE then DONE else OUTSIDE
    {
      assert QSIZE == 400;
      hide *;
      KeptSame(out);
      ghost var done, d := {}, 0;
      while queue.rear != queue.front
        invariant queue.Valid() && Queued(lab, queue.Contents())
        invariant Linked() && Labelled(t, lab) && Kept(old(out), out)
        invariant Linking(t, lab, fail, queue.Contents(), done, {}, d)
        invariant Narrow(t, total) ==> StraightAt(t, lab, queue.front, queue.rear, queue.Contents(), 0, total)
        decreases Load(t, lab, queue.Contents())
      {
        queue.Empty();
        ghost var before := out;
        r, done, d := Visit(queue, total, done, d);
        if r != DONE {
          return;
        }
        KeptThen(old(out), before, out);
      }
      queue.Empty();
      EndLinking(t, lab, fail, done, d);
      if Narrow(t, total) {
        StraightEnd(t, lab, queue.front, queue.rear, queue.Contents(), total);
      }
      r := DONE;
    }

    /** Nothing is linked yet. */
    lemma IsEntered()
      requires AllIn(t, lab, out, words)
      ensures AllEntered()
    {
    }

    lemma StillEntered()
      requires Valid()
      ensures AllIn(t, lab, out, words) && Labelled(t, lab) && Tree(t) && SoFar(t, lab, fail, {})
    {
      LinkedStart(t, lab, fail);
    }

    lemma Start() returns (total: nat)
      requires Valid()
      ensures Linked() && Labelled(t, lab) && total == Puts(t, lab, 0)
      ensures Few(words) || Chain(t) ==> Narrow(t, total)
      ensures Few(words) ==> total < QSIZE
    {
      MarksEnd(lab, out, words);
      LabelledSizes(t, lab);
      total := Puts(t, lab, 0);
      PutsFew(t, lab);
      hide Labelled, Ends, EndsWord, Marks, Entered, Puts, Prefixes, Tree, Need, Edges;
    }

    /** The states of the root's edges are queued first. */
    method LoadRoot(queue: Ring, ghost total: nat) returns (r: Queueing)
      requires Labelled(t, lab) && queue.Valid() && queue.front == queue.rear == 0 && queue.Contents() == []
      requires total == Puts(t, lab, 0)
      modifies queue, queue.slots
      ensures r == DONE ==> queue.Valid() && Queued(lab, queue.Contents())
      ensures r == DONE ==> RootLoaded(t, lab, queue.Contents(), {})
      ensures Narrow(t, total) ==>
        r == DONE && StraightAt(t, lab, queue.front, queue.rear, queue.Contents(), 0, total)
    {
      assert QSIZE == 400;
      LabelledSizes(t, lab);
      hide *;
      var s: nat := 0;
      ghost var t0, lab0, held := t, lab, queue.Contents();
      RootStart(t0, lab0, queue.rear, held, s, total);
      while true
        invariant t == t0 && lab == lab0 && s < |lab0| == |t0.inp| == |t0.nst| == |t0.link|
        invariant queue.Valid() && queue.front == 0 && queue.Contents() == held
        invariant AtRoot(t0, lab0, queue.rear, held, s, total)
        decreases |lab0| - s
      {
        r := LoadOne(queue, s, total);
        if r != DONE {
          return;
        }
        held := queue.Contents();
        RootThen(t0, lab0, queue.rear, held, s, total);
        if t.link[s] == 0 {
          break;
        }
        s := t.link[s];
      }
      r := DONE;
    }

    /** Load the state that node s leads to. */
    method LoadOne(queue: Ring, s: nat, ghost total: nat) returns (r: Queueing)
      requires queue.Valid() && queue.front == 0 && s < |lab| == |t.inp| == |t.nst| == |t.link|
      requires AtRoot(t, lab, queue.rear, queue.Contents(), s, total)
      modifies queue`rear, queue.slots
      ensures r == DONE ==>
        queue.Valid() && queue.front == 0 && PastRoot(t, lab, queue.rear, queue.Contents(), s, total)
      ensures Narrow(t, total) ==> r == DONE
    {
      hide *;
      ghost var held, rear := queue.Contents(), queue.rear;
      r := DONE;
      if t.inp[s] != 0 {
        RootPut(t, lab, rear, rear + 1, held, held + [t.nst[s]], s, total);
        r := queue.Load(t.nst[s]);
      } else {
        RootPass(t, lab, rear, held, s, total);
      }
    }

    /** Look at one state: queue the states it leads to, and link them. */
    method Visit(queue: Ring, ghost total: nat, ghost done0: set<nat>, ghost d0: nat)
      returns (r: Queueing, ghost done: set<nat>, ghost d: nat)
      requires Linked() && queue.Valid() && Queued(lab, queue.Contents()) && queue.Contents() != []
      requires Narrow(t, total) ==> StraightAt(t, lab, queue.front, queue.rear, queue.Contents(), 0, total)
      requires Linking(t, lab, fail, queue.Contents(), done0, {}, d0)
      modifies `out, `fail, queue, queue.slots
      ensures r == DONE ==> Linked() && Kept(old(out), out) && queue.Valid() && Queued(lab, queue.Contents())
      ensures r == DONE ==> Linking(t, lab, fail, queue.Contents(), done, {}, d)
      ensures r == DONE ==> Load(t, lab, queue.Contents()) < old(Load(t, lab, queue.Contents()))
      ensures r == DONE && Narrow(t, total) ==>
        StraightAt(t, lab, queue.front, queue.rear, queue.Contents(), 0, total)
      ensures r != DONE && Narrow(t, total) ==> r == OUTSIDE && total >= QSIZE
    {
      assert QSIZE == 400;
      LinkedParts();
      LabelledSizes(t, lab);
      hide *;
      ghost var t0, lab0, held, load, front := t, lab, queue.Contents(), Load(t, lab, queue.Contents()), queue.front;
      KeptSame(out);
      queue.Empty();
      var s := queue.Get();
      done := done0;
      d := NodeFirst(t0, lab0, fail, front, queue.front, queue.rear, held, queue.Contents(), done, s, d0, total);
      front, held := queue.front, queue.Contents();
      while true
        invariant t == t0 && lab == lab0 && s < |lab0| == |t0.inp| == |t0.nst| == |t0.link|
        invariant Linked() && Kept(old(out), out) && queue.Valid() && queue.Contents() == held && queue.front == front
        invariant AtNode(t0, lab0, fail, front, queue.rear, held, done, s, d, total, load)
        decreases |lab0| - s
      {
        if t.inp[s] != 0 {
          ghost var before := out;
          r := QueueOne(queue, s, total, done, d, load);
          if r != DONE {
            return;
          }
          held := queue.Contents();
          KeptThen(old(out), before, out);
        } else {
          NodePass(t0, lab0, fail, front, queue.rear, held, done, s, d, total, load);
        }
        done := done + {s};
        NodeThen(t0, lab0, fail, front, queue.rear, held, done, s, d, total, load);
        if t.link[s] == 0 {
          break;
        }
        s := t.link[s];
      }
      r := DONE;
    }

    /** Queue the state that node s leads to, and find its failure link. */
    method QueueOne(queue: Ring, s: nat, ghost total: nat, ghost done: set<nat>, ghost d: nat, ghost load: nat)
      returns (r: Queueing)
      requires Linked() && queue.Valid() && s < |lab| == |t.inp| == |t.nst| == |t.link| && t.inp[s] != 0
      requires AtNode(t, lab, fail, queue.front, queue.rear, queue.Contents(), done, s, d, total, load)
      modifies `out, `fail, queue`rear, queue.slots
      ensures r == DONE ==> Linked() && Kept(old(out), out) && queue.Valid()
      ensures r == DONE ==>
        PastNode(t, lab, fail, queue.front, queue.rear, queue.Contents(), done + {s}, s, d, total, load)
      ensures r != DONE && Narrow(t, total) ==> r == OUTSIDE && total >= QSIZE
    {
      hide *;
      NodeParts(t, lab, fail, queue.front, queue.rear, queue.Contents(), done, s, d, total, load);
      r := queue.Put(t.nst[s]);
      if r != DONE {
        return;
      }
      ghost var fail0, out0, was := fail, out, old(queue.Contents());
      LinkFail(s);
      NodePut(t, lab, fail0, out0, fail, out, queue.front, old(queue.rear), queue.rear, was, done, s, d, total, load);
    }

    lemma LinkedParts()
      requires Linked()
      ensures Labelled(t, lab) && |out| == |lab|
    {
      hide Labelled, Fails, EndsWord;
    }

    /** Over the edge of state c0 if there is one, or else over that of its failure link
        if there is one; and to the root only if the root has no edge for ch. */
    ghost predicate Goes(c0: nat, ch: Char, c: nat)
      reads this
    {
      && Labelled(t, lab) && c0 < |lab| == |fail| && c < |lab|
      && (Edge(t, lab, c0, ch) != 0 ==> c == Edge(t, lab, c0, ch))
      && var f := fail[LastNode(t, lab, c0)];
         && (Edge(t, lab, c0, ch) == 0 && 0 < f < |lab| && Edge(t, lab, f, ch) != 0 ==> c == Edge(t, lab, f, ch))
         && (lab[c] == [] ==> Edge(t, lab, 0, ch) == 0)
    }

    /** One character of the text. */
    method Step(c0: nat, ch: Char, ghost line: seq<Char>) returns (c: nat)
      requires Linked() && c0 < |lab| && Suffix(lab[c0], line)
      ensures c < |lab| && Suffix(lab[c], line + [ch])
      ensures Goes(c0, ch, c)
    {
      hide Labelled, Ends, EndsWord, Edge, LastNode;
      LabelledSizes(t, lab);
      c := c0;
      ghost var h: nat, f: nat := c0, fail[LastNode(t, lab, c0)];
      while true
        invariant c < |lab| && Suffix(lab[c], line) && h < |lab|
        invariant Edge(t, lab, h, ch) == Edge(t, lab, c, ch) && LastNode(t, lab, h) == LastNode(t, lab, c)
        invariant h != c0 ==> Edge(t, lab, c0, ch) == 0 && (h != f ==> 0 < f < |lab| ==> Edge(t, lab, f, ch) == 0)
        decreases |lab[c]|, |lab| - c
      {
        SameState(t, lab, c);
        OverEdge(t, lab, c, ch);
        if t.inp[c] == ch {
          SuffixOn(lab[c], line, ch);
          return t.nst[c];
        }
        if t.link[c] != 0 {
          c := t.link[c];
        } else if fail[c] != 0 {
          assert FailOk(lab, c, fail[c]);
          SuffixThen(lab[fail[c]], lab[c], line);
          c := fail[c];
          h := c;
        } else {
          break;
        }
      }
      c := 0;
      while true
        invariant c < |lab| && lab[c] == [] && Edge(t, lab, c, ch) == Edge(t, lab, 0, ch)
        decreases |lab| - c
      {
        SameState(t, lab, c);
        OverEdge(t, lab, c, ch);
        if t.inp[c] == ch {
          SuffixOn([], line, ch);
          return t.nst[c];
        }
        if t.link[c] == 0 {
          break;
        }
        c := t.link[c];
      }
    }

    /** Past the newline that ends the line, or to the end of the text. */
    method ToNewline(text: seq<Char>, ghost a: nat, p0: nat) returns (p: nat)
      requires LineBegun(text, a, p0) && p0 < |text|
      ensures p0 < p <= |text| && IsLine(text, a, p)
    {
      p := p0;
      while p < |text| && text[p] != NL
        invariant p0 <= p && LineBegun(text, a, p)
      {
        p := p + 1;
      }
      if p < |text| {
        p := p + 1;
      }
    }

    ghost predicate AllEntered()
      reads this
    {
      AllIn(t, lab, out, words)
    }

    /** A line that has been read, and that keywords start with, has led to its state,
        and no keyword has been read. */
    ghost predicate OnTrack(line: seq<Char>, c: nat)
      reads this
    {
      && Labelled(t, lab) && (forall m: nat :: Leads(t, lab, line, m) ==> c == m)
      && forall w :: w in words ==> !StartsWith(line, w)
    }

    lemma TrackNone()
      requires AllEntered()
      ensures OnTrack([], 0)
    {
      hide Labelled;
    }

    lemma TrackNext(line: seq<Char>, c0: nat, ch: Char, c: nat)
      requires AllEntered() && OnTrack(line, c0) && Goes(c0, ch, c) && |lab| == |out|
      ensures !out[c] ==> OnTrack(line + [ch], c)
    {
      hide Labelled, Edge;
      var l := line + [ch];
      forall m: nat | Leads(t, lab, l, m)
        ensures c == m
      {
        var h := LeadsBack(t, lab, line, ch, m);
      }
      forall w | w in words && StartsWith(l, w)
        ensures out[c]
      {
        StartsNext(line, ch, w);
      }
    }

    /** The line that begins at nlp has been read up to p. */
    ghost predicate ReadTo(text: seq<Char>, nlp: nat, p: nat, c: nat)
      reads this
    {
      && nlp <= p <= |text| && c < |lab| && Suffix(lab[c], text[nlp..p]) && OnTrack(text[nlp..p], c)
      && (nlp < |text| ==> LineBegun(text, nlp, p))
    }

    lemma ReadNothing(text: seq<Char>, p: nat)
      requires Linked() && AllEntered() && p <= |text| && (p < |text| ==> LineBegun(text, p, p))
      ensures ReadTo(text, p, p, 0)
    {
      LinkedParts();
      LabelledSizes(t, lab);
      hide Labelled, LineBegun, AllEntered, OnTrack, Linked;
      TrackNone();
      assert text[p..p] == [];
    }

    /** Character q - 1 of the line that begins at nlp has led to state c. */
    ghost predicate Now(text: seq<Char>, nlp: nat, q: nat, c: nat)
      reads this
    {
      && 0 < q <= |text| && c < |out|
      && if out[c] then HoldsWord(text, nlp, q, words) && LineBegun(text, nlp, q - 1)
         else if text[q - 1] != NL then ReadTo(text, nlp, q, c)
         else Unopened(text, nlp, q, words)
    }

    lemma ReadOne(text: seq<Char>, nlp: nat, p: nat, c0: nat, c: nat)
      requires Linked() && AllEntered() && ReadTo(text, nlp, p, c0) && p < |text| && c < |lab| == |out|
      requires Suffix(lab[c], text[nlp..p] + [text[p]]) && Goes(c0, text[p], c)
      ensures Now(text, nlp, p + 1, c)
    {
      LinkedEnds();
      hide Linked, AllEntered, HoldsWord, LineBegun, Suffix, OnTrack, Goes, Ends, StartsWith, Unopened;
      assert text[nlp..p + 1] == text[nlp..p] + [text[p]];
      TrackNext(text[nlp..p], c0, text[p], c);
      NextChar(text, nlp, p);
      if out[c] {
        WordSeen(lab, out, words, c, text, nlp, p + 1);
      } else if text[p] == NL {
        NoneStarts(text, nlp, p + 1, c);
      }
    }

    lemma LinkedEnds()
      requires Linked()
      ensures Ends(lab, out, words)
    {
    }

    lemma NoneStarts(text: seq<Char>, nlp: nat, q: nat, c: nat)
      requires nlp < q <= |text| && OnTrack(text[nlp..q], c) && LineBegun(text, nlp, q - 1) && text[q - 1] == NL
      ensures Unopened(text, nlp, q, words)
    {
      hide LineBegun, StartsWith;
    }

    /** Reading is at p, in the line that begins at nlp; the lines before are dealt with. */
    ghost predicate Going(text: seq<Char>, sel: seq<(nat, nat)>, nlp: nat, p: nat, c: nat)
      reads this
    {
      ReadTo(text, nlp, p, c) && Right(text, sel, nlp, words)
    }

    lemma GoFirst(text: seq<Char>)
      requires Linked() && AllEntered()
      ensures Going(text, [], 0, 0, 0)
    {
      hide Linked, AllEntered, ReadTo, Right, LineBegun;
      LineStarts(text);
      ReadNothing(text, 0);
      RightNone(text, words);
    }

    /** A keyword has been read, and the line goes on to p. */
    lemma GoSelect(text: seq<Char>, sel: seq<(nat, nat)>, nlp: nat, q: nat, c: nat, p: nat)
      requires Linked() && AllEntered() && Right(text, sel, nlp, words) && Now(text, nlp, q, c) && out[c]
      requires q <= p && IsLine(text, nlp, p)
      ensures Going(text, sel + [(nlp, p)], p, p, 0)
    {
      hide Linked, AllEntered, ReadTo, Right, LineBegun, HoldsWord, IsLine, Unopened;
      RightMore(text, sel, nlp, q, p, words);
      Inside(text, nlp, p);
      ReadNothing(text, p);
    }

    /** A character has been read, and no keyword. */
    lemma GoOn(text: seq<Char>, sel: seq<(nat, nat)>, nlp: nat, q: nat, c: nat)
      requires Linked() && AllEntered() && Right(text, sel, nlp, words) && Now(text, nlp, q, c) && !out[c]
      ensures if text[q - 1] == NL then Going(text, sel, q, q, 0) else Going(text, sel, nlp, q, c)
    {
      hide Linked, AllEntered, ReadTo, Right, LineBegun, HoldsWord, Unopened;
      if text[q - 1] == NL {
        RightLater(text, sel, nlp, q, words);
        ReadNothing(text, q);
      }
    }

    /** The lines selected, as their ends in the text: each holds a keyword, and those
        that start with one are among them. */
    method Execute(text: seq<Char>) returns (sel: seq<(nat, nat)>)
      requires Linked() && AllEntered()
      ensures Selected(text, sel, |text|, words) && Found(text, sel, |text|, words)
    {
      hide *;
      sel := [];
      var p: nat, nlp: nat, c: nat := 0, 0, 0;
      GoFirst(text);
      while p < |text|
        invariant p <= |text| && Going(text, sel, nlp, p, c)
      {
        ghost var q := p + 1;
        c := Advance(text, sel, nlp, p, q, c);
        if out[c] {
          p := ToNewline(text, nlp, p);
          GoSelect(text, sel, nlp, q, c, p);
          sel := sel + [(nlp, p)];
          nlp := p;
          c := 0;
        } else {
          GoOn(text, sel, nlp, q, c);
          var ch := text[p];
          p := p + 1;
          if ch == NL {
            nlp := p;
            c := 0;
          }
        }
      }
      NoneLeft(text, sel, nlp, c);
    }

    /** Read character p of the text. */
    method Advance(text: seq<Char>, ghost sel: seq<(nat, nat)>, ghost nlp: nat, p: nat, ghost q: nat, c0: nat)
      returns (c: nat)
      requires Linked() && AllEntered() && Going(text, sel, nlp, p, c0) && p < |text| && q == p + 1
      ensures Now(text, nlp, q, c) && Right(text, sel, nlp, words) && text[q - 1] == text[p]
      ensures c < |out| && (out[c] ==> LineBegun(text, nlp, p))
    {
      LinkedParts();
      hide Linked, AllEntered, ReadTo, Right, LineBegun, HoldsWord, Unopened, Labelled, Suffix, Goes;
      Reading(text, nlp, p, c0);
      c := Step(c0, text[p], text[nlp..p]);
      ReadOne(text, nlp, p, c0, c);
    }

    lemma Reading(text: seq<Char>, nlp: nat, p: nat, c: nat)
      requires ReadTo(text, nlp, p, c) && p < |text|
      ensures c < |lab| && nlp <= p && Suffix(lab[c], text[nlp..p]) && LineBegun(text, nlp, p)
    {
    }

    /** The text ends in a line without newline. */
    lemma NoneLeft(text: seq<Char>, sel: seq<(nat, nat)>, nlp: nat, c: nat)
      requires Going(text, sel, nlp, |text|, c)
      ensures Selected(text, sel, |text|, words) && Found(text, sel, |text|, words)
    {
      SelectLater(text, sel, nlp, |text|, words);
      if nlp < |text| {
        NoneMissed(text, sel, nlp, |text|, words);
      }
    }

    /** The whole program without flags; not ok if a table is too small. */
    method Run(keywords: seq<seq<Char>>, text: seq<Char>) returns (ok: bool, sel: seq<(nat, nat)>)
      requires Valid() && words == {} && forall i :: 0 <= i < |keywords| ==> keywords[i] != []
      modifies this
      ensures ok ==> Linked() && Selected(text, sel, |text|, WordSet(keywords))
      ensures ok ==> Found(text, sel, |text|, WordSet(keywords))
      ensures ok ==> Need(WordSet(keywords)) <= MAXSIZ
      ensures Characters(keywords) < QSIZE - 1 ==> ok
    {
      PrefixesFew(keywords);
      NeedBound(WordSet(keywords));
      hide Need, Prefixes, WordSet, Labelled, Fits, Marks, Entered;
      sel := [];
      ok := CGotoFn(keywords);
      if ok {
        var r := CFail();
        if r != DONE {
          return false, [];
        }
        sel := Execute(text);
      }
    }

    /** With a single keyword the program goes on exactly if the keyword has fewer
        characters than the queue has slots. */
    static method OneKeyword(k: seq<Char>) returns (r: Queueing)
      requires 0 < |k| < MAXSIZ
      ensures r == if |k| < QSIZE then DONE else OUTSIDE
    {
      var w := new Words();
      PrefixesOne(k);
      hide Prefixes, Need, Chain;
      assert {} + {k} == {k};
      var ok := w.EnterWord(k);
      w.OneBranch(k);
      r := w.CFail();
    }

    lemma OneBranch(k: seq<Char>)
      requires Valid() && words == {k}
      ensures Labelled(t, lab) && Puts(t, lab, 0) == |Prefixes({k})|
    {
      PutsFew(t, lab);
      PrefixesOne(k);
      hide Prefixes, Labelled, Puts, Leads, Marks, Tree, Need;
      assert Entered(t, lab, out, k);
      var m: nat :| m < |out| && out[m] && Leads(t, lab, k, m);
      PutsAlong(t, lab, k, m);
    }
  }

  /** Each keyword can be looked up. */
  ghost predicate AllIn(t: Trie, lab: seq<seq<Char>>, out: seq<bool>, words: set<seq<Char>>) {
    Labelled(t, lab) && [] !in words && forall w :: w in words ==> Entered(t, lab, out, w)
  }

  lemma EnteredKept(t: Trie, lab: seq<seq<Char>>, out: seq<bool>, out': seq<bool>, words: set<seq<Char>>)
    requires AllIn(t, lab, out, words) && Kept(out, out')
    ensures AllIn(t, lab, out', words)
  {
    hide Labelled, Leads;
    forall w | w in words
      ensures Entered(t, lab, out', w)
    {
      var m: nat :| m < |out| && out[m] && Leads(t, lab, w, m);
      assert out'[m];
    }
  }

  lemma FailShorter(lab: seq<seq<Char>>, q: nat, f: nat)
    requires q < |lab| && FailOk(lab, q, f)
    ensures f < |lab| && |lab[f]| < |lab[q]|
  {
  }

  lemma ThroughIs(t: Trie, lab: seq<seq<Char>>, f: nat, c: Char)
    requires Labelled(t, lab) && f < |lab|
    ensures f != 0 && Edge(t, lab, f, c) != 0 ==> Through(t, lab, f, c) == Edge(t, lab, f, c)
    ensures f == 0 || Edge(t, lab, f, c) == 0 ==> Through(t, lab, f, c) == Edge(t, lab, 0, c)
  {
  }

  lemma RelinkedNone(t: Trie, lab: seq<seq<Char>>, q: nat, fail: seq<nat>, out: seq<bool>)
    requires Labelled(t, lab) && |fail| == |out| == |lab|
    ensures Relinked(t, lab, q, 0, fail, out, fail, out)
  {
  }

  // Looking at the nodes of a state.

  /** At node s of the root, loading the queue. */
  ghost predicate AtRoot(t: Trie, lab: seq<seq<Char>>, rear: nat, queue: seq<nat>, s: nat, total: nat) {
    && Labelled(t, lab) && Queued(lab, queue) && s < |lab| && lab[s] == []
    && RootLoaded(t, lab, queue, Below(t, lab, s))
    && (Narrow(t, total) ==> StraightAt(t, lab, 0, rear, queue, Puts(t, lab, s), total) && (Chain(t) ==> queue == []))
  }

  ghost predicate PastRoot(t: Trie, lab: seq<seq<Char>>, rear: nat, queue: seq<nat>, s: nat, total: nat) {
    && Labelled(t, lab) && Queued(lab, queue) && s < |lab| && lab[s] == []
    && RootLoaded(t, lab, queue, BelowNext(t, lab, s))
    && (Narrow(t, total) ==> StraightAt(t, lab, 0, rear, queue, Rest(t, lab, s), total))
  }

  lemma RootStart(t: Trie, lab: seq<seq<Char>>, rear: nat, queue: seq<nat>, s: nat, total: nat)
    requires Labelled(t, lab) && total == Puts(t, lab, 0) && queue == [] && rear == s == 0
    ensures AtRoot(t, lab, rear, queue, s, total)
  {
    LabelledSizes(t, lab);
    StraightNone(t, lab);
    RootFirst(t, lab);
    hide Labelled, RootLoaded, StraightAt;
  }

  lemma RootPass(t: Trie, lab: seq<seq<Char>>, rear: nat, queue: seq<nat>, s: nat, total: nat)
    requires AtRoot(t, lab, rear, queue, s, total) && s < |t.inp| && t.inp[s] == 0
    ensures PastRoot(t, lab, rear, queue, s, total)
  {
    hide Labelled, RootLoaded, StraightAt, Chain, Puts, Below, Rest, Narrow;
    PutsIs(t, lab, s);
    RestIs(t, lab, s);
    RootNext(t, lab, queue, s);
  }

  lemma RootPut(t: Trie, lab: seq<seq<Char>>, rear: nat, rear': nat, queue: seq<nat>, next: seq<nat>, s: nat,
                total: nat)
    requires AtRoot(t, lab, rear, queue, s, total) && s < |t.inp| == |t.nst| && t.inp[s] != 0
    requires next == queue + [t.nst[s]] && rear' == rear + 1
    ensures PastRoot(t, lab, rear', next, s, total)
    ensures Narrow(t, total) ==> |queue| + 1 < QSIZE - 1
  {
    SameState(t, lab, s);
    LabelledSizes(t, lab);
    hide Labelled, RootLoaded, StraightAt, Chain, Puts, Below, Rest, Narrow;
    RootNext(t, lab, queue, s);
    LoadMore(t, lab, queue, t.nst[s]);
    if Narrow(t, total) {
      PutFirst(t, lab, rear, queue, s, total);
    }
  }

  lemma RootThen(t: Trie, lab: seq<seq<Char>>, rear: nat, queue: seq<nat>, s: nat, total: nat)
    requires PastRoot(t, lab, rear, queue, s, total) && s < |t.link|
    ensures t.link[s] != 0 ==> s < t.link[s] < |lab| && AtRoot(t, lab, rear, queue, t.link[s], total)
    ensures t.link[s] == 0 ==> Queued(lab, queue) && RootLoaded(t, lab, queue, {}) && Labelled(t, lab)
    ensures t.link[s] == 0 && Narrow(t, total) ==> StraightAt(t, lab, 0, rear, queue, 0, total)
  {
    SameState(t, lab, s);
    LabelledSizes(t, lab);
    hide Labelled, RootLoaded, StraightAt, Chain, Puts, Below, Rest, Narrow;
    RestIs(t, lab, s);
    NextIs(t, lab, s);
    if t.link[s] != 0 {
      ChainEnds(t, s);
    }
  }

  /** At node s of a state, with at most load nodes still to look at. */
  ghost predicate AtNode(t: Trie, lab: seq<seq<Char>>, fail: seq<nat>, front: nat, rear: nat, queue: seq<nat>,
                         done: set<nat>, s: nat, d: nat, total: nat, load: nat)
  {
    && Labelled(t, lab) && Queued(lab, queue) && s < |lab| && lab[s] != [] && |lab[s]| == d
    && Linking(t, lab, fail, queue, done, Below(t, lab, s), d) && Load(t, lab, queue) + Size(t, lab, s) <= load
    && (Narrow(t, total) ==>
          StraightAt(t, lab, front, rear, queue, Puts(t, lab, s), total) && (Chain(t) ==> queue == []))
  }

  ghost predicate PastNode(t: Trie, lab: seq<seq<Char>>, fail: seq<nat>, front: nat, rear: nat, queue: seq<nat>,
                           done: set<nat>, s: nat, d: nat, total: nat, load: nat)
  {
    && Labelled(t, lab) && Queued(lab, queue) && s < |lab| && lab[s] != [] && |lab[s]| == d
    && Linking(t, lab, fail, queue, done, BelowNext(t, lab, s), d)
    && Load(t, lab, queue) + SizeNext(t, lab, s) < load
    && (Narrow(t, total) ==> StraightAt(t, lab, front, rear, queue, Rest(t, lab, s), total))
  }

  ghost function SizeNext(t: Trie, lab: seq<seq<Char>>, s: nat): nat
    requires Labelled(t, lab) && s < |lab|
  {
    assert NodeOk(t, lab, s);
    if t.link[s] != 0 then Size(t, lab, t.link[s]) else 0
  }

  lemma StartBelow(lab: seq<seq<Char>>, fail: seq<nat>, s: nat)
    requires Fails(lab, fail) && s < |lab| && lab[s] != [] && lab[0] == []
    ensures FailOk(lab, s, fail[s])
  {
    if fail[s] == 0 {
      RootBelow(lab, s);
    }
  }

  lemma RootBelow(lab: seq<seq<Char>>, s: nat)
    requires s < |lab| && lab[s] != [] && lab[0] == []
    ensures FailOk(lab, s, 0)
  {
  }

  /** The same edge from a state below leads to a state below. */
  lemma StepBelow(lab: seq<seq<Char>>, s: nat, state: nat, c: Char, q: nat, f: nat)
    requires FailOk(lab, s, state) && q < |lab| && f < |lab| && lab[q] == lab[s] + [c] && lab[f] == lab[state] + [c]
    ensures FailOk(lab, q, f)
  {
    SuffixOn(lab[state], lab[s], c);
    hide Suffix;
  }

  lemma LoadFirst(t: Trie, lab: seq<seq<Char>>, queue: seq<nat>)
    requires Labelled(t, lab) && Queued(lab, queue) && queue != []
    ensures queue[0] < |lab| && lab[queue[0]] != [] && Queued(lab, queue[1..])
    ensures Load(t, lab, queue) == Size(t, lab, queue[0]) + Load(t, lab, queue[1..])
  {
  }

  // Lines of a text.

  ghost predicate Starts(text: seq<Char>, a: nat) {
    a == 0 || (a <= |text| && text[a - 1] == NL)
  }

  ghost predicate LineBegun(text: seq<Char>, a: nat, p: nat) {
    a <= p <= |text| && Starts(text, a) && forall x :: a <= x < p ==> text[x] != NL
  }

  /** From a to b is a line with its newline, or what follows the last newline. */
  ghost predicate IsLine(text: seq<Char>, a: nat, b: nat) {
    a < b <= |text| && LineBegun(text, a, b - 1) && (text[b - 1] == NL || b == |text|)
  }

  ghost predicate OccursAt(text: seq<Char>, a: nat, b: nat, w: seq<Char>, x: nat) {
    a <= x && x + |w| <= b <= |text| && text[x..x + |w|] == w
  }

  /** A keyword occurs from a to b. */
  ghost predicate HoldsWord(text: seq<Char>, a: nat, b: nat, words: set<seq<Char>>) {
    exists w, x: nat :: w in words && OccursAt(text, a, b, w, x)
  }

  lemma LineStarts(text: seq<Char>)
    ensures LineBegun(text, 0, 0)
  {
  }

  lemma LineRead(text: seq<Char>, a: nat, p: nat)
    requires 0 < p <= |text| && LineBegun(text, a, p - 1) && text[p - 1] == NL
    ensures IsLine(text, a, p)
  {
  }

  /** The lines selected among those before e. */
  ghost predicate Right(text: seq<Char>, sel: seq<(nat, nat)>, e: nat, words: set<seq<Char>>) {
    Selected(text, sel, e, words) && Found(text, sel, e, words)
  }

  lemma Inside(text: seq<Char>, a: nat, b: nat)
    requires IsLine(text, a, b)
    ensures b <= |text|
  {
  }

  lemma RightNone(text: seq<Char>, words: set<seq<Char>>)
    ensures Right(text, [], 0, words)
  {
  }

  /** A line in which a keyword has been seen is selected. */
  lemma RightMore(text: seq<Char>, sel: seq<(nat, nat)>, a: nat, seen: nat, b: nat, words: set<seq<Char>>)
    requires Right(text, sel, a, words) && IsLine(text, a, b) && HoldsWord(text, a, seen, words) && seen <= b
    ensures Right(text, sel + [(a, b)], b, words) && (b < |text| ==> LineBegun(text, b, b))
  {
    hide Selected, Found, HoldsWord;
    WordStays(text, a, seen, b, words);
    SelectMore(text, sel, a, b, words);
    FoundMore(text, sel, a, b, words);
  }

  lemma RightLater(text: seq<Char>, sel: seq<(nat, nat)>, a: nat, p: nat, words: set<seq<Char>>)
    requires Right(text, sel, a, words) && Unopened(text, a, p, words)
    ensures Right(text, sel, p, words) && (p < |text| ==> LineBegun(text, p, p))
  {
    hide Selected, Found, StartsWith;
    LineRead(text, a, p);
    SelectLater(text, sel, a, p, words);
    NoneMissed(text, sel, a, p, words);
  }

  lemma NextChar(text: seq<Char>, a: nat, p: nat)
    requires LineBegun(text, a, p) && p < |text|
    ensures if text[p] == NL then LineBegun(text, p + 1, p + 1) else LineBegun(text, a, p + 1)
  {
  }

  /** In a marked state a keyword has just been read. */
  lemma WordSeen(lab: seq<seq<Char>>, out: seq<bool>, words: set<seq<Char>>, c: nat, text: seq<Char>, a: nat, p: nat)
    requires Ends(lab, out, words) && c < |lab| && out[c] && a <= p <= |text| && Suffix(lab[c], text[a..p])
    ensures HoldsWord(text, a, p, words)
  {
    EndsOn(lab[c], text[a..p], words);
    var w :| w in words && Suffix(w, text[a..p]);
    assert text[a..p][p - a - |w|..] == text[p - |w|..p];
    assert OccursAt(text, a, p, w, p - |w|);
  }

  lemma WordStays(text: seq<Char>, a: nat, p: nat, q: nat, words: set<seq<Char>>)
    requires HoldsWord(text, a, p, words) && p <= q <= |text|
    ensures HoldsWord(text, a, q, words)
  {
    var w, x: nat :| w in words && OccursAt(text, a, p, w, x);
    assert OccursAt(text, a, q, w, x);
  }

  /** Lines up to e, in their order, that hold a keyword each. */
  ghost predicate Selected(text: seq<Char>, sel: seq<(nat, nat)>, e: nat, words: set<seq<Char>>) {
    && (forall x :: 0 <= x < |sel| ==>
          IsLine(text, sel[x].0, sel[x].1) && HoldsWord(text, sel[x].0, sel[x].1, words) && sel[x].1 <= e)
    && forall x, y :: 0 <= x < y < |sel| ==> sel[x].1 <= sel[y].0
  }

  /** A line that starts with no keyword, and its newline. */
  ghost predicate Unopened(text: seq<Char>, a: nat, p: nat, words: set<seq<Char>>) {
    && 0 < p <= |text| && LineBegun(text, a, p - 1) && text[p - 1] == NL
    && forall w :: w in words ==> !StartsWith(text[a..p], w)
  }

  predicate StartsWith(s: seq<Char>, w: seq<Char>) {
    |w| <= |s| && s[..|w|] == w
  }

  lemma StartsNext(s: seq<Char>, c: Char, w: seq<Char>)
    ensures StartsWith(s + [c], w) ==> StartsWith(s, w) || w == s + [c]
  {
    if |w| <= |s| {
      assert (s + [c])[..|w|] == s[..|w|];
    }
  }

  /** A line at a that starts with a keyword. */
  ghost predicate Heads(text: seq<Char>, a: nat, words: set<seq<Char>>) {
    a < |text| && Starts(text, a) && exists w :: w in words && NL !in w && StartsWith(text[a..], w)
  }

  ghost predicate Chosen(sel: seq<(nat, nat)>, a: nat) {
    exists x :: 0 <= x < |sel| && sel[x].0 == a
  }

  /** All lines before e that start with a keyword. */
  ghost predicate Found(text: seq<Char>, sel: seq<(nat, nat)>, e: nat, words: set<seq<Char>>) {
    forall a: nat :: a < e && Heads(text, a, words) ==> Chosen(sel, a)
  }

  lemma OneStart(text: seq<Char>, a: nat, b: nat, x: nat)
    requires a < b <= |text| && LineBegun(text, a, b - 1) && a <= x < b && Starts(text, x)
    ensures x == a
  {
  }

  lemma FoundMore(text: seq<Char>, sel: seq<(nat, nat)>, a: nat, b: nat, words: set<seq<Char>>)
    requires Found(text, sel, a, words) && IsLine(text, a, b)
    ensures Found(text, sel + [(a, b)], b, words)
  {
    hide LineBegun, StartsWith;
    var now := sel + [(a, b)];
    assert now[|sel|].0 == a;
    forall x: nat | x < b && Heads(text, x, words)
      ensures Chosen(now, x)
    {
      if x < a {
        assert Chosen(sel, x);
        var y :| 0 <= y < |sel| && sel[y].0 == x;
        assert now[y].0 == x;
      } else {
        OneStart(text, a, b, x);
      }
    }
  }

  /** A line read in which no keyword was met at the start has none there. */
  lemma NoneMissed(text: seq<Char>, sel: seq<(nat, nat)>, a: nat, b: nat, words: set<seq<Char>>)
    requires Found(text, sel, a, words) && IsLine(text, a, b)
    requires forall w :: w in words ==> !StartsWith(text[a..b], w)
    ensures Found(text, sel, b, words)
  {
    forall x: nat | x < b && Heads(text, x, words)
      ensures Chosen(sel, x)
    {
      if x >= a {
        OneStart(text, a, b, x);
        var w :| w in words && NL !in w && StartsWith(text[a..], w);
        Short(text, a, b, w);
      }
    }
  }

  lemma Short(text: seq<Char>, a: nat, b: nat, w: seq<Char>)
    requires IsLine(text, a, b) && NL !in w && StartsWith(text[a..], w)
    ensures StartsWith(text[a..b], w)
  {
    assert forall x :: 0 <= x < |w| ==> w[x] == text[a..][..|w|][x] == text[a + x];
    assert b - 1 - a < |w| ==> w[b - 1 - a] == text[b - 1];
    assert text[a..][..|w|] == text[a..b][..|w|];
  }

  lemma SelectMore(text: seq<Char>, sel: seq<(nat, nat)>, a: nat, b: nat, words: set<seq<Char>>)
    requires Selected(text, sel, a, words) && IsLine(text, a, b) && HoldsWord(text, a, b, words)
    ensures Selected(text, sel + [(a, b)], b, words)
  {
    assert a < b;
    hide IsLine, HoldsWord;
  }

  lemma SelectLater(text: seq<Char>, sel: seq<(nat, nat)>, a: nat, b: nat, words: set<seq<Char>>)
    requires Selected(text, sel, a, words) && a <= b
    ensures Selected(text, sel, b, words)
  {
    hide IsLine, HoldsWord;
  }

  /** The last node of the state of node i. */
  ghost function LastNode(t: Trie, lab: seq<seq<Char>>, i: nat): (r: nat)
    requires Labelled(t, lab) && i < |lab|
    ensures i <= r < |lab| && t.link[r] == 0
    decreases |lab| - i
  {
    assert NodeOk(t, lab, i);
    if t.link[i] == 0 then i else LastNode(t, lab, t.link[i])
  }

  lemma OverEdge(t: Trie, lab: seq<seq<Char>>, i: nat, c: Char)
    requires Labelled(t, lab) && i < |lab|
    ensures t.link[i] != 0 ==> t.link[i] < |lab| && LastNode(t, lab, i) == LastNode(t, lab, t.link[i])
    ensures t.link[i] == 0 ==> LastNode(t, lab, i) == i
    ensures if t.inp[i] == c then Edge(t, lab, i, c) == t.nst[i] != 0
      else if t.link[i] == 0 then Edge(t, lab, i, c) == 0
      else Edge(t, lab, i, c) == Edge(t, lab, t.link[i], c)
  {
    assert NodeOk(t, lab, i);
  }

  lemma SizeNextIs(t: Trie, lab: seq<seq<Char>>, s: nat)
    requires Labelled(t, lab) && s < |lab|
    ensures t.link[s] < |lab| && SizeNext(t, lab, s) == if t.link[s] != 0 then Size(t, lab, t.link[s]) else 0
    ensures t.inp[s] != 0 ==>
      t.nst[s] < |lab| && Size(t, lab, s) == 1 + Size(t, lab, t.nst[s]) + SizeNext(t, lab, s)
    ensures t.inp[s] == 0 ==> Size(t, lab, s) == 1 + SizeNext(t, lab, s)
  {
    assert NodeOk(t, lab, s);
  }

  /** A state taken from the queue. */
  lemma NodeFirst(t: Trie, lab: seq<seq<Char>>, fail: seq<nat>, front: nat, front': nat, rear: nat, queue: seq<nat>,
                  rest: seq<nat>, done: set<nat>, s: nat, d0: nat, total: nat)
    returns (d: nat)
    requires Linking(t, lab, fail, queue, done, {}, d0) && Labelled(t, lab) && Queued(lab, queue)
    requires queue == [s] + rest && front' == if front == QSIZE - 1 then 0 else front + 1
    requires Narrow(t, total) ==> StraightAt(t, lab, front, rear, queue, 0, total)
    ensures AtNode(t, lab, fail, front', rear, rest, done, s, d, total, Load(t, lab, queue))
  {
    FirstOf(s, rest, queue);
    hide Linking, Labelled, StraightAt, Narrow, Size, Below, Puts, Chain;
    LoadFirst(t, lab, queue);
    TakeLinking(t, lab, fail, queue, done, d0);
    ChainNarrow(t, total);
    if Narrow(t, total) {
      TakeFirst(t, lab, front, rear, queue, total);
    }
    d := |lab[s]|;
  }

  lemma NodePass(t: Trie, lab: seq<seq<Char>>, fail: seq<nat>, front: nat, rear: nat, queue: seq<nat>,
                 done: set<nat>, s: nat, d: nat, total: nat, load: nat)
    requires AtNode(t, lab, fail, front, rear, queue, done, s, d, total, load) && s < |t.inp| && t.inp[s] == 0
    ensures PastNode(t, lab, fail, front, rear, queue, done + {s}, s, d, total, load)
  {
    SizeNextIs(t, lab, s);
    PutsIs(t, lab, s);
    RestIs(t, lab, s);
    hide Linking, Labelled, StraightAt, Narrow, Size, SizeNext, Below, BelowNext, Puts, Rest, Chain, Load;
    PassLinking(t, lab, fail, queue, done, s, d);
  }

  lemma NodeParts(t: Trie, lab: seq<seq<Char>>, fail: seq<nat>, front: nat, rear: nat, queue: seq<nat>,
                  done: set<nat>, s: nat, d: nat, total: nat, load: nat)
    requires AtNode(t, lab, fail, front, rear, queue, done, s, d, total, load)
    requires s < |t.inp| == |t.nst| && t.inp[s] != 0
    ensures Labelled(t, lab) && s < |lab| && lab[s] != [] && t.nst[s] < |lab|
    ensures Narrow(t, total) ==> |queue| != QSIZE - 1 && rear < QSIZE
    ensures Narrow(t, total) && rear == QSIZE - 1 ==> front == rear && total >= QSIZE
  {
    SameState(t, lab, s);
    LabelledSizes(t, lab);
    hide Linking, Labelled, StraightAt, Narrow, Size, Below, Puts, Chain, Load;
    if Narrow(t, total) {
      PutOne(t, lab, front, rear, queue, s, total);
    }
  }

  lemma NodePut(t: Trie, lab: seq<seq<Char>>, fail: seq<nat>, out: seq<bool>, fail': seq<nat>, out': seq<bool>,
                front: nat, rear: nat, rear': nat, queue: seq<nat>, done: set<nat>, s: nat, d: nat,
                total: nat, load: nat)
    requires AtNode(t, lab, fail, front, rear, queue, done, s, d, total, load) && s < |t.inp| && 0 < t.inp[s] < 256
    requires Labelled(t, lab) && s < |fail|
    requires Relinked(t, lab, t.nst[s], Through(t, lab, fail[s], t.inp[s]), fail, out, fail', out')
    requires Narrow(t, total) ==> rear < QSIZE - 1 && rear' == rear + 1
    ensures PastNode(t, lab, fail', front, rear', queue + [t.nst[s]], done + {s}, s, d, total, load)
  {
    SameState(t, lab, s);
    LabelledSizes(t, lab);
    SizeNextIs(t, lab, s);
    hide Linking, Labelled, StraightAt, Narrow, Size, SizeNext, Below, BelowNext, Puts, Rest, Chain, Load, Relinked,
      Through;
    LoadMore(t, lab, queue, t.nst[s]);
    PutLinking(t, lab, fail, out, fail', out', queue, done, s, d);
    if Narrow(t, total) {
      PutOne(t, lab, front, rear, queue, s, total);
    }
  }

  lemma NodeThen(t: Trie, lab: seq<seq<Char>>, fail: seq<nat>, front: nat, rear: nat, queue: seq<nat>,
                 done: set<nat>, s: nat, d: nat, total: nat, load: nat)
    requires PastNode(t, lab, fail, front, rear, queue, done, s, d, total, load) && s < |t.link|
    ensures t.link[s] != 0 ==>
      s < t.link[s] < |lab| && AtNode(t, lab, fail, front, rear, queue, done, t.link[s], d, total, load)
    ensures t.link[s] == 0 ==>
      Labelled(t, lab) && Queued(lab, queue) && Linking(t, lab, fail, queue, done, {}, d) && Load(t, lab, queue) < load
    ensures t.link[s] == 0 && Narrow(t, total) ==> StraightAt(t, lab, front, rear, queue, 0, total)
  {
    SameState(t, lab, s);
    LabelledSizes(t, lab);
    SizeNextIs(t, lab, s);
    RestIs(t, lab, s);
    NextIs(t, lab, s);
    hide Linking, Labelled, StraightAt, Narrow, Size, SizeNext, Below, BelowNext, Puts, Rest, Chain, Load;
    if t.link[s] != 0 {
      ChainEnds(t, s);
    }
  }

  lemma SameState(t: Trie, lab: seq<seq<Char>>, s: nat)
    requires Labelled(t, lab) && s < |lab|
    ensures t.link[s] != 0 ==> s < t.link[s] < |lab| && lab[t.link[s]] == lab[s]
    ensures t.inp[s] != 0 ==> 0 < t.inp[s] < 256 && s < t.nst[s] < |lab| && lab[t.nst[s]] == lab[s] + [t.inp[s]]
  {
    assert NodeOk(t, lab, s);
  }
}
