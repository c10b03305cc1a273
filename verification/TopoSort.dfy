/** tsort: topological order by repeated sweeps, cycles broken where they are found. */
module TopoSort {

  datatype State = DEAD | LIVE | VISITED

  /** The predecessor lists: in[v] holds the immediate predecessors of node v. */
  type Graph = seq<seq<nat>>

  ghost predicate Closed(g: Graph) {
    forall v, x :: 0 <= v < |g| && 0 <= x < |g[v]| ==> g[v][x] < |g|
  }

  /** A walk from each node to one of its predecessors. */
  ghost predicate Walk(g: Graph, p: seq<nat>) {
    && p != []
    && (forall x :: 0 <= x < |p| ==> p[x] < |g|)
    && forall x :: 0 <= x < |p| - 1 ==> Step(g, p, x)
  }

  ghost predicate Step(g: Graph, p: seq<nat>, x: nat) {
    x + 1 < |p| && p[x] < |g| && p[x + 1] in g[p[x]]
  }

  /** A walk that comes back to where it started. */
  ghost predicate Cycle(g: Graph, p: seq<nat>) {
    Walk(g, p) && |p| >= 2 && p[0] == p[|p| - 1]
  }

  ghost predicate Acyclic(g: Graph) {
    forall p :: !Cycle(g, p)
  }

  /** No node of the walk is printed yet. */
  ghost predicate Alive(live: seq<State>, p: seq<nat>) {
    forall x :: 0 <= x < |p| ==> p[x] < |live| && live[p[x]] != DEAD
  }

  /** The node lies on a cycle of nodes not printed yet. */
  ghost predicate OnCycle(g: Graph, v: nat, live: seq<State>) {
    exists p :: Cycle(g, p) && p[0] == v && Alive(live, p)
  }

  ghost predicate SameDead(a: seq<State>, b: seq<State>) {
    |a| == |b| && forall v :: 0 <= v < |a| ==> (a[v] == DEAD <==> b[v] == DEAD)
  }

  lemma SameCycle(g: Graph, v: nat, a: seq<State>, b: seq<State>)
    requires SameDead(a, b) && OnCycle(g, v, a)
    ensures OnCycle(g, v, b)
  {
    var p :| Cycle(g, p) && p[0] == v && Alive(a, p);
    assert Alive(b, p);
  }

  /** Every node not printed has a predecessor not printed. */
  ghost predicate Blocked(g: Graph, live: seq<State>) {
    |live| == |g| && forall v {:trigger HasPred(g, live, v)} :: 0 <= v < |g| && live[v] != DEAD ==> HasPred(g, live, v)
  }

  ghost predicate HasPred(g: Graph, live: seq<State>, v: nat) {
    v < |g| && exists x :: 0 <= x < |g[v]| && g[v][x] < |live| && live[g[v][x]] != DEAD
  }

  /** The visited nodes are a walk. */
  ghost predicate Trail(g: Graph, live: seq<State>, path: seq<nat>) {
    && (path != [] ==> Walk(g, path))
    && forall v: nat :: v < |live| ==> (live[v] == VISITED <==> v in path)
  }

  lemma CycleFound(g: Graph, live: seq<State>, path: seq<nat>, v: nat)
    requires |live| == |g| && v < |g| && v in path && Trail(g, live, path) && Walk(g, path + [v])
    ensures OnCycle(g, v, live)
  {
    var k :| 0 <= k < |path| && path[k] == v;
    var p := (path + [v])[k..];
    assert p[0] == v && p[|p| - 1] == v;
    forall x | 0 <= x < |p| - 1
      ensures Step(g, p, x)
    {
      assert Step(g, path + [v], k + x);
      assert p[x] == (path + [v])[k + x] && p[x + 1] == (path + [v])[k + x + 1];
    }
    assert Cycle(g, p);
    forall x | 0 <= x < |p|
      ensures live[p[x]] != DEAD
    {
      assert p[x] == (path + [v])[k + x];
      assert p[x] in path;
    }
    assert Alive(live, p);
  }

  lemma WalkOn(g: Graph, p: seq<nat>, v: nat)
    requires v < |g| && (p != [] ==> Walk(g, p) && v in g[p[|p| - 1]])
    ensures Walk(g, p + [v])
  {
    var q := p + [v];
    forall x | 0 <= x < |q| - 1
      ensures Step(g, q, x)
    {
      assert x + 1 < |p| ==> Step(g, p, x);
    }
  }

  ghost function Living(live: seq<State>): set<nat> {
    set v: nat | v < |live| && live[v] == LIVE
  }

  class Sorter {
    var names: seq<string>
    var inedges: Graph
    var live: seq<State>

    ghost predicate Valid()
      reads this
    {
      |names| == |inedges| == |live| && Closed(inedges)
    }

    /** Is there a predecessor of i not yet printed? */
    method AnyPred(i: nat) returns (r: bool)
      requires Valid() && i < |names| && VISITED !in live
      ensures r <==> HasPred(inedges, live, i)
    {
      var t := 0;
      while t < |inedges[i]|
        invariant 0 <= t <= |inedges[i]| && forall x :: 0 <= x < t ==> live[inedges[i][x]] == DEAD
      {
        if live[inedges[i][t]] == LIVE {
          return true;
        }
        t := t + 1;
      }
      r := false;
    }

    /** Search the predecessors depth first for a node already on the path; -1 if
        there is none. */
    method Mark(i: nat, ghost path: seq<nat>) returns (j: int)
      requires Valid() && i < |names| && Blocked(inedges, live) && Trail(inedges, live, path)
      requires Walk(inedges, path + [i])
      modifies `live
      ensures SameDead(old(live), live)
      ensures old(live)[i] == DEAD ==> j == -1 && live == old(live)
      ensures old(live)[i] != DEAD ==> j >= 0 && OnCycle(inedges, j, live)
      decreases |Living(live)|
    {
      if live[i] == DEAD {
        return -1;
      }
      if live[i] == VISITED {
        VisitedOnTrail(inedges, live, path, i);
        CycleFound(inedges, live, path, i);
        return i;
      }
      ghost var was := live;
      live := live[i := VISITED];
      OneVisited(inedges, was, path, i);
      j := -1;
      var t := 0;
      hide Blocked, Trail, Walk, OnCycle, Living;
      while j == -1 && t < |inedges[i]|
        invariant 0 <= t <= |inedges[i]| && SameDead(was, live) && j >= -1
        invariant j == -1 ==> live == was[i := VISITED] && HasPredFrom(inedges, was, i, t)
        invariant j != -1 ==> OnCycle(inedges, j, live)
        decreases |inedges[i]| - t
      {
        WalkOn(inedges, path + [i], inedges[i][t]);
        j := Mark(inedges[i][t], path + [i]);
        t := t + 1;
      }
    }

    /** Some node of a cycle, when every live node has a live predecessor. */
    method FindLoop() returns (i: nat)
      requires Valid() && VISITED !in live && LIVE in live && Blocked(inedges, live)
      modifies `live
      ensures live == old(live) && i < |names| && live[i] == LIVE && OnCycle(inedges, i, live)
    {
      ghost var was := live;
      i := 0;
      while live[i] != LIVE
        invariant i < |live| && exists v :: i <= v < |live| && live[v] == LIVE
        decreases |live| - i
      {
        i := i + 1;
      }
      NoTrail(inedges, live, i);
      hide Blocked, Trail, Walk, OnCycle;
      var j := Mark(i, []);
      i := j;
      SameCycle(inedges, i, live, was);
      CycleNodes(inedges, i, was);
      var v := 0;
      while v < |live|
        invariant 0 <= v <= |live| && SameDead(was, live)
        invariant forall x :: 0 <= x < v ==> live[x] != VISITED
      {
        if live[v] == VISITED {
          live := live[v := LIVE];
        }
        v := v + 1;
      }
      assert live == was;
    }

    constructor ()
      ensures Reads([])
    {
      names, inedges, live := [], [], [];
    }

    /** The graph of the pairs read, all nodes live. */
    ghost predicate Reads(pairs: seq<(string, string)>)
      reads this
    {
      Valid() && IsGraph(names, inedges, pairs) && OnlyItems(names, pairs) && AllLive(live)
    }

    /** The node of an item, made if there is none. */
    method Index(s: string) returns (i: nat)
      requires Valid()
      modifies this
      ensures Valid() && i < |names| && names[i] == s
      ensures if s in old(names) then names == old(names) && inedges == old(inedges) && live == old(live)
        else names == old(names) + [s] && inedges == old(inedges) + [[]] && live == old(live) + [LIVE]
    {
      i := 0;
      while i < |names|
        invariant i <= |names| && forall x :: 0 <= x < i ==> names[x] != s
      {
        if names[i] == s {
          return;
        }
        i := i + 1;
      }
      names, inedges, live := names + [s], inedges + [[]], live + [LIVE];
    }

    method Present(i: nat, j: nat) returns (r: bool)
      requires Valid() && j < |names|
      ensures r <==> i in inedges[j]
    {
      var t := 0;
      while t < |inedges[j]|
        invariant 0 <= t <= |inedges[j]| && forall x :: 0 <= x < t ==> inedges[j][x] != i
      {
        if inedges[j][t] == i {
          return true;
        }
        t := t + 1;
      }
      r := false;
    }

    /** Read one more pair. */
    method ReadPair(ghost pairs: seq<(string, string)>, precedes: string, follows: string)
      requires Reads(pairs)
      modifies this
      ensures Reads(pairs + [(precedes, follows)])
    {
      hide Closed, IsGraph, OnlyItems, AllLive;
      ghost var all := pairs + [(precedes, follows)];
      NewNode(names, inedges, live, pairs, precedes, all);
      var i := Index(precedes);
      NewNode(names, inedges, live, pairs, follows, all);
      var j := Index(follows);
      var there := Present(i, j);
      assert names[i] == precedes && names[j] == follows;
      NewEdge(names, inedges, pairs, i, j);
      if i != j && !there {
        inedges := inedges[j := [i] + inedges[j]];
      }
    }

    /** Read the input. */
    method ReadAll(input: seq<(string, string)>)
      requires Reads([])
      modifies this
      ensures Reads(input)
    {
      var n := 0;
      while n < |input|
        invariant 0 <= n <= |input| && Reads(input[..n])
      {
        ReadPair(input[..n], input[n].0, input[n].1);
        assert input[..n + 1] == input[..n] + [(input[n].0, input[n].1)];
        n := n + 1;
      }
      assert input[..n] == input;
    }

    /** The sweep: the first live node without a live predecessor; past the last
        node if there is none. */
    method Sweep() returns (i: nat, x: bool)
      requires Valid() && VISITED !in live
      ensures x <==> LIVE in live
      ensures i <= |names|
      ensures i < |names| ==> live[i] == LIVE && !HasPred(inedges, live, i)
      ensures i == |names| ==> Blocked(inedges, live)
    {
      i, x := 0, false;
      hide HasPred;
      while i < |names|
        invariant i <= |names| && (x <==> exists v :: 0 <= v < i && live[v] == LIVE)
        invariant forall v {:trigger HasPred(inedges, live, v)} ::
          0 <= v < i && live[v] != DEAD ==> HasPred(inedges, live, v)
      {
        if live[i] == LIVE {
          x := true;
          var some := AnyPred(i);
          if !some {
            break;
          }
        }
        i := i + 1;
      }
    }

    /** Print the nodes; noted tells whether a cycle was reported. */
    method Output() returns (printed: seq<nat>, noted: bool)
      requires Valid() && AllLive(live)
      modifies `live
      ensures |printed| == |names| && Distinct(printed) && forall v: nat :: v < |names| ==> v in printed
      ensures forall n :: 0 <= n < |printed| ==> After(inedges, printed, n) || Broken(inedges, printed, n)
      ensures noted <==> !Acyclic(inedges)
      ensures Acyclic(inedges) ==> forall n :: 0 <= n < |printed| ==> After(inedges, printed, n)
    {
      printed, noted := [], false;
      hide After, Broken, HasPred, OnCycle, Acyclic, AllLive, Blocked, Closed;
      StartPrinting(inedges, live);
      while true
        invariant Valid() && Printing(inedges, live, printed, noted)
        decreases |Living(live)|
      {
        NoneVisited(inedges, live, printed, noted);
        var i, x := Sweep();
        if !x {
          break;
        }
        var free := i < |names|;
        if !free {
          i := FindLoop();
        }
        PrintOne(inedges, live, printed, noted, i, free);
        noted := noted || !free;
        printed := printed + [i];
        live := live[i := DEAD];
      }
      AllPrinted(inedges, live, printed, noted);
    }

    /** The whole program, for an input of pairs. */
    method TSort(input: seq<(string, string)>) returns (out: seq<string>, noted: bool)
      requires Reads([])
      modifies this
      ensures Distinct(out) && forall s :: s in out <==> Item(input, s)
      ensures IsGraph(names, inedges, input) && (noted <==> !Acyclic(inedges))
      ensures !noted ==> forall q :: q in input && q.0 != q.1 ==> Precedes(out, q.0, q.1)
      ensures forall n :: 0 <= n < |out| ==> ItemAfter(input, out, n) || ItemOnCycle(input, out, n)
    {
      ReadAll(input);
      hide IsGraph, OnlyItems, AllLive, Acyclic, After, Broken, Closed, Distinct;
      var printed;
      printed, noted := Output();
      out := [];
      var n := 0;
      PrintedNodes(names, inedges, input, printed);
      while n < |printed|
        invariant 0 <= n <= |printed| && |out| == n
        invariant forall x :: 0 <= x < n ==> out[x] == names[printed[x]]
      {
        out := out + [names[printed[n]]];
        n := n + 1;
      }
      NamesPrinted(names, inedges, input, printed, out);
      if !noted {
        OrderPrinted(names, inedges, input, printed, out);
      }
      ItemsPrinted(names, inedges, input, printed, out);
    }
  }

  /** The n-th item comes after every item that is to come before it. */
  ghost predicate ItemAfter(input: seq<(string, string)>, out: seq<string>, n: nat) {
    n < |out| && forall q :: q in input && q.1 == out[n] && q.0 != q.1 ==> q.0 in out[..n]
  }

  /** The n-th item was on a cycle of items, none of them before it in the output. */
  ghost predicate ItemOnCycle(input: seq<(string, string)>, out: seq<string>, n: nat) {
    n < |out| && exists c :: ItemCycle(input, c) && c[0] == out[n] && forall s :: s in c ==> s !in out[..n]
  }

  /** Each item is to come after the next one, and the last is the first. */
  ghost predicate ItemCycle(input: seq<(string, string)>, c: seq<string>) {
    && |c| >= 2 && c[0] == c[|c| - 1]
    && forall x :: 0 <= x < |c| - 1 ==> ItemStep(input, c, x)
  }

  ghost predicate ItemStep(input: seq<(string, string)>, c: seq<string>, x: nat) {
    x + 1 < |c| && c[x] != c[x + 1] && (c[x + 1], c[x]) in input
  }

  /** a comes before b in the output. */
  ghost predicate Precedes(out: seq<string>, a: string, b: string) {
    exists i, j :: 0 <= i < j < |out| && out[i] == a && out[j] == b
  }

  lemma PrintedNodes(names: seq<string>, g: Graph, input: seq<(string, string)>, printed: seq<nat>)
    requires |names| == |g| && Distinct(printed) && |printed| == |g| && forall v: nat :: v < |g| ==> v in printed
    ensures forall x :: 0 <= x < |printed| ==> printed[x] < |names|
  {
    AllBelow(printed, |g|);
  }

  lemma Omitted(s: seq<nat>, i: nat, v: nat)
    requires i < |s|
    ensures v in s <==> v in s[..i] + s[i + 1..] || v == s[i]
  {
    assert s == s[..i] + [s[i]] + s[i + 1..];
  }

  /** n different numbers that include all below n are no others. */
  lemma {:induction false} AllBelow(s: seq<nat>, n: nat)
    requires Distinct(s) && |s| == n && forall v: nat :: v < n ==> v in s
    ensures forall x :: 0 <= x < |s| ==> s[x] < n
  {
    if n > 0 {
      assert n - 1 in s;
      var i :| 0 <= i < |s| && s[i] == n - 1;
      var t := s[..i] + s[i + 1..];
      forall v: nat | v < n - 1
        ensures v in t
      {
        Omitted(s, i, v);
      }
      AllBelow(t, n - 1);
      forall x | 0 <= x < |s|
        ensures s[x] < n
      {
        assert x != i ==> s[x] == t[if x < i then x else x - 1];
      }
    }
  }

  lemma NamesPrinted(names: seq<string>, g: Graph, input: seq<(string, string)>, printed: seq<nat>, out: seq<string>)
    requires IsGraph(names, g, input) && OnlyItems(names, input)
    requires |out| == |printed| && forall x :: 0 <= x < |out| ==> printed[x] < |names| && out[x] == names[printed[x]]
    requires Distinct(printed) && forall v: nat :: v < |g| ==> v in printed
    ensures Distinct(out) && forall s :: s in out <==> Item(input, s)
  {
    hide Item, Closed, Joined;
    forall s | Item(input, s)
      ensures s in out
    {
      assert s in names;
      var v: nat :| v < |names| && names[v] == s;
      assert v in printed;
      var x :| 0 <= x < |printed| && printed[x] == v;
      assert out[x] == s;
    }
  }

  /** In an order that respects the graph the items of a pair are in order. */
  lemma OrderPrinted(names: seq<string>, g: Graph, input: seq<(string, string)>, printed: seq<nat>, out: seq<string>)
    requires IsGraph(names, g, input)
    requires |out| == |printed| && forall x :: 0 <= x < |out| ==> printed[x] < |names| && out[x] == names[printed[x]]
    requires (forall v: nat :: v < |g| ==> v in printed) && forall n :: 0 <= n < |printed| ==> After(g, printed, n)
    ensures forall q :: q in input && q.0 != q.1 ==> Precedes(out, q.0, q.1)
  {
    hide Closed, Distinct;
    forall q | q in input && q.0 != q.1
      ensures Precedes(out, q.0, q.1)
    {
      var x :| 0 <= x < |input| && input[x] == q;
      assert Item(input, q.0) && Item(input, q.1);
      var a: nat :| a < |names| && names[a] == q.0;
      var b: nat :| b < |names| && names[b] == q.1;
      assert b in printed;
      assert Joined(names, input, a, b) && a in g[b];
      var j :| 0 <= j < |printed| && printed[j] == b;
      assert After(g, printed, j);
      var i :| 0 <= i < j && printed[..j][i] == a;
      assert out[i] == q.0 && out[j] == q.1;
    }
  }

  /** What has been printed, by item. */
  lemma SamePrinted(names: seq<string>, printed: seq<nat>, out: seq<string>, n: nat, v: nat)
    requires Distinct(names) && v < |names| && n <= |out| == |printed|
    requires forall x :: 0 <= x < |out| ==> printed[x] < |names| && out[x] == names[printed[x]]
    ensures v in printed[..n] <==> names[v] in out[..n]
  {
    if v in printed[..n] {
      var x :| 0 <= x < n && printed[..n][x] == v;
      assert out[..n][x] == names[v];
    }
    if names[v] in out[..n] {
      var x :| 0 <= x < n && out[..n][x] == names[v];
      assert printed[..n][x] == printed[x] && names[printed[x]] == names[v];
    }
  }

  lemma ItemsPrinted(names: seq<string>, g: Graph, input: seq<(string, string)>, printed: seq<nat>, out: seq<string>)
    requires IsGraph(names, g, input)
    requires |out| == |printed| && forall x :: 0 <= x < |out| ==> printed[x] < |names| && out[x] == names[printed[x]]
    requires forall n :: 0 <= n < |printed| ==> After(g, printed, n) || Broken(g, printed, n)
    ensures forall n :: 0 <= n < |out| ==> ItemAfter(input, out, n) || ItemOnCycle(input, out, n)
  {
    hide After, Broken, ItemAfter, ItemOnCycle, IsGraph;
    forall n | 0 <= n < |out|
      ensures ItemAfter(input, out, n) || ItemOnCycle(input, out, n)
    {
      if After(g, printed, n) {
        AfterItem(names, g, input, printed, out, n);
      } else {
        BrokenItem(names, g, input, printed, out, n);
      }
    }
  }

  lemma AfterItem(names: seq<string>, g: Graph, input: seq<(string, string)>, printed: seq<nat>, out: seq<string>,
                  n: nat)
    requires IsGraph(names, g, input) && After(g, printed, n)
    requires |out| == |printed| && forall x :: 0 <= x < |out| ==> printed[x] < |names| && out[x] == names[printed[x]]
    ensures ItemAfter(input, out, n)
  {
    hide Closed, Distinct;
    forall q | q in input && q.1 == out[n] && q.0 != q.1
      ensures q.0 in out[..n]
    {
      var x :| 0 <= x < |input| && input[x] == q;
      assert Item(input, q.0);
      var a: nat :| a < |names| && names[a] == q.0;
      assert Joined(names, input, a, printed[n]) && a in g[printed[n]];
      SamePrinted(names, printed, out, n, a);
    }
  }

  lemma BrokenItem(names: seq<string>, g: Graph, input: seq<(string, string)>, printed: seq<nat>, out: seq<string>,
                   n: nat)
    requires IsGraph(names, g, input) && Broken(g, printed, n)
    requires |out| == |printed| && forall x :: 0 <= x < |out| ==> printed[x] < |names| && out[x] == names[printed[x]]
    ensures ItemOnCycle(input, out, n)
  {
    var p :| Cycle(g, p) && p[0] == printed[n] && forall v :: v in p ==> v !in printed[..n];
    var c := seq(|p|, x requires 0 <= x < |p| => names[p[x]]);
    forall x | 0 <= x < |c| - 1
      ensures ItemStep(input, c, x)
    {
      assert Step(g, p, x);
      assert Joined(names, input, p[x + 1], p[x]);
      assert p[x + 1] < |names| && p[x] < |names|;
    }
    assert ItemCycle(input, c);
    forall s | s in c
      ensures s !in out[..n]
    {
      var x :| 0 <= x < |c| && c[x] == s;
      assert p[x] in p;
      SamePrinted(names, printed, out, n, p[x]);
    }
    assert c[0] == out[n];
  }

  /** All predecessors of the n-th node printed came before it. */
  ghost predicate After(g: Graph, printed: seq<nat>, n: nat) {
    n < |printed| && printed[n] < |g| && forall v :: v in g[printed[n]] ==> v in printed[..n]
  }

  /** The n-th node printed was on a cycle of nodes not printed before. */
  ghost predicate Broken(g: Graph, printed: seq<nat>, n: nat) {
    n < |printed| && exists p :: Cycle(g, p) && p[0] == printed[n] && forall v :: v in p ==> v !in printed[..n]
  }

  ghost predicate Printing(g: Graph, live: seq<State>, printed: seq<nat>, noted: bool) {
    && |live| == |g| && VISITED !in live && Distinct(printed)
    && (forall v :: v in printed ==> v < |g|)
    && (forall v: nat :: v < |g| ==> (live[v] == DEAD <==> v in printed))
    && (forall n :: 0 <= n < |printed| ==> After(g, printed, n) || (noted && Broken(g, printed, n)))
    && (noted ==> !Acyclic(g))
  }

  lemma StartPrinting(g: Graph, live: seq<State>)
    requires |live| == |g| && AllLive(live)
    ensures Printing(g, live, [], false)
  {
    forall s | s in live
      ensures s == LIVE
    {
      var v :| 0 <= v < |live| && live[v] == s;
    }
  }

  lemma NoneVisited(g: Graph, live: seq<State>, printed: seq<nat>, noted: bool)
    requires Printing(g, live, printed, noted)
    ensures VISITED !in live
  {
  }

  /** One node more, free or off a cycle. */
  lemma PrintOne(g: Graph, live: seq<State>, printed: seq<nat>, was: bool, i: nat, free: bool)
    requires Closed(g) && i < |g| == |live| && live[i] == LIVE
    requires if free then !HasPred(g, live, i) else OnCycle(g, i, live)
    requires Printing(g, live, printed, was)
    ensures Printing(g, live[i := DEAD], printed + [i], was || !free)
    ensures |Living(live[i := DEAD])| < |Living(live)|
  {
    var more, n := printed + [i], |printed|;
    assert Living(live[i := DEAD]) == Living(live) - {i} && i in Living(live);
    forall m | 0 <= m < n
      ensures After(g, more, m) == After(g, printed, m) && Broken(g, more, m) == Broken(g, printed, m)
    {
      assert more[..m] == printed[..m];
    }
    assert more[..n] == printed;
    if free {
      FreeAfter(g, live, more, n, i);
    } else {
      LoopBroken(g, live, more, n, i);
    }
    hide After, Broken, Acyclic, OnCycle, HasPred, Closed;
  }

  lemma FreeAfter(g: Graph, live: seq<State>, printed: seq<nat>, n: nat, i: nat)
    requires Closed(g) && |live| == |g| && i < |g| && !HasPred(g, live, i) && n < |printed| && printed[n] == i
    requires forall v: nat :: v < |g| ==> (live[v] == DEAD <==> v in printed[..n])
    ensures After(g, printed, n)
  {
    forall v | v in g[i]
      ensures v in printed[..n]
    {
      var x :| 0 <= x < |g[i]| && g[i][x] == v;
    }
  }

  lemma LoopBroken(g: Graph, live: seq<State>, printed: seq<nat>, n: nat, i: nat)
    requires |live| == |g| && OnCycle(g, i, live) && n < |printed| && printed[n] == i
    requires forall v: nat :: v < |g| ==> (live[v] == DEAD <==> v in printed[..n])
    ensures Broken(g, printed, n) && !Acyclic(g)
  {
    var p :| Cycle(g, p) && p[0] == i && Alive(live, p);
    forall v | v in p
      ensures v !in printed[..n]
    {
      var x :| 0 <= x < |p| && p[x] == v;
    }
  }

  /** When nothing is live every node is printed, and without a report the graph
      has no cycle. */
  lemma AllPrinted(g: Graph, live: seq<State>, printed: seq<nat>, noted: bool)
    requires Printing(g, live, printed, noted) && LIVE !in live
    ensures |printed| == |g| && forall v: nat :: v < |g| ==> v in printed
    ensures forall n :: 0 <= n < |printed| ==> After(g, printed, n) || Broken(g, printed, n)
    ensures noted <==> !Acyclic(g)
    ensures !noted ==> forall n :: 0 <= n < |printed| ==> After(g, printed, n)
  {
    forall v: nat | v < |g|
      ensures v in printed
    {
      assert live[v] == DEAD;
    }
    hide After, Broken, Acyclic;
    AllCount(printed, |g|);
    if !noted {
      OrderAcyclic(g, printed);
    }
  }

  lemma {:induction false} AllCount(s: seq<nat>, n: nat)
    requires Distinct(s) && forall v: nat :: v in s <==> v < n
    ensures |s| == n
  {
    assert s != [] ==> s[0] in s;
    if n > 0 {
      assert n - 1 in s;
      var i :| 0 <= i < |s| && s[i] == n - 1;
      var t := s[..i] + s[i + 1..];
      forall v: nat
        ensures v in t <==> v < n - 1
      {
        Omitted(s, i, v);
      }
      AllCount(t, n - 1);
    }
  }

  /** Along a walk back through predecessors the places in the order go down. */
  lemma {:induction false} WalkOrder(g: Graph, printed: seq<nat>, p: seq<nat>, x: nat) returns (k: nat)
    requires Walk(g, p) && x < |p| && p[0] in printed && Distinct(printed)
    requires forall n :: 0 <= n < |printed| ==> After(g, printed, n)
    ensures k + x < |printed| && printed[k] == p[x]
    ensures forall j :: 0 <= j < |printed| && printed[j] == p[0] ==> k + x <= j
  {
    if x == 0 {
      k :| 0 <= k < |printed| && printed[k] == p[0];
    } else {
      var m := WalkOrder(g, printed, p, x - 1);
      assert Step(g, p, x - 1) && After(g, printed, m);
      k :| 0 <= k < m && printed[..m][k] == p[x];
    }
  }

  lemma OrderAcyclic(g: Graph, printed: seq<nat>)
    requires Distinct(printed) && forall v: nat :: v < |g| ==> v in printed
    requires forall n :: 0 <= n < |printed| ==> After(g, printed, n)
    ensures Acyclic(g)
  {
    hide After;
    forall p
      ensures !Cycle(g, p)
    {
      if Cycle(g, p) {
        var k := WalkOrder(g, printed, p, |p| - 1);
      }
    }
  }

  ghost predicate AllLive(live: seq<State>) {
    forall v :: 0 <= v < |live| ==> live[v] == LIVE
  }

  /** A node for each item, and an edge once for each pair of different items. */
  ghost predicate IsGraph(names: seq<string>, g: Graph, pairs: seq<(string, string)>) {
    && |names| == |g| && Closed(g) && Distinct(names)
    && (forall s :: Item(pairs, s) ==> s in names)
    && (forall v :: 0 <= v < |g| ==> Distinct(g[v]))
    && forall i: nat, j: nat :: i < |g| && j < |g| ==> (i in g[j] <==> Joined(names, pairs, i, j))
  }

  ghost predicate Joined(names: seq<string>, pairs: seq<(string, string)>, i: nat, j: nat) {
    i < |names| && j < |names| && i != j && (names[i], names[j]) in pairs
  }

  ghost predicate OnlyItems(names: seq<string>, pairs: seq<(string, string)>) {
    forall s :: s in names ==> Item(pairs, s)
  }

  /** Making a node where needed. */
  lemma NewNode(names: seq<string>, g: Graph, live: seq<State>, pairs: seq<(string, string)>, s: string,
                all: seq<(string, string)>)
    requires |names| == |g| == |live| && IsGraph(names, g, pairs) && AllLive(live)
    requires OnlyItems(names, pairs) || OnlyItems(names, all)
    requires |all| == |pairs| + 1 && all[..|pairs|] == pairs && (all[|pairs|].0 == s || all[|pairs|].1 == s)
    ensures s in names ==> OnlyItems(names, all)
    ensures s !in names ==>
      IsGraph(names + [s], g + [[]], pairs) && AllLive(live + [LIVE]) && OnlyItems(names + [s], all)
  {
    ItemsGrow(pairs, all, s);
    if s !in names {
      var n, h := names + [s], g + [[]];
      forall i: nat, j: nat | i < |h| && j < |h|
        ensures i in h[j] <==> Joined(n, pairs, i, j)
      {
        if (n[i], n[j]) in pairs {
          assert Item(pairs, n[i]) && Item(pairs, n[j]);
        }
        assert i < |g| && j < |g| ==> (Joined(names, pairs, i, j) <==> Joined(n, pairs, i, j));
      }
      hide Item, Joined;
    }
  }

  lemma ItemsGrow(pairs: seq<(string, string)>, all: seq<(string, string)>, s: string)
    requires |all| == |pairs| + 1 && all[..|pairs|] == pairs && (all[|pairs|].0 == s || all[|pairs|].1 == s)
    ensures Item(all, s) && forall t :: Item(pairs, t) ==> Item(all, t)
  {
    forall t | Item(pairs, t)
      ensures Item(all, t)
    {
      var x :| 0 <= x < |pairs| && (pairs[x].0 == t || pairs[x].1 == t);
      assert all[x] == all[..|pairs|][x];
    }
  }

  /** Making an edge where needed. */
  lemma NewEdge(names: seq<string>, g: Graph, pairs: seq<(string, string)>, i: nat, j: nat)
    requires IsGraph(names, g, pairs) && i < |names| && j < |names|
    ensures IsGraph(names, if i != j && i !in g[j] then g[j := [i] + g[j]] else g, pairs + [(names[i], names[j])])
    ensures Closed(if i != j && i !in g[j] then g[j := [i] + g[j]] else g)
  {
    var all := pairs + [(names[i], names[j])];
    var h := if i != j && i !in g[j] then g[j := [i] + g[j]] else g;
    forall s | Item(all, s)
      ensures s in names
    {
      var x :| 0 <= x < |all| && (all[x].0 == s || all[x].1 == s);
      assert x < |pairs| ==> all[x] == pairs[x] && Item(pairs, s);
    }
    forall a: nat, b: nat | a < |h| && b < |h|
      ensures a in h[b] <==> Joined(names, all, a, b)
    {
      assert Joined(names, all, a, b) <==> Joined(names, pairs, a, b) || (a != b && a == i && b == j) by {
        assert (names[a], names[b]) in all <==>
               ((names[a], names[b]) in pairs || (names[a] == names[i] && names[b] == names[j]));
      }
      assert a in g[b] <==> Joined(names, pairs, a, b);
    }
    hide Item, Joined;
  }

  ghost predicate Item(pairs: seq<(string, string)>, s: string) {
    exists x :: 0 <= x < |pairs| && (pairs[x].0 == s || pairs[x].1 == s)
  }

  ghost predicate Distinct<T(!new)>(s: seq<T>) {
    forall x, y :: 0 <= x < y < |s| ==> s[x] != s[y]
  }

  /** One of the predecessors from the t-th on is not printed. */
  ghost predicate HasPredFrom(g: Graph, live: seq<State>, v: nat, t: nat) {
    v < |g| && exists x :: t <= x < |g[v]| && g[v][x] < |live| && live[g[v][x]] != DEAD
  }

  lemma VisitedOnTrail(g: Graph, live: seq<State>, path: seq<nat>, i: nat)
    requires Trail(g, live, path) && i < |live| && live[i] == VISITED
    ensures i in path
  {
  }

  /** Going on from a live node. */
  lemma OneVisited(g: Graph, live: seq<State>, path: seq<nat>, i: nat)
    requires |live| == |g| && i < |g| && live[i] == LIVE && Blocked(g, live) && Trail(g, live, path)
    requires Walk(g, path + [i])
    ensures SameDead(live, live[i := VISITED]) && Blocked(g, live[i := VISITED])
    ensures Trail(g, live[i := VISITED], path + [i])
    ensures HasPredFrom(g, live, i, 0) && |Living(live[i := VISITED])| < |Living(live)|
  {
    var now := live[i := VISITED];
    assert HasPred(g, live, i);
    hide Walk;
    assert Living(now) == Living(live) - {i} && i in Living(live);
    SameBlocked(g, live, now);
    hide Blocked;
  }

  lemma SameBlocked(g: Graph, a: seq<State>, b: seq<State>)
    requires Blocked(g, a) && SameDead(a, b)
    ensures Blocked(g, b)
  {
    forall v | 0 <= v < |g| && b[v] != DEAD
      ensures HasPred(g, b, v)
    {
      assert HasPred(g, a, v);
      var x :| 0 <= x < |g[v]| && g[v][x] < |a| && a[g[v][x]] != DEAD;
      assert b[g[v][x]] != DEAD;
    }
  }

  lemma NoTrail(g: Graph, live: seq<State>, i: nat)
    requires VISITED !in live && i < |g|
    ensures Trail(g, live, []) && Walk(g, [] + [i])
  {
    assert [] + [i] == [i];
  }

  lemma CycleNodes(g: Graph, v: nat, live: seq<State>)
    requires OnCycle(g, v, live)
    ensures v < |g| && v < |live| && live[v] != DEAD
  {
  }
}
