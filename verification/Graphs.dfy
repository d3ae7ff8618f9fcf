/** Finite directed graphs as the gates keep them: a dictionary from a node to the set of
    nodes it waits for. A node that is only ever a target has no entry. */
module Graphs {

  type Graph<N(==)> = map<N, set<N>>

  /** The nodes n has edges to; none where the graph has no entry for it. */
  function Succ<N(==)>(g: Graph<N>, n: N): set<N> {
    if n in g then g[n] else {}
  }

  function Targets<N(==)>(g: Graph<N>): set<N> {
    set a, b | a in g && b in g[a] :: b
  }

  /** Keys and targets: every node the graph speaks of. */
  function Nodes<N(==)>(g: Graph<N>): set<N> {
    g.Keys + Targets(g)
  }

  /** The graph of a dictionary of lists. */
  function Declared<N(==)>(lists: map<N, seq<N>>): Graph<N> {
    map n | n in lists :: set d | d in lists[n]
  }

  /** The same without the targets that are no keys. */
  function Known<N(==)>(lists: map<N, seq<N>>): Graph<N> {
    map n | n in lists :: set d | d in lists[n] && d in lists
  }

  ghost predicate Edge<N>(g: Graph<N>, a: N, b: N) {
    b in Succ(g, a)
  }

  ghost predicate StepAt<N>(g: Graph<N>, p: seq<N>, i: int) {
    0 <= i < |p| - 1 && Edge(g, p[i], p[i + 1])
  }

  /** A non-empty list of nodes, each an edge away from the one before. */
  ghost predicate IsWalk<N>(g: Graph<N>, p: seq<N>) {
    |p| > 0 && forall i {:trigger StepAt(g, p, i)} :: 0 <= i < |p| - 1 ==> StepAt(g, p, i)
  }

  ghost predicate WalkFromTo<N>(g: Graph<N>, p: seq<N>, a: N, b: N) {
    IsWalk(g, p) && p[0] == a && p[|p| - 1] == b
  }

  ghost predicate Reach<N(!new)>(g: Graph<N>, a: N, b: N) {
    exists p :: WalkFromTo(g, p, a, b)
  }

  /** A walk of at least one edge from a back to a, written with both ends. */
  ghost predicate ClosedWalk<N>(g: Graph<N>, p: seq<N>, a: N) {
    |p| > 1 && WalkFromTo(g, p, a, a)
  }

  ghost predicate OnCycle<N(!new)>(g: Graph<N>, n: N) {
    exists p :: ClosedWalk(g, p, n)
  }

  ghost predicate Acyclic<N(!new)>(g: Graph<N>) {
    forall n :: !OnCycle(g, n)
  }

  ghost predicate MutuallyReachable<N(!new)>(g: Graph<N>, a: N, b: N) {
    Reach(g, a, b) && Reach(g, b, a)
  }

  ghost predicate Subgraph<N(!new)>(g: Graph<N>, h: Graph<N>) {
    forall a, b :: Edge(g, a, b) ==> Edge(h, a, b)
  }

  lemma EdgeNodes<N(!new)>(g: Graph<N>, a: N, b: N)
    requires Edge(g, a, b)
    ensures a in Nodes(g) && b in Nodes(g)
  {
    assert a in g && b in g[a];
  }

  lemma ReachSelf<N(!new)>(g: Graph<N>, a: N)
    ensures Reach(g, a, a)
  {
    assert WalkFromTo(g, [a], a, a);
  }

  lemma ReachEdge<N(!new)>(g: Graph<N>, a: N, b: N)
    requires Edge(g, a, b)
    ensures Reach(g, a, b)
  {
    assert WalkFromTo(g, [a, b], a, b);
  }

  lemma JoinWalks<N(!new)>(g: Graph<N>, p: seq<N>, q: seq<N>, a: N, b: N, c: N)
    requires WalkFromTo(g, p, a, b) && WalkFromTo(g, q, b, c)
    ensures WalkFromTo(g, p + q[1..], a, c)
  {
    var r := p + q[1..];
    forall i | 0 <= i < |r| - 1 ensures StepAt(g, r, i) {
      if i < |p| - 1 {
        assert StepAt(g, p, i);
      } else {
        assert StepAt(g, q, i - |p| + 1);
      }
    }
    assert r[|r| - 1] == c;
  }

  lemma ReachTrans<N(!new)>(g: Graph<N>, a: N, b: N, c: N)
    requires Reach(g, a, b) && Reach(g, b, c)
    ensures Reach(g, a, c)
  {
    var p :| WalkFromTo(g, p, a, b);
    var q :| WalkFromTo(g, q, b, c);
    JoinWalks(g, p, q, a, b, c);
  }

  /** Reach, by its first edge. */
  lemma ReachStep<N(!new)>(g: Graph<N>, a: N, c: N)
    ensures Reach(g, a, c) <==> a == c || exists b :: Edge(g, a, b) && Reach(g, b, c)
  {
    if Reach(g, a, c) {
      var p :| WalkFromTo(g, p, a, c);
      if |p| > 1 {
        SplitWalk(g, p, 1);
        assert StepAt(g, p, 0);
        assert Edge(g, a, p[1]) && Reach(g, p[1], c);
      }
    }
    if a == c {
      ReachSelf(g, a);
    }
    forall b | Edge(g, a, b) && Reach(g, b, c) ensures Reach(g, a, c) {
      ReachEdge(g, a, b);
      ReachTrans(g, a, b, c);
    }
  }

  /** A closed walk is one edge followed by a way back. */
  lemma OnCycleIff<N(!new)>(g: Graph<N>, a: N)
    ensures OnCycle(g, a) <==> exists b :: Edge(g, a, b) && Reach(g, b, a)
  {
    if OnCycle(g, a) {
      var p :| ClosedWalk(g, p, a);
      SplitWalk(g, p, 1);
      assert StepAt(g, p, 0);
      assert Edge(g, a, p[1]) && Reach(g, p[1], a);
    }
    forall b | Edge(g, a, b) && Reach(g, b, a) ensures OnCycle(g, a) {
      var q :| WalkFromTo(g, q, b, a);
      assert WalkFromTo(g, [a, b], a, b);
      JoinWalks(g, [a, b], q, a, b, a);
      assert ClosedWalk(g, [a, b] + q[1..], a);
    }
  }

  lemma SplitWalk<N(!new)>(g: Graph<N>, p: seq<N>, k: nat)
    requires IsWalk(g, p) && k < |p|
    ensures WalkFromTo(g, p[..k + 1], p[0], p[k])
    ensures WalkFromTo(g, p[k..], p[k], p[|p| - 1])
    ensures Reach(g, p[0], p[k]) && Reach(g, p[k], p[|p| - 1])
  {
    var q, r := p[..k + 1], p[k..];
    forall i | 0 <= i < |r| - 1 ensures StepAt(g, r, i) {
      assert StepAt(g, p, k + i);
    }
    forall i | 0 <= i < |q| - 1 ensures StepAt(g, q, i) {
      assert StepAt(g, p, i);
    }
    assert WalkFromTo(g, q, p[0], p[k]);
    assert WalkFromTo(g, r, p[k], p[|p| - 1]);
  }

  /** Whatever is closed under the edges cannot be walked out of. */
  lemma ClosedUnderReach<N(!new)>(g: Graph<N>, s: set<N>, p: seq<N>)
    requires forall a, b :: a in s && Edge(g, a, b) ==> b in s
    requires IsWalk(g, p) && p[0] in s
    ensures forall i :: 0 <= i < |p| ==> p[i] in s
  {
    var k := 0;
    while k < |p| - 1
      invariant k < |p|
      invariant forall i :: 0 <= i <= k ==> p[i] in s
    {
      assert StepAt(g, p, k);
      k := k + 1;
    }
  }

  lemma ReachStaysIn<N(!new)>(g: Graph<N>, s: set<N>, a: N, b: N)
    requires forall x, y :: x in s && Edge(g, x, y) ==> y in s
    requires a in s && Reach(g, a, b)
    ensures b in s
  {
    var p :| WalkFromTo(g, p, a, b);
    ClosedUnderReach(g, s, p);
  }

  /** Every node of a closed walk lies on a cycle of its own. */
  lemma CycleRotates<N(!new)>(g: Graph<N>, p: seq<N>, a: N, k: nat)
    requires ClosedWalk(g, p, a) && k < |p|
    ensures OnCycle(g, p[k])
    ensures MutuallyReachable(g, a, p[k])
  {
    SplitWalk(g, p, k);
    var q := if k == |p| - 1 then p else p[k..] + p[..k + 1][1..];
    if k < |p| - 1 {
      JoinWalks(g, p[k..], p[..k + 1], p[k], a, p[k]);
    }
    assert ClosedWalk(g, q, p[k]);
  }

  /** If every edge of g can be walked in h by at least one edge, then so can every cycle. */
  lemma CyclesMap<N(!new)>(g: Graph<N>, h: Graph<N>, a: N)
    requires OnCycle(g, a)
    requires forall x, y :: Edge(g, x, y) ==> exists z :: Edge(h, x, z) && Reach(h, z, y)
    ensures OnCycle(h, a)
  {
    var p :| ClosedWalk(g, p, a);
    var k := 1;
    assert StepAt(g, p, 0);
    while k < |p| - 1
      invariant 1 <= k < |p|
      invariant exists z :: Edge(h, a, z) && Reach(h, z, p[k])
    {
      var z :| Edge(h, a, z) && Reach(h, z, p[k]);
      assert StepAt(g, p, k);
      var y :| Edge(h, p[k], y) && Reach(h, y, p[k + 1]);
      ReachEdge(h, p[k], y);
      ReachTrans(h, z, p[k], y);
      ReachTrans(h, z, y, p[k + 1]);
      k := k + 1;
    }
    OnCycleIff(h, a);
  }

  lemma SubgraphKeepsReach<N(!new)>(g: Graph<N>, h: Graph<N>, a: N, b: N)
    requires Subgraph(g, h) && Reach(g, a, b)
    ensures Reach(h, a, b)
  {
    var p :| WalkFromTo(g, p, a, b);
    assert WalkFromTo(h, p, a, b) by {
      forall i | 0 <= i < |p| - 1 ensures StepAt(h, p, i) {
        assert StepAt(g, p, i);
      }
    }
  }

  lemma SubgraphKeepsCycles<N(!new)>(g: Graph<N>, h: Graph<N>, a: N)
    requires Subgraph(g, h) && OnCycle(g, a)
    ensures OnCycle(h, a)
  {
    OnCycleIff(g, a);
    OnCycleIff(h, a);
    var b :| Edge(g, a, b) && Reach(g, b, a);
    SubgraphKeepsReach(g, h, b, a);
  }

  lemma ExtendWalk<N(!new)>(g: Graph<N>, p: seq<N>, y: N)
    requires IsWalk(g, p) && Edge(g, p[|p| - 1], y)
    ensures WalkFromTo(g, p + [y], p[0], y)
  {
    var q := p + [y];
    forall i | 0 <= i < |q| - 1 ensures StepAt(g, q, i) {
      if i < |p| - 1 {
        assert StepAt(g, p, i);
      }
    }
  }

  ghost predicate Distinct<T>(q: seq<T>) {
    forall i, j :: 0 <= i < j < |q| ==> q[i] != q[j]
  }

  lemma DistinctAppend<T>(q: seq<T>, x: T)
    requires Distinct(q) && x !in q
    ensures Distinct(q + [x])
  {
  }

  lemma DistinctFits<T>(q: seq<T>, s: set<T>)
    requires Distinct(q) && forall i :: 0 <= i < |q| ==> q[i] in s
    ensures |q| <= |s|
  {
    if |q| > 0 {
      var last := q[|q| - 1];
      DistinctFits(q[..|q| - 1], s - {last});
    }
  }

  ghost predicate HasSuccIn<N(!new)>(g: Graph<N>, s: set<N>, x: N) {
    exists y :: y in s && Edge(g, x, y)
  }

  /** A finite set in which every node has a successor contains a cycle: follow successors
      until a node repeats. */
  lemma EndlessSetHasCycle<N(!new)>(g: Graph<N>, s: set<N>, p: seq<N>) returns (n: N)
    requires forall x {:trigger HasSuccIn(g, s, x)} :: x in s ==> HasSuccIn(g, s, x)
    requires IsWalk(g, p) && Distinct(p) && forall i :: 0 <= i < |p| ==> p[i] in s
    ensures n in s && OnCycle(g, n)
    decreases |s| - |p|
  {
    DistinctFits(p, s);
    assert HasSuccIn(g, s, p[|p| - 1]);
    var y :| y in s && Edge(g, p[|p| - 1], y);
    ExtendWalk(g, p, y);
    if y in p {
      var k :| 0 <= k < |p| && p[k] == y;
      SplitWalk(g, p + [y], k);
      assert ClosedWalk(g, (p + [y])[k..], y);
      n := y;
    } else {
      DistinctFits(p + [y], s);
      n := EndlessSetHasCycle(g, s, p + [y]);
    }
  }

  lemma Bounded<T>(a: set<T>, b: set<T>)
    requires a <= b
    ensures |a| <= |b|
    ensures |b - a| == |b| - |a|
  {
    assert b == a + (b - a);
  }

  /** The elements of a finite set in some order, as Python's sorted lists them. Nothing that
      follows depends on which order it is. */
  method Listing<T(==)>(s: set<T>) returns (q: seq<T>)
    ensures forall x :: x in q <==> x in s
    ensures |q| == |s|
    ensures Distinct(q)
  {
    q := [];
    var rest := s;
    while rest != {}
      invariant rest <= s && |q| + |rest| == |s|
      invariant forall x :: x in q <==> x in s - rest
      invariant Distinct(q)
      decreases |rest|
    {
      var x :| x in rest;
      DistinctAppend(q, x);
      q := q + [x];
      rest := rest - {x};
    }
  }
}
