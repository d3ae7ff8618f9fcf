/** The breadth-first search that turns a cyclic component into a readable cycle
    (hack/validate-readiness-deadlock.py, witness). */
module Witness {
  import opened Graphs
  import Tarjan

  /** A closed walk from start that never leaves members. */
  ghost predicate Circuit<N>(g: Graph<N>, members: set<N>, start: N, p: seq<N>) {
    ClosedWalk(g, p, start) && forall i :: 0 <= i < |p| ==> p[i] in members
  }

  ghost predicate HasCircuit<N(!new)>(g: Graph<N>, members: set<N>, start: N) {
    exists p :: Circuit(g, members, start, p)
  }

  // ---- What the search keeps true ----

  ghost predicate Parented<N>(g: Graph<N>, prev: map<N, N>, dist: map<N, nat>, v: N) {
    v in prev && v in dist && prev[v] in dist && Edge(g, prev[v], v) && dist[v] == dist[prev[v]] + 1
  }

  /** dist is defined where prev is, and at start; prev leads one edge and one step back. */
  ghost predicate Tree<N(!new)>(g: Graph<N>, members: set<N>, start: N, prev: map<N, N>, dist: map<N, nat>) {
    && start !in prev && dist.Keys <= members
    && (forall v :: v in dist <==> v in prev || v == start)
    && dist[start] == 0
    && forall v {:trigger Parented(g, prev, dist, v)} :: v in prev ==> Parented(g, prev, dist, v)
  }

  /** The queue runs in order of distance, over at most two neighbouring distances, from d up. */
  ghost predicate QueueOk<N(!new)>(dist: map<N, nat>, queue: seq<N>, d: nat) {
    Distinct(queue) && exists k: nat :: Levels(dist, queue, d, k)
  }

  /** The first k nodes of the queue are at distance d, the others one further. */
  ghost predicate Levels<N(!new)>(dist: map<N, nat>, queue: seq<N>, d: nat, k: nat) {
    && k <= |queue|
    && forall i :: 0 <= i < |queue| ==> queue[i] in dist && dist[queue[i]] == if i < k then d else d + 1
  }

  /** The child c of u has been looked at: it is not start, and it is no further than one step on. */
  ghost predicate Seen<N>(dist: map<N, nat>, start: N, u: N, c: N) {
    u in dist && c != start && c in dist && dist[c] <= dist[u] + 1
  }

  /** Every node of done has had all its children looked at. */
  ghost predicate Done<N(!new)>(g: Graph<N>, members: set<N>, start: N, dist: map<N, nat>, done: set<N>) {
    forall u, c :: u in done && c in members && Edge(g, u, c) ==> Seen(dist, start, u, c)
  }

  /** A circuit must leave the finished nodes before it can close, no earlier than at distance d. */
  lemma CircuitLeaves<N(!new)>(g: Graph<N>, members: set<N>, start: N, dist: map<N, nat>, done: set<N>,
                               d: nat, p: seq<N>)
    requires Circuit(g, members, start, p) && Done(g, members, start, dist, done)
    requires start in dist && dist[start] == 0
    requires forall v :: v in dist && v !in done ==> d <= dist[v]
    ensures exists k :: 0 <= k < |p| - 1 && p[k] !in done && p[k] in dist
    ensures d + 2 <= |p|
  {
    var k := 0;
    while p[k] in done
      invariant 0 <= k < |p| - 1 && p[k] in dist && dist[p[k]] <= k
      decreases |p| - k
    {
      assert StepAt(g, p, k);
      assert Seen(dist, start, p[k], p[k + 1]);
      k := k + 1;
    }
  }

  ghost function Members<T>(q: seq<T>): set<T> {
    set v | v in q
  }

  /** Taking the first node off the queue leaves the finished nodes as they were. */
  lemma TakeFirst<N(!new)>(dist: map<N, nat>, queue: seq<N>, d: nat)
    requires QueueOk(dist, queue, d) && queue != []
    ensures queue[0] in dist && d <= dist[queue[0]]
    ensures QueueOk(dist, queue[1..], dist[queue[0]])
    ensures queue[0] !in Members(queue[1..])
    ensures Members(queue) == Members(queue[1..]) + {queue[0]}
  {
    var rest := queue[1..];
    assert queue == [queue[0]] + rest;
    var k: nat :| Levels(dist, queue, d, k);
    assert Levels(dist, rest, dist[queue[0]], if k > 0 then k - 1 else |rest|);
    forall i | 0 <= i < |rest| ensures rest[i] == queue[i + 1] && rest[i] != queue[0] {}
  }

  lemma Enqueue<N(!new)>(dist: map<N, nat>, queue: seq<N>, d: nat, child: N)
    requires QueueOk(dist, queue, d) && child !in dist
    ensures QueueOk(dist[child := d + 1], queue + [child], d)
    ensures Members(queue + [child]) == Members(queue) + {child}
  {
    var k: nat :| Levels(dist, queue, d, k);
    assert child !in queue;
    assert Levels(dist[child := d + 1], queue + [child], d, k);
    DistinctAppend(queue, child);
  }

  lemma GrowTree<N(!new)>(g: Graph<N>, members: set<N>, start: N, prev: map<N, N>, dist: map<N, nat>,
                          node: N, child: N)
    requires Tree(g, members, start, prev, dist) && node in dist && Edge(g, node, child)
    requires child in members && child != start && child !in prev
    ensures Tree(g, members, start, prev[child := node], dist[child := dist[node] + 1])
    ensures child !in dist && |dist[child := dist[node] + 1]| == |dist| + 1 <= |members|
  {
    var larger := dist[child := dist[node] + 1];
    assert larger.Keys == dist.Keys + {child};
    Bounded(larger.Keys, members);
    var next := prev[child := node];
    forall v | v in next ensures Parented(g, next, larger, v) {
      if v != child {
        assert Parented(g, prev, dist, v);
      }
    }
  }

  lemma GrowDone<N(!new)>(g: Graph<N>, members: set<N>, start: N, dist: map<N, nat>, done: set<N>, child: N, d: nat)
    requires Done(g, members, start, dist, done) && child !in dist
    ensures Done(g, members, start, dist[child := d], done)
  {
    forall u, c | u in done && c in members && Edge(g, u, c) ensures Seen(dist[child := d], start, u, c) {
      assert Seen(dist, start, u, c);
    }
  }

  ghost predicate SeenSoFar<N(!new)>(members: set<N>, start: N, dist: map<N, nat>, node: N, children: seq<N>, i: int) {
    forall j :: 0 <= j < i && j < |children| && children[j] in members ==> Seen(dist, start, node, children[j])
  }

  lemma SeeChild<N(!new)>(members: set<N>, start: N, dist: map<N, nat>, node: N, children: seq<N>, i: nat)
    requires SeenSoFar(members, start, dist, node, children, i) && i < |children|
    requires node in dist && children[i] in dist && children[i] != start
    requires dist[children[i]] <= dist[node] + 1
    ensures SeenSoFar(members, start, dist, node, children, i + 1)
  {
  }

  lemma SeeNewChild<N(!new)>(members: set<N>, start: N, dist: map<N, nat>, node: N, children: seq<N>, i: nat)
    requires SeenSoFar(members, start, dist, node, children, i) && i < |children|
    requires node in dist && children[i] !in dist && children[i] != start
    ensures SeenSoFar(members, start, dist[children[i] := dist[node] + 1], node, children, i + 1)
  {
    var larger := dist[children[i] := dist[node] + 1];
    forall j | 0 <= j < i + 1 && j < |children| && children[j] in members
      ensures Seen(larger, start, node, children[j])
    {
      if j < i { assert Seen(dist, start, node, children[j]); }
    }
  }

  lemma FinishNode<N(!new)>(g: Graph<N>, members: set<N>, start: N, dist: map<N, nat>, done: set<N>, node: N,
                            children: seq<N>)
    requires Done(g, members, start, dist, done)
    requires SeenSoFar(members, start, dist, node, children, |children|)
    requires forall c :: c in children <==> c in Succ(g, node)
    ensures Done(g, members, start, dist, done + {node})
  {
    forall u, c | u in done + {node} && c in members && Edge(g, u, c) ensures Seen(dist, start, u, c) {
      if u == node {
        assert c in children;
        var j :| 0 <= j < |children| && children[j] == c;
      }
    }
  }

  /** The nodes already taken off the queue are at distance d or less. */
  ghost predicate Near<N(!new)>(dist: map<N, nat>, near: set<N>, d: nat) {
    forall v :: v in near ==> v in dist && dist[v] <= d
  }

  /** A child already queued or finished is at most one step beyond the node in hand. */
  lemma KnownChild<N(!new)>(dist: map<N, nat>, queue: seq<N>, d: nat, near: set<N>, child: N)
    requires QueueOk(dist, queue, d) && child in near + Members(queue)
    requires Near(dist, near, d)
    ensures child in dist && dist[child] <= d + 1
  {
    if child in Members(queue) {
      var i :| 0 <= i < |queue| && queue[i] == child;
    }
  }

  lemma NothingNearer<N(!new)>(g: Graph<N>, members: set<N>, start: N, prev: map<N, N>, dist: map<N, nat>,
                               done: set<N>, queue: seq<N>, node: N, path: seq<N>)
    requires Tree(g, members, start, prev, dist) && Done(g, members, start, dist, done)
    requires node in dist && QueueOk(dist, queue, dist[node])
    requires dist.Keys == done + {node} + Members(queue)
    requires Circuit(g, members, start, path) && |path| == dist[node] + 2
    ensures forall p :: Circuit(g, members, start, p) ==> |path| <= |p|
    ensures HasCircuit(g, members, start)
  {
    forall v | v in dist && v !in done ensures dist[node] <= dist[v] {
      if v in Members(queue) {
        var i :| 0 <= i < |queue| && queue[i] == v;
      }
    }
    forall p | Circuit(g, members, start, p) ensures |path| <= |p| {
      CircuitLeaves(g, members, start, dist, done, dist[node], p);
    }
  }

  lemma NoCircuit<N(!new)>(g: Graph<N>, members: set<N>, start: N, prev: map<N, N>, dist: map<N, nat>)
    requires Tree(g, members, start, prev, dist) && Done(g, members, start, dist, dist.Keys)
    ensures !HasCircuit(g, members, start)
  {
    forall p ensures !Circuit(g, members, start, p) {
      if Circuit(g, members, start, p) {
        CircuitLeaves(g, members, start, dist, dist.Keys, 0, p);
      }
    }
  }

  ghost predicate Linked<N>(g: Graph<N>, back: seq<N>, i: int) {
    0 < i < |back| && Edge(g, back[i], back[i - 1])
  }

  /** The chain back along prev, one node at a time. */
  ghost predicate Chain<N(!new)>(g: Graph<N>, dist: map<N, nat>, back: seq<N>) {
    && |back| > 0 && back[0] in dist
    && (forall i :: 0 <= i < |back| ==> back[i] in dist && dist[back[i]] + i == dist[back[0]])
    && (forall i {:trigger Linked(g, back, i)} :: 0 < i < |back| ==> Linked(g, back, i))
  }

  lemma ChainTurned<N(!new)>(g: Graph<N>, members: set<N>, start: N, prev: map<N, N>, dist: map<N, nat>, back: seq<N>)
    requires Tree(g, members, start, prev, dist) && Chain(g, dist, back)
    requires back[|back| - 1] == start && Edge(g, back[0], start)
    ensures Circuit(g, members, start, Reversed(back) + [start])
    ensures |Reversed(back) + [start]| == dist[back[0]] + 2
  {
    var path := Reversed(back) + [start];
    var k := |back| - 1;
    forall i | 0 <= i < |path| - 1 ensures StepAt(g, path, i) {
      assert path[i] == back[k - i];
      if i < k {
        assert Linked(g, back, k - i);
      }
    }
  }

  function Reversed<N>(s: seq<N>): (r: seq<N>)
    ensures |r| == |s| && forall i :: 0 <= i < |s| ==> r[i] == s[|s| - 1 - i]
  {
    if s == [] then [] else Reversed(s[1..]) + [s[0]]
  }

  /** Follow prev back to start: the chain, turned round and closed with start, is a circuit. */
  method Unwind<N(!new,==)>(g: Graph<N>, ghost members: set<N>, start: N, prev: map<N, N>,
                            ghost dist: map<N, nat>, node: N)
    returns (path: seq<N>)
    requires Tree(g, members, start, prev, dist) && node in dist && Edge(g, node, start)
    ensures Circuit(g, members, start, path) && |path| == dist[node] + 2
  {
    var back := [node];
    while back[|back| - 1] != start
      invariant Chain(g, dist, back) && back[0] == node
      decreases dist[back[|back| - 1]]
    {
      var last := back[|back| - 1];
      assert Parented(g, prev, dist, last);
      ghost var longer := back + [prev[last]];
      forall i | 0 < i < |longer| ensures Linked(g, longer, i) {
        if i < |back| { assert Linked(g, back, i); }
      }
      back := back + [prev[last]];
    }
    ChainTurned(g, members, start, prev, dist, back);
    path := Reversed(back) + [start];
  }

  lemma NearGrows<N(!new)>(dist: map<N, nat>, near: set<N>, d: nat, node: N)
    requires Near(dist, near, d) && node in dist && d <= dist[node]
    ensures Near(dist, near + {node}, dist[node])
  {
  }

  lemma NearStays<N(!new)>(dist: map<N, nat>, near: set<N>, d: nat, child: N)
    requires Near(dist, near, d) && child !in dist
    ensures Near(dist[child := d + 1], near, d)
  {
  }

  // ---- The search ----

  /** The variables of the search, and the distances that only the proof keeps. */
  datatype Search<N(==)> = Search(prev: map<N, N>, queue: seq<N>, dist: map<N, nat>)

  /** Between two nodes: everything taken off the queue is finished. */
  ghost predicate Between<N(!new)>(g: Graph<N>, members: set<N>, start: N, s: Search<N>) {
    && Tree(g, members, start, s.prev, s.dist) && |s.dist| <= |members|
    && Members(s.queue) <= s.dist.Keys
    && Done(g, members, start, s.dist, s.dist.Keys - Members(s.queue))
    && exists d: nat :: QueueOk(s.dist, s.queue, d) && Near(s.dist, s.dist.Keys - Members(s.queue), d)
  }

  /** The nodes reached are those taken off the queue and, apart from them, those on it. */
  ghost predicate Parted<N(!new)>(dist: map<N, nat>, queue: seq<N>, taken: set<N>) {
    dist.Keys == taken + Members(queue) && taken !! Members(queue)
  }

  lemma PartedGrows<N(!new)>(dist: map<N, nat>, queue: seq<N>, taken: set<N>, child: N, d: nat)
    requires Parted(dist, queue, taken) && child !in dist
    ensures Parted(dist[child := d], queue + [child], taken)
  {
    assert Members(queue + [child]) == Members(queue) + {child};
  }

  lemma PartedFirst<N(!new)>(dist: map<N, nat>, queue: seq<N>)
    requires queue != [] && Distinct(queue) && Members(queue) <= dist.Keys
    ensures Parted(dist, queue[1..], (dist.Keys - Members(queue)) + {queue[0]})
  {
    assert queue == [queue[0]] + queue[1..];
    forall i | 0 <= i < |queue[1..]| ensures queue[1..][i] != queue[0] {
      assert queue[1..][i] == queue[i + 1];
    }
  }

  /** While node is in hand, with its first i children looked at. */
  ghost predicate During<N(!new)>(g: Graph<N>, members: set<N>, start: N, s: Search<N>, done: set<N>,
                                  node: N, children: seq<N>, i: int)
  {
    && Tree(g, members, start, s.prev, s.dist) && |s.dist| <= |members|
    && node in s.dist && QueueOk(s.dist, s.queue, s.dist[node])
    && Parted(s.dist, s.queue, done + {node})
    && Near(s.dist, done + {node}, s.dist[node])
    && Done(g, members, start, s.dist, done)
    && SeenSoFar(members, start, s.dist, node, children, i)
  }

  lemma StartSearch<N(!new)>(g: Graph<N>, members: set<N>, start: N)
    requires start in members
    ensures Between(g, members, start, Search(map[], [start], map[start := 0]))
  {
    var dist: map<N, nat> := map[start := 0];
    Bounded({start}, members);
    assert dist.Keys == {start} && Members([start]) == {start};
    assert Levels(dist, [start], 0, 1);
    assert QueueOk(dist, [start], 0) && Near(dist, dist.Keys - Members([start]), 0);
  }

  lemma TakeNode<N(!new)>(g: Graph<N>, members: set<N>, start: N, s: Search<N>, children: seq<N>)
    requires Between(g, members, start, s) && s.queue != []
    ensures During(g, members, start, s.(queue := s.queue[1..]), s.dist.Keys - Members(s.queue), s.queue[0],
                   children, 0)
  {
    var d: nat :| QueueOk(s.dist, s.queue, d) && Near(s.dist, s.dist.Keys - Members(s.queue), d);
    TakeFirst(s.dist, s.queue, d);
    NearGrows(s.dist, s.dist.Keys - Members(s.queue), d, s.queue[0]);
    PartedFirst(s.dist, s.queue);
    MakeDuring(g, members, start, s.(queue := s.queue[1..]), s.dist.Keys - Members(s.queue), s.queue[0],
               children, 0, s.dist[s.queue[0]]);
  }

  ghost function Found<N>(s: Search<N>, node: N, child: N): Search<N>
    requires node in s.dist
  {
    Search(s.prev[child := node], s.queue + [child], s.dist[child := s.dist[node] + 1])
  }

  lemma FindChild<N(!new)>(g: Graph<N>, members: set<N>, start: N, s: Search<N>, done: set<N>, node: N,
                           children: seq<N>, i: nat)
    requires During(g, members, start, s, done, node, children, i) && i < |children|
    requires Edge(g, node, children[i]) && children[i] in members && children[i] != start
    requires children[i] !in s.prev
    ensures node in s.dist && During(g, members, start, Found(s, node, children[i]), done, node, children, i + 1)
    ensures |Found(s, node, children[i]).dist| == |s.dist| + 1 <= |members|
  {
    hide During, Tree, QueueOk, Done, SeenSoFar, Near, Parted, Distinct, Members;
    DuringParts(g, members, start, s, done, node, children, i);
    var d, child := s.dist[node], children[i];
    GrowTree(g, members, start, s.prev, s.dist, node, child);
    GrowQueue(s.dist, s.queue, done + {node}, d, child);
    GrowDone(g, members, start, s.dist, done, child, d + 1);
    SeeNewChild(members, start, s.dist, node, children, i);
    MakeDuring(g, members, start, Found(s, node, child), done, node, children, i + 1, d);
  }

  /** Entering a child one step beyond the node in hand keeps the queue in order. */
  lemma GrowQueue<N(!new)>(dist: map<N, nat>, queue: seq<N>, taken: set<N>, d: nat, child: N)
    requires QueueOk(dist, queue, d) && Parted(dist, queue, taken) && Near(dist, taken, d) && child !in dist
    ensures var larger := dist[child := d + 1];
      && QueueOk(larger, queue + [child], d) && Parted(larger, queue + [child], taken) && Near(larger, taken, d)
  {
    hide QueueOk, Parted, Near, Distinct, Members;
    Enqueue(dist, queue, d, child);
    NearStays(dist, taken, d, child);
    PartedGrows(dist, queue, taken, child, d + 1);
  }

  lemma DuringParts<N(!new)>(g: Graph<N>, members: set<N>, start: N, s: Search<N>, done: set<N>, node: N,
                             children: seq<N>, i: int)
    requires During(g, members, start, s, done, node, children, i)
    ensures Tree(g, members, start, s.prev, s.dist) && |s.dist| <= |members|
    ensures node in s.dist && QueueOk(s.dist, s.queue, s.dist[node])
    ensures Parted(s.dist, s.queue, done + {node}) && Near(s.dist, done + {node}, s.dist[node])
    ensures Done(g, members, start, s.dist, done) && SeenSoFar(members, start, s.dist, node, children, i)
  {
    hide Tree, QueueOk, Done, SeenSoFar, Near, Parted;
  }

  lemma MakeDuring<N(!new)>(g: Graph<N>, members: set<N>, start: N, s: Search<N>, done: set<N>, node: N,
                            children: seq<N>, i: int, d: nat)
    requires Tree(g, members, start, s.prev, s.dist) && |s.dist| <= |members|
    requires node in s.dist && s.dist[node] == d && QueueOk(s.dist, s.queue, d)
    requires Parted(s.dist, s.queue, done + {node}) && Near(s.dist, done + {node}, d)
    requires Done(g, members, start, s.dist, done) && SeenSoFar(members, start, s.dist, node, children, i)
    ensures During(g, members, start, s, done, node, children, i)
  {
  }

  lemma SkipChild<N(!new)>(g: Graph<N>, members: set<N>, start: N, s: Search<N>, done: set<N>, node: N,
                           children: seq<N>, i: nat)
    requires During(g, members, start, s, done, node, children, i) && i < |children|
    requires children[i] in members ==> children[i] != start && children[i] in s.prev
    ensures During(g, members, start, s, done, node, children, i + 1)
  {
    if children[i] in members {
      KnownChild(s.dist, s.queue, s.dist[node], done + {node}, children[i]);
      SeeChild(members, start, s.dist, node, children, i);
    }
  }

  lemma LeaveNode<N(!new)>(g: Graph<N>, members: set<N>, start: N, s: Search<N>, done: set<N>, node: N,
                           children: seq<N>)
    requires During(g, members, start, s, done, node, children, |children|)
    requires forall c :: c in children <==> c in Succ(g, node)
    ensures Between(g, members, start, s)
  {
    FinishNode(g, members, start, s.dist, done, node, children);
    assert s.dist.Keys - Members(s.queue) == done + {node};
  }

  lemma Closes<N(!new)>(g: Graph<N>, members: set<N>, start: N, s: Search<N>, done: set<N>, node: N,
                        children: seq<N>, i: nat, path: seq<N>)
    requires During(g, members, start, s, done, node, children, i)
    requires Circuit(g, members, start, path) && |path| == s.dist[node] + 2
    ensures Shortest(g, members, start, path)
  {
    NothingNearer(g, members, start, s.prev, s.dist, done, s.queue, node, path);
  }

  lemma DuringTree<N(!new)>(g: Graph<N>, members: set<N>, start: N, s: Search<N>, done: set<N>, node: N,
                            children: seq<N>, i: int)
    requires During(g, members, start, s, done, node, children, i)
    ensures Tree(g, members, start, s.prev, s.dist) && node in s.dist
  {
  }

  class CycleSearch<N(!new,==)> {
    const graph: Graph<N>
    const members: set<N>
    const start: N
    var prev: map<N, N>
    var queue: seq<N>
    ghost var dist: map<N, nat>

    ghost function View(): Search<N>
      reads this
    {
      Search(prev, queue, dist)
    }

    constructor (graph: Graph<N>, members: set<N>, start: N)
      requires start in members
      ensures this.graph == graph && this.members == members && this.start == start
      ensures Between(graph, members, start, View())
    {
      this.graph, this.members, this.start := graph, members, start;
      prev, queue, dist := map[], [start], map[start := 0];
      new;
      StartSearch(graph, members, start);
    }

    /** One child of the node in hand that does not close the cycle. */
    method LookAt(ghost done: set<N>, node: N, children: seq<N>, i: nat)
      requires During(graph, members, start, View(), done, node, children, i) && i < |children|
      requires Edge(graph, node, children[i]) && !(children[i] in members && children[i] == start)
      modifies this
      ensures During(graph, members, start, View(), done, node, children, i + 1)
      ensures (|dist| == |old(dist)| && queue == old(queue)) || |old(dist)| < |dist| <= |members|
    {
      hide During;
      var child := children[i];
      if child in members && child !in prev {
        FindChild(graph, members, start, View(), done, node, children, i);
        ghost var after := Found(View(), node, child);
        prev := prev[child := node];
        queue := queue + [child];
        dist := dist[child := dist[node] + 1];
        assert View() == after;
      } else {
        SkipChild(graph, members, start, View(), done, node, children, i);
      }
    }

    /** The children of one node, in order, until one is start. */
    method Visit(node: N, ghost done: set<N>) returns (closes: bool, path: seq<N>)
      requires forall children :: During(graph, members, start, View(), done, node, children, 0)
      modifies this
      ensures closes ==> Circuit(graph, members, start, path) && Shortest(graph, members, start, path)
      ensures !closes ==> Between(graph, members, start, View())
      ensures (|dist| == |old(dist)| && queue == old(queue)) || |old(dist)| < |dist| <= |members|
    {
      hide During, Between, Tree, Circuit, Shortest;
      var children := Listing(Succ(graph, node));
      assert During(graph, members, start, View(), done, node, children, 0);
      var i := 0;
      while i < |children|
        invariant 0 <= i <= |children|
        invariant During(graph, members, start, View(), done, node, children, i)
        invariant (|dist| == |old(dist)| && queue == old(queue)) || |old(dist)| < |dist| <= |members|
      {
        assert Edge(graph, node, children[i]);
        if children[i] in members && children[i] == start {
          DuringTree(graph, members, start, View(), done, node, children, i);
          path := Unwind(graph, members, start, prev, dist, node);
          Closes(graph, members, start, View(), done, node, children, i, path);
          return true, path;
        }
        LookAt(done, node, children, i);
        i := i + 1;
      }
      LeaveNode(graph, members, start, View(), done, node, children);
      closes, path := false, [];
    }
  }

  ghost predicate Shortest<N(!new)>(g: Graph<N>, members: set<N>, start: N, path: seq<N>) {
    forall p :: Circuit(g, members, start, p) ==> |path| <= |p|
  }

  /** A shortest circuit through start, or [start, start] where there is none. */
  method CycleThrough<N(!new,==)>(g: Graph<N>, members: set<N>, start: N) returns (path: seq<N>)
    requires start in members
    ensures HasCircuit(g, members, start) ==> Circuit(g, members, start, path)
    ensures Shortest(g, members, start, path)
    ensures !HasCircuit(g, members, start) ==> path == [start, start]
  {
    var search := new CycleSearch(g, members, start);
    var closes := false;
    path := [start, start];
    hide During, Between, Circuit;
    while !closes && search.queue != []
      invariant search.graph == g && search.members == members && search.start == start
      invariant fresh(search)
      invariant !closes ==> Between(g, members, start, search.View()) && path == [start, start]
      invariant closes ==> Circuit(g, members, start, path) && Shortest(g, members, start, path)
      decreases !closes, |members| - |search.dist|, |search.queue|
    {
      var node := search.queue[0];
      ghost var done := search.dist.Keys - Members(search.queue);
      ghost var s := search.View();
      forall children ensures During(g, members, start, s.(queue := s.queue[1..]), done, node, children, 0) {
        TakeNode(g, members, start, s, children);
      }
      search.queue := search.queue[1..];
      assert search.View() == s.(queue := s.queue[1..]);
      var found;
      closes, found := search.Visit(node, done);
      if closes {
        path := found;
      }
    }
    if !closes {
      Exhausted(g, members, start, search.View());
    }
  }

  lemma Exhausted<N(!new)>(g: Graph<N>, members: set<N>, start: N, s: Search<N>)
    requires Between(g, members, start, s) && s.queue == []
    ensures !HasCircuit(g, members, start) && forall p :: !Circuit(g, members, start, p)
  {
    assert s.dist.Keys - Members(s.queue) == s.dist.Keys;
    NoCircuit(g, members, start, s.prev, s.dist);
  }

  // ---- The witness of a reported component ----

  /** A member of a cyclic component has a circuit inside the component, and every cycle through
      it stays inside. */
  lemma ComponentHasCircuit<N(!new)>(g: Graph<N>, cycles: seq<seq<N>>, i: nat, start: N)
    requires Tarjan.IsCycleList(g, cycles) && i < |cycles| && start in cycles[i]
    ensures HasCircuit(g, Members(cycles[i]), start)
    ensures forall p :: ClosedWalk(g, p, start) ==> Circuit(g, Members(cycles[i]), start, p)
  {
    assert OnCycle(g, start);
    forall p | ClosedWalk(g, p, start) ensures Circuit(g, Members(cycles[i]), start, p) {
      forall k | 0 <= k < |p| ensures p[k] in cycles[i] {
        CycleRotates(g, p, start, k);
      }
    }
  }

  /** witness(graph, scc), on a component that cycles_of reports and whichever member sorted puts
      first: a shortest of all the cycles through that member, inside the component;
      [start, start] only for an edge to itself. */
  method WitnessOf<N(!new,==)>(g: Graph<N>, cycles: seq<seq<N>>, i: nat, start: N) returns (path: seq<N>)
    requires Tarjan.IsCycleList(g, cycles) && i < |cycles| && start in cycles[i]
    ensures ClosedWalk(g, path, start) && forall k :: 0 <= k < |path| ==> path[k] in cycles[i]
    ensures forall p :: ClosedWalk(g, p, start) ==> |path| <= |p|
    ensures |path| == 2 <==> Edge(g, start, start)
  {
    var scc := cycles[i];
    ComponentHasCircuit(g, cycles, i, start);
    var members := set n | n in scc;
    assert members == Members(scc);
    path := CycleThrough(g, members, start);
    ShortestSelfLoop(g, path, start);
  }

  lemma ShortestSelfLoop<N(!new)>(g: Graph<N>, path: seq<N>, start: N)
    requires ClosedWalk(g, path, start) && forall p :: ClosedWalk(g, p, start) ==> |path| <= |p|
    ensures |path| == 2 <==> Edge(g, start, start)
  {
    assert StepAt(g, path, 0);
    if Edge(g, start, start) {
      var loop := [start, start];
      assert StepAt(g, loop, 0);
      assert ClosedWalk(g, loop, start);
    }
  }
}
