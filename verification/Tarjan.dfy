/** The explicit-stack strongly-connected-component search of the readiness-deadlock gate
    (hack/validate-readiness-deadlock.py, sccs_of and cycles_of). */
module Tarjan {
  import opened Graphs

  /** One entry of the work stack: a node and what is left of the iterator over its children. */
  datatype Frame<N> = Frame(node: N, rest: seq<N>)

  /** The variables of the search at one instant. The work stack is given as two lists: grey,
      its nodes, and rest, what is left of the iterator over each node's children. */
  datatype Search<N(==)> = Search(
    index: map<N, nat>, low: map<N, nat>, onStack: set<N>, stack: seq<N>,
    grey: seq<N>, rest: seq<seq<N>>, out: seq<seq<N>>)

  ghost function Num<N>(index: map<N, nat>, x: N): int {
    if x in index then index[x] else -1
  }

  ghost function Emitted<N>(out: seq<seq<N>>): set<N> {
    set i, x | 0 <= i < |out| && x in out[i] :: x
  }

  // ---- What the search keeps true ----

  ghost predicate Numbered<N(!new)>(g: Graph<N>, index: map<N, nat>) {
    index.Keys <= Nodes(g) && forall x :: x in index ==> index[x] < |index|
  }

  /** The stack ascends in discovery numbers and onStack is its set of elements. */
  ghost predicate StackOk<N(!new)>(index: map<N, nat>, onStack: set<N>, stack: seq<N>) {
    && onStack <= index.Keys
    && (forall i :: 0 <= i < |stack| ==> stack[i] in onStack)
    && (forall x :: x in onStack ==> x in stack)
    && (forall i, j :: 0 <= i < j < |stack| ==> Num(index, stack[i]) < Num(index, stack[j]))
  }

  ghost predicate GreyOk<N(!new)>(index: map<N, nat>, onStack: set<N>, grey: seq<N>) {
    && (forall i :: 0 <= i < |grey| ==> grey[i] in onStack)
    && (forall i, j :: 0 <= i < j < |grey| ==> Num(index, grey[i]) < Num(index, grey[j]))
  }

  /** A discovered node is either on the stack or emitted, never both. */
  ghost predicate Split<N(!new)>(index: map<N, nat>, onStack: set<N>, out: seq<seq<N>>) {
    index.Keys == onStack + Emitted(out) && onStack !! Emitted(out)
  }

  /** y is still to come from the iterator over x's children. */
  ghost predicate Pending<N>(grey: seq<N>, rest: seq<seq<N>>, x: N, y: N) {
    exists i :: 0 <= i < |grey| && i < |rest| && grey[i] == x && y in rest[i]
  }

  /** An edge out of a discovered node leads to a discovered node or is still to be looked at. */
  ghost predicate Explored<N(!new)>(g: Graph<N>, index: map<N, nat>, grey: seq<N>, rest: seq<seq<N>>) {
    && |rest| == |grey|
    && (forall x, y :: x in index && Edge(g, x, y) ==> y in index || Pending(grey, rest, x, y))
    && (forall i, y :: 0 <= i < |grey| && y in rest[i] ==> Edge(g, grey[i], y))
  }

  /** A node of the work stack reaches everything on the stack from itself upwards. */
  ghost predicate ReachUp<N(!new)>(g: Graph<N>, index: map<N, nat>, onStack: set<N>, grey: seq<N>) {
    forall i, x :: 0 <= i < |grey| && x in onStack && Num(index, grey[i]) <= Num(index, x)
      ==> Reach(g, grey[i], x)
  }

  ghost predicate GreyBelow<N(!new)>(g: Graph<N>, index: map<N, nat>, grey: seq<N>, x: N) {
    exists i :: 0 <= i < |grey| && Num(index, grey[i]) <= Num(index, x) && Reach(g, x, grey[i])
  }

  /** Everything on the stack reaches a node of the work stack at or below itself. */
  ghost predicate ReachDown<N(!new)>(g: Graph<N>, index: map<N, nat>, onStack: set<N>, grey: seq<N>) {
    forall x {:trigger GreyBelow(g, index, grey, x)} :: x in onStack ==> GreyBelow(g, index, grey, x)
  }

  /** v is the number of something on the stack that w reaches. */
  ghost predicate Attains<N(!new)>(g: Graph<N>, index: map<N, nat>, onStack: set<N>, w: N, v: int) {
    exists y :: y in onStack && Num(index, y) == v && Reach(g, w, y)
  }

  ghost predicate LowsAttained<N(!new)>(g: Graph<N>, index: map<N, nat>, low: map<N, nat>,
                                        onStack: set<N>, grey: seq<N>)
  {
    forall i :: 0 <= i < |grey| ==>
      Num(low, grey[i]) <= Num(index, grey[i]) && Attains(g, index, onStack, grey[i], Num(low, grey[i]))
  }

  /** The part of the stack that belongs to frame i: from its node up to the next frame's. */
  ghost predicate InSegment<N>(index: map<N, nat>, grey: seq<N>, i: int, x: N)
    requires 0 <= i < |grey|
  {
    && Num(index, grey[i]) <= Num(index, x)
    && (i + 1 < |grey| ==> Num(index, x) < Num(index, grey[i + 1]))
  }

  /** Every edge already looked at from a frame's segment into the stack lands at or above its low. */
  ghost predicate LowBounds<N(!new)>(g: Graph<N>, s: Search<N>) {
    forall i, x, y {:trigger InSegment(s.index, s.grey, i, x), Edge(g, x, y)} ::
      0 <= i < |s.grey| && x in s.onStack && InSegment(s.index, s.grey, i, x)
      && y in s.onStack && Edge(g, x, y) && !Pending(s.grey, s.rest, x, y)
      ==> Num(s.low, s.grey[i]) <= Num(s.index, y)
  }

  ghost predicate Listed<N(!new)>(out: seq<seq<N>>) {
    forall i :: 0 <= i < |out| ==> |out[i]| > 0 && Distinct(out[i])
  }

  ghost predicate Disjoint<N(!new)>(out: seq<seq<N>>) {
    forall i, j, x :: 0 <= i < j < |out| && x in out[i] ==> x !in out[j]
  }

  ghost predicate Classes<N(!new)>(g: Graph<N>, out: seq<seq<N>>) {
    forall i, x, y :: 0 <= i < |out| && x in out[i] && y in out[i] ==> MutuallyReachable(g, x, y)
  }

  ghost predicate Ordered<N(!new)>(g: Graph<N>, out: seq<seq<N>>) {
    forall i, x, y :: 0 <= i < |out| && x in out[i] && Edge(g, x, y) ==> y in Emitted(out[..i + 1])
  }

  /** The emitted lists: each is a class of mutually reachable nodes, listed once, and every
      edge out of it leads to a list emitted no later. */
  ghost predicate GoodOutput<N(!new)>(g: Graph<N>, out: seq<seq<N>>) {
    Listed(out) && Disjoint(out) && Classes(g, out) && Ordered(g, out)
  }

  ghost predicate Inv<N(!new)>(g: Graph<N>, s: Search<N>) {
    && s.low.Keys == s.index.Keys && Numbered(g, s.index)
    && StackOk(s.index, s.onStack, s.stack)
    && GreyOk(s.index, s.onStack, s.grey)
    && Split(s.index, s.onStack, s.out)
    && Explored(g, s.index, s.grey, s.rest)
    && ReachUp(g, s.index, s.onStack, s.grey)
    && ReachDown(g, s.index, s.onStack, s.grey)
    && LowsAttained(g, s.index, s.low, s.onStack, s.grey)
    && LowBounds(g, s)
    && GoodOutput(g, s.out)
  }

  // ---- Discovering a node ----

  ghost function Discovered<N>(s: Search<N>, n: N, children: seq<N>): Search<N> {
    s.(index := s.index[n := |s.index|], low := s.low[n := |s.index|], onStack := s.onStack + {n},
       stack := s.stack + [n], grey := s.grey + [n], rest := s.rest + [children])
  }

  lemma MapGrows<K, V>(m: map<K, V>, k: K, v: V)
    requires k !in m
    ensures |m[k := v]| == |m| + 1
  {
    assert m[k := v].Keys == m.Keys + {k};
  }

  lemma DiscoverStack<N(!new)>(g: Graph<N>, s: Search<N>, n: N, children: seq<N>)
    requires Numbered(g, s.index) && StackOk(s.index, s.onStack, s.stack) && n !in s.index
    ensures var t := Discovered(s, n, children); StackOk(t.index, t.onStack, t.stack)
  {
    var t := Discovered(s, n, children);
    forall x | x in t.onStack ensures x in t.stack {
      if x == n { assert t.stack[|s.stack|] == n; } else { assert x in s.stack; }
    }
    forall i, j | 0 <= i < j < |t.stack| ensures Num(t.index, t.stack[i]) < Num(t.index, t.stack[j]) {
      assert t.stack[i] == s.stack[i] && s.stack[i] in s.onStack;
      if j < |s.stack| { assert t.stack[j] == s.stack[j] && s.stack[j] in s.onStack; }
    }
  }

  lemma DiscoverGrey<N(!new)>(g: Graph<N>, s: Search<N>, n: N, children: seq<N>)
    requires Numbered(g, s.index) && s.onStack <= s.index.Keys && GreyOk(s.index, s.onStack, s.grey)
    requires n !in s.index && n in Nodes(g)
    ensures var t := Discovered(s, n, children); Numbered(g, t.index) && GreyOk(t.index, t.onStack, t.grey)
  {
    var t := Discovered(s, n, children);
    MapGrows(s.index, n, |s.index|);
    forall i, j | 0 <= i < j < |t.grey| ensures Num(t.index, t.grey[i]) < Num(t.index, t.grey[j]) {
      assert t.grey[i] == s.grey[i];
    }
  }

  lemma DiscoverSplit<N(!new)>(g: Graph<N>, s: Search<N>, n: N, children: seq<N>)
    requires Split(s.index, s.onStack, s.out) && n !in s.index
    ensures var t := Discovered(s, n, children); Split(t.index, t.onStack, t.out)
  {
  }

  lemma DiscoverExplored<N(!new)>(g: Graph<N>, s: Search<N>, n: N, children: seq<N>)
    requires Explored(g, s.index, s.grey, s.rest) && n !in s.index
    requires forall y :: y in children <==> y in Succ(g, n)
    ensures var t := Discovered(s, n, children); Explored(g, t.index, t.grey, t.rest)
  {
    var t := Discovered(s, n, children);
    forall x, y | x in t.index && Edge(g, x, y) ensures y in t.index || Pending(t.grey, t.rest, x, y) {
      if x == n {
        assert t.grey[|s.grey|] == n && y in t.rest[|s.grey|];
      } else if y !in s.index {
        PendingStays(s, n, children, x, y);
      }
    }
  }

  lemma PendingStays<N(!new)>(s: Search<N>, n: N, children: seq<N>, x: N, y: N)
    requires Pending(s.grey, s.rest, x, y) && |s.grey| == |s.rest|
    ensures Pending(Discovered(s, n, children).grey, Discovered(s, n, children).rest, x, y)
  {
    var i :| 0 <= i < |s.grey| && s.grey[i] == x && y in s.rest[i];
    assert Discovered(s, n, children).grey[i] == x && y in Discovered(s, n, children).rest[i];
  }

  lemma DiscoverReachUp<N(!new)>(g: Graph<N>, s: Search<N>, n: N, children: seq<N>)
    requires Numbered(g, s.index) && s.onStack <= s.index.Keys && GreyOk(s.index, s.onStack, s.grey)
    requires ReachUp(g, s.index, s.onStack, s.grey) && n !in s.index
    requires s.grey != [] ==> Edge(g, s.grey[|s.grey| - 1], n)
    ensures var t := Discovered(s, n, children); ReachUp(g, t.index, t.onStack, t.grey)
  {
    var t := Discovered(s, n, children);
    ReachSelf(g, n);
    forall i, x | 0 <= i < |t.grey| && x in t.onStack && Num(t.index, t.grey[i]) <= Num(t.index, x)
      ensures Reach(g, t.grey[i], x)
    {
      if i < |s.grey| {
        var w := s.grey[i];
        assert t.grey[i] == w;
        if x == n {
          var last := s.grey[|s.grey| - 1];
          assert Reach(g, w, last);
          ReachEdge(g, last, n);
          ReachTrans(g, w, last, n);
        } else {
          assert Num(s.index, w) <= Num(s.index, x);
        }
      }
    }
  }

  lemma DiscoverReachDown<N(!new)>(g: Graph<N>, s: Search<N>, n: N, children: seq<N>)
    requires s.onStack <= s.index.Keys && GreyOk(s.index, s.onStack, s.grey)
    requires ReachDown(g, s.index, s.onStack, s.grey) && n !in s.index
    ensures var t := Discovered(s, n, children); ReachDown(g, t.index, t.onStack, t.grey)
  {
    var t := Discovered(s, n, children);
    ReachSelf(g, n);
    forall x | x in t.onStack ensures GreyBelow(g, t.index, t.grey, x) {
      if x == n {
        assert t.grey[|s.grey|] == n;
      } else {
        assert GreyBelow(g, s.index, s.grey, x);
        var i :| 0 <= i < |s.grey| && Num(s.index, s.grey[i]) <= Num(s.index, x) && Reach(g, x, s.grey[i]);
        assert t.grey[i] == s.grey[i];
      }
    }
  }

  lemma DiscoverLowsAttained<N(!new)>(g: Graph<N>, s: Search<N>, n: N, children: seq<N>)
    requires s.onStack <= s.index.Keys && GreyOk(s.index, s.onStack, s.grey) && n !in s.index
    requires LowsAttained(g, s.index, s.low, s.onStack, s.grey)
    ensures var t := Discovered(s, n, children); LowsAttained(g, t.index, t.low, t.onStack, t.grey)
  {
    var t := Discovered(s, n, children);
    ReachSelf(g, n);
    forall i | 0 <= i < |t.grey|
      ensures Num(t.low, t.grey[i]) <= Num(t.index, t.grey[i])
      ensures Attains(g, t.index, t.onStack, t.grey[i], Num(t.low, t.grey[i]))
    {
      if i < |s.grey| {
        var w := s.grey[i];
        assert t.grey[i] == w && Attains(g, s.index, s.onStack, w, Num(s.low, w));
        var y :| y in s.onStack && Num(s.index, y) == Num(s.low, w) && Reach(g, w, y);
        assert y in t.onStack && Num(t.index, y) == Num(t.low, w);
      } else {
        assert n in t.onStack && Num(t.index, n) == Num(t.low, n);
      }
    }
  }

  lemma DiscoverLowBounds<N(!new)>(g: Graph<N>, s: Search<N>, n: N, children: seq<N>)
    requires Inv(g, s)
    requires n !in s.index && forall y :: y in children <==> y in Succ(g, n)
    ensures LowBounds(g, Discovered(s, n, children))
  {
    var t := Discovered(s, n, children);
    forall y | y in children ensures Pending(t.grey, t.rest, n, y) {
      assert t.grey[|s.grey|] == n && y in t.rest[|s.grey|];
    }
    forall i, x, y | 0 <= i < |t.grey| && x in t.onStack && InSegment(t.index, t.grey, i, x)
                     && y in t.onStack && Edge(g, x, y) && !Pending(t.grey, t.rest, x, y)
      ensures Num(t.low, t.grey[i]) <= Num(t.index, y)
    {
      assert x != n && i < |s.grey|;
      assert t.grey[i] == s.grey[i];
      if y != n {
        if Pending(s.grey, s.rest, x, y) { PendingStays(s, n, children, x, y); }
        if i + 1 < |s.grey| { assert t.grey[i + 1] == s.grey[i + 1]; }
        assert InSegment(s.index, s.grey, i, x);
      }
    }
  }

  lemma DiscoverKeeps<N(!new)>(g: Graph<N>, s: Search<N>, n: N, children: seq<N>)
    requires Inv(g, s) && n !in s.index && n in Nodes(g)
    requires s.grey != [] ==> Edge(g, s.grey[|s.grey| - 1], n)
    requires forall y :: y in children <==> y in Succ(g, n)
    ensures Inv(g, Discovered(s, n, children))
  {
    assert s.onStack <= s.index.Keys;
    DiscoverSplit(g, s, n, children);
    hide Numbered, StackOk, GreyOk, Split, Explored, ReachUp, ReachDown, LowsAttained, LowBounds, GoodOutput;
    DiscoverGrey(g, s, n, children);
    DiscoverStack(g, s, n, children);
    DiscoverExplored(g, s, n, children);
    DiscoverReachUp(g, s, n, children);
    DiscoverReachDown(g, s, n, children);
    DiscoverLowsAttained(g, s, n, children);
    DiscoverLowBounds(g, s, n, children);
  }

  // ---- Looking at a child already discovered ----

  ghost function Consumed<N>(s: Search<N>, k: nat): Search<N>
    requires k < |s.rest| && s.rest[k] != []
  {
    s.(rest := s.rest[k := s.rest[k][1..]])
  }

  lemma ConsumePending<N(!new)>(s: Search<N>, k: nat, x: N, y: N)
    requires |s.rest| == |s.grey| && k < |s.rest| && s.rest[k] != []
    requires Pending(s.grey, s.rest, x, y) && !(x == s.grey[k] && y == s.rest[k][0])
    ensures Pending(s.grey, Consumed(s, k).rest, x, y)
  {
    var t := Consumed(s, k);
    var i :| 0 <= i < |s.grey| && s.grey[i] == x && y in s.rest[i];
    if i == k {
      assert s.rest[k] == [s.rest[k][0]] + s.rest[k][1..];
    }
    assert t.grey[i] == x && y in t.rest[i];
  }

  lemma ConsumeExplored<N(!new)>(g: Graph<N>, s: Search<N>, k: nat)
    requires Explored(g, s.index, s.grey, s.rest) && k < |s.rest| && s.rest[k] != []
    requires s.rest[k][0] in s.index
    ensures var t := Consumed(s, k); Explored(g, t.index, t.grey, t.rest)
  {
    var t := Consumed(s, k);
    forall x, y | x in t.index && Edge(g, x, y) ensures y in t.index || Pending(t.grey, t.rest, x, y) {
      if y !in s.index {
        ConsumePending(s, k, x, y);
      }
    }
  }

  lemma ConsumeLowBounds<N(!new)>(g: Graph<N>, s: Search<N>, k: nat)
    requires GreyOk(s.index, s.onStack, s.grey) && LowBounds(g, s) && |s.rest| == |s.grey|
    requires k < |s.rest| && s.rest[k] != []
    requires s.rest[k][0] in s.onStack ==> Num(s.low, s.grey[k]) <= Num(s.index, s.rest[k][0])
    ensures LowBounds(g, Consumed(s, k))
  {
    var t := Consumed(s, k);
    var w, c := s.grey[k], s.rest[k][0];
    forall i, x, y | 0 <= i < |t.grey| && x in t.onStack && InSegment(t.index, t.grey, i, x)
                     && y in t.onStack && Edge(g, x, y) && !Pending(t.grey, t.rest, x, y)
      ensures Num(t.low, t.grey[i]) <= Num(t.index, y)
    {
      assert InSegment(s.index, s.grey, i, x);
      if x == w && y == c {
        assert i == k;
      } else if Pending(s.grey, s.rest, x, y) {
        ConsumePending(s, k, x, y);
      }
    }
  }

  /** The next child of frame k may be dropped once it is discovered and, if it is on the
      stack, counted in the frame's low. */
  lemma ConsumeKeeps<N(!new)>(g: Graph<N>, s: Search<N>, k: nat)
    requires Inv(g, s) && k < |s.rest| && s.rest[k] != []
    requires s.rest[k][0] in s.index
    requires s.rest[k][0] in s.onStack ==> Num(s.low, s.grey[k]) <= Num(s.index, s.rest[k][0])
    ensures Inv(g, Consumed(s, k))
  {
    assert |s.rest| == |s.grey|;
    hide Numbered, StackOk, GreyOk, Split, Explored, ReachUp, ReachDown, LowsAttained, LowBounds, GoodOutput;
    ConsumeExplored(g, s, k);
    ConsumeLowBounds(g, s, k);
  }

  // ---- Lowering a low ----

  ghost function Lowered<N>(s: Search<N>, w: N, v: nat): Search<N>
    requires w in s.low
  {
    s.(low := s.low[w := if v < s.low[w] then v else s.low[w]])
  }

  lemma LowerLowBounds<N(!new)>(g: Graph<N>, s: Search<N>, w: N, v: nat)
    requires LowBounds(g, s) && w in s.low
    ensures LowBounds(g, Lowered(s, w, v))
  {
    var t := Lowered(s, w, v);
    forall i, x, y | 0 <= i < |t.grey| && x in t.onStack && InSegment(t.index, t.grey, i, x)
                     && y in t.onStack && Edge(g, x, y) && !Pending(t.grey, t.rest, x, y)
      ensures Num(t.low, t.grey[i]) <= Num(t.index, y)
    {
      assert InSegment(s.index, s.grey, i, x);
      assert Num(t.low, t.grey[i]) <= Num(s.low, s.grey[i]);
    }
  }

  lemma LowerLowsAttained<N(!new)>(g: Graph<N>, s: Search<N>, w: N, v: nat)
    requires LowsAttained(g, s.index, s.low, s.onStack, s.grey)
    requires w in s.low && Attains(g, s.index, s.onStack, w, v)
    ensures var t := Lowered(s, w, v); LowsAttained(g, t.index, t.low, t.onStack, t.grey)
  {
  }

  /** low[w] may take any number that belongs to a stack node w reaches. */
  lemma LowerKeeps<N(!new)>(g: Graph<N>, s: Search<N>, w: N, v: nat)
    requires Inv(g, s) && w in s.low && Attains(g, s.index, s.onStack, w, v)
    ensures Inv(g, Lowered(s, w, v))
  {
    hide Numbered, StackOk, GreyOk, Split, Explored, ReachUp, ReachDown, LowsAttained, LowBounds, GoodOutput;
    LowerLowBounds(g, s, w, v);
    LowerLowsAttained(g, s, w, v);
  }

  // ---- Retiring the node on top of the work stack ----

  ghost function Popped<N>(s: Search<N>): Search<N>
    requires |s.grey| > 0 && |s.rest| > 0
  {
    s.(grey := s.grey[..|s.grey| - 1], rest := s.rest[..|s.rest| - 1])
  }

  lemma PopPending<N(!new)>(s: Search<N>, x: N, y: N)
    requires |s.grey| == |s.rest| > 0 && s.rest[|s.rest| - 1] == []
    ensures Pending(s.grey, s.rest, x, y) <==> Pending(Popped(s).grey, Popped(s).rest, x, y)
  {
    var t := Popped(s);
    if Pending(s.grey, s.rest, x, y) {
      var i :| 0 <= i < |s.grey| && s.grey[i] == x && y in s.rest[i];
      assert t.grey[i] == x && y in t.rest[i];
    }
    if Pending(t.grey, t.rest, x, y) {
      var i :| 0 <= i < |t.grey| && t.grey[i] == x && y in t.rest[i];
      assert s.grey[i] == x && y in s.rest[i];
    }
  }

  lemma PopExplored<N(!new)>(g: Graph<N>, s: Search<N>)
    requires Explored(g, s.index, s.grey, s.rest) && |s.grey| > 0 && s.rest[|s.rest| - 1] == []
    ensures var t := Popped(s); Explored(g, t.index, t.grey, t.rest)
  {
    var t := Popped(s);
    forall x, y | x in t.index && Edge(g, x, y) ensures y in t.index || Pending(t.grey, t.rest, x, y) {
      PopPending(s, x, y);
    }
  }

  /** Popping a node whose low is smaller than its number: what reached it goes on to reach a
      node of the work stack below it. */
  lemma PopReachDown<N(!new)>(g: Graph<N>, s: Search<N>, w: N)
    requires GreyOk(s.index, s.onStack, s.grey) && ReachDown(g, s.index, s.onStack, s.grey)
    requires |s.grey| == |s.rest| > 0 && w == s.grey[|s.grey| - 1]
    requires Num(s.low, w) < Num(s.index, w) && Attains(g, s.index, s.onStack, w, Num(s.low, w))
    ensures var t := Popped(s); ReachDown(g, t.index, t.onStack, t.grey)
  {
    var t := Popped(s);
    var y :| y in s.onStack && Num(s.index, y) == Num(s.low, w) && Reach(g, w, y);
    assert GreyBelow(g, s.index, s.grey, y);
    var j :| 0 <= j < |s.grey| && Num(s.index, s.grey[j]) <= Num(s.index, y) && Reach(g, y, s.grey[j]);
    assert t.grey[j] == s.grey[j];
    ReachTrans(g, w, y, s.grey[j]);
    forall x | x in t.onStack ensures GreyBelow(g, t.index, t.grey, x) {
      assert GreyBelow(g, s.index, s.grey, x);
      var i :| 0 <= i < |s.grey| && Num(s.index, s.grey[i]) <= Num(s.index, x) && Reach(g, x, s.grey[i]);
      if i == |s.grey| - 1 {
        ReachTrans(g, x, w, s.grey[j]);
      } else {
        assert t.grey[i] == s.grey[i];
      }
    }
  }

  /** The popped node's segment falls to the frame below, whose low has taken its low in. */
  lemma PopLowBounds<N(!new)>(g: Graph<N>, s: Search<N>)
    requires |s.grey| == |s.rest| > 0 && s.rest[|s.rest| - 1] == [] && LowBounds(g, s)
    requires |s.grey| > 1 ==> Num(s.low, s.grey[|s.grey| - 2]) <= Num(s.low, s.grey[|s.grey| - 1])
    ensures LowBounds(g, Popped(s))
  {
    var t := Popped(s);
    var k := |s.grey| - 1;
    forall i, x, y | 0 <= i < |t.grey| && x in t.onStack && InSegment(t.index, t.grey, i, x)
                     && y in t.onStack && Edge(g, x, y) && !Pending(t.grey, t.rest, x, y)
      ensures Num(t.low, t.grey[i]) <= Num(t.index, y)
    {
      PopPending(s, x, y);
      assert t.grey[i] == s.grey[i];
      if i + 1 == k {
        assert InSegment(s.index, s.grey, i, x) || InSegment(s.index, s.grey, k, x);
      } else {
        assert t.grey[i + 1] == s.grey[i + 1];
        assert InSegment(s.index, s.grey, i, x);
      }
    }
  }

  lemma GreyRemains<N(!new)>(g: Graph<N>, s: Search<N>)
    requires |s.grey| == |s.rest| > 0 && LowsAttained(g, s.index, s.low, s.onStack, s.grey)
    requires ReachDown(g, s.index, s.onStack, Popped(s).grey)
    ensures |s.grey| > 1
  {
    var w := s.grey[|s.grey| - 1];
    assert Attains(g, s.index, s.onStack, w, Num(s.low, w));
    var y :| y in s.onStack && Num(s.index, y) == Num(s.low, w);
    assert GreyBelow(g, s.index, Popped(s).grey, y);
  }

  lemma PopGrey<N(!new)>(g: Graph<N>, s: Search<N>)
    requires |s.grey| == |s.rest| > 0 && GreyOk(s.index, s.onStack, s.grey)
    requires ReachUp(g, s.index, s.onStack, s.grey)
    requires LowsAttained(g, s.index, s.low, s.onStack, s.grey)
    ensures var t := Popped(s);
      && GreyOk(t.index, t.onStack, t.grey)
      && ReachUp(g, t.index, t.onStack, t.grey)
      && LowsAttained(g, t.index, t.low, t.onStack, t.grey)
  {
  }

  lemma RetireKeeps<N(!new)>(g: Graph<N>, s: Search<N>)
    requires Inv(g, s) && |s.grey| > 0 && s.rest[|s.rest| - 1] == []
    requires Num(s.low, s.grey[|s.grey| - 1]) < Num(s.index, s.grey[|s.grey| - 1])
    requires |s.grey| > 1 ==> Num(s.low, s.grey[|s.grey| - 2]) <= Num(s.low, s.grey[|s.grey| - 1])
    ensures Inv(g, Popped(s)) && |s.grey| > 1
  {
    assert |s.rest| == |s.grey|;
    hide Numbered, StackOk, GreyOk, Split, Explored, ReachUp, ReachDown, LowsAttained, LowBounds, GoodOutput;
    PopExplored(g, s);
    TopAttains(g, s, |s.grey| - 1);
    PopReachDown(g, s, s.grey[|s.grey| - 1]);
    PopLowBounds(g, s);
    PopGrey(g, s);
    GreyRemains(g, s);
  }

  lemma TopAttains<N(!new)>(g: Graph<N>, s: Search<N>, k: nat)
    requires LowsAttained(g, s.index, s.low, s.onStack, s.grey) && k < |s.grey|
    ensures Attains(g, s.index, s.onStack, s.grey[k], Num(s.low, s.grey[k]))
  {
  }

  // ---- Emitting a component ----

  /** What is left once the stack from position k upwards has been emitted as scc. */
  ghost function EmittedFrom<N>(s: Search<N>, k: nat, scc: seq<N>): Search<N>
    requires k < |s.stack|
  {
    s.(onStack := s.onStack - (set x | x in scc), stack := s.stack[..k], out := s.out + [scc])
  }

  /** scc lists the stack from w, at position k, upwards, and w has no child left to look at. */
  ghost predicate Emits<N(!new)>(g: Graph<N>, s: Search<N>, k: nat, scc: seq<N>) {
    && |s.grey| > 0 && |s.rest| == |s.grey| && s.rest[|s.rest| - 1] == []
    && k < |s.stack| && s.stack[k] == s.grey[|s.grey| - 1]
    && Num(s.low, s.stack[k]) == Num(s.index, s.stack[k])
    && Distinct(scc)
    && (forall x :: x in scc <==> x in s.onStack && Num(s.index, s.stack[k]) <= Num(s.index, x))
  }

  lemma EmitReaches<N(!new)>(g: Graph<N>, s: Search<N>, k: nat, scc: seq<N>, x: N)
    requires GreyOk(s.index, s.onStack, s.grey)
    requires ReachUp(g, s.index, s.onStack, s.grey) && ReachDown(g, s.index, s.onStack, s.grey)
    requires Emits(g, s, k, scc) && x in scc
    ensures MutuallyReachable(g, s.stack[k], x)
  {
    var w := s.stack[k];
    assert Reach(g, w, x);
    assert GreyBelow(g, s.index, s.grey, x);
    var i :| 0 <= i < |s.grey| && Num(s.index, s.grey[i]) <= Num(s.index, x) && Reach(g, x, s.grey[i]);
    assert w in s.onStack;
    assert Num(s.index, s.grey[i]) <= Num(s.index, w);
    assert Reach(g, s.grey[i], w);
    ReachTrans(g, x, s.grey[i], w);
  }

  /** No edge leads from the emitted part of the stack to the part below it. */
  lemma EmitCloses<N(!new)>(g: Graph<N>, s: Search<N>, k: nat, scc: seq<N>, x: N, y: N)
    requires GreyOk(s.index, s.onStack, s.grey) && Split(s.index, s.onStack, s.out)
    requires Explored(g, s.index, s.grey, s.rest) && LowBounds(g, s)
    requires Emits(g, s, k, scc) && x in scc && Edge(g, x, y)
    ensures y in scc || y in Emitted(s.out)
  {
    var w := s.stack[k];
    var last := |s.grey| - 1;
    assert InSegment(s.index, s.grey, last, x);
    assert !Pending(s.grey, s.rest, x, y) by {
      forall i | 0 <= i < |s.grey| && s.grey[i] == x ensures i == last {}
    }
    if y in s.onStack {
      assert Num(s.low, w) <= Num(s.index, y);
    }
  }

  lemma EmittedGrows<N(!new)>(out: seq<seq<N>>, scc: seq<N>)
    ensures Emitted(out + [scc]) == Emitted(out) + set x | x in scc
  {
    var all := out + [scc];
    forall x | x in Emitted(out) + set x | x in scc ensures x in Emitted(all) {
      if x in scc {
        assert x in all[|out|];
      } else {
        var i :| 0 <= i < |out| && x in out[i];
        assert x in all[i];
      }
    }
    forall x | x in Emitted(all) ensures x in Emitted(out) + set x | x in scc {
      var i :| 0 <= i < |all| && x in all[i];
      if i < |out| { assert x in out[i]; }
    }
  }

  lemma EmitOrdered<N(!new)>(g: Graph<N>, out: seq<seq<N>>, scc: seq<N>)
    requires Ordered(g, out)
    requires forall x, y :: x in scc && Edge(g, x, y) ==> y in scc || y in Emitted(out)
    ensures Ordered(g, out + [scc])
  {
    var all := out + [scc];
    EmittedGrows(out, scc);
    forall i, x, y | 0 <= i < |all| && x in all[i] && Edge(g, x, y) ensures y in Emitted(all[..i + 1]) {
      if i < |out| {
        assert all[..i + 1] == out[..i + 1] && x in out[i];
      } else {
        assert all[..i + 1] == all;
      }
    }
  }

  lemma EmitClasses<N(!new)>(g: Graph<N>, s: Search<N>, k: nat, scc: seq<N>)
    requires GreyOk(s.index, s.onStack, s.grey) && Classes(g, s.out)
    requires ReachUp(g, s.index, s.onStack, s.grey) && ReachDown(g, s.index, s.onStack, s.grey)
    requires Emits(g, s, k, scc)
    ensures Classes(g, s.out + [scc])
  {
    var out, all := s.out, s.out + [scc];
    forall x, y | x in scc && y in scc ensures MutuallyReachable(g, x, y) {
      EmitReaches(g, s, k, scc, x);
      EmitReaches(g, s, k, scc, y);
      ReachTrans(g, x, s.stack[k], y);
      ReachTrans(g, y, s.stack[k], x);
    }
    forall i, x, y | 0 <= i < |all| && x in all[i] && y in all[i] ensures MutuallyReachable(g, x, y) {
      if i < |out| {
        assert x in out[i] && y in out[i];
      }
    }
  }

  lemma EmitDisjoint<N(!new)>(out: seq<seq<N>>, scc: seq<N>)
    requires Disjoint(out) && forall x :: x in scc ==> x !in Emitted(out)
    ensures Disjoint(out + [scc])
  {
    var all := out + [scc];
    forall i, j, x | 0 <= i < j < |all| && x in all[i] ensures x !in all[j] {
      assert x in out[i];
    }
  }

  lemma EmitStack<N(!new)>(g: Graph<N>, s: Search<N>, k: nat, scc: seq<N>)
    requires StackOk(s.index, s.onStack, s.stack) && Emits(g, s, k, scc)
    ensures var t := Popped(EmittedFrom(s, k, scc)); StackOk(t.index, t.onStack, t.stack)
  {
    var t := Popped(EmittedFrom(s, k, scc));
    forall x | x in t.onStack ensures x in t.stack {
      var i :| 0 <= i < |s.stack| && s.stack[i] == x;
      assert i < k;
      assert t.stack[i] == x;
    }
    forall i | 0 <= i < |t.stack| ensures t.stack[i] in t.onStack {
      assert Num(s.index, s.stack[i]) < Num(s.index, s.stack[k]);
    }
  }

  lemma EmitGrey<N(!new)>(g: Graph<N>, s: Search<N>, k: nat, scc: seq<N>)
    requires GreyOk(s.index, s.onStack, s.grey) && Split(s.index, s.onStack, s.out) && Emits(g, s, k, scc)
    ensures var t := Popped(EmittedFrom(s, k, scc));
      GreyOk(t.index, t.onStack, t.grey) && Split(t.index, t.onStack, t.out)
  {
    EmittedGrows(s.out, scc);
  }

  lemma EmitReach<N(!new)>(g: Graph<N>, s: Search<N>, k: nat, scc: seq<N>)
    requires ReachUp(g, s.index, s.onStack, s.grey) && ReachDown(g, s.index, s.onStack, s.grey)
    requires Emits(g, s, k, scc)
    ensures var t := Popped(EmittedFrom(s, k, scc));
      && ReachUp(g, t.index, t.onStack, t.grey)
      && ReachDown(g, t.index, t.onStack, t.grey)
  {
    var t := Popped(EmittedFrom(s, k, scc));
    forall x | x in t.onStack ensures GreyBelow(g, t.index, t.grey, x) {
      assert GreyBelow(g, s.index, s.grey, x);
      var i :| 0 <= i < |s.grey| && Num(s.index, s.grey[i]) <= Num(s.index, x) && Reach(g, x, s.grey[i]);
      assert i < |s.grey| - 1;
      assert t.grey[i] == s.grey[i];
    }
  }

  lemma EmitLows<N(!new)>(g: Graph<N>, s: Search<N>, k: nat, scc: seq<N>)
    requires GreyOk(s.index, s.onStack, s.grey) && LowsAttained(g, s.index, s.low, s.onStack, s.grey)
    requires Emits(g, s, k, scc)
    ensures var t := Popped(EmittedFrom(s, k, scc)); LowsAttained(g, t.index, t.low, t.onStack, t.grey)
  {
    var t := Popped(EmittedFrom(s, k, scc));
    forall i | 0 <= i < |t.grey| ensures Attains(g, t.index, t.onStack, t.grey[i], Num(t.low, t.grey[i])) {
      var w := s.grey[i];
      assert t.grey[i] == w && Attains(g, s.index, s.onStack, w, Num(s.low, w));
      var y :| y in s.onStack && Num(s.index, y) == Num(s.low, w) && Reach(g, w, y);
      assert Num(s.index, w) < Num(s.index, s.stack[k]);
      assert y in t.onStack;
    }
  }

  lemma EmitLowBounds<N(!new)>(g: Graph<N>, s: Search<N>, k: nat, scc: seq<N>)
    requires LowBounds(g, s) && Emits(g, s, k, scc)
    ensures LowBounds(g, Popped(EmittedFrom(s, k, scc)))
  {
    var t := Popped(EmittedFrom(s, k, scc));
    forall i, x, y | 0 <= i < |t.grey| && x in t.onStack && InSegment(t.index, t.grey, i, x)
                     && y in t.onStack && Edge(g, x, y) && !Pending(t.grey, t.rest, x, y)
      ensures Num(t.low, t.grey[i]) <= Num(t.index, y)
    {
      PopPending(s, x, y);
      assert t.grey[i] == s.grey[i];
      assert InSegment(s.index, s.grey, i, x);
    }
  }

  lemma EmitOutput<N(!new)>(g: Graph<N>, s: Search<N>, k: nat, scc: seq<N>)
    requires Inv(g, s) && Emits(g, s, k, scc)
    ensures GoodOutput(g, s.out + [scc])
  {
    forall x, y | x in scc && Edge(g, x, y) ensures y in scc || y in Emitted(s.out) {
      EmitCloses(g, s, k, scc, x, y);
    }
    EmitOrdered(g, s.out, scc);
    EmitClasses(g, s, k, scc);
    EmitDisjoint(s.out, scc);
    assert s.stack[k] in scc;
  }

  lemma EmitKeeps<N(!new)>(g: Graph<N>, s: Search<N>, k: nat, scc: seq<N>)
    requires Inv(g, s) && Emits(g, s, k, scc)
    ensures Inv(g, Popped(EmittedFrom(s, k, scc)))
  {
    assert |s.rest| == |s.grey|;
    hide Numbered, StackOk, GreyOk, Split, Explored, ReachUp, ReachDown, LowsAttained, LowBounds, GoodOutput;
    EmitOutput(g, s, k, scc);
    EmitStack(g, s, k, scc);
    EmitGrey(g, s, k, scc);
    EmitReach(g, s, k, scc);
    EmitLows(g, s, k, scc);
    EmitLowBounds(g, s, k, scc);
    PopExplored(g, s);
  }

  // ---- What the finished search says ----

  /** out lists the strongly connected components of g: every node in one list, the members of
      a list exactly the nodes mutually reachable with any one of them, and no list before one
      that it reaches. */
  ghost predicate IsSccList<N(!new)>(g: Graph<N>, out: seq<seq<N>>) {
    && (forall i :: 0 <= i < |out| ==> |out[i]| > 0 && Distinct(out[i]))
    && (forall n :: n in Nodes(g) <==> exists i :: 0 <= i < |out| && n in out[i])
    && (forall i, x, y {:trigger x in out[i], MutuallyReachable(g, x, y)} :: 0 <= i < |out| && x in out[i] ==>
          (y in out[i] <==> MutuallyReachable(g, x, y)))
    && (forall i, j, x, y ::
          (0 <= i < |out| && 0 <= j < |out| && x in out[i] && y in out[j] && Reach(g, x, y)) ==> j <= i)
  }

  lemma OutputClosed<N(!new)>(g: Graph<N>, out: seq<seq<N>>, i: nat, x: N, y: N)
    requires Ordered(g, out) && i < |out| && x in out[i] && Reach(g, x, y)
    ensures y in Emitted(out[..i + 1])
  {
    var s := Emitted(out[..i + 1]);
    assert x in s by { assert out[..i + 1][i] == out[i]; }
    forall a, b | a in s && Edge(g, a, b) ensures b in s {
      var k :| 0 <= k < i + 1 && a in out[..i + 1][k];
      assert a in out[k];
      var m :| 0 <= m < k + 1 && b in out[..k + 1][m];
      assert out[..i + 1][m] == out[m] == out[..k + 1][m];
    }
    ReachStaysIn(g, s, x, y);
  }

  lemma OutputReach<N(!new)>(g: Graph<N>, out: seq<seq<N>>, i: nat, j: nat, x: N, y: N)
    requires GoodOutput(g, out) && i < |out| && j < |out| && x in out[i] && y in out[j] && Reach(g, x, y)
    ensures j <= i
  {
    OutputClosed(g, out, i, x, y);
    var k :| 0 <= k < i + 1 && y in out[..i + 1][k];
    assert y in out[k];
  }

  lemma OutputIsSccList<N(!new)>(g: Graph<N>, out: seq<seq<N>>)
    requires GoodOutput(g, out) && Nodes(g) == Emitted(out)
    ensures IsSccList(g, out)
  {
    forall i, j, x, y | 0 <= i < |out| && 0 <= j < |out| && x in out[i] && y in out[j] && Reach(g, x, y)
      ensures j <= i
    {
      OutputReach(g, out, i, j, x, y);
    }
    forall i, x, y | 0 <= i < |out| && x in out[i] && MutuallyReachable(g, x, y) ensures y in out[i] {
      OutputClosed(g, out, i, x, y);
      var j :| 0 <= j < i + 1 && y in out[..i + 1][j];
      assert y in out[j];
      OutputReach(g, out, j, i, y, x);
    }
  }

  lemma Finished<N(!new)>(g: Graph<N>, s: Search<N>)
    requires Inv(g, s) && s.grey == [] && s.index.Keys == Nodes(g)
    ensures IsSccList(g, s.out)
  {
    hide LowsAttained, LowBounds, Explored, StackOk, GreyOk, Numbered, GoodOutput, ReachUp, IsSccList;
    forall x | x in s.onStack ensures GreyBelow(g, s.index, s.grey, x) {}
    assert s.onStack == {};
    OutputIsSccList(g, s.out);
  }

  // ---- What the methods need to know of a state that keeps Inv ----

  lemma TopFrame<N(!new)>(g: Graph<N>, s: Search<N>, k: nat)
    requires Inv(g, s) && k == |s.grey| - 1
    ensures |s.rest| == |s.grey| && s.low.Keys == s.index.Keys
    ensures s.grey[k] in s.index
    ensures forall y :: y in s.rest[k] ==> Edge(g, s.grey[k], y) && y in Nodes(g)
  {
    forall y | y in s.rest[k] ensures Edge(g, s.grey[k], y) && y in Nodes(g) {
      EdgeNodes(g, s.grey[k], y);
    }
  }

  lemma NewChild<N(!new)>(g: Graph<N>, s: Search<N>, k: nat, children: seq<N>)
    requires Inv(g, s) && k == |s.grey| - 1 && s.rest[k] != [] && s.rest[k][0] !in s.index
    requires forall y :: y in children <==> y in Succ(g, s.rest[k][0])
    ensures Inv(g, Consumed(Discovered(s, s.rest[k][0], children), k))
  {
    var c := s.rest[k][0];
    assert c in s.rest[k];
    TopFrame(g, s, k);
    DiscoverKeeps(g, s, c, children);
    var t := Discovered(s, c, children);
    assert s.grey[k] in s.onStack;
    assert t.grey[k] == s.grey[k] && t.rest[k] == s.rest[k];
    assert Num(s.low, s.grey[k]) <= Num(s.index, s.grey[k]);
    ConsumeKeeps(g, t, k);
  }

  /** A child on the stack gives the node on top of the work stack its number to attain. */
  lemma StackChild<N(!new)>(g: Graph<N>, s: Search<N>, k: nat)
    requires Inv(g, s) && k == |s.grey| - 1 && s.rest[k] != [] && s.rest[k][0] in s.onStack
    ensures s.grey[k] in s.low && s.rest[k][0] in s.index
    ensures Inv(g, Consumed(Lowered(s, s.grey[k], s.index[s.rest[k][0]]), k))
  {
    var w, c := s.grey[k], s.rest[k][0];
    assert c in s.rest[k];
    ReachEdge(g, w, c);
    assert w in s.onStack;
    assert Attains(g, s.index, s.onStack, w, s.index[c]);
    LowerKeeps(g, s, w, s.index[c]);
    ConsumeKeeps(g, Lowered(s, w, s.index[c]), k);
  }

  lemma AttainedBelow<N(!new)>(g: Graph<N>, s: Search<N>, k: nat)
    requires GreyOk(s.index, s.onStack, s.grey) && ReachUp(g, s.index, s.onStack, s.grey)
    requires LowsAttained(g, s.index, s.low, s.onStack, s.grey)
    requires 0 < k == |s.grey| - 1
    ensures Attains(g, s.index, s.onStack, s.grey[k - 1], Num(s.low, s.grey[k]))
  {
    var w, p := s.grey[k], s.grey[k - 1];
    assert Attains(g, s.index, s.onStack, w, Num(s.low, w));
    var y :| y in s.onStack && Num(s.index, y) == Num(s.low, w) && Reach(g, w, y);
    assert Reach(g, p, w);
    ReachTrans(g, p, w, y);
  }

  /** The frame below takes in the low of the node on top: it reaches what that node reaches. */
  lemma PassLowDown<N(!new)>(g: Graph<N>, s: Search<N>, k: nat)
    requires Inv(g, s) && 0 < k == |s.grey| - 1
    ensures s.grey[k] in s.low && s.grey[k - 1] in s.low
    ensures var t := Lowered(s, s.grey[k - 1], s.low[s.grey[k]]);
      Inv(g, t) && t.low[s.grey[k]] == s.low[s.grey[k]] && t.low[s.grey[k - 1]] <= t.low[s.grey[k]]
  {
    var w, p := s.grey[k], s.grey[k - 1];
    assert w in s.onStack && p in s.onStack;
    AttainedBelow(g, s, k);
    LowerKeeps(g, s, p, s.low[w]);
  }

  /** The variables when a frame has been dropped but its node's component not yet emitted:
      the node's low has been handed down. */
  ghost function HandedDown<N>(s: Search<N>): Search<N>
    requires |s.grey| > 1 ==> s.grey[|s.grey| - 1] in s.low && s.grey[|s.grey| - 2] in s.low
  {
    if |s.grey| > 1 then Lowered(s, s.grey[|s.grey| - 2], s.low[s.grey[|s.grey| - 1]]) else s
  }

  lemma HandDownKeeps<N(!new)>(g: Graph<N>, s: Search<N>)
    requires Inv(g, s) && |s.grey| > 0
    ensures |s.grey| > 1 ==> s.grey[|s.grey| - 1] in s.low && s.grey[|s.grey| - 2] in s.low
    ensures var t := HandedDown(s); var w := s.grey[|s.grey| - 1];
      && Inv(g, t) && w in s.low && w in t.low && t.low[w] == s.low[w]
      && (|s.grey| > 1 ==> Num(t.low, s.grey[|s.grey| - 2]) <= Num(t.low, w))
  {
    TopFrame(g, s, |s.grey| - 1);
    hide Inv;
    if |s.grey| > 1 {
      PassLowDown(g, s, |s.grey| - 1);
    }
  }

  lemma TopLow<N(!new)>(g: Graph<N>, s: Search<N>) returns (k: nat)
    requires Inv(g, s) && |s.grey| > 0
    ensures |s.rest| == |s.grey|
    ensures var w := s.grey[|s.grey| - 1];
      && w in s.index && w in s.low && s.low[w] <= s.index[w]
      && k < |s.stack| && s.stack[k] == w
    ensures Distinct(s.stack)
  {
    k := TopOnStack(g, s);
    assert s.grey[|s.grey| - 1] in s.onStack;
    assert Num(s.low, s.grey[|s.grey| - 1]) <= Num(s.index, s.grey[|s.grey| - 1]);
  }

  lemma TopOnStack<N(!new)>(g: Graph<N>, s: Search<N>) returns (k: nat)
    requires StackOk(s.index, s.onStack, s.stack) && GreyOk(s.index, s.onStack, s.grey) && |s.grey| > 0
    ensures k < |s.stack| && s.stack[k] == s.grey[|s.grey| - 1]
    ensures Distinct(s.stack)
  {
    assert s.grey[|s.grey| - 1] in s.onStack;
    k :| 0 <= k < |s.stack| && s.stack[k] == s.grey[|s.grey| - 1];
  }

  /** The list popped off the stack down to w is what Emits asks for. */
  lemma PopsDownTo<N(!new)>(g: Graph<N>, s: Search<N>, k: nat, scc: seq<N>)
    requires StackOk(s.index, s.onStack, s.stack)
    requires |s.grey| == |s.rest| > 0 && s.rest[|s.rest| - 1] == []
    requires k < |s.stack| && s.stack[k] == s.grey[|s.grey| - 1]
    requires Num(s.low, s.stack[k]) == Num(s.index, s.stack[k])
    requires |scc| == |s.stack| - k && forall i :: 0 <= i < |scc| ==> scc[i] == s.stack[|s.stack| - 1 - i]
    ensures Emits(g, s, k, scc)
  {
    forall x ensures x in scc <==> x in s.onStack && Num(s.index, s.stack[k]) <= Num(s.index, x) {
      if x in scc {
        var i :| 0 <= i < |scc| && scc[i] == x;
        assert s.stack[|s.stack| - 1 - i] == x;
      }
      if x in s.onStack && Num(s.index, s.stack[k]) <= Num(s.index, x) {
        var i :| 0 <= i < |s.stack| && s.stack[i] == x;
        assert k <= i;
        assert scc[|s.stack| - 1 - i] == x;
      }
    }
  }

  lemma WithinNodes<N(!new)>(g: Graph<N>, s: Search<N>)
    requires Inv(g, s)
    ensures s.index.Keys <= Nodes(g)
  {
  }

  lemma PopKeeps<N(!new)>(g: Graph<N>, s: Search<N>, k: nat, scc: seq<N>)
    requires Inv(g, s) && |s.grey| == |s.rest| > 0 && s.rest[|s.rest| - 1] == []
    requires k < |s.stack| && s.stack[k] == s.grey[|s.grey| - 1]
    requires Num(s.low, s.stack[k]) == Num(s.index, s.stack[k])
    requires |scc| == |s.stack| - k && forall i :: 0 <= i < |scc| ==> scc[i] == s.stack[|s.stack| - 1 - i]
    ensures Inv(g, Popped(EmittedFrom(s, k, scc)))
  {
    PopsDownTo(g, s, k, scc);
    EmitKeeps(g, s, k, scc);
  }

  // ---- The search itself ----

  ghost function Greys<N>(work: seq<Frame<N>>): seq<N> {
    seq(|work|, i requires 0 <= i < |work| => work[i].node)
  }

  ghost function Rests<N>(work: seq<Frame<N>>): seq<seq<N>> {
    seq(|work|, i requires 0 <= i < |work| => work[i].rest)
  }

  lemma PushFrame<N>(work: seq<Frame<N>>, f: Frame<N>)
    ensures Greys(work + [f]) == Greys(work) + [f.node]
    ensures Rests(work + [f]) == Rests(work) + [f.rest]
  {
  }

  lemma PopFrame<N>(work: seq<Frame<N>>)
    requires |work| > 0
    ensures Greys(work[..|work| - 1]) == Greys(work)[..|work| - 1]
    ensures Rests(work[..|work| - 1]) == Rests(work)[..|work| - 1]
  {
  }

  lemma AdvanceFrame<N>(work: seq<Frame<N>>, k: nat, rest: seq<N>)
    requires k < |work|
    ensures Greys(work[k := Frame(work[k].node, rest)]) == Greys(work)
    ensures Rests(work[k := Frame(work[k].node, rest)]) == Rests(work)[k := rest]
  {
  }

  class SccSearch<N(!new,==)> {
    const graph: Graph<N>
    var index: map<N, nat>
    var low: map<N, nat>
    var onStack: set<N>
    var stack: seq<N>
    var work: seq<Frame<N>>
    var out: seq<seq<N>>

    ghost function View(): Search<N>
      reads this
    {
      Search(index, low, onStack, stack, Greys(work), Rests(work), out)
    }

    ghost predicate Valid()
      reads this
    {
      Inv(graph, View())
    }

    constructor (graph: Graph<N>)
      ensures Valid() && this.graph == graph && work == [] && index == map[]
    {
      this.graph := graph;
      index, low, onStack, stack, work, out := map[], map[], {}, [], [], [];
    }

    /** Number a node, push it on the stack and open its iterator. */
    method Discover(n: N) returns (ghost children: seq<N>)
      modifies this
      ensures forall y :: y in children <==> y in Succ(graph, n)
      ensures View() == Discovered(old(View()), n, children)
      ensures work == old(work) + [Frame(n, children)]
    {
      var listed := Listing(Succ(graph, n));
      children := listed;
      PushFrame(work, Frame(n, listed));
      low := low[n := |index|];
      index := index[n := |index|];
      stack := stack + [n];
      onStack := onStack + {n};
      work := work + [Frame(n, listed)];
    }

    /** The inner loop: advance the iterator on top of the work stack until a child is
        discovered or the iterator is exhausted. */
    method Advance() returns (advanced: bool)
      requires Valid() && work != []
      modifies this
      ensures Valid() && work != []
      ensures advanced ==> old(index.Keys) < index.Keys
      ensures !advanced ==> index == old(index) && |work| == |old(work)| && work[|work| - 1].rest == []
    {
      hide Inv;
      advanced := false;
      var k := |work| - 1;
      while !advanced && work[k].rest != []
        invariant Valid() && 0 <= k < |work|
        invariant !advanced ==> index == old(index) && |work| == |old(work)| == k + 1
        invariant advanced ==> old(index.Keys) < index.Keys
        decreases !advanced, |work[k].rest|
      {
        var node, child, rest := work[k].node, work[k].rest[0], work[k].rest[1..];
        ghost var s := View();
        if child !in index {
          ghost var children := Discover(child);
          NewChild(graph, s, k, children);
          AdvanceFrame(work, k, rest);
          work := work[k := Frame(node, rest)];
          assert View() == Consumed(Discovered(s, child, children), k);
          advanced := true;
        } else if child in onStack {
          StackChild(graph, s, k);
          AdvanceFrame(work, k, rest);
          low := low[node := if index[child] < low[node] then index[child] else low[node]];
          work := work[k := Frame(node, rest)];
          assert View() == Consumed(Lowered(s, node, index[child]), k);
        } else {
          ConsumeKeeps(graph, s, k);
          AdvanceFrame(work, k, rest);
          work := work[k := Frame(node, rest)];
          assert View() == Consumed(s, k);
        }
      }
    }

    /** Pop the stack down to w into one list. */
    method PopComponent(w: N, ghost k: nat)
      requires k < |stack| && stack[k] == w && Distinct(stack)
      modifies this`stack, this`onStack, this`out
      ensures stack == old(stack)[..k]
      ensures |out| == |old(out)| + 1 && out[..|old(out)|] == old(out)
      ensures var scc := out[|old(out)|];
        && onStack == old(onStack) - (set x | x in scc)
        && |scc| == |old(stack)| - k
        && forall i :: 0 <= i < |scc| ==> scc[i] == old(stack)[|old(stack)| - 1 - i]
    {
      var scc: seq<N> := [];
      var m := stack[|stack| - 1];
      var done := false;
      while !done
        invariant |scc| <= |old(stack)| - k && stack == old(stack)[..|old(stack)| - |scc|]
        invariant forall i :: 0 <= i < |scc| ==> scc[i] == old(stack)[|old(stack)| - 1 - i]
        invariant onStack == old(onStack) - (set x | x in scc)
        invariant out == old(out)
        invariant done <==> |scc| == |old(stack)| - k
        decreases |stack|, !done
      {
        m := stack[|stack| - 1];
        stack := stack[..|stack| - 1];
        onStack := onStack - {m};
        scc := scc + [m];
        done := m == w;
      }
      out := out + [scc];
    }

    /** The node on top of the work stack is exhausted: hand its low down and, if it is the
        root of its component, emit the component. */
    method Retire()
      requires Valid() && work != [] && work[|work| - 1].rest == []
      modifies this
      ensures Valid() && index == old(index) && |work| == |old(work)| - 1
    {
      hide Inv;
      var node := work[|work| - 1].node;
      HandDownKeeps(graph, View());
      ghost var s := HandedDown(View());
      ghost var k := TopLow(graph, s);
      PopFrame(work);
      work := work[..|work| - 1];
      if work != [] {
        var parent := work[|work| - 1].node;
        low := low[parent := if low[node] < low[parent] then low[node] else low[parent]];
      }
      assert View() == Popped(s);
      if low[node] == index[node] {
        ghost var before := out;
        PopComponent(node, k);
        ghost var scc := out[|before|];
        assert out == before + [scc];
        assert View() == Popped(EmittedFrom(s, k, scc));
        PopKeeps(graph, s, k, scc);
      } else {
        RetireKeeps(graph, s);
      }
    }

    method StrongConnect(root: N)
      requires Valid() && work == [] && root !in index && root in Nodes(graph)
      modifies this
      ensures Valid() && work == [] && old(index.Keys) + {root} <= index.Keys
    {
      hide Inv;
      ghost var children := Discover(root);
      DiscoverKeeps(graph, old(View()), root, children);
      while work != []
        invariant Valid() && old(index.Keys) + {root} <= index.Keys
        decreases Nodes(graph) - index.Keys, |work|
      {
        var advanced := Advance();
        if !advanced {
          Retire();
        }
        WithinNodes(graph, View());
      }
    }
  }

  /** sccs_of: search from every key, then from every target, not yet discovered. */
  method SccsOf<N(!new,==)>(graph: Graph<N>) returns (out: seq<seq<N>>)
    ensures IsSccList(graph, out)
  {
    hide Inv, IsSccList;
    var search := new SccSearch(graph);
    var keys := Listing(graph.Keys);
    var targets := Listing(Targets(graph));
    var order := keys + targets;
    var i := 0;
    while i < |order|
      invariant 0 <= i <= |order|
      invariant search.Valid() && search.graph == graph && search.work == []
      invariant forall j :: 0 <= j < i ==> order[j] in search.index
    {
      if order[i] !in search.index {
        assert order[i] in keys || order[i] in targets;
        search.StrongConnect(order[i]);
      }
      i := i + 1;
    }
    SearchedAll(graph, search.View(), keys, targets);
    out := search.out;
  }

  lemma SearchedAll<N(!new)>(g: Graph<N>, s: Search<N>, keys: seq<N>, targets: seq<N>)
    requires Inv(g, s) && s.grey == []
    requires forall n :: n in keys <==> n in g.Keys
    requires forall n :: n in targets <==> n in Targets(g)
    requires forall i :: 0 <= i < |keys + targets| ==> (keys + targets)[i] in s.index
    ensures IsSccList(g, s.out)
  {
    forall n | n in Nodes(g) ensures n in s.index {
      assert n in keys || n in targets;
      assert n in keys + targets;
    }
    Finished(g, s);
  }

  // ---- The components that are cycles ----

  predicate IsCycle<N(==)>(graph: Graph<N>, scc: seq<N>) {
    |scc| > 1 || (|scc| > 0 && scc[0] in Succ(graph, scc[0]))
  }

  /** A component counts as a cycle exactly when its members lie on cycles. */
  lemma ComponentOnCycle<N(!new)>(g: Graph<N>, out: seq<seq<N>>, i: nat, x: N)
    requires IsSccList(g, out) && i < |out| && x in out[i]
    ensures OnCycle(g, x) <==> IsCycle(g, out[i])
  {
    var scc := out[i];
    OnCycleIff(g, x);
    if OnCycle(g, x) {
      var b :| Edge(g, x, b) && Reach(g, b, x);
      ReachEdge(g, x, b);
      assert MutuallyReachable(g, x, b);
      assert b in scc;
      if |scc| == 1 {
        assert b == scc[0] == x;
      }
    }
    if |scc| > 1 {
      var y := if scc[0] == x then scc[1] else scc[0];
      assert y in scc && y != x;
      assert MutuallyReachable(g, x, y);
      ReachStep(g, x, y);
      var b :| Edge(g, x, b) && Reach(g, b, y);
      ReachTrans(g, b, y, x);
    } else if IsCycle(g, scc) {
      ReachSelf(g, x);
    }
  }

  /** cycles lists, each once, exactly the strongly connected components whose members lie on a
      cycle. */
  ghost predicate IsCycleList<N(!new)>(g: Graph<N>, cycles: seq<seq<N>>) {
    && (forall i :: 0 <= i < |cycles| ==> |cycles[i]| > 0 && Distinct(cycles[i]))
    && (forall i, j, x :: 0 <= i < j < |cycles| && x in cycles[i] ==> x !in cycles[j])
    && (forall n :: OnCycle(g, n) <==> exists i :: 0 <= i < |cycles| && n in cycles[i])
    && (forall i, x, y {:trigger x in cycles[i], MutuallyReachable(g, x, y)} :: 0 <= i < |cycles| && x in cycles[i] ==>
          (y in cycles[i] <==> MutuallyReachable(g, x, y)))
  }

  lemma NodesOnCycle<N(!new)>(g: Graph<N>, n: N)
    requires OnCycle(g, n)
    ensures n in Nodes(g)
  {
    OnCycleIff(g, n);
    var b :| Edge(g, n, b) && Reach(g, b, n);
    EdgeNodes(g, n, b);
  }

  /** cycles_of: the comprehension that keeps the components that are cycles. */
  method CyclesOf<N(!new,==)>(graph: Graph<N>) returns (cycles: seq<seq<N>>)
    ensures IsCycleList(graph, cycles)
    ensures cycles == [] <==> Acyclic(graph)
  {
    var sccs := SccsOf(graph);
    cycles := [];
    ghost var at: seq<nat> := [];
    for i := 0 to |sccs|
      invariant |at| == |cycles|
      invariant forall k :: 0 <= k < |at| ==> at[k] < i && cycles[k] == sccs[at[k]] && IsCycle(graph, cycles[k])
      invariant forall k, m :: 0 <= k < m < |at| ==> at[k] < at[m]
      invariant forall j :: 0 <= j < i && IsCycle(graph, sccs[j]) ==> j in at
    {
      if IsCycle(graph, sccs[i]) {
        cycles, at := cycles + [sccs[i]], at + [i];
      }
    }
    SelectedCycles(graph, sccs, at, cycles);
  }

  lemma SelectedCycles<N(!new)>(g: Graph<N>, sccs: seq<seq<N>>, at: seq<nat>, cycles: seq<seq<N>>)
    requires IsSccList(g, sccs) && |at| == |cycles|
    requires forall k :: 0 <= k < |at| ==> at[k] < |sccs| && cycles[k] == sccs[at[k]] && IsCycle(g, cycles[k])
    requires forall k, m :: 0 <= k < m < |at| ==> at[k] < at[m]
    requires forall j :: 0 <= j < |sccs| && IsCycle(g, sccs[j]) ==> j in at
    ensures IsCycleList(g, cycles)
    ensures cycles == [] <==> Acyclic(g)
  {
    forall n ensures OnCycle(g, n) <==> exists i :: 0 <= i < |cycles| && n in cycles[i] {
      if OnCycle(g, n) {
        NodesOnCycle(g, n);
        var j :| 0 <= j < |sccs| && n in sccs[j];
        ComponentOnCycle(g, sccs, j, n);
        var k :| 0 <= k < |at| && at[k] == j;
        assert n in cycles[k];
      }
      if i :| 0 <= i < |cycles| && n in cycles[i] {
        ComponentOnCycle(g, sccs, at[i], n);
      }
    }
    forall i, j, x | 0 <= i < j < |cycles| && x in cycles[i] ensures x !in cycles[j] {
      ReachSelf(g, x);
      assert x in sccs[at[i]];
    }
    if cycles != [] {
      assert cycles[0][0] in cycles[0];
      assert OnCycle(g, cycles[0][0]);
    }
  }
}
