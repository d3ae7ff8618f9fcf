/** The three-colour search for a cycle among the declared dependencies
    (hack/validate-component-dag.py:64-80). */
module ComponentDag {
  import opened Graphs
  import Tarjan

  type Deps = map<string, seq<string>>

  datatype Colour = White | Grey | Black

  /** A walk along the dependencies whose last node occurs in it before. */
  ghost predicate Lasso(deps: Deps, p: seq<string>) {
    && IsWalk(Known(deps), p)
    && exists j :: 0 <= j < |p| - 1 && p[j] == p[|p| - 1]
  }

  /** The edge from a to b is the last one of a reported path. */
  ghost predicate Closes(cycles: seq<seq<string>>, a: string, b: string) {
    exists p :: p in cycles && |p| > 1 && p[|p| - 2] == a && p[|p| - 1] == b
  }

  /** The known dependencies without the last edge of each reported path. */
  ghost function Cut(deps: Deps, cycles: seq<seq<string>>): Graph<string> {
    map n | n in deps :: set d | d in deps[n] && d in deps && !Closes(cycles, n, d)
  }

  /** order lists each node after everything g leads from it to. */
  ghost predicate Topological(g: Graph<string>, order: seq<string>) {
    Distinct(order) && forall i, d :: 0 <= i < |order| && Edge(g, order[i], d) ==> d in order[..i]
  }

  lemma TopologicalAppend(g: Graph<string>, order: seq<string>, n: string)
    requires Topological(g, order) && n !in order
    requires forall d :: Edge(g, n, d) ==> d in order
    ensures Topological(g, order + [n])
  {
    var more := order + [n];
    DistinctAppend(order, n);
    forall i, d | 0 <= i < |more| && Edge(g, more[i], d) ensures d in more[..i] {
      assert more[..i] == order[..i];
      if i == |order| { assert order[..i] == order; }
    }
  }

  /** Reporting more cuts more, and keeps the order right. */
  lemma TopologicalStays(deps: Deps, cycles: seq<seq<string>>, more: seq<seq<string>>, order: seq<string>)
    requires Topological(Cut(deps, cycles), order) && forall p :: p in cycles ==> p in more
    ensures Topological(Cut(deps, more), order)
  {
    forall i, d | 0 <= i < |order| && Edge(Cut(deps, more), order[i], d) ensures d in order[..i] {
      assert Edge(Cut(deps, cycles), order[i], d);
    }
  }

  lemma TopologicalIsAcyclic(g: Graph<string>, order: seq<string>)
    requires Topological(g, order) && forall n :: n in g ==> n in order
    ensures Acyclic(g)
  {
    forall n ensures !OnCycle(g, n) {
      if OnCycle(g, n) {
        OnCycleIff(g, n);
        var b :| Edge(g, n, b) && Reach(g, b, n);
        var i :| 0 <= i < |order| && order[i] == n;
        DistinctAt(order, i);
        ReachesEarlier(g, order, i, b, n);
      }
    }
  }

  lemma DistinctAt(order: seq<string>, i: nat)
    requires Distinct(order) && i < |order|
    ensures order[i] !in order[..i]
  {
  }

  /** What comes early in the order reaches only what comes as early. */
  lemma ReachesEarlier(g: Graph<string>, order: seq<string>, i: nat, b: string, n: string)
    requires Topological(g, order) && i <= |order| && b in order[..i] && Reach(g, b, n)
    ensures n in order[..i]
  {
    var earlier := set x | x in order[..i];
    forall x, y | x in earlier && Edge(g, x, y) ensures y in earlier {
      var k :| 0 <= k < i && order[k] == x;
      assert y in order[..k];
      var l :| 0 <= l < k && order[l] == y;
      assert order[..i][l] == y;
    }
    ReachStaysIn(g, earlier, b, n);
  }

  lemma LassoIsCycle(deps: Deps, p: seq<string>)
    requires Lasso(deps, p)
    ensures !Acyclic(Known(deps))
  {
    var j :| 0 <= j < |p| - 1 && p[j] == p[|p| - 1];
    SplitWalk(Known(deps), p, j);
    assert ClosedWalk(Known(deps), p[j..], p[j]);
    assert OnCycle(Known(deps), p[j]);
  }

  class Search {
    const deps: Deps
    var state: map<string, Colour>
    var cycles: seq<seq<string>>
    /** The black nodes in the order in which they turned black. */
    ghost var order: seq<string>

    ghost predicate Valid()
      reads this
    {
      && state.Keys == deps.Keys
      && (forall p :: p in cycles ==> Lasso(deps, p))
      && (forall n :: n in order <==> n in state && state[n] == Black)
      && Topological(Cut(deps, cycles), order)
    }

    ghost function Whites(): set<string>
      reads this
    {
      set n | n in state && state[n] == White
    }

    /** The grey nodes are the ones on the way to the node being visited. */
    ghost predicate Path(stack: seq<string>)
      reads this
    {
      forall n :: n in stack <==> n in state && state[n] == Grey
    }

    constructor (deps: Deps)
      ensures Valid() && this.deps == deps && cycles == [] && Path([])
      ensures forall n :: n in state ==> state[n] == White
    {
      this.deps := deps;
      state := map n | n in deps :: White;
      cycles, order := [], [];
    }

    /** One visit: a node on the way to itself is reported, a black one left, a white one searched. */
    method Visit(n: string, stack: seq<string>)
      requires Valid() && n in deps && Path(stack) && IsWalk(Known(deps), stack + [n])
      modifies this
      ensures Valid() && Path(stack)
      ensures |cycles| >= |old(cycles)| && cycles[..|old(cycles)|] == old(cycles)
      ensures old(state[n]) == Grey ==> cycles == old(cycles) + [stack + [n]]
      ensures old(state[n]) != Grey ==> n in state && state[n] == Black
      ensures forall m :: m in deps && old(state[m]) != White ==> state[m] == old(state[m])
      decreases Whites(), 0
    {
      hide Topological, Cut, Closes, Lasso, Known, IsWalk;
      if state[n] == Grey {
        ReportsLasso(deps, stack, n);
        TopologicalStays(deps, cycles, cycles + [stack + [n]], order);
        cycles := cycles + [stack + [n]];
        return;
      }
      if state[n] == Black {
        return;
      }
      assert n in Whites() && n !in stack;
      state := state[n := Grey];
      VisitAll(n, stack);
      AllEarlier(deps, cycles, order, n);
      TopologicalAppend(Cut(deps, cycles), order, n);
      state := state[n := Black];
      order := order + [n];
    }

    /** The loop over the dependencies of a node that has just turned grey. */
    method VisitAll(n: string, stack: seq<string>)
      requires Valid() && n in deps && Path(stack + [n]) && IsWalk(Known(deps), stack + [n])
      modifies this
      ensures Valid() && Path(stack + [n])
      ensures |cycles| >= |old(cycles)| && cycles[..|old(cycles)|] == old(cycles)
      ensures forall d :: d in deps[n] && d in deps ==> state[d] == Black || Closes(cycles, n, d)
      ensures forall m :: m in deps && old(state[m]) != White ==> state[m] == old(state[m])
      decreases Whites(), 1
    {
      hide Topological, Cut, Closes, Lasso, Known;
      for i := 0 to |deps[n]|
        invariant Valid() && Path(stack + [n]) && Whites() <= old(Whites())
        invariant |cycles| >= |old(cycles)| && cycles[..|old(cycles)|] == old(cycles)
        invariant forall j :: 0 <= j < i && deps[n][j] in deps ==>
          state[deps[n][j]] == Black || Closes(cycles, n, deps[n][j])
        invariant forall m :: m in deps && old(state[m]) != White ==> state[m] == old(state[m])
      {
        var d := deps[n][i];
        if d in deps {
          KnownEdge(deps, n, d);
          ExtendWalk(Known(deps), stack + [n], d);
          ghost var before, grey := cycles, state[d] == Grey;
          Visit(d, stack + [n]);
          ClosesStays(before, cycles);
          if grey { ClosesLast(before, stack, n, d); }
        }
      }
    }
  }

  lemma KnownEdge(deps: Deps, n: string, d: string)
    requires n in deps && d in deps[n] && d in deps
    ensures Edge(Known(deps), n, d)
  {
  }

  lemma AllEarlier(deps: Deps, cycles: seq<seq<string>>, order: seq<string>, n: string)
    requires n in deps && forall d :: d in deps[n] && d in deps ==> d in order || Closes(cycles, n, d)
    ensures forall d :: Edge(Cut(deps, cycles), n, d) ==> d in order
  {
  }

  lemma ClosesStays(cycles: seq<seq<string>>, more: seq<seq<string>>)
    requires |cycles| <= |more| && more[..|cycles|] == cycles
    ensures forall a, b :: Closes(cycles, a, b) ==> Closes(more, a, b)
  {
    forall p | p in cycles ensures p in more {
      var i :| 0 <= i < |cycles| && cycles[i] == p;
      assert more[i] == p;
    }
  }

  lemma ClosesLast(cycles: seq<seq<string>>, stack: seq<string>, n: string, d: string)
    ensures Closes(cycles + [stack + [n] + [d]], n, d)
  {
    var p := stack + [n] + [d];
    assert p in cycles + [p] && p[|p| - 2] == n && p[|p| - 1] == d;
  }

  lemma ReportsLasso(deps: Deps, stack: seq<string>, n: string)
    requires IsWalk(Known(deps), stack + [n]) && n in stack
    ensures Lasso(deps, stack + [n])
  {
    var j :| 0 <= j < |stack| && stack[j] == n;
    assert (stack + [n])[j] == n;
  }

  /** The acyclicity check: every component ends up black, every path reported runs into itself, and
      every cycle contains the last edge of a report, so that something is reported exactly when
      the known dependencies have a cycle. */
  method FindCycles(deps: Deps) returns (cycles: seq<seq<string>>, state: map<string, Colour>)
    ensures Acyclic(Cut(deps, cycles)) && (cycles == [] <==> Acyclic(Known(deps)))
    ensures forall p :: p in cycles ==> Lasso(deps, p)
    ensures state.Keys == deps.Keys && forall n :: n in state ==> state[n] == Black
  {
    hide Topological, Lasso, Known, Cut;
    var search := new Search(deps);
    var names := Listing(deps.Keys);
    for i := 0 to |names|
      invariant search.Valid() && search.deps == deps && search.Path([])
      invariant forall j :: 0 <= j < i ==> names[j] in search.state && search.state[names[j]] == Black
    {
      assert IsWalk(Known(deps), [] + [names[i]]);
      assert names[i] !in [];
      search.Visit(names[i], []);
    }
    cycles, state := search.cycles, search.state;
    SearchVerdict(deps, search.order, cycles);
  }

  lemma NothingCut(deps: Deps)
    ensures Cut(deps, []) == Known(deps)
  {
    var g, h := Cut(deps, []), Known(deps);
    forall n | n in deps ensures g[n] == h[n] {
      forall d ensures d in g[n] <==> d in h[n] {
        assert !Closes([], n, d);
      }
    }
  }

  lemma SearchVerdict(deps: Deps, order: seq<string>, cycles: seq<seq<string>>)
    requires Topological(Cut(deps, cycles), order) && forall n :: n in deps ==> n in order
    requires forall p :: p in cycles ==> Lasso(deps, p)
    ensures Acyclic(Cut(deps, cycles)) && (cycles == [] <==> Acyclic(Known(deps)))
  {
    TopologicalIsAcyclic(Cut(deps, cycles), order);
    if cycles == [] {
      NothingCut(deps);
    } else {
      LassoIsCycle(deps, cycles[0]);
    }
  }

  /** The two gates agree on the same graph. */
  method GatesAgree(deps: Deps) returns (dag: bool, sccs: bool)
    ensures dag == sccs && (dag <==> Acyclic(Known(deps)))
  {
    var cycles, _ := FindCycles(deps);
    var components := Tarjan.CyclesOf(Known(deps));
    dag, sccs := cycles == [], components == [];
  }
}
