/** What the relaxation set of the readiness-deadlock gate must be, and what its verdict means
    for a rollout (hack/validate-readiness-deadlock.py, docstring and main). */
module RelaxationCheck {
  import opened Graphs
  import opened WaitGraph
  import Tarjan
  import Rollout
  import BuildGraph
  import Witness

  ghost predicate Edges(m: Install, relaxed: Relaxations, a: Node, b: Node)
    requires m.Valid()
  {
    Edge(WaitGraphOf(m, relaxed), a, b)
  }

  ghost predicate HasWorkload(m: Install, c: string) {
    c in m.charts && |m.charts[c].workloads| > 0
  }

  /** b is the gate of one of c's declared dependencies. */
  ghost predicate DependencyOf(m: Install, r: Relaxations, c: string, b: Node)
    requires m.Valid()
  {
    c in m.charts && exists i :: 0 <= i < |m.deps[c]| && b == Gate(r, c, m.deps[c][i])
  }

  // ---- The edges, by the kind of their source ----

  lemma ComponentEdgeKinds(m: Install, r: Relaxations, s: Relaxations, c: string, a: Node, b: Node)
    requires m.Valid() && c in m.charts && ComponentEdge(m, r, c, a, b)
    ensures a.component == c
    ensures !a.Creation? ==> ComponentEdge(m, s, c, a, b)
    ensures a.Creation? ==> DependencyOf(m, r, c, b)
    ensures a.Composition? ==> b.Running? && HasWorkload(m, c)
    ensures a.Running? ==> b.Running? || b == Creation(c)
  {
    if i :| 0 <= i < |m.charts[c].workloads| && WorkloadEdge(m, c, m.charts[c].workloads[i], a, b) {
      StartupTargets(m, c, m.charts[c].workloads[i], b);
    }
  }

  lemma StartupTargets(m: Install, c: string, w: Workload, b: Node)
    ensures StartupWait(m, c, w, b) ==> b.Running?
  {
  }

  /** Only the creation nodes feel the relaxations. */
  lemma OnlyGatesDiffer(m: Install, r: Relaxations, s: Relaxations, a: Node, b: Node)
    requires m.Valid() && Edges(m, r, a, b)
    ensures !a.Creation? ==> Edges(m, s, a, b)
    ensures a.Creation? ==> DependencyOf(m, r, a.component, b)
    ensures a.Composition? ==> b.Running? && HasWorkload(m, a.component)
    ensures a.Running? ==> b.Running? || b == Creation(a.component)
  {
    WaitGraphEdges(m, r, a, b);
    WaitGraphEdges(m, s, a, b);
    hide WaitGraphOf, Edges;
    var c :| c in m.charts && ComponentEdge(m, r, c, a, b);
    ComponentEdgeKinds(m, r, s, c, a, b);
  }

  lemma GateEdge(m: Install, r: Relaxations, c: string, i: nat)
    requires m.Valid() && c in m.charts && i < |m.deps[c]|
    ensures Edges(m, r, Creation(c), Gate(r, c, m.deps[c][i]))
  {
    assert ComponentEdge(m, r, c, Creation(c), Gate(r, c, m.deps[c][i]));
    WaitGraphEdges(m, r, Creation(c), Gate(r, c, m.deps[c][i]));
  }

  lemma WorkloadEdges(m: Install, r: Relaxations, c: string, i: nat, a: Node, b: Node)
    requires m.Valid() && c in m.charts && i < |m.charts[c].workloads|
    requires WorkloadEdge(m, c, m.charts[c].workloads[i], a, b)
    ensures Edges(m, r, a, b)
  {
    assert ComponentEdge(m, r, c, a, b);
    WaitGraphEdges(m, r, a, b);
  }

  /** A Composition with a workload waits, through it, for its own creation. */
  lemma ReadyNeedsCreation(m: Install, r: Relaxations, d: string)
    requires m.Valid() && HasWorkload(m, d)
    ensures exists z :: Edges(m, r, Composition(d), z) && Edges(m, r, z, Creation(d))
    ensures Reach(WaitGraphOf(m, r), Composition(d), Creation(d))
  {
    var w := m.charts[d].workloads[0];
    var z := WorkloadNode(d, w);
    WorkloadEdges(m, r, d, 0, Composition(d), z);
    WorkloadEdges(m, r, d, 0, z, Creation(d));
    ReachEdge(WaitGraphOf(m, r), z, Creation(d));
    ReachStep(WaitGraphOf(m, r), Composition(d), Creation(d));
  }

  // ---- Tightening ----

  /** Tightening keeps every walk, up to longer ones, where the tightened dependencies have
      workloads. */
  lemma TighteningKeepsCycles(m: Install, r: Relaxations, s: Relaxations, n: Node)
    requires m.Valid() && s <= r && OnCycle(WaitGraphOf(m, r), n)
    requires forall c, d :: (c, d) in r - s && c in m.charts && d in m.deps[c] ==> HasWorkload(m, d)
    ensures OnCycle(WaitGraphOf(m, s), n)
  {
    var g, h := WaitGraphOf(m, r), WaitGraphOf(m, s);
    forall x, y | Edge(g, x, y) ensures exists z :: Edge(h, x, z) && Reach(h, z, y) {
      OnlyGatesDiffer(m, r, s, x, y);
      ReachSelf(h, y);
      if x.Creation? {
        var c := x.component;
        var i :| 0 <= i < |m.deps[c]| && y == Gate(r, c, m.deps[c][i]);
        GateEdge(m, s, c, i);
        if Gate(s, c, m.deps[c][i]) != y {
          assert (c, m.deps[c][i]) in r - s;
          ReadyNeedsCreation(m, s, m.deps[c][i]);
        }
      }
    }
    CyclesMap(g, h, n);
  }

  /** Every node a closed walk steps on has an edge out of it. */
  lemma CycleStepsOn<N(!new)>(g: Graph<N>, p: seq<N>, a: N, i: nat)
    requires ClosedWalk(g, p, a) && i < |p|
    ensures exists y :: Edge(g, p[i], y)
  {
    var k := if i < |p| - 1 then i else 0;
    assert StepAt(g, p, k);
  }

  /** Of the edges that tightening (c, d) brings, only the one into Composition(d) is new. */
  lemma LiveEdgeStays(m: Install, r: Relaxations, c: string, d: string, a: Node, b: Node)
    requires m.Valid() && (c, d) in r && Edges(m, r - {(c, d)}, a, b) && b != Composition(d)
    ensures Edges(m, r, a, b)
  {
    var s := r - {(c, d)};
    OnlyGatesDiffer(m, s, r, a, b);
    if a.Creation? {
      var k :| 0 <= k < |m.deps[a.component]| && b == Gate(s, a.component, m.deps[a.component][k]);
      GateEdge(m, r, a.component, k);
    }
  }

  /** If tightening one edge is what makes a cycle, its dependency has workloads: the edge into a
      Composition without any leads nowhere. */
  lemma NeededMeansWorkload(m: Install, r: Relaxations, c: string, d: string)
    requires m.Valid() && (c, d) in r
    requires Acyclic(WaitGraphOf(m, r)) && !Acyclic(WaitGraphOf(m, r - {(c, d)}))
    ensures HasWorkload(m, d)
  {
    var s := r - {(c, d)};
    var g, h := WaitGraphOf(m, r), WaitGraphOf(m, s);
    if !HasWorkload(m, d) {
      var n :| OnCycle(h, n);
      var p: seq<Node> :| ClosedWalk(h, p, n);
      forall i | 0 <= i < |p| - 1 ensures StepAt(g, p, i) {
        assert StepAt(h, p, i);
        CycleStepsOn(h, p, n, i + 1);
        var z :| Edge(h, p[i + 1], z);
        OnlyGatesDiffer(m, s, r, p[i + 1], z);
        LiveEdgeStays(m, r, c, d, p[i], p[i + 1]);
      }
      assert ClosedWalk(g, p, n);
      assert OnCycle(g, n);
    }
  }

  /** The gate's test of one edge at a time settles every smaller set at once: if nothing
      deadlocks under r and tightening any one edge of r alone makes a cycle, then every proper
      subset of r leaves a cycle. */
  lemma LocalMinimalityIsGlobal(m: Install, r: Relaxations, s: Relaxations)
    requires m.Valid() && Acyclic(WaitGraphOf(m, r)) && s < r
    requires forall e :: e in r ==> !Acyclic(WaitGraphOf(m, r - {e}))
    ensures !Acyclic(WaitGraphOf(m, s))
  {
    hide WaitGraphOf;
    var e :| e in r && e !in s;
    assert s <= r - {e};
    forall c, d | (c, d) in r ensures HasWorkload(m, d) {
      NeededMeansWorkload(m, r, c, d);
    }
    var n :| OnCycle(WaitGraphOf(m, r - {e}), n);
    TighteningKeepsCycles(m, r - {e}, s, n);
  }

  // ---- The gate ----

  /** The relaxation set is exactly what is needed: no rollout deadlocks under it, and under
      every smaller set some rollout does. */
  ghost predicate ExactlyNeeded(m: Install, r: Relaxations)
    requires m.Valid()
  {
    && Rollout.Live(WaitGraphOf(m, r))
    && forall s {:trigger WaitGraphOf(m, s)} :: s < r ==> !Rollout.Live(WaitGraphOf(m, s))
  }

  /** The two checks of main: the cycles that no relaxation breaks, and the relaxations that
      tightening alone shows to be stale. Both come back empty exactly when the set is exactly
      what is needed. */
  method CheckRelaxations(m: Install, relaxed: Relaxations)
    returns (cycles: seq<seq<Node>>, stale: seq<(string, string)>)
    requires m.Valid()
    ensures Tarjan.IsCycleList(WaitGraphOf(m, relaxed), cycles)
    ensures forall e :: e in stale <==> e in relaxed && Rollout.Live(WaitGraphOf(m, relaxed - {e}))
    ensures Distinct(stale)
    ensures cycles == [] && stale == [] <==> ExactlyNeeded(m, relaxed)
  {
    var graph := BuildGraph.BuildGraph(m, relaxed);
    cycles := Tarjan.CyclesOf(graph);
    stale := [];
    var edges := Listing(relaxed);
    for i := 0 to |edges|
      invariant forall e :: e in stale <==> e in edges[..i] && Rollout.Live(WaitGraphOf(m, relaxed - {e}))
      invariant Distinct(stale)
    {
      var tightened := relaxed - {edges[i]};
      var probe := BuildGraph.BuildGraph(m, tightened);
      var found := Tarjan.CyclesOf(probe);
      Rollout.LiveIffAcyclic(probe);
      if found == [] {
        DistinctAppend(stale, edges[i]);
        stale := stale + [edges[i]];
      }
    }
    VerdictMeans(m, relaxed, cycles, stale);
  }

  lemma VerdictMeans(m: Install, r: Relaxations, cycles: seq<seq<Node>>, stale: seq<(string, string)>)
    requires m.Valid() && (cycles == [] <==> Acyclic(WaitGraphOf(m, r)))
    requires forall e :: e in stale <==> e in r && Rollout.Live(WaitGraphOf(m, r - {e}))
    ensures cycles == [] && stale == [] <==> ExactlyNeeded(m, r)
  {
    Rollout.LiveIffAcyclic(WaitGraphOf(m, r));
    if cycles == [] && stale == [] {
      forall e | e in r ensures !Acyclic(WaitGraphOf(m, r - {e})) {
        assert e !in stale;
        Rollout.LiveIffAcyclic(WaitGraphOf(m, r - {e}));
      }
      forall s | s < r ensures !Rollout.Live(WaitGraphOf(m, s)) {
        LocalMinimalityIsGlobal(m, r, s);
        Rollout.LiveIffAcyclic(WaitGraphOf(m, s));
      }
    } else if stale != [] {
      assert stale[0] in stale;
      assert r - {stale[0]} < r;
    }
  }

  // ---- Which cycles a relaxation can break ----

  ghost function DeclaredEdges(m: Install): Relaxations
    requires m.Valid()
  {
    set c, i | c in m.charts && 0 <= i < |m.deps[c]| :: (c, m.deps[c][i])
  }

  /** The declared dependencies of the rendered components. */
  ghost function DepGraph(m: Install): Graph<string>
    requires m.Valid()
  {
    Declared(map c | c in m.charts :: m.deps[c])
  }

  /** The waits between workloads: the charts' own startup waits. */
  ghost function StartupGraph(m: Install): Graph<Node>
    requires m.Valid()
  {
    map a | a in Universe(m) && a.Running? :: set b | b in WaitsOf(m, {}, a) && b.Running?
  }

  lemma StartupEdges(m: Install, r: Relaxations, a: Node, b: Node)
    requires m.Valid()
    ensures Edge(StartupGraph(m), a, b) <==> a.Running? && b.Running? && Edges(m, r, a, b)
  {
    if a.Running? && b.Running? {
      WaitGraphEdges(m, {}, a, b);
      if Edges(m, r, a, b) {
        OnlyGatesDiffer(m, r, {}, a, b);
        WaitsInUniverse(m, {}, a, b);
      }
      if Edge(StartupGraph(m), a, b) {
        OnlyGatesDiffer(m, {}, r, a, b);
      }
    }
  }

  /** Startup waits that go round in a circle deadlock whatever is relaxed. */
  lemma StartupCyclesStay(m: Install, r: Relaxations)
    requires m.Valid() && Acyclic(WaitGraphOf(m, r))
    ensures Acyclic(StartupGraph(m))
  {
    forall n ensures !OnCycle(StartupGraph(m), n) {
      if OnCycle(StartupGraph(m), n) {
        forall a, b | Edge(StartupGraph(m), a, b) ensures Edge(WaitGraphOf(m, r), a, b) {
          StartupEdges(m, r, a, b);
        }
        SubgraphKeepsCycles(StartupGraph(m), WaitGraphOf(m, r), n);
      }
    }
  }

  /** No step of p goes from a creation to the readiness of a dependency. */
  ghost predicate Ungated(p: seq<Node>) {
    forall i {:trigger p[i]} :: 0 <= i < |p| - 1 ==> !(p[i].Creation? && p[i + 1].Composition?)
  }

  /** On such a walk creations are followed by creations and nothing waits for a Composition. */
  lemma UngatedStep(m: Install, r: Relaxations, p: seq<Node>, n: Node, i: nat)
    requires m.Valid() && ClosedWalk(WaitGraphOf(m, r), p, n) && Ungated(p) && i < |p| - 1
    ensures p[i].Creation? ==> p[i + 1].Creation?
    ensures !p[i + 1].Composition?
  {
    assert StepAt(WaitGraphOf(m, r), p, i);
    OnlyGatesDiffer(m, r, r, p[i], p[i + 1]);
  }

  lemma {:induction false} CreationsFollow(m: Install, r: Relaxations, p: seq<Node>, n: Node, i: nat, j: nat)
    requires m.Valid() && ClosedWalk(WaitGraphOf(m, r), p, n) && Ungated(p)
    requires i <= j < |p| && p[i].Creation?
    ensures p[j].Creation?
    decreases j - i
  {
    if i == j {
    } else {
      UngatedStep(m, r, p, n, i);
      CreationsFollow(m, r, p, n, i + 1, j);
    }
  }

  /** A cycle without such a step stays among the creations or among the workloads. */
  lemma UngatedCycleKinds(m: Install, r: Relaxations, p: seq<Node>, n: Node)
    requires m.Valid() && ClosedWalk(WaitGraphOf(m, r), p, n) && Ungated(p)
    ensures (forall i :: 0 <= i < |p| ==> p[i].Creation?) || (forall i :: 0 <= i < |p| ==> p[i].Running?)
  {
    forall i | 0 <= i < |p| ensures !p[i].Composition? {
      UngatedStep(m, r, p, n, if i > 0 then i - 1 else |p| - 2);
    }
    forall i, j | 0 <= i < |p| && p[i].Creation? && 0 <= j < |p| ensures p[j].Creation? {
      CreationsFollow(m, r, p, n, i, |p| - 1);
      CreationsFollow(m, r, p, n, 0, j);
    }
  }

  /** The declared dependencies that are relaxed. */
  ghost function RelaxedDeps(m: Install, r: Relaxations): Graph<string>
    requires m.Valid()
  {
    map c | c in m.charts :: set d | d in m.deps[c] && (c, d) in r
  }

  lemma RelaxedDepStep(m: Install, r: Relaxations, a: Node, b: Node)
    requires m.Valid() && b.Creation? && DependencyOf(m, r, a.component, b)
    ensures Edge(RelaxedDeps(m, r), a.component, b.component)
  {
  }

  lemma CreationCycleIsRelaxed(m: Install, r: Relaxations, p: seq<Node>, n: Node)
    requires m.Valid() && ClosedWalk(WaitGraphOf(m, r), p, n)
    requires forall i :: 0 <= i < |p| ==> p[i].Creation?
    ensures OnCycle(RelaxedDeps(m, r), n.component)
  {
    hide WaitGraphOf, DependencyOf, RelaxedDeps;
    var q := seq(|p|, i requires 0 <= i < |p| => p[i].component);
    forall i | 0 <= i < |q| - 1 ensures StepAt(RelaxedDeps(m, r), q, i) {
      assert StepAt(WaitGraphOf(m, r), p, i);
      OnlyGatesDiffer(m, r, r, p[i], p[i + 1]);
      RelaxedDepStep(m, r, p[i], p[i + 1]);
    }
    assert ClosedWalk(RelaxedDeps(m, r), q, n.component);
  }

  lemma RelaxedDepsAreDeclared(m: Install, r: Relaxations)
    requires m.Valid() && Acyclic(DepGraph(m))
    ensures Acyclic(RelaxedDeps(m, r))
  {
    forall c ensures !OnCycle(RelaxedDeps(m, r), c) {
      if OnCycle(RelaxedDeps(m, r), c) {
        SubgraphKeepsCycles(RelaxedDeps(m, r), DepGraph(m), c);
      }
    }
  }

  /** Such a cycle goes round among relaxed dependencies, or among startup waits. */
  lemma UngatedCycleIsEither(m: Install, r: Relaxations, p: seq<Node>, n: Node)
    requires m.Valid() && ClosedWalk(WaitGraphOf(m, r), p, n) && Ungated(p)
    ensures (forall i :: 0 <= i < |p| ==> p[i].Creation?) || (forall i :: 0 <= i < |p| ==> p[i].Running?)
    ensures n.Creation? ==> OnCycle(RelaxedDeps(m, r), n.component)
    ensures n.Running? ==> OnCycle(StartupGraph(m), n)
  {
    UngatedCycleKinds(m, r, p, n);
    if p[0].Creation? {
      CreationCycleIsRelaxed(m, r, p, n);
    } else {
      hide WaitGraphOf, StartupGraph;
      forall i | 0 <= i < |p| - 1 ensures StepAt(StartupGraph(m), p, i) {
        assert StepAt(WaitGraphOf(m, r), p, i);
        StartupEdges(m, r, p[i], p[i + 1]);
      }
      assert ClosedWalk(StartupGraph(m), p, n);
    }
  }

  lemma RelaxedIsUngated(m: Install, p: seq<Node>)
    requires m.Valid() && IsWalk(WaitGraphOf(m, DeclaredEdges(m)), p)
    ensures Ungated(p)
  {
    var r := DeclaredEdges(m);
    forall i | 0 <= i < |p| - 1 ensures !(p[i].Creation? && p[i + 1].Composition?) {
      assert StepAt(WaitGraphOf(m, r), p, i);
      OnlyGatesDiffer(m, r, r, p[i], p[i + 1]);
    }
  }

  /** If the declared dependencies have no cycle, relaxing every edge leaves only the cycles of
      the startup waits. */
  lemma RelaxingAllSuffices(m: Install)
    requires m.Valid() && Acyclic(DepGraph(m)) && Acyclic(StartupGraph(m))
    ensures Acyclic(WaitGraphOf(m, DeclaredEdges(m)))
  {
    var r := DeclaredEdges(m);
    forall n ensures !OnCycle(WaitGraphOf(m, r), n) {
      if OnCycle(WaitGraphOf(m, r), n) {
        var p: seq<Node> :| ClosedWalk(WaitGraphOf(m, r), p, n);
        RelaxedIsUngated(m, p);
        UngatedCycleIsEither(m, r, p, n);
        RelaxedDepsAreDeclared(m, r);
      }
    }
  }

  /** Given acyclic declared dependencies, some relaxation set avoids every deadlock exactly when
      the startup waits have no cycle of their own. */
  lemma RemedyExists(m: Install)
    requires m.Valid() && Acyclic(DepGraph(m))
    ensures (exists r :: Rollout.Live(WaitGraphOf(m, r))) <==> Acyclic(StartupGraph(m))
  {
    if r :| Rollout.Live(WaitGraphOf(m, r)) {
      Rollout.LiveIffAcyclic(WaitGraphOf(m, r));
      StartupCyclesStay(m, r);
    }
    if Acyclic(StartupGraph(m)) {
      RelaxingAllSuffices(m);
      Rollout.LiveIffAcyclic(WaitGraphOf(m, DeclaredEdges(m)));
    }
  }

  /** A readiness-gated creation edge inside the component: what the gate offers to relax. */
  ghost predicate Candidate(m: Install, r: Relaxations, scc: seq<Node>, a: Node, b: Node)
    requires m.Valid()
  {
    a in scc && b in scc && a.Creation? && b.Composition? && Edges(m, r, a, b)
  }

  lemma CreationEdges(m: Install, r: Relaxations, c: string, b: Node)
    requires m.Valid()
    ensures Edges(m, r, Creation(c), b) <==> DependencyOf(m, r, c, b)
  {
    if Edges(m, r, Creation(c), b) {
      OnlyGatesDiffer(m, r, r, Creation(c), b);
    }
    if DependencyOf(m, r, c, b) {
      var i :| 0 <= i < |m.deps[c]| && b == Gate(r, c, m.deps[c][i]);
      GateEdge(m, r, c, i);
    }
  }

  /** An edge that no relaxation takes away stays under more of them. */
  lemma FixedEdge(m: Install, r: Relaxations, s: Relaxations, a: Node, b: Node)
    requires m.Valid() && r <= s && Edges(m, r, a, b) && !(a.Creation? && b.Composition?)
    ensures Edges(m, s, a, b)
  {
    OnlyGatesDiffer(m, r, s, a, b);
    hide WaitGraphOf, Edges, Waits;
    if a.Creation? {
      var c := a.component;
      CreationEdges(m, r, c, b);
      var j :| 0 <= j < |m.deps[c]| && b == Gate(r, c, m.deps[c][j]);
      GateEdge(m, s, c, j);
    }
  }

  /** A reported component without a candidate stays cyclic however much more is relaxed. */
  lemma NoCandidateNoRemedy(m: Install, r: Relaxations, s: Relaxations, cycles: seq<seq<Node>>, i: nat, x: Node)
    requires m.Valid() && r <= s && Tarjan.IsCycleList(WaitGraphOf(m, r), cycles)
    requires i < |cycles| && x in cycles[i]
    requires forall a, b :: !Candidate(m, r, cycles[i], a, b)
    ensures OnCycle(WaitGraphOf(m, s), x)
  {
    var g, h := WaitGraphOf(m, r), WaitGraphOf(m, s);
    Witness.ComponentHasCircuit(g, cycles, i, x);
    var p: seq<Node> :| Witness.Circuit(g, Witness.Members(cycles[i]), x, p);
    forall k | 0 <= k < |p| - 1 ensures StepAt(h, p, k) {
      assert StepAt(g, p, k);
      assert p[k] in cycles[i] && p[k + 1] in cycles[i];
      assert !Candidate(m, r, cycles[i], p[k], p[k + 1]);
      FixedEdge(m, r, s, p[k], p[k + 1]);
    }
    assert ClosedWalk(h, p, x);
  }

  /** A component without a candidate lies entirely between startup waits, or else consists of
      creations that go round among relaxed dependencies. */
  lemma NoCandidateKinds(m: Install, r: Relaxations, cycles: seq<seq<Node>>, i: nat)
    requires m.Valid() && Tarjan.IsCycleList(WaitGraphOf(m, r), cycles) && i < |cycles|
    requires forall a, b :: !Candidate(m, r, cycles[i], a, b)
    ensures || (forall x :: x in cycles[i] ==> x.Running? && OnCycle(StartupGraph(m), x))
            || (forall x :: x in cycles[i] ==> x.Creation? && OnCycle(RelaxedDeps(m, r), x.component))
  {
    hide WaitGraphOf, RelaxedDeps, StartupGraph, Candidate;
    var first := cycles[i][0];
    forall x | x in cycles[i]
      ensures first.Running? ==> x.Running? && OnCycle(StartupGraph(m), x)
      ensures !first.Running? ==> x.Creation? && OnCycle(RelaxedDeps(m, r), x.component)
    {
      var p, k := CircuitThrough(m, r, cycles, i, x, first);
      CircuitIsUngated(m, r, cycles, i, p, x);
      UngatedCycleIsEither(m, r, p, x);
    }
  }

  /** Two nodes of a component lie on one closed walk. */
  lemma CircuitThrough(m: Install, r: Relaxations, cycles: seq<seq<Node>>, i: nat, x: Node, y: Node)
    returns (p: seq<Node>, k: nat)
    requires m.Valid() && Tarjan.IsCycleList(WaitGraphOf(m, r), cycles) && i < |cycles|
    requires x in cycles[i] && y in cycles[i]
    ensures ClosedWalk(WaitGraphOf(m, r), p, x) && k < |p| && p[k] == y
  {
    hide WaitGraphOf;
    var g := WaitGraphOf(m, r);
    assert OnCycle(g, x) && MutuallyReachable(g, x, y);
    OnCycleIff(g, x);
    var b :| Edge(g, x, b) && Reach(g, b, x);
    ReachTrans(g, b, x, y);
    var there :| WalkFromTo(g, there, b, y);
    var back :| WalkFromTo(g, back, y, x);
    JoinWalks(g, there, back, b, y, x);
    var rest := there + back[1..];
    assert StepAt(g, [x, b], 0);
    JoinWalks(g, [x, b], rest, x, b, x);
    p, k := [x, b] + rest[1..], |there|;
    assert p[|there|] == if |there| == 1 then b else rest[|there| - 1];
  }

  lemma CircuitIsUngated(m: Install, r: Relaxations, cycles: seq<seq<Node>>, i: nat, p: seq<Node>, x: Node)
    requires m.Valid() && Tarjan.IsCycleList(WaitGraphOf(m, r), cycles) && i < |cycles| && x in cycles[i]
    requires ClosedWalk(WaitGraphOf(m, r), p, x) && forall a, b :: !Candidate(m, r, cycles[i], a, b)
    ensures Ungated(p)
  {
    hide WaitGraphOf;
    var g := WaitGraphOf(m, r);
    Witness.ComponentHasCircuit(g, cycles, i, x);
    forall k | 0 <= k < |p| - 1 ensures !(p[k].Creation? && p[k + 1].Composition?) {
      assert StepAt(g, p, k);
      assert p[k] in cycles[i] && p[k + 1] in cycles[i];
      assert !Candidate(m, r, cycles[i], p[k], p[k + 1]);
    }
  }

  /** The message's reason, that such a component lies between startup waits, is wrong exactly
      where it goes round among relaxed dependencies, and so right where none of those do. */
  lemma NoCandidateIsStartup(m: Install, r: Relaxations, cycles: seq<seq<Node>>, i: nat)
    requires m.Valid() && Tarjan.IsCycleList(WaitGraphOf(m, r), cycles) && i < |cycles|
    requires forall a, b :: !Candidate(m, r, cycles[i], a, b)
    ensures (forall x :: x in cycles[i] ==> x.Running? && OnCycle(StartupGraph(m), x))
       <==> !exists x :: x in cycles[i] && OnCycle(RelaxedDeps(m, r), x.component) && x.Creation?
    ensures Acyclic(DepGraph(m)) ==> forall x :: x in cycles[i] ==> x.Running? && OnCycle(StartupGraph(m), x)
  {
    hide WaitGraphOf, RelaxedDeps, StartupGraph, Candidate, DepGraph;
    NoCandidateKinds(m, r, cycles, i);
    assert cycles[i][0] in cycles[i];
    if Acyclic(DepGraph(m)) {
      RelaxedDepsAreDeclared(m, r);
    }
  }
}
