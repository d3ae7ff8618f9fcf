/** A component without workloads. Its wait-graph node "composition is Ready" has no edges at
    all (hack/validate-readiness-deadlock.py:466-473), although a Composition that has not been
    created is not Ready. Here the missing edge is added and compared. */
module StrictReadiness {
  import opened Graphs
  import opened WaitGraph
  import opened RelaxationCheck
  import opened ServiceOwners
  import Rollout

  /** The wait graph with "c is Ready" also waiting for the creation of c, for every c. */
  ghost function StrictGraph(m: Install, r: Relaxations): Graph<Node>
    requires m.Valid()
  {
    map a | a in Universe(m) :: WaitsOf(m, r, a) + OwnCreation(m, a)
  }

  ghost function OwnCreation(m: Install, a: Node): set<Node> {
    if a.Composition? && a.component in m.charts then {Creation(a.component)} else {}
  }

  lemma StrictEdges(m: Install, r: Relaxations, a: Node, b: Node)
    requires m.Valid()
    ensures Edge(StrictGraph(m, r), a, b) <==> Edges(m, r, a, b) || b in OwnCreation(m, a)
  {
    WaitGraphEdges(m, r, a, b);
    if Waits(m, r, a, b) {
      WaitsInUniverse(m, r, a, b);
    }
  }

  /** Rendered, and without a workload. */
  ghost predicate Bare(m: Install, d: string) {
    d in m.charts && !HasWorkload(m, d)
  }

  /** The declared edges whose dependency is rendered without workloads. */
  ghost function BareGates(m: Install): Relaxations
    requires m.Valid()
  {
    set c, i | c in m.charts && 0 <= i < |m.deps[c]| && Bare(m, m.deps[c][i]) :: (c, m.deps[c][i])
  }

  /** The node that stands for n where a bare component's readiness is its creation. */
  ghost function Stand(m: Install, n: Node): Node {
    if n.Composition? && Bare(m, n.component) then Creation(n.component) else n
  }

  ghost predicate Reaches(g: Graph<Node>, a: Node, b: Node) {
    exists z :: Edge(g, a, z) && Reach(g, z, b)
  }

  lemma OneEdgeReaches(m: Install, r: Relaxations, a: Node, b: Node)
    requires m.Valid() && Edges(m, r, a, b)
    ensures Reaches(WaitGraphOf(m, r), a, b)
  {
    ReachSelf(WaitGraphOf(m, r), b);
  }

  lemma OwnCreationReached(m: Install, r: Relaxations, d: string)
    requires m.Valid() && HasWorkload(m, d)
    ensures Reaches(WaitGraphOf(m, r), Composition(d), Creation(d))
  {
    ReadyNeedsCreation(m, r, d);
    var z :| Edges(m, r, Composition(d), z) && Edges(m, r, z, Creation(d));
    ReachEdge(WaitGraphOf(m, r), z, Creation(d));
  }

  /** A gate of r is, with the bare gates relaxed too, a gate on what stands for it. */
  lemma GateStands(m: Install, r: Relaxations, c: string, b: Node)
    requires m.Valid() && DependencyOf(m, r, c, b)
    ensures Edges(m, r + BareGates(m), Creation(c), Stand(m, b))
  {
    hide WaitGraphOf, Edges, HasWorkload;
    var s := r + BareGates(m);
    var i :| 0 <= i < |m.deps[c]| && b == Gate(r, c, m.deps[c][i]);
    GateEdge(m, s, c, i);
    assert (c, m.deps[c][i]) in BareGates(m) <==> Bare(m, m.deps[c][i]);
  }

  /** A wait under r is one on what stands for it, and a bare component's Composition waits for nothing. */
  lemma WaitStands(m: Install, r: Relaxations, a: Node, b: Node)
    requires m.Valid() && Edges(m, r, a, b)
    ensures Stand(m, a) == a && Edges(m, r + BareGates(m), a, Stand(m, b))
  {
    OnlyGatesDiffer(m, r, r + BareGates(m), a, b);
    hide WaitGraphOf, Edges, BareGates, HasWorkload;
    if a.Creation? {
      GateStands(m, r, a.component, b);
    }
  }

  /** A strict edge is walked in the gate's graph with the bare gates relaxed, between the nodes
      that stand for its ends; only the step of a bare component to its own creation vanishes. */
  lemma StrictStep(m: Install, r: Relaxations, a: Node, b: Node)
    requires m.Valid() && Edge(StrictGraph(m, r), a, b)
    ensures Stand(m, a) == a ==> Reaches(WaitGraphOf(m, r + BareGates(m)), a, Stand(m, b))
    ensures Stand(m, a) != a ==> b == Stand(m, a)
  {
    var s := r + BareGates(m);
    StrictEdges(m, r, a, b);
    hide StrictGraph, WaitGraphOf, Reaches, Edges, BareGates, HasWorkload;
    if Edges(m, r, a, b) {
      WaitStands(m, r, a, b);
      if Stand(m, a) == a {
        OneEdgeReaches(m, s, a, Stand(m, b));
      }
    } else if Stand(m, a) == a {
      OwnCreationReached(m, s, a.component);
    }
  }

  lemma StrictWalkMaps(m: Install, r: Relaxations, p: seq<Node>)
    requires m.Valid() && IsWalk(StrictGraph(m, r), p)
    ensures Reach(WaitGraphOf(m, r + BareGates(m)), Stand(m, p[0]), Stand(m, p[|p| - 1]))
  {
    hide StrictGraph, WaitGraphOf, BareGates, Stand;
    var g, h := StrictGraph(m, r), WaitGraphOf(m, r + BareGates(m));
    ReachSelf(h, Stand(m, p[0]));
    var k := 0;
    while k < |p| - 1
      invariant 0 <= k < |p| && Reach(h, Stand(m, p[0]), Stand(m, p[k]))
    {
      assert StepAt(g, p, k);
      StrictStepReaches(m, r, p[k], p[k + 1]);
      ReachTrans(h, Stand(m, p[0]), Stand(m, p[k]), Stand(m, p[k + 1]));
      k := k + 1;
    }
  }

  lemma StrictStepReaches(m: Install, r: Relaxations, a: Node, b: Node)
    requires m.Valid() && Edge(StrictGraph(m, r), a, b)
    ensures Reach(WaitGraphOf(m, r + BareGates(m)), Stand(m, a), Stand(m, b))
  {
    var h := WaitGraphOf(m, r + BareGates(m));
    StrictStep(m, r, a, b);
    hide StrictGraph, WaitGraphOf, BareGates;
    if Stand(m, a) == a {
      ReachStep(h, a, Stand(m, b));
    } else {
      ReachSelf(h, b);
    }
  }

  lemma StrictCycleMaps(m: Install, r: Relaxations, n: Node)
    requires m.Valid() && OnCycle(StrictGraph(m, r), n)
    ensures OnCycle(WaitGraphOf(m, r + BareGates(m)), Stand(m, n))
  {
    var g, h := StrictGraph(m, r), WaitGraphOf(m, r + BareGates(m));
    var p: seq<Node> :| ClosedWalk(g, p, n);
    assert StepAt(g, p, 0);
    StrictStep(m, r, n, p[1]);
    CycleRotates(g, p, n, 1);
    hide StrictGraph, WaitGraphOf, BareGates;
    var x := Stand(m, n);
    if x == n {
      StrictCycleAt(m, r, n);
    } else {
      StrictCycleAt(m, r, p[1]);
    }
  }

  lemma StrictCycleAt(m: Install, r: Relaxations, n: Node)
    requires m.Valid() && OnCycle(StrictGraph(m, r), n) && Stand(m, n) == n
    ensures OnCycle(WaitGraphOf(m, r + BareGates(m)), n)
  {
    hide StrictGraph, WaitGraphOf, BareGates, Stand;
    var g, h := StrictGraph(m, r), WaitGraphOf(m, r + BareGates(m));
    OnCycleIff(g, n);
    var b :| Edge(g, n, b) && Reach(g, b, n);
    StrictStep(m, r, n, b);
    var p :| WalkFromTo(g, p, b, n);
    StrictWalkMaps(m, r, p);
    var z :| Edge(h, n, z) && Reach(h, z, Stand(m, b));
    ReachTrans(h, z, Stand(m, b), n);
    OnCycleIff(h, n);
  }

  /** The other way: a gate on a bare component's creation is two strict edges. */
  lemma RelaxedGateMaps(m: Install, r: Relaxations, c: string, b: Node)
    requires m.Valid() && DependencyOf(m, r + BareGates(m), c, b)
    ensures Reaches(StrictGraph(m, r), Creation(c), b)
  {
    hide StrictGraph, WaitGraphOf, Edges, HasWorkload;
    var g := StrictGraph(m, r);
    var i :| 0 <= i < |m.deps[c]| && b == Gate(r + BareGates(m), c, m.deps[c][i]);
    var d := m.deps[c][i];
    GateEdge(m, r, c, i);
    StrictEdges(m, r, Creation(c), Gate(r, c, d));
    if b == Gate(r, c, d) {
      ReachSelf(g, b);
    } else {
      StrictEdges(m, r, Composition(d), b);
      ReachEdge(g, Composition(d), b);
    }
  }

  lemma RelaxedStepMaps(m: Install, r: Relaxations, a: Node, b: Node)
    requires m.Valid() && Edges(m, r + BareGates(m), a, b)
    ensures Reaches(StrictGraph(m, r), a, b)
  {
    OnlyGatesDiffer(m, r + BareGates(m), r, a, b);
    hide StrictGraph, WaitGraphOf, Edges, BareGates;
    if a.Creation? {
      RelaxedGateMaps(m, r, a.component, b);
    } else {
      StrictEdges(m, r, a, b);
      ReachSelf(StrictGraph(m, r), b);
    }
  }

  lemma RelaxedCycleMaps(m: Install, r: Relaxations, n: Node)
    requires m.Valid() && OnCycle(WaitGraphOf(m, r + BareGates(m)), n)
    ensures OnCycle(StrictGraph(m, r), n)
  {
    var g, h := StrictGraph(m, r), WaitGraphOf(m, r + BareGates(m));
    forall x, y | Edge(h, x, y) ensures exists z :: Edge(g, x, z) && Reach(g, z, y) {
      RelaxedStepMaps(m, r, x, y);
    }
    hide StrictGraph, WaitGraphOf, BareGates;
    CyclesMap(h, g, n);
  }

  /** The strict reading finds a deadlock exactly when the gate would if the gates on components
      without workloads were relaxed as well. */
  lemma StrictIsBareRelaxed(m: Install, r: Relaxations)
    requires m.Valid()
    ensures Acyclic(StrictGraph(m, r)) <==> Acyclic(WaitGraphOf(m, r + BareGates(m)))
    ensures Rollout.Live(StrictGraph(m, r)) <==> Rollout.Live(WaitGraphOf(m, r + BareGates(m)))
  {
    var g, h := StrictGraph(m, r), WaitGraphOf(m, r + BareGates(m));
    hide StrictGraph, WaitGraphOf, BareGates;
    if n :| OnCycle(g, n) {
      StrictCycleMaps(m, r, n);
    }
    if n :| OnCycle(h, n) {
      RelaxedCycleMaps(m, r, n);
    }
    Rollout.LiveIffAcyclic(g);
    Rollout.LiveIffAcyclic(h);
  }

  ghost predicate GatedHaveWorkloads(m: Install, r: Relaxations)
    requires m.Valid()
  {
    forall c, d :: c in m.charts && d in m.deps[c] && (c, d) !in r && d in m.charts ==> HasWorkload(m, d)
  }

  /** Where every dependency gated on readiness has workloads, or is not rendered, the gate's
      graph has a cycle exactly when the strict one has. */
  lemma StrictAgrees(m: Install, r: Relaxations)
    requires m.Valid() && GatedHaveWorkloads(m, r)
    ensures Acyclic(WaitGraphOf(m, r)) <==> Acyclic(StrictGraph(m, r))
  {
    StrictIsBareRelaxed(m, r);
    assert BareGates(m) <= r;
    assert r + BareGates(m) == r;
  }

  // ---- An install the gate passes and that never finishes ----

  const WEB := Workload("Deployment", "web", map[], ["db"], [], [])
  const DB := Workload("StatefulSet", "db", map["app" := "db"], [], [], [])

  /** web's pod waits for db's Service; db depends on settings, which renders no workload and
      depends on web. */
  const BLIND: Install := Install(
    map["web" := Chart([], [WEB]), "db" := Chart([Service("db", map["app" := "db"])], [DB]),
        "settings" := Chart([], [])],
    map["web" := [], "db" := ["settings"], "settings" := ["web"]],
    map["web" := map["web" := WEB], "db" := map["db" := DB], "settings" := map[]],
    map["db" := Owner("db", [DB])])

  function Rank(n: Node): nat {
    match n
    case Composition(c) => if c == "settings" then 0 else if c == "db" then 3 else 4
    case Creation(c) => if c == "db" then 1 else if c == "settings" then 5 else 0
    case Running(c, _, _) => if c == "db" then 2 else 3
  }

  lemma RankedIsAcyclic(g: Graph<Node>)
    requires forall a, b :: Edge(g, a, b) ==> Rank(b) < Rank(a)
    ensures Acyclic(g)
  {
    forall n ensures !OnCycle(g, n) {
      if OnCycle(g, n) {
        OnCycleIff(g, n);
        var b :| Edge(g, n, b) && Reach(g, b, n);
        var p :| WalkFromTo(g, p, b, n);
        var k := 0;
        while k < |p| - 1
          invariant 0 <= k < |p| && Rank(p[k]) <= Rank(b)
        {
          assert StepAt(g, p, k);
          k := k + 1;
        }
      }
    }
  }

  lemma BlindRanked(a: Node, b: Node)
    requires BLIND.Valid() && Edges(BLIND, {}, a, b)
    ensures Rank(b) < Rank(a)
  {
    WaitGraphEdges(BLIND, {}, a, b);
    hide WaitGraphOf, Edges;
    var c :| c in BLIND.charts && ComponentEdge(BLIND, {}, c, a, b);
    BlindComponent(c, BLIND.charts[c].workloads, a, b);
  }

  lemma BlindGate(c: string, a: Node, b: Node)
    requires BLIND.Valid() && c in BLIND.charts && a == Creation(c)
    requires exists i :: 0 <= i < |BLIND.deps[c]| && b == Gate({}, c, BLIND.deps[c][i])
    ensures Rank(b) < Rank(a)
  {
    var i :| 0 <= i < |BLIND.deps[c]| && b == Gate({}, c, BLIND.deps[c][i]);
    assert b == Composition(BLIND.deps[c][i]);
  }

  lemma BlindComponent(c: string, ws: seq<Workload>, a: Node, b: Node)
    requires BLIND.Valid() && c in BLIND.charts && BLIND.charts[c].workloads == ws
    requires ComponentEdge(BLIND, {}, c, a, b)
    ensures Rank(b) < Rank(a)
  {
    assert (c == "web" && ws == [WEB]) || (c == "db" && ws == [DB]) || (c == "settings" && ws == []);
    if i :| 0 <= i < |ws| && WorkloadEdge(BLIND, c, ws[i], a, b) {
      BlindWorkload(c, ws[i], a, b);
    } else {
      BlindGate(c, a, b);
    }
  }

  lemma BlindWorkload(c: string, w: Workload, a: Node, b: Node)
    requires WorkloadEdge(BLIND, c, w, a, b) && ((c == "web" && w == WEB) || (c == "db" && w == DB))
    ensures Rank(b) < Rank(a)
  {
    if a != Composition(c) && b != Creation(c) {
      assert w.pods == [] && w.jobs == [];
      var k :| 0 <= k < |w.services| && Backs(BLIND, w.services[k], b);
      assert w == WEB && b == WorkloadNode("db", DB);
    }
  }

  lemma BlindCharts(c: string)
    requires c in BLIND.charts
    ensures c == "web" || c == "db" || c == "settings"
    ensures BLIND.charts["db"] == Chart([Service("db", map["app" := "db"])], [DB])
    ensures BLIND.charts["web"] == Chart([], [WEB]) && BLIND.charts["settings"] == Chart([], [])
  {
  }

  lemma BlindOwners()
    ensures OwnersOf(BLIND.charts, BLIND.owners) && forall s :: !Dangling(BLIND.charts, BLIND.owners, s)
  {
    var svc := Service("db", map["app" := "db"]);
    BlindCharts("db");
    assert Selects(svc.selector, DB);
    assert WEB.services == ["db"] && DB.services == [];
    assert svc.selector != map[] by { assert "app" in svc.selector; }
    forall d, x, s | d in BLIND.charts && x in BLIND.charts[d].workloads && s in x.services ensures s == svc.name {
      BlindCharts(d);
    }
    forall d | d in BLIND.charts && d != "db" ensures BLIND.charts[d].services == [] {
      BlindCharts(d);
    }
    OnlyService(BLIND, "db", svc, DB);
  }

  lemma BlindWaits()
    ensures WEB in BLIND.charts["web"].workloads && ServiceWait(BLIND, WEB, WorkloadNode("db", DB))
  {
    BlindCharts("web");
    assert Backs(BLIND, "db", WorkloadNode("db", DB)) by { assert BLIND.owners["db"].backing[0] == DB; }
    assert WEB.services[0] == "db";
  }

  lemma BlindByName()
    ensures BLIND.workloads == map c | c in BLIND.charts :: ByName(BLIND.charts[c].workloads)
  {
    OneByName(WEB);
    OneByName(DB);
  }

  lemma BlindIsMeasured()
    ensures Measured(BLIND)
  {
    BlindByName();
    BlindWaits();
    BlindOwners();
    hide OwnersOf, Dangling, ServiceWait, ByName;
  }

  /** The gate takes this install, finds no cycle in it and nothing to relax, and every node on
      its circle waits for the next. */
  lemma GateMissesWorkloadless()
    ensures Measured(BLIND) && Acyclic(WaitGraphOf(BLIND, {})) && Acyclic(DepGraph(BLIND))
    ensures OnCycle(StrictGraph(BLIND, {}), Creation("db"))
    ensures !Acyclic(WaitGraphOf(BLIND, BareGates(BLIND)))
  {
    BlindIsMeasured();
    hide Measured;
    assert BLIND.Valid();
    forall a, b | Edge(WaitGraphOf(BLIND, {}), a, b) ensures Rank(b) < Rank(a) {
      BlindRanked(a, b);
    }
    RankedIsAcyclic(WaitGraphOf(BLIND, {}));
    BlindDeps();
    BlindCircle();
    hide WaitGraphOf, StrictGraph, BareGates, DepGraph;
    StrictIsBareRelaxed(BLIND, {});
    assert {} + BareGates(BLIND) == BareGates(BLIND);
  }

  lemma BlindDeps()
    requires BLIND.Valid()
    ensures Acyclic(DepGraph(BLIND))
  {
    var g := DepGraph(BLIND);
    forall n ensures !OnCycle(g, n) {
      if OnCycle(g, n) {
        OnCycleIff(g, n);
        var b :| Edge(g, n, b) && Reach(g, b, n);
        assert "web" in g && g["web"] == {};
        assert Edge(g, n, b) ==> (n == "db" && b == "settings") || (n == "settings" && b == "web");
        ReachStaysIn(g, if b == "web" then {"web"} else {"web", "settings"}, b, n);
      }
    }
  }

  lemma BlindEdges()
    requires BLIND.Valid()
    ensures Edges(BLIND, {}, Creation("db"), Composition("settings"))
    ensures Edges(BLIND, {}, Creation("settings"), Composition("web"))
    ensures Edges(BLIND, {}, Composition("web"), WorkloadNode("web", WEB))
    ensures Edges(BLIND, {}, WorkloadNode("web", WEB), WorkloadNode("db", DB))
    ensures Edges(BLIND, {}, WorkloadNode("db", DB), Creation("db"))
  {
    var m, web, db := BLIND, WorkloadNode("web", WEB), WorkloadNode("db", DB);
    assert m.charts["web"].workloads[0] == WEB && m.charts["db"].workloads[0] == DB;
    assert Backs(m, WEB.services[0], db) by { assert m.owners["db"].backing[0] == DB; }
    assert StartupWait(m, "web", WEB, db);
    hide WaitGraphOf, Edges;
    GateEdge(m, {}, "db", 0);
    GateEdge(m, {}, "settings", 0);
    WorkloadEdges(m, {}, "web", 0, Composition("web"), web);
    WorkloadEdges(m, {}, "web", 0, web, db);
    WorkloadEdges(m, {}, "db", 0, db, Creation("db"));
  }

  lemma BlindOwn()
    ensures OwnCreation(BLIND, Composition("settings")) == {Creation("settings")}
  {
  }

  lemma BlindStrict()
    requires BLIND.Valid()
    ensures var g := StrictGraph(BLIND, {});
      && Edge(g, Creation("db"), Composition("settings")) && Edge(g, Composition("settings"), Creation("settings"))
      && Edge(g, Creation("settings"), Composition("web")) && Edge(g, Composition("web"), WorkloadNode("web", WEB))
      && Edge(g, WorkloadNode("web", WEB), WorkloadNode("db", DB)) && Edge(g, WorkloadNode("db", DB), Creation("db"))
  {
    BlindEdges();
    BlindOwn();
    hide *;
    StrictEdges(BLIND, {}, Creation("db"), Composition("settings"));
    StrictEdges(BLIND, {}, Composition("settings"), Creation("settings"));
    StrictEdges(BLIND, {}, Creation("settings"), Composition("web"));
    StrictEdges(BLIND, {}, Composition("web"), WorkloadNode("web", WEB));
    StrictEdges(BLIND, {}, WorkloadNode("web", WEB), WorkloadNode("db", DB));
    StrictEdges(BLIND, {}, WorkloadNode("db", DB), Creation("db"));
  }

  lemma BlindCircle()
    requires BLIND.Valid()
    ensures OnCycle(StrictGraph(BLIND, {}), Creation("db"))
  {
    var g := StrictGraph(BLIND, {});
    BlindStrict();
    hide StrictGraph;
    var web, db := WorkloadNode("web", WEB), WorkloadNode("db", DB);
    SixCircle(g, Creation("db"), Composition("settings"), Creation("settings"), Composition("web"), web, db);
  }

  lemma SixCircle<N(!new)>(g: Graph<N>, a: N, b: N, c: N, d: N, e: N, f: N)
    requires Edge(g, a, b) && Edge(g, b, c) && Edge(g, c, d) && Edge(g, d, e) && Edge(g, e, f) && Edge(g, f, a)
    ensures OnCycle(g, a)
  {
    var p := [a, b, c, d, e, f, a];
    assert ClosedWalk(g, p, a);
  }
}
