/** The advice the gate prints with a cycle: relax one of the readiness-gated creation edges inside
    it (hack/validate-readiness-deadlock.py:623-630). When that helps, and an install in which it
    does not. */
module Advice {
  import opened Graphs
  import opened WaitGraph
  import opened RelaxationCheck
  import opened ServiceOwners
  import Rollout
  import Tarjan

  // ---- What relaxing one candidate does ----

  /** The wait graph without its edge from the creation of c to the readiness of d. */
  ghost function WithoutGate(m: Install, r: Relaxations, c: string, d: string): Graph<Node>
    requires m.Valid()
  {
    var g := WaitGraphOf(m, r);
    map a | a in g :: if a == Creation(c) then g[a] - {Composition(d)} else g[a]
  }

  lemma RelaxedDependency(m: Install, r: Relaxations, c: string, d: string, e: string, b: Node)
    requires m.Valid() && c in m.charts && d in m.deps[c] && (c, d) !in r
    ensures DependencyOf(m, r + {(c, d)}, e, b)
       <==> (DependencyOf(m, r, e, b) && !(e == c && b == Composition(d))) || (e == c && b == Creation(d))
  {
    var s := r + {(c, d)};
    if DependencyOf(m, s, e, b) {
      var i :| 0 <= i < |m.deps[e]| && b == Gate(s, e, m.deps[e][i]);
      assert DependencyOf(m, r, e, Gate(r, e, m.deps[e][i]));
    }
    if DependencyOf(m, r, e, b) && !(e == c && b == Composition(d)) {
      var i :| 0 <= i < |m.deps[e]| && b == Gate(r, e, m.deps[e][i]);
      assert b == Gate(s, e, m.deps[e][i]);
    }
    var k :| 0 <= k < |m.deps[c]| && m.deps[c][k] == d;
    assert Gate(s, c, m.deps[c][k]) == Creation(d);
  }

  lemma WithoutGateEdges(m: Install, r: Relaxations, c: string, d: string, a: Node, b: Node)
    requires m.Valid()
    ensures Edge(WithoutGate(m, r, c, d), a, b) <==> Edges(m, r, a, b) && !(a == Creation(c) && b == Composition(d))
  {
    hide WaitsOf, Waits, Universe;
  }

  lemma RelaxedEdges(m: Install, r: Relaxations, c: string, d: string, a: Node, b: Node)
    requires m.Valid() && c in m.charts && d in m.deps[c] && (c, d) !in r
    ensures Edges(m, r + {(c, d)}, a, b)
       <==> Edge(WithoutGate(m, r, c, d), a, b) || (a == Creation(c) && b == Creation(d))
  {
    var s := r + {(c, d)};
    WithoutGateEdges(m, r, c, d, a, b);
    hide WaitGraphOf, WithoutGate, Edges, Waits;
    if a.Creation? {
      CreationEdges(m, r, a.component, b);
      CreationEdges(m, s, a.component, b);
      RelaxedDependency(m, r, c, d, a.component, b);
    } else {
      if Edges(m, s, a, b) { OnlyGatesDiffer(m, s, r, a, b); }
      if Edges(m, r, a, b) { OnlyGatesDiffer(m, r, s, a, b); }
    }
  }

  /** An edge u -> v added to a graph puts u on a cycle where v already reached u, and otherwise
      puts nothing on a cycle that was not on one. */
  lemma OneMoreEdge<N(!new)>(g: Graph<N>, h: Graph<N>, u: N, v: N)
    requires forall a, b :: Edge(h, a, b) <==> Edge(g, a, b) || (a == u && b == v)
    ensures Reach(g, v, u) ==> OnCycle(h, u)
    ensures forall n :: OnCycle(g, n) ==> OnCycle(h, n)
    ensures !Reach(g, v, u) ==> forall n :: OnCycle(h, n) ==> OnCycle(g, n)
  {
    forall n | OnCycle(g, n) ensures OnCycle(h, n) {
      SubgraphKeepsCycles(g, h, n);
    }
    if Reach(g, v, u) {
      SubgraphKeepsReach(g, h, v, u);
      OnCycleIff(h, u);
    } else {
      forall n | OnCycle(h, n) ensures OnCycle(g, n) {
        CycleAvoidsEdge(g, h, u, v, n);
      }
    }
  }

  lemma CycleAvoidsEdge<N(!new)>(g: Graph<N>, h: Graph<N>, u: N, v: N, n: N)
    requires forall a, b :: Edge(h, a, b) <==> Edge(g, a, b) || (a == u && b == v)
    requires OnCycle(h, n) && !Reach(g, v, u)
    ensures OnCycle(g, n)
  {
    var p :| ClosedWalk(h, p, n);
    forall k | 0 <= k < |p| - 1 ensures StepAt(g, p, k) {
      assert StepAt(h, p, k);
      CycleRotates(h, p, n, k);
      CycleRotates(h, p, n, k + 1);
      ReachTrans(h, p[k + 1], n, p[k]);
      NotTheEdge(g, h, u, v, p[k], p[k + 1]);
    }
    assert ClosedWalk(g, p, n);
  }

  /** An edge that can be walked back is not the new one. */
  lemma NotTheEdge<N(!new)>(g: Graph<N>, h: Graph<N>, u: N, v: N, a: N, b: N)
    requires forall x, y :: Edge(h, x, y) <==> Edge(g, x, y) || (x == u && y == v)
    requires !Reach(g, v, u) && Edge(h, a, b) && Reach(h, b, a)
    ensures Edge(g, a, b)
  {
    if a == u {
      WithoutTheEdge(g, h, u, v, b);
    }
  }

  /** A way to u needs no edge out of u. */
  lemma WithoutTheEdge<N(!new)>(g: Graph<N>, h: Graph<N>, u: N, v: N, a: N)
    requires forall x, y :: Edge(h, x, y) <==> Edge(g, x, y) || (x == u && y == v)
    requires Reach(h, a, u)
    ensures Reach(g, a, u)
  {
    var p :| WalkFromTo(h, p, a, u);
    var k := 0;
    while p[k] != u
      invariant 0 <= k < |p|
      invariant forall i :: 0 <= i < k ==> p[i] != u
      decreases |p| - k
    {
      k := k + 1;
    }
    var q := p[..k + 1];
    forall i | 0 <= i < |q| - 1 ensures StepAt(g, q, i) {
      assert StepAt(h, p, i);
    }
    assert WalkFromTo(g, q, a, u);
  }

  lemma RelaxedIsOneMore(m: Install, r: Relaxations, c: string, d: string)
    requires m.Valid() && c in m.charts && d in m.deps[c] && (c, d) !in r
    ensures forall a, b :: Edge(WaitGraphOf(m, r + {(c, d)}), a, b) <==>
      Edge(WithoutGate(m, r, c, d), a, b) || (a == Creation(c) && b == Creation(d))
  {
    hide WaitGraphOf, WithoutGate;
    forall a, b ensures Edge(WaitGraphOf(m, r + {(c, d)}), a, b)
       <==> Edge(WithoutGate(m, r, c, d), a, b) || (a == Creation(c) && b == Creation(d))
    {
      RelaxedEdges(m, r, c, d, a, b);
    }
  }

  /** What a listed edge is: a declared dependency, not yet relaxed. */
  lemma CandidateIsDeclared(m: Install, r: Relaxations, scc: seq<Node>, c: string, d: string)
    requires m.Valid() && Candidate(m, r, scc, Creation(c), Composition(d))
    ensures c in m.charts && d in m.deps[c] && (c, d) !in r
  {
    CreationEdges(m, r, c, Composition(d));
    var k :| 0 <= k < |m.deps[c]| && Composition(d) == Gate(r, c, m.deps[c][k]);
  }

  /** Relaxing a listed edge breaks the reported component, so that none of its nodes is on a cycle
      any more, exactly when without that gate none of them is and the creation of d does not
      lead back to the creation of c. */
  lemma RelaxingOneBreaks(m: Install, r: Relaxations, cycles: seq<seq<Node>>, i: nat, c: string, d: string)
    requires m.Valid() && Tarjan.IsCycleList(WaitGraphOf(m, r), cycles) && i < |cycles|
    requires Candidate(m, r, cycles[i], Creation(c), Composition(d))
    ensures (forall x :: x in cycles[i] ==> !OnCycle(WaitGraphOf(m, r + {(c, d)}), x))
       <==> (forall x :: x in cycles[i] ==> !OnCycle(WithoutGate(m, r, c, d), x))
            && !Reach(WithoutGate(m, r, c, d), Creation(d), Creation(c))
  {
    hide WaitGraphOf, WithoutGate;
    CandidateIsDeclared(m, r, cycles[i], c, d);
    RelaxedIsOneMore(m, r, c, d);
    OneMoreEdge(WithoutGate(m, r, c, d), WaitGraphOf(m, r + {(c, d)}), Creation(c), Creation(d));
    assert Creation(c) in cycles[i];
  }

  /** Relaxing the edge from c to d ends every deadlock of the install exactly when every cycle
      used that gate and the creation of d does not lead back to the creation of c. */
  lemma RelaxingOneMakesLive(m: Install, r: Relaxations, c: string, d: string)
    requires m.Valid() && c in m.charts && d in m.deps[c] && (c, d) !in r
    ensures Rollout.Live(WaitGraphOf(m, r + {(c, d)}))
       <==> Acyclic(WithoutGate(m, r, c, d)) && !Reach(WithoutGate(m, r, c, d), Creation(d), Creation(c))
  {
    hide WaitGraphOf, WithoutGate;
    RelaxedIsOneMore(m, r, c, d);
    OneMoreEdge(WithoutGate(m, r, c, d), WaitGraphOf(m, r + {(c, d)}), Creation(c), Creation(d));
    Rollout.LiveIffAcyclic(WaitGraphOf(m, r + {(c, d)}));
  }

  // ---- A component that relaxing no one edge breaks ----

  const API := Workload("Deployment", "api", map["app" := "api"], [], [], [])
  const NET := Workload("DaemonSet", "net", map[], ["api"], [], [])
  const VOL := Workload("Deployment", "vol", map[], ["api"], [], [])

  /** api depends on net and on vol, and the pods of both wait for api's Service. */
  const TWO_WAYS: Install := Install(
    map["api" := Chart([Service("api", map["app" := "api"])], [API]),
        "net" := Chart([], [NET]), "vol" := Chart([], [VOL])],
    map["api" := ["net", "vol"], "net" := [], "vol" := []],
    map["api" := map["api" := API], "net" := map["net" := NET], "vol" := map["vol" := VOL]],
    map["api" := Owner("api", [API])])

  lemma FourCircle<N(!new)>(g: Graph<N>, a: N, b: N, c: N, d: N)
    requires Edge(g, a, b) && Edge(g, b, c) && Edge(g, c, d) && Edge(g, d, a)
    ensures OnCycle(g, a)
    ensures MutuallyReachable(g, a, b)
  {
    var p := [a, b, c, d, a];
    assert ClosedWalk(g, p, a);
    CycleRotates(g, p, a, 1);
  }

  /** The circle from the creation of api through its dependency number i. */
  lemma CircleThrough(r: Relaxations, i: nat, c: string, w: Workload)
    requires TWO_WAYS.Valid() && i < 2 && c == TWO_WAYS.deps["api"][i] && ("api", c) !in r
    requires w == if i == 0 then NET else VOL
    ensures OnCycle(WaitGraphOf(TWO_WAYS, r), Creation("api"))
    ensures MutuallyReachable(WaitGraphOf(TWO_WAYS, r), Creation("api"), Composition(c))
  {
    var m := TWO_WAYS;
    var waiter, api := WorkloadNode(c, w), WorkloadNode("api", API);
    assert m.charts[c].workloads[0] == w && m.charts["api"].workloads[0] == API;
    assert Backs(m, w.services[0], api) by { assert m.owners["api"].backing[0] == API; }
    assert StartupWait(m, c, w, api);
    GateEdge(m, r, "api", i);
    hide WaitGraphOf;
    WorkloadEdges(m, r, c, 0, Composition(c), waiter);
    WorkloadEdges(m, r, c, 0, waiter, api);
    WorkloadEdges(m, r, "api", 0, api, Creation("api"));
    FourCircle(WaitGraphOf(m, r), Creation("api"), Composition(c), waiter, api);
  }

  lemma TwoWaysCharts(c: string)
    requires c in TWO_WAYS.charts
    ensures c == "api" || c == "net" || c == "vol"
    ensures TWO_WAYS.charts["api"] == Chart([Service("api", map["app" := "api"])], [API])
    ensures TWO_WAYS.charts["net"] == Chart([], [NET]) && TWO_WAYS.charts["vol"] == Chart([], [VOL])
  {
  }

  lemma TwoWaysOwners()
    ensures OwnersOf(TWO_WAYS.charts, TWO_WAYS.owners) && forall s :: !Dangling(TWO_WAYS.charts, TWO_WAYS.owners, s)
  {
    var svc := Service("api", map["app" := "api"]);
    TwoWaysCharts("api");
    assert Selects(svc.selector, API);
    assert NET.services == ["api"] && VOL.services == ["api"] && API.services == [];
    assert svc.selector != map[] by { assert "app" in svc.selector; }
    forall d, x, s | d in TWO_WAYS.charts && x in TWO_WAYS.charts[d].workloads && s in x.services
      ensures s == svc.name
    {
      TwoWaysCharts(d);
    }
    forall d | d in TWO_WAYS.charts && d != "api" ensures TWO_WAYS.charts[d].services == [] {
      TwoWaysCharts(d);
    }
    OnlyService(TWO_WAYS, "api", svc, API);
  }

  lemma TwoWaysWaits()
    ensures NET in TWO_WAYS.charts["net"].workloads && ServiceWait(TWO_WAYS, NET, WorkloadNode("api", API))
  {
    TwoWaysCharts("net");
    assert Backs(TWO_WAYS, "api", WorkloadNode("api", API)) by { assert TWO_WAYS.owners["api"].backing[0] == API; }
    assert NET.services[0] == "api";
  }

  lemma TwoWaysByName()
    ensures TWO_WAYS.workloads == map c | c in TWO_WAYS.charts :: ByName(TWO_WAYS.charts[c].workloads)
  {
    OneByName(API);
    OneByName(NET);
    OneByName(VOL);
  }

  lemma TwoWaysIsMeasured()
    ensures Measured(TWO_WAYS)
  {
    TwoWaysByName();
    TwoWaysWaits();
    TwoWaysOwners();
    hide OwnersOf, Dangling, ServiceWait, ByName;
  }

  lemma TwoWaysCircles()
    ensures var g := WaitGraphOf(TWO_WAYS, {});
      && OnCycle(g, Creation("api")) && MutuallyReachable(g, Creation("api"), Composition("net"))
      && MutuallyReachable(g, Creation("api"), Composition("vol"))
    ensures Edges(TWO_WAYS, {}, Creation("api"), Composition("net"))
    ensures Edges(TWO_WAYS, {}, Creation("api"), Composition("vol"))
  {
    CircleThrough({}, 0, "net", NET);
    CircleThrough({}, 1, "vol", VOL);
    GateEdge(TWO_WAYS, {}, "api", 0);
    GateEdge(TWO_WAYS, {}, "api", 1);
  }

  /** The message lists api -> net and api -> vol, both inside the reported component and nothing
      else; relaxing either one alone leaves the creation of api on a cycle. */
  lemma AdviceMayNotHelp(cycles: seq<seq<Node>>) returns (i: nat)
    requires TWO_WAYS.Valid() && Tarjan.IsCycleList(WaitGraphOf(TWO_WAYS, {}), cycles)
    ensures Measured(TWO_WAYS)
    ensures i < |cycles|
    ensures forall c, d :: Candidate(TWO_WAYS, {}, cycles[i], Creation(c), Composition(d)) <==>
      c == "api" && (d == "net" || d == "vol")
    ensures forall c, d :: Candidate(TWO_WAYS, {}, cycles[i], Creation(c), Composition(d)) ==>
      exists x :: x in cycles[i] && OnCycle(WaitGraphOf(TWO_WAYS, {(c, d)}), x)
  {
    var m, api := TWO_WAYS, Creation("api");
    TwoWaysIsMeasured();
    TwoWaysCircles();
    hide WaitGraphOf, Measured, Edges, Tarjan.IsCycleList;
    i := ComponentOf(m, {}, cycles, api);
    InComponent(m, cycles, i, api, Composition("net"));
    InComponent(m, cycles, i, api, Composition("vol"));
    forall c, d | Candidate(m, {}, cycles[i], Creation(c), Composition(d))
      ensures c == "api" && (d == "net" || d == "vol")
    {
      CandidateIsDeclared(m, {}, cycles[i], c, d);
    }
    CircleThrough({("api", "net")}, 1, "vol", VOL);
    CircleThrough({("api", "vol")}, 0, "net", NET);
  }

  lemma ComponentOf(m: Install, r: Relaxations, cycles: seq<seq<Node>>, n: Node) returns (i: nat)
    requires m.Valid() && Tarjan.IsCycleList(WaitGraphOf(m, r), cycles) && OnCycle(WaitGraphOf(m, r), n)
    ensures i < |cycles| && n in cycles[i]
  {
    i :| i < |cycles| && n in cycles[i];
  }

  lemma InComponent(m: Install, cycles: seq<seq<Node>>, i: nat, n: Node, x: Node)
    requires m.Valid() && Tarjan.IsCycleList(WaitGraphOf(m, {}), cycles) && i < |cycles| && n in cycles[i]
    requires MutuallyReachable(WaitGraphOf(m, {}), n, x)
    ensures x in cycles[i]
  {
    hide WaitGraphOf;
  }

  // ---- A component the message calls one of startup waits, and that is not ----

  const FRONT := Workload("Deployment", "front", map[], ["store"], [], [])
  const STORE := Workload("StatefulSet", "store", map["app" := "store"], [], [], [])

  /** front and store declare each other as dependencies, and both edges are relaxed. */
  const MUTUAL: Install := Install(
    map["front" := Chart([], [FRONT]), "store" := Chart([Service("store", map["app" := "store"])], [STORE])],
    map["front" := ["store"], "store" := ["front"]],
    map["front" := map["front" := FRONT], "store" := map["store" := STORE]],
    map["store" := Owner("store", [STORE])])

  const BOTH: Relaxations := {("front", "store"), ("store", "front")}

  lemma MutualCharts(c: string)
    requires c in MUTUAL.charts
    ensures c == "front" || c == "store"
    ensures MUTUAL.charts["store"] == Chart([Service("store", map["app" := "store"])], [STORE])
    ensures MUTUAL.charts["front"] == Chart([], [FRONT])
  {
  }

  lemma MutualOwners()
    ensures OwnersOf(MUTUAL.charts, MUTUAL.owners) && forall s :: !Dangling(MUTUAL.charts, MUTUAL.owners, s)
  {
    var svc := Service("store", map["app" := "store"]);
    MutualCharts("store");
    assert Selects(svc.selector, STORE);
    assert FRONT.services == ["store"] && STORE.services == [];
    assert svc.selector != map[] by { assert "app" in svc.selector; }
    forall d, x, s | d in MUTUAL.charts && x in MUTUAL.charts[d].workloads && s in x.services ensures s == svc.name {
      MutualCharts(d);
    }
    forall d | d in MUTUAL.charts && d != "store" ensures MUTUAL.charts[d].services == [] {
      MutualCharts(d);
    }
    OnlyService(MUTUAL, "store", svc, STORE);
  }

  lemma MutualWaits()
    ensures FRONT in MUTUAL.charts["front"].workloads && ServiceWait(MUTUAL, FRONT, WorkloadNode("store", STORE))
  {
    MutualCharts("front");
    assert Backs(MUTUAL, "store", WorkloadNode("store", STORE)) by {
      assert MUTUAL.owners["store"].backing[0] == STORE;
    }
    assert FRONT.services[0] == "store";
  }

  lemma MutualByName()
    ensures MUTUAL.workloads == map c | c in MUTUAL.charts :: ByName(MUTUAL.charts[c].workloads)
  {
    OneByName(FRONT);
    OneByName(STORE);
  }

  lemma MutualIsMeasured()
    ensures Measured(MUTUAL)
  {
    MutualByName();
    MutualWaits();
    MutualOwners();
    hide OwnersOf, Dangling, ServiceWait, ByName;
  }

  lemma MutualCircle()
    requires MUTUAL.Valid()
    ensures OnCycle(WaitGraphOf(MUTUAL, BOTH), Creation("front"))
  {
    GateEdge(MUTUAL, BOTH, "front", 0);
    GateEdge(MUTUAL, BOTH, "store", 0);
    hide WaitGraphOf, Install.Valid;
    TwoCircle(WaitGraphOf(MUTUAL, BOTH), Creation("front"), Creation("store"));
  }

  lemma TwoCircle<N(!new)>(g: Graph<N>, a: N, b: N)
    requires Edge(g, a, b) && Edge(g, b, a)
    ensures OnCycle(g, a)
  {
    assert ClosedWalk(g, [a, b, a], a);
  }

  /** Both declared edges are relaxed, so neither can be listed. */
  lemma NothingListed(scc: seq<Node>, c: string, d: string)
    requires MUTUAL.Valid()
    ensures !Candidate(MUTUAL, BOTH, scc, Creation(c), Composition(d))
  {
    if Candidate(MUTUAL, BOTH, scc, Creation(c), Composition(d)) {
      CandidateIsDeclared(MUTUAL, BOTH, scc, c, d);
    }
  }

  /** The gate reports a component of creations, lists no edge for it, and so says that no creation
      edge is inside it and that it lies between startup waits. */
  lemma CyclicDeclarationsAreMisread(cycles: seq<seq<Node>>) returns (i: nat)
    requires MUTUAL.Valid() && Tarjan.IsCycleList(WaitGraphOf(MUTUAL, BOTH), cycles)
    ensures Measured(MUTUAL) && i < |cycles| && Creation("front") in cycles[i]
    ensures forall c, d :: !Candidate(MUTUAL, BOTH, cycles[i], Creation(c), Composition(d))
  {
    MutualIsMeasured();
    MutualCircle();
    hide WaitGraphOf, Measured, Candidate;
    i := ComponentOf(MUTUAL, BOTH, cycles, Creation("front"));
    forall c, d ensures !Candidate(MUTUAL, BOTH, cycles[i], Creation(c), Composition(d)) {
      NothingListed(cycles[i], c, d);
    }
  }
}
