/** What waits on what in an install: the wait graph of the readiness-deadlock gate, its
    construction, and the rules it stands for (hack/validate-readiness-deadlock.py). */
module WaitGraph {
  import opened Graphs
  import Rollout

  // ---- The rendered charts ----

  datatype Workload = Workload(
    kind: string, name: string, labels: map<string, string>,
    services: seq<string>, pods: seq<map<string, string>>, jobs: seq<string>)

  datatype Service = Service(name: string, selector: map<string, string>)

  datatype Chart = Chart(services: seq<Service>, workloads: seq<Workload>)

  /** The component that creates a Service and the workloads its selector picks. */
  datatype Owner = Owner(component: string, backing: seq<Workload>)

  /** The arguments of build_graph but the relaxations. deps holds the declared dependencies. */
  datatype Install = Install(
    charts: map<string, Chart>, deps: map<string, seq<string>>,
    workloads: map<string, map<string, Workload>>, owners: map<string, Owner>)
  {
    /** Every rendered chart belongs to a declared component. */
    ghost predicate Valid() {
      charts.Keys <= deps.Keys
    }
  }

  datatype Node =
    | Composition(component: string)
    | Creation(component: string)
    | Running(component: string, kind: string, name: string)

  function WorkloadNode(c: string, w: Workload): Node {
    Running(c, w.kind, w.name)
  }

  predicate Selects(labels: map<string, string>, w: Workload) {
    forall k :: k in labels ==> k in w.labels && w.labels[k] == labels[k]
  }

  /** Selecting is by key and value. */
  lemma SelectsItems(labels: map<string, string>, w: Workload)
    ensures Selects(labels, w) <==> labels.Items <= w.labels.Items
  {
    if Selects(labels, w) {
      forall e | e in labels.Items ensures e in w.labels.Items {
        assert e.0 in labels && labels[e.0] == e.1;
      }
    }
    if labels.Items <= w.labels.Items {
      forall k | k in labels ensures k in w.labels && w.labels[k] == labels[k] {
        assert (k, labels[k]) in labels.Items;
      }
    }
  }

  // ---- The waits, one kind at a time ----

  /** b backs the Service svc. */
  ghost predicate Backs(m: Install, svc: string, b: Node) {
    && svc in m.owners
    && var o := m.owners[svc];
       exists j :: 0 <= j < |o.backing| && b == WorkloadNode(o.component, o.backing[j])
  }

  ghost predicate ServiceWait(m: Install, w: Workload, b: Node) {
    exists i :: 0 <= i < |w.services| && Backs(m, w.services[i], b)
  }

  /** b is one of c's workloads and carries the labels. */
  ghost predicate Carries(m: Install, labels: map<string, string>, c: string, b: Node) {
    && c in m.workloads
    && var ws := m.workloads[c];
       exists n :: n in ws && Selects(labels, ws[n]) && b == WorkloadNode(c, ws[n])
  }

  ghost predicate LabelWait(m: Install, labels: map<string, string>, b: Node) {
    exists c :: c in m.workloads && Carries(m, labels, c, b)
  }

  ghost predicate PodWait(m: Install, w: Workload, b: Node) {
    exists i :: 0 <= i < |w.pods| && LabelWait(m, w.pods[i], b)
  }

  predicate IsJob(m: Install, c: string, job: string) {
    c in m.workloads && job in m.workloads[c] && m.workloads[c][job].kind == "Job"
  }

  ghost predicate JobWait(m: Install, c: string, w: Workload, b: Node) {
    exists i :: 0 <= i < |w.jobs| && IsJob(m, c, w.jobs[i]) && b == WorkloadNode(c, m.workloads[c][w.jobs[i]])
  }

  ghost predicate StartupWait(m: Install, c: string, w: Workload, b: Node) {
    ServiceWait(m, w, b) || PodWait(m, w, b) || JobWait(m, c, w, b)
  }

  type Relaxations = set<(string, string)>

  /** What the creation of c waits for on account of its dependency d. */
  function Gate(relaxed: Relaxations, c: string, d: string): Node {
    if (c, d) in relaxed then Creation(d) else Composition(d)
  }

  /** The edges that one workload of c contributes. */
  ghost predicate WorkloadEdge(m: Install, c: string, w: Workload, a: Node, b: Node) {
    || (a == Composition(c) && b == WorkloadNode(c, w))
    || (a == WorkloadNode(c, w) && (b == Creation(c) || StartupWait(m, c, w, b)))
  }

  ghost predicate ComponentEdge(m: Install, relaxed: Relaxations, c: string, a: Node, b: Node)
    requires m.Valid() && c in m.charts
  {
    || (exists i :: 0 <= i < |m.charts[c].workloads| && WorkloadEdge(m, c, m.charts[c].workloads[i], a, b))
    || (a == Creation(c) && exists i :: 0 <= i < |m.deps[c]| && b == Gate(relaxed, c, m.deps[c][i]))
  }

  /** a cannot become ready until b is. */
  ghost predicate Waits(m: Install, relaxed: Relaxations, a: Node, b: Node)
    requires m.Valid()
  {
    exists c :: c in m.charts && ComponentEdge(m, relaxed, c, a, b)
  }

  // ---- The wait graph as a value ----

  /** Nodes that may appear in a wait graph of m, whatever is relaxed. */
  ghost function Universe(m: Install): set<Node>
    requires m.Valid()
  {
    (set c | c in m.charts :: Composition(c)) + (set c | c in m.charts :: Creation(c))
    + (set c, i | c in m.charts && 0 <= i < |m.deps[c]| :: Composition(m.deps[c][i]))
    + (set c, i | c in m.charts && 0 <= i < |m.deps[c]| :: Creation(m.deps[c][i]))
    + (set c, i | c in m.charts && 0 <= i < |m.charts[c].workloads| :: WorkloadNode(c, m.charts[c].workloads[i]))
    + (set s, i | s in m.owners && 0 <= i < |m.owners[s].backing| ::
         WorkloadNode(m.owners[s].component, m.owners[s].backing[i]))
    + (set c, n | c in m.workloads && n in m.workloads[c] :: WorkloadNode(c, m.workloads[c][n]))
  }

  lemma WaitsInUniverse(m: Install, relaxed: Relaxations, a: Node, b: Node)
    requires m.Valid() && Waits(m, relaxed, a, b)
    ensures a in Universe(m) && b in Universe(m)
  {
  }

  ghost function WaitsOf(m: Install, relaxed: Relaxations, a: Node): set<Node>
    requires m.Valid()
  {
    set b | b in Universe(m) && Waits(m, relaxed, a, b)
  }

  ghost function WaitGraphOf(m: Install, relaxed: Relaxations): Graph<Node>
    requires m.Valid()
  {
    map a | a in Universe(m) && WaitsOf(m, relaxed, a) != {} :: WaitsOf(m, relaxed, a)
  }

  /** The edges of the wait graph are the waits. */
  lemma WaitGraphEdges(m: Install, relaxed: Relaxations, a: Node, b: Node)
    requires m.Valid()
    ensures Edge(WaitGraphOf(m, relaxed), a, b) <==> Waits(m, relaxed, a, b)
  {
    if Waits(m, relaxed, a, b) {
      WaitsInUniverse(m, relaxed, a, b);
      assert b in WaitsOf(m, relaxed, a);
    }
  }

  // ---- The edges, read off the charts ----

  lemma ServiceWaitSpelled(m: Install, w: Workload, b: Node)
    ensures ServiceWait(m, w, b) <==>
      exists s, x :: (s in w.services && s in m.owners && x in m.owners[s].backing
                      && b == Running(m.owners[s].component, x.kind, x.name))
  {
    if ServiceWait(m, w, b) {
      var i :| 0 <= i < |w.services| && Backs(m, w.services[i], b);
      var o := m.owners[w.services[i]];
      var j :| 0 <= j < |o.backing| && b == WorkloadNode(o.component, o.backing[j]);
      assert w.services[i] in w.services && o.backing[j] in o.backing;
    }
    if s, x :| (s in w.services && s in m.owners && x in m.owners[s].backing
                && b == Running(m.owners[s].component, x.kind, x.name))
    {
      var j :| 0 <= j < |m.owners[s].backing| && m.owners[s].backing[j] == x;
      assert Backs(m, s, b);
      var i :| 0 <= i < |w.services| && w.services[i] == s;
    }
  }

  /** A pod wait has an edge to every workload that carries all its labels, keys and values. */
  lemma PodWaitSpelled(m: Install, w: Workload, b: Node)
    ensures PodWait(m, w, b) <==>
      exists labels, d, n :: (labels in w.pods && d in m.workloads && n in m.workloads[d]
                              && labels.Items <= m.workloads[d][n].labels.Items
                              && b == Running(d, m.workloads[d][n].kind, m.workloads[d][n].name))
  {
    if PodWait(m, w, b) {
      var i :| 0 <= i < |w.pods| && LabelWait(m, w.pods[i], b);
      var d :| d in m.workloads && Carries(m, w.pods[i], d, b);
      var n :| n in m.workloads[d] && Selects(w.pods[i], m.workloads[d][n]) && b == WorkloadNode(d, m.workloads[d][n]);
      SelectsItems(w.pods[i], m.workloads[d][n]);
      assert w.pods[i] in w.pods;
    }
    if labels, d, n :| (labels in w.pods && d in m.workloads && n in m.workloads[d]
                        && labels.Items <= m.workloads[d][n].labels.Items
                        && b == Running(d, m.workloads[d][n].kind, m.workloads[d][n].name))
    {
      SelectsItems(labels, m.workloads[d][n]);
      assert Carries(m, labels, d, b);
      var i :| 0 <= i < |w.pods| && w.pods[i] == labels;
      assert LabelWait(m, w.pods[i], b);
    }
  }

  /** A job wait has an edge to the component's own workload of that name, if it is a Job. */
  lemma JobWaitSpelled(m: Install, c: string, w: Workload, b: Node)
    ensures JobWait(m, c, w, b) <==>
      exists job :: (job in w.jobs && c in m.workloads && job in m.workloads[c]
                     && m.workloads[c][job].kind == "Job" && b == Running(c, "Job", m.workloads[c][job].name))
  {
    if JobWait(m, c, w, b) {
      var i :| 0 <= i < |w.jobs| && IsJob(m, c, w.jobs[i]) && b == WorkloadNode(c, m.workloads[c][w.jobs[i]]);
      assert w.jobs[i] in w.jobs;
    }
  }

  /** What a component's readiness waits for: its own workloads. */
  lemma CompositionWaits(m: Install, relaxed: Relaxations, c: string, b: Node)
    requires m.Valid()
    ensures Edge(WaitGraphOf(m, relaxed), Composition(c), b) <==>
      c in m.charts && exists w :: w in m.charts[c].workloads && b == Running(c, w.kind, w.name)
  {
    WaitGraphEdges(m, relaxed, Composition(c), b);
    hide WaitGraphOf;
    if Waits(m, relaxed, Composition(c), b) {
      var i :| 0 <= i < |m.charts[c].workloads| && WorkloadEdge(m, c, m.charts[c].workloads[i], Composition(c), b);
      assert m.charts[c].workloads[i] in m.charts[c].workloads;
    }
    if c in m.charts {
      if w :| w in m.charts[c].workloads && b == Running(c, w.kind, w.name) {
        var i :| 0 <= i < |m.charts[c].workloads| && m.charts[c].workloads[i] == w;
        assert WorkloadEdge(m, c, m.charts[c].workloads[i], Composition(c), b);
        assert ComponentEdge(m, relaxed, c, Composition(c), b);
      }
    }
  }

  /** What a component's creation waits for: a relaxed dependency's creation, any other's readiness. */
  lemma CreationWaits(m: Install, relaxed: Relaxations, c: string, b: Node)
    requires m.Valid()
    ensures Edge(WaitGraphOf(m, relaxed), Creation(c), b) <==>
      c in m.charts && exists d :: d in m.deps[c] && b == if (c, d) in relaxed then Creation(d) else Composition(d)
  {
    WaitGraphEdges(m, relaxed, Creation(c), b);
    hide WaitGraphOf;
    if Waits(m, relaxed, Creation(c), b) {
      var i :| 0 <= i < |m.deps[c]| && b == Gate(relaxed, c, m.deps[c][i]);
      assert m.deps[c][i] in m.deps[c];
    }
    if c in m.charts {
      if d :| d in m.deps[c] && b == if (c, d) in relaxed then Creation(d) else Composition(d) {
        var i :| 0 <= i < |m.deps[c]| && m.deps[c][i] == d;
        assert ComponentEdge(m, relaxed, c, Creation(c), b);
      }
    }
  }

  lemma RunningEdges(m: Install, relaxed: Relaxations, c: string, kind: string, name: string, b: Node)
    requires m.Valid()
    ensures Edge(WaitGraphOf(m, relaxed), Running(c, kind, name), b) <==>
      c in m.charts && exists w :: (w in m.charts[c].workloads && w.kind == kind && w.name == name
                                    && (b == Creation(c) || StartupWait(m, c, w, b)))
  {
    var a := Running(c, kind, name);
    WaitGraphEdges(m, relaxed, a, b);
    hide WaitGraphOf, StartupWait;
    if Waits(m, relaxed, a, b) {
      var i :| 0 <= i < |m.charts[c].workloads| && WorkloadEdge(m, c, m.charts[c].workloads[i], a, b);
      assert m.charts[c].workloads[i] in m.charts[c].workloads;
    }
    if c in m.charts {
      if w :| (w in m.charts[c].workloads && w.kind == kind && w.name == name
               && (b == Creation(c) || StartupWait(m, c, w, b)))
      {
        var i :| 0 <= i < |m.charts[c].workloads| && m.charts[c].workloads[i] == w;
        assert WorkloadEdge(m, c, m.charts[c].workloads[i], a, b);
        assert ComponentEdge(m, relaxed, c, a, b);
      }
    }
  }

  /** What a workload waits for: its component's creation, the workloads behind its Services, the
      workloads that carry its pod labels, and its component's Jobs. */
  lemma RunningWaits(m: Install, relaxed: Relaxations, c: string, kind: string, name: string, b: Node)
    requires m.Valid()
    ensures Edge(WaitGraphOf(m, relaxed), Running(c, kind, name), b) <==>
      c in m.charts && exists w :: (w in m.charts[c].workloads && w.kind == kind && w.name == name
        && (|| b == Creation(c)
            || (exists s, x :: (s in w.services && s in m.owners && x in m.owners[s].backing
                  && b == Running(m.owners[s].component, x.kind, x.name)))
            || (exists labels, d, n :: (labels in w.pods && d in m.workloads && n in m.workloads[d]
                  && labels.Items <= m.workloads[d][n].labels.Items
                  && b == Running(d, m.workloads[d][n].kind, m.workloads[d][n].name)))
            || (exists job :: (job in w.jobs && c in m.workloads && job in m.workloads[c]
                  && m.workloads[c][job].kind == "Job" && b == Running(c, "Job", m.workloads[c][job].name)))))
  {
    RunningEdges(m, relaxed, c, kind, name, b);
    hide WaitGraphOf, ServiceWait, PodWait, JobWait;
    if c in m.charts {
      forall w | w in m.charts[c].workloads
        ensures StartupWait(m, c, w, b) <==>
          || (exists s, x :: (s in w.services && s in m.owners && x in m.owners[s].backing
                && b == Running(m.owners[s].component, x.kind, x.name)))
          || (exists labels, d, n :: (labels in w.pods && d in m.workloads && n in m.workloads[d]
                && labels.Items <= m.workloads[d][n].labels.Items
                && b == Running(d, m.workloads[d][n].kind, m.workloads[d][n].name)))
          || (exists job :: (job in w.jobs && c in m.workloads && job in m.workloads[c]
                && m.workloads[c][job].kind == "Job" && b == Running(c, "Job", m.workloads[c][job].name)))
      {
        ServiceWaitSpelled(m, w, b);
        PodWaitSpelled(m, w, b);
        JobWaitSpelled(m, c, w, b);
      }
    }
  }

  // ---- The rules the gate states, and that the graph is their graph ----

  /** All the nodes a Service name stands for are ready. */
  ghost predicate ServiceReady(m: Install, done: set<Node>, svc: string) {
    svc in m.owners ==> forall x :: x in m.owners[svc].backing ==> WorkloadNode(m.owners[svc].component, x) in done
  }

  ghost predicate PodsReady(m: Install, done: set<Node>, labels: map<string, string>) {
    forall c, n :: c in m.workloads && n in m.workloads[c] && Selects(labels, m.workloads[c][n]) ==>
      WorkloadNode(c, m.workloads[c][n]) in done
  }

  /** The workload w of c may become ready: c's Composition exists, every Service it waits for
      has endpoints, every pod it waits for is ready and every job has completed. */
  ghost predicate WorkloadMayStart(m: Install, done: set<Node>, c: string, w: Workload) {
    && Creation(c) in done
    && (forall svc :: svc in w.services ==> ServiceReady(m, done, svc))
    && (forall labels :: labels in w.pods ==> PodsReady(m, done, labels))
    && (c in m.workloads ==>
          forall job :: job in w.jobs && job in m.workloads[c] && m.workloads[c][job].kind == "Job" ==>
            Running(c, "Job", m.workloads[c][job].name) in done)
  }

  /** The rules of the gate's own description, node by node (lines 23-31). */
  ghost predicate MayHold(m: Install, relaxed: Relaxations, done: set<Node>, n: Node)
    requires m.Valid()
  {
    n.component in m.charts ==>
      match n
      case Composition(c) => forall w :: w in m.charts[c].workloads ==> WorkloadNode(c, w) in done
      case Creation(c) =>
        forall d :: d in m.deps[c] ==> if (c, d) in relaxed then Creation(d) in done else Composition(d) in done
      case Running(c, _, _) =>
        forall w :: w in m.charts[c].workloads && WorkloadNode(c, w) == n ==> WorkloadMayStart(m, done, c, w)
  }

  lemma StartupRules(m: Install, done: set<Node>, c: string, w: Workload)
    ensures WorkloadMayStart(m, done, c, w)
       <==> Creation(c) in done && forall b :: StartupWait(m, c, w, b) ==> b in done
  {
    if WorkloadMayStart(m, done, c, w) {
      forall b | StartupWait(m, c, w, b) ensures b in done {
        if ServiceWait(m, w, b) {
          var i :| 0 <= i < |w.services| && Backs(m, w.services[i], b);
          assert ServiceReady(m, done, w.services[i]);
        } else if PodWait(m, w, b) {
          var i :| 0 <= i < |w.pods| && LabelWait(m, w.pods[i], b);
          assert PodsReady(m, done, w.pods[i]);
        }
      }
    }
    if Creation(c) in done && forall b :: StartupWait(m, c, w, b) ==> b in done {
      forall svc | svc in w.services ensures ServiceReady(m, done, svc) {
        if svc in m.owners {
          forall x | x in m.owners[svc].backing ensures WorkloadNode(m.owners[svc].component, x) in done {
            assert Backs(m, svc, WorkloadNode(m.owners[svc].component, x));
            assert StartupWait(m, c, w, WorkloadNode(m.owners[svc].component, x));
          }
        }
      }
      forall labels | labels in w.pods ensures PodsReady(m, done, labels) {
        forall k, n | k in m.workloads && n in m.workloads[k] && Selects(labels, m.workloads[k][n])
          ensures WorkloadNode(k, m.workloads[k][n]) in done
        {
          assert Carries(m, labels, k, WorkloadNode(k, m.workloads[k][n]));
          assert StartupWait(m, c, w, WorkloadNode(k, m.workloads[k][n]));
        }
      }
      forall job | job in w.jobs && IsJob(m, c, job) ensures WorkloadNode(c, m.workloads[c][job]) in done {
        assert StartupWait(m, c, w, WorkloadNode(c, m.workloads[c][job]));
      }
    }
  }

  /** A node may become ready by the rules exactly when everything it waits for is. */
  lemma RulesAreWaits(m: Install, relaxed: Relaxations, done: set<Node>, n: Node)
    requires m.Valid()
    ensures MayHold(m, relaxed, done, n) <==> forall b :: Waits(m, relaxed, n, b) ==> b in done
  {
    var c := n.component;
    if c in m.charts {
      forall w ensures WorkloadMayStart(m, done, c, w)
         <==> Creation(c) in done && forall b :: StartupWait(m, c, w, b) ==> b in done
      {
        StartupRules(m, done, c, w);
      }
      if forall b :: Waits(m, relaxed, n, b) ==> b in done {
        WaitsGiveRules(m, relaxed, done, n);
      }
    }
  }

  lemma WaitsGiveRules(m: Install, relaxed: Relaxations, done: set<Node>, n: Node)
    requires m.Valid() && n.component in m.charts
    requires forall b :: Waits(m, relaxed, n, b) ==> b in done
    ensures MayHold(m, relaxed, done, n)
  {
    var c := n.component;
    match n
    case Composition(_) =>
      forall w | w in m.charts[c].workloads ensures WorkloadNode(c, w) in done {
        assert WorkloadEdge(m, c, w, n, WorkloadNode(c, w));
        assert ComponentEdge(m, relaxed, c, n, WorkloadNode(c, w));
        assert Waits(m, relaxed, n, WorkloadNode(c, w));
      }
    case Creation(_) =>
      forall d | d in m.deps[c] ensures Gate(relaxed, c, d) in done {
        assert ComponentEdge(m, relaxed, c, n, Gate(relaxed, c, d));
        assert Waits(m, relaxed, n, Gate(relaxed, c, d));
      }
    case Running(_, _, _) =>
      forall w | w in m.charts[c].workloads && WorkloadNode(c, w) == n ensures WorkloadMayStart(m, done, c, w) {
        StartupRules(m, done, c, w);
        forall b | b == Creation(c) || StartupWait(m, c, w, b) ensures b in done {
          assert WorkloadEdge(m, c, w, n, b);
          assert ComponentEdge(m, relaxed, c, n, b);
          assert Waits(m, relaxed, n, b);
        }
      }
  }

  /** The step system of the wait graph is the one the rules describe. */
  lemma GraphStepsAreRules(m: Install, relaxed: Relaxations, done: set<Node>, n: Node)
    requires m.Valid()
    ensures var g := WaitGraphOf(m, relaxed);
      Rollout.CanStep(g, done, n) <==> n in Nodes(g) && n !in done && MayHold(m, relaxed, done, n)
  {
    RulesAreWaits(m, relaxed, done, n);
    forall b ensures Edge(WaitGraphOf(m, relaxed), n, b) <==> Waits(m, relaxed, n, b) {
      WaitGraphEdges(m, relaxed, n, b);
    }
    var g := WaitGraphOf(m, relaxed);
    assert (forall b :: Edge(g, n, b) ==> b in done) <==> Succ(g, n) <= done;
  }
}
