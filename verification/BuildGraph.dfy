/** build_graph: the wait graph filled in place, edge by edge
    (hack/validate-readiness-deadlock.py:453-508). */
module BuildGraph {
  import opened Graphs
  import opened WaitGraph

  ghost predicate NoEmptyEntry(graph: Graph<Node>) {
    forall a :: a in graph ==> graph[a] != {}
  }

  class Builder {
    var graph: Graph<Node>

    constructor ()
      ensures graph == map[]
    {
      graph := map[];
    }

    /** Add the edge from a to b, with an entry for a where there is none yet. */
    method Add(a: Node, b: Node)
      requires NoEmptyEntry(graph)
      modifies this
      ensures NoEmptyEntry(graph)
      ensures forall x, y :: Edge(graph, x, y) <==> Edge(old(graph), x, y) || (x == a && y == b)
    {
      graph := graph[a := Succ(graph, a) + {b}];
    }

    method AddServiceWaits(m: Install, node: Node, w: Workload)
      requires NoEmptyEntry(graph)
      modifies this
      ensures NoEmptyEntry(graph)
      ensures forall x, y :: Edge(graph, x, y) <==> Edge(old(graph), x, y) || (x == node && ServiceWait(m, w, y))
    {
      for i := 0 to |w.services|
        invariant NoEmptyEntry(graph)
        invariant forall x, y :: Edge(graph, x, y) <==>
          Edge(old(graph), x, y) || (x == node && exists k :: 0 <= k < i && Backs(m, w.services[k], y))
      {
        ghost var before := graph;
        if w.services[i] in m.owners {
          var owner := m.owners[w.services[i]];
          for j := 0 to |owner.backing|
            invariant NoEmptyEntry(graph)
            invariant forall x, y :: Edge(graph, x, y) <==>
              Edge(before, x, y)
              || (x == node && exists k :: 0 <= k < j && y == WorkloadNode(owner.component, owner.backing[k]))
          {
            Add(node, WorkloadNode(owner.component, owner.backing[j]));
          }
        }
        forall x, y ensures Edge(graph, x, y) <==>
          Edge(before, x, y) || (x == node && Backs(m, w.services[i], y)) {}
      }
    }

    method AddLabelWaits(m: Install, node: Node, labels: map<string, string>)
      requires NoEmptyEntry(graph)
      modifies this
      ensures NoEmptyEntry(graph)
      ensures forall x, y :: Edge(graph, x, y) <==> Edge(old(graph), x, y) || (x == node && LabelWait(m, labels, y))
    {
      var comps := Listing(m.workloads.Keys);
      for i := 0 to |comps|
        invariant NoEmptyEntry(graph)
        invariant forall x, y :: Edge(graph, x, y) <==>
          Edge(old(graph), x, y) || (x == node && exists k :: 0 <= k < i && Carries(m, labels, comps[k], y))
      {
        AddCarriers(m, node, labels, comps[i]);
      }
    }

    /** The inner loop of AddLabelWaits, over the workloads of one component. */
    method AddCarriers(m: Install, node: Node, labels: map<string, string>, c: string)
      requires NoEmptyEntry(graph) && c in m.workloads
      modifies this
      ensures NoEmptyEntry(graph)
      ensures forall x, y :: Edge(graph, x, y) <==> Edge(old(graph), x, y) || (x == node && Carries(m, labels, c, y))
    {
      var ws := m.workloads[c];
      var names := Listing(ws.Keys);
      for j := 0 to |names|
        invariant NoEmptyEntry(graph)
        invariant forall x, y :: Edge(graph, x, y) <==>
          Edge(old(graph), x, y)
          || (x == node
              && exists k :: 0 <= k < j && Selects(labels, ws[names[k]]) && y == WorkloadNode(c, ws[names[k]]))
      {
        if Selects(labels, ws[names[j]]) {
          Add(node, WorkloadNode(c, ws[names[j]]));
        }
      }
      forall x, y ensures Edge(graph, x, y) <==>
        Edge(old(graph), x, y) || (x == node && Carries(m, labels, c, y)) {}
    }

    method AddPodWaits(m: Install, node: Node, w: Workload)
      requires NoEmptyEntry(graph)
      modifies this
      ensures NoEmptyEntry(graph)
      ensures forall x, y :: Edge(graph, x, y) <==> Edge(old(graph), x, y) || (x == node && PodWait(m, w, y))
    {
      for i := 0 to |w.pods|
        invariant NoEmptyEntry(graph)
        invariant forall x, y :: Edge(graph, x, y) <==>
          Edge(old(graph), x, y) || (x == node && exists k :: 0 <= k < i && LabelWait(m, w.pods[k], y))
      {
        AddLabelWaits(m, node, w.pods[i]);
      }
    }

    method AddJobWaits(m: Install, c: string, node: Node, w: Workload)
      requires NoEmptyEntry(graph)
      modifies this
      ensures NoEmptyEntry(graph)
      ensures forall x, y :: Edge(graph, x, y) <==> Edge(old(graph), x, y) || (x == node && JobWait(m, c, w, y))
    {
      for i := 0 to |w.jobs|
        invariant NoEmptyEntry(graph)
        invariant forall x, y :: Edge(graph, x, y) <==>
          Edge(old(graph), x, y)
          || (x == node
              && exists k :: 0 <= k < i && IsJob(m, c, w.jobs[k]) && y == WorkloadNode(c, m.workloads[c][w.jobs[k]]))
      {
        if IsJob(m, c, w.jobs[i]) {
          Add(node, WorkloadNode(c, m.workloads[c][w.jobs[i]]));
        }
      }
    }

    method AddWorkload(m: Install, c: string, w: Workload)
      requires NoEmptyEntry(graph)
      modifies this
      ensures NoEmptyEntry(graph)
      ensures forall x, y :: Edge(graph, x, y) <==> Edge(old(graph), x, y) || WorkloadEdge(m, c, w, x, y)
    {
      var node := WorkloadNode(c, w);
      Add(Composition(c), node);
      Add(node, Creation(c));
      AddServiceWaits(m, node, w);
      AddPodWaits(m, node, w);
      AddJobWaits(m, c, node, w);
    }

    method AddComponent(m: Install, relaxed: Relaxations, c: string)
      requires m.Valid() && c in m.charts && NoEmptyEntry(graph)
      modifies this
      ensures NoEmptyEntry(graph)
      ensures forall x, y :: Edge(graph, x, y) <==> Edge(old(graph), x, y) || ComponentEdge(m, relaxed, c, x, y)
    {
      var ws, deps := m.charts[c].workloads, m.deps[c];
      for i := 0 to |ws|
        invariant NoEmptyEntry(graph)
        invariant forall x, y :: Edge(graph, x, y) <==>
          Edge(old(graph), x, y) || exists k :: 0 <= k < i && WorkloadEdge(m, c, ws[k], x, y)
      {
        AddWorkload(m, c, ws[i]);
      }
      ghost var before := graph;
      for i := 0 to |deps|
        invariant NoEmptyEntry(graph)
        invariant forall x, y :: Edge(graph, x, y) <==>
          Edge(before, x, y)
          || (x == Creation(c) && exists k :: 0 <= k < i && y == Gate(relaxed, c, deps[k]))
      {
        if (c, deps[i]) in relaxed {
          Add(Creation(c), Creation(deps[i]));
        } else {
          Add(Creation(c), Composition(deps[i]));
        }
      }
    }
  }

  /** build_graph builds exactly the graph of the waits. */
  method BuildGraph(m: Install, relaxed: Relaxations) returns (graph: Graph<Node>)
    requires m.Valid()
    ensures graph == WaitGraphOf(m, relaxed)
  {
    var builder := new Builder();
    var comps := Listing(m.charts.Keys);
    hide WaitGraphOf, ComponentEdge;
    for i := 0 to |comps|
      invariant NoEmptyEntry(builder.graph)
      invariant forall x, y :: Edge(builder.graph, x, y) <==>
        exists k :: 0 <= k < i && ComponentEdge(m, relaxed, comps[k], x, y)
    {
      builder.AddComponent(m, relaxed, comps[i]);
    }
    graph := builder.graph;
    AllComponents(m, relaxed, comps, graph);
  }

  lemma AllComponents(m: Install, relaxed: Relaxations, comps: seq<string>, graph: Graph<Node>)
    requires m.Valid() && NoEmptyEntry(graph) && forall c :: c in comps <==> c in m.charts
    requires forall x, y :: Edge(graph, x, y) <==>
      exists k :: 0 <= k < |comps| && ComponentEdge(m, relaxed, comps[k], x, y)
    ensures graph == WaitGraphOf(m, relaxed)
  {
    forall x, y ensures Edge(graph, x, y) <==> Edge(WaitGraphOf(m, relaxed), x, y) {
      WaitGraphEdges(m, relaxed, x, y);
      if c :| c in m.charts && ComponentEdge(m, relaxed, c, x, y) {
        var k :| 0 <= k < |comps| && comps[k] == c;
      }
    }
    SameEdges(graph, WaitGraphOf(m, relaxed));
  }

  lemma SameEdges(g: Graph<Node>, h: Graph<Node>)
    requires NoEmptyEntry(g) && NoEmptyEntry(h)
    requires forall x, y :: Edge(g, x, y) <==> Edge(h, x, y)
    ensures g == h
  {
    forall x ensures x in g <==> x in h {
      if x in g { var y :| y in g[x]; assert Edge(g, x, y); }
      if x in h { var y :| y in h[x]; assert Edge(h, x, y); }
    }
    forall x | x in g ensures g[x] == h[x] {
      forall y ensures y in g[x] <==> y in h[x] {
        assert Edge(g, x, y) <==> Edge(h, x, y);
      }
    }
  }
}
