/** resolve: which component owns each Service and which workloads back it, or the reason the
    gate refuses to measure (hack/validate-readiness-deadlock.py:391-430). */
module ServiceOwners {
  import opened Graphs
  import opened WaitGraph

  /** Service names that are waited on but are deliberately not components. */
  const EXTERNAL: set<string> := {"postgresql"}

  datatype Resolution =
    | Resolved(owners: map<string, Owner>)
    | Duplicates(services: seq<string>)
    | Unresolved(services: seq<string>)

  /** The workloads of a chart that a Service's selector picks; an empty selector picks none. */
  function Backing(ws: seq<Workload>, svc: Service): (r: seq<Workload>)
    ensures forall x :: x in r <==> x in ws && svc.selector != map[] && Selects(svc.selector, x)
  {
    if ws == [] then []
    else if svc.selector != map[] && Selects(svc.selector, ws[0]) then [ws[0]] + Backing(ws[1..], svc)
    else Backing(ws[1..], svc)
  }

  ghost predicate Names(services: seq<Service>, s: string) {
    exists i :: 0 <= i < |services| && services[i].name == s
  }

  ghost predicate Creates(charts: map<string, Chart>, c: string, s: string) {
    c in charts && Names(charts[c].services, s)
  }

  /** The first Service of that name in a chart. */
  ghost function First(services: seq<Service>, s: string): (svc: Service)
    requires Names(services, s)
    ensures svc in services && svc.name == s
  {
    if services[0].name == s then services[0]
    else
      var i :| 0 <= i < |services| && services[i].name == s;
      assert services[1..][i - 1].name == s;
      First(services[1..], s)
  }

  lemma {:induction false} FirstIsEarliest(services: seq<Service>, s: string, j: nat)
    requires j < |services| && services[j].name == s
    requires forall i :: 0 <= i < j ==> services[i].name != s
    ensures Names(services, s) && First(services, s) == services[j]
  {
    if j == 0 {
    } else {
      assert services[0].name != s;
      FirstIsEarliest(services[1..], s, j - 1);
    }
  }

  /** What owning a Service means: its component and what the first Service of that name picks. */
  ghost predicate Owns(charts: map<string, Chart>, s: string, o: Owner) {
    && Creates(charts, o.component, s)
    && o.backing == Backing(charts[o.component].workloads, First(charts[o.component].services, s))
  }

  ghost predicate WaitedOn(charts: map<string, Chart>, s: string) {
    exists c, w :: c in charts && w in charts[c].workloads && s in w.services
  }

  /** A Service that is waited on and that nothing rendered backs. */
  ghost predicate Dangling(charts: map<string, Chart>, owners: map<string, Owner>, s: string) {
    s != "postgresql" && WaitedOn(charts, s) && (s in owners ==> owners[s].backing == [])
  }

  ghost predicate OwnersOf(charts: map<string, Chart>, owners: map<string, Owner>) {
    && (forall c, s :: Creates(charts, c, s) ==> s in owners && owners[s].component == c)
    && (forall s :: s in owners ==> Owns(charts, s, owners[s]))
  }

  /** The workloads of a chart by name, the last one of a name. */
  function ByName(ws: seq<Workload>): map<string, Workload> {
    if ws == [] then map[] else ByName(ws[..|ws| - 1])[ws[|ws| - 1].name := ws[|ws| - 1]]
  }

  lemma OneByName(w: Workload)
    ensures ByName([w]) == map[w.name := w]
  {
    assert [w][..0] == [];
  }

  /** What main goes on to analyse, having refused everything else: every component rendered,
      dependencies among the components, one backed owner for each Service that is not external,
      and at least one wait on a Service. */
  ghost predicate Measured(m: Install) {
    && m.Valid() && m.charts.Keys == m.deps.Keys
    && (forall c, d :: c in m.deps && d in m.deps[c] ==> d in m.deps || d == "openstack")
    && OwnersOf(m.charts, m.owners) && (forall s :: !Dangling(m.charts, m.owners, s))
    && m.workloads == (map c | c in m.charts :: ByName(m.charts[c].workloads))
    && exists c, w, b :: c in m.charts && w in m.charts[c].workloads && ServiceWait(m, w, b)
  }

  /** An install with one Service, which selects its chart's one workload. */
  lemma OnlyService(m: Install, c: string, svc: Service, w: Workload)
    requires c in m.charts && m.charts[c] == Chart([svc], [w]) && svc.selector != map[] && Selects(svc.selector, w)
    requires forall d :: d in m.charts && d != c ==> m.charts[d].services == []
    requires forall d, x, s :: d in m.charts && x in m.charts[d].workloads && s in x.services ==> s == svc.name
    requires m.owners == map[svc.name := Owner(c, [w])]
    ensures OwnersOf(m.charts, m.owners) && forall s :: !Dangling(m.charts, m.owners, s)
  {
    assert m.charts[c].services[0].name == svc.name && Creates(m.charts, c, svc.name);
    assert [w][1..] == [] && Backing([w], svc) == [w];
    forall d, s | Creates(m.charts, d, s) ensures d == c && s == svc.name {
    }
  }

  lemma NewOwner(charts: map<string, Chart>, c: string, i: nat)
    requires c in charts && i < |charts[c].services|
    requires forall k :: 0 <= k < i ==> charts[c].services[k].name != charts[c].services[i].name
    ensures var svc := charts[c].services[i]; Owns(charts, svc.name, Owner(c, Backing(charts[c].workloads, svc)))
  {
    FirstIsEarliest(charts[c].services, charts[c].services[i].name, i);
  }

  ghost predicate NamedBefore(services: seq<Service>, i: int, s: string) {
    exists k :: 0 <= k < i && k < |services| && services[k].name == s
  }

  /** The first loop, for one chart: a Service already owned by another component is recorded. */
  method OwnServices(charts: map<string, Chart>, c: string, owners: map<string, Owner>)
    returns (next: map<string, Owner>, duplicates: seq<string>)
    requires c in charts
    requires forall s :: s in owners ==> Owns(charts, s, owners[s])
    requires forall s :: s in owners ==> owners[s].component != c
    ensures forall s :: s in owners ==> s in next && next[s] == owners[s]
    ensures forall s :: s in next <==> s in owners || Creates(charts, c, s)
    ensures forall s :: s in next ==> Owns(charts, s, next[s])
    ensures forall s :: s in next && s !in owners ==> next[s].component == c
    ensures forall s :: s in duplicates <==> s in owners && Creates(charts, c, s)
  {
    next, duplicates := owners, [];
    var services := charts[c].services;
    for i := 0 to |services|
      invariant forall s :: s in owners ==> s in next && next[s] == owners[s]
      invariant forall s :: s in next <==> s in owners || NamedBefore(services, i, s)
      invariant forall s :: s in next ==> Owns(charts, s, next[s])
      invariant forall s :: s in next && s !in owners ==> next[s].component == c
      invariant forall s :: s in duplicates <==> s in owners && NamedBefore(services, i, s)
    {
      hide Owns, Backing, NamedBefore;
      var svc := services[i];
      var backing := Backing(charts[c].workloads, svc);
      NamedNext(services, i);
      if svc.name in next && next[svc.name].component != c {
        duplicates := duplicates + [svc.name];
      }
      if svc.name !in next {
        NotNamed(services, i, svc.name);
        NewOwner(charts, c, i);
        next := next[svc.name := Owner(c, backing)];
      }
    }
  }

  lemma NamedNext(services: seq<Service>, i: nat)
    requires i < |services|
    ensures forall s :: NamedBefore(services, i + 1, s) <==> NamedBefore(services, i, s) || s == services[i].name
  {
    forall s | NamedBefore(services, i, s) ensures NamedBefore(services, i + 1, s) {
      var k :| 0 <= k < i && k < |services| && services[k].name == s;
    }
    forall s | NamedBefore(services, i + 1, s) && s != services[i].name ensures NamedBefore(services, i, s) {
      var k :| 0 <= k < i + 1 && k < |services| && services[k].name == s;
    }
    assert NamedBefore(services, i + 1, services[i].name);
  }

  lemma NotNamed(services: seq<Service>, i: nat, s: string)
    requires i <= |services| && !NamedBefore(services, i, s)
    ensures forall k :: 0 <= k < i ==> services[k].name != s
  {
  }

  method FindDangling(charts: map<string, Chart>, owners: map<string, Owner>) returns (dangling: seq<string>)
    ensures forall s :: s in dangling <==> Dangling(charts, owners, s)
  {
    dangling := [];
    var comps := Listing(charts.Keys);
    for i := 0 to |comps|
      invariant forall s :: s in dangling <==>
        Dangling(charts, owners, s)
        && exists k, w :: 0 <= k < i && w in charts[comps[k]].workloads && s in w.services
    {
      var ws := charts[comps[i]].workloads;
      ghost var before := dangling;
      for j := 0 to |ws|
        invariant forall s :: s in dangling <==>
          s in before || (Dangling(charts, owners, s) && exists k :: 0 <= k < j && s in ws[k].services)
      {
        ghost var earlier := dangling;
        for l := 0 to |ws[j].services|
          invariant forall s :: s in dangling <==>
            s in earlier || (Dangling(charts, owners, s) && s in ws[j].services[..l])
        {
          var s := ws[j].services[l];
          assert ws[j] in charts[comps[i]].workloads && s in ws[j].services;
          if s !in EXTERNAL && (s !in owners || owners[s].backing == []) {
            dangling := dangling + [s];
          }
        }
      }
    }
    forall s | Dangling(charts, owners, s) ensures s in dangling {
      var c, w :| c in charts && w in charts[c].workloads && s in w.services;
      var k :| 0 <= k < |comps| && comps[k] == c;
      assert w in charts[comps[k]].workloads;
    }
  }

  /** Two components create a Service of that name. */
  ghost predicate Twice(charts: map<string, Chart>, s: string) {
    exists c, d :: c != d && Creates(charts, c, s) && Creates(charts, d, s)
  }

  lemma OwnedElsewhere(charts: map<string, Chart>, c: string, s: string, owners: map<string, Owner>)
    requires s in owners && Owns(charts, s, owners[s]) && owners[s].component != c && Creates(charts, c, s)
    ensures Twice(charts, s)
  {
  }

  /** Each name has its owner, and these are the Services waited on that nothing backs. */
  ghost predicate Unbacked(charts: map<string, Chart>, owners: map<string, Owner>, services: seq<string>) {
    OwnersOf(charts, owners) && forall s :: s in services <==> Dangling(charts, owners, s)
  }

  lemma AllDuplicates(charts: map<string, Chart>, owners: map<string, Owner>, duplicates: seq<string>)
    requires forall c, s :: Creates(charts, c, s) ==> s in owners && (owners[s].component == c || s in duplicates)
    requires forall s :: s in duplicates ==> Twice(charts, s)
    ensures forall s :: s in duplicates <==> Twice(charts, s)
  {
  }

  /** What backs an owned Service: the workloads of its owner's chart that carry every label, key and
      value, of the first Service of that name, if that one selects by any. */
  lemma OwnersPick(charts: map<string, Chart>, s: string, o: Owner, x: Workload)
    requires Owns(charts, s, o)
    ensures o.component in charts
    ensures var services := charts[o.component].services;
      x in o.backing <==>
        x in charts[o.component].workloads
        && exists i :: (0 <= i < |services| && services[i].name == s
                        && (forall k :: 0 <= k < i ==> services[k].name != s)
                        && services[i].selector != map[] && services[i].selector.Items <= x.labels.Items)
  {
    var services := charts[o.component].services;
    var i := EarliestIndex(services, s);
    FirstIsEarliest(services, s, i);
    SelectsItems(services[i].selector, x);
    hide Backing;
    forall j | 0 <= j < |services| && services[j].name == s && forall k :: 0 <= k < j ==> services[k].name != s
      ensures j == i
    {
    }
  }

  lemma EarliestIndex(services: seq<Service>, s: string) returns (i: nat)
    requires Names(services, s)
    ensures i < |services| && services[i].name == s && forall k :: 0 <= k < i ==> services[k].name != s
  {
    i := 0;
    while services[i].name != s
      invariant i < |services| && forall k :: 0 <= k < i ==> services[k].name != s
      decreases |services| - i
    {
      i := i + 1;
    }
  }

  /** The first loop of resolve: an owner for each name created, and the names created twice. */
  method OwnAll(charts: map<string, Chart>) returns (owners: map<string, Owner>, duplicates: seq<string>)
    ensures forall s :: s in owners ==> Owns(charts, s, owners[s])
    ensures forall s :: s in duplicates <==> Twice(charts, s)
    ensures duplicates == [] ==> OwnersOf(charts, owners)
  {
    owners, duplicates := map[], [];
    var comps := Listing(charts.Keys);
    ghost var seen: set<string> := {};
    for i := 0 to |comps|
      invariant forall c :: c in seen <==> exists k :: 0 <= k < i && comps[k] == c
      invariant forall s :: s in owners ==> Owns(charts, s, owners[s])
      invariant forall s :: s in owners ==> owners[s].component in seen
      invariant forall c, s :: c in seen && Creates(charts, c, s) ==>
        s in owners && (owners[s].component == c || s in duplicates)
      invariant forall s :: s in duplicates ==> Twice(charts, s)
    {
      hide Owns, Creates, Twice;
      ghost var before := owners;
      var more;
      owners, more := OwnServices(charts, comps[i], owners);
      forall s | s in more ensures Twice(charts, s) {
        OwnedElsewhere(charts, comps[i], s, before);
      }
      duplicates := duplicates + more;
      seen := seen + {comps[i]};
    }
    AllDuplicates(charts, owners, duplicates);
  }

  /** resolve: either every Service name that two components create is reported, or else every
      Service waited on that nothing backs, or else the one owner of each name is returned. */
  method Resolve(charts: map<string, Chart>) returns (r: Resolution)
    ensures r.Duplicates? <==> exists s :: Twice(charts, s)
    ensures r.Duplicates? ==> forall s :: s in r.services <==> Twice(charts, s)
    ensures r.Unresolved? ==> r.services != [] && exists owners :: Unbacked(charts, owners, r.services)
    ensures r.Resolved? ==> Unbacked(charts, r.owners, [])
    ensures r.Resolved? ==> forall s, x {:trigger x in r.owners[s].backing} :: s in r.owners ==>
      r.owners[s].component in charts
      && var services := charts[r.owners[s].component].services;
         (x in r.owners[s].backing <==>
            x in charts[r.owners[s].component].workloads
            && exists i :: (0 <= i < |services| && services[i].name == s
                            && (forall k :: 0 <= k < i ==> services[k].name != s)
                            && services[i].selector != map[] && services[i].selector.Items <= x.labels.Items))
  {
    var owners, duplicates := OwnAll(charts);
    hide Twice, Dangling;
    if duplicates != [] {
      assert duplicates[0] in duplicates;
      return Duplicates(duplicates);
    }
    var dangling := FindDangling(charts, owners);
    if dangling != [] {
      assert Unbacked(charts, owners, dangling);
      return Unresolved(dangling);
    }
    r := Resolved(owners);
    forall s, x | s in owners
      ensures owners[s].component in charts
      ensures var services := charts[owners[s].component].services;
        x in owners[s].backing <==>
          x in charts[owners[s].component].workloads
          && exists i :: (0 <= i < |services| && services[i].name == s
                          && (forall k :: 0 <= k < i ==> services[k].name != s)
                          && services[i].selector != map[] && services[i].selector.Items <= x.labels.Items)
    {
      OwnersPick(charts, s, owners[s], x);
    }
  }

  /** A measured graph has an edge for every Service wait that is not declared external: a
      renamed Service cannot quietly empty it. */
  lemma MeasuredWaitsAreEdges(m: Install, relaxed: Relaxations, c: string, w: Workload, s: string)
    requires m.Valid() && forall t :: !Dangling(m.charts, m.owners, t)
    requires c in m.charts && w in m.charts[c].workloads && s in w.services && s !in EXTERNAL
    ensures exists b :: Backs(m, s, b) && Edge(WaitGraphOf(m, relaxed), WorkloadNode(c, w), b)
  {
    assert WaitedOn(m.charts, s);
    assert !Dangling(m.charts, m.owners, s);
    var o := m.owners[s];
    var b := WorkloadNode(o.component, o.backing[0]);
    assert Backs(m, s, b);
    var i :| 0 <= i < |w.services| && w.services[i] == s;
    assert StartupWait(m, c, w, b);
    assert WorkloadEdge(m, c, w, WorkloadNode(c, w), b);
    assert ComponentEdge(m, relaxed, c, WorkloadNode(c, w), b);
    WaitGraphEdges(m, relaxed, WorkloadNode(c, w), b);
  }
}
