/** The usage rows of the contract emitter and the identity of a row
    (blueprints/openstack/chart/files/contract-emitter.py). */
module UsageRecords {
  import opened Options

  newtype Byte = x: int | 0 <= x < 256

  type Bytes = seq<Byte>

  ghost predicate NulFree(p: Bytes) {
    0 !in p
  }

  // ---- The hashed text ----

  /** The parts, each closed by a NUL byte. */
  function Terminated(parts: seq<Bytes>): Bytes {
    if parts == [] then [] else parts[0] + [0] + Terminated(parts[1..])
  }

  lemma {:induction false} TerminatedSnoc(parts: seq<Bytes>, p: Bytes)
    ensures Terminated(parts + [p]) == Terminated(parts) + p + [0]
  {
    if parts == [] {
      assert parts + [p] == [p] && Terminated([p]) == p + [0] + Terminated([]);
    } else {
      assert (parts + [p])[0] == parts[0] && (parts + [p])[1..] == parts[1..] + [p];
      TerminatedSnoc(parts[1..], p);
    }
  }

  /** deterministic_id up to the hash: what has been fed to it when it is asked for the digest. */
  method Feed(parts: seq<Bytes>) returns (fed: Bytes)
    ensures fed == Terminated(parts)
  {
    fed := [];
    for i := 0 to |parts|
      invariant fed == Terminated(parts[..i])
    {
      assert parts[..i + 1] == parts[..i] + [parts[i]];
      TerminatedSnoc(parts[..i], parts[i]);
      fed := fed + parts[i];
      fed := fed + [0];
    }
    assert parts[..|parts|] == parts;
  }

  /** Two NUL-free texts followed by NUL and something are equal only part by part. */
  lemma {:induction false} FirstPart(a: Bytes, b: Bytes, s: Bytes, t: Bytes)
    requires NulFree(a) && NulFree(b) && a + [0] + s == b + [0] + t
    ensures a == b && s == t
  {
    var u, v := a + [0] + s, b + [0] + t;
    assert u[0] == if a == [] then 0 else a[0];
    assert v[0] == if b == [] then 0 else b[0];
    if a == [] || b == [] {
      assert u[1..] == v[1..];
    } else {
      assert u[0] == a[0] && v[0] == b[0];
      assert u[1..] == a[1..] + [0] + s && v[1..] == b[1..] + [0] + t;
      FirstPart(a[1..], b[1..], s, t);
      assert a == [a[0]] + a[1..] && b == [b[0]] + b[1..];
    }
  }

  /** Lists of NUL-free parts, of any lengths, give the same text only if they are the same. */
  lemma {:induction false} TerminatedInjective(ps: seq<Bytes>, qs: seq<Bytes>)
    requires (forall i :: 0 <= i < |ps| ==> NulFree(ps[i])) && forall i :: 0 <= i < |qs| ==> NulFree(qs[i])
    requires Terminated(ps) == Terminated(qs)
    ensures ps == qs
  {
    if ps != [] && qs != [] {
      FirstPart(ps[0], qs[0], Terminated(ps[1..]), Terminated(qs[1..]));
      TerminatedInjective(ps[1..], qs[1..]);
      assert ps == [ps[0]] + ps[1..] && qs == [qs[0]] + qs[1..];
    }
  }

  // ---- Windows ----

  /** The start of the interval-aligned window that holds t. */
  function WindowStart(t: int, interval: int): (w: int)
    requires interval > 0
    ensures w <= t < w + interval
  {
    t / interval * interval
  }

  lemma LaterWindow(a: int, b: int, interval: int)
    requires interval > 0 && a < b
    ensures a * interval < b * interval
  {
  }

  /** A window starts at a multiple of the interval: the one that t falls behind by less than it. */
  lemma WindowIsAligned(t: int, interval: int, k: int)
    requires interval > 0 && k * interval <= t < k * interval + interval
    ensures WindowStart(t, interval) == k * interval
  {
    var q := t / interval;
    if q < k { AtLeastOneMore(q, k, interval); }
    if k < q { AtLeastOneMore(k, q, interval); }
  }

  lemma AtLeastOneMore(a: int, b: int, interval: int)
    requires interval > 0 && a < b
    ensures a * interval + interval <= b * interval
  {
    if a + 1 < b { LaterWindow(a + 1, b, interval); }
    assert (a + 1) * interval == a * interval + interval;
  }

  /** Two clocks have the same window start exactly when they are in the same window. */
  lemma SameWindow(t: int, u: int, interval: int)
    requires interval > 0
    ensures WindowStart(t, interval) == WindowStart(u, interval) <==> t / interval == u / interval
  {
    if t / interval < u / interval { LaterWindow(t / interval, u / interval, interval); }
    if u / interval < t / interval { LaterWindow(u / interval, t / interval, interval); }
  }

  // ---- Rows ----

  /** Projects as Keystone lists them, with what Nova and Cinder answered: None where the request
      failed or the service is absent, and within an answer where the figure is no number. */
  datatype Usage = Usage(instances: Option<real>, cores: Option<real>, ram: Option<real>)
  datatype Project = Project(id: Bytes, name: Bytes, limits: Option<Usage>, gigabytes: Option<real>)

  /** A floating IP with its project_id and tenant_id, empty where absent. */
  datatype FloatingIp = FloatingIp(project: Bytes, tenant: Bytes)

  datatype Metric =
    | InstancesCount | VcpuUsed | RamUsed | StorageUsed | FloatingIpsCount
    | VcpuCapacity | RamCapacity | StorageCapacity

  datatype Row = Row(metric: Metric, quantity: real, resource: Bytes, tenant: Bytes)

  /** What the whole run has in common. */
  datatype Run = Run(org: Bytes, service: Bytes, window: int)

  /** Names of the metrics and the timestamp format, as bytes. */
  ghost predicate GoodNames(name: Metric -> Bytes, fmt: int -> Bytes) {
    && (forall m :: NulFree(name(m))) && (forall m, n :: name(m) == name(n) ==> m == n)
    && (forall w :: NulFree(fmt(w))) && (forall v, w :: fmt(v) == fmt(w) ==> v == w)
  }

  function Key(run: Run, row: Row, name: Metric -> Bytes, fmt: int -> Bytes): Bytes {
    Terminated([run.org, row.tenant, run.service, row.resource, name(row.metric), fmt(run.window)])
  }

  /** What row feeds to the hash: the six parts, each behind it a NUL byte. */
  method RecordText(run: Run, row: Row, name: Metric -> Bytes, fmt: int -> Bytes) returns (fed: Bytes)
    ensures fed == Key(run, row, name, fmt)
    ensures fed == run.org + [0] + row.tenant + [0] + run.service + [0] + row.resource + [0] + name(row.metric) + [0]
                   + fmt(run.window) + [0]
  {
    fed := Feed([run.org, row.tenant, run.service, row.resource, name(row.metric), fmt(run.window)]);
    SixParts(run.org, row.tenant, run.service, row.resource, name(row.metric), fmt(run.window));
  }

  lemma SixParts(a: Bytes, b: Bytes, c: Bytes, d: Bytes, e: Bytes, f: Bytes)
    ensures Terminated([a, b, c, d, e, f]) == a + [0] + b + [0] + c + [0] + d + [0] + e + [0] + f + [0]
  {
    TerminatedSnoc([], a);
    TerminatedSnoc([a], b);
    TerminatedSnoc([a, b], c);
    TerminatedSnoc([a, b, c], d);
    TerminatedSnoc([a, b, c, d], e);
    TerminatedSnoc([a, b, c, d, e], f);
    assert [] + [a] == [a] && [a] + [b] == [a, b] && [a, b] + [c] == [a, b, c] && [a, b, c] + [d] == [a, b, c, d];
    assert [a, b, c, d] + [e] == [a, b, c, d, e] && [a, b, c, d, e] + [f] == [a, b, c, d, e, f];
  }

  ghost predicate PartsOk(run: Run, row: Row) {
    NulFree(run.org) && NulFree(run.service) && NulFree(row.tenant) && NulFree(row.resource)
  }

  /** Two rows, of the same run or of two, share a key exactly when they agree on everything the
      key is made of. */
  lemma KeyIdentifies(r: Run, a: Row, s: Run, b: Row, name: Metric -> Bytes, fmt: int -> Bytes)
    requires GoodNames(name, fmt) && PartsOk(r, a) && PartsOk(s, b)
    ensures Key(r, a, name, fmt) == Key(s, b, name, fmt) <==>
      r == s && a.tenant == b.tenant && a.resource == b.resource && a.metric == b.metric
  {
    var ps := [r.org, a.tenant, r.service, a.resource, name(a.metric), fmt(r.window)];
    var qs := [s.org, b.tenant, s.service, b.resource, name(b.metric), fmt(s.window)];
    if Terminated(ps) == Terminated(qs) {
      TerminatedInjective(ps, qs);
      assert ps[0] == qs[0] && ps[1] == qs[1] && ps[2] == qs[2] && ps[3] == qs[3] && ps[4] == qs[4] && ps[5] == qs[5];
    }
  }

  /** Two runs give the same project and metric the same key exactly when their clocks fall in the
      same window of the interval. */
  lemma SameKeySameWindow(org: Bytes, service: Bytes, t: int, u: int, interval: int, row: Row,
                          name: Metric -> Bytes, fmt: int -> Bytes)
    requires interval > 0 && GoodNames(name, fmt)
    requires NulFree(org) && NulFree(service) && NulFree(row.tenant) && NulFree(row.resource)
    ensures Key(Run(org, service, WindowStart(t, interval)), row, name, fmt)
         == Key(Run(org, service, WindowStart(u, interval)), row, name, fmt)
       <==> t / interval == u / interval
  {
    var r, s := Run(org, service, WindowStart(t, interval)), Run(org, service, WindowStart(u, interval));
    KeyIdentifies(r, row, s, row, name, fmt);
    SameWindow(t, u, interval);
  }

  // ---- Collecting ----

  /** The project a floating IP belongs to: its project id, failing that its tenant id. */
  function Owner(f: FloatingIp): Bytes {
    if f.project != [] then f.project else f.tenant
  }

  function Count(fips: seq<FloatingIp>, pid: Bytes): nat {
    if fips == [] then 0 else Count(fips[..|fips| - 1], pid) + if Owner(fips[|fips| - 1]) == pid then 1 else 0
  }

  method CountFloatingIps(fips: seq<FloatingIp>) returns (counts: map<Bytes, nat>)
    ensures forall pid :: (if pid in counts then counts[pid] else 0) == Count(fips, pid)
    ensures forall pid :: pid in counts ==> counts[pid] > 0
  {
    counts := map[];
    for i := 0 to |fips|
      invariant forall pid :: (if pid in counts then counts[pid] else 0) == Count(fips[..i], pid)
      invariant forall pid :: pid in counts ==> counts[pid] > 0
    {
      assert fips[..i + 1][..i] == fips[..i];
      var pid := Owner(fips[i]);
      counts := counts[pid := (if pid in counts then counts[pid] else 0) + 1];
    }
    assert fips[..|fips|] == fips;
  }

  predicate ForProject(m: Metric) {
    !m.VcpuCapacity? && !m.RamCapacity? && !m.StorageCapacity?
  }

  /** Up to the first figure that is no number: turning it into one ends the attempt. */
  function NovaRows(p: Project): seq<Row> {
    if p.limits.None? || p.limits.value.instances.None? then []
    else
      [Row(InstancesCount, p.limits.value.instances.value, p.id, p.name)]
      + if p.limits.value.cores.None? then []
        else
          [Row(VcpuUsed, p.limits.value.cores.value, p.id, p.name)]
          + if p.limits.value.ram.None? then [] else [Row(RamUsed, p.limits.value.ram.value, p.id, p.name)]
  }

  function CinderRows(p: Project): seq<Row> {
    if p.gigabytes.None? then [] else [Row(StorageUsed, p.gigabytes.value, p.id, p.name)]
  }

  function NeutronRows(p: Project, n: nat): seq<Row> {
    if n == 0 then [] else [Row(FloatingIpsCount, n as real, p.id, p.name)]
  }

  /** The rows of one project with n floating IPs, in order. */
  function ProjectRows(p: Project, n: nat): (rows: seq<Row>)
    ensures forall i :: 0 <= i < |rows| ==>
      rows[i].resource == p.id && rows[i].tenant == p.name && ForProject(rows[i].metric)
    ensures Separate(rows)
  {
    NovaRows(p) + CinderRows(p) + NeutronRows(p, n)
  }

  /** The floating IPs that the rows of a list report together. */
  ghost function FloatingIpsIn(rows: seq<Row>): int {
    if rows == [] then 0
    else (if rows[0].metric.FloatingIpsCount? then rows[0].quantity.Floor else 0) + FloatingIpsIn(rows[1..])
  }

  lemma {:induction false} FloatingIpsJoin(a: seq<Row>, b: seq<Row>)
    ensures FloatingIpsIn(a + b) == FloatingIpsIn(a) + FloatingIpsIn(b)
  {
    if a == [] {
      assert a + b == b;
    } else {
      assert (a + b)[1..] == a[1..] + b;
      FloatingIpsJoin(a[1..], b);
    }
  }

  lemma {:induction false} NoFloatingIps(rows: seq<Row>)
    requires forall i :: 0 <= i < |rows| ==> !rows[i].metric.FloatingIpsCount?
    ensures FloatingIpsIn(rows) == 0
  {
    if rows == [] {
    } else {
      NoFloatingIps(rows[1..]);
    }
  }

  lemma ProjectReportsItsFloatingIps(p: Project, n: nat)
    ensures FloatingIpsIn(ProjectRows(p, n)) == n
  {
    var others := NovaRows(p) + CinderRows(p);
    NoFloatingIps(others);
    FloatingIpsJoin(others, NeutronRows(p, n));
    if n > 0 {
      var r := Row(FloatingIpsCount, n as real, p.id, p.name);
      assert FloatingIpsIn([r]) == r.quantity.Floor + FloatingIpsIn([r][1..]);
    }
  }

  /** The rows of the projects of a list. */
  function Rows(projects: seq<Project>, fips: seq<FloatingIp>): seq<Row> {
    if projects == [] then []
    else
      var p := projects[|projects| - 1];
      Rows(projects[..|projects| - 1], fips) + ProjectRows(p, Count(fips, p.id))
  }

  /** The capacity rows, which belong to no tenant. */
  function Capacity(hypervisors: Option<(Option<real>, Option<real>)>, pools: Option<real>, host: Bytes, pool: Bytes)
    : (rows: seq<Row>)
    ensures Separate(rows) && forall i :: 0 <= i < |rows| ==> !ForProject(rows[i].metric) && rows[i].tenant == []
  {
    (if hypervisors.None? || hypervisors.value.0.None? then []
     else [Row(VcpuCapacity, hypervisors.value.0.value, host, [])]
          + if hypervisors.value.1.None? then [] else [Row(RamCapacity, hypervisors.value.1.value, host, [])])
    + (if pools.None? then [] else [Row(StorageCapacity, pools.value, pool, [])])
  }

  /** No two rows speak of the same metric of the same resource. */
  ghost predicate Separate(rows: seq<Row>) {
    forall i, j :: 0 <= i < j < |rows| ==> rows[i].resource != rows[j].resource || rows[i].metric != rows[j].metric
  }

  lemma SeparateJoin(a: seq<Row>, b: seq<Row>)
    requires Separate(a) && Separate(b)
    requires forall i, j :: 0 <= i < |a| && 0 <= j < |b| ==>
      a[i].resource != b[j].resource || a[i].metric != b[j].metric
    ensures Separate(a + b)
  {
  }

  /** The three rows from one answer of Nova, one after the other. */
  method AddNova(before: seq<Row>, p: Project) returns (rows: seq<Row>)
    ensures rows == before + NovaRows(p)
  {
    rows := before;
    if p.limits.Some? && p.limits.value.instances.Some? {
      rows := rows + [Row(InstancesCount, p.limits.value.instances.value, p.id, p.name)];
      if p.limits.value.cores.Some? {
        rows := rows + [Row(VcpuUsed, p.limits.value.cores.value, p.id, p.name)];
        if p.limits.value.ram.Some? {
          rows := rows + [Row(RamUsed, p.limits.value.ram.value, p.id, p.name)];
        }
      }
    }
  }

  /** One pass of the loop over the projects. counts has no zero entries. */
  method AddProject(before: seq<Row>, p: Project, counts: map<Bytes, nat>) returns (rows: seq<Row>)
    requires p.id in counts ==> counts[p.id] > 0
    ensures rows == before + ProjectRows(p, if p.id in counts then counts[p.id] else 0)
  {
    rows := AddNova(before, p);
    if p.gigabytes.Some? {
      rows := rows + [Row(StorageUsed, p.gigabytes.value, p.id, p.name)];
    }
    assert rows == before + NovaRows(p) + CinderRows(p);
    if p.id in counts {
      rows := rows + [Row(FloatingIpsCount, counts[p.id] as real, p.id, p.name)];
    }
    assert rows == before + (NovaRows(p) + CinderRows(p) + NeutronRows(p, if p.id in counts then counts[p.id] else 0));
  }

  /** The capacity rows, again up to the first figure of an answer that is no number. */
  method AddCapacity(before: seq<Row>, hypervisors: Option<(Option<real>, Option<real>)>, pools: Option<real>,
                     host: Bytes, pool: Bytes)
    returns (rows: seq<Row>)
    ensures rows == before + Capacity(hypervisors, pools, host, pool)
  {
    rows := before;
    if hypervisors.Some? && hypervisors.value.0.Some? {
      rows := rows + [Row(VcpuCapacity, hypervisors.value.0.value, host, [])];
      if hypervisors.value.1.Some? {
        rows := rows + [Row(RamCapacity, hypervisors.value.1.value, host, [])];
      }
    }
    if pools.Some? {
      rows := rows + [Row(StorageCapacity, pools.value, pool, [])];
    }
  }

  /** collect_usage: the rows of every project, then the capacity rows. hypervisors holds the
      vcpus and the memory, pools the total capacity, where the requests answered. */
  method CollectUsage(projects: seq<Project>, fips: seq<FloatingIp>, hypervisors: Option<(Option<real>, Option<real>)>,
                      pools: Option<real>, host: Bytes, pool: Bytes)
    returns (rows: seq<Row>)
    ensures rows == Rows(projects, fips) + Capacity(hypervisors, pools, host, pool)
  {
    rows := [];
    var counts := CountFloatingIps(fips);
    for i := 0 to |projects|
      invariant rows == Rows(projects[..i], fips)
    {
      assert projects[..i + 1][..i] == projects[..i];
      rows := AddProject(rows, projects[i], counts);
    }
    assert projects[..|projects|] == projects;
    rows := AddCapacity(rows, hypervisors, pools, host, pool);
  }

  /** Every row of a project loop has the id of one of the projects for its resource. */
  lemma {:induction false} RowsHaveProjects(projects: seq<Project>, fips: seq<FloatingIp>)
    ensures forall r: Row :: r in Rows(projects, fips) ==> exists p :: p in projects && r.resource == p.id
  {
    if projects == [] {
    } else {
      var n := |projects| - 1;
      RowsHaveProjects(projects[..n], fips);
      forall r | r in Rows(projects, fips) ensures exists p :: p in projects && r.resource == p.id {
        if r in Rows(projects[..n], fips) {
          var p :| p in projects[..n] && r.resource == p.id;
          assert p in projects;
        } else {
          assert r in ProjectRows(projects[n], Count(fips, projects[n].id)) && projects[n] in projects;
        }
      }
    }
  }

  ghost predicate DistinctIds(projects: seq<Project>) {
    forall i, j :: 0 <= i < j < |projects| ==> projects[i].id != projects[j].id
  }

  ghost function Ids(projects: seq<Project>): set<Bytes> {
    set i | 0 <= i < |projects| :: projects[i].id
  }

  lemma {:induction false} ProjectRowsSeparate(projects: seq<Project>, fips: seq<FloatingIp>)
    requires DistinctIds(projects)
    ensures Separate(Rows(projects, fips))
    ensures forall i :: 0 <= i < |Rows(projects, fips)| ==>
      Rows(projects, fips)[i].resource in Ids(projects) && ForProject(Rows(projects, fips)[i].metric)
  {
    if projects == [] {
    } else {
      var n := |projects| - 1;
      var before, p := projects[..n], projects[n];
      ProjectRowsSeparate(before, fips);
      assert Ids(projects) == Ids(before) + {p.id} && p.id !in Ids(before) by { IdsOfInit(projects); }
      SeparateJoin(Rows(before, fips), ProjectRows(p, Count(fips, p.id)));
    }
  }

  lemma IdsOfInit(projects: seq<Project>)
    requires projects != []
    ensures var n := |projects| - 1;
      && Ids(projects) == Ids(projects[..n]) + {projects[n].id}
      && (DistinctIds(projects) ==> DistinctIds(projects[..n]) && projects[n].id !in Ids(projects[..n]))
  {
    var n := |projects| - 1;
    var before := projects[..n];
    forall x | x in Ids(projects) ensures x in Ids(before) + {projects[n].id} {
      var i :| 0 <= i < |projects| && projects[i].id == x;
      if i < n { assert before[i].id == x; }
    }
    forall x | x in Ids(before) + {projects[n].id} ensures x in Ids(projects) {
      if x != projects[n].id {
        var i :| 0 <= i < |before| && before[i].id == x;
        assert projects[i].id == x;
      }
    }
  }

  // ---- Each figure, read off the answers ----

  /** The floating IPs of a project, by index: those whose project id, or failing that whose tenant
      id, is its own. */
  ghost function IpsOf(fips: seq<FloatingIp>, pid: Bytes): set<int> {
    set i | 0 <= i < |fips| && (if fips[i].project != [] then fips[i].project else fips[i].tenant) == pid
  }

  lemma OneMoreIp(fips: seq<FloatingIp>, pid: Bytes)
    requires fips != []
    ensures var n := |fips| - 1;
      |IpsOf(fips, pid)| == |IpsOf(fips[..n], pid)| + if Owner(fips[n]) == pid then 1 else 0
  {
    var n := |fips| - 1;
    var before := IpsOf(fips[..n], pid);
    assert IpsOf(fips, pid) == if Owner(fips[n]) == pid then before + {n} else before;
  }

  lemma {:induction false} CountIsSize(fips: seq<FloatingIp>, pid: Bytes)
    ensures Count(fips, pid) == |IpsOf(fips, pid)|
  {
    if fips == [] {
      assert IpsOf(fips, pid) == {};
    } else {
      var n := |fips| - 1;
      CountIsSize(fips[..n], pid);
      OneMoreIp(fips, pid);
    }
  }

  /** The rows of a metric of a project are among its own rows and nobody else's. */
  lemma {:induction false} RowsOfProject(projects: seq<Project>, fips: seq<FloatingIp>, p: Project, r: Row)
    requires DistinctIds(projects) && p in projects && r.resource == p.id
    ensures r in Rows(projects, fips) <==> r in ProjectRows(p, Count(fips, p.id))
  {
    var n := |projects| - 1;
    var before, last := projects[..n], projects[n];
    IdsOfInit(projects);
    ProjectRowsSeparate(before, fips);
    assert r in Rows(projects, fips) <==> r in Rows(before, fips) || r in ProjectRows(last, Count(fips, last.id));
    if p in before {
      RowsOfProject(before, fips, p, r);
      assert p.id in Ids(before);
    } else {
      assert p == last;
    }
  }

  /** A project's own rows, metric by metric. */
  lemma FiguresOfProject(p: Project, n: nat, r: Row)
    requires r.resource == p.id
    ensures r in ProjectRows(p, n) <==>
      match r.metric
      case InstancesCount =>
        p.limits.Some? && p.limits.value.instances.Some?
        && r == Row(InstancesCount, p.limits.value.instances.value, p.id, p.name)
      case VcpuUsed =>
        p.limits.Some? && p.limits.value.instances.Some? && p.limits.value.cores.Some?
        && r == Row(VcpuUsed, p.limits.value.cores.value, p.id, p.name)
      case RamUsed =>
        p.limits.Some? && p.limits.value.instances.Some? && p.limits.value.cores.Some? && p.limits.value.ram.Some?
        && r == Row(RamUsed, p.limits.value.ram.value, p.id, p.name)
      case StorageUsed => p.gigabytes.Some? && r == Row(StorageUsed, p.gigabytes.value, p.id, p.name)
      case FloatingIpsCount => n > 0 && r == Row(FloatingIpsCount, n as real, p.id, p.name)
      case _ => false
  {
    assert r in ProjectRows(p, n) <==> r in NovaRows(p) || r in CinderRows(p) || r in NeutronRows(p, n);
  }

  /** Over projects with distinct ids, what each row of collect_usage says: a project's row of a
      metric is there exactly when the figures up to its own are numbers, and then its quantity is
      that figure. Floating IPs are counted by project id, failing that by tenant id. */
  lemma FiguresReported(projects: seq<Project>, fips: seq<FloatingIp>,
                        hypervisors: Option<(Option<real>, Option<real>)>, pools: Option<real>,
                        host: Bytes, pool: Bytes, p: Project, r: Row)
    requires DistinctIds(projects) && p in projects && r.resource == p.id
    ensures var listed := r in Rows(projects, fips) + Capacity(hypervisors, pools, host, pool);
      match r.metric
      case InstancesCount =>
        listed <==> p.limits.Some? && p.limits.value.instances.Some?
                    && r == Row(InstancesCount, p.limits.value.instances.value, p.id, p.name)
      case VcpuUsed =>
        listed <==> p.limits.Some? && p.limits.value.instances.Some? && p.limits.value.cores.Some?
                    && r == Row(VcpuUsed, p.limits.value.cores.value, p.id, p.name)
      case RamUsed =>
        listed <==> p.limits.Some? && p.limits.value.instances.Some? && p.limits.value.cores.Some?
                    && p.limits.value.ram.Some? && r == Row(RamUsed, p.limits.value.ram.value, p.id, p.name)
      case StorageUsed => listed <==> p.gigabytes.Some? && r == Row(StorageUsed, p.gigabytes.value, p.id, p.name)
      case FloatingIpsCount =>
        var own := set i | 0 <= i < |fips|
                           && (if fips[i].project != [] then fips[i].project else fips[i].tenant) == p.id;
        listed <==> own != {} && r == Row(FloatingIpsCount, |own| as real, p.id, p.name)
      case _ => true
  {
    if ForProject(r.metric) {
      CountIsSize(fips, p.id);
      RowsOfProject(projects, fips, p, r);
      assert r !in Capacity(hypervisors, pools, host, pool);
      FiguresOfProject(p, Count(fips, p.id), r);
    }
  }

  /** The same of the capacity rows: hypervisor totals up to the first that is no number, and the
      pools' total. */
  lemma CapacityReported(projects: seq<Project>, fips: seq<FloatingIp>,
                         hypervisors: Option<(Option<real>, Option<real>)>, pools: Option<real>,
                         host: Bytes, pool: Bytes, r: Row)
    requires !ForProject(r.metric)
    ensures r in Rows(projects, fips) + Capacity(hypervisors, pools, host, pool) <==>
      match r.metric
      case VcpuCapacity =>
        hypervisors.Some? && hypervisors.value.0.Some? && r == Row(VcpuCapacity, hypervisors.value.0.value, host, [])
      case RamCapacity =>
        hypervisors.Some? && hypervisors.value.0.Some? && hypervisors.value.1.Some?
        && r == Row(RamCapacity, hypervisors.value.1.value, host, [])
      case StorageCapacity => pools.Some? && r == Row(StorageCapacity, pools.value, pool, [])
      case _ => false
  {
    OnlyProjectMetrics(projects, fips);
    assert r in Rows(projects, fips) ==> ForProject(r.metric);
  }

  lemma {:induction false} OnlyProjectMetrics(projects: seq<Project>, fips: seq<FloatingIp>)
    ensures forall r :: r in Rows(projects, fips) ==> ForProject(r.metric)
  {
    if projects == [] {
    } else {
      OnlyProjectMetrics(projects[..|projects| - 1], fips);
    }
  }

  /** All rows of a run over projects with distinct ids have distinct keys. */
  lemma RowsHaveDistinctKeys(run: Run, projects: seq<Project>, fips: seq<FloatingIp>,
                             hypervisors: Option<(Option<real>, Option<real>)>, pools: Option<real>,
                             host: Bytes, pool: Bytes, name: Metric -> Bytes, fmt: int -> Bytes, i: nat, j: nat)
    requires DistinctIds(projects) && GoodNames(name, fmt)
    requires var rows := Rows(projects, fips) + Capacity(hypervisors, pools, host, pool);
      i < j < |rows| && PartsOk(run, rows[i]) && PartsOk(run, rows[j])
    ensures var rows := Rows(projects, fips) + Capacity(hypervisors, pools, host, pool);
      Key(run, rows[i], name, fmt) != Key(run, rows[j], name, fmt)
  {
    ProjectRowsSeparate(projects, fips);
    SeparateJoin(Rows(projects, fips), Capacity(hypervisors, pools, host, pool));
    var rows := Rows(projects, fips) + Capacity(hypervisors, pools, host, pool);
    KeyIdentifies(run, rows[i], run, rows[j], name, fmt);
  }

  // ---- Nothing counted twice or lost ----

  /** The floating IPs whose owner is among ids. */
  ghost function Attributed(fips: seq<FloatingIp>, ids: set<Bytes>): nat {
    if fips == [] then 0
    else Attributed(fips[..|fips| - 1], ids) + if Owner(fips[|fips| - 1]) in ids then 1 else 0
  }

  lemma {:induction false} AttributedGrows(fips: seq<FloatingIp>, ids: set<Bytes>, pid: Bytes)
    requires pid !in ids
    ensures Attributed(fips, ids + {pid}) == Attributed(fips, ids) + Count(fips, pid)
  {
    if fips == [] {
    } else {
      AttributedGrows(fips[..|fips| - 1], ids, pid);
    }
  }

  lemma {:induction false} NothingAttributed(fips: seq<FloatingIp>)
    ensures Attributed(fips, {}) == 0
  {
    if fips == [] {
    } else {
      NothingAttributed(fips[..|fips| - 1]);
    }
  }

  /** Over projects with distinct ids the rows together report each floating IP of a listed
      project once and no other. */
  lemma {:induction false} FloatingIpsConserved(projects: seq<Project>, fips: seq<FloatingIp>)
    requires DistinctIds(projects)
    ensures FloatingIpsIn(Rows(projects, fips)) == Attributed(fips, Ids(projects))
  {
    if projects == [] {
      assert Ids(projects) == {};
      NothingAttributed(fips);
    } else {
      var n := |projects| - 1;
      IdsOfInit(projects);
      FloatingIpsConserved(projects[..n], fips);
      FloatingIpsJoin(Rows(projects[..n], fips), ProjectRows(projects[n], Count(fips, projects[n].id)));
      ProjectReportsItsFloatingIps(projects[n], Count(fips, projects[n].id));
      AttributedGrows(fips, Ids(projects[..n]), projects[n].id);
    }
  }
}
