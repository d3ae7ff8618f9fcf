/** Parsed YAML documents as hack/revendor.py sees them: mappings all the way down to leaves,
    a list being a leaf like any scalar. */
module Trees {
  import opened Options

  datatype Tree<V> = Leaf(value: V) | Mapping(entries: map<string, Tree<V>>)

  type Path = seq<string>

  /** The node at a path; None stands for the KeyError that get returns. */
  function Get<V>(t: Tree<V>, p: Path): Option<Tree<V>>
    decreases |p|
  {
    if p == [] then Some(t)
    else if t.Mapping? && p[0] in t.entries then Get(t.entries[p[0]], p[1..])
    else None
  }

  /** get: follow the path one key at a time. */
  method Follow<V>(t: Tree<V>, path: Path) returns (r: Option<Tree<V>>)
    ensures r == Get(t, path)
  {
    var node := t;
    for i := 0 to |path|
      invariant Get(t, path) == Get(node, path[i..])
    {
      if !node.Mapping? || path[i] !in node.entries {
        return None;
      }
      node := node.entries[path[i]];
      assert path[i..][1..] == path[i + 1..];
    }
    r := Some(node);
  }

  /** walk: the paths of the leaves. An empty mapping has none. */
  function Walk<V>(t: Tree<V>): set<Path> {
    match t
    case Leaf(_) => {[]}
    case Mapping(es) => set k, p | k in es && p in Walk(es[k]) :: [k] + p
  }

  lemma WalkIsLeaves<V>(t: Tree<V>, p: Path)
    ensures p in Walk(t) <==> Get(t, p).Some? && Get(t, p).value.Leaf?
  {
    match t
    case Leaf(_) =>
    case Mapping(es) =>
      if p in Walk(t) {
        var k, q :| k in es && q in Walk(es[k]) && p == [k] + q;
        WalkIsLeaves(es[k], q);
        assert p[1..] == q;
      }
      if Get(t, p).Some? && Get(t, p).value.Leaf? {
        WalkIsLeaves(es[p[0]], p[1..]);
        assert p == [p[0]] + p[1..];
      }
  }

  /** What put makes of a mapping, from the front of the path. */
  function Put<V>(t: Tree<V>, p: Path, v: Tree<V>): (r: Tree<V>)
    requires t.Mapping? && p != []
    ensures r.Mapping?
    decreases |p|
  {
    if |p| == 1 then Mapping(t.entries[p[0] := v])
    else Mapping(t.entries[p[0] := Put(Below(t, p[0]), p[1..], v)])
  }

  function Below<V>(t: Tree<V>, k: string): (r: Tree<V>)
    requires t.Mapping?
    ensures r.Mapping?
  {
    if k in t.entries && t.entries[k].Mapping? then t.entries[k] else Mapping(map[])
  }

  // ---- One assignment at a time ----

  ghost predicate MappingAt<V>(t: Tree<V>, at: Path) {
    Get(t, at).Some? && Get(t, at).value.Mapping?
  }

  /** node[k] = v, for the node that at leads to. */
  function Assign<V>(t: Tree<V>, at: Path, k: string, v: Tree<V>): Tree<V>
    requires MappingAt(t, at)
    decreases |at|
  {
    if at == [] then Mapping(t.entries[k := v])
    else Mapping(t.entries[at[0] := Assign(t.entries[at[0]], at[1..], k, v)])
  }

  lemma {:induction false} AssignGets<V>(t: Tree<V>, at: Path, k: string, v: Tree<V>)
    requires MappingAt(t, at)
    ensures MappingAt(Assign(t, at, k, v), at) && Get(Assign(t, at, k, v), at + [k]) == Some(v)
    decreases |at|
  {
    if at == [] {
      assert Get(Assign(t, at, k, v), [k]) == Get(v, [k][1..]);
    } else {
      AssignGets(t.entries[at[0]], at[1..], k, v);
      assert (at + [k])[1..] == at[1..] + [k];
    }
  }

  /** An empty mapping put in the way of a path does not change what putting at the path makes. */
  lemma {:induction false} OpenKeepsPut<V>(t: Tree<V>, p: Path, v: Tree<V>, i: nat)
    requires i + 1 < |p| && MappingAt(t, p[..i])
    requires !MappingAt(t, p[..i + 1])
    ensures t.Mapping? && Assign(t, p[..i], p[i], Mapping(map[])).Mapping?
    ensures Put(Assign(t, p[..i], p[i], Mapping(map[])), p, v) == Put(t, p, v)
    ensures MappingAt(Assign(t, p[..i], p[i], Mapping(map[])), p[..i + 1])
    decreases i
  {
    AssignGets(t, p[..i], p[i], Mapping(map[]));
    assert p[..i] + [p[i]] == p[..i + 1];
    if i == 0 {
      assert p[..1] == [p[0]] && [p[0]][1..] == [];
      var below := Put(Mapping(map[]), p[1..], v);
      assert t.entries[p[0] := Mapping(map[])][p[0] := below] == t.entries[p[0] := below];
      NextOnTheWay(t, p, 0);
    } else {
      var u := t.entries[p[0]];
      assert p[..i][1..] == p[1..][..i - 1] && p[..i + 1][1..] == p[1..][..i];
      OpenKeepsPut(u, p[1..], v, i - 1);
    }
  }

  /** Where the way is open, putting is the one assignment at its end. */
  lemma {:induction false} AssignIsPut<V>(t: Tree<V>, p: Path, v: Tree<V>)
    requires p != [] && MappingAt(t, p[..|p| - 1])
    ensures t.Mapping? && Assign(t, p[..|p| - 1], p[|p| - 1], v) == Put(t, p, v)
    decreases |p|
  {
    if |p| == 1 {
    } else {
      assert p[..|p| - 1][1..] == p[1..][..|p| - 2];
      AssignIsPut(t.entries[p[0]], p[1..], v);
    }
  }

  // ---- Reading after writing ----

  lemma {:induction false} GetJoin<V>(t: Tree<V>, p: Path, q: Path)
    ensures Get(t, p + q) == if Get(t, p).Some? then Get(Get(t, p).value, q) else None
  {
    if p == [] {
      assert p + q == q;
    } else {
      assert (p + q)[0] == p[0] && (p + q)[1..] == p[1..] + q;
      if t.Mapping? && p[0] in t.entries {
        GetJoin(t.entries[p[0]], p[1..], q);
      }
    }
  }

  /** The way along p is open one key further exactly when the key is there and holds a mapping. */
  lemma NextOnTheWay<V>(t: Tree<V>, p: Path, i: nat)
    requires i < |p| && MappingAt(t, p[..i])
    ensures var es := Get(t, p[..i]).value.entries;
      MappingAt(t, p[..i + 1]) <==> p[i] in es && es[p[i]].Mapping?
  {
    assert p[..i] + [p[i]] == p[..i + 1] && [p[i]][1..] == [];
    GetJoin(t, p[..i], [p[i]]);
  }

  /** What two trees hold alike at p they hold alike below p. */
  lemma SameBelow<V>(t: Tree<V>, u: Tree<V>, p: Path, q: Path)
    requires Get(t, p) == Get(u, p) && p <= q
    ensures Get(t, q) == Get(u, q)
  {
    assert q == p + q[|p|..];
    GetJoin(t, p, q[|p|..]);
    GetJoin(u, p, q[|p|..]);
  }

  /** Where something is found, every prefix is a mapping or the thing itself. */
  lemma FoundThrough<V>(t: Tree<V>, p: Path, q: Path)
    requires p <= q && Get(t, q).Some?
    ensures Get(t, p).Some? && (p != q ==> Get(t, p).value.Mapping?)
  {
    assert q == p + q[|p|..];
    GetJoin(t, p, q[|p|..]);
  }

  lemma {:induction false} GetPutAt<V>(t: Tree<V>, p: Path, v: Tree<V>, q: Path)
    requires t.Mapping? && p != [] && p <= q
    ensures Get(Put(t, p, v), q) == Get(v, q[|p|..])
    decreases |p|
  {
    if |p| == 1 {
    } else {
      GetPutAt(Below(t, p[0]), p[1..], v, q[1..]);
      assert q[1..][|p| - 1..] == q[|p|..];
    }
  }

  lemma {:induction false} GetPutAbove<V>(t: Tree<V>, p: Path, v: Tree<V>, q: Path)
    requires t.Mapping? && p != [] && q < p
    ensures Get(Put(t, p, v), q).Some? && Get(Put(t, p, v), q).value.Mapping?
    decreases |p|
  {
    if q == [] {
    } else {
      GetPutAbove(Below(t, p[0]), p[1..], v, q[1..]);
    }
  }

  lemma NothingInEmpty<V>(t: Tree<V>, q: Path)
    requires q != [] && t == Mapping(map[])
    ensures Get(t, q) == None
  {
  }

  /** A path that is neither above nor below p reads as before, even where put had to replace a
      leaf on its way. */
  lemma {:induction false} GetPutAside<V>(t: Tree<V>, p: Path, v: Tree<V>, q: Path)
    requires t.Mapping? && p != [] && !(p <= q) && !(q <= p)
    ensures Get(Put(t, p, v), q) == Get(t, q)
    decreases |p|
  {
    if q[0] == p[0] {
      assert |p| == 1 ==> p <= q;
      assert |q| == 1 ==> q <= p;
      assert p == [p[0]] + p[1..] && q == [q[0]] + q[1..];
      assert !(p[1..] <= q[1..]) && !(q[1..] <= p[1..]);
      GetPutAside(Below(t, p[0]), p[1..], v, q[1..]);
      if !(p[0] in t.entries && t.entries[p[0]].Mapping?) {
        NothingInEmpty(Below(t, p[0]), q[1..]);
      }
    }
  }

  // ---- The order of sorted(paths) ----

  /** Lexicographic order of two sequences. */
  predicate Less<T(==)>(less: (T, T) -> bool, a: seq<T>, b: seq<T>)
    decreases |a|
  {
    b != [] && (a == [] || less(a[0], b[0]) || (a[0] == b[0] && Less(less, a[1..], b[1..])))
  }

  predicate StringLess(a: string, b: string) {
    Less((x: char, y: char) => x < y, a, b)
  }

  /** How Python orders two tuples of strings. */
  predicate PathLess(a: Path, b: Path) {
    Less(StringLess, a, b)
  }

  lemma {:induction false} LessAsymmetric<T>(less: (T, T) -> bool, a: seq<T>, b: seq<T>)
    requires forall x, y :: !(less(x, y) && less(y, x))
    requires Less(less, a, b)
    ensures !Less(less, b, a)
  {
    if a != [] && a[0] == b[0] {
      var x, y := a[0], b[0];
      assert !(less(x, y) && less(y, x));
      LessAsymmetric(less, a[1..], b[1..]);
    }
  }

  lemma StringLessAsymmetric(a: string, b: string)
    requires StringLess(a, b)
    ensures !StringLess(b, a)
  {
    LessAsymmetric((x: char, y: char) => x < y, a, b);
  }

  lemma PathLessAsymmetric(a: Path, b: Path)
    requires PathLess(a, b)
    ensures !PathLess(b, a)
  {
    forall x, y ensures !(StringLess(x, y) && StringLess(y, x)) {
      if StringLess(x, y) { StringLessAsymmetric(x, y); }
    }
    LessAsymmetric(StringLess, a, b);
  }

  lemma {:induction false} PrefixIsLess<T>(less: (T, T) -> bool, a: seq<T>, b: seq<T>)
    requires a < b
    ensures Less(less, a, b)
  {
    if a == [] {
    } else {
      assert a[1..] < b[1..];
      PrefixIsLess(less, a[1..], b[1..]);
    }
  }

  /** A listing in which no path comes after one of its extensions. */
  ghost predicate PrefixFirst(q: seq<Path>) {
    forall i, j :: 0 <= i < j < |q| ==> !(q[j] <= q[i])
  }

  /** sorted(paths) lists every path before its extensions. */
  lemma SortedIsPrefixFirst(q: seq<Path>)
    requires forall i, j :: 0 <= i < j < |q| ==> PathLess(q[i], q[j])
    ensures PrefixFirst(q)
  {
    forall i, j | 0 <= i < j < |q| ensures !(q[j] <= q[i]) {
      PathLessAsymmetric(q[i], q[j]);
      if q[j] < q[i] {
        PrefixIsLess(StringLess, q[j], q[i]);
      }
      var a, b := q[i], q[j];
      assert b == a ==> PathLess(b, a);
    }
  }
}
