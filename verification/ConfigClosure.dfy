/** The transitive dependency closure of a component
    (hack/validate-component-config-closure.py:171-180). */
module ConfigClosure {
  import opened Graphs

  type Deps = map<string, seq<string>>

  /** The declared dependencies of n; none where n is not declared or names none. */
  function DepsOf(deps: Deps, n: string): seq<string> {
    if n in deps then deps[n] else []
  }

  /** Names that the closure of name may hold. */
  ghost function Names(deps: Deps, name: string): set<string> {
    {name} + Nodes(Declared(deps))
  }

  lemma DepsAreNames(deps: Deps, name: string, n: string, d: string)
    requires d in DepsOf(deps, n)
    ensures Edge(Declared(deps), n, d) && d in Names(deps, name)
  {
    assert Edge(Declared(deps), n, d);
    EdgeNodes(Declared(deps), n, d);
  }

  /** Exactly the names reachable from name along the declared dependencies, cycles or not. */
  method Closure(deps: Deps, name: string) returns (seen: set<string>)
    ensures forall n :: n in seen <==> Reach(Declared(deps), name, n)
  {
    var g := Declared(deps);
    seen := {};
    var stack := [name];
    ReachSelf(g, name);
    while stack != []
      invariant forall n :: n in seen ==> Reach(g, name, n) && n in Names(deps, name)
      invariant forall n :: n in stack ==> Reach(g, name, n) && n in Names(deps, name)
      invariant name in seen || name in stack
      invariant forall n, d :: n in seen && Edge(g, n, d) ==> d in seen || d in stack
      decreases Names(deps, name) - seen, |stack|
    {
      var n := stack[|stack| - 1];
      assert stack == stack[..|stack| - 1] + [n];
      stack := stack[..|stack| - 1];
      if n !in seen {
        forall d | d in DepsOf(deps, n) ensures Reach(g, name, d) && d in Names(deps, name) {
          DepsAreNames(deps, name, n, d);
          ReachEdge(g, n, d);
          ReachTrans(g, name, n, d);
        }
        seen := seen + {n};
        stack := stack + DepsOf(deps, n);
      }
    }
    forall n | Reach(g, name, n) ensures n in seen {
      ReachStaysIn(g, seen, name, n);
    }
  }

  /** The closure is the least set that holds name and everything its members depend on. */
  lemma ClosureIsLeast(deps: Deps, name: string, seen: set<string>, s: set<string>)
    requires forall n :: n in seen <==> Reach(Declared(deps), name, n)
    requires name in s && forall n, d :: n in s && d in DepsOf(deps, n) ==> d in s
    ensures name in seen && seen <= s
    ensures forall n, d :: n in seen && d in DepsOf(deps, n) ==> d in seen
  {
    var g := Declared(deps);
    ReachSelf(g, name);
    forall n | n in seen ensures n in s {
      forall x, y | x in s && Edge(g, x, y) ensures y in s {
        assert y in DepsOf(deps, x);
      }
      ReachStaysIn(g, s, name, n);
    }
    forall n, d | n in seen && d in DepsOf(deps, n) ensures d in seen {
      DepsAreNames(deps, name, n, d);
      ReachEdge(g, n, d);
      ReachTrans(g, name, n, d);
    }
  }

  /** Declaring more dependencies never takes a name out, and the closure of a member stays
      inside. */
  lemma ClosureIsMonotone(deps: Deps, more: Deps, name: string, member: string, n: string)
    requires forall m, d :: d in DepsOf(deps, m) ==> d in DepsOf(more, m)
    requires Reach(Declared(deps), name, member) && Reach(Declared(deps), member, n)
    ensures Reach(Declared(more), name, n)
  {
    ReachTrans(Declared(deps), name, member, n);
    forall a, b | Edge(Declared(deps), a, b) ensures Edge(Declared(more), a, b) {
      assert b in DepsOf(deps, a);
      DepsAreNames(more, name, a, b);
    }
    SubgraphKeepsReach(Declared(deps), Declared(more), name, n);
  }
}
