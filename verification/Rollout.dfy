/** The step system a wait graph stands for: an edge A -> B reads "A cannot become ready until
    B is" (hack/validate-readiness-deadlock.py:454-458). */
module Rollout {
  import opened Graphs

  /** n may become satisfied next. */
  ghost predicate CanStep<N(!new)>(g: Graph<N>, done: set<N>, n: N) {
    n in Nodes(g) && n !in done && Succ(g, n) <= done
  }

  /** The satisfied sets of an install, from nothing, one node at a time in any order. */
  ghost predicate Advances<N(!new)>(g: Graph<N>, run: seq<set<N>>, i: int) {
    0 <= i < |run| - 1 && exists n :: CanStep(g, run[i], n) && run[i + 1] == run[i] + {n}
  }

  ghost predicate IsRun<N(!new)>(g: Graph<N>, run: seq<set<N>>) {
    && |run| > 0 && run[0] == {}
    && forall i {:trigger Advances(g, run, i)} :: 0 <= i < |run| - 1 ==> Advances(g, run, i)
  }

  ghost predicate Stuck<N(!new)>(g: Graph<N>, done: set<N>) {
    forall n :: !CanStep(g, done, n)
  }

  /** A run that can take no further step. */
  ghost predicate FinishedRun<N(!new)>(g: Graph<N>, run: seq<set<N>>) {
    IsRun(g, run) && Stuck(g, run[|run| - 1])
  }

  /** n is in a cycle or waits, however indirectly, for something that is. */
  ghost predicate Doomed<N(!new)>(g: Graph<N>, n: N) {
    exists m :: Reach(g, n, m) && OnCycle(g, m)
  }

  ghost function Satisfiable<N(!new)>(g: Graph<N>): set<N> {
    set n | n in Nodes(g) && !Doomed(g, n)
  }

  /** Satisfied nodes wait only for satisfied nodes, and none of them is doomed. */
  ghost predicate Sound<N(!new)>(g: Graph<N>, done: set<N>) {
    && done <= Nodes(g)
    && (forall x, y :: x in done && Edge(g, x, y) ==> y in done)
    && (forall x :: x in done ==> !Doomed(g, x))
  }

  lemma StepKeepsSound<N(!new)>(g: Graph<N>, done: set<N>, n: N)
    requires Sound(g, done) && CanStep(g, done, n)
    ensures Sound(g, done + {n})
  {
    if m :| Reach(g, n, m) && OnCycle(g, m) {
      ReachStep(g, n, m);
      if n == m {
        OnCycleIff(g, n);
        var b :| Edge(g, n, b) && Reach(g, b, n);
        ReachStaysIn(g, done, b, n);
      } else {
        var b :| Edge(g, n, b) && Reach(g, b, m);
        assert Doomed(g, b);
      }
    }
  }

  lemma {:induction false} RunIsSound<N(!new)>(g: Graph<N>, run: seq<set<N>>, k: nat)
    requires IsRun(g, run) && k < |run|
    ensures Sound(g, run[k])
  {
    if k == 0 {
    } else {
      RunIsSound(g, run, k - 1);
      assert Advances(g, run, k - 1);
      var n :| CanStep(g, run[k - 1], n) && run[k] == run[k - 1] + {n};
      StepKeepsSound(g, run[k - 1], n);
    }
  }

  /** However the rollout goes, nothing that is in a cycle or waits for one is ever satisfied. */
  lemma DoomedNeverReady<N(!new)>(g: Graph<N>, run: seq<set<N>>, k: nat, n: N)
    requires IsRun(g, run) && k < |run| && Doomed(g, n)
    ensures n !in run[k]
  {
    RunIsSound(g, run, k);
  }

  lemma StuckFills<N(!new)>(g: Graph<N>, done: set<N>)
    requires Sound(g, done) && Stuck(g, done)
    ensures done == Satisfiable(g)
  {
    var left := Satisfiable(g) - done;
    if n :| n in left {
      forall x | x in left ensures HasSuccIn(g, left, x) {
        StuckHasSucc(g, done, x);
      }
      var c := EndlessSetHasCycle(g, left, [n]);
      ReachSelf(g, c);
      assert false;
    }
    assert left == {};
    forall x | x in Satisfiable(g) ensures x in done {
      assert x !in left;
    }
  }

  /** A satisfiable node that cannot step waits for another that is not satisfied yet. */
  lemma StuckHasSucc<N(!new)>(g: Graph<N>, done: set<N>, x: N)
    requires Stuck(g, done) && x in Satisfiable(g) && x !in done
    ensures HasSuccIn(g, Satisfiable(g) - done, x)
  {
    assert !CanStep(g, done, x);
    var y :| y in Succ(g, x) && y !in done;
    EdgeNodes(g, x, y);
    ReachEdge(g, x, y);
    if m :| Reach(g, y, m) && OnCycle(g, m) {
      ReachTrans(g, x, y, m);
      assert Doomed(g, x);
    }
    assert Edge(g, x, y) && y in Satisfiable(g) - done;
  }

  /** Every finished rollout, in whatever order it went, has satisfied exactly the nodes that do
      not wait for a cycle. */
  lemma FinishedRunOutcome<N(!new)>(g: Graph<N>, run: seq<set<N>>)
    requires FinishedRun(g, run)
    ensures run[|run| - 1] == Satisfiable(g)
  {
    RunIsSound(g, run, |run| - 1);
    StuckFills(g, run[|run| - 1]);
  }

  /** Every rollout can be carried on until it is finished. */
  lemma RunFinishes<N(!new)>(g: Graph<N>, run: seq<set<N>>) returns (whole: seq<set<N>>)
    requires IsRun(g, run)
    ensures FinishedRun(g, whole) && run <= whole
    decreases |Nodes(g) - run[|run| - 1]|
  {
    var last := run[|run| - 1];
    if n :| CanStep(g, last, n) {
      var longer := run + [last + {n}];
      forall i | 0 <= i < |longer| - 1 ensures Advances(g, longer, i) {
        if i < |run| - 1 {
          assert Advances(g, run, i);
        }
      }
      assert Nodes(g) - (last + {n}) == (Nodes(g) - last) - {n};
      whole := RunFinishes(g, longer);
      assert run <= longer;
    } else {
      whole := run;
    }
  }

  /** No deadlock: every rollout that can take no further step has satisfied every node. */
  ghost predicate Live<N(!new)>(g: Graph<N>) {
    forall run :: FinishedRun(g, run) ==> run[|run| - 1] == Nodes(g)
  }

  /** A rollout of a wait graph can get stuck half-way exactly when the graph has a cycle. */
  lemma LiveIffAcyclic<N(!new)>(g: Graph<N>)
    ensures Live(g) <==> Acyclic(g)
  {
    if Acyclic(g) {
      assert Satisfiable(g) == Nodes(g);
      forall run | FinishedRun(g, run) ensures run[|run| - 1] == Nodes(g) {
        FinishedRunOutcome(g, run);
      }
    } else {
      var n :| OnCycle(g, n);
      OnCycleIff(g, n);
      var b :| Edge(g, n, b) && Reach(g, b, n);
      EdgeNodes(g, n, b);
      ReachSelf(g, n);
      assert Doomed(g, n);
      assert IsRun(g, [{}]);
      var run := RunFinishes(g, [{}]);
      FinishedRunOutcome(g, run);
      assert n !in run[|run| - 1];
    }
  }
}
