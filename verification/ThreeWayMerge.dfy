/** The three-way merge of a vendored chart's values (hack/revendor.py, merge and main). */
module ThreeWayMerge {
  import opened Graphs
  import opened Options
  import opened Trees

  datatype Decision = Same | Take | Keep | Clash

  /** The rule for one path, on what the three trees hold there. */
  function Decide<V(==)>(b: Option<Tree<V>>, o: Option<Tree<V>>, t: Option<Tree<V>>): Decision {
    if o == t then Same
    else if o == b && t.Some? then Take
    else if t == b then Keep
    else Clash
  }

  /** A conflict as it is reported: the path and what base, ours and theirs hold there. */
  datatype Conflict<V> =
    Conflict(path: Path, base: Option<Tree<V>>, ours: Option<Tree<V>>, theirs: Option<Tree<V>>)

  /** The merge under way: ours as changed so far and the three lists. crashed says that put was
      given the empty path or a document that is not a mapping, which raises in the original. */
  datatype State<V> = State(
    ours: Tree<V>, taken: seq<Path>, kept: seq<Path>, conflicts: seq<Conflict<V>>, crashed: bool)

  function Step<V(==)>(base: Tree<V>, theirs: Tree<V>, s: State<V>, path: Path): State<V> {
    if s.crashed then s
    else
      var b, o, t := Get(base, path), Get(s.ours, path), Get(theirs, path);
      match Decide(b, o, t)
      case Same => s
      case Take =>
        if s.ours.Mapping? && path != []
        then s.(ours := Put(s.ours, path, t.value), taken := s.taken + [path])
        else s.(crashed := true)
      case Keep => s.(kept := s.kept + [path])
      case Clash => s.(conflicts := s.conflicts + [Conflict(path, b, o, t)])
  }

  function Start<V>(ours: Tree<V>): State<V> {
    State(ours, [], [], [], false)
  }

  /** The loop over the first paths of a listing. */
  function Run<V(==)>(base: Tree<V>, ours: Tree<V>, theirs: Tree<V>, q: seq<Path>): State<V> {
    if q == [] then Start(ours)
    else Step(base, theirs, Run(base, ours, theirs, q[..|q| - 1]), q[|q| - 1])
  }

  // ---- What the loop keeps true ----

  /** Some taken path is p or a prefix of it. */
  ghost predicate Replaced(taken: seq<Path>, p: Path) {
    exists i :: 0 <= i < |taken| && taken[i] <= p
  }

  /** Some taken path lies strictly below p. */
  ghost predicate Above(taken: seq<Path>, p: Path) {
    exists i :: 0 <= i < |taken| && p < taken[i]
  }

  /** The tree under change is theirs below the taken paths and the original everywhere else,
      but for the mappings above a taken path. */
  ghost predicate Framed<V>(ours: Tree<V>, theirs: Tree<V>, s: State<V>) {
    forall p {:trigger Get(s.ours, p)} ::
      && (Replaced(s.taken, p) ==> Get(s.ours, p) == Get(theirs, p))
      && (!Replaced(s.taken, p) && !Above(s.taken, p) ==> Get(s.ours, p) == Get(ours, p))
      && (Above(s.taken, p) ==> Get(s.ours, p).Some? && Get(s.ours, p).value.Mapping?)
  }

  /** No taken path lies on the way to another: nothing is written into what came from theirs. */
  ghost predicate Apart(taken: seq<Path>) {
    forall i, j :: 0 <= i < |taken| && 0 <= j < |taken| && i != j ==> !(taken[i] <= taken[j])
  }

  /** Each taken path held the same in ours as in base, and theirs holds something else there. */
  ghost predicate TakenRightly<V>(base: Tree<V>, ours: Tree<V>, theirs: Tree<V>, taken: seq<Path>) {
    forall i {:trigger taken[i]} :: 0 <= i < |taken| ==>
      var r := taken[i];
      Get(theirs, r).Some? && Get(ours, r) == Get(base, r) && Get(ours, r) != Get(theirs, r)
  }

  ghost predicate Within(taken: seq<Path>, q: seq<Path>) {
    forall i :: 0 <= i < |taken| ==> taken[i] in q
  }

  ghost predicate Inv<V>(base: Tree<V>, ours: Tree<V>, theirs: Tree<V>, q: seq<Path>, s: State<V>) {
    && Framed(ours, theirs, s) && Apart(s.taken) && TakenRightly(base, ours, theirs, s.taken)
    && Within(s.taken, q)
  }

  lemma ReplacedOne(taken: seq<Path>, p: Path, q: Path)
    ensures Replaced(taken + [p], q) <==> Replaced(taken, q) || p <= q
    ensures Above(taken + [p], q) <==> Above(taken, q) || q < p
  {
    var more := taken + [p];
    if Replaced(taken, q) {
      var i :| 0 <= i < |taken| && taken[i] <= q;
      assert more[i] <= q;
    }
    if Above(taken, q) {
      var i :| 0 <= i < |taken| && q < taken[i];
      assert q < more[i];
    }
    assert more[|taken|] == p;
  }

  /** A path that may still be taken is neither under a taken one nor on the way to it. */
  lemma TakeIsFresh<V>(base: Tree<V>, ours: Tree<V>, theirs: Tree<V>, q: seq<Path>, s: State<V>, p: Path)
    requires Inv(base, ours, theirs, q, s) && PrefixFirst(q + [p])
    requires Get(s.ours, p) != Get(theirs, p)
    ensures !Replaced(s.taken, p) && !Above(s.taken, p)
    ensures Get(s.ours, p) == Get(ours, p)
  {
    ReachedInOrder(q, s.taken, p);
  }

  lemma NotAboveBelow(taken: seq<Path>, p: Path, q: Path)
    requires !Above(taken, p) && p <= q
    ensures !Above(taken, q)
  {
    forall i | 0 <= i < |taken| ensures !(q < taken[i]) {
      var r := taken[i];
      assert q < r ==> p < r;
    }
  }

  lemma NotReplacedAbove(taken: seq<Path>, p: Path, q: Path)
    requires !Replaced(taken, p) && q <= p
    ensures !Replaced(taken, q)
  {
    forall i | 0 <= i < |taken| ensures !(taken[i] <= q) {
      var r := taken[i];
      assert r <= q ==> r <= p;
    }
  }

  lemma TakeKeepsFrame<V>(ours: Tree<V>, theirs: Tree<V>, s: State<V>, p: Path, t: Tree<V>)
    requires Framed(ours, theirs, s) && !Replaced(s.taken, p) && !Above(s.taken, p)
    requires s.ours.Mapping? && p != [] && Get(theirs, p) == Some(t)
    ensures Framed(ours, theirs, s.(ours := Put(s.ours, p, t), taken := s.taken + [p]))
  {
    var u := s.(ours := Put(s.ours, p, t), taken := s.taken + [p]);
    forall q
      ensures Replaced(u.taken, q) ==> Get(u.ours, q) == Get(theirs, q)
      ensures !Replaced(u.taken, q) && !Above(u.taken, q) ==> Get(u.ours, q) == Get(ours, q)
      ensures Above(u.taken, q) ==> Get(u.ours, q).Some? && Get(u.ours, q).value.Mapping?
    {
      ReplacedOne(s.taken, p, q);
      if p <= q {
        GetPutAt(s.ours, p, t, q);
        assert q == p + q[|p|..];
        GetJoin(theirs, p, q[|p|..]);
        NotAboveBelow(s.taken, p, q);
      } else if q < p {
        GetPutAbove(s.ours, p, t, q);
        NotReplacedAbove(s.taken, p, q);
      } else {
        GetPutAside(s.ours, p, t, q);
      }
    }
  }

  lemma StepKeeps<V>(base: Tree<V>, ours: Tree<V>, theirs: Tree<V>, q: seq<Path>, s: State<V>, p: Path)
    requires Inv(base, ours, theirs, q, s) && PrefixFirst(q + [p])
    ensures Inv(base, ours, theirs, q + [p], Step(base, theirs, s, p))
  {
    var u := Step(base, theirs, s, p);
    if u.taken != s.taken {
      TakeIsFresh(base, ours, theirs, q, s, p);
      TakeKeepsFrame(ours, theirs, s, p, Get(theirs, p).value);
      TakeKeepsApart(s.taken, p);
    }
  }

  lemma TakeKeepsApart(taken: seq<Path>, p: Path)
    requires Apart(taken) && !Replaced(taken, p) && !Above(taken, p)
    ensures Apart(taken + [p])
  {
    var more := taken + [p];
    forall i, j | 0 <= i < |more| && 0 <= j < |more| && i != j ensures !(more[i] <= more[j]) {
      if i == |taken| {
        var r := taken[j];
        assert p <= r ==> r <= p || p < r;
      }
    }
  }

  lemma PrefixFirstInit(q: seq<Path>)
    requires PrefixFirst(q) && q != []
    ensures PrefixFirst(q[..|q| - 1])
  {
  }

  lemma {:induction false} RunKeeps<V>(base: Tree<V>, ours: Tree<V>, theirs: Tree<V>, q: seq<Path>)
    requires PrefixFirst(q)
    ensures Inv(base, ours, theirs, q, Run(base, ours, theirs, q))
  {
    if q == [] {
    } else {
      var before := q[..|q| - 1];
      PrefixFirstInit(q);
      RunKeeps(base, ours, theirs, before);
      assert q == before + [q[|q| - 1]];
      StepKeeps(base, ours, theirs, before, Run(base, ours, theirs, before), q[|q| - 1]);
    }
  }

  // ---- What becomes of each path ----

  ghost predicate Reported<V>(conflicts: seq<Conflict<V>>, p: Path) {
    exists i :: 0 <= i < |conflicts| && conflicts[i].path == p
  }

  /** p was overwritten together with what it lies in, or was left for a reason. */
  ghost predicate Settled<V>(base: Tree<V>, ours: Tree<V>, theirs: Tree<V>, s: State<V>, p: Path) {
    var b, o, t := Get(base, p), Get(ours, p), Get(theirs, p);
    || Replaced(s.taken, p)
    || o == t
    || (p in s.kept && t == b)
    || (Reported(s.conflicts, p) && t != b && !(o == b && t.Some?))
  }

  ghost predicate AllSettled<V>(base: Tree<V>, ours: Tree<V>, theirs: Tree<V>, q: seq<Path>, s: State<V>) {
    forall i {:trigger q[i]} :: 0 <= i < |q| ==> Settled(base, ours, theirs, s, q[i])
  }

  /** The paths kept, each listed because ours overrides base there and theirs does not move. */
  ghost predicate KeptRightly<V>(base: Tree<V>, ours: Tree<V>, theirs: Tree<V>, q: seq<Path>, s: State<V>) {
    forall p :: p in s.kept ==>
      p in q && !Replaced(s.taken, p) && Get(theirs, p) == Get(base, p) && Get(ours, p) != Get(base, p)
  }

  ghost predicate ClashRightly<V>(base: Tree<V>, ours: Tree<V>, theirs: Tree<V>, q: seq<Path>, s: State<V>) {
    forall i {:trigger s.conflicts[i]} :: 0 <= i < |s.conflicts| ==>
      var c := s.conflicts[i];
      && c.path in q && !Replaced(s.taken, c.path)
      && c.base == Get(base, c.path) && c.ours == Get(ours, c.path) && c.theirs == Get(theirs, c.path)
      && Decide(c.base, c.ours, c.theirs) == Clash
  }

  ghost predicate Books<V>(base: Tree<V>, ours: Tree<V>, theirs: Tree<V>, q: seq<Path>, s: State<V>) {
    && AllSettled(base, ours, theirs, q, s) && KeptRightly(base, ours, theirs, q, s)
    && ClashRightly(base, ours, theirs, q, s)
  }

  /** A path is not taken after one of its extensions has been dealt with. */
  lemma NotReplacedLater(q: seq<Path>, taken: seq<Path>, p: Path, r: Path)
    requires PrefixFirst(q + [p]) && r in q && !Replaced(taken, r)
    ensures !Replaced(taken + [p], r)
  {
    ReplacedOne(taken, p, r);
    var k :| 0 <= k < |q| && q[k] == r;
    assert (q + [p])[k] == r && (q + [p])[|q|] == p;
  }

  lemma StepSettles<V>(base: Tree<V>, ours: Tree<V>, theirs: Tree<V>, q: seq<Path>, s: State<V>, p: Path)
    requires Inv(base, ours, theirs, q, s) && PrefixFirst(q + [p])
    requires !Step(base, theirs, s, p).crashed && !s.crashed
    ensures Settled(base, ours, theirs, Step(base, theirs, s, p), p)
  {
    var u := Step(base, theirs, s, p);
    var b, o, t := Get(base, p), Get(s.ours, p), Get(theirs, p);
    if o == t {
      assert !Above(s.taken, p) by { ReachedInOrder(q, s.taken, p); }
    } else {
      TakeIsFresh(base, ours, theirs, q, s, p);
      match Decide(b, o, t)
      case Take =>
        assert u.taken[|s.taken|] == p;
      case Keep =>
        assert u.kept[|s.kept|] == p;
      case Clash =>
        assert u.conflicts[|s.conflicts|].path == p;
    }
  }

  lemma ReachedInOrder(q: seq<Path>, taken: seq<Path>, p: Path)
    requires PrefixFirst(q + [p]) && Within(taken, q)
    ensures !Above(taken, p)
  {
    forall i | 0 <= i < |taken| ensures !(p < taken[i]) {
      var k :| 0 <= k < |q| && q[k] == taken[i];
      assert (q + [p])[k] == taken[i] && (q + [p])[|q|] == p;
    }
  }

  lemma StepGrows<V>(base: Tree<V>, theirs: Tree<V>, s: State<V>, p: Path, r: Path)
    ensures var u := Step(base, theirs, s, p);
      && (Replaced(s.taken, r) ==> Replaced(u.taken, r)) && (r in s.kept ==> r in u.kept)
      && (Reported(s.conflicts, r) ==> Reported(u.conflicts, r))
  {
    var u := Step(base, theirs, s, p);
    ReplacedOne(s.taken, p, r);
    if Reported(s.conflicts, r) {
      var i :| 0 <= i < |s.conflicts| && s.conflicts[i].path == r;
      assert u.conflicts[i].path == r;
    }
  }

  lemma StepBooks<V>(base: Tree<V>, ours: Tree<V>, theirs: Tree<V>, q: seq<Path>, s: State<V>, p: Path)
    requires Inv(base, ours, theirs, q, s) && PrefixFirst(q + [p]) && Books(base, ours, theirs, q, s)
    requires !Step(base, theirs, s, p).crashed && !s.crashed
    ensures Books(base, ours, theirs, q + [p], Step(base, theirs, s, p))
  {
    var u, all := Step(base, theirs, s, p), q + [p];
    forall i | 0 <= i < |all| ensures Settled(base, ours, theirs, u, all[i]) {
      if i < |q| {
        assert Settled(base, ours, theirs, s, q[i]);
        StepGrows(base, theirs, s, p, q[i]);
      } else {
        StepSettles(base, ours, theirs, q, s, p);
      }
    }
    if Get(s.ours, p) != Get(theirs, p) {
      TakeIsFresh(base, ours, theirs, q, s, p);
    }
    forall r | r in q && !Replaced(s.taken, r) ensures !Replaced(u.taken, r) {
      NotReplacedLater(q, s.taken, p, r);
    }
    assert KeptRightly(base, ours, theirs, all, u);
    forall i | 0 <= i < |u.conflicts|
      ensures var c := u.conflicts[i];
        && c.path in all && !Replaced(u.taken, c.path)
        && c.base == Get(base, c.path) && c.ours == Get(ours, c.path) && c.theirs == Get(theirs, c.path)
        && Decide(c.base, c.ours, c.theirs) == Clash
    {
      if i < |s.conflicts| {
        assert u.conflicts[i] == s.conflicts[i];
      }
    }
  }

  lemma {:induction false} RunBooks<V>(base: Tree<V>, ours: Tree<V>, theirs: Tree<V>, q: seq<Path>)
    requires PrefixFirst(q) && !Run(base, ours, theirs, q).crashed
    ensures Books(base, ours, theirs, q, Run(base, ours, theirs, q))
  {
    if q == [] {
    } else {
      var before := q[..|q| - 1];
      PrefixFirstInit(q);
      RunKeeps(base, ours, theirs, before);
      RunBooks(base, ours, theirs, before);
      assert q == before + [q[|q| - 1]];
      StepBooks(base, ours, theirs, before, Run(base, ours, theirs, before), q[|q| - 1]);
    }
  }

  // ---- The result of a merge ----

  /** q lists the leaf paths of the three trees, prefixes first. */
  ghost predicate Lists<V>(q: seq<Path>, base: Tree<V>, ours: Tree<V>, theirs: Tree<V>) {
    PrefixFirst(q) && forall p :: p in q <==> p in Walk(base) + Walk(ours) + Walk(theirs)
  }

  /** r is what merge returns for some listing of the paths in which prefixes come first. */
  ghost predicate IsMerge<V>(base: Tree<V>, ours: Tree<V>, theirs: Tree<V>, r: State<V>) {
    exists q :: Lists(q, base, ours, theirs) && r == Run(base, ours, theirs, q)
  }

  /** At p the result is theirs, or it is our own override of something theirs did not move. */
  ghost predicate Merged<V>(base: Tree<V>, ours: Tree<V>, theirs: Tree<V>, r: State<V>, p: Path) {
    || Get(r.ours, p) == Get(theirs, p)
    || (p in r.kept && Get(theirs, p) == Get(base, p) && Get(r.ours, p) == Get(ours, p))
  }

  lemma SettledIsMerged<V>(base: Tree<V>, ours: Tree<V>, theirs: Tree<V>, q: seq<Path>, r: State<V>, p: Path)
    requires Inv(base, ours, theirs, q, r) && r.conflicts == [] && Settled(base, ours, theirs, r, p)
    ensures Merged(base, ours, theirs, r, p)
    ensures !Replaced(r.taken, p) ==> !Above(r.taken, p) && Get(r.ours, p) == Get(ours, p)
  {
    if !Replaced(r.taken, p) && Above(r.taken, p) {
      var i :| 0 <= i < |r.taken| && p < r.taken[i];
      if Get(ours, p) == Get(theirs, p) {
        SameBelow(ours, theirs, p, r.taken[i]);
      } else {
        SameBelow(theirs, base, p, r.taken[i]);
      }
    }
    assert Get(r.ours, p) == Get(r.ours, p);
  }

  /** A merge without conflicts, at every leaf path of the three trees: theirs, or an override of
      ours kept because theirs equals base there. */
  lemma ConflictFreeMerge<V>(base: Tree<V>, ours: Tree<V>, theirs: Tree<V>, r: State<V>, p: Path)
    requires IsMerge(base, ours, theirs, r) && !r.crashed && r.conflicts == []
    requires p in Walk(base) + Walk(ours) + Walk(theirs)
    ensures Merged(base, ours, theirs, r, p)
  {
    var q :| Lists(q, base, ours, theirs) && r == Run(base, ours, theirs, q);
    RunKeeps(base, ours, theirs, q);
    RunBooks(base, ours, theirs, q);
    var i :| 0 <= i < |q| && q[i] == p;
    SettledIsMerged(base, ours, theirs, q, r, q[i]);
  }

  // ---- Merging again ----

  /** The leaves of a conflict-free result were leaves of ours or of theirs. */
  lemma ResultLeaves<V>(base: Tree<V>, ours: Tree<V>, theirs: Tree<V>, q: seq<Path>, r: State<V>, p: Path)
    requires Inv(base, ours, theirs, q, r) && p in Walk(r.ours)
    ensures p in Walk(ours) + Walk(theirs)
  {
    WalkIsLeaves(r.ours, p);
    WalkIsLeaves(ours, p);
    WalkIsLeaves(theirs, p);
    assert Get(r.ours, p).value.Leaf?;
  }

  /** Where nothing is to be taken and nothing clashes, the loop only keeps. */
  lemma {:induction false} RunOnlyKeeps<V>(base: Tree<V>, done: Tree<V>, theirs: Tree<V>, q: seq<Path>)
    requires forall p :: p in q ==> Get(done, p) == Get(theirs, p) || Get(theirs, p) == Get(base, p)
    ensures var r := Run(base, done, theirs, q);
      && r.ours == done && r.taken == [] && r.conflicts == [] && !r.crashed
      && forall p :: p in r.kept <==> p in q && Get(done, p) != Get(theirs, p)
  {
    if q == [] {
    } else {
      var before := q[..|q| - 1];
      assert q == before + [q[|q| - 1]];
      RunOnlyKeeps(base, done, theirs, before);
    }
  }

  /** After a merge without conflicts, merging the result again takes nothing, reports nothing,
      changes nothing and keeps the same paths. */
  lemma MergeAgain<V>(base: Tree<V>, ours: Tree<V>, theirs: Tree<V>, r: State<V>, again: State<V>)
    requires IsMerge(base, ours, theirs, r) && !r.crashed && r.conflicts == []
    requires IsMerge(base, r.ours, theirs, again)
    ensures again.taken == [] && again.conflicts == [] && !again.crashed && again.ours == r.ours
    ensures forall p :: p in again.kept <==> p in r.kept
  {
    var q :| Lists(q, base, ours, theirs) && r == Run(base, ours, theirs, q);
    var q2 :| Lists(q2, base, r.ours, theirs) && again == Run(base, r.ours, theirs, q2);
    RunKeeps(base, ours, theirs, q);
    RunBooks(base, ours, theirs, q);
    forall p | p in q2 ensures p in q && Merged(base, ours, theirs, r, p) {
      if p in Walk(r.ours) { ResultLeaves(base, ours, theirs, q, r, p); }
      ConflictFreeMerge(base, ours, theirs, r, p);
    }
    RunOnlyKeeps(base, r.ours, theirs, q2);
    forall p ensures p in again.kept <==> p in r.kept {
      KeptAgain(base, ours, theirs, q, r, q2, p);
    }
  }

  lemma KeptAgain<V>(base: Tree<V>, ours: Tree<V>, theirs: Tree<V>, q: seq<Path>, r: State<V>, q2: seq<Path>, p: Path)
    requires Lists(q, base, ours, theirs) && Lists(q2, base, r.ours, theirs) && r.conflicts == []
    requires Inv(base, ours, theirs, q, r) && Books(base, ours, theirs, q, r)
    requires p in q2 ==> p in q && Merged(base, ours, theirs, r, p)
    ensures p in r.kept <==> p in q2 && Get(r.ours, p) != Get(theirs, p)
  {
    if p in r.kept {
      var i :| 0 <= i < |q| && q[i] == p;
      SettledIsMerged(base, ours, theirs, q, r, q[i]);
      WalkIsLeaves(ours, p);
      WalkIsLeaves(r.ours, p);
    }
  }

  // ---- Each path is listed once ----

  ghost function PathsOf<V>(conflicts: seq<Conflict<V>>): (q: seq<Path>)
    ensures |q| == |conflicts| && forall i :: 0 <= i < |q| ==> q[i] == conflicts[i].path
  {
    seq(|conflicts|, i requires 0 <= i < |conflicts| => conflicts[i].path)
  }

  lemma {:induction false} RunListsOnce<V>(base: Tree<V>, ours: Tree<V>, theirs: Tree<V>, q: seq<Path>)
    requires PrefixFirst(q)
    ensures var r := Run(base, ours, theirs, q);
      && Distinct(r.taken + r.kept + PathsOf(r.conflicts))
      && forall p :: p in r.taken + r.kept + PathsOf(r.conflicts) ==> p in q
  {
    if q == [] {
    } else {
      var n := |q| - 1;
      var s, r := Run(base, ours, theirs, q[..n]), Run(base, ours, theirs, q);
      PrefixFirstInit(q);
      RunListsOnce(base, ours, theirs, q[..n]);
      forall i | 0 <= i < n ensures q[i] != q[n] {
        assert !(q[n] <= q[i]);
      }
      StepLists(base, theirs, s, q[n]);
      var all := s.taken + s.kept + PathsOf(s.conflicts);
      forall p | p in all ensures p in q && p != q[n] {
        assert p in q[..n];
      }
    }
  }

  /** A step lists its path once, in one of the lists, or not at all. */
  lemma StepLists<V>(base: Tree<V>, theirs: Tree<V>, s: State<V>, p: Path)
    requires Distinct(s.taken + s.kept + PathsOf(s.conflicts)) && p !in s.taken + s.kept + PathsOf(s.conflicts)
    ensures var u := Step(base, theirs, s, p);
      && Distinct(u.taken + u.kept + PathsOf(u.conflicts))
      && forall r :: r in u.taken + u.kept + PathsOf(u.conflicts) ==>
           r == p || r in s.taken + s.kept + PathsOf(s.conflicts)
  {
    var u := Step(base, theirs, s, p);
    var before, after := s.taken + s.kept + PathsOf(s.conflicts), u.taken + u.kept + PathsOf(u.conflicts);
    if u.taken != s.taken {
      assert u.taken == s.taken + [p];
      assert before == s.taken + (s.kept + PathsOf(s.conflicts));
      InsertOnce(s.taken, s.kept + PathsOf(s.conflicts), p);
      assert after == s.taken + [p] + (s.kept + PathsOf(s.conflicts));
    } else if u.kept != s.kept {
      assert u.kept == s.kept + [p];
      InsertOnce(s.taken + s.kept, PathsOf(s.conflicts), p);
      assert after == (s.taken + s.kept) + [p] + PathsOf(s.conflicts);
    } else if u.conflicts != s.conflicts {
      assert PathsOf(u.conflicts) == PathsOf(s.conflicts) + [p];
      assert before + [] == before;
      InsertOnce(before, [], p);
      assert after == before + [p] + [];
    }
  }

  lemma InsertOnce<T>(a: seq<T>, b: seq<T>, x: T)
    requires Distinct(a + b) && x !in a + b
    ensures Distinct(a + [x] + b) && forall y :: y in a + [x] + b ==> y == x || y in a + b
  {
    var more := a + [x] + b;
    forall i, j | 0 <= i < j < |more| ensures more[i] != more[j] {
      assert more[i] == x || more[i] == (a + b)[if i < |a| then i else i - 1];
      assert more[j] == x || more[j] == (a + b)[if j < |a| then j else j - 1];
    }
    forall y | y in more ensures y == x || y in a + b {
      var i :| 0 <= i < |more| && more[i] == y;
      assert y == x || y == (a + b)[if i < |a| then i else i - 1];
    }
  }

  /** No path is listed twice, in one of the lists or in two of them, so their lengths count paths. */
  lemma ListedOnce<V>(base: Tree<V>, ours: Tree<V>, theirs: Tree<V>, r: State<V>)
    requires IsMerge(base, ours, theirs, r)
    ensures var all := r.taken + r.kept + PathsOf(r.conflicts);
      && (forall i, j :: 0 <= i < j < |all| ==> all[i] != all[j])
      && forall p :: p in all ==> p in Walk(base) + Walk(ours) + Walk(theirs)
  {
    var q :| Lists(q, base, ours, theirs) && r == Run(base, ours, theirs, q);
    RunListsOnce(base, ours, theirs, q);
    hide Run, Walk, PathsOf;
  }

  // ---- The path-local rule and where it stops ----

  lemma TakenListRule<V>(base: Tree<V>, ours: Tree<V>, theirs: Tree<V>, r: State<V>, p: Path)
    requires IsMerge(base, ours, theirs, r) && !r.crashed && p in Walk(base) + Walk(ours) + Walk(theirs)
    ensures var d := Decide(Get(base, p), Get(ours, p), Get(theirs, p));
      && (d == Take ==> Replaced(r.taken, p) && Get(r.ours, p) == Get(theirs, p))
      && (p in r.kept <==> d == Keep && !Replaced(r.taken, p))
      && (Reported(r.conflicts, p) <==> d == Clash && !Replaced(r.taken, p))
  {
    var q :| Lists(q, base, ours, theirs) && r == Run(base, ours, theirs, q);
    RunKeeps(base, ours, theirs, q);
    RunBooks(base, ours, theirs, q);
    assert p in q;
    hide *;
    ConflictsAt(base, ours, theirs, q, r, p);
    SettledAt(base, ours, theirs, q, r, p);
  }

  /** What the books say of a path outside every taken one. */
  lemma SettledAt<V>(base: Tree<V>, ours: Tree<V>, theirs: Tree<V>, q: seq<Path>, r: State<V>, p: Path)
    requires Inv(base, ours, theirs, q, r) && Books(base, ours, theirs, q, r) && p in q
    requires Reported(r.conflicts, p) ==> Decide(Get(base, p), Get(ours, p), Get(theirs, p)) == Clash
    requires Reported(r.conflicts, p) ==> !Replaced(r.taken, p)
    ensures var d := Decide(Get(base, p), Get(ours, p), Get(theirs, p));
      && (d == Take ==> Replaced(r.taken, p) && Get(r.ours, p) == Get(theirs, p))
      && (p in r.kept <==> d == Keep && !Replaced(r.taken, p))
      && (Reported(r.conflicts, p) <==> d == Clash && !Replaced(r.taken, p))
  {
    hide ClashRightly, Apart, TakenRightly, Within, Reported, Replaced, Above;
    assert Settled(base, ours, theirs, r, p);
    assert Replaced(r.taken, p) ==> Get(r.ours, p) == Get(theirs, p);
  }

  lemma ConflictsAt<V>(base: Tree<V>, ours: Tree<V>, theirs: Tree<V>, q: seq<Path>, r: State<V>, p: Path)
    requires Books(base, ours, theirs, q, r)
    ensures Reported(r.conflicts, p) ==>
      Decide(Get(base, p), Get(ours, p), Get(theirs, p)) == Clash && !Replaced(r.taken, p)
  {
    hide AllSettled, KeptRightly, Get, Replaced;
    if Reported(r.conflicts, p) {
      var j :| 0 <= j < |r.conflicts| && r.conflicts[j].path == p;
      assert r.conflicts[j].path == p;
    }
  }

  ghost predicate TakenAt<V>(base: Tree<V>, ours: Tree<V>, theirs: Tree<V>, p: Path) {
    Decide(Get(base, p), Get(ours, p), Get(theirs, p)) == Take
  }

  /** On the three documents as they came in: p or something it lies in is a leaf path at which the
      rule takes theirs. */
  ghost predicate Overwritten<V>(base: Tree<V>, ours: Tree<V>, theirs: Tree<V>, p: Path) {
    exists q :: q <= p && q in Walk(base) + Walk(ours) + Walk(theirs) && TakenAt(base, ours, theirs, q)
  }

  /** What ends up replaced by theirs, read off the three documents. */
  lemma WhatIsReplaced<V>(base: Tree<V>, ours: Tree<V>, theirs: Tree<V>, r: State<V>, p: Path)
    requires IsMerge(base, ours, theirs, r) && !r.crashed
    ensures Replaced(r.taken, p) <==> Overwritten(base, ours, theirs, p)
    ensures Overwritten(base, ours, theirs, p) ==> Get(r.ours, p) == Get(theirs, p)
  {
    var all := Walk(base) + Walk(ours) + Walk(theirs);
    if Replaced(r.taken, p) {
      var i :| 0 <= i < |r.taken| && r.taken[i] <= p;
      TakenPath(base, ours, theirs, r, i);
    }
    if Overwritten(base, ours, theirs, p) {
      var q :| q <= p && q in all && TakenAt(base, ours, theirs, q);
      TakenListRule(base, ours, theirs, r, q);
      var i :| 0 <= i < |r.taken| && r.taken[i] <= q;
      assert r.taken[i] <= p;
    }
    ReplacedReads(base, ours, theirs, r, p);
  }

  lemma TakenPath<V>(base: Tree<V>, ours: Tree<V>, theirs: Tree<V>, r: State<V>, i: nat)
    requires IsMerge(base, ours, theirs, r) && i < |r.taken|
    ensures r.taken[i] in Walk(base) + Walk(ours) + Walk(theirs) && TakenAt(base, ours, theirs, r.taken[i])
  {
    var q :| Lists(q, base, ours, theirs) && r == Run(base, ours, theirs, q);
    RunKeeps(base, ours, theirs, q);
    assert r.taken[i] in q;
  }

  lemma ReplacedReads<V>(base: Tree<V>, ours: Tree<V>, theirs: Tree<V>, r: State<V>, p: Path)
    requires IsMerge(base, ours, theirs, r)
    ensures Replaced(r.taken, p) ==> Get(r.ours, p) == Get(theirs, p)
  {
    var q :| Lists(q, base, ours, theirs) && r == Run(base, ours, theirs, q);
    RunKeeps(base, ours, theirs, q);
  }

  /** Read path by path on the three documents as they came in, the rule decides every leaf path
      that is not overwritten together with what it lies in. */
  lemma PathLocalRule<V>(base: Tree<V>, ours: Tree<V>, theirs: Tree<V>, r: State<V>, p: Path)
    requires IsMerge(base, ours, theirs, r) && !r.crashed && p in Walk(base) + Walk(ours) + Walk(theirs)
    ensures var d := Decide(Get(base, p), Get(ours, p), Get(theirs, p));
      var over := Overwritten(base, ours, theirs, p);
      && (over ==> Get(r.ours, p) == Get(theirs, p)) && (d == Take ==> over)
      && (p in r.kept <==> d == Keep && !over)
      && (Reported(r.conflicts, p) <==> d == Clash && !over)
  {
    TakenListRule(base, ours, theirs, r, p);
    WhatIsReplaced(base, ours, theirs, r, p);
    hide Walk, Get, Replaced, Reported;
    assert p <= p;
  }

  /** A leaf of ours on the way to a taken path is replaced by a mapping only where a conflict is
      reported for it: what ours held stays, gives way to theirs, or is reported. */
  lemma NothingIsLostSilently<V>(base: Tree<V>, ours: Tree<V>, theirs: Tree<V>, r: State<V>, p: Path)
    requires IsMerge(base, ours, theirs, r) && !r.crashed && p in Walk(ours)
    ensures Above(r.taken, p) ==> Reported(r.conflicts, p)
    ensures Get(r.ours, p) == Get(ours, p) || Get(r.ours, p) == Get(theirs, p) || Reported(r.conflicts, p)
  {
    if Above(r.taken, p) {
      var i :| 0 <= i < |r.taken| && p < r.taken[i];
      LeafInTheWay(base, ours, theirs, r, p, i);
    }
    ReadsWhereNotAbove(base, ours, theirs, r, p);
  }

  lemma ReadsWhereNotAbove<V>(base: Tree<V>, ours: Tree<V>, theirs: Tree<V>, r: State<V>, p: Path)
    requires IsMerge(base, ours, theirs, r)
    ensures !Above(r.taken, p) ==> Get(r.ours, p) == Get(ours, p) || Get(r.ours, p) == Get(theirs, p)
  {
    var q :| Lists(q, base, ours, theirs) && r == Run(base, ours, theirs, q);
    RunKeeps(base, ours, theirs, q);
  }

  lemma LeafInTheWay<V>(base: Tree<V>, ours: Tree<V>, theirs: Tree<V>, r: State<V>, p: Path, i: nat)
    requires IsMerge(base, ours, theirs, r) && !r.crashed && p in Walk(ours)
    requires i < |r.taken| && p < r.taken[i]
    ensures Reported(r.conflicts, p)
  {
    var below := r.taken[i];
    TakenPath(base, ours, theirs, r, i);
    WalkIsLeaves(ours, p);
    FoundThrough(theirs, p, below);
    if Get(base, p) == Get(ours, p) || Get(base, p) == Get(theirs, p) {
      if Get(ours, below).Some? { FoundThrough(ours, p, below); }
      if Get(base, p) == Get(theirs, p) { SameBelow(base, theirs, p, below); }
    }
    TakenListRule(base, ours, theirs, r, p);
    forall j | 0 <= j < |r.taken| ensures !(r.taken[j] <= p) {
      if j != i { TheirsIsNotWritten(base, ours, theirs, r, j, i); }
      var other := r.taken[j];
      assert other <= p ==> other <= below;
    }
  }

  /** No path that is written lies inside a subtree that came from theirs, so sharing those
      subtrees with theirs never changes theirs. */
  lemma TheirsIsNotWritten<V>(base: Tree<V>, ours: Tree<V>, theirs: Tree<V>, r: State<V>, i: nat, j: nat)
    requires IsMerge(base, ours, theirs, r) && i < |r.taken| && j < |r.taken| && i != j
    ensures !(r.taken[i] <= r.taken[j])
  {
    var q :| Lists(q, base, ours, theirs) && r == Run(base, ours, theirs, q);
    RunKeeps(base, ours, theirs, q);
  }

  /** The rule as the module's own table states it. */
  function DocumentedRule<V(==)>(b: Option<Tree<V>>, o: Option<Tree<V>>, t: Option<Tree<V>>): Decision {
    if o == t then Same
    else if o == b then Take
    else if t == b then Keep
    else Clash
  }

  /** The code departs from the table exactly where upstream dropped something we had not
      touched: that is reported as a conflict instead of being taken. */
  lemma DroppedUpstream<V>(b: Option<Tree<V>>, o: Option<Tree<V>>, t: Option<Tree<V>>)
    ensures Decide(b, o, t) == DocumentedRule(b, o, t) <==> !(o == b && o.Some? && t == None)
    ensures o == b && o.Some? && t == None ==> Decide(b, o, t) == Clash && DocumentedRule(b, o, t) == Take
  {
  }

  /** A leaf that upstream drops and that we never touched is reported, although the table would
      have the upstream state taken, exactly where no prefix of it, alike in ours and base, is a
      leaf of theirs. */
  lemma DeletionIsReported<V>(base: Tree<V>, ours: Tree<V>, theirs: Tree<V>, r: State<V>, p: Path)
    requires IsMerge(base, ours, theirs, r) && !r.crashed && p in Walk(ours)
    requires Get(base, p) == Get(ours, p) && Get(theirs, p) == None
    ensures DocumentedRule(Get(base, p), Get(ours, p), Get(theirs, p)) == Take
    ensures Reported(r.conflicts, p) <==> !exists q :: q < p && q in Walk(theirs) && Get(ours, q) == Get(base, q)
  {
    hide Walk, Get, IsMerge, Reported;
    PathLocalRule(base, ours, theirs, r, p);
    WalkIsLeaves(ours, p);
    assert !TakenAt(base, ours, theirs, p);
    if q :| q <= p && q in Walk(base) + Walk(ours) + Walk(theirs) && TakenAt(base, ours, theirs, q) {
      assert q == p || q < p;
      TakenAboveLeaf(base, ours, theirs, p, q);
    }
    if q :| q < p && q in Walk(theirs) && Get(ours, q) == Get(base, q) {
      TakenAboveLeaf(base, ours, theirs, p, q);
      assert q <= p;
    }
  }

  /** On the way to a leaf that ours and base share the rule takes only leaves of theirs. */
  lemma TakenAboveLeaf<V>(base: Tree<V>, ours: Tree<V>, theirs: Tree<V>, p: Path, q: Path)
    requires p in Walk(ours) && Get(base, p) == Get(ours, p) && q < p
    ensures q in Walk(base) + Walk(ours) + Walk(theirs) && TakenAt(base, ours, theirs, q)
       <==> q in Walk(theirs) && Get(ours, q) == Get(base, q)
  {
    hide Walk, Get;
    WalkIsLeaves(ours, p);
    FoundThrough(ours, q, p);
    FoundThrough(base, q, p);
    WalkIsLeaves(base, q);
    WalkIsLeaves(ours, q);
    WalkIsLeaves(theirs, q);
  }

  /** a: 1 in base and ours, and nothing upstream: a conflict, so nothing is written. */
  lemma DroppedLeafIsKept(r: State<int>)
    requires var both := Mapping(map["a" := Leaf(1)]); IsMerge(both, both, Mapping(map[]), r)
    ensures !r.crashed && Reported(r.conflicts, ["a"])
    ensures r.conflicts != []
  {
    var both: Tree<int>, theirs: Tree<int> := Mapping(map["a" := Leaf(1)]), Mapping(map[]);
    WhenTheMergeRaises(both, both, theirs, r);
    assert Get(both, ["a"]) == Some(Leaf(1)) by { assert ["a"][1..] == []; }
    WalkIsLeaves(both, ["a"]);
    forall q: Path | q < ["a"] ensures q !in Walk(theirs) {
      assert q == [];
      WalkIsLeaves(theirs, q);
    }
    DeletionIsReported(both, both, theirs, r, ["a"]);
  }

  // ---- When put raises ----

  /** The merge raises exactly where ours is the unchanged base, theirs differs and one of the two
      is no mapping, or where ours is no mapping and theirs has a leaf below the root where base
      has nothing. */
  lemma WhenTheMergeRaises<V>(base: Tree<V>, ours: Tree<V>, theirs: Tree<V>, r: State<V>)
    requires IsMerge(base, ours, theirs, r)
    ensures r.crashed <==>
      || (base == ours && ours != theirs && (ours.Leaf? || theirs.Leaf?))
      || (ours.Leaf? && exists p :: p in Walk(theirs) && p != [] && Get(base, p) == None)
  {
    var q :| Lists(q, base, ours, theirs) && r == Run(base, ours, theirs, q);
    WalkIsLeaves(base, []);
    WalkIsLeaves(ours, []);
    WalkIsLeaves(theirs, []);
    if ours.Mapping? {
      CrashPoint(base, ours, theirs, q);
      if [] in q {
        var k :| 0 <= k < |q| && q[k] == [];
        assert q[k] <= q[0];
        assert k == 0;
      }
    } else {
      BareCrash(base, ours, theirs, q);
      BareListing(base, ours, theirs, q);
    }
  }

  /** An empty document, vendored as it was, and a mapping upstream: the merge raises. */
  lemma EmptyDocumentRaises(empty: int, r: State<int>)
    requires IsMerge(Leaf(empty), Leaf(empty), Mapping(map["a" := Leaf(1)]), r)
    ensures r.crashed
  {
    WhenTheMergeRaises(Leaf(empty), Leaf(empty), Mapping(map["a" := Leaf(1)]), r);
  }

  /** On a document of ours that is no mapping, nothing is ever written: the first path to be taken
      raises. */
  lemma {:induction false} BareCrash<V>(base: Tree<V>, ours: Tree<V>, theirs: Tree<V>, q: seq<Path>)
    requires ours.Leaf?
    ensures Run(base, ours, theirs, q).ours == ours
    ensures Run(base, ours, theirs, q).crashed <==> exists i :: 0 <= i < |q| && TakenAt(base, ours, theirs, q[i])
  {
    if q == [] {
    } else {
      var before, s := q[..|q| - 1], Run(base, ours, theirs, q[..|q| - 1]);
      BareCrash(base, ours, theirs, before);
      if s.crashed {
        var i :| 0 <= i < |before| && TakenAt(base, ours, theirs, before[i]);
        assert TakenAt(base, ours, theirs, q[i]);
      } else {
        forall i | 0 <= i < |q| - 1 ensures !TakenAt(base, ours, theirs, q[i]) {
          assert before[i] == q[i];
        }
        assert Run(base, ours, theirs, q).crashed <==> TakenAt(base, ours, theirs, q[|q| - 1]);
      }
    }
  }

  /** Which of the listed paths are to be taken on such a document. */
  lemma BareListing<V>(base: Tree<V>, ours: Tree<V>, theirs: Tree<V>, q: seq<Path>)
    requires ours.Leaf? && Lists(q, base, ours, theirs)
    ensures (exists i :: 0 <= i < |q| && TakenAt(base, ours, theirs, q[i])) <==>
      || (base == ours && ours != theirs)
      || exists p :: p in Walk(theirs) && p != [] && Get(base, p) == None
  {
    assert [] in q;
    if i :| 0 <= i < |q| && TakenAt(base, ours, theirs, q[i]) {
      BareTakes(base, ours, theirs, q[i]);
    }
    if p :| p in Walk(theirs) && p != [] && Get(base, p) == None {
      WalkIsLeaves(theirs, p);
      assert p in q;
      assert TakenAt(base, ours, theirs, p);
    }
    if base == ours && ours != theirs {
      assert TakenAt(base, ours, theirs, []);
    }
  }

  lemma BareTakes<V>(base: Tree<V>, ours: Tree<V>, theirs: Tree<V>, p: Path)
    requires ours.Leaf? && TakenAt(base, ours, theirs, p) && p in Walk(base) + Walk(ours) + Walk(theirs)
    ensures p == [] ==> base == ours && ours != theirs
    ensures p != [] ==> p in Walk(theirs) && Get(base, p) == None
  {
    WalkIsLeaves(base, p);
    WalkIsLeaves(ours, p);
  }

  lemma {:induction false} CrashPoint<V>(base: Tree<V>, ours: Tree<V>, theirs: Tree<V>, q: seq<Path>)
    requires ours.Mapping? && PrefixFirst(q)
    ensures Run(base, ours, theirs, q).ours.Mapping?
    ensures Run(base, ours, theirs, q).crashed <==> q != [] && q[0] == [] && ours == base && ours != theirs
  {
    if q == [] {
    } else {
      var before := q[..|q| - 1];
      PrefixFirstInit(q);
      CrashPoint(base, ours, theirs, before);
      if before != [] {
        var first, last := q[0], q[|q| - 1];
        assert last == [] ==> last <= first;
      }
    }
  }

  // ---- The operations ----

  /** No path of s is a proper prefix of p. */
  predicate NoneBelow(s: set<Path>, p: Path) {
    forall r :: r in s ==> !(r < p)
  }

  /** The paths, in an order in which prefixes come first, such as that of sorted. */
  method ListPaths(paths: set<Path>) returns (q: seq<Path>)
    ensures PrefixFirst(q) && forall p :: p in q <==> p in paths
  {
    q := [];
    var rest := paths;
    while rest != {}
      invariant rest <= paths && forall p :: p in q <==> p in paths - rest
      invariant PrefixFirst(q)
      invariant forall p, r :: p in q && r in rest ==> !(r <= p)
      decreases |rest|
    {
      ghost var shortest := ShortestExists(rest);
      var p :| p in rest && NoneBelow(rest, p);
      AppendPrefixFirst(q, p);
      forall r | r in rest - {p} ensures !(r <= p) {
        assert NoneBelow(rest, p) && r in rest;
        assert !(r < p);
        assert r <= p ==> r < p || r == p;
      }
      q := q + [p];
      rest := rest - {p};
    }
  }

  lemma AppendPrefixFirst(q: seq<Path>, p: Path)
    requires PrefixFirst(q) && forall r :: r in q ==> !(p <= r)
    ensures PrefixFirst(q + [p])
  {
    var more := q + [p];
    forall i, j | 0 <= i < j < |more| ensures !(more[j] <= more[i]) {
      if j == |q| {
        assert more[i] == q[i] && q[i] in q;
      }
    }
  }

  lemma ShortestExists(s: set<Path>) returns (p: Path)
    requires s != {}
    ensures p in s && NoneBelow(s, p)
  {
    p :| p in s;
    while !NoneBelow(s, p)
      invariant p in s
      decreases |p|
    {
      var r :| r in s && r < p;
      p := r;
    }
  }

  lemma RunSnoc<V>(base: Tree<V>, ours: Tree<V>, theirs: Tree<V>, q: seq<Path>, i: nat)
    requires i < |q|
    ensures Run(base, ours, theirs, q[..i + 1]) == Step(base, theirs, Run(base, ours, theirs, q[..i]), q[i])
  {
    assert q[..i + 1][..i] == q[..i];
  }

  /** The document under merge, held by reference and changed in place, and the three lists. */
  class Merger<V(==)> {
    var ours: Tree<V>
    var taken: seq<Path>
    var kept: seq<Path>
    var conflicts: seq<Conflict<V>>
    var raised: bool

    ghost function View(): State<V>
      reads this
    {
      State(ours, taken, kept, conflicts, raised)
    }

    constructor (ours: Tree<V>)
      ensures View() == Start(ours)
    {
      this.ours := ours;
      taken, kept, conflicts, raised := [], [], [], false;
    }

    /** put: walk down, assigning an empty mapping wherever there is none, and assign the value at
        the end. It raises on the empty path and on a document that is not a mapping. */
    method PutAt(path: Path, value: Tree<V>)
      modifies this`ours, this`raised
      ensures path == [] || !old(ours).Mapping? ==> raised && ours == old(ours)
      ensures path != [] && old(ours).Mapping? ==> raised == old(raised) && ours == Put(old(ours), path, value)
    {
      if path == [] || !ours.Mapping? {
        raised := true;
        return;
      }
      var last := |path| - 1;
      for i := 0 to last
        invariant raised == old(raised) && MappingAt(ours, path[..i])
        invariant Put(ours, path, value) == Put(old(ours), path, value)
      {
        var node := Follow(ours, path[..i]);
        NextOnTheWay(ours, path, i);
        if path[i] !in node.value.entries || !node.value.entries[path[i]].Mapping? {
          OpenKeepsPut(ours, path, value, i);
          ours := Assign(ours, path[..i], path[i], Mapping(map[]));
        }
      }
      AssignIsPut(ours, path, value);
      ours := Assign(ours, path[..last], path[last], value);
    }

    /** The body of the loop, which reads ours as the earlier paths have left it. */
    method One(base: Tree<V>, theirs: Tree<V>, path: Path)
      requires !raised
      modifies this
      ensures View() == Step(base, theirs, old(View()), path)
    {
      var b := Follow(base, path);
      var o := Follow(ours, path);
      var t := Follow(theirs, path);
      if o == t {
        return;
      }
      if o == b && t.Some? {
        PutAt(path, t.value);
        if !raised {
          taken := taken + [path];
        }
      } else if t == b {
        kept := kept + [path];
      } else {
        conflicts := conflicts + [Conflict(path, b, o, t)];
      }
    }

    /** merge */
    method Merge(base: Tree<V>, theirs: Tree<V>)
      requires View() == Start(ours)
      modifies this
      ensures IsMerge(base, old(ours), theirs, View())
    {
      var paths := ListPaths(Walk(base) + Walk(ours) + Walk(theirs));
      for i := 0 to |paths|
        invariant View() == Run(base, old(ours), theirs, paths[..i])
      {
        RunSnoc(base, old(ours), theirs, paths, i);
        if !raised {
          One(base, theirs, paths[i]);
        }
      }
      assert paths[..|paths|] == paths;
      assert Lists(paths, base, old(ours), theirs);
    }
  }

  /** main: the merged document is written only with --apply and only without conflicts, and then
      it holds, at every leaf path, theirs or an override of ours that theirs did not move. */
  method Revendor<V(==)>(base: Tree<V>, vendored: Tree<V>, theirs: Tree<V>, apply: bool)
    returns (written: Option<Tree<V>>, failed: bool)
    ensures exists r :: (IsMerge(base, vendored, theirs, r) && (failed <==> r.crashed || r.conflicts != [])
                         && written == if apply && !failed then Some(r.ours) else None)
    ensures written.Some? ==> forall p :: p in Walk(base) + Walk(vendored) + Walk(theirs) ==>
      (Get(written.value, p) == Get(theirs, p)
      || (Get(theirs, p) == Get(base, p) && Get(written.value, p) == Get(vendored, p)))
  {
    var merger := new Merger(vendored);
    merger.Merge(base, theirs);
    ghost var r := merger.View();
    failed := merger.raised || merger.conflicts != [];
    written := if apply && !failed then Some(merger.ours) else None;
    if !failed {
      forall p | p in Walk(base) + Walk(vendored) + Walk(theirs) ensures Merged(base, vendored, theirs, r, p) {
        ConflictFreeMerge(base, vendored, theirs, r, p);
      }
    }
  }
}
