/** The way through: prepare, the upgrade and finish can be carried to the end, and the state has
    then arrived (hack/migrate-to-pvc.py:213-371). */
module MigrationCompletes {
  import opened Migration
  import opened Options

  ghost predicate At(marker: string, run: seq<System>, c: Cluster, p: Prepare, f: Finish) {
    IsRun(marker, run) && run[|run| - 1] == System(c, p, f)
  }

  /** One step further. */
  lemma Go(marker: string, run: seq<System>, c: Cluster, p: Prepare, f: Finish, d: Cluster, p': Prepare, f': Finish)
    returns (more: seq<System>)
    requires At(marker, run, c, p, f) && Next(marker, System(c, p, f), System(d, p', f'))
    ensures At(marker, more, d, p', f') && run <= more && |more| == |run| + 1
  {
    more := run + [System(d, p', f')];
    forall i | 0 <= i < |more| - 1 ensures Moves(marker, more, i) {
      if i < |run| - 1 {
        assert Moves(marker, run, i);
      }
    }
  }

  lemma ByPrepare(marker: string, run: seq<System>, c: Cluster, p: Prepare, d: Cluster, p': Prepare)
    returns (more: seq<System>)
    requires At(marker, run, c, p, NotFinishing) && PrepareStep(marker, c, p, d, p')
    ensures At(marker, more, d, p', NotFinishing) && run <= more
  {
    hide At, PrepareStep;
    more := Go(marker, run, c, p, NotFinishing, d, p', NotFinishing);
  }

  lemma ByFinish(marker: string, run: seq<System>, c: Cluster, f: Finish, d: Cluster, f': Finish)
    returns (more: seq<System>)
    requires At(marker, run, c, NotPreparing, f) && FinishStep(c, f, d, f')
    ensures At(marker, more, d, NotPreparing, f') && run <= more
  {
    hide At, FinishStep;
    more := Go(marker, run, c, NotPreparing, f, d, NotPreparing, f');
  }

  lemma ByOthers(marker: string, run: seq<System>, c: Cluster, p: Prepare, f: Finish, d: Cluster)
    returns (more: seq<System>)
    requires At(marker, run, c, p, f)
    requires ControllerStep(c, d) || PodStep(c, d) || CopierStep(c, d) || OperatorStep(c, p, f, d)
    ensures At(marker, more, d, p, f) && run <= more
  {
    hide At, ControllerStep, PodStep, CopierStep, OperatorStep;
    more := Go(marker, run, c, p, f, d, p, f);
  }

  /** A pass that is under way ends, and the server's pod is scheduled. */
  lemma Settle(marker: string, run: seq<System>, c: Cluster) returns (more: seq<System>, d: Cluster)
    requires At(marker, run, c, NotPreparing, NotFinishing) && c.sts == Some(StatefulSet(HostPath, 1))
    ensures At(marker, more, d, NotPreparing, NotFinishing) && run <= more
    ensures d == c.(reconciling := None, pod := d.pod) && d.pod.Some? && d.pod.value.scheduled
  {
    hide At;
    more, d := run, c;
    if c.reconciling.Some? {
      d := c.(reconciling := None);
      more := ByOthers(marker, run, c, NotPreparing, NotFinishing, d);
    }
    var pod := if d.pod.Some? then d.pod.value.(scheduled := true) else Pod(HostPath, true, false);
    more := ByOthers(marker, more, d, NotPreparing, NotFinishing, d.(pod := Some(pod)));
    d := d.(pod := Some(pod));
  }

  /** prepare up to the scale-down. */
  lemma Stop(marker: string, run: seq<System>, c: Cluster) returns (more: seq<System>)
    requires At(marker, run, c, NotPreparing, NotFinishing) && c.sts == Some(StatefulSet(HostPath, 1))
    requires c.pod.Some? && c.pod.value.scheduled
    ensures var d := c.(paused := true, sts := Some(StatefulSet(HostPath, 0)), scaleDowns := c.scaleDowns + 1);
      At(marker, more, d, ScaledDown, NotFinishing) && run <= more
  {
    hide At;
    var paused := c.(paused := true);
    var d := paused.(sts := Some(StatefulSet(HostPath, 0)), scaleDowns := c.scaleDowns + 1);
    more := ByPrepare(marker, run, c, NotPreparing, c, GotComposition(true, c.paused));
    more := ByPrepare(marker, more, c, GotComposition(true, c.paused), c, GotSet(true, c.paused));
    more := ByPrepare(marker, more, c, GotSet(true, c.paused), c, GotNode(true, c.paused));
    more := ByPrepare(marker, more, c, GotNode(true, c.paused), paused, PauseSet(true));
    more := ByPrepare(marker, more, paused, PauseSet(true), d, ScaledDown);
  }

  /** The server stops, and the guard and the probe pass. */
  lemma Probe(marker: string, run: seq<System>, c: Cluster) returns (more: seq<System>)
    requires At(marker, run, c, ScaledDown, NotFinishing) && c.sts == Some(StatefulSet(HostPath, 0))
    requires c.pod.Some? && c.reconciling.None? && marker in c.node
    ensures At(marker, more, c.(pod := None), Probed(InventoryOf(c.node), c.node), NotFinishing) && run <= more
  {
    hide At, InventoryOf;
    var d := c.(pod := None);
    more := ByOthers(marker, run, c, ScaledDown, NotFinishing, d);
    more := ByPrepare(marker, more, d, ScaledDown, d, PodGone);
    more := ByPrepare(marker, more, d, PodGone, d, Guarded);
    more := ByPrepare(marker, more, d, Guarded, d, Held);
    more := ByPrepare(marker, more, d, Held, d, Probed(InventoryOf(d.node), d.node));
  }

  /** A claim is there, as a new volume is. */
  lemma Claim(marker: string, run: seq<System>, c: Cluster, src: Inventory, path: Dir)
    returns (more: seq<System>, claim: Dir)
    requires At(marker, run, c, Probed(src, path), NotFinishing)
    requires c.claim.Some? ==> NewVolume(c.claim.value)
    ensures NewVolume(claim) && run <= more
    ensures At(marker, more, c.(claim := Some(claim)), HasClaim(src, path), NotFinishing)
  {
    hide At;
    if c.claim.Some? {
      claim := c.claim.value;
      more := ByPrepare(marker, run, c, Probed(src, path), c, HasClaim(src, path));
      assert c == c.(claim := Some(claim));
    } else {
      claim := map[];
      more := ByPrepare(marker, run, c, Probed(src, path), c, NoClaimYet(src, path));
      more := ByPrepare(marker, more, c, NoClaimYet(src, path), c.(claim := Some(claim)), HasClaim(src, path));
    }
  }

  /** The copy pod fills the claim and counts it. */
  lemma Copy(marker: string, run: seq<System>, c: Cluster, src: Inventory, path: Dir, full: Dir)
    returns (more: seq<System>)
    requires At(marker, run, c, HasClaim(src, path), NotFinishing) && c.claim.Some? && NewVolume(c.claim.value)
    ensures var d := c.(claim := Some(full), copier := NoCopy);
      At(marker, more, d, Copied(src, path, InventoryOf(full)), NotFinishing) && run <= more
  {
    hide At, InventoryOf;
    var none, wait, write := c.(copier := NoCopy), c.(copier := Waiting), c.(copier := Writing);
    var copied := write.(claim := Some(full));
    var ended := copied.(copier := Ended(true, InventoryOf(full)));
    more := ByPrepare(marker, run, c, HasClaim(src, path), none, Cleared(src, path));
    more := ByPrepare(marker, more, none, Cleared(src, path), wait, Copying(src, path));
    assert OnlyLostFound(wait.claim.value) by { assert "lost+found" <= "lost+found"; }
    more := ByOthers(marker, more, wait, Copying(src, path), NotFinishing, write);
    more := ByOthers(marker, more, write, Copying(src, path), NotFinishing, copied);
    more := ByOthers(marker, more, copied, Copying(src, path), NotFinishing, ended);
    var counted := Copied(src, path, InventoryOf(full));
    more := ByPrepare(marker, more, ended, Copying(src, path), ended.(copier := NoCopy), counted);
  }

  /** The copy agrees, and prepare deletes the old StatefulSet. */
  lemma Delete(marker: string, run: seq<System>, c: Cluster, path: Dir, full: Dir) returns (more: seq<System>, k: nat)
    requires At(marker, run, c, Copied(InventoryOf(path), path, InventoryOf(full)), NotFinishing)
    requires OldSet(c) && Agree(InventoryOf(path), InventoryOf(full))
    ensures var d := c.(sts := None, removal := Some(Removal(c.node, c.claim)));
      At(marker, more, d, NotPreparing, NotFinishing) && run <= more
    ensures k + 1 < |more| && more[k].prepare.Compared? && OldSet(more[k].cluster) && !OldSet(more[k + 1].cluster)
  {
    hide InventoryOf;
    var src, dst := InventoryOf(path), InventoryOf(full);
    var d := c.(sts := None, removal := Some(Removal(c.node, c.claim)));
    var before := ByPrepare(marker, run, c, Copied(src, path, dst), c, Compared(src, path, dst));
    k := |before| - 1;
    more := Go(marker, before, c, Compared(src, path, dst), NotFinishing, d, NotPreparing, NotFinishing);
    LastStep(before, more, k);
  }

  lemma LastStep(run: seq<System>, more: seq<System>, k: nat)
    requires run <= more && k < |run|
    ensures more[k] == run[k]
  {
  }

  /** The upgrade, and finish up to the wait: it lifts the pause. */
  lemma Unpause(marker: string, run: seq<System>, c: Cluster) returns (more: seq<System>)
    requires At(marker, run, c, NotPreparing, NotFinishing) && c.paused && c.sts.None? && c.claim.Some?
    ensures At(marker, more, c.(version := Wanted, paused := false), NotPreparing, Awaiting(true)) && run <= more
  {
    hide At;
    var d := c.(version := Wanted);
    more := ByOthers(marker, run, c, NotPreparing, NotFinishing, d);
    more := ByFinish(marker, more, d, NotFinishing, d, ReadComposition(true, true, Wanted));
    more := ByFinish(marker, more, d, ReadComposition(true, true, Wanted), d, ReadClaim(true, true, Wanted));
    more := ByFinish(marker, more, d, ReadClaim(true, true, Wanted), d, SetFine(true, true, Wanted));
    more := ByFinish(marker, more, d, SetFine(true, true, Wanted), d, VersionFine(true, true));
    more := ByFinish(marker, more, d, VersionFine(true, true), d.(paused := false), Awaiting(true));
  }

  /** The controller creates the new StatefulSet, its pod becomes Ready, and finish ends. */
  lemma Adopt(marker: string, run: seq<System>, c: Cluster) returns (more: seq<System>)
    requires At(marker, run, c, NotPreparing, Awaiting(true)) && !c.paused && c.version == Wanted
    requires c.sts.None? && c.pod.None? && c.reconciling.None? && c.claim.Some?
    ensures var d := c.(sts := Some(StatefulSet(Claims, 1)), pod := Some(Pod(Claims, true, true)));
      At(marker, more, d, NotPreparing, Finished) && run <= more
  {
    hide At;
    var pass := c.(reconciling := Some(Wanted));
    var created := c.(sts := Some(StatefulSet(Claims, 1)));
    var waiting := created.(pod := Some(Pod(Claims, true, false)));
    var ready := created.(pod := Some(Pod(Claims, true, true)));
    more := ByOthers(marker, run, c, NotPreparing, Awaiting(true), pass);
    more := ByOthers(marker, more, pass, NotPreparing, Awaiting(true), created);
    more := ByOthers(marker, more, created, NotPreparing, Awaiting(true), waiting);
    more := ByOthers(marker, more, waiting, NotPreparing, Awaiting(true), ready);
    more := ByFinish(marker, more, ready, Awaiting(true), ready, Finished);
  }

  /** What a complete copy on that volume agrees with. */
  lemma CompleteCopyAgrees(path: Dir, claim: Dir)
    requires NewVolume(claim)
    ensures Agree(InventoryOf(path), InventoryOf(CopyOf(path, claim != map[])))
  {
    WhatTheComparisonShows(path, path, claim != map[]);
  }

  /** From every state that a run has reached in which neither phase runs, the old StatefulSet has
      its one replica, the node path holds the marker and the claim is missing or new, the run can
      go on so that prepare deletes the old StatefulSet, finish completes and the state has
      arrived, without anyone interfering by hand. */
  lemma CanComplete(marker: string, run: seq<System>) returns (more: seq<System>, k: nat)
    requires IsRun(marker, run)
    requires var s := run[|run| - 1];
      && s.prepare.NotPreparing? && s.finish.NotFinishing? && s.cluster.sts == Some(StatefulSet(HostPath, 1))
      && marker in s.cluster.node && (s.cluster.claim.Some? ==> NewVolume(s.cluster.claim.value))
    ensures IsRun(marker, more) && run <= more
    ensures var s, t := run[|run| - 1], more[|more| - 1];
      && t.finish.Finished? && Arrived(marker, t.cluster) && !t.cluster.paused
      && t.cluster.removal.value.node == s.cluster.node && t.cluster.byHand == s.cluster.byHand
    ensures k + 1 < |more| && more[k].prepare.Compared? && OldSet(more[k].cluster) && !OldSet(more[k + 1].cluster)
  {
    var c := run[|run| - 1].cluster;
    RunInv(marker, run, |run| - 1);
    var a, settled := Settle(marker, run, c);
    var b := Stop(marker, a, settled);
    var stopped := settled.(paused := true, sts := Some(StatefulSet(HostPath, 0)), scaleDowns := c.scaleDowns + 1);
    var d := Probe(marker, b, stopped);
    var quiet := stopped.(pod := None);
    var e, claim := Claim(marker, d, quiet, InventoryOf(c.node), c.node);
    var full := CopyOf(c.node, claim != map[]);
    var f := Copy(marker, e, quiet.(claim := Some(claim)), InventoryOf(c.node), c.node, full);
    CompleteCopyAgrees(c.node, claim);
    var copied := quiet.(claim := Some(full), copier := NoCopy);
    var g, at := Delete(marker, f, copied, c.node, full);
    var deleted := copied.(sts := None, removal := Some(Removal(c.node, Some(full))));
    var h := Unpause(marker, g, deleted);
    more := Adopt(marker, h, deleted.(version := Wanted, paused := false));
    k := at;
    LastStep(g, more, k);
    LastStep(g, more, k + 1);
  }

  /** In particular from every install of the old version with the marker on its node path and no
      claim. */
  lemma InstallMigrates(marker: string, s: System) returns (run: seq<System>, k: nat)
    requires Init(s) && marker in s.cluster.node && s.cluster.claim.None?
    ensures IsRun(marker, run) && run[0] == s
    ensures var t := run[|run| - 1];
      t.finish.Finished? && Arrived(marker, t.cluster) && !t.cluster.paused && !t.cluster.byHand
    ensures k + 1 < |run| && run[k].prepare.Compared? && OldSet(run[k].cluster) && !OldSet(run[k + 1].cluster)
  {
    run, k := CanComplete(marker, [s]);
  }

  // ---- The pause that finish read is lifted ----

  /** A finish with --apply that read a paused Composition carries that along up to its change. */
  lemma {:induction false} PauseIsRemembered(marker: string, run: seq<System>, k: nat, l: nat)
    requires IsRun(marker, run) && k + 1 <= l < |run|
    requires run[k].finish.NotFinishing? && run[k].cluster.paused
    requires run[k + 1].finish.ReadComposition? && run[k + 1].finish.apply
    requires forall i :: k < i <= l ==>
      !run[i].finish.NotFinishing? && !run[i].finish.Awaiting? && !run[i].finish.Finished?
    ensures run[l].finish.apply && run[l].finish.pausedSeen
    decreases l
  {
    assert Moves(marker, run, l - 1);
    if l == k + 1 {
    } else {
      PauseIsRemembered(marker, run, k, l - 1);
    }
  }

  /** And when it reaches its wait the Composition is not paused. */
  lemma PauseIsLifted(marker: string, run: seq<System>, k: nat, l: nat)
    requires IsRun(marker, run) && k + 1 < l < |run|
    requires run[k].finish.NotFinishing? && run[k].cluster.paused
    requires run[k + 1].finish.ReadComposition? && run[k + 1].finish.apply
    requires forall i :: k < i < l ==>
      !run[i].finish.NotFinishing? && !run[i].finish.Awaiting? && !run[i].finish.Finished?
    requires run[l].finish.Awaiting?
    ensures !run[l].cluster.paused
  {
    PauseIsRemembered(marker, run, k, l - 1);
    assert Moves(marker, run, l - 1);
  }

  // ---- The node is known when the server is stopped ----

  /** prepare has read, since it began, that the pod was scheduled and the set had one replica. */
  ghost predicate NodeRead(run: seq<System>, k: nat) {
    exists j :: 0 <= j <= k < |run| && NodeReadAt(run, j, k)
  }

  ghost predicate NodeReadAt(run: seq<System>, j: nat, k: nat)
    requires j <= k < |run|
  {
    && run[j].cluster.pod.Some? && run[j].cluster.pod.value.scheduled
    && forall i :: j <= i <= k ==> !run[i].prepare.NotPreparing?
  }

  lemma {:induction false} NodeIsRead(marker: string, run: seq<System>, k: nat)
    requires IsRun(marker, run) && k < |run|
    requires run[k].prepare.GotNode? || run[k].prepare.PauseSet?
    ensures NodeRead(run, k)
  {
    if k == 0 {
    } else {
      assert Moves(marker, run, k - 1);
      if run[k - 1].prepare.GotNode? || run[k - 1].prepare.PauseSet? {
        NodeIsRead(marker, run, k - 1);
        var j :| 0 <= j <= k - 1 < |run| && NodeReadAt(run, j, k - 1);
        assert NodeReadAt(run, j, k);
      } else {
        assert NodeReadAt(run, k - 1, k);
      }
    }
  }

  /** prepare stops the server only after it has seen, in the same attempt, the pod scheduled: the
      node that holds the state is known. */
  lemma ScaledDownKnowsNode(marker: string, run: seq<System>, k: nat)
    requires IsRun(marker, run) && k + 1 < |run| && run[k + 1].cluster.scaleDowns > run[k].cluster.scaleDowns
    ensures exists j :: (0 <= j <= k && run[j].cluster.pod.Some? && run[j].cluster.pod.value.scheduled
                         && forall i :: j <= i <= k ==> !run[i].prepare.NotPreparing?)
  {
    assert Moves(marker, run, k);
    OnlyPrepareScalesDown(marker, run[k], run[k + 1]);
    NodeIsRead(marker, run, k);
    var j :| 0 <= j <= k < |run| && NodeReadAt(run, j, k);
  }

  lemma OnlyPrepareScalesDown(marker: string, s: System, t: System)
    requires Next(marker, s, t) && t.cluster.scaleDowns > s.cluster.scaleDowns
    ensures s.prepare.PauseSet?
  {
    OthersKeepScale(marker, s, t);
    hide FinishStep, PodStep, CopierStep;
  }
}
