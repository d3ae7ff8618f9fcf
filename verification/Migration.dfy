/** The move of a component's state from a node path onto a claim (hack/migrate-to-pvc.py), as
    steps over the cluster: prepare and finish, each of which may stop at any line, among a
    controller, the pods and an operator. */
module Migration {
  import opened Options

  // ---- Contents of a volume ----

  datatype Entry = Folder | File(content: string)

  /** The entries under a directory, by relative path. */
  type Dir = map<string, Entry>

  datatype Inventory = Inventory(files: nat, bytes: nat)

  ghost function Bytes(d: Dir): nat
    decreases |d|
  {
    if d == map[] then 0
    else
      var k :| k in d;
      assert d.Keys == (d - {k}).Keys + {k};
      (if d[k].File? then |d[k].content| else 0) + Bytes(d - {k})
  }

  /** What the probe and the copy pod print about a directory. */
  ghost function InventoryOf(d: Dir): Inventory {
    Inventory(|d|, Bytes(d))
  }

  /** Nothing but what a new file system comes with. */
  ghost predicate OnlyLostFound(d: Dir) {
    forall k :: k in d ==> k == "lost+found" || "lost+found/" <= k
  }

  ghost predicate NewVolume(d: Dir) {
    d == map[] || d == map["lost+found" := Folder]
  }

  /** The test on the copy: the same bytes, and the same entries up to one more. */
  predicate Agree(src: Inventory, dst: Inventory) {
    var lostFound := if dst.files == src.files + 1 then 1 else 0;
    dst.files - lostFound == src.files && dst.bytes == src.bytes
  }

  // ---- The cluster ----

  datatype Shape = HostPath | Claims | OtherVolume

  datatype StatefulSet = StatefulSet(shape: Shape, replicas: nat)

  datatype Pod = Pod(shape: Shape, scheduled: bool, ready: bool)

  datatype CopyPod = NoCopy | Waiting | Writing | Ended(succeeded: bool, log: Inventory)

  /** The version the Composition is labelled with: the wanted one or another. */
  datatype Version = Before | Wanted

  /** What the node path and the claim held when the old StatefulSet was deleted; the claim is
      absent where there was none, or once it has been deleted since. */
  datatype Removal = Removal(node: Dir, claim: Option<Dir>)

  /** The cluster, and after it what only the statements below look at: how often replicas were
      set to 0 by prepare and raised or recreated by others, the removal of the old StatefulSet
      while it is gone, whether a server has written to the claim since, and whether anyone has
      ever deleted the old StatefulSet or lifted the pause by hand. */
  datatype Cluster = Cluster(
    paused: bool, version: Version, sts: Option<StatefulSet>, pod: Option<Pod>,
    node: Dir, claim: Option<Dir>, copier: CopyPod, reconciling: Option<Version>,
    scaleDowns: nat, scaleUps: nat, removal: Option<Removal>, served: bool, byHand: bool)

  ghost predicate OldSet(c: Cluster) {
    c.sts.Some? && c.sts.value.shape == HostPath
  }

  // ---- prepare ----

  /** Where prepare is and what it has in hand; path is the node path's contents at the probe. */
  datatype Prepare =
    | NotPreparing
    | GotComposition(apply: bool, pausedSeen: bool)
    | GotSet(apply: bool, pausedSeen: bool)
    | GotNode(apply: bool, pausedSeen: bool)
    | PauseSet(apply: bool)
    | ScaledDown
    | PodGone
    | Guarded
    | Held
    | Probed(src: Inventory, path: Dir)
    | NoClaimYet(src: Inventory, path: Dir)
    | HasClaim(src: Inventory, path: Dir)
    | Cleared(src: Inventory, path: Dir)
    | Copying(src: Inventory, path: Dir)
    | Copied(src: Inventory, path: Dir, dst: Inventory)
    | Compared(src: Inventory, path: Dir, dst: Inventory)

  /** One line of prepare: a read, a change or a comparison. Refusing is going back to
      NotPreparing, and so is stopping, which StopPrepare allows at any line. */
  ghost predicate PrepareStep(marker: string, c: Cluster, p: Prepare, c': Cluster, p': Prepare) {
    match p
    case NotPreparing => c' == c && p'.GotComposition? && p'.pausedSeen == c.paused
    case GotComposition(apply, seen) =>
      c' == c && p' == if c.sts == Some(StatefulSet(HostPath, 1)) then GotSet(apply, seen) else NotPreparing
    case GotSet(apply, seen) =>
      c' == c && p' == if c.pod.Some? && c.pod.value.scheduled then GotNode(apply, seen) else NotPreparing
    case GotNode(apply, seen) =>
      c' == (if !seen && apply then c.(paused := true) else c) && p' == PauseSet(apply)
    case PauseSet(apply) =>
      if !apply then c' == c && p' == NotPreparing
      else if c.sts.None? then c' == c && p' == NotPreparing
      else c' == c.(sts := Some(c.sts.value.(replicas := 0)), scaleDowns := c.scaleDowns + 1) && p' == ScaledDown
    case ScaledDown => c.pod.None? && c' == c && p' == PodGone
    case PodGone => c.reconciling.None? && c' == c && p' == Guarded
    case Guarded =>
      c' == c && p' == if c.sts.Some? && c.sts.value.replicas == 0 then Held else NotPreparing
    case Held =>
      c' == c && p' == if marker in c.node then Probed(InventoryOf(c.node), c.node) else NotPreparing
    case Probed(src, path) => c' == c && p' == if c.claim.None? then NoClaimYet(src, path) else HasClaim(src, path)
    case NoClaimYet(src, path) =>
      && c' == c.(claim := c'.claim) && p' == HasClaim(src, path)
      && (if c.claim.Some? then c'.claim == c.claim else c'.claim.Some? && NewVolume(c'.claim.value))
    case HasClaim(src, path) => c' == c.(copier := NoCopy) && p' == Cleared(src, path)
    case Cleared(src, path) => c' == c.(copier := Waiting) && p' == Copying(src, path)
    case Copying(src, path) =>
      && c.copier.Ended? && c' == c.(copier := NoCopy)
      && p' == if c.copier.succeeded then Copied(src, path, c.copier.log) else NotPreparing
    case Copied(src, path, dst) => c' == c && p' == if Agree(src, dst) then Compared(src, path, dst) else NotPreparing
    case Compared(src, path, dst) =>
      && p' == NotPreparing
      && c' == if OldSet(c) then c.(sts := None, removal := Some(Removal(c.node, c.claim))) else c.(sts := None)
  }

  // ---- finish ----

  datatype Finish =
    | NotFinishing
    | ReadComposition(apply: bool, pausedSeen: bool, version: Version)
    | ReadClaim(apply: bool, pausedSeen: bool, version: Version)
    | SawSet(apply: bool, pausedSeen: bool, version: Version)
    | SetFine(apply: bool, pausedSeen: bool, version: Version)
    | VersionFine(apply: bool, pausedSeen: bool)
    | Awaiting(apply: bool)
    | Finished

  ghost predicate FinishStep(c: Cluster, f: Finish, c': Cluster, f': Finish) {
    match f
    case NotFinishing => c' == c && f'.ReadComposition? && f'.pausedSeen == c.paused && f'.version == c.version
    case ReadComposition(apply, seen, v) =>
      c' == c && f' == if c.claim.Some? then ReadClaim(apply, seen, v) else NotFinishing
    case ReadClaim(apply, seen, v) =>
      c' == c && f' == if c.sts.None? then SetFine(apply, seen, v) else SawSet(apply, seen, v)
    case SawSet(apply, seen, v) =>
      c' == c && f' == if c.sts.Some? && c.sts.value.shape == Claims then SetFine(apply, seen, v) else NotFinishing
    case SetFine(apply, seen, v) => c' == c && f' == if v == Wanted then VersionFine(apply, seen) else NotFinishing
    case VersionFine(apply, seen) =>
      c' == (if seen && apply then c.(paused := false) else c) && f' == Awaiting(apply)
    case Awaiting(apply) =>
      c' == c && if !apply then f' == NotFinishing else OnClaim(c) && f' == Finished
    case Finished => c' == c && f' == NotFinishing
  }

  /** A pod of the component is Ready with the claim among its volumes. */
  ghost predicate OnClaim(c: Cluster) {
    c.pod.Some? && c.pod.value.shape == Claims && c.pod.value.ready
  }

  // ---- The environment ----

  /** The controller, which starts a pass only on an unpaused Composition but may still be in one
      when the pause is set. A StatefulSet's volume claims cannot be changed, so an existing one
      at most gets its replicas back, and a missing one is created in the shape of the version the
      pass began with. */
  ghost predicate ControllerStep(c: Cluster, c': Cluster) {
    || (!c.paused && c.reconciling.None? && c' == c.(reconciling := Some(c.version)))
    || (c.reconciling.Some? && c' == c.(reconciling := None))
    || (c.reconciling == Some(Wanted) && c.sts.None?
        && c' == c.(reconciling := None, sts := Some(StatefulSet(Claims, 1))))
    || (c.reconciling == Some(Before) && c.sts.None?
        && c' == c.(reconciling := None, sts := Some(StatefulSet(HostPath, 1)), removal := None,
                    scaleUps := c.scaleUps + 1))
    || (c.reconciling.Some? && c.sts.Some? && c.sts.value.replicas != 1
        && c' == c.(reconciling := None, sts := Some(c.sts.value.(replicas := 1)), scaleUps := c.scaleUps + 1))
  }

  /** The pod of the StatefulSet and the server in it. */
  ghost predicate PodStep(c: Cluster, c': Cluster) {
    || (c.sts.Some? && c.sts.value.replicas > 0 && c.pod.None? && c'.pod.Some?
        && c'.pod.value.shape == c.sts.value.shape && !c'.pod.value.ready
        && (if c.sts.value.shape == Claims && c.claim.None?
            then c'.claim.Some? && NewVolume(c'.claim.value) && c' == c.(pod := c'.pod, claim := c'.claim)
            else c' == c.(pod := c'.pod)))
    || (c.pod.Some? && c'.pod.Some? && c'.pod.value.shape == c.pod.value.shape && c' == c.(pod := c'.pod))
    || (c.pod.Some? && c' == c.(pod := None))
    || (c.pod.Some? && c.pod.value.scheduled && c.pod.value.shape == HostPath && c' == c.(node := c'.node))
    || (c.pod.Some? && c.pod.value.scheduled && c.pod.value.shape == Claims && c.claim.Some? && c'.claim.Some?
        && c' == c.(claim := c'.claim, served := true))
  }

  /** The copy pod: it refuses a claim that holds anything, and otherwise may write anything
      before it ends and counts what the claim then holds. */
  ghost predicate CopierStep(c: Cluster, c': Cluster) {
    || (c.copier.Waiting? && c'.copier.Ended? && !c'.copier.succeeded && c' == c.(copier := c'.copier))
    || (c.copier.Waiting? && c.claim.Some? && OnlyLostFound(c.claim.value) && c' == c.(copier := Writing))
    || (c.copier.Writing? && c.claim.Some? && c'.claim.Some? && c' == c.(claim := c'.claim))
    || (c.copier.Writing? && c.claim.Some? && c'.copier.Ended?
        && c'.copier.log == InventoryOf(c.claim.value) && c' == c.(copier := c'.copier))
  }

  ghost function WithoutClaim(r: Option<Removal>): Option<Removal> {
    if r.None? then None else Some(r.value.(claim := None))
  }

  /** The operator upgrades the definition at any time. With no prepare running, the operator may
      also raise the replicas, delete the claim of a stopped attempt, lose the node's disk, or lift
      the pause by hand. With neither phase running, the operator may delete the claim while the
      Composition is still paused, or delete the old StatefulSet by hand once no pass and no copy
      is under way. */
  ghost predicate OperatorStep(c: Cluster, p: Prepare, f: Finish, c': Cluster) {
    || c' == c.(version := Wanted)
    || (p.NotPreparing? && c.sts.Some? && c'.sts.Some? && c'.sts.value.replicas > 0
        && c'.sts.value.shape == c.sts.value.shape && c' == c.(sts := c'.sts, scaleUps := c.scaleUps + 1))
    || (p.NotPreparing? && OldSet(c) && !c.copier.Waiting? && !c.copier.Writing? && c' == c.(claim := None))
    || (p.NotPreparing? && f.NotFinishing? && c.paused && !OldSet(c)
        && c' == c.(claim := None, removal := WithoutClaim(c.removal)))
    || (p.NotPreparing? && c' == c.(node := map[]))
    || (p.NotPreparing? && c.paused && c' == c.(paused := false, byHand := true))
    || (p.NotPreparing? && f.NotFinishing? && OldSet(c) && c.reconciling.None?
        && !c.copier.Waiting? && !c.copier.Writing?
        && c' == c.(sts := None, removal := Some(Removal(c.node, c.claim)), byHand := true))
  }

  // ---- Runs ----

  datatype System = System(cluster: Cluster, prepare: Prepare, finish: Finish)

  ghost predicate Next(marker: string, s: System, t: System) {
    || (t.finish == s.finish && PrepareStep(marker, s.cluster, s.prepare, t.cluster, t.prepare))
    || (t.prepare == s.prepare && FinishStep(s.cluster, s.finish, t.cluster, t.finish))
    || (t == s.(prepare := NotPreparing))
    || (t == s.(finish := NotFinishing))
    || (t == s.(cluster := t.cluster) && ControllerStep(s.cluster, t.cluster))
    || (t == s.(cluster := t.cluster) && PodStep(s.cluster, t.cluster))
    || (t == s.(cluster := t.cluster) && CopierStep(s.cluster, t.cluster))
    || (t == s.(cluster := t.cluster) && OperatorStep(s.cluster, s.prepare, s.finish, t.cluster))
  }

  /** An install as 0.3.35 leaves it: state on the node path, nothing under way. */
  ghost predicate Init(s: System) {
    var c := s.cluster;
    && s.prepare.NotPreparing? && s.finish.NotFinishing?
    && !c.paused && c.version == Before && c.sts == Some(StatefulSet(HostPath, 1))
    && (c.pod.Some? ==> c.pod.value.shape == HostPath)
    && c.copier.NoCopy? && c.reconciling != Some(Wanted)
    && c.scaleDowns == 0 && c.scaleUps == 0 && c.removal.None? && !c.served && !c.byHand
  }

  ghost predicate Moves(marker: string, run: seq<System>, i: int) {
    0 <= i < |run| - 1 && Next(marker, run[i], run[i + 1])
  }

  ghost predicate IsRun(marker: string, run: seq<System>) {
    && |run| > 0 && Init(run[0])
    && forall i {:trigger Moves(marker, run, i)} :: 0 <= i < |run| - 1 ==> Moves(marker, run, i)
  }

  // ---- What holds in every state of every run ----

  /** What the removal left agreed: there was a claim, the node path held state, and the two had
      the same bytes and entries. */
  ghost predicate Agreed(marker: string, r: Removal) {
    r.claim.Some? && marker in r.node && Agree(InventoryOf(r.node), InventoryOf(r.claim.value))
  }

  /** What the removal of the old StatefulSet leaves in force as long as it is gone: nothing writes
      to the claim but a server of the new StatefulSet, and nothing is created under the pause. */
  ghost predicate SinceRemoval(c: Cluster, r: Removal) {
    && !c.copier.Waiting? && !c.copier.Writing?
    && (c.paused ==> c.sts.None? && c.reconciling.None?)
    && (r.claim.Some? ==> c.claim.Some? && (!c.served ==> c.claim == r.claim))
  }

  /** What holds besides where nobody has interfered by hand. */
  ghost predicate LeftAlone(marker: string, c: Cluster, r: Removal) {
    && (c.paused || c.version == Wanted) && c.reconciling != Some(Before)
    && (if r.claim.Some? then Agreed(marker, r) else c.paused && c.claim.None?)
  }

  ghost predicate RemovalInv(marker: string, c: Cluster) {
    && (c.removal.None? <==> OldSet(c))
    && (c.sts.Some? ==> c.sts.value.shape == HostPath || (c.sts.value.shape == Claims && c.version == Wanted))
    && (c.reconciling == Some(Wanted) ==> c.version == Wanted)
    && (c.pod.Some? && c.pod.value.shape == Claims ==> c.sts.Some? && c.sts.value.shape == Claims && c.claim.Some?)
    && (c.served ==> c.sts.Some? && c.sts.value.shape == Claims)
    && (c.removal.Some? ==> SinceRemoval(c, c.removal.value) && (c.byHand || LeftAlone(marker, c, c.removal.value)))
  }

  /** prepare has seen the old StatefulSet: it still stands, and from the pause on so does the pause. */
  ghost predicate UnderWay(c: Cluster, p: Prepare) {
    match p
    case NotPreparing => true
    case GotComposition(_, seen) =>
      seen ==> if OldSet(c) then c.paused else (c.paused || c.version == Wanted) && c.reconciling != Some(Before)
    case GotSet(_, seen) => OldSet(c) && c.sts.value.replicas == 1 && (seen ==> c.paused)
    case GotNode(_, seen) => OldSet(c) && c.sts.value.replicas == 1 && (seen ==> c.paused)
    case PauseSet(apply) => OldSet(c) && c.sts.value.replicas == 1 && (apply ==> c.paused)
    case _ => OldSet(c) && c.paused
  }

  /** From the held check on nothing runs on the node path and nothing is going to. */
  ghost predicate Quiet(c: Cluster) {
    OldSet(c) && c.sts.value.replicas == 0 && c.pod.None? && c.reconciling.None? && c.paused
  }

  ghost predicate ProbeInv(marker: string, c: Cluster, src: Inventory, path: Dir) {
    Quiet(c) && c.node == path && marker in path && src == InventoryOf(path)
  }

  ghost predicate PrepareInv(marker: string, c: Cluster, p: Prepare) {
    match p
    case PodGone => c.sts.Some? && c.sts.value.replicas == 0 ==> c.pod.None?
    case Guarded => c.reconciling.None? && (c.sts.Some? && c.sts.value.replicas == 0 ==> c.pod.None?)
    case Held => Quiet(c)
    case Probed(src, path) => ProbeInv(marker, c, src, path)
    case NoClaimYet(src, path) => ProbeInv(marker, c, src, path)
    case HasClaim(src, path) => ProbeInv(marker, c, src, path) && c.claim.Some?
    case Cleared(src, path) => ProbeInv(marker, c, src, path) && c.claim.Some? && c.copier.NoCopy?
    case Copying(src, path) =>
      && ProbeInv(marker, c, src, path) && c.claim.Some?
      && (c.copier.Ended? && c.copier.succeeded ==> c.copier.log == InventoryOf(c.claim.value))
    case Copied(src, path, dst) =>
      ProbeInv(marker, c, src, path) && c.claim.Some? && c.copier.NoCopy? && dst == InventoryOf(c.claim.value)
    case Compared(src, path, dst) =>
      && ProbeInv(marker, c, src, path) && c.claim.Some? && c.copier.NoCopy?
      && dst == InventoryOf(c.claim.value) && Agree(src, dst)
    case _ => true
  }

  /** What finish has read still holds, and where it read a pause at the wanted version no pass of
      the old one is left that could bring the old StatefulSet back. */
  ghost predicate Read(c: Cluster, seen: bool, v: Version) {
    v == Wanted ==> c.version == Wanted && (seen && c.reconciling == Some(Before) ==> OldSet(c))
  }

  ghost predicate FinishInv(c: Cluster, f: Finish) {
    match f
    case ReadComposition(_, seen, v) => Read(c, seen, v)
    case ReadClaim(_, seen, v) => Read(c, seen, v) && (c.removal.Some? ==> c.claim.Some?)
    case SawSet(_, seen, v) => Read(c, seen, v) && (c.removal.Some? ==> c.claim.Some?)
    case SetFine(_, seen, v) => Read(c, seen, v) && (seen && v == Wanted ==> c.removal.Some? && c.claim.Some?)
    case VersionFine(_, seen) =>
      Read(c, seen, Wanted) && c.version == Wanted && (seen ==> c.removal.Some? && c.claim.Some?)
    case _ => true
  }

  /** Each scale-down took the replicas from 1, so between two of them someone raised them. */
  ghost predicate ScaleInv(c: Cluster) {
    && c.scaleDowns <= c.scaleUps + 1
    && (OldSet(c) && c.sts.value.replicas > 0 ==> c.scaleDowns <= c.scaleUps)
  }

  ghost predicate Inv(marker: string, s: System) {
    && RemovalInv(marker, s.cluster) && UnderWay(s.cluster, s.prepare)
    && PrepareInv(marker, s.cluster, s.prepare) && FinishInv(s.cluster, s.finish) && ScaleInv(s.cluster)
  }

  lemma PrepareKeeps(marker: string, s: System, t: System)
    requires Inv(marker, s) && t.finish == s.finish
    requires PrepareStep(marker, s.cluster, s.prepare, t.cluster, t.prepare)
    ensures Inv(marker, t)
  {
  }

  lemma FinishKeeps(marker: string, s: System, t: System)
    requires Inv(marker, s) && t.prepare == s.prepare && FinishStep(s.cluster, s.finish, t.cluster, t.finish)
    ensures Inv(marker, t)
  {
  }

  lemma ControllerKeeps(marker: string, s: System, t: System)
    requires Inv(marker, s) && t == s.(cluster := t.cluster) && ControllerStep(s.cluster, t.cluster)
    ensures Inv(marker, t)
  {
  }

  lemma PodKeeps(marker: string, s: System, t: System)
    requires Inv(marker, s) && t == s.(cluster := t.cluster) && PodStep(s.cluster, t.cluster)
    ensures Inv(marker, t)
  {
  }

  lemma CopierKeeps(marker: string, s: System, t: System)
    requires Inv(marker, s) && t == s.(cluster := t.cluster) && CopierStep(s.cluster, t.cluster)
    ensures Inv(marker, t)
  {
  }

  lemma OperatorKeeps(marker: string, s: System, t: System)
    requires Inv(marker, s) && t == s.(cluster := t.cluster) && OperatorStep(s.cluster, s.prepare, s.finish, t.cluster)
    ensures Inv(marker, t)
  {
  }

  lemma NextKeeps(marker: string, s: System, t: System)
    requires Inv(marker, s) && Next(marker, s, t)
    ensures Inv(marker, t)
  {
    if t.finish == s.finish && PrepareStep(marker, s.cluster, s.prepare, t.cluster, t.prepare) {
      PrepareKeeps(marker, s, t);
    } else if t.prepare == s.prepare && FinishStep(s.cluster, s.finish, t.cluster, t.finish) {
      FinishKeeps(marker, s, t);
    } else if t == s.(cluster := t.cluster) && ControllerStep(s.cluster, t.cluster) {
      ControllerKeeps(marker, s, t);
    } else if t == s.(cluster := t.cluster) && PodStep(s.cluster, t.cluster) {
      PodKeeps(marker, s, t);
    } else if t == s.(cluster := t.cluster) && CopierStep(s.cluster, t.cluster) {
      CopierKeeps(marker, s, t);
    } else if t == s.(cluster := t.cluster) && OperatorStep(s.cluster, s.prepare, s.finish, t.cluster) {
      OperatorKeeps(marker, s, t);
    }
  }

  lemma {:induction false} RunInv(marker: string, run: seq<System>, k: nat)
    requires IsRun(marker, run) && k < |run|
    ensures Inv(marker, run[k])
  {
    if k == 0 {
    } else {
      RunInv(marker, run, k - 1);
      assert Moves(marker, run, k - 1);
      NextKeeps(marker, run[k - 1], run[k]);
    }
  }

  // ---- What every run guarantees ----

  /** prepare deletes the old StatefulSet only where the node path is as it was probed and holds the
      marker, the claim agrees with it, and nothing runs or will run on it. */
  lemma OldSetIsDeletedSafely(marker: string, run: seq<System>, k: nat)
    requires IsRun(marker, run) && k + 1 < |run| && run[k + 1].prepare != run[k].prepare
    requires OldSet(run[k].cluster) && !OldSet(run[k + 1].cluster)
    ensures var p, c := run[k].prepare, run[k].cluster;
      && p.Compared? && c.node == p.path && marker in c.node && p.src == InventoryOf(c.node)
      && c.claim.Some? && p.dst == InventoryOf(c.claim.value) && Quiet(c) && c.copier.NoCopy?
    ensures var r := Removal(run[k].cluster.node, run[k].cluster.claim);
      run[k + 1].cluster.removal == Some(r) && Agreed(marker, r)
  {
    RunInv(marker, run, k);
    assert Moves(marker, run, k);
  }

  /** Nothing else deletes it but a hand. */
  lemma OldSetGoesOnlyBy(marker: string, run: seq<System>, k: nat)
    requires IsRun(marker, run) && k + 1 < |run|
    requires OldSet(run[k].cluster) && !OldSet(run[k + 1].cluster)
    ensures run[k].prepare.Compared? || (run[k + 1].cluster.byHand && run[k].prepare.NotPreparing?)
  {
    assert Moves(marker, run, k);
    OldSetStep(marker, run[k], run[k + 1]);
  }

  lemma OldSetStep(marker: string, s: System, t: System)
    requires Next(marker, s, t) && OldSet(s.cluster) && !OldSet(t.cluster)
    ensures s.prepare.Compared? || (t.cluster.byHand && s.prepare.NotPreparing?)
  {
    OthersKeepScale(marker, s, t);
    hide FinishStep, PodStep, CopierStep;
  }

  lemma HandStays(marker: string, s: System, t: System)
    requires Next(marker, s, t)
    ensures s.cluster.byHand ==> t.cluster.byHand
  {
  }

  lemma GoneStays(marker: string, s: System, t: System)
    requires RemovalInv(marker, s.cluster) && Next(marker, s, t) && !s.cluster.byHand && s.cluster.removal.Some?
    ensures t.cluster.removal.Some?
  {
    OthersKeepRemoval(marker, s, t);
    hide Agreed, SinceRemoval, FinishStep, PodStep, CopierStep, PrepareStep;
  }

  lemma OthersKeepRemoval(marker: string, s: System, t: System)
    ensures FinishStep(s.cluster, s.finish, t.cluster, t.finish) ==> t.cluster.removal == s.cluster.removal
    ensures PodStep(s.cluster, t.cluster) || CopierStep(s.cluster, t.cluster) ==> t.cluster.removal == s.cluster.removal
    ensures PrepareStep(marker, s.cluster, s.prepare, t.cluster, t.prepare) && s.cluster.removal.Some? ==>
      t.cluster.removal.Some?
  {
  }

  lemma RemovedMeansGone(marker: string, run: seq<System>, k: nat)
    requires IsRun(marker, run) && k < |run|
    ensures RemovalInv(marker, run[k].cluster) && (run[k].cluster.removal.None? <==> OldSet(run[k].cluster))
  {
    RunInv(marker, run, k);
  }

  /** Once deleted it does not come back, unless someone interferes by hand. */
  lemma {:induction false} OldSetStaysGone(marker: string, run: seq<System>, k: nat, l: nat)
    requires IsRun(marker, run) && k <= l < |run| && !OldSet(run[k].cluster) && !run[l].cluster.byHand
    ensures !OldSet(run[l].cluster)
    decreases l
  {
    hide RemovalInv, Next, OldSet, Init;
    RemovedMeansGone(marker, run, l);
    if k == l {
    } else {
      assert Moves(marker, run, l - 1);
      HandStays(marker, run[l - 1], run[l]);
      OldSetStaysGone(marker, run, k, l - 1);
      RemovedMeansGone(marker, run, l - 1);
      GoneStays(marker, run[l - 1], run[l]);
    }
  }

  /** finish lifts the pause only when the claim exists, no StatefulSet of the old shape does, and
      the Composition is at the wanted version. */
  lemma PauseIsLiftedSafely(marker: string, run: seq<System>, k: nat)
    requires IsRun(marker, run) && k + 1 < |run| && run[k + 1].finish != run[k].finish
    requires run[k].cluster.paused && !run[k + 1].cluster.paused
    ensures var c := run[k].cluster;
      c.claim.Some? && !OldSet(c) && c.version == Wanted && c.removal.Some?
  {
    RunInv(marker, run, k);
    assert Moves(marker, run, k);
  }

  /** The state has arrived: the claim agreed with the node path when the old StatefulSet was
      deleted, and until a server has written to it that claim is what it was then. */
  ghost predicate Arrived(marker: string, c: Cluster) {
    && c.removal.Some? && Agreed(marker, c.removal.value)
    && (!c.served ==> c.claim == c.removal.value.claim)
  }

  /** finish completes only with the pod Ready on a claim at the wanted version. Where nobody has
      interfered by hand the state has then arrived; otherwise exactly when the claim agreed with
      the node path as the old StatefulSet was deleted, which finish does not look at. */
  lemma FinishMeansMigrated(marker: string, run: seq<System>, k: nat)
    requires IsRun(marker, run) && k + 1 < |run|
    requires run[k + 1].finish.Finished? && !run[k].finish.Finished?
    ensures var c := run[k + 1].cluster;
      && c.pod.Some? && c.pod.value.shape == Claims && c.pod.value.ready
      && c.version == Wanted && c.claim.Some? && c.removal.Some?
      && (!c.byHand ==> Arrived(marker, c))
      && (Arrived(marker, c) <==> Agreed(marker, c.removal.value))
  {
    RunInv(marker, run, k + 1);
    assert Moves(marker, run, k);
  }

  /** prepare scales down at most once more often than others scale up. */
  lemma ScaledDownOnce(marker: string, run: seq<System>, k: nat)
    requires IsRun(marker, run) && k < |run|
    ensures run[k].cluster.scaleDowns <= run[k].cluster.scaleUps + 1
  {
    RunInv(marker, run, k);
  }

  ghost predicate Reading(p: Prepare) {
    p.NotPreparing? || p.GotComposition?
  }

  ghost predicate SameScale(c: Cluster, d: Cluster) {
    d.sts == c.sts && d.scaleUps == c.scaleUps && d.scaleDowns == c.scaleDowns
  }

  /** Without the old shape at one replica, a step of prepare moves nothing once it only reads. */
  lemma PrepareStaysOut(marker: string, s: System, t: System)
    requires s.cluster.sts != Some(StatefulSet(HostPath, 1))
    requires PrepareStep(marker, s.cluster, s.prepare, t.cluster, t.prepare)
    ensures s.cluster.scaleUps == t.cluster.scaleUps
    ensures Reading(s.prepare) ==> Reading(t.prepare) && SameScale(s.cluster, t.cluster)
  {
  }

  lemma ControllerStaysOut(c: Cluster, d: Cluster)
    requires ControllerStep(c, d) && c.sts != Some(StatefulSet(HostPath, 1))
    ensures c.scaleUps <= d.scaleUps
    ensures d.scaleUps == c.scaleUps ==> d.sts != Some(StatefulSet(HostPath, 1)) && d.scaleDowns == c.scaleDowns
  {
  }

  lemma OthersKeepScale(marker: string, s: System, t: System)
    ensures FinishStep(s.cluster, s.finish, t.cluster, t.finish) ==> SameScale(s.cluster, t.cluster)
    ensures PodStep(s.cluster, t.cluster) || CopierStep(s.cluster, t.cluster) ==> SameScale(s.cluster, t.cluster)
  {
  }

  lemma OperatorStaysOut(s: System, d: Cluster)
    requires OperatorStep(s.cluster, s.prepare, s.finish, d)
    ensures || SameScale(s.cluster, d) || s.cluster.scaleUps < d.scaleUps
            || (d.sts.None? && SameScale(s.cluster, d.(sts := s.cluster.sts)))
  {
  }

  /** The old shape at one replica does not come back on its own. */
  lemma StaysOut(marker: string, s: System, t: System)
    requires Next(marker, s, t) && s.cluster.sts != Some(StatefulSet(HostPath, 1))
    ensures s.cluster.scaleUps <= t.cluster.scaleUps
    ensures Reading(s.prepare) && t.cluster.scaleUps == s.cluster.scaleUps ==>
      && Reading(t.prepare) && t.cluster.sts != Some(StatefulSet(HostPath, 1))
      && t.cluster.scaleDowns == s.cluster.scaleDowns
  {
    hide PrepareStep, FinishStep, ControllerStep, PodStep, CopierStep, OperatorStep;
    if PrepareStep(marker, s.cluster, s.prepare, t.cluster, t.prepare) {
      PrepareStaysOut(marker, s, t);
    } else if t.prepare == s.prepare && FinishStep(s.cluster, s.finish, t.cluster, t.finish) {
      OthersKeepScale(marker, s, t);
    } else if t == s.(cluster := t.cluster) {
      if ControllerStep(s.cluster, t.cluster) {
        ControllerStaysOut(s.cluster, t.cluster);
      } else if OperatorStep(s.cluster, s.prepare, s.finish, t.cluster) {
        OperatorStaysOut(s, t.cluster);
      } else if PodStep(s.cluster, t.cluster) || CopierStep(s.cluster, t.cluster) {
        OthersKeepScale(marker, s, t);
      }
    }
  }

  lemma ScaleUpsStep(marker: string, s: System, t: System)
    requires Next(marker, s, t)
    ensures s.cluster.scaleUps <= t.cluster.scaleUps
  {
    OthersKeepScale(marker, s, t);
    hide FinishStep, PodStep, CopierStep;
  }

  lemma {:induction false} ScaleUpsGrow(marker: string, run: seq<System>, k: nat, l: nat)
    requires IsRun(marker, run) && k <= l < |run|
    ensures run[k].cluster.scaleUps <= run[l].cluster.scaleUps
    decreases l
  {
    if k == l {
    } else {
      ScaleUpsGrow(marker, run, k, l - 1);
      assert Moves(marker, run, l - 1);
      ScaleUpsStep(marker, run[l - 1], run[l]);
    }
  }

  /** From a state in which an earlier prepare has scaled down, deleted or migrated the set, and
      however often prepare is run again, it only reads until someone raises the replicas or the
      old set is recreated. */
  lemma {:induction false} RerunsOnlyRead(marker: string, run: seq<System>, k: nat, l: nat)
    requires IsRun(marker, run) && k <= l < |run| && Reading(run[k].prepare)
    requires run[k].cluster.sts != Some(StatefulSet(HostPath, 1))
    requires run[l].cluster.scaleUps == run[k].cluster.scaleUps
    ensures Reading(run[l].prepare) && run[l].cluster.sts != Some(StatefulSet(HostPath, 1))
    ensures run[l].cluster.scaleDowns == run[k].cluster.scaleDowns
    decreases l
  {
    if k == l {
    } else {
      ScaleUpsGrow(marker, run, k, l - 1);
      ScaleUpsGrow(marker, run, l - 1, l);
      RerunsOnlyRead(marker, run, k, l - 1);
      assert Moves(marker, run, l - 1);
      StaysOut(marker, run[l - 1], run[l]);
    }
  }

  /** prepare without --apply, up to the line where it stops. */
  ghost predicate Planning(p: Prepare) {
    match p
    case NotPreparing => true
    case GotComposition(apply, _) => !apply
    case GotSet(apply, _) => !apply
    case GotNode(apply, _) => !apply
    case PauseSet(apply) => !apply
    case _ => false
  }

  /** finish without --apply. */
  ghost predicate PlanningFinish(f: Finish) {
    match f
    case NotFinishing => true
    case ReadComposition(apply, _, _) => !apply
    case ReadClaim(apply, _, _) => !apply
    case SawSet(apply, _, _) => !apply
    case SetFine(apply, _, _) => !apply
    case VersionFine(apply, _) => !apply
    case Awaiting(apply) => !apply
    case Finished => false
  }

  lemma PlanStep(marker: string, s: System, t: System)
    requires Next(marker, s, t)
    ensures !s.prepare.NotPreparing? && Planning(s.prepare) ==>
      Planning(t.prepare) && (t.prepare != s.prepare ==> t.cluster == s.cluster)
    ensures !s.finish.NotFinishing? && PlanningFinish(s.finish) ==>
      PlanningFinish(t.finish) && (t.finish != s.finish ==> t.cluster == s.cluster)
  {
    hide ControllerStep, PodStep, CopierStep, OperatorStep;
  }

  /** A prepare that runs without --apply changes nothing at any of its lines, until it ends. */
  lemma {:induction false} PrepareOnlyPlans(marker: string, run: seq<System>, k: nat, l: nat)
    requires IsRun(marker, run) && k <= l && l + 1 < |run| && Planning(run[k].prepare)
    requires forall i :: k <= i <= l ==> !run[i].prepare.NotPreparing?
    ensures Planning(run[l].prepare)
    ensures run[l + 1].prepare != run[l].prepare ==> run[l + 1].cluster == run[l].cluster
    decreases l
  {
    if k == l {
    } else {
      PrepareOnlyPlans(marker, run, k, l - 1);
      assert Moves(marker, run, l - 1);
      PlanStep(marker, run[l - 1], run[l]);
    }
    assert Moves(marker, run, l);
    PlanStep(marker, run[l], run[l + 1]);
  }

  /** Nor does a finish. */
  lemma {:induction false} FinishOnlyPlans(marker: string, run: seq<System>, k: nat, l: nat)
    requires IsRun(marker, run) && k <= l && l + 1 < |run| && PlanningFinish(run[k].finish)
    requires forall i :: k <= i <= l ==> !run[i].finish.NotFinishing?
    ensures PlanningFinish(run[l].finish)
    ensures run[l + 1].finish != run[l].finish ==> run[l + 1].cluster == run[l].cluster
    decreases l
  {
    if k == l {
    } else {
      FinishOnlyPlans(marker, run, k, l - 1);
      assert Moves(marker, run, l - 1);
      PlanStep(marker, run[l - 1], run[l]);
    }
    assert Moves(marker, run, l);
    PlanStep(marker, run[l], run[l + 1]);
  }

  ghost predicate ClaimChangedBy(s: System, t: System) {
    var c, d := s.cluster, t.cluster;
    || (c.copier.Writing? && OldSet(c))
    || (d.claim.None? && s.prepare.NotPreparing? && (OldSet(c) || (c.paused && s.finish.NotFinishing?)))
    || (c.pod.Some? && c.pod.value.shape == Claims && c.removal.Some? && d.served)
  }

  lemma ClaimStep(marker: string, s: System, t: System)
    requires RemovalInv(marker, s.cluster) && Next(marker, s, t)
    requires s.cluster.claim.Some? && t.cluster.claim != s.cluster.claim
    ensures ClaimChangedBy(s, t)
  {
    hide Agree, InventoryOf;
    PhasesKeepClaim(marker, s, t);
    hide PrepareStep, FinishStep;
  }

  /** Neither phase changes a claim that exists: prepare only creates a missing one. */
  lemma PhasesKeepClaim(marker: string, s: System, t: System)
    requires s.cluster.claim.Some?
    ensures PrepareStep(marker, s.cluster, s.prepare, t.cluster, t.prepare) ==> t.cluster.claim == s.cluster.claim
    ensures FinishStep(s.cluster, s.finish, t.cluster, t.finish) ==> t.cluster.claim == s.cluster.claim
  {
  }

  /** A claim changes only under a copy and before the removal, under the new StatefulSet's own
      server, or when the operator deletes it. */
  lemma WhoChangesTheClaim(marker: string, run: seq<System>, k: nat)
    requires IsRun(marker, run) && k + 1 < |run|
    requires run[k].cluster.claim.Some? && run[k + 1].cluster.claim != run[k].cluster.claim
    ensures ClaimChangedBy(run[k], run[k + 1])
  {
    RunInv(marker, run, k);
    assert Moves(marker, run, k);
    ClaimStep(marker, run[k], run[k + 1]);
  }

  /** A claim that holds something besides a file system's own lost+found, with no copy writing. */
  ghost predicate Filled(c: Cluster) {
    && c.claim.Some? && !c.copier.Writing?
    && exists k :: k in c.claim.value && k != "lost+found" && !("lost+found/" <= k)
  }

  lemma FilledStep(marker: string, s: System, t: System)
    requires Next(marker, s, t) && Filled(s.cluster) && t.cluster.claim.Some? && !t.cluster.served
    ensures t.cluster.claim == s.cluster.claim && Filled(t.cluster) && !s.cluster.served
  {
    FilledPhases(marker, s, t);
    if ControllerStep(s.cluster, t.cluster) || OperatorStep(s.cluster, s.prepare, s.finish, t.cluster) {
      FilledAround(s, t);
    } else if PodStep(s.cluster, t.cluster) || CopierStep(s.cluster, t.cluster) {
      FilledPods(s, t);
    }
    hide PrepareStep, FinishStep, ControllerStep, PodStep, CopierStep, OperatorStep, OnlyLostFound;
  }

  lemma FilledAround(s: System, t: System)
    requires Filled(s.cluster) && t.cluster.claim.Some? && !t.cluster.served
    requires ControllerStep(s.cluster, t.cluster) || OperatorStep(s.cluster, s.prepare, s.finish, t.cluster)
    ensures t.cluster.claim == s.cluster.claim && Filled(t.cluster) && !s.cluster.served
  {
    hide OnlyLostFound;
  }

  lemma FilledPods(s: System, t: System)
    requires Filled(s.cluster) && t.cluster.claim.Some? && !t.cluster.served
    requires PodStep(s.cluster, t.cluster) || CopierStep(s.cluster, t.cluster)
    ensures t.cluster.claim == s.cluster.claim && Filled(t.cluster) && !s.cluster.served
  {
  }

  lemma FilledPhases(marker: string, s: System, t: System)
    requires Filled(s.cluster)
    ensures (PrepareStep(marker, s.cluster, s.prepare, t.cluster, t.prepare)
             || FinishStep(s.cluster, s.finish, t.cluster, t.finish)) ==>
      t.cluster.claim == s.cluster.claim && Filled(t.cluster) && t.cluster.served == s.cluster.served
  {
    hide OnlyLostFound;
  }

  /** A claim that holds anything is never copied over: whatever prepare, finish and the others do,
      as long as it exists and no server has written to it, it stays as it is. */
  lemma {:induction false} FilledClaimIsNotCopiedOver(marker: string, run: seq<System>, k: nat, l: nat)
    requires IsRun(marker, run) && k <= l < |run| && Filled(run[k].cluster)
    requires (forall i :: k <= i <= l ==> run[i].cluster.claim.Some?) && !run[l].cluster.served
    ensures run[l].cluster.claim == run[k].cluster.claim && Filled(run[l].cluster)
    decreases l
  {
    if k == l {
    } else {
      assert Moves(marker, run, l - 1);
      ServedStays(marker, run[l - 1], run[l]);
      FilledClaimIsNotCopiedOver(marker, run, k, l - 1);
      FilledStep(marker, run[l - 1], run[l]);
    }
  }

  lemma ServedStays(marker: string, s: System, t: System)
    requires Next(marker, s, t)
    ensures s.cluster.served ==> t.cluster.served
  {
  }

  /** A claim comes into being only under prepare, after it found the marker on the node path, or,
      where someone has interfered by hand, under the new StatefulSet. */
  lemma ClaimNeedsMarker(marker: string, run: seq<System>, k: nat)
    requires IsRun(marker, run) && k + 1 < |run|
    requires run[k].cluster.claim.None? && run[k + 1].cluster.claim.Some?
    ensures var c := run[k].cluster;
      || (run[k].prepare.NoClaimYet? && marker in c.node && Quiet(c))
      || (c.byHand && run[k + 1].prepare == run[k].prepare && c.sts.Some? && c.sts.value.shape == Claims)
  {
    RunInv(marker, run, k);
    assert Moves(marker, run, k);
  }

  lemma PhasesLeaveNode(marker: string, s: System, t: System)
    ensures PrepareStep(marker, s.cluster, s.prepare, t.cluster, t.prepare) ==> t.cluster.node == s.cluster.node
    ensures FinishStep(s.cluster, s.finish, t.cluster, t.finish) ==> t.cluster.node == s.cluster.node
  {
  }

  lemma NodeStep(marker: string, s: System, t: System)
    requires RemovalInv(marker, s.cluster) && Next(marker, s, t) && t.cluster.node != s.cluster.node
    ensures (s.cluster.pod.Some? && s.cluster.pod.value.shape == HostPath) || s.prepare.NotPreparing?
  {
    PhasesLeaveNode(marker, s, t);
    hide PrepareStep, FinishStep, Agree, InventoryOf;
  }

  /** The node path changes only under the old server, or when the operator loses it while no
      prepare runs: neither phase writes to it. */
  lemma NodePathIsLeft(marker: string, run: seq<System>, k: nat)
    requires IsRun(marker, run) && k + 1 < |run| && run[k + 1].cluster.node != run[k].cluster.node
    ensures (run[k].cluster.pod.Some? && run[k].cluster.pod.value.shape == HostPath) || run[k].prepare.NotPreparing?
  {
    RunInv(marker, run, k);
    assert Moves(marker, run, k);
    NodeStep(marker, run[k], run[k + 1]);
  }

  // ---- A finish that completes on a claim nobody compared ----

  const MARKER := "grastate.dat"

  /** An install whose claim, from an earlier attempt, lacks a file of the node path. */
  const HALF: Cluster := Cluster(
    false, Before, Some(StatefulSet(HostPath, 1)), None,
    map[MARKER := File("1"), "ibdata1" := File("2")], Some(map[MARKER := File("1")]), NoCopy, None,
    0, 0, None, false, false)

  /** After the old StatefulSet is deleted by hand: the upgrade, a pass, and the new pod. */
  const CREATED: Cluster := HALF.(
    version := Wanted, sts := Some(StatefulSet(Claims, 1)),
    removal := Some(Removal(HALF.node, HALF.claim)), byHand := true)

  const READY: Cluster := CREATED.(pod := Some(Pod(Claims, true, true)))

  /** What finish then does, line by line. */
  const FINISHING: seq<Finish> := [
    NotFinishing, ReadComposition(true, false, Wanted), ReadClaim(true, false, Wanted), SawSet(true, false, Wanted),
    SetFine(true, false, Wanted), VersionFine(true, false), Awaiting(true), Finished]

  lemma FinishingSteps(i: nat)
    requires i + 1 < |FINISHING|
    ensures Next(MARKER, System(READY, NotPreparing, FINISHING[i]), System(READY, NotPreparing, FINISHING[i + 1]))
  {
    assert FinishStep(READY, FINISHING[i], READY, FINISHING[i + 1]);
  }

  /** The states up to the one in which the new pod is Ready. */
  const DELETING: seq<Cluster> := [
    HALF,
    CREATED.(version := Before, sts := None),
    CREATED.(sts := None),
    CREATED.(sts := None, reconciling := Some(Wanted)),
    CREATED,
    CREATED.(pod := Some(Pod(Claims, true, false)))]

  lemma DeletingSteps(i: nat)
    requires i < |DELETING|
    ensures var d := if i + 1 < |DELETING| then DELETING[i + 1] else READY;
      Next(MARKER, System(DELETING[i], NotPreparing, NotFinishing), System(d, NotPreparing, NotFinishing))
  {
  }

  lemma HalfDisagrees()
    ensures !Arrived(MARKER, READY)
  {
    assert |HALF.node| == 2 && |HALF.claim.value| == 1;
  }

  /** finish completes, on the wanted version and with the pod Ready, and the state has not arrived. */
  lemma HandDeletionLosesState() returns (run: seq<System>)
    ensures IsRun(MARKER, run) && |run| > 1
    ensures run[|run| - 1].finish.Finished? && !run[|run| - 2].finish.Finished?
    ensures !Arrived(MARKER, run[|run| - 1].cluster)
  {
    var before := seq(|DELETING|, i requires 0 <= i < |DELETING| => System(DELETING[i], NotPreparing, NotFinishing));
    var after := seq(|FINISHING|, i requires 0 <= i < |FINISHING| => System(READY, NotPreparing, FINISHING[i]));
    run := before + after;
    HalfDisagrees();
    hide Next, Arrived;
    forall i | 0 <= i < |run| - 1 ensures Moves(MARKER, run, i) {
      if i < |before| {
        DeletingSteps(i);
      } else {
        FinishingSteps(i - |before|);
      }
    }
  }

  // ---- What the comparison of a copy shows ----

  ghost function Size(e: Entry): nat {
    if e.File? then |e.content| else 0
  }

  lemma OneLess(d: Dir, k: string)
    requires k in d
    ensures |d| == |d - {k}| + 1
  {
    assert d.Keys == (d - {k}).Keys + {k};
  }

  lemma {:induction false} BytesWithout(d: Dir, k: string)
    requires k in d
    ensures Bytes(d) == Size(d[k]) + Bytes(d - {k}) && |d| == |d - {k}| + 1
    decreases |d|
  {
    OneLess(d, k);
    var j :| j in d && Bytes(d) == Size(d[j]) + Bytes(d - {j});
    if j != k {
      OneLess(d, j);
      BytesWithout(d - {j}, k);
      BytesWithout(d - {k}, j);
      assert d - {j} - {k} == d - {k} - {j};
    }
  }

  /** What a copy holds of the source: some of its entries, each as in the source. */
  ghost predicate PartOf(part: Dir, src: Dir) {
    part.Keys <= src.Keys && forall k :: k in part ==> part[k] == src[k]
  }

  lemma NoBytes(d: Dir)
    requires |d| == 0
    ensures d == map[] && Bytes(d) == 0
  {
    assert d.Keys == {};
  }

  lemma UnionWithout(a: Dir, b: Dir, k: string)
    requires a.Keys !! b.Keys && k in a
    ensures (a + b) - {k} == (a - {k}) + b && (a - {k}).Keys !! b.Keys && k in a + b && (a + b)[k] == a[k]
  {
  }

  lemma {:induction false} BytesOfUnion(a: Dir, b: Dir)
    requires a.Keys !! b.Keys
    ensures Bytes(a + b) == Bytes(a) + Bytes(b) && |a + b| == |a| + |b|
    decreases |a|
  {
    hide Bytes;
    if |a| == 0 {
      NoBytes(a);
      assert a + b == b;
    } else {
      var k :| k in a;
      BytesWithout(a, k);
      UnionWithout(a, b, k);
      BytesWithout(a + b, k);
      BytesOfUnion(a - {k}, b);
    }
  }

  /** What the copy pod leaves behind: part of the source, beside a file system's own lost+found. */
  ghost function CopyOf(part: Dir, lostFound: bool): Dir {
    if lostFound && "lost+found" !in part then part["lost+found" := Folder] else part
  }

  lemma BytesOfCopy(part: Dir, lostFound: bool)
    ensures var more := if lostFound && "lost+found" !in part then 1 else 0;
      InventoryOf(CopyOf(part, lostFound)) == Inventory(|part| + more, Bytes(part))
  {
    if lostFound && "lost+found" !in part {
      var d := CopyOf(part, lostFound);
      BytesWithout(d, "lost+found");
      assert d - {"lost+found"} == part;
    }
  }

  /** The comparison accepts a copy exactly when it is complete, or when the new file system's own
      lost+found makes up the count for one missing entry that holds no bytes. */
  lemma WhatTheComparisonShows(src: Dir, part: Dir, lostFound: bool)
    requires PartOf(part, src)
    ensures Agree(InventoryOf(src), InventoryOf(CopyOf(part, lostFound)))
       <==> part == src || (lostFound && "lost+found" !in part && |src - part.Keys| == 1 && Bytes(src - part.Keys) == 0)
  {
    hide Bytes, CopyOf;
    var missing := src - part.Keys;
    PartAndRest(src, part);
    BytesOfUnion(part, missing);
    BytesOfCopy(part, lostFound);
    if |missing| == 0 {
      NoBytes(missing);
      assert part + missing == part;
    }
  }

  /** A copy that lost an empty directory passes on a file system with lost+found. */
  lemma LostDirectoryPasses(state: string)
    ensures var src: Dir := map["grastate.dat" := File(state), "d" := Folder];
      var part: Dir := map["grastate.dat" := File(state)];
      part != src && "d" !in CopyOf(part, true) && Agree(InventoryOf(src), InventoryOf(CopyOf(part, true)))
  {
    var src: Dir := map["grastate.dat" := File(state), "d" := Folder];
    var part: Dir := map["grastate.dat" := File(state)];
    assert "d" in src && "d" !in part;
    assert src - part.Keys == map["d" := Folder];
    BytesWithout(map["d" := Folder], "d");
    assert map["d" := Folder] - {"d"} == map[];
    WhatTheComparisonShows(src, part, true);
  }

  lemma PartAndRest(src: Dir, part: Dir)
    requires PartOf(part, src)
    ensures src == part + (src - part.Keys) && part.Keys !! (src - part.Keys).Keys
    ensures |src - part.Keys| == 0 <==> part == src
  {
    if |src - part.Keys| == 0 {
      assert (src - part.Keys).Keys == {};
      forall k | k in src ensures k in part {
        assert k !in (src - part.Keys).Keys;
      }
      assert part == src;
    }
    if part == src {
      assert (src - part.Keys).Keys == {};
    }
  }
}
