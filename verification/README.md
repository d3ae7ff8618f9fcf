# Proofs about the gates, the merge and the migration of the OpenStack blueprints

This project models the parts of the repository whose correctness is an argument rather than a
branch, and proves that argument.

* **The readiness-deadlock gate** (`hack/validate-readiness-deadlock.py`): Service ownership, the
  wait graph, Tarjan's search, the witness cycle, and the two verdicts of `main`. Beside the
  algorithms stands a step system, `Rollout`, whose runs are the possible orders in which an install
  comes up; the verdicts are proved to speak about those runs. Modules `Graphs`, `Tarjan`, `Witness`,
  `Rollout`, `WaitGraph`, `BuildGraph`, `ServiceOwners`, `RelaxationCheck`, `Advice`,
  `StrictReadiness`.
* **The three-way merge** (`hack/revendor.py`): modules `Trees`, `ThreeWayMerge`.
* **The storage migration** (`hack/migrate-to-pvc.py`): a state machine of both phases, which may
  stop at any line, among a controller, the pods, a copy pod and an operator. Modules `Migration`
  (what no run does) and `MigrationCompletes` (that the migration can be carried to its end).
* **Smaller algorithms**: the three-colour search (`ComponentDag`), the dependency closure
  (`ConfigClosure`), the `lookup` tokenizer (`LookupTokens`), the stripping of `required`
  (`PartialSchema`) and the identity and accounting of usage rows (`UsageRecords`). `Options` holds
  the option type.

`dafny verify dfyconfig.toml` checks everything.

## What the proofs found

1. **The gate's verdict is exact, and global.** `main` tightens one relaxation at a time. It reports
   nothing exactly when no rollout can get stuck and under *every* proper subset of the relaxations
   some rollout does (`RelaxationCheck.CheckRelaxations`). No assumption that dependencies have
   workloads is needed: if tightening an edge makes a cycle, its dependency has one.
2. **The advice printed with a cycle can be wrong.** Lines 624-628 say that relaxing one of the
   listed edges breaks the cycle. `Advice.AdviceMayNotHelp` is an install that the gate measures and
   whose reported component two edges are listed for; relaxing either leaves it cyclic.
   `Advice.RelaxingOneBreaks` says exactly when relaxing an edge breaks the component it was listed
   for. The opposite advice, that no relaxation helps where no edge is listed, always holds
   (`RelaxationCheck.NoCandidateNoRemedy`). The reason lines 632-635 give for it, that the cycle lies
   entirely between startup waits, is wrong exactly where the component goes round among relaxed
   dependencies, which acyclic declarations rule out (`NoCandidateIsStartup`);
   `Advice.CyclicDeclarationsAreMisread` is an install where it is wrong.
3. **A component without workloads is invisible.** Its Composition node gets no edge, so a deadlock
   through its creation is missed (`StrictReadiness.GateMissesWorkloadless`, again an install the
   gate measures). The strict reading finds a deadlock exactly when the gate would if the gates on
   such components were relaxed as well (`StrictReadiness.StrictIsBareRelaxed`), so the two agree
   where every component that is gated on readiness has workloads (`StrictAgrees`).
4. **The merge table and the code differ in one cell.** A leaf that upstream dropped and that we had
   not touched should be taken from theirs by the table at lines 13-17
   (`ThreeWayMerge.DroppedUpstream`). The merge reports it as a conflict instead, exactly where no
   prefix of its path is a leaf of theirs on which ours and base agree; where one is, theirs
   replaces the whole of it (`DeletionIsReported`; `DroppedLeafIsKept` is the smallest input). The
   code is what is modelled.
5. **`merge` can raise**: where ours is the unchanged base, theirs differs and one of the two is no
   mapping, or where ours is no mapping and theirs has a leaf where base has nothing, and nowhere
   else (`ThreeWayMerge.WhenTheMergeRaises`; `EmptyDocumentRaises` is such an input).
6. **The copy comparison has one blind spot.** It accepts an incomplete copy exactly when the new
   file system brought a `lost+found` and the single missing entry holds no bytes
   (`Migration.WhatTheComparisonShows`; `LostDirectoryPasses` is such a copy).
7. **A `lookup` call of fewer than four arguments is read as one only at the end of a line**
   (`LookupTokens.ShortCalls`). Closed by `)` or `}` it is padded with empty tokens, so the test for
   an unreadable call passes it and it counts as a full-list fetch (`ClosedShortCalls`;
   `ThreeReadAsFour` is such a call).
8. **Stripping `required` also drops a property of that name**, and then rejects a document the
   schema accepted (`PartialSchema.RequiredPropertyIsLost`). `PartialValidates` says exactly for
   which documents the promise holds.
9. **`finish` relies on `prepare` having compared.** It completes with the state moved exactly when
   the claim agreed with the node path at the moment the old StatefulSet was deleted, which it does
   not look at (`Migration.FinishMeansMigrated`). That is so in every run in which nobody deletes
   the old StatefulSet or lifts the pause by hand; `HandDeletionLosesState` is a run in which
   someone does.

## Model

| member | source | states |
|---|---|---|
| Tarjan.SccsOf | hack/validate-readiness-deadlock.py:511-551 | on every finite graph the search ends, and its lists partition keys and targets into the classes of mutual reachability, each list after every list it reaches |
| Tarjan.SccSearch.StrongConnect | hack/validate-readiness-deadlock.py:515-546 | one root: all invariants of the search hold again, the work stack is empty and the root is discovered |
| Tarjan.SccSearch.Advance | hack/validate-readiness-deadlock.py:521-534 | the inner loop either discovers a new node or exhausts the iterator, and keeps the invariants |
| Tarjan.SccSearch.Retire | hack/validate-readiness-deadlock.py:535-546 | leaving a node, with or without emitting its component, keeps the invariants and discovers nothing |
| Tarjan.SccSearch.PopComponent | hack/validate-readiness-deadlock.py:539-546 | exactly the stack from the root upwards moves, in reverse, into one new list |
| Tarjan.SccSearch.Discover | hack/validate-readiness-deadlock.py:516-519 | the new state is the old one with the node numbered, stacked and its iterator opened |
| Tarjan.DiscoverKeeps | hack/validate-readiness-deadlock.py:524-530 | numbering a new node keeps every invariant of the search |
| Tarjan.ConsumeKeeps | hack/validate-readiness-deadlock.py:523-532 | a child may be dropped from the iterator once it is discovered and counted in the low link |
| Tarjan.LowerKeeps | hack/validate-readiness-deadlock.py:531-537 | a low link may take any number of a stack node that its node reaches |
| Tarjan.RetireKeeps | hack/validate-readiness-deadlock.py:535-538 | a node whose low is below its number may leave the work stack, and then something is below it there |
| Tarjan.EmitReaches | hack/validate-readiness-deadlock.py:538-546 | everything popped is mutually reachable with the root of the component |
| Tarjan.EmitCloses | hack/validate-readiness-deadlock.py:538-546 | no edge leads from the popped part of the stack to the part left below it |
| Tarjan.EmitKeeps | hack/validate-readiness-deadlock.py:535-546 | emitting a component keeps every invariant, among them that the output so far is right |
| Tarjan.ComponentOnCycle | hack/validate-readiness-deadlock.py:554-557 | the length and self-edge test is passed exactly by the components whose members lie on cycles |
| Tarjan.CyclesOf | hack/validate-readiness-deadlock.py:554-557 | exactly the components on cycles, each once; none exactly when the graph is acyclic |
| Witness.CycleThrough | hack/validate-readiness-deadlock.py:560-577 | a shortest circuit through the start inside the members, or `[start, start]` exactly where there is none |
| Witness.CycleSearch.Visit | hack/validate-readiness-deadlock.py:565-576 | one queue entry: a shortest circuit is returned, or breadth-first order and distances stay right |
| Witness.Unwind | hack/validate-readiness-deadlock.py:570-573 | following `prev` ends at the start, and the reversed chain is a circuit of the recorded length |
| Witness.ComponentHasCircuit | hack/validate-readiness-deadlock.py:560-577 | every member of a reported component has a circuit inside it, and all its cycles stay inside |
| Witness.WitnessOf | hack/validate-readiness-deadlock.py:560-577 | on a reported component and any member as start: a closed walk of real edges inside it, no longer than any cycle through the start, and of two entries exactly for a self-edge |
| WaitGraph.WaitGraphEdges | hack/validate-readiness-deadlock.py:453-508 | the edges of the graph value are exactly the waits of the rules below |
| WaitGraph.CompositionWaits | hack/validate-readiness-deadlock.py:467-471 | a Composition waits for exactly the workloads of its own chart, each by its kind and name |
| WaitGraph.CreationWaits | hack/validate-readiness-deadlock.py:499-507 | a creation waits, for each declared dependency, for its creation where the pair is relaxed and for its readiness otherwise, and for nothing else |
| WaitGraph.RunningWaits | hack/validate-readiness-deadlock.py:472-498 | out of a workload node lead exactly the edges to its creation, to what backs a Service waited on, to workloads of any component whose labels hold every pair asked for, and to workloads of kind Job of that name in the own component |
| WaitGraph.PodWaitSpelled | hack/validate-readiness-deadlock.py:481-491 | a pod wait leads to exactly the workloads whose labels hold every pair, key and value, asked for |
| WaitGraph.JobWaitSpelled | hack/validate-readiness-deadlock.py:492-498 | a job wait leads to exactly the workloads of the own component of that name and of kind Job |
| WaitGraph.SelectsItems | hack/validate-readiness-deadlock.py:396-398 | a selector picks a workload exactly when its pairs are among the workload's labels |
| WaitGraph.StartupRules | hack/validate-readiness-deadlock.py:24-28 | a workload may start exactly when its Composition exists and all its startup waits are satisfied |
| WaitGraph.RulesAreWaits | hack/validate-readiness-deadlock.py:23-31 | the rules of the description and the out-edges of a node ask for the same |
| WaitGraph.GraphStepsAreRules | hack/validate-readiness-deadlock.py:23-31 | a step of a rollout on the graph is a step the rules allow, and the other way round |
| BuildGraph.BuildGraph | hack/validate-readiness-deadlock.py:453-508 | the imperative construction returns exactly that graph |
| BuildGraph.Builder.AddWorkload | hack/validate-readiness-deadlock.py:467-498 | one workload adds exactly its edges: from its Composition, to its creation, to its Service, pod and job waits |
| BuildGraph.Builder.AddServiceWaits | hack/validate-readiness-deadlock.py:474-480 | exactly the edges to the workloads behind each Service waited on |
| BuildGraph.Builder.AddLabelWaits | hack/validate-readiness-deadlock.py:481-491 | exactly the edges to the workloads of any component that carry the labels |
| BuildGraph.Builder.AddJobWaits | hack/validate-readiness-deadlock.py:492-498 | exactly the edges to the component's own Jobs of that name |
| BuildGraph.Builder.AddComponent | hack/validate-readiness-deadlock.py:466-507 | one component adds exactly its workloads' edges and one gate edge a dependency |
| Rollout.DoomedNeverReady | hack/validate-readiness-deadlock.py:453-455 | in no run is a node on a cycle, or one that waits for such a node, ever satisfied |
| Rollout.FinishedRunOutcome | hack/validate-readiness-deadlock.py:455 | every run that can take no further step has satisfied exactly the nodes that do not wait for a cycle |
| Rollout.RunFinishes | hack/validate-readiness-deadlock.py:455 | every run can be carried on to a finished one |
| Rollout.LiveIffAcyclic | hack/validate-readiness-deadlock.py:39-40 | every finished run has satisfied every node exactly when the wait graph has no cycle |
| RelaxationCheck.ReadyNeedsCreation | hack/validate-readiness-deadlock.py:467-473 | a Composition with a workload waits, through it, for its own creation |
| RelaxationCheck.OnlyGatesDiffer | hack/validate-readiness-deadlock.py:499-507 | of two graphs that differ in the relaxations only the edges out of creation nodes differ |
| RelaxationCheck.TighteningKeepsCycles | hack/validate-readiness-deadlock.py:499-507 | tightening dependencies that have workloads keeps every node of every cycle on a cycle |
| RelaxationCheck.NeededMeansWorkload | hack/validate-readiness-deadlock.py:639-647 | if tightening one edge of an acyclic graph makes a cycle, its dependency has a workload |
| RelaxationCheck.LocalMinimalityIsGlobal | hack/validate-readiness-deadlock.py:639-647 | if each single tightening makes a cycle, every proper subset of the relaxations leaves one |
| RelaxationCheck.CheckRelaxations | hack/validate-readiness-deadlock.py:613-647 | both checks come back empty exactly when no rollout gets stuck under the set and some rollout does under every proper subset; an edge is stale, and listed once, exactly when tightening it alone keeps every rollout live |
| RelaxationCheck.RelaxingAllSuffices | hack/validate-readiness-deadlock.py:499-507 | with acyclic dependencies and acyclic startup waits, relaxing every edge leaves no cycle |
| RelaxationCheck.RemedyExists | hack/validate-readiness-deadlock.py:616-635 | with acyclic dependencies, some relaxation set keeps every rollout live exactly when the startup waits are acyclic |
| RelaxationCheck.NoCandidateNoRemedy | hack/validate-readiness-deadlock.py:616-635 | a component without a readiness-gated creation edge inside stays cyclic under every larger relaxation set |
| RelaxationCheck.NoCandidateKinds | hack/validate-readiness-deadlock.py:631-635 | such a component consists of workloads on cycles of startup waits, or of creations on cycles of relaxed dependencies |
| RelaxationCheck.NoCandidateIsStartup | hack/validate-readiness-deadlock.py:631-635 | every node of it is a workload on a cycle of startup waits exactly when no creation in it is on a cycle of relaxed dependencies, so always where the declared ones are acyclic |
| Advice.CyclicDeclarationsAreMisread | hack/validate-readiness-deadlock.py:631-635 | an install the gate takes in which the message for such a component is wrong: it consists of creations |
| Advice.RelaxingOneBreaks | hack/validate-readiness-deadlock.py:623-630 | relaxing a listed edge takes every node of its reported component off all cycles exactly when without that gate none is on one and the dependency's creation does not lead back |
| Advice.RelaxingOneMakesLive | hack/validate-readiness-deadlock.py:623-630 | the same for the whole install: relaxing one edge keeps every rollout live exactly when every cycle used that gate and the dependency's creation does not lead back |
| Advice.AdviceMayNotHelp | hack/validate-readiness-deadlock.py:616-630 | for one install that passes every earlier refusal: exactly two edges are listed for the reported component, and relaxing either leaves a node of it on a cycle |
| StrictReadiness.StrictIsBareRelaxed | hack/validate-readiness-deadlock.py:466-473 | with the edge from every Composition to its own creation added there is a cycle exactly when there is one in the wait graph with the gates on rendered components without workloads relaxed too |
| StrictReadiness.StrictAgrees | hack/validate-readiness-deadlock.py:466-473 | where every dependency gated on readiness has workloads or is not rendered, adding the edge from Composition to its own creation changes no verdict |
| StrictReadiness.GateMissesWorkloadless | hack/validate-readiness-deadlock.py:466-473 | an install that passes every earlier refusal, with acyclic dependencies and an acyclic wait graph, in whose strict graph a creation waits for itself |
| ServiceOwners.OwnServices | hack/validate-readiness-deadlock.py:394-402 | one chart: every Service name is owned by its first creator, and exactly the names owned elsewhere are recorded as duplicates |
| ServiceOwners.FindDangling | hack/validate-readiness-deadlock.py:407-418 | exactly the undeclared Services that something waits on and nothing rendered backs |
| ServiceOwners.Resolve | hack/validate-readiness-deadlock.py:391-430 | all names created by two components are reported if there are any, else all Services that dangle if there are any, else the one owner of each name is returned, backed by exactly the workloads of its chart that carry every pair of the selector of the first Service of that name, if that selector is not empty |
| ServiceOwners.OwnAll | hack/validate-readiness-deadlock.py:393-402 | the loop over the components: every name two components create is recorded, and where there is none each name has its one owner |
| ServiceOwners.OwnersPick | hack/validate-readiness-deadlock.py:394-402 | the first Service of a name in its owner's chart decides what backs it, and labels must agree in key and value |
| ServiceOwners.Backing | hack/validate-readiness-deadlock.py:396-398 | the workloads a selector picks, none for an empty selector |
| ServiceOwners.MeasuredWaitsAreEdges | hack/validate-readiness-deadlock.py:407-430 | after resolving, every Service wait that is not declared external is an edge of the graph |
| Trees.Follow | hack/revendor.py:71-76 | following the keys one at a time finds what the path names, or the missing-key answer |
| Trees.WalkIsLeaves | hack/revendor.py:60-68 | the walk lists exactly the paths at which there is a leaf |
| Trees.GetPutAt | hack/revendor.py:71-84 | at and below a written path the tree reads as the written value |
| Trees.GetPutAbove | hack/revendor.py:79-84 | above a written path there are mappings |
| Trees.GetPutAside | hack/revendor.py:79-84 | every other path reads as before, even where a scalar was replaced on the way |
| Trees.SortedIsPrefixFirst | hack/revendor.py:92 | in the tuple order every path comes before its extensions |
| ThreeWayMerge.RunKeeps | hack/revendor.py:87-103 | after any number of paths the tree is theirs below the taken paths and the original ours elsewhere, and no taken path lies on the way to another |
| ThreeWayMerge.RunBooks | hack/revendor.py:92-102 | every path dealt with is taken, kept, reported or equal, and each list holds a path only for its reason |
| ThreeWayMerge.ListedOnce | hack/revendor.py:92-102 | a merge lists no path twice, neither in one of its three lists nor in two of them, and lists leaf paths only |
| ThreeWayMerge.ConflictFreeMerge | hack/revendor.py:87-103 | without conflicts, at every leaf path of the three inputs the result is theirs, or a kept override where theirs equals base and the result equals the original ours |
| ThreeWayMerge.WhatIsReplaced | hack/revendor.py:92-98 | over the three documents: a path is replaced by theirs exactly when it, or something it lies in, is a leaf path at which the rule takes theirs, and then the result reads as theirs there |
| ThreeWayMerge.PathLocalRule | hack/revendor.py:92-102 | although ours is read as changed so far, the three original documents decide each leaf path: replaced, kept or reported |
| ThreeWayMerge.NothingIsLostSilently | hack/revendor.py:79-102 | in every merge, conflicts or not, a leaf of ours stays, gives way to theirs, or is reported; put replaces one on its way only where a conflict is reported for it |
| ThreeWayMerge.MergeAgain | hack/revendor.py:87-103 | merging a conflict-free result again takes nothing, reports nothing, changes nothing and keeps the same paths |
| ThreeWayMerge.TheirsIsNotWritten | hack/revendor.py:79-98 | no written path lies inside a subtree shared with theirs |
| ThreeWayMerge.DroppedUpstream | hack/revendor.py:94-102 | code and table decide alike except where upstream dropped what we had not touched |
| ThreeWayMerge.DeletionIsReported | hack/revendor.py:94-102 | such a leaf is a conflict exactly when no prefix of its path, alike in ours and base, is a leaf of theirs |
| ThreeWayMerge.DroppedLeafIsKept | hack/revendor.py:94-102 | one leaf that upstream drops: the merge does not raise and reports a conflict there, so `Revendor` writes nothing |
| ThreeWayMerge.WhenTheMergeRaises | hack/revendor.py:79-97 | for all documents, mappings or not, exactly when the merge raises |
| ThreeWayMerge.EmptyDocumentRaises | hack/revendor.py:79-97 | an empty document vendored unchanged and a mapping upstream: the merge raises |
| Trees.OpenKeepsPut | hack/revendor.py:80-83 | assigning an empty mapping where the way is blocked does not change what putting at the path makes, and opens the way by one key |
| Trees.AssignIsPut | hack/revendor.py:84 | where the way is open the last assignment alone makes the put |
| ThreeWayMerge.Merger.PutAt | hack/revendor.py:79-84 | the loop that walks down and assigns in place leaves the put value of the old document, or raises and leaves it as it was |
| ThreeWayMerge.Merger.One | hack/revendor.py:93-102 | one pass of the loop changes the document and the lists as one step of the rule |
| ThreeWayMerge.Merger.Merge | hack/revendor.py:87-103 | the loop leaves what the rule gives over the leaf paths, prefixes first |
| ThreeWayMerge.Revendor | hack/revendor.py:156-180 | something is written only with `--apply` and without conflicts, and then it is theirs or a justified override at every leaf path |
| Migration.NextKeeps | hack/migrate-to-pvc.py:213-371 | every line of either phase and every step of the environment keeps the invariant |
| Migration.RunInv | hack/migrate-to-pvc.py:213-371 | so it holds in every state of every run |
| Migration.OldSetIsDeletedSafely | hack/migrate-to-pvc.py:247-324 | the script deletes the old StatefulSet only in a state where the node path is as probed and holds the marker, the claim agrees with it, and nothing runs or will run on it |
| Migration.OldSetGoesOnlyBy | hack/migrate-to-pvc.py:323-324 | the old StatefulSet goes only by that deletion or by hand |
| Migration.OldSetStaysGone | hack/migrate-to-pvc.py:247-263 | once gone it is not recreated in any run without interference by hand |
| Migration.PauseIsLiftedSafely | hack/migrate-to-pvc.py:333-356 | `finish` lifts the pause only when the claim exists, no StatefulSet of the old shape stands and the Composition is at the wanted version, whatever was done by hand before |
| Migration.FinishMeansMigrated | hack/migrate-to-pvc.py:329-371 | when `finish` with `--apply` completes the pod is Ready on a claim at the wanted version; the state has arrived there in every run without interference by hand, and otherwise exactly when the claim agreed with the node path as the old StatefulSet was deleted |
| Migration.HandDeletionLosesState | hack/migrate-to-pvc.py:329-371 | a run in which `finish` completes on a claim nobody compared |
| Migration.ScaledDownOnce | hack/migrate-to-pvc.py:235-251 | scale-downs are at most one more than the times others raised the replicas or recreated the set |
| Migration.RerunsOnlyRead | hack/migrate-to-pvc.py:218-251 | in every run, from a state with the set scaled down, gone or migrated, `prepare` gets no further than reading, and scales nothing down, until someone raises the replicas or the set is recreated |
| Migration.PrepareOnlyPlans | hack/migrate-to-pvc.py:245-275 | in every run, a `prepare` without `--apply` changes nothing at any of its lines until it ends |
| Migration.FinishOnlyPlans | hack/migrate-to-pvc.py:353-359 | the same of a `finish` without `--apply` |
| Migration.FilledClaimIsNotCopiedOver | hack/migrate-to-pvc.py:307-316 | over every run: a claim that holds anything but `lost+found`, with no copy writing, stays exactly as it is while it exists and no server has written to it |
| Migration.WhoChangesTheClaim | hack/migrate-to-pvc.py:284-316 | a claim changes only under a copy before the removal, under the new server, or by the operator |
| Migration.ClaimNeedsMarker | hack/migrate-to-pvc.py:265-305 | a claim comes into being only after the marker was found on the node path, or, after interference by hand, under the new StatefulSet |
| Migration.NodePathIsLeft | hack/migrate-to-pvc.py:265-266 | neither phase writes to the node path |
| MigrationCompletes.CanComplete | hack/migrate-to-pvc.py:213-371 | from every reached state in which neither phase runs, the old set has its one replica, the marker is there and the claim is missing or new, the run can go on: `prepare` deletes the old set, `finish` completes, the state of the node path has arrived and the Composition is not paused |
| MigrationCompletes.InstallMigrates | hack/migrate-to-pvc.py:213-371 | so from every fresh install with the marker on its node path, with no interference by hand |
| MigrationCompletes.PauseIsLifted | hack/migrate-to-pvc.py:353-356 | in every run, a `finish` with `--apply` that read a paused Composition leaves it unpaused as it reaches its wait |
| MigrationCompletes.ScaledDownKnowsNode | hack/migrate-to-pvc.py:239-248 | in every run, `prepare` stops the server only after it saw, in the same attempt, the pod on its node |
| Migration.WhatTheComparisonShows | hack/migrate-to-pvc.py:317-321 | the comparison accepts a copy exactly when it is complete, or when `lost+found` makes up for one missing entry without bytes |
| Migration.LostDirectoryPasses | hack/migrate-to-pvc.py:317-321 | a copy that lost an empty directory and is accepted |
| ComponentDag.FindCycles | hack/validate-component-dag.py:64-80 | every component ends black; every report is a walk that runs into itself; every cycle contains the last edge of a report, so something is reported exactly when the known dependencies have a cycle |
| ComponentDag.Search.Visit | hack/validate-component-dag.py:67-78 | a visit ends, blackens its node, reports a grey one, and leaves every node alone that was not white |
| ComponentDag.TopologicalIsAcyclic | hack/validate-component-dag.py:74-78 | the order in which nodes turn black shows that the edges which close no report have no cycle |
| ComponentDag.GatesAgree | hack/validate-component-dag.py:64-80 | this search and `cycles_of` give the same verdict on the same graph, the right one |
| ConfigClosure.Closure | hack/validate-component-config-closure.py:171-180 | on every dependency map, cyclic ones included: exactly the names reachable from the given one |
| ConfigClosure.ClosureIsLeast | hack/validate-component-config-closure.py:171-180 | the least set that holds the name and is closed under dependencies |
| ConfigClosure.ClosureIsMonotone | hack/validate-component-config-closure.py:171-180 | more dependencies take nothing out, and the closure of a member stays inside |
| LookupTokens.LookupArgs | hack/validate-origin-version-pin.py:512-546 | the scanning loops return one list for each place where `lookup` stands as a word, in order (`CallPositions`), of at most four tokens read behind it |
| LookupTokens.CallPositions | hack/validate-origin-version-pin.py:513-545 | the lists belong one to one, in order, to the positions at which `lookup` stands as a whole word, and each is what is read behind its own |
| LookupTokens.ReadArgs | hack/validate-origin-version-pin.py:514-545 | the loop over one call |
| LookupTokens.ReadToken | hack/validate-origin-version-pin.py:521-544 | one token of any of the three kinds, closed or not |
| LookupTokens.ArgsReadBack | hack/validate-origin-version-pin.py:516-544 | printed tokens are read back one for one and reading goes on behind them |
| LookupTokens.FourTokensReadBack | hack/validate-origin-version-pin.py:505-546 | any four well-formed tokens printed behind `lookup`, anywhere in a text, come back as that call |
| LookupTokens.UnclosedTakesRest | hack/validate-origin-version-pin.py:521-538 | a quote or a parenthesis that nothing closes takes the rest of the text as one token |
| LookupTokens.UnquoteShown | hack/validate-origin-version-pin.py:549-550 | unquoting a printed quoted token gives what stands between its quotes, and leaves every other token alone |
| LookupTokens.CallIsRead | hack/validate-origin-version-pin.py:513-546 | no call is skipped: two calls do not overlap |
| LookupTokens.ShortCalls | hack/validate-origin-version-pin.py:514-545 | fewer than four arguments are read as such exactly where, blanks aside, the line or the text ends |
| LookupTokens.ClosedShortCalls | hack/validate-origin-version-pin.py:539-570 | before `)` or `}` they are padded with empty tokens and pass for a full-list fetch |
| LookupTokens.ThreeReadAsFour | hack/validate-origin-version-pin.py:539-570 | a call of three arguments that is read as four |
| PartialSchema.StripByPath | hack/gen-componentvalues-schema.py:29-38 | at every path through a member called required nothing is left; at every other path there is what there was |
| PartialSchema.StripRequired | hack/gen-componentvalues-schema.py:29-38 | the recursion returns the document stripped in that sense |
| PartialSchema.PartialValidates | hack/gen-componentvalues-schema.py:29-38 | what validated, with members deleted at any depth, validates against the stripped schema exactly when it loses no member called required |
| PartialSchema.PartialOverridesValidate | hack/gen-componentvalues-schema.py:8-9 | so always, where no property has that name |
| PartialSchema.RequiredPropertyIsLost | hack/gen-componentvalues-schema.py:32 | a schema and a document it accepts whose stripped form rejects the document |
| UsageRecords.Feed | blueprints/openstack/chart/files/contract-emitter.py:68-71 | what is hashed is the NUL-terminated parts in order |
| UsageRecords.RecordText | blueprints/openstack/chart/files/contract-emitter.py:166-167 | what a row feeds to the hash: organisation, tenant, service, resource, metric and window start, in that order, each before a NUL |
| UsageRecords.TerminatedInjective | blueprints/openstack/chart/files/contract-emitter.py:63-71 | lists of NUL-free parts, of any lengths, are hashed from the same text only if they are the same |
| UsageRecords.SameWindow | blueprints/openstack/chart/files/contract-emitter.py:161-163 | two clocks get the same window start exactly in the same interval |
| UsageRecords.WindowIsAligned | blueprints/openstack/chart/files/contract-emitter.py:161-163 | the window starts at the multiple of the interval that the clock is behind by less than one interval |
| UsageRecords.KeyIdentifies | blueprints/openstack/chart/files/contract-emitter.py:166-167 | two rows of any two runs share a key exactly when organisation, tenant, service, resource, metric and window agree |
| UsageRecords.SameKeySameWindow | blueprints/openstack/chart/files/contract-emitter.py:161-167 | two runs give the same project and metric the same key exactly within one window |
| UsageRecords.CountFloatingIps | blueprints/openstack/chart/files/contract-emitter.py:190-195 | the counter holds each owner's floating IPs and no zero |
| UsageRecords.CollectUsage | blueprints/openstack/chart/files/contract-emitter.py:160-238 | the rows are those of every project in order, then the capacity rows; `FiguresReported` and `CapacityReported` say which they are and what each reports |
| UsageRecords.FiguresReported | blueprints/openstack/chart/files/contract-emitter.py:199-219 | over projects with distinct ids: a project has a row of a metric exactly when the figures up to its own are numbers, and it reports that figure under the project's id and name: instances, cores, memory, gigabytes in use, and the floating IPs it owns |
| UsageRecords.CapacityReported | blueprints/openstack/chart/files/contract-emitter.py:222-236 | the same of the three capacity metrics: the hypervisors' processors, then their memory, and the pools' total, under no tenant |
| UsageRecords.RowsHaveProjects | blueprints/openstack/chart/files/contract-emitter.py:199-219 | no project row is about anything but a listed project |
| UsageRecords.RowsHaveDistinctKeys | blueprints/openstack/chart/files/contract-emitter.py:160-238 | over projects with distinct ids all rows of a run have distinct keys |
| UsageRecords.FloatingIpsConserved | blueprints/openstack/chart/files/contract-emitter.py:190-219 | the rows together report each floating IP of a listed project once and no other |

## Left out

Deadlock gate

- Rendering charts, parsing YAML, the annotations, `read_umbrella`, `read_gate`, `check_partition` and the choice of gate mode: charts, dependencies and the effective relaxations are given.
- `why`, `stats`, messages and exit codes: they only describe the edges.
- Tarjan.SccsOf: the sorted order of nodes and children is modelled as an arbitrary listing without repetition, so the order in which lists come out, beyond the reachability order, is not stated.
- Witness.WitnessOf: the start is a parameter; that the source passes the smallest member in sorted order is not modelled.
- ServiceOwners.Resolve: takes the components in any order, so which creator of a name is called the first is open; this shows only where the run is refused. The messages are left out.
- Rollout: a rollout only moves forward; a node that becomes ready and later fails is not modelled, as in the gate.

Merge

- Values are immutable trees held in a field that the methods reassign. Sharing of subtrees between ours and theirs is covered by ThreeWayMerge.TheirsIsNotWritten, not by references. A mapping that the YAML of ours shares with itself through an anchor and an alias, which a write at one path changes at both, is not modelled.
- Two scalars are equal when they are the same value; that Python calls 1, 1.0 and true equal is not modelled. Keys are strings. Comments and formatting are not part of a tree.
- ThreeWayMerge.Merger.Merge: the listing is any one in which prefixes come first, of which the sorted one is a case (Trees.SortedIsPrefixFirst).

Migration

- One `prepare` and one `finish` at a time. While `prepare` runs nobody else touches the pause, the StatefulSet, the claim or the node path, except the controller, the pods and the copy pod; the version only moves forward. While it does not, the operator may raise the replicas, lose the node's disk and lift the pause by hand; delete the claim, before the removal of the old StatefulSet or, with `finish` not running either, while the Composition is paused; and, with `finish` not running and no pass or copy under way, delete the old StatefulSet by hand. Deleting the claim under the running new server, or setting the pause by hand, is outside the model.
- Time: a timeout is a stop. `RESYNC_GUARD` is assumed to outlast a reconcile pass that began before the pause, which is what the comment at lines 254-258 relies on; a controller whose resync is longer is outside the model.
- Claim binding, storage classes, node affinity and the contents of a partly failed API call. A directory is a map from relative paths to folders or files; links, permissions and sizes of anything but regular files are not part of it. Migration.WhatTheComparisonShows takes a copy to hold unaltered entries of the source.
- That the node path and the claim hold the same bytes is not implied by the counts and is not claimed.

Smaller algorithms

- ComponentDag.FindCycles: the texts of the problems and the check for undeclared dependencies.
- LookupTokens.LookupArgs: the characters that the pattern counts as part of a word are the ASCII ones. Comment stripping and the gate around the tokenizer are left out.
- PartialSchema.StripRequired: returns the stripped document where the source changes it in place, so sharing inside one document is not captured; members are visited in any order. Schemas are those of a fragment of JSON Schema draft-07: type, properties, required, items, additionalProperties false, scalar enum and numeric bounds.
- UsageRecords.KeyIdentifies: stops before the hash; SHA-256 is not modelled. Metric names and the timestamp format are taken to be injective and free of NUL bytes.
- UsageRecords.CollectUsage: units, tags and the window end. The floating IPs are those counted before Neutron's answer ended or failed.
- The version pin, the emission gates, the health fold, the single-field gates and everything that talks to a cluster, a registry or a database: existence checks, or code whose templates are not part of this model.
