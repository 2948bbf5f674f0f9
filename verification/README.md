# Verified model of tt's configuration, watchdog, packing and console logic

`tt` manages Tarantool clusters. This project models five parts of it in Dafny and proves what they
promise, for every input, every run or every reachable state.

* **Cluster configuration** (`ConfigTree`, `PriorityMerge`, `MergeLaws`, `ConfigContainer`, `Cluster`,
  `ConfigSource`, `FailoverModes`, `Patching`, `EffectivePatch`, `Commands`, `PatchExamples`,
  `ClusterSources`). A configuration is a tree of nulls, scalars, lists and
  string-keyed maps. `Config` is a class that walks and rewrites its tree in place and visits leaves in an
  arbitrary order, as Go maps do; its `Merge` is proved equal to a recursive priority merge, hence
  confluent. On it stand scope inheritance, source precedence, the choice of the document to patch, the
  promote, demote and expel patches end to end, and the election demote under arbitrary failures.
* **Watchdog** (`Watchdog`, `WatchdogRuns`, `WatchdogShutdown`, `WatchdogOrder`, `WatchdogWaits`). The main loop, the signal handler, the integrity checker, the
  goroutines that wait inside `StopWithSignal` and the child processes are interleaved step by step. An
  inductive invariant gives the statements over whole runs with any number of restarts.
* **RPM packing** (`RpmTagSet`, `RpmRoundTrip`, `RpmPack`). The encoder of tag sets, the reader described
  in "The Header Structure in Depth" of Maximum RPM, and the proof that the reader inverts the encoder, up
  to whole files.
* **Discovery and connections** (`Discovery`, `PlainText`, `Pool`). Merging partial topologies, framing a
  text stream under any chunking, and the round-robin failover pool.
* **History and last lines** (`History`, `LastLines`). The printer and parser of the console history, and
  two backward block scanners compared with the plain meaning of "the last N lines".

`Options` and `Sequences` hold shared helpers. Go loops over buffers, slices and fields are methods with
loops or classes with fields; the recursive functions they are proved against carry the laws.

## Where the code does less than one might expect

Each of these is stated as an exact condition, with an input that shows it.

* `Merge` is not associative in general: `MergeAssociative` says exactly when it is, and
  `AssociativityNeedsShapes` gives three small trees where it is not.
* A patch takes effect exactly when the documents merged before the patched one hold nothing else at its
  path (`PatchEffect`). In ascending key order that is so for the first target (`NothingAhead`), but what a
  collector returns is not sorted: `KeyOrderMatters` gives two documents whose patch is shadowed.
* An expelled instance still has something to listen on when a later document or an outer scope brings
  entries under `iproto.listen` (`ExpelWorks`, `ExpelEffective`; inputs in `LaterDocumentListens` and
  `ExpelledStillListens`).
* Promoting with failover off replaces an inherited scalar or list at `database` by a map; everything else
  is kept exactly when there is none (`ModePatchKeepsRest`; input in `InheritedScalarReplaced`).
* `Get` through a null, or on an empty document, fails with "not a map" rather than "not exist":
  `LookupFails` says exactly when, and `EmptyDocumentFails` shows one empty document that makes the search
  for patch targets fail.
* A failure of the election demote after its first publish leaves the instance a voter
  (`LocalCluster.DemoteElection`; a failing reload in `DemotedStaysVoter`).
* `Start` leaves its helper goroutines behind exactly when a stop was recorded before the start of the
  instance, or that start failed (`LeftBehind`; runs in `StopBeforeStart` and `StartFails`).
* A call on a text connection has its own buffer: bytes that came in one read with the end of its answer
  are lost for the next call, and nothing is exactly when the answer ends with a read (`Receive`; input in
  `SecondAnswerLost`).
* `Close` of the pool keeps the closed connection as the current one, and the next `Eval` asks it first
  (`ClosedIsAsked`).
* Loading the history keeps as many lines as commands are allowed: `ReloadRestores` says exactly when a
  written history is restored, and by `FullHistoryLost` a full one of several commands never is.
* `GetLastNLinesBegin` counts the newlines of the last, overlapping block twice when the file is longer
  than 10000 bytes and not a multiple of that: its contract says exactly when the result is still right,
  and `LosesFirstLine` and `OverlapHarms` give files with which it loses a line.
* `newTailReader` never looks at the first byte of a block: `TailNeverDrops` says exactly when that shows,
  and `SkippingHarms` gives an input. Its branch for adjacent newlines never changes the outcome.

## Model

| member | source | states |
|---|---|---|
| `ConfigTree.Fetch` | lib/cluster/config.go:116-134 | a read finds a value exactly when one that is not null is there, and finds that value |
| `ConfigTree.PrefixesExist` | lib/cluster/config.go:76-134 | existing prefixes of a path are downward closed, and the strict ones are maps |
| `ConfigTree.WriteSucceeds` | lib/cluster/config.go:45-113 | a write succeeds exactly when no strict prefix holds something other than null or a map; the error names such a prefix |
| `ConfigTree.WriteFrame` | lib/cluster/config.go:94-113 | after a write the path holds the value, its prefixes are maps, and every path not prefix-comparable keeps value and presence |
| `ConfigContainer.WriteViaEnsure` | lib/cluster/config.go:94-113 | creating the maps above the last key and storing one entry is the recursive write, errors included |
| `ConfigContainer.MidwayStep` | lib/cluster/config.go:45-73 | each turn of the in-place walk of `createMaps` keeps the remaining work equal to the recursive one |
| `ConfigContainer.Config.constructor` | lib/cluster/config.go:25-28 | a new configuration is empty |
| `ConfigContainer.Config.CreateMaps` | lib/cluster/config.go:45-73 | the in-place walk makes every node on the path a map; a failing call changes nothing |
| `ConfigContainer.Config.Set` | lib/cluster/config.go:94-113 | the in-place write is the recursive one, and a failing one changes nothing |
| `ConfigContainer.Config.Get` | lib/cluster/config.go:76-134 | the walk with a cursor gives the recursive lookup, with the depth each error names |
| `ConfigContainer.ForEachMap` | lib/cluster/config.go:165-180 | whatever the order of map keys, exactly the leaves below are visited: nulls are skipped, an empty map is a leaf |
| `ConfigContainer.VisitEntry` | lib/cluster/config.go:167-179 | one entry yields exactly the leaves of its subtree |
| `ConfigContainer.ForEach` | lib/cluster/config.go:183-205 | from the root, exactly the leaves; from a path, the leaves of the subtree there, a value that is not a map itself (a null too), nothing when no map holds the last key |
| `ConfigContainer.GetMap` | lib/cluster/config.go:76-91 | the map at a path, an error for anything else |
| `ConfigContainer.ForEachRoot` | lib/cluster/config.go:183-205 | an empty path enumerates exactly the leaves of the tree |
| `ConfigContainer.Config.MergeLow` | lib/cluster/config.go:209-215 | guarded writes in any visiting order leave the recursive priority merge in place |
| `PriorityMerge.MergeRefines` | lib/cluster/config.go:164-215 | for every high and low tree and every order of low's leaves the guarded writes compute the recursive merge |
| `PriorityMerge.MergeConfluent` | lib/cluster/config.go:164-215 | two visiting orders give the same result |
| `PriorityMerge.AbsorbAllByKey` | lib/cluster/config.go:209-215 | a run of guarded writes splits into independent runs, one for each key |
| `PriorityMerge.MergeAtKey` | lib/cluster/config.go:209-215 | merging maps merges entry by entry, and a key appears exactly when high has it or low has a leaf under it |
| `MergeLaws.MergeAtPath` | lib/cluster/config.go:209-215 | along an unblocked path merging commutes with looking up; behind a block nothing of low is visible |
| `MergeLaws.MergeKeepsHigh` | lib/cluster/config.go:209-215 | every non-null value of high survives, a map as a map |
| `MergeLaws.MergeTakesLow` | lib/cluster/config.go:209-215 | a low leaf shows in the result exactly when high has nothing there and no non-map on the way, or the same value already |
| `MergeLaws.MergeAddsNothingElse` | lib/cluster/config.go:209-215 | a node that high lacks is a low leaf taken over or a map leading to one |
| `MergeLaws.MergeStaysNullFree` | lib/cluster/config.go:165-180 | merging brings no null into a null-free tree, whatever low holds |
| `MergeLaws.MergeUnchanged` | lib/cluster/config.go:209-215 | merging changes nothing exactly when low has no leaf to add |
| `MergeLaws.MergeAssociative` | lib/cluster/config.go:209-215 | on null-free trees the two groupings agree exactly when no non-map of the middle tree hides a leaf that the last one adds under a map of the first |
| `MergeLaws.CompatibleAssociates` | lib/cluster/config.go:209-215 | shape-compatible trees associate |
| `MergeLaws.AssociativityNeedsShapes` | lib/cluster/config.go:209-215 | three trees on which `Merge` is not associative |
| `MergeLaws.FirstSourceWins` | cli/cluster/cluster.go:171-219 | a chain of merges gives each path the value of the first source that defines it |
| `MergeLaws.FirstSourceDecides` | cli/cluster/cluster.go:171-219 | path by path and for all trees: the first source that brings anything there decides exactly when no scalar or list of an earlier one stands in the way |
| `MergeLaws.GroupingIrrelevant` | cli/cluster/cluster.go:171-219 | every bracketing of the merges gives the left-to-right result |
| `Cluster.EffectiveMerges` | lib/cluster/cluster.go:213-243 | the in-place sequence of `mergeExclude` is the merge of the four scopes without their structural labels |
| `Cluster.InnermostScopeWins` | lib/cluster/cluster.go:213-280 | outside the structural labels a setting is that at the path below `groups.<g>.replicasets.<r>.instances.<i>`, else below the replicaset, else below the group, else the global one |
| `Cluster.ScopeDecides` | lib/cluster/cluster.go:213-280 | path by path: the innermost scope that has the setting decides it exactly when no scalar or list of a scope further in stands in the way |
| `Cluster.FindInstance` | lib/cluster/cluster.go:311-322 | the search answers a place where the instance lives, or that there is none; with unique names there is one answer |
| `Cluster.MergeExclude` | lib/cluster/cluster.go:213-218 | the low configuration is merged with one label set to null in a copy |
| `Cluster.Instantiate` | lib/cluster/cluster.go:223-280 | the result is the effective configuration of the instance, or the global scope for an unknown name |
| `Cluster.GlobalScopeAt` | lib/cluster/cluster.go:270-280 | an unknown name gets every global setting and nothing under `groups` |
| `Cluster.WithInstanceShape` | lib/cluster/cluster.go:325-338 | on a parsed cluster the write of an instance scope never fails and rebuilds only the scopes on its path |
| `Cluster.WithInstanceFrame` | lib/cluster/cluster.go:283-338 | the instance's scope is the given one, the other instances are the same ones and their instantiated configurations do not move |
| `Cluster.WithInstanceParses` | lib/cluster/cluster.go:195-209 | the re-parse accepts the new tree exactly when the given scope is a map |
| `Cluster.SetInstanceConfig` | lib/cluster/cluster.go:325-338 | the new tree, or which of the write and the re-parse failed; on null-free clusters it succeeds exactly for map scopes |
| `Cluster.ReplaceInstanceConfig` | lib/cluster/cluster.go:283-307 | an error exactly when no such instance lives, otherwise the replacement where it lives |
| `ConfigSource.LessTotal` | cli/replicaset/configsource.go:354-360 | Go's order on keys is total and irreflexive |
| `ConfigSource.LessTransitive` | cli/replicaset/configsource.go:354-360 | and transitive |
| `ConfigSource.LessIs` | cli/replicaset/configsource.go:354-360 | and is that of the first differing character, a beginning being less |
| `ConfigSource.LongestIs` | cli/replicaset/configsource.go:396-410 | a prefix exists exactly when it is no longer than the longest existing one |
| `ConfigSource.ErrorsShowFirst` | cli/replicaset/configsource.go:396-410 | a shorter prefix never fails with a lookup error that the whole path has not |
| `ConfigSource.LookupFails` | lib/cluster/config.go:76-134 | a lookup fails exactly when a strict prefix is reached key by key and holds something other than a map, a null or no document included |
| `ConfigSource.ErrorNames` | lib/cluster/config.go:76-134 | the error names the prefix that is not a map, or the first missing key |
| `ConfigSource.GetPathDepth` | cli/replicaset/configsource.go:396-410 | the longest existing prefix at or above the bound, nothing when it is above, an error exactly when the lookup of the path meets a non-map |
| `ConfigSource.GetPatchTargets` | cli/replicaset/configsource.go:364-390 | the targets are a permutation of the eligible documents in order, strictly for distinct keys; failure exactly when some lookup meets a non-map |
| `ConfigSource.ListsNext` | cli/replicaset/configsource.go:364-390 | one more document keeps the list ordered and complete |
| `ConfigSource.EmptyDocumentFails` | cli/replicaset/configsource.go:364-410 | an empty document beside an eligible one makes the search fail |
| `ConfigSource.CandidatesAre` | cli/replicaset/configsource.go:364-390 | the candidates are exactly the eligible documents with their depths |
| `ConfigSource.OrderUnique` | cli/replicaset/configsource.go:353-390 | a strictly ordered list of given targets is unique |
| `ConfigSource.CandidatesPermute` | cli/replicaset/configsource.go:364-390 | permuted documents have permuted candidates |
| `ConfigSource.CollectionOrderIrrelevant` | cli/replicaset/configsource.go:353-390 | for distinct keys the list, and whether it fails, do not depend on the order in which documents were collected |
| `ConfigSource.TargetIsDoc` | cli/replicaset/configsource.go:364-390 | every target stands for an eligible document, and the head of the list for one that beats all others |
| `ConfigSource.FirstTargetIs` | cli/replicaset/configsource.go:353-410 | the first target has the required part of the path, none holds more of the path, and of those that hold as much it has the least key |
| `ConfigSource.NothingBefore` | cli/replicaset/configsource.go:362-410 | in ascending key order no document before the first target holds the full path |
| `ConfigSource.NothingAhead` | cli/replicaset/configsource.go:362-410 | so nothing at the path is merged ahead of the first target |
| `ConfigSource.NoErrorWrites` | cli/replicaset/configsource.go:81-116 | where no lookup failed the `Set` of the patch cannot fail |
| `ConfigSource.PatchApart` | cli/replicaset/configsource.go:46-116 | merging any number of documents before and after the patch differs only along its path |
| `ConfigSource.PatchLands` | cli/replicaset/configsource.go:81-116 | once the target is merged a written scalar or list is in effect exactly when no earlier document holds anything else there, and stays so |
| `ConfigSource.EmptyMapLands` | cli/replicaset/configsource.go:81-116 | a written empty map is in effect exactly when no earlier document holds anything else there and no later one brings entries |
| `ConfigSource.PatchEffect` | cli/replicaset/configsource.go:81-116 | for documents in any order: exactly when the setting is in effect after the re-merge, and that no path off the patched one moves |
| `ConfigSource.KeyOrderMatters` | cli/replicaset/configsource.go:353-360 | two documents out of order: the first target is patched, the condition fails and the old value stays |
| `ConfigSource.TargetExists` | cli/replicaset/configsource.go:364-390 | whatever the merged configuration holds, some document is eligible |
| `ConfigSource.FailoverReads` | cli/replicaset/cconfig.go:732-754 | nothing at `replication.failover` and no map missing on the way means off, a string its mode, anything else an error |
| `FailoverModes.ParseMeans` | cli/replicaset/failover.go:34-52 | each mode is spelled exactly by its words in any case: off and disabled, manual, eventual, election and raft, stateful, supervised; any other string is unknown |
| `Patching.OthersKeepEffective` | lib/cluster/cluster.go:223-243 | a patch off an instance's scopes leaves its effective configuration alone |
| `Patching.ParsesExactly` | lib/cluster/cluster.go:195-209 | a cluster parses exactly when everything on the way to any instance is nil or a map |
| `Patching.OwnSettingRules` | lib/cluster/cluster.go:223-243 | a scalar or list in the instance scope is the effective setting |
| `Patching.ModePatchWorks` | cli/replicaset/cconfig.go:784-842 | with failover off, promote (demote) makes the effective `database.mode` `rw` (`ro`) exactly when no document ahead holds another; the cluster still parses and every other instance keeps its effective configuration |
| `Patching.LeaderPatchWorks` | cli/replicaset/cconfig.go:784-804 | with manual failover the replicaset's leader is the instance exactly when no document ahead names another; instances elsewhere keep their effective configuration, members keep their own scope |
| `Patching.NoOtherLeafMoves` | cli/replicaset/configsource.go:81-116 | no other scalar or list leaf of the merged configuration changes, appears or disappears |
| `Patching.ExpelWorks` | cli/replicaset/cconfig.go:811-823 | the listen section is empty in the merged configuration exactly when no document ahead holds anything else there and no later one brings entries |
| `Patching.FirstTargetUnshadowed` | cli/replicaset/configsource.go:81-116 | in ascending key order the first target meets the condition of all three operations |
| `EffectivePatch.OwnRestKept` | lib/cluster/cluster.go:223-243 | a patch of the instance scope moves no other scalar or list of the effective configuration exactly when no inherited one stands where the setting needs a map |
| `EffectivePatch.ModePatchKeepsRest` | cli/replicaset/cconfig.go:784-842 | promote and demote with failover off keep every other effective scalar and list exactly when the effective `database` is not itself one |
| `EffectivePatch.MemberRestKept` | lib/cluster/cluster.go:223-243 | a patch of the replicaset scope moves only its own setting in the effective configuration of a member |
| `EffectivePatch.MemberInherits` | lib/cluster/cluster.go:223-243 | a scalar or list is effective for a member exactly when it is its own, or the replicaset's and it has none |
| `EffectivePatch.LeaderPatchKeepsRest` | cli/replicaset/cconfig.go:784-804 | with manual failover a member sees the new leader exactly when it names it itself, or names none and no document ahead names another; it sees no other change |
| `EffectivePatch.ExpelEffective` | cli/replicaset/cconfig.go:811-823 | the expelled instance effectively has nothing to listen on exactly when no document ahead holds anything else there and neither a later document nor an outer scope brings entries |
| `PatchExamples.InheritedScalarReplaced` | cli/replicaset/cconfig.go:784-804 | a cluster whose inherited scalar `database` is replaced by a promote |
| `PatchExamples.ExpelledStillListens` | cli/replicaset/cconfig.go:811-823 | a cluster whose expelled instance keeps the listen entries of its replicaset |
| `PatchExamples.LaterDocumentListens` | cli/replicaset/cconfig.go:811-823 | two documents in order, of which the second fills the emptied section again |
| `Patching.GetCConfigInstance` | cli/replicaset/cconfig.go:865-892 | finds where the instance lives and the failover mode that the value at `replication.failover` of its effective configuration spells; not found exactly when it lives nowhere |
| `Patching.Source.Collect` | cli/replicaset/configsource.go:46-63 | the documents merged in order |
| `Patching.Source.PatchInstance` | cli/replicaset/configsource.go:81-116 | for any key picker, every outcome has its stated cause; a published run is exactly one patch of the picked target, any other leaves the documents alone |
| `Patching.FindPatchable` | cli/replicaset/configsource.go:81-97 | the cluster parses, the instance is found and the operation has a patch for it, or the cause of the refusal |
| `Patching.OneOutcome` | cli/replicaset/configsource.go:81-116 | for unique names the causes exclude each other, so each outcome, publication included, comes exactly when its cause holds |
| `Patching.FirstPickWorks` | cli/replicaset/configsource.go:187-210 | in ascending key order with the first key picked, a published promote or demote makes the written mode effective or the instance the leader |
| `Commands.UnsupportedExactly` | cli/replicaset/configsource.go:285-343 | promote is refused exactly for a failover setting other than nothing, off, disabled or manual, demote for one other than nothing, off or disabled, expel never |
| `Commands.WrittenSetting` | cli/replicaset/cconfig.go:784-842 | by the failover string: `database.mode` `rw`, the replicaset's `leader`, `database.mode` `ro` or an empty `iproto.listen`, at their full paths |
| `Commands.ConsideredExactly` | cli/replicaset/configsource.go:285-390 | the documents considered are exactly those that have the instance, or for a new leader the replicaset |
| `Patching.ChooseAndPatch` | cli/replicaset/configsource.go:67-116 | the targets are listed, one is picked and patched; the result is the patch of that document |
| `Patching.PatchTarget` | cli/replicaset/cconfig.go:784-842 | the patched document is the target with one write |
| `Patching.SomeTarget` | cli/replicaset/configsource.go:67-116 | a known instance always has a target |
| `ClusterSources.GetClusterConfig` | cli/cluster/cluster.go:164-220 | failure exactly when the path is empty, a needed source cannot be collected or a parse fails; etcd and storage are needed exactly where the local configuration lists endpoints for them |
| `ClusterSources.SourcePrecedence` | cli/cluster/cluster.go:171-219 | each path takes the value of the environment, else the file, else etcd and then the storage where endpoints are listed, else the default environment |
| `ClusterSources.SourcesDecide` | cli/cluster/cluster.go:171-219 | the same for all trees, with the exact condition for the deciding source to be seen |
| `ClusterSources.SourceGrouping` | cli/cluster/cluster.go:171-219 | however the merges are grouped the result is the same |
| `ClusterSources.GetInstanceConfig` | cli/cluster/cluster.go:225-243 | environment variables over the effective configuration; an error exactly for an unknown instance, a failing environment collector or a result that is not a map |
| `ClusterSources.WriteTwice` | cli/replicaset/cconfig.go:646-684 | a second write at the same path forgets the first |
| `ClusterSources.LocalCluster.PatchElectionMode` | cli/replicaset/cconfig.go:687-710 | publishes one write exactly when collecting, writing and publishing succeed |
| `ClusterSources.LocalCluster.DemoteElection` | cli/replicaset/cconfig.go:646-684 | under any failures: the flag tells whether the first publish succeeded, success leaves `candidate` in effect and nothing else changed, a later failure leaves `voter` at the setting |
| `PatchExamples.DemotedStaysVoter` | cli/replicaset/cconfig.go:646-684 | a reload that fails leaves the instance effectively a voter, with the published flag set |
| `Watchdog.InvStep` | cli/running/watchdog.go:73-260 | every enabled step of any actor keeps the invariant on helpers, mutex, stop flag, children and waiting goroutines |
| `WatchdogRuns.RunInv` | cli/running/watchdog.go:73-260 | the invariant holds in every state of every run |
| `WatchdogRuns.HelpersAccounted` | cli/running/watchdog.go:85-199 | the barrier counts the live helpers, at most one handler and one checker live, and both have the current context |
| `WatchdogRuns.ReplacedAlone` | cli/running/watchdog.go:136-167 | instance and logger are replaced only when no helper lives |
| `WatchdogRuns.OneChild` | cli/running/process_controller.go:44-58 | at most one child process is alive, the current instance's, and only between its start and the return of `Wait` |
| `WatchdogRuns.RecordedFrom` | cli/running/watchdog.go:219-259 | a recorded stop stays recorded |
| `WatchdogRuns.StopIsFinal` | cli/running/watchdog.go:105-167 | after a recorded stop no instance is ever started |
| `WatchdogRuns.ResetErasesNothing` | cli/running/watchdog.go:136-167 | `shouldStop = false` never runs after a recorded stop |
| `WatchdogRuns.StopReachesInstance` | cli/running/watchdog.go:219-259 | as long as the recording handler lives, the instance it checks is the one current when it recorded, and it has been started exactly if it had been then |
| `WatchdogRuns.BarrierProgress` | cli/running/watchdog.go:85-135 | while a helper lives at the barrier, a helper or a waiting goroutine can move |
| `WatchdogShutdown.ProgressWorks` | cli/running/watchdog.go:172-260 | every step a helper or waiting goroutine takes of its own uses up a bounded amount of work |
| `WatchdogShutdown.DrainBounded` | cli/running/watchdog.go:126-130 | a stretch of such steps is no longer than that work |
| `WatchdogShutdown.BarrierOpens` | cli/running/watchdog.go:126-130 | without new signals a run at the barrier goes on to a state with no helper left |
| `WatchdogShutdown.RunManned` | cli/running/watchdog.go:80-130 | from its start until its context ends the signal handler lives |
| `WatchdogShutdown.LeftBehind` | cli/running/watchdog.go:105-167 | `Start` returns with a helper alive exactly when a stop was recorded before the start of the instance, or that start failed |
| `WatchdogShutdown.StopBeforeStart` | cli/running/watchdog.go:105-113 | a run in which a stop is recorded before the first start and the handler outlives `Start` |
| `WatchdogShutdown.StartFails` | cli/running/watchdog.go:114-119 | a run in which the first start fails and the handler outlives `Start` |
| `WatchdogOrder.MainOrder` | cli/running/watchdog.go:73-169 | two steps of the main loop with none between them are in the order of `Start`, branch by branch |
| `WatchdogOrder.MainBegins` | cli/running/watchdog.go:73-80 | the main loop begins by creating the instance |
| `WatchdogOrder.EndsExactly` | cli/running/watchdog.go:73-169 | a step ends `Start` exactly when something failed, the barrier after a failed preparation opened, a stop was recorded before the start, or the decision was not to restart |
| `WatchdogOrder.RestartDecision` | cli/running/watchdog.go:132-143 | the loop ends after the question exactly when the instance is not restartable or a stop was recorded before, and goes on otherwise |
| `WatchdogOrder.RecreatedOnlyIf` | cli/running/watchdog.go:132-158 | an instance is created again only when the last answer was yes and no stop is recorded |
| `WatchdogOrder.StartsPrepared` | cli/running/watchdog.go:95-101 | an instance is started only after the pre-start action succeeded |
| `WatchdogOrder.FlagIs` | cli/running/watchdog.go:219-259 | `shouldStop` is set exactly when a stop has been recorded |
| `WatchdogOrder.HandlerOrder` | cli/running/watchdog.go:219-259 | a stop signal is recorded under the mutex, then the instance is checked, and a live one is sent the stop and waited for; nothing comes after the handler left |
| `WatchdogOrder.ChecksIfPeriodic` | cli/running/watchdog.go:172-199 | integrity is checked exactly when a period is set |
| `WatchdogOrder.RestartingRun` | cli/running/watchdog.go:105-167 | a run in which the child exits by itself and a second instance is started |
| `WatchdogWaits.DoneIs` | cli/running/process_controller.go:44-58 | `done` is set exactly when some `Wait` for the instance returned without an error |
| `WatchdogWaits.WaitReads` | cli/running/process_controller.go:44-58 | `Wait` of the main loop returns at once exactly when the instance is done |
| `WatchdogWaits.WaiterReads` | cli/running/process_controller.go:84-116 | so does that of the goroutine inside `StopWithSignal` |
| `WatchdogWaits.NewThings` | cli/running/process_controller.go:84-116 | stopping a live instance starts a goroutine that waits for it, sent or not; the logger is replaced exactly by a successful update; a created instance is new and not started |
| `WatchdogWaits.CheckerOrder` | cli/running/watchdog.go:172-199 | a checker takes no step after a failed check |
| `WatchdogRuns.MutexFree` | cli/running/watchdog.go:219-259 | outside the main loop's critical section nobody holds the mutex the handler waits for |
| `WatchdogRuns.WaiterProgress` | cli/running/process_controller.go:84-116 | a handler inside `StopWithSignal` is never stuck once the child is gone |
| `RpmTagSet.BERoundTrip` | cli/pack/rpm_pack.go:199-207 | big-endian two's complement integers are read back |
| `RpmTagSet.PaddingMinimal` | cli/pack/rpm_pack.go:210-221 | padding reaches the next multiple of the boundary with fewer bytes than the boundary |
| `RpmTagSet.EntriesAt` | cli/pack/rpm_tagset.go:187-208 | the index lists every tag with the offset of its aligned data |
| `RpmRoundTrip.PayloadBack` | cli/pack/rpm_tagset.go:267-390 | every well-typed value with NUL-free strings is read back from its bytes |
| `RpmRoundTrip.Placed` | cli/pack/rpm_tagset.go:182-239 | each offset lies after the minimal zero padding to the boundary of its type, and the value's bytes follow there |
| `RpmRoundTrip.PlacedBySize` | cli/pack/rpm_tagset.go:182-239 | integers of w bytes lie on a multiple of w after fewer than w zero bytes, every other value follows at once |
| `RpmRoundTrip.EntriesBack` | cli/pack/rpm_tagset.go:242-251 | packed index entries are read back |
| `RpmRoundTrip.TrailerBack` | cli/pack/rpm_tagset.go:219-227 | the region trailer reads as an entry with offset -16*(n+1) |
| `RpmRoundTrip.RegionBack` | cli/pack/rpm_tagset.go:210-227 | the region tag points at the trailer |
| `RpmRoundTrip.RoundTrip` | cli/pack/rpm_tagset.go:182-264 | a reader that goes by the numbers of the format and refuses unaligned integers gets back exactly ids, types, counts, values and the rest |
| `RpmPack.PackTag` | cli/pack/rpm_tagset.go:267-390 | an error exactly when the value has not the Go type of its tag, otherwise count and payload |
| `RpmPack.AlignData` | cli/pack/rpm_pack.go:210-221 | the division-based padding is the minimal one |
| `RpmPack.AppendTag` | cli/pack/rpm_tagset.go:187-208 | one turn of the loop appends aligned data and an index entry with the offset taken from the buffer |
| `RpmPack.PackTags` | cli/pack/rpm_tagset.go:182-208 | the loop over the buffers, failing exactly on an ill-typed tag |
| `RpmPack.AppendedIsLayout` | cli/pack/rpm_tagset.go:182-239 | what the buffers hold is the layout by offsets |
| `RpmPack.PackTagSet` | cli/pack/rpm_tagset.go:182-239 | the assembled bytes are header, region entry, index, data and trailer |
| `RpmPack.LeadName` | cli/pack/rpm_lead.go:23-26 | the name field is the name padded with zeros to 66 bytes |
| `RpmPack.GenRpmLead` | cli/pack/rpm_lead.go:8-41 | the lead has 96 bytes with every field at its place |
| `RpmPack.PackRpm` | cli/pack/rpm_pack.go:66-165 | the file is lead, padded signature, header and payload; an error exactly when a tag is ill-typed |
| `RpmPack.HeaderAligned` | cli/pack/rpm_pack.go:126-140 | the main header starts on an 8-byte boundary of the file |
| `RpmPack.FileRoundTrip` | cli/pack/rpm_pack.go:66-165 | a reader of the whole file gets back signature, header and payload |
| `Discovery.UpdateInstances` | cli/replicaset/cconfig.go:311-334 | every instance is what the known one and the viewed one say together, UUIDs stay unique |
| `Discovery.CollectViews` | cli/replicaset/cconfig.go:266-290 | one replicaset for each reported UUID, with the sum of its views and the labels of the first |
| `Discovery.MergeTopologies` | cli/replicaset/cconfig.go:266-307 | unique replicasets and instances, expelled instances dropped, masters recalculated, nothing reported missing |
| `Discovery.ClearExpelled` | cli/replicaset/cconfig.go:292-306 | exactly the instances with a URI remain, in order |
| `Discovery.UnexpelledLook` | cli/replicaset/cconfig.go:292-306 | dropping expelled instances changes no other lookup |
| `Discovery.ViewSums` | cli/replicaset/cconfig.go:266-334 | merging consistent views gives the value that knows exactly what some view knows |
| `Discovery.FirstViewIs` | cli/replicaset/cconfig.go:266-290 | a replicaset has the labels of the first view that reports it |
| `Discovery.FirstUriStays` | cli/replicaset/cconfig.go:311-334 | even for contradicting views the first URI stays |
| `Discovery.FirstModeStays` | cli/replicaset/cconfig.go:311-334 | and the first known mode |
| `Discovery.FirstContextStays` | cli/replicaset/cconfig.go:311-334 | and the first context found |
| `Discovery.ViewCombines` | cli/replicaset/cconfig.go:266-334 | merging the views is combining their sightings of an instance in order |
| `Discovery.ViewOrderIrrelevant` | cli/replicaset/cconfig.go:266-334 | the order of views does not matter for an instance |
| `Discovery.PictureOrderIrrelevant` | cli/replicaset/cconfig.go:266-307 | nor for a replicaset, up to a permutation of its instances, master verdict included |
| `Discovery.MergeOrderIrrelevant` | cli/replicaset/cconfig.go:266-307 | nor for the result: each replicaset of one order is in that of the other exactly once |
| `Discovery.PictureComplete` | cli/replicaset/cconfig.go:266-334 | an instance is kept exactly when some view gives it a URI, and its mode is known exactly when some view knows it |
| `Discovery.RecalculateMaster` | cli/replicaset/replicaset.go:36-61 | multi exactly for two writable instances, single for one with the others read-only, none when all are read-only, unknown otherwise |
| `Discovery.VerdictDefinite` | cli/replicaset/replicaset.go:36-61 | the modes give a definite verdict exactly when every resolution of the unknown ones gives it |
| `Discovery.MasterMeans` | cli/replicaset/replicaset.go:36-61 | the numbers of writable and unknown instances decide as the verdicts say |
| `PlainText.SkippedIncomplete` | cli/connector/eval_plain_text.go:252-256 | the prefixes the loop skips over could not have ended a portion |
| `PlainText.ScanStep` | cli/connector/eval_plain_text.go:234-271 | one more byte keeps what the loop knows, or ends the shortest complete prefix |
| `PlainText.CompleteIs` | cli/connector/eval_plain_text.go:21-27 | a portion ends with `;`, or begins with `---` and a newline or with `%TAG` and ends with three dots on a line |
| `PlainText.PushIs` | cli/connector/eval_plain_text.go:280-290 | a push begins with `%TAG` or `-- Push` |
| `PlainText.Conn.NextByte` | cli/connector/eval_plain_text.go:234-247 | bytes come out in stream order, whatever the chunks |
| `PlainText.Conn.ReadPortion` | cli/connector/eval_plain_text.go:208-278 | a portion is the shortest complete prefix of the rest of the stream and exactly it is consumed; without one the stream is used up and the call fails |
| `PlainText.Receive` | cli/connector/eval_plain_text.go:158-206 | for every chunking a call delivers the pushes and the result of the flat stream; only the end of the last read can be lost with its buffer, and nothing is lost exactly when the rest of the stream begins with a read |
| `PlainText.LostExactly` | cli/connector/eval_plain_text.go:158-206 | what is left in the buffer is empty exactly when the remaining bytes are whole reads |
| `PlainText.ReceiveBuffered` | cli/connector/eval_plain_text.go:158-206 | inside the call no byte is lost |
| `PlainText.SecondAnswerLost` | cli/connector/eval_plain_text.go:158-206 | two answers in one read, of which the second is lost |
| `PlainText.PortionsTile` | cli/connector/eval_plain_text.go:158-290 | portions are a prefix of the stream, none lost or repeated, each the shortest complete one, all but the last pushes |
| `PlainText.DeliverIsPortions` | cli/connector/eval_plain_text.go:158-206 | for every callback and decoder: the pushes are the decoded portions before the answer, the undecodable push or the end, and the portions taken and the rest make up the stream |
| `Pool.Pool.Connected` | cli/connector/pool.go:21-37 | a pool around its first connection |
| `Pool.Pool.Connect` | cli/connector/pool.go:46-54 | a new connection belongs to the current index |
| `Pool.Pool.Fail` | cli/connector/pool.go:54-66 | the failed connection is closed and the index moves on |
| `Pool.Pool.Eval` | cli/connector/pool.go:41-68 | endpoints are tried in order from the current one, at most once each; success comes from the first that answers; total failure has tried all, leaves no connection, restores the index and returns the last request error, if any; a pool after `Close` included |
| `Pool.LastErrorIs` | cli/connector/pool.go:41-68 | the error returned is that of the last request that was sent and failed |
| `Pool.Pool.Close` | cli/connector/pool.go:71-76 | no connection of the pool stays open, the closed one stays current and the pool usable |
| `Pool.ClosedIsAsked` | cli/connector/pool.go:41-76 | a closed pool of one endpoint that cannot be connected any more returns the error of the closed connection |
| `Pool.ConnectPool` | cli/connector/pool.go:21-37 | the first endpoint that connects, or an error exactly when none does |
| `Pool.AroundIsRound` | cli/connector/pool.go:41-68 | a full round meets each endpoint exactly once and ends where it began |
| `LastLines.ScanBlock` | cli/util/util.go:244-255 | the inner loop stops exactly at the newline that reaches the target, or counts them all |
| `LastLines.GetLastNLinesBegin` | cli/util/util.go:189-265 | a line start with at most N lines after it, which is the beginning of the last N lines exactly when the overlap is harmless |
| `LastLines.ExactSizes` | cli/util/util.go:189-265 | exact for every file of at most 10000 bytes or a multiple of that |
| `LastLines.HitTwice` | cli/util/util.go:232-265 | a hit in the overlapping block is right exactly when the part read twice has no newline |
| `LastLines.OverlapHarms` | cli/util/util.go:189-265 | a two-line file of which, asked for two lines, the scanner answers the beginning of the second |
| `LastLines.LosesFirstLine` | cli/util/util.go:189-265 | so it does for every file one byte longer than the buffer with its only newline inside |
| `LastLines.BeginUnique` | cli/util/util.go:189-265 | the beginning of the last N lines is one position |
| `LastLines.TailStart` | cli/tail/tail.go:34-95 | the position at which N newlines have been seen, the end for N at most 0, the beginning when there are fewer |
| `LastLines.TailNeverDrops` | cli/tail/tail.go:34-95 | a line start that drops none of the last N lines, exact if and only if no newline among the last N stands at the start of a block |
| `LastLines.TailExact` | cli/tail/tail.go:34-95 | exact when no block of 8192 bytes counted back from the last byte begins with a newline |
| `LastLines.SkippingHarms` | cli/tail/tail.go:34-95 | an input of which, asked for the last line, the reader begins with the first |
| `History.DecBack` | cli/connect/history.go:95-105 | printed timestamps are read back |
| `History.ParseHistoryCells` | cli/connect/history.go:27-71 | the index loops compute the recursive parse: headers start cells, empty or out-of-range ones are dropped, plain files give a command a line |
| `History.HeaderIs` | cli/connect/history.go:29-29 | a header is `#` and digits |
| `History.CellLimit` | cli/connect/history.go:51-66 | a header yields its command unless no line follows or its number is no int64 |
| `History.PlainParsed` | cli/connect/history.go:41-49 | without headers every line is a command made now |
| `History.ScanPrinted` | cli/connect/history.go:95-105 | scanning the printed file gives the printed lines |
| `History.PrintedExample` | cli/connect/history.go:95-105 | two entries and the file written for them |
| `History.ScannedExample` | cli/util/util.go:268-291 | a carriage return at the end of a line is dropped |
| `History.CellsBack` | cli/connect/history.go:27-105 | parsing the printed lines restores the entries |
| `History.HistoryRoundTrip` | cli/connect/history.go:27-105 | printing, scanning and parsing restores commands and timestamps |
| `History.WindowParses` | cli/connect/history.go:27-105 | parsing any trailing window gives exactly the entries whose headers are in it |
| `History.ScanCount` | cli/util/util.go:268-291 | the scanner yields as many lines as the file has |
| `History.ScanSuffix` | cli/util/util.go:268-291 | scanning from a line start yields a tail of the lines |
| `History.LoadsNewest` | cli/connect/history.go:74-82 | what is parsed back from a written file cut at a line is exactly the entries whose headers are among the lines left, if one is |
| `History.ReloadRestores` | cli/connect/history.go:74-105 | writing and loading restores the history exactly when its lines fit the limit and the overlap is harmless, or it is one line made just now |
| `History.FullHistoryLost` | cli/connect/history.go:74-105 | a full history of several commands is never restored |
| `History.CommandHistory.constructor` | cli/connect/history.go:108-120 | an empty history, for any limit |
| `History.CommandHistory.Load` | cli/connect/history.go:74-82 | the entries parsed from the kept lines, for any limit; both lists stay equally long and within a positive limit |
| `History.CommandHistory.AppendCommand` | cli/connect/history.go:85-92 | the entry goes to the end, the oldest one leaves when the limit is passed |
| `History.CommandHistory.WriteToFile` | cli/connect/history.go:95-105 | the file is the printed history |

## Left out

- YAML text, `mapstructure`, non-string map keys: the model starts from decoded trees, and the typed sections of a cluster decode or not as an arbitrary function says.
- ConfigContainer.GetMap: both kinds of error are one answer, as its only caller here drops them; `Config.Get` tells them apart.
- Heap aliasing: Go stores an empty low-priority map by reference and trees share nodes; the model states the value of the merged configuration, not that the source object stays untouched.
- Nulls in the inheritance and instance-replacement theorems: they are for null-free trees, because the leaf visit skips nulls. `Fetch`, `Write`, `Merge` and their laws hold for all trees.
- Patching.Source.PatchInstance: publishing replaces one key or fails; that a store refuses an outdated revision is one way to fail. Every key has one document.
- Role addition (`patchConfigWithRoles`), which merges separately patched copies: it would repeat the single patch per scope.
- Several endpoints of the Tarantool storage in `collectTarantoolConfig`, and everything behind collectors and publishers: they succeed or fail.
- The checks around `demoteElection` that choose it, and other writers of the cluster file while it waits.
- Watchdog: signals that arrive while no handler lives, OS signal masks, real time and timeouts; `doneBarrier.Add` and the `go` statement are one step.
- WatchdogRuns.StopReachesInstance: that the handler eventually runs is fairness and is not claimed.
- PID-file locking between separate `tt` processes.
- Contents of RPM headers and signatures, cpio, gzip and digests; `GenRpmLead` and `PackRpm` take names of at most 66 bytes, as the Go code panics beyond.
- RpmRoundTrip.RoundTrip: sizes and identifiers within int32, as the format stores them.
- ConfigSource.GetPatchTargets: `sort.Slice` is an insertion sort here; for distinct keys any sort gives the same list.
- Discovery.MergeTopologies: says nothing when one view lists a UUID twice.
- PlainText.Receive: the decoder of pushed data is an arbitrary function, and reads have at most 256 bytes and are not empty.
- History.CommandHistory.Load: the 64 KB line limit of `bufio.Scanner` and file-system errors are not modelled.
- History.WindowParses: for entries with timestamps of a non-negative int64 and commands without header-like lines or lines ending in a carriage return.
- LastLines.TailStart: cancellation of the context and read errors; the reader is represented by its start position.
- Connection details in `pool.go`: an endpoint connects or not, a request answers or fails.
- The command line, prompts, table rendering, Docker, git, version comparison, the custom orchestrator and code generation.
