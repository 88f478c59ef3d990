# Navigator: a verified model of its controllers and pilots

Navigator runs Elasticsearch and Cassandra clusters on Kubernetes. Its controllers compare a
cluster resource with the StatefulSets that exist and take one action per sync; a pilot beside
every database process runs hooks, starts and stops the process, and reports what it sees. This
project models the decisions of both and proves what holds over every run of them.

`dafny verify dfyconfig.toml` checks the whole project.

## What is modelled

**Stale caches.** Controllers read from informer caches. Each StatefulSet is kept as the history
of its versions; a read returns any version, two reads of one sync need not agree, an update is
accepted only if it was computed from the newest version, and a create only if nothing exists.

| file | part of Navigator |
|---|---|
| `PodNames` | the names by which pilots are found |
| `ElasticsearchActions` | the Scale and UpdateVersion actions on one node pool |
| `ElasticsearchControl` | one sync of the Elasticsearch controller, and runs of syncs |
| `RollingUpgrade` | the upgrade protocol: controller, pod replacement, pilots, posted statuses |
| `UpgradeProgress` | its termination, absence of deadlock, and when it can complete |
| `ReconcileNodePools` | deletion of node pools that left the spec |
| `CassandraControl`, `CassandraScaleOut` | creation and scale-out, one node at a time |
| `Quorum`, `UpdateValidation` | admission, `minimum_master_nodes`, chains of updates |
| `ClusterConditions` | the Progressing condition |
| `Scheduler` | the per-key timer queue of the pilot |
| `PilotLifecycle` | hooks, subprocess and shutdown of the pilot |
| `Nodetool` | node status and readiness of Cassandra |
| `OwnerChain` | finding the cluster that owns an object |

Code that updates state is modelled by classes and methods with loops (`ApiServer`,
`Controller`, `ClusterStatus`, `ScheduledWorkQueue`, `GenericPilot`, the array of
`ReconcileNodePools`). Each method is proved equal to a function of the old state, and the
theorems are about that function.

## Assumptions

- Specs are admitted ones: node pool names are distinct and replicas are not negative.
- Runs may start with stale caches. What those hold must not have been undone: for Elasticsearch,
  a set that was there, upgraded or settled in a version a cache may still return is so in the
  newest one; for an upgrade, every such version has the old image and annotation and the
  replicas of the spec; for Cassandra, none has more ready replicas than there are now.
- What is said of settled Elasticsearch pools holds as long as no idle sync lists sets in a way
  that exposes a pool's own set to deletion. `IdleKeepsIff` says exactly when a listing does, and
  `LabelledIsSafe` that it does not when pool sets keep their labels and no label is shadowed.
- One upgrade at a time: spec, versions and images stay fixed during a run of `RollingUpgrade`.
  The safety and progress results are about a version that is really new, with a new image;
  `CompletesIff` is about every other combination as well.
- The rollout is the only thing that replaces pods, when the template really changes and at
  ordinals not below the partition; a pilot reports the new version only from a pod that runs it;
  a cached pilot is never ahead of the resource it copies. Nothing is assumed of posted counts,
  except 0 <= updated <= replicas.
- The movement of the partition, the number of writes and progress are stated for steady runs, in
  which the posted count of updated replicas counts pods on the new image, from zero, without
  falling; it may lag.
- Progress of either system is about effective steps: those that change something, with statuses
  that are accurate when posted. `EffectiveStepsBounded` counts what pods that lose readiness and
  other statuses add.
- Progress of the upgrade needs pilots to carry the labels of their node pool. The controller
  that creates pilots sets none (`pkg/controllers/pilotcontroller/pilot.go:215`); without them
  both actions wait for ever.
- The one-at-a-time result for Cassandra is for runs in which no ready pod is lost. That replicas
  only grow, and never past the desired count, is for every run.
- Calls of AddWithKey with the same key do not overlap, since a pilot has one worker
  (`pkg/pilot/genericpilot/controller/genericpilot.go:87`); `OverlappingAddsLeak` shows that this
  is needed. Calls with different keys may overlap.
- A command that has been started cannot be started again, as `exec.Cmd` has it; every sync and
  every stop of the pilot is one atomic step.
- No foreign StatefulSet has the name of a Cassandra node pool's set; set names are represented
  by pool names, which admission keeps distinct. No other set that the cluster owns carries the
  label of a live pool: with one, the ready count in the status would be that of whichever set the
  iteration over the map comes to last (`UpdateStatus` allows either).

## Where the code does less than it says

Each of these has a concrete instance and the exact condition, both proved.

- **Upgrades that never complete.** The next action compares version texts
  (`cluster_control.go:244`), the upgrade compares with semver equality, which ignores build
  metadata (`update_version.go:78`); a spec that pins the old image, or has none, changes nothing
  that pilots could report. An upgrade of at least one pool can complete if and only if the texts
  agree, or the versions differ in more than metadata, an image is known, and it is a new one unless no pool has
  replicas (`CompletesIff`; instances in `ExampleUpgradesFail` and `MetadataBump`).
- **An empty pool** is annotated with the new version while its template keeps the old image
  (`EmptyPoolKeepsImage`), and only an empty pool is (`AnnotatedMeansUpgraded`).
- **Deletion of a live pool's set.** Of two sets with the label of one live pool the second is
  deleted (`DuplicateLabelDeleted`), even a settled pool's own (`SettledPoolLost`). The deletions
  are right if and only if no controlled set shares a label of the spec with a set listed before
  it (`DeletesExactlyUnreferenced`); for one set the condition is `ToDeleteIff`, for a pool's own
  set `IdleKeepsIff`.
- **The master count wraps** at 32 bits (`WrappedQuorumUnsafe`). The generated minimum is a safe
  quorum if and only if the number of masters fits an int32 (`AdmittedQuorumSafe`).
- **A first condition of a second type is dropped** by UpdateStatusCondition
  (`SecondTypeDropped`, `UpdateTakesEffectIff`).
- **Lost work in the scheduler.** The deferred clear of a callback stops the newer timer of the
  same key (`LateCallbackLosesWork`), exactly when the callback returns while that timer is armed
  (`LostExactlyWhenCallbackReturnsLate`).
- **PostStart hooks without a start** (`PostStartWithoutStart`) are possible exactly when the pilot
  was told to stop before the start and some of those hooks have not run (`PostStartEarlyIff`).
- **Readiness with duplicate host ids** depends on the iteration order of a map
  (`DuplicateIdUnstable`), exactly when the lists are consistent and the hosts with the local id
  disagree (`AnswerUniqueIff`).
- **Owner chains with a cycle** send RootControllerRef into an endless recursion
  (`OwnedByEachOther`); it ends exactly when no object is visited twice (`TerminatesIff`).

## Model

The first rows are the main results; the others follow the modules.

| member | source | states |
|---|---|---|
| RollingUpgrade.AtMostOnePending | pkg/controllers/elasticsearch/actions/update_version.go:158-191 | in every run, whatever counts are posted, at most one pod of the whole cluster runs the new image without having reported it |
| RollingUpgrade.UpgradedPodsAreSuffix | pkg/controllers/elasticsearch/actions/update_version.go:94-118 | in every run upgraded pods are a suffix of the ordinals, all but the lowest have reported, and so have all above the partition |
| RollingUpgrade.FirstPartition | pkg/controllers/elasticsearch/actions/update_version.go:158-191 | in every run the new image arrives with the partition at the last ordinal |
| RollingUpgrade.AnnotatedMeansUpgraded | pkg/controllers/elasticsearch/actions/update_version.go:147-153 | in every run an annotated pool has every pod upgraded and reported; its template has the new image exactly when it has replicas |
| RollingUpgrade.RolloutShape | pkg/controllers/elasticsearch/actions/update_version.go:94-118 | in every steady run the upgraded pods of a rollout at partition p are exactly [p, n) or exactly (p, n), and those above p have reported |
| RollingUpgrade.EachUpdateMovesByOne | pkg/controllers/elasticsearch/actions/update_version.go:158-191 | in every steady run each update of a rolling pool lowers the partition by exactly one, and at zero sets the annotation |
| RollingUpgrade.PartitionOnlyFalls | pkg/controllers/elasticsearch/actions/update_version.go:158-191 | in every steady run the partition falls by at most one per version, never below zero, and the new image stays |
| RollingUpgrade.WritesAddUp | pkg/controllers/elasticsearch/actions/update_version.go:94-206 | in every steady run, with failing pods, lagging statuses and stale reads, the writes made and the writes left add up to n + 1 for each pool of n replicas |
| UpgradeProgress.NeverStuck | pkg/controllers/elasticsearch/actions/update_version.go:125-200 | until every pool is done some effective step is enabled |
| UpgradeProgress.MaximalRunsComplete | pkg/controllers/elasticsearch/actions/update_version.go:125-200 | a run of effective steps that cannot be extended has upgraded every pool |
| UpgradeProgress.UpgradeCompletes | pkg/controllers/elasticsearch/actions/update_version.go:125-200 | from every reachable state the upgrade can be completed within the potential |
| UpgradeProgress.UpgradeBound | pkg/controllers/elasticsearch/actions/update_version.go:125-200 | a run of effective steps from the start has at most 8n + 2 of them for each pool of n replicas |
| UpgradeProgress.CompletesIff | pkg/controllers/elasticsearch/actions/util.go:12-32 | from any start some run completes the upgrade if and only if there is no pool, or the versions agree as text, or they differ in more than build metadata, an image is known, and it is a new one unless no pool has replicas |
| UpgradeProgress.ExampleUpgradesFail | pkg/controllers/elasticsearch/actions/util.go:12-17 | a metadata bump, a pinned old image and a missing image never complete |
| UpgradeProgress.FreshSyncWritesIff | pkg/controllers/elasticsearch/actions/update_version.go:49-206 | a sync with fresh reads writes the next step of the first unfinished pool if and only if the health is known and not Red, every replica is posted as ready and, once the rollout has begun, the pod at the partition has reported and, unless it is the last, is counted as updated |
| ElasticsearchControl.WhatSyncsWrite | pkg/controllers/elasticsearch/cluster_control.go:125-214 | in every run, all that a sync can append to a pool: the new set of the spec; other replicas and nothing else; or, only with the health known and not Red and every replica ready, the annotation alone or image and partition alone |
| ElasticsearchControl.FreshSyncsCreateAll | pkg/controllers/elasticsearch/actions/create_nodepool.go:42-117 | from an empty cluster each fresh sync creates one pool in the order of the spec, and as many syncs as pools settle all of them, with the image of the spec |
| ElasticsearchControl.ScaleSettlesIff | pkg/controllers/elasticsearch/actions/scale.go:36-131 | one fresh sync settles an upgraded pool of n replicas that wants m if and only if it grows, has no data, or every ordinal below n has a pilot and those of [m, n) are known to be empty; it changes replicas only, or nothing |
| ElasticsearchControl.SettledForever | pkg/controllers/elasticsearch/cluster_control.go:216-259 | a settled pool stays settled as long as no idle sync has a listing that exposes a pool, however stale all reads are |
| ElasticsearchControl.IdleKeepsIff | pkg/controllers/elasticsearch/cluster_control.go:286-319 | an idle sync keeps a pool's own set, whichever deletions are refused, if and only if its listing does not expose it: controlled, with a label of no pool or one that a set listed before it also has |
| ElasticsearchControl.SettledPoolLost | pkg/controllers/elasticsearch/cluster_control.go:299-317 | a settled pool whose set is listed after another with its label is deleted by the next sync |
| ElasticsearchControl.SerialWork | pkg/controllers/elasticsearch/cluster_control.go:216-259 | a sync changes one pool at a time, in the order of the spec, and scales only after upgrading |
| ElasticsearchControl.DeleteOnlyWhenSettled | pkg/controllers/elasticsearch/cluster_control.go:192-201 | no set, a pool's own included, is deleted before every pool is settled |
| ElasticsearchControl.MetadataOnlyStalls | pkg/controllers/elasticsearch/cluster_control.go:244-246 | a change of build metadata only: in every run the pool is never settled and no pool from it on is ever changed by a sync |
| UpgradeProgress.EffectiveStepsBounded | pkg/controllers/elasticsearch/actions/update_version.go:125-200 | in every steady run, idle syncs and failing pods included, the effective steps so far are at most 8n + 2 per pool of n replicas, plus 3 for each time a pod became unready and 1 for each status that was no accurate news |
| ElasticsearchControl.ScaleDownDrained | pkg/controllers/elasticsearch/actions/scale.go:36-131 | in every run, when a sync lowers the newest replicas of a data pool from n to m, the pilots it read hold a drained one for every ordinal in [m, n) |
| ElasticsearchActions.ScaleDownOnlyDrained | pkg/controllers/elasticsearch/actions/scale.go:89-131 | a write that shrinks a data pool implies, for every ordinal removed, a pilot that reported an empty node |
| ElasticsearchActions.AnnotationTruthful | pkg/controllers/elasticsearch/actions/update_version.go:125-153 | the annotation is only set with every replica ready and every ordinal's pilot at the version, and nothing else changes |
| ReconcileNodePools.DeletesExactlyUnreferenced | pkg/controllers/elasticsearch/cluster_control.go:282-317 | deleted are exactly the controlled sets whose label names no pool, if and only if no controlled set shares a label of the spec with an earlier set |
| ReconcileNodePools.ToDeleteIff | pkg/controllers/elasticsearch/cluster_control.go:299-317 | a listed set is to be deleted if and only if it is controlled and its label names no pool or is that of a set listed before it |
| ReconcileNodePools.ReconcilePartition | pkg/controllers/elasticsearch/cluster_control.go:299-317 | kept, foreign and deleted sets partition the listed ones, as multisets |
| CassandraScaleOut.OneAtATime | docs/cassandra.rst:220-239 | in every steady run, over all pools together, at most one replica asked for is not ready |
| CassandraScaleOut.WritesCloseTheGap | pkg/controllers/cassandra/actions/scaleout.go:34-77 | over every run the writes made and the gap left add up to the initial gap |
| CassandraScaleOut.ReplicasOnlyGrow | pkg/controllers/cassandra/actions/scaleout.go:34-77 | over every run replicas never fall and never grow past the desired count |
| CassandraScaleOut.RunsConverge | docs/cassandra.rst:230-231 | effective steps are bounded, and a run that cannot be extended has reached the desired nodes |
| Quorum.AdmittedQuorumSafe | pkg/apis/navigator/validation/elasticsearch.go:54-91 | for an admitted spec that value is a safe quorum if and only if the number of masters fits an int32; it is the value given, or else the least safe quorum |
| Quorum.QuorumsIntersect | pkg/util/util.go:5-13 | two groups that may both elect share a master |
| UpdateValidation.PoolFrozen | pkg/apis/navigator/validation/elasticsearch.go:99-133 | over every chain of accepted updates a pool that stays keeps its fields, and its persistence once set |
| UpdateValidation.CassandraVersionFrozen | pkg/apis/navigator/validation/cassandra.go:42-90 | over every chain of accepted updates the version stays equal to the first |
| PilotLifecycle.EveryEventJustified | pkg/pilot/genericpilot/controller.go:23-112 | every event of every run comes after all that must precede it: hooks in order and once, the start after all PreStart hooks and no shutdown, a stop by the pilot after all PreStop hooks, PostStop hooks after that |
| PilotLifecycle.StopEndsIff | pkg/pilot/genericpilot/controller.go:85-112 | a stop ends a running subprocess exactly when all PreStop hooks have succeeded by then and the signal is delivered; PostStop hooks then run, unless it ended with an error |
| PilotLifecycle.SyncRunsIff | pkg/pilot/genericpilot/controller.go:23-83 | a sync leaves the subprocess running exactly when it was, or all PreStart hooks have succeeded, no stop was asked for, and command and start succeed; a sync of another pilot changes nothing |
| PilotLifecycle.EventsHappenOnce | pkg/pilot/genericpilot/hook/hook.go:61-111 | no hook, start or exit happens twice in any run |
| PilotLifecycle.ExecutedIsPrefix | pkg/pilot/genericpilot/hook/hook.go:61-111 | the hooks executed in a phase are always a prefix of its list |
| PilotLifecycle.PostStartEarlyIff | pkg/pilot/genericpilot/controller.go:66-79 | before the start, some outcomes of hooks and command make a sync run a PostStart hook if and only if the pilot has been told to stop and some PostStart hook has not succeeded |
| Scheduler.OneTimerPerKey | pkg/pilot/genericpilot/controller/scheduler/scheduler.go:14-26 | at most one armed timer per key, and the map holds it |
| Scheduler.CancelledNeverRuns | pkg/pilot/genericpilot/controller/scheduler/scheduler.go:14-26 | a timer superseded or forgotten never fires afterwards |
| Scheduler.LostExactlyWhenCallbackReturnsLate | pkg/pilot/genericpilot/controller/scheduler/scheduler.go:54-57 | an armed timer is lost exactly when a callback of its key returns while it is armed |
| Nodetool.AnswerUniqueIff | pkg/pilot/cassandra/v3/pilot.go:98-114 | the answer is the same in every order exactly when the local hosts agree or the lists are contradictory |
| Nodetool.ReadyExactly | pkg/pilot/cassandra/v3/pilot.go:98-114 | with distinct host ids, in any order, ready if and only if the local host is live, not leaving, joining or moving, and no host is in two contradictory lists |
| ClusterConditions.ConditionTellsLatestFlag | pkg/controllers/cassandra/cluster_control.go:77-96 | after any syncs: no condition exactly if never paused, else one Progressing condition, False as ClusterPaused or True as ClusterResumed after the latest flag, with the time of the last flip |
| ClusterConditions.UpdateTakesEffectIff | pkg/apis/navigator/v1alpha1/helpers.go:64-91 | an update takes effect if and only if the list was empty or had the type; the time is kept while the status is, and other types are untouched |
| OwnerChain.TerminatesIff | pkg/controllers/util.go:85-120 | the recursion ends if and only if no object is visited twice among the first stops, one more than there are objects |
| OwnerChain.EndsWithinStore | pkg/controllers/util.go:85-120 | any answer is found within as many lookups as there are objects |
| PodNames.PilotNameIs | pkg/controllers/elasticsearch/actions/scale.go:164-166 | the name of replica i is the set name, a dash and the one numeral without leading zero that denotes i |
| PodNames.PilotNameExample | pkg/controllers/elasticsearch/actions/scale.go:164-166 | es-c-data-0 and es-c-data-10 |
| PodNames.CanonicalRoundTrip | pkg/controllers/elasticsearch/actions/scale.go:164-166 | a numeral without leading zero is the rendering of the number it denotes |
| PodNames.DigitsRoundTrip | pkg/controllers/elasticsearch/actions/scale.go:164-166 | the rendering of a number denotes it |
| PodNames.ReplicaInjective | pkg/controllers/elasticsearch/actions/scale.go:164-166 | two ordinals of one set never share a pilot name, negative ones included |
| PodNames.PilotNameInjective | pkg/controllers/elasticsearch/actions/scale.go:164-166 | a pilot name determines set and ordinal, whatever dashes and digits the set name has |
| ElasticsearchActions.FindNamed | pkg/controllers/elasticsearch/actions/scale.go:191-196 | the inner loop returns the first pilot of the name |
| ElasticsearchActions.PilotsForStatefulSet | pkg/controllers/elasticsearch/actions/scale.go:168-208 | succeeds exactly when every ordinal has a labelled pilot, and then returns the first pilot of each ordinal, in order; the two errors otherwise |
| ElasticsearchActions.ContainsRole | pkg/util/api/elasticsearch.go:17-24 | membership of the role |
| ElasticsearchActions.FindPilot | pkg/controllers/elasticsearch/actions/scale.go:153-159 | the inner loop returns the first pilot of the name and namespace |
| ElasticsearchActions.DeterminePilotsToBeRemoved | pkg/controllers/elasticsearch/actions/scale.go:141-162 | nothing when growing; when shrinking, the pilots found for the ordinals that disappear, highest first, for any list; for a list with one pilot per ordinal exactly the pilots of those ordinals |
| ElasticsearchActions.RemovalDecides | pkg/controllers/elasticsearch/actions/scale.go:89-131 | checking the pilots to be removed is checking every ordinal that disappears |
| ElasticsearchActions.AllDrained | pkg/controllers/elasticsearch/actions/scale.go:118-130 | true exactly when every pilot has a known document count that is not positive |
| ElasticsearchActions.CanScaleNodePool | pkg/controllers/elasticsearch/actions/scale.go:89-131 | allowed exactly when growing, without data, or with all ordinals listed and each disappearing one drained |
| ElasticsearchActions.ExecuteScale | pkg/controllers/elasticsearch/actions/scale.go:36-79 | the action computes the scale decision that ScaleSettlesIff and ScaleDownDrained characterise |
| ElasticsearchActions.CheckPilotsUpToDate | pkg/controllers/elasticsearch/actions/update_version.go:214-225 | true exactly when every ordinal has a labelled pilot that reports the version |
| ElasticsearchActions.ExecuteUpdateVersion | pkg/controllers/elasticsearch/actions/update_version.go:33-212 | the in-place action computes the upgrade decision that FreshSyncWritesIff, WhatSyncsWrite and the protocol theorems characterise, with every refusal, error and nil dereference |
| ElasticsearchActions.EmptyPoolKeepsImage | pkg/controllers/elasticsearch/actions/update_version.go:147-153 | a pool without replicas is annotated with the new version and keeps the old image |
| ElasticsearchControl.NextAction | pkg/controllers/elasticsearch/cluster_control.go:216-259 | the pool acted on is the first that is not settled; idle exactly when all are settled |
| ElasticsearchControl.ApiServer.CreateSet | pkg/controllers/elasticsearch/actions/create_nodepool.go:42-54 | accepted exactly when there is no such set; nothing else changes |
| ElasticsearchControl.ApiServer.UpdateSet | pkg/controllers/elasticsearch/actions/update_version.go:202-206 | accepted exactly from the newest version; nothing else changes |
| ElasticsearchControl.ApiServer.RunSync | pkg/controllers/elasticsearch/cluster_control.go:125-214 | one sync, decided on listed copies and executed on a fetched one or, when idle, on all listed sets, has the effect and the success that the theorems are about |
| ElasticsearchControl.CreateSettles | pkg/controllers/elasticsearch/actions/create_nodepool.go:42-117 | one fresh sync creates the first missing pool, settled from the start, with the image of the spec and no partition; without a known image nothing changes |
| ElasticsearchControl.FailedSyncKeepsPools | pkg/controllers/elasticsearch/cluster_control.go:192-214 | a sync that returns an error has changed nothing, unless a deletion was refused or its set missing |
| ElasticsearchControl.SyncEffect | pkg/controllers/elasticsearch/cluster_control.go:192-214 | a careful sync with arbitrarily stale reads appends to one unsettled pool, all earlier ones settled, never undoes an upgrade, and keeps replicas until the version is right |
| ElasticsearchControl.RunInv | pkg/controllers/elasticsearch/cluster_control.go:125-214 | as long as the steps are careful, what was ever upgraded or settled still is in the newest version |
| ElasticsearchControl.ApiServer.DeleteSet | pkg/controllers/elasticsearch/cluster_control.go:313 | deletes by name: a pool's own set ends its history with None, another set disappears, nothing else changes |
| ElasticsearchControl.ApiServer.RunReconcile | pkg/controllers/elasticsearch/cluster_control.go:286-319 | the idle branch deletes, one by one, what the in-place removal leaves, up to the first refusal or missing set |
| ElasticsearchControl.LabelledIsSafe | pkg/controllers/elasticsearch/cluster_control.go:299-306 | sets with the label of their own pool are not exposed when no label of the spec is shadowed |
| ElasticsearchControl.MetadataBump | pkg/controllers/elasticsearch/actions/update_version.go:73-80 | 6.1.1+a to 6.1.1+b: always the next to upgrade, and the upgrade never writes |
| RollingUpgrade.NextPartitionSafe | pkg/controllers/elasticsearch/actions/update_version.go:158-191 | whatever the posted count, the next partition is safe once the pod just above it has reported |
| RollingUpgrade.WriteKeepsPhase | pkg/controllers/elasticsearch/actions/update_version.go:94-191 | every write of the action keeps the order of the rollout |
| RollingUpgrade.SyncIsUpgrade | pkg/controllers/elasticsearch/cluster_control.go:192-214 | during an upgrade a sync that changes anything upgrades one pool from its newest version, all earlier pools being done |
| RollingUpgrade.RunInv | pkg/controllers/elasticsearch/actions/update_version.go:33-212 | the invariant, in every state of every run |
| RollingUpgrade.StepTakes | pkg/controllers/elasticsearch/actions/update_version.go:94-206 | a write takes exactly one off the writes left, every other step none |
| UpgradeProgress.EffectiveDecreases | pkg/controllers/elasticsearch/actions/update_version.go:125-200 | every effective step lowers the potential |
| UpgradeProgress.EffectiveRunsEnd | pkg/controllers/elasticsearch/actions/update_version.go:125-200 | the potential bounds the number of effective steps from any reachable state |
| UpgradeProgress.BlockedRun | pkg/controllers/elasticsearch/actions/update_version.go:73-88 | equal versions written differently, no image, or the old image with pods to replace: no version of the set ever gets the new annotation |
| ReconcileNodePools.RemoveAt | pkg/controllers/elasticsearch/cluster_control.go:302 | shifting the tail in place removes one element |
| ReconcileNodePools.RemoveReferenced | pkg/controllers/elasticsearch/cluster_control.go:299-306 | the in-place loops leave the slice that removing the first match of each pool in turn leaves |
| ReconcileNodePools.Reconcile | pkg/controllers/elasticsearch/cluster_control.go:286-319 | deletes the controlled remainder in order, exactly up to the first refusal |
| ReconcileNodePools.RemoveEachIsOnePass | pkg/controllers/elasticsearch/cluster_control.go:299-306 | the repeated removal equals a single pass in which each pool claims the first set with its label |
| ReconcileNodePools.DuplicateLabelDeleted | pkg/controllers/elasticsearch/cluster_control.go:299-306 | two sets labelled with one live pool: the second is deleted |
| CassandraControl.NextAction | pkg/controllers/cassandra/cluster_control.go:211-231 | create the first pool without a status, else scale the first pool short of ready nodes, else idle, exactly |
| CassandraControl.Controller.StatefulSetsForCluster | pkg/controllers/cassandra/util/util.go:95-117 | exactly the listed sets that the cluster owns, by name |
| CassandraControl.Controller.UpdateStatus | pkg/controllers/cassandra/nodepool/nodepool.go:40-54 | the status holds for each label of an owned set the ready count of such a set, and nothing else, in any iteration order |
| CassandraControl.Controller.SyncStatus | pkg/controllers/cassandra/nodepool/nodepool.go:36-54 | with foreign sets and sets left over from removed pools listed too, the rebuilt status says of every pool exactly what was listed |
| CassandraControl.Controller.ExecuteAction | pkg/controllers/cassandra/actions/scaleout.go:26-87 | the accepted effect of an action: creation, or one more replica of a fully ready set below the desired count |
| CassandraControl.Controller.RunSync | pkg/controllers/cassandra/cluster_control.go:98-209 | one sync has the effect on the store that the run theorems are about |
| CassandraScaleOut.WriteEffect | pkg/controllers/cassandra/actions/scaleout.go:34-77 | a write creates one set empty or adds one replica, below the desired count, to one fully ready set |
| CassandraScaleOut.RunInv | pkg/controllers/cassandra/cluster_control.go:98-231 | the invariant, in every state of every steady run |
| CassandraScaleOut.EffectiveDecreases | pkg/controllers/cassandra/actions/scaleout.go:26-87 | every effective step lowers the potential |
| CassandraScaleOut.NeverStuck | pkg/controllers/cassandra/cluster_control.go:211-231 | until every pool has its ready nodes some effective step is enabled |
| Quorum.QuorumIsLeastMajority | pkg/util/util.go:5-13 | the quorum is the least strict majority |
| Quorum.CountMasters | pkg/util/api/elasticsearch.go:7-15 | the true number of masters wrapped to 32 bits; a nil dereference exactly when a master pool has no replicas set |
| Quorum.ValidateNodePool | pkg/apis/navigator/validation/elasticsearch.go:33-52 | no error exactly for an admissible pool, replicas not set included |
| Quorum.ValidateSpec | pkg/apis/navigator/validation/elasticsearch.go:54-91 | no error exactly for an admissible spec; a nil dereference exactly when a master pool has no replicas set |
| Quorum.GenerateMinimumMasters | pkg/controllers/elasticsearch/configmap/resources.go:46-55 | the value written as minimum_master_nodes, or the nil dereference of the count |
| Quorum.WrappedQuorumUnsafe | pkg/util/api/elasticsearch.go:7-15 | an admitted spec whose masters wrap to one |
| Quorum.SmallerValueSplits | pkg/util/util.go:5-13 | a smaller value lets two disjoint groups elect |
| UpdateValidation.CheckPool | pkg/apis/navigator/validation/elasticsearch.go:108-130 | no error exactly when the first old pool of the name differs at most in replicas and a persistence not yet set |
| UpdateValidation.CheckPools | pkg/apis/navigator/validation/elasticsearch.go:105-131 | no error exactly when that holds of every pool |
| UpdateValidation.ValidateCassandraSpec | pkg/apis/navigator/validation/cassandra.go:92-127 | no error exactly for an admissible spec |
| UpdateValidation.ValidateCassandraUpdate | pkg/apis/navigator/validation/cassandra.go:36-90 | no error exactly for good object metadata, an admissible spec, an equal version and updatable pools |
| UpdateValidation.RemovedPoolIsForgotten | pkg/apis/navigator/validation/elasticsearch.go:99-133 | staying is needed: a pool removed and added again may change anything |
| ClusterConditions.ClusterStatus.GetStatusCondition | pkg/apis/navigator/v1alpha1/helpers.go:54-62 | the first condition of the type |
| ClusterConditions.ClusterStatus.UpdateStatusCondition | pkg/apis/navigator/v1alpha1/helpers.go:64-91 | the conditions after the update, with the transition time kept while the status is |
| ClusterConditions.ClusterStatus.SyncPausedConditions | pkg/controllers/elasticsearch/cluster_control.go:104-123 | the conditions after a sync that saw the flag |
| ClusterConditions.SecondTypeDropped | pkg/apis/navigator/v1alpha1/helpers.go:64-91 | a status with an Available condition never gets a Progressing one |
| Scheduler.ScheduledWorkQueue.ClearTimer | pkg/pilot/genericpilot/controller/scheduler/scheduler.go:65-72 | stops the timer of the key if it is armed, and removes the entry |
| Scheduler.ScheduledWorkQueue.AddWithKey | pkg/pilot/genericpilot/controller/scheduler/scheduler.go:50-58 | clears the key and stores a new armed timer |
| Scheduler.ScheduledWorkQueue.Forget | pkg/pilot/genericpilot/controller/scheduler/scheduler.go:61-63 | clears the key |
| Scheduler.RunInv | pkg/pilot/genericpilot/controller/scheduler/scheduler.go:50-72 | in every run without overlapping adds of one key, each armed timer is the entry of its key |
| Scheduler.AddArms | pkg/pilot/genericpilot/controller/scheduler/scheduler.go:50-58 | an add ends with a new armed timer as the entry of its key, and nothing else changed |
| Scheduler.RunsOnce | pkg/pilot/genericpilot/controller/scheduler/scheduler.go:50-72 | each timer fires at most once and its callback returns at most once |
| Scheduler.ClearedKeyIsQuiet | pkg/pilot/genericpilot/controller/scheduler/scheduler.go:50-72 | after a key is superseded or forgotten it has no entry and none of its timers is armed |
| Scheduler.NeverRearmed | pkg/pilot/genericpilot/controller/scheduler/scheduler.go:50-72 | a timer that stopped, fired or finished is never armed again |
| Scheduler.OverlappingAddsLeak | pkg/pilot/genericpilot/controller/scheduler/scheduler.go:50-58 | overlapping calls with one key leave two armed timers |
| Scheduler.LateCallbackLosesWork | pkg/pilot/genericpilot/controller/scheduler/scheduler.go:54-57 | a run in which the item added second is lost |
| Scheduler.ScheduledWorkQueue.BeginCallback | pkg/pilot/genericpilot/controller/scheduler/scheduler.go:54-57 | an armed timer fires |
| Scheduler.ScheduledWorkQueue.EndCallback | pkg/pilot/genericpilot/controller/scheduler/scheduler.go:54-57 | after whatever happened meanwhile, the deferred clear stops and removes whatever timer the key then has |
| PilotLifecycle.GenericPilot.RunTransition | pkg/pilot/genericpilot/hook/hook.go:95-110 | runs the hooks not yet executed in order up to the first failure, and tells whether all are done |
| PilotLifecycle.GenericPilot.RunSync | pkg/pilot/genericpilot/controller.go:23-83 | one sync of the pilot, with every early return, has the effect and the success that SyncRunsIff and SyncOkIff characterise |
| PilotLifecycle.GenericPilot.RunStop | pkg/pilot/genericpilot/controller.go:85-112 | one stop of the pilot, with every early return, has the effect and the success that StopEndsIff and StopOkIff characterise |
| PilotLifecycle.RunInv | pkg/pilot/genericpilot/controller.go:23-112 | that invariant, after every run |
| PilotLifecycle.LogOnlyGrows | pkg/pilot/genericpilot/hook/hook.go:61-111 | nothing that happened is taken back |
| PilotLifecycle.PostStartWithoutStart | pkg/pilot/genericpilot/controller.go:66-79 | a run with a PostStart hook and no start |
| PilotLifecycle.SyncSucceeds | pkg/pilot/genericpilot/controller.go:23-83 | with every outcome good and no stop, one sync ends with the subprocess running and all PreStart and PostStart hooks done |
| PilotLifecycle.SyncOkIff | pkg/pilot/genericpilot/controller.go:23-83 | a sync returns no error exactly when it leaves no hook undone and the subprocess running, unless told to stop |
| PilotLifecycle.StopOkIff | pkg/pilot/genericpilot/controller.go:85-112 | a stop returns no error exactly when nothing was running, or the subprocess ended without an error and all PostStop hooks have succeeded |
| PilotLifecycle.CompletedIff | pkg/pilot/genericpilot/hook/hook.go:61-111 | a transition reports success exactly when every hook of the phase has succeeded by then, and touches no other phase |
| PilotLifecycle.GenericPilot.TransitionTo | pkg/pilot/genericpilot/hook/hook.go:61-111 | the same behind its checks: nothing happens without a pilot or for an unknown phase |
| Nodetool.CountingDetectsSharing | pkg/cassandra/nodetool/nodetool.go:76-84 | the union is as large as the sizes together exactly when no two sets share an element |
| Nodetool.SetsIntersect | pkg/cassandra/nodetool/nodetool.go:76-84 | true exactly when two of the sets share an element |
| Nodetool.Status | pkg/cassandra/nodetool/nodetool.go:108-176 | an error exactly for contradictory lists, else one node per host that every list describes |
| Nodetool.LocalNode | pkg/cassandra/nodetool/nodetool.go:46-53 | the first local node in the order of iteration |
| Nodetool.ReadinessCheck | pkg/pilot/cassandra/v3/pilot.go:98-114 | for each order of iteration, ready exactly when the lists are consistent and the local host found first is live and in no other list |
| Nodetool.DuplicateIdUnstable | pkg/cassandra/nodetool/nodetool.go:46-53 | two hosts with the local id: the two orders give different answers |
| Nodetool.EachLocalIsFound | pkg/cassandra/nodetool/nodetool.go:46-53 | each host with the local id is the one found, in some order |
| OwnerChain.AnswerAtLastStop | pkg/controllers/util.go:85-120 | the answer is the very reference at the last stop if it is to a cluster of either kind, and otherwise no owner, another kind, or a missing owner, each exactly |
| OwnerChain.StillLookingIff | pkg/controllers/util.go:85-120 | no answer after n lookups exactly when each of the first n + 1 stops leads on |
| OwnerChain.Cycles | pkg/controllers/util.go:85-120 | an object visited twice means no answer, however many lookups |
| OwnerChain.OwnedByEachOther | pkg/controllers/util.go:85-120 | a pod and a set that own each other: no answer, however many lookups |

## Left out

- Generated clients, listers, conversions and deep copies, and the API server beyond create, update and delete of StatefulSets.
- Object templates: pod specs, services, config maps, roles, service accounts and disruption budgets, and their syncs.
- A change of version while an upgrade is under way, and scaling during an upgrade: `RollingUpgrade` fixes both.
- The reset of the count of updated replicas by the StatefulSet controller is covered by the safety results (counts are arbitrary there), not by the partition and progress results.
- Pods that stay unready for ever, in the progress proofs.
- The Elasticsearch status written after a sync (ready replicas and conditions of other types), and the events that syncs record.
- Parsing of versions, DNS names and quantities: versions are a release and ignored metadata, the others are parameters.
- The item carried by a scheduled timer, and durations.
- The test that two pilots are peers, which compares the roots found through `OwnerChain`.
- The Cassandra seed labeller, the leader election of pilots, the Elasticsearch pilot's document and health queries, and metrics.
