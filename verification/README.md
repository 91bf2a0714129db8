# Cassandra operator: a verified model

The operator turns `Cassandra` resources into StatefulSets, snapshot CronJobs and Prometheus
gauges, and ships two helpers: a bootstrapper that rewrites configuration files before
Cassandra starts, and a snapshot tool that the CronJobs run. This project models the logic of
all three and proves what it guarantees over every input, every interleaving and every run.
The Kubernetes API, nodetool and Jolokia are oracles: their answers are arbitrary.

| files | what they model |
|---|---|
| `Dispatcher.dfy` | the event dispatcher: callers, one worker per key and the stop watcher as a state machine over atomic steps |
| `ClusterSpec.dfy`, `StatefulSets.dfy`, `Adjuster.dfy` | the resource, its validation and defaults; the StatefulSet of a rack and its custom ConfigMap; the change planner |
| `Rollout.dfy`, `RolloutTarget.dfy`, `RolloutExamples.dfy` | carrying out changes rack by rack, where completed operations lead, and updates that lead elsewhere |
| `SnapshotJobs.dfy`, `SnapshotEvents.dfy`, `SnapshotHistory.dfy`, `SnapshotExamples.dfy` | the event receiver with the snapshot operations, what any single event does to the CronJobs, the CronJobs as a function of the history of specifications, and histories that lead elsewhere |
| `NodeStatus.dfy`, `Gauges.dfy`, `GaugeReports.dfy` | deriving node statuses, the gauges over whole runs, and what they show of a report |
| `SnapshotListing.dfy`, `Retention.dfy`, `Durations.dfy` | parsing the snapshot table, taking and clearing snapshots, 64-bit durations |
| `SnapshotCommand.dfy` | the snapshot tool's flags, and what it makes of the commands in the CronJobs |
| `ConfigFiles.dfy`, `CassandraYaml.dfy`, `JvmOptions.dfy`, `Bootstrapper.dfy` | rewriting `cassandra.yaml` and `jvm.options` |
| `Naming.dfy`, `Text.dfy`, `Sequences.dfy`, `Wrappers.dfy` | names, the string operations of Go and Java, and shared helpers |

Code that changes state is modelled by classes and loops, each proved equal to a function of
the old state; the theorems are about these functions. Loops over Go maps choose the next key
arbitrarily. A long Go function with several loops is one method per loop.

Some promises turn out to hold only under a condition; the lemmas named here state it exactly
or give a run that breaks the promise.

- The comment on the dispatcher's constructor promises that nothing is handled once the stop
  channel is closed. A worker's select may still take a queued event, and a caller that has
  passed its check of the stopped flag may still start a worker (`Dispatcher.HandledAfterStop`,
  `Dispatcher.HandledForLateCaller`). `Dispatcher.StopIsFinal` says from which states with an
  observed stop nothing is handled any more. Until the closed channel has been observed, calls
  of `Dispatch` proceed as before. On the other hand an event that was accepted may never be
  handled, because the worker may leave with events queued (`Dispatcher.AbandonedAfterStop`,
  `Dispatcher.WorkerMayLeave`).
- Deploying a smaller number of replicas is ignored unless the pods change as well, and a
  patch writes an empty bootstrapper image where creation would use the default
  (`RolloutTarget.UpdateRealizesExactlyWhen`; `RolloutExamples.ShrinkIsIgnored`,
  `RolloutExamples.EmptyImageIsWritten`).
- A StatefulSet that has been updated is not always what creating it anew would give: the
  bootstrapper's CPU and memory environment and the volume claim stay as they were
  (`RolloutTarget.UpdateEqualsRebuild`; `RolloutExamples.CpuChangeDiffersFromRebuild`).
- Turning retention on for an existing snapshot adds no cleanup job, a changed snapshot image
  alone does not reach the job, and an unset timeout makes even an unrelated update panic
  (`SnapshotHistory.CleanupJobFollowsSpec`, `SnapshotHistory.UpdateEqualsRebuild`,
  `SnapshotHistory.PanicFreeExactlyWhen`; `SnapshotExamples.RetentionUpdateIsIgnored`,
  `SnapshotExamples.ImageUpdateIsIgnored`, `SnapshotExamples.UpdateWithoutTimeoutPanics`).
- An invalid update of a cluster leaves its record alone, but not its snapshot job: a new
  schedule, timeout or list of keyspaces is written into the job all the same, and a snapshot
  that was first asked for with a mistake gets no job when the mistake is corrected
  (`SnapshotHistory.InvalidUpdateKeepsJobExactlyWhen`; `SnapshotExamples.InvalidScheduleReachesJob`,
  `SnapshotExamples.CorrectedSnapshotGetsNoJob`). A cluster that was not on record yet does get
  its jobs with its first valid definition (`SnapshotExamples.CorrectedDefinitionGetsJobs`).
- Deleting a cluster's metrics leaves the series of pods that had vanished before the last
  report (`Gauges.DeletionRemovesLastTopology`; `Gauges.VanishedPodStaysShown`).
- Appending to a `jvm.options` file whose last line has no line terminator glues the two
  lines together, so a second run may add the line again (`JvmOptions.ConfigureTwice`,
  `JvmOptions.UnterminatedFileIsNotSettled`).
- A list of a single empty keyspace name, or with a comma in a name, does not come through to
  the snapshot tool as it was specified (`SnapshotCommand.SnapshotCommandRoundTrip`).
- A ConfigMap of a cluster whose name contains `-config` is taken for that of another cluster
  (`Naming.ConfigMapNameRoundTrip`, `Naming.ConfigMapOfAnotherCluster`).
- Retention periods of more than 106751 days wrap around
  (`Durations.DaysAreExact`, `Retention.LongRetentionWraps`).

## Model

| member | source | states |
|---|---|---|
| Dispatcher.FirstInFirstOut | cassandra-operator/pkg/dispatcher/dispatcher.go:50-86 | In every reachable state, handled, running and queued events of a key are exactly those accepted for it, in lock order; only the lock holder's event may still be on its way |
| Dispatcher.NothingIsLost | cassandra-operator/pkg/dispatcher/dispatcher.go:50-65 | For each caller, accepted, dropped and remaining events make up its script, in order; events are dropped only after the stop |
| Dispatcher.Exclusion | cassandra-operator/pkg/dispatcher/dispatcher.go:50-86 | At most one worker and one running handler per key, one lock holder, and no queue over 100 events |
| Dispatcher.Progress | cassandra-operator/pkg/dispatcher/dispatcher.go:50-86 | Before the stop, a state with work left always has an enabled step, although a caller may block on a full queue while holding the lock |
| Dispatcher.StepReducesWork | cassandra-operator/pkg/dispatcher/dispatcher.go:50-86 | Every step of any goroutine reduces a measure of unsent, queued and running events |
| Dispatcher.RunsEnd | cassandra-operator/pkg/dispatcher/dispatcher.go:50-86 | The length of every run is bounded by that measure at its start |
| Dispatcher.QuietMeansAllHandled | cassandra-operator/pkg/dispatcher/dispatcher.go:50-86 | When a run without a stop can go no further, every dispatched event has been handled once, in order, by its key's worker |
| Dispatcher.CallerWaitsExactlyWhen | cassandra-operator/pkg/dispatcher/dispatcher.go:50-65 | A call of Dispatch waits exactly while the lock is held by another or its channel holds 100 events |
| Dispatcher.WorkerWaitsExactlyWhen | cassandra-operator/pkg/dispatcher/dispatcher.go:77-86 | A worker waits exactly while it has neither an event nor a closed stop channel, and with both it may take either |
| Dispatcher.StopMayComeAnytime | cassandra-operator/pkg/dispatcher/dispatcher.go:67-75 | The stop channel may be closed in any state, and that be observed in any state thereafter |
| Dispatcher.HandledAfterStop | cassandra-operator/pkg/dispatcher/dispatcher.go:67-86 | A run in which an event can still be taken up after the stop has been observed |
| Dispatcher.HandledForLateCaller | cassandra-operator/pkg/dispatcher/dispatcher.go:50-65 | A run in which the stop is observed while there is no worker, and a caller past the stopped check starts one that takes its event |
| Dispatcher.AbandonedAfterStop | cassandra-operator/pkg/dispatcher/dispatcher.go:77-86 | A run in which a worker leaves with an accepted event queued, after which nothing is ever taken up |
| Dispatcher.WorkerMayLeave | cassandra-operator/pkg/dispatcher/dispatcher.go:77-86 | Once the stop channel is closed every worker may leave in at most two steps, whatever it has queued |
| Dispatcher.CallsAfterStopAreDropped | cassandra-operator/pkg/dispatcher/dispatcher.go:51-64 | Whatever runs after an observed stop, the events of a goroutine that was not in Dispatch then are never accepted, and each is dropped or still to come |
| Dispatcher.CallsAfterStopReturn | cassandra-operator/pkg/dispatcher/dispatcher.go:51-64 | Its calls all return, one step each, whatever the others wait for |
| Dispatcher.BlocksOnFullBuffer | cassandra-operator/pkg/dispatcher/dispatcher.go:48-61 | A run in which 100 events of a key are queued for a worker that looks at none, and the next call holds the lock and blocks until one is taken |
| Dispatcher.StopIsFinal | cassandra-operator/pkg/dispatcher/dispatcher.go:50-86 | Once the stop has been observed, with any calls of Dispatch still under way, nothing is ever taken up exactly when every worker has exited or has an empty queue, a caller that sends does so to an exited worker, and so do all callers past the stopped check unless the sender is blocked for ever |
| Dispatcher.StepKeepsInv | cassandra-operator/pkg/dispatcher/dispatcher.go:50-86 | Every step keeps the invariants on lock, channel routing, queue order and callers' scripts |
| ClusterSpec.Cluster.CopyInto | cassandra-operator/pkg/cluster/cluster.go:83-144 | Completes the definition in place as far as validation gets, records the effective specification, and leaves the record alone on an error |
| ClusterSpec.CheckRacks | cassandra-operator/pkg/cluster/cluster.go:151-166 | The error of the first rack that is wrong; on success every rack has replicas |
| ClusterSpec.ValidExactlyWhen | cassandra-operator/pkg/cluster/cluster.go:151-251 | The conditions on racks, storage, snapshot, retention and probes that together make a definition valid, whichever check comes first |
| ClusterSpec.CopyingTwice | cassandra-operator/pkg/cluster/cluster.go:83-144 | A completed definition is still valid, is not completed further, and is recorded the same |
| ClusterSpec.CopyingAgain | cassandra-operator/pkg/cluster/cluster.go:83-144 | Copying the definition that a copy has left behind, even an invalid one, does the same again |
| ClusterSpec.DefaultedFields | cassandra-operator/pkg/cluster/cluster.go:109-137 | In the definition exactly the unset fields of the two probes, each with the default of its own probe, and the snapshot image are filled in |
| ClusterSpec.EffectiveFields | cassandra-operator/pkg/cluster/cluster.go:96-144 | The record has besides the default datacenter and images where they are empty, and everything else as defined |
| ClusterSpec.InvalidCopyCompletes | cassandra-operator/pkg/cluster/cluster.go:83-137 | An invalid definition is completed as far as the checks got: not at all, up to the liveness probe, or in full |
| ClusterSpec.EffectiveIsComplete | cassandra-operator/pkg/cluster/cluster.go:83-144 | A recorded specification has all defaults filled in and valid probes |
| StatefulSets.TemplateObject.AddCustomConfigVolume | cassandra-operator/pkg/cluster/cluster.go:679-692 | The in-place mounting equals the function on templates that the theorems are about |
| StatefulSets.TemplateObject.RemoveCustomConfigVolume | cassandra-operator/pkg/cluster/cluster.go:695-718 | The in-place unmounting equals its function, with the list of remaining mounts shared between bootstrapper containers |
| StatefulSets.AddThenRemove | cassandra-operator/pkg/cluster/cluster.go:679-718 | Removing after adding restores the template exactly when there was no trace of a custom ConfigMap |
| StatefulSets.RemoveForgetsAdd | cassandra-operator/pkg/cluster/cluster.go:679-718 | Removing after adding leaves what removing alone would have left |
| StatefulSets.RemoveTwice | cassandra-operator/pkg/cluster/cluster.go:695-718 | Removing leaves no trace, and removing again changes nothing |
| StatefulSets.CreateOrAdd | cassandra-operator/pkg/cluster/cluster.go:626-641 | Creating with a ConfigMap agrees with creating without and adding it: same annotation and mounts, same volumes as a multiset, in the same order exactly on persistent storage |
| StatefulSets.InitialTemplateIsClean | cassandra-operator/pkg/cluster/cluster.go:295-366 | A template created without a ConfigMap has no trace of one and a single bootstrapper container |
| StatefulSets.StatefulSetNameIsInjective | cassandra-operator/pkg/apis/cassandra/v1alpha1/types.go:146-148 | Racks of a cluster with different names have different StatefulSets |
| StatefulSets.BuiltIsAsSpecified | cassandra-operator/pkg/cluster/cluster.go:295-366 | Every field of a built StatefulSet is that of the definition or the rack: replicas, images, resources, probes, zone, datacenter, environment; storage is claimed or else an emptyDir volume; every mount has its volume; the ConfigMap is mounted or leaves no trace |
| StatefulSets.AddedConfigIsMounted | cassandra-operator/pkg/cluster/cluster.go:679-692 | The added volume refers to the very ConfigMap, bootstrappers mount it at the expected path, the hash is its own, and all other volumes, annotations and mounts stay |
| StatefulSets.RemovalKeepsMountsResolved | cassandra-operator/pkg/cluster/cluster.go:695-718 | Unmounting leaves no mount without its volume |
| Adjuster.ChangesForCluster | cassandra-operator/pkg/operator/operations/adjuster/adjuster.go:118-152 | The loops produce the specified plan, or the error of the first forbidden change |
| Adjuster.MatchRacks | cassandra-operator/pkg/operator/operations/adjuster/adjuster.go:245-264 | The loops split the racks into added, matched and removed ones |
| Adjuster.EnsureChangeIsAllowed | cassandra-operator/pkg/operator/operations/adjuster/adjuster.go:180-210 | The first forbidden change of datacenter, image, storage kind, storage class or zone |
| Adjuster.AllowedExactlyWhen | cassandra-operator/pkg/operator/operations/adjuster/adjuster.go:180-210 | A change is allowed exactly when datacenter, image and storage kind and, for every matched rack, storage class and zone stay the same |
| Adjuster.PlanConservesRacks | cassandra-operator/pkg/operator/operations/adjuster/adjuster.go:220-264 | Matched and removed racks are a permutation of the old ones, matched and added racks of the new ones |
| Adjuster.PlanRacks | cassandra-operator/pkg/operator/operations/adjuster/adjuster.go:127-151 | The racks of each kind of change are exactly the added, removed, shrunk and updated ones |
| Adjuster.PlanOrder | cassandra-operator/pkg/operator/operations/adjuster/adjuster.go:127-151 | Phases come as add, delete, scale down, update; additions in the order of the new specification, everything else in that of the old |
| Adjuster.ScaleDownsTellHowMany | cassandra-operator/pkg/operator/operations/adjuster/adjuster.go:135-139 | Each scale-down is of a matched rack that shrinks, with the difference of the replicas as a 32-bit number, exact below 2^31 |
| Adjuster.SelfPlanIsEmpty | cassandra-operator/pkg/operator/operations/adjuster/adjuster.go:118-152 | Comparing a specification with itself plans nothing exactly when racks of the same name are identical |
| Adjuster.UniqueNamesPlanNothing | cassandra-operator/pkg/operator/operations/adjuster/adjuster.go:118-152 | So with unique names comparing a specification with itself plans nothing |
| Rollout.StatefulSetAccessor.WaitUntilRackChangeApplied | cassandra-operator/pkg/cluster/accessor.go:119-143 | Polls until the change is applied or a poll fails, and records exactly the polls made |
| Rollout.StatefulSetAccessor.RegisterStatefulSets | cassandra-operator/pkg/operator/operations/statefulset_accessor.go:17-39 | Creating the racks one after the other, where a failed wait is only logged |
| Rollout.StatefulSetAccessor.UpdateStatefulSet | cassandra-operator/pkg/operator/operations/statefulset_accessor.go:41-63 | Fetches, changes in place, writes back and waits; any failure stops |
| Rollout.StatefulSetAccessor.PatchStatefulSet | cassandra-operator/pkg/operator/operations/statefulset_accessor.go:65-73 | Patches and waits; any failure stops |
| Rollout.StatefulSetAccessor.ChangeEachRack | cassandra-operator/pkg/operator/operations/update_configmap.go:22-31 | The rack loop of the ConfigMap operations, ending at the first failure |
| Rollout.StatefulSetAccessor.ApplyChanges | cassandra-operator/pkg/operator/operations/update_cluster.go:39-60 | The loop over the plan: patches, creations, and changes that are only reported |
| Rollout.StatefulSetAccessor.ExecuteUpdate | cassandra-operator/pkg/operator/operations/update_cluster.go:23-61 | The record is overwritten before the change is known to be allowed, and left alone for an invalid definition; nothing is written for an invalid or forbidden one |
| Rollout.RunIsSequential | cassandra-operator/pkg/operator/operations/statefulset_accessor.go:27-73 | However the API answers, no rack is touched before a poll has seen the previous write rolled out (generation, revisions and ready replicas) |
| Rollout.RunTouchesPrefix | cassandra-operator/pkg/operator/operations/update_cluster.go:39-60 | The racks touched are a prefix of the list, all but possibly the last were written, the whole list if the operation completes, and nothing else changed |
| RolloutTarget.AtMostOneChangePerRack | cassandra-operator/pkg/operator/operations/adjuster/adjuster.go:127-151 | No rack is added or updated twice, or both |
| RolloutTarget.UpdateReachesTarget | cassandra-operator/pkg/operator/operations/update_cluster.go:39-60 | A completed update builds added racks as specified, gives matched ones the new settings and the new (or, if the pods did not change, the larger) replicas, and leaves removed racks alone |
| RolloutTarget.UpdateWritesDefinition | cassandra-operator/pkg/operator/operations/adjuster/adjuster.go:118-174 | Whatever StatefulSets there were, a completed update builds those of added racks with every field as defined, writes replicas, image, resources and both probes of the new definition into matched ones if the pods change or the rack grows, and leaves everything else, in these sets and in others, as it was |
| RolloutTarget.UpdateTouchesNothingElse | cassandra-operator/pkg/operator/operations/update_cluster.go:23-61 | Whatever the API answers, StatefulSets that belong to none of the new racks are unchanged |
| RolloutTarget.UpdateCompletes | cassandra-operator/pkg/operator/operations/update_cluster.go:23-61 | An allowed update completes if every call succeeds, every change is seen rolled out in the end and the names of added racks are free |
| RolloutTarget.UpdateRealizesExactlyWhen | cassandra-operator/pkg/operator/operations/adjuster/adjuster.go:118-174 | The new specification is realized exactly when nothing shrinks without a change of the pods and a patch does not lose the image |
| RolloutTarget.ReplicasReachTarget | cassandra-operator/pkg/operator/operations/adjuster/adjuster.go:137-149 | A matched rack reaches the new replicas exactly when the pods change too or it does not shrink |
| RolloutTarget.UpdateEqualsRebuild | cassandra-operator/pkg/operator/operations/adjuster/adjuster.go:161-174 | An updated StatefulSet equals a rebuilt one exactly when, besides, CPU, memory and volume size did not change |
| RolloutExamples.ShrinkIsIgnored | cassandra-operator/pkg/operator/operations/adjuster/adjuster.go:137-149 | An update from two replicas to one that completes and leaves two |
| RolloutExamples.EmptyImageIsWritten | cassandra-operator/pkg/operator/operations/adjuster/adjuster.go:161-174 | An update that completes and writes an empty bootstrapper image where there was the default |
| RolloutExamples.CpuChangeDiffersFromRebuild | cassandra-operator/pkg/operator/operations/adjuster/adjuster.go:161-174 | A change of the CPU that completes and realizes the specification, but differs from a rebuild |
| RolloutTarget.CreationRealizes | cassandra-operator/pkg/operator/operations/statefulset_accessor.go:17-25 | A completed creation realizes the specification: each rack has a StatefulSet whose every field is as defined |
| RolloutTarget.UpdatesRealizeLast | cassandra-operator/pkg/operator/operations/update_cluster.go:23-61 | After any number of updates that can take full effect the StatefulSets realize the last specification |
| RolloutTarget.StepwiseEqualsDirect | cassandra-operator/pkg/operator/operations/update_cluster.go:23-61 | Growing in two steps leads where growing at once does: same replicas and settings, and the same StatefulSets for the original racks |
| RolloutTarget.ConfigMapsComeAndGo | cassandra-operator/pkg/operator/operations/add_configmap.go:22-32 | After any sequence of ConfigMap additions, updates and deletions each rack mounts the current ConfigMap with its hash as if newly added, or is back to its original template |
| RolloutTarget.CurrentConfigIsMounted | cassandra-operator/pkg/operator/operations/add_configmap.go:22-32 | So after any such sequence the bootstrapper of each rack mounts a volume that refers to the current ConfigMap, under its current hash, or there is no trace of any; no mount is without its volume |
| RolloutTarget.EachRackEffect | cassandra-operator/pkg/operator/operations/delete_configmap.go:20-29 | A completed ConfigMap operation changes the StatefulSet of every rack once, and no other |
| SnapshotJobs.Receiver.Receive | cassandra-operator/pkg/operator/operations/receiver.go:66-74 | Runs all operations of an event, whatever becomes of the earlier ones |
| SnapshotJobs.Receiver.ExecuteOperation | cassandra-operator/pkg/operator/operations/receiver.go:66-165 | Each operation equals its function on the records, the jobs and the definition completed in place |
| SnapshotJobs.Receiver.UpdateCronJob | cassandra-operator/pkg/operator/operations/update_snapshot.go:22-43 | Finds the job by label, overwrites its schedule and container and writes it back, unless a call fails or the job is not unique |
| SnapshotJobs.Receiver.DeleteCronJob | cassandra-operator/pkg/operator/operations/delete_snapshot.go:20-34 | Finds the job by label and deletes it |
| SnapshotJobs.JobsOfCluster | cassandra-operator/pkg/cluster/cluster.go:394-464 | Both jobs run the snapshot tool with their subcommand on the pods labelled as the cluster's, and have one name as object, label and container |
| SnapshotHistory.SnapshotJobFollowsSpec | cassandra-operator/pkg/operator/operations/receiver.go:108-165 | After any events, invalid definitions of clusters that are not on record yet included, a cluster has a snapshot job exactly when its recorded specification asks for one, with the schedule and command built from it |
| SnapshotHistory.CleanupJobFollowsSpec | cassandra-operator/pkg/operator/operations/receiver.go:119-165 | A cleanup job is never orphaned or stale, and exists exactly when retention was enabled in every specification since the snapshot last appeared |
| SnapshotHistory.NoJobIsLeftBehind | cassandra-operator/pkg/operator/operations/receiver.go:119-165 | Every job belongs to a cluster that currently has a snapshot |
| SnapshotHistory.TurningRetentionOnAddsNoJob | cassandra-operator/pkg/operator/operations/receiver.go:148-157 | Turning retention on for an existing snapshot adds no cleanup job |
| SnapshotHistory.UpdateEqualsRebuild | cassandra-operator/pkg/apis/cassandra/v1alpha1/types.go:156-160 | An update leaves the job a rebuild would give exactly when properties were found to differ or the image is the same |
| SnapshotHistory.CleanupUpdateEqualsRebuild | cassandra-operator/pkg/apis/cassandra/v1alpha1/types.go:163-168 | The same for the cleanup job while retention stays enabled |
| SnapshotExamples.ImageUpdateIsIgnored | cassandra-operator/pkg/apis/cassandra/v1alpha1/types.go:156-160 | A history in which an update of the image alone leaves the job with the old image |
| SnapshotExamples.RetentionUpdateIsIgnored | cassandra-operator/pkg/operator/operations/receiver.go:148-157 | A history in which retention is enabled and there is no cleanup job |
| SnapshotHistory.PanicFreeExactlyWhen | cassandra-operator/pkg/apis/cassandra/v1alpha1/types.go:156-168 | Whatever the events and the answers of the API, the operator gets through without a panic exactly when each update of a cluster on record changes the schedule or has both timeouts set, and likewise for the retention policies |
| SnapshotExamples.UpdateWithoutTimeoutPanics | cassandra-operator/pkg/apis/cassandra/v1alpha1/types.go:156-160 | A history of a valid specification without a timeout whose first update is a panic |
| SnapshotHistory.RecordsFollowHistory | cassandra-operator/pkg/operator/operations/receiver.go:130-140 | Whatever the events and the answers of the API, a cluster has on record its last valid specification since it was last deleted, completed, and nothing without one |
| SnapshotEvents.EventOnJobs | cassandra-operator/pkg/operator/operations/receiver.go:66-165 | What any event, valid or not and of a cluster on record or not, makes of the two jobs of its cluster and of its record, and that no other job changes |
| SnapshotEvents.FirstValidDefinition | cassandra-operator/pkg/operator/operations/receiver.go:108-140 | The first valid definition of a cluster, as an addition or as an update, gives it its record and exactly the jobs that it asks for, with their schedules and commands, and touches no other job |
| SnapshotHistory.EventsReflect | cassandra-operator/pkg/operator/operations/receiver.go:66-165 | So with an API that answers, the jobs after any events at all are a function of the events, cluster by cluster |
| SnapshotHistory.InvalidUpdateKeepsJobExactlyWhen | cassandra-operator/pkg/operator/operations/receiver.go:141-165 | An invalid update of a cluster on record keeps the record, and keeps a job that was right before exactly when the snapshot neither goes nor differs in a way that shows in the job |
| SnapshotExamples.CorrectedDefinitionGetsJobs | cassandra-operator/pkg/operator/operations/receiver.go:135-140 | A cluster whose first definition was invalid gets its record, and its jobs exactly as specified, with the first valid update |
| SnapshotExamples.InvalidScheduleReachesJob | cassandra-operator/pkg/operator/operations/receiver.go:141-165 | A history in which a schedule that cannot be parsed is written into the job, while the record keeps the old one |
| SnapshotExamples.CorrectedSnapshotGetsNoJob | cassandra-operator/pkg/operator/operations/receiver.go:141-165 | A history in which the recorded specification asks for a snapshot and there is no job |
| SnapshotHistory.NoPanicWithTimeouts | cassandra-operator/pkg/apis/cassandra/v1alpha1/types.go:156-168 | So with all timeouts set no sequence of events makes the operator panic |
| SnapshotHistory.UnchangedSnapshotPanicsExactlyWhen | cassandra-operator/pkg/apis/cassandra/v1alpha1/types.go:156-168 | An update that keeps the snapshot panics exactly when one of its timeouts is unset |
| SnapshotHistory.ForeignEventsChangeNothing | cassandra-operator/pkg/operator/operations/receiver.go:66-165 | Even when calls fail and specifications are invalid, a cluster without events of its own has no jobs |
| SnapshotEvents.KeysAreDistinct | cassandra-operator/pkg/apis/cassandra/v1alpha1/types.go:126-133 | Snapshot and cleanup jobs of all clusters have different names |
| SnapshotCommand.SnapshotCommandRoundTrip | cassandra-operator/pkg/cluster/cluster.go:408-427 | The snapshot tool parses the command of a snapshot job back into the namespace, the cluster's pod label, the timeout and the keyspaces of the specification, exactly when no keyspace name contains a comma and the list is not a single empty name |
| SnapshotCommand.CleanupCommandRoundTrip | cassandra-operator/pkg/cluster/cluster.go:445-464 | The same for a cleanup job with its retention period and timeout, or the defaults of the tool |
| SnapshotCommand.ListRoundTrip | cassandra-snapshot/cmd/root.go:28-36 | A list joined by commas is parsed into the same list exactly when no name contains a comma and it is not a single empty name |
| SnapshotCommand.CleanupJobKeepsRetention | cassandra-snapshot/cmd/cleanup.go:22-36 | After any events, an existing cleanup job makes the tool select, on the pods of its cluster, exactly the snapshots older than the retention days of the current specification (7 if unset) |
| NodeStatus.TransformClusterStatus | cassandra-operator/pkg/metrics/nodestatus.go:62-109 | The five loops compute the declarative statuses: all mentioned nodes, unreachable over live, joining over moving over leaving |
| NodeStatus.OrderAndRepetitionDoNotMatter | cassandra-operator/pkg/metrics/nodestatus.go:62-109 | Lists that mention the same nodes give the same statuses |
| NodeStatus.LabelsTellTheLists | cassandra-operator/pkg/metrics/nodestatus.go:16-36 | In derived statuses at most one state is set and never both up and down, and the labels say which lists a node is in |
| NodeStatus.UnapplicableLabelPairs | cassandra-operator/pkg/metrics/nodestatus.go:49-60 | All label pairs but the applicable one |
| NodeStatus.EveryPairIsListed | cassandra-operator/pkg/metrics/nodestatus.go:38-47 | The list of label pairs is complete and free of repetitions |
| Gauges.PrometheusMetrics.UpdateMetrics | cassandra-operator/pkg/metrics/prometheus.go:111-141 | In whatever order the statuses are visited, the gauges, the size and the topology are those of the findings; nothing changes if a fetch fails |
| Gauges.PrometheusMetrics.DeleteMetrics | cassandra-operator/pkg/metrics/prometheus.go:75-108 | Removes the size, the topology and the series of its nodes |
| Gauges.GaugesFollowHistory | cassandra-operator/pkg/metrics/prometheus.go:75-148 | After any run each series is there exactly if the history shows its node, with the value the last report on the node gives |
| Gauges.GaugesAreOneHot | cassandra-operator/pkg/metrics/prometheus.go:143-148 | After any run a node that has a series has all eight, exactly one of them 1 and the others 0 |
| GaugeReports.ReportedPodsAreShown | cassandra-operator/pkg/metrics/prometheus.go:111-148 | After any run that ends with a report, every listed pod (the last with its address) that some list mentions has all eight series, under the rack the report has for its address or else "unknown", and the one that is 1 is that of the lists it is in |
| GaugeReports.OtherSeriesStay | cassandra-operator/pkg/metrics/prometheus.go:111-148 | All other series are as before the report: none comes, goes or changes |
| GaugeReports.SizeCountsReportedPods | cassandra-operator/pkg/metrics/prometheus.go:139-140 | The size of the cluster is the number of these pods, and no other size changes |
| Gauges.SizeIsThatOfLastReport | cassandra-operator/pkg/metrics/prometheus.go:139-140 | The size of a cluster is the number of pods in its last topology, and is absent without one |
| Gauges.DeletionRemovesLastTopology | cassandra-operator/pkg/metrics/prometheus.go:75-108 | Deletion removes exactly the series of the last topology and touches no other cluster; all series of the cluster are gone exactly when, for every node, no report missed it before the deletion that would have removed it |
| Gauges.ShownIsCurrentOrVanished | cassandra-operator/pkg/metrics/prometheus.go:75-141 | A node is shown because the last report found it, or because a report missed it before a deletion could remove it |
| Gauges.VanishedPodStaysShown | cassandra-operator/pkg/metrics/prometheus.go:75-141 | A run in which a pod that is gone at the second report is still shown after the deletion |
| Gauges.PodNamesAreInjective | cassandra-operator/pkg/metrics/prometheus.go:169-180 | No two addresses stand for the same pod |
| SnapshotListing.FindsMatch | cassandra-snapshot/pkg/nodetool/nodetool.go:63-71 | A line that the regular expression matches yields its three groups |
| SnapshotListing.ParsedExactlyWhenMatched | cassandra-snapshot/pkg/nodetool/nodetool.go:63-71 | A line is parsed exactly when the regular expression matches it |
| SnapshotListing.ReadSnapshots | cassandra-snapshot/pkg/nodetool/nodetool.go:63-71 | The loop collects the parsed lines of the output in order |
| SnapshotListing.SplitJoin | cassandra-snapshot/pkg/nodetool/nodetool.go:64 | Splitting joined lines gives the lines back |
| SnapshotListing.ListingRoundTrip | cassandra-snapshot/pkg/nodetool/nodetool.go:56-74 | Whatever the spacing and the other lines, exactly the snapshots with numeric names are recovered, with their keyspace and column family |
| SnapshotListing.TimestampRoundTrip | cassandra-snapshot/pkg/nodetool/nodetool.go:42-45 | A name printed from a time parses to the same time, and is numeric exactly when the time is not negative |
| Retention.OutsideRetentionPeriod | cassandra-snapshot/pkg/snapshot/filter/filter.go:12-36 | The nested loops compute the selection |
| Retention.SelectsExpiredOnce | cassandra-snapshot/pkg/snapshot/filter/filter.go:12-36 | Every expired snapshot is selected, once for each name and keyspace, and nothing else is |
| Retention.Manipulator.DoCleanup | cassandra-snapshot/pkg/snapshot/snapshot.go:77-110 | Each pod ends as its own answers alone determine, and the error lists the failures |
| Retention.Manipulator.DoCreate | cassandra-snapshot/pkg/snapshot/snapshot.go:51-74 | Each pod gets the snapshot named after the time, and the error lists the pods that failed |
| Retention.CleanupLeavesTheUnexpired | cassandra-snapshot/pkg/snapshot/snapshot.go:77-110 | On a pod whose calls succeed precisely the rows that are not numeric or not below the cutoff are left, in order |
| Retention.OnlyExpiredAreRemoved | cassandra-snapshot/pkg/snapshot/snapshot.go:90-103 | Whatever fails, only expired rows are ever removed |
| Retention.DeletionsLeave | cassandra-snapshot/pkg/nodetool/nodetool.go:77-80 | The rows left are those that no deletion that took effect stands for |
| Retention.ErrorExactlyWhenAPodFails | cassandra-snapshot/pkg/snapshot/snapshot.go:87-109 | A cleanup ends with an error exactly when listing or a needed deletion failed on some pod |
| Retention.ExpiresAfterDays | cassandra-snapshot/pkg/snapshot/snapshot.go:88 | A snapshot is expired exactly when it is older than the days of retention, for up to 106751 days |
| Retention.LongRetentionWraps | cassandra-operator/pkg/cluster/cluster.go:788-790 | With one more day the period is negative and fresh snapshots are expired |
| Retention.SnapshotLife | cassandra-snapshot/pkg/snapshot/snapshot.go:51-110 | A snapshot that was taken is there after a later cleanup exactly while it is not older than the retention period, and the rest is cleaned up as if it had not been taken |
| Retention.NewRowsAre | cassandra-snapshot/pkg/nodetool/nodetool.go:42-53 | A snapshot has a row for each table of the keyspaces that are named, or of all if none is, and for no other |
| Retention.TablesWithSnapshot | cassandra-snapshot/pkg/snapshot/snapshot.go:51-110 | After a snapshot and a later cleanup a table has a snapshot of that time exactly if the time is within the retention period and the table was wanted or had one already |
| Durations.DaysAreExact | cassandra-operator/pkg/cluster/cluster.go:788-790 | A number of days is represented exactly if and only if it is at most 106751 in size |
| Durations.SecondsAreExact | cassandra-operator/pkg/cluster/cluster.go:792-794 | Every 32-bit number of seconds is represented exactly |
| Naming.ConfigMapNameRoundTrip | cassandra-operator/pkg/cluster/cluster.go:776-786 | A cluster's ConfigMap name leads back to the cluster exactly when its name does not contain -config |
| Naming.NamedByConvention | cassandra-operator/pkg/cluster/cluster.go:781-786 | A ConfigMap is that of a cluster exactly when its name ends in -config, and then of the cluster named by the rest without any -config |
| Naming.OccurrenceIsRemoved | cassandra-operator/pkg/cluster/cluster.go:785 | Every occurrence of -config goes, and what is before and after it is treated by itself |
| Naming.ConfigMapOfAnotherCluster | cassandra-operator/pkg/cluster/cluster.go:781-786 | A ConfigMap that is taken for that of another cluster |
| Naming.QualifiedNameIsInjective | cassandra-operator/pkg/apis/cassandra/v1alpha1/types.go:121-123 | So qualified names identify clusters, as namespaces contain no dots |
| Naming.SameQualifiedNameExactlyWhen | cassandra-operator/pkg/apis/cassandra/v1alpha1/types.go:121-123 | Two clusters share a qualified name exactly when they are the same or differ by a dot inside a namespace |
| CassandraYaml.SeedRewriteReplacesSection | cassandra-bootstrapper/bootstrapper/src/main/java/com/sky/core/operators/cassandra/bootstrapper/configurations/SeedProvider.java:20-33 | The section from its header up to the next comment is replaced, everything else kept |
| CassandraYaml.SeedRewriteTwice | cassandra-bootstrapper/bootstrapper/src/main/java/com/sky/core/operators/cassandra/bootstrapper/configurations/SeedProvider.java:20-33 | Rewriting the seed provider twice is rewriting it once |
| CassandraYaml.SeedRewriteReseeds | cassandra-bootstrapper/bootstrapper/src/main/java/com/sky/core/operators/cassandra/bootstrapper/configurations/SeedProvider.java:20-35 | In the result every section has the given text up to the next comment or header, and the lines outside sections are the same, with the headers in the same places |
| CassandraYaml.SetPropertiesInOnePass | cassandra-bootstrapper/bootstrapper/src/main/java/com/sky/core/operators/cassandra/bootstrapper/configurations/ClusterProperties.java:32-52 | Setting several properties one after the other replaces their lines and appends those that are missing |
| CassandraYaml.PropertiesAreSet | cassandra-bootstrapper/bootstrapper/src/main/java/com/sky/core/operators/cassandra/bootstrapper/configurations/ClusterProperties.java:32-52 | Afterwards each property has its line, and no line gives it another value |
| CassandraYaml.SetPropertiesOnlySets | cassandra-bootstrapper/bootstrapper/src/main/java/com/sky/core/operators/cassandra/bootstrapper/configurations/ClusterProperties.java:32-52 | Lines that set one of the properties get its value, all others are kept, and one line is added for each property that none sets |
| CassandraYaml.ConfigureTwice | cassandra-bootstrapper/bootstrapper/src/main/java/com/sky/core/operators/cassandra/bootstrapper/configurations/SeedProvider.java:20-35 | For every file the seed provider pass followed by the property passes, run twice, equals one run, also where the second seed pass drops appended properties |
| JvmOptions.RequireAllTwice | cassandra-bootstrapper/bootstrapper/src/main/java/com/sky/core/operators/cassandra/bootstrapper/configurations/JavaAgents.java:25-33 | The same for any list of requirements that do not get in each other's way |
| JvmOptions.ConfigureTwice | cassandra-bootstrapper/bootstrapper/src/main/java/com/sky/core/operators/cassandra/bootstrapper/configurations/JavaAgents.java:14-33 | After a successful run another one neither fails nor changes the file exactly when the file ended in a line separator, was empty, or lacked nothing |
| JvmOptions.UnterminatedFileIsNotSettled | cassandra-bootstrapper/bootstrapper/src/main/java/com/sky/core/operators/cassandra/bootstrapper/configurations/JvmMemoryDefaults.java:39 | A file that a second run changes again |
| JvmOptions.YoungGenerationFitsHeap | cassandra-bootstrapper/bootstrapper/src/main/java/com/sky/core/operators/cassandra/bootstrapper/configurations/JvmMemoryDefaults.java:16-44 | The heap is at least 1 byte, and the young generation at most a quarter of it exactly when the pod has at least 8 MiB |
| JvmOptions.YoungGenerationIsLargest | cassandra-bootstrapper/bootstrapper/src/main/java/com/sky/core/operators/cassandra/bootstrapper/configurations/JvmMemoryDefaults.java:29-36 | The young generation is the largest number of megabytes within an eighth of the memory and, beyond 100, within a tenth of the millicores, but at least one |
| JvmOptions.HeapIsHalfTheMemory | cassandra-bootstrapper/bootstrapper/src/main/java/com/sky/core/operators/cassandra/bootstrapper/configurations/JvmMemoryDefaults.java:16-17 | The heap is the largest number of bytes within half the memory, but at least one |
| JvmOptions.ConfiguredOptions | cassandra-bootstrapper/bootstrapper/src/main/java/com/sky/core/operators/cassandra/bootstrapper/configurations/JavaAgents.java:14-33 | A successful run appends to a terminated file exactly the agents and memory options it lacks, in order, with their full texts |
| JvmOptions.OptionsSucceedExactlyWhen | cassandra-bootstrapper/bootstrapper/src/main/java/com/sky/core/operators/cassandra/bootstrapper/configurations/JavaAgents.java:25-33 | On such a file a run succeeds exactly when no agent is configured differently and the resources are given as numbers, the CPU only if it is needed |
| JvmOptions.MemoryDefaultsOneByOne | cassandra-bootstrapper/bootstrapper/src/main/java/com/sky/core/operators/cassandra/bootstrapper/configurations/JvmMemoryDefaults.java:12-40 | Appending the missing memory options at once equals requiring them one by one |
| Bootstrapper.CassandraBootstrapper.ApplySeedProvider | cassandra-bootstrapper/bootstrapper/src/main/java/com/sky/core/operators/cassandra/bootstrapper/configurations/SeedProvider.java:9-36 | The loop with its flag computes the rewritten file |
| Bootstrapper.CassandraBootstrapper.SetPropertyInCassandraYaml | cassandra-bootstrapper/bootstrapper/src/main/java/com/sky/core/operators/cassandra/bootstrapper/configurations/ClusterProperties.java:32-52 | The loop with its flag sets the property |
| Bootstrapper.CassandraBootstrapper.ApplyClusterProperties | cassandra-bootstrapper/bootstrapper/src/main/java/com/sky/core/operators/cassandra/bootstrapper/configurations/ClusterProperties.java:11-30 | The four properties in order, as far as the environment is complete |
| Bootstrapper.CassandraBootstrapper.ApplyJavaAgents | cassandra-bootstrapper/bootstrapper/src/main/java/com/sky/core/operators/cassandra/bootstrapper/configurations/JavaAgents.java:15-33 | The two agents in order, or the conflict |
| Bootstrapper.CassandraBootstrapper.ApplyJvmMemoryDefaults | cassandra-bootstrapper/bootstrapper/src/main/java/com/sky/core/operators/cassandra/bootstrapper/configurations/JvmMemoryDefaults.java:12-40 | The missing memory options are appended |
| Bootstrapper.CassandraBootstrapper.Configure | cassandra-bootstrapper/bootstrapper/src/main/java/com/sky/core/operators/cassandra/bootstrapper/CassandraBootstrapper.java:22-43 | The actions in their order, ending at the first failure |
| Bootstrapper.YamlSucceedsExactlyWhen | cassandra-bootstrapper/bootstrapper/src/main/java/com/sky/core/operators/cassandra/bootstrapper/configurations/SeedProvider.java:10-17 | The two actions on cassandra.yaml succeed exactly when the file, the cluster name and the address are there, and the namespace unless the variable says "true" in some letter case |
| Bootstrapper.BootstrappedYaml | cassandra-bootstrapper/bootstrapper/src/main/java/com/sky/core/operators/cassandra/bootstrapper/CassandraBootstrapper.java:22-43 | After a successful run the file has the snitch, the cluster name and both addresses and nothing to the contrary; with the variable unset or anything but "true" every seed provider section is the one for this namespace and cluster and everything outside is kept, and with "true" only lines of the four properties change |
| Bootstrapper.BootstrapTwice | cassandra-bootstrapper/bootstrapper/src/main/java/com/sky/core/operators/cassandra/bootstrapper/CassandraBootstrapper.java:22-43 | A second run after a successful one succeeds and changes nothing exactly when `jvm.options` ended in a line separator, was empty, or lacked nothing; `cassandra.yaml` never stands in the way |

## Left out

- The Kubernetes client, informers and watches, HTTP and Jolokia calls, logging, recorded events and remote execution: their answers are parameters of the operations that need them.
- `RackDC`, `KubernetesSeedProvider`'s counting of seeds and the status pages: simple writers and readers of text that would only add easy members.
- Dumping YAML: the seed provider section is a parameter that starts with its header and whose other lines are neither the header, nor comments, nor led by one of the four properties. A section without the header would need another condition.
- Command-line parsing beyond flags followed by their values, and quotes in list values: the operator writes neither.
- Hashes of ConfigMaps are values that come with the ConfigMap; parsing cron expressions is a predicate on texts; printing and parsing durations in commands is not modelled, so a job carries the duration itself.
- The parts of a StatefulSet that no operation changes after creation and that no theorem is about: ports, probe commands, service names and labels.
- Services and the deletion of StatefulSets with a cluster, the `Online` flag, and the lookup of existing resources before a cluster is created: one API call each, with no effect on the properties proved.
- Serialisation holds per key. Events of a ConfigMap and of its cluster have different keys, so the model does not order them.
- The memory model of Go: `Dispatch` runs as the atomic steps between its channel and lock operations, and the unsynchronised read of the stopped flag is one such step.
- Floating-point rounding of `Duration.Seconds` for periods that are not whole seconds; the operator only produces whole days.
- Lines of text contain no line separators, which is how both languages read files, and characters are not encoded.
- Rollout.StatefulSetAccessor.WaitUntilRackChangeApplied: polling goes through a finite list of replies instead of a timer, and a list that ends before the change is applied stands for an operation that has not returned.
- RolloutTarget.UpdateReachesTarget: for specifications in which names identify racks; otherwise the planner matches a name with its first rack.
- SnapshotJobs.Receiver.Receive: clusters are identified by namespace and name rather than by the text that joins them with a dot, and the effects of the cluster operations on StatefulSets are those of the rollout modules.
- SnapshotHistory.CleanupJobFollowsSpec: about runs in which API calls succeed and updates of clusters on record are valid; what invalid ones do is stated by `SnapshotEvents.EventOnJobs` and `SnapshotHistory.EventsReflect`, and for failing calls there are `SnapshotHistory.RecordsFollowHistory`, `SnapshotHistory.PanicFreeExactlyWhen` and `SnapshotHistory.ForeignEventsChangeNothing`.
- NodeStatus.UnapplicableLabelPairs: the label values are constructors instead of texts.
- Gauges.PrometheusMetrics.UpdateMetrics: pod names are unique, as the API guarantees within a namespace; gauge values are integers.
- Retention.Manipulator.DoCreate: a snapshot name that is already taken on a pod is an answer of the pod.
- Retention.Manipulator.DoCleanup: the two nested loops over pods and snapshots are methods of their own.
- Bootstrapper.CassandraBootstrapper.Configure: files are lists of lines with a flag for the last line separator; copying them to and from the staging directory is left out.
