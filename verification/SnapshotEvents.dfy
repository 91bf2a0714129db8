/**
 * What a single cluster event does to the snapshot CronJobs when the API answers, whatever
 * the world and the definition it carries.
 */
module SnapshotEvents {
  import opened Wrappers
  import opened ClusterSpec
  import opened SnapshotJobs

  type Jobs = map<JobKey, CronJob>

  function At<K, V>(entries: map<K, V>, key: K): Option<V> {
    if key in entries then Some(entries[key]) else None
  }

  // ---------- Names

  lemma KeysAreDistinct(a: ClusterId, b: ClusterId)
    ensures SnapshotKey(a) == SnapshotKey(b) <==> a == b
    ensures CleanupKey(a) == CleanupKey(b) <==> a == b
    ensures SnapshotKey(a) != CleanupKey(b)
  {
    var n, m := |a.name|, |b.name|;
    assert SnapshotKey(a).name[|SnapshotKey(a).name| - 1] == 't';
    assert CleanupKey(b).name[|CleanupKey(b).name| - 1] == 'p';
    assert SnapshotKey(a).name[..|SnapshotKey(a).name| - |SNAPSHOT_SUFFIX|] == a.name;
    assert SnapshotKey(b).name[..|SnapshotKey(b).name| - |SNAPSHOT_SUFFIX|] == b.name;
    assert CleanupKey(a).name[..|CleanupKey(a).name| - |CLEANUP_SUFFIX|] == a.name;
    assert CleanupKey(b).name[..|CleanupKey(b).name| - |CLEANUP_SUFFIX|] == b.name;
  }

  // ---------- Single calls, when the API answers

  ghost predicate AllSucceed(api: Api) {
    forall n: nat :: api.list(n) && api.create(n) && api.update(n) && api.delete(n)
  }

  /** Jobs are labelled with their own name, so that looking one up by label finds it by name. */
  ghost predicate SelfLabelled(jobs: Jobs) {
    forall k :: k in jobs ==> jobs[k].app == k.name
  }

  lemma FindsByName(jobs: Jobs, key: JobKey)
    requires SelfLabelled(jobs)
    ensures FindCronJob(jobs, key.namespace, key.name) == if key in jobs then Some(key) else None
  {
    var keys := Labelled(jobs, key.namespace, key.name);
    if key in jobs {
      assert keys == {key};
    } else {
      assert keys == {};
    }
  }

  function Without(jobs: Jobs, key: JobKey): Jobs {
    jobs - {key}
  }

  function With(jobs: Jobs, key: JobKey, job: Option<CronJob>): Jobs {
    if job.None? then Without(jobs, key) else jobs[key := job.value]
  }

  lemma DeleteForgets(key: JobKey, api: Api, w: World)
    requires AllSucceed(api) && SelfLabelled(w.jobs)
    ensures Delete(key, api, w).jobs == Without(w.jobs, key)
  {
    FindsByName(w.jobs, key);
  }

  lemma UpdateOverwrites(key: JobKey, schedule: string, container: JobContainer, api: Api, w: World)
    requires AllSucceed(api) && SelfLabelled(w.jobs)
    ensures Update(key, schedule, container, api, w).jobs ==
            if key in w.jobs then w.jobs[key := CronJob(key.name, schedule, container)] else w.jobs
  {
    FindsByName(w.jobs, key);
  }

  // ---------- The jobs after an event

  /** The snapshot of a definition that has been completed. */
  function Recorded(snapshot: Snapshot): Snapshot {
    snapshot.(image := OrText(snapshot.image, DEFAULT_SNAPSHOT_IMAGE))
  }

  /** The snapshot as copying the definition leaves it: completed, unless the definition is found to be invalid before. */
  function Completed(spec: CassandraSpec, isCron: string -> bool): Snapshot
    requires spec.snapshot.Some?
  {
    CopyOutcome(spec, isCron).definition.snapshot.value
  }

  predicate CleansUp(spec: CassandraSpec) {
    spec.snapshot.Some? && spec.snapshot.value.HasRetentionPolicyEnabled()
  }

  /** Creating a job needs a valid definition and a free name. */
  function SnapshotJobIfAbsent(id: ClusterId, spec: CassandraSpec, isCron: string -> bool, before: Option<CronJob>): Option<CronJob> {
    if spec.snapshot.Some? && IsValid(spec, isCron) && before.None? then Some(SnapshotJob(id, Recorded(spec.snapshot.value))) else before
  }

  function CleanupJobIfAbsent(id: ClusterId, spec: CassandraSpec, isCron: string -> bool, before: Option<CronJob>): Option<CronJob> {
    if CleansUp(spec) && IsValid(spec, isCron) && before.None? then Some(CleanupJob(id, Recorded(spec.snapshot.value))) else before
  }

  /**
   * The snapshot job after an event of its cluster, given the one before and whether the
   * cluster is on record. Only creating a job needs a valid definition.
   */
  function NextSnapshotJob(event: Event, known: bool, isCron: string -> bool, before: Option<CronJob>): Option<CronJob> {
    match event
    case Added(id, spec) => SnapshotJobIfAbsent(id, spec, isCron, before)
    case Deleted(_, spec) => if spec.snapshot.Some? then None else before
    case Updated(id, old_, spec) =>
      if !known || (old_.snapshot.None? && spec.snapshot.Some?) then SnapshotJobIfAbsent(id, spec, isCron, before)
      else if spec.snapshot.None? then if old_.snapshot.Some? then None else before
      else if before.Some? && SnapshotPropertiesUpdated(old_.snapshot.value, spec.snapshot.value) == Some(true)
      then Some(SnapshotJob(id, Completed(spec, isCron)))
      else before
  }

  function NextCleanupJob(event: Event, known: bool, isCron: string -> bool, before: Option<CronJob>): Option<CronJob> {
    match event
    case Added(id, spec) => CleanupJobIfAbsent(id, spec, isCron, before)
    case Deleted(_, spec) => if CleansUp(spec) then None else before
    case Updated(id, old_, spec) =>
      if !known || (old_.snapshot.None? && spec.snapshot.Some?) then CleanupJobIfAbsent(id, spec, isCron, before)
      else if !CleansUp(spec) && CleansUp(old_) then None
      else if spec.snapshot.Some? && before.Some? &&
              SnapshotCleanupPropertiesUpdated(old_.snapshot.value, spec.snapshot.value) == Some(true)
      then Some(CleanupJob(id, Completed(spec, isCron)))
      else before
  }

  function JobsAfter(event: Event, known: bool, isCron: string -> bool, jobs: Jobs): Jobs {
    With(With(jobs, SnapshotKey(event.id), NextSnapshotJob(event, known, isCron, At(jobs, SnapshotKey(event.id)))),
         CleanupKey(event.id), NextCleanupJob(event, known, isCron, At(jobs, CleanupKey(event.id))))
  }

  /** The record of the cluster is overwritten by a valid definition, and survives an invalid one. */
  function RecordsAfter(event: Event, isCron: string -> bool, records: map<ClusterId, CassandraSpec>): map<ClusterId, CassandraSpec> {
    if event.Deleted? then records - {event.id}
    else if IsValid(event.spec, isCron) then records[event.id := Effective(event.spec)]
    else records
  }

  // ---------- One operation

  predicate IsJobOperation(op: Operation) {
    !op.AddCluster? && !op.UpdateCluster? && !op.DeleteCluster?
  }

  predicate Deletes(op: Operation) {
    op.DeleteSnapshot? || op.DeleteSnapshotCleanup?
  }

  /** What an operation does to the jobs when the API answers. */
  function JobsBy(op: Operation, id: ClusterId, spec: CassandraSpec, isCron: string -> bool, jobs: Jobs): Jobs
    requires Applicable(op, spec)
  {
    match op
    case AddSnapshot =>
      if SnapshotKey(id) in jobs || !IsValid(spec, isCron) then jobs
      else jobs[SnapshotKey(id) := SnapshotJob(id, Recorded(spec.snapshot.value))]
    case AddSnapshotCleanup =>
      if CleanupKey(id) in jobs || !IsValid(spec, isCron) then jobs
      else jobs[CleanupKey(id) := CleanupJob(id, Recorded(spec.snapshot.value))]
    case DeleteSnapshot => Without(jobs, SnapshotKey(id))
    case DeleteSnapshotCleanup => Without(jobs, CleanupKey(id))
    case UpdateSnapshot =>
      if SnapshotKey(id) in jobs then jobs[SnapshotKey(id) := SnapshotJob(id, Completed(spec, isCron))] else jobs
    case UpdateSnapshotCleanup =>
      if CleanupKey(id) in jobs then jobs[CleanupKey(id) := CleanupJob(id, Completed(spec, isCron))] else jobs
    case _ => jobs
  }

  lemma OperationOnJobs(op: Operation, id: ClusterId, api: Api, isCron: string -> bool, spec: CassandraSpec, c: Context)
    requires AllSucceed(api) && SelfLabelled(c.world.jobs) && IsJobOperation(op) && Applicable(op, spec)
    requires c.definition == CopyOutcome(spec, isCron).definition || (c.definition == spec && Deletes(op))
    ensures Applicable(op, c.definition)
    ensures var after := Execute(op, id, api, isCron, c);
            && after.world.jobs == JobsBy(op, id, spec, isCron, c.world.jobs) && SelfLabelled(after.world.jobs)
            && after.definition == c.definition && after.world.records == c.world.records
  {
    CopyingAgain(spec, isCron);
    match op {
      case AddSnapshot | AddSnapshotCleanup => CreationOnJobs(op, id, api, isCron, spec, c);
      case DeleteSnapshot => DeleteForgets(SnapshotKey(id), api, c.world);
      case DeleteSnapshotCleanup => DeleteForgets(CleanupKey(id), api, c.world);
      case UpdateSnapshot =>
        var snapshot := Completed(spec, isCron);
        UpdateOverwrites(SnapshotKey(id), snapshot.schedule, SnapshotContainer(id, snapshot), api, c.world);
      case UpdateSnapshotCleanup =>
        var snapshot := Completed(spec, isCron);
        UpdateOverwrites(CleanupKey(id), snapshot.retentionPolicy.value.cleanupSchedule, CleanupContainer(id, snapshot), api, c.world);
      case _ =>
    }
  }

  lemma CreationOnJobs(op: Operation, id: ClusterId, api: Api, isCron: string -> bool, spec: CassandraSpec, c: Context)
    requires AllSucceed(api) && SelfLabelled(c.world.jobs) && (op.AddSnapshot? || op.AddSnapshotCleanup?) && Applicable(op, spec)
    requires c.definition == CopyOutcome(spec, isCron).definition
    ensures Applicable(op, c.definition)
    ensures var after := Execute(op, id, api, isCron, c);
            && after.world.jobs == JobsBy(op, id, spec, isCron, c.world.jobs) && SelfLabelled(after.world.jobs)
            && after.definition == c.definition && after.world.records == c.world.records
  {
    CopyingAgain(spec, isCron);
    if IsValid(spec, isCron) {
      assert Effective(c.definition).snapshot == Some(Recorded(spec.snapshot.value));
    }
  }

  // ---------- The operations of an event

  function JobsByAll(ops: seq<Operation>, id: ClusterId, spec: CassandraSpec, isCron: string -> bool, jobs: Jobs): Jobs
    requires AllApplicable(ops, spec)
  {
    if ops == [] then jobs else JobsByAll(ops[1..], id, spec, isCron, JobsBy(ops[0], id, spec, isCron, jobs))
  }

  lemma {:induction false} OperationsOnJobs(ops: seq<Operation>, id: ClusterId, api: Api, isCron: string -> bool, spec: CassandraSpec, c: Context)
    requires AllSucceed(api) && SelfLabelled(c.world.jobs) && AllApplicable(ops, spec)
    requires forall op :: op in ops ==> IsJobOperation(op)
    requires c.definition == CopyOutcome(spec, isCron).definition || (c.definition == spec && forall op :: op in ops ==> Deletes(op))
    ensures AllApplicable(ops, c.definition)
    ensures var after := ExecuteAll(ops, id, api, isCron, c).world;
            && after.jobs == JobsByAll(ops, id, spec, isCron, c.world.jobs) && SelfLabelled(after.jobs)
            && after.records == c.world.records
  {
    forall op | op in ops
      ensures Applicable(op, c.definition)
    {
      OperationOnJobs(op, id, api, isCron, spec, c);
    }
    if ops != [] {
      OperationOnJobs(ops[0], id, api, isCron, spec, c);
      OperationsOnJobs(ops[1..], id, api, isCron, spec, Execute(ops[0], id, api, isCron, c));
    }
  }

  lemma {:induction false} JobsByAppended(a: seq<Operation>, b: seq<Operation>, id: ClusterId, spec: CassandraSpec, isCron: string -> bool, jobs: Jobs)
    requires AllApplicable(a, spec) && AllApplicable(b, spec) && AllApplicable(a + b, spec)
    ensures JobsByAll(a + b, id, spec, isCron, jobs) == JobsByAll(b, id, spec, isCron, JobsByAll(a, id, spec, isCron, jobs))
  {
    if a == [] {
      assert a + b == b;
    } else {
      assert (a + b)[1..] == a[1..] + b && (a + b)[0] == a[0];
      JobsByAppended(a[1..], b, id, spec, isCron, JobsBy(a[0], id, spec, isCron, jobs));
    }
  }

  /** A single operation, or none. */
  function When(condition: bool, op: Operation): seq<Operation> {
    if condition then [op] else []
  }

  lemma JobsByAtMostOne(condition: bool, op: Operation, id: ClusterId, spec: CassandraSpec, isCron: string -> bool, jobs: Jobs)
    requires condition ==> Applicable(op, spec)
    ensures AllApplicable(When(condition, op), spec)
    ensures JobsByAll(When(condition, op), id, spec, isCron, jobs) == if condition then JobsBy(op, id, spec, isCron, jobs) else jobs
  {
    assert [op][1..] == [];
  }

  /** The operations after the one on the cluster itself. */
  function JobOperations(event: Event, w: World): seq<Operation>
    requires OperationsFor(event, w).Some?
  {
    OperationsFor(event, w).value[1..]
  }

  lemma TwoOperations(a: bool, op: Operation, b: bool, op': Operation, id: ClusterId, spec: CassandraSpec, isCron: string -> bool, jobs: Jobs)
    requires (a ==> Applicable(op, spec)) && (b ==> Applicable(op', spec))
    ensures AllApplicable(When(a, op) + When(b, op'), spec)
    ensures var first := if a then JobsBy(op, id, spec, isCron, jobs) else jobs;
            JobsByAll(When(a, op) + When(b, op'), id, spec, isCron, jobs) == if b then JobsBy(op', id, spec, isCron, first) else first
  {
    JobsByAtMostOne(a, op, id, spec, isCron, jobs);
    var first := if a then JobsBy(op, id, spec, isCron, jobs) else jobs;
    JobsByAtMostOne(b, op', id, spec, isCron, first);
    JobsByAppended(When(a, op), When(b, op'), id, spec, isCron, jobs);
  }

  /** The operations for adding a cluster, which an update of an unknown cluster triggers too. */
  lemma AddOperationsOnJobs(event: Event, isCron: string -> bool, w: World)
    requires OperationsFor(event, w).Some? && (event.Added? || (event.Updated? && event.id !in w.records))
    ensures JobsByAll(JobOperations(event, w), event.id, event.spec, isCron, w.jobs) == JobsAfter(event, event.id in w.records, isCron, w.jobs)
  {
    hide SnapshotJob, CleanupJob;
    KeysAreDistinct(event.id, event.id);
    var spec := event.spec;
    TwoOperations(spec.snapshot.Some?, AddSnapshot, CleansUp(spec), AddSnapshotCleanup, event.id, spec, isCron, w.jobs);
    assert JobOperations(event, w) == When(spec.snapshot.Some?, AddSnapshot) + When(CleansUp(spec), AddSnapshotCleanup);
  }

  lemma DeleteOperationsOnJobs(event: Event, isCron: string -> bool, w: World)
    requires OperationsFor(event, w).Some? && event.Deleted?
    ensures JobsByAll(JobOperations(event, w), event.id, event.spec, isCron, w.jobs) == JobsAfter(event, event.id in w.records, isCron, w.jobs)
  {
    hide SnapshotJob, CleanupJob;
    KeysAreDistinct(event.id, event.id);
    var spec := event.spec;
    TwoOperations(spec.snapshot.Some?, DeleteSnapshot, CleansUp(spec), DeleteSnapshotCleanup, event.id, spec, isCron, w.jobs);
    assert JobOperations(event, w) == When(spec.snapshot.Some?, DeleteSnapshot) + When(CleansUp(spec), DeleteSnapshotCleanup);
  }

  lemma UpdateOperationsOnJobs(event: Event, isCron: string -> bool, w: World)
    requires OperationsFor(event, w).Some? && event.Updated? && event.id in w.records
    ensures JobsByAll(JobOperations(event, w), event.id, event.spec, isCron, w.jobs) == JobsAfter(event, true, isCron, w.jobs)
  {
    hide SnapshotJob, CleanupJob;
    KeysAreDistinct(event.id, event.id);
    var spec, old_, jobs := event.spec, event.old_, w.jobs;
    if spec.snapshot.Some? && old_.snapshot.Some? {
      SnapshotChangeOnJobs(event, isCron, w);
    } else if spec.snapshot.Some? {
      TwoOperations(true, AddSnapshot, CleansUp(spec), AddSnapshotCleanup, event.id, spec, isCron, jobs);
      assert JobOperations(event, w) == When(true, AddSnapshot) + When(CleansUp(spec), AddSnapshotCleanup);
    } else {
      TwoOperations(old_.snapshot.Some?, DeleteSnapshot, CleansUp(old_), DeleteSnapshotCleanup, event.id, spec, isCron, jobs);
      assert JobOperations(event, w) == When(old_.snapshot.Some?, DeleteSnapshot) + When(CleansUp(old_), DeleteSnapshotCleanup);
    }
  }

  lemma SnapshotChangeOnJobs(event: Event, isCron: string -> bool, w: World)
    requires OperationsFor(event, w).Some? && event.Updated? && event.id in w.records
    requires event.spec.snapshot.Some? && event.old_.snapshot.Some?
    ensures JobsByAll(JobOperations(event, w), event.id, event.spec, isCron, w.jobs) == JobsAfter(event, true, isCron, w.jobs)
  {
    var drops := !CleansUp(event.spec) && CleansUp(event.old_);
    SnapshotChangeOperations(event, w);
    var snapshotUpdated := SnapshotPropertiesUpdated(event.old_.snapshot.value, event.spec.snapshot.value).value;
    var cleanupUpdated := SnapshotCleanupPropertiesUpdated(event.old_.snapshot.value, event.spec.snapshot.value).value;
    ThreeOperations(drops, snapshotUpdated, cleanupUpdated, event.id, event.spec, isCron, w.jobs);
    SnapshotChangeGives(event, isCron, w.jobs);
  }

  lemma SnapshotChangeOperations(event: Event, w: World)
    requires OperationsFor(event, w).Some? && event.Updated? && event.id in w.records
    requires event.spec.snapshot.Some? && event.old_.snapshot.Some?
    ensures var old_, new_ := event.old_.snapshot.value, event.spec.snapshot.value;
            && SnapshotPropertiesUpdated(old_, new_).Some? && SnapshotCleanupPropertiesUpdated(old_, new_).Some?
            && JobOperations(event, w) ==
               When(!CleansUp(event.spec) && CleansUp(event.old_), DeleteSnapshotCleanup) +
               (When(SnapshotPropertiesUpdated(old_, new_).value, UpdateSnapshot) +
                When(SnapshotCleanupPropertiesUpdated(old_, new_).value, UpdateSnapshotCleanup))
  {
  }

  /** The three operations of a change, one after the other, give the jobs told above. */
  lemma SnapshotChangeGives(event: Event, isCron: string -> bool, jobs: Jobs)
    requires event.Updated? && event.spec.snapshot.Some? && event.old_.snapshot.Some?
    requires SnapshotPropertiesUpdated(event.old_.snapshot.value, event.spec.snapshot.value).Some?
    requires SnapshotCleanupPropertiesUpdated(event.old_.snapshot.value, event.spec.snapshot.value).Some?
    ensures var old_, new_, id, spec := event.old_.snapshot.value, event.spec.snapshot.value, event.id, event.spec;
            var dropped := if !CleansUp(spec) && CleansUp(event.old_) then JobsBy(DeleteSnapshotCleanup, id, spec, isCron, jobs) else jobs;
            var updated := if SnapshotPropertiesUpdated(old_, new_).value then JobsBy(UpdateSnapshot, id, spec, isCron, dropped) else dropped;
            JobsAfter(event, true, isCron, jobs) ==
            if SnapshotCleanupPropertiesUpdated(old_, new_).value then JobsBy(UpdateSnapshotCleanup, id, spec, isCron, updated) else updated
  {
    hide SnapshotJob, CleanupJob, CopyOutcome;
    KeysAreDistinct(event.id, event.id);
  }

  lemma ThreeOperations(drops: bool, snapshotUpdated: bool, cleanupUpdated: bool, id: ClusterId, spec: CassandraSpec, isCron: string -> bool, jobs: Jobs)
    requires snapshotUpdated ==> Applicable(UpdateSnapshot, spec)
    requires cleanupUpdated ==> Applicable(UpdateSnapshotCleanup, spec)
    ensures var ops := When(drops, DeleteSnapshotCleanup) + (When(snapshotUpdated, UpdateSnapshot) + When(cleanupUpdated, UpdateSnapshotCleanup));
            var dropped := if drops then JobsBy(DeleteSnapshotCleanup, id, spec, isCron, jobs) else jobs;
            var updated := if snapshotUpdated then JobsBy(UpdateSnapshot, id, spec, isCron, dropped) else dropped;
            && AllApplicable(ops, spec)
            && JobsByAll(ops, id, spec, isCron, jobs) == if cleanupUpdated then JobsBy(UpdateSnapshotCleanup, id, spec, isCron, updated) else updated
  {
    var first, rest := When(drops, DeleteSnapshotCleanup), When(snapshotUpdated, UpdateSnapshot) + When(cleanupUpdated, UpdateSnapshotCleanup);
    JobsByAtMostOne(drops, DeleteSnapshotCleanup, id, spec, isCron, jobs);
    TwoOperations(snapshotUpdated, UpdateSnapshot, cleanupUpdated, UpdateSnapshotCleanup, id, spec, isCron, JobsByAll(first, id, spec, isCron, jobs));
    JobsByAppended(first, rest, id, spec, isCron, jobs);
  }

  /** The first operation of an event records the cluster, or forgets it. */
  lemma ClusterOperation(event: Event, api: Api, isCron: string -> bool, w: World)
    requires OperationsFor(event, w).Some?
    ensures var ops := OperationsFor(event, w).value;
            && ops != [] && !IsJobOperation(ops[0])
            && (forall op :: op in ops[1..] ==> IsJobOperation(op))
            && (event.Deleted? ==> forall op :: op in ops[1..] ==> Deletes(op))
            && Execute(ops[0], event.id, api, isCron, Context(w, event.spec)) ==
               Context(w.(records := RecordsAfter(event, isCron, w.records)),
                       if event.Deleted? then event.spec else CopyOutcome(event.spec, isCron).definition)
  {
    hide Effective;
  }

  /** Handling an event changes its cluster's two jobs as told above, and no other job. */
  lemma EventOnJobs(event: Event, api: Api, isCron: string -> bool, w: World)
    requires AllSucceed(api) && SelfLabelled(w.jobs) && Received(event, api, isCron, w).Some?
    ensures var after := Received(event, api, isCron, w).value;
            && after.jobs == JobsAfter(event, event.id in w.records, isCron, w.jobs)
            && after.records == RecordsAfter(event, isCron, w.records)
            && SelfLabelled(after.jobs)
  {
    var ops := OperationsFor(event, w).value;
    ClusterOperation(event, api, isCron, w);
    var c := Execute(ops[0], event.id, api, isCron, Context(w, event.spec));
    OperationsOnJobs(ops[1..], event.id, api, isCron, event.spec, c);
    if event.Deleted? {
      DeleteOperationsOnJobs(event, isCron, w);
    } else if event.Updated? && event.id in w.records {
      UpdateOperationsOnJobs(event, isCron, w);
    } else {
      AddOperationsOnJobs(event, isCron, w);
    }
  }
  /**
   * The first valid definition of a cluster, whether it comes as an addition or as an update:
   * the cluster gets its record, and each job exactly if the definition asks for it.
   */
  lemma FirstValidDefinition(event: Event, api: Api, isCron: string -> bool, w: World)
    requires AllSucceed(api) && SelfLabelled(w.jobs) && !event.Deleted? && IsValid(event.spec, isCron)
    requires event.id !in w.records && SnapshotKey(event.id) !in w.jobs && CleanupKey(event.id) !in w.jobs
    ensures var after, id, snapshot := Received(event, api, isCron, w), event.id, event.spec.snapshot;
            && after.Some? && At(after.value.records, id) == Some(Effective(event.spec))
            && At(after.value.jobs, SnapshotKey(id)) ==
               (if snapshot.Some? then Some(SnapshotJob(id, Effective(event.spec).snapshot.value)) else None)
            && At(after.value.jobs, CleanupKey(id)) ==
               (if snapshot.Some? && snapshot.value.retentionPolicy.Some? && snapshot.value.retentionPolicy.value.enabled
                then Some(CleanupJob(id, Effective(event.spec).snapshot.value)) else None)
            && (forall key :: key != SnapshotKey(id) && key != CleanupKey(id) ==> At(after.value.jobs, key) == At(w.jobs, key))
  {
    hide SnapshotJob, CleanupJob, IsValid;
    KeysAreDistinct(event.id, event.id);
    EventOnJobs(event, api, isCron, w);
  }
}
