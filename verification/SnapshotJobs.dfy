/**
 * The receiver of cluster events and the operations that keep the snapshot CronJobs of every
 * cluster in step with its specification.
 */
module SnapshotJobs {
  import opened Wrappers
  import opened ClusterSpec
  import opened Durations

  const OPERATOR_LABEL := "sky.uk/cassandra-operator"
  const SNAPSHOT_SUFFIX := "-snapshot"
  const CLEANUP_SUFFIX := "-snapshot-cleanup"

  datatype JobKey = JobKey(namespace: string, name: string)

  /** An argument of a command; durations are printed, which is not modelled further. */
  datatype Argument = Text(text: string) | Duration(nanoseconds: int)

  datatype JobContainer = JobContainer(name: string, image: string, command: seq<Argument>)

  datatype CronJob = CronJob(app: string, schedule: string, container: JobContainer)

  function SnapshotKey(id: ClusterId): JobKey {
    JobKey(id.namespace, id.name + SNAPSHOT_SUFFIX)
  }

  function CleanupKey(id: ClusterId): JobKey {
    JobKey(id.namespace, id.name + CLEANUP_SUFFIX)
  }

  // ---------- The jobs of a specification

  function JoinedByComma(names: seq<string>): string {
    if names == [] then "" else if |names| == 1 then names[0] else names[0] + "," + JoinedByComma(names[1..])
  }

  function CommandFor(action: string, id: ClusterId): seq<Argument> {
    [Text("/cassandra-snapshot"), Text(action), Text("-n"), Text(id.namespace),
     Text("-l"), Text(OPERATOR_LABEL + "=" + id.name + "," + "app=" + id.name)]
  }

  function TimeoutArguments(seconds: Option<int>): seq<Argument> {
    if seconds.None? then [] else [Text("-t"), Duration(DurationSeconds(seconds.value))]
  }

  function KeyspaceArguments(keyspaces: Option<seq<string>>): seq<Argument> {
    if keyspaces.None? || keyspaces.value == [] then [] else [Text("-k"), Text(JoinedByComma(keyspaces.value))]
  }

  function RetentionArguments(days: Option<int>): seq<Argument> {
    if days.None? then [] else [Text("-r"), Duration(DurationDays(days.value))]
  }

  /** `CreateSnapshotContainer`. */
  function SnapshotContainer(id: ClusterId, snapshot: Snapshot): JobContainer {
    JobContainer(SnapshotKey(id).name, snapshot.image,
                 CommandFor("create", id) + TimeoutArguments(snapshot.timeoutSeconds) + KeyspaceArguments(snapshot.keyspaces))
  }

  /** `CreateSnapshotCleanupContainer`. */
  function CleanupContainer(id: ClusterId, snapshot: Snapshot): JobContainer
    requires snapshot.retentionPolicy.Some?
  {
    var policy := snapshot.retentionPolicy.value;
    JobContainer(CleanupKey(id).name, snapshot.image,
                 CommandFor("cleanup", id) + RetentionArguments(policy.retentionPeriodDays) + TimeoutArguments(policy.cleanupTimeoutSeconds))
  }

  /** `CreateSnapshotJob`, from a recorded specification that has a snapshot. */
  function SnapshotJob(id: ClusterId, snapshot: Snapshot): CronJob {
    CronJob(SnapshotKey(id).name, snapshot.schedule, SnapshotContainer(id, snapshot))
  }

  function CleanupJob(id: ClusterId, snapshot: Snapshot): CronJob
    requires snapshot.retentionPolicy.Some?
  {
    CronJob(CleanupKey(id).name, snapshot.retentionPolicy.value.cleanupSchedule, CleanupContainer(id, snapshot))
  }

  /** Both jobs run the snapshot tool on the pods of the cluster, and go by one name: as an object, as a label and as a container. */
  lemma JobsOfCluster(id: ClusterId, snapshot: Snapshot)
    ensures var job, command := SnapshotJob(id, snapshot), SnapshotJob(id, snapshot).container.command;
            && SnapshotKey(id) == JobKey(id.namespace, id.name + "-snapshot")
            && job.app == job.container.name == id.name + "-snapshot"
            && job.schedule == snapshot.schedule && job.container.image == snapshot.image
            && RunsToolOn(command, "create", id)
    ensures snapshot.retentionPolicy.Some? ==>
              var job, command := CleanupJob(id, snapshot), CleanupJob(id, snapshot).container.command;
              && CleanupKey(id) == JobKey(id.namespace, id.name + "-snapshot-cleanup")
              && job.app == job.container.name == id.name + "-snapshot-cleanup"
              && job.schedule == snapshot.retentionPolicy.value.cleanupSchedule && job.container.image == snapshot.image
              && RunsToolOn(command, "cleanup", id)
  {
    assert OPERATOR_LABEL + "=" + id.name + "," + "app=" + id.name == "sky.uk/cassandra-operator=" + id.name + ",app=" + id.name;
  }

  predicate RunsToolOn(command: seq<Argument>, action: string, id: ClusterId) {
    [Text("/cassandra-snapshot"), Text(action), Text("-n"), Text(id.namespace),
     Text("-l"), Text("sky.uk/cassandra-operator=" + id.name + ",app=" + id.name)] <= command
  }

  // ---------- Which operations an event triggers

  datatype Operation =
    | AddCluster
    | DeleteCluster
    | UpdateCluster
    | AddSnapshot
    | AddSnapshotCleanup
    | DeleteSnapshot
    | DeleteSnapshotCleanup
    | UpdateSnapshot
    | UpdateSnapshotCleanup

  function OperationsForAddCluster(spec: CassandraSpec): seq<Operation> {
    if spec.snapshot.None? then [AddCluster]
    else [AddCluster, AddSnapshot] + if spec.snapshot.value.HasRetentionPolicyEnabled() then [AddSnapshotCleanup] else []
  }

  function OperationsForDeleteCluster(spec: CassandraSpec): seq<Operation> {
    if spec.snapshot.None? then [DeleteCluster]
    else [DeleteCluster, DeleteSnapshot] + if spec.snapshot.value.HasRetentionPolicyEnabled() then [DeleteSnapshotCleanup] else []
  }

  /** None is the panic of dereferencing an unset timeout. */
  function SnapshotPropertiesUpdated(old_: Snapshot, new_: Snapshot): Option<bool> {
    if old_.schedule != new_.schedule then Some(true)
    else if old_.timeoutSeconds.None? || new_.timeoutSeconds.None? then None
    else Some(old_.timeoutSeconds.value != new_.timeoutSeconds.value || old_.keyspaces != new_.keyspaces)
  }

  function SnapshotCleanupPropertiesUpdated(old_: Snapshot, new_: Snapshot): Option<bool> {
    if old_.retentionPolicy.None? || new_.retentionPolicy.None? then Some(false)
    else
      var oldPolicy, newPolicy := old_.retentionPolicy.value, new_.retentionPolicy.value;
      if oldPolicy.cleanupSchedule != newPolicy.cleanupSchedule then Some(true)
      else if oldPolicy.cleanupTimeoutSeconds.None? || newPolicy.cleanupTimeoutSeconds.None? then None
      else if oldPolicy.cleanupTimeoutSeconds.value != newPolicy.cleanupTimeoutSeconds.value then Some(true)
      else if oldPolicy.retentionPeriodDays.None? || newPolicy.retentionPeriodDays.None? then None
      else Some(oldPolicy.retentionPeriodDays.value != newPolicy.retentionPeriodDays.value)
  }

  function OperationsForSnapshotChange(old_: Snapshot, new_: Snapshot): Option<seq<Operation>> {
    var snapshotUpdated, cleanupUpdated := SnapshotPropertiesUpdated(old_, new_), SnapshotCleanupPropertiesUpdated(old_, new_);
    if snapshotUpdated.None? || cleanupUpdated.None? then None
    else
      Some((if !new_.HasRetentionPolicyEnabled() && old_.HasRetentionPolicyEnabled() then [DeleteSnapshotCleanup] else [])
           + (if snapshotUpdated.value then [UpdateSnapshot] else [])
           + (if cleanupUpdated.value then [UpdateSnapshotCleanup] else []))
  }

  /** None when comparing the snapshots panics. */
  function OperationsForUpdateCluster(known: bool, old_: CassandraSpec, new_: CassandraSpec): Option<seq<Operation>> {
    if !known then Some(OperationsForAddCluster(new_))
    else if new_.snapshot.None? && old_.snapshot.Some? then
      Some([UpdateCluster, DeleteSnapshot] +
           if old_.snapshot.value.HasRetentionPolicyEnabled() then [DeleteSnapshotCleanup] else [])
    else if new_.snapshot.Some? && old_.snapshot.Some? then
      var changes := OperationsForSnapshotChange(old_.snapshot.value, new_.snapshot.value);
      if changes.None? then None else Some([UpdateCluster] + changes.value)
    else if new_.snapshot.Some? then
      Some([UpdateCluster, AddSnapshot] +
           if new_.snapshot.value.HasRetentionPolicyEnabled() then [AddSnapshotCleanup] else [])
    else Some([UpdateCluster])
  }

  // ---------- What an operation does

  /** The answers of the CronJob API to the n-th operation that calls it. */
  datatype Api = Api(list: nat -> bool, create: nat -> bool, update: nat -> bool, delete: nat -> bool)

  /** `records` holds the specification recorded for each managed cluster. */
  datatype World = World(records: map<ClusterId, CassandraSpec>, jobs: map<JobKey, CronJob>, calls: nat)

  /** The state, and the definition of the event, which operations complete in place. */
  datatype Context = Context(world: World, definition: CassandraSpec)

  function Labelled(jobs: map<JobKey, CronJob>, namespace: string, app: string): set<JobKey> {
    set k | k in jobs && k.namespace == namespace && jobs[k].app == app
  }

  lemma SingletonIsUnique(s: set<JobKey>, a: JobKey, b: JobKey)
    requires |s| == 1 && a in s && b in s
    ensures a == b
  {
    assert |s - {a}| == 0;
    assert s == {a} + (s - {a});
  }

  /** `FindCronJobForCluster`: the job with the label, unless there are several. */
  function FindCronJob(jobs: map<JobKey, CronJob>, namespace: string, app: string): (found: Option<JobKey>)
    ensures found.Some? ==> found.value in jobs
  {
    var keys := Labelled(jobs, namespace, app);
    if |keys| != 1 then None
    else
      assert forall a, b :: a in keys && b in keys ==> a == b by {
        forall a, b | a in keys && b in keys
          ensures a == b
        {
          SingletonIsUnique(keys, a, b);
        }
      }
      assert keys != {};
      var key :| key in keys;
      Some(key)
  }

  function Copy(id: ClusterId, isCron: string -> bool, c: Context): Context {
    var copied := CopyOutcome(c.definition, isCron);
    Context(if copied.error.Some? then c.world else c.world.(records := c.world.records[id := Effective(c.definition)]), copied.definition)
  }

  function Create(key: JobKey, job: CronJob, api: Api, w: World): World {
    w.(jobs := if api.create(w.calls) && key !in w.jobs then w.jobs[key := job] else w.jobs, calls := w.calls + 1)
  }

  function Delete(key: JobKey, api: Api, w: World): World {
    var found := if api.list(w.calls) then FindCronJob(w.jobs, key.namespace, key.name) else None;
    w.(jobs := if found.Some? && api.delete(w.calls) then w.jobs - {found.value} else w.jobs, calls := w.calls + 1)
  }

  function Update(key: JobKey, schedule: string, container: JobContainer, api: Api, w: World): World {
    var found := if api.list(w.calls) then FindCronJob(w.jobs, key.namespace, key.name) else None;
    w.(jobs := if found.Some? && api.update(w.calls)
               then w.jobs[found.value := w.jobs[found.value].(schedule := schedule, container := container)]
               else w.jobs,
       calls := w.calls + 1)
  }

  /** The definition an operation is listed for has what the operation needs. */
  predicate Applicable(op: Operation, spec: CassandraSpec) {
    match op
    case AddSnapshot | UpdateSnapshot => spec.snapshot.Some?
    case AddSnapshotCleanup => spec.snapshot.Some? && spec.snapshot.value.HasRetentionPolicyEnabled()
    case UpdateSnapshotCleanup => spec.snapshot.Some? && spec.snapshot.value.retentionPolicy.Some?
    case _ => true
  }

  function Execute(op: Operation, id: ClusterId, api: Api, isCron: string -> bool, c: Context): (r: Context)
    requires Applicable(op, c.definition)
  {
    var copied := CopyOutcome(c.definition, isCron);
    match op
    case AddCluster => Copy(id, isCron, c)
    case UpdateCluster => Copy(id, isCron, c)
    case DeleteCluster => c.(world := c.world.(records := c.world.records - {id}))
    case AddSnapshot =>
      Context(if copied.error.Some? then c.world
              else Create(SnapshotKey(id), SnapshotJob(id, Effective(c.definition).snapshot.value), api, c.world),
              copied.definition)
    case AddSnapshotCleanup =>
      Context(if copied.error.Some? then c.world
              else Create(CleanupKey(id), CleanupJob(id, Effective(c.definition).snapshot.value), api, c.world),
              copied.definition)
    case DeleteSnapshot => c.(world := Delete(SnapshotKey(id), api, c.world))
    case DeleteSnapshotCleanup => c.(world := Delete(CleanupKey(id), api, c.world))
    case UpdateSnapshot =>
      var snapshot := c.definition.snapshot.value;
      c.(world := Update(SnapshotKey(id), snapshot.schedule, SnapshotContainer(id, snapshot), api, c.world))
    case UpdateSnapshotCleanup =>
      var snapshot := c.definition.snapshot.value;
      c.(world := Update(CleanupKey(id), snapshot.retentionPolicy.value.cleanupSchedule, CleanupContainer(id, snapshot), api, c.world))
  }

  predicate AllApplicable(ops: seq<Operation>, spec: CassandraSpec) {
    forall op :: op in ops ==> Applicable(op, spec)
  }

  /** Completing a definition changes none of the things that operations need. */
  lemma ExecuteKeepsApplicable(op: Operation, ops: seq<Operation>, id: ClusterId, api: Api, isCron: string -> bool, c: Context)
    requires Applicable(op, c.definition) && AllApplicable(ops, c.definition)
    ensures AllApplicable(ops, Execute(op, id, api, isCron, c).definition)
  {
    var after := Execute(op, id, api, isCron, c).definition;
    assert after.snapshot.Some? == c.definition.snapshot.Some?;
    assert after.snapshot.Some? ==> after.snapshot.value.retentionPolicy == c.definition.snapshot.value.retentionPolicy;
    forall o | o in ops
      ensures Applicable(o, after)
    {
      assert Applicable(o, c.definition);
    }
  }

  function ExecuteAll(ops: seq<Operation>, id: ClusterId, api: Api, isCron: string -> bool, c: Context): Context
    requires AllApplicable(ops, c.definition)
  {
    if ops == [] then c
    else
      ExecuteKeepsApplicable(ops[0], ops[1..], id, api, isCron, c);
      ExecuteAll(ops[1..], id, api, isCron, Execute(ops[0], id, api, isCron, c))
  }

  // ---------- The receiver

  datatype Event =
    | Added(id: ClusterId, spec: CassandraSpec)
    | Updated(id: ClusterId, old_: CassandraSpec, spec: CassandraSpec)
    | Deleted(id: ClusterId, spec: CassandraSpec)

  function OperationsFor(event: Event, w: World): (ops: Option<seq<Operation>>)
    ensures ops.Some? ==> AllApplicable(ops.value, event.spec)
  {
    match event
    case Added(_, spec) => Some(OperationsForAddCluster(spec))
    case Deleted(_, spec) => Some(OperationsForDeleteCluster(spec))
    case Updated(id, old_, spec) => OperationsForUpdateCluster(id in w.records, old_, spec)
  }

  /** Handling an event; None when the operator panics. */
  function Received(event: Event, api: Api, isCron: string -> bool, w: World): Option<World> {
    var ops := OperationsFor(event, w);
    if ops.None? then None else Some(ExecuteAll(ops.value, event.id, api, isCron, Context(w, event.spec)).world)
  }

  class Receiver {
    const api: Api
    const isCron: string -> bool
    var records: map<ClusterId, CassandraSpec>
    var jobs: map<JobKey, CronJob>
    var calls: nat

    constructor (api: Api, isCron: string -> bool)
      ensures this.api == api && this.isCron == isCron && State() == World(map[], map[], 0)
    {
      this.api, this.isCron, this.records, this.jobs, this.calls := api, isCron, map[], map[], 0;
    }

    function State(): World
      reads this
    {
      World(records, jobs, calls)
    }

    /** `cluster.New`: a fresh record, completed from the definition. */
    method NewCluster(id: ClusterId, definition: Cassandra) returns (recorded: Option<CassandraSpec>)
      modifies definition`spec
      ensures var copied := CopyOutcome(old(definition.spec), isCron);
              && definition.spec == copied.definition
              && recorded == if copied.error.Some? then None else Some(Effective(old(definition.spec)))
    {
      var record := new Cluster(id.namespace, id.name, definition.spec);
      var error := record.CopyInto(definition, isCron);
      return if error.Some? then None else Some(record.definition);
    }

    method RecordCluster(id: ClusterId, definition: Cassandra)
      modifies this`records, definition`spec
      ensures Context(State(), definition.spec) == Copy(id, isCron, Context(old(State()), old(definition.spec)))
    {
      var recorded := NewCluster(id, definition);
      if recorded.Some? {
        records := records[id := recorded.value];
      }
    }

    method CreateCronJob(key: JobKey, job: CronJob)
      modifies this`jobs, this`calls
      ensures State() == Create(key, job, api, old(State()))
    {
      var n := calls;
      calls := calls + 1;
      if api.create(n) && key !in jobs {
        jobs := jobs[key := job];
      }
    }

    method DeleteCronJob(key: JobKey)
      modifies this`jobs, this`calls
      ensures State() == Delete(key, api, old(State()))
    {
      var n := calls;
      calls := calls + 1;
      if !api.list(n) {
        return;
      }
      var job := FindCronJob(jobs, key.namespace, key.name);
      if job.Some? && api.delete(n) {
        jobs := jobs - {job.value};
      }
    }

    /** `updateSnapshotJob` and `updateSnapshotCleanupJob`: the found job is changed and written back. */
    method UpdateCronJob(key: JobKey, schedule: string, container: JobContainer)
      modifies this`jobs, this`calls
      ensures State() == Update(key, schedule, container, api, old(State()))
    {
      var n := calls;
      calls := calls + 1;
      if !api.list(n) {
        return;
      }
      var found := FindCronJob(jobs, key.namespace, key.name);
      if found.Some? {
        var job := jobs[found.value];
        job := job.(schedule := schedule);
        job := job.(container := container);
        if api.update(n) {
          jobs := jobs[found.value := job];
        }
      }
    }

    method ExecuteOperation(op: Operation, id: ClusterId, definition: Cassandra)
      requires Applicable(op, definition.spec)
      modifies this, definition`spec
      ensures Context(State(), definition.spec) == Execute(op, id, api, isCron, Context(old(State()), old(definition.spec)))
    {
      match op {
        case AddCluster | UpdateCluster => RecordCluster(id, definition);
        case DeleteCluster => records := records - {id};
        case AddSnapshot =>
          var recorded := NewCluster(id, definition);
          if recorded.Some? {
            CreateCronJob(SnapshotKey(id), SnapshotJob(id, recorded.value.snapshot.value));
          }
        case AddSnapshotCleanup =>
          var recorded := NewCluster(id, definition);
          if recorded.Some? {
            CreateCronJob(CleanupKey(id), CleanupJob(id, recorded.value.snapshot.value));
          }
        case DeleteSnapshot => DeleteCronJob(SnapshotKey(id));
        case DeleteSnapshotCleanup => DeleteCronJob(CleanupKey(id));
        case UpdateSnapshot =>
          var snapshot := definition.spec.snapshot.value;
          UpdateCronJob(SnapshotKey(id), snapshot.schedule, SnapshotContainer(id, snapshot));
        case UpdateSnapshotCleanup =>
          var snapshot := definition.spec.snapshot.value;
          UpdateCronJob(CleanupKey(id), snapshot.retentionPolicy.value.cleanupSchedule, CleanupContainer(id, snapshot));
      }
    }

    /** `Receive`: all operations run, whatever becomes of the earlier ones. */
    method Receive(event: Event, definition: Cassandra) returns (panicked: bool)
      requires definition.spec == event.spec
      modifies this, definition`spec
      ensures var after := Received(event, api, isCron, old(State()));
              panicked == after.None? && State() == if after.None? then old(State()) else after.value
    {
      var operations := OperationsFor(event, World(records, jobs, calls));
      if operations.None? {
        return true;
      }
      var ops := operations.value;
      ghost var goal := ExecuteAll(ops, event.id, api, isCron, Context(State(), definition.spec));
      assert ops[0..] == ops;
      for i := 0 to |ops|
        invariant AllApplicable(ops[i..], definition.spec)
        invariant ExecuteAll(ops[i..], event.id, api, isCron, Context(State(), definition.spec)) == goal
      {
        assert ops[i..][0] == ops[i] && ops[i..][1..] == ops[i + 1..];
        ExecuteKeepsApplicable(ops[i], ops[i + 1..], event.id, api, isCron, Context(State(), definition.spec));
        ExecuteOperation(ops[i], event.id, definition);
      }
      assert ops[|ops|..] == [];
      return false;
    }
  }
}
