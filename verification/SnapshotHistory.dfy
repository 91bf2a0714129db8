/**
 * What the snapshot CronJobs are after any sequence of cluster events: a function of the
 * history of specifications alone, in agreement with rebuilding the jobs from the current
 * specification wherever the operator promises it.
 */
module SnapshotHistory {
  import opened Wrappers
  import opened ClusterSpec
  import opened SnapshotJobs
  import opened SnapshotEvents

  // ---------- Histories

  function Earlier(events: seq<Event>): seq<Event>
    requires events != []
  {
    events[..|events| - 1]
  }

  function Latest(events: seq<Event>): Event
    requires events != []
  {
    events[|events| - 1]
  }

  function AfterEvents(events: seq<Event>, api: Api, isCron: string -> bool): Option<World> {
    if events == [] then Some(World(map[], map[], 0))
    else
      var before := AfterEvents(Earlier(events), api, isCron);
      if before.None? then None else Received(Latest(events), api, isCron, before.value)
  }

  /** The specification on record for a cluster: its last valid one. */
  function RecordedSpec(events: seq<Event>, isCron: string -> bool, id: ClusterId): Option<CassandraSpec> {
    if events == [] then None
    else
      var before := RecordedSpec(Earlier(events), isCron, id);
      if Latest(events).id != id then before
      else if Latest(events).Deleted? then None
      else if IsValid(Latest(events).spec, isCron) then Some(Effective(Latest(events).spec))
      else before
  }

  predicate OnRecord(events: seq<Event>, isCron: string -> bool, id: ClusterId) {
    RecordedSpec(events, isCron, id).Some?
  }

  function SnapshotJobOf(events: seq<Event>, isCron: string -> bool, id: ClusterId): Option<CronJob> {
    if events == [] then None
    else
      var before := SnapshotJobOf(Earlier(events), isCron, id);
      if Latest(events).id != id then before
      else NextSnapshotJob(Latest(events), OnRecord(Earlier(events), isCron, id), isCron, before)
  }

  function CleanupJobOf(events: seq<Event>, isCron: string -> bool, id: ClusterId): Option<CronJob> {
    if events == [] then None
    else
      var before := CleanupJobOf(Earlier(events), isCron, id);
      if Latest(events).id != id then before
      else NextCleanupJob(Latest(events), OnRecord(Earlier(events), isCron, id), isCron, before)
  }

  // ---------- The world reflects the history, whatever the events

  lemma {:induction false} JobOperationsKeepRecords(ops: seq<Operation>, id: ClusterId, api: Api, isCron: string -> bool, c: Context)
    requires AllApplicable(ops, c.definition) && forall op :: op in ops ==> IsJobOperation(op)
    ensures ExecuteAll(ops, id, api, isCron, c).world.records == c.world.records
  {
    if ops != [] {
      ExecuteKeepsApplicable(ops[0], ops[1..], id, api, isCron, c);
      JobOperationsKeepRecords(ops[1..], id, api, isCron, Execute(ops[0], id, api, isCron, c));
    }
  }

  lemma EventOnRecords(event: Event, api: Api, isCron: string -> bool, w: World)
    requires Received(event, api, isCron, w).Some?
    ensures Received(event, api, isCron, w).value.records == RecordsAfter(event, isCron, w.records)
  {
    var ops, start := OperationsFor(event, w).value, Context(w, event.spec);
    ClusterOperation(event, api, isCron, w);
    ExecuteKeepsApplicable(ops[0], ops[1..], event.id, api, isCron, start);
    JobOperationsKeepRecords(ops[1..], event.id, api, isCron, Execute(ops[0], event.id, api, isCron, start));
  }

  /** After any events, and whatever the API answers, a cluster's record is its last valid specification. */
  lemma {:induction false} RecordsFollowHistory(events: seq<Event>, api: Api, isCron: string -> bool, w: World, id: ClusterId)
    requires AfterEvents(events, api, isCron) == Some(w)
    ensures At(w.records, id) == RecordedSpec(events, isCron, id)
  {
    if events != [] {
      var before := AfterEvents(Earlier(events), api, isCron).value;
      RecordsFollowHistory(Earlier(events), api, isCron, before, id);
      EventOnRecords(Latest(events), api, isCron, before);
    }
  }

  /** The jobs of the world are those the history tells, for every cluster, and there are no others. */
  ghost predicate Reflects(w: World, events: seq<Event>, isCron: string -> bool) {
    && SelfLabelled(w.jobs)
    && (forall id :: At(w.jobs, SnapshotKey(id)) == SnapshotJobOf(events, isCron, id))
    && (forall id :: At(w.jobs, CleanupKey(id)) == CleanupJobOf(events, isCron, id))
    && (forall k :: k in w.jobs ==> BelongsToCluster(k))
  }

  ghost predicate BelongsToCluster(key: JobKey) {
    exists id :: key == SnapshotKey(id) || key == CleanupKey(id)
  }

  lemma JobsAfterAt(event: Event, known: bool, isCron: string -> bool, jobs: Jobs, id: ClusterId)
    ensures At(JobsAfter(event, known, isCron, jobs), SnapshotKey(id)) ==
            if id == event.id then NextSnapshotJob(event, known, isCron, At(jobs, SnapshotKey(id))) else At(jobs, SnapshotKey(id))
    ensures At(JobsAfter(event, known, isCron, jobs), CleanupKey(id)) ==
            if id == event.id then NextCleanupJob(event, known, isCron, At(jobs, CleanupKey(id))) else At(jobs, CleanupKey(id))
  {
    KeysAreDistinct(id, event.id);
    KeysAreDistinct(event.id, id);
  }

  lemma StepReflects(events: seq<Event>, isCron: string -> bool, w: World, after: World)
    requires events != [] && Reflects(w, Earlier(events), isCron) && SelfLabelled(after.jobs)
    requires after.jobs == JobsAfter(Latest(events), OnRecord(Earlier(events), isCron, Latest(events).id), isCron, w.jobs)
    ensures Reflects(after, events, isCron)
  {
    hide NextSnapshotJob, NextCleanupJob;
    var event := Latest(events);
    var known := OnRecord(Earlier(events), isCron, event.id);
    forall id
      ensures At(after.jobs, SnapshotKey(id)) == SnapshotJobOf(events, isCron, id)
      ensures At(after.jobs, CleanupKey(id)) == CleanupJobOf(events, isCron, id)
    {
      JobsAfterAt(event, known, isCron, w.jobs, id);
      assert At(w.jobs, SnapshotKey(id)) == SnapshotJobOf(Earlier(events), isCron, id);
      assert At(w.jobs, CleanupKey(id)) == CleanupJobOf(Earlier(events), isCron, id);
    }
    assert BelongsToCluster(SnapshotKey(event.id)) && BelongsToCluster(CleanupKey(event.id));
  }

  /** With an API that answers, the jobs after any events at all are a function of the events. */
  lemma {:induction false} EventsReflect(events: seq<Event>, api: Api, isCron: string -> bool)
    requires AllSucceed(api) && AfterEvents(events, api, isCron).Some?
    ensures Reflects(AfterEvents(events, api, isCron).value, events, isCron)
  {
    if events != [] {
      var w := AfterEvents(Earlier(events), api, isCron).value;
      EventsReflect(Earlier(events), api, isCron);
      RecordsFollowHistory(Earlier(events), api, isCron, w, Latest(events).id);
      EventOnJobs(Latest(events), api, isCron, w);
      StepReflects(events, isCron, w, AfterEvents(events, api, isCron).value);
    }
  }

  // ---------- Histories that the operator is made for

  /** The current specification of a cluster. */
  function SpecOf(events: seq<Event>, id: ClusterId): Option<CassandraSpec> {
    if events == [] then None
    else if Latest(events).id != id then SpecOf(Earlier(events), id)
    else if Latest(events).Deleted? then None
    else Some(Latest(events).spec)
  }

  /**
   * Clusters are added when they do not exist, and updated or deleted when they do; an event
   * carries the specification the previous one left, whether or not already completed with
   * defaults. Specifications may be invalid until the cluster is on record.
   */
  ghost predicate IsHistory(events: seq<Event>, isCron: string -> bool) {
    events == [] ||
    (&& IsHistory(Earlier(events), isCron)
     && Follows(Latest(events), SpecOf(Earlier(events), Latest(events).id))
     && (Latest(events).Updated? && OnRecord(Earlier(events), isCron, Latest(events).id) ==> IsValid(Latest(events).spec, isCron)))
  }

  predicate Follows(event: Event, current: Option<CassandraSpec>) {
    match event
    case Added(_, spec) => current.None?
    case Updated(_, old_, spec) => current.Some? && Defaulted(old_) == Defaulted(current.value)
    case Deleted(_, spec) => current.Some? && Defaulted(spec) == Defaulted(current.value)
  }

  /** A cluster on record has its current specification there. */
  lemma {:induction false} RecordIsCurrent(events: seq<Event>, isCron: string -> bool, id: ClusterId)
    requires IsHistory(events, isCron)
    ensures OnRecord(events, isCron, id) ==>
              SpecOf(events, id).Some? && RecordedSpec(events, isCron, id) == Some(Effective(SpecOf(events, id).value))
  {
    if events != [] {
      RecordIsCurrent(Earlier(events), isCron, id);
    }
  }

  /** The cluster has been on record with retention enabled ever since it last got its snapshot. */
  predicate RetentionHeldThroughout(events: seq<Event>, isCron: string -> bool, id: ClusterId) {
    if events == [] then false
    else if Latest(events).id != id then RetentionHeldThroughout(Earlier(events), isCron, id)
    else
      && !Latest(events).Deleted? && IsValid(Latest(events).spec, isCron) && CleansUp(Latest(events).spec)
      && (Latest(events).Updated? && OnRecord(Earlier(events), isCron, id) && Latest(events).old_.snapshot.Some? ==>
            RetentionHeldThroughout(Earlier(events), isCron, id))
  }

  /** Everything but the image, which comparing snapshots leaves out. */
  predicate SameExceptImage(a: CronJob, b: CronJob) {
    a == b.(container := b.container.(image := a.container.image))
  }

  predicate IsSnapshotJobFor(job: Option<CronJob>, id: ClusterId, spec: Option<CassandraSpec>) {
    && (job.Some? <==> spec.Some? && spec.value.snapshot.Some?)
    && (job.Some? ==> SameExceptImage(job.value, SnapshotJob(id, Recorded(spec.value.snapshot.value))))
  }

  /** If there is a cleanup job then it is the one of the specification, apart from the image. */
  predicate IsCleanupJobFor(job: Option<CronJob>, id: ClusterId, spec: Option<CassandraSpec>) {
    job.Some? ==>
      spec.Some? && CleansUp(spec.value) && SameExceptImage(job.value, CleanupJob(id, Recorded(spec.value.snapshot.value)))
  }

  lemma EqualSnapshotsGiveEqualJobs(id: ClusterId, old_: Snapshot, new_: Snapshot)
    requires SnapshotPropertiesUpdated(old_, new_) == Some(false)
    ensures SameExceptImage(SnapshotJob(id, Recorded(old_)), SnapshotJob(id, Recorded(new_)))
  {
  }

  lemma EqualPoliciesGiveEqualJobs(id: ClusterId, old_: Snapshot, new_: Snapshot)
    requires old_.retentionPolicy.Some? && new_.retentionPolicy.Some?
    requires SnapshotCleanupPropertiesUpdated(old_, new_) == Some(false)
    ensures SameExceptImage(CleanupJob(id, Recorded(old_)), CleanupJob(id, Recorded(new_)))
  {
  }

  /** The timeouts that comparing the snapshots looks at: both, unless the schedules differ already. */
  predicate SnapshotsComparable(old_: Snapshot, new_: Snapshot) {
    old_.schedule != new_.schedule || (old_.timeoutSeconds.Some? && new_.timeoutSeconds.Some?)
  }

  /** Likewise for the policies: first the timeouts, and the days of retention only if these are equal. */
  predicate PoliciesComparable(old_: RetentionPolicy, new_: RetentionPolicy) {
    || old_.cleanupSchedule != new_.cleanupSchedule
    || (&& old_.cleanupTimeoutSeconds.Some? && new_.cleanupTimeoutSeconds.Some?
        && (old_.cleanupTimeoutSeconds != new_.cleanupTimeoutSeconds ||
            (old_.retentionPeriodDays.Some? && new_.retentionPeriodDays.Some?)))
  }

  /** Everything the comparisons of an update look at is set. */
  predicate Comparable(event: Event) {
    event.Updated? && event.old_.snapshot.Some? && event.spec.snapshot.Some? ==>
      var old_, new_ := event.old_.snapshot.value, event.spec.snapshot.value;
      && SnapshotsComparable(old_, new_)
      && (old_.retentionPolicy.Some? && new_.retentionPolicy.Some? ==>
            PoliciesComparable(old_.retentionPolicy.value, new_.retentionPolicy.value))
  }

  lemma ComparableMeansNoPanic(event: Event, w: World)
    ensures OperationsFor(event, w).None? <==> event.Updated? && event.id in w.records && !Comparable(event)
  {
  }

  /**
   * Whatever the events and the answers of the API, the operator gets through without a panic
   * exactly when every update of a cluster on record sets what comparing the snapshots looks at.
   */
  lemma {:induction false} PanicFreeExactlyWhen(events: seq<Event>, api: Api, isCron: string -> bool)
    ensures AfterEvents(events, api, isCron).Some? <==> forall k :: 0 <= k < |events| ==> IsSafe(events, isCron, k)
  {
    if events != [] {
      var n, before := |events| - 1, AfterEvents(Earlier(events), api, isCron);
      PanicFreeExactlyWhen(Earlier(events), api, isCron);
      forall k | 0 <= k < n
        ensures IsSafe(Earlier(events), isCron, k) <==> IsSafe(events, isCron, k)
      {
        assert Earlier(events)[..k] == events[..k] && Earlier(events)[k] == events[k];
      }
      assert events[..n] == Earlier(events) && events[n] == Latest(events);
      if before.None? {
        var k :| 0 <= k < n && !IsSafe(Earlier(events), isCron, k);
        assert !IsSafe(events, isCron, k);
      } else {
        RecordsFollowHistory(Earlier(events), api, isCron, before.value, Latest(events).id);
        ComparableMeansNoPanic(Latest(events), before.value);
        assert IsSafe(events, isCron, n) <==> AfterEvents(events, api, isCron).Some?;
        assert forall k :: 0 <= k < n ==> IsSafe(Earlier(events), isCron, k);
      }
    }
  }

  predicate IsSafe(events: seq<Event>, isCron: string -> bool, k: nat)
    requires k < |events|
  {
    OnRecord(events[..k], isCron, events[k].id) ==> Comparable(events[k])
  }

  lemma LatestIsSafe(events: seq<Event>, isCron: string -> bool)
    requires events != [] && forall k :: 0 <= k < |events| ==> IsSafe(events, isCron, k)
    ensures OnRecord(Earlier(events), isCron, Latest(events).id) ==> Comparable(Latest(events))
    ensures forall k :: 0 <= k < |Earlier(events)| ==> IsSafe(Earlier(events), isCron, k)
  {
    assert IsSafe(events, isCron, |events| - 1);
    forall k | 0 <= k < |Earlier(events)|
      ensures IsSafe(Earlier(events), isCron, k)
    {
      assert IsSafe(events, isCron, k) && Earlier(events)[..k] == events[..k];
    }
  }

  // ---------- What the jobs are in such histories

  /** An update of a cluster on record, from the job of its specification to that of the new one. */
  lemma UpdatedJobsFit(event: Event, current: CassandraSpec, isCron: string -> bool, snapshot: Option<CronJob>, cleanup: Option<CronJob>)
    requires event.Updated? && Follows(event, Some(current)) && IsValid(event.spec, isCron) && Comparable(event)
    requires IsSnapshotJobFor(snapshot, event.id, Some(current)) && IsCleanupJobFor(cleanup, event.id, Some(current))
    ensures IsSnapshotJobFor(NextSnapshotJob(event, true, isCron, snapshot), event.id, Some(event.spec))
    ensures IsCleanupJobFor(NextCleanupJob(event, true, isCron, cleanup), event.id, Some(event.spec))
    ensures NextCleanupJob(event, true, isCron, cleanup).Some? <==>
            CleansUp(event.spec) && (event.old_.snapshot.Some? ==> cleanup.Some?)
  {
    SameSnapshotExceptImage(event.old_, current);
    if event.spec.snapshot.Some? && current.snapshot.Some? {
      var old_, new_ := event.old_.snapshot.value, event.spec.snapshot.value;
      assert Completed(event.spec, isCron) == Recorded(new_);
      if SnapshotPropertiesUpdated(old_, new_) == Some(false) {
        EqualSnapshotsGiveEqualJobs(event.id, old_, new_);
      }
      if CleansUp(event.spec) && CleansUp(current) && SnapshotCleanupPropertiesUpdated(old_, new_) == Some(false) {
        EqualPoliciesGiveEqualJobs(event.id, old_, new_);
      }
    }
  }

  lemma SameSnapshotExceptImage(a: CassandraSpec, b: CassandraSpec)
    requires Defaulted(a) == Defaulted(b)
    ensures a.snapshot.Some? == b.snapshot.Some? && CleansUp(a) == CleansUp(b)
    ensures a.snapshot.Some? ==> a.snapshot.value == b.snapshot.value.(image := a.snapshot.value.image)
  {
    if a.snapshot.Some? {
      assert Defaulted(a).snapshot == Some(Recorded(a.snapshot.value)) && Defaulted(b).snapshot == Some(Recorded(b.snapshot.value));
    }
  }

  /** The specification a cluster on record has. */
  function CurrentSpec(events: seq<Event>, isCron: string -> bool, id: ClusterId): Option<CassandraSpec> {
    if OnRecord(events, isCron, id) then SpecOf(events, id) else None
  }

  lemma {:induction false} JobsFit(events: seq<Event>, isCron: string -> bool, id: ClusterId)
    requires IsHistory(events, isCron) && forall k :: 0 <= k < |events| ==> IsSafe(events, isCron, k)
    ensures IsSnapshotJobFor(SnapshotJobOf(events, isCron, id), id, CurrentSpec(events, isCron, id))
    ensures IsCleanupJobFor(CleanupJobOf(events, isCron, id), id, CurrentSpec(events, isCron, id))
    ensures CleanupJobOf(events, isCron, id).Some? <==> RetentionHeldThroughout(events, isCron, id)
  {
    if events != [] {
      LatestIsSafe(events, isCron);
      JobsFit(Earlier(events), isCron, id);
      RecordIsCurrent(Earlier(events), isCron, id);
      if Latest(events).id == id {
        LatestJobsFit(events, isCron);
      }
    }
  }

  lemma LatestJobsFit(events: seq<Event>, isCron: string -> bool)
    requires events != [] && IsHistory(events, isCron)
    requires OnRecord(Earlier(events), isCron, Latest(events).id) ==> Comparable(Latest(events))
    requires var id, earlier := Latest(events).id, Earlier(events);
             && (OnRecord(earlier, isCron, id) ==> SpecOf(earlier, id).Some?)
             && IsSnapshotJobFor(SnapshotJobOf(earlier, isCron, id), id, CurrentSpec(earlier, isCron, id))
             && IsCleanupJobFor(CleanupJobOf(earlier, isCron, id), id, CurrentSpec(earlier, isCron, id))
             && (CleanupJobOf(earlier, isCron, id).Some? <==> RetentionHeldThroughout(earlier, isCron, id))
    ensures var id := Latest(events).id;
            && IsSnapshotJobFor(SnapshotJobOf(events, isCron, id), id, CurrentSpec(events, isCron, id))
            && IsCleanupJobFor(CleanupJobOf(events, isCron, id), id, CurrentSpec(events, isCron, id))
            && (CleanupJobOf(events, isCron, id).Some? <==> RetentionHeldThroughout(events, isCron, id))
  {
    var event, earlier := Latest(events), Earlier(events);
    var known := OnRecord(earlier, isCron, event.id);
    if event.Updated? && known {
      UpdatedJobsFit(event, SpecOf(earlier, event.id).value, isCron, SnapshotJobOf(earlier, isCron, event.id), CleanupJobOf(earlier, isCron, event.id));
    } else if event.Deleted? && known {
      SameSnapshotExceptImage(event.spec, SpecOf(earlier, event.id).value);
    }
  }

  // ---------- The main results

  /**
   * After any events, a cluster on record has a snapshot job exactly when its specification
   * asks for one, with the schedule and command of the current specification; and a cluster
   * that is not on record has none.
   */
  lemma SnapshotJobFollowsSpec(events: seq<Event>, api: Api, isCron: string -> bool, id: ClusterId, w: World)
    requires AllSucceed(api) && IsHistory(events, isCron) && AfterEvents(events, api, isCron) == Some(w)
    ensures IsSnapshotJobFor(At(w.jobs, SnapshotKey(id)), id, CurrentSpec(events, isCron, id))
    ensures id in w.records <==> CurrentSpec(events, isCron, id).Some?
  {
    PanicFreeExactlyWhen(events, api, isCron);
    EventsReflect(events, api, isCron);
    JobsFit(events, isCron, id);
    RecordsFollowHistory(events, api, isCron, w, id);
    RecordIsCurrent(events, isCron, id);
    assert At(w.jobs, SnapshotKey(id)) == SnapshotJobOf(events, isCron, id);
  }

  /**
   * A cleanup job is never orphaned and never stale. It exists exactly when retention has
   * been enabled in every specification since the cluster last got its snapshot.
   */
  lemma CleanupJobFollowsSpec(events: seq<Event>, api: Api, isCron: string -> bool, id: ClusterId, w: World)
    requires AllSucceed(api) && IsHistory(events, isCron) && AfterEvents(events, api, isCron) == Some(w)
    ensures var job := At(w.jobs, CleanupKey(id));
            && IsCleanupJobFor(job, id, CurrentSpec(events, isCron, id))
            && (job.Some? <==> RetentionHeldThroughout(events, isCron, id))
  {
    PanicFreeExactlyWhen(events, api, isCron);
    EventsReflect(events, api, isCron);
    JobsFit(events, isCron, id);
    assert At(w.jobs, CleanupKey(id)) == CleanupJobOf(events, isCron, id);
  }

  /** Every job there is belongs to a cluster on record that currently has a snapshot. */
  lemma NoJobIsLeftBehind(events: seq<Event>, api: Api, isCron: string -> bool, key: JobKey, w: World)
    requires AllSucceed(api) && IsHistory(events, isCron) && AfterEvents(events, api, isCron) == Some(w)
    requires key in w.jobs
    ensures exists id :: (key == SnapshotKey(id) || key == CleanupKey(id)) && id in w.records &&
                         SpecOf(events, id).Some? && SpecOf(events, id).value.snapshot.Some?
  {
    EventsReflect(events, api, isCron);
    assert BelongsToCluster(key);
    var id :| key == SnapshotKey(id) || key == CleanupKey(id);
    SnapshotJobFollowsSpec(events, api, isCron, id, w);
    CleanupJobFollowsSpec(events, api, isCron, id, w);
  }

  /** Turning retention on for a snapshot that exists adds no cleanup job. */
  lemma TurningRetentionOnAddsNoJob(events: seq<Event>, api: Api, isCron: string -> bool, w: World)
    requires AllSucceed(api) && IsHistory(events, isCron) && AfterEvents(events, api, isCron) == Some(w)
    requires events != [] && Latest(events).Updated? && OnRecord(Earlier(events), isCron, Latest(events).id)
    requires Latest(events).old_.snapshot.Some? && !CleansUp(Latest(events).old_)
    ensures CleanupKey(Latest(events).id) !in w.jobs
  {
    var id := Latest(events).id;
    SameSnapshotExceptImage(Latest(events).old_, SpecOf(Earlier(events), id).value);
    CleanupJobFollowsSpec(Earlier(events), api, isCron, id, AfterEvents(Earlier(events), api, isCron).value);
    CleanupJobFollowsSpec(events, api, isCron, id, w);
  }

  /**
   * An update leaves the snapshot job a rebuild would give exactly when it rebuilt the job
   * or the image stayed the same, because comparing snapshots leaves the image out.
   */
  lemma UpdateEqualsRebuild(events: seq<Event>, api: Api, isCron: string -> bool, w: World)
    requires AllSucceed(api) && IsHistory(events, isCron) && AfterEvents(events, api, isCron) == Some(w)
    requires events != [] && Latest(events).Updated? && OnRecord(Earlier(events), isCron, Latest(events).id)
    requires Latest(events).old_.snapshot.Some? && Latest(events).spec.snapshot.Some?
    requires var e := Latest(events);
             SnapshotJobOf(Earlier(events), isCron, e.id) == Some(SnapshotJob(e.id, Recorded(e.old_.snapshot.value)))
    ensures var e := Latest(events);
            At(w.jobs, SnapshotKey(e.id)) == Some(SnapshotJob(e.id, Recorded(e.spec.snapshot.value))) <==>
            SnapshotPropertiesUpdated(e.old_.snapshot.value, e.spec.snapshot.value) == Some(true) ||
            Recorded(e.old_.snapshot.value).image == Recorded(e.spec.snapshot.value).image
  {
    var e := Latest(events);
    SnapshotJobFollowsSpec(events, api, isCron, e.id, w);
    EventsReflect(events, api, isCron);
    assert At(w.jobs, SnapshotKey(e.id)) == SnapshotJobOf(events, isCron, e.id);
    assert Completed(e.spec, isCron) == Recorded(e.spec.snapshot.value);
  }

  /**
   * Likewise for the cleanup job, while retention stays enabled: an update leaves the job a
   * rebuild would give exactly when it rebuilt the job or the image stayed the same.
   */
  lemma CleanupUpdateEqualsRebuild(events: seq<Event>, api: Api, isCron: string -> bool, w: World)
    requires AllSucceed(api) && IsHistory(events, isCron) && AfterEvents(events, api, isCron) == Some(w)
    requires events != [] && Latest(events).Updated? && OnRecord(Earlier(events), isCron, Latest(events).id)
    requires CleansUp(Latest(events).old_) && CleansUp(Latest(events).spec)
    requires var e := Latest(events);
             CleanupJobOf(Earlier(events), isCron, e.id) == Some(CleanupJob(e.id, Recorded(e.old_.snapshot.value)))
    ensures var e := Latest(events);
            At(w.jobs, CleanupKey(e.id)) == Some(CleanupJob(e.id, Recorded(e.spec.snapshot.value))) <==>
            SnapshotCleanupPropertiesUpdated(e.old_.snapshot.value, e.spec.snapshot.value) == Some(true) ||
            Recorded(e.old_.snapshot.value).image == Recorded(e.spec.snapshot.value).image
  {
    var e := Latest(events);
    CleanupJobFollowsSpec(events, api, isCron, e.id, w);
    EventsReflect(events, api, isCron);
    assert At(w.jobs, CleanupKey(e.id)) == CleanupJobOf(events, isCron, e.id);
    assert Completed(e.spec, isCron) == Recorded(e.spec.snapshot.value);
  }

  /**
   * An invalid update of a cluster on record leaves the record alone, but still carries out
   * the operations on the jobs. A snapshot job that was right for the old definition stays as
   * it is exactly when the snapshot neither goes nor differs in a way that shows in the job.
   */
  lemma InvalidUpdateKeepsJobExactlyWhen(event: Event, api: Api, isCron: string -> bool, w: World)
    requires AllSucceed(api) && SelfLabelled(w.jobs) && event.Updated? && event.id in w.records
    requires !IsValid(event.spec, isCron) && Comparable(event)
    requires At(w.jobs, SnapshotKey(event.id)) ==
             if event.old_.snapshot.None? then None else Some(SnapshotJob(event.id, Recorded(event.old_.snapshot.value)))
    ensures var after := Received(event, api, isCron, w);
            && after.Some? && after.value.records == w.records
            && (At(after.value.jobs, SnapshotKey(event.id)) == At(w.jobs, SnapshotKey(event.id)) <==>
                event.old_.snapshot.None? ||
                (event.spec.snapshot.Some? &&
                 (SnapshotPropertiesUpdated(event.old_.snapshot.value, event.spec.snapshot.value) == Some(false) ||
                  SnapshotJob(event.id, Completed(event.spec, isCron)) == w.jobs[SnapshotKey(event.id)])))
  {
    hide SnapshotJob, CleanupJob, Comparable, IsValid, NextCleanupJob;
    ComparableMeansNoPanic(event, w);
    EventOnJobs(event, api, isCron, w);
    JobsAfterAt(event, true, isCron, w.jobs, event.id);
  }

  /** All durations that comparisons look at are set. */
  predicate TimeoutsAreSet(spec: CassandraSpec) {
    spec.snapshot.Some? ==>
      && spec.snapshot.value.timeoutSeconds.Some?
      && (spec.snapshot.value.retentionPolicy.Some? ==>
            && spec.snapshot.value.retentionPolicy.value.cleanupTimeoutSeconds.Some?
            && spec.snapshot.value.retentionPolicy.value.retentionPeriodDays.Some?)
  }

  /** Events whose specifications have their timeouts set never make the operator panic. */
  lemma {:induction false} NoPanicWithTimeouts(events: seq<Event>, api: Api, isCron: string -> bool)
    requires forall e :: e in events ==> TimeoutsAreSet(e.spec) && (e.Updated? ==> TimeoutsAreSet(e.old_))
    ensures AfterEvents(events, api, isCron).Some?
  {
    if events != [] {
      NoPanicWithTimeouts(Earlier(events), api, isCron);
      assert Latest(events) in events;
    }
  }

  /** Without a timeout, even an update that leaves the snapshot as it is makes the operator panic. */
  lemma UnchangedSnapshotPanicsExactlyWhen(event: Event, api: Api, isCron: string -> bool, w: World)
    requires event.Updated? && event.id in w.records && event.spec.snapshot == event.old_.snapshot
    ensures Received(event, api, isCron, w).None? <==> !TimeoutsAreSet(event.spec)
  {
  }

  // ---------- Other clusters, whatever the API answers

  lemma OperationLeavesOthersAlone(op: Operation, id: ClusterId, api: Api, isCron: string -> bool, c: Context, key: JobKey)
    requires Applicable(op, c.definition) && SelfLabelled(c.world.jobs) && key != SnapshotKey(id) && key != CleanupKey(id)
    ensures var after := Execute(op, id, api, isCron, c).world;
            At(after.jobs, key) == At(c.world.jobs, key) && SelfLabelled(after.jobs)
  {
    FindsByName(c.world.jobs, SnapshotKey(id));
    FindsByName(c.world.jobs, CleanupKey(id));
  }

  lemma {:induction false} OperationsLeaveOthersAlone(ops: seq<Operation>, id: ClusterId, api: Api, isCron: string -> bool, c: Context, key: JobKey)
    requires AllApplicable(ops, c.definition) && SelfLabelled(c.world.jobs) && key != SnapshotKey(id) && key != CleanupKey(id)
    ensures var after := ExecuteAll(ops, id, api, isCron, c).world;
            At(after.jobs, key) == At(c.world.jobs, key) && SelfLabelled(after.jobs)
  {
    if ops != [] {
      OperationLeavesOthersAlone(ops[0], id, api, isCron, c, key);
      ExecuteKeepsApplicable(ops[0], ops[1..], id, api, isCron, c);
      OperationsLeaveOthersAlone(ops[1..], id, api, isCron, Execute(ops[0], id, api, isCron, c), key);
    }
  }

  function JobEventsOf(events: seq<Event>, id: ClusterId): seq<Event> {
    if events == [] then []
    else JobEventsOf(Earlier(events), id) + if Latest(events).id == id then [Latest(events)] else []
  }

  /** Even when calls fail and specifications are invalid, only a cluster's own events touch its jobs. */
  lemma {:induction false} ForeignEventsChangeNothing(events: seq<Event>, api: Api, isCron: string -> bool, id: ClusterId)
    requires AfterEvents(events, api, isCron).Some?
    ensures var w := AfterEvents(events, api, isCron).value;
            && SelfLabelled(w.jobs)
            && (JobEventsOf(events, id) == [] ==> At(w.jobs, SnapshotKey(id)).None? && At(w.jobs, CleanupKey(id)).None?)
  {
    if events != [] {
      var event := Latest(events);
      var w := AfterEvents(Earlier(events), api, isCron).value;
      ForeignEventsChangeNothing(Earlier(events), api, isCron, id);
      KeysAreDistinct(id, event.id);
      KeysAreDistinct(event.id, id);
      var ops := OperationsFor(event, w).value;
      var other := JobKey("", "");
      assert other.name[..0] == "" && SnapshotKey(event.id).name != "" && CleanupKey(event.id).name != "";
      OperationsLeaveOthersAlone(ops, event.id, api, isCron, Context(w, event.spec), other);
      if event.id != id {
        OperationsLeaveOthersAlone(ops, event.id, api, isCron, Context(w, event.spec), SnapshotKey(id));
        OperationsLeaveOthersAlone(ops, event.id, api, isCron, Context(w, event.spec), CleanupKey(id));
      }
    }
  }
}
