/** Histories in which what one would expect of the snapshot CronJobs does not happen. */
module SnapshotExamples {
  import opened Wrappers
  import opened ClusterSpec
  import opened SnapshotJobs
  import opened SnapshotEvents
  import opened SnapshotHistory

  /** A small specification, valid if its snapshot is. */
  function SpecWith(snapshot: Option<Snapshot>): CassandraSpec {
    CassandraSpec("", [Rack("a", "", "", 1)], true,
                  Pod("", "", Quantity(0, "0"), Quantity(1, "1"), Quantity(1, "1"), None, None), snapshot)
  }

  lemma SpecIsValidExactlyWhen(snapshot: Option<Snapshot>, isCron: string -> bool)
    ensures IsValid(SpecWith(snapshot), isCron) <==> (snapshot.Some? ==> ProperSnapshot(snapshot.value, isCron))
  {
    ValidExactlyWhen(SpecWith(snapshot), isCron);
  }

  function AddThenUpdate(id: ClusterId, first: Option<Snapshot>, second: Option<Snapshot>): seq<Event> {
    [Added(id, SpecWith(first)), Updated(id, SpecWith(first), SpecWith(second))]
  }

  function AddThenUpdateTwice(id: ClusterId, first: Option<Snapshot>, second: Option<Snapshot>, third: Option<Snapshot>): seq<Event> {
    AddThenUpdate(id, first, second) + [Updated(id, SpecWith(second), SpecWith(third))]
  }

  /** The jobs of the cluster after being added, and after each update. */
  lemma AddedJobs(id: ClusterId, first: Option<Snapshot>, isCron: string -> bool)
    ensures var events := [Added(id, SpecWith(first))];
            && SpecOf(events, id) == Some(SpecWith(first)) && IsHistory(events, isCron)
            && (OnRecord(events, isCron, id) <==> IsValid(SpecWith(first), isCron))
            && SnapshotJobOf(events, isCron, id) == SnapshotJobIfAbsent(id, SpecWith(first), isCron, None)
            && CleanupJobOf(events, isCron, id) == CleanupJobIfAbsent(id, SpecWith(first), isCron, None)
  {
    var events := [Added(id, SpecWith(first))];
    assert Earlier(events) == [] && RecordedSpec(Earlier(events), isCron, id) == None;
    assert IsHistory(Earlier(events), isCron);
  }

  lemma AddThenUpdateJobs(id: ClusterId, first: Option<Snapshot>, second: Option<Snapshot>, isCron: string -> bool)
    requires IsValid(SpecWith(first), isCron)
    ensures var events, update := AddThenUpdate(id, first, second), Updated(id, SpecWith(first), SpecWith(second));
            && Latest(events) == update && Earlier(events) == [Added(id, SpecWith(first))]
            && OnRecord(Earlier(events), isCron, id) && OnRecord(events, isCron, id) && SpecOf(events, id) == Some(SpecWith(second))
            && (IsValid(SpecWith(second), isCron) ==> IsHistory(events, isCron))
            && SnapshotJobOf(events, isCron, id) ==
               NextSnapshotJob(update, true, isCron, SnapshotJobIfAbsent(id, SpecWith(first), isCron, None))
            && CleanupJobOf(events, isCron, id) ==
               NextCleanupJob(update, true, isCron, CleanupJobIfAbsent(id, SpecWith(first), isCron, None))
  {
    hide NextSnapshotJob, NextCleanupJob, SnapshotJobIfAbsent, CleanupJobIfAbsent, SpecWith;
    AddedJobs(id, first, isCron);
    assert Earlier(AddThenUpdate(id, first, second)) == [Added(id, SpecWith(first))];
  }

  /** The operator gets through both events exactly when the snapshots can be compared. */
  lemma AddThenUpdateIsSafe(id: ClusterId, first: Option<Snapshot>, second: Option<Snapshot>, api: Api, isCron: string -> bool)
    requires IsValid(SpecWith(first), isCron)
    ensures AfterEvents(AddThenUpdate(id, first, second), api, isCron).Some? <==>
            Comparable(Updated(id, SpecWith(first), SpecWith(second)))
  {
    var events := AddThenUpdate(id, first, second);
    hide SpecWith;
    AddThenUpdateJobs(id, first, second, isCron);
    PanicFreeExactlyWhen(events, api, isCron);
    assert events[..1] == Earlier(events) && events[..0] == [];
    assert IsSafe(events, isCron, 0) && (IsSafe(events, isCron, 1) <==> Comparable(events[1]));
  }

  /** A cluster whose snapshot has no timeout: the first update, even to the same specification, is a panic. */
  lemma UpdateWithoutTimeoutPanics(id: ClusterId, api: Api, isCron: string -> bool, schedule: string)
    requires schedule != "" && isCron(schedule)
    ensures var snapshot := Some(Snapshot("", schedule, None, None, None));
            && IsHistory(AddThenUpdate(id, snapshot, snapshot), isCron)
            && AfterEvents(AddThenUpdate(id, snapshot, snapshot), api, isCron).None?
  {
    var snapshot := Some(Snapshot("", schedule, None, None, None));
    SpecIsValidExactlyWhen(snapshot, isCron);
    AddThenUpdateJobs(id, snapshot, snapshot, isCron);
    AddThenUpdateIsSafe(id, snapshot, snapshot, api, isCron);
  }

  /** An update that changes only the image of the snapshot leaves the job with the old one. */
  lemma ImageUpdateIsIgnored(id: ClusterId, api: Api, isCron: string -> bool, schedule: string, oldImage: string, newImage: string)
    requires AllSucceed(api) && schedule != "" && isCron(schedule) && oldImage != "" && newImage != "" && oldImage != newImage
    ensures var old_, new_ := Snapshot(oldImage, schedule, None, Some(60), None), Snapshot(newImage, schedule, None, Some(60), None);
            var events := AddThenUpdate(id, Some(old_), Some(new_));
            var after := AfterEvents(events, api, isCron);
            && IsHistory(events, isCron) && after.Some?
            && At(after.value.jobs, SnapshotKey(id)) == Some(SnapshotJob(id, old_)) != Some(SnapshotJob(id, new_))
  {
    var old_, new_ := Snapshot(oldImage, schedule, None, Some(60), None), Snapshot(newImage, schedule, None, Some(60), None);
    var events := AddThenUpdate(id, Some(old_), Some(new_));
    SpecIsValidExactlyWhen(Some(old_), isCron);
    SpecIsValidExactlyWhen(Some(new_), isCron);
    AddThenUpdateJobs(id, Some(old_), Some(new_), isCron);
    AddThenUpdateIsSafe(id, Some(old_), Some(new_), api, isCron);
    EventsReflect(events, api, isCron);
    assert At(AfterEvents(events, api, isCron).value.jobs, SnapshotKey(id)) == SnapshotJobOf(events, isCron, id);
  }

  /** An update that turns retention on leaves the cluster without a cleanup job. */
  lemma RetentionUpdateIsIgnored(id: ClusterId, api: Api, isCron: string -> bool, schedule: string)
    requires AllSucceed(api) && schedule != "" && isCron(schedule)
    ensures var policy := RetentionPolicy(true, Some(7), schedule, Some(60));
            var old_, new_ := Snapshot("", schedule, None, Some(60), None), Snapshot("", schedule, None, Some(60), Some(policy));
            var events := AddThenUpdate(id, Some(old_), Some(new_));
            var after := AfterEvents(events, api, isCron);
            && IsHistory(events, isCron) && after.Some?
            && CleansUp(SpecOf(events, id).value) && CleanupKey(id) !in after.value.jobs
  {
    var policy := RetentionPolicy(true, Some(7), schedule, Some(60));
    var old_, new_ := Snapshot("", schedule, None, Some(60), None), Snapshot("", schedule, None, Some(60), Some(policy));
    var events := AddThenUpdate(id, Some(old_), Some(new_));
    SpecIsValidExactlyWhen(Some(old_), isCron);
    SpecIsValidExactlyWhen(Some(new_), isCron);
    AddThenUpdateJobs(id, Some(old_), Some(new_), isCron);
    AddThenUpdateIsSafe(id, Some(old_), Some(new_), api, isCron);
    TurningRetentionOnAddsNoJob(events, api, isCron, AfterEvents(events, api, isCron).value);
  }

  lemma InvalidAdditionIsForgotten(id: ClusterId, bad: CassandraSpec, isCron: string -> bool)
    requires !IsValid(bad, isCron)
    ensures var events := [Added(id, bad)];
            && IsHistory(events, isCron) && SpecOf(events, id) == Some(bad) && RecordedSpec(events, isCron, id) == None
            && SnapshotJobOf(events, isCron, id) == None && CleanupJobOf(events, isCron, id) == None
  {
    hide SnapshotJob, CleanupJob, IsValid;
    var events := [Added(id, bad)];
    assert Earlier(events) == [] && IsHistory(Earlier(events), isCron);
    assert RecordedSpec(Earlier(events), isCron, id) == None;
    assert SnapshotJobOf(Earlier(events), isCron, id) == None && CleanupJobOf(Earlier(events), isCron, id) == None;
  }

  /** A cluster that is added with an invalid definition gets its record and its jobs with the first valid update. */
  lemma CorrectedDefinitionGetsJobs(id: ClusterId, api: Api, isCron: string -> bool, bad: CassandraSpec, good: CassandraSpec)
    requires AllSucceed(api) && !IsValid(bad, isCron) && IsValid(good, isCron)
    ensures var events := [Added(id, bad), Updated(id, bad, good)];
            var after := AfterEvents(events, api, isCron);
            && IsHistory(events, isCron) && after.Some? && At(after.value.records, id) == Some(Effective(good))
            && At(after.value.jobs, SnapshotKey(id)) ==
               (if good.snapshot.None? then None else Some(SnapshotJob(id, Recorded(good.snapshot.value))))
            && At(after.value.jobs, CleanupKey(id)) ==
               (if CleansUp(good) then Some(CleanupJob(id, Recorded(good.snapshot.value))) else None)
  {
    hide SnapshotJob, CleanupJob, Comparable, IsValid, Effective, Defaulted;
    var events := [Added(id, bad), Updated(id, bad, good)];
    assert Earlier(events) == [Added(id, bad)];
    InvalidAdditionIsForgotten(id, bad, isCron);
    PanicFreeExactlyWhen(events, api, isCron);
    assert events[..1] == Earlier(events) && events[..0] == [] && RecordedSpec([], isCron, id) == None;
    assert IsSafe(events, isCron, 0) && IsSafe(events, isCron, 1);
    EventsReflect(events, api, isCron);
    var w := AfterEvents(events, api, isCron).value;
    RecordsFollowHistory(events, api, isCron, w, id);
    assert At(w.jobs, SnapshotKey(id)) == SnapshotJobOf(events, isCron, id);
    assert At(w.jobs, CleanupKey(id)) == CleanupJobOf(events, isCron, id);
  }

  /** An invalid update of a cluster on record reaches its job: the job gets the schedule that cannot be parsed. */
  lemma InvalidScheduleReachesJob(id: ClusterId, api: Api, isCron: string -> bool, schedule: string, bad: string)
    requires AllSucceed(api) && schedule != "" && isCron(schedule) && !isCron(bad)
    ensures var old_, new_ := Snapshot("", schedule, None, Some(60), None), Snapshot("", bad, None, Some(60), None);
            var events := AddThenUpdate(id, Some(old_), Some(new_));
            var after := AfterEvents(events, api, isCron);
            && after.Some? && At(after.value.records, id) == Some(Effective(SpecWith(Some(old_))))
            && SnapshotKey(id) in after.value.jobs && after.value.jobs[SnapshotKey(id)].schedule == bad
  {
    var old_, new_ := Snapshot("", schedule, None, Some(60), None), Snapshot("", bad, None, Some(60), None);
    var events := AddThenUpdate(id, Some(old_), Some(new_));
    SpecIsValidExactlyWhen(Some(old_), isCron);
    SpecIsValidExactlyWhen(Some(new_), isCron);
    AddThenUpdateJobs(id, Some(old_), Some(new_), isCron);
    AddThenUpdateIsSafe(id, Some(old_), Some(new_), api, isCron);
    EventsReflect(events, api, isCron);
    var w := AfterEvents(events, api, isCron).value;
    RecordsFollowHistory(events, api, isCron, w, id);
    assert At(w.jobs, SnapshotKey(id)) == SnapshotJobOf(events, isCron, id);
  }

  /** A snapshot that is first asked for with a mistake never gets its job, even once the mistake is corrected. */
  lemma CorrectedSnapshotGetsNoJob(id: ClusterId, api: Api, isCron: string -> bool, schedule: string, bad: string)
    requires AllSucceed(api) && schedule != "" && isCron(schedule) && !isCron(bad)
    ensures var wrong, right := Snapshot("", bad, None, Some(60), None), Snapshot("", schedule, None, Some(60), None);
            var events := AddThenUpdateTwice(id, None, Some(wrong), Some(right));
            var after := AfterEvents(events, api, isCron);
            && after.Some? && At(after.value.records, id) == Some(Effective(SpecWith(Some(right))))
            && SnapshotKey(id) !in after.value.jobs
  {
    var wrong, right := Snapshot("", bad, None, Some(60), None), Snapshot("", schedule, None, Some(60), None);
    var events := AddThenUpdateTwice(id, None, Some(wrong), Some(right));
    SpecIsValidExactlyWhen(None, isCron);
    SpecIsValidExactlyWhen(Some(wrong), isCron);
    SpecIsValidExactlyWhen(Some(right), isCron);
    AddThenUpdateJobs(id, None, Some(wrong), isCron);
    AddThenUpdateIsSafe(id, None, Some(wrong), api, isCron);
    assert Earlier(events) == AddThenUpdate(id, None, Some(wrong));
    var before := AfterEvents(Earlier(events), api, isCron).value;
    RecordsFollowHistory(Earlier(events), api, isCron, before, id);
    ComparableMeansNoPanic(Latest(events), before);
    EventsReflect(events, api, isCron);
    var w := AfterEvents(events, api, isCron).value;
    RecordsFollowHistory(events, api, isCron, w, id);
    assert At(w.jobs, SnapshotKey(id)) == SnapshotJobOf(events, isCron, id);
  }
}
