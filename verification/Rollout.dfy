/**
 * Carrying out changes rack by rack: each write to a StatefulSet is followed by polling
 * until the change has been rolled out, and the first failure ends the operation. The
 * answers of the Kubernetes API are arbitrary; a wait whose polls run out before the change
 * is rolled out is an operation that has not returned yet.
 */
module Rollout {
  import opened Wrappers
  import opened Sequences
  import opened ClusterSpec
  import opened StatefulSets
  import opened Adjuster

  datatype Status = Status(
    observedGeneration: Option<int>,
    updateRevision: string,
    currentRevision: string,
    readyReplicas: int,
    replicas: int)

  datatype PollReply = PollError | Observed(status: Status)

  /** `statefulSetChangeApplied`. */
  predicate ChangeApplied(status: Status, generation: int) {
    && status.observedGeneration.Some? && status.observedGeneration.value >= generation
    && status.updateRevision == status.currentRevision
    && status.readyReplicas == status.replicas
  }

  /** A step of an operation: create a set, patch it blindly, fetch and update it, or an unsupported change. */
  datatype Request =
    | CreateSet(name: string, set_: StatefulSet)
    | PatchSet(name: string, change: Change)
    | UpdateSet(name: string, change: Change)
    | UnsupportedChange(name: string)

  /** How the API answers the n-th request, and what the polls after it see. */
  datatype Api = Api(
    getSucceeds: nat -> bool,
    writeSucceeds: nat -> bool,
    generation: nat -> int,
    polls: nat -> seq<PollReply>)

  datatype Entry =
    | Wrote(name: string, generation: int, created: bool)
    | Refused(name: string)
    | Polled(name: string, status: Status)
    | PollFailed(name: string)
    | Unsupported(name: string)

  datatype World = World(sets: map<string, StatefulSet>, log: seq<Entry>, calls: nat)

  datatype WaitOutcome = Applied | Failed | StillWaiting

  datatype Verdict = Continue | Stop | Hang

  /** `tried` requests were attempted, the first `applied` of them with effect. */
  datatype Outcome = Outcome(world: World, verdict: Verdict, tried: nat, applied: nat)

  // ---------- One request

  function WaitResult(polls: seq<PollReply>, generation: int): WaitOutcome {
    if polls == [] then StillWaiting
    else if polls[0].PollError? then Failed
    else if ChangeApplied(polls[0].status, generation) then Applied
    else WaitResult(polls[1..], generation)
  }

  function WaitLog(name: string, polls: seq<PollReply>, generation: int): seq<Entry> {
    if polls == [] then []
    else if polls[0].PollError? then [PollFailed(name)]
    else if ChangeApplied(polls[0].status, generation) then [Polled(name, polls[0].status)]
    else [Polled(name, polls[0].status)] + WaitLog(name, polls[1..], generation)
  }

  /** Creating needs a free name; patching and updating need an existing set. */
  predicate Accepts(api: Api, n: nat, request: Request, sets: map<string, StatefulSet>) {
    match request
    case CreateSet(name, _) => api.writeSucceeds(n) && name !in sets
    case PatchSet(name, _) => api.writeSucceeds(n) && name in sets
    case UpdateSet(name, _) => api.getSucceeds(n) && name in sets && api.writeSucceeds(n)
    case UnsupportedChange(_) => true
  }

  function Effect(cluster: string, request: Request, sets: map<string, StatefulSet>): map<string, StatefulSet> {
    match request
    case CreateSet(name, set_) => sets[name := set_]
    case PatchSet(name, change) => if name in sets then sets[name := ApplyChange(cluster, change, sets[name])] else sets
    case UpdateSet(name, change) => if name in sets then sets[name := ApplyChange(cluster, change, sets[name])] else sets
    case UnsupportedChange(_) => sets
  }

  /** A failed wait is only logged after a creation; anywhere else it ends the operation. */
  function AfterWait(request: Request, outcome: WaitOutcome): Verdict {
    match outcome
    case Applied => Continue
    case Failed => if request.CreateSet? then Continue else Stop
    case StillWaiting => Hang
  }

  function Attempt(cluster: string, api: Api, request: Request, w: World): Outcome {
    var n := w.calls;
    if request.UnsupportedChange? then Outcome(w.(log := w.log + [Unsupported(request.name)]), Continue, 1, 1)
    else if !Accepts(api, n, request, w.sets) then
      Outcome(World(w.sets, w.log + [Refused(request.name)], n + 1), Stop, 1, 0)
    else
      var generation := api.generation(n);
      Outcome(World(Effect(cluster, request, w.sets),
                    w.log + [Wrote(request.name, generation, request.CreateSet?)] + WaitLog(request.name, api.polls(n), generation),
                    n + 1),
              AfterWait(request, WaitResult(api.polls(n), generation)), 1, 1)
  }

  // ---------- A list of requests

  function Run(cluster: string, api: Api, requests: seq<Request>, w: World): Outcome {
    if requests == [] then Outcome(w, Continue, 0, 0)
    else
      var first := Attempt(cluster, api, requests[0], w);
      if !first.verdict.Continue? then first
      else
        var rest := Run(cluster, api, requests[1..], first.world);
        Outcome(rest.world, rest.verdict, rest.tried + 1, rest.applied + 1)
  }

  function EffectOfAll(cluster: string, requests: seq<Request>, sets: map<string, StatefulSet>): map<string, StatefulSet> {
    if requests == [] then sets
    else EffectOfAll(cluster, requests[1..], Effect(cluster, requests[0], sets))
  }

  /** The requests an update of the cluster's specification amounts to. */
  function UpdateRequests(cluster: string, definition: CassandraSpec, changes: seq<ClusterChange>,
                          configMapFor: string -> Option<ConfigMap>): seq<Request>
    requires HasProbes(definition)
  {
    if changes == [] then []
    else [UpdateRequest(cluster, definition, changes[0], configMapFor)]
         + UpdateRequests(cluster, definition, changes[1..], configMapFor)
  }

  function UpdateRequest(cluster: string, definition: CassandraSpec, change: ClusterChange,
                         configMapFor: string -> Option<ConfigMap>): Request
    requires HasProbes(definition)
  {
    var name := StatefulSetName(cluster, change.rack.name);
    if change.changeType.UpdateRack? && change.patch.SpecPatch? then PatchSet(name, change.patch.change)
    else if change.changeType.AddRack? then
      CreateSet(name, BuildStatefulSet(cluster, definition, change.rack, configMapFor(change.rack.name)))
    else UnsupportedChange(name)
  }

  function CreateRequests(cluster: string, definition: CassandraSpec, racks: seq<Rack>, configMap: Option<ConfigMap>): seq<Request>
    requires HasProbes(definition)
  {
    if racks == [] then []
    else [CreateSet(StatefulSetName(cluster, racks[0].name), BuildStatefulSet(cluster, definition, racks[0], configMap))]
         + CreateRequests(cluster, definition, racks[1..], configMap)
  }

  /** The same change for every rack: what the ConfigMap operations do. */
  function EachRack(cluster: string, racks: seq<Rack>, change: Change): seq<Request> {
    if racks == [] then []
    else
      var name := StatefulSetName(cluster, racks[0].name);
      [if change.HashPatch? then PatchSet(name, change) else UpdateSet(name, change)] + EachRack(cluster, racks[1..], change)
  }

  // ---------- The operations

  class StatefulSetAccessor {
    const cluster: string
    const api: Api
    var sets: map<string, StatefulSet>
    var log: seq<Entry>
    var calls: nat

    constructor (cluster: string, api: Api, sets: map<string, StatefulSet>)
      ensures this.cluster == cluster && this.api == api && State() == World(sets, [], 0)
    {
      this.cluster, this.api, this.sets, this.log, this.calls := cluster, api, sets, [], 0;
    }

    function State(): World
      reads this
    {
      World(sets, log, calls)
    }

    /** `WaitUntilRackChangeApplied`: polls until the change is applied or a poll fails. */
    method WaitUntilRackChangeApplied(name: string, generation: int, polls: seq<PollReply>) returns (outcome: WaitOutcome)
      modifies this`log
      ensures outcome == WaitResult(polls, generation)
      ensures log == old(log) + WaitLog(name, polls, generation)
    {
      for i := 0 to |polls|
        invariant WaitResult(polls[i..], generation) == WaitResult(polls, generation)
        invariant log + WaitLog(name, polls[i..], generation) == old(log) + WaitLog(name, polls, generation)
      {
        assert polls[i..][1..] == polls[i + 1..];
        if polls[i].PollError? {
          log := log + [PollFailed(name)];
          return Failed;
        }
        log := log + [Polled(name, polls[i].status)];
        if ChangeApplied(polls[i].status, generation) {
          return Applied;
        }
      }
      assert polls[|polls|..] == [];
      return StillWaiting;
    }

    method RegisterStatefulSet(name: string, set_: StatefulSet) returns (verdict: Verdict)
      modifies this
      ensures Outcome(State(), verdict, 1, if verdict.Stop? then 0 else 1) == Attempt(cluster, api, CreateSet(name, set_), old(State()))
    {
      var n := calls;
      calls := calls + 1;
      if !api.writeSucceeds(n) || name in sets {
        log := log + [Refused(name)];
        return Stop;
      }
      sets := sets[name := set_];
      log := log + [Wrote(name, api.generation(n), true)];
      var outcome := WaitUntilRackChangeApplied(name, api.generation(n), api.polls(n));
      return if outcome.StillWaiting? then Hang else Continue;
    }

    method PatchStatefulSet(name: string, change: Change) returns (verdict: Verdict, ghost applied: nat)
      modifies this
      ensures Outcome(State(), verdict, 1, applied) == Attempt(cluster, api, PatchSet(name, change), old(State()))
    {
      var n := calls;
      calls := calls + 1;
      applied := 0;
      if !api.writeSucceeds(n) || name !in sets {
        log := log + [Refused(name)];
        return Stop, applied;
      }
      sets := sets[name := ApplyChange(cluster, change, sets[name])];
      applied := 1;
      log := log + [Wrote(name, api.generation(n), false)];
      var outcome := WaitUntilRackChangeApplied(name, api.generation(n), api.polls(n));
      verdict := if outcome.Applied? then Continue else if outcome.Failed? then Stop else Hang;
    }

    /** Fetches a copy of the set, changes its template in place, and writes it back. */
    method UpdateStatefulSet(name: string, change: Change) returns (verdict: Verdict, ghost applied: nat)
      requires change.AddConfig? || change.RemoveConfig?
      modifies this
      ensures Outcome(State(), verdict, 1, applied) == Attempt(cluster, api, UpdateSet(name, change), old(State()))
    {
      var n := calls;
      calls := calls + 1;
      applied := 0;
      if !api.getSucceeds(n) || name !in sets {
        log := log + [Refused(name)];
        return Stop, applied;
      }
      var template := new TemplateObject(sets[name].template);
      if change.AddConfig? {
        template.AddCustomConfigVolume(cluster, change.configMap);
      } else {
        template.RemoveCustomConfigVolume(cluster);
      }
      if !api.writeSucceeds(n) {
        log := log + [Refused(name)];
        return Stop, applied;
      }
      sets := sets[name := sets[name].(template := template.Contents())];
      applied := 1;
      log := log + [Wrote(name, api.generation(n), false)];
      var outcome := WaitUntilRackChangeApplied(name, api.generation(n), api.polls(n));
      verdict := if outcome.Applied? then Continue else if outcome.Failed? then Stop else Hang;
    }

    /** `registerStatefulSets`, when a cluster is added. */
    method RegisterStatefulSets(definition: CassandraSpec, configMap: Option<ConfigMap>) returns (verdict: Verdict)
      requires HasProbes(definition)
      modifies this
      ensures var o := Run(cluster, api, CreateRequests(cluster, definition, definition.racks, configMap), old(State()));
              State() == o.world && verdict == o.verdict
    {
      var racks := definition.racks;
      for i := 0 to |racks|
        invariant var rest := Run(cluster, api, CreateRequests(cluster, definition, racks[i..], configMap), State());
                  var whole := Run(cluster, api, CreateRequests(cluster, definition, racks, configMap), old(State()));
                  rest.world == whole.world && rest.verdict == whole.verdict
      {
        assert racks[i..][1..] == racks[i + 1..];
        ghost var requests := CreateRequests(cluster, definition, racks[i..], configMap);
        assert requests[1..] == CreateRequests(cluster, definition, racks[i + 1..], configMap);
        verdict := RegisterStatefulSet(StatefulSetName(cluster, racks[i].name), BuildStatefulSet(cluster, definition, racks[i], configMap));
        if !verdict.Continue? {
          return;
        }
      }
      assert racks[|racks|..] == [];
      return Continue;
    }

    /** The rack loop of the three ConfigMap operations. */
    method ChangeEachRack(racks: seq<Rack>, change: Change) returns (verdict: Verdict)
      requires !change.Patch?
      modifies this
      ensures var o := Run(cluster, api, EachRack(cluster, racks, change), old(State()));
              State() == o.world && verdict == o.verdict
    {
      for i := 0 to |racks|
        invariant var rest := Run(cluster, api, EachRack(cluster, racks[i..], change), State());
                  var whole := Run(cluster, api, EachRack(cluster, racks, change), old(State()));
                  rest.world == whole.world && rest.verdict == whole.verdict
      {
        assert racks[i..][1..] == racks[i + 1..];
        ghost var requests := EachRack(cluster, racks[i..], change);
        assert requests[1..] == EachRack(cluster, racks[i + 1..], change);
        ghost var applied: nat;
        if change.HashPatch? {
          verdict, applied := PatchStatefulSet(StatefulSetName(cluster, racks[i].name), change);
        } else {
          verdict, applied := UpdateStatefulSet(StatefulSetName(cluster, racks[i].name), change);
        }
        if !verdict.Continue? {
          return;
        }
      }
      assert racks[|racks|..] == [];
      return Continue;
    }

    /** The loop of `UpdateClusterOperation.Execute`. */
    method ApplyChanges(definition: CassandraSpec, changes: seq<ClusterChange>, configMapFor: string -> Option<ConfigMap>)
      returns (verdict: Verdict)
      requires HasProbes(definition)
      requires forall c :: c in changes && c.changeType.UpdateRack? ==> c.patch.SpecPatch?
      modifies this
      ensures var o := Run(cluster, api, UpdateRequests(cluster, definition, changes, configMapFor), old(State()));
              State() == o.world && verdict == o.verdict
    {
      for i := 0 to |changes|
        invariant var rest := Run(cluster, api, UpdateRequests(cluster, definition, changes[i..], configMapFor), State());
                  var whole := Run(cluster, api, UpdateRequests(cluster, definition, changes, configMapFor), old(State()));
                  rest.world == whole.world && rest.verdict == whole.verdict
      {
        var change := changes[i];
        assert changes[i..][1..] == changes[i + 1..];
        ghost var requests := UpdateRequests(cluster, definition, changes[i..], configMapFor);
        assert requests[1..] == UpdateRequests(cluster, definition, changes[i + 1..], configMapFor);
        var name := StatefulSetName(cluster, change.rack.name);
        if change.changeType.UpdateRack? {
          ghost var applied: nat;
          verdict, applied := PatchStatefulSet(name, change.patch.change);
          if !verdict.Continue? {
            return;
          }
        } else if change.changeType.AddRack? {
          var set_ := BuildStatefulSet(cluster, definition, change.rack, configMapFor(change.rack.name));
          verdict := RegisterStatefulSet(name, set_);
          if !verdict.Continue? {
            return;
          }
        } else {
          log := log + [Unsupported(name)];
        }
      }
      assert changes[|changes|..] == [];
      return Continue;
    }

    /** `UpdateClusterOperation.Execute`: the record is overwritten before the change is known to be allowed. */
    method ExecuteUpdate(record: Cluster, oldCluster: Cassandra, newCluster: Cassandra, isCron: string -> bool,
                         configMapFor: string -> Option<ConfigMap>) returns (verdict: Verdict)
      requires oldCluster != newCluster && newCluster.name == cluster
      modifies this, record, newCluster
      ensures newCluster.spec == CopyOutcome(old(newCluster.spec), isCron).definition
      ensures record.definition == if IsValid(old(newCluster.spec), isCron) then Effective(old(newCluster.spec)) else old(record.definition)
      ensures var o := UpdateOutcome(cluster, api, old(oldCluster.spec), old(newCluster.spec), isCron, configMapFor, old(State()));
              State() == o.world && verdict == o.verdict
    {
      var error := record.CopyInto(newCluster, isCron);
      if error.Some? {
        return Stop;
      }
      var planned := ChangesForCluster(oldCluster.spec, newCluster.spec);
      if planned.Failure? {
        return Stop;
      }
      PlanPatchesAreSpecPatches(oldCluster.spec, newCluster.spec);
      verdict := ApplyChanges(record.definition, planned.value, configMapFor);
    }
  }

  /** An update of the specification as a whole, from the definitions the event carries. */
  function UpdateOutcome(cluster: string, api: Api, old_: CassandraSpec, new_: CassandraSpec, isCron: string -> bool,
                         configMapFor: string -> Option<ConfigMap>, w: World): Outcome
  {
    if !IsValid(new_, isCron) then Outcome(w, Stop, 0, 0)
    else
      var plan := Plan(old_, Defaulted(new_));
      if plan.Failure? then Outcome(w, Stop, 0, 0)
      else Run(cluster, api, UpdateRequests(cluster, Effective(new_), plan.value, configMapFor), w)
  }

  lemma PlanPatchesAreSpecPatches(old_: CassandraSpec, new_: CassandraSpec)
    requires HasProbes(new_) && Plan(old_, new_).Success?
    ensures forall c :: c in Plan(old_, new_).value && c.changeType.UpdateRack? ==> c.patch.SpecPatch?
  {
    AddChangesAre(Unmatched(new_.racks, old_.racks), AddRack);
    DeleteChangesAre(Unmatched(old_.racks, new_.racks), AddRack);
    ScaleDownChangesAre(ScaledDown(Matched(old_.racks, new_.racks)), AddRack);
    UpdatesAreSpecPatches(UpdatedRacks(old_, new_), new_);
  }

  lemma {:induction false} UpdatesAreSpecPatches(racks: seq<Rack>, spec: CassandraSpec)
    requires HasProbes(spec)
    ensures forall c :: c in UpdateChanges(racks, spec) ==> c.patch.SpecPatch?
  {
    if racks != [] {
      UpdatesAreSpecPatches(racks[1..], spec);
    }
  }

  // ---------- Sequential rollout

  predicate IsAttempt(entry: Entry) {
    entry.Wrote? || entry.Refused?
  }

  ghost predicate OnlyPolls(log: seq<Entry>) {
    forall k :: 0 <= k < |log| ==> !IsAttempt(log[k])
  }

  /** The set has observed the written generation, and all its replicas run and are ready in the current revision. */
  predicate RolledOut(status: Status, generation: int) {
    && (match status.observedGeneration case None => false case Some(observed) => generation <= observed)
    && status.currentRevision == status.updateRevision && status.replicas == status.readyReplicas
  }

  /** The poll that ends the wait for a write: the change has been rolled out or, after a creation, polling failed. */
  predicate Settles(entry: Entry, write: Entry)
    requires write.Wrote?
  {
    || (entry.Polled? && entry.name == write.name && RolledOut(entry.status, write.generation))
    || (write.created && entry.PollFailed? && entry.name == write.name)
  }

  predicate SettledBetween(log: seq<Entry>, i: nat, j: nat)
    requires i < |log| && j <= |log| && log[i].Wrote?
  {
    exists k :: i < k < j && Settles(log[k], log[i])
  }

  /** No rack is touched before the rollout of the previous write has been seen to complete. */
  ghost predicate Sequential(log: seq<Entry>) {
    forall i, j :: 0 <= i < j < |log| && log[i].Wrote? && IsAttempt(log[j]) ==> SettledBetween(log, i, j)
  }

  ghost predicate AllSettled(log: seq<Entry>) {
    forall i :: 0 <= i < |log| && log[i].Wrote? ==> SettledBetween(log, i, |log|)
  }

  lemma {:induction false} WaitLogSettles(name: string, polls: seq<PollReply>, generation: int)
    ensures var log, outcome := WaitLog(name, polls, generation), WaitResult(polls, generation);
            && OnlyPolls(log)
            && (outcome.Applied? ==> log != [] && log[|log| - 1].Polled? && log[|log| - 1].name == name &&
                                     RolledOut(log[|log| - 1].status, generation))
            && (outcome.Failed? ==> log != [] && log[|log| - 1] == PollFailed(name))
  {
    if polls != [] {
      WaitLogSettles(name, polls[1..], generation);
      assert forall e :: !IsAttempt(e) ==> OnlyPolls([e] + WaitLog(name, polls[1..], generation));
    }
  }

  lemma SequentialExtends(log: seq<Entry>, first: Entry, waiting: seq<Entry>)
    requires Sequential(log) && AllSettled(log) && OnlyPolls(waiting)
    ensures Sequential(log + [first] + waiting)
    ensures first.Wrote? ==> waiting != [] && Settles(waiting[|waiting| - 1], first) ==> AllSettled(log + [first] + waiting)
    ensures !first.Wrote? ==> AllSettled(log + [first] + waiting)
  {
    var longer := log + [first] + waiting;
    forall i, j | 0 <= i < |log| && log[i].Wrote? && |log| <= j <= |longer|
      ensures SettledBetween(longer, i, j)
    {
      assert SettledBetween(log, i, |log|);
      var k :| i < k < |log| && Settles(log[k], log[i]);
      assert Settles(longer[k], longer[i]);
    }
    forall i, j | 0 <= i < j < |longer| && longer[i].Wrote? && IsAttempt(longer[j])
      ensures SettledBetween(longer, i, j)
    {
      assert j <= |log|;
      if j < |log| {
        assert SettledBetween(log, i, j);
        var k :| i < k < j && Settles(log[k], log[i]);
        assert Settles(longer[k], longer[i]);
      }
    }
    if first.Wrote? && waiting != [] && Settles(waiting[|waiting| - 1], first) {
      assert Settles(longer[|longer| - 1], longer[|log|]);
      assert SettledBetween(longer, |log|, |longer|);
    }
  }

  lemma AttemptIsSequential(cluster: string, api: Api, request: Request, w: World)
    requires Sequential(w.log) && AllSettled(w.log)
    ensures var o := Attempt(cluster, api, request, w);
            Sequential(o.world.log) && (o.verdict.Continue? ==> AllSettled(o.world.log))
  {
    var n := w.calls;
    if request.UnsupportedChange? {
      SequentialExtends(w.log, Unsupported(request.name), []);
      assert w.log + [Unsupported(request.name)] + [] == w.log + [Unsupported(request.name)];
    } else if !Accepts(api, n, request, w.sets) {
      SequentialExtends(w.log, Refused(request.name), []);
      assert w.log + [Refused(request.name)] + [] == w.log + [Refused(request.name)];
    } else {
      WaitLogSettles(request.name, api.polls(n), api.generation(n));
      SequentialExtends(w.log, Wrote(request.name, api.generation(n), request.CreateSet?),
                        WaitLog(request.name, api.polls(n), api.generation(n)));
    }
  }

  /** However the API answers, a whole operation is sequential. */
  lemma {:induction false} RunIsSequential(cluster: string, api: Api, requests: seq<Request>, w: World)
    requires Sequential(w.log) && AllSettled(w.log)
    ensures var o := Run(cluster, api, requests, w);
            Sequential(o.world.log) && (o.verdict.Continue? ==> AllSettled(o.world.log))
  {
    if requests != [] {
      AttemptIsSequential(cluster, api, requests[0], w);
      var first := Attempt(cluster, api, requests[0], w);
      if first.verdict.Continue? {
        RunIsSequential(cluster, api, requests[1..], first.world);
      }
    }
  }

  // ---------- A prefix of the racks

  function Attempts(log: seq<Entry>): seq<string> {
    if log == [] then []
    else Attempts(log[..|log| - 1]) + if IsAttempt(log[|log| - 1]) then [log[|log| - 1].name] else []
  }

  function Target(request: Request): seq<string> {
    if request.UnsupportedChange? then [] else [request.name]
  }

  function Targets(requests: seq<Request>): seq<string> {
    if requests == [] then [] else Target(requests[0]) + Targets(requests[1..])
  }

  lemma {:induction false} AttemptsIgnorePolls(log: seq<Entry>, waiting: seq<Entry>)
    requires OnlyPolls(waiting)
    ensures Attempts(log + waiting) == Attempts(log)
  {
    if waiting == [] {
      assert log + waiting == log;
    } else {
      var last := |waiting| - 1;
      assert (log + waiting)[..|log + waiting| - 1] == log + waiting[..last];
      AttemptsIgnorePolls(log, waiting[..last]);
    }
  }

  lemma AttemptTouchesOne(cluster: string, api: Api, request: Request, w: World)
    ensures Attempts(Attempt(cluster, api, request, w).world.log) ==
            Attempts(w.log) + Target(request)
  {
    var n := w.calls;
    if request.UnsupportedChange? {
      assert (w.log + [Unsupported(request.name)])[..|w.log|] == w.log;
    } else if !Accepts(api, n, request, w.sets) {
      assert (w.log + [Refused(request.name)])[..|w.log|] == w.log;
    } else {
      var first := Wrote(request.name, api.generation(n), request.CreateSet?);
      WaitLogSettles(request.name, api.polls(n), api.generation(n));
      AttemptsIgnorePolls(w.log + [first], WaitLog(request.name, api.polls(n), api.generation(n)));
      assert (w.log + [first])[..|w.log|] == w.log;
    }
  }

  lemma TargetsOfPrefix(requests: seq<Request>, n: nat)
    requires 0 < n <= |requests|
    ensures Targets(requests[..n]) == Target(requests[0]) + Targets(requests[1..][..n - 1])
  {
    assert requests[..n][1..] == requests[1..][..n - 1];
  }

  lemma {:induction false} RunTouchesInOrder(cluster: string, api: Api, requests: seq<Request>, w: World)
    ensures var o := Run(cluster, api, requests, w);
            o.tried <= |requests| && Attempts(o.world.log) == Attempts(w.log) + Targets(requests[..o.tried])
  {
    if requests == [] {
      assert Attempts(w.log) + [] == Attempts(w.log);
    } else {
      var first := Attempt(cluster, api, requests[0], w);
      AttemptTouchesOne(cluster, api, requests[0], w);
      if first.verdict.Continue? {
        var rest := Run(cluster, api, requests[1..], first.world);
        RunTouchesInOrder(cluster, api, requests[1..], first.world);
        TargetsOfPrefix(requests, rest.tried + 1);
        Associative(Attempts(w.log), Target(requests[0]), Targets(requests[1..][..rest.tried]));
      } else {
        TargetsOfPrefix(requests, 1);
        assert Target(requests[0]) + [] == Target(requests[0]);
      }
    }
  }

  lemma {:induction false} RunWritesInOrder(cluster: string, api: Api, requests: seq<Request>, w: World)
    ensures var o := Run(cluster, api, requests, w);
            && o.applied <= o.tried <= |requests| && o.tried <= o.applied + 1
            && (o.verdict.Continue? ==> o.applied == |requests|)
            && o.world.sets == EffectOfAll(cluster, requests[..o.applied], w.sets)
  {
    if requests != [] {
      var first := Attempt(cluster, api, requests[0], w);
      var o := Run(cluster, api, requests, w);
      if first.verdict.Continue? {
        RunWritesInOrder(cluster, api, requests[1..], first.world);
        assert requests[..o.applied][1..] == requests[1..][..o.applied - 1];
      } else if first.applied == 1 {
        assert requests[..1][1..] == [];
        assert EffectOfAll(cluster, requests[..1], w.sets) == EffectOfAll(cluster, [], Effect(cluster, requests[0], w.sets));
      }
    }
  }

  /**
   * The racks touched are exactly the first ones of the list, all of them if the operation
   * completes; all but possibly the last have been written, and nothing else has.
   */
  lemma RunTouchesPrefix(cluster: string, api: Api, requests: seq<Request>, w: World)
    ensures var o := Run(cluster, api, requests, w);
            && o.applied <= o.tried <= |requests| && o.tried <= o.applied + 1
            && (o.verdict.Continue? ==> o.applied == |requests|)
            && Attempts(o.world.log) == Attempts(w.log) + Targets(requests[..o.tried])
            && o.world.sets == EffectOfAll(cluster, requests[..o.applied], w.sets)
  {
    RunTouchesInOrder(cluster, api, requests, w);
    RunWritesInOrder(cluster, api, requests, w);
  }
}
