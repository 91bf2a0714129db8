/**
 * Where a completed operation leads: which StatefulSets there are afterwards and what they
 * contain, for single updates, for chains of updates and for the ConfigMap operations.
 */
module RolloutTarget {
  import opened Wrappers
  import opened Sequences
  import opened ClusterSpec
  import opened StatefulSets
  import opened Adjuster
  import opened Rollout

  type Sets = map<string, StatefulSet>

  function At(sets: Sets, name: string): Option<StatefulSet> {
    if name in sets then Some(sets[name]) else None
  }

  // ---------- The effect of a list of changes

  function ChangesEffect(cluster: string, definition: CassandraSpec, changes: seq<ClusterChange>,
                         configMapFor: string -> Option<ConfigMap>, sets: Sets): Sets
    requires HasProbes(definition)
  {
    EffectOfAll(cluster, UpdateRequests(cluster, definition, changes, configMapFor), sets)
  }

  lemma {:induction false} ChangesEffectAppend(cluster: string, definition: CassandraSpec, a: seq<ClusterChange>, b: seq<ClusterChange>,
                                               configMapFor: string -> Option<ConfigMap>, sets: Sets)
    requires HasProbes(definition)
    ensures ChangesEffect(cluster, definition, a + b, configMapFor, sets) ==
            ChangesEffect(cluster, definition, b, configMapFor, ChangesEffect(cluster, definition, a, configMapFor, sets))
  {
    if a == [] {
      assert a + b == b;
    } else {
      assert (a + b)[1..] == a[1..] + b;
      ChangesEffectCons(cluster, definition, a + b, configMapFor, sets);
      ChangesEffectCons(cluster, definition, a, configMapFor, sets);
      var next := Effect(cluster, UpdateRequest(cluster, definition, a[0], configMapFor), sets);
      ChangesEffectAppend(cluster, definition, a[1..], b, configMapFor, next);
    }
  }

  lemma ChangesEffectCons(cluster: string, definition: CassandraSpec, changes: seq<ClusterChange>,
                          configMapFor: string -> Option<ConfigMap>, sets: Sets)
    requires HasProbes(definition) && changes != []
    ensures ChangesEffect(cluster, definition, changes, configMapFor, sets) ==
            ChangesEffect(cluster, definition, changes[1..], configMapFor,
                          Effect(cluster, UpdateRequest(cluster, definition, changes[0], configMapFor), sets))
  {
    var requests := UpdateRequests(cluster, definition, changes, configMapFor);
    assert requests[1..] == UpdateRequests(cluster, definition, changes[1..], configMapFor);
  }

  /** Deletions and scale-downs are planned, but carrying them out does nothing. */
  lemma {:induction false} UnsupportedChangesDoNothing(cluster: string, definition: CassandraSpec, changes: seq<ClusterChange>,
                                                       configMapFor: string -> Option<ConfigMap>, sets: Sets)
    requires HasProbes(definition)
    requires forall c :: c in changes ==> c.changeType == DeleteRack || c.changeType == ScaleDownRack
    ensures ChangesEffect(cluster, definition, changes, configMapFor, sets) == sets
  {
    if changes != [] {
      ChangesEffectCons(cluster, definition, changes, configMapFor, sets);
      UnsupportedChangesDoNothing(cluster, definition, changes[1..], configMapFor, sets);
    }
  }

  lemma {:induction false} AdditionsEffect(cluster: string, definition: CassandraSpec, racks: seq<Rack>,
                                           configMapFor: string -> Option<ConfigMap>, sets: Sets, name: string)
    requires HasProbes(definition) && UniqueNames(racks)
    ensures var t := ChangesEffect(cluster, definition, AddChanges(racks), configMapFor, sets);
            var rack := FindRack(name, racks);
            At(t, StatefulSetName(cluster, name)) ==
            if rack.None? then At(sets, StatefulSetName(cluster, name))
            else Some(BuildStatefulSet(cluster, definition, rack.value, configMapFor(name)))
  {
    if racks != [] {
      var changes := AddChanges(racks);
      ChangesEffectCons(cluster, definition, changes, configMapFor, sets);
      assert changes[1..] == AddChanges(racks[1..]);
      var next := Effect(cluster, UpdateRequest(cluster, definition, changes[0], configMapFor), sets);
      AdditionsEffect(cluster, definition, racks[1..], configMapFor, next, name);
      StatefulSetNameIsInjective(cluster, name, racks[0].name);
      NotNamedInRest(racks);
    }
  }

  function Patched(set_: Option<StatefulSet>, rack: Option<Rack>, settings: PodSettings): Option<StatefulSet> {
    if set_.None? || rack.None? then set_
    else Some(set_.value.(replicas := rack.value.replicas, settings := settings))
  }

  lemma {:induction false} UpdatesEffect(cluster: string, definition: CassandraSpec, racks: seq<Rack>, spec: CassandraSpec,
                                         configMapFor: string -> Option<ConfigMap>, sets: Sets, name: string)
    requires HasProbes(definition) && HasProbes(spec) && UniqueNames(racks)
    ensures var t := ChangesEffect(cluster, definition, UpdateChanges(racks, spec), configMapFor, sets);
            At(t, StatefulSetName(cluster, name)) ==
            Patched(At(sets, StatefulSetName(cluster, name)), FindRack(name, racks), SettingsOf(spec))
  {
    if racks != [] {
      var changes := UpdateChanges(racks, spec);
      ChangesEffectCons(cluster, definition, changes, configMapFor, sets);
      assert changes[1..] == UpdateChanges(racks[1..], spec);
      var next := Effect(cluster, UpdateRequest(cluster, definition, changes[0], configMapFor), sets);
      UpdatesEffect(cluster, definition, racks[1..], spec, configMapFor, next, name);
      StatefulSetNameIsInjective(cluster, name, racks[0].name);
      NotNamedInRest(racks);
    }
  }

  /** StatefulSets that belong to none of the racks stay as they are. */
  lemma {:induction false} OthersAreUntouched(cluster: string, requests: seq<Request>, sets: Sets, name: string)
    requires forall r :: r in requests && !r.UnsupportedChange? ==> r.name != name
    ensures At(EffectOfAll(cluster, requests, sets), name) == At(sets, name)
  {
    if requests != [] {
      OthersAreUntouched(cluster, requests[1..], Effect(cluster, requests[0], sets), name);
    }
  }

  // ---------- Which rack is changed how

  lemma FindCons(name: string, first: Rack, rest: seq<Rack>)
    ensures FindRack(name, [first] + rest) == if first.name == name then Some(first) else FindRack(name, rest)
    ensures FindRack(name, [] + rest) == FindRack(name, rest)
  {
    assert ([first] + rest)[1..] == rest && [] + rest == rest;
  }

  lemma {:induction false} FindUnmatched(name: string, racks: seq<Rack>, others: seq<Rack>)
    ensures FindRack(name, Unmatched(racks, others)) ==
            if FindRack(name, others).None? then FindRack(name, racks) else None
  {
    if racks != [] {
      FindUnmatched(name, racks[1..], others);
      FindCons(name, racks[0], Unmatched(racks[1..], others));
    }
  }

  lemma {:induction false} FindMatched(name: string, olds: seq<Rack>, news: seq<Rack>)
    ensures FindRack(name, NewRacks(Matched(olds, news))) ==
            if FindRack(name, olds).None? then None else FindRack(name, news)
  {
    if olds != [] {
      FindMatched(name, olds[1..], news);
      FindRackFinds(olds[0].name, news);
      FindRackFinds(name, olds[1..]);
      var found := FindRack(olds[0].name, news);
      if found.Some? {
        MatchedCons(MatchedRack(olds[0], found.value), Matched(olds[1..], news));
      } else {
        assert Matched(olds, news) == Matched(olds[1..], news);
      }
    }
  }

  lemma {:induction false} FindScaledUp(name: string, olds: seq<Rack>, news: seq<Rack>)
    requires UniqueNames(olds)
    ensures var o, n := FindRack(name, olds), FindRack(name, news);
            FindRack(name, ScaledUp(Matched(olds, news))) ==
            if o.Some? && n.Some? && n.value.replicas > o.value.replicas then n else None
  {
    if olds != [] {
      FindScaledUp(name, olds[1..], news);
      FindRackFinds(olds[0].name, news);
      NotNamedInRest(olds);
      var found := FindRack(olds[0].name, news);
      if found.Some? {
        MatchedCons(MatchedRack(olds[0], found.value), Matched(olds[1..], news));
        FindCons(name, found.value, ScaledUp(Matched(olds[1..], news)));
      } else {
        assert Matched(olds, news) == Matched(olds[1..], news);
      }
    }
  }

  /** No rack is added or updated twice, or both: each gets at most one change that is carried out. */
  lemma AtMostOneChangePerRack(old_: CassandraSpec, new_: CassandraSpec)
    requires HasProbes(new_) && UniqueNames(old_.racks) && UniqueNames(new_.racks)
    requires Plan(old_, new_).Success?
    ensures var plan := Plan(old_, new_).value;
            UniqueNames(RacksOf(plan, AddRack) + RacksOf(plan, UpdateRack))
  {
    PlanOrder(old_, new_);
    PlanRacks(old_, new_);
    UnmatchedAre(new_.racks, old_.racks);
    MatchedAreNamed(old_.racks, new_.racks);
    var added, updated := Unmatched(new_.racks, old_.racks), UpdatedRacks(old_, new_);
    forall i, j | 0 <= i < |added| && 0 <= j < |updated|
      ensures added[i].name != updated[j].name
    {
      FindRackFinds(added[i].name, old_.racks);
      assert added[i] in added && updated[j] in updated;
    }
  }

  // ---------- One update

  /** The StatefulSets have the replicas and the pod settings of the specification. */
  ghost predicate Realizes(cluster: string, sets: Sets, spec: CassandraSpec)
    requires HasProbes(spec)
  {
    forall r :: r in spec.racks ==> RealizesRack(At(sets, StatefulSetName(cluster, r.name)), r, spec)
  }

  ghost predicate RealizesRack(set_: Option<StatefulSet>, rack: Rack, spec: CassandraSpec) {
    set_.Some? && set_.value.replicas == rack.replicas && HasSettings(set_.value.settings, spec.pod)
  }

  lemma SettingsOfRealized(set_: Option<StatefulSet>, rack: Rack, spec: CassandraSpec)
    requires HasProbes(spec) && RealizesRack(set_, rack, spec)
    ensures set_.value.settings == SettingsOf(spec)
  {
    SettingsAre(set_.value.settings, spec);
  }

  function Max(a: int, b: int): int {
    if a < b then b else a
  }

  function ReplicasAfter(podChanged: bool, old_: Rack, new_: Rack): int {
    if podChanged then new_.replicas else Max(old_.replicas, new_.replicas)
  }

  /** What a patch writes: the definition's settings, in which an empty bootstrapper image is not replaced by the default. */
  function SettingsAfter(old_: CassandraSpec, new_: CassandraSpec, oldRack: Rack, newRack: Rack): PodSettings
  {
    if PodSpecHasChanged(old_, Defaulted(new_)) || newRack.replicas > oldRack.replicas
    then SettingsOf(Defaulted(new_))
    else SettingsOf(Effective(old_))
  }

  /** What the StatefulSet of a rack should be after an update, given what it was before. */
  function Expected(cluster: string, old_: CassandraSpec, new_: CassandraSpec, configMapFor: string -> Option<ConfigMap>,
                    name: string, before: Option<StatefulSet>): Option<StatefulSet>
  {
    var oldRack, newRack := FindRack(name, old_.racks), FindRack(name, new_.racks);
    if newRack.None? then before
    else if oldRack.None? then Some(BuildStatefulSet(cluster, Effective(new_), newRack.value, configMapFor(name)))
    else if before.None? then None
    else
      var podChanged := PodSpecHasChanged(old_, Defaulted(new_));
      Some(before.value.(replicas := ReplicasAfter(podChanged, oldRack.value, newRack.value),
                         settings := SettingsAfter(old_, new_, oldRack.value, newRack.value)))
  }

  /** In both specifications names identify racks. */
  ghost predicate Comparable(old_: CassandraSpec, new_: CassandraSpec) {
    UniqueNames(old_.racks) && UniqueNames(new_.racks)
  }

  lemma CompletedUpdate(cluster: string, api: Api, old_: CassandraSpec, new_: CassandraSpec, isCron: string -> bool,
                        configMapFor: string -> Option<ConfigMap>, w: World)
    requires UpdateOutcome(cluster, api, old_, new_, isCron, configMapFor, w).verdict.Continue?
    ensures Plan(old_, Defaulted(new_)).Success?
    ensures UpdateOutcome(cluster, api, old_, new_, isCron, configMapFor, w).world.sets ==
            ChangesEffect(cluster, Effective(new_), Plan(old_, Defaulted(new_)).value, configMapFor, w.sets)
  {
    var requests := UpdateRequests(cluster, Effective(new_), Plan(old_, Defaulted(new_)).value, configMapFor);
    RunWritesInOrder(cluster, api, requests, w);
    assert requests[..|requests|] == requests;
  }

  lemma PlanEffect(cluster: string, old_: CassandraSpec, new_: CassandraSpec, definition: CassandraSpec,
                   configMapFor: string -> Option<ConfigMap>, sets: Sets, name: string)
    requires HasProbes(new_) && HasProbes(definition) && UniqueNames(old_.racks) && UniqueNames(new_.racks)
    requires Plan(old_, new_).Success?
    ensures var before := At(sets, StatefulSetName(cluster, name));
            var added := FindRack(name, Unmatched(new_.racks, old_.racks));
            At(ChangesEffect(cluster, definition, Plan(old_, new_).value, configMapFor, sets), StatefulSetName(cluster, name)) ==
            Patched(if added.None? then before else Some(BuildStatefulSet(cluster, definition, added.value, configMapFor(name))),
                    FindRack(name, UpdatedRacks(old_, new_)), SettingsOf(new_))
  {
    var added, removed := Unmatched(new_.racks, old_.racks), Unmatched(old_.racks, new_.racks);
    var down, updated := ScaledDown(Matched(old_.racks, new_.racks)), UpdatedRacks(old_, new_);
    var a, d, s, u := AddChanges(added), DeleteChanges(removed), ScaleDownChanges(down), UpdateChanges(updated, new_);
    DeleteChangesAre(removed, AddRack);
    ScaleDownChangesAre(down, AddRack);
    PhasesEffect(cluster, definition, a, d, s, u, configMapFor, sets);
    UnmatchedInOrder(new_.racks, old_.racks);
    MatchedInOrder(old_.racks, new_.racks);
    AdditionsEffect(cluster, definition, added, configMapFor, sets, name);
    UpdatesEffect(cluster, definition, updated, new_, configMapFor, ChangesEffect(cluster, definition, a, configMapFor, sets), name);
  }

  lemma PhasesEffect(cluster: string, definition: CassandraSpec, a: seq<ClusterChange>, d: seq<ClusterChange>,
                     s: seq<ClusterChange>, u: seq<ClusterChange>, configMapFor: string -> Option<ConfigMap>, sets: Sets)
    requires HasProbes(definition)
    requires forall c :: c in d ==> c.changeType == DeleteRack
    requires forall c :: c in s ==> c.changeType == ScaleDownRack
    ensures ChangesEffect(cluster, definition, a + d + s + u, configMapFor, sets) ==
            ChangesEffect(cluster, definition, u, configMapFor, ChangesEffect(cluster, definition, a, configMapFor, sets))
  {
    var afterAdding := ChangesEffect(cluster, definition, a, configMapFor, sets);
    ChangesEffectAppend(cluster, definition, a + d + s, u, configMapFor, sets);
    ChangesEffectAppend(cluster, definition, a + d, s, configMapFor, sets);
    ChangesEffectAppend(cluster, definition, a, d, configMapFor, sets);
    UnsupportedChangesDoNothing(cluster, definition, d, configMapFor, afterAdding);
    UnsupportedChangesDoNothing(cluster, definition, s, configMapFor, afterAdding);
  }

  /**
   * Starting from StatefulSets that realize the old specification, a completed update builds
   * the added racks as specified, gives the matched ones the new settings and replicas (but
   * never fewer replicas unless the pods change anyway), and leaves removed racks alone.
   */
  lemma UpdateReachesTarget(cluster: string, api: Api, old_: CassandraSpec, new_: CassandraSpec, isCron: string -> bool,
                            configMapFor: string -> Option<ConfigMap>, w: World, name: string)
    requires Comparable(old_, new_) && Realizes(cluster, w.sets, Effective(old_))
    requires UpdateOutcome(cluster, api, old_, new_, isCron, configMapFor, w).verdict.Continue?
    ensures At(UpdateOutcome(cluster, api, old_, new_, isCron, configMapFor, w).world.sets, StatefulSetName(cluster, name)) ==
            Expected(cluster, old_, new_, configMapFor, name, At(w.sets, StatefulSetName(cluster, name)))
  {
    CompletedUpdate(cluster, api, old_, new_, isCron, configMapFor, w);
    PlanReachesTarget(cluster, old_, new_, configMapFor, w.sets, name);
  }

  lemma PlanReachesTarget(cluster: string, old_: CassandraSpec, new_: CassandraSpec, configMapFor: string -> Option<ConfigMap>,
                          sets: Sets, name: string)
    requires Comparable(old_, new_) && Realizes(cluster, sets, Effective(old_)) && Plan(old_, Defaulted(new_)).Success?
    ensures At(ChangesEffect(cluster, Effective(new_), Plan(old_, Defaulted(new_)).value, configMapFor, sets), StatefulSetName(cluster, name)) ==
            Expected(cluster, old_, new_, configMapFor, name, At(sets, StatefulSetName(cluster, name)))
  {
    hide BuildStatefulSet, SettingsOf;
    PlanEffect(cluster, old_, Defaulted(new_), Effective(new_), configMapFor, sets, name);
    FindUnmatched(name, new_.racks, old_.racks);
    UpdatedRack(old_, new_, name);
    var oldRack := FindRack(name, old_.racks);
    if oldRack.Some? {
      FindRackFinds(name, old_.racks);
      SettingsOfRealized(At(sets, StatefulSetName(cluster, oldRack.value.name)), oldRack.value, Effective(old_));
    }
  }

  // ---------- The target, field by field

  predicate IsPatched(old_: CassandraSpec, new_: CassandraSpec, oldRack: Rack, newRack: Rack) {
    PodSpecHasChanged(old_, Defaulted(new_)) || newRack.replicas > oldRack.replicas
  }

  /** A patched set has the replicas and pod settings of the new definition, and is otherwise as before. */
  predicate IsPatchOf(after: StatefulSet, before: StatefulSet, rack: Rack, definition: CassandraSpec) {
    && after.replicas == rack.replicas && HasSettings(after.settings, definition.pod)
    && after.creation == before.creation && after.template == before.template
  }

  /** What becomes of the set of a rack name: built, patched, or left alone. */
  predicate IsTarget(cluster: string, old_: CassandraSpec, new_: CassandraSpec, configMapFor: string -> Option<ConfigMap>,
                     name: string, before: Option<StatefulSet>, after: Option<StatefulSet>)
  {
    var oldRack, newRack := FindRack(name, old_.racks), FindRack(name, new_.racks);
    if newRack.Some? && oldRack.None? then
      after.Some? && IsBuilt(cluster, after.value, Effective(new_), newRack.value, configMapFor(name))
    else if newRack.Some? && before.Some? && IsPatched(old_, new_, oldRack.value, newRack.value) then
      after.Some? && IsPatchOf(after.value, before.value, newRack.value, Defaulted(new_))
    else after == before
  }

  /**
   * Whatever StatefulSets there were, a completed update builds those of added racks as the
   * definition has them, writes its replicas and pod settings into those of matched racks
   * where the pods change or the rack grows, and leaves every other set as it was.
   */
  lemma UpdateWritesDefinition(cluster: string, api: Api, old_: CassandraSpec, new_: CassandraSpec, isCron: string -> bool,
                               configMapFor: string -> Option<ConfigMap>, w: World, name: string)
    requires Comparable(old_, new_)
    requires UpdateOutcome(cluster, api, old_, new_, isCron, configMapFor, w).verdict.Continue?
    ensures IsTarget(cluster, old_, new_, configMapFor, name, At(w.sets, StatefulSetName(cluster, name)),
                     At(UpdateOutcome(cluster, api, old_, new_, isCron, configMapFor, w).world.sets, StatefulSetName(cluster, name)))
  {
    hide BuildStatefulSet, SettingsOf, IsBuilt, HasSettings;
    CompletedUpdate(cluster, api, old_, new_, isCron, configMapFor, w);
    PlanEffect(cluster, old_, Defaulted(new_), Effective(new_), configMapFor, w.sets, name);
    FindUnmatched(name, new_.racks, old_.racks);
    UpdatedRack(old_, new_, name);
    SettingsAre(SettingsOf(Defaulted(new_)), Defaulted(new_));
    var newRack := FindRack(name, new_.racks);
    if newRack.Some? {
      BuiltIsAsSpecified(cluster, Effective(new_), newRack.value, configMapFor(name));
    }
  }

  /** The rack of a name is updated if it is matched, and the pods change or it grows. */
  lemma UpdatedRack(old_: CassandraSpec, new_: CassandraSpec, name: string)
    requires UniqueNames(old_.racks)
    ensures var o, n := FindRack(name, old_.racks), FindRack(name, new_.racks);
            FindRack(name, UpdatedRacks(old_, Defaulted(new_))) ==
            if o.Some? && n.Some? && (PodSpecHasChanged(old_, Defaulted(new_)) || n.value.replicas > o.value.replicas) then n else None
  {
    FindMatched(name, old_.racks, new_.racks);
    FindScaledUp(name, old_.racks, new_.racks);
  }

  /** Nothing else is written: not the removed racks, and not the StatefulSets of other clusters. */
  lemma UpdateTouchesNothingElse(cluster: string, api: Api, old_: CassandraSpec, new_: CassandraSpec, isCron: string -> bool,
                                 configMapFor: string -> Option<ConfigMap>, w: World, name: string)
    requires forall r :: r in new_.racks ==> name != StatefulSetName(cluster, r.name)
    ensures At(UpdateOutcome(cluster, api, old_, new_, isCron, configMapFor, w).world.sets, name) == At(w.sets, name)
  {
    if IsValid(new_, isCron) && Plan(old_, Defaulted(new_)).Success? {
      var plan := Plan(old_, Defaulted(new_)).value;
      var requests := UpdateRequests(cluster, Effective(new_), plan, configMapFor);
      var o := Run(cluster, api, requests, w);
      RunWritesInOrder(cluster, api, requests, w);
      PlanNamesNewRacks(old_, Defaulted(new_));
      RequestsNameRacks(cluster, Effective(new_), plan, configMapFor, name);
      OthersAreUntouched(cluster, requests[..o.applied], w.sets, name);
    }
  }

  // ---------- When an update completes

  /** Every call succeeds, and polling sees every change rolled out in the end. */
  ghost predicate AllGoesWell(api: Api) {
    forall n: nat :: api.getSucceeds(n) && api.writeSucceeds(n) && WaitResult(api.polls(n), api.generation(n)).Applied?
  }

  /** The sets to patch exist, and those to create do not, nor are any created twice. */
  ghost predicate CanBeServed(requests: seq<Request>, sets: Sets) {
    && (forall i :: 0 <= i < |requests| && (requests[i].PatchSet? || requests[i].UpdateSet?) ==> requests[i].name in sets)
    && (forall i :: 0 <= i < |requests| && requests[i].CreateSet? ==> requests[i].name !in sets)
    && (forall i, j :: 0 <= i < j < |requests| && requests[i].CreateSet? && requests[j].CreateSet? ==> requests[i].name != requests[j].name)
  }

  lemma {:induction false} RunCompletes(cluster: string, api: Api, requests: seq<Request>, w: World)
    requires AllGoesWell(api) && CanBeServed(requests, w.sets)
    ensures Run(cluster, api, requests, w).verdict.Continue?
  {
    if requests != [] {
      var next := Attempt(cluster, api, requests[0], w).world;
      var rest := requests[1..];
      assert CanBeServed(rest, next.sets) by {
        assert forall i :: 0 <= i < |rest| ==> rest[i] == requests[i + 1];
      }
      RunCompletes(cluster, api, rest, next);
    }
  }

  /** An update that is allowed completes if all goes well and the names of the added racks are free. */
  lemma UpdateCompletes(cluster: string, api: Api, old_: CassandraSpec, new_: CassandraSpec, isCron: string -> bool,
                        configMapFor: string -> Option<ConfigMap>, w: World)
    requires Comparable(old_, new_) && IsValid(new_, isCron) && Plan(old_, Defaulted(new_)).Success?
    requires AllGoesWell(api) && Realizes(cluster, w.sets, Effective(old_))
    requires forall r :: r in Unmatched(new_.racks, old_.racks) ==> StatefulSetName(cluster, r.name) !in w.sets
    ensures UpdateOutcome(cluster, api, old_, new_, isCron, configMapFor, w).verdict.Continue?
  {
    var plan := Plan(old_, Defaulted(new_)).value;
    PlanCanBeServed(cluster, old_, Defaulted(new_), Effective(new_), configMapFor, w.sets);
    RunCompletes(cluster, api, UpdateRequests(cluster, Effective(new_), plan, configMapFor), w);
  }

  lemma PlanCanBeServed(cluster: string, old_: CassandraSpec, new_: CassandraSpec, definition: CassandraSpec,
                        configMapFor: string -> Option<ConfigMap>, sets: Sets)
    requires HasProbes(new_) && HasProbes(definition) && Plan(old_, new_).Success?
    requires UniqueNames(old_.racks) && UniqueNames(new_.racks) && Realizes(cluster, sets, Effective(old_))
    requires forall r :: r in Unmatched(new_.racks, old_.racks) ==> StatefulSetName(cluster, r.name) !in sets
    ensures CanBeServed(UpdateRequests(cluster, definition, Plan(old_, new_).value, configMapFor), sets)
  {
    var plan := Plan(old_, new_).value;
    PlanRacks(old_, new_);
    MatchedAreNamed(old_.racks, new_.racks);
    forall c | c in plan && c.changeType.UpdateRack?
      ensures StatefulSetName(cluster, c.rack.name) in sets
    {
      RacksOfHas(plan, c);
      var i :| 0 <= i < |old_.racks| && old_.racks[i].name == c.rack.name;
      assert RealizesRack(At(sets, StatefulSetName(cluster, old_.racks[i].name)), old_.racks[i], Effective(old_));
    }
    forall c | c in plan && c.changeType.AddRack?
      ensures StatefulSetName(cluster, c.rack.name) !in sets
    {
      RacksOfHas(plan, c);
    }
    PlanOrder(old_, new_);
    DistinctAdditions(plan);
    ChangesCanBeServed(cluster, definition, plan, configMapFor, sets);
  }

  lemma ChangesCanBeServed(cluster: string, definition: CassandraSpec, changes: seq<ClusterChange>,
                           configMapFor: string -> Option<ConfigMap>, sets: Sets)
    requires HasProbes(definition)
    requires forall c :: c in changes && c.changeType.UpdateRack? ==> StatefulSetName(cluster, c.rack.name) in sets
    requires forall c :: c in changes && c.changeType.AddRack? ==> StatefulSetName(cluster, c.rack.name) !in sets
    requires forall i, j :: 0 <= i < j < |changes| && changes[i].changeType.AddRack? && changes[j].changeType.AddRack? ==>
               changes[i].rack.name != changes[j].rack.name
    ensures CanBeServed(UpdateRequests(cluster, definition, changes, configMapFor), sets)
  {
    hide BuildStatefulSet;
    RequestsAre(cluster, definition, changes, configMapFor);
    var requests := UpdateRequests(cluster, definition, changes, configMapFor);
    forall i | 0 <= i < |requests|
      ensures requests[i].PatchSet? ==> requests[i].name in sets
      ensures requests[i].CreateSet? ==> requests[i].name !in sets && changes[i].changeType.AddRack?
      ensures requests[i].name == StatefulSetName(cluster, changes[i].rack.name) && !requests[i].UpdateSet?
    {
      assert changes[i] in changes;
    }
    forall i, j | 0 <= i < j < |requests| && requests[i].CreateSet? && requests[j].CreateSet?
      ensures requests[i].name != requests[j].name
    {
      StatefulSetNameIsInjective(cluster, changes[i].rack.name, changes[j].rack.name);
    }
  }

  lemma {:induction false} RequestsAre(cluster: string, definition: CassandraSpec, changes: seq<ClusterChange>,
                                       configMapFor: string -> Option<ConfigMap>)
    requires HasProbes(definition)
    ensures var requests := UpdateRequests(cluster, definition, changes, configMapFor);
            |requests| == |changes| &&
            forall i :: 0 <= i < |changes| ==> requests[i] == UpdateRequest(cluster, definition, changes[i], configMapFor)
  {
    if changes != [] {
      RequestsAre(cluster, definition, changes[1..], configMapFor);
    }
  }

  lemma UniqueAfterFirst(first: Rack, rest: seq<Rack>)
    requires UniqueNames([first] + rest)
    ensures UniqueNames(rest) && forall r :: r in rest ==> r.name != first.name
  {
    var all := [first] + rest;
    forall i | 0 <= i < |rest|
      ensures rest[i].name != first.name
    {
      assert all[0] == first && all[i + 1] == rest[i];
    }
    forall i, j | 0 <= i < j < |rest|
      ensures rest[i].name != rest[j].name
    {
      assert all[i + 1] == rest[i] && all[j + 1] == rest[j];
    }
  }

  /** The first addition is distinct from the later ones, and these among each other. */
  lemma AdditionsAfterFirst(changes: seq<ClusterChange>)
    requires changes != [] && UniqueNames(RacksOf(changes, AddRack))
    ensures var rest := RacksOf(changes[1..], AddRack);
            UniqueNames(rest) && (changes[0].changeType.AddRack? ==> forall r :: r in rest ==> r.name != changes[0].rack.name)
  {
    var rest := RacksOf(changes[1..], AddRack);
    if changes[0].changeType.AddRack? {
      assert RacksOf(changes, AddRack) == [changes[0].rack] + rest;
      UniqueAfterFirst(changes[0].rack, rest);
    } else {
      assert RacksOf(changes, AddRack) == rest;
    }
  }

  lemma {:induction false} DistinctAdditions(changes: seq<ClusterChange>)
    requires UniqueNames(RacksOf(changes, AddRack))
    ensures forall i, j :: 0 <= i < j < |changes| && changes[i].changeType.AddRack? && changes[j].changeType.AddRack? ==>
              changes[i].rack.name != changes[j].rack.name
  {
    if changes != [] {
      AdditionsAfterFirst(changes);
      DistinctAdditions(changes[1..]);
      forall i, j | 0 <= i < j < |changes| && changes[i].changeType.AddRack? && changes[j].changeType.AddRack?
        ensures changes[i].rack.name != changes[j].rack.name
      {
        assert changes[j] == changes[1..][j - 1];
        RacksOfHas(changes[1..], changes[j]);
        if i > 0 {
          assert changes[i] == changes[1..][i - 1];
        }
      }
    }
  }

  predicate IsExecuted(change: ClusterChange) {
    change.changeType.AddRack? || change.changeType.UpdateRack?
  }

  lemma PlanNamesNewRacks(old_: CassandraSpec, new_: CassandraSpec)
    requires HasProbes(new_) && Plan(old_, new_).Success?
    ensures forall c :: c in Plan(old_, new_).value && IsExecuted(c) ==> c.rack in new_.racks
  {
    PlanRacks(old_, new_);
    UnmatchedAre(new_.racks, old_.racks);
    MatchedPairs(old_.racks, new_.racks);
    NewRacksAre(Matched(old_.racks, new_.racks), new_.racks);
    forall c | c in Plan(old_, new_).value && IsExecuted(c)
      ensures c.rack in new_.racks
    {
      RacksOfHas(Plan(old_, new_).value, c);
    }
  }

  lemma {:induction false} RacksOfHas(changes: seq<ClusterChange>, c: ClusterChange)
    requires c in changes
    ensures c.rack in RacksOf(changes, c.changeType)
  {
    if changes[0] != c {
      RacksOfHas(changes[1..], c);
    }
  }

  lemma {:induction false} NewRacksAre(matched: seq<MatchedRack>, news: seq<Rack>)
    requires forall m :: m in matched ==> m.new_ in news
    ensures forall r :: r in NewRacks(matched) ==> r in news
    ensures forall r :: r in ScaledUp(matched) ==> r in news
  {
    if matched != [] {
      NewRacksAre(matched[1..], news);
    }
  }

  lemma {:induction false} RequestsNameRacks(cluster: string, definition: CassandraSpec, changes: seq<ClusterChange>,
                                             configMapFor: string -> Option<ConfigMap>, name: string)
    requires HasProbes(definition)
    requires forall c :: c in changes && IsExecuted(c) ==> StatefulSetName(cluster, c.rack.name) != name
    ensures forall r :: r in UpdateRequests(cluster, definition, changes, configMapFor) && !r.UnsupportedChange? ==> r.name != name
  {
    if changes != [] {
      RequestsNameRacks(cluster, definition, changes[1..], configMapFor, name);
      assert IsExecuted(changes[0]) ==> StatefulSetName(cluster, changes[0].rack.name) != name;
    }
  }

  // ---------- When the target is the new specification

  ghost predicate NoShrink(old_: CassandraSpec, new_: CassandraSpec) {
    forall m :: m in Matched(old_.racks, new_.racks) ==> m.new_.replicas >= m.old_.replicas
  }

  ghost predicate NoGrowth(old_: CassandraSpec, new_: CassandraSpec) {
    forall m :: m in Matched(old_.racks, new_.racks) ==> m.new_.replicas <= m.old_.replicas
  }

  /** Shrinking works only along with a change of the pods, and a patch needs the image to be spelled out. */
  ghost predicate TakesFullEffect(old_: CassandraSpec, new_: CassandraSpec) {
    var podChanged := PodSpecHasChanged(old_, Defaulted(new_));
    && (podChanged || NoShrink(old_, new_))
    && (new_.pod.bootstrapperImage != "" || Matched(old_.racks, new_.racks) == [] || (!podChanged && NoGrowth(old_, new_)))
  }

  lemma UnpatchedSettingsAgree(old_: CassandraSpec, new_: CassandraSpec)
    requires !PodSpecHasChanged(old_, Defaulted(new_))
    ensures SettingsOf(Effective(old_)) == SettingsOf(Effective(new_))
  {
  }

  /** A completed update realizes the new specification exactly when it can take full effect. */
  lemma UpdateRealizesExactlyWhen(cluster: string, api: Api, old_: CassandraSpec, new_: CassandraSpec, isCron: string -> bool,
                                  configMapFor: string -> Option<ConfigMap>, w: World)
    requires Comparable(old_, new_) && Realizes(cluster, w.sets, Effective(old_))
    requires UpdateOutcome(cluster, api, old_, new_, isCron, configMapFor, w).verdict.Continue?
    ensures Realizes(cluster, UpdateOutcome(cluster, api, old_, new_, isCron, configMapFor, w).world.sets, Effective(new_)) <==>
            TakesFullEffect(old_, new_)
  {
    var after := UpdateOutcome(cluster, api, old_, new_, isCron, configMapFor, w).world.sets;
    MatchedPairs(old_.racks, new_.racks);
    if TakesFullEffect(old_, new_) {
      forall r | r in Effective(new_).racks
        ensures RealizesRack(At(after, StatefulSetName(cluster, r.name)), r, Effective(new_))
      {
        FindRackIsUnique(r, new_.racks);
        FindRackFinds(r.name, old_.racks);
        UpdateReachesTarget(cluster, api, old_, new_, isCron, configMapFor, w, r.name);
        RackTakesEffect(cluster, w.sets, old_, new_, r);
      }
    } else {
      var m := NotFullyEffective(old_, new_);
      UpdateReachesTarget(cluster, api, old_, new_, isCron, configMapFor, w, m.new_.name);
      FindRackIsUnique(m.old_, old_.racks);
      assert RealizesRack(At(w.sets, StatefulSetName(cluster, m.old_.name)), m.old_, Effective(old_));
      assert m.new_ in Effective(new_).racks;
      assert !RealizesRack(At(after, StatefulSetName(cluster, m.new_.name)), m.new_, Effective(new_));
    }
  }

  predicate PatchLosesImage(old_: CassandraSpec, new_: CassandraSpec, m: MatchedRack) {
    new_.pod.bootstrapperImage == "" && (PodSpecHasChanged(old_, Defaulted(new_)) || m.new_.replicas > m.old_.replicas)
  }

  predicate ShrinkIsIgnored(old_: CassandraSpec, new_: CassandraSpec, m: MatchedRack) {
    !PodSpecHasChanged(old_, Defaulted(new_)) && m.new_.replicas < m.old_.replicas
  }

  lemma NotFullyEffective(old_: CassandraSpec, new_: CassandraSpec) returns (m: MatchedRack)
    requires !TakesFullEffect(old_, new_)
    ensures m in Matched(old_.racks, new_.racks) && (PatchLosesImage(old_, new_, m) || ShrinkIsIgnored(old_, new_, m))
  {
    var matched := Matched(old_.racks, new_.racks);
    var podChanged := PodSpecHasChanged(old_, Defaulted(new_));
    if !podChanged && !NoShrink(old_, new_) {
      m :| m in matched && m.new_.replicas < m.old_.replicas;
    } else if podChanged {
      m := matched[0];
    } else {
      m :| m in matched && m.new_.replicas > m.old_.replicas;
    }
  }

  lemma RackTakesEffect(cluster: string, sets: Sets, old_: CassandraSpec, new_: CassandraSpec, rack: Rack)
    requires Comparable(old_, new_) && Realizes(cluster, sets, Effective(old_)) && TakesFullEffect(old_, new_)
    requires rack in new_.racks && FindRack(rack.name, new_.racks) == Some(rack)
    ensures forall configMapFor ::
              RealizesRack(Expected(cluster, old_, new_, configMapFor, rack.name, At(sets, StatefulSetName(cluster, rack.name))),
                           rack, Effective(new_))
  {
    var found := FindRack(rack.name, old_.racks);
    FindRackFinds(rack.name, old_.racks);
    if found.Some? {
      var m := MatchedRack(found.value, rack);
      MatchedPairs(old_.racks, new_.racks);
      assert m in Matched(old_.racks, new_.racks);
      SettingsOfRealized(At(sets, StatefulSetName(cluster, rack.name)), found.value, Effective(old_));
      if !PodSpecHasChanged(old_, Defaulted(new_)) {
        UnpatchedSettingsAgree(old_, new_);
      }
    }
  }

  /** The replicas of a matched rack reach the new number exactly when the pods change too or it does not shrink. */
  lemma ReplicasReachTarget(cluster: string, api: Api, old_: CassandraSpec, new_: CassandraSpec, isCron: string -> bool,
                            configMapFor: string -> Option<ConfigMap>, w: World, m: MatchedRack)
    requires Comparable(old_, new_) && Realizes(cluster, w.sets, Effective(old_)) && m in Matched(old_.racks, new_.racks)
    requires UpdateOutcome(cluster, api, old_, new_, isCron, configMapFor, w).verdict.Continue?
    ensures var set_ := At(UpdateOutcome(cluster, api, old_, new_, isCron, configMapFor, w).world.sets,
                           StatefulSetName(cluster, m.new_.name));
            && set_.Some?
            && (set_.value.replicas == m.new_.replicas <==>
                PodSpecHasChanged(old_, Defaulted(new_)) || m.new_.replicas >= m.old_.replicas)
  {
    MatchedPairs(old_.racks, new_.racks);
    FindRackIsUnique(m.old_, old_.racks);
    UpdateReachesTarget(cluster, api, old_, new_, isCron, configMapFor, w, m.new_.name);
    assert RealizesRack(At(w.sets, StatefulSetName(cluster, m.old_.name)), m.old_, Effective(old_));
  }

  /**
   * The StatefulSet of a matched rack ends up as if it had been built from the new
   * specification exactly when, besides, nothing changed that patches do not carry: the
   * bootstrapper's CPU and memory environment and the size of the volume claim.
   */
  lemma UpdateEqualsRebuild(cluster: string, api: Api, old_: CassandraSpec, new_: CassandraSpec, isCron: string -> bool,
                            configMapFor: string -> Option<ConfigMap>, w: World, m: MatchedRack, configMap: Option<ConfigMap>)
    requires Comparable(old_, new_) && Realizes(cluster, w.sets, Effective(old_)) && m in Matched(old_.racks, new_.racks)
    requires UpdateOutcome(cluster, api, old_, new_, isCron, configMapFor, w).verdict.Continue?
    requires At(w.sets, StatefulSetName(cluster, m.new_.name)) == Some(BuildStatefulSet(cluster, Effective(old_), m.old_, configMap))
    ensures At(UpdateOutcome(cluster, api, old_, new_, isCron, configMapFor, w).world.sets, StatefulSetName(cluster, m.new_.name)) ==
            Some(BuildStatefulSet(cluster, Effective(new_), m.new_, configMap)) <==>
            && !PatchLosesImage(old_, new_, m) && !ShrinkIsIgnored(old_, new_, m)
            && old_.pod.cpu == new_.pod.cpu && old_.pod.memory == new_.pod.memory
            && (new_.useEmptyDir || old_.pod.storageSize == new_.pod.storageSize)
  {
    MatchedPairs(old_.racks, new_.racks);
    FindRackIsUnique(m.old_, old_.racks);
    UpdateReachesTarget(cluster, api, old_, new_, isCron, configMapFor, w, m.new_.name);
    CompletedUpdate(cluster, api, old_, new_, isCron, configMapFor, w);
    NoForbidden(Matched(old_.racks, new_.racks), m);
    PatchEqualsRebuild(cluster, old_, new_, m, configMap);
  }

  lemma PatchEqualsRebuild(cluster: string, old_: CassandraSpec, new_: CassandraSpec, m: MatchedRack, configMap: Option<ConfigMap>)
    requires ForbiddenChange(old_, Defaulted(new_), []).None?
    requires m.new_.storageClass == m.old_.storageClass && m.new_.zone == m.old_.zone
    ensures BuildStatefulSet(cluster, Effective(old_), m.old_, configMap).(
              replicas := ReplicasAfter(PodSpecHasChanged(old_, Defaulted(new_)), m.old_, m.new_),
              settings := SettingsAfter(old_, new_, m.old_, m.new_)) ==
            BuildStatefulSet(cluster, Effective(new_), m.new_, configMap) <==>
            && !PatchLosesImage(old_, new_, m) && !ShrinkIsIgnored(old_, new_, m)
            && old_.pod.cpu == new_.pod.cpu && old_.pod.memory == new_.pod.memory
            && (new_.useEmptyDir || old_.pod.storageSize == new_.pod.storageSize)
  {
    SettingsAgreeExactlyWhen(old_, new_, m);
    CreationAgreesExactlyWhen(old_, new_, m);
  }

  lemma SettingsAgreeExactlyWhen(old_: CassandraSpec, new_: CassandraSpec, m: MatchedRack)
    ensures SettingsAfter(old_, new_, m.old_, m.new_) == SettingsOf(Effective(new_)) <==> !PatchLosesImage(old_, new_, m)
  {
    if !PodSpecHasChanged(old_, Defaulted(new_)) {
      UnpatchedSettingsAgree(old_, new_);
    }
  }

  lemma CreationAgreesExactlyWhen(old_: CassandraSpec, new_: CassandraSpec, m: MatchedRack)
    requires ForbiddenChange(old_, Defaulted(new_), []).None?
    requires m.new_.storageClass == m.old_.storageClass && m.new_.zone == m.old_.zone
    ensures CreationOf(Effective(old_), m.old_) == CreationOf(Effective(new_), m.new_) <==>
            && old_.pod.cpu == new_.pod.cpu && old_.pod.memory == new_.pod.memory
            && (new_.useEmptyDir || old_.pod.storageSize == new_.pod.storageSize)
  {
  }

  // ---------- Several updates

  datatype Update = Update(spec: CassandraSpec, api: Api, configMapFor: string -> Option<ConfigMap>)

  function UpdateBy(cluster: string, current: CassandraSpec, u: Update, isCron: string -> bool, w: World): Outcome {
    UpdateOutcome(cluster, u.api, current, u.spec, isCron, u.configMapFor, w)
  }

  function AfterUpdates(cluster: string, current: CassandraSpec, updates: seq<Update>, isCron: string -> bool, w: World): World
    decreases |updates|
  {
    if updates == [] then w
    else AfterUpdates(cluster, Defaulted(updates[0].spec), updates[1..], isCron, UpdateBy(cluster, current, updates[0], isCron, w).world)
  }

  /** Every update completes and can take full effect. */
  ghost predicate AllTakeFullEffect(cluster: string, current: CassandraSpec, updates: seq<Update>, isCron: string -> bool, w: World)
    decreases |updates|
  {
    updates == [] ||
    (&& TakesFullEffectFrom(cluster, current, updates[0], isCron, w)
     && AllTakeFullEffect(cluster, Defaulted(updates[0].spec), updates[1..], isCron, UpdateBy(cluster, current, updates[0], isCron, w).world))
  }

  ghost predicate TakesFullEffectFrom(cluster: string, current: CassandraSpec, u: Update, isCron: string -> bool, w: World) {
    Comparable(current, u.spec) && TakesFullEffect(current, u.spec) && UpdateBy(cluster, current, u, isCron, w).verdict.Continue?
  }

  function Last(current: CassandraSpec, updates: seq<Update>): CassandraSpec
    decreases |updates|
  {
    if updates == [] then current else Last(Defaulted(updates[0].spec), updates[1..])
  }

  lemma UpdateRealizes(cluster: string, current: CassandraSpec, u: Update, isCron: string -> bool, w: World)
    requires Realizes(cluster, w.sets, Effective(current)) && TakesFullEffectFrom(cluster, current, u, isCron, w)
    ensures Realizes(cluster, UpdateBy(cluster, current, u, isCron, w).world.sets, Effective(Defaulted(u.spec)))
  {
    CompletionIsRecordedTheSame(u.spec);
    UpdateRealizesExactlyWhen(cluster, u.api, current, u.spec, isCron, u.configMapFor, w);
  }

  lemma CompletionIsRecordedTheSame(spec: CassandraSpec)
    ensures Effective(Defaulted(spec)) == Effective(spec)
  {
  }

  /** However many updates there were, the StatefulSets realize the last specification. */
  lemma {:induction false} UpdatesRealizeLast(cluster: string, current: CassandraSpec, updates: seq<Update>, isCron: string -> bool, w: World)
    requires Realizes(cluster, w.sets, Effective(current))
    requires AllTakeFullEffect(cluster, current, updates, isCron, w)
    ensures Realizes(cluster, AfterUpdates(cluster, current, updates, isCron, w).sets, Effective(Last(current, updates)))
    decreases |updates|
  {
    if updates != [] {
      UpdateRealizes(cluster, current, updates[0], isCron, w);
      UpdatesRealizeLast(cluster, Defaulted(updates[0].spec), updates[1..], isCron,
                         UpdateBy(cluster, current, updates[0], isCron, w).world);
    }
  }

  lemma {:induction false} CreationsAreAdditions(cluster: string, definition: CassandraSpec, racks: seq<Rack>, configMap: Option<ConfigMap>)
    requires HasProbes(definition)
    ensures CreateRequests(cluster, definition, racks, configMap) ==
            UpdateRequests(cluster, definition, AddChanges(racks), (rack: string) => configMap)
  {
    if racks != [] {
      CreationsAreAdditions(cluster, definition, racks[1..], configMap);
      assert AddChanges(racks)[1..] == AddChanges(racks[1..]);
    }
  }

  /** The base case: a completed creation realizes the specification, and every set is built as it has it. */
  lemma CreationRealizes(cluster: string, api: Api, spec: CassandraSpec, configMap: Option<ConfigMap>, w: World)
    requires UniqueNames(spec.racks)
    requires Run(cluster, api, CreateRequests(cluster, Effective(spec), spec.racks, configMap), w).verdict.Continue?
    ensures Realizes(cluster, Run(cluster, api, CreateRequests(cluster, Effective(spec), spec.racks, configMap), w).world.sets, Effective(spec))
    ensures var after := Run(cluster, api, CreateRequests(cluster, Effective(spec), spec.racks, configMap), w).world.sets;
            forall r :: r in spec.racks ==>
              var name := cluster + "-" + r.name;
              name in after && IsBuilt(cluster, after[name], Effective(spec), r, configMap)
  {
    hide IsBuilt;
    var requests := CreateRequests(cluster, Effective(spec), spec.racks, configMap);
    var after := Run(cluster, api, requests, w).world.sets;
    RunWritesInOrder(cluster, api, requests, w);
    assert requests[..|requests|] == requests;
    CreationsAreAdditions(cluster, Effective(spec), spec.racks, configMap);
    forall r | r in spec.racks
      ensures RealizesRack(At(after, StatefulSetName(cluster, r.name)), r, Effective(spec))
      ensures At(after, StatefulSetName(cluster, r.name)) == Some(BuildStatefulSet(cluster, Effective(spec), r, configMap))
      ensures IsBuilt(cluster, BuildStatefulSet(cluster, Effective(spec), r, configMap), Effective(spec), r, configMap)
    {
      FindRackIsUnique(r, spec.racks);
      AdditionsEffect(cluster, Effective(spec), spec.racks, (rack: string) => configMap, w.sets, r.name);
      BuiltIsAsSpecified(cluster, Effective(spec), r, configMap);
    }
  }

  /** Every old rack is kept, with no fewer replicas. */
  ghost predicate Grows(old_: CassandraSpec, new_: CassandraSpec) {
    && (forall r :: r in old_.racks ==> FindRack(r.name, new_.racks).Some?)
    && NoShrink(old_, new_)
    && new_.pod.bootstrapperImage != ""
  }

  lemma GrowingIsTransitive(old_: CassandraSpec, mid: CassandraSpec, new_: CassandraSpec)
    requires Grows(old_, mid) && Grows(mid, new_)
    requires UniqueNames(old_.racks) && UniqueNames(mid.racks) && UniqueNames(new_.racks)
    ensures Grows(old_, new_)
  {
    MatchedPairs(old_.racks, mid.racks);
    MatchedPairs(mid.racks, new_.racks);
    MatchedPairs(old_.racks, new_.racks);
    forall r | r in old_.racks
      ensures var n := FindRack(r.name, new_.racks); n.Some? && n.value.replicas >= r.replicas
    {
      FindRackFinds(r.name, mid.racks);
      var m := FindRack(r.name, mid.racks).value;
      assert MatchedRack(r, m) in Matched(old_.racks, mid.racks);
      var n := FindRack(m.name, new_.racks).value;
      assert MatchedRack(m, n) in Matched(mid.racks, new_.racks);
    }
  }

  /** Same replicas and pod settings. */
  predicate AgreeOnSpec(a: Option<StatefulSet>, b: Option<StatefulSet>) {
    a.Some? == b.Some? && (a.Some? ==> a.value.replicas == b.value.replicas && a.value.settings == b.value.settings)
  }

  /** A completed update, and what it led to: the parts of `UpdateReachesTarget` for one rack name. */
  lemma ReachedSets(cluster: string, current: CassandraSpec, u: Update, isCron: string -> bool, w: World, name: string, after: Sets)
    requires Comparable(current, u.spec) && Realizes(cluster, w.sets, Effective(current)) && Grows(current, u.spec)
    requires Completes(cluster, current, u, isCron, w, after)
    ensures At(after, StatefulSetName(cluster, name)) ==
            Expected(cluster, current, u.spec, u.configMapFor, name, At(w.sets, StatefulSetName(cluster, name)))
    ensures Realizes(cluster, after, Effective(Defaulted(u.spec)))
    ensures FindRack(name, current.racks).Some? ==> FindRack(name, u.spec.racks).Some?
  {
    UpdateReachesTarget(cluster, u.api, current, u.spec, isCron, u.configMapFor, w, name);
    UpdateRealizes(cluster, current, u, isCron, w);
    FindRackFinds(name, current.racks);
  }

  lemma CompletedIsComparable(mid: CassandraSpec, last: CassandraSpec)
    requires UniqueNames(mid.racks) && UniqueNames(last.racks) && Grows(mid, last)
    ensures Comparable(Defaulted(mid), last) && Grows(Defaulted(mid), last) && Defaulted(mid).racks == mid.racks
  {
  }

  predicate Completes(cluster: string, current: CassandraSpec, u: Update, isCron: string -> bool, w: World, after: Sets) {
    UpdateBy(cluster, current, u, isCron, w).verdict.Continue? && UpdateBy(cluster, current, u, isCron, w).world.sets == after
  }

  /**
   * Growing step by step leads where growing at once does: the same replicas and settings
   * everywhere, and the very same StatefulSets for the racks there were at the start.
   */
  lemma StepwiseEqualsDirect(cluster: string, old_: CassandraSpec, mid: Update, last: Update, direct: Update, isCron: string -> bool,
                             start: World, middle: World, stepwise: Sets, once: Sets, name: string)
    requires direct.spec == last.spec && Grows(old_, mid.spec) && Grows(mid.spec, last.spec)
    requires Comparable(old_, mid.spec) && UniqueNames(last.spec.racks) && Realizes(cluster, start.sets, Effective(old_))
    requires Completes(cluster, old_, mid, isCron, start, middle.sets)
    requires Completes(cluster, Defaulted(mid.spec), last, isCron, middle, stepwise)
    requires Completes(cluster, old_, direct, isCron, start, once)
    ensures var key := StatefulSetName(cluster, name);
            && AgreeOnSpec(At(stepwise, key), At(once, key))
            && (FindRack(name, old_.racks).Some? || FindRack(name, last.spec.racks).None? ==> At(stepwise, key) == At(once, key))
  {
    GrowingIsTransitive(old_, mid.spec, last.spec);
    CompletedIsComparable(mid.spec, last.spec);
    ReachedSets(cluster, old_, mid, isCron, start, name, middle.sets);
    ReachedSets(cluster, Defaulted(mid.spec), last, isCron, middle, name, stepwise);
    ReachedSets(cluster, old_, direct, isCron, start, name, once);
    TargetsAgree(cluster, old_, mid, last, direct.configMapFor, start.sets, middle.sets, stepwise, once, name);
  }

  lemma TargetsAgree(cluster: string, old_: CassandraSpec, mid: Update, last: Update, direct: string -> Option<ConfigMap>,
                     before: Sets, middle: Sets, stepwise: Sets, once: Sets, name: string)
    requires FindRack(name, old_.racks).Some? ==> FindRack(name, mid.spec.racks).Some?
    requires FindRack(name, mid.spec.racks).Some? ==> FindRack(name, last.spec.racks).Some?
    requires var key := StatefulSetName(cluster, name);
             && At(middle, key) == Expected(cluster, old_, mid.spec, mid.configMapFor, name, At(before, key))
             && At(stepwise, key) == Expected(cluster, Defaulted(mid.spec), last.spec, last.configMapFor, name, At(middle, key))
             && At(once, key) == Expected(cluster, old_, last.spec, direct, name, At(before, key))
    requires Realizes(cluster, stepwise, Effective(Defaulted(last.spec))) && Realizes(cluster, once, Effective(Defaulted(last.spec)))
    ensures var key := StatefulSetName(cluster, name);
            && AgreeOnSpec(At(stepwise, key), At(once, key))
            && (FindRack(name, old_.racks).Some? || FindRack(name, last.spec.racks).None? ==> At(stepwise, key) == At(once, key))
  {
    if FindRack(name, last.spec.racks).Some? {
      BothRealize(cluster, stepwise, once, Effective(Defaulted(last.spec)), name);
    }
    if FindRack(name, old_.racks).Some? || FindRack(name, last.spec.racks).None? {
      StepsKeepTheRest(cluster, old_, mid.spec, last.spec, name, mid.configMapFor, last.configMapFor, direct,
                       At(before, StatefulSetName(cluster, name)));
    }
  }

  lemma BothRealize(cluster: string, a: Sets, b: Sets, spec: CassandraSpec, name: string)
    requires HasProbes(spec) && Realizes(cluster, a, spec) && Realizes(cluster, b, spec) && FindRack(name, spec.racks).Some?
    ensures AgreeOnSpec(At(a, StatefulSetName(cluster, name)), At(b, StatefulSetName(cluster, name)))
  {
    FindRackFinds(name, spec.racks);
    var rack := FindRack(name, spec.racks).value;
    assert RealizesRack(At(a, StatefulSetName(cluster, rack.name)), rack, spec);
    assert RealizesRack(At(b, StatefulSetName(cluster, rack.name)), rack, spec);
  }

  /** Apart from replicas and settings, updates of a rack that exists leave its StatefulSet alone. */
  lemma StepsKeepTheRest(cluster: string, old_: CassandraSpec, mid: CassandraSpec, last: CassandraSpec, name: string,
                         first: string -> Option<ConfigMap>, second: string -> Option<ConfigMap>, direct: string -> Option<ConfigMap>,
                         before: Option<StatefulSet>)
    requires FindRack(name, old_.racks).Some? || FindRack(name, last.racks).None?
    requires FindRack(name, old_.racks).Some? ==> FindRack(name, mid.racks).Some?
    requires FindRack(name, mid.racks).Some? ==> FindRack(name, last.racks).Some?
    ensures var stepwise := Expected(cluster, Defaulted(mid), last, second, name, Expected(cluster, old_, mid, first, name, before));
            var once := Expected(cluster, old_, last, direct, name, before);
            && stepwise.Some? == once.Some?
            && (AgreeOnSpec(stepwise, once) ==> stepwise == once)
  {
  }

  // ---------- ConfigMaps that come and go

  datatype ConfigEvent = ConfigAdded(configMap: ConfigMap) | ConfigUpdated(hash: string) | ConfigDeleted

  /** A ConfigMap event, with the answers of the API while it is handled. */
  datatype ConfigStep = ConfigStep(event: ConfigEvent, api: Api)

  /** What the add, update and delete operations do to the StatefulSet of each rack. */
  function ChangeFor(event: ConfigEvent): Change {
    match event
    case ConfigAdded(configMap) => AddConfig(configMap)
    case ConfigUpdated(hash) => HashPatch(hash)
    case ConfigDeleted => RemoveConfig
  }

  lemma {:induction false} EachRackEffect(cluster: string, racks: seq<Rack>, change: Change, sets: Sets, key: string)
    requires UniqueNames(racks) && !change.Patch?
    ensures At(EffectOfAll(cluster, EachRack(cluster, racks, change), sets), key) ==
            if key in sets && HasSetNamed(cluster, racks, key) then Some(ApplyChange(cluster, change, sets[key])) else At(sets, key)
  {
    if racks != [] {
      var requests := EachRack(cluster, racks, change);
      assert requests[1..] == EachRack(cluster, racks[1..], change);
      EachRackEffect(cluster, racks[1..], change, Effect(cluster, requests[0], sets), key);
      FirstOrRest(cluster, racks, key);
    }
  }

  lemma FirstOrRest(cluster: string, racks: seq<Rack>, key: string)
    requires racks != [] && UniqueNames(racks)
    ensures HasSetNamed(cluster, racks, key) <==> key == StatefulSetName(cluster, racks[0].name) || HasSetNamed(cluster, racks[1..], key)
    ensures HasSetNamed(cluster, racks[1..], key) ==> key != StatefulSetName(cluster, racks[0].name)
  {
    if HasSetNamed(cluster, racks[1..], key) {
      var i :| 0 <= i < |racks[1..]| && key == StatefulSetName(cluster, racks[1..][i].name);
      assert racks[1..][i] == racks[i + 1];
      StatefulSetNameIsInjective(cluster, racks[0].name, racks[i + 1].name);
    }
    forall i | 0 < i < |racks| && key == StatefulSetName(cluster, racks[i].name)
      ensures HasSetNamed(cluster, racks[1..], key)
    {
      assert racks[1..][i - 1] == racks[i];
    }
  }

  predicate HasSetNamed(cluster: string, racks: seq<Rack>, key: string) {
    exists i :: 0 <= i < |racks| && key == StatefulSetName(cluster, racks[i].name)
  }

  function AfterConfigEvents(cluster: string, racks: seq<Rack>, steps: seq<ConfigStep>, w: World): World
    decreases |steps|
  {
    if steps == [] then w
    else AfterConfigEvents(cluster, racks, steps[1..], AfterConfigEvent(cluster, racks, steps[0], w).world)
  }

  function AfterConfigEvent(cluster: string, racks: seq<Rack>, step: ConfigStep, w: World): Outcome {
    Run(cluster, step.api, EachRack(cluster, racks, ChangeFor(step.event)), w)
  }

  predicate ConfigEventsComplete(cluster: string, racks: seq<Rack>, steps: seq<ConfigStep>, w: World)
    decreases |steps|
  {
    steps == [] ||
    (var o := AfterConfigEvent(cluster, racks, steps[0], w);
     o.verdict.Continue? && ConfigEventsComplete(cluster, racks, steps[1..], o.world))
  }

  /** A ConfigMap is added when there is none, and updated or deleted when there is one. */
  predicate Alternate(current: Option<ConfigMap>, steps: seq<ConfigStep>)
    decreases |steps|
  {
    steps == [] || ((steps[0].event.ConfigAdded? <==> current.None?) && Alternate(NextConfig(current, steps[0].event), steps[1..]))
  }

  function NextConfig(current: Option<ConfigMap>, event: ConfigEvent): Option<ConfigMap> {
    match event
    case ConfigAdded(configMap) => Some(configMap)
    case ConfigUpdated(hash) => if current.None? then None else Some(current.value.(hash := hash))
    case ConfigDeleted => None
  }

  function LastConfig(current: Option<ConfigMap>, steps: seq<ConfigStep>): Option<ConfigMap>
    decreases |steps|
  {
    if steps == [] then current else LastConfig(NextConfig(current, steps[0].event), steps[1..])
  }

  /** The template is the plain one with the ConfigMap mounted, or just the plain one. */
  predicate Mounts(cluster: string, t: PodTemplate, plain: PodTemplate, current: Option<ConfigMap>) {
    if current.None? then t.SameAs(plain) else t == WithCustomConfig(cluster, current.value, plain)
  }

  ghost predicate IsPlain(cluster: string, t: PodTemplate) {
    NoCustomConfig(cluster, t) && AtMostOneBootstrapper(t.initContainers)
  }

  lemma ConfigEventOnTemplate(cluster: string, t: PodTemplate, plain: PodTemplate, current: Option<ConfigMap>, event: ConfigEvent, set_: StatefulSet)
    requires IsPlain(cluster, plain) && Mounts(cluster, t, plain, current) && (event.ConfigAdded? <==> current.None?)
    requires set_.template == t
    ensures var changed := ApplyChange(cluster, ChangeFor(event), set_);
            Mounts(cluster, changed.template, plain, NextConfig(current, event)) && changed == set_.(template := changed.template)
  {
    match event {
      case ConfigAdded(configMap) =>
        assert WithCustomConfig(cluster, configMap, t) == WithCustomConfig(cluster, configMap, plain);
      case ConfigUpdated(hash) =>
        var before := plain.AnnotationMap();
        assert before[CONFIG_HASH_ANNOTATION := current.value.hash][CONFIG_HASH_ANNOTATION := hash] == before[CONFIG_HASH_ANNOTATION := hash];
      case ConfigDeleted =>
        AddThenRemove(cluster, current.value, plain);
    }
  }

  /** A StatefulSet that differs from the one there was at first only in the mounted ConfigMap. */
  predicate OnlyConfigDiffers(cluster: string, set_: Option<StatefulSet>, first: Option<StatefulSet>, current: Option<ConfigMap>) {
    set_.Some? && first.Some? &&
    set_.value == first.value.(template := set_.value.template) && Mounts(cluster, set_.value.template, first.value.template, current)
  }

  /** A template in which a ConfigMap is mounted refers to it; one without has no trace of any. */
  lemma MountedTemplate(cluster: string, t: PodTemplate, plain: PodTemplate, current: Option<ConfigMap>)
    requires IsPlain(cluster, plain) && Mounts(cluster, t, plain, current)
    ensures if current.Some? then ConfigIsMounted(cluster, current.value, t) else NoCustomConfig(cluster, t)
    ensures MountsResolve(plain) ==> MountsResolve(t)
  {
    if current.Some? {
      AddedConfigIsMounted(cluster, current.value, plain);
    } else if MountsResolve(plain) {
      forall c, m | c in t.initContainers && m in c.mounts
        ensures HasVolume(t, m.name)
      {
        assert HasVolume(plain, m.name);
      }
    }
  }

  /**
   * Whatever ConfigMaps have come, changed and gone, the StatefulSet of each rack mounts the
   * current one with its current hash, exactly as if it had been added to the original
   * template, or is back to that template if there is none; no other StatefulSet changes.
   */
  lemma {:induction false} ConfigMapsComeAndGo(cluster: string, racks: seq<Rack>, steps: seq<ConfigStep>, current: Option<ConfigMap>,
                                               first: Sets, w: World, key: string)
    requires UniqueNames(racks) && Alternate(current, steps) && ConfigEventsComplete(cluster, racks, steps, w)
    requires HasSetNamed(cluster, racks, key) ==>
               OnlyConfigDiffers(cluster, At(w.sets, key), At(first, key), current) && IsPlain(cluster, first[key].template)
    ensures var after := AfterConfigEvents(cluster, racks, steps, w).sets;
            if HasSetNamed(cluster, racks, key) then OnlyConfigDiffers(cluster, At(after, key), At(first, key), LastConfig(current, steps))
            else At(after, key) == At(w.sets, key)
    decreases |steps|
  {
    if steps != [] {
      var requests := EachRack(cluster, racks, ChangeFor(steps[0].event));
      var next := AfterConfigEvent(cluster, racks, steps[0], w).world;
      RunWritesInOrder(cluster, steps[0].api, requests, w);
      assert requests[..|requests|] == requests;
      EachRackEffect(cluster, racks, ChangeFor(steps[0].event), w.sets, key);
      if HasSetNamed(cluster, racks, key) {
        ConfigEventOnTemplate(cluster, w.sets[key].template, first[key].template, current, steps[0].event, w.sets[key]);
      }
      ConfigMapsComeAndGo(cluster, racks, steps[1..], NextConfig(current, steps[0].event), first, next, key);
    }
  }
  /** So the bootstrapper of each rack finds the files of the current ConfigMap, under its current hash, or none at all. */
  lemma CurrentConfigIsMounted(cluster: string, racks: seq<Rack>, steps: seq<ConfigStep>, current: Option<ConfigMap>,
                               first: Sets, w: World, key: string)
    requires UniqueNames(racks) && Alternate(current, steps) && ConfigEventsComplete(cluster, racks, steps, w)
    requires HasSetNamed(cluster, racks, key)
    requires OnlyConfigDiffers(cluster, At(w.sets, key), At(first, key), current) && IsPlain(cluster, first[key].template)
    ensures var after := AfterConfigEvents(cluster, racks, steps, w).sets;
            && key in after
            && (if LastConfig(current, steps).Some? then ConfigIsMounted(cluster, LastConfig(current, steps).value, after[key].template)
                else NoCustomConfig(cluster, after[key].template))
            && (MountsResolve(first[key].template) ==> MountsResolve(after[key].template))
            && after[key].replicas == first[key].replicas && after[key].settings == first[key].settings
            && after[key].creation == first[key].creation
  {
    ConfigMapsComeAndGo(cluster, racks, steps, current, first, w, key);
    MountedTemplate(cluster, AfterConfigEvents(cluster, racks, steps, w).sets[key].template, first[key].template, LastConfig(current, steps));
  }
}
