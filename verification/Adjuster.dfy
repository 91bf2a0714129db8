/**
 * The change planner: it compares two specifications and produces the ordered changes that
 * lead from the StatefulSets of the one to those of the other.
 */
module Adjuster {
  import opened Wrappers
  import opened Sequences
  import opened ClusterSpec
  import opened StatefulSets

  datatype ChangeType = AddRack | DeleteRack | ScaleDownRack | UpdateRack

  datatype RackPatch = NoPatch | ScaleDownPatch(nodes: int) | SpecPatch(change: Change)

  datatype ClusterChange = ClusterChange(rack: Rack, changeType: ChangeType, patch: RackPatch)

  datatype MatchedRack = MatchedRack(old_: Rack, new_: Rack)

  datatype Forbidden = ChangedDC | ChangedImage | ChangedUseEmptyDir | ChangedStorageClass(rack: string) | ChangedZone(rack: string)

  /** The first rack with the name. */
  function FindRack(name: string, racks: seq<Rack>): Option<Rack> {
    if racks == [] then None
    else if racks[0].name == name then Some(racks[0])
    else FindRack(name, racks[1..])
  }

  function Matched(olds: seq<Rack>, news: seq<Rack>): seq<MatchedRack> {
    if olds == [] then []
    else
      var found := FindRack(olds[0].name, news);
      (if found.Some? then [MatchedRack(olds[0], found.value)] else []) + Matched(olds[1..], news)
  }

  /** The racks of `racks` whose names do not occur in `others`. */
  function Unmatched(racks: seq<Rack>, others: seq<Rack>): seq<Rack> {
    if racks == [] then []
    else (if FindRack(racks[0].name, others).None? then [racks[0]] else []) + Unmatched(racks[1..], others)
  }

  function ScaledDown(matched: seq<MatchedRack>): seq<MatchedRack> {
    if matched == [] then []
    else (if matched[0].new_.replicas < matched[0].old_.replicas then [matched[0]] else []) + ScaledDown(matched[1..])
  }

  function ScaledUp(matched: seq<MatchedRack>): seq<Rack> {
    if matched == [] then []
    else (if matched[0].new_.replicas > matched[0].old_.replicas then [matched[0].new_] else []) + ScaledUp(matched[1..])
  }

  function NewRacks(matched: seq<MatchedRack>): seq<Rack> {
    if matched == [] then [] else [matched[0].new_] + NewRacks(matched[1..])
  }

  function OldRacks(matched: seq<MatchedRack>): seq<Rack> {
    if matched == [] then [] else [matched[0].old_] + OldRacks(matched[1..])
  }

  predicate PodSpecHasChanged(old_: CassandraSpec, new_: CassandraSpec) {
    || old_.pod.cpu != new_.pod.cpu
    || old_.pod.memory != new_.pod.memory
    || old_.pod.livenessProbe != new_.pod.livenessProbe
    || old_.pod.readinessProbe != new_.pod.readinessProbe
    || old_.pod.bootstrapperImage != new_.pod.bootstrapperImage
  }

  function ForbiddenRackChange(matched: seq<MatchedRack>): Option<Forbidden> {
    if matched == [] then None
    else if matched[0].new_.storageClass != matched[0].old_.storageClass then Some(ChangedStorageClass(matched[0].old_.name))
    else if matched[0].new_.zone != matched[0].old_.zone then Some(ChangedZone(matched[0].old_.name))
    else ForbiddenRackChange(matched[1..])
  }

  function ForbiddenChange(old_: CassandraSpec, new_: CassandraSpec, matched: seq<MatchedRack>): Option<Forbidden> {
    if old_.dc != new_.dc then Some(ChangedDC)
    else if old_.pod.image != new_.pod.image then Some(ChangedImage)
    else if old_.useEmptyDir != new_.useEmptyDir then Some(ChangedUseEmptyDir)
    else ForbiddenRackChange(matched)
  }

  /** Go's 32-bit subtraction. */
  function Minus32(a: int, b: int): int {
    (a - b + 0x8000_0000) % 0x1_0000_0000 - 0x8000_0000
  }

  function AddChanges(racks: seq<Rack>): seq<ClusterChange> {
    if racks == [] then [] else [ClusterChange(racks[0], AddRack, NoPatch)] + AddChanges(racks[1..])
  }

  function DeleteChanges(racks: seq<Rack>): seq<ClusterChange> {
    if racks == [] then [] else [ClusterChange(racks[0], DeleteRack, NoPatch)] + DeleteChanges(racks[1..])
  }

  function ScaleDownChanges(scaledDown: seq<MatchedRack>): seq<ClusterChange> {
    if scaledDown == [] then []
    else
      var nodes := Minus32(scaledDown[0].old_.replicas, scaledDown[0].new_.replicas);
      [ClusterChange(scaledDown[0].new_, ScaleDownRack, ScaleDownPatch(nodes))] + ScaleDownChanges(scaledDown[1..])
  }

  function UpdateChange(rack: Rack, spec: CassandraSpec): ClusterChange
    requires HasProbes(spec)
  {
    ClusterChange(rack, UpdateRack, SpecPatch(Patch(rack.replicas, SettingsOf(spec))))
  }

  function UpdateChanges(racks: seq<Rack>, spec: CassandraSpec): seq<ClusterChange>
    requires HasProbes(spec)
  {
    if racks == [] then [] else [UpdateChange(racks[0], spec)] + UpdateChanges(racks[1..], spec)
  }

  function UpdatedRacks(old_: CassandraSpec, new_: CassandraSpec): seq<Rack> {
    var matched := Matched(old_.racks, new_.racks);
    if PodSpecHasChanged(old_, new_) then NewRacks(matched) else ScaledUp(matched)
  }

  /** The plan, in its four phases. */
  function Plan(old_: CassandraSpec, new_: CassandraSpec): Result<seq<ClusterChange>, Forbidden>
    requires HasProbes(new_)
  {
    var matched := Matched(old_.racks, new_.racks);
    if ForbiddenChange(old_, new_, matched).Some? then Failure(ForbiddenChange(old_, new_, matched).value)
    else
      Success(AddChanges(Unmatched(new_.racks, old_.racks)) +
              DeleteChanges(Unmatched(old_.racks, new_.racks)) +
              ScaleDownChanges(ScaledDown(matched)) +
              UpdateChanges(UpdatedRacks(old_, new_), new_))
  }

  // ---------- The loops that build it

  method MatchRacks(olds: seq<Rack>, news: seq<Rack>)
    returns (addedRacks: seq<Rack>, matchedRacks: seq<MatchedRack>, removedRacks: seq<Rack>)
    ensures addedRacks == Unmatched(news, olds)
    ensures matchedRacks == Matched(olds, news)
    ensures removedRacks == Unmatched(olds, news)
  {
    removedRacks, matchedRacks := [], [];
    for i := 0 to |olds|
      invariant matchedRacks + Matched(olds[i..], news) == Matched(olds, news)
      invariant removedRacks + Unmatched(olds[i..], news) == Unmatched(olds, news)
    {
      assert olds[i..][1..] == olds[i + 1..];
      var found := FindRack(olds[i].name, news);
      Shift(matchedRacks, if found.Some? then [MatchedRack(olds[i], found.value)] else [], Matched(olds[i + 1..], news), Matched(olds, news));
      Shift(removedRacks, if found.None? then [olds[i]] else [], Unmatched(olds[i + 1..], news), Unmatched(olds, news));
      if found.Some? {
        matchedRacks := matchedRacks + [MatchedRack(olds[i], found.value)];
        assert removedRacks + [] == removedRacks;
      } else {
        removedRacks := removedRacks + [olds[i]];
        assert matchedRacks + [] == matchedRacks;
      }
    }
    addedRacks := AddedRacks(olds, news);
  }

  method AddedRacks(olds: seq<Rack>, news: seq<Rack>) returns (addedRacks: seq<Rack>)
    ensures addedRacks == Unmatched(news, olds)
  {
    addedRacks := [];
    for i := 0 to |news|
      invariant addedRacks + Unmatched(news[i..], olds) == Unmatched(news, olds)
    {
      assert news[i..][1..] == news[i + 1..];
      var isNew := FindRack(news[i].name, olds).None?;
      Shift(addedRacks, if isNew then [news[i]] else [], Unmatched(news[i + 1..], olds), Unmatched(news, olds));
      if isNew {
        addedRacks := addedRacks + [news[i]];
      } else {
        assert addedRacks + [] == addedRacks;
      }
    }
  }

  method ScaledDownRacks(matched: seq<MatchedRack>) returns (scaledDown: seq<MatchedRack>)
    ensures scaledDown == ScaledDown(matched)
  {
    scaledDown := [];
    for i := 0 to |matched|
      invariant scaledDown + ScaledDown(matched[i..]) == ScaledDown(matched)
    {
      assert matched[i..][1..] == matched[i + 1..];
      var isSmaller := matched[i].new_.replicas < matched[i].old_.replicas;
      Shift(scaledDown, if isSmaller then [matched[i]] else [], ScaledDown(matched[i + 1..]), ScaledDown(matched));
      if isSmaller {
        scaledDown := scaledDown + [matched[i]];
      } else {
        assert scaledDown + [] == scaledDown;
      }
    }
  }

  method ScaledUpRacks(matched: seq<MatchedRack>) returns (scaledUp: seq<Rack>)
    ensures scaledUp == ScaledUp(matched)
  {
    scaledUp := [];
    for i := 0 to |matched|
      invariant scaledUp + ScaledUp(matched[i..]) == ScaledUp(matched)
    {
      assert matched[i..][1..] == matched[i + 1..];
      var isLarger := matched[i].new_.replicas > matched[i].old_.replicas;
      Shift(scaledUp, if isLarger then [matched[i].new_] else [], ScaledUp(matched[i + 1..]), ScaledUp(matched));
      if isLarger {
        scaledUp := scaledUp + [matched[i].new_];
      } else {
        assert scaledUp + [] == scaledUp;
      }
    }
  }

  method EnsureChangeIsAllowed(old_: CassandraSpec, new_: CassandraSpec, matched: seq<MatchedRack>) returns (error: Option<Forbidden>)
    ensures error == ForbiddenChange(old_, new_, matched)
  {
    if old_.dc != new_.dc {
      return Some(ChangedDC);
    }
    if old_.pod.image != new_.pod.image {
      return Some(ChangedImage);
    }
    if old_.useEmptyDir != new_.useEmptyDir {
      return Some(ChangedUseEmptyDir);
    }
    for i := 0 to |matched|
      invariant ForbiddenRackChange(matched[i..]) == ForbiddenRackChange(matched)
    {
      assert matched[i..][1..] == matched[i + 1..];
      if matched[i].new_.storageClass != matched[i].old_.storageClass {
        return Some(ChangedStorageClass(matched[i].old_.name));
      }
      if matched[i].new_.zone != matched[i].old_.zone {
        return Some(ChangedZone(matched[i].old_.name));
      }
    }
    return None;
  }

  method ChangesForCluster(old_: CassandraSpec, new_: CassandraSpec) returns (result: Result<seq<ClusterChange>, Forbidden>)
    requires HasProbes(new_)
    ensures result == Plan(old_, new_)
  {
    var addedRacks, matchedRacks, deletedRacks := MatchRacks(old_.racks, new_.racks);
    var error := EnsureChangeIsAllowed(old_, new_, matchedRacks);
    if error.Some? {
      return Failure(error.value);
    }
    var clusterChanges := AdditionsFor(addedRacks);
    var deletions := DeletionsFor(deletedRacks);
    clusterChanges := clusterChanges + deletions;
    var scaledDown := ScaledDownRacks(matchedRacks);
    var scaleDowns := ScaleDownsFor(scaledDown);
    clusterChanges := clusterChanges + scaleDowns;
    var updates: seq<ClusterChange>;
    if PodSpecHasChanged(old_, new_) {
      updates := UpdatesForMatched(matchedRacks, new_);
    } else {
      var scaledUp := ScaledUpRacks(matchedRacks);
      updates := UpdatesForRacks(scaledUp, new_);
    }
    return Success(clusterChanges + updates);
  }

  method AdditionsFor(racks: seq<Rack>) returns (changes: seq<ClusterChange>)
    ensures changes == AddChanges(racks)
  {
    changes := [];
    for i := 0 to |racks|
      invariant changes + AddChanges(racks[i..]) == AddChanges(racks)
    {
      assert racks[i..][1..] == racks[i + 1..];
      changes := changes + [ClusterChange(racks[i], AddRack, NoPatch)];
    }
  }

  method DeletionsFor(racks: seq<Rack>) returns (changes: seq<ClusterChange>)
    ensures changes == DeleteChanges(racks)
  {
    changes := [];
    for i := 0 to |racks|
      invariant changes + DeleteChanges(racks[i..]) == DeleteChanges(racks)
    {
      assert racks[i..][1..] == racks[i + 1..];
      changes := changes + [ClusterChange(racks[i], DeleteRack, NoPatch)];
    }
  }

  method ScaleDownsFor(scaledDown: seq<MatchedRack>) returns (changes: seq<ClusterChange>)
    ensures changes == ScaleDownChanges(scaledDown)
  {
    changes := [];
    for i := 0 to |scaledDown|
      invariant changes + ScaleDownChanges(scaledDown[i..]) == ScaleDownChanges(scaledDown)
    {
      assert scaledDown[i..][1..] == scaledDown[i + 1..];
      var nodes := Minus32(scaledDown[i].old_.replicas, scaledDown[i].new_.replicas);
      changes := changes + [ClusterChange(scaledDown[i].new_, ScaleDownRack, ScaleDownPatch(nodes))];
    }
  }

  method UpdatesForMatched(matched: seq<MatchedRack>, spec: CassandraSpec) returns (changes: seq<ClusterChange>)
    requires HasProbes(spec)
    ensures changes == UpdateChanges(NewRacks(matched), spec)
  {
    changes := [];
    for i := 0 to |matched|
      invariant changes + UpdateChanges(NewRacks(matched[i..]), spec) == UpdateChanges(NewRacks(matched), spec)
    {
      assert matched[i..][1..] == matched[i + 1..];
      assert NewRacks(matched[i..])[1..] == NewRacks(matched[i + 1..]);
      changes := changes + [UpdateChange(matched[i].new_, spec)];
    }
  }

  method UpdatesForRacks(racks: seq<Rack>, spec: CassandraSpec) returns (changes: seq<ClusterChange>)
    requires HasProbes(spec)
    ensures changes == UpdateChanges(racks, spec)
  {
    changes := [];
    for i := 0 to |racks|
      invariant changes + UpdateChanges(racks[i..], spec) == UpdateChanges(racks, spec)
    {
      assert racks[i..][1..] == racks[i + 1..];
      changes := changes + [UpdateChange(racks[i], spec)];
    }
  }

  // ---------- Finding racks

  ghost predicate UniqueNames(racks: seq<Rack>) {
    forall i, j :: 0 <= i < j < |racks| ==> racks[i].name != racks[j].name
  }

  ghost predicate Named(racks: seq<Rack>, name: string) {
    exists i :: 0 <= i < |racks| && racks[i].name == name
  }

  lemma {:induction false} FindRackFinds(name: string, racks: seq<Rack>)
    ensures FindRack(name, racks).Some? <==> Named(racks, name)
    ensures FindRack(name, racks).Some? ==> FindRack(name, racks).value in racks && FindRack(name, racks).value.name == name
  {
    if racks != [] && racks[0].name != name {
      FindRackFinds(name, racks[1..]);
      if Named(racks, name) {
        var i :| 0 <= i < |racks| && racks[i].name == name;
        assert racks[1..][i - 1].name == name;
      }
      if Named(racks[1..], name) {
        var i :| 0 <= i < |racks[1..]| && racks[1..][i].name == name;
        assert racks[i + 1].name == name;
      }
    }
  }

  lemma {:induction false} FindRackIsUnique(rack: Rack, racks: seq<Rack>)
    requires UniqueNames(racks) && rack in racks
    ensures FindRack(rack.name, racks) == Some(rack)
  {
    if racks[0] != rack {
      var i :| 0 <= i < |racks| && racks[i] == rack;
      assert rack in racks[1..];
      FindRackIsUnique(rack, racks[1..]);
    }
  }

  // ---------- Conservation

  lemma MatchedCons(m: MatchedRack, rest: seq<MatchedRack>)
    ensures OldRacks([m] + rest) == [m.old_] + OldRacks(rest)
    ensures NewRacks([m] + rest) == [m.new_] + NewRacks(rest)
    ensures ScaledDown([m] + rest) == (if m.new_.replicas < m.old_.replicas then [m] else []) + ScaledDown(rest)
    ensures ScaledUp([m] + rest) == (if m.new_.replicas > m.old_.replicas then [m.new_] else []) + ScaledUp(rest)
  {
    assert ([m] + rest)[1..] == rest;
  }

  lemma InsertInEither(x: Rack, a: seq<Rack>, b: seq<Rack>, all: seq<Rack>)
    requires multiset(a) + multiset(b) == multiset(all)
    ensures multiset([x] + a) + multiset(b) == multiset([x] + all)
    ensures multiset(a) + multiset([x] + b) == multiset([x] + all)
  {
    MultisetOfConcat([x], a);
    MultisetOfConcat([x], b);
    MultisetOfConcat([x], all);
  }

  lemma FirstOldRack(olds: seq<Rack>, news: seq<Rack>)
    requires olds != []
    ensures var kept, removed := OldRacks(Matched(olds[1..], news)), Unmatched(olds[1..], news);
            if FindRack(olds[0].name, news).Some?
            then OldRacks(Matched(olds, news)) == [olds[0]] + kept && Unmatched(olds, news) == removed
            else OldRacks(Matched(olds, news)) == kept && Unmatched(olds, news) == [olds[0]] + removed
  {
    var rest, found := Matched(olds[1..], news), FindRack(olds[0].name, news);
    if found.Some? {
      MatchedCons(MatchedRack(olds[0], found.value), rest);
    } else {
      assert Matched(olds, news) == rest;
    }
  }

  /** Every old rack is matched or removed, and none twice. */
  lemma {:induction false} OldRacksAreConserved(olds: seq<Rack>, news: seq<Rack>)
    ensures multiset(OldRacks(Matched(olds, news))) + multiset(Unmatched(olds, news)) == multiset(olds)
  {
    if olds != [] {
      OldRacksAreConserved(olds[1..], news);
      FirstOldRack(olds, news);
      InsertInEither(olds[0], OldRacks(Matched(olds[1..], news)), Unmatched(olds[1..], news), olds[1..]);
      assert olds == [olds[0]] + olds[1..];
    }
  }

  /** Every new rack is matched or added, and none twice. */
  lemma {:induction false} NewRacksAreConserved(olds: seq<Rack>, news: seq<Rack>)
    requires UniqueNames(olds) && UniqueNames(news)
    ensures multiset(NewRacks(Matched(olds, news))) + multiset(Unmatched(news, olds)) == multiset(news)
  {
    if olds == [] {
      AllUnmatched(news);
    } else {
      var rest := Matched(olds[1..], news);
      NewRacksAreConserved(olds[1..], news);
      var found := FindRack(olds[0].name, news);
      FindRackFinds(olds[0].name, news);
      if found.Some? {
        var m := MatchedRack(olds[0], found.value);
        MatchedCons(m, rest);
        NotNamedInRest(olds);
        OneFewerUnmatched(olds, news);
        MultisetOfConcat([found.value], NewRacks(rest));
      } else {
        assert Matched(olds, news) == rest;
        SameUnmatched(olds, news);
      }
    }
  }

  lemma {:induction false} AllUnmatched(racks: seq<Rack>)
    ensures Unmatched(racks, []) == racks
  {
    if racks != [] {
      AllUnmatched(racks[1..]);
    }
  }

  lemma NotNamedInRest(racks: seq<Rack>)
    requires racks != [] && UniqueNames(racks)
    ensures FindRack(racks[0].name, racks[1..]).None?
  {
    FindRackFinds(racks[0].name, racks[1..]);
    assert forall i :: 0 <= i < |racks[1..]| ==> racks[1..][i] == racks[i + 1];
  }

  lemma {:induction false} SameUnmatched(olds: seq<Rack>, news: seq<Rack>)
    requires olds != [] && forall i :: 0 <= i < |news| ==> news[i].name != olds[0].name
    ensures Unmatched(news, olds) == Unmatched(news, olds[1..])
  {
    if news != [] {
      SameUnmatched(olds, news[1..]);
    }
  }

  lemma {:induction false} OneFewerUnmatched(olds: seq<Rack>, news: seq<Rack>)
    requires olds != [] && UniqueNames(news)
    requires FindRack(olds[0].name, olds[1..]).None? && FindRack(olds[0].name, news).Some?
    ensures multiset(Unmatched(news, olds[1..])) ==
            multiset(Unmatched(news, olds)) + multiset{FindRack(olds[0].name, news).value}
  {
    var first := [news[0]];
    if news[0].name == olds[0].name {
      SameUnmatched(olds, news[1..]);
      assert Unmatched(news, olds) == [] + Unmatched(news[1..], olds);
      MultisetOfConcat(first, Unmatched(news[1..], olds));
    } else {
      OneFewerUnmatched(olds, news[1..]);
      assert FindRack(news[0].name, olds) == FindRack(news[0].name, olds[1..]);
      MultisetOfConcat(first, Unmatched(news[1..], olds));
      MultisetOfConcat(first, Unmatched(news[1..], olds[1..]));
    }
  }

  /** A change is allowed exactly when what cannot be patched stays the same. */
  lemma {:induction false} AllowedExactlyWhen(old_: CassandraSpec, new_: CassandraSpec, matched: seq<MatchedRack>)
    ensures ForbiddenChange(old_, new_, matched).None? <==>
            && old_.dc == new_.dc && old_.pod.image == new_.pod.image && old_.useEmptyDir == new_.useEmptyDir
            && (forall m :: m in matched ==> m.new_.storageClass == m.old_.storageClass && m.new_.zone == m.old_.zone)
  {
    if matched != [] {
      AllowedExactlyWhen(old_, new_, matched[1..]);
      assert matched == [matched[0]] + matched[1..];
    }
  }

  /** The planner accounts for all racks of both specifications. */
  lemma PlanConservesRacks(old_: CassandraSpec, new_: CassandraSpec)
    requires UniqueNames(old_.racks) && UniqueNames(new_.racks)
    ensures var matched := Matched(old_.racks, new_.racks);
            && multiset(OldRacks(matched)) + multiset(Unmatched(old_.racks, new_.racks)) == multiset(old_.racks)
            && multiset(NewRacks(matched)) + multiset(Unmatched(new_.racks, old_.racks)) == multiset(new_.racks)
            && (forall m :: m in matched ==> m.old_.name == m.new_.name && m.old_ in old_.racks && m.new_ in new_.racks)
  {
    OldRacksAreConserved(old_.racks, new_.racks);
    NewRacksAreConserved(old_.racks, new_.racks);
    MatchedPairs(old_.racks, new_.racks);
  }

  lemma {:induction false} MatchedPairs(olds: seq<Rack>, news: seq<Rack>)
    ensures forall m :: m in Matched(olds, news) <==>
              m.old_ in olds && FindRack(m.old_.name, news) == Some(m.new_)
    ensures forall m :: m in Matched(olds, news) ==> m.old_.name == m.new_.name && m.new_ in news
  {
    if olds != [] {
      MatchedPairs(olds[1..], news);
      FindRackFinds(olds[0].name, news);
      assert olds == [olds[0]] + olds[1..];
    }
  }

  lemma {:induction false} UnmatchedAre(racks: seq<Rack>, others: seq<Rack>)
    ensures forall r :: r in Unmatched(racks, others) <==> r in racks && FindRack(r.name, others).None?
  {
    if racks != [] {
      UnmatchedAre(racks[1..], others);
      assert racks == [racks[0]] + racks[1..];
    }
  }

  // ---------- Order

  function Phase(changeType: ChangeType): nat {
    match changeType case AddRack => 0 case DeleteRack => 1 case ScaleDownRack => 2 case UpdateRack => 3
  }

  /** Position of the first rack with the name, or the number of racks. */
  function RackIndex(name: string, racks: seq<Rack>): nat {
    if racks == [] || racks[0].name == name then 0 else 1 + RackIndex(name, racks[1..])
  }

  /** The racks appear in the order in which `reference` names them. */
  ghost predicate InOrderOf(racks: seq<Rack>, reference: seq<Rack>) {
    forall i, j :: 0 <= i < j < |racks| ==> RackIndex(racks[i].name, reference) < RackIndex(racks[j].name, reference)
  }

  function RacksOf(changes: seq<ClusterChange>, changeType: ChangeType): seq<Rack> {
    if changes == [] then []
    else (if changes[0].changeType == changeType then [changes[0].rack] else []) + RacksOf(changes[1..], changeType)
  }

  lemma {:induction false} RacksOfAppend(a: seq<ClusterChange>, b: seq<ClusterChange>, changeType: ChangeType)
    ensures RacksOf(a + b, changeType) == RacksOf(a, changeType) + RacksOf(b, changeType)
  {
    if a == [] {
      assert a + b == b;
    } else {
      assert (a + b)[1..] == a[1..] + b;
      RacksOfAppend(a[1..], b, changeType);
    }
  }

  lemma {:induction false} AddChangesAre(racks: seq<Rack>, t: ChangeType)
    ensures RacksOf(AddChanges(racks), t) == if t.AddRack? then racks else []
    ensures forall c :: c in AddChanges(racks) ==> c.changeType == AddRack
  {
    if racks != [] {
      AddChangesAre(racks[1..], t);
      assert AddChanges(racks)[1..] == AddChanges(racks[1..]);
    }
  }

  lemma {:induction false} DeleteChangesAre(racks: seq<Rack>, t: ChangeType)
    ensures RacksOf(DeleteChanges(racks), t) == if t.DeleteRack? then racks else []
    ensures forall c :: c in DeleteChanges(racks) ==> c.changeType == DeleteRack
  {
    if racks != [] {
      DeleteChangesAre(racks[1..], t);
      assert DeleteChanges(racks)[1..] == DeleteChanges(racks[1..]);
    }
  }

  lemma {:induction false} ScaleDownChangesAre(scaledDown: seq<MatchedRack>, t: ChangeType)
    ensures RacksOf(ScaleDownChanges(scaledDown), t) == if t.ScaleDownRack? then NewRacks(scaledDown) else []
    ensures forall c :: c in ScaleDownChanges(scaledDown) ==> c.changeType == ScaleDownRack
  {
    if scaledDown != [] {
      ScaleDownChangesAre(scaledDown[1..], t);
      assert ScaleDownChanges(scaledDown)[1..] == ScaleDownChanges(scaledDown[1..]);
    }
  }

  lemma {:induction false} UpdateChangesAre(racks: seq<Rack>, spec: CassandraSpec, t: ChangeType)
    requires HasProbes(spec)
    ensures RacksOf(UpdateChanges(racks, spec), t) == if t.UpdateRack? then racks else []
    ensures forall c :: c in UpdateChanges(racks, spec) ==> c.changeType == UpdateRack
  {
    if racks != [] {
      UpdateChangesAre(racks[1..], spec, t);
      assert UpdateChanges(racks, spec)[1..] == UpdateChanges(racks[1..], spec);
    }
  }

  lemma PlanRacks(old_: CassandraSpec, new_: CassandraSpec)
    requires HasProbes(new_) && Plan(old_, new_).Success?
    ensures var plan := Plan(old_, new_).value;
            && RacksOf(plan, AddRack) == Unmatched(new_.racks, old_.racks)
            && RacksOf(plan, DeleteRack) == Unmatched(old_.racks, new_.racks)
            && RacksOf(plan, ScaleDownRack) == NewRacks(ScaledDown(Matched(old_.racks, new_.racks)))
            && RacksOf(plan, UpdateRack) == UpdatedRacks(old_, new_)
  {
    PlanRacksOf(old_, new_, AddRack);
    PlanRacksOf(old_, new_, DeleteRack);
    PlanRacksOf(old_, new_, ScaleDownRack);
    PlanRacksOf(old_, new_, UpdateRack);
  }

  lemma Minus32Wraps(a: int, b: int)
    ensures -0x8000_0000 <= Minus32(a, b) < 0x8000_0000 && (Minus32(a, b) - (a - b)) % 0x1_0000_0000 == 0
    ensures Minus32(a, b) == a - b <==> -0x8000_0000 <= a - b < 0x8000_0000
  {
  }

  lemma {:induction false} ScaleDownOf(scaledDown: seq<MatchedRack>, c: ClusterChange) returns (m: MatchedRack)
    requires c in ScaleDownChanges(scaledDown)
    ensures m in scaledDown
    ensures c == ClusterChange(m.new_, ScaleDownRack, ScaleDownPatch(Minus32(m.old_.replicas, m.new_.replicas)))
  {
    m := scaledDown[0];
    if c != ScaleDownChanges(scaledDown)[0] {
      m := ScaleDownOf(scaledDown[1..], c);
    }
  }

  lemma {:induction false} ScaledDownShrink(matched: seq<MatchedRack>)
    ensures forall m :: m in ScaledDown(matched) <==> m in matched && m.new_.replicas < m.old_.replicas
  {
    if matched != [] {
      ScaledDownShrink(matched[1..]);
    }
  }

  /**
   * Each scale-down in a plan is that of a matched rack that shrinks, and tells by how many
   * nodes: the difference of the replicas, as a 32-bit number.
   */
  lemma ScaleDownsTellHowMany(old_: CassandraSpec, new_: CassandraSpec, c: ClusterChange) returns (m: MatchedRack)
    requires HasProbes(new_) && Plan(old_, new_).Success?
    requires c in Plan(old_, new_).value && c.changeType.ScaleDownRack?
    ensures m in Matched(old_.racks, new_.racks) && c.rack == m.new_ && m.new_.replicas < m.old_.replicas
    ensures c.patch.ScaleDownPatch? && -0x8000_0000 <= c.patch.nodes < 0x8000_0000
    ensures (c.patch.nodes - (m.old_.replicas - m.new_.replicas)) % 0x1_0000_0000 == 0
    ensures c.patch.nodes == m.old_.replicas - m.new_.replicas <==> m.old_.replicas - m.new_.replicas < 0x8000_0000
  {
    hide Minus32;
    var down := ScaledDown(Matched(old_.racks, new_.racks));
    AddChangesAre(Unmatched(new_.racks, old_.racks), AddRack);
    DeleteChangesAre(Unmatched(old_.racks, new_.racks), AddRack);
    UpdateChangesAre(UpdatedRacks(old_, new_), new_, AddRack);
    assert c in ScaleDownChanges(down);
    m := ScaleDownOf(down, c);
    ScaledDownShrink(Matched(old_.racks, new_.racks));
    Minus32Wraps(m.old_.replicas, m.new_.replicas);
  }

  lemma PlanRacksOf(old_: CassandraSpec, new_: CassandraSpec, t: ChangeType)
    requires HasProbes(new_) && Plan(old_, new_).Success?
    ensures RacksOf(Plan(old_, new_).value, t) ==
            match t
            case AddRack => Unmatched(new_.racks, old_.racks)
            case DeleteRack => Unmatched(old_.racks, new_.racks)
            case ScaleDownRack => NewRacks(ScaledDown(Matched(old_.racks, new_.racks)))
            case UpdateRack => UpdatedRacks(old_, new_)
  {
    var a, d := AddChanges(Unmatched(new_.racks, old_.racks)), DeleteChanges(Unmatched(old_.racks, new_.racks));
    var s := ScaleDownChanges(ScaledDown(Matched(old_.racks, new_.racks)));
    var u := UpdateChanges(UpdatedRacks(old_, new_), new_);
    RacksOfAppend(a + d + s, u, t);
    RacksOfAppend(a + d, s, t);
    RacksOfAppend(a, d, t);
    AddChangesAre(Unmatched(new_.racks, old_.racks), t);
    DeleteChangesAre(Unmatched(old_.racks, new_.racks), t);
    ScaleDownChangesAre(ScaledDown(Matched(old_.racks, new_.racks)), t);
    UpdateChangesAre(UpdatedRacks(old_, new_), new_, t);
  }

  lemma {:induction false} NotNamedComesLast(name: string, racks: seq<Rack>)
    ensures RackIndex(name, racks) <= |racks|
    ensures RackIndex(name, racks) < |racks| <==> Named(racks, name)
  {
    FindRackFinds(name, racks);
    if racks != [] && racks[0].name != name {
      NotNamedComesLast(name, racks[1..]);
      FindRackFinds(name, racks[1..]);
    }
  }

  /** A list of racks drawn from those after the first is in order again with the first in front. */
  lemma InOrderAfter(chosen: seq<Rack>, reference: seq<Rack>)
    requires reference != [] && UniqueNames(reference)
    requires InOrderOf(chosen, reference[1..]) && forall r :: r in chosen ==> Named(reference[1..], r.name)
    ensures InOrderOf(chosen, reference)
    ensures forall r :: r in chosen ==> RackIndex(r.name, reference) > 0 && r.name != reference[0].name
  {
    forall r | r in chosen
      ensures r.name != reference[0].name
    {
      var i :| 0 <= i < |reference[1..]| && reference[1..][i].name == r.name;
      assert reference[i + 1].name == r.name;
    }
  }

  /** Putting the first rack in front of later ones keeps them in order. */
  lemma InOrderCons(first: Rack, chosen: seq<Rack>, reference: seq<Rack>)
    requires reference != [] && UniqueNames(reference) && first.name == reference[0].name
    requires InOrderOf(chosen, reference[1..]) && forall r :: r in chosen ==> Named(reference[1..], r.name)
    ensures InOrderOf([first] + chosen, reference)
  {
    InOrderAfter(chosen, reference);
  }

  lemma {:induction false} MatchedInOrder(olds: seq<Rack>, news: seq<Rack>)
    requires UniqueNames(olds)
    ensures InOrderOf(NewRacks(Matched(olds, news)), olds)
    ensures InOrderOf(NewRacks(ScaledDown(Matched(olds, news))), olds)
    ensures InOrderOf(ScaledUp(Matched(olds, news)), olds)
  {
    if olds != [] {
      var rest := Matched(olds[1..], news);
      var down := ScaledDown(rest);
      MatchedInOrder(olds[1..], news);
      MatchedAreNamed(olds[1..], news);
      InOrderAfter(NewRacks(rest), olds);
      InOrderAfter(NewRacks(down), olds);
      InOrderAfter(ScaledUp(rest), olds);
      var found := FindRack(olds[0].name, news);
      if found.Some? {
        FindRackFinds(olds[0].name, news);
        var m := MatchedRack(olds[0], found.value);
        MatchedCons(m, rest);
        MatchedCons(m, down);
        InOrderCons(m.new_, NewRacks(rest), olds);
        InOrderCons(m.new_, NewRacks(down), olds);
        InOrderCons(m.new_, ScaledUp(rest), olds);
        assert [] + down == down && [] + ScaledUp(rest) == ScaledUp(rest);
      } else {
        assert Matched(olds, news) == rest;
      }
    }
  }

  lemma {:induction false} MatchedAreNamed(olds: seq<Rack>, news: seq<Rack>)
    ensures forall r :: r in NewRacks(Matched(olds, news)) ==> Named(olds, r.name)
    ensures forall r :: r in NewRacks(ScaledDown(Matched(olds, news))) ==> Named(olds, r.name)
    ensures forall r :: r in ScaledUp(Matched(olds, news)) ==> Named(olds, r.name)
  {
    if olds != [] {
      var rest := Matched(olds[1..], news);
      MatchedAreNamed(olds[1..], news);
      forall name | Named(olds[1..], name)
        ensures Named(olds, name)
      {
        var i :| 0 <= i < |olds[1..]| && olds[1..][i].name == name;
        assert olds[i + 1].name == name;
      }
      var found := FindRack(olds[0].name, news);
      if found.Some? {
        FindRackFinds(olds[0].name, news);
        MatchedCons(MatchedRack(olds[0], found.value), rest);
        MatchedCons(MatchedRack(olds[0], found.value), ScaledDown(rest));
        assert Named(olds, olds[0].name) && [] + ScaledDown(rest) == ScaledDown(rest);
      } else {
        assert Matched(olds, news) == rest;
      }
    }
  }

  lemma {:induction false} UnmatchedInOrder(racks: seq<Rack>, others: seq<Rack>)
    requires UniqueNames(racks)
    ensures InOrderOf(Unmatched(racks, others), racks)
    ensures forall r :: r in Unmatched(racks, others) ==> Named(racks, r.name)
  {
    UnmatchedAre(racks, others);
    if racks != [] {
      UnmatchedInOrder(racks[1..], others);
      InOrderAfter(Unmatched(racks[1..], others), racks);
    }
  }

  /**
   * The phases come as add, delete, scale down, update; additions follow the order of the
   * new specification, everything else that of the old one.
   */
  lemma PlanOrder(old_: CassandraSpec, new_: CassandraSpec)
    requires HasProbes(new_) && UniqueNames(old_.racks) && UniqueNames(new_.racks)
    requires Plan(old_, new_).Success?
    ensures var plan := Plan(old_, new_).value;
            && PhasesAscend(plan, Phase(UpdateRack))
            && InOrderOf(RacksOf(plan, AddRack), new_.racks)
            && InOrderOf(RacksOf(plan, DeleteRack), old_.racks)
            && InOrderOf(RacksOf(plan, ScaleDownRack), old_.racks)
            && InOrderOf(RacksOf(plan, UpdateRack), old_.racks)
  {
    PlanRacks(old_, new_);
    UnmatchedInOrder(new_.racks, old_.racks);
    UnmatchedInOrder(old_.racks, new_.racks);
    MatchedInOrder(old_.racks, new_.racks);
    PlanPhases(old_, new_);
  }

  lemma PlanPhases(old_: CassandraSpec, new_: CassandraSpec)
    requires HasProbes(new_) && Plan(old_, new_).Success?
    ensures PhasesAscend(Plan(old_, new_).value, Phase(UpdateRack))
  {
    var a, d := AddChanges(Unmatched(new_.racks, old_.racks)), DeleteChanges(Unmatched(old_.racks, new_.racks));
    var s := ScaleDownChanges(ScaledDown(Matched(old_.racks, new_.racks)));
    var u := UpdateChanges(UpdatedRacks(old_, new_), new_);
    AddChangesAre(Unmatched(new_.racks, old_.racks), AddRack);
    DeleteChangesAre(Unmatched(old_.racks, new_.racks), AddRack);
    ScaleDownChangesAre(ScaledDown(Matched(old_.racks, new_.racks)), AddRack);
    UpdateChangesAre(UpdatedRacks(old_, new_), new_, AddRack);
    FourPhases(a, d, s, u);
  }

  lemma FourPhases(a: seq<ClusterChange>, d: seq<ClusterChange>, s: seq<ClusterChange>, u: seq<ClusterChange>)
    requires forall c :: c in a ==> c.changeType == AddRack
    requires forall c :: c in d ==> c.changeType == DeleteRack
    requires forall c :: c in s ==> c.changeType == ScaleDownRack
    requires forall c :: c in u ==> c.changeType == UpdateRack
    ensures PhasesAscend(a + d + s + u, Phase(UpdateRack))
  {
    ConcatKeepsPhases([], a, 0, 0);
    assert [] + a == a;
    ConcatKeepsPhases(a, d, 0, 1);
    ConcatKeepsPhases(a + d, s, 1, 2);
    ConcatKeepsPhases(a + d + s, u, 2, 3);
  }

  /** No change comes before one of an earlier phase, and none is later than `upTo`. */
  ghost predicate PhasesAscend(changes: seq<ClusterChange>, upTo: nat) {
    && (forall i, j :: 0 <= i < j < |changes| ==> Phase(changes[i].changeType) <= Phase(changes[j].changeType))
    && (forall c :: c in changes ==> Phase(c.changeType) <= upTo)
  }

  lemma ConcatKeepsPhases(a: seq<ClusterChange>, b: seq<ClusterChange>, upTo: nat, next: nat)
    requires PhasesAscend(a, upTo) && upTo <= next
    requires forall c :: c in b ==> Phase(c.changeType) == next
    ensures PhasesAscend(a + b, next)
  {
    forall i | 0 <= i < |a + b|
      ensures (a + b)[i] in a || (a + b)[i] in b
    {
      assert i < |a| ==> (a + b)[i] == a[i];
    }
  }

  // ---------- No change

  /**
   * Comparing a specification with itself plans nothing exactly when racks that share a name
   * are identical, so in particular when names are unique.
   */
  lemma SelfPlanIsEmpty(spec: CassandraSpec)
    requires HasProbes(spec)
    ensures Plan(spec, spec) == Success([]) <==> forall r :: r in spec.racks ==> FindRack(r.name, spec.racks) == Some(r)
  {
    if forall r :: r in spec.racks ==> FindRack(r.name, spec.racks) == Some(r) {
      IdenticalRacksPlanNothing(spec);
    } else {
      var r :| r in spec.racks && FindRack(r.name, spec.racks) != Some(r);
      AmbiguousRacksPlanSomething(spec, r);
    }
  }

  lemma IdenticalRacksPlanNothing(spec: CassandraSpec)
    requires HasProbes(spec) && forall r :: r in spec.racks ==> FindRack(r.name, spec.racks) == Some(r)
    ensures Plan(spec, spec) == Success([])
  {
    var matched := Matched(spec.racks, spec.racks);
    MatchedPairs(spec.racks, spec.racks);
    forall m | m in matched
      ensures m.new_ == m.old_
    {
      assert FindRack(m.old_.name, spec.racks) == Some(m.old_);
    }
    NothingScaled(matched);
    NothingUnmatched(spec.racks, spec.racks);
    var none: seq<ClusterChange> := [];
    assert UpdatedRacks(spec, spec) == [] && UpdateChanges([], spec) == none;
    assert none + none + none + none == none;
  }

  lemma AmbiguousRacksPlanSomething(spec: CassandraSpec, r: Rack)
    requires HasProbes(spec) && r in spec.racks && FindRack(r.name, spec.racks) != Some(r)
    ensures Plan(spec, spec) != Success([])
  {
    var matched := Matched(spec.racks, spec.racks);
    MatchedPairs(spec.racks, spec.racks);
    FindRackFinds(r.name, spec.racks);
    var i :| 0 <= i < |spec.racks| && spec.racks[i] == r;
    var m := MatchedRack(r, FindRack(r.name, spec.racks).value);
    if ForbiddenRackChange(matched).None? {
      NoForbidden(matched, m);
      NothingScaledMeans(matched, m);
      assert ScaledDown(matched) != [] || ScaledUp(matched) != [];
    }
  }

  lemma {:induction false} NothingScaled(matched: seq<MatchedRack>)
    requires forall m :: m in matched ==> m.new_ == m.old_
    ensures ScaledDown(matched) == [] && ScaledUp(matched) == [] && ForbiddenRackChange(matched).None?
  {
    if matched != [] {
      NothingScaled(matched[1..]);
    }
  }

  lemma {:induction false} NothingUnmatched(racks: seq<Rack>, others: seq<Rack>)
    requires forall r :: r in racks ==> FindRack(r.name, others).Some?
    ensures Unmatched(racks, others) == []
  {
    if racks != [] {
      NothingUnmatched(racks[1..], others);
    }
  }

  lemma {:induction false} NoForbidden(matched: seq<MatchedRack>, m: MatchedRack)
    requires ForbiddenRackChange(matched).None? && m in matched
    ensures m.new_.storageClass == m.old_.storageClass && m.new_.zone == m.old_.zone
  {
    if matched[0] != m {
      NoForbidden(matched[1..], m);
    }
  }

  lemma {:induction false} NothingScaledMeans(matched: seq<MatchedRack>, m: MatchedRack)
    requires m in matched
    ensures ScaledDown(matched) == [] ==> m.new_.replicas >= m.old_.replicas
    ensures ScaledUp(matched) == [] ==> m.new_.replicas <= m.old_.replicas
  {
    if matched[0] != m {
      NothingScaledMeans(matched[1..], m);
    }
  }

  lemma UniqueNamesPlanNothing(spec: CassandraSpec)
    requires HasProbes(spec) && UniqueNames(spec.racks)
    ensures Plan(spec, spec) == Success([])
  {
    forall r | r in spec.racks
      ensures FindRack(r.name, spec.racks) == Some(r)
    {
      FindRackIsUnique(r, spec.racks);
    }
    SelfPlanIsEmpty(spec);
  }
}
