/** Updates that complete although every call succeeds, but do not lead where one would expect. */
module RolloutExamples {
  import opened Wrappers
  import opened ClusterSpec
  import opened StatefulSets
  import opened Adjuster
  import opened Rollout
  import opened RolloutTarget

  /** A cluster of one rack, completed with defaults. */
  function OneRack(replicas: int, cpu: int, bootstrapperImage: string): CassandraSpec {
    CassandraSpec("", [Rack("a", "", "", replicas)], true,
                  Pod(bootstrapperImage, "", Quantity(0, "0"), Quantity(1, "1"), Quantity(cpu, "cpu"),
                      Some(DEFAULT_LIVENESS_PROBE), Some(DEFAULT_READINESS_PROBE)),
                  None)
  }

  /** An API that grants everything, and shows every change rolled out at the first poll. */
  function GrantingApi(): Api {
    Api(n => true, n => true, n => 0, n => [Observed(Status(Some(0), "r", "r", 1, 1))])
  }

  function NoConfigMap(rack: string): Option<ConfigMap> {
    None
  }

  function SetOf(cluster: string, spec: CassandraSpec): StatefulSet
    requires spec.racks != []
  {
    BuildStatefulSet(cluster, Effective(spec), spec.racks[0], None)
  }

  /** The world in which the cluster has just been created. */
  function Created(cluster: string, spec: CassandraSpec): World
    requires spec.racks != []
  {
    World(map[StatefulSetName(cluster, spec.racks[0].name) := SetOf(cluster, spec)], [], 0)
  }

  function Updated(cluster: string, old_: CassandraSpec, new_: CassandraSpec, isCron: string -> bool): Outcome
    requires old_.racks != []
  {
    UpdateOutcome(cluster, GrantingApi(), old_, new_, isCron, NoConfigMap, Created(cluster, old_))
  }

  lemma GrantingApiGoesWell()
    ensures AllGoesWell(GrantingApi())
  {
    var api := GrantingApi();
    forall n: nat
      ensures WaitResult(api.polls(n), api.generation(n)).Applied?
    {
      assert ChangeApplied(api.polls(n)[0].status, api.generation(n));
    }
  }

  lemma CreatedRealizes(cluster: string, spec: CassandraSpec)
    requires |spec.racks| == 1
    ensures Realizes(cluster, Created(cluster, spec).sets, Effective(spec))
  {
    assert Effective(spec).racks == [spec.racks[0]];
  }

  /** Both plans keep the one rack, and the change is allowed. */
  lemma OneRackPlan(replicas: int, cpu: int, image: string, replicas': int, cpu': int, image': string)
    ensures var old_, new_ := OneRack(replicas, cpu, image), OneRack(replicas', cpu', image');
            && Matched(old_.racks, new_.racks) == [MatchedRack(old_.racks[0], new_.racks[0])]
            && Unmatched(new_.racks, old_.racks) == [] && Defaulted(new_) == new_ && Plan(old_, new_).Success?
  {
    var old_, new_ := OneRack(replicas, cpu, image), OneRack(replicas', cpu', image');
    var matched := [MatchedRack(old_.racks[0], new_.racks[0])];
    assert old_.racks[1..] == [] && FindRack("a", new_.racks) == Some(new_.racks[0]);
    assert new_.racks[1..] == [] && FindRack("a", old_.racks) == Some(old_.racks[0]);
    assert Matched(old_.racks, new_.racks) == matched + [];
    AllowedExactlyWhen(old_, new_, matched);
    assert forall m :: m in matched ==> m == matched[0];
  }

  lemma OneRackUpdateCompletes(cluster: string, old_: CassandraSpec, new_: CassandraSpec, isCron: string -> bool,
                               replicas: int, cpu: int, image: string, replicas': int, cpu': int, image': string)
    requires old_ == OneRack(replicas, cpu, image) && new_ == OneRack(replicas', cpu', image') && replicas' >= 1
    ensures Comparable(old_, new_) && Realizes(cluster, Created(cluster, old_).sets, Effective(old_))
    ensures Updated(cluster, old_, new_, isCron).verdict.Continue?
  {
    ValidExactlyWhen(new_, isCron);
    OneRackPlan(replicas, cpu, image, replicas', cpu', image');
    CreatedRealizes(cluster, old_);
    GrantingApiGoesWell();
    UpdateCompletes(cluster, GrantingApi(), old_, new_, isCron, NoConfigMap, Created(cluster, old_));
  }

  /** The set after the update, and whether it is what the new specification asks for. */
  lemma OneRackUpdateReaches(cluster: string, old_: CassandraSpec, new_: CassandraSpec, isCron: string -> bool,
                             replicas: int, cpu: int, image: string, replicas': int, cpu': int, image': string)
    requires old_ == OneRack(replicas, cpu, image) && new_ == OneRack(replicas', cpu', image') && replicas' >= 1
    ensures var o, key, podChanged := Updated(cluster, old_, new_, isCron), StatefulSetName(cluster, "a"), cpu != cpu' || image != image';
            && o.verdict.Continue?
            && At(o.world.sets, key) == Some(SetOf(cluster, old_).(
                 replicas := if podChanged then replicas' else Max(replicas, replicas'),
                 settings := if podChanged || replicas' > replicas then SettingsOf(new_) else SettingsOf(Effective(old_))))
  {
    OneRackUpdateCompletes(cluster, old_, new_, isCron, replicas, cpu, image, replicas', cpu', image');
    UpdateReachesTarget(cluster, GrantingApi(), old_, new_, isCron, NoConfigMap, Created(cluster, old_), "a");
    assert FindRack("a", old_.racks) == Some(old_.racks[0]) && FindRack("a", new_.racks) == Some(new_.racks[0]);
    assert Defaulted(new_) == new_;
  }

  /** Going from two replicas to one completes, and leaves two. */
  lemma ShrinkIsIgnored(cluster: string, isCron: string -> bool)
    ensures var old_, new_ := OneRack(2, 1, "image"), OneRack(1, 1, "image");
            var o := Updated(cluster, old_, new_, isCron);
            && o.verdict.Continue? && At(o.world.sets, StatefulSetName(cluster, "a")) == Some(SetOf(cluster, old_))
            && !Realizes(cluster, o.world.sets, Effective(new_))
  {
    var old_, new_ := OneRack(2, 1, "image"), OneRack(1, 1, "image");
    OneRackUpdateReaches(cluster, old_, new_, isCron, 2, 1, "image", 1, 1, "image");
    NotRealized(cluster, Updated(cluster, old_, new_, isCron).world.sets, new_);
  }

  lemma NotRealized(cluster: string, sets: Sets, spec: CassandraSpec)
    requires spec.racks != []
    ensures !RealizesRack(At(sets, StatefulSetName(cluster, spec.racks[0].name)), spec.racks[0], Effective(spec)) ==>
              !Realizes(cluster, sets, Effective(spec))
  {
    assert spec.racks[0] in Effective(spec).racks;
  }

  /** Growing with an empty bootstrapper image completes, and writes the empty image instead of the default. */
  lemma EmptyImageIsWritten(cluster: string, isCron: string -> bool)
    ensures var old_, new_ := OneRack(1, 1, ""), OneRack(2, 1, "");
            var o := Updated(cluster, old_, new_, isCron);
            && o.verdict.Continue? && SetOf(cluster, old_).settings.bootstrapperImage == DEFAULT_BOOTSTRAPPER_IMAGE
            && At(o.world.sets, StatefulSetName(cluster, "a")).Some?
            && At(o.world.sets, StatefulSetName(cluster, "a")).value.settings.bootstrapperImage == ""
            && !Realizes(cluster, o.world.sets, Effective(new_))
  {
    var old_, new_ := OneRack(1, 1, ""), OneRack(2, 1, "");
    OneRackUpdateReaches(cluster, old_, new_, isCron, 1, 1, "", 2, 1, "");
    NotRealized(cluster, Updated(cluster, old_, new_, isCron).world.sets, new_);
  }

  /** A change of the CPU completes and realizes the specification, but is not what a rebuild would give. */
  lemma CpuChangeDiffersFromRebuild(cluster: string, isCron: string -> bool)
    ensures var old_, new_ := OneRack(1, 1, "image"), OneRack(1, 2, "image");
            var o := Updated(cluster, old_, new_, isCron);
            && o.verdict.Continue? && Realizes(cluster, o.world.sets, Effective(new_))
            && At(o.world.sets, StatefulSetName(cluster, "a")).Some?
            && At(o.world.sets, StatefulSetName(cluster, "a")) != Some(SetOf(cluster, new_))
  {
    var old_, new_ := OneRack(1, 1, "image"), OneRack(1, 2, "image");
    OneRackUpdateReaches(cluster, old_, new_, isCron, 1, 1, "image", 1, 2, "image");
    var set_ := At(Updated(cluster, old_, new_, isCron).world.sets, StatefulSetName(cluster, "a")).value;
    assert set_.creation.cpuEnvironment == Quantity(1, "cpu") != SetOf(cluster, new_).creation.cpuEnvironment;
    assert set_.settings == SettingsOf(Effective(new_));
  }
}
