/**
 * The StatefulSet of a rack: how it is built from a specification, how the custom ConfigMap
 * is mounted into it and unmounted again, and what a patch changes in it.
 */
module StatefulSets {
  import opened Wrappers
  import opened ClusterSpec

  const CONFIG_HASH_ANNOTATION := "clusterConfigHash"
  const BOOTSTRAPPER_CONTAINER := "cassandra-bootstrapper"
  const CUSTOM_CONFIG_DIR := "/custom-config"
  const CUSTOM_CONFIG_VOLUME_PREFIX := "cassandra-custom-config-"
  const STORAGE_VOLUME_PREFIX := "cassandra-storage-"

  /** A ConfigMap, with the hash of its contents. */
  datatype ConfigMap = ConfigMap(name: string, hash: string)

  datatype Volume = EmptyDir(name: string) | ConfigMapVolume(name: string, configMap: string)

  datatype Mount = Mount(name: string, path: string)

  datatype Container = Container(name: string, mounts: seq<Mount>)

  datatype PodTemplate = PodTemplate(
    annotations: Option<map<string, string>>,
    volumes: seq<Volume>,
    initContainers: seq<Container>)
  {
    /** Absent annotations are the same as empty ones. */
    function AnnotationMap(): map<string, string> {
      if annotations.None? then map[] else annotations.value
    }

    predicate SameAs(other: PodTemplate) {
      AnnotationMap() == other.AnnotationMap() && volumes == other.volumes && initContainers == other.initContainers
    }
  }

  function CustomConfigVolumeName(cluster: string): string {
    CUSTOM_CONFIG_VOLUME_PREFIX + cluster
  }

  function CustomConfigMount(cluster: string): Mount {
    Mount(CustomConfigVolumeName(cluster), CUSTOM_CONFIG_DIR)
  }

  function CustomConfigVolume(cluster: string, configMap: ConfigMap): Volume {
    ConfigMapVolume(CustomConfigVolumeName(cluster), configMap.name)
  }

  // ---------- Mounting and unmounting

  function MountedContainers(cluster: string, containers: seq<Container>): seq<Container> {
    if containers == [] then []
    else
      var c := containers[0];
      [if c.name == BOOTSTRAPPER_CONTAINER then c.(mounts := c.mounts + [CustomConfigMount(cluster)]) else c]
      + MountedContainers(cluster, containers[1..])
  }

  function WithCustomConfig(cluster: string, configMap: ConfigMap, t: PodTemplate): PodTemplate {
    PodTemplate(Some(t.AnnotationMap()[CONFIG_HASH_ANNOTATION := configMap.hash]),
                t.volumes + [CustomConfigVolume(cluster, configMap)],
                MountedContainers(cluster, t.initContainers))
  }

  function VolumesExcept(name: string, volumes: seq<Volume>): seq<Volume> {
    if volumes == [] then []
    else (if volumes[0].name != name then [volumes[0]] else []) + VolumesExcept(name, volumes[1..])
  }

  function MountsExcept(name: string, mounts: seq<Mount>): seq<Mount> {
    if mounts == [] then []
    else (if mounts[0].name != name then [mounts[0]] else []) + MountsExcept(name, mounts[1..])
  }

  /** The list of remaining mounts is shared by all bootstrapper containers, and grows from one to the next. */
  function UnmountedContainers(cluster: string, containers: seq<Container>, kept: seq<Mount>): seq<Container> {
    if containers == [] then []
    else
      var c := containers[0];
      if c.name != BOOTSTRAPPER_CONTAINER then [c] + UnmountedContainers(cluster, containers[1..], kept)
      else
        var all := kept + MountsExcept(CustomConfigVolumeName(cluster), c.mounts);
        [c.(mounts := all)] + UnmountedContainers(cluster, containers[1..], all)
  }

  function WithoutCustomConfig(cluster: string, t: PodTemplate): PodTemplate {
    PodTemplate(if t.annotations.None? then None else Some(t.annotations.value - {CONFIG_HASH_ANNOTATION}),
                VolumesExcept(CustomConfigVolumeName(cluster), t.volumes),
                UnmountedContainers(cluster, t.initContainers, []))
  }

  /** The pod template inside a StatefulSet that has been fetched and is about to be written back. */
  class TemplateObject {
    var annotations: Option<map<string, string>>
    var volumes: seq<Volume>
    var initContainers: seq<Container>

    function Contents(): PodTemplate
      reads this
    {
      PodTemplate(annotations, volumes, initContainers)
    }

    constructor (t: PodTemplate)
      ensures Contents() == t
    {
      annotations, volumes, initContainers := t.annotations, t.volumes, t.initContainers;
    }

    method AddCustomConfigVolume(cluster: string, configMap: ConfigMap)
      modifies this
      ensures Contents() == WithCustomConfig(cluster, configMap, old(Contents()))
    {
      if annotations.None? {
        annotations := Some(map[]);
      }
      annotations := Some(annotations.value[CONFIG_HASH_ANNOTATION := configMap.hash]);
      volumes := volumes + [CustomConfigVolume(cluster, configMap)];
      MountInBootstrapper(cluster);
    }

    method MountInBootstrapper(cluster: string)
      modifies this`initContainers
      ensures initContainers == MountedContainers(cluster, old(initContainers))
    {
      ghost var before := initContainers;
      MountedEach(cluster, before);
      var i := 0;
      while i < |initContainers|
        invariant i <= |initContainers| == |before|
        invariant forall k :: 0 <= k < i ==> initContainers[k] == MountedContainers(cluster, before)[k]
        invariant forall k :: i <= k < |before| ==> initContainers[k] == before[k]
      {
        var container := initContainers[i];
        if container.name == BOOTSTRAPPER_CONTAINER {
          initContainers := initContainers[i := container.(mounts := container.mounts + [CustomConfigMount(cluster)])];
        }
        i := i + 1;
      }
    }

    method RemoveCustomConfigVolume(cluster: string)
      modifies this
      ensures Contents() == WithoutCustomConfig(cluster, old(Contents()))
    {
      var name := CustomConfigVolumeName(cluster);
      var volumesAfterRemoval: seq<Volume> := [];
      for k := 0 to |volumes|
        invariant Contents() == old(Contents())
        invariant volumesAfterRemoval + VolumesExcept(name, volumes[k..]) == VolumesExcept(name, volumes)
      {
        assert volumes[k..][1..] == volumes[k + 1..];
        if volumes[k].name != name {
          volumesAfterRemoval := volumesAfterRemoval + [volumes[k]];
        }
      }
      volumes := volumesAfterRemoval;
      if annotations.Some? {
        annotations := Some(annotations.value - {CONFIG_HASH_ANNOTATION});
      }
      UnmountFromBootstrapper(cluster);
    }

    method UnmountFromBootstrapper(cluster: string)
      modifies this`initContainers
      ensures initContainers == UnmountedContainers(cluster, old(initContainers), [])
    {
      var mountsAfterRemoval: seq<Mount> := [];
      ghost var before := initContainers;
      ghost var goal := UnmountedContainers(cluster, before, []);
      UnmountedLength(cluster, before, []);
      var i := 0;
      while i < |initContainers|
        invariant i <= |initContainers| == |before| == |goal|
        invariant forall k :: 0 <= k < i ==> initContainers[k] == goal[k]
        invariant forall k :: i <= k < |before| ==> initContainers[k] == before[k]
        invariant UnmountedContainers(cluster, before[i..], mountsAfterRemoval) == goal[i..]
      {
        var container := initContainers[i];
        assert before[i..][1..] == before[i + 1..] && goal[i..][1..] == goal[i + 1..] && goal[i] == goal[i..][0];
        if container.name == BOOTSTRAPPER_CONTAINER {
          mountsAfterRemoval := AppendMountsExcept(CustomConfigVolumeName(cluster), mountsAfterRemoval, container.mounts);
          initContainers := initContainers[i := container.(mounts := mountsAfterRemoval)];
        }
        i := i + 1;
      }
    }
  }

  lemma {:induction false} UnmountedLength(cluster: string, containers: seq<Container>, kept: seq<Mount>)
    ensures |UnmountedContainers(cluster, containers, kept)| == |containers|
  {
    if containers != [] {
      UnmountedLength(cluster, containers[1..], kept + MountsExcept(CustomConfigVolumeName(cluster), containers[0].mounts));
      UnmountedLength(cluster, containers[1..], kept);
    }
  }

  method AppendMountsExcept(name: string, kept: seq<Mount>, mounts: seq<Mount>) returns (all: seq<Mount>)
    ensures all == kept + MountsExcept(name, mounts)
  {
    all := kept;
    for k := 0 to |mounts|
      invariant all + MountsExcept(name, mounts[k..]) == kept + MountsExcept(name, mounts)
    {
      assert mounts[k..][1..] == mounts[k + 1..];
      if mounts[k].name != name {
        all := all + [mounts[k]];
      }
    }
  }

  // ---------- Mounting round trips

  ghost predicate AtMostOneBootstrapper(containers: seq<Container>) {
    forall i, j :: 0 <= i < j < |containers| ==>
      containers[i].name != BOOTSTRAPPER_CONTAINER || containers[j].name != BOOTSTRAPPER_CONTAINER
  }

  predicate MountsCustomConfig(cluster: string, container: Container) {
    container.name == BOOTSTRAPPER_CONTAINER &&
    exists k :: 0 <= k < |container.mounts| && container.mounts[k].name == CustomConfigVolumeName(cluster)
  }

  /** No trace of a custom ConfigMap: no annotation, no volume and no mount. */
  predicate NoCustomConfig(cluster: string, t: PodTemplate) {
    && CONFIG_HASH_ANNOTATION !in t.AnnotationMap()
    && (forall k :: 0 <= k < |t.volumes| ==> t.volumes[k].name != CustomConfigVolumeName(cluster))
    && (forall k :: 0 <= k < |t.initContainers| ==> !MountsCustomConfig(cluster, t.initContainers[k]))
  }

  lemma {:induction false} VolumesExceptAppend(name: string, a: seq<Volume>, b: seq<Volume>)
    ensures VolumesExcept(name, a + b) == VolumesExcept(name, a) + VolumesExcept(name, b)
  {
    if a == [] {
      assert a + b == b;
    } else {
      assert (a + b)[1..] == a[1..] + b;
      VolumesExceptAppend(name, a[1..], b);
    }
  }

  lemma {:induction false} MountsExceptAppend(name: string, a: seq<Mount>, b: seq<Mount>)
    ensures MountsExcept(name, a + b) == MountsExcept(name, a) + MountsExcept(name, b)
  {
    if a == [] {
      assert a + b == b;
    } else {
      assert (a + b)[1..] == a[1..] + b;
      MountsExceptAppend(name, a[1..], b);
    }
  }

  lemma {:induction false} VolumesExceptKeeps(name: string, volumes: seq<Volume>)
    ensures |VolumesExcept(name, volumes)| <= |volumes|
    ensures VolumesExcept(name, volumes) == volumes <==> forall k :: 0 <= k < |volumes| ==> volumes[k].name != name
    ensures forall v :: v in VolumesExcept(name, volumes) ==> v.name != name
  {
    if volumes != [] {
      VolumesExceptKeeps(name, volumes[1..]);
      assert volumes == [volumes[0]] + volumes[1..];
    }
  }

  lemma {:induction false} MountsExceptKeeps(name: string, mounts: seq<Mount>)
    ensures |MountsExcept(name, mounts)| <= |mounts|
    ensures MountsExcept(name, mounts) == mounts <==> forall k :: 0 <= k < |mounts| ==> mounts[k].name != name
    ensures forall m :: m in MountsExcept(name, mounts) ==> m.name != name
  {
    if mounts != [] {
      MountsExceptKeeps(name, mounts[1..]);
      assert mounts == [mounts[0]] + mounts[1..];
    }
  }

  function Unmounted(cluster: string, c: Container): Container {
    if c.name == BOOTSTRAPPER_CONTAINER then c.(mounts := MountsExcept(CustomConfigVolumeName(cluster), c.mounts)) else c
  }

  /** With a single bootstrapper container the shared list of mounts does no harm. */
  lemma {:induction false} UnmountedEach(cluster: string, containers: seq<Container>, kept: seq<Mount>)
    requires AtMostOneBootstrapper(containers)
    requires kept == [] || forall k :: 0 <= k < |containers| ==> containers[k].name != BOOTSTRAPPER_CONTAINER
    ensures var r := UnmountedContainers(cluster, containers, kept);
            |r| == |containers| && forall k :: 0 <= k < |containers| ==> r[k] == Unmounted(cluster, containers[k])
  {
    if containers != [] {
      var c := containers[0];
      var all := if c.name == BOOTSTRAPPER_CONTAINER then kept + MountsExcept(CustomConfigVolumeName(cluster), c.mounts) else kept;
      UnmountedEach(cluster, containers[1..], all);
    }
  }

  lemma {:induction false} MountedEach(cluster: string, containers: seq<Container>)
    ensures var r := MountedContainers(cluster, containers);
            |r| == |containers| && forall k :: 0 <= k < |containers| ==>
              r[k].name == containers[k].name &&
              r[k] == if containers[k].name == BOOTSTRAPPER_CONTAINER
                      then containers[k].(mounts := containers[k].mounts + [CustomConfigMount(cluster)])
                      else containers[k]
  {
    if containers != [] {
      MountedEach(cluster, containers[1..]);
    }
  }

  /** Unmounting what has just been mounted leaves what unmounting would have left before. */
  lemma RemoveForgetsAdd(cluster: string, configMap: ConfigMap, t: PodTemplate)
    requires AtMostOneBootstrapper(t.initContainers)
    ensures WithoutCustomConfig(cluster, WithCustomConfig(cluster, configMap, t)).SameAs(WithoutCustomConfig(cluster, t))
  {
    var name := CustomConfigVolumeName(cluster);
    var added := WithCustomConfig(cluster, configMap, t);
    VolumesExceptAppend(name, t.volumes, [CustomConfigVolume(cluster, configMap)]);
    assert [CustomConfigVolume(cluster, configMap)][1..] == [];
    MountedEach(cluster, t.initContainers);
    UnmountedEach(cluster, added.initContainers, []);
    UnmountedEach(cluster, t.initContainers, []);
    forall k | 0 <= k < |t.initContainers|
      ensures Unmounted(cluster, added.initContainers[k]) == Unmounted(cluster, t.initContainers[k])
    {
      MountsExceptAppend(name, t.initContainers[k].mounts, [CustomConfigMount(cluster)]);
      assert [CustomConfigMount(cluster)][1..] == [];
    }
    assert WithoutCustomConfig(cluster, added).initContainers == WithoutCustomConfig(cluster, t).initContainers;
  }

  /** Unmounting changes nothing exactly when there is no trace of a custom ConfigMap. */
  lemma RemoveChangesNothing(cluster: string, t: PodTemplate)
    requires AtMostOneBootstrapper(t.initContainers)
    ensures WithoutCustomConfig(cluster, t).SameAs(t) <==> NoCustomConfig(cluster, t)
  {
    var name := CustomConfigVolumeName(cluster);
    var removed := WithoutCustomConfig(cluster, t);
    VolumesExceptKeeps(name, t.volumes);
    UnmountedEach(cluster, t.initContainers, []);
    forall k | 0 <= k < |t.initContainers|
      ensures Unmounted(cluster, t.initContainers[k]) == t.initContainers[k] <==> !MountsCustomConfig(cluster, t.initContainers[k])
    {
      MountsExceptKeeps(name, t.initContainers[k].mounts);
    }
    assert removed.initContainers == t.initContainers <==>
           forall k :: 0 <= k < |t.initContainers| ==> removed.initContainers[k] == t.initContainers[k];
    assert removed.AnnotationMap() == t.AnnotationMap() - {CONFIG_HASH_ANNOTATION};
    assert removed.AnnotationMap() == t.AnnotationMap() <==> CONFIG_HASH_ANNOTATION !in t.AnnotationMap();
  }

  /** Adding a ConfigMap and removing it again restores the template exactly when it had none before. */
  lemma AddThenRemove(cluster: string, configMap: ConfigMap, t: PodTemplate)
    requires AtMostOneBootstrapper(t.initContainers)
    ensures WithoutCustomConfig(cluster, WithCustomConfig(cluster, configMap, t)).SameAs(t) <==> NoCustomConfig(cluster, t)
  {
    RemoveForgetsAdd(cluster, configMap, t);
    RemoveChangesNothing(cluster, t);
  }

  lemma RemoveTwice(cluster: string, t: PodTemplate)
    requires AtMostOneBootstrapper(t.initContainers)
    ensures var once := WithoutCustomConfig(cluster, t);
            NoCustomConfig(cluster, once) && WithoutCustomConfig(cluster, once).SameAs(once)
  {
    var name := CustomConfigVolumeName(cluster);
    var once := WithoutCustomConfig(cluster, t);
    VolumesExceptKeeps(name, t.volumes);
    UnmountedEach(cluster, t.initContainers, []);
    forall k | 0 <= k < |once.initContainers|
      ensures !MountsCustomConfig(cluster, once.initContainers[k])
    {
      MountsExceptKeeps(name, t.initContainers[k].mounts);
    }
    RemoveChangesNothing(cluster, once);
  }

  // ---------- Building a StatefulSet

  function InitialTemplate(cluster: string, useEmptyDir: bool, configMap: Option<ConfigMap>): PodTemplate {
    var customVolumes := if configMap.None? then [] else [CustomConfigVolume(cluster, configMap.value)];
    var customMounts := if configMap.None? then [] else [CustomConfigMount(cluster)];
    PodTemplate(
      if configMap.None? then None else Some(map[CONFIG_HASH_ANNOTATION := configMap.value.hash]),
      [EmptyDir("configuration"), EmptyDir("extra-lib")] + customVolumes +
      (if useEmptyDir then [EmptyDir(STORAGE_VOLUME_PREFIX + cluster)] else []),
      [Container("init-config", [Mount("configuration", "/configuration")]),
       Container(BOOTSTRAPPER_CONTAINER, [Mount("configuration", "/configuration"), Mount("extra-lib", "/extra-lib")] + customMounts)])
  }

  /**
   * Creating with a ConfigMap agrees with creating without and adding it later, except that
   * on emptyDir storage the volumes come in another order.
   */
  lemma CreateOrAdd(cluster: string, useEmptyDir: bool, configMap: ConfigMap)
    ensures var created := InitialTemplate(cluster, useEmptyDir, Some(configMap));
            var added := WithCustomConfig(cluster, configMap, InitialTemplate(cluster, useEmptyDir, None));
            && created.AnnotationMap() == added.AnnotationMap()
            && created.initContainers == added.initContainers
            && multiset(created.volumes) == multiset(added.volumes)
            && (created.volumes == added.volumes <==> !useEmptyDir)
  {
    var created := InitialTemplate(cluster, useEmptyDir, Some(configMap));
    var plain := InitialTemplate(cluster, useEmptyDir, None);
    var added := WithCustomConfig(cluster, configMap, plain);
    MountedEach(cluster, plain.initContainers);
    assert "init-config"[0] != BOOTSTRAPPER_CONTAINER[0];
    assert created.initContainers[1].mounts == added.initContainers[1].mounts;
    var base := [EmptyDir("configuration"), EmptyDir("extra-lib")];
    var custom := [CustomConfigVolume(cluster, configMap)];
    var storage := if useEmptyDir then [EmptyDir(STORAGE_VOLUME_PREFIX + cluster)] else [];
    assert plain.volumes == base + storage;
    assert created.volumes == base + custom + storage && added.volumes == base + storage + custom;
    if useEmptyDir {
      assert created.volumes[2] == custom[0] && added.volumes[2] == storage[0];
    }
  }

  /** A freshly created template mounts nothing custom, so a later ConfigMap can come and go. */
  lemma InitialTemplateIsClean(cluster: string, useEmptyDir: bool)
    ensures var t := InitialTemplate(cluster, useEmptyDir, None);
            NoCustomConfig(cluster, t) && AtMostOneBootstrapper(t.initContainers)
  {
    var t := InitialTemplate(cluster, useEmptyDir, None);
    var name := CustomConfigVolumeName(cluster);
    assert name[0] == 'c' && name[1] == 'a' && name[10] == 'c';
    assert (STORAGE_VOLUME_PREFIX + cluster)[10] == 's';
    assert "configuration"[1] == 'o' && "extra-lib"[0] == 'e';
    assert forall k :: 0 <= k < |t.volumes| ==> t.volumes[k].name != name;
    assert "init-config"[0] != BOOTSTRAPPER_CONTAINER[0];
  }

  /** The settings of the pods that the operator's patches can change later. */
  datatype PodSettings = PodSettings(
    bootstrapperImage: string,
    cpu: Quantity,
    memory: Quantity,
    livenessProbe: Probe,
    readinessProbe: Probe)

  /** What is fixed when the StatefulSet is created, the bootstrapper's environment included. */
  datatype CreationSettings = CreationSettings(
    zone: string,
    image: string,
    dc: string,
    claim: Option<(string, Quantity)>,
    cpuEnvironment: Quantity,
    memoryEnvironment: Quantity)

  datatype StatefulSet = StatefulSet(
    replicas: int,
    settings: PodSettings,
    creation: CreationSettings,
    template: PodTemplate)

  ghost predicate HasProbes(spec: CassandraSpec) {
    spec.pod.livenessProbe.Some? && spec.pod.readinessProbe.Some?
  }

  function SettingsOf(spec: CassandraSpec): PodSettings
    requires HasProbes(spec)
  {
    PodSettings(spec.pod.bootstrapperImage, spec.pod.cpu, spec.pod.memory,
                spec.pod.livenessProbe.value, spec.pod.readinessProbe.value)
  }

  function CreationOf(spec: CassandraSpec, rack: Rack): CreationSettings {
    CreationSettings(rack.zone, spec.pod.image, spec.dc,
                     if spec.useEmptyDir then None else Some((rack.storageClass, spec.pod.storageSize)),
                     spec.pod.cpu, spec.pod.memory)
  }

  /** `createStatefulSetForRack`, from a recorded specification. */
  function BuildStatefulSet(cluster: string, spec: CassandraSpec, rack: Rack, configMap: Option<ConfigMap>): StatefulSet
    requires HasProbes(spec)
  {
    StatefulSet(rack.replicas, SettingsOf(spec), CreationOf(spec, rack), InitialTemplate(cluster, spec.useEmptyDir, configMap))
  }

  // ---------- What a built StatefulSet contains, field by field

  /** The pods have the resources, probes and bootstrapper image of the specification. */
  predicate HasSettings(settings: PodSettings, pod: Pod) {
    && settings.bootstrapperImage == pod.bootstrapperImage
    && settings.cpu == pod.cpu && settings.memory == pod.memory
    && Some(settings.livenessProbe) == pod.livenessProbe
    && Some(settings.readinessProbe) == pod.readinessProbe
  }

  /** What is fixed at creation comes from the rack and the specification; persistent storage is claimed unless it is emptyDir. */
  predicate HasCreation(creation: CreationSettings, spec: CassandraSpec, rack: Rack) {
    && creation.zone == rack.zone && creation.image == spec.pod.image && creation.dc == spec.dc
    && creation.cpuEnvironment == spec.pod.cpu && creation.memoryEnvironment == spec.pod.memory
    && (creation.claim.None? <==> spec.useEmptyDir)
    && (creation.claim.Some? ==> creation.claim.value.0 == rack.storageClass && creation.claim.value.1 == spec.pod.storageSize)
  }

  predicate HasVolume(t: PodTemplate, name: string) {
    exists k :: 0 <= k < |t.volumes| && t.volumes[k].name == name
  }

  /** Whatever an init container mounts is a volume of the pod. */
  predicate MountsResolve(t: PodTemplate) {
    forall c, m :: c in t.initContainers && m in c.mounts ==> HasVolume(t, m.name)
  }

  /** The bootstrapper finds the files of the ConfigMap, and the pods carry the hash of its contents. */
  predicate ConfigIsMounted(cluster: string, configMap: ConfigMap, t: PodTemplate) {
    && "clusterConfigHash" in t.AnnotationMap() && t.AnnotationMap()["clusterConfigHash"] == configMap.hash
    && ConfigMapVolume("cassandra-custom-config-" + cluster, configMap.name) in t.volumes
    && (forall c :: c in t.initContainers && c.name == "cassandra-bootstrapper" ==>
          Mount("cassandra-custom-config-" + cluster, "/custom-config") in c.mounts)
  }

  /** The first container writes the configuration to a volume that the bootstrapper shares, which also gets one for libraries. */
  predicate InitContainersShareVolumes(t: PodTemplate) {
    && |t.initContainers| == 2
    && t.initContainers[0].name == "init-config" && t.initContainers[1].name == "cassandra-bootstrapper"
    && t.initContainers[0].mounts == [Mount("configuration", "/configuration")]
    && t.initContainers[0].mounts + [Mount("extra-lib", "/extra-lib")] <= t.initContainers[1].mounts
    && EmptyDir("configuration") in t.volumes && EmptyDir("extra-lib") in t.volumes
  }

  predicate HasTemplate(cluster: string, t: PodTemplate, useEmptyDir: bool, configMap: Option<ConfigMap>) {
    && MountsResolve(t) && InitContainersShareVolumes(t)
    && (EmptyDir("cassandra-storage-" + cluster) in t.volumes <==> useEmptyDir)
    && (if configMap.None? then NoCustomConfig(cluster, t) else ConfigIsMounted(cluster, configMap.value, t))
  }

  /** The StatefulSet of a rack is as the specification has it, in every field. */
  predicate IsBuilt(cluster: string, set_: StatefulSet, spec: CassandraSpec, rack: Rack, configMap: Option<ConfigMap>) {
    && set_.replicas == rack.replicas && HasSettings(set_.settings, spec.pod)
    && HasCreation(set_.creation, spec, rack) && HasTemplate(cluster, set_.template, spec.useEmptyDir, configMap)
  }

  lemma SettingsAre(settings: PodSettings, spec: CassandraSpec)
    requires HasProbes(spec)
    ensures HasSettings(settings, spec.pod) <==> settings == SettingsOf(spec)
  {
  }

  lemma TemplateIsBuilt(cluster: string, useEmptyDir: bool, configMap: Option<ConfigMap>)
    ensures HasTemplate(cluster, InitialTemplate(cluster, useEmptyDir, configMap), useEmptyDir, configMap)
  {
    var t := InitialTemplate(cluster, useEmptyDir, configMap);
    InitialTemplateIsClean(cluster, useEmptyDir);
    assert t.volumes[0].name == "configuration" && t.volumes[1].name == "extra-lib";
    if configMap.Some? {
      assert t.volumes[2].name == CustomConfigVolumeName(cluster);
    }
    assert "init-config"[0] != BOOTSTRAPPER_CONTAINER[0];
    if useEmptyDir {
      assert t.volumes[|t.volumes| - 1] == EmptyDir(STORAGE_VOLUME_PREFIX + cluster);
    } else {
      assert (STORAGE_VOLUME_PREFIX + cluster)[1] == 'a' && "configuration"[1] == 'o' && "extra-lib"[1] == 'x';
    }
  }

  /** A StatefulSet that is built is as the specification has it, and its storage is either claimed or an emptyDir volume. */
  lemma BuiltIsAsSpecified(cluster: string, spec: CassandraSpec, rack: Rack, configMap: Option<ConfigMap>)
    requires HasProbes(spec)
    ensures IsBuilt(cluster, BuildStatefulSet(cluster, spec, rack, configMap), spec, rack, configMap)
  {
    TemplateIsBuilt(cluster, spec.useEmptyDir, configMap);
    SettingsAre(SettingsOf(spec), spec);
  }

  lemma HasAppended(t: PodTemplate, added: PodTemplate, v: Volume, name: string)
    requires added.volumes == t.volumes + [v]
    ensures HasVolume(added, name) <==> HasVolume(t, name) || name == v.name
  {
    assert added.volumes[|t.volumes|] == v;
    forall k | 0 <= k < |t.volumes|
      ensures added.volumes[k] == t.volumes[k]
    {
    }
  }

  /** Mounting a ConfigMap keeps all there was, and mounts a volume that refers to that very ConfigMap. */
  lemma AddedConfigIsMounted(cluster: string, configMap: ConfigMap, t: PodTemplate)
    ensures var added := WithCustomConfig(cluster, configMap, t);
            && ConfigIsMounted(cluster, configMap, added)
            && t.volumes <= added.volumes && |added.volumes| == |t.volumes| + 1
            && (forall a :: a in t.AnnotationMap() && a != "clusterConfigHash" ==>
                  a in added.AnnotationMap() && added.AnnotationMap()[a] == t.AnnotationMap()[a])
            && added.AnnotationMap().Keys == t.AnnotationMap().Keys + {"clusterConfigHash"}
            && (MountsResolve(t) ==> MountsResolve(added))
  {
    var added, v := WithCustomConfig(cluster, configMap, t), CustomConfigVolume(cluster, configMap);
    MountedEach(cluster, t.initContainers);
    assert added.volumes[|t.volumes|] == v;
    if MountsResolve(t) {
      forall c, m | c in added.initContainers && m in c.mounts
        ensures HasVolume(added, m.name)
      {
        HasAppended(t, added, v, m.name);
        var k :| 0 <= k < |added.initContainers| && added.initContainers[k] == c;
        assert t.initContainers[k] in t.initContainers;
      }
    }
  }

  lemma {:induction false} VolumesExceptHas(name: string, volumes: seq<Volume>)
    ensures forall v :: v in VolumesExcept(name, volumes) <==> v in volumes && v.name != name
  {
    if volumes != [] {
      VolumesExceptHas(name, volumes[1..]);
    }
  }

  lemma {:induction false} MountsExceptHas(name: string, mounts: seq<Mount>)
    ensures forall m :: m in MountsExcept(name, mounts) <==> m in mounts && m.name != name
  {
    if mounts != [] {
      MountsExceptHas(name, mounts[1..]);
    }
  }

  lemma HasRemaining(cluster: string, t: PodTemplate, name: string)
    requires name != CustomConfigVolumeName(cluster)
    ensures HasVolume(WithoutCustomConfig(cluster, t), name) <==> HasVolume(t, name)
  {
    var remaining := WithoutCustomConfig(cluster, t);
    VolumesExceptHas(CustomConfigVolumeName(cluster), t.volumes);
    if HasVolume(t, name) {
      var k :| 0 <= k < |t.volumes| && t.volumes[k].name == name;
      assert t.volumes[k] in remaining.volumes;
    }
    if HasVolume(remaining, name) {
      var k :| 0 <= k < |remaining.volumes| && remaining.volumes[k].name == name;
      assert remaining.volumes[k] in t.volumes;
    }
  }

  /** Unmounting the ConfigMap leaves no mount without its volume. */
  lemma RemovalKeepsMountsResolved(cluster: string, t: PodTemplate)
    requires AtMostOneBootstrapper(t.initContainers)
    requires forall c, m :: c in t.initContainers && m in c.mounts && m.name == "cassandra-custom-config-" + cluster ==> c.name == "cassandra-bootstrapper"
    requires MountsResolve(t)
    ensures MountsResolve(WithoutCustomConfig(cluster, t))
  {
    var removed, name := WithoutCustomConfig(cluster, t), CustomConfigVolumeName(cluster);
    UnmountedEach(cluster, t.initContainers, []);
    forall c, m | c in removed.initContainers && m in c.mounts
      ensures HasVolume(removed, m.name)
    {
      var k :| 0 <= k < |removed.initContainers| && removed.initContainers[k] == c;
      var before := t.initContainers[k];
      assert before in t.initContainers && c == Unmounted(cluster, before);
      MountsExceptHas(name, before.mounts);
      assert m in before.mounts && m.name != name;
      HasRemaining(cluster, t, m.name);
    }
  }

  /** `RackName`: the name of a rack's StatefulSet. */
  function StatefulSetName(cluster: string, rack: string): string {
    cluster + "-" + rack
  }

  lemma StatefulSetNameIsInjective(cluster: string, rack1: string, rack2: string)
    ensures StatefulSetName(cluster, rack1) == StatefulSetName(cluster, rack2) ==> rack1 == rack2
  {
    assert StatefulSetName(cluster, rack1)[|cluster| + 1..] == rack1;
    assert StatefulSetName(cluster, rack2)[|cluster| + 1..] == rack2;
  }

  /** What a write changes in a StatefulSet. */
  datatype Change =
    | Patch(replicas: int, settings: PodSettings)
    | HashPatch(hash: string)
    | AddConfig(configMap: ConfigMap)
    | RemoveConfig

  function ApplyChange(cluster: string, change: Change, set_: StatefulSet): StatefulSet {
    match change
    case Patch(replicas, settings) => set_.(replicas := replicas, settings := settings)
    case HashPatch(hash) =>
      set_.(template := set_.template.(annotations := Some(set_.template.AnnotationMap()[CONFIG_HASH_ANNOTATION := hash])))
    case AddConfig(configMap) => set_.(template := WithCustomConfig(cluster, configMap, set_.template))
    case RemoveConfig => set_.(template := WithoutCustomConfig(cluster, set_.template))
  }
}
