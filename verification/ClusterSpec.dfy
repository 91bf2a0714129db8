/**
 * The Cassandra resource, and the way a definition is validated, completed with defaults
 * and copied into the operator's record of a cluster.
 */
module ClusterSpec {
  import opened Wrappers

  /** What identifies a cluster: no two Cassandra resources of a namespace share a name. */
  datatype ClusterId = ClusterId(namespace: string, name: string)

  /** A resource quantity: its amount and the text it is written as. Equality compares both, as DeepEqual does. */
  datatype Quantity = Quantity(amount: int, text: string) {
    predicate IsZero() {
      amount == 0
    }
  }

  datatype Probe = Probe(
    failureThreshold: int,
    initialDelaySeconds: int,
    periodSeconds: int,
    successThreshold: int,
    timeoutSeconds: int)

  datatype Pod = Pod(
    bootstrapperImage: string,
    image: string,
    storageSize: Quantity,
    memory: Quantity,
    cpu: Quantity,
    livenessProbe: Option<Probe>,
    readinessProbe: Option<Probe>)

  datatype Rack = Rack(name: string, zone: string, storageClass: string, replicas: int)

  datatype RetentionPolicy = RetentionPolicy(
    enabled: bool,
    retentionPeriodDays: Option<int>,
    cleanupSchedule: string,
    cleanupTimeoutSeconds: Option<int>)

  datatype Snapshot = Snapshot(
    image: string,
    schedule: string,
    keyspaces: Option<seq<string>>,
    timeoutSeconds: Option<int>,
    retentionPolicy: Option<RetentionPolicy>)
  {
    predicate HasRetentionPolicyEnabled() {
      retentionPolicy.Some? && retentionPolicy.value.enabled
    }
  }

  datatype CassandraSpec = CassandraSpec(
    dc: string,
    racks: seq<Rack>,
    useEmptyDir: bool,
    pod: Pod,
    snapshot: Option<Snapshot>)

  const DEFAULT_CASSANDRA_IMAGE := "cassandra:3.11"
  const DEFAULT_BOOTSTRAPPER_IMAGE := "skyuk/cassandra-bootstrapper:latest"
  const DEFAULT_SNAPSHOT_IMAGE := "skyuk/cassandra-snapshot:latest"
  const DEFAULT_DC := "dc1"
  const DEFAULT_LIVENESS_PROBE := Probe(3, 30, 30, 1, 5)
  const DEFAULT_READINESS_PROBE := Probe(3, 30, 15, 1, 5)

  datatype Invalid =
    | NoRacks
    | InvalidReplicas(rack: string)
    | NoStorageClass(rack: string)
    | NoZone(rack: string)
    | NoPodMemory
    | UnexpectedStorageSize
    | NoStorageSize
    | NoSnapshotSchedule
    | InvalidSnapshotSchedule
    | NegativeSnapshotTimeout
    | NegativeRetentionPeriod
    | NegativeCleanupTimeout
    | InvalidCleanupSchedule
    | InvalidLivenessProbe
    | InvalidReadinessProbe

  // ---------- Validation

  function ValidateRack(rack: Rack, useEmptyDir: bool): Option<Invalid> {
    if rack.replicas < 1 then Some(InvalidReplicas(rack.name))
    else if rack.storageClass == "" && !useEmptyDir then Some(NoStorageClass(rack.name))
    else if rack.zone == "" && !useEmptyDir then Some(NoZone(rack.name))
    else None
  }

  function ValidateEachRack(racks: seq<Rack>, useEmptyDir: bool): Option<Invalid> {
    if racks == [] then None
    else if ValidateRack(racks[0], useEmptyDir).Some? then ValidateRack(racks[0], useEmptyDir)
    else ValidateEachRack(racks[1..], useEmptyDir)
  }

  function ValidateRacks(spec: CassandraSpec): Option<Invalid> {
    if spec.racks == [] then Some(NoRacks) else ValidateEachRack(spec.racks, spec.useEmptyDir)
  }

  function ValidatePodResources(spec: CassandraSpec): Option<Invalid> {
    if spec.pod.memory.IsZero() then Some(NoPodMemory)
    else if spec.useEmptyDir && !spec.pod.storageSize.IsZero() then Some(UnexpectedStorageSize)
    else if !spec.useEmptyDir && spec.pod.storageSize.IsZero() then Some(NoStorageSize)
    else None
  }

  predicate Negative(n: Option<int>) {
    n.Some? && n.value < 0
  }

  /** `isCron` tells which texts the cron library can parse. */
  function ValidateSnapshot(spec: CassandraSpec, isCron: string -> bool): Option<Invalid> {
    if spec.snapshot.None? then None
    else
      var snapshot := spec.snapshot.value;
      if snapshot.schedule == "" then Some(NoSnapshotSchedule)
      else if !isCron(snapshot.schedule) then Some(InvalidSnapshotSchedule)
      else if Negative(snapshot.timeoutSeconds) then Some(NegativeSnapshotTimeout)
      else if snapshot.retentionPolicy.None? then None
      else
        var policy := snapshot.retentionPolicy.value;
        if Negative(policy.retentionPeriodDays) then Some(NegativeRetentionPeriod)
        else if Negative(policy.cleanupTimeoutSeconds) then Some(NegativeCleanupTimeout)
        else if policy.cleanupSchedule != "" && !isCron(policy.cleanupSchedule) then Some(InvalidCleanupSchedule)
        else None
  }

  predicate ValidProbe(probe: Probe) {
    && probe.failureThreshold >= 1
    && probe.initialDelaySeconds >= 1
    && probe.periodSeconds >= 1
    && probe.successThreshold >= 1
    && probe.timeoutSeconds >= 1
  }

  function ValidateBeforeDefaults(spec: CassandraSpec, isCron: string -> bool): Option<Invalid> {
    if ValidateRacks(spec).Some? then ValidateRacks(spec)
    else if ValidatePodResources(spec).Some? then ValidatePodResources(spec)
    else ValidateSnapshot(spec, isCron)
  }

  // ---------- Defaults

  function Or(n: int, default: int): int {
    if n == 0 then default else n
  }

  function MergedProbe(probe: Probe, default: Probe): Probe {
    Probe(Or(probe.failureThreshold, default.failureThreshold),
          Or(probe.initialDelaySeconds, default.initialDelaySeconds),
          Or(probe.periodSeconds, default.periodSeconds),
          Or(probe.successThreshold, default.successThreshold),
          Or(probe.timeoutSeconds, default.timeoutSeconds))
  }

  function ProbeOrDefault(probe: Option<Probe>, default: Probe): Probe {
    if probe.None? then default else MergedProbe(probe.value, default)
  }

  function OrText(text: string, default: string): string {
    if text == "" then default else text
  }

  function WithSnapshotImage(spec: CassandraSpec): CassandraSpec {
    if spec.snapshot.None? then spec
    else spec.(snapshot := Some(spec.snapshot.value.(image := OrText(spec.snapshot.value.image, DEFAULT_SNAPSHOT_IMAGE))))
  }

  function WithLiveness(spec: CassandraSpec): CassandraSpec {
    spec.(pod := spec.pod.(livenessProbe := Some(ProbeOrDefault(spec.pod.livenessProbe, DEFAULT_LIVENESS_PROBE))))
  }

  function WithReadiness(spec: CassandraSpec): CassandraSpec {
    spec.(pod := spec.pod.(readinessProbe := Some(ProbeOrDefault(spec.pod.readinessProbe, DEFAULT_READINESS_PROBE))))
  }

  /** The definition as a successful copy leaves it: the defaults it fills in in place. */
  function Defaulted(spec: CassandraSpec): CassandraSpec {
    WithReadiness(WithLiveness(WithSnapshotImage(spec)))
  }

  /** The specification the operator records for the cluster. */
  function Effective(spec: CassandraSpec): CassandraSpec {
    var d := Defaulted(spec);
    d.(dc := OrText(d.dc, DEFAULT_DC),
       pod := d.pod.(image := OrText(d.pod.image, DEFAULT_CASSANDRA_IMAGE),
                     bootstrapperImage := OrText(d.pod.bootstrapperImage, DEFAULT_BOOTSTRAPPER_IMAGE)))
  }

  predicate ValidLiveness(spec: CassandraSpec) {
    spec.pod.livenessProbe.Some? ==>
      var probe := MergedProbe(spec.pod.livenessProbe.value, DEFAULT_LIVENESS_PROBE);
      probe.successThreshold == 1 && ValidProbe(probe)
  }

  predicate ValidReadiness(spec: CassandraSpec) {
    spec.pod.readinessProbe.Some? ==>
      ValidProbe(MergedProbe(spec.pod.readinessProbe.value, DEFAULT_READINESS_PROBE))
  }

  /** The error a copy ends with, and the definition it leaves behind: partly completed when a probe is invalid. */
  datatype Copied = Copied(error: Option<Invalid>, definition: CassandraSpec)

  function CopyOutcome(spec: CassandraSpec, isCron: string -> bool): Copied {
    if ValidateBeforeDefaults(spec, isCron).Some? then Copied(ValidateBeforeDefaults(spec, isCron), spec)
    else if !ValidLiveness(spec) then Copied(Some(InvalidLivenessProbe), WithLiveness(WithSnapshotImage(spec)))
    else if !ValidReadiness(spec) then Copied(Some(InvalidReadinessProbe), Defaulted(spec))
    else Copied(None, Defaulted(spec))
  }

  predicate IsValid(spec: CassandraSpec, isCron: string -> bool) {
    CopyOutcome(spec, isCron).error.None?
  }

  predicate ProperRack(rack: Rack, useEmptyDir: bool) {
    rack.replicas >= 1 && (useEmptyDir || (rack.storageClass != "" && rack.zone != ""))
  }

  predicate ProperPolicy(policy: RetentionPolicy, isCron: string -> bool) {
    && !Negative(policy.retentionPeriodDays) && !Negative(policy.cleanupTimeoutSeconds)
    && (policy.cleanupSchedule == "" || isCron(policy.cleanupSchedule))
  }

  predicate ProperSnapshot(snapshot: Snapshot, isCron: string -> bool) {
    && snapshot.schedule != "" && isCron(snapshot.schedule) && !Negative(snapshot.timeoutSeconds)
    && (snapshot.retentionPolicy.Some? ==> ProperPolicy(snapshot.retentionPolicy.value, isCron))
  }

  /** Zero means unset, so only negative numbers make a probe invalid. */
  predicate ProperProbe(probe: Probe) {
    && probe.failureThreshold >= 0 && probe.initialDelaySeconds >= 0 && probe.periodSeconds >= 0
    && probe.successThreshold >= 0 && probe.timeoutSeconds >= 0
  }

  /** What makes a definition valid, whichever check comes first. */
  lemma ValidExactlyWhen(spec: CassandraSpec, isCron: string -> bool)
    ensures IsValid(spec, isCron) <==>
            && spec.racks != [] && (forall r :: r in spec.racks ==> ProperRack(r, spec.useEmptyDir))
            && spec.pod.memory.amount != 0 && (spec.pod.storageSize.amount == 0 <==> spec.useEmptyDir)
            && (spec.snapshot.Some? ==> ProperSnapshot(spec.snapshot.value, isCron))
            && (spec.pod.livenessProbe.Some? ==>
                  ProperProbe(spec.pod.livenessProbe.value) && spec.pod.livenessProbe.value.successThreshold <= 1)
            && (spec.pod.readinessProbe.Some? ==> ProperProbe(spec.pod.readinessProbe.value))
  {
    RacksAreProper(spec.racks, spec.useEmptyDir);
  }

  lemma {:induction false} RacksAreProper(racks: seq<Rack>, useEmptyDir: bool)
    ensures ValidateEachRack(racks, useEmptyDir).None? <==> forall r :: r in racks ==> ProperRack(r, useEmptyDir)
  {
    if racks != [] {
      RacksAreProper(racks[1..], useEmptyDir);
      assert ValidateRack(racks[0], useEmptyDir).None? <==> ProperRack(racks[0], useEmptyDir);
      assert forall r :: r in racks <==> r == racks[0] || r in racks[1..];
    }
  }

  /**
   * Copying the definition a copy has completed changes nothing more: it is still valid, and
   * gives the same recorded specification. So the operations triggered by one event, each of
   * which copies the same definition, agree on it.
   */
  lemma CopyingTwice(spec: CassandraSpec, isCron: string -> bool)
    requires IsValid(spec, isCron)
    ensures CopyOutcome(Defaulted(spec), isCron) == Copied(None, Defaulted(spec))
    ensures Effective(Defaulted(spec)) == Effective(spec)
    ensures IsValid(Effective(spec), isCron) && Effective(Effective(spec)) == Effective(spec)
  {
  }

  /** What is checked first does not depend on the defaults. */
  lemma ChecksIgnoreDefaults(spec: CassandraSpec, isCron: string -> bool)
    ensures ValidateBeforeDefaults(WithSnapshotImage(spec), isCron) == ValidateBeforeDefaults(spec, isCron)
    ensures ValidateBeforeDefaults(WithLiveness(spec), isCron) == ValidateBeforeDefaults(spec, isCron)
    ensures ValidateBeforeDefaults(WithReadiness(spec), isCron) == ValidateBeforeDefaults(spec, isCron)
  {
  }

  /** Copying the definition that a copy has left behind, even an invalid one, does the same again. */
  lemma CopyingAgain(spec: CassandraSpec, isCron: string -> bool)
    ensures CopyOutcome(CopyOutcome(spec, isCron).definition, isCron) == CopyOutcome(spec, isCron)
  {
    ChecksIgnoreDefaults(spec, isCron);
    ChecksIgnoreDefaults(WithSnapshotImage(spec), isCron);
    ChecksIgnoreDefaults(WithLiveness(WithSnapshotImage(spec)), isCron);
    hide ValidateBeforeDefaults;
    if ValidateBeforeDefaults(spec, isCron).None? {
      if ValidLiveness(spec) {
        DefaultsTwice(spec);
      } else {
        LivenessTwice(spec);
      }
    }
  }

  lemma LivenessTwice(spec: CassandraSpec)
    ensures var once := WithLiveness(WithSnapshotImage(spec));
            WithLiveness(WithSnapshotImage(once)) == once && (ValidLiveness(once) <==> ValidLiveness(spec))
  {
  }

  lemma DefaultsTwice(spec: CassandraSpec)
    ensures var once := Defaulted(spec);
            && Defaulted(once) == once && WithLiveness(WithSnapshotImage(once)) == once
            && (ValidLiveness(once) <==> ValidLiveness(spec)) && (ValidReadiness(once) <==> ValidReadiness(spec))
  {
  }

  /** A recorded specification has no gaps left. */
  lemma EffectiveIsComplete(spec: CassandraSpec, isCron: string -> bool)
    requires IsValid(spec, isCron)
    ensures var e := Effective(spec);
            && e.dc != "" && e.pod.image != "" && e.pod.bootstrapperImage != ""
            && e.pod.livenessProbe.Some? && ValidProbe(e.pod.livenessProbe.value)
            && e.pod.readinessProbe.Some? && ValidProbe(e.pod.readinessProbe.value)
            && (e.snapshot.Some? ==> e.snapshot.value.image != "")
            && (forall r :: r in e.racks ==> r.replicas >= 1)
  {
    ValidExactlyWhen(spec, isCron);
  }

  // ---------- Which defaults are filled in

  /** A field that is set is kept, and zero means unset. */
  predicate Fills(before: int, after: int, default: int) {
    after == before || (before == 0 && after == default)
  }

  predicate FillsText(before: string, after: string, default: string) {
    if before != "" then after == before else after == default
  }

  predicate FillsProbe(before: Option<Probe>, after: Option<Probe>, default: Probe) {
    after.Some? &&
    if before.None? then after.value == default
    else
      var set_, filled := before.value, after.value;
      && Fills(set_.failureThreshold, filled.failureThreshold, default.failureThreshold)
      && Fills(set_.initialDelaySeconds, filled.initialDelaySeconds, default.initialDelaySeconds)
      && Fills(set_.periodSeconds, filled.periodSeconds, default.periodSeconds)
      && Fills(set_.successThreshold, filled.successThreshold, default.successThreshold)
      && Fills(set_.timeoutSeconds, filled.timeoutSeconds, default.timeoutSeconds)
      && filled.failureThreshold != 0 && filled.initialDelaySeconds != 0 && filled.periodSeconds != 0
      && filled.successThreshold != 0 && filled.timeoutSeconds != 0
  }

  /** What completing a definition in place fills in: the two probes, each with its own defaults, and the image of the snapshot. */
  lemma DefaultedFields(spec: CassandraSpec)
    ensures var d := Defaulted(spec);
            && FillsProbe(spec.pod.livenessProbe, d.pod.livenessProbe, Probe(3, 30, 30, 1, 5))
            && FillsProbe(spec.pod.readinessProbe, d.pod.readinessProbe, Probe(3, 30, 15, 1, 5))
            && (d.snapshot.Some? <==> spec.snapshot.Some?)
            && (spec.snapshot.Some? ==>
                  && FillsText(spec.snapshot.value.image, d.snapshot.value.image, "skyuk/cassandra-snapshot:latest")
                  && d.snapshot.value == spec.snapshot.value.(image := d.snapshot.value.image))
            && d == spec.(pod := spec.pod.(livenessProbe := d.pod.livenessProbe, readinessProbe := d.pod.readinessProbe),
                          snapshot := d.snapshot)
  {
  }

  /** What the record has besides: the datacenter and the two images; everything else is as defined. */
  lemma EffectiveFields(spec: CassandraSpec)
    ensures var e, d := Effective(spec), Defaulted(spec);
            && FillsText(spec.dc, e.dc, "dc1")
            && FillsText(spec.pod.image, e.pod.image, "cassandra:3.11")
            && FillsText(spec.pod.bootstrapperImage, e.pod.bootstrapperImage, "skyuk/cassandra-bootstrapper:latest")
            && e == d.(dc := e.dc, pod := d.pod.(image := e.pod.image, bootstrapperImage := e.pod.bootstrapperImage))
            && e.racks == spec.racks && e.useEmptyDir == spec.useEmptyDir
            && e.pod.cpu == spec.pod.cpu && e.pod.memory == spec.pod.memory && e.pod.storageSize == spec.pod.storageSize
  {
  }

  /** An invalid definition is completed as far as the checks got: not at all, up to the liveness probe, or all of it. */
  lemma InvalidCopyCompletes(spec: CassandraSpec, isCron: string -> bool)
    requires !IsValid(spec, isCron)
    ensures var c := CopyOutcome(spec, isCron);
            match c.error.value
            case InvalidLivenessProbe => c.definition == Defaulted(spec).(pod := Defaulted(spec).pod.(readinessProbe := spec.pod.readinessProbe))
            case InvalidReadinessProbe => c.definition == Defaulted(spec)
            case _ => c.definition == spec
  {
    ChecksComeFirst(spec, isCron);
  }

  lemma ChecksComeFirst(spec: CassandraSpec, isCron: string -> bool)
    ensures ValidateBeforeDefaults(spec, isCron) != Some(InvalidLivenessProbe)
    ensures ValidateBeforeDefaults(spec, isCron) != Some(InvalidReadinessProbe)
  {
    RackErrors(spec.racks, spec.useEmptyDir);
  }

  lemma {:induction false} RackErrors(racks: seq<Rack>, useEmptyDir: bool)
    ensures var error := ValidateEachRack(racks, useEmptyDir);
            error.Some? ==> exists i :: 0 <= i < |racks| && ValidateRack(racks[i], useEmptyDir) == error &&
                                        forall j :: 0 <= j < i ==> ProperRack(racks[j], useEmptyDir)
  {
    if racks != [] && ValidateRack(racks[0], useEmptyDir).None? {
      RackErrors(racks[1..], useEmptyDir);
      if i :| 0 <= i < |racks[1..]| && ValidateRack(racks[1..][i], useEmptyDir) == ValidateEachRack(racks, useEmptyDir) &&
              forall j :: 0 <= j < i ==> ProperRack(racks[1..][j], useEmptyDir) {
        assert racks[1..][i] == racks[i + 1];
        forall j | 0 <= j < i + 1
          ensures ProperRack(racks[j], useEmptyDir)
        {
          assert j > 0 ==> racks[j] == racks[1..][j - 1];
        }
      }
    }
  }

  // ---------- The objects

  /** A Cassandra resource, as the informer hands it to the operator. */
  class Cassandra {
    const namespace: string
    const name: string
    var spec: CassandraSpec

    constructor (namespace: string, name: string, spec: CassandraSpec)
      ensures this.namespace == namespace && this.name == name && this.spec == spec
    {
      this.namespace, this.name, this.spec := namespace, name, spec;
    }

    method CompleteSnapshotImage()
      modifies this`spec
      ensures spec == WithSnapshotImage(old(spec))
    {
      if spec.snapshot.Some? && spec.snapshot.value.image == "" {
        spec := spec.(snapshot := Some(spec.snapshot.value.(image := DEFAULT_SNAPSHOT_IMAGE)));
      }
    }

    /** Fills the gaps of the probe in place, and only then checks it. */
    method CompleteLivenessProbe() returns (valid: bool)
      modifies this`spec
      ensures spec == WithLiveness(old(spec)) && valid == ValidLiveness(old(spec))
    {
      if spec.pod.livenessProbe.None? {
        spec := spec.(pod := spec.pod.(livenessProbe := Some(DEFAULT_LIVENESS_PROBE)));
        return true;
      }
      var probe := MergedProbe(spec.pod.livenessProbe.value, DEFAULT_LIVENESS_PROBE);
      spec := spec.(pod := spec.pod.(livenessProbe := Some(probe)));
      return probe.successThreshold == 1 && ValidProbe(probe);
    }

    method CompleteReadinessProbe() returns (valid: bool)
      modifies this`spec
      ensures spec == WithReadiness(old(spec)) && valid == ValidReadiness(old(spec))
    {
      if spec.pod.readinessProbe.None? {
        spec := spec.(pod := spec.pod.(readinessProbe := Some(DEFAULT_READINESS_PROBE)));
        return true;
      }
      var probe := MergedProbe(spec.pod.readinessProbe.value, DEFAULT_READINESS_PROBE);
      spec := spec.(pod := spec.pod.(readinessProbe := Some(probe)));
      return ValidProbe(probe);
    }
  }

  /** The operator's record of a cluster. */
  class Cluster {
    var namespace: string
    var name: string
    var definition: CassandraSpec
    var online: bool

    constructor (namespace: string, name: string, definition: CassandraSpec)
      ensures this.namespace == namespace && this.name == name && this.definition == definition && !online
    {
      this.namespace, this.name, this.definition, this.online := namespace, name, definition, false;
    }

    /** Completes the definition in place, and records a copy of it unless it is invalid. */
    method CopyInto(clusterDefinition: Cassandra, isCron: string -> bool) returns (error: Option<Invalid>)
      modifies this`namespace, this`name, this`definition, clusterDefinition`spec
      ensures Copied(error, clusterDefinition.spec) == CopyOutcome(old(clusterDefinition.spec), isCron)
      ensures error.None? ==> definition == Effective(old(clusterDefinition.spec)) &&
                              namespace == clusterDefinition.namespace && name == clusterDefinition.name
      ensures error.Some? ==> unchanged(this)
    {
      error := CheckRacks(clusterDefinition.spec);
      if error.Some? {
        return;
      }
      error := ValidatePodResources(clusterDefinition.spec);
      if error.Some? {
        return;
      }
      error := ValidateSnapshot(clusterDefinition.spec, isCron);
      if error.Some? {
        return;
      }
      var cassandraImage := OrText(clusterDefinition.spec.pod.image, DEFAULT_CASSANDRA_IMAGE);
      var bootstrapperImage := OrText(clusterDefinition.spec.pod.bootstrapperImage, DEFAULT_BOOTSTRAPPER_IMAGE);
      clusterDefinition.CompleteSnapshotImage();
      var dc := OrText(clusterDefinition.spec.dc, DEFAULT_DC);
      var validLiveness := clusterDefinition.CompleteLivenessProbe();
      if !validLiveness {
        return Some(InvalidLivenessProbe);
      }
      var validReadiness := clusterDefinition.CompleteReadinessProbe();
      if !validReadiness {
        return Some(InvalidReadinessProbe);
      }
      namespace, name := clusterDefinition.namespace, clusterDefinition.name;
      definition := clusterDefinition.spec.(
        dc := dc,
        pod := clusterDefinition.spec.pod.(image := cassandraImage, bootstrapperImage := bootstrapperImage));
      return None;
    }
  }

  /** `validateRacks`: the first rack that is wrong decides. */
  method CheckRacks(spec: CassandraSpec) returns (error: Option<Invalid>)
    ensures error == ValidateRacks(spec)
    ensures error.None? ==> forall r :: r in spec.racks ==> r.replicas >= 1
  {
    if |spec.racks| == 0 {
      return Some(NoRacks);
    }
    for i := 0 to |spec.racks|
      invariant ValidateEachRack(spec.racks[i..], spec.useEmptyDir) == ValidateEachRack(spec.racks, spec.useEmptyDir)
      invariant forall k :: 0 <= k < i ==> spec.racks[k].replicas >= 1
    {
      error := ValidateRack(spec.racks[i], spec.useEmptyDir);
      assert spec.racks[i..][1..] == spec.racks[i + 1..];
      if error.Some? {
        return;
      }
    }
    return None;
  }
}
