/** The Prometheus gauges of the clusters, and the topologies by which they are removed again. */
module Gauges {
  import opened Wrappers
  import opened ClusterSpec
  import opened NodeStatus

  /** The labels that identify a node: its cluster and namespace, rack and pod. */
  datatype Node = Node(cluster: ClusterId, rack: string, pod: string)

  datatype Series = Series(node: Node, pair: LabelPair)

  type NodeGauge = map<Series, int>

  /** The racks of the pods that the last update saw. */
  type Topology = map<string, string>

  datatype Metrics = Metrics(
    nodeStatus: NodeGauge,
    clusterSize: map<ClusterId, int>,
    topologies: map<ClusterId, Topology>)

  datatype ListedPod = ListedPod(name: string, ip: string)

  /** What an update found out about a pod. */
  datatype Finding = Finding(rack: string, pair: LabelPair)

  const UNKNOWN_RACK := "unknown"

  // ---------- What an update finds

  /** Pods by address; of several with the same address the last one counts. */
  function PodNames(pods: seq<ListedPod>): map<string, string> {
    if pods == [] then map[]
    else
      var last := pods[|pods| - 1];
      PodNames(pods[..|pods| - 1])[last.ip := last.name]
  }

  ghost predicate UniquePodNames(pods: seq<ListedPod>) {
    forall i, j :: 0 <= i < j < |pods| ==> pods[i].name != pods[j].name
  }

  predicate IsInjective(names: map<string, string>) {
    forall a, b :: a in names && b in names && names[a] == names[b] ==> a == b
  }

  lemma {:induction false} NamedPod(pods: seq<ListedPod>, ip: string) returns (i: nat)
    requires ip in PodNames(pods)
    ensures i < |pods| && pods[i] == ListedPod(PodNames(pods)[ip], ip)
  {
    i := |pods| - 1;
    if pods[i].ip != ip {
      i := NamedPod(pods[..i], ip);
    }
  }

  lemma PodNamesAreInjective(pods: seq<ListedPod>)
    requires UniquePodNames(pods)
    ensures IsInjective(PodNames(pods))
  {
    var names := PodNames(pods);
    forall a, b | a in names && b in names && names[a] == names[b]
      ensures a == b
    {
      var i := NamedPod(pods, a);
      var j := NamedPod(pods, b);
    }
  }

  function RackOf(ip: string, racks: map<string, string>): string {
    if ip in racks then racks[ip] else UNKNOWN_RACK
  }

  function AddressOf(pod: string, names: map<string, string>): (ip: string)
    requires IsInjective(names) && pod in names.Values
    ensures ip in names && names[ip] == pod
  {
    var ip :| ip in names && names[ip] == pod;
    ip
  }

  /** The addresses of the pods, by their names. */
  function Addresses(names: map<string, string>): map<string, string>
    requires IsInjective(names)
  {
    map pod | pod in names.Values :: AddressOf(pod, names)
  }

  lemma AddressesInvert(names: map<string, string>, ip: string)
    requires IsInjective(names)
    ensures ip in names ==> names[ip] in Addresses(names) && Addresses(names)[names[ip]] == ip
    ensures ip in names ==> forall pod :: pod in Addresses(names) && Addresses(names)[pod] == ip ==> pod == names[ip]
    ensures ip !in names ==> forall pod :: pod in Addresses(names) ==> Addresses(names)[pod] != ip
  {
  }

  function FindingsAt(addresses: map<string, string>, statuses: map<string, Status>, racks: map<string, string>): map<string, Finding> {
    map pod | pod in addresses && addresses[pod] in statuses ::
      Finding(RackOf(addresses[pod], racks), Applicable(statuses[addresses[pod]]))
  }

  /** Findings by pod name, for the nodes whose pods are known. */
  function Findings(names: map<string, string>, statuses: map<string, Status>, racks: map<string, string>): map<string, Finding>
    requires IsInjective(names)
  {
    FindingsAt(Addresses(names), statuses, racks)
  }

  function TopologyOf(findings: map<string, Finding>): Topology {
    map pod | pod in findings :: findings[pod].rack
  }

  // ---------- What becomes of the gauges

  function SeriesOf(nodes: set<Node>): set<Series> {
    set n, l | n in nodes && l in ALL_LABEL_PAIRS :: Series(n, l)
  }

  lemma SeriesOfHas(nodes: set<Node>)
    ensures forall s :: s in SeriesOf(nodes) <==> s.node in nodes
  {
    forall s: Series | s.node in nodes
      ensures s in SeriesOf(nodes)
    {
      EveryPairIsListed(s.pair);
      assert s == Series(s.node, s.pair);
    }
  }

  function OneIf(condition: bool): int {
    if condition then 1 else 0
  }

  /** A gauge that shows the pair for the node, and none of the other seven. */
  function ShowNode(g: NodeGauge, node: Node, pair: LabelPair): NodeGauge {
    map s | s in g.Keys + SeriesOf({node}) :: if s.node == node then OneIf(s.pair == pair) else g[s]
  }

  predicate IsFound(node: Node, id: ClusterId, topology: Topology) {
    node.cluster == id && node.pod in topology && topology[node.pod] == node.rack
  }

  function NodesOf(id: ClusterId, topology: Topology): set<Node> {
    set pod | pod in topology :: Node(id, topology[pod], pod)
  }

  lemma NodesOfHas(id: ClusterId, topology: Topology)
    ensures forall n :: n in NodesOf(id, topology) <==> IsFound(n, id, topology)
  {
    forall n | IsFound(n, id, topology)
      ensures n in NodesOf(id, topology)
    {
      assert n == Node(id, topology[n.pod], n.pod);
    }
  }

  /** The gauge after an update, in whatever order the findings were recorded. */
  function ShowFindings(g: NodeGauge, id: ClusterId, findings: map<string, Finding>): NodeGauge {
    var topology := TopologyOf(findings);
    map s | s in g.Keys + SeriesOf(NodesOf(id, topology)) ::
      if IsFound(s.node, id, topology) then OneIf(s.pair == findings[s.node.pod].pair) else g[s]
  }

  lemma ShowNodeAt(g: NodeGauge, node: Node, pair: LabelPair, s: Series)
    ensures s in ShowNode(g, node, pair) <==> s in g || s.node == node
    ensures s.node == node ==> s in ShowNode(g, node, pair) && ShowNode(g, node, pair)[s] == OneIf(s.pair == pair)
    ensures s in g && s.node != node ==> ShowNode(g, node, pair)[s] == g[s]
  {
    SeriesOfHas({node});
  }

  lemma ShowFindingsAt(g: NodeGauge, id: ClusterId, findings: map<string, Finding>, s: Series)
    ensures s in ShowFindings(g, id, findings) <==> s in g || IsFound(s.node, id, TopologyOf(findings))
    ensures IsFound(s.node, id, TopologyOf(findings)) ==>
              s in ShowFindings(g, id, findings) && ShowFindings(g, id, findings)[s] == OneIf(s.pair == findings[s.node.pod].pair)
    ensures s in g && !IsFound(s.node, id, TopologyOf(findings)) ==> ShowFindings(g, id, findings)[s] == g[s]
  {
    NodesOfHas(id, TopologyOf(findings));
    SeriesOfHas(NodesOf(id, TopologyOf(findings)));
  }

  function Removed(g: NodeGauge, nodes: set<Node>): NodeGauge {
    map s | s in g && s.node !in nodes :: g[s]
  }

  function AfterReport(m: Metrics, id: ClusterId, findings: map<string, Finding>): Metrics {
    var topology := TopologyOf(findings);
    Metrics(ShowFindings(m.nodeStatus, id, findings), m.clusterSize[id := |topology|], m.topologies[id := topology])
  }

  function AfterDelete(m: Metrics, id: ClusterId): Metrics {
    var sizes := m.clusterSize - {id};
    if id !in m.topologies then m.(clusterSize := sizes)
    else Metrics(Removed(m.nodeStatus, NodesOf(id, m.topologies[id])), sizes, m.topologies - {id})
  }

  lemma ShowOneMore(g: NodeGauge, id: ClusterId, findings: map<string, Finding>, pod: string, finding: Finding)
    requires pod !in findings
    ensures ShowFindings(g, id, findings[pod := finding]) ==
            ShowNode(ShowFindings(g, id, findings), Node(id, finding.rack, pod), finding.pair)
    ensures TopologyOf(findings[pod := finding]) == TopologyOf(findings)[pod := finding.rack]
  {
    var node, more := Node(id, finding.rack, pod), findings[pod := finding];
    var shown, before := ShowFindings(g, id, more), ShowFindings(g, id, findings);
    forall s
      ensures s in shown <==> s in ShowNode(before, node, finding.pair)
      ensures s in shown ==> shown[s] == ShowNode(before, node, finding.pair)[s]
    {
      ShowFindingsAt(g, id, more, s);
      ShowFindingsAt(g, id, findings, s);
      ShowNodeAt(before, node, finding.pair, s);
    }
  }

  // ---------- The operations

  class PrometheusMetrics {
    var nodeStatus: NodeGauge
    var clusterSize: map<ClusterId, int>
    var topologies: map<ClusterId, Topology>

    constructor ()
      ensures State() == Metrics(map[], map[], map[])
    {
      nodeStatus, clusterSize, topologies := map[], map[], map[];
    }

    function State(): Metrics
      reads this
    {
      Metrics(nodeStatus, clusterSize, topologies)
    }

    method PodsInCluster(pods: seq<ListedPod>) returns (names: map<string, string>)
      ensures names == PodNames(pods)
    {
      names := map[];
      for i := 0 to |pods|
        invariant names == PodNames(pods[..i])
      {
        assert pods[..i + 1][..i] == pods[..i];
        names := names[pods[i].ip := pods[i].name];
      }
      assert pods[..|pods|] == pods;
    }

    method UpdateNodeStatus(node: Node, status: Status)
      modifies this`nodeStatus
      ensures nodeStatus == ShowNode(old(nodeStatus), node, Applicable(status))
    {
      var applicable := Applicable(status);
      nodeStatus := nodeStatus[Series(node, applicable) := 1];
      var pairs := UnapplicableLabelPairs(status);
      ZeroOthers(node, applicable, pairs);
    }

    method ZeroOthers(node: Node, applicable: LabelPair, pairs: seq<LabelPair>)
      requires forall l :: l in pairs <==> l != applicable
      requires Series(node, applicable) in nodeStatus && nodeStatus[Series(node, applicable)] == 1
      modifies this`nodeStatus
      ensures nodeStatus == ShowNode(old(nodeStatus), node, applicable)
    {
      for i := 0 to |pairs|
        invariant forall s :: s in nodeStatus <==> s in old(nodeStatus) || (s.node == node && s.pair in pairs[..i])
        invariant forall s :: s in nodeStatus ==>
                    nodeStatus[s] == if s.node == node && s.pair in pairs[..i] then 0 else old(nodeStatus)[s]
      {
        assert pairs[..i + 1] == pairs[..i] + [pairs[i]];
        nodeStatus := nodeStatus[Series(node, pairs[i]) := 0];
      }
      assert pairs[..|pairs|] == pairs;
      SeriesOfHas({node});
    }

    /** Nothing changes when the pods or the statuses cannot be fetched. */
    method UpdateMetrics(id: ClusterId, pods: Option<seq<ListedPod>>, report: Option<ClusterStatus>)
      requires pods.Some? ==> UniquePodNames(pods.value)
      modifies this
      ensures pods.None? || report.None? ==> State() == old(State())
      ensures pods.Some? && report.Some? ==>
                IsInjective(PodNames(pods.value)) &&
                State() == AfterReport(old(State()), id, Findings(PodNames(pods.value), Statuses(report.value), report.value.nodeRacks))
    {
      if pods.None? || report.None? {
        return;
      }
      var names := PodsInCluster(pods.value);
      PodNamesAreInjective(pods.value);
      var statuses := TransformClusterStatus(report.value);
      var topology := RecordFindings(id, names, statuses, report.value.nodeRacks);
      SetTopology(id, topology);
    }

    method SetTopology(id: ClusterId, topology: Topology)
      modifies this`topologies, this`clusterSize
      ensures topologies == old(topologies)[id := topology] && clusterSize == old(clusterSize)[id := |topology|]
    {
      topologies := topologies[id := topology];
      clusterSize := clusterSize[id := |topology|];
    }

    /** The loop over the statuses, whose order Go leaves open. */
    method RecordFindings(id: ClusterId, names: map<string, string>, statuses: map<string, Status>, racks: map<string, string>)
      returns (topology: Topology)
      requires IsInjective(names)
      modifies this`nodeStatus
      ensures topology == TopologyOf(Findings(names, statuses, racks))
      ensures nodeStatus == ShowFindings(old(nodeStatus), id, Findings(names, statuses, racks))
    {
      topology := map[];
      var todo := statuses.Keys;
      NothingFound(old(nodeStatus), id, names, statuses, racks);
      while todo != {}
        invariant todo <= statuses.Keys
        invariant topology == TopologyOf(Findings(names, statuses - todo, racks))
        invariant nodeStatus == ShowFindings(old(nodeStatus), id, Findings(names, statuses - todo, racks))
        decreases todo
      {
        var ip :| ip in todo;
        FindOneMore(old(nodeStatus), id, names, statuses, racks, todo, ip);
        if ip in names {
          var rack := RackOf(ip, racks);
          topology := topology[names[ip] := rack];
          UpdateNodeStatus(Node(id, rack, names[ip]), statuses[ip]);
        }
        todo := todo - {ip};
      }
      assert statuses - {} == statuses;
    }

    method RemoveNodeFromMetrics(node: Node)
      modifies this`nodeStatus
      ensures nodeStatus == Removed(old(nodeStatus), {node})
    {
      RemoveSeries(node, ALL_LABEL_PAIRS);
      forall s | s in old(nodeStatus) && s.node == node
        ensures s.pair in ALL_LABEL_PAIRS
      {
        EveryPairIsListed(s.pair);
      }
    }

    method RemoveSeries(node: Node, pairs: seq<LabelPair>)
      modifies this`nodeStatus
      ensures nodeStatus == map s | s in old(nodeStatus) && !(s.node == node && s.pair in pairs) :: old(nodeStatus)[s]
    {
      for i := 0 to |pairs|
        invariant nodeStatus == map s | s in old(nodeStatus) && !(s.node == node && s.pair in pairs[..i]) :: old(nodeStatus)[s]
      {
        assert pairs[..i + 1] == pairs[..i] + [pairs[i]];
        nodeStatus := nodeStatus - {Series(node, pairs[i])};
      }
      assert pairs[..|pairs|] == pairs;
    }

    method DeleteMetrics(id: ClusterId)
      modifies this
      ensures State() == AfterDelete(old(State()), id)
    {
      clusterSize := clusterSize - {id};
      if id !in topologies {
        return;
      }
      var topology := topologies[id];
      var todo := topology.Keys;
      while todo != {}
        invariant todo <= topology.Keys
        invariant nodeStatus == Removed(old(nodeStatus), NodesOf(id, topology - todo))
        invariant clusterSize == old(clusterSize) - {id} && topologies == old(topologies)
        decreases todo
      {
        var pod :| pod in todo;
        OneMoreNode(id, topology, todo, pod);
        RemoveNodeFromMetrics(Node(id, topology[pod], pod));
        todo := todo - {pod};
      }
      assert topology - {} == topology;
      topologies := topologies - {id};
    }
  }

  lemma OneMoreNode(id: ClusterId, topology: Topology, todo: set<string>, pod: string)
    requires pod in todo && todo <= topology.Keys
    ensures NodesOf(id, topology - (todo - {pod})) == NodesOf(id, topology - todo) + {Node(id, topology[pod], pod)}
  {
    NodesOfHas(id, topology - (todo - {pod}));
    NodesOfHas(id, topology - todo);
  }

  lemma NothingFound(g: NodeGauge, id: ClusterId, names: map<string, string>, statuses: map<string, Status>, racks: map<string, string>)
    requires IsInjective(names)
    ensures var none := Findings(names, statuses - statuses.Keys, racks);
            none == map[] && TopologyOf(none) == map[] && ShowFindings(g, id, none) == g
  {
    hide Addresses;
    var none: map<string, Finding> := map[];
    assert statuses - statuses.Keys == map[];
    NoStatusNoFinding(Addresses(names), racks);
    forall s
      ensures s in ShowFindings(g, id, none) <==> s in g
      ensures s in g ==> ShowFindings(g, id, none)[s] == g[s]
    {
      ShowFindingsAt(g, id, none, s);
    }
  }

  lemma NoStatusNoFinding(addresses: map<string, string>, racks: map<string, string>)
    ensures FindingsAt(addresses, map[], racks) == map[]
  {
  }

  lemma FindingsInsert(addresses: map<string, string>, statuses: map<string, Status>, racks: map<string, string>, pod: string, status: Status)
    requires pod in addresses && addresses[pod] !in statuses
    requires forall p :: p in addresses && addresses[p] == addresses[pod] ==> p == pod
    ensures pod !in FindingsAt(addresses, statuses, racks)
    ensures FindingsAt(addresses, statuses[addresses[pod] := status], racks) ==
            FindingsAt(addresses, statuses, racks)[pod := Finding(RackOf(addresses[pod], racks), Applicable(status))]
  {
    hide RackOf, Applicable;
    var ip := addresses[pod];
    var before, after := FindingsAt(addresses, statuses, racks), FindingsAt(addresses, statuses[ip := status], racks);
    forall p | p != pod
      ensures p in after <==> p in before
      ensures p in after ==> after[p] == before[p]
    {
      assert p in addresses ==> addresses[p] != ip;
    }
  }

  lemma FindingsIgnore(addresses: map<string, string>, statuses: map<string, Status>, racks: map<string, string>, ip: string, status: Status)
    requires forall p :: p in addresses ==> addresses[p] != ip
    ensures FindingsAt(addresses, statuses[ip := status], racks) == FindingsAt(addresses, statuses, racks)
  {
  }

  /** One more status adds one finding, if its pod is known. */
  lemma FindOneMore(g: NodeGauge, id: ClusterId, names: map<string, string>, statuses: map<string, Status>, racks: map<string, string>,
                    todo: set<string>, ip: string)
    requires IsInjective(names) && ip in todo && todo <= statuses.Keys
    ensures var before, after := Findings(names, statuses - todo, racks), Findings(names, statuses - (todo - {ip}), racks);
            var rack, pair := RackOf(ip, racks), Applicable(statuses[ip]);
            && (ip !in names ==> after == before)
            && (ip in names ==>
                  && TopologyOf(after) == TopologyOf(before)[names[ip] := rack]
                  && ShowFindings(g, id, after) == ShowNode(ShowFindings(g, id, before), Node(id, rack, names[ip]), pair))
  {
    hide Addresses, FindingsAt;
    AddressesInvert(names, ip);
    assert statuses - (todo - {ip}) == (statuses - todo)[ip := statuses[ip]];
    if ip in names {
      FindingsInsert(Addresses(names), statuses - todo, racks, names[ip], statuses[ip]);
      ShowOneMore(g, id, Findings(names, statuses - todo, racks), names[ip], Finding(RackOf(ip, racks), Applicable(statuses[ip])));
    } else {
      FindingsIgnore(Addresses(names), statuses - todo, racks, ip, statuses[ip]);
    }
  }

  // ---------- Whole runs

  /** An update that could fetch everything, one that could not, or the removal of a cluster's metrics. */
  datatype Action =
    | Report(id: ClusterId, pods: seq<ListedPod>, report: ClusterStatus)
    | FailedReport(id: ClusterId)
    | Delete(id: ClusterId)

  ghost predicate NamesPodsUniquely(action: Action) {
    action.Report? ==> UniquePodNames(action.pods)
  }

  ghost function FindingsOf(action: Action): map<string, Finding>
    requires action.Report? && NamesPodsUniquely(action)
  {
    PodNamesAreInjective(action.pods);
    Findings(PodNames(action.pods), Statuses(action.report), action.report.nodeRacks)
  }

  ghost function AfterAction(m: Metrics, action: Action): Metrics
    requires NamesPodsUniquely(action)
  {
    match action
    case Report(id, _, _) => AfterReport(m, id, FindingsOf(action))
    case FailedReport(_) => m
    case Delete(id) => AfterDelete(m, id)
  }

  ghost predicate AllNamePodsUniquely(actions: seq<Action>) {
    forall a :: a in actions ==> NamesPodsUniquely(a)
  }

  ghost function AfterActions(actions: seq<Action>): Metrics
    requires AllNamePodsUniquely(actions)
  {
    if actions == [] then Metrics(map[], map[], map[])
    else AfterAction(AfterActions(actions[..|actions| - 1]), actions[|actions| - 1])
  }

  /** The topology that the last report on a cluster found, unless its metrics were deleted since. */
  ghost function LastTopology(actions: seq<Action>, id: ClusterId): Option<Topology>
    requires AllNamePodsUniquely(actions)
  {
    if actions == [] then None
    else
      var last := actions[|actions| - 1];
      if last.id != id || last.FailedReport? then LastTopology(actions[..|actions| - 1], id)
      else if last.Report? then Some(TopologyOf(FindingsOf(last)))
      else None
  }

  ghost predicate InLastTopology(actions: seq<Action>, node: Node)
    requires AllNamePodsUniquely(actions)
  {
    var topology := LastTopology(actions, node.cluster);
    topology.Some? && IsFound(node, node.cluster, topology.value)
  }

  /**
   * The labels the gauge should show for a node: those of the last report that found it,
   * and none if it was never found or was removed together with the topology it was in.
   */
  ghost function Shown(actions: seq<Action>, node: Node): Option<LabelPair>
    requires AllNamePodsUniquely(actions)
  {
    if actions == [] then None
    else
      var earlier, last := actions[..|actions| - 1], actions[|actions| - 1];
      if last.Report? && IsFound(node, last.id, TopologyOf(FindingsOf(last))) then Some(FindingsOf(last)[node.pod].pair)
      else if last.Delete? && last.id == node.cluster && InLastTopology(earlier, node) then None
      else Shown(earlier, node)
  }

  ghost predicate ShowsAt(g: NodeGauge, s: Series, shown: Option<LabelPair>) {
    (s in g <==> shown.Some?) && (s in g ==> g[s] == OneIf(s.pair == shown.value))
  }

  ghost predicate ReflectsNodes(g: NodeGauge, actions: seq<Action>)
    requires AllNamePodsUniquely(actions)
  {
    forall s: Series :: ShowsAt(g, s, Shown(actions, s.node))
  }

  function At<T>(m: map<ClusterId, T>, id: ClusterId): Option<T> {
    if id in m then Some(m[id]) else None
  }

  ghost predicate ReflectsTopologies(m: Metrics, actions: seq<Action>)
    requires AllNamePodsUniquely(actions)
  {
    && (forall id :: At(m.topologies, id) == LastTopology(actions, id))
    && (forall id :: At(m.clusterSize, id) == if id in m.topologies then Some(|m.topologies[id]|) else None)
  }

  ghost predicate Reflects(m: Metrics, actions: seq<Action>)
    requires AllNamePodsUniquely(actions)
  {
    ReflectsNodes(m.nodeStatus, actions) && ReflectsTopologies(m, actions)
  }

  /** After any run the gauges are what its history says they should be. */
  lemma {:induction false} GaugesFollowHistory(actions: seq<Action>)
    requires AllNamePodsUniquely(actions)
    ensures Reflects(AfterActions(actions), actions)
  {
    if actions != [] {
      GaugesFollowHistory(actions[..|actions| - 1]);
      var m := AfterActions(actions[..|actions| - 1]);
      var last := actions[|actions| - 1];
      assert last in actions;
      if last.Report? {
        ReportReflects(actions, m);
      } else if last.Delete? {
        DeleteReflects(actions, m);
      }
    }
  }

  lemma ReportReflects(actions: seq<Action>, m: Metrics)
    requires AllNamePodsUniquely(actions) && actions != [] && actions[|actions| - 1].Report?
    requires Reflects(m, actions[..|actions| - 1])
    ensures Reflects(AfterAction(m, actions[|actions| - 1]), actions)
  {
    hide FindingsOf;
    var earlier, last := actions[..|actions| - 1], actions[|actions| - 1];
    var after := AfterAction(m, last);
    forall s: Series
      ensures ShowsAt(after.nodeStatus, s, Shown(actions, s.node))
    {
      assert ShowsAt(m.nodeStatus, s, Shown(earlier, s.node));
      ShowFindingsAt(m.nodeStatus, last.id, FindingsOf(last), s);
    }
    ReportReflectsTopologies(actions, m);
  }

  lemma ReportReflectsTopologies(actions: seq<Action>, m: Metrics)
    requires AllNamePodsUniquely(actions) && actions != [] && actions[|actions| - 1].Report?
    requires ReflectsTopologies(m, actions[..|actions| - 1])
    ensures ReflectsTopologies(AfterAction(m, actions[|actions| - 1]), actions)
  {
    hide FindingsOf;
    var earlier, last := actions[..|actions| - 1], actions[|actions| - 1];
    var after := AfterAction(m, last);
    forall id
      ensures At(after.topologies, id) == LastTopology(actions, id)
    {
      assert At(m.topologies, id) == LastTopology(earlier, id);
    }
    forall id
      ensures At(after.clusterSize, id) == if id in after.topologies then Some(|after.topologies[id]|) else None
    {
      assert At(m.clusterSize, id) == if id in m.topologies then Some(|m.topologies[id]|) else None;
    }
  }

  lemma RemovedAt(g: NodeGauge, id: ClusterId, topology: Topology, s: Series)
    ensures var after := Removed(g, NodesOf(id, topology));
            (s in after <==> s in g && !IsFound(s.node, id, topology)) && (s in after ==> after[s] == g[s])
  {
    NodesOfHas(id, topology);
  }

  lemma DeleteReflects(actions: seq<Action>, m: Metrics)
    requires AllNamePodsUniquely(actions) && actions != [] && actions[|actions| - 1].Delete?
    requires Reflects(m, actions[..|actions| - 1])
    ensures Reflects(AfterAction(m, actions[|actions| - 1]), actions)
  {
    hide FindingsOf;
    var earlier, last := actions[..|actions| - 1], actions[|actions| - 1];
    var after := AfterAction(m, last);
    assert At(m.topologies, last.id) == LastTopology(earlier, last.id);
    forall s: Series
      ensures ShowsAt(after.nodeStatus, s, Shown(actions, s.node))
    {
      assert ShowsAt(m.nodeStatus, s, Shown(earlier, s.node));
      if last.id in m.topologies {
        RemovedAt(m.nodeStatus, last.id, m.topologies[last.id], s);
      }
    }
    DeleteReflectsTopologies(actions, m);
  }

  lemma DeleteReflectsTopologies(actions: seq<Action>, m: Metrics)
    requires AllNamePodsUniquely(actions) && actions != [] && actions[|actions| - 1].Delete?
    requires ReflectsTopologies(m, actions[..|actions| - 1])
    ensures ReflectsTopologies(AfterAction(m, actions[|actions| - 1]), actions)
  {
    hide FindingsOf;
    var earlier, last := actions[..|actions| - 1], actions[|actions| - 1];
    var after := AfterAction(m, last);
    forall id
      ensures At(after.topologies, id) == LastTopology(actions, id)
    {
      assert At(m.topologies, id) == LastTopology(earlier, id);
    }
    forall id
      ensures At(after.clusterSize, id) == if id in after.topologies then Some(|after.topologies[id]|) else None
    {
      assert At(m.clusterSize, id) == if id in m.topologies then Some(|m.topologies[id]|) else None;
    }
  }

  /** All eight label pairs are there, and exactly one of them has the value 1. */
  ghost predicate OneHot(g: NodeGauge, node: Node) {
    exists shown: LabelPair :: ShowsOnly(g, node, shown)
  }

  ghost predicate ShowsOnly(g: NodeGauge, node: Node, shown: LabelPair) {
    forall pair :: Series(node, pair) in g && g[Series(node, pair)] == OneIf(pair == shown)
  }

  /** After any run, every node that has a series has all eight, one of them set. */
  lemma GaugesAreOneHot(actions: seq<Action>, s: Series)
    requires AllNamePodsUniquely(actions) && s in AfterActions(actions).nodeStatus
    ensures OneHot(AfterActions(actions).nodeStatus, s.node)
  {
    GaugesFollowHistory(actions);
    var g := AfterActions(actions).nodeStatus;
    var shown := Shown(actions, s.node);
    assert ShowsAt(g, s, shown);
    forall pair
      ensures Series(s.node, pair) in g && g[Series(s.node, pair)] == OneIf(pair == shown.value)
    {
      assert ShowsAt(g, Series(s.node, pair), Shown(actions, Series(s.node, pair).node));
    }
    assert ShowsOnly(g, s.node, shown.value);
  }

  /** The size of a cluster is the number of pods of the last report on it, and is gone after a deletion. */
  lemma SizeIsThatOfLastReport(actions: seq<Action>, id: ClusterId)
    requires AllNamePodsUniquely(actions)
    ensures var size, topology := AfterActions(actions).clusterSize, LastTopology(actions, id);
            && (id in size <==> topology.Some?)
            && (id in size ==> size[id] == |topology.value|)
  {
    GaugesFollowHistory(actions);
    var m := AfterActions(actions);
    assert At(m.topologies, id) == LastTopology(actions, id);
    assert At(m.clusterSize, id) == if id in m.topologies then Some(|m.topologies[id]|) else None;
  }

  // ---------- What a deletion leaves behind

  ghost predicate Finds(action: Action, node: Node) {
    NamesPodsUniquely(action) && action.Report? && IsFound(node, action.id, TopologyOf(FindingsOf(action)))
  }

  predicate IsReportOn(action: Action, id: ClusterId) {
    action.Report? && action.id == id
  }

  predicate IsDeletionOf(action: Action, id: ClusterId) {
    action.Delete? && action.id == id
  }

  /** The `i`-th action was the last to find the node. */
  ghost predicate LastFound(actions: seq<Action>, node: Node, i: nat) {
    i < |actions| && Finds(actions[i], node) && forall k :: i < k < |actions| ==> !Finds(actions[k], node)
  }

  /** The node was last found by the `i`-th action, and the cluster's metrics were not deleted before the `j`-th, a later report. */
  ghost predicate VanishedAt(actions: seq<Action>, node: Node, i: nat, j: nat) {
    LastFound(actions, node, i) && i < j < |actions| && IsReportOn(actions[j], node.cluster) &&
    forall k :: i < k < j ==> !IsDeletionOf(actions[k], node.cluster)
  }

  /** A report on the cluster missed the node before the deletion that would have removed it. */
  ghost predicate Vanished(actions: seq<Action>, node: Node) {
    exists i: nat, j: nat :: VanishedAt(actions, node, i, j)
  }

  ghost predicate CurrentAt(actions: seq<Action>, node: Node, i: nat) {
    LastFound(actions, node, i) &&
    forall k :: i < k < |actions| ==> !IsReportOn(actions[k], node.cluster) && !IsDeletionOf(actions[k], node.cluster)
  }

  /** The last report on the cluster found the node, and its metrics were not deleted since. */
  ghost predicate Current(actions: seq<Action>, node: Node) {
    exists i: nat :: CurrentAt(actions, node, i)
  }

  lemma CurrentOneMore(earlier: seq<Action>, last: Action, node: Node)
    ensures Current(earlier + [last], node) <==>
            Finds(last, node) || (Current(earlier, node) && !IsReportOn(last, node.cluster) && !IsDeletionOf(last, node.cluster))
  {
    hide Finds;
    var actions := earlier + [last];
    assert Finds(last, node) ==> IsReportOn(last, node.cluster) by { FindsIsReport(last, node); }
    if Finds(last, node) {
      assert CurrentAt(actions, node, |earlier|);
    }
    if i: nat :| CurrentAt(actions, node, i) && i < |earlier| {
      assert actions[|earlier|] == last;
      assert forall k :: 0 <= k < |earlier| ==> actions[k] == earlier[k];
      assert CurrentAt(earlier, node, i);
    }
    if i: nat :| CurrentAt(earlier, node, i) {
      assert !Finds(last, node) && !IsReportOn(last, node.cluster) && !IsDeletionOf(last, node.cluster) ==> CurrentAt(actions, node, i);
    }
  }

  lemma FindsIsReport(action: Action, node: Node)
    ensures Finds(action, node) ==> IsReportOn(action, node.cluster)
  {
  }

  lemma VanishedOneMore(earlier: seq<Action>, last: Action, node: Node)
    ensures Vanished(earlier + [last], node) <==>
            !Finds(last, node) && (Vanished(earlier, node) || (Current(earlier, node) && IsReportOn(last, node.cluster)))
  {
    hide Finds;
    var actions := earlier + [last];
    assert forall k :: 0 <= k < |earlier| ==> actions[k] == earlier[k];
    assert actions[|earlier|] == last;
    if i: nat, j: nat :| VanishedAt(actions, node, i, j) {
      assert LastFound(earlier, node, i);
      if j < |earlier| {
        assert VanishedAt(earlier, node, i, j);
      } else if k :| i < k < j && IsReportOn(earlier[k], node.cluster) {
        assert VanishedAt(earlier, node, i, k);
      } else {
        assert CurrentAt(earlier, node, i);
      }
    }
    if !Finds(last, node) {
      if i: nat, j: nat :| VanishedAt(earlier, node, i, j) {
        assert VanishedAt(actions, node, i, j);
      }
      if i: nat :| CurrentAt(earlier, node, i) {
        assert IsReportOn(last, node.cluster) ==> VanishedAt(actions, node, i, |earlier|);
      }
    }
  }

  /** A node is shown because it is in the last topology, or because it vanished from it unnoticed. */
  lemma {:induction false} ShownIsCurrentOrVanished(actions: seq<Action>, node: Node)
    requires AllNamePodsUniquely(actions)
    ensures Current(actions, node) <==> Shown(actions, node).Some? && InLastTopology(actions, node)
    ensures Vanished(actions, node) <==> Shown(actions, node).Some? && !InLastTopology(actions, node)
  {
    hide FindingsOf, IsFound, TopologyOf;
    if actions != [] {
      var earlier, last := actions[..|actions| - 1], actions[|actions| - 1];
      assert actions == earlier + [last] && last in actions;
      FindsIsReport(last, node);
      ShownIsCurrentOrVanished(earlier, node);
      CurrentOneMore(earlier, last, node);
      VanishedOneMore(earlier, last, node);
    }
  }

  /**
   * Deleting a cluster's metrics removes exactly the series of the last topology and never
   * touches another cluster. All of the cluster's series are gone exactly when, for every
   * node, no report missed it before the deletion that would have removed it.
   */
  lemma DeletionRemovesLastTopology(actions: seq<Action>, id: ClusterId)
    requires AllNamePodsUniquely(actions)
    ensures AllNamePodsUniquely(actions + [Delete(id)])
    ensures var before, after := AfterActions(actions).nodeStatus, AfterActions(actions + [Delete(id)]).nodeStatus;
            && (forall s :: s in after <==> s in before && !(s.node.cluster == id && InLastTopology(actions, s.node)))
            && (forall s :: s in after ==> s in before && after[s] == before[s])
            && ((forall s :: s in after ==> s.node.cluster != id) <==>
                (forall node: Node :: node.cluster == id ==> !Vanished(actions, node)))
  {
    DeletionRemoves(actions, id);
    var before, after := AfterActions(actions).nodeStatus, AfterActions(actions + [Delete(id)]).nodeStatus;
    GaugesFollowHistory(actions);
    forall s: Series | s.node.cluster == id
      ensures s in after <==> Vanished(actions, s.node)
    {
      ShownIsCurrentOrVanished(actions, s.node);
      assert ShowsAt(before, s, Shown(actions, s.node));
    }
    if node: Node :| node.cluster == id && Vanished(actions, node) {
      assert Series(node, LabelPair(Up, Normal)) in after;
    }
  }

  lemma DeletionRemoves(actions: seq<Action>, id: ClusterId)
    requires AllNamePodsUniquely(actions)
    ensures AllNamePodsUniquely(actions + [Delete(id)])
    ensures var before, after := AfterActions(actions).nodeStatus, AfterActions(actions + [Delete(id)]).nodeStatus;
            && (forall s :: s in after <==> s in before && !(s.node.cluster == id && InLastTopology(actions, s.node)))
            && (forall s :: s in after ==> s in before && after[s] == before[s])
  {
    var m := AfterActions(actions);
    assert (actions + [Delete(id)])[..|actions|] == actions;
    GaugesFollowHistory(actions);
    assert At(m.topologies, id) == LastTopology(actions, id);
    var after := AfterActions(actions + [Delete(id)]).nodeStatus;
    forall s
      ensures s in after <==> s in m.nodeStatus && !(s.node.cluster == id && InLastTopology(actions, s.node))
      ensures s in after ==> s in m.nodeStatus && after[s] == m.nodeStatus[s]
    {
      if id in m.topologies {
        RemovedAt(m.nodeStatus, id, m.topologies[id], s);
      }
    }
  }

  /** A pod that is gone when the second report comes is still shown after the deletion. */
  lemma VanishedPodStaysShown(id: ClusterId, pod: ListedPod)
    ensures var seen := Report(id, [pod], ClusterStatus(map[], [pod.ip], [], [], [], []));
            var gone := Report(id, [], ClusterStatus(map[], [], [], [], [], []));
            && AllNamePodsUniquely([seen, gone, Delete(id)])
            && Series(Node(id, UNKNOWN_RACK, pod.name), LabelPair(Up, Normal)) in AfterActions([seen, gone, Delete(id)]).nodeStatus
  {
    var seen := Report(id, [pod], ClusterStatus(map[], [pod.ip], [], [], [], []));
    var gone := Report(id, [], ClusterStatus(map[], [], [], [], [], []));
    var node, actions := Node(id, UNKNOWN_RACK, pod.name), [seen, gone];
    SinglePodIsFound(id, pod);
    assert Finds(actions[0], node) && !Finds(actions[1], node) by {
      assert PodNames([]) == map[] && FindingsOf(gone) == map[];
    }
    assert LastFound(actions, node, 0) && VanishedAt(actions, node, 0, 1);
    assert actions + [Delete(id)] == [seen, gone, Delete(id)];
    ShownIsCurrentOrVanished(actions, node);
    GaugesFollowHistory(actions);
    DeletionRemoves(actions, id);
    assert ShowsAt(AfterActions(actions).nodeStatus, Series(node, LabelPair(Up, Normal)), Shown(actions, node));
  }

  lemma SinglePodIsFound(id: ClusterId, pod: ListedPod)
    ensures Finds(Report(id, [pod], ClusterStatus(map[], [pod.ip], [], [], [], [])), Node(id, UNKNOWN_RACK, pod.name))
  {
    var report := ClusterStatus(map[], [pod.ip], [], [], [], []);
    var names := PodNames([pod]);
    var none: seq<ListedPod> := [];
    assert [pod][..|[pod]| - 1] == none && PodNames(none) == map[];
    assert names == map[pod.ip := pod.name];
    assert pod.ip in Elements(report.liveNodes) && pod.ip in Statuses(report);
    AddressesInvert(names, pod.ip);
  }
}
