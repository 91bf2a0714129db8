/** What the gauges show of a report, told from the lists of pods, racks and nodes it was made of. */
module GaugeReports {
  import opened Wrappers
  import opened ClusterSpec
  import opened NodeStatus
  import opened Gauges

  // ---------- What a report says of a pod

  /** Some list of the report has the address. */
  predicate Mentions(report: ClusterStatus, ip: string) {
    || ip in report.liveNodes || ip in report.unreachableNodes
    || ip in report.joiningNodes || ip in report.leavingNodes || ip in report.movingNodes
  }

  /** The `k`-th pod is mentioned, and no later one has its address. */
  predicate IsReported(action: Action, k: nat)
    requires action.Report? && k < |action.pods|
  {
    && Mentions(action.report, action.pods[k].ip)
    && (forall j :: k < j < |action.pods| ==> action.pods[j].ip != action.pods[k].ip)
  }

  function ReportedNode(action: Action, k: nat): Node
    requires action.Report? && k < |action.pods|
  {
    var ip, racks := action.pods[k].ip, action.report.nodeRacks;
    Node(action.id, if ip in racks then racks[ip] else "unknown", action.pods[k].name)
  }

  /** Unreachable nodes are down even if they are live, and joining is looked at before moving, and moving before leaving. */
  function ReportedPair(report: ClusterStatus, ip: string): LabelPair {
    LabelPair(
      if ip in report.liveNodes && ip !in report.unreachableNodes then Up else Down,
      if ip in report.joiningNodes then Joining
      else if ip in report.movingNodes then Moving
      else if ip in report.leavingNodes then Leaving
      else Normal)
  }

  ghost predicate IsReportedNode(action: Action, node: Node)
    requires action.Report?
  {
    exists k :: 0 <= k < |action.pods| && IsReported(action, k) && node == ReportedNode(action, k)
  }

  function ReportedNames(action: Action): set<string>
    requires action.Report?
  {
    set k | 0 <= k < |action.pods| && IsReported(action, k) :: action.pods[k].name
  }

  // ---------- What the update finds is what the report says

  lemma {:induction false} LastWithAddress(pods: seq<ListedPod>, k: nat)
    requires k < |pods| && forall j :: k < j < |pods| ==> pods[j].ip != pods[k].ip
    ensures pods[k].ip in PodNames(pods) && PodNames(pods)[pods[k].ip] == pods[k].name
  {
    var last := |pods| - 1;
    if k < last {
      assert forall j :: k < j < last ==> pods[..last][j].ip != pods[..last][k].ip;
      LastWithAddress(pods[..last], k);
    }
  }

  lemma {:induction false} AddressHasLast(pods: seq<ListedPod>, ip: string) returns (k: nat)
    requires ip in PodNames(pods)
    ensures k < |pods| && pods[k] == ListedPod(PodNames(pods)[ip], ip)
    ensures forall j :: k < j < |pods| ==> pods[j].ip != ip
  {
    k := |pods| - 1;
    if pods[k].ip != ip {
      var last := k;
      k := AddressHasLast(pods[..last], ip);
      assert forall j :: k < j < last ==> pods[..last][j] == pods[j];
    }
  }

  lemma StatusIsReported(report: ClusterStatus, ip: string)
    ensures ip in Statuses(report) <==> Mentions(report, ip)
    ensures ip in Statuses(report) ==> Applicable(Statuses(report)[ip]) == ReportedPair(report, ip)
  {
    if ip in Statuses(report) {
      LabelsTellTheLists(ip, report);
    }
  }

  /** Every reported pod is found, with its rack and labels. */
  lemma ReportedIsFound(action: Action, k: nat)
    requires action.Report? && NamesPodsUniquely(action) && k < |action.pods| && IsReported(action, k)
    ensures var findings, pod := FindingsOf(action), action.pods[k];
            && pod.name in findings
            && findings[pod.name] == Finding(ReportedNode(action, k).rack, ReportedPair(action.report, pod.ip))
  {
    hide Statuses, Applicable, ReportedPair, Mentions;
    var pod, names := action.pods[k], PodNames(action.pods);
    PodNamesAreInjective(action.pods);
    LastWithAddress(action.pods, k);
    AddressesInvert(names, pod.ip);
    StatusIsReported(action.report, pod.ip);
  }

  /** Nothing else is found. */
  lemma FoundIsReported(action: Action, name: string) returns (k: nat)
    requires action.Report? && NamesPodsUniquely(action) && name in FindingsOf(action)
    ensures k < |action.pods| && IsReported(action, k) && action.pods[k].name == name
  {
    hide Statuses, Mentions;
    var names := PodNames(action.pods);
    PodNamesAreInjective(action.pods);
    var ip := Addresses(names)[name];
    StatusIsReported(action.report, ip);
    k := AddressHasLast(action.pods, ip);
  }

  lemma FoundNodesAreReported(action: Action, node: Node)
    requires action.Report? && NamesPodsUniquely(action)
    ensures IsFound(node, action.id, TopologyOf(FindingsOf(action))) <==> IsReportedNode(action, node)
  {
    hide FindingsOf, IsReported, ReportedPair;
    if IsFound(node, action.id, TopologyOf(FindingsOf(action))) {
      var k := FoundIsReported(action, node.pod);
      ReportedIsFound(action, k);
    }
    if k :| 0 <= k < |action.pods| && IsReported(action, k) && node == ReportedNode(action, k) {
      ReportedIsFound(action, k);
    }
  }

  // ---------- Runs that end with a report

  /**
   * After any run that ends with a report, each reported pod has all eight series, under the
   * rack that the report has for its address or else "unknown", and the one that is set is
   * that of the lists it is in.
   */
  lemma ReportedPodsAreShown(actions: seq<Action>, k: nat, pair: LabelPair)
    requires AllNamePodsUniquely(actions) && actions != [] && actions[|actions| - 1].Report?
    requires k < |actions[|actions| - 1].pods| && IsReported(actions[|actions| - 1], k)
    ensures var last, g := actions[|actions| - 1], AfterActions(actions).nodeStatus;
            var s := Series(ReportedNode(last, k), pair);
            s in g && g[s] == if pair == ReportedPair(last.report, last.pods[k].ip) then 1 else 0
  {
    hide FindingsOf, IsReported, ReportedPair;
    var last, before := actions[|actions| - 1], AfterActions(actions[..|actions| - 1]);
    assert last in actions;
    ReportedIsFound(last, k);
    ShowFindingsAt(before.nodeStatus, last.id, FindingsOf(last), Series(ReportedNode(last, k), pair));
  }

  /** All other series are as they were before the report: none comes, none goes and none changes. */
  lemma OtherSeriesStay(actions: seq<Action>, s: Series)
    requires AllNamePodsUniquely(actions) && actions != [] && actions[|actions| - 1].Report?
    requires !IsReportedNode(actions[|actions| - 1], s.node)
    ensures var before, after := AfterActions(actions[..|actions| - 1]).nodeStatus, AfterActions(actions).nodeStatus;
            (s in after <==> s in before) && (s in after ==> after[s] == before[s])
  {
    hide FindingsOf, IsReportedNode;
    var last, before := actions[|actions| - 1], AfterActions(actions[..|actions| - 1]);
    assert last in actions;
    FoundNodesAreReported(last, s.node);
    ShowFindingsAt(before.nodeStatus, last.id, FindingsOf(last), s);
  }

  lemma NamesAreFound(action: Action)
    requires action.Report? && NamesPodsUniquely(action)
    ensures FindingsOf(action).Keys == ReportedNames(action)
  {
    hide FindingsOf, IsReported, ReportedPair, ReportedNode;
    var found := FindingsOf(action);
    forall name | name in found
      ensures name in ReportedNames(action)
    {
      var k := FoundIsReported(action, name);
    }
    forall k | 0 <= k < |action.pods| && IsReported(action, k)
      ensures action.pods[k].name in found
    {
      ReportedIsFound(action, k);
    }
  }

  /** The size of the cluster is the number of reported pods, and no other size changes. */
  lemma SizeCountsReportedPods(actions: seq<Action>)
    requires AllNamePodsUniquely(actions) && actions != [] && actions[|actions| - 1].Report?
    ensures var last, before := actions[|actions| - 1], AfterActions(actions[..|actions| - 1]).clusterSize;
            AfterActions(actions).clusterSize == before[last.id := |ReportedNames(last)|]
  {
    hide FindingsOf, ReportedNames, ShowFindings;
    var last := actions[|actions| - 1];
    assert last in actions;
    NamesAreFound(last);
    assert TopologyOf(FindingsOf(last)).Keys == FindingsOf(last).Keys;
  }
}
