/** Deriving the status of each Cassandra node from the lists Jolokia reports, and its labels. */
module NodeStatus {
  import opened Sequences

  datatype Status = Status(up: bool, down: bool, joining: bool, leaving: bool, moving: bool)

  const UNKNOWN_STATUS := Status(false, false, false, false, false)

  datatype ClusterStatus = ClusterStatus(
    nodeRacks: map<string, string>,
    liveNodes: seq<string>,
    unreachableNodes: seq<string>,
    joiningNodes: seq<string>,
    leavingNodes: seq<string>,
    movingNodes: seq<string>)

  datatype Liveness = Up | Down

  datatype NodeState = Normal | Joining | Leaving | Moving

  /** The values of the labels `liveness` and `state`. */
  datatype LabelPair = LabelPair(liveness: Liveness, state: NodeState)

  const ALL_LABEL_PAIRS := [
    LabelPair(Up, Normal),
    LabelPair(Up, Joining),
    LabelPair(Up, Leaving),
    LabelPair(Up, Moving),
    LabelPair(Down, Normal),
    LabelPair(Down, Joining),
    LabelPair(Down, Leaving),
    LabelPair(Down, Moving)]

  // ---------- The declarative meaning of a report

  function Elements(nodes: seq<string>): set<string> {
    set node | node in nodes
  }

  /** Every node that any of the lists mentions. */
  function Nodes(report: ClusterStatus): set<string> {
    Elements(report.liveNodes) + Elements(report.unreachableNodes) + Elements(report.leavingNodes)
    + Elements(report.movingNodes) + Elements(report.joiningNodes)
  }

  /** Unreachable wins over live, and joining over moving over leaving. */
  function StatusOf(node: string, report: ClusterStatus): Status {
    var joining := node in report.joiningNodes;
    var moving := node in report.movingNodes && !joining;
    var leaving := node in report.leavingNodes && !moving && !joining;
    Status(node in report.liveNodes && node !in report.unreachableNodes, node in report.unreachableNodes, joining, leaving, moving)
  }

  function Statuses(report: ClusterStatus): map<string, Status> {
    map node | node in Nodes(report) :: StatusOf(node, report)
  }

  // ---------- The loops

  /** The statuses once the lists have been read as far as given. */
  function Partial(live: seq<string>, unreachable: seq<string>, leaving: seq<string>, moving: seq<string>, joining: seq<string>): map<string, Status> {
    Statuses(ClusterStatus(map[], live, unreachable, joining, leaving, moving))
  }

  function Known(statuses: map<string, Status>, node: string): map<string, Status> {
    if node in statuses then statuses else statuses[node := UNKNOWN_STATUS]
  }

  lemma NothingRead()
    ensures Partial([], [], [], [], []) == map[]
  {
  }

  lemma LiveStep(live: seq<string>, i: nat)
    requires i < |live|
    ensures var known := Known(Partial(live[..i], [], [], [], []), live[i]);
            known[live[i] := known[live[i]].(up := true, down := false)] == Partial(live[..i + 1], [], [], [], [])
  {
    LastIsMember(live, i);
  }

  lemma UnreachableStep(live: seq<string>, unreachable: seq<string>, i: nat)
    requires i < |unreachable|
    ensures var known := Known(Partial(live, unreachable[..i], [], [], []), unreachable[i]);
            known[unreachable[i] := known[unreachable[i]].(up := false, down := true)] == Partial(live, unreachable[..i + 1], [], [], [])
  {
    LastIsMember(unreachable, i);
  }

  lemma LeavingStep(live: seq<string>, unreachable: seq<string>, leaving: seq<string>, i: nat)
    requires i < |leaving|
    ensures var known := Known(Partial(live, unreachable, leaving[..i], [], []), leaving[i]);
            known[leaving[i] := known[leaving[i]].(leaving := true, joining := false, moving := false)] == Partial(live, unreachable, leaving[..i + 1], [], [])
  {
    LastIsMember(leaving, i);
  }

  lemma MovingStep(live: seq<string>, unreachable: seq<string>, leaving: seq<string>, moving: seq<string>, i: nat)
    requires i < |moving|
    ensures var known := Known(Partial(live, unreachable, leaving, moving[..i], []), moving[i]);
            known[moving[i] := known[moving[i]].(moving := true, joining := false, leaving := false)] == Partial(live, unreachable, leaving, moving[..i + 1], [])
  {
    LastIsMember(moving, i);
  }

  lemma JoiningStep(live: seq<string>, unreachable: seq<string>, leaving: seq<string>, moving: seq<string>, joining: seq<string>, i: nat)
    requires i < |joining|
    ensures var known := Known(Partial(live, unreachable, leaving, moving, joining[..i]), joining[i]);
            known[joining[i] := known[joining[i]].(joining := true, moving := false, leaving := false)] == Partial(live, unreachable, leaving, moving, joining[..i + 1])
  {
    LastIsMember(joining, i);
  }

  method ReadLive(live: seq<string>) returns (statuses: map<string, Status>)
    ensures statuses == Partial(live, [], [], [], [])
  {
    NothingRead();
    statuses := map[];
    for i := 0 to |live|
      invariant statuses == Partial(live[..i], [], [], [], [])
    {
      LiveStep(live, i);
      statuses := Known(statuses, live[i]);
      statuses := statuses[live[i] := statuses[live[i]].(up := true, down := false)];
    }
    assert live[..|live|] == live;
  }

  method ReadUnreachable(before: map<string, Status>, live: seq<string>, unreachable: seq<string>) returns (statuses: map<string, Status>)
    requires before == Partial(live, [], [], [], [])
    ensures statuses == Partial(live, unreachable, [], [], [])
  {
    NothingRead();
    statuses := before;
    for i := 0 to |unreachable|
      invariant statuses == Partial(live, unreachable[..i], [], [], [])
    {
      UnreachableStep(live, unreachable, i);
      statuses := Known(statuses, unreachable[i]);
      statuses := statuses[unreachable[i] := statuses[unreachable[i]].(up := false, down := true)];
    }
    assert unreachable[..|unreachable|] == unreachable;
  }

  method ReadLeaving(before: map<string, Status>, live: seq<string>, unreachable: seq<string>, leaving: seq<string>) returns (statuses: map<string, Status>)
    requires before == Partial(live, unreachable, [], [], [])
    ensures statuses == Partial(live, unreachable, leaving, [], [])
  {
    NothingRead();
    statuses := before;
    for i := 0 to |leaving|
      invariant statuses == Partial(live, unreachable, leaving[..i], [], [])
    {
      LeavingStep(live, unreachable, leaving, i);
      statuses := Known(statuses, leaving[i]);
      statuses := statuses[leaving[i] := statuses[leaving[i]].(leaving := true, joining := false, moving := false)];
    }
    assert leaving[..|leaving|] == leaving;
  }

  method ReadMoving(before: map<string, Status>, live: seq<string>, unreachable: seq<string>, leaving: seq<string>, moving: seq<string>) returns (statuses: map<string, Status>)
    requires before == Partial(live, unreachable, leaving, [], [])
    ensures statuses == Partial(live, unreachable, leaving, moving, [])
  {
    NothingRead();
    statuses := before;
    for i := 0 to |moving|
      invariant statuses == Partial(live, unreachable, leaving, moving[..i], [])
    {
      MovingStep(live, unreachable, leaving, moving, i);
      statuses := Known(statuses, moving[i]);
      statuses := statuses[moving[i] := statuses[moving[i]].(moving := true, joining := false, leaving := false)];
    }
    assert moving[..|moving|] == moving;
  }

  method ReadJoining(before: map<string, Status>, live: seq<string>, unreachable: seq<string>, leaving: seq<string>, moving: seq<string>, joining: seq<string>) returns (statuses: map<string, Status>)
    requires before == Partial(live, unreachable, leaving, moving, [])
    ensures statuses == Partial(live, unreachable, leaving, moving, joining)
  {
    NothingRead();
    statuses := before;
    for i := 0 to |joining|
      invariant statuses == Partial(live, unreachable, leaving, moving, joining[..i])
    {
      JoiningStep(live, unreachable, leaving, moving, joining, i);
      statuses := Known(statuses, joining[i]);
      statuses := statuses[joining[i] := statuses[joining[i]].(joining := true, moving := false, leaving := false)];
    }
    assert joining[..|joining|] == joining;
  }

  method TransformClusterStatus(report: ClusterStatus) returns (statuses: map<string, Status>)
    ensures statuses == Statuses(report)
  {
    statuses := ReadLive(report.liveNodes);
    statuses := ReadUnreachable(statuses, report.liveNodes, report.unreachableNodes);
    statuses := ReadLeaving(statuses, report.liveNodes, report.unreachableNodes, report.leavingNodes);
    statuses := ReadMoving(statuses, report.liveNodes, report.unreachableNodes, report.leavingNodes, report.movingNodes);
    statuses := ReadJoining(statuses, report.liveNodes, report.unreachableNodes, report.leavingNodes, report.movingNodes, report.joiningNodes);
  }

  lemma LastIsMember(nodes: seq<string>, i: nat)
    requires i < |nodes|
    ensures forall node :: node in nodes[..i + 1] <==> node in nodes[..i] || node == nodes[i]
  {
    assert nodes[..i + 1] == nodes[..i] + [nodes[i]];
  }

  // ---------- What does not matter

  /** The lists mention the same nodes, in whatever order and however often. */
  predicate SameNodes(a: ClusterStatus, b: ClusterStatus) {
    && Elements(a.liveNodes) == Elements(b.liveNodes)
    && Elements(a.unreachableNodes) == Elements(b.unreachableNodes)
    && Elements(a.joiningNodes) == Elements(b.joiningNodes)
    && Elements(a.leavingNodes) == Elements(b.leavingNodes)
    && Elements(a.movingNodes) == Elements(b.movingNodes)
  }

  lemma OrderAndRepetitionDoNotMatter(a: ClusterStatus, b: ClusterStatus)
    requires SameNodes(a, b)
    ensures Statuses(a) == Statuses(b)
  {
    forall node
      ensures StatusOf(node, a) == StatusOf(node, b)
    {
      assert node in Elements(a.liveNodes) <==> node in Elements(b.liveNodes);
      assert node in Elements(a.unreachableNodes) <==> node in Elements(b.unreachableNodes);
      assert node in Elements(a.joiningNodes) <==> node in Elements(b.joiningNodes);
      assert node in Elements(a.leavingNodes) <==> node in Elements(b.leavingNodes);
      assert node in Elements(a.movingNodes) <==> node in Elements(b.movingNodes);
    }
  }

  // ---------- Labels

  function LivenessLabel(status: Status): Liveness {
    if status.up then Up else Down
  }

  function StateLabel(status: Status): NodeState {
    if status.joining then Joining else if status.leaving then Leaving else if status.moving then Moving else Normal
  }

  function Applicable(status: Status): LabelPair {
    LabelPair(LivenessLabel(status), StateLabel(status))
  }

  /**
   * In a derived status at most one state flag is set, and never both up and down; so the
   * labels say which lists a node is in.
   */
  lemma LabelsTellTheLists(node: string, report: ClusterStatus)
    requires node in Statuses(report)
    ensures var status := Statuses(report)[node];
            && status.joining == StateLabel(status).Joining? == (node in report.joiningNodes)
            && status.moving == StateLabel(status).Moving? == (node in report.movingNodes && node !in report.joiningNodes)
            && status.leaving == StateLabel(status).Leaving? ==
               (node in report.leavingNodes && node !in report.movingNodes && node !in report.joiningNodes)
            && !(status.up && status.down)
            && (LivenessLabel(status).Up? <==> node in report.liveNodes && node !in report.unreachableNodes)
  {
  }

  lemma EveryPairIsListed(pair: LabelPair)
    ensures pair in ALL_LABEL_PAIRS
    ensures forall i, j :: 0 <= i < j < |ALL_LABEL_PAIRS| ==> ALL_LABEL_PAIRS[i] != ALL_LABEL_PAIRS[j]
  {
    var i := (if pair.liveness.Up? then 0 else 4) +
             (match pair.state case Normal => 0 case Joining => 1 case Leaving => 2 case Moving => 3);
    assert ALL_LABEL_PAIRS[i] == pair;
  }

  function Except(pair: LabelPair, pairs: seq<LabelPair>): seq<LabelPair> {
    if pairs == [] then []
    else (if pairs[0] != pair then [pairs[0]] else []) + Except(pair, pairs[1..])
  }

  method UnapplicableLabelPairs(status: Status) returns (pairs: seq<LabelPair>)
    ensures pairs == Except(Applicable(status), ALL_LABEL_PAIRS)
    ensures forall l :: l in pairs <==> l != Applicable(status)
  {
    pairs := PairsExcept(Applicable(status), ALL_LABEL_PAIRS);
    forall l
      ensures l in ALL_LABEL_PAIRS
    {
      EveryPairIsListed(l);
    }
  }

  method PairsExcept(pair: LabelPair, all: seq<LabelPair>) returns (pairs: seq<LabelPair>)
    ensures pairs == Except(pair, all)
    ensures forall l :: l in pairs <==> l in all && l != pair
  {
    pairs := [];
    for i := 0 to |all|
      invariant pairs + Except(pair, all[i..]) == Except(pair, all)
    {
      assert all[i..][1..] == all[i + 1..];
      Shift(pairs, if all[i] != pair then [all[i]] else [], Except(pair, all[i + 1..]), Except(pair, all));
      if all[i] != pair {
        pairs := pairs + [all[i]];
      } else {
        assert pairs + [] == pairs;
      }
    }
    assert all[|all|..] == [];
    ExceptIs(pair, all);
  }

  lemma {:induction false} ExceptIs(pair: LabelPair, pairs: seq<LabelPair>)
    ensures forall l :: l in Except(pair, pairs) <==> l in pairs && l != pair
  {
    if pairs != [] {
      ExceptIs(pair, pairs[1..]);
      assert pairs == [pairs[0]] + pairs[1..];
    }
  }
}
