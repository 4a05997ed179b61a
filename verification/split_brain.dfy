/** Split-brain detection: the adapter's poll of the members (split_brain_detector_adapter.py), the
    cluster state (domain/split_brain.py) and the detector (usecases/split_brain_detector.py). */
module SplitBrain {
  import opened Wrappers
  import opened Text
  import opened Quorum

  /** `Fields` keeps the truth value of the `is_leader` field, if there is one. */
  datatype Body = NotJson | NotAnObject | Fields(isLeader: Option<bool>)

  /** What asking a host over HTTP gives: no usable answer, or a status and a body. */
  datatype HttpAnswer = Unreachable | Http(status: int, body: Body)

  datatype Error = InvalidNodeId | NoNodes | Escaped

  datatype RaftNodeState = RaftNodeState(nodeId: string, isLeader: bool)

  datatype RaftClusterState = RaftClusterState(nodes: seq<RaftNodeState>) {
    function CountLeaders(): int {
      LeadersAmong(nodes)
    }

    function GetLeaderNodes(): seq<RaftNodeState> {
      Filter(nodes, true)
    }

    function GetReplicaNodes(): seq<RaftNodeState> {
      Filter(nodes, false)
    }

    predicate HasSingleLeader() {
      CountLeaders() == 1
    }
  }

  /** `sum(1 for node in nodes if node.is_leader)`. */
  function LeadersAmong(nodes: seq<RaftNodeState>): int {
    if nodes == [] then 0 else LeadersAmong(nodes[..|nodes| - 1]) + (if nodes[|nodes| - 1].isLeader then 1 else 0)
  }

  function Filter(nodes: seq<RaftNodeState>, leader: bool): seq<RaftNodeState> {
    if nodes == [] then []
    else Filter(nodes[..|nodes| - 1], leader) + (if nodes[|nodes| - 1].isLeader == leader then [nodes[|nodes| - 1]] else [])
  }

  lemma {:induction false} FiltersPartition(nodes: seq<RaftNodeState>)
    ensures multiset(Filter(nodes, true)) + multiset(Filter(nodes, false)) == multiset(nodes)
    ensures LeadersAmong(nodes) == |Filter(nodes, true)|
    ensures forall n :: n in Filter(nodes, true) ==> n.isLeader
    ensures forall n :: n in Filter(nodes, false) ==> !n.isLeader
  {
    if nodes != [] {
      var before, last := nodes[..|nodes| - 1], nodes[|nodes| - 1];
      FiltersPartition(before);
      assert nodes == before + [last];
    }
  }

  lemma FilterLast(before: seq<RaftNodeState>, n: RaftNodeState, leader: bool)
    ensures Filter(before + [n], leader) == Filter(before, leader) + (if n.isLeader == leader then [n] else [])
  {
    assert (before + [n])[..|before|] == before;
  }

  /** Both filters keep the order of the list and every repetition in it. */
  lemma {:induction false} FilterInOrder(before: seq<RaftNodeState>, after: seq<RaftNodeState>, leader: bool)
    ensures Filter(before + after, leader) == Filter(before, leader) + Filter(after, leader)
  {
    if after == [] {
      assert before + after == before;
    } else {
      var rest, last := after[..|after| - 1], after[|after| - 1];
      assert before + after == before + rest + [last] && after == rest + [last];
      hide Filter;
      FilterInOrder(before, rest, leader);
      FilterLast(before + rest, last, leader);
      FilterLast(rest, last, leader);
    }
  }

  /** Leaders and replicas are the node list taken apart, and the count is the number of leaders. */
  lemma LeadersAndReplicasPartition(cluster: RaftClusterState)
    ensures multiset(cluster.GetLeaderNodes()) + multiset(cluster.GetReplicaNodes()) == multiset(cluster.nodes)
    ensures cluster.CountLeaders() == |cluster.GetLeaderNodes()|
    ensures forall n :: n in cluster.GetLeaderNodes() ==> n.isLeader
    ensures forall n :: n in cluster.GetReplicaNodes() ==> !n.isLeader
  {
    FiltersPartition(cluster.nodes);
  }

  predicate NoneLeads(nodes: seq<RaftNodeState>) {
    forall i :: 0 <= i < |nodes| ==> !nodes[i].isLeader
  }

  /** The node at position i leads and no other does. */
  predicate LeadsAlone(nodes: seq<RaftNodeState>, i: nat) {
    i < |nodes| && nodes[i].isLeader && NoneLeads(nodes[..i]) && NoneLeads(nodes[i + 1..])
  }

  lemma AloneSnoc(before: seq<RaftNodeState>, last: RaftNodeState, i: nat)
    requires i < |before|
    ensures LeadsAlone(before + [last], i) <==> LeadsAlone(before, i) && !last.isLeader
  {
    var nodes, after := before + [last], before[i + 1..];
    assert nodes[..i] == before[..i] && nodes[i + 1..] == after + [last];
    assert (after + [last])[|after|] == last;
    assert forall j :: 0 <= j < |after| ==> after[j] == (after + [last])[j];
  }

  lemma {:induction false} CountOfLeaders(nodes: seq<RaftNodeState>)
    ensures LeadersAmong(nodes) >= 0
    ensures LeadersAmong(nodes) == 0 <==> NoneLeads(nodes)
  {
    if nodes != [] {
      CountOfLeaders(nodes[..|nodes| - 1]);
    }
  }

  lemma {:induction false} SingleCount(nodes: seq<RaftNodeState>)
    ensures LeadersAmong(nodes) == 1 <==> exists i :: LeadsAlone(nodes, i)
  {
    if nodes != [] {
      var n := |nodes| - 1;
      var before, last := nodes[..n], nodes[n];
      SingleCount(before);
      CountOfLeaders(before);
      assert nodes == before + [last];
      assert nodes[n + 1..] == [];
      assert LeadsAlone(nodes, n) <==> last.isLeader && NoneLeads(before);
      forall i: nat | i < n ensures LeadsAlone(nodes, i) <==> LeadsAlone(before, i) && !last.isLeader {
        AloneSnoc(before, last, i);
      }
    }
  }

  /** `has_single_leader` holds exactly when one position of the node list leads and no other does, and
      then no split-brain is reported. */
  lemma SingleLeaderExact(cluster: RaftClusterState)
    ensures cluster.HasSingleLeader() <==> exists i :: LeadsAlone(cluster.nodes, i)
    ensures !(cluster.HasSingleLeader() && DetectSplitBrain(cluster).isSplitBrain)
  {
    SingleCount(cluster.nodes);
    LeadersAndReplicasPartition(cluster);
  }

  /** Errors leave the adapter only when the answer is JSON but not an object. */
  function QueryRemote(answer: HttpAnswer): Result<bool, Error> {
    match answer
    case Unreachable => Ok(false)
    case Http(status, body) =>
      if status != 200 then Ok(false)
      else match body
        case NotJson => Ok(false)
        case NotAnObject => Err(Escaped)
        case Fields(isLeader) => Ok(isLeader.Some? && isLeader.value)
  }

  /** The view of one node: its own name, its own leadership, and what every host answers it. */
  datatype View = View(thisNode: string, thisLeads: bool, ask: string -> HttpAnswer)

  function NodeAnswer(v: View, host: string): Result<bool, Error> {
    if host == v.thisNode then Ok(v.thisLeads) else QueryRemote(v.ask(host))
  }

  /** One turn of the adapter's loop. */
  function Poll(v: View, member: string): Result<RaftNodeState, Error> {
    var host := Host(member);
    var answer := NodeAnswer(v, host);
    if answer.Err? then Err(answer.error)
    else if AllSpace(host) then Err(InvalidNodeId)
    else Ok(RaftNodeState(host, answer.value))
  }

  function Extend(states: Result<seq<RaftNodeState>, Error>, next: Result<RaftNodeState, Error>): Result<seq<RaftNodeState>, Error> {
    if states.Err? then states
    else if next.Err? then Err(next.error)
    else Ok(states.value + [next.value])
  }

  /** The node states of the members, in order, or the first error. */
  function NodeStates(v: View, members: seq<string>): Result<seq<RaftNodeState>, Error> {
    if members == [] then Ok([])
    else Extend(NodeStates(v, members[..|members| - 1]), Poll(v, members[|members| - 1]))
  }

  lemma NodeStatesSnoc(v: View, before: seq<string>, m: string)
    ensures NodeStates(v, before + [m]) == Extend(NodeStates(v, before), Poll(v, m))
  {
  }

  function ClusterState(v: View, members: seq<string>): Result<RaftClusterState, Error> {
    var states := NodeStates(v, members);
    if states.Err? then Err(states.error)
    else if states.value == [] then Err(NoNodes)
    else Ok(RaftClusterState(states.value))
  }

  lemma {:induction false} NodeStatesError(v: View, members: seq<string>, rest: seq<string>)
    requires NodeStates(v, members).Err?
    ensures NodeStates(v, members + rest) == NodeStates(v, members)
  {
    if rest == [] {
      assert members + rest == members;
    } else {
      var n := |rest| - 1;
      NodeStatesError(v, members, rest[..n]);
      NodeStatesSnoc(v, members + rest[..n], rest[n]);
      assert members + rest == members + rest[..n] + [rest[n]];
    }
  }

  /** The adapter's loop. */
  method GetClusterState(v: View, members: seq<string>) returns (r: Result<RaftClusterState, Error>)
    ensures r == ClusterState(v, members)
  {
    var nodeStates: seq<RaftNodeState> := [];
    var i := 0;
    while i < |members|
      invariant i <= |members|
      invariant NodeStates(v, members[..i]) == Ok(nodeStates)
    {
      var member := members[i];
      assert members[..i + 1] == members[..i] + [member];
      NodeStatesSnoc(v, members[..i], member);
      var polled := PollMember(v, member);
      if polled.Err? {
        NodeStatesError(v, members[..i + 1], members[i + 1..]);
        assert members[..i + 1] + members[i + 1..] == members;
        return Err(polled.error);
      }
      nodeStates := nodeStates + [polled.value];
      i := i + 1;
    }
    assert members[..i] == members;
    if nodeStates == [] {
      return Err(NoNodes);
    }
    return Ok(RaftClusterState(nodeStates));
  }

  method PollMember(v: View, member: string) returns (r: Result<RaftNodeState, Error>)
    ensures r == Poll(v, member)
  {
    var nodeId := Host(member);
    var isLeader: bool;
    if nodeId == v.thisNode {
      isLeader := v.thisLeads;
    } else {
      var answer := QueryRemote(v.ask(nodeId));
      if answer.Err? {
        return Err(answer.error);
      }
      isLeader := answer.value;
    }
    StripsToNothing(nodeId);
    if Strip(nodeId) == [] {
      return Err(InvalidNodeId);
    }
    return Ok(RaftNodeState(nodeId, isLeader));
  }

  datatype SplitBrainStatus = SplitBrainStatus(isSplitBrain: bool, leaderNodes: seq<RaftNodeState>)

  function DetectSplitBrain(cluster: RaftClusterState): SplitBrainStatus {
    var leaders := cluster.GetLeaderNodes();
    SplitBrainStatus(|leaders| > 1, leaders)
  }

  // ---------- What a report means ----------

  /** This node says itself whether it leads; any other host leads when it answers 200 with an object
      whose `is_leader` field is true. */
  predicate Leads(v: View, host: string) {
    if host == v.thisNode then v.thisLeads else v.ask(host) == Http(200, Fields(Some(true)))
  }

  /** Some other host answers 200 with JSON that is no object: the exception leaves the adapter. */
  predicate AnswerEscapes(v: View, host: string) {
    host != v.thisNode && v.ask(host) == Http(200, NotAnObject)
  }

  predicate Pollable(v: View, member: string) {
    !AnswerEscapes(v, Host(member)) && !AllSpace(Host(member))
  }

  lemma PollExact(v: View, member: string)
    ensures var host := Host(member);
            Poll(v, member) ==
            if AnswerEscapes(v, host) then Err(Escaped)
            else if AllSpace(host) then Err(InvalidNodeId)
            else Ok(RaftNodeState(host, Leads(v, host)))
  {
  }

  ghost predicate AllPollable(v: View, members: seq<string>) {
    forall i :: 0 <= i < |members| ==> Pollable(v, members[i])
  }

  /** One entry per member, in order, with the member's host and whether it leads. */
  ghost predicate EntriesOf(v: View, members: seq<string>, nodes: seq<RaftNodeState>) {
    |nodes| == |members| &&
    forall i :: 0 <= i < |members| ==> nodes[i] == RaftNodeState(Host(members[i]), Leads(v, Host(members[i])))
  }

  /** The poll of the first member that cannot be polled decides the error. */
  ghost predicate FailsFirst(v: View, members: seq<string>, error: Error) {
    exists i :: 0 <= i < |members| && !Pollable(v, members[i]) && (forall j :: 0 <= j < i ==> Pollable(v, members[j]))
                && error == if AnswerEscapes(v, Host(members[i])) then Escaped else InvalidNodeId
  }

  lemma FailsFirstLater(v: View, before: seq<string>, last: string, error: Error)
    requires FailsFirst(v, before, error)
    ensures FailsFirst(v, before + [last], error)
  {
    hide Pollable, AnswerEscapes;
    var members := before + [last];
    var i :| 0 <= i < |before| && !Pollable(v, before[i]) && (forall j :: 0 <= j < i ==> Pollable(v, before[j]))
             && error == if AnswerEscapes(v, Host(before[i])) then Escaped else InvalidNodeId;
    assert forall j :: 0 <= j <= i ==> members[j] == before[j];
  }

  lemma FailsFirstHere(v: View, before: seq<string>, last: string)
    requires !Pollable(v, last) && AllPollable(v, before)
    ensures FailsFirst(v, before + [last], if AnswerEscapes(v, Host(last)) then Escaped else InvalidNodeId)
  {
    hide Pollable, AnswerEscapes;
    var members, n := before + [last], |before|;
    assert members[n] == last && forall j :: 0 <= j < n ==> members[j] == before[j];
  }

  lemma OneMorePolled(v: View, before: seq<string>, last: string, nodes: seq<RaftNodeState>)
    ensures AllPollable(v, before + [last]) <==> AllPollable(v, before) && Pollable(v, last)
    ensures EntriesOf(v, before, nodes) ==>
              EntriesOf(v, before + [last], nodes + [RaftNodeState(Host(last), Leads(v, Host(last)))])
  {
    hide Pollable, Leads, Host;
    var members := before + [last];
    assert members[|before|] == last && forall i :: 0 <= i < |before| ==> members[i] == before[i];
  }

  lemma {:induction false} NodeStatesExact(v: View, members: seq<string>)
    ensures NodeStates(v, members).Ok? == AllPollable(v, members)
    ensures NodeStates(v, members).Ok? ==> EntriesOf(v, members, NodeStates(v, members).value)
    ensures NodeStates(v, members).Err? ==> FailsFirst(v, members, NodeStates(v, members).error)
  {
    if members != [] {
      hide NodeStates, Poll, Leads, AnswerEscapes, Host, AllSpace, FailsFirst, EntriesOf, AllPollable;
      var before, last := members[..|members| - 1], members[|members| - 1];
      NodeStatesExact(v, before);
      PollExact(v, last);
      assert members == before + [last];
      NodeStatesSnoc(v, before, last);
      if NodeStates(v, before).Err? {
        FailsFirstLater(v, before, last, NodeStates(v, before).error);
        OneMorePolled(v, before, last, []);
      } else {
        if !Pollable(v, last) { FailsFirstHere(v, before, last); }
        OneMorePolled(v, before, last, NodeStates(v, before).value);
      }
    }
  }

  /** The state of the cluster: one entry per member, in order, with its own name and whether it leads;
      an error exactly when there is no member, or some member cannot be polled, the first one deciding. */
  lemma ClusterStateExact(v: View, members: seq<string>)
    ensures var r := ClusterState(v, members);
            && (r.Ok? <==> members != [] && AllPollable(v, members))
            && (r.Ok? ==> EntriesOf(v, members, r.value.nodes))
            && (r.Err? ==> if members == [] then r.error == NoNodes else FailsFirst(v, members, r.error))
  {
    NodeStatesExact(v, members);
    hide Pollable, FailsFirst;
  }

  ghost predicate TwoPositionsLead(v: View, members: seq<string>) {
    exists i, j :: 0 <= i < j < |members| && Leads(v, Host(members[i])) && Leads(v, Host(members[j]))
  }

  ghost predicate TwoHostsLead(v: View, members: seq<string>) {
    exists i, j :: 0 <= i < j < |members| && Host(members[i]) != Host(members[j])
                   && Leads(v, Host(members[i])) && Leads(v, Host(members[j]))
  }

  ghost predicate SomeoneLeads(v: View, members: seq<string>) {
    exists i :: 0 <= i < |members| && Leads(v, Host(members[i]))
  }

  lemma PositionsSnoc(v: View, before: seq<string>, last: string)
    ensures SomeoneLeads(v, before + [last]) <==> SomeoneLeads(v, before) || Leads(v, Host(last))
    ensures TwoPositionsLead(v, before + [last]) <==>
            TwoPositionsLead(v, before) || (SomeoneLeads(v, before) && Leads(v, Host(last)))
  {
    var members, k := before + [last], |before|;
    assert members[k] == last && forall i :: 0 <= i < k ==> members[i] == before[i];
    if SomeoneLeads(v, before) {
      var i :| 0 <= i < k && Leads(v, Host(before[i]));
      assert Leads(v, Host(members[i]));
    }
    if TwoPositionsLead(v, before) {
      var i, j :| 0 <= i < j < k && Leads(v, Host(before[i])) && Leads(v, Host(before[j]));
      assert Leads(v, Host(members[i])) && Leads(v, Host(members[j]));
    }
    if TwoPositionsLead(v, members) {
      var i, j :| 0 <= i < j < |members| && Leads(v, Host(members[i])) && Leads(v, Host(members[j]));
      assert Leads(v, Host(before[i]));
      if j < k { assert Leads(v, Host(before[j])); }
    }
  }

  lemma FilterSnoc(nodes: seq<RaftNodeState>, n: RaftNodeState)
    ensures |Filter(nodes + [n], true)| == |Filter(nodes, true)| + (if n.isLeader then 1 else 0)
  {
  }

  lemma PollLeads(v: View, member: string)
    requires Poll(v, member).Ok?
    ensures Poll(v, member).value.isLeader == Leads(v, Host(member))
  {
    PollExact(v, member);
  }

  lemma {:induction false} LeaderCount(v: View, members: seq<string>)
    requires NodeStates(v, members).Ok?
    ensures |Filter(NodeStates(v, members).value, true)| > 0 <==> SomeoneLeads(v, members)
    ensures |Filter(NodeStates(v, members).value, true)| > 1 <==> TwoPositionsLead(v, members)
  {
    if members != [] {
      var before, last := members[..|members| - 1], members[|members| - 1];
      LeaderCount(v, before);
      PollLeads(v, last);
      FilterSnoc(NodeStates(v, before).value, Poll(v, last).value);
      assert members == before + [last];
      PositionsSnoc(v, before, last);
    }
  }

  /** The report in terms of member positions. */
  lemma ReportsPositions(v: View, members: seq<string>)
    requires ClusterState(v, members).Ok?
    ensures DetectSplitBrain(ClusterState(v, members).value).isSplitBrain <==> TwoPositionsLead(v, members)
  {
    LeaderCount(v, members);
  }

  /** A split-brain is reported exactly when two different hosts answer as leader, or one leading
      host is listed at two positions; so with distinct hosts the report is exact. */
  lemma ReportExact(v: View, members: seq<string>)
    requires ClusterState(v, members).Ok?
    ensures DetectSplitBrain(ClusterState(v, members).value).isSplitBrain <==>
            TwoHostsLead(v, members) ||
            exists i, j :: 0 <= i < j < |members| && Host(members[i]) == Host(members[j]) && Leads(v, Host(members[i]))
    ensures DistinctHosts(members) ==>
            (DetectSplitBrain(ClusterState(v, members).value).isSplitBrain <==> TwoHostsLead(v, members))
  {
    ReportsPositions(v, members);
    if TwoPositionsLead(v, members) {
      var i, j :| 0 <= i < j < |members| && Leads(v, Host(members[i])) && Leads(v, Host(members[j]));
      assert Host(members[i]) == Host(members[j]) || TwoHostsLead(v, members);
    }
  }

  /** Without distinct hosts one leader is enough: two ports of a single leading host are reported. */
  lemma TwoPortsOneLeader(v: View, m0: string, m1: string)
    requires Host(m0) == Host(m1) && Leads(v, Host(m0)) && !AllSpace(Host(m0))
    ensures ClusterState(v, [m0, m1]).Ok? && !TwoHostsLead(v, [m0, m1])
    ensures DetectSplitBrain(ClusterState(v, [m0, m1]).value).isSplitBrain
  {
    var members := [m0, m1];
    NodeStatesSnoc(v, [], m0);
    NodeStatesSnoc(v, [m0], m1);
    assert [] + [m0] == [m0] && [m0] + [m1] == members;
    assert Leads(v, Host(members[0])) && Leads(v, Host(members[1]));
    ReportsPositions(v, members);
  }

  /** Some hosts of v can no longer be reached in w; nothing else differs. */
  ghost predicate LosesHosts(v: View, w: View) {
    && w.thisNode == v.thisNode && w.thisLeads == v.thisLeads
    && forall h :: w.ask(h) == v.ask(h) || w.ask(h) == Unreachable
  }

  lemma {:induction false} StatesSurvive(v: View, w: View, members: seq<string>)
    requires LosesHosts(v, w) && NodeStates(v, members).Ok?
    ensures NodeStates(w, members).Ok? && |NodeStates(w, members).value| == |NodeStates(v, members).value|
  {
    if members != [] {
      var last := Host(members[|members| - 1]);
      StatesSurvive(v, w, members[..|members| - 1]);
      assert w.ask(last) == v.ask(last) || w.ask(last) == Unreachable;
    }
  }

  /** Losing hosts can clear a report but never raise one. */
  lemma LosingHostsOnlyClears(v: View, w: View, members: seq<string>)
    requires LosesHosts(v, w) && ClusterState(v, members).Ok?
    ensures ClusterState(w, members).Ok?
    ensures DetectSplitBrain(ClusterState(w, members).value).isSplitBrain ==> DetectSplitBrain(ClusterState(v, members).value).isSplitBrain
  {
    StatesSurvive(v, w, members);
    ReportsPositions(v, members);
    ReportsPositions(w, members);
    assert forall h :: Leads(w, h) ==> Leads(v, h) by {
      forall h | Leads(w, h) ensures Leads(v, h) { assert w.ask(h) == v.ask(h) || w.ask(h) == Unreachable; }
    }
  }
}
