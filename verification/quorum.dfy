/** Cluster membership and quorum (py_leader/election.py, py_leader/_raft_node.py, litefs/domain/raft.py). */
module Quorum {
  import opened Wrappers
  import opened Text

  datatype ConfigError =
    | EmptyNodeId | EmptyMembers | TooFewMembers | DuplicateMember | BadAddress
    | BadElectionTimeout | BadHeartbeat | HeartbeatNotShorter | NodeNotFound

  /** `member.split(":")[0]`. */
  function Host(member: string): string {
    if member == [] || member[0] == ':' then [] else [member[0]] + Host(member[1..])
  }

  /** The host is all there is before the first colon. */
  lemma {:induction false} HostExact(member: string)
    ensures Host(member) <= member && ':' !in Host(member)
    ensures |Host(member)| < |member| ==> member[|Host(member)|] == ':'
  {
    if member != [] && member[0] != ':' {
      HostExact(member[1..]);
      assert member == [member[0]] + member[1..];
    }
  }

  /** A well-formed address belongs to the node whose name, followed by a colon, it starts with. */
  lemma HostIsPrefix(member: string, name: string)
    requires ':' in member
    ensures Host(member) == name <==> ':' !in name && StartsWith(member, name + ":")
  {
    var host := Host(member);
    HostExact(member);
    assert member[..|host|] == host;
    assert |host| < |member| && member[..|host| + 1] == host + ":";
    if ':' !in name && StartsWith(member, name + ":") {
      var n := |name|;
      assert member[n] == (name + ":")[n] == ':' && member[..n] == (name + ":")[..n] == name;
      assert forall i :: 0 <= i < |host| ==> host[i] == member[i] && host[i] != ':';
      assert forall i :: 0 <= i < n ==> name[i] == member[i] && name[i] != ':';
      assert n == |host|;
    }
  }

  ghost predicate Distinct(members: seq<string>) {
    forall i, j :: 0 <= i < j < |members| ==> members[i] != members[j]
  }

  ghost predicate DistinctHosts(members: seq<string>) {
    forall i, j :: 0 <= i < j < |members| ==> Host(members[i]) != Host(members[j])
  }

  function Members(members: seq<string>): set<string> {
    set m | m in members
  }

  /** The first member whose host is the node's name. */
  function FindSelfAddress(nodeId: string, members: seq<string>): (r: Option<string>)
    ensures r.Some? ==> r.value in members && Host(r.value) == nodeId
    ensures r.None? ==> forall m :: m in members ==> Host(m) != nodeId
  {
    if members == [] then None
    else if Host(members[0]) == nodeId then Some(members[0])
    else FindSelfAddress(nodeId, members[1..])
  }

  /** The first one in the list decides, if several share the host. */
  lemma {:induction false} FirstAddress(nodeId: string, members: seq<string>, i: nat)
    requires i < |members| && Host(members[i]) == nodeId && forall j :: 0 <= j < i ==> Host(members[j]) != nodeId
    ensures FindSelfAddress(nodeId, members) == Some(members[i])
  {
    if i > 0 {
      assert members[0] == members[..1][0];
      FirstAddress(nodeId, members[1..], i - 1);
    }
  }

  function Partners(self: string, members: seq<string>): (p: seq<string>)
    ensures forall m :: m in p <==> m in members && m != self
  {
    if members == [] then []
    else (if members[0] != self then [members[0]] else []) + Partners(self, members[1..])
  }

  lemma {:induction false} PartnersJoin(self: string, before: seq<string>, after: seq<string>)
    ensures Partners(self, before + after) == Partners(self, before) + Partners(self, after)
  {
    if before == [] {
      assert before + after == after;
    } else {
      assert (before + after)[1..] == before[1..] + after;
      PartnersJoin(self, before[1..], after);
    }
  }

  lemma {:induction false} PartnersKeepOthers(self: string, others: seq<string>)
    requires self !in others
    ensures Partners(self, others) == others
  {
    if others != [] { PartnersKeepOthers(self, others[1..]); }
  }

  lemma PartnersSkipSelf(self: string, after: seq<string>)
    ensures Partners(self, [self] + after) == Partners(self, after)
  {
    assert ([self] + after)[1..] == after;
  }

  /** The partners are the other members in their order. */
  lemma PartnersInOrder(self: string, before: seq<string>, after: seq<string>)
    requires self !in before && self !in after
    ensures Partners(self, before + ([self] + after)) == before + after
  {
    PartnersSkipSelf(self, after);
    hide Partners;
    PartnersKeepOthers(self, before);
    PartnersKeepOthers(self, after);
    PartnersJoin(self, before, [self] + after);
  }

  /** `math.floor(n / 2) + 1`, as the election computes it. */
  function QuorumSize(n: nat): int {
    (n as real / 2.0).Floor + 1
  }

  /** `n // 2 + 1`, as the settings compute it. */
  function SettingsQuorumSize(n: nat): int {
    n / 2 + 1
  }

  lemma QuorumFormulasAgree(n: nat)
    ensures QuorumSize(n) == SettingsQuorumSize(n)
    ensures 2 * QuorumSize(n) > n && 2 * (QuorumSize(n) - 1) <= n
  {
  }

  datatype Election = Election(nodeId: string, members: seq<string>, quorumSize: int, selfAddress: string, partners: seq<string>)

  function Validate(nodeId: string, members: seq<string>, electionTimeout: real, heartbeat: real): Option<ConfigError> {
    if Strip(nodeId) == [] then Some(EmptyNodeId)
    else if members == [] then Some(EmptyMembers)
    else if |members| < 2 then Some(TooFewMembers)
    else if |members| != |Members(members)| then Some(DuplicateMember)
    else if exists m :: m in members && ':' !in m then Some(BadAddress)
    else if electionTimeout <= 0.0 then Some(BadElectionTimeout)
    else if heartbeat <= 0.0 then Some(BadHeartbeat)
    else if heartbeat >= electionTimeout then Some(HeartbeatNotShorter)
    else None
  }

  lemma DistinctTail(members: seq<string>)
    requires members != []
    ensures Distinct(members) <==> Distinct(members[1..]) && members[0] !in members[1..]
  {
    var rest := members[1..];
    assert forall i :: 0 <= i < |rest| ==> rest[i] == members[i + 1];
    if Distinct(rest) && members[0] !in rest {
      forall i, j | 0 <= i < j < |members| ensures members[i] != members[j] {
        assert members[j] == rest[j - 1];
      }
    }
  }

  lemma {:induction false} DistinctBySize(members: seq<string>)
    ensures |Members(members)| <= |members|
    ensures |Members(members)| == |members| <==> Distinct(members)
  {
    if members != [] {
      var rest := members[1..];
      DistinctTail(members);
      hide Distinct;
      DistinctBySize(rest);
      assert members == [members[0]] + rest;
      assert Members(members) == Members(rest) + {members[0]};
    }
  }

  /** A configured election: the partners are exactly the other addresses. */
  function Configure(nodeId: string, members: seq<string>, electionTimeout: real, heartbeat: real): (r: Result<Election, ConfigError>)
    ensures r.Ok? ==>
      && r.value.nodeId == nodeId && r.value.members == members
      && Distinct(members) && |members| >= 2
      && r.value.selfAddress in members && Host(r.value.selfAddress) == nodeId
      && r.value.quorumSize == |members| / 2 + 1
      && (forall m :: m in r.value.partners <==> m in members && m != r.value.selfAddress)
  {
    var error := Validate(nodeId, members, electionTimeout, heartbeat);
    if error.Some? then Err(error.value)
    else
      var self := FindSelfAddress(nodeId, members);
      DistinctBySize(members);
      QuorumFormulasAgree(|members|);
      if self.None? then Err(NodeNotFound)
      else Ok(Election(nodeId, members, QuorumSize(|members|), self.value, Partners(self.value, members)))
  }

  /** The node's name and a colon start one of the addresses. */
  ghost predicate Listed(nodeId: string, members: seq<string>) {
    ':' !in nodeId && exists m :: m in members && StartsWith(m, nodeId + ":")
  }

  lemma ListedExact(nodeId: string, members: seq<string>)
    requires forall m :: m in members ==> ':' in m
    ensures Listed(nodeId, members) <==> FindSelfAddress(nodeId, members).Some?
  {
    if m :| m in members && StartsWith(m, nodeId + ":") {
      HostIsPrefix(m, nodeId);
    }
    if FindSelfAddress(nodeId, members).Some? {
      HostIsPrefix(FindSelfAddress(nodeId, members).value, nodeId);
    }
  }

  /** A configuration is accepted exactly when the node has a name, the cluster at least two different
      well-formed addresses, one of them the node's, and the heartbeat is positive and shorter than the
      election timeout. */
  lemma ConfigureExact(nodeId: string, members: seq<string>, electionTimeout: real, heartbeat: real)
    ensures Configure(nodeId, members, electionTimeout, heartbeat).Ok? <==>
            && Strip(nodeId) != [] && |members| >= 2 && Distinct(members)
            && (forall m :: m in members ==> ':' in m)
            && Listed(nodeId, members)
            && 0.0 < heartbeat < electionTimeout
  {
    hide FindSelfAddress, Partners, Members, Distinct, Listed, Strip;
    DistinctBySize(members);
    if forall m :: m in members ==> ':' in m {
      ListedExact(nodeId, members);
    }
  }

  /** Which objection is raised: the first one, in this order. */
  lemma FirstObjection(nodeId: string, members: seq<string>, electionTimeout: real, heartbeat: real)
    ensures var r := Configure(nodeId, members, electionTimeout, heartbeat);
            var wellFormed := |members| >= 2 && Distinct(members) && forall m :: m in members ==> ':' in m;
            && (r == Err(EmptyNodeId) <==> AllSpace(nodeId))
            && (r == Err(EmptyMembers) <==> !AllSpace(nodeId) && |members| == 0)
            && (r == Err(TooFewMembers) <==> !AllSpace(nodeId) && |members| == 1)
            && (r == Err(DuplicateMember) <==> !AllSpace(nodeId) && |members| >= 2 && !Distinct(members))
            && (r == Err(BadAddress) <==> !AllSpace(nodeId) && |members| >= 2 && Distinct(members) && !wellFormed)
            && (r == Err(BadElectionTimeout) <==> !AllSpace(nodeId) && wellFormed && electionTimeout <= 0.0)
            && (r == Err(BadHeartbeat) <==> !AllSpace(nodeId) && wellFormed && electionTimeout > 0.0 && heartbeat <= 0.0)
            && (r == Err(HeartbeatNotShorter) <==> !AllSpace(nodeId) && wellFormed && 0.0 < electionTimeout <= heartbeat)
  {
    StripsToNothing(nodeId);
    DistinctBySize(members);
    hide Strip, AllSpace, Distinct, FindSelfAddress, Members;
  }

  /** Every node finds its own address exactly when the hosts differ; ports do not tell nodes apart. */
  lemma SelfAddressExact(members: seq<string>)
    requires Distinct(members)
    ensures (forall i :: 0 <= i < |members| ==> FindSelfAddress(Host(members[i]), members) == Some(members[i]))
            <==> DistinctHosts(members)
  {
  }

  // ---------- Roles ----------

  const LEADER := 2
  const FOLLOWER := 0

  class LeaderElectionNode {
    var isLeader: bool
    var notified: seq<bool>    // what the leader-change callback has been told

    constructor ()
      ensures !isLeader && notified == []
    {
      isLeader, notified := false, [];
    }

    method HandleStateChange(oldState: int, newState: int)
      modifies this
      ensures (isLeader, notified) == AfterChange(old(isLeader), old(notified), oldState, newState)
    {
      var wasLeader := oldState == LEADER;
      var isNowLeader := newState == LEADER;
      if wasLeader != isNowLeader {
        isLeader := isNowLeader;
        notified := notified + [isNowLeader];
      }
    }

    /** Counts itself and every partner whose status is 2. */
    method GetRespondingNodesCount(status: Option<seq<(string, int)>>) returns (responding: nat)
      ensures responding == if status.None? then 1 else 1 + |ConnectedPositions(status.value)|
    {
      if status.None? {
        return 1;
      }
      responding := 1;
      var i := 0;
      assert ConnectedPositions(status.value[..0]) == {};
      while i < |status.value|
        invariant i <= |status.value|
        invariant responding == 1 + |ConnectedPositions(status.value[..i])|
      {
        var (key, value) := status.value[i];
        PositionsLast(status.value[..i], status.value[i]);
        assert status.value[..i] + [status.value[i]] == status.value[..i + 1];
        if StartsWith(key, PARTNER_PREFIX) && value == 2 {
          responding := responding + 1;
        }
        i := i + 1;
      }
      assert status.value[..i] == status.value;
    }
  }

  /** `is_quorum_reached` of the election that owns the node. */
  method IsQuorumReached(node: LeaderElectionNode, quorumSize: int, status: Option<seq<(string, int)>>) returns (reached: bool)
    ensures reached <==> (if status.None? then 1 else 1 + |ConnectedPositions(status.value)|) >= quorumSize
  {
    var responding := node.GetRespondingNodesCount(status);
    return responding >= quorumSize;
  }

  function AfterChange(isLeader: bool, notified: seq<bool>, oldState: int, newState: int): (bool, seq<bool>) {
    if (oldState == LEADER) != (newState == LEADER) then (newState == LEADER, notified + [newState == LEADER])
    else (isLeader, notified)
  }

  /** The role changes of one node, each starting where the one before ended. */
  function AfterChanges(states: seq<int>): (bool, seq<bool>) {
    if |states| <= 1 then (false, [])
    else
      var n := |states| - 1;
      var (isLeader, notified) := AfterChanges(states[..n]);
      AfterChange(isLeader, notified, states[n - 1], states[n])
  }

  /** From FOLLOWER on, the flag always names the current role, and the callback hears the two roles in turn. */
  lemma {:induction false} LeaderFlagFollowsRole(states: seq<int>)
    requires states != [] && states[0] == FOLLOWER
    ensures var (isLeader, notified) := AfterChanges(states);
            && (isLeader <==> states[|states| - 1] == 2)
            && (forall i :: 0 <= i < |notified| ==> notified[i] == (i % 2 == 0))
            && (|notified| % 2 == 1 <==> isLeader)
  {
    if |states| > 1 {
      LeaderFlagFollowsRole(states[..|states| - 1]);
    }
  }

  // ---------- Who counts whom ----------

  const PARTNER_PREFIX := "partner_node_status_"

  /** The entry shows a partner as connected, which is value 2 and no other. */
  predicate ShowsPartner(entry: (string, int)) {
    StartsWith(entry.0, "partner_node_status_") && entry.1 == 2
  }

  ghost function ConnectedPositions(status: seq<(string, int)>): set<int> {
    set i | 0 <= i < |status| && ShowsPartner(status[i])
  }

  lemma PositionsLast(before: seq<(string, int)>, last: (string, int))
    ensures |ConnectedPositions(before + [last])| ==
            |ConnectedPositions(before)| + if ShowsPartner(last) then 1 else 0
  {
    hide ShowsPartner;
    var status := before + [last];
    assert forall i :: 0 <= i < |before| ==> status[i] == before[i];
    if ShowsPartner(last) {
      assert ConnectedPositions(status) == ConnectedPositions(before) + {|before|};
    } else {
      assert ConnectedPositions(status) == ConnectedPositions(before);
    }
  }

  /** A status is a dictionary: no key occurs twice. */
  ghost predicate DistinctKeys(status: seq<(string, int)>) {
    forall i, j :: 0 <= i < j < |status| ==> status[i].0 != status[j].0
  }

  /** The keys of the partners shown as connected. */
  ghost function ConnectedKeys(status: seq<(string, int)>): set<string> {
    set i | i in ConnectedPositions(status) :: status[i].0
  }

  lemma {:induction false} PositionsAreKeys(status: seq<(string, int)>)
    requires DistinctKeys(status)
    ensures |ConnectedPositions(status)| == |ConnectedKeys(status)|
  {
    if status == [] {
      assert ConnectedPositions(status) == {} && ConnectedKeys(status) == {};
    } else {
      var before, last := status[..|status| - 1], status[|status| - 1];
      assert status == before + [last];
      PositionsAreKeys(before);
      hide ConnectedPositions, ConnectedKeys;
      PositionsLast(before, last);
      KeysLast(before, last);
    }
  }

  lemma KeyOfLast(before: seq<(string, int)>, last: (string, int), key: string)
    ensures key in ConnectedKeys(before + [last]) <==> key in ConnectedKeys(before) || (ShowsPartner(last) && key == last.0)
  {
    hide ShowsPartner;
    var status, n := before + [last], |before|;
    assert status[n] == last && forall i :: 0 <= i < n ==> status[i] == before[i];
    if key in ConnectedKeys(before) {
      var i :| i in ConnectedPositions(before) && before[i].0 == key;
      assert i in ConnectedPositions(status) && status[i].0 == key;
    }
    if ShowsPartner(last) {
      assert n in ConnectedPositions(status);
    }
  }

  lemma KeysLast(before: seq<(string, int)>, last: (string, int))
    requires DistinctKeys(before + [last])
    ensures |ConnectedKeys(before + [last])| == |ConnectedKeys(before)| + if ShowsPartner(last) then 1 else 0
  {
    var status, n := before + [last], |before|;
    assert status[n] == last && forall i :: 0 <= i < n ==> status[i] == before[i];
    assert last.0 !in ConnectedKeys(before);
    forall key ensures key in ConnectedKeys(status) <==> key in ConnectedKeys(before) || (ShowsPartner(last) && key == last.0) {
      KeyOfLast(before, last, key);
    }
    hide ConnectedKeys, ShowsPartner;
    assert ConnectedKeys(status) == ConnectedKeys(before) + if ShowsPartner(last) then {last.0} else {};
  }

  /** The keys of a set of partners. */
  ghost function KeysOf(names: set<string>): set<string> {
    set m | m in names :: PARTNER_PREFIX + m
  }

  lemma {:induction false} AsManyKeys(names: set<string>)
    ensures |KeysOf(names)| == |names|
  {
    if m :| m in names {
      var rest := names - {m};
      AsManyKeys(rest);
      assert KeysOf(names) == KeysOf(rest) + {PARTNER_PREFIX + m};
      forall x | x in rest ensures PARTNER_PREFIX + x != PARTNER_PREFIX + m {
        assert (PARTNER_PREFIX + x)[|PARTNER_PREFIX|..] == x && (PARTNER_PREFIX + m)[|PARTNER_PREFIX|..] == m;
      }
    } else {
      assert KeysOf(names) == {};
    }
  }

  ghost function GroupMembers(members: seq<string>, group: string -> int, own: int): set<string> {
    set m | m in members && group(m) == own
  }

  /** Every partner the status shows as connected is another member of the node's own group. What it says
      of the others, and in which order, does not matter. */
  ghost predicate CountsOnlyGroup(members: seq<string>, self: string, group: string -> int, status: seq<(string, int)>) {
    && DistinctKeys(status)
    && forall i :: i in ConnectedPositions(status) ==>
         exists m :: m in members && m != self && group(m) == group(self) && status[i].0 == PARTNER_PREFIX + m
  }

  /** And every other member of the group is shown as connected. */
  ghost predicate CountsGroup(members: seq<string>, self: string, group: string -> int, status: seq<(string, int)>) {
    && CountsOnlyGroup(members, self, group, status)
    && forall m :: m in members && m != self && group(m) == group(self) ==>
         exists i :: i in ConnectedPositions(status) && status[i].0 == PARTNER_PREFIX + m
  }

  /** A node that sees only its own group never counts more than that group has; and one that sees all of
      it counts exactly its members, itself included, whatever values the rest of the status holds. */
  lemma RespondingIsGroup(members: seq<string>, self: string, group: string -> int, status: seq<(string, int)>)
    requires self in members && CountsOnlyGroup(members, self, group, status)
    ensures 1 + |ConnectedPositions(status)| <= |GroupMembers(members, group, group(self))|
    ensures CountsGroup(members, self, group, status) ==>
              1 + |ConnectedPositions(status)| == |GroupMembers(members, group, group(self))|
  {
    var g := GroupMembers(members, group, group(self));
    assert g == (g - {self}) + {self};
    PositionsAreKeys(status);
    AsManyKeys(g - {self});
    KeysInGroup(members, self, group, status);
    SubsetSize(ConnectedKeys(status), KeysOf(g - {self}));
  }

  lemma KeysInGroup(members: seq<string>, self: string, group: string -> int, status: seq<(string, int)>)
    requires CountsOnlyGroup(members, self, group, status)
    ensures var others := GroupMembers(members, group, group(self)) - {self};
            && ConnectedKeys(status) <= KeysOf(others)
            && (CountsGroup(members, self, group, status) ==> ConnectedKeys(status) == KeysOf(others))
  {
    hide ShowsPartner;
    var others := GroupMembers(members, group, group(self)) - {self};
    forall key | key in ConnectedKeys(status)
      ensures key in KeysOf(others)
    {
      var i :| i in ConnectedPositions(status) && status[i].0 == key;
      var m :| m in members && m != self && group(m) == group(self) && status[i].0 == PARTNER_PREFIX + m;
      assert m in others;
    }
  }

  // ---------- Quorums ----------

  lemma SubsetSize<T>(a: set<T>, b: set<T>)
    requires a <= b
    ensures |a| <= |b|
  {
    assert b == a + (b - a);
  }

  /** Two quorums of one cluster share a member. */
  lemma QuorumsIntersect(members: set<string>, a: set<string>, b: set<string>)
    requires a <= members && b <= members
    requires |a| >= QuorumSize(|members|) && |b| >= QuorumSize(|members|)
    ensures a * b != {}
  {
    QuorumFormulasAgree(|members|);
    SubsetSize(a + b, members);
    assert |a + b| + |a * b| == |a| + |b|;
  }

  ghost predicate QuorumReached(members: seq<string>, status: seq<(string, int)>) {
    1 + |ConnectedPositions(status)| >= QuorumSize(|members|)
  }

  /** However the cluster splits into groups, nodes of two different groups never both reach quorum. */
  lemma OneGroupHasQuorum(members: seq<string>, a: string, b: string, group: string -> int,
                          sa: seq<(string, int)>, sb: seq<(string, int)>)
    requires Distinct(members) && a in members && b in members && group(a) != group(b)
    requires CountsOnlyGroup(members, a, group, sa) && CountsOnlyGroup(members, b, group, sb)
    ensures !(QuorumReached(members, sa) && QuorumReached(members, sb))
  {
    RespondingIsGroup(members, a, group, sa);
    RespondingIsGroup(members, b, group, sb);
    DistinctBySize(members);
    var ga, gb := GroupMembers(members, group, group(a)), GroupMembers(members, group, group(b));
    assert ga * gb == {};
    if QuorumReached(members, sa) && QuorumReached(members, sb) {
      QuorumsIntersect(Members(members), ga, gb);
      assert false;
    }
  }

  /** An isolated node, no partner of which is connected, reaches quorum in no cluster. */
  lemma IsolatedHasNoQuorum(members: seq<string>, status: seq<(string, int)>)
    requires |members| >= 2
    requires forall i :: 0 <= i < |status| && StartsWith(status[i].0, "partner_node_status_") ==> status[i].1 != 2
    ensures !QuorumReached(members, status)
  {
    assert ConnectedPositions(status) == {};
    QuorumFormulasAgree(|members|);
  }
}
