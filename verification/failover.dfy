/** The failover coordinator (litefs/usecases/failover_coordinator.py): one node's PRIMARY/REPLICA state
    against the answers of its election port, and the events it emits. */
module Failover {
  import opened Wrappers
  import opened Quorum

  datatype EventType = PromotedToPrimary | DemotedToReplica | HealthDemotion | QuorumLossDemotion | GracefulHandoff

  /** The port's side: whether it says this node leads, and whether a demotion request takes effect
      at once. The Raft port ignores such requests. */
  class LeaderElectionPort {
    const honoursDemotion: bool
    var elected: bool

    constructor (elected: bool, honoursDemotion: bool)
      ensures this.elected == elected && this.honoursDemotion == honoursDemotion
    {
      this.elected, this.honoursDemotion := elected, honoursDemotion;
    }

    method DemoteFromLeader()
      modifies this
      ensures elected == (old(elected) && !honoursDemotion)
    {
      if honoursDemotion {
        elected := false;
      }
    }
  }

  datatype Coordinator = Coordinator(primary: bool, healthy: bool, elected: bool, events: seq<EventType>)

  /** What can happen to a coordinator; `Elect` is the environment changing the port's answer. */
  datatype Op = CoordinateTransition | PerformGracefulHandoff | DemoteForHealth | DemoteForQuorumLoss
              | MarkHealthy | MarkUnhealthy | Elect(elected: bool)

  /** A new coordinator takes the port's answer for its state and is healthy. */
  function Initial(elected: bool): Coordinator {
    Coordinator(elected, true, elected, [])
  }

  /** How the coordinator was built. */
  datatype Setup = Setup(honoursDemotion: bool, hasEmitter: bool)

  function Emit(setup: Setup, events: seq<EventType>, e: EventType): seq<EventType> {
    if setup.hasEmitter then events + [e] else events
  }

  function Demote(setup: Setup, c: Coordinator, e: EventType): Coordinator {
    if c.primary then
      c.(primary := false, elected := c.elected && !setup.honoursDemotion, events := Emit(setup, c.events, e))
    else c
  }

  function Step(setup: Setup, c: Coordinator, op: Op): Coordinator {
    match op
    case CoordinateTransition =>
      if c.elected && !c.primary then c.(primary := true, events := Emit(setup, c.events, PromotedToPrimary))
      else if !c.elected && c.primary then c.(primary := false, events := Emit(setup, c.events, DemotedToReplica))
      else c
    case PerformGracefulHandoff => Demote(setup, c, GracefulHandoff)
    case DemoteForHealth => Demote(setup, c, HealthDemotion)
    case DemoteForQuorumLoss => Demote(setup, c, QuorumLossDemotion)
    case MarkHealthy => c.(healthy := true)
    case MarkUnhealthy => c.(healthy := false)
    case Elect(elected) => c.(elected := elected)
  }

  class FailoverCoordinator {
    const leaderElection: LeaderElectionPort
    const hasEmitter: bool
    var primary: bool
    var healthy: bool
    var events: seq<EventType>

    function Abstract(): Coordinator
      reads this, leaderElection
    {
      Coordinator(primary, healthy, leaderElection.elected, events)
    }

    function GetSetup(): Setup {
      Setup(leaderElection.honoursDemotion, hasEmitter)
    }

    constructor (leaderElection: LeaderElectionPort, hasEmitter: bool)
      ensures this.leaderElection == leaderElection && this.hasEmitter == hasEmitter
      ensures Abstract() == Initial(leaderElection.elected)
    {
      this.leaderElection, this.hasEmitter := leaderElection, hasEmitter;
      primary, healthy, events := leaderElection.elected, true, [];
    }

    method EmitEvent(e: EventType)
      modifies this`events
      ensures events == Emit(GetSetup(), old(events), e)
    {
      if hasEmitter {
        events := events + [e];
      }
    }

    method CoordinateTransition()
      modifies this
      ensures Abstract() == Step(GetSetup(), old(Abstract()), Op.CoordinateTransition)
    {
      var isElected := leaderElection.elected;
      var currentIsPrimary := primary;
      if isElected && !currentIsPrimary {
        primary := true;
        EmitEvent(PromotedToPrimary);
      } else if !isElected && currentIsPrimary {
        primary := false;
        EmitEvent(DemotedToReplica);
      }
    }

    method PerformGracefulHandoff()
      modifies this, leaderElection
      ensures Abstract() == Step(GetSetup(), old(Abstract()), Op.PerformGracefulHandoff)
    {
      if primary {
        leaderElection.DemoteFromLeader();
        primary := false;
        EmitEvent(GracefulHandoff);
      }
    }

    method DemoteForHealth()
      modifies this, leaderElection
      ensures Abstract() == Step(GetSetup(), old(Abstract()), Op.DemoteForHealth)
    {
      if primary {
        leaderElection.DemoteFromLeader();
        primary := false;
        EmitEvent(HealthDemotion);
      }
    }

    method DemoteForQuorumLoss()
      modifies this, leaderElection
      ensures Abstract() == Step(GetSetup(), old(Abstract()), Op.DemoteForQuorumLoss)
    {
      if primary {
        leaderElection.DemoteFromLeader();
        primary := false;
        EmitEvent(QuorumLossDemotion);
      }
    }

    method MarkHealthy()
      modifies this
      ensures Abstract() == Step(GetSetup(), old(Abstract()), Op.MarkHealthy)
    {
      healthy := true;
    }

    method MarkUnhealthy()
      modifies this
      ensures Abstract() == Step(GetSetup(), old(Abstract()), Op.MarkUnhealthy)
    {
      healthy := false;
    }
  }

  // ---------- Runs ----------

  function Run(setup: Setup, c: Coordinator, ops: seq<Op>): Coordinator {
    if ops == [] then c else Step(setup, Run(setup, c, ops[..|ops| - 1]), ops[|ops| - 1])
  }

  /** PRIMARY as a number, counting promotions up and every kind of demotion down. */
  function Tally(initial: bool, events: seq<EventType>): int {
    if events == [] then (if initial then 1 else 0)
    else Tally(initial, events[..|events| - 1]) + (if events[|events| - 1].PromotedToPrimary? then 1 else -1)
  }

  ghost predicate Alternates(initial: bool, events: seq<EventType>) {
    && (events != [] ==> (events[0].PromotedToPrimary? <==> !initial))
    && forall i :: 0 < i < |events| ==> (events[i].PromotedToPrimary? <==> !events[i - 1].PromotedToPrimary?)
  }

  /** A call emits one event if it changes the state, and none otherwise. */
  lemma EmitsExactlyOnChange(setup: Setup, c: Coordinator, op: Op)
    requires setup.hasEmitter
    ensures var t := Step(setup, c, op);
            if t.primary == c.primary then t.events == c.events
            else exists e :: t.events == c.events + [e] && (e.PromotedToPrimary? <==> t.primary)
  {
  }

  ghost predicate LastSays(initial: bool, primary: bool, events: seq<EventType>) {
    primary <==> if events == [] then initial else events[|events| - 1].PromotedToPrimary?
  }

  /** Over every run promotions and demotions alternate, and the state is their balance. */
  lemma {:induction false} EventsTellState(setup: Setup, c: Coordinator, ops: seq<Op>)
    requires setup.hasEmitter && c.events == []
    ensures var t := Run(setup, c, ops);
            && Alternates(c.primary, t.events)
            && LastSays(c.primary, t.primary, t.events)
            && Tally(c.primary, t.events) == (if t.primary then 1 else 0)
  {
    if ops != [] {
      var before := Run(setup, c, ops[..|ops| - 1]);
      EventsTellState(setup, c, ops[..|ops| - 1]);
      EmitsExactlyOnChange(setup, before, ops[|ops| - 1]);
      hide Step;
      var t := Run(setup, c, ops);
      if t.events != before.events {
        var e :| t.events == before.events + [e] && (e.PromotedToPrimary? <==> t.primary);
        assert t.events[..|before.events|] == before.events;
      }
    }
  }

  predicate IsDemotion(op: Op) {
    op.PerformGracefulHandoff? || op.DemoteForHealth? || op.DemoteForQuorumLoss?
  }

  ghost predicate NoReelection(ops: seq<Op>) {
    forall i :: 0 <= i < |ops| ==> ops[i] != Elect(true)
  }

  /** With a port that honours demotion, a demoted node does nothing at all until it is elected again. */
  lemma {:induction false} DemotionHolds(setup: Setup, c: Coordinator, demotion: Op, ops: seq<Op>)
    requires setup.honoursDemotion && c.primary && IsDemotion(demotion) && NoReelection(ops)
    ensures var d, t := Step(setup, c, demotion), Run(setup, Step(setup, c, demotion), ops);
            !t.primary && !t.elected && t.events == d.events
  {
    if ops != [] {
      DemotionHolds(setup, c, demotion, ops[..|ops| - 1]);
      assert ops[|ops| - 1] != Elect(true);
    }
  }

  /** A demotion survives the next poll exactly when the port lets go of the node: one that ignores
      the request, as the Raft port does, promotes it right back. */
  lemma DemotionSurvivesPoll(setup: Setup, c: Coordinator, demotion: Op)
    requires c.primary && IsDemotion(demotion)
    ensures var t := Step(setup, Step(setup, c, demotion), CoordinateTransition);
            !t.primary <==> setup.honoursDemotion || !c.elected
  {
  }

  // ---------- Guards ----------

  /** `quorum` is None for a port without a quorum test. */
  predicate CanBecomeLeader(c: Coordinator, quorum: Option<bool>) {
    c.healthy && (quorum.Some? ==> quorum.value)
  }

  predicate CanMaintainLeadership(c: Coordinator, quorum: Option<bool>) {
    c.elected && c.healthy && (quorum.Some? ==> quorum.value)
  }

  predicate ShouldMaintainLeadership(c: Coordinator, quorum: Option<bool>) {
    c.primary && CanMaintainLeadership(c, quorum)
  }

  /** The documented rule that a node without health or quorum is not PRIMARY after a poll does not
      hold of `coordinate_transition`, which asks neither: it holds exactly when the port does not
      elect the node or the guard, asked separately, would let it lead. */
  lemma PollIgnoresGuards(setup: Setup, c: Coordinator, quorum: Option<bool>)
    ensures var t := Step(setup, c, CoordinateTransition);
            && (t.primary <==> c.elected)
            && ((t.primary ==> CanBecomeLeader(t, quorum)) <==> !c.elected || CanBecomeLeader(c, quorum))
  {
  }

  /** A concrete node: unhealthy, without quorum, elected, and PRIMARY after the poll. */
  lemma UnhealthyNodeIsPromoted()
    ensures var c := Run(Setup(false, true), Coordinator(false, true, false, []), [MarkUnhealthy, Elect(true), CoordinateTransition]);
            c.primary && !CanBecomeLeader(c, Some(false)) && c.events == [PromotedToPrimary]
  {
    var setup, c := Setup(false, true), Coordinator(false, true, false, []);
    var ops := [MarkUnhealthy, Elect(true), CoordinateTransition];
    assert ops[..2] == [MarkUnhealthy, Elect(true)];
    assert ops[..2][..1] == [MarkUnhealthy];
    assert Run(setup, c, [MarkUnhealthy]) == c.(healthy := false);
    assert Run(setup, c, ops[..2]) == c.(healthy := false, elected := true);
  }

  /** Cluster safety: whatever the coordinators and their ports have been through, two nodes that the
      network has put into different groups are never both told to keep leading, as long as neither
      shows a member of another group as connected. */
  lemma NoTwoMaintainLeadership(members: seq<string>, a: string, b: string, group: string -> int,
                                ca: Coordinator, cb: Coordinator, sa: seq<(string, int)>, sb: seq<(string, int)>)
    requires Distinct(members) && a in members && b in members && group(a) != group(b)
    requires CountsOnlyGroup(members, a, group, sa) && CountsOnlyGroup(members, b, group, sb)
    ensures !(ShouldMaintainLeadership(ca, Some(QuorumReached(members, sa))) &&
              ShouldMaintainLeadership(cb, Some(QuorumReached(members, sb))))
  {
    OneGroupHasQuorum(members, a, b, group, sa, sb);
  }

  // ---------- Each operation and guard by itself ----------

  /** The guards, condition by condition; a port without a quorum test asks for none. */
  lemma GuardsExact(c: Coordinator, quorum: Option<bool>)
    ensures !c.healthy ==> !CanBecomeLeader(c, quorum) && !CanMaintainLeadership(c, quorum)
    ensures quorum == Some(false) ==> !CanBecomeLeader(c, quorum) && !CanMaintainLeadership(c, quorum)
    ensures !c.elected ==> !CanMaintainLeadership(c, quorum)
    ensures !c.primary ==> !ShouldMaintainLeadership(c, quorum)
    ensures c.healthy && quorum != Some(false) ==> CanBecomeLeader(c, quorum)
    ensures c.healthy && c.elected && quorum != Some(false) ==>
              CanMaintainLeadership(c, quorum) && (ShouldMaintainLeadership(c, quorum) <==> c.primary)
  {
  }

  /** Each way of stepping down from PRIMARY leaves its own event, asks the port to let go, and keeps the
      health mark; a REPLICA does nothing. */
  lemma DemotionEvents(setup: Setup, c: Coordinator)
    ensures c.primary && setup.hasEmitter ==>
      && Step(setup, c, PerformGracefulHandoff).events == c.events + [GracefulHandoff]
      && Step(setup, c, DemoteForHealth).events == c.events + [HealthDemotion]
      && Step(setup, c, DemoteForQuorumLoss).events == c.events + [QuorumLossDemotion]
    ensures forall op :: IsDemotion(op) ==>
      var t := Step(setup, c, op);
      if c.primary then !t.primary && t.healthy == c.healthy && t.elected == (c.elected && !setup.honoursDemotion)
      else t == c
  {
  }

  /** A poll takes over the port's answer, with the event of the change; health and port stay as they are. */
  lemma PollEvents(setup: Setup, c: Coordinator)
    ensures var t := Step(setup, c, CoordinateTransition);
            && t.primary == t.elected == c.elected && t.healthy == c.healthy
            && (setup.hasEmitter ==>
                  t.events == if c.elected == c.primary then c.events
                              else if c.elected then c.events + [PromotedToPrimary]
                              else c.events + [DemotedToReplica])
  {
  }

  /** So a new coordinator agrees with its port: it has emitted nothing, its first poll does nothing, and an
      elected one keeps leading as long as no quorum test fails. */
  lemma StartsInStep(setup: Setup, elected: bool, quorum: Option<bool>)
    ensures Initial(elected).events == [] && Step(setup, Initial(elected), CoordinateTransition) == Initial(elected)
    ensures ShouldMaintainLeadership(Initial(elected), quorum) <==> elected && quorum != Some(false)
  {
  }

  /** Marking changes the health and nothing else, and the last mark stands whatever else happens. */
  lemma {:induction false} LastMarkStands(setup: Setup, c: Coordinator, mark: Op, ops: seq<Op>)
    requires mark == MarkHealthy || mark == MarkUnhealthy
    requires forall i :: 0 <= i < |ops| ==> ops[i] != MarkHealthy && ops[i] != MarkUnhealthy
    ensures Step(setup, c, mark) == Coordinator(c.primary, mark == MarkHealthy, c.elected, c.events)
    ensures Run(setup, Step(setup, c, mark), ops).healthy == (mark == MarkHealthy)
  {
    if ops != [] {
      LastMarkStands(setup, c, mark, ops[..|ops| - 1]);
    }
  }

  /** Without an emitter nothing is ever emitted, and states and ports go exactly the same way. */
  lemma {:induction false} EmitterOnlyEmits(honoursDemotion: bool, c: Coordinator, ops: seq<Op>)
    ensures var silent, loud := Run(Setup(honoursDemotion, false), c, ops), Run(Setup(honoursDemotion, true), c, ops);
            silent == Coordinator(loud.primary, loud.healthy, loud.elected, c.events)
  {
    if ops != [] {
      EmitterOnlyEmits(honoursDemotion, c, ops[..|ops| - 1]);
    }
  }
}
