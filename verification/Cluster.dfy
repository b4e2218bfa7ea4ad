/** The cluster manager's view of its peers: per-node health, the cached quorum flag and
    partition status, and the steps that keep them up to date. */
module Cluster {
  import opened Text

  type NodeId = nat

  datatype NodeHealth = Healthy | Degraded | Unreachable | Unknown {
    predicate IsAvailable() {
      Healthy? || Degraded?
    }
  }

  datatype PartitionStatus = Connected | Minority | StatusUnknown

  const U32: nat := 0x1_0000_0000

  datatype NodeState = NodeState(health: NodeHealth, consecutiveFailures: nat) {
    function MarkHealthy(): NodeState {
      NodeState(Healthy, 0)
    }

    function MarkDegraded(): NodeState {
      NodeState(Degraded, 0)
    }

    /** The failure counter has 32 bits. */
    function MarkUnreachable(): NodeState {
      NodeState(Unreachable, (consecutiveFailures + 1) % U32)
    }
  }

  const NEW_NODE := NodeState(Unknown, 0)

  type Nodes = map<NodeId, NodeState>

  datatype ClusterState = ClusterState(nodes: Nodes, hasQuorum: bool, partitionStatus: PartitionStatus)

  const INITIAL := ClusterState(map[], false, StatusUnknown)

  function Available(nodes: Nodes): set<NodeId> {
    set id | id in nodes && nodes[id].health.IsAvailable()
  }

  function TotalNodeCount(nodes: Nodes): nat {
    |nodes| + 1
  }

  predicate CheckQuorum(nodes: Nodes) {
    |Available(nodes)| + 1 > TotalNodeCount(nodes) / 2
  }

  function DetectPartition(nodes: Nodes): PartitionStatus {
    var unreachable := nodes.Keys - Available(nodes);
    if |unreachable| == 0 then Connected
    else if CheckQuorum(nodes) then Connected
    else if TotalNodeCount(nodes) > 1 then Minority else StatusUnknown
  }

  predicate ShouldAcceptWrites(s: ClusterState) {
    s.hasQuorum && s.partitionStatus != Minority
  }

  predicate CanRemoveNode(nodes: Nodes, id: NodeId) {
    if id !in nodes || !nodes[id].health.IsAvailable() then true
    else |Available(nodes)| > (TotalNodeCount(nodes) - 1) / 2
  }

  // ---------- majorities ----------

  /** The detector says Minority exactly when the majority check fails. */
  lemma MinorityExactly(nodes: Nodes)
    ensures DetectPartition(nodes) == Minority <==> !CheckQuorum(nodes)
    ensures DetectPartition(nodes) == Connected <==> CheckQuorum(nodes)
  {
    var available := Available(nodes);
    if |nodes.Keys - available| == 0 {
      assert nodes.Keys == available;
    }
    assert nodes.Keys == {} ==> available == {};
  }

  /** Removing a node is allowed exactly if it is unknown, unavailable, or the majority check holds
      afterwards; where the check holds before, exactly if it still holds afterwards. */
  lemma RemovalIsExact(nodes: Nodes, id: NodeId)
    ensures CanRemoveNode(nodes, id) <==> id !in nodes || !nodes[id].health.IsAvailable() || CheckQuorum(nodes - {id})
    ensures CheckQuorum(nodes) ==> (CanRemoveNode(nodes, id) <==> CheckQuorum(nodes - {id}))
  {
    if id in nodes {
      var after := nodes - {id};
      assert after.Keys == nodes.Keys - {id};
      assert Available(after) == Available(nodes) - {id};
    } else {
      assert nodes - {id} == nodes;
    }
  }

  /** What a node's state says about the cluster: its members and those it can reach,
      itself included. */
  function Members(local: NodeId, nodes: Nodes): set<NodeId> {
    nodes.Keys + {local}
  }

  function Reaches(local: NodeId, nodes: Nodes): set<NodeId> {
    Available(nodes) + {local}
  }

  /** Two nodes with the same member set that both see a majority reach a common node. */
  lemma MajoritiesMeet(a: NodeId, na: Nodes, b: NodeId, nb: Nodes)
    requires a !in na && b !in nb && Members(a, na) == Members(b, nb)
    requires CheckQuorum(na) && CheckQuorum(nb)
    ensures Reaches(a, na) * Reaches(b, nb) != {}
  {
    var members, va, vb := Members(a, na), Reaches(a, na), Reaches(b, nb);
    assert |va| == |Available(na)| + 1 && |vb| == |Available(nb)| + 1;
    assert |members| == |na.Keys| + 1 && |Members(b, nb)| == |nb.Keys| + 1;
    if va * vb == {} {
      assert |va + vb| == |va| + |vb|;
      assert va + vb <= members;
      SubsetSize(va + vb, members);
    }
  }

  lemma {:induction false} SubsetSize(a: set<NodeId>, b: set<NodeId>)
    requires a <= b
    ensures |a| <= |b|
  {
    if a != {} {
      var x :| x in a;
      SubsetSize(a - {x}, b - {x});
    }
  }

  // ---------- steps ----------

  /** The outcome of one health check: an answer with its latency, a refusal, or silence. */
  datatype Check = Answers(latency: nat) | SaysUnhealthy | Fails | TimesOut

  /** A configured peer, whether connecting to it works, and its first health check. */
  datatype Peer = Peer(id: NodeId, connects: bool, latency: Option<nat>)

  datatype Config = Config(localNodeId: NodeId, degradedLatencyThreshold: nat, failureThreshold: nat)

  datatype Step =
    | AddNode(peer: Peer)
    | RemoveNode(id: NodeId)
    | DiscoverPeers(peers: seq<Peer>)
    | Heartbeat(id: NodeId, check: Check)

  function FirstState(config: Config, latency: Option<nat>): NodeState {
    match latency
    case None => NEW_NODE.MarkUnreachable()
    case Some(ms) => if ms > config.degradedLatencyThreshold then NEW_NODE.MarkDegraded() else NEW_NODE.MarkHealthy()
  }

  function WithQuorum(s: ClusterState): ClusterState {
    s.(hasQuorum := CheckQuorum(s.nodes))
  }

  function Refreshed(s: ClusterState): ClusterState {
    s.(hasQuorum := CheckQuorum(s.nodes), partitionStatus := DetectPartition(s.nodes))
  }

  function Added(config: Config, s: ClusterState, peer: Peer): ClusterState {
    if peer.id == config.localNodeId || !peer.connects then s
    else WithQuorum(s.(nodes := s.nodes[peer.id := FirstState(config, peer.latency)]))
  }

  function Met(config: Config, s: ClusterState, peer: Peer): ClusterState {
    if peer.id == config.localNodeId then s
    else if peer.connects then Added(config, s, peer)
    else s.(nodes := s.nodes[peer.id := NEW_NODE])
  }

  function MetAll(config: Config, s: ClusterState, peers: seq<Peer>): ClusterState {
    if peers == [] then s
    else Met(config, MetAll(config, s, peers[..|peers| - 1]), peers[|peers| - 1])
  }

  function Checked(config: Config, node: NodeState, check: Check): NodeState {
    match check
    case Answers(ms) => if ms > config.degradedLatencyThreshold then node.MarkDegraded() else node.MarkHealthy()
    case SaysUnhealthy => node.MarkDegraded()
    case Fails => node.MarkUnreachable()
    case TimesOut => node.MarkUnreachable()
  }

  /** A failed check that reaches the threshold goes to reconnect and skips the refresh. */
  predicate Reconnects(config: Config, node: NodeState, check: Check) {
    check.Fails? && Checked(config, node, check).consecutiveFailures >= config.failureThreshold
  }

  function Do(config: Config, s: ClusterState, step: Step): ClusterState {
    match step
    case AddNode(peer) => Added(config, s, peer)
    case RemoveNode(id) => Refreshed(s.(nodes := s.nodes - {id}))
    case DiscoverPeers(peers) => if peers == [] then s else WithQuorum(MetAll(config, s, peers))
    case Heartbeat(id, check) =>
      if id !in s.nodes then s
      else
        var after := s.(nodes := s.nodes[id := Checked(config, s.nodes[id], check)]);
        if Reconnects(config, s.nodes[id], check) then after else Refreshed(after)
  }

  class ClusterManager {
    const config: Config
    var nodes: Nodes
    var hasQuorum: bool
    var partitionStatus: PartitionStatus

    ghost function State(): ClusterState
      reads this
    {
      ClusterState(nodes, hasQuorum, partitionStatus)
    }

    constructor (config: Config)
      ensures this.config == config && State() == INITIAL
    {
      this.config := config;
      nodes, hasQuorum, partitionStatus := map[], false, StatusUnknown;
    }

    method AddNode(peer: Peer) returns (ok: bool)
      modifies this
      ensures State() == Do(config, old(State()), Step.AddNode(peer))
      ensures ok <==> peer.id != config.localNodeId && peer.connects
    {
      if peer.id == config.localNodeId || !peer.connects {
        return false;
      }
      var node := NEW_NODE;
      if peer.latency.Some? {
        if peer.latency.value > config.degradedLatencyThreshold {
          node := node.MarkDegraded();
        } else {
          node := node.MarkHealthy();
        }
      } else {
        node := node.MarkUnreachable();
      }
      nodes := nodes[peer.id := node];
      hasQuorum := CheckQuorum(nodes);
      ok := true;
    }

    method RemoveNode(id: NodeId)
      modifies this
      ensures State() == Do(config, old(State()), Step.RemoveNode(id))
    {
      nodes := nodes - {id};
      hasQuorum := CheckQuorum(nodes);
      partitionStatus := DetectPartition(nodes);
    }

    method DiscoverPeers(peers: seq<Peer>)
      modifies this
      ensures State() == Do(config, old(State()), Step.DiscoverPeers(peers))
    {
      if peers == [] {
        return;
      }
      var i := 0;
      while i < |peers|
        invariant 0 <= i <= |peers|
        invariant State() == MetAll(config, old(State()), peers[..i])
      {
        var peer := peers[i];
        assert peers[..i + 1][..i] == peers[..i] && peers[..i + 1][i] == peer;
        i := i + 1;
        if peer.id == config.localNodeId {
          continue;
        }
        var ok := AddNode(peer);
        if !ok {
          nodes := nodes[peer.id := NEW_NODE];
        }
      }
      assert peers[..i] == peers;
      hasQuorum := CheckQuorum(nodes);
    }

    /** One node's turn in the heartbeat loop. */
    method HeartbeatNode(id: NodeId, check: Check)
      modifies this
      ensures State() == Do(config, old(State()), Heartbeat(id, check))
    {
      if id !in nodes {
        return;
      }
      var node := nodes[id];
      match check {
        case Answers(ms) =>
          if ms > config.degradedLatencyThreshold {
            node := node.MarkDegraded();
          } else {
            node := node.MarkHealthy();
          }
        case SaysUnhealthy => node := node.MarkDegraded();
        case Fails =>
          node := node.MarkUnreachable();
          if node.consecutiveFailures >= config.failureThreshold {
            nodes := nodes[id := node];
            return;
          }
        case TimesOut => node := node.MarkUnreachable();
      }
      nodes := nodes[id := node];
      hasQuorum := CheckQuorum(nodes);
      partitionStatus := DetectPartition(nodes);
    }
  }

  // ---------- what every step keeps ----------

  /** Only an unreachable node has failures on its account, and no node is its own peer. */
  ghost predicate Sound(config: Config, nodes: Nodes) {
    && config.localNodeId !in nodes
    && forall id :: id in nodes ==> SoundNode(nodes[id])
  }

  ghost predicate SoundNode(node: NodeState) {
    node.consecutiveFailures > 0 ==> node.health == Unreachable
  }

  ghost predicate CachedQuorumHolds(s: ClusterState) {
    s.hasQuorum ==> CheckQuorum(s.nodes)
  }

  lemma CheckKeepsSound(config: Config, node: NodeState, check: Check)
    requires SoundNode(node)
    ensures SoundNode(Checked(config, node, check))
    ensures config.failureThreshold >= 2 && Reconnects(config, node, check) ==>
              !node.health.IsAvailable() && !Checked(config, node, check).health.IsAvailable()
  {
  }

  lemma {:induction false} MeetingKeepsSound(config: Config, s: ClusterState, peers: seq<Peer>)
    requires Sound(config, s.nodes)
    ensures Sound(config, MetAll(config, s, peers).nodes)
  {
    if peers != [] {
      MeetingKeepsSound(config, s, peers[..|peers| - 1]);
    }
  }

  /** Turning an unavailable node into an unavailable node changes no count. */
  lemma StillUnavailable(nodes: Nodes, id: NodeId, node: NodeState)
    requires id in nodes && !nodes[id].health.IsAvailable() && !node.health.IsAvailable()
    ensures CheckQuorum(nodes[id := node]) == CheckQuorum(nodes)
  {
    assert Available(nodes[id := node]) == Available(nodes);
    assert nodes[id := node].Keys == nodes.Keys;
  }

  lemma StepKeepsSound(config: Config, s: ClusterState, step: Step)
    requires Sound(config, s.nodes)
    ensures Sound(config, Do(config, s, step).nodes)
  {
    match step
    case AddNode(peer) => AddKeepsSound(config, s, peer);
    case RemoveNode(id) =>
    case DiscoverPeers(peers) => MeetingKeepsSound(config, s, peers);
    case Heartbeat(id, check) =>
      if id in s.nodes {
        CheckKeepsSound(config, s.nodes[id], check);
      }
  }

  lemma AddKeepsSound(config: Config, s: ClusterState, peer: Peer)
    requires Sound(config, s.nodes)
    ensures Sound(config, Added(config, s, peer).nodes)
  {
    assert SoundNode(FirstState(config, peer.latency));
  }

  lemma StepKeepsQuorum(config: Config, s: ClusterState, step: Step)
    requires config.failureThreshold >= 2 && Sound(config, s.nodes) && CachedQuorumHolds(s)
    ensures CachedQuorumHolds(Do(config, s, step))
  {
    if step.Heartbeat? && step.id in s.nodes {
      var node := s.nodes[step.id];
      CheckKeepsSound(config, node, step.check);
      if Reconnects(config, node, step.check) {
        StillUnavailable(s.nodes, step.id, Checked(config, node, step.check));
      }
    }
  }

  function After(config: Config, s: ClusterState, run: seq<Step>): ClusterState
    decreases |run|
  {
    if run == [] then s else After(config, Do(config, s, run[0]), run[1..])
  }

  lemma {:induction false} RunKeepsSound(config: Config, s: ClusterState, run: seq<Step>)
    requires Sound(config, s.nodes)
    ensures Sound(config, After(config, s, run).nodes)
    decreases |run|
  {
    if run != [] {
      StepKeepsSound(config, s, run[0]);
      RunKeepsSound(config, Do(config, s, run[0]), run[1..]);
    }
  }

  lemma {:induction false} RunKeepsQuorum(config: Config, s: ClusterState, run: seq<Step>)
    requires config.failureThreshold >= 2 && Sound(config, s.nodes) && CachedQuorumHolds(s)
    ensures CachedQuorumHolds(After(config, s, run))
    decreases |run|
  {
    if run != [] {
      StepKeepsSound(config, s, run[0]);
      StepKeepsQuorum(config, s, run[0]);
      RunKeepsQuorum(config, Do(config, s, run[0]), run[1..]);
    }
  }

  // ---------- what the checks said ----------

  /** What a run does to one node: it joins with a first health check, is registered without a
      connection, leaves, or has a heartbeat. */
  datatype Event = Joins(latency: Option<nat>) | Registers | Leaves | Beats(check: Check)

  function PeerEvents(config: Config, peers: seq<Peer>, id: NodeId): seq<Event> {
    if peers == [] then []
    else
      var p := peers[|peers| - 1];
      PeerEvents(config, peers[..|peers| - 1], id)
      + if p.id != id || id == config.localNodeId then [] else if p.connects then [Joins(p.latency)] else [Registers]
  }

  function StepEvents(config: Config, step: Step, id: NodeId): seq<Event> {
    match step
    case AddNode(p) => if p.id == id && id != config.localNodeId && p.connects then [Joins(p.latency)] else []
    case RemoveNode(x) => if x == id then [Leaves] else []
    case DiscoverPeers(peers) => PeerEvents(config, peers, id)
    case Heartbeat(x, check) => if x == id then [Beats(check)] else []
  }

  function History(config: Config, run: seq<Step>, id: NodeId): seq<Event> {
    if run == [] then []
    else History(config, run[..|run| - 1], id) + StepEvents(config, run[|run| - 1], id)
  }

  predicate Enters(e: Event) {
    e.Joins? || e.Registers?
  }

  /** The node is a member: it entered and has not left since. */
  ghost predicate IsMember(h: seq<Event>) {
    exists i :: 0 <= i < |h| && Enters(h[i]) && forall j :: i < j < |h| ==> !h[j].Leaves?
  }

  /** The node was heard: it answered, or said that it is not well. */
  predicate Heard(e: Event) {
    (e.Joins? && e.latency.Some?) || (e.Beats? && (e.check.Answers? || e.check.SaysUnhealthy?))
  }

  /** It was heard, but late or not well. */
  predicate HeardBadly(config: Config, e: Event) {
    || (e.Joins? && e.latency.Some? && e.latency.value > config.degradedLatencyThreshold)
    || (e.Beats? && e.check.Answers? && e.check.latency > config.degradedLatencyThreshold)
    || (e.Beats? && e.check.SaysUnhealthy?)
  }

  predicate Missed(e: Event) {
    (e.Joins? && e.latency.None?) || (e.Beats? && (e.check.Fails? || e.check.TimesOut?))
  }

  /** The checks missed in a row up to now, counted back to the last time it was heard or entered. */
  function MissedInARow(h: seq<Event>): nat {
    if h == [] || !Missed(h[|h| - 1]) then 0
    else 1 + if h[|h| - 1].Joins? then 0 else MissedInARow(h[..|h| - 1])
  }

  /** The recorded state of one node says what its events say. */
  ghost predicate Tells(config: Config, nodes: Nodes, id: NodeId, h: seq<Event>) {
    && (id in nodes <==> IsMember(h))
    && (id in nodes ==>
          && h != []
          && (nodes[id].health.IsAvailable() <==> Heard(h[|h| - 1]))
          && (nodes[id].health == Degraded <==> HeardBadly(config, h[|h| - 1]))
          && (nodes[id].health == Unknown <==> h[|h| - 1].Registers?)
          && nodes[id].consecutiveFailures == MissedInARow(h) % U32)
  }

  lemma MemberGrows(h: seq<Event>, e: Event)
    ensures IsMember(h + [e]) <==> Enters(e) || (IsMember(h) && !e.Leaves?)
  {
    var all := h + [e];
    if Enters(e) {
      assert Enters(all[|h|]);
    }
    if IsMember(h) && !e.Leaves? {
      var i :| 0 <= i < |h| && Enters(h[i]) && forall j :: i < j < |h| ==> !h[j].Leaves?;
      assert Enters(all[i]);
    }
    if IsMember(all) && !Enters(e) {
      var i :| 0 <= i < |all| && Enters(all[i]) && forall j :: i < j < |all| ==> !all[j].Leaves?;
      assert h[i] == all[i] && all[|h|] == e;
      assert forall j :: i < j < |h| ==> h[j] == all[j];
    }
  }

  lemma EnteringTells(config: Config, nodes: Nodes, id: NodeId, h: seq<Event>, peer: Peer)
    requires peer.id == id
    ensures peer.connects ==> Tells(config, nodes[id := FirstState(config, peer.latency)], id, h + [Joins(peer.latency)])
    ensures Tells(config, nodes[id := NEW_NODE], id, h + [Registers])
  {
    MemberGrows(h, Joins(peer.latency));
    MemberGrows(h, Registers);
  }

  lemma CheckTells(config: Config, nodes: Nodes, id: NodeId, h: seq<Event>, check: Check)
    requires Tells(config, nodes, id, h) && id in nodes
    ensures Tells(config, nodes[id := Checked(config, nodes[id], check)], id, h + [Beats(check)])
  {
    MemberGrows(h, Beats(check));
    var all := h + [Beats(check)];
    assert all[..|all| - 1] == h;
    if Missed(Beats(check)) {
      OneMoreMissed(nodes[id].consecutiveFailures, MissedInARow(h));
    }
  }

  lemma OneMoreMissed(counted: nat, missed: nat)
    requires counted == missed % U32
    ensures (counted + 1) % U32 == (missed + 1) % U32
  {
  }

  lemma IgnoredTells(config: Config, nodes: Nodes, id: NodeId, h: seq<Event>, e: Event)
    requires Tells(config, nodes, id, h) && id !in nodes && !Enters(e)
    ensures Tells(config, nodes, id, h + [e])
  {
    MemberGrows(h, e);
  }

  lemma LeavingTells(config: Config, nodes: Nodes, id: NodeId, h: seq<Event>)
    ensures Tells(config, nodes - {id}, id, h + [Leaves])
  {
    MemberGrows(h, Leaves);
  }

  /** Only the node's own entry matters. */
  lemma SameEntryTells(config: Config, nodes: Nodes, nodes': Nodes, id: NodeId, h: seq<Event>)
    requires Tells(config, nodes, id, h) && (id in nodes <==> id in nodes') && (id in nodes ==> nodes'[id] == nodes[id])
    ensures Tells(config, nodes', id, h + [])
  {
    assert h + [] == h;
  }

  lemma {:induction false} MeetingTells(config: Config, s: ClusterState, peers: seq<Peer>, id: NodeId, h: seq<Event>)
    requires Tells(config, s.nodes, id, h)
    ensures Tells(config, MetAll(config, s, peers).nodes, id, h + PeerEvents(config, peers, id))
  {
    if peers == [] {
      SameEntryTells(config, s.nodes, s.nodes, id, h);
    } else {
      var k := |peers| - 1;
      MeetingTells(config, s, peers[..k], id, h);
      MetTells(config, MetAll(config, s, peers[..k]), peers[k], id, h + PeerEvents(config, peers[..k], id));
      var more := if peers[k].id != id || id == config.localNodeId then []
                  else if peers[k].connects then [Joins(peers[k].latency)] else [Registers];
      assert h + (PeerEvents(config, peers[..k], id) + more) == h + PeerEvents(config, peers[..k], id) + more;
    }
  }

  lemma MetTells(config: Config, s: ClusterState, p: Peer, id: NodeId, h: seq<Event>)
    requires Tells(config, s.nodes, id, h)
    ensures Tells(config, Met(config, s, p).nodes, id,
                  h + if p.id != id || id == config.localNodeId then [] else if p.connects then [Joins(p.latency)] else [Registers])
  {
    if p.id != id || id == config.localNodeId {
      SameEntryTells(config, s.nodes, Met(config, s, p).nodes, id, h);
    } else {
      EnteringTells(config, s.nodes, id, h, p);
    }
  }

  lemma StepTells(config: Config, s: ClusterState, step: Step, id: NodeId, h: seq<Event>)
    requires Tells(config, s.nodes, id, h)
    ensures Tells(config, Do(config, s, step).nodes, id, h + StepEvents(config, step, id))
  {
    match step
    case AddNode(p) => MetOrIgnored(config, s, p, id, h);
    case RemoveNode(x) =>
      if x == id {
        LeavingTells(config, s.nodes, id, h);
      } else {
        SameEntryTells(config, s.nodes, s.nodes - {x}, id, h);
      }
    case DiscoverPeers(peers) => MeetingTells(config, s, peers, id, h);
    case Heartbeat(x, check) => BeatTells(config, s, x, check, id, h);
  }

  lemma MetOrIgnored(config: Config, s: ClusterState, p: Peer, id: NodeId, h: seq<Event>)
    requires Tells(config, s.nodes, id, h)
    ensures Tells(config, Added(config, s, p).nodes, id, h + StepEvents(config, AddNode(p), id))
  {
    if p.id == id && id != config.localNodeId && p.connects {
      EnteringTells(config, s.nodes, id, h, p);
    } else {
      SameEntryTells(config, s.nodes, Added(config, s, p).nodes, id, h);
    }
  }

  lemma BeatTells(config: Config, s: ClusterState, x: NodeId, check: Check, id: NodeId, h: seq<Event>)
    requires Tells(config, s.nodes, id, h)
    ensures Tells(config, Do(config, s, Heartbeat(x, check)).nodes, id, h + StepEvents(config, Heartbeat(x, check), id))
  {
    if x != id {
      SameEntryTells(config, s.nodes, Do(config, s, Heartbeat(x, check)).nodes, id, h);
    } else if id in s.nodes {
      CheckTells(config, s.nodes, id, h, check);
    } else {
      IgnoredTells(config, s.nodes, id, h, Beats(check));
    }
  }

  lemma {:induction false} AfterLast(config: Config, s: ClusterState, run: seq<Step>, step: Step)
    ensures After(config, s, run + [step]) == Do(config, After(config, s, run), step)
    decreases |run|
  {
    if run == [] {
      assert [] + [step] == [step] && [step][1..] == [];
      assert After(config, Do(config, s, step), []) == Do(config, s, step);
    } else {
      assert (run + [step])[0] == run[0] && (run + [step])[1..] == run[1..] + [step];
      AfterLast(config, Do(config, s, run[0]), run[1..], step);
    }
  }

  /** Over every run, a node is a member exactly if it entered and has not left since; a member is
      available exactly if it was heard at its last check, Degraded exactly if that was late or not
      well, Unknown exactly if it was only registered; and its failure count is the number of
      checks missed in a row, in 32 bits. */
  lemma {:induction false} HealthIsWhatChecksSaid(config: Config, run: seq<Step>, id: NodeId)
    ensures Tells(config, After(config, INITIAL, run).nodes, id, History(config, run, id))
  {
    if run != [] {
      var k := |run| - 1;
      HealthIsWhatChecksSaid(config, run[..k], id);
      StepTells(config, After(config, INITIAL, run[..k]), run[k], id, History(config, run[..k], id));
      AfterLast(config, INITIAL, run[..k], run[k]);
      assert run[..k] + [run[k]] == run;
    }
  }

  predicate LastHeard(h: seq<Event>) {
    h != [] && Heard(h[|h| - 1])
  }

  /** The members that were heard at their last check. */
  ghost function HeardMembers(config: Config, run: seq<Step>): set<NodeId> {
    set id | id in After(config, INITIAL, run).nodes && LastHeard(History(config, run, id))
  }

  lemma HeardOne(config: Config, nodes: Nodes, id: NodeId, h: seq<Event>)
    requires Tells(config, nodes, id, h)
    ensures id in Available(nodes) <==> id in nodes && LastHeard(h)
  {
  }

  lemma HeardIsAvailable(config: Config, run: seq<Step>)
    ensures HeardMembers(config, run) == Available(After(config, INITIAL, run).nodes)
  {
    var nodes := After(config, INITIAL, run).nodes;
    forall id
      ensures id in Available(nodes) <==> id in nodes && LastHeard(History(config, run, id))
    {
      HealthIsWhatChecksSaid(config, run, id);
      HeardOne(config, nodes, id, History(config, run, id));
    }
  }

  /** More than half of all members, the node itself included, were heard at their last check. */
  ghost predicate MajorityHeard(config: Config, run: seq<Step>) {
    2 * (|HeardMembers(config, run)| + 1) > |After(config, INITIAL, run).nodes.Keys| + 1
  }

  lemma MajorityIsChecked(config: Config, run: seq<Step>)
    ensures CheckQuorum(After(config, INITIAL, run).nodes) <==> MajorityHeard(config, run)
  {
    HeardIsAvailable(config, run);
    var nodes := After(config, INITIAL, run).nodes;
    assert |nodes| == |nodes.Keys|;
  }

  /** The cached flag is safe over all runs exactly for failure thresholds of at least 2:
      then a node sent to reconnect was already counted as unavailable. */
  lemma CachedQuorumIsSafe(config: Config)
    ensures (forall run :: CachedQuorumHolds(After(config, INITIAL, run))) <==> config.failureThreshold >= 2
  {
    if config.failureThreshold >= 2 {
      forall run
        ensures CachedQuorumHolds(After(config, INITIAL, run))
      {
        RunKeepsQuorum(config, INITIAL, run);
      }
    } else {
      LowThresholdGoesStale(config);
    }
  }

  /** With a threshold of 0 or 1 the first failed check skips the refresh: a node that meets
      one peer, which then fails, goes on believing in a majority of two out of two. */
  function StaleRun(config: Config): seq<Step> {
    var id := config.localNodeId + 1;
    [AddNode(Peer(id, true, Some(0))), Heartbeat(id, Fails)]
  }

  lemma LowThresholdGoesStale(config: Config)
    requires config.failureThreshold < 2
    ensures !CachedQuorumHolds(After(config, INITIAL, StaleRun(config)))
  {
    var id := config.localNodeId + 1;
    var run := StaleRun(config);
    var up, down := NodeState(Healthy, 0), NodeState(Unreachable, 1);
    assert Do(config, INITIAL, run[0]).nodes == map[id := up];
    LonePeer(id, up);
    LonePeer(id, down);
    var s1 := ClusterState(map[id := up], true, StatusUnknown);
    assert Do(config, INITIAL, run[0]) == s1;
    assert Reconnects(config, up, Fails) && Checked(config, up, Fails) == down;
    assert map[id := up][id := down] == map[id := down];
    var s2 := ClusterState(map[id := down], true, StatusUnknown);
    assert Do(config, s1, run[1]) == s2;
    assert run[1..] == [run[1]] && run[1..][1..] == [];
    assert After(config, s1, [run[1]]) == After(config, s2, []);
  }

  lemma LonePeer(id: NodeId, node: NodeState)
    ensures CheckQuorum(map[id := node]) <==> node.health.IsAvailable()
  {
    var nodes := map[id := node];
    assert nodes.Keys == {id} && |nodes| == 1;
    assert Available(nodes) == if node.health.IsAvailable() then {id} else {};
  }

  /** In every reachable state writes are accepted only if more than half of the members, the node
      itself included, were heard at their last check. */
  lemma WritesNeedMajority(config: Config, run: seq<Step>)
    requires config.failureThreshold >= 2
    ensures ShouldAcceptWrites(After(config, INITIAL, run)) ==>
              MajorityHeard(config, run) && CheckQuorum(After(config, INITIAL, run).nodes)
  {
    RunKeepsQuorum(config, INITIAL, run);
    MajorityIsChecked(config, run);
  }

  /** The step looks at all nodes again: a removal, or a heartbeat that does not go to reconnect,
      because it did not fail or too few checks were missed in a row. */
  ghost predicate LooksAgain(config: Config, run: seq<Step>, step: Step) {
    || step.RemoveNode?
    || (step.Heartbeat? && IsMember(History(config, run, step.id))
        && (step.check.Fails? ==>
              MissedInARow(History(config, run, step.id) + [Beats(step.check)]) % U32 < config.failureThreshold))
  }

  /** Right after such a step writes are accepted if and only if a majority was heard. */
  lemma WritesFollowMajority(config: Config, run: seq<Step>, step: Step)
    requires LooksAgain(config, run, step)
    ensures ShouldAcceptWrites(After(config, INITIAL, run + [step])) <==> MajorityHeard(config, run + [step])
  {
    var s := After(config, INITIAL, run);
    AfterLast(config, INITIAL, run, step);
    if step.Heartbeat? {
      HealthIsWhatChecksSaid(config, run, step.id);
      CheckTells(config, s.nodes, step.id, History(config, run, step.id), step.check);
    }
    RefreshIsExact(config, s, step);
    MajorityIsChecked(config, run + [step]);
  }

  /** After a removal, or a heartbeat that did not go to reconnect, both caches are exact:
      writes are accepted if and only if there is a majority. */
  lemma RefreshIsExact(config: Config, s: ClusterState, step: Step)
    requires step.RemoveNode?
             || (step.Heartbeat? && step.id in s.nodes && !Reconnects(config, s.nodes[step.id], step.check))
    ensures ShouldAcceptWrites(Do(config, s, step)) <==> CheckQuorum(Do(config, s, step).nodes)
  {
    MinorityExactly(Do(config, s, step).nodes);
  }

  /** Before any removal or heartbeat: nodes only join. */
  ghost predicate OnlyJoins(run: seq<Step>) {
    forall i :: 0 <= i < |run| ==> run[i].AddNode? || run[i].DiscoverPeers?
  }

  lemma {:induction false} JoiningLeavesPartition(config: Config, run: seq<Step>)
    requires OnlyJoins(run)
    ensures After(config, INITIAL, run).partitionStatus == StatusUnknown
  {
    if run != [] {
      var k := |run| - 1;
      JoiningLeavesPartition(config, run[..k]);
      AfterLast(config, INITIAL, run[..k], run[k]);
      assert run[..k] + [run[k]] == run;
      if run[k].DiscoverPeers? {
        MeetingLeavesPartition(config, After(config, INITIAL, run[..k]), run[k].peers);
      }
    }
  }

  /** A cluster that forms: right after a peer joined, or peers were discovered, writes are accepted
      if and only if a majority was heard. */
  lemma FormingFollowsMajority(config: Config, run: seq<Step>, step: Step)
    requires OnlyJoins(run)
    requires (step.AddNode? && step.peer.connects && step.peer.id != config.localNodeId) || (step.DiscoverPeers? && step.peers != [])
    ensures ShouldAcceptWrites(After(config, INITIAL, run + [step])) <==> MajorityHeard(config, run + [step])
  {
    AfterLast(config, INITIAL, run, step);
    JoiningLeavesPartition(config, run + [step]);
    MajorityIsChecked(config, run + [step]);
  }

  /** Steps that never look at the partition again: additions, discovery, and heartbeats that go
      to reconnect. */
  ghost predicate LeavesPartition(config: Config, s: ClusterState, run: seq<Step>)
    decreases |run|
  {
    run != [] ==>
      && !run[0].RemoveNode?
      && (run[0].Heartbeat? ==> run[0].id !in s.nodes || Reconnects(config, s.nodes[run[0].id], run[0].check))
      && LeavesPartition(config, Do(config, s, run[0]), run[1..])
  }

  lemma {:induction false} MeetingLeavesPartition(config: Config, s: ClusterState, peers: seq<Peer>)
    ensures MetAll(config, s, peers).partitionStatus == s.partitionStatus
  {
    if peers != [] {
      MeetingLeavesPartition(config, s, peers[..|peers| - 1]);
    }
  }

  /** A Minority verdict outlives every run of such steps: writes stay refused however many
      nodes come back, until the next removal or completed heartbeat. */
  lemma {:induction false} MinorityLingers(config: Config, s: ClusterState, run: seq<Step>)
    requires s.partitionStatus == Minority && LeavesPartition(config, s, run)
    ensures After(config, s, run).partitionStatus == Minority && !ShouldAcceptWrites(After(config, s, run))
    decreases |run|
  {
    if run != [] {
      if run[0].DiscoverPeers? {
        MeetingLeavesPartition(config, s, run[0].peers);
      }
      MinorityLingers(config, Do(config, s, run[0]), run[1..]);
    }
  }

  /** Two managers of one member set, each in any state reachable with a safe threshold: if
      both accept writes, some node is available to both. */
  lemma NoSplitBrain(ca: Config, runA: seq<Step>, cb: Config, runB: seq<Step>)
    requires ca.failureThreshold >= 2 && cb.failureThreshold >= 2
    requires Members(ca.localNodeId, After(ca, INITIAL, runA).nodes) == Members(cb.localNodeId, After(cb, INITIAL, runB).nodes)
    requires ShouldAcceptWrites(After(ca, INITIAL, runA)) && ShouldAcceptWrites(After(cb, INITIAL, runB))
    ensures Reaches(ca.localNodeId, After(ca, INITIAL, runA).nodes) * Reaches(cb.localNodeId, After(cb, INITIAL, runB).nodes) != {}
  {
    RunKeepsSound(ca, INITIAL, runA);
    RunKeepsSound(cb, INITIAL, runB);
    WritesNeedMajority(ca, runA);
    WritesNeedMajority(cb, runB);
    MajoritiesMeet(ca.localNodeId, After(ca, INITIAL, runA).nodes, cb.localNodeId, After(cb, INITIAL, runB).nodes);
  }
}
