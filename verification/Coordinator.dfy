/** The coordinator of two-phase quorum writes over a set of replicas. */
module Coordinator {
  import opened Text
  import opened MetadataDb
  import opened Replica
  import opened ReplicaRuns
  import opened Client

  datatype QuorumConfig = QuorumConfig(replicationFactor: nat, writeQuorum: nat, readQuorum: nat)

  /** How one replica is asked to prepare.  Streamed: `reached` says that the stream got there,
      `answered` that its answer came back; `pieces` is what the sender read of the file.
      Unary: the retry loop of the buffered write. */
  datatype Route =
    | Streamed(reached: bool, answered: bool, pieces: seq<Bytes>, io: WriteIo)
    | Unary(retries: nat, attempts: seq<Attempt>)

  /** What the network and one replica's disk do during one write.  `joined`: the coordinator's
      worker for the prepare did not die; `commitReached`, `abortReached`: that message got there. */
  datatype NodeEnv = NodeEnv(route: Route, joined: bool, now: nat, commitReached: bool, cio: CommitIo, abortReached: bool)

  /** The node's own temp object for the write, and how its commit goes. */
  datatype Own = Own(handle: nat, cio: CommitIo)

  datatype Write = Write(key: string, data: Bytes, requestId: nat)

  type Replicas = map<nat, Store>

  type Env = map<nat, NodeEnv>

  /** Senders read the file, each as far as it got. */
  ghost predicate GoodEnv(env: Env, replicas: Replicas, data: Bytes) {
    env.Keys == replicas.Keys && forall n :: n in env ==> GoodRoute(env[n].route, data)
  }

  ghost predicate GoodRoute(route: Route, data: Bytes) {
    route.Streamed? ==> ReadsSome(route.pieces, data)
  }

  function Retried(s: Store, wr: Write, e: NodeEnv): Call
    requires e.route.Unary?
  {
    RetriedPrepare(s, wr.requestId, wr.key, wr.data, e.route.retries, e.route.attempts, e.now)
  }

  /** The prepare of one replica and what the coordinator learns: a temp id, a failure, or
      nothing when the worker died. */
  function Prepared(s: Store, wr: Write, e: NodeEnv): (Store, Option<string>) {
    match e.route
    case Streamed(reached, answered, pieces, io) =>
      if reached then StreamPrepare(s, Chunks(wr.key, wr.requestId, pieces, Sha256(wr.data)), io, e.now) else (s, None)
    case Unary(_, _) => (Retried(s, wr, e).store, Retried(s, wr, e).answer)
  }

  function Learned(s: Store, wr: Write, e: NodeEnv): Option<string> {
    if e.route.Streamed? && !e.route.answered then None else Prepared(s, wr, e).1
  }

  /** The prepare got there at most once, as every streamed one does. */
  predicate NotRepeated(s: Store, wr: Write, e: NodeEnv) {
    e.route.Unary? ==> Retried(s, wr, e).deliveries <= 1
  }

  function AfterPrepare(replicas: Replicas, nodes: seq<nat>, wr: Write, env: Env): Replicas
    requires env.Keys == replicas.Keys
  {
    map n | n in replicas :: if n in nodes then Prepared(replicas[n], wr, env[n]).0 else replicas[n]
  }

  /** The answers collected from `nodes`, in order. */
  function Reports(replicas: Replicas, nodes: seq<nat>, wr: Write, env: Env): seq<(nat, Option<string>)>
    requires env.Keys == replicas.Keys
  {
    if nodes == [] then []
    else
      var n := nodes[|nodes| - 1];
      Reports(replicas, nodes[..|nodes| - 1], wr, env)
      + if n in replicas && env[n].joined then [(n, Learned(replicas[n], wr, env[n]))] else []
  }

  /** The chosen nodes that still have a client when the prepares go out. */
  function Connected(nodes: seq<nat>, clients: map<nat, string>): seq<nat> {
    if nodes == [] then []
    else
      var n := nodes[|nodes| - 1];
      Connected(nodes[..|nodes| - 1], clients) + if n in clients then [n] else []
  }

  lemma {:induction false} ConnectedMembers(nodes: seq<nat>, clients: map<nat, string>)
    ensures forall n :: n in Connected(nodes, clients) <==> n in nodes && n in clients
    ensures (forall n :: n in nodes ==> n in clients) ==> Connected(nodes, clients) == nodes
  {
    if nodes != [] {
      var k := |nodes| - 1;
      ConnectedMembers(nodes[..k], clients);
      assert nodes == nodes[..k] + [nodes[k]];
    }
  }

  datatype PreparePhase = PreparePhase(tempIds: map<nat, string>, successCount: nat, successfulNodes: seq<nat>, failedNodes: seq<nat>)

  function AfterCommit(replicas: Replicas, tempIds: map<nat, string>, env: Env): Replicas
    requires env.Keys == replicas.Keys
  {
    map n | n in replicas :: if n in tempIds && env[n].commitReached then Commit(replicas[n], tempIds[n], env[n].cio).0 else replicas[n]
  }

  function AfterAbort(replicas: Replicas, tempIds: map<nat, string>, env: Env): Replicas
    requires env.Keys == replicas.Keys
  {
    map n | n in replicas :: if n in tempIds && env[n].abortReached then Abort(replicas[n], tempIds[n]) else replicas[n]
  }

  lemma SameReplicas(a: Replicas, b: Replicas)
    requires a.Keys == b.Keys && forall n :: n in a ==> a[n] == b[n]
    ensures a == b
  {
  }

  datatype WriteResult =
    | LocalWriteFailed
    | Finished(successCount: nat, failureCount: nat, quorumAchieved: bool, successfulNodes: seq<nat>, failedNodes: seq<nat>)

  ghost predicate Distinct(nodes: seq<nat>) {
    forall i, j :: 0 <= i < j < |nodes| ==> nodes[i] != nodes[j]
  }

  function Oks(reports: seq<(nat, Option<string>)>): seq<nat> {
    if reports == [] then []
    else
      var (n, r) := reports[|reports| - 1];
      Oks(reports[..|reports| - 1]) + if r.Some? then [n] else []
  }

  function Fails(reports: seq<(nat, Option<string>)>): seq<nat> {
    if reports == [] then []
    else
      var (n, r) := reports[|reports| - 1];
      Fails(reports[..|reports| - 1]) + if r.None? then [n] else []
  }

  function IdsOf(reports: seq<(nat, Option<string>)>): map<nat, string> {
    if reports == [] then map[]
    else
      var (n, r) := reports[|reports| - 1];
      var ids := IdsOf(reports[..|reports| - 1]);
      if r.Some? then ids[n := r.value] else ids
  }

  /** Each node answers at most once, and the coordinator itself is not asked. */
  ghost predicate OncePerNode(reports: seq<(nat, Option<string>)>, localId: nat) {
    && (forall i, j :: 0 <= i < j < |reports| ==> reports[i].0 != reports[j].0)
    && (forall i :: 0 <= i < |reports| ==> reports[i].0 != localId)
  }

  function Ids(nodes: seq<(nat, string)>): set<nat> {
    set i | 0 <= i < |nodes| :: nodes[i].0
  }

  lemma IdsGrow(nodes: seq<(nat, string)>, i: nat)
    requires i < |nodes|
    ensures Ids(nodes[..i + 1]) == Ids(nodes[..i]) + {nodes[i].0}
    ensures nodes[i].0 in Ids(nodes)
  {
    var a, b := nodes[..i], nodes[..i + 1];
    forall n | n in Ids(a)
      ensures n in Ids(b)
    {
      var j :| 0 <= j < |a| && a[j].0 == n;
      assert b[j].0 == n;
    }
    assert b[i].0 == nodes[i].0;
    forall n | n in Ids(b)
      ensures n in Ids(a) || n == nodes[i].0
    {
      var j :| 0 <= j < |b| && b[j].0 == n;
      assert j < i ==> a[j].0 == n;
    }
  }

  function Max(a: int, b: int): int {
    if a < b then b else a
  }

  /** Quorum check, commit of the node's own temp object, then commit or abort on the replicas.
      Below quorum the own temp object is dropped. */
  function Complete(config: QuorumConfig, phase: PreparePhase, prepared: Replicas, local: Store, own: Own, env: Env)
    : (Replicas, Store, WriteResult)
    requires env.Keys == prepared.Keys
  {
    if phase.successCount < config.writeQuorum then
      (AfterAbort(prepared, phase.tempIds, env), DropOf(local, Local(own.handle)),
       Finished(phase.successCount, |phase.failedNodes|, false, phase.successfulNodes, phase.failedNodes))
    else
      var (local', ok) := CommitOf(local, Local(own.handle), own.cio);
      if !ok then (AfterAbort(prepared, phase.tempIds, env), local', LocalWriteFailed)
      else
        (AfterCommit(prepared, phase.tempIds, env), local',
         Finished(phase.successCount, |phase.failedNodes|, true, phase.successfulNodes, phase.failedNodes))
  }

  function PhaseOf(localId: nat, reports: seq<(nat, Option<string>)>): PreparePhase {
    PreparePhase(IdsOf(reports), 1 + |Oks(reports)|, [localId] + Oks(reports), Fails(reports))
  }

  /** One replicated write to the chosen nodes. */
  function TwoPhaseWrite(config: QuorumConfig, localId: nat, replicas: Replicas, local: Store, nodes: seq<nat>,
                         wr: Write, env: Env, own: Own): (Replicas, Store, WriteResult)
    requires env.Keys == replicas.Keys
  {
    Complete(config, PhaseOf(localId, Reports(replicas, nodes, wr, env)), AfterPrepare(replicas, nodes, wr, env), local, own, env)
  }

  lemma ConnectOne(nodes: seq<nat>, i: nat, clients: map<nat, string>)
    requires i < |nodes|
    ensures Connected(nodes[..i + 1], clients)
            == if nodes[i] in clients then Connected(nodes[..i], clients) + [nodes[i]] else Connected(nodes[..i], clients)
  {
    assert nodes[..i + 1][..i] == nodes[..i];
  }

  lemma NotYetConnected(nodes: seq<nat>, i: nat, clients: map<nat, string>)
    requires i < |nodes| && Distinct(nodes)
    ensures nodes[i] !in Connected(nodes[..i], clients)
  {
    ConnectedMembers(nodes[..i], clients);
  }

  lemma NonePrepared(replicas: Replicas, wr: Write, env: Env)
    requires env.Keys == replicas.Keys
    ensures AfterPrepare(replicas, [], wr, env) == replicas
  {
  }

  lemma PrepareOne(replicas: Replicas, nodes: seq<nat>, n: nat, wr: Write, env: Env)
    requires env.Keys == replicas.Keys && n in replicas && n !in nodes
    ensures AfterPrepare(replicas, nodes, wr, env)[n] == replicas[n]
    ensures AfterPrepare(replicas, nodes + [n], wr, env)
            == AfterPrepare(replicas, nodes, wr, env)[n := Prepared(replicas[n], wr, env[n]).0]
  {
  }

  lemma ReportOne(replicas: Replicas, nodes: seq<nat>, n: nat, wr: Write, env: Env)
    requires env.Keys == replicas.Keys && n in replicas
    ensures Reports(replicas, nodes + [n], wr, env)
            == Reports(replicas, nodes, wr, env) + if env[n].joined then [(n, Learned(replicas[n], wr, env[n]))] else []
  {
    assert (nodes + [n])[..|nodes|] == nodes;
  }

  class ReplicationCoordinator {
    const localId: nat
    const config: QuorumConfig
    var clients: map<nat, string>
    var requestCounter: nat

    ghost predicate Valid()
      reads this
    {
      localId !in clients
    }

    constructor (localId: nat, config: QuorumConfig)
      ensures Valid() && clients == map[] && requestCounter == 1
      ensures this.localId == localId && this.config == config
    {
      this.localId, this.config := localId, config;
      clients, requestCounter := map[], 1;
    }

    method AddNode(node: nat, addr: string)
      requires Valid()
      modifies this`clients
      ensures Valid()
      ensures clients == if node == localId then old(clients) else old(clients)[node := addr]
    {
      if node != localId {
        clients := clients[node := addr];
      }
    }

    method RemoveNode(node: nat)
      requires Valid()
      modifies this`clients
      ensures Valid() && clients == old(clients) - {node}
    {
      clients := clients - {node};
    }

    /** Brings the client table in line with a membership list: exactly its members, the
        local node excepted, and a node that was already known keeps its address. */
    method SyncNodes(nodes: seq<(nat, string)>)
      requires Valid()
      modifies this`clients
      ensures Valid()
      ensures clients.Keys == Ids(nodes) - {localId}
      ensures forall n :: n in clients && n in old(clients) ==> clients[n] == old(clients)[n]
      ensures forall n :: n in clients && n !in old(clients) ==> (n, clients[n]) in nodes
    {
      var current := clients.Keys;
      RemoveMissing(Ids(nodes));
      for i := 0 to |nodes|
        invariant Valid() && localId !in current
        invariant forall n :: n in clients <==> n != localId && ((n in current && n in Ids(nodes)) || n in Ids(nodes[..i]))
        invariant forall n :: n in clients && n in old(clients) ==> clients[n] == old(clients)[n]
        invariant forall n :: n in clients && n !in old(clients) ==> (n, clients[n]) in nodes
      {
        IdsGrow(nodes, i);
        assert (nodes[i].0, nodes[i].1) == nodes[i] && nodes[i] in nodes;
        if nodes[i].0 !in current {
          AddNode(nodes[i].0, nodes[i].1);
        }
      }
      assert nodes[..|nodes|] == nodes;
    }

    method RemoveMissing(wanted: set<nat>)
      requires Valid()
      modifies this`clients
      ensures Valid() && clients == map n | n in old(clients) && n in wanted :: old(clients)[n]
    {
      var gone := clients.Keys - wanted;
      while gone != {}
        invariant Valid() && gone <= old(clients).Keys - wanted
        invariant forall n :: n in clients <==> n in old(clients) && (n in wanted || n in gone)
        invariant forall n :: n in clients ==> clients[n] == old(clients)[n]
        decreases |gone|
      {
        var n :| n in gone;
        RemoveNode(n);
        gone := gone - {n};
      }
    }

    /** Healthy nodes in iteration order, at most one fewer than `count`. */
    method SelectReplicaNodes(count: nat, order: seq<nat>, healthy: set<nat>) returns (chosen: seq<nat>)
      requires Valid() && Distinct(order) && forall n :: n in order <==> n in clients
      ensures Distinct(chosen) && |chosen| <= if count == 0 then 0 else count - 1
      ensures forall n :: n in chosen ==> n in clients && n in healthy && n != localId
      ensures |chosen| + 1 < count ==> forall n :: n in clients && n in healthy ==> n in chosen
    {
      chosen := [];
      if count <= 1 {
        return;
      }
      var needed := count - 1;
      var i := 0;
      while i < |order| && |chosen| < needed
        invariant 0 <= i <= |order| && |chosen| <= needed && Distinct(chosen)
        invariant forall n :: n in chosen <==> n in order[..i] && n in healthy
      {
        if order[i] in healthy {
          assert order[i] !in order[..i];
          chosen := chosen + [order[i]];
        }
        i := i + 1;
      }
      assert i == |order| ==> order[..i] == order;
    }

    /** Prepares every chosen node that has a client, in order. */
    method PrepareAll(nodes: seq<nat>, replicas: Replicas, wr: Write, env: Env)
      returns (prepared: Replicas, results: seq<(nat, Option<string>)>)
      requires env.Keys == replicas.Keys && Distinct(nodes) && clients.Keys <= replicas.Keys
      ensures prepared == AfterPrepare(replicas, Connected(nodes, clients), wr, env)
      ensures results == Reports(replicas, Connected(nodes, clients), wr, env)
    {
      prepared, results := replicas, [];
      NonePrepared(replicas, wr, env);
      for i := 0 to |nodes|
        invariant prepared == AfterPrepare(replicas, Connected(nodes[..i], clients), wr, env)
        invariant results == Reports(replicas, Connected(nodes[..i], clients), wr, env)
      {
        var n := nodes[i];
        ConnectOne(nodes, i, clients);
        if n in clients {
          NotYetConnected(nodes, i, clients);
          PrepareOne(replicas, Connected(nodes[..i], clients), n, wr, env);
          ReportOne(replicas, Connected(nodes[..i], clients), n, wr, env);
          var (s, answer) := Prepared(prepared[n], wr, env[n]);
          prepared := prepared[n := s];
          if env[n].joined {
            results := results + [(n, if env[n].route.Streamed? && !env[n].route.answered then None else answer)];
          }
        }
      }
      assert nodes[..|nodes|] == nodes;
    }

    method ProcessPrepareResults(results: seq<(nat, Option<string>)>) returns (phase: PreparePhase)
      ensures phase.tempIds == IdsOf(results) && phase.successCount == 1 + |Oks(results)|
      ensures phase.successfulNodes == [localId] + Oks(results) && phase.failedNodes == Fails(results)
    {
      var tempIds: map<nat, string> := map[];
      var successCount := 1;
      var successfulNodes, failedNodes := [localId], [];
      for i := 0 to |results|
        invariant tempIds == IdsOf(results[..i]) && successCount == 1 + |Oks(results[..i])|
        invariant successfulNodes == [localId] + Oks(results[..i]) && failedNodes == Fails(results[..i])
      {
        assert results[..i + 1][..i] == results[..i];
        var (n, result) := results[i];
        match result {
          case Some(id) =>
            tempIds := tempIds[n := id];
            successfulNodes := successfulNodes + [n];
            successCount := successCount + 1;
          case None =>
            failedNodes := failedNodes + [n];
        }
      }
      assert results[..|results|] == results;
      phase := PreparePhase(tempIds, successCount, successfulNodes, failedNodes);
    }

    method CommitAll(tempIds: map<nat, string>, replicas: Replicas, env: Env) returns (committed: Replicas)
      requires env.Keys == replicas.Keys && tempIds.Keys <= replicas.Keys
      ensures committed == AfterCommit(replicas, tempIds, env)
    {
      committed := replicas;
      var left := tempIds.Keys;
      while left != {}
        invariant left <= tempIds.Keys && committed.Keys == replicas.Keys
        invariant forall n :: n in replicas ==>
                    committed[n] == if n in tempIds && n !in left then AfterCommit(replicas, tempIds, env)[n] else replicas[n]
        decreases |left|
      {
        var n :| n in left;
        if env[n].commitReached {
          committed := committed[n := Commit(committed[n], tempIds[n], env[n].cio).0];
        }
        left := left - {n};
      }
      SameReplicas(committed, AfterCommit(replicas, tempIds, env));
    }

    method AbortAll(tempIds: map<nat, string>, replicas: Replicas, env: Env) returns (aborted: Replicas)
      requires env.Keys == replicas.Keys && tempIds.Keys <= replicas.Keys
      ensures aborted == AfterAbort(replicas, tempIds, env)
    {
      aborted := replicas;
      var left := tempIds.Keys;
      while left != {}
        invariant left <= tempIds.Keys && aborted.Keys == replicas.Keys
        invariant forall n :: n in replicas ==>
                    aborted[n] == if n in tempIds && n !in left then AfterAbort(replicas, tempIds, env)[n] else replicas[n]
        decreases |left|
      {
        var n :| n in left;
        if env[n].abortReached {
          aborted := aborted[n := Abort(aborted[n], tempIds[n])];
        }
        left := left - {n};
      }
      SameReplicas(aborted, AfterAbort(replicas, tempIds, env));
    }

    /** Quorum check, local write, then commit or abort on the prepared replicas. */
    method Complete2pcWrite(phase: PreparePhase, prepared: Replicas, local: Store, own: Own, env: Env)
      returns (settled: Replicas, local': Store, result: WriteResult)
      requires env.Keys == prepared.Keys && phase.tempIds.Keys <= prepared.Keys
      ensures (settled, local', result) == Complete(config, phase, prepared, local, own, env)
    {
      if phase.successCount < config.writeQuorum {
        settled := AbortAll(phase.tempIds, prepared, env);
        local' := DropOf(local, Local(own.handle));
        result := Finished(phase.successCount, |phase.failedNodes|, false, phase.successfulNodes, phase.failedNodes);
        return;
      }
      var (written, ok) := CommitOf(local, Local(own.handle), own.cio);
      local' := written;
      if !ok {
        settled := AbortAll(phase.tempIds, prepared, env);
        result := LocalWriteFailed;
        return;
      }
      settled := CommitAll(phase.tempIds, prepared, env);
      result := Finished(phase.successCount, |phase.failedNodes|, true, phase.successfulNodes, phase.failedNodes);
    }

    /** Both replicated writes; they differ in the routes of the prepares. */
    method ReplicateWrite(key: string, data: Bytes, replicas: Replicas, local: Store,
                          order: seq<nat>, healthy: set<nat>, env: Env, own: Own)
      returns (nodes: seq<nat>, settled: Replicas, local': Store, result: WriteResult)
      requires Valid() && GoodEnv(env, replicas, data)
      requires Distinct(order) && (forall n :: n in order <==> n in clients) && clients.Keys <= replicas.Keys
      modifies this`requestCounter
      ensures requestCounter == old(requestCounter) + 1
      ensures Distinct(nodes) && localId !in nodes && |nodes| + 1 <= Max(1, config.replicationFactor)
      ensures forall n :: n in nodes ==> n in replicas && n in healthy
      ensures (settled, local', result)
              == TwoPhaseWrite(config, localId, replicas, local, nodes, Write(key, data, old(requestCounter)), env, own)
    {
      var wr := Write(key, data, requestCounter);
      requestCounter := requestCounter + 1;
      nodes := SelectReplicaNodes(config.replicationFactor, order, healthy);
      ConnectedMembers(nodes, clients);
      var prepared, results := PrepareAll(nodes, replicas, wr, env);
      var phase := ProcessPrepareResults(results);
      IdsAreAnswers(replicas, nodes, wr, env);
      settled, local', result := Complete2pcWrite(phase, prepared, local, own, env);
    }
  }

  // ---------- what the tallies count ----------

  lemma {:induction false} OksAndFailsSplit(reports: seq<(nat, Option<string>)>)
    ensures |Oks(reports)| + |Fails(reports)| == |reports|
  {
    if reports != [] {
      var k := |reports| - 1;
      OksAndFailsSplit(reports[..k]);
      assert reports[k].1.Some? || reports[k].1.None?;
    }
  }

  ghost predicate Asked(reports: seq<(nat, Option<string>)>, n: nat) {
    exists i :: 0 <= i < |reports| && reports[i].0 == n
  }

  lemma AskedGrows(reports: seq<(nat, Option<string>)>)
    requires reports != []
    ensures forall n :: Asked(reports, n) <==> Asked(reports[..|reports| - 1], n) || n == reports[|reports| - 1].0
  {
    var k := |reports| - 1;
    forall n
      ensures Asked(reports, n) <==> Asked(reports[..k], n) || n == reports[k].0
    {
      if Asked(reports[..k], n) {
        var i :| 0 <= i < k && reports[..k][i].0 == n;
        assert reports[i].0 == n;
      }
      if Asked(reports, n) {
        var i :| 0 <= i < |reports| && reports[i].0 == n;
        assert i < k ==> reports[..k][i].0 == n;
      }
    }
  }

  lemma {:induction false} TalliedIsAsked(reports: seq<(nat, Option<string>)>)
    ensures forall n :: n in Oks(reports) <==> n in IdsOf(reports)
    ensures forall n :: n in Oks(reports) || n in Fails(reports) <==> Asked(reports, n)
  {
    if reports != [] {
      TalliedIsAsked(reports[..|reports| - 1]);
      AskedGrows(reports);
    }
  }

  lemma OneMore(nodes: seq<nat>, n: nat)
    requires Distinct(nodes) && n !in nodes
    ensures Distinct(nodes + [n])
    ensures forall x :: x in nodes + [n] <==> x in nodes || x == n
  {
  }

  /** Successes and failures are two disjoint lists without repetition; the temp ids are
      exactly those of the successes. */
  lemma {:induction false} TalliesAreExact(reports: seq<(nat, Option<string>)>, localId: nat)
    requires OncePerNode(reports, localId)
    ensures Distinct(Oks(reports)) && Distinct(Fails(reports))
    ensures forall n :: n in Oks(reports) <==> n in IdsOf(reports)
    ensures forall n :: n in Oks(reports) || n in Fails(reports) <==> Asked(reports, n)
    ensures forall n :: !(n in Oks(reports) && n in Fails(reports))
    ensures |Oks(reports)| == |IdsOf(reports)|
    ensures localId !in Oks(reports) && localId !in Fails(reports)
  {
    if reports != [] {
      var k := |reports| - 1;
      TalliesAreExact(reports[..k], localId);
      assert !Asked(reports[..k], reports[k].0);
      OneMore(Oks(reports[..k]), reports[k].0);
      OneMore(Fails(reports[..k]), reports[k].0);
    }
    TalliedIsAsked(reports);
  }

  lemma {:induction false} ReportsAreOnce(replicas: Replicas, nodes: seq<nat>, wr: Write, env: Env, localId: nat)
    requires env.Keys == replicas.Keys && Distinct(nodes) && localId !in nodes
    ensures OncePerNode(Reports(replicas, nodes, wr, env), localId)
    ensures |Reports(replicas, nodes, wr, env)| <= |nodes|
    ensures forall n :: Asked(Reports(replicas, nodes, wr, env), n) ==> n in nodes
  {
    if nodes != [] {
      var k := |nodes| - 1;
      ReportsAreOnce(replicas, nodes[..k], wr, env, localId);
      var before, after := Reports(replicas, nodes[..k], wr, env), Reports(replicas, nodes, wr, env);
      assert nodes[k] !in nodes[..k];
      assert !Asked(before, nodes[k]);
      if after != before {
        assert after[..|after| - 1] == before;
        AskedGrows(after);
      }
    }
  }

  /** A temp id in the tally is the answer of that replica. */
  lemma {:induction false} IdsAreAnswers(replicas: Replicas, nodes: seq<nat>, wr: Write, env: Env)
    requires env.Keys == replicas.Keys
    ensures var ids := IdsOf(Reports(replicas, nodes, wr, env));
            forall n :: n in ids ==> n in nodes && n in replicas && Learned(replicas[n], wr, env[n]) == Some(ids[n])
  {
    if nodes != [] {
      var k := |nodes| - 1;
      IdsAreAnswers(replicas, nodes[..k], wr, env);
      var before, after := Reports(replicas, nodes[..k], wr, env), Reports(replicas, nodes, wr, env);
      if after != before {
        assert after[..|after| - 1] == before;
      }
    }
  }

  // ---------- which prepares are counted ----------

  /** What it takes for a replica's prepare to succeed and be known to have: the stream got there,
      carried the whole nonempty file, was written and answered; or the retry loop came to an
      answered attempt. */
  ghost predicate Succeeds(wr: Write, e: NodeEnv) {
    && ValidObjectKey(wr.key)
    && match e.route
       case Streamed(reached, answered, pieces, io) =>
         reached && answered && io.WriteOk? && Flatten(pieces) == wr.data && wr.data != []
       case Unary(retries, attempts) => exists i: nat :: AnsweredAt(attempts, retries, i)
  }

  /** The coordinator learns a temp id from a replica if and only if all that went well, whatever
      the replica held; and it is the id made of request and key. */
  lemma LearnedExactly(s: Store, wr: Write, e: NodeEnv)
    requires GoodRoute(e.route, wr.data)
    ensures Learned(s, wr, e).Some? <==> Succeeds(wr, e)
    ensures Learned(s, wr, e).Some? ==> Learned(s, wr, e).value == TempId(wr.requestId, wr.key)
  {
    match e.route
    case Streamed(reached, answered, pieces, io) =>
      ChunksCarry(wr.key, wr.requestId, pieces, Sha256(wr.data));
      if pieces != [] {
        assert Flatten(pieces) == pieces[0] + Flatten(pieces[1..]);
      }
    case Unary(retries, attempts) =>
      AnsweredExactly(s, wr.requestId, wr.key, wr.data, retries, attempts, e.now);
  }

  /** The chosen nodes whose worker lived and whose prepare succeeded. */
  ghost function Good(replicas: Replicas, nodes: seq<nat>, wr: Write, env: Env): set<nat>
    requires env.Keys == replicas.Keys
  {
    set n | n in nodes && n in replicas && env[n].joined && Succeeds(wr, env[n])
  }

  /** The chosen nodes whose worker lived and whose prepare did not succeed. */
  ghost function Bad(replicas: Replicas, nodes: seq<nat>, wr: Write, env: Env): set<nat>
    requires env.Keys == replicas.Keys
  {
    set n | n in nodes && n in replicas && env[n].joined && !Succeeds(wr, env[n])
  }

  /** How the tallies grow by the last node asked. */
  lemma TallyLast(replicas: Replicas, nodes: seq<nat>, wr: Write, env: Env)
    requires env.Keys == replicas.Keys && nodes != []
    ensures var k := |nodes| - 1; var x := nodes[k];
            var before, after := Reports(replicas, nodes[..k], wr, env), Reports(replicas, nodes, wr, env);
            if x in replicas && env[x].joined then
              var learned := Learned(replicas[x], wr, env[x]);
              && Oks(after) == Oks(before) + (if learned.Some? then [x] else [])
              && Fails(after) == Fails(before) + (if learned.None? then [x] else [])
              && IdsOf(after) == if learned.Some? then IdsOf(before)[x := learned.value] else IdsOf(before)
            else after == before
  {
    var k := |nodes| - 1;
    var before, after := Reports(replicas, nodes[..k], wr, env), Reports(replicas, nodes, wr, env);
    if nodes[k] in replicas && env[nodes[k]].joined {
      assert after[..|after| - 1] == before;
    }
  }

  /** How the good and the bad nodes grow. */
  lemma GoodLast(replicas: Replicas, nodes: seq<nat>, wr: Write, env: Env, n: nat)
    requires env.Keys == replicas.Keys && nodes != []
    ensures var k := |nodes| - 1; var x := nodes[k];
            && (n in Good(replicas, nodes, wr, env) <==>
                  n in Good(replicas, nodes[..k], wr, env) || (n == x && x in replicas && env[x].joined && Succeeds(wr, env[x])))
            && (n in Bad(replicas, nodes, wr, env) <==>
                  n in Bad(replicas, nodes[..k], wr, env) || (n == x && x in replicas && env[x].joined && !Succeeds(wr, env[x])))
  {
    var k := |nodes| - 1;
    assert nodes == nodes[..k] + [nodes[k]];
  }

  lemma {:induction false} CountedExactly(replicas: Replicas, nodes: seq<nat>, wr: Write, env: Env, n: nat)
    requires GoodEnv(env, replicas, wr.data)
    ensures n in IdsOf(Reports(replicas, nodes, wr, env)) <==> n in Good(replicas, nodes, wr, env)
    ensures n in Oks(Reports(replicas, nodes, wr, env)) <==> n in Good(replicas, nodes, wr, env)
    ensures n in Fails(Reports(replicas, nodes, wr, env)) <==> n in Bad(replicas, nodes, wr, env)
    ensures n in Good(replicas, nodes, wr, env) ==>
              IdsOf(Reports(replicas, nodes, wr, env))[n] == TempId(wr.requestId, wr.key)
  {
    if nodes != [] {
      var k := |nodes| - 1;
      CountedExactly(replicas, nodes[..k], wr, env, n);
      TallyLast(replicas, nodes, wr, env);
      GoodLast(replicas, nodes, wr, env, n);
      if nodes[k] in replicas {
        LearnedExactly(replicas[nodes[k]], wr, env[nodes[k]]);
      }
    }
  }

  /** The answer of a write, by what happened on the way: it counts the local node and exactly the
      prepares that succeeded, and reaches quorum exactly if these are enough. */
  lemma AnswerExactly(config: QuorumConfig, localId: nat, replicas: Replicas, local: Store, nodes: seq<nat>,
                      wr: Write, env: Env, own: Own)
    requires GoodEnv(env, replicas, wr.data) && Distinct(nodes) && localId !in nodes && OwnWrite(local, own.handle, wr)
    ensures var r := TwoPhaseWrite(config, localId, replicas, local, nodes, wr, env, own).2;
            var good, bad := Good(replicas, nodes, wr, env), Bad(replicas, nodes, wr, env);
            && (r.Finished? <==> 1 + |good| < config.writeQuorum || own.cio.CommitOk?)
            && (r.Finished? ==>
                  && (r.quorumAchieved <==> 1 + |good| >= config.writeQuorum)
                  && r.successCount == 1 + |good| && r.failureCount == |bad|
                  && (forall n :: n in r.successfulNodes <==> n == localId || n in good)
                  && (forall n :: n in r.failedNodes <==> n in bad)
                  && r.successfulNodes[0] == localId)
  {
    var reports := Reports(replicas, nodes, wr, env);
    var good, bad := Good(replicas, nodes, wr, env), Bad(replicas, nodes, wr, env);
    forall n
      ensures n in Oks(reports) <==> n in good
      ensures n in Fails(reports) <==> n in bad
      ensures n in IdsOf(reports) <==> n in good
    {
      CountedExactly(replicas, nodes, wr, env, n);
    }
    ReportsAreOnce(replicas, nodes, wr, env, localId);
    TalliesAreExact(reports, localId);
    assert IdsOf(reports).Keys == good;
    SizeOfDistinct(Fails(reports), bad);
    LocalWriteExactly(config, localId, replicas, local, nodes, wr, env, own);
  }

  lemma {:induction false} SizeOfDistinct(nodes: seq<nat>, members: set<nat>)
    requires Distinct(nodes) && forall n :: n in nodes <==> n in members
    ensures |nodes| == |members|
  {
    if nodes == [] {
      assert members == {};
    } else {
      var k := |nodes| - 1;
      var rest := members - {nodes[k]};
      assert nodes == nodes[..k] + [nodes[k]];
      forall n
        ensures n in nodes[..k] <==> n in rest
      {
      }
      SizeOfDistinct(nodes[..k], rest);
      assert nodes[k] in members;
    }
  }

  /** Enough prepares that succeed, and a local commit that works, make a quorum write. */
  lemma EnoughIsQuorum(config: QuorumConfig, localId: nat, replicas: Replicas, local: Store, nodes: seq<nat>,
                       wr: Write, env: Env, own: Own, enough: set<nat>)
    requires GoodEnv(env, replicas, wr.data) && Distinct(nodes) && localId !in nodes && OwnWrite(local, own.handle, wr)
    requires forall n :: n in enough ==> n in nodes && n in replicas && env[n].joined && Succeeds(wr, env[n])
    requires 1 + |enough| >= config.writeQuorum && own.cio.CommitOk?
    ensures var r := TwoPhaseWrite(config, localId, replicas, local, nodes, wr, env, own).2;
            r.Finished? && r.quorumAchieved && r.successCount >= 1 + |enough|
  {
    AnswerExactly(config, localId, replicas, local, nodes, wr, env, own);
    var good := Good(replicas, nodes, wr, env);
    assert good == enough + (good - enough);
  }

  // ---------- theorems about one write ----------

  /** The counts in the answer.  With at most one fewer chosen node than the replication
      factor: successes are the local node and the prepared ones, each once, and successes
      plus failures stay within the replication factor. */
  lemma CountsAreExact(config: QuorumConfig, localId: nat, replicas: Replicas, local: Store, nodes: seq<nat>,
                       wr: Write, env: Env, own: Own)
    requires env.Keys == replicas.Keys && Distinct(nodes) && localId !in nodes && |nodes| + 1 <= Max(1, config.replicationFactor)
    ensures var r := TwoPhaseWrite(config, localId, replicas, local, nodes, wr, env, own).2;
            var ids := IdsOf(Reports(replicas, nodes, wr, env));
            r.Finished? ==>
              && r.successCount == |r.successfulNodes| == 1 + |ids|
              && r.failureCount == |r.failedNodes|
              && r.successCount + r.failureCount <= Max(1, config.replicationFactor)
              && Distinct(r.successfulNodes) && Distinct(r.failedNodes)
              && (forall n :: n in r.successfulNodes <==> n == localId || n in ids)
              && (forall n :: n in r.successfulNodes ==> n !in r.failedNodes)
              && (r.quorumAchieved <==> r.successCount >= config.writeQuorum)
  {
    ReportsAreOnce(replicas, nodes, wr, env, localId);
    PhaseIsExact(localId, Reports(replicas, nodes, wr, env));
  }

  lemma PhaseIsExact(localId: nat, reports: seq<(nat, Option<string>)>)
    requires OncePerNode(reports, localId)
    ensures var p := PhaseOf(localId, reports);
            && p.successCount == |p.successfulNodes| == 1 + |p.tempIds|
            && p.successCount + |p.failedNodes| == 1 + |reports|
            && Distinct(p.successfulNodes) && Distinct(p.failedNodes)
            && (forall n :: n in p.successfulNodes <==> n == localId || n in p.tempIds)
            && (forall n :: n in p.successfulNodes ==> n !in p.failedNodes)
  {
    TalliesAreExact(reports, localId);
    OksAndFailsSplit(reports);
    var oks := Oks(reports);
    assert forall i :: 0 <= i < |oks| ==> oks[i] in oks;
  }

  lemma PrepareHidesNothing(s: Store, wr: Write, e: NodeEnv)
    ensures Prepared(s, wr, e).0.objects == s.objects
  {
    match e.route
    case Streamed(reached, answered, pieces, io) =>
      VisibleChanges(s, StreamOp(Chunks(wr.key, wr.requestId, pieces, Sha256(wr.data)), io, e.now));
    case Unary(retries, attempts) =>
      RetryHidesNothing(s, wr.requestId, wr.key, wr.data, retries, attempts, e.now);
  }

  /** A write that fails, below quorum or because the local commit failed, changes the visible
      bytes of no replica: whatever the replicas held before and whatever the network did. */
  lemma NoQuorumNoChange(config: QuorumConfig, localId: nat, replicas: Replicas, local: Store, nodes: seq<nat>,
                         wr: Write, env: Env, own: Own)
    requires env.Keys == replicas.Keys
    ensures var (settled, local', r) := TwoPhaseWrite(config, localId, replicas, local, nodes, wr, env, own);
            r.LocalWriteFailed? || !r.quorumAchieved ==>
              && settled.Keys == replicas.Keys
              && forall n :: n in replicas ==> settled[n].objects == replicas[n].objects
  {
    forall n | n in replicas
      ensures AfterPrepare(replicas, nodes, wr, env)[n].objects == replicas[n].objects
    {
      PrepareHidesNothing(replicas[n], wr, env[n]);
    }
  }

  /** Aborting a prepare that was delivered once gives back the whole store it found. */
  lemma AbortUndoesPrepare(s: Store, wr: Write, e: NodeEnv, id: string)
    requires Coherent(s) && !Claimed(s, wr.key) && GoodRoute(e.route, wr.data) && NotRepeated(s, wr, e)
    requires Learned(s, wr, e) == Some(id)
    ensures Abort(Prepared(s, wr, e).0, id) == s
  {
    LearnedExactly(s, wr, e);
    if e.route.Streamed? {
      StreamIsPrepare(s, wr.key, wr.requestId, wr.data, e.route.pieces, e.route.io, e.now);
      UndoneByAbort(s, wr, e.route.io, e.now);
    } else {
      OnceIsPrepare(s, wr.requestId, wr.key, wr.data, e.route.retries, e.route.attempts, e.now);
      AnswerMeansDelivered(s, wr.requestId, wr.key, wr.data, e.route.retries, e.route.attempts, e.now);
      UndoneByAbort(s, wr, WriteOk, e.now);
    }
  }

  lemma UndoneByAbort(s: Store, wr: Write, io: WriteIo, now: nat)
    requires Coherent(s) && !Claimed(s, wr.key)
    ensures var (s', answer) := Prepare(s, wr.requestId, wr.key, wr.data, Some(Sha256(wr.data)), io, now);
            answer.Some? ==> Abort(s', answer.value) == s
  {
    assert Named(TempId(wr.requestId, wr.key), wr.key);
    FreshId(s, TempId(wr.requestId, wr.key), wr.key);
    assert s.temp[wr.key := TempFile(wr.data, now)] - {wr.key} == s.temp;
    var o := Remote(TempId(wr.requestId, wr.key));
    assert s.pending[o := Pending(wr.key, now)] - {o} == s.pending;
  }

  /** A failed write leaves nothing behind on a replica that its abort reaches: its store is as it
      was, temp file and pending prepare included. */
  lemma FailedWriteLeavesNothing(config: QuorumConfig, localId: nat, replicas: Replicas, local: Store, nodes: seq<nat>,
                                 wr: Write, env: Env, own: Own, n: nat)
    requires GoodEnv(env, replicas, wr.data) && n in Good(replicas, nodes, wr, env) && env[n].abortReached
    requires Coherent(replicas[n]) && !Claimed(replicas[n], wr.key) && NotRepeated(replicas[n], wr, env[n])
    ensures var (settled, local', r) := TwoPhaseWrite(config, localId, replicas, local, nodes, wr, env, own);
            r.LocalWriteFailed? || !r.quorumAchieved ==> n in settled && settled[n] == replicas[n]
  {
    CountedExactly(replicas, nodes, wr, env, n);
    IdsAreAnswers(replicas, nodes, wr, env);
    AbortUndoesPrepare(replicas[n], wr, env[n], IdsOf(Reports(replicas, nodes, wr, env))[n]);
  }

  /** The node's own temp object holds what is being written. */
  ghost predicate OwnWrite(local: Store, handle: nat, wr: Write) {
    && Local(handle) in local.pending && local.pending[Local(handle)].key == wr.key
    && wr.key in local.temp && local.temp[wr.key].data == wr.data
  }

  ghost predicate Quorum(config: QuorumConfig, replicas: Replicas, nodes: seq<nat>, wr: Write, env: Env)
    requires env.Keys == replicas.Keys
  {
    1 + |IdsOf(Reports(replicas, nodes, wr, env))| >= config.writeQuorum
  }

  lemma QuorumIsCounted(config: QuorumConfig, localId: nat, replicas: Replicas, nodes: seq<nat>, wr: Write, env: Env)
    requires env.Keys == replicas.Keys && Distinct(nodes) && localId !in nodes
    ensures Quorum(config, replicas, nodes, wr, env)
            <==> PhaseOf(localId, Reports(replicas, nodes, wr, env)).successCount >= config.writeQuorum
  {
    ReportsAreOnce(replicas, nodes, wr, env, localId);
    TalliesAreExact(Reports(replicas, nodes, wr, env), localId);
  }

  /** The local node shows the new bytes exactly with a quorum of prepares and a rename that
      worked; the answer is a failed local write exactly with a quorum and a commit that did not
      go through to its end; and in no case a temp file of the write stays behind. */
  lemma LocalWriteExactly(config: QuorumConfig, localId: nat, replicas: Replicas, local: Store, nodes: seq<nat>,
                          wr: Write, env: Env, own: Own)
    requires env.Keys == replicas.Keys && Distinct(nodes) && localId !in nodes && OwnWrite(local, own.handle, wr)
    ensures var (settled, local', r) := TwoPhaseWrite(config, localId, replicas, local, nodes, wr, env, own);
            var quorum := Quorum(config, replicas, nodes, wr, env);
            && local'.objects == (if quorum && !own.cio.RenameFails? then local.objects[wr.key := wr.data] else local.objects)
            && (r.LocalWriteFailed? <==> quorum && !own.cio.CommitOk?)
            && wr.key !in local'.temp && Local(own.handle) !in local'.pending
  {
    QuorumIsCounted(config, localId, replicas, nodes, wr, env);
  }

  predicate Shows(objects: map<string, Bytes>, wr: Write) {
    wr.key in objects && objects[wr.key] == wr.data
  }

  /** A failed write changes nothing visible anywhere, if and only if it is not the directory sync
      after the local rename that failed, or the bytes were there before. */
  lemma FailedWriteExactly(config: QuorumConfig, localId: nat, replicas: Replicas, local: Store, nodes: seq<nat>,
                           wr: Write, env: Env, own: Own)
    requires env.Keys == replicas.Keys && Distinct(nodes) && localId !in nodes && OwnWrite(local, own.handle, wr)
    ensures var (settled, local', r) := TwoPhaseWrite(config, localId, replicas, local, nodes, wr, env, own);
            r.LocalWriteFailed? || !r.quorumAchieved ==>
              (local'.objects == local.objects && (forall n :: n in replicas ==> n in settled && settled[n].objects == replicas[n].objects)
               <==> !(Quorum(config, replicas, nodes, wr, env) && own.cio.SyncFails?) || Shows(local.objects, wr))
  {
    LocalWriteExactly(config, localId, replicas, local, nodes, wr, env, own);
    NoQuorumNoChange(config, localId, replicas, local, nodes, wr, env, own);
    SameObjects(local.objects, wr);
  }

  lemma SameObjects(objects: map<string, Bytes>, wr: Write)
    ensures objects[wr.key := wr.data] == objects <==> Shows(objects, wr)
  {
    if objects[wr.key := wr.data] == objects {
      assert wr.key in objects[wr.key := wr.data];
    }
  }

  /** Such a write happens, already on a single node, for every key and content: it is answered as
      failed and its bytes are there. */
  lemma FailedWriteIsVisible(key: string, data: Bytes, now: nat)
    requires ValidObjectKey(key)
    ensures var local := Hold(EMPTY_STORE, 0, key, data, WriteOk, now).0;
            var wr := Write(key, data, 1);
            var (settled, local', r) := TwoPhaseWrite(QuorumConfig(1, 1, 1), 0, map[], local, [], wr, map[], Own(0, SyncFails));
            OwnWrite(local, 0, wr) && r == LocalWriteFailed && local'.objects == map[key := data]
  {
  }

  /** The local node is written only once enough replicas are prepared. */
  lemma LocalWriteNeedsQuorum(config: QuorumConfig, localId: nat, replicas: Replicas, local: Store, nodes: seq<nat>,
                              wr: Write, env: Env, own: Own)
    requires env.Keys == replicas.Keys && Distinct(nodes) && localId !in nodes
    ensures TwoPhaseWrite(config, localId, replicas, local, nodes, wr, env, own).1.objects != local.objects
            ==> Quorum(config, replicas, nodes, wr, env)
  {
    QuorumIsCounted(config, localId, replicas, nodes, wr, env);
  }

  /** The replica published the bytes: it answered, its prepare was delivered once, and the commit
      reached it and renamed. */
  predicate Publishes(ids: map<nat, string>, replicas: Replicas, wr: Write, env: Env, n: nat) {
    n in ids && n in env && n in replicas && NotRepeated(replicas[n], wr, env[n]) && env[n].commitReached && !env[n].cio.RenameFails?
  }

  /** The prepare was delivered once: streamed, or no attempt before the answered one got there. */
  ghost predicate DeliveredOnce(e: NodeEnv) {
    e.route.Unary? ==>
      exists i: nat {:trigger AnsweredAt(e.route.attempts, e.route.retries, i)} ::
        AnsweredAt(e.route.attempts, e.route.retries, i) && NoneArrivedBefore(e.route.attempts, i)
  }

  /** Exactly the nodes on which everything went well publish: prepared, known to be, delivered
      once, and reached by a commit whose rename worked. */
  lemma PublishesExactly(replicas: Replicas, nodes: seq<nat>, wr: Write, env: Env, n: nat)
    requires GoodEnv(env, replicas, wr.data)
    ensures Publishes(IdsOf(Reports(replicas, nodes, wr, env)), replicas, wr, env, n)
            <==> n in Good(replicas, nodes, wr, env) && DeliveredOnce(env[n]) && env[n].commitReached && !env[n].cio.RenameFails?
  {
    CountedExactly(replicas, nodes, wr, env, n);
    if n in Good(replicas, nodes, wr, env) && env[n].route.Unary? {
      var r := env[n].route;
      AnsweredExactly(replicas[n], wr.requestId, wr.key, wr.data, r.retries, r.attempts, env[n].now);
      AnswerWasDelivered(replicas[n], wr.requestId, wr.key, wr.data, r.retries, r.attempts, env[n].now);
      var i: nat :| AnsweredAt(r.attempts, r.retries, i);
    }
  }

  lemma PreparedNodePublishes(s: Store, wr: Write, e: NodeEnv, id: string)
    requires Coherent(s) && !Claimed(s, wr.key) && GoodRoute(e.route, wr.data) && wr.key != []
    requires Learned(s, wr, e) == Some(id)
    ensures Commit(Prepared(s, wr, e).0, id, e.cio).0.objects
            == if e.cio.RenameFails? || !NotRepeated(s, wr, e) then s.objects else s.objects[wr.key := wr.data]
    ensures id == TempId(wr.requestId, wr.key)
  {
    match e.route
    case Streamed(reached, answered, pieces, io) => StreamedNodePublishes(s, wr, e, id);
    case Unary(retries, attempts) =>
      if !ValidObjectKey(wr.key) {
        InvalidKeyNoAnswer(s, wr.requestId, wr.key, wr.data, retries, attempts, e.now);
      } else {
        RetriedPrepareCommits(s, wr.requestId, wr.key, wr.data, retries, attempts, e.now, e.cio);
      }
  }

  lemma StreamedNodePublishes(s: Store, wr: Write, e: NodeEnv, id: string)
    requires Coherent(s) && !Claimed(s, wr.key) && GoodRoute(e.route, wr.data) && wr.key != []
    requires e.route.Streamed? && Learned(s, wr, e) == Some(id)
    ensures Commit(Prepared(s, wr, e).0, id, e.cio).0.objects
            == if e.cio.RenameFails? then s.objects else s.objects[wr.key := wr.data]
    ensures wr.data != [] && id == TempId(wr.requestId, wr.key)
  {
    if Flatten(e.route.pieces) != wr.data {
      CutReadIsRefused(s, wr.key, wr.requestId, wr.data, e.route.pieces, e.route.io, e.now);
    } else {
      StreamIsPrepare(s, wr.key, wr.requestId, wr.data, e.route.pieces, e.route.io, e.now);
      assert Named(TempId(wr.requestId, wr.key), wr.key);
      FreshId(s, TempId(wr.requestId, wr.key), wr.key);
    }
  }

  /** With quorum, the visible bytes afterwards are exactly: the new bytes on the local
      node and on each prepared replica whose prepare was delivered once and whose commit arrived
      and renamed; the old bytes everywhere else.  The answer counts prepares, so it does not
      promise more: a counted success may be one that can never be committed. */
  lemma QuorumPublishes(config: QuorumConfig, localId: nat, replicas: Replicas, local: Store, nodes: seq<nat>,
                        wr: Write, env: Env, own: Own, n: nat)
    requires GoodEnv(env, replicas, wr.data) && wr.key != [] && n in replicas && OwnWrite(local, own.handle, wr)
    requires Coherent(replicas[n]) && !Claimed(replicas[n], wr.key)
    ensures var (settled, local', r) := TwoPhaseWrite(config, localId, replicas, local, nodes, wr, env, own);
            var ids := IdsOf(Reports(replicas, nodes, wr, env));
            r.Finished? && r.quorumAchieved ==>
              && local'.objects == local.objects[wr.key := wr.data]
              && settled[n].objects
                 == if Publishes(ids, replicas, wr, env, n) then replicas[n].objects[wr.key := wr.data] else replicas[n].objects
  {
    var ids := IdsOf(Reports(replicas, nodes, wr, env));
    IdsAreAnswers(replicas, nodes, wr, env);
    PrepareHidesNothing(replicas[n], wr, env[n]);
    if n in ids {
      PreparedNodePublishes(replicas[n], wr, env[n], ids[n]);
    }
  }

  /** How many copies a quorum write really leaves: one, plus the commits that arrived. */
  lemma CopiesAfterQuorum(config: QuorumConfig, localId: nat, replicas: Replicas, local: Store, nodes: seq<nat>,
                          wr: Write, env: Env, own: Own)
    requires GoodEnv(env, replicas, wr.data) && wr.key != [] && OwnWrite(local, own.handle, wr)
    requires forall n :: n in replicas ==>
               Coherent(replicas[n]) && !Claimed(replicas[n], wr.key) && !HasCopy(replicas[n], wr)
    ensures var (settled, local', r) := TwoPhaseWrite(config, localId, replicas, local, nodes, wr, env, own);
            var ids := IdsOf(Reports(replicas, nodes, wr, env));
            r.Finished? && r.quorumAchieved ==>
              WithCopy(settled, wr) == set n | n in ids && Publishes(ids, replicas, wr, env, n)
  {
    var (settled, local', r) := TwoPhaseWrite(config, localId, replicas, local, nodes, wr, env, own);
    var ids := IdsOf(Reports(replicas, nodes, wr, env));
    if r.Finished? && r.quorumAchieved {
      forall n
        ensures n in WithCopy(settled, wr) <==> n in ids && Publishes(ids, replicas, wr, env, n)
      {
        CopyOnNode(config, localId, replicas, local, nodes, wr, env, own, n);
      }
    }
  }

  function WithCopy(replicas: Replicas, wr: Write): set<nat> {
    set n | n in replicas && HasCopy(replicas[n], wr)
  }

  predicate HasCopy(s: Store, wr: Write) {
    wr.key in s.objects && s.objects[wr.key] == wr.data
  }

  lemma CopyOnNode(config: QuorumConfig, localId: nat, replicas: Replicas, local: Store, nodes: seq<nat>,
                   wr: Write, env: Env, own: Own, n: nat)
    requires GoodEnv(env, replicas, wr.data) && wr.key != [] && OwnWrite(local, own.handle, wr)
    requires n in replicas ==> Coherent(replicas[n]) && !Claimed(replicas[n], wr.key) && !HasCopy(replicas[n], wr)
    ensures var (settled, local', r) := TwoPhaseWrite(config, localId, replicas, local, nodes, wr, env, own);
            var ids := IdsOf(Reports(replicas, nodes, wr, env));
            r.Finished? && r.quorumAchieved ==>
              (n in settled && HasCopy(settled[n], wr) <==> Publishes(ids, replicas, wr, env, n))
  {
    if n in replicas {
      QuorumPublishes(config, localId, replicas, local, nodes, wr, env, own, n);
    }
  }

  /** Every node that was in order before the write is in order after it, the local one included,
      unless its prepare was delivered more than once. */
  lemma WriteKeepsReplicasCoherent(config: QuorumConfig, localId: nat, replicas: Replicas, local: Store, nodes: seq<nat>,
                                   wr: Write, env: Env, own: Own, n: nat)
    requires env.Keys == replicas.Keys && n in replicas && Coherent(replicas[n]) && !Claimed(replicas[n], wr.key)
    requires wr.key != [] && NotRepeated(replicas[n], wr, env[n])
    ensures Coherent(TwoPhaseWrite(config, localId, replicas, local, nodes, wr, env, own).0[n])
    ensures Coherent(local) ==> Coherent(TwoPhaseWrite(config, localId, replicas, local, nodes, wr, env, own).1)
  {
    PrepareKeepsCoherent(replicas[n], wr, env[n]);
    var s := AfterPrepare(replicas, nodes, wr, env)[n];
    SettledHow(config, localId, replicas, local, nodes, wr, env, own, n);
    EndsCoherent(s, TwoPhaseWrite(config, localId, replicas, local, nodes, wr, env, own).0[n]);
    if Coherent(local) {
      EndsCoherent(local, TwoPhaseWrite(config, localId, replicas, local, nodes, wr, env, own).1);
    }
  }

  /** One temp object was committed or dropped, or nothing happened. */
  ghost predicate Ends(s: Store, s': Store) {
    s' == s || (exists o, cio :: s' == CommitOf(s, o, cio).0) || (exists o :: s' == DropOf(s, o))
  }

  lemma EndsCoherent(s: Store, s': Store)
    requires Coherent(s) && Ends(s, s')
    ensures Coherent(s')
  {
    if o, cio :| s' == CommitOf(s, o, cio).0 {
      CommitRefines(s, o, cio);
    } else if o :| s' == DropOf(s, o) {
      AbortRefines(s, o);
    }
  }

  lemma SettledHow(config: QuorumConfig, localId: nat, replicas: Replicas, local: Store, nodes: seq<nat>,
                   wr: Write, env: Env, own: Own, n: nat)
    requires env.Keys == replicas.Keys && n in replicas
    ensures var (settled, local', r) := TwoPhaseWrite(config, localId, replicas, local, nodes, wr, env, own);
            n in settled && Ends(AfterPrepare(replicas, nodes, wr, env)[n], settled[n]) && Ends(local, local')
  {
    var s, ids := AfterPrepare(replicas, nodes, wr, env)[n], IdsOf(Reports(replicas, nodes, wr, env));
    assert n in ids ==> Ends(s, CommitOf(s, Remote(ids[n]), env[n].cio).0) && Ends(s, DropOf(s, Remote(ids[n])));
    assert Ends(local, CommitOf(local, Local(own.handle), own.cio).0) && Ends(local, DropOf(local, Local(own.handle)));
  }

  lemma PrepareKeepsCoherent(s: Store, wr: Write, e: NodeEnv)
    requires Coherent(s) && !Claimed(s, wr.key) && wr.key != [] && NotRepeated(s, wr, e)
    ensures Coherent(Prepared(s, wr, e).0)
  {
    match e.route
    case Streamed(reached, answered, pieces, io) =>
      var chunks := Chunks(wr.key, wr.requestId, pieces, Sha256(wr.data));
      assert chunks[0].key == wr.key || chunks[0].key == [];
      StepRefines(s, StreamOp(chunks, io, e.now));
    case Unary(retries, attempts) =>
      OnceIsPrepare(s, wr.requestId, wr.key, wr.data, retries, attempts, e.now);
      StepRefines(s, PrepareOp(wr.requestId, wr.key, wr.data, Some(Sha256(wr.data)), WriteOk, e.now));
  }

  /** An empty object is prepared nowhere when streamed, so it is written exactly when the local
      node alone is a quorum. */
  lemma EmptyObjectNeedsNoReplicas(config: QuorumConfig, localId: nat, replicas: Replicas, local: Store, nodes: seq<nat>,
                                   wr: Write, env: Env, own: Own)
    requires GoodEnv(env, replicas, wr.data) && wr.data == [] && wr.key != [] && forall n :: n in env ==> env[n].route.Streamed?
    requires OwnWrite(local, own.handle, wr) && own.cio.CommitOk?
    ensures var r := TwoPhaseWrite(config, localId, replicas, local, nodes, wr, env, own).2;
            r.Finished? && r.successCount == 1 && (r.quorumAchieved <==> config.writeQuorum <= 1)
  {
    EmptyObjectNeverPrepares(replicas, nodes, wr, env);
  }

  lemma {:induction false} EmptyObjectNeverPrepares(replicas: Replicas, nodes: seq<nat>, wr: Write, env: Env)
    requires GoodEnv(env, replicas, wr.data) && wr.data == [] && wr.key != [] && forall n :: n in env ==> env[n].route.Streamed?
    ensures Oks(Reports(replicas, nodes, wr, env)) == []
  {
    if nodes != [] {
      var k := |nodes| - 1;
      EmptyObjectNeverPrepares(replicas, nodes[..k], wr, env);
      var before, after := Reports(replicas, nodes[..k], wr, env), Reports(replicas, nodes, wr, env);
      var n := nodes[k];
      if n in replicas {
        assert GoodRoute(env[n].route, wr.data);
        StreamIsPrepare(replicas[n], wr.key, wr.requestId, wr.data, env[n].route.pieces, env[n].route.io, env[n].now);
      }
      if after != before {
        assert after[..|after| - 1] == before;
      }
    }
  }
}
