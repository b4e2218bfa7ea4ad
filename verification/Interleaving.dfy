/** One quorum write with other requests, stale cleanup and the collector running on every
    replica between its prepare and its commit or abort. */
module Interleaving {
  import opened Text
  import MetadataDb
  import opened Replica
  import opened ReplicaRuns
  import opened Client
  import opened Coordinator

  /** What other parties do on each replica in between. */
  type Meanwhile = map<nat, seq<Op>>

  function Others(mid: Meanwhile, n: nat): seq<Op> {
    if n in mid then mid[n] else []
  }

  function Amid(replicas: Replicas, mid: Meanwhile): Replicas {
    map n | n in replicas :: After(replicas[n], Others(mid, n))
  }

  /** The write, with the others' steps between its two phases. */
  function WriteAmid(config: QuorumConfig, localId: nat, replicas: Replicas, local: Store, nodes: seq<nat>,
                     wr: Write, env: Env, own: Own, mid: Meanwhile): (Replicas, Store, WriteResult)
    requires env.Keys == replicas.Keys
  {
    var prepared := AfterPrepare(replicas, nodes, wr, env);
    Complete(config, PhaseOf(localId, Reports(replicas, nodes, wr, env)), Amid(prepared, mid), local, own, env)
  }

  // ---------- a staged prepare among other requests ----------

  /** Nobody else uses this temp id: request ids are not reused. */
  ghost predicate Foreign(run: seq<Op>, id: string) {
    forall i :: 0 <= i < |run| ==>
      && (run[i].PrepareOp? ==> TempId(run[i].requestId, run[i].key) != id)
      && (run[i].StreamOp? && run[i].chunks != [] ==> TempId(run[i].chunks[0].requestId, run[i].chunks[0].key) != id)
      && (run[i].CommitOp? ==> run[i].id != id)
  }

  lemma ForeignTail(run: seq<Op>, id: string)
    requires Foreign(run, id) && run != []
    ensures Foreign(run[1..], id) && Foreign([run[0]], id)
  {
    assert forall i :: 0 <= i < |run[1..]| ==> run[1..][i] == run[i + 1];
  }

  /** Two staging tables that differ at most in this id. */
  ghost predicate Alike(t: Staging, t': Staging, id: string) {
    t.visible == t'.visible && t.staged - {Remote(id)} == t'.staged - {Remote(id)}
  }

  lemma MinusPut(m: map<Owner, Staged>, id: Owner, other: Owner, x: Staged)
    requires other != id
    ensures m[other := x] - {id} == (m - {id})[other := x]
  {
  }

  lemma MinusMinus(m: map<Owner, Staged>, id: Owner, other: Owner)
    ensures m - {other} - {id} == m - {id} - {other}
  {
  }

  lemma MinusKept(m: map<Owner, Staged>, id: Owner, now: nat, maxAge: nat)
    ensures Young(m, now, maxAge) - {id} == Young(m - {id}, now, maxAge)
  {
  }

  lemma StagedElsewhere(t: Staging, t': Staging, id: string, other: Owner)
    requires Alike(t, t', id) && other != Remote(id)
    ensures other in t.staged <==> other in t'.staged
    ensures other in t.staged ==> t.staged[other] == t'.staged[other]
  {
    assert other in t.staged <==> other in t.staged - {Remote(id)};
    assert other in t'.staged <==> other in t'.staged - {Remote(id)};
  }

  lemma PublishedAlike(t: Staging, t': Staging, id: string, other: Owner, cio: CommitIo)
    requires Alike(t, t', id) && other != Remote(id)
    ensures Alike(Published(t, other, cio), Published(t', other, cio), id)
  {
    StagedElsewhere(t, t', id, other);
    MinusMinus(t.staged, Remote(id), other);
    MinusMinus(t'.staged, Remote(id), other);
  }

  lemma DroppedAlike(t: Staging, t': Staging, id: string, other: Owner)
    requires Alike(t, t', id)
    ensures Alike(t.(staged := t.staged - {other}), t'.(staged := t'.staged - {other}), id)
  {
    MinusMinus(t.staged, Remote(id), other);
    MinusMinus(t'.staged, Remote(id), other);
  }

  lemma StagedAlike(t: Staging, t': Staging, id: string, other: Owner, x: Staged)
    requires Alike(t, t', id) && other != Remote(id)
    ensures Alike(t.(staged := t.staged[other := x]), t'.(staged := t'.staged[other := x]), id)
  {
    MinusPut(t.staged, Remote(id), other, x);
    MinusPut(t'.staged, Remote(id), other, x);
  }

  lemma CleanedAlike(t: Staging, t': Staging, id: string, now: nat, maxAge: nat)
    requires Alike(t, t', id)
    ensures Alike(t.(staged := Young(t.staged, now, maxAge)), t'.(staged := Young(t'.staged, now, maxAge)), id)
  {
    MinusKept(t.staged, Remote(id), now, maxAge);
    MinusKept(t'.staged, Remote(id), now, maxAge);
  }

  /** Requests that do not use the id do the same on both tables. */
  lemma ForeignStep(t: Staging, t': Staging, op: Op, id: string)
    requires Alike(t, t', id) && Foreign([op], id)
    ensures Alike(Intended(t, op), Intended(t', op), id)
  {
    assert [op][0] == op;
    match op
    case PrepareOp(requestId, key, data, checksum, io, now) =>
      StagedAlike(t, t', id, Remote(TempId(requestId, key)), Staged(key, data, now));
    case StreamOp(chunks, io, now) =>
      if chunks != [] {
        StagedAlike(t, t', id, Remote(TempId(chunks[0].requestId, chunks[0].key)), Staged(chunks[0].key, ChunkData(chunks), now));
      }
    case CommitOp(other, cio) => PublishedAlike(t, t', id, Remote(other), cio);
    case AbortOp(other) => DroppedAlike(t, t', id, Remote(other));
    case CleanupOp(now, maxAge) => CleanedAlike(t, t', id, now, maxAge);
    case HoldOp(handle, key, data, io, now) =>
      StagedElsewhere(t, t', id, Local(handle));
      StagedAlike(t, t', id, Local(handle), Staged(key, data, now));
    case PublishOp(handle, cio) => PublishedAlike(t, t', id, Local(handle), cio);
    case LetGoOp(handle) => DroppedAlike(t, t', id, Local(handle));
    case _ =>
  }

  /** What is visible after others' requests does not depend on a prepare they do not use. */
  lemma {:induction false} StagedIsInvisible(t: Staging, t': Staging, run: seq<Op>, id: string)
    requires Alike(t, t', id) && Foreign(run, id)
    ensures Alike(IntendedAfter(t, run), IntendedAfter(t', run), id)
    decreases |run|
  {
    if run != [] {
      ForeignTail(run, id);
      ForeignStep(t, t', run[0], id);
      StagedIsInvisible(Intended(t, run[0]), Intended(t', run[0]), run[1..], id);
    }
  }

  /** Others can take a staged prepare away, by abort or cleanup, but not change it. */
  lemma {:induction false} StagedOrGone(t: Staging, run: seq<Op>, id: string, x: Staged)
    requires Foreign(run, id) && (Remote(id) in t.staged ==> t.staged[Remote(id)] == x)
    ensures Remote(id) in IntendedAfter(t, run).staged ==> IntendedAfter(t, run).staged[Remote(id)] == x
    decreases |run|
  {
    if run != [] {
      ForeignTail(run, id);
      assert run[0] == [run[0]][0];
      StagedOrGone(Intended(t, run[0]), run[1..], id, x);
    }
  }

  // ---------- the write ----------

  lemma PreparedIsStaged(s: Store, wr: Write, e: NodeEnv)
    requires Coherent(s) && !Claimed(s, wr.key) && GoodRoute(e.route, wr.data) && wr.key != [] && NotRepeated(s, wr, e)
    ensures var id := TempId(wr.requestId, wr.key); var s' := Prepared(s, wr, e).0;
            && Coherent(s') && Alike(Abs(s'), Abs(s), id)
            && (Prepared(s, wr, e).1.Some? ==>
                  && Prepared(s, wr, e).1.value == id
                  && Remote(id) in Abs(s').staged && Abs(s').staged[Remote(id)] == Staged(wr.key, wr.data, e.now))
  {
    match e.route
    case Streamed(reached, answered, pieces, io) =>
      if reached {
        if Flatten(pieces) != wr.data {
          CutReadIsRefused(s, wr.key, wr.requestId, wr.data, pieces, io, e.now);
        } else {
          StreamIsPrepare(s, wr.key, wr.requestId, wr.data, pieces, io, e.now);
          if wr.data != [] {
            OnceStaged(s, wr, io, e.now);
          }
        }
      }
    case Unary(retries, attempts) =>
      OnceIsPrepare(s, wr.requestId, wr.key, wr.data, retries, attempts, e.now);
      OnceStaged(s, wr, WriteOk, e.now);
  }

  lemma OnceStaged(s: Store, wr: Write, io: WriteIo, now: nat)
    requires Coherent(s) && !Claimed(s, wr.key)
    ensures var id := TempId(wr.requestId, wr.key);
            var (s', answer) := Prepare(s, wr.requestId, wr.key, wr.data, Some(Sha256(wr.data)), io, now);
            && Coherent(s') && Alike(Abs(s'), Abs(s), id)
            && (answer.Some? ==>
                  answer.value == id && Remote(id) in Abs(s').staged && Abs(s').staged[Remote(id)] == Staged(wr.key, wr.data, now))
  {
    StepRefines(s, PrepareOp(wr.requestId, wr.key, wr.data, Some(Sha256(wr.data)), io, now));
    PutAlike(Abs(s), TempId(wr.requestId, wr.key), Staged(wr.key, wr.data, now));
  }

  /** The other parties use other ids and, with this write's prepare in place, disturb nothing. */
  ghost predicate LeavesAlone(prepared: Store, run: seq<Op>, id: string) {
    NeverDisturbs(prepared, run) && Foreign(run, id)
  }

  /** A write that fails, with others' requests, cleanups and collector cycles between its two
      phases: a replica with no temp object for the key shows exactly what the others alone
      would have made of it. */
  lemma NoQuorumNoChangeAmid(config: QuorumConfig, localId: nat, replicas: Replicas, local: Store, nodes: seq<nat>,
                             wr: Write, env: Env, own: Own, mid: Meanwhile, n: nat)
    requires GoodEnv(env, replicas, wr.data) && wr.key != [] && n in replicas
    requires Coherent(replicas[n]) && !Claimed(replicas[n], wr.key) && NotRepeated(replicas[n], wr, env[n])
    requires LeavesAlone(AfterPrepare(replicas, nodes, wr, env)[n], Others(mid, n), TempId(wr.requestId, wr.key))
    ensures var (settled, local', r) := WriteAmid(config, localId, replicas, local, nodes, wr, env, own, mid);
            r.LocalWriteFailed? || !r.quorumAchieved ==>
              n in settled && settled[n].objects == IntendedAfter(Abs(replicas[n]), Others(mid, n)).visible
  {
    PreparedIsStaged(replicas[n], wr, env[n]);
    FailedNode(config, localId, replicas, local, nodes, wr, env, own, mid, n);
    VisibleAmid(replicas[n], AfterPrepare(replicas, nodes, wr, env)[n], Others(mid, n), TempId(wr.requestId, wr.key));
  }

  /** What a failed write leaves visible on one node: what was there when it was aborted. */
  lemma FailedNode(config: QuorumConfig, localId: nat, replicas: Replicas, local: Store, nodes: seq<nat>,
                   wr: Write, env: Env, own: Own, mid: Meanwhile, n: nat)
    requires env.Keys == replicas.Keys && n in replicas
    ensures var (settled, local', r) := WriteAmid(config, localId, replicas, local, nodes, wr, env, own, mid);
            r.LocalWriteFailed? || !r.quorumAchieved ==>
              && n in settled
              && settled[n].objects == After(AfterPrepare(replicas, nodes, wr, env)[n], Others(mid, n)).objects
  {
  }

  // ---------- a temp object for the key is already there ----------

  /** The prepare gets as far as the disk of the replica, and is accepted there. */
  ghost predicate Accepted(s: Store, wr: Write, e: NodeEnv) {
    && MetadataDb.ValidObjectKey(wr.key) && wr.data != []
    && e.route.Streamed? && e.route.reached && e.route.io.WriteOk? && Reads(e.route.pieces, wr.data)
    && Remote(TempId(wr.requestId, wr.key)) !in s.pending
  }

  lemma AcceptedIsWritten(s: Store, wr: Write, e: NodeEnv)
    requires Accepted(s, wr, e)
    ensures Prepared(s, wr, e)
            == (s.(temp := s.temp[wr.key := TempFile(wr.data, e.now)],
                   pending := s.pending[Remote(TempId(wr.requestId, wr.key)) := Pending(wr.key, e.now)]),
                Some(TempId(wr.requestId, wr.key)))
  {
    StreamIsPrepare(s, wr.key, wr.requestId, wr.data, e.route.pieces, e.route.io, e.now);
  }

  /** Then it shows through: whoever commits the temp object that was there publishes this
      write's bytes, although this write fails. */
  lemma FailedWriteShowsThrough(config: QuorumConfig, localId: nat, replicas: Replicas, local: Store, nodes: seq<nat>,
                                wr: Write, env: Env, own: Own, mid: Meanwhile, n: nat, before: string)
    requires env.Keys == replicas.Keys && n in replicas && n in nodes && Accepted(replicas[n], wr, env[n])
    requires Remote(before) in replicas[n].pending && replicas[n].pending[Remote(before)].key == wr.key
    requires wr.key in replicas[n].temp && Others(mid, n) == [CommitOp(before, CommitOk)]
    ensures var (settled, local', r) := WriteAmid(config, localId, replicas, local, nodes, wr, env, own, mid);
            && (r.LocalWriteFailed? || !r.quorumAchieved ==>
                  n in settled && settled[n].objects == replicas[n].objects[wr.key := wr.data])
            && After(replicas[n], Others(mid, n)).objects == replicas[n].objects[wr.key := replicas[n].temp[wr.key].data]
  {
    AcceptedIsWritten(replicas[n], wr, env[n]);
    FailedNode(config, localId, replicas, local, nodes, wr, env, own, mid, n);
    CommitsTheFile(AfterPrepare(replicas, nodes, wr, env)[n], before, wr.key);
    CommitsTheFile(replicas[n], before, wr.key);
  }

  lemma CommitsTheFile(s: Store, before: string, key: string)
    requires Remote(before) in s.pending && s.pending[Remote(before)].key == key && key in s.temp
    ensures After(s, [CommitOp(before, CommitOk)]).objects == s.objects[key := s.temp[key].data]
  {
    OneStep(s, CommitOp(before, CommitOk));
  }

  lemma OneStep(s: Store, op: Op)
    ensures After(s, [op]) == Do(s, op)
  {
    assert [op][0] == op && [op][1..] == [];
    assert After(Do(s, op), []) == Do(s, op);
  }

  /** On this replica, whatever the others do, the prepare is without effect on what they show. */
  ghost predicate Harmless(s: Store, wr: Write, e: NodeEnv) {
    forall run :: LeavesAlone(Prepared(s, wr, e).0, run, TempId(wr.requestId, wr.key)) ==>
      After(Prepared(s, wr, e).0, run).objects == IntendedAfter(Abs(s), run).visible
  }

  /** Accepting a prepare is harmless to what all others show if and only if the replica had no
      temp object for the key. */
  lemma HarmlessExactly(s: Store, wr: Write, e: NodeEnv)
    requires Coherent(s) && Accepted(s, wr, e)
    ensures Harmless(s, wr, e) <==> !Claimed(s, wr.key)
  {
    var id := TempId(wr.requestId, wr.key);
    if Claimed(s, wr.key) {
      var o :| o in s.pending && s.pending[o].key == wr.key;
      HarmDone(s, wr, e, o);
    } else {
      PreparedIsStaged(s, wr, e);
      forall run | LeavesAlone(Prepared(s, wr, e).0, run, id)
        ensures After(Prepared(s, wr, e).0, run).objects == IntendedAfter(Abs(s), run).visible
      {
        VisibleAmid(s, Prepared(s, wr, e).0, run, id);
      }
    }
  }

  function CommitStep(o: Owner): Op {
    match o
    case Remote(id) => CommitOp(id, CommitOk)
    case Local(handle) => PublishOp(handle, CommitOk)
  }

  /** A run that tells the difference: this write is aborted, the object deleted, and the temp
      object that was there committed.  Its file is gone. */
  lemma HarmDone(s: Store, wr: Write, e: NodeEnv, o: Owner)
    requires Coherent(s) && Accepted(s, wr, e) && o in s.pending && s.pending[o].key == wr.key
    ensures !Harmless(s, wr, e)
  {
    var id, p := TempId(wr.requestId, wr.key), Prepared(s, wr, e).0;
    var run := Telling(id, wr.key, o);
    AcceptedIsWritten(s, wr, e);
    TellingIsAllowed(p, id, wr.key, o);
    ThreeSteps(p, run[0], run[1], run[2]);
    ThreeIntended(Abs(s), run[0], run[1], run[2]);
    GoneAfter(p, wr, o, id);
    ThereAfter(s, wr, o, id);
    assert run == [run[0], run[1], run[2]];
    assert After(p, run).objects != IntendedAfter(Abs(s), run).visible;
  }

  function Telling(id: string, key: string, o: Owner): (run: seq<Op>)
    ensures |run| == 3
  {
    [AbortOp(id), DeleteOp(key, true), CommitStep(o)]
  }

  lemma TellingIsAllowed(p: Store, id: string, key: string, o: Owner)
    requires o != Remote(id)
    ensures LeavesAlone(p, Telling(id, key, o), id)
  {
    var run := Telling(id, key, o);
    assert run[1..] == [run[1], run[2]] && run[1..][1..] == [run[2]] && [run[2]][1..] == [];
    var p1 := Do(p, run[0]);
    var p2 := Do(p1, run[1]);
    assert !Disturbs(p, run[0]) && !Disturbs(p1, run[1]) && !Disturbs(p2, run[2]);
    assert NeverDisturbs(p2, [run[2]]);
    assert NeverDisturbs(p1, [run[1], run[2]]);
  }

  lemma ThreeSteps(s: Store, a: Op, b: Op, c: Op)
    ensures After(s, [a, b, c]) == Do(Do(Do(s, a), b), c)
  {
    assert [a, b, c][1..] == [b, c] && [b, c][1..] == [c];
    OneStep(Do(Do(s, a), b), c);
  }

  lemma ThreeIntended(t: Staging, a: Op, b: Op, c: Op)
    ensures IntendedAfter(t, [a, b, c]) == Intended(Intended(Intended(t, a), b), c)
  {
    assert [a, b, c][1..] == [b, c] && [b, c][1..] == [c];
    OneIntended(Intended(Intended(t, a), b), c);
  }

  lemma OneIntended(t: Staging, op: Op)
    ensures IntendedAfter(t, [op]) == Intended(t, op)
  {
    assert [op][0] == op && [op][1..] == [];
    assert IntendedAfter(Intended(t, op), []) == Intended(t, op);
  }

  lemma GoneAfter(p: Store, wr: Write, o: Owner, id: string)
    requires Remote(id) in p.pending && p.pending[Remote(id)].key == wr.key && o != Remote(id)
    requires o in p.pending && p.pending[o].key == wr.key && MetadataDb.ValidObjectKey(wr.key)
    ensures wr.key !in Do(Do(Do(p, AbortOp(id)), DeleteOp(wr.key, true)), CommitStep(o)).objects
  {
  }

  lemma ThereAfter(s: Store, wr: Write, o: Owner, id: string)
    requires Coherent(s) && o in s.pending && s.pending[o].key == wr.key && o != Remote(id)
    ensures wr.key in Intended(Intended(Intended(Abs(s), AbortOp(id)), DeleteOp(wr.key, true)), CommitStep(o)).visible
  {
    StagedIsPending(s, o);
    StillPublished(Abs(s), wr.key, o, id);
  }

  lemma StillPublished(t: Staging, key: string, o: Owner, id: string)
    requires o in t.staged && t.staged[o].key == key && o != Remote(id)
    ensures key in Intended(Intended(Intended(t, AbortOp(id)), DeleteOp(key, true)), CommitStep(o)).visible
  {
  }

  lemma PutAlike(t: Staging, id: string, x: Staged)
    ensures Alike(t.(staged := t.staged[Remote(id) := x]), t, id)
  {
  }

  /** With quorum, and other requests that use other ids and disturb no prepare: a replica shows
      what the others alone would have made of it, and on top the new bytes exactly if its
      commit arrived and renamed before an abort or a cleanup took the prepare away. */
  lemma QuorumPublishesAmid(config: QuorumConfig, localId: nat, replicas: Replicas, local: Store, nodes: seq<nat>,
                            wr: Write, env: Env, own: Own, mid: Meanwhile, n: nat)
    requires GoodEnv(env, replicas, wr.data) && wr.key != [] && n in replicas
    requires OwnWrite(local, own.handle, wr)
    requires Coherent(replicas[n]) && !Claimed(replicas[n], wr.key) && NotRepeated(replicas[n], wr, env[n])
    requires LeavesAlone(AfterPrepare(replicas, nodes, wr, env)[n], Others(mid, n), TempId(wr.requestId, wr.key))
    ensures var (settled, local', r) := WriteAmid(config, localId, replicas, local, nodes, wr, env, own, mid);
            var ids := IdsOf(Reports(replicas, nodes, wr, env));
            var others := IntendedAfter(Abs(replicas[n]), Others(mid, n)).visible;
            var waiting := After(AfterPrepare(replicas, nodes, wr, env)[n], Others(mid, n)).pending;
            r.Finished? && r.quorumAchieved ==>
              && local'.objects == local.objects[wr.key := wr.data]
              && settled[n].objects
                 == if Publishes(ids, replicas, wr, env, n) && Remote(ids[n]) in waiting then others[wr.key := wr.data] else others
  {
    var id, run := TempId(wr.requestId, wr.key), Others(mid, n);
    var ids := IdsOf(Reports(replicas, nodes, wr, env));
    var prepared := AfterPrepare(replicas, nodes, wr, env)[n];
    IdsAreAnswers(replicas, nodes, wr, env);
    PreparedIsStaged(replicas[n], wr, env[n]);
    SettledNode(config, localId, replicas, local, nodes, wr, env, own, mid, n);
    VisibleAmid(replicas[n], prepared, run, id);
    if n in ids {
      CommitAmid(prepared, run, id, Staged(wr.key, wr.data, env[n].now), env[n].cio);
    }
  }

  /** What the second phase does to one node. */
  lemma SettledNode(config: QuorumConfig, localId: nat, replicas: Replicas, local: Store, nodes: seq<nat>,
                    wr: Write, env: Env, own: Own, mid: Meanwhile, n: nat)
    requires env.Keys == replicas.Keys && n in replicas
    ensures var (settled, local', r) := WriteAmid(config, localId, replicas, local, nodes, wr, env, own, mid);
            var ids := IdsOf(Reports(replicas, nodes, wr, env));
            var s := After(AfterPrepare(replicas, nodes, wr, env)[n], Others(mid, n));
            r.Finished? && r.quorumAchieved ==>
              && local' == CommitOf(local, Local(own.handle), own.cio).0 && own.cio.CommitOk? && n in settled
              && settled[n] == if n in ids && env[n].commitReached then Commit(s, ids[n], env[n].cio).0 else s
  {
  }

  /** Others see the same visible bytes with and without the prepare. */
  lemma VisibleAmid(s: Store, prepared: Store, run: seq<Op>, id: string)
    requires Coherent(prepared) && Alike(Abs(prepared), Abs(s), id) && NeverDisturbs(prepared, run) && Foreign(run, id)
    ensures Coherent(After(prepared, run)) && After(prepared, run).objects == IntendedAfter(Abs(s), run).visible
  {
    RunRefines(prepared, run);
    StagedIsInvisible(Abs(prepared), Abs(s), run, id);
  }

  /** A commit after others' requests publishes the prepared bytes exactly if the prepare is
      still there and the rename works. */
  lemma CommitAmid(prepared: Store, run: seq<Op>, id: string, x: Staged, cio: CommitIo)
    requires Coherent(prepared) && NeverDisturbs(prepared, run) && Foreign(run, id)
    requires Remote(id) in Abs(prepared).staged && Abs(prepared).staged[Remote(id)] == x
    ensures var s := After(prepared, run);
            Commit(s, id, cio).0.objects == if Remote(id) in s.pending && !cio.RenameFails? then s.objects[x.key := x.data] else s.objects
  {
    var s := After(prepared, run);
    RunRefines(prepared, run);
    StagedOrGone(Abs(prepared), run, id, x);
    StagedIsPending(s, Remote(id));
    CommitRefines(s, Remote(id), cio);
    assert Abs(Commit(s, id, cio).0).visible == Commit(s, id, cio).0.objects;
  }
}
