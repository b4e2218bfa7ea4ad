/** Every run of a replica against what two-phase replication is meant to be: a staging
    table that holds the prepared bytes of each temp id, and publishes them on commit. */
module ReplicaRuns {
  import opened Text
  import opened MetadataDb
  import opened Replica

  // ---------- the intended staging table ----------

  datatype Staged = Staged(key: string, data: Bytes, createdAt: nat)

  datatype Staging = Staging(visible: map<string, Bytes>, staged: map<Owner, Staged>)

  /** One request to the replica, or a step of a write of its own, with the outcome of the file system calls it makes. */
  datatype Op =
    | PrepareOp(requestId: nat, key: string, data: Bytes, checksum: Option<Digest>, io: WriteIo, now: nat)
    | StreamOp(chunks: seq<Chunk>, io: WriteIo, now: nat)
    | CommitOp(id: string, cio: CommitIo)
    | AbortOp(id: string)
    | CleanupOp(now: nat, maxAge: nat)
    | WriteOp(key: string, data: Bytes, checksum: Option<Digest>, io: WriteIo, cio: CommitIo, now: nat)
    | DeleteOp(key: string, removes: bool)
    | CollectOp(now: nat, maxAge: nat, stuck: set<string>)
    | HoldOp(handle: nat, key: string, data: Bytes, io: WriteIo, now: nat)
    | PublishOp(handle: nat, cio: CommitIo)
    | LetGoOp(handle: nat)

  function Do(s: Store, op: Op): Store {
    match op
    case PrepareOp(requestId, key, data, checksum, io, now) => Prepare(s, requestId, key, data, checksum, io, now).0
    case StreamOp(chunks, io, now) => StreamPrepare(s, chunks, io, now).0
    case CommitOp(id, cio) => Commit(s, id, cio).0
    case AbortOp(id) => Abort(s, id)
    case CleanupOp(now, maxAge) => Cleanup(s, now, maxAge)
    case WriteOp(key, data, checksum, io, cio, now) => WriteDirect(s, key, data, checksum, io, cio, now).0
    case DeleteOp(key, removes) => Delete(s, key, removes).0
    case CollectOp(now, maxAge, stuck) => Collect(s, now, maxAge, stuck)
    case HoldOp(handle, key, data, io, now) => Hold(s, handle, key, data, io, now).0
    case PublishOp(handle, cio) => CommitOf(s, Local(handle), cio).0
    case LetGoOp(handle) => DropOf(s, Local(handle))
  }

  function Intended(t: Staging, op: Op): Staging {
    match op
    case PrepareOp(requestId, key, data, checksum, io, now) =>
      if ChecksumOk(checksum, data) && ValidObjectKey(key) && io.WriteOk?
      then t.(staged := t.staged[Remote(TempId(requestId, key)) := Staged(key, data, now)]) else t
    case StreamOp(chunks, io, now) =>
      if chunks != [] && ValidObjectKey(chunks[0].key) && io.WriteOk? && ChecksumOk(ExpectedChecksum(chunks), ChunkData(chunks))
      then t.(staged := t.staged[Remote(TempId(chunks[0].requestId, chunks[0].key)) := Staged(chunks[0].key, ChunkData(chunks), now)])
      else t
    case CommitOp(id, cio) => Published(t, Remote(id), cio)
    case AbortOp(id) => t.(staged := t.staged - {Remote(id)})
    case CleanupOp(now, maxAge) => t.(staged := Young(t.staged, now, maxAge))
    case WriteOp(key, data, checksum, io, cio, now) =>
      if ChecksumOk(checksum, data) && ValidObjectKey(key) && io.WriteOk? && !cio.RenameFails?
      then t.(visible := t.visible[key := data]) else t
    case DeleteOp(key, removes) => if ValidObjectKey(key) && removes then t.(visible := t.visible - {key}) else t
    case CollectOp(now, maxAge, stuck) => t
    case HoldOp(handle, key, data, io, now) =>
      if Local(handle) !in t.staged && ValidObjectKey(key) && io.WriteOk?
      then t.(staged := t.staged[Local(handle) := Staged(key, data, now)]) else t
    case PublishOp(handle, cio) => Published(t, Local(handle), cio)
    case LetGoOp(handle) => t.(staged := t.staged - {Local(handle)})
  }

  /** A commit publishes what its owner staged, and consumes it in any case. */
  function Published(t: Staging, o: Owner, cio: CommitIo): Staging {
    if o !in t.staged then t
    else if cio.RenameFails? then t.(staged := t.staged - {o})
    else Staging(t.visible[t.staged[o].key := t.staged[o].data], t.staged - {o})
  }

  function Young(staged: map<Owner, Staged>, now: nat, maxAge: nat): map<Owner, Staged> {
    map o | o in staged && !(o.Remote? && staged[o].createdAt + maxAge <= now) :: staged[o]
  }

  // ---------- how the files represent it ----------

  ghost predicate Named(id: string, key: string) {
    exists r: nat :: id == TempId(r, key)
  }

  ghost function PendingKeys(pending: map<Owner, Pending>): set<string> {
    set o | o in pending :: pending[o].key
  }

  /** A pending prepare or a write of the node's own has the temp path of this key. */
  ghost predicate Claimed(s: Store, key: string) {
    key in PendingKeys(s.pending)
  }

  ghost predicate OnePerKey(pending: map<Owner, Pending>) {
    forall i, j :: i in pending && j in pending && pending[i].key == pending[j].key ==> i == j
  }

  ghost predicate AllNamed(pending: map<Owner, Pending>) {
    forall o :: o in pending && o.Remote? ==> Named(o.id, pending[o].key)
  }

  /** Temp files correspond one to one to the pending prepares and the node's own writes. */
  ghost predicate Coherent(s: Store) {
    AllNamed(s.pending) && OnePerKey(s.pending) && s.temp.Keys == PendingKeys(s.pending)
  }

  ghost function Abs(s: Store): Staging {
    Staging(s.objects, map id | id in s.pending && s.pending[id].key in s.temp ::
                         Staged(s.pending[id].key, s.temp[s.pending[id].key].data, s.pending[id].createdAt))
  }

  /** The key whose temp path the request touches, when it gets that far. */
  function TempKey(s: Store, op: Op): Option<string> {
    match op
    case HoldOp(handle, key, _, io, _) =>
      if Local(handle) !in s.pending && ValidObjectKey(key) && !io.NoTempDir? then Some(key) else None
    case PrepareOp(_, key, data, checksum, io, _) =>
      if ChecksumOk(checksum, data) && ValidObjectKey(key) && !io.NoTempDir? then Some(key) else None
    case StreamOp(chunks, io, _) =>
      if chunks != [] && ValidObjectKey(chunks[0].key) && !io.NoTempDir? then Some(chunks[0].key) else None
    case WriteOp(key, data, checksum, io, _, _) =>
      if ChecksumOk(checksum, data) && ValidObjectKey(key) && !io.NoTempDir? then Some(key) else None
    case _ => None
  }

  /** The step writes at a temp path that is claimed, or the collector finds a claimed file old
      enough to take. */
  ghost predicate Disturbs(s: Store, op: Op) {
    || (TempKey(s, op).Some? && Claimed(s, TempKey(s, op).value))
    || (op.CollectOp? && exists id :: id in s.pending && Takes(s, s.pending[id].key, op))
  }

  predicate Takes(s: Store, key: string, op: Op)
    requires op.CollectOp?
  {
    key in s.temp && key !in op.stuck && (op.maxAge == 0 || s.temp[key].modified + op.maxAge <= op.now)
  }

  lemma IdNamesOneKey(id: string, k1: string, k2: string)
    requires Named(id, k1) && Named(id, k2)
    ensures k1 == k2
  {
    var r1: nat :| id == TempId(r1, k1);
    var r2: nat :| id == TempId(r2, k2);
    var d1, d2 := Decimal(r1), Decimal(r2);
    assert id[|d1|] == ':' && id[|d2|] == ':';
    assert forall i :: 0 <= i < |d1| ==> id[i] == d1[i] && d1[i] in d1;
    assert forall i :: 0 <= i < |d2| ==> id[i] == d2[i] && d2[i] in d2;
    assert |d1| == |d2|;
    assert k1 == id[|d1| + 1..] && k2 == id[|d2| + 1..];
  }

  // ---------- requests that disturb no pending prepare ----------

  lemma PendingGrows(pending: map<Owner, Pending>, id: Owner, p: Pending)
    requires id !in pending
    ensures PendingKeys(pending[id := p]) == PendingKeys(pending) + {p.key}
  {
    var pending' := pending[id := p];
    forall k | k in PendingKeys(pending)
      ensures k in PendingKeys(pending')
    {
      var i :| i in pending && pending[i].key == k;
      assert i in pending' && pending'[i].key == k;
    }
    assert id in pending' && pending'[id].key == p.key;
  }

  lemma PendingShrinks(pending: map<Owner, Pending>, id: Owner)
    requires OnePerKey(pending) && id in pending
    ensures PendingKeys(pending - {id}) == PendingKeys(pending) - {pending[id].key}
  {
    var pending' := pending - {id};
    forall k | k in PendingKeys(pending) && k != pending[id].key
      ensures k in PendingKeys(pending')
    {
      var i :| i in pending && pending[i].key == k;
      assert i in pending' && pending'[i].key == k;
    }
  }

  /** Staging under a key that is not claimed. */
  lemma StageRefines(s: Store, id: Owner, key: string, data: Bytes, now: nat)
    requires Coherent(s) && !Claimed(s, key) && (if id.Remote? then Named(id.id, key) else id !in s.pending)
    ensures var s' := Insert(s.(temp := s.temp[key := TempFile(data, now)]), id, key, now);
            && Coherent(s')
            && Abs(s') == Abs(s).(staged := Abs(s).staged[id := Staged(key, data, now)])
  {
    if id.Remote? {
      FreshId(s, id.id, key);
    }
    StageIsCoherent(s, id, key, data, now);
    StageIsStaged(s, id, key, data, now);
  }

  lemma StageIsCoherent(s: Store, id: Owner, key: string, data: Bytes, now: nat)
    requires Coherent(s) && !Claimed(s, key) && id !in s.pending && (id.Remote? ==> Named(id.id, key))
    ensures Coherent(s.(temp := s.temp[key := TempFile(data, now)], pending := s.pending[id := Pending(key, now)]))
  {
    PendingGrows(s.pending, id, Pending(key, now));
    assert forall i :: i in s.pending ==> s.pending[i].key in PendingKeys(s.pending);
  }

  lemma StageIsStaged(s: Store, id: Owner, key: string, data: Bytes, now: nat)
    requires Coherent(s) && !Claimed(s, key) && id !in s.pending
    ensures Abs(s.(temp := s.temp[key := TempFile(data, now)], pending := s.pending[id := Pending(key, now)]))
            == Abs(s).(staged := Abs(s).staged[id := Staged(key, data, now)])
  {
    assert forall i :: i in s.pending ==> s.pending[i].key in PendingKeys(s.pending);
  }

  lemma FreshId(s: Store, id: string, key: string)
    requires Coherent(s) && !Claimed(s, key) && Named(id, key)
    ensures Remote(id) !in s.pending
  {
    if Remote(id) in s.pending {
      IdNamesOneKey(id, key, s.pending[Remote(id)].key);
    }
  }

  /** Dropping the temp file of a key that is not claimed changes nothing. */
  lemma DropUnused(s: Store, key: string)
    requires Coherent(s) && !Claimed(s, key)
    ensures DropTemp(s, key) == s
  {
    assert s.temp - {key} == s.temp;
  }

  /** Taking one temp object away together with its file. */
  lemma RemoveRefines(s: Store, id: Owner)
    requires Coherent(s) && id in s.pending
    ensures s.pending[id].key in s.temp && id in Abs(s).staged
    ensures var s' := DropTemp(s.(pending := s.pending - {id}), s.pending[id].key);
            Coherent(s') && Abs(s') == Abs(s).(staged := Abs(s).staged - {id})
  {
    PendingShrinks(s.pending, id);
    assert s.pending[id].key in PendingKeys(s.pending);
    RemovedIsUnstaged(s, id);
  }

  lemma RemovedIsUnstaged(s: Store, id: Owner)
    requires OnePerKey(s.pending) && id in s.pending
    ensures Abs(DropTemp(s.(pending := s.pending - {id}), s.pending[id].key)) == Abs(s).(staged := Abs(s).staged - {id})
  {
    var s' := DropTemp(s.(pending := s.pending - {id}), s.pending[id].key);
    var got, want := Abs(s').staged, Abs(s).staged - {id};
    forall i
      ensures i in got <==> i in want
      ensures i in got ==> got[i] == want[i]
    {
      if i in s.pending && i != id {
        assert s.pending[i].key != s.pending[id].key;
      }
    }
    SameStaged(got, want);
  }

  lemma SameStaged(a: map<Owner, Staged>, b: map<Owner, Staged>)
    requires forall i :: i in a <==> i in b
    requires forall i :: i in a ==> a[i] == b[i]
    ensures a == b
  {
  }

  lemma CommitRefines(s: Store, id: Owner, cio: CommitIo)
    requires Coherent(s)
    ensures Coherent(CommitOf(s, id, cio).0) && Abs(CommitOf(s, id, cio).0) == Published(Abs(s), id, cio)
    ensures CommitOf(s, id, cio).1 <==> id in Abs(s).staged && cio.CommitOk?
  {
    if id in s.pending {
      RemoveRefines(s, id);
      var dropped := DropTemp(s.(pending := s.pending - {id}), s.pending[id].key);
      if !cio.RenameFails? {
        ObjectsOnly(dropped, s.objects[s.pending[id].key := s.temp[s.pending[id].key].data]);
      }
    }
  }

  lemma AbortRefines(s: Store, id: Owner)
    requires Coherent(s)
    ensures Coherent(DropOf(s, id)) && Abs(DropOf(s, id)) == Abs(s).(staged := Abs(s).staged - {id})
  {
    if id in s.pending {
      RemoveRefines(s, id);
    } else {
      assert Abs(s).staged - {id} == Abs(s).staged;
    }
  }

  lemma MinusOneMore(m: map<Owner, Staged>, gone: set<Owner>, id: Owner)
    ensures m - (gone + {id}) == m - gone - {id}
    ensures m - {} == m
  {
  }

  /** Cleanup is a run of aborts, one per stale prepare. */
  lemma {:induction false} SweepRefines(s: Store, ids: set<Owner>, now: nat, maxAge: nat)
    requires Coherent(s) && ids <= s.pending.Keys
    ensures Coherent(Sweep(s, ids, now, maxAge))
    ensures Abs(Sweep(s, ids, now, maxAge)) == Abs(s).(staged := Abs(s).staged - StaleIn(s.pending, ids, now, maxAge))
  {
    if ids == {} {
      SweepNone(s, ids, now, maxAge);
      MinusOneMore(Abs(s).staged, {}, Local(0));
    } else {
      var id :| id in ids;
      var rest := ids - {id};
      assert ids == rest + {id};
      SweepRefines(s, rest, now, maxAge);
      SweepOneRefines(s, rest, id, now, maxAge);
    }
  }

  lemma SweepOneRefines(s: Store, rest: set<Owner>, id: Owner, now: nat, maxAge: nat)
    requires id in s.pending && id !in rest && Coherent(Sweep(s, rest, now, maxAge))
    requires Abs(Sweep(s, rest, now, maxAge)).staged == Abs(s).staged - StaleIn(s.pending, rest, now, maxAge)
    ensures Coherent(Sweep(s, rest + {id}, now, maxAge))
    ensures Abs(Sweep(s, rest + {id}, now, maxAge)).staged == Abs(s).staged - StaleIn(s.pending, rest + {id}, now, maxAge)
  {
    SweepOne(s, rest, id, now, maxAge);
    StaleGrows(s.pending, rest, id, now, maxAge);
    if Stale(id, s.pending[id], now, maxAge) {
      AbortOneMore(Sweep(s, rest, now, maxAge), id, Abs(s).staged, StaleIn(s.pending, rest, now, maxAge));
    }
  }

  lemma AbortOneMore(t: Store, id: Owner, staged: map<Owner, Staged>, gone: set<Owner>)
    requires Coherent(t) && Abs(t).staged == staged - gone
    ensures Coherent(DropOf(t, id)) && Abs(DropOf(t, id)).staged == staged - (gone + {id})
  {
    AbortRefines(t, id);
    MinusOneMore(staged, gone, id);
  }

  lemma StaleGrows(pending: map<Owner, Pending>, ids: set<Owner>, id: Owner, now: nat, maxAge: nat)
    requires id in pending
    ensures Stale(id, pending[id], now, maxAge) ==>
              StaleIn(pending, ids + {id}, now, maxAge) == StaleIn(pending, ids, now, maxAge) + {id}
    ensures !Stale(id, pending[id], now, maxAge) ==>
              StaleIn(pending, ids + {id}, now, maxAge) == StaleIn(pending, ids, now, maxAge)
  {
  }

  lemma CleanupRefines(s: Store, now: nat, maxAge: nat)
    requires Coherent(s)
    ensures Coherent(Cleanup(s, now, maxAge))
    ensures Abs(Cleanup(s, now, maxAge)) == Intended(Abs(s), CleanupOp(now, maxAge))
  {
    SweepRefines(s, s.pending.Keys, now, maxAge);
    var staged, stale := Abs(s).staged, StaleIn(s.pending, s.pending.Keys, now, maxAge);
    forall i | i in staged
      ensures i in stale <==> i.Remote? && staged[i].createdAt + maxAge <= now
    {
      StaleExactly(s, i, now, maxAge);
    }
    YoungIsMinus(staged, stale, now, maxAge);
    IntendedCleanup(Abs(s), now, maxAge);
  }

  lemma IntendedCleanup(t: Staging, now: nat, maxAge: nat)
    ensures Intended(t, CleanupOp(now, maxAge)) == t.(staged := Young(t.staged, now, maxAge))
  {
  }

  lemma IntendedDelete(t: Staging, key: string, removes: bool)
    ensures Intended(t, DeleteOp(key, removes)) == if ValidObjectKey(key) && removes then t.(visible := t.visible - {key}) else t
  {
  }

  lemma StaleExactly(s: Store, i: Owner, now: nat, maxAge: nat)
    requires i in Abs(s).staged
    ensures i in StaleIn(s.pending, s.pending.Keys, now, maxAge) <==> i.Remote? && Abs(s).staged[i].createdAt + maxAge <= now
  {
  }

  lemma YoungIsMinus(staged: map<Owner, Staged>, stale: set<Owner>, now: nat, maxAge: nat)
    requires forall i :: i in staged ==> (i in stale <==> i.Remote? && staged[i].createdAt + maxAge <= now)
    ensures staged - stale == Young(staged, now, maxAge)
  {
  }

  lemma WriteRefines(s: Store, op: Op)
    requires Coherent(s) && op.WriteOp? && !Disturbs(s, op)
    ensures Coherent(Do(s, op)) && Abs(Do(s, op)) == Intended(Abs(s), op)
  {
    if TempKey(s, op).Some? {
      DropUnused(s, op.key);
      WrittenDirectly(s, op);
      if op.io.WriteOk? && !op.cio.RenameFails? {
        ObjectsOnly(s, s.objects[op.key := op.data]);
      }
    }
  }

  /** A direct write leaves no temp file behind, whether or not it publishes. */
  lemma WrittenDirectly(s: Store, op: Op)
    requires op.WriteOp? && TempKey(s, op).Some? && DropTemp(s, op.key) == s
    ensures Do(s, op) == if op.io.WriteOk? && !op.cio.RenameFails? then s.(objects := s.objects[op.key := op.data]) else s
  {
    assert s.temp - {op.key} == s.temp;
    assert s.temp[op.key := TempFile(op.data, op.now)] - {op.key} == s.temp - {op.key};
  }

  lemma PrepareRefines(s: Store, op: Op)
    requires Coherent(s) && op.PrepareOp? && !Disturbs(s, op)
    ensures Coherent(Do(s, op)) && Abs(Do(s, op)) == Intended(Abs(s), op)
  {
    if TempKey(s, op).Some? {
      if op.io.WriteOk? {
        assert Named(TempId(op.requestId, op.key), op.key);
        StageRefines(s, Remote(TempId(op.requestId, op.key)), op.key, op.data, op.now);
      } else {
        DropUnused(s, op.key);
      }
    }
  }

  lemma StreamRefines(s: Store, op: Op)
    requires Coherent(s) && op.StreamOp? && !Disturbs(s, op)
    ensures Coherent(Do(s, op)) && Abs(Do(s, op)) == Intended(Abs(s), op)
  {
    if TempKey(s, op).Some? {
      var key, data := op.chunks[0].key, ChunkData(op.chunks);
      if !op.io.WriteOk? {
        DropUnused(s, key);
      } else if ChecksumOk(ExpectedChecksum(op.chunks), data) {
        assert Named(TempId(op.chunks[0].requestId, key), key);
        StageRefines(s, Remote(TempId(op.chunks[0].requestId, key)), key, data, op.now);
      } else {
        assert s.temp[key := TempFile(data, op.now)] - {key} == s.temp;
        assert Do(s, op) == s;
      }
    }
  }

  lemma HoldRefines(s: Store, op: Op)
    requires Coherent(s) && op.HoldOp? && !Disturbs(s, op)
    ensures Coherent(Do(s, op)) && Abs(Do(s, op)) == Intended(Abs(s), op)
  {
    StagedIsPending(s, Local(op.handle));
    if TempKey(s, op).Some? {
      if op.io.WriteOk? {
        StageRefines(s, Local(op.handle), op.key, op.data, op.now);
      } else {
        DropUnused(s, op.key);
      }
    }
  }

  lemma StagedIsPending(s: Store, o: Owner)
    requires Coherent(s)
    ensures o in s.pending <==> o in Abs(s).staged
  {
    if o in s.pending {
      assert s.pending[o].key in PendingKeys(s.pending);
    }
  }

  lemma DeleteRefines(s: Store, key: string, removes: bool)
    requires Coherent(s)
    ensures Coherent(Do(s, DeleteOp(key, removes)))
    ensures Abs(Do(s, DeleteOp(key, removes))) == Intended(Abs(s), DeleteOp(key, removes))
  {
    ObjectsOnly(s, s.objects - {key});
    DeleteIsMinus(s, key, removes);
    IntendedDelete(Abs(s), key, removes);
  }

  lemma DeleteIsMinus(s: Store, key: string, removes: bool)
    ensures Delete(s, key, removes).0 == if ValidObjectKey(key) && removes then s.(objects := s.objects - {key}) else s
  {
    if key !in s.objects {
      assert s.objects - {key} == s.objects;
    }
  }

  /** Visible bytes have no part in the correspondence. */
  lemma ObjectsOnly(s: Store, objects: map<string, Bytes>)
    requires Coherent(s)
    ensures Coherent(s.(objects := objects)) && Abs(s.(objects := objects)) == Abs(s).(visible := objects)
  {
  }

  lemma CollectRefines(s: Store, op: Op)
    requires Coherent(s) && op.CollectOp? && !Disturbs(s, op)
    ensures Do(s, op) == s
  {
    forall k | k in s.temp
      ensures k !in Collectable(s, op.now, op.maxAge, op.stuck)
    {
      var id :| id in s.pending && s.pending[id].key == k;
      assert !Takes(s, s.pending[id].key, op);
    }
    assert Collectable(s, op.now, op.maxAge, op.stuck) == {};
    assert s.temp - {} == s.temp;
  }

  /** One step that disturbs nothing claimed does exactly what was intended. */
  lemma StepRefines(s: Store, op: Op)
    requires Coherent(s) && !Disturbs(s, op)
    ensures Coherent(Do(s, op)) && Abs(Do(s, op)) == Intended(Abs(s), op)
  {
    match op
    case PrepareOp(_, _, _, _, _, _) => PrepareRefines(s, op);
    case StreamOp(_, _, _) => StreamRefines(s, op);
    case CommitOp(id, cio) => CommitRefines(s, Remote(id), cio);
    case AbortOp(id) => AbortRefines(s, Remote(id));
    case CleanupOp(now, maxAge) => CleanupRefines(s, now, maxAge);
    case WriteOp(_, _, _, _, _, _) => WriteRefines(s, op);
    case DeleteOp(key, removes) => DeleteRefines(s, key, removes);
    case CollectOp(now, maxAge, stuck) => CollectRefines(s, op);
    case HoldOp(_, _, _, _, _) => HoldRefines(s, op);
    case PublishOp(handle, cio) => CommitRefines(s, Local(handle), cio);
    case LetGoOp(handle) => AbortRefines(s, Local(handle));
  }

  /** A temp object whose file is gone. */
  lemma LostFile(s: Store, id: Owner)
    requires id in s.pending && s.pending[id].key !in s.temp
    ensures !Coherent(s)
  {
    assert s.pending[id].key in PendingKeys(s.pending);
  }

  lemma InsertBreaks(s: Store, id: Owner, key: string, data: Bytes, now: nat, i: Owner)
    requires Coherent(s) && i in s.pending && s.pending[i].key == key
    requires if id.Remote? then Named(id.id, key) else id !in s.pending
    ensures !Coherent(Insert(s.(temp := s.temp[key := TempFile(data, now)]), id, key, now))
  {
    var s' := Insert(s.(temp := s.temp[key := TempFile(data, now)]), id, key, now);
    if id in s.pending {
      IdNamesOneKey(id.id, key, s.pending[id].key);
      LostFile(s', id);
    } else {
      assert s'.pending[id].key == s'.pending[i].key && id != i;
    }
  }

  /** A step that disturbs one always leaves a temp object without its file, or two sharing one. */
  lemma DisturbanceBreaks(s: Store, op: Op)
    requires Coherent(s) && Disturbs(s, op)
    ensures !Coherent(Do(s, op))
  {
    if op.CollectOp? {
      var id :| id in s.pending && Takes(s, s.pending[id].key, op);
      LostFile(Do(s, op), id);
      return;
    }
    var key := TempKey(s, op).value;
    var i :| i in s.pending && s.pending[i].key == key;
    match op
    case PrepareOp(requestId, _, data, _, io, now) =>
      if io.WriteOk? {
        assert Named(TempId(requestId, key), key);
        InsertBreaks(s, Remote(TempId(requestId, key)), key, data, now, i);
      } else {
        LostFile(DropTemp(s, key), i);
      }
    case StreamOp(chunks, io, now) =>
      StreamDisturbs(s, chunks, io, now, i);
    case WriteOp(_, data, _, io, cio, _) =>
      LostFile(Do(s, op), i);
    case HoldOp(handle, _, data, io, now) =>
      if io.WriteOk? {
        InsertBreaks(s, Local(handle), key, data, now, i);
      } else {
        LostFile(DropTemp(s, key), i);
      }
  }

  lemma StreamDisturbs(s: Store, chunks: seq<Chunk>, io: WriteIo, now: nat, i: Owner)
    requires Coherent(s) && chunks != [] && ValidObjectKey(chunks[0].key) && !io.NoTempDir?
    requires i in s.pending && s.pending[i].key == chunks[0].key
    ensures !Coherent(StreamPrepare(s, chunks, io, now).0)
  {
    var key, data := chunks[0].key, ChunkData(chunks);
    var id := TempId(chunks[0].requestId, key);
    if io.WriteOk? && ChecksumOk(ExpectedChecksum(chunks), data) {
      assert Named(id, key);
      InsertBreaks(s, Remote(id), key, data, now, i);
    } else {
      LostFile(StreamPrepare(s, chunks, io, now).0, i);
    }
  }

  /** Exactly the steps that disturb nothing claimed keep files and temp objects in step; for the
      collector those are the sweeps at which no claimed file has reached its age. */
  lemma CoherenceIsExact(s: Store, op: Op)
    requires Coherent(s)
    ensures Coherent(Do(s, op)) <==> !Disturbs(s, op)
  {
    if Disturbs(s, op) {
      DisturbanceBreaks(s, op);
    } else {
      StepRefines(s, op);
    }
  }

  // ---------- whole runs ----------

  function After(s: Store, run: seq<Op>): Store
    decreases |run|
  {
    if run == [] then s else After(Do(s, run[0]), run[1..])
  }

  function IntendedAfter(t: Staging, run: seq<Op>): Staging
    decreases |run|
  {
    if run == [] then t else IntendedAfter(Intended(t, run[0]), run[1..])
  }

  ghost predicate NeverDisturbs(s: Store, run: seq<Op>)
    decreases |run|
  {
    run == [] || (!Disturbs(s, run[0]) && NeverDisturbs(Do(s, run[0]), run[1..]))
  }

  /** In every run without disturbance, files and temp objects stay one to one and the replica is,
      step by step, the intended staging table: what is visible is what was committed. */
  lemma {:induction false} RunRefines(s: Store, run: seq<Op>)
    requires Coherent(s) && NeverDisturbs(s, run)
    ensures Coherent(After(s, run)) && Abs(After(s, run)) == IntendedAfter(Abs(s), run)
    decreases |run|
  {
    if run != [] {
      StepRefines(s, run[0]);
      RunRefines(Do(s, run[0]), run[1..]);
    }
  }

  /** From an empty replica: every temp file has exactly one prepare or own write, and the other
      way round. */
  lemma RunFromEmpty(run: seq<Op>)
    requires NeverDisturbs(EMPTY_STORE, run)
    ensures var s := After(EMPTY_STORE, run);
            && s.temp.Keys == PendingKeys(s.pending) && OnePerKey(s.pending)
            && s.objects == IntendedAfter(Staging(map[], map[]), run).visible
  {
    assert Coherent(EMPTY_STORE);
    assert Abs(EMPTY_STORE) == Staging(map[], map[]);
    RunRefines(EMPTY_STORE, run);
  }

  /** Only commits, direct and own writes and deletes change visible bytes, in any state whatever.
      A commit that answers yes publishes the temp file of its prepare; one that answers no
      leaves visible bytes alone unless the directory sync after the rename was what failed. */
  lemma VisibleChanges(s: Store, op: Op)
    ensures !op.CommitOp? && !op.WriteOp? && !op.DeleteOp? && !op.PublishOp? ==> Do(s, op).objects == s.objects
    ensures op.CommitOp? && Commit(s, op.id, op.cio).1 ==>
              && Remote(op.id) in s.pending && s.pending[Remote(op.id)].key in s.temp
              && Do(s, op).objects == s.objects[s.pending[Remote(op.id)].key := s.temp[s.pending[Remote(op.id)].key].data]
    ensures op.CommitOp? && !Commit(s, op.id, op.cio).1 && !op.cio.SyncFails? ==> Do(s, op).objects == s.objects
  {
  }

  /** When each request answers success, in any state whatever. */
  lemma AnswersExactly(s: Store, requestId: nat, key: string, data: Bytes, checksum: Option<Digest>, chunks: seq<Chunk>,
                       io: WriteIo, cio: CommitIo, removes: bool, handle: nat, now: nat)
    ensures Prepare(s, requestId, key, data, checksum, io, now).1.Some?
            <==> ChecksumOk(checksum, data) && ValidObjectKey(key) && io.WriteOk?
    ensures StreamPrepare(s, chunks, io, now).1.Some?
            <==> chunks != [] && ValidObjectKey(chunks[0].key) && io.WriteOk?
                 && ChecksumOk(ExpectedChecksum(chunks), ChunkData(chunks))
    ensures WriteDirect(s, key, data, checksum, io, cio, now).1
            <==> ChecksumOk(checksum, data) && ValidObjectKey(key) && io.WriteOk? && cio.CommitOk?
    ensures Delete(s, key, removes).1 <==> ValidObjectKey(key) && (key in s.objects ==> removes)
    ensures Hold(s, handle, key, data, io, now).1 <==> Local(handle) !in s.pending && ValidObjectKey(key) && io.WriteOk?
  {
  }

  /** The checksum a stream is held to is that of its last chunk that is flagged and carries one. */
  lemma {:induction false} ExpectedExactly(chunks: seq<Chunk>)
    ensures ExpectedChecksum(chunks).None? <==> forall i :: 0 <= i < |chunks| ==> !Binding(chunks[i])
    ensures forall i :: 0 <= i < |chunks| && Binding(chunks[i]) && (forall j :: i < j < |chunks| ==> !Binding(chunks[j]))
              ==> ExpectedChecksum(chunks) == chunks[i].checksum
  {
    if chunks != [] {
      var n := |chunks| - 1;
      ExpectedExactly(chunks[..n]);
      assert forall i :: 0 <= i < n ==> chunks[..n][i] == chunks[i];
      if !Binding(chunks[n]) {
        forall i | 0 <= i < |chunks| && Binding(chunks[i]) && (forall j :: i < j < |chunks| ==> !Binding(chunks[j]))
          ensures ExpectedChecksum(chunks) == chunks[i].checksum
        {
          assert chunks[..n][i] == chunks[i];
        }
      }
    }
  }

  predicate Binding(c: Chunk) {
    c.isLast && c.checksum.Some?
  }

  /** The temp id a prepare answers with. */
  function Answers(s: Store, op: Op): Option<string> {
    match op
    case PrepareOp(requestId, key, data, checksum, io, now) => Prepare(s, requestId, key, data, checksum, io, now).1
    case StreamOp(chunks, io, now) => StreamPrepare(s, chunks, io, now).1
    case _ => None
  }

  lemma AbsentStaysAbsent(s: Store, op: Op, id: string)
    requires Remote(id) !in s.pending && Answers(s, op) != Some(id)
    ensures Remote(id) !in Do(s, op).pending
  {
  }

  ghost predicate NeverAnswers(s: Store, run: seq<Op>, id: string)
    decreases |run|
  {
    run == [] || (Answers(s, run[0]) != Some(id) && NeverAnswers(Do(s, run[0]), run[1..], id))
  }

  /** A temp id is consumed at most once: after a commit, whatever its answer, and any run
      in which no prepare hands the id out again, committing it answers no and does nothing. */
  lemma ConsumedOnce(s: Store, id: string, io: CommitIo, run: seq<Op>, io': CommitIo)
    requires NeverAnswers(Commit(s, id, io).0, run, id)
    ensures var later := After(Commit(s, id, io).0, run); Commit(later, id, io') == (later, false)
  {
    AbsentThroughout(Commit(s, id, io).0, run, id);
  }

  lemma {:induction false} AbsentThroughout(s: Store, run: seq<Op>, id: string)
    requires Remote(id) !in s.pending && NeverAnswers(s, run, id)
    ensures Remote(id) !in After(s, run).pending
    decreases |run|
  {
    if run != [] {
      AbsentStaysAbsent(s, run[0], id);
      AbsentThroughout(Do(s, run[0]), run[1..], id);
    }
  }

  // ---------- what disturbing does ----------

  /** The same prepare delivered twice: both deliveries answer yes, and yet nothing can be
      committed any more, because replacing the entry removed the file just written. */
  lemma RepeatedPrepareCannotCommit(s: Store, requestId: nat, key: string, data: Bytes, checksum: Option<Digest>,
                                    now1: nat, now2: nat, io: CommitIo)
    requires ValidObjectKey(key) && ChecksumOk(checksum, data)
    ensures var once := Prepare(s, requestId, key, data, checksum, WriteOk, now1).0;
            var (twice, answer) := Prepare(once, requestId, key, data, checksum, WriteOk, now2);
            && answer == Some(TempId(requestId, key))
            && !Commit(twice, TempId(requestId, key), io).1
            && Commit(twice, TempId(requestId, key), io).0.objects == s.objects
  {
  }

  /** Two requests preparing one key: committing the first publishes the second's bytes,
      and the second can no longer commit. */
  lemma SharedTempFile(s: Store, r1: nat, r2: nat, key: string, data1: Bytes, data2: Bytes, now1: nat, now2: nat, io: CommitIo)
    requires ValidObjectKey(key) && r1 != r2 && !Claimed(s, key) && Coherent(s)
    ensures var both := Prepare(Prepare(s, r1, key, data1, None, WriteOk, now1).0, r2, key, data2, None, WriteOk, now2).0;
            var first := Commit(both, TempId(r1, key), CommitOk);
            && first.1 && first.0.objects == s.objects[key := data2]
            && !Commit(first.0, TempId(r2, key), io).1
  {
    DistinctIds(r1, r2, key);
    assert Named(TempId(r1, key), key) && Named(TempId(r2, key), key);
    FreshId(s, TempId(r1, key), key);
    FreshId(s, TempId(r2, key), key);
  }

  lemma DistinctIds(r1: nat, r2: nat, key: string)
    requires r1 != r2
    ensures TempId(r1, key) != TempId(r2, key)
  {
    if TempId(r1, key) == TempId(r2, key) {
      var id := TempId(r1, key);
      var d1, d2 := Decimal(r1), Decimal(r2);
      assert |d1| == |d2|;
      assert d1 == id[..|d1|] && d2 == id[..|d2|];
      DecimalIsInjective(r1, r2);
    }
  }
}
