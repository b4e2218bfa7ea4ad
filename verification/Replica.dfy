/** The replica side of two-phase replication: temp files, pending prepares that delete
    their temp file when dropped, commit, abort and stale cleanup. */
module Replica {
  import opened Text
  import opened MetadataDb

  // ---------- one replica's state ----------

  /** Who has a temp object: the table of pending prepares under a temp id, or a request of the
      node's own that is about to commit it. */
  datatype Owner = Remote(id: string) | Local(handle: nat)

  /** A live temp object owns the temp file of its key until it is committed or dropped. */
  datatype Pending = Pending(key: string, createdAt: nat)

  datatype TempFile = TempFile(data: Bytes, modified: nat)

  /** `temp` and `objects` are the files by storage key: both paths depend on the key
      alone.  `pending` holds the live temp objects: the prepares in the table and the node's
      own writes. */
  datatype Store = Store(temp: map<string, TempFile>, objects: map<string, Bytes>, pending: map<Owner, Pending>)

  const EMPTY_STORE := Store(map[], map[], map[])

  function TempId(requestId: nat, key: string): string {
    Decimal(requestId) + ":" + key
  }

  datatype WriteIo = NoTempDir | CreateFails | WriteFails | WriteOk

  /** `SyncFails`: the rename happened, the directory sync after it did not. */
  datatype CommitIo = RenameFails | SyncFails | CommitOk

  datatype Chunk = Chunk(key: string, requestId: nat, data: Bytes, isLast: bool, checksum: Option<Digest>)

  predicate ChecksumOk(expected: Option<Digest>, data: Bytes) {
    expected.None? || expected.value == Sha256(data)
  }

  // ---------- effects ----------

  /** Dropping an uncommitted temp object removes whatever file is at its temp path. */
  function DropTemp(s: Store, key: string): Store {
    s.(temp := s.temp - {key})
  }

  function WriteTemp(s: Store, key: string, data: Bytes, io: WriteIo, now: nat): (Store, bool) {
    if !ValidObjectKey(key) || io.NoTempDir? then (s, false)
    else if !io.WriteOk? then (DropTemp(s, key), false)
    else (s.(temp := s.temp[key := TempFile(data, now)]), true)
  }

  /** Inserting under an id that is already pending drops the previous entry. */
  function Insert(s: Store, o: Owner, key: string, now: nat): Store {
    var dropped := if o in s.pending then DropTemp(s, s.pending[o].key) else s;
    dropped.(pending := s.pending[o := Pending(key, now)])
  }

  function Prepare(s: Store, requestId: nat, key: string, data: Bytes, checksum: Option<Digest>, io: WriteIo, now: nat): (Store, Option<string>) {
    if !ChecksumOk(checksum, data) then (s, None)
    else
      var (s1, ok) := WriteTemp(s, key, data, io, now);
      if !ok then (s1, None) else (Insert(s1, Remote(TempId(requestId, key)), key, now), Some(TempId(requestId, key)))
  }

  function ChunkData(chunks: seq<Chunk>): Bytes {
    if chunks == [] then [] else ChunkData(chunks[..|chunks| - 1]) + chunks[|chunks| - 1].data
  }

  /** The checksum of the last chunk that is flagged last and carries one. */
  function ExpectedChecksum(chunks: seq<Chunk>): Option<Digest> {
    if chunks == [] then None
    else
      var c := chunks[|chunks| - 1];
      if c.isLast && c.checksum.Some? then c.checksum else ExpectedChecksum(chunks[..|chunks| - 1])
  }

  function StreamPrepare(s: Store, chunks: seq<Chunk>, io: WriteIo, now: nat): (Store, Option<string>) {
    if chunks == [] || chunks[0].key == [] then (s, None)
    else
      var key, id := chunks[0].key, TempId(chunks[0].requestId, chunks[0].key);
      var (s1, ok) := WriteTemp(s, key, ChunkData(chunks), io, now);
      if !ok then (s1, None)
      else if !ChecksumOk(ExpectedChecksum(chunks), ChunkData(chunks)) then (DropTemp(s1, key), None)
      else (Insert(s1, Remote(id), key, now), Some(id))
  }

  function CommitTemp(s: Store, key: string, io: CommitIo): (Store, bool) {
    if key !in s.temp || io.RenameFails? then (DropTemp(s, key), false)
    else (s.(temp := s.temp - {key}, objects := s.objects[key := s.temp[key].data]), io.CommitOk?)
  }

  /** Committing or dropping the temp object of one owner. */
  function CommitOf(s: Store, o: Owner, io: CommitIo): (Store, bool) {
    if o !in s.pending then (s, false)
    else CommitTemp(s.(pending := s.pending - {o}), s.pending[o].key, io)
  }

  function DropOf(s: Store, o: Owner): Store {
    if o !in s.pending then s
    else DropTemp(s.(pending := s.pending - {o}), s.pending[o].key)
  }

  function Commit(s: Store, id: string, io: CommitIo): (Store, bool) {
    CommitOf(s, Remote(id), io)
  }

  function Abort(s: Store, id: string): Store {
    DropOf(s, Remote(id))
  }

  /** The node stages a write of its own, under a handle not in use. */
  function Hold(s: Store, handle: nat, key: string, data: Bytes, io: WriteIo, now: nat): (Store, bool) {
    if Local(handle) in s.pending then (s, false)
    else
      var (s1, ok) := WriteTemp(s, key, data, io, now);
      if !ok then (s1, false) else (Insert(s1, Local(handle), key, now), true)
  }

  predicate Stale(o: Owner, p: Pending, now: nat, maxAge: nat) {
    o.Remote? && now >= p.createdAt + maxAge
  }

  /** The effect of visiting `ids` and dropping the stale ones among them. */
  function Sweep(s: Store, ids: set<Owner>, now: nat, maxAge: nat): Store {
    var stale := StaleIn(s.pending, ids, now, maxAge);
    s.(pending := s.pending - stale, temp := s.temp - KeysOf(s.pending, stale))
  }

  function StaleIn(pending: map<Owner, Pending>, ids: set<Owner>, now: nat, maxAge: nat): set<Owner> {
    set o | o in ids && o in pending && Stale(o, pending[o], now, maxAge)
  }

  function KeysOf(pending: map<Owner, Pending>, ids: set<Owner>): set<string> {
    set o | o in ids && o in pending :: pending[o].key
  }

  function Cleanup(s: Store, now: nat, maxAge: nat): Store {
    Sweep(s, s.pending.Keys, now, maxAge)
  }

  lemma KeysOfGrows(pending: map<Owner, Pending>, ids: set<Owner>, id: Owner)
    requires id in pending
    ensures KeysOf(pending, ids + {id}) == KeysOf(pending, ids) + {pending[id].key}
  {
    var a, b := KeysOf(pending, ids + {id}), KeysOf(pending, ids);
    forall k | k in b
      ensures k in a
    {
      var i :| i in ids && i in pending && pending[i].key == k;
      assert i in ids + {id};
    }
    assert id in ids + {id};
  }

  lemma SweepNone(s: Store, ids: set<Owner>, now: nat, maxAge: nat)
    requires ids == {}
    ensures Sweep(s, ids, now, maxAge) == s
  {
    assert s.pending - {} == s.pending && s.temp - {} == s.temp;
  }

  /** Visiting one more prepare aborts it when it is stale and does nothing otherwise. */
  lemma SweepOne(s: Store, ids: set<Owner>, id: Owner, now: nat, maxAge: nat)
    requires id in s.pending && id !in ids
    ensures Sweep(s, ids + {id}, now, maxAge)
            == if Stale(id, s.pending[id], now, maxAge) then DropOf(Sweep(s, ids, now, maxAge), id) else Sweep(s, ids, now, maxAge)
  {
    var stale := StaleIn(s.pending, ids, now, maxAge);
    if Stale(id, s.pending[id], now, maxAge) {
      KeysOfGrows(s.pending, stale, id);
      assert StaleIn(s.pending, ids + {id}, now, maxAge) == stale + {id};
      assert s.pending - (stale + {id}) == s.pending - stale - {id};
      var k := s.pending[id].key;
      assert s.temp - (KeysOf(s.pending, stale) + {k}) == s.temp - KeysOf(s.pending, stale) - {k};
    } else {
      assert StaleIn(s.pending, ids + {id}, now, maxAge) == stale;
    }
  }

  function WriteDirect(s: Store, key: string, data: Bytes, checksum: Option<Digest>, io: WriteIo, cio: CommitIo, now: nat): (Store, bool) {
    if !ChecksumOk(checksum, data) then (s, false)
    else
      var (s1, ok) := WriteTemp(s, key, data, io, now);
      if !ok then (s1, false) else CommitTemp(s1, key, cio)
  }

  /** A missing object counts as deleted; `removes` is the outcome for an existing one. */
  function Delete(s: Store, key: string, removes: bool): (Store, bool) {
    if !ValidObjectKey(key) || (key in s.objects && !removes) then (s, false)
    else (s.(objects := s.objects - {key}), true)
  }

  function FileAge(f: TempFile, now: nat): nat {
    if f.modified <= now then now - f.modified else 0
  }

  /** The temp files the collector takes at `now`, apart from those it fails to remove. */
  function Collectable(s: Store, now: nat, maxAge: nat, stuck: set<string>): set<string> {
    set k | k in s.temp && maxAge <= FileAge(s.temp[k], now) && k !in stuck
  }

  /** The collector sweeps the replica's temp directory without looking at the prepares. */
  function Collect(s: Store, now: nat, maxAge: nat, stuck: set<string>): Store {
    s.(temp := s.temp - Collectable(s, now, maxAge, stuck))
  }

  // ---------- the service ----------

  class ReplicationService {
    var temp: map<string, TempFile>
    var objects: map<string, Bytes>
    var pending: map<Owner, Pending>

    function State(): Store
      reads this
    {
      Store(temp, objects, pending)
    }

    constructor ()
      ensures State() == EMPTY_STORE
    {
      temp, objects, pending := map[], map[], map[];
    }

    method DropTempObject(key: string)
      modifies this`temp
      ensures temp == old(temp) - {key}
    {
      if key in temp {
        temp := temp - {key};
      }
    }

    method WriteTempObject(key: string, data: Bytes, io: WriteIo, now: nat) returns (ok: bool)
      modifies this
      ensures (State(), ok) == WriteTemp(old(State()), key, data, io, now)
    {
      if !ValidObjectKey(key) || io.NoTempDir? {
        return false;
      }
      if !io.WriteOk? {
        DropTempObject(key);
        return false;
      }
      temp := temp[key := TempFile(data, now)];
      ok := true;
    }

    method InsertPending(o: Owner, key: string, now: nat)
      modifies this
      ensures State() == Insert(old(State()), o, key, now)
    {
      if o in pending {
        var replaced := pending[o];
        pending := pending[o := Pending(key, now)];
        DropTempObject(replaced.key);
      } else {
        pending := pending[o := Pending(key, now)];
      }
    }

    method PrepareObject(requestId: nat, key: string, data: Bytes, checksum: Option<Digest>, io: WriteIo, now: nat)
      returns (tempId: Option<string>)
      modifies this
      ensures (State(), tempId) == Prepare(old(State()), requestId, key, data, checksum, io, now)
    {
      if !ChecksumOk(checksum, data) {
        return None;
      }
      var ok := WriteTempObject(key, data, io, now);
      if !ok {
        return None;
      }
      InsertPending(Remote(TempId(requestId, key)), key, now);
      tempId := Some(TempId(requestId, key));
    }

    method StreamPrepareObject(chunks: seq<Chunk>, io: WriteIo, now: nat) returns (tempId: Option<string>)
      modifies this
      ensures (State(), tempId) == StreamPrepare(old(State()), chunks, io, now)
    {
      if |chunks| == 0 || chunks[0].key == [] {
        return None;
      }
      var key := chunks[0].key;
      var written: Bytes := [];
      var expected: Option<Digest> := None;
      for i := 0 to |chunks|
        invariant written == ChunkData(chunks[..i])
        invariant expected == ExpectedChecksum(chunks[..i])
        invariant State() == old(State())
      {
        assert chunks[..i + 1][..i] == chunks[..i];
        if chunks[i].data != [] {
          written := written + chunks[i].data;
        }
        if chunks[i].isLast && chunks[i].checksum.Some? {
          expected := chunks[i].checksum;
        }
      }
      assert chunks[..|chunks|] == chunks;
      var ok := WriteTempObject(key, written, io, now);
      if !ok {
        return None;
      }
      if !ChecksumOk(expected, written) {
        DropTempObject(key);
        return None;
      }
      var id := TempId(chunks[0].requestId, key);
      InsertPending(Remote(id), key, now);
      tempId := Some(id);
    }

    method CommitTempObject(key: string, io: CommitIo) returns (ok: bool)
      modifies this
      ensures (State(), ok) == CommitTemp(old(State()), key, io)
    {
      if key !in temp || io.RenameFails? {
        DropTempObject(key);
        return false;
      }
      objects := objects[key := temp[key].data];
      temp := temp - {key};
      ok := io.CommitOk?;
    }

    method CommitOwned(o: Owner, io: CommitIo) returns (ok: bool)
      modifies this
      ensures (State(), ok) == CommitOf(old(State()), o, io)
    {
      if o !in pending {
        return false;
      }
      var p := pending[o];
      pending := pending - {o};
      ok := CommitTempObject(p.key, io);
    }

    method DropOwned(o: Owner)
      modifies this
      ensures State() == DropOf(old(State()), o)
    {
      if o in pending {
        var p := pending[o];
        pending := pending - {o};
        DropTempObject(p.key);
      }
    }

    method CommitObject(id: string, io: CommitIo) returns (ok: bool)
      modifies this
      ensures (State(), ok) == Commit(old(State()), id, io)
    {
      ok := CommitOwned(Remote(id), io);
    }

    method AbortObject(id: string)
      modifies this
      ensures State() == Abort(old(State()), id)
    {
      DropOwned(Remote(id));
    }

    /** A request of the node's own stages its temp object and keeps it in hand. */
    method HoldObject(handle: nat, key: string, data: Bytes, io: WriteIo, now: nat) returns (ok: bool)
      modifies this
      ensures (State(), ok) == Hold(old(State()), handle, key, data, io, now)
    {
      if Local(handle) in pending {
        return false;
      }
      ok := WriteTempObject(key, data, io, now);
      if ok {
        InsertPending(Local(handle), key, now);
      }
    }

    /** Visits the pending prepares one by one, in any order. */
    method CleanupStalePrepares(now: nat, maxAge: nat) returns (cleaned: nat)
      modifies this
      ensures State() == Cleanup(old(State()), now, maxAge)
      ensures cleaned == |old(pending).Keys| - |pending.Keys|
    {
      var left := pending.Keys;
      ghost var s := State();
      ghost var all := left;
      var initial := |left|;
      SweepNone(s, all - left, now, maxAge);
      while left != {}
        invariant left <= all
        invariant State() == Sweep(s, all - left, now, maxAge)
        decreases |left|
      {
        var id :| id in left;
        SweepOne(s, all - left, id, now, maxAge);
        if Stale(id, pending[id], now, maxAge) {
          DropOwned(id);
        }
        assert all - (left - {id}) == (all - left) + {id};
        left := left - {id};
      }
      assert all - left == all;
      SubsetIsSmaller(pending.Keys, s.pending.Keys);
      cleaned := initial - |pending.Keys|;
    }

    method WriteObject(key: string, data: Bytes, checksum: Option<Digest>, io: WriteIo, cio: CommitIo, now: nat)
      returns (ok: bool)
      modifies this
      ensures (State(), ok) == WriteDirect(old(State()), key, data, checksum, io, cio, now)
    {
      if !ChecksumOk(checksum, data) {
        return false;
      }
      ok := WriteTempObject(key, data, io, now);
      if ok {
        ok := CommitTempObject(key, cio);
      }
    }

    method DeleteObject(key: string, removes: bool) returns (ok: bool, wasPresent: bool)
      modifies this
      ensures (State(), ok) == Delete(old(State()), key, removes)
      ensures wasPresent <==> ValidObjectKey(key) && key in old(objects)
    {
      wasPresent := ValidObjectKey(key) && key in objects;
      if !ValidObjectKey(key) {
        ok := false;
        return;
      }
      if key in objects {
        if !removes {
          ok := false;
          return;
        }
        objects := objects - {key};
      } else {
        assert objects - {key} == objects;
      }
      ok := true;
    }
  }

  lemma {:induction false} SubsetIsSmaller(a: set<Owner>, b: set<Owner>)
    requires a <= b
    ensures |a| <= |b|
  {
    assert b == a + (b - a);
  }
}
