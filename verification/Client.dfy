/** The replication client: how a file becomes a chunk stream, and what its retry loop
    does to a prepare. */
module Client {
  import opened Text
  import opened MetadataDb
  import opened Replica
  import opened ReplicaRuns

  const CHUNK_SIZE := 64 * 1024

  /** How the file came out of the reader: nonempty reads of at most one buffer. */
  ghost predicate Reads(pieces: seq<Bytes>, file: Bytes) {
    Flatten(pieces) == file && forall i :: 0 <= i < |pieces| ==> 0 < |pieces[i]| <= CHUNK_SIZE
  }

  /** How far the sender got before a read failed: a first part of the file. */
  ghost predicate ReadsSome(pieces: seq<Bytes>, file: Bytes) {
    Flatten(pieces) <= file && forall i :: 0 <= i < |pieces| ==> 0 < |pieces[i]| <= CHUNK_SIZE
  }

  function ChunkOf(i: nat, key: string, requestId: nat, data: Bytes): Chunk {
    if i == 0 then Chunk(key, requestId, data, false, None) else Chunk("", 0, data, false, None)
  }

  function Chunks(key: string, requestId: nat, pieces: seq<Bytes>, checksum: Digest): seq<Chunk> {
    seq(|pieces|, i requires 0 <= i < |pieces| => ChunkOf(i, key, requestId, pieces[i]))
    + [Chunk("", 0, [], true, Some(checksum))]
  }

  /** The sending loop, over the reads that succeeded: only the first chunk carries the key and
      the request id, and a final empty chunk carries the checksum of the file, also after a
      read that failed.  A file that cannot be opened sends nothing at all. */
  method SendChunks(key: string, requestId: nat, opens: bool, pieces: seq<Bytes>, checksum: Digest) returns (sent: seq<Chunk>)
    ensures sent == if opens then Chunks(key, requestId, pieces, checksum) else []
  {
    sent := [];
    if !opens {
      return;
    }
    var isFirst := true;
    for i := 0 to |pieces|
      invariant isFirst <==> i == 0
      invariant |sent| == i && forall j :: 0 <= j < i ==> sent[j] == ChunkOf(j, key, requestId, pieces[j])
    {
      sent := sent + [Chunk(if isFirst then key else "", if isFirst then requestId else 0, pieces[i], false, None)];
      isFirst := false;
    }
    sent := sent + [Chunk("", 0, [], true, Some(checksum))];
  }

  lemma {:induction false} ChunkDataIsFlatten(chunks: seq<Chunk>, pieces: seq<Bytes>)
    requires |chunks| == |pieces| && forall i :: 0 <= i < |pieces| ==> chunks[i].data == pieces[i]
    ensures ChunkData(chunks) == Flatten(pieces)
  {
    if pieces != [] {
      var n := |pieces| - 1;
      ChunkDataIsFlatten(chunks[..n], pieces[..n]);
      FlattenSplit(pieces[..n], [pieces[n]]);
      assert pieces[..n] + [pieces[n]] == pieces;
      assert Flatten([pieces[n]]) == pieces[n] + Flatten<Byte>([]);
    }
  }

  /** What the replica assembles from the chunks: the bytes read, under the file's checksum. */
  lemma ChunksCarry(key: string, requestId: nat, pieces: seq<Bytes>, checksum: Digest)
    ensures var chunks := Chunks(key, requestId, pieces, checksum);
            && ChunkData(chunks) == Flatten(pieces) && ExpectedChecksum(chunks) == Some(checksum)
            && chunks[0].key == (if pieces == [] then "" else key)
            && (pieces != [] ==> chunks[0].requestId == requestId)
            && (forall i :: 0 <= i < |chunks| ==> (chunks[i].isLast <==> i == |pieces|))
            && (forall i :: 0 < i < |chunks| ==> chunks[i].key == "" && chunks[i].requestId == 0)
            && (forall i :: 0 <= i < |pieces| ==> chunks[i].data == pieces[i] && chunks[i].checksum == None)
  {
    ChunksLayout(key, requestId, pieces, checksum);
    var chunks := Chunks(key, requestId, pieces, checksum);
    var n := |pieces|;
    assert chunks[..n] + [chunks[n]] == chunks;
    ChunkDataIsFlatten(chunks[..n], pieces);
    assert chunks[..|chunks| - 1] == chunks[..n];
    assert ChunkData(chunks) == Flatten(pieces) + [] == Flatten(pieces);
  }

  lemma ChunksLayout(key: string, requestId: nat, pieces: seq<Bytes>, checksum: Digest)
    ensures var chunks := Chunks(key, requestId, pieces, checksum);
            && |chunks| == |pieces| + 1 && chunks[|pieces|] == Chunk("", 0, [], true, Some(checksum))
            && (forall i :: 0 <= i < |pieces| ==> chunks[i] == ChunkOf(i, key, requestId, pieces[i]))
  {
  }

  /** Streaming a nonempty file is the one-shot prepare of its bytes, however the reads
      split it.  An empty file is always refused: no chunk carries its key. */
  lemma StreamIsPrepare(s: Store, key: string, requestId: nat, file: Bytes, pieces: seq<Bytes>, io: WriteIo, now: nat)
    requires Reads(pieces, file) && key != []
    ensures StreamPrepare(s, Chunks(key, requestId, pieces, Sha256(file)), io, now)
            == if file == [] then (s, None) else Prepare(s, requestId, key, file, Some(Sha256(file)), io, now)
  {
    ChunksCarry(key, requestId, pieces, Sha256(file));
    if pieces != [] {
      assert file == pieces[0] + Flatten(pieces[1..]);
    }
  }

  /** A sender that stops at a failed read is always found out: the checksum it sends is that of
      the whole file.  Nothing stays behind on a replica that had no temp object for the key. */
  lemma CutReadIsRefused(s: Store, key: string, requestId: nat, file: Bytes, pieces: seq<Bytes>, io: WriteIo, now: nat)
    requires ReadsSome(pieces, file) && Flatten(pieces) != file
    ensures var (s', answer) := StreamPrepare(s, Chunks(key, requestId, pieces, Sha256(file)), io, now);
            answer == None && (Coherent(s) && !Claimed(s, key) ==> s' == s)
  {
    ChunksCarry(key, requestId, pieces, Sha256(file));
    if Coherent(s) && !Claimed(s, key) {
      DropUnused(s, key);
      DropWritten(s, key, Flatten(pieces), now);
    }
  }

  lemma DropWritten(s: Store, key: string, data: Bytes, now: nat)
    requires DropTemp(s, key) == s
    ensures DropTemp(s.(temp := s.temp[key := TempFile(data, now)]), key) == s
  {
    assert s.temp[key := TempFile(data, now)] - {key} == s.temp - {key};
  }

  // ---------- retries ----------

  /** What happened to one attempt of a unary call. */
  datatype Attempt = RequestLost | AnswerLost | Answered

  datatype Call = Call(store: Store, answer: Option<string>, deliveries: nat)

  /** The retry loop on a prepare that the replica accepts: lost attempts are repeated, up
      to `retries` more times, with the same request id. */
  function RetriedPrepare(s: Store, requestId: nat, key: string, data: Bytes, retries: nat, attempts: seq<Attempt>, now: nat): (c: Call)
    decreases retries
  {
    if attempts == [] then Call(s, None, 0)
    else match attempts[0]
      case Answered =>
        var (s', answer) := Prepare(s, requestId, key, data, Some(Sha256(data)), WriteOk, now);
        Call(s', answer, 1)
      case RequestLost =>
        if retries == 0 then Call(s, None, 0)
        else RetriedPrepare(s, requestId, key, data, retries - 1, attempts[1..], now)
      case AnswerLost =>
        var s' := Prepare(s, requestId, key, data, Some(Sha256(data)), WriteOk, now).0;
        if retries == 0 then Call(s', None, 1)
        else
          var c := RetriedPrepare(s', requestId, key, data, retries - 1, attempts[1..], now);
          c.(deliveries := c.deliveries + 1)
  }

  /** The loop gets an answer at this attempt: it comes to it within its retries, every attempt
      before was lost, and this one was answered. */
  ghost predicate AnsweredAt(attempts: seq<Attempt>, retries: nat, i: nat) {
    i < |attempts| && i <= retries && attempts[i].Answered? && forall j :: 0 <= j < i ==> !attempts[j].Answered?
  }

  /** Of the attempts before this one none got there. */
  ghost predicate NoneArrivedBefore(attempts: seq<Attempt>, i: nat)
    requires i <= |attempts|
  {
    forall j :: 0 <= j < i ==> attempts[j].RequestLost?
  }

  /** An answer comes if and only if the loop comes to an answered attempt and the replica accepts
      the key; and it was delivered once if and only if no request before it got there. */
  lemma {:induction false} AnsweredExactly(s: Store, requestId: nat, key: string, data: Bytes, retries: nat, attempts: seq<Attempt>, now: nat)
    ensures var c := RetriedPrepare(s, requestId, key, data, retries, attempts, now);
            && (c.answer.Some? <==> ValidObjectKey(key) && exists i: nat :: AnsweredAt(attempts, retries, i))
            && (c.answer.Some? ==> c.answer.value == TempId(requestId, key))
            && (forall i: nat :: AnsweredAt(attempts, retries, i) ==> (c.deliveries == 1 <==> NoneArrivedBefore(attempts, i)))
    decreases retries
  {
    if attempts == [] || attempts[0].Answered? {
      assert attempts != [] ==> AnsweredAt(attempts, retries, 0);
    } else if retries > 0 {
      var s' := if attempts[0].AnswerLost? then Prepare(s, requestId, key, data, Some(Sha256(data)), WriteOk, now).0 else s;
      AnsweredExactly(s', requestId, key, data, retries - 1, attempts[1..], now);
      AnswerWasDelivered(s', requestId, key, data, retries - 1, attempts[1..], now);
      forall i: nat | AnsweredAt(attempts, retries, i)
        ensures i > 0 && AnsweredAt(attempts[1..], retries - 1, i - 1)
        ensures NoneArrivedBefore(attempts, i) <==> attempts[0].RequestLost? && NoneArrivedBefore(attempts[1..], i - 1)
      {
        LaterAttempt(attempts, retries, i - 1);
      }
      var fewer: nat := retries - 1;
      if i: nat :| AnsweredAt(attempts[1..], fewer, i) {
        LaterAttempt(attempts, retries, i);
      }
    }
  }

  lemma LaterAttempt(attempts: seq<Attempt>, retries: nat, i: nat)
    requires attempts != [] && retries > 0 && !attempts[0].Answered?
    ensures AnsweredAt(attempts, retries, i + 1) <==> AnsweredAt(attempts[1..], retries - 1, i)
    ensures AnsweredAt(attempts, retries, i + 1) ==>
              (NoneArrivedBefore(attempts, i + 1) <==> attempts[0].RequestLost? && NoneArrivedBefore(attempts[1..], i))
  {
    var later := attempts[1..];
    assert forall j {:trigger attempts[j]} :: 0 < j < |attempts| ==> attempts[j] == later[j - 1];
    assert forall j {:trigger later[j]} :: 0 <= j < |later| ==> later[j] == attempts[j + 1];
  }

  /** Where the loop comes to an answered attempt, at least that one was delivered. */
  lemma {:induction false} AnswerWasDelivered(s: Store, requestId: nat, key: string, data: Bytes, retries: nat, attempts: seq<Attempt>, now: nat)
    ensures (exists i: nat :: AnsweredAt(attempts, retries, i)) ==>
              RetriedPrepare(s, requestId, key, data, retries, attempts, now).deliveries >= 1
    decreases retries
  {
    if i: nat :| AnsweredAt(attempts, retries, i) {
      if i > 0 {
        var s' := if attempts[0].AnswerLost? then Prepare(s, requestId, key, data, Some(Sha256(data)), WriteOk, now).0 else s;
        LaterAttempt(attempts, retries, i - 1);
        AnswerWasDelivered(s', requestId, key, data, retries - 1, attempts[1..], now);
      }
    }
  }

  /** After further deliveries of a prepare that is already pending its file is gone. */
  lemma {:induction false} RedeliveryLosesFile(s: Store, requestId: nat, key: string, data: Bytes, retries: nat, attempts: seq<Attempt>, now: nat)
    requires ValidObjectKey(key)
    requires Remote(TempId(requestId, key)) in s.pending && s.pending[Remote(TempId(requestId, key))].key == key
    ensures var c := RetriedPrepare(s, requestId, key, data, retries, attempts, now);
            && Remote(TempId(requestId, key)) in c.store.pending && c.store.pending[Remote(TempId(requestId, key))].key == key
            && (c.deliveries > 0 ==> key !in c.store.temp)
            && (c.deliveries == 0 ==> c.store == s)
    decreases retries
  {
    if attempts != [] && retries > 0 && !attempts[0].Answered? {
      var s' := if attempts[0].AnswerLost? then Prepare(s, requestId, key, data, Some(Sha256(data)), WriteOk, now).0 else s;
      RedeliveryLosesFile(s', requestId, key, data, retries - 1, attempts[1..], now);
    }
  }

  /** A prepare that the client was told succeeded can be committed exactly when it was
      delivered once: a retry after a lost answer destroys what it is meant to repeat. */
  lemma {:induction false} RetriedPrepareCommits(s: Store, requestId: nat, key: string, data: Bytes, retries: nat, attempts: seq<Attempt>, now: nat, cio: CommitIo)
    requires Coherent(s) && !Claimed(s, key) && ValidObjectKey(key)
    ensures var c := RetriedPrepare(s, requestId, key, data, retries, attempts, now);
            c.answer.Some? ==>
              && c.answer == Some(TempId(requestId, key)) && c.deliveries >= 1
              && (Commit(c.store, c.answer.value, cio).1 <==> c.deliveries == 1 && cio.CommitOk?)
              && Commit(c.store, c.answer.value, cio).0.objects
                 == if c.deliveries == 1 && !cio.RenameFails? then s.objects[key := data] else s.objects
    decreases retries
  {
    assert Named(TempId(requestId, key), key);
    FreshId(s, TempId(requestId, key), key);
    if attempts != [] && retries > 0 {
      if attempts[0].RequestLost? {
        RetriedPrepareCommits(s, requestId, key, data, retries - 1, attempts[1..], now, cio);
      } else if attempts[0].AnswerLost? {
        var s' := Prepare(s, requestId, key, data, Some(Sha256(data)), WriteOk, now).0;
        RedeliveryLosesFile(s', requestId, key, data, retries - 1, attempts[1..], now);
        AnswerMeansDelivered(s', requestId, key, data, retries - 1, attempts[1..], now);
        RetryHidesNothing(s', requestId, key, data, retries - 1, attempts[1..], now);
      }
    }
  }

  /** Delivered at most once, the retry loop is a single prepare or nothing. */
  lemma {:induction false} OnceIsPrepare(s: Store, requestId: nat, key: string, data: Bytes, retries: nat, attempts: seq<Attempt>, now: nat)
    ensures var c := RetriedPrepare(s, requestId, key, data, retries, attempts, now);
            var once := Prepare(s, requestId, key, data, Some(Sha256(data)), WriteOk, now);
            && (c.deliveries == 0 ==> c.store == s && c.answer == None)
            && (c.deliveries == 1 ==> c.store == once.0 && (c.answer.Some? ==> c.answer == once.1))
    decreases retries
  {
    if attempts != [] && retries > 0 && !attempts[0].Answered? {
      var s' := if attempts[0].AnswerLost? then Prepare(s, requestId, key, data, Some(Sha256(data)), WriteOk, now).0 else s;
      OnceIsPrepare(s', requestId, key, data, retries - 1, attempts[1..], now);
    }
  }

  lemma {:induction false} InvalidKeyNoAnswer(s: Store, requestId: nat, key: string, data: Bytes, retries: nat, attempts: seq<Attempt>, now: nat)
    requires !ValidObjectKey(key)
    ensures RetriedPrepare(s, requestId, key, data, retries, attempts, now).answer == None
    decreases retries
  {
    if attempts != [] && retries > 0 && !attempts[0].Answered? {
      InvalidKeyNoAnswer(s, requestId, key, data, retries - 1, attempts[1..], now);
    }
  }

  /** No number of deliveries changes visible bytes. */
  lemma {:induction false} RetryHidesNothing(s: Store, requestId: nat, key: string, data: Bytes, retries: nat, attempts: seq<Attempt>, now: nat)
    ensures RetriedPrepare(s, requestId, key, data, retries, attempts, now).store.objects == s.objects
    decreases retries
  {
    if attempts != [] && retries > 0 && !attempts[0].Answered? {
      var s' := if attempts[0].AnswerLost? then Prepare(s, requestId, key, data, Some(Sha256(data)), WriteOk, now).0 else s;
      RetryHidesNothing(s', requestId, key, data, retries - 1, attempts[1..], now);
    }
  }

  lemma {:induction false} AnswerMeansDelivered(s: Store, requestId: nat, key: string, data: Bytes, retries: nat, attempts: seq<Attempt>, now: nat)
    ensures var c := RetriedPrepare(s, requestId, key, data, retries, attempts, now);
            c.answer.Some? ==> c.deliveries >= 1 && c.answer == Some(TempId(requestId, key))
    decreases retries
  {
    if attempts != [] && retries > 0 && !attempts[0].Answered? {
      var s' := if attempts[0].AnswerLost? then Prepare(s, requestId, key, data, Some(Sha256(data)), WriteOk, now).0 else s;
      AnswerMeansDelivered(s', requestId, key, data, retries - 1, attempts[1..], now);
    }
  }
}
