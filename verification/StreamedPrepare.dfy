/** A streaming prepare end to end: the client's chunks, framed, collected by the server,
    parsed leniently and handed to the replica.  A body that breaks off is refused when it is
    collected; a body that ends properly but short is not recognised as short. */
module StreamedPrepare {
  import opened Text
  import opened Replica
  import opened Client
  import opened Framing

  /** What collecting the request body gives: all the bytes up to its end, or a failure. */
  datatype Body = Collected(bytes: Bytes) | FailedToRead

  /** The server side: collect the body, parse it leniently, call the service. */
  function Receive(s: Store, body: Body, decode: Bytes -> Option<Chunk>, io: WriteIo, now: nat): (Store, Option<string>) {
    match body
    case FailedToRead => (s, None)
    case Collected(bytes) =>
      match DecodeAll(RunOf(bytes).frames, decode)
      case None => (s, None)
      case Some(chunks) => StreamPrepare(s, chunks, io, now)
  }

  /** The handler: nothing reaches the replica unless the whole body was read and parsed. */
  method HandleStreamPrepare(service: ReplicationService, body: Body, decode: Bytes -> Option<Chunk>, io: WriteIo, now: nat)
    returns (tempId: Option<string>)
    modifies service
    ensures (service.State(), tempId) == Receive(old(service.State()), body, decode, io, now)
  {
    if body.FailedToRead? {
      return None;
    }
    var chunks := ParseLenient(body.bytes, decode);
    if chunks.None? {
      return None;
    }
    tempId := service.StreamPrepareObject(chunks.value, io, now);
  }

  function Encoded(chunks: seq<Chunk>, encode: Chunk -> Bytes): (messages: seq<Bytes>)
    ensures |messages| == |chunks| && forall i :: 0 <= i < |messages| ==> messages[i] == encode(chunks[i])
  {
    seq(|chunks|, i requires 0 <= i < |chunks| => encode(chunks[i]))
  }

  /** Message encoding that loses nothing and fits the length field, for these chunks. */
  ghost predicate Codes(chunks: seq<Chunk>, encode: Chunk -> Bytes, decode: Bytes -> Option<Chunk>) {
    forall c :: c in chunks ==> decode(encode(c)) == Some(c) && |encode(c)| < U32
  }

  lemma {:induction false} DecodesBack(chunks: seq<Chunk>, encode: Chunk -> Bytes, decode: Bytes -> Option<Chunk>)
    requires Codes(chunks, encode, decode)
    ensures DecodeAll(Plain(Encoded(chunks, encode)), decode) == Some(chunks)
  {
    if chunks != [] {
      var end := |chunks| - 1;
      DecodesBack(chunks[..end], encode, decode);
      var frames := Plain(Encoded(chunks, encode));
      assert frames[..end] == Plain(Encoded(chunks[..end], encode));
      assert chunks == chunks[..end] + [chunks[end]];
    }
  }

  lemma {:induction false} NoChecksumYet(chunks: seq<Chunk>)
    requires forall c :: c in chunks ==> !c.isLast
    ensures ExpectedChecksum(chunks) == None
  {
    if chunks != [] {
      NoChecksumYet(chunks[..|chunks| - 1]);
    }
  }

  /** The chunks before the final one are an unchecked prepare of what they carry. */
  lemma PrefixIsUncheckedPrepare(s: Store, key: string, requestId: nat, pieces: seq<Bytes>, checksum: Digest, k: nat, io: WriteIo, now: nat)
    requires key != [] && 0 < k <= |pieces|
    ensures StreamPrepare(s, Chunks(key, requestId, pieces, checksum)[..k], io, now)
            == Prepare(s, requestId, key, Flatten(pieces[..k]), None, io, now)
  {
    var chunks := Chunks(key, requestId, pieces, checksum)[..k];
    assert forall i :: 0 <= i < k ==> chunks[i] == ChunkOf(i, key, requestId, pieces[i]);
    ChunkDataIsFlatten(chunks, pieces[..k]);
    NoChecksumYet(chunks);
    assert chunks[0].key == key;
  }

  /** What a replica makes of a request of which the first `n` bytes arrive.  If the body then
      breaks off, it refuses and nothing changes.  If it ends there, it refuses with no whole
      chunk; prepares the checked file with all of them; and in between prepares, unchecked
      and successfully, just the part of the file that arrived. */
  lemma CutPrepare(s: Store, key: string, requestId: nat, file: Bytes, pieces: seq<Bytes>, n: nat, endsThere: bool,
                   encode: Chunk -> Bytes, decode: Bytes -> Option<Chunk>, io: WriteIo, now: nat)
    requires Reads(pieces, file) && key != []
    requires Codes(Chunks(key, requestId, pieces, Sha256(file)), encode, decode)
    requires n <= |Wire(Plain(Encoded(Chunks(key, requestId, pieces, Sha256(file)), encode)))|
    ensures var sent := Chunks(key, requestId, pieces, Sha256(file));
            var frames := Plain(Encoded(sent, encode));
            var k := Arrived(frames, n);
            Receive(s, if endsThere then Collected(Wire(frames)[..n]) else FailedToRead, decode, io, now) ==
            if !endsThere || file == [] || k == 0 then (s, None)
            else if k <= |pieces| then Prepare(s, requestId, key, Flatten(pieces[..k]), None, io, now)
            else Prepare(s, requestId, key, file, Some(Sha256(file)), io, now)
  {
    var sent := Chunks(key, requestId, pieces, Sha256(file));
    CutDelivers(s, sent, n, encode, decode, io, now);
    PrefixPrepares(s, key, requestId, file, pieces, Arrived(Plain(Encoded(sent, encode)), n), io, now);
  }

  /** The service is handed exactly the chunks that arrived whole. */
  lemma CutDelivers(s: Store, sent: seq<Chunk>, n: nat, encode: Chunk -> Bytes, decode: Bytes -> Option<Chunk>, io: WriteIo, now: nat)
    requires Codes(sent, encode, decode) && n <= |Wire(Plain(Encoded(sent, encode)))|
    ensures var frames := Plain(Encoded(sent, encode));
            Receive(s, Collected(Wire(frames)[..n]), decode, io, now) == StreamPrepare(s, sent[..Arrived(frames, n)], io, now)
  {
    var frames := Plain(Encoded(sent, encode));
    var k := Arrived(frames, n);
    assert forall i :: 0 <= i < |sent| ==> sent[i] in sent;
    CutStream(frames, n);
    assert forall c :: c in sent[..k] ==> c in sent;
    DecodesBack(sent[..k], encode, decode);
    assert Plain(Encoded(sent[..k], encode)) == frames[..k];
  }

  lemma PrefixPrepares(s: Store, key: string, requestId: nat, file: Bytes, pieces: seq<Bytes>, k: nat, io: WriteIo, now: nat)
    requires Reads(pieces, file) && key != [] && k <= |pieces| + 1
    ensures StreamPrepare(s, Chunks(key, requestId, pieces, Sha256(file))[..k], io, now) ==
            if file == [] || k == 0 then (s, None)
            else if k <= |pieces| then Prepare(s, requestId, key, Flatten(pieces[..k]), None, io, now)
            else Prepare(s, requestId, key, file, Some(Sha256(file)), io, now)
  {
    var sent := Chunks(key, requestId, pieces, Sha256(file));
    EmptyFile(pieces, file);
    if 0 < k <= |pieces| {
      PrefixIsUncheckedPrepare(s, key, requestId, pieces, Sha256(file), k, io, now);
    } else if 0 < k {
      assert sent[..k] == sent;
      StreamIsPrepare(s, key, requestId, file, pieces, io, now);
    }
  }

  lemma EmptyFile(pieces: seq<Bytes>, file: Bytes)
    requires Reads(pieces, file)
    ensures file == [] <==> pieces == []
  {
  }

  /** So the cut goes unnoticed exactly when some but not all of the data chunks arrive: the
      prepared bytes are then not the file. */
  lemma CutLosesBytes(file: Bytes, pieces: seq<Bytes>, k: nat)
    requires Reads(pieces, file) && k <= |pieces|
    ensures Flatten(pieces[..k]) == file <==> k == |pieces|
  {
    if k < |pieces| {
      FlattenSplit(pieces[..k], pieces[k..]);
      assert pieces == pieces[..k] + pieces[k..];
      assert Flatten(pieces[k..]) == pieces[k] + Flatten(pieces[k..][1..]);
    } else {
      assert pieces[..k] == pieces;
    }
  }
}
