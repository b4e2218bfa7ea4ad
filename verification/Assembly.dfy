/** Receiving a part and assembling an object from its part files. */
module Assembly {
  import opened Text
  import opened MetadataDb
  import opened UploadKeys
  import opened Multipart
  import opened Gc

  const MAX_PART_SIZE: nat := 5 * 1024 * 1024 * 1024
  const MAX_PART_NUMBER: nat := 10000
  const BUFFER_SIZE: nat := 64 * 1024

  predicate ValidPartNumber(n: nat) {
    1 <= n <= MAX_PART_NUMBER
  }

  // ---------- numeric order ----------

  ghost predicate Increasing(ks: seq<nat>) {
    forall i, j :: 0 <= i < j < |ks| ==> ks[i] < ks[j]
  }

  ghost predicate IsSmallest(n: nat, numbers: set<nat>) {
    n in numbers && forall m :: m in numbers ==> n <= m
  }

  lemma {:induction false} HasSmallest(numbers: set<nat>)
    requires numbers != {}
    ensures exists n :: IsSmallest(n, numbers)
  {
    var x :| x in numbers;
    var rest := numbers - {x};
    assert numbers == rest + {x};
    if rest == {} {
      assert IsSmallest(x, numbers);
    } else {
      HasSmallest(rest);
      var y :| IsSmallest(y, rest);
      assert IsSmallest(if x < y then x else y, numbers);
    }
  }

  ghost function Smallest(numbers: set<nat>): (n: nat)
    requires numbers != {}
    ensures IsSmallest(n, numbers)
  {
    HasSmallest(numbers);
    var n :| IsSmallest(n, numbers);
    n
  }

  /** The order in which the part table is walked: ascending part numbers. */
  ghost function Ordered(numbers: set<nat>): (ks: seq<nat>)
    ensures Increasing(ks)
    ensures forall n :: n in ks <==> n in numbers
    decreases |numbers|
  {
    if numbers == {} then [] else var n := Smallest(numbers); [n] + Ordered(numbers - {n})
  }

  /** Walking a set of numbers smallest first. */
  method WalkAscending(numbers: set<nat>) returns (ks: seq<nat>)
    ensures ks == Ordered(numbers)
  {
    ks := [];
    var left := numbers;
    while left != {}
      invariant Ordered(numbers) == ks + Ordered(left)
      decreases |left|
    {
      var n := TakeSmallest(left);
      SmallestFirst(left, n);
      Shift(ks, n, Ordered(left - {n}));
      ks := ks + [n];
      left := left - {n};
    }
  }

  lemma Shift(ks: seq<nat>, n: nat, rest: seq<nat>)
    ensures ks + ([n] + rest) == ks + [n] + rest
  {
  }

  method TakeSmallest(numbers: set<nat>) returns (n: nat)
    requires numbers != {}
    ensures IsSmallest(n, numbers)
  {
    HasSmallest(numbers);
    n :| n in numbers && forall m :: m in numbers ==> n <= m;
  }

  lemma SmallestFirst(numbers: set<nat>, n: nat)
    requires IsSmallest(n, numbers)
    ensures Ordered(numbers) == [n] + Ordered(numbers - {n})
  {
    assert Smallest(numbers) == n;
  }

  // ---------- completion ----------

  datatype Completion = Completed(content: Bytes, size: nat, etag: Digest) | NoParts | MissingPart(n: nat)

  /** The part files of the given numbers one after the other. */
  function Joined(files: Files, data: Path, id: string, ks: seq<nat>): Bytes
    requires forall n :: n in ks ==> PartPath(data, id, n) in files
  {
    if ks == [] then []
    else Joined(files, data, id, ks[..|ks| - 1]) + files[PartPath(data, id, ks[|ks| - 1])].content
  }

  function FirstMissing(files: Files, data: Path, id: string, ks: seq<nat>): (m: Option<nat>)
    ensures m.None? <==> forall n :: n in ks ==> PartPath(data, id, n) in files
  {
    if ks == [] then None
    else if PartPath(data, id, ks[0]) !in files then Some(ks[0])
    else FirstMissing(files, data, id, ks[1..])
  }

  /** Assembling the part files of these numbers. */
  ghost function Assembled(files: Files, data: Path, id: string, numbers: set<nat>): Completion {
    if numbers == {} then NoParts
    else
      match FirstMissing(files, data, id, Ordered(numbers))
      case Some(n) => MissingPart(n)
      case None => var all := Joined(files, data, id, Ordered(numbers)); Completed(all, |all|, Sha256(all))
  }

  /** Completion goes by the numbers of the part table alone. */
  ghost function CompletionOf(files: Files, data: Path, upload: Upload): Completion {
    Assembled(files, data, upload.metadata.uploadId, upload.parts.Keys)
  }

  /** The copy loop: any split of the part into reads of at most one buffer. */
  method CopyPart(content: Bytes, out: Bytes, hashed: Bytes, size: nat)
    returns (out': Bytes, hashed': Bytes, size': nat)
    ensures out' == out + content && hashed' == hashed + content && size' == size + |content|
  {
    out', hashed', size' := out, hashed, size;
    var rest := content;
    while rest != []
      invariant out' + rest == out + content
      invariant hashed' + rest == hashed + content
      invariant size' + |rest| == size + |content|
      decreases |rest|
    {
      var n: nat :| 0 < n <= |rest| && n <= BUFFER_SIZE;
      hashed' := hashed' + rest[..n];
      size' := size' + n;
      out' := out' + rest[..n];
      rest := rest[n..];
    }
  }

  lemma WalkStep(files: Files, data: Path, id: string, ks: seq<nat>, i: nat)
    requires i < |ks| && forall n :: n in ks[..i] ==> PartPath(data, id, n) in files
    ensures var path := PartPath(data, id, ks[i]);
            if path !in files then FirstMissing(files, data, id, ks[i..]) == Some(ks[i])
            else
              && FirstMissing(files, data, id, ks[i..]) == FirstMissing(files, data, id, ks[i + 1..])
              && (forall n :: n in ks[..i + 1] ==> PartPath(data, id, n) in files)
              && Joined(files, data, id, ks[..i + 1]) == Joined(files, data, id, ks[..i]) + files[path].content
  {
    assert ks[i..][0] == ks[i] && ks[i..][1..] == ks[i + 1..];
    assert ks[..i + 1] == ks[..i] + [ks[i]] && ks[..i + 1][..i] == ks[..i];
  }

  /** The loop over the part files, ended by the first one that is missing. */
  method JoinFiles(files: Files, data: Path, id: string, ks: seq<nat>)
    returns (missing: Option<nat>, out: Bytes, hashed: Bytes, size: nat)
    ensures missing == FirstMissing(files, data, id, ks)
    ensures missing.None? ==> out == hashed == Joined(files, data, id, ks) && size == |out|
  {
    out, hashed, size, missing := [], [], 0, None;
    var i := 0;
    while i < |ks|
      invariant 0 <= i <= |ks|
      invariant forall n :: n in ks[..i] ==> PartPath(data, id, n) in files
      invariant FirstMissing(files, data, id, ks) == FirstMissing(files, data, id, ks[i..])
      invariant out == hashed == Joined(files, data, id, ks[..i]) && size == |out|
    {
      var path := PartPath(data, id, ks[i]);
      WalkStep(files, data, id, ks, i);
      if path !in files {
        missing := Some(ks[i]);
        return;
      }
      out, hashed, size := CopyPart(files[path].content, out, hashed, size);
      i := i + 1;
    }
    assert ks[..i] == ks && ks[i..] == [];
  }

  /** The assembling part of completion. */
  method AssembleParts(files: Files, data: Path, upload: Upload) returns (r: Completion)
    ensures r == CompletionOf(files, data, upload)
  {
    if upload.parts == map[] {
      return NoParts;
    }
    var ks := WalkAscending(upload.parts.Keys);
    var missing, out, hashed, size := JoinFiles(files, data, upload.metadata.uploadId, ks);
    r := if missing.Some? then MissingPart(missing.value) else Completed(out, size, Sha256(hashed));
  }

  // ---------- uploading one part ----------

  /** How the file system, the request body and the database behave during one part upload.
      The write of piece `writeFailsAt` fails after `partial` of its bytes. */
  datatype PartIo = PartIo(creates: bool, writeFailsAt: Option<nat>, partial: nat, breaksOff: bool, flushes: bool, records: bool)

  datatype PartOutcome =
    | PartStored(etag: Digest)
    | BadName
    | BadPartNumber
    | NoSuchUpload
    | MetadataFailed
    | NoFile
    | PartTooLarge
    | WriteFailed
    | BodyFailed
    | NotRecorded
  {
    /** Turned away before the part file was touched. */
    predicate Refused() {
      BadName? || BadPartNumber? || NoSuchUpload? || MetadataFailed? || NoFile?
    }
  }

  datatype IntakeEnd = Going | TooLarge | Unwritten

  /** What has reached the part file so far, and whether the loop goes on. */
  datatype Intake = Intake(written: Bytes, end: IntakeEnd)

  function Take(pieces: seq<Bytes>, io: PartIo): (t: Intake)
    ensures t.written <= Flatten(pieces)
    ensures t.end.Going? ==> t.written == Flatten(pieces) && |t.written| <= MAX_PART_SIZE
  {
    if pieces == [] then Intake([], Going)
    else
      var n := |pieces| - 1;
      var before, piece := Take(pieces[..n], io), pieces[n];
      TakePiece(pieces, n);
      assert pieces[..n + 1] == pieces;
      if !before.end.Going? then before
      else if |before.written| + |piece| > MAX_PART_SIZE then before.(end := TooLarge)
      else if io.writeFailsAt == Some(n) then
        Intake(before.written + piece[..if io.partial < |piece| then io.partial else |piece|], Unwritten)
      else Intake(before.written + piece, Going)
  }

  lemma TakePiece(pieces: seq<Bytes>, i: nat)
    requires i < |pieces|
    ensures Flatten(pieces[..i + 1]) == Flatten(pieces[..i]) + pieces[i]
  {
    var init, last := pieces[..i], [pieces[i]];
    assert pieces[..i + 1] == init + last;
    FlattenSplit(init, last);
    assert Flatten(last) == pieces[i] + Flatten<Byte>([]);
  }

  lemma {:induction false} TakeStops(pieces: seq<Bytes>, i: nat, io: PartIo)
    requires i <= |pieces| && !Take(pieces[..i], io).end.Going?
    ensures Take(pieces, io) == Take(pieces[..i], io)
    decreases |pieces|
  {
    if i < |pieces| {
      var n := |pieces| - 1;
      assert pieces[..n][..i] == pieces[..i];
      TakeStops(pieces[..n], i, io);
    } else {
      assert pieces[..i] == pieces;
    }
  }

  /** The loop takes the whole body if and only if it is not too large and no write fails; it
      stops for size only beyond the limit, and for a failed write only at that write. */
  lemma {:induction false} TakeExactly(pieces: seq<Bytes>, io: PartIo)
    ensures var t := Take(pieces, io); var fails := io.writeFailsAt.Some? && io.writeFailsAt.value < |pieces|;
            && (t.end.Going? <==> |Flatten(pieces)| <= MAX_PART_SIZE && !fails)
            && (t.end.Unwritten? <==> fails && |Flatten(pieces[..io.writeFailsAt.value + 1])| <= MAX_PART_SIZE)
            && (t.end.TooLarge? ==> |Flatten(pieces)| > MAX_PART_SIZE)
  {
    if pieces != [] {
      var n := |pieces| - 1;
      TakeExactly(pieces[..n], io);
      TakePiece(pieces, n);
      assert pieces[..n + 1] == pieces;
      if io.writeFailsAt.Some? && io.writeFailsAt.value < n {
        assert pieces[..n][..io.writeFailsAt.value + 1] == pieces[..io.writeFailsAt.value + 1];
      }
    }
  }

  /** What has been written when the loop ends: the pieces before the one that was too much, or up
      to where the failing write broke off. */
  lemma {:induction false} WrittenExactly(pieces: seq<Bytes>, io: PartIo)
    ensures var t := Take(pieces, io);
            && (t.end.Going? ==> t.written == Flatten(pieces))
            && (t.end.Unwritten? ==>
                  && io.writeFailsAt.Some? && io.writeFailsAt.value < |pieces|
                  && var i := io.writeFailsAt.value;
                     t.written == Flatten(pieces[..i]) + pieces[i][..if io.partial < |pieces[i]| then io.partial else |pieces[i]|])
            && (t.end.TooLarge? ==>
                  exists i :: 0 <= i < |pieces| && t.written == Flatten(pieces[..i])
                              && |Flatten(pieces[..i])| <= MAX_PART_SIZE < |Flatten(pieces[..i])| + |pieces[i]|)
  {
    if pieces != [] {
      var n := |pieces| - 1;
      WrittenExactly(pieces[..n], io);
      TakePiece(pieces, n);
      assert pieces[..n + 1] == pieces;
      var before := Take(pieces[..n], io);
      if before.end.Unwritten? {
        assert pieces[..n][..io.writeFailsAt.value] == pieces[..io.writeFailsAt.value];
      } else if before.end.TooLarge? {
        var i :| 0 <= i < n && before.written == Flatten(pieces[..n][..i])
                 && |Flatten(pieces[..n][..i])| <= MAX_PART_SIZE < |Flatten(pieces[..n][..i])| + |pieces[..n][i]|;
        assert pieces[..n][..i] == pieces[..i];
      } else {
        assert before.written == Flatten(pieces[..n]);
      }
    }
  }

  /** What the handler answers once the part file exists. */
  function Verdict(t: Intake, io: PartIo): PartOutcome {
    match t.end
    case TooLarge => PartTooLarge
    case Unwritten => WriteFailed
    case Going =>
      if io.breaksOff then BodyFailed
      else if !io.flushes then WriteFailed
      else if !io.records then NotRecorded
      else PartStored(Sha256(t.written))
  }

  /** The receiving loop: hash, count, check the size, write. */
  method ReceivePart(pieces: seq<Bytes>, io: PartIo) returns (content: Bytes, hashed: Bytes, size: nat, failure: Option<PartOutcome>)
    ensures content == Take(pieces, io).written
    ensures failure.None? ==> Take(pieces, io).end.Going? && !io.breaksOff && io.flushes
    ensures failure.None? ==> hashed == content && size == |content|
    ensures failure.Some? ==> failure.value == Verdict(Take(pieces, io), io) && !failure.value.Refused() && !failure.value.PartStored?
  {
    content, hashed, size, failure := [], [], 0, None;
    var i := 0;
    while i < |pieces|
      invariant 0 <= i <= |pieces|
      invariant Take(pieces[..i], io) == Intake(content, Going) && hashed == content && size == |content|
    {
      var piece := pieces[i];
      assert pieces[..i + 1][..i] == pieces[..i] && pieces[..i + 1][i] == piece;
      hashed := hashed + piece;
      size := size + |piece|;
      i := i + 1;
      if size > MAX_PART_SIZE {
        TakeStops(pieces, i, io);
        failure := Some(PartTooLarge);
        return;
      }
      if io.writeFailsAt == Some(i - 1) {
        content := content + piece[..if io.partial < |piece| then io.partial else |piece|];
        TakeStops(pieces, i, io);
        failure := Some(WriteFailed);
        return;
      }
      content := content + piece;
    }
    assert pieces[..i] == pieces;
    if io.breaksOff {
      failure := Some(BodyFailed);
    } else if !io.flushes {
      failure := Some(WriteFailed);
    }
  }
}
