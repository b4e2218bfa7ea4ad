/** The multipart handlers on the flat metadata table, and what their runs mean for uploads,
    parts and part files. */
module PartHandlers {
  import opened Text
  import opened MetadataDb
  import opened UploadKeys
  import opened Multipart
  import opened Gc
  import opened Assembly
  import opened UploadRuns

  // ---------- what the handlers do ----------

  /** The table, the temp files and the existing part directories. */
  datatype Flat = Flat(db: Db, files: Files, dirs: set<string>)

  /** The upload is found and its records can be read. */
  ghost predicate Found(d: Decoder, db: Db, u: UploadMetadata) {
    Named(u) && GetOf(d, db, u).Ok?
  }

  ghost function FlatDo(d: Decoder, f: Flat, op: Op, data: Path): Flat {
    match op
    case InitiateOp(u, made) =>
      if !Named(u) || !ValidRequest(u) then f
      else f.(db := PutUpload(f.db, u), dirs := if made then f.dirs + {u.uploadId} else f.dirs)
    case PartOp(u, n, content, end, now) =>
      if !Found(d, f.db, u) || !ValidPartNumber(n) || u.uploadId !in f.dirs || end.NotCreated? then f
      else
        f.(db := if end.Stored? then PutPart(f.db, u, PartMetadata(n, Sha256(content), |content|)) else f.db,
           files := f.files[PartPath(data, u.uploadId, n) := File(LeftBehind(content, end), now)])
    case GcOp(now, maxAge, stuck, scans) =>
      if !scans || ActiveSeen(d, f.db).None? then f
      else f.(files := f.files - (Doomed(f.files, ActiveSeen(d, f.db).value, now, maxAge) - stuck))
    case RemoveOp(u, swept, dirGone) =>
      if !Found(d, f.db, u) then f
      else Flat(RemoveUpload(f.db, u), f.files - swept, if dirGone then f.dirs - {u.uploadId} else f.dirs)
    case FailedCompletionOp(u, swept, dirGone) =>
      if !Found(d, f.db, u) then f
      else f.(files := f.files - swept, dirs := if dirGone then f.dirs - {u.uploadId} else f.dirs)
  }

  ghost function FlatAfter(d: Decoder, f: Flat, run: seq<Op>, data: Path): Flat
    decreases |run|
  {
    if run == [] then f else FlatAfter(d, FlatDo(d, f, run[0], data), run[1..], data)
  }

  /** What completing an upload reads and assembles; the part files are those of the id asked for. */
  ghost function Completes(d: Decoder, f: Flat, data: Path, u: UploadMetadata): Option<Completion> {
    match GetOf(d, f.db, u)
    case Ok(upload) => Some(CompletionOf(f.files, data, Upload(u, upload.parts)))
    case _ => None
  }

  // ---------- what it means ----------

  ghost function Meaning(f: Flat): World {
    World(View(f.db), f.files, f.dirs)
  }

  ghost predicate InOrder(f: Flat, data: Path) {
    Tidy(f.db) && Sound(Meaning(f), data)
  }

  /** Whatever id a client asks for: if that id has a directory, the lookup finds an upload only if
      it is a known one that can be read. */
  lemma FoundExactly(d: Decoder, f: Flat, data: Path, u: UploadMetadata)
    requires InOrder(f, data) && u.uploadId in f.dirs
    ensures Found(d, f.db, u) <==> u in View(f.db) && Readable(d, View(f.db), u)
  {
    if Named(u) {
      NamedIsIssued(u);
      GetMeans(d, f.db, u);
    } else {
      assert u !in Meaning(f).uploads;
    }
  }

  lemma KnownIsFound(d: Decoder, f: Flat, data: Path, u: UploadMetadata)
    requires InOrder(f, data) && u in View(f.db)
    ensures Found(d, f.db, u) <==> Readable(d, View(f.db), u)
    ensures Issued(u)
  {
    assert u in Meaning(f).uploads;
    NamedIsIssued(u);
    GetMeans(d, f.db, u);
  }

  lemma InitiateMeans(d: Decoder, f: Flat, op: Op, data: Path)
    requires InOrder(f, data) && op.InitiateOp? && Legal(d, Meaning(f), op, data)
    ensures Tidy(FlatDo(d, f, op, data).db) && Meaning(FlatDo(d, f, op, data)) == Do(d, Meaning(f), op, data)
  {
    if Named(op.u) {
      NamedIsIssued(op.u);
      InitiateRefines(f.db, op.u);
    }
  }

  lemma PartMeans(d: Decoder, f: Flat, op: Op, data: Path)
    requires InOrder(f, data) && op.PartOp?
    ensures Tidy(FlatDo(d, f, op, data).db) && Meaning(FlatDo(d, f, op, data)) == Do(d, Meaning(f), op, data)
  {
    if op.u.uploadId in f.dirs {
      FoundExactly(d, f, data, op.u);
      if op.u in View(f.db) {
        RecordRefines(f.db, op.u, PartMetadata(op.n, Sha256(op.content), |op.content|));
      }
    }
  }

  lemma RemoveMeans(d: Decoder, f: Flat, op: Op, data: Path)
    requires InOrder(f, data) && op.RemoveOp? && Legal(d, Meaning(f), op, data)
    ensures Tidy(FlatDo(d, f, op, data).db) && Meaning(FlatDo(d, f, op, data)) == Do(d, Meaning(f), op, data)
  {
    KnownIsFound(d, f, data, op.u);
    RemoveRefines(f.db, op.u);
  }

  /** Every step of a handler or the collector does to the table and the files exactly what it
      means for the uploads. */
  lemma FlatStepMeans(d: Decoder, f: Flat, op: Op, data: Path)
    requires InOrder(f, data) && Legal(d, Meaning(f), op, data)
    ensures InOrder(FlatDo(d, f, op, data), data) && Meaning(FlatDo(d, f, op, data)) == Do(d, Meaning(f), op, data)
  {
    StepKeepsSound(d, Meaning(f), op, data);
    match op
    case InitiateOp(u, made) => InitiateMeans(d, f, op, data);
    case PartOp(u, n, content, end, now) => PartMeans(d, f, op, data);
    case GcOp(now, maxAge, stuck, scans) => ActiveSeenExactly(d, f.db);
    case RemoveOp(u, swept, dirGone) => RemoveMeans(d, f, op, data);
    case FailedCompletionOp(u, swept, dirGone) => KnownIsFound(d, f, data, u);
  }

  lemma {:induction false} FlatRunMeans(d: Decoder, f: Flat, run: seq<Op>, data: Path)
    requires InOrder(f, data) && LegalRun(d, Meaning(f), run, data)
    ensures InOrder(FlatAfter(d, f, run, data), data)
    ensures Meaning(FlatAfter(d, f, run, data)) == After(d, Meaning(f), run, data)
    decreases |run|
  {
    if run != [] {
      FlatStepMeans(d, f, run[0], data);
      FlatRunMeans(d, FlatDo(d, f, run[0], data), run[1..], data);
    }
  }

  lemma CompletesAsMeant(d: Decoder, f: Flat, data: Path, u: UploadMetadata)
    requires InOrder(f, data) && u in View(f.db)
    ensures Completes(d, f, data, u) == CompletionAt(d, Meaning(f), data, u)
  {
    assert u in Meaning(f).uploads;
    NamedIsIssued(u);
    GetMeans(d, f.db, u);
  }

  /** End to end: after every run of the handlers on a table that starts without uploads,
      completing a visible upload gives, from the flat table and the files, exactly what its
      history and the uploads nested in it say. */
  lemma TableCompletes(d: Decoder, f: Flat, run: seq<Op>, data: Path, u: UploadMetadata)
    requires Tidy(f.db) && Begins(Meaning(f), data) && LegalRun(d, Meaning(f), run, data)
    requires !Hidden(u) && u in View(FlatAfter(d, f, run, data).db)
    ensures var f' := FlatAfter(d, f, run, data);
            var a, view := AccountAfter(d, NOTHING, Meaning(f), run, data, u), View(f'.db);
            Completes(d, f', data, u) ==
            if Readable(d, view, u) then Some(Expected(a.recorded.Keys + StrayNumbers(d, view, u), a.disk)) else None
  {
    FlatRunMeans(d, f, run, data);
    CompletesAsMeant(d, FlatAfter(d, f, run, data), data, u);
    CompletionExactly(d, Meaning(f), run, data, u);
  }

  // ---------- the handlers ----------

  /** What the part handler answers before it touches the file, if it stops there. */
  ghost function Refusal(d: Decoder, db: Db, u: UploadMetadata, n: nat, hasDir: bool, io: PartIo): Option<PartOutcome> {
    if !Named(u) then Some(BadName)
    else if !ValidPartNumber(n) then Some(BadPartNumber)
    else
      match GetOf(d, db, u)
      case UploadNotFound => Some(NoSuchUpload)
      case Ok(_) => if hasDir && io.creates then None else Some(NoFile)
      case _ => Some(MetadataFailed)
  }

  /** How a part upload with this body ends once it gets to the file. */
  function EndOf(pieces: seq<Bytes>, io: PartIo): PartEnd {
    if !io.creates then NotCreated
    else if Verdict(Take(pieces, io), io).PartStored? then Stored
    else Left(|Take(pieces, io).written|)
  }

  /** What such an upload leaves in the file is what was written. */
  lemma LeavesWritten(pieces: seq<Bytes>, io: PartIo)
    requires io.creates
    ensures LeftBehind(Flatten(pieces), EndOf(pieces, io)) == Take(pieces, io).written
  {
    var written, all := Take(pieces, io).written, Flatten(pieces);
    assert written <= all;
    assert all[..|written|] == written;
  }

  datatype CompleteIo = CompleteIo(creates: bool, stores: bool, publishes: bool, removes: bool)

  datatype CompleteOutcome =
    | CompletedAs(content: Bytes, size: nat, etag: Digest)
    | Turned(reason: PartOutcome)
    | Empty
    | NoTempFile
    | PartMissing(n: nat)
    | Uncommitted

  /** What the completion handler answers once it has read the upload. */
  function OutcomeOf(c: Completion, io: CompleteIo): CompleteOutcome {
    match c
    case NoParts => Empty
    case MissingPart(n) => if io.creates then PartMissing(n) else NoTempFile
    case Completed(content, size, etag) =>
      if !io.creates then NoTempFile
      else if io.stores && io.publishes && io.removes then CompletedAs(content, size, etag)
      else Uncommitted
  }

  /** What it leaves behind: once the output file exists, every failure sweeps the part directory
      just like the success, but the records stay. */
  ghost function Settled(d: Decoder, f: Flat, data: Path, u: UploadMetadata, r: CompleteOutcome, swept: set<Path>, dirGone: bool): Flat {
    match r
    case CompletedAs(_, _, _) => FlatDo(d, f, RemoveOp(u, swept, dirGone), data)
    case PartMissing(_) => FlatDo(d, f, FailedCompletionOp(u, swept, dirGone), data)
    case Uncommitted => FlatDo(d, f, FailedCompletionOp(u, swept, dirGone), data)
    case _ => f
  }

  /** The upload is found and has parts: the numbers that reading it gives. */
  ghost predicate Complete(d: Decoder, f: Flat, u: UploadMetadata, numbers: set<nat>) {
    Found(d, f.db, u) && GetOf(d, f.db, u).value.parts.Keys == numbers
  }

  ghost predicate HasFile(f: Flat, data: Path, u: UploadMetadata, n: nat) {
    PartPath(data, u.uploadId, n) in f.files
  }

  /** When completion gives each of its answers, for an upload that reads as these numbers. */
  ghost predicate AnswersRight(f: Flat, data: Path, u: UploadMetadata, numbers: set<nat>, io: CompleteIo, r: CompleteOutcome) {
    var whole := forall n :: n in numbers ==> HasFile(f, data, u, n);
    var through := io.creates && io.stores && io.publishes && io.removes;
    && (r.CompletedAs? <==> numbers != {} && whole && through)
    && (r.Empty? <==> numbers == {})
    && (r.NoTempFile? <==> numbers != {} && !io.creates)
    && (r.PartMissing? <==> numbers != {} && io.creates && !whole)
    && (r.Uncommitted? <==> numbers != {} && whole && io.creates && !through)
    && (r.CompletedAs? ==>
          && r.content == Joined(f.files, data, u.uploadId, Ordered(numbers))
          && r.size == |r.content| && r.etag == Sha256(r.content))
    && (r.PartMissing? ==>
          r.n in numbers && !HasFile(f, data, u, r.n) && forall m :: m in numbers && !HasFile(f, data, u, m) ==> r.n <= m)
  }

  lemma OutcomeIsRight(d: Decoder, f: Flat, data: Path, u: UploadMetadata, numbers: set<nat>, io: CompleteIo)
    requires Complete(d, f, u, numbers)
    ensures Completes(d, f, data, u).Some?
    ensures AnswersRight(f, data, u, numbers, io, OutcomeOf(Completes(d, f, data, u).value, io))
  {
    MissingIsSmallest(f.files, data, u.uploadId, Ordered(numbers));
  }

  lemma {:induction false} MissingIsSmallest(files: Files, data: Path, id: string, ks: seq<nat>)
    requires Increasing(ks)
    ensures var missing := FirstMissing(files, data, id, ks);
            missing.Some? ==>
              && missing.value in ks && PartPath(data, id, missing.value) !in files
              && forall m :: m in ks && PartPath(data, id, m) !in files ==> missing.value <= m
  {
    if ks != [] && PartPath(data, id, ks[0]) in files {
      MissingIsSmallest(files, data, id, ks[1..]);
    } else if ks != [] {
      forall m | m in ks
        ensures ks[0] <= m
      {
        var i :| 0 <= i < |ks| && ks[i] == m;
      }
    }
  }

  /** When the part handler stores a part: everything asked for is valid and there, the body arrived
      whole and small enough, and every write went through. */
  ghost predicate StoresPart(d: Decoder, f: Flat, u: UploadMetadata, n: nat, pieces: seq<Bytes>, io: PartIo) {
    && ValidBucketName(u.bucket) && ValidObjectKey(u.key) && 1 <= n <= 10000
    && GetOf(d, f.db, u).Ok? && u.uploadId in f.dirs && io.creates
    && |Flatten(pieces)| <= 5 * 1024 * 1024 * 1024 && (io.writeFailsAt.Some? ==> |pieces| <= io.writeFailsAt.value)
    && !io.breaksOff && io.flushes && io.records
  }

  /** When the part handler turns a request away without touching anything, and with which answer. */
  ghost predicate TurnsAway(d: Decoder, f: Flat, u: UploadMetadata, n: nat, io: PartIo, r: PartOutcome) {
    var named, numbered := ValidBucketName(u.bucket) && ValidObjectKey(u.key), 1 <= n <= 10000;
    && (r == BadName <==> !named)
    && (r == BadPartNumber <==> named && !numbered)
    && (r == NoSuchUpload <==> named && numbered && GetOf(d, f.db, u) == UploadNotFound)
    && (r == MetadataFailed <==> named && numbered && (GetOf(d, f.db, u) == InvalidRequest || GetOf(d, f.db, u) == DecodeFailed))
    && (r == NoFile <==> named && numbered && GetOf(d, f.db, u).Ok? && !(u.uploadId in f.dirs && io.creates))
  }

  lemma PartIsRight(d: Decoder, f: Flat, u: UploadMetadata, n: nat, pieces: seq<Bytes>, io: PartIo)
    ensures var refusal := Refusal(d, f.db, u, n, u.uploadId in f.dirs, io);
            var r := if refusal.Some? then refusal.value else Verdict(Take(pieces, io), io);
            && TurnsAway(d, f, u, n, io, r)
            && (r.PartStored? <==> StoresPart(d, f, u, n, pieces, io))
            && (r.PartStored? ==> r.etag == Sha256(Flatten(pieces)))
            && (r == PartTooLarge ==> |Flatten(pieces)| > MAX_PART_SIZE)
            && (r == BodyFailed ==> io.breaksOff)
            && (r == NotRecorded ==> !io.records && !io.breaksOff && io.flushes && |Flatten(pieces)| <= MAX_PART_SIZE)
            && (r == WriteFailed ==> !io.flushes || (io.writeFailsAt.Some? && io.writeFailsAt.value < |pieces|))
  {
    TakeExactly(pieces, io);
  }

  class PartHandler {
    const store: UploadStore
    const data: Path
    var files: Files
    var dirs: set<string>

    ghost function State(): Flat
      reads this, store
    {
      Flat(store.db, files, dirs)
    }

    constructor (store: UploadStore, data: Path, files: Files, dirs: set<string>)
      ensures this.store == store && this.data == data && this.files == files && this.dirs == dirs
    {
      this.store := store;
      this.data := data;
      this.files := files;
      this.dirs := dirs;
    }

    /** Initiation records the upload first and then makes its part directory, which may fail
        and leave an upload without one. */
    method InitiateUpload(u: UploadMetadata, makesDir: bool) returns (ok: bool)
      modifies this`dirs, store
      ensures ok <==> Named(u) && ValidRequest(u) && makesDir
      ensures State() == FlatDo(store.decoder, old(State()), InitiateOp(u, makesDir), data)
    {
      if !Named(u) {
        return false;
      }
      var r := store.Initiate(u);
      ok := r.Ok? && makesDir;
      if ok {
        dirs := dirs + {u.uploadId};
      }
    }

    /** The part handler.  The body arrives in `pieces` and then ends or breaks off.  Creating
        the file needs the part directory; it truncates, so whatever fails later leaves what
        had been written, and the record stays as it was. */
    method UploadPart(u: UploadMetadata, n: nat, pieces: seq<Bytes>, io: PartIo, now: nat) returns (r: PartOutcome)
      modifies this`files, store
      ensures var refusal := Refusal(store.decoder, old(store.db), u, n, u.uploadId in dirs, io);
              r == if refusal.Some? then refusal.value else Verdict(Take(pieces, io), io)
      ensures TurnsAway(store.decoder, old(State()), u, n, io, r)
      ensures r.PartStored? <==> StoresPart(store.decoder, old(State()), u, n, pieces, io)
      ensures r.PartStored? ==> r.etag == Sha256(Flatten(pieces))
      ensures State() == FlatDo(store.decoder, old(State()), PartOp(u, n, Flatten(pieces), EndOf(pieces, io), now), data)
    {
      PartIsRight(store.decoder, State(), u, n, pieces, io);
      if !Named(u) {
        return BadName;
      }
      if !ValidPartNumber(n) {
        return BadPartNumber;
      }
      var upload := store.Get(u);
      if !upload.Ok? {
        return if upload.UploadNotFound? then NoSuchUpload else MetadataFailed;
      }
      if u.uploadId !in dirs || !io.creates {
        return NoFile;
      }
      var content, hashed, size, failure := ReceivePart(pieces, io);
      LeavesWritten(pieces, io);
      files := files[PartPath(data, u.uploadId, n) := File(content, now)];
      if failure.Some? {
        return failure.value;
      }
      if !io.records {
        return NotRecorded;
      }
      var recorded := store.RecordPart(u, PartMetadata(n, Sha256(hashed), size));
      r := PartStored(Sha256(hashed));
    }

    /** Abort: the records go first, then the part files that can be removed. */
    method AbortUpload(u: UploadMetadata, swept: set<Path>, dirGone: bool) returns (ok: bool)
      modifies this, store
      ensures ok <==> Found(store.decoder, old(store.db), u)
      ensures State() == FlatDo(store.decoder, old(State()), RemoveOp(u, swept, dirGone), data)
    {
      if !Named(u) {
        return false;
      }
      var upload := store.Get(u);
      if !upload.Ok? {
        return false;
      }
      DropUpload(u, swept, dirGone);
      ok := true;
    }

    method DropUpload(u: UploadMetadata, swept: set<Path>, dirGone: bool)
      requires Found(store.decoder, store.db, u)
      modifies this, store
      ensures State() == FlatDo(store.decoder, old(State()), RemoveOp(u, swept, dirGone), data)
    {
      var r := store.Abort(u);
      SweepParts(u, swept, dirGone);
    }

    method SweepParts(u: UploadMetadata, swept: set<Path>, dirGone: bool)
      modifies this`files, this`dirs
      ensures files == old(files) - swept
      ensures dirs == if dirGone then old(dirs) - {u.uploadId} else old(dirs)
    {
      files := files - swept;
      if dirGone {
        dirs := dirs - {u.uploadId};
      }
    }

    /** The cleanup guard of a completion that failed. */
    method FailCompletion(u: UploadMetadata, swept: set<Path>, dirGone: bool)
      requires Found(store.decoder, store.db, u)
      modifies this`files, this`dirs
      ensures State() == FlatDo(store.decoder, old(State()), FailedCompletionOp(u, swept, dirGone), data)
    {
      SweepParts(u, swept, dirGone);
    }

    /** Reads the upload and assembles its parts. */
    method Assemble(u: UploadMetadata) returns (c: Option<Completion>, reason: PartOutcome)
      ensures c == if Named(u) then Completes(store.decoder, State(), data, u) else None
      ensures c.Some? <==> Found(store.decoder, store.db, u)
      ensures c.None? ==>
                && (reason == BadName <==> !Named(u))
                && (reason == NoSuchUpload <==> Named(u) && GetOf(store.decoder, store.db, u) == UploadNotFound)
    {
      c, reason := None, BadName;
      if !Named(u) {
        return;
      }
      var upload := store.Get(u);
      if !upload.Ok? {
        reason := if upload.UploadNotFound? then NoSuchUpload else MetadataFailed;
        return;
      }
      var r := AssembleParts(files, data, Upload(u, upload.value.parts));
      c := Some(r);
    }

    /** Drop the records on success; sweep once the output file exists. */
    method Settle(u: UploadMetadata, r: CompleteOutcome, swept: set<Path>, dirGone: bool)
      requires Found(store.decoder, store.db, u)
      modifies this, store
      ensures store.db == if r.CompletedAs? then RemoveUpload(old(store.db), u) else old(store.db)
      ensures files == if r.CompletedAs? || r.PartMissing? || r.Uncommitted? then old(files) - swept else old(files)
      ensures dirs == if dirGone && (r.CompletedAs? || r.PartMissing? || r.Uncommitted?) then old(dirs) - {u.uploadId} else old(dirs)
      ensures State() == Settled(store.decoder, old(State()), data, u, r, swept, dirGone)
    {
      if r.CompletedAs? {
        DropUpload(u, swept, dirGone);
      } else if r.PartMissing? || r.Uncommitted? {
        FailCompletion(u, swept, dirGone);
      }
    }

    /** Completion: assemble, commit the object, publish its metadata, drop the records, sweep.
        The records are gone exactly if it succeeds; the part directory is swept exactly if it got
        as far as the output file. */
    method CompleteUpload(u: UploadMetadata, io: CompleteIo, swept: set<Path>, dirGone: bool) returns (r: CompleteOutcome)
      modifies this, store
      ensures r.Turned? <==> !Found(store.decoder, old(store.db), u)
      ensures r.Turned? ==>
                && (r.reason == BadName <==> !Named(u))
                && (r.reason == NoSuchUpload <==> Named(u) && GetOf(store.decoder, old(store.db), u) == UploadNotFound)
      ensures forall numbers :: Complete(store.decoder, old(State()), u, numbers) ==>
                AnswersRight(old(State()), data, u, numbers, io, r)
      ensures store.db == if r.CompletedAs? then RemoveUpload(old(store.db), u) else old(store.db)
      ensures files == if r.CompletedAs? || r.PartMissing? || r.Uncommitted? then old(files) - swept else old(files)
      ensures dirs == if dirGone && (r.CompletedAs? || r.PartMissing? || r.Uncommitted?) then old(dirs) - {u.uploadId} else old(dirs)
      ensures State() == Settled(store.decoder, old(State()), data, u, r, swept, dirGone)
    {
      var c, reason := Assemble(u);
      if c.None? {
        return Turned(reason);
      }
      OutcomeIsRight(store.decoder, State(), data, u, GetOf(store.decoder, store.db, u).value.parts.Keys, io);
      r := OutcomeOf(c.value, io);
      Settle(u, r, swept, dirGone);
    }
  }
}
