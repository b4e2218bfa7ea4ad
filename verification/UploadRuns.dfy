/** Whole runs of the multipart handlers and the collector: initiations under any keys, part
    uploads, re-uploads, failed attempts, aborts, completions and sweeps, in any order. */
module UploadRuns {
  import opened Text
  import opened MetadataDb
  import opened UploadKeys
  import opened Multipart
  import opened Gc
  import opened Assembly

  // ---------- steps ----------

  /** The uploads with their recorded parts, the temp files, and the ids whose part directory
      exists. */
  datatype World = World(uploads: map<UploadMetadata, Parts>, files: Files, dirs: set<string>)

  /** How a part upload ended: recorded, without a file, or with `written` bytes in the file
      and nothing recorded. */
  datatype PartEnd = Stored | NotCreated | Left(written: nat)

  /** `swept` are the files that the clean-up of an upload's part directory removed; `dirGone`
      says that it removed all of it.  `scans` says that the temp directory could be listed. */
  datatype Op =
    | InitiateOp(u: UploadMetadata, made: bool)
    | PartOp(u: UploadMetadata, n: nat, content: Bytes, end: PartEnd, now: nat)
    | GcOp(now: nat, maxAge: nat, stuck: set<Path>, scans: bool)
    | RemoveOp(u: UploadMetadata, swept: set<Path>, dirGone: bool)
    | FailedCompletionOp(u: UploadMetadata, swept: set<Path>, dirGone: bool)

  predicate Named(u: UploadMetadata) {
    ValidBucketName(u.bucket) && ValidObjectKey(u.key)
  }

  /** What a UUID is: a short text without colons that is neither a number nor `part`. */
  predicate IssuedId(id: string) {
    ValidUploadId(id) && ':' !in id && id != "part" && !DecimalText(id)
  }

  lemma NamedIsIssued(u: UploadMetadata)
    requires Named(u) && IssuedId(u.uploadId)
    ensures Issued(u) && ValidRequest(u)
  {
    assert forall c :: c in u.bucket ==> BucketChar(c);
  }

  /** A clean-up touches only its own directory, and only an empty directory goes. */
  ghost predicate Sweeps(w: World, data: Path, id: string, swept: set<Path>, dirGone: bool) {
    && (forall p :: p in swept ==> PartsDir(data, id) <= p)
    && (dirGone ==> forall n: nat :: PartPath(data, id, n) in w.files ==> PartPath(data, id, n) in swept)
  }

  /** Ids are fresh when they are issued; what is removed or completed could be read. */
  ghost predicate Legal(d: Decoder, w: World, op: Op, data: Path) {
    match op
    case InitiateOp(u, made) =>
      IssuedId(u.uploadId) && u.uploadId !in w.dirs && forall x :: x in w.uploads ==> x.uploadId != u.uploadId
    case PartOp(u, n, content, end, now) =>
      (end.Stored? ==> |content| <= MAX_PART_SIZE) && (end.Left? ==> end.written <= |content|)
    case GcOp(now, maxAge, stuck, scans) => true
    case RemoveOp(u, swept, dirGone) =>
      u in w.uploads && Readable(d, w.uploads, u) && Sweeps(w, data, u.uploadId, swept, dirGone)
    case FailedCompletionOp(u, swept, dirGone) =>
      u in w.uploads && Readable(d, w.uploads, u) && Sweeps(w, data, u.uploadId, swept, dirGone)
  }

  /** The part upload gets as far as its part file. */
  ghost predicate Reaches(d: Decoder, w: World, u: UploadMetadata, n: nat, end: PartEnd) {
    ValidPartNumber(n) && u in w.uploads && Readable(d, w.uploads, u) && u.uploadId in w.dirs && !end.NotCreated?
  }

  /** What a part upload leaves in the file. */
  function LeftBehind(content: Bytes, end: PartEnd): Bytes {
    if end.Left? && end.written <= |content| then content[..end.written] else content
  }

  ghost function Do(d: Decoder, w: World, op: Op, data: Path): World {
    match op
    case InitiateOp(u, made) =>
      if !Named(u) then w
      else w.(uploads := w.uploads[u := map[]], dirs := if made then w.dirs + {u.uploadId} else w.dirs)
    case PartOp(u, n, content, end, now) =>
      if !Reaches(d, w, u, n, end) then w
      else
        w.(uploads := if end.Stored? then w.uploads[u := WithPart(w.uploads[u], PartMetadata(n, Sha256(content), |content|))]
                      else w.uploads,
           files := w.files[PartPath(data, u.uploadId, n) := File(LeftBehind(content, end), now)])
    case GcOp(now, maxAge, stuck, scans) =>
      if !scans || !ListingWorks(d, w.uploads) then w
      else w.(files := w.files - (Doomed(w.files, ActiveIds(w.uploads), now, maxAge) - stuck))
    case RemoveOp(u, swept, dirGone) => Swept(w, u.uploadId, swept, dirGone).(uploads := Without(w.uploads, u))
    case FailedCompletionOp(u, swept, dirGone) => Swept(w, u.uploadId, swept, dirGone)
  }

  function Swept(w: World, id: string, swept: set<Path>, dirGone: bool): World {
    w.(files := w.files - swept, dirs := if dirGone then w.dirs - {id} else w.dirs)
  }

  ghost predicate LegalRun(d: Decoder, w: World, run: seq<Op>, data: Path)
    decreases |run|
  {
    run != [] ==> Legal(d, w, run[0], data) && LegalRun(d, Do(d, w, run[0], data), run[1..], data)
  }

  ghost function After(d: Decoder, w: World, run: seq<Op>, data: Path): World
    decreases |run|
  {
    if run == [] then w else After(d, Do(d, w, run[0], data), run[1..], data)
  }

  // ---------- what every step keeps ----------

  /** Names and ids are valid, ids differ, part numbers are in range, and part files lie in
      existing directories. */
  ghost predicate Sound(w: World, data: Path) {
    && SoundUploads(w.uploads)
    && (forall id :: id in w.dirs ==> IssuedId(id))
    && (forall id, n: nat :: PartPath(data, id, n) in w.files ==> id in w.dirs)
  }

  ghost predicate SoundUploads(uploads: map<UploadMetadata, Parts>) {
    && (forall u :: u in uploads ==> Named(u) && IssuedId(u.uploadId))
    && (forall x, y :: x in uploads && y in uploads && x.uploadId == y.uploadId ==> x == y)
    && (forall u, n :: u in uploads && n in uploads[u] ==> ValidPartNumber(n))
  }

  lemma StepKeepsUploads(d: Decoder, w: World, op: Op, data: Path)
    requires SoundUploads(w.uploads) && Legal(d, w, op, data)
    ensures SoundUploads(Do(d, w, op, data).uploads)
  {
    if op.PartOp? && Reaches(d, w, op.u, op.n, op.end) && op.end.Stored? {
      RecordingIsSound(w.uploads, op.u, PartMetadata(op.n, Sha256(op.content), |op.content|));
    }
  }

  lemma RecordingIsSound(uploads: map<UploadMetadata, Parts>, u: UploadMetadata, part: PartMetadata)
    requires SoundUploads(uploads) && u in uploads && ValidPartNumber(part.partNumber)
    ensures SoundUploads(uploads[u := WithPart(uploads[u], part)])
  {
  }

  lemma StepKeepsSound(d: Decoder, w: World, op: Op, data: Path)
    requires Sound(w, data) && Legal(d, w, op, data)
    ensures Sound(Do(d, w, op, data), data)
  {
    var w' := Do(d, w, op, data);
    StepKeepsUploads(d, w, op, data);
    forall id, n: nat | PartPath(data, id, n) in w'.files
      ensures id in w'.dirs
    {
      FileHasDir(d, w, op, data, id, n);
    }
  }

  lemma FileHasDir(d: Decoder, w: World, op: Op, data: Path, id: string, n: nat)
    requires Sound(w, data) && Legal(d, w, op, data) && PartPath(data, id, n) in Do(d, w, op, data).files
    ensures id in Do(d, w, op, data).dirs
  {
    if op.PartOp? && PartPath(data, id, n) == PartPath(data, op.u.uploadId, op.n) {
      PartPathIsInjective(data, id, n, op.u.uploadId, op.n);
    } else {
      assert PartPath(data, id, n) in w.files;
    }
  }

  lemma {:induction false} RunKeepsSound(d: Decoder, w: World, run: seq<Op>, data: Path)
    requires Sound(w, data) && LegalRun(d, w, run, data)
    ensures Sound(After(d, w, run, data), data)
    decreases |run|
  {
    if run != [] {
      StepKeepsSound(d, w, run[0], data);
      RunKeepsSound(d, Do(d, w, run[0], data), run[1..], data);
    }
  }

  // ---------- one upload's account ----------

  /** What the history of one upload says: the content of the last successful upload of each
      part, and what the last attempt or sweep left in each part file. */
  datatype Account = Account(recorded: map<nat, Bytes>, disk: map<nat, Bytes>)

  const NOTHING := Account(map[], map[])

  /** What a step leaves at one part file of the upload, if it touches it: some bytes, or no
      file. */
  ghost function Touch(d: Decoder, w: World, op: Op, data: Path, u: UploadMetadata, n: nat): Option<Option<Bytes>> {
    match op
    case PartOp(x, m, content, end, now) =>
      if x == u && m == n && Reaches(d, w, u, n, end) then Some(Some(LeftBehind(content, end))) else None
    case FailedCompletionOp(x, swept, dirGone) =>
      if x == u && PartPath(data, u.uploadId, n) in swept then Some(None) else None
    case _ => None
  }

  ghost function Track(d: Decoder, a: Account, w: World, op: Op, data: Path, u: UploadMetadata): Account {
    match op
    case InitiateOp(x, made) => if x == u then NOTHING else a
    case PartOp(x, n, content, end, now) =>
      if x != u || !Reaches(d, w, u, n, end) then a
      else Account(if end.Stored? then a.recorded[n := content] else a.recorded, a.disk[n := LeftBehind(content, end)])
    case GcOp(now, maxAge, stuck, scans) => a
    case RemoveOp(x, swept, dirGone) => if x == u then NOTHING else a
    case FailedCompletionOp(x, swept, dirGone) =>
      if x == u then a.(disk := map n | n in a.disk && PartPath(data, u.uploadId, n) !in swept :: a.disk[n]) else a
  }

  ghost function AccountAfter(d: Decoder, a: Account, w: World, run: seq<Op>, data: Path, u: UploadMetadata): Account
    decreases |run|
  {
    if run == [] then a else AccountAfter(d, Track(d, a, w, run[0], data, u), Do(d, w, run[0], data), run[1..], data, u)
  }

  ghost predicate RecordedAs(parts: Parts, recorded: map<nat, Bytes>) {
    && parts.Keys == recorded.Keys
    && forall n :: n in recorded ==> parts[n] == PartMetadata(n, Sha256(recorded[n]), |recorded[n]|)
  }

  ghost predicate OnDisk(files: Files, data: Path, u: UploadMetadata, disk: map<nat, Bytes>) {
    && (forall n: nat :: PartPath(data, u.uploadId, n) in files <==> n in disk)
    && (forall n: nat :: n in disk ==> files[PartPath(data, u.uploadId, n)].content == disk[n])
  }

  ghost predicate Tracked(w: World, data: Path, u: UploadMetadata, a: Account) {
    u in w.uploads ==> RecordedAs(w.uploads[u], a.recorded) && OnDisk(w.files, data, u, a.disk)
  }

  ghost predicate Faithful(w: World, data: Path, u: UploadMetadata, a: Account) {
    Sound(w, data) && Tracked(w, data, u, a)
  }

  /** A visible upload's account stays exact across every step of anybody. */
  lemma StepKeepsAccount(d: Decoder, w: World, op: Op, data: Path, u: UploadMetadata, a: Account)
    requires Faithful(w, data, u, a) && Legal(d, w, op, data) && !Hidden(u)
    ensures Faithful(Do(d, w, op, data), data, u, Track(d, a, w, op, data, u))
  {
    StepKeepsSound(d, w, op, data);
    match op
    case InitiateOp(x, made) => InitiateKeepsAccount(d, w, op, data, u, a);
    case PartOp(x, n, content, end, now) => PartKeepsAccount(d, w, op, data, u, a);
    case GcOp(now, maxAge, stuck, scans) => GcKeepsAccount(d, w, op, data, u, a);
    case RemoveOp(x, swept, dirGone) =>
      if x != u {
        SweepElsewhere(w, data, u, x, swept, dirGone, a);
      }
    case FailedCompletionOp(x, swept, dirGone) =>
      if x != u {
        SweepElsewhere(w, data, u, x, swept, dirGone, a);
      }
  }

  /** The removal of another upload takes no visible one along. */
  lemma VisibleStays(view: map<UploadMetadata, Parts>, u: UploadMetadata, x: UploadMetadata)
    requires u in view && !Hidden(u) && x != u
    ensures u in Without(view, x) && Without(view, x)[u] == view[u]
  {
    if Nested(x, u) {
      NestedIsHidden(x, u);
    }
  }

  lemma InitiateKeepsAccount(d: Decoder, w: World, op: Op, data: Path, u: UploadMetadata, a: Account)
    requires Faithful(w, data, u, a) && Legal(d, w, op, data) && op.InitiateOp?
    ensures Tracked(Do(d, w, op, data), data, u, Track(d, a, w, op, data, u))
  {
    if op.u == u {
      assert forall n: nat :: PartPath(data, u.uploadId, n) in w.files ==> u.uploadId in w.dirs;
    }
  }

  lemma PartKeepsAccount(d: Decoder, w: World, op: Op, data: Path, u: UploadMetadata, a: Account)
    requires Faithful(w, data, u, a) && op.PartOp?
    ensures Tracked(Do(d, w, op, data), data, u, Track(d, a, w, op, data, u))
  {
    if Reaches(d, w, op.u, op.n, op.end) && u in w.uploads {
      forall n: nat
        ensures PartPath(data, u.uploadId, n) == PartPath(data, op.u.uploadId, op.n) <==> u == op.u && n == op.n
      {
        OwnPath(w.uploads, data, u, n, op.u, op.n);
      }
      PutOnDisk(w.files, data, u, a.disk, op, LeftBehind(op.content, op.end));
      if u == op.u && op.end.Stored? {
        RecordedToo(w.uploads[u], a.recorded, op.n, op.content);
      }
    }
  }

  lemma OwnPath(uploads: map<UploadMetadata, Parts>, data: Path, u: UploadMetadata, n: nat, x: UploadMetadata, m: nat)
    requires SoundUploads(uploads) && u in uploads && x in uploads
    ensures PartPath(data, u.uploadId, n) == PartPath(data, x.uploadId, m) <==> u == x && n == m
  {
    if PartPath(data, u.uploadId, n) == PartPath(data, x.uploadId, m) {
      PartPathIsInjective(data, u.uploadId, n, x.uploadId, m);
    }
  }

  lemma RecordedToo(parts: Parts, recorded: map<nat, Bytes>, n: nat, content: Bytes)
    requires RecordedAs(parts, recorded)
    ensures RecordedAs(WithPart(parts, PartMetadata(n, Sha256(content), |content|)), recorded[n := content])
  {
  }

  lemma PutOnDisk(files: Files, data: Path, u: UploadMetadata, disk: map<nat, Bytes>, op: Op, left: Bytes)
    requires OnDisk(files, data, u, disk) && op.PartOp?
    requires forall n: nat :: PartPath(data, u.uploadId, n) == PartPath(data, op.u.uploadId, op.n) <==> u == op.u && n == op.n
    ensures OnDisk(files[PartPath(data, op.u.uploadId, op.n) := File(left, op.now)], data, u,
                   if u == op.u then disk[op.n := left] else disk)
  {
  }

  lemma GcKeepsAccount(d: Decoder, w: World, op: Op, data: Path, u: UploadMetadata, a: Account)
    requires Faithful(w, data, u, a) && op.GcOp? && !Hidden(u)
    ensures Tracked(Do(d, w, op, data), data, u, a)
  {
    var doomed := Doomed(w.files, ActiveIds(w.uploads), op.now, op.maxAge);
    if u in w.uploads {
      forall n: nat | PartPath(data, u.uploadId, n) in w.files
        ensures PartPath(data, u.uploadId, n) !in doomed
      {
        PartFileSpared(w.uploads, w.files, data, u, n, op.now, op.maxAge);
      }
    }
  }

  lemma SweepElsewhere(w: World, data: Path, u: UploadMetadata, x: UploadMetadata, swept: set<Path>, dirGone: bool, a: Account)
    requires Faithful(w, data, u, a) && x in w.uploads && x != u && Sweeps(w, data, x.uploadId, swept, dirGone) && !Hidden(u)
    ensures Tracked(Swept(w, x.uploadId, swept, dirGone), data, u, a)
    ensures Tracked(Swept(w, x.uploadId, swept, dirGone).(uploads := Without(w.uploads, x)), data, u, a)
  {
    if u in w.uploads {
      VisibleStays(w.uploads, u, x);
      forall n: nat
        ensures PartPath(data, u.uploadId, n) !in swept
      {
        var p, dir := PartPath(data, u.uploadId, n), PartsDir(data, x.uploadId);
        assert p[|data| + 2] == u.uploadId && dir[|data| + 2] == x.uploadId;
      }
    }
  }

  lemma {:induction false} RunKeepsAccount(d: Decoder, w: World, run: seq<Op>, data: Path, u: UploadMetadata, a: Account)
    requires Faithful(w, data, u, a) && LegalRun(d, w, run, data) && !Hidden(u)
    ensures Faithful(After(d, w, run, data), data, u, AccountAfter(d, a, w, run, data, u))
    decreases |run|
  {
    if run != [] {
      StepKeepsAccount(d, w, run[0], data, u, a);
      RunKeepsAccount(d, Do(d, w, run[0], data), run[1..], data, u, Track(d, a, w, run[0], data, u));
    }
  }

  // ---------- one part file ----------

  ghost predicate FileHolds(w: World, data: Path, u: UploadMetadata, n: nat, content: Bytes) {
    var p := PartPath(data, u.uploadId, n);
    p in w.files && w.files[p].content == content
  }

  /** The last of these steps that touched the part file, if any, left exactly this content. */
  ghost predicate Intact(d: Decoder, w: World, since: seq<Op>, data: Path, u: UploadMetadata, n: nat, content: Bytes, start: bool)
    decreases |since|
  {
    if since == [] then start
    else
      var touch := Touch(d, w, since[0], data, u, n);
      Intact(d, Do(d, w, since[0], data), since[1..], data, u, n, content,
             if touch.Some? then touch.value == Some(content) else start)
  }

  /** The upload is not removed and the part is not stored anew by these steps. */
  ghost predicate NotRenewed(since: seq<Op>, u: UploadMetadata, n: nat) {
    forall i :: 0 <= i < |since| ==>
      since[i].RemoveOp? || since[i].InitiateOp? || (since[i].PartOp? && since[i].end.Stored? && since[i].n == n) ==> since[i].u != u
  }

  /** For every visible upload and every run since a part was stored: its file holds the
      recorded content if and only if the last failed attempt or failed completion that touched
      it since, if any, left exactly those bytes. */
  lemma {:induction false} PartFileExactly(d: Decoder, w: World, since: seq<Op>, data: Path, u: UploadMetadata, a: Account, n: nat, start: bool)
    requires Faithful(w, data, u, a) && u in w.uploads && LegalRun(d, w, since, data) && !Hidden(u) && NotRenewed(since, u, n)
    requires n in a.recorded && (start <==> FileHolds(w, data, u, n, a.recorded[n]))
    ensures var w' := After(d, w, since, data); var a' := AccountAfter(d, a, w, since, data, u);
            && n in a'.recorded && a'.recorded[n] == a.recorded[n]
            && (FileHolds(w', data, u, n, a.recorded[n]) <==> Intact(d, w, since, data, u, n, a.recorded[n], start))
    decreases |since|
  {
    if since != [] {
      var op := since[0];
      StepKeepsAccount(d, w, op, data, u, a);
      TouchDecides(d, w, op, data, u, a, n);
      var touch := Touch(d, w, op, data, u, n);
      var later := since[1..];
      assert NotRenewed(later, u, n) by {
        assert forall i :: 0 <= i < |later| ==> later[i] == since[i + 1];
      }
      PartFileExactly(d, Do(d, w, op, data), later, data, u, Track(d, a, w, op, data, u), n,
                      if touch.Some? then touch.value == Some(a.recorded[n]) else start);
    }
  }

  lemma TouchDecides(d: Decoder, w: World, op: Op, data: Path, u: UploadMetadata, a: Account, n: nat)
    requires Faithful(w, data, u, a) && u in w.uploads && Legal(d, w, op, data) && !Hidden(u) && NotRenewed([op], u, n) && n in a.recorded
    ensures var w', a' := Do(d, w, op, data), Track(d, a, w, op, data, u);
            && u in w'.uploads && n in a'.recorded && a'.recorded[n] == a.recorded[n]
            && (FileHolds(w', data, u, n, a.recorded[n]) <==>
                if Touch(d, w, op, data, u, n).Some? then Touch(d, w, op, data, u, n).value == Some(a.recorded[n])
                else FileHolds(w, data, u, n, a.recorded[n]))
  {
    assert [op][0] == op;
    StepKeepsAccount(d, w, op, data, u, a);
    UploadStays(d, w, op, data, u);
    TouchTracks(d, w, op, data, u, a, n);
    HoldsOnDisk(w, data, u, a.disk, n, a.recorded[n]);
    HoldsOnDisk(Do(d, w, op, data), data, u, Track(d, a, w, op, data, u).disk, n, a.recorded[n]);
  }

  lemma UploadStays(d: Decoder, w: World, op: Op, data: Path, u: UploadMetadata)
    requires u in w.uploads && !Hidden(u) && (op.RemoveOp? ==> op.u != u)
    ensures u in Do(d, w, op, data).uploads
  {
    if op.RemoveOp? {
      VisibleStays(w.uploads, u, op.u);
    }
  }

  lemma HoldsOnDisk(w: World, data: Path, u: UploadMetadata, disk: map<nat, Bytes>, n: nat, content: Bytes)
    requires OnDisk(w.files, data, u, disk)
    ensures FileHolds(w, data, u, n, content) <==> n in disk && disk[n] == content
  {
  }

  lemma TouchTracks(d: Decoder, w: World, op: Op, data: Path, u: UploadMetadata, a: Account, n: nat)
    requires n in a.recorded && NotRenewed([op], u, n)
    ensures var a', touch := Track(d, a, w, op, data, u), Touch(d, w, op, data, u, n);
            && n in a'.recorded && a'.recorded[n] == a.recorded[n]
            && (touch.Some? && touch.value.Some? ==> n in a'.disk && a'.disk[n] == touch.value.value)
            && (touch == Some(None) ==> n !in a'.disk)
            && (touch.None? ==> (n in a'.disk <==> n in a.disk) && (n in a.disk ==> a'.disk[n] == a.disk[n]))
  {
    assert [op][0] == op;
  }

  // ---------- completion after any run ----------

  /** Completing an upload: nothing if its records cannot be read, otherwise the assembly of the
      numbers that reading them gives. */
  ghost function CompletionAt(d: Decoder, w: World, data: Path, u: UploadMetadata): Option<Completion>
    requires u in w.uploads
  {
    if !Readable(d, w.uploads, u) then None
    else Some(Assembled(w.files, data, u.uploadId, w.uploads[u].Keys + StrayNumbers(d, w.uploads, u)))
  }

  /** The contents one after the other in ascending part number. */
  function Concat(contents: map<nat, Bytes>, ks: seq<nat>): Bytes
    requires forall n :: n in ks ==> n in contents
  {
    if ks == [] then [] else contents[ks[0]] + Concat(contents, ks[1..])
  }

  function FirstLost(disk: map<nat, Bytes>, ks: seq<nat>): (m: Option<nat>)
    ensures m.None? <==> forall n :: n in ks ==> n in disk
  {
    if ks == [] then None else if ks[0] !in disk then Some(ks[0]) else FirstLost(disk, ks[1..])
  }

  /** What assembling these numbers must give, by what is in the part files. */
  ghost function Expected(numbers: set<nat>, disk: map<nat, Bytes>): Completion {
    if numbers == {} then NoParts
    else
      match FirstLost(disk, Ordered(numbers))
      case Some(n) => MissingPart(n)
      case None => var all := Concat(disk, Ordered(numbers)); Completed(all, |all|, Sha256(all))
  }

  lemma {:induction false} SameLost(files: Files, data: Path, u: UploadMetadata, disk: map<nat, Bytes>, ks: seq<nat>)
    requires OnDisk(files, data, u, disk)
    ensures FirstMissing(files, data, u.uploadId, ks) == FirstLost(disk, ks)
  {
    if ks != [] {
      SameLost(files, data, u, disk, ks[1..]);
    }
  }

  lemma {:induction false} ConcatLast(contents: map<nat, Bytes>, ks: seq<nat>, n: nat)
    requires (forall m :: m in ks ==> m in contents) && n in contents
    ensures Concat(contents, ks + [n]) == Concat(contents, ks) + contents[n]
  {
    if ks == [] {
      assert [] + [n] == [n] && [n][1..] == [];
      assert contents[n] + [] == contents[n];
    } else {
      assert (ks + [n])[0] == ks[0] && (ks + [n])[1..] == ks[1..] + [n];
      ConcatLast(contents, ks[1..], n);
      assert contents[ks[0]] + (Concat(contents, ks[1..]) + contents[n]) == contents[ks[0]] + Concat(contents, ks[1..]) + contents[n];
    }
  }

  lemma {:induction false} JoinedIsConcat(files: Files, data: Path, u: UploadMetadata, disk: map<nat, Bytes>, ks: seq<nat>)
    requires OnDisk(files, data, u, disk) && forall n :: n in ks ==> n in disk && PartPath(data, u.uploadId, n) in files
    ensures Joined(files, data, u.uploadId, ks) == Concat(disk, ks)
  {
    if ks != [] {
      var end := |ks| - 1;
      JoinedIsConcat(files, data, u, disk, ks[..end]);
      ConcatLast(disk, ks[..end], ks[end]);
      assert ks[..end] + [ks[end]] == ks;
    }
  }

  lemma AssembledIsExpected(files: Files, data: Path, u: UploadMetadata, disk: map<nat, Bytes>, numbers: set<nat>)
    requires OnDisk(files, data, u, disk)
    ensures Assembled(files, data, u.uploadId, numbers) == Expected(numbers, disk)
  {
    SameLost(files, data, u, disk, Ordered(numbers));
    if FirstLost(disk, Ordered(numbers)).None? {
      JoinedIsConcat(files, data, u, disk, Ordered(numbers));
    }
  }

  ghost predicate Begins(w: World, data: Path) {
    w.uploads == map[] && Sound(w, data)
  }

  /** After any run of anybody, with initiations under any keys: completing a visible upload fails
      to read it exactly if some upload nested in it does not decode as a part; otherwise it
      gives exactly what the files hold for the recorded numbers and the stray ones. */
  lemma CompletionExactly(d: Decoder, w: World, run: seq<Op>, data: Path, u: UploadMetadata)
    requires Begins(w, data) && LegalRun(d, w, run, data) && !Hidden(u) && u in After(d, w, run, data).uploads
    ensures var w', a := After(d, w, run, data), AccountAfter(d, NOTHING, w, run, data, u);
            CompletionAt(d, w', data, u) ==
            if Readable(d, w'.uploads, u) then Some(Expected(a.recorded.Keys + StrayNumbers(d, w'.uploads, u), a.disk)) else None
  {
    RunKeepsAccount(d, w, run, data, u, NOTHING);
    var w', a := After(d, w, run, data), AccountAfter(d, NOTHING, w, run, data, u);
    AssembledIsExpected(w'.files, data, u, a.disk, a.recorded.Keys + StrayNumbers(d, w'.uploads, u));
  }

  /** In particular, where nothing is nested in the upload and every recorded part file still
      holds what was recorded, completion gives the last content of each part in ascending part
      number, with that size and the digest of exactly those bytes. */
  lemma CompletionJoinsLastParts(d: Decoder, w: World, run: seq<Op>, data: Path, u: UploadMetadata)
    requires Begins(w, data) && LegalRun(d, w, run, data) && !Hidden(u) && u in After(d, w, run, data).uploads
    ensures var w', a := After(d, w, run, data), AccountAfter(d, NOTHING, w, run, data, u);
            Undisturbed(w'.uploads, u) && (forall n :: n in a.recorded ==> FileHolds(w', data, u, n, a.recorded[n])) ==>
              CompletionAt(d, w', data, u) == Some(Expected(a.recorded.Keys, a.recorded))
  {
    CompletionExactly(d, w, run, data, u);
    RunKeepsAccount(d, w, run, data, u, NOTHING);
    var w', a := After(d, w, run, data), AccountAfter(d, NOTHING, w, run, data, u);
    if Undisturbed(w'.uploads, u) && forall n :: n in a.recorded ==> FileHolds(w', data, u, n, a.recorded[n]) {
      NothingStray(d, w'.uploads, u);
      assert a.recorded.Keys + {} == a.recorded.Keys;
      HeldIsOnDisk(w', data, u, a);
      SameExpected(a.disk, a.recorded, a.recorded.Keys);
    }
  }

  lemma NothingStray(d: Decoder, view: map<UploadMetadata, Parts>, u: UploadMetadata)
    requires Undisturbed(view, u)
    ensures Readable(d, view, u) && StrayNumbers(d, view, u) == {}
  {
  }

  lemma HeldIsOnDisk(w: World, data: Path, u: UploadMetadata, a: Account)
    requires OnDisk(w.files, data, u, a.disk) && forall n :: n in a.recorded ==> FileHolds(w, data, u, n, a.recorded[n])
    ensures forall n :: n in a.recorded ==> n in a.disk && a.disk[n] == a.recorded[n]
  {
    forall n | n in a.recorded
      ensures n in a.disk && a.disk[n] == a.recorded[n]
    {
      assert FileHolds(w, data, u, n, a.recorded[n]);
    }
  }

  lemma SameExpected(a: map<nat, Bytes>, b: map<nat, Bytes>, numbers: set<nat>)
    requires forall n :: n in numbers ==> n in a && n in b && a[n] == b[n]
    ensures Expected(numbers, a) == Expected(numbers, b)
  {
    SameConcat(a, b, Ordered(numbers));
  }

  lemma {:induction false} SameConcat(a: map<nat, Bytes>, b: map<nat, Bytes>, ks: seq<nat>)
    requires forall n :: n in ks ==> n in a && n in b && a[n] == b[n]
    ensures Concat(a, ks) == Concat(b, ks)
  {
    if ks != [] {
      SameConcat(a, b, ks[1..]);
    }
  }

  /** A failed re-upload is assembled: completion takes, for the part it touched, whatever bytes
      it left, and the records stay those of the earlier upload. */
  lemma FailedReuploadIsAssembled(d: Decoder, w: World, data: Path, u: UploadMetadata, a: Account, n: nat, content: Bytes, written: nat, now: nat)
    requires Faithful(w, data, u, a) && u in w.uploads && u.uploadId in w.dirs && !Hidden(u)
    requires n in a.recorded && written <= |content|
    ensures var w' := Do(d, w, PartOp(u, n, content, Left(written), now), data);
            && w'.uploads == w.uploads
            && (Readable(d, w.uploads, u) ==>
                  CompletionAt(d, w', data, u)
                  == Some(Expected(a.recorded.Keys + StrayNumbers(d, w.uploads, u), a.disk[n := content[..written]])))
            && (!Readable(d, w.uploads, u) ==> w' == w && CompletionAt(d, w', data, u) == None)
  {
    var op := PartOp(u, n, content, Left(written), now);
    assert n in w.uploads[u] && ValidPartNumber(n);
    if Readable(d, w.uploads, u) {
      StepKeepsAccount(d, w, op, data, u, a);
      AssembledIsExpected(Do(d, w, op, data).files, data, u, a.disk[n := content[..written]],
                          a.recorded.Keys + StrayNumbers(d, w.uploads, u));
    }
  }

  // ---------- an upload that goes well ----------

  /** Uploading these parts in this order. */
  function Sending(u: UploadMetadata, ks: seq<nat>, parts: map<nat, Bytes>, now: nat): (run: seq<Op>)
    requires forall n :: n in ks ==> n in parts
    ensures |run| == |ks|
  {
    if ks == [] then [] else [PartOp(u, ks[0], parts[ks[0]], Stored, now)] + Sending(u, ks[1..], parts, now)
  }

  /** The account holds these parts, recorded and on disk. */
  ghost predicate Keeps(a: Account, done: set<nat>, parts: map<nat, Bytes>) {
    && a.recorded.Keys == done && a.disk.Keys == done
    && forall n :: n in done ==> n in parts && a.recorded[n] == parts[n] && a.disk[n] == parts[n]
  }

  function SetOf(ks: seq<nat>): set<nat> {
    set n | n in ks
  }

  lemma FirstAside(done: set<nat>, ks: seq<nat>)
    ensures ks == [] ==> done + SetOf(ks) == done
    ensures ks != [] ==> done + {ks[0]} + SetOf(ks[1..]) == done + SetOf(ks)
  {
    if ks != [] {
      assert ks == [ks[0]] + ks[1..];
    }
  }

  lemma SentOne(d: Decoder, w: World, data: Path, u: UploadMetadata, a: Account, n: nat, done: set<nat>, parts: map<nat, Bytes>, now: nat)
    requires u in w.uploads && u.uploadId in w.dirs && Undisturbed(w.uploads, u) && Keeps(a, done, parts)
    requires n in parts && ValidPartNumber(n) && |parts[n]| <= MAX_PART_SIZE
    ensures var op := PartOp(u, n, parts[n], Stored, now); var w' := Do(d, w, op, data);
            && Legal(d, w, op, data) && u in w'.uploads && u.uploadId in w'.dirs && w'.uploads.Keys == w.uploads.Keys
            && Keeps(Track(d, a, w, op, data, u), done + {n}, parts)
  {
    NothingStray(d, w.uploads, u);
  }

  lemma SameUploads(view: map<UploadMetadata, Parts>, view': map<UploadMetadata, Parts>, u: UploadMetadata)
    requires Undisturbed(view, u) && view'.Keys == view.Keys
    ensures Undisturbed(view', u)
  {
    assert forall y :: y in view' ==> y in view'.Keys;
  }

  lemma {:induction false} SentIsKept(d: Decoder, w: World, data: Path, u: UploadMetadata, a: Account, ks: seq<nat>,
                                      done: set<nat>, parts: map<nat, Bytes>, now: nat)
    requires u in w.uploads && u.uploadId in w.dirs && Undisturbed(w.uploads, u) && Keeps(a, done, parts)
    requires forall n :: n in ks ==> n in parts && ValidPartNumber(n) && |parts[n]| <= MAX_PART_SIZE
    ensures LegalRun(d, w, Sending(u, ks, parts, now), data)
    ensures var w' := After(d, w, Sending(u, ks, parts, now), data);
            u in w'.uploads && Undisturbed(w'.uploads, u)
    ensures Keeps(AccountAfter(d, a, w, Sending(u, ks, parts, now), data, u), done + SetOf(ks), parts)
    decreases |ks|
  {
    FirstAside(done, ks);
    if ks != [] {
      var run := Sending(u, ks, parts, now);
      assert ks[0] in ks;
      SentOne(d, w, data, u, a, ks[0], done, parts, now);
      var w1 := Do(d, w, run[0], data);
      SameUploads(w.uploads, w1.uploads, u);
      assert run[1..] == Sending(u, ks[1..], parts, now);
      SentIsKept(d, w1, data, u, Track(d, a, w, run[0], data, u), ks[1..], done + {ks[0]}, parts, now);
    }
  }

  /** With all its parts kept and nothing nested in it, an upload completes to the joined parts. */
  lemma KeptCompletes(d: Decoder, w: World, data: Path, u: UploadMetadata, a: Account, parts: map<nat, Bytes>)
    requires Faithful(w, data, u, a) && u in w.uploads && Undisturbed(w.uploads, u) && Keeps(a, parts.Keys, parts) && parts.Keys != {}
    ensures var all := Concat(parts, Ordered(parts.Keys));
            CompletionAt(d, w, data, u) == Some(Completed(all, |all|, Sha256(all)))
  {
    NothingStray(d, w.uploads, u);
    OwnNumbersOnly(d, w, data, u);
    AssembledIsExpected(w.files, data, u, a.disk, parts.Keys);
    SameExpected(a.disk, parts, parts.Keys);
    ExpectedWhole(parts);
  }

  lemma OwnNumbersOnly(d: Decoder, w: World, data: Path, u: UploadMetadata)
    requires u in w.uploads && Undisturbed(w.uploads, u)
    ensures CompletionAt(d, w, data, u) == Some(Assembled(w.files, data, u.uploadId, w.uploads[u].Keys))
  {
    NothingStray(d, w.uploads, u);
    assert w.uploads[u].Keys + {} == w.uploads[u].Keys;
  }

  lemma ExpectedWhole(parts: map<nat, Bytes>)
    requires parts.Keys != {}
    ensures var all := Concat(parts, Ordered(parts.Keys)); Expected(parts.Keys, parts) == Completed(all, |all|, Sha256(all))
  {
  }

  lemma Initiated(d: Decoder, w: World, data: Path, u: UploadMetadata)
    requires Sound(w, data) && Named(u) && !Hidden(u) && Legal(d, w, InitiateOp(u, true), data) && Undisturbed(w.uploads, u)
    ensures var w' := Do(d, w, InitiateOp(u, true), data);
            u in w'.uploads && u.uploadId in w'.dirs && Undisturbed(w'.uploads, u) && Faithful(w', data, u, NOTHING)
  {
    NestedIsOther(u);
    StepKeepsAccount(d, w, InitiateOp(u, true), data, u, NOTHING);
  }

  /** Initiating an upload, sending its parts in any order and completing it gives the parts joined
      in ascending number, in any world in which its id is new and nothing is nested in it. */
  lemma UploadCompletes(d: Decoder, w: World, data: Path, u: UploadMetadata, ks: seq<nat>, parts: map<nat, Bytes>, now: nat)
    requires Sound(w, data) && Named(u) && !Hidden(u) && Legal(d, w, InitiateOp(u, true), data) && Undisturbed(w.uploads, u)
    requires (forall n :: n in ks <==> n in parts) && ks != []
    requires forall n :: n in parts ==> ValidPartNumber(n) && |parts[n]| <= MAX_PART_SIZE
    ensures var run := [InitiateOp(u, true)] + Sending(u, ks, parts, now);
            && LegalRun(d, w, run, data) && u in After(d, w, run, data).uploads
            && var all := Concat(parts, Ordered(parts.Keys));
               CompletionAt(d, After(d, w, run, data), data, u) == Some(Completed(all, |all|, Sha256(all)))
  {
    var run := [InitiateOp(u, true)] + Sending(u, ks, parts, now);
    assert run[0] == InitiateOp(u, true) && run[1..] == Sending(u, ks, parts, now);
    Initiated(d, w, data, u);
    SentCompletes(d, Do(d, w, run[0], data), data, u, ks, parts, now);
  }

  lemma SentCompletes(d: Decoder, w: World, data: Path, u: UploadMetadata, ks: seq<nat>, parts: map<nat, Bytes>, now: nat)
    requires u in w.uploads && u.uploadId in w.dirs && Undisturbed(w.uploads, u) && Faithful(w, data, u, NOTHING) && !Hidden(u)
    requires (forall n :: n in ks <==> n in parts) && ks != []
    requires forall n :: n in parts ==> ValidPartNumber(n) && |parts[n]| <= MAX_PART_SIZE
    ensures var run := Sending(u, ks, parts, now);
            && LegalRun(d, w, run, data) && u in After(d, w, run, data).uploads
            && var all := Concat(parts, Ordered(parts.Keys));
               CompletionAt(d, After(d, w, run, data), data, u) == Some(Completed(all, |all|, Sha256(all)))
  {
    var run := Sending(u, ks, parts, now);
    SentIsKept(d, w, data, u, NOTHING, ks, {}, parts, now);
    RunKeepsAccount(d, w, run, data, u, NOTHING);
    AllSent(ks, parts);
    KeptCompletes(d, After(d, w, run, data), data, u, AccountAfter(d, NOTHING, w, run, data, u), parts);
  }

  lemma AllSent(ks: seq<nat>, parts: map<nat, Bytes>)
    requires (forall n :: n in ks <==> n in parts) && ks != []
    ensures {} + SetOf(ks) == parts.Keys && parts.Keys != {}
  {
    assert ks[0] in parts.Keys;
  }

  lemma NestedIsOther(u: UploadMetadata)
    ensures !Nested(u, u)
  {
    if Nested(u, u) {
      NestedIsHidden(u, u);
    }
  }
}
