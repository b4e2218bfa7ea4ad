/** The collector of abandoned temp files. */
module Gc {
  import opened Text
  import opened MetadataDb
  import opened UploadKeys
  import opened Multipart

  /** A path as its components; an upload id is one component. */
  type Path = seq<string>

  datatype File = File(content: Bytes, modified: nat)

  type Files = map<Path, File>

  function PartsDir(data: Path, uploadId: string): Path {
    data + ["temp", "parts", uploadId]
  }

  function PartPath(data: Path, uploadId: string, n: nat): Path {
    PartsDir(data, uploadId) + [Decimal(n)]
  }

  lemma PartPathIsInjective(data: Path, x: string, n: nat, y: string, m: nat)
    requires PartPath(data, x, n) == PartPath(data, y, m)
    ensures x == y && n == m
  {
    var p, q := PartPath(data, x, n), PartPath(data, y, m);
    assert p[|data| + 2] == x && q[|data| + 2] == y;
    assert p[|data| + 3] == Decimal(n) && q[|data| + 3] == Decimal(m);
    DecimalIsInjective(n, m);
  }

  function Age(now: nat, modified: nat): nat {
    if modified <= now then now - modified else 0
  }

  predicate ShouldKeep(path: Path, active: set<string>) {
    2 <= |path| && path[|path| - 2] in active
  }

  /** A file is kept exactly if the directory it lies in is named like an active upload. */
  lemma KeepExactly(dir: Path, parent: string, name: string, active: set<string>)
    ensures ShouldKeep(dir + [parent, name], active) <==> parent in active
    ensures !ShouldKeep([name], active) && !ShouldKeep([], active)
  {
    var p := dir + [parent, name];
    assert p[|p| - 2] == parent;
  }

  /** The ids of the uploads a listing shows. */
  ghost function ActiveIds(view: map<UploadMetadata, Parts>): set<string> {
    set u | u in view && !Hidden(u) :: u.uploadId
  }

  function Doomed(files: Files, active: set<string>, now: nat, maxAge: nat): set<Path> {
    set p | p in files && maxAge <= Age(now, files[p].modified) && !ShouldKeep(p, active)
  }

  function IdsOf(uploads: seq<Upload>): set<string> {
    set x | x in uploads :: x.metadata.uploadId
  }

  /** The ids the listing of all uploads shows, or nothing if the listing fails. */
  ghost function ActiveSeen(d: Decoder, db: Db): Option<set<string>> {
    match ListOf(d, db, SortedKeys(Under(db.Keys, MULTIPART_PREFIX)))
    case None => None
    case Some(uploads) => Some(IdsOf(uploads))
  }

  /** Every visible upload can be read. */
  ghost predicate ListingWorks(d: Decoder, view: map<UploadMetadata, Parts>) {
    forall u :: u in view && !Hidden(u) ==> Readable(d, view, u)
  }

  /** The listing fails exactly if some visible upload cannot be read; otherwise these are the
      ids of exactly the visible uploads. */
  lemma ActiveSeenExactly(d: Decoder, db: Db)
    requires Tidy(db)
    ensures ActiveSeen(d, db) == if ListingWorks(d, View(db)) then Some(ActiveIds(View(db))) else None
  {
    forall u: UploadMetadata
      ensures MULTIPART_PREFIX <= DbKey(u)
    {
      KeysAreMultipart(u, 0);
    }
    ListMeans(d, db, MULTIPART_PREFIX);
    if ListingWorks(d, View(db)) {
      IdsAreVisible(d, db, ListOf(d, db, SortedKeys(Under(db.Keys, MULTIPART_PREFIX))).value);
    }
  }

  lemma IdsAreVisible(d: Decoder, db: Db, uploads: seq<Upload>)
    requires Tidy(db) && ListingWorks(d, View(db)) && forall x :: x in uploads <==> Listed(d, db, x)
    ensures IdsOf(uploads) == ActiveIds(View(db))
  {
    forall u | u in View(db) && !Hidden(u)
      ensures u.uploadId in IdsOf(uploads)
    {
      CollectedIsParts(d, db, u);
      assert Upload(u, PartsUnder(d, db, u).value) in uploads;
    }
    forall x | x in uploads
      ensures x.metadata.uploadId in ActiveIds(View(db))
    {
      assert Listed(d, db, x);
    }
  }

  method GetActiveUploadIds(store: UploadStore) returns (ids: Option<set<string>>)
    ensures ids == ActiveSeen(store.decoder, store.db)
  {
    var uploads := store.ListAll();
    ids := if uploads.None? then None else Some(IdsOf(uploads.value));
  }

  lemma RemoveOne(before: Files, removed: set<Path>, p: Path)
    ensures before - removed - {p} == before - (removed + {p})
  {
  }

  lemma Untouched(before: Files, gone: set<Path>, kept: set<Path>)
    requires gone <= before.Keys && kept <= before.Keys
    ensures gone - before.Keys == {} && kept - before.Keys == {} && before - {} == before
  {
  }

  lemma NothingLeft(done: set<Path>)
    ensures done - {} == done
  {
  }

  lemma OneLess(done: set<Path>, left: set<Path>, p: Path)
    requires p in left
    ensures done - (left - {p}) == if p in done then (done - left) + {p} else done - left
    ensures |done - (left - {p})| == |done - left| + if p in done then 1 else 0
  {
    assert done - (left - {p}) == if p in done then (done - left) + {p} else done - left;
  }

  lemma StillThere(before: Files, removed: set<Path>, p: Path)
    requires p in before && p !in removed
    ensures p in before - removed && (before - removed)[p] == before[p]
  {
  }

  class TempDir {
    var files: Files

    constructor (files: Files)
      ensures this.files == files
    {
      this.files := files;
    }

    /** One cycle: list the active uploads, scan the temp directory, give up if either fails,
        then sweep. */
    method RunGcCycle(store: UploadStore, scans: bool, now: nat, maxAge: nat, stuck: set<Path>)
      returns (ok: bool, deleted: nat, errors: nat)
      modifies this
      ensures ok <==> ActiveSeen(store.decoder, store.db).Some? && scans
      ensures !ok ==> files == old(files) && deleted == 0 && errors == 0
      ensures ok ==>
                var doomed := Doomed(old(files), ActiveSeen(store.decoder, store.db).value, now, maxAge);
                files == old(files) - (doomed - stuck) && deleted == |doomed - stuck| && errors == |doomed * stuck|
      ensures Tidy(store.db) ==>
                && (ok <==> ListingWorks(store.decoder, View(store.db)) && scans)
                && (ok ==> ActiveSeen(store.decoder, store.db).value == ActiveIds(View(store.db)))
    {
      if Tidy(store.db) {
        ActiveSeenExactly(store.decoder, store.db);
      }
      var active := GetActiveUploadIds(store);
      ok, deleted, errors := active.Some? && scans, 0, 0;
      if ok {
        deleted, errors := SweepFiles(active.value, now, maxAge, stuck);
      }
    }

    /** Remove each file that is old enough and does not lie in the directory of an active
        upload.  Removal of the `stuck` files fails and is only counted. */
    method SweepFiles(active: set<string>, now: nat, maxAge: nat, stuck: set<Path>) returns (deleted: nat, errors: nat)
      modifies this
      ensures var doomed := Doomed(old(files), active, now, maxAge);
              files == old(files) - (doomed - stuck) && deleted == |doomed - stuck| && errors == |doomed * stuck|
    {
      ghost var before, doomed := files, Doomed(files, active, now, maxAge);
      ghost var gone, kept := doomed - stuck, doomed * stuck;
      var left := files.Keys;
      Untouched(before, gone, kept);
      deleted, errors := 0, 0;
      while left != {}
        invariant left <= before.Keys
        invariant files == before - (gone - left)
        invariant deleted == |gone - left|
        invariant errors == |kept - left|
        decreases |left|
      {
        var p :| p in left;
        StillThere(before, gone - left, p);
        OneLess(gone, left, p);
        OneLess(kept, left, p);
        if maxAge <= Age(now, files[p].modified) && !ShouldKeep(p, active) {
          if p in stuck {
            errors := errors + 1;
          } else {
            RemoveOne(before, gone - left, p);
            files := files - {p};
            deleted := deleted + 1;
          }
        }
        left := left - {p};
      }
      NothingLeft(gone);
      NothingLeft(kept);
    }
  }

  /** A file is young at this time: a maximal age is set and it has not been reached, counted from
      the last modification; a file from the future is young. */
  predicate YoungFile(f: File, now: nat, maxAge: nat) {
    0 < maxAge && now < f.modified + maxAge
  }

  /** A cycle spares a part file exactly when it is young or some visible upload has its id;
      so it never takes a file of an upload it saw, and always takes the old files of an
      upload that the listing hides from it. */
  lemma PartFileSpared(view: map<UploadMetadata, Parts>, files: Files, data: Path, u: UploadMetadata, n: nat, now: nat, maxAge: nat)
    requires PartPath(data, u.uploadId, n) in files
    ensures PartPath(data, u.uploadId, n) !in Doomed(files, ActiveIds(view), now, maxAge) <==>
            || YoungFile(files[PartPath(data, u.uploadId, n)], now, maxAge)
            || exists x :: x in view && x.uploadId == u.uploadId && !Hidden(x)
  {
    var p := PartPath(data, u.uploadId, n);
    assert p[|p| - 2] == u.uploadId;
    assert ShouldKeep(p, ActiveIds(view)) <==> u.uploadId in ActiveIds(view);
  }

  /** Staged objects lie directly in the temp directory, so the collector goes by their age
      alone, pending prepare or not. */
  lemma StagedFileSpared(files: Files, base: Path, name: string, active: set<string>, now: nat, maxAge: nat)
    requires base + ["temp", name] in files && "temp" !in active
    ensures base + ["temp", name] !in Doomed(files, active, now, maxAge)
            <==> YoungFile(files[base + ["temp", name]], now, maxAge)
  {
    var p := base + ["temp", name];
    assert p[|p| - 2] == "temp";
  }
}
