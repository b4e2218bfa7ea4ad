/** Multipart records in the metadata database.  The flat table of metadata and part keys
    refines a map from uploads to their numbered parts. */
module Multipart {
  import opened Text
  import opened MetadataDb
  import opened UploadKeys

  type Parts = map<nat, PartMetadata>

  datatype Upload = Upload(metadata: UploadMetadata, parts: Parts)

  datatype Result<+T> = Ok(value: T) | InvalidRequest | UploadNotFound | DecodeFailed

  const MAX_UPLOAD_ID_LENGTH := 256

  predicate ValidUploadId(uploadId: string) {
    uploadId != [] && Utf8Len(uploadId) <= MAX_UPLOAD_ID_LENGTH
  }

  predicate ValidRequest(u: UploadMetadata) {
    ValidObjectKey(u.key) && ValidUploadId(u.uploadId)
  }

  /** A request is valid exactly if its key is and its upload id has 1 to 256 bytes. */
  lemma RequestExactly(u: UploadMetadata)
    ensures ValidRequest(u) <==> ValidObjectKey(u.key) && |u.uploadId| > 0 && Utf8Len(u.uploadId) <= 256
  {
  }

  // ---------- what the table stands for ----------

  ghost function Ids(db: Db): set<UploadMetadata> {
    set k | k in db && MULTIPART_PREFIX <= k && db[k].UploadValue? :: db[k].upload
  }

  ghost function PartsOf(db: Db, u: UploadMetadata): Parts {
    map n | n in Numbers(db) && PartKey(u, n) in db && db[PartKey(u, n)].PartValue? :: db[PartKey(u, n)].part
  }

  ghost function Numbers(db: Db): set<nat> {
    set k | k in db && db[k].PartValue? :: db[k].part.partNumber
  }

  ghost function View(db: Db): map<UploadMetadata, Parts> {
    map u | u in Ids(db) :: PartsOf(db, u)
  }

  /** Every record is filed under the key of its upload, every part has its upload, and every
      upload was issued by the initiate handler. */
  ghost predicate Tidy(db: Db) {
    && (forall k :: k in db && MULTIPART_PREFIX <= k ==> TidyAt(Ids(db), k, db[k]))
    && (forall x :: x in Ids(db) ==> Issued(x))
  }

  ghost predicate TidyAt(ids: set<UploadMetadata>, k: string, v: Value) {
    match v
    case UploadValue(u) => k == DbKey(u)
    case PartValue(part) => exists u :: u in ids && k == PartKey(u, part.partNumber)
    case _ => false
  }

  lemma KeysAreMultipart(u: UploadMetadata, n: nat)
    ensures MULTIPART_PREFIX <= DbKey(u) && MULTIPART_PREFIX <= PartPrefix(u) && MULTIPART_PREFIX <= PartKey(u, n)
    ensures DbKey(u) < PartPrefix(u) < PartKey(u, n)
  {
  }

  /** A stored key that is an upload's metadata key holds that upload. */
  lemma IdMembers(db: Db, u: UploadMetadata)
    requires Tidy(db) && Issued(u)
    ensures u in Ids(db) <==> DbKey(u) in db
    ensures u in Ids(db) ==> db[DbKey(u)] == UploadValue(u)
  {
    KeysAreMultipart(u, 0);
    var k := DbKey(u);
    if k in db {
      assert TidyAt(Ids(db), k, db[k]);
      if db[k].UploadValue? {
        assert db[k].upload in Ids(db);
        DbKeyIsInjective(u, db[k].upload);
      } else {
        var y :| y in Ids(db) && k == PartKey(y, db[k].part.partNumber);
        MetadataIsNoPart(u, y, db[k].part.partNumber);
      }
    }
    if u in Ids(db) {
      var k' :| k' in db && MULTIPART_PREFIX <= k' && db[k'].UploadValue? && db[k'].upload == u;
      assert TidyAt(Ids(db), k', db[k']);
    }
  }

  /** A stored key that is an upload's part key holds that part. */
  lemma PartIsOwn(db: Db, u: UploadMetadata, n: nat)
    requires Tidy(db) && WellFormed(u) && PartKey(u, n) in db
    ensures u in Ids(db) && db[PartKey(u, n)].PartValue? && db[PartKey(u, n)].part.partNumber == n
  {
    var k := PartKey(u, n);
    KeysAreMultipart(u, n);
    assert TidyAt(Ids(db), k, db[k]);
    if db[k].UploadValue? {
      assert db[k].upload in Ids(db);
      MetadataIsNoPart(db[k].upload, u, n);
    } else {
      var y :| y in Ids(db) && k == PartKey(y, db[k].part.partNumber);
      PartKeysDiffer(u, n, y, db[k].part.partNumber);
    }
  }

  lemma PartsMembers(db: Db, u: UploadMetadata, n: nat)
    requires Tidy(db) && WellFormed(u)
    ensures n in PartsOf(db, u) <==> PartKey(u, n) in db
    ensures n in PartsOf(db, u) ==> db[PartKey(u, n)] == PartValue(PartsOf(db, u)[n]) && PartsOf(db, u)[n].partNumber == n
  {
    if PartKey(u, n) in db {
      PartIsOwn(db, u, n);
    }
  }

  /** What lies under an upload's part prefix: its own part records, and the metadata and the
      part records of the uploads nested in it. */
  lemma UnderPartPrefix(db: Db, u: UploadMetadata, k: string)
    requires Tidy(db) && Issued(u) && k in db
    ensures PartPrefix(u) <= k <==>
            || (db[k].PartValue? && u in Ids(db) && k == PartKey(u, db[k].part.partNumber))
            || (db[k].UploadValue? && db[k].upload in Ids(db) && Nested(u, db[k].upload) && k == DbKey(db[k].upload))
            || (db[k].PartValue? && exists y :: y in Ids(db) && Nested(u, y) && k == PartKey(y, db[k].part.partNumber))
  {
    KeysAreMultipart(u, 0);
    if PartPrefix(u) <= k {
      assert MULTIPART_PREFIX <= k && TidyAt(Ids(db), k, db[k]);
      if db[k].PartValue? {
        var y :| y in Ids(db) && k == PartKey(y, db[k].part.partNumber);
        if y != u {
          UnderPartsUnderKey(u, y, db[k].part.partNumber);
        }
      }
    } else if db[k].PartValue? {
      UnderOnlyIf(db, u, db[k].part.partNumber, k);
    }
  }

  lemma UnderOnlyIf(db: Db, u: UploadMetadata, n: nat, k: string)
    requires Tidy(db) && Issued(u) && !(PartPrefix(u) <= k)
    ensures k != PartKey(u, n)
    ensures forall y :: y in Ids(db) && Nested(u, y) ==> k != PartKey(y, n)
  {
    KeysAreMultipart(u, n);
    forall y | y in Ids(db) && Nested(u, y)
      ensures k != PartKey(y, n)
    {
      NestedIsHidden(u, y);
      UnderPartsUnderKey(u, y, n);
    }
  }

  // ---------- the changes ----------

  function PutUpload(db: Db, u: UploadMetadata): Db {
    db[DbKey(u) := UploadValue(u)]
  }

  function PutPart(db: Db, u: UploadMetadata, part: PartMetadata): Db {
    db[PartKey(u, part.partNumber) := PartValue(part)]
  }

  function WithPart(parts: Parts, part: PartMetadata): Parts {
    parts[part.partNumber := part]
  }

  ghost function RemoveUpload(db: Db, u: UploadMetadata): Db {
    db - {DbKey(u)} - Under(db.Keys, PartPrefix(u))
  }

  ghost predicate SameElsewhere(db: Db, db': Db) {
    forall k :: !(MULTIPART_PREFIX <= k) ==> (k in db <==> k in db') && (k in db ==> db[k] == db'[k])
  }

  lemma PutUploadIds(db: Db, u: UploadMetadata)
    requires Tidy(db) && Issued(u)
    ensures Ids(PutUpload(db, u)) == Ids(db) + {u}
  {
    IdMembers(db, u);
    KeysAreMultipart(u, 0);
    var db' := PutUpload(db, u);
    forall x
      ensures x in Ids(db') <==> x in Ids(db) || x == u
    {
      if x == u {
        assert DbKey(u) in db' && db'[DbKey(u)].upload == u;
      } else if x in Ids(db) {
        var k :| k in db && MULTIPART_PREFIX <= k && db[k].UploadValue? && db[k].upload == x;
        assert k in db' && db'[k] == db[k];
      }
    }
  }

  /** Two tables that agree on the part keys of an upload give it the same parts. */
  lemma SameParts(db: Db, db': Db, x: UploadMetadata)
    requires Tidy(db) && Tidy(db') && WellFormed(x)
    requires forall n: nat :: (PartKey(x, n) in db <==> PartKey(x, n) in db')
                              && (PartKey(x, n) in db ==> db[PartKey(x, n)] == db'[PartKey(x, n)])
    ensures PartsOf(db, x) == PartsOf(db', x)
  {
    forall n: nat
      ensures n in PartsOf(db, x) <==> n in PartsOf(db', x)
      ensures n in PartsOf(db, x) ==> PartsOf(db, x)[n] == PartsOf(db', x)[n]
    {
      PartsMembers(db, x, n);
      PartsMembers(db', x, n);
    }
    SamePartTables(PartsOf(db', x), PartsOf(db, x));
  }

  /** Initiating adds an upload without parts; initiating a known one changes nothing. */
  lemma InitiateRefines(db: Db, u: UploadMetadata)
    requires Tidy(db) && Issued(u)
    ensures Tidy(PutUpload(db, u)) && SameElsewhere(db, PutUpload(db, u))
    ensures View(PutUpload(db, u)) == if u in View(db) then View(db) else View(db)[u := map[]]
  {
    PutUploadIds(db, u);
    InitiateKeepsTidy(db, u);
    var db' := PutUpload(db, u);
    forall x | x in Ids(db')
      ensures PartsOf(db', x) == if x in Ids(db) then PartsOf(db, x) else map[]
    {
      PartsAfterInitiate(db, u, x);
    }
    SameView(View(db'), if u in View(db) then View(db) else View(db)[u := map[]]);
  }

  lemma SameView(a: map<UploadMetadata, Parts>, b: map<UploadMetadata, Parts>)
    requires a.Keys == b.Keys && forall x :: x in a ==> a[x] == b[x]
    ensures a == b
  {
  }

  lemma InitiateKeepsTidy(db: Db, u: UploadMetadata)
    requires Tidy(db) && Issued(u) && Ids(PutUpload(db, u)) == Ids(db) + {u}
    ensures Tidy(PutUpload(db, u)) && SameElsewhere(db, PutUpload(db, u))
  {
    var db' := PutUpload(db, u);
    KeysAreMultipart(u, 0);
    forall k | k in db' && MULTIPART_PREFIX <= k
      ensures TidyAt(Ids(db'), k, db'[k])
    {
      if k != DbKey(u) {
        MoreIds(Ids(db), Ids(db'), k, db[k]);
      }
    }
  }

  lemma MoreIds(ids: set<UploadMetadata>, ids': set<UploadMetadata>, k: string, v: Value)
    requires ids <= ids' && TidyAt(ids, k, v)
    ensures TidyAt(ids', k, v)
  {
  }

  lemma PartsAfterInitiate(db: Db, u: UploadMetadata, x: UploadMetadata)
    requires Tidy(db) && Issued(u) && Tidy(PutUpload(db, u)) && x in Ids(db) + {u}
    ensures PartsOf(PutUpload(db, u), x) == if x in Ids(db) then PartsOf(db, x) else map[]
  {
    forall n: nat
      ensures PartKey(x, n) != DbKey(u)
    {
      MetadataIsNoPart(u, x, n);
    }
    SameParts(db, PutUpload(db, u), x);
    if x !in Ids(db) {
      NoPartsYet(db, x);
    }
  }

  lemma NoPartsYet(db: Db, x: UploadMetadata)
    requires Tidy(db) && WellFormed(x) && x !in Ids(db)
    ensures PartsOf(db, x) == map[]
  {
    forall n: nat
      ensures PartKey(x, n) !in db
    {
      if PartKey(x, n) in db {
        PartIsOwn(db, x, n);
      }
    }
    assert PartsOf(db, x).Keys == {};
  }

  /** Recording a part of a known upload sets that part and nothing else. */
  lemma RecordRefines(db: Db, u: UploadMetadata, part: PartMetadata)
    requires Tidy(db) && u in Ids(db)
    ensures Tidy(PutPart(db, u, part)) && SameElsewhere(db, PutPart(db, u, part))
    ensures View(PutPart(db, u, part)) == View(db)[u := WithPart(View(db)[u], part)]
  {
    var db' := PutPart(db, u, part);
    PutPartIds(db, u, part);
    RecordKeepsTidy(db, u, part);
    forall x | x in Ids(db')
      ensures PartsOf(db', x) == if x == u then WithPart(PartsOf(db, u), part) else PartsOf(db, x)
    {
      if x == u {
        PartsAfterRecord(db, u, part);
      } else {
        OtherPartsAfterRecord(db, u, part, x);
      }
    }
    SameView(View(db'), View(db)[u := WithPart(View(db)[u], part)]);
  }

  lemma PutPartIds(db: Db, u: UploadMetadata, part: PartMetadata)
    requires Tidy(db) && u in Ids(db)
    ensures Ids(PutPart(db, u, part)) == Ids(db)
  {
    var db' := PutPart(db, u, part);
    var k' := PartKey(u, part.partNumber);
    forall x | x in Ids(db)
      ensures x in Ids(db')
    {
      var k :| k in db && MULTIPART_PREFIX <= k && db[k].UploadValue? && db[k].upload == x;
      assert TidyAt(Ids(db), k, db[k]);
      MetadataIsNoPart(x, u, part.partNumber);
      assert k != k' && db'[k] == db[k];
    }
  }

  lemma RecordKeepsTidy(db: Db, u: UploadMetadata, part: PartMetadata)
    requires Tidy(db) && u in Ids(db) && Ids(PutPart(db, u, part)) == Ids(db)
    ensures Tidy(PutPart(db, u, part)) && SameElsewhere(db, PutPart(db, u, part))
  {
    var db' := PutPart(db, u, part);
    KeysAreMultipart(u, part.partNumber);
    forall k | k in db' && MULTIPART_PREFIX <= k
      ensures TidyAt(Ids(db'), k, db'[k])
    {
      if k != PartKey(u, part.partNumber) {
        assert TidyAt(Ids(db), k, db[k]);
      }
    }
  }

  lemma OtherPartsAfterRecord(db: Db, u: UploadMetadata, part: PartMetadata, x: UploadMetadata)
    requires Tidy(db) && u in Ids(db) && x in Ids(db) && x != u && Tidy(PutPart(db, u, part))
    ensures PartsOf(PutPart(db, u, part), x) == PartsOf(db, x)
  {
    forall n: nat
      ensures PartKey(x, n) != PartKey(u, part.partNumber)
    {
      if PartKey(x, n) == PartKey(u, part.partNumber) {
        PartKeysDiffer(x, n, u, part.partNumber);
      }
    }
    SameParts(db, PutPart(db, u, part), x);
  }

  lemma PartsAfterRecord(db: Db, u: UploadMetadata, part: PartMetadata)
    requires Tidy(db) && u in Ids(db) && Tidy(PutPart(db, u, part))
    ensures PartsOf(PutPart(db, u, part), u) == WithPart(PartsOf(db, u), part)
  {
    var db' := PutPart(db, u, part);
    var got, want := PartsOf(db', u), WithPart(PartsOf(db, u), part);
    forall n: nat
      ensures n in got <==> n in want
      ensures n in want ==> got[n] == want[n]
    {
      PartsMembers(db, u, n);
      PartsMembers(db', u, n);
      if PartKey(u, n) == PartKey(u, part.partNumber) {
        PartKeyIsInjective(u, n, part.partNumber);
      }
    }
    SamePartTables(got, want);
  }

  lemma SamePartTables(a: Parts, b: Parts)
    requires forall n: nat :: n in a <==> n in b
    requires forall n: nat :: n in b ==> a[n] == b[n]
    ensures a == b
  {
    assert a.Keys == b.Keys;
  }

  /** All uploads but this one and those nested in it. */
  function Without(view: map<UploadMetadata, Parts>, u: UploadMetadata): map<UploadMetadata, Parts> {
    map x | x in view && x != u && !Nested(u, x) :: view[x]
  }

  /** Aborting or completing removes the upload with all its parts, and with it exactly the
      uploads nested in it. */
  lemma RemoveRefines(db: Db, u: UploadMetadata)
    requires Tidy(db) && Issued(u)
    ensures Tidy(RemoveUpload(db, u)) && SameElsewhere(db, RemoveUpload(db, u))
    ensures View(RemoveUpload(db, u)) == Without(View(db), u)
  {
    var db' := RemoveUpload(db, u);
    RemoveIds(db, u);
    RemoveKeepsTidy(db, u);
    forall x | x in Ids(db')
      ensures PartsOf(db', x) == PartsOf(db, x)
    {
      PartsAfterRemove(db, u, x);
    }
    assert View(db').Keys == Without(View(db), u).Keys;
    SameView(View(db'), Without(View(db), u));
  }

  lemma RemoveIds(db: Db, u: UploadMetadata)
    requires Tidy(db) && Issued(u)
    ensures forall x :: x in Ids(RemoveUpload(db, u)) <==> x in Ids(db) && x != u && !Nested(u, x)
  {
    var db' := RemoveUpload(db, u);
    forall x
      ensures x in Ids(db') <==> x in Ids(db) && x != u && !Nested(u, x)
    {
      if x in Ids(db) && x != u && !Nested(u, x) {
        IdStays(db, u, x);
      }
      if x in Ids(db') {
        var k :| k in db' && MULTIPART_PREFIX <= k && db'[k].UploadValue? && db'[k].upload == x;
        assert k in db && db[k] == db'[k] && TidyAt(Ids(db), k, db[k]);
      }
    }
  }

  lemma IdStays(db: Db, u: UploadMetadata, x: UploadMetadata)
    requires Tidy(db) && Issued(u) && x in Ids(db) && x != u && !Nested(u, x)
    ensures x in Ids(RemoveUpload(db, u))
  {
    var db' := RemoveUpload(db, u);
    IdMembers(db, x);
    KeysAreMultipart(x, 0);
    if DbKey(x) == DbKey(u) {
      DbKeyIsInjective(x, u);
    }
    assert DbKey(x) in db' && db'[DbKey(x)] == UploadValue(x);
  }

  lemma RemoveKeepsTidy(db: Db, u: UploadMetadata)
    requires Tidy(db) && Issued(u)
    requires forall x :: x in Ids(RemoveUpload(db, u)) <==> x in Ids(db) && x != u && !Nested(u, x)
    ensures Tidy(RemoveUpload(db, u)) && SameElsewhere(db, RemoveUpload(db, u))
  {
    var db' := RemoveUpload(db, u);
    KeysAreMultipart(u, 0);
    forall k | k in db' && MULTIPART_PREFIX <= k
      ensures TidyAt(Ids(db'), k, db'[k])
    {
      assert TidyAt(Ids(db), k, db[k]);
      if db[k].PartValue? {
        var y :| y in Ids(db) && k == PartKey(y, db[k].part.partNumber);
        UnderOnlyIf(db, u, db[k].part.partNumber, k);
        assert y != u && !Nested(u, y);
      }
    }
  }

  lemma PartsAfterRemove(db: Db, u: UploadMetadata, x: UploadMetadata)
    requires Tidy(db) && Issued(u) && Tidy(RemoveUpload(db, u)) && x in Ids(db) && x != u && !Nested(u, x)
    ensures PartsOf(RemoveUpload(db, u), x) == PartsOf(db, x)
  {
    forall n: nat
      ensures PartKey(x, n) != DbKey(u) && !(PartPrefix(u) <= PartKey(x, n))
    {
      MetadataIsNoPart(u, x, n);
      UnderPartsUnderKey(u, x, n);
    }
    SameParts(db, RemoveUpload(db, u), x);
  }

  // ---------- runs of changes ----------

  datatype Change =
    | Initiated(u: UploadMetadata)
    | Recorded(u: UploadMetadata, part: PartMetadata)
    | Removed(u: UploadMetadata)

  ghost function Changed(db: Db, c: Change): Db {
    match c
    case Initiated(u) => PutUpload(db, u)
    case Recorded(u, part) => if DbKey(u) in db then PutPart(db, u, part) else db
    case Removed(u) => RemoveUpload(db, u)
  }

  ghost function Meant(view: map<UploadMetadata, Parts>, c: Change): map<UploadMetadata, Parts> {
    match c
    case Initiated(u) => if u in view then view else view[u := map[]]
    case Recorded(u, part) => if u in view then view[u := WithPart(view[u], part)] else view
    case Removed(u) => Without(view, u)
  }

  ghost function TableAfter(db: Db, run: seq<Change>): Db
    decreases |run|
  {
    if run == [] then db else TableAfter(Changed(db, run[0]), run[1..])
  }

  ghost function MeantAfter(view: map<UploadMetadata, Parts>, run: seq<Change>): map<UploadMetadata, Parts>
    decreases |run|
  {
    if run == [] then view else MeantAfter(Meant(view, run[0]), run[1..])
  }

  lemma ChangeRefines(db: Db, c: Change)
    requires Tidy(db) && Issued(c.u)
    ensures Tidy(Changed(db, c)) && View(Changed(db, c)) == Meant(View(db), c)
  {
    match c
    case Initiated(u) => InitiateRefines(db, u);
    case Recorded(u, part) =>
      IdMembers(db, u);
      if u in Ids(db) {
        RecordRefines(db, u, part);
      }
    case Removed(u) => RemoveRefines(db, u);
  }

  /** In every run of changes to issued uploads, however they are named, the flat table is the
      map from uploads to their numbered parts. */
  lemma {:induction false} RunRefines(db: Db, run: seq<Change>)
    requires Tidy(db) && forall i :: 0 <= i < |run| ==> Issued(run[i].u)
    ensures Tidy(TableAfter(db, run)) && View(TableAfter(db, run)) == MeantAfter(View(db), run)
    decreases |run|
  {
    if run != [] {
      ChangeRefines(db, run[0]);
      RunRefines(Changed(db, run[0]), run[1..]);
    }
  }

  lemma RunFromEmpty(run: seq<Change>)
    requires forall i :: 0 <= i < |run| ==> Issued(run[i].u)
    ensures Tidy(TableAfter(map[], run)) && View(TableAfter(map[], run)) == MeantAfter(map[], run)
  {
    var empty: Db := map[];
    assert Ids(empty) == {} && View(empty) == map[];
    RunRefines(empty, run);
  }

  // ---------- reading the table ----------

  /** What the decoder makes of a record of the other kind: the encodings are not tagged, so
      it may fail or read something. */
  datatype Decoder = Decoder(uploadAsPart: UploadMetadata -> Option<PartMetadata>,
                             partAsUpload: PartMetadata -> Option<UploadMetadata>)
  {
    function Part(v: Value): Option<PartMetadata> {
      match v
      case PartValue(part) => Some(part)
      case UploadValue(u) => uploadAsPart(u)
      case _ => None
    }

    function Upload(v: Value): Option<UploadMetadata> {
      match v
      case UploadValue(u) => Some(u)
      case PartValue(part) => partAsUpload(part)
      case _ => None
    }
  }

  /** The records under the given keys, decoded as parts and collected by number. */
  function Collected(d: Decoder, db: Db, keys: seq<string>): Option<Parts>
    requires forall k :: k in keys ==> k in db
  {
    if keys == [] then Some(map[])
    else
      match (Collected(d, db, keys[..|keys| - 1]), d.Part(db[keys[|keys| - 1]]))
      case (Some(parts), Some(part)) => Some(WithPart(parts, part))
      case _ => None
  }

  ghost function PartsUnder(d: Decoder, db: Db, u: UploadMetadata): Option<Parts> {
    Collected(d, db, SortedKeys(Under(db.Keys, PartPrefix(u))))
  }

  ghost function GetOf(d: Decoder, db: Db, u: UploadMetadata): Result<Upload> {
    if !ValidRequest(u) then InvalidRequest
    else if DbKey(u) !in db then UploadNotFound
    else
      match (d.Upload(db[DbKey(u)]), PartsUnder(d, db, u))
      case (Some(metadata), Some(parts)) => Ok(Upload(metadata, parts))
      case _ => DecodeFailed
  }

  /** The numbers that the read of an upload takes from others' records: those that the metadata
      of the uploads nested in it decode to, and those of their parts. */
  function StrayNumbers(d: Decoder, view: map<UploadMetadata, Parts>, u: UploadMetadata): set<nat> {
    (set y | y in view && Nested(u, y) && d.uploadAsPart(y).Some? :: d.uploadAsPart(y).value.partNumber)
    + (set y, n | y in view && Nested(u, y) && n in view[y] :: n)
  }

  /** Every upload nested in this one decodes as a part. */
  ghost predicate Readable(d: Decoder, view: map<UploadMetadata, Parts>, u: UploadMetadata) {
    forall y :: y in view && Nested(u, y) ==> d.uploadAsPart(y).Some?
  }

  ghost predicate Undisturbed(view: map<UploadMetadata, Parts>, u: UploadMetadata) {
    forall y :: y in view ==> !Nested(u, y)
  }

  /** Where no upload is hidden, none is disturbed. */
  lemma PlainIsUndisturbed(view: map<UploadMetadata, Parts>, u: UploadMetadata)
    requires forall y :: y in view ==> !Hidden(y)
    ensures Undisturbed(view, u)
  {
    forall y | y in view
      ensures !Nested(u, y)
    {
      if Nested(u, y) {
        NestedIsHidden(u, y);
      }
    }
  }

  /** Some record under these keys decodes as the part of this number. */
  ghost predicate Gives(d: Decoder, db: Db, keys: seq<string>, n: nat) {
    exists k :: k in keys && k in db && d.Part(db[k]).Some? && d.Part(db[k]).value.partNumber == n
  }

  /** Collecting succeeds exactly if every record decodes, and finds exactly their numbers. */
  lemma {:induction false} CollectedNumbers(d: Decoder, db: Db, keys: seq<string>)
    requires forall k :: k in keys ==> k in db
    ensures Collected(d, db, keys).Some? <==> forall k :: k in keys ==> d.Part(db[k]).Some?
    ensures Collected(d, db, keys).Some? ==> forall n: nat :: n in Collected(d, db, keys).value <==> Gives(d, db, keys, n)
  {
    if keys != [] {
      var init, last := keys[..|keys| - 1], keys[|keys| - 1];
      assert keys == init + [last];
      CollectedNumbers(d, db, init);
      if Collected(d, db, keys).Some? {
        forall n: nat
          ensures Gives(d, db, keys, n) <==> n == d.Part(db[last]).value.partNumber || Gives(d, db, init, n)
        {
          GivesOneMore(d, db, init, last, n);
        }
      }
    }
  }

  lemma GivesOneMore(d: Decoder, db: Db, init: seq<string>, last: string, n: nat)
    requires last in db && d.Part(db[last]).Some?
    ensures Gives(d, db, init + [last], n) <==> n == d.Part(db[last]).value.partNumber || Gives(d, db, init, n)
  {
    assert last in init + [last];
    if k :| k in init && k in db && d.Part(db[k]).Some? && d.Part(db[k]).value.partNumber == n {
      assert k in init + [last];
    }
  }

  /** Reading an upload's parts.  It fails exactly if some nested upload does not decode as a
      part; otherwise it finds the upload's own numbers and the stray ones; and it finds exactly
      the upload's parts if nothing is nested, whatever the order of their keys as text. */
  lemma CollectedIsParts(d: Decoder, db: Db, u: UploadMetadata)
    requires Tidy(db) && Issued(u)
    ensures PartsUnder(d, db, u).Some? <==> Readable(d, View(db), u)
    ensures PartsUnder(d, db, u).Some? ==>
              PartsUnder(d, db, u).value.Keys == PartsOf(db, u).Keys + StrayNumbers(d, View(db), u)
    ensures Undisturbed(View(db), u) ==> PartsUnder(d, db, u) == Some(PartsOf(db, u))
  {
    var keys := SortedKeys(Under(db.Keys, PartPrefix(u)));
    CollectedNumbers(d, db, keys);
    ReadableExactly(d, db, u, keys);
    if Readable(d, View(db), u) {
      forall n: nat
        ensures n in Collected(d, db, keys).value <==> n in PartsOf(db, u).Keys + StrayNumbers(d, View(db), u)
      {
        NumberIsRead(d, db, u, keys, n);
      }
      if Undisturbed(View(db), u) {
        OwnPartsOnly(d, db, u, keys);
      }
    }
  }

  lemma ReadableExactly(d: Decoder, db: Db, u: UploadMetadata, keys: seq<string>)
    requires Tidy(db) && Issued(u) && forall k :: k in keys <==> k in db && PartPrefix(u) <= k
    ensures Readable(d, View(db), u) <==> forall k :: k in keys ==> d.Part(db[k]).Some?
  {
    forall y | y in Ids(db) && Nested(u, y)
      ensures DbKey(y) in keys && db[DbKey(y)] == UploadValue(y)
    {
      IdMembers(db, y);
    }
    forall k | k in keys
      ensures db[k].PartValue? || (db[k].UploadValue? && db[k].upload in View(db) && Nested(u, db[k].upload))
    {
      UnderPartPrefix(db, u, k);
    }
  }

  lemma NumberIsRead(d: Decoder, db: Db, u: UploadMetadata, keys: seq<string>, n: nat)
    requires Tidy(db) && Issued(u) && forall k :: k in keys <==> k in db && PartPrefix(u) <= k
    ensures Gives(d, db, keys, n) <==> n in PartsOf(db, u).Keys + StrayNumbers(d, View(db), u)
  {
    if Gives(d, db, keys, n) {
      var k :| k in keys && k in db && d.Part(db[k]).Some? && d.Part(db[k]).value.partNumber == n;
      KeyGivesNumber(d, db, u, k);
    }
    if n in PartsOf(db, u) {
      OwnNumber(d, db, u, keys, n);
    } else if n in StrayNumbers(d, View(db), u) {
      StrayNumber(d, db, u, keys, n);
    }
  }

  lemma OwnNumber(d: Decoder, db: Db, u: UploadMetadata, keys: seq<string>, n: nat)
    requires Tidy(db) && Issued(u) && n in PartsOf(db, u) && forall k :: k in keys <==> k in db && PartPrefix(u) <= k
    ensures Gives(d, db, keys, n)
  {
    PartsMembers(db, u, n);
    KeysAreMultipart(u, n);
    assert PartKey(u, n) in keys && d.Part(db[PartKey(u, n)]).value.partNumber == n;
  }

  lemma StrayNumber(d: Decoder, db: Db, u: UploadMetadata, keys: seq<string>, n: nat)
    requires Tidy(db) && Issued(u) && n in StrayNumbers(d, View(db), u)
    requires forall k :: k in keys <==> k in db && PartPrefix(u) <= k
    ensures Gives(d, db, keys, n)
  {
    if y :| y in View(db) && Nested(u, y) && d.uploadAsPart(y).Some? && d.uploadAsPart(y).value.partNumber == n {
      IdMembers(db, y);
      assert DbKey(y) in keys && d.Part(db[DbKey(y)]).value.partNumber == n;
    } else {
      var y :| y in View(db) && Nested(u, y) && n in View(db)[y];
      NestedNumber(d, db, u, keys, y, n);
    }
  }

  lemma NestedNumber(d: Decoder, db: Db, u: UploadMetadata, keys: seq<string>, y: UploadMetadata, n: nat)
    requires Tidy(db) && Issued(u) && y in Ids(db) && Nested(u, y) && n in PartsOf(db, y)
    requires forall k :: k in keys <==> k in db && PartPrefix(u) <= k
    ensures Gives(d, db, keys, n)
  {
    NestedIsHidden(u, y);
    PartsMembers(db, y, n);
    UnderPartsUnderKey(u, y, n);
    assert PartKey(y, n) in keys && d.Part(db[PartKey(y, n)]).value.partNumber == n;
  }

  lemma KeyGivesNumber(d: Decoder, db: Db, u: UploadMetadata, k: string)
    requires Tidy(db) && Issued(u) && k in db && PartPrefix(u) <= k && d.Part(db[k]).Some?
    ensures d.Part(db[k]).value.partNumber in PartsOf(db, u).Keys + StrayNumbers(d, View(db), u)
  {
    UnderPartPrefix(db, u, k);
    if db[k].PartValue? {
      var n := db[k].part.partNumber;
      if u in Ids(db) && k == PartKey(u, n) {
        PartsMembers(db, u, n);
      } else {
        var y :| y in Ids(db) && Nested(u, y) && k == PartKey(y, n);
        PartsMembers(db, y, n);
        assert y in View(db) && n in View(db)[y];
      }
    }
  }

  lemma OwnPartsOnly(d: Decoder, db: Db, u: UploadMetadata, keys: seq<string>)
    requires Tidy(db) && Issued(u) && Undisturbed(View(db), u)
    requires forall k :: k in keys <==> k in db && PartPrefix(u) <= k
    ensures Collected(d, db, keys) == Some(PartsOf(db, u))
  {
    forall k | k in keys
      ensures k in db && db[k].PartValue? && k == PartKey(u, db[k].part.partNumber)
    {
      UnderPartPrefix(db, u, k);
      assert forall y :: y in Ids(db) ==> y in View(db);
    }
    CollectedMembers(d, db, u, keys);
    var got, want := Collected(d, db, keys).value, PartsOf(db, u);
    forall n: nat
      ensures n in got <==> n in want
      ensures n in want ==> got[n] == want[n]
    {
      KeysAreMultipart(u, n);
      PartsMembers(db, u, n);
    }
    SamePartTables(got, want);
  }

  lemma {:induction false} CollectedMembers(d: Decoder, db: Db, u: UploadMetadata, keys: seq<string>)
    requires forall k :: k in keys ==> k in db && db[k].PartValue? && k == PartKey(u, db[k].part.partNumber)
    ensures Collected(d, db, keys).Some?
    ensures forall n: nat :: n in Collected(d, db, keys).value <==> PartKey(u, n) in keys
    ensures forall n: nat :: n in Collected(d, db, keys).value ==> db[PartKey(u, n)] == PartValue(Collected(d, db, keys).value[n])
  {
    if keys != [] {
      var end := |keys| - 1;
      var init, last := keys[..end], keys[end];
      assert keys == init + [last];
      CollectedMembers(d, db, u, init);
      var m := db[last].part.partNumber;
      forall n: nat
        ensures PartKey(u, n) == last <==> n == m
      {
        if PartKey(u, n) == last {
          PartKeyIsInjective(u, n, m);
        }
      }
    }
  }

  /** What reading an issued upload means for the uploads and parts of the table. */
  ghost predicate ReadsAs(d: Decoder, view: map<UploadMetadata, Parts>, u: UploadMetadata, r: Result<Upload>) {
    if !ValidRequest(u) then r == InvalidRequest
    else if u !in view then r == UploadNotFound
    else if !Readable(d, view, u) then r == DecodeFailed
    else
      && r.Ok? && r.value.metadata == u
      && r.value.parts.Keys == view[u].Keys + StrayNumbers(d, view, u)
      && (Undisturbed(view, u) ==> r.value.parts == view[u])
  }

  lemma GetMeans(d: Decoder, db: Db, u: UploadMetadata)
    requires Tidy(db) && Issued(u)
    ensures ReadsAs(d, View(db), u, GetOf(d, db, u))
  {
    IdMembers(db, u);
    CollectedIsParts(d, db, u);
  }

  /** What the listing scan makes of a run of keys. */
  ghost function ListOf(d: Decoder, db: Db, keys: seq<string>): Option<seq<Upload>>
    requires forall k :: k in keys ==> k in db
  {
    if keys == [] then Some([])
    else
      var k := keys[|keys| - 1];
      var before := ListOf(d, db, keys[..|keys| - 1]);
      if Contains(k, PART) then before
      else
        match (before, d.Upload(db[k]))
        case (Some(uploads), Some(u)) =>
          (match PartsUnder(d, db, u)
           case Some(parts) => Some(uploads + [Upload(u, parts)])
           case None => None)
        case _ => None
  }

  function StoredKeys(uploads: seq<Upload>): (keys: seq<string>)
    ensures |keys| == |uploads| && forall i {:trigger keys[i]} :: 0 <= i < |keys| ==> keys[i] == DbKey(uploads[i].metadata)
  {
    seq(|uploads|, i requires 0 <= i < |uploads| => DbKey(uploads[i].metadata))
  }

  /** A visible upload together with what reading its parts gives. */
  ghost predicate Listed(d: Decoder, db: Db, x: Upload) {
    x.metadata in View(db) && !Hidden(x.metadata) && PartsUnder(d, db, x.metadata) == Some(x.parts)
  }

  ghost predicate ListsExactly(d: Decoder, db: Db, keys: seq<string>, uploads: seq<Upload>) {
    && Ascending(StoredKeys(uploads))
    && (forall x :: x in uploads <==> Listed(d, db, x) && DbKey(x.metadata) in keys)
  }

  /** Every visible upload among these keys can be read. */
  ghost predicate AllReadable(d: Decoder, view: map<UploadMetadata, Parts>, keys: seq<string>) {
    forall u :: u in view && !Hidden(u) && DbKey(u) in keys ==> Readable(d, view, u)
  }

  lemma PartKeysContainPart(u: UploadMetadata, n: nat)
    ensures Contains(PartKey(u, n), PART)
  {
    assert PartKey(u, n)[|DbKey(u)|..|DbKey(u)| + 6] == PART;
    ContainsAt(PartKey(u, n), |DbKey(u)|);
  }

  lemma PlainIsMetadata(db: Db, k: string)
    requires Tidy(db) && k in db && MULTIPART_PREFIX <= k && !Contains(k, PART)
    ensures db[k].UploadValue? && k == DbKey(db[k].upload) && db[k].upload in Ids(db)
  {
    assert TidyAt(Ids(db), k, db[k]);
    forall u, n: nat
      ensures k != PartKey(u, n)
    {
      PartKeysContainPart(u, n);
    }
  }

  /** The scan of ascending keys succeeds exactly if every visible upload among them can be
      read, and then lists exactly those, once each, in key order. */
  lemma {:induction false} ListIsExact(d: Decoder, db: Db, keys: seq<string>)
    requires Tidy(db) && Ascending(keys) && forall k :: k in keys ==> k in db && MULTIPART_PREFIX <= k
    ensures ListOf(d, db, keys).Some? <==> AllReadable(d, View(db), keys)
    ensures ListOf(d, db, keys).Some? ==> ListsExactly(d, db, keys, ListOf(d, db, keys).value)
  {
    if keys != [] {
      var end := |keys| - 1;
      var init, k := keys[..end], keys[end];
      assert keys == init + [k];
      assert forall x :: x in init ==> x in keys;
      ListIsExact(d, db, init);
      if Contains(k, PART) {
        ListSkips(d, db, init, k);
      } else {
        PlainIsMetadata(db, k);
        ListTakes(d, db, init, k, db[k].upload);
      }
    }
  }

  /** What the listing of these keys gives is right. */
  ghost predicate ListsRight(d: Decoder, db: Db, keys: seq<string>)
    requires forall k :: k in keys ==> k in db
  {
    && (ListOf(d, db, keys).Some? <==> AllReadable(d, View(db), keys))
    && (ListOf(d, db, keys).Some? ==> ListsExactly(d, db, keys, ListOf(d, db, keys).value))
  }

  lemma ListLast(d: Decoder, db: Db, init: seq<string>, k: string)
    requires (forall x :: x in init ==> x in db) && k in db
    ensures forall x :: x in init + [k] ==> x in db
    ensures Contains(k, PART) ==> ListOf(d, db, init + [k]) == ListOf(d, db, init)
    ensures !Contains(k, PART) && db[k].UploadValue? ==>
              var before, parts := ListOf(d, db, init), PartsUnder(d, db, db[k].upload);
              && (ListOf(d, db, init + [k]).Some? <==> before.Some? && parts.Some?)
              && (before.Some? && parts.Some? ==>
                    ListOf(d, db, init + [k]).value == before.value + [Upload(db[k].upload, parts.value)])
  {
    assert (init + [k])[..|init|] == init;
  }

  lemma ListSkips(d: Decoder, db: Db, init: seq<string>, k: string)
    requires (forall x :: x in init ==> x in db) && k in db && Contains(k, PART) && ListsRight(d, db, init)
    ensures (forall x :: x in init + [k] ==> x in db) && ListsRight(d, db, init + [k])
  {
    ListLast(d, db, init, k);
    assert AllReadable(d, View(db), init + [k]) <==> AllReadable(d, View(db), init);
    if ListOf(d, db, init).Some? {
      SkipHidden(d, db, init, k, ListOf(d, db, init).value);
    }
  }

  lemma ListTakes(d: Decoder, db: Db, init: seq<string>, k: string, u: UploadMetadata)
    requires Tidy(db) && Ascending(init + [k]) && (forall x :: x in init ==> x in db) && ListsRight(d, db, init)
    requires k in db && db[k] == UploadValue(u) && u in Ids(db) && k == DbKey(u) && !Contains(k, PART)
    ensures (forall x :: x in init + [k] ==> x in db) && ListsRight(d, db, init + [k])
  {
    ListLast(d, db, init, k);
    CollectedIsParts(d, db, u);
    ReadableOneMore(d, db, init, k, u);
    if ListOf(d, db, init + [k]).Some? {
      ListOneMore(d, db, init, k, ListOf(d, db, init).value, Upload(u, PartsUnder(d, db, u).value));
    }
  }

  lemma ReadableOneMore(d: Decoder, db: Db, init: seq<string>, k: string, u: UploadMetadata)
    requires Tidy(db) && u in Ids(db) && k == DbKey(u) && !Contains(k, PART)
    ensures AllReadable(d, View(db), init + [k]) <==> AllReadable(d, View(db), init) && Readable(d, View(db), u)
  {
    assert u in View(db) && !Hidden(u) && k in init + [k];
    forall x | x in View(db) && DbKey(x) == k
      ensures x == u
    {
      DbKeyIsInjective(x, u);
    }
  }

  lemma SkipHidden(d: Decoder, db: Db, init: seq<string>, k: string, before: seq<Upload>)
    requires ListsExactly(d, db, init, before) && Contains(k, PART)
    ensures ListsExactly(d, db, init + [k], before)
  {
    forall x | Listed(d, db, x)
      ensures DbKey(x.metadata) in init + [k] <==> DbKey(x.metadata) in init
    {
      assert DbKey(x.metadata) != k;
    }
  }

  lemma ListOneMore(d: Decoder, db: Db, init: seq<string>, k: string, before: seq<Upload>, upload: Upload)
    requires Tidy(db) && ListsExactly(d, db, init, before) && Ascending(init + [k])
    requires upload.metadata in Ids(db) && k == DbKey(upload.metadata) && !Contains(k, PART)
    requires PartsUnder(d, db, upload.metadata) == Some(upload.parts)
    ensures ListsExactly(d, db, init + [k], before + [upload])
  {
    OnlyOneListed(d, db, k, upload);
    forall x | x in before
      ensures Less(DbKey(x.metadata), k)
    {
      var i :| 0 <= i < |init| && init[i] == DbKey(x.metadata);
      assert Less((init + [k])[i], (init + [k])[|init|]);
    }
    AppendAscending(before, upload);
  }

  lemma OnlyOneListed(d: Decoder, db: Db, k: string, upload: Upload)
    requires Tidy(db) && upload.metadata in Ids(db) && k == DbKey(upload.metadata) && !Contains(k, PART)
    requires PartsUnder(d, db, upload.metadata) == Some(upload.parts)
    ensures Listed(d, db, upload)
    ensures forall x :: Listed(d, db, x) && DbKey(x.metadata) == k ==> x == upload
  {
    forall x | Listed(d, db, x) && DbKey(x.metadata) == k
      ensures x == upload
    {
      DbKeyIsInjective(x.metadata, upload.metadata);
    }
  }

  lemma AppendAscending(uploads: seq<Upload>, upload: Upload)
    requires Ascending(StoredKeys(uploads))
    requires forall x :: x in uploads ==> Less(DbKey(x.metadata), DbKey(upload.metadata))
    ensures Ascending(StoredKeys(uploads + [upload]))
  {
    var keys, all := StoredKeys(uploads), StoredKeys(uploads + [upload]);
    assert all == keys + [DbKey(upload.metadata)];
    forall i | 0 <= i < |keys|
      ensures Less(all[i], all[|keys|])
    {
      assert uploads[i] in uploads;
    }
  }

  /** The listing under a prefix: it fails exactly if some visible upload there cannot be read. */
  lemma ListMeans(d: Decoder, db: Db, prefix: string)
    requires Tidy(db) && MULTIPART_PREFIX <= prefix
    ensures var r := ListOf(d, db, SortedKeys(Under(db.Keys, prefix)));
            && (r.Some? <==> forall u :: u in View(db) && !Hidden(u) && prefix <= DbKey(u) ==> Readable(d, View(db), u))
            && (r.Some? ==> Ascending(StoredKeys(r.value)))
            && (r.Some? ==> forall x :: x in r.value <==> Listed(d, db, x) && prefix <= DbKey(x.metadata))
  {
    var keys := SortedKeys(Under(db.Keys, prefix));
    ListIsExact(d, db, keys);
    forall u | u in View(db)
      ensures DbKey(u) in keys <==> prefix <= DbKey(u)
    {
      IdMembers(db, u);
    }
  }

  // ---------- the operations ----------

  /** The handle on the metadata database. */
  class UploadStore {
    const decoder: Decoder
    var db: Db

    constructor (db: Db, decoder: Decoder)
      ensures this.db == db && this.decoder == decoder
    {
      this.db := db;
      this.decoder := decoder;
    }

    method Initiate(u: UploadMetadata) returns (r: Result<Upload>)
      modifies this`db
      ensures r == if ValidRequest(u) then Ok(Upload(u, map[])) else InvalidRequest
      ensures db == if ValidRequest(u) then PutUpload(old(db), u) else old(db)
      ensures r.Ok? && Tidy(old(db)) && Issued(u) ==>
                Tidy(db) && View(db) == Meant(View(old(db)), Initiated(u))
    {
      if !ValidRequest(u) {
        return InvalidRequest;
      }
      if Tidy(db) && Issued(u) {
        InitiateRefines(db, u);
      }
      db := PutUpload(db, u);
      r := Ok(Upload(u, map[]));
    }

    method ScanParts(u: UploadMetadata) returns (parts: Option<Parts>)
      ensures parts == PartsUnder(decoder, db, u)
    {
      var found := ScanPrefix(db.Keys, PartPrefix(u));
      var collected: Parts := map[];
      var i := 0;
      while i < |found|
        invariant 0 <= i <= |found|
        invariant forall k :: k in found[..i] ==> k in db
        invariant Collected(decoder, db, found[..i]) == Some(collected)
      {
        assert found[i] in found;
        CollectOne(decoder, db, found, i);
        var part := decoder.Part(db[found[i]]);
        if part.None? {
          CollectFails(decoder, db, found, i + 1);
          return None;
        }
        collected := WithPart(collected, part.value);
        i := i + 1;
      }
      assert found[..i] == found;
      parts := Some(collected);
    }

    method Get(u: UploadMetadata) returns (r: Result<Upload>)
      ensures r == GetOf(decoder, db, u)
      ensures Tidy(db) && Issued(u) ==> ReadsAs(decoder, View(db), u, r)
    {
      if Tidy(db) && Issued(u) {
        GetMeans(decoder, db, u);
      }
      if !ValidRequest(u) {
        return InvalidRequest;
      }
      var k := DbKey(u);
      if k !in db {
        return UploadNotFound;
      }
      var metadata := decoder.Upload(db[k]);
      if metadata.None? {
        return DecodeFailed;
      }
      var parts := ScanParts(u);
      r := if parts.None? then DecodeFailed else Ok(Upload(metadata.value, parts.value));
    }

    method RecordPart(u: UploadMetadata, part: PartMetadata) returns (r: Result<()>)
      modifies this`db
      ensures r == if !ValidRequest(u) then InvalidRequest else if DbKey(u) in old(db) then Ok(()) else UploadNotFound
      ensures db == if r.Ok? then PutPart(old(db), u, part) else old(db)
      ensures ValidRequest(u) && Tidy(old(db)) && Issued(u) ==>
                && Tidy(db) && View(db) == Meant(View(old(db)), Recorded(u, part))
                && (r.Ok? <==> u in View(old(db)))
    {
      if !ValidRequest(u) {
        return InvalidRequest;
      }
      if Tidy(db) && Issued(u) {
        IdMembers(db, u);
        ChangeRefines(db, Recorded(u, part));
      }
      if DbKey(u) !in db {
        return UploadNotFound;
      }
      db := PutPart(db, u, part);
      r := Ok(());
    }

    method Abort(u: UploadMetadata) returns (r: Result<()>)
      modifies this`db
      ensures r == if ValidRequest(u) then Ok(()) else InvalidRequest
      ensures db == if ValidRequest(u) then RemoveUpload(old(db), u) else old(db)
      ensures r.Ok? && Tidy(old(db)) && Issued(u) ==>
                Tidy(db) && View(db) == Meant(View(old(db)), Removed(u))
    {
      if !ValidRequest(u) {
        return InvalidRequest;
      }
      if Tidy(db) && Issued(u) {
        RemoveRefines(db, u);
      }
      DeleteRecords(u);
      r := Ok(());
    }

    /** Delete the metadata key, collect the keys under the part prefix, delete those. */
    method DeleteRecords(u: UploadMetadata)
      modifies this`db
      ensures db == RemoveUpload(old(db), u)
    {
      KeysAreMultipart(u, 0);
      db := db - {DbKey(u)};
      ghost var before := db;
      var found := ScanPrefix(db.Keys, PartPrefix(u));
      var i := 0;
      while i < |found|
        invariant 0 <= i <= |found|
        invariant forall k :: k in db <==> k in before && k !in found[..i]
        invariant forall k :: k in db ==> db[k] == before[k]
      {
        assert found[..i + 1] == found[..i] + [found[i]];
        db := db - {found[i]};
        i := i + 1;
      }
      assert found[..i] == found;
      assert db == RemoveUpload(old(db), u);
    }

    method Complete(u: UploadMetadata) returns (r: Result<Upload>)
      modifies this`db
      ensures r == GetOf(decoder, old(db), u)
      ensures db == if r.Ok? then RemoveUpload(old(db), u) else old(db)
      ensures Tidy(old(db)) && Issued(u) ==>
                && ReadsAs(decoder, View(old(db)), u, r)
                && Tidy(db) && View(db) == if r.Ok? then Without(View(old(db)), u) else View(old(db))
    {
      r := Get(u);
      if r.Ok? {
        if Tidy(db) && Issued(u) {
          RemoveRefines(db, u);
        }
        DeleteRecords(u);
      }
    }

    /** The shared scan of both listings: skip every key with `:part:` in it, decode the
        others, look up the parts of each; one record that does not decode fails it all. */
    method ListWithPrefix(prefix: string) returns (uploads: Option<seq<Upload>>)
      ensures uploads == ListOf(decoder, db, SortedKeys(Under(db.Keys, prefix)))
    {
      var found := ScanPrefix(db.Keys, prefix);
      var listed: seq<Upload> := [];
      var i := 0;
      while i < |found|
        invariant 0 <= i <= |found|
        invariant forall k :: k in found[..i] ==> k in db
        invariant ListOf(decoder, db, found[..i]) == Some(listed)
      {
        var k := found[i];
        assert k in found && found[..i + 1] == found[..i] + [k];
        assert found[..i + 1][..i] == found[..i];
        i := i + 1;
        if Contains(k, PART) {
          continue;
        }
        var metadata := decoder.Upload(db[k]);
        if metadata.None? {
          ListFails(decoder, db, found, i);
          return None;
        }
        var parts := ScanParts(metadata.value);
        if parts.None? {
          ListFails(decoder, db, found, i);
          return None;
        }
        listed := listed + [Upload(metadata.value, parts.value)];
      }
      assert found[..i] == found;
      uploads := Some(listed);
    }

    /** The uploads of one bucket: exactly its visible ones, each with what reading it gives. */
    method List(bucket: string) returns (uploads: Option<seq<Upload>>)
      ensures uploads == ListOf(decoder, db, SortedKeys(Under(db.Keys, MULTIPART_PREFIX + bucket + ":")))
      ensures Tidy(db) && ':' !in bucket ==>
                && (uploads.Some? <==> forall u :: u in View(db) && !Hidden(u) && u.bucket == bucket ==> Readable(decoder, View(db), u))
                && (uploads.Some? ==> Ascending(StoredKeys(uploads.value)))
                && (uploads.Some? ==> forall x :: x in uploads.value <==> Listed(decoder, db, x) && x.metadata.bucket == bucket)
    {
      uploads := ListWithPrefix(MULTIPART_PREFIX + bucket + ":");
      if Tidy(db) && ':' !in bucket {
        ListMeans(decoder, db, MULTIPART_PREFIX + bucket + ":");
        forall x: UploadMetadata | x in Ids(db)
          ensures MULTIPART_PREFIX + bucket + ":" <= DbKey(x) <==> x.bucket == bucket
        {
          BucketPrefixIsExact(bucket, x);
        }
      }
    }

    method ListAll() returns (uploads: Option<seq<Upload>>)
      ensures uploads == ListOf(decoder, db, SortedKeys(Under(db.Keys, MULTIPART_PREFIX)))
      ensures Tidy(db) ==>
                && (uploads.Some? <==> forall u :: u in View(db) && !Hidden(u) ==> Readable(decoder, View(db), u))
                && (uploads.Some? ==> Ascending(StoredKeys(uploads.value)))
                && (uploads.Some? ==> forall x :: x in uploads.value <==> Listed(decoder, db, x))
    {
      uploads := ListWithPrefix(MULTIPART_PREFIX);
      if Tidy(db) {
        ListMeans(decoder, db, MULTIPART_PREFIX);
        forall x: UploadMetadata
          ensures MULTIPART_PREFIX <= DbKey(x)
        {
          KeysAreMultipart(x, 0);
        }
      }
    }
  }

  lemma CollectOne(d: Decoder, db: Db, keys: seq<string>, i: nat)
    requires i < |keys| && (forall k :: k in keys ==> k in db) && Collected(d, db, keys[..i]).Some?
    ensures forall k :: k in keys[..i + 1] ==> k in db
    ensures Collected(d, db, keys[..i + 1])
            == match d.Part(db[keys[i]])
               case Some(part) => Some(WithPart(Collected(d, db, keys[..i]).value, part))
               case None => None
  {
    assert keys[..i + 1][..i] == keys[..i] && keys[..i + 1][i] == keys[i];
  }

  lemma {:induction false} CollectFails(d: Decoder, db: Db, keys: seq<string>, i: nat)
    requires i <= |keys| && (forall k :: k in keys ==> k in db) && Collected(d, db, keys[..i]).None?
    ensures Collected(d, db, keys).None?
    decreases |keys|
  {
    if i < |keys| {
      var init := keys[..|keys| - 1];
      assert init[..i] == keys[..i];
      CollectFails(d, db, init, i);
    } else {
      assert keys[..i] == keys;
    }
  }

  lemma {:induction false} ListFails(d: Decoder, db: Db, keys: seq<string>, i: nat)
    requires i <= |keys| && (forall k :: k in keys ==> k in db) && ListOf(d, db, keys[..i]).None?
    ensures ListOf(d, db, keys).None?
    decreases |keys|
  {
    if i < |keys| {
      var init := keys[..|keys| - 1];
      assert init[..i] == keys[..i];
      ListFails(d, db, init, i);
    } else {
      assert keys[..i] == keys;
    }
  }
}
