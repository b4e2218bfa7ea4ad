/** The metadata database: one string-keyed table holding buckets, objects, locks and
    multipart records under key prefixes.  Commands change the table; the table refines
    three separate maps. */
module MetadataDb {
  import opened Text
  import opened Locks

  // ---------- records ----------

  datatype Bucket = Bucket(name: string, createdAt: nat)

  datatype ObjectMetadata = ObjectMetadata(bucket: string, key: string, size: nat, etag: Digest)

  datatype UploadMetadata = UploadMetadata(uploadId: string, bucket: string, key: string)

  datatype PartMetadata = PartMetadata(partNumber: nat, etag: Digest, size: nat)

  /** Stored values; the binary encoding is injective, so a value is its decoding. */
  datatype Value =
    | BucketValue(bucket: Bucket)
    | ObjectValue(metadata: ObjectMetadata)
    | LockValue(lock: LockState)
    | UploadValue(upload: UploadMetadata)
    | PartValue(part: PartMetadata)

  type Db = map<string, Value>

  const BUCKET_PREFIX := "bkt:"
  const OBJECT_PREFIX := "obj:"
  const MULTIPART_PREFIX := "mpu:"
  const LOCK_PREFIX := "lock:"

  const MAX_OBJECT_KEY_LENGTH := 1024
  const MIN_BUCKET_NAME_LENGTH := 3
  const MAX_BUCKET_NAME_LENGTH := 63

  predicate ValidObjectKey(key: string) {
    && key != []
    && Utf8Len(key) <= MAX_OBJECT_KEY_LENGTH
    && '\0' !in key
    && !Contains(key, "..")
    && key[0] != '/' && key[|key| - 1] != '/'
  }

  predicate BucketChar(c: char) {
    'a' <= c <= 'z' || '0' <= c <= '9' || c == '-' || c == '.'
  }

  predicate ValidBucketName(name: string) {
    && MIN_BUCKET_NAME_LENGTH <= |name| <= MAX_BUCKET_NAME_LENGTH
    && (forall c :: c in name ==> BucketChar(c))
    && name[0] != '-' && name[0] != '.' && name[|name| - 1] != '-' && name[|name| - 1] != '.'
  }

  /** A valid bucket name has 3 to 63 characters, only lower-case letters, digits, hyphens and dots,
      and begins and ends with a letter or a digit. */
  lemma BucketNameExactly(name: string)
    ensures ValidBucketName(name) <==>
            && 3 <= |name| <= 63
            && (forall i :: 0 <= i < |name| ==> 'a' <= name[i] <= 'z' || '0' <= name[i] <= '9' || name[i] == '-' || name[i] == '.')
            && ('a' <= name[0] <= 'z' || '0' <= name[0] <= '9')
            && ('a' <= name[|name| - 1] <= 'z' || '0' <= name[|name| - 1] <= '9')
  {
    forall i | 0 <= i < |name|
      ensures name[i] in name
    {
    }
  }

  /** A valid object key has 1 to 1024 bytes, no NUL, no two dots in a row, and no slash at either
      end. */
  lemma ObjectKeyExactly(key: string)
    ensures ValidObjectKey(key) <==>
            && 1 <= |key| && Utf8Len(key) <= 1024
            && (forall i :: 0 <= i < |key| ==> key[i] != '\0')
            && (forall i :: 0 <= i < |key| - 1 && key[i] == '.' ==> key[i + 1] != '.')
            && key[0] != '/' && key[|key| - 1] != '/'
  {
    if Contains(key, "..") {
      var i :| 0 <= i <= |key| && ".." <= key[i..];
      assert key[i..][0] == ".."[0] && key[i..][1] == ".."[1];
    }
    forall i | 0 <= i < |key| - 1 && key[i] == '.' && key[i + 1] == '.'
      ensures Contains(key, "..")
    {
      assert key[i..][..2] == "..";
      assert ".." <= key[i..];
    }
  }

  /** The name an object has in the lock table, the object table and on disk. */
  function FullKey(bucket: string, key: string): string {
    bucket + "/" + key
  }

  /** With slash-free buckets the full key tells bucket and key apart. */
  lemma FullKeyIsInjective(b1: string, k1: string, b2: string, k2: string)
    requires '/' !in b1 && '/' !in b2
    requires FullKey(b1, k1) == FullKey(b2, k2)
    ensures b1 == b2 && k1 == k2
  {
    var s := FullKey(b1, k1);
    assert s[|b1|] == '/' && s[|b2|] == '/';
    assert forall i :: 0 <= i < |b1| ==> s[i] == b1[i] && b1[i] in b1;
    assert forall i :: 0 <= i < |b2| ==> s[i] == b2[i] && b2[i] in b2;
    assert |b1| == |b2|;
    assert b1 == s[..|b1|] && b2 == s[..|b2|];
    assert k1 == s[|b1| + 1..] && k2 == s[|b2| + 1..];
  }

  // ---------- commands on the table ----------

  datatype Command =
    | CreateBucket(bucket: Bucket)
    | DeleteBucket(name: string)
    | PutObjectMetadata(metadata: ObjectMetadata)
    | DeleteObjectMetadata(objectBucket: string, objectKey: string)
    | AcquireLock(lockBucket: string, lockKey: string, lockType: LockType, holder: LockHolder)
    | ReleaseLock(lockBucket: string, lockKey: string, holder: LockHolder)

  datatype Outcome = Applied | InvalidOperation | BucketAlreadyExists

  /** One command applied to the table at local time `now`. */
  function ApplyDb(db: Db, cmd: Command, now: nat): (Db, Outcome) {
    match cmd
    case CreateBucket(bucket) =>
      var k := BUCKET_PREFIX + bucket.name;
      if !ValidBucketName(bucket.name) then (db, InvalidOperation)
      else if k in db then (db, BucketAlreadyExists)
      else (db[k := BucketValue(Bucket(bucket.name, now))], Applied)
    case DeleteBucket(name) =>
      if !ValidBucketName(name) then (db, InvalidOperation) else (db - {BUCKET_PREFIX + name}, Applied)
    case PutObjectMetadata(metadata) =>
      if !ValidObjectKey(metadata.key) then (db, InvalidOperation)
      else (db[OBJECT_PREFIX + FullKey(metadata.bucket, metadata.key) := ObjectValue(metadata)], Applied)
    case DeleteObjectMetadata(bucket, key) =>
      if !ValidObjectKey(key) then (db, InvalidOperation) else (db - {OBJECT_PREFIX + FullKey(bucket, key)}, Applied)
    case AcquireLock(bucket, key, lockType, holder) =>
      var k := LOCK_PREFIX + FullKey(bucket, key);
      (db[k := LockValue(Acquire(StoredLock(db, k), lockType, holder).0)], Applied)
    case ReleaseLock(bucket, key, holder) =>
      var k := LOCK_PREFIX + FullKey(bucket, key);
      match StoredLock(db, k)
      case None => (db, Applied)
      case Some(state) =>
        match Release(state, holder)
        case None => (db - {k}, Applied)
        case Some(left) => (db[k := LockValue(left)], Applied)
  }

  function StoredLock(db: Db, k: string): Option<LockState> {
    if k in db && db[k].LockValue? then Some(db[k].lock) else None
  }

  /** Each prefix holds one kind of value; that is what lets the decoder succeed. */
  ghost predicate WellTypedAt(k: string, v: Value) {
    && (BUCKET_PREFIX <= k ==> v.BucketValue?)
    && (OBJECT_PREFIX <= k ==> v.ObjectValue?)
    && (LOCK_PREFIX <= k ==> v.LockValue?)
  }

  ghost predicate WellTyped(db: Db) {
    forall k :: k in db ==> WellTypedAt(k, db[k])
  }

  // ---------- the three maps the table stands for ----------

  datatype Meta = Meta(buckets: map<string, Bucket>, objects: map<string, ObjectMetadata>, locks: LockTable)

  const EMPTY := Meta(map[], map[], map[])

  ghost function Section(db: Db, prefix: string): map<string, Value> {
    var names := set k | k in db && prefix <= k :: k[|prefix|..];
    map n | n in names && prefix + n in db :: db[prefix + n]
  }

  ghost function BucketsOf(s: map<string, Value>): map<string, Bucket> {
    map n | n in s && s[n].BucketValue? :: s[n].bucket
  }

  ghost function ObjectsOf(s: map<string, Value>): map<string, ObjectMetadata> {
    map n | n in s && s[n].ObjectValue? :: s[n].metadata
  }

  ghost function LocksOf(s: map<string, Value>): LockTable {
    map n | n in s && s[n].LockValue? :: s[n].lock
  }

  ghost function Abs(db: Db): Meta {
    Meta(BucketsOf(Section(db, BUCKET_PREFIX)), ObjectsOf(Section(db, OBJECT_PREFIX)), LocksOf(Section(db, LOCK_PREFIX)))
  }

  function Step(m: Meta, cmd: Command, now: nat): (Meta, Outcome) {
    match cmd
    case CreateBucket(bucket) =>
      if !ValidBucketName(bucket.name) then (m, InvalidOperation)
      else if bucket.name in m.buckets then (m, BucketAlreadyExists)
      else (m.(buckets := m.buckets[bucket.name := Bucket(bucket.name, now)]), Applied)
    case DeleteBucket(name) =>
      if !ValidBucketName(name) then (m, InvalidOperation) else (m.(buckets := m.buckets - {name}), Applied)
    case PutObjectMetadata(metadata) =>
      if !ValidObjectKey(metadata.key) then (m, InvalidOperation)
      else (m.(objects := m.objects[FullKey(metadata.bucket, metadata.key) := metadata]), Applied)
    case DeleteObjectMetadata(bucket, key) =>
      if !ValidObjectKey(key) then (m, InvalidOperation)
      else (m.(objects := m.objects - {FullKey(bucket, key)}), Applied)
    case AcquireLock(bucket, key, lockType, holder) =>
      (m.(locks := AcquireIn(m.locks, FullKey(bucket, key), lockType, holder)), Applied)
    case ReleaseLock(bucket, key, holder) =>
      (m.(locks := ReleaseIn(m.locks, FullKey(bucket, key), holder)), Applied)
  }

  lemma SectionMembers(db: Db, prefix: string)
    ensures forall n :: n in Section(db, prefix) <==> prefix + n in db
    ensures forall n :: n in Section(db, prefix) ==> Section(db, prefix)[n] == db[prefix + n]
  {
    var names := set k | k in db && prefix <= k :: k[|prefix|..];
    forall n | prefix + n in db
      ensures n in names
    {
      assert prefix <= prefix + n && (prefix + n)[|prefix|..] == n;
    }
  }

  /** A section depends only on the keys under its prefix. */
  lemma SectionFrame(db: Db, db': Db, prefix: string)
    requires forall k :: prefix <= k ==> (k in db <==> k in db') && (k in db ==> db[k] == db'[k])
    ensures Section(db, prefix) == Section(db', prefix)
  {
    SectionMembers(db, prefix);
    SectionMembers(db', prefix);
    forall n
      ensures n in Section(db, prefix) <==> n in Section(db', prefix)
      ensures n in Section(db, prefix) ==> Section(db, prefix)[n] == Section(db', prefix)[n]
    {
      assert prefix <= prefix + n;
    }
  }

  lemma SectionPut(db: Db, prefix: string, name: string, v: Value)
    ensures Section(db[prefix + name := v], prefix) == Section(db, prefix)[name := v]
  {
    SectionMembers(db, prefix);
    SectionMembers(db[prefix + name := v], prefix);
    forall n | prefix + n == prefix + name
      ensures n == name
    {
      assert n == (prefix + n)[|prefix|..];
    }
  }

  lemma SectionDelete(db: Db, prefix: string, name: string)
    ensures Section(db - {prefix + name}, prefix) == Section(db, prefix) - {name}
  {
    var db' := db - {prefix + name};
    SectionMembers(db, prefix);
    SectionMembers(db', prefix);
    forall n | n != name
      ensures prefix + n in db' <==> prefix + n in db
    {
      assert n == (prefix + n)[|prefix|..] && name == (prefix + name)[|prefix|..];
    }
  }

  ghost predicate Known(prefix: string) {
    prefix == BUCKET_PREFIX || prefix == OBJECT_PREFIX || prefix == LOCK_PREFIX || prefix == MULTIPART_PREFIX
  }

  lemma KnownPrefixesDiffer(p: string, q: string, name: string)
    requires Known(p) && Known(q) && p != q
    ensures !(q <= p + name)
  {
    assert (p + name)[0] == p[0];
    assert BUCKET_PREFIX[0] == 'b' && OBJECT_PREFIX[0] == 'o' && LOCK_PREFIX[0] == 'l' && MULTIPART_PREFIX[0] == 'm';
  }

  lemma OtherSections(db: Db, db': Db, prefix: string, name: string, q: string)
    requires Known(prefix) && Known(q) && q != prefix
    requires forall k :: k != prefix + name ==> (k in db <==> k in db') && (k in db ==> db[k] == db'[k])
    ensures Section(db', q) == Section(db, q)
  {
    KnownPrefixesDiffer(prefix, q, name);
    SectionFrame(db, db', q);
  }

  ghost predicate Fits(prefix: string, v: Value) {
    && (prefix == BUCKET_PREFIX ==> v.BucketValue?)
    && (prefix == OBJECT_PREFIX ==> v.ObjectValue?)
    && (prefix == LOCK_PREFIX ==> v.LockValue?)
  }

  lemma PutIsTyped(db: Db, prefix: string, name: string, v: Value)
    requires WellTyped(db) && Known(prefix) && Fits(prefix, v)
    ensures WellTyped(db[prefix + name := v])
  {
    forall q | Known(q) && q != prefix
      ensures !(q <= prefix + name)
    {
      KnownPrefixesDiffer(prefix, q, name);
    }
    assert Known(BUCKET_PREFIX) && Known(OBJECT_PREFIX) && Known(LOCK_PREFIX);
    assert WellTypedAt(prefix + name, v);
  }

  lemma BucketWrite(db: Db, db': Db, name: string)
    requires forall k :: k != BUCKET_PREFIX + name ==> (k in db <==> k in db') && (k in db ==> db[k] == db'[k])
    ensures Abs(db').objects == Abs(db).objects && Abs(db').locks == Abs(db).locks
  {
    OtherSections(db, db', BUCKET_PREFIX, name, OBJECT_PREFIX);
    OtherSections(db, db', BUCKET_PREFIX, name, LOCK_PREFIX);
  }

  lemma ObjectWrite(db: Db, db': Db, name: string)
    requires forall k :: k != OBJECT_PREFIX + name ==> (k in db <==> k in db') && (k in db ==> db[k] == db'[k])
    ensures Abs(db').buckets == Abs(db).buckets && Abs(db').locks == Abs(db).locks
  {
    OtherSections(db, db', OBJECT_PREFIX, name, BUCKET_PREFIX);
    OtherSections(db, db', OBJECT_PREFIX, name, LOCK_PREFIX);
  }

  lemma LockWrite(db: Db, db': Db, name: string)
    requires forall k :: k != LOCK_PREFIX + name ==> (k in db <==> k in db') && (k in db ==> db[k] == db'[k])
    ensures Abs(db').buckets == Abs(db).buckets && Abs(db').objects == Abs(db).objects
  {
    OtherSections(db, db', LOCK_PREFIX, name, BUCKET_PREFIX);
    OtherSections(db, db', LOCK_PREFIX, name, OBJECT_PREFIX);
  }

  lemma StoredLockRefines(db: Db, name: string)
    requires WellTyped(db)
    ensures StoredLock(db, LOCK_PREFIX + name) == At(Abs(db).locks, name)
  {
    SectionMembers(db, LOCK_PREFIX);
  }

  lemma BucketsOfChanges(s: map<string, Value>, name: string, bucket: Bucket)
    ensures BucketsOf(s[name := BucketValue(bucket)]) == BucketsOf(s)[name := bucket]
    ensures BucketsOf(s - {name}) == BucketsOf(s) - {name}
  {
  }

  lemma CreateRefines(db: Db, name: string, bucket: Bucket)
    requires WellTyped(db)
    ensures var db' := db[BUCKET_PREFIX + name := BucketValue(bucket)];
            WellTyped(db') && Abs(db') == Abs(db).(buckets := Abs(db).buckets[name := bucket])
  {
    var db' := db[BUCKET_PREFIX + name := BucketValue(bucket)];
    BucketsOfChanges(Section(db, BUCKET_PREFIX), name, bucket);
    SectionPut(db, BUCKET_PREFIX, name, BucketValue(bucket));
    PutIsTyped(db, BUCKET_PREFIX, name, BucketValue(bucket));
    BucketWrite(db, db', name);
    assert Abs(db').buckets == Abs(db).buckets[name := bucket];
  }

  lemma ObjectsOfChanges(s: map<string, Value>, name: string, metadata: ObjectMetadata)
    ensures ObjectsOf(s[name := ObjectValue(metadata)]) == ObjectsOf(s)[name := metadata]
    ensures ObjectsOf(s - {name}) == ObjectsOf(s) - {name}
  {
  }

  lemma PutObjectRefines(db: Db, name: string, metadata: ObjectMetadata)
    requires WellTyped(db)
    ensures var db' := db[OBJECT_PREFIX + name := ObjectValue(metadata)];
            WellTyped(db') && Abs(db') == Abs(db).(objects := Abs(db).objects[name := metadata])
  {
    var db' := db[OBJECT_PREFIX + name := ObjectValue(metadata)];
    ObjectsOfChanges(Section(db, OBJECT_PREFIX), name, metadata);
    SectionPut(db, OBJECT_PREFIX, name, ObjectValue(metadata));
    PutIsTyped(db, OBJECT_PREFIX, name, ObjectValue(metadata));
    ObjectWrite(db, db', name);
    assert Abs(db').objects == Abs(db).objects[name := metadata];
  }

  lemma LocksOfChanges(s: map<string, Value>, name: string, state: LockState)
    ensures LocksOf(s[name := LockValue(state)]) == LocksOf(s)[name := state]
    ensures LocksOf(s - {name}) == LocksOf(s) - {name}
  {
  }

  lemma PutLockRefines(db: Db, name: string, state: LockState)
    requires WellTyped(db)
    ensures var db' := db[LOCK_PREFIX + name := LockValue(state)];
            WellTyped(db') && Abs(db') == Abs(db).(locks := Abs(db).locks[name := state])
  {
    var db' := db[LOCK_PREFIX + name := LockValue(state)];
    LocksOfChanges(Section(db, LOCK_PREFIX), name, state);
    SectionPut(db, LOCK_PREFIX, name, LockValue(state));
    PutIsTyped(db, LOCK_PREFIX, name, LockValue(state));
    LockWrite(db, db', name);
    assert Abs(db').locks == Abs(db).locks[name := state];
  }

  lemma DeleteBucketRefines(db: Db, name: string)
    ensures Abs(db - {BUCKET_PREFIX + name}) == Abs(db).(buckets := Abs(db).buckets - {name})
  {
    var db' := db - {BUCKET_PREFIX + name};
    BucketsOfChanges(Section(db, BUCKET_PREFIX), name, Bucket("", 0));
    SectionDelete(db, BUCKET_PREFIX, name);
    BucketWrite(db, db', name);
    assert Abs(db').buckets == Abs(db).buckets - {name};
  }

  lemma DeleteObjectRefines(db: Db, name: string)
    ensures Abs(db - {OBJECT_PREFIX + name}) == Abs(db).(objects := Abs(db).objects - {name})
  {
    var db' := db - {OBJECT_PREFIX + name};
    ObjectsOfChanges(Section(db, OBJECT_PREFIX), name, ObjectMetadata("", "", 0, Sha256([])));
    SectionDelete(db, OBJECT_PREFIX, name);
    ObjectWrite(db, db', name);
    assert Abs(db').objects == Abs(db).objects - {name};
  }

  lemma DeleteLockRefines(db: Db, name: string)
    ensures Abs(db - {LOCK_PREFIX + name}) == Abs(db).(locks := Abs(db).locks - {name})
  {
    var db' := db - {LOCK_PREFIX + name};
    LocksOfChanges(Section(db, LOCK_PREFIX), name, LockState(Read, []));
    SectionDelete(db, LOCK_PREFIX, name);
    LockWrite(db, db', name);
    assert Abs(db').locks == Abs(db).locks - {name};
  }

  lemma BucketPresence(db: Db, name: string)
    requires WellTyped(db)
    ensures BUCKET_PREFIX + name in db <==> name in Abs(db).buckets
  {
    SectionMembers(db, BUCKET_PREFIX);
    assert BUCKET_PREFIX <= BUCKET_PREFIX + name;
  }

  /** The new table and the outcome are those of the command on the three maps. */
  ghost predicate Refines(db: Db, cmd: Command, now: nat, db': Db, outcome: Outcome) {
    WellTyped(db') && Abs(db') == Step(Abs(db), cmd, now).0 && outcome == Step(Abs(db), cmd, now).1
  }

  /** What each command does to buckets and objects, and when it is refused. */
  lemma CommandExactly(m: Meta, cmd: Command, now: nat)
    ensures var (m', outcome) := Step(m, cmd, now);
            && (outcome == BucketAlreadyExists <==>
                  cmd.CreateBucket? && ValidBucketName(cmd.bucket.name) && cmd.bucket.name in m.buckets)
            && (outcome == InvalidOperation <==>
                  || (cmd.CreateBucket? && !ValidBucketName(cmd.bucket.name))
                  || (cmd.DeleteBucket? && !ValidBucketName(cmd.name))
                  || (cmd.PutObjectMetadata? && !ValidObjectKey(cmd.metadata.key))
                  || (cmd.DeleteObjectMetadata? && !ValidObjectKey(cmd.objectKey)))
            && (outcome != Applied ==> m' == m)
    ensures var (m', outcome) := Step(m, cmd, now);
            outcome == Applied ==>
              && (forall n :: n in m'.buckets <==>
                    if cmd.CreateBucket? && n == cmd.bucket.name then true
                    else n in m.buckets && !(cmd.DeleteBucket? && n == cmd.name))
              && (forall k :: k in m'.objects <==>
                    if cmd.PutObjectMetadata? && k == FullKey(cmd.metadata.bucket, cmd.metadata.key) then true
                    else k in m.objects && !(cmd.DeleteObjectMetadata? && k == FullKey(cmd.objectBucket, cmd.objectKey)))
              && (forall k :: k in m'.objects && k in m.objects
                              && !(cmd.PutObjectMetadata? && k == FullKey(cmd.metadata.bucket, cmd.metadata.key))
                    ==> m'.objects[k] == m.objects[k])
              && (cmd.PutObjectMetadata? ==> m'.objects[FullKey(cmd.metadata.bucket, cmd.metadata.key)] == cmd.metadata)
              && (cmd.CreateBucket? ==> m'.buckets[cmd.bucket.name] == Bucket(cmd.bucket.name, now))
  {
  }

  /** What each command does to the locks. */
  lemma LockCommandExactly(m: Meta, cmd: Command, now: nat)
    ensures Step(m, cmd, now).0.locks
            == match cmd
               case AcquireLock(bucket, key, lockType, holder) => AcquireIn(m.locks, FullKey(bucket, key), lockType, holder)
               case ReleaseLock(bucket, key, holder) => ReleaseIn(m.locks, FullKey(bucket, key), holder)
               case _ => m.locks
  {
  }

  lemma StepBucket(m: Meta, bucket: Bucket, name: string, now: nat)
    ensures ValidBucketName(bucket.name) && bucket.name !in m.buckets ==>
              Step(m, CreateBucket(bucket), now) == (m.(buckets := m.buckets[bucket.name := Bucket(bucket.name, now)]), Applied)
    ensures ValidBucketName(name) ==> Step(m, DeleteBucket(name), now) == (m.(buckets := m.buckets - {name}), Applied)
  {
  }

  lemma StepPut(m: Meta, metadata: ObjectMetadata, now: nat, name: string)
    requires ValidObjectKey(metadata.key) && name == FullKey(metadata.bucket, metadata.key)
    ensures Step(m, PutObjectMetadata(metadata), now) == (m.(objects := m.objects[name := metadata]), Applied)
  {
  }

  lemma StepDelete(m: Meta, bucket: string, key: string, now: nat, name: string)
    requires ValidObjectKey(key) && name == FullKey(bucket, key)
    ensures Step(m, DeleteObjectMetadata(bucket, key), now) == (m.(objects := m.objects - {name}), Applied)
  {
  }

  lemma StepAcquire(m: Meta, cmd: Command, now: nat, name: string)
    requires cmd.AcquireLock? && name == FullKey(cmd.lockBucket, cmd.lockKey)
    ensures Step(m, cmd, now)
            == (m.(locks := m.locks[name := Acquire(At(m.locks, name), cmd.lockType, cmd.holder).0]), Applied)
  {
  }

  lemma StepRelease(m: Meta, cmd: Command, now: nat, name: string)
    requires cmd.ReleaseLock? && name == FullKey(cmd.lockBucket, cmd.lockKey)
    ensures At(m.locks, name).None? ==> Step(m, cmd, now) == (m, Applied)
    ensures At(m.locks, name).Some? ==>
              var left := Release(At(m.locks, name).value, cmd.holder);
              Step(m, cmd, now) == (m.(locks := if left.None? then m.locks - {name} else m.locks[name := left.value]), Applied)
  {
  }

  lemma MinusIsTyped(db: Db, k: string)
    requires WellTyped(db)
    ensures WellTyped(db - {k})
  {
  }

  lemma CreateCommand(db: Db, bucket: Bucket, now: nat)
    requires WellTyped(db) && ValidBucketName(bucket.name) && bucket.name !in Abs(db).buckets
    ensures Refines(db, CreateBucket(bucket), now, db[BUCKET_PREFIX + bucket.name := BucketValue(Bucket(bucket.name, now))], Applied)
  {
    CreateRefines(db, bucket.name, Bucket(bucket.name, now));
    StepBucket(Abs(db), bucket, bucket.name, now);
  }

  lemma DeleteBucketCommand(db: Db, name: string, now: nat)
    requires WellTyped(db) && ValidBucketName(name)
    ensures Refines(db, DeleteBucket(name), now, db - {BUCKET_PREFIX + name}, Applied)
  {
    DeleteBucketRefines(db, name);
    StepBucket(Abs(db), Bucket(name, now), name, now);
    MinusIsTyped(db, BUCKET_PREFIX + name);
  }

  lemma PutCommand(db: Db, metadata: ObjectMetadata, now: nat, name: string)
    requires WellTyped(db) && ValidObjectKey(metadata.key) && name == FullKey(metadata.bucket, metadata.key)
    ensures Refines(db, PutObjectMetadata(metadata), now, db[OBJECT_PREFIX + name := ObjectValue(metadata)], Applied)
  {
    PutObjectRefines(db, name, metadata);
    StepPut(Abs(db), metadata, now, name);
  }

  lemma DeleteCommand(db: Db, bucket: string, key: string, now: nat, name: string)
    requires WellTyped(db) && ValidObjectKey(key) && name == FullKey(bucket, key)
    ensures Refines(db, DeleteObjectMetadata(bucket, key), now, db - {OBJECT_PREFIX + name}, Applied)
  {
    DeleteObjectRefines(db, name);
    StepDelete(Abs(db), bucket, key, now, name);
    MinusIsTyped(db, OBJECT_PREFIX + name);
  }

  lemma AcquireCommand(db: Db, cmd: Command, now: nat, name: string)
    requires WellTyped(db) && cmd.AcquireLock? && name == FullKey(cmd.lockBucket, cmd.lockKey)
    ensures Refines(db, cmd, now,
                    db[LOCK_PREFIX + name := LockValue(Acquire(StoredLock(db, LOCK_PREFIX + name), cmd.lockType, cmd.holder).0)],
                    Applied)
  {
    StoredLockRefines(db, name);
    StepAcquire(Abs(db), cmd, now, name);
    PutLockRefines(db, name, Acquire(At(Abs(db).locks, name), cmd.lockType, cmd.holder).0);
  }

  lemma ReleaseCommand(db: Db, cmd: Command, now: nat, name: string)
    requires WellTyped(db) && cmd.ReleaseLock? && name == FullKey(cmd.lockBucket, cmd.lockKey)
    ensures var stored := StoredLock(db, LOCK_PREFIX + name);
            Refines(db, cmd, now,
                    if stored.None? then db
                    else
                      var left := Release(stored.value, cmd.holder);
                      if left.None? then db - {LOCK_PREFIX + name} else db[LOCK_PREFIX + name := LockValue(left.value)],
                    Applied)
  {
    StoredLockRefines(db, name);
    StepRelease(Abs(db), cmd, now, name);
    var stored := At(Abs(db).locks, name);
    if stored.Some? {
      var left := Release(stored.value, cmd.holder);
      if left.Some? {
        PutLockRefines(db, name, left.value);
      } else {
        DeleteLockRefines(db, name);
        MinusIsTyped(db, LOCK_PREFIX + name);
      }
    }
  }

  /** Each command on the table is the same command on the three maps, with the same outcome. */
  lemma ApplyRefines(db: Db, cmd: Command, now: nat)
    requires WellTyped(db)
    ensures WellTyped(ApplyDb(db, cmd, now).0)
    ensures Abs(ApplyDb(db, cmd, now).0) == Step(Abs(db), cmd, now).0
    ensures ApplyDb(db, cmd, now).1 == Step(Abs(db), cmd, now).1
  {
    assert Refines(db, cmd, now, ApplyDb(db, cmd, now).0, ApplyDb(db, cmd, now).1) by {
      match cmd
      case CreateBucket(bucket) =>
        BucketPresence(db, bucket.name);
        if ValidBucketName(bucket.name) && bucket.name !in Abs(db).buckets {
          CreateCommand(db, bucket, now);
        }
      case DeleteBucket(name) =>
        if ValidBucketName(name) {
          DeleteBucketCommand(db, name, now);
        }
      case PutObjectMetadata(metadata) =>
        if ValidObjectKey(metadata.key) {
          PutCommand(db, metadata, now, FullKey(metadata.bucket, metadata.key));
        }
      case DeleteObjectMetadata(bucket, key) =>
        if ValidObjectKey(key) {
          DeleteCommand(db, bucket, key, now, FullKey(bucket, key));
        }
      case AcquireLock(bucket, key, _, _) => AcquireCommand(db, cmd, now, FullKey(bucket, key));
      case ReleaseLock(bucket, key, _) => ReleaseCommand(db, cmd, now, FullKey(bucket, key));
    }
  }
}
