/** Applying committed entries, restoring a snapshot, and what a restored or restarted
    node ends up with. */
module StateMachine {
  import opened Text
  import opened Locks
  import opened MetadataDb

  datatype LogId = LogId(leaderId: nat, index: nat)

  datatype Payload = Blank | Normal(cmd: Command) | Membership(nodes: set<nat>)

  datatype Entry = Entry(logId: LogId, payload: Payload)

  // ---------- replay of a command sequence ----------

  datatype Run = Run(meta: Meta, ok: bool)

  /** Applies `cmds` in order and stops at the first one that fails, keeping what came
      before it.  `clock` gives the local time at which each position is applied. */
  function ApplyAll(m: Meta, cmds: seq<Command>, clock: nat -> nat): (run: Run) {
    if cmds == [] then Run(m, true)
    else
      var before := ApplyAll(m, cmds[..|cmds| - 1], clock);
      if !before.ok then before
      else
        var (after, outcome) := Step(before.meta, cmds[|cmds| - 1], clock(|cmds| - 1));
        Run(after, outcome.Applied?)
  }

  function CommandsOf(entries: seq<Entry>): seq<Command> {
    if entries == [] then []
    else CommandsOf(entries[..|entries| - 1])
         + match entries[|entries| - 1].payload
           case Normal(cmd) => [cmd]
           case _ => []
  }

  const DATA_PREFIXES: seq<string> := [BUCKET_PREFIX, OBJECT_PREFIX, MULTIPART_PREFIX]

  predicate DataKey(k: string) {
    BUCKET_PREFIX <= k || OBJECT_PREFIX <= k || MULTIPART_PREFIX <= k
  }

  function Part(source: Db, prefix: string): Db {
    map k | k in source && prefix <= k :: source[k]
  }

  /** The table after a snapshot restore: the source's data keys and the target's others. */
  function Restored(target: Db, source: Db): Db {
    (map k | k in target && !DataKey(k) :: target[k])
    + Part(source, BUCKET_PREFIX) + Part(source, OBJECT_PREFIX) + Part(source, MULTIPART_PREFIX)
  }

  class Storage {
    var db: Db
    var lastApplied: Option<LogId>
    var membership: Option<(LogId, set<nat>)>

    constructor ()
      ensures db == map[] && lastApplied == None && membership == None
    {
      db, lastApplied, membership := map[], None, None;
    }

    method ApplyCommand(cmd: Command, now: nat) returns (outcome: Outcome)
      requires WellTyped(db)
      modifies this`db
      ensures (db, outcome) == ApplyDb(old(db), cmd, now)
      ensures WellTyped(db)
      ensures (Abs(db), outcome) == Step(Abs(old(db)), cmd, now)
    {
      ApplyRefines(db, cmd, now);
      match cmd
      case CreateBucket(bucket) => outcome := CreateBucket(bucket.name, now);
      case DeleteBucket(name) => outcome := DeleteBucket(name);
      case PutObjectMetadata(metadata) =>
        if !ValidObjectKey(metadata.key) {
          return InvalidOperation;
        }
        db := db[OBJECT_PREFIX + FullKey(metadata.bucket, metadata.key) := ObjectValue(metadata)];
        outcome := Applied;
      case DeleteObjectMetadata(bucket, key) =>
        if !ValidObjectKey(key) {
          return InvalidOperation;
        }
        db := db - {OBJECT_PREFIX + FullKey(bucket, key)};
        outcome := Applied;
      case AcquireLock(bucket, key, lockType, holder) =>
        var _ := AcquireLock(bucket, key, lockType, holder);
        outcome := Applied;
      case ReleaseLock(bucket, key, holder) =>
        ReleaseLock(bucket, key, holder);
        outcome := Applied;
    }

    method CreateBucket(name: string, now: nat) returns (outcome: Outcome)
      modifies this`db
      ensures outcome == if !ValidBucketName(name) then InvalidOperation
                         else if BUCKET_PREFIX + name in old(db) then BucketAlreadyExists else Applied
      ensures db == if outcome.Applied? then old(db)[BUCKET_PREFIX + name := BucketValue(Bucket(name, now))] else old(db)
    {
      if !ValidBucketName(name) {
        return InvalidOperation;
      }
      var k := BUCKET_PREFIX + name;
      if k in db {
        return BucketAlreadyExists;
      }
      db := db[k := BucketValue(Bucket(name, now))];
      outcome := Applied;
    }

    method DeleteBucket(name: string) returns (outcome: Outcome)
      modifies this`db
      ensures outcome == if ValidBucketName(name) then Applied else InvalidOperation
      ensures db == if ValidBucketName(name) then old(db) - {BUCKET_PREFIX + name} else old(db)
    {
      if !ValidBucketName(name) {
        return InvalidOperation;
      }
      db := db - {BUCKET_PREFIX + name};
      outcome := Applied;
    }

    /** `granted` is what the caller of the library function learns; the state machine discards it. */
    method AcquireLock(bucket: string, key: string, lockType: LockType, holder: LockHolder) returns (granted: bool)
      requires WellTyped(db)
      modifies this`db
      ensures var k := LOCK_PREFIX + FullKey(bucket, key);
              var (state, g) := Acquire(StoredLock(old(db), k), lockType, holder);
              db == old(db)[k := LockValue(state)] && granted == g
    {
      var k := LOCK_PREFIX + FullKey(bucket, key);
      if k !in db {
        db := db[k := LockValue(LockState(lockType, [holder]))];
        return true;
      }
      var state := db[k].lock;
      assert db[k := LockValue(state)] == db;
      if state.IsHeldBy(holder) {
        return true;
      }
      if !state.CanAcquire(lockType, holder) {
        return false;
      }
      db := db[k := LockValue(state.(holders := state.holders + [holder]))];
      granted := true;
    }

    method ReleaseLock(bucket: string, key: string, holder: LockHolder)
      requires WellTyped(db)
      modifies this`db
      ensures var k := LOCK_PREFIX + FullKey(bucket, key);
              db == match StoredLock(old(db), k)
                    case None => old(db)
                    case Some(state) =>
                      match Release(state, holder)
                      case None => old(db) - {k}
                      case Some(left) => old(db)[k := LockValue(left)]
    {
      var k := LOCK_PREFIX + FullKey(bucket, key);
      if k in db {
        var state := db[k].lock;
        var kept := Without(state.holders, holder);
        if kept == [] {
          db := db - {k};
        } else {
          db := db[k := LockValue(state.(holders := kept))];
        }
      }
    }

    method ApplyEntry(entry: Entry, now: nat) returns (ok: bool)
      requires WellTyped(db)
      modifies this`db, this`membership
      ensures WellTyped(db) && Uploads(db) == Uploads(old(db))
      ensures Run(Abs(db), ok) == ApplyPayload(Abs(old(db)), entry.payload, now)
      ensures membership == if entry.payload.Membership? then Some((entry.logId, entry.payload.nodes)) else old(membership)
    {
      ok := true;
      match entry.payload {
        case Blank =>
        case Normal(cmd) =>
          UploadsUntouched(db, cmd, now);
          var outcome := ApplyCommand(cmd, now);
          ok := outcome == Applied;
        case Membership(nodes) =>
          membership := Some((entry.logId, nodes));
      }
    }

    /** Applies a batch.  The applied position is stored only after the last entry; a
        failing entry leaves the earlier ones applied and the position as it was.  The stored
        membership is that of the last entry applied that carries one. */
    method ApplyToStateMachine(entries: seq<Entry>, clock: nat -> nat) returns (ok: bool)
      requires WellTyped(db)
      modifies this
      ensures WellTyped(db) && Uploads(db) == Uploads(old(db))
      ensures Run(Abs(db), ok) == ApplyAll(Abs(old(db)), CommandsOf(entries), clock)
      ensures lastApplied == if ok && entries != [] then Some(entries[|entries| - 1].logId) else old(lastApplied)
      ensures exists k :: StopsAt(Abs(old(db)), entries, clock, k) && IsLatest(old(membership), entries, k, membership)
    {
      var last: Option<LogId> := None;
      var n := 0;
      ghost var m := Abs(db);
      ghost var before := membership;
      for i := 0 to |entries|
        invariant IsLatest(before, entries, i, membership)
        invariant WellTyped(db) && Uploads(db) == Uploads(old(db)) && lastApplied == old(lastApplied)
        invariant n == |CommandsOf(entries[..i])|
        invariant Run(Abs(db), true) == ApplyAll(m, CommandsOf(entries[..i]), clock)
        invariant last == if i == 0 then None else Some(entries[i - 1].logId)
      {
        NextEntry(m, entries, i, clock);
        LatestGrows(before, entries, i, membership);
        var applied := ApplyEntry(entries[i], clock(n));
        if !applied {
          StuckAfterFailure(m, entries, i + 1, clock);
          assert StopsAt(m, entries, clock, i);
          return false;
        }
        if entries[i].payload.Normal? {
          n := n + 1;
        }
        last := Some(entries[i].logId);
      }
      assert entries[..|entries|] == entries;
      assert StopsAt(m, entries, clock, |entries|);
      if last.Some? {
        lastApplied := last;
      }
      ok := true;
    }

    /** Deletes the target's data keys prefix by prefix, then copies the source's. */
    method RestoreDefaultCf(source: Db)
      modifies this`db
      ensures db == Restored(old(db), source)
    {
      for i := 0 to |DATA_PREFIXES|
        invariant db == Cut(old(db), i)
      {
        DeletePrefix(DATA_PREFIXES[i]);
      }
      for i := 0 to |DATA_PREFIXES|
        invariant db == Fill(Cut(old(db), 3), source, i)
      {
        CopyPrefix(source, DATA_PREFIXES[i]);
      }
      CutIsTrimmed(old(db));
      FillIsMerged(Cut(old(db), 3), source);
    }

    method DeletePrefix(prefix: string)
      modifies this`db
      ensures db == map k | k in old(db) && !(prefix <= k) :: old(db)[k]
    {
      var doomed := ScanPrefix(db.Keys, prefix);
      for i := 0 to |doomed|
        invariant forall k :: k in db <==> k in old(db) && k !in doomed[..i]
        invariant forall k :: k in db ==> db[k] == old(db)[k]
      {
        db := db - {doomed[i]};
      }
    }

    method CopyPrefix(source: Db, prefix: string)
      modifies this`db
      ensures db == old(db) + Part(source, prefix)
    {
      var keys := ScanPrefix(source.Keys, prefix);
      ChosenIsPart(source, prefix, keys);
      NoneChosen(db, source, keys);
      for i := 0 to |keys|
        invariant db == old(db) + Chosen(source, keys[..i])
      {
        ChooseOne(old(db), source, keys, i);
        db := db[keys[i] := source[keys[i]]];
      }
      assert keys[..|keys|] == keys;
    }

    /** The logical part of a snapshot install. */
    method InstallSnapshot(source: Db, lastLogId: Option<LogId>, lastMembership: Option<(LogId, set<nat>)>)
      modifies this
      ensures db == Restored(old(db), source)
      ensures lastApplied == if lastLogId.Some? then lastLogId else old(lastApplied)
      ensures membership == lastMembership
    {
      RestoreDefaultCf(source);
      if lastLogId.Some? {
        lastApplied := lastLogId;
      }
      membership := lastMembership;
    }
  }

  /** Exactly the first `k` entries were applied: all of them, or those before the first failure. */
  ghost predicate StopsAt(m: Meta, entries: seq<Entry>, clock: nat -> nat, k: nat) {
    && k <= |entries| && ApplyAll(m, CommandsOf(entries[..k]), clock).ok
    && (k < |entries| ==> !ApplyAll(m, CommandsOf(entries[..k + 1]), clock).ok)
  }

  /** The membership after the first `k` entries: that of the last one among them that carries
      one, or the one before if none does. */
  ghost predicate IsLatest(before: Option<(LogId, set<nat>)>, entries: seq<Entry>, k: nat, now: Option<(LogId, set<nat>)>)
    requires k <= |entries|
  {
    && (forall i :: 0 <= i < k && LastChange(entries, k, i) ==> now == Some((entries[i].logId, entries[i].payload.nodes)))
    && (NoChange(entries, k) ==> now == before)
  }

  lemma LatestGrows(before: Option<(LogId, set<nat>)>, entries: seq<Entry>, k: nat, now: Option<(LogId, set<nat>)>)
    requires k < |entries| && IsLatest(before, entries, k, now)
    ensures IsLatest(before, entries, k + 1,
                     if entries[k].payload.Membership? then Some((entries[k].logId, entries[k].payload.nodes)) else now)
  {
    if entries[k].payload.Membership? {
      LatestIsLast(before, entries, k, k + 1);
    } else {
      LatestStays(before, entries, k, k + 1, now);
    }
  }

  lemma LatestIsLast(before: Option<(LogId, set<nat>)>, entries: seq<Entry>, k: nat, n: nat)
    requires n == k + 1 <= |entries| && entries[k].payload.Membership?
    ensures IsLatest(before, entries, n, Some((entries[k].logId, entries[k].payload.nodes)))
  {
    forall i | 0 <= i < n && LastChange(entries, n, i)
      ensures i == k
    {
    }
  }

  lemma LatestStays(before: Option<(LogId, set<nat>)>, entries: seq<Entry>, k: nat, n: nat, now: Option<(LogId, set<nat>)>)
    requires n == k + 1 <= |entries| && !entries[k].payload.Membership? && IsLatest(before, entries, k, now)
    ensures IsLatest(before, entries, n, now)
  {
    forall i | 0 <= i < n && LastChange(entries, n, i)
      ensures now == Some((entries[i].logId, entries[i].payload.nodes))
    {
      assert LastChange(entries, k, i);
    }
    assert NoChange(entries, n) ==> NoChange(entries, k);
  }

  /** There is one such membership. */
  lemma {:induction false} LatestIsUnique(before: Option<(LogId, set<nat>)>, entries: seq<Entry>, k: nat,
                                          a: Option<(LogId, set<nat>)>, b: Option<(LogId, set<nat>)>)
    requires k <= |entries| && IsLatest(before, entries, k, a) && IsLatest(before, entries, k, b)
    ensures a == b
  {
    HasLastChange(entries, k);
  }

  lemma {:induction false} HasLastChange(entries: seq<Entry>, k: nat)
    requires k <= |entries|
    ensures (exists i :: 0 <= i < k && LastChange(entries, k, i)) || NoChange(entries, k)
  {
    if k > 0 {
      if entries[k - 1].payload.Membership? {
        assert LastChange(entries, k, k - 1);
      } else {
        var n: nat := k - 1;
        HasLastChange(entries, n);
        if i :| 0 <= i < n && LastChange(entries, n, i) {
          assert LastChange(entries, k, i);
        }
      }
    }
  }

  /** A batch applied as far as `done`, and after a crash from its start as far as `k`: the
      membership is that of one uninterrupted run as far as `k` whenever the repetition gets at
      least as far as the first run, or comes to a membership itself. */
  lemma RepeatedMembership(before: Option<(LogId, set<nat>)>, entries: seq<Entry>, done: nat, k: nat,
                           crashed: Option<(LogId, set<nat>)>, now: Option<(LogId, set<nat>)>)
    requires done <= |entries| && k <= |entries|
    requires IsLatest(before, entries, done, crashed) && IsLatest(crashed, entries, k, now)
    ensures done <= k || (exists i :: 0 <= i < k && entries[i].payload.Membership?) ==> IsLatest(before, entries, k, now)
    ensures k < done && NoChange(entries, k) ==> now == crashed
  {
    HasLastChange(entries, k);
    if done <= k && NoChange(entries, k) {
      assert crashed == before;
    }
  }

  /** None of the first `k` entries carries a membership. */
  ghost predicate NoChange(entries: seq<Entry>, k: nat)
    requires k <= |entries|
  {
    forall i :: 0 <= i < k ==> !entries[i].payload.Membership?
  }

  /** The last entry among the first `k` that carries a membership. */
  ghost predicate LastChange(entries: seq<Entry>, k: nat, i: nat)
    requires i < k <= |entries|
  {
    entries[i].payload.Membership? && forall j :: i < j < k ==> !entries[j].payload.Membership?
  }

  ghost function Chosen(source: Db, keys: seq<string>): Db {
    map k | k in source && k in keys :: source[k]
  }

  lemma NoneChosen(base: Db, source: Db, keys: seq<string>)
    ensures base + Chosen(source, keys[..0]) == base
  {
  }

  lemma ChosenIsPart(source: Db, prefix: string, keys: seq<string>)
    requires forall k :: k in keys <==> k in source && prefix <= k
    ensures Chosen(source, keys) == Part(source, prefix)
  {
  }

  lemma ChooseOne(base: Db, source: Db, keys: seq<string>, i: nat)
    requires i < |keys| && keys[i] in source
    ensures (base + Chosen(source, keys[..i]))[keys[i] := source[keys[i]]] == base + Chosen(source, keys[..i + 1])
  {
    assert keys[..i + 1] == keys[..i] + [keys[i]];
  }

  ghost function Cut(db: Db, n: nat): Db
    requires n <= |DATA_PREFIXES|
  {
    if n == 0 then db
    else var before := Cut(db, n - 1); map k | k in before && !(DATA_PREFIXES[n - 1] <= k) :: before[k]
  }

  ghost function Fill(base: Db, source: Db, n: nat): Db
    requires n <= |DATA_PREFIXES|
  {
    if n == 0 then base
    else Fill(base, source, n - 1) + Part(source, DATA_PREFIXES[n - 1])
  }

  lemma CutIsTrimmed(target: Db)
    ensures Cut(target, 3) == map k | k in target && !DataKey(k) :: target[k]
  {
    var c1, c2, c3 := Cut(target, 1), Cut(target, 2), Cut(target, 3);
    assert Cut(target, 0) == target;
    assert forall k :: k in c1 <==> k in target && !(BUCKET_PREFIX <= k);
    assert forall k :: k in c2 <==> k in c1 && !(OBJECT_PREFIX <= k);
    assert forall k :: k in c3 <==> k in c2 && !(MULTIPART_PREFIX <= k);
  }

  lemma FillIsMerged(base: Db, source: Db)
    ensures Fill(base, source, 3)
            == base + Part(source, BUCKET_PREFIX) + Part(source, OBJECT_PREFIX) + Part(source, MULTIPART_PREFIX)
  {
    assert Fill(base, source, 0) == base;
    assert Fill(base, source, 1) == base + Part(source, DATA_PREFIXES[0]);
    assert Fill(base, source, 2) == base + Part(source, DATA_PREFIXES[0]) + Part(source, DATA_PREFIXES[1]);
  }

  /** The multipart records, which no command touches. */
  ghost function Uploads(db: Db): Db {
    map k | k in db && MULTIPART_PREFIX <= k :: db[k]
  }

  ghost function ApplyPayload(m: Meta, payload: Payload, now: nat): Run {
    match payload
    case Normal(cmd) => Run(Step(m, cmd, now).0, Step(m, cmd, now).1.Applied?)
    case _ => Run(m, true)
  }

  /** The sequence of commands grows by what one entry carries. */
  lemma NextEntry(m: Meta, entries: seq<Entry>, i: nat, clock: nat -> nat)
    requires i < |entries|
    ensures CommandsOf(entries[..i + 1]) == CommandsOf(entries[..i])
            + (if entries[i].payload.Normal? then [entries[i].payload.cmd] else [])
    ensures var before := ApplyAll(m, CommandsOf(entries[..i]), clock);
            ApplyAll(m, CommandsOf(entries[..i + 1]), clock)
            == if before.ok then ApplyPayload(before.meta, entries[i].payload, clock(|CommandsOf(entries[..i])|)) else before
  {
    var upTo := entries[..i + 1];
    assert upTo[..|upTo| - 1] == entries[..i] && upTo[|upTo| - 1] == entries[i];
    var cmds := CommandsOf(upTo);
    if entries[i].payload.Normal? {
      assert cmds[..|cmds| - 1] == CommandsOf(entries[..i]);
    } else {
      assert cmds == CommandsOf(entries[..i]);
    }
  }

  lemma UploadsUntouched(db: Db, cmd: Command, now: nat)
    requires WellTyped(db)
    ensures Uploads(ApplyDb(db, cmd, now).0) == Uploads(db)
  {
    forall p, name | p != MULTIPART_PREFIX && Known(p)
      ensures !(MULTIPART_PREFIX <= p + name)
    {
      KnownPrefixesDiffer(p, MULTIPART_PREFIX, name);
    }
    assert Known(BUCKET_PREFIX) && Known(OBJECT_PREFIX) && Known(LOCK_PREFIX);
  }

  /** A failed prefix decides the whole sequence. */
  lemma {:induction false} StuckAfterFailure(m: Meta, entries: seq<Entry>, i: nat, clock: nat -> nat)
    requires i <= |entries| && !ApplyAll(m, CommandsOf(entries[..i]), clock).ok
    ensures ApplyAll(m, CommandsOf(entries), clock) == ApplyAll(m, CommandsOf(entries[..i]), clock)
    decreases |entries| - i
  {
    if i < |entries| {
      NextEntry(m, entries, i, clock);
      StuckAfterFailure(m, entries, i + 1, clock);
    } else {
      assert entries[..i] == entries;
    }
  }
}
