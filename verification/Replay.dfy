/** Two ways a node re-reads history: from a snapshot, and by repeating a batch that a
    crash cut short. */
module Replay {
  import opened Text
  import opened Locks
  import opened MetadataDb
  import opened StateMachine

  // ---------- snapshot restore ----------

  /** Restore takes every data key from the source and every other key, locks among them,
      from the target. */
  lemma RestoredKey(target: Db, source: Db, k: string)
    ensures DataKey(k) ==> (k in Restored(target, source) <==> k in source)
    ensures DataKey(k) && k in source ==> Restored(target, source)[k] == source[k]
    ensures !DataKey(k) ==> (k in Restored(target, source) <==> k in target)
    ensures !DataKey(k) && k in target ==> Restored(target, source)[k] == target[k]
  {
  }

  lemma RestoreRefines(target: Db, source: Db)
    requires WellTyped(target) && WellTyped(source)
    ensures WellTyped(Restored(target, source))
    ensures Abs(Restored(target, source)) == Abs(source).(locks := Abs(target).locks)
    ensures Uploads(Restored(target, source)) == Uploads(source)
  {
    var r := Restored(target, source);
    forall k
      ensures k in r ==> WellTypedAt(k, r[k])
    {
      RestoredKey(target, source, k);
    }
    RestoredSection(target, source, BUCKET_PREFIX);
    RestoredSection(target, source, OBJECT_PREFIX);
    RestoredLocks(target, source);
    RestoredUploads(target, source);
  }

  lemma RestoredSection(target: Db, source: Db, prefix: string)
    requires prefix == BUCKET_PREFIX || prefix == OBJECT_PREFIX
    ensures Section(Restored(target, source), prefix) == Section(source, prefix)
  {
    forall k | prefix <= k
      ensures (k in Restored(target, source) <==> k in source) && (k in source ==> Restored(target, source)[k] == source[k])
    {
      RestoredKey(target, source, k);
    }
    SectionFrame(Restored(target, source), source, prefix);
  }

  lemma RestoredLocks(target: Db, source: Db)
    ensures Section(Restored(target, source), LOCK_PREFIX) == Section(target, LOCK_PREFIX)
  {
    forall k | LOCK_PREFIX <= k
      ensures (k in Restored(target, source) <==> k in target) && (k in target ==> Restored(target, source)[k] == target[k])
    {
      var name := k[|LOCK_PREFIX|..];
      assert k == LOCK_PREFIX + name;
      KnownPrefixesDiffer(LOCK_PREFIX, BUCKET_PREFIX, name);
      KnownPrefixesDiffer(LOCK_PREFIX, OBJECT_PREFIX, name);
      KnownPrefixesDiffer(LOCK_PREFIX, MULTIPART_PREFIX, name);
      RestoredKey(target, source, k);
    }
    SectionFrame(Restored(target, source), target, LOCK_PREFIX);
  }

  lemma RestoredUploads(target: Db, source: Db)
    ensures Uploads(Restored(target, source)) == Uploads(source)
  {
    forall k | MULTIPART_PREFIX <= k
      ensures (k in Restored(target, source) <==> k in source) && (k in source ==> Restored(target, source)[k] == source[k])
    {
      RestoredKey(target, source, k);
    }
  }

  /** Bucket names and object metadata: what the log alone determines. */
  ghost predicate SameData(a: Meta, b: Meta) {
    a.buckets.Keys == b.buckets.Keys && a.objects == b.objects
  }

  lemma StepKeepsSameData(a: Meta, b: Meta, cmd: Command, nowA: nat, nowB: nat)
    requires SameData(a, b)
    ensures SameData(Step(a, cmd, nowA).0, Step(b, cmd, nowB).0)
    ensures Step(a, cmd, nowA).1 == Step(b, cmd, nowB).1
  {
  }

  /** A node restored from a snapshot taken after the first `i` commands, over any previous
      contents and any clocks, and then fed the rest, agrees with a node that applied the
      whole log from an empty store: same verdict, same bucket names, same objects. */
  lemma {:induction false} SnapshotEqualsReplay(log: seq<Command>, i: nat, target: Db, snapshot: Db,
                                                clock0: nat -> nat, clock1: nat -> nat, clock2: nat -> nat)
    requires i <= |log|
    requires WellTyped(target) && WellTyped(snapshot)
    requires Run(Abs(snapshot), true) == ApplyAll(EMPTY, log[..i], clock0)
    ensures var restored := ApplyAll(Abs(Restored(target, snapshot)), log[i..], clock1);
            var replayed := ApplyAll(EMPTY, log, clock2);
            restored.ok == replayed.ok && SameData(restored.meta, replayed.meta)
  {
    RestoreRefines(target, snapshot);
    SameClockless(log[..i], clock0, clock2);
    TailAgrees(log, i, |log|, Abs(Restored(target, snapshot)), clock1, clock2);
    assert log[..|log|] == log && log[i..|log|] == log[i..];
  }

  lemma {:induction false} SameClockless(cmds: seq<Command>, clockA: nat -> nat, clockB: nat -> nat)
    ensures ApplyAll(EMPTY, cmds, clockA).ok == ApplyAll(EMPTY, cmds, clockB).ok
    ensures SameData(ApplyAll(EMPTY, cmds, clockA).meta, ApplyAll(EMPTY, cmds, clockB).meta)
  {
    if cmds != [] {
      var n := |cmds| - 1;
      SameClockless(cmds[..n], clockA, clockB);
      StepKeepsSameData(ApplyAll(EMPTY, cmds[..n], clockA).meta, ApplyAll(EMPTY, cmds[..n], clockB).meta,
                        cmds[n], clockA(n), clockB(n));
    }
  }

  lemma {:induction false} TailAgrees(log: seq<Command>, i: nat, j: nat, start: Meta, clock1: nat -> nat, clock2: nat -> nat)
    requires i <= j <= |log|
    requires ApplyAll(EMPTY, log[..i], clock2).ok && SameData(start, ApplyAll(EMPTY, log[..i], clock2).meta)
    ensures ApplyAll(start, log[i..j], clock1).ok == ApplyAll(EMPTY, log[..j], clock2).ok
    ensures SameData(ApplyAll(start, log[i..j], clock1).meta, ApplyAll(EMPTY, log[..j], clock2).meta)
    decreases j
  {
    if i < j {
      TailAgrees(log, i, j - 1, start, clock1, clock2);
      var a, b := log[i..j], log[..j];
      assert a[..|a| - 1] == log[i..j - 1] && b[..|b| - 1] == log[..j - 1];
      assert a[|a| - 1] == log[j - 1] == b[|b| - 1];
      StepKeepsSameData(ApplyAll(start, log[i..j - 1], clock1).meta, ApplyAll(EMPTY, log[..j - 1], clock2).meta,
                        log[j - 1], clock1(j - 1 - i), clock2(j - 1));
    }
  }

  // ---------- replay of a batch after a crash ----------

  /** The bucket a command creates or deletes. */
  function NameOf(cmd: Command): Option<string> {
    match cmd
    case CreateBucket(bucket) => Some(bucket.name)
    case DeleteBucket(name) => Some(name)
    case _ => None
  }

  function ObjectOf(cmd: Command): Option<string> {
    match cmd
    case PutObjectMetadata(metadata) => Some(FullKey(metadata.bucket, metadata.key))
    case DeleteObjectMetadata(bucket, key) => Some(FullKey(bucket, key))
    case _ => None
  }

  predicate Touches(cmds: seq<Command>, name: string) {
    exists i :: 0 <= i < |cmds| && NameOf(cmds[i]) == Some(name)
  }

  predicate TouchesObject(cmds: seq<Command>, fullKey: string) {
    exists i :: 0 <= i < |cmds| && ObjectOf(cmds[i]) == Some(fullKey)
  }

  predicate FirstIsCreate(cmds: seq<Command>, name: string) {
    cmds != [] && (if NameOf(cmds[0]) == Some(name) then cmds[0].CreateBucket? else FirstIsCreate(cmds[1..], name))
  }

  predicate LastIsCreate(cmds: seq<Command>, name: string) {
    cmds != [] &&
    var n := |cmds| - 1;
    if NameOf(cmds[n]) == Some(name) then cmds[n].CreateBucket? else LastIsCreate(cmds[..n], name)
  }

  /** No bucket that the batch is first to create was left existing by the part that ran
      before the crash. */
  ghost predicate SafeToRepeat(batch: seq<Command>, done: nat)
    requires done <= |batch|
  {
    forall name :: FirstIsCreate(batch, name) ==> !LastIsCreate(batch[..done], name)
  }

  lemma {:induction false} PrefixOk(m: Meta, cmds: seq<Command>, j: nat, clock: nat -> nat)
    requires j <= |cmds| && ApplyAll(m, cmds, clock).ok
    ensures ApplyAll(m, cmds[..j], clock).ok
    decreases |cmds| - j
  {
    if j < |cmds| {
      PrefixOk(m, cmds, j + 1, clock);
      assert cmds[..j + 1][..j] == cmds[..j];
    } else {
      assert cmds[..j] == cmds;
    }
  }

  lemma TouchesGrows(cmds: seq<Command>, j: nat)
    requires j < |cmds|
    ensures forall name :: Touches(cmds[..j + 1], name) <==> Touches(cmds[..j], name) || NameOf(cmds[j]) == Some(name)
    ensures forall o :: TouchesObject(cmds[..j + 1], o) <==> TouchesObject(cmds[..j], o) || ObjectOf(cmds[j]) == Some(o)
  {
    var a, b := cmds[..j], cmds[..j + 1];
    assert b == a + [cmds[j]];
    forall name
      ensures Touches(b, name) <==> Touches(a, name) || NameOf(cmds[j]) == Some(name)
    {
      if Touches(a, name) {
        var i :| 0 <= i < |a| && NameOf(a[i]) == Some(name);
        assert b[i] == a[i];
      }
      assert b[j] == cmds[j];
    }
    forall o
      ensures TouchesObject(b, o) <==> TouchesObject(a, o) || ObjectOf(cmds[j]) == Some(o)
    {
      if TouchesObject(a, o) {
        var i :| 0 <= i < |a| && ObjectOf(a[i]) == Some(o);
        assert b[i] == a[i];
      }
      assert b[j] == cmds[j];
    }
  }

  ghost predicate SameObject(a: Meta, b: Meta, o: string) {
    (o in a.objects <==> o in b.objects) && (o in a.objects ==> a.objects[o] == b.objects[o])
  }

  ghost predicate SameBucket(a: Meta, b: Meta, name: string) {
    name in a.buckets <==> name in b.buckets
  }

  /** What a command sequence does not mention stays as it was. */
  ghost predicate Framed(m: Meta, after: Meta, cmds: seq<Command>) {
    && (forall name :: !Touches(cmds, name) ==> SameBucket(after, m, name))
    && (forall o :: !TouchesObject(cmds, o) ==> SameObject(after, m, o))
  }

  lemma {:induction false} Frame(m: Meta, cmds: seq<Command>, clock: nat -> nat)
    ensures Framed(m, ApplyAll(m, cmds, clock).meta, cmds)
  {
    if cmds != [] {
      var n := |cmds| - 1;
      Frame(m, cmds[..n], clock);
      TouchesGrows(cmds, n);
      assert cmds[..n + 1] == cmds;
    }
  }

  /** After a sequence that ran to its end, a bucket it mentions exists exactly when the
      last mention created it. */
  lemma {:induction false} LastMentionDecides(m: Meta, cmds: seq<Command>, name: string, clock: nat -> nat)
    requires ApplyAll(m, cmds, clock).ok && Touches(cmds, name)
    ensures name in ApplyAll(m, cmds, clock).meta.buckets <==> LastIsCreate(cmds, name)
  {
    var n := |cmds| - 1;
    if NameOf(cmds[n]) != Some(name) {
      TouchesGrows(cmds, n);
      assert cmds[..n + 1] == cmds;
      LastMentionDecides(m, cmds[..n], name, clock);
    }
  }

  /** Two runs of the same commands agree on everything those commands mention. */
  ghost predicate Agree(a: Meta, b: Meta, cmds: seq<Command>) {
    && (forall name :: Touches(cmds, name) ==> SameBucket(a, b, name))
    && (forall o :: TouchesObject(cmds, o) ==> SameObject(a, b, o))
  }

  lemma StepAgrees(a: Meta, b: Meta, cmd: Command, nowA: nat, nowB: nat, name: string)
    requires Step(a, cmd, nowA).1.Applied? && Step(b, cmd, nowB).1.Applied?
    ensures SameBucket(a, b, name) || NameOf(cmd) == Some(name)
            ==> SameBucket(Step(a, cmd, nowA).0, Step(b, cmd, nowB).0, name)
    ensures SameObject(a, b, name) || ObjectOf(cmd) == Some(name)
            ==> SameObject(Step(a, cmd, nowA).0, Step(b, cmd, nowB).0, name)
  {
  }

  lemma {:induction false} RunsAgree(a: Meta, b: Meta, cmds: seq<Command>, clockA: nat -> nat, clockB: nat -> nat)
    requires ApplyAll(a, cmds, clockA).ok && ApplyAll(b, cmds, clockB).ok
    ensures Agree(ApplyAll(a, cmds, clockA).meta, ApplyAll(b, cmds, clockB).meta, cmds)
  {
    if cmds != [] {
      var n := |cmds| - 1;
      RunsAgree(a, b, cmds[..n], clockA, clockB);
      TouchesGrows(cmds, n);
      assert cmds[..n + 1] == cmds;
      var a', b' := ApplyAll(a, cmds[..n], clockA).meta, ApplyAll(b, cmds[..n], clockB).meta;
      forall name
        ensures Touches(cmds, name) ==> SameBucket(Step(a', cmds[n], clockA(n)).0, Step(b', cmds[n], clockB(n)).0, name)
        ensures TouchesObject(cmds, name) ==> SameObject(Step(a', cmds[n], clockA(n)).0, Step(b', cmds[n], clockB(n)).0, name)
      {
        StepAgrees(a', b', cmds[n], clockA(n), clockB(n), name);
      }
    }
  }

  lemma {:induction false} FirstCreateIndex(cmds: seq<Command>, name: string) returns (j: nat)
    requires FirstIsCreate(cmds, name)
    ensures j < |cmds| && cmds[j].CreateBucket? && cmds[j].bucket.name == name && !Touches(cmds[..j], name)
  {
    if NameOf(cmds[0]) == Some(name) {
      j := 0;
    } else {
      var i := FirstCreateIndex(cmds[1..], name);
      j := i + 1;
      forall x | 0 <= x < j
        ensures NameOf(cmds[..j][x]) != Some(name)
      {
        assert x > 0 ==> cmds[..j][x] == cmds[1..][..i][x - 1];
      }
    }
  }

  lemma {:induction false} FirstIsCreateAt(cmds: seq<Command>, name: string, j: nat)
    requires j < |cmds| && NameOf(cmds[j]) == Some(name) && cmds[j].CreateBucket? && !Touches(cmds[..j], name)
    ensures FirstIsCreate(cmds, name)
  {
    if j > 0 {
      assert cmds[..j][0] == cmds[0];
      var between := cmds[1..][..j - 1];
      forall x | 0 <= x < |between|
        ensures NameOf(between[x]) != Some(name)
      {
        assert between[x] == cmds[..j][x + 1];
      }
      FirstIsCreateAt(cmds[1..], name, j - 1);
    }
  }

  lemma {:induction false} SafeRepeatSucceeds(m: Meta, batch: seq<Command>, done: nat, j: nat, clockA: nat -> nat, clockB: nat -> nat)
    requires done <= |batch| && j <= |batch|
    requires ApplyAll(m, batch, clockA).ok && SafeToRepeat(batch, done)
    ensures ApplyAll(ApplyAll(m, batch[..done], clockA).meta, batch[..j], clockB).ok
    decreases j
  {
    var m1 := ApplyAll(m, batch[..done], clockA).meta;
    if j > 0 {
      var i := j - 1;
      SafeRepeatSucceeds(m, batch, done, i, clockA, clockB);
      PrefixOk(m, batch, done, clockA);
      PrefixOk(m, batch, i, clockA);
      PrefixOk(m, batch, j, clockA);
      assert batch[..j][..i] == batch[..i];
      RunsAgree(m1, m, batch[..i], clockB, clockA);
      if batch[i].CreateBucket? && !Touches(batch[..i], batch[i].bucket.name) {
        var name := batch[i].bucket.name;
        FirstIsCreateAt(batch, name, i);
        Frame(m1, batch[..i], clockB);
        Frame(m, batch[..i], clockA);
        Frame(m, batch[..done], clockA);
        if Touches(batch[..done], name) {
          LastMentionDecides(m, batch[..done], name, clockA);
        }
        assert name !in m1.buckets;
      }
    }
  }

  lemma UnsafeRepeatFails(m: Meta, batch: seq<Command>, done: nat, name: string, clockA: nat -> nat, clockB: nat -> nat)
    requires done <= |batch| && ApplyAll(m, batch, clockA).ok
    requires FirstIsCreate(batch, name) && LastIsCreate(batch[..done], name)
    ensures !ApplyAll(ApplyAll(m, batch[..done], clockA).meta, batch, clockB).ok
  {
    var m1 := ApplyAll(m, batch[..done], clockA).meta;
    if ApplyAll(m1, batch, clockB).ok {
      var j := FirstCreateIndex(batch, name);
      PrefixOk(m1, batch, j, clockB);
      PrefixOk(m1, batch, j + 1, clockB);
      PrefixOk(m, batch, done, clockA);
      assert batch[..j + 1][..j] == batch[..j];
      Frame(m1, batch[..j], clockB);
      LastCreateTouches(batch[..done], name);
      LastMentionDecides(m, batch[..done], name, clockA);
    }
  }

  lemma {:induction false} LastCreateTouches(cmds: seq<Command>, name: string)
    requires LastIsCreate(cmds, name)
    ensures Touches(cmds, name)
  {
    var n := |cmds| - 1;
    if NameOf(cmds[n]) != Some(name) {
      LastCreateTouches(cmds[..n], name);
      TouchesGrows(cmds, n);
      assert cmds[..n + 1] == cmds;
    }
  }

  /** Crash replay.  A batch that would run to its end is cut short after `done` commands
      and repeated from the start, at other times.  The repetition runs to its end exactly
      when `SafeToRepeat`; and then it leaves the same bucket names and the same objects as
      one uninterrupted run. */
  lemma CrashReplay(m: Meta, batch: seq<Command>, done: nat, clockA: nat -> nat, clockB: nat -> nat)
    requires done <= |batch| && ApplyAll(m, batch, clockA).ok
    ensures var cut := ApplyAll(m, batch[..done], clockA).meta;
            var again := ApplyAll(cut, batch, clockB);
            && (again.ok <==> SafeToRepeat(batch, done))
            && (again.ok ==> SameData(again.meta, ApplyAll(m, batch, clockA).meta))
  {
    var cut := ApplyAll(m, batch[..done], clockA).meta;
    var again := ApplyAll(cut, batch, clockB);
    if SafeToRepeat(batch, done) {
      SafeRepeatSucceeds(m, batch, done, |batch|, clockA, clockB);
      assert batch[..|batch|] == batch;
    } else {
      var name :| FirstIsCreate(batch, name) && LastIsCreate(batch[..done], name);
      UnsafeRepeatFails(m, batch, done, name, clockA, clockB);
    }
    if again.ok {
      RepeatedEqualsOnce(m, batch, done, clockA, clockB);
    }
  }

  lemma RepeatedEqualsOnce(m: Meta, batch: seq<Command>, done: nat, clockA: nat -> nat, clockB: nat -> nat)
    requires done <= |batch| && ApplyAll(m, batch, clockA).ok
    requires ApplyAll(ApplyAll(m, batch[..done], clockA).meta, batch, clockB).ok
    ensures SameData(ApplyAll(ApplyAll(m, batch[..done], clockA).meta, batch, clockB).meta, ApplyAll(m, batch, clockA).meta)
  {
    var cut := ApplyAll(m, batch[..done], clockA).meta;
    var again, once := ApplyAll(cut, batch, clockB).meta, ApplyAll(m, batch, clockA).meta;
    RunsAgree(cut, m, batch, clockB, clockA);
    Frame(cut, batch, clockB);
    Frame(m, batch, clockA);
    Frame(m, batch[..done], clockA);
    PrefixTouchesLess(batch, done);
    forall name
      ensures name in again.buckets <==> name in once.buckets
    {
      assert Touches(batch, name) ==> SameBucket(again, once, name);
      if !Touches(batch, name) {
        assert SameBucket(again, cut, name) && SameBucket(cut, m, name) && SameBucket(once, m, name);
      }
    }
    forall o
      ensures o in again.objects <==> o in once.objects
      ensures o in again.objects ==> again.objects[o] == once.objects[o]
    {
      assert TouchesObject(batch, o) ==> SameObject(again, once, o);
      if !TouchesObject(batch, o) {
        assert SameObject(again, cut, o) && SameObject(cut, m, o) && SameObject(once, m, o);
      }
    }
  }

  lemma PrefixTouchesLess(cmds: seq<Command>, j: nat)
    requires j <= |cmds|
    ensures forall name :: Touches(cmds[..j], name) ==> Touches(cmds, name)
    ensures forall o :: TouchesObject(cmds[..j], o) ==> TouchesObject(cmds, o)
  {
  }

  /** Batches that create no bucket can be repeated after a crash at any point. */
  lemma WithoutCreateAlwaysSafe(batch: seq<Command>, done: nat)
    requires done <= |batch| && forall i :: 0 <= i < |batch| ==> !batch[i].CreateBucket?
    ensures SafeToRepeat(batch, done)
  {
    forall name | FirstIsCreate(batch, name)
      ensures false
    {
      var j := FirstCreateIndex(batch, name);
    }
  }
}
