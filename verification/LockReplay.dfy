/** Lock records when a batch is repeated after a crash.  Repetition is not harmless for locks
    in general; this says exactly when it is. */
module LockReplay {
  import opened Text
  import opened Locks
  import opened MetadataDb
  import opened StateMachine
  import Replay

  predicate Acquires(cmd: Command, full: string, h: LockHolder) {
    cmd.AcquireLock? && FullKey(cmd.lockBucket, cmd.lockKey) == full && cmd.holder == h
  }

  predicate Releases(cmd: Command, full: string, h: LockHolder) {
    cmd.ReleaseLock? && FullKey(cmd.lockBucket, cmd.lockKey) == full && cmd.holder == h
  }

  function LockStep(locks: LockTable, cmd: Command): LockTable {
    match cmd
    case AcquireLock(bucket, key, lockType, h) => AcquireIn(locks, FullKey(bucket, key), lockType, h)
    case ReleaseLock(bucket, key, h) => ReleaseIn(locks, FullKey(bucket, key), h)
    case _ => locks
  }

  function LocksAfter(locks: LockTable, cmds: seq<Command>): LockTable {
    if cmds == [] then locks else LockStep(LocksAfter(locks, cmds[..|cmds| - 1]), cmds[|cmds| - 1])
  }

  /** The lock table of a batch that runs through depends on the lock commands alone. */
  lemma {:induction false} LocksOfRun(m: Meta, cmds: seq<Command>, clock: nat -> nat)
    requires ApplyAll(m, cmds, clock).ok
    ensures ApplyAll(m, cmds, clock).meta.locks == LocksAfter(m.locks, cmds)
  {
    if cmds != [] {
      LocksOfRun(m, cmds[..|cmds| - 1], clock);
    }
  }

  lemma {:induction false} LocksSplit(locks: LockTable, cmds: seq<Command>, k: nat)
    requires k <= |cmds|
    ensures LocksAfter(locks, cmds) == LocksAfter(LocksAfter(locks, cmds[..k]), cmds[k..])
    decreases |cmds|
  {
    if k == |cmds| {
      assert cmds[..k] == cmds && cmds[k..] == [];
    } else {
      var n := |cmds| - 1;
      LocksSplit(locks, cmds[..n], k);
      assert cmds[..n][..k] == cmds[..k] && cmds[..n][k..] == cmds[k..][..n - k];
      assert cmds[k..][n - k] == cmds[n];
    }
  }

  lemma StepHolds(locks: LockTable, cmd: Command, full: string, h: LockHolder)
    ensures Holds(LockStep(locks, cmd), full, h) ==> Holds(locks, full, h) || Acquires(cmd, full, h)
    ensures Holds(locks, full, h) && !Releases(cmd, full, h) ==> Holds(LockStep(locks, cmd), full, h)
    ensures Releases(cmd, full, h) ==> !Holds(LockStep(locks, cmd), full, h)
  {
    if cmd.ReleaseLock? {
      ReleaseIsExact(locks, FullKey(cmd.lockBucket, cmd.lockKey), cmd.holder);
    }
  }

  lemma {:induction false} TableStaysValid(locks: LockTable, cmds: seq<Command>)
    requires ValidTable(locks)
    ensures ValidTable(LocksAfter(locks, cmds))
  {
    if cmds != [] {
      var n := |cmds| - 1;
      TableStaysValid(locks, cmds[..n]);
      var cmd := cmds[n];
      if cmd.AcquireLock? {
        LockStepKeepsValid(LocksAfter(locks, cmds[..n]), Locks.AcquireLock(FullKey(cmd.lockBucket, cmd.lockKey), cmd.lockType, cmd.holder));
      } else if cmd.ReleaseLock? {
        LockStepKeepsValid(LocksAfter(locks, cmds[..n]), Locks.ReleaseLock(FullKey(cmd.lockBucket, cmd.lockKey), cmd.holder));
      }
    }
  }

  // ---------- what a repetition must not do ----------

  ghost predicate ReleasedFrom(cmds: seq<Command>, i: nat, full: string, h: LockHolder) {
    exists j :: i <= j < |cmds| && Releases(cmds[j], full, h)
  }

  /** A holder id serves one request: it never acquires a lock again after releasing it. */
  ghost predicate FreshHolders(cmds: seq<Command>) {
    forall i, j, full, h :: 0 <= i < j < |cmds| && Releases(cmds[i], full, h) ==> !Acquires(cmds[j], full, h)
  }

  predicate Admits(locks: LockTable, cmd: Command)
    requires cmd.AcquireLock?
  {
    Acquire(At(locks, FullKey(cmd.lockBucket, cmd.lockKey)), cmd.lockType, cmd.holder).1
  }

  /** An acquisition that left no trace: its holder does not have the lock in the end, and not
      because it released it later. */
  ghost predicate Traceless(cmds: seq<Command>, i: nat, end: LockTable)
    requires i < |cmds|
  {
    cmds[i].AcquireLock?
    && var full := FullKey(cmds[i].lockBucket, cmds[i].lockKey);
    !Holds(end, full, cmds[i].holder) && !ReleasedFrom(cmds, i + 1, full, cmds[i].holder)
  }

  /** On the repetition every acquisition that left no trace is refused again. */
  ghost predicate RefusedAgain(cmds: seq<Command>, end: LockTable) {
    forall i :: 0 <= i < |cmds| && Traceless(cmds, i, end) ==> !Admits(LocksAfter(end, cmds[..i]), cmds[i])
  }

  lemma {:induction false} ReleasedIsOut(locks: LockTable, cmds: seq<Command>, full: string, h: LockHolder)
    requires FreshHolders(cmds) && ReleasedFrom(cmds, 0, full, h)
    ensures !Holds(LocksAfter(locks, cmds), full, h)
  {
    var n := |cmds| - 1;
    StepHolds(LocksAfter(locks, cmds[..n]), cmds[n], full, h);
    if !Releases(cmds[n], full, h) {
      var j :| 0 <= j < |cmds| && Releases(cmds[j], full, h);
      assert Releases(cmds[..n][j], full, h);
      assert FreshHolders(cmds[..n]) by {
        assert forall i :: 0 <= i < n ==> cmds[..n][i] == cmds[i];
      }
      ReleasedIsOut(locks, cmds[..n], full, h);
      assert !Acquires(cmds[n], full, h);
    }
  }

  // ---------- the repetition only adds holders that leave again ----------

  function HoldersAt(locks: LockTable, full: string): seq<LockHolder> {
    if full in locks then locks[full].holders else []
  }

  /** The record after `i` repeated commands is the record at the crash with further holders
      behind, all of which the remaining commands release. */
  ghost predicate GrownAt(c: LockTable, r: LockTable, cmds: seq<Command>, i: nat, full: string) {
    var before, now := HoldersAt(c, full), HoldersAt(r, full);
    && before <= now
    && (forall x :: x in now[|before|..] ==> x !in before && ReleasedFrom(cmds, i, full, x))
    && (full in r <==> now != [])
    && (full in c ==> full in r && r[full].lockType == c[full].lockType)
  }

  ghost predicate Grown(c: LockTable, r: LockTable, cmds: seq<Command>, i: nat) {
    forall full :: GrownAt(c, r, cmds, i, full)
  }

  /** No command releases a holder of the table at the crash. */
  ghost predicate KeepsHolders(c: LockTable, cmds: seq<Command>) {
    forall j, full, h :: 0 <= j < |cmds| && Releases(cmds[j], full, h) ==> !Holds(c, full, h)
  }

  lemma OtherKeyGrown(c: LockTable, r: LockTable, r': LockTable, cmds: seq<Command>, i: nat, full: string)
    requires i < |cmds| && GrownAt(c, r, cmds, i, full) && At(r', full) == At(r, full)
    requires forall h :: !Releases(cmds[i], full, h)
    ensures GrownAt(c, r', cmds, i + 1, full)
  {
    var before, now := HoldersAt(c, full), HoldersAt(r, full);
    assert HoldersAt(r', full) == now;
    forall x | x in now[|before|..]
      ensures ReleasedFrom(cmds, i + 1, full, x)
    {
      LaterRelease(cmds, i, full, x);
    }
  }

  lemma LaterRelease(cmds: seq<Command>, i: nat, full: string, x: LockHolder)
    requires i < |cmds| && ReleasedFrom(cmds, i, full, x) && !Releases(cmds[i], full, x)
    ensures ReleasedFrom(cmds, i + 1, full, x)
  {
    var j :| i <= j < |cmds| && Releases(cmds[j], full, x);
  }

  lemma AcquireGrown(c: LockTable, r: LockTable, cmds: seq<Command>, i: nat, full: string)
    requires i < |cmds| && cmds[i].AcquireLock? && FullKey(cmds[i].lockBucket, cmds[i].lockKey) == full
    requires GrownAt(c, r, cmds, i, full) && ValidTable(c)
    requires Traceless(cmds, i, c) ==> !Admits(r, cmds[i])
    ensures GrownAt(c, LockStep(r, cmds[i]), cmds, i + 1, full)
  {
    var h, r' := cmds[i].holder, LockStep(r, cmds[i]);
    var before, now := HoldersAt(c, full), HoldersAt(r, full);
    forall x | x in now[|before|..]
      ensures ReleasedFrom(cmds, i + 1, full, x)
    {
      LaterRelease(cmds, i, full, x);
    }
    if Holds(r, full, h) || !Admits(r, cmds[i]) {
      assert HoldersAt(r', full) == now;
    } else {
      assert h !in now;
      assert forall x :: x in before ==> x in now;
      assert HoldersAt(r', full) == now + [h];
      assert (now + [h])[|before|..] == now[|before|..] + [h];
      assert ReleasedFrom(cmds, i + 1, full, h);
    }
  }

  lemma {:induction false} WithoutSplit(a: seq<LockHolder>, b: seq<LockHolder>, h: LockHolder)
    requires h !in a
    ensures Without(a + b, h) == a + Without(b, h)
  {
    if a == [] {
      assert a + b == b;
    } else {
      assert (a + b)[1..] == a[1..] + b;
      WithoutSplit(a[1..], b, h);
      assert a == [a[0]] + a[1..];
    }
  }

  lemma WithoutBehind(before: seq<LockHolder>, now: seq<LockHolder>, h: LockHolder)
    requires before <= now && h !in before
    ensures before <= Without(now, h) && Without(now, h)[|before|..] == Without(now[|before|..], h)
  {
    assert now == before + now[|before|..];
    WithoutSplit(before, now[|before|..], h);
  }

  lemma HoldersAfterRelease(r: LockTable, full: string, h: LockHolder)
    requires full in r <==> HoldersAt(r, full) != []
    ensures HoldersAt(ReleaseIn(r, full, h), full) == Without(HoldersAt(r, full), h)
    ensures full in ReleaseIn(r, full, h) <==> Without(HoldersAt(r, full), h) != []
    ensures full in ReleaseIn(r, full, h) ==> full in r && ReleaseIn(r, full, h)[full].lockType == r[full].lockType
  {
  }

  lemma ReleaseGrown(c: LockTable, r: LockTable, cmds: seq<Command>, i: nat, full: string)
    requires i < |cmds| && cmds[i].ReleaseLock? && FullKey(cmds[i].lockBucket, cmds[i].lockKey) == full
    requires GrownAt(c, r, cmds, i, full) && ValidTable(c) && KeepsHolders(c, cmds)
    ensures GrownAt(c, LockStep(r, cmds[i]), cmds, i + 1, full)
  {
    var h, r' := cmds[i].holder, LockStep(r, cmds[i]);
    var before, now := HoldersAt(c, full), HoldersAt(r, full);
    assert Releases(cmds[i], full, h);
    assert !Holds(c, full, h);
    assert h !in before;
    var left := Without(now[|before|..], h);
    WithoutBehind(before, now, h);
    HoldersAfterRelease(r, full, h);
    assert r' == ReleaseIn(r, full, h);
    forall x | x in left
      ensures ReleasedFrom(cmds, i + 1, full, x)
    {
      LaterRelease(cmds, i, full, x);
    }
  }

  lemma StepGrown(c: LockTable, r: LockTable, cmds: seq<Command>, i: nat)
    requires i < |cmds| && Grown(c, r, cmds, i) && ValidTable(c) && KeepsHolders(c, cmds)
    requires Traceless(cmds, i, c) ==> !Admits(r, cmds[i])
    ensures Grown(c, LockStep(r, cmds[i]), cmds, i + 1)
  {
    var cmd, r', next := cmds[i], LockStep(r, cmds[i]), i + 1;
    forall full
      ensures GrownAt(c, r', cmds, next, full)
    {
      assert GrownAt(c, r, cmds, i, full);
      if cmd.AcquireLock? && FullKey(cmd.lockBucket, cmd.lockKey) == full {
        AcquireGrown(c, r, cmds, i, full);
      } else if cmd.ReleaseLock? && FullKey(cmd.lockBucket, cmd.lockKey) == full {
        ReleaseGrown(c, r, cmds, i, full);
      } else {
        OtherKeyGrown(c, r, r', cmds, i, full);
      }
    }
  }

  lemma {:induction false} RepetitionGrows(c: LockTable, cmds: seq<Command>, i: nat)
    requires i <= |cmds| && ValidTable(c) && KeepsHolders(c, cmds) && RefusedAgain(cmds, c)
    ensures Grown(c, LocksAfter(c, cmds[..i]), cmds, i)
    decreases i
  {
    if i == 0 {
      assert cmds[..0] == [];
    } else {
      RepetitionGrows(c, cmds, i - 1);
      StepGrown(c, LocksAfter(c, cmds[..i - 1]), cmds, i - 1);
      assert cmds[..i][..i - 1] == cmds[..i - 1];
    }
  }

  lemma GrownToTheEnd(c: LockTable, r: LockTable, cmds: seq<Command>)
    requires ValidTable(c) && Grown(c, r, cmds, |cmds|)
    ensures r == c
  {
    forall full
      ensures At(r, full) == At(c, full)
    {
      assert GrownAt(c, r, cmds, |cmds|, full);
      var before, now := HoldersAt(c, full), HoldersAt(r, full);
      var extra := now[|before|..];
      assert now == before + extra;
      if extra != [] {
        FirstIsThere(extra);
      }
      assert now == before;
      assert full in c ==> c[full].holders == before;
    }
    SameTables(r, c);
  }

  lemma FirstIsThere(holders: seq<LockHolder>)
    requires holders != []
    ensures holders[0] in holders
  {
  }

  lemma SameTables(a: LockTable, b: LockTable)
    requires forall full :: At(a, full) == At(b, full)
    ensures a == b
  {
    forall full
      ensures full in a <==> full in b
      ensures full in a ==> a[full] == b[full]
    {
      assert At(a, full) == At(b, full);
    }
  }

  /** Once granted and not released, a lock is still held at the end. */
  lemma {:induction false} GrantStays(locks: LockTable, cmds: seq<Command>, i: nat, full: string, h: LockHolder)
    requires i < |cmds| && Acquires(cmds[i], full, h) && Admits(LocksAfter(locks, cmds[..i]), cmds[i])
    requires !ReleasedFrom(cmds, i + 1, full, h)
    ensures Holds(LocksAfter(locks, cmds), full, h)
    decreases |cmds|
  {
    var n := |cmds| - 1;
    if i == n {
      assert Holds(LockStep(LocksAfter(locks, cmds[..i]), cmds[i]), full, h);
    } else {
      assert cmds[..n][..i] == cmds[..i] && cmds[..n][i] == cmds[i];
      assert !ReleasedFrom(cmds[..n], i + 1, full, h) by {
        assert forall j :: i + 1 <= j < n ==> cmds[..n][j] == cmds[j];
      }
      GrantStays(locks, cmds[..n], i, full, h);
      assert !Releases(cmds[n], full, h);
      StepHolds(LocksAfter(locks, cmds[..n]), cmds[n], full, h);
    }
  }

  // ---------- theorems ----------

  /** The part of a batch that ran before a crash is repeated on the table it left.  With holder
      ids that are not reused it leaves exactly that table, the order of holders included, if and
      only if every acquisition that left no trace the first time is refused again. */
  lemma RepetitionExactly(locks: LockTable, cmds: seq<Command>)
    requires ValidTable(locks) && FreshHolders(cmds)
    ensures var cut := LocksAfter(locks, cmds); LocksAfter(cut, cmds) == cut <==> RefusedAgain(cmds, cut)
  {
    var cut := LocksAfter(locks, cmds);
    TableStaysValid(locks, cmds);
    forall j, full, h | 0 <= j < |cmds| && Releases(cmds[j], full, h)
      ensures !Holds(cut, full, h)
    {
      assert ReleasedFrom(cmds, 0, full, h);
      ReleasedIsOut(locks, cmds, full, h);
    }
    if RefusedAgain(cmds, cut) {
      RepetitionGrows(cut, cmds, |cmds|);
      assert cmds[..|cmds|] == cmds;
      GrownToTheEnd(cut, LocksAfter(cut, cmds), cmds);
    } else {
      var i :| 0 <= i < |cmds| && Traceless(cmds, i, cut) && Admits(LocksAfter(cut, cmds[..i]), cmds[i]);
      var full := FullKey(cmds[i].lockBucket, cmds[i].lockKey);
      GrantStays(cut, cmds, i, full, cmds[i].holder);
    }
  }

  /** Crash replay for locks.  A batch is cut short after `done` commands and repeated from the
      start.  If the repetition of the part that had run refuses again what was refused, the
      lock table ends as if there had been no crash. */
  lemma CrashKeepsLocks(m: Meta, batch: seq<Command>, done: nat, clockA: nat -> nat, clockB: nat -> nat)
    requires done <= |batch| && ValidTable(m.locks) && FreshHolders(batch[..done])
    requires ApplyAll(m, batch, clockA).ok
    requires ApplyAll(ApplyAll(m, batch[..done], clockA).meta, batch, clockB).ok
    requires RefusedAgain(batch[..done], ApplyAll(m, batch[..done], clockA).meta.locks)
    ensures ApplyAll(ApplyAll(m, batch[..done], clockA).meta, batch, clockB).meta.locks == ApplyAll(m, batch, clockA).meta.locks
  {
    var cut := ApplyAll(m, batch[..done], clockA).meta;
    Replay.PrefixOk(m, batch, done, clockA);
    LocksOfRun(m, batch[..done], clockA);
    LocksOfRun(m, batch, clockA);
    LocksOfRun(cut, batch, clockB);
    RepetitionExactly(m.locks, batch[..done]);
    LocksSplit(m.locks, batch, done);
    LocksSplit(cut.locks, batch, done);
  }

  /** Every acquisition of the uninterrupted run was granted. */
  ghost predicate NoneRefused(locks: LockTable, cmds: seq<Command>) {
    forall i :: 0 <= i < |cmds| && cmds[i].AcquireLock? ==> Admits(LocksAfter(locks, cmds[..i]), cmds[i])
  }

  /** In particular, a batch in which nothing was refused can be repeated after a crash at any
      point: the lock table is the same. */
  lemma NoRefusalNoDivergence(m: Meta, batch: seq<Command>, done: nat, clockA: nat -> nat, clockB: nat -> nat)
    requires done <= |batch| && ValidTable(m.locks) && FreshHolders(batch) && NoneRefused(m.locks, batch)
    requires ApplyAll(m, batch, clockA).ok
    requires ApplyAll(ApplyAll(m, batch[..done], clockA).meta, batch, clockB).ok
    ensures ApplyAll(ApplyAll(m, batch[..done], clockA).meta, batch, clockB).meta.locks == ApplyAll(m, batch, clockA).meta.locks
  {
    var part := batch[..done];
    Replay.PrefixOk(m, batch, done, clockA);
    LocksOfRun(m, part, clockA);
    assert forall i :: 0 <= i < done ==> part[i] == batch[i];
    forall i | 0 <= i < |part| && part[i].AcquireLock?
      ensures !Traceless(part, i, LocksAfter(m.locks, part))
    {
      var full, h := FullKey(part[i].lockBucket, part[i].lockKey), part[i].holder;
      assert part[..i] == batch[..i];
      if !ReleasedFrom(part, i + 1, full, h) {
        GrantStays(m.locks, part, i, full, h);
      }
    }
    CrashKeepsLocks(m, batch, done, clockA, clockB);
  }

  /** And where a refused newcomer, which the batch does not release, is admitted by the
      repetition, the tables differ: the node that crashed has a lock the others do not have. */
  lemma AdmittedNewcomerDiverges(m: Meta, batch: seq<Command>, done: nat, clockA: nat -> nat, clockB: nat -> nat, i: nat)
    requires done <= |batch| && ApplyAll(m, batch, clockA).ok
    requires ApplyAll(ApplyAll(m, batch[..done], clockA).meta, batch, clockB).ok
    requires i < |batch| && Traceless(batch, i, ApplyAll(m, batch, clockA).meta.locks)
    requires Admits(ApplyAll(ApplyAll(m, batch[..done], clockA).meta, batch[..i], clockB).meta.locks, batch[i])
    ensures ApplyAll(ApplyAll(m, batch[..done], clockA).meta, batch, clockB).meta.locks != ApplyAll(m, batch, clockA).meta.locks
  {
    var cut := ApplyAll(m, batch[..done], clockA).meta;
    Replay.PrefixOk(cut, batch, i, clockB);
    LocksOfRun(cut, batch[..i], clockB);
    LocksOfRun(cut, batch, clockB);
    GrantStays(cut.locks, batch, i, FullKey(batch[i].lockBucket, batch[i].lockKey), batch[i].holder);
  }

  /** It happens: a writer that was refused because of a holder whose release came later in the
      same batch. */
  lemma LockReplayDiverges(bucket: string, key: string, a: LockHolder, b: LockHolder)
    requires a != b && ValidBucketName(bucket) && ValidObjectKey(key)
    ensures var m := EMPTY.(locks := map[FullKey(bucket, key) := LockState(Write, [a])]);
            var batch := [MetadataDb.AcquireLock(bucket, key, Write, b), MetadataDb.ReleaseLock(bucket, key, a)];
            var once := LocksAfter(m.locks, batch);
            ValidTable(m.locks) && once == map[] && LocksAfter(once, batch) == map[FullKey(bucket, key) := LockState(Write, [b])]
  {
    var full := FullKey(bucket, key);
    var locks := map[full := LockState(Write, [a])];
    var refused, release := MetadataDb.AcquireLock(bucket, key, Write, b), MetadataDb.ReleaseLock(bucket, key, a);
    var batch := [refused, release];
    assert batch[..1] == [refused] && [refused][..0] == [];
    assert Without([a], a) == [] && Without([b], a) == [b];
    assert LocksAfter(locks, [refused]) == LockStep(locks, refused) == locks by {
      assert LocksAfter(locks, []) == locks;
      assert locks[full := locks[full]] == locks;
    }
    var once := LocksAfter(locks, batch);
    assert once == map[];
    assert LocksAfter(once, [refused]) == LockStep(LocksAfter(once, []), refused) == map[full := LockState(Write, [b])];
  }
}
