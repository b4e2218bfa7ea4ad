/** The replicated per-key read/write lock: the record kept under one lock key and the
    effect of the two commands on the whole lock table. */
module Locks {
  import opened Text

  datatype LockType = Read | Write

  datatype LockHolder = LockHolder(nodeId: nat, lockId: nat)

  datatype LockState = LockState(lockType: LockType, holders: seq<LockHolder>) {
    predicate IsHeldBy(holder: LockHolder) {
      holder in holders
    }

    predicate CanAcquire(lockType: LockType, holder: LockHolder) {
      IsHeldBy(holder) || (this.lockType.Read? && lockType.Read?)
    }
  }

  /** Lock records by "bucket/key". */
  type LockTable = map<string, LockState>

  function Without(holders: seq<LockHolder>, holder: LockHolder): (kept: seq<LockHolder>)
    ensures forall h :: h in kept <==> h in holders && h != holder
    ensures |kept| <= |holders|
  {
    if holders == [] then []
    else
      var rest := Without(holders[1..], holder);
      assert holders == [holders[0]] + holders[1..];
      if holders[0] == holder then rest else [holders[0]] + rest
  }

  function Acquire(current: Option<LockState>, lockType: LockType, holder: LockHolder): (LockState, bool) {
    match current
    case None => (LockState(lockType, [holder]), true)
    case Some(state) =>
      if state.IsHeldBy(holder) then (state, true)
      else if !state.CanAcquire(lockType, holder) then (state, false)
      else (state.(holders := state.holders + [holder]), true)
  }

  function Release(state: LockState, holder: LockHolder): Option<LockState> {
    var kept := Without(state.holders, holder);
    if kept == [] then None else Some(state.(holders := kept))
  }

  function At(locks: LockTable, key: string): Option<LockState> {
    if key in locks then Some(locks[key]) else None
  }

  function AcquireIn(locks: LockTable, key: string, lockType: LockType, holder: LockHolder): LockTable {
    locks[key := Acquire(At(locks, key), lockType, holder).0]
  }

  function ReleaseIn(locks: LockTable, key: string, holder: LockHolder): LockTable {
    if key !in locks then locks
    else match Release(locks[key], holder)
      case None => locks - {key}
      case Some(state) => locks[key := state]
  }

  predicate Holds(locks: LockTable, key: string, holder: LockHolder) {
    key in locks && locks[key].IsHeldBy(holder)
  }

  // ---------- what every command log keeps ----------

  ghost predicate NoDuplicates(holders: seq<LockHolder>) {
    forall i, j :: 0 <= i < j < |holders| ==> holders[i] != holders[j]
  }

  ghost predicate ValidRecord(state: LockState) {
    && state.holders != []
    && NoDuplicates(state.holders)
    && (state.lockType.Write? ==> |state.holders| == 1)
  }

  ghost predicate ValidTable(locks: LockTable) {
    forall key :: key in locks ==> ValidRecord(locks[key])
  }

  datatype LockCommand =
    | AcquireLock(key: string, lockType: LockType, holder: LockHolder)
    | ReleaseLock(key: string, holder: LockHolder)

  function ApplyLock(locks: LockTable, cmd: LockCommand): LockTable {
    match cmd
    case AcquireLock(key, lockType, holder) => AcquireIn(locks, key, lockType, holder)
    case ReleaseLock(key, holder) => ReleaseIn(locks, key, holder)
  }

  function ApplyLocks(locks: LockTable, log: seq<LockCommand>): LockTable {
    if log == [] then locks else ApplyLock(ApplyLocks(locks, log[..|log| - 1]), log[|log| - 1])
  }

  lemma {:induction false} WithoutKeepsDistinct(holders: seq<LockHolder>, holder: LockHolder)
    requires NoDuplicates(holders)
    ensures NoDuplicates(Without(holders, holder))
  {
    if holders != [] {
      WithoutKeepsDistinct(holders[1..], holder);
      assert holders[0] !in holders[1..];
      var rest := Without(holders[1..], holder);
      assert forall i :: 0 <= i < |rest| ==> rest[i] in rest;
    }
  }

  lemma LockStepKeepsValid(locks: LockTable, cmd: LockCommand)
    requires ValidTable(locks)
    ensures ValidTable(ApplyLock(locks, cmd))
  {
    if cmd.ReleaseLock? && cmd.key in locks {
      WithoutKeepsDistinct(locks[cmd.key].holders, cmd.holder);
    }
  }

  /** Every lock record reachable by any command log has holders, lists none twice, and
      has exactly one when it is a write lock. */
  lemma {:induction false} LockLogKeepsValid(log: seq<LockCommand>)
    ensures ValidTable(ApplyLocks(map[], log))
  {
    if log != [] {
      LockLogKeepsValid(log[..|log| - 1]);
      LockStepKeepsValid(ApplyLocks(map[], log[..|log| - 1]), log[|log| - 1]);
    }
  }

  /** A command by another holder never takes a lock away. */
  lemma OthersKeepHolding(locks: LockTable, cmd: LockCommand, key: string, holder: LockHolder)
    requires Holds(locks, key, holder)
    requires cmd.ReleaseLock? ==> cmd.holder != holder
    ensures Holds(ApplyLock(locks, cmd), key, holder)
    ensures ApplyLock(locks, cmd)[key].lockType == locks[key].lockType
  {
  }

  /** The type of a record never changes while it exists, and a newcomer is admitted
      exactly to a vacant lock or to a shared read lock. */
  lemma AdmissionIsExact(locks: LockTable, key: string, lockType: LockType, holder: LockHolder)
    requires ValidTable(locks) && !Holds(locks, key, holder)
    ensures Holds(AcquireIn(locks, key, lockType, holder), key, holder)
            <==> key !in locks || (locks[key].lockType.Read? && lockType.Read?)
    ensures Holds(AcquireIn(locks, key, lockType, holder), key, holder)
            ==> AcquireIn(locks, key, lockType, holder)[key].lockType == lockType
    ensures Acquire(At(locks, key), lockType, holder).1
            <==> Holds(AcquireIn(locks, key, lockType, holder), key, holder)
  {
  }

  /** Whoever holds a lock already is told yes, and nothing changes. */
  lemma HolderIsAdmittedAgain(locks: LockTable, key: string, lockType: LockType, holder: LockHolder)
    requires Holds(locks, key, holder)
    ensures Acquire(At(locks, key), lockType, holder).1 && AcquireIn(locks, key, lockType, holder) == locks
  {
    assert locks[key := locks[key]] == locks;
  }

  /** The local check before asking says yes exactly to whoever would be admitted. */
  lemma CheckForesees(locks: LockTable, key: string, lockType: LockType, holder: LockHolder)
    requires key in locks
    ensures locks[key].CanAcquire(lockType, holder) <==> Acquire(At(locks, key), lockType, holder).1
  {
  }

  /** A release ends exactly the released hold and changes no record's type. */
  lemma ReleaseIsExact(locks: LockTable, key: string, holder: LockHolder)
    ensures forall k, h :: Holds(ReleaseIn(locks, key, holder), k, h) <==> Holds(locks, k, h) && !(k == key && h == holder)
    ensures forall k :: k in ReleaseIn(locks, key, holder) ==>
              k in locks && ReleaseIn(locks, key, holder)[k].lockType == locks[k].lockType
  {
  }

  /** Two different holders of one record can only be readers. */
  lemma WriterIsAlone(locks: LockTable, key: string, a: LockHolder, b: LockHolder)
    requires ValidTable(locks) && Holds(locks, key, a) && Holds(locks, key, b) && a != b
    ensures locks[key].lockType.Read?
  {
    var hs := locks[key].holders;
    var i :| 0 <= i < |hs| && hs[i] == a;
    var j :| 0 <= j < |hs| && hs[j] == b;
  }

  /** Releasing what one asked for restores the table, for every newcomer, admitted or refused. */
  lemma ReleaseUndoesAcquire(locks: LockTable, key: string, lockType: LockType, holder: LockHolder)
    requires ValidTable(locks) && !Holds(locks, key, holder)
    ensures ReleaseIn(AcquireIn(locks, key, lockType, holder), key, holder) == locks
  {
    if key !in locks {
      assert Without([holder], holder) == [];
      assert AcquireIn(locks, key, lockType, holder) - {key} == locks;
    } else {
      var hs := locks[key].holders;
      WithoutAbsent(hs, holder);
      WithoutAppended(hs, holder);
      assert locks[key].(holders := hs) == locks[key];
      assert locks[key := locks[key]] == locks;
    }
  }

  lemma {:induction false} WithoutAbsent(holders: seq<LockHolder>, holder: LockHolder)
    requires holder !in holders
    ensures Without(holders, holder) == holders
  {
    if holders != [] {
      WithoutAbsent(holders[1..], holder);
      assert holders == [holders[0]] + holders[1..];
    }
  }

  lemma {:induction false} WithoutAppended(holders: seq<LockHolder>, holder: LockHolder)
    requires holder !in holders
    ensures Without(holders + [holder], holder) == holders
  {
    if holders != [] {
      WithoutAppended(holders[1..], holder);
      assert (holders + [holder])[1..] == holders[1..] + [holder];
      assert holders == [holders[0]] + holders[1..];
    }
  }
}
