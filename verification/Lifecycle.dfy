/** The object lifecycle under the distributed lock: every interleaving of read, write and
    delete requests on any nodes, each free to stop for good between any two steps.

    A request takes a lock through the replicated log, verifies it on its own node's
    possibly stale copy, and then performs storage and metadata steps in the order of its
    handler.  Raft writes and storage calls are atomic steps. */
module Lifecycle {
  import opened Text
  import opened Locks
  import opened MetadataDb
  import opened StateMachine

  // ---------- requests ----------

  datatype Kind = Reader | Writer(content: Bytes) | Deleter

  datatype Phase =
    | Trying                    // in the acquire loop
    | Proposing                 // local pre-check passed, Raft write under way
    | Verifying                 // Raft write done, checking the local copy
    | Holding(pc: nat)          // guard live, `pc` handler steps taken
    | Dropped                   // guard dropped, release not yet committed
    | Released
    | Abandoned(inFlight: bool) // timed out or failed; a Raft write may still land

  datatype Request = Request(node: nat, bucket: string, key: string, kind: Kind, phase: Phase,
                             stored: bool, published: bool)
  {
    function Full(): string {
      FullKey(bucket, key)
    }

    function Wants(): LockType {
      if kind.Reader? then Read else Write
    }

    /** From the moment the lock is verified until its release commits. */
    predicate Guarded() {
      phase.Holding? || phase.Dropped?
    }
  }

  /** `log` is the committed log; `applied` says how far each node has applied it;
      `bytes` gives, per full key, the content visible on each node.  Two marks keep history:
      `unpublished` holds the keys whose bytes a storage commit changed since their metadata
      was last written or deleted, `publisher` the request that last wrote the metadata. */
  datatype World = World(log: seq<Command>, applied: map<nat, nat>, requests: map<LockHolder, Request>,
                         bytes: map<string, map<nat, Bytes>>, unpublished: set<string>, publisher: map<string, LockHolder>)

  const START := World([], map[], map[], map[], {}, map[])

  function Replayed(log: seq<Command>): Run {
    ApplyAll(EMPTY, log, (_: nat) => 0)
  }

  function Committed(w: World): Meta {
    Replayed(w.log).meta
  }

  function AppliedTo(w: World, node: nat): nat {
    if node in w.applied && w.applied[node] <= |w.log| then w.applied[node] else 0
  }

  /** What a node reads locally. */
  function Local(w: World, node: nat): Meta {
    Replayed(w.log[..AppliedTo(w, node)]).meta
  }

  function Copies(w: World, full: string): map<nat, Bytes> {
    if full in w.bytes then w.bytes[full] else map[]
  }

  // ---------- steps ----------

  datatype Action =
    | Begin(h: LockHolder, node: nat, bucket: string, key: string, kind: Kind)
    | CatchUp(at: nat, upTo: nat)
    | PreCheck(h: LockHolder)
    | Acquired(h: LockHolder)
    | Verify(h: LockHolder)
    | GiveUp(h: LockHolder)
    | LateAcquired(h: LockHolder)
    | CommitBytes(h: LockHolder, copies: set<nat>)
    | CommitFails(h: LockHolder, copies: set<nat>)
    | PutMetadata(h: LockHolder)
    | CheckExists(h: LockHolder)
    | DeleteMetadata(h: LockHolder)
    | DeleteBytes(h: LockHolder, copies: set<nat>)
    | DropGuard(h: LockHolder)
    | ReleaseDone(h: LockHolder)
    | BucketChange(cmd: Command)

  predicate In(w: World, h: LockHolder, phase: Phase) {
    h in w.requests && w.requests[h].phase == phase
  }

  predicate CanAcquireLocally(w: World, h: LockHolder)
    requires h in w.requests
  {
    var r := w.requests[h];
    match At(Local(w, r.node).locks, r.Full())
    case None => true
    case Some(state) => state.CanAcquire(r.Wants(), h)
  }

  predicate Enabled(w: World, a: Action) {
    match a
    case Begin(h, node, bucket, key, kind) =>
      h !in w.requests && h.nodeId == node && ValidBucketName(bucket) && ValidObjectKey(key)
    case CatchUp(at, upTo) => AppliedTo(w, at) <= upTo <= |w.log|
    case PreCheck(h) => In(w, h, Trying) && CanAcquireLocally(w, h)
    case Acquired(h) => In(w, h, Proposing)
    case Verify(h) => In(w, h, Verifying)
    case GiveUp(h) => In(w, h, Trying) || In(w, h, Proposing) || In(w, h, Verifying)
    case LateAcquired(h) => In(w, h, Abandoned(true))
    case CommitBytes(h, copies) => In(w, h, Holding(0)) && w.requests[h].kind.Writer?
    case CommitFails(h, copies) => In(w, h, Holding(0)) && w.requests[h].kind.Writer?
    case PutMetadata(h) => In(w, h, Holding(1)) && w.requests[h].kind.Writer?
    case CheckExists(h) => In(w, h, Holding(0)) && w.requests[h].kind.Deleter?
    case DeleteMetadata(h) => In(w, h, Holding(1)) && w.requests[h].kind.Deleter?
    case DeleteBytes(h, copies) => In(w, h, Holding(2)) && w.requests[h].kind.Deleter?
    case DropGuard(h) => h in w.requests && w.requests[h].phase.Holding?
    case ReleaseDone(h) => In(w, h, Dropped)
    case BucketChange(cmd) =>
      (cmd.CreateBucket? || cmd.DeleteBucket?) && Step(Committed(w), cmd, 0).1.Applied?
  }

  function To(w: World, h: LockHolder, phase: Phase): World
    requires h in w.requests
  {
    w.(requests := w.requests[h := w.requests[h].(phase := phase)])
  }

  function Log(w: World, cmd: Command): World {
    w.(log := w.log + [cmd])
  }

  function Spread(w: World, full: string, copies: set<nat>, content: Bytes): World {
    w.(bytes := w.bytes[full := Copies(w, full) + map n | n in copies :: content])
  }

  function MetadataFor(r: Request): ObjectMetadata
    requires r.kind.Writer?
  {
    ObjectMetadata(r.bucket, r.key, |r.kind.content|, Sha256(r.kind.content))
  }

  function Do(w: World, a: Action): World
    requires Enabled(w, a)
  {
    match a
    case Begin(h, node, bucket, key, kind) =>
      w.(requests := w.requests[h := Request(node, bucket, key, kind, Trying, false, false)])
    case CatchUp(at, upTo) => w.(applied := w.applied[at := upTo])
    case PreCheck(h) => To(w, h, Proposing)
    case Acquired(h) => AcquireStep(w, h, Verifying)
    case Verify(h) =>
      var r := w.requests[h];
      To(w, h, if Holds(Local(w, r.node).locks, r.Full(), h) then Holding(0) else Trying)
    case GiveUp(h) => To(w, h, Abandoned(w.requests[h].phase.Proposing?))
    case LateAcquired(h) => AcquireStep(w, h, Abandoned(false))
    case CommitBytes(h, copies) =>
      var r := w.requests[h].(phase := Holding(1), stored := true);
      Spread(w, r.Full(), copies + {r.node}, r.kind.content)
      .(requests := w.requests[h := r], unpublished := w.unpublished + {r.Full()})
    case CommitFails(h, copies) =>
      var r := w.requests[h].(phase := Dropped, stored := copies != {});
      Spread(w, r.Full(), copies, r.kind.content)
      .(requests := w.requests[h := r], unpublished := if copies == {} then w.unpublished else w.unpublished + {r.Full()})
    case PutMetadata(h) =>
      var r := w.requests[h].(phase := Holding(2), published := true);
      Log(w, PutObjectMetadata(MetadataFor(r)))
      .(requests := w.requests[h := r], unpublished := w.unpublished - {r.Full()}, publisher := w.publisher[r.Full() := h])
    case CheckExists(h) =>
      var r := w.requests[h];
      To(w, h, if r.Full() in Local(w, r.node).objects then Holding(1) else Dropped)
    case DeleteMetadata(h) =>
      var r := w.requests[h];
      Log(To(w, h, Holding(2)), DeleteObjectMetadata(r.bucket, r.key))
      .(unpublished := w.unpublished - {r.Full()}, publisher := w.publisher - {r.Full()})
    case DeleteBytes(h, copies) =>
      var full := w.requests[h].Full();
      To(w, h, Holding(3)).(bytes := w.bytes[full := Copies(w, full) - copies])
    case DropGuard(h) => To(w, h, Dropped)
    case ReleaseDone(h) =>
      var r := w.requests[h];
      Log(To(w, h, Released), MetadataDb.ReleaseLock(r.bucket, r.key, h))
    case BucketChange(cmd) => Log(w, cmd)
  }

  function AcquireStep(w: World, h: LockHolder, phase: Phase): World
    requires h in w.requests
  {
    var r := w.requests[h];
    Log(To(w, h, phase), MetadataDb.AcquireLock(r.bucket, r.key, r.Wants(), h))
  }

  // ---------- what every step keeps ----------

  ghost predicate LogInv(w: World) {
    && Replayed(w.log).ok
    && (forall i :: 0 <= i < |w.log| && w.log[i].ReleaseLock? ==> In(w, w.log[i].holder, Released))
    && (forall h :: h in w.requests ==> ValidObjectKey(w.requests[h].key))
  }

  /** Lock records name live requests, each on its own key and with its own type, and
      every guarded request is named. */
  ghost predicate LocksOk(locks: LockTable, requests: map<LockHolder, Request>) {
    && ValidTable(locks)
    && (forall full, h :: Holds(locks, full, h) ==> NamesOwn(locks, requests, full, h))
    && (forall h :: h in requests && requests[h].Guarded() ==> Holds(locks, requests[h].Full(), h))
  }

  ghost predicate NamesOwn(locks: LockTable, requests: map<LockHolder, Request>, full: string, h: LockHolder)
    requires full in locks
  {
    && h in requests && requests[h].Full() == full && requests[h].Wants() == locks[full].lockType
    && !requests[h].phase.Released?
  }

  ghost predicate LockInv(w: World) {
    LocksOk(Committed(w).locks, w.requests)
  }

  /** What the position of a request says about its own key. */
  ghost predicate PcOk(r: Request, copies: map<nat, Bytes>, listed: bool) {
    && (r.published ==> r.stored)
    && (r.phase.Holding? && r.kind.Writer? ==>
          && (r.stored <==> r.phase.pc >= 1)
          && (r.published <==> r.phase.pc >= 2)
          && (r.stored ==> r.node in copies && copies[r.node] == r.kind.content))
    && (r.phase.Holding? && r.kind.Deleter? && r.phase.pc >= 2 ==> !listed)
    && ((r.phase.Trying? || r.phase.Proposing? || r.phase.Verifying?) ==> !r.stored && !r.published)
  }

  ghost predicate PcInv(w: World, h: LockHolder)
    requires h in w.requests
  {
    var full := w.requests[h].Full();
    PcOk(w.requests[h], Copies(w, full), full in Committed(w).objects)
  }

  /** The node of the request that last published metadata for this key has bytes of it. */
  ghost predicate Backed(w: World, full: string) {
    full in w.publisher && w.publisher[full] in w.requests
    && var r := w.requests[w.publisher[full]];
    r.Full() == full && r.published && r.node in Copies(w, full)
  }

  predicate Describes(m: ObjectMetadata, content: Bytes) {
    m.etag == Sha256(content) && m.size == |content|
  }

  /** The metadata describe the bytes on the node of their publisher. */
  ghost predicate Accurate(w: World, full: string)
    requires full in Committed(w).objects && Backed(w, full)
  {
    Describes(Committed(w).objects[full], Copies(w, full)[w.requests[w.publisher[full]].node])
  }

  /** The metadata describe the bytes on some node. */
  ghost predicate Described(w: World, full: string)
    requires full in Committed(w).objects
  {
    exists n :: n in Copies(w, full) && Describes(Committed(w).objects[full], Copies(w, full)[n])
  }

  ghost predicate KeyOk(w: World, full: string) {
    full in Committed(w).objects ==> Backed(w, full) && (full !in w.unpublished ==> Accurate(w, full))
  }

  ghost predicate DataInv(w: World) {
    && (forall h :: h in w.requests ==> PcInv(w, h))
    && (forall full :: KeyOk(w, full))
  }

  ghost predicate Inv(w: World) {
    LogInv(w) && LockInv(w) && DataInv(w)
  }

  lemma LogGrows(log: seq<Command>, cmd: Command)
    requires Replayed(log).ok
    ensures Replayed(log + [cmd]).meta == Step(Replayed(log).meta, cmd, 0).0
    ensures Replayed(log + [cmd]).ok == Step(Replayed(log).meta, cmd, 0).1.Applied?
  {
    assert (log + [cmd])[..|log|] == log;
  }

  /** A lock seen on any applied prefix is still held at the end of the log, as long as
      its holder has not released. */
  lemma {:induction false} HeldIsStable(log: seq<Command>, p: nat, full: string, h: LockHolder)
    requires p <= |log| && Replayed(log).ok
    requires forall i :: 0 <= i < |log| && log[i].ReleaseLock? ==> log[i].holder != h
    requires Holds(Replayed(log[..p]).meta.locks, full, h)
    ensures Holds(Replayed(log).meta.locks, full, h)
  {
    if p == |log| {
      assert log[..p] == log;
    } else {
      var n := |log| - 1;
      assert log[..n][..p] == log[..p];
      HeldIsStable(log[..n], p, full, h);
      LogGrows(log[..n], log[n]);
      assert log[..n] + [log[n]] == log;
    }
  }

  /** The command a step commits, if any. */
  function Logged(w: World, a: Action): Option<Command>
    requires Enabled(w, a)
  {
    match a
    case Acquired(h) => Some(MetadataDb.AcquireLock(w.requests[h].bucket, w.requests[h].key, w.requests[h].Wants(), h))
    case LateAcquired(h) => Some(MetadataDb.AcquireLock(w.requests[h].bucket, w.requests[h].key, w.requests[h].Wants(), h))
    case PutMetadata(h) => Some(PutObjectMetadata(MetadataFor(w.requests[h])))
    case DeleteMetadata(h) => Some(DeleteObjectMetadata(w.requests[h].bucket, w.requests[h].key))
    case ReleaseDone(h) => Some(MetadataDb.ReleaseLock(w.requests[h].bucket, w.requests[h].key, h))
    case BucketChange(cmd) => Some(cmd)
    case _ => None
  }

  lemma StepCommits(w: World, a: Action)
    requires LogInv(w) && Enabled(w, a)
    ensures Logged(w, a).None? ==> Do(w, a).log == w.log && Committed(Do(w, a)) == Committed(w)
    ensures Logged(w, a).Some? ==> Do(w, a).log == w.log + [Logged(w, a).value]
    ensures Logged(w, a).Some? ==> Committed(Do(w, a)) == Step(Committed(w), Logged(w, a).value, 0).0
    ensures Replayed(Do(w, a).log).ok
  {
    if Logged(w, a).Some? {
      LogGrows(w.log, Logged(w, a).value);
    }
  }

  lemma ReleasedForGood(w: World, a: Action, h: LockHolder)
    requires Enabled(w, a) && In(w, h, Released)
    ensures In(Do(w, a), h, Released)
  {
  }

  lemma RequestsStayValid(w: World, a: Action, h: LockHolder)
    requires Enabled(w, a) && h in Do(w, a).requests
    requires h in w.requests ==> ValidObjectKey(w.requests[h].key)
    ensures ValidObjectKey(Do(w, a).requests[h].key)
  {
  }

  lemma StepKeepsLog(w: World, a: Action)
    requires LogInv(w) && Enabled(w, a)
    ensures LogInv(Do(w, a))
  {
    StepCommits(w, a);
    var w' := Do(w, a);
    forall i | 0 <= i < |w'.log| && w'.log[i].ReleaseLock?
      ensures In(w', w'.log[i].holder, Released)
    {
      if i < |w.log| {
        assert w'.log[i] == w.log[i];
        ReleasedForGood(w, a, w.log[i].holder);
      }
    }
    forall h | h in w'.requests
      ensures ValidObjectKey(w'.requests[h].key)
    {
      RequestsStayValid(w, a, h);
    }
  }

  // ---------- locks ----------

  lemma AcquireAdds(locks: LockTable, key: string, t: LockType, h: LockHolder, full: string, x: LockHolder)
    requires ValidTable(locks) && (Holds(locks, key, h) ==> locks[key].lockType == t)
    ensures Holds(locks, full, x) ==> Holds(AcquireIn(locks, key, t, h), full, x)
    ensures Holds(AcquireIn(locks, key, t, h), full, x) ==>
              var now := AcquireIn(locks, key, t, h)[full].lockType;
              (full == key && x == h && now == t) || (Holds(locks, full, x) && now == locks[full].lockType)
  {
    if full == key && !Holds(locks, key, h) {
      AdmissionIsExact(locks, key, t, h);
    }
  }

  lemma AcquireOk(locks: LockTable, requests: map<LockHolder, Request>, h: LockHolder, phase: Phase)
    requires LocksOk(locks, requests) && h in requests && !requests[h].Guarded() && !requests[h].phase.Released?
    requires phase.Verifying? || phase.Abandoned?
    ensures LocksOk(AcquireIn(locks, requests[h].Full(), requests[h].Wants(), h), requests[h := requests[h].(phase := phase)])
  {
    var r := requests[h];
    var locks', requests' := AcquireIn(locks, r.Full(), r.Wants(), h), requests[h := r.(phase := phase)];
    LockStepKeepsValid(locks, Locks.AcquireLock(r.Full(), r.Wants(), h));
    forall full, x | Holds(locks', full, x)
      ensures NamesOwn(locks', requests', full, x)
    {
      AcquireNames(locks, requests, h, phase, full, x);
    }
    forall x | x in requests' && requests'[x].Guarded()
      ensures Holds(locks', requests'[x].Full(), x)
    {
      AcquireAdds(locks, r.Full(), r.Wants(), h, requests[x].Full(), x);
    }
  }

  lemma AcquireNames(locks: LockTable, requests: map<LockHolder, Request>, h: LockHolder, phase: Phase, full: string, x: LockHolder)
    requires LocksOk(locks, requests) && h in requests && !requests[h].phase.Released?
    requires phase.Verifying? || phase.Abandoned?
    requires Holds(AcquireIn(locks, requests[h].Full(), requests[h].Wants(), h), full, x)
    ensures NamesOwn(AcquireIn(locks, requests[h].Full(), requests[h].Wants(), h), requests[h := requests[h].(phase := phase)], full, x)
  {
    AcquireAdds(locks, requests[h].Full(), requests[h].Wants(), h, full, x);
  }

  lemma AcquireKeepsLocks(w: World, h: LockHolder, phase: Phase)
    requires LogInv(w) && LockInv(w) && h in w.requests && !w.requests[h].Guarded() && !w.requests[h].phase.Released?
    requires phase.Verifying? || phase.Abandoned?
    ensures LockInv(AcquireStep(w, h, phase))
  {
    var r := w.requests[h];
    var cmd := MetadataDb.AcquireLock(r.bucket, r.key, r.Wants(), h);
    LogGrows(w.log, cmd);
    StepAcquire(Committed(w), cmd, 0, r.Full());
    AcquireOk(Committed(w).locks, w.requests, h, phase);
  }

  lemma ReleaseOk(locks: LockTable, requests: map<LockHolder, Request>, h: LockHolder)
    requires LocksOk(locks, requests) && h in requests && requests[h].phase.Dropped?
    ensures LocksOk(ReleaseIn(locks, requests[h].Full(), h), requests[h := requests[h].(phase := Released)])
  {
    LockStepKeepsValid(locks, Locks.ReleaseLock(requests[h].Full(), h));
    ReleaseIsExact(locks, requests[h].Full(), h);
  }

  lemma ReleaseKeepsLocks(w: World, h: LockHolder)
    requires LogInv(w) && LockInv(w) && In(w, h, Dropped)
    ensures LockInv(Do(w, ReleaseDone(h)))
  {
    var r := w.requests[h];
    var cmd := MetadataDb.ReleaseLock(r.bucket, r.key, h);
    LogGrows(w.log, cmd);
    StepRelease(Committed(w), cmd, 0, r.Full());
    ReleaseOk(Committed(w).locks, w.requests, h);
  }

  lemma RaisedGuard(locks: LockTable, requests: map<LockHolder, Request>, h: LockHolder, phase: Phase)
    requires LocksOk(locks, requests) && h in requests && (phase.Trying? || phase.Holding?)
    requires phase.Holding? ==> Holds(locks, requests[h].Full(), h)
    requires !requests[h].Guarded()
    ensures LocksOk(locks, requests[h := requests[h].(phase := phase)])
  {
  }

  /** A lock seen on the node's own, possibly stale, copy is committed. */
  lemma SeenIsHeld(w: World, h: LockHolder, full: string)
    requires LogInv(w) && In(w, h, Verifying) && Holds(Local(w, w.requests[h].node).locks, full, h)
    ensures Holds(Committed(w).locks, full, h)
  {
    HeldIsStable(w.log, AppliedTo(w, w.requests[h].node), full, h);
  }

  lemma VerifyKeepsLocks(w: World, h: LockHolder)
    requires LogInv(w) && LockInv(w) && In(w, h, Verifying)
    ensures LockInv(Do(w, Verify(h)))
  {
    var r := w.requests[h];
    if Holds(Local(w, r.node).locks, r.Full(), h) {
      SeenIsHeld(w, h, r.Full());
      RaisedGuard(Committed(w).locks, w.requests, h, Holding(0));
    } else {
      RaisedGuard(Committed(w).locks, w.requests, h, Trying);
    }
  }

  /** Steps that leave the lock table alone and neither create nor revive a guard. */
  lemma SameTableKeepsLocks(w: World, w': World)
    requires LockInv(w) && Committed(w').locks == Committed(w).locks
    requires forall h :: h in w.requests ==> h in w'.requests && SameIdentity(w.requests[h], w'.requests[h])
    requires forall h :: h in w'.requests && w'.requests[h].Guarded() ==> h in w.requests && w.requests[h].Guarded()
    ensures LockInv(w')
  {
  }

  ghost predicate SameIdentity(r: Request, r': Request) {
    && r'.Full() == r.Full() && r'.kind == r.kind && r'.node == r.node
    && (r'.phase.Released? ==> r.phase.Released?)
  }

  lemma StepKeepsLocks(w: World, a: Action)
    requires Inv(w) && Enabled(w, a)
    ensures LockInv(Do(w, a))
  {
    if a.Acquired? {
      AcquireKeepsLocks(w, a.h, Verifying);
    } else if a.LateAcquired? {
      AcquireKeepsLocks(w, a.h, Abandoned(false));
    } else if a.ReleaseDone? {
      ReleaseKeepsLocks(w, a.h);
    } else if a.Verify? {
      VerifyKeepsLocks(w, a.h);
    } else {
      QuietOnTable(w, a);
      QuietOnGuards(w, a);
      SameTableKeepsLocks(w, Do(w, a));
    }
  }

  predicate Quiet(a: Action) {
    !a.Acquired? && !a.LateAcquired? && !a.ReleaseDone? && !a.Verify?
  }

  lemma QuietOnTable(w: World, a: Action)
    requires LogInv(w) && Enabled(w, a) && Quiet(a)
    ensures Committed(Do(w, a)).locks == Committed(w).locks
  {
    StepCommits(w, a);
  }

  lemma QuietOnGuards(w: World, a: Action)
    requires Enabled(w, a) && Quiet(a)
    ensures var w' := Do(w, a);
            forall h :: h in w.requests ==> h in w'.requests && SameIdentity(w.requests[h], w'.requests[h])
    ensures var w' := Do(w, a);
            forall h :: h in w'.requests && w'.requests[h].Guarded() ==> h in w.requests && w.requests[h].Guarded()
  {
    var w' := Do(w, a);
    forall h | h in w'.requests
      ensures h in w.requests ==> SameIdentity(w.requests[h], w'.requests[h])
      ensures w'.requests[h].Guarded() ==> h in w.requests && w.requests[h].Guarded()
    {
      QuietOnGuard(w, a, h);
    }
    forall h | h in w.requests
      ensures h in w'.requests
    {
      RequestsRemain(w, a, h);
    }
  }

  lemma QuietOnGuard(w: World, a: Action, h: LockHolder)
    requires Enabled(w, a) && Quiet(a) && h in Do(w, a).requests
    ensures h in w.requests ==> SameIdentity(w.requests[h], Do(w, a).requests[h])
    ensures Do(w, a).requests[h].Guarded() ==> h in w.requests && w.requests[h].Guarded()
  {
  }

  lemma RequestsRemain(w: World, a: Action, h: LockHolder)
    requires Enabled(w, a) && h in w.requests
    ensures h in Do(w, a).requests
  {
  }

  /** A live write guard excludes every other guard on its key. */
  lemma WriteGuardIsAlone(w: World, h: LockHolder, x: LockHolder)
    requires LockInv(w) && h in w.requests && x in w.requests && h != x
    requires w.requests[h].Guarded() && w.requests[x].Guarded()
    requires w.requests[h].Full() == w.requests[x].Full()
    ensures w.requests[h].kind.Reader? && w.requests[x].kind.Reader?
  {
    WriterIsAlone(Committed(w).locks, w.requests[h].Full(), h, x);
  }

  // ---------- bytes and metadata ----------

  predicate Idle(a: Action) {
    !a.CommitBytes? && !a.CommitFails? && !a.PutMetadata? && !a.DeleteMetadata? && !a.DeleteBytes?
  }

  ghost predicate SameAccount(r: Request, r': Request) {
    r'.Full() == r.Full() && r'.node == r.node && r'.stored == r.stored && r'.published == r.published
  }

  /** A key at which nothing changed, and whose publisher is still on record, stays in order. */
  lemma KeyFrame(w: World, w': World, full: string)
    requires KeyOk(w, full) && Copies(w', full) == Copies(w, full)
    requires full in Committed(w').objects <==> full in Committed(w).objects
    requires full in Committed(w).objects ==> Committed(w').objects[full] == Committed(w).objects[full]
    requires full in w.unpublished ==> full in w'.unpublished
    requires full in w.publisher ==> full in w'.publisher && w'.publisher[full] == w.publisher[full]
    requires full in w.publisher && w.publisher[full] in w.requests ==>
               var h := w.publisher[full];
               w.requests[h].Full() == full ==> h in w'.requests && SameAccount(w.requests[h], w'.requests[h])
    ensures KeyOk(w', full)
  {
  }

  lemma IdleObjects(w: World, a: Action)
    requires LogInv(w) && Enabled(w, a) && Idle(a)
    ensures Committed(Do(w, a)).objects == Committed(w).objects
  {
    StepCommits(w, a);
  }

  lemma IdleRequests(w: World, a: Action)
    requires Enabled(w, a) && Idle(a)
    ensures var w' := Do(w, a); w'.bytes == w.bytes && w'.unpublished == w.unpublished && w'.publisher == w.publisher
    ensures var w' := Do(w, a); forall h :: h in w.requests ==> h in w'.requests && SameAccount(w.requests[h], w'.requests[h])
  {
  }

  lemma IdlePc(w: World, a: Action, h: LockHolder, copies: map<nat, Bytes>, listed: bool)
    requires Enabled(w, a) && Idle(a) && h in Do(w, a).requests
    requires h in w.requests ==> PcOk(w.requests[h], copies, listed)
    ensures PcOk(Do(w, a).requests[h], copies, listed)
  {
  }

  lemma IdleKeepsPc(w: World, a: Action, h: LockHolder)
    requires LogInv(w) && Enabled(w, a) && Idle(a) && h in Do(w, a).requests && (h in w.requests ==> PcInv(w, h))
    ensures PcInv(Do(w, a), h)
  {
    var full := Do(w, a).requests[h].Full();
    IdleObjects(w, a);
    IdleRequests(w, a);
    IdlePc(w, a, h, Copies(w, full), full in Committed(w).objects);
  }

  lemma IdleKeepsData(w: World, a: Action)
    requires Inv(w) && Enabled(w, a) && Idle(a)
    ensures DataInv(Do(w, a))
  {
    var w' := Do(w, a);
    IdleObjects(w, a);
    IdleRequests(w, a);
    forall h | h in w'.requests
      ensures PcInv(w', h)
    {
      assert h in w.requests ==> PcInv(w, h);
      IdleKeepsPc(w, a, h);
    }
    forall full
      ensures KeyOk(w', full)
    {
      assert KeyOk(w, full);
      KeyFrame(w, w', full);
    }
  }

  /** A guarded writer or deleter shares its key with no other guarded request. */
  lemma OthersAreElsewhere(w: World, h: LockHolder, x: LockHolder)
    requires LockInv(w) && h in w.requests && x in w.requests
    requires w.requests[h].Guarded() && !w.requests[h].kind.Reader?
    ensures x != h && w.requests[x].Guarded() ==> w.requests[x].Full() != w.requests[h].Full()
  {
    if x != h && w.requests[x].Guarded() && w.requests[x].Full() == w.requests[h].Full() {
      WriteGuardIsAlone(w, h, x);
    }
  }

  /** What a step did at its own key, and to its own request, leaves the others' positions true. */
  lemma OthersKeepPc(w: World, w': World, h: LockHolder)
    requires LockInv(w) && DataInv(w) && h in w.requests && w.requests[h].Guarded() && !w.requests[h].kind.Reader?
    requires forall other :: other != w.requests[h].Full() ==>
               Copies(w', other) == Copies(w, other) && (other in Committed(w').objects <==> other in Committed(w).objects)
    requires forall x :: x in w'.requests && x != h ==> x in w.requests && w'.requests[x] == w.requests[x]
    ensures forall x :: x in w'.requests && x != h ==> PcInv(w', x)
  {
    forall x | x in w'.requests && x != h
      ensures PcInv(w', x)
    {
      assert PcInv(w, x);
      OthersAreElsewhere(w, h, x);
    }
  }

  /** A key other than the one a step worked on stays in order. */
  lemma ElsewhereUnchanged(w: World, a: Action, other: string)
    requires LogInv(w) && Enabled(w, a) && !Idle(a) && other != w.requests[a.h].Full() && KeyOk(w, other)
    ensures KeyOk(Do(w, a), other)
  {
    WorksOnItsOwnKey(w, a, other);
    WorkMarks(w, a, other);
    OthersAccounts(w, a, other);
    KeyFrame(w, Do(w, a), other);
  }

  lemma OthersAccounts(w: World, a: Action, other: string)
    requires Enabled(w, a) && !Idle(a) && other != w.requests[a.h].Full()
    ensures other in w.publisher && w.publisher[other] in w.requests ==>
              var h := w.publisher[other];
              w.requests[h].Full() == other ==> h in Do(w, a).requests && SameAccount(w.requests[h], Do(w, a).requests[h])
  {
    OthersStay(w, a);
  }

  lemma WorkMarks(w: World, a: Action, other: string)
    requires Enabled(w, a) && !Idle(a) && other != w.requests[a.h].Full()
    ensures other in w.unpublished ==> other in Do(w, a).unpublished
    ensures other in w.publisher ==> other in Do(w, a).publisher && Do(w, a).publisher[other] == w.publisher[other]
  {
  }

  lemma WorkerKeepsPcs(w: World, a: Action)
    requires Inv(w) && Enabled(w, a) && !Idle(a)
    ensures forall x :: x in Do(w, a).requests && x != a.h ==> PcInv(Do(w, a), x)
  {
    var w' := Do(w, a);
    WorkersAreExclusive(w, a);
    forall other | other != w.requests[a.h].Full()
      ensures Copies(w', other) == Copies(w, other) && (other in Committed(w').objects <==> other in Committed(w).objects)
    {
      WorksOnItsOwnKey(w, a, other);
    }
    OthersStay(w, a);
    OthersKeepPc(w, w', a.h);
  }

  /** What a worker's step leaves to show about its own key and its own position. */
  lemma WorkerKeepsData(w: World, a: Action)
    requires Inv(w) && Enabled(w, a) && !Idle(a)
    requires PcInv(Do(w, a), a.h) && KeyOk(Do(w, a), w.requests[a.h].Full())
    ensures DataInv(Do(w, a))
  {
    var w' := Do(w, a);
    WorkerKeepsPcs(w, a);
    forall full
      ensures KeyOk(w', full)
    {
      assert KeyOk(w, full);
      if full != w.requests[a.h].Full() {
        ElsewhereUnchanged(w, a, full);
      }
    }
  }

  /** A worker's step rewrites its own request only. */
  lemma OthersStay(w: World, a: Action)
    requires Enabled(w, a) && !Idle(a)
    ensures a.h in Do(w, a).requests && Do(w, a).requests[a.h].Full() == w.requests[a.h].Full()
    ensures Do(w, a).requests == w.requests[a.h := Do(w, a).requests[a.h]]
  {
  }

  lemma CommitKeepsKey(w: World, a: Action)
    requires LogInv(w) && Enabled(w, a) && (a.CommitBytes? || a.CommitFails?)
    requires PcInv(w, a.h) && KeyOk(w, w.requests[a.h].Full())
    ensures KeyOk(Do(w, a), w.requests[a.h].Full())
  {
    var w', full := Do(w, a), w.requests[a.h].Full();
    StepCommits(w, a);
    if full in Committed(w).objects {
      var h := w.publisher[full];
      assert h != a.h && w'.requests[h] == w.requests[h];
      assert Copies(w, full).Keys <= Copies(w', full).Keys;
      if a.CommitFails? && a.copies == {} {
        assert Copies(w', full) == Copies(w, full);
      }
    }
  }

  lemma CommitPc(w: World, a: Action)
    requires LogInv(w) && Enabled(w, a) && (a.CommitBytes? || a.CommitFails?) && PcInv(w, a.h)
    ensures PcInv(Do(w, a), a.h)
  {
    var r := w.requests[a.h];
    var copies := Copies(Do(w, a), r.Full());
    if a.CommitBytes? {
      assert r.node in copies && copies[r.node] == r.kind.content;
    }
  }

  lemma PutKeepsKey(w: World, h: LockHolder)
    requires LogInv(w) && Enabled(w, PutMetadata(h)) && PcInv(w, h)
    ensures var w' := Do(w, PutMetadata(h)); PcInv(w', h) && KeyOk(w', w.requests[h].Full())
  {
    var a := PutMetadata(h);
    var w', r := Do(w, a), w.requests[h];
    StepCommits(w, a);
    StepPut(Committed(w), MetadataFor(r), 0, r.Full());
  }

  lemma DeleteKeepsKey(w: World, a: Action)
    requires LogInv(w) && Enabled(w, a) && (a.DeleteMetadata? || a.DeleteBytes?) && PcInv(w, a.h)
    ensures PcInv(Do(w, a), a.h) && w.requests[a.h].Full() !in Committed(Do(w, a)).objects
  {
    StepCommits(w, a);
  }

  lemma StepKeepsInv(w: World, a: Action)
    requires Inv(w) && Enabled(w, a)
    ensures Inv(Do(w, a))
  {
    StepKeepsLog(w, a);
    StepKeepsLocks(w, a);
    if Idle(a) {
      IdleKeepsData(w, a);
    } else {
      WorkersAreExclusive(w, a);
      assert PcInv(w, a.h) && KeyOk(w, w.requests[a.h].Full());
      if a.CommitBytes? || a.CommitFails? {
        CommitPc(w, a);
        CommitKeepsKey(w, a);
      } else if a.PutMetadata? {
        PutKeepsKey(w, a.h);
      } else {
        DeleteKeepsKey(w, a);
      }
      WorkerKeepsData(w, a);
    }
  }

  // ---------- theorems over whole runs ----------

  predicate Legal(w: World, run: seq<Action>)
    decreases |run|
  {
    run == [] || (Enabled(w, run[0]) && Legal(Do(w, run[0]), run[1..]))
  }

  function After(w: World, run: seq<Action>): World
    requires Legal(w, run)
    decreases |run|
  {
    if run == [] then w else After(Do(w, run[0]), run[1..])
  }

  lemma {:induction false} RunKeepsInv(w: World, run: seq<Action>)
    requires Inv(w) && Legal(w, run)
    ensures Inv(After(w, run))
    decreases |run|
  {
    if run != [] {
      StepKeepsInv(w, run[0]);
      RunKeepsInv(Do(w, run[0]), run[1..]);
    }
  }

  lemma StartIsGood()
    ensures Inv(START)
  {
  }

  /** Lock safety.  In every run, a live write guard is the only guard on its key, however
      stale the copies were on which the locks were checked and verified. */
  lemma MutualExclusion(run: seq<Action>, h: LockHolder, x: LockHolder)
    requires Legal(START, run)
    ensures var w := After(START, run);
            h in w.requests && x in w.requests && h != x
            && w.requests[h].Full() == w.requests[x].Full()
            && w.requests[h].Guarded() && w.requests[x].Guarded()
            ==> w.requests[h].kind.Reader? && w.requests[x].kind.Reader?
  {
    StartIsGood();
    RunKeepsInv(START, run);
    var w := After(START, run);
    if h in w.requests && x in w.requests && h != x && w.requests[h].Full() == w.requests[x].Full()
       && w.requests[h].Guarded() && w.requests[x].Guarded() {
      WriteGuardIsAlone(w, h, x);
    }
  }

  /** No phantom objects.  In every run, every metadata entry has committed bytes, on the
      node of the request that published it. */
  lemma NoPhantomObjects(run: seq<Action>, full: string)
    requires Legal(START, run) && full in Committed(After(START, run)).objects
    ensures Backed(After(START, run), full) && Copies(After(START, run), full) != map[]
  {
    StartIsGood();
    RunKeepsInv(START, run);
    assert KeyOk(After(START, run), full);
  }

  /** In every run, a metadata entry carries the digest and the size of the bytes on its
      publisher's node, unless a storage commit has touched the key since it was published. */
  lemma MetadataDescribesBytes(run: seq<Action>, full: string)
    requires Legal(START, run) && full in Committed(After(START, run)).objects
    ensures full !in After(START, run).unpublished ==>
              Backed(After(START, run), full) && Accurate(After(START, run), full) && Described(After(START, run), full)
  {
    StartIsGood();
    RunKeepsInv(START, run);
    assert KeyOk(After(START, run), full);
  }

  /** The mark does expire: a storage commit sets it, and the metadata write of the same request
      or of any later one clears it. */
  lemma PublishingClearsTheMark(w: World, h: LockHolder)
    requires Inv(w) && Enabled(w, PutMetadata(h))
    ensures var w' := Do(w, PutMetadata(h)); var full := w.requests[h].Full();
            full !in w'.unpublished && full in Committed(w').objects && Backed(w', full) && Accurate(w', full)
            && w'.publisher[full] == h
  {
    assert PcInv(w, h);
    PutKeepsKey(w, h);
    StepCommits(w, PutMetadata(h));
  }

  ghost predicate SameVersion(w: World, w': World, full: string) {
    && Copies(w', full) == Copies(w, full)
    && (full in Committed(w').objects <==> full in Committed(w).objects)
    && (full in Committed(w).objects ==> Committed(w').objects[full] == Committed(w).objects[full])
  }

  ghost predicate Reading(w: World, h: LockHolder) {
    h in w.requests && w.requests[h].Guarded() && w.requests[h].kind.Reader?
  }

  /** From any reachable world on, as long as a reader's release has not committed, no
      step of any request changes the object it reads: neither bytes nor metadata. */
  lemma {:induction false} ReadersSeeOneVersion(w: World, run: seq<Action>, h: LockHolder)
    requires Inv(w) && Reading(w, h) && Legal(w, run)
    requires forall i :: 0 <= i < |run| ==> run[i] != ReleaseDone(h)
    ensures SameVersion(w, After(w, run), w.requests[h].Full())
    decreases |run|
  {
    if run != [] {
      StepKeepsInv(w, run[0]);
      ReaderStep(w, run[0], h);
      ReadersSeeOneVersion(Do(w, run[0]), run[1..], h);
    }
  }

  lemma ReaderStep(w: World, a: Action, h: LockHolder)
    requires Inv(w) && Reading(w, h) && Enabled(w, a) && a != ReleaseDone(h)
    ensures Reading(Do(w, a), h) && Do(w, a).requests[h].Full() == w.requests[h].Full()
    ensures SameVersion(w, Do(w, a), w.requests[h].Full())
  {
    GuardOutlivesStep(w, a, h);
    if Idle(a) {
      IdleVersion(w, a, w.requests[h].Full());
    } else {
      WorkersAreExclusive(w, a);
      OthersAreElsewhere(w, a.h, h);
      WorksOnItsOwnKey(w, a, w.requests[h].Full());
    }
  }

  lemma IdleVersion(w: World, a: Action, full: string)
    requires LogInv(w) && Enabled(w, a) && Idle(a)
    ensures SameVersion(w, Do(w, a), full)
  {
    IdleObjects(w, a);
    IdleRequests(w, a);
  }

  lemma WorkersAreExclusive(w: World, a: Action)
    requires Enabled(w, a) && !Idle(a)
    ensures a.h in w.requests && w.requests[a.h].Guarded() && !w.requests[a.h].kind.Reader?
  {
  }

  lemma GuardOutlivesStep(w: World, a: Action, h: LockHolder)
    requires Reading(w, h) && Enabled(w, a) && a != ReleaseDone(h)
    ensures Reading(Do(w, a), h) && Do(w, a).requests[h].Full() == w.requests[h].Full()
  {
    if Idle(a) {
      GuardOutlivesIdleStep(w, a, h);
    } else {
      WorkersAreExclusive(w, a);
      OthersStay(w, a);
    }
  }

  lemma GuardOutlivesIdleStep(w: World, a: Action, h: LockHolder)
    requires Reading(w, h) && Enabled(w, a) && Idle(a) && a != ReleaseDone(h)
    ensures Reading(Do(w, a), h) && Do(w, a).requests[h].Full() == w.requests[h].Full()
  {
  }

  /** The steps that touch bytes or metadata touch them at their own key only. */
  lemma WorksOnItsOwnKey(w: World, a: Action, full: string)
    requires LogInv(w) && Enabled(w, a) && !Idle(a) && w.requests[a.h].Full() != full
    ensures SameVersion(w, Do(w, a), full)
  {
    OwnCopies(w, a, full);
    StepCommits(w, a);
    if Logged(w, a).Some? {
      OwnMetadata(Committed(w), Logged(w, a).value, full);
    }
  }

  lemma OwnCopies(w: World, a: Action, full: string)
    requires Enabled(w, a) && !Idle(a) && w.requests[a.h].Full() != full
    ensures Copies(Do(w, a), full) == Copies(w, full)
    ensures a.PutMetadata? || a.DeleteMetadata? <==> Logged(w, a).Some?
    ensures a.PutMetadata? ==> Logged(w, a).value.PutObjectMetadata?
                               && FullKey(Logged(w, a).value.metadata.bucket, Logged(w, a).value.metadata.key) != full
    ensures a.DeleteMetadata? ==> Logged(w, a).value.DeleteObjectMetadata?
                                  && FullKey(Logged(w, a).value.objectBucket, Logged(w, a).value.objectKey) != full
  {
  }

  lemma OwnMetadata(m: Meta, cmd: Command, full: string)
    requires cmd.PutObjectMetadata? ==> FullKey(cmd.metadata.bucket, cmd.metadata.key) != full
    requires cmd.DeleteObjectMetadata? ==> FullKey(cmd.objectBucket, cmd.objectKey) != full
    ensures full in Step(m, cmd, 0).0.objects <==> full in m.objects
    ensures full in m.objects ==> Step(m, cmd, 0).0.objects[full] == m.objects[full]
  {
  }

  /** The exception is real: a storage commit over an existing object leaves metadata that
      describes no copy, unless the new bytes are the ones already described or a node
      outside the commit still has them. */
  lemma CommitTearsExactlyWhen(w: World, h: LockHolder, copies: set<nat>)
    requires Inv(w) && Enabled(w, CommitBytes(h, copies))
    requires w.requests[h].Full() in Committed(w).objects
    ensures var full, r := w.requests[h].Full(), w.requests[h];
            var m := Committed(w).objects[full];
            Described(Do(w, CommitBytes(h, copies)), full)
            <==> Describes(m, r.kind.content)
                 || exists n :: n in Copies(w, full) && n !in copies + {r.node} && Describes(m, Copies(w, full)[n])
  {
    var a := CommitBytes(h, copies);
    var w' := Do(w, a);
    StepCommits(w, a);
    var full, r := w.requests[h].Full(), w.requests[h];
    var now, was := Copies(w', full), Copies(w, full);
    assert r.node in now && now[r.node] == r.kind.content;
    assert forall n :: n in now <==> n in was || n in copies + {r.node};
    assert forall n :: n in now && n !in copies + {r.node} ==> now[n] == was[n];
  }

  // ---------- what each request gets done ----------

  ghost predicate Reachable(w: World) {
    exists run :: Legal(START, run) && After(START, run) == w
  }

  lemma {:induction false} OneMoreAction(w: World, run: seq<Action>, a: Action)
    requires Legal(w, run) && Enabled(After(w, run), a)
    ensures Legal(w, run + [a]) && After(w, run + [a]) == Do(After(w, run), a)
    decreases |run|
  {
    if run == [] {
      assert [] + [a] == [a] && [a][1..] == [];
    } else {
      OneMoreAction(Do(w, run[0]), run[1..], a);
      assert (run + [a])[0] == run[0] && (run + [a])[1..] == run[1..] + [a];
    }
  }

  lemma Reach(w: World, a: Action)
    requires Reachable(w) && Enabled(w, a)
    ensures Reachable(Do(w, a)) && LogInv(Do(w, a))
  {
    var run :| Legal(START, run) && After(START, run) == w;
    OneMoreAction(START, run, a);
    StartIsGood();
    RunKeepsInv(START, run + [a]);
  }

  /** A node that has applied the whole log reads the committed state. */
  lemma CaughtUp(w: World, node: nat)
    requires node in w.applied && w.applied[node] == |w.log|
    ensures Local(w, node) == Committed(w)
  {
    assert w.log[..|w.log|] == w.log;
  }

  lemma CatchesUp(w: World, node: nat) returns (w': World)
    requires Reachable(w)
    ensures Reachable(w') && Local(w', node) == Committed(w)
    ensures w' == w.(applied := w.applied[node := |w.log|])
  {
    w' := Do(w, CatchUp(node, |w.log|));
    Reach(w, CatchUp(node, |w.log|));
    CaughtUp(w', node);
  }

  function RequestAt(h: LockHolder, bucket: string, key: string, kind: Kind, phase: Phase, stored: bool): Request {
    Request(h.nodeId, bucket, key, kind, phase, stored, false)
  }

  function Asking(h: LockHolder, bucket: string, key: string, kind: Kind): Command {
    MetadataDb.AcquireLock(bucket, key, if kind.Reader? then Read else Write, h)
  }

  /** Only `h` joined the requests. */
  ghost predicate Joined(w: World, w': World, h: LockHolder) {
    h in w'.requests && forall x :: x in w'.requests ==> x == h || x in w.requests
  }

  lemma RequestBegins(w: World, h: LockHolder, bucket: string, key: string, kind: Kind) returns (w': World)
    requires Reachable(w) && h !in w.requests && ValidBucketName(bucket) && ValidObjectKey(key)
    ensures Reachable(w') && w'.log == w.log && w'.bytes == w.bytes && Joined(w, w', h)
    ensures w'.requests[h] == RequestAt(h, bucket, key, kind, Trying, false)
  {
    var a := Begin(h, h.nodeId, bucket, key, kind);
    Reach(w, a);
    w' := Do(w, a);
  }

  /** A request on a vacant key passes the local check. */
  lemma RequestChecks(w: World, h: LockHolder, bucket: string, key: string, kind: Kind) returns (w': World)
    requires Reachable(w) && h in w.requests && w.requests[h] == RequestAt(h, bucket, key, kind, Trying, false)
    requires FullKey(bucket, key) !in Committed(w).locks
    ensures Reachable(w') && w'.log == w.log && w'.bytes == w.bytes && Joined(w, w', h)
    ensures w'.requests[h] == RequestAt(h, bucket, key, kind, Proposing, false)
  {
    var w1 := CatchesUp(w, h.nodeId);
    assert CanAcquireLocally(w1, h);
    Reach(w1, PreCheck(h));
    w' := Do(w1, PreCheck(h));
  }

  lemma RequestAsks(w: World, h: LockHolder, bucket: string, key: string, kind: Kind) returns (w': World)
    requires Reachable(w) && h in w.requests && w.requests[h] == RequestAt(h, bucket, key, kind, Proposing, false)
    ensures Reachable(w') && w'.log == w.log + [Asking(h, bucket, key, kind)] && w'.bytes == w.bytes && Joined(w, w', h)
    ensures w'.requests[h] == RequestAt(h, bucket, key, kind, Verifying, false)
  {
    Reach(w, Acquired(h));
    w' := Do(w, Acquired(h));
  }

  /** The lock asked for on a vacant key is granted. */
  lemma VacantIsGranted(log: seq<Command>, h: LockHolder, bucket: string, key: string, kind: Kind)
    requires Replayed(log).ok && FullKey(bucket, key) !in Replayed(log).meta.locks
    ensures Replayed(log + [Asking(h, bucket, key, kind)]).meta.objects == Replayed(log).meta.objects
    ensures At(Replayed(log + [Asking(h, bucket, key, kind)]).meta.locks, FullKey(bucket, key)) == Some(LockState(if kind.Reader? then Read else Write, [h]))
  {
    LogGrows(log, Asking(h, bucket, key, kind));
    StepAcquire(Replayed(log).meta, Asking(h, bucket, key, kind), 0, FullKey(bucket, key));
  }

  lemma RequestVerifies(w: World, h: LockHolder, bucket: string, key: string, kind: Kind) returns (w': World)
    requires Reachable(w) && h in w.requests && w.requests[h] == RequestAt(h, bucket, key, kind, Verifying, false)
    requires Holds(Committed(w).locks, FullKey(bucket, key), h)
    ensures Reachable(w') && w'.log == w.log && w'.bytes == w.bytes && Joined(w, w', h)
    ensures w'.requests[h] == RequestAt(h, bucket, key, kind, Holding(0), false)
    ensures Local(w', h.nodeId) == Committed(w')
  {
    var w1 := CatchesUp(w, h.nodeId);
    Reach(w1, Verify(h));
    w' := Do(w1, Verify(h));
  }

  lemma OneCopy(copies: map<nat, Bytes>, node: nat, content: Bytes)
    ensures copies + (map n | n in {} + {node} :: content) == copies[node := content]
  {
  }

  lemma WriterStores(w: World, h: LockHolder, bucket: string, key: string, content: Bytes) returns (w': World)
    requires Reachable(w) && h in w.requests && w.requests[h] == RequestAt(h, bucket, key, Writer(content), Holding(0), false)
    ensures Reachable(w') && w'.log == w.log && Joined(w, w', h)
    ensures w'.requests[h] == RequestAt(h, bucket, key, Writer(content), Holding(1), true)
    ensures Copies(w', FullKey(bucket, key)) == Copies(w, FullKey(bucket, key))[h.nodeId := content]
  {
    Reach(w, CommitBytes(h, {}));
    w' := Do(w, CommitBytes(h, {}));
    OneCopy(Copies(w, FullKey(bucket, key)), h.nodeId, content);
  }

  lemma WriterPublishes(w: World, h: LockHolder, bucket: string, key: string, content: Bytes) returns (w': World)
    requires Reachable(w) && h in w.requests && w.requests[h] == RequestAt(h, bucket, key, Writer(content), Holding(1), true)
    ensures Reachable(w') && w'.bytes == w.bytes && Joined(w, w', h)
    ensures w'.log == w.log + [PutObjectMetadata(ObjectMetadata(bucket, key, |content|, Sha256(content)))]
    ensures w'.requests[h].phase.Holding? && w'.requests[h].bucket == bucket && w'.requests[h].key == key
  {
    Reach(w, PutMetadata(h));
    w' := Do(w, PutMetadata(h));
  }

  lemma WriterLeaves(w: World, h: LockHolder) returns (w': World)
    requires Reachable(w) && h in w.requests && w.requests[h].phase.Holding?
    ensures Reachable(w') && w'.bytes == w.bytes && Joined(w, w', h)
    ensures w'.log == w.log + [MetadataDb.ReleaseLock(w.requests[h].bucket, w.requests[h].key, h)]
  {
    Reach(w, DropGuard(h));
    var w1 := Do(w, DropGuard(h));
    Reach(w1, ReleaseDone(h));
    w' := Do(w1, ReleaseDone(h));
  }

  /** What publishing and releasing by the sole holder make of the committed state. */
  lemma PublishedAndVacant(log: seq<Command>, h: LockHolder, bucket: string, key: string, content: Bytes)
    requires Replayed(log).ok && ValidObjectKey(key)
    requires At(Replayed(log).meta.locks, FullKey(bucket, key)) == Some(LockState(Write, [h]))
    ensures var put := PutObjectMetadata(ObjectMetadata(bucket, key, |content|, Sha256(content)));
            var m := Replayed(log + [put] + [MetadataDb.ReleaseLock(bucket, key, h)]).meta;
            && FullKey(bucket, key) in m.objects
            && m.objects[FullKey(bucket, key)] == ObjectMetadata(bucket, key, |content|, Sha256(content))
            && FullKey(bucket, key) !in m.locks
  {
    var metadata := ObjectMetadata(bucket, key, |content|, Sha256(content));
    var release := MetadataDb.ReleaseLock(bucket, key, h);
    var put := PutObjectMetadata(metadata);
    LogGrows(log, put);
    StepPut(Replayed(log).meta, metadata, 0, FullKey(bucket, key));
    LogGrows(log + [put], release);
    assert Without([h], h) == [];
    StepRelease(Replayed(log + [put]).meta, release, 0, FullKey(bucket, key));
  }

  /** One request, from its first step until it has verified its lock. */
  lemma RequestLocks(w: World, h: LockHolder, bucket: string, key: string, kind: Kind) returns (w': World)
    requires Reachable(w) && h !in w.requests && ValidBucketName(bucket) && ValidObjectKey(key)
    requires FullKey(bucket, key) !in Committed(w).locks
    ensures Reachable(w') && w'.bytes == w.bytes && Joined(w, w', h)
    ensures w'.requests[h] == RequestAt(h, bucket, key, kind, Holding(0), false)
    ensures Committed(w').objects == Committed(w).objects
    ensures At(Committed(w').locks, FullKey(bucket, key)) == Some(LockState(if kind.Reader? then Read else Write, [h]))
    ensures Local(w', h.nodeId) == Committed(w')
  {
    ReachableIsGood(w);
    VacantIsGranted(w.log, h, bucket, key, kind);
    var w1 := RequestBegins(w, h, bucket, key, kind);
    var w2 := RequestChecks(w1, h, bucket, key, kind);
    var w3 := RequestAsks(w2, h, bucket, key, kind);
    w' := RequestVerifies(w3, h, bucket, key, kind);
  }

  /** One writer, from its first step to its storage commit. */
  lemma WriterRuns(w: World, h: LockHolder, bucket: string, key: string, content: Bytes) returns (w': World)
    requires Reachable(w) && h !in w.requests && ValidBucketName(bucket) && ValidObjectKey(key)
    requires FullKey(bucket, key) !in Committed(w).locks
    ensures Reachable(w') && Joined(w, w', h)
    ensures w'.requests[h] == RequestAt(h, bucket, key, Writer(content), Holding(1), true)
    ensures Copies(w', FullKey(bucket, key)) == Copies(w, FullKey(bucket, key))[h.nodeId := content]
    ensures Committed(w').objects == Committed(w).objects
    ensures At(Committed(w').locks, FullKey(bucket, key)) == Some(LockState(Write, [h]))
  {
    var w1 := RequestLocks(w, h, bucket, key, Writer(content));
    w' := WriterStores(w1, h, bucket, key, content);
  }

  /** One writer, from its first step to its release. */
  lemma WriterFinishes(w: World, h: LockHolder, bucket: string, key: string, content: Bytes) returns (w': World)
    requires Reachable(w) && h !in w.requests && ValidBucketName(bucket) && ValidObjectKey(key)
    requires FullKey(bucket, key) !in Committed(w).locks
    ensures Reachable(w') && Joined(w, w', h)
    ensures Copies(w', FullKey(bucket, key)) == Copies(w, FullKey(bucket, key))[h.nodeId := content]
    ensures FullKey(bucket, key) !in Committed(w').locks && FullKey(bucket, key) in Committed(w').objects
    ensures Committed(w').objects[FullKey(bucket, key)] == ObjectMetadata(bucket, key, |content|, Sha256(content))
  {
    var w1 := WriterRuns(w, h, bucket, key, content);
    ReachableIsGood(w1);
    PublishedAndVacant(w1.log, h, bucket, key, content);
    var w2 := WriterPublishes(w1, h, bucket, key, content);
    w' := WriterLeaves(w2, h);
  }

  lemma ReachableIsGood(w: World)
    requires Reachable(w)
    ensures Inv(w)
  {
    var run :| Legal(START, run) && After(START, run) == w;
    StartIsGood();
    RunKeepsInv(START, run);
  }

  /** The existence check of the delete handler: the request is done, as not found, exactly if what
      its node has applied of the log holds no entry for the key; otherwise it goes on to delete. */
  lemma CheckIsExact(w: World, h: LockHolder)
    requires Enabled(w, CheckExists(h))
    ensures var applied := Replayed(w.log[..AppliedTo(w, w.requests[h].node)]).meta;
            && (In(Do(w, CheckExists(h)), h, Dropped) <==> w.requests[h].Full() !in applied.objects)
            && (In(Do(w, CheckExists(h)), h, Holding(1)) <==> w.requests[h].Full() in applied.objects)
    ensures Do(w, CheckExists(h)) == To(w, h, Do(w, CheckExists(h)).requests[h].phase)
  {
  }

  /** The three steps of a delete on a node that has applied the entry: afterwards the key is out of
      the committed objects and out of the bytes of exactly the nodes that were told, and every
      other key is as before. */
  lemma DeleterDeletes(w: World, h: LockHolder, copies: set<nat>) returns (w': World)
    requires Reachable(w) && In(w, h, Holding(0)) && w.requests[h].kind.Deleter?
    requires w.requests[h].Full() in Local(w, w.requests[h].node).objects
    ensures Reachable(w') && In(w', h, Holding(3)) && Joined(w, w', h)
    ensures w'.requests[h].bucket == w.requests[h].bucket && w'.requests[h].key == w.requests[h].key
    ensures w.requests[h].Full() !in Committed(w').objects && Committed(w').locks == Committed(w).locks
    ensures Copies(w', w.requests[h].Full()) == Copies(w, w.requests[h].Full()) - copies
    ensures forall other :: other != w.requests[h].Full() ==> SameVersion(w, w', other)
  {
    var w1 := FoundOnNode(w, h);
    var w2 := EntryDeleted(w1, h);
    w' := BytesDeleted(w2, h, copies);
    forall other | other != w.requests[h].Full()
      ensures SameVersion(w, w', other)
    {
      VersionsChain(w, w1, w2, other);
      VersionsChain(w, w2, w', other);
    }
  }

  /** A deleter at this point, on its own key. */
  ghost predicate DeletesAt(w: World, h: LockHolder, bucket: string, key: string, pc: nat) {
    In(w, h, Holding(pc)) && w.requests[h].kind.Deleter? && w.requests[h].bucket == bucket && w.requests[h].key == key
  }

  lemma FoundOnNode(w: World, h: LockHolder) returns (w': World)
    requires Reachable(w) && In(w, h, Holding(0)) && w.requests[h].kind.Deleter?
    requires w.requests[h].Full() in Local(w, w.requests[h].node).objects
    ensures Reachable(w') && LogInv(w') && Joined(w, w', h) && DeletesAt(w', h, w.requests[h].bucket, w.requests[h].key, 1)
    ensures w'.bytes == w.bytes && Committed(w') == Committed(w)
    ensures forall other :: SameVersion(w, w', other)
  {
    CheckIsExact(w, h);
    Reach(w, CheckExists(h));
    w' := Do(w, CheckExists(h));
  }

  lemma EntryDeleted(w: World, h: LockHolder) returns (w': World)
    requires Reachable(w) && LogInv(w) && In(w, h, Holding(1)) && w.requests[h].kind.Deleter?
    ensures Reachable(w') && LogInv(w') && Joined(w, w', h) && DeletesAt(w', h, w.requests[h].bucket, w.requests[h].key, 2)
    ensures w'.bytes == w.bytes && w.requests[h].Full() !in Committed(w').objects && Committed(w').locks == Committed(w).locks
    ensures forall other :: other != w.requests[h].Full() ==> SameVersion(w, w', other)
  {
    Reach(w, DeleteMetadata(h));
    w' := Do(w, DeleteMetadata(h));
    EntryGoes(w, h);
    forall other | other != w.requests[h].Full()
      ensures SameVersion(w, w', other)
    {
      WorksOnItsOwnKey(w, DeleteMetadata(h), other);
    }
  }

  lemma BytesDeleted(w: World, h: LockHolder, copies: set<nat>) returns (w': World)
    requires Reachable(w) && LogInv(w) && In(w, h, Holding(2)) && w.requests[h].kind.Deleter?
    ensures Reachable(w') && Joined(w, w', h) && DeletesAt(w', h, w.requests[h].bucket, w.requests[h].key, 3)
    ensures Copies(w', w.requests[h].Full()) == Copies(w, w.requests[h].Full()) - copies && Committed(w') == Committed(w)
    ensures forall other :: other != w.requests[h].Full() ==> SameVersion(w, w', other)
  {
    Reach(w, DeleteBytes(h, copies));
    w' := Do(w, DeleteBytes(h, copies));
    BytesGo(w, h, copies);
    forall other | other != w.requests[h].Full()
      ensures SameVersion(w, w', other)
    {
      WorksOnItsOwnKey(w, DeleteBytes(h, copies), other);
    }
  }

  lemma VersionsChain(a: World, b: World, c: World, full: string)
    requires SameVersion(a, b, full) && SameVersion(b, c, full)
    ensures SameVersion(a, c, full)
  {
  }

  lemma EntryGoes(w: World, h: LockHolder)
    requires LogInv(w) && Enabled(w, DeleteMetadata(h))
    ensures var w' := Do(w, DeleteMetadata(h));
            w.requests[h].Full() !in Committed(w').objects && Committed(w').locks == Committed(w).locks && w'.bytes == w.bytes
  {
    StepCommits(w, DeleteMetadata(h));
    StepDelete(Committed(w), w.requests[h].bucket, w.requests[h].key, 0, w.requests[h].Full());
  }

  lemma BytesGo(w: World, h: LockHolder, copies: set<nat>)
    requires LogInv(w) && Enabled(w, DeleteBytes(h, copies))
    ensures var w' := Do(w, DeleteBytes(h, copies));
            Copies(w', w.requests[h].Full()) == Copies(w, w.requests[h].Full()) - copies && Committed(w') == Committed(w)
  {
    StepCommits(w, DeleteBytes(h, copies));
  }

  /** One deleter, from its first step to its release: the object is gone, with its bytes on the
      nodes that were told, and the lock is free again. */
  lemma DeleterFinishes(w: World, h: LockHolder, bucket: string, key: string, copies: set<nat>) returns (w': World)
    requires Reachable(w) && h !in w.requests && ValidBucketName(bucket) && ValidObjectKey(key)
    requires FullKey(bucket, key) !in Committed(w).locks && FullKey(bucket, key) in Committed(w).objects
    ensures Reachable(w') && Joined(w, w', h)
    ensures FullKey(bucket, key) !in Committed(w').objects && FullKey(bucket, key) !in Committed(w').locks
    ensures Copies(w', FullKey(bucket, key)) == Copies(w, FullKey(bucket, key)) - copies
  {
    var w1 := RequestLocks(w, h, bucket, key, Deleter);
    var w2 := DeleterDeletes(w1, h, copies);
    w' := WriterLeaves(w2, h);
    ReachableIsGood(w2);
    FreedAgain(w2.log, h, bucket, key);
  }

  /** A delete of a key without an entry changes no object and no bytes. */
  lemma NothingToDelete(w: World, h: LockHolder, bucket: string, key: string) returns (w': World)
    requires Reachable(w) && h !in w.requests && ValidBucketName(bucket) && ValidObjectKey(key)
    requires FullKey(bucket, key) !in Committed(w).locks && FullKey(bucket, key) !in Committed(w).objects
    ensures Reachable(w') && In(w', h, Dropped) && w'.bytes == w.bytes && Committed(w').objects == Committed(w).objects
  {
    var w1 := RequestLocks(w, h, bucket, key, Deleter);
    Reach(w1, CheckExists(h));
    w' := Do(w1, CheckExists(h));
  }

  /** A reader on a vacant key gets its guard, and with its release the lock is free again. */
  lemma ReaderFinishes(w: World, h: LockHolder, bucket: string, key: string) returns (w': World)
    requires Reachable(w) && h !in w.requests && ValidBucketName(bucket) && ValidObjectKey(key)
    requires FullKey(bucket, key) !in Committed(w).locks
    ensures Reachable(w') && Joined(w, w', h) && w'.bytes == w.bytes
    ensures Committed(w').objects == Committed(w).objects && FullKey(bucket, key) !in Committed(w').locks
  {
    var w1 := RequestLocks(w, h, bucket, key, Reader);
    w' := WriterLeaves(w1, h);
    ReachableIsGood(w1);
    FreedAgain(w1.log, h, bucket, key);
  }

  lemma FreedAgain(log: seq<Command>, h: LockHolder, bucket: string, key: string)
    requires Replayed(log).ok && FullKey(bucket, key) in Replayed(log).meta.locks
    requires Replayed(log).meta.locks[FullKey(bucket, key)].holders == [h]
    ensures var m := Replayed(log + [MetadataDb.ReleaseLock(bucket, key, h)]).meta;
            FullKey(bucket, key) !in m.locks && m.objects == Replayed(log).meta.objects
  {
    var release := MetadataDb.ReleaseLock(bucket, key, h);
    LogGrows(log, release);
    assert Without([h], h) == [];
    StepRelease(Replayed(log).meta, release, 0, FullKey(bucket, key));
  }

  /** A storage commit, whether it is answered as done or as failed, shows the content exactly on
      the nodes it got to, the writer's own included if it was done. */
  lemma CommitSpreads(w: World, a: Action, n: nat)
    requires Enabled(w, a) && (a.CommitBytes? || a.CommitFails?)
    ensures var full, r := w.requests[a.h].Full(), w.requests[a.h];
            var reached := n in a.copies || (a.CommitBytes? && n == r.node);
            && (reached ==> n in Copies(Do(w, a), full) && Copies(Do(w, a), full)[n] == r.kind.content)
            && (!reached ==> (n in Copies(Do(w, a), full) <==> n in Copies(w, full)))
            && (!reached && n in Copies(w, full) ==> Copies(Do(w, a), full)[n] == Copies(w, full)[n])
    ensures Do(w, a).requests[a.h].phase == if a.CommitBytes? then Holding(1) else Dropped
  {
  }

  /** A node reads what it has applied: catching up moves its own position to where it got, and
      nothing else moves any. */
  lemma AppliedExactly(w: World, a: Action, n: nat)
    requires Enabled(w, a) && forall m :: m in w.applied ==> w.applied[m] <= |w.log|
    ensures AppliedTo(Do(w, a), n) == if a.CatchUp? && a.at == n then a.upTo else AppliedTo(w, n)
    ensures AppliedTo(w, n) == if n in w.applied then w.applied[n] else 0
    ensures forall m :: m in Do(w, a).applied ==> Do(w, a).applied[m] <= |Do(w, a).log|
  {
  }

  /** When a request may ask for its lock: while it tries, and its node knows of no lock on the key,
      of one it has itself, or of a shared one it wants to share. */
  lemma PreCheckExactly(w: World, h: LockHolder)
    requires h in w.requests
    ensures var r := w.requests[h]; var locks := Local(w, r.node).locks;
            Enabled(w, PreCheck(h)) <==>
            && r.phase == Trying
            && (|| r.Full() !in locks || h in locks[r.Full()].holders
                || (locks[r.Full()].lockType == Read && r.kind.Reader?))
  {
  }

  /** A request may give up exactly while it has no guard, and may drop its guard at any point. */
  lemma StopsAnywhere(w: World, h: LockHolder, copies: set<nat>)
    requires h in w.requests
    ensures Enabled(w, GiveUp(h)) <==> w.requests[h].phase == Trying || w.requests[h].phase == Proposing || w.requests[h].phase == Verifying
    ensures Enabled(w, DropGuard(h)) <==> w.requests[h].phase.Holding?
    ensures Enabled(w, CommitBytes(h, copies)) <==> w.requests[h].phase == Holding(0) && w.requests[h].kind.Writer?
    ensures Enabled(w, CommitFails(h, copies)) <==> w.requests[h].phase == Holding(0) && w.requests[h].kind.Writer?
    ensures Enabled(w, DeleteBytes(h, copies)) <==> w.requests[h].phase == Holding(2) && w.requests[h].kind.Deleter?
    ensures w.requests[h].phase.Holding? ==> In(Do(w, DropGuard(h)), h, Dropped) && Enabled(Do(w, DropGuard(h)), ReleaseDone(h))
  {
  }

  /** The verification decides by the node's own copy: a request whose hold it sees goes on, one
      whose hold it does not see tries again. */
  lemma VerifyExactly(w: World, h: LockHolder)
    requires Enabled(w, Verify(h))
    ensures var r := w.requests[h]; var locks := Local(w, r.node).locks;
            var seen := r.Full() in locks && h in locks[r.Full()].holders;
            && (seen ==> In(Do(w, Verify(h)), h, Holding(0)))
            && (!seen ==> In(Do(w, Verify(h)), h, Trying))
  {
  }

  /** After giving up, a lock can still arrive exactly if the Raft write was under way; and when it
      arrives the request stays given up. */
  lemma LateExactly(w: World, h: LockHolder)
    requires Enabled(w, GiveUp(h))
    ensures Enabled(Do(w, GiveUp(h)), LateAcquired(h)) <==> In(w, h, Proposing)
    ensures !In(Do(w, GiveUp(h)), h, Trying) && Do(w, GiveUp(h)).log == w.log
    ensures In(w, h, Proposing) ==>
              var w' := Do(Do(w, GiveUp(h)), LateAcquired(h));
              In(w', h, Abandoned(false)) && w'.log == w.log + [Asking(h, w.requests[h].bucket, w.requests[h].key, w.requests[h].kind)]
  {
  }

  /** Bucket commands take effect in the committed state. */
  lemma BucketsChange(w: World, name: string, at: nat)
    requires LogInv(w) && ValidBucketName(name)
    ensures name !in Committed(w).buckets ==>
              Enabled(w, BucketChange(CreateBucket(Bucket(name, at))))
              && name in Committed(Do(w, BucketChange(CreateBucket(Bucket(name, at))))).buckets
    ensures Enabled(w, BucketChange(DeleteBucket(name))) && name !in Committed(Do(w, BucketChange(DeleteBucket(name)))).buckets
  {
    StepBucket(Committed(w), Bucket(name, at), name, 0);
    if name !in Committed(w).buckets {
      StepCommits(w, BucketChange(CreateBucket(Bucket(name, at))));
    }
    StepCommits(w, BucketChange(DeleteBucket(name)));
  }

  /** The exception happens, for every bucket, key and pair of different contents: one writer
      publishes, a second one on the same node stops after its storage commit, and the metadata
      describe no bytes anywhere. */
  lemma TornObject(bucket: string, key: string, node: nat, first: Bytes, second: Bytes)
    requires ValidBucketName(bucket) && ValidObjectKey(key) && first != second
    ensures exists run :: Legal(START, run) && FullKey(bucket, key) in Committed(After(START, run)).objects
                          && !Described(After(START, run), FullKey(bucket, key))
  {
    var full := FullKey(bucket, key);
    assert Legal(START, []) && After(START, []) == START;
    var w1 := WriterFinishes(START, LockHolder(node, 0), bucket, key, first);
    var w2 := WriterRuns(w1, LockHolder(node, 1), bucket, key, second);
    Overwritten(w2, full, node, first, second);
    var run :| Legal(START, run) && After(START, run) == w2;
  }

  lemma Overwritten(w: World, full: string, node: nat, first: Bytes, second: Bytes)
    requires full in Committed(w).objects && Committed(w).objects[full].etag == Sha256(first) && first != second
    requires Copies(w, full) == map[node := second]
    ensures !Described(w, full)
  {
  }
}
