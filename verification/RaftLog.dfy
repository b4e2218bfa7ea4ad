/** The Raft log store: entries by index in one table, the last and the last purged
    position beside it.  It refines a contiguous sequence of entries. */
module RaftLog {
  import opened Text
  import opened StateMachine

  const U64_MAX: nat := 0xFFFF_FFFF_FFFF_FFFF

  /** The stored tables. */
  datatype Tables = Tables(entries: map<nat, Entry>, lastLogId: Option<LogId>, lastPurged: Option<LogId>)

  type U64 = n: nat | n <= U64_MAX

  /** Addition in release builds: the successor of the greatest index is 0. */
  function Successor(n: U64): U64 {
    if n == U64_MAX then 0 else n + 1
  }

  datatype Bound = Included(n: U64) | Excluded(n: U64) | Unbounded

  function RangeStart(b: Bound): U64 {
    match b
    case Included(n) => n
    case Excluded(n) => Successor(n)
    case Unbounded => 0
  }

  function RangeEnd(b: Bound): U64 {
    match b
    case Included(n) => Successor(n)
    case Excluded(n) => n
    case Unbounded => U64_MAX
  }

  // ---------- operations on the tables ----------

  function Append(t: Tables, es: seq<Entry>): Tables {
    if es == [] then t
    else
      var n := |es| - 1;
      var before := Append(t, es[..n]);
      before.(entries := before.entries[es[n].logId.index := es[n]], lastLogId := Some(es[n].logId))
  }

  function DeleteRange(t: Tables, start: nat, end: nat): Tables {
    t.(entries := map i | i in t.entries && !(start <= i <= end) :: t.entries[i])
  }

  /** Drops everything from `logId` on.  The new last position takes the conflicting
      entry's leader. */
  function Truncate(t: Tables, logId: LogId): Tables {
    if t.lastLogId.None? then t
    else
      DeleteRange(t, logId.index, t.lastLogId.value.index)
      .(lastLogId := if logId.index > 0 then Some(LogId(logId.leaderId, logId.index - 1)) else None)
  }

  function Purge(t: Tables, logId: LogId): Tables {
    DeleteRange(t, if t.lastPurged.Some? then t.lastPurged.value.index + 1 else 0, logId.index).(lastPurged := Some(logId))
  }

  /** What a read of an index range returns: the stored entries, in index order. */
  function Slice(entries: map<nat, Entry>, start: nat, end: nat): seq<Entry>
    decreases end - start
  {
    if start >= end then []
    else (if start in entries then [entries[start]] else []) + Slice(entries, start + 1, end)
  }

  lemma SliceStep(found: seq<Entry>, entries: map<nat, Entry>, index: nat, end: nat)
    requires index < end
    ensures found + Slice(entries, index, end)
         == (if index in entries then found + [entries[index]] else found) + Slice(entries, index + 1, end)
  {
  }

  class LogStore {
    var entries: map<nat, Entry>
    var lastLogId: Option<LogId>
    var lastPurged: Option<LogId>

    function State(): Tables
      reads this
    {
      Tables(entries, lastLogId, lastPurged)
    }

    constructor ()
      ensures State() == Tables(map[], None, None)
    {
      entries, lastLogId, lastPurged := map[], None, None;
    }

    /** Reads every index of the range in turn and keeps what is there. */
    method GetEntries(from: Bound, to: Bound) returns (found: seq<Entry>)
      ensures found == Slice(entries, RangeStart(from), RangeEnd(to))
    {
      var start, end := RangeStart(from), RangeEnd(to);
      found := [];
      var index := start;
      while index < end
        invariant start <= index
        invariant found + Slice(entries, index, end) == Slice(entries, start, end)
      {
        SliceStep(found, entries, index, end);
        if index in entries {
          found := found + [entries[index]];
        }
        index := index + 1;
      }
    }

    method AppendToLog(es: seq<Entry>) returns (last: Option<LogId>)
      modifies this`entries, this`lastLogId
      ensures State() == Append(old(State()), es)
      ensures last == if es == [] then None else Some(es[|es| - 1].logId)
    {
      last := None;
      ghost var t := State();
      for i := 0 to |es|
        invariant entries == Append(t, es[..i]).entries && lastLogId == t.lastLogId && lastPurged == t.lastPurged
        invariant last == if i == 0 then None else Some(es[i - 1].logId)
        invariant i > 0 ==> Append(t, es[..i]).lastLogId == last
        invariant Append(t, es[..i]).lastPurged == t.lastPurged
      {
        assert es[..i + 1][..i] == es[..i];
        entries := entries[es[i].logId.index := es[i]];
        last := Some(es[i].logId);
      }
      assert es[..|es|] == es;
      if last.Some? {
        lastLogId := last;
      }
    }

    method DeleteRangeOf(start: nat, end: nat)
      modifies this`entries
      ensures State() == DeleteRange(old(State()), start, end)
    {
      var index := start;
      while index <= end
        invariant start <= index && (index <= end + 1 || index == start)
        invariant forall i :: i in entries <==> i in old(entries) && !(start <= i < index)
        invariant forall i :: i in entries ==> entries[i] == old(entries)[i]
      {
        entries := entries - {index};
        index := index + 1;
      }
    }

    method DeleteConflictLogsSince(logId: LogId)
      modifies this`entries, this`lastLogId
      ensures State() == Truncate(old(State()), logId)
    {
      if lastLogId.Some? {
        DeleteRangeOf(logId.index, lastLogId.value.index);
        if logId.index > 0 {
          lastLogId := Some(LogId(logId.leaderId, logId.index - 1));
        } else {
          lastLogId := None;
        }
      }
    }

    method PurgeLogsUpto(logId: LogId)
      modifies this`entries, this`lastPurged
      ensures State() == Purge(old(State()), logId)
    {
      var start := if lastPurged.Some? then lastPurged.value.index + 1 else 0;
      DeleteRangeOf(start, logId.index);
      lastPurged := Some(logId);
    }
  }

  // ---------- the sequence they stand for ----------

  /** A contiguous log: `entries[k]` is the entry of index `first + k`. */
  datatype Log = Log(first: nat, entries: seq<Entry>) {
    function Next(): nat {
      first + |entries|
    }

    predicate Has(i: nat) {
      first <= i < Next()
    }

    function At(i: nat): Entry
      requires Has(i)
    {
      entries[i - first]
    }

    function Before(i: nat): Log
      requires first <= i <= Next()
    {
      Log(first, entries[..i - first])
    }

    function From(i: nat): Log
      requires first <= i <= Next()
    {
      Log(i, entries[i - first..])
    }

    /** Every entry carries its own index. */
    ghost predicate Numbered() {
      forall i :: Has(i) ==> At(i).logId.index == i
    }
  }

  /** A table that holds exactly the entries of a log under their indices. */
  ghost predicate Holds(table: map<nat, Entry>, log: Log) {
    && (forall i :: i in table <==> log.Has(i))
    && (forall i :: log.Has(i) ==> table[i] == log.At(i))
  }

  /** The tables hold the log, the last position is its last entry's, and it begins right
      after the purged position. */
  ghost predicate Represents(t: Tables, log: Log) {
    && Holds(t.entries, log)
    && log.Numbered()
    && (t.lastLogId.Some? ==> t.lastLogId.value.index + 1 == log.Next())
    && (t.lastLogId.None? ==> log.entries == [])
    && (t.lastPurged.Some? ==> t.lastPurged.value.index + 1 == log.first)
  }

  /** Entries that continue the log.  A store that has neither a last nor a purged
      position may start at any index. */
  ghost predicate Continues(t: Tables, log: Log, es: seq<Entry>) {
    es != [] ==>
      && Log(es[0].logId.index, es).Numbered()
      && (es[0].logId.index == log.Next() || (t.lastLogId.None? && t.lastPurged.None?))
  }

  function AppendLog(log: Log, es: seq<Entry>): Log {
    if es == [] then log
    else if log.entries == [] then Log(es[0].logId.index, es)
    else Log(log.first, log.entries + es)
  }

  lemma {:induction false} AppendEnds(t: Tables, es: seq<Entry>)
    ensures Append(t, es).lastLogId == if es == [] then t.lastLogId else Some(es[|es| - 1].logId)
    ensures Append(t, es).lastPurged == t.lastPurged
  {
    if es != [] {
      AppendEnds(t, es[..|es| - 1]);
    }
  }

  lemma Joined(log: Log, es: seq<Entry>, i: nat)
    ensures Log(log.first, log.entries + es).Has(i) <==> log.Has(i) || Log(log.Next(), es).Has(i)
    ensures log.Has(i) ==> Log(log.first, log.entries + es).At(i) == log.At(i)
    ensures Log(log.Next(), es).Has(i) ==> Log(log.first, log.entries + es).At(i) == Log(log.Next(), es).At(i)
  {
  }

  lemma JoinedIsNumbered(log: Log, es: seq<Entry>)
    requires log.Numbered() && Log(log.Next(), es).Numbered()
    ensures Log(log.first, log.entries + es).Numbered()
  {
    var all := Log(log.first, log.entries + es);
    forall i | all.Has(i)
      ensures all.At(i).logId.index == i
    {
      Joined(log, es, i);
    }
  }

  lemma {:induction false} AppendTables(t: Tables, log: Log, es: seq<Entry>)
    requires Holds(t.entries, log) && Log(log.Next(), es).Numbered()
    ensures Holds(Append(t, es).entries, Log(log.first, log.entries + es))
  {
    if es == [] {
      assert log.entries + es == log.entries;
    } else {
      var n := |es| - 1;
      var tail := Log(log.Next(), es);
      assert tail.Has(log.Next() + n) && tail.At(log.Next() + n) == es[n];
      InitIsNumbered(log.Next(), es);
      AppendTables(t, log, es[..n]);
      AddEntry(Append(t, es[..n]).entries, Log(log.first, log.entries + es[..n]), es[n]);
      assert log.entries + es[..n] + [es[n]] == log.entries + es;
    }
  }

  lemma InitIsNumbered(base: nat, es: seq<Entry>)
    requires es != [] && Log(base, es).Numbered()
    ensures Log(base, es[..|es| - 1]).Numbered()
  {
    var all, init := Log(base, es), Log(base, es[..|es| - 1]);
    forall i | init.Has(i)
      ensures init.At(i).logId.index == i
    {
      assert all.Has(i) && all.At(i) == init.At(i);
    }
  }

  lemma AddEntry(table: map<nat, Entry>, log: Log, e: Entry)
    requires Holds(table, log)
    ensures Holds(table[log.Next() := e], Log(log.first, log.entries + [e]))
  {
    var all := Log(log.first, log.entries + [e]);
    forall i: nat
      ensures i in table[log.Next() := e] <==> all.Has(i)
      ensures all.Has(i) ==> table[log.Next() := e][i] == all.At(i)
    {
      Joined(log, [e], i);
    }
  }

  lemma AppendRefines(t: Tables, log: Log, es: seq<Entry>)
    requires Represents(t, log) && Continues(t, log, es)
    ensures Represents(Append(t, es), AppendLog(log, es))
  {
    AppendEnds(t, es);
    if es != [] {
      var base := es[0].logId.index;
      if log.entries == [] {
        assert forall i :: i in t.entries <==> log.Has(i);
        assert Holds(t.entries, Log(base, []));
        AppendTables(t, Log(base, []), es);
        assert [] + es == es;
        var all := Log(base, es);
        assert all.Has(all.Next() - 1) && all.At(all.Next() - 1) == es[|es| - 1];
      } else {
        AppendTables(t, log, es);
        JoinedIsNumbered(log, es);
        var all := Log(log.first, log.entries + es);
        assert all.Has(all.Next() - 1) && all.At(all.Next() - 1) == es[|es| - 1];
      }
    }
  }

  /** A stretch of a log is numbered like the log. */
  lemma Stretch(log: Log, from: nat, to: nat, i: nat)
    requires log.first <= from <= to <= log.Next()
    ensures var part := Log(from, log.entries[from - log.first..to - log.first]);
            && (part.Has(i) <==> from <= i < to)
            && (part.Has(i) ==> log.Has(i) && part.At(i) == log.At(i))
  {
  }

  lemma StretchIsHeld(table: map<nat, Entry>, rest: map<nat, Entry>, log: Log, from: nat, to: nat)
    requires Holds(table, log) && log.Numbered() && log.first <= from <= to <= log.Next()
    requires forall i :: i in rest <==> i in table && from <= i < to
    requires forall i :: i in rest ==> rest[i] == table[i]
    ensures var part := Log(from, log.entries[from - log.first..to - log.first]);
            Holds(rest, part) && part.Numbered()
  {
    var part := Log(from, log.entries[from - log.first..to - log.first]);
    forall i: nat
      ensures i in rest <==> part.Has(i)
      ensures part.Has(i) ==> i in rest && rest[i] == part.At(i) && part.At(i).logId.index == i
    {
      Stretch(log, from, to, i);
      assert i in table <==> log.Has(i);
    }
  }

  lemma TruncateRefines(t: Tables, log: Log, logId: LogId)
    requires Represents(t, log) && t.lastLogId.Some? && log.first <= logId.index <= log.Next()
    ensures Represents(Truncate(t, logId), log.Before(logId.index))
  {
    assert forall i :: i in t.entries ==> log.Has(i);
    StretchIsHeld(t.entries, Truncate(t, logId).entries, log, log.first, logId.index);
  }

  /** Truncation leaves a contiguous log with the same start exactly when it starts inside
      the log or right after it, or resets the store at index 0, or there is no last
      position and nothing happens. */
  lemma TruncateIsExact(t: Tables, log: Log, logId: LogId)
    requires Represents(t, log)
    ensures (exists es :: Represents(Truncate(t, logId), Log(log.first, es)))
            <==> t.lastLogId.None? || logId.index == 0 || log.first <= logId.index <= log.Next()
  {
    var t' := Truncate(t, logId);
    if t.lastLogId.None? {
      assert Represents(t', Log(log.first, log.entries));
    } else if log.first <= logId.index <= log.Next() {
      TruncateRefines(t, log, logId);
    } else if logId.index == 0 {
      EverythingDeleted(t, log, logId);
    } else {
      forall es
        ensures !Represents(t', Log(log.first, es))
      {
        TruncateLeavesGap(t, log, logId, es);
      }
    }
  }

  lemma EverythingDeleted(t: Tables, log: Log, logId: LogId)
    requires Represents(t, log) && t.lastLogId.Some? && logId.index == 0
    ensures Represents(Truncate(t, logId), Log(log.first, []))
  {
    assert forall i :: i in t.entries ==> log.Has(i);
  }

  lemma TruncateLeavesGap(t: Tables, log: Log, logId: LogId, es: seq<Entry>)
    requires Represents(t, log) && t.lastLogId.Some?
    requires 0 < logId.index < log.first || log.Next() < logId.index
    ensures !Represents(Truncate(t, logId), Log(log.first, es))
  {
    var log' := Log(log.first, es);
    assert !log.Has(log.Next());
    assert log.Next() !in Truncate(t, logId).entries;
    assert log'.Has(log.Next()) <==> log.Next() < log'.Next();
  }

  lemma PurgeRefines(t: Tables, log: Log, logId: LogId)
    requires Represents(t, log) && log.first <= logId.index + 1 <= log.Next() && t.lastLogId.Some?
    ensures Represents(Purge(t, logId), log.From(logId.index + 1))
  {
    assert forall i :: i in t.entries ==> log.Has(i);
    var k := logId.index + 1 - log.first;
    assert log.entries[k..] == log.entries[k..|log.entries|];
    StretchIsHeld(t.entries, Purge(t, logId).entries, log, logId.index + 1, log.Next());
  }

  /** The entries that truncation and purge delete: from the position to the last one, and from
      behind the last purge to the position. */
  lemma DeletedExactly(t: Tables, logId: LogId, i: nat)
    ensures i in Truncate(t, logId).entries <==>
            i in t.entries && (t.lastLogId.Some? ==> i < logId.index || t.lastLogId.value.index < i)
    ensures i in Purge(t, logId).entries <==>
            i in t.entries && (logId.index < i || (t.lastPurged.Some? && i <= t.lastPurged.value.index))
    ensures i in Truncate(t, logId).entries ==> Truncate(t, logId).entries[i] == t.entries[i]
    ensures i in Purge(t, logId).entries ==> Purge(t, logId).entries[i] == t.entries[i]
  {
  }

  /** The positions that truncation and purge record. */
  lemma PositionsExactly(t: Tables, logId: LogId)
    ensures Purge(t, logId).lastPurged == Some(logId) && Purge(t, logId).lastLogId == t.lastLogId
    ensures Truncate(t, logId).lastPurged == t.lastPurged
    ensures t.lastLogId.None? ==> Truncate(t, logId) == t
    ensures t.lastLogId.Some? && logId.index == 0 ==> Truncate(t, logId).lastLogId == None
    ensures t.lastLogId.Some? && logId.index > 0 ==> Truncate(t, logId).lastLogId == Some(LogId(logId.leaderId, logId.index - 1))
  {
  }

  /** A store without a last position has no entries, and purging it just moves its start. */
  lemma PurgeOfNothing(t: Tables, log: Log, logId: LogId)
    requires Represents(t, log) && t.lastLogId.None?
    ensures Represents(Purge(t, logId), Log(logId.index + 1, []))
  {
    assert forall i :: i in t.entries ==> log.Has(i);
  }

  /** Purging leaves a contiguous log exactly when there is no last position, or it goes no
      further than the last position and does not go back behind the first entry. */
  lemma PurgeIsExact(t: Tables, log: Log, logId: LogId)
    requires Represents(t, log)
    ensures (exists log' :: Represents(Purge(t, logId), log'))
            <==> t.lastLogId.None? || log.first <= logId.index + 1 <= log.Next()
  {
    var t' := Purge(t, logId);
    if t.lastLogId.None? {
      PurgeOfNothing(t, log, logId);
    } else if log.first <= logId.index + 1 <= log.Next() {
      PurgeRefines(t, log, logId);
    } else {
      forall log': Log
        ensures !Represents(t', log')
      {
        PurgeLeavesGap(t, log, logId, log');
      }
    }
  }

  lemma PurgeLeavesGap(t: Tables, log: Log, logId: LogId, log': Log)
    requires Represents(t, log) && t.lastLogId.Some?
    requires logId.index + 1 < log.first || log.Next() < logId.index + 1
    ensures !Represents(Purge(t, logId), log')
  {
    var k := logId.index + 1;
    if k < log.first {
      assert !log.Has(k);
      assert k !in Purge(t, logId).entries;
      assert log'.first == k && k < log'.Next() ==> log'.Has(k);
    }
  }

  /** Reading any index range of a contiguous log returns exactly the part of the log that
      lies in the range, in order. */
  lemma {:induction false} SliceIsExact(t: Tables, log: Log, start: nat, end: nat)
    requires Represents(t, log)
    ensures Slice(t.entries, start, end) == Between(log, start, end)
    decreases end - start
  {
    if start < end {
      SliceIsExact(t, log, start + 1, end);
      assert start in t.entries <==> log.Has(start);
    }
  }

  function Clamp(x: int, lo: int, hi: int): (r: int)
    requires lo <= hi
    ensures lo <= r <= hi
  {
    if x < lo then lo else if x > hi then hi else x
  }

  function Between(log: Log, start: nat, end: nat): seq<Entry> {
    var lo := Clamp(start - log.first, 0, |log.entries|);
    var hi := Clamp(end - log.first, lo, |log.entries|);
    log.entries[lo..hi]
  }

  // ---------- runs ----------

  datatype LogOp = AppendOp(es: seq<Entry>) | TruncateOp(logId: LogId) | PurgeOp(logId: LogId)

  function DoTables(t: Tables, op: LogOp): Tables {
    match op
    case AppendOp(es) => Append(t, es)
    case TruncateOp(logId) => Truncate(t, logId)
    case PurgeOp(logId) => Purge(t, logId)
  }

  function DoLog(log: Log, op: LogOp): Log {
    match op
    case AppendOp(es) => AppendLog(log, es)
    case TruncateOp(logId) =>
      if log.first <= logId.index <= log.Next() then log.Before(logId.index) else log
    case PurgeOp(logId) =>
      if log.entries == [] then Log(logId.index + 1, [])
      else if log.first <= logId.index + 1 <= log.Next() then log.From(logId.index + 1) else log
  }

  /** What Raft does to its log store: append what comes next, cut off a conflicting tail
      above the purge point, purge forward and no further than the last entry, or to anywhere
      while there is no last position, as on a fresh node that installed a snapshot. */
  ghost predicate Allowed(t: Tables, log: Log, op: LogOp) {
    match op
    case AppendOp(es) => Continues(t, log, es)
    case TruncateOp(logId) => t.lastLogId.Some? && log.first <= logId.index <= log.Next()
    case PurgeOp(logId) => t.lastLogId.None? || log.first <= logId.index + 1 <= log.Next()
  }

  ghost predicate AllowedRun(t: Tables, log: Log, run: seq<LogOp>)
    decreases |run|
  {
    run == [] || (Allowed(t, log, run[0]) && AllowedRun(DoTables(t, run[0]), DoLog(log, run[0]), run[1..]))
  }

  function TablesAfter(t: Tables, run: seq<LogOp>): Tables
    decreases |run|
  {
    if run == [] then t else TablesAfter(DoTables(t, run[0]), run[1..])
  }

  function LogAfter(log: Log, run: seq<LogOp>): Log
    decreases |run|
  {
    if run == [] then log else LogAfter(DoLog(log, run[0]), run[1..])
  }

  lemma OpRefines(t: Tables, log: Log, op: LogOp)
    requires Represents(t, log) && Allowed(t, log, op)
    ensures Represents(DoTables(t, op), DoLog(log, op))
  {
    match op
    case AppendOp(es) => AppendRefines(t, log, es);
    case TruncateOp(logId) => TruncateOpRefines(t, log, logId);
    case PurgeOp(logId) => PurgeOpRefines(t, log, logId);
  }

  lemma TruncateOpRefines(t: Tables, log: Log, logId: LogId)
    requires Represents(t, log) && Allowed(t, log, TruncateOp(logId))
    ensures Represents(DoTables(t, TruncateOp(logId)), DoLog(log, TruncateOp(logId)))
  {
    TruncateRefines(t, log, logId);
  }

  lemma PurgeOpRefines(t: Tables, log: Log, logId: LogId)
    requires Represents(t, log) && Allowed(t, log, PurgeOp(logId))
    ensures Represents(DoTables(t, PurgeOp(logId)), DoLog(log, PurgeOp(logId)))
  {
    if t.lastLogId.None? {
      PurgeOfNothing(t, log, logId);
    } else {
      PurgeRefines(t, log, logId);
    }
  }

  /** In every allowed run the tables are a contiguous sequence: stored indices are exactly
      those from the first to the last position, the first following the purge point, and
      every read returns exactly the requested part of the sequence. */
  lemma {:induction false} LogRunRefines(t: Tables, log: Log, run: seq<LogOp>)
    requires Represents(t, log) && AllowedRun(t, log, run)
    ensures Represents(TablesAfter(t, run), LogAfter(log, run))
    decreases |run|
  {
    if run != [] {
      OpRefines(t, log, run[0]);
      LogRunRefines(DoTables(t, run[0]), DoLog(log, run[0]), run[1..]);
    }
  }

  /** The first index a lower bound admits, and the first one after those an upper bound admits. */
  function Low(from: Bound): nat {
    match from
    case Included(n) => n
    case Excluded(n) => n + 1
    case Unbounded => 0
  }

  function High(log: Log, to: Bound): nat {
    match to
    case Included(n) => n + 1
    case Excluded(n) => n
    case Unbounded => log.Next()
  }

  /** Neither a bound that wraps around nor the greatest index, which an unbounded end leaves out,
      makes a difference to this read. */
  predicate NoWrap(log: Log, from: Bound, to: Bound) {
    && (from == Excluded(U64_MAX) ==> log.entries == [] || RangeEnd(to) <= log.first)
    && (to == Included(U64_MAX) ==> log.entries == [] || log.Next() <= Low(from))
    && (to == Unbounded ==> !log.Has(U64_MAX) || U64_MAX < Low(from))
  }

  lemma NothingBetween(log: Log, a: nat, b: nat)
    ensures Between(log, a, b) == [] <==> log.entries == [] || b <= log.first || log.Next() <= a || b <= a
  {
  }

  /** An unbounded read leaves out the greatest index and nothing else. */
  lemma UnboundedRead(log: Log, a: nat)
    requires log.Next() <= U64_MAX + 1 && a <= U64_MAX
    ensures Between(log, a, U64_MAX) == Between(log, a, log.Next()) <==> !log.Has(U64_MAX)
  {
    if log.Has(U64_MAX) {
      assert |Between(log, a, U64_MAX)| < |Between(log, a, log.Next())|;
    }
  }

  /** A read of a log of 64-bit indices returns exactly what its bounds ask for, if and only if
      no wrap-around makes a difference to it. */
  lemma ReadIsWhatWasAsked(log: Log, from: Bound, to: Bound)
    requires log.Next() <= U64_MAX + 1
    ensures Between(log, RangeStart(from), RangeEnd(to)) == Between(log, Low(from), High(log, to)) <==> NoWrap(log, from, to)
  {
    if from == Excluded(U64_MAX) {
      NothingBetween(log, Low(from), High(log, to));
      NothingBetween(log, RangeStart(from), RangeEnd(to));
    } else if to == Included(U64_MAX) {
      NothingBetween(log, Low(from), High(log, to));
      NothingBetween(log, RangeStart(from), RangeEnd(to));
    } else if to == Unbounded {
      UnboundedRead(log, Low(from));
    }
  }

  /** After every allowed run, every read returns exactly the part of the log between the bounds
      it computes; and that is what was asked for exactly if no wrap-around makes a difference. */
  lemma ReadsAfterRun(run: seq<LogOp>, from: Bound, to: Bound)
    requires AllowedRun(Tables(map[], None, None), Log(0, []), run)
    ensures var log := LogAfter(Log(0, []), run);
            var read := Slice(TablesAfter(Tables(map[], None, None), run).entries, RangeStart(from), RangeEnd(to));
            && read == Between(log, RangeStart(from), RangeEnd(to))
            && (log.Next() <= U64_MAX + 1 ==> (read == Between(log, Low(from), High(log, to)) <==> NoWrap(log, from, to)))
  {
    var log := LogAfter(Log(0, []), run);
    LogRunRefines(Tables(map[], None, None), Log(0, []), run);
    SliceIsExact(TablesAfter(Tables(map[], None, None), run), log, RangeStart(from), RangeEnd(to));
    if log.Next() <= U64_MAX + 1 {
      ReadIsWhatWasAsked(log, from, to);
    }
  }
}
