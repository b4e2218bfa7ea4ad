/** Where the promise of multipart completion ends: uploads nested in another's key space, uploads
    that listings hide, and completions that failed. */
module UploadLimits {
  import opened Text
  import opened MetadataDb
  import opened UploadKeys
  import opened Multipart
  import opened Gc
  import opened Assembly
  import opened UploadRuns

  // ---------- numbers that do not belong ----------

  lemma {:induction false} LostIsSmallest(disk: map<nat, Bytes>, ks: seq<nat>)
    requires Increasing(ks)
    ensures var lost := FirstLost(disk, ks);
            lost.Some? ==> lost.value in ks && lost.value !in disk && forall m :: m in ks && m !in disk ==> lost.value <= m
  {
    if ks != [] && ks[0] in disk {
      LostIsSmallest(disk, ks[1..]);
    } else if ks != [] {
      forall m | m in ks
        ensures ks[0] <= m
      {
        var i :| 0 <= i < |ks| && ks[i] == m;
      }
    }
  }

  lemma ConcatFirst(disk: map<nat, Bytes>, numbers: set<nat>, n: nat)
    requires IsSmallest(n, numbers) && forall m :: m in numbers ==> m in disk
    ensures Concat(disk, Ordered(numbers)) == disk[n] + Concat(disk, Ordered(numbers - {n}))
  {
    SmallestFirst(numbers, n);
    assert Ordered(numbers)[1..] == Ordered(numbers - {n});
  }

  ghost predicate Adds(more: Bytes, less: Bytes, extra: Bytes) {
    |more| == |less| + |extra| && (extra == [] ==> more == less)
  }

  lemma AddsBehind(first: Bytes, more: Bytes, less: Bytes, extra: Bytes)
    requires Adds(more, less, extra)
    ensures Adds(first + more, first + less, extra)
  {
  }

  lemma AddsInFront(extra: Bytes, less: Bytes)
    ensures Adds(extra + less, less, extra)
  {
  }

  lemma TakeOut(numbers: set<nat>, m: nat, n: nat)
    requires m !in numbers && m != n
    ensures numbers + {m} - {m} == numbers && numbers + {m} - {n} == (numbers - {n}) + {m}
  {
  }

  /** One more number adds the length of its content, and nothing if that is empty. */
  lemma {:induction false} OneExtra(disk: map<nat, Bytes>, numbers: set<nat>, m: nat)
    requires m !in numbers && m in disk && forall n :: n in numbers ==> n in disk
    ensures Adds(Concat(disk, Ordered(numbers + {m})), Concat(disk, Ordered(numbers)), disk[m])
    decreases |numbers|
  {
    var n := Smallest(numbers + {m});
    ConcatFirst(disk, numbers + {m}, n);
    if n == m {
      TakeOut(numbers, m, m + 1);
      AddsInFront(disk[m], Concat(disk, Ordered(numbers)));
    } else {
      TakeOut(numbers, m, n);
      ConcatFirst(disk, numbers, n);
      OneExtra(disk, numbers - {n}, m);
      AddsBehind(disk[n], Concat(disk, Ordered((numbers - {n}) + {m})), Concat(disk, Ordered(numbers - {n})), disk[m]);
    }
  }

  /** The content grew, and by nothing exactly if `same`. */
  ghost predicate Grows(more: Bytes, less: Bytes, same: bool) {
    |less| <= |more| && (same <==> more == less) && (same <==> |less| == |more|)
  }

  lemma GrowsFurther(more: Bytes, mid: Bytes, less: Bytes, extra: Bytes, same: bool)
    requires Adds(more, mid, extra) && Grows(mid, less, same)
    ensures Grows(more, less, same && extra == [])
  {
  }

  /** These numbers are among the others or have empty content. */
  ghost predicate AddNothing(disk: map<nat, Bytes>, numbers: set<nat>, extra: set<nat>) {
    forall m :: m in extra ==> m in numbers || (m in disk && disk[m] == [])
  }

  lemma AddNothingStep(disk: map<nat, Bytes>, numbers: set<nat>, extra: set<nat>, m: nat)
    requires m in extra && m !in numbers && m in disk
    ensures AddNothing(disk, numbers, extra) <==> AddNothing(disk, numbers, extra - {m}) && disk[m] == []
    ensures numbers + extra == numbers + (extra - {m}) + {m}
  {
  }

  /** Further numbers leave the joined content alone exactly if all of theirs is empty. */
  lemma {:induction false} ExtraContent(disk: map<nat, Bytes>, numbers: set<nat>, extra: set<nat>)
    requires forall n :: n in numbers + extra ==> n in disk
    ensures Grows(Concat(disk, Ordered(numbers + extra)), Concat(disk, Ordered(numbers)), AddNothing(disk, numbers, extra))
    decreases |extra|
  {
    if extra <= numbers {
      assert numbers + extra == numbers;
    } else {
      var m :| m in extra && m !in numbers;
      ExtraContent(disk, numbers, extra - {m});
      AddNothingStep(disk, numbers, extra, m);
      OneExtraGrows(disk, numbers, numbers + (extra - {m}), m, AddNothing(disk, numbers, extra - {m}));
    }
  }

  lemma OneExtraGrows(disk: map<nat, Bytes>, numbers: set<nat>, before: set<nat>, m: nat, same: bool)
    requires m !in before && m in disk && (forall n :: n in before ==> n in disk) && numbers <= before
    requires Grows(Concat(disk, Ordered(before)), Concat(disk, Ordered(numbers)), same)
    ensures Grows(Concat(disk, Ordered(before + {m})), Concat(disk, Ordered(numbers)), same && disk[m] == [])
  {
    OneExtra(disk, before, m);
    GrowsFurther(Concat(disk, Ordered(before + {m})), Concat(disk, Ordered(before)), Concat(disk, Ordered(numbers)), disk[m], same);
  }

  /** A further number that changes nothing about the outcome for these: one of them, or one that
      comes after a part that is missing anyway, or is itself there, and then empty if none is missing. */
  ghost predicate Harmless(numbers: set<nat>, disk: map<nat, Bytes>, m: nat) {
    || m in numbers
    || (numbers != {}
        && match FirstLost(disk, Ordered(numbers))
           case Some(n) => m in disk || n < m
           case None => m in disk && disk[m] == [])
  }

  function LostIn(numbers: set<nat>, disk: map<nat, Bytes>): set<nat> {
    set n | n in numbers && n !in disk
  }

  lemma MissingIsSmallest(numbers: set<nat>, disk: map<nat, Bytes>, n: nat)
    ensures Expected(numbers, disk) == MissingPart(n) <==> IsSmallest(n, LostIn(numbers, disk))
    ensures FirstLost(disk, Ordered(numbers)) == Some(n) <==> IsSmallest(n, LostIn(numbers, disk))
  {
    var lost := FirstLost(disk, Ordered(numbers));
    LostIsSmallest(disk, Ordered(numbers));
    if lost.Some? {
      assert IsSmallest(lost.value, LostIn(numbers, disk));
    }
  }

  lemma SmallestStays(n: nat, a: set<nat>, b: set<nat>)
    requires IsSmallest(n, a)
    ensures IsSmallest(n, a + b) <==> forall m :: m in b ==> n <= m
  {
  }

  lemma LostTogether(a: set<nat>, b: set<nat>, disk: map<nat, Bytes>)
    ensures LostIn(a + b, disk) == LostIn(a, disk) + LostIn(b, disk)
  {
  }

  /** A part that is missing is reported as before exactly if no smaller one joins the missing. */
  lemma MissingExactly(disk: map<nat, Bytes>, numbers: set<nat>, extra: set<nat>, n: nat)
    requires FirstLost(disk, Ordered(numbers)) == Some(n)
    ensures Expected(numbers + extra, disk) == MissingPart(n) <==> forall m :: m in extra ==> m in numbers || m in disk || n < m
  {
    MissingIsSmallest(numbers, disk, n);
    MissingIsSmallest(numbers + extra, disk, n);
    LostTogether(numbers, extra, disk);
    SmallestStays(n, LostIn(numbers, disk), LostIn(extra, disk));
    forall m | m in extra
      ensures m in LostIn(extra, disk) <==> m !in disk
      ensures m in numbers && m !in disk ==> m in LostIn(numbers, disk)
    {
    }
  }

  lemma NoneMissingExactly(disk: map<nat, Bytes>, numbers: set<nat>, extra: set<nat>)
    requires numbers != {} && FirstLost(disk, Ordered(numbers)).None?
    ensures Expected(numbers + extra, disk) == Expected(numbers, disk) <==> AddNothing(disk, numbers, extra)
  {
    if m :| m in extra && m !in disk {
      assert m in Ordered(numbers + extra);
    } else {
      ExtraContent(disk, numbers, extra);
    }
  }

  lemma NothingRecorded(disk: map<nat, Bytes>, numbers: set<nat>, extra: set<nat>)
    requires numbers == {}
    ensures Expected(numbers + extra, disk) == Expected(numbers, disk) <==> AllHarmless(disk, numbers, extra)
  {
    if m :| m in extra {
      assert m in numbers + extra && !Harmless(numbers, disk, m);
    }
  }

  ghost predicate AllHarmless(disk: map<nat, Bytes>, numbers: set<nat>, extra: set<nat>) {
    forall m :: m in extra ==> Harmless(numbers, disk, m)
  }

  lemma HarmlessWithMissing(disk: map<nat, Bytes>, numbers: set<nat>, extra: set<nat>, n: nat)
    requires numbers != {} && FirstLost(disk, Ordered(numbers)) == Some(n)
    ensures AllHarmless(disk, numbers, extra) <==> forall m :: m in extra ==> m in numbers || m in disk || n < m
  {
  }

  lemma HarmlessWithoutMissing(disk: map<nat, Bytes>, numbers: set<nat>, extra: set<nat>)
    requires numbers != {} && FirstLost(disk, Ordered(numbers)).None?
    ensures AllHarmless(disk, numbers, extra) <==> AddNothing(disk, numbers, extra)
  {
  }

  lemma SameOutcomeExactly(disk: map<nat, Bytes>, numbers: set<nat>, extra: set<nat>)
    ensures Expected(numbers + extra, disk) == Expected(numbers, disk) <==> AllHarmless(disk, numbers, extra)
  {
    if numbers == {} {
      NothingRecorded(disk, numbers, extra);
    } else if FirstLost(disk, Ordered(numbers)).Some? {
      var n := FirstLost(disk, Ordered(numbers)).value;
      MissingExactly(disk, numbers, extra, n);
      HarmlessWithMissing(disk, numbers, extra, n);
      assert Expected(numbers, disk) == MissingPart(n);
    } else {
      NoneMissingExactly(disk, numbers, extra);
      HarmlessWithoutMissing(disk, numbers, extra);
    }
  }

  // ---------- when completion gives the history ----------

  /** What completing the upload must give by its own history alone. */
  ghost function History(a: Account): Completion {
    Expected(a.recorded.Keys, a.disk)
  }

  /** For every upload and every decoder: completing gives the upload's own history if and only if
      all uploads nested in it decode as parts, and their numbers and those of their parts happen
      to be harmless. */
  lemma HistoryExactly(d: Decoder, w: World, data: Path, u: UploadMetadata, a: Account)
    requires Faithful(w, data, u, a) && u in w.uploads
    ensures CompletionAt(d, w, data, u) == Some(History(a))
            <==> Readable(d, w.uploads, u)
                 && AllHarmless(a.disk, a.recorded.Keys, StrayNumbers(d, w.uploads, u))
  {
    var stray := StrayNumbers(d, w.uploads, u);
    AssembledIsExpected(w.files, data, u, a.disk, a.recorded.Keys + stray);
    SameOutcomeExactly(a.disk, a.recorded.Keys, stray);
  }

  /** The decoder never takes an upload's metadata for a part. */
  ghost predicate TellsApart(d: Decoder) {
    forall y :: d.uploadAsPart(y).None?
  }

  /** With nothing nested completion gives the history, for every decoder; for one that tells the
      records apart, and for an upload without parts, only then. */
  lemma NestingDecides(d: Decoder, w: World, data: Path, u: UploadMetadata, a: Account)
    requires Faithful(w, data, u, a) && u in w.uploads
    ensures Undisturbed(w.uploads, u) ==> CompletionAt(d, w, data, u) == Some(History(a))
    ensures TellsApart(d) || a.recorded == map[] ==>
              (CompletionAt(d, w, data, u) == Some(History(a)) <==> Undisturbed(w.uploads, u))
  {
    HistoryExactly(d, w, data, u, a);
    if Undisturbed(w.uploads, u) {
      NothingStray(d, w.uploads, u);
    } else {
      var y :| y in w.uploads && Nested(u, y);
      if d.uploadAsPart(y).Some? {
        var m := d.uploadAsPart(y).value.partNumber;
        assert m in StrayNumbers(d, w.uploads, u);
        assert a.recorded == map[] ==> a.recorded.Keys == {};
        assert a.recorded == map[] ==> !Harmless(a.recorded.Keys, a.disk, m);
      }
    }
  }

  function Stranger(u: UploadMetadata, id: string): UploadMetadata {
    UploadMetadata(id, u.bucket, u.key + ":" + u.uploadId + ":part:k")
  }

  /** It can be brought about: after somebody else initiates an upload of this key, completing the
      first gives its history exactly if the decoder reads the newcomer's metadata as a part with
      a harmless number. */
  lemma StrangerSpoilsCompletion(d: Decoder, w: World, data: Path, u: UploadMetadata, a: Account, id: string, made: bool)
    requires Faithful(w, data, u, a) && u in w.uploads && !Hidden(u) && Undisturbed(w.uploads, u)
    requires var op := InitiateOp(Stranger(u, id), made); Legal(d, w, op, data) && Named(op.u)
    ensures var w', y := Do(d, w, InitiateOp(Stranger(u, id), made), data), Stranger(u, id);
            && u in w'.uploads && Faithful(w', data, u, a)
            && (CompletionAt(d, w', data, u) == Some(History(a))
                <==> d.uploadAsPart(y).Some? && Harmless(a.recorded.Keys, a.disk, d.uploadAsPart(y).value.partNumber))
  {
    var op := InitiateOp(Stranger(u, id), made);
    StepKeepsAccount(d, w, op, data, u, a);
    NestedIsAnother(u, op.u);
    StrangerIsStray(d, w.uploads, u, id);
    HistoryExactly(d, Do(d, w, op, data), data, u, a);
  }

  lemma NestedIsAnother(u: UploadMetadata, y: UploadMetadata)
    ensures Nested(u, y) ==> u != y
  {
    if Nested(u, y) {
      NestedIsHidden(u, y);
    }
  }

  lemma StrangerIsStray(d: Decoder, view: map<UploadMetadata, Parts>, u: UploadMetadata, id: string)
    requires Undisturbed(view, u)
    ensures Nested(u, Stranger(u, id))
    ensures var y := Stranger(u, id); var view' := view[y := map[]];
            && (Readable(d, view', u) <==> d.uploadAsPart(y).Some?)
            && (d.uploadAsPart(y).Some? ==> StrayNumbers(d, view', u) == {d.uploadAsPart(y).value.partNumber})
  {
    HiddenUploadsMayClash(u, id);
    var y := Stranger(u, id);
    var view' := view[y := map[]];
    assert y in view' && Nested(u, y);
    assert forall x :: x in view' && Nested(u, x) ==> x == y;
  }

  // ---------- uploads that listings hide ----------

  predicate Fails(c: Option<Completion>) {
    c.None? || !c.value.Completed?
  }

  ghost predicate AllPartsThere(w: World, data: Path, u: UploadMetadata)
    requires u in w.uploads
  {
    forall n :: n in w.uploads[u] ==> PartPath(data, u.uploadId, n) in w.files
  }

  lemma CompleteWithAllParts(d: Decoder, w: World, data: Path, u: UploadMetadata)
    requires u in w.uploads && w.uploads[u] != map[] && Undisturbed(w.uploads, u) && AllPartsThere(w, data, u)
    ensures !Fails(CompletionAt(d, w, data, u))
  {
    NothingStray(d, w.uploads, u);
    var n :| n in w.uploads[u];
    assert w.uploads[u].Keys + {} == w.uploads[u].Keys && n in w.uploads[u].Keys;
  }

  lemma OneMissingFails(d: Decoder, w: World, data: Path, u: UploadMetadata, n: nat)
    requires u in w.uploads && n in w.uploads[u] && PartPath(data, u.uploadId, n) !in w.files
    ensures Fails(CompletionAt(d, w, data, u))
  {
    var numbers := w.uploads[u].Keys + StrayNumbers(d, w.uploads, u);
    assert n in numbers && n in Ordered(numbers);
    assert FirstMissing(w.files, data, u.uploadId, Ordered(numbers)).Some?;
  }

  lemma HiddenPartGoes(d: Decoder, w: World, data: Path, u: UploadMetadata, n: nat, now: nat, maxAge: nat)
    requires Sound(w, data) && u in w.uploads && Hidden(u) && ListingWorks(d, w.uploads)
    requires PartPath(data, u.uploadId, n) in w.files && !YoungFile(w.files[PartPath(data, u.uploadId, n)], now, maxAge)
    ensures PartPath(data, u.uploadId, n) !in Do(d, w, GcOp(now, maxAge, {}, true), data).files
  {
    PartFileSpared(w.uploads, w.files, data, u, n, now, maxAge);
  }

  /** An upload the listing hides loses its old part files to a cycle, and with them its
      completion, exactly if the cycle gets to sweep. */
  lemma HiddenUploadLosesParts(d: Decoder, w: World, data: Path, u: UploadMetadata, now: nat, maxAge: nat, scans: bool)
    requires Sound(w, data) && u in w.uploads && w.uploads[u] != map[] && Hidden(u) && Undisturbed(w.uploads, u)
    requires forall n :: n in w.uploads[u] ==>
               PartPath(data, u.uploadId, n) in w.files && !YoungFile(w.files[PartPath(data, u.uploadId, n)], now, maxAge)
    ensures Fails(CompletionAt(d, Do(d, w, GcOp(now, maxAge, {}, scans), data), data, u)) <==> scans && ListingWorks(d, w.uploads)
  {
    var w' := Do(d, w, GcOp(now, maxAge, {}, scans), data);
    if scans && ListingWorks(d, w.uploads) {
      var n :| n in w.uploads[u];
      HiddenPartGoes(d, w, data, u, n, now, maxAge);
      assert w'.uploads == w.uploads;
      OneMissingFails(d, w', data, u, n);
    } else {
      assert w' == w;
      CompleteWithAllParts(d, w, data, u);
    }
  }

  // ---------- completions that failed ----------

  /** Neither the upload nor one it is nested in is removed. */
  ghost predicate NeverRemoved(run: seq<Op>, u: UploadMetadata) {
    forall i :: 0 <= i < |run| && run[i].RemoveOp? ==> run[i].u != u && !Nested(run[i].u, u)
  }

  lemma NeverRemovedTail(run: seq<Op>, u: UploadMetadata)
    requires NeverRemoved(run, u) && run != []
    ensures NeverRemoved(run[1..], u) && (run[0].RemoveOp? ==> run[0].u != u && !Nested(run[0].u, u))
  {
    assert forall i :: 0 <= i < |run[1..]| ==> run[1..][i] == run[i + 1];
  }

  /** An upload without its directory: these are its records. */
  ghost predicate Stuck(w: World, data: Path, u: UploadMetadata, parts: Parts) {
    Sound(w, data) && u in w.uploads && w.uploads[u] == parts && u.uploadId !in w.dirs
  }

  lemma StaysStuck(d: Decoder, w: World, op: Op, data: Path, u: UploadMetadata, parts: Parts)
    requires Stuck(w, data, u, parts) && Legal(d, w, op, data) && (op.RemoveOp? ==> op.u != u && !Nested(op.u, u))
    ensures Stuck(Do(d, w, op, data), data, u, parts)
  {
    StepKeepsSound(d, w, op, data);
  }

  lemma StuckNow(d: Decoder, w: World, data: Path, u: UploadMetadata, parts: Parts)
    requires Stuck(w, data, u, parts)
    ensures forall n, content, end, now :: Do(d, w, PartOp(u, n, content, end, now), data) == w
    ensures parts != map[] ==> Fails(CompletionAt(d, w, data, u))
  {
    if n :| n in parts {
      OneMissingFails(d, w, data, u, n);
    }
  }

  /** Without its directory an upload is stuck, whatever anybody does until it is removed: no
      part of it can be stored, its records stay as they are and it can never be completed. */
  lemma {:induction false} StuckWithoutDirectory(d: Decoder, w: World, run: seq<Op>, data: Path, u: UploadMetadata, parts: Parts)
    requires Stuck(w, data, u, parts) && LegalRun(d, w, run, data) && NeverRemoved(run, u)
    ensures var w' := After(d, w, run, data);
            && Stuck(w', data, u, parts)
            && (forall n, content, end, now :: Do(d, w', PartOp(u, n, content, end, now), data) == w')
            && (parts != map[] ==> Fails(CompletionAt(d, w', data, u)))
    decreases |run|
  {
    if run == [] {
      StuckNow(d, w, data, u, parts);
    } else {
      NeverRemovedTail(run, u);
      StaysStuck(d, w, run[0], data, u, parts);
      StuckWithoutDirectory(d, Do(d, w, run[0], data), run[1..], data, u, parts);
    }
  }

  lemma {:induction false} HasDeepest(uploads: set<UploadMetadata>) returns (y: UploadMetadata)
    requires uploads != {}
    ensures y in uploads && forall z :: z in uploads ==> |DbKey(z)| <= |DbKey(y)|
  {
    y :| y in uploads;
    var rest := uploads - {y};
    assert uploads == rest + {y};
    if rest != {} {
      var z := HasDeepest(rest);
      y := if |DbKey(y)| < |DbKey(z)| then z else y;
    }
  }

  ghost function Strangers(view: map<UploadMetadata, Parts>, u: UploadMetadata): set<UploadMetadata> {
    set y | y in view && Nested(u, y)
  }

  lemma NestedDeeper(u: UploadMetadata, y: UploadMetadata, z: UploadMetadata)
    requires Nested(u, y) && Nested(y, z)
    ensures Nested(u, z)
  {
    assert DbKey(y) <= DbKey(z);
    assert PartPrefix(u) == DbKey(y)[..|PartPrefix(u)|] == DbKey(z)[..|PartPrefix(u)|];
  }

  lemma DeepestIsUndisturbed(view: map<UploadMetadata, Parts>, u: UploadMetadata, y: UploadMetadata)
    requires y in Strangers(view, u) && forall z :: z in Strangers(view, u) ==> |DbKey(z)| <= |DbKey(y)|
    ensures Undisturbed(view, y) && Without(view, y) == view - {y}
  {
    forall z | z in view
      ensures !Nested(y, z)
    {
      if Nested(y, z) {
        NestedIsHidden(y, z);
        NestedDeeper(u, y, z);
      }
    }
  }

  /** Whoever aborts the uploads nested in another, deepest first, frees it of them. */
  lemma {:induction false} StrangersCanBeRemoved(d: Decoder, w: World, data: Path, u: UploadMetadata) returns (run: seq<Op>)
    requires u in w.uploads
    ensures LegalRun(d, w, run, data) && NeverRemoved(run, u)
    ensures var w' := After(d, w, run, data);
            && u in w'.uploads && w'.uploads[u] == w.uploads[u] && Undisturbed(w'.uploads, u)
            && w'.files == w.files && w'.dirs == w.dirs
    decreases |Strangers(w.uploads, u)|
  {
    var strangers := Strangers(w.uploads, u);
    if strangers == {} {
      run := [];
      assert forall y :: y in w.uploads && Nested(u, y) ==> y in strangers;
    } else {
      var y := HasDeepest(strangers);
      DeepestIsUndisturbed(w.uploads, u, y);
      NothingStray(d, w.uploads, y);
      NestedIsHidden(u, y);
      var op := RemoveOp(y, {}, false);
      PlainRemoval(d, w, data, u, y);
      var rest := StrangersCanBeRemoved(d, World(w.uploads - {y}, w.files, w.dirs), data, u);
      run := [op] + rest;
      assert run[0] == op && run[1..] == rest;
      assert forall i :: 0 < i < |run| ==> run[i] == rest[i - 1];
    }
  }

  lemma PlainRemoval(d: Decoder, w: World, data: Path, u: UploadMetadata, y: UploadMetadata)
    requires u in w.uploads && y in w.uploads && Nested(u, y) && Without(w.uploads, y) == w.uploads - {y}
    ensures Do(d, w, RemoveOp(y, {}, false), data) == World(w.uploads - {y}, w.files, w.dirs)
    ensures Strangers(w.uploads - {y}, u) == Strangers(w.uploads, u) - {y}
    ensures y != u && !Nested(y, u)
  {
    NestedIsHidden(u, y);
    if Nested(y, u) {
      NestedIsHidden(y, u);
    }
    assert w.files - {} == w.files;
  }

  /** Sending every recorded part again. */
  function Resend(u: UploadMetadata, ks: seq<nat>, now: nat): (run: seq<Op>)
    ensures |run| == |ks| && NeverRemoved(run, u)
  {
    if ks == [] then [] else [PartOp(u, ks[0], [], Stored, now)] + Resend(u, ks[1..], now)
  }

  lemma {:induction false} ResendRepairs(d: Decoder, w: World, data: Path, u: UploadMetadata, ks: seq<nat>, now: nat)
    requires u in w.uploads && u.uploadId in w.dirs && Undisturbed(w.uploads, u)
    requires forall n :: n in ks ==> ValidPartNumber(n) && n in w.uploads[u]
    ensures LegalRun(d, w, Resend(u, ks, now), data)
    ensures var w' := After(d, w, Resend(u, ks, now), data);
            && u in w'.uploads && w'.uploads[u].Keys == w.uploads[u].Keys && Undisturbed(w'.uploads, u)
            && (forall p :: p in w.files ==> p in w'.files)
            && (forall n :: n in ks ==> PartPath(data, u.uploadId, n) in w'.files)
    decreases |ks|
  {
    if ks != [] {
      var op := PartOp(u, ks[0], [], Stored, now);
      assert ks[0] in ks;
      NothingStray(d, w.uploads, u);
      var w1 := Do(d, w, op, data);
      assert w1.uploads.Keys == w.uploads.Keys && w1.uploads[u].Keys == w.uploads[u].Keys;
      ResendRepairs(d, w1, data, u, ks[1..], now);
      var run := Resend(u, ks, now);
      assert run[0] == op && run[1..] == Resend(u, ks[1..], now);
    }
  }

  lemma {:induction false} Chain(d: Decoder, w: World, first: seq<Op>, second: seq<Op>, data: Path, u: UploadMetadata)
    requires LegalRun(d, w, first, data) && LegalRun(d, After(d, w, first, data), second, data)
    requires NeverRemoved(first, u) && NeverRemoved(second, u)
    ensures LegalRun(d, w, first + second, data) && NeverRemoved(first + second, u)
    ensures After(d, w, first + second, data) == After(d, After(d, w, first, data), second, data)
    decreases |first|
  {
    if first == [] {
      assert first + second == second;
    } else {
      assert (first + second)[0] == first[0] && (first + second)[1..] == first[1..] + second;
      NeverRemovedTail(first, u);
      Chain(d, Do(d, w, first[0], data), first[1..], second, data, u);
    }
  }

  /** If the run is possible and keeps the upload, completing it afterwards fails. */
  ghost predicate Hopeless(d: Decoder, w: World, run: seq<Op>, data: Path, u: UploadMetadata) {
    LegalRun(d, w, run, data) && NeverRemoved(run, u) ==>
      u in After(d, w, run, data).uploads && Fails(CompletionAt(d, After(d, w, run, data), data, u))
  }

  /** With its directory an upload can always be brought to completion. */
  lemma DirectoryIsEnough(d: Decoder, w: World, data: Path, u: UploadMetadata) returns (run: seq<Op>)
    requires Sound(w, data) && u in w.uploads && w.uploads[u] != map[] && u.uploadId in w.dirs
    ensures !Hopeless(d, w, run, data, u)
  {
    var clear := StrangersCanBeRemoved(d, w, data, u);
    var w1 := After(d, w, clear, data);
    var ks := Ordered(w.uploads[u].Keys);
    ResendRepairs(d, w1, data, u, ks, 0);
    Chain(d, w, clear, Resend(u, ks, 0), data, u);
    run := clear + Resend(u, ks, 0);
    var w2 := After(d, w, run, data);
    assert w2.uploads[u] != map[] by {
      var n :| n in w.uploads[u];
      assert n in w2.uploads[u];
    }
    CompleteWithAllParts(d, w2, data, u);
  }

  /** A failed completion sweeps the part directory but keeps the upload.  From then on, until
      the upload is removed, every completion fails, whatever anybody does, if and only if the
      sweep got as far as removing the directory. */
  lemma FailedCompletionExactly(d: Decoder, w: World, data: Path, u: UploadMetadata, swept: set<Path>, dirGone: bool)
    requires Sound(w, data) && u in w.uploads && w.uploads[u] != map[] && u.uploadId in w.dirs
    requires Legal(d, w, FailedCompletionOp(u, swept, dirGone), data)
    ensures (forall run :: Hopeless(d, Do(d, w, FailedCompletionOp(u, swept, dirGone), data), run, data, u)) <==> dirGone
  {
    var op := FailedCompletionOp(u, swept, dirGone);
    var w' := Do(d, w, op, data);
    StepKeepsSound(d, w, op, data);
    if dirGone {
      forall run
        ensures Hopeless(d, w', run, data, u)
      {
        if LegalRun(d, w', run, data) && NeverRemoved(run, u) {
          StuckWithoutDirectory(d, w', run, data, u, w.uploads[u]);
        }
      }
    } else {
      var run := DirectoryIsEnough(d, w', data, u);
    }
  }
}
