/** Object listing: the prefix scan over `obj:` keys, and the pages the list handler cuts
    out of it. */
module Listing {
  import opened Text
  import opened MetadataDb

  // ---------- the prefix scan ----------

  /** Every object record is filed under its own bucket and key, and buckets are slash-free. */
  ghost predicate Filed(db: Db) {
    forall k :: k in db && OBJECT_PREFIX <= k ==> FiledAt(k, db[k])
  }

  ghost predicate FiledAt(k: string, v: Value) {
    v.ObjectValue? && '/' !in v.metadata.bucket && k == DbKey(v.metadata.bucket, v.metadata.key)
  }

  function DbKey(bucket: string, key: string): string {
    OBJECT_PREFIX + FullKey(bucket, key)
  }

  function KeyPrefix(bucket: string, prefix: Option<string>): string {
    DbKey(bucket, if prefix.Some? then prefix.value else "")
  }

  ghost predicate Stored(db: Db, m: ObjectMetadata) {
    var k := DbKey(m.bucket, m.key);
    k in db && db[k] == ObjectValue(m)
  }

  function KeysOf(objects: seq<ObjectMetadata>): (keys: seq<string>)
    ensures |keys| == |objects| && forall i {:trigger keys[i]} :: 0 <= i < |keys| ==> keys[i] == objects[i].key
  {
    seq(|objects|, i requires 0 <= i < |objects| => objects[i].key)
  }

  /** Filing is kept by every command that names a slash-free bucket, which the handlers check. */
  lemma CommandKeepsFiling(db: Db, cmd: Command, now: nat)
    requires WellTyped(db) && Filed(db)
    requires cmd.PutObjectMetadata? ==> '/' !in cmd.metadata.bucket
    ensures Filed(ApplyDb(db, cmd, now).0)
  {
    var db' := ApplyDb(db, cmd, now).0;
    forall k | k in db' && OBJECT_PREFIX <= k
      ensures FiledAt(k, db'[k])
    {
      if !cmd.PutObjectMetadata? || k != DbKey(cmd.metadata.bucket, cmd.metadata.key) {
        OtherKeysStand(db, cmd, now, k);
      }
    }
  }

  /** The table after a log of commands on an initial table. */
  ghost function DbAfter(db: Db, log: seq<Command>, clock: nat -> nat): (db': Db)
    requires WellTyped(db)
    ensures WellTyped(db')
  {
    if log == [] then db
    else
      var before := DbAfter(db, log[..|log| - 1], clock);
      ApplyRefines(before, log[|log| - 1], clock(|log| - 1));
      ApplyDb(before, log[|log| - 1], clock(|log| - 1)).0
  }

  /** After every log of commands that name slash-free buckets, from an empty table, object
      records are filed under their own bucket and key, so every listing is exact. */
  lemma {:induction false} LogKeepsFiling(log: seq<Command>, clock: nat -> nat)
    requires forall i :: 0 <= i < |log| && log[i].PutObjectMetadata? ==> '/' !in log[i].metadata.bucket
    ensures Filed(DbAfter(map[], log, clock))
  {
    if log != [] {
      var n := |log| - 1;
      LogKeepsFiling(log[..n], clock);
      CommandKeepsFiling(DbAfter(map[], log[..n], clock), log[n], clock(n));
    }
  }

  lemma OtherKeysStand(db: Db, cmd: Command, now: nat, k: string)
    requires WellTyped(db) && OBJECT_PREFIX <= k && k in ApplyDb(db, cmd, now).0
    requires cmd.PutObjectMetadata? ==> k != DbKey(cmd.metadata.bucket, cmd.metadata.key)
    ensures k in db && db[k] == ApplyDb(db, cmd, now).0[k]
  {
    assert k[0] == 'o';
    match cmd
    case CreateBucket(bucket) => assert (BUCKET_PREFIX + bucket.name)[0] == 'b';
    case AcquireLock(bucket, key, lockType, holder) => assert (LOCK_PREFIX + FullKey(bucket, key))[0] == 'l';
    case ReleaseLock(bucket, key, holder) => assert (LOCK_PREFIX + FullKey(bucket, key))[0] == 'l';
    case _ =>
  }

  method ListObjects(db: Db, bucket: string, prefix: Option<string>) returns (objects: seq<ObjectMetadata>)
    requires Filed(db) && '/' !in bucket
    ensures Ascending(KeysOf(objects))
    ensures forall m :: m in objects <==>
              Stored(db, m) && m.bucket == bucket && (prefix.Some? ==> prefix.value <= m.key)
  {
    var keyPrefix := KeyPrefix(bucket, prefix);
    var found := ScanPrefix(db.Keys, keyPrefix);
    objects := [];
    var i := 0;
    while i < |found|
      invariant 0 <= i <= |found| && |objects| == i
      invariant forall j :: 0 <= j < i ==> found[j] in db && db[found[j]] == ObjectValue(objects[j])
    {
      FoundIsObject(db, keyPrefix, found, i);
      objects := objects + [db[found[i]].metadata];
      i := i + 1;
    }
    ScanIsExact(db, bucket, prefix, found, objects);
  }

  lemma FoundIsObject(db: Db, keyPrefix: string, found: seq<string>, i: nat)
    requires Filed(db) && OBJECT_PREFIX <= keyPrefix && i < |found|
    requires forall k :: k in found <==> k in db && keyPrefix <= k
    ensures found[i] in db && db[found[i]].ObjectValue?
  {
    assert found[i] in found;
    UnderPrefix(found[i], keyPrefix);
  }

  lemma UnderPrefix(k: string, keyPrefix: string)
    requires OBJECT_PREFIX <= keyPrefix <= k
    ensures OBJECT_PREFIX <= k
  {
  }

  /** A stored object's database key carries the listing prefix exactly when the object is
      in that bucket and its key carries the requested prefix. */
  lemma PrefixMeansBucket(bucket: string, p: string, m: ObjectMetadata)
    requires '/' !in bucket && '/' !in m.bucket
    ensures DbKey(bucket, p) <= DbKey(m.bucket, m.key) <==> m.bucket == bucket && p <= m.key
  {
    if m.bucket == bucket && p <= m.key {
      assert m.key == p + m.key[|p|..];
      assert DbKey(m.bucket, m.key) == DbKey(bucket, p) + m.key[|p|..];
    }
    if DbKey(bucket, p) <= DbKey(m.bucket, m.key) {
      var rest := DbKey(m.bucket, m.key)[|DbKey(bucket, p)|..];
      assert DbKey(m.bucket, m.key) == DbKey(bucket, p) + rest;
      DropObjectPrefix(FullKey(m.bucket, m.key), FullKey(bucket, p) + rest);
      assert FullKey(bucket, p) + rest == FullKey(bucket, p + rest);
      FullKeyIsInjective(m.bucket, m.key, bucket, p + rest);
    }
  }

  lemma DropObjectPrefix(a: string, b: string)
    requires OBJECT_PREFIX + a == OBJECT_PREFIX + b
    ensures a == b
  {
    assert a == (OBJECT_PREFIX + a)[4..] && b == (OBJECT_PREFIX + b)[4..];
  }

  lemma ScanIsExact(db: Db, bucket: string, prefix: Option<string>, found: seq<string>, objects: seq<ObjectMetadata>)
    requires Filed(db) && '/' !in bucket && Ascending(found) && |objects| == |found|
    requires forall k :: k in found <==> k in db && KeyPrefix(bucket, prefix) <= k
    requires forall j :: 0 <= j < |found| ==> found[j] in db && db[found[j]] == ObjectValue(objects[j])
    ensures Ascending(KeysOf(objects))
    ensures forall m :: m in objects <==>
              Stored(db, m) && m.bucket == bucket && (prefix.Some? ==> prefix.value <= m.key)
  {
    var p := if prefix.Some? then prefix.value else "";
    forall j | 0 <= j < |found|
      ensures objects[j].bucket == bucket && p <= objects[j].key && Stored(db, objects[j])
      ensures found[j] == DbKey(bucket, objects[j].key)
    {
      assert found[j] in found;
      UnderPrefix(found[j], KeyPrefix(bucket, prefix));
      PrefixMeansBucket(bucket, p, objects[j]);
    }
    forall i, j | 0 <= i < j < |objects|
      ensures Less(objects[i].key, objects[j].key)
    {
      LessUnderKey(bucket, objects[i].key, objects[j].key);
      assert Less(found[i], found[j]);
    }
    forall m | Stored(db, m) && m.bucket == bucket && p <= m.key
      ensures m in objects
    {
      PrefixMeansBucket(bucket, p, m);
      var k := DbKey(m.bucket, m.key);
      assert k in found;
      var j :| 0 <= j < |found| && found[j] == k;
      assert objects[j] == m;
    }
  }

  lemma LessUnderKey(bucket: string, a: string, b: string)
    ensures Less(DbKey(bucket, a), DbKey(bucket, b)) <==> Less(a, b)
  {
    var p := OBJECT_PREFIX + (bucket + "/");
    assert DbKey(bucket, a) == p + a && DbKey(bucket, b) == p + b;
    LessUnderPrefix(p, a, b);
  }

  // ---------- pages ----------

  const PAGE_LIMIT := 1000

  datatype Query = Query(marker: Option<string>, maxKeys: Option<nat>, v2: bool, continuationToken: Option<string>)
  {
    /** The key after which the page starts. */
    function After(): Option<string> {
      if v2 then continuationToken else marker
    }

    function Limit(): nat {
      var asked := if maxKeys.Some? then maxKeys.value else PAGE_LIMIT;
      if asked < PAGE_LIMIT then asked else PAGE_LIMIT
    }
  }

  datatype Page = Page(contents: seq<ObjectMetadata>, isTruncated: bool, nextToken: Option<string>)

  function Beyond(objects: seq<ObjectMetadata>, after: Option<string>): seq<ObjectMetadata> {
    if after.None? then objects
    else if objects == [] then []
    else
      var last := objects[|objects| - 1];
      Beyond(objects[..|objects| - 1], after) + if Less(after.value, last.key) then [last] else []
  }

  function PageOf(objects: seq<ObjectMetadata>, query: Query): Page {
    var rest := Beyond(objects, query.After());
    var n := query.Limit();
    if |rest| <= n then Page(rest, false, None)
    else Page(rest[..n], true, if query.v2 && 0 < n then Some(rest[n - 1].key) else None)
  }

  /** The handler: retain what lies beyond the marker or token, note whether more is left
      than fits, truncate, and name the last key as the next token. */
  method ListPage(objects: seq<ObjectMetadata>, query: Query) returns (page: Page)
    ensures page == PageOf(objects, query)
  {
    var kept := objects;
    var after := if query.v2 then query.continuationToken else query.marker;
    if after.Some? {
      kept := Retain(objects, after.value);
    }
    var maxKeys := if query.maxKeys.Some? then query.maxKeys.value else PAGE_LIMIT;
    if maxKeys > PAGE_LIMIT {
      maxKeys := PAGE_LIMIT;
    }
    var isTruncated := |kept| > maxKeys;
    if isTruncated {
      kept := kept[..maxKeys];
    }
    var token := None;
    if query.v2 && isTruncated && kept != [] {
      token := Some(kept[|kept| - 1].key);
    }
    page := Page(kept, isTruncated, token);
  }

  method Retain(objects: seq<ObjectMetadata>, token: string) returns (kept: seq<ObjectMetadata>)
    ensures kept == Beyond(objects, Some(token))
  {
    kept := [];
    var i := 0;
    while i < |objects|
      invariant 0 <= i <= |objects|
      invariant kept == Beyond(objects[..i], Some(token))
    {
      if Less(token, objects[i].key) {
        kept := kept + [objects[i]];
      }
      assert objects[..i + 1][..i] == objects[..i];
      i := i + 1;
    }
    assert objects[..i] == objects;
  }

  // ---------- following the tokens ----------

  /** The pages a client sees that starts with `query` and follows each next token; the
      i-th request is answered from `views[i]`. */
  function Follow(views: seq<seq<ObjectMetadata>>, query: Query): (pages: seq<Page>)
    ensures |pages| <= |views|
  {
    if views == [] then []
    else
      var page := PageOf(views[0], query);
      if page.nextToken.None? then [page]
      else [page] + Follow(views[1..], query.(continuationToken := page.nextToken))
  }

  function Contents(pages: seq<Page>): seq<ObjectMetadata> {
    if pages == [] then [] else pages[0].contents + Contents(pages[1..])
  }

  ghost predicate Exceeds(key: string, after: Option<string>) {
    after.Some? ==> Less(after.value, key)
  }

  /** The retained objects of an ascending listing are one suffix of it. */
  lemma {:induction false} BeyondIsSuffix(objects: seq<ObjectMetadata>, after: Option<string>) returns (n: nat)
    requires Ascending(KeysOf(objects))
    ensures n <= |objects| && Beyond(objects, after) == objects[n..]
    ensures forall i :: 0 <= i < |objects| ==> (n <= i <==> Exceeds(objects[i].key, after))
  {
    if after.None? || objects == [] {
      n := 0;
    } else {
      var end := |objects| - 1;
      InitAscending(objects);
      var k := BeyondIsSuffix(objects[..end], after);
      assert k < end ==> objects[..end][k] == objects[k];
      LastFollows(objects, after.value, k);
      var keep := Less(after.value, objects[end].key);
      n := if keep then k else end + 1;
      AppendLast(objects, after, k);
      forall i | 0 <= i < |objects|
        ensures n <= i <==> Exceeds(objects[i].key, after)
      {
        if i < end {
          assert objects[i] == objects[..end][i];
        }
      }
    }
  }

  lemma InitAscending(objects: seq<ObjectMetadata>)
    requires Ascending(KeysOf(objects)) && objects != []
    ensures Ascending(KeysOf(objects[..|objects| - 1]))
  {
    var end := |objects| - 1;
    assert KeysOf(objects)[..end] == KeysOf(objects[..end]);
  }

  /** Once a key lies beyond the marker, the last key does. */
  lemma LastFollows(objects: seq<ObjectMetadata>, after: string, k: nat)
    requires Ascending(KeysOf(objects)) && k < |objects|
    requires k < |objects| - 1 ==> Less(after, objects[k].key)
    ensures k < |objects| - 1 ==> Less(after, objects[|objects| - 1].key)
  {
    var end := |objects| - 1;
    if k < end {
      var keys := KeysOf(objects);
      assert Less(keys[k], keys[end]);
      LessTransitive(after, keys[k], keys[end]);
    }
  }

  lemma AppendLast(objects: seq<ObjectMetadata>, after: Option<string>, k: nat)
    requires objects != [] && after.Some? && k < |objects|
    requires Beyond(objects[..|objects| - 1], after) == objects[..|objects| - 1][k..]
    requires k < |objects| - 1 ==> Less(after.value, objects[|objects| - 1].key)
    ensures Beyond(objects, after) == if Less(after.value, objects[|objects| - 1].key) then objects[k..] else []
  {
    var end := |objects| - 1;
    TailGrows(objects, end, k);
    BeyondStep(objects, after, Less(after.value, objects[end].key));
  }

  lemma BeyondStep(objects: seq<ObjectMetadata>, after: Option<string>, keep: bool)
    requires objects != [] && after.Some? && (keep <==> Less(after.value, objects[|objects| - 1].key))
    ensures Beyond(objects, after)
            == Beyond(objects[..|objects| - 1], after) + if keep then [objects[|objects| - 1]] else []
  {
  }

  lemma TailGrows<T>(xs: seq<T>, end: nat, k: nat)
    requires end + 1 == |xs| && k <= end
    ensures xs[k..] == xs[..end][k..] + [xs[end]]
    ensures xs[..end][end..] + [] == []
  {
  }

  /** What one page holds of an ascending listing: the objects beyond the token, in order,
      and all of them unless the page says it is truncated. */
  lemma PageIsAStretch(objects: seq<ObjectMetadata>, query: Query) returns (n: nat)
    requires Ascending(KeysOf(objects))
    ensures var page := PageOf(objects, query);
            && n <= |objects| && |page.contents| <= query.Limit()
            && page.contents <= objects[n..] == Beyond(objects, query.After())
            && (forall i :: 0 <= i < |objects| ==> (n <= i <==> Exceeds(objects[i].key, query.After())))
            && (page.isTruncated <==> page.contents != objects[n..])
            && (page.isTruncated ==> |page.contents| == query.Limit())
            && (page.nextToken.Some? <==> page.isTruncated && query.v2 && 0 < query.Limit())
            && (page.nextToken.Some? ==>
                  page.contents != [] && page.nextToken.value == page.contents[|page.contents| - 1].key)
  {
    n := BeyondIsSuffix(objects, query.After());
  }

  /** The key lies beyond what the client has seen: the continuation token of a version 2 request,
      the marker of a version 1 request. */
  predicate Wanted(query: Query, key: string) {
    if query.v2 then query.continuationToken.None? || Less(query.continuationToken.value, key)
    else query.marker.None? || Less(query.marker.value, key)
  }

  /** What a page holds, by the request alone: the first objects beyond the token or the marker, at
      most 1000 and at most as many as asked for, cut short only by these limits; only version 2
      pages carry a token. */
  lemma PageByRequest(objects: seq<ObjectMetadata>, query: Query) returns (n: nat)
    requires Ascending(KeysOf(objects))
    ensures var page := PageOf(objects, query);
            && n <= |objects| && page.contents <= objects[n..]
            && (forall i :: 0 <= i < |objects| ==> (n <= i <==> Wanted(query, objects[i].key)))
            && |page.contents| <= 1000 && (query.maxKeys.Some? ==> |page.contents| <= query.maxKeys.value)
            && (page.isTruncated <==> page.contents != objects[n..])
            && (page.isTruncated ==>
                  |page.contents| == 1000 || (query.maxKeys.Some? && |page.contents| == query.maxKeys.value))
            && (page.nextToken.Some? <==> query.v2 && page.isTruncated && page.contents != [])
            && (page.nextToken.Some? ==> page.nextToken.value == page.contents[|page.contents| - 1].key)
  {
    n := PageIsAStretch(objects, query);
  }

  /** Asking on from the last key of a page gives exactly what the page left out. */
  lemma NextPageContinues(objects: seq<ObjectMetadata>, query: Query, n: nat)
    requires Ascending(KeysOf(objects)) && query.v2 && n <= |objects|
    requires Beyond(objects, query.After()) == objects[n..] && PageOf(objects, query).nextToken.Some?
    ensures var page := PageOf(objects, query);
            Beyond(objects, page.nextToken) == objects[n + |page.contents|..]
  {
    var page := PageOf(objects, query);
    var last := n + |page.contents| - 1;
    var keys := KeysOf(objects);
    assert objects[n..][last - n] == objects[last];
    assert page.nextToken == Some(keys[last]);
    var m := BeyondIsSuffix(objects, page.nextToken);
    LessIrreflexive(keys[last]);
    assert m > last;
    if last + 1 < |objects| {
      assert Less(keys[last], keys[last + 1]);
    }
  }

  ghost predicate Unchanged(views: seq<seq<ObjectMetadata>>, objects: seq<ObjectMetadata>) {
    forall i :: 0 <= i < |views| ==> views[i] == objects
  }

  lemma UnchangedTail(views: seq<seq<ObjectMetadata>>, objects: seq<ObjectMetadata>)
    requires Unchanged(views, objects) && views != []
    ensures Unchanged(views[1..], objects) && views[0] == objects
  {
  }

  /** Following the tokens of an unchanged listing ended properly: only full, truncated pages
      before the last, and a last page without a token, which claims that more is left only if
      pages hold nothing. */
  ghost predicate EndsProperly(pages: seq<Page>, limit: nat) {
    && pages != []
    && (forall i :: 0 <= i < |pages| - 1 ==> pages[i].isTruncated && |pages[i].contents| == limit)
    && pages[|pages| - 1].nextToken.None? && (pages[|pages| - 1].isTruncated ==> limit == 0)
  }

  /** Pagination of an unchanged bucket: following the tokens ends, every page but the last
      is full and marked truncated, and the pages joined are the whole remaining listing
      exactly when at least one key may go on a page or nothing is left to list. */
  lemma PagesCoverListing(objects: seq<ObjectMetadata>, views: seq<seq<ObjectMetadata>>, query: Query)
    requires Ascending(KeysOf(objects)) && query.v2
    requires Unchanged(views, objects)
    requires |views| > |Beyond(objects, query.After())|
    ensures EndsProperly(Follow(views, query), query.Limit())
    ensures Contents(Follow(views, query)) == Beyond(objects, query.After())
            <==> 1 <= query.Limit() || Beyond(objects, query.After()) == []
  {
    var n := PageIsAStretch(objects, query);
    if 1 <= query.Limit() {
      PagesJoin(objects, views, query, n);
    } else {
      NothingFits(objects, views, query, n);
    }
  }

  lemma NothingFits(objects: seq<ObjectMetadata>, views: seq<seq<ObjectMetadata>>, query: Query, n: nat)
    requires query.Limit() == 0 && views != [] && views[0] == objects
    requires n <= |objects| && Beyond(objects, query.After()) == objects[n..]
    ensures EndsProperly(Follow(views, query), 0) && Contents(Follow(views, query)) == []
  {
    var page := PageOf(objects, query);
    assert Follow(views, query) == [page];
    assert Contents([page]) == page.contents + Contents([]) == page.contents;
  }

  lemma {:induction false} PagesJoin(objects: seq<ObjectMetadata>, views: seq<seq<ObjectMetadata>>, query: Query, n: nat)
    requires Ascending(KeysOf(objects)) && query.v2 && 1 <= query.Limit()
    requires Unchanged(views, objects)
    requires n <= |objects| && Beyond(objects, query.After()) == objects[n..] && |views| > |objects| - n
    ensures EndsProperly(Follow(views, query), query.Limit())
    ensures Contents(Follow(views, query)) == objects[n..]
    decreases |views|
  {
    var page := PageOf(objects, query);
    FirstPage(objects, query, n);
    FollowStep(views, query);
    if page.nextToken.None? {
      LonePage(page);
    } else {
      NextPageContinues(objects, query, n);
      UnchangedTail(views, objects);
      var next := query.(continuationToken := page.nextToken);
      assert next.After() == page.nextToken && next.Limit() == query.Limit();
      PagesJoin(objects, views[1..], next, n + |page.contents|);
      AddPage(page, Follow(views[1..], next), query.Limit());
    }
  }

  lemma LonePage(page: Page)
    ensures Contents([page]) == page.contents
  {
    assert [page][1..] == [];
    assert page.contents + [] == page.contents;
  }

  lemma FollowStep(views: seq<seq<ObjectMetadata>>, query: Query)
    requires views != []
    ensures var page := PageOf(views[0], query);
            Follow(views, query) == if page.nextToken.None? then [page]
                                    else [page] + Follow(views[1..], query.(continuationToken := page.nextToken))
  {
  }

  /** The page cut from what remains: all of it, or a full page with the rest to come. */
  lemma FirstPage(objects: seq<ObjectMetadata>, query: Query, n: nat)
    requires n <= |objects| && Beyond(objects, query.After()) == objects[n..] && query.v2 && 1 <= query.Limit()
    ensures var page := PageOf(objects, query);
            if page.nextToken.None? then page.contents == objects[n..] && !page.isTruncated
            else
              && page.isTruncated && |page.contents| == query.Limit() && n + |page.contents| <= |objects|
              && page.contents + objects[n + |page.contents|..] == objects[n..]
  {
    var rest := objects[n..];
    if |rest| > query.Limit() {
      assert rest[..query.Limit()] + objects[n + query.Limit()..] == rest;
    }
  }

  lemma AddPage(page: Page, rest: seq<Page>, limit: nat)
    requires EndsProperly(rest, limit) && page.isTruncated && |page.contents| == limit
    ensures EndsProperly([page] + rest, limit)
    ensures Contents([page] + rest) == page.contents + Contents(rest)
  {
    assert ([page] + rest)[1..] == rest;
  }

  // ---------- a bucket that changes between requests ----------

  ghost predicate InOrder(objects: seq<ObjectMetadata>, after: Option<string>) {
    Ascending(KeysOf(objects)) && forall o :: o in objects ==> Exceeds(o.key, after)
  }

  ghost predicate Seen(pages: seq<Page>, views: seq<seq<ObjectMetadata>>) {
    |pages| <= |views| && forall i, o :: 0 <= i < |pages| && o in pages[i].contents ==> o in views[i]
  }

  ghost predicate Stays(o: ObjectMetadata, views: seq<seq<ObjectMetadata>>) {
    forall i :: 0 <= i < |views| ==> o in views[i]
  }

  ghost predicate Finished(pages: seq<Page>) {
    pages != [] && !pages[|pages| - 1].isTruncated
  }

  ghost predicate Misses(o: ObjectMetadata, pages: seq<Page>, after: Option<string>) {
    Exceeds(o.key, after) && o !in Contents(pages)
  }

  /** Pagination of a bucket that changes between requests: keys come out ascending without
      repeats, everything listed was there when its page was cut, and once a page says that
      nothing is left, no object that stayed throughout has been missed. */
  lemma {:induction false} PagesUnderChange(views: seq<seq<ObjectMetadata>>, query: Query)
    requires query.v2 && forall i :: 0 <= i < |views| ==> Ascending(KeysOf(views[i]))
    ensures InOrder(Contents(Follow(views, query)), query.After())
    ensures Seen(Follow(views, query), views)
    ensures Finished(Follow(views, query)) ==>
              forall o :: Stays(o, views) ==> !Misses(o, Follow(views, query), query.After())
    decreases |views|
  {
    if views != [] {
      var view := views[0];
      var n := PageIsAStretch(view, query);
      var page := PageOf(view, query);
      PageMembers(view, n, page);
      PageKeysExceed(view, query, n, page);
      if page.nextToken.None? {
        assert Contents([page]) == page.contents + Contents([]) == page.contents;
        if !page.isTruncated {
          LastPage(view, n, query, page);
        }
      } else {
        var next := query.(continuationToken := page.nextToken);
        PagesUnderChange(views[1..], next);
        var rest := Follow(views[1..], next);
        assert Follow(views, query) == [page] + rest && ([page] + rest)[1..] == rest;
        JoinAscending(page.contents, Contents(rest), query.After());
        if Finished([page] + rest) {
          assert rest != [] && rest[|rest| - 1] == ([page] + rest)[|rest|];
          forall o | Stays(o, views)
            ensures !Misses(o, [page] + rest, query.After())
          {
            assert Stays(o, views[1..]) && o in view;
            assert !Misses(o, rest, page.nextToken);
            if Exceeds(o.key, query.After()) {
              StaysInPageOrBeyond(view, query, n, page, o);
            }
          }
        }
      }
    }
  }

  lemma PageMembers(view: seq<ObjectMetadata>, n: nat, page: Page)
    requires Ascending(KeysOf(view)) && n <= |view| && page.contents <= view[n..]
    ensures Ascending(KeysOf(page.contents))
    ensures forall o :: o in page.contents ==> o in view
  {
    var keys := KeysOf(view);
    assert forall i :: 0 <= i < |page.contents| ==> page.contents[i] == view[n + i];
    forall i, j | 0 <= i < j < |page.contents|
      ensures Less(page.contents[i].key, page.contents[j].key)
    {
      assert Less(keys[n + i], keys[n + j]);
    }
  }

  lemma LastPage(view: seq<ObjectMetadata>, n: nat, query: Query, page: Page)
    requires n <= |view| && page.contents == view[n..]
    requires forall i :: 0 <= i < |view| ==> (n <= i <==> Exceeds(view[i].key, query.After()))
    ensures forall o :: o in view && Exceeds(o.key, query.After()) ==> o in page.contents
  {
    forall o | o in view && Exceeds(o.key, query.After())
      ensures o in page.contents
    {
      var i :| 0 <= i < |view| && view[i] == o;
      assert view[n..][i - n] == o;
    }
  }

  lemma PageKeysExceed(view: seq<ObjectMetadata>, query: Query, n: nat, page: Page)
    requires n <= |view| && page.contents <= view[n..]
    requires forall i :: 0 <= i < |view| ==> (n <= i <==> Exceeds(view[i].key, query.After()))
    ensures forall o :: o in page.contents ==> Exceeds(o.key, query.After())
  {
    forall i | 0 <= i < |page.contents|
      ensures Exceeds(page.contents[i].key, query.After())
    {
      assert page.contents[i] == view[n..][i] == view[n + i];
    }
  }

  /** An object beyond the token is on the page or beyond the page's last key. */
  lemma StaysInPageOrBeyond(view: seq<ObjectMetadata>, query: Query, n: nat, page: Page, o: ObjectMetadata)
    requires Ascending(KeysOf(view)) && n <= |view| && page.contents != [] && page.contents <= view[n..]
    requires forall i :: 0 <= i < |view| ==> (n <= i <==> Exceeds(view[i].key, query.After()))
    requires o in view && Exceeds(o.key, query.After())
    ensures o in page.contents || Less(page.contents[|page.contents| - 1].key, o.key)
  {
    var keys := KeysOf(view);
    var i :| 0 <= i < |view| && view[i] == o;
    var last := n + |page.contents| - 1;
    assert page.contents[last - n] == view[n..][last - n] == view[last];
    if i <= last {
      assert page.contents[i - n] == view[n..][i - n] == o;
    } else {
      assert Less(keys[last], keys[i]);
    }
  }

  lemma JoinAscending(a: seq<ObjectMetadata>, b: seq<ObjectMetadata>, after: Option<string>)
    requires Ascending(KeysOf(a)) && Ascending(KeysOf(b)) && a != []
    requires forall o :: o in a ==> Exceeds(o.key, after)
    requires forall o :: o in b ==> Less(a[|a| - 1].key, o.key)
    ensures Ascending(KeysOf(a + b))
    ensures forall o :: o in a + b ==> Exceeds(o.key, after)
  {
    var ka, kb, kab := KeysOf(a), KeysOf(b), KeysOf(a + b);
    var last := a[|a| - 1].key;
    assert a[|a| - 1] in a;
    forall j | 0 <= j < |b|
      ensures Less(last, b[j].key) && Exceeds(b[j].key, after)
    {
      assert b[j] in b;
      if after.Some? {
        LessTransitive(after.value, last, b[j].key);
      }
    }
    assert kab == ka + kb;
    forall i, j | 0 <= i < j < |kab|
      ensures Less(kab[i], kab[j])
    {
      assert last == ka[|a| - 1] && forall k :: 0 <= k < |b| ==> kb[k] == b[k].key;
      if i < |a| - 1 && |a| <= j {
        LessTransitive(ka[i], last, kb[j - |a|]);
      }
    }
  }
}
