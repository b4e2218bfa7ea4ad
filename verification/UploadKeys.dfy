/** The multipart key space: metadata keys `mpu:bucket:key:id` and part keys
    `mpu:bucket:key:id:part:n`, told apart only by their text. */
module UploadKeys {
  import opened Text
  import opened MetadataDb

  const PART := ":part:"

  function DbKey(u: UploadMetadata): string {
    MULTIPART_PREFIX + u.bucket + ":" + u.key + ":" + u.uploadId
  }

  function PartPrefix(u: UploadMetadata): string {
    DbKey(u) + PART
  }

  function PartKey(u: UploadMetadata, n: nat): string {
    PartPrefix(u) + Decimal(n)
  }

  /** Bucket names never hold a colon, and upload ids are UUIDs. */
  predicate WellFormed(u: UploadMetadata) {
    ':' !in u.bucket && ':' !in u.uploadId && u.uploadId != "part"
  }

  /** An upload as the initiate handler makes it: its id is a UUID, so it is not a number. */
  predicate Issued(u: UploadMetadata) {
    WellFormed(u) && !DecimalText(u.uploadId)
  }

  /** The metadata key of `y` lies among the part keys of `x`. */
  predicate Nested(x: UploadMetadata, y: UploadMetadata) {
    PartPrefix(x) <= DbKey(y)
  }

  /** The listing scans skip every stored key with this text in it. */
  predicate Hidden(u: UploadMetadata) {
    Contains(DbKey(u), PART)
  }

  // ---------- splitting at the first and the last colon ----------

  lemma SplitFirst(b1: string, r1: string, b2: string, r2: string)
    requires ':' !in b1 && ':' !in b2
    requires b1 + ":" + r1 == b2 + ":" + r2
    ensures b1 == b2 && r1 == r2
  {
    var s := b1 + ":" + r1;
    assert s[|b1|] == ':' && s[|b2|] == ':';
    assert forall i :: 0 <= i < |b1| ==> s[i] == b1[i] && b1[i] in b1;
    assert forall i :: 0 <= i < |b2| ==> s[i] == b2[i] && b2[i] in b2;
    assert |b1| == |b2|;
    assert b1 == s[..|b1|] && b2 == s[..|b2|];
    assert r1 == s[|b1| + 1..] && r2 == s[|b2| + 1..];
  }

  lemma SplitLast(l1: string, u1: string, l2: string, u2: string)
    requires ':' !in u1 && ':' !in u2
    requires l1 + ":" + u1 == l2 + ":" + u2
    ensures l1 == l2 && u1 == u2
  {
    var s := l1 + ":" + u1;
    NoLaterColon(l1, u1, |l2|);
    NoLaterColon(l2, u2, |l1|);
    assert l1 == s[..|l1|] && l2 == s[..|l2|];
    assert u1 == s[|l1| + 1..] && u2 == s[|l2| + 1..];
  }

  lemma NoLaterColon(left: string, id: string, i: nat)
    requires ':' !in id && i < |left + ":" + id| && (left + ":" + id)[i] == ':'
    ensures i <= |left|
  {
  }

  /** Bucket, key and upload id can be read back from a metadata key. */
  lemma DbKeyIsInjective(x: UploadMetadata, y: UploadMetadata)
    requires WellFormed(x) && WellFormed(y) && DbKey(x) == DbKey(y)
    ensures x == y
  {
    var lx, ly := MULTIPART_PREFIX + x.bucket + ":" + x.key, MULTIPART_PREFIX + y.bucket + ":" + y.key;
    SplitLast(lx, x.uploadId, ly, y.uploadId);
    var rx, ry := x.bucket + ":" + x.key, y.bucket + ":" + y.key;
    assert rx == lx[4..] && ry == ly[4..];
    SplitFirst(x.bucket, x.key, y.bucket, y.key);
  }

  /** A metadata key lies under `mpu:bucket:` exactly when it is that bucket's. */
  lemma BucketPrefixIsExact(bucket: string, u: UploadMetadata)
    requires ':' !in bucket && WellFormed(u)
    ensures MULTIPART_PREFIX + bucket + ":" <= DbKey(u) <==> u.bucket == bucket
  {
    var p := MULTIPART_PREFIX + bucket + ":";
    if u.bucket == bucket {
      assert DbKey(u) == p + (u.key + ":" + u.uploadId);
    }
    if p <= DbKey(u) {
      var rest := DbKey(u)[|p|..];
      var own := u.key + ":" + u.uploadId;
      assert DbKey(u) == p + rest;
      assert DbKey(u) == MULTIPART_PREFIX + u.bucket + ":" + own;
      assert DbKey(u)[4..] == bucket + ":" + rest;
      assert DbKey(u)[4..] == u.bucket + ":" + own;
      SplitFirst(u.bucket, own, bucket, rest);
    }
  }

  // ---------- which uploads the listings hide ----------

  predicate PartAt(s: string, i: nat) {
    i + 6 <= |s| && s[i..i + 6] == PART
  }

  lemma ContainsAt(s: string, i: nat)
    requires PartAt(s, i)
    ensures Contains(s, PART)
  {
    assert s[i..][..6] == PART;
    assert PART <= s[i..];
  }

  lemma ContainsWhere(s: string) returns (i: nat)
    requires Contains(s, PART)
    ensures PartAt(s, i)
  {
    i :| 0 <= i <= |s| && PART <= s[i..];
    assert s[i..i + 6] == s[i..][..6] == PART;
  }

  lemma PartChars(s: string, i: nat)
    requires PartAt(s, i)
    ensures s[i] == ':' && s[i + 1] == 'p' && s[i + 2] == 'a' && s[i + 3] == 'r' && s[i + 4] == 't' && s[i + 5] == ':'
  {
    var w := s[i..i + 6];
    assert s[i] == w[0] && s[i + 1] == w[1] && s[i + 2] == w[2] && s[i + 3] == w[3] && s[i + 4] == w[4] && s[i + 5] == w[5];
  }

  /** Two occurrences overlap in at most the colon they share. */
  lemma PartsOverlap(s: string, i: nat, j: nat)
    requires PartAt(s, i) && PartAt(s, j)
    ensures i < j ==> 5 <= j - i
  {
    PartChars(s, i);
    PartChars(s, j);
  }

  lemma EmbedPart(pre: string, mid: string, post: string, i: nat)
    requires PartAt(mid, i)
    ensures PartAt(pre + mid + post, |pre| + i)
  {
    var s := pre + mid + post;
    assert s[|pre| + i..|pre| + i + 6] == mid[i..i + 6];
  }

  lemma ExtractPart(pre: string, mid: string, post: string, i: nat)
    requires PartAt(pre + mid + post, i) && |pre| <= i && i + 6 <= |pre| + |mid|
    ensures PartAt(mid, i - |pre|)
  {
    var s := pre + mid + post;
    assert mid[i - |pre|..i - |pre| + 6] == s[i..i + 6];
  }

  /** An upload is hidden from every listing exactly when its bucket is named `part` or
      `part` stands between two colons of its key, counting the ends of the key as colons. */
  lemma HiddenExactly(u: UploadMetadata)
    requires WellFormed(u)
    ensures Hidden(u) <==> u.bucket == "part" || Contains(":" + u.key + ":", PART)
  {
    var pre, mid := MULTIPART_PREFIX + u.bucket, ":" + u.key + ":";
    assert DbKey(u) == pre + mid + u.uploadId;
    if u.bucket == "part" {
      HiddenByBucket(u);
    }
    if Contains(mid, PART) {
      var i := ContainsWhere(mid);
      EmbedPart(pre, mid, u.uploadId, i);
      ContainsAt(DbKey(u), |pre| + i);
    }
    if Hidden(u) {
      var i := ContainsWhere(DbKey(u));
      HiddenOnlyIf(u, pre, mid, i);
    }
  }

  lemma HiddenByBucket(u: UploadMetadata)
    requires u.bucket == "part"
    ensures Hidden(u)
  {
    assert MULTIPART_PREFIX + u.bucket + ":" == "mpu" + PART;
    var rest := u.key + ":" + u.uploadId;
    assert DbKey(u) == "mpu" + PART + rest;
    assert PartAt(PART, 0);
    EmbedPart("mpu", PART, rest, 0);
    ContainsAt(DbKey(u), 3);
  }

  lemma HiddenOnlyIf(u: UploadMetadata, pre: string, mid: string, i: nat)
    requires WellFormed(u) && pre == MULTIPART_PREFIX + u.bucket && mid == ":" + u.key + ":"
    requires DbKey(u) == pre + mid + u.uploadId && PartAt(DbKey(u), i)
    ensures u.bucket == "part" || Contains(mid, PART)
  {
    var d := DbKey(u);
    PartChars(d, i);
    assert forall j :: |pre| + |mid| <= j < |d| ==> d[j] == u.uploadId[j - |pre| - |mid|];
    if |pre| <= i {
      ExtractPart(pre, mid, u.uploadId, i);
      ContainsAt(mid, i - |pre|);
    } else {
      assert d[i] == pre[i];
      ColonInPrefix(u.bucket, pre, i);
      BucketIsPart(u, d);
    }
  }

  lemma ColonInPrefix(bucket: string, pre: string, i: nat)
    requires ':' !in bucket && pre == MULTIPART_PREFIX + bucket && i < |pre| && pre[i] == ':'
    ensures i == 3
  {
    assert forall j :: 4 <= j < |pre| ==> pre[j] == bucket[j - 4];
  }

  lemma BucketIsPart(u: UploadMetadata, d: string)
    requires WellFormed(u) && d == DbKey(u) && PartAt(d, 3)
    ensures u.bucket == "part"
  {
    var rest := u.key + ":" + u.uploadId;
    assert d == MULTIPART_PREFIX + (u.bucket + ":" + rest);
    assert d[4..] == u.bucket + ":" + rest;
    assert d[4..] == d[3..9][1..] + d[9..];
    assert PART[1..] == "part" + ":";
    SplitFirst(u.bucket, rest, "part", d[9..]);
  }

  // ---------- uploads that do not disturb each other ----------

  /** Neither the metadata key nor any part key of `y` is, or lies under, a key of `x`. */
  ghost predicate Apart(x: UploadMetadata, y: UploadMetadata) {
    && DbKey(x) != DbKey(y)
    && !(PartPrefix(x) <= DbKey(y))
    && (forall n: nat :: DbKey(x) != PartKey(y, n) && !(PartPrefix(x) <= PartKey(y, n)))
  }

  /** The first upload's key space contains something of the second's: both in one bucket, and
      either the second's key spells out the first's part prefix, or the first's key and
      numeric id spell out a part of the second. */
  predicate Clashes(x: UploadMetadata, y: UploadMetadata) {
    x.bucket == y.bucket
    && (x.key + ":" + x.uploadId + PART <= y.key + ":"
        || (x.key == y.key + ":" + y.uploadId + ":part" && DecimalText(x.uploadId)))
  }

  /** Different well-formed uploads leave each other alone exactly when they do not clash. */
  lemma ClashExactly(x: UploadMetadata, y: UploadMetadata)
    requires WellFormed(x) && WellFormed(y) && x != y
    ensures Apart(x, y) <==> !Clashes(x, y)
  {
    if DbKey(x) == DbKey(y) {
      DbKeyIsInjective(x, y);
    }
    SpellsPrefix(x, y);
    SpellsPart(x, y);
    forall n: nat
      ensures PartPrefix(x) <= PartKey(y, n) <==> PartPrefix(x) <= DbKey(y)
    {
      UnderPartsUnderKey(x, y, n);
    }
  }

  lemma SpellsPrefix(x: UploadMetadata, y: UploadMetadata)
    requires WellFormed(x) && WellFormed(y)
    ensures PartPrefix(x) <= DbKey(y) <==> x.bucket == y.bucket && x.key + ":" + x.uploadId + PART <= y.key + ":"
  {
    var p, q := x.key + ":" + x.uploadId + PART, y.key + ":";
    assert PartPrefix(x) == MULTIPART_PREFIX + (x.bucket + ":" + p);
    assert DbKey(y) == MULTIPART_PREFIX + (y.bucket + ":" + (q + y.uploadId));
    SamePrefix(MULTIPART_PREFIX, x.bucket + ":" + p, y.bucket + ":" + (q + y.uploadId));
    assert p[|p| - 1] == PART[5];
    SpellsAfterBucket(x.bucket, p, y.bucket, q, y.uploadId);
  }

  lemma SamePrefix(m: string, a: string, b: string)
    ensures m + a <= m + b <==> a <= b
  {
    if a <= b {
      assert m + b == m + a + b[|a|..];
    }
    if m + a <= m + b {
      assert a == (m + a)[|m|..] == (m + b)[..|m + a|][|m|..] == b[..|a|];
    }
  }

  lemma SpellsAfterBucket(b1: string, p: string, b2: string, q: string, id: string)
    requires ':' !in b1 && ':' !in b2 && ':' !in id && p != [] && p[|p| - 1] == ':'
    ensures b1 + ":" + p <= b2 + ":" + (q + id) <==> b1 == b2 && p <= q
  {
    if b1 == b2 && p <= q {
      assert b2 + ":" + (q + id) == b1 + ":" + p + (q[|p|..] + id);
    }
    if b1 + ":" + p <= b2 + ":" + (q + id) {
      var rest := (b2 + ":" + (q + id))[|b1 + ":" + p|..];
      assert b2 + ":" + (q + id) == b1 + ":" + (p + rest);
      SplitFirst(b1, p + rest, b2, q + id);
      EndsAtColon(p, rest, q, id);
    }
  }

  /** A text that ends in a colon cannot reach into a part without colons. */
  lemma EndsAtColon(p: string, rest: string, q: string, id: string)
    requires p + rest == q + id && ':' !in id && p != [] && p[|p| - 1] == ':'
    ensures p <= q
  {
    var s := q + id;
    assert s[|p| - 1] == p[|p| - 1];
    assert forall j :: |q| <= j < |s| ==> s[j] == id[j - |q|];
    assert |p| <= |q|;
    assert p == s[..|p|] == q[..|p|];
  }

  lemma SpellsPart(x: UploadMetadata, y: UploadMetadata)
    requires WellFormed(x) && WellFormed(y)
    ensures (exists n: nat :: DbKey(x) == PartKey(y, n))
            <==> x.bucket == y.bucket && x.key == y.key + ":" + y.uploadId + ":part" && DecimalText(x.uploadId)
  {
    DecimalExactly(x.uploadId);
    if x.bucket == y.bucket && x.key == y.key + ":" + y.uploadId + ":part" && DecimalText(x.uploadId) {
      var n: nat :| Decimal(n) == x.uploadId;
      SpellsThisPart(x, y, n);
    }
    if n: nat :| DbKey(x) == PartKey(y, n) {
      SpellsThisPart(x, y, n);
    }
  }

  lemma SpellsThisPart(x: UploadMetadata, y: UploadMetadata, n: nat)
    requires WellFormed(x) && WellFormed(y)
    ensures DbKey(x) == PartKey(y, n)
            <==> x.bucket == y.bucket && x.key == y.key + ":" + y.uploadId + ":part" && x.uploadId == Decimal(n)
  {
    NoColonInDigits(n);
    var own := y.key + ":" + y.uploadId + ":part";
    assert PartKey(y, n) == MULTIPART_PREFIX + (y.bucket + ":" + own) + ":" + Decimal(n);
    assert DbKey(x) == MULTIPART_PREFIX + (x.bucket + ":" + x.key) + ":" + x.uploadId;
    if DbKey(x) == PartKey(y, n) {
      SplitLast(MULTIPART_PREFIX + (x.bucket + ":" + x.key), x.uploadId, MULTIPART_PREFIX + (y.bucket + ":" + own), Decimal(n));
      AfterPrefix(MULTIPART_PREFIX, x.bucket + ":" + x.key, y.bucket + ":" + own);
      SplitFirst(x.bucket, x.key, y.bucket, own);
    }
  }

  lemma AfterPrefix(m: string, a: string, b: string)
    requires m + a == m + b
    ensures a == b
  {
    assert a == (m + a)[|m|..] && b == (m + b)[|m|..];
  }

  lemma NoColonInDigits(n: nat)
    ensures ':' !in Decimal(n)
  {
  }

  /** Whatever part key of another upload lies under a part prefix, its metadata key does too. */
  lemma UnderPartsUnderKey(x: UploadMetadata, y: UploadMetadata, n: nat)
    requires WellFormed(x) && WellFormed(y) && x != y
    ensures PartPrefix(x) <= PartKey(y, n) <==> PartPrefix(x) <= DbKey(y)
  {
    var dx, dy, s := DbKey(x), DbKey(y), PartKey(y, n);
    assert s == dy + PART + Decimal(n) && dy <= s;
    if PartPrefix(x) <= s {
      assert s[|dx|..|dx| + 6] == PartPrefix(x)[|dx|..] == PART;
      assert s[|dy|..|dy| + 6] == PART;
      NoPartInDigits(dy, s, n, |dx|);
      assert dx == s[..|dx|] && dy == s[..|dy|];
      if |dx| == |dy| {
        DbKeyIsInjective(x, y);
      }
      PartEndsBefore(y, s, |dx|);
      assert PartPrefix(x) == s[..|dx| + 6] == dy[..|dx| + 6];
    }
    if PartPrefix(x) <= dy {
      assert PartPrefix(x) == dy[..|PartPrefix(x)|] == s[..|PartPrefix(x)|];
    }
  }

  lemma NoPartInDigits(dy: string, s: string, n: nat, i: nat)
    requires s == dy + PART + Decimal(n) && PartAt(s, i)
    ensures i <= |dy|
  {
    PartChars(s, i);
    assert s[|dy|..|dy| + 6] == PART;
    PartsOverlap(s, |dy|, i);
    assert forall j :: |dy| + 6 <= j < |s| ==> s[j] == Decimal(n)[j - |dy| - 6] && s[j] in Decimal(n);
  }

  /** An occurrence that starts inside a metadata key and is followed by another one right
      behind the key ends inside the key, because the id is not `part`. */
  lemma PartEndsBefore(y: UploadMetadata, s: string, i: nat)
    requires WellFormed(y) && i < |DbKey(y)| && DbKey(y) <= s
    requires PartAt(s, i) && PartAt(s, |DbKey(y)|)
    ensures i + 6 <= |DbKey(y)|
  {
    var dy := DbKey(y);
    PartsOverlap(s, i, |dy|);
    if |dy| == i + 5 {
      assert dy == dy[..i] + s[i..i + 6][..5];
      assert PART[..5] == ":" + "part";
      assert dy == dy[..i] + ":" + "part";
      SplitLast(MULTIPART_PREFIX + y.bucket + ":" + y.key, y.uploadId, dy[..i], "part");
    }
  }

  /** One upload's records lie among another's parts exactly when both are in one bucket and
      its key spells out the other's part prefix. */
  lemma NestedExactly(x: UploadMetadata, y: UploadMetadata)
    requires WellFormed(x) && WellFormed(y)
    ensures Nested(x, y) <==> x.bucket == y.bucket && x.key + ":" + x.uploadId + PART <= y.key + ":"
  {
    SpellsPrefix(x, y);
  }

  lemma NestedIsHidden(x: UploadMetadata, y: UploadMetadata)
    requires Nested(x, y)
    ensures Hidden(y) && |DbKey(x)| < |DbKey(y)|
  {
    assert DbKey(y)[|DbKey(x)|..|DbKey(x)| + 6] == PartPrefix(x)[|DbKey(x)|..] == PART;
    ContainsAt(DbKey(y), |DbKey(x)|);
  }

  /** The metadata key of an issued upload is nobody's part key. */
  lemma MetadataIsNoPart(x: UploadMetadata, y: UploadMetadata, n: nat)
    requires Issued(x) && WellFormed(y)
    ensures DbKey(x) != PartKey(y, n)
  {
    if DbKey(x) == PartKey(y, n) {
      SpellsPart(x, y);
    }
  }

  /** Upload and number can be read back from a part key. */
  lemma PartKeysDiffer(x: UploadMetadata, n: nat, y: UploadMetadata, m: nat)
    requires WellFormed(x) && WellFormed(y) && PartKey(x, n) == PartKey(y, m)
    ensures x == y && n == m
  {
    if x != y {
      UnderPartsUnderKey(x, y, m);
      UnderPartsUnderKey(y, x, n);
    } else {
      PartKeyIsInjective(x, n, m);
    }
  }

  /** Only a hidden upload takes part in a clash. */
  lemma ClashesAreHidden(x: UploadMetadata, y: UploadMetadata)
    requires WellFormed(x) && WellFormed(y) && Clashes(x, y)
    ensures Hidden(x) || Hidden(y)
  {
    SpellsPrefix(x, y);
    SpellsPart(x, y);
    if PartPrefix(x) <= DbKey(y) {
      assert DbKey(y)[|DbKey(x)|..|DbKey(x)| + 6] == PartPrefix(x)[|DbKey(x)|..] == PART;
      ContainsAt(DbKey(y), |DbKey(x)|);
    } else {
      var n: nat :| DbKey(x) == PartKey(y, n);
      assert DbKey(x)[|DbKey(y)|..|DbKey(y)| + 6] == PART;
      ContainsAt(DbKey(x), |DbKey(y)|);
    }
  }

  /** Well-formed uploads that are not hidden never disturb each other. */
  lemma PlainUploadsApart(x: UploadMetadata, y: UploadMetadata)
    requires WellFormed(x) && WellFormed(y) && !Hidden(x) && !Hidden(y) && x != y
    ensures Apart(x, y) && !Clashes(x, y)
  {
    if Clashes(x, y) {
      ClashesAreHidden(x, y);
    }
    ClashExactly(x, y);
  }

  lemma PartKeyIsInjective(u: UploadMetadata, n: nat, m: nat)
    requires PartKey(u, n) == PartKey(u, m)
    ensures n == m
  {
    assert Decimal(n) == PartKey(u, n)[|PartPrefix(u)|..];
    assert Decimal(m) == PartKey(u, m)[|PartPrefix(u)|..];
    DecimalIsInjective(n, m);
  }

  /** Clashes can be made from the client's side: whoever spells out another upload's id in an
      object key puts metadata among that upload's parts. */
  lemma HiddenUploadsMayClash(x: UploadMetadata, id: string)
    ensures var y := UploadMetadata(id, x.bucket, x.key + ":" + x.uploadId + ":part:k");
            Clashes(x, y) && Nested(x, y) && Hidden(y)
  {
    var y := UploadMetadata(id, x.bucket, x.key + ":" + x.uploadId + ":part:k");
    assert DbKey(y) == DbKey(x) + PART + ("k" + ":" + id);
    assert DbKey(y)[|DbKey(x)|..|DbKey(x)| + 6] == PART;
    ContainsAt(DbKey(y), |DbKey(x)|);
    assert y.key + ":" == x.key + ":" + x.uploadId + PART + "k:";
  }
}
