/** Strings as the metadata database sees them: byte order, prefixes, decimal
    formatting, and the ascending listing of a key set that a database iterator yields.

    Characters are compared by code point.  On UTF-8 text that is the byte order of
    the database, and a byte prefix that is itself text is a character prefix. */
module Text {

  datatype Option<+T> = None | Some(value: T)

  type Byte = x: int | 0 <= x < 256

  type Bytes = seq<Byte>

  /** SHA-256 stands for an injective digest: a digest is known by what was hashed. */
  datatype Digest = Sha256(content: Bytes)

  /** Strict lexicographic order: the order of database keys and of Rust's `<` on strings. */
  predicate Less(a: string, b: string) {
    if b == [] then false
    else if a == [] then true
    else a[0] < b[0] || (a[0] == b[0] && Less(a[1..], b[1..]))
  }

  /** The first text is the smaller one at this place: both agree before it, and there it ends or
      has the smaller character. */
  predicate SmallerAt(a: string, b: string, i: nat) {
    i <= |a| && i < |b| && a[..i] == b[..i] && (i == |a| || a[i] < b[i])
  }

  /** The order is decided at the first place where the texts differ. */
  lemma {:induction false} LessExactly(a: string, b: string)
    ensures Less(a, b) <==> exists i: nat :: SmallerAt(a, b, i)
  {
    if b != [] && (a == [] || a[0] < b[0]) {
      assert SmallerAt(a, b, 0);
    } else if b != [] && a[0] == b[0] {
      LessExactly(a[1..], b[1..]);
      if i: nat :| SmallerAt(a[1..], b[1..], i) {
        assert a[..i + 1] == [a[0]] + a[1..][..i] && b[..i + 1] == [b[0]] + b[1..][..i];
        assert SmallerAt(a, b, i + 1);
      }
      if i: nat :| SmallerAt(a, b, i) {
        assert i > 0;
        assert a[1..][..i - 1] == a[..i][1..] && b[1..][..i - 1] == b[..i][1..];
        assert SmallerAt(a[1..], b[1..], i - 1);
      }
    } else {
      forall i: nat
        ensures !SmallerAt(a, b, i)
      {
        SameStart(a, b, i);
      }
    }
  }

  lemma SameStart(a: string, b: string, i: nat)
    ensures 0 < i <= |a| && i <= |b| && a[..i] == b[..i] ==> a[0] == b[0]
  {
    if 0 < i <= |a| && i <= |b| && a[..i] == b[..i] {
      assert a[..i][0] == b[..i][0];
    }
  }

  predicate AtMost(a: string, b: string) {
    a == b || Less(a, b)
  }

  lemma {:induction false} LessIrreflexive(a: string)
    ensures !Less(a, a)
  {
    if a != [] {
      LessIrreflexive(a[1..]);
    }
  }

  lemma {:induction false} LessTransitive(a: string, b: string, c: string)
    requires Less(a, b) && Less(b, c)
    ensures Less(a, c)
  {
    if a != [] && a[0] == b[0] && b[0] == c[0] {
      LessTransitive(a[1..], b[1..], c[1..]);
    }
  }

  lemma {:induction false} LessTotal(a: string, b: string)
    ensures Less(a, b) || a == b || Less(b, a)
  {
    if a != [] && b != [] && a[0] == b[0] {
      LessTotal(a[1..], b[1..]);
      assert a[1..] == b[1..] ==> a == [a[0]] + a[1..] == [b[0]] + b[1..] == b;
    }
  }

  lemma LessAsymmetric(a: string, b: string)
    requires Less(a, b)
    ensures !Less(b, a) && a != b
  {
    LessIrreflexive(a);
    if Less(b, a) {
      LessTransitive(a, b, a);
    }
  }

  lemma {:induction false} LessUnderPrefix(p: string, a: string, b: string)
    ensures Less(p + a, p + b) <==> Less(a, b)
  {
    if p == [] {
      assert p + a == a && p + b == b;
    } else {
      LessUnderPrefix(p[1..], a, b);
      assert (p + a)[1..] == p[1..] + a && (p + b)[1..] == p[1..] + b;
    }
  }

  lemma {:induction false} PrefixAtMost(p: string, s: string)
    requires p <= s
    ensures AtMost(p, s)
  {
    if p != [] {
      PrefixAtMost(p[1..], s[1..]);
      assert s == [s[0]] + s[1..] && p == [p[0]] + p[1..];
    }
  }

  /** The keys under one prefix are contiguous in the order: whatever lies between the
      prefix and a key carrying it carries it too. */
  lemma {:induction false} PrefixRangeIsContiguous(p: string, a: string, b: string)
    requires AtMost(p, a) && AtMost(a, b) && p <= b
    ensures p <= a
  {
    if p != [] && a != b && p != a {
      assert p[0] == b[0];
      assert Less(p, a) && Less(a, b);
      assert a[0] == p[0];
      PrefixRangeIsContiguous(p[1..], a[1..], b[1..]);
      assert p == [p[0]] + p[1..] && a == [a[0]] + a[1..];
    }
  }

  // ---------- ascending key listings ----------

  ghost predicate Ascending(ks: seq<string>) {
    forall i, j :: 0 <= i < j < |ks| ==> Less(ks[i], ks[j])
  }

  ghost predicate IsLeast(least: string, keys: set<string>) {
    least in keys && forall k :: k in keys && k != least ==> Less(least, k)
  }

  lemma {:induction false} HasLeast(keys: set<string>)
    requires keys != {}
    ensures exists least :: IsLeast(least, keys)
  {
    var x :| x in keys;
    var rest := keys - {x};
    assert keys == rest + {x};
    if rest == {} {
      assert IsLeast(x, keys);
    } else {
      HasLeast(rest);
      var y :| IsLeast(y, rest);
      LessTotal(x, y);
      if Less(x, y) {
        forall k | k in keys && k != x
          ensures Less(x, k)
        {
          if k != y {
            LessTransitive(x, y, k);
          }
        }
        assert IsLeast(x, keys);
      } else {
        assert IsLeast(y, keys);
      }
    }
  }

  /** The listing a full forward iteration of the database yields. */
  ghost function SortedKeys(keys: set<string>): (ks: seq<string>)
    ensures Ascending(ks)
    ensures forall k :: k in ks <==> k in keys
    decreases |keys|
  {
    if keys == {} then []
    else
      HasLeast(keys);
      var least :| IsLeast(least, keys);
      var rest := SortedKeys(keys - {least});
      assert forall k :: k in rest ==> Less(least, k);
      [least] + rest
  }

  lemma FirstIsMember(a: seq<string>)
    requires a != []
    ensures a[0] in a
  {
  }

  /** A set has only one ascending listing. */
  lemma {:induction false} AscendingIsUnique(a: seq<string>, b: seq<string>)
    requires Ascending(a) && Ascending(b)
    requires forall k :: k in a <==> k in b
    ensures a == b
  {
    if a == [] {
      if b != [] {
        FirstIsMember(b);
      }
    } else {
      assert a[0] in b && b != [] && b[0] in a;
      HeadIsLeast(a, b[0]);
      HeadIsLeast(b, a[0]);
      if a[0] != b[0] {
        LessAsymmetric(a[0], b[0]);
      }
      TailDropsHead(a);
      TailDropsHead(b);
      AscendingIsUnique(a[1..], b[1..]);
      assert a == [a[0]] + a[1..] && b == [b[0]] + b[1..];
    }
  }

  lemma HeadIsLeast(a: seq<string>, k: string)
    requires Ascending(a) && k in a
    ensures AtMost(a[0], k)
  {
    var i :| 0 <= i < |a| && a[i] == k;
  }

  lemma TailDropsHead(a: seq<string>)
    requires Ascending(a) && a != []
    ensures Ascending(a[1..])
    ensures forall k :: k in a[1..] <==> k in a && k != a[0]
  {
    assert a == [a[0]] + a[1..];
    forall i | 0 <= i < |a[1..]|
      ensures a[1..][i] != a[0]
    {
      LessIrreflexive(a[0]);
      assert Less(a[0], a[i + 1]);
    }
  }

  /** What `prefix_iterator(start)` yields on a database whose column family has no prefix
      extractor: every key from `start` on, ascending, to the end of the database. */
  ghost predicate IteratorFrom(keys: set<string>, start: string, it: seq<string>) {
    && Ascending(it)
    && forall k :: k in it <==> k in keys && AtMost(start, k)
  }

  ghost function Under(keys: set<string>, prefix: string): (under: set<string>) {
    set k | k in keys && prefix <= k
  }

  /** The library's iterator, as a computation over the key set: smallest key first. */
  method PrefixIterator(keys: set<string>, start: string) returns (it: seq<string>)
    ensures IteratorFrom(keys, start, it)
  {
    it := [];
    var left := set k | k in keys && AtMost(start, k);
    ghost var all := left;
    while left != {}
      invariant left <= all && Ascending(it)
      invariant forall k :: k in it <==> k in all && k !in left
      invariant forall i, k :: 0 <= i < |it| && k in left ==> Less(it[i], k)
      decreases |left|
    {
      var least := TakeLeast(left);
      it := it + [least];
      left := left - {least};
    }
  }

  method TakeLeast(keys: set<string>) returns (least: string)
    requires keys != {}
    ensures IsLeast(least, keys)
  {
    least :| least in keys;
    var left := keys - {least};
    while left != {}
      invariant left <= keys && least in keys && least !in left
      invariant forall k :: k in keys && k !in left && k != least ==> Less(least, k)
      decreases |left|
    {
      var k :| k in left;
      LessTotal(k, least);
      if Less(k, least) {
        forall x | x in keys && x !in left && x != least
          ensures Less(k, x)
        {
          LessTransitive(k, least, x);
        }
        least := k;
      }
      left := left - {k};
    }
  }

  /** The scan loop shared by listing, part lookup, abort and snapshot restore: iterate
      from the prefix and stop at the first key that does not carry it. */
  method ScanPrefix(keys: set<string>, prefix: string) returns (found: seq<string>)
    ensures found == SortedKeys(Under(keys, prefix))
    ensures forall k :: k in found <==> k in keys && prefix <= k
    ensures Ascending(found)
  {
    var it := PrefixIterator(keys, prefix);
    found := [];
    var i := 0;
    while i < |it| && prefix <= it[i]
      invariant 0 <= i <= |it|
      invariant found == it[..i]
      invariant forall j :: 0 <= j < i ==> prefix <= it[j]
    {
      found := found + [it[i]];
      i := i + 1;
    }
    StopsAtTheRightKey(keys, prefix, it, i);
    AscendingIsUnique(found, SortedKeys(Under(keys, prefix)));
  }

  /** Nothing carrying the prefix lies beyond the first key that does not. */
  lemma StopsAtTheRightKey(keys: set<string>, prefix: string, it: seq<string>, n: nat)
    requires IteratorFrom(keys, prefix, it) && n <= |it|
    requires forall j :: 0 <= j < n ==> prefix <= it[j]
    requires n < |it| ==> !(prefix <= it[n])
    ensures forall k :: k in it[..n] <==> k in keys && prefix <= k
  {
    forall k | k in keys && prefix <= k
      ensures k in it[..n]
    {
      PrefixAtMost(prefix, k);
      assert k in it;
      var j :| 0 <= j < |it| && it[j] == k;
      if n < j {
        assert it[n] in it;
        PrefixRangeIsContiguous(prefix, it[n], k);
      }
      assert it[..n][j] == k;
    }
  }

  // ---------- substrings, decimal numbers, sizes ----------

  predicate Contains(s: string, sub: string) {
    exists i :: 0 <= i <= |s| && sub <= s[i..]
  }

  function Utf8Len(s: string): nat {
    if s == [] then 0
    else
      (var c := s[0] as int; if c < 0x80 then 1 else if c < 0x800 then 2 else if c < 0x1_0000 then 3 else 4)
      + Utf8Len(s[1..])
  }

  /** The encoded length adds up over the characters: one byte for ASCII, two below U+0800, three
      below U+10000, four beyond. */
  lemma {:induction false} Utf8LenExactly(a: string, c: char)
    ensures Utf8Len(a + [c])
            == Utf8Len(a) + if c as int <= 0x7F then 1 else if c as int <= 0x7FF then 2 else if c as int <= 0xFFFF then 3 else 4
    ensures Utf8Len("") == 0
  {
    if a != [] {
      assert (a + [c])[0] == a[0] && (a + [c])[1..] == a[1..] + [c];
      Utf8LenExactly(a[1..], c);
    } else {
      assert a + [c] == [c] && [c][1..] == [];
    }
  }

  function Digit(d: nat): (c: char)
    requires d < 10
    ensures '0' <= c <= '9'
  {
    "0123456789"[d]
  }

  function Decimal(n: nat): (s: string)
    ensures s != [] && forall c :: c in s ==> '0' <= c <= '9'
  {
    if n < 10 then [Digit(n)] else Decimal(n / 10) + [Digit(n % 10)]
  }

  function DecimalValue(s: string): int {
    if s == [] then 0 else DecimalValue(s[..|s| - 1]) * 10 + (s[|s| - 1] as int - '0' as int)
  }

  lemma {:induction false} DecimalRoundTrip(n: nat)
    ensures DecimalValue(Decimal(n)) == n
  {
    if n >= 10 {
      DecimalRoundTrip(n / 10);
      var s := Decimal(n);
      assert s[..|s| - 1] == Decimal(n / 10);
    } else {
      assert DecimalValue([]) == 0;
    }
  }

  lemma DecimalIsInjective(a: nat, b: nat)
    requires Decimal(a) == Decimal(b)
    ensures a == b
  {
    DecimalRoundTrip(a);
    DecimalRoundTrip(b);
  }

  /** Text as a number is formatted: digits, without a leading zero unless it is zero. */
  predicate DecimalText(s: string) {
    s != [] && (forall c :: c in s ==> '0' <= c <= '9') && (|s| == 1 || s[0] != '0')
  }

  lemma {:induction false} NoLeadingZero(n: nat)
    ensures n > 0 ==> Decimal(n)[0] != '0'
    ensures n >= 10 ==> |Decimal(n)| > 1
    ensures n < 10 ==> |Decimal(n)| == 1
  {
    if n >= 10 {
      NoLeadingZero(n / 10);
      assert Decimal(n)[0] == Decimal(n / 10)[0];
    }
  }

  lemma {:induction false} TextRoundTrip(s: string)
    requires DecimalText(s)
    ensures DecimalValue(s) >= 0 && Decimal(DecimalValue(s)) == s
  {
    var end := |s| - 1;
    var d := s[end] as int - '0' as int;
    assert s[end] in s && Digit(d) == s[end];
    if end == 0 {
      assert s[..0] == [] && DecimalValue([]) == 0;
      assert s == [s[0]];
    } else {
      var init := s[..end];
      assert forall c :: c in init ==> c in s;
      TextRoundTrip(init);
      var v := DecimalValue(init);
      assert init[0] == s[0];
      assert Decimal(0) == ['0'];
      assert v > 0;
      assert (v * 10 + d) / 10 == v && (v * 10 + d) % 10 == d;
      assert s == init + [s[end]];
    }
  }

  /** Exactly such text comes out of formatting a number. */
  lemma DecimalExactly(s: string)
    ensures DecimalText(s) <==> exists n: nat :: Decimal(n) == s
  {
    if DecimalText(s) {
      TextRoundTrip(s);
    }
    if n: nat :| Decimal(n) == s {
      NoLeadingZero(n);
    }
  }

  function Flatten<T>(parts: seq<seq<T>>): seq<T> {
    if parts == [] then [] else parts[0] + Flatten(parts[1..])
  }

  lemma {:induction false} FlattenSplit<T>(a: seq<seq<T>>, b: seq<seq<T>>)
    ensures Flatten(a + b) == Flatten(a) + Flatten(b)
  {
    if a == [] {
      assert a + b == b;
    } else {
      FlattenSplit(a[1..], b);
      assert (a + b)[0] == a[0] && (a + b)[1..] == a[1..] + b;
      assert a[0] + (Flatten(a[1..]) + Flatten(b)) == a[0] + Flatten(a[1..]) + Flatten(b);
    }
  }
}
