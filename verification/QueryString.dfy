/** The canonical query string of the request signature (AWS Signature Version 4,
    creation of the canonical request). */
module QueryString {
  import opened Text

  datatype Param = Param(name: string, value: string)

  // ---------- splitting and joining ----------

  function Find(s: string, c: char): (i: nat)
    requires c in s
    ensures i < |s| && s[i] == c && c !in s[..i]
  {
    if s[0] == c then 0
    else
      var i := Find(s[1..], c);
      assert s[..i + 1] == [s[0]] + s[1..][..i];
      i + 1
  }

  lemma FindIn(a: string, c: char, b: string)
    requires c !in a
    ensures c in a + [c] + b && Find(a + [c] + b, c) == |a|
  {
    var s := a + [c] + b;
    assert s[|a|] == c;
    var i := Find(s, c);
    assert forall j :: 0 <= j < |a| ==> s[j] == a[j];
    assert forall j :: 0 <= j < i ==> s[j] == s[..i][j];
  }

  function Split(s: string): (parts: seq<string>)
    ensures parts != [] && forall p :: p in parts ==> '&' !in p
  {
    if '&' !in s then [s] else var i := Find(s, '&'); [s[..i]] + Split(s[i + 1..])
  }

  function Join(parts: seq<string>): string {
    if parts == [] then ""
    else if |parts| == 1 then parts[0]
    else parts[0] + ['&'] + Join(parts[1..])
  }

  lemma SplitHead(a: string, rest: string)
    requires '&' !in a
    ensures Split(a + ['&'] + rest) == [a] + Split(rest)
  {
    FindIn(a, '&', rest);
    var s := a + ['&'] + rest;
    assert s[..|a|] == a && s[|a| + 1..] == rest;
  }

  lemma {:induction false} SplitJoin(parts: seq<string>)
    requires parts != [] && forall p :: p in parts ==> '&' !in p
    ensures Split(Join(parts)) == parts
  {
    assert parts[0] in parts;
    if |parts| > 1 {
      SplitJoin(parts[1..]);
      SplitHead(parts[0], Join(parts[1..]));
      assert parts == [parts[0]] + parts[1..];
    }
  }

  function ParamOf(part: string): (p: Param)
    ensures '=' !in p.name
    ensures '&' !in part ==> '&' !in p.name && '&' !in p.value
  {
    if '=' in part then var i := Find(part, '='); Param(part[..i], part[i + 1..]) else Param(part, "")
  }

  function Format(p: Param): string {
    p.name + ['='] + p.value
  }

  /** How parameters are written and put together. */
  lemma FormatExactly(p: Param, q: Param)
    ensures Format(p) == p.name + "=" + p.value
    ensures Join(FormatAll([p])) == Format(p)
    ensures Join(FormatAll([p, q])) == Format(p) + "&" + Format(q)
  {
    assert FormatAll([p]) == [Format(p)];
    assert FormatAll([p, q]) == [Format(p), Format(q)];
    assert [Format(p), Format(q)][1..] == [Format(q)];
  }

  /** A piece of the query is cut at its first equals sign, and has no value without one. */
  lemma ParamExactly(part: string)
    ensures var p := ParamOf(part);
            if '=' in part then part == p.name + "=" + p.value else p == Param(part, "")
  {
    if '=' in part {
      var i := Find(part, '=');
      assert part == part[..i] + [part[i]] + part[i + 1..];
    }
  }

  lemma ParamOfFormat(p: Param)
    requires '=' !in p.name
    ensures ParamOf(Format(p)) == p
  {
    FindIn(p.name, '=', p.value);
    var s := Format(p);
    assert s[..|p.name|] == p.name && s[|p.name| + 1..] == p.value;
  }

  function ParamsOf(parts: seq<string>): (ps: seq<Param>)
    ensures |ps| == |parts| && forall i :: 0 <= i < |ps| ==> ps[i] == ParamOf(parts[i])
  {
    seq(|parts|, i requires 0 <= i < |parts| => ParamOf(parts[i]))
  }

  function FormatAll(ps: seq<Param>): (parts: seq<string>)
    ensures |parts| == |ps| && forall i :: 0 <= i < |parts| ==> parts[i] == Format(ps[i])
  {
    seq(|ps|, i requires 0 <= i < |ps| => Format(ps[i]))
  }

  function Params(query: string): (ps: seq<Param>)
    ensures ps != []
  {
    ParamsOf(Split(query))
  }

  /** A parameter as it comes out of a query. */
  predicate Clean(p: Param) {
    '=' !in p.name && '&' !in p.name && '&' !in p.value
  }

  lemma ParamsAreClean(query: string)
    ensures forall p :: p in Params(query) ==> Clean(p)
  {
    var parts := Split(query);
    forall i | 0 <= i < |parts|
      ensures Clean(ParamOf(parts[i]))
    {
      assert parts[i] in parts;
    }
  }

  /** Parsing a formatted parameter list gives the list back. */
  lemma ParamsRoundTrip(ps: seq<Param>)
    requires ps != [] && forall p :: p in ps ==> Clean(p)
    ensures Params(Join(FormatAll(ps))) == ps
  {
    var parts := FormatAll(ps);
    forall i | 0 <= i < |ps|
      ensures '&' !in parts[i] && ParamOf(parts[i]) == ps[i]
    {
      assert ps[i] in ps;
      ParamOfFormat(ps[i]);
    }
    SplitJoin(parts);
  }

  // ---------- sorting ----------

  /** By name, then by value. */
  predicate Precedes(p: Param, q: Param) {
    Less(p.name, q.name) || (p.name == q.name && AtMost(p.value, q.value))
  }

  /** Of two parameters with different names the one whose name is smaller at the first difference
      comes first; of two with one name, the one whose value is. */
  lemma PrecedesExactly(p: Param, q: Param)
    ensures p.name != q.name ==> (Precedes(p, q) <==> exists i: nat :: SmallerAt(p.name, q.name, i))
    ensures p.name == q.name && p.value != q.value ==> (Precedes(p, q) <==> exists i: nat :: SmallerAt(p.value, q.value, i))
    ensures p == q ==> Precedes(p, q)
  {
    LessExactly(p.name, q.name);
    LessExactly(p.value, q.value);
    LessIrreflexive(p.name);
  }

  lemma PrecedesTotal(p: Param, q: Param)
    ensures Precedes(p, q) || Precedes(q, p)
  {
    LessTotal(p.name, q.name);
    LessTotal(p.value, q.value);
  }

  lemma PrecedesTransitive(p: Param, q: Param, r: Param)
    requires Precedes(p, q) && Precedes(q, r)
    ensures Precedes(p, r)
  {
    if Less(p.name, q.name) && Less(q.name, r.name) {
      LessTransitive(p.name, q.name, r.name);
    } else if p.name == q.name == r.name && Less(p.value, q.value) && Less(q.value, r.value) {
      LessTransitive(p.value, q.value, r.value);
    }
  }

  lemma PrecedesAntisymmetric(p: Param, q: Param)
    requires Precedes(p, q) && Precedes(q, p)
    ensures p == q
  {
    if Less(p.name, q.name) {
      LessAsymmetric(p.name, q.name);
    } else if Less(p.value, q.value) {
      LessIrreflexive(p.name);
      LessAsymmetric(p.value, q.value);
    }
  }

  ghost predicate Sorted(ps: seq<Param>) {
    forall i, j :: 0 <= i < j < |ps| ==> Precedes(ps[i], ps[j])
  }

  lemma FirstIsLeast(ps: seq<Param>, p: Param)
    requires Sorted(ps) && p in multiset(ps)
    ensures ps != [] && Precedes(ps[0], p)
  {
    assert p in ps;
    var i :| 0 <= i < |ps| && ps[i] == p;
  }

  lemma SameSize<T>(a: seq<T>, b: seq<T>)
    requires multiset(a) == multiset(b)
    ensures |a| == |b|
  {
    assert |multiset(a)| == |a| && |multiset(b)| == |b|;
  }

  /** A multiset of parameters has only one sorted order. */
  lemma {:induction false} SortedIsUnique(a: seq<Param>, b: seq<Param>)
    requires Sorted(a) && Sorted(b) && multiset(a) == multiset(b)
    ensures a == b
  {
    SameSize(a, b);
    if a != [] {
      assert a[0] in multiset(a);
      FirstIsLeast(b, a[0]);
      assert b[0] in multiset(b);
      FirstIsLeast(a, b[0]);
      PrecedesAntisymmetric(a[0], b[0]);
      assert a == [a[0]] + a[1..] && b == [b[0]] + b[1..];
      assert multiset(a[1..]) == multiset(a) - multiset{a[0]};
      assert multiset(b[1..]) == multiset(b) - multiset{b[0]};
      SortedIsUnique(a[1..], b[1..]);
    }
  }

  function Insert(p: Param, ps: seq<Param>): (r: seq<Param>)
    ensures multiset(r) == multiset(ps) + multiset{p}
  {
    if ps == [] || Precedes(p, ps[0]) then [p] + ps
    else
      assert ps == [ps[0]] + ps[1..];
      [ps[0]] + Insert(p, ps[1..])
  }

  lemma {:induction false} InsertKeepsSorted(p: Param, ps: seq<Param>)
    requires Sorted(ps)
    ensures Sorted(Insert(p, ps))
  {
    var r := Insert(p, ps);
    if ps == [] {
    } else if Precedes(p, ps[0]) {
      forall j | 0 <= j < |ps|
        ensures Precedes(p, ps[j])
      {
        if 0 < j {
          PrecedesTransitive(p, ps[0], ps[j]);
        }
      }
    } else {
      InsertKeepsSorted(p, ps[1..]);
      PrecedesTotal(p, ps[0]);
      var rest := Insert(p, ps[1..]);
      forall j | 0 <= j < |rest|
        ensures Precedes(ps[0], rest[j])
      {
        assert rest[j] in multiset(rest);
        if rest[j] != p {
          assert rest[j] in multiset(ps[1..]);
          assert rest[j] in ps[1..];
          var k :| 0 <= k < |ps[1..]| && ps[1..][k] == rest[j];
          assert ps[k + 1] == rest[j];
        }
      }
      assert r == [ps[0]] + rest;
    }
  }

  /** `sort_by` on the parameter vector. */
  method SortParams(params: seq<Param>) returns (sorted: seq<Param>)
    ensures Sorted(sorted) && multiset(sorted) == multiset(params)
  {
    sorted := [];
    for i := 0 to |params|
      invariant Sorted(sorted) && multiset(sorted) == multiset(params[..i])
    {
      InsertKeepsSorted(params[i], sorted);
      sorted := Insert(params[i], sorted);
      assert params[..i + 1] == params[..i] + [params[i]];
    }
    assert params[..|params|] == params;
  }

  // ---------- the canonical string ----------

  /** What a canonical string of a query is: its parameters in order, formatted and joined. */
  ghost predicate IsCanonical(query: string, canonical: string) {
    if query == "" then canonical == ""
    else exists ps :: Sorted(ps) && multiset(ps) == multiset(Params(query)) && canonical == Join(FormatAll(ps))
  }

  method Canonicalize(query: string) returns (canonical: string)
    ensures IsCanonical(query, canonical)
  {
    if query == "" {
      return "";
    }
    var params := Params(query);
    var sorted := SortParams(params);
    canonical := Join(FormatAll(sorted));
  }

  /** The sorted parameter list of a nonempty query can be read back from its canonical form. */
  lemma CanonicalParams(query: string, canonical: string) returns (ps: seq<Param>)
    requires query != "" && IsCanonical(query, canonical)
    ensures Sorted(ps) && multiset(ps) == multiset(Params(query))
    ensures canonical == Join(FormatAll(ps)) && Params(canonical) == ps && canonical != ""
  {
    ps :| Sorted(ps) && multiset(ps) == multiset(Params(query)) && canonical == Join(FormatAll(ps));
    ParamsAreClean(query);
    forall p | p in ps
      ensures Clean(p)
    {
      assert p in multiset(ps);
      assert p in Params(query);
    }
    SameSize(ps, Params(query));
    ParamsRoundTrip(ps);
    NotEmpty(ps);
  }

  lemma NotEmpty(ps: seq<Param>)
    requires ps != []
    ensures Join(FormatAll(ps)) != ""
  {
    var parts := FormatAll(ps);
    assert parts[0][|ps[0].name|] == '=';
  }

  /** Two requests get the same canonical string exactly when both queries are empty or both
      are not and they hold the same parameters equally often, in whatever order. */
  lemma CanonicalExactly(q1: string, c1: string, q2: string, c2: string)
    requires IsCanonical(q1, c1) && IsCanonical(q2, c2)
    ensures c1 == c2 <==> (q1 == "" && q2 == "") || (q1 != "" && q2 != "" && multiset(Params(q1)) == multiset(Params(q2)))
  {
    if q1 != "" && q2 != "" {
      var p1 := CanonicalParams(q1, c1);
      var p2 := CanonicalParams(q2, c2);
      if multiset(Params(q1)) == multiset(Params(q2)) {
        SortedIsUnique(p1, p2);
      }
    } else if q1 != "" {
      var p1 := CanonicalParams(q1, c1);
    } else if q2 != "" {
      var p2 := CanonicalParams(q2, c2);
    }
  }

  /** Canonicalizing a canonical string gives it back. */
  lemma CanonicalIsIdempotent(query: string, canonical: string, again: string)
    requires IsCanonical(query, canonical) && IsCanonical(canonical, again)
    ensures again == canonical
  {
    if query != "" {
      var ps := CanonicalParams(query, canonical);
      var qs := CanonicalParams(canonical, again);
      SortedIsUnique(ps, qs);
    }
  }

  /** Reordering the `&`-separated pieces of a query does not change its canonical string. */
  lemma ReorderingIsInvisible(q1: string, c1: string, q2: string, c2: string)
    requires IsCanonical(q1, c1) && IsCanonical(q2, c2)
    requires multiset(Split(q1)) == multiset(Split(q2))
    ensures c1 == c2
  {
    MapKeepsMultiset(Split(q1), Split(q2));
    EmptyOnlyFromEmpty(q1, q2);
    EmptyOnlyFromEmpty(q2, q1);
    CanonicalExactly(q1, c1, q2, c2);
  }

  lemma EmptyOnlyFromEmpty(q1: string, q2: string)
    requires multiset(Split(q1)) == multiset(Split(q2))
    ensures q1 == "" ==> q2 == ""
  {
    if q1 == "" {
      assert multiset(Split(q1)) == multiset{""};
      SameSize(Split(q1), Split(q2));
      assert Split(q2)[0] in multiset(Split(q2));
      assert Split(q2) == [q2];
    }
  }

  function Without<T>(s: seq<T>, k: nat): seq<T>
    requires k < |s|
  {
    s[..k] + s[k + 1..]
  }

  lemma TakeOut<T>(s: seq<T>, k: nat)
    requires k < |s|
    ensures multiset(s) == multiset(Without(s, k)) + multiset{s[k]}
  {
    assert s == s[..k] + [s[k]] + s[k + 1..];
  }

  lemma CancelOne<T>(m: multiset<T>, n: multiset<T>, x: T)
    requires m + multiset{x} == n + multiset{x}
    ensures m == n
  {
    assert m == m + multiset{x} - multiset{x} && n == n + multiset{x} - multiset{x};
  }

  lemma ParamsWithout(parts: seq<string>, k: nat)
    requires k < |parts|
    ensures ParamsOf(Without(parts, k)) == Without(ParamsOf(parts), k)
  {
  }

  /** Equal multisets of pieces give equal multisets of parameters. */
  lemma {:induction false} MapKeepsMultiset(a: seq<string>, b: seq<string>)
    requires multiset(a) == multiset(b)
    ensures multiset(ParamsOf(a)) == multiset(ParamsOf(b))
    decreases |a|
  {
    SameSize(a, b);
    if a != [] {
      assert a[0] in multiset(b);
      var k :| 0 <= k < |b| && b[k] == a[0];
      TakeOut(a, 0);
      TakeOut(b, k);
      CancelOne(multiset(Without(a, 0)), multiset(Without(b, k)), a[0]);
      MapKeepsMultiset(Without(a, 0), Without(b, k));
      ParamsWithout(a, 0);
      ParamsWithout(b, k);
      TakeOut(ParamsOf(a), 0);
      TakeOut(ParamsOf(b), k);
    }
  }
}
