/** The canonical request of `sign_v4` (crates/ducklink-host/src/sigv4.rs:117-148; the signing
    steps proper are HMAC and SHA-256). */
module SignedHeaders {
  import opened Wrappers
  import opened Chars
  import Sorting

  type Header = (string, string)

  /** `to_ascii_lowercase`. */
  function LowerAll(s: string): (t: string)
    ensures |t| == |s|
  {
    if s == [] then [] else [Lower(s[0])] + LowerAll(s[1..])
  }

  function Normalized(h: Header): Header {
    (LowerAll(h.0), Trim(h.1))
  }

  predicate NameLeq(a: Header, b: Header) {
    Sorting.StrLeq(a.0, b.0)
  }

  /** The sorted list both header strings are written from. */
  function Canonical(headers: seq<Header>): seq<Header> {
    Sorting.Sort(Sorting.Map(headers, Normalized), NameLeq)
  }

  lemma NameOrder()
    ensures Sorting.TotalPreorder(NameLeq)
  {
    Sorting.StrOrder();
    forall a, b, c | NameLeq(a, b) && NameLeq(b, c) ensures NameLeq(a, c) {
      assert Sorting.StrLeq(a.0, b.0) && Sorting.StrLeq(b.0, c.0);
    }
    forall a, b ensures NameLeq(a, b) || NameLeq(b, a) {
      assert Sorting.StrLeq(a.0, b.0) || Sorting.StrLeq(b.0, a.0);
    }
  }

  lemma TiedNames(a: Header, b: Header)
    ensures NameLeq(a, b) && NameLeq(b, a) <==> a.0 == b.0
  {
    Sorting.StrOrder();
    assert Sorting.StrLeq(a.0, a.0) || Sorting.StrLeq(a.0, a.0);
  }

  /** No name, in lower case, is given two different values. */
  predicate OneValueEach(headers: seq<Header>) {
    forall j, k | 0 <= j < k < |headers| ::
      Normalized(headers[j]).0 == Normalized(headers[k]).0 ==> Normalized(headers[j]).1 == Normalized(headers[k]).1
  }

  /** Then the order in which the caller lists the headers does not matter, ... */
  lemma OrderIsIrrelevant(a: seq<Header>, b: seq<Header>)
    requires OneValueEach(a) && multiset(a) == multiset(b)
    ensures Canonical(a) == Canonical(b)
  {
    var na, nb := Sorting.Map(a, Normalized), Sorting.Map(b, Normalized);
    NameOrder();
    Sorting.MapPermuted(a, b, Normalized);
    forall x, y | x in na && y in na && NameLeq(x, y) && NameLeq(y, x) ensures x == y {
      TiedNames(x, y);
      var j :| 0 <= j < |na| && na[j] == x;
      var k :| 0 <= k < |na| && na[k] == y;
      assert j < k || k < j || j == k;
    }
    Sorting.SortOfPermutation(na, nb, NameLeq);
  }

  function Swapped(s: seq<Header>, j: nat, k: nat): (t: seq<Header>)
    requires j < k < |s|
    ensures multiset(t) == multiset(s)
  {
    s[j := s[k]][k := s[j]]
  }

  /** ... and otherwise it does: two headers that differ in value alone stay in the order given. */
  lemma OrderMatters(a: seq<Header>, j: nat, k: nat)
    requires j < k < |a| && Normalized(a[j]).0 == Normalized(a[k]).0 && Normalized(a[j]).1 != Normalized(a[k]).1
    ensures Canonical(Swapped(a, j, k)) != Canonical(a)
  {
    hide Sorting.Sort;
    var b := Swapped(a, j, k);
    var na, nb := Sorting.Map(a, Normalized), Sorting.Map(b, Normalized);
    var name := na[j].0;
    var f := (h: Header) => h.0 == name;
    forall x: Header, y: Header | f(x) && f(y) ensures NameLeq(x, y) { TiedNames(x, y); }
    Sorting.SortStable(na, NameLeq, f);
    Sorting.SortStable(nb, NameLeq, f);
    assert na[..j] == nb[..j];
    FilterAt(na, f, j);
    FilterAt(nb, f, j);
    assert Sorting.Filter(na, f)[|Sorting.Filter(na[..j], f)|] == na[j];
    assert Sorting.Filter(nb, f)[|Sorting.Filter(nb[..j], f)|] == nb[j];
  }

  lemma {:induction false} FilterAt(s: seq<Header>, f: Header -> bool, j: nat)
    requires j < |s| && f(s[j])
    ensures |Sorting.Filter(s[..j], f)| < |Sorting.Filter(s, f)|
      && Sorting.Filter(s, f)[|Sorting.Filter(s[..j], f)|] == s[j]
  {
    if j > 0 {
      FilterAt(s[1..], f, j - 1);
      assert s[..j][1..] == s[1..][..j - 1];
    }
  }

  /** The signature covers the header order exactly when some name has two values. */
  lemma OrderIrrelevantExactlyWhen(a: seq<Header>)
    ensures (forall b :: multiset(b) == multiset(a) ==> Canonical(b) == Canonical(a)) <==> OneValueEach(a)
  {
    hide Canonical;
    if OneValueEach(a) {
      forall b | multiset(b) == multiset(a) ensures Canonical(b) == Canonical(a) { OrderIsIrrelevant(a, b); }
    } else {
      var j,
          k :| 0 <= j < k < |a| && Normalized(a[j]).0 == Normalized(a[k]).0 && Normalized(a[j]).1 != Normalized(a[k]).1;
      OrderMatters(a, j, k);
      assert multiset(Swapped(a, j, k)) == multiset(a);
    }
  }

  // ---------------------------------------------------------------------------
  // The canonical request
  // ---------------------------------------------------------------------------

  function HeaderLine(h: Header): string {
    h.0 + ":" + h.1 + "\n"
  }

  function HeaderLines(hs: seq<Header>): string {
    if hs == [] then "" else HeaderLine(hs[0]) + HeaderLines(hs[1..])
  }

  function SignedNames(hs: seq<Header>): string {
    if hs == [] then "" else if |hs| == 1 then hs[0].0 else hs[0].0 + ";" + SignedNames(hs[1..])
  }

  datatype Request = Request(verb: string, uri: string, query: string, headers: seq<Header>, payloadHash: string)

  function CanonicalRequest(r: Request): string {
    var sorted := Canonical(r.headers);
    var tail := HeaderLines(sorted) + ("\n" + (SignedNames(sorted) + "\n" + r.payloadHash));
    r.verb + "\n" + (r.uri + "\n" + (r.query + "\n" + tail))
  }

  predicate OneLine(s: string) {
    forall k | 0 <= k < |s| :: s[k] != '\n'
  }

  predicate NoColon(s: string) {
    forall k | 0 <= k < |s| :: s[k] != ':'
  }

  predicate CleanHeaders(hs: seq<Header>) {
    forall k | 0 <= k < |hs| :: OneLine(hs[k].0) && NoColon(hs[k].0) && OneLine(hs[k].1)
  }

  predicate CleanRequest(r: Request) {
    OneLine(r.verb) && OneLine(r.uri) && OneLine(r.query) && CleanHeaders(Canonical(r.headers))
  }

  /** Text in front of the first `c` is determined. */
  lemma CutUnique(a: string, x: string, b: string, y: string, c: char)
    requires a + [c] + x == b + [c] + y
    requires (forall k :: 0 <= k < |a| ==> a[k] != c) && (forall k :: 0 <= k < |b| ==> b[k] != c)
    ensures a == b && x == y
  {
    var s, t := a + [c] + x, b + [c] + y;
    assert s[|a|] == c && t[|b|] == c;
    assert forall k | 0 <= k < |a| :: s[k] == a[k];
    assert forall k | 0 <= k < |b| :: t[k] == b[k];
    assert |a| == |b|;
    assert s[..|a|] == a && t[..|b|] == b && s[|a| + 1..] == x && t[|b| + 1..] == y;
  }

  lemma {:induction false} HeaderLinesUnique(a: seq<Header>, x: string, b: seq<Header>, y: string)
    requires CleanHeaders(a) && CleanHeaders(b) && HeaderLines(a) + ("\n" + x) == HeaderLines(b) + ("\n" + y)
    ensures a == b && x == y
  {
    var s, t := HeaderLines(a) + ("\n" + x), HeaderLines(b) + ("\n" + y);
    if a == [] {
      assert s == "\n" + x;
      if b != [] { LineNotBlank(b, y); }
      assert t == "\n" + y;
      assert s[1..] == x && t[1..] == y;
    } else if b == [] {
      LineNotBlank(a, x);
    } else {
      var p, q := a[0].0 + ":" + a[0].1, b[0].0 + ":" + b[0].1;
      var xs, ys := HeaderLines(a[1..]) + ("\n" + x), HeaderLines(b[1..]) + ("\n" + y);
      assert s == p + ['\n'] + xs;
      assert t == q + ['\n'] + ys;
      CutUnique(p, xs, q, ys, '\n');
      CutUnique(a[0].0, a[0].1, b[0].0, b[0].1, ':');
      HeaderLinesUnique(a[1..], x, b[1..], y);
      assert a == [a[0]] + a[1..] && b == [b[0]] + b[1..];
    }
  }

  lemma LineNotBlank(a: seq<Header>, x: string)
    requires a != [] && CleanHeaders(a)
    ensures HeaderLines(a) != [] && (HeaderLines(a) + ("\n" + x))[0] != '\n'
  {
    var h := a[0];
    assert HeaderLine(h) == h.0 + ":" + h.1 + "\n";
    assert (h.0 + ":" + h.1)[0] == if h.0 == "" then ':' else h.0[0];
  }

  /** What is signed says everything: verb, path, query, every header and the payload hash. */
  lemma RequestIsDetermined(r: Request, s: Request)
    requires CleanRequest(r) && CleanRequest(s)
    ensures CanonicalRequest(r) == CanonicalRequest(s) <==>
      r.verb == s.verb && r.uri == s.uri && r.query == s.query && Canonical(r.headers) == Canonical(s.headers)
        && r.payloadHash == s.payloadHash
  {
    hide Canonical, SignedNames;
    if CanonicalRequest(r) == CanonicalRequest(s) {
      var hr, hs := Canonical(r.headers), Canonical(s.headers);
      var nr, ns := SignedNames(hr) + "\n" + r.payloadHash, SignedNames(hs) + "\n" + s.payloadHash;
      var r3, s3 := HeaderLines(hr) + ("\n" + nr), HeaderLines(hs) + ("\n" + ns);
      var r2, s2 := r.query + "\n" + r3, s.query + "\n" + s3;
      CutUnique(r.verb, r.uri + "\n" + r2, s.verb, s.uri + "\n" + s2, '\n');
      CutUnique(r.uri, r2, s.uri, s2, '\n');
      CutUnique(r.query, r3, s.query, s3, '\n');
      HeaderLinesUnique(hr, nr, hs, ns);
      var m := |SignedNames(hr)| + 1;
      assert nr[m..] == r.payloadHash && ns[m..] == s.payloadHash;
    }
  }

  // ---------------------------------------------------------------------------
  // What the canonical text holds
  // ---------------------------------------------------------------------------

  /** The parts between the occurrences of `c`. */
  function Cut(s: string, c: char): (parts: seq<string>)
    ensures parts != []
  {
    if s == [] then [[]] else
    var rest := Cut(s[1..], c);
    if s[0] == c then [[]] + rest else [[s[0]] + rest[0]] + rest[1..]
  }

  lemma {:induction false} CutFront(a: string, c: char, x: string)
    requires c !in a
    ensures Cut(a + ([c] + x), c) == [a] + Cut(x, c)
  {
    var s := a + ([c] + x);
    if a == [] {
      assert s == [c] + x && s[1..] == x;
    } else {
      assert a[0] in a && forall d :: d in a[1..] ==> d in a;
      assert s[1..] == a[1..] + ([c] + x);
      CutFront(a[1..], c, x);
      assert [a[0]] + a[1..] == a;
    }
  }

  lemma {:induction false} CutNowhere(a: string, c: char)
    requires c !in a
    ensures Cut(a, c) == [a]
  {
    if a != [] {
      assert a[0] in a && forall d :: d in a[1..] ==> d in a;
      CutNowhere(a[1..], c);
      assert [a[0]] + a[1..] == a;
    }
  }

  lemma {:induction false} HeaderLinesCut(hs: seq<Header>, x: string)
    requires forall k :: 0 <= k < |hs| ==> '\n' !in hs[k].0 && '\n' !in hs[k].1
    ensures var ls := Cut(HeaderLines(hs) + x, '\n');
      && |ls| == |hs| + |Cut(x, '\n')| && ls[|hs|..] == Cut(x, '\n')
      && forall k :: 0 <= k < |hs| ==> ls[k] == hs[k].0 + ":" + hs[k].1
  {
    if hs == [] {
      assert HeaderLines(hs) + x == x;
    } else {
      var line, more := hs[0].0 + ":" + hs[0].1, HeaderLines(hs[1..]) + x;
      assert HeaderLines(hs) + x == line + (['\n'] + more);
      CutFront(line, '\n', more);
      HeaderLinesCut(hs[1..], x);
    }
  }

  lemma {:induction false} NamesAreJoined(hs: seq<Header>, names: seq<string>)
    requires |names| == |hs| && forall k :: 0 <= k < |hs| ==> names[k] == hs[k].0
    ensures SignedNames(hs) == JoinWith(names, ";")
    ensures (forall k :: 0 <= k < |hs| ==> '\n' !in hs[k].0) ==> '\n' !in SignedNames(hs)
  {
    if |hs| > 1 { NamesAreJoined(hs[1..], names[1..]); }
  }

  lemma RowsBehind(hs: seq<Header>, hash: string)
    requires '\n' !in hash && forall k :: 0 <= k < |hs| ==> '\n' !in hs[k].0 && '\n' !in hs[k].1
    ensures var ls, n := Cut(HeaderLines(hs) + (['\n'] + (SignedNames(hs) + (['\n'] + hash))), '\n'), |hs|;
      && |ls| == n + 3
      && (forall k :: 0 <= k < n ==> ls[k] == hs[k].0 + ":" + hs[k].1)
      && ls[n] == "" && ls[n + 1] == SignedNames(hs) && ls[n + 2] == hash
  {
    hide SignedNames, HeaderLines;
    var names := seq(|hs|, (k: nat) requires k < |hs| => hs[k].0);
    NamesAreJoined(hs, names);
    var last := SignedNames(hs) + (['\n'] + hash);
    CutFront("", '\n', last);
    assert "" + (['\n'] + last) == ['\n'] + last;
    CutFront(SignedNames(hs), '\n', hash);
    CutNowhere(hash, '\n');
    HeaderLinesCut(hs, ['\n'] + last);
    var ls, n := Cut(HeaderLines(hs) + (['\n'] + last), '\n'), |hs|;
    var end := ls[n..];
    assert ls[n] == end[0] && ls[n + 1] == end[1] && ls[n + 2] == end[2];
  }

  /** Cut at its newlines the text is verb, path, query, one `name:value` line for each sorted
      header, an empty line, the names between semicolons, and the payload hash. */
  lemma RequestLines(r: Request, hs: seq<Header>, names: seq<string>)
    requires '\n' !in r.verb && '\n' !in r.uri && '\n' !in r.query && '\n' !in r.payloadHash
    requires hs == Canonical(r.headers) && forall k :: 0 <= k < |hs| ==> '\n' !in hs[k].0 && '\n' !in hs[k].1
    requires |names| == |hs| && forall k :: 0 <= k < |hs| ==> names[k] == hs[k].0
    ensures var ls, n := Cut(CanonicalRequest(r), '\n'), |hs|;
      && |ls| == n + 6
      && ls[0] == r.verb && ls[1] == r.uri && ls[2] == r.query
      && (forall k :: 0 <= k < n ==> ls[3 + k] == hs[k].0 + ":" + hs[k].1)
      && ls[n + 3] == "" && ls[n + 4] == JoinWith(names, ";") && ls[n + 5] == r.payloadHash
  {
    hide SignedNames, HeaderLines, Canonical, Cut;
    NamesAreJoined(hs, names);
    RowsBehind(hs, r.payloadHash);
    var tail := HeaderLines(hs) + (['\n'] + (SignedNames(hs) + (['\n'] + r.payloadHash)));
    TextOf(r, tail);
    CutFront(r.verb, '\n', r.uri + (['\n'] + (r.query + (['\n'] + tail))));
    CutFront(r.uri, '\n', r.query + (['\n'] + tail));
    CutFront(r.query, '\n', tail);
    var ls, rows := Cut(CanonicalRequest(r), '\n'), Cut(tail, '\n');
    assert ls == [r.verb, r.uri, r.query] + rows;
  }

  lemma TextOf(r: Request, tail: string)
    requires var hs := Canonical(r.headers);
      tail == HeaderLines(hs) + (['\n'] + (SignedNames(hs) + (['\n'] + r.payloadHash)))
    ensures CanonicalRequest(r) == r.verb + (['\n'] + (r.uri + (['\n'] + (r.query + (['\n'] + tail)))))
  {
    hide SignedNames, HeaderLines, Canonical;
    var hs := Canonical(r.headers);
    assert "\n" + (SignedNames(hs) + "\n" + r.payloadHash) == ['\n'] + (SignedNames(hs) + (['\n'] + r.payloadHash));
    assert r.verb + "\n" + (r.uri + "\n" + (r.query + "\n" + tail)) ==
      r.verb + (['\n'] + (r.uri + (['\n'] + (r.query + (['\n'] + tail)))));
  }

  /** `name` is `given` in lower case, and `value` is `raw` without white space at either end. */
  ghost predicate IsNormalized(name: string, value: string, given: string, raw: string) {
    && EqIgnoreCase(name, given) && (forall c :: c in name ==> !('A' <= c <= 'Z'))
    && (exists lead, trail :: Blank(lead) && Blank(trail) && raw == lead + value + trail)
    && (value != "" ==> !IsSpace(value[0]) && !IsSpace(value[|value| - 1]))
  }

  lemma {:induction false} LowerAllIs(s: string)
    ensures EqIgnoreCase(LowerAll(s), s) && forall c :: c in LowerAll(s) ==> !('A' <= c <= 'Z')
  {
    if s != [] {
      LowerAllIs(s[1..]);
      assert forall k :: 0 < k < |s| ==> s[k] == s[1..][k - 1] && LowerAll(s)[k] == LowerAll(s[1..])[k - 1];
    }
  }

  lemma {:induction false} TrimStartIs(s: string) returns (lead: string)
    ensures Blank(lead) && s == lead + TrimStart(s) && (TrimStart(s) != "" ==> !IsSpace(TrimStart(s)[0]))
  {
    if s != [] && IsSpace(s[0]) {
      var more := TrimStartIs(s[1..]);
      lead := [s[0]] + more;
    } else {
      lead := "";
    }
  }

  lemma {:induction false} TrimEndIs(s: string) returns (trail: string)
    ensures Blank(trail) && s == TrimEnd(s) + trail
    ensures TrimEnd(s) != "" ==> TrimEnd(s)[0] == s[0] && !IsSpace(TrimEnd(s)[|TrimEnd(s)| - 1])
  {
    if s != [] && IsSpace(s[|s| - 1]) {
      var more := TrimEndIs(s[..|s| - 1]);
      trail := more + [s[|s| - 1]];
    } else {
      trail := "";
    }
  }

  lemma NormalizedIs(h: Header)
    ensures IsNormalized(Normalized(h).0, Normalized(h).1, h.0, h.1)
  {
    LowerAllIs(h.0);
    var lead := TrimStartIs(h.1);
    var trail := TrimEndIs(TrimStart(h.1));
    assert h.1 == lead + Trim(h.1) + trail;
  }

  /** The sorted list holds each header of the caller once, its name in lower case and its value
      trimmed, by ascending name. */
  lemma HeadersAreNormalized(headers: seq<Header>) returns (given: seq<Header>)
    ensures var hs := Canonical(headers);
      && multiset(given) == multiset(hs) && |given| == |hs| == |headers|
      && (forall k :: 0 <= k < |given| ==> IsNormalized(given[k].0, given[k].1, headers[k].0, headers[k].1))
      && (forall j, k :: 0 <= j < k < |hs| ==> Sorting.Ascending(hs[j].0, hs[k].0))
  {
    hide Sorting.Sort, Sorting.Ascending;
    given := Sorting.Map(headers, Normalized);
    var hs := Canonical(headers);
    Sorting.SortPermutes(given, NameLeq);
    NameOrder();
    Sorting.SortSorts(given, NameLeq);
    forall k | 0 <= k < |given| ensures IsNormalized(given[k].0, given[k].1, headers[k].0, headers[k].1) {
      NormalizedIs(headers[k]);
    }
    forall j, k | 0 <= j < k < |hs| ensures Sorting.Ascending(hs[j].0, hs[k].0) {
      assert NameLeq(hs[j], hs[k]);
      Sorting.StrLeqIsAscending(hs[j].0, hs[k].0);
    }
  }
}
