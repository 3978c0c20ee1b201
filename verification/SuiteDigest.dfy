/** The text a suite digest is taken over
    (crates/ducklink-host/src/resolver.rs:346-401, tooling/conformance.py:94-97). */
module SuiteDigest {
  import opened Wrappers
  import opened Suite
  import Utf8

  const DOMAIN := "duckdb:conformance-suite:1\n"
  const SEP := ['\n', RS, '\n']

  function PreImage(sql: string, expected: string): string {
    DOMAIN + sql + SEP + expected
  }

  function Bytes8(s: string): Bytes {
    if s == [] then [] else Utf8.Encode(s[0]) + Bytes8(s[1..])
  }

  /** The bytes that are hashed. */
  function SuiteBytes(d: Dialect, sql: string, expected: string): Bytes {
    Bytes8(PreImage(Normal(d, Sql, sql), Normal(d, Expected, expected)))
  }

  lemma EncodePrefixFree(c: char, x: Bytes, e: char, y: Bytes)
    requires Utf8.Encode(c) + x == Utf8.Encode(e) + y
    ensures c == e && x == y
  {
    var a, b := Utf8.Encode(c) + x, Utf8.Encode(e) + y;
    assert a[0] == Utf8.Encode(c)[0] && b[0] == Utf8.Encode(e)[0];
    FirstByte(c);
    FirstByte(e);
    var n := |Utf8.Encode(c)|;
    assert |Utf8.Encode(e)| == n;
    assert forall k | 0 <= k < n :: a[k] == Utf8.Encode(c)[k] && b[k] == Utf8.Encode(e)[k];
    assert Utf8.Encode(c) == Utf8.Encode(e);
    assert a[n..] == x && b[n..] == y;
    Decoded(c);
    Decoded(e);
  }

  /** The first byte tells the length. */
  lemma FirstByte(c: char)
    ensures var b := Utf8.Encode(c);
            |b| == if b[0] < 0x80 then 1 else if b[0] < 0xE0 then 2 else if b[0] < 0xF0 then 3 else 4
  {}

  function CodePoint(b: seq<int>): int
    requires 1 <= |b| <= 4
  {
    if |b| == 1 then b[0]
    else if |b| == 2 then (b[0] - 0xC0) * 0x40 + (b[1] - 0x80)
    else if |b| == 3 then (b[0] - 0xE0) * 0x1000 + (b[1] - 0x80) * 0x40 + (b[2] - 0x80)
    else (b[0] - 0xF0) * 0x4_0000 + (b[1] - 0x80) * 0x1000 + (b[2] - 0x80) * 0x40 + (b[3] - 0x80)
  }

  /** The first byte carries the length and the high bits, the others six bits each (section 3 of
      RFC 3629). */
  lemma Decoded(c: char)
    ensures CodePoint(Utf8.Encode(c)) == c as int
    ensures var b := Utf8.Encode(c);
      && (forall k :: 0 < k < |b| ==> 0x80 <= b[k] < 0xC0)
      && (|b| == 2 ==> 0xC2 <= b[0] < 0xE0) && (|b| == 3 ==> 0xE0 <= b[0] < 0xF0) && (|b| == 4 ==> 0xF0 <= b[0] < 0xF5)
  {
    var n := c as int;
    assert n / 0x1000 == n / 0x40 / 0x40 && n / 0x4_0000 == n / 0x40 / 0x40 / 0x40;
  }

  lemma {:induction false} BytesInjective(s: string, t: string)
    requires Bytes8(s) == Bytes8(t)
    ensures s == t
  {
    if s != [] && t != [] {
      EncodePrefixFree(s[0], Bytes8(s[1..]), t[0], Bytes8(t[1..]));
      BytesInjective(s[1..], t[1..]);
      assert s == [s[0]] + s[1..] && t == [t[0]] + t[1..];
    }
  }

  predicate FreeOfRS(s: string) {
    forall k | 0 <= k < |s| :: s[k] != RS
  }

  /** The pre-image tells the parts apart when no SQL part holds the separator character. */
  lemma PreImageInjective(a: string, b: string, c: string, e: string)
    requires PreImage(a, b) == PreImage(c, e) && FreeOfRS(a) && FreeOfRS(c)
    ensures a == c && b == e
  {
    var n := |DOMAIN|;
    var s := PreImage(a, b);
    assert FreeOfRS(DOMAIN);
    assert s[n + |a| + 1] == RS && s[n + |c| + 1] == RS;
    assert forall k | 0 <= k < n + |a| + 1 :: s[k] != RS;
    assert forall k | 0 <= k < n + |c| + 1 :: s[k] != RS;
    assert |a| == |c|;
    assert s[n..n + |a|] == a && PreImage(c, e)[n..n + |a|] == c;
    assert s[n + |a| + 3..] == b && PreImage(c, e)[n + |a| + 3..] == e;
  }

  /** Two suites hash the same bytes exactly when their normal forms agree, if no normal form of
      the SQL holds the separator character. */
  lemma SameBytesSameSuite(d: Dialect, sql: string, expected: string, sql': string, expected': string)
    requires FreeOfRS(Normal(d, Sql, sql)) && FreeOfRS(Normal(d, Sql, sql'))
    ensures SuiteBytes(d, sql, expected) == SuiteBytes(d, sql', expected') <==>
      KeptOf(d, Sql, sql) == KeptOf(d, Sql, sql') && KeptOf(d, Expected, expected) == KeptOf(d, Expected, expected')
  {
    hide Normal, KeptOf, PreImage;
    if SuiteBytes(d, sql, expected) == SuiteBytes(d, sql', expected') {
      BytesInjective(PreImage(Normal(d, Sql, sql), Normal(d, Expected, expected)),
          PreImage(Normal(d, Sql, sql'), Normal(d, Expected, expected')));
      PreImageInjective(Normal(d, Sql, sql), Normal(d, Expected, expected), Normal(d, Sql, sql'),
          Normal(d, Expected, expected'));
    }
    SameNormalSameLines(d, Sql, sql, sql');
    SameNormalSameLines(d, Expected, expected, expected');
  }

  lemma {:induction false} JoinFree(ls: seq<string>)
    requires forall k :: 0 <= k < |ls| ==> FreeOfRS(ls[k])
    ensures FreeOfRS(Join(ls))
  {
    if |ls| > 1 {
      JoinFree(ls[1..]);
      assert FreeOfRS(ls[0]) && FreeOfRS("\n");
    }
  }

  /** In Python the separator character ends a line, so no normal form ever holds it. */
  lemma PythonIsFree(p: Part, text: string)
    ensures FreeOfRS(Normal(Python, p, text))
  {
    NormalReadsBack(Python, p, text);
    var ls := KeptOf(Python, p, text);
    forall k | 0 <= k < |ls| ensures FreeOfRS(ls[k]) {
      assert Canonical(Python, p, ls[k]);
      forall j | 0 <= j < |ls[k]| ensures ls[k][j] != RS {
        assert !LineBreak(Python, ls[k][j]);
      }
    }
    JoinFree(ls);
  }

  /** In Rust it is an ordinary character: two suites, both in normal form, with one pre-image. */
  lemma RustCollides()
    ensures var (a, b, c, e) := ("x", ['y', '\n', RS, '\n', 'z'], ['x', '\n', RS, '\n', 'y'], "z");
            && Normal(Rust, Sql, a) == a && Normal(Rust, Expected, b) == b
            && Normal(Rust, Sql, c) == c && Normal(Rust, Expected, e) == e
            && PreImage(a, b) == PreImage(c, e) && a != c
  {
    hide Normal;
    NormalOfOne(Sql, 'x');
    NormalOfOne(Expected, 'z');
    NormalOfThree(Expected, 'y', RS, 'z');
    NormalOfThree(Sql, 'x', RS, 'y');
  }

  lemma OneCharCanonical(p: Part, c: char)
    requires c in "xyz" || c == RS
    ensures Canonical(Rust, p, [c])
  {
    assert StripEnd(Rust, [c]) == [c] && StripStart(Rust, [c]) == [c];
  }

  lemma NormalOfOne(p: Part, c: char)
    requires c in "xyz" || c == RS
    ensures Normal(Rust, p, [c]) == [c]
  {
    OneCharCanonical(p, c);
    LinesOfJoin(Rust, p, [[c]]);
    KeptOfCanonical(Rust, p, [[c]]);
  }

  lemma NormalOfThree(p: Part, c: char, m: char, e: char)
    requires c in "xyz" && m == RS && e in "xyz"
    ensures Normal(Rust, p, [c, '\n', m, '\n', e]) == [c, '\n', m, '\n', e]
  {
    var ls := [[c], [m], [e]];
    OneCharCanonical(p, c);
    OneCharCanonical(p, m);
    OneCharCanonical(p, e);
    assert ls[1..] == [[m], [e]] && ls[1..][1..] == [[e]];
    assert Join([[e]]) == [e];
    assert Join([[m], [e]]) == [m] + "\n" + [e];
    assert Join(ls) == [c] + "\n" + ([m] + "\n" + [e]);
    assert Join(ls) == [c, '\n', m, '\n', e];
    LinesOfJoin(Rust, p, ls);
    KeptOfCanonical(Rust, p, ls);
  }

  // ---------------------------------------------------------------------------
  // When a Rust pre-image is ambiguous
  // ---------------------------------------------------------------------------

  const RS_LINE: string := [RS]

  /** The expected part could end later: the separator character stands alone on one of its
      lines, not the last, and the lines in front would be kept in the SQL part too. */
  ghost predicate SplitsLater(es: seq<string>) {
    exists k :: 0 <= k < |es| - 1 && es[k] == RS_LINE && AllCanonical(Rust, Sql, es[..k])
  }

  /** The SQL part could end earlier: the character stands alone on one of its lines, not the
      first, and the lines behind would be kept in the expected part too. */
  ghost predicate SplitsEarlier(ls: seq<string>) {
    exists k :: 0 < k < |ls| && ls[k] == RS_LINE && AllCanonical(Rust, Expected, ls[k + 1..])
  }

  ghost predicate Ambiguous(ls: seq<string>, es: seq<string>) {
    ls != [] && es != [] && (SplitsLater(es) || SplitsEarlier(ls))
  }

  /** The text of two parts given by their lines. */
  function LinesText(ls: seq<string>, es: seq<string>): string {
    Join(ls) + SEP + Join(es)
  }

  /** Kept lines of the two parts. */
  ghost predicate Parts(ls: seq<string>, es: seq<string>) {
    AllCanonical(Rust, Sql, ls) && AllCanonical(Rust, Expected, es)
  }

  /** The lines in front of the separator: an empty part leaves an empty line. */
  function Front(ls: seq<string>): seq<string> {
    if ls == [] then [""] else ls
  }

  lemma {:induction false} JoinConcat(xs: seq<string>, ys: seq<string>)
    requires xs != [] && ys != []
    ensures Join(xs + ys) == Join(xs) + "\n" + Join(ys)
  {
    if |xs| == 1 {
      assert (xs + ys)[1..] == ys;
    } else {
      assert (xs + ys)[1..] == xs[1..] + ys;
      JoinConcat(xs[1..], ys);
    }
  }

  lemma {:induction false} LinesOfEndedJoin(p: Part, ls: seq<string>)
    requires AllCanonical(Rust, p, ls) && ls != []
    ensures Lines(Rust, Join(ls) + "\n") == ls
  {
    hide Lines, Canonical;
    var l := ls[0];
    assert Canonical(Rust, p, l);
    CanonicalEnds(Rust, p, l);
    if |ls| == 1 {
      OneLine(Rust, l);
    } else {
      var rest := Join(ls[1..]) + "\n";
      LinesOfEndedJoin(p, ls[1..]);
      LinesStep(Rust, l, rest);
      assert Join(ls) + "\n" == l + "\n" + rest;
    }
  }

  /** Both parts and the separator, as lines. */
  lemma LinesOfText(ls: seq<string>, es: seq<string>)
    requires Parts(ls, es)
    ensures Lines(Rust, LinesText(ls, es)) == Front(ls) + [RS_LINE] + es
  {
    hide Lines, Canonical, Join;
    var a, b := Join(ls) + "\n", Join(es);
    if ls == [] {
      EmptyJoin();
      assert a == "" + "\n";
      OneLine(Rust, "");
    } else {
      LinesOfEndedJoin(Sql, ls);
    }
    OneLine(Rust, RS_LINE);
    LinesOfJoin(Rust, Expected, es);
    LinesConcat(Rust, RS_LINE + "\n", b);
    LinesConcat(Rust, a, RS_LINE + "\n" + b);
    assert LinesText(ls, es) == a + (RS_LINE + "\n" + b);
  }

  lemma EmptyJoin()
    ensures Join([]) == ""
  {}

  /** A part that is not empty ends in no newline. */
  lemma {:induction false} JoinEnds(p: Part, ls: seq<string>)
    requires AllCanonical(Rust, p, ls) && ls != []
    ensures Join(ls) != "" && Join(ls)[|Join(ls)| - 1] != '\n'
  {
    assert Canonical(Rust, p, ls[|ls| - 1]);
    CanonicalEnds(Rust, p, ls[|ls| - 1]);
    if |ls| > 1 { JoinEnds(p, ls[1..]); }
  }

  /** Of two readings of one text, the one with more lines in front shows the separator
      character alone on a line of the other's expected part. */
  lemma LaterReading(ls: seq<string>, es: seq<string>, ls': seq<string>, es': seq<string>)
    requires Parts(ls, es) && Parts(ls', es') && LinesText(ls, es) == LinesText(ls', es') && |Front(ls)| < |Front(ls')|
    ensures var k := |ls'| - |ls| - 1;
            && ls != [] && es' != [] && 0 <= k < |es| - 1 && 0 < |ls| < |ls'|
            && es[k] == RS_LINE && es[..k] == ls'[|ls| + 1..] && ls'[|ls|] == RS_LINE
  {
    hide Join, Lines, Canonical;
    LinesOfText(ls, es);
    LinesOfText(ls', es');
    var n := |Front(ls)|;
    var all, all' := Front(ls) + [RS_LINE] + es, ls' + [RS_LINE] + es';
    assert all == all';
    if ls == [] {
      assert all[0] == "" && all'[0] == ls'[0];
      NotEmptyLine(ls', 0);
    }
    var k := |ls'| - n - 1;
    assert ls'[n] == all[n] == RS_LINE;
    assert es[k] == all[n + 1 + k] == all'[|ls'|] == RS_LINE;
    assert all[n + 1..][..k] == es[..k] && all'[n + 1..][..k] == ls'[n + 1..];
    TextEnds(ls, es);
    TextEnds(ls', es');
  }

  /** Whether the text ends in a newline tells whether the expected part is empty. */
  lemma TextEnds(ls: seq<string>, es: seq<string>)
    requires Parts(ls, es)
    ensures var t := LinesText(ls, es); t != [] && (t[|t| - 1] == '\n' <==> es == [])
  {
    hide Canonical;
    var t := LinesText(ls, es);
    if es == [] {
      EmptyJoin();
    } else {
      JoinEnds(Expected, es);
      assert t[|t| - 1] == Join(es)[|Join(es)| - 1];
    }
  }

  lemma NotEmptyLine(ls: seq<string>, k: nat)
    requires AllCanonical(Rust, Sql, ls) && k < |ls|
    ensures ls[k] != ""
  {
    assert Canonical(Rust, Sql, ls[k]);
    CanonicalEnds(Rust, Sql, ls[k]);
  }

  lemma SameFront(ls: seq<string>, es: seq<string>, ls': seq<string>, es': seq<string>)
    requires Parts(ls, es) && Parts(ls', es') && LinesText(ls, es) == LinesText(ls', es') && |Front(ls)| == |Front(ls')|
    ensures ls == ls' && es == es'
  {
    hide Join, Lines, Canonical;
    LinesOfText(ls, es);
    LinesOfText(ls', es');
    var n := |Front(ls)|;
    var all, all' := Front(ls) + [RS_LINE] + es, Front(ls') + [RS_LINE] + es';
    assert all[..n] == Front(ls) && all'[..n] == Front(ls') && all[n + 1..] == es && all'[n + 1..] == es';
    if ls != ls' {
      if ls == [] { NotEmptyLine(ls', 0); } else { NotEmptyLine(ls, 0); }
    }
  }

  lemma SliceCanonical(p: Part, ls: seq<string>, i: nat)
    requires AllCanonical(Rust, p, ls) && i <= |ls|
    ensures AllCanonical(Rust, p, ls[i..]) && AllCanonical(Rust, p, ls[..i])
  {
    hide Canonical;
    assert forall k | 0 <= k < |ls| - i :: ls[i..][k] == ls[i + k];
  }

  /** Another reading makes the parts ambiguous, ... */
  lemma OtherReading(ls: seq<string>, es: seq<string>, ls': seq<string>, es': seq<string>)
    requires Parts(ls, es) && Parts(ls', es') && LinesText(ls, es) == LinesText(ls', es') && (ls != ls' || es != es')
    ensures Ambiguous(ls, es)
  {
    hide Join, Lines, Canonical, LinesText;
    if |Front(ls)| < |Front(ls')| {
      LaterReading(ls, es, ls', es');
      var k := |ls'| - |ls| - 1;
      SliceCanonical(Sql, ls', |ls| + 1);
      assert SplitsLater(es);
    } else if |Front(ls')| < |Front(ls)| {
      LaterReading(ls', es', ls, es);
      var k := |ls'|;
      SliceCanonical(Expected, es', |ls| - |ls'| - 1);
      assert SplitsEarlier(ls);
    } else {
      SameFront(ls, es, ls', es');
    }
  }

  lemma Glue(ls: seq<string>, es: seq<string>)
    requires ls != [] && es != []
    ensures LinesText(ls, es) == Join(ls + [RS_LINE] + es)
  {
    JoinConcat(ls + [RS_LINE], es);
    JoinConcat(ls, [RS_LINE]);
    assert Join([RS_LINE]) == RS_LINE;
    assert Join(ls) + SEP + Join(es) == Join(ls) + "\n" + RS_LINE + "\n" + Join(es);
  }

  /** ... and ambiguous parts have one. */
  lemma AnotherReading(ls: seq<string>, es: seq<string>) returns (ls': seq<string>, es': seq<string>)
    requires Parts(ls, es) && Ambiguous(ls, es)
    ensures Parts(ls', es') && LinesText(ls', es') == LinesText(ls, es) && ls' != ls
  {
    hide Join, Canonical, LinesText;
    OneCharCanonical(Sql, RS);
    OneCharCanonical(Expected, RS);
    if SplitsLater(es) {
      var k :| 0 <= k < |es| - 1 && es[k] == RS_LINE && AllCanonical(Rust, Sql, es[..k]);
      ls', es' := ls + [RS_LINE] + es[..k], es[k + 1..];
      Glue(ls, es);
      Glue(ls', es');
      assert es == es[..k] + [RS_LINE] + es';
      assert ls' + [RS_LINE] + es' == ls + [RS_LINE] + es;
    } else {
      var k :| 0 < k < |ls| && ls[k] == RS_LINE && AllCanonical(Rust, Expected, ls[k + 1..]);
      ls', es' := ls[..k], ls[k + 1..] + [RS_LINE] + es;
      Glue(ls, es);
      Glue(ls', es');
      assert ls == ls' + [RS_LINE] + ls[k + 1..];
      assert ls' + [RS_LINE] + es' == ls + [RS_LINE] + es;
    }
  }

  /** What the resolver hashes. */
  function PreImageOf(sql: string, expected: string): string {
    PreImage(Normal(Rust, Sql, sql), Normal(Rust, Expected, expected))
  }

  /** Some other suite, with other kept lines, has the same pre-image. */
  ghost predicate HasTwin(sql: string, expected: string) {
    exists sql', expected' ::
      && PreImageOf(sql', expected') == PreImageOf(sql, expected)
      && (KeptOf(Rust, Sql, sql') != KeptOf(Rust, Sql, sql)
          || KeptOf(Rust, Expected, expected') != KeptOf(Rust, Expected, expected))
  }

  lemma PreImageIsLinesText(sql: string, expected: string)
    ensures Parts(KeptOf(Rust, Sql, sql), KeptOf(Rust, Expected, expected))
    ensures PreImageOf(sql, expected) ==
      DOMAIN + LinesText(KeptOf(Rust, Sql, sql), KeptOf(Rust, Expected, expected))
  {
    NormalReadsBack(Rust, Sql, sql);
    NormalReadsBack(Rust, Expected, expected);
    var a, b := Normal(Rust, Sql, sql), Normal(Rust, Expected, expected);
    assert DOMAIN + a + SEP + b == DOMAIN + (a + SEP + b);
  }

  /** What is hashed, line by line: the domain, the SQL lines that are kept (or an empty line), the
      separator, the expected lines that are kept. */
  lemma HashedLines(sql: string, expected: string)
    ensures var (ls, es) := (KeptOf(Rust, Sql, sql), KeptOf(Rust, Expected, expected));
      Lines(Rust, PreImageOf(sql, expected)) ==
        ["duckdb:conformance-suite:1"] + (if ls == [] then [""] else ls) + ["\U{1E}"] + es
  {
    hide Lines, KeptOf, PreImageOf, Parts, LinesText, LineBreak;
    var (ls, es) := (KeptOf(Rust, Sql, sql), KeptOf(Rust, Expected, expected));
    PreImageIsLinesText(sql, expected);
    LinesOfText(ls, es);
    DomainIsLine();
    LinesStep(Rust, "duckdb:conformance-suite:1", LinesText(ls, es));
    assert DOMAIN + LinesText(ls, es) == "duckdb:conformance-suite:1" + "\n" + LinesText(ls, es);
  }

  lemma DomainIsLine()
    ensures Unbroken(Rust, "duckdb:conformance-suite:1")
    ensures Body(Rust, "duckdb:conformance-suite:1") == "duckdb:conformance-suite:1"
  {}

  lemma KeptOfLines(p: Part, ls: seq<string>)
    requires AllCanonical(Rust, p, ls)
    ensures KeptOf(Rust, p, Join(ls)) == ls
  {
    LinesOfJoin(Rust, p, ls);
    KeptOfCanonical(Rust, p, ls);
  }

  lemma CancelDomain(x: string, y: string)
    requires DOMAIN + x == DOMAIN + y
    ensures x == y
  {
    assert (DOMAIN + x)[|DOMAIN|..] == x && (DOMAIN + y)[|DOMAIN|..] == y;
  }

  /** Another suite shares the pre-image in Rust exactly when both parts keep a line and U+001E
      stands alone on a kept line where the parts could as well be divided. */
  lemma TwinExactlyWhen(sql: string, expected: string)
    ensures HasTwin(sql, expected) <==> Ambiguous(KeptOf(Rust, Sql, sql), KeptOf(Rust, Expected, expected))
  {
    hide Normal, KeptOf, PreImageOf, LinesText, Ambiguous, Parts, Join;
    var ls, es := KeptOf(Rust, Sql, sql), KeptOf(Rust, Expected, expected);
    PreImageIsLinesText(sql, expected);
    if HasTwin(sql, expected) {
      var sql', expected' :|
        && PreImageOf(sql', expected') == PreImageOf(sql, expected)
        && (KeptOf(Rust, Sql, sql') != ls || KeptOf(Rust, Expected, expected') != es);
      PreImageIsLinesText(sql', expected');
      var ls', es' := KeptOf(Rust, Sql, sql'), KeptOf(Rust, Expected, expected');
      CancelDomain(LinesText(ls, es), LinesText(ls', es'));
      OtherReading(ls, es, ls', es');
    }
    if Ambiguous(ls, es) {
      var ls', es' := AnotherReading(ls, es);
      PartsOf(ls', es');
      KeptOfLines(Sql, ls');
      KeptOfLines(Expected, es');
      PreImageIsLinesText(Join(ls'), Join(es'));
    }
  }

  lemma PartsOf(ls: seq<string>, es: seq<string>)
    requires Parts(ls, es)
    ensures AllCanonical(Rust, Sql, ls) && AllCanonical(Rust, Expected, es)
  {}

  /** U+001E alone on the first SQL line or the last expected line divides nothing. */
  lemma EdgesAreSafe(ls: seq<string>, es: seq<string>)
    requires Parts(ls, es)
    requires (forall k :: 0 < k < |ls| ==> ls[k] != RS_LINE) && (forall k :: 0 <= k < |es| - 1 ==> es[k] != RS_LINE)
    ensures !Ambiguous(ls, es)
  {}

  lemma CommentIsNoSql(l: string)
    requires StartsWith(l, "--")
    ensures !Canonical(Rust, Sql, l) && l != RS_LINE
  {
    assert l[0] == '-' && StripStart(Rust, l) == l;
  }

  lemma NoSqlBehindComment(es: seq<string>, k: nat)
    requires 0 < k <= |es| && StartsWith(es[0], "--")
    ensures !AllCanonical(Rust, Sql, es[..k])
  {
    CommentIsNoSql(es[0]);
    assert es[..k][0] == es[0];
  }

  /** Nor does it where a comment mark of the other part stands between. */
  lemma CommentKeepsApart(ls: seq<string>, es: seq<string>)
    requires Parts(ls, es) && |es| > 0 && StartsWith(es[0], "--")
    requires forall k :: 0 < k < |ls| ==> ls[k] != RS_LINE
    ensures !Ambiguous(ls, es)
  {
    hide Canonical, AllCanonical;
    CommentIsNoSql(es[0]);
    forall k | 0 <= k < |es| - 1 && es[k] == RS_LINE ensures !AllCanonical(Rust, Sql, es[..k]) {
      NoSqlBehindComment(es, k);
    }
  }
}
