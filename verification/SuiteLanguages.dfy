/** When the resolver and the Python tooling compute the same canonical text
    (crates/ducklink-host/src/resolver.rs:378-401, tooling/conformance.py:69-97). */
module SuiteLanguages {
  import opened Chars
  import opened Suite
  import opened SuiteDigest

  /** Only LF and CRLF end lines, and no other character is white space to Python alone. */
  predicate Plain(s: string) {
    forall k | 0 <= k < |s| :: PlainAt(s, k)
  }

  predicate PlainAt(s: string, k: nat)
    requires k < |s|
  {
    if s[k] == '\r' then k + 1 < |s| && s[k + 1] == '\n'
    else s[k] == '\n' || (!LineBreak(Python, s[k]) && s[k] != '\U{1F}')
  }

  lemma {:induction false} SameLines(s: string)
    requires Plain(s)
    ensures Lines(Rust, s) == Lines(Python, s)
    decreases |s|
  {
    hide Lines;
    if s == [] {
      NoLines(Rust);
      NoLines(Python);
    } else {
      var k := Cut(Python, s);
      if k == |s| {
        OneUnbroken(Python, s);
        assert Unbroken(Rust, s);
        OneUnbroken(Rust, s);
      } else {
        assert PlainAt(s, k);
        var n := BreakWidth(Python, s, k);
        forall j | 0 <= j < k + n - 1 ensures s[j] != '\n' {
          if j < k { assert !LineBreak(Python, s[j]); }
        }
        CutPrefix(Rust, s, k + n - 1);
        var rest := s[k + n..];
        forall j | 0 <= j < |rest| ensures PlainAt(rest, j) {
          assert PlainAt(s, k + n + j) && rest[j] == s[k + n + j];
        }
        SameLines(rest);
        LinesCut(Python, s);
        LinesCut(Rust, s);
        if n == 2 {
          assert s[..k + 1][..k] == s[..k];
        } else if k > 0 {
          assert !LineBreak(Python, s[k - 1]);
        }
      }
    }
  }

  predicate NoInfoSeparators(s: string) {
    forall k | 0 <= k < |s| :: !('\U{1C}' <= s[k] <= '\U{1F}')
  }

  lemma {:induction false} SameStrips(s: string)
    requires NoInfoSeparators(s)
    ensures StripEnd(Rust, s) == StripEnd(Python, s) && StripStart(Rust, s) == StripStart(Python, s)
    decreases |s|
  {
    if s != [] {
      SameStrips(s[..|s| - 1]);
      SameStrips(s[1..]);
    }
  }

  lemma {:induction false} StripStartSuffix(d: Dialect, s: string) returns (n: nat)
    ensures n <= |s| && StripStart(d, s) == s[n..]
  {
    n := 0;
    if s != [] && Space(d, s[0]) {
      var m := StripStartSuffix(d, s[1..]);
      n := m + 1;
    }
  }

  lemma SameKeptLine(p: Part, l: string)
    requires NoInfoSeparators(l)
    ensures KeptLine(Rust, p, l) == KeptLine(Python, p, l)
  {
    hide StripEnd, StripStart, IsComment;
    SameStrips(l);
    var t := StripEnd(Rust, l);
    PartHasNone(l, 0, |t|);
    SameStrips(t);
    var n := StripStartSuffix(Rust, t);
    PartHasNone(t, n, |t|);
    SameStrips(StripStart(Rust, t));
  }

  lemma PartHasNone(s: string, i: nat, j: nat)
    requires NoInfoSeparators(s) && i <= j <= |s|
    ensures NoInfoSeparators(s[i..j]) && s[..j] == s[0..j] && s[i..] == s[i..|s|]
  {
  }

  lemma {:induction false} SameKept(p: Part, lines: seq<string>)
    requires forall k :: 0 <= k < |lines| ==> NoInfoSeparators(lines[k])
    ensures Kept(Rust, p, lines) == Kept(Python, p, lines)
  {
    if lines != [] {
      SameKeptLine(p, lines[0]);
      SameKept(p, lines[1..]);
    }
  }

  lemma {:induction false} LinesWithin(s: string)
    requires NoInfoSeparators(s)
    ensures forall k :: 0 <= k < |Lines(Rust, s)| ==> NoInfoSeparators(Lines(Rust, s)[k])
    decreases |s|
  {
    hide Lines;
    if s == [] {
      NoLines(Rust);
    } else {
      var k := Cut(Rust, s);
      if k == |s| {
        OneUnbroken(Rust, s);
      } else {
        LinesCut(Rust, s);
        LinesWithin(s[k + 1..]);
        assert NoInfoSeparators(s[..k]);
        assert NoInfoSeparators(Body(Rust, s[..k]));
      }
    }
  }

  /** On plain text the Rust chain and the Python loop compute the same normal form. */
  lemma LanguagesAgree(p: Part, text: string)
    requires Plain(text)
    ensures Normal(Rust, p, text) == Normal(Python, p, text)
  {
    SameLines(text);
    forall k | 0 <= k < |text| ensures !('\U{1C}' <= text[k] <= '\U{1F}') {
      assert PlainAt(text, k);
    }
    LinesWithin(text);
    SameKept(p, Lines(Rust, text));
  }

  /** Where `str.splitlines` ends a line besides the newline, and what `str.isspace` adds. */
  lemma PythonCharacters(c: char)
    ensures LineBreak(Python, c) <==> c in "\n\U{0B}\U{0C}\r\U{1C}\U{1D}\U{1E}\U{85}\U{2028}\U{2029}"
    ensures Space(Python, c) <==> IsSpace(c) || c in "\U{1C}\U{1D}\U{1E}\U{1F}"
    ensures (LineBreak(Rust, c) <==> c == '\n') && (Space(Rust, c) <==> IsSpace(c))
  {}

  /** Every other line break of Python sets them apart, and so does a trailing unit separator; no
      other character does. */
  lemma LanguagesDiffer(p: Part, c: char)
    requires c != '\n'
    ensures c in "\U{0B}\U{0C}\r\U{1C}\U{1D}\U{1E}\U{85}\U{2028}\U{2029}" ==>
      Normal(Python, p, ['a', c, 'b']) == "a\nb" && Normal(Rust, p, ['a', c, 'b']) == ['a', c, 'b']
    ensures c == '\U{1F}' ==> Normal(Python, p, ['a', c]) == "a" && Normal(Rust, p, ['a', c]) == ['a', c]
    ensures c !in "\U{0B}\U{0C}\r\U{1C}\U{1D}\U{1E}\U{1F}\U{85}\U{2028}\U{2029}" ==>
      Normal(Python, p, ['a', c, 'b']) == Normal(Rust, p, ['a', c, 'b'])
      && Normal(Python, p, ['a', c]) == Normal(Rust, p, ['a', c])
  {
    hide Normal, LineBreak;
    PythonCharacters(c);
    PythonCharacters('a');
    PythonCharacters('b');
    if LineBreak(Python, c) {
      BreakSplits(p, c);
      RustAsIs(p, ['a', c, 'b']);
    } else if c == '\U{1F}' {
      UnitSeparatorGoes(p);
      RustAsIs(p, ['a', c]);
    } else {
      assert Plain(['a', c, 'b']) && Plain(['a', c]);
      LanguagesAgree(p, ['a', c, 'b']);
      LanguagesAgree(p, ['a', c]);
    }
  }

  lemma BreakSplits(p: Part, c: char)
    requires c != '\n' && LineBreak(Python, c)
    ensures Normal(Python, p, ['a', c, 'b']) == "a\nb"
  {
    hide Lines, Canonical, Keep, StripEnd, LineBreak, Cut;
    var s := ['a', c, 'b'];
    PlainWord(Python, p, "a");
    PlainWord(Python, p, "b");
    CanonicalEnds(Python, p, "a");
    assert !LineBreak(Python, "a"[0]);
    CutPrefix(Python, s, 1);
    LinesCut(Python, s);
    assert s[..1] == "a" && s[2..] == "b";
    CanonicalEnds(Python, p, "b");
    OneUnbroken(Python, "b");
    KeptOfCanonical(Python, p, ["a", "b"]);
    assert ["a", "b"][1..] == ["b"] && Join(["b"]) == "b";
  }

  lemma UnitSeparatorGoes(p: Part)
    ensures Normal(Python, p, ['a', '\U{1F}']) == "a"
  {
    var s := ['a', '\U{1F}'];
    OneUnbroken(Python, s);
    assert s[..1] == "a";
    PlainWord(Python, p, "a");
    assert StripEnd(Python, s) == "a";
    assert Kept(Python, p, [s]) == ["a"];
  }

  lemma PlainWord(d: Dialect, p: Part, l: string)
    requires l == "a" || l == "b"
    ensures Canonical(d, p, l)
  {
    assert StripEnd(d, l) == l && StripStart(d, l) == l;
  }

  lemma RustAsIs(p: Part, s: string)
    requires s != [] && s[0] == 'a' && Unbroken(Rust, s) && !IsSpace(s[|s| - 1])
    ensures Normal(Rust, p, s) == s
  {
    assert StripEnd(Rust, s) == s && StripStart(Rust, s) == s;
    OneUnbroken(Rust, s);
    KeptOfCanonical(Rust, p, [s]);
  }

  // ---------------------------------------------------------------------------
  // When they agree on a text
  // ---------------------------------------------------------------------------

  /** What Python keeps of the text between two newlines. */
  function KeptByLine(p: Part, ls: seq<string>): seq<string> {
    if ls == [] then [] else KeptOf(Python, p, ls[0]) + KeptByLine(p, ls[1..])
  }

  lemma KeptEmpty(p: Part)
    ensures KeptOf(Python, p, "") == [] && KeptLine(Python, p, "") == []
  {
    assert StripEnd(Python, "") == "" && StripStart(Python, "") == "";
  }

  lemma BreakAtEnd(x: string, c: char, k: nat)
    requires LineBreak(Python, c) && k < |x|
    ensures (x + [c])[k] == x[k]
    ensures AfterBreak(Python, x + [c], k) == AfterBreak(Python, x,
        k) + [c] || (AfterBreak(Python, x + [c], k) == [] && AfterBreak(Python, x, k) == [])
  {
    var s := x + [c];
    assert s[k] == x[k];
    if k + 1 < |x| { assert s[k + 1] == x[k + 1]; }
  }

  lemma CutBefore(x: string, c: char)
    requires LineBreak(Python, c)
    ensures Cut(Python, x + [c]) == Cut(Python, x) <= |x| && (x + [c])[..Cut(Python, x)] == x[..Cut(Python, x)]
  {
    hide LineBreak;
    var k := Cut(Python, x);
    var s := x + [c];
    assert forall j | 0 <= j < k :: s[j] == x[j];
    if k < |x| { assert s[k] == x[k]; }
    assert s[|x|] == c;
    CutPrefix(Python, s, k);
  }

  /** A line break at the end, or completing a pair there, adds nothing. */
  lemma {:induction false} TrailingBreak(p: Part, x: string, c: char)
    requires LineBreak(Python, c)
    ensures KeptOf(Python, p, x + [c]) == KeptOf(Python, p, x)
    decreases |x|
  {
    hide Lines, AfterBreak, KeptLine, Cut, LineBreak;
    var s := x + [c];
    var k := Cut(Python, x);
    CutBefore(x, c);
    LinesUnfold(Python, s);
    if k == |x| {
      LastLine(x, c);
      KeptEmpty(p);
      NoLines(Python);
      assert Lines(Python, s) == [x] + [];
      assert [x][1..] == [];
      if x != [] { OneUncut(x); }
    } else {
      LinesUnfold(Python, x);
      BreakAtEnd(x, c, k);
      var rest := AfterBreak(Python, x, k);
      KeptHead(p, x[..k], Lines(Python, rest));
      KeptHead(p, x[..k], Lines(Python, AfterBreak(Python, s, k)));
      if AfterBreak(Python, s, k) == rest + [c] { TrailingBreak(p, rest, c); }
    }
  }

  lemma OneUncut(x: string)
    requires x != [] && Cut(Python, x) == |x|
    ensures Lines(Python, x) == [x]
  {}

  lemma LastLine(x: string, c: char)
    ensures AfterBreak(Python, x + [c], |x|) == [] && (x + [c])[..|x|] == x
  {}

  lemma KeptHead(p: Part, l: string, rest: seq<string>)
    ensures Kept(Python, p, [Body(Python, l)] + rest) == KeptLine(Python, p, l) + Kept(Python, p, rest)
  {
    assert ([l] + rest)[1..] == rest;
  }

  lemma BodyAddsNothing(p: Part, l: string)
    ensures KeptOf(Python, p, l + "\n") == KeptOf(Python, p, Body(Rust, l))
  {
    hide KeptOf, Lines;
    TrailingBreak(p, l, '\n');
    if l != [] && l[|l| - 1] == '\r' {
      TrailingBreak(p, l[..|l| - 1], '\r');
      assert l == l[..|l| - 1] + ['\r'];
    }
  }

  /** Python too goes newline by newline. */
  lemma {:induction false} PythonByLine(p: Part, text: string)
    ensures KeptOf(Python, p, text) == KeptByLine(p, Lines(Rust, text))
    decreases |text|
  {
    hide Lines, Body;
    if text == [] {
      NoLines(Rust);
      KeptEmpty(p);
    } else {
      var k := Cut(Rust, text);
      if k == |text| {
        OneUnbroken(Rust, text);
        assert [text][1..] == [] && KeptOf(Python, p, text) + [] == KeptOf(Python, p, text);
      } else {
        var l, rest := text[..k], text[k + 1..];
        assert text == (l + "\n") + rest;
        LinesCut(Rust, text);
        assert ([Body(Rust, l)] + Lines(Rust, rest))[1..] == Lines(Rust, rest);
        LinesConcat(Python, l + "\n", rest);
        KeptConcat(Python, p, Lines(Python, l + "\n"), Lines(Python, rest));
        BodyAddsNothing(p, l);
        PythonByLine(p, rest);
      }
    }
  }

  /** On one line between newlines: a line Rust keeps has no other line break, white space or
      comment mark in it that only Python sees, and of one that Rust drops Python keeps nothing. */
  predicate LineAgrees(p: Part, l: string) {
    var r := KeptLine(Rust, p, l);
    if r != [] then Canonical(Python, p, r[0]) else KeptOf(Python, p, l) == []
  }

  predicate AllAgree(p: Part, ls: seq<string>) {
    forall k | 0 <= k < |ls| :: LineAgrees(p, ls[k])
  }

  lemma {:induction false} BlankKeepsNothing(p: Part, w: string)
    requires forall k :: 0 <= k < |w| ==> Space(Python, w[k])
    ensures KeptOf(Python, p, w) == []
    decreases |w|
  {
    hide Lines, Space, LineBreak;
    if w == [] {
      KeptEmpty(p);
    } else {
      var k := Cut(Python, w);
      if k == |w| {
        OneUncut(w);
        BlankLine(p, w);
        KeptOne(p, w);
      } else {
        LinesUnfold(Python, w);
        var rest := AfterBreak(Python, w, k);
        assert forall j | 0 <= j < |rest| :: rest[j] == w[|w| - |rest| + j];
        assert forall j | 0 <= j < k :: w[..k][j] == w[j];
        BlankLine(p, w[..k]);
        KeptHead(p, w[..k], Lines(Python, rest));
        BlankKeepsNothing(p, rest);
      }
    }
  }

  lemma BlankLine(p: Part, w: string)
    requires forall k :: 0 <= k < |w| ==> Space(Python, w[k])
    ensures KeptLine(Python, p, w) == []
  {
    StripStartBlank(Python, w);
    StripStartBlank(Python, "");
  }

  lemma {:induction false} StrippedTail(d: Dialect, s: string)
    ensures var n := |StripEnd(d, s)|; forall k :: n <= k < |s| ==> Space(d, s[k])
  {
    if s != [] && Space(d, s[|s| - 1]) { StrippedTail(d, s[..|s| - 1]); }
  }

  lemma RestOf(s: string, k: nat)
    requires k < |s|
    ensures var rest := AfterBreak(Python, s, k); |rest| <= |s| - k - 1 && rest == s[|s| - |rest|..]
  {}

  lemma KeptOne(p: Part, l: string)
    ensures Kept(Python, p, [l]) == KeptLine(Python, p, l)
  {
    assert [l][1..] == [];
  }

  lemma KeepsStripped(p: Part, t: string, l: string)
    requires Canonical(Python, p, t) && StripEnd(Python, l) == StripEnd(Python, t)
    ensures KeptLine(Python, p, l) == [t]
  {}

  /** A line with white space behind it. */
  lemma CanonicalAndBlank(p: Part, t: string, w: string)
    requires Canonical(Python, p, t) && forall k :: 0 <= k < |w| ==> Space(Python, w[k])
    ensures KeptOf(Python, p, t + w) == [t]
  {
    hide Lines, Space, Keep, StripEnd, KeptLine, LineBreak, AfterBreak;
    var s := t + w;
    var k := Cut(Python, s);
    CanonicalEnds(Python, p, t);
    assert forall j | 0 <= j < |t| :: s[j] == t[j] && !LineBreak(Python, t[j]);
    assert k >= |t|;
    var front := w[..k - |t|];
    assert s[..k] == t + front;
    StripEndOfSpaces(Python, t, front);
    KeepsStripped(p, t, s[..k]);
    if k == |s| {
      OneUncut(s);
      assert front == w && s[..k] == s;
      KeptOne(p, s);
    } else {
      LinesUnfold(Python, s);
      var rest := AfterBreak(Python, s, k);
      RestOf(s, k);
      assert forall j | 0 <= j < |rest| :: rest[j] == s[|s| - |rest| + j] == w[|w| - |rest| + j];
      KeptHead(p, s[..k], Lines(Python, rest));
      BlankKeepsNothing(p, rest);
    }
  }

  lemma KeptAgrees(p: Part, l: string)
    requires KeptLine(Rust, p, l) != [] && LineAgrees(p, l)
    ensures KeptOf(Python, p, l) == KeptLine(Rust, p, l)
  {
    hide Canonical;
    var t := StripEnd(Rust, l);
    var w := l[|t|..];
    StrippedTail(Rust, l);
    assert l == t + w;
    forall k | 0 <= k < |w| ensures Space(Python, w[k]) { assert w[k] == l[|t| + k]; }
    CanonicalAndBlank(p, t, w);
  }

  lemma {:induction false} KeptByLineHas(p: Part, ls: seq<string>, t: string)
    requires t in KeptByLine(p, ls)
    ensures Canonical(Python, p, t)
  {
    hide Canonical;
    if t in KeptOf(Python, p, ls[0]) {
      NormalReadsBack(Python, p, ls[0]);
    } else {
      KeptByLineHas(p, ls[1..], t);
    }
  }

  lemma {:induction false} KeptHas(p: Part, ls: seq<string>, k: nat)
    requires k < |ls| && KeptLine(Rust, p, ls[k]) != []
    ensures KeptLine(Rust, p, ls[k])[0] in Kept(Rust, p, ls)
  {
    hide KeptLine;
    if k > 0 { KeptHas(p, ls[1..], k - 1); }
  }

  lemma {:induction false} AgreeingLines(p: Part, ls: seq<string>)
    requires AllAgree(p, ls)
    ensures Kept(Rust, p, ls) == KeptByLine(p, ls)
  {
    hide KeptLine, KeptOf, LineAgrees;
    if ls != [] {
      assert LineAgrees(p, ls[0]);
      HeadAgrees(p, ls[0]);
      AgreeingLines(p, ls[1..]);
    }
  }

  lemma HeadAgrees(p: Part, l: string)
    requires LineAgrees(p, l)
    ensures KeptOf(Python, p, l) == KeptLine(Rust, p, l)
  {
    hide KeptOf, Canonical;
    if KeptLine(Rust, p, l) != [] { KeptAgrees(p, l); }
  }

  /** Python keeps at least the lines Rust keeps, ... */
  ghost predicate Covers(p: Part, ls: seq<string>) {
    forall k | 0 <= k < |ls| && KeptLine(Rust, p, ls[k]) != [] :: KeptOf(Python, p, ls[k]) == KeptLine(Rust, p, ls[k])
  }

  lemma CoversTail(p: Part, ls: seq<string>)
    requires Covers(p, ls) && ls != []
    ensures Covers(p, ls[1..])
      && (KeptLine(Rust, p, ls[0]) != [] ==> KeptOf(Python, p, ls[0]) == KeptLine(Rust, p, ls[0]))
  {
    hide KeptLine, KeptOf;
    assert forall k | 0 <= k < |ls| - 1 :: ls[1..][k] == ls[k + 1];
  }

  lemma {:induction false} CoveringIsLonger(p: Part, ls: seq<string>)
    requires Covers(p, ls)
    ensures |Kept(Rust, p, ls)| <= |KeptByLine(p, ls)|
  {
    hide KeptLine, KeptOf, Covers;
    if ls != [] {
      CoversTail(p, ls);
      CoveringIsLonger(p, ls[1..]);
    }
  }

  /** ... so if both keep the same in all, they keep the same of each line. */
  lemma {:induction false} SameOfEach(p: Part, ls: seq<string>, k: nat)
    requires Covers(p, ls) && Kept(Rust, p, ls) == KeptByLine(p, ls) && k < |ls|
    ensures KeptOf(Python, p, ls[k]) == KeptLine(Rust, p, ls[k])
  {
    hide KeptLine, KeptOf, Covers;
    CoversTail(p, ls);
    CoveringIsLonger(p, ls[1..]);
    var (r, q) := (KeptLine(Rust, p, ls[0]), KeptOf(Python, p, ls[0]));
    var (rs, qs) := (Kept(Rust, p, ls[1..]), KeptByLine(p, ls[1..]));
    assert r + rs == q + qs;
    if r == [] { assert |q + qs| == |q| + |qs|; }
    assert r == q;
    assert (r + rs)[|r|..] == rs && (q + qs)[|q|..] == qs;
    if k > 0 { SameOfEach(p, ls[1..], k - 1); }
  }

  lemma AgreementIsLineByLine(p: Part, ls: seq<string>)
    requires Kept(Rust, p, ls) == KeptByLine(p, ls)
    ensures AllAgree(p, ls)
  {
    hide KeptOf, KeptLine, Canonical;
    forall k | 0 <= k < |ls| && KeptLine(Rust, p, ls[k]) != [] ensures LineAgrees(p, ls[k]) {
      KeptHas(p, ls, k);
      KeptByLineHas(p, ls, KeptLine(Rust, p, ls[k])[0]);
    }
    forall k | 0 <= k < |ls| && KeptLine(Rust, p, ls[k]) != []
      ensures KeptOf(Python, p, ls[k]) == KeptLine(Rust, p, ls[k])
    {
      KeptAgrees(p, ls[k]);
    }
    assert Covers(p, ls);
    forall k | 0 <= k < |ls| ensures LineAgrees(p, ls[k]) {
      SameOfEach(p, ls, k);
    }
  }

  /** The Rust reading of a Python normal form gives back its lines. */
  lemma {:induction false} RustReadsPython(p: Part, ls: seq<string>)
    requires AllCanonical(Python, p, ls)
    ensures Lines(Rust, Join(ls)) == ls
  {
    hide Lines, Canonical;
    if ls == [] {
      NoLines(Rust);
    } else {
      var l := ls[0];
      assert Canonical(Python, p, l);
      PythonLineInRust(p, l);
      if |ls| == 1 {
        OneUnbroken(Rust, l);
      } else {
        RustReadsPython(p, ls[1..]);
        LinesStep(Rust, l, Join(ls[1..]));
      }
    }
  }

  lemma PythonLineInRust(p: Part, l: string)
    requires Canonical(Python, p, l)
    ensures l != [] && Unbroken(Rust, l) && Body(Rust, l) == l
  {
    CanonicalEnds(Python, p, l);
    forall k | 0 <= k < |l| ensures !LineBreak(Rust, l[k]) { assert !LineBreak(Python, l[k]); }
  }

  /** Rust and Python compute the same normal form of a text exactly when they agree on each of
      its lines between newlines. */
  lemma LanguagesAgreeExactlyWhen(p: Part, text: string)
    ensures Normal(Rust, p, text) == Normal(Python, p, text) <==> AllAgree(p, Lines(Rust, text))
  {
    hide KeptLine, Lines, Join, Canonical, LineAgrees;
    var ls := Lines(Rust, text);
    PythonByLine(p, text);
    NormalReadsBack(Rust, p, text);
    NormalReadsBack(Python, p, text);
    RustReadsPython(p, KeptOf(Python, p, text));
    if Normal(Rust, p, text) == Normal(Python, p, text) { AgreementIsLineByLine(p, ls); }
    if AllAgree(p, ls) { AgreeingLines(p, ls); }
  }

  /** What it takes for a line that Rust keeps. */
  lemma KeptLineAgreesExactlyWhen(p: Part, l: string)
    requires KeptLine(Rust, p, l) != []
    ensures var t := KeptLine(Rust, p, l)[0];
      LineAgrees(p, l) <==> Unbroken(Python, t) && !Space(Python, t[|t| - 1]) && !IsComment(p, StripStart(Python, t))
  {
    var t := KeptLine(Rust, p, l)[0];
    if t == [] { StripStartBlank(Rust, t); }
    if !Space(Python, t[|t| - 1]) {
      var n := StripStartSuffix(Python, t);
      StripStartKeeps(Python, t);
      var u := StripStart(Python, t);
      assert u[|u| - 1] == t[|t| - 1];
    }
  }

  lemma {:induction false} StripStartKeeps(d: Dialect, s: string)
    requires s != [] && !Space(d, s[|s| - 1])
    ensures StripStart(d, s) != []
  {
    if Space(d, s[0]) { StripStartKeeps(d, s[1..]); }
  }

  // ---------------------------------------------------------------------------
  // When their digests agree
  // ---------------------------------------------------------------------------

  /** A pre-image holds the separator character once exactly when neither part holds it. */
  lemma SeparatorOnce(a: string, b: string)
    ensures var s, n := PreImage(a, b), |DOMAIN| + |a| + 1;
      n < |s| && s[n] == RS && (FreeOfRS(a) && FreeOfRS(b) <==> forall k :: 0 <= k < |s| && k != n ==> s[k] != RS)
  {
    var s, d, n := PreImage(a, b), |DOMAIN|, |DOMAIN| + |a| + 1;
    assert FreeOfRS(DOMAIN);
    assert forall k | 0 <= k < |a| :: s[d + k] == a[k];
    assert forall k | 0 <= k < |b| :: s[n + 2 + k] == b[k];
    if forall k :: 0 <= k < |s| && k != n ==> s[k] != RS {
      forall k | 0 <= k < |a| ensures a[k] != RS { assert s[d + k] != RS; }
      forall k | 0 <= k < |b| ensures b[k] != RS { assert s[n + 2 + k] != RS; }
    }
  }

  /** One pre-image with a part that is free of the separator has the same parts. */
  lemma FreeDetermines(a: string, b: string, c: string, e: string)
    requires PreImage(a, b) == PreImage(c, e) && FreeOfRS(c) && FreeOfRS(e)
    ensures a == c && b == e
  {
    SeparatorOnce(a, b);
    SeparatorOnce(c, e);
    PreImageInjective(a, b, c, e);
  }

  /** Rust and Python hash the same text of a suite exactly when they agree on each line of both
      its parts. */
  lemma DigestsAgreeExactlyWhen(sql: string, expected: string)
    ensures SuiteBytes(Rust, sql, expected) == SuiteBytes(Python, sql, expected) <==>
      AllAgree(Sql, Lines(Rust, sql)) && AllAgree(Expected, Lines(Rust, expected))
  {
    hide Normal, Lines, AllAgree, PreImage, Bytes8;
    var a, b := Normal(Rust, Sql, sql), Normal(Rust, Expected, expected);
    var c, e := Normal(Python, Sql, sql), Normal(Python, Expected, expected);
    LanguagesAgreeExactlyWhen(Sql, sql);
    LanguagesAgreeExactlyWhen(Expected, expected);
    PythonIsFree(Sql, sql);
    PythonIsFree(Expected, expected);
    if SuiteBytes(Rust, sql, expected) == SuiteBytes(Python, sql, expected) {
      BytesInjective(PreImage(a, b), PreImage(c, e));
      FreeDetermines(a, b, c, e);
    }
  }
}
