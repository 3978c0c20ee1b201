/** Canonical text of a conformance suite, as the resolver and the Python tooling each compute it
    (crates/ducklink-host/src/resolver.rs:346-401, tooling/conformance.py:64-97). */
module Suite {
  import opened Wrappers
  import opened Chars

  datatype Dialect = Rust | Python

  datatype Part = Sql | Expected

  const RS: char := '\U{1E}'

  /** `char::is_whitespace` and `str.isspace`: the latter adds the information separators. */
  predicate Space(d: Dialect, c: char) {
    IsSpace(c) || (d.Python? && '\U{1C}' <= c <= '\U{1F}')
  }

  /** Where `str::lines` and `str.splitlines` end a line. */
  predicate LineBreak(d: Dialect, c: char) {
    c == '\n'
    || (d.Python?
        && ('\U{0B}' <= c <= '\r' || '\U{1C}' <= c <= '\U{1E}' || c == '\U{85}' || c == '\U{2028}' || c == '\U{2029}'))
  }

  /** The first line break, or the length. */
  function Cut(d: Dialect, s: string): (k: nat)
    ensures k <= |s| && (k < |s| ==> LineBreak(d, s[k])) && forall j :: 0 <= j < k ==> !LineBreak(d, s[j])
  {
    if s == [] || LineBreak(d, s[0]) then 0 else 1 + Cut(d, s[1..])
  }

  /** Rust drops a carriage return before the newline; Python takes the pair as one break. */
  function Body(d: Dialect, l: string): string {
    if d.Rust? && l != [] && l[|l| - 1] == '\r' then l[..|l| - 1] else l
  }

  function BreakWidth(d: Dialect, s: string, k: nat): (n: nat)
    requires k < |s|
    ensures 1 <= n <= |s| - k
  {
    if d.Python? && s[k] == '\r' && k + 1 < |s| && s[k + 1] == '\n' then 2 else 1
  }

  function AfterBreak(d: Dialect, s: string, k: nat): (rest: string)
    requires k < |s|
    ensures |rest| < |s|
  {
    s[k + BreakWidth(d, s, k)..]
  }

  function Lines(d: Dialect, s: string): seq<string>
    decreases |s|
  {
    if s == [] then [] else
    var k := Cut(d, s);
    if k == |s| then [s] else [Body(d, s[..k])] + Lines(d, AfterBreak(d, s, k))
  }

  function StripEnd(d: Dialect, s: string): (t: string)
    ensures |t| <= |s| && t == s[..|t|] && (t != [] ==> !Space(d, t[|t| - 1]))
  {
    if s != [] && Space(d, s[|s| - 1]) then StripEnd(d, s[..|s| - 1]) else s
  }

  function StripStart(d: Dialect, s: string): string {
    if s != [] && Space(d, s[0]) then StripStart(d, s[1..]) else s
  }

  function Strip(d: Dialect, s: string): string {
    StripEnd(d, StripStart(d, s))
  }

  predicate StartsWith(s: string, prefix: string) {
    prefix <= s
  }

  predicate IsComment(p: Part, t: string) {
    match p
    case Sql => StartsWith(t, "--")
    case Expected => t == "#" || StartsWith(t, "# ")
  }

  predicate Keep(d: Dialect, p: Part, l: string) {
    Strip(d, l) != "" && !IsComment(p, StripStart(d, l))
  }

  function KeptLine(d: Dialect, p: Part, line: string): seq<string> {
    var l := StripEnd(d, line);
    if Keep(d, p, l) then [l] else []
  }

  /** The lines that matter, in order. */
  function Kept(d: Dialect, p: Part, lines: seq<string>): seq<string> {
    if lines == [] then [] else KeptLine(d, p, lines[0]) + Kept(d, p, lines[1..])
  }

  function Join(lines: seq<string>): string {
    JoinWith(lines, "\n")
  }

  function KeptOf(d: Dialect, p: Part, text: string): seq<string> {
    Kept(d, p, Lines(d, text))
  }

  /** The normal form; the Rust functions are this chain, `PythonNormal` is the Python loop. */
  function Normal(d: Dialect, p: Part, text: string): string {
    Join(KeptOf(d, p, text))
  }

  method PythonNormal(p: Part, text: string) returns (out: string)
    ensures out == Normal(Python, p, text)
  {
    hide Lines, StripEnd, Strip, StripStart, IsComment, Join, Kept;
    var lines := Lines(Python, text);
    var kept: seq<string> := [];
    assert lines[0..] == lines;
    for i := 0 to |lines|
      invariant kept + Kept(Python, p, lines[i..]) == KeptOf(Python, p, text)
    {
      KeptStep(Python, p, lines, i);
      ConcatAssociates(kept, KeptLine(Python, p, lines[i]), Kept(Python, p, lines[i + 1..]));
      var s := StripEnd(Python, lines[i]);
      if Strip(Python, s) == "" {
        continue;
      }
      if IsComment(p, StripStart(Python, s)) {
        continue;
      }
      kept := kept + [s];
    }
    KeptNothing(Python, p, lines);
    assert kept + [] == kept;
    out := Join(kept);
  }

  lemma KeptStep(d: Dialect, p: Part, lines: seq<string>, i: nat)
    requires i < |lines|
    ensures Kept(d, p, lines[i..]) == KeptLine(d, p, lines[i]) + Kept(d, p, lines[i + 1..])
  {
    assert lines[i..][0] == lines[i] && lines[i..][1..] == lines[i + 1..];
  }

  lemma KeptNothing(d: Dialect, p: Part, lines: seq<string>)
    ensures Kept(d, p, lines[|lines|..]) == []
  {}

  // ---------------------------------------------------------------------------
  // Normal forms
  // ---------------------------------------------------------------------------

  /** A line normalisation leaves as it is. */
  predicate Canonical(d: Dialect, p: Part, l: string) {
    Keep(d, p, l) && StripEnd(d, l) == l && Unbroken(d, l)
  }

  predicate Unbroken(d: Dialect, l: string) {
    forall k | 0 <= k < |l| :: !LineBreak(d, l[k])
  }

  predicate AllCanonical(d: Dialect, p: Part, ls: seq<string>) {
    forall k | 0 <= k < |ls| :: Canonical(d, p, ls[k])
  }

  lemma {:induction false} StripEndTwice(d: Dialect, s: string)
    ensures StripEnd(d, StripEnd(d, s)) == StripEnd(d, s)
  {
    if s != [] && Space(d, s[|s| - 1]) { StripEndTwice(d, s[..|s| - 1]); }
  }

  lemma {:induction false} LinesUnbroken(d: Dialect, s: string)
    ensures forall k :: 0 <= k < |Lines(d, s)| ==> Unbroken(d, Lines(d, s)[k])
    decreases |s|
  {
    if s != [] {
      var k := Cut(d, s);
      if k < |s| { LinesUnbroken(d, s[k + BreakWidth(d, s, k)..]); }
    }
  }

  lemma {:induction false} KeptCanonical(d: Dialect, p: Part, lines: seq<string>)
    requires forall k :: 0 <= k < |lines| ==> Unbroken(d, lines[k])
    ensures AllCanonical(d, p, Kept(d, p, lines))
  {
    if lines != [] {
      KeptCanonical(d, p, lines[1..]);
      StripEndTwice(d, lines[0]);
    }
  }

  lemma {:induction false} KeptOfCanonical(d: Dialect, p: Part, ls: seq<string>)
    requires AllCanonical(d, p, ls)
    ensures Kept(d, p, ls) == ls
  {
    if ls != [] {
      assert Canonical(d, p, ls[0]);
      KeptOfCanonical(d, p, ls[1..]);
    }
  }

  lemma CanonicalEnds(d: Dialect, p: Part, l: string)
    requires Canonical(d, p, l)
    ensures l != [] && Unbroken(d, l) && Body(d, l) == l
  {}

  lemma NoLines(d: Dialect)
    ensures Lines(d, []) == []
  {}

  lemma OneUnbroken(d: Dialect, l: string)
    requires Unbroken(d, l) && l != []
    ensures Lines(d, l) == [l]
  {
    CutAt(d, l, "");
  }

  lemma CutAt(d: Dialect, l: string, rest: string)
    requires Unbroken(d, l)
    ensures Cut(d, l) == |l| && Cut(d, l + "\n" + rest) == |l|
  {
    var s := l + "\n" + rest;
    assert forall j | 0 <= j < |l| :: s[j] == l[j];
    assert s[|l|] == '\n';
  }

  lemma {:induction false} LinesOfJoin(d: Dialect, p: Part, ls: seq<string>)
    requires AllCanonical(d, p, ls)
    ensures Lines(d, Join(ls)) == ls
  {
    hide Lines, Canonical, Body, Unbroken;
    if ls == [] {
      NoLines(d);
    } else {
      var l := ls[0];
      CanonicalEnds(d, p, l);
      if |ls| == 1 {
        OneUnbroken(d, l);
      } else {
        LinesOfJoin(d, p, ls[1..]);
        LinesStep(d, l, Join(ls[1..]));
      }
    }
  }

  lemma LinesStep(d: Dialect, l: string, rest: string)
    requires Unbroken(d, l)
    ensures Lines(d, l + "\n" + rest) == [Body(d, l)] + Lines(d, rest)
  {
    hide Body, Unbroken;
    var s := l + "\n" + rest;
    CutAt(d, l, rest);
    assert s[|l|] == '\n' && s[..|l|] == l && s[|l| + 1..] == rest;
    LinesCut(d, s);
  }

  lemma LinesUnfold(d: Dialect, s: string)
    requires Cut(d, s) < |s|
    ensures Lines(d, s) == [Body(d, s[..Cut(d, s)])] + Lines(d, AfterBreak(d, s, Cut(d, s)))
  {
    hide Cut, Body, AfterBreak, BreakWidth, LineBreak;
  }

  lemma LinesCut(d: Dialect, s: string)
    requires Cut(d, s) < |s|
    ensures var k := Cut(d, s);
            Lines(d, s) == [Body(d, s[..k])] + Lines(d, s[k + BreakWidth(d, s, k)..])
  {
    hide Lines, Cut, Body, BreakWidth, LineBreak;
    LinesUnfold(d, s);
  }

  /** A normal form splits back into exactly the lines that were kept. */
  lemma NormalReadsBack(d: Dialect, p: Part, text: string)
    ensures Lines(d, Normal(d, p, text)) == KeptOf(d, p, text)
    ensures AllCanonical(d, p, KeptOf(d, p, text))
  {
    LinesUnbroken(d, text);
    KeptCanonical(d, p, Lines(d, text));
    LinesOfJoin(d, p, KeptOf(d, p, text));
  }

  lemma NormalTwice(d: Dialect, p: Part, text: string)
    ensures Normal(d, p, Normal(d, p, text)) == Normal(d, p, text)
  {
    NormalReadsBack(d, p, text);
    KeptOfCanonical(d, p, KeptOf(d, p, text));
  }

  /** Two suites have one normal form exactly when the same stripped lines remain of them. */
  lemma SameNormalSameLines(d: Dialect, p: Part, x: string, y: string)
    ensures Normal(d, p, x) == Normal(d, p, y) <==> KeptOf(d, p, x) == KeptOf(d, p, y)
  {
    NormalReadsBack(d, p, x);
    NormalReadsBack(d, p, y);
  }

  // ---------------------------------------------------------------------------
  // What normalisation does not see
  // ---------------------------------------------------------------------------

  /** The start of the text, or just behind a newline. */
  predicate AtLineStart(a: string) {
    a == [] || a[|a| - 1] == '\n'
  }

  lemma {:induction false} LinesConcat(d: Dialect, a: string, b: string)
    requires AtLineStart(a)
    ensures Lines(d, a + b) == Lines(d, a) + Lines(d, b)
    decreases |a|
  {
    hide Lines, Body, Cut, BreakWidth, LineBreak;
    if a == [] {
      assert a + b == b;
      NoLines(d);
    } else {
      var s := a + b;
      var k := Cut(d, a);
      NewlineBreaks(d, a);
      assert forall j | 0 <= j <= k :: s[j] == a[j];
      CutPrefix(d, s, k);
      assert s[..k] == a[..k];
      SameBreakWidth(d, a, b, k);
      var n := BreakWidth(d, a, k);
      assert s[k + n..] == a[k + n..] + b;
      LinesConcat(d, a[k + n..], b);
      LinesCut(d, a);
      LinesCut(d, s);
      ConcatAssociates([Body(d, a[..k])], Lines(d, a[k + n..]), Lines(d, b));
    }
  }

  lemma NewlineBreaks(d: Dialect, a: string)
    requires a != [] && AtLineStart(a)
    ensures Cut(d, a) < |a|
  {
    assert LineBreak(d, a[|a| - 1]);
  }

  lemma SameBreakWidth(d: Dialect, a: string, b: string, k: nat)
    requires k < |a| && AtLineStart(a)
    ensures (a + b)[k] == a[k] && BreakWidth(d, a + b, k) == BreakWidth(d, a, k)
  {
    assert (a + b)[k] == a[k];
    if k + 1 < |a| { assert (a + b)[k + 1] == a[k + 1]; }
  }

  lemma {:induction false} CutPrefix(d: Dialect, s: string, k: nat)
    requires k < |s| && LineBreak(d, s[k]) && forall j :: 0 <= j < k ==> !LineBreak(d, s[j])
    ensures Cut(d, s) == k
  {}

  lemma {:induction false} KeptConcat(d: Dialect, p: Part, xs: seq<string>, ys: seq<string>)
    ensures Kept(d, p, xs + ys) == Kept(d, p, xs) + Kept(d, p, ys)
  {
    if xs == [] {
      assert xs + ys == ys;
    } else {
      assert (xs + ys)[1..] == xs[1..] + ys;
      KeptConcat(d, p, xs[1..], ys);
    }
  }

  lemma OneLine(d: Dialect, l: string)
    requires Unbroken(d, l)
    ensures Lines(d, l + "\n") == [Body(d, l)]
  {
    LinesStep(d, l, "");
    assert l + "\n" == l + "\n" + "";
  }

  /** Every text is its lines, one after the other. */
  lemma KeptByLines(d: Dialect, p: Part, a: string, l: string, b: string)
    requires AtLineStart(a) && Unbroken(d, l)
    ensures KeptOf(d, p, a + (l + "\n") + b) == KeptOf(d, p, a) + KeptLine(d, p, Body(d, l)) + KeptOf(d, p, b)
  {
    var line := l + "\n";
    assert AtLineStart(a + line);
    LinesConcat(d, a + line, b);
    LinesConcat(d, a, line);
    OneLine(d, l);
    KeptConcat(d, p, Lines(d, a) + [Body(d, l)], Lines(d, b));
    KeptConcat(d, p, Lines(d, a), [Body(d, l)]);
    assert Kept(d, p, [Body(d, l)]) == KeptLine(d, p, Body(d, l));
  }

  predicate Ignored(d: Dialect, p: Part, l: string) {
    KeptLine(d, p, Body(d, l)) == []
  }

  lemma {:induction false} StripStartBlank(d: Dialect, s: string)
    requires forall k :: 0 <= k < |s| ==> Space(d, s[k])
    ensures StripStart(d, s) == [] && StripEnd(d, s) == []
  {
    if s != [] {
      StripStartBlank(d, s[1..]);
      StripEndOfSpaces(d, [], s);
    }
  }

  lemma {:induction false} StripEndOfSpaces(d: Dialect, l: string, w: string)
    requires forall k :: 0 <= k < |w| ==> Space(d, w[k])
    ensures StripEnd(d, l + w) == StripEnd(d, l)
  {
    if w == [] {
      assert l + w == l;
    } else {
      assert (l + w)[..|l + w| - 1] == l + w[..|w| - 1];
      StripEndOfSpaces(d, l, w[..|w| - 1]);
    }
  }

  /** A line of white space is ignored, and so is white space before a comment mark. */
  lemma BlankIsIgnored(d: Dialect, p: Part, l: string)
    requires forall k :: 0 <= k < |l| ==> Space(d, l[k])
    ensures Ignored(d, p, l)
  {
    var b := Body(d, l);
    StripStartBlank(d, b);
    StripStartBlank(d, "");
  }

  lemma {:induction false} StripStartOfSpaces(d: Dialect, w: string, t: string)
    requires (forall k :: 0 <= k < |w| ==> Space(d, w[k])) && (t != [] ==> !Space(d, t[0]))
    ensures StripStart(d, w + t) == t
  {
    if w == [] {
      assert w + t == t;
    } else {
      assert (w + t)[1..] == w[1..] + t;
      StripStartOfSpaces(d, w[1..], t);
    }
  }

  lemma {:induction false} StripEndTail(d: Dialect, w: string, t: string)
    requires t != [] && !Space(d, t[0])
    ensures StripEnd(d, w + t) == w + StripEnd(d, t) && StripEnd(d, t) != [] && StripEnd(d, t)[0] == t[0]
  {
    if Space(d, t[|t| - 1]) {
      assert (w + t)[..|w + t| - 1] == w + t[..|t| - 1];
      StripEndTail(d, w, t[..|t| - 1]);
    }
  }

  /** What makes a line a comment: the mark behind any indentation; `#` only when a space or the
      end of the line follows. */
  predicate Marked(d: Dialect, p: Part, t: string) {
    match p
    case Sql => |t| >= 2 && t[0] == '-' && t[1] == '-'
    case Expected => StripEnd(d, t) == "#" || (|StripEnd(d, t)| >= 2 && t[0] == '#' && t[1] == ' ')
  }

  /** Exactly the blank lines and the comment lines are ignored. */
  lemma IgnoredExactly(d: Dialect, p: Part, w: string, t: string)
    requires (forall k :: 0 <= k < |w| ==> Space(d, w[k])) && (t != [] ==> !Space(d, t[0]))
    ensures Ignored(d, p, w + t) <==> t == "" || Marked(d, p, t)
  {
    hide StripEnd, StripStart, Body, Space;
    BodyStrips(d, w + t);
    var u := StripEnd(d, t);
    if t == "" {
      assert w + t == w;
      BlankIsIgnored(d, p, w);
    } else {
      StripEndTail(d, w, t);
      StripStartOfSpaces(d, w, u);
      StripEndTwice(d, t);
      assert KeptLine(d, p, Body(d, w + t)) == [] <==> IsComment(p, u);
      if p.Sql? && Marked(d, p, t) { StripEndKeeps(d, t, 1); }
    }
  }

  lemma {:induction false} StripEndKeeps(d: Dialect, s: string, n: nat)
    requires n < |s| && !Space(d, s[n])
    ensures |StripEnd(d, s)| > n
  {
    if Space(d, s[|s| - 1]) { StripEndKeeps(d, s[..|s| - 1], n); }
  }

  /** Blank lines, comment lines and trailing white space leave the normal form alone. */
  lemma BlindToIgnoredLines(d: Dialect, p: Part, a: string, l: string, b: string)
    requires AtLineStart(a) && Unbroken(d, l) && Ignored(d, p, l)
    ensures Normal(d, p, a + (l + "\n") + b) == Normal(d, p, a + b)
  {
    hide KeptLine;
    KeptByLines(d, p, a, l, b);
    LinesConcat(d, a, b);
    KeptConcat(d, p, Lines(d, a), Lines(d, b));
    assert KeptOf(d, p, a) + KeptLine(d, p, Body(d, l)) == KeptOf(d, p, a);
    assert KeptOf(d, p, a + (l + "\n") + b) == KeptOf(d, p, a + b);
  }

  lemma BlindToTrailingSpace(d: Dialect, p: Part, a: string, l: string, w: string, b: string)
    requires AtLineStart(a) && Unbroken(d, l + w) && forall k :: 0 <= k < |w| ==> Space(d, w[k])
    ensures Normal(d, p, a + (l + w + "\n") + b) == Normal(d, p, a + (l + "\n") + b)
  {
    assert forall k | 0 <= k < |l| :: (l + w)[k] == l[k];
    KeptByLines(d, p, a, l + w, b);
    KeptByLines(d, p, a, l, b);
    BodyStrips(d, l + w);
    BodyStrips(d, l);
    StripEndOfSpaces(d, l, w);
  }

  lemma BodyStrips(d: Dialect, l: string)
    ensures StripEnd(d, Body(d, l)) == StripEnd(d, l)
  {}
}
