/** Which `delta_scan` calls stand at top level: outside quotes and comments, as the statement
    splitter walks the text (crates/ducklink-host/src/delta_rewrite.rs:111-191,
    crates/ducklink-host/src/at5_intercept.rs:161-257). */
module DeltaTopLevel {
  import opened Wrappers
  import opened Chars
  import opened SqlText
  import opened SqlWalk
  import opened Utf8
  import opened Literals
  import opened DeltaRewrite

  /** The walk from `i` comes by `p` outside quotes and comments. */
  predicate Meets(s: string, i: nat, m: Mode, p: nat)
    requires i <= |s|
    decreases |s| - i
  {
    (i == p && m == Code) || (i < p && i < |s| && Meets(s, Next(s, i, m).0, Next(s, i, m).1, p))
  }

  predicate TopLevel(s: string, p: nat) {
    Meets(s, 0, Code, p)
  }

  /** The calls as documented: the left-to-right matches that the walk meets at top level. */
  function TopCalls(s: string, i: nat, m: Mode): seq<Call>
    requires i <= |s|
    decreases |s| - i
  {
    if i == |s| then []
    else if m == Code && MatchAt(s, i).Some? then [MatchAt(s, i).value] + TopCalls(s, MatchAt(s, i).value.end, Code)
    else TopCalls(s, Next(s, i, m).0, Next(s, i, m).1)
  }

  // ---------------------------------------------------------------------------
  // The walk comes out of a call at top level
  // ---------------------------------------------------------------------------

  /** From `i` in mode `m` the walk gets to `j` in mode `n`. */
  predicate Walks(s: string, i: nat, m: Mode, j: nat, n: Mode)
    requires i <= |s|
    decreases |s| - i
  {
    (i == j && m == n) || (i < j && i < |s| && Walks(s, Next(s, i, m).0, Next(s, i, m).1, j, n))
  }

  lemma {:induction false} WalksOn(s: string, i: nat, m: Mode, j: nat, n: Mode, p: nat)
    requires i <= |s| && j <= |s| && Walks(s, i, m, j, n)
    ensures p >= j ==> (Meets(s, i, m, p) <==> Meets(s, j, n, p))
    ensures forall k, q :: Walks(s, j, n, k, q) ==> Walks(s, i, m, k, q)
    decreases |s| - i
  {
    hide Next;
    if !(i == j && m == n) {
      var r := Next(s, i, m);
      WalksOn(s, r.0, r.1, j, n, p);
      forall k, q | Walks(s, j, n, k, q) ensures Walks(s, i, m, k, q) { WalksForward(s, j, n, k, q); }
    }
  }

  lemma {:induction false} WalksForward(s: string, i: nat, m: Mode, j: nat, n: Mode)
    requires i <= |s| && Walks(s, i, m, j, n)
    ensures i <= j
  {}

  /** A character that starts no comment and no literal. */
  lemma QuietStep(s: string, i: nat)
    requires i < |s| && s[i] !in "'\"-/"
    ensures Next(s, i, Code) == (i + 1, Code)
  {}

  lemma {:induction false} WalksQuiet(s: string, i: nat, j: nat)
    requires i <= j <= |s| && forall k :: i <= k < j ==> s[k] !in "'\"-/"
    ensures Walks(s, i, Code, j, Code)
    decreases j - i
  {
    hide Next;
    if i < j {
      QuietStep(s, i);
      WalksQuiet(s, i + 1, j);
    }
  }

  lemma {:induction false} WalksSpace(s: string, i: nat)
    requires i <= |s|
    ensures Walks(s, i, Code, SkipSpace(s, i), Code)
    decreases |s| - i
  {
    hide Next;
    if i < |s| && IsAsciiSpace(s[i]) {
      QuietStep(s, i);
      WalksSpace(s, i + 1);
    }
  }

  /** Inside a literal, up to behind its closing quote. */
  lemma {:induction false} WalksLiteral(s: string, i: nat)
    requires i <= |s| && AfterOpeningQuote(s[i..]).Some?
    ensures var rest := AfterOpeningQuote(s[i..]).value.1;
      |rest| < |s[i..]| && Walks(s, i, Single, |s| - |rest|, Code)
    decreases |s| - i
  {
    var t := s[i..];
    RestIsShorter(t);
    assert t[0] == s[i];
    if t[0] != '\'' {
      assert t[1..] == s[i + 1..];
      RestIsShorter(t[1..]);
      WalksLiteral(s, i + 1);
    } else if |t| > 1 && t[1] == '\'' {
      assert t[2..] == s[i + 2..] && t[1] == s[i + 1];
      RestIsShorter(t[2..]);
      WalksLiteral(s, i + 2);
      assert Next(s, i, Single) == (i + 1, Code) && Next(s, i + 1, Code) == (i + 2, Single);
    } else {
      assert Next(s, i, Single) == (i + 1, Code);
    }
  }

  lemma WalksThrough(s: string, i: nat, m: Mode, j: nat, n: Mode, k: nat, q: Mode)
    requires i <= |s| && j <= |s| && Walks(s, i, m, j, n) && Walks(s, j, n, k, q)
    ensures Walks(s, i, m, k, q)
  {
    WalksOn(s, i, m, j, n, j);
  }

  lemma NameIsQuiet(s: string, p: nat)
    requires p + 10 <= |s| && forall n :: 0 <= n < 10 ==> Lower(s[p..p + 10][n]) == NEEDLE[n]
    ensures forall k :: p <= k < p + 10 ==> s[k] !in "'\"-/"
  {
    forall k | p <= k < p + 10 ensures s[k] !in "'\"-/" {
      assert s[k] == s[p..p + 10][k - p] && Lower(s[p..p + 10][k - p]) == NEEDLE[k - p];
      NeedleChar(k - p);
    }
  }

  lemma NeedleChar(n: nat)
    requires n < 10
    ensures NEEDLE[n] in "delta_scan"
  {}

  /** A call holds no comment, and its literal is closed: behind it the walk is at top level. */
  lemma WalksCall(s: string, p: nat)
    requires MatchAt(s, p).Some?
    ensures Walks(s, p, Code, MatchAt(s, p).value.end, Code)
  {
    hide MatchAt, Walks, Next, SkipSpace, AfterOpeningQuote, Lower, IsWord;
    var i, j, rest, k := MatchParts(s, p);
    var r := |s| - |rest|;
    NameIsQuiet(s, p);
    WalksQuiet(s, p, p + 10);
    WalksSpace(s, p + 10);
    WalksThrough(s, p, Code, p + 10, Code, i, Code);
    assert s[i] == s[i..i + 1][0] && s[k] == s[k..k + 1][0];
    WalksQuiet(s, i, i + 1);
    WalksThrough(s, p, Code, i, Code, i + 1, Code);
    WalksSpace(s, i + 1);
    WalksThrough(s, p, Code, i + 1, Code, j, Code);
    OpensLiteral(s, j);
    WalksThrough(s, p, Code, j, Code, j + 1, Single);
    WalksLiteral(s, j + 1);
    WalksThrough(s, p, Code, j + 1, Single, r, Code);
    WalksSpace(s, r);
    WalksThrough(s, p, Code, r, Code, k, Code);
    WalksQuiet(s, k, k + 1);
    WalksThrough(s, p, Code, k, Code, k + 1, Code);
  }

  lemma OpensLiteral(s: string, j: nat)
    requires j < |s| && s[j] == '\''
    ensures Walks(s, j, Code, j + 1, Single)
  {}

  // ---------------------------------------------------------------------------
  // When the search finds the documented calls
  // ---------------------------------------------------------------------------

  ghost predicate AllMet(s: string, i: nat, m: Mode, cs: seq<Call>)
    requires i <= |s|
  {
    forall c :: c in cs ==> Meets(s, i, m, c.start)
  }

  ghost predicate Inside(cs: seq<Call>, p: nat) {
    exists k :: 0 <= k < |cs| && cs[k].start < p < cs[k].end
  }

  /** Matches the walk does not meet at top level lie inside a documented call. */
  ghost predicate OthersInside(s: string, i: nat, m: Mode)
    requires i <= |s|
  {
    forall p :: i <= p && MatchAt(s, p).Some? && !Meets(s, i, m, p) ==> Inside(TopCalls(s, i, m), p)
  }

  /** Documented calls are met, and lie behind `i`. */
  lemma {:induction false} TopCallsMet(s: string, i: nat, m: Mode)
    requires i <= |s|
    ensures AllMet(s, i, m, TopCalls(s, i, m))
    ensures forall c :: c in TopCalls(s, i, m) ==> i <= c.start < c.end <= |s|
    decreases |s| - i
  {
    hide MatchAt, Next, Walks;
    if i < |s| {
      if m == Code && MatchAt(s, i).Some? {
        var e := MatchAt(s, i).value.end;
        TopCallsMet(s, e, Code);
        WalksCall(s, i);
        forall c | c in TopCalls(s, e, Code) ensures Meets(s, i, m, c.start) { WalksOn(s, i, Code, e, Code, c.start); }
      } else {
        TopCallsMet(s, Next(s, i, m).0, Next(s, i, m).1);
      }
    }
  }

  /** No match between here and there: the search goes on from there. */
  lemma {:induction false} NoMatchBetween(s: string, i: nat, j: nat)
    requires i <= j <= |s| && forall p :: i <= p < j ==> MatchAt(s, p).None?
    ensures Calls(s, i) == Calls(s, j)
    decreases j - i
  {
    hide MatchAt;
    if i < j { NoMatchBetween(s, i + 1, j); }
  }

  lemma StepMeets(s: string, i: nat, m: Mode, p: nat)
    requires i < |s|
    ensures i < p < Next(s, i, m).0 ==> !Meets(s, i, m, p)
    ensures i < p ==> (Meets(s, i, m, p) <==> Meets(s, Next(s, i, m).0, Next(s, i, m).1, p))
    ensures Meets(s, i, m, i) <==> m == Code
  {
    hide Next;
    var r := Next(s, i, m);
    if Meets(s, r.0, r.1, p) { MeetsForward(s, r.0, r.1, p); }
  }

  lemma {:induction false} MeetsForward(s: string, i: nat, m: Mode, p: nat)
    requires i <= |s| && Meets(s, i, m, p)
    ensures i <= p
  {}

  /** If what lies elsewhere is inside documented calls, the search finds just those. */
  lemma {:induction false} FindsDocumented(s: string, i: nat, m: Mode)
    requires i <= |s| && OthersInside(s, i, m)
    ensures Calls(s, i) == TopCalls(s, i, m)
    decreases |s| - i
  {
    hide MatchAt, Next, Meets;
    if i < |s| {
      if m == Code && MatchAt(s, i).Some? {
        BehindCall(s, i);
        FindsDocumented(s, MatchAt(s, i).value.end, Code);
      } else {
        BehindStep(s, i, m);
        var r := Next(s, i, m);
        NoMatchBetween(s, i, r.0);
        FindsDocumented(s, r.0, r.1);
      }
    }
  }

  lemma BehindCall(s: string, i: nat)
    requires i < |s| && MatchAt(s, i).Some? && OthersInside(s, i, Code)
    ensures OthersInside(s, MatchAt(s, i).value.end, Code)
  {
    hide MatchAt, Next, Meets, Walks;
    var c := MatchAt(s, i).value;
    var rest := TopCalls(s, c.end, Code);
    WalksCall(s, i);
    assert TopCalls(s, i, Code) == [c] + rest;
    forall p | c.end <= p && MatchAt(s, p).Some? && !Meets(s, c.end, Code, p) ensures Inside(rest, p) {
      WalksOn(s, i, Code, c.end, Code, p);
      var k :| 0 <= k < |[c] + rest| && ([c] + rest)[k].start < p < ([c] + rest)[k].end;
      assert k > 0 && rest[k - 1] == ([c] + rest)[k];
    }
  }

  lemma NotInsideLater(s: string, j: nat, m: Mode, p: nat)
    requires p < j <= |s|
    ensures !Inside(TopCalls(s, j, m), p)
  {
    hide TopCalls;
    TopCallsMet(s, j, m);
    var cs := TopCalls(s, j, m);
    forall k | 0 <= k < |cs| ensures !(cs[k].start < p < cs[k].end) { assert cs[k] in cs; }
  }

  lemma BehindStep(s: string, i: nat, m: Mode)
    requires i < |s| && !(m == Code && MatchAt(s, i).Some?) && OthersInside(s, i, m)
    ensures OthersInside(s, Next(s, i, m).0, Next(s, i, m).1)
    ensures forall p :: i <= p < Next(s, i, m).0 ==> MatchAt(s, p).None?
  {
    hide MatchAt, Next, Meets;
    var r := Next(s, i, m);
    assert TopCalls(s, i, m) == TopCalls(s, r.0, r.1);
    forall p | i <= p < r.0 ensures MatchAt(s, p).None? {
      StepMeets(s, i, m, p);
      NotInsideLater(s, r.0, r.1, p);
    }
    forall p | r.0 <= p && MatchAt(s, p).Some? && !Meets(s, r.0, r.1, p) ensures Inside(TopCalls(s, r.0, r.1), p) {
      StepMeets(s, i, m, p);
    }
  }

  lemma HeadOfCalls(s: string, i: nat, p: nat)
    requires i <= p < |s| && MatchAt(s, p).Some? && forall q :: i <= q < p ==> MatchAt(s, q).None?
    ensures Calls(s, i) == [MatchAt(s, p).value] + Calls(s, MatchAt(s, p).value.end)
  {
    hide MatchAt;
    NoMatchBetween(s, i, p);
  }

  /** If all that is found stands at top level, it is what is documented. */
  lemma {:induction false} FoundAreDocumented(s: string, i: nat, m: Mode)
    requires i <= |s| && AllMet(s, i, m, Calls(s, i))
    ensures Calls(s, i) == TopCalls(s, i, m)
    decreases |s| - i
  {
    hide MatchAt, Next, Meets, Walks;
    if i < |s| {
      if m == Code && MatchAt(s, i).Some? {
        var c := MatchAt(s, i).value;
        CallsAreOrdered(s, c.end);
        WalksCall(s, i);
        assert Calls(s, i) == [c] + Calls(s, c.end);
        forall d | d in Calls(s, c.end) ensures Meets(s, c.end, Code, d.start) {
          assert d in Calls(s, i);
          WalksOn(s, i, Code, c.end, Code, d.start);
        }
        FoundAreDocumented(s, c.end, Code);
      } else {
        var r := Next(s, i, m);
        NoneOnTheWay(s, i, m);
        NoMatchBetween(s, i, r.0);
        CallsAreOrdered(s, r.0);
        forall d | d in Calls(s, r.0) ensures Meets(s, r.0, r.1, d.start) { StepMeets(s, i, m, d.start); }
        FoundAreDocumented(s, r.0, r.1);
      }
    }
  }

  lemma FoundIsMet(s: string, i: nat, m: Mode, p: nat)
    requires i <= p < |s| && MatchAt(s, p).Some?
      && (forall q :: i <= q < p ==> MatchAt(s, q).None?) && AllMet(s, i, m, Calls(s, i))
    ensures Meets(s, i, m, p)
  {
    hide MatchAt, Meets, Calls;
    HeadOfCalls(s, i, p);
    StartsThere(s, p);
    assert MatchAt(s, p).value in Calls(s, i);
  }

  /** The first match on the way would be found, and is not met. */
  lemma NoneOnTheWay(s: string, i: nat, m: Mode)
    requires i < |s| && !(m == Code && MatchAt(s, i).Some?) && AllMet(s, i, m, Calls(s, i))
    ensures forall p :: i <= p < Next(s, i, m).0 ==> MatchAt(s, p).None?
  {
    hide MatchAt, Next, Meets, Calls;
    var r := Next(s, i, m);
    var p := i;
    while p < r.0
      invariant i <= p <= r.0 && forall q :: i <= q < p ==> MatchAt(s, q).None?
    {
      StepMeets(s, i, m, p);
      if MatchAt(s, p).Some? { FoundIsMet(s, i, m, p); }
      p := p + 1;
    }
  }

  lemma StartsThere(s: string, p: nat)
    ensures MatchAt(s, p).Some? ==> MatchAt(s, p).value.start == p
  {}

  ghost predicate AllTopLevel(s: string) {
    forall c :: c in Calls(s, 0) ==> TopLevel(s, c.start)
  }

  /** Only top-level calls are found exactly when every match in a literal or comment lies inside a
      top-level call; and then all of these are found. */
  lemma TopLevelExactlyWhen(s: string)
    ensures AllTopLevel(s) <==> forall p :: MatchAt(s, p).Some? && !TopLevel(s, p) ==> Inside(TopCalls(s, 0, Code), p)
    ensures AllTopLevel(s) <==> Calls(s, 0) == TopCalls(s, 0, Code)
  {
    hide MatchAt, Calls, TopCalls, Meets;
    if AllTopLevel(s) { FoundAreDocumented(s, 0, Code); }
    if OthersInside(s, 0, Code) { FindsDocumented(s, 0, Code); }
    TopCallsMet(s, 0, Code);
    if Calls(s, 0) == TopCalls(s, 0, Code) {
      CallsAreOrdered(s, 0);
      forall p: nat | MatchAt(s, p).Some? && !TopLevel(s, p) ensures Inside(TopCalls(s, 0, Code), p) {
        CallsAreComplete(s, 0, p);
        var k :| 0 <= k < |Calls(s, 0)| && Calls(s, 0)[k].start <= p < Calls(s, 0)[k].end;
        assert Calls(s, 0)[k] in TopCalls(s, 0, Code);
      }
    }
  }

  /** A guard before the call: no occurrence of the name in a literal or a comment. */
  lemma NoNameElsewhere(s: string)
    requires forall p :: NeedleAt(s, p) ==> TopLevel(s, p)
    ensures AllTopLevel(s) && Calls(s, 0) == TopCalls(s, 0, Code)
  {
    hide MatchAt, Calls, TopCalls, Meets, NeedleAt;
    forall p | MatchAt(s, p).Some? ensures NeedleAt(s, p) { MatchHasName(s, p); }
    TopLevelExactlyWhen(s);
  }

  lemma MatchHasName(s: string, p: nat)
    requires MatchAt(s, p).Some?
    ensures NeedleAt(s, p)
  {}

  // ---------------------------------------------------------------------------
  // Calls that are found elsewhere
  // ---------------------------------------------------------------------------

  /** A call at `p`, behind a text without the name. */
  lemma OneCall(pre: string, dir: string, post: string)
    requires |pre| <= 2 && (pre != [] ==> !IsWord(pre[|pre| - 1])) && (forall p :: 0 <= p < |pre| ==> pre[p] !in "dD")
    requires forall k :: 0 <= k < |post| ==> post[k] !in "dD"
    ensures var s := pre + ("delta_scan(" + (Quote(dir) + (")" + post)));
      Calls(s, 0) == [Call(|pre|, |s| - |post|, BytesAsChars(dir))]
  {
    hide MatchAt, Quote, BytesAsChars, IsWord;
    var p := |pre|;
    var t := "delta_scan" + ("" + ("(" + ("" + (Quote(dir) + ("" + (")" + post))))));
    var s := pre + ("delta_scan(" + (Quote(dir) + (")" + post)));
    assert s == pre + t && s[p..] == t;
    assert p > 0 ==> s[p - 1] == pre[p - 1];
    WrittenCallMatches(s, p, "delta_scan", "", "", dir, "", post);
    forall q | 0 <= q < p ensures MatchAt(s, q).None? {
      assert s[q] == pre[q];
      NoNameWithoutD(s, q);
    }
    HeadOfCalls(s, 0, p);
    var e := |s| - |post|;
    forall q | e <= q < |s| ensures MatchAt(s, q).None? {
      assert s[q] == post[q - e];
      NoNameWithoutD(s, q);
    }
    NoMatchBetween(s, e, |s|);
  }

  lemma NameStarts(s: string, p: nat)
    requires NeedleAt(s, p)
    ensures s[p] in "dD"
  {
    assert Lower(s[p + 0]) == NEEDLE[0] == 'd';
  }

  lemma NoNameWithoutD(s: string, p: nat)
    requires p < |s| && s[p] !in "dD"
    ensures MatchAt(s, p).None?
  {
    if NeedleAt(s, p) { NameStarts(s, p); }
  }

  /** A call in a comment is found, though it is no documented one. */
  lemma FoundInsideComment(dir: string)
    ensures var s := "--delta_scan(" + (Quote(dir) + (")" + ""));
      Calls(s, 0) == [Call(2, |s|, BytesAsChars(dir))] && !TopLevel(s, 2)
  {
    hide Calls, Quote, BytesAsChars;
    var s := "--delta_scan(" + (Quote(dir) + (")" + ""));
    OneCall("--", dir, "");
    assert s == "--" + ("delta_scan(" + (Quote(dir) + (")" + "")));
    assert s[0] == '-' && s[1] == '-';
    StepMeets(s, 0, Code, 2);
    assert Next(s, 0, Code).0 >= 2;
    CommentRuns(s);
  }

  lemma CommentRuns(s: string)
    requires |s| > 2 && s[0] == '-' && s[1] == '-' && s[2] != '\n'
    ensures Next(s, 0, Code).0 > 2
  {}

  /** Text between two literals is taken for a call's argument. */
  lemma FoundInsideLiteral(dir: string)
    ensures var s := "'delta_scan(" + (Quote(dir) + (")" + "'"));
      Calls(s, 0) == [Call(1, |s| - 1, BytesAsChars(dir))] && !TopLevel(s, 1)
  {
    hide Calls, BytesAsChars, Quote, Meets;
    var q := Quote(dir) + (")" + "'");
    var s := "'delta_scan(" + q;
    OneCall("'", dir, "'");
    assert s == "'" + ("delta_scan(" + q);
    assert s[0] == '\'' && s[1] == 'd';
    StepMeets(s, 0, Code, 1);
    OpensAtOnce(s);
    StepMeets(s, 1, Single, 1);
  }

  lemma OpensAtOnce(s: string)
    requires |s| > 1 && s[0] == '\''
    ensures Next(s, 0, Code) == (1, Single)
  {}
}
