/** Finding and rewriting `delta_scan('dir')` calls
    (crates/ducklink-host/src/delta_rewrite.rs:97-288). */
module DeltaRewrite {
  import opened Wrappers
  import opened Chars
  import opened SqlText
  import opened Utf8
  import opened Literals

  datatype Call = Call(start: nat, end: nat, dir: string)

  const NEEDLE: string := "delta_scan"

  // ---------------------------------------------------------------------------
  // The grammar of a call
  // ---------------------------------------------------------------------------

  predicate NeedleAt(s: string, p: nat) {
    p + 10 <= |s| && forall k | 0 <= k < 10 :: Lower(s[p + k]) == NEEDLE[k]
  }

  function SkipSpace(s: string, i: nat): (j: nat)
    requires i <= |s|
    ensures i <= j <= |s|
    decreases |s| - i
  {
    if i < |s| && IsAsciiSpace(s[i]) then SkipSpace(s, i + 1) else i
  }

  /** The call that starts at `p`, if one does: the name with no identifier character before
      it, `(`, one quoted literal, `)`, with white space anywhere between them. */
  function MatchAt(s: string, p: nat): (c: Option<Call>)
    ensures c.Some? ==> c.value.start == p && p < c.value.end <= |s|
  {
    if !NeedleAt(s, p) || (p > 0 && IsWord(s[p - 1])) then None else
    var i := SkipSpace(s, p + 10);
    if i == |s| || s[i] != '(' then None else
    var j := SkipSpace(s, i + 1);
    if j == |s| || s[j] != '\'' then None else
    match AfterOpeningQuote(s[j + 1..])
    case None => None
    case Some((dir, rest)) =>
      RestIsShorter(s[j + 1..]);
      var k := SkipSpace(s, |s| - |rest|);
      if k == |s| || s[k] != ')' then None else Some(Call(p, k + 1, dir))
  }

  lemma {:induction false} RestIsShorter(t: string)
    ensures var r := AfterOpeningQuote(t); r.Some? ==> |r.value.1| < |t| && r.value.1 == t[|t| - |r.value.1|..]
  {
    if t != [] {
      if t[0] == '\'' && |t| > 1 && t[1] == '\'' {
        RestIsShorter(t[2..]);
      } else if t[0] != '\'' {
        RestIsShorter(t[1..]);
      }
    }
  }

  /** The left-to-right matches from `from` on: after a match the search resumes behind it. */
  function Calls(s: string, from: nat): seq<Call>
    decreases |s| - from
  {
    if from >= |s| then []
    else match MatchAt(s, from)
      case Some(c) => [c] + Calls(s, c.end)
      case None => Calls(s, from + 1)
  }

  // ---------------------------------------------------------------------------
  // The search
  // ---------------------------------------------------------------------------

  method SkipSpaces(s: string, start: nat) returns (i: nat)
    requires start <= |s|
    ensures i == SkipSpace(s, start)
  {
    i := start;
    while i < |s| && IsAsciiSpace(s[i])
      invariant start <= i <= |s| && SkipSpace(s, i) == SkipSpace(s, start)
    {
      i := i + 1;
    }
  }

  method ReadLiteral(s: string, start: nat) returns (r: Option<(string, nat)>)
    requires start <= |s|
    ensures r == match AfterOpeningQuote(s[start..]) case None => None 
      case Some((dir, rest)) => Some((dir, |s| - |rest|))
  {
    var dir, i := [], start;
    PrependAssociates([], [], AfterOpeningQuote(s[start..]));
    RestIsShorter(s[start..]);
    while i < |s|
      invariant start <= i <= |s|
      invariant AfterOpeningQuote(s[start..]) == Prepend(dir, AfterOpeningQuote(s[i..]))
    {
      var t := s[i..];
      assert t[1..] == s[i + 1..];
      if s[i] == '\'' {
        if i + 1 < |s| && s[i + 1] == '\'' {
          assert t[1] == '\'' && t[2..] == s[i + 2..];
          PrependAssociates(dir, "'", AfterOpeningQuote(t[2..]));
          dir := dir + "'";
          i := i + 2;
          continue;
        }
        assert dir + [] == dir;
        return Some((dir, i + 1));
      }
      PrependAssociates(dir, Latin1(Encode(s[i])), AfterOpeningQuote(t[1..]));
      dir := dir + Latin1(Encode(s[i]));
      i := i + 1;
    }
    return None;
  }

  /** The checks behind one occurrence of the name. */
  method TryCall(s: string, nameStart: nat) returns (c: Option<Call>)
    requires NeedleAt(s, nameStart)
    ensures c == MatchAt(s, nameStart)
  {
    if nameStart > 0 && IsWord(s[nameStart - 1]) { return None; }
    var i := SkipSpaces(s, nameStart + 10);
    if i >= |s| || s[i] != '(' { return None; }
    i := SkipSpaces(s, i + 1);
    if i >= |s| || s[i] != '\'' { return None; }
    var lit := ReadLiteral(s, i + 1);
    if lit.None? { return None; }
    i := SkipSpaces(s, lit.value.1);
    if i >= |s| || s[i] != ')' { return None; }
    return Some(Call(nameStart, i + 1, lit.value.0));
  }

  method FindNeedle(s: string, from: nat) returns (p: nat)
    requires from <= |s|
    ensures from <= p <= |s| && (p < |s| ==> NeedleAt(s, p)) && forall q :: from <= q < p ==> !NeedleAt(s, q)
  {
    p := from;
    while p < |s| && !NeedleAt(s, p)
      invariant from <= p <= |s| && forall q :: from <= q < p ==> !NeedleAt(s, q)
    {
      p := p + 1;
    }
  }

  /** Positions where the name does not occur can be skipped. */
  lemma {:induction false} SkipTo(s: string, from: nat, to: nat)
    requires from <= to <= |s| && forall q :: from <= q < to ==> !NeedleAt(s, q)
    ensures Calls(s, from) == Calls(s, to)
    decreases |s| - from
  {
    if from < to { SkipTo(s, from + 1, to); }
  }

  /** Two occurrences of the name cannot overlap. */
  lemma NoOverlap(s: string, p: nat, q: nat)
    requires NeedleAt(s, p) && p < q < p + 10
    ensures !NeedleAt(s, q)
  {
    if q + 10 <= |s| {
      assert Lower(s[p + (q - p)]) == NEEDLE[q - p] && NEEDLE[q - p] != 'd';
      assert Lower(s[q + 0]) != NEEDLE[0];
    }
  }

  method FindDeltaScanCalls(s: string) returns (calls: seq<Call>)
    ensures calls == Calls(s, 0)
  {
    hide MatchAt;
    calls := [];
    var searchFrom := 0;
    while searchFrom < |s|
      invariant searchFrom <= |s| && calls + Calls(s, searchFrom) == Calls(s, 0)
      decreases |s| - searchFrom
    {
      var nameStart := FindNeedle(s, searchFrom);
      SkipTo(s, searchFrom, nameStart);
      if nameStart == |s| { return; }
      var c := TryCall(s, nameStart);
      if c.Some? {
        ConcatAssociates(calls, [c.value], Calls(s, c.value.end));
        calls := calls + [c.value];
        searchFrom := c.value.end;
      } else {
        forall q | nameStart < q < nameStart + 10 ensures !NeedleAt(s, q) { NoOverlap(s, nameStart, q); }
        SkipTo(s, nameStart + 1, nameStart + 10);
        searchFrom := nameStart + 10;
      }
    }
  }

  // ---------------------------------------------------------------------------
  // What the search finds
  // ---------------------------------------------------------------------------

  ghost predicate OrderedMatches(s: string, cs: seq<Call>, from: nat) {
    && (forall k :: 0 <= k < |cs| ==> from <= cs[k].start < cs[k].end <= |s| && MatchAt(s, cs[k].start) == Some(cs[k]))
    && (forall j, k :: 0 <= j < k < |cs| ==> cs[j].end <= cs[k].start)
  }

  /** The ranges are within the text, in order, and disjoint; each is a match. */
  lemma {:induction false} CallsAreOrdered(s: string, from: nat)
    ensures OrderedMatches(s, Calls(s, from), from)
    decreases |s| - from
  {
    hide MatchAt;
    if from < |s| {
      var m := MatchAt(s, from);
      if m.Some? {
        CallsAreOrdered(s, m.value.end);
        assert Calls(s, from) == [m.value] + Calls(s, m.value.end);
      } else {
        CallsAreOrdered(s, from + 1);
        assert Calls(s, from) == Calls(s, from + 1);
      }
    }
  }

  /** No match is missed: each is found, or begins inside one that is. */
  lemma {:induction false} CallsAreComplete(s: string, from: nat, p: nat)
    requires from <= p && MatchAt(s, p).Some?
    ensures exists k :: 0 <= k < |Calls(s, from)| && Calls(s, from)[k].start <= p < Calls(s, from)[k].end
    decreases |s| - from
  {
    hide MatchAt;
    MatchInBounds(s, p);
    var m := MatchAt(s, from);
    if m.Some? {
      var c := m.value;
      var rest := Calls(s, c.end);
      assert Calls(s, from) == [c] + rest;
      if p < c.end {
        assert Calls(s, from)[0] == c;
      } else {
        CallsAreComplete(s, c.end, p);
        var k :| 0 <= k < |rest| && rest[k].start <= p < rest[k].end;
        assert Calls(s, from)[k + 1] == rest[k];
      }
    } else {
      CallsAreComplete(s, from + 1, p);
      assert Calls(s, from) == Calls(s, from + 1);
    }
  }

  lemma MatchInBounds(s: string, p: nat)
    requires MatchAt(s, p).Some?
    ensures p < |s|
  {}

  predicate AllSpace(w: string) {
    forall k | 0 <= k < |w| :: IsAsciiSpace(w[k])
  }

  lemma {:induction false} SkipAll(s: string, i: nat, w: string, t: string)
    requires i <= |s| && s[i..] == w + t && AllSpace(w) && t != [] && !IsAsciiSpace(t[0])
    ensures SkipSpace(s, i) == i + |w| < |s| && s[i + |w|] == t[0] && s[i + |w|..] == t
    decreases |w|
  {
    if w == [] {
      assert w + t == t && s[i] == s[i..][0];
    } else {
      assert s[i] == s[i..][0] == w[0];
      assert s[i + 1..] == s[i..][1..] == w[1..] + t;
      SkipAll(s, i + 1, w[1..], t);
    }
  }

  lemma Behind(s: string, i: nat, a: string, t: string)
    requires i <= |s| && s[i..] == a + t
    ensures i + |a| <= |s| && s[i + |a|..] == t && (a != [] ==> s[i] == a[0])
  {
    assert s[i..][|a|..] == t;
    if a != [] { assert s[i] == s[i..][0]; }
  }

  predicate IsName(name: string) {
    |name| == 10 && forall k | 0 <= k < 10 :: Lower(name[k]) == NEEDLE[k]
  }

  /** The name is looked for in any case. */
  lemma NameInAnyCase(name: string)
    ensures EqIgnoreCase(name, "delta_scan") <==> IsName(name)
    ensures IsName(name) ==> |name| == 10
  {
    assert forall k :: 0 <= k < 10 ==> Lower("delta_scan"[k]) == "delta_scan"[k];
  }

  /** A call written with any white space around any directory is a match, and its directory
      is the literal with doubled quotes undone, non-ASCII characters byte by byte. */
  lemma WrittenCallMatches(s: string, p: nat, name: string, w1: string, w2: string, dir: string, w3: string,
      post: string)
    requires EqIgnoreCase(name, "delta_scan")
    requires AllSpace(w1) && AllSpace(w2) && AllSpace(w3)
    requires p <= |s| && s[p..] == name + (w1 + ("(" + (w2 + (Quote(dir) + (w3 + (")" + post))))))
    requires p > 0 ==> !IsWord(s[p - 1])
    ensures MatchAt(s, p) == Some(Call(p, |s| - |post|, BytesAsChars(dir)))
  {
    hide *;
    var t6 := w3 + (")" + post);
    var t5 := Quote(dir) + t6;
    var t2 := w1 + ("(" + (w2 + t5));
    NameInAnyCase(name);
    NeedleFromText(s, p, name, t2);
    Behind(s, p, name, t2);
    QuoteOpens(dir, t6);
    OpenPart(s, p + 10, w1, w2, t5);
    var j := p + 10 + |w1| + 1 + |w2|;
    ClosePart(s, j, dir, w3, post);
    AssembleMatch(s, p, p + 10 + |w1|, j, BytesAsChars(dir), t6, |s| - |post| - 1);
  }

  /** Conversely, every match is a call written so. */
  lemma MatchIsWritten(s: string, p: nat)
    returns (name: string, w1: string, w2: string, dir: string, w3: string, post: string)
    requires MatchAt(s, p).Some?
    ensures EqIgnoreCase(name, "delta_scan")
    ensures AllSpace(w1) && AllSpace(w2) && AllSpace(w3)
    ensures p <= |s| && s[p..] == name + (w1 + ("(" + (w2 + (Quote(dir) + (w3 + (")" + post))))))
    ensures p > 0 ==> !IsWord(s[p - 1])
    ensures MatchAt(s, p) == Some(Call(p, |s| - |post|, BytesAsChars(dir)))
  {
    hide *;
    var i, j, rest, k := MatchParts(s, p);
    name := s[p..p + 10];
    NameInAnyCase(name);
    w1 := SpacePart(s, p + 10);
    w2 := SpacePart(s, i + 1);
    dir, w3, post := MatchTail(s, j, rest, k);
    var t := s[j..];
    TextPart(s, i, "(");
    assert s[i..] == "(" + (w2 + t);
    TextPart(s, p, name);
    assert s[p..] == name + (w1 + ("(" + (w2 + t)));
  }

  lemma MatchTail(s: string, j: nat, rest: string, k: nat) returns (dir: string, w3: string, post: string)
    requires j < |s| && s[j] == '\'' && AfterOpeningQuote(s[j + 1..]).Some?
      && rest == AfterOpeningQuote(s[j + 1..]).value.1
    requires |rest| <= |s| && SkipSpace(s, |s| - |rest|) == k < |s| && s[k..k + 1] == ")"
    ensures AllSpace(w3) && s[j..] == Quote(dir) + (w3 + (")" + post)) && |s| - |post| == k + 1
    ensures AfterOpeningQuote(s[j + 1..]).value.0 == BytesAsChars(dir)
  {
    hide *;
    dir := LiteralIsWritten(s[j + 1..]);
    LiteralPart(s, j, dir, rest);
    w3 := SpacePart(s, |s| - |rest|);
    post := s[k + 1..];
    TextPart(s, k, ")");
    assert rest == w3 + (")" + post);
  }

  /** Where the parts of a match lie. */
  lemma MatchParts(s: string, p: nat) returns (i: nat, j: nat, rest: string, k: nat)
    requires MatchAt(s, p).Some?
    ensures p + 10 <= |s|
      && IsName(s[p..p + 10]) && (p > 0 ==> !IsWord(s[p - 1]))
    ensures SkipSpace(s, p + 10) == i < |s| && s[i..i + 1] == "(" && SkipSpace(s, i + 1) == j < |s| && s[j] == '\''
    ensures AfterOpeningQuote(s[j + 1..]).Some? && rest == AfterOpeningQuote(s[j + 1..]).value.1 && |rest| <= |s|
    ensures SkipSpace(s, |s| - |rest|) == k < |s| && s[k..k + 1] == ")"
    ensures MatchAt(s, p) == Some(Call(p, k + 1, AfterOpeningQuote(s[j + 1..]).value.0))
  {
    hide AfterOpeningQuote, SkipSpace, Lower, IsWord;
    i := SkipSpace(s, p + 10);
    j := SkipSpace(s, i + 1);
    RestIsShorter(s[j + 1..]);
    rest := AfterOpeningQuote(s[j + 1..]).value.1;
    k := SkipSpace(s, |s| - |rest|);
  }

  lemma TextPart(s: string, i: nat, w: string)
    requires i + |w| <= |s| && s[i..i + |w|] == w
    ensures s[i..] == w + s[i + |w|..]
  {}

  lemma LiteralPart(s: string, j: nat, dir: string, rest: string)
    requires j < |s| && s[j] == '\'' && s[j + 1..] == Doubled(dir) + "'" + rest
    ensures s[j..] == Quote(dir) + rest && |rest| <= |s| && s[|s| - |rest|..] == rest
  {
    assert s[j..] == "'" + s[j + 1..];
    assert s[j + 1..][|Doubled(dir)| + 1..] == rest;
  }

  lemma SpacePart(s: string, i: nat) returns (w: string)
    requires i <= |s|
    ensures AllSpace(w) && s[i..] == w + s[SkipSpace(s, i)..]
  {
    w := s[i..SkipSpace(s, i)];
    SkippedIsSpace(s, i);
  }

  lemma {:induction false} SkippedIsSpace(s: string, i: nat)
    requires i <= |s|
    ensures AllSpace(s[i..SkipSpace(s, i)])
    decreases |s| - i
  {
    if i < |s| && IsAsciiSpace(s[i]) {
      SkippedIsSpace(s, i + 1);
      assert s[i..SkipSpace(s, i)] == [s[i]] + s[i + 1..SkipSpace(s, i + 1)];
    }
  }

  lemma QuoteOpens(dir: string, t: string)
    ensures var q := Quote(dir) + t; q != [] && q[0] == '\''
  {}

  lemma OpenPart(s: string, p: nat, w1: string, w2: string, t: string)
    requires p <= |s| && s[p..] == w1 + ("(" + (w2 + t)) && AllSpace(w1) && AllSpace(w2) && t != [] && t[0] == '\''
    ensures var i := p + |w1|; var j := i + 1 + |w2|;
      SkipSpace(s, p) == i < |s| && s[i] == '(' && SkipSpace(s, i + 1) == j < |s| && s[j] == '\'' && s[j..] == t
  {
    hide SkipSpace;
    SkipAll(s, p, w1, "(" + (w2 + t));
    Behind(s, p + |w1|, "(", w2 + t);
    SkipAll(s, p + |w1| + 1, w2, t);
  }

  lemma ClosePart(s: string, j: nat, dir: string, w3: string, post: string)
    requires j < |s| && s[j..] == Quote(dir) + (w3 + (")" + post)) && AllSpace(w3)
    ensures var rest := w3 + (")" + post);
      && AfterOpeningQuote(s[j + 1..]) == Some((BytesAsChars(dir), rest)) && |rest| <= |s|
      && SkipSpace(s, |s| - |rest|) == |s| - |post| - 1 < |s| && s[|s| - |post| - 1] == ')'
  {
    hide SkipSpace, AfterOpeningQuote, Doubled, BytesAsChars, Quote, AllSpace;
    var rest := w3 + (")" + post);
    NoQuoteAhead(w3, post);
    QuoteSplits(dir, rest);
    Behind(s, j, "'", Doubled(dir) + "'" + rest);
    LiteralReads(dir, rest);
    Behind(s, j, Quote(dir), rest);
    SkipAll(s, |s| - |rest|, w3, ")" + post);
  }

  lemma NoQuoteAhead(w3: string, post: string)
    requires AllSpace(w3)
    ensures (w3 + (")" + post))[0] != '\''
  {}

  lemma QuoteSplits(dir: string, rest: string)
    ensures Quote(dir) + rest == "'" + (Doubled(dir) + "'" + rest)
  {}

  lemma AssembleMatch(s: string, p: nat, i: nat, j: nat, dir: string, rest: string, k: nat)
    requires NeedleAt(s, p) && (p > 0 ==> !IsWord(s[p - 1]))
    requires SkipSpace(s, p + 10) == i < |s| && s[i] == '(' && SkipSpace(s, i + 1) == j < |s| && s[j] == '\''
    requires AfterOpeningQuote(s[j + 1..]) == Some((dir, rest)) && |rest| <= |s|
    requires SkipSpace(s, |s| - |rest|) == k < |s| && s[k] == ')'
    ensures MatchAt(s, p) == Some(Call(p, k + 1, dir))
  {}

  lemma NeedleFromText(s: string, p: nat, name: string, t: string)
    requires p <= |s| && s[p..] == name + t && IsName(name)
    ensures NeedleAt(s, p)
  {
    forall k | 0 <= k < 10 ensures Lower(s[p + k]) == NEEDLE[k] { assert s[p + k] == s[p..][k]; }
  }

  // ---------------------------------------------------------------------------
  // The rewrite
  // ---------------------------------------------------------------------------

  /** The text between the calls, from `cursor` to the end. */
  function Gaps(s: string, calls: seq<Call>, cursor: nat): (gaps: seq<string>)
    requires InOrder(s, calls, cursor)
    ensures |gaps| == |calls| + 1
  {
    if calls == [] then [s[cursor..]] else [s[cursor..calls[0].start]] + Gaps(s, calls[1..], calls[0].end)
  }

  predicate InOrder(s: string, calls: seq<Call>, cursor: nat) {
    cursor <= |s|
    && (calls != [] ==> cursor <= calls[0].start < calls[0].end <= |s| && InOrder(s, calls[1..], calls[0].end))
  }

  function Interleave(gaps: seq<string>, mids: seq<string>): string
    requires |gaps| == |mids| + 1
  {
    if mids == [] then gaps[0] else gaps[0] + mids[0] + Interleave(gaps[1..], mids[1..])
  }

  function Originals(s: string, calls: seq<Call>): (mids: seq<string>)
    requires forall k :: 0 <= k < |calls| ==> calls[k].start <= calls[k].end <= |s|
    ensures |mids| == |calls|
  {
    if calls == [] then [] else [s[calls[0].start..calls[0].end]] + Originals(s, calls[1..])
  }

  /** Each call's replacement, or the call as it stands when nothing resolves. */
  function Replacements(s: string, calls: seq<Call>, resolve: string -> Option<string>): (mids: seq<string>)
    requires forall k :: 0 <= k < |calls| ==> calls[k].start <= calls[k].end <= |s|
    ensures |mids| == |calls|
  {
    if calls == [] then [] else
    [match resolve(calls[0].dir) case Some(r) => r case None => s[calls[0].start..calls[0].end]]
    + Replacements(s, calls[1..], resolve)
  }

  lemma {:induction false} OrderedCalls(s: string, calls: seq<Call>, cursor: nat)
    requires cursor <= |s| && (forall k :: 0 <= k < |calls| ==> cursor <= calls[k].start < calls[k].end <= |s|)
    requires forall j, k :: 0 <= j < k < |calls| ==> calls[j].end <= calls[k].start
    ensures InOrder(s, calls, cursor)
  {
    if calls != [] { OrderedCalls(s, calls[1..], calls[0].end); }
  }

  lemma {:induction false} OriginalsRebuild(s: string, calls: seq<Call>, cursor: nat)
    requires InOrder(s, calls, cursor) && forall k :: 0 <= k < |calls| ==> calls[k].start <= calls[k].end <= |s|
    ensures Interleave(Gaps(s, calls, cursor), Originals(s, calls)) == s[cursor..]
  {
    if calls != [] {
      var c := calls[0];
      OriginalsRebuild(s, calls[1..], c.end);
      OriginalsStep(s, calls, cursor);
      assert s[cursor..] == s[cursor..c.start] + s[c.start..c.end] + s[c.end..];
    }
  }

  lemma OriginalsStep(s: string, calls: seq<Call>, cursor: nat)
    requires InOrder(s, calls, cursor) && calls != []
      && forall k :: 0 <= k < |calls| ==> calls[k].start <= calls[k].end <= |s|
    ensures InOrder(s, calls[1..], calls[0].end)
    ensures Interleave(Gaps(s, calls, cursor), Originals(s, calls)) ==
      s[cursor..calls[0].start] + s[calls[0].start..calls[0].end]
      + Interleave(Gaps(s, calls[1..], calls[0].end), Originals(s, calls[1..]))
  {
    var gaps, mids := Gaps(s, calls[1..], calls[0].end), Originals(s, calls[1..]);
    assert Gaps(s, calls, cursor) == [s[cursor..calls[0].start]] + gaps;
    assert Originals(s, calls) == [s[calls[0].start..calls[0].end]] + mids;
    InterleaveStep(s[cursor..calls[0].start], gaps, s[calls[0].start..calls[0].end], mids);
  }

  lemma InterleaveStep(gap: string, gaps: seq<string>, mid: string, mids: seq<string>)
    requires |gaps| == |mids| + 1
    ensures Interleave([gap] + gaps, [mid] + mids) == gap + mid + Interleave(gaps, mids)
  {
    assert ([gap] + gaps)[1..] == gaps && ([mid] + mids)[1..] == mids;
  }

  method RewriteDeltaScan(s: string, resolve: string -> Option<string>) returns (out: string)
    ensures forall k :: 0 <= k < |Calls(s, 0)| ==> Calls(s, 0)[k].start <= Calls(s, 0)[k].end <= |s|
    ensures InOrder(s, Calls(s, 0), 0)
    ensures out == Interleave(Gaps(s, Calls(s, 0), 0), Replacements(s, Calls(s, 0), resolve))
  {
    hide MatchAt, Calls;
    var calls := FindDeltaScanCalls(s);
    CallsAreOrdered(s, 0);
    OrderedCalls(s, calls, 0);
    if calls == [] { return s; }
    out := [];
    var cursor: nat := 0;
    assert calls[0..] == calls;
    for k := 0 to |calls|
      invariant InOrder(s, calls[k..], cursor)
      invariant out + Interleave(Gaps(s, calls[k..], cursor), Replacements(s, calls[k..], resolve))
             == Interleave(Gaps(s, calls, 0), Replacements(s, calls, resolve))
    {
      var call := calls[k];
      assert calls[k..][1..] == calls[k + 1..] && calls[k..][0] == call;
      ghost var gaps, mids := Gaps(s, calls[k..], cursor), Replacements(s, calls[k..], resolve);
      assert gaps[1..] == Gaps(s, calls[k + 1..], call.end) && mids[1..] == Replacements(s, calls[k + 1..], resolve);
      ConcatAssociates(out, gaps[0] + mids[0], Interleave(gaps[1..], mids[1..]));
      ConcatAssociates(out, gaps[0], mids[0]);
      out := out + s[cursor..call.start];
      match resolve(call.dir) {
        case Some(repl) => out := out + repl;
        case None => out := out + s[call.start..call.end];
      }
      cursor := call.end;
    }
    assert calls[|calls|..] == [];
    out := out + s[cursor..];
  }

  /** The input is the gaps with the calls between them, so the rewrite above changes no
      character outside the calls ... */
  lemma InputIsGapsAndCalls(s: string)
    ensures InOrder(s, Calls(s, 0), 0)
      && forall k :: 0 <= k < |Calls(s, 0)| ==> Calls(s, 0)[k].start <= Calls(s, 0)[k].end <= |s|
    ensures Interleave(Gaps(s, Calls(s, 0), 0), Originals(s, Calls(s, 0))) == s
  {
    hide MatchAt, Calls;
    CallsAreOrdered(s, 0);
    OrderedCalls(s, Calls(s, 0), 0);
    OriginalsRebuild(s, Calls(s, 0), 0);
    assert s[0..] == s;
  }

  /** ... and nothing at all where no call resolves. */
  lemma {:induction false} NothingResolves(s: string, calls: seq<Call>, resolve: string -> Option<string>)
    requires forall k :: 0 <= k < |calls| ==> calls[k].start <= calls[k].end <= |s| && resolve(calls[k].dir).None?
    ensures Replacements(s, calls, resolve) == Originals(s, calls)
  {
    if calls != [] { NothingResolves(s, calls[1..], resolve); }
  }
}
