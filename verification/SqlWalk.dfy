/** The statement splitter: a scanner with quote and comment state over a whole SQL batch
    (crates/ducklink-host/src/at5_intercept.rs:164-306). */
module SqlWalk {
  import opened Wrappers
  import opened Chars

  // ---------------------------------------------------------------------------
  // What the scanners mean
  // ---------------------------------------------------------------------------

  predicate LineComment(s: string, i: nat) {
    i + 1 < |s| && s[i] == '-' && s[i + 1] == '-'
  }

  predicate BlockComment(s: string, i: nat) {
    i + 1 < |s| && s[i] == '/' && s[i + 1] == '*'
  }

  function LineEnd(s: string, j: nat): (e: nat)
    requires j <= |s|
    ensures j <= e <= |s|
    decreases |s| - j
  {
    if j == |s| || s[j] == '\n' then j else LineEnd(s, j + 1)
  }

  function BlockEnd(s: string, j: nat): (e: nat)
    requires j <= |s|
    ensures j <= e <= |s|
    decreases |s| - j
  {
    if j + 1 >= |s| then |s|
    else if s[j] == '*' && s[j + 1] == '/' then j + 2
    else BlockEnd(s, j + 1)
  }

  /** The index just past the comment that starts at `i`, or `i` if none does. */
  function CommentEnd(s: string, i: nat): (e: nat)
    requires i <= |s|
    ensures i <= e <= |s|
  {
    if LineComment(s, i) then LineEnd(s, i + 2)
    else if BlockComment(s, i) then BlockEnd(s, i + 2)
    else i
  }

  predicate Commented(s: string, i: nat) {
    LineComment(s, i) || BlockComment(s, i)
  }

  predicate IsCut(s: string, i: nat, m: Mode) {
    i < |s| && m == Code && s[i] == ';'
  }

  /** One scan step. */
  function Next(s: string, i: nat, m: Mode): (r: (nat, Mode))
    requires i < |s|
    ensures i < r.0 <= |s|
  {
    match m
    case Single => (i + 1, if s[i] == '\'' then Code else Single)
    case Double => (i + 1, if s[i] == '"' then Code else Double)
    case Code =>
      if Commented(s, i) then (CommentEnd(s, i), Code)
      else (i + 1, if s[i] == '\'' then Single else if s[i] == '"' then Double else Code)
  }

  /** The first top-level `;` at or after `i`, or the end of the text. */
  function FirstCut(s: string, i: nat, m: Mode): (b: nat)
    requires i <= |s|
    ensures i <= b <= |s| && (b < |s| ==> s[b] == ';')
    decreases |s| - i
  {
    if i == |s| || IsCut(s, i, m) then i else FirstCut(s, Next(s, i, m).0, Next(s, i, m).1)
  }

  /** The text between top-level semicolons, blank segments included. */
  function Segments(s: string, a: nat): (segs: seq<string>)
    requires a <= |s|
    ensures segs != []
    decreases |s| - a
  {
    var b := FirstCut(s, a, Code);
    if b == |s| then [s[a..]] else [s[a..b]] + Segments(s, b + 1)
  }

  function NonBlank(segs: seq<string>): seq<string> {
    if segs == [] then []
    else (if Blank(segs[0]) then [] else [segs[0]]) + NonBlank(segs[1..])
  }

  function Pieces(s: string): seq<string> {
    NonBlank(Segments(s, 0))
  }

  /** Some top-level character at or after `i` is neither white space nor part of a comment
      or a quoted literal. */
  predicate Loud(s: string, i: nat, m: Mode)
    requires i <= |s|
    decreases |s| - i
  {
    i < |s| &&
    ((m == Code && !Commented(s, i) && s[i] != '\'' && s[i] != '"' && !IsAsciiSpace(s[i]))
     || Loud(s, Next(s, i, m).0, Next(s, i, m).1))
  }

  predicate MultiStatement(s: string) {
    var b := FirstCut(s, 0, Code);
    b < |s| && Loud(s, b + 1, Code)
  }

  // ---------------------------------------------------------------------------
  // The loops
  // ---------------------------------------------------------------------------

  method SkipComment(s: string, i: nat) returns (e: nat)
    requires i <= |s|
    ensures e == CommentEnd(s, i) && (e == i <==> !Commented(s, i))
  {
    if i + 1 < |s| && s[i] == '-' && s[i + 1] == '-' {
      var j := i + 2;
      while j < |s| && s[j] != '\n'
        invariant i + 2 <= j <= |s| && LineEnd(s, j) == LineEnd(s, i + 2)
      {
        j := j + 1;
      }
      return j;
    }
    if i + 1 < |s| && s[i] == '/' && s[i + 1] == '*' {
      var j := i + 2;
      while j + 1 < |s| && !(s[j] == '*' && s[j + 1] == '/')
        invariant i + 2 <= j <= |s| && BlockEnd(s, j) == BlockEnd(s, i + 2)
      {
        j := j + 1;
      }
      return if j + 2 <= |s| then j + 2 else |s|;
    }
    return i;
  }

  lemma SegmentStep(s: string, a: nat)
    requires a <= |s|
    ensures var b := FirstCut(s, a, Code);
      NonBlank(Segments(s, a)) == (if Blank(s[a..b]) then [] else [s[a..b]])
        + if b < |s| then NonBlank(Segments(s, b + 1)) else []
  {
    var b := FirstCut(s, a, Code);
    if b == |s| {
      assert s[a..] == s[a..b] && [s[a..]][1..] == [];
    } else {
      assert ([s[a..b]] + Segments(s, b + 1))[1..] == Segments(s, b + 1);
    }
  }

  lemma CutStep(s: string, i: nat, m: Mode)
    requires i < |s| && !IsCut(s, i, m)
    ensures FirstCut(s, i, m) == FirstCut(s, Next(s, i, m).0, Next(s, i, m).1)
  {}

  lemma CutHere(s: string, i: nat)
    requires i <= |s| && (i == |s| || s[i] == ';')
    ensures FirstCut(s, i, Code) == i && (i < |s| ==> !Commented(s, i))
  {}

  lemma CutAtEnd(s: string, m: Mode)
    ensures FirstCut(s, |s|, m) == |s|
  {}

  method SplitStatements(s: string) returns (out: seq<string>)
    ensures out == Pieces(s)
  {
    hide Segments, NonBlank, Blank, FirstCut, Commented, CommentEnd;
    out := [];
    var start, i, inSingle, inDouble := 0, 0, false, false;
    while i < |s|
      invariant 0 <= start <= i <= |s| && !(inSingle && inDouble)
      invariant FirstCut(s, start, Code) ==
        FirstCut(s, i, if inSingle then Single else if inDouble then Double else Code)
      invariant Pieces(s) == out + NonBlank(Segments(s, start))
      decreases |s| - i
    {
      var c := s[i];
      ghost var m := if inSingle then Single else if inDouble then Double else Code;
      if IsCut(s, i, m) { CutHere(s, i); } else { CutStep(s, i, m); }
      if inSingle {
        if c == '\'' { inSingle := false; }
        i := i + 1;
        continue;
      }
      if inDouble {
        if c == '"' { inDouble := false; }
        i := i + 1;
        continue;
      }
      var afterComment := SkipComment(s, i);
      if afterComment != i {
        i := afterComment;
        continue;
      }
      match c
      case '\'' => inSingle := true; i := i + 1;
      case '"' => inDouble := true; i := i + 1;
      case ';' =>
        var piece := s[start..i];
        SegmentStep(s, start);
        if !Blank(piece) { out := out + [piece]; }
        i := i + 1;
        start := i;
      case _ => i := i + 1;
    }
    CutAtEnd(s, if inSingle then Single else if inDouble then Double else Code);
    var tail := s[start..];
    SegmentStep(s, start);
    assert tail == s[start..i];
    if !Blank(tail) { out := out + [tail]; }
  }

  method IsMultiStatement(s: string) returns (multi: bool)
    ensures multi == MultiStatement(s)
  {
    var i, inSingle, inDouble, seenFirstEnd := 0, false, false, false;
    while i < |s|
      invariant 0 <= i <= |s| && !(inSingle && inDouble)
      invariant var m := if inSingle then Single else if inDouble then Double else Code;
        if seenFirstEnd
        then FirstCut(s, 0, Code) < |s| && Loud(s, FirstCut(s, 0, Code) + 1, Code) == Loud(s, i, m)
        else FirstCut(s, 0, Code) == FirstCut(s, i, m)
      decreases |s| - i
    {
      var c := s[i];
      if inSingle {
        if c == '\'' { inSingle := false; }
        i := i + 1;
        continue;
      }
      if inDouble {
        if c == '"' { inDouble := false; }
        i := i + 1;
        continue;
      }
      var afterComment := SkipComment(s, i);
      if afterComment != i {
        i := afterComment;
        continue;
      }
      match c {
        case '\'' => inSingle := true;
        case '"' => inDouble := true;
        case ';' =>
          if seenFirstEnd { return true; }
          seenFirstEnd := true;
        case _ =>
          if seenFirstEnd && !IsAsciiSpace(c) { return true; }
      }
      i := i + 1;
    }
    return false;
  }

  // ---------------------------------------------------------------------------
  // A piece stands alone
  // ---------------------------------------------------------------------------

  lemma {:induction false} LineEndLocal(s: string, a: nat, b: nat, j: nat)
    requires a <= j <= b <= |s| && LineEnd(s, j) <= b
    ensures LineEnd(s[a..b], j - a) == LineEnd(s, j) - a
    decreases |s| - j
  {
    var p := s[a..b];
    if j < b && s[j] != '\n' {
      assert p[j - a] == s[j];
      LineEndLocal(s, a, b, j + 1);
    }
  }

  lemma {:induction false} BlockEndLocal(s: string, a: nat, b: nat, j: nat)
    requires a <= j <= b <= |s| && BlockEnd(s, j) <= b
    ensures BlockEnd(s[a..b], j - a) == BlockEnd(s, j) - a
    decreases |s| - j
  {
    var p := s[a..b];
    if j + 1 < b {
      assert p[j - a] == s[j] && p[j + 1 - a] == s[j + 1];
      if !(s[j] == '*' && s[j + 1] == '/') { BlockEndLocal(s, a, b, j + 1); }
    }
  }

  /** A scan that never looks past `b` sees the same in `s[a..b]` as in `s`. */
  lemma NextLocal(s: string, a: nat, b: nat, i: nat, m: Mode)
    requires a <= i < b <= |s| && Next(s, i, m).0 <= b && (b < |s| ==> s[b] == ';')
    ensures var r := Next(s, i, m); Next(s[a..b], i - a, m) == (r.0 - a, r.1)
  {
    var p := s[a..b];
    assert p[i - a] == s[i];
    if m == Code {
      if i + 1 < b { assert p[i + 1 - a] == s[i + 1]; }
      if LineComment(s, i) {
        LineEndLocal(s, a, b, i + 2);
      } else if BlockComment(s, i) {
        BlockEndLocal(s, a, b, i + 2);
      }
    }
  }

  lemma {:induction false} NoCutInside(s: string, a: nat, b: nat, i: nat, m: Mode)
    requires a <= i <= b <= |s| && FirstCut(s, i, m) == b
    ensures FirstCut(s[a..b], i - a, m) == b - a
    decreases |s| - i
  {
    if i < b {
      assert s[a..b][i - a] == s[i];
      NextLocal(s, a, b, i, m);
      var r := Next(s, i, m);
      NoCutInside(s, a, b, r.0, r.1);
    }
  }

  lemma {:induction false} SegmentsHaveNoCut(s: string, a: nat, p: string)
    requires a <= |s| && p in Segments(s, a)
    ensures FirstCut(p, 0, Code) == |p|
    decreases |s| - a
  {
    var b := FirstCut(s, a, Code);
    NoCutInside(s, a, b, a, Code);
    assert s[a..] == s[a..|s|];
    if b < |s| && p != s[a..b] { SegmentsHaveNoCut(s, b + 1, p); }
  }

  lemma {:induction false} NonBlankMembers(segs: seq<string>, p: string)
    ensures p in NonBlank(segs) <==> p in segs && !Blank(p)
  {
    if segs != [] { NonBlankMembers(segs[1..], p); }
  }

  /** Every piece, scanned afresh, splits to exactly itself and is never a multi-statement:
      splitting a batch is final. */
  lemma PiecesAreFinal(s: string, p: string)
    requires p in Pieces(s)
    ensures Pieces(p) == [p] && !MultiStatement(p)
  {
    NonBlankMembers(Segments(s, 0), p);
    SegmentsHaveNoCut(s, 0, p);
    assert Segments(p, 0) == [p[0..]] && p[0..] == p;
    assert [p][1..] == [];
    assert NonBlank([p]) == [p];
  }

  function Join(segs: seq<string>): string
    requires segs != []
  {
    JoinWith(segs, ";")
  }

  /** Putting the cut semicolons back between the segments, the dropped blank ones included,
      rebuilds the batch. */
  lemma {:induction false} SegmentsRebuild(s: string, a: nat)
    requires a <= |s|
    ensures Join(Segments(s, a)) == s[a..]
    decreases |s| - a
  {
    var b := FirstCut(s, a, Code);
    if b < |s| {
      SegmentsRebuild(s, b + 1);
      var rest := Segments(s, b + 1);
      assert ([s[a..b]] + rest)[1..] == rest;
      assert s[a..] == s[a..b] + ";" + s[b + 1..];
    }
  }

  /** No text other than white space is lost: the pieces are the non-blank segments. */
  lemma BatchRebuilds(s: string)
    ensures Join(Segments(s, 0)) == s
    ensures forall p :: p in Segments(s, 0) ==> p in Pieces(s) || Blank(p)
  {
    SegmentsRebuild(s, 0);
    assert s[0..] == s;
    forall p | p in Segments(s, 0) ensures p in Pieces(s) || Blank(p) { NonBlankMembers(Segments(s, 0), p); }
  }

  lemma {:induction false} NonBlankShrinks(segs: seq<string>)
    ensures |NonBlank(segs)| <= |segs|
  {
    if segs != [] { NonBlankShrinks(segs[1..]); }
  }

  lemma {:induction false} CutIsLoud(s: string, i: nat, m: Mode)
    requires i <= |s| && FirstCut(s, i, m) < |s|
    ensures Loud(s, i, m)
    decreases |s| - i
  {
    if !IsCut(s, i, m) { CutIsLoud(s, Next(s, i, m).0, Next(s, i, m).1); }
  }

  /** A batch that is not a multi-statement has at most two pieces. */
  lemma NotMultiMeansAtMostTwo(s: string)
    requires !MultiStatement(s)
    ensures |Segments(s, 0)| <= 2 && |Pieces(s)| <= 2
  {
    var b := FirstCut(s, 0, Code);
    if b < |s| && FirstCut(s, b + 1, Code) < |s| { CutIsLoud(s, b + 1, Code); }
    NonBlankShrinks(Segments(s, 0));
  }

  // ---------------------------------------------------------------------------
  // What the multi-statement test decides
  // ---------------------------------------------------------------------------

  lemma SameComment(s: string, a: nat, b: nat, i: nat)
    requires a <= i < b <= |s| && (b < |s| ==> s[b] == ';')
    ensures s[a..b][i - a] == s[i] && (Commented(s[a..b], i - a) <==> Commented(s, i))
  {
    if i + 1 < b { assert s[a..b][i + 1 - a] == s[i + 1]; }
  }

  /** Text up to the next cut `b` is loud when its own segment is, or when the cut is there. */
  lemma {:induction false} LoudInside(s: string, a: nat, b: nat, i: nat, m: Mode)
    requires a <= i <= b <= |s| && FirstCut(s, i, m) == b
    ensures Loud(s, i, m) <==> Loud(s[a..b], i - a, m) || b < |s|
    decreases |s| - i
  {
    hide Commented, CommentEnd;
    if i == b {
      if b < |s| { CutIsLoud(s, i, m); }
    } else {
      SameComment(s, a, b, i);
      NextLocal(s, a, b, i, m);
      var r := Next(s, i, m);
      LoudInside(s, a, b, r.0, r.1);
    }
  }

  lemma SegmentsFrom(s: string, a: nat)
    requires a <= |s|
    ensures var b := FirstCut(s, a, Code);
      && Segments(s, a)[0] == s[a..b]
      && (if b == |s| then |Segments(s, a)| == 1
          else |Segments(s, a)| > 1 && Segments(s, a)[1..] == Segments(s, b + 1))
  {}

  /** A batch is a multi-statement exactly when it has three segments or more, or two of which
      the second is loud. */
  lemma MultiBySegments(s: string)
    ensures var segs := Segments(s, 0);
      MultiStatement(s) <==> |segs| > 2 || (|segs| == 2 && Loud(segs[1], 0, Code))
  {
    hide Segments, Loud;
    var b := FirstCut(s, 0, Code);
    SegmentsFrom(s, 0);
    if b < |s| {
      var c := FirstCut(s, b + 1, Code);
      SegmentsFrom(s, b + 1);
      LoudInside(s, b + 1, c, b + 1, Code);
      assert Segments(s, 0)[1] == Segments(s, 0)[1..][0] == s[b + 1..c];
    }
  }

  lemma {:induction false} CountsNonBlank(segs: seq<string>)
    ensures |NonBlank(segs)| >= 1 <==> exists k :: 0 <= k < |segs| && !Blank(segs[k])
    ensures |NonBlank(segs)| >= 2 <==> exists j, k :: 0 <= j < k < |segs| && !Blank(segs[j]) && !Blank(segs[k])
  {
    hide Blank;
    if segs != [] {
      var rest := segs[1..];
      CountsNonBlank(rest);
      assert forall k | 0 < k < |segs| :: segs[k] == rest[k - 1];
      if |NonBlank(rest)| >= 1 {
        var k :| 0 <= k < |rest| && !Blank(rest[k]);
        assert segs[k + 1] == rest[k];
      }
      if |NonBlank(rest)| >= 2 {
        var j, k :| 0 <= j < k < |rest| && !Blank(rest[j]) && !Blank(rest[k]);
        assert segs[j + 1] == rest[j] && segs[k + 1] == rest[k];
      }
      if j, k :| 0 <= j < k < |segs| && !Blank(segs[j]) && !Blank(segs[k]) {
        assert !Blank(rest[k - 1]);
        if j > 0 { assert !Blank(rest[j - 1]); }
      }
      if k :| 0 <= k < |segs| && !Blank(segs[k]) {
        if k > 0 { assert !Blank(rest[k - 1]); }
      }
    }
  }

  ghost predicate TwoNonBlank(segs: seq<string>) {
    exists j, k :: 0 <= j < k < |segs| && !Blank(segs[j]) && !Blank(segs[k])
  }

  /** The documentation promises "more than one non-empty statement". With one segment that is
      what the test decides; with two, when the second is loud exactly if both are non-blank;
      with more, when two of them are non-blank. */
  lemma MultiMeansSeveralExactlyWhen(s: string)
    ensures var segs := Segments(s, 0);
      (MultiStatement(s) <==> |Pieces(s)| > 1) <==>
        if |segs| == 1 then true
        else if |segs| == 2 then (Loud(segs[1], 0, Code) <==> !Blank(segs[0]) && !Blank(segs[1]))
        else TwoNonBlank(segs)
  {
    hide Segments, Loud, MultiStatement, NonBlank, Blank;
    var segs := Segments(s, 0);
    MultiBySegments(s);
    CountsNonBlank(segs);
    NonBlankShrinks(segs);
  }

  /** It fails both ways: two bare semicolons count as several statements though no piece is
      left ... */
  lemma MultiWithoutPieces()
    ensures MultiStatement(";;") && Pieces(";;") == []
  {
    var s := ";;";
    assert Loud(s, 1, Code);
    assert s[2..] == "" && s[0..0] == "" && s[1..1] == "" && Blank("");
    SegmentStep(s, 0);
    SegmentStep(s, 1);
    SegmentStep(s, 2);
  }

  lemma QuietLiteral()
    ensures !Loud("a;'b'", 2, Code)
  {
    var t := "a;'b'";
    assert !Loud(t, 5, Code) && !Loud(t, 4, Single);
    assert !Loud(t, 3, Single);
  }

  /** ... and a literal after the semicolon does not count though it is a piece of its own. */
  lemma TwoPiecesButNotMulti()
    ensures !MultiStatement("a;'b'") && Pieces("a;'b'") == ["a", "'b'"]
  {
    hide Segments, NonBlank, FirstCut, Loud;
    var t := "a;'b'";
    CutStep(t, 0, Code);
    CutHere(t, 1);
    CutStep(t, 2, Code);
    CutStep(t, 3, Single);
    CutStep(t, 4, Single);
    CutHere(t, 5);
    QuietLiteral();
    assert t[2..5] == "'b'" && t[0..1] == "a";
    assert !Blank(t[2..5]) by { assert !IsSpace(t[2..5][0]); }
    assert !Blank(t[0..1]) by { assert !IsSpace(t[0..1][0]); }
    SegmentStep(t, 0);
    SegmentStep(t, 2);
  }

  // ---------------------------------------------------------------------------
  // Which segments are dropped
  // ---------------------------------------------------------------------------

  /** From `i` on there is nothing but white space and comments. */
  predicate Bare(p: string, i: nat)
    requires i <= |p|
    decreases |p| - i
  {
    i == |p|
    || (if Commented(p, i) then CommentEnd(p, i) > i && Bare(p, CommentEnd(p, i)) else IsSpace(p[i]) && Bare(p, i + 1))
  }

  /** The pieces as documented: without the segments that are white space or comments only. */
  function DocumentedPieces(segs: seq<string>): seq<string> {
    if segs == [] then [] else (if Bare(segs[0], 0) then [] else [segs[0]]) + DocumentedPieces(segs[1..])
  }

  lemma {:induction false} BlankIsBare(p: string, i: nat)
    requires i <= |p| && Blank(p)
    ensures Bare(p, i)
    decreases |p| - i
  {
    if i < |p| { BlankIsBare(p, i + 1); }
  }

  /** A segment is dropped exactly when it is blank. */
  lemma DroppedExactlyWhenBlank(s: string, p: string)
    requires p in Segments(s, 0)
    ensures p !in Pieces(s) <==> Blank(p)
  {
    NonBlankMembers(Segments(s, 0), p);
  }

  lemma {:induction false} DocumentedShrinks(segs: seq<string>)
    ensures |DocumentedPieces(segs)| <= |NonBlank(segs)|
    ensures DocumentedPieces(segs) == NonBlank(segs) <==> forall p :: p in segs && Bare(p, 0) ==> Blank(p)
  {
    hide Bare, Blank;
    if segs != [] {
      BlankOrNot(segs[0]);
      DocumentedShrinks(segs[1..]);
      var (ds, ns) := (DocumentedPieces(segs[1..]), NonBlank(segs[1..]));
      assert forall p :: p in segs <==> p == segs[0] || p in segs[1..];
      if Blank(segs[0]) {
        assert DocumentedPieces(segs) == ds && NonBlank(segs) == ns;
      } else if Bare(segs[0], 0) {
        assert DocumentedPieces(segs) == ds && NonBlank(segs) == [segs[0]] + ns;
      } else {
        assert DocumentedPieces(segs) == [segs[0]] + ds && NonBlank(segs) == [segs[0]] + ns;
        assert DocumentedPieces(segs)[1..] == ds && NonBlank(segs)[1..] == ns;
      }
    }
  }

  lemma BlankOrNot(p: string)
    ensures Blank(p) ==> Bare(p, 0)
  {
    if Blank(p) { BlankIsBare(p, 0); }
  }

  /** The pieces are the documented ones exactly when no segment is a comment alone. */
  lemma DroppedAsDocumentedExactlyWhen(s: string)
    ensures Pieces(s) == DocumentedPieces(Segments(s, 0)) <==>
      forall p :: p in Segments(s, 0) && Bare(p, 0) ==> Blank(p)
  {
    DocumentedShrinks(Segments(s, 0));
  }

  lemma {:induction false} NoNewlineAhead(s: string, j: nat)
    requires j <= |s| && forall k :: j <= k < |s| ==> s[k] != '\n'
    ensures LineEnd(s, j) == |s|
    decreases |s| - j
  {
    if j < |s| { NoNewlineAhead(s, j + 1); }
  }

  /** A batch that is one line comment is a piece, though only a comment. */
  lemma CommentIsKept(text: string)
    requires '\n' !in text
    ensures Bare("--" + text, 0) && Pieces("--" + text) == ["--" + text]
  {
    hide Segments, NonBlank, FirstCut;
    var s := "--" + text;
    forall k | 2 <= k < |s| ensures s[k] != '\n' { assert s[k] == text[k - 2]; }
    NoNewlineAhead(s, 2);
    assert CommentEnd(s, 0) == |s|;
    CutStep(s, 0, Code);
    CutAtEnd(s, Code);
    SegmentStep(s, 0);
    assert s[0..|s|] == s && !IsSpace(s[0]);
  }
}
