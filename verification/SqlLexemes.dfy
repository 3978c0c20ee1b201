/** What the statement splitter sees in a batch, told without its walk: every text is a list of
    lexemes, and the splitter cuts exactly at the semicolons that are lexemes of their own
    (crates/ducklink-host/src/at5_intercept.rs:161-306). */
module SqlLexemes {
  import opened Wrappers
  import opened Chars
  import opened SqlWalk

  /** `'text'`, `"text"`, `--text`, a block comment around a text, a semicolon, or any other
      character. */
  datatype Lexeme =
    | Literal(text: string)
    | Identifier(text: string)
    | ToLineEnd(text: string)
    | Block(text: string)
    | Semicolon
    | Other(c: char)

  function Show(x: Lexeme): (s: string)
    ensures s != []
  {
    match x
    case Literal(t) => "'" + t + "'"
    case Identifier(t) => "\"" + t + "\""
    case ToLineEnd(t) => "--" + t
    case Block(t) => "/*" + t + "*/"
    case Semicolon => ";"
    case Other(c) => [c]
  }

  function Written(xs: seq<Lexeme>): string {
    if xs == [] then "" else Show(xs[0]) + Written(xs[1..])
  }

  predicate Opens(s: string, mark: string) {
    |s| >= |mark| && s[..|mark|] == mark
  }

  predicate ClosesBlock(t: string) {
    exists k :: 0 <= k < |t| - 1 && t[k] == '*' && t[k + 1] == '/'
  }

  /** `x` is a lexeme in front of `after`: what delimits it does not occur inside. */
  predicate IsLexeme(x: Lexeme, after: string) {
    match x
    case Literal(t) => '\'' !in t
    case Identifier(t) => '"' !in t
    case ToLineEnd(t) => '\n' !in t && (after == "" || after[0] == '\n')
    case Block(t) => !ClosesBlock(t)
    case Semicolon => true
    case Other(c) => c !in "'\";" && !Opens([c] + after, "--") && !Opens([c] + after, "/*")
  }

  /** What is left open at the end of a text, if anything: a literal, an identifier, a comment. */
  predicate IsOpenEnd(s: string) {
    || s == ""
    || (s[0] == '\'' && '\'' !in s[1..])
    || (s[0] == '"' && '"' !in s[1..])
    || (Opens(s, "/*") && !ClosesBlock(s[2..]))
  }

  predicate Lexed(xs: seq<Lexeme>, end: string) {
    if xs == [] then IsOpenEnd(end) else IsLexeme(xs[0], Written(xs[1..]) + end) && Lexed(xs[1..], end)
  }

  /** The text between the semicolons of a lexeme list. */
  function Statements(xs: seq<Lexeme>, end: string): (r: seq<string>)
    ensures r != []
  {
    if xs == [] then [end] else
    var rest := Statements(xs[1..], end);
    if xs[0] == Semicolon then [""] + rest else [Show(xs[0]) + rest[0]] + rest[1..]
  }

  // ---------------------------------------------------------------------------
  // Every text is a list of lexemes
  // ---------------------------------------------------------------------------

  /** Where a block comment opened in front of `t` closes. */
  function BlockLength(t: string): (k: nat)
    ensures k <= |t|
    ensures !ClosesBlock(t[..k])
    ensures k < |t| ==> k + 1 < |t| && t[k] == '*' && t[k + 1] == '/'
  {
    if |t| < 2 then |t|
    else if t[0] == '*' && t[1] == '/' then 0
    else
      var k := BlockLength(t[1..]);
      assert t[..k + 1] == [t[0]] + t[1..][..k];
      assert k < |t| - 1 ==> t[1..][k] == t[k + 1] && t[1..][k + 1] == t[k + 2];
      k + 1
  }

  lemma FirstQuoted(s: string, c: char) returns (t: string, after: string)
    requires s != [] && c in s[1..]
    ensures s == [s[0]] + t + [c] + after && c !in t
  {
    var k := IndexOf(s[1..], c);
    t, after := s[1..][..k], s[1..][k + 1..];
    assert s == [s[0]] + s[1..] && s[1..] == t + [c] + after;
  }

  lemma FirstLine(s: string) returns (t: string, after: string)
    requires Opens(s, "--")
    ensures s == "--" + t + after && '\n' !in t && (after == "" || after[0] == '\n')
  {
    var k := IndexOf(s[2..], '\n');
    t, after := s[2..][..k], s[2..][k..];
    assert s == s[..2] + s[2..] && s[2..] == t + after;
  }

  lemma FirstBlock(s: string) returns (t: string, after: string)
    requires Opens(s, "/*") && ClosesBlock(s[2..])
    ensures s == "/*" + t + "*/" + after && !ClosesBlock(t)
  {
    var u := s[2..];
    var k := BlockLength(u);
    assert u[..|u|] == u;
    t, after := u[..k], u[k + 2..];
    assert s == s[..2] + u && u == t + "*/" + after;
  }

  /** The first lexeme of a text that is not an open end. */
  lemma FirstLexeme(s: string) returns (x: Lexeme, after: string)
    requires !IsOpenEnd(s)
    ensures s == Show(x) + after && IsLexeme(x, after)
  {
    hide ClosesBlock;
    if s[0] == ';' {
      x, after := Semicolon, s[1..];
    } else if s[0] == '\'' {
      var t;
      t, after := FirstQuoted(s, '\'');
      x := Literal(t);
    } else if s[0] == '"' {
      var t;
      t, after := FirstQuoted(s, '"');
      x := Identifier(t);
    } else if Opens(s, "--") {
      var t;
      t, after := FirstLine(s);
      x := ToLineEnd(t);
    } else if Opens(s, "/*") {
      var t;
      t, after := FirstBlock(s);
      x := Block(t);
    } else {
      x, after := Other(s[0]), s[1..];
      assert s == [s[0]] + s[1..];
    }
  }

  lemma {:induction false} EveryTextIsLexed(s: string) returns (xs: seq<Lexeme>, end: string)
    ensures Lexed(xs, end) && Written(xs) + end == s
    decreases |s|
  {
    if IsOpenEnd(s) {
      xs, end := [], s;
      assert Written([]) + s == s;
    } else {
      var x, after := FirstLexeme(s);
      var more;
      more, end := EveryTextIsLexed(after);
      xs := [x] + more;
      assert xs[1..] == more;
      assert Show(x) + Written(more) + end == Show(x) + (Written(more) + end);
    }
  }

  // ---------------------------------------------------------------------------
  // The walk over one lexeme
  // ---------------------------------------------------------------------------

  /** The walk gets from one place to the other without a cut and without a loud character. */
  ghost predicate Silent(s: string, i: nat, m: Mode, j: nat, k: Mode)
    requires i <= |s| && j <= |s|
  {
    FirstCut(s, i, m) == FirstCut(s, j, k) && (Loud(s, i, m) <==> Loud(s, j, k))
  }

  lemma {:induction false} InsideLiteral(s: string, i: nat, j: nat)
    requires i <= j <= |s| && forall k :: i <= k < j ==> s[k] != '\''
    ensures Silent(s, i, Single, j, Single)
    decreases j - i
  {
    if i < j { InsideLiteral(s, i + 1, j); }
  }

  lemma {:induction false} InsideIdentifier(s: string, i: nat, j: nat)
    requires i <= j <= |s| && forall k :: i <= k < j ==> s[k] != '"'
    ensures Silent(s, i, Double, j, Double)
    decreases j - i
  {
    if i < j { InsideIdentifier(s, i + 1, j); }
  }

  lemma {:induction false} LineEndsAt(s: string, i: nat, j: nat)
    requires i <= j <= |s| && (forall k :: i <= k < j ==> s[k] != '\n') && (j == |s| || s[j] == '\n')
    ensures LineEnd(s, i) == j
    decreases j - i
  {
    if i < j { LineEndsAt(s, i + 1, j); }
  }

  lemma {:induction false} BlockEndsAt(s: string, i: nat, j: nat)
    requires i <= j < |s| - 1 && s[j] == '*' && s[j + 1] == '/'
    requires forall k :: i <= k < j ==> !(s[k] == '*' && s[k + 1] == '/')
    ensures BlockEnd(s, i) == j + 2
    decreases j - i
  {
    if i < j { BlockEndsAt(s, i + 1, j); }
  }

  lemma {:induction false} BlockNeverEnds(s: string, i: nat)
    requires i <= |s| && forall k :: i <= k < |s| - 1 ==> !(s[k] == '*' && s[k + 1] == '/')
    ensures BlockEnd(s, i) == |s|
    decreases |s| - i
  {
    if i < |s| - 1 { BlockNeverEnds(s, i + 1); }
  }

  lemma QuoteTurns(s: string, i: nat)
    requires i < |s|
    ensures s[i] == '\'' ==> Silent(s, i, Code, i + 1, Single) && Silent(s, i, Single, i + 1, Code)
    ensures s[i] == '"' ==> Silent(s, i, Code, i + 1, Double) && Silent(s, i, Double, i + 1, Code)
  {}

  lemma OverLiteral(s: string, i: nat, t: string, after: string)
    requires i <= |s| && s[i..] == Show(Literal(t)) + after && '\'' !in t
    ensures i + |t| + 2 <= |s| && Silent(s, i, Code, i + |t| + 2, Code)
  {
    hide FirstCut, Loud;
    var u, e := s[i..], i + 1 + |t|;
    assert |u| == |t| + 2 + |after| && u[0] == '\'' && u[|t| + 1] == '\'';
    assert s[i] == '\'' && s[e] == u[1 + |t|];
    forall k | i + 1 <= k < e ensures s[k] != '\'' { assert s[k] == u[k - i] == t[k - i - 1]; }
    QuoteTurns(s, i);
    InsideLiteral(s, i + 1, e);
    QuoteTurns(s, e);
  }

  lemma OverIdentifier(s: string, i: nat, t: string, after: string)
    requires i <= |s| && s[i..] == Show(Identifier(t)) + after && '"' !in t
    ensures i + |t| + 2 <= |s| && Silent(s, i, Code, i + |t| + 2, Code)
  {
    hide FirstCut, Loud;
    var u, e := s[i..], i + 1 + |t|;
    assert |u| == |t| + 2 + |after| && u[0] == '"' && u[|t| + 1] == '"';
    assert s[i] == '"' && s[e] == u[1 + |t|];
    forall k | i + 1 <= k < e ensures s[k] != '"' { assert s[k] == u[k - i] == t[k - i - 1]; }
    QuoteTurns(s, i);
    InsideIdentifier(s, i + 1, e);
    QuoteTurns(s, e);
  }

  lemma OverLine(s: string, i: nat, t: string, after: string)
    requires i <= |s| && s[i..] == Show(ToLineEnd(t)) + after && IsLexeme(ToLineEnd(t), after)
    ensures i + |t| + 2 <= |s| && Silent(s, i, Code, i + |t| + 2, Code)
  {
    var u, e := s[i..], i + |t| + 2;
    assert u[0] == '-' && u[1] == '-' && s[i] == u[0] && s[i + 1] == u[1];
    forall k | i + 2 <= k < e ensures s[k] != '\n' { assert s[k] == u[k - i] == t[k - i - 2]; }
    if e < |s| { assert s[e] == u[e - i] == after[0]; }
    LineEndsAt(s, i + 2, e);
  }

  lemma OverBlock(s: string, i: nat, t: string, after: string)
    requires i <= |s| && s[i..] == Show(Block(t)) + after && !ClosesBlock(t)
    ensures i + |t| + 4 <= |s| && Silent(s, i, Code, i + |t| + 4, Code)
  {
    var u, e := s[i..], i + |t| + 2;
    assert u[0] == '/' && u[1] == '*' && s[i] == u[0] && s[i + 1] == u[1];
    assert s[e] == u[e - i] == '*' && s[e + 1] == u[e + 1 - i] == '/';
    forall k | i + 2 <= k < e ensures !(s[k] == '*' && s[k + 1] == '/') {
      assert s[k] == u[k - i] == t[k - i - 2];
      if k + 1 < e { assert s[k + 1] == u[k + 1 - i] == t[k + 1 - i - 2]; }
    }
    BlockEndsAt(s, i + 2, e);
  }

  lemma OverOther(s: string, i: nat, c: char, after: string)
    requires i <= |s| && s[i..] == [c] + after && IsLexeme(Other(c), after)
    ensures i < |s| && FirstCut(s, i, Code) == FirstCut(s, i + 1, Code)
    ensures Loud(s, i, Code) <==> !IsAsciiSpace(c) || Loud(s, i + 1, Code)
  {
    var u := s[i..];
    assert s[i] == u[0] == c && c != '\'' && c != '"' && c != ';';
    if i + 1 < |s| { assert s[i + 1] == u[1] && u[..2] == [s[i], s[i + 1]]; }
    assert !Commented(s, i);
  }

  lemma OverOpenEnd(s: string, i: nat)
    requires i <= |s| && IsOpenEnd(s[i..])
    ensures FirstCut(s, i, Code) == |s| && !Loud(s, i, Code)
  {
    var u := s[i..];
    if u != "" {
      assert s[i] == u[0];
      if u[0] == '\'' {
        forall k | i + 1 <= k < |s| ensures s[k] != '\'' { assert s[k] == u[1..][k - i - 1]; }
        InsideLiteral(s, i + 1, |s|);
      } else if u[0] == '"' {
        forall k | i + 1 <= k < |s| ensures s[k] != '"' { assert s[k] == u[1..][k - i - 1]; }
        InsideIdentifier(s, i + 1, |s|);
      } else {
        assert u[..2][0] == '/' && u[..2][1] == '*' && s[i + 1] == u[1];
        forall k | i + 2 <= k < |s| - 1 ensures !(s[k] == '*' && s[k + 1] == '/') {
          assert s[k] == u[2..][k - i - 2] && s[k + 1] == u[2..][k + 1 - i - 2];
        }
        BlockNeverEnds(s, i + 2);
      }
    }
  }

  lemma Position(s: string, i: nat, x: Lexeme, after: string)
    requires i <= |s| && s[i..] == Show(x) + after
    ensures var j := i + |Show(x)|; j <= |s| && s[j..] == after && s[i..j] == Show(x)
    ensures x == Semicolon ==> s[i] == ';'
  {
    var j := i + |Show(x)|;
    assert |s[i..]| == |Show(x)| + |after|;
    assert s[j..] == s[i..][|Show(x)|..] && s[i..j] == s[i..][..|Show(x)|];
    if x == Semicolon { assert s[i] == s[i..][0]; }
  }

  lemma WrittenStep(xs: seq<Lexeme>, end: string)
    requires xs != []
    ensures Written(xs) + end == Show(xs[0]) + (Written(xs[1..]) + end)
  {}

  /** A lexeme that is no semicolon holds no cut, and is loud only as a character of its own. */
  lemma OverLexeme(s: string, i: nat, x: Lexeme, after: string)
    requires i <= |s| && s[i..] == Show(x) + after && IsLexeme(x, after) && x != Semicolon
    ensures var j := i + |Show(x)|;
      && j <= |s| && s[j..] == after
      && FirstCut(s, i, Code) == FirstCut(s, j, Code)
      && (Loud(s, i, Code) <==> (x.Other? && !IsAsciiSpace(x.c)) || Loud(s, j, Code))
  {
    hide FirstCut, Loud, Opens, ClosesBlock;
    Position(s, i, x, after);
    match x {
      case Literal(t) => OverLiteral(s, i, t, after);
      case Identifier(t) => OverIdentifier(s, i, t, after);
      case ToLineEnd(t) => OverLine(s, i, t, after);
      case Block(t) => OverBlock(s, i, t, after);
      case Other(c) => OverOther(s, i, c, after);
    }
  }

  // ---------------------------------------------------------------------------
  // Splitting cuts between lexemes
  // ---------------------------------------------------------------------------

  lemma {:induction false} SegmentsAt(s: string, i: nat, xs: seq<Lexeme>, end: string)
    requires i <= |s| && Lexed(xs, end) && s[i..] == Written(xs) + end
    ensures Segments(s, i) == Statements(xs, end)
    decreases |xs|
  {
    hide FirstCut, Loud, IsLexeme, IsOpenEnd, Show, Written, Segments;
    if xs == [] {
      NothingWritten(end);
      OverOpenEnd(s, i);
      LastSegment(s, i);
    } else {
      var x, after := xs[0], Written(xs[1..]) + end;
      WrittenStep(xs, end);
      Position(s, i, x, after);
      var j := i + |Show(x)|;
      SegmentsAt(s, j, xs[1..], end);
      if x == Semicolon {
        OneCharacter();
        EmptySegment(s, i);
      } else {
        OverLexeme(s, i, x, after);
        JoinsFirst(s, i, j);
      }
    }
  }

  lemma NothingWritten(end: string)
    ensures Written([]) + end == end
  {}

  lemma OneCharacter()
    ensures |Show(Semicolon)| == 1
  {}

  lemma LastSegment(s: string, i: nat)
    requires i <= |s| && FirstCut(s, i, Code) == |s|
    ensures Segments(s, i) == [s[i..]]
  {}

  lemma EmptySegment(s: string, i: nat)
    requires i < |s| && s[i] == ';'
    ensures Segments(s, i) == [""] + Segments(s, i + 1)
  {
    CutHere(s, i);
    assert s[i..i] == "";
  }

  /** Segments of a place and of a later one with the same first cut. */
  lemma JoinsFirst(s: string, i: nat, j: nat)
    requires i <= j <= |s| && FirstCut(s, i, Code) == FirstCut(s, j, Code)
    ensures Segments(s, i) == [s[i..j] + Segments(s, j)[0]] + Segments(s, j)[1..]
  {
    hide FirstCut, Segments;
    SegmentsFrom(s, i);
    SegmentsFrom(s, j);
    var b := FirstCut(s, j, Code);
    assert s[i..b] == s[i..j] + s[j..b];
    var here, there := Segments(s, i), Segments(s, j);
    assert here == [here[0]] + here[1..];
    if b == |s| { assert here[1..] == there[1..]; }
  }

  /** Splitting a batch cuts it at exactly its semicolon lexemes, and drops what is white space;
      quotes, comment marks and semicolons inside other lexemes decide nothing. */
  lemma PiecesAreStatements(xs: seq<Lexeme>, end: string)
    requires Lexed(xs, end)
    ensures Segments(Written(xs) + end, 0) == Statements(xs, end)
    ensures Pieces(Written(xs) + end) == NonBlank(Statements(xs, end))
  {
    var s := Written(xs) + end;
    assert s[0..] == s;
    SegmentsAt(s, 0, xs, end);
  }

  /** A character that makes a statement of its own: no white space, quote or comment. */
  predicate Speaks(x: Lexeme) {
    x == Semicolon || (x.Other? && x.c !in " \t\n\r\U{0C}")
  }

  lemma {:induction false} LoudAt(s: string, i: nat, xs: seq<Lexeme>, end: string)
    requires i <= |s| && Lexed(xs, end) && s[i..] == Written(xs) + end
    ensures Loud(s, i, Code) <==> exists x :: x in xs && Speaks(x)
    decreases |xs|
  {
    hide FirstCut, IsLexeme, IsOpenEnd, Show, Written, Loud, Speaks;
    if xs == [] {
      NothingWritten(end);
      OverOpenEnd(s, i);
    } else {
      var x, after := xs[0], Written(xs[1..]) + end;
      WrittenStep(xs, end);
      Position(s, i, x, after);
      var j := i + |Show(x)|;
      LoudAt(s, j, xs[1..], end);
      assert forall y :: y in xs <==> y == x || y in xs[1..];
      if x == Semicolon {
        SemicolonSpeaks(s, i);
      } else {
        OverLexeme(s, i, x, after);
        SpeaksExactlyWhen(x);
      }
    }
  }

  lemma SpeaksExactlyWhen(x: Lexeme)
    ensures Speaks(x) <==> x == Semicolon || (x.Other? && !IsAsciiSpace(x.c))
  {}

  lemma SemicolonSpeaks(s: string, i: nat)
    requires i < |s| && s[i] == ';'
    ensures Loud(s, i, Code) && FirstCut(s, i, Code) == i && Speaks(Semicolon)
  {
    CutIsLoud(s, i, Code);
  }

  /** Behind a semicolon lexeme there is a lexeme that speaks. */
  ghost predicate Several(xs: seq<Lexeme>) {
    exists j, k :: 0 <= j < k < |xs| && xs[j] == Semicolon && Speaks(xs[k])
  }

  lemma SeveralStep(xs: seq<Lexeme>)
    requires xs != []
    ensures Several(xs) <==> Several(xs[1..]) || (xs[0] == Semicolon && exists x :: x in xs[1..] && Speaks(x))
  {
    hide Speaks;
    var rest := xs[1..];
    if Several(xs) {
      var j, k :| 0 <= j < k < |xs| && xs[j] == Semicolon && Speaks(xs[k]);
      assert rest[k - 1] == xs[k];
      if j > 0 { assert rest[j - 1] == Semicolon; }
    }
    if Several(rest) {
      var j, k :| 0 <= j < k < |rest| && rest[j] == Semicolon && Speaks(rest[k]);
      assert xs[j + 1] == rest[j] && xs[k + 1] == rest[k];
    }
    if x :| xs[0] == Semicolon && x in rest && Speaks(x) {
      var k :| 0 <= k < |rest| && rest[k] == x;
      assert xs[0] == Semicolon && xs[k + 1] == x;
    }
  }

  lemma SeveralBehind(xs: seq<Lexeme>)
    requires Several(xs)
    ensures exists x :: x in xs && Speaks(x)
  {
    hide Speaks;
    var j, k :| 0 <= j < k < |xs| && xs[j] == Semicolon && Speaks(xs[k]);
    assert xs[k] in xs;
  }

  lemma {:induction false} MultiAt(s: string, i: nat, xs: seq<Lexeme>, end: string)
    requires i <= |s| && Lexed(xs, end) && s[i..] == Written(xs) + end
    ensures (var b := FirstCut(s, i, Code); b < |s| && Loud(s, b + 1, Code)) <==> Several(xs)
    decreases |xs|
  {
    hide FirstCut, IsLexeme, IsOpenEnd, Loud, Show, Written, Several, Speaks;
    if xs == [] {
      NothingWritten(end);
      OverOpenEnd(s, i);
      NoneSeveral();
    } else {
      var x, after, rest := xs[0], Written(xs[1..]) + end, xs[1..];
      WrittenStep(xs, end);
      Position(s, i, x, after);
      var j := i + |Show(x)|;
      SeveralStep(xs);
      if x == Semicolon {
        OneCharacter();
        SemicolonSpeaks(s, i);
        LoudAt(s, j, rest, end);
        if Several(rest) { SeveralBehind(rest); }
      } else {
        OverLexeme(s, i, x, after);
        MultiAt(s, j, rest, end);
      }
    }
  }

  lemma NoneSeveral()
    ensures !Several([])
  {}

  /** A batch is a multi-statement exactly when behind a semicolon lexeme there is another, or a
      character outside quotes and comments that is no ASCII white space. */
  lemma MultiExactlyWhen(xs: seq<Lexeme>, end: string)
    requires Lexed(xs, end)
    ensures MultiStatement(Written(xs) + end) <==>
      exists j, k :: 0 <= j < k < |xs| && xs[j] == Semicolon && Speaks(xs[k])
  {
    var s := Written(xs) + end;
    assert s[0..] == s;
    MultiAt(s, 0, xs, end);
    assert Several(xs) <==> exists j, k :: 0 <= j < k < |xs| && xs[j] == Semicolon && Speaks(xs[k]);
  }

  /** Two statement lists run together where they meet. */
  function Meet(a: seq<string>, b: seq<string>): (r: seq<string>)
    requires a != [] && b != []
    ensures r != []
  {
    a[..|a| - 1] + [a[|a| - 1] + b[0]] + b[1..]
  }

  lemma MeetStep(front: string, a: seq<string>, b: seq<string>)
    requires a != [] && b != []
    ensures Meet([front] + a, b) == [front] + Meet(a, b)
    ensures Meet([front + a[0]] + a[1..], b) == [front + Meet(a, b)[0]] + Meet(a, b)[1..]
  {
    assert ([front] + a)[..|a|] == [front] + a[..|a| - 1];
    if |a| == 1 {
      assert front + (a[0] + b[0]) == front + a[0] + b[0];
    } else {
      var c := [front + a[0]] + a[1..];
      assert c[..|a| - 1] == [front + a[0]] + a[..|a| - 1][1..];
    }
  }

  lemma {:induction false} StatementsConcat(xs: seq<Lexeme>, ys: seq<Lexeme>, end: string)
    ensures Statements(xs + ys, end) == Meet(Statements(xs, ""), Statements(ys, end))
  {
    hide Show;
    if xs == [] {
      hide Statements;
      NoLexemes();
      var b := Statements(ys, end);
      assert xs + ys == ys && "" + b[0] == b[0] && b == [b[0]] + b[1..];
    } else {
      hide Meet;
      StatementsConcat(xs[1..], ys, end);
      assert (xs + ys)[0] == xs[0] && (xs + ys)[1..] == xs[1..] + ys;
      MeetStep(if xs[0] == Semicolon then "" else Show(xs[0]), Statements(xs[1..], ""), Statements(ys, end));
    }
  }

  lemma NoLexemes()
    ensures Statements([], "") == [""]
  {}

  /** A literal, identifier or comment between any two texts joins the last statement of the one
      and the first of the other, whatever it holds. */
  lemma HidesItsText(xs: seq<Lexeme>, x: Lexeme, ys: seq<Lexeme>, end: string)
    requires Lexed(xs + [x] + ys, end) && !x.Semicolon?
    ensures var (a, b) := (Statements(xs, ""), Statements(ys, end));
      Pieces(Written(xs + [x] + ys) + end) == NonBlank(a[..|a| - 1] + [a[|a| - 1] + Show(x) + b[0]] + b[1..])
  {
    hide Lexed, Written, Show, Pieces, NonBlank, Segments;
    PiecesAreStatements(xs + [x] + ys, end);
    var (a, b) := (Statements(xs, ""), Statements(ys, end));
    assert xs + [x] + ys == xs + ([x] + ys) && ([x] + ys)[1..] == ys;
    StatementsConcat(xs, [x] + ys, end);
    assert a[|a| - 1] + (Show(x) + b[0]) == a[|a| - 1] + Show(x) + b[0];
  }
}
