/** VALUES lists as people write them: any white space around tuples, commas and cells, keywords
    and hex digits in either case, calls and brackets as cells, and any text behind
    (crates/ducklink-host/src/at5_intercept.rs:452-500, 1189-1320). */
module ValuesLayout {
  import opened Wrappers
  import opened Chars
  import opened Decimal
  import opened HexText
  import opened SqlText
  import opened Values

  // ---------------------------------------------------------------------------
  // Cells
  // ---------------------------------------------------------------------------

  /** The parentheses open behind `c`, and the parentheses and brackets. */
  function Parens(c: char, p: nat): int {
    if c == '(' then p + 1 else if c == ')' then p - 1 else p
  }

  function Brackets(c: char, b: nat): int {
    if c == '(' || c == '[' then b + 1 else if c == ')' || c == ']' then b - 1 else b
  }

  /** Text whose parentheses and brackets, `p` and `b` of them open in front, close in it, and in
      which literals and quoted identifiers close; a comma stands in brackets only. */
  predicate Balanced(w: string, p: nat, b: nat)
    decreases |w|
  {
    if w == [] then p == 0 && b == 0
    else if w[0] == '\'' then
      var k := IndexOf(w[1..], '\'');
      k < |w| - 1 && (k + 2 < |w| ==> w[k + 2] != '\'') && Balanced(w[k + 2..], p, b)
    else if w[0] == '"' then
      var k := IndexOf(w[1..], '"');
      k < |w| - 1 && Balanced(w[k + 2..], p, b)
    else
      var p', b' := Parens(w[0], p), Brackets(w[0], b);
      p' >= 0 && b' >= 0 && (w[0] == ',' ==> b > 0) && Balanced(w[1..], p', b')
  }

  /** A bracketed expression, such as a call: not padded, and not ending in a quote. */
  predicate IsExpression(w: string) {
    '(' in w && Balanced(w, 0, 0) && !IsSpace(w[0]) && !IsSpace(w[|w| - 1]) && w[|w| - 1] != '\''
  }

  /** The ways to write a value. */
  predicate Spells(w: string, v: ValueLiteral) {
    match v
    case Null => |w| == 4 && w[0] in "nN" && w[1] in "uU" && w[2] in "lL" && w[3] in "lL"
    case Integer(n) => InI64(n) && (w == Signed(n) || (n >= 0 && w == "+" + Digits(n)))
    case Text(s) => '\'' !in s && w == "'" + s + "'"
    case Blob(b) =>
      |w| >= 3 && w[0] in "xX" && w[1] == '\'' && w[|w| - 1] == '\'' && EqIgnoreCase(w[2..|w| - 1], Hex(b))
    case Other(raw) => w == raw && IsExpression(raw)
  }

  lemma InLiteral(w: string)
    requires w != [] && w[0] == '\'' && IndexOf(w[1..], '\'') < |w| - 1
    ensures var k := IndexOf(w[1..], '\'');
      '\'' !in w[1..][..k] && w == Quote(w[1..][..k]) + w[k + 2..]
  {
    var t := w[1..];
    var k := IndexOf(t, '\'');
    NothingToDouble(t[..k]);
    assert w == [w[0]] + t[..k] + [t[k]] + w[k + 2..];
  }

  lemma {:induction false} CrossIdentifier(t: string, rest: string, depth: int)
    requires '"' !in t
    ensures CloseIn(t + "\"" + rest, Double, depth) == Shift(|t| + 1, CloseIn(rest, Code, depth))
  {
    var u := t + "\"" + rest;
    if t == [] {
      assert u[0] == '"' && u[1..] == rest;
    } else {
      assert t[0] in t && forall c :: c in t[1..] ==> c in t;
      assert u[1..] == t[1..] + "\"" + rest;
      CrossIdentifier(t[1..], rest, depth);
    }
  }

  lemma {:induction false} GatherIdentifier(t: string, rest: string, depth: int, buf: string)
    requires '"' !in t
    ensures CommaParts(t + "\"" + rest, Double, depth, buf) == CommaParts(rest, Code, depth, buf + t + "\"")
  {
    var u := t + "\"" + rest;
    if t == [] {
      assert u[0] == '"' && u[1..] == rest && buf + ['"'] == buf + t + "\"";
    } else {
      assert t[0] in t && forall c :: c in t[1..] ==> c in t;
      assert u[1..] == t[1..] + "\"" + rest && buf + [t[0]] + t[1..] + "\"" == buf + t + "\"";
      GatherIdentifier(t[1..], rest, depth, buf + [t[0]]);
    }
  }

  lemma InIdentifier(w: string)
    requires w != [] && w[0] == '"' && IndexOf(w[1..], '"') < |w| - 1
    ensures var k := IndexOf(w[1..], '"');
      '"' !in w[1..][..k] && w[1..] == w[1..][..k] + "\"" + w[k + 2..]
  {}

  /** The search for the closing parenthesis crosses balanced text whole: no parenthesis in it, in
      brackets or in quotes, is taken for the one that closes the tuple. */
  lemma {:induction false} CrossesBalanced(w: string, rest: string, p: nat, b: nat)
    requires Balanced(w, p, b) && rest != [] && rest[0] != '\''
    ensures CloseIn(w + rest, Code, 1 + p) == Shift(|w|, CloseIn(rest, Code, 1))
    decreases |w|
  {
    hide CloseIn, IndexOf, Parens, Brackets;
    if w == [] {
      assert w + rest == rest;
    } else if w[0] == '\'' {
      CrossesQuoted(w, rest, 1 + p);
      CrossesBalanced(w[IndexOf(w[1..], '\'') + 2..], rest, p, b);
    } else if w[0] == '"' {
      CrossesIdentifier(w, rest, 1 + p);
      CrossesBalanced(w[IndexOf(w[1..], '"') + 2..], rest, p, b);
    } else {
      CrossesCharacter(w[0], w[1..] + rest, p);
      assert w + rest == [w[0]] + (w[1..] + rest);
      CrossesBalanced(w[1..], rest, Parens(w[0], p), Brackets(w[0], b));
    }
  }

  lemma CrossesQuoted(w: string, rest: string, depth: int)
    requires w != [] && w[0] == '\'' && IndexOf(w[1..], '\'') < |w| - 1
    requires var more := w[IndexOf(w[1..], '\'') + 2..] + rest; more != [] && more[0] != '\''
    ensures var k := IndexOf(w[1..], '\'');
      CloseIn(w + rest, Code, depth) == Shift(k + 2, CloseIn(w[k + 2..] + rest, Code, depth))
  {
    hide CloseIn;
    var k := IndexOf(w[1..], '\'');
    var t, more := w[1..][..k], w[k + 2..] + rest;
    InLiteral(w);
    assert w + rest == Quote(t) + more;
    CrossLiteral(t, more, depth);
  }

  lemma CrossesIdentifier(w: string, rest: string, depth: int)
    requires w != [] && w[0] == '"' && IndexOf(w[1..], '"') < |w| - 1
    ensures var k := IndexOf(w[1..], '"');
      CloseIn(w + rest, Code, depth) == Shift(k + 2, CloseIn(w[k + 2..] + rest, Code, depth))
  {
    var k := IndexOf(w[1..], '"');
    var t, more := w[1..][..k], w[k + 2..] + rest;
    InIdentifier(w);
    assert (w + rest)[1..] == t + "\"" + more;
    CrossIdentifier(t, more, depth);
  }

  lemma CrossesCharacter(c: char, rest: string, p: nat)
    requires c != '\'' && Parens(c, p) >= 0
    ensures CloseIn([c] + rest, Code, 1 + p) ==
      Shift(1, CloseIn(rest, if c == '"' then Double else Code, 1 + Parens(c, p)))
  {
    assert ([c] + rest)[1..] == rest;
  }

  lemma GathersQuoted(w: string, rest: string, depth: int, buf: string)
    requires w != [] && w[0] == '\'' && IndexOf(w[1..], '\'') < |w| - 1
    ensures var k := IndexOf(w[1..], '\'');
      CommaParts(w + rest, Code, depth, buf) == CommaParts(w[k + 2..] + rest, Code, depth, buf + w[..k + 2])
  {
    hide CommaParts;
    var k := IndexOf(w[1..], '\'');
    var t, more := w[1..][..k], w[k + 2..] + rest;
    InLiteral(w);
    assert w + rest == Quote(t) + more && Quote(t) == w[..k + 2];
    GatherLiteral(t, more, depth, buf);
  }

  lemma GathersIdentifier(w: string, rest: string, depth: int, buf: string)
    requires w != [] && w[0] == '"' && IndexOf(w[1..], '"') < |w| - 1
    ensures var k := IndexOf(w[1..], '"');
      CommaParts(w + rest, Code, depth, buf) == CommaParts(w[k + 2..] + rest, Code, depth, buf + w[..k + 2])
  {
    var k := IndexOf(w[1..], '"');
    var t, more := w[1..][..k], w[k + 2..] + rest;
    InIdentifier(w);
    assert (w + rest)[1..] == t + "\"" + more;
    GatherIdentifier(t, more, depth, buf + ['"']);
    assert buf + ['"'] + t + "\"" == buf + w[..k + 2];
  }

  lemma GathersCharacter(c: char, rest: string, b: nat, buf: string)
    requires c != '\'' && c != '"' && (c == ',' ==> b > 0)
    ensures CommaParts([c] + rest, Code, b, buf) == CommaParts(rest, Code, Brackets(c, b), buf + [c])
  {
    assert ([c] + rest)[1..] == rest;
  }

  /** So does the search for the commas between cells. */
  lemma {:induction false} GathersBalanced(w: string, rest: string, p: nat, b: nat, buf: string)
    requires Balanced(w, p, b)
    ensures CommaParts(w + rest, Code, b, buf) == CommaParts(rest, Code, 0, buf + w)
    decreases |w|
  {
    hide CommaParts, IndexOf, Parens, Brackets;
    if w == [] {
      assert w + rest == rest && buf + w == buf;
    } else if w[0] == '\'' {
      var n := IndexOf(w[1..], '\'') + 2;
      GathersQuoted(w, rest, b, buf);
      GathersBalanced(w[n..], rest, p, b, buf + w[..n]);
      assert buf + w[..n] + w[n..] == buf + w;
    } else if w[0] == '"' {
      var n := IndexOf(w[1..], '"') + 2;
      GathersIdentifier(w, rest, b, buf);
      GathersBalanced(w[n..], rest, p, b, buf + w[..n]);
      assert buf + w[..n] + w[n..] == buf + w;
    } else {
      GathersCharacter(w[0], w[1..] + rest, b, buf);
      assert w + rest == [w[0]] + (w[1..] + rest) && buf + [w[0]] + w[1..] == buf + w;
      GathersBalanced(w[1..], rest, Parens(w[0], p), Brackets(w[0], b), buf + [w[0]]);
    }
  }

  lemma {:induction false} PlainIsBalanced(w: string)
    requires Plain(w)
    ensures Balanced(w, 0, 0)
  {
    if w != [] {
      assert w[0] !in "'\"()[],";
      PlainIsBalanced(w[1..]);
    }
  }

  lemma LiteralIsBalanced(s: string)
    requires '\'' !in s
    ensures Balanced("'" + s + "'", 0, 0)
  {
    var w := "'" + s + "'";
    var k := IndexOf(w[1..], '\'');
    assert w[1..][|s|] == '\'' && forall j :: 0 <= j < |s| ==> w[1..][j] == s[j] && s[j] in s;
    assert k == |s| && w[k + 2..] == [];
  }

  lemma HexDigitAnyCase(c: char, d: nat)
    requires d < 16
    ensures HexVal(c) == Some(d) <==> Lower(c) == Lower(HexDigit(d))
  {}

  lemma HexLength(b: Bytes)
    ensures |Hex(b)| == 2 * |b|
  {
    HexRoundTrip(b);
  }

  lemma HexBytesStep(t: string, b: Bytes)
    requires |t| >= 2 && b != []
    ensures HexBytes(t) == Some(b) <==>
      HexVal(t[0]) == Some(b[0] / 16) && HexVal(t[1]) == Some(b[0] % 16) && HexBytes(t[2..]) == Some(b[1..])
  {
    HexValBound(t[0]);
    HexValBound(t[1]);
    assert b == [b[0]] + b[1..];
    if HexVal(t[0]).Some? && HexVal(t[1]).Some? && HexBytes(t[2..]).Some? {
      var r := HexBytes(t).value;
      assert r[1..] == HexBytes(t[2..]).value && r[0] == HexVal(t[0]).value * 16 + HexVal(t[1]).value;
    }
  }

  /** Blob digits are read in either case: exactly the spellings of the hex text. */
  lemma {:induction false} HexAnyCase(t: string, b: Bytes)
    ensures HexBytes(t) == Some(b) <==> EqIgnoreCase(t, Hex(b))
  {
    HexLength(b);
    if |t| >= 2 && b != [] {
      hide HexVal, HexDigit, HexBytes, Lower;
      HexBytesStep(t, b);
      HexAnyCase(t[2..], b[1..]);
      HexDigitAnyCase(t[0], b[0] / 16);
      HexDigitAnyCase(t[1], b[0] % 16);
      var h := Hex(b);
      assert h[2..] == Hex(b[1..]) && h[0] == HexDigit(b[0] / 16) && h[1] == HexDigit(b[0] % 16);
      assert forall k :: 2 <= k < |t| ==> t[k] == t[2..][k - 2];
      assert forall k :: 2 <= k < |h| ==> h[k] == h[2..][k - 2];
    }
  }

  // ---------------------------------------------------------------------------
  // A spelled value reads as itself
  // ---------------------------------------------------------------------------

  lemma NoQuoteInHex(t: string, b: Bytes)
    requires EqIgnoreCase(t, Hex(b))
    ensures '\'' !in t
  {
    HexIsPlain(b);
    forall k | 0 <= k < |t| ensures t[k] != '\'' { assert Hex(b)[k] !in "'\"()[]," && Hex(b)[k] != '\''; }
  }

  lemma BlobSpelled(w: string, b: Bytes)
    requires Spells(w, Blob(b))
    ensures Balanced(w, 0, 0) && Classify(w) == Blob(b)
  {
    hide HexBytes, Hex, EqIgnoreCase, IndexOf;
    var h := w[2..|w| - 1];
    NoQuoteInHex(h, b);
    HexAnyCase(h, b);
    LiteralIsBalanced(h);
    assert w[1..] == "'" + h + "'";
    assert w[..2] == [w[0], w[1]];
    NotNull(w);
  }

  lemma IntegerSpelled(w: string, n: int)
    requires Spells(w, Integer(n))
    ensures Plain(w) && w != [] && !IsSpace(w[0]) && !IsSpace(w[|w| - 1]) && Classify(w) == Integer(n)
  {
    if w == Signed(n) {
      SignedPlain(n);
      ClassifyInteger(n);
    } else {
      ValueOfDigits(n);
      assert w[0] == '+' && w[1..] == Digits(n);
      NotNull(w);
    }
  }

  lemma ExpressionSpelled(w: string)
    requires IsExpression(w)
    ensures Classify(w) == Other(w)
  {
    hide Balanced, HexBytes, Value;
    var k :| 0 <= k < |w| && w[k] == '(';
    assert Lower(w[k]) !in "null";
    assert w[0] == '-' || w[0] == '+' ==> w[1..][k - 1] == '(';
  }

  lemma NullSpelled(w: string)
    requires Spells(w, Null)
    ensures Plain(w) && w != [] && !IsSpace(w[0]) && !IsSpace(w[|w| - 1]) && Classify(w) == Null
  {
    assert EqIgnoreCase(w, "NULL");
  }

  lemma TextSpelled(w: string, s: string)
    requires Spells(w, Text(s))
    ensures Balanced(w, 0, 0) && w != [] && !IsSpace(w[0]) && !IsSpace(w[|w| - 1]) && Classify(w) == Text(s)
  {
    hide Classify, Balanced;
    LiteralIsBalanced(s);
    NothingToDouble(s);
    ClassifyText(s);
  }

  /** Every spelling of a value is classified as the value, and crossed whole. */
  lemma Spelled(w: string, v: ValueLiteral)
    requires Spells(w, v)
    ensures Balanced(w, 0, 0) && w != [] && !IsSpace(w[0]) && !IsSpace(w[|w| - 1]) && Classify(w) == v
  {
    hide Classify, Balanced, Plain, EqIgnoreCase, Digits, Hex;
    match v {
      case Null => NullSpelled(w); PlainIsBalanced(w);
      case Integer(n) => IntegerSpelled(w, n); PlainIsBalanced(w);
      case Text(s) => TextSpelled(w, s);
      case Blob(b) => BlobSpelled(w, b);
      case Other(raw) => ExpressionSpelled(raw);
    }
  }

  lemma {:induction false} TrimStartPadded(lead: string, w: string)
    requires Blank(lead) && w != [] && !IsSpace(w[0])
    ensures TrimStart(lead + w) == w
  {
    if lead == [] {
      assert lead + w == w;
    } else {
      assert (lead + w)[1..] == lead[1..] + w;
      TrimStartPadded(lead[1..], w);
    }
  }

  lemma {:induction false} TrimEndPadded(w: string, trail: string)
    requires Blank(trail) && w != [] && !IsSpace(w[|w| - 1])
    ensures TrimEnd(w + trail) == w
  {
    if trail == [] {
      assert w + trail == w;
    } else {
      var t := trail[..|trail| - 1];
      assert (w + trail)[..|w + trail| - 1] == w + t;
      TrimEndPadded(w, t);
    }
  }

  // ---------------------------------------------------------------------------
  // Rows
  // ---------------------------------------------------------------------------

  /** A value as written, with white space around it. */
  datatype Cell = Cell(lead: string, text: string, trail: string, value: ValueLiteral)

  predicate IsCell(c: Cell) {
    Blank(c.lead) && Blank(c.trail) && Spells(c.text, c.value)
  }

  function Shown(c: Cell): string {
    c.lead + c.text + c.trail
  }

  function CellsText(row: seq<Cell>): string {
    if row == [] then "" else if |row| == 1 then Shown(row[0]) else Shown(row[0]) + ("," + CellsText(row[1..]))
  }

  function RowValues(row: seq<Cell>): Row {
    if row == [] then [] else [row[0].value] + RowValues(row[1..])
  }

  lemma BlankIsPlain(t: string)
    requires Blank(t)
    ensures Plain(t)
  {}

  lemma CellReads(c: Cell)
    requires IsCell(c)
    ensures ParseValueLiteral(Trim(Shown(c))) == c.value && !Blank(Shown(c))
  {
    hide Classify, TrimStart, TrimEnd, Balanced, Spells;
    Spelled(c.text, c.value);
    var w := c.text + c.trail;
    assert Shown(c) == c.lead + w && w[0] == c.text[0];
    TrimStartPadded(c.lead, w);
    TrimEndPadded(c.text, c.trail);
    TrimStartPadded("", c.text);
    TrimEndPadded(c.text, "");
    assert "" + c.text == c.text + "" == c.text;
    assert Shown(c)[|c.lead|] == c.text[0];
  }

  lemma CellCrosses(c: Cell, rest: string)
    requires IsCell(c) && rest != [] && rest[0] != '\''
    ensures CloseIn(Shown(c) + rest, Code, 1) == Shift(|Shown(c)|, CloseIn(rest, Code, 1))
  {
    hide CloseIn, Spells, Balanced, Classify, Plain, Blank, IsSpace;
    Spelled(c.text, c.value);
    BlankIsPlain(c.lead);
    BlankIsPlain(c.trail);
    var r1 := c.trail + rest;
    var r0 := c.text + r1;
    assert Shown(c) + rest == c.lead + r0;
    if c.trail != "" { SpaceIsNoQuote(c.trail); }
    assert r1[0] == if c.trail != "" then c.trail[0] else rest[0];
    CrossPlain(c.lead, r0, 1);
    CrossesBalanced(c.text, r1, 0, 0);
    CrossPlain(c.trail, rest, 1);
  }

  lemma SpaceIsNoQuote(t: string)
    requires Blank(t) && t != ""
    ensures t[0] != '\''
  {}

  lemma CellGathers(c: Cell, rest: string)
    requires IsCell(c)
    ensures CommaParts(Shown(c) + rest, Code, 0, []) == CommaParts(rest, Code, 0, Shown(c))
  {
    hide CommaParts, Spells, Balanced, Classify;
    Spelled(c.text, c.value);
    BlankIsPlain(c.lead);
    BlankIsPlain(c.trail);
    assert Shown(c) + rest == c.lead + (c.text + (c.trail + rest)) && [] + c.lead == c.lead;
    GatherPlain(c.lead, c.text + (c.trail + rest), 0, []);
    GathersBalanced(c.text, c.trail + rest, 0, 0, c.lead);
    GatherPlain(c.trail, rest, 0, c.lead + c.text);
  }

  lemma {:induction false} CellsRead(row: seq<Cell>)
    requires forall k :: 0 <= k < |row| ==> IsCell(row[k])
    ensures ParseCells(CommaParts(CellsText(row), Code, 0, [])) == RowValues(row)
  {
    if row != [] {
      hide IsCell, ParseValueLiteral, Trim, Shown;
      var c := row[0];
      CellReads(c);
      if |row| == 1 {
        CellGathers(c, "");
        assert Shown(c) + "" == Shown(c) && [Shown(c)] == [Shown(c)] + [] && row[1..] == [];
        ParseCellsStep(Shown(c), []);
      } else {
        var more := CellsText(row[1..]);
        CellGathers(c, "," + more);
        CommaEnds(Shown(c), more);
        CellsRead(row[1..]);
        ParseCellsStep(Shown(c), CommaParts(more, Code, 0, []));
      }
    }
  }

  lemma CommaEnds(buf: string, more: string)
    ensures CommaParts("," + more, Code, 0, buf) == [buf] + CommaParts(more, Code, 0, [])
  {
    assert ("," + more)[1..] == more;
  }

  lemma {:induction false} RowCloses(row: seq<Cell>, rest: string)
    requires forall k :: 0 <= k < |row| ==> IsCell(row[k])
    ensures CloseIn(CellsText(row) + (")" + rest), Code, 1) == Some(|CellsText(row)|)
  {
    hide CloseIn, IsCell, Shown, CellsText;
    var close := ")" + rest;
    ClosesHere(rest);
    CellsTextIs(row);
    if row == [] {
      assert CellsText(row) + close == close;
    } else if |row| == 1 {
      CellCrosses(row[0], close);
    } else {
      var more := CellsText(row[1..]) + close;
      assert CellsText(row) + close == Shown(row[0]) + ([','] + more);
      CellCrosses(row[0], [','] + more);
      CrossesCharacter(',', more, 0);
      RowCloses(row[1..], rest);
    }
  }

  lemma ClosesHere(rest: string)
    ensures CloseIn(")" + rest, Code, 1) == Some(0)
  {}

  lemma CellsTextIs(row: seq<Cell>)
    ensures CellsText(row) == if row == [] then "" else if |row| == 1 then Shown(row[0])
                              else Shown(row[0]) + ("," + CellsText(row[1..]))
  {}

  // ---------------------------------------------------------------------------
  // Lists of rows
  // ---------------------------------------------------------------------------

  predicate IsGap(g: string) {
    forall k :: 0 <= k < |g| ==> g[k] in " ,\t\n\r\U{0C}"
  }

  /** The rows with `gaps` before, between and behind them, and then `behind`. */
  function ListText(gaps: seq<string>, rows: seq<seq<Cell>>, behind: string): string
    requires |gaps| == |rows| + 1
  {
    if rows == [] then gaps[0] + behind
    else gaps[0] + ("(" + CellsText(rows[0]) + ")" + ListText(gaps[1..], rows[1..], behind))
  }

  function ListValues(rows: seq<seq<Cell>>): seq<Row> {
    if rows == [] then [] else [RowValues(rows[0])] + ListValues(rows[1..])
  }

  lemma {:induction false} SkipsGap(g: string, t: string, out: seq<Row>)
    requires IsGap(g)
    ensures Tuples(g + t, out) == Tuples(t, out)
  {
    if g == [] {
      assert g + t == t;
    } else {
      assert g[0] in " ,\t\n\r\U{0C}" && (g + t)[1..] == g[1..] + t;
      SkipsGap(g[1..], t, out);
    }
  }

  lemma RowReads(row: seq<Cell>, rest: string, out: seq<Row>)
    requires forall k :: 0 <= k < |row| ==> IsCell(row[k])
    ensures Tuples("(" + CellsText(row) + ")" + rest, out) == Tuples(rest, out + [RowValues(row)])
  {
    hide CellsText, CommaParts, CloseIn, ClosingParen, ParseCells, RowValues, IsCell;
    var t, c := "(" + CellsText(row) + ")" + rest, |CellsText(row)| + 1;
    assert t[0] == '(' && t[1..] == CellsText(row) + (")" + rest);
    RowCloses(row, rest);
    ParenOpens(t);
    assert t[1..c] == CellsText(row) && t[c + 1..] == rest;
    CellsRead(row);
  }

  /** Rows of spelled values are read in order, whatever white space and commas surround them, up to
      the first text behind that opens no further tuple; without a row there is no result. */
  lemma {:induction false} RowsInAnyLayout(gaps: seq<string>, rows: seq<seq<Cell>>, behind: string, out: seq<Row>)
    requires |gaps| == |rows| + 1 && forall k :: 0 <= k < |gaps| ==> IsGap(gaps[k])
    requires forall j, k :: 0 <= j < |rows| && 0 <= k < |rows[j]| ==> IsCell(rows[j][k])
    requires behind == "" || behind[0] !in " ,\t\n\r\U{0C}("
    ensures Tuples(ListText(gaps, rows, behind), out) ==
      if out + ListValues(rows) == [] then None else Some(out + ListValues(rows))
  {
    hide CellsText, RowValues, IsCell, IsGap;
    if rows == [] {
      SkipsGap(gaps[0], behind, out);
      Stops(behind, out);
      assert out + ListValues(rows) == out;
    } else {
      hide Tuples;
      var more := ListText(gaps[1..], rows[1..], behind);
      SkipsGap(gaps[0], "(" + CellsText(rows[0]) + ")" + more, out);
      RowReads(rows[0], more, out);
      RowsInAnyLayout(gaps[1..], rows[1..], behind, out + [RowValues(rows[0])]);
      assert out + [RowValues(rows[0])] + ListValues(rows[1..]) == out + ListValues(rows);
    }
  }

  /** At the end, at a semicolon and at any other text. */
  lemma Stops(behind: string, out: seq<Row>)
    requires behind == "" || behind[0] !in " ,\t\n\r\U{0C}("
    ensures Tuples(behind, out) == if out == [] then None else Some(out)
  {}

  lemma {:induction false} NeverCloses(t: string, m: Mode, depth: int)
    requires ')' !in t
    ensures CloseIn(t, m, depth) == None
  {
    if t != [] {
      assert t[0] in t && forall c :: c in t[1..] ==> c in t;
      NeverCloses(t[1..], CloseMode(t, m), CloseDepth(t[0], m, depth));
    }
  }

  /** A tuple left open behind them loses all the rows. */
  lemma {:induction false} OpenTupleLosesAll(gaps: seq<string>, rows: seq<seq<Cell>>, behind: string, out: seq<Row>)
    requires |gaps| == |rows| + 1 && forall k :: 0 <= k < |gaps| ==> IsGap(gaps[k])
    requires forall j, k :: 0 <= j < |rows| && 0 <= k < |rows[j]| ==> IsCell(rows[j][k])
    requires behind != "" && behind[0] == '(' && ')' !in behind
    ensures Tuples(ListText(gaps, rows, behind), out) == None
  {
    hide CellsText, RowValues, IsCell, IsGap;
    if rows == [] {
      SkipsGap(gaps[0], behind, out);
      NeverCloses(behind, Code, 0);
    } else {
      hide Tuples;
      var more := ListText(gaps[1..], rows[1..], behind);
      SkipsGap(gaps[0], "(" + CellsText(rows[0]) + ")" + more, out);
      RowReads(rows[0], more, out);
      OpenTupleLosesAll(gaps[1..], rows[1..], behind, out + [RowValues(rows[0])]);
    }
  }
}
