/** The VALUES parser of the write intercept
    (crates/ducklink-host/src/at5_intercept.rs:1189-1320). */
module Values {
  import opened Wrappers
  import opened Chars
  import opened Decimal
  import opened SqlText
  import opened HexText

  /** `Other` stands for the float and raw fall-throughs. */
  datatype ValueLiteral = Null | Integer(n: int) | Text(s: string) | Blob(b: Bytes) | Other(raw: string)

  // ---------------------------------------------------------------------------
  // Blobs
  // ---------------------------------------------------------------------------

  function Onto(front: Bytes, r: Option<Bytes>): Option<Bytes> {
    match r case None => None case Some(rest) => Some(front + rest)
  }

  lemma OntoAssociates(a: Bytes, b: Bytes, r: Option<Bytes>)
    ensures Onto(a, Onto(b, r)) == Onto(a + b, r) && Onto([], r) == r
  {
    if r.Some? { assert a + (b + r.value) == a + b + r.value && [] + r.value == r.value; }
  }

  method DecodeHex(s: string) returns (r: Option<Bytes>)
    ensures r == HexBytes(s)
  {
    OddHex(s);
    if |s| % 2 != 0 { return None; }
    var out: Bytes := [];
    var i := 0;
    assert s[0..] == s;
    OntoAssociates([], [], HexBytes(s));
    while i < |s|
      invariant 0 <= i <= |s| && i % 2 == 0
      invariant HexBytes(s) == Onto(out, HexBytes(s[i..]))
    {
      assert s[i..][2..] == s[i + 2..];
      var hi, lo := HexVal(s[i]), HexVal(s[i + 1]);
      if hi.None? || lo.None? { return None; }
      HexValBound(s[i]);
      HexValBound(s[i + 1]);
      OntoAssociates(out, [hi.value * 16 + lo.value], HexBytes(s[i + 2..]));
      out := out + [hi.value * 16 + lo.value];
      i := i + 2;
    }
    assert s[i..] == [] && out + [] == out;
    return Some(out);
  }

  // ---------------------------------------------------------------------------
  // The closing parenthesis
  // ---------------------------------------------------------------------------

  function Shift(k: nat, r: Option<nat>): Option<nat> {
    match r case None => None case Some(i) => Some(k + i)
  }

  /** The mode after `t[0]`: inside a literal, a quote that is followed by another quote does
      not close it, but it does not consume that other quote either. */
  function CloseMode(t: string, m: Mode): Mode
    requires t != []
  {
    match m
    case Single => if t[0] == '\'' && !(|t| > 1 && t[1] == '\'') then Code else Single
    case Double => if t[0] == '"' then Code else Double
    case Code => if t[0] == '\'' then Single else if t[0] == '"' then Double else Code
  }

  function CloseDepth(c: char, m: Mode, depth: int): int {
    if m == Code && c == '(' then depth + 1 else if m == Code && c == ')' then depth - 1 else depth
  }

  /** Where the parenthesis opened `depth` levels ago closes in `t`. */
  function CloseIn(t: string, m: Mode, depth: int): (r: Option<nat>)
    ensures r.Some? ==> r.value < |t|
  {
    if t == [] then None
    else if m == Code && t[0] == ')' && depth == 1 then Some(0)
    else Shift(1, CloseIn(t[1..], CloseMode(t, m), CloseDepth(t[0], m, depth)))
  }

  function ClosingParen(t: string): (r: Option<nat>)
    ensures r.Some? ==> 0 < r.value < |t|
  {
    if t == [] || t[0] != '(' then None else CloseIn(t, Code, 0)
  }

  method BalancedClose(s: string) returns (r: Option<nat>)
    ensures r == ClosingParen(s)
  {
    if s == [] || s[0] != '(' { return None; }
    var depth, inSingle, inDouble := 0, false, false;
    assert s[0..] == s;
    for i := 0 to |s|
      invariant !(inSingle && inDouble)
      invariant ClosingParen(s) ==
        Shift(i, CloseIn(s[i..], if inSingle then Single else if inDouble then Double else Code, depth))
    {
      var c := s[i];
      assert s[i..][0] == c && s[i..][1..] == s[i + 1..];
      if inSingle {
        if c == '\'' {
          if i + 1 < |s| && s[i + 1] == '\'' { continue; }
          inSingle := false;
        }
        continue;
      }
      if inDouble {
        if c == '"' { inDouble := false; }
        continue;
      }
      if c == '\'' {
        inSingle := true;
      } else if c == '"' {
        inDouble := true;
      } else if c == '(' {
        depth := depth + 1;
      } else if c == ')' {
        depth := depth - 1;
        if depth == 0 { return Some(i); }
      }
    }
    return None;
  }

  lemma {:induction false} CrossPlain(w: string, rest: string, depth: int)
    requires Plain(w)
    ensures CloseIn(w + rest, Code, depth) == Shift(|w|, CloseIn(rest, Code, depth))
  {
    if w == [] {
      assert w + rest == rest;
    } else {
      assert w[0] !in "'\"()[],";
      assert (w + rest)[1..] == w[1..] + rest;
      CrossPlain(w[1..], rest, depth);
    }
  }

  lemma {:induction false} CrossInside(s: string, rest: string, depth: int)
    requires '\'' !in s && rest != [] && rest[0] != '\''
    ensures CloseIn(s + "'" + rest, Single, depth) == Shift(|s| + 1, CloseIn(rest, Code, depth))
  {
    var t := s + "'" + rest;
    if s == [] {
      assert t[0] == '\'' && t[1] == rest[0] && t[1..] == rest;
    } else {
      assert s[0] in s && forall c :: c in s[1..] ==> c in s;
      assert t[1..] == s[1..] + "'" + rest;
      CrossInside(s[1..], rest, depth);
    }
  }

  lemma CrossLiteral(s: string, rest: string, depth: int)
    requires '\'' !in s && rest != [] && rest[0] != '\''
    ensures CloseIn(Quote(s) + rest, Code, depth) == Shift(|s| + 2, CloseIn(rest, Code, depth))
  {
    NothingToDouble(s);
    assert (Quote(s) + rest)[1..] == s + "'" + rest;
    CrossInside(s, rest, depth);
  }

  // ---------------------------------------------------------------------------
  // Cells
  // ---------------------------------------------------------------------------

  function ParseValueLiteral(cell: string): ValueLiteral {
    Classify(Trim(cell))
  }

  function Classify(s: string): ValueLiteral {
    if EqIgnoreCase(s, "NULL") then Null
    else if StripQuotes(s).Some? then Text(StripQuotes(s).value)
    else if BlobLiteral(s).Some? then Blob(BlobLiteral(s).value)
    else match ParseI64(s) case Some(n) => Integer(n) case None => Other(s)
  }

  function BlobLiteral(s: string): Option<Bytes> {
    if |s| >= 3 && (s[..2] == "X'" || s[..2] == "x'") && s[|s| - 1] == '\'' then HexBytes(s[2..|s| - 1]) else None
  }

  function Print(v: ValueLiteral): string {
    match v
    case Null => "NULL"
    case Integer(n) => Signed(n)
    case Text(s) => Quote(s)
    case Blob(b) => "X" + Quote(Hex(b))
    case Other(raw) => raw
  }

  /** What one cell can be printed as and read back: any string, 64-bit integers, blobs, NULL. */
  predicate Readable(v: ValueLiteral) {
    match v
    case Integer(n) => InI64(n)
    case Other(_) => false
    case _ => true
  }

  /** What the round trip of whole rows below covers: the same, but strings without apostrophes. */
  predicate Printable(v: ValueLiteral) {
    match v
    case Null => true
    case Integer(n) => InI64(n)
    case Text(s) => '\'' !in s
    case Blob(_) => true
    case Other(_) => false
  }

  lemma SignedPlain(n: int)
    ensures var s := Signed(n); s != [] && Plain(s) && forall k :: 0 <= k < |s| ==> IsDigit(s[k]) || s[k] == '-'
  {}

  lemma HexIsPlain(b: Bytes)
    ensures Plain(Hex(b)) && HexBytes(Hex(b)) == Some(b) && |Hex(b)| == 2 * |b|
  {
    HexRoundTrip(b);
  }

  lemma PlainHasNoQuote(w: string)
    requires Plain(w)
    ensures '\'' !in w
  {
    assert forall k :: 0 <= k < |w| ==> w[k] !in "'\"()[]," && w[k] != '\'';
  }

  lemma HexHasNoQuote(b: Bytes)
    ensures '\'' !in Hex(b) && Doubled(Hex(b)) == Hex(b)
  {
    HexIsPlain(b);
    PlainHasNoQuote(Hex(b));
    NothingToDouble(Hex(b));
  }

  lemma PrintTight(v: ValueLiteral)
    requires Readable(v)
    ensures var p := Print(v); p != [] && !IsSpace(p[0]) && !IsSpace(p[|p| - 1])
  {
    if v.Integer? { SignedPlain(v.n); }
  }

  lemma NotNull(p: string)
    requires p != [] && Lower(p[0]) != 'n'
    ensures !EqIgnoreCase(p, "NULL")
  {
    assert Lower("NULL"[0]) == 'n';
  }

  lemma ClassifyPrinted(v: ValueLiteral)
    requires Readable(v)
    ensures Classify(Print(v)) == v
  {
    match v {
      case Null =>
      case Integer(n) => ClassifyInteger(n);
      case Text(s) => ClassifyText(s);
      case Blob(b) => ClassifyBlob(b);
    }
  }

  lemma ClassifyInteger(n: int)
    requires InI64(n)
    ensures Classify(Print(Integer(n))) == Integer(n)
  {
    hide EqIgnoreCase, Signed, ParseI64;
    var p := Print(Integer(n));
    SignedPlain(n);
    ParseSigned(n);
    assert IsDigit(p[0]) || p[0] == '-';
    NotNull(p);
  }

  lemma ClassifyText(s: string)
    ensures Classify(Print(Text(s))) == Text(s)
  {
    hide EqIgnoreCase;
    StripQuote(s);
    NotNull(Print(Text(s)));
  }

  lemma ClassifyBlob(b: Bytes)
    ensures Classify(Print(Blob(b))) == Blob(b)
  {
    hide EqIgnoreCase, Hex, HexBytes;
    var p := Print(Blob(b));
    HexIsPlain(b);
    HexHasNoQuote(b);
    assert p[2..|p| - 1] == Hex(b) && p[..2] == "X'";
    NotNull(p);
  }

  /** A printed value reads back as itself, with a blank before it or not. */
  lemma CellRoundTrip(lead: string, v: ValueLiteral)
    requires Readable(v) && (lead == "" || lead == " ")
    ensures ParseValueLiteral(Trim(lead + Print(v))) == v
  {
    hide Trim, Print, Classify;
    PrintTight(v);
    TrimTight(lead, Print(v));
    ClassifyPrinted(v);
  }

  lemma GatherCell(v: ValueLiteral, rest: string, buf: string)
    requires Readable(v)
    ensures CommaParts(Print(v) + rest, Code, 0, buf) == CommaParts(rest, Code, 0, buf + Print(v))
  {
    match v {
      case Null => GatherPlain("NULL", rest, 0, buf);
      case Integer(n) => SignedPlain(n); GatherPlain(Signed(n), rest, 0, buf);
      case Text(s) => GatherLiteral(s, rest, 0, buf);
      case Blob(b) =>
        var q := Quote(Hex(b));
        assert Print(v) + rest == "X" + (q + rest) && buf + "X" + q == buf + Print(v);
        GatherPlain("X", q + rest, 0, buf);
        GatherLiteral(Hex(b), rest, 0, buf + "X");
    }
  }

  lemma CrossBlob(b: Bytes, rest: string, depth: int)
    requires rest != [] && rest[0] != '\''
    ensures CloseIn(Print(Blob(b)) + rest, Code, depth) == Shift(|Print(Blob(b))|, CloseIn(rest, Code, depth))
  {
    hide Hex, Doubled, CloseIn;
    var q := Quote(Hex(b));
    HexHasNoQuote(b);
    assert Print(Blob(b)) + rest == "X" + (q + rest);
    CrossPlain("X", q + rest, depth);
    CrossLiteral(Hex(b), rest, depth);
  }

  lemma CrossCell(v: ValueLiteral, rest: string, depth: int)
    requires Printable(v) && rest != [] && rest[0] != '\''
    ensures CloseIn(Print(v) + rest, Code, depth) == Shift(|Print(v)|, CloseIn(rest, Code, depth))
  {
    hide CloseIn, Doubled;
    match v {
      case Null => CrossPlain("NULL", rest, depth);
      case Integer(n) => SignedPlain(n); CrossPlain(Signed(n), rest, depth);
      case Text(s) => CrossLiteral(s, rest, depth); NothingToDouble(s);
      case Blob(b) => CrossBlob(b, rest, depth);
    }
  }

  // ---------------------------------------------------------------------------
  // Rows
  // ---------------------------------------------------------------------------

  type Row = seq<ValueLiteral>

  function ParseCells(parts: seq<string>): Row {
    if parts == [] then [] else [ParseValueLiteral(Trim(parts[0]))] + ParseCells(parts[1..])
  }

  function Cells(row: Row): string {
    if row == [] then "" else if |row| == 1 then Print(row[0]) else Print(row[0]) + ", " + Cells(row[1..])
  }

  predicate ReadableRow(row: Row) {
    forall k | 0 <= k < |row| :: Readable(row[k])
  }

  predicate PrintableRow(row: Row) {
    forall k | 0 <= k < |row| :: Printable(row[k])
  }

  lemma CellsStep(row: Row)
    requires |row| > 1
    ensures Cells(row) == Print(row[0]) + (", " + Cells(row[1..]))
  {
    assert Print(row[0]) + ", " + Cells(row[1..]) == Print(row[0]) + (", " + Cells(row[1..]));
  }

  lemma ParseCellsStep(p: string, tail: seq<string>)
    ensures ParseCells([p] + tail) == [ParseValueLiteral(Trim(p))] + ParseCells(tail)
  {
    assert ([p] + tail)[1..] == tail;
  }

  lemma {:induction false} CellsRoundTrip(row: Row, lead: string)
    requires ReadableRow(row) && (lead == "" || lead == " ")
    requires row == [] ==> lead == ""
    ensures ParseCells(CommaParts(Cells(row), Code, 0, lead)) == row
  {
    if row != [] {
      hide Print, ParseValueLiteral, Trim, Blank, Readable;
      var v, p := row[0], lead + Print(row[0]);
      CellRoundTrip(lead, v);
      PrintTight(v);
      TrimTight(lead, Print(v));
      if |row| == 1 {
        GatherCell(v, "", lead);
        assert Print(v) + "" == Print(v) && [p] == [p] + [];
        assert CommaParts("", Code, 0, p) == [p];
        ParseCellsStep(p, []);
      } else {
        hide CommaParts, ParseCells, Cells;
        var more := Cells(row[1..]);
        CellsStep(row);
        GatherCell(v, ", " + more, lead);
        LeadBlank(more);
        CellsRoundTrip(row[1..], " ");
        ParseCellsStep(p, CommaParts(more, Code, 0, " "));
        assert row == [v] + row[1..];
      }
    }
  }

  lemma {:induction false} CellsCross(row: Row, rest: string)
    requires PrintableRow(row)
    ensures CloseIn(Cells(row) + (")" + rest), Code, 1) == Some(|Cells(row)|)
  {
    hide Print;
    var close := ")" + rest;
    assert CloseIn(close, Code, 1) == Some(0);
    if row == [] {
      assert Cells(row) + close == close;
    } else {
      hide CloseIn;
      if |row| == 1 {
        CrossCell(row[0], close, 1);
      } else {
        hide Cells;
        var more := Cells(row[1..]);
        CellsStep(row);
        assert Cells(row) + close == Print(row[0]) + (", " + (more + close));
        CrossCell(row[0], ", " + (more + close), 1);
        CrossPlainBlank(more + close);
        CellsCross(row[1..], rest);
      }
    }
  }

  lemma CrossPlainBlank(t: string)
    ensures CloseIn(", " + t, Code, 1) == Shift(2, CloseIn(t, Code, 1))
  {
    assert (", " + t)[1..] == " " + t && (" " + t)[1..] == t;
  }

  function PrintRow(row: Row): string {
    "(" + Cells(row) + ")"
  }

  function PrintRows(rows: seq<Row>): string
    requires rows != []
  {
    if |rows| == 1 then PrintRow(rows[0]) else PrintRow(rows[0]) + ", " + PrintRows(rows[1..])
  }

  function Finish(out: seq<Row>): Option<seq<Row>> {
    if out == [] then None else Some(out)
  }

  /** The rows of `t`, after those in `out`. */
  function Tuples(t: string, out: seq<Row>): Option<seq<Row>>
    decreases |t|
  {
    if t == [] || t[0] == ';' then Finish(out)
    else if IsAsciiSpace(t[0]) || t[0] == ',' then Tuples(t[1..], out)
    else if t[0] != '(' then Finish(out)
    else match ClosingParen(t)
      case None => None
      case Some(c) => Tuples(t[c + 1..], out + [ParseCells(CommaParts(t[1..c], Code, 0, []))])
  }

  method ParseRow(parts: seq<string>) returns (row: Row)
    ensures row == ParseCells(parts)
  {
    row := [];
    assert parts[0..] == parts;
    for k := 0 to |parts|
      invariant row + ParseCells(parts[k..]) == ParseCells(parts)
    {
      assert parts[k..][1..] == parts[k + 1..];
      row := row + [ParseValueLiteral(Trim(parts[k]))];
    }
  }

  method ParseValuesTuples(s: string) returns (r: Option<seq<Row>>)
    ensures r == Tuples(s, [])
  {
    hide CommaParts, ParseCells, CloseIn, ClosingParen;
    var out: seq<Row> := [];
    var i := 0;
    assert s[0..] == s;
    while i < |s|
      invariant 0 <= i <= |s| && Tuples(s, []) == Tuples(s[i..], out)
    {
      while i < |s| && IsAsciiSpace(s[i])
        invariant 0 <= i <= |s| && Tuples(s, []) == Tuples(s[i..], out)
      {
        assert s[i..][1..] == s[i + 1..];
        i := i + 1;
      }
      if i >= |s| { break; }
      var t := s[i..];
      if s[i] == ',' {
        assert t[1..] == s[i + 1..];
        i := i + 1;
        continue;
      }
      if s[i] == ';' { break; }
      if s[i] != '(' { return Finish(out); }
      var close := BalancedClose(t);
      if close.None? { return None; }
      var parts := SplitTopLevelCommas(t[1..close.value]);
      var row := ParseRow(parts);
      assert t[close.value + 1..] == s[i + close.value + 1..];
      out := out + [row];
      i := i + close.value + 1;
    }
    return Finish(out);
  }

  lemma ParenOpens(t: string)
    requires t != [] && t[0] == '('
    ensures ClosingParen(t) == Shift(1, CloseIn(t[1..], Code, 1))
  {}

  lemma OneTuple(row: Row, rest: string, out: seq<Row>)
    requires PrintableRow(row)
    ensures Tuples(PrintRow(row) + rest, out) == Tuples(rest, out + [row])
  {
    hide Cells, CommaParts, CloseIn, ClosingParen, ParseCells;
    var t, c := PrintRow(row) + rest, |Cells(row)| + 1;
    assert t[0] == '(' && t[1..] == Cells(row) + (")" + rest);
    CellsCross(row, rest);
    ParenOpens(t);
    assert t[1..c] == Cells(row) && t[c + 1..] == rest;
    CellsRoundTrip(row, "");
  }

  lemma SkipSeparator(t: string, out: seq<Row>)
    ensures Tuples(", " + t, out) == Tuples(t, out)
  {
    assert (", " + t)[1..] == " " + t && (" " + t)[1..] == t;
  }

  /** Printing any rows of NULLs, 64-bit integers, blobs and apostrophe-free strings as VALUES
      tuples and parsing them gives the rows back, whatever commas, parentheses, brackets or
      double quotes the strings hold. */
  lemma {:induction false} RowsRoundTrip(rows: seq<Row>, out: seq<Row>)
    requires rows != [] && forall k :: 0 <= k < |rows| ==> PrintableRow(rows[k])
    ensures Tuples(PrintRows(rows), out) == Some(out + rows)
  {
    hide PrintRow;
    if |rows| == 1 {
      OneTuple(rows[0], "", out);
      assert PrintRow(rows[0]) + "" == PrintRow(rows[0]) && out + [rows[0]] == out + rows;
    } else {
      hide Tuples;
      var more := PrintRows(rows[1..]);
      assert PrintRows(rows) == PrintRow(rows[0]) + (", " + more);
      OneTuple(rows[0], ", " + more, out);
      SkipSeparator(more, out + [rows[0]]);
      RowsRoundTrip(rows[1..], out + [rows[0]]);
      assert out + [rows[0]] + rows[1..] == out + rows;
    }
  }
}
