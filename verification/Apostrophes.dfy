/** Strings with apostrophes in VALUES rows: when the parser's parenthesis tracker, which does not
    skip both halves of a doubled quote, still finds the ends of the rows
    (crates/ducklink-host/src/at5_intercept.rs:1189-1265). */
module Apostrophes {
  import opened Wrappers
  import opened Chars
  import opened Decimal
  import opened SqlText
  import opened HexText
  import opened Values

  lemma CloseStep(t: string, m: Mode, depth: int)
    ensures CloseIn(t, m, depth) ==
      if t == [] then None
      else if m == Code && t[0] == ')' && depth == 1 then Some(0)
      else Shift(1, CloseIn(t[1..], CloseMode(t, m), CloseDepth(t[0], m, depth)))
  {}

  /** Printed alone, the row is found to close at its last character. */
  predicate ClosesAtItsEnd(row: Row) {
    CloseIn(Cells(row) + ")", Code, 1) == Some(|Cells(row)|)
  }

  /** Where a row closes does not depend on the text behind it, as long as that is its end. */
  lemma {:induction false} CloseLocal(x: string, rest: string, m: Mode, depth: int)
    ensures CloseIn(x + (")" + rest), m, depth) == Some(|x|) <==> CloseIn(x + ")", m, depth) == Some(|x|)
  {
    hide CloseIn;
    var s, t := x + (")" + rest), x + ")";
    CloseStep(s, m, depth);
    CloseStep(t, m, depth);
    if x != [] {
      assert s[1..] == x[1..] + (")" + rest) && t[1..] == x[1..] + ")";
      assert |x| > 1 ==> s[1] == x[1] && t[1] == x[1];
      CloseLocal(x[1..], rest, CloseMode(s, m), CloseDepth(s[0], m, depth));
    }
  }

  lemma {:induction false} ClosesOnParen(t: string, m: Mode, depth: int)
    requires CloseIn(t, m, depth).Some?
    ensures t[CloseIn(t, m, depth).value] == ')'
  {
    if !(m == Code && t[0] == ')' && depth == 1) {
      ClosesOnParen(t[1..], CloseMode(t, m), CloseDepth(t[0], m, depth));
    }
  }

  // ---------------------------------------------------------------------------
  // A row cut too late is another row
  // ---------------------------------------------------------------------------

  lemma {:induction false} FirstPart(s: string, m: Mode, depth: int, buf: string)
    requires !Blank(buf)
    ensures CommaParts(s, m, depth, buf) != [] && buf <= CommaParts(s, m, depth, buf)[0]
  {
    if s != [] && !(m == Code && s[0] == ',' && depth == 0) {
      var k :| 0 <= k < |buf| && !IsSpace(buf[k]);
      assert (buf + [s[0]])[k] == buf[k];
      FirstPart(s[1..], CommaMode(m, s[0]), CommaDepth(m, depth, s[0]), buf + [s[0]]);
    }
  }

  lemma {:induction false} TrimEndPrefix(s: string)
    ensures TrimEnd(s) <= s && (TrimEnd(s) != [] ==> !IsSpace(TrimEnd(s)[|TrimEnd(s)| - 1]))
  {
    if s != [] && IsSpace(s[|s| - 1]) { TrimEndPrefix(s[..|s| - 1]); }
  }

  lemma {:induction false} TrimEndKeeps(a: string, y: string)
    requires a != [] && !IsSpace(a[|a| - 1])
    ensures a <= TrimEnd(a + y)
  {
    if y == [] {
      assert a + y == a;
    } else if IsSpace((a + y)[|a + y| - 1]) {
      assert (a + y)[..|a + y| - 1] == a + y[..|y| - 1];
      TrimEndKeeps(a, y[..|y| - 1]);
    }
  }

  /** Trimming a part twice, as the parser does, is trimming its end. */
  lemma TrimTwice(lead: string, w: string)
    requires (lead == "" || lead == " ") && w != [] && !IsSpace(w[0])
    ensures Trim(lead + w) == TrimEnd(w) && Trim(Trim(lead + w)) == TrimEnd(w)
  {
    TrimEndPrefix(w);
    TrimEndKeeps([w[0]], w[1..]);
    assert w == [w[0]] + w[1..];
    var t := TrimEnd(w);
    assert t[0] == w[0];
    TrimTight("", t);
    if lead == " " {
      assert (lead + w)[1..] == w;
    } else {
      assert lead + w == w;
    }
    assert TrimStart(lead + w) == w;
  }

  lemma DoubledStep(s: string, w: string)
    requires s != []
    ensures Doubled(s) + w == (if s[0] == '\'' then "''" else [s[0]]) + (Doubled(s[1..]) + w)
  {}

  lemma UndoubledStep(c: char, more: string)
    ensures Undoubled((if c == '\'' then "''" else [c]) + more) == [c] + Undoubled(more)
  {
    var t := (if c == '\'' then "''" else [c]) + more;
    if c == '\'' { assert t[2..] == more; } else { assert t[1..] == more; }
  }

  lemma {:induction false} UndoubleBehind(s: string, w: string)
    ensures Undoubled(Doubled(s) + w) == s + Undoubled(w)
  {
    hide Undoubled;
    if s == [] {
      assert Doubled(s) + w == w;
    } else {
      hide Doubled;
      DoubledStep(s, w);
      UndoubledStep(s[0], Doubled(s[1..]) + w);
      UndoubleBehind(s[1..], w);
      assert s == [s[0]] + s[1..];
    }
  }

  lemma {:induction false} HexOnly(s: string, k: nat)
    requires HexBytes(s).Some? && k < |s|
    ensures HexVal(s[k]).Some?
  {
    if k >= 2 { HexOnly(s[2..], k - 2); }
  }

  lemma SpoiltText(s: string, y: string)
    ensures Classify(Quote(s) + (")" + y)) != Text(s)
  {
    hide EqIgnoreCase, BlobLiteral, ParseI64;
    var z := Quote(s) + (")" + y);
    if z[|z| - 1] == '\'' {
      var w := "'" + (")" + y[..|y| - 1]);
      assert z[1..|z| - 1] == Doubled(s) + w;
      UndoubleBehind(s, w);
    }
  }

  lemma SpoiltBlob(b: Bytes, y: string)
    ensures Classify(Print(Blob(b)) + (")" + y)) != Blob(b)
  {
    hide Classify, Hex, HexBytes;
    var z := Print(Blob(b)) + (")" + y);
    if Classify(z).Blob? {
      BlobIsHex(z);
      HexHasNoQuote(b);
      var h := Hex(b);
      assert z == "X'" + (h + ("'" + (")" + y)));
      assert z[2..|z| - 1][|h|] == '\'';
      HexOnly(z[2..|z| - 1], |h|);
    }
  }

  lemma BlobIsHex(z: string)
    requires Classify(z).Blob?
    ensures |z| >= 3 && z[|z| - 1] == '\'' && HexBytes(z[2..|z| - 1]).Some?
  {
    hide EqIgnoreCase, StripQuotes, ParseI64, HexBytes;
  }

  lemma SpoiltInteger(n: int, y: string)
    ensures Classify(Signed(n) + (")" + y)) != Integer(n)
  {
    hide EqIgnoreCase, StripQuotes, BlobLiteral, Signed;
    SignedPlain(n);
    var z := Signed(n) + (")" + y);
    var k := |Signed(n)|;
    assert z[k] == ')';
    assert k > 0 && z[1..][k - 1] == ')';
  }

  lemma Spoilt(v: ValueLiteral, y: string)
    requires Readable(v)
    ensures Classify(Print(v) + (")" + y)) != v
  {
    match v {
      case Null => assert |Print(v) + (")" + y)| > 4;
      case Integer(n) => SpoiltInteger(n, y);
      case Text(s) => SpoiltText(s, y);
      case Blob(b) => SpoiltBlob(b, y);
    }
  }

  lemma TrimmedPart(lead: string, a: string, y: string) returns (kept: string)
    requires (lead == "" || lead == " ") && a != [] && !IsSpace(a[0]) && !IsSpace(a[|a| - 1])
    ensures Trim(lead + (a + y)) == Trim(Trim(lead + (a + y))) == a + kept
  {
    hide Trim, TrimEnd;
    assert (a + y)[0] == a[0];
    TrimTwice(lead, a + y);
    TrimEndKeeps(a, y);
    kept := TrimEnd(a + y)[|a|..];
  }

  lemma SpoiltCell(lead: string, v: ValueLiteral, part: string)
    requires Readable(v) && (lead == "" || lead == " ") && lead + Print(v) + ")" <= part
    ensures ParseValueLiteral(Trim(part)) != v
  {
    hide Print, Classify, Trim, Readable, IsSpace;
    PrintTight(v);
    var a := Print(v) + ")";
    var y := part[|lead| + |a|..];
    assert part == lead + (a + y);
    ParenIsNoSpace(Print(v));
    var kept := TrimmedPart(lead, a, y);
    assert a + kept == Print(v) + (")" + kept);
    Spoilt(v, kept);
  }

  lemma ParenIsNoSpace(p: string)
    requires p != [] && !IsSpace(p[0])
    ensures var a := p + ")"; a != [] && !IsSpace(a[0]) && !IsSpace(a[|a| - 1])
  {}

  lemma {:induction false} Longer(row: Row, lead: string, more: string)
    requires ReadableRow(row) && row != [] && (lead == "" || lead == " ")
    ensures ParseCells(CommaParts(Cells(row) + (")" + more), Code, 0, lead)) != row
  {
    hide Print, ParseValueLiteral, Trim, Blank, CommaParts, ParseCells, Cells;
    var v := row[0];
    if |row| == 1 {
      OneCell(row);
      GatherCell(v, ")" + more, lead);
      CutsLate(lead, v, more);
    } else {
      var tail := Cells(row[1..]);
      CellsStep(row);
      assert Cells(row) + (")" + more) == Print(v) + (", " + (tail + (")" + more)));
      GatherCell(v, ", " + (tail + (")" + more)), lead);
      LeadBlank(tail + (")" + more));
      Longer(row[1..], " ", more);
      ParseCellsStep(lead + Print(v), CommaParts(tail + (")" + more), Code, 0, " "));
    }
  }

  lemma OneCell(row: Row)
    requires |row| == 1
    ensures Cells(row) == Print(row[0])
  {}

  lemma CutsLate(lead: string, v: ValueLiteral, more: string)
    requires Readable(v) && (lead == "" || lead == " ")
    ensures var parts := CommaParts(")" + more, Code, 0, lead + Print(v));
            parts != [] && ParseCells(parts) != [v]
  {
    hide Print, ParseValueLiteral, Trim, ParseCells;
    var buf := lead + Print(v) + ")";
    assert (")" + more)[1..] == more;
    assert buf[|buf| - 1] == ')';
    FirstPart(more, Code, -1, buf);
    var parts := CommaParts(")" + more, Code, 0, lead + Print(v));
    assert parts == CommaParts(more, Code, -1, buf);
    SpoiltCell(lead, v, parts[0]);
    assert parts == [parts[0]] + parts[1..];
    ParseCellsStep(parts[0], parts[1..]);
    assert ParseCells(parts)[0] != v;
  }

  // ---------------------------------------------------------------------------
  // A row cut too early is another row
  // ---------------------------------------------------------------------------

  lemma {:induction false} CutDoubled(s: string, i: nat) returns (front: string)
    requires i < |Doubled(s)| && Doubled(s)[i] == ')'
    ensures |front| < |s| && Doubled(s)[..i] == Doubled(front)
  {
    var c, d := s[0], Doubled(s[1..]);
    if c == '\'' {
      assert Doubled(s) == "''" + d;
      var f := CutDoubled(s[1..], i - 2);
      front := [c] + f;
      assert front[1..] == f;
      assert Doubled(s)[..i] == "''" + d[..i - 2];
    } else if i == 0 {
      front := [];
    } else {
      assert Doubled(s) == [c] + d;
      var f := CutDoubled(s[1..], i - 1);
      front := [c] + f;
      assert front[1..] == f;
      assert Doubled(s)[..i] == [c] + d[..i - 1];
    }
  }

  lemma {:induction false} UndoubledPrefix(s: string, p: string)
    requires p <= Doubled(s)
    ensures |Undoubled(p)| <= |s|
  {
    if p != [] {
      var d := Doubled(s[1..]);
      if s[0] == '\'' {
        assert Doubled(s) == "''" + d;
        if |p| >= 2 {
          assert p[2..] <= d;
          UndoubledPrefix(s[1..], p[2..]);
        } else {
          assert p == "'" && p[1..] == [];
        }
      } else {
        assert Doubled(s) == [s[0]] + d && p[1..] <= d;
        UndoubledPrefix(s[1..], p[1..]);
      }
    }
  }

  lemma ShortText(lead: string, front: string, s: string)
    requires |front| < |s| && (lead == "" || lead == " ")
    ensures ParseValueLiteral(Trim(lead + ("'" + Doubled(front)))) != Text(s)
  {
    hide Trim, TrimEnd, EqIgnoreCase, BlobLiteral, ParseI64, Doubled;
    var w := "'" + Doubled(front);
    TrimTwice(lead, w);
    TrimEndPrefix(w);
    var z := TrimEnd(w);
    if StripQuotes(z).Some? {
      var inner := z[1..|z| - 1];
      assert inner <= Doubled(front);
      UndoubledPrefix(front, inner);
    }
  }

  /** Only a text holds a parenthesis. */
  lemma OnlyTextCloses(v: ValueLiteral, i: nat)
    requires Readable(v) && i < |Print(v)| && Print(v)[i] == ')'
    ensures v.Text? && 0 < i && i - 1 < |Doubled(v.s)| && Doubled(v.s)[i - 1] == ')'
  {
    match v {
      case Null =>
      case Integer(n) => SignedPlain(n);
      case Text(s) =>
      case Blob(b) => BlobHasNoParen(b);
    }
  }

  lemma BlobHasNoParen(b: Bytes)
    ensures forall i :: 0 <= i < |Print(Blob(b))| ==> Print(Blob(b))[i] != ')'
  {
    HexHasNoQuote(b);
    HexIsPlain(b);
    assert Print(Blob(b)) == "X'" + Hex(b) + "'";
    assert forall k :: 0 <= k < |Hex(b)| ==> Hex(b)[k] !in "'\"()[],";
  }

  lemma CutsEarly(lead: string, v: ValueLiteral, i: nat) returns (x: ValueLiteral)
    requires Readable(v) && i < |Print(v)| && Print(v)[i] == ')' && (lead == "" || lead == " ")
    ensures ParseCells(CommaParts(Print(v)[..i], Code, 0, lead)) == [x] && x != v
  {
    hide Trim, ParseValueLiteral, Doubled, Readable;
    OnlyTextCloses(v, i);
    var front := CutDoubled(v.s, i - 1);
    var w := "'" + Doubled(front);
    assert Print(v)[..i] == w;
    assert w[1..] == Doubled(front) + "" && "" == "";
    GatherInside(front, "", 0, lead + "'");
    var p := lead + "'" + Doubled(front);
    assert p == lead + w && p[|lead|] == '\'';
    assert CommaParts(w, Code, 0, lead) == CommaParts(w[1..], Single, 0, lead + "'");
    assert CommaParts(w, Code, 0, lead) == [p];
    x := ParseValueLiteral(Trim(p));
    assert [p] == [p] + [];
    ParseCellsStep(p, []);
    ShortText(lead, front, v.s);
  }

  lemma {:induction false} Shorter(row: Row, lead: string, i: nat)
    requires ReadableRow(row) && (lead == "" || lead == " ") && i < |Cells(row)| && Cells(row)[i] == ')'
    ensures ParseCells(CommaParts(Cells(row)[..i], Code, 0, lead)) != row
  {
    hide Print, ParseValueLiteral, Trim, Blank, CommaParts, ParseCells, Cells;
    NoCells();
    var v := row[0];
    var n := |Print(v)|;
    if |row| == 1 { OneCell(row); } else { CellsStep(row); }
    if i < n {
      assert Cells(row)[..i] == Print(v)[..i] && Cells(row)[i] == Print(v)[i];
      var x := CutsEarly(lead, v, i);
    } else {
      var tail := Cells(row[1..]);
      assert Cells(row)[n] == ',' && Cells(row)[n + 1] == ' ';
      var j := i - n - 2;
      assert Cells(row)[i] == tail[j];
      assert Cells(row)[..i] == Print(v) + (", " + tail[..j]);
      GatherCell(v, ", " + tail[..j], lead);
      LeadBlank(tail[..j]);
      Shorter(row[1..], " ", j);
      ParseCellsStep(lead + Print(v), CommaParts(tail[..j], Code, 0, " "));
    }
  }

  lemma NoCells()
    ensures Cells([]) == ""
  {}

  // ---------------------------------------------------------------------------
  // Rows
  // ---------------------------------------------------------------------------

  lemma ReadsTuple(row: Row, rest: string, out: seq<Row>)
    requires ReadableRow(row) && ClosesAtItsEnd(row)
    ensures Tuples(PrintRow(row) + rest, out) == Tuples(rest, out + [row])
  {
    hide Cells, CommaParts, CloseIn, ClosingParen, ParseCells;
    var t, c := PrintRow(row) + rest, |Cells(row)| + 1;
    assert t[0] == '(' && t[1..] == Cells(row) + (")" + rest);
    CloseLocal(Cells(row), rest, Code, 1);
    ParenOpens(t);
    assert t[1..c] == Cells(row) && t[c + 1..] == rest;
    CellsRoundTrip(row, "");
  }

  /** Cut anywhere else, the parts give another row. */
  lemma Miscut(row: Row, rest: string, c: nat)
    requires ReadableRow(row) && !ClosesAtItsEnd(row) && CloseIn(Cells(row) + (")" + rest), Code, 1) == Some(c)
    ensures ParseCells(CommaParts((Cells(row) + (")" + rest))[..c], Code, 0, [])) != row
  {
    hide CommaParts, CloseIn, ParseCells, Cells;
    var x := Cells(row);
    var t := x + (")" + rest);
    CloseLocal(x, rest, Code, 1);
    ClosesOnParen(t, Code, 1);
    if c < |x| {
      assert t[..c] == x[..c] && t[c] == x[c];
      Shorter(row, "", c);
    } else {
      var more := t[|x| + 1..c];
      assert t[|x|] == ')';
      assert t[..c] == x + (")" + more);
      if row == [] { EmptyRowCloses(); }
      Longer(row, "", more);
    }
  }

  lemma EmptyRowCloses()
    ensures ClosesAtItsEnd([])
  {
    assert Cells([]) + ")" == ")";
  }

  lemma {:induction false} TuplesExtend(t: string, out: seq<Row>)
    ensures Tuples(t, out).Some? ==> out <= Tuples(t, out).value
    decreases |t|
  {
    hide CommaParts, ParseCells, ClosingParen;
    if t != [] && t[0] != ';' {
      if IsAsciiSpace(t[0]) || t[0] == ',' {
        TuplesExtend(t[1..], out);
      } else if t[0] == '(' && ClosingParen(t).Some? {
        var c := ClosingParen(t).value;
        TuplesExtend(t[c + 1..], out + [ParseCells(CommaParts(t[1..c], Code, 0, []))]);
      }
    }
  }

  lemma MisreadsTuple(row: Row, rest: string, out: seq<Row>, tail: seq<Row>)
    requires ReadableRow(row) && !ClosesAtItsEnd(row)
    ensures Tuples(PrintRow(row) + rest, out) != Some(out + ([row] + tail))
  {
    hide Cells, CommaParts, CloseIn, ClosingParen, ParseCells, ClosesAtItsEnd;
    var t := PrintRow(row) + rest;
    assert t[0] == '(' && t[1..] == Cells(row) + (")" + rest);
    ParenOpens(t);
    if ClosingParen(t).Some? {
      var c := ClosingParen(t).value;
      assert t[1..c] == t[1..][..c - 1];
      Miscut(row, rest, c - 1);
      var other := ParseCells(CommaParts(t[1..c], Code, 0, []));
      TuplesExtend(t[c + 1..], out + [other]);
      assert (out + [other])[|out|] == other && (out + ([row] + tail))[|out|] == row;
    }
  }

  lemma {:induction false} RowsReadFrom(rows: seq<Row>, out: seq<Row>)
    requires rows != [] && forall k :: 0 <= k < |rows| ==> ReadableRow(rows[k])
    ensures Tuples(PrintRows(rows), out) == Some(out + rows) <==>
      forall k :: 0 <= k < |rows| ==> ClosesAtItsEnd(rows[k])
  {
    hide PrintRow, PrintRows, Tuples, ClosesAtItsEnd, ReadableRow;
    var row := rows[0];
    var more := if |rows| == 1 then "" else ", " + PrintRows(rows[1..]);
    PrintRowsStep(rows);
    assert rows == [row] + rows[1..];
    if ClosesAtItsEnd(row) {
      ReadsTuple(row, more, out);
      if |rows| == 1 {
        NoMoreRows(out + [row]);
        assert out + [row] == out + rows;
      } else {
        SkipSeparator(PrintRows(rows[1..]), out + [row]);
        RowsReadFrom(rows[1..], out + [row]);
        assert out + [row] + rows[1..] == out + rows;
        assert forall k | 0 < k < |rows| :: rows[k] == rows[1..][k - 1];
      }
    } else {
      MisreadsTuple(row, more, out, rows[1..]);
    }
  }

  lemma PrintRowsStep(rows: seq<Row>)
    requires rows != []
    ensures PrintRows(rows) == PrintRow(rows[0]) + if |rows| == 1 then "" else ", " + PrintRows(rows[1..])
  {
    hide PrintRow;
    if |rows| > 1 { ConcatAssociates(PrintRow(rows[0]), ", ", PrintRows(rows[1..])); }
  }

  lemma NoMoreRows(out: seq<Row>)
    requires out != []
    ensures Tuples("", out) == Some(out)
  {}

  /** Rows of any strings, 64-bit integers, blobs and NULLs are read back exactly when each row,
      printed alone, is found to close at its end. */
  lemma RowsReadExactlyWhen(rows: seq<Row>)
    requires rows != [] && forall k :: 0 <= k < |rows| ==> ReadableRow(rows[k])
    ensures Tuples(PrintRows(rows), []) == Some(rows) <==> forall k :: 0 <= k < |rows| ==> ClosesAtItsEnd(rows[k])
  {
    RowsReadFrom(rows, []);
    assert [] + rows == rows;
  }

  // ---------------------------------------------------------------------------
  // Where the tracker stands behind a cell
  // ---------------------------------------------------------------------------

  /** A string without the other characters the tracker looks at. */
  predicate NoSyntax(s: string) {
    forall k | 0 <= k < |s| :: s[k] !in "()\""
  }

  predicate EndsQuoted(s: string) {
    s != [] && s[|s| - 1] == '\''
  }

  /** In code or in a literal, behind a printed cell it met in mode `m`: an apostrophe that is not
      the last character leaves it in a literal, one that is, or an empty literal, in code, and
      anything else where it was. */
  function CellMode(v: ValueLiteral, m: Mode): Mode {
    match v
    case Text(s) => if s == "" || EndsQuoted(s) then Code else if '\'' in s then Single else m
    case Blob(b) => if b == [] then Code else m
    case _ => m
  }

  function RowMode(row: Row, m: Mode): Mode {
    if row == [] then m else RowMode(row[1..], CellMode(row[0], m))
  }

  /** The tracker is in step again at the end of the row. */
  predicate InStep(row: Row) {
    RowMode(row, Code) == Code
  }

  predicate NoSyntaxRow(row: Row) {
    forall k | 0 <= k < |row| && row[k].Text? :: NoSyntax(row[k].s)
  }

  function InsideMode(u: string, m: Mode): Mode {
    if EndsQuoted(u) then Code else if '\'' in u || m == Code then Single else Code
  }

  lemma TrackPair(more: string, m: Mode, depth: int)
    requires (m == Single || m == Code) && more != []
    ensures CloseIn("''" + more, m, depth) == Shift(2, CloseIn(more, if more[0] == '\'' then Single else Code, depth))
  {
    hide CloseIn;
    assert ("''" + more)[1..] == "'" + more && ("'" + more)[1..] == more;
    CloseStep("''" + more, m, depth);
    CloseStep("'" + more, Single, depth);
  }

  lemma TrackQuote(rest: string, m: Mode, depth: int)
    requires (m == Single || m == Code) && rest != [] && rest[0] != '\''
    ensures CloseIn("'" + rest, m, depth) == Shift(1, CloseIn(rest, if m == Code then Single else Code, depth))
  {
    hide CloseIn;
    assert ("'" + rest)[1..] == rest;
    CloseStep("'" + rest, m, depth);
  }

  lemma TrackChar(c: char, more: string, m: Mode, depth: int)
    requires (m == Single || m == Code) && c !in "'()\""
    ensures CloseIn([c] + more, m, depth) == Shift(1, CloseIn(more, m, depth))
  {
    hide CloseIn;
    assert ([c] + more)[1..] == more;
    CloseStep([c] + more, m, depth);
  }

  /** Behind the rest of a literal, closing quote included. */
  lemma {:induction false} TrackInside(u: string, rest: string, m: Mode, depth: int)
    requires (m == Single || m == Code) && NoSyntax(u) && rest != [] && rest[0] != '\''
    ensures CloseIn(Doubled(u) + ("'" + rest), m, depth) ==
      Shift(|Doubled(u)| + 1, CloseIn(rest, InsideMode(u, m), depth))
  {
    hide CloseIn;
    if u == [] {
      assert Doubled(u) + ("'" + rest) == "'" + rest;
      TrackQuote(rest, m, depth);
    } else {
      hide Doubled, NoSyntax, EndsQuoted;
      var more := Doubled(u[1..]) + ("'" + rest);
      DoubledStep(u, "'" + rest);
      DoubledLength(u);
      TailFacts(u);
      MoreStarts(u[1..], rest);
      if u[0] == '\'' {
        TrackPair(more, m, depth);
        TrackInside(u[1..], rest, if more[0] == '\'' then Single else Code, depth);
        QuotedTail(u[1..]);
      } else {
        NoSyntaxHead(u);
        TrackChar(u[0], more, m, depth);
        TrackInside(u[1..], rest, m, depth);
        QuotedTail(u[1..]);
      }
    }
  }

  lemma QuotedTail(u: string)
    ensures (EndsQuoted(u) ==> '\'' in u) && (u == [] ==> !EndsQuoted(u)) && (u != [] && u[0] == '\'' ==> '\'' in u)
  {}

  lemma NoSyntaxHead(u: string)
    requires u != [] && NoSyntax(u)
    ensures u[0] !in "()\""
  {}

  lemma DoubledLength(u: string)
    requires u != []
    ensures |Doubled(u)| == |Doubled(u[1..])| + if u[0] == '\'' then 2 else 1
  {}

  lemma MoreStarts(u: string, rest: string)
    ensures var more := Doubled(u) + ("'" + rest); more[0] == '\'' <==> u == [] || u[0] == '\''
  {}

  lemma TailFacts(u: string)
    requires u != []
    ensures '\'' in u <==> u[0] == '\'' || '\'' in u[1..]
    ensures EndsQuoted(u) <==> if |u| == 1 then u[0] == '\'' else EndsQuoted(u[1..])
    ensures NoSyntax(u) ==> NoSyntax(u[1..])
  {
    assert u == [u[0]] + u[1..];
  }

  lemma TrackQuoted(s: string, rest: string, m: Mode, depth: int)
    requires (m == Single || m == Code) && NoSyntax(s) && rest != [] && rest[0] != '\''
    ensures CloseIn(Quote(s) + rest, m, depth) == Shift(|Quote(s)|, CloseIn(rest, CellMode(Text(s), m), depth))
  {
    hide CloseIn;
    var t, inside := Quote(s) + rest, Doubled(s) + ("'" + rest);
    assert t[0] == '\'' && t[1..] == inside;
    CloseStep(t, m, depth);
    MoreStarts(s, rest);
    if s != [] { TailFacts(s); }
    TrackInside(s, rest, CloseMode(t, m), depth);
  }

  /** Text without anything the tracker looks at is crossed in any mode. */
  lemma {:induction false} TrackPlain(w: string, rest: string, m: Mode, depth: int)
    requires (m == Single || m == Code) && Plain(w)
    ensures CloseIn(w + rest, m, depth) == Shift(|w|, CloseIn(rest, m, depth))
  {
    hide CloseIn;
    if w == [] {
      assert w + rest == rest;
    } else {
      CloseStep(w + rest, m, depth);
      assert w[0] !in "'\"()[],";
      assert (w + rest)[1..] == w[1..] + rest;
      TrackPlain(w[1..], rest, m, depth);
    }
  }

  lemma TrackCell(v: ValueLiteral, rest: string, m: Mode, depth: int)
    requires (m == Single || m == Code) && Readable(v) && (v.Text? ==> NoSyntax(v.s)) && rest != [] && rest[0] != '\''
    ensures CloseIn(Print(v) + rest, m, depth) == Shift(|Print(v)|, CloseIn(rest, CellMode(v, m), depth))
  {
    hide CloseIn, Doubled, NoSyntax;
    match v {
      case Null => TrackPlain("NULL", rest, m, depth);
      case Integer(n) => SignedPlain(n); TrackPlain(Signed(n), rest, m, depth);
      case Text(s) => TrackQuoted(s, rest, m, depth);
      case Blob(b) => TrackBlob(b, rest, m, depth);
    }
  }

  lemma TrackBlob(b: Bytes, rest: string, m: Mode, depth: int)
    requires (m == Single || m == Code) && rest != [] && rest[0] != '\''
    ensures CloseIn(Print(Blob(b)) + rest, m, depth) ==
      Shift(|Print(Blob(b))|, CloseIn(rest, CellMode(Blob(b), m), depth))
  {
    hide CloseIn, Doubled, Hex, NoSyntax, EndsQuoted;
    var q := Quote(Hex(b));
    HexTracks(b);
    HexHasNoQuote(b);
    assert Print(Blob(b)) + rest == "X" + (q + rest);
    TrackPlain("X", q + rest, m, depth);
    TrackQuoted(Hex(b), rest, m, depth);
  }

  lemma HexTracks(b: Bytes)
    ensures NoSyntax(Hex(b)) && '\'' !in Hex(b) && !EndsQuoted(Hex(b)) && (Hex(b) == "" <==> b == [])
  {
    hide Hex;
    HexIsPlain(b);
    HexHasNoQuote(b);
    forall k | 0 <= k < |Hex(b)| ensures Hex(b)[k] !in "()\"" { assert Hex(b)[k] !in "'\"()[],"; }
  }

  lemma TrackSeparator(t: string, m: Mode, depth: int)
    requires m == Single || m == Code
    ensures CloseIn(", " + t, m, depth) == Shift(2, CloseIn(t, m, depth))
  {
    assert (", " + t)[1..] == " " + t && (" " + t)[1..] == t;
  }

  lemma {:induction false} TrackCells(row: Row, rest: string, m: Mode)
    requires (m == Single || m == Code) && ReadableRow(row) && NoSyntaxRow(row)
    ensures CloseIn(Cells(row) + (")" + rest), m, 1) == Shift(|Cells(row)|, CloseIn(")" + rest, RowMode(row, m), 1))
  {
    hide CloseIn, Print, Cells, CellMode, NoSyntax, Readable;
    var close := ")" + rest;
    if row == [] {
      NoCells();
      assert Cells(row) + close == close;
    } else {
      var n := CellMode(row[0], m);
      CellModes(row[0], m);
      if |row| == 1 {
        OneCell(row);
        TrackCell(row[0], close, m, 1);
        assert row[1..] == [];
      } else {
        var more := Cells(row[1..]);
        CellsStep(row);
        assert Cells(row) + close == Print(row[0]) + (", " + (more + close));
        TrackCell(row[0], ", " + (more + close), m, 1);
        TrackSeparator(more + close, n, 1);
        TrackCells(row[1..], rest, n);
      }
    }
  }

  lemma CellModes(v: ValueLiteral, m: Mode)
    requires m == Single || m == Code
    ensures CellMode(v, m) == Single || CellMode(v, m) == Code
  {}

  /** Without other syntax in its strings, a row closes at its end exactly when it is in step. */
  lemma ClosesExactlyWhenInStep(row: Row)
    requires ReadableRow(row) && NoSyntaxRow(row)
    ensures ClosesAtItsEnd(row) <==> InStep(row)
  {
    hide CloseIn, Cells;
    TrackCells(row, "", Code);
    assert ")" + "" == ")" && Cells(row) + (")" + "") == Cells(row) + ")";
    CloseStep(")", RowMode(row, Code), 1);
  }

  /** Rows of 64-bit integers, blobs, NULLs and strings without parentheses and double quotes,
      apostrophes or not, are read back exactly when each row is in step. */
  lemma ApostropheCondition(rows: seq<Row>)
    requires rows != [] && forall k :: 0 <= k < |rows| ==> ReadableRow(rows[k]) && NoSyntaxRow(rows[k])
    ensures Tuples(PrintRows(rows), []) == Some(rows) <==> forall k :: 0 <= k < |rows| ==> InStep(rows[k])
  {
    hide Tuples, PrintRows, ClosesAtItsEnd, InStep, ReadableRow, NoSyntaxRow;
    RowsReadExactlyWhen(rows);
    forall k | 0 <= k < |rows| ensures ClosesAtItsEnd(rows[k]) <==> InStep(rows[k]) {
      ClosesExactlyWhenInStep(rows[k]);
    }
  }

  // ---------------------------------------------------------------------------
  // What happens otherwise
  // ---------------------------------------------------------------------------

  /** One string alone, out of step, is not recognised at all. */
  lemma LoneStringRefused(s: string)
    requires NoSyntax(s) && '\'' in s && !EndsQuoted(s)
    ensures Tuples(PrintRow([Text(s)]), []) == None
  {
    hide CloseIn, Cells, ClosingParen;
    var row := [Text(s)];
    var t := PrintRow(row);
    TrackCells(row, "", Code);
    assert row[1..] == [] && RowMode(row, Code) == RowMode([], Single) == Single;
    assert t[0] == '(' && t[1..] == Cells(row) + (")" + "") && ")" + "" == ")" && ")"[1..] == [];
    CloseStep(")", Single, 1);
    CloseStep("", Single, 1);
    ParenOpens(t);
  }

  /** But two rows can run together into one of a single string that nobody wrote. */
  lemma TwoRowsBecomeOne(u: string, w: string)
    requires NoSyntax(u) && '\'' in u && !EndsQuoted(u)
    requires NoSyntax(w) && EndsQuoted(w) && w[0] != '\''
    ensures Tuples(PrintRows([[Text(u)], [Text(w)]]), []) == Some([[Text(u + "'), ('" + w)]])
  {
    hide *;
    var inside := Quote(u) + ("), (" + Quote(w));
    MergedPrint(u, w);
    SwallowsGap(u, w);
    EndsNotEmpty(w);
    OneMergedPart(u, w);
    OneTupleOf(inside, [Text(u + "'), ('" + w)]);
  }

  lemma EndsNotEmpty(w: string)
    requires EndsQuoted(w)
    ensures w != []
  {}

  lemma MergedPrint(u: string, w: string)
    ensures PrintRows([[Text(u)], [Text(w)]]) == "(" + (Quote(u) + ("), (" + Quote(w)) + ")")
  {
    hide Cells, PrintRows, Doubled;
    var q, r := Quote(u), Quote(w);
    OneCell([Text(u)]);
    OneCell([Text(w)]);
    assert [[Text(u)], [Text(w)]][1..] == [[Text(w)]];
    PrintRowsStep([[Text(u)], [Text(w)]]);
    PrintRowsStep([[Text(w)]]);
    assert PrintRow([Text(u)]) == "(" + q + ")" && PrintRow([Text(w)]) == "(" + r + ")";
  }

  lemma OneTupleOf(inside: string, row: Row)
    requires CloseIn(inside + ")", Code, 1) == Some(|inside|) && ParseCells(CommaParts(inside, Code, 0, [])) == row
    ensures Tuples("(" + (inside + ")"), []) == Some([row])
  {
    hide CloseIn, ClosingParen, CommaParts, ParseCells, Tuples;
    var t, c := "(" + (inside + ")"), |inside| + 1;
    assert t[0] == '(' && t[1..] == inside + ")" && t[1..c] == inside && t[c + 1..] == [];
    ParenOpens(t);
    TupleStep(t, c, []);
    NoMoreRows([] + [row]);
    assert [] + [row] == [row];
  }

  lemma TupleStep(t: string, c: nat, out: seq<Row>)
    requires t != [] && t[0] == '(' && ClosingParen(t) == Some(c)
    ensures 0 < c < |t| && Tuples(t, out) == Tuples(t[c + 1..], out + [ParseCells(CommaParts(t[1..c], Code, 0, []))])
  {
    hide ClosingParen, CommaParts, ParseCells;
  }

  lemma SwallowsGap(u: string, w: string)
    requires NoSyntax(u) && '\'' in u && !EndsQuoted(u) && NoSyntax(w) && EndsQuoted(w)
    ensures CloseIn(Quote(u) + ("), (" + Quote(w)) + ")", Code, 1) == Some(|Quote(u) + ("), (" + Quote(w))|)
  {
    hide CloseIn, Doubled;
    var r := Quote(w) + ")";
    var gap := "), (" + r;
    assert Quote(u) + ("), (" + Quote(w)) + ")" == Quote(u) + gap;
    TrackQuoted(u, gap, Code, 1);
    CloseStep(gap, Single, 1);
    assert gap[1..] == ", (" + r && (", (" + r)[1..] == " (" + r && (" (" + r)[1..] == "(" + r && ("(" + r)[1..] == r;
    CloseStep(", (" + r, Single, 1);
    CloseStep(" (" + r, Single, 1);
    CloseStep("(" + r, Single, 1);
    TrackQuoted(w, ")", Single, 1);
    CloseStep(")", Code, 1);
  }

  lemma OneMergedPart(u: string, w: string)
    requires w != [] && w[0] != '\''
    ensures ParseCells(CommaParts(Quote(u) + ("), (" + Quote(w)), Code, 0, [])) == [Text(u + "'), ('" + w)]
  {
    hide CommaParts, ParseCells, Doubled, Classify, Trim;
    var q, r := Quote(u), Quote(w);
    var p := q + ("), (" + r);
    GatherLiteral(u, "), (" + r, 0, "");
    assert "" + q == q;
    GatherGap(r, q);
    GatherLiteral(w, "", 0, q + "), (");
    assert r + "" == r && q + "), (" + r == p;
    assert p[0] == '\'';
    PartsEnd(p);
    TrimTight("", p);
    assert "" + p == p;
    MergedText(u, w);
    assert [p] == [p] + [];
    ParseCellsStep(p, []);
    NoParts();
  }

  lemma NoParts()
    ensures ParseCells([]) == []
  {}

  lemma PartsEnd(buf: string)
    requires buf != [] && buf[0] == '\''
    ensures CommaParts("", Code, 0, buf) == [buf]
  {}

  lemma GatherGap(r: string, buf: string)
    ensures CommaParts("), (" + r, Code, 0, buf) == CommaParts(r, Code, 0, buf + "), (")
  {
    hide CommaParts;
    assert ("), (" + r)[1..] == ", (" + r && (", (" + r)[1..] == " (" + r && (" (" + r)[1..] == "(" + r
      && ("(" + r)[1..] == r;
    GatherOne("), (" + r, 0, buf);
    GatherOne(", (" + r, -1, buf + ")");
    GatherOne(" (" + r, -1, buf + ")" + ",");
    GatherOne("(" + r, -1, buf + ")" + "," + " ");
    assert buf + ")" + "," + " " + "(" == buf + "), (";
  }

  lemma GatherOne(t: string, depth: int, buf: string)
    requires t != [] && t[0] in "(), " && !(t[0] == ',' && depth == 0)
    ensures CommaParts(t, Code, depth, buf) == CommaParts(t[1..], Code, CommaDepth(Code, depth, t[0]), buf + [t[0]])
  {}

  lemma MergedText(u: string, w: string)
    requires w != [] && w[0] != '\''
    ensures Classify(Quote(u) + ("), (" + Quote(w))) == Text(u + "'), ('" + w)
  {
    hide EqIgnoreCase, Doubled, Undoubled;
    var p := Quote(u) + ("), (" + Quote(w));
    var tail := "'), ('" + Doubled(w);
    assert p[1..|p| - 1] == Doubled(u) + tail;
    UndoubleBehind(u, tail);
    TailUndoubled(w);
    assert u + ("'), ('" + w) == u + "'), ('" + w;
    NotNull(p);
  }

  lemma TailUndoubled(w: string)
    requires w != [] && w[0] != '\''
    ensures Undoubled("'), ('" + Doubled(w)) == "'), ('" + w
  {
    hide Doubled, Undoubled;
    var d := Doubled(w);
    DoubledStarts(w);
    UndoubleDoubled(w);
    Undoubles('\'', d);
    Undoubles('(', "'" + d);
    Undoubles(' ', "('" + d);
    Undoubles(',', " ('" + d);
    Undoubles(')', ", ('" + d);
    Undoubles('\'', "), ('" + d);
    assert "'), ('" + d == ['\''] + ("), ('" + d) && "), ('" + d == [')'] + (", ('" + d)
      && ", ('" + d == [','] + (" ('" + d);
    assert " ('" + d == [' '] + ("('" + d) && "('" + d == ['('] + ("'" + d) && "'" + d == ['\''] + d;
  }

  lemma Undoubles(c: char, more: string)
    requires !(c == '\'' && more != [] && more[0] == '\'')
    ensures Undoubled([c] + more) == [c] + Undoubled(more)
  {
    assert ([c] + more)[1..] == more;
  }

  lemma DoubledStarts(w: string)
    requires w != [] && w[0] != '\''
    ensures Doubled(w) != [] && Doubled(w)[0] == w[0]
  {}
}
