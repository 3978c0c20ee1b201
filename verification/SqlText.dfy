/** Quoted literals and comma lists, as the SQL text walkers share them
    (crates/ducklink-host/src/at5_intercept.rs:402-408, 452-500). */
module SqlText {
  import opened Wrappers
  import opened Chars

  // ---------------------------------------------------------------------------
  // Quoted literals
  // ---------------------------------------------------------------------------

  function Doubled(s: string): string {
    if s == [] then [] else (if s[0] == '\'' then "''" else [s[0]]) + Doubled(s[1..])
  }

  function Quote(s: string): string {
    "'" + Doubled(s) + "'"
  }

  /** `replace("''", "'")`. */
  function Undoubled(s: string): string {
    if |s| >= 2 && s[0] == '\'' && s[1] == '\'' then "'" + Undoubled(s[2..])
    else if s == [] then []
    else [s[0]] + Undoubled(s[1..])
  }

  lemma {:induction false} UndoubleDoubled(s: string)
    ensures Undoubled(Doubled(s)) == s
  {
    if s != [] {
      UndoubleDoubled(s[1..]);
      var d := Doubled(s);
      if s[0] == '\'' {
        assert d[2..] == Doubled(s[1..]);
      } else {
        assert d[1..] == Doubled(s[1..]);
      }
    }
  }

  lemma {:induction false} NothingToDouble(s: string)
    requires '\'' !in s
    ensures Doubled(s) == s
  {
    if s != [] {
      assert s[0] in s && forall c :: c in s[1..] ==> c in s;
      NothingToDouble(s[1..]);
    }
  }

  /** `strip_quotes`. */
  function StripQuotes(v: string): Option<string> {
    if |v| >= 2 && v[0] == '\'' && v[|v| - 1] == '\'' then Some(Undoubled(v[1..|v| - 1])) else None
  }

  lemma StripQuote(s: string)
    ensures StripQuotes(Quote(s)) == Some(s)
  {
    UndoubleDoubled(s);
    assert Quote(s)[1..|Quote(s)| - 1] == Doubled(s);
  }

  // ---------------------------------------------------------------------------
  // Comma lists
  // ---------------------------------------------------------------------------

  function CommaMode(m: Mode, c: char): Mode {
    match m
    case Single => if c == '\'' then Code else Single
    case Double => if c == '"' then Code else Double
    case Code => if c == '\'' then Single else if c == '"' then Double else Code
  }

  function CommaDepth(m: Mode, depth: int, c: char): int {
    if m != Code then depth
    else if c == '(' || c == '[' then depth + 1
    else if c == ')' || c == ']' then depth - 1
    else depth
  }

  /** The parts still to come when `buf` has been gathered and `s` is left. */
  function CommaParts(s: string, m: Mode, depth: int, buf: string): seq<string> {
    if s == [] then if Blank(buf) then [] else [buf]
    else if m == Code && s[0] == ',' && depth == 0 then [buf] + CommaParts(s[1..], m, depth, [])
    else CommaParts(s[1..], CommaMode(m, s[0]), CommaDepth(m, depth, s[0]), buf + [s[0]])
  }

  method SplitTopLevelCommas(s: string) returns (out: seq<string>)
    ensures out == CommaParts(s, Code, 0, [])
  {
    out := [];
    var buf, depth, inSingle, inDouble := [], 0, false, false;
    assert s[0..] == s;
    for i := 0 to |s|
      invariant !(inSingle && inDouble)
      invariant CommaParts(s, Code, 0, []) ==
        out + CommaParts(s[i..], if inSingle then Single else if inDouble then Double else Code, depth, buf)
    {
      var c := s[i];
      assert s[i..][1..] == s[i + 1..];
      if inSingle {
        buf := buf + [c];
        if c == '\'' { inSingle := false; }
        continue;
      }
      if inDouble {
        buf := buf + [c];
        if c == '"' { inDouble := false; }
        continue;
      }
      if c == '\'' {
        inSingle := true;
        buf := buf + [c];
      } else if c == '"' {
        inDouble := true;
        buf := buf + [c];
      } else if c == '(' || c == '[' {
        depth := depth + 1;
        buf := buf + [c];
      } else if c == ')' || c == ']' {
        depth := depth - 1;
        buf := buf + [c];
      } else if c == ',' && depth == 0 {
        out := out + [buf];
        buf := [];
      } else {
        buf := buf + [c];
      }
    }
    if !Blank(buf) { out := out + [buf]; }
  }

  /** Text without quotes, brackets or commas is gathered as it stands. */
  predicate Plain(w: string) {
    forall k | 0 <= k < |w| :: w[k] !in "'\"()[],"
  }

  lemma {:induction false} GatherPlain(w: string, rest: string, depth: int, buf: string)
    requires Plain(w)
    ensures CommaParts(w + rest, Code, depth, buf) == CommaParts(rest, Code, depth, buf + w)
  {
    if w == [] {
      assert w + rest == rest && buf + w == buf;
    } else {
      assert w[0] !in "'\"()[],";
      assert (w + rest)[1..] == w[1..] + rest && buf + [w[0]] + w[1..] == buf + w;
      GatherPlain(w[1..], rest, depth, buf + [w[0]]);
    }
  }

  /** The inside of a literal is gathered whatever it holds: a doubled quote leaves the
      literal and enters it again. */
  lemma {:induction false} GatherInside(s: string, rest: string, depth: int, buf: string)
    ensures CommaParts(Doubled(s) + rest, Single, depth, buf) == CommaParts(rest, Single, depth, buf + Doubled(s))
  {
    var d := Doubled(s);
    if s == [] {
      assert d + rest == rest && buf + d == buf;
    } else if s[0] == '\'' {
      var r := "'" + Doubled(s[1..]) + rest;
      assert (d + rest)[1..] == r && r[1..] == Doubled(s[1..]) + rest;
      assert buf + "'" + "'" + Doubled(s[1..]) == buf + d;
      GatherInside(s[1..], rest, depth, buf + "'" + "'");
    } else {
      assert (d + rest)[1..] == Doubled(s[1..]) + rest && buf + [s[0]] + Doubled(s[1..]) == buf + d;
      GatherInside(s[1..], rest, depth, buf + [s[0]]);
    }
  }

  lemma GatherLiteral(s: string, rest: string, depth: int, buf: string)
    ensures CommaParts(Quote(s) + rest, Code, depth, buf) == CommaParts(rest, Code, depth, buf + Quote(s))
  {
    var q, after := Quote(s) + rest, Doubled(s) + ("'" + rest);
    assert q[0] == '\'' && q[1..] == after;
    GatherInside(s, "'" + rest, depth, buf + "'");
    assert ("'" + rest)[1..] == rest && buf + "'" + Doubled(s) + "'" == buf + Quote(s);
  }

  lemma LeadBlank(t: string)
    ensures forall buf :: CommaParts(", " + t, Code, 0, buf) == [buf] + CommaParts(t, Code, 0, " ")
  {
    assert (", " + t)[1..] == " " + t && (" " + t)[1..] == t && [] + [' '] == " ";
  }

  // Text that is not padded is its own trim, and a blank before it is trimmed away.
  lemma TrimTight(lead: string, w: string)
    requires lead == "" || lead == " "
    requires w != [] && !IsSpace(w[0]) && !IsSpace(w[|w| - 1])
    ensures Trim(lead + w) == w && Trim(w) == w && !Blank(lead + w)
  {
    assert (lead + w)[|lead|] == w[0];
    assert TrimStart(w) == w && TrimEnd(w) == w;
    if lead == " " {
      assert (lead + w)[0] == ' ' && (lead + w)[1..] == w;
      assert TrimStart(lead + w) == TrimStart(w);
    } else {
      assert lead + w == w;
    }
  }
}
