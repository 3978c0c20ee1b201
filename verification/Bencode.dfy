/** Bencode values printed as JSON
    (fuzz/fuzz_targets/bencode_decode.rs:17-77). */
module Bencode {
  import opened Wrappers
  import opened Chars
  import opened Decimal
  import opened HexText
  import opened Sorting

  /** A decoded bencode value. The entries of a dictionary come in any order, as a hash map
      iterates over them; their keys are distinct. */
  datatype Ben = Int(n: int) | Str(b: Bytes) | List(items: seq<Ben>) | Dict(entries: seq<Entry>)

  datatype Entry = Entry(key: Bytes, val: Ben)

  /** `from_utf8`. */
  type Utf8 = Bytes -> Option<string>

  // ---------------------------------------------------------------------------
  // The text
  // ---------------------------------------------------------------------------

  /** A byte string as text: itself if it is UTF-8, its lower-case hex otherwise. */
  function Show(utf8: Utf8, b: Bytes): string {
    match utf8(b) case Some(s) => s case None => Hex(b)
  }

  /** Bytes that are no UTF-8 are shown in lower-case hex, from which they can be read back. */
  lemma ShownBytes(utf8: Utf8, b: Bytes)
    ensures utf8(b).Some? ==> Show(utf8, b) == utf8(b).value
    ensures utf8(b).None? ==>
      HexBytes(Show(utf8, b)) == Some(b) && forall c :: c in Show(utf8, b) ==> c in "0123456789abcdef"
  {
    if utf8(b).None? {
      HexRoundTrip(b);
      HexIsLower(b);
    }
  }

  lemma {:induction false} HexIsLower(b: Bytes)
    ensures forall c :: c in Hex(b) ==> c in "0123456789abcdef"
  {
    if b != [] {
      HexIsLower(b[1..]);
      HexDigitIsLower(b[0] / 16);
      HexDigitIsLower(b[0] % 16);
    }
  }

  lemma HexDigitIsLower(d: nat)
    requires d < 16
    ensures HexDigit(d) in "0123456789abcdef"
  {
    HexValIs(HexDigit(d), d);
    assert HexDigit(d) == "0123456789abcdef"[d];
  }

  function EscapeChar(c: char): string {
    if c == '"' then "\\\""
    else if c == '\\' then "\\\\"
    else if c == '\n' then "\\n"
    else if c == '\r' then "\\r"
    else if c == '\t' then "\\t"
    else if c == '\U{08}' then "\\b"
    else if c == '\U{0C}' then "\\f"
    else if c < ' ' then "\\u00" + [HexDigit(c as int / 16), HexDigit(c as int % 16)]
    else [c]
  }

  /** A character stands for itself unless JSON asks for an escape, and a longer escape is used only
      where there is none of two characters. */
  lemma EscapeLength(c: char)
    ensures |EscapeChar(c)| ==
      if c in "\"\\\n\r\t\U{08}\U{0C}" then 2 else if c < ' ' then 6 else 1
  {}

  function Escaped(s: string): string {
    if s == [] then [] else EscapeChar(s[0]) + Escaped(s[1..])
  }

  function Quoted(s: string): string {
    "\"" + Escaped(s) + "\""
  }

  function Join(parts: seq<string>): string {
    JoinWith(parts, ",")
  }

  function KeyLeq<T>(): ((Bytes, T), (Bytes, T)) -> bool {
    (a: (Bytes, T), b: (Bytes, T)) => LexLeq(a.0, b.0)
  }

  function Member(utf8: Utf8, e: (Bytes, string)): string {
    Quoted(Show(utf8, e.0)) + ":" + e.1
  }

  function Members(utf8: Utf8, es: seq<(Bytes, string)>): (ms: seq<string>)
    ensures |ms| == |es|
  {
    if es == [] then [] else [Member(utf8, es[0])] + Members(utf8, es[1..])
  }

  function Json(utf8: Utf8, v: Ben): string
    decreases v, 1
  {
    match v
    case Int(n) => Signed(n)
    case Str(b) => Quoted(Show(utf8, b))
    case List(items) => "[" + Join(JsonAll(utf8, items)) + "]"
    case Dict(entries) => "{" + Join(Members(utf8, Sort(JsonEntries(utf8, entries), KeyLeq()))) + "}"
  }

  function JsonAll(utf8: Utf8, items: seq<Ben>): (texts: seq<string>)
    ensures |texts| == |items|
    decreases items, 0
  {
    if items == [] then [] else [Json(utf8, items[0])] + JsonAll(utf8, items[1..])
  }

  function JsonEntries(utf8: Utf8, entries: seq<Entry>): (texts: seq<(Bytes, string)>)
    ensures |texts| == |entries|
    decreases entries, 0
  {
    if entries == [] then [] else [(entries[0].key, Json(utf8, entries[0].val))] + JsonEntries(utf8, entries[1..])
  }

  // ---------------------------------------------------------------------------
  // The tree the text stands for
  // ---------------------------------------------------------------------------

  datatype Tree = Number(n: int) | Text(s: string) | Array(items: seq<Tree>) | Object(pairs: seq<(string, Tree)>)

  function ShowKeys(utf8: Utf8, es: seq<(Bytes, Tree)>): seq<(string, Tree)> {
    if es == [] then [] else [(Show(utf8, es[0].0), es[0].1)] + ShowKeys(utf8, es[1..])
  }

  /** Lists stay lists, byte strings are shown as text, and a dictionary becomes the list of
      its pairs in ascending order of the key bytes. */
  function TreeOf(utf8: Utf8, v: Ben): Tree
    decreases v, 1
  {
    match v
    case Int(n) => Number(n)
    case Str(b) => Text(Show(utf8, b))
    case List(items) => Array(TreesOf(utf8, items))
    case Dict(entries) => Object(ShowKeys(utf8, Sort(EntriesOf(utf8, entries), KeyLeq())))
  }

  function TreesOf(utf8: Utf8, items: seq<Ben>): (trees: seq<Tree>)
    ensures |trees| == |items|
    decreases items, 0
  {
    if items == [] then [] else [TreeOf(utf8, items[0])] + TreesOf(utf8, items[1..])
  }

  function EntriesOf(utf8: Utf8, entries: seq<Entry>): (es: seq<(Bytes, Tree)>)
    ensures |es| == |entries|
    decreases entries, 0
  {
    if entries == [] then [] else [(entries[0].key, TreeOf(utf8, entries[0].val))] + EntriesOf(utf8, entries[1..])
  }

  // ---------------------------------------------------------------------------
  // A JSON reader: sections 4 to 7 of RFC 8259, for integer numbers
  // ---------------------------------------------------------------------------

  function SkipWs(s: string): (r: string)
    ensures |r| <= |s|
  {
    if s != [] && s[0] in " \t\n\r" then SkipWs(s[1..]) else s
  }

  function CodeUnit(s: string): Option<nat>
    requires |s| >= 4
  {
    match (HexVal(s[0]), HexVal(s[1]), HexVal(s[2]), HexVal(s[3]))
    case (Some(a), Some(b), Some(c), Some(d)) => Some(((a * 16 + b) * 16 + c) * 16 + d)
    case _ => None
  }

  /** One character of a string: its value and the text after it. */
  function ReadChar(s: string): (r: Option<(char, string)>)
    requires s != []
    ensures r.Some? ==> |r.value.1| < |s|
  {
    if s[0] < ' ' || s[0] == '"' then None
    else if s[0] != '\\' then Some((s[0], s[1..]))
    else if |s| < 2 then None
    else match s[1]
      case '"' => Some(('"', s[2..]))
      case '\\' => Some(('\\', s[2..]))
      case '/' => Some(('/', s[2..]))
      case 'b' => Some(('\U{08}', s[2..]))
      case 'f' => Some(('\U{0C}', s[2..]))
      case 'n' => Some(('\n', s[2..]))
      case 'r' => Some(('\r', s[2..]))
      case 't' => Some(('\t', s[2..]))
      case 'u' =>
        if |s| < 6 then None
        else (match CodeUnit(s[2..6])
          case Some(u) => if u < 0xD800 || 0xE000 <= u < 0x1_0000 then Some((u as char, s[6..])) else None
          case None => None)
      case _ => None
  }

  /** The rest of a string whose opening quote has been read. */
  function ReadString(s: string): (r: Option<(string, string)>)
    ensures r.Some? ==> |r.value.1| < |s|
  {
    if s == [] then None
    else if s[0] == '"' then Some(([], s[1..]))
    else match ReadChar(s)
      case None => None
      case Some((c, t)) =>
        match ReadString(t)
        case None => None
        case Some((text, rest)) => Some(([c] + text, rest))
  }

  function DigitRun(s: string): (k: nat)
    ensures k <= |s| && forall j :: 0 <= j < k ==> IsDigit(s[j])
  {
    if s != [] && IsDigit(s[0]) then 1 + DigitRun(s[1..]) else 0
  }

  function ReadDigits(s: string): (r: Option<(nat, string)>)
    ensures r.Some? ==> |r.value.1| < |s|
  {
    var k := DigitRun(s);
    if k == 0 || (s[0] == '0' && k > 1) || (k < |s| && s[k] in ".eE") then None
    else Some((Value(s[..k]), s[k..]))
  }

  function ReadNumber(s: string): (r: Option<(int, string)>)
    ensures r.Some? ==> |r.value.1| < |s|
  {
    if s != [] && s[0] == '-' then
      match ReadDigits(s[1..]) case None => None case Some((n, rest)) => Some((-(n as int), rest))
    else
      match ReadDigits(s) case None => None case Some((n, rest)) => Some((n as int, rest))
  }

  function ReadValue(text: string): (r: Option<(Tree, string)>)
    ensures r.Some? ==> |r.value.1| < |text|
    decreases |text|, 2
  {
    var s := SkipWs(text);
    if s == [] then None
    else if s[0] == '"' then
      match ReadString(s[1..]) case None => None case Some((t, rest)) => Some((Text(t), rest))
    else if s[0] == '[' then
      match ReadList(s[1..]) case None => None case Some((ts, rest)) => Some((Array(ts), rest))
    else if s[0] == '{' then
      match ReadObject(s[1..]) case None => None case Some((ps, rest)) => Some((Object(ps), rest))
    else
      match ReadNumber(s) case None => None case Some((n, rest)) => Some((Number(n), rest))
  }

  function ReadList(text: string): (r: Option<(seq<Tree>, string)>)
    ensures r.Some? ==> |r.value.1| < |text|
    decreases |text|, 4
  {
    var s := SkipWs(text);
    if s != [] && s[0] == ']' then Some(([], s[1..])) else ReadItems(text)
  }

  function ReadItems(text: string): (r: Option<(seq<Tree>, string)>)
    ensures r.Some? ==> |r.value.1| < |text|
    decreases |text|, 3
  {
    match ReadValue(text)
    case None => None
    case Some((v, after)) =>
      var s := SkipWs(after);
      if s != [] && s[0] == ']' then Some(([v], s[1..]))
      else if s != [] && s[0] == ',' then
        match ReadItems(s[1..]) case None => None case Some((vs, rest)) => Some(([v] + vs, rest))
      else None
  }

  function ReadObject(text: string): (r: Option<(seq<(string, Tree)>, string)>)
    ensures r.Some? ==> |r.value.1| < |text|
    decreases |text|, 4
  {
    var s := SkipWs(text);
    if s != [] && s[0] == '}' then Some(([], s[1..])) else ReadPairs(text)
  }

  function ReadPairs(text: string): (r: Option<(seq<(string, Tree)>, string)>)
    ensures r.Some? ==> |r.value.1| < |text|
    decreases |text|, 3
  {
    var s := SkipWs(text);
    if s == [] || s[0] != '"' then None else
    match ReadString(s[1..])
    case None => None
    case Some((key, afterKey)) =>
      var t := SkipWs(afterKey);
      if t == [] || t[0] != ':' then None else
      match ReadValue(t[1..])
      case None => None
      case Some((v, after)) =>
        var u := SkipWs(after);
        if u != [] && u[0] == '}' then Some(([(key, v)], u[1..]))
        else if u != [] && u[0] == ',' then
          match ReadPairs(u[1..]) case None => None case Some((ps, rest)) => Some(([(key, v)] + ps, rest))
        else None
  }

  // ---------------------------------------------------------------------------
  // Strings and numbers read back
  // ---------------------------------------------------------------------------

  lemma ControlEscapeReads(c: char, rest: string)
    requires c < ' '
    ensures var e := "\\u00" + [HexDigit(c as int / 16), HexDigit(c as int % 16)]; ReadChar(e + rest) == Some((c, rest))
  {
    var e := "\\u00" + [HexDigit(c as int / 16), HexDigit(c as int % 16)];
    assert (e + rest)[2..6] == "00" + [HexDigit(c as int / 16), HexDigit(c as int % 16)];
    assert (e + rest)[6..] == rest;
    assert HexVal('0') == Some(0);
  }

  lemma EscapeReads(c: char, rest: string)
    ensures var e := EscapeChar(c) + rest; e[0] != '"' && ReadChar(e) == Some((c, rest))
  {
    var e := EscapeChar(c) + rest;
    if c != '"' && c != '\\' && c != '\n' && c != '\r' && c != '\t' && c != '\U{08}' && c != '\U{0C}' && c < ' ' {
      ControlEscapeReads(c, rest);
    } else if |EscapeChar(c)| == 1 {
      assert e[1..] == rest;
    } else {
      assert e[2..] == rest;
    }
  }

  lemma ReadStringStep(t: string, c: char, u: string, text: string, rest: string)
    requires t != [] && t[0] != '"' && ReadChar(t) == Some((c, u)) && ReadString(u) == Some((text, rest))
    ensures ReadString(t) == Some(([c] + text, rest))
  {}

  lemma {:induction false} EscapedReads(s: string, rest: string)
    ensures ReadString(Escaped(s) + "\"" + rest) == Some((s, rest))
  {
    if s == [] {
      assert Escaped(s) + "\"" + rest == "\"" + rest && ("\"" + rest)[1..] == rest;
    } else {
      hide ReadChar, EscapeChar, ReadString;
      var more := Escaped(s[1..]) + "\"" + rest;
      var e := EscapeChar(s[0]);
      assert Escaped(s) + "\"" + rest == e + more by {
        assert Escaped(s) == e + Escaped(s[1..]);
        ConcatAssociates(e, Escaped(s[1..]), "\"" + rest);
        ConcatAssociates(Escaped(s[1..]), "\"", rest);
        ConcatAssociates(Escaped(s), "\"", rest);
      }
      EscapeReads(s[0], more);
      EscapedReads(s[1..], rest);
      ReadStringStep(e + more, s[0], more, s[1..], rest);
      assert s == [s[0]] + s[1..];
    }
  }

  lemma {:induction false} DigitRunStops(d: string, rest: string)
    requires AllDigits(d) && (rest == [] || !IsDigit(rest[0]))
    ensures DigitRun(d + rest) == |d|
  {
    if d == [] {
      assert d + rest == rest;
    } else {
      assert (d + rest)[1..] == d[1..] + rest;
      DigitRunStops(d[1..], rest);
    }
  }

  /** What may follow a value without being taken for part of it. */
  predicate Stop(rest: string) {
    rest == [] || rest[0] in ",]}"
  }

  lemma DigitsRead(n: nat, rest: string)
    requires Stop(rest)
    ensures ReadDigits(Digits(n) + rest) == Some((n, rest))
  {
    var d := Digits(n);
    DigitRunStops(d, rest);
    ValueOfDigits(n);
    DigitsNoLeadingZero(n);
    assert (d + rest)[..|d|] == d && (d + rest)[|d|..] == rest;
  }

  lemma NumberReads(n: int, rest: string)
    requires Stop(rest)
    ensures var t := Signed(n); t != [] && (IsDigit(t[0]) || t[0] == '-') && ReadNumber(t + rest) == Some((n, rest))
  {
    hide ReadDigits;
    if n < 0 {
      assert (Signed(n) + rest)[1..] == Digits(-n) + rest;
      DigitsRead(-n, rest);
    } else {
      DigitsRead(n, rest);
    }
  }

  // ---------------------------------------------------------------------------
  // Values read back
  // ---------------------------------------------------------------------------

  /** Wherever `text` stands before a delimiter, the reader takes exactly it and yields `tree`. */
  ghost predicate Reads(text: string, tree: Tree) {
    && text != [] && text[0] in "\"[{-0123456789"
    && forall rest: string {:trigger text + rest} :: Stop(rest) ==> ReadValue(text + rest) == Some((tree, rest))
  }

  lemma NumberTextReads(n: int)
    ensures Reads(Signed(n), Number(n))
  {
    hide Signed, ReadValue, ReadNumber;
    NumberReads(n, "");
    forall rest: string | Stop(rest) ensures ReadValue(Signed(n) + rest) == Some((Number(n), rest)) {
      NumberReads(n, rest);
      NumberAhead(Signed(n), n, rest);
    }
  }

  lemma NumberAhead(d: string, n: int, rest: string)
    requires d != [] && (IsDigit(d[0]) || d[0] == '-') && ReadNumber(d + rest) == Some((n, rest))
    ensures ReadValue(d + rest) == Some((Number(n), rest))
  {
    hide ReadNumber;
    var t := d + rest;
    assert t[0] == d[0] && SkipWs(t) == t;
  }

  lemma QuotedReads(s: string)
    ensures Reads(Quoted(s), Text(s))
  {
    hide Escaped, ReadString;
    forall rest: string | Stop(rest) ensures ReadValue(Quoted(s) + rest) == Some((Text(s), rest)) {
      var t := Quoted(s) + rest;
      assert t[0] == '"' && t[1..] == Escaped(s) + "\"" + rest && SkipWs(t) == t;
      EscapedReads(s, rest);
    }
  }

  lemma NoWsToSkip(s: string)
    requires s == [] || s[0] !in " \t\n\r"
    ensures SkipWs(s) == s
  {}

  lemma JoinStep(parts: seq<string>, close: string)
    requires |parts| > 1
    ensures Join(parts) + close == parts[0] + ("," + (Join(parts[1..]) + close))
  {
    ConcatAssociates(parts[0] + ",", Join(parts[1..]), close);
    ConcatAssociates(parts[0], ",", Join(parts[1..]) + close);
  }

  lemma {:induction false} ItemsRead(texts: seq<string>, trees: seq<Tree>, rest: string)
    requires texts != [] && |texts| == |trees| && forall k :: 0 <= k < |texts| ==> Reads(texts[k], trees[k])
    ensures ReadItems(Join(texts) + ("]" + rest)) == Some((trees, rest))
  {
    hide ReadValue;
    var close := "]" + rest;
    assert close[1..] == rest;
    if |texts| == 1 {
      assert texts[0] + close == Join(texts) + close;
      NoWsToSkip(close);
      assert trees == [trees[0]];
    } else {
      var after := "," + (Join(texts[1..]) + close);
      JoinStep(texts, close);
      assert Reads(texts[0], trees[0]) && Stop(after) && texts[0] + after == Join(texts) + close;
      NoWsToSkip(after);
      assert after[1..] == Join(texts[1..]) + close;
      ItemsRead(texts[1..], trees[1..], rest);
      assert trees == [trees[0]] + trees[1..];
    }
  }

  lemma JoinStarts(parts: seq<string>)
    requires parts != [] && parts[0] != []
    ensures Join(parts) != [] && Join(parts)[0] == parts[0][0]
  {}

  lemma ReadsStarts(text: string, tree: Tree)
    requires Reads(text, tree)
    ensures text != [] && text[0] !in "] \t\n\r"
  {}

  lemma ListReads(texts: seq<string>, trees: seq<Tree>)
    requires |texts| == |trees| && forall k :: 0 <= k < |texts| ==> Reads(texts[k], trees[k])
    ensures Reads("[" + Join(texts) + "]", Array(trees))
  {
    hide ReadItems, Join, Reads;
    var text := "[" + Join(texts) + "]";
    forall rest: string | Stop(rest) ensures ReadValue(text + rest) == Some((Array(trees), rest)) {
      var body := Join(texts) + ("]" + rest);
      assert (text + rest)[0] == '[' && (text + rest)[1..] == body;
      NoWsToSkip(text + rest);
      if texts == [] {
        EmptyJoin();
        assert body == "]" + rest && body[1..] == rest;
        NoWsToSkip(body);
      } else {
        ReadsStarts(texts[0], trees[0]);
        JoinStarts(texts);
        assert body[0] == texts[0][0];
        NoWsToSkip(body);
        ItemsRead(texts, trees, rest);
      }
    }
    ReadsIntro(text, Array(trees));
  }

  lemma EmptyJoin()
    ensures Join([]) == ""
  {}

  /** A printed member list and the pairs it stands for. */
  ghost predicate MembersMatch(ts: seq<(Bytes, string)>, vs: seq<(Bytes, Tree)>) {
    |ts| == |vs| && forall k :: 0 <= k < |ts| ==> ts[k].0 == vs[k].0 && Reads(ts[k].1, vs[k].1)
  }

  lemma PairReads(utf8: Utf8, t: (Bytes, string), v: Tree, after: string)
    requires Reads(t.1, v) && Stop(after)
    ensures var text := Member(utf8, t) + after; var key := Show(utf8, t.0);
      && SkipWs(text) == text && text != [] && text[0] == '"'
      && ReadString(text[1..]) == Some((key, ":" + (t.1 + after)))
      && ReadValue(t.1 + after) == Some((v, after))
  {
    hide ReadString, Escaped, ReadValue;
    var key := Show(utf8, t.0);
    var text := Member(utf8, t) + after;
    assert text == "\"" + (Escaped(key) + "\"" + (":" + (t.1 + after)));
    assert text[1..] == Escaped(key) + "\"" + (":" + (t.1 + after));
    EscapedReads(key, ":" + (t.1 + after));
    NoWsToSkip(text);
  }

  lemma ReadPairsStep(text: string, key: string, t: string, v: Tree, after: string)
    requires SkipWs(text) == text && text != [] && text[0] == '"'
    requires ReadString(text[1..]) == Some((key, ":" + t)) && ReadValue(t) == Some((v, after))
    ensures after != [] && after[0] == '}' ==> ReadPairs(text) == Some(([(key, v)], after[1..]))
    ensures after != [] && after[0] == ',' && ReadPairs(after[1..]).Some? ==>
      ReadPairs(text) == Some(([(key, v)] + ReadPairs(after[1..]).value.0, ReadPairs(after[1..]).value.1))
  {
    hide ReadValue, ReadString;
    NoWsToSkip(":" + t);
    assert (":" + t)[1..] == t;
    if after != [] && after[0] in ",}" { NoWsToSkip(after); }
  }

  lemma {:induction false} PairsRead(utf8: Utf8, ts: seq<(Bytes, string)>, vs: seq<(Bytes, Tree)>, rest: string)
    requires ts != [] && MembersMatch(ts, vs)
    ensures ReadPairs(Join(Members(utf8, ts)) + ("}" + rest)) == Some((ShowKeys(utf8, vs), rest))
  {
    hide ReadValue, ReadString, ReadPairs, Member, Reads, SkipWs, Show;
    var close, ms := "}" + rest, Members(utf8, ts);
    assert close[1..] == rest;
    var key := Show(utf8, ts[0].0);
    if |ts| == 1 {
      assert Join(ms) == Member(utf8, ts[0]);
      PairReads(utf8, ts[0], vs[0].1, close);
      ReadPairsStep(Join(ms) + close, key, ts[0].1 + close, vs[0].1, close);
      assert ShowKeys(utf8, vs) == [(key, vs[0].1)] by { assert vs[1..] == []; }
    } else {
      var after := "," + (Join(ms[1..]) + close);
      JoinStep(ms, close);
      assert ms[1..] == Members(utf8, ts[1..]);
      PairReads(utf8, ts[0], vs[0].1, after);
      assert after[1..] == Join(ms[1..]) + close;
      PairsRead(utf8, ts[1..], vs[1..], rest);
      ReadPairsStep(Join(ms) + close, key, ts[0].1 + after, vs[0].1, after);
    }
  }

  lemma ObjectReads(utf8: Utf8, ts: seq<(Bytes, string)>, vs: seq<(Bytes, Tree)>)
    requires MembersMatch(ts, vs)
    ensures Reads("{" + Join(Members(utf8, ts)) + "}", Object(ShowKeys(utf8, vs)))
  {
    hide ReadPairs, Join, Reads;
    var text := "{" + Join(Members(utf8, ts)) + "}";
    forall rest: string | Stop(rest) ensures ReadValue(text + rest) == Some((Object(ShowKeys(utf8, vs)), rest)) {
      var body := Join(Members(utf8, ts)) + ("}" + rest);
      assert (text + rest)[0] == '{' && (text + rest)[1..] == body;
      NoWsToSkip(text + rest);
      if ts == [] {
        EmptyJoin();
        assert body == "}" + rest && body[1..] == rest;
        NoWsToSkip(body);
      } else {
        JoinStarts(Members(utf8, ts));
        assert body[0] == '"';
        NoWsToSkip(body);
        PairsRead(utf8, ts, vs, rest);
      }
    }
    ReadsIntro(text, Object(ShowKeys(utf8, vs)));
  }

  lemma ReadsIntro(text: string, tree: Tree)
    requires text != [] && text[0] in "\"[{-0123456789"
    requires forall rest: string {:trigger text + rest} :: Stop(rest) ==> ReadValue(text + rest) == Some((tree, rest))
    ensures Reads(text, tree)
  {}

  // ---------------------------------------------------------------------------
  // Dictionaries: text and tree are sorted alike
  // ---------------------------------------------------------------------------

  function Both(utf8: Utf8, entries: seq<Entry>): seq<(Bytes, (string, Tree))> {
    if entries == [] then []
    else [(entries[0].key, (Json(utf8, entries[0].val), TreeOf(utf8, entries[0].val)))] + Both(utf8, entries[1..])
  }

  lemma {:induction false} BothProjects(utf8: Utf8, entries: seq<Entry>)
    ensures JsonEntries(utf8, entries) == Map(Both(utf8, entries), (p: (Bytes, (string, Tree))) => (p.0, p.1.0))
    ensures EntriesOf(utf8, entries) == Map(Both(utf8, entries), (p: (Bytes, (string, Tree))) => (p.0, p.1.1))
  {
    if entries != [] {
      BothProjects(utf8, entries[1..]);
      assert Both(utf8, entries)[1..] == Both(utf8, entries[1..]);
    }
  }

  lemma SortedAlike(utf8: Utf8, entries: seq<Entry>)
    requires forall p :: p in Both(utf8, entries) ==> Reads(p.1.0, p.1.1)
    ensures MembersMatch(Sort(JsonEntries(utf8, entries), KeyLeq()), Sort(EntriesOf(utf8, entries), KeyLeq()))
  {
    hide Reads, LexLeq;
    var both := Both(utf8, entries);
    var f := (p: (Bytes, (string, Tree))) => (p.0, p.1.0);
    var g := (p: (Bytes, (string, Tree))) => (p.0, p.1.1);
    BothProjects(utf8, entries);
    SortMaps(both, KeyLeq<(string, Tree)>(), f, KeyLeq<string>());
    SortMaps(both, KeyLeq<(string, Tree)>(), g, KeyLeq<Tree>());
    var sorted := Sort(both, KeyLeq());
    forall k | 0 <= k < |sorted| ensures Reads(sorted[k].1.0, sorted[k].1.1) {
      SortMembers(both, KeyLeq<(string, Tree)>(), sorted[k]);
    }
  }

  // ---------------------------------------------------------------------------
  // The theorem
  // ---------------------------------------------------------------------------

  /** For every value, however deeply nested, the reader recovers the value's tree. */
  lemma {:induction false} JsonReads(utf8: Utf8, v: Ben)
    ensures Reads(Json(utf8, v), TreeOf(utf8, v))
    decreases v, 1
  {
    match v {
      case Int(n) => NumberTextReads(n);
      case Str(b) => QuotedReads(Show(utf8, b));
      case List(items) =>
        AllItemsRead(utf8, items);
        ListReads(JsonAll(utf8, items), TreesOf(utf8, items));
      case Dict(entries) =>
        AllEntriesRead(utf8, entries);
        SortedAlike(utf8, entries);
        ObjectReads(utf8, Sort(JsonEntries(utf8, entries), KeyLeq()), Sort(EntriesOf(utf8, entries), KeyLeq()));
    }
  }

  lemma {:induction false} AllItemsRead(utf8: Utf8, items: seq<Ben>)
    ensures forall k :: 0 <= k < |items| ==> Reads(JsonAll(utf8, items)[k], TreesOf(utf8, items)[k])
    decreases items, 0
  {
    hide Reads;
    if items != [] {
      JsonReads(utf8, items[0]);
      AllItemsRead(utf8, items[1..]);
    }
  }

  lemma {:induction false} AllEntriesRead(utf8: Utf8, entries: seq<Entry>)
    ensures forall p :: p in Both(utf8, entries) ==> Reads(p.1.0, p.1.1)
    decreases entries, 0
  {
    hide Reads;
    if entries != [] {
      JsonReads(utf8, entries[0].val);
      AllEntriesRead(utf8, entries[1..]);
    }
  }

  lemma JsonRoundTrip(utf8: Utf8, v: Ben)
    ensures ReadValue(Json(utf8, v)) == Some((TreeOf(utf8, v), ""))
  {
    JsonReads(utf8, v);
    assert Json(utf8, v) + "" == Json(utf8, v) && Stop("");
  }

  /** Values that print alike stand for the same tree. */
  lemma SameTextSameTree(utf8: Utf8, v: Ben, w: Ben)
    requires Json(utf8, v) == Json(utf8, w)
    ensures TreeOf(utf8, v) == TreeOf(utf8, w)
  {
    JsonRoundTrip(utf8, v);
    JsonRoundTrip(utf8, w);
  }

  lemma KeyOrder<T(!new)>()
    ensures TotalPreorder(KeyLeq<T>())
  {
    forall x: (Bytes, T), y: (Bytes, T) ensures KeyLeq<T>()(x, y) || KeyLeq<T>()(y, x) { LexTotal(x.0, y.0); }
    forall x: (Bytes, T), y: (Bytes, T), z: (Bytes, T) | KeyLeq<T>()(x, y) && KeyLeq<T>()(y, z)
      ensures KeyLeq<T>()(x, z)
    {
      LexTransitive(x.0, y.0, z.0);
    }
  }

  /** The members appear in ascending order of their key bytes. */
  lemma MembersAscend(utf8: Utf8, entries: seq<Entry>)
    ensures var es := Sort(EntriesOf(utf8, entries), KeyLeq());
      multiset(es) == multiset(EntriesOf(utf8, entries))
        && forall i, j :: 0 <= i < j < |es| ==> LexLeq(es[i].0, es[j].0)
  {
    KeyOrder<Tree>();
    SortSorts(EntriesOf(utf8, entries), KeyLeq<Tree>());
    SortPermutes(EntriesOf(utf8, entries), KeyLeq<Tree>());
  }

  // ---------------------------------------------------------------------------
  // The iteration order of a dictionary does not show
  // ---------------------------------------------------------------------------

  function EntryLeq(): (Entry, Entry) -> bool {
    (a: Entry, b: Entry) => LexLeq(a.key, b.key)
  }

  function Printed(utf8: Utf8): Entry -> (Bytes, string) {
    (e: Entry) => (e.key, Json(utf8, e.val))
  }

  lemma {:induction false} EntriesMap(utf8: Utf8, entries: seq<Entry>)
    ensures JsonEntries(utf8, entries) == Map(entries, Printed(utf8))
  {
    if entries != [] { EntriesMap(utf8, entries[1..]); }
  }

  /** Sorting the entries and printing them is printing them and sorting. */
  lemma SortThenPrint(utf8: Utf8, entries: seq<Entry>)
    ensures Sort(JsonEntries(utf8, entries), KeyLeq()) == Map(Sort(entries, EntryLeq()), Printed(utf8))
  {
    hide LexLeq;
    EntriesMap(utf8, entries);
    SortMaps(entries, EntryLeq(), Printed(utf8), KeyLeq<string>());
  }

  ghost predicate DistinctKeys(entries: seq<Entry>) {
    forall x, y :: x in entries && y in entries && x.key == y.key ==> x == y
  }

  /** A dictionary prints the same in whatever order its entries are iterated. */
  lemma DictOrderIsIrrelevant(utf8: Utf8, xs: seq<Entry>, ys: seq<Entry>)
    requires DistinctKeys(xs) && multiset(xs) == multiset(ys)
    ensures Json(utf8, Dict(xs)) == Json(utf8, Dict(ys))
  {
    SortThenPrint(utf8, xs);
    SortThenPrint(utf8, ys);
    forall x: Entry, y: Entry ensures EntryLeq()(x, y) || EntryLeq()(y, x) { LexTotal(x.key, y.key); }
    forall x: Entry, y: Entry, z: Entry | EntryLeq()(x, y) && EntryLeq()(y, z) ensures EntryLeq()(x, z) {
      LexTransitive(x.key, y.key, z.key);
    }
    forall x, y | x in xs && y in xs && EntryLeq()(x, y) && EntryLeq()(y, x) ensures x == y {
      LexAntisymmetric(x.key, y.key);
    }
    SortOfPermutation(xs, ys, EntryLeq());
  }

  // ---------------------------------------------------------------------------
  // The printers, appending to one shared output
  // ---------------------------------------------------------------------------

  class Output {
    var text: string

    constructor ()
      ensures text == ""
    {
      text := "";
    }

    method Push(s: string)
      modifies this
      ensures text == old(text) + s
    {
      text := text + s;
    }
  }

  method EscapeJsonString(s: string, out: Output)
    modifies out
    ensures out.text == old(out.text) + Quoted(s)
  {
    hide EscapeChar;
    out.Push("\"");
    ghost var start := out.text;
    assert s[0..] == s;
    for i := 0 to |s|
      invariant out.text + Escaped(s[i..]) == start + Escaped(s)
    {
      assert s[i..][1..] == s[i + 1..];
      ConcatAssociates(out.text, EscapeChar(s[i]), Escaped(s[i + 1..]));
      out.Push(EscapeChar(s[i]));
    }
    assert out.text + [] == out.text;
    out.Push("\"");
  }

  method BytesToJsonString(utf8: Utf8, b: Bytes, out: Output)
    modifies out
    ensures out.text == old(out.text) + Quoted(Show(utf8, b))
  {
    var s := utf8(b);
    match s
    case Some(t) => EscapeJsonString(t, out);
    case None => EscapeJsonString(Hex(b), out);
  }

  lemma {:induction false} JoinSnoc(parts: seq<string>, p: string)
    ensures Join(parts + [p]) == Join(parts) + (if parts == [] then "" else ",") + p
  {
    if |parts| > 0 {
      assert (parts + [p])[1..] == parts[1..] + [p];
      JoinSnoc(parts[1..], p);
      if |parts| > 1 {
        ConcatAssociates(parts[0] + ",", Join(parts[1..]) + ",", p);
        ConcatAssociates(parts[0] + ",", Join(parts[1..]), ",");
      } else {
        assert Join(parts[1..]) + "" + p == p;
      }
    }
  }

  lemma {:induction false} MembersAt(utf8: Utf8, es: seq<(Bytes, string)>, k: nat)
    requires k < |es|
    ensures Members(utf8, es)[k] == Member(utf8, es[k])
  {
    if k > 0 { MembersAt(utf8, es[1..], k - 1); }
  }

  lemma {:induction false} JsonAllAt(utf8: Utf8, items: seq<Ben>, k: nat)
    requires k < |items|
    ensures JsonAll(utf8, items)[k] == Json(utf8, items[k])
  {
    if k > 0 { JsonAllAt(utf8, items[1..], k - 1); }
  }

  /** One more part of a comma list. */
  lemma JoinGrows(parts: seq<string>, k: nat)
    requires k < |parts|
    ensures Join(parts[..k + 1]) == Join(parts[..k]) + (if k == 0 then "" else ",") + parts[k]
  {
    assert parts[..k + 1] == parts[..k] + [parts[k]];
    JoinSnoc(parts[..k], parts[k]);
  }

  method BenToJson(utf8: Utf8, v: Ben, out: Output)
    modifies out
    ensures out.text == old(out.text) + Json(utf8, v)
    decreases v, 2
  {
    match v
    case Int(n) => out.Push(Signed(n));
    case Str(b) => BytesToJsonString(utf8, b, out);
    case List(items) => ListToJson(utf8, items, out);
    case Dict(entries) =>
      var sorted := Sort(entries, EntryLeq());
      forall e | e in sorted ensures e in entries { SortMembers(entries, EntryLeq(), e); }
      SortThenPrint(utf8, entries);
      DictToJson(utf8, v, sorted, out);
  }

  method ListToJson(utf8: Utf8, items: seq<Ben>, out: Output)
    modifies out
    ensures out.text == old(out.text) + ("[" + Join(JsonAll(utf8, items)) + "]")
    decreases items, 0
  {
    hide Join, Json;
    ghost var start, texts := old(out.text), JsonAll(utf8, items);
    EmptyJoin();
    out.Push("[");
    for i := 0 to |items|
      invariant out.text == start + "[" + Join(texts[..i])
    {
      JsonAllAt(utf8, items, i);
      JoinGrows(texts, i);
      ghost var before := start + "[";
      if i > 0 { out.Push(","); }
      BenToJson(utf8, items[i], out);
      assert out.text == before + Join(texts[..i + 1]);
    }
    assert texts[..|items|] == texts;
    out.Push("]");
  }

  method DictToJson(utf8: Utf8, ghost v: Ben, sorted: seq<Entry>, out: Output)
    requires v.Dict? && forall e :: e in sorted ==> e in v.entries
    modifies out
    ensures out.text == old(out.text) + ("{" + Join(Members(utf8, Map(sorted, Printed(utf8)))) + "}")
    decreases v, 1
  {
    hide Join, Json, Member, Members, Map;
    ghost var start, es := old(out.text), Map(sorted, Printed(utf8));
    ghost var ms := Members(utf8, es);
    EmptyJoin();
    out.Push("{");
    for i := 0 to |sorted|
      invariant out.text == start + "{" + Join(ms[..i])
    {
      MembersAt(utf8, es, i);
      JoinGrows(ms, i);
      ghost var before := start + "{";
      if i > 0 { out.Push(","); }
      assert sorted[i] in v.entries;
      MemberToJson(utf8, v, sorted[i], out);
      assert out.text == before + Join(ms[..i + 1]);
    }
    assert ms[..|sorted|] == ms;
    out.Push("}");
  }

  method MemberToJson(utf8: Utf8, ghost v: Ben, e: Entry, out: Output)
    requires v.Dict? && e in v.entries
    modifies out
    ensures out.text == old(out.text) + Member(utf8, Printed(utf8)(e))
    decreases v, 0
  {
    hide Json;
    BytesToJsonString(utf8, e.key, out);
    out.Push(":");
    BenToJson(utf8, e.val, out);
  }
}
