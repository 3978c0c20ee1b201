/** The ATTACH recogniser
    (crates/ducklink-host/src/at5_intercept.rs:319-500). */
module Attach {
  import opened Wrappers
  import opened Chars
  import opened SqlText
  import opened Utf8
  import opened Literals

  datatype AttachSpec = AttachSpec(
    dsn: string, alias: string, typeName: string, options: seq<(string, string)>, ifNotExists: bool, readOnly: bool)

  // ---------------------------------------------------------------------------
  // Helpers
  // ---------------------------------------------------------------------------

  predicate StartsWithKw(input: string, kw: string) {
    var s := TrimStart(input);
    |s| >= |kw| && EqIgnoreCase(s[..|kw|], kw) && (|s| == |kw| || !IsWord(s[|kw|]))
  }

  function StripTrailingSemicolon(s: string): string {
    var t := Trim(s);
    TrimEnd(if t != [] && t[|t| - 1] == ';' then t[..|t| - 1] else t)
  }

  predicate IsBareIdent(s: string) {
    s != [] && !IsDigit(s[0]) && forall k | 0 <= k < |s| :: IsWord(s[k])
  }

  function SingleQuoted(s: string): Option<(string, string)> {
    if s == [] || s[0] != '\'' then None else AfterOpeningQuote(s[1..])
  }

  method ParseSingleQuotedString(s: string) returns (r: Option<(string, string)>)
    ensures r == SingleQuoted(s)
  {
    if s == [] || s[0] != '\'' { return None; }
    var out, i := [], 1;
    PrependAssociates([], [], AfterOpeningQuote(s[1..]));
    while i < |s|
      invariant 1 <= i <= |s|
      invariant SingleQuoted(s) == Prepend(out, AfterOpeningQuote(s[i..]))
    {
      var t := s[i..];
      if s[i] == '\'' {
        if i + 1 < |s| && s[i + 1] == '\'' {
          assert t[1] == '\'' && t[2..] == s[i + 2..];
          PrependAssociates(out, "'", AfterOpeningQuote(t[2..]));
          out := out + "'";
          i := i + 2;
          continue;
        }
        assert t[1..] == s[i + 1..] && out + [] == out;
        return Some((out, s[i + 1..]));
      }
      assert t[1..] == s[i + 1..];
      PrependAssociates(out, Latin1(Encode(s[i])), AfterOpeningQuote(t[1..]));
      out := out + Latin1(Encode(s[i]));
      i := i + 1;
    }
    return None;
  }

  function WordLength(s: string): (n: nat)
    ensures n <= |s|
  {
    if s != [] && IsWord(s[0]) then 1 + WordLength(s[1..]) else 0
  }

  function ParseBareIdent(input: string): Option<(string, string)> {
    var s := TrimStart(input);
    if s == [] || !(IsAlpha(s[0]) || s[0] == '_') then None
    else Some((s[..WordLength(s)], s[WordLength(s)..]))
  }

  /** The options gathered from the parts of the parenthesised list, a later TYPE winning. */
  function GatherOptions(parts: seq<string>, typeName: Option<string>,
      options: seq<(string, string)>): (Option<string>, seq<(string, string)>) {
    if parts == [] then (typeName, options) else
    var part := Trim(parts[0]);
    if StartsWithKw(part, "TYPE") && |part| >= 4 then
      var raw := Trim(part[4..]);
      var val := Trim(if raw != [] && raw[0] == '=' then raw[1..] else raw);
      GatherOptions(parts[1..], Some(Unquoted(val)), options)
    else if StartsWithKw(part, "READ_ONLY") then
      GatherOptions(parts[1..], typeName, options + [("read_only", "true")])
    else
      var eq := IndexOf(part, '=');
      if eq < |part|
      then GatherOptions(parts[1..], typeName, options + [(Trim(part[..eq]), Unquoted(Trim(part[eq + 1..])))])
      else GatherOptions(parts[1..], typeName, options)
  }

  function Unquoted(v: string): string {
    match StripQuotes(v) case Some(t) => t case None => v
  }

  predicate HasReadOnly(options: seq<(string, string)>) {
    exists k | 0 <= k < |options| :: EqIgnoreCase(options[k].0, "read_only")
  }

  // ---------------------------------------------------------------------------
  // The recogniser
  // ---------------------------------------------------------------------------

  /** `IF NOT EXISTS`: present, absent, or garbled. */
  function ParseIfNotExists(rest: string): Option<(bool, string)> {
    if !StartsWithKw(rest, "IF") || |rest| < 2 then Some((false, rest)) else
    var afterIf := TrimStart(rest[2..]);
    if !StartsWithKw(afterIf, "NOT") || |afterIf| < 3 then None else
    var afterNot := TrimStart(afterIf[3..]);
    if !StartsWithKw(afterNot, "EXISTS") || |afterNot| < 6 then None else
    Some((true, TrimStart(afterNot[6..])))
  }

  /** `(TYPE name, k=v, ...)` up to the last closing parenthesis. */
  function ParseOptionList(rest: string): Option<(string, seq<(string, string)>)> {
    if rest == [] || rest[0] != '(' || LastParen(rest) == 0 then None else
    match GatherOptions(CommaParts(rest[1..LastParen(rest)], Code, 0, []), None, [])
    case (Some(ty), options) => Some((ty, options))
    case (None, _) => None
  }

  /** The index of the last `)`, or 0. */
  function LastParen(s: string): (i: nat)
    ensures s != [] ==> i < |s|
  {
    if s == [] || s[|s| - 1] == ')' then (if s == [] then 0 else |s| - 1) else LastParen(s[..|s| - 1])
  }

  /** `AS alias (options)` after the dsn. */
  function ParseTarget(rest: string): Option<(string, string, seq<(string, string)>)> {
    if !StartsWithKw(rest, "AS") || |rest| < 2 then None else
    match ParseBareIdent(TrimStart(rest[2..]))
    case None => None
    case Some((alias, after)) =>
      match ParseOptionList(TrimStart(after))
      case None => None
      case Some((ty, options)) => Some((alias, ty, options))
  }

  function ParseAttach(text: string): Option<AttachSpec> {
    var sql := Trim(StripTrailingSemicolon(text));
    if !StartsWithKw(sql, "ATTACH") || |sql| < 6 then None else
    match ParseIfNotExists(TrimStart(sql[6..]))
    case None => None
    case Some((ifNotExists, rest)) =>
      match SingleQuoted(rest)
      case None => None
      case Some((dsn, after)) =>
        match ParseTarget(TrimStart(after))
        case None => None
        case Some((alias, ty, options)) => Some(AttachSpec(dsn, alias, ty, options, ifNotExists, HasReadOnly(options)))
  }

  // ---------------------------------------------------------------------------
  // Printing
  // ---------------------------------------------------------------------------

  const READ_ONLY_OPTION := ("read_only", "true")

  function PrintOption(o: (string, string)): string {
    if o == READ_ONLY_OPTION then "READ_ONLY" else o.0 + "=" + Quote(o.1)
  }

  function PrintOptions(options: seq<(string, string)>): string {
    if options == [] then "" else ", " + PrintOption(options[0]) + PrintOptions(options[1..])
  }

  function PrintTarget(spec: AttachSpec): string {
    "AS " + spec.alias + " (TYPE " + spec.typeName + PrintOptions(spec.options) + ")"
  }

  function PrintAttach(spec: AttachSpec): string {
    "ATTACH " + (if spec.ifNotExists then "IF NOT EXISTS " else "") + Quote(spec.dsn) + " " + PrintTarget(spec)
  }

  predicate PrintableOption(o: (string, string)) {
    o == READ_ONLY_OPTION || (IsBareIdent(o.0) && !EqIgnoreCase(o.0, "TYPE") && !EqIgnoreCase(o.0, "READ_ONLY"))
  }

  predicate Printable(spec: AttachSpec) {
    IsBareIdent(spec.alias) && IsBareIdent(spec.typeName)
    && (forall k | 0 <= k < |spec.options| :: PrintableOption(spec.options[k]))
    && spec.readOnly == HasReadOnly(spec.options)
  }

  // ---------------------------------------------------------------------------
  // The round trip
  // ---------------------------------------------------------------------------

  lemma AfterBlank(t: string)
    requires t != [] && !IsSpace(t[0])
    ensures TrimStart(" " + t) == t && TrimStart(t) == t
  {
    assert (" " + t)[1..] == t;
    assert TrimStart(" " + t) == TrimStart(t);
  }

  lemma Tight(t: string)
    requires t != [] && !IsSpace(t[0]) && !IsSpace(t[|t| - 1])
    ensures Trim(t) == t && TrimEnd(t) == t && Trim(" " + t) == t
  {
    TrimTight("", t);
    TrimTight(" ", t);
  }

  /** A keyword is recognised when something other than a word character follows it. */
  lemma KeywordMatches(kw: string, rest: string)
    requires kw != [] && !IsSpace(kw[0]) && (rest == [] || !IsWord(rest[0]))
    ensures StartsWithKw(kw + rest, kw) && (kw + rest)[|kw|..] == rest
  {
    var s := kw + rest;
    assert s[0] == kw[0] && TrimStart(s) == s && s[..|kw|] == kw;
  }

  lemma KeywordDiffers(s: string, kw: string)
    requires s != [] && !IsSpace(s[0]) && kw != [] && Lower(s[0]) != Lower(kw[0])
    ensures !StartsWithKw(s, kw)
  {
    assert TrimStart(s) == s;
    if |s| >= |kw| { assert s[..|kw|][0] == s[0]; }
  }

  /** A bare key before `=` is not mistaken for a keyword it differs from. */
  lemma KeyIsNotKeyword(key: string, tail: string, kw: string)
    requires IsBareIdent(key) && !EqIgnoreCase(key, kw) && (forall k :: 0 <= k < |kw| ==> IsWord(kw[k]))
    ensures !StartsWithKw(key + "=" + tail, kw)
  {
    var s := key + "=" + tail;
    assert s[0] == key[0] && TrimStart(s) == s;
    if |s| < |kw| {
    } else if |key| < |kw| {
      assert IsWord(kw[|key|]);
      assert s[..|kw|][|key|] == '=' && Lower('=') != Lower(kw[|key|]);
    } else if |key| == |kw| {
      assert s[..|kw|] == key;
    } else {
      assert s[|kw|] == key[|kw|];
    }
  }

  lemma {:induction false} WordLengthStops(w: string, rest: string)
    requires (forall k :: 0 <= k < |w| ==> IsWord(w[k])) && (rest == [] || !IsWord(rest[0]))
    ensures WordLength(w + rest) == |w|
  {
    if w == [] {
      assert w + rest == rest;
    } else {
      assert (w + rest)[1..] == w[1..] + rest;
      WordLengthStops(w[1..], rest);
    }
  }

  lemma IdentReads(w: string, rest: string)
    requires IsBareIdent(w) && (rest == [] || !IsWord(rest[0]))
    ensures ParseBareIdent(w + rest) == Some((w, rest))
  {
    var s := w + rest;
    assert s[0] == w[0] && TrimStart(s) == s;
    WordLengthStops(w, rest);
    assert s[..|w|] == w && s[|w|..] == rest;
  }

  lemma {:induction false} IndexOfAfterWord(w: string, rest: string)
    requires forall k :: 0 <= k < |w| ==> IsWord(w[k])
    ensures IndexOf(w + "=" + rest, '=') == |w|
  {
    if w == [] {
      assert w + "=" + rest == "=" + rest;
    } else {
      assert (w + "=" + rest)[1..] == w[1..] + "=" + rest;
      IndexOfAfterWord(w[1..], rest);
    }
  }

  lemma WordIsPlain(w: string)
    requires forall k :: 0 <= k < |w| ==> IsWord(w[k])
    ensures Plain(w)
  {}

  lemma GatherOption(o: (string, string), rest: string, buf: string)
    requires PrintableOption(o)
    ensures CommaParts(PrintOption(o) + rest, Code, 0, buf) == CommaParts(rest, Code, 0, buf + PrintOption(o))
  {
    hide CommaParts, Doubled;
    if o == READ_ONLY_OPTION {
      GatherPlain("READ_ONLY", rest, 0, buf);
    } else {
      WordIsPlain(o.0);
      var q := Quote(o.1);
      assert PrintOption(o) + rest == (o.0 + "=") + (q + rest);
      GatherPlain(o.0 + "=", q + rest, 0, buf);
      GatherLiteral(o.1, rest, 0, buf + (o.0 + "="));
      assert buf + (o.0 + "=") + q == buf + PrintOption(o);
    }
  }

  /** The parts of a printed option list: one per option, each with its leading blank. */
  function OptionParts(options: seq<(string, string)>): seq<string> {
    if options == [] then [] else [" " + PrintOption(options[0])] + OptionParts(options[1..])
  }

  lemma OptionNotBlank(o: (string, string))
    requires PrintableOption(o)
    ensures var p := PrintOption(o); p != [] && !IsSpace(p[0]) && !IsSpace(p[|p| - 1])
  {}

  lemma {:induction false} SplitOptions(options: seq<(string, string)>, buf: string)
    requires !Blank(buf) && forall k :: 0 <= k < |options| ==> PrintableOption(options[k])
    ensures CommaParts(PrintOptions(options), Code, 0, buf) == [buf] + OptionParts(options)
  {
    if options == [] {
      assert [buf] + [] == [buf];
    } else {
      hide PrintOption;
      var o, more := options[0], PrintOptions(options[1..]);
      OptionNotBlank(o);
      TrimTight(" ", PrintOption(o));
      assert PrintOptions(options) == ", " + (PrintOption(o) + more);
      LeadBlank(PrintOption(o) + more);
      GatherOption(o, more, " ");
      SplitOptions(options[1..], " " + PrintOption(o));
    }
  }

  lemma GatherOnePart(o: (string, string), parts: seq<string>, ty: Option<string>, options: seq<(string, string)>)
    requires PrintableOption(o)
    ensures GatherOptions([" " + PrintOption(o)] + parts, ty, options) == GatherOptions(parts, ty, options + [o])
  {
    hide GatherOptions, PrintableOption, Trim;
    var p, all := PrintOption(o), [" " + PrintOption(o)] + parts;
    OptionNotBlank(o);
    Tight(p);
    assert all[1..] == parts;
    if o == READ_ONLY_OPTION {
      ReadOnlyIsKeyword();
      GatherReadOnly(all, ty, options);
    } else {
      KeyValueParses(o);
      GatherKeyValue(all, ty, options);
    }
  }

  lemma ReadOnlyIsKeyword()
    ensures !StartsWithKw("READ_ONLY", "TYPE") && StartsWithKw("READ_ONLY", "READ_ONLY")
  {
    hide StartsWithKw;
    KeywordDiffers("READ_ONLY", "TYPE");
    KeywordMatches("READ_ONLY", "");
    assert "READ_ONLY" + "" == "READ_ONLY";
  }

  lemma KeyValueParses(o: (string, string))
    requires PrintableOption(o) && o != READ_ONLY_OPTION
    ensures var p := PrintOption(o); var eq := IndexOf(p, '=');
      && !StartsWithKw(p, "TYPE") && !StartsWithKw(p, "READ_ONLY") && eq < |p|
      && Trim(p[..eq]) == o.0 && Unquoted(Trim(p[eq + 1..])) == o.1
  {
    hide Trim, Doubled, StartsWithKw;
    var p := PrintOption(o);
    KeyIsNotKeyword(o.0, Quote(o.1), "TYPE");
    KeyIsNotKeyword(o.0, Quote(o.1), "READ_ONLY");
    IndexOfAfterWord(o.0, Quote(o.1));
    assert p[..|o.0|] == o.0 && p[|o.0| + 1..] == Quote(o.1);
    Tight(o.0);
    Tight(Quote(o.1));
    StripQuote(o.1);
  }

  lemma GatherReadOnly(parts: seq<string>, ty: Option<string>, options: seq<(string, string)>)
    requires parts != []
    requires var part := Trim(parts[0]); !StartsWithKw(part, "TYPE") && StartsWithKw(part, "READ_ONLY")
    ensures GatherOptions(parts, ty, options) == GatherOptions(parts[1..], ty, options + [READ_ONLY_OPTION])
  {}

  lemma GatherKeyValue(parts: seq<string>, ty: Option<string>, options: seq<(string, string)>)
    requires parts != []
    requires var part := Trim(parts[0]);
      !StartsWithKw(part, "TYPE") && !StartsWithKw(part, "READ_ONLY") && IndexOf(part, '=') < |part|
    ensures var part := Trim(parts[0]); var eq := IndexOf(part, '=');
      GatherOptions(parts, ty, options) ==
        GatherOptions(parts[1..], ty, options + [(Trim(part[..eq]), Unquoted(Trim(part[eq + 1..])))])
  {}

  lemma GatherNoParts(ty: Option<string>, options: seq<(string, string)>)
    ensures GatherOptions([], ty, options) == (ty, options)
  {}

  lemma {:induction false} GatherAllParts(options: seq<(string, string)>, ty: Option<string>,
      before: seq<(string, string)>)
    requires forall k :: 0 <= k < |options| ==> PrintableOption(options[k])
    ensures GatherOptions(OptionParts(options), ty, before) == (ty, before + options)
  {
    hide GatherOptions, PrintOption, PrintableOption;
    if options == [] {
      GatherNoParts(ty, before);
      assert before + options == before;
    } else {
      GatherOnePart(options[0], OptionParts(options[1..]), ty, before);
      GatherAllParts(options[1..], ty, before + [options[0]]);
      assert before + [options[0]] + options[1..] == before + options;
    }
  }

  lemma GatherType(ty: string, parts: seq<string>)
    requires IsBareIdent(ty)
    ensures GatherOptions(["TYPE " + ty] + parts, None, []) == GatherOptions(parts, Some(ty), [])
  {
    var p := "TYPE " + ty;
    assert p[0] == 'T' && p[|p| - 1] == ty[|ty| - 1] && p == "TYPE" + (" " + ty);
    Tight(p);
    Tight(ty);
    KeywordMatches("TYPE", " " + ty);
    assert p[4..] == " " + ty && (["TYPE " + ty] + parts)[1..] == parts;
    assert ty[0] != '=' && ty[0] != '\'';
  }

  lemma OptionListReads(spec: AttachSpec)
    requires Printable(spec)
    ensures ParseOptionList("(TYPE " + spec.typeName + PrintOptions(spec.options) + ")") ==
      Some((spec.typeName, spec.options))
  {
    hide CommaParts, GatherOptions, PrintOptions, OptionParts;
    var ty := "TYPE " + spec.typeName;
    var inside := ty + PrintOptions(spec.options);
    var t := "(TYPE " + spec.typeName + PrintOptions(spec.options) + ")";
    assert t == "(" + inside + ")" && t[1..|t| - 1] == inside && t[|t| - 1] == ')';
    WordIsPlain(spec.typeName);
    assert Plain(ty);
    GatherPlain(ty, PrintOptions(spec.options), 0, []);
    assert [] + ty == ty && !Blank(ty) by { assert !IsSpace(ty[0]); }
    SplitOptions(spec.options, ty);
    GatherType(spec.typeName, OptionParts(spec.options));
    GatherAllParts(spec.options, Some(spec.typeName), []);
    assert [] + spec.options == spec.options;
  }

  lemma TargetReads(spec: AttachSpec)
    requires Printable(spec)
    ensures ParseTarget(PrintTarget(spec)) == Some((spec.alias, spec.typeName, spec.options))
  {
    hide ParseOptionList, PrintOptions, StartsWithKw, ParseBareIdent, TrimStart;
    var list := "(TYPE " + spec.typeName + PrintOptions(spec.options) + ")";
    var t := PrintTarget(spec);
    assert t == "AS" + (" " + (spec.alias + (" " + list)));
    KeywordMatches("AS", " " + (spec.alias + (" " + list)));
    AfterBlank(spec.alias + (" " + list));
    IdentReads(spec.alias, " " + list);
    AfterBlank(list);
    OptionListReads(spec);
  }

  lemma IfNotExistsReads(ifNotExists: bool, dsn: string, rest: string)
    ensures var q := Quote(dsn) + rest;
      ParseIfNotExists((if ifNotExists then "IF NOT EXISTS " else "") + q) == Some((ifNotExists, q))
  {
    hide StartsWithKw, TrimStart, Doubled;
    var q := Quote(dsn) + rest;
    if ifNotExists {
      var three := "EXISTS" + (" " + q);
      var two := "NOT" + (" " + three);
      assert "IF NOT EXISTS " + q == "IF" + (" " + two);
      KeywordMatches("IF", " " + two);
      KeywordMatches("NOT", " " + three);
      KeywordMatches("EXISTS", " " + q);
      AfterBlank(two);
      AfterBlank(three);
      AfterBlank(q);
    } else {
      assert "" + q == q;
      KeywordDiffers(q, "IF");
    }
  }

  lemma NothingToStrip(t: string)
    requires t != [] && !IsSpace(t[0]) && t[|t| - 1] == ')'
    ensures Trim(StripTrailingSemicolon(t)) == t
  {
    Tight(t);
  }

  /** Printing an attach spec and recognising the text gives the spec back, whatever the dsn
      and the option values hold, but for the dsn's non-ASCII characters. */
  lemma AttachReads(spec: AttachSpec)
    requires Printable(spec)
    ensures ParseAttach(PrintAttach(spec)) == Some(spec.(dsn := BytesAsChars(spec.dsn)))
  {
    hide StartsWithKw, TrimStart, Trim, StripTrailingSemicolon, Doubled, ParseTarget, ParseIfNotExists, PrintTarget,
        AfterOpeningQuote, HasReadOnly;
    var target := PrintTarget(spec);
    TargetEnds(spec);
    var q := Quote(spec.dsn) + (" " + target);
    var body := (if spec.ifNotExists then "IF NOT EXISTS " else "") + q;
    var t := PrintAttach(spec);
    assert t == "ATTACH" + (" " + body);
    NothingToStrip(t);
    KeywordMatches("ATTACH", " " + body);
    AfterBlank(body);
    IfNotExistsReads(spec.ifNotExists, spec.dsn, " " + target);
    assert q[0] == '\'' && q[1..] == Doubled(spec.dsn) + "'" + (" " + target);
    LiteralReads(spec.dsn, " " + target);
    AfterBlank(target);
    TargetReads(spec);
  }

  lemma TargetEnds(spec: AttachSpec)
    ensures var t := PrintTarget(spec); t != [] && t[0] == 'A' && t[|t| - 1] == ')'
  {}

  /** The round trip is exact exactly for ASCII dsns. */
  lemma AttachRoundTrip(spec: AttachSpec)
    requires Printable(spec)
    ensures ParseAttach(PrintAttach(spec)) == Some(spec) <==> AllAscii(spec.dsn)
  {
    hide ParseAttach, PrintAttach, BytesAsChars;
    AttachReads(spec);
    BytesAsCharsIsIdentity(spec.dsn);
  }
}
