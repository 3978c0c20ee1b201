/** ATTACH statements as people write them: keywords in any case, any white space, the options in
    any order and with quoted or bare values, an optional semicolon
    (crates/ducklink-host/src/at5_intercept.rs:117-132, 182-186, 319-400). */
module AttachLayout {
  import opened Wrappers
  import opened Chars
  import opened SqlText
  import opened Utf8
  import opened Literals
  import opened Attach

  /** One entry of the parenthesised list. `shown` is how the value stands in the text. */
  datatype Part =
    | TypeIs(word: string, before: string, equals: bool, behind: string, shown: string, value: string)
    | ReadOnly(word: string)
    | Pair(key: string, before: string, behind: string, shown: string, value: string)
    | Ignored(word: string)

  datatype Padded = Padded(lead: string, part: Part, trail: string)

  datatype IfNotExists = IfNotExists(i: string, gap1: string, n: string, gap2: string, e: string, gap3: string)

  datatype Layout = Layout(
    lead: string, attach: string, gap1: string, guard: Option<IfNotExists>, dsn: string, gap2: string,
    as_: string, gap3: string, alias: string, gap4: string, parts: seq<Padded>, trail: string, semicolon: bool,
    last: string)

  // ---------------------------------------------------------------------------
  // Text
  // ---------------------------------------------------------------------------

  function PartText(p: Part): string {
    match p
    case TypeIs(w, before, eq, behind, shown, _) => w + (before + ((if eq then "=" + behind else "") + shown))
    case ReadOnly(w) => w
    case Pair(k, before, behind, shown, _) => k + (before + ("=" + (behind + shown)))
    case Ignored(w) => w
  }

  function PaddedText(p: Padded): string {
    p.lead + PartText(p.part) + p.trail
  }

  function PartsText(ps: seq<Padded>): string {
    if ps == [] then "" else if |ps| == 1 then PaddedText(ps[0]) else PaddedText(ps[0]) + ("," + PartsText(ps[1..]))
  }

  function GuardText(g: Option<IfNotExists>, rest: string): string {
    match g
    case None => rest
    case Some(IfNotExists(i, g1, n, g2, e, g3)) => i + (g1 + (n + (g2 + (e + (g3 + rest)))))
  }

  function TargetText(l: Layout): string {
    l.as_ + (l.gap3 + (l.alias + (l.gap4 + ("(" + PartsText(l.parts) + ")"))))
  }

  function BodyText(l: Layout): string {
    l.attach + (l.gap1 + GuardText(l.guard, Quote(l.dsn) + (l.gap2 + TargetText(l))))
  }

  function AttachText(l: Layout): string {
    l.lead + BodyText(l) + (l.trail + ((if l.semicolon then ";" else "") + l.last))
  }

  // ---------------------------------------------------------------------------
  // What a layout may be, and what it says
  // ---------------------------------------------------------------------------

  predicate Gap(g: string) {
    g != "" && Blank(g)
  }

  predicate IsTight(w: string) {
    w != "" && !IsSpace(w[0]) && !IsSpace(w[|w| - 1])
  }

  /** A value in quotes, or bare. */
  predicate Shows(shown: string, value: string) {
    shown == Quote(value) || (shown == value && Plain(value) && IsTight(value))
  }

  predicate IsPart(p: Part) {
    match p
    case TypeIs(w, before, eq, behind, shown, v) =>
      && EqIgnoreCase(w, "TYPE") && Blank(before) && Blank(behind) && Shows(shown, v)
      && (eq || (shown[0] != '=' && (before != "" || shown == Quote(v))))
    case ReadOnly(w) => EqIgnoreCase(w, "READ_ONLY")
    case Pair(k, before, behind, shown, v) => OtherWord(k) && Blank(before) && Blank(behind) && Shows(shown, v)
    case Ignored(w) => OtherWord(w)
  }

  predicate OtherWord(w: string) {
    IsBareIdent(w) && !EqIgnoreCase(w, "TYPE") && !EqIgnoreCase(w, "READ_ONLY")
  }

  predicate IsPadded(p: Padded) {
    Blank(p.lead) && IsPart(p.part) && Blank(p.trail)
  }

  predicate IsGuard(g: IfNotExists) {
    && EqIgnoreCase(g.i, "IF") && EqIgnoreCase(g.n, "NOT") && EqIgnoreCase(g.e, "EXISTS")
    && Gap(g.gap1) && Gap(g.gap2) && Blank(g.gap3)
  }

  predicate IsLayout(l: Layout) {
    && EqIgnoreCase(l.attach, "ATTACH") && EqIgnoreCase(l.as_, "AS") && IsBareIdent(l.alias)
    && Blank(l.lead) && Blank(l.gap1) && Blank(l.gap2) && Gap(l.gap3) && Blank(l.gap4)
    && Blank(l.trail) && Blank(l.last)
    && (l.guard.Some? ==> l.gap1 != "" && IsGuard(l.guard.value))
    && (forall k | 0 <= k < |l.parts| :: IsPadded(l.parts[k]))
  }

  /** The last TYPE of the list. */
  function TypeOf(ps: seq<Padded>): Option<string> {
    if ps == [] then None
    else if ps[|ps| - 1].part.TypeIs? then Some(ps[|ps| - 1].part.value)
    else TypeOf(ps[..|ps| - 1])
  }

  /** The READ_ONLY flags and key-value pairs in order. */
  function OptionsOf(ps: seq<Padded>): seq<(string, string)> {
    if ps == [] then [] else
    (match ps[0].part
     case ReadOnly(_) => [("read_only", "true")]
     case Pair(k, _, _, _, v) => [(k, v)]
     case _ => [])
    + OptionsOf(ps[1..])
  }

  // ---------------------------------------------------------------------------
  // Words and white space
  // ---------------------------------------------------------------------------

  lemma SpaceIsNoWord(c: char)
    ensures IsSpace(c) ==> !IsWord(c)
  {}

  lemma KeywordIsWord(w: string, kw: string)
    requires EqIgnoreCase(w, kw) && forall k :: 0 <= k < |kw| ==> IsWord(kw[k])
    ensures forall k :: 0 <= k < |w| ==> IsWord(w[k])
  {
    forall k | 0 <= k < |w| ensures IsWord(w[k]) { assert Lower(w[k]) == Lower(kw[k]) && IsWord(kw[k]); }
  }

  lemma {:induction false} SkipBlank(g: string, t: string)
    requires Blank(g)
    ensures TrimStart(g + t) == TrimStart(t)
  {
    if g == [] {
      assert g + t == t;
    } else {
      assert (g + t)[1..] == g[1..] + t;
      SkipBlank(g[1..], t);
    }
  }

  lemma {:induction false} DropBlank(t: string, g: string)
    requires Blank(g)
    ensures TrimEnd(t + g) == TrimEnd(t)
  {
    if g == [] {
      assert t + g == t;
    } else {
      var h := g[..|g| - 1];
      assert (t + g)[..|t + g| - 1] == t + h;
      DropBlank(t, h);
    }
  }

  lemma TrimPadded(lead: string, w: string, trail: string)
    requires Blank(lead) && Blank(trail) && IsTight(w)
    ensures Trim(lead + w + trail) == w && TrimStart(lead + w) == w
  {
    assert lead + w + trail == lead + (w + trail) && (w + trail)[0] == w[0];
    SkipBlank(lead, w + trail);
    assert TrimStart(w + trail) == w + trail;
    DropBlank(w, trail);
    assert TrimEnd(w) == w;
    SkipBlank(lead, w);
  }

  /** A keyword in any case is recognised in front of anything but a word character. */
  lemma KeywordAnyCase(w: string, kw: string, rest: string)
    requires EqIgnoreCase(w, kw) && kw != "" && (forall k :: 0 <= k < |kw| ==> IsWord(kw[k]))
    requires rest == "" || !IsWord(rest[0])
    ensures StartsWithKw(w + rest, kw) && (w + rest)[|kw|..] == rest
  {
    KeywordIsWord(w, kw);
    var s := w + rest;
    SpaceIsNoWord(s[0]);
    assert IsWord(w[0]) && s[0] == w[0] && TrimStart(s) == s && s[..|kw|] == w;
  }

  /** A word is not mistaken for a keyword it differs from. */
  lemma OtherWordAhead(w: string, rest: string, kw: string)
    requires IsBareIdent(w) && !EqIgnoreCase(w, kw) && (forall k :: 0 <= k < |kw| ==> IsWord(kw[k]))
    requires rest == "" || !IsWord(rest[0])
    ensures !StartsWithKw(w + rest, kw)
  {
    var s := w + rest;
    SpaceIsNoWord(w[0]);
    assert s[0] == w[0] && TrimStart(s) == s;
    if |s| >= |kw| {
      if |w| < |kw| {
        assert s[..|kw|][|w|] == rest[0] && IsWord(kw[|w|]);
        LowerKeepsWords(rest[0], kw[|w|]);
      } else if |w| == |kw| {
        assert s[..|kw|] == w;
      } else {
        assert s[|kw|] == w[|kw|];
      }
    }
  }

  lemma LowerKeepsWords(c: char, d: char)
    requires !IsWord(c) && IsWord(d)
    ensures Lower(c) != Lower(d)
  {}

  // ---------------------------------------------------------------------------
  // The parts
  // ---------------------------------------------------------------------------

  lemma ShownIsTight(shown: string, value: string)
    requires Shows(shown, value)
    ensures IsTight(shown) && Unquoted(shown) == value && !IsWord('\'') && !IsWord('=')
  {
    if shown == Quote(value) { StripQuote(value); } else { assert shown[0] !in "'\"()[],"; }
  }

  lemma GatherShown(shown: string, value: string, rest: string, buf: string)
    requires Shows(shown, value)
    ensures CommaParts(shown + rest, Code, 0, buf) == CommaParts(rest, Code, 0, buf + shown)
  {
    hide CommaParts;
    if shown == Quote(value) { GatherLiteral(value, rest, 0, buf); } else { GatherPlain(shown, rest, 0, buf); }
  }

  /** What stands in front of the value. */
  function Front(p: Part): string {
    match p
    case TypeIs(w, before, eq, behind, _, _) => w + (before + (if eq then "=" + behind else ""))
    case Pair(k, before, behind, _, _) => k + (before + ("=" + behind))
    case _ => p.word
  }

  lemma BlankIsPlain(g: string)
    requires Blank(g)
    ensures Plain(g)
  {}

  lemma PlainConcat(a: string, b: string)
    requires Plain(a) && Plain(b)
    ensures Plain(a + b)
  {}

  lemma FrontIsPlain(p: Part)
    requires IsPart(p)
    ensures Plain(Front(p)) && Front(p) != "" && IsWord(Front(p)[0])
    ensures PartText(p) == Front(p) + if p.TypeIs? || p.Pair? then p.shown else ""
  {
    hide Plain, Blank, Shows, EqIgnoreCase, IsBareIdent;
    match p {
      case TypeIs(w, before, eq, behind, shown, _) =>
        WordFront(w, "TYPE");
        var mid := if eq then "=" + behind else "";
        BlankIsPlain(before);
        BlankIsPlain(behind);
        MarkIsPlain();
        PlainConcat("=", behind);
        PlainConcat(before, mid);
        PlainConcat(w, before + mid);
        assert w + (before + (mid + shown)) == w + (before + mid) + shown;
      case ReadOnly(w) => WordFront(w, "READ_ONLY"); assert w + "" == w;
      case Pair(k, before, behind, shown, _) =>
        IdentFront(k);
        BlankIsPlain(before);
        BlankIsPlain(behind);
        MarkIsPlain();
        PlainConcat("=", behind);
        PlainConcat(before, "=" + behind);
        PlainConcat(k, before + ("=" + behind));
        assert k + (before + ("=" + (behind + shown))) == k + (before + ("=" + behind)) + shown;
      case Ignored(w) => IdentFront(w); assert w + "" == w;
    }
  }

  lemma MarkIsPlain()
    ensures Plain("=") && Plain("")
  {}

  lemma WordFront(w: string, kw: string)
    requires EqIgnoreCase(w, kw) && kw != "" && forall k :: 0 <= k < |kw| ==> IsWord(kw[k])
    ensures Plain(w) && w != "" && IsWord(w[0])
  {
    KeywordIsWord(w, kw);
    WordIsPlain(w);
  }

  lemma IdentFront(w: string)
    requires IsBareIdent(w)
    ensures Plain(w) && w != "" && IsWord(w[0])
  {
    WordIsPlain(w);
  }

  lemma PartIsTight(p: Part)
    requires IsPart(p)
    ensures IsTight(PartText(p))
  {
    FrontIsPlain(p);
    SpaceIsNoWord(Front(p)[0]);
    match p {
      case TypeIs(_, _, _, _, shown, v) => ShownIsTight(shown, v);
      case ReadOnly(w) => KeywordIsWord(w, "READ_ONLY"); SpaceIsNoWord(w[|w| - 1]);
      case Pair(_, _, _, shown, v) => ShownIsTight(shown, v);
      case Ignored(w) => SpaceIsNoWord(w[|w| - 1]);
    }
  }

  lemma GatherPart(p: Part, rest: string, buf: string)
    requires IsPart(p)
    ensures CommaParts(PartText(p) + rest, Code, 0, buf) == CommaParts(rest, Code, 0, buf + PartText(p))
  {
    hide CommaParts, Front, PartText, Plain, Shows;
    FrontIsPlain(p);
    var f := Front(p);
    if p.TypeIs? || p.Pair? {
      assert PartText(p) + rest == f + (p.shown + rest) && buf + PartText(p) == buf + f + p.shown;
      GatherPlain(f, p.shown + rest, 0, buf);
      GatherShown(p.shown, p.value, rest, buf + f);
    } else {
      assert f + "" == f;
      GatherPlain(f, rest, 0, buf);
    }
  }

  lemma GatherPadded(p: Padded, rest: string)
    requires IsPadded(p)
    ensures CommaParts(PaddedText(p) + rest, Code, 0, []) == CommaParts(rest, Code, 0, PaddedText(p))
    ensures !Blank(PaddedText(p)) && Trim(PaddedText(p)) == PartText(p.part)
  {
    hide CommaParts, PartText, IsPart, Trim, Plain;
    var t := PartText(p.part);
    PartIsTight(p.part);
    BlankIsPlain(p.lead);
    BlankIsPlain(p.trail);
    TrimPadded(p.lead, t, p.trail);
    assert PaddedText(p)[|p.lead|] == t[0];
    assert PaddedText(p) + rest == p.lead + (t + (p.trail + rest)) && [] + p.lead == p.lead;
    GatherPlain(p.lead, t + (p.trail + rest), 0, []);
    GatherPart(p.part, p.trail + rest, p.lead);
    GatherPlain(p.trail, rest, 0, p.lead + t);
  }

  function Texts(ps: seq<Padded>): (ts: seq<string>)
    ensures |ts| == |ps|
  {
    if ps == [] then [] else [PaddedText(ps[0])] + Texts(ps[1..])
  }

  lemma {:induction false} SplitsParts(ps: seq<Padded>)
    requires forall k :: 0 <= k < |ps| ==> IsPadded(ps[k])
    ensures CommaParts(PartsText(ps), Code, 0, []) == Texts(ps)
  {
    if ps != [] {
      hide IsPadded, PaddedText;
      var t := PaddedText(ps[0]);
      if |ps| == 1 {
        GatherPadded(ps[0], "");
        assert t + "" == t && [t] + [] == [t] && ps[1..] == [];
      } else {
        var more := PartsText(ps[1..]);
        GatherPadded(ps[0], "," + more);
        assert ("," + more)[1..] == more;
        SplitsParts(ps[1..]);
      }
    }
  }

  /** One entry of the list. */
  lemma GatherOne(p: Padded, more: seq<string>, ty: Option<string>, options: seq<(string, string)>)
    requires IsPadded(p)
    ensures GatherOptions([PaddedText(p)] + more, ty, options) ==
      GatherOptions(more, if p.part.TypeIs? then Some(p.part.value) else ty, options + OptionsOf([p]))
  {
    hide GatherOptions, StartsWithKw, PaddedText, Trim, IsPart, OptionsOf;
    GatherPadded(p, "");
    OptionsOfOne(p);
    var all, t := [PaddedText(p)] + more, PartText(p.part);
    assert all[1..] == more && all[0] == PaddedText(p);
    assert options + [] == options;
    match p.part {
      case TypeIs(_, _, _, _, _, _) => TypeStep(p.part); GatherTypePart(all, ty, options);
      case ReadOnly(_) => ReadOnlyStep(p.part); GatherReadOnly(all, ty, options);
      case Pair(_, _, _, _, _) => PairStep(p.part); GatherKeyValue(all, ty, options);
      case Ignored(_) => IgnoredStep(p.part); GatherNothing(all, ty, options);
    }
  }

  lemma OptionsOfOne(p: Padded)
    ensures OptionsOf([p]) == match p.part
      case ReadOnly(_) => [READ_ONLY_OPTION]
      case Pair(k, _, _, _, v) => [(k, v)]
      case _ => []
  {
    assert [p][1..] == [];
  }

  lemma OptionsOfCons(ps: seq<Padded>)
    requires ps != []
    ensures OptionsOf(ps) == OptionsOf([ps[0]]) + OptionsOf(ps[1..])
  {
    assert [ps[0]][1..] == [];
  }

  lemma GatherTypePart(parts: seq<string>, ty: Option<string>, options: seq<(string, string)>)
    requires parts != [] && StartsWithKw(Trim(parts[0]), "TYPE") && |Trim(parts[0])| >= 4
    ensures var raw := Trim(Trim(parts[0])[4..]);
      GatherOptions(parts, ty, options) == GatherOptions(parts[1..],
        Some(Unquoted(Trim(if raw != [] && raw[0] == '=' then raw[1..] else raw))), options)
  {}

  lemma GatherNothing(parts: seq<string>, ty: Option<string>, options: seq<(string, string)>)
    requires parts != []
    requires var part := Trim(parts[0]);
      !StartsWithKw(part, "TYPE") && !StartsWithKw(part, "READ_ONLY") && IndexOf(part, '=') == |part|
    ensures GatherOptions(parts, ty, options) == GatherOptions(parts[1..], ty, options)
  {}

  lemma TypeStep(p: Part)
    requires p.TypeIs? && IsPart(p)
    ensures var t := PartText(p);
      && StartsWithKw(t, "TYPE") && |t| >= 4
      && var raw := Trim(t[4..]);
         Unquoted(Trim(if raw != [] && raw[0] == '=' then raw[1..] else raw)) == p.value
  {
    hide StartsWithKw, Trim, TrimStart, Unquoted, Shows;
    var rest := p.before + ((if p.equals then "=" + p.behind else "") + p.shown);
    ShownIsTight(p.shown, p.value);
    TypeBoundary(p);
    KeywordAnyCase(p.word, "TYPE", rest);
    if p.equals {
      var w := "=" + p.behind + p.shown;
      assert IsTight(w) && rest == p.before + w + "";
      TrimPadded(p.before, w, "");
      assert w[1..] == p.behind + p.shown + "";
      TrimPadded(p.behind, p.shown, "");
    } else {
      assert rest == p.before + p.shown + "" && p.shown == "" + p.shown + "";
      TrimPadded(p.before, p.shown, "");
      TrimPadded("", p.shown, "");
    }
  }

  lemma TypeBoundary(p: Part)
    requires p.TypeIs? && IsPart(p)
    ensures var rest := p.before + ((if p.equals then "=" + p.behind else "") + p.shown);
      rest != "" && !IsWord(rest[0])
  {
    if p.before != "" { SpaceIsNoWord(p.before[0]); }
  }

  lemma ReadOnlyStep(p: Part)
    requires p.ReadOnly? && IsPart(p)
    ensures !StartsWithKw(p.word, "TYPE") && StartsWithKw(p.word, "READ_ONLY")
  {
    hide StartsWithKw;
    KeywordIsWord(p.word, "READ_ONLY");
    assert p.word + "" == p.word;
    KeywordAnyCase(p.word, "READ_ONLY", "");
    assert Lower(p.word[0]) == 'r';
    KeywordDiffers(p.word, "TYPE");
  }

  lemma {:induction false} FirstEquals(w: string, rest: string)
    requires forall k :: 0 <= k < |w| ==> w[k] != '='
    ensures IndexOf(w + ("=" + rest), '=') == |w| && IndexOf(w, '=') == |w|
  {
    var s := w + ("=" + rest);
    assert s[|w|] == '=' && forall k :: 0 <= k < |w| ==> s[k] == w[k];
  }

  lemma PairStep(p: Part)
    requires p.Pair? && IsPart(p)
    ensures var t := PartText(p); var eq := IndexOf(t, '=');
      && !StartsWithKw(t, "TYPE") && !StartsWithKw(t, "READ_ONLY") && eq < |t|
      && Trim(t[..eq]) == p.key && Unquoted(Trim(t[eq + 1..])) == p.value
  {
    hide StartsWithKw, Trim, TrimStart, Unquoted, Shows, IndexOf;
    var t, tail := PartText(p), p.before + ("=" + (p.behind + p.shown));
    if p.before != "" { SpaceIsNoWord(p.before[0]); }
    assert !IsWord(tail[0]);
    OtherWordAhead(p.key, tail, "TYPE");
    OtherWordAhead(p.key, tail, "READ_ONLY");
    ShownIsTight(p.shown, p.value);
    var w := p.key + p.before;
    assert t == w + ("=" + (p.behind + p.shown));
    FirstEquals(w, p.behind + p.shown);
    assert t[..|w|] == "" + p.key + p.before && t[|w| + 1..] == p.behind + p.shown + "";
    SpaceIsNoWord(p.key[0]);
    SpaceIsNoWord(p.key[|p.key| - 1]);
    TrimPadded("", p.key, p.before);
    TrimPadded(p.behind, p.shown, "");
  }

  lemma IgnoredStep(p: Part)
    requires p.Ignored? && IsPart(p)
    ensures !StartsWithKw(p.word, "TYPE") && !StartsWithKw(p.word, "READ_ONLY") && IndexOf(p.word, '=') == |p.word|
  {
    hide StartsWithKw;
    assert p.word + "" == p.word;
    OtherWordAhead(p.word, "", "TYPE");
    OtherWordAhead(p.word, "", "READ_ONLY");
    FirstEquals(p.word, "");
  }

  lemma {:induction false} GatherAll(ps: seq<Padded>, ty: Option<string>, options: seq<(string, string)>)
    requires forall k :: 0 <= k < |ps| ==> IsPadded(ps[k])
    ensures GatherOptions(Texts(ps), ty, options) ==
      (if TypeOf(ps).Some? then TypeOf(ps) else ty, options + OptionsOf(ps))
  {
    hide GatherOptions, IsPadded, PaddedText;
    if ps == [] {
      GatherNoParts(ty, options);
      assert options + [] == options;
    } else {
      hide OptionsOf, TypeOf;
      OptionsOfCons(ps);
      var p, ty' := ps[0], if ps[0].part.TypeIs? then Some(ps[0].part.value) else ty;
      GatherOne(p, Texts(ps[1..]), ty, options);
      GatherAll(ps[1..], ty', options + OptionsOf([p]));
      TypeOfCons(ps);
      assert options + OptionsOf([p]) + OptionsOf(ps[1..]) == options + OptionsOf(ps);
    }
  }

  lemma {:induction false} TypeOfCons(ps: seq<Padded>)
    requires ps != []
    ensures TypeOf(ps) == if TypeOf(ps[1..]).Some? then TypeOf(ps[1..])
                          else if ps[0].part.TypeIs? then Some(ps[0].part.value) else None
  {
    if |ps| > 1 {
      assert ps[1..][|ps| - 2] == ps[|ps| - 1];
      TypeOfCons(ps[..|ps| - 1]);
      assert ps[..|ps| - 1][1..] == ps[1..][..|ps| - 2];
    } else {
      assert ps[1..] == [] && ps[..0] == [];
    }
  }

  // ---------------------------------------------------------------------------
  // The statement
  // ---------------------------------------------------------------------------

  lemma ListReads(ps: seq<Padded>)
    requires forall k :: 0 <= k < |ps| ==> IsPadded(ps[k])
    ensures ParseOptionList("(" + PartsText(ps) + ")") ==
      match TypeOf(ps) case Some(ty) => Some((ty, OptionsOf(ps))) case None => None
  {
    hide CommaParts, GatherOptions, PartsText;
    var t := "(" + PartsText(ps) + ")";
    assert t[|t| - 1] == ')' && t[1..|t| - 1] == PartsText(ps);
    SplitsParts(ps);
    GatherAll(ps, None, []);
    assert [] + OptionsOf(ps) == OptionsOf(ps);
  }

  lemma TightAhead(g: string, t: string)
    requires Blank(g) && t != "" && !IsSpace(t[0])
    ensures TrimStart(g + t) == t
  {
    SkipBlank(g, t);
  }

  lemma TargetTextReads(l: Layout)
    requires IsLayout(l)
    ensures ParseTarget(TargetText(l)) ==
      match TypeOf(l.parts) case Some(ty) => Some((l.alias, ty, OptionsOf(l.parts))) case None => None
  {
    hide ParseOptionList, PartsText, StartsWithKw, ParseBareIdent, TrimStart;
    var list := "(" + PartsText(l.parts) + ")";
    var rest := l.alias + (l.gap4 + list);
    SpaceIsNoWord(l.gap3[0]);
    KeywordAnyCase(l.as_, "AS", l.gap3 + rest);
    SpaceIsNoWord(l.alias[0]);
    TightAhead(l.gap3, rest);
    if l.gap4 != "" { SpaceIsNoWord(l.gap4[0]); }
    IdentReads(l.alias, l.gap4 + list);
    TightAhead(l.gap4, list);
    ListReads(l.parts);
  }

  lemma GuardReads(g: Option<IfNotExists>, q: string)
    requires (g.Some? ==> IsGuard(g.value)) && q != "" && q[0] == '\''
    ensures ParseIfNotExists(GuardText(g, q)) == Some((g.Some?, q))
  {
    hide StartsWithKw, TrimStart, EqIgnoreCase;
    if g.Some? {
      var v := g.value;
      var three := v.e + (v.gap3 + q);
      var two := v.n + (v.gap2 + three);
      SpaceIsNoWord(v.gap1[0]);
      SpaceIsNoWord(v.gap2[0]);
      if v.gap3 != "" { SpaceIsNoWord(v.gap3[0]); }
      WordAhead(v.e, "EXISTS", v.gap3 + q);
      WordAhead(v.n, "NOT", v.gap2 + three);
      KeywordAnyCase(v.i, "IF", v.gap1 + two);
      KeywordAnyCase(v.n, "NOT", v.gap2 + three);
      KeywordAnyCase(v.e, "EXISTS", v.gap3 + q);
      TightAhead(v.gap1, two);
      TightAhead(v.gap2, three);
      TightAhead(v.gap3, q);
      KeywordLength(v.i, "IF");
      KeywordLength(v.n, "NOT");
      KeywordLength(v.e, "EXISTS");
      TightAhead("", two);
      TightAhead("", three);
    } else {
      KeywordDiffers(q, "IF");
    }
  }

  lemma KeywordLength(w: string, kw: string)
    requires EqIgnoreCase(w, kw)
    ensures |w| == |kw|
  {}

  lemma WordAhead(w: string, kw: string, rest: string)
    requires EqIgnoreCase(w, kw) && kw != "" && forall k :: 0 <= k < |kw| ==> IsWord(kw[k])
    ensures w + rest != "" && !IsSpace((w + rest)[0])
  {
    KeywordIsWord(w, kw);
    SpaceIsNoWord(w[0]);
  }

  lemma StripsEnd(l: Layout)
    requires IsLayout(l)
    ensures Trim(StripTrailingSemicolon(AttachText(l))) == BodyText(l)
  {
    hide Trim, TrimStart, BodyText, EqIgnoreCase;
    var b := BodyText(l);
    BodyEnds(l);
    TrimPadded("", b, "");
    assert "" + b + "" == b;
    if l.semicolon {
      var w := b + (l.trail + ";");
      assert w[0] == b[0] && IsTight(w) && AttachText(l) == l.lead + w + l.last;
      TrimPadded(l.lead, w, l.last);
      assert w[..|w| - 1] == b + l.trail;
      DropBlank(b, l.trail);
      TightEnd(b);
    } else {
      assert AttachText(l) == l.lead + b + (l.trail + l.last);
      TrimPadded(l.lead, b, l.trail + l.last);
      TightEnd(b);
    }
  }

  lemma TightEnd(b: string)
    requires IsTight(b)
    ensures TrimEnd(b) == b
  {}

  lemma BodyEnds(l: Layout)
    requires IsLayout(l)
    ensures var b := BodyText(l); IsTight(b) && b[|b| - 1] == ')'
  {
    hide PartsText, GuardText, IsSpace;
    var target := TargetText(l);
    assert target != "" && target[|target| - 1] == ')';
    var q := Quote(l.dsn) + (l.gap2 + target);
    GuardEnds(l.guard, q);
    var rest := l.gap1 + GuardText(l.guard, q);
    assert BodyText(l) == l.attach + rest;
    WordAhead(l.attach, "ATTACH", rest);
    ParenIsNoSpace();
  }

  lemma ParenIsNoSpace()
    ensures !IsSpace(')')
  {}

  lemma GuardEnds(g: Option<IfNotExists>, q: string)
    requires q != ""
    ensures var t := GuardText(g, q); t != "" && t[|t| - 1] == q[|q| - 1]
  {}

  /** Whatever the layout, the statement is read as its dsn, byte by byte, its alias, the last type
      it names, and its flags and pairs in order; without a type it is not recognised. */
  lemma AnyLayoutReads(l: Layout)
    requires IsLayout(l)
    ensures ParseAttach(AttachText(l)) ==
      match TypeOf(l.parts)
      case None => None
      case Some(ty) =>
        Some(AttachSpec(BytesAsChars(l.dsn), l.alias, ty, OptionsOf(l.parts), l.guard.Some?,
          exists k | 0 <= k < |l.parts| :: l.parts[k].part.ReadOnly?))
  {
    hide StartsWithKw, TrimStart, Trim, StripTrailingSemicolon, Doubled, ParseTarget, ParseIfNotExists, TargetText,
        AfterOpeningQuote, HasReadOnly, AttachText, GuardText, EqIgnoreCase, IsPadded, IsGuard;
    var target := TargetText(l);
    StripsEnd(l);
    var after := l.gap2 + target;
    var q := Quote(l.dsn) + after;
    assert q[0] == '\'' && q[1..] == Doubled(l.dsn) + "'" + after;
    TargetStarts(l);
    GuardStarts(l, q);
    var rest := l.gap1 + GuardText(l.guard, q);
    KeywordLength(l.attach, "ATTACH");
    KeywordAnyCase(l.attach, "ATTACH", rest);
    GuardReads(l.guard, q);
    if l.gap2 != "" { SpaceIsNotQuote(l.gap2[0]); }
    LiteralReads(l.dsn, after);
    TightAhead(l.gap2, target);
    TargetTextReads(l);
    ReadOnlyExactly(l.parts);
  }

  lemma SpaceIsNotQuote(c: char)
    ensures IsSpace(c) ==> c != '\''
  {}

  lemma TargetStarts(l: Layout)
    requires IsLayout(l)
    ensures var t := TargetText(l); t != "" && !IsSpace(t[0]) && t[0] != '\''
  {
    hide PartsText;
    KeywordIsWord(l.as_, "AS");
    SpaceIsNoWord(l.as_[0]);
    assert TargetText(l)[0] == l.as_[0];
  }

  lemma GuardStarts(l: Layout, q: string)
    requires IsLayout(l) && q != "" && q[0] == '\''
    ensures var rest := l.gap1 + GuardText(l.guard, q);
      rest != "" && !IsWord(rest[0]) && TrimStart(rest) == GuardText(l.guard, q)
  {
    hide TrimStart, EqIgnoreCase;
    if l.gap1 != "" { SpaceIsNoWord(l.gap1[0]); }
    if l.guard.Some? {
      var g := l.guard.value;
      WordAhead(g.i, "IF", g.gap1 + (g.n + (g.gap2 + (g.e + (g.gap3 + q)))));
    }
    TightAhead(l.gap1, GuardText(l.guard, q));
  }

  lemma {:induction false} ReadOnlyExactly(ps: seq<Padded>)
    requires forall k :: 0 <= k < |ps| ==> IsPadded(ps[k])
    ensures HasReadOnly(OptionsOf(ps)) <==> exists k | 0 <= k < |ps| :: ps[k].part.ReadOnly?
  {
    hide EqIgnoreCase;
    if ps != [] {
      ReadOnlyExactly(ps[1..]);
      var (os, more) := (OptionsOf(ps), OptionsOf(ps[1..]));
      ReadOnlyKey();
      assert forall k :: 0 < k < |ps| ==> ps[k] == ps[1..][k - 1];
      assert os == OptionsOf([ps[0]]) + more by { assert [ps[0]][1..] == []; }
      if HasReadOnly(more) {
        var k :| 0 <= k < |more| && EqIgnoreCase(more[k].0, "read_only");
        assert os[k + (|os| - |more|)] == more[k];
      }
      if HasReadOnly(os) {
        var k :| 0 <= k < |os| && EqIgnoreCase(os[k].0, "read_only");
        if k >= |os| - |more| { assert more[k - (|os| - |more|)] == os[k]; } else { PairKey(ps[0]); }
      }
      if ps[0].part.ReadOnly? { assert os[0].0 == "read_only"; }
    }
  }

  lemma ReadOnlyKey()
    ensures EqIgnoreCase("read_only", "read_only")
  {}

  lemma PairKey(p: Padded)
    requires IsPadded(p)
    ensures p.part.Pair? ==> !EqIgnoreCase(p.part.key, "read_only")
  {
    if p.part.Pair? { EitherCase(p.part.key); }
  }

  lemma EitherCase(k: string)
    ensures EqIgnoreCase(k, "read_only") <==> EqIgnoreCase(k, "READ_ONLY")
  {
    assert forall j :: 0 <= j < 9 ==> Lower("READ_ONLY"[j]) == Lower("read_only"[j]);
  }
}
