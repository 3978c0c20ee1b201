/** The whole rewrite of `delta_scan` calls: find, resolve to a mount, replay the table's log, name
    its active files (crates/ducklink-host/src/delta_rewrite.rs:265-288). */
module DeltaEndToEnd {
  import opened Wrappers
  import opened Chars
  import opened SqlText
  import opened DeltaLog
  import opened DeltaRewrite
  import opened DeltaResolve
  import DeltaTopLevel
  import Utf8

  /** The log of the table at a path below a host directory, if it can be read. */
  type LogReader = (string, string) -> Option<seq<Line>>

  /** The mount of a directory: the first of the deepest that cover it. */
  function Mount(dir: string, preopens: seq<Preopen>, n: nat): (k: Option<nat>)
    requires n <= |preopens|
    ensures k.Some? ==> k.value < n
  {
    if n == 0 then None else
    var before := Mount(dir, preopens, n - 1);
    if Deeper(dir, preopens, n - 1, before) then Some(n - 1) else before
  }

  predicate Deeper(dir: string, preopens: seq<Preopen>, j: nat, before: Option<nat>)
    requires j < |preopens| && (before.Some? ==> before.value < |preopens|)
  {
    Mounted(dir, preopens[j]) && (before.None? || Depth(preopens[j]) > Depth(preopens[before.value]))
  }

  /** The mount among the first `n`, if any covers the directory. */
  ghost predicate MountOf(dir: string, preopens: seq<Preopen>, n: nat, k: Option<nat>)
    requires n <= |preopens|
  {
    match k
    case None => forall j :: 0 <= j < n ==> !Mounted(dir, preopens[j])
    case Some(i) => i < n && Deepest(dir, preopens, n, i)
  }

  lemma {:induction false} MountIsDeepest(dir: string, preopens: seq<Preopen>, n: nat)
    requires n <= |preopens|
    ensures MountOf(dir, preopens, n, Mount(dir, preopens, n))
  {
    hide Mounted, Depth;
    if n > 0 { MountIsDeepest(dir, preopens, n - 1); }
  }

  function Resolve(dir: string, preopens: seq<Preopen>): Option<Resolved> {
    MountIsDeepest(dir, preopens, |preopens|);
    match Mount(dir, preopens, |preopens|)
    case None => None
    case Some(k) => Some(Resolution(dir, preopens[k]))
  }

  /** What a directory argument becomes. */
  function Replacement(dir: string, preopens: seq<Preopen>, readLog: LogReader): Option<string> {
    match Resolve(dir, preopens)
    case None => None
    case Some(r) =>
      match readLog(r.host, r.rel)
      case None => None
      case Some(lines) => BuildReadParquet(r.guestDir, ActivePaths(lines))
  }

  lemma MountIsUnique(dir: string, preopens: seq<Preopen>, k: nat)
    requires k < |preopens| && Deepest(dir, preopens, |preopens|, k)
    ensures Mount(dir, preopens, |preopens|) == Some(k)
  {
    hide Mounted, Depth, Mount;
    MountIsDeepest(dir, preopens, |preopens|);
    assert Mounted(dir, preopens[k]);
  }

  /** The code's way there. */
  method ReplaceDir(dir: string, preopens: seq<Preopen>, readLog: LogReader) returns (r: Option<string>)
    ensures r == Replacement(dir, preopens, readLog)
  {
    hide Mount, Resolution, Mounted, Depth;
    var resolved := ResolveGuestDir(dir, preopens);
    if resolved.None? {
      NoMount(dir, preopens);
      return None;
    }
    ghost var k: nat :| k < |preopens| && Deepest(dir, preopens, |preopens|, k)
      && resolved.value == Resolution(dir, preopens[k]);
    MountIsUnique(dir, preopens, k);
    var log := readLog(resolved.value.host, resolved.value.rel);
    if log.None? { return None; }
    var files := ActiveFiles(log.value);
    r := BuildReadParquet(resolved.value.guestDir, files);
  }

  lemma NoMount(dir: string, preopens: seq<Preopen>)
    requires forall k :: 0 <= k < |preopens| ==> !Mounted(dir, preopens[k])
    ensures Mount(dir, preopens, |preopens|).None?
  {
    hide Mounted, Depth, Mount;
    MountIsDeepest(dir, preopens, |preopens|);
  }

  /** The active files of the table a directory argument stands for. */
  ghost predicate TableOf(dir: string, preopens: seq<Preopen>, readLog: LogReader, lines: seq<Line>) {
    Resolve(dir, preopens).Some?
      && readLog(Resolve(dir, preopens).value.host, Resolve(dir, preopens).value.rel) == Some(lines)
  }

  /** The text names exactly these paths, in order. */
  ghost predicate NamesPaths(sql: string, paths: seq<string>) {
    && paths != []
    && sql == "(SELECT * FROM read_parquet([" + QuotedList(paths) + "]))"
    && UnquoteAll(CommaParts(QuotedList(paths), Code, 0, "")) == AllSome(paths)
  }

  /** A call is replaced exactly when its directory is mounted, its log can be read and some file
      is active; and then by the files whose last action is an add, below the directory as
      written, in the order of the log. */
  lemma ReplacementNamesTheTable(dir: string, preopens: seq<Preopen>, readLog: LogReader)
    ensures Replacement(dir, preopens, readLog).Some? <==>
      exists lines, p :: TableOf(dir, preopens, readLog, lines) && LastActionIsAdd(lines, p)
    ensures forall lines :: TableOf(dir, preopens, readLog, lines) && Replacement(dir, preopens, readLog).Some? ==>
      && NamesPaths(Replacement(dir, preopens, readLog).value, FullPaths(TrimSlashes(dir), ActivePaths(lines)))
      && forall p :: p in ActivePaths(lines) <==> LastActionIsAdd(lines, p)
  {
    hide ActivePaths, LastActionIsAdd, QuotedList, FullPaths, Mount, CommaParts;
    if Resolve(dir, preopens).Some? && readLog(Resolve(dir, preopens).value.host,
        Resolve(dir, preopens).value.rel).Some? {
      var lines := readLog(Resolve(dir, preopens).value.host, Resolve(dir, preopens).value.rel).value;
      Names(dir, preopens, readLog, lines);
      forall p ensures p in ActivePaths(lines) <==> LastActionIsAdd(lines, p) { ActiveExactly(lines, p); }
      if ActivePaths(lines) != [] { assert LastActionIsAdd(lines, ActivePaths(lines)[0]); }
    }
  }

  lemma {:induction false} TrimTwice(s: string)
    ensures TrimSlashes(TrimSlashes(s)) == TrimSlashes(s)
  {
    if s != [] && s[|s| - 1] == '/' { TrimTwice(s[..|s| - 1]); }
  }

  lemma Names(dir: string, preopens: seq<Preopen>, readLog: LogReader, lines: seq<Line>)
    requires TableOf(dir, preopens, readLog, lines)
    ensures Replacement(dir, preopens, readLog).Some? <==> ActivePaths(lines) != []
    ensures ActivePaths(lines) != [] ==>
      NamesPaths(Replacement(dir, preopens, readLog).value, FullPaths(TrimSlashes(dir), ActivePaths(lines)))
  {
    hide ActivePaths, QuotedList, FullPaths, Mount, CommaParts, BuildReadParquet;
    TrimTwice(dir);
    ReplacementNamesActiveFiles(TrimSlashes(dir), lines);
  }

  /** The method that rewrites a statement. */
  method RewriteSql(s: string, preopens: seq<Preopen>, readLog: LogReader) returns (out: string)
    ensures forall k :: 0 <= k < |Calls(s, 0)| ==> Calls(s, 0)[k].start <= Calls(s, 0)[k].end <= |s|
    ensures InOrder(s, Calls(s, 0), 0)
    ensures var resolve := dir => Replacement(dir, preopens, readLog);
      out == Interleave(Gaps(s, Calls(s, 0), 0), Replacements(s, Calls(s, 0), resolve))
  {
    out := RewriteDeltaScan(s, dir => Replacement(dir, preopens, readLog));
  }

  lemma {:induction false} ReplacementAt(s: string, calls: seq<Call>, resolve: string -> Option<string>, k: nat)
    requires (forall j :: 0 <= j < |calls| ==> calls[j].start <= calls[j].end <= |s|) && k < |calls|
    ensures Replacements(s, calls, resolve)[k] ==
      match resolve(calls[k].dir) case Some(r) => r case None => s[calls[k].start..calls[k].end]
  {
    if k > 0 { ReplacementAt(s, calls[1..], resolve, k - 1); }
  }

  /** Each call found is left as it stands, or becomes the active files of the table it names. */
  lemma EachCall(s: string, preopens: seq<Preopen>, readLog: LogReader, k: nat)
    requires k < |Calls(s, 0)|
    ensures forall j :: 0 <= j < |Calls(s, 0)| ==> Calls(s, 0)[j].start <= Calls(s, 0)[j].end <= |s|
    ensures var resolve := dir => Replacement(dir, preopens, readLog);
      var (c, text) := (Calls(s, 0)[k], Replacements(s, Calls(s, 0), resolve)[k]);
      && (forall lines :: TableOf(c.dir, preopens, readLog, lines) && ActivePaths(lines) != [] ==>
            NamesPaths(text, FullPaths(TrimSlashes(c.dir), ActivePaths(lines))))
      && ((forall lines :: TableOf(c.dir, preopens, readLog, lines) ==> ActivePaths(lines) == []) ==>
            text == s[c.start..c.end])
  {
    hide Calls, Replacements, ActivePaths, MatchAt, NamesPaths;
    CallsAreOrdered(s, 0);
    var calls := Calls(s, 0);
    var resolve := dir => Replacement(dir, preopens, readLog);
    ReplacementAt(s, calls, resolve, k);
    var dir := calls[k].dir;
    if lines :| TableOf(dir, preopens, readLog, lines) {
      Names(dir, preopens, readLog, lines);
    }
  }

  /** So a comment that looks like a call of a readable table is rewritten. */
  lemma CommentIsRewritten(dir: string, preopens: seq<Preopen>, readLog: LogReader)
    requires Utf8.AllAscii(dir)
    ensures var s := "--delta_scan(" + (Quote(dir) + (")" + ""));
      && (forall k :: 0 <= k < |Calls(s, 0)| ==> Calls(s, 0)[k].start <= Calls(s, 0)[k].end <= |s|)
      && InOrder(s, Calls(s, 0), 0)
      && Interleave(Gaps(s, Calls(s, 0), 0), Replacements(s, Calls(s, 0), d => Replacement(d, preopens, readLog))) ==
           "--" + (match Replacement(dir, preopens, readLog) case Some(sql) => sql case None => s[2..])
  {
    hide MatchAt, Quote, Replacement, Calls;
    var s := "--delta_scan(" + (Quote(dir) + (")" + ""));
    DeltaTopLevel.FoundInsideComment(dir);
    Utf8.BytesAsCharsIsIdentity(dir);
    InputIsGapsAndCalls(s);
    OneGap(s, Calls(s, 0), d => Replacement(d, preopens, readLog));
    assert s[0..2] == "--" && s[|s|..] == "";
  }

  lemma OneGap(s: string, calls: seq<Call>, resolve: string -> Option<string>)
    requires |calls| == 1 && InOrder(s, calls, 0)
    ensures var c := calls[0];
      Interleave(Gaps(s, calls, 0), Replacements(s, calls, resolve)) ==
        s[0..c.start] + (match resolve(c.dir) case Some(r) => r case None => s[c.start..c.end]) + s[c.end..]
  {
    var c := calls[0];
    assert calls[1..] == [];
    assert Gaps(s, calls, 0) == [s[0..c.start], s[c.end..]];
    assert [s[0..c.start], s[c.end..]][1..] == [s[c.end..]];
  }
}
