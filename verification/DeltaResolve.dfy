/** From a guest directory to its host mount, and from an active file set to the SQL that
    reads it (crates/ducklink-host/src/delta_rewrite.rs:193-288). */
module DeltaResolve {
  import opened Wrappers
  import opened Chars
  import opened SqlText
  import opened DeltaLog

  // ---------------------------------------------------------------------------
  // Mounts
  // ---------------------------------------------------------------------------

  /** A preopened directory: its path on the host and its name in the guest. */
  datatype Preopen = Preopen(host: string, guest: string)

  function TrimSlashes(s: string): string {
    if s != [] && s[|s| - 1] == '/' then TrimSlashes(s[..|s| - 1]) else s
  }

  /** A mount's guest name without trailing slashes; "." mounts everything. */
  function GuestPrefix(guest: string): string {
    var g := TrimSlashes(guest);
    if g == "." then "" else g
  }

  /** The part of `dir` below guest path `g`, whole path components only. */
  function Below(dir: string, g: string): Option<string> {
    if g == "" then Some(dir)
    else if dir == g then Some("")
    else if |g| < |dir| && dir[..|g|] == g && dir[|g|] == '/' then Some(dir[|g| + 1..])
    else None
  }

  datatype Resolved = Resolved(host: string, rel: string, guestDir: string)

  predicate Mounted(dir: string, p: Preopen) {
    Below(TrimSlashes(dir), GuestPrefix(p.guest)).Some?
  }

  function Depth(p: Preopen): nat {
    |GuestPrefix(p.guest)|
  }

  /** Of the first `n` mounts, mount `k` is the deepest that covers `dir`, and the first of
      equally deep ones. */
  predicate Deepest(dir: string, preopens: seq<Preopen>, n: nat, k: nat)
    requires k < n <= |preopens|
  {
    Mounted(dir, preopens[k])
    && forall j | 0 <= j < n && Mounted(dir, preopens[j]) ::
         Depth(preopens[j]) < Depth(preopens[k]) || (Depth(preopens[j]) == Depth(preopens[k]) && k <= j)
  }

  function Resolution(dir: string, p: Preopen): Resolved
    requires Mounted(dir, p)
  {
    Resolved(p.host, Below(TrimSlashes(dir), GuestPrefix(p.guest)).value, TrimSlashes(dir))
  }

  /** Resolution fails exactly when no mount covers the directory, and otherwise takes the
      deepest one; the caller joins `rel` to the host path. */
  method ResolveGuestDir(dir: string, preopens: seq<Preopen>) returns (r: Option<Resolved>)
    ensures r.None? <==> forall k :: 0 <= k < |preopens| ==> !Mounted(dir, preopens[k])
    ensures r.Some? ==>
      exists k :: 0 <= k < |preopens| && Deepest(dir, preopens, |preopens|, k) && r.value == Resolution(dir,
          preopens[k])
  {
    hide GuestPrefix, Below;
    var best: Option<nat> := None;
    for k := 0 to |preopens|
      invariant best.None? ==> forall j :: 0 <= j < k ==> !Mounted(dir, preopens[j])
      invariant best.Some? ==> best.value < k && Deepest(dir, preopens, k, best.value)
    {
      if Mounted(dir, preopens[k]) && (best.None? || Depth(preopens[k]) > Depth(preopens[best.value])) {
        best := Some(k);
      }
    }
    if best.None? { return None; }
    return Some(Resolution(dir, preopens[best.value]));
  }

  // ---------------------------------------------------------------------------
  // The replacement SQL
  // ---------------------------------------------------------------------------

  function FullPath(guest: string, file: string): string {
    if guest == "" then file else guest + "/" + file
  }

  function FullPaths(guest: string, files: seq<string>): seq<string> {
    if files == [] then [] else [FullPath(guest, files[0])] + FullPaths(guest, files[1..])
  }

  function QuotedList(paths: seq<string>): string
    requires paths != []
  {
    if |paths| == 1 then Quote(paths[0]) else Quote(paths[0]) + ", " + QuotedList(paths[1..])
  }

  function BuildReadParquet(guestDir: string, files: seq<string>): Option<string> {
    if files == [] then None
    else Some("(SELECT * FROM read_parquet([" + QuotedList(FullPaths(TrimSlashes(guestDir), files)) + "]))")
  }

  /** What a comma-splitting reader makes of the parts of a literal list. */
  function UnquoteAll(parts: seq<string>): seq<Option<string>> {
    if parts == [] then [] else [StripQuotes(Trim(parts[0]))] + UnquoteAll(parts[1..])
  }

  function AllSome(paths: seq<string>): seq<Option<string>> {
    if paths == [] then [] else [Some(paths[0])] + AllSome(paths[1..])
  }

  lemma UnquoteOne(lead: string, p: string)
    requires lead == "" || lead == " "
    ensures StripQuotes(Trim(lead + Quote(p))) == Some(p) && !Blank(lead + Quote(p))
  {
    TrimTight(lead, Quote(p));
    StripQuote(p);
  }

  /** The list holds exactly the given paths, in order, whatever quotes, commas or brackets
      they contain. */
  lemma {:induction false} QuotedListReads(paths: seq<string>, lead: string)
    requires paths != [] && (lead == "" || lead == " ")
    ensures UnquoteAll(CommaParts(QuotedList(paths), Code, 0, lead)) == AllSome(paths)
  {
    hide Quote, StripQuotes, Trim, Blank;
    var q, p := Quote(paths[0]), lead + Quote(paths[0]);
    UnquoteOne(lead, paths[0]);
    if |paths| == 1 {
      GatherLiteral(paths[0], "", 0, lead);
      assert q + "" == q && CommaParts("", Code, 0, p) == [p];
      assert [p][1..] == [] && paths[1..] == [];
    } else {
      hide CommaParts;
      var more := QuotedList(paths[1..]);
      assert QuotedList(paths) == q + (", " + more);
      GatherLiteral(paths[0], ", " + more, 0, lead);
      LeadBlank(more);
      QuotedListReads(paths[1..], " ");
      var tail := CommaParts(more, Code, 0, " ");
      assert ([p] + tail)[1..] == tail;
    }
  }

  lemma FullPathsNonEmpty(guest: string, files: seq<string>)
    requires files != []
    ensures FullPaths(guest, files) != []
  {}

  /** The replacement names exactly the active files of the table: nothing is built for an
      empty set, and otherwise the list reads back as the full paths in log order. */
  lemma ReplacementNamesActiveFiles(guestDir: string, lines: seq<Line>)
    ensures BuildReadParquet(guestDir, ActivePaths(lines)).None? <==> ActivePaths(lines) == []
    ensures ActivePaths(lines) != [] ==>
      var paths := FullPaths(TrimSlashes(guestDir), ActivePaths(lines));
      && paths != []
      && BuildReadParquet(guestDir, ActivePaths(lines)) ==
           Some("(SELECT * FROM read_parquet([" + QuotedList(paths) + "]))")
      && UnquoteAll(CommaParts(QuotedList(paths), Code, 0, "")) == AllSome(paths)
  {
    if ActivePaths(lines) != [] {
      FullPathsNonEmpty(TrimSlashes(guestDir), ActivePaths(lines));
      QuotedListReads(FullPaths(TrimSlashes(guestDir), ActivePaths(lines)), "");
    }
  }
}
