/** Replaying a Delta log into its active file set
    (crates/ducklink-host/src/delta_rewrite.rs:36-71). */
module DeltaLog {
  import opened Wrappers

  /** What one log line says: the path it adds and the path it removes. Lines that are blank
      or not JSON objects say neither. */
  datatype Line = Line(add: Option<string>, remove: Option<string>)

  // ---------------------------------------------------------------------------
  // The replay
  // ---------------------------------------------------------------------------

  datatype Replay = Replay(order: seq<string>, active: set<string>)

  function AfterLine(r: Replay, line: Line): Replay {
    var added := match line.add
      case Some(p) => if p in r.active then r else Replay(r.order + [p], r.active + {p})
      case None => r;
    match line.remove
    case Some(p) => added.(active := added.active - {p})
    case None => added
  }

  function Replayed(lines: seq<Line>): Replay {
    if lines == [] then Replay([], {}) else AfterLine(Replayed(lines[..|lines| - 1]), lines[|lines| - 1])
  }

  function Keep(order: seq<string>, active: set<string>): seq<string> {
    if order == [] then [] else
    var last := order[|order| - 1];
    Keep(order[..|order| - 1], active) + (if last in active then [last] else [])
  }

  function ActivePaths(lines: seq<Line>): seq<string> {
    Keep(Replayed(lines).order, Replayed(lines).active)
  }

  method ActiveFiles(lines: seq<Line>) returns (paths: seq<string>)
    ensures paths == ActivePaths(lines)
  {
    var order, active := [], {};
    for k := 0 to |lines|
      invariant Replay(order, active) == Replayed(lines[..k])
    {
      assert lines[..k + 1][..k] == lines[..k];
      var line := lines[k];
      if line.add.Some? {
        var path := line.add.value;
        if path !in active {
          active := active + {path};
          order := order + [path];
        }
      }
      if line.remove.Some? {
        active := active - {line.remove.value};
      }
    }
    assert lines[..|lines|] == lines;
    paths := [];
    for k := 0 to |order|
      invariant paths == Keep(order[..k], active)
    {
      assert order[..k + 1][..k] == order[..k];
      if order[k] in active { paths := paths + [order[k]]; }
    }
    assert order[..|order|] == order;
  }

  // ---------------------------------------------------------------------------
  // What it means, path by path
  // ---------------------------------------------------------------------------

  /** The last action on `p` is an add; within one line the remove comes after the add. */
  predicate LastActionIsAdd(lines: seq<Line>, p: string) {
    lines != [] &&
    var line := lines[|lines| - 1];
    line.remove != Some(p) && (line.add == Some(p) || LastActionIsAdd(lines[..|lines| - 1], p))
  }

  /** How often an add of `p` found it inactive. */
  function Activations(lines: seq<Line>, p: string): nat {
    if lines == [] then 0 else
    var before := lines[..|lines| - 1];
    Activations(before, p) + if lines[|lines| - 1].add == Some(p) && !LastActionIsAdd(before, p) then 1 else 0
  }

  /** Paths in the order of their first add. */
  function FirstAdds(lines: seq<Line>): seq<string> {
    if lines == [] then [] else
    var before := FirstAdds(lines[..|lines| - 1]);
    match lines[|lines| - 1].add
    case Some(p) => if p in before then before else before + [p]
    case None => before
  }

  lemma {:induction false} ReplayMeaning(lines: seq<Line>, p: string)
    ensures p in Replayed(lines).active <==> LastActionIsAdd(lines, p)
    ensures multiset(Replayed(lines).order)[p] == Activations(lines, p)
  {
    if lines != [] { ReplayMeaning(lines[..|lines| - 1], p); }
  }

  lemma {:induction false} KeepCounts(order: seq<string>, active: set<string>, p: string)
    ensures multiset(Keep(order, active))[p] == if p in active then multiset(order)[p] else 0
  {
    if order != [] {
      var before := order[..|order| - 1];
      KeepCounts(before, active, p);
      assert order == before + [order[|order| - 1]];
    }
  }

  /** A path is listed exactly as often as it was activated if its last action is an add, and
      not at all otherwise: a path that is added again after a remove is listed again. */
  lemma ListedAsOftenAsActivated(lines: seq<Line>, p: string)
    ensures multiset(ActivePaths(lines))[p] == if LastActionIsAdd(lines, p) then Activations(lines, p) else 0
  {
    ReplayMeaning(lines, p);
    KeepCounts(Replayed(lines).order, Replayed(lines).active, p);
  }

  lemma {:induction false} ActiveWasActivated(lines: seq<Line>, p: string)
    requires LastActionIsAdd(lines, p)
    ensures Activations(lines, p) >= 1
  {
    var before := lines[..|lines| - 1];
    if LastActionIsAdd(before, p) { ActiveWasActivated(before, p); }
  }

  /** The list holds exactly the paths whose last action is an add. */
  lemma ActiveExactly(lines: seq<Line>, p: string)
    ensures p in ActivePaths(lines) <==> LastActionIsAdd(lines, p)
  {
    ListedAsOftenAsActivated(lines, p);
    if LastActionIsAdd(lines, p) { ActiveWasActivated(lines, p); }
    assert p in ActivePaths(lines) <==> p in multiset(ActivePaths(lines));
  }

  ghost predicate OnceEach(xs: seq<string>) {
    forall p :: p in xs ==> multiset(xs)[p] == 1
  }

  lemma {:induction false} NoRepeatsCounts(xs: seq<string>)
    ensures NoRepeats(xs) <==> OnceEach(xs)
  {
    if xs != [] {
      var init, last := xs[..|xs| - 1], xs[|xs| - 1];
      assert xs == init + [last];
      NoRepeatsCounts(init);
      if NoRepeats(xs) {
        assert last !in init;
        forall p | p in xs ensures multiset(xs)[p] == 1 { assert p in init || p == last; }
      }
      if OnceEach(xs) {
        assert multiset(xs)[last] == 1 && last !in init;
        forall p | p in init ensures multiset(init)[p] == 1 { assert p in xs; }
      }
    }
  }

  ghost predicate ActivatedOnce(lines: seq<Line>) {
    forall p :: LastActionIsAdd(lines, p) ==> Activations(lines, p) == 1
  }

  /** The list is free of duplicates exactly when no active path was ever re-activated. */
  lemma DuplicateFreeExactlyWhen(lines: seq<Line>)
    ensures NoRepeats(ActivePaths(lines)) <==> ActivatedOnce(lines)
  {
    hide LastActionIsAdd, Activations, ActivePaths;
    var paths := ActivePaths(lines);
    NoRepeatsCounts(paths);
    if NoRepeats(paths) {
      forall p | LastActionIsAdd(lines, p) ensures Activations(lines, p) == 1 {
        ActiveExactly(lines, p);
        ListedAsOftenAsActivated(lines, p);
      }
    }
    if ActivatedOnce(lines) {
      forall p | p in paths ensures multiset(paths)[p] == 1 {
        ActiveExactly(lines, p);
        ListedAsOftenAsActivated(lines, p);
      }
    }
  }

  // ---------------------------------------------------------------------------
  // The order of the list
  // ---------------------------------------------------------------------------

  /** Each element where it first occurs. */
  function FirstOccurrences(xs: seq<string>): seq<string> {
    if xs == [] then [] else
    var before, last := FirstOccurrences(xs[..|xs| - 1]), xs[|xs| - 1];
    if last in before then before else before + [last]
  }

  lemma {:induction false} FirstOccurrencesHold(xs: seq<string>)
    ensures NoRepeats(FirstOccurrences(xs)) && forall p :: p in FirstOccurrences(xs) <==> p in xs
  {
    if xs != [] {
      FirstOccurrencesHold(xs[..|xs| - 1]);
      assert xs == xs[..|xs| - 1] + [xs[|xs| - 1]];
    }
  }

  lemma {:induction false} FirstAddsAreFirst(lines: seq<Line>)
    ensures FirstAdds(lines) == FirstOccurrences(Replayed(lines).order)
  {
    if lines != [] {
      var before, line := lines[..|lines| - 1], lines[|lines| - 1];
      var order := Replayed(before).order;
      FirstAddsAreFirst(before);
      FirstOccurrencesHold(order);
      if line.add.Some? {
        var p := line.add.value;
        ReplayMeaning(before, p);
        if LastActionIsAdd(before, p) {
          ActiveWasActivated(before, p);
          assert p in multiset(order) && p in order;
        } else {
          assert (order + [p])[..|order|] == order;
        }
      }
    }
  }

  /** Filtering sees no difference where what is kept occurs once. */
  lemma {:induction false} KeepFirst(xs: seq<string>, kept: set<string>)
    requires forall p :: p in kept ==> multiset(xs)[p] <= 1
    ensures Keep(xs, kept) == Keep(FirstOccurrences(xs), kept)
  {
    if xs != [] {
      var before, last := xs[..|xs| - 1], xs[|xs| - 1];
      assert xs == before + [last];
      KeepFirst(before, kept);
      FirstOccurrencesHold(before);
      var firsts := FirstOccurrences(before);
      if last in firsts {
        assert last in multiset(before);
      } else {
        assert (firsts + [last])[..|firsts|] == firsts;
      }
    }
  }

  lemma KeepHasNoRepeats(xs: seq<string>, kept: set<string>)
    requires NoRepeats(xs)
    ensures NoRepeats(Keep(xs, kept))
  {
    var ys := Keep(xs, kept);
    NoRepeatsCounts(xs);
    NoRepeatsCounts(ys);
    forall p | p in ys ensures multiset(ys)[p] == 1 {
      KeepCounts(xs, kept, p);
      assert p in multiset(ys) && p in multiset(xs);
    }
  }

  /** The list is the active paths in the order they were first added exactly when none of them
      was re-activated. */
  lemma FirstAddOrderExactlyWhen(lines: seq<Line>)
    ensures ActivePaths(lines) == Keep(FirstAdds(lines), Replayed(lines).active) <==> ActivatedOnce(lines)
  {
    var r := Replayed(lines);
    FirstAddsAreFirst(lines);
    FirstOccurrencesHold(r.order);
    KeepHasNoRepeats(FirstOccurrences(r.order), r.active);
    DuplicateFreeExactlyWhen(lines);
    if ActivatedOnce(lines) {
      forall p | p in r.active ensures multiset(r.order)[p] <= 1 { ReplayMeaning(lines, p); }
      KeepFirst(r.order, r.active);
    }
  }

  /** Add, remove, add: the file would be read twice. */
  lemma ReAddDuplicates(p: string)
    ensures ActivePaths([Line(Some(p), None), Line(None, Some(p)), Line(Some(p), None)]) == [p, p]
  {
    var a, r := Line(Some(p), None), Line(None, Some(p));
    assert [a][..0] == [] && [a, r][..1] == [a] && [a, r, a][..2] == [a, r];
    assert Replayed([]) == Replay([], {});
    assert Replayed([a]) == Replay([p], {p});
    assert Replayed([a, r]) == Replay([p], {});
    assert Replayed([a, r, a]) == Replay([p, p], {p});
    assert [p, p][..1] == [p] && [p][..0] == [];
    assert Keep([p], {p}) == [p];
  }
}
