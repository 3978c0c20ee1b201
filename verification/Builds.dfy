/** The registry of content-hashed builds (tooling/builds.py:79-82, 102-106, 115-124, 205-226). */
module Builds {
  import opened Wrappers
  import Sorting

  datatype Component = Component(name: string, hash: string)

  /** `rest` stands for the fields that play no part here. */
  datatype Record = Record(name: string, coreEmbedded: seq<string>, components: seq<Component>, setHash: string,
      createdAt: int, rest: string)

  type Member = (string, string)

  // ---------------------------------------------------------------------------
  // The pre-image of a set hash
  // ---------------------------------------------------------------------------

  function Line(m: Member): string {
    m.0 + "\t" + m.1 + "\n"
  }

  function Concat(lines: seq<string>): string {
    if lines == [] then "" else lines[0] + Concat(lines[1..])
  }

  /** What `set_hash` hashes. */
  function PreImage(members: seq<Member>): string {
    Concat(Sorting.Sort(Sorting.Map(members, Line), Sorting.StrLeq))
  }

  predicate Without(s: string, c: char) {
    forall k | 0 <= k < |s| :: s[k] != c
  }

  predicate CleanMember(m: Member) {
    Without(m.0, '\t') && Without(m.0, '\n') && Without(m.1, '\n')
  }

  predicate AllClean(members: seq<Member>) {
    forall k | 0 <= k < |members| :: CleanMember(members[k])
  }

  /** The member a line was made from. */
  function Unline(l: string): Member {
    var k := IndexOf(l, '\t');
    if k + 2 <= |l| then (l[..k], l[k + 1..|l| - 1]) else ("", "")
  }

  lemma UnlineLine(m: Member)
    requires CleanMember(m)
    ensures Unline(Line(m)) == m
  {
    var l := Line(m);
    assert l[|m.0|] == '\t';
    assert forall k | 0 <= k < |m.0| :: l[k] == m.0[k];
    assert IndexOf(l, '\t') == |m.0|;
    assert l[..|m.0|] == m.0 && l[|m.0| + 1..|l| - 1] == m.1;
  }

  /** A line ends in its only newline. */
  predicate Terminated(l: string) {
    l != [] && l[|l| - 1] == '\n' && Without(l[..|l| - 1], '\n')
  }

  lemma LineTerminated(m: Member)
    requires CleanMember(m)
    ensures Terminated(Line(m))
  {
    var l := Line(m);
    assert l[..|l| - 1] == m.0 + "\t" + m.1;
  }

  predicate AllTerminated(ls: seq<string>) {
    forall k | 0 <= k < |ls| :: Terminated(ls[k])
  }

  lemma {:induction false} ConcatInjective(xs: seq<string>, ys: seq<string>)
    requires AllTerminated(xs) && AllTerminated(ys)
    requires Concat(xs) == Concat(ys)
    ensures xs == ys
  {
    if xs != [] && ys != [] {
      FirstLine(xs);
      FirstLine(ys);
      assert xs[0] == ys[0];
      assert Concat(xs)[|xs[0]|..] == Concat(xs[1..]) && Concat(ys)[|ys[0]|..] == Concat(ys[1..]);
      ConcatInjective(xs[1..], ys[1..]);
      assert xs == [xs[0]] + xs[1..] && ys == [ys[0]] + ys[1..];
    } else if xs != [] {
      FirstLine(xs);
    } else if ys != [] {
      FirstLine(ys);
    }
  }

  lemma FirstLine(xs: seq<string>)
    requires xs != [] && Terminated(xs[0])
    ensures var s := Concat(xs); s != [] && IndexOf(s, '\n') + 1 == |xs[0]| <= |s| && s[..|xs[0]|] == xs[0]
  {
    var s, l := Concat(xs), xs[0];
    assert s == l + Concat(xs[1..]);
    assert s[|l| - 1] == '\n';
    forall j | 0 <= j < |l| - 1 ensures s[j] != '\n' { assert l[..|l| - 1][j] == s[j]; }
    assert IndexOf(s, '\n') == |l| - 1;
  }

  lemma {:induction false} UnmapLines(members: seq<Member>)
    requires AllClean(members)
    ensures Sorting.Map(Sorting.Map(members, Line), Unline) == members
  {
    forall k | 0 <= k < |members| ensures Unline(Line(members[k])) == members[k] { UnlineLine(members[k]); }
  }

  lemma SortedTerminated(members: seq<Member>)
    requires AllClean(members)
    ensures AllTerminated(Sorting.Sort(Sorting.Map(members, Line), Sorting.StrLeq))
  {
    var mapped := Sorting.Map(members, Line);
    var lines := Sorting.Sort(mapped, Sorting.StrLeq);
    forall k | 0 <= k < |lines| ensures Terminated(lines[k]) {
      assert lines[k] in lines;
      Sorting.SortMembers(mapped, Sorting.StrLeq, lines[k]);
      var j :| 0 <= j < |mapped| && mapped[j] == lines[k];
      LineTerminated(members[j]);
    }
  }

  /** Two member lists hash the same text exactly when they hold the same members equally often,
      whatever the order. */
  lemma SamePreImage(a: seq<Member>, b: seq<Member>)
    requires AllClean(a) && AllClean(b)
    ensures PreImage(a) == PreImage(b) <==> multiset(a) == multiset(b)
  {
    hide Sorting.Sort, Sorting.Map, Sorting.StrLeq, AllTerminated, AllClean, Concat, Line, Unline;
    var la, lb := Sorting.Map(a, Line), Sorting.Map(b, Line);
    Sorting.StrOrder();
    if PreImage(a) == PreImage(b) {
      SortedTerminated(a);
      SortedTerminated(b);
      ConcatInjective(Sorting.Sort(la, Sorting.StrLeq), Sorting.Sort(lb, Sorting.StrLeq));
      Sorting.SortIgnoresOrder(la, lb, Sorting.StrLeq);
      Sorting.MapPermuted(la, lb, Unline);
      UnmapLines(a);
      UnmapLines(b);
    }
    if multiset(a) == multiset(b) {
      Sorting.MapPermuted(a, b, Line);
      Sorting.SortIgnoresOrder(la, lb, Sorting.StrLeq);
    }
  }

  /** A tab in a name, or a newline in a hash, lets different members write the same lines. */
  lemma TabInNameCollides()
    ensures PreImage([("a\tb", "c")]) == PreImage([("a", "b\tc")])
  {
    hide Sorting.Map;
    assert Line(("a\tb", "c")) == "a\tb\tc\n" == Line(("a", "b\tc"));
    assert Sorting.Map([("a\tb", "c")], Line) == Sorting.Map([("a", "b\tc")], Line);
  }

  lemma NewlineInHashCollides()
    ensures PreImage([("a", "b\nc\td")]) == PreImage([("a", "b"), ("c", "d")])
  {
    hide Sorting.Map;
    var x, y, xy := "a\tb\n", "c\td\n", "a\tb\nc\td\n";
    assert Line(("a", "b")) == x && Line(("c", "d")) == y && Line(("a", "b\nc\td")) == xy == x + y;
    assert Sorting.Map([("a", "b"), ("c", "d")], Line) == [x, y];
    assert Sorting.Map([("a", "b\nc\td")], Line) == [xy];
    assert Sorting.Codes(x)[0] < Sorting.Codes(y)[0];
    SortedPair(x, y);
    SortedOne(xy);
  }

  lemma SortedPair(x: string, y: string)
    requires Sorting.StrLeq(x, y)
    ensures Sorting.Sort([x, y], Sorting.StrLeq) == [x, y] && Concat([x, y]) == x + y
  {
    hide Sorting.StrLeq;
    assert [x, y][1..] == [y];
    SortedOne(y);
  }

  lemma SortedOne(x: string)
    ensures Sorting.Sort([x], Sorting.StrLeq) == [x] && Concat([x]) == x
  {
    hide Sorting.StrLeq;
  }

  // ---------------------------------------------------------------------------
  // The members of a record
  // ---------------------------------------------------------------------------

  /** BLAKE2b-256 in hex, as far as this model knows it. */
  type Hash = string -> string

  ghost predicate HexHash(h: Hash) {
    forall text :: Without(h(text), '\n')
  }

  function CoreMember(h: Hash, e: string): Member {
    ("core:" + e, h(e))
  }

  function ComponentMember(c: Component): Member {
    ("component:" + c.name, c.hash)
  }

  function CoreMembers(h: Hash, es: seq<string>): (ms: seq<Member>)
    ensures |ms| == |es| && forall k :: 0 <= k < |es| ==> ms[k] == CoreMember(h, es[k])
  {
    if es == [] then [] else CoreMembers(h, es[..|es| - 1]) + [CoreMember(h, es[|es| - 1])]
  }

  function ComponentMembers(cs: seq<Component>): (ms: seq<Member>)
    ensures |ms| == |cs| && forall k :: 0 <= k < |cs| ==> ms[k] == ComponentMember(cs[k])
  {
    if cs == [] then [] else ComponentMembers(cs[..|cs| - 1]) + [ComponentMember(cs[|cs| - 1])]
  }

  function Members(h: Hash, r: Record): seq<Member> {
    CoreMembers(h, r.coreEmbedded) + ComponentMembers(r.components)
  }

  function SetHash(h: Hash, members: seq<Member>): string {
    h(PreImage(members))
  }

  method MembersOf(h: Hash, r: Record) returns (members: seq<Member>)
    ensures members == Members(h, r)
  {
    members := [];
    for i := 0 to |r.coreEmbedded|
      invariant members == CoreMembers(h, r.coreEmbedded[..i])
    {
      assert r.coreEmbedded[..i + 1][..i] == r.coreEmbedded[..i];
      members := members + [CoreMember(h, r.coreEmbedded[i])];
    }
    assert r.coreEmbedded[..|r.coreEmbedded|] == r.coreEmbedded;
    ghost var core := members;
    for i := 0 to |r.components|
      invariant members == core + ComponentMembers(r.components[..i])
    {
      assert r.components[..i + 1][..i] == r.components[..i];
      members := members + [ComponentMember(r.components[i])];
    }
    assert r.components[..|r.components|] == r.components;
  }

  predicate CleanRecord(r: Record) {
    && (forall k | 0 <= k < |r.coreEmbedded| :: Without(r.coreEmbedded[k], '\t') && Without(r.coreEmbedded[k], '\n'))
    && (forall k | 0 <= k < |r.components| :: CleanMember((r.components[k].name, r.components[k].hash)))
  }

  lemma MembersClean(h: Hash, r: Record)
    requires HexHash(h) && CleanRecord(r)
    ensures AllClean(Members(h, r))
  {
    var ms, n := Members(h, r), |r.coreEmbedded|;
    forall k | 0 <= k < |ms| ensures CleanMember(ms[k]) {
      if k < n {
        assert ms[k] == CoreMember(h, r.coreEmbedded[k]);
        assert Without(h(r.coreEmbedded[k]), '\n');
      } else {
        assert CleanMember((r.components[k - n].name, r.components[k - n].hash));
        assert ms[k] == ComponentMember(r.components[k - n]);
      }
    }
  }

  function IsCore(m: Member): bool {
    |m.0| > 2 && m.0[2] == 'r'
  }

  function CoreName(m: Member): string {
    if |m.0| >= 5 then m.0[5..] else ""
  }

  function ComponentOf(m: Member): Component {
    Component(if |m.0| >= 10 then m.0[10..] else "", m.1)
  }

  /** The text that is hashed: for each core extension `core:`, its name, a tab and the hash of the
      name, for each component `component:`, its name, a tab and its hash, each ended by a newline,
      and the lines in ascending order. */
  lemma PreImageHolds(h: Hash, r: Record, core: seq<string>, components: seq<string>) returns (lines: seq<string>)
    requires |core| == |r.coreEmbedded| && |components| == |r.components|
    requires forall k :: 0 <= k < |core| ==>
      core[k] == "core:" + r.coreEmbedded[k] + "\t" + h(r.coreEmbedded[k]) + "\n"
    requires forall k :: 0 <= k < |components| ==>
      components[k] == "component:" + r.components[k].name + "\t" + r.components[k].hash + "\n"
    ensures PreImage(Members(h, r)) == Concat(lines)
    ensures multiset(lines) == multiset(core) + multiset(components)
    ensures forall j, k :: 0 <= j < k < |lines| ==> Sorting.Ascending(lines[j], lines[k])
  {
    hide Concat, Sorting.Sort, Sorting.Ascending;
    var written := Sorting.Map(Members(h, r), Line);
    lines := Sorting.Sort(written, Sorting.StrLeq);
    forall k | 0 <= k < |written| ensures written[k] == (core + components)[k] {
      if k < |core| {
        assert Members(h, r)[k] == CoreMember(h, r.coreEmbedded[k]);
      } else {
        assert Members(h, r)[k] == ComponentMember(r.components[k - |core|]);
      }
    }
    assert written == core + components;
    Sorting.SortPermutes(written, Sorting.StrLeq);
    Sorting.StrOrder();
    Sorting.SortSorts(written, Sorting.StrLeq);
    forall j, k | 0 <= j < k < |lines| ensures Sorting.Ascending(lines[j], lines[k]) {
      Sorting.StrLeqIsAscending(lines[j], lines[k]);
    }
  }

  lemma UnmapParts(h: Hash, es: seq<string>, cs: seq<Component>)
    ensures Sorting.Map(CoreMembers(h, es), CoreName) == es
    ensures Sorting.Map(ComponentMembers(cs), ComponentOf) == cs
  {
    forall k | 0 <= k < |es| ensures CoreName(CoreMember(h, es[k])) == es[k] {}
    forall k | 0 <= k < |cs| ensures ComponentOf(ComponentMember(cs[k])) == cs[k] {}
  }

  lemma PartsDisjoint(h: Hash, es: seq<string>, cs: seq<Component>, m: Member)
    ensures IsCore(m) ==> multiset(ComponentMembers(cs))[m] == 0
    ensures !IsCore(m) ==> multiset(CoreMembers(h, es))[m] == 0
  {
    if IsCore(m) { assert m !in ComponentMembers(cs); } else { assert m !in CoreMembers(h, es); }
  }

  lemma SameMembersSameParts(h: Hash, r: Record, s: Record)
    requires multiset(Members(h, r)) == multiset(Members(h, s))
    ensures multiset(CoreMembers(h, r.coreEmbedded)) == multiset(CoreMembers(h, s.coreEmbedded))
    ensures multiset(ComponentMembers(r.components)) == multiset(ComponentMembers(s.components))
  {
    hide CoreMembers, ComponentMembers, IsCore;
    var rc, rp := CoreMembers(h, r.coreEmbedded), ComponentMembers(r.components);
    var sc, sp := CoreMembers(h, s.coreEmbedded), ComponentMembers(s.components);
    assert multiset(rc) + multiset(rp) == multiset(sc) + multiset(sp);
    forall m ensures multiset(rc)[m] == multiset(sc)[m] && multiset(rp)[m] == multiset(sp)[m] {
      assert (multiset(rc) + multiset(rp))[m] == (multiset(sc) + multiset(sp))[m];
      PartsDisjoint(h, r.coreEmbedded, r.components, m);
      PartsDisjoint(h, s.coreEmbedded, s.components, m);
    }
  }

  lemma {:induction false} CoreMembersPermuted(h: Hash, a: seq<string>, b: seq<string>)
    requires multiset(a) == multiset(b)
    ensures multiset(CoreMembers(h, a)) == multiset(CoreMembers(h, b))
  {
    Sorting.MapPermuted(a, b, e => CoreMember(h, e));
    assert CoreMembers(h, a) == Sorting.Map(a, e => CoreMember(h, e));
    assert CoreMembers(h, b) == Sorting.Map(b, e => CoreMember(h, e));
  }

  lemma ComponentMembersPermuted(a: seq<Component>, b: seq<Component>)
    requires multiset(a) == multiset(b)
    ensures multiset(ComponentMembers(a)) == multiset(ComponentMembers(b))
  {
    Sorting.MapPermuted(a, b, ComponentMember);
    assert ComponentMembers(a) == Sorting.Map(a, ComponentMember);
    assert ComponentMembers(b) == Sorting.Map(b, ComponentMember);
  }

  /** Two records hash the same text exactly when they embed the same core extensions and the same
      components, each equally often, in any order. */
  lemma SameSetSameParts(h: Hash, r: Record, s: Record)
    requires HexHash(h) && CleanRecord(r) && CleanRecord(s)
    ensures PreImage(Members(h, r)) == PreImage(Members(h, s)) <==>
      multiset(r.coreEmbedded) == multiset(s.coreEmbedded) && multiset(r.components) == multiset(s.components)
  {
    hide PreImage, CoreMembers, ComponentMembers, CleanRecord, AllClean, Sorting.Map;
    MembersClean(h, r);
    MembersClean(h, s);
    SamePreImage(Members(h, r), Members(h, s));
    if PreImage(Members(h, r)) == PreImage(Members(h, s)) {
      SameMembersSameParts(h, r, s);
      Sorting.MapPermuted(CoreMembers(h, r.coreEmbedded), CoreMembers(h, s.coreEmbedded), CoreName);
      Sorting.MapPermuted(ComponentMembers(r.components), ComponentMembers(s.components), ComponentOf);
      UnmapParts(h, r.coreEmbedded, r.components);
      UnmapParts(h, s.coreEmbedded, s.components);
    }
    if multiset(r.coreEmbedded) == multiset(s.coreEmbedded) && multiset(r.components) == multiset(s.components) {
      CoreMembersPermuted(h, r.coreEmbedded, s.coreEmbedded);
      ComponentMembersPermuted(r.components, s.components);
    }
  }

  // ---------------------------------------------------------------------------
  // upsert_build
  // ---------------------------------------------------------------------------

  datatype Status = Unchanged | Recorded | Conflict

  function Find(builds: seq<Record>, name: string): (r: Option<Record>)
    ensures r.Some? ==> r.value in builds && r.value.name == name
    ensures r.None? ==> forall b :: b in builds ==> b.name != name
  {
    if builds == [] then None else if builds[0].name == name then Some(builds[0]) else Find(builds[1..], name)
  }

  /** The list with the record in place of every one of its name. */
  function Replaced(builds: seq<Record>, rec: Record): (out: seq<Record>)
    ensures |out| == |builds|
      && forall k :: 0 <= k < |builds| ==> out[k] == if builds[k].name == rec.name then rec else builds[k]
  {
    if builds == [] then [] else
    [if builds[0].name == rec.name then rec else builds[0]] + Replaced(builds[1..], rec)
  }

  function Upserted(builds: seq<Record>, rec: Record): (Status, seq<Record>) {
    var existing := Find(builds, rec.name);
    if existing.None? then (Recorded, builds + [rec])
    else if existing.value.setHash == rec.setHash then
      (Unchanged, Replaced(builds, rec.(createdAt := existing.value.createdAt)))
    else (Conflict, builds)
  }

  class Database {
    var builds: seq<Record>

    constructor (builds: seq<Record>)
      ensures this.builds == builds
    {
      this.builds := builds;
    }

    method FindBuild(name: string) returns (found: Option<Record>)
      ensures found == Find(builds, name)
    {
      assert builds[0..] == builds;
      for i := 0 to |builds|
        invariant Find(builds, name) == Find(builds[i..], name)
      {
        assert builds[i..][1..] == builds[i + 1..];
        if builds[i].name == name { return Some(builds[i]); }
      }
      found := None;
    }

    /** A conflict ends the process in the original; nothing is written then. */
    method UpsertBuild(rec: Record) returns (status: Status)
      modifies this
      ensures (status, builds) == Upserted(old(builds), rec)
    {
      var existing := FindBuild(rec.name);
      if existing.Some? {
        if existing.value.setHash == rec.setHash {
          var touched := rec.(createdAt := existing.value.createdAt);
          builds := Replaced(builds, touched);
          return Unchanged;
        }
        return Conflict;
      }
      builds := builds + [rec];
      status := Recorded;
    }

    /** Any number of recordings, one after the other. */
    method RecordAll(recs: seq<Record>)
      requires UniqueNames(builds)
      modifies this
      ensures builds == Run(old(builds), recs)
      ensures UniqueNames(builds) && Frozen(old(builds), builds)
    {
      ghost var start := builds;
      FrozenReflexive(start);
      for i := 0 to |recs|
        invariant builds == Run(start, recs[..i]) && UniqueNames(builds) && Frozen(start, builds)
      {
        assert recs[..i + 1][..i] == recs[..i];
        ghost var before := builds;
        UpsertKeeps(before, recs[i]);
        var _ := UpsertBuild(recs[i]);
        FrozenTransitive(start, before, builds);
      }
      assert recs[..|recs|] == recs;
    }
  }

  predicate UniqueNames(builds: seq<Record>) {
    forall j, k | 0 <= j < k < |builds| :: builds[j].name != builds[k].name
  }

  /** Every record keeps its place, its name, its set hash and its creation time. */
  predicate Frozen(before: seq<Record>, after: seq<Record>) {
    && |before| <= |after|
    && forall k | 0 <= k < |before| ::
         after[k].name == before[k].name && after[k].setHash == before[k].setHash
           && after[k].createdAt == before[k].createdAt
  }

  lemma FrozenReflexive(a: seq<Record>)
    ensures Frozen(a, a)
  {}

  lemma FrozenTransitive(a: seq<Record>, b: seq<Record>, c: seq<Record>)
    requires Frozen(a, b) && Frozen(b, c)
    ensures Frozen(a, c)
  {}

  function Run(builds: seq<Record>, recs: seq<Record>): seq<Record> {
    if recs == [] then builds else Upserted(Run(builds, recs[..|recs| - 1]), recs[|recs| - 1]).1
  }

  lemma FindIsUnique(builds: seq<Record>, k: nat)
    requires UniqueNames(builds) && k < |builds|
    ensures Find(builds, builds[k].name) == Some(builds[k])
  {
    var f := Find(builds, builds[k].name);
    assert builds[k] in builds;
    var j :| 0 <= j < |builds| && builds[j] == f.value;
  }

  lemma ReplacedKeeps(builds: seq<Record>, rec: Record, k: nat)
    requires UniqueNames(builds) && k < |builds| && builds[k].name == rec.name && builds[k].setHash == rec.setHash
      && builds[k].createdAt == rec.createdAt
    ensures UniqueNames(Replaced(builds, rec)) && Frozen(builds, Replaced(builds, rec))
      && Find(Replaced(builds, rec), rec.name) == Some(rec)
  {
    hide Replaced, Find;
    var after := Replaced(builds, rec);
    forall j | 0 <= j < |builds| ensures after[j] == builds[k := rec][j] {
      assert j < k ==> builds[j].name != builds[k].name;
      assert k < j ==> builds[k].name != builds[j].name;
    }
    assert after == builds[k := rec];
    assert forall j | 0 <= j < |builds| :: after[j].name == builds[j].name;
    forall i, j | 0 <= i < j < |after| ensures after[i].name != after[j].name {
      assert builds[i].name != builds[j].name;
    }
    FindIsUnique(after, k);
  }

  lemma AppendedKeeps(builds: seq<Record>, rec: Record)
    requires UniqueNames(builds) && forall b :: b in builds ==> b.name != rec.name
    ensures UniqueNames(builds + [rec]) && Frozen(builds, builds + [rec]) && Find(builds + [rec], rec.name) == Some(rec)
  {
    var after := builds + [rec];
    assert after[|builds|] == rec;
    FindIsUnique(after, |builds|);
  }

  /** The answer says whether the name was new, known with this set hash, or with another. */
  lemma UpsertAnswers(builds: seq<Record>, rec: Record)
    requires UniqueNames(builds)
    ensures var (status, after) := Upserted(builds, rec);
            && (status.Recorded? <==> forall b :: b in builds ==> b.name != rec.name)
            && (status.Unchanged? <==> exists b :: b in builds && b.name == rec.name && b.setHash == rec.setHash)
            && (status.Conflict? <==> exists b :: b in builds && b.name == rec.name && b.setHash != rec.setHash)
  {
    hide Replaced, UniqueNames;
    forall b | b in builds ensures Find(builds, b.name) == Some(b) {
      var k :| 0 <= k < |builds| && builds[k] == b;
      FindIsUnique(builds, k);
    }
  }

  /** One recording: names stay unique, nothing old changes its identity, a conflict changes
      nothing, and otherwise the record is there, with the creation time its name had. */
  lemma UpsertKeeps(builds: seq<Record>, rec: Record)
    requires UniqueNames(builds)
    ensures var (status, after) := Upserted(builds, rec);
            && UniqueNames(after) && Frozen(builds, after)
            && (status.Conflict? ==> after == builds)
            && (!status.Conflict? ==>
                  Find(after, rec.name).Some? && Find(after, rec.name).value.(createdAt := rec.createdAt) == rec)
            && forall k | 0 <= k < |builds| && builds[k].name != rec.name :: after[k] == builds[k]
  {
    hide Replaced, UniqueNames, Frozen;
    var existing := Find(builds, rec.name);
    FrozenReflexive(builds);
    if existing.None? {
      AppendedKeeps(builds, rec);
    } else if existing.value.setHash == rec.setHash {
      var k :| 0 <= k < |builds| && builds[k] == existing.value;
      ReplacedKeeps(builds, rec.(createdAt := existing.value.createdAt), k);
    }
  }

  /** Which name a record is the first to claim. */
  function FirstNamed(recs: seq<Record>, name: string): Option<Record> {
    if recs == [] then None else
    var earlier := FirstNamed(recs[..|recs| - 1], name);
    if earlier.Some? then earlier
    else if recs[|recs| - 1].name == name then Some(recs[|recs| - 1])
    else None
  }

  /** Over any run from an empty registry, the first record of a name fixes the set hash and the
      creation time the registry ever shows for it. */
  lemma {:induction false} FirstWins(recs: seq<Record>, name: string)
    ensures UniqueNames(Run([], recs))
    ensures var f := Find(Run([], recs), name);
            match FirstNamed(recs, name)
            case None => f.None?
            case Some(r) => f.Some? && f.value.setHash == r.setHash && f.value.createdAt == r.createdAt
  {
    if recs != [] {
      var n := |recs| - 1;
      FirstWins(recs[..n], name);
      var before := Run([], recs[..n]);
      UpsertKeeps(before, recs[n]);
      var after := Upserted(before, recs[n]).1;
      var f := Find(before, name);
      if f.Some? {
        var k :| 0 <= k < |before| && before[k] == f.value;
        FindIsUnique(after, k);
      } else if recs[n].name != name {
        forall b | b in after ensures b.name != name {
          if b !in before { assert b == recs[n] || b.name == recs[n].name; }
        }
      }
    }
  }

  /** The record carries the hash of its own members. */
  predicate Sealed(h: Hash, r: Record) {
    r.setHash == SetHash(h, Members(h, r))
  }

  /** The hash tells the two records' texts apart. */
  predicate NoCollision(h: Hash, r: Record, s: Record) {
    SetHash(h, Members(h, r)) == SetHash(h, Members(h, s)) ==> PreImage(Members(h, r)) == PreImage(Members(h, s))
  }

  predicate SameParts(r: Record, s: Record) {
    multiset(r.coreEmbedded) == multiset(s.coreEmbedded) && multiset(r.components) == multiset(s.components)
  }

  /** Recording a name again is accepted exactly when the parts are the same, each equally often,
      in any order; otherwise it is a conflict. */
  lemma AgainExactlyWhenSameParts(h: Hash, builds: seq<Record>, k: nat, rec: Record)
    requires HexHash(h) && UniqueNames(builds) && k < |builds| && builds[k].name == rec.name
    requires CleanRecord(rec) && CleanRecord(builds[k]) && Sealed(h, rec) && Sealed(h, builds[k])
      && NoCollision(h, builds[k], rec)
    ensures Upserted(builds, rec).0 == if SameParts(builds[k], rec) then Unchanged else Conflict
  {
    hide Members, PreImage, CleanRecord, UniqueNames, Replaced, Find;
    SameSetSameParts(h, builds[k], rec);
    FindIsUnique(builds, k);
  }
}
