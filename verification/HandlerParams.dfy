/** Binding a handler's named parameters by position
    (crates/ducklink-host/src/httpd.rs:647-691). */
module HandlerParams {
  import opened Wrappers
  import opened Chars

  const KNOWN := ["method", "path", "query", "body", "remote"]

  /** The end of the identifier that starts at `i`. */
  function WordEnd(s: string, i: nat): (j: nat)
    requires i <= |s|
    ensures i <= j <= |s| && (forall k :: i <= k < j ==> IsWord(s[k])) && (j < |s| ==> !IsWord(s[j]))
    decreases |s| - i
  {
    if i < |s| && IsWord(s[i]) then WordEnd(s, i + 1) else i
  }

  function NameAt(s: string, p: nat): string
    requires p < |s|
  {
    s[p + 1..WordEnd(s, p + 1)]
  }

  /** The identifier behind every dollar sign, from position `i` on. */
  function Names(s: string, i: nat): seq<string>
    requires i <= |s|
    decreases |s| - i
  {
    if i == |s| then []
    else (if s[i] == '$' then [NameAt(s, i)] else []) + Names(s, i + 1)
  }

  function KnownIndex(name: string): (k: nat)
    ensures k <= 5 && (k < 5 ==> KNOWN[k] == name) && (k == 5 ==> name !in KNOWN)
  {
    if name == "method" then 0 else if name == "path" then 1 else if name == "query" then 2
    else if name == "body" then 3 else if name == "remote" then 4 else 5
  }

  /** The known parameters in order of first appearance. */
  function FirstAppearances(names: seq<string>): seq<nat> {
    if names == [] then [] else
    var earlier := FirstAppearances(names[..|names| - 1]);
    var k := KnownIndex(names[|names| - 1]);
    if k < 5 && k !in earlier then earlier + [k] else earlier
  }

  lemma FirstAtIs(names: seq<string>, name: string, p: nat)
    requires p <= |names| && (p < |names| ==> names[p] == name) && forall j :: 0 <= j < p ==> names[j] != name
    ensures IndexOf(names, name) == p
  {}

  ghost predicate Ordered(ks: seq<nat>, names: seq<string>) {
    && (forall k | k in ks :: k < 5 && KNOWN[k] in names)
    && (forall k: nat | k < 5 && KNOWN[k] in names :: k in ks)
    && (forall i, j | 0 <= i < j < |ks| && ks[i] < 5 && ks[j] < 5 ::
          IndexOf(names, KNOWN[ks[i]]) < IndexOf(names, KNOWN[ks[j]]))
  }

  /** Every known name that occurs is bound once, and in the order in which DuckDB numbers named
      parameters, by first appearance. */
  lemma {:induction false} BoundByFirstAppearance(names: seq<string>)
    ensures Ordered(FirstAppearances(names), names)
  {
    if names != [] {
      var n := |names| - 1;
      var rest := names[..n];
      BoundByFirstAppearance(rest);
      assert names == rest + [names[n]];
      AppearanceStep(rest, names[n]);
      OrderedStep(FirstAppearances(rest), rest, names[n], KnownIndex(names[n]));
    }
  }

  lemma OrderedStep(ks: seq<nat>, names: seq<string>, name: string, k: nat)
    requires Ordered(ks, names) && (if k < 5 then KNOWN[k] == name else name !in KNOWN)
    ensures Ordered(if k < 5 && k !in ks then ks + [k] else ks, names + [name])
  {
    hide IndexOf;
    var all, out := names + [name], if k < 5 && k !in ks then ks + [k] else ks;
    KnownDistinct();
    forall i: nat | i < 5 && KNOWN[i] in names
      ensures IndexOf(all, KNOWN[i]) == IndexOf(names, KNOWN[i]) < |names|
    {
      FirstAtGrows(names, name, KNOWN[i]);
    }
    forall i, j | 0 <= i < j < |out| && out[i] < 5 && out[j] < 5
      ensures IndexOf(all, KNOWN[out[i]]) < IndexOf(all, KNOWN[out[j]])
    {
      assert ks[i] in ks;
      if j < |ks| {
        assert ks[j] in ks;
      } else {
        FirstAtIs(all, name, |names|);
      }
    }
  }

  lemma KnownDistinct()
    ensures forall i, j :: 0 <= i < j < 5 ==> KNOWN[i] != KNOWN[j]
  {}

  lemma FirstAtGrows(names: seq<string>, more: string, name: string)
    requires name in names
    ensures IndexOf(names + [more], name) == IndexOf(names, name) < |names|
  {
    FirstAtIs(names + [more], name, IndexOf(names, name));
  }

  /** Identifiers hold no dollar sign, so skipping over one loses no parameter. */
  lemma {:induction false} NoNamesWithin(s: string, i: nat, j: nat)
    requires i <= j <= |s| && forall k :: i <= k < j ==> s[k] != '$'
    ensures Names(s, i) == Names(s, j)
    decreases j - i
  {
    if i < j { NoNamesWithin(s, i + 1, j); }
  }

  lemma AppearanceStep(names: seq<string>, name: string)
    ensures FirstAppearances(names + [name]) ==
      (var earlier, k := FirstAppearances(names),
          KnownIndex(name); if k < 5 && k !in earlier then earlier + [k] else earlier)
  {
    assert (names + [name])[..|names|] == names;
  }

  /** The loop over the text: the values bound, in order. */
  method BindInOrder<V>(sql: string, values: seq<V>) returns (ordered: seq<V>)
    requires |values| == 5
    ensures var ks := FirstAppearances(Names(sql, 0));
            |ordered| == |ks| && forall k :: 0 <= k < |ks| ==> ks[k] < 5 && ordered[k] == values[ks[k]]
  {
    hide Names, FirstAppearances, NameAt, KnownIndex;
    var seen := new bool[5](_ => false);
    ordered := [];
    ghost var ks, names: seq<string> := [], [];
    NothingYet(sql);
    var i: nat := 0;
    while i < |sql|
      invariant i <= |sql| && names + Names(sql, i) == Names(sql, 0) && ks == FirstAppearances(names)
      invariant forall k :: 0 <= k < 5 ==> (seen[k] <==> k in ks)
      invariant |ordered| == |ks| && forall k :: 0 <= k < |ks| ==> ks[k] < 5 && ordered[k] == values[ks[k]]
    {
      NamesStep(sql, i);
      if sql[i] == '$' {
        var j: nat := i + 1;
        while j < |sql| && IsWord(sql[j])
          invariant i + 1 <= j <= |sql| && WordEnd(sql, i + 1) == WordEnd(sql, j)
        {
          j := j + 1;
        }
        var name := sql[i + 1..j];
        NameIs(sql, i, j);
        ghost var before := ks;
        for k := 0 to 5
          invariant ks ==
            if KnownIndex(name) < k && KnownIndex(name) !in before then before + [KnownIndex(name)] else before
          invariant forall k :: 0 <= k < 5 ==> (seen[k] <==> k in ks)
          invariant |ordered| == |ks| && forall k :: 0 <= k < |ks| ==> ks[k] < 5 && ordered[k] == values[ks[k]]
        {
          KnownIndexIs(name, k);
          if !seen[k] && name == KNOWN[k] {
            seen[k] := true;
            ordered := ordered + [values[k]];
            ks := ks + [k];
          }
        }
        AppearanceStep(names, name);
        ConcatAssociates(names, [name], Names(sql, i + 1));
        names := names + [name];
        NoNamesWithin(sql, i + 1, j);
        i := j;
      } else {
        i := i + 1;
      }
    }
    AllNames(sql);
    assert names + [] == names;
  }

  lemma KnownIndexIs(name: string, k: nat)
    requires k < 5
    ensures KNOWN[k] == name <==> KnownIndex(name) == k
  {}

  lemma NothingYet(s: string)
    ensures [] + Names(s, 0) == Names(s, 0) && FirstAppearances([]) == []
  {}

  lemma NamesStep(s: string, i: nat)
    requires i < |s|
    ensures Names(s, i) == (if s[i] == '$' then [NameAt(s, i)] + Names(s, i + 1) else Names(s, i + 1))
  {
    if s[i] != '$' { assert [] + Names(s, i + 1) == Names(s, i + 1); }
  }

  lemma NameIs(s: string, p: nat, j: nat)
    requires p < j <= |s| && WordEnd(s, p + 1) == WordEnd(s, j) && (j < |s| ==> !IsWord(s[j]))
    ensures NameAt(s, p) == s[p + 1..j] && forall k :: p + 1 <= k < j ==> s[k] != '$'
  {
    assert WordEnd(s, j) == j;
  }

  lemma AllNames(s: string)
    ensures Names(s, |s|) == []
  {}

  // ---------------------------------------------------------------------------
  // The request's values
  // ---------------------------------------------------------------------------

  datatype Request = Request(verb: string, path: string, query: Option<string>, body: Bytes)

  datatype Value = Text(s: string) | Null

  /** Binds the request to the handler's parameters: `names` are those of the five that follow a
      dollar sign, by first appearance, and each position holds what its name asks for. */
  method OrderedHandlerParams(sql: string, req: Request, peer: string, utf8: Bytes -> Option<string>)
    returns (ordered: seq<Value>, ghost names: seq<string>)
    ensures |names| == |ordered|
    ensures forall x :: x in names <==> x in ["method", "path", "query", "body", "remote"] && x in Names(sql, 0)
    ensures forall i, j :: 0 <= i < j < |names| ==> IndexOf(Names(sql, 0), names[i]) < IndexOf(Names(sql, 0), names[j])
    ensures forall k :: 0 <= k < |names| ==>
      && (names[k] == "method" ==> ordered[k] == Text(req.verb))
      && (names[k] == "path" ==> ordered[k] == Text(req.path))
      && (names[k] == "query" ==> ordered[k] == if req.query.Some? then Text(req.query.value) else Null)
      && (names[k] == "body" ==> ordered[k] == if utf8(req.body).Some? then Text(utf8(req.body).value) else Null)
      && (names[k] == "remote" ==> ordered[k] == Text(peer))
  {
    hide Names, FirstAppearances, IndexOf;
    var values := [Text(req.verb), Text(req.path), OptText(req.query), OptText(utf8(req.body)), Text(peer)];
    ordered := BindInOrder(sql, values);
    names := BoundNames(sql);
    NamesAreBound(sql);
  }

  function OptText(v: Option<string>): Value {
    match v case Some(s) => Text(s) case None => Null
  }

  ghost function BoundNames(sql: string): (names: seq<string>)
    ensures var ks := FirstAppearances(Names(sql, 0));
      |names| == |ks| && forall k :: 0 <= k < |ks| ==> ks[k] < 5 && names[k] == KNOWN[ks[k]]
  {
    var ks := FirstAppearances(Names(sql, 0));
    BoundByFirstAppearance(Names(sql, 0));
    assert forall k :: 0 <= k < |ks| ==> ks[k] in ks;
    seq(|ks|, k requires 0 <= k < |ks| => KNOWN[ks[k]])
  }

  lemma NamesAreBound(sql: string)
    ensures var names := BoundNames(sql);
      && (forall x :: x in names <==> x in ["method", "path", "query", "body", "remote"] && x in Names(sql, 0))
      && forall i, j :: 0 <= i < j < |names| ==>
           IndexOf(Names(sql, 0), names[i]) < IndexOf(Names(sql, 0), names[j])
  {
    hide Names, FirstAppearances, IndexOf;
    var all, names, ks := Names(sql, 0), BoundNames(sql), FirstAppearances(Names(sql, 0));
    BoundByFirstAppearance(all);
    forall x | x in names ensures x in ["method", "path", "query", "body", "remote"] && x in all {
      var k :| 0 <= k < |names| && names[k] == x;
      assert ks[k] in ks;
    }
    forall x | x in ["method", "path", "query", "body", "remote"] && x in all ensures x in names {
      var i := KnownIndex(x);
      assert i in ks;
      var k :| 0 <= k < |ks| && ks[k] == i;
      assert names[k] == x;
    }
  }
}
