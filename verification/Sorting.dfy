/** Stable sorting, as the library sorts the code calls do it, and lexicographic order. */
module Sorting {
  ghost predicate TotalPreorder<T(!new)>(leq: (T, T) -> bool) {
    && (forall x, y :: leq(x, y) || leq(y, x))
    && (forall x, y, z :: leq(x, y) && leq(y, z) ==> leq(x, z))
  }

  ghost predicate Antisymmetric<T(!new)>(leq: (T, T) -> bool) {
    forall x, y :: leq(x, y) && leq(y, x) ==> x == y
  }

  ghost predicate Sorted<T>(xs: seq<T>, leq: (T, T) -> bool) {
    forall i, j :: 0 <= i < j < |xs| ==> leq(xs[i], xs[j])
  }

  function Insert<T>(x: T, ys: seq<T>, leq: (T, T) -> bool): seq<T> {
    if ys == [] then [x] else if leq(x, ys[0]) then [x] + ys else [ys[0]] + Insert(x, ys[1..], leq)
  }

  /** Stable: equal elements keep their order. */
  function Sort<T>(xs: seq<T>, leq: (T, T) -> bool): seq<T> {
    if xs == [] then [] else Insert(xs[0], Sort(xs[1..], leq), leq)
  }

  lemma {:induction false} InsertPermutes<T>(x: T, ys: seq<T>, leq: (T, T) -> bool)
    ensures multiset(Insert(x, ys, leq)) == multiset{x} + multiset(ys)
  {
    if ys != [] {
      assert ys == [ys[0]] + ys[1..];
      if !leq(x, ys[0]) { InsertPermutes(x, ys[1..], leq); }
    }
  }

  lemma {:induction false} SortPermutes<T>(xs: seq<T>, leq: (T, T) -> bool)
    ensures multiset(Sort(xs, leq)) == multiset(xs) && |Sort(xs, leq)| == |xs|
  {
    if xs != [] {
      assert xs == [xs[0]] + xs[1..];
      SortPermutes(xs[1..], leq);
      InsertPermutes(xs[0], Sort(xs[1..], leq), leq);
      assert |multiset(Sort(xs, leq))| == |Sort(xs, leq)| && |multiset(xs)| == |xs|;
    }
  }

  lemma SortMembers<T>(xs: seq<T>, leq: (T, T) -> bool, x: T)
    ensures x in Sort(xs, leq) <==> x in xs
  {
    SortPermutes(xs, leq);
    assert x in Sort(xs, leq) <==> x in multiset(Sort(xs, leq));
    assert x in xs <==> x in multiset(xs);
  }

  lemma {:induction false} InsertSorts<T(!new)>(x: T, ys: seq<T>, leq: (T, T) -> bool)
    requires TotalPreorder(leq) && Sorted(ys, leq)
    ensures Sorted(Insert(x, ys, leq), leq)
  {
    if ys != [] && !leq(x, ys[0]) {
      var rest := Insert(x, ys[1..], leq);
      InsertSorts(x, ys[1..], leq);
      InsertPermutes(x, ys[1..], leq);
      forall k | 0 <= k < |rest| ensures leq(ys[0], rest[k]) {
        assert rest[k] in multiset(rest);
        if rest[k] != x {
          assert rest[k] in ys[1..];
        }
      }
    }
  }

  lemma {:induction false} SortSorts<T(!new)>(xs: seq<T>, leq: (T, T) -> bool)
    requires TotalPreorder(leq)
    ensures Sorted(Sort(xs, leq), leq)
  {
    if xs != [] {
      SortSorts(xs[1..], leq);
      InsertSorts(xs[0], Sort(xs[1..], leq), leq);
    }
  }

  /** No two different elements are tied. */
  ghost predicate NoTies<T>(a: seq<T>, leq: (T, T) -> bool) {
    forall x, y :: x in a && y in a && leq(x, y) && leq(y, x) ==> x == y
  }

  /** Without ties the sorted sequence of a multiset is unique. */
  lemma {:induction false} SortedUnique<T(!new)>(a: seq<T>, b: seq<T>, leq: (T, T) -> bool)
    requires TotalPreorder(leq) && NoTies(a, leq) && Sorted(a, leq) && Sorted(b, leq) && multiset(a) == multiset(b)
    ensures a == b
  {
    assert |multiset(a)| == |a| && |multiset(b)| == |b|;
    if a != [] {
      HeadIsLeast(a, b, leq);
      HeadIsLeast(b, a, leq);
      assert b[0] in multiset(b) && b[0] in a;
      assert a == [a[0]] + a[1..] && b == [b[0]] + b[1..];
      assert multiset(a[1..]) == multiset(a) - multiset{a[0]};
      assert multiset(b[1..]) == multiset(b) - multiset{b[0]};
      SortedUnique(a[1..], b[1..], leq);
    }
  }

  lemma HeadIsLeast<T(!new)>(a: seq<T>, b: seq<T>, leq: (T, T) -> bool)
    requires TotalPreorder(leq) && Sorted(a, leq) && a != [] && b != [] && multiset(a) == multiset(b)
    ensures leq(a[0], b[0])
  {
    assert b[0] in multiset(b);
    assert b[0] in a;
    var k :| 0 <= k < |a| && a[k] == b[0];
    assert k == 0 ==> leq(a[0], a[0]);
  }

  lemma SortOfPermutation<T(!new)>(xs: seq<T>, ys: seq<T>, leq: (T, T) -> bool)
    requires TotalPreorder(leq) && NoTies(xs, leq) && multiset(xs) == multiset(ys)
    ensures Sort(xs, leq) == Sort(ys, leq)
  {
    SortPermutes(xs, leq);
    SortPermutes(ys, leq);
    SortSorts(xs, leq);
    SortSorts(ys, leq);
    forall x | x in Sort(xs, leq) ensures x in xs { SortMembers(xs, leq, x); }
    SortedUnique(Sort(xs, leq), Sort(ys, leq), leq);
  }

  /** The order of the input does not matter. */
  lemma SortIgnoresOrder<T(!new)>(xs: seq<T>, ys: seq<T>, leq: (T, T) -> bool)
    requires TotalPreorder(leq) && Antisymmetric(leq)
    ensures Sort(xs, leq) == Sort(ys, leq) <==> multiset(xs) == multiset(ys)
  {
    SortPermutes(xs, leq);
    SortPermutes(ys, leq);
    if multiset(xs) == multiset(ys) { SortOfPermutation(xs, ys, leq); }
  }

  // ---------------------------------------------------------------------------
  // Sorting by a key commutes with mapping the rest
  // ---------------------------------------------------------------------------

  function Map<T, U>(xs: seq<T>, f: T -> U): (ys: seq<U>)
    ensures |ys| == |xs| && forall k :: 0 <= k < |xs| ==> ys[k] == f(xs[k])
  {
    if xs == [] then [] else [f(xs[0])] + Map(xs[1..], f)
  }

  lemma {:induction false} InsertMaps<T(!new), U>(x: T, ys: seq<T>, leq: (T, T) -> bool, f: T -> U,
      leq': (U, U) -> bool)
    requires forall a, b :: leq'(f(a), f(b)) == leq(a, b)
    ensures Insert(f(x), Map(ys, f), leq') == Map(Insert(x, ys, leq), f)
  {
    if ys != [] {
      assert Map(ys, f)[1..] == Map(ys[1..], f);
      if !leq(x, ys[0]) { InsertMaps(x, ys[1..], leq, f, leq'); }
    }
  }

  lemma {:induction false} SortMaps<T(!new), U>(xs: seq<T>, leq: (T, T) -> bool, f: T -> U, leq': (U, U) -> bool)
    requires forall a, b :: leq'(f(a), f(b)) == leq(a, b)
    ensures Sort(Map(xs, f), leq') == Map(Sort(xs, leq), f)
  {
    if xs != [] {
      assert Map(xs, f)[1..] == Map(xs[1..], f);
      SortMaps(xs[1..], leq, f, leq');
      InsertMaps(xs[0], Sort(xs[1..], leq), leq, f, leq');
    }
  }

  lemma {:induction false} MapConcat<T, U>(xs: seq<T>, ys: seq<T>, f: T -> U)
    ensures Map(xs + ys, f) == Map(xs, f) + Map(ys, f)
  {
    if xs == [] {
      assert xs + ys == ys;
    } else {
      assert (xs + ys)[1..] == xs[1..] + ys;
      MapConcat(xs[1..], ys, f);
    }
  }

  lemma {:induction false} MapPermuted<T, U>(xs: seq<T>, ys: seq<T>, f: T -> U)
    requires multiset(xs) == multiset(ys)
    ensures multiset(Map(xs, f)) == multiset(Map(ys, f))
  {
    assert |multiset(xs)| == |xs| && |multiset(ys)| == |ys|;
    if xs != [] {
      var x, rest := xs[0], xs[1..];
      assert x in multiset(xs) && x in ys;
      var k :| 0 <= k < |ys| && ys[k] == x;
      var a, b := ys[..k], ys[k + 1..];
      assert ys == a + ([x] + b) && xs == [x] + rest;
      SplitPermuted(x, rest, a, b);
      MapPermuted(rest, a + b, f);
      MapAround(x, a, b, f);
    }
  }

  lemma SplitPermuted<T>(x: T, rest: seq<T>, a: seq<T>, b: seq<T>)
    requires multiset([x] + rest) == multiset(a + ([x] + b))
    ensures multiset(rest) == multiset(a + b)
  {
    assert multiset([x] + rest) == multiset{x} + multiset(rest);
    assert multiset(a + ([x] + b)) == multiset(a) + (multiset{x} + multiset(b));
    assert multiset(rest) == multiset([x] + rest) - multiset{x};
  }

  lemma MapAround<T, U>(x: T, a: seq<T>, b: seq<T>, f: T -> U)
    ensures multiset(Map(a + ([x] + b), f)) == multiset{f(x)} + multiset(Map(a + b, f))
  {
    MapConcat(a, [x] + b, f);
    MapConcat([x], b, f);
    MapConcat(a, b, f);
    assert Map([x], f) == [f(x)];
  }

  lemma {:induction false} InsertPermutesMapped<T, U>(x: T, ys: seq<T>, leq: (T, T) -> bool, f: T -> U)
    ensures multiset(Map(Insert(x, ys, leq), f)) == multiset{f(x)} + multiset(Map(ys, f))
  {
    if ys != [] {
      assert Map(ys, f) == [f(ys[0])] + Map(ys[1..], f);
      if !leq(x, ys[0]) { InsertPermutesMapped(x, ys[1..], leq, f); }
    }
  }

  lemma {:induction false} SortPermutesMapped<T, U>(xs: seq<T>, leq: (T, T) -> bool, f: T -> U)
    ensures multiset(Map(Sort(xs, leq), f)) == multiset(Map(xs, f))
  {
    if xs != [] {
      SortPermutesMapped(xs[1..], leq, f);
      InsertPermutesMapped(xs[0], Sort(xs[1..], leq), leq, f);
    }
  }

  function Filter<T>(xs: seq<T>, f: T -> bool): seq<T> {
    if xs == [] then [] else (if f(xs[0]) then [xs[0]] else []) + Filter(xs[1..], f)
  }

  /** Stability: elements that are pairwise tied keep their order. */
  lemma {:induction false} InsertStable<T(!new)>(x: T, ys: seq<T>, leq: (T, T) -> bool, f: T -> bool)
    requires forall a, b :: f(a) && f(b) ==> leq(a, b)
    ensures Filter(Insert(x, ys, leq), f) == (if f(x) then [x] else []) + Filter(ys, f)
  {
    hide Insert, Filter;
    if ys == [] || leq(x, ys[0]) {
      InsertFront(x, ys, leq);
      FilterCons(x, ys, f);
    } else {
      var rest := Insert(x, ys[1..], leq);
      InsertStable(x, ys[1..], leq, f);
      InsertBehind(x, ys, leq);
      FilterCons(ys[0], rest, f);
      FilterCons(ys[0], ys[1..], f);
      assert ys == [ys[0]] + ys[1..];
      assert !(f(x) && f(ys[0]));
    }
  }

  lemma FilterCons<T>(x: T, ys: seq<T>, f: T -> bool)
    ensures Filter([x] + ys, f) == (if f(x) then [x] else []) + Filter(ys, f)
  {
    assert ([x] + ys)[1..] == ys;
  }

  lemma InsertFront<T>(x: T, ys: seq<T>, leq: (T, T) -> bool)
    requires ys == [] || leq(x, ys[0])
    ensures Insert(x, ys, leq) == [x] + ys
  {}

  lemma InsertBehind<T>(x: T, ys: seq<T>, leq: (T, T) -> bool)
    requires ys != [] && !leq(x, ys[0])
    ensures Insert(x, ys, leq) == [ys[0]] + Insert(x, ys[1..], leq)
  {
  }

  lemma {:induction false} SortStable<T(!new)>(xs: seq<T>, leq: (T, T) -> bool, f: T -> bool)
    requires forall a, b :: f(a) && f(b) ==> leq(a, b)
    ensures Filter(Sort(xs, leq), f) == Filter(xs, f)
  {
    if xs != [] {
      SortStable(xs[1..], leq, f);
      InsertStable(xs[0], Sort(xs[1..], leq), leq, f);
    }
  }

  /** Stability: the head of the sorted sequence is the first of the least elements. */
  lemma {:induction false} SortHead<T(!new)>(xs: seq<T>, leq: (T, T) -> bool) returns (k: nat)
    requires TotalPreorder(leq) && xs != []
    ensures k < |xs| && Sort(xs, leq) != [] && Sort(xs, leq)[0] == xs[k]
    ensures forall j :: 0 <= j < |xs| ==> leq(xs[k], xs[j]) && (j < k ==> !leq(xs[j], xs[k]))
  {
    k := 0;
    SortPermutes(xs[1..], leq);
    if |xs| > 1 {
      var m := SortHead(xs[1..], leq);
      var least := xs[1..][m];
      if leq(xs[0], least) {
        forall j | 0 <= j < |xs| ensures leq(xs[0], xs[j]) {
          if j > 0 { assert xs[j] == xs[1..][j - 1]; }
        }
      } else {
        k := m + 1;
        forall j | 0 <= j < |xs| ensures leq(xs[k], xs[j]) && (j < k ==> !leq(xs[j], xs[k])) {
          if j > 0 { assert xs[j] == xs[1..][j - 1]; }
        }
      }
    }
  }

  // ---------------------------------------------------------------------------
  // Lexicographic order on sequences of numbers
  // ---------------------------------------------------------------------------

  predicate LexLeq(a: seq<int>, b: seq<int>) {
    a == [] || (b != [] && (a[0] < b[0] || (a[0] == b[0] && LexLeq(a[1..], b[1..]))))
  }

  lemma {:induction false} LexTotal(a: seq<int>, b: seq<int>)
    ensures LexLeq(a, b) || LexLeq(b, a)
  {
    if a != [] && b != [] { LexTotal(a[1..], b[1..]); }
  }

  lemma {:induction false} LexTransitive(a: seq<int>, b: seq<int>, c: seq<int>)
    requires LexLeq(a, b) && LexLeq(b, c)
    ensures LexLeq(a, c)
  {
    if a != [] && a[0] == b[0] && b[0] == c[0] { LexTransitive(a[1..], b[1..], c[1..]); }
  }

  lemma {:induction false} LexAntisymmetric(a: seq<int>, b: seq<int>)
    requires LexLeq(a, b) && LexLeq(b, a)
    ensures a == b
  {
    if a != [] {
      LexAntisymmetric(a[1..], b[1..]);
      assert a == [a[0]] + a[1..] && b == [b[0]] + b[1..];
    }
  }

  // ---------------------------------------------------------------------------
  // Strings in code point order, which is also the order of their UTF-8 bytes
  // ---------------------------------------------------------------------------

  function Codes(s: string): (n: seq<int>)
    ensures |n| == |s| && forall k :: 0 <= k < |s| ==> n[k] == s[k] as int
  {
    if s == [] then [] else [s[0] as int] + Codes(s[1..])
  }

  predicate StrLeq(a: string, b: string) {
    LexLeq(Codes(a), Codes(b))
  }

  lemma CodesInjective(a: string, b: string)
    requires Codes(a) == Codes(b)
    ensures a == b
  {
    assert forall k | 0 <= k < |a| :: Codes(a)[k] == a[k] as int && Codes(b)[k] == b[k] as int;
  }

  lemma StrOrder()
    ensures TotalPreorder(StrLeq) && Antisymmetric(StrLeq)
  {
    forall a, b ensures StrLeq(a, b) || StrLeq(b, a) { LexTotal(Codes(a), Codes(b)); }
    forall a, b, c | StrLeq(a, b) && StrLeq(b, c) ensures StrLeq(a, c) {
      LexTransitive(Codes(a), Codes(b), Codes(c));
    }
    forall a, b | StrLeq(a, b) && StrLeq(b, a) ensures a == b {
      LexAntisymmetric(Codes(a), Codes(b));
      CodesInjective(a, b);
    }
  }

  /** Equal, or smaller at the first difference, a proper prefix being smaller. */
  ghost predicate Ascending(a: string, b: string) {
    exists i :: 0 <= i <= |a| && i <= |b| && a[..i] == b[..i] && (i == |a| || (i < |b| && a[i] < b[i]))
  }

  lemma CodesTail(a: string)
    requires a != []
    ensures Codes(a)[1..] == Codes(a[1..]) && Codes(a)[0] == a[0] as int
  {}

  lemma AscendingStep(a: string, b: string)
    requires a != [] && b != []
    ensures Ascending(a, b) <==> a[0] < b[0] || (a[0] == b[0] && Ascending(a[1..], b[1..]))
  {
    if Ascending(a, b) {
      var i :| 0 <= i <= |a| && i <= |b| && a[..i] == b[..i] && (i == |a| || (i < |b| && a[i] < b[i]));
      if i > 0 {
        assert a[0] == a[..i][0] == b[..i][0] == b[0];
        assert a[1..][..i - 1] == a[..i][1..] && b[1..][..i - 1] == b[..i][1..];
        assert i == |a| || (i < |b| && a[1..][i - 1] < b[1..][i - 1]);
      }
    }
    if a[0] < b[0] { assert a[..0] == b[..0]; }
    if a[0] == b[0] && Ascending(a[1..], b[1..]) {
      var s, t := a[1..], b[1..];
      var i :| 0 <= i <= |s| && i <= |t| && s[..i] == t[..i] && (i == |s| || (i < |t| && s[i] < t[i]));
      assert a[..i + 1] == [a[0]] + s[..i] && b[..i + 1] == [b[0]] + t[..i];
      assert i + 1 == |a| || (i + 1 < |b| && a[i + 1] < b[i + 1]);
    }
  }

  lemma {:induction false} StrLeqIsAscending(a: string, b: string)
    ensures StrLeq(a, b) <==> Ascending(a, b)
  {
    hide Ascending;
    if a == [] || b == [] {
      AscendingEnds(a, b);
    } else {
      CodesTail(a);
      CodesTail(b);
      AscendingStep(a, b);
      StrLeqIsAscending(a[1..], b[1..]);
    }
  }

  lemma AscendingEnds(a: string, b: string)
    requires a == [] || b == []
    ensures Ascending(a, b) <==> a == []
  {
    if a == [] { assert a[..0] == b[..0]; }
  }
}
