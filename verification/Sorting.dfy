/** Rows ordered by a key without ties, as the stable library sorts leave them here. */
module Sorting {
  ghost predicate StrictOrder<T(!new)>(less: (T, T) -> bool) {
    && (forall a, b :: less(a, b) ==> !less(b, a))
    && (forall a, b, c :: less(a, b) && less(b, c) ==> less(a, c))
  }

  ghost predicate Ordered<T(!new)>(s: seq<T>, less: (T, T) -> bool) {
    forall i, j :: 0 <= i < j < |s| ==> less(s[i], s[j])
  }

  /** No two elements tie. */
  ghost predicate Untied<T(!new)>(s: seq<T>, less: (T, T) -> bool) {
    forall i, j :: 0 <= i < j < |s| ==> less(s[i], s[j]) || less(s[j], s[i])
  }

  /** Sorting by insertion, in place of the library's sort. */
  method Sort<T(!new)>(s: seq<T>, less: (T, T) -> bool) returns (sorted: seq<T>)
    requires StrictOrder(less) && Untied(s, less)
    ensures Ordered(sorted, less) && multiset(sorted) == multiset(s)
  {
    hide StrictOrder, Untied, Ordered;
    NothingOrdered(less);
    sorted := [];
    for i := 0 to |s|
      invariant Ordered(sorted, less) && multiset(sorted) == multiset(s[..i])
    {
      assert s[..i + 1] == s[..i] + [s[i]];
      UntiedRest(s, i, sorted, less);
      sorted := Insert(sorted, s[i], less);
    }
    assert s[..|s|] == s;
  }

  lemma NothingOrdered<T(!new)>(less: (T, T) -> bool)
    ensures Ordered([], less)
  {
  }

  lemma UntiedRest<T(!new)>(s: seq<T>, i: nat, sorted: seq<T>, less: (T, T) -> bool)
    requires i < |s| && multiset(sorted) == multiset(s[..i]) && Untied(s, less)
    ensures forall k :: 0 <= k < |sorted| ==> less(sorted[k], s[i]) || less(s[i], sorted[k])
  {
    forall k | 0 <= k < |sorted| ensures less(sorted[k], s[i]) || less(s[i], sorted[k]) {
      assert sorted[k] in multiset(sorted);
      assert sorted[k] in s[..i];
    }
  }

  method Insert<T(!new)>(sorted: seq<T>, e: T, less: (T, T) -> bool) returns (r: seq<T>)
    requires StrictOrder(less) && Ordered(sorted, less)
    requires forall k :: 0 <= k < |sorted| ==> less(sorted[k], e) || less(e, sorted[k])
    ensures Ordered(r, less) && multiset(r) == multiset(sorted) + multiset{e}
  {
    hide StrictOrder, Ordered;
    var k: nat := |sorted|;
    while k > 0 && less(e, sorted[k - 1])
      invariant k <= |sorted|
      invariant forall j :: k <= j < |sorted| ==> less(e, sorted[j])
    {
      k := k - 1;
    }
    r := sorted[..k] + [e] + sorted[k..];
    InsertedInOrder(sorted, k, e, less);
    InsertedElements(sorted, k, e);
  }

  lemma InsertedInOrder<T(!new)>(sorted: seq<T>, k: nat, e: T, less: (T, T) -> bool)
    requires StrictOrder(less) && Ordered(sorted, less) && k <= |sorted|
    requires k > 0 ==> less(sorted[k - 1], e)
    requires forall j :: k <= j < |sorted| ==> less(e, sorted[j])
    ensures Ordered(sorted[..k] + [e] + sorted[k..], less)
  {
    hide StrictOrder;
    OneOrdered(e, less);
    OrderedParts(sorted, k, less);
    HeadPrecedes(sorted, k, e, less);
    OrderedJoin(sorted[..k], [e], less);
    TailFollows(sorted, k, e, less);
    OrderedJoin(sorted[..k] + [e], sorted[k..], less);
  }

  lemma OneOrdered<T(!new)>(e: T, less: (T, T) -> bool)
    ensures Ordered([e], less)
  {
  }

  lemma OrderedParts<T(!new)>(s: seq<T>, k: nat, less: (T, T) -> bool)
    requires Ordered(s, less) && k <= |s|
    ensures Ordered(s[..k], less) && Ordered(s[k..], less)
  {
  }

  lemma InsertedElements<T>(s: seq<T>, k: nat, e: T)
    requires k <= |s|
    ensures multiset(s[..k] + [e] + s[k..]) == multiset(s) + multiset{e}
  {
    assert s == s[..k] + s[k..];
  }

  lemma HeadPrecedes<T(!new)>(sorted: seq<T>, k: nat, e: T, less: (T, T) -> bool)
    requires StrictOrder(less) && Ordered(sorted, less) && k <= |sorted| && (k > 0 ==> less(sorted[k - 1], e))
    ensures forall i :: 0 <= i < k ==> less(sorted[..k][i], e)
  {
    forall i | 0 <= i < k ensures less(sorted[i], e) {
      assert i < k - 1 ==> less(sorted[i], sorted[k - 1]);
    }
  }

  lemma TailFollows<T(!new)>(sorted: seq<T>, k: nat, e: T, less: (T, T) -> bool)
    requires Ordered(sorted, less) && k <= |sorted|
    requires forall j :: k <= j < |sorted| ==> less(e, sorted[j])
    ensures forall i, j :: 0 <= i < |sorted[..k] + [e]| && 0 <= j < |sorted[k..]| ==>
      less((sorted[..k] + [e])[i], sorted[k..][j])
  {
    forall i, j | 0 <= i < |sorted[..k] + [e]| && 0 <= j < |sorted[k..]|
      ensures less((sorted[..k] + [e])[i], sorted[k..][j])
    {
      assert sorted[k..][j] == sorted[k + j];
    }
  }

  lemma OrderedJoin<T(!new)>(a: seq<T>, b: seq<T>, less: (T, T) -> bool)
    requires Ordered(a, less) && Ordered(b, less)
    requires forall i, j :: 0 <= i < |a| && 0 <= j < |b| ==> less(a[i], b[j])
    ensures Ordered(a + b, less)
  {
  }

  lemma SameElements<T>(a: seq<T>, b: seq<T>)
    requires multiset(a) == multiset(b)
    ensures |a| == |b| && forall e :: e in a <==> e in b
  {
    assert |multiset(a)| == |a| && |multiset(b)| == |b|;
    forall e ensures e in a <==> e in b {
      assert e in multiset(a) <==> e in multiset(b);
    }
  }

  // ------------------------------------------------------------------
  // An ordered row is determined by its elements
  // ------------------------------------------------------------------

  lemma {:induction false} OrderedIsUnique<T(!new)>(a: seq<T>, b: seq<T>, less: (T, T) -> bool)
    requires StrictOrder(less) && Ordered(a, less) && Ordered(b, less)
    requires forall e :: e in a <==> e in b
    ensures a == b
    decreases |a|
  {
    EmptyTogether(a, b);
    if a != [] {
      assert a[0] in b;
      assert b[0] in a;
      FirstIsLeast(a, b[0], less);
      FirstIsLeast(b, a[0], less);
      SameRest(a, b, less);
      OrderedIsUnique(a[1..], b[1..], less);
      assert a == [a[0]] + a[1..] && b == [b[0]] + b[1..];
    }
  }

  lemma EmptyTogether<T>(a: seq<T>, b: seq<T>)
    requires forall e :: e in a <==> e in b
    ensures a == [] <==> b == []
  {
    if a != [] {
      assert a[0] in b;
    }
    if b != [] {
      assert b[0] in a;
    }
  }

  lemma FirstIsLeast<T(!new)>(s: seq<T>, e: T, less: (T, T) -> bool)
    requires Ordered(s, less) && e in s
    ensures s[0] == e || less(s[0], e)
  {
    var k :| 0 <= k < |s| && s[k] == e;
  }

  lemma SameRest<T(!new)>(a: seq<T>, b: seq<T>, less: (T, T) -> bool)
    requires StrictOrder(less) && Ordered(a, less) && Ordered(b, less) && |a| > 0 && |b| > 0 && a[0] == b[0]
    requires forall e :: e in a <==> e in b
    ensures forall e :: e in a[1..] <==> e in b[1..]
  {
    forall e ensures e in a[1..] <==> e in b[1..] {
      RestWithoutFirst(a, e, less);
      RestWithoutFirst(b, e, less);
    }
  }

  lemma RestWithoutFirst<T(!new)>(s: seq<T>, e: T, less: (T, T) -> bool)
    requires StrictOrder(less) && Ordered(s, less) && |s| > 0
    ensures e in s[1..] <==> e in s && e != s[0]
  {
    if e in s && e != s[0] {
      var k :| 0 <= k < |s| && s[k] == e;
      assert s[1..][k - 1] == e;
    }
    if e in s[1..] {
      var k :| 0 <= k < |s[1..]| && s[1..][k] == e;
      assert s[k + 1] == e && less(s[0], s[k + 1]);
    }
  }
}
