/** Sequence helpers: duplicate-free lists, first-appearance de-duplication, first-occurrence removal. */
module Seqs {

  predicate Distinct<T(==)>(s: seq<T>) {
    forall i, j :: 0 <= i < j < |s| ==> s[i] != s[j]
  }

  /** Position of the first occurrence of `x` (JavaScript `indexOf`, Python `list.index`). */
  function FirstIndex<T(==)>(s: seq<T>, x: T): (i: nat)
    requires x in s
    ensures i < |s| && s[i] == x
    ensures forall j :: 0 <= j < i ==> s[j] != x
  {
    if s[0] == x then 0 else 1 + FirstIndex(s[1..], x)
  }

  /**
   * The elements of `s` without repetitions, each at its first appearance: what a
   * JavaScript `Set` filled from `s` in order enumerates.
   */
  function Dedup<T(==,!new)>(s: seq<T>): (d: seq<T>)
    ensures Distinct(d)
    ensures forall x :: x in d <==> x in s
    ensures |d| <= |s|
  {
    if s == [] then []
    else
      var p := Dedup(s[..|s| - 1]);
      if s[|s| - 1] in p then p else p + [s[|s| - 1]]
  }

  /** Appending one element to a de-duplicated list: kept only if it is new. */
  lemma DedupSnoc<T(!new)>(s: seq<T>, x: T)
    ensures Dedup(s + [x]) == if x in Dedup(s) then Dedup(s) else Dedup(s) + [x]
  {
    assert (s + [x])[..|s + [x]| - 1] == s;
  }

  lemma FirstIndexPrefix<T>(s: seq<T>, k: nat, x: T)
    requires k <= |s| && x in s[..k]
    ensures FirstIndex(s[..k], x) == FirstIndex(s, x)
  {
    var i := FirstIndex(s[..k], x);
    var j := FirstIndex(s, x);
    assert s[..k][i] == s[i] == x;
    assert forall m :: 0 <= m < k ==> s[..k][m] == s[m];
  }

  /** De-duplication keeps the order of first appearance. */
  lemma {:induction false} DedupFirstAppearance<T(!new)>(s: seq<T>)
    ensures forall i, j :: 0 <= i < j < |Dedup(s)| ==> FirstIndex(s, Dedup(s)[i]) < FirstIndex(s, Dedup(s)[j])
  {
    if s != [] {
      var init := s[..|s| - 1];
      var last := s[|s| - 1];
      var p := Dedup(init);
      DedupFirstAppearance(init);
      forall x | x in p
        ensures FirstIndex(s, x) == FirstIndex(init, x) < |s| - 1
      {
        assert init == s[..|s| - 1];
        FirstIndexPrefix(s, |s| - 1, x);
      }
      if last !in p {
        assert last !in init;
        assert forall m :: 0 <= m < |s| - 1 ==> s[m] == init[m];
        assert FirstIndex(s, last) == |s| - 1;
      }
    }
  }

  /** A sequence that has no repetitions is its own de-duplication. */
  lemma {:induction false} DedupOfDistinct<T(!new)>(s: seq<T>)
    requires Distinct(s)
    ensures Dedup(s) == s
  {
    if s != [] {
      var init := s[..|s| - 1];
      assert Distinct(init);
      DedupOfDistinct(init);
      assert s[|s| - 1] !in init;
      assert init + [s[|s| - 1]] == s;
    }
  }

  /** Python `list.remove(x)`: drops the first occurrence of `x`; `None` when `x` is absent (ValueError). */
  function RemoveFirst<T(==)>(s: seq<T>, x: T): (r: seq<T>)
    requires x in s
    ensures |r| == |s| - 1
    ensures r == s[..FirstIndex(s, x)] + s[FirstIndex(s, x) + 1..]
  {
    if s[0] == x then s[1..] else [s[0]] + RemoveFirst(s[1..], x)
  }

  /** In a duplicate-free list, removing `x` keeps every other element, in order, and drops `x`. */
  lemma RemoveFirstDistinct<T>(s: seq<T>, x: T)
    requires x in s && Distinct(s)
    ensures x !in RemoveFirst(s, x)
    ensures forall y :: y in RemoveFirst(s, x) <==> y in s && y != x
    ensures Distinct(RemoveFirst(s, x))
  {
    var k := FirstIndex(s, x);
    var r := RemoveFirst(s, x);
    assert forall m :: 0 <= m < |r| ==> r[m] == s[if m < k then m else m + 1];
    forall y | y in r ensures y in s && y != x {
      var m :| 0 <= m < |r| && r[m] == y;
    }
    forall y | y in s && y != x ensures y in r {
      var m :| 0 <= m < |s| && s[m] == y;
      if m < k { assert r[m] == y; } else { assert r[m - 1] == y; }
    }
    forall i, j | 0 <= i < j < |r| ensures r[i] != r[j] {
      var i', j' := if i < k then i else i + 1, if j < k then j else j + 1;
      assert r[i] == s[i'] && r[j] == s[j'] && i' < j';
    }
  }

  /** The elements of `s` that satisfy `p`, in their order (`Array.prototype.filter`). */
  function Filter<T(!new)>(s: seq<T>, p: T -> bool): (r: seq<T>)
    ensures forall x :: x in r <==> x in s && p(x)
    ensures |r| <= |s|
  {
    if s == [] then []
    else
      var rest := Filter(s[..|s| - 1], p);
      if p(s[|s| - 1]) then rest + [s[|s| - 1]] else rest
  }

  lemma FilterSnoc<T(!new)>(s: seq<T>, x: T, p: T -> bool)
    ensures Filter(s + [x], p) == Filter(s, p) + (if p(x) then [x] else [])
  {
    assert (s + [x])[..|s|] == s;
  }

  /** Filtering distributes over concatenation, so it keeps the relative order of what it keeps. */
  lemma {:induction false} FilterAppend<T(!new)>(a: seq<T>, b: seq<T>, p: T -> bool)
    ensures Filter(a + b, p) == Filter(a, p) + Filter(b, p)
    decreases |b|
  {
    if b == [] {
      assert a + b == a;
    } else {
      var init, last := b[..|b| - 1], b[|b| - 1];
      var kept: seq<T> := if p(last) then [last] else [];
      assert b == init + [last];
      calc {
        Filter(a + b, p);
        { assert a + b == (a + init) + [last]; }
        Filter((a + init) + [last], p);
        { FilterSnoc(a + init, last, p); }
        Filter(a + init, p) + kept;
        { FilterAppend(a, init, p); }
        (Filter(a, p) + Filter(init, p)) + kept;
        Filter(a, p) + (Filter(init, p) + kept);
        { FilterSnoc(init, last, p); }
        Filter(a, p) + Filter(b, p);
      }
    }
  }

  /** A filter that rejects nothing returns its input. */
  lemma {:induction false} FilterAll<T(!new)>(s: seq<T>, p: T -> bool)
    requires forall i :: 0 <= i < |s| ==> p(s[i])
    ensures Filter(s, p) == s
  {
    if s != [] {
      FilterAll(s[..|s| - 1], p);
      assert s[..|s| - 1] + [s[|s| - 1]] == s;
    }
  }

  /** A filter that keeps nothing returns the empty list. */
  lemma {:induction false} FilterNone<T(!new)>(s: seq<T>, p: T -> bool)
    requires forall i :: 0 <= i < |s| ==> !p(s[i])
    ensures Filter(s, p) == []
  {
    if s != [] {
      FilterNone(s[..|s| - 1], p);
    }
  }

  /** Filtering a list without repetitions keeps it without repetitions. */
  lemma {:induction false} FilterDistinct<T(!new)>(s: seq<T>, p: T -> bool)
    requires Distinct(s)
    ensures Distinct(Filter(s, p))
  {
    if s != [] {
      var init := s[..|s| - 1];
      FilterDistinct(init, p);
      assert s[|s| - 1] !in init;
    }
  }

  /** `[f(x) for x in s]` */
  function Map<T, U>(s: seq<T>, f: T -> U): (r: seq<U>)
    ensures |r| == |s|
    ensures forall i :: 0 <= i < |s| ==> r[i] == f(s[i])
  {
    seq(|s|, i requires 0 <= i < |s| => f(s[i]))
  }

  lemma MapSnoc<T, U>(s: seq<T>, x: T, f: T -> U)
    ensures Map(s + [x], f) == Map(s, f) + [f(x)]
  {
  }

  /** Mapping what a filter kept is filtering what the map produced, when the test reads through the map. */
  lemma {:induction false} MapFilter<T(!new), U(!new)>(s: seq<T>, p: T -> bool, f: T -> U, q: U -> bool)
    requires forall x :: q(f(x)) == p(x)
    ensures Map(Filter(s, p), f) == Filter(Map(s, f), q)
  {
    if s != [] {
      var init, last := s[..|s| - 1], s[|s| - 1];
      assert s == init + [last];
      MapSnoc(init, last, f);
      MapFilter(init, p, f, q);
      FilterSnoc(init, last, p);
      FilterSnoc(Map(init, f), f(last), q);
      if p(last) {
        MapSnoc(Filter(init, p), last, f);
      }
    }
  }

  /** The test "its key is `v`". */
  function KeyIs<T, K(==)>(key: T -> K, v: K): T -> bool {
    x => key(x) == v
  }

  /** The test "its key is one of `vs`". */
  function KeyIn<T, K(==)>(key: T -> K, vs: seq<K>): T -> bool {
    x => key(x) in vs
  }

  /** The elements of `s` whose key is `v` (a pandas selection `df[df[col] == v]`), in order. */
  function Having<T(!new), K(==)>(s: seq<T>, key: T -> K, v: K): (r: seq<T>)
    ensures forall x :: x in r <==> x in s && key(x) == v
  {
    Filter(s, KeyIs(key, v))
  }

  /** The groups of `s` for the keys `vs`, one after another (`pd.concat` of the selections). */
  function Groups<T(!new), K(==)>(s: seq<T>, key: T -> K, vs: seq<K>): seq<T> {
    if vs == [] then [] else Groups(s, key, vs[..|vs| - 1]) + Having(s, key, vs[|vs| - 1])
  }

  /** Selecting by one more key adds exactly that key's group. */
  lemma {:induction false} FilterKeyInSnoc<T(!new), K>(s: seq<T>, key: T -> K, vs: seq<K>, v: K)
    requires v !in vs
    ensures multiset(Filter(s, KeyIn(key, vs + [v]))) == multiset(Filter(s, KeyIn(key, vs))) + multiset(Having(s, key, v))
  {
    if s != [] {
      FilterKeyInSnoc(s[..|s| - 1], key, vs, v);
    }
  }

  /** Grouping by distinct keys rearranges the elements those keys select: nothing is lost or repeated. */
  lemma {:induction false} GroupsSelect<T(!new), K>(s: seq<T>, key: T -> K, vs: seq<K>)
    requires Distinct(vs)
    ensures multiset(Groups(s, key, vs)) == multiset(Filter(s, KeyIn(key, vs)))
  {
    if vs == [] {
      FilterNone(s, KeyIn(key, vs));
    } else {
      var init := vs[..|vs| - 1];
      assert vs == init + [vs[|vs| - 1]];
      GroupsSelect(s, key, init);
      FilterKeyInSnoc(s, key, init, vs[|vs| - 1]);
    }
  }

  /** When the keys cover every element, the groups are a permutation of `s`. */
  lemma GroupsPermutation<T(!new), K>(s: seq<T>, key: T -> K, vs: seq<K>)
    requires Distinct(vs)
    requires forall i :: 0 <= i < |s| ==> key(s[i]) in vs
    ensures multiset(Groups(s, key, vs)) == multiset(s)
  {
    GroupsSelect(s, key, vs);
    FilterAll(s, KeyIn(key, vs));
  }
}
