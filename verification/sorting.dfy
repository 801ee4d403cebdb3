/**
 * Python's `sorted(..., key=...)` and pandas' `sort_index()`: a stable sort by an
 * integer key. Stability is stated as "the elements with any one key keep their order".
 */
module Sorting {
  import Seqs

  predicate SortedBy<T>(s: seq<T>, key: T -> int) {
    forall i, j :: 0 <= i < j < |s| ==> key(s[i]) <= key(s[j])
  }

  /** No two elements share a key (the row labels of a data frame with a fresh index). */
  predicate KeysDistinct<T>(s: seq<T>, key: T -> int) {
    forall i, j :: 0 <= i < j < |s| ==> key(s[i]) != key(s[j])
  }

  /** Puts `x` in front of the first element whose key is not smaller than its own. */
  function Insert<T(==)>(x: T, s: seq<T>, key: T -> int): (r: seq<T>)
    ensures multiset(r) == multiset(s) + multiset{x}
  {
    if s == [] || key(x) <= key(s[0]) then [x] + s
    else
      assert s == [s[0]] + s[1..];
      [s[0]] + Insert(x, s[1..], key)
  }

  lemma SortedCons<T>(y: T, r: seq<T>, key: T -> int)
    requires SortedBy(r, key)
    requires forall j :: 0 <= j < |r| ==> key(y) <= key(r[j])
    ensures SortedBy([y] + r, key)
  {
    forall i, j | 0 <= i < j < |r| + 1 ensures key(([y] + r)[i]) <= key(([y] + r)[j]) {
      assert ([y] + r)[j] == r[j - 1];
      if i > 0 {
        assert ([y] + r)[i] == r[i - 1];
      }
    }
  }

  lemma {:induction false} InsertSorted<T>(x: T, s: seq<T>, key: T -> int)
    requires SortedBy(s, key)
    ensures SortedBy(Insert(x, s, key), key)
  {
    if s == [] || key(x) <= key(s[0]) {
      SortedCons(x, s, key);
    } else {
      var rest := Insert(x, s[1..], key);
      assert SortedBy(s[1..], key) by {
        forall i, j | 0 <= i < j < |s| - 1 ensures key(s[1..][i]) <= key(s[1..][j]) {
          assert s[1..][i] == s[i + 1] && s[1..][j] == s[j + 1];
        }
      }
      InsertSorted(x, s[1..], key);
      forall j | 0 <= j < |rest|
        ensures key(s[0]) <= key(rest[j])
      {
        assert rest[j] in multiset(rest);
        assert rest[j] in s[1..] || rest[j] == x;
      }
      SortedCons(s[0], rest, key);
    }
  }

  /** `sorted(s, key=key)` */
  function SortBy<T(==)>(s: seq<T>, key: T -> int): (r: seq<T>)
    ensures SortedBy(r, key)
    ensures multiset(r) == multiset(s)
    ensures |r| == |s|
  {
    if s == [] then []
    else
      assert s == [s[0]] + s[1..];
      InsertSorted(s[0], SortBy(s[1..], key), key);
      Insert(s[0], SortBy(s[1..], key), key)
  }

  /** `[x]` when `x` has key `c`, otherwise nothing. */
  function Pick<T>(x: T, key: T -> int, c: int): seq<T> {
    if key(x) == c then [x] else []
  }

  lemma HavingCons<T(!new)>(x: T, s: seq<T>, key: T -> int, c: int)
    ensures Seqs.Having([x] + s, key, c) == Pick(x, key, c) + Seqs.Having(s, key, c)
  {
    Seqs.FilterAppend([x], s, Seqs.KeyIs(key, c));
    assert [x][..0] == [];
  }

  /** Two elements with different keys cannot both be picked, so their picks commute. */
  lemma PickSwap<T>(x: T, y: T, key: T -> int, c: int, rest: seq<T>)
    requires key(x) != key(y)
    ensures Pick(y, key, c) + (Pick(x, key, c) + rest) == Pick(x, key, c) + (Pick(y, key, c) + rest)
  {
    if key(y) == c {
      assert Pick(x, key, c) == [];
    } else {
      assert Pick(y, key, c) == [];
    }
  }

  /** Inserting puts `x` in front of the elements that share its key: the ones it passes have smaller keys. */
  lemma {:induction false} InsertHaving<T(!new)>(x: T, s: seq<T>, key: T -> int, c: int)
    ensures Seqs.Having(Insert(x, s, key), key, c) == Pick(x, key, c) + Seqs.Having(s, key, c)
  {
    if s == [] || key(x) <= key(s[0]) {
      HavingCons(x, s, key, c);
    } else {
      var rest := Insert(x, s[1..], key);
      var hs := Seqs.Having(s[1..], key, c);
      calc {
        Seqs.Having(Insert(x, s, key), key, c);
        Seqs.Having([s[0]] + rest, key, c);
        { HavingCons(s[0], rest, key, c); }
        Pick(s[0], key, c) + Seqs.Having(rest, key, c);
        { InsertHaving(x, s[1..], key, c); }
        Pick(s[0], key, c) + (Pick(x, key, c) + hs);
        { PickSwap(x, s[0], key, c, hs); }
        Pick(x, key, c) + (Pick(s[0], key, c) + hs);
        { HavingCons(s[0], s[1..], key, c); assert [s[0]] + s[1..] == s; }
        Pick(x, key, c) + Seqs.Having(s, key, c);
      }
    }
  }

  /** The sort is stable: the elements with key `c` come out in the order they went in. */
  lemma {:induction false} SortByStable<T(!new)>(s: seq<T>, key: T -> int, c: int)
    ensures Seqs.Having(SortBy(s, key), key, c) == Seqs.Having(s, key, c)
  {
    if s != [] {
      assert s == [s[0]] + s[1..];
      SortByStable(s[1..], key, c);
      InsertHaving(s[0], SortBy(s[1..], key), key, c);
      HavingCons(s[0], s[1..], key, c);
    }
  }

  lemma SortedTail<T>(s: seq<T>, key: T -> int)
    requires s != [] && SortedBy(s, key) && KeysDistinct(s, key)
    ensures SortedBy(s[1..], key) && KeysDistinct(s[1..], key)
  {
    forall i, j | 0 <= i < j < |s| - 1 ensures key(s[1..][i]) <= key(s[1..][j]) && key(s[1..][i]) != key(s[1..][j]) {
      assert s[1..][i] == s[i + 1] && s[1..][j] == s[j + 1];
    }
  }

  lemma HeadTail<T>(a: seq<T>, b: seq<T>)
    requires a != [] && b != [] && a[0] == b[0] && a[1..] == b[1..]
    ensures a == b
  {
    assert a == [a[0]] + a[1..] && b == [b[0]] + b[1..];
  }

  lemma MultisetTail<T>(s: seq<T>)
    requires s != []
    ensures multiset(s[1..]) == multiset(s) - multiset{s[0]}
  {
    assert s == [s[0]] + s[1..];
  }

  /** Two sorted arrangements of the same elements agree when no two elements share a key. */
  lemma {:induction false} SortedUnique<T>(a: seq<T>, b: seq<T>, key: T -> int)
    requires SortedBy(a, key) && SortedBy(b, key) && KeysDistinct(a, key)
    requires multiset(a) == multiset(b)
    ensures a == b
  {
    assert |a| == |multiset(a)| == |multiset(b)| == |b|;
    if a != [] {
      assert b[0] in multiset(a);
      var m :| 0 <= m < |a| && a[m] == b[0];
      assert a[0] in multiset(b);
      var n :| 0 <= n < |b| && b[n] == a[0];
      assert key(a[0]) <= key(a[m]) == key(b[0]);
      assert key(b[0]) <= key(b[n]) == key(a[0]);
      assert m == 0;
      MultisetTail(a);
      MultisetTail(b);
      SortedTail(a, key);
      assert SortedBy(b[1..], key) by {
        forall i, j | 0 <= i < j < |b| - 1 ensures key(b[1..][i]) <= key(b[1..][j]) {
          assert b[1..][i] == b[i + 1] && b[1..][j] == b[j + 1];
        }
      }
      SortedUnique(a[1..], b[1..], key);
      HeadTail(a, b);
    }
  }
}
