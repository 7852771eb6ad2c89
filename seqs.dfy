/** Generic list operations the workout code relies on: JavaScript's
    Array.prototype.filter, its stable sort, findIndex, and the
    "keep the first of each key" idiom. */
module Seqs {

  /** No two elements of `s` share a key. */
  ghost predicate DistinctBy<T, K>(s: seq<T>, key: T -> K) {
    forall i, j :: 0 <= i < j < |s| ==> key(s[i]) != key(s[j])
  }

  /** No element occurs twice in `s`. */
  ghost predicate Distinct<T>(s: seq<T>) {
    forall i, j :: 0 <= i < j < |s| ==> s[i] != s[j]
  }

  /** The elements of `s` that satisfy `p`, in their order in `s`
      (Array.prototype.filter). */
  function Filter<T>(s: seq<T>, p: T -> bool): seq<T>
    decreases |s|
  {
    if s == [] then []
    else
      var init, last := s[..|s| - 1], s[|s| - 1];
      assert s == init + [last];
      var r := Filter(init, p);
      if p(last) then r + [last] else r
  }

  /** The filter keeps exactly the elements of `s` that satisfy `p`. */
  lemma {:induction false} FilterMembers<T>(s: seq<T>, p: T -> bool)
    ensures forall x :: x in Filter(s, p) ==> x in s && p(x)
    ensures forall x :: x in s && p(x) ==> x in Filter(s, p)
    decreases |s|
  {
    if s != [] {
      var init, last := s[..|s| - 1], s[|s| - 1];
      assert s == init + [last];
      FilterMembers(init, p);
    }
  }

  /** Every element that satisfies `p` is kept as often as it occurs, and
      no other element is kept. */
  lemma {:induction false} FilterCount<T>(s: seq<T>, p: T -> bool, x: T)
    ensures multiset(Filter(s, p))[x] == if p(x) then multiset(s)[x] else 0
    decreases |s|
  {
    if s != [] {
      var init, last := s[..|s| - 1], s[|s| - 1];
      assert s == init + [last];
      FilterCount(init, p, x);
    }
  }

  /** Filtering distributes over concatenation: the kept elements keep
      their relative order. */
  lemma {:induction false} FilterConcat<T>(a: seq<T>, b: seq<T>, p: T -> bool)
    ensures Filter(a + b, p) == Filter(a, p) + Filter(b, p)
    decreases |b|
  {
    if b == [] {
      assert a + b == a;
    } else {
      var b', y := b[..|b| - 1], b[|b| - 1];
      assert (a + b)[..|a + b| - 1] == a + b';
      assert (a + b)[|a + b| - 1] == y;
      FilterConcat(a, b', p);
    }
  }

  /** Filtering a one-element list. */
  lemma FilterSingleton<T>(x: T, p: T -> bool)
    ensures Filter([x], p) == if p(x) then [x] else []
  {
    assert [x][..0] == [];
  }

  /** Filtering a list given by its head and tail. */
  lemma FilterCons<T>(x: T, s: seq<T>, p: T -> bool)
    ensures Filter([x] + s, p) == (if p(x) then [x] else []) + Filter(s, p)
  {
    FilterConcat([x], s, p);
    FilterSingleton(x, p);
  }

  /** Filtering a list given by its front and its last element. */
  lemma FilterSnoc<T>(s: seq<T>, x: T, p: T -> bool)
    ensures Filter(s + [x], p) == Filter(s, p) + (if p(x) then [x] else [])
  {
    FilterConcat(s, [x], p);
    FilterSingleton(x, p);
  }

  /** Two kept elements appear in the filter in the order they have in
      `s`; `a` and `b` are their positions in the filter. */
  lemma FilterOrderAt<T>(s: seq<T>, p: T -> bool, i: int, j: int) returns (a: int, b: int)
    requires 0 <= i < j < |s| && p(s[i]) && p(s[j])
    ensures 0 <= a < b < |Filter(s, p)|
    ensures Filter(s, p)[a] == s[i] && Filter(s, p)[b] == s[j]
  {
    var front, back := s[..j], s[j + 1..];
    assert s == front + [s[j]] + back;
    FilterConcat(front + [s[j]], back, p);
    FilterSnoc(front, s[j], p);
    FilterMembers(front, p);
    assert s[i] == front[i];
    var f := Filter(front, p);
    assert s[i] in f;
    a :| 0 <= a < |f| && f[a] == s[i];
    b := |f|;
  }

  /** The filter keeps the relative order of the elements it keeps. */
  lemma FilterKeepsOrder<T>(s: seq<T>, p: T -> bool, i: int, j: int)
    requires 0 <= i < j < |s| && p(s[i]) && p(s[j])
    ensures exists a, b :: 0 <= a < b < |Filter(s, p)| && Filter(s, p)[a] == s[i] && Filter(s, p)[b] == s[j]
  {
    var a, b := FilterOrderAt(s, p, i, j);
  }

  /** A filter that every element passes changes nothing. */
  lemma {:induction false} FilterAll<T>(s: seq<T>, p: T -> bool)
    requires forall x :: x in s ==> p(x)
    ensures Filter(s, p) == s
    decreases |s|
  {
    if s != [] {
      assert s[|s| - 1] in s;
      assert s == s[..|s| - 1] + [s[|s| - 1]];
      FilterAll(s[..|s| - 1], p);
    }
  }

  /** A filter that no element passes leaves nothing. */
  lemma {:induction false} FilterNone<T>(s: seq<T>, p: T -> bool)
    requires forall x :: x in s ==> !p(x)
    ensures Filter(s, p) == []
    decreases |s|
  {
    if s != [] {
      assert s[|s| - 1] in s;
      assert s == s[..|s| - 1] + [s[|s| - 1]];
      FilterNone(s[..|s| - 1], p);
    }
  }

  /** Filtering by `p` after filtering by a weaker `q` is filtering by `p`. */
  lemma {:induction false} FilterSubsumed<T>(s: seq<T>, q: T -> bool, p: T -> bool)
    requires forall x :: p(x) ==> q(x)
    ensures Filter(Filter(s, q), p) == Filter(s, p)
    decreases |s|
  {
    if s != [] {
      var init, last := s[..|s| - 1], s[|s| - 1];
      assert s == init + [last];
      FilterSubsumed(init, q, p);
      if q(last) {
        FilterSnoc(Filter(init, q), last, p);
      }
    }
  }

  /** A filter keeps keys distinct. */
  lemma {:induction false} FilterKeepsDistinct<T, K>(s: seq<T>, p: T -> bool, key: T -> K)
    requires DistinctBy(s, key)
    ensures DistinctBy(Filter(s, p), key)
    decreases |s|
  {
    if s != [] {
      var init, last := s[..|s| - 1], s[|s| - 1];
      assert s == init + [last];
      FilterKeepsDistinct(init, p, key);
      FilterMembers(init, p);
      var r := Filter(init, p);
      if p(last) {
        forall i | 0 <= i < |r| ensures key(r[i]) != key(last) {
          assert r[i] in r;
          var j :| 0 <= j < |init| && init[j] == r[i];
          assert s[j] == init[j];
        }
      }
    }
  }

  // ---------------------------------------------------------------------
  // Stable sort, descending by an integer key.

  /** `s` is ordered by `key`, largest first. */
  ghost predicate SortedDesc<T>(s: seq<T>, key: T -> int) {
    forall i, j :: 0 <= i < j < |s| ==> key(s[i]) >= key(s[j])
  }

  /** The predicate "has key `k`". */
  function KeyIs<T, K(==)>(key: T -> K, k: K): T -> bool {
    x => key(x) == k
  }

  /** Inserts `x` in front of the first element whose key is not larger
      than its own, so that `x` precedes the elements with an equal key. */
  function InsertDesc<T>(x: T, s: seq<T>, key: T -> int): seq<T> {
    if s == [] || key(s[0]) <= key(x) then [x] + s
    else [s[0]] + InsertDesc(x, s[1..], key)
  }

  /** Insertion adds exactly `x`. */
  lemma {:induction false} InsertDescPermutes<T>(x: T, s: seq<T>, key: T -> int)
    ensures multiset(InsertDesc(x, s, key)) == multiset(s) + multiset{x}
  {
    if s != [] && key(s[0]) > key(x) {
      InsertDescPermutes(x, s[1..], key);
      assert s == [s[0]] + s[1..];
    }
  }

  /** Insertion keeps a list sorted. */
  lemma {:induction false} InsertDescSorted<T>(x: T, s: seq<T>, key: T -> int)
    requires SortedDesc(s, key)
    ensures SortedDesc(InsertDesc(x, s, key), key)
  {
    if s != [] && key(s[0]) > key(x) {
      var rest := InsertDesc(x, s[1..], key);
      InsertDescSorted(x, s[1..], key);
      InsertDescPermutes(x, s[1..], key);
      forall j | 0 <= j < |rest| ensures key(s[0]) >= key(rest[j]) {
        assert rest[j] in multiset(rest);
        assert rest[j] == x || rest[j] in multiset(s[1..]);
      }
    }
  }

  /** Insertion sort, largest key first, stable: the model of JavaScript's
      sort with a descending key comparator, which the language requires to
      be stable. */
  function SortDesc<T(==)>(s: seq<T>, key: T -> int): (r: seq<T>)
    ensures multiset(r) == multiset(s)
    ensures |r| == |s|
    ensures SortedDesc(r, key)
  {
    if s == [] then []
    else
      assert s == [s[0]] + s[1..];
      var t := SortDesc(s[1..], key);
      InsertDescSorted(s[0], t, key);
      InsertDescPermutes(s[0], t, key);
      var r := InsertDesc(s[0], t, key);
      assert |r| == |multiset(r)|;
      r
  }

  /** Insertion places `x` before every element that has its key. */
  lemma {:induction false} FilterInsertDesc<T>(x: T, s: seq<T>, key: T -> int, k: int)
    ensures Filter(InsertDesc(x, s, key), KeyIs(key, k))
         == (if key(x) == k then [x] else []) + Filter(s, KeyIs(key, k))
  {
    var p := KeyIs(key, k);
    if s == [] || key(s[0]) <= key(x) {
      FilterCons(x, s, p);
    } else {
      var t := InsertDesc(x, s[1..], key);
      assert InsertDesc(x, s, key) == [s[0]] + t;
      var head := if p(s[0]) then [s[0]] else [];
      FilterInsertDesc(x, s[1..], key, k);
      FilterCons(s[0], t, p);
      assert Filter([s[0]] + t, p) == head + Filter(t, p);
      assert s == [s[0]] + s[1..];
      FilterCons(s[0], s[1..], p);
      assert Filter(s, p) == head + Filter(s[1..], p);
      if key(x) == k {
        assert head == [];
      }
    }
  }

  /** Stability: among the elements that share a key, the sort keeps
      their input order. */
  lemma {:induction false} SortDescStable<T>(s: seq<T>, key: T -> int, k: int)
    ensures Filter(SortDesc(s, key), KeyIs(key, k)) == Filter(s, KeyIs(key, k))
  {
    if s != [] {
      SortDescStable(s[1..], key, k);
      assert SortDesc(s, key) == InsertDesc(s[0], SortDesc(s[1..], key), key);
      FilterInsertDesc(s[0], SortDesc(s[1..], key), key, k);
      assert s == [s[0]] + s[1..];
      FilterCons(s[0], s[1..], KeyIs(key, k));
    }
  }

  /** Sorting a sorted list changes nothing. */
  lemma {:induction false} SortDescSorted<T>(s: seq<T>, key: T -> int)
    requires SortedDesc(s, key)
    ensures SortDesc(s, key) == s
  {
    if s != [] {
      SortDescSorted(s[1..], key);
      assert s == [s[0]] + s[1..];
    }
  }

  /** A permutation of a duplicate-free list is duplicate-free. */
  lemma {:induction false} PermutationKeepsDistinct<T>(a: seq<T>, b: seq<T>)
    requires Distinct(a) && multiset(a) == multiset(b)
    ensures Distinct(b)
  {
    forall i, j | 0 <= i < j < |b| ensures b[i] != b[j] {
      if b[i] == b[j] {
        var x := b[i];
        assert b == b[..i] + [x] + b[i + 1..j] + [x] + b[j + 1..];
        assert multiset(b)[x] >= 2;
        DistinctCountsOnce(a, x);
      }
    }
  }

  /** In a duplicate-free list every element is counted at most once. */
  lemma {:induction false} DistinctCountsOnce<T>(a: seq<T>, x: T)
    requires Distinct(a)
    ensures multiset(a)[x] <= 1
  {
    if a != [] {
      assert a == [a[0]] + a[1..];
      DistinctCountsOnce(a[1..], x);
      if a[0] == x {
        assert x !in a[1..];
      }
    }
  }

  // ---------------------------------------------------------------------
  // findIndex and first occurrences.

  /** The first index at or after `from` whose key is `k`, or -1
      (Array.prototype.findIndex when `from` is 0). */
  function IndexOfKeyFrom<T, K(==)>(s: seq<T>, key: T -> K, k: K, from: nat): (r: int)
    requires from <= |s|
    ensures r == -1 || from <= r < |s|
    ensures r == -1 ==> forall j :: from <= j < |s| ==> key(s[j]) != k
    ensures r != -1 ==> key(s[r]) == k && forall j :: from <= j < r ==> key(s[j]) != k
    decreases |s| - from
  {
    if from == |s| then -1
    else if key(s[from]) == k then from
    else IndexOfKeyFrom(s, key, k, from + 1)
  }

  /** The first index of `s` whose key is `k`, or -1. */
  function IndexOfKey<T, K(==)>(s: seq<T>, key: T -> K, k: K): int {
    IndexOfKeyFrom(s, key, k, 0)
  }

  /** The elements of `s[..n]` that are the first of their key in `s`,
      in order. */
  function FirstsUpTo<T, K(==)>(s: seq<T>, key: T -> K, n: nat): seq<T>
    requires n <= |s|
  {
    if n == 0 then []
    else
      FirstsUpTo(s, key, n - 1)
        + (if IndexOfKey(s, key, key(s[n - 1])) == n - 1 then [s[n - 1]] else [])
  }

  /** `FirstsUpTo` keeps only first occurrences of keys of `s[..n]`. */
  lemma {:induction false} FirstsAreFirst<T, K>(s: seq<T>, key: T -> K, n: nat)
    requires n <= |s|
    ensures forall x :: x in FirstsUpTo(s, key, n) ==>
              0 <= IndexOfKey(s, key, key(x)) < n && x == s[IndexOfKey(s, key, key(x))]
  {
    if n > 0 {
      FirstsAreFirst(s, key, n - 1);
    }
  }

  /** `FirstsUpTo` keeps one element of every key of `s[..n]`. */
  lemma {:induction false} FirstsCover<T, K>(s: seq<T>, key: T -> K, n: nat)
    requires n <= |s|
    ensures forall i :: 0 <= i < n ==> exists x :: x in FirstsUpTo(s, key, n) && key(x) == key(s[i])
  {
    if n > 0 {
      FirstsCover(s, key, n - 1);
      var r, r' := FirstsUpTo(s, key, n - 1), FirstsUpTo(s, key, n);
      assert forall y :: y in r ==> y in r';
      var first := IndexOfKey(s, key, key(s[n - 1]));
      if first == n - 1 {
        assert s[n - 1] in r';
      } else {
        var y :| y in r && key(y) == key(s[first]);
        assert y in r' && key(y) == key(s[n - 1]);
      }
    }
  }

  /** The elements of `r` appear in `s` first in the order of `r`. */
  ghost predicate InFirstOrder<T, K>(s: seq<T>, key: T -> K, r: seq<T>) {
    forall i, j :: 0 <= i < j < |r| ==> IndexOfKey(s, key, key(r[i])) < IndexOfKey(s, key, key(r[j]))
  }

  /** `FirstsUpTo` lists the kept elements in the order of `s`. */
  lemma {:induction false} FirstsOrdered<T, K>(s: seq<T>, key: T -> K, n: nat)
    requires n <= |s|
    ensures InFirstOrder(s, key, FirstsUpTo(s, key, n))
  {
    if n > 0 {
      FirstsOrdered(s, key, n - 1);
      FirstsAreFirst(s, key, n - 1);
      var r, r' := FirstsUpTo(s, key, n - 1), FirstsUpTo(s, key, n);
      if IndexOfKey(s, key, key(s[n - 1])) == n - 1 {
        assert r' == r + [s[n - 1]];
        forall i, j | 0 <= i < j < |r'|
          ensures IndexOfKey(s, key, key(r'[i])) < IndexOfKey(s, key, key(r'[j]))
        {
          assert r'[i] == r[i];
          assert r[i] in r;
          if j < |r| {
            assert r'[j] == r[j];
          } else {
            assert r'[j] == s[n - 1];
            assert IndexOfKey(s, key, key(r'[j])) == n - 1;
            assert IndexOfKey(s, key, key(r[i])) < n - 1;
          }
        }
      } else {
        assert r' == r;
      }
    }
  }

  /** The de-duplication idiom that keeps an element only when it sits at
      the first index of its key: the first element of each key, in the
      order of `s`. */
  function UniqueBy<T, K(==)>(s: seq<T>, key: T -> K): (r: seq<T>)
    ensures DistinctBy(r, key)
    ensures forall x :: x in s ==> exists y :: y in r && key(y) == key(x)
    ensures forall y :: y in r ==> 0 <= IndexOfKey(s, key, key(y)) < |s| && y == s[IndexOfKey(s, key, key(y))]
    ensures InFirstOrder(s, key, r)
  {
    FirstsAreFirst(s, key, |s|);
    FirstsCover(s, key, |s|);
    FirstsOrdered(s, key, |s|);
    FirstsUpTo(s, key, |s|)
  }

  /** Without duplicate keys, de-duplication is the identity. */
  lemma {:induction false} UniqueByDistinct<T, K>(s: seq<T>, key: T -> K)
    requires DistinctBy(s, key)
    ensures UniqueBy(s, key) == s
  {
    forall n | 0 <= n <= |s| ensures FirstsUpTo(s, key, n) == s[..n] {
      FirstsPrefix(s, key, n);
    }
    assert s[..|s|] == s;
  }

  lemma {:induction false} FirstsPrefix<T, K>(s: seq<T>, key: T -> K, n: nat)
    requires DistinctBy(s, key) && n <= |s|
    ensures FirstsUpTo(s, key, n) == s[..n]
  {
    if n > 0 {
      FirstsPrefix(s, key, n - 1);
      var first := IndexOfKey(s, key, key(s[n - 1]));
      assert first == n - 1;
      assert s[..n] == s[..n - 1] + [s[n - 1]];
    }
  }

  // ---------------------------------------------------------------------
  // Grouping by key: the groups, concatenated, are a permutation.

  /** The concatenation, in the order of `keys`, of the group of each key. */
  function ConcatGroups<T(==), K(==)>(s: seq<T>, key: T -> K, keys: seq<K>): seq<T> {
    if keys == [] then []
    else Filter(s, KeyIs(key, keys[0])) + ConcatGroups(s, key, keys[1..])
  }

  lemma {:induction false} ConcatGroupsSnoc<T, K>(s: seq<T>, x: T, key: T -> K, keys: seq<K>)
    requires Distinct(keys)
    ensures multiset(ConcatGroups(s + [x], key, keys))
         == multiset(ConcatGroups(s, key, keys)) + (if key(x) in keys then multiset{x} else multiset{})
  {
    if keys != [] {
      var k, rest := keys[0], keys[1..];
      assert keys == [k] + rest;
      ConcatGroupsSnoc(s, x, key, rest);
      FilterSnoc(s, x, KeyIs(key, k));
      assert key(x) == k ==> key(x) !in rest;
      JoinCounts(Filter(s, KeyIs(key, k)), Filter(s + [x], KeyIs(key, k)),
                 ConcatGroups(s, key, rest), ConcatGroups(s + [x], key, rest),
                 if key(x) == k then multiset{x} else multiset{},
                 if key(x) in rest then multiset{x} else multiset{});
    }
  }

  lemma JoinCounts<T>(g: seq<T>, g': seq<T>, b: seq<T>, a: seq<T>, inK: multiset<T>, inRest: multiset<T>)
    requires multiset(g') == multiset(g) + inK
    requires multiset(a) == multiset(b) + inRest
    ensures multiset(g' + a) == multiset(g + b) + inK + inRest
  {
  }

  /** Grouping by key partitions the input: when every key occurs in
      `keys` exactly once, the groups together hold each element exactly
      as often as the input does. */
  lemma {:induction false} ConcatGroupsPermutation<T, K>(s: seq<T>, key: T -> K, keys: seq<K>)
    requires Distinct(keys)
    requires forall x :: x in s ==> key(x) in keys
    ensures multiset(ConcatGroups(s, key, keys)) == multiset(s)
    ensures |ConcatGroups(s, key, keys)| == |s|
    decreases |s|
  {
    if s == [] {
      EmptyGroups(key, keys);
    } else {
      var init, last := s[..|s| - 1], s[|s| - 1];
      assert s == init + [last];
      ConcatGroupsPermutation(init, key, keys);
      ConcatGroupsSnoc(init, last, key, keys);
    }
    assert |ConcatGroups(s, key, keys)| == |multiset(ConcatGroups(s, key, keys))|;
  }

  lemma {:induction false} EmptyGroups<T, K>(key: T -> K, keys: seq<K>)
    ensures ConcatGroups([], key, keys) == []
  {
    if keys != [] {
      EmptyGroups(key, keys[1..]);
    }
  }
}
