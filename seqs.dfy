/**
 * Kotlin's list operations `filter` and `sortedBy`, as functions on sequences.
 * `sortedBy` is a stable sort: elements with equal keys keep their relative order.
 */
module Seqs {

  /** `s.filter(p)`: the elements satisfying `p`, in their original order. */
  function Filter<T(!new)>(s: seq<T>, p: T -> bool): (r: seq<T>)
    ensures |r| <= |s|
    ensures forall x :: x in r <==> x in s && p(x)
    ensures forall i :: 0 <= i < |r| ==> p(r[i])
  {
    if s == [] then []
    else if p(s[0]) then [s[0]] + Filter(s[1..], p)
    else Filter(s[1..], p)
  }

  /** Filtering distributes over concatenation. */
  lemma {:induction false} FilterAppend<T(!new)>(a: seq<T>, b: seq<T>, p: T -> bool)
    ensures Filter(a + b, p) == Filter(a, p) + Filter(b, p)
  {
    if a != [] {
      var ab := a + b;
      assert ab[0] == a[0] && ab[1..] == a[1..] + b;
      FilterAppend(a[1..], b, p);
      if p(a[0]) {
        assert Filter(ab, p) == [a[0]] + (Filter(a[1..], p) + Filter(b, p));
      } else {
        assert Filter(ab, p) == Filter(a[1..], p) + Filter(b, p);
      }
    } else {
      assert a + b == b;
    }
  }

  /** Filtering keeps the multiplicity of every element that satisfies the predicate. */
  lemma {:induction false} FilterMultiset<T(!new)>(s: seq<T>, p: T -> bool, x: T)
    ensures multiset(Filter(s, p))[x] == if p(x) then multiset(s)[x] else 0
  {
    if s != [] {
      FilterMultiset(s[1..], p, x);
      assert s == [s[0]] + s[1..];
    }
  }

  /** The predicate "has key k", named so that every use denotes the same function. */
  function KeyIs<T>(key: T -> int, k: int): T -> bool
  {
    y => key(y) == k
  }

  ghost predicate SortedByKey<T>(s: seq<T>, key: T -> int)
  {
    forall i, j :: 0 <= i < j < |s| ==> key(s[i]) <= key(s[j])
  }

  /** Inserts `x` before the first element whose key is not smaller than its own. */
  function InsertByKey<T>(x: T, s: seq<T>, key: T -> int): (r: seq<T>)
    ensures multiset(r) == multiset(s) + multiset{x}
    ensures |r| == |s| + 1
  {
    if s == [] then [x]
    else if key(x) <= key(s[0]) then [x] + s
    else
      assert s == [s[0]] + s[1..];
      [s[0]] + InsertByKey(x, s[1..], key)
  }

  /** `s.sortedBy(key)`, as an insertion sort that inserts each head in front of equal keys. */
  function SortByKey<T>(s: seq<T>, key: T -> int): (r: seq<T>)
    ensures multiset(r) == multiset(s)
    ensures |r| == |s|
  {
    if s == [] then []
    else
      assert s == [s[0]] + s[1..];
      InsertByKey(s[0], SortByKey(s[1..], key), key)
  }

  lemma {:induction false} InsertByKeySorted<T>(x: T, s: seq<T>, key: T -> int)
    requires SortedByKey(s, key)
    ensures SortedByKey(InsertByKey(x, s, key), key)
  {
    if s != [] && key(x) > key(s[0]) {
      InsertByKeySorted(x, s[1..], key);
      var r := InsertByKey(x, s[1..], key);
      assert forall k :: 0 <= k < |r| ==> key(s[0]) <= key(r[k]) by {
        forall k | 0 <= k < |r| ensures key(s[0]) <= key(r[k]) {
          assert r[k] in multiset(r);
          assert r[k] in multiset(s[1..]) + multiset{x};
          if r[k] != x {
            assert r[k] in s[1..];
          }
        }
      }
    }
  }

  /** The result of `sortedBy` is a permutation of its input, ordered by the key. */
  lemma {:induction false} SortByKeySorted<T>(s: seq<T>, key: T -> int)
    ensures SortedByKey(SortByKey(s, key), key)
    ensures multiset(SortByKey(s, key)) == multiset(s)
  {
    if s != [] {
      SortByKeySorted(s[1..], key);
      InsertByKeySorted(s[0], SortByKey(s[1..], key), key);
    }
  }

  /** Sorting keeps exactly the elements of its input. */
  lemma SortByKeyMembers<T>(s: seq<T>, key: T -> int)
    ensures forall x :: x in SortByKey(s, key) <==> x in s
  {
    var r := SortByKey(s, key);
    forall x ensures x in r <==> x in s {
      assert x in r <==> x in multiset(r);
      assert x in s <==> x in multiset(s);
    }
  }

  lemma {:induction false} InsertByKeyStable<T(!new)>(x: T, s: seq<T>, key: T -> int, k: int)
    ensures Filter(InsertByKey(x, s, key), KeyIs(key, k))
         == (if key(x) == k then [x] else []) + Filter(s, KeyIs(key, k))
  {
    var p := KeyIs(key, k);
    if s == [] {
    } else if key(x) <= key(s[0]) {
      assert ([x] + s)[1..] == s;
    } else {
      InsertByKeyStable(x, s[1..], key, k);
      assert ([s[0]] + InsertByKey(x, s[1..], key))[1..] == InsertByKey(x, s[1..], key);
      if key(x) == k {
        assert !p(s[0]);
      }
    }
  }

  /**
   * Stability: for every key value, the elements with that key appear in the sorted
   * sequence exactly as, and in the same order as, in the input.
   */
  lemma {:induction false} SortByKeyStable<T(!new)>(s: seq<T>, key: T -> int, k: int)
    ensures Filter(SortByKey(s, key), KeyIs(key, k)) == Filter(s, KeyIs(key, k))
  {
    if s != [] {
      SortByKeyStable(s[1..], key, k);
      InsertByKeyStable(s[0], SortByKey(s[1..], key), key, k);
    }
  }

  /** A set of ids of positive cardinality has an element to pick. */
  lemma NonEmptyHasElement(a: set<int>)
    requires |a| > 0
    ensures exists x :: x in a
  {
    if forall x :: x !in a {
      assert false;
    }
  }
}
