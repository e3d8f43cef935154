/** Python's `list.sort(key=...)`: ascending by key and stable, so records
    with equal keys keep their input order. Modelled as insertion sort on
    sequences, with the three properties that pin its result down: the output
    is sorted, is a permutation of the input, and keeps the relative order of
    every group of equal keys. */
module FreqSort {

  predicate Sorted<T>(s: seq<T>, key: T -> real) {
    forall i, j :: 0 <= i < j < |s| ==> key(s[i]) <= key(s[j])
  }

  /** The records of `s` whose key is `k`, in their order in `s`. */
  function Filter<T>(s: seq<T>, key: T -> real, k: real): seq<T>
  {
    if |s| == 0 then []
    else (if key(s[0]) == k then [s[0]] else []) + Filter(s[1..], key, k)
  }

  /** Stability: every group of equal keys appears in the same order. */
  ghost predicate SameGroups<T>(a: seq<T>, b: seq<T>, key: T -> real) {
    forall k :: Filter(a, key, k) == Filter(b, key, k)
  }

  /** Places `x` before the first record whose key is not below `x`'s, so a
      record inserted in front of equal keys stays in front of them. */
  function Insert<T>(x: T, s: seq<T>, key: T -> real): (r: seq<T>)
    ensures |r| == |s| + 1
  {
    if |s| == 0 || key(x) <= key(s[0]) then [x] + s
    else [s[0]] + Insert(x, s[1..], key)
  }

  function SortByKey<T>(s: seq<T>, key: T -> real): (r: seq<T>)
    ensures |r| == |s|
  {
    if |s| == 0 then [] else Insert(s[0], SortByKey(s[1..], key), key)
  }

  lemma {:induction false} InsertPermutes<T>(x: T, s: seq<T>, key: T -> real)
    ensures multiset(Insert(x, s, key)) == multiset(s) + multiset{x}
  {
    if |s| > 0 && key(x) > key(s[0]) {
      InsertPermutes(x, s[1..], key);
      assert s == [s[0]] + s[1..];
    }
  }

  lemma {:induction false} InsertSorted<T>(x: T, s: seq<T>, key: T -> real)
    requires Sorted(s, key)
    ensures Sorted(Insert(x, s, key), key)
  {
    if |s| > 0 && key(x) > key(s[0]) {
      var tail := s[1..];
      InsertSorted(x, tail, key);
      InsertPermutes(x, tail, key);
      var r := Insert(x, s, key);
      var rest := Insert(x, tail, key);
      assert r == [s[0]] + rest;
      forall j | 0 < j < |r|
        ensures key(s[0]) <= key(r[j])
      {
        assert r[j] in multiset(rest);
        if r[j] != x {
          assert r[j] in multiset(tail);
          var m :| 0 <= m < |tail| && tail[m] == r[j];
          assert s[m + 1] == r[j];
        }
      }
    }
  }

  /** The group of `k` in a sequence with a known first record. */
  lemma FilterCons<T>(a: T, t: seq<T>, key: T -> real, k: real)
    ensures Filter([a] + t, key, k) == (if key(a) == k then [a] else []) + Filter(t, key, k)
  {
    assert ([a] + t)[1..] == t;
  }

  lemma {:induction false} InsertGroups<T>(x: T, s: seq<T>, key: T -> real, k: real)
    ensures Filter(Insert(x, s, key), key, k) == Filter([x] + s, key, k)
  {
    if |s| > 0 && key(x) > key(s[0]) {
      var t := s[1..];
      var px := if key(x) == k then [x] else [];
      var p0 := if key(s[0]) == k then [s[0]] else [];
      var ft := Filter(t, key, k);
      calc {
        Filter(Insert(x, s, key), key, k);
        Filter([s[0]] + Insert(x, t, key), key, k);
        { FilterCons(s[0], Insert(x, t, key), key, k); }
        p0 + Filter(Insert(x, t, key), key, k);
        { InsertGroups(x, t, key, k); FilterCons(x, t, key, k); }
        p0 + (px + ft);
        { assert px == [] || p0 == []; }
        px + (p0 + ft);
        { FilterCons(s[0], t, key, k); assert s == [s[0]] + t; }
        px + Filter(s, key, k);
        { FilterCons(x, s, key, k); }
        Filter([x] + s, key, k);
      }
    }
  }

  lemma {:induction false} SortByKeySorted<T>(s: seq<T>, key: T -> real)
    ensures Sorted(SortByKey(s, key), key)
  {
    if |s| > 0 {
      SortByKeySorted(s[1..], key);
      InsertSorted(s[0], SortByKey(s[1..], key), key);
    }
  }

  lemma {:induction false} SortByKeyPermutes<T>(s: seq<T>, key: T -> real)
    ensures multiset(SortByKey(s, key)) == multiset(s)
  {
    if |s| > 0 {
      SortByKeyPermutes(s[1..], key);
      InsertPermutes(s[0], SortByKey(s[1..], key), key);
      assert s == [s[0]] + s[1..];
    }
  }

  lemma {:induction false} SortByKeyStable<T>(s: seq<T>, key: T -> real, k: real)
    ensures Filter(SortByKey(s, key), key, k) == Filter(s, key, k)
  {
    if |s| > 0 {
      var rest := SortByKey(s[1..], key);
      SortByKeyStable(s[1..], key, k);
      InsertGroups(s[0], rest, key, k);
      FilterCons(s[0], rest, key, k);
      FilterCons(s[0], s[1..], key, k);
      assert s == [s[0]] + s[1..];
    }
  }

  /** Sorting by key yields a sorted permutation of the input in which every
      group of equal keys keeps its input order. */
  lemma SortByKeyCorrect<T>(s: seq<T>, key: T -> real)
    ensures Sorted(SortByKey(s, key), key)
    ensures multiset(SortByKey(s, key)) == multiset(s)
    ensures SameGroups(SortByKey(s, key), s, key)
  {
    SortByKeySorted(s, key);
    SortByKeyPermutes(s, key);
    forall k
      ensures Filter(SortByKey(s, key), key, k) == Filter(s, key, k)
    {
      SortByKeyStable(s, key, k);
    }
  }

  /** A sorted rearrangement whose groups agree with another's is determined:
      two such sequences of the same length are equal, so the properties above
      specify the sort completely. */
  lemma {:induction false} StableSortUnique<T>(a: seq<T>, b: seq<T>, key: T -> real)
    requires |a| == |b|
    requires Sorted(a, key) && Sorted(b, key)
    requires SameGroups(a, b, key)
    ensures a == b
    decreases |a|
  {
    if |a| > 0 {
      SameHeadKey(a, b, key);
      var x, y := a[0], b[0];
      assert Filter(a, key, key(x)) == [x] + Filter(a[1..], key, key(x));
      assert Filter(b, key, key(x)) == [y] + Filter(b[1..], key, key(x));
      assert x == Filter(a, key, key(x))[0] == Filter(b, key, key(x))[0] == y;
      forall k
        ensures Filter(a[1..], key, k) == Filter(b[1..], key, k)
      {
        var p := if key(x) == k then [x] else [];
        var fa, fb := Filter(a[1..], key, k), Filter(b[1..], key, k);
        assert Filter(a, key, k) == p + fa;
        assert Filter(b, key, k) == p + fb;
        assert (p + fa)[|p|..] == fa && (p + fb)[|p|..] == fb;
      }
      StableSortUnique(a[1..], b[1..], key);
      assert a == [x] + a[1..] && b == [y] + b[1..];
    }
  }

  /** A group holds records of the input with the group's key only. */
  lemma {:induction false} FilterIn<T>(s: seq<T>, key: T -> real, k: real, x: T)
    requires x in Filter(s, key, k)
    ensures x in s && key(x) == k
  {
    if |s| > 0 {
      FilterCons(s[0], s[1..], key, k);
      assert s == [s[0]] + s[1..];
      if x != s[0] || key(s[0]) != k {
        FilterIn(s[1..], key, k, x);
      }
    }
  }

  /** The first record of a sorted sequence with a group shared with another
      sorted sequence has the same key as that one's first record. */
  lemma SameHeadKey<T>(a: seq<T>, b: seq<T>, key: T -> real)
    requires |a| > 0 && |b| > 0
    requires Sorted(a, key) && Sorted(b, key)
    requires SameGroups(a, b, key)
    ensures key(a[0]) == key(b[0])
  {
    HeadInOther(a, b, key);
    HeadInOther(b, a, key);
  }

  /** The first record of `a` occurs in `b`, so the first key of the sorted
      `b` is at most that record's. */
  lemma HeadInOther<T>(a: seq<T>, b: seq<T>, key: T -> real)
    requires |a| > 0 && Sorted(b, key)
    requires Filter(a, key, key(a[0])) == Filter(b, key, key(a[0]))
    ensures |b| > 0 && key(b[0]) <= key(a[0])
  {
    var k := key(a[0]);
    FilterCons(a[0], a[1..], key, k);
    assert a == [a[0]] + a[1..];
    FilterIn(b, key, k, a[0]);
    var j :| 0 <= j < |b| && b[j] == a[0];
  }

  /** `SortByKey` is the only stable sorted permutation of its input. */
  lemma SortByKeyUnique<T>(s: seq<T>, r: seq<T>, key: T -> real)
    requires Sorted(r, key) && multiset(r) == multiset(s) && SameGroups(r, s, key)
    ensures r == SortByKey(s, key)
  {
    SortByKeyCorrect(s, key);
    assert |r| == |multiset(r)| == |multiset(s)| == |s|;
    StableSortUnique(r, SortByKey(s, key), key);
  }
}
