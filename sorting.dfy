/**
 * Python's `sorted(xs, key=k)` on real-valued keys: a stable sort, modelled
 * as insertion sort. `sorted(xs, key=k, reverse=True)` keeps equal keys in
 * their original order too, which is the same as sorting by `-k`.
 */
module Sorting {

  predicate SortedBy<T>(s: seq<T>, key: T -> real)
  {
    forall i, j :: 0 <= i < j < |s| ==> key(s[i]) <= key(s[j])
  }

  /** Inserts `x` after every element whose key is at most `key(x)`. */
  function Insert<T>(x: T, s: seq<T>, key: T -> real): (r: seq<T>)
    ensures |r| == |s| + 1
  {
    if s == [] then [x]
    else if key(x) < key(s[0]) then [x] + s
    else [s[0]] + Insert(x, s[1..], key)
  }

  /** `sorted(s, key=key)`. */
  function SortBy<T>(s: seq<T>, key: T -> real): (r: seq<T>)
    ensures |r| == |s|
  {
    if s == [] then [] else Insert(s[|s| - 1], SortBy(s[..|s| - 1], key), key)
  }

  /** The elements of `s` whose key is `v`, in order. */
  function WithKey<T>(s: seq<T>, key: T -> real, v: real): seq<T>
  {
    if s == [] then [] else (if key(s[0]) == v then [s[0]] else []) + WithKey(s[1..], key, v)
  }

  lemma {:induction false} InsertElements<T>(x: T, s: seq<T>, key: T -> real)
    ensures forall k :: 0 <= k < |Insert(x, s, key)| ==>
              Insert(x, s, key)[k] == x || Insert(x, s, key)[k] in s
    ensures multiset(Insert(x, s, key)) == multiset(s) + multiset{x}
  {
    if s != [] && key(x) >= key(s[0]) {
      InsertElements(x, s[1..], key);
      assert s == [s[0]] + s[1..];
    }
  }

  lemma {:induction false} InsertSorted<T>(x: T, s: seq<T>, key: T -> real)
    requires SortedBy(s, key)
    ensures SortedBy(Insert(x, s, key), key)
    ensures multiset(Insert(x, s, key)) == multiset(s) + multiset{x}
  {
    InsertElements(x, s, key);
    if s != [] && key(x) >= key(s[0]) {
      var r := Insert(x, s[1..], key);
      InsertSorted(x, s[1..], key);
      InsertElements(x, s[1..], key);
      forall k | 0 <= k < |r| ensures key(s[0]) <= key(r[k]) {
        if r[k] != x {
          var m :| 0 <= m < |s[1..]| && s[1..][m] == r[k];
          assert s[m + 1] == r[k];
        }
      }
      var q := [s[0]] + r;
      forall i, j | 0 <= i < j < |q| ensures key(q[i]) <= key(q[j]) {
        assert q[j] == r[j - 1];
        if i > 0 {
          assert q[i] == r[i - 1];
        }
      }
    }
  }

  /** `sorted` returns an ordered permutation of its input. */
  lemma {:induction false} SortBySortedPermutation<T>(s: seq<T>, key: T -> real)
    ensures SortedBy(SortBy(s, key), key)
    ensures multiset(SortBy(s, key)) == multiset(s)
  {
    if s != [] {
      var p := s[..|s| - 1];
      SortBySortedPermutation(p, key);
      InsertSorted(s[|s| - 1], SortBy(p, key), key);
      assert s == p + [s[|s| - 1]];
    }
  }

  lemma {:induction false} WithKeyAppend<T>(a: seq<T>, b: seq<T>, key: T -> real, v: real)
    ensures WithKey(a + b, key, v) == WithKey(a, key, v) + WithKey(b, key, v)
  {
    if a != [] {
      WithKeyAppend(a[1..], b, key, v);
      assert (a + b)[1..] == a[1..] + b;
    } else {
      assert a + b == b;
    }
  }

  lemma {:induction false} WithKeyNone<T>(s: seq<T>, key: T -> real, v: real)
    requires forall i :: 0 <= i < |s| ==> key(s[i]) > v
    ensures WithKey(s, key, v) == []
  {
    if s != [] {
      WithKeyNone(s[1..], key, v);
    }
  }

  lemma {:induction false} InsertWithKey<T>(x: T, s: seq<T>, key: T -> real, v: real)
    requires SortedBy(s, key)
    ensures WithKey(Insert(x, s, key), key, v)
            == WithKey(s, key, v) + (if key(x) == v then [x] else [])
  {
    if s == [] {
    } else if key(x) < key(s[0]) {
      if key(x) == v {
        WithKeyNone(s, key, v);
      }
      assert ([x] + s)[1..] == s;
    } else {
      InsertWithKey(x, s[1..], key, v);
      var r := [s[0]] + Insert(x, s[1..], key);
      assert r[1..] == Insert(x, s[1..], key);
    }
  }

  /** Stability: the elements sharing any one key keep their input order. */
  lemma {:induction false} SortByStable<T>(s: seq<T>, key: T -> real, v: real)
    ensures WithKey(SortBy(s, key), key, v) == WithKey(s, key, v)
  {
    if s != [] {
      var p, x := s[..|s| - 1], s[|s| - 1];
      var tail := if key(x) == v then [x] else [];
      assert s == p + [x];
      SortBySortedPermutation(p, key);
      calc {
        WithKey(SortBy(s, key), key, v);
        WithKey(Insert(x, SortBy(p, key), key), key, v);
        { InsertWithKey(x, SortBy(p, key), key, v); }
        WithKey(SortBy(p, key), key, v) + tail;
        { SortByStable(p, key, v); }
        WithKey(p, key, v) + tail;
        { WithKeyAppend(p, [x], key, v); }
        WithKey(s, key, v);
      }
    }
  }

  /** `[f(x) for x in s]`. */
  function MapSeq<T, U>(s: seq<T>, f: T -> U): (r: seq<U>)
    ensures |r| == |s| && forall k :: 0 <= k < |s| ==> r[k] == f(s[k])
  {
    if s == [] then [] else [f(s[0])] + MapSeq(s[1..], f)
  }

  lemma {:induction false} InsertMap<T, U>(x: T, s: seq<T>, key: T -> real, f: T -> U, key2: U -> real)
    requires forall y :: key2(f(y)) == key(y)
    ensures MapSeq(Insert(x, s, key), f) == Insert(f(x), MapSeq(s, f), key2)
    decreases |s|
  {
    if s != [] && key(x) >= key(s[0]) {
      InsertMap(x, s[1..], key, f, key2);
      assert MapSeq(s, f)[1..] == MapSeq(s[1..], f);
    }
  }

  /** Mapping a sorted list by a function that keeps the keys gives the
      sorted mapped list: sorting then mapping and mapping then sorting
      agree, equal keys included. */
  lemma {:induction false} SortByMap<T, U>(s: seq<T>, key: T -> real, f: T -> U, key2: U -> real)
    requires forall y :: key2(f(y)) == key(y)
    ensures MapSeq(SortBy(s, key), f) == SortBy(MapSeq(s, f), key2)
    decreases |s|
  {
    if s != [] {
      var p := s[..|s| - 1];
      SortByMap(p, key, f, key2);
      InsertMap(s[|s| - 1], SortBy(p, key), key, f, key2);
      assert MapSeq(s, f)[..|s| - 1] == MapSeq(p, f);
    }
  }
}
