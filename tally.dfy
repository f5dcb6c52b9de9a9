/**
 * The list and dict idioms the pipeline is built from: a comprehension with
 * an `if` (`Filter`), the keys of a dict filled while walking a list, in
 * insertion order (`Keys`), and the per-key counters and running sums such a
 * walk accumulates (`Count`, `Total`).
 */
module Tally {
  import opened Base

  /** `[x for x in s if p(x)]`. */
  function Filter<T>(s: seq<T>, p: T -> bool): (r: seq<T>)
    ensures |r| <= |s|
    ensures forall k :: 0 <= k < |r| ==> p(r[k])
  {
    if s == [] then []
    else Filter(s[..|s| - 1], p) + (if p(s[|s| - 1]) then [s[|s| - 1]] else [])
  }

  lemma FilterSnoc<T>(s: seq<T>, x: T, p: T -> bool)
    ensures Filter(s + [x], p) == Filter(s, p) + (if p(x) then [x] else [])
  {
    assert (s + [x])[..|s|] == s;
  }

  /** The comprehension keeps exactly the elements that pass the test. */
  lemma {:induction false} FilterMembers<T>(s: seq<T>, p: T -> bool)
    ensures forall x :: x in Filter(s, p) <==> x in s && p(x)
  {
    if s != [] {
      var q := s[..|s| - 1];
      FilterMembers(q, p);
      assert s == q + [s[|s| - 1]];
    }
  }

  /** The comprehension keeps the order of its input. */
  lemma {:induction false} FilterAppend<T>(a: seq<T>, b: seq<T>, p: T -> bool)
    ensures Filter(a + b, p) == Filter(a, p) + Filter(b, p)
    decreases |b|
  {
    if b != [] {
      var c := b[..|b| - 1];
      var x := b[|b| - 1];
      assert b == c + [x];
      assert a + b == (a + c) + [x];
      FilterSnoc(a + c, x, p);
      FilterSnoc(c, x, p);
      FilterAppend(a, c, p);
      var tail := if p(x) then [x] else [];
      calc {
        Filter(a + b, p);
        Filter(a + c, p) + tail;
        (Filter(a, p) + Filter(c, p)) + tail;
        Filter(a, p) + (Filter(c, p) + tail);
        Filter(a, p) + Filter(b, p);
      }
    } else {
      assert a + b == a;
    }
  }

  lemma {:induction false} FilterAll<T>(s: seq<T>, p: T -> bool)
    requires forall k :: 0 <= k < |s| ==> p(s[k])
    ensures Filter(s, p) == s
  {
    if s != [] {
      FilterAll(s[..|s| - 1], p);
    }
  }

  predicate Distinct<K(==)>(ks: seq<K>)
  {
    forall i, j :: 0 <= i < j < |ks| ==> ks[i] != ks[j]
  }

  /** The keys of a dict that is filled by walking `s` and touching `key(x)`
      for each element: each key once, in order of first occurrence. */
  function Keys<T, K(==)>(s: seq<T>, key: T -> K): (ks: seq<K>)
    ensures ks == [] <==> s == []
  {
    if s == [] then []
    else
      var ks := Keys(s[..|s| - 1], key);
      if key(s[|s| - 1]) in ks then ks else ks + [key(s[|s| - 1])]
  }

  lemma KeysSnoc<T, K>(s: seq<T>, x: T, key: T -> K)
    ensures Keys(s + [x], key) == if key(x) in Keys(s, key) then Keys(s, key) else Keys(s, key) + [key(x)]
  {
    assert (s + [x])[..|s|] == s;
  }

  /** The keys are distinct and are exactly the keys of the elements. */
  lemma {:induction false} KeysSpec<T, K>(s: seq<T>, key: T -> K)
    ensures Distinct(Keys(s, key))
    ensures forall i :: 0 <= i < |s| ==> key(s[i]) in Keys(s, key)
    ensures forall k :: k in Keys(s, key) ==> exists i :: 0 <= i < |s| && key(s[i]) == k
  {
    if s != [] {
      var q := s[..|s| - 1];
      KeysSpec(q, key);
      forall k | k in Keys(s, key) ensures exists i :: 0 <= i < |s| && key(s[i]) == k {
        if k in Keys(q, key) {
          var i :| 0 <= i < |q| && key(q[i]) == k;
          assert key(s[i]) == k;
        } else {
          assert key(s[|s| - 1]) == k;
        }
      }
      forall i | 0 <= i < |s| ensures key(s[i]) in Keys(s, key) {
        if i < |q| {
          assert key(q[i]) == key(s[i]);
        }
      }
    }
  }

  lemma KeysDistinct<T, K>(s: seq<T>, key: T -> K)
    ensures Distinct(Keys(s, key))
  {
    KeysSpec(s, key);
  }

  /** How many elements of `s` have key `k`: a `counts[key] += 1` tally. */
  function Count<T, K(==)>(s: seq<T>, key: T -> K, k: K): nat
  {
    if s == [] then 0
    else Count(s[..|s| - 1], key, k) + (if key(s[|s| - 1]) == k then 1 else 0)
  }

  /** The sum of `val(x)` over the elements with key `k`: a `totals[key] += v`
      tally. */
  function Total<T, K(==)>(s: seq<T>, key: T -> K, val: T -> real, k: K): real
  {
    if s == [] then 0.0
    else Total(s[..|s| - 1], key, val, k) + (if key(s[|s| - 1]) == k then val(s[|s| - 1]) else 0.0)
  }

  lemma CountSnoc<T, K>(s: seq<T>, x: T, key: T -> K, k: K)
    ensures Count(s + [x], key, k) == Count(s, key, k) + (if key(x) == k then 1 else 0)
  {
    assert (s + [x])[..|s|] == s;
  }

  lemma TotalSnoc<T, K>(s: seq<T>, x: T, key: T -> K, val: T -> real, k: K)
    ensures Total(s + [x], key, val, k) == Total(s, key, val, k) + (if key(x) == k then val(x) else 0.0)
  {
    assert (s + [x])[..|s|] == s;
  }

  /** One more element: its key joins the keys if new, and only its own
      key's count and total move. */
  lemma TallySnoc<T, K>(s: seq<T>, x: T, key: T -> K, val: T -> real)
    ensures Keys(s + [x], key) == if key(x) in Keys(s, key) then Keys(s, key) else Keys(s, key) + [key(x)]
    ensures forall k :: Count(s + [x], key, k) == Count(s, key, k) + (if key(x) == k then 1 else 0)
    ensures forall k :: Total(s + [x], key, val, k) == Total(s, key, val, k) + (if key(x) == k then val(x) else 0.0)
  {
    assert (s + [x])[..|s|] == s;
  }

  /** A key has a positive count exactly when it is one of the keys, so a
      division by the count of a present key is never by zero. */
  lemma {:induction false} CountPositive<T, K>(s: seq<T>, key: T -> K, k: K)
    ensures Count(s, key, k) >= 1 <==> k in Keys(s, key)
  {
    if s != [] {
      CountPositive(s[..|s| - 1], key, k);
    }
  }

  /** A key that is not among the keys has total 0. */
  lemma {:induction false} TotalAbsent<T, K>(s: seq<T>, key: T -> K, val: T -> real, k: K)
    requires k !in Keys(s, key)
    ensures Total(s, key, val, k) == 0.0
  {
    if s != [] {
      TotalAbsent(s[..|s| - 1], key, val, k);
    }
  }

  /** The counts of the keys `ks`, added up. */
  function SumCounts<T, K(==)>(ks: seq<K>, s: seq<T>, key: T -> K): nat
  {
    if ks == [] then 0 else SumCounts(ks[..|ks| - 1], s, key) + Count(s, key, ks[|ks| - 1])
  }

  lemma {:induction false} SumCountsSnoc<T, K>(ks: seq<K>, s: seq<T>, x: T, key: T -> K)
    requires Distinct(ks)
    ensures SumCounts(ks, s + [x], key) == SumCounts(ks, s, key) + (if key(x) in ks then 1 else 0)
  {
    if ks != [] {
      var init := ks[..|ks| - 1];
      SumCountsSnoc(init, s, x, key);
      CountSnoc(s, x, key, ks[|ks| - 1]);
      assert ks == init + [ks[|ks| - 1]];
    }
  }

  /** Every element is counted under exactly one key: the counts of all the
      keys add up to the length of the list. */
  lemma {:induction false} CountsSum<T, K>(s: seq<T>, key: T -> K)
    ensures SumCounts(Keys(s, key), s, key) == |s|
  {
    if s != [] {
      var q := s[..|s| - 1];
      var x := s[|s| - 1];
      assert s == q + [x];
      CountsSum(q, key);
      KeysSpec(q, key);
      var ks := Keys(q, key);
      SumCountsSnoc(ks, q, x, key);
      if key(x) !in ks {
        CountPositive(q, key, key(x));
        CountSnoc(q, x, key, key(x));
        assert (ks + [key(x)])[..|ks|] == ks;
      }
    }
  }

  /** The size of the set of a distinct list is its length. */
  lemma {:induction false} DistinctCard<K>(ks: seq<K>)
    requires Distinct(ks)
    ensures |set k | k in ks| == |ks|
  {
    if ks != [] {
      var init := ks[..|ks| - 1];
      var x := ks[|ks| - 1];
      DistinctCard(init);
      assert ks == init + [x];
      assert (set k | k in ks) == (set k | k in init) + {x};
      assert x !in init;
    }
  }

  /** `set(key(x) for x in s)`. */
  function KeySet<T, K>(s: seq<T>, key: T -> K): set<K>
  {
    set i | 0 <= i < |s| :: key(s[i])
  }

  /** The number of distinct keys, `len(set(key(x) for x in s))`, is the
      number of dict keys, and at most the length of the list. */
  lemma KeysCount<T, K>(s: seq<T>, key: T -> K)
    ensures |KeySet(s, key)| == |Keys(s, key)| <= |s|
  {
    KeysSpec(s, key);
    DistinctCard(Keys(s, key));
    var a := KeySet(s, key);
    var b := set k | k in Keys(s, key);
    assert a == b;
    KeysLength(s, key);
  }

  lemma {:induction false} KeysLength<T, K>(s: seq<T>, key: T -> K)
    ensures |Keys(s, key)| <= |s|
  {
    if s != [] {
      KeysLength(s[..|s| - 1], key);
    }
  }

  // ---------------------------------------------------------------------------
  // Selecting the best key

  /** `max(ks, key=w)`: the first key of maximal weight (a later key replaces
      the current one only when strictly heavier). */
  function ArgMax<K>(ks: seq<K>, w: K -> real): K
    requires ks != []
  {
    if |ks| == 1 then ks[0]
    else
      var r := ArgMax(ks[..|ks| - 1], w);
      if w(ks[|ks| - 1]) > w(r) then ks[|ks| - 1] else r
  }

  /** The chosen key is present, no key weighs more, and every key before it
      weighs strictly less. */
  lemma {:induction false} ArgMaxSpec<K>(ks: seq<K>, w: K -> real) returns (k: nat)
    requires ks != []
    ensures k < |ks| && ks[k] == ArgMax(ks, w)
    ensures forall j :: 0 <= j < |ks| ==> w(ks[j]) <= w(ks[k])
    ensures forall j :: 0 <= j < k ==> w(ks[j]) < w(ks[k])
  {
    if |ks| == 1 {
      k := 0;
    } else {
      var init := ks[..|ks| - 1];
      var k' := ArgMaxSpec(init, w);
      assert forall j :: 0 <= j < |init| ==> ks[j] == init[j];
      if w(ks[|ks| - 1]) > w(init[k']) {
        k := |ks| - 1;
      } else {
        k := k';
      }
    }
  }

  /** The running-maximum loop that starts from `best := floor` and `id :=
      None` and takes a key only when it is strictly heavier than the best so
      far: the final best weight and key. */
  function BestAbove<K>(ks: seq<K>, w: K -> real, floor: real): (r: (real, Option<K>))
    ensures r.0 >= floor
  {
    if ks == [] then (floor, None)
    else
      var r := BestAbove(ks[..|ks| - 1], w, floor);
      if w(ks[|ks| - 1]) > r.0 then (w(ks[|ks| - 1]), Some(ks[|ks| - 1])) else r
  }

  /** The loop keeps no key when none weighs more than `floor`; otherwise it
      keeps the first key of maximal weight, and reports that weight. */
  lemma {:induction false} BestAboveSpec<K>(ks: seq<K>, w: K -> real, floor: real) returns (k: int)
    ensures -1 <= k < |ks|
    ensures k == -1 ==> BestAbove(ks, w, floor) == (floor, None)
                        && forall j :: 0 <= j < |ks| ==> w(ks[j]) <= floor
    ensures k >= 0 ==> BestAbove(ks, w, floor) == (w(ks[k]), Some(ks[k])) && w(ks[k]) > floor
                       && (forall j :: 0 <= j < |ks| ==> w(ks[j]) <= w(ks[k]))
                       && (forall j :: 0 <= j < k ==> w(ks[j]) < w(ks[k]))
  {
    if ks == [] {
      k := -1;
    } else {
      var init := ks[..|ks| - 1];
      var k' := BestAboveSpec(init, w, floor);
      assert forall j :: 0 <= j < |init| ==> ks[j] == init[j];
      var best := BestAbove(init, w, floor).0;
      if w(ks[|ks| - 1]) > best {
        k := |ks| - 1;
      } else {
        k := k';
      }
    }
  }

  /** The running maximum over the keys of a list, stated over the list:
      a key is kept only when its weight beats `floor`, it is the key of an
      element, no element's key weighs more, and it is the first heaviest:
      it occurs at or before every element whose key weighs as much. */
  lemma BestKeySpec<T, K>(s: seq<T>, key: T -> K, w: K -> real, floor: real)
    ensures var r := BestAbove(Keys(s, key), w, floor);
      && (r.1.None? ==> r.0 == floor && forall i :: 0 <= i < |s| ==> w(key(s[i])) <= floor)
      && (r.1.Some? ==>
            && r.0 == w(r.1.value) && r.0 > floor
            && (exists i :: 0 <= i < |s| && key(s[i]) == r.1.value)
            && (forall i :: 0 <= i < |s| ==> w(key(s[i])) <= r.0)
            && forall i :: 0 <= i < |s| && w(key(s[i])) == r.0 ==>
                 exists j :: 0 <= j <= i && key(s[j]) == r.1.value)
  {
    var ks := Keys(s, key);
    var k := BestAboveSpec(ks, w, floor);
    if k == -1 {
      KeysBound(s, key, w, floor);
    } else {
      KeysBound(s, key, w, w(ks[k]));
      KeysOrigin(s, key, ks[k]);
      forall i | 0 <= i < |s| && w(key(s[i])) == w(ks[k])
        ensures exists j :: 0 <= j <= i && key(s[j]) == ks[k]
      {
        FirstHeaviest(s, key, w, k, i);
      }
    }
  }

  /** A key listed before the key of element `i` occurs at or before `i`. */
  lemma FirstHeaviest<T, K>(s: seq<T>, key: T -> K, w: K -> real, k: nat, i: nat)
    requires k < |Keys(s, key)| && i < |s|
    requires forall j :: 0 <= j < k ==> w(Keys(s, key)[j]) < w(Keys(s, key)[k])
    requires w(key(s[i])) == w(Keys(s, key)[k])
    ensures exists j :: 0 <= j <= i && key(s[j]) == Keys(s, key)[k]
  {
    var ks := Keys(s, key);
    var front := s[..i + 1];
    var p := Keys(front, key);
    KeysPrefix(s, key, i + 1);
    KeysSpec(front, key);
    assert key(front[i]) in p;
    var n :| 0 <= n < |p| && p[n] == key(s[i]);
    assert ks[n] == p[n];
    assert k < |p|;
    assert ks[k] in p;
    var j :| 0 <= j < |front| && key(front[j]) == ks[k];
    assert key(s[j]) == ks[k];
  }

  /** The keys of a prefix of the list are a prefix of its keys. */
  lemma {:induction false} KeysPrefix<T, K>(s: seq<T>, key: T -> K, m: nat)
    requires m <= |s|
    ensures |Keys(s[..m], key)| <= |Keys(s, key)|
    ensures Keys(s[..m], key) == Keys(s, key)[..|Keys(s[..m], key)|]
  {
    if m < |s| {
      var q := s[..|s| - 1];
      assert s[..m] == q[..m];
      KeysPrefix(q, key, m);
    } else {
      assert s[..m] == s;
    }
  }

  /** A bound on the weight of every key is a bound on the weight of every
      element's key. */
  lemma KeysBound<T, K>(s: seq<T>, key: T -> K, w: K -> real, bound: real)
    requires forall j :: 0 <= j < |Keys(s, key)| ==> w(Keys(s, key)[j]) <= bound
    ensures forall i :: 0 <= i < |s| ==> w(key(s[i])) <= bound
  {
    var ks := Keys(s, key);
    KeysSpec(s, key);
    forall i | 0 <= i < |s| ensures w(key(s[i])) <= bound {
      var n :| 0 <= n < |ks| && ks[n] == key(s[i]);
    }
  }

  /** `max` over the keys of a non-empty list: the key of an element that no
      element's key outweighs. */
  lemma ArgMaxKeySpec<T, K>(s: seq<T>, key: T -> K, w: K -> real)
    requires s != []
    ensures Keys(s, key) != []
    ensures var r := ArgMax(Keys(s, key), w);
      && (exists i :: 0 <= i < |s| && key(s[i]) == r)
      && forall i :: 0 <= i < |s| ==> w(key(s[i])) <= w(r)
  {
    var ks := Keys(s, key);
    var k := ArgMaxSpec(ks, w);
    KeysBound(s, key, w, w(ks[k]));
    KeysOrigin(s, key, ks[k]);
  }

  /** Every key is the key of some element. */
  lemma KeysOrigin<T, K>(s: seq<T>, key: T -> K, x: K)
    requires x in Keys(s, key)
    ensures exists i :: 0 <= i < |s| && key(s[i]) == x
  {
    KeysSpec(s, key);
  }
}
