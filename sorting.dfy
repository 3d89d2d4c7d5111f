/** `Array.prototype.sort` with the comparator both ROI tables use,
    `(a, b) => (b.capRate ?? -Infinity) - (a.capRate ?? -Infinity)`:
    descending by a key that may be missing, a missing key ranking below
    every number. JavaScript's sort is stable, and two missing keys compare
    as equal (the comparator yields NaN, which the sort reads as 0), so the
    library call is modelled by a stable insertion sort. */
module Sorting {
  import opened Numeral

  /** `(a ?? -Infinity) >= (b ?? -Infinity)` */
  predicate KeyGe(a: Option<real>, b: Option<real>)
  {
    b.None? || (a.Some? && a.value >= b.value)
  }

  predicate SortedDesc<T>(xs: seq<T>, key: T -> Option<real>)
  {
    forall i, j :: 0 <= i < j < |xs| ==> KeyGe(key(xs[i]), key(xs[j]))
  }

  /** Places `x` before the first element whose key it reaches, so that it
      stays ahead of the elements with an equal key. */
  function Insert<T>(x: T, ys: seq<T>, key: T -> Option<real>): (r: seq<T>)
    ensures |r| == |ys| + 1
  {
    if ys == [] || KeyGe(key(x), key(ys[0])) then [x] + ys
    else [ys[0]] + Insert(x, ys[1..], key)
  }

  function SortDesc<T>(xs: seq<T>, key: T -> Option<real>): (r: seq<T>)
    ensures |r| == |xs|
  {
    if xs == [] then [] else Insert(xs[0], SortDesc(xs[1..], key), key)
  }

  /** The elements whose key is `k`, in order. */
  function WithKey<T>(xs: seq<T>, key: T -> Option<real>, k: Option<real>): (r: seq<T>)
    ensures |r| <= |xs|
  {
    if xs == [] then []
    else (if key(xs[0]) == k then [xs[0]] else []) + WithKey(xs[1..], key, k)
  }

  lemma {:induction false} InsertElements<T>(x: T, ys: seq<T>, key: T -> Option<real>)
    ensures multiset(Insert(x, ys, key)) == multiset([x]) + multiset(ys)
  {
    if ys != [] && !KeyGe(key(x), key(ys[0])) {
      InsertElements(x, ys[1..], key);
      assert ys == [ys[0]] + ys[1..];
    }
  }

  lemma {:induction false} InsertSorted<T>(x: T, ys: seq<T>, key: T -> Option<real>)
    requires SortedDesc(ys, key)
    ensures SortedDesc(Insert(x, ys, key), key)
  {
    if ys == [] || KeyGe(key(x), key(ys[0])) {
      var r := [x] + ys;
      forall i, j | 0 <= i < j < |r| ensures KeyGe(key(r[i]), key(r[j])) {
        if i == 0 {
          assert KeyGe(key(ys[0]), key(ys[j - 1]));
        }
      }
    } else {
      var rest := Insert(x, ys[1..], key);
      InsertSorted(x, ys[1..], key);
      InsertElements(x, ys[1..], key);
      var r := [ys[0]] + rest;
      forall j | 0 < j < |r| ensures KeyGe(key(ys[0]), key(r[j])) {
        assert r[j] == rest[j - 1];
        assert r[j] in multiset(rest);
        if r[j] != x {
          assert r[j] in multiset(ys[1..]);
          var m :| 0 <= m < |ys[1..]| && ys[1..][m] == r[j];
          assert KeyGe(key(ys[0]), key(ys[m + 1]));
        }
      }
    }
  }

  /** The sort returns a permutation of its input, ordered by descending key. */
  lemma {:induction false} SortDescCorrect<T>(xs: seq<T>, key: T -> Option<real>)
    ensures SortedDesc(SortDesc(xs, key), key)
    ensures multiset(SortDesc(xs, key)) == multiset(xs)
    ensures |SortDesc(xs, key)| == |xs|
  {
    if xs != [] {
      SortDescCorrect(xs[1..], key);
      InsertSorted(xs[0], SortDesc(xs[1..], key), key);
      InsertElements(xs[0], SortDesc(xs[1..], key), key);
      assert xs == [xs[0]] + xs[1..];
    }
  }

  lemma {:induction false} InsertWithKey<T>(x: T, ys: seq<T>, key: T -> Option<real>, k: Option<real>)
    ensures WithKey(Insert(x, ys, key), key, k)
            == (if key(x) == k then [x] else []) + WithKey(ys, key, k)
  {
    if ys == [] || KeyGe(key(x), key(ys[0])) {
      assert ([x] + ys)[1..] == ys;
    } else {
      InsertWithKey(x, ys[1..], key, k);
      assert ([ys[0]] + Insert(x, ys[1..], key))[1..] == Insert(x, ys[1..], key);
      assert key(ys[0]) != key(x);
    }
  }

  /** Stability: the elements that share a key keep their input order. */
  lemma {:induction false} SortDescStable<T>(xs: seq<T>, key: T -> Option<real>, k: Option<real>)
    ensures WithKey(SortDesc(xs, key), key, k) == WithKey(xs, key, k)
  {
    if xs != [] {
      SortDescStable(xs[1..], key, k);
      InsertWithKey(xs[0], SortDesc(xs[1..], key), key, k);
    }
  }

  /** Every prefix of a sorted sequence is sorted, so `slice(0, n)` after the
      sort keeps the order. */
  lemma PrefixSorted<T>(xs: seq<T>, key: T -> Option<real>, n: nat)
    requires SortedDesc(xs, key) && n <= |xs|
    ensures SortedDesc(xs[..n], key)
  {
  }
}
