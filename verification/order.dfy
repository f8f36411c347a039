/**
 * Ordering by name. Both `ORDER BY name` in the store and `localeCompare` in
 * the client are modelled by one total preorder, the lexicographic order on
 * character codes, and sorting by an insertion sort, stable like JavaScript's
 * `Array.prototype.sort`.
 */
module Order {
  import opened Text

  /** `a` sorts no later than `b`. */
  predicate LexLe(a: String, b: String)
    decreases |a|
  {
    a == [] || (b != [] && (a[0] < b[0] || (a[0] == b[0] && LexLe(a[1..], b[1..]))))
  }

  lemma {:induction false} LexLeTotal(a: String, b: String)
    ensures LexLe(a, b) || LexLe(b, a)
    decreases |a|
  {
    if a != [] && b != [] && a[0] == b[0] {
      LexLeTotal(a[1..], b[1..]);
    }
  }

  lemma {:induction false} LexLeTrans(a: String, b: String, c: String)
    requires LexLe(a, b) && LexLe(b, c)
    ensures LexLe(a, c)
    decreases |a|
  {
    if a != [] && a[0] == b[0] && b[0] == c[0] {
      LexLeTrans(a[1..], b[1..], c[1..]);
    }
  }

  /** The keys of `xs` are in ascending order. */
  predicate SortedBy<T>(xs: seq<T>, key: T -> String) {
    forall i, j :: 0 <= i < j < |xs| ==> LexLe(key(xs[i]), key(xs[j]))
  }

  lemma PrependSorted<T>(x: T, xs: seq<T>, key: T -> String)
    requires SortedBy(xs, key)
    requires xs == [] || LexLe(key(x), key(xs[0]))
    ensures SortedBy([x] + xs, key)
  {
    var r := [x] + xs;
    forall i, j | 0 <= i < j < |r| ensures LexLe(key(r[i]), key(r[j])) {
      if i == 0 && j > 1 {
        LexLeTrans(key(x), key(xs[0]), key(xs[j - 1]));
      }
    }
  }

  /** Insert `x` before the first element whose key is not smaller. */
  function InsertBy<T(==)>(x: T, xs: seq<T>, key: T -> String): (r: seq<T>)
    requires SortedBy(xs, key)
    ensures SortedBy(r, key)
    ensures multiset(r) == multiset(xs) + multiset{x}
    ensures |r| == |xs| + 1
  {
    if xs == [] then [x]
    else if LexLe(key(x), key(xs[0])) then
      PrependSorted(x, xs, key);
      [x] + xs
    else
      var rest := InsertBy(x, xs[1..], key);
      assert xs == [xs[0]] + xs[1..];
      assert rest[0] in multiset(xs[1..]) + multiset{x};
      LexLeTotal(key(x), key(xs[0]));
      PrependSorted(xs[0], rest, key);
      [xs[0]] + rest
  }

  /** A sorted permutation of `xs`. */
  function SortBy<T(==)>(xs: seq<T>, key: T -> String): (r: seq<T>)
    ensures SortedBy(r, key)
    ensures multiset(r) == multiset(xs)
    ensures |r| == |xs|
  {
    if xs == [] then []
    else
      assert xs == [xs[0]] + xs[1..];
      InsertBy(xs[0], SortBy(xs[1..], key), key)
  }

  lemma {:induction false} LexLeRefl(a: String)
    ensures LexLe(a, a)
    decreases |a|
  {
    if a != [] {
      LexLeRefl(a[1..]);
    }
  }

  /** The elements of `xs` whose key is `k`, in their order. */
  function WithKey<T>(xs: seq<T>, key: T -> String, k: String): seq<T> {
    if xs == [] then []
    else (if key(xs[0]) == k then [xs[0]] else []) + WithKey(xs[1..], key, k)
  }

  /** Inserting `x` puts it ahead of every element with the same key. */
  lemma {:induction false} InsertByStable<T>(x: T, ys: seq<T>, key: T -> String, k: String)
    requires SortedBy(ys, key)
    ensures WithKey(InsertBy(x, ys, key), key, k) == (if key(x) == k then [x] else []) + WithKey(ys, key, k)
    decreases |ys|
  {
    if ys != [] {
      if LexLe(key(x), key(ys[0])) {
        assert ([x] + ys)[1..] == ys;
      } else {
        LexLeRefl(key(x));
        InsertByStable(x, ys[1..], key, k);
        var rest := InsertBy(x, ys[1..], key);
        assert ([ys[0]] + rest)[1..] == rest;
      }
    }
  }

  /** The sort is stable: elements with equal keys keep their relative order. */
  lemma {:induction false} SortByStable<T>(xs: seq<T>, key: T -> String, k: String)
    ensures WithKey(SortBy(xs, key), key, k) == WithKey(xs, key, k)
  {
    if xs != [] {
      SortByStable(xs[1..], key, k);
      InsertByStable(xs[0], SortBy(xs[1..], key), key, k);
    }
  }
}
