/**
  A stable sort by key, the behaviour of `stream().sorted(comparator)` on an
  ordered stream with a key-extracting comparator: the result is ordered by
  key, is a permutation of the input, and keeps elements with equal keys in
  their input order.
 */
module Sorting {

  /** `le` is a total order: reflexive, antisymmetric, transitive and total. */
  ghost predicate TotalOrder<K(!new)>(le: (K, K) -> bool) {
    && (forall a :: le(a, a))
    && (forall a, b :: le(a, b) && le(b, a) ==> a == b)
    && (forall a, b, c :: le(a, b) && le(b, c) ==> le(a, c))
    && (forall a, b :: le(a, b) || le(b, a))
  }

  /** The keys of `xs` are in ascending order under `le`. */
  ghost predicate SortedBy<T, K>(xs: seq<T>, key: T -> K, le: (K, K) -> bool) {
    forall i, j :: 0 <= i < j < |xs| ==> le(key(xs[i]), key(xs[j]))
  }

  /** The elements of `xs` whose key is `k`, in their order in `xs`. */
  function WithKey<T, K(==)>(xs: seq<T>, key: T -> K, k: K): seq<T> {
    if xs == [] then []
    else (if key(xs[0]) == k then [xs[0]] else []) + WithKey(xs[1..], key, k)
  }

  /** Inserts `x` in front of the first element whose key is not below its own. */
  function Insert<T, K>(x: T, xs: seq<T>, key: T -> K, le: (K, K) -> bool): seq<T> {
    if xs == [] then [x]
    else if le(key(x), key(xs[0])) then [x] + xs
    else [xs[0]] + Insert(x, xs[1..], key, le)
  }

  /** The suffix of a sorted sequence is sorted. */
  lemma SortedTail<T, K>(xs: seq<T>, key: T -> K, le: (K, K) -> bool)
    requires |xs| >= 1 && SortedBy(xs, key, le)
    ensures SortedBy(xs[1..], key, le)
  {
    forall i, j | 0 <= i < j < |xs[1..]| ensures le(key(xs[1..][i]), key(xs[1..][j])) {
      assert xs[1..][i] == xs[i + 1] && xs[1..][j] == xs[j + 1];
    }
  }

  /** Insertion adds exactly `x`. */
  lemma {:induction false} InsertPermutes<T, K>(x: T, xs: seq<T>, key: T -> K, le: (K, K) -> bool)
    ensures multiset(Insert(x, xs, key, le)) == multiset(xs) + multiset{x}
  {
    if xs != [] && !le(key(x), key(xs[0])) {
      InsertPermutes(x, xs[1..], key, le);
      assert xs == [xs[0]] + xs[1..];
    }
  }

  /** Insertion into a sorted sequence keeps it sorted. */
  lemma {:induction false} InsertSorted<T, K(!new)>(x: T, xs: seq<T>, key: T -> K, le: (K, K) -> bool)
    requires TotalOrder(le)
    requires SortedBy(xs, key, le)
    ensures SortedBy(Insert(x, xs, key, le), key, le)
  {
    var r := Insert(x, xs, key, le);
    if xs == [] {
    } else if le(key(x), key(xs[0])) {
      assert r[1..] == xs;
      forall i, j | 0 <= i < j < |r| ensures le(key(r[i]), key(r[j])) {
        assert r[j] == xs[j - 1];
        if i > 0 {
          assert r[i] == xs[i - 1];
        } else if j > 1 {
          assert le(key(xs[0]), key(xs[j - 1]));
        }
      }
    } else {
      var tail := Insert(x, xs[1..], key, le);
      SortedTail(xs, key, le);
      InsertSorted(x, xs[1..], key, le);
      InsertPermutes(x, xs[1..], key, le);
      assert r[1..] == tail;
      assert le(key(xs[0]), key(x));
      forall i, j | 0 <= i < j < |r| ensures le(key(r[i]), key(r[j])) {
        assert r[j] == tail[j - 1];
        if i > 0 {
          assert r[i] == tail[i - 1];
        } else {
          var e := tail[j - 1];
          assert e in multiset(tail);
          if e != x {
            assert e in multiset(xs[1..]);
            var m :| 0 <= m < |xs[1..]| && xs[1..][m] == e;
            assert xs[m + 1] == e;
          }
        }
      }
    }
  }

  /** Insertion puts `x` before every element that has the same key. */
  lemma {:induction false} InsertStable<T, K(!new)>(x: T, xs: seq<T>, key: T -> K, le: (K, K) -> bool, k: K)
    requires TotalOrder(le)
    ensures WithKey(Insert(x, xs, key, le), key, k) == (if key(x) == k then [x] else []) + WithKey(xs, key, k)
  {
    var r := Insert(x, xs, key, le);
    var own := if key(x) == k then [x] else [];
    if xs == [] {
      assert r[1..] == [];
    } else if le(key(x), key(xs[0])) {
      assert r[1..] == xs;
      assert WithKey(r, key, k) == own + WithKey(xs, key, k);
    } else {
      var head := if key(xs[0]) == k then [xs[0]] else [];
      InsertStable(x, xs[1..], key, le, k);
      assert r[1..] == Insert(x, xs[1..], key, le);
      assert WithKey(r, key, k) == head + (own + WithKey(xs[1..], key, k));
      assert WithKey(xs, key, k) == head + WithKey(xs[1..], key, k);
      assert key(xs[0]) != key(x);
      assert head == [] || own == [];
    }
  }

  /** Stable insertion sort of `xs` by `key` under the total order `le`. */
  function SortBy<T(==), K(!new,==)>(xs: seq<T>, key: T -> K, le: (K, K) -> bool): (r: seq<T>)
    requires TotalOrder(le)
    ensures multiset(r) == multiset(xs)
    ensures SortedBy(r, key, le)
    ensures forall k :: WithKey(r, key, k) == WithKey(xs, key, k)
  {
    if xs == [] then []
    else
      var rest := SortBy(xs[1..], key, le);
      InsertPermutes(xs[0], rest, key, le);
      InsertSorted(xs[0], rest, key, le);
      assert forall k :: WithKey(Insert(xs[0], rest, key, le), key, k)
                         == (if key(xs[0]) == k then [xs[0]] else []) + WithKey(rest, key, k) by {
        forall k { InsertStable(xs[0], rest, key, le, k); }
      }
      assert xs == [xs[0]] + xs[1..];
      Insert(xs[0], rest, key, le)
  }

  /** Every element picked out by `WithKey` comes from `xs` and has key `k`. */
  lemma {:induction false} WithKeyMembers<T, K>(xs: seq<T>, key: T -> K, k: K)
    ensures forall x :: x in WithKey(xs, key, k) ==> x in xs && key(x) == k
  {
    if xs != [] {
      WithKeyMembers(xs[1..], key, k);
    }
  }

  /** A sorted sequence starts with its element of least key that comes first. */
  lemma {:induction false} WithKeyOfHead<T, K>(xs: seq<T>, key: T -> K)
    requires |xs| >= 1
    ensures WithKey(xs, key, key(xs[0])) == [xs[0]] + WithKey(xs[1..], key, key(xs[0]))
  {
  }

  /**
    The three properties of `SortBy` leave no freedom: two sequences that are
    both sorted and agree on the elements of every key are equal. So the
    result of a stable sort is determined by its input.
   */
  lemma {:induction false} StableSortUnique<T, K(!new)>(a: seq<T>, b: seq<T>, key: T -> K, le: (K, K) -> bool)
    requires TotalOrder(le)
    requires SortedBy(a, key, le) && SortedBy(b, key, le)
    requires forall k :: WithKey(a, key, k) == WithKey(b, key, k)
    ensures a == b
  {
    assert (a == []) == (b == []) by {
      if b != [] { assert WithKey(b, key, key(b[0])) != []; }
      if a != [] { assert WithKey(a, key, key(a[0])) != []; }
    }
    if a != [] {
      var ka, kb := key(a[0]), key(b[0]);
      WithKeyMembers(a, key, kb);
      WithKeyMembers(b, key, ka);
      assert WithKey(b, key, kb)[0] in WithKey(a, key, kb);
      assert WithKey(a, key, ka)[0] in WithKey(b, key, ka);
      assert le(ka, kb) by {
        var i :| 0 <= i < |a| && a[i] == WithKey(b, key, kb)[0];
        if i > 0 { assert le(key(a[0]), key(a[i])); }
      }
      assert le(kb, ka) by {
        var i :| 0 <= i < |b| && b[i] == WithKey(a, key, ka)[0];
        if i > 0 { assert le(key(b[0]), key(b[i])); }
      }
      assert ka == kb;
      WithKeyOfHead(a, key);
      WithKeyOfHead(b, key);
      assert a[0] == b[0];
      forall k ensures WithKey(a[1..], key, k) == WithKey(b[1..], key, k) {
        assert WithKey(a, key, k) == WithKey(b, key, k);
        if k == ka {
          assert WithKey(a, key, k) == [a[0]] + WithKey(a[1..], key, k);
          assert WithKey(b, key, k) == [b[0]] + WithKey(b[1..], key, k);
          assert WithKey(a[1..], key, k) == WithKey(a, key, k)[1..];
          assert WithKey(b[1..], key, k) == WithKey(b, key, k)[1..];
        } else {
          assert WithKey(a, key, k) == WithKey(a[1..], key, k);
          assert WithKey(b, key, k) == WithKey(b[1..], key, k);
        }
      }
      SortedTail(a, key, le);
      SortedTail(b, key, le);
      StableSortUnique(a[1..], b[1..], key, le);
      assert a == [a[0]] + a[1..] && b == [b[0]] + b[1..];
    }
  }
}
