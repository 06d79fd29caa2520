/**
 * Kotlin's `sortedBy`: a STABLE sort by a selector. Keys are sequences of
 * integers compared lexicographically, which is how String.compareTo orders
 * strings (by char code) and, for one-element keys, how LocalTime.compareTo
 * orders times. The sort is written as an insertion sort; StableSortUnique
 * shows that every stable sort (TimSort included) gives the same list.
 */
module Sorting {

  /** Lexicographic "less than or equal"; a proper prefix comes first. */
  predicate LexLeq(a: seq<int>, b: seq<int>)
    decreases |a|
  {
    a == [] || (b != [] && (a[0] < b[0] || (a[0] == b[0] && LexLeq(a[1..], b[1..]))))
  }

  lemma {:induction false} LexLeqReflexive(a: seq<int>)
    ensures LexLeq(a, a)
    decreases |a|
  {
    if a != [] {
      LexLeqReflexive(a[1..]);
    }
  }

  lemma {:induction false} LexLeqTotal(a: seq<int>, b: seq<int>)
    ensures LexLeq(a, b) || LexLeq(b, a)
    decreases |a|
  {
    if a != [] && b != [] && a[0] == b[0] {
      LexLeqTotal(a[1..], b[1..]);
    }
  }

  lemma {:induction false} LexLeqTransitive(a: seq<int>, b: seq<int>, c: seq<int>)
    requires LexLeq(a, b) && LexLeq(b, c)
    ensures LexLeq(a, c)
    decreases |a|
  {
    if a != [] && a[0] == b[0] && b[0] == c[0] {
      LexLeqTransitive(a[1..], b[1..], c[1..]);
    }
  }

  lemma {:induction false} LexLeqAntisymmetric(a: seq<int>, b: seq<int>)
    requires LexLeq(a, b) && LexLeq(b, a)
    ensures a == b
    decreases |a|
  {
    if a != [] {
      LexLeqAntisymmetric(a[1..], b[1..]);
      assert a == [a[0]] + a[1..] && b == [b[0]] + b[1..];
    }
  }

  /** On one-element keys the order is the order of the numbers. */
  lemma LexLeqSingleton(x: int, y: int)
    ensures LexLeq([x], [y]) <==> x <= y
  {
    assert [x][1..] == [] && [y][1..] == [];
  }

  predicate SortedBy<T>(s: seq<T>, key: T -> seq<int>) {
    forall i, j :: 0 <= i < j < |s| ==> LexLeq(key(s[i]), key(s[j]))
  }

  /** The elements of `s` whose key is `k`, in their order in `s`. */
  function FilterKey<T>(s: seq<T>, key: T -> seq<int>, k: seq<int>): seq<T> {
    if s == [] then []
    else (if key(s[0]) == k then [s[0]] else []) + FilterKey(s[1..], key, k)
  }

  /** Puts `x` in front of the first element whose key is not smaller. */
  function Insert<T>(x: T, s: seq<T>, key: T -> seq<int>): seq<T> {
    if s == [] || LexLeq(key(x), key(s[0])) then [x] + s
    else [s[0]] + Insert(x, s[1..], key)
  }

  function SortBy<T>(xs: seq<T>, key: T -> seq<int>): seq<T> {
    if xs == [] then [] else Insert(xs[0], SortBy(xs[1..], key), key)
  }

  lemma {:induction false} InsertMultiset<T>(x: T, s: seq<T>, key: T -> seq<int>)
    ensures multiset(Insert(x, s, key)) == multiset(s) + multiset{x}
  {
    if s != [] && !LexLeq(key(x), key(s[0])) {
      InsertMultiset(x, s[1..], key);
      assert s == [s[0]] + s[1..];
    }
  }

  lemma {:induction false} InsertSorted<T>(x: T, s: seq<T>, key: T -> seq<int>)
    requires SortedBy(s, key)
    ensures SortedBy(Insert(x, s, key), key)
  {
    var r := Insert(x, s, key);
    if s == [] {
    } else if LexLeq(key(x), key(s[0])) {
      forall i, j | 0 <= i < j < |r| ensures LexLeq(key(r[i]), key(r[j])) {
        if i == 0 && j > 1 {
          LexLeqTransitive(key(x), key(s[0]), key(s[j - 1]));
        }
      }
    } else {
      LexLeqTotal(key(x), key(s[0]));
      var tail := Insert(x, s[1..], key);
      InsertSorted(x, s[1..], key);
      InsertMultiset(x, s[1..], key);
      forall j | 0 <= j < |tail| ensures LexLeq(key(s[0]), key(tail[j])) {
        assert tail[j] in multiset(tail);
        if tail[j] == x {
        } else {
          assert tail[j] in multiset(s[1..]);
          var m :| 0 <= m < |s[1..]| && s[1..][m] == tail[j];
          assert s[m + 1] == tail[j];
        }
      }
      assert r == [s[0]] + tail;
    }
  }

  lemma {:induction false} InsertFilterKey<T>(x: T, s: seq<T>, key: T -> seq<int>, k: seq<int>)
    ensures FilterKey(Insert(x, s, key), key, k)
         == (if key(x) == k then [x] else []) + FilterKey(s, key, k)
  {
    if s == [] || LexLeq(key(x), key(s[0])) {
      assert ([x] + s)[0] == x && ([x] + s)[1..] == s;
    } else {
      var tail := Insert(x, s[1..], key);
      assert Insert(x, s, key) == [s[0]] + tail;
      assert ([s[0]] + tail)[0] == s[0] && ([s[0]] + tail)[1..] == tail;
      InsertFilterKey(x, s[1..], key, k);
      var rest := FilterKey(s[1..], key, k);
      var hx: seq<T> := if key(x) == k then [x] else [];
      var h0: seq<T> := if key(s[0]) == k then [s[0]] else [];
      assert FilterKey([s[0]] + tail, key, k) == h0 + (hx + rest);
      LexLeqReflexive(key(x));
      assert h0 == [] || hx == [];
      if h0 == [] {
        assert h0 + (hx + rest) == hx + rest;
        assert FilterKey(s, key, k) == rest;
      } else {
        assert hx + (h0 + rest) == h0 + rest;
      }
    }
  }

  /**
   * sortedBy's promise: the result is ordered by key, it is a permutation of
   * the input, and elements with equal keys keep their relative order.
   */
  lemma {:induction false} SortByCorrect<T>(xs: seq<T>, key: T -> seq<int>)
    ensures SortedBy(SortBy(xs, key), key)
    ensures multiset(SortBy(xs, key)) == multiset(xs)
    ensures forall k :: FilterKey(SortBy(xs, key), key, k) == FilterKey(xs, key, k)
  {
    if xs != [] {
      SortByCorrect(xs[1..], key);
      InsertSorted(xs[0], SortBy(xs[1..], key), key);
      InsertMultiset(xs[0], SortBy(xs[1..], key), key);
      assert xs == [xs[0]] + xs[1..];
      forall k ensures FilterKey(SortBy(xs, key), key, k) == FilterKey(xs, key, k) {
        InsertFilterKey(xs[0], SortBy(xs[1..], key), key, k);
      }
    }
  }

  lemma {:induction false} FilterKeyMembers<T>(s: seq<T>, key: T -> seq<int>, k: seq<int>)
    ensures forall y :: y in FilterKey(s, key, k) ==> y in s && key(y) == k
  {
    if s != [] {
      FilterKeyMembers(s[1..], key, k);
    }
  }

  /** The first element of `s` with key `k` heads FilterKey(s, key, k). */
  lemma {:induction false} FilterKeyHead<T>(s: seq<T>, key: T -> seq<int>, i: nat)
    requires i < |s|
    requires forall j :: 0 <= j < i ==> key(s[j]) != key(s[i])
    ensures FilterKey(s, key, key(s[i])) != [] && FilterKey(s, key, key(s[i]))[0] == s[i]
  {
    if i > 0 {
      FilterKeyHead(s[1..], key, i - 1);
    }
  }

  /**
   * A sorted list whose every key class is the input's key class in input
   * order is unique: every stable sort produces the same list.
   */
  lemma {:induction false} StableSortUnique<T>(a: seq<T>, b: seq<T>, key: T -> seq<int>)
    requires SortedBy(a, key) && SortedBy(b, key)
    requires forall k :: FilterKey(a, key, k) == FilterKey(b, key, k)
    ensures a == b
    decreases |a|
  {
    // the first element of a non-empty list has a non-empty key class
    if a != [] { FilterKeyHead(a, key, 0); }
    if b != [] { FilterKeyHead(b, key, 0); }
    if a != [] && b != [] {
      var ka, kb := key(a[0]), key(b[0]);
      FilterKeyMembers(a, key, kb);
      FilterKeyMembers(b, key, ka);
      // b holds an element with key ka, and a one with key kb
      assert b[0] in FilterKey(a, key, kb);
      var ia :| 0 <= ia < |a| && a[ia] == b[0];
      assert a[0] in FilterKey(b, key, ka);
      var ib :| 0 <= ib < |b| && b[ib] == a[0];
      LexLeqReflexive(ka);
      LexLeqReflexive(kb);
      assert LexLeq(ka, kb) by { if ia > 0 { assert LexLeq(key(a[0]), key(a[ia])); } }
      assert LexLeq(kb, ka) by { if ib > 0 { assert LexLeq(key(b[0]), key(b[ib])); } }
      LexLeqAntisymmetric(ka, kb);
      assert a[0] == b[0];
      forall k ensures FilterKey(a[1..], key, k) == FilterKey(b[1..], key, k) {
        assert FilterKey(a, key, k) == (if ka == k then [a[0]] else []) + FilterKey(a[1..], key, k);
        assert FilterKey(b, key, k) == (if kb == k then [b[0]] else []) + FilterKey(b[1..], key, k);
        var p := if ka == k then [a[0]] else [];
        assert FilterKey(a[1..], key, k) == (p + FilterKey(a[1..], key, k))[|p|..];
        assert FilterKey(b[1..], key, k) == (p + FilterKey(b[1..], key, k))[|p|..];
      }
      StableSortUnique(a[1..], b[1..], key);
      assert a == [a[0]] + a[1..] && b == [b[0]] + b[1..];
    }
  }
}
