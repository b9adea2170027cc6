/** `Array.prototype.sort` with a comparator of the form
    `(a, b) => key(a) - key(b)`, where a key may be NaN (None).

    The sort is stable (ECMAScript 2019 onward) and, per the standard, a
    comparator result of NaN counts as 0 — "keep the current order". The
    model is the stable insertion sort: each element moves in front of the
    already-sorted elements whose key is strictly greater than its own.
    When every key is a number this is the one order a stable sort can
    give; when some key is NaN the comparator is inconsistent and the order
    JavaScript produces is implementation-defined. */
module Sorting {
  import opened Wrappers

  /** The comparator result is positive: `a` belongs after `b`. */
  predicate After(a: Option<int>, b: Option<int>) {
    a.Some? && b.Some? && a.value > b.value
  }

  /** Every element has a numeric key. */
  predicate Keyed<T>(s: seq<T>, key: T -> Option<int>) {
    forall i :: 0 <= i < |s| ==> key(s[i]).Some?
  }

  /** Non-decreasing by key. */
  predicate Sorted<T>(s: seq<T>, key: T -> Option<int>) {
    && Keyed(s, key)
    && forall i, j :: 0 <= i < j < |s| ==> key(s[i]).value <= key(s[j]).value
  }

  /** Inserts `x` after every element of `s` whose key is not greater. */
  function Insert<T(==)>(x: T, s: seq<T>, key: T -> Option<int>): (r: seq<T>)
    ensures multiset(r) == multiset(s) + multiset{x}
  {
    if |s| == 0 then [x]
    else
      var last := s[|s| - 1];
      var init := s[..|s| - 1];
      assert s == init + [last];
      if After(key(last), key(x)) then Insert(x, init, key) + [last]
      else s + [x]
  }

  /** Inserting a keyed element into a sorted sequence keeps it sorted. */
  lemma {:induction false} InsertSorted<T>(x: T, s: seq<T>, key: T -> Option<int>)
    requires Sorted(s, key) && key(x).Some?
    ensures Sorted(Insert(x, s, key), key)
    decreases |s|
  {
    if |s| > 0 {
      var last := s[|s| - 1];
      var init := s[..|s| - 1];
      assert s == init + [last];
      if After(key(last), key(x)) {
        SortedInit(s, key);
        InsertSorted(x, init, key);
        PlaceLast(x, init, last, Insert(x, init, key), key);
      }
    }
  }

  /** When `x` moved in front of `last`, every element of the front part
      keeps a key no greater than `last`'s. */
  lemma PlaceLast<T>(x: T, init: seq<T>, last: T, front: seq<T>, key: T -> Option<int>)
    requires After(key(last), key(x))
    requires multiset(front) == multiset(init) + multiset{x}
    requires Sorted(init + [last], key) ==> Sorted(front, key)
    ensures Sorted(init + [last], key) ==> Sorted(front + [last], key)
  {
    if Sorted(init + [last], key) {
      var r := front + [last];
      forall i | 0 <= i < |front|
        ensures key(r[i]).Some? && key(r[i]).value <= key(last).value
      {
        var y := front[i];
        assert r[i] == y;
        assert y in multiset(front);
        if y != x {
          assert y in multiset(init);
          var j :| 0 <= j < |init| && init[j] == y;
          assert (init + [last])[j] == y && (init + [last])[|init|] == last;
        }
      }
    }
  }

  lemma SortedInit<T>(s: seq<T>, key: T -> Option<int>)
    requires |s| > 0 && Sorted(s, key)
    ensures Sorted(s[..|s| - 1], key)
  {
    assert forall i :: 0 <= i < |s| - 1 ==> s[..|s| - 1][i] == s[i];
  }

  lemma InsertKeyed<T>(x: T, init: seq<T>, r: seq<T>, key: T -> Option<int>)
    requires Keyed(init, key) ==> Sorted(r, key)
    ensures Keyed(init + [x], key) ==> Sorted(Insert(x, r, key), key)
  {
    if Keyed(init + [x], key) {
      assert (init + [x])[|init|] == x;
      assert forall i :: 0 <= i < |init| ==> (init + [x])[i] == init[i];
      InsertSorted(x, r, key);
    }
  }

  /** The stable sort of `s` by `key`. */
  function SortBy<T(==)>(s: seq<T>, key: T -> Option<int>): (r: seq<T>)
    ensures multiset(r) == multiset(s)
    ensures Keyed(s, key) ==> Sorted(r, key)
  {
    if |s| == 0 then []
    else
      var init := s[..|s| - 1];
      assert s == init + [s[|s| - 1]];
      var r := SortBy(init, key);
      InsertKeyed(s[|s| - 1], init, r, key);
      Insert(s[|s| - 1], r, key)
  }

  /** Two elements with the same numeric key keep their order. */
  lemma SortTwoEqual<T>(x: T, y: T, key: T -> Option<int>)
    requires key(x).Some? && key(x) == key(y)
    ensures SortBy([x, y], key) == [x, y]
  {
    assert [x, y][..1] == [x];
    assert [x][..0] == [];
    assert SortBy([x], key) == [x];
    assert Insert(y, [x], key) == [x, y];
  }

  /** Whether every key is numeric does not depend on the order. */
  lemma KeyedPermutation<T>(s: seq<T>, r: seq<T>, key: T -> Option<int>)
    requires multiset(s) == multiset(r)
    ensures Keyed(s, key) <==> Keyed(r, key)
  {
    forall i | 0 <= i < |r| && Keyed(s, key)
      ensures key(r[i]).Some?
    {
      assert r[i] in multiset(s);
      var j :| 0 <= j < |s| && s[j] == r[i];
    }
    forall i | 0 <= i < |s| && Keyed(r, key)
      ensures key(s[i]).Some?
    {
      assert s[i] in multiset(r);
      var j :| 0 <= j < |r| && r[j] == s[i];
    }
  }
}
