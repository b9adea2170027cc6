/** Counting keys the way the scripts do with a plain object:
    `map[key] = (map[key] || 0) + 1` for each key, then `Object.entries(map)`.
    The keys the scripts use are never array-index-like (they contain "-W"
    or "-"), so `Object.entries` lists them in first-insertion order; the
    tally is therefore a sequence of entries in order of first appearance. */
module Grouping {
  import opened Wrappers
  import opened Sorting

  datatype Entry<K> = Entry(key: K, count: nat)

  /** The `{ label, value }` record the food-poisoning script charts. */
  datatype Bucket = Bucket(labelText: string, value: nat)

  function ValueOf(b: Bucket): nat {
    b.value
  }

  function Labels(bs: seq<Bucket>): (xs: seq<string>)
    ensures |xs| == |bs| && forall i :: 0 <= i < |bs| ==> xs[i] == bs[i].labelText
  {
    seq(|bs|, i requires 0 <= i < |bs| => bs[i].labelText)
  }

  function Values(bs: seq<Bucket>): (ys: seq<nat>)
    ensures |ys| == |bs| && forall i :: 0 <= i < |bs| ==> ys[i] == bs[i].value
  {
    seq(|bs|, i requires 0 <= i < |bs| => bs[i].value)
  }

  /** No two entries share a key. */
  predicate DistinctKeys<K(==)>(t: seq<Entry<K>>) {
    forall i, j :: 0 <= i < j < |t| ==> t[i].key != t[j].key
  }

  function KeySet<K>(t: seq<Entry<K>>): set<K> {
    set e | e in t :: e.key
  }

  /** Where `k` sits in the tally, if anywhere. */
  function Find<K(==)>(t: seq<Entry<K>>, k: K): (r: Option<nat>)
    ensures r.Some? ==> r.value < |t| && t[r.value].key == k
    ensures r.None? ==> k !in KeySet(t)
  {
    if |t| == 0 then None
    else if t[0].key == k then Some(0)
    else
      match Find(t[1..], k)
      case Some(j) => Some(j + 1)
      case None => KeySetCons(t); None
  }

  /** `map[k] = (map[k] || 0) + 1` on an insertion-ordered object: an
      existing key is counted up in place, a new key goes last with count 1. */
  function Bump<K(==)>(t: seq<Entry<K>>, k: K): (r: seq<Entry<K>>)
    ensures k !in KeySet(t) ==> r == t + [Entry(k, 1)]
    ensures k in KeySet(t) ==>
      exists j :: 0 <= j < |t| && t[j].key == k && r == t[j := Entry(k, t[j].count + 1)]
  {
    match Find(t, k)
    case Some(j) => t[j := Entry(k, t[j].count + 1)]
    case None => t + [Entry(k, 1)]
  }

  lemma KeySetCons<K>(t: seq<Entry<K>>)
    requires |t| > 0
    ensures KeySet(t) == {t[0].key} + KeySet(t[1..])
  {
    assert forall e :: e in t <==> e == t[0] || e in t[1..];
  }

  lemma KeySetAppend<K>(t: seq<Entry<K>>, e: Entry<K>)
    ensures KeySet(t + [e]) == KeySet(t) + {e.key}
  {
    assert forall x :: x in t + [e] <==> x in t || x == e;
  }

  lemma HeadKeyNotInTail<K>(t: seq<Entry<K>>)
    requires DistinctKeys(t) && |t| > 0
    ensures t[0].key !in KeySet(t[1..])
  {
    forall e | e in t[1..]
      ensures e.key != t[0].key
    {
      var j :| 0 <= j < |t[1..]| && t[1..][j] == e;
      assert e == t[j + 1];
    }
  }

  /** `t` counts `keys`: one entry per distinct key, holding the number of
      times that key occurs. */
  predicate Counts<K(==)>(keys: seq<K>, t: seq<Entry<K>>) {
    && DistinctKeys(t)
    && KeySet(t) == (set k | k in keys)
    && forall i :: 0 <= i < |t| ==> t[i].count == multiset(keys)[t[i].key]
  }

  /** The counting loop over a list of keys. */
  function Tally<K(==)>(keys: seq<K>): (t: seq<Entry<K>>)
    ensures Counts(keys, t)
  {
    if |keys| == 0 then []
    else
      var prefix := keys[..|keys| - 1];
      var k := keys[|keys| - 1];
      assert keys == prefix + [k];
      var before := Tally(prefix);
      BumpCounts(prefix, k, before);
      Bump(before, k)
  }

  /** Counting one more key keeps the tally correct. */
  lemma BumpCounts<K>(prefix: seq<K>, k: K, before: seq<Entry<K>>)
    requires Counts(prefix, before)
    ensures Counts(prefix + [k], Bump(before, k))
  {
    var keys := prefix + [k];
    var after := Bump(before, k);
    assert multiset(keys) == multiset(prefix) + multiset{k};
    assert (set x | x in keys) == (set x | x in prefix) + {k};
    if k in KeySet(before) {
      var j :| 0 <= j < |before| && before[j].key == k && after == before[j := Entry(k, before[j].count + 1)];
      BumpedKeys(before, j, after);
    } else {
      assert k !in prefix;
      KeySetAppend(before, Entry(k, 1));
    }
  }

  /** Updating one entry's count in place keeps the set of keys. */
  lemma BumpedKeys<K>(before: seq<Entry<K>>, j: nat, after: seq<Entry<K>>)
    requires j < |before| && after == before[j := Entry(before[j].key, before[j].count + 1)]
    ensures KeySet(after) == KeySet(before)
    ensures DistinctKeys(before) ==> DistinctKeys(after)
  {
    forall e | e in after
      ensures e.key in KeySet(before)
    {
      var i :| 0 <= i < |after| && after[i] == e;
      assert e.key == before[i].key;
    }
    forall e | e in before
      ensures e.key in KeySet(after)
    {
      var i :| 0 <= i < |before| && before[i] == e;
      assert e.key == after[i].key;
    }
  }

  /** Two different keys: two entries of one, in order. */
  lemma TallyTwo<K>(k1: K, k2: K)
    requires k1 != k2
    ensures Tally([k1, k2]) == [Entry(k1, 1), Entry(k2, 1)]
  {
    assert [k1, k2][..1] == [k1];
    assert [k1][..0] == [];
    assert Tally([k1]) == [Entry(k1, 1)];
    assert Find([Entry(k1, 1)], k2) == None by {
      assert [Entry(k1, 1)][1..] == [];
    }
  }

  /** Two different keys whose records tie on the sort key: two records,
      in first-appearance order. */
  lemma AggregateTwo<K, T(!new)>(k1: K, k2: K, f: Entry<K> -> T, order: T -> Option<int>)
    requires k1 != k2
    requires order(f(Entry(k1, 1))).Some? && order(f(Entry(k1, 1))) == order(f(Entry(k2, 1)))
    ensures Aggregate([k1, k2], f, order) == [f(Entry(k1, 1)), f(Entry(k2, 1))]
  {
    TallyTwo(k1, k2);
    var p := Project([Entry(k1, 1), Entry(k2, 1)], f);
    assert p == [f(Entry(k1, 1)), f(Entry(k2, 1))];
    SortTwoEqual(p[0], p[1], order);
  }

  function TotalCount<K>(t: seq<Entry<K>>): nat {
    if |t| == 0 then 0 else t[0].count + TotalCount(t[1..])
  }

  lemma {:induction false} TotalAppend<K>(t: seq<Entry<K>>, e: Entry<K>)
    ensures TotalCount(t + [e]) == TotalCount(t) + e.count
    decreases |t|
  {
    if |t| > 0 {
      assert (t + [e])[1..] == t[1..] + [e];
      TotalAppend(t[1..], e);
    }
  }

  lemma {:induction false} TotalUpdate<K>(t: seq<Entry<K>>, j: nat, e: Entry<K>)
    requires j < |t|
    ensures TotalCount(t[j := e]) == TotalCount(t) - t[j].count + e.count
    decreases |t|
  {
    if j > 0 {
      assert t[j := e][1..] == t[1..][j - 1 := e];
      TotalUpdate(t[1..], j - 1, e);
    }
  }

  lemma BumpTotal<K>(t: seq<Entry<K>>, k: K)
    ensures TotalCount(Bump(t, k)) == TotalCount(t) + 1
  {
    if k in KeySet(t) {
      var j :| 0 <= j < |t| && t[j].key == k && Bump(t, k) == t[j := Entry(k, t[j].count + 1)];
      TotalUpdate(t, j, Entry(k, t[j].count + 1));
    } else {
      TotalAppend(t, Entry(k, 1));
    }
  }

  /** Counting conserves the number of keys. */
  lemma {:induction false} TallyTotal<K>(keys: seq<K>)
    ensures TotalCount(Tally(keys)) == |keys|
    decreases |keys|
  {
    if |keys| > 0 {
      TallyTotal(keys[..|keys| - 1]);
      BumpTotal(Tally(keys[..|keys| - 1]), keys[|keys| - 1]);
    }
  }

  /** A tally has one entry per distinct key. */
  lemma TallySize<K>(keys: seq<K>)
    ensures |Tally(keys)| == |set k | k in keys|
  {
    DistinctSize(Tally(keys));
  }

  lemma {:induction false} DistinctSize<K>(t: seq<Entry<K>>)
    requires DistinctKeys(t)
    ensures |KeySet(t)| == |t|
    decreases |t|
  {
    if |t| > 0 {
      KeySetCons(t);
      DistinctSize(t[1..]);
      HeadKeyNotInTail(t);
    }
  }

  /** Exactly the entries of a tally: each key that occurs, with its number
      of occurrences. */
  lemma TallyEntries<K>(keys: seq<K>)
    ensures forall e :: e in Tally(keys) <==> e.key in keys && e.count == multiset(keys)[e.key]
  {
    var t := Tally(keys);
    forall e: Entry<K> | e.key in keys && e.count == multiset(keys)[e.key]
      ensures e in t
    {
      assert e.key in KeySet(t);
      var e' :| e' in t && e'.key == e.key;
      var i :| 0 <= i < |t| && t[i] == e';
    }
    forall e | e in t
      ensures e.key in keys
    {
      assert e.key in KeySet(t);
    }
  }

  /** `Object.entries(map).map(f)`. */
  function Project<K, T>(t: seq<Entry<K>>, f: Entry<K> -> T): (r: seq<T>)
    ensures |r| == |t|
    ensures forall i :: 0 <= i < |t| ==> r[i] == f(t[i])
  {
    seq(|t|, i requires 0 <= i < |t| => f(t[i]))
  }

  /** The keys of the entries of `t` that give record `x`. */
  ghost function KeysGiving<K, T>(t: seq<Entry<K>>, f: Entry<K> -> T, x: T): set<K> {
    set e | e in t && f(e) == x :: e.key
  }

  /** Dropping the last entry of a tally without repeated keys. */
  lemma DistinctInit<K>(t: seq<Entry<K>>)
    requires DistinctKeys(t) && |t| > 0
    ensures DistinctKeys(t[..|t| - 1])
    ensures t[|t| - 1].key !in KeySet(t[..|t| - 1])
  {
    var n := |t| - 1;
    var init := t[..n];
    forall i, j | 0 <= i < j < n
      ensures init[i].key != init[j].key
    {
      assert init[i] == t[i] && init[j] == t[j];
    }
    forall e | e in init
      ensures e.key != t[n].key
    {
      var i :| 0 <= i < n && init[i] == e;
      assert t[i] == e;
    }
  }

  lemma KeysGivingSnoc<K, T>(t: seq<Entry<K>>, f: Entry<K> -> T, x: T)
    requires |t| > 0
    ensures var n := |t| - 1;
      KeysGiving(t, f, x) == KeysGiving(t[..n], f, x) + (if f(t[n]) == x then {t[n].key} else {})
  {
    var n := |t| - 1;
    assert forall e :: e in t <==> e in t[..n] || e == t[n];
  }

  /** A record occurs in the projection of a tally once for every key of
      the tally whose entry gives that record. */
  lemma {:induction false} ProjectMultiplicity<K, T>(t: seq<Entry<K>>, f: Entry<K> -> T, x: T)
    requires DistinctKeys(t)
    ensures multiset(Project(t, f))[x] == |KeysGiving(t, f, x)|
    decreases |t|
  {
    if |t| > 0 {
      var n := |t| - 1;
      var init := t[..n];
      DistinctInit(t);
      ProjectMultiplicity(init, f, x);
      assert Project(t, f) == Project(init, f) + [f(t[n])];
      KeysGivingSnoc(t, f, x);
      if f(t[n]) == x {
        assert t[n].key !in KeysGiving(init, f, x);
      }
    }
  }

  /** The keys whose tally entry gives record `x`. */
  lemma TallyKeysGiving<K, T>(keys: seq<K>, f: Entry<K> -> T, x: T)
    ensures KeysGiving(Tally(keys), f, x) == (set k | k in keys && f(Entry(k, multiset(keys)[k])) == x)
  {
    var t := Tally(keys);
    TallyEntries(keys);
    forall k | k in KeysGiving(t, f, x)
      ensures k in keys && f(Entry(k, multiset(keys)[k])) == x
    {
      var e :| e in t && f(e) == x && e.key == k;
      assert e == Entry(k, multiset(keys)[k]);
    }
    forall k | k in keys && f(Entry(k, multiset(keys)[k])) == x
      ensures k in KeysGiving(t, f, x)
    {
      var e := Entry(k, multiset(keys)[k]);
      assert e in t;
    }
  }

  /** Count the keys, build one record per distinct key with `f`, and sort
      the records by `order`: the shape both weekly aggregations and the
      daily aggregation share. A record occurs once for every distinct key
      that gives it, so two keys giving equal records give two copies. */
  function Aggregate<K(==), T(==,!new)>(keys: seq<K>, f: Entry<K> -> T, order: T -> Option<int>): (r: seq<T>)
    ensures |r| == |set k | k in keys|
    ensures forall x :: x in r <==> exists k :: k in keys && x == f(Entry(k, multiset(keys)[k]))
    ensures forall x :: multiset(r)[x] == |set k | k in keys && f(Entry(k, multiset(keys)[k])) == x|
    ensures Keyed(r, order) ==> Sorted(r, order)
  {
    var t := Tally(keys);
    var p := Project(t, f);
    var r := SortBy(p, order);
    TallySize(keys);
    assert |r| == |multiset(r)| == |multiset(p)| == |p|;
    forall x
      ensures multiset(r)[x] == |set k | k in keys && f(Entry(k, multiset(keys)[k])) == x|
    {
      ProjectMultiplicity(t, f, x);
      TallyKeysGiving(keys, f, x);
    }
    TallyEntries(keys);
    forall x
      ensures x in r <==> exists k :: k in keys && x == f(Entry(k, multiset(keys)[k]))
    {
      assert x in r <==> x in multiset(p);
      if x in p {
        var i :| 0 <= i < |p| && p[i] == x;
        assert t[i] in t;
        assert t[i] == Entry(t[i].key, multiset(keys)[t[i].key]);
      }
      if exists k :: k in keys && x == f(Entry(k, multiset(keys)[k])) {
        var k :| k in keys && x == f(Entry(k, multiset(keys)[k]));
        var e := Entry(k, multiset(keys)[k]);
        assert e in t;
        var i :| 0 <= i < |t| && t[i] == e;
        assert p[i] == x;
      }
    }
    KeyedPermutation(p, r, order);
    r
  }

  /** No element occurs twice. */
  predicate Distinct<T(==)>(s: seq<T>) {
    forall i, j :: 0 <= i < j < |s| ==> s[i] != s[j]
  }

  lemma {:induction false} DistinctCount<T>(s: seq<T>, x: T)
    requires Distinct(s)
    ensures multiset(s)[x] <= 1
    decreases |s|
  {
    if |s| > 0 {
      assert s == [s[0]] + s[1..];
      assert Distinct(s[1..]) by {
        forall i, j | 0 <= i < j < |s| - 1
          ensures s[1..][i] != s[1..][j]
        {
          assert s[1..][i] == s[i + 1] && s[1..][j] == s[j + 1];
        }
      }
      DistinctCount(s[1..], x);
      forall k | 0 <= k < |s| - 1
        ensures s[1..][k] != s[0]
      {
        assert s[1..][k] == s[k + 1];
      }
      assert s[0] !in s[1..];
    }
  }

  /** A rearrangement of a list without repetitions has none either. */
  lemma DistinctPermutation<T>(a: seq<T>, b: seq<T>)
    requires multiset(a) == multiset(b) && Distinct(a)
    ensures Distinct(b)
  {
    forall i, j | 0 <= i < j < |b|
      ensures b[i] != b[j]
    {
      var x := b[j];
      DistinctCount(a, x);
      assert b == b[..j] + b[j..];
      assert b[j..][0] == x;
      assert multiset(b[j..])[x] >= 1;
      assert multiset(b[..j])[x] == 0;
      assert b[..j][i] == b[i];
    }
  }

  /** When `f` tells apart records of different keys, the records are
      pairwise different. */
  lemma AggregateRowsDistinct<K(!new), T(!new)>(ns: seq<Option<K>>, f: Entry<K> -> T, order: T -> Option<int>)
    requires forall e1: Entry<K>, e2: Entry<K> ::
      e1.key in PresentKeys(ns) && e2.key in PresentKeys(ns) && f(e1) == f(e2) ==> e1.key == e2.key
    ensures Distinct(AggregateRows(ns, f, order))
  {
    var keys := Present(ns);
    PresentKeySet(ns);
    var t := Tally(keys);
    var p := Project(t, f);
    forall i, j | 0 <= i < j < |p|
      ensures p[i] != p[j]
    {
      assert t[i] in t && t[j] in t;
      assert t[i].key in KeySet(t) && t[j].key in KeySet(t);
    }
    DistinctPermutation(p, SortBy(p, order));
  }

  /** The sum of `count` over a sequence. */
  function SumOf<T>(s: seq<T>, count: T -> nat): nat {
    if |s| == 0 then 0 else count(s[0]) + SumOf(s[1..], count)
  }

  lemma {:induction false} SumOfConcat<T>(a: seq<T>, b: seq<T>, count: T -> nat)
    ensures SumOf(a + b, count) == SumOf(a, count) + SumOf(b, count)
    decreases |a|
  {
    if |a| == 0 {
      assert a + b == b;
    } else {
      assert (a + b)[0] == a[0];
      assert (a + b)[1..] == a[1..] + b;
      SumOfConcat(a[1..], b, count);
    }
  }

  /** Reordering does not change a sum. */
  lemma {:induction false} SumOfPermutation<T>(a: seq<T>, b: seq<T>, count: T -> nat)
    requires multiset(a) == multiset(b)
    ensures SumOf(a, count) == SumOf(b, count)
    decreases |a|
  {
    if |a| > 0 {
      assert a[0] in multiset(b);
      var j :| 0 <= j < |b| && b[j] == a[0];
      var b' := b[..j] + b[j + 1..];
      MultisetRemove(b, j);
      assert a == [a[0]] + a[1..];
      assert multiset(a[1..]) == multiset(a) - multiset{a[0]};
      SumOfPermutation(a[1..], b', count);
      SumOfRemove(b, j, count);
    }
  }

  lemma MultisetRemove<T>(b: seq<T>, j: nat)
    requires j < |b|
    ensures multiset(b[..j] + b[j + 1..]) == multiset(b) - multiset{b[j]}
  {
    assert b == b[..j] + [b[j]] + b[j + 1..];
  }

  /** Taking one element out of a sum. */
  lemma SumOfRemove<T>(b: seq<T>, j: nat, count: T -> nat)
    requires j < |b|
    ensures SumOf(b, count) == count(b[j]) + SumOf(b[..j] + b[j + 1..], count)
  {
    assert b == b[..j] + ([b[j]] + b[j + 1..]);
    assert SumOf([b[j]], count) == count(b[j]);
    SumOfConcat(b[..j], [b[j]] + b[j + 1..], count);
    SumOfConcat([b[j]], b[j + 1..], count);
    SumOfConcat(b[..j], b[j + 1..], count);
  }

  lemma {:induction false} SumOfProject<K, T>(t: seq<Entry<K>>, f: Entry<K> -> T, count: T -> nat)
    requires forall e :: count(f(e)) == e.count
    ensures SumOf(Project(t, f), count) == TotalCount(t)
    decreases |t|
  {
    if |t| > 0 {
      assert Project(t, f)[1..] == Project(t[1..], f);
      SumOfProject(t[1..], f, count);
    }
  }

  /** Aggregation conserves the number of keys: the records' counts add up
      to the number of keys counted. */
  lemma AggregateTotal<K, T(!new)>(keys: seq<K>, f: Entry<K> -> T, order: T -> Option<int>, count: T -> nat)
    requires forall e :: count(f(e)) == e.count
    ensures SumOf(Aggregate(keys, f, order), count) == |keys|
  {
    var p := Project(Tally(keys), f);
    SumOfPermutation(Aggregate(keys, f, order), p, count);
    SumOfProject(Tally(keys), f, count);
    TallyTotal(keys);
  }

  // ---------------------------------------------------------------------
  // Rows normalised to an optional key each (None: the row is skipped)

  /** The keys of the rows that are not skipped, in row order. */
  function Present<K(!new)>(ns: seq<Option<K>>): (keys: seq<K>)
    ensures |keys| == |PresentIndices(ns)|
    ensures forall k :: multiset(keys)[k] == |IndicesOf(ns, k)|
  {
    if |ns| == 0 then []
    else
      var n := |ns| - 1;
      PresentSnoc(ns);
      Present(ns[..n]) + (if ns[n].Some? then [ns[n].value] else [])
  }

  /** Positions of the rows that are counted. */
  ghost function PresentIndices<K>(ns: seq<Option<K>>): set<nat> {
    set i: nat | i < |ns| && ns[i].Some?
  }

  /** Positions of the counted rows whose key is `k`. */
  ghost function IndicesOf<K>(ns: seq<Option<K>>, k: K): set<nat> {
    set i: nat | i < |ns| && ns[i] == Some(k)
  }

  /** The distinct keys of the counted rows. */
  ghost function PresentKeys<K>(ns: seq<Option<K>>): set<K> {
    set i: nat | i < |ns| && ns[i].Some? :: ns[i].value
  }

  lemma PresentSnoc<K(!new)>(ns: seq<Option<K>>)
    requires |ns| > 0
    ensures var n := |ns| - 1;
      |PresentIndices(ns)| == |PresentIndices(ns[..n])| + (if ns[n].Some? then 1 else 0)
    ensures var n := |ns| - 1;
      forall k :: |IndicesOf(ns, k)| == |IndicesOf(ns[..n], k)| + (if ns[n] == Some(k) then 1 else 0)
  {
    var n := |ns| - 1;
    var init := ns[..n];
    var a := PresentIndices(init);
    if ns[n].Some? {
      assert PresentIndices(ns) == a + {n};
      assert n !in a;
    } else {
      assert PresentIndices(ns) == a;
    }
    forall k
      ensures |IndicesOf(ns, k)| == |IndicesOf(init, k)| + (if ns[n] == Some(k) then 1 else 0)
    {
      IndicesOfSnoc(ns, k);
    }
  }

  lemma IndicesOfSnoc<K>(ns: seq<Option<K>>, k: K)
    requires |ns| > 0
    ensures var n := |ns| - 1;
      |IndicesOf(ns, k)| == |IndicesOf(ns[..n], k)| + (if ns[n] == Some(k) then 1 else 0)
  {
    var n := |ns| - 1;
    var b := IndicesOf(ns[..n], k);
    if ns[n] == Some(k) {
      assert IndicesOf(ns, k) == b + {n};
      assert n !in b;
    } else {
      assert IndicesOf(ns, k) == b;
    }
  }

  /** The keys counted are exactly the keys of the counted rows. */
  lemma PresentKeySet<K(!new)>(ns: seq<Option<K>>)
    ensures (set k | k in Present(ns)) == PresentKeys(ns)
  {
    var keys := Present(ns);
    forall k | k in keys
      ensures k in PresentKeys(ns)
    {
      assert multiset(keys)[k] > 0;
      var i :| i in IndicesOf(ns, k);
    }
    forall k | k in PresentKeys(ns)
      ensures k in keys
    {
      var i: nat :| i < |ns| && ns[i].Some? && ns[i].value == k;
      assert i in IndicesOf(ns, k);
      assert multiset(keys)[k] > 0;
    }
  }

  lemma {:induction false} PresentConcat<K(!new)>(a: seq<Option<K>>, b: seq<Option<K>>)
    ensures Present(a + b) == Present(a) + Present(b)
    decreases |b|
  {
    if |b| == 0 {
      assert a + b == a;
    } else {
      var b' := b[..|b| - 1];
      assert (a + b)[..|a + b| - 1] == a + b';
      PresentConcat(a, b');
    }
  }

  /** Aggregation of normalised rows: one record per distinct key, built
      from the key and the number of rows carrying it. */
  function AggregateRows<K(==,!new), T(==,!new)>(ns: seq<Option<K>>, f: Entry<K> -> T, order: T -> Option<int>): (r: seq<T>)
    ensures |r| == |PresentKeys(ns)|
    ensures forall x :: x in r <==> exists k :: k in PresentKeys(ns) && x == f(Entry(k, |IndicesOf(ns, k)|))
    ensures forall x :: multiset(r)[x] == |RowKeysGiving(ns, f, x)|
    ensures Keyed(r, order) ==> Sorted(r, order)
  {
    PresentKeySet(ns);
    var r := Aggregate(Present(ns), f, order);
    assert forall x :: multiset(r)[x] == |RowKeysGiving(ns, f, x)| by {
      forall x
        ensures multiset(r)[x] == |RowKeysGiving(ns, f, x)|
      {
        PresentKeysGiving(ns, f, x);
      }
    }
    r
  }

  /** The distinct keys of the counted rows whose record is `x`. */
  ghost function RowKeysGiving<K, T>(ns: seq<Option<K>>, f: Entry<K> -> T, x: T): set<K> {
    set k | k in PresentKeys(ns) && f(Entry(k, |IndicesOf(ns, k)|)) == x
  }

  /** The keys giving `x`, read off the rows instead of the key list. */
  lemma PresentKeysGiving<K(!new), T>(ns: seq<Option<K>>, f: Entry<K> -> T, x: T)
    ensures var keys := Present(ns);
      (set k | k in keys && f(Entry(k, multiset(keys)[k])) == x) == RowKeysGiving(ns, f, x)
  {
    PresentKeySet(ns);
  }

  /** The records' counts add up to the number of counted rows. */
  lemma AggregateRowsTotal<K(!new), T(!new)>(ns: seq<Option<K>>, f: Entry<K> -> T, order: T -> Option<int>, count: T -> nat)
    requires forall e :: count(f(e)) == e.count
    ensures SumOf(AggregateRows(ns, f, order), count) == |PresentIndices(ns)|
  {
    AggregateTotal(Present(ns), f, order, count);
  }

  /** Every record counts at least one row. */
  lemma AggregateRowsPositive<K(!new), T(!new)>(ns: seq<Option<K>>, f: Entry<K> -> T, order: T -> Option<int>, count: T -> nat)
    requires forall e :: count(f(e)) == e.count
    ensures forall x :: x in AggregateRows(ns, f, order) ==> count(x) >= 1
  {
    forall x | x in AggregateRows(ns, f, order)
      ensures count(x) >= 1
    {
      var k :| k in PresentKeys(ns) && x == f(Entry(k, |IndicesOf(ns, k)|));
      PresentKeyCounted(ns, k);
    }
  }

  /** A key that is present is carried by at least one row. */
  lemma PresentKeyCounted<K>(ns: seq<Option<K>>, k: K)
    requires k in PresentKeys(ns)
    ensures |IndicesOf(ns, k)| >= 1
  {
    var i: nat :| i < |ns| && ns[i].Some? && ns[i].value == k;
    assert i in IndicesOf(ns, k);
  }

  /** Removing row `i` leaves the records unchanged exactly when the row
      is skipped. */
  lemma AggregateRowsDrop<K(!new), T(!new)>(ns: seq<Option<K>>, i: nat, f: Entry<K> -> T, order: T -> Option<int>, count: T -> nat)
    requires i < |ns|
    requires forall e :: count(f(e)) == e.count
    ensures AggregateRows(ns[..i] + ns[i + 1..], f, order) == AggregateRows(ns, f, order) <==> ns[i].None?
  {
    var rest := ns[..i] + ns[i + 1..];
    PresentDrop(ns, i);
    if ns[i].Some? {
      AggregateRowsTotal(ns, f, order, count);
      AggregateRowsTotal(rest, f, order, count);
    }
  }

  /** Dropping row `i` drops its key, if any, from the present keys. */
  lemma PresentDrop<K(!new)>(ns: seq<Option<K>>, i: nat)
    requires i < |ns|
    ensures ns[i].None? ==> Present(ns[..i] + ns[i + 1..]) == Present(ns)
    ensures ns[i].Some? ==> |Present(ns)| == |Present(ns[..i] + ns[i + 1..])| + 1
  {
    assert ns == ns[..i] + ([ns[i]] + ns[i + 1..]);
    PresentConcat(ns[..i], [ns[i]] + ns[i + 1..]);
    PresentConcat([ns[i]], ns[i + 1..]);
    PresentConcat(ns[..i], ns[i + 1..]);
    assert [ns[i]][..0] == [];
  }
}
