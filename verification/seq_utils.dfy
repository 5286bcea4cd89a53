/**
 Collection idioms the viewer writes by hand again and again: the stable
 `Array.prototype.sort` by a numeric key, grouping rows into a `Map` by an id
 (`existing.push(row)`), the key order a `Map` iterates in (first insertion), and
 `new Map(rows.map(r => [r.id, r]))`, where a later row overwrites an earlier one.
 */
module SeqUtils {
  import opened Wrappers

  // ---------------------------------------------------------------------------
  // Stable sort by an integer key
  // ---------------------------------------------------------------------------

  ghost predicate SortedBy<T>(s: seq<T>, key: T -> int) {
    forall i, j :: 0 <= i < j < |s| ==> key(s[i]) <= key(s[j])
  }

  /** Places x before the first element whose key is not smaller, so equal keys keep their order. */
  function InsertBy<T>(x: T, s: seq<T>, key: T -> int): (r: seq<T>)
    requires SortedBy(s, key)
    ensures |r| == |s| + 1
    ensures multiset(r) == multiset(s) + multiset{x}
    ensures SortedBy(r, key)
  {
    if |s| == 0 || key(x) <= key(s[0]) then [x] + s
    else
      var tail := InsertBy(x, s[1..], key);
      assert s == [s[0]] + s[1..];
      HeadBelowInsert(x, s, key, tail);
      [s[0]] + tail
  }

  /** The head of a sorted `s` stays first when `x`, with a larger key, goes into the rest. */
  lemma HeadBelowInsert<T>(x: T, s: seq<T>, key: T -> int, tail: seq<T>)
    requires |s| > 0 && SortedBy(s, key) && key(s[0]) < key(x)
    requires multiset(tail) == multiset(s[1..]) + multiset{x} && SortedBy(tail, key)
    ensures SortedBy([s[0]] + tail, key)
  {
    var r := [s[0]] + tail;
    forall j | 0 < j < |r| ensures key(r[0]) <= key(r[j]) {
      var y := tail[j - 1];
      assert y in multiset(tail);
      if y != x {
        assert y in multiset(s[1..]);
        var k :| 0 <= k < |s[1..]| && s[1..][k] == y;
        assert s[k + 1] == y;
      }
    }
    forall i, j | 0 <= i < j < |r| ensures key(r[i]) <= key(r[j]) {
      if i > 0 {
        assert r[i] == tail[i - 1] && r[j] == tail[j - 1];
      }
    }
  }

  /** The stable sort of `sort((a, b) => key(a) - key(b))`: an ascending permutation of `s`. */
  function SortBy<T>(s: seq<T>, key: T -> int): (r: seq<T>)
    ensures |r| == |s|
    ensures multiset(r) == multiset(s)
    ensures SortedBy(r, key)
  {
    if |s| == 0 then []
    else
      assert s == [s[0]] + s[1..];
      InsertBy(s[0], SortBy(s[1..], key), key)
  }

  // ---------------------------------------------------------------------------
  // Grouping by key
  // ---------------------------------------------------------------------------

  ghost function KeySet<T, K>(xs: seq<T>, key: T -> K): set<K> {
    set x | x in xs :: key(x)
  }

  /** The rows whose key is k, in input order. */
  function FilterBy<T(!new), K(==,!new)>(xs: seq<T>, key: T -> K, k: K): (r: seq<T>)
    ensures |r| <= |xs|
    ensures forall x :: x in r <==> x in xs && key(x) == k
  {
    if |xs| == 0 then []
    else
      var init := xs[..|xs| - 1];
      var x := xs[|xs| - 1];
      assert xs == init + [x];
      FilterBy(init, key, k) + (if key(x) == k then [x] else [])
  }

  /**
   Rows grouped by key, each group in input order, the way the viewer fills a
   `Map<string, Row[]>` with `existing.push(row)`.
   */
  function GroupBy<T(!new), K(==,!new)>(xs: seq<T>, key: T -> K): (m: map<K, seq<T>>)
    ensures m.Keys == KeySet(xs, key)
    ensures forall k | k in m :: m[k] == FilterBy(xs, key, k)
  {
    if |xs| == 0 then map[]
    else
      var init := xs[..|xs| - 1];
      var x := xs[|xs| - 1];
      assert xs == init + [x];
      var m := GroupBy(init, key);
      GroupByStep(init, x, key, m);
      m[key(x) := (if key(x) in m then m[key(x)] else []) + [x]]
  }

  /** Filtering a row appended at the end appends it when its key matches. */
  lemma FilterBySnoc<T(!new), K(!new)>(init: seq<T>, x: T, key: T -> K, k: K)
    ensures FilterBy(init + [x], key, k) == FilterBy(init, key, k) + (if key(x) == k then [x] else [])
  {
    var xs := init + [x];
    assert xs[..|xs| - 1] == init;
  }

  lemma KeySetSnoc<T, K>(init: seq<T>, x: T, key: T -> K)
    ensures KeySet(init + [x], key) == KeySet(init, key) + {key(x)}
  {
    var xs := init + [x];
    forall y | y in xs ensures y in init || y == x {
      var i :| 0 <= i < |xs| && xs[i] == y;
      if i < |init| {
        assert init[i] == y;
      }
    }
    assert x in xs;
    forall y | y in init ensures y in xs {
      var i :| 0 <= i < |init| && init[i] == y;
      assert xs[i] == y;
    }
  }

  lemma GroupByStep<T(!new), K(!new)>(init: seq<T>, x: T, key: T -> K, m: map<K, seq<T>>)
    requires m.Keys == KeySet(init, key)
    requires forall k | k in m :: m[k] == FilterBy(init, key, k)
    ensures var r := m[key(x) := (if key(x) in m then m[key(x)] else []) + [x]];
      && r.Keys == KeySet(init + [x], key)
      && forall k | k in r :: r[k] == FilterBy(init + [x], key, k)
  {
    var xs := init + [x];
    var r := m[key(x) := (if key(x) in m then m[key(x)] else []) + [x]];
    KeySetSnoc(init, x, key);
    forall k | k in r
      ensures r[k] == FilterBy(xs, key, k)
    {
      FilterBySnoc(init, x, key, k);
      if k == key(x) && k !in m {
        FilterByAbsent(init, key, k);
      }
    }
  }

  /** The keys in the order a `Map` filled from `xs` iterates them: by first occurrence. */
  function DistinctKeys<T(!new), K(==,!new)>(xs: seq<T>, key: T -> K): (ks: seq<K>)
    ensures forall i, j :: 0 <= i < j < |ks| ==> ks[i] != ks[j]
    ensures forall k :: k in ks <==> k in KeySet(xs, key)
  {
    if |xs| == 0 then []
    else
      var init := xs[..|xs| - 1];
      var x := xs[|xs| - 1];
      assert xs == init + [x];
      var ks := DistinctKeys(init, key);
      if key(x) in ks then ks else ks + [key(x)]
  }

  /** The position of the first element with key k, or the length when no element has it. */
  function FirstWith<T, K(==)>(xs: seq<T>, key: T -> K, k: K): (i: nat)
    ensures i <= |xs|
    ensures i < |xs| ==> key(xs[i]) == k
    ensures forall j :: 0 <= j < i ==> key(xs[j]) != k
  {
    if |xs| == 0 then 0
    else if key(xs[0]) == k then 0
    else 1 + FirstWith(xs[1..], key, k)
  }

  /** Appending an element leaves every first occurrence already there in place. */
  lemma {:induction false} FirstWithSnoc<T, K>(init: seq<T>, x: T, key: T -> K, k: K)
    ensures FirstWith(init + [x], key, k) ==
      if FirstWith(init, key, k) < |init| then FirstWith(init, key, k)
      else if key(x) == k then |init| else |init| + 1
  {
    if |init| > 0 {
      assert (init + [x])[1..] == init[1..] + [x];
      FirstWithSnoc(init[1..], x, key, k);
    }
  }

  /** A key that occurs has its first occurrence inside the sequence. */
  lemma FirstWithPresent<T, K>(xs: seq<T>, key: T -> K, k: K)
    requires k in KeySet(xs, key)
    ensures FirstWith(xs, key, k) < |xs|
  {
    var y :| y in xs && key(y) == k;
    var n :| 0 <= n < |xs| && xs[n] == y;
  }

  lemma FirstWithKept<T, K>(init: seq<T>, x: T, key: T -> K, k: K)
    requires k in KeySet(init, key)
    ensures FirstWith(init + [x], key, k) == FirstWith(init, key, k) < |init|
  {
    FirstWithPresent(init, key, k);
    FirstWithSnoc(init, x, key, k);
  }

  /** Every key in `ks` occurs in `xs`, and earlier keys first occur earlier. */
  ghost predicate InFirstOrder<T, K>(xs: seq<T>, key: T -> K, ks: seq<K>)
  {
    forall i, j :: 0 <= i < j < |ks| ==> FirstWith(xs, key, ks[i]) < FirstWith(xs, key, ks[j]) < |xs|
  }

  /** The keys come out in the order in which they first occur in `xs`. */
  lemma {:induction false} DistinctKeysInOrder<T(!new), K(!new)>(xs: seq<T>, key: T -> K)
    ensures InFirstOrder(xs, key, DistinctKeys(xs, key))
  {
    if |xs| > 0 {
      var init, x := xs[..|xs| - 1], xs[|xs| - 1];
      assert xs == init + [x];
      DistinctKeysInOrder(init, key);
      DistinctKeysSnocOrder(init, x, key);
    }
  }

  /** The induction step: the keys of `init` keep their first occurrences, and a new key comes after them all. */
  lemma DistinctKeysSnocOrder<T(!new), K(!new)>(init: seq<T>, x: T, key: T -> K)
    requires InFirstOrder(init, key, DistinctKeys(init, key))
    ensures InFirstOrder(init + [x], key, DistinctKeys(init + [x], key))
  {
    forall i, j | 0 <= i < j < |DistinctKeys(init + [x], key)|
      ensures FirstWith(init + [x], key, DistinctKeys(init + [x], key)[i])
        < FirstWith(init + [x], key, DistinctKeys(init + [x], key)[j]) < |init| + 1
    {
      SnocPairOrder(init, x, key, i, j);
    }
  }

  /** One pair of keys after an element is appended to `init`. */
  lemma SnocPairOrder<T(!new), K(!new)>(init: seq<T>, x: T, key: T -> K, i: nat, j: nat)
    requires InFirstOrder(init, key, DistinctKeys(init, key))
    requires i < j < |DistinctKeys(init + [x], key)|
    ensures FirstWith(init + [x], key, DistinctKeys(init + [x], key)[i])
      < FirstWith(init + [x], key, DistinctKeys(init + [x], key)[j]) < |init| + 1
  {
    var xs := init + [x];
    assert xs[..|xs| - 1] == init;
    var ks0 := DistinctKeys(init, key);
    var ks := DistinctKeys(xs, key);
    assert ks == if key(x) in ks0 then ks0 else ks0 + [key(x)];
    KeptOrder(init, x, key, ks0, i);
    if j < |ks0| {
      KeptOrder(init, x, key, ks0, j);
      assert FirstWith(init, key, ks0[i]) < FirstWith(init, key, ks0[j]);
    } else {
      assert ks[j] == key(x) && key(x) !in ks0;
      FirstWithOccurs(init, key, key(x));
      FirstWithSnoc(init, x, key, key(x));
    }
  }

  /** A key of `init` keeps its first occurrence when an element is appended. */
  lemma KeptOrder<T(!new), K(!new)>(init: seq<T>, x: T, key: T -> K, ks0: seq<K>, i: nat)
    requires ks0 == DistinctKeys(init, key) && i < |ks0|
    ensures FirstWith(init + [x], key, ks0[i]) == FirstWith(init, key, ks0[i]) < |init|
  {
    assert ks0[i] in ks0;
    FirstWithKept(init, x, key, ks0[i]);
  }

  /** A first occurrence inside the sequence is an occurrence. */
  lemma FirstWithOccurs<T, K>(xs: seq<T>, key: T -> K, k: K)
    ensures FirstWith(xs, key, k) < |xs| ==> k in KeySet(xs, key)
  {
    var i := FirstWith(xs, key, k);
    if i < |xs| {
      assert xs[i] in xs;
    }
  }

  /** Sum of the group sizes over a list of keys. */
  function GroupSizes<T(!new), K(==,!new)>(xs: seq<T>, key: T -> K, ks: seq<K>): nat {
    if |ks| == 0 then 0 else |FilterBy(xs, key, ks[0])| + GroupSizes(xs, key, ks[1..])
  }

  /** Grouping loses and invents no row: the groups of the distinct keys add up to the input. */
  lemma {:induction false} GroupSizesTotal<T(!new), K(!new)>(xs: seq<T>, key: T -> K)
    ensures GroupSizes(xs, key, DistinctKeys(xs, key)) == |xs|
  {
    if |xs| > 0 {
      var init := xs[..|xs| - 1];
      var x := xs[|xs| - 1];
      assert xs == init + [x];
      var ks := DistinctKeys(init, key);
      GroupSizesTotal(init, key);
      GroupSizesStep(init, x, key, ks);
      if key(x) !in ks {
        GroupSizesAppend(xs, key, ks, key(x));
        FilterByAbsent(init, key, key(x));
      }
    }
  }

  /** Appending a row grows the sum by one exactly when its key is listed. */
  lemma {:induction false} GroupSizesStep<T(!new), K(!new)>(init: seq<T>, x: T, key: T -> K, ks: seq<K>)
    requires forall i, j :: 0 <= i < j < |ks| ==> ks[i] != ks[j]
    ensures GroupSizes(init + [x], key, ks) == GroupSizes(init, key, ks) + (if key(x) in ks then 1 else 0)
  {
    var xs := init + [x];
    assert xs[..|xs| - 1] == init;
    if |ks| > 0 {
      GroupSizesStep(init, x, key, ks[1..]);
      assert key(x) in ks <==> key(x) == ks[0] || key(x) in ks[1..];
    }
  }

  lemma {:induction false} GroupSizesAppend<T(!new), K(!new)>(xs: seq<T>, key: T -> K, ks: seq<K>, k: K)
    ensures GroupSizes(xs, key, ks + [k]) == GroupSizes(xs, key, ks) + |FilterBy(xs, key, k)|
  {
    if |ks| > 0 {
      assert (ks + [k])[1..] == ks[1..] + [k];
      GroupSizesAppend(xs, key, ks[1..], k);
    }
  }

  /** No row carries a key outside the key set. */
  lemma FilterByAbsent<T(!new), K(!new)>(xs: seq<T>, key: T -> K, k: K)
    requires k !in KeySet(xs, key)
    ensures FilterBy(xs, key, k) == []
  {
  }

  // ---------------------------------------------------------------------------
  // Indexing by key
  // ---------------------------------------------------------------------------

  /** `new Map(xs.map(x => [key(x), x]))`: every key maps to the LAST row carrying it. */
  function IndexBy<T(!new), K(==,!new)>(xs: seq<T>, key: T -> K): (m: map<K, T>)
    ensures m.Keys == KeySet(xs, key)
    ensures forall k | k in m :: |FilterBy(xs, key, k)| > 0 && m[k] == Last(FilterBy(xs, key, k))
  {
    if |xs| == 0 then map[]
    else
      var init := xs[..|xs| - 1];
      var x := xs[|xs| - 1];
      assert xs == init + [x];
      IndexByStep(init, x, key, IndexBy(init, key));
      IndexBy(init, key)[key(x) := x]
  }

  lemma IndexByStep<T(!new), K(!new)>(init: seq<T>, x: T, key: T -> K, m: map<K, T>)
    requires m.Keys == KeySet(init, key)
    requires forall k | k in m :: |FilterBy(init, key, k)| > 0 && m[k] == Last(FilterBy(init, key, k))
    ensures var r := m[key(x) := x];
      && r.Keys == KeySet(init + [x], key)
      && forall k | k in r :: |FilterBy(init + [x], key, k)| > 0 && r[k] == Last(FilterBy(init + [x], key, k))
  {
    var xs := init + [x];
    KeySetSnoc(init, x, key);
    var r := m[key(x) := x];
    forall k | k in r
      ensures |FilterBy(xs, key, k)| > 0 && r[k] == Last(FilterBy(xs, key, k))
    {
      FilterBySnoc(init, x, key, k);
    }
  }

  /** `m.get(k)`: the value under k, if any. */
  function Find<K, V>(m: map<K, V>, k: K): (r: Option<V>)
    ensures r.Some? <==> k in m
    ensures r.Some? ==> r.value == m[k]
  {
    if k in m then Some(m[k]) else None
  }

  function Last<T>(s: seq<T>): T
    requires |s| > 0
  {
    s[|s| - 1]
  }

  // ---------------------------------------------------------------------------
  // Keeping the values a partial function produces, by key
  // ---------------------------------------------------------------------------

  /** No later row with the same key produces a value. */
  ghost predicate LastProducing<T, K, V>(xs: seq<T>, key: T -> K, f: T -> Option<V>, i: nat)
    requires i < |xs|
  {
    forall j :: i < j < |xs| && key(xs[j]) == key(xs[i]) ==> f(xs[j]).None?
  }

  /**
   The loop `for (x of xs) { const v = f(x); if (v) m.set(key(x), v) }`: a key is present
   when some row with it produces a value, and holds the value of the last such row.
   */
  function Collect<T(!new), K(==,!new), V(!new)>(xs: seq<T>, key: T -> K, f: T -> Option<V>): (m: map<K, V>)
    ensures forall k :: k in m <==> exists i :: 0 <= i < |xs| && key(xs[i]) == k && f(xs[i]).Some?
    ensures forall k | k in m :: exists i :: 0 <= i < |xs| && key(xs[i]) == k && f(xs[i]) == Some(m[k])
    ensures forall i :: 0 <= i < |xs| && f(xs[i]).Some? && LastProducing(xs, key, f, i) ==>
      key(xs[i]) in m && m[key(xs[i])] == f(xs[i]).value
  {
    if |xs| == 0 then map[]
    else
      var init, x := xs[..|xs| - 1], xs[|xs| - 1];
      assert xs == init + [x];
      var m := Collect(init, key, f);
      CollectStep(init, x, key, f, m);
      Put(m, x, key, f)
  }

  /** One step of the loop: store `f(x)` under `key(x)` when there is one. */
  function Put<T, K, V>(m: map<K, V>, x: T, key: T -> K, f: T -> Option<V>): map<K, V> {
    if f(x).Some? then m[key(x) := f(x).value] else m
  }

  lemma {:induction false} CollectStep<T(!new), K(!new), V(!new)>(init: seq<T>, x: T, key: T -> K, f: T -> Option<V>, m: map<K, V>)
    requires forall k :: k in m <==> exists i :: 0 <= i < |init| && key(init[i]) == k && f(init[i]).Some?
    requires forall k | k in m :: exists i :: 0 <= i < |init| && key(init[i]) == k && f(init[i]) == Some(m[k])
    requires forall i :: 0 <= i < |init| && f(init[i]).Some? && LastProducing(init, key, f, i) ==>
      key(init[i]) in m && m[key(init[i])] == f(init[i]).value
    ensures var xs := init + [x];
      var m' := Put(m, x, key, f);
      && (forall k :: k in m' <==> exists i :: 0 <= i < |xs| && key(xs[i]) == k && f(xs[i]).Some?)
      && (forall k | k in m' :: exists i :: 0 <= i < |xs| && key(xs[i]) == k && f(xs[i]) == Some(m'[k]))
      && (forall i :: 0 <= i < |xs| && f(xs[i]).Some? && LastProducing(xs, key, f, i) ==>
            key(xs[i]) in m' && m'[key(xs[i])] == f(xs[i]).value)
  {
    var xs := init + [x];
    var n := |init|;
    assert xs[n] == x;
    var m' := Put(m, x, key, f);
    forall k
      ensures k in m' <==> exists i :: 0 <= i < |xs| && key(xs[i]) == k && f(xs[i]).Some?
    {
      if k in m' && !(k == key(x) && f(x).Some?) {
        var i :| 0 <= i < |init| && key(init[i]) == k && f(init[i]).Some?;
        assert xs[i] == init[i];
      }
      if exists i :: 0 <= i < |xs| && key(xs[i]) == k && f(xs[i]).Some? {
        var i :| 0 <= i < |xs| && key(xs[i]) == k && f(xs[i]).Some?;
        if i < n {
          assert init[i] == xs[i];
        }
      }
    }
    forall k | k in m'
      ensures exists i :: 0 <= i < |xs| && key(xs[i]) == k && f(xs[i]) == Some(m'[k])
    {
      if k == key(x) && f(x).Some? {
        assert key(xs[n]) == k && f(xs[n]) == Some(m'[k]);
      } else {
        var i :| 0 <= i < |init| && key(init[i]) == k && f(init[i]) == Some(m[k]);
        assert xs[i] == init[i];
      }
    }
    forall i | 0 <= i < |xs| && f(xs[i]).Some? && LastProducing(xs, key, f, i)
      ensures key(xs[i]) in m' && m'[key(xs[i])] == f(xs[i]).value
    {
      if i < n {
        assert xs[i] == init[i];
        assert LastProducing(init, key, f, i) by {
          forall j | i < j < n && key(init[j]) == key(init[i])
            ensures f(init[j]).None?
          {
            assert xs[j] == init[j];
          }
        }
      }
    }
  }
}
