/** `df.groupby(key)[value].sum()` over tables given as (key, value) pairs:
    one row per distinct key, holding the sum of that key's values. Groups come
    in the order their keys first appear (pandas sorts them; no result here
    depends on that order). */
module Grouping {
  import opened Seqs

  predicate Distinct<K(==)>(ks: seq<K>) {
    forall i, j :: 0 <= i < j < |ks| ==> ks[i] != ks[j]
  }

  /** The distinct keys of `s`, in order of first appearance. */
  function DistinctKeys<K(==), V>(s: seq<(K, V)>): (ks: seq<K>)
    ensures Distinct(ks)
    ensures forall i :: 0 <= i < |s| ==> s[i].0 in ks
    ensures forall t :: 0 <= t < |ks| ==> exists i :: 0 <= i < |s| && s[i].0 == ks[t]
    ensures |ks| <= |s|
  {
    if s == [] then []
    else
      var init := DistinctKeys(s[..|s| - 1]);
      var k := s[|s| - 1].0;
      assert forall i :: 0 <= i < |s| - 1 ==> s[i] == s[..|s| - 1][i];
      if k in init then init else init + [k]
  }

  /** The values of the rows with key `k`. */
  function ValuesOf<K(==)>(s: seq<(K, int)>, k: K): seq<int> {
    if s == [] then []
    else ValuesOf(s[..|s| - 1], k) + (if s[|s| - 1].0 == k then [s[|s| - 1].1] else [])
  }

  /** Sum of the values of the rows with key `k` (0 when there are none). */
  function SumOf<K(==)>(s: seq<(K, int)>, k: K): int {
    Sum(ValuesOf(s, k))
  }

  function Values<K, V>(s: seq<(K, V)>): (vs: seq<V>)
    ensures |vs| == |s|
    ensures forall i :: 0 <= i < |s| ==> vs[i] == s[i].1
  {
    seq(|s|, i requires 0 <= i < |s| => s[i].1)
  }

  /** `groupby(key).sum().reset_index()`. */
  function GroupSum<K(==)>(s: seq<(K, int)>): (g: seq<(K, int)>)
    ensures |g| == |DistinctKeys(s)|
    ensures forall i :: 0 <= i < |g| ==> g[i] == (DistinctKeys(s)[i], SumOf(s, DistinctKeys(s)[i]))
  {
    var ks := DistinctKeys(s);
    seq(|ks|, i requires 0 <= i < |ks| => (ks[i], SumOf(s, ks[i])))
  }

  /** A key that never occurs sums to 0. */
  lemma {:induction false} SumOfAbsent<K>(s: seq<(K, int)>, k: K)
    requires forall i :: 0 <= i < |s| ==> s[i].0 != k
    ensures SumOf(s, k) == 0
  {
    if s != [] {
      assert forall i :: 0 <= i < |s| - 1 ==> s[i] == s[..|s| - 1][i];
      SumOfAbsent(s[..|s| - 1], k);
      assert ValuesOf(s, k) == ValuesOf(s[..|s| - 1], k);
    }
  }

  /** Appending a row adds its value to its own key's sum only. */
  lemma SumOfSnoc<K>(s: seq<(K, int)>, x: (K, int), k: K)
    ensures SumOf(s + [x], k) == SumOf(s, k) + (if x.0 == k then x.1 else 0)
  {
    assert (s + [x])[..|s + [x]| - 1] == s;
    SumConcat(ValuesOf(s, k), if x.0 == k then [x.1] else []);
  }

  /** Sum over the keys of `ks` of their sums in `s`. */
  function SumOver<K(==)>(s: seq<(K, int)>, ks: seq<K>): int {
    if ks == [] then 0 else SumOver(s, ks[..|ks| - 1]) + SumOf(s, ks[|ks| - 1])
  }

  /** The sums of the keys of `ks`, one per key. */
  function Sums<K(==)>(s: seq<(K, int)>, ks: seq<K>): (r: seq<int>)
    ensures |r| == |ks|
  {
    seq(|ks|, i requires 0 <= i < |ks| => SumOf(s, ks[i]))
  }

  lemma {:induction false} SumSums<K>(s: seq<(K, int)>, ks: seq<K>)
    ensures Sum(Sums(s, ks)) == SumOver(s, ks)
  {
    if ks != [] {
      var init := ks[..|ks| - 1];
      assert Sums(s, ks)[..|ks| - 1] == Sums(s, init);
      SumSums(s, init);
    }
  }

  /** The groups' sums add up to the column total: grouping loses and
      duplicates nothing. */
  lemma {:induction false} GroupSumTotal<K>(s: seq<(K, int)>)
    ensures Sum(Values(GroupSum(s))) == Sum(Values(s))
  {
    assert Values(GroupSum(s)) == Sums(s, DistinctKeys(s));
    SumSums(s, DistinctKeys(s));
    SumOverDistinct(s);
  }

  /** The sum over the distinct keys equals the total, by induction on the rows. */
  lemma {:induction false} SumOverDistinct<K>(s: seq<(K, int)>)
    ensures SumOver(s, DistinctKeys(s)) == Sum(Values(s))
  {
    if s != [] {
      var init := s[..|s| - 1];
      var x := s[|s| - 1];
      assert s == init + [x];
      assert Values(s) == Values(init) + [x.1];
      SumConcat(Values(init), [x.1]);
      SumOverDistinct(init);
      SumOverNewRow(init, x);
    }
  }

  /** One more row adds its value once to the sum over the distinct keys. */
  lemma SumOverNewRow<K>(s: seq<(K, int)>, x: (K, int))
    ensures SumOver(s + [x], DistinctKeys(s + [x])) == SumOver(s, DistinctKeys(s)) + x.1
  {
    var ks := DistinctKeys(s);
    assert (s + [x])[..|s + [x]| - 1] == s;
    SumOverSnocRows(s, x, ks);
    if x.0 !in ks {
      assert DistinctKeys(s + [x]) == ks + [x.0];
      assert (ks + [x.0])[..|ks|] == ks;
      SumOfSnoc(s, x, x.0);
      AbsentKey(s, x.0);
    }
  }

  lemma AbsentKey<K>(s: seq<(K, int)>, k: K)
    requires k !in DistinctKeys(s)
    ensures SumOf(s, k) == 0
  {
    SumOfAbsent(s, k);
  }

  /** Adding a row to the table adds its value once to a sum over distinct keys. */
  lemma {:induction false} SumOverSnocRows<K>(s: seq<(K, int)>, x: (K, int), ks: seq<K>)
    requires Distinct(ks)
    ensures SumOver(s + [x], ks) == SumOver(s, ks) + (if x.0 in ks then x.1 else 0)
  {
    if ks != [] {
      var init := ks[..|ks| - 1];
      var k := ks[|ks| - 1];
      assert ks == init + [k];
      SumOverSnocRows(s, x, init);
      SumOfSnoc(s, x, k);
      assert k !in init;
      assert x.0 in ks <==> x.0 in init || x.0 == k;
    }
  }

  /** A key that occurs has its group, holding the key's sum. */
  lemma GroupSumLookup<K>(s: seq<(K, int)>, k: K)
    requires exists i :: 0 <= i < |s| && s[i].0 == k
    ensures exists t :: 0 <= t < |GroupSum(s)| && GroupSum(s)[t] == (k, SumOf(s, k))
  {
    var ks := DistinctKeys(s);
    assert k in ks;
    var t :| 0 <= t < |ks| && ks[t] == k;
    assert GroupSum(s)[t] == (k, SumOf(s, k));
  }

  /** In a table where only row `t` has key `k`, that row's value is the key's sum. */
  lemma {:induction false} SumOfUnique<K>(g: seq<(K, int)>, k: K, t: nat)
    requires t < |g| && g[t].0 == k
    requires forall i :: 0 <= i < |g| && i != t ==> g[i].0 != k
    ensures SumOf(g, k) == g[t].1
  {
    var init := g[..|g| - 1];
    assert g == init + [g[|g| - 1]];
    SumOfSnoc(init, g[|g| - 1], k);
    if t == |g| - 1 {
      SumOfAbsent(init, k);
    } else {
      SumOfUnique(init, k, t);
    }
  }

  /** Summing a key's rows of the grouped table gives the key's sum in the
      original table: `groupby(key).sum()` followed by a filtered sum loses
      nothing. */
  lemma SumOfGrouped<K>(s: seq<(K, int)>, k: K)
    ensures SumOf(GroupSum(s), k) == SumOf(s, k)
  {
    var g := GroupSum(s);
    var ks := DistinctKeys(s);
    if t :| 0 <= t < |ks| && ks[t] == k {
      SumOfUnique(g, k, t);
    } else {
      SumOfAbsent(g, k);
      SumOfAbsent(s, k);
    }
  }

  /** Every row of the grouped table holds its key's sum. */
  lemma GroupedRowIsSum<K>(s: seq<(K, int)>, x: (K, int))
    requires x in multiset(GroupSum(s))
    ensures x.1 == SumOf(s, x.0)
  {
    var g := GroupSum(s);
    var t :| 0 <= t < |g| && g[t] == x;
  }

  /** Every row of the grouped table is the key of some input row. */
  lemma GroupedKeyOccurs<K>(s: seq<(K, int)>, x: (K, int)) returns (t: nat)
    requires x in multiset(GroupSum(s))
    ensures t < |s| && s[t].0 == x.0
  {
    var g := GroupSum(s);
    assert x in g;
    var u :| 0 <= u < |g| && g[u] == x;
    var ks := DistinctKeys(s);
    var k := ks[u];
    assert k == x.0;
    assert exists i :: 0 <= i < |s| && s[i].0 == k;
    t :| 0 <= t < |s| && s[t].0 == k;
  }

  /** Any selection of the groups, in any order, names each key once. */
  lemma GroupKeysDistinct<K>(s: seq<(K, int)>, sub: seq<(K, int)>)
    requires multiset(sub) <= multiset(GroupSum(s))
    ensures forall i, j :: 0 <= i < j < |sub| ==> sub[i].0 != sub[j].0
  {
    var g := GroupSum(s);
    assert AllDistinct(g) by {
      forall a, b | 0 <= a < b < |g| ensures g[a] != g[b] {
        assert g[a].0 == DistinctKeys(s)[a] && g[b].0 == DistinctKeys(s)[b];
      }
    }
    SubsetOfDistinct(g, sub);
    forall i, j | 0 <= i < j < |sub| ensures sub[i].0 != sub[j].0 {
      assert sub[i] in multiset(sub) && sub[j] in multiset(sub);
      GroupedRowIsSum(s, sub[i]);
      GroupedRowIsSum(s, sub[j]);
    }
  }

  lemma ValuesSnoc<K>(s: seq<(K, int)>, x: (K, int))
    ensures Sum(Values(s + [x])) == Sum(Values(s)) + x.1
  {
    assert Values(s + [x]) == Values(s) + [x.1];
    SumConcat(Values(s), [x.1]);
  }

  lemma ValuesConcat<K>(a: seq<(K, int)>, b: seq<(K, int)>)
    ensures Sum(Values(a + b)) == Sum(Values(a)) + Sum(Values(b))
  {
    assert Values(a + b) == Values(a) + Values(b);
    SumConcat(Values(a), Values(b));
  }

  /** A column total does not depend on the order of the rows. */
  lemma {:induction false} ValuesSumPermutation<K>(a: seq<(K, int)>, b: seq<(K, int)>)
    requires multiset(a) == multiset(b)
    ensures Sum(Values(a)) == Sum(Values(b))
    decreases |a|
  {
    if a == [] {
      assert |multiset(b)| == 0;
    } else {
      var x := a[|a| - 1];
      var init := a[..|a| - 1];
      assert a == init + [x];
      assert x in multiset(b);
      var i :| 0 <= i < |b| && b[i] == x;
      assert b == b[..i] + [x] + b[i + 1..];
      var rest := b[..i] + b[i + 1..];
      calc {
        multiset(init);
        multiset(a) - multiset{x};
        multiset(b) - multiset{x};
        multiset(rest);
      }
      ValuesSumPermutation(init, rest);
      ValuesConcat(init, [x]);
      ValuesConcat(b[..i] + [x], b[i + 1..]);
      ValuesConcat(b[..i], [x]);
      ValuesConcat(b[..i], b[i + 1..]);
    }
  }
}
