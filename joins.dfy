/** `pd.merge(left, right, on=key, how=...)` over tables given as sequences
    of (key, payload) pairs. As in pandas, a key matches every row of the other
    side with an equal key (so many-to-many matches multiply rows), and a
    missing key (`None`) matches a missing key. The order of the joined rows is
    the order of the left rows followed by the right-only rows; pandas sorts
    the keys of an outer merge instead, which no result here depends on. */
module Joins {
  import opened Wrappers

  datatype Joined<K, A, B> = Joined(key: K, left: Option<A>, right: Option<B>)

  function Keys<K, V>(s: seq<(K, V)>): (ks: seq<K>)
    ensures |ks| == |s|
    ensures forall i :: 0 <= i < |s| ==> ks[i] == s[i].0
  {
    seq(|s|, i requires 0 <= i < |s| => s[i].0)
  }

  predicate UniqueKeys<K(==), V>(s: seq<(K, V)>) {
    forall i, j :: 0 <= i < j < |s| ==> s[i].0 != s[j].0
  }

  /** The payloads of the rows of `r` whose key is `k`, in order. */
  function Matches<K(==), B>(r: seq<(K, B)>, k: K): (m: seq<B>)
    ensures |m| == 0 <==> k !in Keys(r)
    ensures forall t :: 0 <= t < |m| ==> (k, m[t]) in r
    ensures forall q :: 0 <= q < |r| && r[q].0 == k ==> r[q].1 in m
    ensures UniqueKeys(r) ==> |m| <= 1
  {
    if r == [] then []
    else
      var init := Matches(r[..|r| - 1], k);
      var last := r[|r| - 1];
      assert Keys(r) == Keys(r[..|r| - 1]) + [last.0];
      assert forall q :: 0 <= q < |r| - 1 ==> r[q] == r[..|r| - 1][q];
      if last.0 == k then
        assert UniqueKeys(r) ==> k !in Keys(r[..|r| - 1]);
        init + [last.1]
      else init
  }

  /** Each match of `r` for a key: the right rows with that key, as many
      times as `r` holds them, and nothing else. */
  lemma {:induction false} MatchesCount<K, B>(r: seq<(K, B)>, k: K, b: B)
    ensures multiset(Matches(r, k))[b] == multiset(r)[(k, b)]
  {
    if r != [] {
      var init, last := r[..|r| - 1], r[|r| - 1];
      assert r == init + [last];
      MatchesCount(init, k, b);
    }
  }

  /** A left row paired with each payload of `m`, in order. */
  function Paired<K, A, B>(k: K, a: A, m: seq<B>): (e: seq<Joined<K, A, B>>)
    ensures |e| == |m|
    ensures forall t :: 0 <= t < |m| ==> e[t] == Joined(k, Some(a), Some(m[t]))
  {
    seq(|m|, t requires 0 <= t < |m| => Joined(k, Some(a), Some(m[t])))
  }

  lemma {:induction false} PairedCount<K, A, B>(k: K, a: A, m: seq<B>, b: B)
    ensures multiset(Paired(k, a, m))[Joined(k, Some(a), Some(b))] == multiset(m)[b]
  {
    if m != [] {
      var init, last := m[..|m| - 1], m[|m| - 1];
      assert m == init + [last];
      assert Paired(k, a, m) == Paired(k, a, init) + [Joined(k, Some(a), Some(last))];
      PairedCount(k, a, init, b);
    }
  }

  /** The joined rows of one left row: one per match, or one with no right side. */
  function Expand<K(==), A, B>(x: (K, A), r: seq<(K, B)>): (e: seq<Joined<K, A, B>>)
    ensures |e| == if |Matches(r, x.0)| == 0 then 1 else |Matches(r, x.0)|
    ensures forall t :: 0 <= t < |e| ==> e[t].key == x.0 && e[t].left == Some(x.1)
    ensures forall t :: 0 <= t < |e| && e[t].right.Some? ==> (x.0, e[t].right.value) in r
    ensures forall t :: 0 <= t < |e| && e[t].right.None? ==> x.0 !in Keys(r)
    ensures forall q :: 0 <= q < |r| && r[q].0 == x.0 ==> Joined(x.0, Some(x.1), Some(r[q].1)) in e
    ensures UniqueKeys(r) ==> |e| == 1
  {
    var m := Matches(r, x.0);
    if m == [] then [Joined(x.0, Some(x.1), None)]
    else
      var e := Paired(x.0, x.1, m);
      assert forall q :: 0 <= q < |r| && r[q].0 == x.0 ==>
        exists t :: 0 <= t < |m| && m[t] == r[q].1 && e[t] == Joined(x.0, Some(x.1), Some(r[q].1));
      e
  }

  /** How many joined rows a left row with key `k` gets with right side `b`:
      one per right row `(k, b)`, and one with no right side exactly when no
      right row has the key. */
  ghost function Pairings<K, B>(r: seq<(K, B)>, k: K, b: Option<B>): nat {
    if b.Some? then multiset(r)[(k, b.value)] else if k in Keys(r) then 0 else 1
  }

  lemma ExpandCount<K, A, B>(x: (K, A), r: seq<(K, B)>, b: Option<B>)
    ensures multiset(Expand(x, r))[Joined(x.0, Some(x.1), b)] == Pairings(r, x.0, b)
  {
    var m := Matches(r, x.0);
    var y := Joined(x.0, Some(x.1), b);
    if b.Some? {
      MatchesCount(r, x.0, b.value);
      if m != [] {
        PairedCount(x.0, x.1, m, b.value);
      }
    } else if m != [] {
      assert y !in Expand(x, r);
    }
  }

  /** `pd.merge(l, r, on=key, how="left")`. */
  function LeftJoin<K(==), A, B>(l: seq<(K, A)>, r: seq<(K, B)>): (j: seq<Joined<K, A, B>>)
    ensures |j| >= |l|
    ensures forall t :: 0 <= t < |j| ==> j[t].left.Some? && (j[t].key, j[t].left.value) in l
    ensures forall t :: 0 <= t < |j| && j[t].right.Some? ==> (j[t].key, j[t].right.value) in r
    ensures forall t :: 0 <= t < |j| && j[t].right.None? ==> j[t].key !in Keys(r)
  {
    if l == [] then []
    else
      var init := LeftJoin(l[..|l| - 1], r);
      var e := Expand(l[|l| - 1], r);
      assert forall x :: x in l[..|l| - 1] ==> x in l;
      init + e
  }

  /** Every left row is in the left join, with each of its matching right rows. */
  lemma {:induction false} LeftJoinComplete<K, A, B>(l: seq<(K, A)>, r: seq<(K, B)>, i: nat)
    requires i < |l|
    ensures exists t :: 0 <= t < |LeftJoin(l, r)| && LeftJoin(l, r)[t].key == l[i].0 && LeftJoin(l, r)[t].left == Some(l[i].1)
    ensures forall q :: 0 <= q < |r| && r[q].0 == l[i].0 ==> Joined(l[i].0, Some(l[i].1), Some(r[q].1)) in LeftJoin(l, r)
  {
    var init := LeftJoin(l[..|l| - 1], r);
    var e := Expand(l[|l| - 1], r);
    var j := LeftJoin(l, r);
    assert j == init + e;
    if i < |l| - 1 {
      LeftJoinComplete(l[..|l| - 1], r, i);
      assert l[..|l| - 1][i] == l[i];
      var t :| 0 <= t < |init| && init[t].key == l[i].0 && init[t].left == Some(l[i].1);
      assert j[t] == init[t];
    } else {
      assert j[|init|] == e[0];
    }
  }

  /** A left join holds each pairing of a left row with a right row of the
      same key, once for each copy of the two, and a left row with no right
      side once for each copy of it exactly when no right row has its key. */
  lemma {:induction false} LeftJoinCount<K, A, B>(l: seq<(K, A)>, r: seq<(K, B)>, k: K, a: A, b: Option<B>)
    ensures multiset(LeftJoin(l, r))[Joined(k, Some(a), b)] == multiset(l)[(k, a)] * Pairings(r, k, b)
  {
    if l != [] {
      var init, last := l[..|l| - 1], l[|l| - 1];
      var y := Joined(k, Some(a), b);
      LeftJoinSnoc(l, r, y);
      LeftJoinCount(init, r, k, a, b);
      var c0, p := multiset(init)[(k, a)], Pairings(r, k, b);
      if last == (k, a) {
        ExpandCount(last, r, b);
        Distribute(c0, p);
      } else {
        assert y !in Expand(last, r);
      }
    }
  }

  /** The left join of one more row adds that row's joined rows; the last
      row accounts for one more copy of itself. */
  lemma LeftJoinSnoc<K, A, B>(l: seq<(K, A)>, r: seq<(K, B)>, y: Joined<K, A, B>)
    requires l != []
    ensures multiset(LeftJoin(l, r))[y] == multiset(LeftJoin(l[..|l| - 1], r))[y] + multiset(Expand(l[|l| - 1], r))[y]
    ensures forall x :: multiset(l)[x] == multiset(l[..|l| - 1])[x] + (if x == l[|l| - 1] then 1 else 0)
  {
    var init, last := l[..|l| - 1], l[|l| - 1];
    assert l == init + [last];
    assert LeftJoin(l, r) == LeftJoin(init, r) + Expand(last, r);
  }

  lemma Distribute(n: nat, p: nat)
    ensures n * p + p == (n + 1) * p
  {
  }

  /** With right keys that are unique, a left join keeps one row per left row, in order. */
  lemma {:induction false} LeftJoinOneToOne<K, A, B>(l: seq<(K, A)>, r: seq<(K, B)>)
    requires UniqueKeys(r)
    ensures |LeftJoin(l, r)| == |l|
    ensures forall i :: 0 <= i < |l| ==>
      LeftJoin(l, r)[i].key == l[i].0 && LeftJoin(l, r)[i].left == Some(l[i].1)
  {
    if l != [] {
      var init := l[..|l| - 1];
      var e := Expand(l[|l| - 1], r);
      var j, j0 := LeftJoin(l, r), LeftJoin(init, r);
      assert j == j0 + e;
      LeftJoinOneToOne(init, r);
      forall i | 0 <= i < |l| ensures j[i].key == l[i].0 && j[i].left == Some(l[i].1) {
        if i < |l| - 1 {
          assert init[i] == l[i] && j[i] == j0[i];
        } else {
          assert j[i] == e[0];
        }
      }
    }
  }

  /** The right rows whose key matches no left row, with no left side. */
  function RightOnly<K(==), A, B>(l: seq<(K, A)>, r: seq<(K, B)>): (j: seq<Joined<K, A, B>>)
    ensures forall t :: 0 <= t < |j| ==>
      j[t].left.None? && j[t].right.Some? && (j[t].key, j[t].right.value) in r && j[t].key !in Keys(l)
  {
    if r == [] then []
    else
      var init := RightOnly(l, r[..|r| - 1]);
      var y := r[|r| - 1];
      assert forall q :: 0 <= q < |r| - 1 ==> r[q] == r[..|r| - 1][q];
      if y.0 in Keys(l) then init else init + [Joined(y.0, None, Some(y.1))]
  }

  lemma {:induction false} RightOnlyComplete<K, A, B>(l: seq<(K, A)>, r: seq<(K, B)>, q: nat)
    requires q < |r| && r[q].0 !in Keys(l)
    ensures Joined(r[q].0, None, Some(r[q].1)) in RightOnly(l, r)
  {
    if q < |r| - 1 {
      RightOnlyComplete(l, r[..|r| - 1], q);
    }
  }

  /** `pd.merge(l, r, on=key, how="outer")`. Every joined row is backed by
      the input rows it shows, and a side is absent only when that side has
      no row with the key. */
  function OuterJoin<K(==), A, B>(l: seq<(K, A)>, r: seq<(K, B)>): (j: seq<Joined<K, A, B>>)
    ensures forall t :: 0 <= t < |j| ==> j[t].left.Some? || j[t].right.Some?
    ensures forall t :: 0 <= t < |j| && j[t].left.Some? ==> (j[t].key, j[t].left.value) in l
    ensures forall t :: 0 <= t < |j| && j[t].right.Some? ==> (j[t].key, j[t].right.value) in r
    ensures forall t :: 0 <= t < |j| && j[t].left.None? ==> j[t].key !in Keys(l)
    ensures forall t :: 0 <= t < |j| && j[t].right.None? ==> j[t].key !in Keys(r)
  {
    LeftJoin(l, r) + RightOnly(l, r)
  }

  /** No left row is lost by an outer join. */
  lemma OuterJoinKeepsLeft<K, A, B>(l: seq<(K, A)>, r: seq<(K, B)>, i: nat)
    requires i < |l|
    ensures exists t :: 0 <= t < |OuterJoin(l, r)| && OuterJoin(l, r)[t].key == l[i].0 && OuterJoin(l, r)[t].left == Some(l[i].1)
  {
    var lj := LeftJoin(l, r);
    var j := OuterJoin(l, r);
    assert j == lj + RightOnly(l, r);
    LeftJoinComplete(l, r, i);
    var t :| 0 <= t < |lj| && lj[t].key == l[i].0 && lj[t].left == Some(l[i].1);
    assert j[t] == lj[t];
  }

  /** No right row is lost by an outer join. */
  lemma OuterJoinKeepsRight<K, A, B>(l: seq<(K, A)>, r: seq<(K, B)>, q: nat)
    requires q < |r|
    ensures exists t :: 0 <= t < |OuterJoin(l, r)| && OuterJoin(l, r)[t].key == r[q].0 && OuterJoin(l, r)[t].right == Some(r[q].1)
  {
    var lj := LeftJoin(l, r);
    var ro := RightOnly(l, r);
    var j := OuterJoin(l, r);
    assert j == lj + ro;
    var row: Joined<K, A, B>;
    if r[q].0 in Keys(l) {
      var i :| 0 <= i < |l| && l[i].0 == r[q].0;
      LeftJoinComplete(l, r, i);
      row := Joined(l[i].0, Some(l[i].1), Some(r[q].1));
    } else {
      RightOnlyComplete(l, r, q);
      row := Joined(r[q].0, None, Some(r[q].1));
    }
    assert row in j;
    var t :| 0 <= t < |j| && j[t] == row;
  }

  /** `pd.merge(l, r, on=key, how="inner")`: the matched rows of the left join. */
  function InnerJoin<K(==), A, B>(l: seq<(K, A)>, r: seq<(K, B)>): (j: seq<(K, A, B)>)
    ensures forall t :: 0 <= t < |j| ==> (j[t].0, j[t].1) in l && (j[t].0, j[t].2) in r
  {
    Matched(LeftJoin(l, r))
  }

  /** Every pair of rows with equal keys meets in the inner join. */
  lemma InnerJoinComplete<K, A, B>(l: seq<(K, A)>, r: seq<(K, B)>, i: nat, q: nat)
    requires i < |l| && q < |r| && r[q].0 == l[i].0
    ensures (l[i].0, l[i].1, r[q].1) in InnerJoin(l, r)
  {
    LeftJoinComplete(l, r, i);
    var lj := LeftJoin(l, r);
    var t :| 0 <= t < |lj| && lj[t] == Joined(l[i].0, Some(l[i].1), Some(r[q].1));
  }

  function Matched<K, A, B>(lj: seq<Joined<K, A, B>>): (j: seq<(K, A, B)>)
    requires forall t :: 0 <= t < |lj| ==> lj[t].left.Some?
    ensures forall t :: 0 <= t < |j| ==> Joined(j[t].0, Some(j[t].1), Some(j[t].2)) in lj
    ensures forall u :: 0 <= u < |lj| && lj[u].right.Some? ==>
      (lj[u].key, lj[u].left.value, lj[u].right.value) in j
  {
    if lj == [] then []
    else
      var init := Matched(lj[..|lj| - 1]);
      var x := lj[|lj| - 1];
      assert lj == lj[..|lj| - 1] + [x];
      if x.right.Some? then init + [(x.key, x.left.value, x.right.value)] else init
  }

  lemma {:induction false} MatchedCount<K, A, B>(lj: seq<Joined<K, A, B>>, k: K, a: A, b: B)
    requires forall t :: 0 <= t < |lj| ==> lj[t].left.Some?
    ensures multiset(Matched(lj))[(k, a, b)] == multiset(lj)[Joined(k, Some(a), Some(b))]
  {
    if lj != [] {
      var init, last := lj[..|lj| - 1], lj[|lj| - 1];
      assert lj == init + [last];
      assert Matched(lj) == Matched(init) + (if last.right.Some? then [(last.key, last.left.value, last.right.value)] else []);
      MatchedCount(init, k, a, b);
    }
  }

  /** The number of ways to pick a left row `(k, a)` and a right row `(k, b)`. */
  ghost function PairCount<K, A, B>(l: seq<(K, A)>, r: seq<(K, B)>, k: K, a: A, b: B): nat {
    multiset(l)[(k, a)] * multiset(r)[(k, b)]
  }

  /** An inner join holds each pair of a left and a right row with equal
      keys once for each copy of the two, as pandas multiplies duplicates. */
  lemma InnerJoinCount<K, A, B>(l: seq<(K, A)>, r: seq<(K, B)>, k: K, a: A, b: B)
    ensures multiset(InnerJoin(l, r))[(k, a, b)] == PairCount(l, r, k, a, b)
  {
    MatchedCount(LeftJoin(l, r), k, a, b);
    LeftJoinCount(l, r, k, a, Some(b));
  }
}
