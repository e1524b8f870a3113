/** Column sums, row counts and row filters (`df[col].sum()`, `mask.sum()`,
    `df[mask]`) over tables held as sequences of rows. */
module Seqs {

  /** `sum(s)`. */
  function Sum(s: seq<int>): int {
    if s == [] then 0 else Sum(s[..|s| - 1]) + s[|s| - 1]
  }

  lemma {:induction false} SumConcat(a: seq<int>, b: seq<int>)
    ensures Sum(a + b) == Sum(a) + Sum(b)
  {
    if b != [] {
      assert (a + b)[..|a + b| - 1] == a + b[..|b| - 1];
      SumConcat(a, b[..|b| - 1]);
    } else {
      assert a + b == a;
    }
  }

  /** Number of rows of `s` that satisfy `p`. */
  function Count<T>(s: seq<T>, p: T -> bool): (n: nat)
    ensures n <= |s|
  {
    if s == [] then 0 else Count(s[..|s| - 1], p) + (if p(s[|s| - 1]) then 1 else 0)
  }

  /** The rows of `s` that satisfy `p`, in their order. */
  function Filter<T>(s: seq<T>, p: T -> bool): (r: seq<T>)
    ensures |r| == Count(s, p)
    ensures forall i :: 0 <= i < |r| ==> p(r[i])
    ensures forall i :: 0 <= i < |s| && p(s[i]) ==> s[i] in r
    ensures multiset(r) <= multiset(s)
  {
    if s == [] then []
    else
      var init := Filter(s[..|s| - 1], p);
      assert s == s[..|s| - 1] + [s[|s| - 1]];
      if p(s[|s| - 1]) then init + [s[|s| - 1]] else init
  }

  /** A boolean mask keeps each passing row as often as the table holds it,
      and no other row. */
  lemma {:induction false} FilterCount<T>(s: seq<T>, p: T -> bool, x: T)
    ensures multiset(Filter(s, p))[x] == if p(x) then multiset(s)[x] else 0
  {
    if s != [] {
      var init, last := s[..|s| - 1], s[|s| - 1];
      assert s == init + [last];
      FilterCount(init, p, x);
    }
  }

  /** Filtering one more row appends it when it passes. */
  lemma FilterSnoc<T>(s: seq<T>, x: T, p: T -> bool)
    ensures Filter(s + [x], p) == Filter(s, p) + (if p(x) then [x] else [])
  {
    assert (s + [x])[..|s|] == s;
  }

  /** A row-by-row map of a table is the map of its first rows followed by
      the image of its last row. */
  lemma PointwiseSnoc<A, B>(t: seq<A>, u: seq<B>, w: seq<B>, f: A -> B)
    requires t != [] && |u| == |t| && |w| == |t| - 1
    requires forall i :: 0 <= i < |t| ==> u[i] == f(t[i])
    requires forall i :: 0 <= i < |t| - 1 ==> w[i] == f(t[i])
    ensures u == w + [f(t[|t| - 1])]
  {
  }

  /** Filtering rows that all pass keeps the table as it is. */
  lemma {:induction false} FilterAll<T>(s: seq<T>, p: T -> bool)
    requires Count(s, p) == |s|
    ensures Filter(s, p) == s
  {
    if s != [] {
      var init, x := s[..|s| - 1], s[|s| - 1];
      assert init + [x] == s;
      assert Count(init, p) <= |init|;
      FilterAll(init, p);
      FilterSnoc(init, x, p);
    }
  }

  lemma {:induction false} CountConcat<T>(a: seq<T>, b: seq<T>, p: T -> bool)
    ensures Count(a + b, p) == Count(a, p) + Count(b, p)
  {
    if b != [] {
      assert (a + b)[..|a + b| - 1] == a + b[..|b| - 1];
      CountConcat(a, b[..|b| - 1], p);
    } else {
      assert a + b == a;
    }
  }

  /** Counting does not depend on the order of the rows. */
  lemma {:induction false} CountPermutation<T>(a: seq<T>, b: seq<T>, p: T -> bool)
    requires multiset(a) == multiset(b)
    ensures Count(a, p) == Count(b, p)
    decreases |a|
  {
    if a == [] {
      assert |multiset(b)| == 0;
    } else {
      var x := a[|a| - 1];
      assert a == a[..|a| - 1] + [x];
      assert x in multiset(b);
      var i :| 0 <= i < |b| && b[i] == x;
      assert b == b[..i] + [x] + b[i + 1..];
      var rest := b[..i] + b[i + 1..];
      calc {
        multiset(a[..|a| - 1]);
        multiset(a) - multiset{x};
        multiset(b) - multiset{x};
        multiset(rest);
      }
      CountPermutation(a[..|a| - 1], rest, p);
      CountConcat(b[..i] + [x], b[i + 1..], p);
      CountConcat(b[..i], [x], p);
      CountConcat(b[..i], b[i + 1..], p);
      assert [x][..0] == [];
    }
  }

  /** Every row either satisfies `p` or does not. */
  lemma {:induction false} CountComplement<T>(s: seq<T>, p: T -> bool, q: T -> bool)
    requires forall x :: q(x) == !p(x)
    ensures Count(s, p) + Count(s, q) == |s|
  {
    if s != [] {
      CountComplement(s[..|s| - 1], p, q);
    }
  }

  /** A condition that implies another on every row is met by no more rows. */
  lemma {:induction false} CountMonotone<T>(s: seq<T>, p: T -> bool, q: T -> bool)
    requires forall i :: 0 <= i < |s| && p(s[i]) ==> q(s[i])
    ensures Count(s, p) <= Count(s, q)
  {
    if s != [] {
      CountMonotone(s[..|s| - 1], p, q);
    }
  }

  /** Filtering on `q` loses none of the rows that satisfy `p` when every
      such row also satisfies `q`. */
  lemma {:induction false} CountFilter<T>(s: seq<T>, q: T -> bool, p: T -> bool)
    requires forall i :: 0 <= i < |s| && p(s[i]) ==> q(s[i])
    ensures Count(Filter(s, q), p) == Count(s, p)
  {
    if s != [] {
      var init := s[..|s| - 1];
      var x := s[|s| - 1];
      CountFilter(init, q, p);
      if q(x) {
        CountConcat(Filter(init, q), [x], p);
      }
    }
  }

  /** More than one row satisfies `p` exactly when two distinct rows do. */
  lemma {:induction false} CountAboveOne<T>(s: seq<T>, p: T -> bool)
    ensures Count(s, p) > 1 <==> exists i, j :: 0 <= i < j < |s| && p(s[i]) && p(s[j])
  {
    if s != [] {
      var init := s[..|s| - 1];
      CountAboveOne(init, p);
      if Count(init, p) > 0 {
        CountPositive(init, p);
      }
      if exists i, j :: 0 <= i < j < |s| && p(s[i]) && p(s[j]) {
        var i, j :| 0 <= i < j < |s| && p(s[i]) && p(s[j]);
        if j < |s| - 1 {
          assert p(init[i]) && p(init[j]);
        } else {
          assert p(init[i]);
          CountPositive(init, p);
        }
      }
    }
  }

  /** Some row satisfies `p` exactly when the count is positive. */
  lemma {:induction false} CountPositive<T>(s: seq<T>, p: T -> bool)
    ensures Count(s, p) > 0 <==> exists i :: 0 <= i < |s| && p(s[i])
  {
    if s != [] {
      var init := s[..|s| - 1];
      CountPositive(init, p);
      if exists i :: 0 <= i < |s| && p(s[i]) {
        var i :| 0 <= i < |s| && p(s[i]);
        if i < |s| - 1 {
          assert p(init[i]);
        }
      }
      if exists i :: 0 <= i < |init| && p(init[i]) {
        var i :| 0 <= i < |init| && p(init[i]);
        assert p(s[i]);
      }
    }
  }

  predicate AllDistinct<T(==)>(s: seq<T>) {
    forall i, j :: 0 <= i < j < |s| ==> s[i] != s[j]
  }

  /** In a sequence without repeats every element occurs at most once. */
  lemma {:induction false} DistinctOnce<T>(s: seq<T>, x: T)
    requires AllDistinct(s)
    ensures multiset(s)[x] <= 1
  {
    if s != [] {
      var init := s[..|s| - 1];
      assert s == init + [s[|s| - 1]];
      DistinctOnce(init, x);
      if s[|s| - 1] == x {
        assert x !in init;
      }
    }
  }

  /** Taking some of the elements of a sequence without repeats, in any
      order, creates none. */
  lemma SubsetOfDistinct<T>(a: seq<T>, b: seq<T>)
    requires multiset(b) <= multiset(a) && AllDistinct(a)
    ensures AllDistinct(b)
  {
    forall i, j | 0 <= i < j < |b| ensures b[i] != b[j] {
      var x := b[i];
      assert b == b[..j] + [b[j]] + b[j + 1..];
      assert x in multiset(b[..j]);
      DistinctOnce(a, x);
    }
  }
}
