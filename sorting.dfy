/** `sort_values` with pandas' default quicksort, which is not stable: the
    result is some ordering of the rows in which each row may stand before
    every later one. The model sorts by insertion and promises only what the
    library promises — an ordered permutation of the input. */
module Sorting {
  import opened Seqs

  /** `le` is a total preorder: the "may stand before" relation of a sort key. */
  ghost predicate TotalPreorder<T(!new)>(le: (T, T) -> bool) {
    (forall a, b :: le(a, b) || le(b, a)) &&
    (forall a, b, c :: le(a, b) && le(b, c) ==> le(a, c))
  }

  predicate Sorted<T>(s: seq<T>, le: (T, T) -> bool) {
    forall i, j :: 0 <= i < j < |s| ==> le(s[i], s[j])
  }

  /** Puts `x` into the sorted `s` before the first element it may precede. */
  function Insert<T(!new)>(x: T, s: seq<T>, le: (T, T) -> bool): (r: seq<T>)
    requires TotalPreorder(le) && Sorted(s, le)
    ensures multiset(r) == multiset(s) + multiset{x}
    ensures |r| == |s| + 1
    ensures Sorted(r, le)
  {
    if s == [] then [x]
    else if le(x, s[0]) then
      assert forall j :: 0 < j < |s| ==> le(s[0], s[j]);
      [x] + s
    else
      var rest := Insert(x, s[1..], le);
      InsertedAfterHead(x, s, rest, le);
      [s[0]] + rest
  }

  /** When `x` goes after the head of `s`, the head stays first. */
  lemma InsertedAfterHead<T(!new)>(x: T, s: seq<T>, rest: seq<T>, le: (T, T) -> bool)
    requires TotalPreorder(le) && Sorted(s, le) && s != [] && !le(x, s[0])
    requires Sorted(rest, le) && multiset(rest) == multiset(s[1..]) + multiset{x}
    ensures Sorted([s[0]] + rest, le)
    ensures multiset([s[0]] + rest) == multiset(s) + multiset{x}
  {
    assert s == [s[0]] + s[1..];
    assert le(s[0], x);
    forall j | 0 <= j < |rest| ensures le(s[0], rest[j]) {
      assert rest[j] in multiset(rest);
      if rest[j] != x {
        assert rest[j] in multiset(s[1..]);
        var k :| 0 <= k < |s[1..]| && s[1..][k] == rest[j];
        assert s[k + 1] == rest[j];
      }
    }
    var r := [s[0]] + rest;
    forall i, j | 0 <= i < j < |r| ensures le(r[i], r[j]) {
      assert r[j] == rest[j - 1];
      if i > 0 {
        assert r[i] == rest[i - 1];
      }
    }
  }

  /** The rows of `s`, ordered by `le`. */
  function SortBy<T(!new)>(s: seq<T>, le: (T, T) -> bool): (r: seq<T>)
    requires TotalPreorder(le)
    ensures multiset(r) == multiset(s)
    ensures |r| == |s|
    ensures Sorted(r, le)
  {
    if s == [] then []
    else
      assert s == s[..|s| - 1] + [s[|s| - 1]];
      Insert(s[|s| - 1], SortBy(s[..|s| - 1], le), le)
  }

  /** Two orderings of the same rows agree wherever the key tells rows apart:
      the rows are the same, only ties may come in another order. */
  lemma {:induction false} SortedPermutationsAgree<T(!new)>(a: seq<T>, b: seq<T>, le: (T, T) -> bool, i: nat)
    requires TotalPreorder(le) && Sorted(a, le) && Sorted(b, le)
    requires multiset(a) == multiset(b) && i < |a|
    ensures |b| == |a|
    ensures le(a[i], b[i]) && le(b[i], a[i])
  {
    assert |a| == |multiset(a)| == |multiset(b)| == |b|;
    NotStrictlyAfter(a, b, le, i);
    NotStrictlyAfter(b, a, le, i);
  }

  /** `a[i]` cannot stand strictly after `b[i]`: otherwise the `i + 1` rows
      `b[..i + 1]` would all stand strictly before `a[i]`, while in `a` at most
      the `i` rows before position `i` do. */
  lemma NotStrictlyAfter<T(!new)>(a: seq<T>, b: seq<T>, le: (T, T) -> bool, i: nat)
    requires TotalPreorder(le) && Sorted(a, le) && Sorted(b, le)
    requires multiset(a) == multiset(b) && i < |a| == |b|
    ensures le(a[i], b[i])
  {
    if !le(a[i], b[i]) {
      var x := a[i];
      var below := (y: T) => !le(x, y);
      assert forall k :: 0 <= k <= i ==> below(b[k]) by {
        forall k | 0 <= k <= i ensures below(b[k]) {
          if k < i {
            assert le(b[k], b[i]);
          }
        }
      }
      assert forall k :: i <= k < |a| ==> !below(a[k]) by {
        forall k | i <= k < |a| ensures !below(a[k]) {
          if k > i {
            assert le(a[i], a[k]);
          }
        }
      }
      CountBelow(b, below, i + 1);
      CountAtMost(a, below, i);
      CountPermutation(a, b, below);
      assert false;
    }
  }

  lemma {:induction false} CountBelow<T>(s: seq<T>, p: T -> bool, n: nat)
    requires n <= |s| && forall k :: 0 <= k < n ==> p(s[k])
    ensures Count(s, p) >= n
    decreases |s|
  {
    if |s| > n {
      CountBelow(s[..|s| - 1], p, n);
    } else if n > 0 {
      CountBelow(s[..|s| - 1], p, n - 1);
    }
  }

  lemma {:induction false} CountAtMost<T>(s: seq<T>, p: T -> bool, n: nat)
    requires n <= |s| && forall k :: n <= k < |s| ==> !p(s[k])
    ensures Count(s, p) <= n
    decreases |s|
  {
    if |s| > n {
      CountAtMost(s[..|s| - 1], p, n);
    }
  }
}
