/**
 * Arithmetic over sequences of numbers, as the source computes it with
 * `reduce((sum, v) => sum + v, 0)`, `Math.min(...values)`, `Math.max(...values)`
 * and `[...values].sort((a, b) => a - b)`. JavaScript numbers are modelled as
 * exact reals.
 */
module Numeric {

  /** The left-to-right sum of `s`, as `reduce((sum, v) => sum + v, 0)` computes it. */
  function Sum(s: seq<real>): real
  {
    if s == [] then 0.0 else Sum(s[..|s| - 1]) + s[|s| - 1]
  }

  /** The arithmetic mean `sum / length` of a non-empty sequence. */
  function Mean(s: seq<real>): real
    requires s != []
  {
    Sum(s) / |s| as real
  }

  /** `Math.min(...s)` for a non-empty `s`. */
  function Min(s: seq<real>): (m: real)
    requires s != []
    ensures m in s
    ensures forall k :: 0 <= k < |s| ==> m <= s[k]
  {
    if |s| == 1 then s[0]
    else
      var p := s[..|s| - 1];
      var m := Min(p);
      assert forall k :: 0 <= k < |s| - 1 ==> s[k] == p[k];
      if s[|s| - 1] < m then s[|s| - 1] else m
  }

  /** `Math.max(...s)` for a non-empty `s`. */
  function Max(s: seq<real>): (m: real)
    requires s != []
    ensures m in s
    ensures forall k :: 0 <= k < |s| ==> s[k] <= m
  {
    if |s| == 1 then s[0]
    else
      var p := s[..|s| - 1];
      var m := Max(p);
      assert forall k :: 0 <= k < |s| - 1 ==> s[k] == p[k];
      if s[|s| - 1] > m then s[|s| - 1] else m
  }

  lemma {:induction false} SumAppend(a: seq<real>, b: seq<real>)
    ensures Sum(a + b) == Sum(a) + Sum(b)
    decreases |b|
  {
    if b != [] {
      var c := a + b;
      assert c[..|c| - 1] == a + b[..|b| - 1];
      SumAppend(a, b[..|b| - 1]);
    } else {
      assert a + b == a;
    }
  }

  /** A sum of `n` terms, each between `lo` and `hi`, lies between `n * lo` and `n * hi`. */
  lemma {:induction false} SumBounds(s: seq<real>, lo: real, hi: real)
    requires forall k :: 0 <= k < |s| ==> lo <= s[k] <= hi
    ensures |s| as real * lo <= Sum(s) <= |s| as real * hi
  {
    if s != [] {
      SumBounds(s[..|s| - 1], lo, hi);
    }
  }

  /** The mean of a non-empty sequence lies between its minimum and its maximum. */
  lemma MeanBetween(s: seq<real>)
    requires s != []
    ensures Min(s) <= Mean(s) <= Max(s)
  {
    SumBounds(s, Min(s), Max(s));
    QuotientBounds(Sum(s), |s| as real, Min(s), Max(s));
  }

  lemma QuotientBounds(total: real, n: real, lo: real, hi: real)
    requires n > 0.0
    requires n * lo <= total <= n * hi
    ensures lo <= total / n <= hi
  {
    assert total / n - lo == (total - n * lo) / n;
    assert hi - total / n == (n * hi - total) / n;
  }

  /** The mean of `n` copies of `c` is `c`. */
  lemma MeanOfConstant(s: seq<real>, c: real)
    requires s != []
    requires forall k :: 0 <= k < |s| ==> s[k] == c
    ensures Mean(s) == c
  {
    SumBounds(s, c, c);
  }

  predicate SortedAsc(s: seq<real>)
  {
    forall i, j :: 0 <= i < j < |s| ==> s[i] <= s[j]
  }

  /** Inserts `x` into an ascending sequence, keeping it ascending. */
  function InsertAsc(s: seq<real>, x: real): (r: seq<real>)
    requires SortedAsc(s)
    ensures SortedAsc(r)
    ensures |r| == |s| + 1
    ensures s != [] ==> forall k :: 0 <= k < |r| ==> (if x <= s[0] then x else s[0]) <= r[k]
  {
    if s == [] then [x]
    else if x <= s[0] then [x] + s
    else
      var t := InsertAsc(s[1..], x);
      assert forall k :: 0 <= k < |t| ==> s[0] <= t[k];
      [s[0]] + t
  }

  /** Insertion adds `x` and keeps everything else. */
  lemma {:induction false} InsertAscPermutes(s: seq<real>, x: real)
    requires SortedAsc(s)
    ensures multiset(InsertAsc(s, x)) == multiset(s) + multiset{x}
  {
    if s != [] && x > s[0] {
      InsertAscPermutes(s[1..], x);
      assert s == [s[0]] + s[1..];
    }
  }

  /** `[...s].sort((a, b) => a - b)`: the elements of `s` in ascending numeric order. */
  function SortAsc(s: seq<real>): (r: seq<real>)
    ensures SortedAsc(r)
    ensures multiset(r) == multiset(s)
    ensures |r| == |s|
  {
    if s == [] then []
    else
      assert s == s[..|s| - 1] + [s[|s| - 1]];
      InsertAscPermutes(SortAsc(s[..|s| - 1]), s[|s| - 1]);
      InsertAsc(SortAsc(s[..|s| - 1]), s[|s| - 1])
  }

  /** Two ascending sequences with the same elements are equal: sorting has only one possible answer. */
  lemma {:induction false} SortedPermutationsEqual(a: seq<real>, b: seq<real>)
    requires SortedAsc(a) && SortedAsc(b)
    requires multiset(a) == multiset(b)
    ensures a == b
    decreases |a|
  {
    assert |a| == |b| by {
      assert |a| == |multiset(a)| && |b| == |multiset(b)|;
    }
    if a != [] {
      assert a[0] == b[0] by {
        assert a[0] in multiset(b) && b[0] in multiset(a);
      }
      assert multiset(a[1..]) == multiset(b[1..]) by {
        TailMultiset(a);
        TailMultiset(b);
      }
      SortedPermutationsEqual(a[1..], b[1..]);
      assert a == [a[0]] + a[1..] && b == [b[0]] + b[1..];
    }
  }

  lemma TailMultiset(a: seq<real>)
    requires a != []
    ensures multiset(a[1..]) == multiset(a) - multiset{a[0]}
  {
    assert a == [a[0]] + a[1..];
  }
}
