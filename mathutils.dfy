/**
 * `MathUtils` (js/utils.js): clamping, percentages, the mean and the median of a list of
 * numbers. Numbers are exact reals; the `NaN` that `median([])` yields is `None`.
 */
module MathUtils {
  import opened Wrappers
  import Numeric

  function RealMin(a: real, b: real): real { if a <= b then a else b }
  function RealMax(a: real, b: real): real { if a <= b then b else a }

  /**
   * `clamp(value, min, max)`, that is `Math.min(Math.max(value, min), max)`. With
   * `min <= max` the result is the point of `[min, max]` nearest to `value`; with
   * `min > max` it is always `max`.
   */
  function Clamp(value: real, min: real, max: real): (r: real)
    ensures min <= max ==> min <= r <= max
    ensures min <= value <= max ==> r == value
    ensures value < min <= max ==> r == min
    ensures max < value ==> r == max
    ensures max < min ==> r == max
  {
    RealMin(RealMax(value, min), max)
  }

  /** Clamping twice is clamping once, and clamping never moves a value away from the range. */
  lemma ClampIdempotent(value: real, min: real, max: real)
    requires min <= max
    ensures Clamp(Clamp(value, min, max), min, max) == Clamp(value, min, max)
    ensures Clamp(value, min, max) == value <==> min <= value <= max
  {
  }

  /** Clamping preserves order. */
  lemma ClampMonotone(a: real, b: real, min: real, max: real)
    requires a <= b
    ensures Clamp(a, min, max) <= Clamp(b, min, max)
  {
  }

  /** `calculatePercentage(value, total)`: 0 for a total of 0, else `value / total * 100`. */
  function CalculatePercentage(value: real, total: real): (r: real)
    ensures total == 0.0 ==> r == 0.0
    ensures total != 0.0 ==> r * total == value * 100.0
  {
    if total == 0.0 then 0.0 else (value / total) * 100.0
  }

  /** A part of a positive whole is between 0 and 100 percent of it. */
  lemma PercentageOfPart(value: real, total: real)
    requires 0.0 <= value <= total && 0.0 < total
    ensures 0.0 <= CalculatePercentage(value, total) <= 100.0
    ensures value == total ==> CalculatePercentage(value, total) == 100.0
  {
    assert value / total <= 1.0;
  }

  /** `average(numbers)`: 0 for an empty list, else the sum over the length. */
  function Average(numbers: seq<real>): (r: real)
    ensures numbers == [] ==> r == 0.0
    ensures numbers != [] ==> r * |numbers| as real == Numeric.Sum(numbers)
  {
    if |numbers| == 0 then 0.0
    else
      var n := |numbers| as real;
      var r := Numeric.Sum(numbers) / n;
      assert r * n == Numeric.Sum(numbers);
      r
  }

  /** The average of a non-empty list is its mean, the quantity the monitor's reports use, and lies between its extremes. */
  lemma AverageBetween(numbers: seq<real>)
    requires numbers != []
    ensures Average(numbers) == Numeric.Mean(numbers)
    ensures Numeric.Min(numbers) <= Average(numbers) <= Numeric.Max(numbers)
  {
    Numeric.MeanBetween(numbers);
  }

  /**
   * `median(numbers)`: the middle element of the ascending copy, or the mean of the two
   * middle elements when the length is even. An empty list gives
   * `(undefined + undefined) / 2`, which is `NaN`: here `None`.
   */
  function Median(numbers: seq<real>): (r: Option<real>)
    ensures r.None? <==> numbers == []
  {
    Middle(Numeric.SortAsc(numbers))
  }

  /** The pick `median` makes from the ascending copy. */
  function Middle(sorted: seq<real>): (r: Option<real>)
    ensures r.None? <==> sorted == []
  {
    var middle := |sorted| / 2;
    if |sorted| == 0 then None
    else if |sorted| % 2 == 0 then Some((sorted[middle - 1] + sorted[middle]) / 2.0)
    else Some(sorted[middle])
  }

  /** From an ascending sequence, the pick lies between the two middle elements (the same one for an odd count). */
  lemma MiddleBetween(sorted: seq<real>)
    requires sorted != [] && Numeric.SortedAsc(sorted)
    ensures sorted[(|sorted| + 1) / 2 - 1] <= Middle(sorted).value <= sorted[|sorted| / 2]
    ensures |sorted| % 2 == 1 ==> Middle(sorted).value == sorted[|sorted| / 2]
  {
    var n := |sorted|;
    if n % 2 == 0 {
      assert (n + 1) / 2 - 1 == n / 2 - 1;
      assert sorted[n / 2 - 1] <= sorted[n / 2];
    } else {
      assert (n + 1) / 2 - 1 == n / 2;
    }
  }

  /**
   * The median read off any ascending arrangement of the numbers: the middle element for an
   * odd count, the mean of the two middle elements for an even one.
   */
  lemma MedianOfSorted(numbers: seq<real>, s: seq<real>)
    requires s != [] && Numeric.SortedAsc(s) && multiset(s) == multiset(numbers)
    ensures Median(numbers).value ==
      if |s| % 2 == 0 then (s[|s| / 2 - 1] + s[|s| / 2]) / 2.0 else s[|s| / 2]
  {
    Numeric.SortedPermutationsEqual(Numeric.SortAsc(numbers), s);
  }

  /** The median lies between the smallest and the largest number, and is one of them for an odd count. */
  lemma MedianBetween(numbers: seq<real>)
    requires numbers != []
    ensures Numeric.Min(numbers) <= Median(numbers).value <= Numeric.Max(numbers)
    ensures |numbers| % 2 == 1 ==> Median(numbers).value in numbers
  {
    var sorted := Numeric.SortAsc(numbers);
    var n := |sorted|;
    MiddleBetween(sorted);
    assert sorted[(n + 1) / 2 - 1] in numbers && sorted[n / 2] in numbers by {
      assert sorted[(n + 1) / 2 - 1] in multiset(sorted) && sorted[n / 2] in multiset(sorted);
    }
  }

  /** The median does not depend on the order of the numbers. */
  lemma MedianPermutation(a: seq<real>, b: seq<real>)
    requires multiset(a) == multiset(b)
    ensures Median(a) == Median(b)
  {
    var sa, sb := Numeric.SortAsc(a), Numeric.SortAsc(b);
    assert sa == sb by {
      Numeric.SortedPermutationsEqual(sa, sb);
    }
  }

  /** Half of the numbers are at most the median and half are at least it, counting the sorted copy. */
  lemma MedianSplits(numbers: seq<real>)
    requires numbers != []
    ensures var sorted := Numeric.SortAsc(numbers);
      (forall k :: 0 <= k < (|numbers| + 1) / 2 ==> sorted[k] <= Median(numbers).value) &&
      (forall k :: |numbers| / 2 <= k < |numbers| ==> Median(numbers).value <= sorted[k])
  {
    var sorted := Numeric.SortAsc(numbers);
    var n := |numbers|;
    assert |sorted| == n && Median(numbers) == Middle(sorted);
    var m := Middle(sorted).value;
    assert Numeric.SortedAsc(sorted) && sorted[(n + 1) / 2 - 1] <= m <= sorted[n / 2] by {
      MiddleBetween(sorted);
    }
    SortedAround(sorted, (n + 1) / 2 - 1, n / 2, m);
  }

  /** In an ascending sequence, a value between the elements at `lo` and `hi` is above everything up to `lo` and below everything from `hi`. */
  lemma SortedAround(s: seq<real>, lo: nat, hi: nat, m: real)
    requires Numeric.SortedAsc(s) && lo < |s| && hi < |s|
    requires s[lo] <= m <= s[hi]
    ensures forall k :: 0 <= k <= lo ==> s[k] <= m
    ensures forall k :: hi <= k < |s| ==> m <= s[k]
  {
  }
}
