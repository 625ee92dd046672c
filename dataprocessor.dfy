/**
 * `DataProcessor.smoothData` and `DataProcessor.calculateMovingAverage`
 * (js/charts-visualization.js): windowed means over a series of numbers, each filled
 * into a fresh array by a loop. Numbers are exact reals; the sum of a window is the
 * left-to-right `reduce` that `Numeric.Sum` models.
 */
module DataProcessor {
  import Js
  import Numeric

  /** Where the smoothing window around position `i` starts: `Math.max(0, i - Math.floor(w / 2))`. */
  function SmoothStart(i: nat, w: nat): nat
  {
    Js.Max(0, i - w / 2)
  }

  /** Where it ends (exclusive): `Math.min(n, i + Math.ceil(w / 2))`. */
  function SmoothEnd(i: nat, w: nat, n: nat): nat
  {
    Js.Min(n, i + (w + 1) / 2)
  }

  /** The window around `i`: it always holds position `i` itself, so it is never empty. */
  lemma SmoothWindowHoldsCentre(i: nat, w: nat, n: nat)
    requires i < n && w >= 1
    ensures SmoothStart(i, w) <= i < SmoothEnd(i, w, n) <= n
  {
  }

  /**
   * `smoothData(data, windowSize = 5)`: position `i` becomes the mean of the up to
   * `windowSize` values from `floor(windowSize / 2)` before it to `ceil(windowSize / 2)`
   * after it (exclusive), cut off at both ends of the series.
   */
  method SmoothData(data: seq<real>, windowSize: nat := 5) returns (smoothed: seq<real>)
    requires windowSize >= 1
    ensures |smoothed| == |data|
    ensures forall i :: 0 <= i < |data| ==>
      SmoothStart(i, windowSize) < SmoothEnd(i, windowSize, |data|) <= |data| &&
      smoothed[i] == Numeric.Mean(data[SmoothStart(i, windowSize)..SmoothEnd(i, windowSize, |data|)])
  {
    smoothed := [];
    var i := 0;
    while i < |data|
      invariant 0 <= i <= |data|
      invariant |smoothed| == i
      invariant forall k :: 0 <= k < i ==>
        SmoothStart(k, windowSize) < SmoothEnd(k, windowSize, |data|) <= |data| &&
        smoothed[k] == Numeric.Mean(data[SmoothStart(k, windowSize)..SmoothEnd(k, windowSize, |data|)])
    {
      var start := Js.Max(0, i - windowSize / 2);
      var end := Js.Min(|data|, i + (windowSize + 1) / 2);
      SmoothWindowHoldsCentre(i, windowSize, |data|);
      var window := Js.Slice(data, start, end);
      var average := Numeric.Sum(window) / |window| as real;
      smoothed := smoothed + [average];
      i := i + 1;
    }
  }

  /** Each smoothed value lies between the smallest and the largest value of its window, hence of the series. */
  lemma SmoothedBetween(data: seq<real>, w: nat, i: nat)
    requires w >= 1 && i < |data|
    ensures var window := data[SmoothStart(i, w)..SmoothEnd(i, w, |data|)];
      window != [] &&
      Numeric.Min(window) <= Numeric.Mean(window) <= Numeric.Max(window) &&
      Numeric.Min(data) <= Numeric.Mean(window) <= Numeric.Max(data)
  {
    SmoothWindowHoldsCentre(i, w, |data|);
    var lo, hi := SmoothStart(i, w), SmoothEnd(i, w, |data|);
    var window := data[lo..hi];
    Numeric.MeanBetween(window);
    SliceExtremes(data, lo, hi);
  }

  /** A part of a series has no smaller minimum and no larger maximum than the whole. */
  lemma SliceExtremes(data: seq<real>, lo: nat, hi: nat)
    requires lo < hi <= |data|
    ensures Numeric.Min(data) <= Numeric.Min(data[lo..hi])
    ensures Numeric.Max(data[lo..hi]) <= Numeric.Max(data)
  {
    var window := data[lo..hi];
    var m := Numeric.Min(window);
    var a :| 0 <= a < |window| && window[a] == m;
    assert window[a] == data[lo + a];
    var x := Numeric.Max(window);
    var b :| 0 <= b < |window| && window[b] == x;
    assert window[b] == data[lo + b];
  }

  /** A constant series is left as it is by smoothing. */
  lemma SmoothingConstant(data: seq<real>, c: real, w: nat, i: nat)
    requires w >= 1 && i < |data|
    requires forall k :: 0 <= k < |data| ==> data[k] == c
    ensures Numeric.Mean(data[SmoothStart(i, w)..SmoothEnd(i, w, |data|)]) == c
  {
    SmoothWindowHoldsCentre(i, w, |data|);
    var lo, hi := SmoothStart(i, w), SmoothEnd(i, w, |data|);
    Numeric.MeanOfConstant(data[lo..hi], c);
  }

  /**
   * `calculateMovingAverage(data, period)`: one value for each full window of `period`
   * consecutive values, from the window ending at index `period - 1` on; value `k` is
   * the mean of `data[k .. k + period)`.
   */
  method CalculateMovingAverage(data: seq<real>, period: nat) returns (averages: seq<real>)
    requires period >= 1
    ensures |averages| == Js.Max(0, |data| - period + 1)
    ensures forall k :: 0 <= k < |averages| ==> k + period <= |data| && averages[k] == Numeric.Mean(data[k..k + period])
  {
    averages := [];
    var i := period - 1;
    while i < |data|
      invariant period - 1 <= i
      invariant |averages| == i - (period - 1)
      invariant i <= Js.Max(|data|, period - 1)
      invariant forall k :: 0 <= k < |averages| ==> k + period <= |data| && averages[k] == Numeric.Mean(data[k..k + period])
    {
      var window := Js.Slice(data, i - period + 1, i + 1);
      assert window == data[i - period + 1..i + 1];
      var average := Numeric.Sum(window) / period as real;
      averages := averages + [average];
      i := i + 1;
    }
  }

  /** Each moving average lies between the smallest and the largest value of its window. */
  lemma MovingAverageBetween(data: seq<real>, period: nat, k: nat)
    requires period >= 1 && k + period <= |data|
    ensures Numeric.Min(data[k..k + period]) <= Numeric.Mean(data[k..k + period]) <= Numeric.Max(data[k..k + period])
  {
    Numeric.MeanBetween(data[k..k + period]);
  }

  /** With a period of 1 every window is one value, so the moving average is the series itself. */
  lemma MovingAveragePeriodOne(data: seq<real>, k: nat)
    requires k < |data|
    ensures Numeric.Mean(data[k..k + 1]) == data[k]
  {
    var w := data[k..k + 1];
    assert w[..0] == [] && w[0] == data[k];
    assert Numeric.Sum(w) == Numeric.Sum(w[..0]) + w[0];
  }

  /** Consecutive windows differ by one value in and one value out: each sum follows from the previous. */
  lemma MovingSumStep(data: seq<real>, period: nat, k: nat)
    requires period >= 1 && k + period < |data|
    ensures Numeric.Sum(data[k + 1..k + 1 + period]) == Numeric.Sum(data[k..k + period]) - data[k] + data[k + period]
  {
    var w := data[k..k + 1 + period];
    assert w == [data[k]] + data[k + 1..k + 1 + period];
    assert w == data[k..k + period] + [data[k + period]];
    Numeric.SumAppend([data[k]], data[k + 1..k + 1 + period]);
    Numeric.SumAppend(data[k..k + period], [data[k + period]]);
    assert Numeric.Sum([data[k]]) == data[k] by {
      assert [data[k]][..0] == [];
    }
    assert Numeric.Sum([data[k + period]]) == data[k + period] by {
      assert [data[k + period]][..0] == [];
    }
  }
}
