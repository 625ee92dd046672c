/**
 * The parts of `ChartVisualizationModule` (js/charts-visualization.js) that are logic
 * rather than Chart.js configuration: the registry of charts by canvas id, the rolling
 * 50-point window of a real-time chart, the `#rrggbb` to `rgba` conversion and the
 * colour rules of the task-progress bars and of the gauge.
 *
 * A chart is a value holding the two arrays `addRealTimeData` edits, `data.labels` and
 * `data.datasets[0].data`, and an identity; what Chart.js draws is not modelled.
 * `chart.destroy()` is recorded in the log `destroyed`.
 */
module Charts {
  import opened Wrappers
  import Js
  import Window

  // ---------------------------------------------------------------------------
  // Colours

  const Primary: string := "#00d4ff"
  const Secondary: string := "#00ff88"
  const Warning: string := "#ffaa00"
  const Danger: string := "#ff4444"

  /** The bar colour of a task with the given progress in percent. */
  function BarColor(progress: real): (c: string)
    ensures c == Secondary <==> progress > 80.0
    ensures c == Primary <==> 50.0 < progress <= 80.0
    ensures c == Warning <==> 20.0 < progress <= 50.0
    ensures c == Danger <==> progress <= 20.0
  {
    if progress > 80.0 then Secondary
    else if progress > 50.0 then Primary
    else if progress > 20.0 then Warning
    else Danger
  }

  /** The gauge colour of a value: red from above 80, amber from above 60, green below. */
  function GaugeColor(value: real): (c: string)
    ensures c == Danger <==> value > 80.0
    ensures c == Warning <==> 60.0 < value <= 80.0
    ensures c == Secondary <==> value <= 60.0
  {
    if value > 80.0 then Danger
    else if value > 60.0 then Warning
    else Secondary
  }

  /** How good a bar colour says a task is doing: danger 0 up to secondary 3. */
  function BarRank(c: string): nat
  {
    if c == Secondary then 3 else if c == Primary then 2 else if c == Warning then 1 else 0
  }

  /** How alarming a gauge colour is: secondary 0 up to danger 2. */
  function GaugeRank(c: string): nat
  {
    if c == Danger then 2 else if c == Warning then 1 else 0
  }

  /** More progress never gives a worse bar colour, and a higher gauge value never a calmer one. */
  lemma ColorsMonotone(a: real, b: real)
    requires a <= b
    ensures BarRank(BarColor(a)) <= BarRank(BarColor(b))
    ensures GaugeRank(GaugeColor(a)) <= GaugeRank(GaugeColor(b))
  {
  }

  // ---------------------------------------------------------------------------
  // hexToRgba

  /** The components `hexToRgba` puts into `rgba(r, g, b, alpha)`; `None` is a `NaN` component. */
  datatype Rgba = Rgba(red: Option<int>, green: Option<int>, blue: Option<int>, alpha: real)

  /** A colour written `#rrggbb` (in either case). */
  predicate WellFormedHex(hex: string)
  {
    |hex| == 7 && hex[0] == '#' && forall k :: 1 <= k < 7 ==> Js.IsHexDigit(hex[k])
  }

  /** The value of the two hexadecimal digits `hex[i]`, `hex[i + 1]`. */
  function PairValue(hex: string, i: nat): (v: nat)
    requires i + 1 < |hex| && Js.IsHexDigit(hex[i]) && Js.IsHexDigit(hex[i + 1])
    ensures v <= 255
  {
    16 * Js.HexDigitValue(hex[i]) + Js.HexDigitValue(hex[i + 1])
  }

  /** Two hexadecimal digits denote the value `PairValue` gives them. */
  lemma PairHexValue(pair: string)
    requires |pair| == 2 && Js.IsHexDigit(pair[0]) && Js.IsHexDigit(pair[1])
    ensures Js.AllHexDigits(pair) && Js.HexValue(pair) == PairValue(pair, 0)
  {
    assert pair[..1][..0] == [];
    assert Js.HexValue(pair[..1]) == Js.HexDigitValue(pair[0]);
  }

  lemma PairParses(pair: string)
    requires |pair| == 2 && Js.IsHexDigit(pair[0]) && Js.IsHexDigit(pair[1])
    ensures Js.ParseIntHex(pair) == Some(PairValue(pair, 0))
  {
    PairHexValue(pair);
  }

  /** The two characters from `i` on, as `slice` cuts them out. */
  lemma SlicedPairValue(hex: string, i: nat)
    requires i + 1 < |hex| && Js.IsHexDigit(hex[i]) && Js.IsHexDigit(hex[i + 1])
    ensures var pair := Js.Slice(hex, i, i + 2);
      |pair| == 2 && Js.IsHexDigit(pair[0]) && Js.IsHexDigit(pair[1]) && PairValue(pair, 0) == PairValue(hex, i)
  {
  }

  lemma SlicedPair(hex: string, i: nat)
    requires i + 1 < |hex| && Js.IsHexDigit(hex[i]) && Js.IsHexDigit(hex[i + 1])
    ensures Js.ParseIntHex(Js.Slice(hex, i, i + 2)) == Some(PairValue(hex, i))
  {
    SlicedPairValue(hex, i);
    PairParses(Js.Slice(hex, i, i + 2));
  }

  lemma WellFormedPairs(hex: string)
    ensures WellFormedHex(hex) ==>
      Js.ParseIntHex(Js.Slice(hex, 1, 3)) == Some(PairValue(hex, 1)) &&
      Js.ParseIntHex(Js.Slice(hex, 3, 5)) == Some(PairValue(hex, 3)) &&
      Js.ParseIntHex(Js.Slice(hex, 5, 7)) == Some(PairValue(hex, 5))
  {
    if WellFormedHex(hex) {
      SlicedPair(hex, 1);
      SlicedPair(hex, 3);
      SlicedPair(hex, 5);
    }
  }

  /**
   * `hexToRgba(hex, alpha)`: `parseInt` of the characters 1-2, 3-4 and 5-6 in base 16.
   * The leading character is not looked at, and nothing checks the length.
   */
  function HexToRgba(hex: string, alpha: real): (c: Rgba)
    ensures c.alpha == alpha
    ensures WellFormedHex(hex) ==>
      c.red == Some(PairValue(hex, 1)) && c.green == Some(PairValue(hex, 3)) && c.blue == Some(PairValue(hex, 5))
  {
    WellFormedPairs(hex);
    Rgba(
      Js.ParseIntHex(Js.Slice(hex, 1, 3)),
      Js.ParseIntHex(Js.Slice(hex, 3, 5)),
      Js.ParseIntHex(Js.Slice(hex, 5, 7)),
      alpha)
  }

  function LowerHexDigit(d: nat): (c: char)
    requires d < 16
    ensures Js.IsHexDigit(c) && Js.HexDigitValue(c) == d
  {
    "0123456789abcdef"[d]
  }

  /** The `#rrggbb` spelling of a colour with components 0..255, lower-case as the palette writes it. */
  function RgbToHex(r: nat, g: nat, b: nat): (hex: string)
    requires r <= 255 && g <= 255 && b <= 255
    ensures WellFormedHex(hex)
  {
    var hex := ['#', LowerHexDigit(r / 16), LowerHexDigit(r % 16), LowerHexDigit(g / 16), LowerHexDigit(g % 16),
      LowerHexDigit(b / 16), LowerHexDigit(b % 16)];
    hex
  }

  /** `hexToRgba` reads back exactly the components a `#rrggbb` colour was written from. */
  lemma HexRoundTrip(r: nat, g: nat, b: nat, alpha: real)
    requires r <= 255 && g <= 255 && b <= 255
    ensures HexToRgba(RgbToHex(r, g, b), alpha) == Rgba(Some(r), Some(g), Some(b), alpha)
  {
    var hex := RgbToHex(r, g, b);
    assert PairValue(hex, 1) == r && PairValue(hex, 3) == g && PairValue(hex, 5) == b;
  }

  /** The danger colour of the bars and the gauge, as `rgba` components. */
  lemma DangerComponents(alpha: real)
    ensures HexToRgba(Danger, alpha) == Rgba(Some(255), Some(68), Some(68), alpha)
  {
    assert Danger == RgbToHex(255, 68, 68);
    HexRoundTrip(255, 68, 68, alpha);
  }

  /** The secondary colour of the bars and the gauge, as `rgba` components. */
  lemma SecondaryComponents(alpha: real)
    ensures HexToRgba(Secondary, alpha) == Rgba(Some(0), Some(255), Some(136), alpha)
  {
    assert Secondary == RgbToHex(0, 255, 136);
    HexRoundTrip(0, 255, 136, alpha);
  }

  /** A three-digit colour such as `#fff` is not expanded: its third component is `NaN`. */
  lemma ShortHexGivesNaN(alpha: real)
    ensures HexToRgba("#fff", alpha).red == Some(255)
    ensures HexToRgba("#fff", alpha).green == Some(15)
    ensures HexToRgba("#fff", alpha).blue == None
  {
    ShortHexPieces();
    PairParses("ff");
    OneDigit('f');
  }

  /** The pieces `hexToRgba` cuts out of `#fff`, and the values of their digits. */
  lemma ShortHexPieces()
    ensures Js.Slice("#fff", 1, 3) == "ff" && Js.Slice("#fff", 3, 5) == "f" && Js.Slice("#fff", 5, 7) == ""
    ensures Js.IsHexDigit('f') && Js.HexDigitValue('f') == 15
    ensures |"ff"| == 2 && "ff"[0] == 'f' && "ff"[1] == 'f' && PairValue("ff", 0) == 255
  {
  }

  lemma OneDigitValue(a: char)
    requires Js.IsHexDigit(a)
    ensures Js.AllHexDigits([a]) && Js.HexValue([a]) == Js.HexDigitValue(a)
  {
    var s := [a];
    assert forall k :: 0 <= k < |s| ==> s[k] == a;
    assert s[..0] == [];
  }

  lemma OneDigit(a: char)
    requires Js.IsHexDigit(a)
    ensures Js.ParseIntHex([a]) == Some(Js.HexDigitValue(a))
  {
    OneDigitValue(a);
  }

  // ---------------------------------------------------------------------------
  // The registry

  const MaxDataPoints := 50

  datatype Chart = Chart(serial: nat, labels: seq<string>, data: seq<real>)

  /** The key order `ids` lists every key of `charts` once. */
  ghost predicate Registry(charts: map<string, Chart>, ids: seq<string>)
  {
    (forall i, j :: 0 <= i < j < |ids| ==> ids[i] != ids[j]) &&
    (forall id :: id in charts <==> id in ids)
  }

  /** Deleting a key from a `Map` removes it from the key order and keeps the others in order. */
  lemma ForgetChart(charts: map<string, Chart>, ids: seq<string>, chartId: string)
    requires Registry(charts, ids) && chartId in charts
    ensures 0 <= Js.IndexOf(ids, chartId)
    ensures Registry(charts - {chartId}, Js.RemoveAt(ids, Js.IndexOf(ids, chartId)))
  {
    var k := Js.IndexOf(ids, chartId);
    RemoveKeepsOthers(ids, k);
    RemoveKeepsDistinct(ids, k);
  }

  /** Removing position `k` of a list without repetitions leaves exactly the other elements. */
  lemma RemoveKeepsOthers(ids: seq<string>, k: nat)
    requires k < |ids| && forall i, j :: 0 <= i < j < |ids| ==> ids[i] != ids[j]
    ensures forall id :: id in Js.RemoveAt(ids, k) <==> id in ids && id != ids[k]
  {
    var r := Js.RemoveAt(ids, k);
    forall id ensures id in r <==> id in ids && id != ids[k] {
      if id in r {
        var j :| 0 <= j < |r| && r[j] == id;
        if j < k {
          assert id == ids[j];
        } else {
          assert id == ids[j + 1];
        }
      }
      if id in ids && id != ids[k] {
        var j :| 0 <= j < |ids| && ids[j] == id;
        if j < k {
          assert r[j] == id;
        } else {
          assert r[j - 1] == id;
        }
      }
    }
  }

  lemma RemoveKeepsDistinct(ids: seq<string>, k: nat)
    requires k < |ids| && forall i, j :: 0 <= i < j < |ids| ==> ids[i] != ids[j]
    ensures var r := Js.RemoveAt(ids, k); forall i, j :: 0 <= i < j < |r| ==> r[i] != r[j]
  {
    var r := Js.RemoveAt(ids, k);
    forall i, j | 0 <= i < j < |r| ensures r[i] != r[j] {
      var a := if i < k then i else i + 1;
      var b := if j < k then j else j + 1;
      assert r[i] == ids[a] && r[j] == ids[b];
    }
  }

  class ChartVisualizationModule {
    /** `this.charts`, a `Map` from canvas id to chart; `ids` is its key order, the order `forEach` visits. */
    var charts: map<string, Chart>
    var ids: seq<string>
    /** The charts `destroy()` has been called on, in order. */
    var destroyed: seq<Chart>

    ghost predicate Valid()
      reads this
    {
      Registry(charts, ids)
    }

    constructor()
      ensures Valid()
      ensures charts == map[] && ids == [] && destroyed == []
    {
      charts := map[];
      ids := [];
      destroyed := [];
    }

    /** `this.charts.set(canvasId, chart)`, as every `create...Chart` method ends: a chart already under that id is replaced without being destroyed. */
    method RegisterChart(canvasId: string, chart: Chart)
      requires Valid()
      modifies this
      ensures Valid()
      ensures charts == old(charts)[canvasId := chart]
      ensures canvasId in old(charts) ==> ids == old(ids)
      ensures canvasId !in old(charts) ==> ids == old(ids) + [canvasId]
      ensures destroyed == old(destroyed)
    {
      if canvasId !in charts {
        ids := ids + [canvasId];
      }
      charts := charts[canvasId := chart];
    }

    /**
     * `addRealTimeData(chartId, timestamp, value)`: appends to the labels and to the first
     * dataset, and when the labels now exceed 50 drops the first entry of both. An unknown
     * id changes nothing.
     */
    method AddRealTimeData(chartId: string, timestamp: string, value: real)
      requires Valid()
      modifies this
      ensures Valid()
      ensures chartId !in old(charts) ==> charts == old(charts)
      ensures chartId in old(charts) ==>
        var c := old(charts)[chartId];
        charts == old(charts)[chartId := Chart(c.serial, Window.PushBounded(c.labels, timestamp, MaxDataPoints),
          if |c.labels| + 1 > MaxDataPoints then (c.data + [value])[1..] else c.data + [value])]
      ensures ids == old(ids) && destroyed == old(destroyed)
    {
      if chartId !in charts {
        return;
      }
      var chart := charts[chartId];
      var labels := chart.labels + [timestamp];
      var data := chart.data + [value];
      if |labels| > MaxDataPoints {
        labels := labels[1..];
        data := data[1..];
      }
      charts := charts[chartId := Chart(chart.serial, labels, data)];
    }

    /** `destroyChart(chartId)`: destroys and forgets that one chart; an unknown id changes nothing. */
    method DestroyChart(chartId: string)
      requires Valid()
      modifies this
      ensures Valid()
      ensures chartId !in old(charts) ==> charts == old(charts) && ids == old(ids) && destroyed == old(destroyed)
      ensures chartId in old(charts) ==>
        charts == old(charts) - {chartId} &&
        ids == Js.RemoveAt(old(ids), Js.IndexOf(old(ids), chartId)) &&
        destroyed == old(destroyed) + [old(charts)[chartId]]
    {
      if chartId !in charts {
        return;
      }
      var chart := charts[chartId];
      destroyed := destroyed + [chart];
      var k := Js.IndexOf(ids, chartId);
      ids := Js.RemoveAt(ids, k);
      charts := charts - {chartId};
      ForgetChart(old(charts), old(ids), chartId);
    }

    /** `destroyAllCharts()`: destroys every chart in the map's order and empties the map. */
    method DestroyAllCharts()
      requires Valid()
      modifies this
      ensures Valid()
      ensures charts == map[] && ids == []
      ensures |destroyed| == |old(destroyed)| + |old(ids)|
      ensures destroyed[..|old(destroyed)|] == old(destroyed)
      ensures forall k :: 0 <= k < |old(ids)| ==> destroyed[|old(destroyed)| + k] == old(charts)[old(ids)[k]]
    {
      var i := 0;
      while i < |ids|
        invariant 0 <= i <= |ids|
        invariant charts == old(charts) && ids == old(ids)
        invariant |destroyed| == |old(destroyed)| + i
        invariant destroyed[..|old(destroyed)|] == old(destroyed)
        invariant forall k :: 0 <= k < i ==> destroyed[|old(destroyed)| + k] == charts[ids[k]]
      {
        destroyed := destroyed + [charts[ids[i]]];
        i := i + 1;
      }
      charts := map[];
      ids := [];
    }
  }

  /**
   * When the two arrays of a chart are the same length and within the window, one
   * `addRealTimeData` keeps them so, with the new point last in both: the window is a
   * pair of parallel arrays.
   */
  lemma RealTimeWindowStaysParallel(c: Chart, timestamp: string, value: real)
    requires |c.labels| == |c.data| <= MaxDataPoints
    ensures var labels := Window.PushBounded(c.labels, timestamp, MaxDataPoints);
      var data := if |c.labels| + 1 > MaxDataPoints then (c.data + [value])[1..] else c.data + [value];
      |labels| == |data| <= MaxDataPoints &&
      labels[|labels| - 1] == timestamp && data[|data| - 1] == value &&
      data == Window.PushBounded(c.data, value, MaxDataPoints)
  {
    Window.PushBoundedSpec(c.labels, timestamp, MaxDataPoints);
    Window.PushBoundedSpec(c.data, value, MaxDataPoints);
  }

  /** Destroying one chart leaves every other registered chart in place. */
  method DestroyOneKeepsOthers(m: ChartVisualizationModule, a: string, b: string)
    requires m.Valid() && a != b && b in m.charts
    modifies m
    ensures b in m.charts && m.charts[b] == old(m.charts[b])
    ensures a !in m.charts
  {
    m.DestroyChart(a);
  }
}
