/**
 * `SystemMonitorModule` (js/advanced-features.js): four fixed metrics, each with a
 * current reading and a history of at most 100 points; threshold alerting into a log
 * of at most 50 alerts; and the on-demand queries over that state (overall health,
 * trend, unacknowledged-alert count, time-windowed performance report and
 * recommendations).
 *
 * The random readings and the clock are inputs: a collection cycle receives one reading
 * per metric and the current time `now` in milliseconds. Every `Date.now()` and
 * `new Date()` of one cycle is taken to be the same instant, so an alert's id and
 * timestamp are both `now`. ISO-8601 timestamps are kept as the milliseconds they denote.
 */
module Monitor {
  import opened Wrappers
  import Js
  import Numeric
  import Window

  datatype Metric = Cpu | Memory | Network | Storage

  /** The key order of `this.metrics` and `this.alertThresholds`, which `Object.keys` and `Object.entries` follow. */
  const AllMetrics: seq<Metric> := [Cpu, Memory, Network, Storage]

  function MetricIndex(m: Metric): nat
  {
    match m
    case Cpu => 0
    case Memory => 1
    case Network => 2
    case Storage => 3
  }

  /** One value per metric: the shape of `this.metrics`, `this.alertThresholds` and a cycle's readings. */
  datatype PerMetric<V> = PerMetric(cpu: V, memory: V, network: V, storage: V)
  {
    function Get(m: Metric): V
    {
      match m
      case Cpu => cpu
      case Memory => memory
      case Network => network
      case Storage => storage
    }

    static function Tabulate(f: Metric -> V): (r: PerMetric<V>)
      ensures forall m :: r.Get(m) == f(m)
    {
      PerMetric(f(Cpu), f(Memory), f(Network), f(Storage))
    }

    function Set(m: Metric, v: V): (r: PerMetric<V>)
      ensures r.Get(m) == v
      ensures forall n :: n != m ==> r.Get(n) == Get(n)
    {
      match m
      case Cpu => this.(cpu := v)
      case Memory => this.(memory := v)
      case Network => this.(network := v)
      case Storage => this.(storage := v)
    }
  }

  datatype Point = Point(value: real, timestamp: int)

  datatype MetricData = MetricData(current: real, history: seq<Point>)

  datatype Severity = Warning | Critical

  datatype Alert = Alert(
    id: int,
    metric: Metric,
    currentValue: real,
    threshold: real,
    severity: Severity,
    timestamp: int,
    acknowledged: bool,
    acknowledgedAt: Option<int>)

  datatype Trend = Increasing | Decreasing | Stable

  datatype Health = Excellent | Good | Fair | Poor

  datatype Status = Normal | Elevated  // the source's 'normal' and 'warning'

  datatype MetricSummary = MetricSummary(current: real, trend: Trend, status: Status)

  datatype SystemStatus = SystemStatus(overall: Health, metrics: PerMetric<MetricSummary>, activeAlerts: nat)

  datatype MetricStats = MetricStats(average: real, min: real, max: real, current: real, dataPoints: nat)

  /** One entry of `report.metrics`; the entries keep the metrics' key order. */
  datatype MetricReport = MetricReport(metric: Metric, stats: MetricStats)

  datatype Priority = High | Medium

  datatype RecommendationKind = Performance | Capacity

  datatype Recommendation = Recommendation(kind: RecommendationKind, priority: Priority, metric: Metric)

  datatype Report = Report(
    timeRange: string,
    generatedAt: int,
    summary: SystemStatus,
    metrics: seq<MetricReport>,
    recommendations: seq<Recommendation>)

  const HistoryCapacity: nat := 100
  const AlertCapacity: nat := 50
  const CriticalMargin: real := 10.0
  const PeakLimit: real := 95.0
  const HourMs: int := 60 * 60 * 1000

  // ---------------------------------------------------------------------------
  // Alerting

  /** The alert `checkAlertThresholds` creates for one metric: one alert exactly when the reading is above the threshold. */
  function AlertIfOver(m: Metric, currentValue: real, threshold: real, now: int): seq<Alert>
  {
    if currentValue > threshold then
      [Alert(now, m, currentValue, threshold,
             if currentValue > threshold + CriticalMargin then Critical else Warning,
             now, false, None)]
    else []
  }

  /** The alerts one threshold check creates, in the order of `ms`. */
  function ThresholdAlerts(ms: seq<Metric>, metrics: PerMetric<MetricData>, thresholds: PerMetric<real>, now: int): seq<Alert>
  {
    if ms == [] then []
    else
      var m := ms[|ms| - 1];
      ThresholdAlerts(ms[..|ms| - 1], metrics, thresholds, now)
        + AlertIfOver(m, metrics.Get(m).current, thresholds.Get(m), now)
  }

  /** What a freshly created alert for the current state records. */
  ghost predicate FreshAlert(a: Alert, metrics: PerMetric<MetricData>, thresholds: PerMetric<real>, now: int)
  {
    var v := metrics.Get(a.metric).current;
    var t := thresholds.Get(a.metric);
    && a.currentValue == v && a.threshold == t
    && v > t
    && (a.severity == Critical <==> v > t + CriticalMargin)
    && !a.acknowledged && a.acknowledgedAt == None
    && a.id == now && a.timestamp == now
  }

  ghost predicate InMetricOrder(ms: seq<Metric>)
  {
    forall i, j :: 0 <= i < j < |ms| ==> MetricIndex(ms[i]) < MetricIndex(ms[j])
  }

  ghost predicate AlertsInMetricOrder(r: seq<Alert>)
  {
    forall i, j :: 0 <= i < j < |r| ==> MetricIndex(r[i].metric) < MetricIndex(r[j].metric)
  }

  /**
   * The threshold rules: an alert is created for a metric exactly when its reading is above
   * its threshold; alerts come in metric order; the severity is critical exactly when the
   * reading exceeds the threshold by more than 10; a new alert is unacknowledged.
   */
  lemma ThresholdAlertsSpec(ms: seq<Metric>, metrics: PerMetric<MetricData>, thresholds: PerMetric<real>, now: int)
    requires InMetricOrder(ms)
    ensures forall a :: a in ThresholdAlerts(ms, metrics, thresholds, now) ==>
      a.metric in ms && FreshAlert(a, metrics, thresholds, now)
    ensures forall m :: m in ms ==>
      ((exists a :: a in ThresholdAlerts(ms, metrics, thresholds, now) && a.metric == m)
        <==> metrics.Get(m).current > thresholds.Get(m))
    ensures AlertsInMetricOrder(ThresholdAlerts(ms, metrics, thresholds, now))
  {
    ThresholdAlertsFresh(ms, metrics, thresholds, now);
    forall m | m in ms && metrics.Get(m).current > thresholds.Get(m)
      ensures exists a :: a in ThresholdAlerts(ms, metrics, thresholds, now) && a.metric == m
    {
      ThresholdAlertPresent(ms, metrics, thresholds, now, m);
    }
    ThresholdAlertsOrdered(ms, metrics, thresholds, now);
  }

  /** Every alert of a threshold check is about one of the checked metrics and records a reading above its threshold. */
  lemma {:induction false} ThresholdAlertsFresh(ms: seq<Metric>, metrics: PerMetric<MetricData>, thresholds: PerMetric<real>, now: int)
    ensures forall a :: a in ThresholdAlerts(ms, metrics, thresholds, now) ==>
      a.metric in ms && FreshAlert(a, metrics, thresholds, now)
  {
    if ms != [] {
      var p := ms[..|ms| - 1];
      var m := ms[|ms| - 1];
      ThresholdAlertsFresh(p, metrics, thresholds, now);
      var rp := ThresholdAlerts(p, metrics, thresholds, now);
      var tail := AlertIfOver(m, metrics.Get(m).current, thresholds.Get(m), now);
      assert ThresholdAlerts(ms, metrics, thresholds, now) == rp + tail;
      forall a: Alert | a in rp + tail ensures a.metric in ms && FreshAlert(a, metrics, thresholds, now) {
        if a in rp {
          assert a.metric in p;
        } else {
          assert a in tail;
        }
      }
    }
  }

  /** A checked metric reading above its threshold has an alert. */
  lemma {:induction false} ThresholdAlertPresent(ms: seq<Metric>, metrics: PerMetric<MetricData>, thresholds: PerMetric<real>, now: int, m: Metric)
    requires m in ms && metrics.Get(m).current > thresholds.Get(m)
    ensures exists a :: a in ThresholdAlerts(ms, metrics, thresholds, now) && a.metric == m
  {
    var p := ms[..|ms| - 1];
    var last := ms[|ms| - 1];
    var rp := ThresholdAlerts(p, metrics, thresholds, now);
    var tail := AlertIfOver(last, metrics.Get(last).current, thresholds.Get(last), now);
    assert ThresholdAlerts(ms, metrics, thresholds, now) == rp + tail;
    if m == last {
      assert tail[0] in rp + tail && tail[0].metric == m;
    } else {
      assert ms == p + [last];
      assert m in p;
      ThresholdAlertPresent(p, metrics, thresholds, now, m);
      var a :| a in rp && a.metric == m;
      assert a in rp + tail;
    }
  }

  /** Alerts come in the order of the metrics checked. */
  lemma {:induction false} ThresholdAlertsOrdered(ms: seq<Metric>, metrics: PerMetric<MetricData>, thresholds: PerMetric<real>, now: int)
    requires InMetricOrder(ms)
    ensures AlertsInMetricOrder(ThresholdAlerts(ms, metrics, thresholds, now))
  {
    if ms != [] {
      var p := ms[..|ms| - 1];
      var m := ms[|ms| - 1];
      assert InMetricOrder(p);
      ThresholdAlertsOrdered(p, metrics, thresholds, now);
      ThresholdAlertsFresh(p, metrics, thresholds, now);
      var rp := ThresholdAlerts(p, metrics, thresholds, now);
      var tail := AlertIfOver(m, metrics.Get(m).current, thresholds.Get(m), now);
      assert ThresholdAlerts(ms, metrics, thresholds, now) == rp + tail;
      forall a | a in rp ensures MetricIndex(a.metric) < MetricIndex(m) {
        var k :| 0 <= k < |p| && p[k] == a.metric;
        assert ms[k] == p[k];
      }
      AlertsAppend(rp, tail, m);
    }
  }

  lemma AlertsAppend(rp: seq<Alert>, tail: seq<Alert>, m: Metric)
    requires AlertsInMetricOrder(rp)
    requires forall a :: a in rp ==> MetricIndex(a.metric) < MetricIndex(m)
    requires |tail| <= 1 && forall a :: a in tail ==> a.metric == m
    ensures AlertsInMetricOrder(rp + tail)
  {
    var r := rp + tail;
    forall i, j | 0 <= i < j < |r| ensures MetricIndex(r[i].metric) < MetricIndex(r[j].metric) {
      if j >= |rp| {
        assert r[j] == tail[j - |rp|] && tail[j - |rp|] in tail;
        assert r[i] == rp[i] && rp[i] in rp;
      } else {
        assert r[i] == rp[i] && r[j] == rp[j];
      }
    }
  }

  lemma ThresholdAlertsStep(ms: seq<Metric>, i: nat, metrics: PerMetric<MetricData>, thresholds: PerMetric<real>, now: int)
    requires i < |ms|
    ensures ThresholdAlerts(ms[..i + 1], metrics, thresholds, now)
      == ThresholdAlerts(ms[..i], metrics, thresholds, now) + AlertIfOver(ms[i], metrics.Get(ms[i]).current, thresholds.Get(ms[i]), now)
  {
    assert ms[..i + 1][..i] == ms[..i];
  }

  lemma AllMetricsInOrder()
    ensures InMetricOrder(AllMetrics)
    ensures forall m :: m in AllMetrics
    ensures forall m :: AllMetrics[MetricIndex(m)] == m
  {
    forall m: Metric ensures AllMetrics[MetricIndex(m)] == m && m in AllMetrics {
      match m
      case Cpu =>
      case Memory =>
      case Network =>
      case Storage =>
    }
  }

  // ---------------------------------------------------------------------------
  // Derived queries

  /**
   * `calculateTrend(history)`: compares the first and last of the last at most five points.
   * A first value of 0 makes the JavaScript percentage `+Infinity`, `-Infinity` or `NaN`,
   * which classify as increasing, decreasing and stable.
   */
  function CalculateTrend(history: seq<Point>): Trend
  {
    if |history| < 2 then Stable
    else
      var recent := Js.SliceFrom(history, -5);
      var first := recent[0].value;
      var last := recent[|recent| - 1].value;
      if first == 0.0 then
        (if last > 0.0 then Increasing else if last < 0.0 then Decreasing else Stable)
      else
        var change := ((last - first) / first) * 100.0;
        if change > 10.0 then Increasing
        else if change < -10.0 then Decreasing
        else Stable
  }

  /** The first point of the trend window: five from the end, or the start of a shorter history. */
  function WindowStart(history: seq<Point>): nat
  {
    if |history| >= 5 then |history| - 5 else 0
  }

  /**
   * The trend without the percentage: with at least two points, first = the oldest point
   * of the window, last = the newest point. For a positive first value, increasing means
   * more than 10% up (last > 1.1 * first) and decreasing more than 10% down; for a negative
   * one the inequalities turn round; for zero the sign of last decides.
   */
  lemma TrendSpec(history: seq<Point>)
    ensures |history| < 2 ==> CalculateTrend(history) == Stable
    ensures |history| >= 2 ==>
      var first := history[WindowStart(history)].value;
      var last := history[|history| - 1].value;
      && (first > 0.0 ==>
            (CalculateTrend(history) == Increasing <==> last > 1.1 * first)
            && (CalculateTrend(history) == Decreasing <==> last < 0.9 * first))
      && (first < 0.0 ==>
            (CalculateTrend(history) == Increasing <==> last < 1.1 * first)
            && (CalculateTrend(history) == Decreasing <==> last > 0.9 * first))
      && (first == 0.0 ==>
            (CalculateTrend(history) == Increasing <==> last > 0.0)
            && (CalculateTrend(history) == Decreasing <==> last < 0.0))
  {
    if |history| >= 2 {
      var recent := Js.SliceFrom(history, -5);
      assert recent == history[WindowStart(history)..];
      var first := recent[0].value;
      var last := recent[|recent| - 1].value;
      assert last == history[|history| - 1].value;
      if first != 0.0 {
        PercentChange(first, last);
      }
    }
  }

  lemma PercentChange(first: real, last: real)
    requires first != 0.0
    ensures first > 0.0 ==> (((last - first) / first) * 100.0 > 10.0 <==> last > 1.1 * first)
    ensures first > 0.0 ==> (((last - first) / first) * 100.0 < -10.0 <==> last < 0.9 * first)
    ensures first < 0.0 ==> (((last - first) / first) * 100.0 > 10.0 <==> last < 1.1 * first)
    ensures first < 0.0 ==> (((last - first) / first) * 100.0 < -10.0 <==> last > 0.9 * first)
  {
    var q := (last - first) / first;
    assert q * first == last - first;
    assert (q * 100.0 > 10.0) <==> q > 0.1;
    assert (q * 100.0 < -10.0) <==> q < -0.1;
    if first > 0.0 {
      assert q > 0.1 <==> q * first > 0.1 * first;
      assert q < -0.1 <==> q * first < -0.1 * first;
    } else {
      assert q > 0.1 <==> q * first < 0.1 * first;
      assert q < -0.1 <==> q * first > -0.1 * first;
    }
  }

  /** Flat, +20% and -40% histories over five points. */
  lemma TrendExamples()
    ensures CalculateTrend([Point(10.0, 0), Point(10.0, 1), Point(10.0, 2), Point(10.0, 3), Point(10.0, 4)]) == Stable
    ensures CalculateTrend([Point(10.0, 0), Point(10.0, 1), Point(10.0, 2), Point(10.0, 3), Point(12.0, 4)]) == Increasing
    ensures CalculateTrend([Point(10.0, 0), Point(9.0, 1), Point(8.0, 2), Point(7.0, 3), Point(6.0, 4)]) == Decreasing
  {
  }

  /** The bucket of `calculateOverallHealth` for a given average reading. */
  function HealthBucket(average: real): Health
  {
    if average < 50.0 then Excellent
    else if average < 70.0 then Good
    else if average < 85.0 then Fair
    else Poor
  }

  function HealthRank(h: Health): nat
  {
    match h
    case Excellent => 0
    case Good => 1
    case Fair => 2
    case Poor => 3
  }

  /** A higher average never gives a better health bucket. */
  lemma HealthMonotone(a: real, b: real)
    requires a <= b
    ensures HealthRank(HealthBucket(a)) <= HealthRank(HealthBucket(b))
  {
  }

  /** The positions of the alerts not yet acknowledged. */
  ghost function Unacknowledged(alerts: seq<Alert>): set<nat>
  {
    set i: nat | i < |alerts| && !alerts[i].acknowledged
  }

  /** `this.alerts.filter(alert => !alert.acknowledged).length`. */
  function ActiveAlerts(alerts: seq<Alert>): (n: nat)
    ensures n == |Unacknowledged(alerts)|
    ensures n <= |alerts|
  {
    if alerts == [] then 0
    else
      UnacknowledgedStep(alerts);
      ActiveAlerts(alerts[..|alerts| - 1]) + (if alerts[|alerts| - 1].acknowledged then 0 else 1)
  }

  lemma UnacknowledgedStep(alerts: seq<Alert>)
    requires alerts != []
    ensures |Unacknowledged(alerts)| ==
      |Unacknowledged(alerts[..|alerts| - 1])| + (if alerts[|alerts| - 1].acknowledged then 0 else 1)
  {
    var p := alerts[..|alerts| - 1];
    var k := |alerts| - 1;
    UnacknowledgedSplit(alerts);
    if !alerts[k].acknowledged {
      AddNew(Unacknowledged(p), k);
    }
  }

  lemma UnacknowledgedSplit(alerts: seq<Alert>)
    requires alerts != []
    ensures var k := |alerts| - 1;
      && Unacknowledged(alerts) == Unacknowledged(alerts[..k]) + (if alerts[k].acknowledged then {} else {k})
      && k !in Unacknowledged(alerts[..k])
  {
    var p := alerts[..|alerts| - 1];
    assert forall i :: 0 <= i < |p| ==> p[i] == alerts[i];
  }

  lemma AddNew(s: set<nat>, k: nat)
    requires k !in s
    ensures |s + {k}| == |s| + 1
  {
  }

  /** `this.alerts.find(a => a.id === alertId)`, as a position. */
  function FindAlert(alerts: seq<Alert>, alertId: int): (r: Option<nat>)
    ensures r == None <==> forall k :: 0 <= k < |alerts| ==> alerts[k].id != alertId
    ensures r.Some? ==>
      (r.value < |alerts| && alerts[r.value].id == alertId
       && forall k :: 0 <= k < r.value ==> alerts[k].id != alertId)
  {
    if alerts == [] then None
    else if alerts[0].id == alertId then Some(0)
    else
      match FindAlert(alerts[1..], alertId)
      case None => None
      case Some(i) => Some(i + 1)
  }

  /** The alert log after `acknowledgeAlert(alertId)` at time `at`. */
  function Acknowledged(alerts: seq<Alert>, alertId: int, at: int): seq<Alert>
  {
    match FindAlert(alerts, alertId)
    case None => alerts
    case Some(i) => alerts[i := alerts[i].(acknowledged := true, acknowledgedAt := Some(at))]
  }

  /**
   * Acknowledgement marks exactly the first alert with the given id (stamping the time),
   * leaves every other alert as it was, is a no-op for an unknown id, never clears an
   * acknowledgement, and lowers the unacknowledged count by one exactly when the marked
   * alert was unacknowledged.
   */
  lemma AcknowledgeSpec(alerts: seq<Alert>, alertId: int, at: int)
    ensures |Acknowledged(alerts, alertId, at)| == |alerts|
    ensures (forall k :: 0 <= k < |alerts| ==> alerts[k].id != alertId) ==> Acknowledged(alerts, alertId, at) == alerts
    ensures var r := Acknowledged(alerts, alertId, at);
      forall k :: 0 <= k < |alerts| ==>
        && r[k].id == alerts[k].id
        && (alerts[k].acknowledged ==> r[k].acknowledged)
        && (FindAlert(alerts, alertId) != Some(k) ==> r[k] == alerts[k])
    ensures var r := Acknowledged(alerts, alertId, at);
      match FindAlert(alerts, alertId)
      case None => ActiveAlerts(r) == ActiveAlerts(alerts)
      case Some(i) =>
        && r[i] == alerts[i].(acknowledged := true, acknowledgedAt := Some(at))
        && ActiveAlerts(r) == ActiveAlerts(alerts) - (if alerts[i].acknowledged then 0 else 1)
  {
    var r := Acknowledged(alerts, alertId, at);
    match FindAlert(alerts, alertId)
    case None =>
    case Some(i) =>
      assert Unacknowledged(r) == Unacknowledged(alerts) - {i};
  }

  /** `Object.values(this.metrics).map(metric => metric.current)`. */
  function Currents(metrics: PerMetric<MetricData>): (cs: seq<real>)
    ensures |cs| == |AllMetrics|
    ensures forall k :: 0 <= k < |AllMetrics| ==> cs[k] == metrics.Get(AllMetrics[k]).current
  {
    [metrics.cpu.current, metrics.memory.current, metrics.network.current, metrics.storage.current]
  }

  /** `calculateOverallHealth()`: the bucket of the mean current reading. */
  function OverallHealth(metrics: PerMetric<MetricData>): Health
  {
    HealthBucket(Numeric.Mean(Currents(metrics)))
  }

  /** If every metric reads below 50 the system is excellent; if every one reads at or above 85 it is poor. */
  lemma OverallHealthExtremes(metrics: PerMetric<MetricData>)
    ensures (forall m :: metrics.Get(m).current < 50.0) ==> OverallHealth(metrics) == Excellent
    ensures (forall m :: metrics.Get(m).current >= 85.0) ==> OverallHealth(metrics) == Poor
  {
    var cs := Currents(metrics);
    if forall m :: metrics.Get(m).current < 50.0 {
      assert forall k :: 0 <= k < |cs| ==> cs[k] < 50.0;
      MeanBelow(cs, 50.0);
    }
    if forall m :: metrics.Get(m).current >= 85.0 {
      assert forall k :: 0 <= k < |cs| ==> cs[k] >= 85.0;
      MeanAtLeast(cs, 85.0);
    }
  }

  lemma MeanBelow(cs: seq<real>, bound: real)
    requires cs != [] && forall k :: 0 <= k < |cs| ==> cs[k] < bound
    ensures Numeric.Mean(cs) < bound
  {
    Numeric.MeanBetween(cs);
    assert Numeric.Max(cs) in cs;
  }

  lemma MeanAtLeast(cs: seq<real>, bound: real)
    requires cs != [] && forall k :: 0 <= k < |cs| ==> cs[k] >= bound
    ensures Numeric.Mean(cs) >= bound
  {
    Numeric.MeanBetween(cs);
    assert Numeric.Min(cs) in cs;
  }

  // ---------------------------------------------------------------------------
  // Performance report

  /** The look-back of `getPerformanceReport(timeRange)` in milliseconds; an unknown range falls back to 24 hours. */
  function LookbackMs(timeRange: string): (ms: int)
    ensures timeRange == "1h" ==> ms == HourMs
    ensures timeRange == "7d" ==> ms == 7 * 24 * HourMs
    ensures timeRange != "1h" && timeRange != "7d" ==> ms == 24 * HourMs
  {
    match timeRange
    case "1h" => HourMs
    case "24h" => 24 * HourMs
    case "7d" => 7 * 24 * HourMs
    case _ => 24 * HourMs
  }

  /** `history.filter(entry => new Date(entry.timestamp) >= startTime)`. */
  function InWindow(history: seq<Point>, startTime: int): (r: seq<Point>)
    ensures forall p :: p in r <==> p in history && p.timestamp >= startTime
    ensures |r| <= |history|
  {
    if history == [] then []
    else
      var earlier := InWindow(history[..|history| - 1], startTime);
      var x := history[|history| - 1];
      assert forall p :: p in history <==> p in history[..|history| - 1] || p == x;
      if x.timestamp >= startTime then earlier + [x] else earlier
  }

  /** The positions of the history entries at or after the start time. */
  ghost function WindowPositions(history: seq<Point>, startTime: int): set<nat>
  {
    set k: nat | k < |history| && history[k].timestamp >= startTime
  }

  /** The window keeps every qualifying entry as often as the history holds it, and no other. */
  lemma {:induction false} InWindowMultiset(history: seq<Point>, startTime: int)
    ensures forall p ::
              multiset(InWindow(history, startTime))[p] == if p.timestamp >= startTime then multiset(history)[p] else 0
  {
    if history != [] {
      var init := history[..|history| - 1];
      var x := history[|history| - 1];
      InWindowMultiset(init, startTime);
      assert history == init + [x];
    }
  }

  /** The window holds exactly one entry per qualifying position of the history. */
  lemma {:induction false} InWindowCount(history: seq<Point>, startTime: int)
    ensures |InWindow(history, startTime)| == |WindowPositions(history, startTime)|
  {
    if history != [] {
      var k := |history| - 1;
      var init := history[..k];
      InWindowCount(init, startTime);
      assert forall i :: 0 <= i < k ==> init[i] == history[i];
      assert WindowPositions(history, startTime) ==
        WindowPositions(init, startTime) + (if history[k].timestamp >= startTime then {k} else {});
      if history[k].timestamp >= startTime {
        AddNew(WindowPositions(init, startTime), k);
      }
    }
  }

  /** `relevantData.map(entry => entry.value)`. */
  function Values(points: seq<Point>): (vs: seq<real>)
    ensures |vs| == |points|
    ensures forall k :: 0 <= k < |points| ==> vs[k] == points[k].value
  {
    seq(|points|, k requires 0 <= k < |points| => points[k].value)
  }

  /** The statistics of one metric over the window, or nothing when no history entry falls inside it. */
  function StatsOf(data: MetricData, startTime: int): Option<MetricStats>
  {
    var relevant := InWindow(data.history, startTime);
    if |relevant| > 0 then
      var values := Values(relevant);
      Some(MetricStats(Numeric.Mean(values), Numeric.Min(values), Numeric.Max(values), data.current, |relevant|))
    else None
  }

  /** The report entries for one metric: none, or one. */
  function EntryFor(m: Metric, metrics: PerMetric<MetricData>, startTime: int): seq<MetricReport>
  {
    match StatsOf(metrics.Get(m), startTime)
    case Some(st) => [MetricReport(m, st)]
    case None => []
  }

  /** The `report.metrics` entries for the metrics of `ms`, in that order. */
  function ReportMetrics(ms: seq<Metric>, metrics: PerMetric<MetricData>, startTime: int): seq<MetricReport>
  {
    if ms == [] then []
    else ReportMetrics(ms[..|ms| - 1], metrics, startTime) + EntryFor(ms[|ms| - 1], metrics, startTime)
  }

  /** What a report entry says about one metric's history inside the window. */
  ghost predicate StatsDescribe(st: MetricStats, data: MetricData, startTime: int)
  {
    var vs := Values(InWindow(data.history, startTime));
    && st.dataPoints == |vs| == |WindowPositions(data.history, startTime)| >= 1
    && st.average == Numeric.Mean(vs)
    && st.min <= st.average <= st.max
    && st.min in vs && st.max in vs
    && (forall k :: 0 <= k < |vs| ==> st.min <= vs[k] <= st.max)
    && st.current == data.current
  }

  ghost predicate EntriesInMetricOrder(r: seq<MetricReport>)
  {
    forall i, j :: 0 <= i < j < |r| ==> MetricIndex(r[i].metric) < MetricIndex(r[j].metric)
  }

  /** A metric's statistics exist exactly when some history entry is at or after the start, and then describe the window. */
  lemma StatsOfSpec(data: MetricData, startTime: int)
    ensures StatsOf(data, startTime).Some? <==> exists p :: p in data.history && p.timestamp >= startTime
    ensures StatsOf(data, startTime).Some? ==> StatsDescribe(StatsOf(data, startTime).value, data, startTime)
  {
    var relevant := InWindow(data.history, startTime);
    InWindowCount(data.history, startTime);
    if |relevant| > 0 {
      assert relevant[0] in relevant;
      Numeric.MeanBetween(Values(relevant));
    }
  }

  lemma {:induction false} EntryOrigin(ms: seq<Metric>, metrics: PerMetric<MetricData>, startTime: int, e: MetricReport)
    requires e in ReportMetrics(ms, metrics, startTime)
    ensures e.metric in ms && StatsOf(metrics.Get(e.metric), startTime) == Some(e.stats)
  {
    var p := ms[..|ms| - 1];
    if e in ReportMetrics(p, metrics, startTime) {
      EntryOrigin(p, metrics, startTime, e);
      assert e.metric in p;
    }
  }

  lemma {:induction false} EntryPresent(ms: seq<Metric>, metrics: PerMetric<MetricData>, startTime: int, m: Metric)
    requires m in ms && StatsOf(metrics.Get(m), startTime).Some?
    ensures MetricReport(m, StatsOf(metrics.Get(m), startTime).value) in ReportMetrics(ms, metrics, startTime)
  {
    var p := ms[..|ms| - 1];
    if m != ms[|ms| - 1] {
      assert m in p;
      EntryPresent(p, metrics, startTime, m);
    }
  }

  /**
   * The windowing of the report: a metric appears exactly when at least one of its history
   * entries is at or after the start time, and its entry counts those entries and has
   * min <= average <= max over them.
   */
  lemma ReportMetricsSpec(ms: seq<Metric>, metrics: PerMetric<MetricData>, startTime: int)
    ensures forall m :: m in ms ==>
      ((exists e :: e in ReportMetrics(ms, metrics, startTime) && e.metric == m)
        <==> exists p :: p in metrics.Get(m).history && p.timestamp >= startTime)
    ensures forall e :: e in ReportMetrics(ms, metrics, startTime) ==>
      e.metric in ms && StatsDescribe(e.stats, metrics.Get(e.metric), startTime)
  {
    forall e | e in ReportMetrics(ms, metrics, startTime)
      ensures e.metric in ms && StatsDescribe(e.stats, metrics.Get(e.metric), startTime)
    {
      EntryOrigin(ms, metrics, startTime, e);
      StatsOfSpec(metrics.Get(e.metric), startTime);
    }
    forall m | m in ms
      ensures (exists e :: e in ReportMetrics(ms, metrics, startTime) && e.metric == m)
        <==> exists p :: p in metrics.Get(m).history && p.timestamp >= startTime
    {
      MetricReported(ms, metrics, startTime, m);
    }
  }

  lemma MetricReported(ms: seq<Metric>, metrics: PerMetric<MetricData>, startTime: int, m: Metric)
    requires m in ms
    ensures (exists e :: e in ReportMetrics(ms, metrics, startTime) && e.metric == m)
      <==> exists p :: p in metrics.Get(m).history && p.timestamp >= startTime
  {
    var r := ReportMetrics(ms, metrics, startTime);
    StatsOfSpec(metrics.Get(m), startTime);
    if exists e :: e in r && e.metric == m {
      var e :| e in r && e.metric == m;
      EntryOrigin(ms, metrics, startTime, e);
    }
    if StatsOf(metrics.Get(m), startTime).Some? {
      EntryPresent(ms, metrics, startTime, m);
    }
  }

  /** Report entries follow the key order of the metrics they are computed from. */
  lemma {:induction false} ReportMetricsOrdered(ms: seq<Metric>, metrics: PerMetric<MetricData>, startTime: int)
    requires InMetricOrder(ms)
    ensures EntriesInMetricOrder(ReportMetrics(ms, metrics, startTime))
  {
    if ms != [] {
      var p := ms[..|ms| - 1];
      var m := ms[|ms| - 1];
      ReportMetricsOrdered(p, metrics, startTime);
      var rp := ReportMetrics(p, metrics, startTime);
      var tail := EntryFor(m, metrics, startTime);
      forall x | x in rp ensures MetricIndex(x.metric) < MetricIndex(m) {
        EntryOrigin(p, metrics, startTime, x);
        var k :| 0 <= k < |p| && p[k] == x.metric;
        assert ms[k] == p[k];
      }
      EntriesAppend(rp, tail, m);
    }
  }

  lemma EntriesAppend(rp: seq<MetricReport>, tail: seq<MetricReport>, m: Metric)
    requires EntriesInMetricOrder(rp)
    requires forall x :: x in rp ==> MetricIndex(x.metric) < MetricIndex(m)
    requires |tail| <= 1 && forall x :: x in tail ==> x.metric == m
    ensures EntriesInMetricOrder(rp + tail)
  {
    var r := rp + tail;
    forall i, j | 0 <= i < j < |r| ensures MetricIndex(r[i].metric) < MetricIndex(r[j].metric) {
      if j >= |rp| {
        assert r[j] == tail[j - |rp|] && tail[j - |rp|] in tail;
        assert r[i] == rp[i] && rp[i] in rp;
      } else {
        assert r[i] == rp[i] && r[j] == rp[j];
      }
    }
  }

  /** The recommendations for one report entry: high priority first, then medium. */
  function RecommendationsFor(e: MetricReport, threshold: real): seq<Recommendation>
  {
    (if e.stats.average > threshold then [Recommendation(Performance, High, e.metric)] else [])
      + (if e.stats.max > PeakLimit then [Recommendation(Capacity, Medium, e.metric)] else [])
  }

  /** `generateRecommendations(report.metrics)`, where thresholds are `this.alertThresholds`. */
  function Recommendations(entries: seq<MetricReport>, thresholds: PerMetric<real>): seq<Recommendation>
  {
    if entries == [] then []
    else
      var e := entries[|entries| - 1];
      Recommendations(entries[..|entries| - 1], thresholds) + RecommendationsFor(e, thresholds.Get(e.metric))
  }

  ghost predicate RecommendationsOrdered(r: seq<Recommendation>)
  {
    forall i, j :: 0 <= i < j < |r| ==>
      || MetricIndex(r[i].metric) < MetricIndex(r[j].metric)
      || (r[i].metric == r[j].metric && r[i].priority == High && r[j].priority == Medium)
  }

  lemma {:induction false} RecommendationOrigin(entries: seq<MetricReport>, thresholds: PerMetric<real>, x: Recommendation)
    requires x in Recommendations(entries, thresholds)
    ensures exists e :: e in entries && x in RecommendationsFor(e, thresholds.Get(e.metric))
  {
    var p := entries[..|entries| - 1];
    var e := entries[|entries| - 1];
    if x in Recommendations(p, thresholds) {
      RecommendationOrigin(p, thresholds, x);
      var y :| y in p && x in RecommendationsFor(y, thresholds.Get(y.metric));
      assert y in entries;
    } else {
      assert e in entries;
    }
  }

  lemma {:induction false} RecommendationPresent(entries: seq<MetricReport>, thresholds: PerMetric<real>, e: MetricReport, x: Recommendation)
    requires e in entries && x in RecommendationsFor(e, thresholds.Get(e.metric))
    ensures x in Recommendations(entries, thresholds)
  {
    var p := entries[..|entries| - 1];
    if e != entries[|entries| - 1] {
      assert e in p;
      RecommendationPresent(p, thresholds, e, x);
    }
  }

  /** Whether `recs` holds a recommendation of priority `priority` for metric `m`. */
  ghost predicate Recommended(recs: seq<Recommendation>, m: Metric, priority: Priority)
  {
    exists r :: r in recs && r.metric == m && r.priority == priority
  }

  /**
   * A high-priority recommendation is issued for a metric exactly when some entry's
   * windowed average for it is above the metric's alert threshold; every recommendation is
   * high priority exactly when it is about performance.
   */
  lemma RecommendationsHighSpec(entries: seq<MetricReport>, thresholds: PerMetric<real>, m: Metric)
    ensures Recommended(Recommendations(entries, thresholds), m, High)
      <==> exists e :: e in entries && e.metric == m && e.stats.average > thresholds.Get(m)
    ensures forall r :: r in Recommendations(entries, thresholds) ==> (r.priority == High <==> r.kind == Performance)
  {
    var recs := Recommendations(entries, thresholds);
    forall x | x in recs ensures x.priority == High <==> x.kind == Performance {
      RecommendationOrigin(entries, thresholds, x);
    }
    if Recommended(recs, m, High) {
      var r :| r in recs && r.metric == m && r.priority == High;
      RecommendationOrigin(entries, thresholds, r);
    }
    if exists e :: e in entries && e.metric == m && e.stats.average > thresholds.Get(m) {
      var e :| e in entries && e.metric == m && e.stats.average > thresholds.Get(m);
      RecommendationPresent(entries, thresholds, e, Recommendation(Performance, High, m));
    }
  }

  /** A medium-priority recommendation is issued for a metric exactly when some entry's windowed maximum for it is above 95. */
  lemma RecommendationsMediumSpec(entries: seq<MetricReport>, thresholds: PerMetric<real>, m: Metric)
    ensures Recommended(Recommendations(entries, thresholds), m, Medium)
      <==> exists e :: e in entries && e.metric == m && e.stats.max > PeakLimit
  {
    var recs := Recommendations(entries, thresholds);
    if Recommended(recs, m, Medium) {
      var r :| r in recs && r.metric == m && r.priority == Medium;
      RecommendationOrigin(entries, thresholds, r);
    }
    if exists e :: e in entries && e.metric == m && e.stats.max > PeakLimit {
      var e :| e in entries && e.metric == m && e.stats.max > PeakLimit;
      var tail := RecommendationsFor(e, thresholds.Get(m));
      assert tail[|tail| - 1] == Recommendation(Capacity, Medium, m);
      RecommendationPresent(entries, thresholds, e, Recommendation(Capacity, Medium, m));
    }
  }

  /** Recommendations follow metric order, high before medium for the same metric. */
  lemma {:induction false} RecommendationsOrderedSpec(entries: seq<MetricReport>, thresholds: PerMetric<real>)
    requires EntriesInMetricOrder(entries)
    ensures RecommendationsOrdered(Recommendations(entries, thresholds))
  {
    if entries != [] {
      var p := entries[..|entries| - 1];
      var e := entries[|entries| - 1];
      assert EntriesInMetricOrder(p);
      RecommendationsOrderedSpec(p, thresholds);
      var rp := Recommendations(p, thresholds);
      var tail := RecommendationsFor(e, thresholds.Get(e.metric));
      RecommendationsBefore(entries, thresholds);
      OrderedAppend(rp, tail, e.metric);
    }
  }

  /** The recommendations for all entries but the last are about metrics before the last entry's. */
  lemma RecommendationsBefore(entries: seq<MetricReport>, thresholds: PerMetric<real>)
    requires entries != [] && EntriesInMetricOrder(entries)
    ensures forall x :: x in Recommendations(entries[..|entries| - 1], thresholds) ==>
      MetricIndex(x.metric) < MetricIndex(entries[|entries| - 1].metric)
  {
    var p := entries[..|entries| - 1];
    forall x | x in Recommendations(p, thresholds) ensures MetricIndex(x.metric) < MetricIndex(entries[|entries| - 1].metric) {
      RecommendationOrigin(p, thresholds, x);
      var y :| y in p && x in RecommendationsFor(y, thresholds.Get(y.metric));
      var k :| 0 <= k < |p| && p[k] == y;
      assert entries[k] == y;
    }
  }

  /** Ordered recommendations followed by those of one later metric, high before medium, stay ordered. */
  lemma OrderedAppend(rp: seq<Recommendation>, tail: seq<Recommendation>, m: Metric)
    requires RecommendationsOrdered(rp)
    requires forall x :: x in rp ==> MetricIndex(x.metric) < MetricIndex(m)
    requires |tail| <= 2 && forall y :: y in tail ==> y.metric == m
    requires |tail| == 2 ==> tail[0].priority == High && tail[1].priority == Medium
    ensures RecommendationsOrdered(rp + tail)
  {
    var r := rp + tail;
    forall i, j | 0 <= i < j < |r|
      ensures || MetricIndex(r[i].metric) < MetricIndex(r[j].metric)
              || (r[i].metric == r[j].metric && r[i].priority == High && r[j].priority == Medium)
    {
      if j >= |rp| {
        assert r[j] == tail[j - |rp|] && tail[j - |rp|] in tail;
        if i < |rp| {
          assert r[i] == rp[i] && rp[i] in rp;
        } else {
          assert r[i] == tail[i - |rp|] && tail[i - |rp|] in tail;
        }
      } else {
        assert r[i] == rp[i] && r[j] == rp[j];
      }
    }
  }

  // ---------------------------------------------------------------------------
  // The monitor object

  /** A metric after the `current` assignment and `history.push` of one cycle. */
  function Grown(data: MetricData, reading: real, now: int): MetricData
  {
    MetricData(reading, data.history + [Point(reading, now)])
  }

  function Trimmed(data: MetricData): MetricData
  {
    if |data.history| > HistoryCapacity then data.(history := data.history[1..]) else data
  }

  /** A metric after one full collection cycle: the reading, and the bounded history with the new point last. */
  function Collected(data: MetricData, reading: real, now: int): MetricData
  {
    MetricData(reading, Window.PushBounded(data.history, Point(reading, now), HistoryCapacity))
  }

  /**
   * Push-then-trim is the bounded push: a history within capacity stays within it, ends with
   * the new point, and loses its oldest point exactly when it was full.
   */
  lemma CollectedSpec(data: MetricData, reading: real, now: int)
    requires |data.history| <= HistoryCapacity
    ensures Trimmed(Grown(data, reading, now)) == Collected(data, reading, now)
    ensures var h := Collected(data, reading, now).history;
      && |h| <= HistoryCapacity
      && h[|h| - 1] == Point(reading, now)
      && (|data.history| < HistoryCapacity ==> h == data.history + [Point(reading, now)])
      && (|data.history| == HistoryCapacity ==> h == data.history[1..] + [Point(reading, now)])
  {
    Window.PushBoundedSpec(data.history, Point(reading, now), HistoryCapacity);
  }

  /** The metrics of key position below `i` are trimmed, the others only grown. */
  ghost predicate TrimmedBelow(current: PerMetric<MetricData>, grown: PerMetric<MetricData>, i: nat)
  {
    forall m :: current.Get(m) == (if MetricIndex(m) < i then Trimmed(grown.Get(m)) else grown.Get(m))
  }

  lemma TrimStep(before: PerMetric<MetricData>, after: PerMetric<MetricData>, grown: PerMetric<MetricData>, m: Metric, i: nat)
    requires TrimmedBelow(before, grown, i) && MetricIndex(m) == i
    requires after == before.Set(m, Trimmed(before.Get(m)))
    ensures TrimmedBelow(after, grown, i + 1)
  {
    forall n ensures after.Get(n) == (if MetricIndex(n) < i + 1 then Trimmed(grown.Get(n)) else grown.Get(n)) {
      if n != m {
        assert MetricIndex(n) != i by {
          match n
          case Cpu =>
          case Memory =>
          case Network =>
          case Storage =>
        }
      }
    }
  }

  /** The severity thresholds of `this.alertThresholds`. */
  const DefaultThresholds: PerMetric<real> := PerMetric(80.0, 85.0, 90.0, 95.0)

  class SystemMonitorModule {
    var metrics: PerMetric<MetricData>
    var monitoringInterval: Option<Js.TimerId>
    var alertThresholds: PerMetric<real>
    var alerts: seq<Alert>
    /** The intervals the environment keeps running; a started, never-cleared interval stays here. */
    ghost var liveTimers: set<Js.TimerId>

    /** Every history and the alert log are within their capacities. */
    ghost predicate Valid()
      reads this
    {
      && (forall m :: |metrics.Get(m).history| <= HistoryCapacity)
      && |alerts| <= AlertCapacity
      && (monitoringInterval.Some? ==> monitoringInterval.value in liveTimers)
    }

    constructor ()
      ensures Valid()
      ensures forall m :: metrics.Get(m) == MetricData(0.0, [])
      ensures monitoringInterval == None
      ensures alertThresholds == DefaultThresholds
      ensures alerts == []
      ensures liveTimers == {}
    {
      metrics := PerMetric(MetricData(0.0, []), MetricData(0.0, []), MetricData(0.0, []), MetricData(0.0, []));
      monitoringInterval := None;
      alertThresholds := DefaultThresholds;
      alerts := [];
      liveTimers := {};
    }

    /**
     * `startMonitoring()`: `handle` is what `setInterval` returns. The previous handle is
     * overwritten without being cleared, so a second start leaves the first interval running.
     */
    method StartMonitoring(handle: Js.TimerId)
      requires Valid()
      requires handle !in liveTimers
      modifies this
      ensures Valid()
      ensures monitoringInterval == Some(handle)
      ensures liveTimers == old(liveTimers) + {handle}
      ensures metrics == old(metrics) && alertThresholds == old(alertThresholds) && alerts == old(alerts)
    {
      monitoringInterval := Some(handle);
      liveTimers := liveTimers + {handle};
    }

    /** `stopMonitoring()`: clears the current interval, if any; does nothing otherwise. */
    method StopMonitoring()
      requires Valid()
      modifies this
      ensures Valid()
      ensures monitoringInterval == None
      ensures liveTimers == old(if monitoringInterval.Some? then liveTimers - {monitoringInterval.value} else liveTimers)
      ensures metrics == old(metrics) && alertThresholds == old(alertThresholds) && alerts == old(alerts)
    {
      if monitoringInterval.Some? {
        liveTimers := liveTimers - {monitoringInterval.value};
        monitoringInterval := None;
      }
    }

    /** Appends one reading to a metric, without trimming (the `history.push` of `collectMetrics`). */
    method Record(m: Metric, reading: real, now: int)
      modifies this
      ensures metrics == old(metrics).Set(m, Grown(old(metrics).Get(m), reading, now))
      ensures alertThresholds == old(alertThresholds) && alerts == old(alerts)
      ensures monitoringInterval == old(monitoringInterval) && liveTimers == old(liveTimers)
    {
      metrics := metrics.Set(m, MetricData(reading, metrics.Get(m).history + [Point(reading, now)]));
    }

    /** The trimming step of `collectMetrics` for one metric: drop the oldest point when over capacity. */
    method Trim(m: Metric)
      modifies this
      ensures metrics == old(metrics).Set(m, Trimmed(old(metrics).Get(m)))
      ensures alertThresholds == old(alertThresholds) && alerts == old(alerts)
      ensures monitoringInterval == old(monitoringInterval) && liveTimers == old(liveTimers)
    {
      var data := metrics.Get(m);
      if |data.history| > HistoryCapacity {
        metrics := metrics.Set(m, data.(history := data.history[1..]));
      }
    }

    /** The `Object.keys(this.metrics).forEach` of `collectMetrics`: every history over capacity drops its oldest point. */
    method TrimHistories()
      modifies this
      ensures forall m :: metrics.Get(m) == Trimmed(old(metrics).Get(m))
      ensures alertThresholds == old(alertThresholds) && alerts == old(alerts)
      ensures monitoringInterval == old(monitoringInterval) && liveTimers == old(liveTimers)
    {
      ghost var grown := metrics;
      AllMetricsInOrder();
      var i := 0;
      while i < |AllMetrics|
        invariant 0 <= i <= |AllMetrics|
        invariant TrimmedBelow(metrics, grown, i)
        invariant alertThresholds == old(alertThresholds) && alerts == old(alerts)
        invariant monitoringInterval == old(monitoringInterval) && liveTimers == old(liveTimers)
      {
        ghost var before := metrics;
        Trim(AllMetrics[i]);
        TrimStep(before, metrics, grown, AllMetrics[i], i);
        i := i + 1;
      }
    }

    /**
     * `collectMetrics()`: one cycle with the given readings at time `now`. Each metric takes
     * its reading and a bounded history with the new point last; then the alert check runs
     * on the new readings.
     */
    method CollectMetrics(readings: PerMetric<real>, now: int)
      requires Valid()
      modifies this
      ensures Valid()
      ensures forall m :: metrics.Get(m) == Collected(old(metrics).Get(m), readings.Get(m), now)
      ensures alerts == Window.Newest(old(alerts) + ThresholdAlerts(AllMetrics, metrics, alertThresholds, now), AlertCapacity)
      ensures alertThresholds == old(alertThresholds)
      ensures monitoringInterval == old(monitoringInterval) && liveTimers == old(liveTimers)
    {
      Record(Cpu, readings.cpu, now);
      Record(Memory, readings.memory, now);
      Record(Network, readings.network, now);
      Record(Storage, readings.storage, now);
      ghost var grown := metrics;
      assert forall m :: grown.Get(m) == Grown(old(metrics).Get(m), readings.Get(m), now) by {
        forall m ensures grown.Get(m) == Grown(old(metrics).Get(m), readings.Get(m), now) {
          match m
          case Cpu =>
          case Memory =>
          case Network =>
          case Storage =>
        }
      }
      TrimHistories();
      forall m ensures metrics.Get(m) == Collected(old(metrics).Get(m), readings.Get(m), now)
        && |metrics.Get(m).history| <= HistoryCapacity
      {
        CollectedSpec(old(metrics).Get(m), readings.Get(m), now);
      }
      CheckAlertThresholds(now);
    }

    /**
     * `checkAlertThresholds()`: one alert per metric whose current reading is above its
     * threshold, in key order, each pushed into the bounded alert log.
     */
    method CheckAlertThresholds(now: int)
      requires Valid()
      modifies this
      ensures Valid()
      ensures alerts == Window.PushAll(old(alerts), ThresholdAlerts(AllMetrics, metrics, alertThresholds, now), AlertCapacity)
      ensures alerts == Window.Newest(old(alerts) + ThresholdAlerts(AllMetrics, metrics, alertThresholds, now), AlertCapacity)
      ensures metrics == old(metrics) && alertThresholds == old(alertThresholds)
      ensures monitoringInterval == old(monitoringInterval) && liveTimers == old(liveTimers)
    {
      ghost var start, ms, th := alerts, metrics, alertThresholds;
      ghost var pushed: seq<Alert> := [];
      var i := 0;
      while i < |AllMetrics|
        invariant 0 <= i <= |AllMetrics|
        invariant pushed == ThresholdAlerts(AllMetrics[..i], ms, th, now)
        invariant alerts == Window.PushAll(start, pushed, AlertCapacity)
        invariant |alerts| <= AlertCapacity
        invariant metrics == ms && alertThresholds == th
        invariant monitoringInterval == old(monitoringInterval) && liveTimers == old(liveTimers)
      {
        var metric := AllMetrics[i];
        var threshold := alertThresholds.Get(metric);
        var currentValue := metrics.Get(metric).current;
        ghost var before := alerts;
        ghost var created := AlertIfOver(metric, currentValue, threshold, now);
        if currentValue > threshold {
          CreateAlert(metric, currentValue, threshold,
            if currentValue > threshold + CriticalMargin then Critical else Warning, now);
          assert alerts == Window.PushAll(before, created, AlertCapacity) by {
            Window.PushAllOne(before, created[0], AlertCapacity);
          }
        } else {
          assert created == [];
        }
        assert ThresholdAlerts(AllMetrics[..i + 1], ms, th, now) == pushed + created by {
          ThresholdAlertsStep(AllMetrics, i, ms, th, now);
        }
        Window.PushAllThen(start, pushed, created, before, alerts, AlertCapacity);
        pushed := pushed + created;
        i := i + 1;
      }
      assert AllMetrics[..i] == AllMetrics;
      Window.PushAllKeepsNewest(old(alerts), ThresholdAlerts(AllMetrics, metrics, alertThresholds, now), AlertCapacity);
    }

    /** `createAlert(alertData)`: a new unacknowledged alert stamped `now`, pushed into the bounded log. */
    method CreateAlert(metric: Metric, currentValue: real, threshold: real, severity: Severity, now: int)
      requires |alerts| <= AlertCapacity
      modifies this
      ensures alerts == Window.PushBounded(old(alerts), Alert(now, metric, currentValue, threshold, severity, now, false, None), AlertCapacity)
      ensures |alerts| <= AlertCapacity
      ensures metrics == old(metrics) && alertThresholds == old(alertThresholds)
      ensures monitoringInterval == old(monitoringInterval) && liveTimers == old(liveTimers)
    {
      var alert := Alert(now, metric, currentValue, threshold, severity, now, false, None);
      alerts := alerts + [alert];
      if |alerts| > AlertCapacity {
        alerts := alerts[1..];
      }
      Window.PushBoundedSpec(old(alerts), alert, AlertCapacity);
    }

    /** `acknowledgeAlert(alertId)` at time `at`. */
    method AcknowledgeAlert(alertId: int, at: int)
      modifies this
      ensures alerts == Acknowledged(old(alerts), alertId, at)
      ensures |alerts| == |old(alerts)|
      ensures metrics == old(metrics) && alertThresholds == old(alertThresholds)
      ensures monitoringInterval == old(monitoringInterval) && liveTimers == old(liveTimers)
    {
      var found := FindAlert(alerts, alertId);
      if found.Some? {
        var i := found.value;
        alerts := alerts[i := alerts[i].(acknowledged := true, acknowledgedAt := Some(at))];
      }
    }

    /** `getSystemStatus()`, without the constant uptime string. */
    function GetSystemStatus(): (s: SystemStatus)
      reads this
      ensures forall m :: s.metrics.Get(m).current == metrics.Get(m).current
      ensures forall m :: s.metrics.Get(m).status == Elevated <==> metrics.Get(m).current > alertThresholds.Get(m)
      ensures forall m :: s.metrics.Get(m).trend == CalculateTrend(metrics.Get(m).history)
      ensures s.activeAlerts == |Unacknowledged(alerts)|
      ensures s.overall == HealthBucket(Numeric.Mean(Currents(metrics)))
    {
      var ms := metrics;
      var thresholds := alertThresholds;
      var summary := (m: Metric) =>
        MetricSummary(ms.Get(m).current, CalculateTrend(ms.Get(m).history),
                      if ms.Get(m).current > thresholds.Get(m) then Elevated else Normal);
      SystemStatus(OverallHealth(metrics), PerMetric.Tabulate(summary), ActiveAlerts(alerts))
    }

    /**
     * `getPerformanceReport(timeRange = '24h')` at time `now`: the window starts
     * `LookbackMs(timeRange)` before `now`, the entries are computed per metric in key order,
     * and the recommendations from those entries against this monitor's thresholds.
     */
    function GetPerformanceReport(now: int, timeRange: string := "24h"): (r: Report)
      reads this
      ensures r.timeRange == timeRange && r.generatedAt == now && r.summary == GetSystemStatus()
      ensures r.metrics == ReportMetrics(AllMetrics, metrics, now - LookbackMs(timeRange))
      ensures r.recommendations == Recommendations(r.metrics, alertThresholds)
    {
      var entries := ReportMetrics(AllMetrics, metrics, now - LookbackMs(timeRange));
      Report(timeRange, now, GetSystemStatus(), entries, Recommendations(entries, alertThresholds))
    }
  }

  /**
   * The performance report over all four metrics: a metric has an entry exactly when one of
   * its points lies in the window, each entry describes the window, entries follow key order,
   * and so do the recommendations (high before medium for one metric).
   */
  lemma PerformanceReportSpec(metrics: PerMetric<MetricData>, thresholds: PerMetric<real>, startTime: int)
    ensures forall m ::
      ((exists e :: e in ReportMetrics(AllMetrics, metrics, startTime) && e.metric == m)
        <==> exists p :: p in metrics.Get(m).history && p.timestamp >= startTime)
    ensures forall e :: e in ReportMetrics(AllMetrics, metrics, startTime) ==>
      StatsDescribe(e.stats, metrics.Get(e.metric), startTime)
    ensures EntriesInMetricOrder(ReportMetrics(AllMetrics, metrics, startTime))
    ensures RecommendationsOrdered(Recommendations(ReportMetrics(AllMetrics, metrics, startTime), thresholds))
  {
    AllMetricsInOrder();
    ReportMetricsSpec(AllMetrics, metrics, startTime);
    ReportMetricsOrdered(AllMetrics, metrics, startTime);
    RecommendationsOrderedSpec(ReportMetrics(AllMetrics, metrics, startTime), thresholds);
  }
}
