# Low-altitude operations dashboard: verified model of the client-side logic

This project models, in Dafny, the in-memory logic behind the dashboard's browser code. It covers:

- **Real-time sample processor** (`RealTimeDataProcessor`):
  - a FIFO buffer of at most 1000 timestamped samples;
  - an ordered subscriber list in which duplicates are allowed;
  - a tick that hands the newest sample to every subscriber, each inside its own try/catch.
- **System monitor** (`SystemMonitorModule`):
  - four fixed metrics (cpu, memory, network, storage), each with a current reading and a history of at most 100 points;
  - threshold alerting into a log of at most 50 alerts, at critical severity when a reading is more than 10 above its threshold;
  - alert acknowledgement;
  - the system status: overall health bucket, trend over the last five points, and unacknowledged-alert count;
  - a time-windowed performance report with its recommendations.
- **Path planner** (`PathPlanningModule`):
  - waypoint and no-fly-zone lists;
  - the four intermediate points of a straight route;
  - the inclusive bounds test;
  - the start/end-point conflict check.
- **Export module** (`DataExportModule`):
  - CSV and XML renderings;
  - export-history bookkeeping and the newest-first history sort.
- **Utilities** (`js/utils.js`):
  - the `EventBus` (`on`, `off`, `emit`, `once`);
  - `unique`, `chunk` and `paginate`;
  - `truncate`;
  - `clamp`, `calculatePercentage`, `average` and `median`;
  - the millisecond decomposition of `getTimeDifference`;
  - the five-check password score.
- **Chart logic** (`js/charts-visualization.js`):
  - the chart registry by canvas id;
  - the 50-point window of a real-time chart;
  - `hexToRgba` through `parseInt(…, 16)`;
  - the bar and gauge colour buckets;
  - `smoothData` and `calculateMovingAverage`.

The modelling choices are:

- **Numbers:**
  - JavaScript numbers are exact `real`s.
  - Instants are integer milliseconds.
  - Strings are sequences of UTF-16 code units.
- **Objects:** a plain object is an ordered list of properties (`Records`), in the order `Object.keys` reports.
- **Inputs instead of built-ins:**
  - `Math.random` readings, `Date.now()` ids and ISO timestamps are passed in.
  - Whether a callback throws is passed to a tick or an `emit` as the set of failing callbacks.
  - A `setInterval` handle is a positive integer that the caller supplies.
  - A ghost set `liveTimers` records the intervals still running.
- **Form of the model:**
  - Classes whose methods update fields in place (processor, monitor, planner, exporter, event bus, chart module) are Dafny classes with `modifies` clauses.
  - Loops of the source are `while` loops with invariants.
  - Pure computations are functions with lemmas.

The model follows the code as written:

- `startProcessing` and `startMonitoring` overwrite the stored handle without clearing the previous interval. A second start therefore leaves the first interval running after the stop; `RealTime.DoubleStartThenStop` states this. An idempotent start would avoid the leak; the code does not guard against a second start.

Module layout:

| module | contents |
|---|---|
| `Wrappers` | Option |
| `Js` | `slice`, `substring`, `indexOf`, `splice`, decimal rendering; `parseInt(s, 16)` after section 19.2.5 of ECMA-262 |
| `Records` | JavaScript objects |
| `Window` | the push-then-shift bounded list shared by the buffer, the histories, the alert log and the chart window |
| `Numeric` | sum, mean, min, max and ascending sort of numbers |
| `RealTime`, `Monitor`, `PathPlanning`, `DataExport` | one module per class of `js/advanced-features.js` |
| `ArrayUtils`, `StringUtils`, `MathUtils`, `DateTimeUtils`, `ValidationUtils`, `EventBus` | the named classes of `js/utils.js` |
| `Charts`, `DataProcessor` | `js/charts-visualization.js` |

## Model

| member | source | states |
|---|---|---|
| Window.PushBoundedSpec | js/advanced-features.js:28-38 | `PushBounded`: one push-then-shift keeps a list within capacity, puts the new item last, and on overflow removes exactly the oldest item; the result is the newest `cap` items |
| Window.PushAllKeepsNewest | js/advanced-features.js:511-525 | any run of bounded pushes into a list within capacity leaves exactly the newest `cap` items of all ever pushed |
| Window.FillFromEmpty | js/advanced-features.js:28-38 | from an empty buffer, `n > cap` pushes leave exactly the last `cap` items, and the first one pushed is gone unless it recurs later |
| Window.PushAllAppend | js/advanced-features.js:493-525 | pushing `xs` and then `ys` equals pushing `xs + ys` |
| RealTime.Stamped | js/advanced-features.js:29-32 | the stored sample has `timestamp` set to the given stamp and every other property as in the producer's object |
| RealTime.RemoveFirst | js/advanced-features.js:62-67 | unsubscribing splices out the first occurrence only (multiset minus one), or leaves the list when the callback is absent |
| RealTime.RealTimeDataProcessor.constructor | js/advanced-features.js:5-10 | empty buffer, capacity 1000, no interval, no subscribers |
| RealTime.RealTimeDataProcessor.StartProcessing | js/advanced-features.js:13-17 | the new handle overwrites the stored one, and the earlier interval stays live; buffer and subscribers are unchanged |
| RealTime.RealTimeDataProcessor.StopProcessing | js/advanced-features.js:20-25 | clears the stored interval when there is one, and otherwise does nothing |
| RealTime.RealTimeDataProcessor.AddData | js/advanced-features.js:28-38 | buffer is the bounded push of the stamped sample: length at most 1000, sample last, the oldest evicted exactly when full; nothing else changes |
| RealTime.RealTimeDataProcessor.ProcessData | js/advanced-features.js:41-54 | empty buffer: no calls; otherwise one call per subscriber in list order with the newest sample, a throwing one recorded and the rest still called; state unchanged |
| RealTime.RealTimeDataProcessor.Subscribe | js/advanced-features.js:57-59 | appends the callback, keeping duplicates |
| RealTime.RealTimeDataProcessor.Unsubscribe | js/advanced-features.js:62-67 | subscriber list becomes `RemoveFirst` of the old one |
| RealTime.RealTimeDataProcessor.GetStatistics | js/advanced-features.js:70-76 | buffer size (at most the capacity), subscriber count, and processing iff a handle is stored |
| RealTime.UnsubscribeRemovesOnlyFirst | js/advanced-features.js:57-67 | subscribing twice and unsubscribing once leaves one registration |
| RealTime.DoubleStartThenStop | js/advanced-features.js:13-25 | after two starts and one stop the processor reports not processing while the first interval is still live |
| RealTime.FanOutIsolatesFailures | js/advanced-features.js:41-54 | with three subscribers and the middle one throwing, all three are called in order with the newest sample |
| Monitor.ThresholdAlertsSpec | js/advanced-features.js:493-525 | `ThresholdAlerts`: an alert is created for a metric iff its reading is above its threshold; alerts come in key order; severity is critical iff the reading exceeds threshold + 10; new alerts are unacknowledged and record reading and threshold |
| Monitor.ThresholdAlertsFresh | js/advanced-features.js:493-525 | every created alert is about a checked metric whose reading is above its threshold, with the right severity and unacknowledged |
| Monitor.ThresholdAlertPresent | js/advanced-features.js:494-497 | a checked metric above its threshold has an alert |
| Monitor.ThresholdAlertsOrdered | js/advanced-features.js:494 | alerts follow the key order of the thresholds object |
| Monitor.AllMetricsInOrder | js/advanced-features.js:417-431 | the key order is cpu, memory, network, storage, and every metric is in it |
| Monitor.TrendSpec | js/advanced-features.js:558-569 | `CalculateTrend`: fewer than 2 points: stable; otherwise first and last of the last at most 5 points: increasing iff more than 10% up, decreasing iff more than 10% down (reversed for a negative first value); a first value of 0 follows the sign of the last value |
| Monitor.PercentChange | js/advanced-features.js:563-567 | the percentage test `(last - first) / first * 100` compared with ±10 is `last` compared with `1.1 * first` and `0.9 * first`, by the sign of `first` |
| Monitor.TrendExamples | js/advanced-features.js:558-569 | flat, +20% and -40% histories classify as stable, increasing and decreasing |
| Monitor.HealthMonotone | js/advanced-features.js:547-555 | `HealthBucket`: a higher average never gives a better health bucket |
| Monitor.OverallHealthExtremes | js/advanced-features.js:547-555 | `OverallHealth`: all readings below 50 give excellent, and all readings at or above 85 give poor |
| Monitor.ActiveAlerts | js/advanced-features.js:541 | the active-alert count is the number of positions holding an unacknowledged alert |
| Monitor.FindAlert | js/advanced-features.js:578 | none iff no alert has the id; otherwise the first position with that id |
| Monitor.AcknowledgeSpec | js/advanced-features.js:577-583 | marks only the first alert with the id, stamping the time, and leaves every other alert unchanged; an unknown id is a no-op; the active count drops by one exactly when that alert was unacknowledged |
| Monitor.Currents | js/advanced-features.js:548 | the current readings in key order |
| Monitor.LookbackMs | js/advanced-features.js:590-601 | 1h, 7d, and 24h for "24h" and for any unknown range |
| Monitor.InWindow | js/advanced-features.js:614-616 | a point is in the window iff it is in the history at or after the start time; the window is no longer than the history |
| Monitor.InWindowMultiset | js/advanced-features.js:614-616 | the window holds each point at or after the start time exactly as often as the history does, and no other point |
| Monitor.InWindowCount | js/advanced-features.js:614-616 | the window's length is the number of history positions at or after the start time |
| Monitor.StatsOfSpec | js/advanced-features.js:613-628 | `StatsOf`: statistics exist iff some point is at or after the start; `dataPoints` is then the number of history positions at or after the start, the average is the mean of the values of the window (its points, with multiplicity, by `Monitor.InWindowMultiset`), min and max are window values bounding all of them, and `current` is the current reading |
| Monitor.ReportMetricsSpec | js/advanced-features.js:613-628 | `ReportMetrics`: a metric has a report entry iff one of its points lies in the window, and every entry describes its window |
| Monitor.ReportMetricsOrdered | js/advanced-features.js:613 | report entries follow the metrics' key order |
| Monitor.RecommendationsHighSpec | js/advanced-features.js:637-649 | `Recommendations`: a high-priority recommendation exists for a metric iff an entry's average is above that metric's threshold; high priority iff performance kind |
| Monitor.RecommendationsMediumSpec | js/advanced-features.js:650-657 | `Recommendations`: a medium-priority recommendation exists for a metric iff an entry's maximum is above 95 |
| Monitor.RecommendationsOrderedSpec | js/advanced-features.js:637-661 | `Recommendations`: recommendations follow metric order, high before medium for the same metric |
| Monitor.RecommendationOrigin | js/advanced-features.js:640-658 | every recommendation comes from some report entry |
| Monitor.RecommendationPresent | js/advanced-features.js:640-658 | every recommendation of an entry is in the final list |
| Monitor.CollectedSpec | js/advanced-features.js:450-486 | `Collected`: push-then-trim of a history within capacity stays within 100, ends with the new point, and loses its oldest point exactly when full |
| Monitor.PerformanceReportSpec | js/advanced-features.js:586-634 | over all four metrics: entry iff a point is in the window, entries describe their windows, and entries and recommendations keep key order |
| Monitor.SystemMonitorModule.constructor | js/advanced-features.js:417-432 | every metric is 0 with an empty history; thresholds 80/85/90/95; no alerts, no interval |
| Monitor.SystemMonitorModule.StartMonitoring | js/advanced-features.js:435-439 | the handle overwrites the stored one, and the previous interval stays live |
| Monitor.SystemMonitorModule.StopMonitoring | js/advanced-features.js:442-447 | clears the stored interval, if any |
| Monitor.SystemMonitorModule.Record | js/advanced-features.js:454-479 | one metric takes the reading as current, with `{value, now}` appended to its history |
| Monitor.SystemMonitorModule.Trim | js/advanced-features.js:483-485 | one metric drops its oldest point when over 100 |
| Monitor.SystemMonitorModule.TrimHistories | js/advanced-features.js:482-486 | every metric is trimmed; nothing else changes |
| Monitor.SystemMonitorModule.CollectMetrics | js/advanced-features.js:450-490 | each metric's current is its reading and its history the bounded push of the new point; the alert log is the newest 50 of the old log plus the threshold alerts for the new readings |
| Monitor.SystemMonitorModule.CheckAlertThresholds | js/advanced-features.js:493-508 | the alert log is the bounded push of the threshold alerts, in key order, and so is the newest 50; the metrics are unchanged |
| Monitor.SystemMonitorModule.CreateAlert | js/advanced-features.js:511-525 | pushes a new unacknowledged alert stamped `now` into the log of at most 50, evicting the oldest |
| Monitor.SystemMonitorModule.AcknowledgeAlert | js/advanced-features.js:577-583 | the log becomes `Acknowledged(old log, id, at)`, of the same length |
| Monitor.SystemMonitorModule.GetSystemStatus | js/advanced-features.js:528-544 | per metric: current, trend of its history, and warning iff above threshold; active count is the unacknowledged count; overall is the bucket of the mean reading |
| Monitor.SystemMonitorModule.GetPerformanceReport | js/advanced-features.js:586-634 | the range defaults to `"24h"`; window start is `now - LookbackMs(range)`; entries per metric in key order; recommendations from those entries against the thresholds |
| PathPlanning.DefaultNameInjective | js/advanced-features.js:94 | distinct list lengths give distinct default names |
| PathPlanning.IndexOfId | js/advanced-features.js:103 | -1 iff no waypoint has the id, and otherwise the first position with it |
| PathPlanning.PointInBoundsSpec | js/advanced-features.js:212-215 | `PointInBounds`: the box is closed (its corners are inside), a point beyond any side is outside, and an inverted box holds nothing |
| PathPlanning.ConflictingMembers | js/advanced-features.js:191-209 | `Conflicting`: an obstacle is in the conflict list iff it is an obstacle containing the route's start or end point |
| PathPlanning.ConflictingCounts | js/advanced-features.js:191-201 | a conflicting obstacle occurs as often as in the obstacle list, others not at all |
| PathPlanning.ConflictingOrder | js/advanced-features.js:194-198 | the conflict list is a subsequence of the obstacle list, in its order |
| PathPlanning.LerpBetween | js/advanced-features.js:162-164 | a ratio in 0..1 gives a coordinate between the two ends |
| PathPlanning.PathPlanningModule.constructor | js/advanced-features.js:81-85 | no waypoints and no obstacles |
| PathPlanning.PathPlanningModule.AddWaypoint | js/advanced-features.js:88-99 | appends and returns the waypoint; an empty name becomes the default name for length + 1 |
| PathPlanning.PathPlanningModule.RemoveWaypoint | js/advanced-features.js:102-109 | true iff some waypoint has the id, and then the first one is spliced out; otherwise the list is unchanged |
| PathPlanning.PathPlanningModule.AddObstacle | js/advanced-features.js:178-188 | appends and returns the obstacle with its defaults |
| PathPlanning.PathPlanningModule.CheckRouteConflicts | js/advanced-features.js:191-201 | returns exactly the obstacles, in list order, containing the start or end point |
| PathPlanning.PathPlanningModule.GetIntermediateWaypoints | js/advanced-features.js:157-175 | exactly four points at i/5 of the line, numbered 1..4, at altitude 100, each between the ends in both coordinates |
| DataExport.FieldRoundTrip | js/advanced-features.js:366-369 | any text written as a CSV field (quoted and doubled when it holds `,`, newline or `"`) reads back as itself |
| DataExport.RecordRoundTrip | js/advanced-features.js:364-371 | a line of written fields reads back as the texts |
| DataExport.DocumentRoundTrip | js/advanced-features.js:374 | lines of written fields joined by newlines read back as the rows |
| DataExport.ConvertToCSVQuotedRoundTrip | js/advanced-features.js:357-375 | `ConvertToCSVQuoted`: with every field quoted as needed, the CSV reads back as the first row's keys followed by each row's texts under those keys |
| DataExport.ConvertToCSVAgrees | js/advanced-features.js:357-375 | `ConvertToCSV`: when no header and no non-string value needs quotes, `convertToCSV` writes what the fully quoting writer writes |
| DataExport.ConvertToCSVRoundTrip | js/advanced-features.js:357-375 | `ConvertToCSV`: under that condition `convertToCSV` round-trips: header line, then one line of texts per row |
| DataExport.ConvertToCSVEmpty | js/advanced-features.js:358 | no rows give the empty text |
| DataExport.ArrayValueSplitsLine | js/advanced-features.js:365-370 | an array value `[1,2]` is written unquoted as `1,2` and reads back as two fields; the quoting writer keeps it whole |
| DataExport.RecordBlocksNumbered | js/advanced-features.js:391-397 | `RecordBlocks`: the data section is one block per row, the k-th with id k + 1, in row order |
| DataExport.RecordIdsDistinct | js/advanced-features.js:392 | different positions get different record tags |
| DataExport.XmlUnescaped | js/advanced-features.js:391-397 | `XmlDocument`: with no escaping, one row whose value holds markup renders the same as two rows |
| DataExport.AppendElements | js/advanced-features.js:393-395 | the entries loop appends the element lines of an object |
| DataExport.AppendRecord | js/advanced-features.js:392-396 | one iteration appends the numbered record block |
| DataExport.AppendRecords | js/advanced-features.js:391-397 | the data loop appends one block per row, numbered from 1 |
| DataExport.ConvertToXML | js/advanced-features.js:378-402 | the document built line by line is `XmlDocument(d)`: prolog, metadata elements, numbered record blocks |
| DataExport.InsertPermutes | js/advanced-features.js:406 | inserting adds exactly the new entry |
| DataExport.NewestFirstSpec | js/advanced-features.js:405-407 | `NewestFirst`: the history sort is newest first, a permutation, and stable for equal timestamps |
| DataExport.DataExportModule.constructor | js/advanced-features.js:220-223 | the four formats and an empty history |
| DataExport.DataExportModule.ProcessExport | js/advanced-features.js:281-354 | appends the record (name with the ISO date, format, row count, size); success and completed iff the format is json, csv or xml, failed otherwise |
| DataExport.DataExportModule.GetExportHistory | js/advanced-features.js:405-407 | sorts the history in place newest first (a stable permutation) and returns it |
| DataExport.DataExportModule.ClearExportHistory | js/advanced-features.js:410-412 | the history becomes empty |
| DateTimeUtils.GetTimeDifference | js/utils.js:25-36 | totalMs = abs(end - start); hours < 24, minutes < 60, seconds < 60; the parts account for every whole second |
| DateTimeUtils.TimeDifferenceSymmetric | js/utils.js:25-36 | the order of the two instants does not matter |
| DateTimeUtils.DecompositionUnique | js/utils.js:30-35 | any in-range breakdown of the distance is the one returned |
| MathUtils.Clamp | js/utils.js:196-198 | with min <= max the result is in [min, max], and equals the value when it is inside; otherwise it is max |
| MathUtils.ClampIdempotent | js/utils.js:196-198 | clamping twice is clamping once, and the value is kept iff it is in range |
| MathUtils.ClampMonotone | js/utils.js:196-198 | clamping preserves order |
| MathUtils.CalculatePercentage | js/utils.js:161-164 | 0 for a total of 0; otherwise result x total = value x 100 |
| MathUtils.PercentageOfPart | js/utils.js:161-164 | a part of a positive whole is 0..100 percent of it, and the whole is 100 |
| MathUtils.Average | js/utils.js:167-170 | 0 for an empty list; otherwise result x length = sum |
| MathUtils.AverageBetween | js/utils.js:167-170 | a non-empty average is the mean and lies between the minimum and the maximum |
| MathUtils.Median | js/utils.js:173-181 | NaN (`None`) iff the list is empty |
| MathUtils.MedianOfSorted | js/utils.js:173-181 | for any ascending arrangement of the numbers, the median is its middle element for an odd count and the mean of its two middle elements for an even count |
| MathUtils.MiddleBetween | js/utils.js:175-180 | in an ascending list the pick lies between the two middle elements, and is the middle one for an odd count |
| MathUtils.MedianBetween | js/utils.js:173-181 | the median lies between min and max, and is an element for an odd count |
| MathUtils.MedianPermutation | js/utils.js:173-181 | the median does not depend on the input order |
| MathUtils.MedianSplits | js/utils.js:173-181 | half of the sorted copy is at most the median, and half at least it |
| Numeric.SortAsc | js/utils.js:174 | the sorted copy is ascending and a permutation |
| Numeric.SortedPermutationsEqual | js/utils.js:174 | sorting has only one possible answer |
| Numeric.MeanBetween | js/utils.js:167-170 | a mean lies between the minimum and the maximum |
| StringUtils.Truncate | js/utils.js:223-226 | unchanged when it fits; otherwise ends with the suffix after a prefix of the text, has length maxLength when the suffix fits, and is the suffix alone when it does not |
| StringUtils.TruncateFits | js/utils.js:223-226 | with the suffix within the limit the result fits, truncating again changes nothing, and a cut text keeps exactly its first `maxLength - |suffix|` characters |
| StringUtils.TruncateOverlongSuffix | js/utils.js:225 | a suffix longer than the limit gives a result longer than the limit |
| ArrayUtils.Unique | js/utils.js:276-278 | no duplicates, exactly the elements of the input, and no longer |
| ArrayUtils.UniqueFirstOccurrences | js/utils.js:276-278 | elements come in the order of their first occurrences |
| ArrayUtils.UniqueOfDistinct | js/utils.js:276-278 | a duplicate-free list is its own `unique` |
| ArrayUtils.UniqueIdempotent | js/utils.js:276-278 | `unique` is idempotent |
| ArrayUtils.Chunk | js/utils.js:281-287 | the chunks concatenate to the input, every chunk but the last has `size` elements, and the last has 1..size; none for an empty input, whatever the size |
| ArrayUtils.CeilDiv | js/utils.js:349 | `Math.ceil(n / d)`: for d > 0 the least q with n <= q x d; for d < 0 the q with q x d <= n < (q - 1) x d |
| ArrayUtils.Paginate | js/utils.js:343-354 | for a positive size: data is the slice `[min(start,n), min(page*pageSize,n))` on page >= 1, empty on page 0, and the slice counted back from the end, `[max(n+start,0), max(n+page*pageSize,0))`, on a negative page; for a negative size: all but the last `-pageSize` items on page 1 and empty elsewhere; totalPages is the ceiling of length / pageSize for either sign; hasNext iff `page*pageSize` < length; hasPrev iff page > 1; totalItems = length |
| ArrayUtils.PaginateSpec | js/utils.js:343-354 | pages 1..totalPages are exactly the non-empty ones, all full but the last, and hasNext iff page < totalPages |
| ArrayUtils.PagesAdjacent | js/utils.js:344-345 | consecutive pages laid end to end are one slice of the array |
| ValidationUtils.RunChecks | js/utils.js:710-716 | each check holds iff the password has that length or that class of character |
| ValidationUtils.Score | js/utils.js:718 | the number of passed checks, 0..5, with 0 iff none passes and 5 iff all pass |
| ValidationUtils.CheckPasswordStrength | js/utils.js:709-725 | strong iff score >= 4, medium iff the score is 3, weak iff score <= 2 |
| ValidationUtils.ExtensionNeverWeakens | js/utils.js:709-725 | appending characters never lowers the score or the verdict |
| ValidationUtils.WeakExample | js/utils.js:709-725 | "abc" scores 1 and is weak |
| ValidationUtils.StrongExample | js/utils.js:709-725 | "Abcdefg1!" scores 5 and is strong |
| EventBus.Removing | js/utils.js:788 | keeps order and drops every registration of a removed function |
| EventBus.RemovingCounts | js/utils.js:788 | every function not removed keeps all its registrations |
| EventBus.RemovingTwice | js/utils.js:784-792 | two removals compose into one |
| EventBus.Bus.constructor | js/utils.js:771-773 | no events |
| EventBus.Bus.Handlers | js/utils.js:796 | the list for an event, or none when it has no list |
| EventBus.Bus.On | js/utils.js:776-781 | the event's list, created if missing, gets the callback appended |
| EventBus.Bus.Off | js/utils.js:784-792 | unknown event: no change; with a callback: every registration of it removed and the list kept; without one: the event is forgotten |
| EventBus.Bus.Emit | js/utils.js:795-805 | unknown event: no calls and no change; otherwise one call per registered function in order, a throwing one recorded and the rest still called; exactly the `once` wrappers whose callback returned are removed |
| EventBus.Bus.Run | js/utils.js:798-812 | one step: the call, and the self-removal of a `once` wrapper whose callback returned |
| EventBus.Bus.Once | js/utils.js:808-814 | appends a fresh wrapper around the callback |
| EventBus.EmitLeaves | js/utils.js:795-814 | after an emit a function is registered as often as before, unless it is a `once` wrapper whose callback returned, which is gone |
| EventBus.OffRemovesAll | js/utils.js:784-792 | `off(e, cb)` removes every registration of cb and keeps the others |
| EventBus.OnTwiceOffOnce | js/utils.js:776-805 | on twice then off once leaves nothing to call |
| EventBus.OnceRunsOnce | js/utils.js:795-814 | a `once` registration runs on the first emit only, even after a failing callback before it |
| Charts.BarColor | js/charts-visualization.js:173-178 | secondary iff progress > 80, primary iff 50 < progress <= 80, warning iff 20 < progress <= 50, danger otherwise |
| Charts.GaugeColor | js/charts-visualization.js:549-551 | danger iff value > 80, warning iff 60 < value <= 80, secondary otherwise |
| Charts.ColorsMonotone | js/charts-visualization.js:173-178 | more progress never gives a worse bar colour, and a higher gauge value never a calmer one |
| Charts.PairParses | js/charts-visualization.js:438 | two hexadecimal digits parse to their value |
| Charts.SlicedPair | js/charts-visualization.js:438-440 | the two-character slice from position i parses to the value of those digits |
| Charts.WellFormedPairs | js/charts-visualization.js:438-440 | for `#rrggbb` all three slices parse to their digit-pair values |
| Charts.HexToRgba | js/charts-visualization.js:437-442 | for `#rrggbb` the components are the values 0..255 of the three digit pairs; alpha is passed through |
| Charts.RgbToHex | js/charts-visualization.js:5-10 | a colour with components 0..255 is spelt as a well-formed `#rrggbb` |
| Charts.HexRoundTrip | js/charts-visualization.js:437-442 | `hexToRgba` reads back exactly the components a `#rrggbb` colour was written from |
| Charts.DangerComponents | js/charts-visualization.js:10 | the danger colour is rgb(255, 68, 68) |
| Charts.SecondaryComponents | js/charts-visualization.js:8 | the secondary colour is rgb(0, 255, 136) |
| Charts.ShortHexGivesNaN | js/charts-visualization.js:437-442 | `#fff` gives 255 and 15, and NaN for blue |
| Charts.ForgetChart | js/charts-visualization.js:491 | deleting a key keeps the registry well formed, with the key order minus that id |
| Charts.ChartVisualizationModule.constructor | js/charts-visualization.js:5 | an empty registry |
| Charts.ChartVisualizationModule.RegisterChart | js/charts-visualization.js:118 | `charts.set`: the chart is stored under the id, a replaced chart is not destroyed, and a new id goes last in key order |
| Charts.ChartVisualizationModule.AddRealTimeData | js/charts-visualization.js:468-484 | unknown id: no change; otherwise labels get the bounded push (50); data is pushed and then shifted whenever the labels are; nothing else changes |
| Charts.ChartVisualizationModule.DestroyChart | js/charts-visualization.js:487-493 | unknown id: no change; otherwise that chart is destroyed and removed, and every other entry is kept |
| Charts.ChartVisualizationModule.DestroyAllCharts | js/charts-visualization.js:496-499 | every chart is destroyed in key order, and the registry ends empty |
| Charts.RealTimeWindowStaysParallel | js/charts-visualization.js:468-484 | equal-length arrays within 50 stay equal-length within 50, with the new timestamp and value last |
| Charts.DestroyOneKeepsOthers | js/charts-visualization.js:487-493 | destroying one chart leaves another registered chart in place |
| DataProcessor.SmoothData | js/charts-visualization.js:602-612 | same length; element i is the mean of `data[max(0, i - floor(w/2)) .. min(n, i + ceil(w/2)))`, a non-empty window |
| DataProcessor.SmoothedBetween | js/charts-visualization.js:602-612 | each smoothed value lies between its window's extremes, hence the series' |
| DataProcessor.SmoothingConstant | js/charts-visualization.js:602-612 | smoothing leaves a constant series as it is |
| DataProcessor.CalculateMovingAverage | js/charts-visualization.js:615-623 | `max(0, n - period + 1)` values, the k-th the mean of `data[k .. k + period)` |
| DataProcessor.MovingAverageBetween | js/charts-visualization.js:615-623 | each value lies between its window's min and max |
| DataProcessor.MovingAveragePeriodOne | js/charts-visualization.js:615-623 | with period 1 the averages are the series |
| DataProcessor.MovingSumStep | js/charts-visualization.js:617-619 | moving from one window to the next adds the value coming in and subtracts the value going out |
| Js.IndexOf | js/advanced-features.js:63 | -1 iff absent, and otherwise the first position |
| Js.ParseIntHex | js/charts-visualization.js:438-440 | `parseInt(s, 16)`: a non-empty string of hex digits gives its value, and the empty string gives NaN |
| Records.PutGetSame | js/advanced-features.js:29-32 | after a spread with a property, reading that property gives the new value |
| Records.PutGetOther | js/advanced-features.js:29-32 | the spread leaves every other property as it was |

## Left out

- `calculateRoute`, `calculateDistance` (haversine) and `estimateFlightTime`: trigonometry and floating point. `getIntermediateWaypoints` is modelled on its own.
- `calculateUptime` returns a constant string, and `GetSystemStatus` omits it.
- The message strings of alerts and recommendations. They depend on `toFixed` and `toUpperCase`, so alerts and recommendations keep only their structured fields.
- Floating point in general:
  - numbers are exact reals, with no rounding, `NaN` or `Infinity`;
  - the exceptions are the trend's division by a first value of 0, `median([])` and the `NaN` of `parseInt`, which are modelled as outcomes.
- `processExport`:
  - The Blob, object URL and download-link work is not modelled.
  - The JSON text is left out: its length is the `size` parameter, and the JSON export content is not produced.
  - `exportDeviceData`, `exportTaskData` and `exportHistoryData` only build the input, so they are left out.
- `startProcessing`/`startMonitoring`: the timer itself is not modelled. A tick is an explicit call of `ProcessData` or `CollectMetrics`; no 1-second or 5-second schedule is modelled.
- Callbacks' side effects are not modelled:
  - a callback that subscribes, unsubscribes or emits during a tick or an `emit`;
  - anything a callback does besides returning or throwing.
- Chart.js configuration, `new Chart` and `chart.update`: a chart is a value with its labels, its first dataset and an identity. Two registry entries that alias one chart object are not modelled.
- `updateChart`, `getChartStatistics`, `estimateMemoryUsage`, `exportChartAsImage`, `normalizeData`, `detectOutliers` and `aggregateTimeSeriesData` are outside the modelled core.
- Charts.HexToRgba: the `rgba(...)` text and the formatting of alpha are not produced; the contract is on the components.
- Property order for integer-like keys, which JavaScript lists first in ascending order: `Records` keeps insertion order only.
- EventBus.Bus.On: event names that are properties of `Object.prototype`, such as `"constructor"`, are not modelled; event names are plain map keys.
- Non-BMP characters: a string is a sequence of UTF-16 code units, one `char` each.
- ArrayUtils.Paginate: requires a non-zero page size. Size 0 yields `Infinity` or `NaN` page counts, outside the modelled numbers.
- ArrayUtils.Chunk: requires size > 0 for a non-empty array, on which the source's loop does not terminate otherwise. An empty array gives no chunks for any size.
- DataProcessor.SmoothData: requires a window size of at least 1. Sizes 0 and -1 give empty windows and `NaN` at every position; at -2 and below the first positions get windows whose negative end counts back from the end of the array (size -2 on [1, 2, 3] gives [2, NaN, NaN]).
- DataProcessor.CalculateMovingAverage: requires period >= 1. With period 0 the windows are empty and every average is `NaN`. A negative period starts the loop at `period - 1`, so there are `n - period + 1` values; each sum is divided by the period itself, and the windows are empty except where a negative slice end counts back from the end of the array (period -1 on [1, 2, 3] gives [-3, -0, -0, -0, -0]).
- StringUtils.Truncate: with a suffix longer than `maxLength`, the result exceeds `maxLength`. The contract states this instead of a length bound.
- Monitor.SystemMonitorModule.GetPerformanceReport: the report's `generatedAt` is the integer `now`, not its ISO text.

## Findings

| source | as written | input that shows it | evidently intended | confidence | as-written member | corrected member |
|---|---|---|---|---|---|---|
| js/advanced-features.js:364-370 | only string cells are checked for `,`, newline and `"`; headers and non-string values (arrays, objects with such a `toString`) are written unquoted | a row `{tags: [1, 2]}` writes the line `1,2`, which reads back as two fields under one header | every field whose text needs quoting is quoted, so the document reads back as the header line and each row's texts | not executed | DataExport.ArrayValueSplitsLine | DataExport.ConvertToCSVQuotedRoundTrip |
