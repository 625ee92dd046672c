/**
 * `DateTimeUtils.getTimeDifference` (js/utils.js): the distance between two instants,
 * broken into whole days, hours, minutes and seconds. Instants are given as integer
 * milliseconds since the epoch, which is what `new Date(x)` holds and what the
 * subtraction `end - start` of two dates yields.
 */
module DateTimeUtils {

  const MsPerSecond := 1000
  const MsPerMinute := 60 * MsPerSecond
  const MsPerHour := 60 * MsPerMinute
  const MsPerDay := 24 * MsPerHour

  datatype TimeDifference = TimeDifference(days: nat, hours: nat, minutes: nat, seconds: nat, totalMs: nat)

  function Abs(x: int): nat { if x < 0 then -x else x }

  /** The milliseconds the whole days, hours, minutes and seconds of `d` add up to. */
  function Composed(d: TimeDifference): nat
  {
    d.days * MsPerDay + d.hours * MsPerHour + d.minutes * MsPerMinute + d.seconds * MsPerSecond
  }

  /** The decomposition is in range and accounts for every whole second of the distance. */
  predicate IsDecomposition(d: TimeDifference)
  {
    d.hours < 24 && d.minutes < 60 && d.seconds < 60 &&
    Composed(d) <= d.totalMs < Composed(d) + MsPerSecond
  }

  /**
   * `getTimeDifference(startDate, endDate)`. Every quantity is non-negative, so the
   * source's `Math.floor(x / y)` and `%` agree with Dafny's `/` and `%` here.
   */
  function GetTimeDifference(start: int, end: int): (d: TimeDifference)
    ensures d.totalMs == Abs(end - start)
    ensures IsDecomposition(d)
  {
    var diffMs := Abs(end - start);
    DecomposeFacts(diffMs);
    TimeDifference(
      diffMs / MsPerDay,
      (diffMs % MsPerDay) / MsPerHour,
      (diffMs % MsPerHour) / MsPerMinute,
      (diffMs % MsPerMinute) / MsPerSecond,
      diffMs)
  }

  lemma DecomposeFacts(n: nat)
    ensures (n % MsPerDay) / MsPerHour < 24
    ensures (n % MsPerHour) / MsPerMinute < 60
    ensures (n % MsPerMinute) / MsPerSecond < 60
    ensures var c := n / MsPerDay * MsPerDay + (n % MsPerDay) / MsPerHour * MsPerHour
      + (n % MsPerHour) / MsPerMinute * MsPerMinute + (n % MsPerMinute) / MsPerSecond * MsPerSecond;
      c <= n < c + MsPerSecond
  {
    var a, b := n / MsPerDay, n % MsPerDay;
    var h, c := b / MsPerHour, b % MsPerHour;
    DivModUnique(n, a * 24 + h, c, MsPerHour);
    var mi, e := c / MsPerMinute, c % MsPerMinute;
    DivModUnique(n, (a * 24 + h) * 60 + mi, e, MsPerMinute);
  }

  /** The order of the two instants does not matter. */
  lemma TimeDifferenceSymmetric(a: int, b: int)
    ensures GetTimeDifference(a, b) == GetTimeDifference(b, a)
  {
  }

  lemma DivModUnique(n: int, q: int, r: int, m: int)
    requires m > 0 && 0 <= r < m && n == q * m + r
    ensures n / m == q && n % m == r
  {
    var q', r' := n / m, n % m;
    assert n == q' * m + r';
    if q' > q {
      MulMore(q' - q, m);
      assert false;
    } else if q' < q {
      MulMore(q - q', m);
      assert false;
    }
  }

  lemma MulMore(k: int, m: int)
    requires k >= 1 && m > 0
    ensures k * m >= m
  {
  }

  /**
   * There is only one such decomposition of a distance: any in-range breakdown of
   * `|end - start|` into days, hours, minutes and seconds is the one the source returns.
   */
  lemma DecompositionUnique(start: int, end: int, d: TimeDifference)
    requires d.totalMs == Abs(end - start)
    requires IsDecomposition(d)
    ensures d == GetTimeDifference(start, end)
  {
    var n := d.totalMs;
    var ms := n - Composed(d);
    var inSecond := d.seconds * MsPerSecond + ms;
    var inMinute := d.minutes * MsPerMinute + inSecond;
    var inHour := d.hours * MsPerHour + inMinute;
    assert n == d.days * MsPerDay + inHour;
    DivModUnique(n, d.days, inHour, MsPerDay);
    DivModUnique(inHour, d.hours, inMinute, MsPerHour);
    DivModUnique(n, d.days * 24 + d.hours, inMinute, MsPerHour);
    DivModUnique(inMinute, d.minutes, inSecond, MsPerMinute);
    DivModUnique(n, (d.days * 24 + d.hours) * 60 + d.minutes, inSecond, MsPerMinute);
    DivModUnique(inSecond, d.seconds, ms, MsPerSecond);
  }
}
