/**
 * The duration a task record derives from its two timestamps
 * (TodoModel.calculate_working_minutes).
 *
 * A timestamp is a whole number of seconds of naive local time. The source
 * renders the duration as the text "<value> hours" or "<value> minutes"; here
 * the same information is kept as a pair of an exact value and its unit.
 */
module Durations {
  import opened Wrappers

  /** Seconds from which a duration is reported in hours rather than minutes. */
  const HourThreshold: int := 3600

  datatype Unit = Hours | Minutes

  datatype Duration = Duration(value: real, unit: Unit)

  /**
   * How the summaries read a stored duration back: an hours value is
   * multiplied by 60, a minutes value is taken as it is.
   */
  function InMinutes(d: Duration): (m: real)
    ensures d.unit == Minutes ==> m == d.value
    ensures d.unit == Hours ==> m == d.value * 60.0
  {
    match d.unit
    case Hours => d.value * 60.0
    case Minutes => d.value
  }

  /**
   * The duration of the span from `start` to `end`: absent unless both
   * timestamps are present; in hours when at least an hour elapsed, in
   * minutes otherwise. A negative span is not rejected: it is reported in
   * minutes with a negative value.
   */
  function WorkingDuration(start: Option<int>, end: Option<int>): (r: Option<Duration>)
    ensures r.Some? <==> start.Some? && end.Some?
    ensures r.Some? ==> (r.value.unit == Hours <==> end.value - start.value >= HourThreshold)
    ensures r.Some? ==> InMinutes(r.value) * 60.0 == (end.value - start.value) as real
    ensures r.Some? ==> (r.value.value < 0.0 <==> end.value < start.value)
  {
    if start.Some? && end.Some? then
      var totalSeconds := end.value - start.value;
      if totalSeconds >= HourThreshold then
        Some(Duration(totalSeconds as real / 3600.0, Hours))
      else
        Some(Duration(totalSeconds as real / 60.0, Minutes))
    else
      None
  }

  /**
   * The duration determines the span it was derived from: two spans give
   * the same duration exactly when they have the same length.
   */
  lemma WorkingDurationDeterminesSpan(s1: int, e1: int, s2: int, e2: int)
    ensures WorkingDuration(Some(s1), Some(e1)) == WorkingDuration(Some(s2), Some(e2))
            <==> e1 - s1 == e2 - s2
  {
  }
}
