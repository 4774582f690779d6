/**
 * The daily and weekly work summaries (daily_summary, weekly_summary).
 *
 * A summary selects the rows whose start time falls on a day of a window,
 * adds up their durations in minutes (rows without a duration are
 * skipped), counts a total strictly between 0 and 1 minute as 1 minute,
 * truncates it to whole minutes as Python's int() does, and splits it into
 * hours and minutes with divmod by 60.
 *
 * Days are numbered from 1970-01-01 (day 0, a Thursday); the day of a
 * timestamp is its second count divided by 86400, rounded down.
 */
module Summaries {
  import opened Wrappers
  import opened Durations
  import opened Tasks

  const SecondsPerDay: int := 86400
  const MinutesPerHour: int := 60

  /** Python's weekday() numbering: Monday is 0, Sunday is 6. */
  const Sunday: int := 6

  /** A worked time as the summaries report it. */
  datatype Worked = Worked(hours: int, minutes: int)

  /** The weekly report also states the window it covers. */
  datatype WeeklyReport = WeeklyReport(weekStart: int, weekEnd: int, worked: Worked)

  /** The calendar day of a timestamp. */
  function DayOf(t: int): (d: int)
    ensures d * SecondsPerDay <= t < (d + 1) * SecondsPerDay
  {
    t / SecondsPerDay
  }

  /** The weekday of a day number; day 0 is a Thursday (3). */
  function Weekday(day: int): (w: int)
    ensures 0 <= w < 7
  {
    (day + 3) % 7
  }

  /**
   * The first day of the weekly window: today minus (weekday + 1) days. It
   * is a Sunday one to seven days back; seven exactly when today is itself
   * a Sunday, so today is never the window's first day.
   */
  function WeekStart(today: int): (r: int)
    ensures Weekday(r) == Sunday
    ensures 1 <= today - r <= 7
    ensures today - r == 7 <==> Weekday(today) == Sunday
  {
    var w := Weekday(today);
    assert (today + 3) - w == 7 * ((today + 3) / 7);
    today - (w + 1)
  }

  /** No Sunday lies strictly between the week start and today. */
  lemma WeekStartIsLatestSundayBefore(today: int, d: int)
    requires WeekStart(today) < d < today
    ensures Weekday(d) != Sunday
  {
  }

  /** The row's start time falls on a day from `first` to `last`; rows without one never do. */
  predicate InWindow(t: Task, first: int, last: int)
  {
    t.startTime.Some? && first <= DayOf(t.startTime.value) <= last
  }

  /**
   * The rows the date-range query returns: each row in the window as many
   * times as the table holds it, in table order (see SelectedAppend).
   */
  function Selected(rows: seq<Task>, first: int, last: int): (r: seq<Task>)
    ensures forall t :: t in r <==> t in rows && InWindow(t, first, last)
    ensures |r| <= |rows|
  {
    if rows == [] then []
    else if InWindow(rows[0], first, last) then [rows[0]] + Selected(rows[1..], first, last)
    else Selected(rows[1..], first, last)
  }

  /** Each row in the window is selected as many times as the table holds it; no other row is. */
  lemma {:induction false} SelectedCounts(rows: seq<Task>, first: int, last: int)
    ensures forall t :: multiset(Selected(rows, first, last))[t]
                        == if InWindow(t, first, last) then multiset(rows)[t] else 0
  {
    if rows != [] {
      assert rows == [rows[0]] + rows[1..];
      SelectedCounts(rows[1..], first, last);
    }
  }

  /** Selecting from a row followed by more rows: the row is kept in front when in the window. */
  lemma SelectedCons(t: Task, rest: seq<Task>, first: int, last: int)
    ensures Selected([t] + rest, first, last)
            == (if InWindow(t, first, last) then [t] else []) + Selected(rest, first, last)
  {
  }

  /** Selection keeps the table order: selecting from a concatenation concatenates the selections. */
  lemma {:induction false} SelectedAppend(a: seq<Task>, b: seq<Task>, first: int, last: int)
    ensures Selected(a + b, first, last) == Selected(a, first, last) + Selected(b, first, last)
  {
    if a == [] {
      assert a + b == b;
    } else {
      var t, tail := a[0], a[1..];
      assert a + b == [t] + (tail + b);
      assert a == [t] + tail;
      SelectedCons(t, tail + b, first, last);
      SelectedCons(t, tail, first, last);
      SelectedAppend(tail, b, first, last);
      var head := if InWindow(t, first, last) then [t] else [];
      var st, sb := Selected(tail, first, last), Selected(b, first, last);
      assert head + (st + sb) == (head + st) + sb;
    }
  }

  /** The sum of the rows' durations in minutes; rows without a duration add nothing. */
  function TotalMinutes(rows: seq<Task>): (r: real)
    ensures (forall t :: t in rows ==> t.duration.None?) ==> r == 0.0
  {
    if rows == [] then 0.0
    else
      (if rows[0].duration.Some? then InMinutes(rows[0].duration.value) else 0.0)
      + TotalMinutes(rows[1..])
  }

  /** Reference definition: the elapsed minutes of the rows that have both timestamps. */
  function ElapsedMinutes(rows: seq<Task>): real
  {
    if rows == [] then 0.0
    else
      (if rows[0].startTime.Some? && rows[0].endTime.Some?
       then (rows[0].endTime.value - rows[0].startTime.value) as real / 60.0
       else 0.0)
      + ElapsedMinutes(rows[1..])
  }

  /** The total of a concatenation is the sum of the totals. */
  lemma {:induction false} TotalMinutesAppend(a: seq<Task>, b: seq<Task>)
    ensures TotalMinutes(a + b) == TotalMinutes(a) + TotalMinutes(b)
  {
    if a != [] {
      assert (a + b)[1..] == a[1..] + b;
      TotalMinutesAppend(a[1..], b);
    } else {
      assert a + b == b;
    }
  }

  /** A row without a duration does not change the total. */
  lemma UntimedRowAddsNothing(rows: seq<Task>, t: Task)
    requires t.duration.None?
    ensures TotalMinutes(rows + [t]) == TotalMinutes(rows)
  {
    TotalMinutesAppend(rows, [t]);
    assert TotalMinutes([t]) == 0.0 + TotalMinutes([]);
  }

  /**
   * When every row's duration is the one its timestamps give, the summed
   * durations are exactly the elapsed minutes: reading an hours value back
   * times 60 undoes the choice of unit.
   */
  lemma {:induction false} TotalMinutesOfConsistentRows(rows: seq<Task>)
    requires forall t :: t in rows ==> DurationConsistent(t)
    ensures TotalMinutes(rows) == ElapsedMinutes(rows)
  {
    if rows != [] {
      assert rows[0] in rows;
      var t := rows[0];
      if t.duration.Some? {
        assert InMinutes(t.duration.value) * 60.0 == (t.endTime.value - t.startTime.value) as real;
      }
      assert forall u :: u in rows[1..] ==> u in rows;
      TotalMinutesOfConsistentRows(rows[1..]);
    }
  }

  /** A row whose duration is not negative. */
  predicate NonNegative(t: Task)
  {
    t.duration.None? || t.duration.value.value >= 0.0
  }

  lemma {:induction false} TotalMinutesNonNegative(rows: seq<Task>)
    requires forall t :: t in rows ==> NonNegative(t)
    ensures TotalMinutes(rows) >= 0.0
  {
    if rows != [] {
      assert rows[0] in rows;
      assert forall u :: u in rows[1..] ==> u in rows;
      TotalMinutesNonNegative(rows[1..]);
    }
  }

  /**
   * With no negative durations, a wider window never sums to less: the
   * rows of [first, last] are among those of [first', last].
   */
  lemma {:induction false} WiderWindowSumsMore(rows: seq<Task>, first: int, first': int, last: int)
    requires first' <= first
    requires forall t :: t in rows ==> NonNegative(t)
    ensures TotalMinutes(Selected(rows, first, last)) <= TotalMinutes(Selected(rows, first', last))
  {
    if rows != [] {
      var t := rows[0];
      assert t in rows;
      assert forall u :: u in rows[1..] ==> u in rows;
      WiderWindowSumsMore(rows[1..], first, first', last);
      var rest := Selected(rows[1..], first', last);
      if InWindow(t, first', last) && !InWindow(t, first, last) {
        assert Selected(rows, first', last) == [t] + rest;
        assert Selected(rows, first, last) == Selected(rows[1..], first, last);
        assert TotalMinutes([t] + rest) == (if t.duration.Some? then InMinutes(t.duration.value) else 0.0) + TotalMinutes(rest);
      }
    }
  }

  /** Python's int() on a number: rounds toward zero. */
  function Truncate(x: real): (n: int)
    ensures x >= 0.0 ==> n as real <= x < n as real + 1.0
    ensures x < 0.0 ==> n as real - 1.0 < x <= n as real
  {
    if x >= 0.0 then x.Floor else -((-x).Floor)
  }

  /** Any positive total below one minute counts as one minute. */
  function Clamp(total: real): (r: real)
    ensures 0.0 < total < 1.0 ==> r == 1.0
    ensures !(0.0 < total < 1.0) ==> r == total
  {
    if 0.0 < total < 1.0 then 1.0 else total
  }

  /** Whole minutes of a worked time. */
  function WholeMinutes(w: Worked): int
  {
    w.hours * MinutesPerHour + w.minutes
  }

  /**
   * The reported worked time for a total in minutes: minutes below 60,
   * hours and minutes adding up to the clamped, truncated total.
   */
  function Report(total: real): (r: Worked)
    ensures 0 <= r.minutes < MinutesPerHour
    ensures total >= 1.0 ==> WholeMinutes(r) == total.Floor
    ensures 0.0 < total < 1.0 ==> r == Worked(0, 1)
    ensures total == 0.0 ==> r == Worked(0, 0)
    ensures total > 0.0 ==> WholeMinutes(r) >= 1 && r.hours >= 0
    ensures total < 0.0 ==> WholeMinutes(r) <= 0
    ensures total < 0.0 ==> (WholeMinutes(r) - 1) as real < total <= WholeMinutes(r) as real
  {
    var n := Truncate(Clamp(total));
    Worked(n / MinutesPerHour, n % MinutesPerHour)
  }

  /** For totals that are not negative, a larger total never reports less. */
  lemma ReportMonotone(a: real, b: real)
    requires 0.0 <= a <= b
    ensures WholeMinutes(Report(a)) <= WholeMinutes(Report(b))
  {
  }

  /** The daily summary: rows started today. */
  function DailySummary(rows: seq<Task>, today: int): (r: Worked)
    ensures 0 <= r.minutes < MinutesPerHour
    ensures TotalMinutes(Selected(rows, today, today)) > 0.0 ==> WholeMinutes(r) >= 1
  {
    Report(TotalMinutes(Selected(rows, today, today)))
  }

  /** The weekly summary: rows started from the week start through today. */
  function WeeklySummary(rows: seq<Task>, today: int): (r: WeeklyReport)
    ensures Weekday(r.weekStart) == Sunday && r.weekEnd == today
    ensures 1 <= today - r.weekStart <= 7
    ensures 0 <= r.worked.minutes < MinutesPerHour
    ensures TotalMinutes(Selected(rows, r.weekStart, today)) > 0.0 ==> WholeMinutes(r.worked) >= 1
  {
    var weekStart := WeekStart(today);
    WeeklyReport(weekStart, today, Report(TotalMinutes(Selected(rows, weekStart, today))))
  }

  /**
   * When every row's duration agrees with its timestamps, the daily summary
   * reports the elapsed time of the rows started today.
   */
  lemma DailySummaryOfConsistentRows(rows: seq<Task>, today: int)
    requires forall t :: t in rows ==> DurationConsistent(t)
    ensures DailySummary(rows, today) == Report(ElapsedMinutes(Selected(rows, today, today)))
  {
    TotalMinutesOfConsistentRows(Selected(rows, today, today));
  }

  /**
   * With no negative durations, the weekly summary never reports less than
   * the daily one: today lies inside the weekly window.
   */
  lemma WeeklyCoversDaily(rows: seq<Task>, today: int)
    requires forall t :: t in rows ==> NonNegative(t)
    ensures WholeMinutes(DailySummary(rows, today)) <= WholeMinutes(WeeklySummary(rows, today).worked)
  {
    var daily := Selected(rows, today, today);
    var weekly := Selected(rows, WeekStart(today), today);
    TotalMinutesNonNegative(daily);
    WiderWindowSumsMore(rows, today, WeekStart(today), today);
    ReportMonotone(TotalMinutes(daily), TotalMinutes(weekly));
  }
}
