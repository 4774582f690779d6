# Taskmanager: task records, their lifecycle and the work summaries

A Dafny model of the single-user task tracker in `main.py`. It covers the
rules the request handlers apply to a task record, and the arithmetic of
the daily and weekly work summaries. The web layer and the database are
left out.

- `wrappers.dfy`, module `Wrappers`: `Option`, which stands in for Python's `None`.
- `durations.dfy`, module `Durations`: the duration derived from a start and an end
  timestamp (`TodoModel.calculate_working_minutes`). It is kept as an exact value with an
  `Hours` or `Minutes` unit, not as the formatted text the source stores.
- `tasks.dfy`, module `Tasks`: the task record (`TodoModel`). It holds one function per
  handler giving the record that handler leaves behind (create, full update, start, end,
  JSON update), plus the lemmas about the two record invariants:
  - the stored duration is the one the timestamps give;
  - a completed task has an end time.
- `store.dfy`, module `Store`: class `TaskStore`, which holds the table as a
  `map<int, Task>` keyed by id. Its methods are the handlers. Each one looks the task up
  (404 `NotFound` when absent), rewrites it field by field, and commits.
  - Whether the commit succeeds is a parameter, `commitOk`. A failed commit leaves the table
    unchanged and yields `StorageError`.
  - New ids follow the table's rowid rule: one more than the largest id, or 1 when the
    table is empty.
- `summaries.dfy`, module `Summaries`: the daily and weekly summaries over the rows a
  date-range query returns. Durations are summed in minutes, a total in (0, 1) counts as
  1, the total is truncated as Python's `int()` truncates, and it is split with
  `divmod(n, 60)`.

Timestamps are whole seconds of naive local time, and "now" is always a parameter. A
day is a timestamp divided by 86400, rounded down. Day 0 is 1970-01-01, a Thursday, so
Python's `weekday()` is `(day + 3) % 7`.

Behaviour of the code that is easy to get wrong:
- Creating a task never stores a duration, even when both timestamps are given. The duration is
  computed on a blank `TodoModel()` (main.py:66). So "the duration always matches the
  timestamps after create" does not hold (`Tasks.CreatedWithSpanIsInconsistent`).
- Start does not recompute the duration, so a task that already had one keeps a stale one
  (`Tasks.StartedLeavesDurationStale`).
- A JSON update that carries only a status still recomputes the duration. The duration stays
  unchanged only when it was already consistent (`Tasks.StatusOnlyPatch`).
- The weekly window starts `weekday + 1` days back. On a Sunday that is the previous Sunday,
  seven days back, not today (`Summaries.WeekStart`).
- A full update needs the `category` field. It is not defaulted.

## Model

| member | source | states |
|---|---|---|
| Durations.InMinutes | main.py:157-158 | a stored duration read back in minutes: an hours value times 60, a minutes value as it is |
| Durations.WorkingDuration | main.py:33-41 | no duration unless both timestamps are present; the unit is hours exactly when the span is at least 3600 s; read back in minutes, the value is the span / 60; negative exactly when the end precedes the start (negative spans are not rejected) |
| Durations.WorkingDurationDeterminesSpan | main.py:35-40 | of the exact value (not the two-decimal text): two spans give the same duration exactly when they have the same length |
| Tasks.DerivedStatus | main.py:69 | Completed exactly when an end time is present and now is past it, otherwise Pending |
| Tasks.Created | main.py:56-78 | the new record keeps the form's fields; the category defaults to "General"; the duration is always None; the status is Completed exactly when the end is present and past; created_at is the UTC clock |
| Tasks.Updated | main.py:100-105 | every editable field replaced; the duration matches the new timestamps; the status is derived from the new end time; a Completed result has an end time |
| Tasks.Started | main.py:130-131 | start time is now and status In Progress; end time, duration and every other field unchanged |
| Tasks.Ended | main.py:142-144 | end time is now and status Completed unconditionally; the duration matches the timestamps and is None exactly when there is no start time |
| Tasks.Patched | main.py:230-235 | each field the request carries replaces the stored one (a null category clears it), the others are kept; the duration matches the resulting timestamps; the status is taken as sent |
| Tasks.CreatedWithSpanIsInconsistent | main.py:66 | a task created with both timestamps violates "the duration matches the timestamps" |
| Tasks.StartedLeavesDurationStale | main.py:130-131 | starting a consistent task that has an end time, at a new start time, leaves its duration inconsistent |
| Tasks.StatusOnlyPatch | main.py:234-235 | a status-only JSON update sets the status as sent, and keeps the duration exactly when it was consistent |
| Tasks.PatchedStatusCanDesync | main.py:235 | the JSON update can make a task Completed with no end time |
| Tasks.StartThenEnd | main.py:128-144 | start then end gives In Progress, then Completed, with a duration equal to the span between the two calls |
| Store.TaskStore.constructor | main.py:49-51 | a new database: the table starts empty (an existing database file keeps its rows, which is not modelled) |
| Store.TaskStore.Lookup | main.py:97 | the stored task when the id is present, NotFound (404) otherwise |
| Store.TaskStore.Listing | main.py:86-91 | exactly the tasks whose category equals the filter; all tasks when the filter is absent or empty |
| Store.TaskStore.NextRowId | main.py:24 | the new id is not in use and exceeds every id; it is 1 exactly when the table is empty, otherwise the largest id plus one |
| Store.TaskStore.Create | main.py:55-85 | on a successful commit the table gains exactly the Created record under a new id, one more than the largest id (1 on an empty table, so a deleted newest id is reused); on a failed commit nothing changes; no completed task lacks an end time afterwards if none did before |
| Store.TaskStore.Update | main.py:95-111 | NotFound for an absent id; otherwise only that row becomes the Updated record (unchanged on a failed commit); keeps "completed has an end time" |
| Store.TaskStore.Delete | main.py:116-124 | NotFound for an absent id; otherwise exactly that id is removed, so a later lookup is NotFound; every other row is untouched |
| Store.TaskStore.StartTask | main.py:127-136 | NotFound for an absent id; otherwise only that row becomes the Started record; keeps "completed has an end time" |
| Store.TaskStore.EndTask | main.py:139-149 | NotFound for an absent id; otherwise only that row becomes the Ended record, Completed with end time now; keeps "completed has an end time" |
| Store.TaskStore.UpdateViaApi | main.py:225-249 | NotFound for an absent id; StorageError (500) on a failed commit with the table unchanged; otherwise only that row becomes the Patched record, and it is returned |
| Summaries.DayOf | main.py:155 | the day of a timestamp: the day whose 86400 seconds contain it |
| Summaries.Weekday | main.py:174 | the weekday is within 0..6 |
| Summaries.WeekStart | main.py:173-174 | the week start is a Sunday 1 to 7 days before today, and 7 days back exactly when today is a Sunday |
| Summaries.WeekStartIsLatestSundayBefore | main.py:174 | no Sunday lies strictly between the week start and today |
| Summaries.Selected | main.py:155 | the query returns exactly the rows whose start time falls in the day window; rows without a start time never match |
| Summaries.SelectedCounts | main.py:155 | each row in the window is returned as many times as the table holds it, and no other row is returned |
| Summaries.SelectedCons | main.py:155 | a leading row is kept in front of the rest of the selection exactly when it lies in the window |
| Summaries.SelectedAppend | main.py:155 | selection keeps the table order: selecting from a concatenation concatenates the two selections |
| Summaries.TotalMinutes | main.py:157-160 | the sum of the durations in minutes; rows without a duration add nothing, so a list with no durations sums to 0 |
| Summaries.TotalMinutesAppend | main.py:157-160 | the summed minutes of two row lists concatenated is the sum of their totals |
| Summaries.UntimedRowAddsNothing | main.py:159 | a row without a duration is skipped by the sum |
| Summaries.TotalMinutesOfConsistentRows | main.py:157-160 | when every duration matches its timestamps, the summed minutes equal the rows' elapsed minutes |
| Summaries.TotalMinutesNonNegative | main.py:182-185 | with no negative durations the total is not negative |
| Summaries.WiderWindowSumsMore | main.py:177-185 | with no negative durations, widening the window back in time never lowers the total |
| Summaries.Truncate | main.py:166 | int() rounds toward zero: the integer part below a non-negative total, above a negative one |
| Summaries.Clamp | main.py:163-164 | a total strictly between 0 and 1 becomes 1; any other total is kept |
| Summaries.Report | main.py:162-166 | minutes below 60; hours·60 + minutes is the whole part of a total of at least 1; (0, 1) for a total in (0, 1); (0, 0) for 0; for a negative total, the integer n with n - 1 < total <= n (truncation toward zero) |
| Summaries.ReportMonotone | main.py:166 | for non-negative totals, a larger total never reports fewer whole minutes |
| Summaries.DailySummary | main.py:153-167 | minutes below 60; any positive total of today's rows reports at least one minute |
| Summaries.WeeklySummary | main.py:172-192 | the window runs from a Sunday 1 to 7 days back through today; minutes below 60; any positive total reports at least one minute |
| Summaries.DailySummaryOfConsistentRows | main.py:153-167 | with consistent durations, the daily summary reports the elapsed time of the rows started today |
| Summaries.WeeklyCoversDaily | main.py:172-192 | with no negative durations, the weekly summary reports at least as much as the daily one |

## Left out

- HTTP and presentation are not modelled: routing, form and JSON access, redirects,
  templates, `jsonify`, the `datetimeformat` template filter, `__repr__`, and the GET pages
  that only render. The JSON reads (`get_tasks`, `get_task`) are `Listing(None)` and
  `Lookup` without the serialisation.
- Timestamps arrive already parsed. An empty timestamp form field, or a missing one on create, is `None` (the JSON update is covered by the `Tasks.Patch` line below). A create
  request's `category` is taken as sent when present, even when it is empty, and is
  "General" only when the field is absent.
  - Text that does not match `%Y-%m-%dT%H:%M` (a 500) is not modelled.
  - A required form key that is missing (a 400) is not modelled.
- Tasks.Patch: a JSON `null` for `category` is modelled (it clears the category). A `null`
  `status` is not modelled: the source stores a NULL status and commits normally, but the model's
  status is always a string. A `null` `todo` is not modelled: it fails the NOT NULL constraint
  at commit. A `null` timestamp is not modelled: it fails in parsing before the commit. Values of
  the wrong JSON kind are not modelled either.
- The clocks `datetime.now()` and `datetime.utcnow()` become the parameters `now` and `utcNow`.
- The database is not modelled: the session, SQL, and the broad `except` around commit.
  - Whether a commit succeeds is the parameter `commitOk`.
  - The `func.date` range queries are `Summaries.Selected` over a sequence of rows.
  - How the store's map becomes that row sequence, and the row order of any listing, are not modelled.
  - Column length limits are not modelled (SQLite does not enforce them).
  - Concurrent requests are not modelled.
- Durations.WorkingDuration: keeps the exact value. It does not model the two-decimal `"%.2f"` text
  the source stores, nor the `float(...)` re-parsing.
- Summaries.TotalMinutes: adds the exact values, so the summaries do not see the two-decimal
  rounding of stored durations.
- All arithmetic is on exact reals and unbounded integers. Floating-point rounding is not
  modelled.
- `app.run`, database creation and the configuration are not modelled.
