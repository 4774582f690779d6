/**
 * The task record (TodoModel) and the rules by which each request handler
 * rewrites it: which fields it takes from the request, and how it derives
 * the status and the duration from the timestamps.
 *
 * Every function here gives the record a handler leaves behind; the store
 * methods in module Store apply them field by field.
 */
module Tasks {
  import opened Wrappers
  import opened Durations

  /** The three statuses the handlers assign. The JSON update may store any text. */
  const Pending: string := "Pending"
  const InProgress: string := "In Progress"
  const Completed: string := "Completed"

  /** Category given to a new task when the form does not send one. */
  const DefaultCategory: string := "General"

  /** A stored row, without its id (the id is the key of the table). */
  datatype Task = Task(
    todo: string,
    category: Option<string>,
    startTime: Option<int>,
    endTime: Option<int>,
    duration: Option<Duration>,
    status: string,
    createdAt: int)

  /**
   * The fields a JSON update may carry; an absent key is None. The category
   * column is nullable, so a request may also send it as null: that is
   * Some(None), and it clears the category.
   */
  datatype Patch = Patch(
    todo: Option<string>,
    category: Option<Option<string>>,
    startTime: Option<int>,
    endTime: Option<int>,
    status: Option<string>)

  /** The stored duration is the one the timestamps give. */
  ghost predicate DurationConsistent(t: Task)
  {
    t.duration == WorkingDuration(t.startTime, t.endTime)
  }

  /** A completed task has an end time. */
  ghost predicate CompletedHasEnd(t: Task)
  {
    t.status == Completed ==> t.endTime.Some?
  }

  /**
   * The status create and full update derive: Completed exactly when an end
   * time is present and already past at `now`, otherwise Pending.
   */
  function DerivedStatus(end: Option<int>, now: int): (s: string)
    ensures s == Completed <==> end.Some? && now > end.value
    ensures s == Pending <==> !(end.Some? && now > end.value)
  {
    if end.Some? && now > end.value then Completed else Pending
  }

  /**
   * The record create stores. The duration is computed on a blank record
   * whose timestamps are both absent, so it is always None, whatever
   * timestamps the form carries.
   */
  function Created(todo: string, category: Option<string>, start: Option<int>, end: Option<int>,
                   now: int, utcNow: int): (t: Task)
    ensures t.todo == todo
    ensures t.category == Some(category.GetOr(DefaultCategory))
    ensures category.None? ==> t.category == Some(DefaultCategory)
    ensures t.startTime == start && t.endTime == end
    ensures t.duration.None?
    ensures t.status == Completed <==> end.Some? && now > end.value
    ensures t.status == Completed || t.status == Pending
    ensures CompletedHasEnd(t)
    ensures t.createdAt == utcNow
  {
    var blank := WorkingDuration(None, None);
    var duration := if start.Some? && end.Some? then blank else None;
    Task(todo, Some(category.GetOr(DefaultCategory)), start, end, duration,
         DerivedStatus(end, now), utcNow)
  }

  /**
   * The record a full (form) update leaves: every editable field replaced,
   * duration and status derived again from the new timestamps.
   */
  function Updated(t: Task, todo: string, category: string, start: Option<int>, end: Option<int>,
                   now: int): (r: Task)
    ensures r.todo == todo && r.category == Some(category)
    ensures r.startTime == start && r.endTime == end
    ensures DurationConsistent(r)
    ensures r.status == Completed <==> end.Some? && now > end.value
    ensures r.status == Completed || r.status == Pending
    ensures CompletedHasEnd(r)
    ensures r.createdAt == t.createdAt
  {
    var edited := t.(todo := todo, category := Some(category), startTime := start, endTime := end);
    var timed := edited.(duration := WorkingDuration(edited.startTime, edited.endTime));
    timed.(status := DerivedStatus(timed.endTime, now))
  }

  /**
   * The record start leaves: start time `now`, status In Progress; the end
   * time and the duration are left as they were, even when stale.
   */
  function Started(t: Task, now: int): (r: Task)
    ensures r.startTime == Some(now) && r.status == InProgress
    ensures r.todo == t.todo && r.category == t.category && r.endTime == t.endTime
    ensures r.duration == t.duration && r.createdAt == t.createdAt
    ensures CompletedHasEnd(r)
  {
    t.(startTime := Some(now), status := InProgress)
  }

  /**
   * The record end leaves: end time `now`, status Completed whatever it was,
   * duration derived from the existing start time (None without one).
   */
  function Ended(t: Task, now: int): (r: Task)
    ensures r.endTime == Some(now) && r.status == Completed
    ensures r.todo == t.todo && r.category == t.category && r.startTime == t.startTime
    ensures r.createdAt == t.createdAt
    ensures DurationConsistent(r) && CompletedHasEnd(r)
    ensures r.duration.None? <==> t.startTime.None?
  {
    var ended := t.(endTime := Some(now));
    var timed := ended.(duration := WorkingDuration(ended.startTime, ended.endTime));
    timed.(status := Completed)
  }

  /**
   * The record a JSON update leaves: each field the request carries
   * replaces the stored one, the others are kept; the duration is derived
   * from the resulting timestamps; the status is taken as sent, without
   * the derivation rule.
   */
  function Patched(t: Task, p: Patch): (r: Task)
    ensures r.todo == p.todo.GetOr(t.todo)
    ensures p.category.Some? ==> r.category == p.category.value
    ensures p.category.None? ==> r.category == t.category
    ensures r.startTime == (if p.startTime.Some? then p.startTime else t.startTime)
    ensures r.endTime == (if p.endTime.Some? then p.endTime else t.endTime)
    ensures r.status == p.status.GetOr(t.status)
    ensures r.createdAt == t.createdAt
    ensures DurationConsistent(r)
  {
    var withTodo := t.(todo := p.todo.GetOr(t.todo));
    var withCategory := withTodo.(category := p.category.GetOr(withTodo.category));
    var withStart := withCategory.(startTime := if p.startTime.Some? then p.startTime else withCategory.startTime);
    var withTimes := withStart.(endTime := if p.endTime.Some? then p.endTime else withStart.endTime);
    var withDuration := withTimes.(duration := WorkingDuration(withTimes.startTime, withTimes.endTime));
    withDuration.(status := p.status.GetOr(withDuration.status))
  }

  /**
   * Create breaks the duration invariant whenever both timestamps are
   * given: the stored duration is None while the timestamps give one.
   */
  lemma CreatedWithSpanIsInconsistent(todo: string, category: Option<string>, start: int, end: int,
                                      now: int, utcNow: int)
    ensures !DurationConsistent(Created(todo, category, Some(start), Some(end), now, utcNow))
  {
  }

  /**
   * Start leaves the duration stale: on a consistent task with an end time,
   * moving the start time makes the stored duration wrong.
   */
  lemma StartedLeavesDurationStale(t: Task, now: int)
    requires DurationConsistent(t) && t.endTime.Some? && t.startTime != Some(now)
    ensures !DurationConsistent(Started(t, now))
  {
  }

  /**
   * A JSON update carrying only a status recomputes the duration from the
   * unchanged timestamps: the duration stays as it was exactly when it was
   * consistent before (it changes, for one, on a task create left untimed).
   */
  lemma StatusOnlyPatch(t: Task, status: string)
    ensures Patched(t, Patch(None, None, None, None, Some(status))).status == status
    ensures Patched(t, Patch(None, None, None, None, Some(status))).duration == t.duration
            <==> DurationConsistent(t)
  {
  }

  /**
   * The JSON update can leave a Completed task without an end time, which
   * no other handler does.
   */
  lemma PatchedStatusCanDesync(t: Task)
    requires t.endTime.None?
    ensures !CompletedHasEnd(Patched(t, Patch(None, None, None, None, Some(Completed))))
  {
  }

  /**
   * The lifecycle Pending -> In Progress -> Completed through start and
   * end: whatever the task was, ending it after starting it leaves a
   * completed task whose duration is the span between the two calls.
   */
  lemma StartThenEnd(t: Task, startedAt: int, endedAt: int)
    ensures Started(t, startedAt).status == InProgress
    ensures Ended(Started(t, startedAt), endedAt).status == Completed
    ensures Ended(Started(t, startedAt), endedAt).duration.Some?
    ensures InMinutes(Ended(Started(t, startedAt), endedAt).duration.value) * 60.0
            == (endedAt - startedAt) as real
  {
  }
}
