/**
 * The task table and the request handlers that change it: create and the
 * category listing (home), full update, delete, start, end and the JSON
 * update. Each handler looks the task up by id (404 when it is absent),
 * rewrites it as module Tasks says, and commits. Whether the commit
 * succeeds is decided by the database and arrives as `commitOk`; a failed
 * commit leaves the table as it was.
 */
module Store {
  import opened Wrappers
  import opened Tasks

  /** Why a handler fails: an unknown id (404) or a failed commit. */
  datatype Error = NotFound | StorageError

  /** How a form handler ends. */
  datatype Outcome = Done | Failed(error: Error)

  /** The JSON update answers with the stored record or an error. */
  datatype Result<T> = Ok(value: T) | Err(error: Error)

  /** A task matches the category filter of the listing. */
  predicate MatchesFilter(t: Task, filter: Option<string>)
  {
    // an absent or empty filter lists everything
    filter.None? || filter.value == "" || t.category == Some(filter.value)
  }

  /** No completed task lacks an end time. */
  ghost predicate AllCompletedHaveEnd(tasks: map<int, Task>)
  {
    forall id :: id in tasks ==> CompletedHasEnd(tasks[id])
  }

  /** A set that is not empty has an element. */
  lemma HasElement(s: set<int>)
    ensures s != {} ==> exists x :: x in s
  {
    if !(exists x :: x in s) {
      assert s == {};
    }
  }

  class TaskStore {
    /** The rows of the table, by id. */
    var tasks: map<int, Task>

    /** Ids are handed out from 1 upwards. */
    ghost predicate Valid()
      reads this
    {
      forall id :: id in tasks ==> id >= 1
    }

    constructor ()
      ensures Valid() && tasks == map[]
    {
      tasks := map[];
    }

    /** The task with this id, or NotFound (get_or_404). */
    function Lookup(id: int): (r: Result<Task>)
      reads this
      ensures r.Ok? <==> id in tasks
      ensures r.Ok? ==> r.value == tasks[id]
      ensures r.Err? ==> r.error == NotFound
    {
      if id in tasks then Ok(tasks[id]) else Err(NotFound)
    }

    /**
     * The tasks the home page lists: exactly those whose category equals
     * the filter, or all of them when the filter is absent or empty.
     */
    function Listing(filter: Option<string>): (r: map<int, Task>)
      reads this
      ensures forall id :: id in r <==> id in tasks && MatchesFilter(tasks[id], filter)
      ensures forall id :: id in r ==> r[id] == tasks[id]
      ensures filter.Some? && filter.value != "" ==>
                forall id :: id in r ==> r[id].category == Some(filter.value)
      ensures filter.None? ==> r == tasks
    {
      map id | id in tasks && MatchesFilter(tasks[id], filter) :: tasks[id]
    }

    /**
     * The id the table gives a new row: one more than the largest id, or 1
     * when the table is empty.
     */
    method NextRowId() returns (id: int)
      requires Valid()
      ensures id >= 1 && id !in tasks
      ensures forall k :: k in tasks ==> k < id
      ensures id == 1 <==> tasks == map[]
      ensures id != 1 ==> id - 1 in tasks
    {
      var rest: set<int>, seen: set<int> := tasks.Keys, {};
      id := 1;
      while rest != {}
        invariant rest + seen == tasks.Keys && rest !! seen
        invariant id >= 1
        invariant forall k :: k in seen ==> k < id
        invariant seen != {} ==> id > 1
        invariant id != 1 ==> id - 1 in tasks
        decreases rest
      {
        HasElement(rest);
        var k :| k in rest;
        if k >= id {
          id := k + 1;
        }
        rest, seen := rest - {k}, seen + {k};
      }
      assert id == 1 ==> seen == {} && tasks.Keys == {};
    }

    /**
     * Create (home, POST): stores the record Created gives under a fresh id.
     */
    method Create(todo: string, category: Option<string>, start: Option<int>, end: Option<int>,
                  now: int, utcNow: int, commitOk: bool) returns (outcome: Outcome, id: int)
      requires Valid()
      modifies this
      ensures Valid()
      ensures outcome == Done || outcome == Failed(StorageError)
      ensures outcome == Done <==> commitOk
      ensures outcome == Failed(StorageError) ==> tasks == old(tasks)
      ensures outcome == Done ==>
                id !in old(tasks) && id >= 1 &&
                tasks == old(tasks)[id := Created(todo, category, start, end, now, utcNow)]
      ensures outcome == Done ==>
                (forall k :: k in old(tasks) ==> k < id) && (id == 1 <==> old(tasks) == map[])
      ensures outcome == Done && id != 1 ==> id - 1 in old(tasks)
      ensures AllCompletedHaveEnd(old(tasks)) ==> AllCompletedHaveEnd(tasks)
    {
      var newTodo := Created(todo, category, start, end, now, utcNow);
      id := NextRowId();
      if !commitOk {
        return Failed(StorageError), id;
      }
      tasks := tasks[id := newTodo];
      outcome := Done;
    }

    /**
     * Full update (update, POST): replaces the editable fields and derives
     * duration and status again.
     */
    method Update(id: int, todo: string, category: string, start: Option<int>, end: Option<int>,
                  now: int, commitOk: bool) returns (outcome: Outcome)
      requires Valid()
      modifies this
      ensures Valid()
      ensures outcome == Failed(NotFound) <==> id !in old(tasks)
      ensures outcome == Failed(StorageError) <==> id in old(tasks) && !commitOk
      ensures outcome != Done ==> tasks == old(tasks)
      ensures outcome == Done ==>
                tasks == old(tasks)[id := Updated(old(tasks)[id], todo, category, start, end, now)]
      ensures AllCompletedHaveEnd(old(tasks)) ==> AllCompletedHaveEnd(tasks)
    {
      if id !in tasks {
        return Failed(NotFound);
      }
      var task := tasks[id];
      task := task.(todo := todo);
      task := task.(category := Some(category));
      task := task.(startTime := start);
      task := task.(endTime := end);
      task := task.(duration := Durations.WorkingDuration(task.startTime, task.endTime));
      task := task.(status := DerivedStatus(task.endTime, now));
      if !commitOk {
        return Failed(StorageError);
      }
      tasks := tasks[id := task];
      outcome := Done;
    }

    /** Delete: removes exactly this id; every other row is kept. */
    method Delete(id: int, commitOk: bool) returns (outcome: Outcome)
      requires Valid()
      modifies this
      ensures Valid()
      ensures outcome == Failed(NotFound) <==> id !in old(tasks)
      ensures outcome == Failed(StorageError) <==> id in old(tasks) && !commitOk
      ensures outcome != Done ==> tasks == old(tasks)
      ensures outcome == Done ==> tasks == old(tasks) - {id} && Lookup(id) == Err(NotFound)
      ensures forall k :: k != id && k in old(tasks) ==> k in tasks && tasks[k] == old(tasks)[k]
      ensures AllCompletedHaveEnd(old(tasks)) ==> AllCompletedHaveEnd(tasks)
    {
      if id !in tasks {
        return Failed(NotFound);
      }
      if !commitOk {
        return Failed(StorageError);
      }
      tasks := tasks - {id};
      outcome := Done;
    }

    /** Start: start time now, status In Progress, nothing else touched. */
    method StartTask(id: int, now: int, commitOk: bool) returns (outcome: Outcome)
      requires Valid()
      modifies this
      ensures Valid()
      ensures outcome == Failed(NotFound) <==> id !in old(tasks)
      ensures outcome == Failed(StorageError) <==> id in old(tasks) && !commitOk
      ensures outcome != Done ==> tasks == old(tasks)
      ensures outcome == Done ==> tasks == old(tasks)[id := Started(old(tasks)[id], now)]
      ensures AllCompletedHaveEnd(old(tasks)) ==> AllCompletedHaveEnd(tasks)
    {
      if id !in tasks {
        return Failed(NotFound);
      }
      var task := tasks[id];
      task := task.(startTime := Some(now));
      task := task.(status := InProgress);
      if !commitOk {
        return Failed(StorageError);
      }
      tasks := tasks[id := task];
      outcome := Done;
    }

    /** End: end time now, duration from the stored start, status Completed. */
    method EndTask(id: int, now: int, commitOk: bool) returns (outcome: Outcome)
      requires Valid()
      modifies this
      ensures Valid()
      ensures outcome == Failed(NotFound) <==> id !in old(tasks)
      ensures outcome == Failed(StorageError) <==> id in old(tasks) && !commitOk
      ensures outcome != Done ==> tasks == old(tasks)
      ensures outcome == Done ==> tasks == old(tasks)[id := Ended(old(tasks)[id], now)]
      ensures outcome == Done ==> tasks[id].status == Completed && tasks[id].endTime == Some(now)
      ensures AllCompletedHaveEnd(old(tasks)) ==> AllCompletedHaveEnd(tasks)
    {
      if id !in tasks {
        return Failed(NotFound);
      }
      var task := tasks[id];
      task := task.(endTime := Some(now));
      task := task.(duration := Durations.WorkingDuration(task.startTime, task.endTime));
      task := task.(status := Completed);
      if !commitOk {
        return Failed(StorageError);
      }
      tasks := tasks[id := task];
      outcome := Done;
    }

    /**
     * JSON update (PUT /api/tasks/<id>): applies the patch and answers with
     * the stored record.
     */
    method UpdateViaApi(id: int, patch: Patch, commitOk: bool) returns (r: Result<Task>)
      requires Valid()
      modifies this
      ensures Valid()
      ensures r == Err(NotFound) <==> id !in old(tasks)
      ensures r == Err(StorageError) <==> id in old(tasks) && !commitOk
      ensures r.Err? ==> tasks == old(tasks)
      ensures r.Ok? ==>
                tasks == old(tasks)[id := Patched(old(tasks)[id], patch)] && r.value == tasks[id]
    {
      if id !in tasks {
        return Err(NotFound);
      }
      var task := tasks[id];
      task := task.(todo := patch.todo.GetOr(task.todo));
      task := task.(category := patch.category.GetOr(task.category));
      task := task.(startTime := if patch.startTime.Some? then patch.startTime else task.startTime);
      task := task.(endTime := if patch.endTime.Some? then patch.endTime else task.endTime);
      task := task.(duration := Durations.WorkingDuration(task.startTime, task.endTime));
      task := task.(status := patch.status.GetOr(task.status));
      if !commitOk {
        return Err(StorageError);
      }
      tasks := tasks[id := task];
      r := Ok(task);
    }
  }
}
