/**
 The class of src/server/task_manager.cpp with its map, its order list and its totals updated in
 place.  Calls are taken one at a time here; how they interleave with a running closure is the
 subject of `TaskLifecycle`, to whose steps every method is tied.
 */
module TaskManager {
  import opened Clock
  import opened Common
  import opened TaskLifecycle
  import opened TaskRegistry

  class TaskInfo {
    const id: string
    var status: Status
    var cancelRequested: bool
    var updatedAt: int

    constructor (id: string, now: int)
      ensures this.id == id && status == Pending && !cancelRequested && updatedAt == now
    {
      this.id, status, cancelRequested, updatedAt := id, Pending, false, now;
    }

    /** The task at a program point, with the manager's totals. */
    ghost function At(pc: Pc, m: TaskManager): TaskLifecycle.Task
      reads this, m`totalCompleted, m`totalFailed, m`totalCancelled
    {
      TaskLifecycle.Task.Task(status, cancelRequested, pc, NoCancel, m.totalCompleted, m.totalFailed, m.totalCancelled,
                              false, 0, 0)
    }
  }

  /** The part of the state that the code has. */
  predicate SameTask(a: TaskLifecycle.Task, b: TaskLifecycle.Task) {
    && a.status == b.status && a.cancelRequested == b.cancelRequested
    && a.completed == b.completed && a.failed == b.failed && a.cancelled == b.cancelled
  }

  /** A call of `cancelTask` with nothing in between its statements. */
  function CancelAlone(t: TaskLifecycle.Task): TaskLifecycle.Task
    requires t.cancelPc.NoCancel?
  {
    var t' := Step(Step(t, CancelFlag), CancelTest);
    if t'.cancelPc.Writing? then Step(t', CancelWrite) else t'
  }

  /** The closure's start test and the write that follows it. */
  function Started(t: TaskLifecycle.Task): TaskLifecycle.Task
    requires t.pc == Posted
  {
    ClosureNext(ClosureNext(t))
  }

  /** Finished, and its last change more than `maxAge` seconds ago. */
  predicate Stale(task: TaskInfo, now: int, maxAge: int)
    reads task
  {
    Finished(task.status) && TruncDiv(now - task.updatedAt, NANOS_PER_SECOND) > maxAge
  }

  /** Completed, failed or cancelled, and last changed so long ago: at least one second more than a limit
      that is not negative. */
  predicate IsOld(task: TaskInfo, now: int, maxAge: int)
    reads task
  {
    && (task.status == Completed || task.status == Failed || task.status == Cancelled)
    && if maxAge >= 0 then now - task.updatedAt >= (maxAge + 1) * 1_000_000_000
       else now - task.updatedAt > maxAge * 1_000_000_000
  }

  lemma StaleIffOld(task: TaskInfo, now: int, maxAge: int)
    ensures Stale(task, now, maxAge) <==> IsOld(task, now, maxAge)
  {
    WholeUnits(now - task.updatedAt, NANOS_PER_SECOND, maxAge + 1);
    hide TruncDiv;
  }

  /** Of the tasks before, exactly the listed old ones are gone. */
  ghost predicate CleanedOut(before: map<string, TaskInfo>, order: seq<string>, left: map<string, TaskInfo>, now: int,
                             maxAge: int)
    reads before.Values
  {
    && (forall id :: id in left ==> id in before && left[id] == before[id])
    && (forall id :: id in before ==> (id !in left <==> id in order && IsOld(before[id], now, maxAge)))
  }

  lemma OldOnesGone(before: map<string, TaskInfo>, order: seq<string>, left: map<string, TaskInfo>, stale: set<string>,
                    now: int, maxAge: int)
    requires left == before - stale * Members(order)
    requires forall id :: id in before ==> (id in stale <==> Stale(before[id], now, maxAge))
    ensures CleanedOut(before, order, left, now, maxAge)
  {
    forall id | id in before
      ensures id in stale <==> IsOld(before[id], now, maxAge)
    {
      StaleIffOld(before[id], now, maxAge);
    }
    hide Stale, IsOld;
  }

  class TaskManager {
    var tasks: map<string, TaskInfo>
    var taskOrder: seq<string>
    var totalSubmitted: nat
    var totalCompleted: nat
    var totalFailed: nat
    var totalCancelled: nat

    constructor ()
      ensures Valid() && tasks == map[] && taskOrder == []
    {
      tasks, taskOrder := map[], [];
      totalSubmitted, totalCompleted, totalFailed, totalCancelled := 0, 0, 0, 0;
    }

    ghost predicate Valid()
      reads this
    {
      ListsOnce(taskOrder, tasks.Keys) && forall id :: id in tasks ==> tasks[id].id == id
    }

    /** `id` is the fresh identifier; the result tells whether a closure was posted. */
    method SubmitTask(id: string, now: int, loopAvailable: bool) returns (task: TaskInfo, posted: bool)
      requires Valid() && id !in tasks
      modifies this
      ensures Valid() && fresh(task) && task.id == id && posted == loopAvailable
      ensures tasks == old(tasks)[id := task] && taskOrder == old(taskOrder) + [id]
      ensures totalSubmitted == old(totalSubmitted) + 1
      ensures task.status == (if posted then Pending else Failed) && !task.cancelRequested && task.updatedAt == now
      ensures totalFailed == old(totalFailed) + if posted then 0 else 1
      ensures totalCompleted == old(totalCompleted) && totalCancelled == old(totalCancelled)
    {
      task := new TaskInfo(id, now);
      tasks := tasks[id := task];
      taskOrder := taskOrder + [id];
      totalSubmitted := totalSubmitted + 1;
      if !loopAvailable {
        task.status := Failed;
        totalFailed := totalFailed + 1;
        return task, false;
      }
      return task, true;
    }

    /** The posted closure up to the call of the runner. */
    method StartClosure(task: TaskInfo, now: int) returns (running: bool)
      modifies task, `totalCancelled
      ensures running <==> !old(task.cancelRequested)
      ensures SameTask(task.At(if running then InRunner else Ended, this), old(Started(task.At(Posted, this))))
      ensures task.status == (if running then Running else Cancelled) && task.updatedAt == now
      ensures task.cancelRequested == old(task.cancelRequested)
      ensures totalCancelled == old(totalCancelled) + if running then 0 else 1
    {
      if task.cancelRequested {
        task.status := Cancelled;
        task.updatedAt := now;
        totalCancelled := totalCancelled + 1;
        return false;
      }
      task.status := Running;
      task.updatedAt := now;
      return true;
    }

    /** The rest of the closure, once the runner has returned or thrown; it may have used the manager. */
    method FinishClosure(task: TaskInfo, throws: bool, now: int)
      modifies task, `totalCompleted, `totalFailed, `totalCancelled
      ensures SameTask(task.At(Ended, this), old(Alone(task.At(if throws then WritesFailed else Returned, this), throws)))
      ensures task.updatedAt == now && task.cancelRequested == old(task.cancelRequested)
      ensures task.status == old(
                if throws then Failed
                else if task.cancelRequested && task.status != Failed then Cancelled
                else if task.status == Running || task.status == Pending then Completed
                else task.status)
      ensures totalFailed == old(totalFailed) + if throws then 1 else 0
      ensures totalCancelled == old(totalCancelled) +
                                if !throws && task.cancelRequested && old(task.status) != Failed then 1 else 0
      ensures totalCompleted == old(totalCompleted) +
                                if !throws && !task.cancelRequested && old(task.status in {Running, Pending}) then 1 else 0
    {
      if throws {
        task.status := Failed;
        totalFailed := totalFailed + 1;
      } else {
        AloneFromReturned(task.At(Returned, this), throws);
        hide Alone;
        if task.cancelRequested && task.status != Failed {
          task.status := Cancelled;
          totalCancelled := totalCancelled + 1;
        } else if task.status == Running || task.status == Pending {
          task.status := Completed;
          totalCompleted := totalCompleted + 1;
        }
      }
      task.updatedAt := now;
    }

    method CancelTask(id: string, now: int) returns (found: bool)
      modifies `totalCancelled, (if id in tasks then {tasks[id]} else {})
      ensures found <==> id in tasks
      ensures found ==> forall pc ::
                SameTask(tasks[id].At(pc, this), old(CancelAlone(tasks[id].At(pc, this))))
      ensures found ==> tasks[id].updatedAt == old(if tasks[id].status == Pending then now else tasks[id].updatedAt)
      ensures found ==> tasks[id].cancelRequested
                        && tasks[id].status == old(if tasks[id].status == Pending then Cancelled else tasks[id].status)
      ensures totalCancelled == old(totalCancelled) + if found && old(tasks[id].status == Pending) then 1 else 0
    {
      if id !in tasks {
        return false;
      }
      var task := tasks[id];
      task.cancelRequested := true;
      if task.status == Pending {
        task.status := Cancelled;
        task.updatedAt := now;
        totalCancelled := totalCancelled + 1;
      }
      return true;
    }

    method FailTask(id: string, now: int) returns (found: bool)
      modifies `totalFailed, (if id in tasks then {tasks[id]} else {})
      ensures found <==> id in tasks
      ensures found ==> forall pc :: SameTask(tasks[id].At(pc, this), old(Step(tasks[id].At(pc, this), Fail)))
      ensures found ==> tasks[id].status == Failed && tasks[id].updatedAt == now
                        && tasks[id].cancelRequested == old(tasks[id].cancelRequested)
      ensures totalFailed == old(totalFailed) + if found then 1 else 0
    {
      if id !in tasks {
        return false;
      }
      var task := tasks[id];
      task.status := Failed;
      task.updatedAt := now;
      totalFailed := totalFailed + 1;
      return true;
    }

    ghost function StaleIds(now: int, maxAge: int): (ids: set<string>)
      reads this, tasks.Values
      ensures forall id :: id in ids <==> id in tasks && Stale(tasks[id], now, maxAge)
    {
      set id | id in tasks && Stale(tasks[id], now, maxAge)
    }

    /** Erases while iterating.  Exactly the stale tasks that are listed go; the others keep their
        order; identifiers without a task are dropped from the list and not counted. */
    method CleanupOldTasks(now: int, maxAge: int) returns (removed: nat)
      modifies `tasks, `taskOrder
      ensures var gone := old(StaleIds(now, maxAge)) * Members(old(taskOrder));
              && tasks == old(tasks) - gone && removed == |gone|
              && taskOrder == Keep(old(taskOrder), old(tasks).Keys - old(StaleIds(now, maxAge)))
      ensures old(Valid()) ==> Valid() && tasks == old(tasks) - old(StaleIds(now, maxAge))
      ensures CleanedOut(old(tasks), old(taskOrder), tasks, now, maxAge)
    {
      ghost var stale, before, order := StaleIds(now, maxAge), tasks, taskOrder;
      ghost var k := 0;
      hide CleanedUpTo, StaleIds, Stale, CleanedOut, EraseAt, Keep, Members, ListsOnce;
      CleanedNothing(order, before, stale);
      removed := 0;
      var i := 0;
      while i < |taskOrder|
        invariant CleanedUpTo(taskOrder, tasks, removed, i, order, before, stale, k)
        decreases |order| - k
      {
        CleanNext(taskOrder, tasks, removed, i, order, before, stale, k);
        var id := taskOrder[i];
        k := k + 1;
        if id !in tasks {
          taskOrder := EraseAt(taskOrder, i);
          continue;
        }
        var task := tasks[id];
        if Stale(task, now, maxAge) {
          tasks := tasks - {id};
          taskOrder := EraseAt(taskOrder, i);
          removed := removed + 1;
          continue;
        }
        i := i + 1;
      }
      CleanedAll(taskOrder, tasks, removed, i, order, before, stale, k);
      OldOnesGone(before, order, tasks, stale, now, maxAge);
    }

    method ListAllTasks(limit: nat, offset: nat) returns (ids: seq<string>, result: seq<TaskInfo>)
      ensures ids == Page(taskOrder, tasks.Keys, limit, offset)
      ensures |result| == |ids| && forall i :: 0 <= i < |ids| ==> ids[i] in tasks && result[i] == tasks[ids[i]]
    {
      hide *;
      ids, result := [], [];
      var count, skipped := 0, 0;
      var it := 0;
      ListedIsPage(taskOrder, tasks.Keys, limit, offset, it);
      while it < |taskOrder|
        invariant 0 <= it <= |taskOrder| && skipped == (if it <= offset then it else offset)
        invariant count == |ids| && ids == Listed(taskOrder, tasks.Keys, offset, it)
        invariant |result| == |ids| && forall i :: 0 <= i < |ids| ==> ids[i] in tasks && result[i] == tasks[ids[i]]
        invariant limit > 0 ==> count < limit
      {
        var id := taskOrder[|taskOrder| - 1 - it];
        ListedOneMore(taskOrder, tasks.Keys, offset, it);
        it := it + 1;
        if skipped < offset {
          skipped := skipped + 1;
          continue;
        }
        if id in tasks {
          result := result + [tasks[id]];
          ids := ids + [id];
          count := count + 1;
          if limit > 0 && count >= limit {
            break;
          }
        }
      }
      ListedIsPage(taskOrder, tasks.Keys, limit, offset, it);
    }

    ghost function WithStatus(status: Status): set<string>
      reads this, tasks.Values
    {
      set id | id in tasks && tasks[id].status == status
    }

    method ListTasksByStatus(status: Status) returns (ids: seq<string>, result: seq<TaskInfo>)
      ensures ids == Keep(taskOrder, WithStatus(status))
      ensures forall id :: id in ids <==> id in taskOrder && id in tasks && tasks[id].status == status
      ensures |result| == |ids| && forall i :: 0 <= i < |ids| ==> ids[i] in tasks && result[i] == tasks[ids[i]]
    {
      ids, result := [], [];
      for i := 0 to |taskOrder|
        invariant ids == Keep(taskOrder[..i], WithStatus(status))
        invariant |result| == |ids| && forall j :: 0 <= j < |ids| ==> ids[j] in tasks && result[j] == tasks[ids[j]]
      {
        var id := taskOrder[i];
        KeepAppend(taskOrder[..i], id, WithStatus(status));
        assert taskOrder[..i + 1] == taskOrder[..i] + [id];
        if id in tasks && tasks[id].status == status {
          ids := ids + [id];
          result := result + [tasks[id]];
        }
      }
      assert taskOrder[..|taskOrder|] == taskOrder;
      KeepMembers(taskOrder, WithStatus(status));
    }
  }
}
