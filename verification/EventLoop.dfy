/**
 The event loop object of src/server/eventloop.hpp and eventloop.cpp, in builds without USE_ASIO:
 one pass of `workerThread` run without interference, the posting functions and
 `adjustTaskPriority`.
 */
module EventLoop {
  import opened Common
  import opened MultisetSum
  import opened PriorityOrder
  import opened EventQueue
  import EventWorkers

  /** What a list of executed tasks leaves to be pushed back: the periodic ones, later. */
  function Renewed(executed: seq<Task>): multiset<Task> {
    if executed == [] then multiset{}
    else
      var t := executed[|executed| - 1];
      Renewed(executed[..|executed| - 1]) + RenewedOne(t)
  }

  function RenewedOne(t: Task): multiset<Task> {
    if t.kind.Periodic? then multiset{EventWorkers.Advance(t)} else multiset{}
  }

  /** The queue after one more task has been settled. */
  lemma RenewedOneMore(queue: multiset<Task>, executed: seq<Task>, t: Task)
    ensures (queue + Renewed(executed)) + RenewedOne(t) == queue + Renewed(executed + [t])
    ensures queue == queue + Renewed([])
  {
    assert (executed + [t])[..|executed|] == executed;
    AddRegroup(queue, Renewed(executed), RenewedOne(t));
    hide RenewedOne;
  }

  /** What comes back are the periodic ones of the executed tasks, each as often as it was executed and
      100 ms later. */
  lemma {:induction false} RenewedAre(executed: seq<Task>, t: Task)
    ensures Renewed(executed)[Later(t)] == if t.kind.Periodic? then multiset(executed)[t] else 0
    decreases |executed|
  {
    hide RenewedOne, Later;
    if executed != [] {
      var front, last := executed[..|executed| - 1], executed[|executed| - 1];
      RenewedAre(front, t);
      assert executed == front + [last];
      RenewedOneIs(last, t);
      assert Renewed(executed) == Renewed(front) + RenewedOne(last);
      hide Renewed;
    }
  }

  function Later(t: Task): Task {
    t.(executionTime := t.executionTime + 100_000_000)
  }

  lemma RenewedOneIs(last: Task, t: Task)
    ensures RenewedOne(last)[Later(t)] == if t.kind.Periodic? && last == t then 1 else 0
  {
    EventWorkers.AdvanceInjective(t, last);
  }

  /** `t` comes before everything else in `tasks`. */
  ghost predicate Leads(t: Task, tasks: multiset<Task>) {
    tasks[t] == 1 && forall u :: u in tasks && u != t ==> Below(TaskKey(u), TaskKey(t))
  }

  ghost predicate DueAtSome(t: Task, readings: seq<int>) {
    exists now :: now in readings && t.executionTime <= now && t.isActive
  }

  // ---------------------------------------------------------------- the batch loop

  /** What is left in the queue and what is in `local_tasks`. */
  datatype Batch = Batch(rest: multiset<Task>, local: seq<Task>)

  /** After popping `pops`, one at each reading of the clock: a task that is due is kept, another one
      goes back. */
  function AfterPops(all: multiset<Task>, pops: seq<Task>, readings: seq<int>): Batch
    requires |pops| <= |readings|
    decreases |pops|
  {
    if pops == [] then Batch(all, [])
    else
      var n := |pops| - 1;
      var before := AfterPops(all, pops[..n], readings);
      if EventWorkers.Due(pops[n], readings[n]) then Batch(before.rest - multiset{pops[n]}, before.local + [pops[n]])
      else before
  }

  /** Every pop takes a top of what the queue then holds. */
  ghost predicate ArePops(all: multiset<Task>, pops: seq<Task>, readings: seq<int>)
    requires |pops| <= |readings|
    decreases |pops|
  {
    pops != [] ==>
      var n := |pops| - 1;
      ArePops(all, pops[..n], readings) && IsTop(pops[n], AfterPops(all, pops[..n], readings).rest, TaskKey)
  }

  /** The loop goes on until every reading is used or the queue is empty. */
  ghost predicate IsBatch(all: multiset<Task>, pops: seq<Task>, readings: seq<int>, batch: Batch) {
    && |pops| <= |readings| && ArePops(all, pops, readings)
    && batch == AfterPops(all, pops, readings)
    && (|pops| == |readings| || batch.rest == multiset{})
  }

  /** The queue after a pop, and after the task has been put back. */
  lemma PopThenPush(before: multiset<Task>, after: multiset<Task>, t: Task)
    requires before == after + multiset{t}
    ensures after == before - multiset{t}
  {
  }

  lemma OneMorePop(all: multiset<Task>, pops: seq<Task>, readings: seq<int>, t: Task)
    requires |pops| < |readings| && ArePops(all, pops, readings)
    requires IsTop(t, AfterPops(all, pops, readings).rest, TaskKey)
    ensures ArePops(all, pops + [t], readings)
    ensures var before := AfterPops(all, pops, readings);
            AfterPops(all, pops + [t], readings) ==
            if EventWorkers.Due(t, readings[|pops|]) then Batch(before.rest - multiset{t}, before.local + [t]) else before
  {
    assert (pops + [t])[..|pops|] == pops;
  }

  /** Whatever is due when, the batch is a beginning of an order in which the whole queue may be drained:
      nothing overtakes a task that comes before it, due or not. */
  lemma {:induction false} BatchDrains(all: multiset<Task>, pops: seq<Task>, readings: seq<int>)
    requires |pops| <= |readings| && ArePops(all, pops, readings)
    ensures var batch := AfterPops(all, pops, readings);
            && DrainsTo(batch.local, all, batch.rest, TaskKey) && |batch.local| <= |pops|
            && forall t :: t in batch.local ==> DueAtSome(t, readings)
    decreases |pops|
  {
    if pops != [] {
      var n := |pops| - 1;
      BatchDrains(all, pops[..n], readings);
      var before := AfterPops(all, pops[..n], readings);
      DrainOneMore(before.local, all, before.rest, pops[n], TaskKey);
      hide IsTop, DrainsTo;
      assert readings[n] in readings;
    }
  }

  lemma BatchMeans(all: multiset<Task>, pops: seq<Task>, readings: seq<int>, batch: Batch)
    requires IsBatch(all, pops, readings, batch)
    ensures DrainsTo(batch.local, all, batch.rest, TaskKey)
  {
    BatchDrains(all, pops, readings);
    hide DrainsTo, ArePops, AfterPops;
  }

  /** Nothing at all is taken, and the queue is unchanged, if and only if the leading task is not ready at
      any of the readings used: nothing behind it can be taken before it. */
  lemma {:induction false} LeaderBlocksIff(all: multiset<Task>, pops: seq<Task>, readings: seq<int>, t: Task)
    requires |pops| <= |readings| && ArePops(all, pops, readings) && Leads(t, all)
    ensures AfterPops(all, pops, readings) == Batch(all, [])
            <==> !t.isActive || forall k :: 0 <= k < |pops| ==> readings[k] < t.executionTime
    decreases |pops|
  {
    if pops != [] {
      var n := |pops| - 1;
      var before := AfterPops(all, pops[..n], readings);
      LeaderBlocksIff(all, pops[..n], readings, t);
      if before == Batch(all, []) {
        TopLeads(pops[n], all, t);
      }
      hide IsTop, Leads;
    }
  }

  lemma TopLeads(top: Task, all: multiset<Task>, t: Task)
    requires Leads(t, all) && IsTop(top, all, TaskKey)
    ensures top == t
  {
  }

  lemma {:induction false} RestWithin(all: multiset<Task>, pops: seq<Task>, readings: seq<int>, t: Task)
    requires |pops| <= |readings| && t in AfterPops(all, pops, readings).rest
    ensures t in all
    decreases |pops|
  {
    if pops != [] {
      RestWithin(all, pops[..|pops| - 1], readings, t);
    }
  }

  /** When everything is ready, every task popped is in the batch: it takes as many tasks as it has
      room for, or all. */
  lemma {:induction false} ReadyTasksFillTheBatch(all: multiset<Task>, pops: seq<Task>, readings: seq<int>)
    requires |pops| <= |readings| && ArePops(all, pops, readings)
    requires forall t, now :: t in all && now in readings ==> t.executionTime <= now && t.isActive
    ensures AfterPops(all, pops, readings).local == pops
    decreases |pops|
  {
    if pops != [] {
      var n := |pops| - 1;
      ReadyTasksFillTheBatch(all, pops[..n], readings);
      RestWithin(all, pops[..n], readings, pops[n]);
      assert pops == pops[..n] + [pops[n]];
      assert readings[n] in readings;
    }
  }

  function Reprioritize(t: Task, taskId: int, newPriority: int): Task {
    if t.taskId == taskId then t.(priority := newPriority) else t
  }

  function ReprioritizeAll(ts: seq<Task>, taskId: int, newPriority: int): seq<Task> {
    seq(|ts|, i requires 0 <= i < |ts| => Reprioritize(ts[i], taskId, newPriority))
  }

  lemma ReprioritizeAppend(ts: seq<Task>, t: Task, taskId: int, newPriority: int)
    ensures ReprioritizeAll(ts + [t], taskId, newPriority)
            == ReprioritizeAll(ts, taskId, newPriority) + [Reprioritize(t, taskId, newPriority)]
  {
  }

  class EventLoop {
    const taskQueue: TaskQueue
    var legacyTasks: multiset<Task>
    var nextTaskId: int

    constructor ()
      ensures fresh(taskQueue) && fresh(taskQueue.priorityQueues)
      ensures taskQueue.Valid() && taskQueue.Tasks() == multiset{} && legacyTasks == multiset{} && nextTaskId == 0
    {
      taskQueue := new TaskQueue();
      legacyTasks, nextTaskId := multiset{}, 0;
    }

    method Post(priority: int, now: int)
      modifies this
      ensures legacyTasks == old(legacyTasks) + multiset{Task(old(nextTaskId), priority, now, true, Normal)}
      ensures nextTaskId == old(nextTaskId) + 1
    {
      legacyTasks := legacyTasks + multiset{Task(nextTaskId, priority, now, true, Normal)};
      nextTaskId := nextTaskId + 1;
    }

    method PostDelayed(delay: int, priority: int, now: int)
      modifies this
      ensures legacyTasks == old(legacyTasks) + multiset{Task(old(nextTaskId), priority, now + delay, true, Normal)}
      ensures nextTaskId == old(nextTaskId) + 1
    {
      legacyTasks := legacyTasks + multiset{Task(nextTaskId, priority, now + delay, true, Normal)};
      nextTaskId := nextTaskId + 1;
    }

    /** Empties the queue and fills a new one; `order` is the order in which the tasks came out. */
    method AdjustTaskPriority(taskId: int, newPriority: int) returns (found: bool, ghost order: seq<Task>)
      modifies `legacyTasks
      ensures Drains(order, old(legacyTasks), TaskKey)
      ensures legacyTasks == multiset(ReprioritizeAll(order, taskId, newPriority))
      ensures found <==> exists t :: t in old(legacyTasks) && t.taskId == taskId
    {
      var newQueue: multiset<Task> := multiset{};
      found, order := false, [];
      ghost var all := legacyTasks;
      while legacyTasks != multiset{}
        invariant DrainsTo(order, all, legacyTasks, TaskKey)
        invariant newQueue == multiset(ReprioritizeAll(order, taskId, newPriority))
        invariant found <==> exists t :: t in order && t.taskId == taskId
        decreases |legacyTasks|
      {
        ghost var top := TopExists(legacyTasks, TaskKey);
        var task :| IsTop(task, legacyTasks, TaskKey);
        DrainOneMore(order, all, legacyTasks, task, TaskKey);
        ReprioritizeAppend(order, task, taskId, newPriority);
        hide IsTop, DrainsTo, ReprioritizeAll;
        legacyTasks := legacyTasks - multiset{task};
        order := order + [task];
        if task.taskId == taskId {
          task := task.(priority := newPriority);
          found := true;
        }
        newQueue := newQueue + multiset{task};
      }
      DrainsIffSorted(order, all, TaskKey);
      assert forall t :: t in order <==> t in multiset(order);
      legacyTasks := newQueue;
    }

    /** One pass of the worker loop, with nothing else touching the queue.  `readings` are the clock
        readings of the batch loop, `pops` what it popped; `executed` lists the tasks whose function
        was called, in order.  The periodic ones come back later, all other tasks stay. */
    method WorkerPass(readings: seq<int>) returns (executed: seq<Task>, ghost pops: seq<Task>)
      requires taskQueue.Valid() && |readings| == EventWorkers.BATCH_SIZE
      modifies taskQueue.priorityQueues
      ensures taskQueue.Valid()
      ensures exists rest :: && IsBatch(old(taskQueue.Tasks()), pops, readings, Batch(rest, executed))
                             && DrainsTo(executed, old(taskQueue.Tasks()), rest, TaskKey)
                             && taskQueue.Tasks() == rest + Renewed(executed)
    {
      hide *;
      var localTasks;
      localTasks, pops := TakeBatch(readings);
      BatchMeans(old(taskQueue.Tasks()), pops, readings, Batch(taskQueue.Tasks(), localTasks));
      executed := Execute(localTasks);
    }

    method TakeBatch(readings: seq<int>) returns (localTasks: seq<Task>, ghost pops: seq<Task>)
      requires taskQueue.Valid() && |readings| == EventWorkers.BATCH_SIZE
      modifies taskQueue.priorityQueues
      ensures taskQueue.Valid()
      ensures IsBatch(old(taskQueue.Tasks()), pops, readings, Batch(taskQueue.Tasks(), localTasks))
      ensures |pops| <= 16 && (|pops| < 16 ==> taskQueue.Tasks() == multiset{})
      ensures forall t :: t in localTasks ==> t.isActive
    {
      localTasks, pops := [], [];
      ghost var all := taskQueue.Tasks();
      assert ArePops(all, [], readings) && AfterPops(all, [], readings) == Batch(all, []);
      hide IsTop, ArePops, AfterPops;
      var more, i := true, 0;
      while i < EventWorkers.BATCH_SIZE && more
        invariant taskQueue.Valid() && 0 <= i <= EventWorkers.BATCH_SIZE && |pops| == i
        invariant ArePops(all, pops, readings)
        invariant Batch(taskQueue.Tasks(), localTasks) == AfterPops(all, pops, readings)
        invariant !more ==> taskQueue.Tasks() == multiset{}
        invariant forall t :: t in localTasks ==> t.isActive
        decreases EventWorkers.BATCH_SIZE - i, more
      {
        ghost var before := taskQueue.Tasks();
        var task := taskQueue.Pop();
        if task.None? {
          more := false;
        } else {
          var t := task.value;
          PopThenPush(before, taskQueue.Tasks(), t);
          var now := readings[i];
          OneMorePop(all, pops, readings, t);
          pops := pops + [t];
          if t.executionTime <= now && t.isActive {
            localTasks := localTasks + [t];
          } else {
            taskQueue.Push(t);
          }
          i := i + 1;
        }
      }
    }

    method Execute(localTasks: seq<Task>) returns (executed: seq<Task>)
      requires taskQueue.Valid() && forall t :: t in localTasks ==> t.isActive
      modifies taskQueue.priorityQueues
      ensures taskQueue.Valid() && executed == localTasks
      ensures taskQueue.Tasks() == old(taskQueue.Tasks()) + Renewed(executed)
    {
      executed := [];
      hide Renewed, RenewedOne;
      RenewedOneMore(taskQueue.Tasks(), [], Task(0, 0, 0, true, Normal));
      for k := 0 to |localTasks|
        invariant taskQueue.Valid() && executed == localTasks[..k]
        invariant taskQueue.Tasks() == old(taskQueue.Tasks()) + Renewed(executed)
      {
        var t := localTasks[k];
        assert t in localTasks;
        RenewedOneMore(old(taskQueue.Tasks()), executed, t);
        assert localTasks[..k + 1] == localTasks[..k] + [t];
        if t.isActive {
          executed := executed + [t];
        }
        Requeue(t);
      }
    }

    /** Puts a periodic task back, one period later. */
    method Requeue(t: Task)
      requires taskQueue.Valid()
      modifies taskQueue.priorityQueues
      ensures taskQueue.Valid() && taskQueue.Tasks() == old(taskQueue.Tasks()) + RenewedOne(t)
    {
      if t.kind.Periodic? {
        taskQueue.Push(t.(executionTime := t.executionTime + EventWorkers.PERIOD));
      } else {
        assert taskQueue.Tasks() + multiset{} == taskQueue.Tasks();
      }
    }
  }

  /** Every task of that number gets the new priority and keeps everything else. */
  lemma AdjustAllOfThat(order: seq<Task>, taskId: int, newPriority: int, t: Task)
    requires t.taskId == taskId
    ensures t in order ==> Task(taskId, newPriority, t.executionTime, t.isActive, t.kind)
                           in ReprioritizeAll(order, taskId, newPriority)
    ensures t in ReprioritizeAll(order, taskId, newPriority) ==>
              t.priority == newPriority && exists u :: u in order && t == u.(priority := newPriority)
  {
    var all := ReprioritizeAll(order, taskId, newPriority);
    if t in order {
      var i :| 0 <= i < |order| && order[i] == t;
      assert all[i] == t.(priority := newPriority);
    }
    if t in all {
      var i :| 0 <= i < |order| && all[i] == t;
      assert order[i] in order && all[i] == order[i].(priority := newPriority);
    }
  }

  /** Tasks with other numbers are untouched, and no task appears or vanishes. */
  lemma AdjustOnlyThat(order: seq<Task>, taskId: int, newPriority: int, t: Task)
    requires t.taskId != taskId
    ensures |multiset(ReprioritizeAll(order, taskId, newPriority))| == |multiset(order)|
    ensures multiset(ReprioritizeAll(order, taskId, newPriority))[t] == multiset(order)[t]
    decreases |order|
  {
    if order != [] {
      var front, last := order[..|order| - 1], order[|order| - 1];
      AdjustOnlyThat(front, taskId, newPriority, t);
      assert order == front + [last];
      assert ReprioritizeAll(order, taskId, newPriority)
          == ReprioritizeAll(front, taskId, newPriority) + [Reprioritize(last, taskId, newPriority)];
    }
  }
}
