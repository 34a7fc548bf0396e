/**
 The classes of src/script/interpreter_pool.cpp with their fields updated in place.  A method is one
 critical section of the source; each is tied to a step of `PoolTasks` or `PoolGuards`.
 */
module InterpreterPool {
  import opened Common
  import opened PriorityOrder
  import PoolTasks
  import PoolGuards

  datatype AcquireError = PoolNotInitialized | ShutdownInProgress | Timeout

  /** What a look at the pool leads to: a guard, a refusal or waiting for an interpreter. */
  datatype Acquired = Ok(guard: InterpreterGuard) | Err(error: AcquireError) | Waits

  class InterpreterGuard {
    var pool: InterpreterPool?
    var index: nat
    var valid: bool

    /** A default-constructed guard. */
    constructor ()
      ensures pool == null && !valid && index == 0
    {
      pool, index, valid := null, 0, false;
    }

    constructor Holding(pool: InterpreterPool, index: nat)
      ensures this.pool == pool && valid && this.index == index
    {
      this.pool, this.index, this.valid := pool, index, true;
    }

    function Fields(): PoolGuards.Guard
      reads this
    {
      PoolGuards.Guard.Guard(pool != null, valid, index)
    }

    predicate IsValid()
      reads this
    {
      valid && pool != null
    }

    /** `p` is the pool that this guard belongs to, or once belonged to. */
    method Release(p: InterpreterPool)
      requires p.GuardsValid() && this in p.guards
      modifies this, p`available, p`busy
      ensures p.GuardsValid()
      ensures p.Rooms() == PoolGuards.Released(old(p.Rooms()), this)
      ensures !IsValid()
    {
      hide PoolGuards.Inv;
      ghost var before := p.Rooms();
      PoolGuards.ReleaseInv(before, this);
      assert this in before.guards;
      if valid && pool != null {
        pool.Release(index);
        valid := false;
        pool := null;
      }
      assert p.Rooms().guards == PoolGuards.Released(before, this).guards;
    }

    /** `InterpreterGuard(InterpreterGuard&& other)`, on a guard that is not yet known to the pool. */
    method MoveConstruct(other: InterpreterGuard, p: InterpreterPool)
      requires p.GuardsValid() && other in p.guards && this !in p.guards
      modifies this, other, p`guards
      ensures p.GuardsValid() && p.guards == old(p.guards) + {this}
      ensures p.Rooms() == PoolGuards.TakenOver(old(p.Rooms()), this, other)
    {
      ghost var before, known := p.Rooms(), p.guards;
      PoolGuards.NewcomerTakesOver(before, this, other);
      hide PoolGuards.Inv, PoolGuards.Step, PoolGuards.Enabled, PoolGuards.TakenOver, PoolGuards.Cleared;
      PoolGuards.StepInv(before, PoolGuards.Event.TakeOver(this, other));
      TakeFields(other);
      p.guards := p.guards + {this};
      p.Adopted(before, known, this, other);
    }

    /** `operator=(InterpreterGuard&& other)` */
    method MoveAssign(other: InterpreterGuard, p: InterpreterPool)
      requires p.GuardsValid() && this in p.guards && other in p.guards
      modifies this, other, p`available, p`busy
      ensures p.GuardsValid()
      ensures p.Rooms() == PoolGuards.MoveAssigned(old(p.Rooms()), this, other)
    {
      hide PoolGuards.Inv, PoolGuards.Released;
      if this != other {
        Release(p);
        ghost var before := p.Rooms();
        hide PoolGuards.Step;
        PoolGuards.StepInv(before, PoolGuards.Event.TakeOver(this, other));
        TakeFields(other);
        PoolGuards.TakeOverByFields(before, p.Rooms(), this, other);
      }
    }

    /** Copies the fields and nulls those of the source. */
    method TakeFields(other: InterpreterGuard)
      requires this != other
      modifies this, other
      ensures Fields() == old(other.Fields()) && pool == old(other.pool)
      ensures other.Fields() == PoolGuards.Cleared(old(other.Fields()))
    {
      pool, index, valid := other.pool, other.index, other.valid;
      other.pool := null;
      other.valid := false;
    }

    /** `~InterpreterGuard()` */
    method Destroy(p: InterpreterPool)
      requires p.GuardsValid() && this in p.guards
      modifies this, p`available, p`busy, p`guards
      ensures p.GuardsValid() && p.guards == old(p.guards) - {this}
      ensures p.Rooms() == PoolGuards.Destroyed(old(p.Rooms()), this)
    {
      hide PoolGuards.Inv, PoolGuards.Released;
      Release(p);
      ghost var before := p.Rooms();
      PoolGuards.StepInv(before, PoolGuards.Event.Drop(this));
      p.guards := p.guards - {this};
      assert p.Rooms().guards == PoolGuards.Step(before, PoolGuards.Event.Drop(this)).guards;
    }
  }

  class InterpreterPool {
    const poolSize: nat
    const maxQueuedTasks: nat
    var initialized: bool
    var shuttingDown: bool
    var sequenceCounter: nat
    var available: set<nat>
    var busy: set<nat>
    var taskQueue: multiset<PoolTasks.Task>
    var workers: seq<PoolTasks.Worker>
    var stats: PoolTasks.Stats
    ghost var history: PoolTasks.History
    ghost var guards: set<InterpreterGuard>

    ghost function Tasks(): PoolTasks.Pool
      reads this
    {
      PoolTasks.Pool.Pool(maxQueuedTasks, initialized, shuttingDown, sequenceCounter, taskQueue, workers, stats, history)
    }

    /** Between whole operations no guard is in the middle of `release`. */
    ghost function Rooms(): PoolGuards.Rooms<InterpreterGuard>
      reads this, guards
    {
      PoolGuards.Rooms.Rooms(poolSize, available, busy, map g | g in guards :: g.Fields(), {})
    }

    ghost predicate TasksValid()
      reads this
    {
      PoolTasks.Inv(Tasks())
    }

    /** Every guard known to the pool points to it or to nothing. */
    ghost predicate GuardsValid()
      reads this, guards
    {
      && PoolGuards.Inv(Rooms())
      && forall g | g in guards :: g.pool == null || g.pool == this
    }

    /** A new guard has taken over from another. */
    lemma Adopted(before: PoolGuards.Rooms<InterpreterGuard>, known: set<InterpreterGuard>, g: InterpreterGuard,
                  other: InterpreterGuard)
      requires PoolGuards.Enabled(before, PoolGuards.Event.TakeOver(g, other))
      requires before == Rooms().(guards := before.guards) && before.guards.Keys == known && guards == known + {g}
      requires g.Fields() == before.guards[other] && other.Fields() == PoolGuards.Cleared(before.guards[other])
      requires forall h | h in known && h != g && h != other :: h.Fields() == before.guards[h]
      ensures Rooms() == PoolGuards.TakenOver(before, g, other)
      ensures Rooms() == PoolGuards.Step(before, PoolGuards.Event.TakeOver(g, other))
    {
      hide PoolGuards.TakenOver, PoolGuards.Step, PoolGuards.Enabled;
      PoolGuards.TakeOverByFields(before, Rooms(), g, other);
    }

    /** The state after a successful `initialize` with at least one worker. */
    constructor (poolSize: nat, maxQueuedTasks: nat, workerThreads: nat)
      requires workerThreads >= 1 || poolSize >= 1
      ensures TasksValid() && GuardsValid()
      ensures Tasks() == PoolTasks.Start(maxQueuedTasks, if workerThreads > 0 then workerThreads else poolSize)
      ensures Rooms() == PoolGuards.Start(poolSize) && guards == {}
    {
      var numWorkers := if workerThreads > 0 then workerThreads else poolSize;
      this.poolSize, this.maxQueuedTasks := poolSize, maxQueuedTasks;
      initialized, shuttingDown, sequenceCounter := true, false, 0;
      available, busy, guards := PoolGuards.AllIndices(poolSize), {}, {};
      taskQueue, workers := multiset{}, PoolTasks.WaitingWorkers(numWorkers);
      stats := PoolTasks.Stats.Stats(0, 0, 0, 0);
      history := PoolTasks.History.History(multiset{}, multiset{}, multiset{});
      new;
      hide PoolTasks.Inv, PoolGuards.Inv;
      PoolGuards.StartInv<InterpreterGuard>(poolSize);
      PoolTasks.StartInv(maxQueuedTasks, numWorkers);
      assert Rooms().guards == map[];
    }

    // -------------------------------------------------------------- interpreters

    /** `acquire` up to its first wait. */
    method Acquire() returns (r: Acquired)
      requires GuardsValid()
      modifies `available, `busy, `guards
      ensures GuardsValid() && (r.Ok? ==> fresh(r.guard))
      ensures Granted(old(Rooms()), old(guards), r)
      ensures r.Ok? <==> initialized && !shuttingDown && old(available) != {}
      ensures r == Err(PoolNotInitialized) <==> !initialized
      ensures r == Err(ShutdownInProgress) <==> initialized && shuttingDown
      ensures r != Err(Timeout)
    {
      if !initialized {
        return Err(PoolNotInitialized);
      }
      if shuttingDown {
        return Err(ShutdownInProgress);
      }
      if available == {} {
        return Waits;
      }
      r := TakeInterpreter();
    }

    /** `acquire` from the end of one wait to the next.  A wait that ran into the deadline is given up
        even when an interpreter has become available; `initialized` is not looked at again. */
    method AcquireAfterWait(timedOut: bool) returns (r: Acquired)
      requires GuardsValid()
      modifies `available, `busy, `guards
      ensures GuardsValid() && (r.Ok? ==> fresh(r.guard))
      ensures Granted(old(Rooms()), old(guards), r)
      ensures r.Ok? <==> !timedOut && !shuttingDown && old(available) != {}
      ensures r == Err(Timeout) <==> timedOut
      ensures r == Err(ShutdownInProgress) <==> !timedOut && shuttingDown
      ensures r != Err(PoolNotInitialized)
    {
      if timedOut {
        return Err(Timeout);
      }
      if shuttingDown {
        return Err(ShutdownInProgress);
      }
      if available == {} {
        return Waits;
      }
      r := TakeInterpreter();
    }

    /** A new guard and an index that was available; without a guard nothing has changed. */
    ghost predicate Granted(before: PoolGuards.Rooms<InterpreterGuard>, known: set<InterpreterGuard>, r: Acquired)
      reads this, guards, if r.Ok? then {r.guard} else {}
    {
      if r.Ok? then
        var e := PoolGuards.Event.Acquire(r.guard, r.guard.index);
        && r.guard !in known && guards == known + {r.guard}
        && PoolGuards.Enabled(before, e) && Rooms() == PoolGuards.Step(before, e)
      else
        Rooms() == before && guards == known
    }

    method TakeInterpreter() returns (r: Acquired)
      requires GuardsValid() && available != {}
      modifies `available, `busy, `guards
      ensures GuardsValid() && r.Ok? && fresh(r.guard)
      ensures Granted(old(Rooms()), old(guards), r)
    {
      hide PoolGuards.Inv;
      ghost var before := Rooms();
      var index :| index in available;
      var guard := new InterpreterGuard.Holding(this, index);
      available := available - {index};
      busy := busy + {index};
      guards := guards + {guard};
      ghost var e := PoolGuards.Event.Acquire(guard, index);
      PoolGuards.StepInv(before, e);
      assert Rooms().guards == PoolGuards.Step(before, e).guards;
      return Ok(guard);
    }

    method Release(index: nat)
      modifies `available, `busy
      ensures available == if index in old(busy) then old(available) + {index} else old(available)
      ensures busy == if index in old(busy) then old(busy) - {index} else old(busy)
    {
      if index in busy {
        busy := busy - {index};
        available := available + {index};
      }
    }

    // -------------------------------------------------------------- tasks

    method SubmitTask(priority: int, now: int) returns (answer: PoolTasks.Answer)
      requires TasksValid()
      modifies `taskQueue, `sequenceCounter, `history
      ensures TasksValid() && answer == old(PoolTasks.SubmitAnswer(Tasks()))
      ensures Tasks() == old(PoolTasks.Step(Tasks(), PoolTasks.Event.Submit(priority, now)))
    {
      hide PoolTasks.Inv;
      PoolTasks.StepInv(Tasks(), PoolTasks.Event.Submit(priority, now));
      if !initialized {
        return PoolTasks.PoolNotInitialized;
      }
      if shuttingDown {
        return PoolTasks.PoolIsShuttingDown;
      }
      if |taskQueue| >= maxQueuedTasks {
        return PoolTasks.TaskQueueFull;
      }
      var task := PoolTasks.Task.Task(priority, now, sequenceCounter);
      sequenceCounter := sequenceCounter + 1;
      taskQueue := taskQueue + multiset{task};
      history := history.(accepted := history.accepted + multiset{task});
      return PoolTasks.Accepted;
    }

    /** A worker whose wait is over: it leaves its loop (`None`) or takes a top of the queue. */
    method WorkerTakes(w: nat) returns (task: Option<PoolTasks.Task>)
      requires TasksValid() && w < |workers| && workers[w].Waiting?
      requires shuttingDown || taskQueue != multiset{}
      modifies `taskQueue, `workers
      ensures TasksValid()
      ensures task.None? <==> old(shuttingDown && taskQueue == multiset{})
      ensures var e := if task.None? then PoolTasks.Event.Stop(w) else PoolTasks.Event.Pop(w, task.value);
              PoolTasks.Enabled(old(Tasks()), e) && Tasks() == PoolTasks.Step(old(Tasks()), e)
      ensures task.Some? ==> taskQueue == old(taskQueue) - multiset{task.value}
      ensures task.Some? ==> task.value in old(taskQueue) && PoolTasks.ComesFirst(task.value, old(taskQueue))
    {
      hide PoolTasks.Inv;
      ghost var before := Tasks();
      if shuttingDown && taskQueue == multiset{} {
        PoolTasks.StepInv(before, PoolTasks.Event.Stop(w));
        workers := workers[w := PoolTasks.Stopped];
        return None;
      }
      ghost var top := TopExists(taskQueue, PoolTasks.TaskKey);
      var t :| IsTop(t, taskQueue, PoolTasks.TaskKey);
      PoolTasks.StepInv(before, PoolTasks.Event.Pop(w, t));
      PoolTasks.TakesFirst(before, w, t);
      taskQueue := taskQueue - multiset{t};
      workers := workers[w := PoolTasks.Executing(t)];
      return Some(t);
    }

    /** The statistics update after a task's body; a worker then waits again. */
    method WorkerFinishes(w: nat, success: bool)
      requires TasksValid() && w < |workers| && workers[w].Executing?
      modifies `workers, `stats, `history
      ensures TasksValid()
      ensures Tasks() == old(PoolTasks.Step(Tasks(), PoolTasks.Event.Finish(w, success)))
    {
      hide PoolTasks.Inv;
      PoolTasks.StepInv(Tasks(), PoolTasks.Event.Finish(w, success));
      history := history.(executed := history.executed + multiset{workers[w].task});
      stats := stats.(totalTasks := stats.totalTasks + 1);
      if success {
        stats := stats.(successfulTasks := stats.successfulTasks + 1);
      } else {
        stats := stats.(failedTasks := stats.failedTasks + 1);
      }
      workers := workers[w := PoolTasks.Waiting];
    }

    method CancelAllTasks() returns (count: nat)
      requires TasksValid()
      modifies `taskQueue, `stats, `history
      ensures TasksValid() && count == |old(taskQueue)| && taskQueue == multiset{}
      ensures stats == old(stats).(cancelledTasks := old(stats).cancelledTasks + count)
      ensures Tasks() == old(PoolTasks.Step(Tasks(), PoolTasks.Event.CancelAll))
    {
      hide PoolTasks.Inv;
      PoolTasks.StepInv(Tasks(), PoolTasks.Event.CancelAll);
      count := |taskQueue|;
      history := history.(cancelled := history.cancelled + taskQueue);
      while taskQueue != multiset{}
        invariant stats == old(stats) && history == old(history).(cancelled := old(history).cancelled + old(taskQueue))
        decreases |taskQueue|
      {
        var t :| t in taskQueue;
        taskQueue := taskQueue - multiset{t};
      }
      stats := stats.(cancelledTasks := stats.cancelledTasks + count);
    }

    /** The first part of `shutdown`; `began` is false when there is nothing to shut down. */
    method BeginShutdown() returns (began: bool)
      requires TasksValid()
      modifies `shuttingDown
      ensures TasksValid() && (began <==> initialized && !old(shuttingDown))
      ensures Tasks() == if began then PoolTasks.Step(old(Tasks()), PoolTasks.Event.BeginShutdown) else old(Tasks())
    {
      hide PoolTasks.Inv;
      if !initialized || shuttingDown {
        return false;
      }
      PoolTasks.StepInv(Tasks(), PoolTasks.Event.BeginShutdown);
      shuttingDown := true;
      return true;
    }

    /** The rest of `shutdown`, once every worker has been joined. */
    method FinishShutdown(waitForTasks: bool)
      requires TasksValid() && initialized && shuttingDown && PoolTasks.AllStopped(Tasks())
      modifies `initialized, `workers, `taskQueue, `stats, `history
      ensures TasksValid()
      ensures Tasks() == old(PoolTasks.Step(Tasks(), PoolTasks.Event.FinishShutdown(waitForTasks)))
      ensures taskQueue == multiset{} && stats == old(stats)
    {
      hide PoolTasks.Inv;
      ghost var before := Tasks();
      PoolTasks.StepInv(before, PoolTasks.Event.FinishShutdown(waitForTasks));
      PoolTasks.DrainedWhenJoined(before);
      workers := [];
      if !waitForTasks {
        DiscardQueue();
      }
      initialized := false;
    }

    method DiscardQueue()
      modifies `taskQueue, `stats, `history
      ensures taskQueue == multiset{}
      ensures stats == old(stats).(cancelledTasks := old(stats).cancelledTasks + |old(taskQueue)|)
      ensures history == old(history).(cancelled := old(history).cancelled + old(taskQueue))
    {
      history := history.(cancelled := history.cancelled + taskQueue);
      while taskQueue != multiset{}
        invariant history == old(history).(cancelled := old(history).cancelled + old(taskQueue))
        invariant stats.cancelledTasks + |taskQueue| == old(stats).cancelledTasks + |old(taskQueue)|
        invariant stats == old(stats).(cancelledTasks := stats.cancelledTasks)
        decreases |taskQueue|
      {
        var t :| t in taskQueue;
        taskQueue := taskQueue - multiset{t};
        stats := stats.(cancelledTasks := stats.cancelledTasks + 1);
      }
    }
  }
}
