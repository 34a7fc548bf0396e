/**
 The task side of src/script/interpreter_pool.cpp as a state machine: every event is one stretch of
 code that runs under the pool's mutex, or the body of a task.
 */
module PoolTasks {
  import opened MultisetSum
  import opened PriorityOrder

  /** A queued task; its body is opaque.  The sequence number is not part of the order. */
  datatype Task = Task(priority: int, submitTime: int, sequenceNumber: nat)

  function TaskKey(t: Task): Key {
    Key(t.priority, t.submitTime)
  }

  datatype Worker = Waiting | Executing(task: Task) | Stopped

  datatype Stats = Stats(totalTasks: nat, successfulTasks: nat, failedTasks: nat, cancelledTasks: nat)

  /** What has happened to tasks; the code does not keep this. */
  datatype History = History(accepted: multiset<Task>, executed: multiset<Task>, cancelled: multiset<Task>)

  datatype Pool = Pool(maxQueuedTasks: nat, initialized: bool, shuttingDown: bool, sequenceCounter: nat,
                       queue: multiset<Task>, workers: seq<Worker>, stats: Stats, history: History)

  datatype Event =
    | Submit(priority: int, now: int)
    | Pop(worker: nat, task: Task)
    | Finish(worker: nat, success: bool)
    | Stop(worker: nat)
    | CancelAll
    | BeginShutdown
    | FinishShutdown(waitForTasks: bool)

  datatype Answer = Accepted | PoolNotInitialized | PoolIsShuttingDown | TaskQueueFull

  function SubmitAnswer(p: Pool): Answer {
    if !p.initialized then PoolNotInitialized
    else if p.shuttingDown then PoolIsShuttingDown
    else if |p.queue| >= p.maxQueuedTasks then TaskQueueFull
    else Accepted
  }

  function Submit(p: Pool, priority: int, now: int): Pool {
    if SubmitAnswer(p) != Accepted then p
    else
      var t := Task(priority, now, p.sequenceCounter);
      p.(queue := p.queue + multiset{t}, sequenceCounter := p.sequenceCounter + 1,
         history := p.history.(accepted := p.history.accepted + multiset{t}))
  }

  function CountTask(s: Stats, success: bool): Stats {
    if success then s.(totalTasks := s.totalTasks + 1, successfulTasks := s.successfulTasks + 1)
    else s.(totalTasks := s.totalTasks + 1, failedTasks := s.failedTasks + 1)
  }

  function CancelQueue(p: Pool): Pool {
    p.(queue := multiset{}, stats := p.stats.(cancelledTasks := p.stats.cancelledTasks + |p.queue|),
       history := p.history.(cancelled := p.history.cancelled + p.queue))
  }

  /** None of the tasks has a higher priority, and none of the same priority was submitted earlier. */
  predicate ComesFirst(t: Task, tasks: multiset<Task>) {
    forall u :: u in tasks ==>
                  u.priority < t.priority || (u.priority == t.priority && t.submitTime <= u.submitTime)
  }

  predicate AllStopped(p: Pool) {
    forall w :: 0 <= w < |p.workers| ==> p.workers[w].Stopped?
  }

  predicate Enabled(p: Pool, e: Event) {
    match e
    case Submit(_, _) => true
    case Pop(w, t) => w < |p.workers| && p.workers[w].Waiting? && IsTop(t, p.queue, TaskKey)
    case Finish(w, _) => w < |p.workers| && p.workers[w].Executing?
    case Stop(w) => w < |p.workers| && p.workers[w].Waiting? && p.shuttingDown && p.queue == multiset{}
    case CancelAll => true
    case BeginShutdown => p.initialized && !p.shuttingDown
    case FinishShutdown(_) => p.initialized && p.shuttingDown && AllStopped(p)
  }

  function Step(p: Pool, e: Event): Pool
    requires Enabled(p, e)
  {
    match e
    case Submit(priority, now) => Submit(p, priority, now)
    case Pop(w, t) => p.(queue := p.queue - multiset{t}, workers := p.workers[w := Executing(t)])
    case Finish(w, success) =>
      p.(workers := p.workers[w := Waiting], stats := CountTask(p.stats, success),
         history := p.history.(executed := p.history.executed + multiset{p.workers[w].task}))
    case Stop(w) => p.(workers := p.workers[w := Stopped])
    case CancelAll => CancelQueue(p)
    case BeginShutdown => p.(shuttingDown := true)
    case FinishShutdown(waitForTasks) =>
      (if waitForTasks then p else CancelQueue(p)).(workers := [], initialized := false)
  }

  predicate IsRun(p: Pool, es: seq<Event>)
    decreases |es|
  {
    es != [] ==> Enabled(p, es[0]) && IsRun(Step(p, es[0]), es[1..])
  }

  function Run(p: Pool, es: seq<Event>): Pool
    requires IsRun(p, es)
    decreases |es|
  {
    if es == [] then p else Run(Step(p, es[0]), es[1..])
  }

  function WaitingWorkers(n: nat): (workers: seq<Worker>)
    ensures |workers| == n && forall w :: 0 <= w < n ==> workers[w].Waiting?
  {
    seq(n, _ => Waiting)
  }

  function Start(maxQueuedTasks: nat, workers: nat): Pool {
    Pool(maxQueuedTasks, true, false, 0, multiset{}, WaitingWorkers(workers), Stats(0, 0, 0, 0),
         History(multiset{}, multiset{}, multiset{}))
  }

  // ---------------------------------------------------------------- tasks being executed

  function Holds(w: Worker): multiset<Task> {
    if w.Executing? then multiset{w.task} else multiset{}
  }

  function InFlight(workers: seq<Worker>): multiset<Task> {
    Sum(workers, Holds)
  }

  lemma InFlightUpdate(workers: seq<Worker>, w: nat, worker: Worker)
    requires w < |workers|
    ensures InFlight(workers[w := worker]) + Holds(workers[w]) == InFlight(workers) + Holds(worker)
  {
    SumAfterUpdate(workers, w, worker, Holds);
  }

  // ---------------------------------------------------------------- the invariant

  ghost predicate TasksConserved(p: Pool) {
    p.history.accepted == p.queue + InFlight(p.workers) + p.history.executed + p.history.cancelled
  }

  predicate StatsAgree(p: Pool) {
    && p.stats.totalTasks == |p.history.executed| == p.stats.successfulTasks + p.stats.failedTasks
    && p.stats.cancelledTasks == |p.history.cancelled|
  }

  /** Sequence numbers identify tasks, so no task is accepted twice. */
  ghost predicate TasksDistinct(p: Pool) {
    && |p.history.accepted| == p.sequenceCounter
    && (forall t :: t in p.history.accepted ==> t.sequenceNumber < p.sequenceCounter && p.history.accepted[t] == 1)
    && (forall t, u :: t in p.history.accepted && u in p.history.accepted && t.sequenceNumber == u.sequenceNumber ==>
          t == u)
  }

  /** A worker stops only when nothing is left, and then nothing can come. */
  predicate StoppedMeansDrained(p: Pool) {
    && (forall w :: 0 <= w < |p.workers| && p.workers[w].Stopped? ==> p.shuttingDown && p.queue == multiset{})
    && (p.workers == [] ==> p.shuttingDown && p.queue == multiset{})
    && (!p.initialized ==> p.shuttingDown)
  }

  ghost predicate Inv(p: Pool) {
    TasksConserved(p) && StatsAgree(p) && TasksDistinct(p) && StoppedMeansDrained(p) && |p.queue| <= p.maxQueuedTasks
  }

  lemma PopConserves(p: Pool, w: nat, t: Task)
    requires TasksConserved(p) && Enabled(p, Pop(w, t))
    ensures TasksConserved(Step(p, Pop(w, t)))
  {
    InFlightUpdate(p.workers, w, Executing(t));
    hide InFlight;
    var rest := p.queue - multiset{t};
    assert p.queue == rest + multiset{t};
    Moved(p.history.accepted, p.history.executed + p.history.cancelled, p.queue, rest,
          InFlight(p.workers), InFlight(p.workers[w := Executing(t)]), multiset{t});
  }

  lemma FinishConserves(p: Pool, w: nat, success: bool)
    requires TasksConserved(p) && Enabled(p, Finish(w, success))
    ensures TasksConserved(Step(p, Finish(w, success)))
  {
    InFlightUpdate(p.workers, w, Waiting);
    hide InFlight;
    var done, t := p.history.executed + p.history.cancelled, p.workers[w].task;
    assert p.history.executed + multiset{t} + p.history.cancelled == done + multiset{t};
    Moved(p.history.accepted, p.queue, InFlight(p.workers), InFlight(p.workers[w := Waiting]),
          done, done + multiset{t}, multiset{t});
  }

  lemma StopConserves(p: Pool, w: nat)
    requires TasksConserved(p) && Enabled(p, Event.Stop(w))
    ensures TasksConserved(Step(p, Event.Stop(w)))
  {
    InFlightUpdate(p.workers, w, Stopped);
    hide InFlight;
    assert InFlight(p.workers[w := Stopped]) + multiset{} == InFlight(p.workers[w := Stopped]);
    assert InFlight(p.workers) + multiset{} == InFlight(p.workers);
  }

  lemma Moved(total: multiset<Task>, rest: multiset<Task>, from: multiset<Task>, from': multiset<Task>,
              to: multiset<Task>, to': multiset<Task>, moved: multiset<Task>)
    requires total == rest + from + to && from == from' + moved && to' == to + moved
    ensures total == rest + from' + to'
  {
  }

  lemma StepConserves(p: Pool, e: Event)
    requires TasksConserved(p) && Enabled(p, e)
    ensures TasksConserved(Step(p, e))
  {
    match e {
      case Pop(w, t) => PopConserves(p, w, t);
      case Finish(w, success) => FinishConserves(p, w, success);
      case Stop(w) => StopConserves(p, w);
      case FinishShutdown(_) =>
        SumOfNothing(p.workers, Holds);
        SumOfNothing([], Holds);
      case _ =>
    }
  }

  lemma CancelStats(p: Pool)
    requires StatsAgree(p)
    ensures StatsAgree(CancelQueue(p))
  {
    assert |p.history.cancelled + p.queue| == |p.history.cancelled| + |p.queue|;
  }

  lemma FinishStats(p: Pool, w: nat, success: bool)
    requires StatsAgree(p) && Enabled(p, Finish(w, success))
    ensures StatsAgree(Step(p, Finish(w, success)))
  {
    var t := p.workers[w].task;
    assert |p.history.executed + multiset{t}| == |p.history.executed| + 1;
  }

  lemma StepStats(p: Pool, e: Event)
    requires StatsAgree(p) && Enabled(p, e)
    ensures StatsAgree(Step(p, e))
  {
    hide IsTop, AllStopped;
    match e {
      case Finish(w, success) =>
        FinishStats(p, w, success);
        hide *;
      case CancelAll =>
        CancelStats(p);
        hide StatsAgree, CancelQueue;
      case FinishShutdown(_) =>
        CancelStats(p);
        hide CancelQueue;
      case _ =>
    }
  }

  lemma StepDistinct(p: Pool, e: Event)
    requires TasksDistinct(p) && Enabled(p, e)
    ensures TasksDistinct(Step(p, e))
  {
    if e.Submit? && SubmitAnswer(p) == Accepted {
      var t := Task(e.priority, e.now, p.sequenceCounter);
      assert t !in p.history.accepted;
      assert Step(p, e).history.accepted == p.history.accepted + multiset{t};
    } else {
      assert Step(p, e).history.accepted == p.history.accepted;
    }
  }

  lemma StepBounded(p: Pool, e: Event)
    requires |p.queue| <= p.maxQueuedTasks && Enabled(p, e)
    ensures |Step(p, e).queue| <= p.maxQueuedTasks && Step(p, e).maxQueuedTasks == p.maxQueuedTasks
  {
    if e.Pop? {
      PutBack(p.queue, e.task);
    }
    hide AllStopped, IsTop;
  }

  /** No worker of the pool has stopped before the queue is empty for good. */
  lemma NoneStopped(p: Pool)
    requires StoppedMeansDrained(p) && (!p.shuttingDown || p.queue != multiset{})
    ensures p.workers != [] && forall w :: 0 <= w < |p.workers| ==> !p.workers[w].Stopped?
  {
  }

  lemma WorkerStepDrained(p: Pool, e: Event)
    requires StoppedMeansDrained(p) && Enabled(p, e) && (e.Pop? || e.Finish? || e.Stop?)
    ensures StoppedMeansDrained(Step(p, e))
  {
    if e.Pop? {
      assert p.queue != multiset{};
      NoneStopped(p);
    }
    hide IsTop;
  }

  lemma StepDrained(p: Pool, e: Event)
    requires StoppedMeansDrained(p) && Enabled(p, e)
    ensures StoppedMeansDrained(Step(p, e))
  {
    if e.Pop? || e.Finish? || e.Stop? {
      WorkerStepDrained(p, e);
      hide *;
    } else if e.FinishShutdown? {
      AllStoppedDrained(p);
    } else if e.Submit? && SubmitAnswer(p) == Accepted {
      NoneStopped(p);
    }
  }

  lemma AllStoppedDrained(p: Pool)
    requires StoppedMeansDrained(p) && AllStopped(p) && p.shuttingDown
    ensures p.queue == multiset{}
  {
    if p.workers != [] {
      assert p.workers[0].Stopped?;
    }
  }

  lemma StepInv(p: Pool, e: Event)
    requires Inv(p) && Enabled(p, e)
    ensures Inv(Step(p, e)) && Step(p, e).maxQueuedTasks == p.maxQueuedTasks
  {
    StepConserves(p, e);
    StepStats(p, e);
    StepDistinct(p, e);
    StepDrained(p, e);
    StepBounded(p, e);
    hide TasksConserved, StatsAgree, TasksDistinct, StoppedMeansDrained, Step, Enabled;
  }

  lemma StartInv(maxQueuedTasks: nat, workers: nat)
    requires workers >= 1
    ensures Inv(Start(maxQueuedTasks, workers))
  {
    SumOfNothing(Start(maxQueuedTasks, workers).workers, Holds);
  }

  lemma {:induction false} RunInv(p: Pool, es: seq<Event>)
    requires Inv(p) && IsRun(p, es)
    ensures Inv(Run(p, es))
    decreases |es|
  {
    if es != [] {
      StepInv(p, es[0]);
      RunInv(Step(p, es[0]), es[1..]);
    }
  }

  /** In every interleaving the accepted tasks are the queued, the running, the executed and the
      cancelled ones, each accepted task once; the statistics count them. */
  lemma AcceptedTasksAccountedFor(maxQueuedTasks: nat, workers: nat, es: seq<Event>)
    requires workers >= 1 && IsRun(Start(maxQueuedTasks, workers), es)
    ensures var p := Run(Start(maxQueuedTasks, workers), es);
            && p.history.accepted == p.queue + InFlight(p.workers) + p.history.executed + p.history.cancelled
            && (forall t :: t in p.history.accepted ==> p.history.accepted[t] == 1)
            && |p.history.accepted|
               == |p.queue| + |InFlight(p.workers)| + p.stats.totalTasks + p.stats.cancelledTasks
            && p.stats.totalTasks == p.stats.successfulTasks + p.stats.failedTasks
            && |p.queue| <= maxQueuedTasks
  {
    StartInv(maxQueuedTasks, workers);
    RunInv(Start(maxQueuedTasks, workers), es);
    RunKeepsLimit(Start(maxQueuedTasks, workers), es);
  }

  lemma {:induction false} RunKeepsLimit(p: Pool, es: seq<Event>)
    requires IsRun(p, es)
    ensures Run(p, es).maxQueuedTasks == p.maxQueuedTasks
    decreases |es|
  {
    if es != [] {
      RunKeepsLimit(Step(p, es[0]), es[1..]);
    }
  }

  // ---------------------------------------------------------------- what the events amount to

  function Successes(es: seq<Event>): nat
    decreases |es|
  {
    if es == [] then 0 else (if es[0].Finish? && es[0].success then 1 else 0) + Successes(es[1..])
  }

  function Failures(es: seq<Event>): nat
    decreases |es|
  {
    if es == [] then 0 else (if es[0].Finish? && !es[0].success then 1 else 0) + Failures(es[1..])
  }

  /** The counters tell how many task bodies came back and how many threw, and the two flags whether
      shutdown has begun and whether it is over. */
  lemma {:induction false} CountersOverRun(p: Pool, es: seq<Event>)
    requires IsRun(p, es)
    ensures var p' := Run(p, es);
            && p'.stats.successfulTasks == p.stats.successfulTasks + Successes(es)
            && p'.stats.failedTasks == p.stats.failedTasks + Failures(es)
            && p'.stats.totalTasks == p.stats.totalTasks + Successes(es) + Failures(es)
            && (p'.shuttingDown <==> p.shuttingDown || BeginShutdown in es)
            && (p'.initialized <==> p.initialized && forall e :: e in es ==> !e.FinishShutdown?)
    decreases |es|
  {
    if es != [] {
      StepCounters(p, es[0]);
      hide Step, Enabled;
      CountersOverRun(Step(p, es[0]), es[1..]);
      assert forall e :: e in es <==> e == es[0] || e in es[1..];
    }
  }

  lemma StepCounters(p: Pool, e: Event)
    requires Enabled(p, e)
    ensures var s, s' := p.stats, Step(p, e).stats;
            && s'.successfulTasks == s.successfulTasks + (if e.Finish? && e.success then 1 else 0)
            && s'.failedTasks == s.failedTasks + (if e.Finish? && !e.success then 1 else 0)
            && s'.totalTasks == s.totalTasks + (if e.Finish? then 1 else 0)
    ensures Step(p, e).shuttingDown <==> p.shuttingDown || e.BeginShutdown?
    ensures Step(p, e).initialized <==> p.initialized && !e.FinishShutdown?
  {
    hide AllStopped, IsTop;
  }

  /** After any run of the pool a submitted task is queued, with its priority and time and a number that
      no task had before, if and only if shutdown has not begun and the queue has room. */
  lemma AcceptedIff(maxQueuedTasks: nat, workers: nat, es: seq<Event>, priority: int, now: int)
    requires workers >= 1 && IsRun(Start(maxQueuedTasks, workers), es)
    ensures var p := Run(Start(maxQueuedTasks, workers), es);
            var p' := Step(p, Event.Submit(priority, now));
            if BeginShutdown !in es && |p.queue| < maxQueuedTasks then
              exists t :: && t !in p.history.accepted && t == Task(priority, now, |p.history.accepted|)
                          && p'.queue == p.queue + multiset{t} && p'.history.accepted == p.history.accepted + multiset{t}
            else p' == p
    ensures var p := Run(Start(maxQueuedTasks, workers), es);
            SubmitAnswer(p) ==
            if exists e :: e in es && e.FinishShutdown? then PoolNotInitialized
            else if BeginShutdown in es then PoolIsShuttingDown
            else if |p.queue| >= maxQueuedTasks then TaskQueueFull
            else Accepted
  {
    var p0 := Start(maxQueuedTasks, workers);
    var p := Run(p0, es);
    StartInv(maxQueuedTasks, workers);
    RunInv(p0, es);
    RunKeepsLimit(p0, es);
    CountersOverRun(p0, es);
    hide IsRun, Run;
    var t := Task(priority, now, p.sequenceCounter);
    assert t !in p.history.accepted;
  }

  /** A waiting worker may take a task if and only if none in the queue has a higher priority, and none of
      the same priority was submitted earlier. */
  lemma TakesFirst(p: Pool, w: nat, t: Task)
    requires w < |p.workers| && p.workers[w].Waiting?
    ensures Enabled(p, Pop(w, t)) <==> t in p.queue && ComesFirst(t, p.queue)
  {
    forall u | u in p.queue
      ensures !Below(TaskKey(t), TaskKey(u)) <==>
              u.priority < t.priority || (u.priority == t.priority && t.submitTime <= u.submitTime)
    {
    }
  }

  // ---------------------------------------------------------------- shutdown

  /** Once shutdown has begun nothing more is accepted, ever. */
  lemma {:induction false} NothingAcceptedAfterShutdown(p: Pool, es: seq<Event>)
    requires p.shuttingDown && IsRun(p, es)
    ensures Run(p, es).shuttingDown && Run(p, es).history.accepted == p.history.accepted
    decreases |es|
  {
    if es != [] {
      NothingAcceptedAfterShutdown(Step(p, es[0]), es[1..]);
    }
  }

  /** When all workers have been joined the queue is empty and every accepted task was executed or
      cancelled.  So the two forms of `shutdown` do the same: not waiting cancels nothing. */
  lemma DrainedWhenJoined(p: Pool)
    requires Inv(p) && AllStopped(p) && p.initialized && p.shuttingDown
    ensures p.queue == multiset{} && p.history.accepted == p.history.executed + p.history.cancelled
    ensures |p.history.accepted| == p.stats.totalTasks + p.stats.cancelledTasks
    ensures Step(p, FinishShutdown(false)) == Step(p, FinishShutdown(true))
  {
    AllStoppedDrained(p);
    SumOfNothing(p.workers, Holds);
    NothingToCancel(p);
    hide AllStopped, TasksDistinct, StoppedMeansDrained, Step, Enabled;
    assert p.history.accepted == p.history.executed + p.history.cancelled;
    assert |p.history.executed + p.history.cancelled| == |p.history.executed| + |p.history.cancelled|;
  }

  lemma StepCancels(p: Pool, e: Event)
    requires Inv(p) && Enabled(p, e) && !e.CancelAll?
    ensures Step(p, e).history.cancelled == p.history.cancelled
    ensures Step(p, e).stats.cancelledTasks == p.stats.cancelledTasks
  {
    if e.FinishShutdown? {
      FinishCancels(p, e.waitForTasks);
    } else {
      hide AllStopped, IsTop, Inv;
    }
  }

  lemma FinishCancels(p: Pool, waitForTasks: bool)
    requires Inv(p) && Enabled(p, FinishShutdown(waitForTasks))
    ensures Step(p, FinishShutdown(waitForTasks)).history.cancelled == p.history.cancelled
    ensures Step(p, FinishShutdown(waitForTasks)).stats.cancelledTasks == p.stats.cancelledTasks
  {
    AllStoppedDrained(p);
    hide AllStopped, Inv;
    assert p.history.cancelled + multiset{} == p.history.cancelled;
  }

  /** Only `cancelAllTasks` cancels: without it every task that was ever accepted has been executed when
      the workers are joined, whichever form of `shutdown` was called. */
  lemma {:induction false} ShutdownCancelsNothing(p: Pool, es: seq<Event>)
    requires Inv(p) && IsRun(p, es) && CancelAll !in es
    ensures var p' := Run(p, es);
            && p'.history.cancelled == p.history.cancelled && p'.stats.cancelledTasks == p.stats.cancelledTasks
            && (p'.initialized && p'.shuttingDown && AllStopped(p') && p.history.cancelled == multiset{} ==>
                  p'.history.accepted == p'.history.executed)
    decreases |es|
  {
    hide AllStopped, Inv, Step, Enabled;
    if es == [] {
      if AllStopped(p) && p.initialized && p.shuttingDown {
        DrainedWhenJoined(p);
        assert p.history.executed + multiset{} == p.history.executed;
      }
    } else {
      assert es[0] in es;
      StepInv(p, es[0]);
      StepCancels(p, es[0]);
      ShutdownCancelsNothing(Step(p, es[0]), es[1..]);
    }
  }

  lemma NothingToCancel(p: Pool)
    requires p.queue == multiset{} && Enabled(p, FinishShutdown(false))
    ensures Step(p, FinishShutdown(false)) == Step(p, FinishShutdown(true))
  {
    hide AllStopped;
    assert p.history.cancelled + multiset{} == p.history.cancelled;
  }

  function Effort(w: Worker): nat {
    match w
    case Waiting => 1
    case Executing(_) => 2
    case Stopped => 0
  }

  function Efforts(workers: seq<Worker>): nat {
    if workers == [] then 0 else Efforts(workers[..|workers| - 1]) + Effort(workers[|workers| - 1])
  }

  lemma {:induction false} EffortsUpdate(workers: seq<Worker>, i: nat, w: Worker)
    requires i < |workers|
    ensures Efforts(workers[i := w]) + Effort(workers[i]) == Efforts(workers) + Effort(w)
    decreases |workers|
  {
    var front, n := workers[..|workers| - 1], |workers| - 1;
    if i < n {
      EffortsUpdate(front, i, w);
      assert workers[i := w][..n] == front[i := w];
    } else {
      assert workers[i := w][..n] == front;
    }
  }

  function Remaining(p: Pool): nat {
    2 * |p.queue| + Efforts(p.workers)
  }

  predicate IsWorkerEvent(e: Event) {
    e.Pop? || e.Finish? || e.Stop?
  }

  function WorkerEvents(es: seq<Event>): nat
    decreases |es|
  {
    if es == [] then 0 else (if IsWorkerEvent(es[0]) then 1 else 0) + WorkerEvents(es[1..])
  }

  lemma StepRemaining(p: Pool, e: Event)
    requires p.shuttingDown && Enabled(p, e)
    ensures Remaining(Step(p, e)) + (if IsWorkerEvent(e) then 1 else 0) <= Remaining(p)
  {
    match e {
      case Pop(w, t) => PopRemaining(p, w, t);
      case Finish(w, _) =>
        EffortsUpdate(p.workers, w, Waiting);
        hide Efforts;
      case Stop(w) =>
        EffortsUpdate(p.workers, w, Stopped);
        hide Efforts;
      case FinishShutdown(_) =>
        NoEffort();
        hide Efforts;
      case _ => hide Efforts;
    }
  }

  lemma PopRemaining(p: Pool, w: nat, t: Task)
    requires Enabled(p, Pop(w, t))
    ensures Remaining(Step(p, Pop(w, t))) + 1 == Remaining(p)
  {
    TopIsIn(t, p.queue);
    hide IsTop, Efforts;
    EffortsUpdate(p.workers, w, Executing(t));
    PutBack(p.queue, t);
  }

  lemma TopIsIn(t: Task, queue: multiset<Task>)
    requires IsTop(t, queue, TaskKey)
    ensures t in queue
  {
  }

  lemma NoEffort()
    ensures Efforts([]) == 0
  {
  }

  /** After shutdown has begun the workers do a bounded number of things in all... */
  lemma {:induction false} ShutdownIsBounded(p: Pool, es: seq<Event>)
    requires p.shuttingDown && IsRun(p, es)
    ensures WorkerEvents(es) + Remaining(Run(p, es)) <= Remaining(p)
    decreases |es|
  {
    if es != [] {
      StepRemaining(p, es[0]);
      hide Remaining;
      ShutdownIsBounded(Step(p, es[0]), es[1..]);
    }
  }

  /** ... and each of them can go on until it stops, so `join` returns. */
  lemma WorkerNeverStuck(p: Pool, w: nat) returns (e: Event)
    requires p.shuttingDown && w < |p.workers| && !p.workers[w].Stopped?
    ensures IsWorkerEvent(e) && e.worker == w && Enabled(p, e)
  {
    if p.workers[w].Executing? {
      e := Finish(w, true);
    } else if p.queue == multiset{} {
      e := Stop(w);
    } else {
      var t := TopExists(p.queue, TaskKey);
      e := Pop(w, t);
    }
  }
}
