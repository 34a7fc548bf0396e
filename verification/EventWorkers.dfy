/**
 The worker threads of src/server/eventloop.cpp (`workerThread`) as a state machine, in builds
 without USE_ASIO.  Each event is one access to the shared queue, one test, or one call of a task's
 function; the events of different workers interleave in any way.
 */
module EventWorkers {
  import opened Common
  import opened MultisetSum
  import opened PriorityOrder
  import opened EventQueue

  const BATCH_SIZE: nat := 16
  const PERIOD: int := 100_000_000 // 100 ms in nanoseconds

  /** Where a worker is: at the head of its loop, in the batch loop, in the execute loop (about to
      call the function of the next local task, or having called it), or gone. */
  datatype Phase = AtTop | Batching(popped: nat) | Running(next: nat, called: bool) | Exited

  /** `hand` is the task popped and not yet sorted; `local` is `local_tasks`. */
  datatype Worker = Worker(phase: Phase, hand: Option<Task>, local: seq<Task>)

  /** What has happened so far; the code does not keep this.  `requeued` are the periodic tasks as
      they were executed and `advanced` the same tasks as they were pushed back. */
  datatype History = History(pushed: multiset<Task>, called: multiset<Task>, requeued: multiset<Task>,
                             advanced: multiset<Task>, finished: multiset<Task>)

  datatype Loop = Loop(queue: multiset<Task>, legacy: multiset<Task>, workers: seq<Worker>, clock: int, stop: bool,
                       history: History)

  /** What a worker does next. */
  datatype Action =
    | Begin
    | Pop(task: Task)
    | Sort
    | EndBatch
    | Call
    | Settle
    | EndPass
    | Exit

  datatype Event =
    | Push(task: Task)
    | Post(task: Task)
    | Tick(now: int)
    | RequestStop
    | Work(w: nat, action: Action)

  function Advance(t: Task): Task {
    t.(executionTime := t.executionTime + PERIOD)
  }

  predicate Due(t: Task, now: int) {
    t.executionTime <= now && t.isActive
  }

  /** The tasks of a worker that are not yet settled. */
  function Carry(w: Worker): multiset<Task> {
    (if w.hand.Some? then multiset{w.hand.value} else multiset{})
    + multiset(if w.phase.Running? && w.phase.next <= |w.local| then w.local[w.phase.next..] else w.local)
  }

  /** The task whose function the worker has called and which it has not yet settled. */
  function Busy(w: Worker): multiset<Task> {
    if w.phase.Running? && w.phase.called && w.phase.next < |w.local| then multiset{w.local[w.phase.next]} else multiset{}
  }

  /** Every task that is in the queue, with a worker, or done. */
  function Carried(l: Loop): multiset<Task> {
    l.queue + Sum(l.workers, Carry) + l.history.finished
  }

  // ---------------------------------------------------------------- events

  predicate Enabled(l: Loop, e: Event) {
    match e
    case Push(t) => forall u | u in Carried(l) :: u.taskId != t.taskId
    case Post(_) => true
    case Tick(now) => l.clock <= now
    case RequestStop => true
    case Work(i, a) => i < |l.workers| && WorkerEnabled(l, l.workers[i], a)
  }

  predicate WorkerEnabled(l: Loop, w: Worker, a: Action) {
    match a
    case Begin => w.phase.AtTop?
    case Pop(t) => w.phase.Batching? && w.phase.popped < BATCH_SIZE && w.hand.None? && IsTop(t, l.queue, TaskKey)
    case Sort => w.phase.Batching? && w.hand.Some?
    case EndBatch => w.phase.Batching? && w.hand.None? && (w.phase.popped == BATCH_SIZE || l.queue == multiset{})
    case Call => w.phase.Running? && w.phase.next < |w.local| && !w.phase.called
    case Settle => w.phase.Running? && w.phase.next < |w.local| && w.phase.called
    case EndPass => w.phase.Running? && w.phase.next == |w.local|
    case Exit => w.phase.AtTop? && l.stop
  }

  function NextWorker(l: Loop, w: Worker, a: Action): Worker
    requires WorkerEnabled(l, w, a)
  {
    match a
    case Begin => w.(phase := Batching(0))
    case Pop(t) => w.(hand := Some(t))
    case Sort =>
      Worker(Batching(w.phase.popped + 1), None,
             if Due(w.hand.value, l.clock) then w.local + [w.hand.value] else w.local)
    case EndBatch => w.(phase := Running(0, false))
    case Call => w.(phase := Running(w.phase.next, true))
    case Settle => w.(phase := Running(w.phase.next + 1, false))
    case EndPass => Worker(AtTop, None, [])
    case Exit => w.(phase := Exited)
  }

  function NextQueue(l: Loop, w: Worker, a: Action): multiset<Task>
    requires WorkerEnabled(l, w, a)
  {
    match a
    case Pop(t) => l.queue - multiset{t}
    case Sort => if Due(w.hand.value, l.clock) then l.queue else l.queue + multiset{w.hand.value}
    case Settle =>
      if Current(w).kind.Periodic? then l.queue + multiset{Advance(Current(w))} else l.queue
    case _ => l.queue
  }

  function NextHistory(l: Loop, w: Worker, a: Action): History
    requires WorkerEnabled(l, w, a)
  {
    match a
    case Call =>
      if Current(w).isActive then l.history.(called := l.history.called + multiset{Current(w)}) else l.history
    case Settle =>
      if Current(w).kind.Periodic? then Requeue(l.history, Current(w))
      else l.history.(finished := l.history.finished + multiset{Current(w)})
    case _ => l.history
  }

  function Current(w: Worker): Task
    requires w.phase.Running? && w.phase.next < |w.local|
  {
    w.local[w.phase.next]
  }

  function Requeue(h: History, t: Task): History {
    h.(requeued := h.requeued + multiset{t}, advanced := h.advanced + multiset{Advance(t)})
  }

  function Step(l: Loop, e: Event): Loop
    requires Enabled(l, e)
  {
    match e
    case Push(t) =>
      l.(queue := l.queue + multiset{t}, history := l.history.(pushed := l.history.pushed + multiset{t}))
    case Post(t) => l.(legacy := l.legacy + multiset{t})
    case Tick(now) => l.(clock := now)
    case RequestStop => l.(stop := true)
    case Work(i, a) =>
      var w := l.workers[i];
      Loop(NextQueue(l, w, a), l.legacy, l.workers[i := NextWorker(l, w, a)], l.clock, l.stop, NextHistory(l, w, a))
  }

  predicate IsRun(l: Loop, es: seq<Event>)
    decreases |es|
  {
    es != [] ==> Enabled(l, es[0]) && IsRun(Step(l, es[0]), es[1..])
  }

  function Run(l: Loop, es: seq<Event>): Loop
    requires IsRun(l, es)
    decreases |es|
  {
    if es == [] then l else Run(Step(l, es[0]), es[1..])
  }

  // ---------------------------------------------------------------- nothing early, nothing inactive

  /** A worker's local tasks are active and due, and its fields fit its phase. */
  predicate WorkerOk(w: Worker, clock: int) {
    && (forall t | t in w.local :: Due(t, clock))
    && (w.hand.Some? ==> w.phase.Batching? && w.phase.popped < BATCH_SIZE)
    && match w.phase
       case AtTop => w.local == []
       case Batching(popped) => |w.local| <= popped <= BATCH_SIZE
       case Running(next, called) => next <= |w.local| <= BATCH_SIZE && (called ==> next < |w.local|)
       case Exited => w.local == []
  }

  predicate AllOk(l: Loop) {
    forall i | 0 <= i < |l.workers| :: WorkerOk(l.workers[i], l.clock)
  }

  lemma WorkerStepOk(l: Loop, w: Worker, a: Action)
    requires WorkerOk(w, l.clock) && WorkerEnabled(l, w, a)
    ensures WorkerOk(NextWorker(l, w, a), l.clock)
  {
  }

  lemma StepOk(l: Loop, e: Event)
    requires AllOk(l) && Enabled(l, e)
    ensures AllOk(Step(l, e))
  {
    if e.Work? {
      WorkerStepOk(l, l.workers[e.w], e.action);
      hide WorkerOk, WorkerEnabled, NextWorker;
    } else {
      forall i | 0 <= i < |l.workers|
        ensures WorkerOk(l.workers[i], Step(l, e).clock)
      {
        assert WorkerOk(l.workers[i], l.clock);
      }
    }
  }

  /** A popped task is kept by its worker if and only if it is active and its execution time has come;
      otherwise it goes back into the queue. */
  lemma KeptIffDue(l: Loop, i: nat)
    requires Enabled(l, Work(i, Sort))
    ensures var t, before := l.workers[i].hand.value, l.workers[i].local;
            var l' := Step(l, Work(i, Sort));
            && l'.workers[i].hand.None?
            && if t.isActive && t.executionTime <= l.clock then l'.workers[i].local == before + [t] && l'.queue == l.queue
               else l'.workers[i].local == before && l'.queue == l.queue + multiset{t}
  {
  }

  lemma CallIsDue(l: Loop, e: Event)
    requires AllOk(l) && Enabled(l, e) && e.Work? && e.action.Call?
    ensures Due(Current(l.workers[e.w]), l.clock)
  {
    assert WorkerOk(l.workers[e.w], l.clock);
    assert Current(l.workers[e.w]) in l.workers[e.w].local;
  }

  // ---------------------------------------------------------------- conservation

  /** The task that a step exchanges for a later one: the periodic task it re-queues. */
  function Requeued(w: Worker, a: Action): multiset<Task>
    requires a.Settle? ==> w.phase.Running? && w.phase.next < |w.local|
  {
    if a.Settle? && Current(w).kind.Periodic? then multiset{Current(w)} else multiset{}
  }

  function Later(w: Worker, a: Action): multiset<Task>
    requires a.Settle? ==> w.phase.Running? && w.phase.next < |w.local|
  {
    if a.Settle? && Current(w).kind.Periodic? then multiset{Advance(Current(w))} else multiset{}
  }

  function Added(l: Loop, e: Event): multiset<Task>
    requires Enabled(l, e)
  {
    match e
    case Push(t) => multiset{t}
    case Work(i, a) => Later(l.workers[i], a)
    case _ => multiset{}
  }

  function Removed(l: Loop, e: Event): multiset<Task>
    requires Enabled(l, e)
  {
    if e.Work? then Requeued(l.workers[e.w], e.action) else multiset{}
  }

  // The laws are kept count by count: `t` is any one task.

  lemma SortCarry(l: Loop, w: Worker, t: Task)
    requires WorkerOk(w, l.clock) && WorkerEnabled(l, w, Sort)
    ensures Carry(w)[t] == Carry(NextWorker(l, w, Sort))[t]
         + if Due(w.hand.value, l.clock) then 0 else multiset{w.hand.value}[t]
  {
  }

  lemma SettleCarry(l: Loop, w: Worker, t: Task)
    requires WorkerOk(w, l.clock) && WorkerEnabled(l, w, Settle)
    ensures Carry(w)[t] == Carry(NextWorker(l, w, Settle))[t] + multiset{Current(w)}[t]
  {
    var k := w.phase.next;
    assert w.local[k..] == [w.local[k]] + w.local[k + 1..];
  }

  lemma OtherCarry(l: Loop, w: Worker, a: Action, t: Task)
    requires WorkerOk(w, l.clock) && WorkerEnabled(l, w, a) && !a.Sort? && !a.Settle?
    ensures Carry(NextWorker(l, w, a))[t] == Carry(w)[t] + if a.Pop? then multiset{a.task}[t] else 0
  {
    match a {
      case EndBatch => assert w.local[0..] == w.local;
      case EndPass => assert w.local[|w.local|..] == [];
      case _ =>
    }
  }

  /** One worker's share, with the queue and the finished tasks. */
  lemma ShareBalance(l: Loop, w: Worker, a: Action, t: Task)
    requires WorkerOk(w, l.clock) && WorkerEnabled(l, w, a)
    ensures NextQueue(l, w, a)[t] + Carry(NextWorker(l, w, a))[t] + NextHistory(l, w, a).finished[t] + Requeued(w, a)[t]
            == l.queue[t] + Carry(w)[t] + l.history.finished[t] + Later(w, a)[t]
  {
    hide Carry, WorkerOk, NextWorker;
    if a.Sort? {
      SortCarry(l, w, t);
    } else if a.Settle? {
      SettleCarry(l, w, t);
    } else if a.Pop? {
      OtherCarry(l, w, a, t);
      assert a.task in l.queue;
      hide IsTop;
    } else {
      OtherCarry(l, w, a, t);
      hide IsTop;
    }
  }

  /** No event loses or duplicates a task. */
  lemma StepCarried(l: Loop, e: Event, t: Task)
    requires AllOk(l) && Enabled(l, e)
    ensures Carried(Step(l, e))[t] + Removed(l, e)[t] == Carried(l)[t] + Added(l, e)[t]
  {
    if e.Work? {
      var w := l.workers[e.w];
      CountAfterUpdate(l.workers, e.w, NextWorker(l, w, e.action), Carry, t);
      ShareBalance(l, w, e.action, t);
      hide Carry, NextWorker, NextQueue, NextHistory, Requeued, Later, AllOk, WorkerEnabled;
    }
  }

  /** Every task ever pushed is in the queue, with one worker, or finished; a periodic one that was
      re-queued is there with its time moved on instead. */
  ghost predicate TasksConserved(l: Loop) {
    forall t :: Carried(l)[t] + l.history.requeued[t] == l.history.pushed[t] + l.history.advanced[t]
  }

  lemma WorkHistory(l: Loop, w: Worker, a: Action, t: Task)
    requires WorkerEnabled(l, w, a)
    ensures NextHistory(l, w, a).pushed == l.history.pushed
    ensures NextHistory(l, w, a).requeued[t] == l.history.requeued[t] + Requeued(w, a)[t]
    ensures NextHistory(l, w, a).advanced[t] == l.history.advanced[t] + Later(w, a)[t]
  {
  }

  lemma HistoryStep(l: Loop, e: Event, t: Task)
    requires Enabled(l, e)
    ensures Step(l, e).history.requeued[t] == l.history.requeued[t] + Removed(l, e)[t]
    ensures Step(l, e).history.pushed[t] + Step(l, e).history.advanced[t]
            == l.history.pushed[t] + l.history.advanced[t] + Added(l, e)[t]
  {
    if e.Work? {
      WorkHistory(l, l.workers[e.w], e.action, t);
      hide NextHistory;
    }
    hide NextWorker, NextQueue, Carried, WorkerEnabled;
  }

  lemma StepConserves(l: Loop, e: Event)
    requires AllOk(l) && Enabled(l, e) && TasksConserved(l)
    ensures TasksConserved(Step(l, e))
  {
    forall t
      ensures Carried(Step(l, e))[t] + Step(l, e).history.requeued[t]
              == Step(l, e).history.pushed[t] + Step(l, e).history.advanced[t]
    {
      StepCarried(l, e, t);
      HistoryStep(l, e, t);
      hide Step, Enabled, Added, Removed, Carried, AllOk;
      assert Carried(l)[t] + l.history.requeued[t] == l.history.pushed[t] + l.history.advanced[t];
    }
  }

  /** Every call has led to one re-queueing or one finish, or is about to. */
  ghost predicate CallsAccounted(l: Loop) {
    forall t :: l.history.called[t] == l.history.requeued[t] + l.history.finished[t] + Sum(l.workers, Busy)[t]
  }

  lemma BusyBalance(l: Loop, w: Worker, a: Action, t: Task)
    requires WorkerOk(w, l.clock) && WorkerEnabled(l, w, a)
    ensures var h, h' := l.history, NextHistory(l, w, a);
            Busy(NextWorker(l, w, a))[t] + h'.requeued[t] + h'.finished[t] + h.called[t]
            == Busy(w)[t] + h.requeued[t] + h.finished[t] + h'.called[t]
  {
    if a.Call? {
      assert Current(w) in w.local;
    }
  }

  lemma StepCalled(l: Loop, e: Event)
    requires AllOk(l) && Enabled(l, e) && CallsAccounted(l)
    ensures CallsAccounted(Step(l, e))
  {
    if e.Work? {
      var w, l' := l.workers[e.w], Step(l, e);
      forall t
        ensures l'.history.called[t] == l'.history.requeued[t] + l'.history.finished[t] + Sum(l'.workers, Busy)[t]
      {
        CountAfterUpdate(l.workers, e.w, NextWorker(l, w, e.action), Busy, t);
        BusyBalance(l, w, e.action, t);
        hide Busy, NextWorker, NextQueue, NextHistory, AllOk, WorkerEnabled;
      }
    }
  }

  /** What went back into the queue are the executed periodic tasks, each one period later. */
  ghost predicate RequeuedLater(h: History) {
    && (forall t :: h.advanced[Advance(t)] == h.requeued[t])
    && (forall t :: t in h.requeued ==> t.kind.Periodic?)
    && (forall t :: t in h.finished ==> !t.kind.Periodic?)
  }

  lemma RequeueLater(h: History, u: Task)
    requires RequeuedLater(h) && u.kind.Periodic?
    ensures RequeuedLater(Requeue(h, u))
  {
    forall t
      ensures Requeue(h, u).advanced[Advance(t)] == Requeue(h, u).requeued[t]
    {
      assert h.advanced[Advance(t)] == h.requeued[t];
      RequeueOne(h, u, t);
      hide Advance;
    }
  }

  lemma RequeueOne(h: History, u: Task, t: Task)
    requires h.advanced[Advance(t)] == h.requeued[t]
    ensures Requeue(h, u).advanced[Advance(t)] == Requeue(h, u).requeued[t]
  {
    AdvanceInjective(t, u);
    hide Advance;
  }

  lemma AdvanceInjective(t: Task, u: Task)
    ensures Advance(t) == Advance(u) <==> t == u
  {
  }

  lemma FinishLater(h: History, u: Task)
    requires RequeuedLater(h) && !u.kind.Periodic?
    ensures RequeuedLater(h.(finished := h.finished + multiset{u}))
  {
  }

  lemma WorkRequeued(l: Loop, w: Worker, a: Action)
    requires WorkerEnabled(l, w, a) && RequeuedLater(l.history)
    ensures RequeuedLater(NextHistory(l, w, a))
  {
    if a.Settle? {
      var t := Current(w);
      if t.kind.Periodic? {
        RequeueLater(l.history, t);
      } else {
        FinishLater(l.history, t);
      }
      hide RequeuedLater, Requeue;
    }
  }

  lemma StepRequeued(l: Loop, e: Event)
    requires Enabled(l, e) && RequeuedLater(l.history)
    ensures RequeuedLater(Step(l, e).history)
  {
    if e.Work? {
      WorkRequeued(l, l.workers[e.w], e.action);
      hide RequeuedLater;
    }
    hide NextWorker, NextQueue, NextHistory, Carried, WorkerEnabled;
  }

  ghost predicate Inv(l: Loop) {
    AllOk(l) && TasksConserved(l) && CallsAccounted(l) && RequeuedLater(l.history)
  }

  lemma StepInv(l: Loop, e: Event)
    requires Inv(l) && Enabled(l, e)
    ensures Inv(Step(l, e))
  {
    StepOk(l, e);
    StepConserves(l, e);
    StepCalled(l, e);
    StepRequeued(l, e);
    hide AllOk, TasksConserved, CallsAccounted, RequeuedLater, Step, Enabled;
  }

  lemma {:induction false} RunInv(l: Loop, es: seq<Event>)
    requires Inv(l) && IsRun(l, es)
    ensures Inv(Run(l, es))
    decreases |es|
  {
    if es != [] {
      StepInv(l, es[0]);
      hide Inv, Step, Enabled;
      RunInv(Step(l, es[0]), es[1..]);
    }
  }

  function IdleWorkers(n: nat): (workers: seq<Worker>)
    ensures |workers| == n && forall i | 0 <= i < n :: workers[i] == Worker(AtTop, None, [])
  {
    seq(n, _ => Worker(AtTop, None, []))
  }

  function Start(n: nat, clock: int): Loop {
    Loop(multiset{}, multiset{}, IdleWorkers(n), clock, false,
         History(multiset{}, multiset{}, multiset{}, multiset{}, multiset{}))
  }

  lemma StartInv(n: nat, clock: int)
    ensures Inv(Start(n, clock)) && Carried(Start(n, clock)) == multiset{}
  {
    var l := Start(n, clock);
    SumOfNothing(l.workers, Carry);
    SumOfNothing(l.workers, Busy);
  }

  /** With any number of workers and any interleaving. */
  lemma TasksAreConserved(n: nat, clock: int, es: seq<Event>)
    requires IsRun(Start(n, clock), es)
    ensures var l := Run(Start(n, clock), es);
            TasksConserved(l) && CallsAccounted(l) && RequeuedLater(l.history)
  {
    StartInv(n, clock);
    RunInv(Start(n, clock), es);
  }

  lemma {:induction false} RunPrefix(l: Loop, es: seq<Event>, k: nat)
    requires IsRun(l, es) && k < |es|
    ensures IsRun(l, es[..k]) && Enabled(Run(l, es[..k]), es[k])
    decreases |es|
  {
    hide Enabled, Step;
    if k == 0 {
      assert es[..0] == [];
    } else {
      assert es[..k][1..] == es[1..][..k - 1] && es[1..][k - 1] == es[k];
      RunPrefix(Step(l, es[0]), es[1..], k - 1);
    }
  }

  /** Whenever in a run a function is called, its task is active and its execution time has come. */
  lemma CalledOnlyWhenDue(n: nat, clock: int, es: seq<Event>, k: nat)
    requires IsRun(Start(n, clock), es) && k < |es| && es[k].Work? && es[k].action.Call?
    ensures IsRun(Start(n, clock), es[..k])
    ensures var l := Run(Start(n, clock), es[..k]);
            && Enabled(l, es[k])
            && var t := Current(l.workers[es[k].w]); t.isActive && t.executionTime <= l.clock
  {
    StartInv(n, clock);
    RunPrefix(Start(n, clock), es, k);
    RunInv(Start(n, clock), es[..k]);
    CallIsDue(Run(Start(n, clock), es[..k]), es[k]);
  }

  // ---------------------------------------------------------------- when a worker moves on

  /** In its batch loop a worker pops again if and only if it has popped fewer than sixteen tasks and there is
      one, and it goes on to execute them otherwise. */
  lemma BatchEndsIff(l: Loop, i: nat)
    requires i < |l.workers| && l.workers[i].phase.Batching? && l.workers[i].hand.None?
    requires l.workers[i].phase.popped <= 16
    ensures (exists t :: Enabled(l, Work(i, Pop(t)))) <==> l.workers[i].phase.popped < 16 && l.queue != multiset{}
    ensures Enabled(l, Work(i, EndBatch)) <==> l.workers[i].phase.popped == 16 || l.queue == multiset{}
  {
    if l.queue != multiset{} {
      var t := TopExists(l.queue, TaskKey);
      assert Enabled(l, Work(i, Pop(t))) <==> l.workers[i].phase.popped < 16;
    }
  }

  /** Every worker that has not left can take a step. */
  lemma WorkerNeverStuck(l: Loop, i: nat) returns (a: Action)
    requires i < |l.workers| && WorkerOk(l.workers[i], l.clock) && !l.workers[i].phase.Exited?
    ensures Enabled(l, Work(i, a)) && !a.Exit?
  {
    var w := l.workers[i];
    match w.phase {
      case AtTop => a := Begin;
      case Batching(popped) =>
        if w.hand.Some? {
          a := Sort;
        } else if popped == BATCH_SIZE || l.queue == multiset{} {
          a := EndBatch;
        } else {
          var t := TopExists(l.queue, TaskKey);
          a := Pop(t);
        }
      case Running(next, called) =>
        a := if next == |w.local| then EndPass else if called then Settle else Call;
    }
  }

  predicate LeftOnlyIfStopped(l: Loop) {
    forall i | 0 <= i < |l.workers| :: l.workers[i].phase.Exited? ==> l.stop
  }

  lemma StepLeaves(l: Loop, e: Event)
    requires LeftOnlyIfStopped(l) && Enabled(l, e)
    ensures LeftOnlyIfStopped(Step(l, e)) && (Step(l, e).stop <==> l.stop || e.RequestStop?)
  {
    hide IsTop, Carried, NextQueue, NextHistory;
  }

  /** No worker leaves its loop before `stop` was called. */
  lemma {:induction false} NoneLeavesUnasked(l: Loop, es: seq<Event>)
    requires LeftOnlyIfStopped(l) && IsRun(l, es)
    ensures LeftOnlyIfStopped(Run(l, es)) && (Run(l, es).stop <==> l.stop || RequestStop in es)
    decreases |es|
  {
    if es != [] {
      StepLeaves(l, es[0]);
      hide LeftOnlyIfStopped, Step, Enabled;
      NoneLeavesUnasked(Step(l, es[0]), es[1..]);
      assert RequestStop in es <==> es[0].RequestStop? || RequestStop in es[1..];
    }
  }

  // ---------------------------------------------------------------- one task followed

  /** The task is in one place only, and no other task goes by its number. */
  ghost predicate IsThere(carried: multiset<Task>, t: Task) {
    carried[t] == 1 && forall u :: u in carried && u.taskId == t.taskId ==> u == t
  }

  /** 1 if the step re-queues the task with this number, 0 otherwise. */
  function Moves(l: Loop, e: Event, taskId: int): nat
    requires Enabled(l, e)
  {
    if exists t | t in Removed(l, e) :: t.taskId == taskId then 1 else 0
  }

  /** How often a task is re-queued during a run. */
  function Requeues(l: Loop, es: seq<Event>, taskId: int): nat
    requires IsRun(l, es)
    decreases |es|
  {
    if es == [] then 0
    else Moves(l, es[0], taskId) + Requeues(Step(l, es[0]), es[1..], taskId)
  }

  /** The task after `k` re-queueings. */
  function After(t: Task, k: nat): Task {
    t.(executionTime := t.executionTime + 100_000_000 * k)
  }

  lemma Exchanged(c: multiset<Task>, c': multiset<Task>, t: Task, u: Task)
    requires IsThere(c, t) && u in c
    requires forall v :: c'[v] + multiset{u}[v] == c[v] + multiset{Advance(u)}[v]
    ensures IsThere(c', After(t, if u.taskId == t.taskId then 1 else 0))
  {
  }

  lemma Undisturbed(c: multiset<Task>, c': multiset<Task>, t: Task, added: multiset<Task>)
    requires IsThere(c, t) && forall u :: u in added ==> u.taskId != t.taskId
    requires forall v :: c'[v] == c[v] + added[v]
    ensures IsThere(c', After(t, 0))
  {
  }

  lemma CurrentIsCarried(l: Loop, i: nat)
    requires i < |l.workers| && l.workers[i].phase.Running? && l.workers[i].phase.next < |l.workers[i].local|
    ensures Current(l.workers[i]) in Carried(l)
  {
    var w := l.workers[i];
    var t := Current(w);
    CountAfterUpdate(l.workers, i, Worker(AtTop, None, []), Carry, t);
    assert w.local[w.phase.next..][0] == t;
    assert Carry(w)[t] > 0 && Carry(Worker(AtTop, None, []))[t] == 0;
    hide Carry;
  }

  lemma OthersFollowed(l: Loop, e: Event, t: Task)
    requires AllOk(l) && Enabled(l, e) && IsThere(Carried(l), t)
    requires Removed(l, e) == multiset{} && forall u :: u in Added(l, e) ==> u.taskId != t.taskId
    ensures IsThere(Carried(Step(l, e)), After(t, Moves(l, e, t.taskId)))
  {
    forall v
      ensures Carried(Step(l, e))[v] == Carried(l)[v] + Added(l, e)[v]
    {
      StepCarried(l, e, v);
    }
    assert Moves(l, e, t.taskId) == 0;
    hide Carried, Step, AllOk, Removed, Added, Enabled, Moves, After, IsThere;
    Undisturbed(Carried(l), Carried(Step(l, e)), t, Added(l, e));
  }

  lemma StepFollowed(l: Loop, e: Event, t: Task)
    requires AllOk(l) && Enabled(l, e) && IsThere(Carried(l), t)
    ensures IsThere(Carried(Step(l, e)), After(t, Moves(l, e, t.taskId)))
  {
    if e.Work? && e.action.Settle? && Current(l.workers[e.w]).kind.Periodic? {
      SettleFollowed(l, e.w, t);
    } else {
      assert t in Carried(l);
      assert Removed(l, e) == multiset{};
      assert forall u :: u in Added(l, e) ==> e == Push(u);
      hide Carried, Step, AllOk, Removed, Added, Moves, After, IsThere, WorkerEnabled;
      OthersFollowed(l, e, t);
    }
  }

  lemma SettleFollowed(l: Loop, i: nat, t: Task)
    requires var e := Work(i, Settle); AllOk(l) && Enabled(l, e) && IsThere(Carried(l), t)
    requires Current(l.workers[i]).kind.Periodic?
    ensures var e := Work(i, Settle); IsThere(Carried(Step(l, e)), After(t, Moves(l, e, t.taskId)))
  {
    var e, u := Work(i, Settle), Current(l.workers[i]);
    CurrentIsCarried(l, i);
    assert Removed(l, e) == multiset{u} && Added(l, e) == multiset{Advance(u)};
    forall v
      ensures Carried(Step(l, e))[v] + multiset{u}[v] == Carried(l)[v] + multiset{Advance(u)}[v]
    {
      StepCarried(l, e, v);
    }
    hide Carried, Step, AllOk, Removed, Added, Enabled;
    Exchanged(Carried(l), Carried(Step(l, e)), t, u);
    assert Moves(l, e, t.taskId) == if u.taskId == t.taskId then 1 else 0;
  }

  /** Whatever the workers do, a pushed task stays in one place at a time; after `k` re-queueings its
      execution time is `k` periods later and nothing else about it has changed. */
  lemma {:induction false} TaskFollowed(l: Loop, es: seq<Event>, t: Task)
    requires AllOk(l) && IsRun(l, es) && IsThere(Carried(l), t)
    ensures IsThere(Carried(Run(l, es)), After(t, Requeues(l, es, t.taskId)))
    decreases |es|
  {
    hide *;
    RunUnfolds(l, es, t);
    if es != [] {
      StepFollowed(l, es[0], t);
      StepOk(l, es[0]);
      TaskFollowed(Step(l, es[0]), es[1..], After(t, Moves(l, es[0], t.taskId)));
    }
  }

  lemma RunUnfolds(l: Loop, es: seq<Event>, t: Task)
    requires IsRun(l, es)
    ensures es == [] ==> Run(l, es) == l && After(t, Requeues(l, es, t.taskId)) == t
    ensures es != [] ==> Enabled(l, es[0]) && IsRun(Step(l, es[0]), es[1..])
    ensures es != [] ==> Run(l, es) == Run(Step(l, es[0]), es[1..])
    ensures es != [] ==>
              var t' := After(t, Moves(l, es[0], t.taskId));
              After(t, Requeues(l, es, t.taskId)) == After(t', Requeues(Step(l, es[0]), es[1..], t'.taskId))
  {
    hide Enabled, Step, Moves;
  }

  // ---------------------------------------------------------------- what is posted

  /** Nothing is in the workers' queue or on its way through a worker, and nothing has been called. */
  predicate Untouched(l: Loop) {
    && l.queue == multiset{} && l.history.called == multiset{}
    && forall i | 0 <= i < |l.workers| :: l.workers[i].local == [] && l.workers[i].hand.None?
  }

  function Posts(es: seq<Event>): multiset<Task>
    decreases |es|
  {
    if es == [] then multiset{} else (if es[0].Post? then multiset{es[0].task} else multiset{}) + Posts(es[1..])
  }

  lemma StepUntouched(l: Loop, e: Event)
    requires Untouched(l) && Enabled(l, e) && !e.Push?
    ensures Untouched(Step(l, e))
    ensures Step(l, e).legacy == l.legacy + if e.Post? then multiset{e.task} else multiset{}
  {
    if e.Work? {
      EmptyWorker(l, l.workers[e.w], e.action);
      hide NextWorker, NextQueue, NextHistory, WorkerEnabled;
    }
  }

  /** With an empty queue a worker that carries nothing finds nothing. */
  lemma EmptyWorker(l: Loop, w: Worker, a: Action)
    requires WorkerEnabled(l, w, a) && l.queue == multiset{} && w.local == [] && w.hand.None?
    ensures NextQueue(l, w, a) == l.queue && NextHistory(l, w, a) == l.history
    ensures NextWorker(l, w, a).local == [] && NextWorker(l, w, a).hand.None?
  {
  }

  /** `post` fills `legacy_tasks_`, and the workers read only `task_queue_`: as long as nothing else
      fills that queue, no posted task is ever run, and all of them stay where they are. */
  lemma {:induction false} PostedTasksNeverRun(l: Loop, es: seq<Event>)
    requires Untouched(l) && IsRun(l, es)
    requires forall e :: e in es ==> !e.Push?
    ensures Untouched(Run(l, es)) && Run(l, es).legacy == l.legacy + Posts(es)
    decreases |es|
  {
    if es != [] {
      assert es[0] in es;
      StepUntouched(l, es[0]);
      hide Untouched;
      PostedTasksNeverRun(Step(l, es[0]), es[1..]);
    }
  }
}
