/**
 The life of one task of src/server/task_manager.cpp as a state machine, statement by statement:
 the posted closure, calls of `cancelTask` (serialised by the manager's mutex, which the closure
 does not take) and calls of `failTask`, interleaved in any way.
 */
module TaskLifecycle {

  datatype Status = Pending | Running | Completed | Failed | Cancelled

  /** Where the submission and then the closure are: what is the next statement that touches the task. */
  datatype Pc =
    | Created                      // in the map, the loop not yet looked up
    | Orphaned                     // no loop: about to write Failed
    | Posted                       // about to test the cancel flag
    | CancelledAtStart             // the flag was set: about to write Cancelled
    | Starting                     // it was not: about to write Running and call the runner
    | InRunner
    | Returned                     // the runner returned: about to read the flag
    | SawCancel                    // the flag was set: about to read the status
    | AtElse(sawCancel: bool)      // about to read the status for the other branch
    | WritesCancelled
    | WritesCompleted
    | WritesFailed                 // the runner threw
    | Ended

  /** A call of `cancelTask` in progress: between setting the flag and reading the status, or between
      reading Pending and writing Cancelled. */
  datatype CancelPc = NoCancel | Testing | Writing

  /** `completed`, `failed`, `cancelled`: what the task has added to the manager's totals.
      `runnerCalled`, `cancelWrites`, `closureCancels` are bookkeeping of this model. */
  datatype Task = Task(status: Status, cancelRequested: bool, pc: Pc, cancelPc: CancelPc, completed: nat, failed: nat,
                       cancelled: nat, runnerCalled: bool, cancelWrites: nat, closureCancels: nat)

  datatype Event =
    | FindLoop(available: bool)
    | ClosureStep
    | RunnerEnds(throws: bool)
    | CancelFlag
    | CancelTest
    | CancelWrite
    | Fail

  predicate Finished(s: Status) {
    s != Pending && s != Running
  }

  predicate Enabled(t: Task, e: Event) {
    match e
    case FindLoop(_) => t.pc.Created?
    case ClosureStep => !t.pc.Created? && !t.pc.InRunner? && !t.pc.Ended?
    case RunnerEnds(_) => t.pc.InRunner?
    case CancelFlag => t.cancelPc.NoCancel?
    case CancelTest => t.cancelPc.Testing?
    case CancelWrite => t.cancelPc.Writing?
    case Fail => true
  }

  function ClosureNext(t: Task): Task
    requires Enabled(t, ClosureStep)
  {
    match t.pc
    case Orphaned => t.(status := Failed, failed := t.failed + 1, pc := Ended)
    case Posted => t.(pc := if t.cancelRequested then CancelledAtStart else Starting)
    case CancelledAtStart =>
      t.(status := Cancelled, cancelled := t.cancelled + 1, closureCancels := t.closureCancels + 1, pc := Ended)
    case Starting => t.(status := Running, runnerCalled := true, pc := InRunner)
    case Returned => t.(pc := if t.cancelRequested then SawCancel else AtElse(false))
    case SawCancel => t.(pc := if t.status != Failed then WritesCancelled else AtElse(true))
    case AtElse(_) => t.(pc := if t.status == Running || t.status == Pending then WritesCompleted else Ended)
    case WritesCancelled =>
      t.(status := Cancelled, cancelled := t.cancelled + 1, closureCancels := t.closureCancels + 1, pc := Ended)
    case WritesCompleted => t.(status := Completed, completed := t.completed + 1, pc := Ended)
    case WritesFailed => t.(status := Failed, failed := t.failed + 1, pc := Ended)
  }

  function Step(t: Task, e: Event): Task
    requires Enabled(t, e)
  {
    match e
    case FindLoop(available) => t.(pc := if available then Posted else Orphaned)
    case ClosureStep => ClosureNext(t)
    case RunnerEnds(throws) => t.(pc := if throws then WritesFailed else Returned)
    case CancelFlag => t.(cancelRequested := true, cancelPc := Testing)
    case CancelTest => t.(cancelPc := if t.status == Pending then Writing else NoCancel)
    case CancelWrite =>
      t.(status := Cancelled, cancelled := t.cancelled + 1, cancelWrites := t.cancelWrites + 1, cancelPc := NoCancel)
    case Fail => t.(status := Failed, failed := t.failed + 1)
  }

  predicate IsRun(t: Task, es: seq<Event>)
    decreases |es|
  {
    es != [] ==> Enabled(t, es[0]) && IsRun(Step(t, es[0]), es[1..])
  }

  function Run(t: Task, es: seq<Event>): Task
    requires IsRun(t, es)
    decreases |es|
  {
    if es == [] then t else Run(Step(t, es[0]), es[1..])
  }

  const FRESH: Task := Task(Pending, false, Created, NoCancel, 0, 0, 0, false, 0, 0)

  // ---------------------------------------------------------------- what always holds

  predicate BeforeStart(pc: Pc) {
    pc.Created? || pc.Orphaned? || pc.Posted? || pc.CancelledAtStart? || pc.Starting?
  }

  /** Since the closure last looked, a status that it took for Failed may only have become Cancelled. */
  predicate Inv(t: Task) {
    && (t.status == Pending ==> BeforeStart(t.pc))
    && (t.status == Running ==> !BeforeStart(t.pc) && t.pc != Ended)
    && (t.pc == AtElse(true) ==> t.status == Failed || t.status == Cancelled)
    && (t.pc != Ended ==> (t.runnerCalled <==> !BeforeStart(t.pc)))
    && (t.completed > 0 ==> t.runnerCalled)
    && (t.pc == SawCancel || t.pc == AtElse(true) || t.pc == CancelledAtStart || !t.cancelPc.NoCancel? || t.cancelWrites > 0
        ==> t.cancelRequested)
    && t.cancelled == t.cancelWrites + t.closureCancels
    && t.completed + t.closureCancels <= (if t.pc == Ended then 1 else 0)
    && (t.cancelPc == Writing ==>
          t.cancelWrites == 0 && t.completed == 0 && t.pc != AtElse(false) && t.pc != WritesCompleted)
    && (t.cancelWrites > 0 ==> t.cancelWrites == 1 && t.status != Pending)
    && (t.status == Completed ==> t.completed == 1)
  }

  lemma ClosureTestsInv(t: Task)
    requires Inv(t) && (t.pc.Posted? || t.pc.Starting? || t.pc.Returned? || t.pc.SawCancel? || t.pc.AtElse?)
    ensures Inv(ClosureNext(t))
  {
  }

  lemma ClosureWritesInv(t: Task)
    requires Inv(t)
    requires t.pc.Orphaned? || t.pc.CancelledAtStart? || t.pc.WritesCancelled? || t.pc.WritesCompleted? || t.pc.WritesFailed?
    ensures Inv(ClosureNext(t))
  {
  }

  lemma RequestInv(t: Task, e: Event)
    requires Inv(t) && Enabled(t, e) && (e.CancelFlag? || e.CancelTest? || e.CancelWrite? || e.Fail?)
    ensures Inv(Step(t, e))
  {
  }

  lemma OutsideInv(t: Task, e: Event)
    requires Inv(t) && Enabled(t, e) && (e.FindLoop? || e.RunnerEnds?)
    ensures Inv(Step(t, e))
  {
  }

  lemma StepInv(t: Task, e: Event)
    requires Inv(t) && Enabled(t, e)
    ensures Inv(Step(t, e))
  {
    hide Inv, ClosureNext;
    if e.FindLoop? || e.RunnerEnds? {
      OutsideInv(t, e);
    } else if !e.ClosureStep? {
      RequestInv(t, e);
    } else if t.pc.Posted? || t.pc.Starting? || t.pc.Returned? || t.pc.SawCancel? || t.pc.AtElse? {
      ClosureTestsInv(t);
    } else {
      ClosureWritesInv(t);
    }
  }

  lemma {:induction false} RunInv(t: Task, es: seq<Event>)
    requires Inv(t) && IsRun(t, es)
    ensures Inv(Run(t, es))
    decreases |es|
  {
    if es != [] {
      StepInv(t, es[0]);
      RunInv(Step(t, es[0]), es[1..]);
    }
  }

  /** In every interleaving from the submission on: once the closure has ended the task is finished;
      it adds at most one to the total of completed or cancelled tasks itself, and `cancelTask` at
      most one more. */
  lemma EndedIsFinished(es: seq<Event>)
    requires IsRun(FRESH, es)
    ensures var t := Run(FRESH, es);
            && (t.pc == Ended ==> Finished(t.status))
            && t.completed + t.closureCancels <= 1 && t.cancelWrites <= 1
            && t.cancelled == t.cancelWrites + t.closureCancels
            && (t.status == Completed ==> t.completed == 1 && t.runnerCalled)
  {
    FreshInv();
    hide *;
    RunInv(FRESH, es);
    InvMeans(Run(FRESH, es));
  }

  lemma FreshInv()
    ensures Inv(FRESH)
  {
  }

  lemma InvMeans(t: Task)
    requires Inv(t)
    ensures t.pc == Ended ==> Finished(t.status)
    ensures t.completed + t.closureCancels <= 1 && t.cancelWrites <= 1
    ensures t.cancelled == t.cancelWrites + t.closureCancels
    ensures t.status == Completed ==> t.completed == 1 && t.runnerCalled
  {
  }

  // ---------------------------------------------------------------- the failed total

  function FailCalls(es: seq<Event>): nat
    decreases |es|
  {
    if es == [] then 0 else (if es[0].Fail? then 1 else 0) + FailCalls(es[1..])
  }

  /** There is no loop, or the runner throws. */
  function Breakdowns(es: seq<Event>): nat
    decreases |es|
  {
    if es == [] then 0
    else (if es[0] == FindLoop(false) || es[0] == RunnerEnds(true) then 1 else 0) + Breakdowns(es[1..])
  }

  /** A Failed that the closure is about to write and count. */
  function Outstanding(pc: Pc): nat {
    if pc.Orphaned? || pc.WritesFailed? then 1 else 0
  }

  /** In every interleaving the total of failed tasks counts every call of `failTask` and every task without
      a loop or with a throwing runner, each once, the last two when the closure has written it. */
  lemma {:induction false} FailuresCounted(t: Task, es: seq<Event>)
    requires IsRun(t, es)
    ensures Run(t, es).failed + Outstanding(Run(t, es).pc)
            == t.failed + Outstanding(t.pc) + FailCalls(es) + Breakdowns(es)
    decreases |es|
  {
    if es != [] {
      StepFails(t, es[0]);
      hide Step, Enabled, Outstanding;
      FailuresCounted(Step(t, es[0]), es[1..]);
    }
  }

  lemma StepFails(t: Task, e: Event)
    requires Enabled(t, e)
    ensures Step(t, e).failed + Outstanding(Step(t, e).pc) ==
            t.failed + Outstanding(t.pc) + FailCalls([e]) + Breakdowns([e])
    ensures FailCalls([e]) == (if e.Fail? then 1 else 0)
    ensures Breakdowns([e]) == if e == FindLoop(false) || e == RunnerEnds(true) then 1 else 0
  {
    assert [e][1..] == [];
  }

  // ---------------------------------------------------------------- after the end

  /** What can still change once the closure has ended. */
  lemma StepAfterEnd(t: Task, e: Event)
    requires Inv(t) && Enabled(t, e) && t.pc == Ended
    ensures var t' := Step(t, e);
            && t'.pc == Ended
            && (t'.status != t.status
                ==> (e.Fail? && t'.status == Failed) || (e.CancelWrite? && t.status == Failed && t'.status == Cancelled))
            && (t'.cancelPc == Writing ==> t.cancelPc == Writing)
  {
  }

  /** If no call of `cancelTask` read Pending before the start and has yet to write, an ended task's
      status is final, but for `failTask`. */
  lemma {:induction false} StatusIsFinal(t: Task, es: seq<Event>)
    requires Inv(t) && IsRun(t, es) && t.pc == Ended && t.cancelPc != Writing
    ensures var t' := Run(t, es);
            && t'.pc == Ended && t'.cancelPc != Writing
            && t'.status == (if Fail in es then Failed else t.status)
            && t'.completed == t.completed && t'.cancelled == t.cancelled
    decreases |es|
  {
    if es != [] {
      StepInv(t, es[0]);
      StatusIsFinal(Step(t, es[0]), es[1..]);
    }
  }

  /** Whatever happens, the status stays or becomes that of a `failTask`. */
  ghost predicate Final(t: Task) {
    forall es | IsRun(t, es) :: Run(t, es).status == if Fail in es then Failed else t.status
  }

  /** An ended task's status is final exactly when no `cancelTask` has read Pending and not yet written. */
  lemma StatusIsFinalIff(t: Task)
    requires Inv(t) && t.pc == Ended
    ensures Final(t) <==> t.cancelPc != Writing
  {
    if t.cancelPc == Writing {
      var es := [Fail, CancelWrite];
      assert es[1..] == [CancelWrite] && es[1..][1..] == [];
      assert IsRun(t, es) && Fail in es && Run(t, es).status == Cancelled;
    } else {
      forall es | IsRun(t, es)
        ensures Run(t, es).status == if Fail in es then Failed else t.status
      {
        StatusIsFinal(t, es);
      }
    }
  }

  /** A way into that state: the late write turns the Failed of a throwing runner into Cancelled. */
  lemma LateCancelOverwritesFailed(t: Task)
    requires t.pc == Starting && t.cancelPc == Writing
    ensures var es := [ClosureStep, RunnerEnds(true), ClosureStep];
            IsRun(t, es) && Run(t, es).pc == Ended && Run(t, es).status == Failed
    ensures var es := [ClosureStep, RunnerEnds(true), ClosureStep, CancelWrite];
            IsRun(t, es) && Run(t, es).status == Cancelled
  {
    var es := [ClosureStep, RunnerEnds(true), ClosureStep];
    assert es[1..] == [RunnerEnds(true), ClosureStep] && es[1..][1..] == [ClosureStep] && es[1..][1..][1..] == [];
    var fs := es + [CancelWrite];
    assert fs[1..] == [RunnerEnds(true), ClosureStep, CancelWrite] && fs[1..][1..] == [ClosureStep, CancelWrite];
    assert fs[1..][1..][1..] == [CancelWrite] && fs[1..][1..][1..][1..] == [];
  }

  /** That state is reachable. */
  lemma LateCancelIsPossible()
    ensures var es := [FindLoop(true), ClosureStep, CancelFlag, CancelTest];
            IsRun(FRESH, es) && Run(FRESH, es).cancelPc == Writing && Run(FRESH, es).pc == Starting
  {
    var es := [FindLoop(true), ClosureStep, CancelFlag, CancelTest];
    assert es[1..] == [ClosureStep, CancelFlag, CancelTest] && es[1..][1..] == [CancelFlag, CancelTest];
    assert es[1..][1..][1..] == [CancelTest] && es[1..][1..][1..][1..] == [];
  }

  // ---------------------------------------------------------------- cancelling in time

  predicate NotYetTested(pc: Pc) {
    pc.Created? || pc.Posted?
  }

  /** The flag is set before the closure tests it: the runner is never called, and the task ends
      Cancelled unless something fails it. */
  predicate CancelledInTime(t: Task) {
    && t.cancelRequested && !t.runnerCalled && t.completed == 0
    && (NotYetTested(t.pc) || t.pc.CancelledAtStart? || t.pc.Orphaned? || t.pc.Ended?)
    && t.status != Running && t.status != Completed
  }

  lemma {:induction false} CancelBeforeStartTest(t: Task, es: seq<Event>)
    requires CancelledInTime(t) && IsRun(t, es)
    ensures CancelledInTime(Run(t, es))
    decreases |es|
  {
    if es != [] {
      CancelBeforeStartTest(Step(t, es[0]), es[1..]);
    }
  }

  /** The flag is set before the closure reads it at the end: the task is never marked Completed. */
  predicate NeverCompletes(t: Task) {
    && t.cancelRequested && t.completed == 0 && t.status != Completed
    && t.pc != AtElse(false) && t.pc != WritesCompleted
  }

  lemma {:induction false} CancelBeforeFinishTest(t: Task, es: seq<Event>)
    requires Inv(t) && NeverCompletes(t) && IsRun(t, es)
    ensures NeverCompletes(Run(t, es))
    decreases |es|
  {
    if es != [] {
      StepInv(t, es[0]);
      CancelBeforeFinishTest(Step(t, es[0]), es[1..]);
    }
  }

  // ---------------------------------------------------------------- the cancelled total

  /** `cancelTask` has marked the task Cancelled before the closure's first test. */
  predicate MarkedBeforeStart(t: Task) {
    Inv(t) && t.cancelWrites == 1 && (t.pc.Posted? || t.pc.CancelledAtStart? || (t.pc.Ended? && t.closureCancels == 1))
  }

  /** Such a task is counted as cancelled twice by the time its closure has ended. */
  lemma {:induction false} CancelledBeforeStartCountsTwice(t: Task, es: seq<Event>)
    requires MarkedBeforeStart(t) && IsRun(t, es)
    ensures MarkedBeforeStart(Run(t, es))
    ensures Run(t, es).pc == Ended ==> Run(t, es).cancelled == 2
    decreases |es|
  {
    if es != [] {
      StepInv(t, es[0]);
      CancelledBeforeStartCountsTwice(Step(t, es[0]), es[1..]);
    }
  }

  /** The closure will not count, or has not counted, a cancellation: there is no loop, the runner
      throws, or the status test behind a set flag finds Failed. */
  predicate Spoils(t: Task, e: Event) {
    || e == FindLoop(false)
    || e == RunnerEnds(true)
    || (e == ClosureStep && t.pc == SawCancel && t.status == Failed)
  }

  predicate Spoiled(t: Task, es: seq<Event>)
    requires IsRun(t, es)
    decreases |es|
  {
    es != [] && (Spoils(t, es[0]) || Spoiled(Step(t, es[0]), es[1..]))
  }

  predicate Uncounted(pc: Pc) {
    pc.Orphaned? || pc.WritesFailed? || pc == AtElse(true)
  }

  /** `spoiled`: one of those has happened so far.  Once `cancelTask` has read Pending, it alone decides
      whether the closure counts the task too. */
  predicate CountsToo(t: Task, spoiled: bool) {
    && (BeforeStart(t.pc) ==> (spoiled <==> t.pc.Orphaned?))
    && (t.pc.Ended? && t.closureCancels == 1 ==> !spoiled)
    && (t.pc.WritesCancelled? ==> !spoiled)
    && (t.pc.InRunner? || t.pc.Returned? || t.pc.SawCancel? || t.pc == AtElse(false) || t.pc.WritesCompleted? ==> !spoiled)
    && (Uncounted(t.pc) ==> spoiled)
    && (t.cancelPc == Writing || t.cancelWrites == 1 ==>
          && t.pc != AtElse(false) && t.pc != WritesCompleted
          && (t.pc.Ended? ==> (spoiled <==> t.closureCancels == 0)))
  }

  lemma StepCountsToo(t: Task, spoiled: bool, e: Event)
    requires Inv(t) && CountsToo(t, spoiled) && Enabled(t, e)
    ensures CountsToo(Step(t, e), spoiled || Spoils(t, e))
  {
  }

  lemma {:induction false} RunCountsToo(t: Task, spoiled: bool, es: seq<Event>)
    requires Inv(t) && CountsToo(t, spoiled) && IsRun(t, es)
    ensures CountsToo(Run(t, es), spoiled || Spoiled(t, es))
    decreases |es|
  {
    if es != [] {
      StepInv(t, es[0]);
      StepCountsToo(t, spoiled, es[0]);
      hide Inv, CountsToo, Spoils, Step, Enabled;
      RunCountsToo(Step(t, es[0]), spoiled || Spoils(t, es[0]), es[1..]);
    }
  }

  /** In every interleaving, an ended task has been counted as cancelled twice exactly when
      `cancelTask` wrote Cancelled and the closure was not kept from counting. */
  lemma CountedTwiceIff(es: seq<Event>)
    requires IsRun(FRESH, es) && Run(FRESH, es).pc == Ended
    ensures Run(FRESH, es).cancelled == 2 <==> Run(FRESH, es).cancelWrites == 1 && !Spoiled(FRESH, es)
  {
    FreshInv();
    FreshCountsToo();
    hide *;
    RunInv(FRESH, es);
    RunCountsToo(FRESH, false, es);
    InvMeans(Run(FRESH, es));
    if Run(FRESH, es).cancelWrites == 1 {
      CountsTooMeans(Run(FRESH, es), Spoiled(FRESH, es));
    }
  }

  lemma FreshCountsToo()
    ensures CountsToo(FRESH, false)
  {
    hide Inv;
    assert FRESH.pc == Created && FRESH.cancelPc == NoCancel && FRESH.cancelWrites == 0;
  }

  lemma CountsTooMeans(t: Task, spoiled: bool)
    requires Inv(t) && CountsToo(t, spoiled) && t.pc == Ended && t.cancelWrites == 1
    ensures spoiled <==> t.closureCancels == 0
  {
  }

  /** Without `failTask`, with a loop and a runner that returns, every write of `cancelTask` is one too
      many. */
  lemma CountedTwiceWhenUndisturbed(es: seq<Event>)
    requires IsRun(FRESH, es) && Run(FRESH, es).pc == Ended
    requires Fail !in es && RunnerEnds(true) !in es && FindLoop(false) !in es
    ensures Run(FRESH, es).cancelled == 2 <==> Run(FRESH, es).cancelWrites == 1
  {
    CountedTwiceIff(es);
    NotSpoiled(FRESH, es);
    hide *;
  }

  lemma {:induction false} NotSpoiled(t: Task, es: seq<Event>)
    requires IsRun(t, es) && t.status != Failed && !t.pc.Orphaned? && !t.pc.WritesFailed?
    requires Fail !in es && RunnerEnds(true) !in es && FindLoop(false) !in es
    ensures !Spoiled(t, es)
    decreases |es|
  {
    if es != [] {
      assert es[0] in es;
      NotSpoiled(Step(t, es[0]), es[1..]);
    }
  }

  // ---------------------------------------------------------------- a closure left alone

  function Rank(pc: Pc): nat {
    match pc
    case Created => 9
    case Posted => 8
    case Starting => 7
    case InRunner => 6
    case Returned => 5
    case SawCancel => 4
    case AtElse(_) => 3
    case WritesCancelled => 2
    case WritesCompleted => 2
    case WritesFailed => 2
    case CancelledAtStart => 2
    case Orphaned => 2
    case Ended => 0
  }

  /** The posted closure run to its end without interference, its runner returning or throwing. */
  function Alone(t: Task, throws: bool): Task
    requires !t.pc.Created?
    decreases Rank(t.pc)
  {
    if t.pc.Ended? then t
    else if t.pc.InRunner? then Alone(Step(t, RunnerEnds(throws)), throws)
    else Alone(ClosureNext(t), throws)
  }

  /** The end of the closure, left alone: a cancelled task is not completed, a status that the runner
      left is kept. */
  lemma AloneFromReturned(t: Task, throws: bool)
    requires t.pc == Returned
    ensures Alone(t, throws) ==
            if t.cancelRequested && t.status != Failed then
              t.(status := Cancelled, cancelled := t.cancelled + 1, closureCancels := t.closureCancels + 1, pc := Ended)
            else if t.status == Running || t.status == Pending then
              t.(status := Completed, completed := t.completed + 1, pc := Ended)
            else
              t.(pc := Ended)
  {
    var t1 := ClosureNext(t);
    var t2 := ClosureNext(t1);
    assert Alone(t, throws) == Alone(t1, throws);
    assert Alone(t1, throws) == Alone(t2, throws);
    if !t2.pc.Ended? {
      assert Alone(t2, throws) == Alone(ClosureNext(t2), throws);
    }
  }

  /** What a closure left alone makes of the task, depending on what it finds when it starts. */
  lemma AloneOutcome(t: Task, throws: bool)
    requires t.pc == Posted
    ensures Alone(t, throws) ==
            if t.cancelRequested then
              t.(status := Cancelled, cancelled := t.cancelled + 1, closureCancels := t.closureCancels + 1, pc := Ended)
            else if throws then
              t.(status := Failed, failed := t.failed + 1, runnerCalled := true, pc := Ended)
            else
              t.(status := Completed, completed := t.completed + 1, runnerCalled := true, pc := Ended)
  {
    var t1 := ClosureNext(t);
    var t2 := ClosureNext(t1);
    assert Alone(t, throws) == Alone(t1, throws);
    assert Alone(t1, throws) == Alone(t2, throws);
    if !t.cancelRequested {
      var t3 := Step(t2, RunnerEnds(throws));
      assert Alone(t2, throws) == Alone(t3, throws);
      if throws {
        assert Alone(t3, throws) == Alone(ClosureNext(t3), throws);
      } else {
        AloneFromReturned(t3, throws);
      }
    }
  }

  /** The program points at which a Failed written now survives a closure left alone. */
  predicate FailLasts(t: Task, throws: bool) {
    match t.pc
    case InRunner => true
    case Returned => true
    case SawCancel => true
    case AtElse(_) => true
    case WritesFailed => true
    case Orphaned => true
    case Ended => true
    case Starting => throws
    case Posted => !t.cancelRequested && throws
    case _ => false
  }

  /** `failTask` on a submitted task, the closure then left alone: the task ends Failed exactly at
      those points.  Before the start it is as if it had not been called, unless the runner throws;
      and it is lost between the closing status test and the write that follows. */
  lemma FailLastsIff(t: Task, throws: bool)
    requires !t.pc.Created?
    ensures Alone(Step(t, Fail), throws).status == Failed <==> FailLasts(t, throws)
  {
    var f := Step(t, Fail);
    if t.pc.Posted? {
      AloneOutcome(f, throws);
    } else if t.pc.Starting? {
      AloneFromStart(f, throws);
    } else if t.pc.InRunner? {
      AloneFromRunner(f, throws);
    } else if t.pc.Returned? {
      AloneFromReturned(f, throws);
    } else if !t.pc.Ended? {
      var f' := ClosureNext(f);
      assert Alone(f, throws) == Alone(f', throws);
      if t.pc.SawCancel? {
        assert Alone(f', throws) == Alone(ClosureNext(f'), throws);
      }
    }
  }

  /** The same for a call between the submission and the lookup of the loop. */
  lemma FailBeforeLookup(t: Task, available: bool, throws: bool)
    requires t.pc.Created?
    ensures Alone(Step(Step(t, Fail), FindLoop(available)), throws).status == Failed
            <==> !available || (!t.cancelRequested && throws)
  {
    var f := Step(Step(t, Fail), FindLoop(available));
    if available {
      AloneOutcome(f, throws);
    } else {
      assert Alone(f, throws) == Alone(ClosureNext(f), throws);
    }
  }

  lemma AloneFromRunner(t: Task, throws: bool)
    requires t.pc == InRunner
    ensures throws ==> Alone(t, throws) == t.(status := Failed, failed := t.failed + 1, pc := Ended)
    ensures !throws ==> Alone(t, throws) == Alone(t.(pc := Returned), throws)
    ensures t.status == Failed ==> Alone(t, throws).status == Failed
    ensures !t.cancelRequested && !throws && t.status == Running ==>
              Alone(t, throws) == t.(status := Completed, completed := t.completed + 1, pc := Ended)
  {
    var t' := Step(t, RunnerEnds(throws));
    assert Alone(t, throws) == Alone(t', throws);
    if throws {
      assert Alone(t', throws) == Alone(ClosureNext(t'), throws);
    } else {
      AloneFromReturned(t', throws);
    }
  }

  lemma AloneFromStart(t: Task, throws: bool)
    requires t.pc == Starting
    ensures Alone(t, throws).status ==
            if throws then Failed else if t.cancelRequested then Cancelled else Completed
  {
    var t' := ClosureNext(t);
    assert Alone(t, throws) == Alone(t', throws);
    AloneFromRunner(t', throws);
    if !throws {
      AloneFromReturned(t'.(pc := Returned), throws);
    }
  }

  /** `failTask` on a task whose closure has not started has no lasting effect: the closure runs as if
      nothing had happened, and the task is counted as failed and again with its real outcome. */
  lemma FailBeforeStartIsOverwritten(t: Task, throws: bool)
    requires t.pc == Posted
    ensures Alone(Step(t, Fail), throws) == Alone(t, throws).(failed := Alone(t, throws).failed + 1)
  {
    AloneOutcome(t, throws);
    AloneOutcome(Step(t, Fail), throws);
    hide Alone;
  }

  // ---------------------------------------------------------------- failTask in every interleaving

  /** The points at which the closure will not write over a Failed. */
  predicate KeepsFailed(pc: Pc) {
    || pc.InRunner? || pc.Returned? || pc.SawCancel? || pc.AtElse? || pc.WritesFailed? || pc.Orphaned? || pc.Ended?
  }

  /** Whatever follows, a `failTask` now leaves the task Failed when the closure has ended. */
  ghost predicate FailStays(t: Task) {
    forall es | IsRun(Step(t, Fail), es) :: Run(Step(t, Fail), es).pc == Ended ==> Run(Step(t, Fail), es).status == Failed
  }

  lemma {:induction false} StaysFailed(t: Task, es: seq<Event>)
    requires t.status == Failed && KeepsFailed(t.pc) && t.cancelPc != Writing && IsRun(t, es)
    ensures Run(t, es).status == Failed
    decreases |es|
  {
    if es != [] {
      StaysFailed(Step(t, es[0]), es[1..]);
    }
  }

  function NextOwn(t: Task): Event
    requires !t.pc.Ended?
  {
    if t.pc.Created? then FindLoop(true) else if t.pc.InRunner? then RunnerEnds(false) else ClosureStep
  }

  /** The closure's own steps to its end, with a loop and a runner that returns. */
  function ToEnd(t: Task): seq<Event>
    decreases Rank(t.pc)
  {
    if t.pc.Ended? then [] else [NextOwn(t)] + ToEnd(Step(t, NextOwn(t)))
  }

  /** On its own the closure will not end Failed. */
  predicate EndsOtherwise(t: Task) {
    if t.pc.InRunner? || t.pc.Returned? || t.pc.SawCancel? || t.pc.AtElse? then t.status == Running
    else if t.pc.Ended? then t.status != Failed
    else !KeepsFailed(t.pc)
  }

  lemma {:induction false} ToEndEnds(t: Task)
    ensures IsRun(t, ToEnd(t))
    ensures Run(t, ToEnd(t)).pc == Ended && Run(t, ToEnd(t)).cancelPc == t.cancelPc
    ensures EndsOtherwise(t) ==> Run(t, ToEnd(t)).status != Failed
    decreases Rank(t.pc)
  {
    if !t.pc.Ended? {
      var t' := Step(t, NextOwn(t));
      assert EndsOtherwise(t) ==> EndsOtherwise(t');
      ToEndEnds(t');
      assert ToEnd(t)[0] == NextOwn(t) && ToEnd(t)[1..] == ToEnd(t');
      hide EndsOtherwise, Step, ToEnd;
    }
  }

  lemma {:induction false} RunAppend(t: Task, es: seq<Event>, e: Event)
    requires IsRun(t, es) && Enabled(Run(t, es), e)
    ensures IsRun(t, es + [e]) && Run(t, es + [e]) == Step(Run(t, es), e)
    decreases |es|
  {
    if es == [] {
      assert [] + [e] == [e] && [e][1..] == [];
    } else {
      assert (es + [e])[1..] == es[1..] + [e] && (es + [e])[0] == es[0];
      hide Enabled, Step;
      RunAppend(Step(t, es[0]), es[1..], e);
    }
  }

  /** In every interleaving with further requests, `failTask` leaves the ended task Failed exactly at those
      points and when no `cancelTask` has read Pending and not yet written. */
  lemma FailStaysIff(t: Task)
    ensures FailStays(t) <==> KeepsFailed(t.pc) && t.cancelPc != Writing
  {
    var f := Step(t, Fail);
    if KeepsFailed(t.pc) && t.cancelPc != Writing {
      forall es | IsRun(f, es)
        ensures Run(f, es).status == Failed
      {
        StaysFailed(f, es);
      }
    } else {
      var es := ToEnd(f);
      ToEndEnds(f);
      if t.cancelPc == Writing {
        RunAppend(f, es, CancelWrite);
        es := es + [CancelWrite];
      }
      hide ToEnd, Run, IsRun;
      assert IsRun(f, es) && Run(f, es).pc == Ended && Run(f, es).status != Failed;
    }
  }
}
