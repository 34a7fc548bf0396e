/**
 The message loop of python/executor/isolated_executor.py (`IsolatedExecutor.run`): a handshake,
 then requests until a CANCEL, a SHUTDOWN, a signal or an exception.  Running a script is opaque: it
 may send progress and log messages, and its result may or may not be something that JSON can say.
 `send_json` counts a message before it serialises it, so an attempt that fails uses up a number.
 */
module ExecutorProtocol {
  import opened Common

  const HANDSHAKE: int := 0x01
  const HANDSHAKE_ACK: int := 0x02
  const SHUTDOWN: int := 0x03
  const SHUTDOWN_ACK: int := 0x04
  const HEARTBEAT: int := 0x05
  const HEARTBEAT_ACK: int := 0x06
  const EXECUTE: int := 0x10
  const RESULT: int := 0x11
  const ERROR: int := 0x12
  const CANCEL: int := 0x13
  const CANCEL_ACK: int := 0x14
  const PROGRESS: int := 0x20
  const LOG: int := 0x21

  /** A call of `report_progress` or `log`; one with arguments that JSON refuses raises in the script. */
  datatype Report = Progress(sendable: bool) | Log(sendable: bool)

  /** What an EXECUTE request leads to: its payload or working directory is bad, which raises before
      the guarded part; or the script runs, makes its reports and succeeds or fails, and the result
      can be sent or raises behind the guarded part. */
  datatype Execution = Refused | Ran(reports: seq<Report>, resultSendable: bool)

  /** One return of `receive`: nothing in time, an exception, or a message.  `execution` matters only
      for EXECUTE. */
  datatype Inbound =
    | Silence
    | Unreadable
    | Incoming(msgType: int, execution: Execution)

  /** `signal`: SIGTERM or SIGINT arrives between this call of `receive` and the next loop test. */
  datatype Event = Event(inbound: Inbound, signal: bool)

  /** A call of `send_json`. */
  datatype Attempt = Attempt(msgType: int, sendable: bool)

  datatype Sent = Sent(msgType: int, sequenceId: int)

  datatype Phase = AwaitingHandshake | Serving | Ended

  datatype State = State(phase: Phase, cancelled: bool, sequenceId: int, outbox: seq<Sent>)

  const INITIAL: State := State(AwaitingHandshake, false, 0, [])

  const ERROR_SENT: Attempt := Attempt(ERROR, true)

  // ---------------------------------------------------------------- the machine

  function SendJson(s: State, a: Attempt): State {
    s.(sequenceId := s.sequenceId + 1,
       outbox := s.outbox + Sending(a, s.sequenceId + 1))
  }

  function SendAll(s: State, attempts: seq<Attempt>): State
    decreases |attempts|
  {
    if attempts == [] then s else SendAll(SendJson(s, attempts[0]), attempts[1..])
  }

  function ReportAttempt(r: Report): Attempt {
    Attempt(if r.Progress? then PROGRESS else LOG, r.sendable)
  }

  function ReportAttempts(rs: seq<Report>): seq<Attempt> {
    seq(|rs|, i requires 0 <= i < |rs| => ReportAttempt(rs[i]))
  }

  /** What a serving executor tries to send while it handles one inbound. */
  function HandlerAttempts(i: Inbound): seq<Attempt> {
    match i
    case Silence => []
    case Unreadable => []
    case Incoming(t, x) =>
      if t == EXECUTE then
        (if x.Refused? then [] else ReportAttempts(x.reports) + [Attempt(RESULT, x.resultSendable)])
      else if t == CANCEL then [Attempt(CANCEL_ACK, true)]
      else if t == SHUTDOWN then [Attempt(SHUTDOWN_ACK, true)]
      else if t == HEARTBEAT then [Attempt(HEARTBEAT_ACK, true)]
      else []
  }

  /** The handling ends with an exception that reaches `run`. */
  predicate Raises(i: Inbound) {
    || i.Unreadable?
    || (i.Incoming? && i.msgType == EXECUTE && (i.execution.Refused? || !i.execution.resultSendable))
  }

  /** The same with the ERROR that `run` then sends. */
  function Attempts(i: Inbound): seq<Attempt> {
    HandlerAttempts(i) + if Raises(i) then [ERROR_SENT] else []
  }

  predicate AsksToStop(i: Inbound) {
    i.Incoming? && (i.msgType == CANCEL || i.msgType == SHUTDOWN)
  }

  /** The executor handles no event after this one. */
  predicate IsLast(e: Event) {
    Raises(e.inbound) || AsksToStop(e.inbound) || e.signal
  }

  predicate Greets(e: Event) {
    e.inbound.Incoming? && e.inbound.msgType == HANDSHAKE
  }

  function Step(s: State, e: Event): State {
    match s.phase
    case AwaitingHandshake =>
      if Greets(e) then
        SendJson(s, Attempt(HANDSHAKE_ACK, true)).(phase := if e.signal then Ended else Serving, cancelled := e.signal)
      else
        SendJson(s, ERROR_SENT).(phase := Ended, cancelled := e.signal)
    case Serving =>
      SendAll(s, Attempts(e.inbound)).(phase := if IsLast(e) then Ended else Serving,
                                       cancelled := e.signal || AsksToStop(e.inbound))
    case Ended => s
  }

  function RunAll(s: State, es: seq<Event>): State {
    if es == [] then s else Step(RunAll(s, es[..|es| - 1]), es[|es| - 1])
  }

  lemma {:induction false} SendAllAppend(s: State, attempts: seq<Attempt>, a: Attempt)
    ensures SendAll(s, attempts + [a]) == SendJson(SendAll(s, attempts), a)
    decreases |attempts|
  {
    if attempts == [] {
      assert attempts + [a] == [a] && [a][1..] == [];
    } else {
      assert (attempts + [a])[1..] == attempts[1..] + [a];
      SendAllAppend(SendJson(s, attempts[0]), attempts[1..], a);
    }
  }

  lemma ServingStep(s: State, e: Event)
    requires s.phase == Serving && !s.cancelled
    ensures var handled := SendAll(s, HandlerAttempts(e.inbound));
            Step(s, e) == (if Raises(e.inbound) then SendJson(handled, ERROR_SENT) else handled).(
              phase := if IsLast(e) then Ended else Serving, cancelled := e.signal || AsksToStop(e.inbound))
  {
    if Raises(e.inbound) {
      SendAllAppend(s, HandlerAttempts(e.inbound), ERROR_SENT);
    } else {
      assert Attempts(e.inbound) == HandlerAttempts(e.inbound);
    }
  }

  // ---------------------------------------------------------------- what a run sends

  /** The events a run handles: the handshake and then everything up to the first one that ends it. */
  function Handled(es: seq<Event>): (n: nat)
    ensures n <= |es|
  {
    if es == [] then 0
    else if !Greets(es[0]) || es[0].signal then 1
    else 1 + Served(es[1..])
  }

  function Served(es: seq<Event>): (n: nat)
    ensures n <= |es|
  {
    if es == [] then 0 else if IsLast(es[0]) then 1 else 1 + Served(es[1..])
  }

  /** The attempts that go with the handled events, one after another. */
  function Transcript(es: seq<Event>): seq<Attempt> {
    if es == [] then []
    else if !Greets(es[0]) then [ERROR_SENT]
    else if es[0].signal then [Attempt(HANDSHAKE_ACK, true)]
    else [Attempt(HANDSHAKE_ACK, true)] + ServedTranscript(es[1..])
  }

  function ServedTranscript(es: seq<Event>): seq<Attempt> {
    if es == [] then []
    else Attempts(es[0].inbound) + if IsLast(es[0]) then [] else ServedTranscript(es[1..])
  }

  /** Every attempt is numbered, those that JSON can say are sent under their number. */
  function Sendings(attempts: seq<Attempt>, start: int): seq<Sent> {
    if attempts == [] then []
    else Sending(attempts[0], start + 1) + Sendings(attempts[1..], start + 1)
  }

  function Sending(a: Attempt, id: int): seq<Sent> {
    if a.sendable then [Sent(a.msgType, id)] else []
  }

  lemma {:induction false} SendingsAppend(a: seq<Attempt>, b: seq<Attempt>, start: int)
    ensures Sendings(a + b, start) == Sendings(a, start) + Sendings(b, start + |a|)
    decreases |a|
  {
    hide Sending;
    if a == [] {
      assert a + b == b && [] + Sendings(b, start) == Sendings(b, start);
    } else {
      var rest := a[1..];
      assert (a + b)[1..] == rest + b && (a + b)[0] == a[0];
      SendingsAppend(rest, b, start + 1);
      assert Sendings(a + b, start) == Sending(a[0], start + 1) + Sendings(rest + b, start + 1);
      assert Sendings(a, start) == Sending(a[0], start + 1) + Sendings(rest, start + 1);
      hide Sendings;
      ConcatAssociates(Sending(a[0], start + 1), Sendings(rest, start + 1), Sendings(b, start + |a|));
    }
  }

  lemma {:induction false} SendAllSends(s: State, attempts: seq<Attempt>)
    ensures SendAll(s, attempts) ==
            s.(sequenceId := s.sequenceId + |attempts|, outbox := s.outbox + Sendings(attempts, s.sequenceId))
    decreases |attempts|
  {
    if attempts != [] {
      SendAllSends(SendJson(s, attempts[0]), attempts[1..]);
    }
  }

  /** Events in the other order of recursion: the first one first. */
  lemma {:induction false} RunFirst(s: State, es: seq<Event>)
    requires es != []
    ensures RunAll(s, es) == RunAll(Step(s, es[0]), es[1..])
    decreases |es|
  {
    if |es| > 1 {
      var front := es[..|es| - 1];
      RunFirst(s, front);
      assert es[1..][..|es[1..]| - 1] == front[1..];
    } else {
      assert es[..0] == [];
    }
  }

  lemma {:induction false} EndedStays(s: State, es: seq<Event>)
    requires s.phase == Ended
    ensures RunAll(s, es) == s
    decreases |es|
  {
    if es != [] {
      EndedStays(s, es[..|es| - 1]);
    }
  }

  lemma ServingStepSends(s: State, e: Event)
    requires s.phase == Serving
    ensures var s' := Step(s, e);
            && s'.outbox == s.outbox + Sendings(Attempts(e.inbound), s.sequenceId)
            && s'.sequenceId == s.sequenceId + |Attempts(e.inbound)|
            && s'.phase == if IsLast(e) then Ended else Serving
  {
    SendAllSends(s, Attempts(e.inbound));
  }

  lemma ServedUnfolds(es: seq<Event>)
    requires es != []
    ensures ServedTranscript(es) == Attempts(es[0].inbound) + if IsLast(es[0]) then [] else ServedTranscript(es[1..])
  {
  }

  lemma {:induction false} ServingTranscript(s: State, es: seq<Event>)
    requires s.phase == Serving
    ensures RunAll(s, es).outbox == s.outbox + Sendings(ServedTranscript(es), s.sequenceId)
    ensures RunAll(s, es).sequenceId == s.sequenceId + |ServedTranscript(es)|
    decreases |es|
  {
    hide *;
    if es == [] {
      NothingServed(s, es);
    } else {
      RunFirst(s, es);
      ServingStepSends(s, es[0]);
      ServedUnfolds(es);
      var attempts := Attempts(es[0].inbound);
      if IsLast(es[0]) {
        EndedStays(Step(s, es[0]), es[1..]);
        assert attempts + [] == attempts;
      } else {
        ServingTranscript(Step(s, es[0]), es[1..]);
        MoreSendings(s, attempts, ServedTranscript(es[1..]));
      }
    }
  }

  lemma NothingServed(s: State, es: seq<Event>)
    requires es == []
    ensures RunAll(s, es) == s && ServedTranscript(es) == []
    ensures s.outbox == s.outbox + Sendings(ServedTranscript(es), s.sequenceId)
  {
  }

  lemma MoreSendings(s: State, first: seq<Attempt>, later: seq<Attempt>)
    ensures (s.outbox + Sendings(first, s.sequenceId)) + Sendings(later, s.sequenceId + |first|)
            == s.outbox + Sendings(first + later, s.sequenceId)
  {
    hide Sendings;
    SendingsAppend(first, later, s.sequenceId);
    ConcatAssociates(s.outbox, Sendings(first, s.sequenceId), Sendings(later, s.sequenceId + |first|));
  }

  lemma {:induction false} ServingStops(s: State, es: seq<Event>)
    requires s.phase == Serving
    ensures RunAll(s, es) == RunAll(s, es[..Served(es)])
    decreases |es|
  {
    hide *;
    ServedFirst(es);
    if es == [] {
      assert es[..0] == es;
    } else {
      var s', handled := Step(s, es[0]), es[..Served(es)];
      ServingStepSends(s, es[0]);
      RunFirst(s, es);
      RunFirst(s, handled);
      if IsLast(es[0]) {
        EndedStays(s', es[1..]);
        EndedStays(s', handled[1..]);
      } else {
        ServingStops(s', es[1..]);
        assert handled[1..] == es[1..][..Served(es[1..])];
      }
    }
  }

  lemma ServedFirst(es: seq<Event>)
    ensures Served(es) == if es == [] then 0 else if IsLast(es[0]) then 1 else 1 + Served(es[1..])
  {
  }

  lemma FirstStep(e: Event)
    ensures Step(INITIAL, e).sequenceId == 1
    ensures Step(INITIAL, e).outbox == [Sent(if Greets(e) then HANDSHAKE_ACK else ERROR, 1)]
    ensures Step(INITIAL, e).phase == if Greets(e) && !e.signal then Serving else Ended
  {
  }

  /** For every inbound sequence the executor makes exactly the attempts of the transcript, numbered
      1, 2, 3, ..., and sends those that can be sent. */
  lemma RunSendsTranscript(es: seq<Event>)
    ensures RunAll(INITIAL, es).outbox == Sendings(Transcript(es), 0)
    ensures RunAll(INITIAL, es).sequenceId == |Transcript(es)|
  {
    if es != [] {
      var s := Step(INITIAL, es[0]);
      RunFirst(INITIAL, es);
      FirstStep(es[0]);
      OneSending(if Greets(es[0]) then HANDSHAKE_ACK else ERROR);
      hide Step, Sendings;
      if s.phase == Ended {
        EndedStays(s, es[1..]);
      } else {
        ServingTranscript(s, es[1..]);
        SendingsAppend([Attempt(HANDSHAKE_ACK, true)], ServedTranscript(es[1..]), 0);
      }
    }
  }

  lemma OneSending(t: int)
    ensures Sendings([Attempt(t, true)], 0) == [Sent(t, 1)]
  {
    assert [Attempt(t, true)][1..] == [];
  }

  /** Events after the last handled one change nothing. */
  lemma RunStopsAtHandled(es: seq<Event>)
    ensures RunAll(INITIAL, es) == RunAll(INITIAL, es[..Handled(es)])
  {
    if es != [] {
      var s, n := Step(INITIAL, es[0]), Handled(es);
      RunFirst(INITIAL, es);
      RunFirst(INITIAL, es[..n]);
      FirstStep(es[0]);
      hide Step;
      if s.phase == Ended {
        EndedStays(s, es[1..]);
        EndedStays(s, es[..n][1..]);
      } else {
        ServingStops(s, es[1..]);
        assert es[..n][1..] == es[1..][..Served(es[1..])];
      }
    }
  }

  // ---------------------------------------------------------------- the numbers on the wire

  predicate AllSendable(attempts: seq<Attempt>) {
    forall a :: a in attempts ==> a.sendable
  }

  /** Increasing numbers above `low` and up to `high`. */
  predicate Ascending(sent: seq<Sent>, low: int, high: int) {
    && (forall i :: 0 <= i < |sent| ==> low < sent[i].sequenceId <= high)
    && (forall i, j :: 0 <= i < j < |sent| ==> sent[i].sequenceId < sent[j].sequenceId)
  }

  lemma AscendingPrepend(h: Sent, rest: seq<Sent>, low: int, high: int)
    requires Ascending(rest, low + 1, high) && h.sequenceId == low + 1 <= high
    ensures Ascending([h] + rest, low, high) && Ascending(rest, low, high)
  {
    var sent := [h] + rest;
    assert forall i :: 0 < i < |sent| ==> sent[i] == rest[i - 1];
  }

  lemma NothingAscends(low: int, high: int)
    ensures Ascending([], low, high)
  {
  }

  lemma SendingsFirst(attempts: seq<Attempt>, start: int)
    ensures Sendings([], start) == []
    ensures attempts != [] ==>
              Sendings(attempts, start) ==
              if attempts[0].sendable then [Sent(attempts[0].msgType, start + 1)] + Sendings(attempts[1..], start + 1)
              else Sendings(attempts[1..], start + 1)
  {
    assert attempts != [] ==> [] + Sendings(attempts[1..], start + 1) == Sendings(attempts[1..], start + 1);
  }

  lemma {:induction false} SendingIds(attempts: seq<Attempt>, start: int)
    ensures Ascending(Sendings(attempts, start), start, start + |attempts|)
    decreases |attempts|
  {
    hide *;
    SendingsFirst(attempts, start);
    NothingAscends(start, start + |attempts|);
    if attempts != [] {
      SendingIds(attempts[1..], start + 1);
      AscendingPrepend(Sent(attempts[0].msgType, start + 1), Sendings(attempts[1..], start + 1), start, start + |attempts|);
    }
  }

  lemma {:induction false} SendingCount(attempts: seq<Attempt>, start: int)
    ensures |Sendings(attempts, start)| <= |attempts|
    ensures |Sendings(attempts, start)| == |attempts| <==> AllSendable(attempts)
    decreases |attempts|
  {
    if attempts != [] {
      var rest := attempts[1..];
      SendingCount(rest, start + 1);
      assert forall a :: a in attempts <==> a == attempts[0] || a in rest;
    }
  }

  lemma {:induction false} SendingDense(attempts: seq<Attempt>, start: int)
    requires AllSendable(attempts)
    ensures forall i :: 0 <= i < |Sendings(attempts, start)| ==> Sendings(attempts, start)[i].sequenceId == start + i + 1
    decreases |attempts|
  {
    if attempts != [] {
      SendingDense(attempts[1..], start + 1);
    }
  }

  lemma {:induction false} SendingLast(attempts: seq<Attempt>, start: int)
    requires attempts != [] && attempts[|attempts| - 1].sendable
    ensures var sent := Sendings(attempts, start);
            sent != [] && sent[|sent| - 1].sequenceId == start + |attempts|
    decreases |attempts|
  {
    var rest := attempts[1..];
    if rest != [] {
      assert rest[|rest| - 1] == attempts[|attempts| - 1];
      SendingLast(rest, start + 1);
    } else {
      assert Sendings(attempts, start) == Sending(attempts[0], start + 1) + [];
    }
  }

  /** The numbers on the wire increase, whatever fails. */
  lemma IdsIncrease(es: seq<Event>)
    ensures var sent := RunAll(INITIAL, es).outbox;
            forall i, j :: 0 <= i < j < |sent| ==> 0 < sent[i].sequenceId < sent[j].sequenceId
  {
    RunSendsTranscript(es);
    SendingIds(Transcript(es), 0);
    hide RunAll, Sendings, Transcript;
  }

  predicate Numbered(sent: seq<Sent>) {
    forall i :: 0 <= i < |sent| ==> sent[i].sequenceId == i + 1
  }

  /** Everything that the handling of the inbound tries to send can be sent. */
  predicate Expressible(i: Inbound) {
    i.Incoming? && i.msgType == EXECUTE && i.execution.Ran? ==>
      i.execution.resultSendable && forall k :: 0 <= k < |i.execution.reports| ==> i.execution.reports[k].sendable
  }

  predicate LastSendable(attempts: seq<Attempt>) {
    attempts != [] ==> attempts[|attempts| - 1].sendable
  }

  lemma SendableAppend(a: seq<Attempt>, b: seq<Attempt>)
    ensures AllSendable(a + b) <==> AllSendable(a) && AllSendable(b)
    ensures LastSendable(a) && LastSendable(b) ==> LastSendable(a + b)
  {
    assert forall x :: x in a + b <==> x in a || x in b;
  }

  lemma SendableOne(a: Attempt)
    ensures AllSendable([a]) <==> a.sendable
    ensures LastSendable([a]) <==> a.sendable
    ensures AllSendable([]) && LastSendable([])
  {
  }

  lemma ReportsSendable(rs: seq<Report>)
    ensures AllSendable(ReportAttempts(rs)) <==> forall k :: 0 <= k < |rs| ==> rs[k].sendable
  {
    var attempts := ReportAttempts(rs);
    forall k | 0 <= k < |rs|
      ensures attempts[k] in attempts && attempts[k].sendable == rs[k].sendable
    {
    }
  }

  lemma AttemptsSendable(i: Inbound)
    ensures AllSendable(Attempts(i)) <==> Expressible(i)
    ensures LastSendable(Attempts(i))
  {
    if i.Incoming? && i.msgType == EXECUTE && i.execution.Ran? {
      ReportsSendable(i.execution.reports);
      var reports, result := ReportAttempts(i.execution.reports), Attempt(RESULT, i.execution.resultSendable);
      SendableAppend(reports, [result]);
      SendableOne(result);
      SendableOne(ERROR_SENT);
      if result.sendable {
        assert Attempts(i) == HandlerAttempts(i);
      } else {
        assert Attempts(i) == HandlerAttempts(i) + [ERROR_SENT];
        SendableAppend(HandlerAttempts(i), [ERROR_SENT]);
        assert (HandlerAttempts(i) + [ERROR_SENT])[|HandlerAttempts(i)|] == ERROR_SENT;
      }
      hide AllSendable, ReportAttempts;
    }
  }

  /** Of the first `n` events. */
  predicate AllExpressible(es: seq<Event>, n: nat)
    requires n <= |es|
  {
    forall k :: 0 <= k < n ==> Expressible(es[k].inbound)
  }

  lemma AllExpressibleFirst(es: seq<Event>, n: nat)
    requires 1 <= n <= |es|
    ensures AllExpressible(es, n) <==> Expressible(es[0].inbound) && AllExpressible(es[1..], n - 1)
  {
    hide Expressible;
    assert forall k :: 1 <= k < |es| ==> es[k] == es[1..][k - 1];
  }

  lemma {:induction false} ServedSendable(es: seq<Event>)
    ensures AllSendable(ServedTranscript(es)) <==> AllExpressible(es, Served(es))
    ensures LastSendable(ServedTranscript(es))
    decreases |es|
  {
    hide AllSendable, LastSendable, Attempts, Expressible, AllExpressible, ServedTranscript, IsLast;
    if es == [] {
      NoneServed(es);
    } else {
      AttemptsSendable(es[0].inbound);
      AllExpressibleFirst(es, Served(es));
      ServedUnfolds(es);
      if IsLast(es[0]) {
        NoneServed([]);
        SendableAppend(Attempts(es[0].inbound), []);
        assert AllExpressible(es[1..], 0) by {
          NothingExpressible(es[1..]);
        }
      } else {
        ServedSendable(es[1..]);
        SendableAppend(Attempts(es[0].inbound), ServedTranscript(es[1..]));
      }
    }
  }

  lemma NothingExpressible(es: seq<Event>)
    ensures AllExpressible(es, 0)
  {
  }

  lemma NoneServed(es: seq<Event>)
    requires es == []
    ensures ServedTranscript(es) == [] && Served(es) == 0 && AllSendable([]) && LastSendable([]) && AllExpressible(es, 0)
  {
  }

  /** The numbers on the wire are 1, 2, 3, ... exactly when no handled request made a report or had a
      result that could not be sent. */
  lemma NumberedIff(es: seq<Event>)
    ensures Numbered(RunAll(INITIAL, es).outbox) <==>
            forall k :: 1 <= k < Handled(es) ==> Expressible(es[k].inbound)
  {
    RunSendsTranscript(es);
    TranscriptSendable(es);
    var attempts := Transcript(es);
    SendingCount(attempts, 0);
    if AllSendable(attempts) {
      SendingDense(attempts, 0);
    } else if attempts != [] {
      SendingLast(attempts, 0);
    }
    hide Sendings, Transcript, Handled, Expressible, RunAll;
  }

  lemma TranscriptSendable(es: seq<Event>)
    ensures AllSendable(Transcript(es)) <==> forall k :: 1 <= k < Handled(es) ==> Expressible(es[k].inbound)
    ensures LastSendable(Transcript(es))
  {
    if es != [] && Greets(es[0]) && !es[0].signal {
      var ack := Attempt(HANDSHAKE_ACK, true);
      ServedSendable(es[1..]);
      SendableOne(ack);
      SendableAppend([ack], ServedTranscript(es[1..]));
      hide AllSendable, LastSendable, Expressible, ServedTranscript, Served;
      assert forall k :: 1 <= k < |es| ==> es[k] == es[1..][k - 1];
    } else if es != [] {
      SendableOne(ERROR_SENT);
      SendableOne(Attempt(HANDSHAKE_ACK, true));
      hide AllSendable, LastSendable, Expressible;
    }
  }

  /** A report that JSON refuses is caught in the script: no message, and its number is skipped. */
  lemma RefusedReportSkipsNumber(signal: bool)
    ensures var es := [Event(Incoming(HANDSHAKE, Refused), false),
                       Event(Incoming(EXECUTE, Ran([Progress(false)], true)), signal)];
            RunAll(INITIAL, es).outbox == [Sent(HANDSHAKE_ACK, 1), Sent(RESULT, 3)]
  {
    var hello, run := Event(Incoming(HANDSHAKE, Refused), false),
                      Event(Incoming(EXECUTE, Ran([Progress(false)], true)), signal);
    TwoEvents(hello, run);
    var attempts := [Attempt(PROGRESS, false), Attempt(RESULT, true)];
    assert Attempts(run.inbound) == attempts;
    assert attempts[1..] == [Attempt(RESULT, true)] && [Attempt(RESULT, true)][1..] == [];
    assert Sendings([Attempt(RESULT, true)], 2) == [Sent(RESULT, 3)];
    assert Sendings(attempts, 1) == [] + [Sent(RESULT, 3)];
  }

  /** A result that JSON refuses is answered by an ERROR, after the reports, and ends the run. */
  lemma RefusedResultEndsRun(signal: bool)
    ensures var es := [Event(Incoming(HANDSHAKE, Refused), false),
                       Event(Incoming(EXECUTE, Ran([Progress(true)], false)), signal)];
            && RunAll(INITIAL, es).outbox == [Sent(HANDSHAKE_ACK, 1), Sent(PROGRESS, 2), Sent(ERROR, 4)]
            && RunAll(INITIAL, es).phase == Ended
  {
    var hello, run := Event(Incoming(HANDSHAKE, Refused), false),
                      Event(Incoming(EXECUTE, Ran([Progress(true)], false)), signal);
    TwoEvents(hello, run);
    var attempts := [Attempt(PROGRESS, true), Attempt(RESULT, false), ERROR_SENT];
    assert Attempts(run.inbound) == attempts;
    assert attempts[1..] == [Attempt(RESULT, false), ERROR_SENT];
    assert [Attempt(RESULT, false), ERROR_SENT][1..] == [ERROR_SENT] && [ERROR_SENT][1..] == [];
    assert Sendings([ERROR_SENT], 3) == [Sent(ERROR, 4)];
    assert Sendings([Attempt(RESULT, false), ERROR_SENT], 2) == [] + [Sent(ERROR, 4)];
    assert Sendings(attempts, 1) == [Sent(PROGRESS, 2)] + [Sent(ERROR, 4)];
  }

  lemma TwoEvents(hello: Event, e: Event)
    requires Greets(hello) && !hello.signal
    ensures RunAll(INITIAL, [hello, e]).outbox == [Sent(HANDSHAKE_ACK, 1)] + Sendings(Attempts(e.inbound), 1)
    ensures RunAll(INITIAL, [hello, e]).phase == if IsLast(e) then Ended else Serving
  {
    var s := Step(INITIAL, hello);
    assert [hello, e][..1] == [hello] && [hello][..0] == [];
    assert RunAll(INITIAL, []) == INITIAL;
    assert RunAll(INITIAL, [hello]) == s;
    assert RunAll(INITIAL, [hello, e]) == Step(s, e);
    FirstStep(hello);
    ServingStepSends(s, e);
    hide Step, Attempts, Sendings, RunAll;
  }

  // ---------------------------------------------------------------- the shape of what is sent

  function Types(sent: seq<Sent>): seq<int> {
    seq(|sent|, i requires 0 <= i < |sent| => sent[i].msgType)
  }

  lemma TypesAppend(a: seq<Sent>, b: seq<Sent>)
    ensures Types(a + b) == Types(a) + Types(b)
  {
  }

  /** The types of the attempts that are sent. */
  function SentTypes(attempts: seq<Attempt>): seq<int> {
    if attempts == [] then []
    else (if attempts[0].sendable then [attempts[0].msgType] else []) + SentTypes(attempts[1..])
  }

  lemma {:induction false} SentTypesAppend(a: seq<Attempt>, b: seq<Attempt>)
    ensures SentTypes(a + b) == SentTypes(a) + SentTypes(b)
    decreases |a|
  {
    if a == [] {
      assert a + b == b && [] + SentTypes(b) == SentTypes(b);
    } else {
      var first, rest := if a[0].sendable then [a[0].msgType] else [], a[1..];
      assert (a + b)[1..] == rest + b && (a + b)[0] == a[0];
      SentTypesAppend(rest, b);
      assert SentTypes(a) == first + SentTypes(rest) && SentTypes(a + b) == first + SentTypes(rest + b);
      hide SentTypes;
      ConcatAssociates(first, SentTypes(rest), SentTypes(b));
    }
  }

  lemma {:induction false} TypesOfSendings(attempts: seq<Attempt>, start: int)
    ensures Types(Sendings(attempts, start)) == SentTypes(attempts)
    decreases |attempts|
  {
    if attempts != [] {
      TypesOfSendings(attempts[1..], start + 1);
      TypesAppend(Sending(attempts[0], start + 1), Sendings(attempts[1..], start + 1));
      assert Types(Sending(attempts[0], start + 1)) == if attempts[0].sendable then [attempts[0].msgType] else [];
    }
  }

  /** The message types on the wire are those of the transcript that can be sent. */
  lemma TypesOnWire(es: seq<Event>)
    ensures Types(RunAll(INITIAL, es).outbox) == SentTypes(Transcript(es))
  {
    RunSendsTranscript(es);
    TypesOfSendings(Transcript(es), 0);
  }

  predicate Ordinary(t: int) {
    t == RESULT || t == HEARTBEAT_ACK || t == PROGRESS || t == LOG
  }

  predicate Final(t: int) {
    t == ERROR || t == CANCEL_ACK || t == SHUTDOWN_ACK
  }

  lemma {:induction false} SentTypesAmong(attempts: seq<Attempt>)
    ensures (forall k :: 0 <= k < |attempts| ==> Ordinary(attempts[k].msgType)) ==>
              forall i :: 0 <= i < |SentTypes(attempts)| ==> Ordinary(SentTypes(attempts)[i])
    decreases |attempts|
  {
    if attempts != [] {
      SentTypesAmong(attempts[1..]);
    }
  }

  predicate AllOrdinary(ts: seq<int>) {
    forall i :: 0 <= i < |ts| ==> Ordinary(ts[i])
  }

  /** All ordinary but perhaps the last, which is ordinary or final. */
  predicate OrdinaryThenFinal(ts: seq<int>) {
    && (forall i :: 0 <= i < |ts| - 1 ==> Ordinary(ts[i]))
    && (ts != [] ==> Ordinary(ts[|ts| - 1]) || Final(ts[|ts| - 1]))
  }

  lemma ShapeAppend(a: seq<int>, b: seq<int>)
    ensures AllOrdinary(a) && OrdinaryThenFinal(b) ==> OrdinaryThenFinal(a + b)
    ensures AllOrdinary(a) ==> OrdinaryThenFinal(a)
  {
    hide Ordinary, Final;
  }

  lemma ShapeOfOne(t: int)
    ensures Ordinary(t) || Final(t) ==> OrdinaryThenFinal([t])
    ensures OrdinaryThenFinal([]) && AllOrdinary([])
  {
  }

  lemma HandlerShape(i: Inbound)
    ensures !AsksToStop(i) ==> AllOrdinary(SentTypes(HandlerAttempts(i)))
    ensures AsksToStop(i) ==> OrdinaryThenFinal(SentTypes(HandlerAttempts(i)))
  {
    if AsksToStop(i) {
      var a := HandlerAttempts(i)[0];
      assert HandlerAttempts(i) == [a] && a.sendable && Final(a.msgType);
      SentTypesOfOne(a);
      ShapeOfOne(a.msgType);
      hide SentTypes, OrdinaryThenFinal;
    } else {
      SentTypesAmong(HandlerAttempts(i));
    }
  }

  lemma AttemptsShape(i: Inbound)
    ensures OrdinaryThenFinal(SentTypes(Attempts(i)))
    ensures !Raises(i) && !AsksToStop(i) ==> AllOrdinary(SentTypes(Attempts(i)))
  {
    hide SentTypes, HandlerAttempts, OrdinaryThenFinal, AllOrdinary;
    HandlerShape(i);
    var error := if Raises(i) then [ERROR_SENT] else [];
    SentTypesAppend(HandlerAttempts(i), error);
    SentTypesOfOne(ERROR_SENT);
    NothingSent();
    ShapeOfOne(ERROR);
    ShapeAppend(SentTypes(HandlerAttempts(i)), SentTypes(error));
    assert SentTypes(HandlerAttempts(i)) + [] == SentTypes(HandlerAttempts(i));
  }

  lemma {:induction false} ServedShape(es: seq<Event>)
    ensures OrdinaryThenFinal(SentTypes(ServedTranscript(es)))
    decreases |es|
  {
    hide SentTypes, Attempts, ServedTranscript, OrdinaryThenFinal, AllOrdinary;
    ShapeOfOne(0);
    NothingSent();
    if es == [] {
      NoneServed(es);
    } else {
      ServedUnfolds(es);
      AttemptsShape(es[0].inbound);
      if IsLast(es[0]) {
        assert Attempts(es[0].inbound) + [] == Attempts(es[0].inbound);
      } else {
        ServedShape(es[1..]);
        SentTypesAppend(Attempts(es[0].inbound), ServedTranscript(es[1..]));
        ShapeAppend(SentTypes(Attempts(es[0].inbound)), SentTypes(ServedTranscript(es[1..])));
      }
    }
  }

  /** A lone ERROR without a greeting; with one, an acknowledged handshake followed by ordinary messages
      and at most one final one: nothing but an ERROR comes before the acknowledgement, and nothing at
      all after an ERROR, a CANCEL_ACK or a SHUTDOWN_ACK. */
  lemma TranscriptShape(es: seq<Event>)
    ensures var ts := Types(RunAll(INITIAL, es).outbox);
            if es == [] then ts == []
            else if Greets(es[0]) then ts != [] && ts[0] == HANDSHAKE_ACK && OrdinaryThenFinal(ts[1..])
            else ts == [ERROR]
  {
    TypesOnWire(es);
    hide RunAll;
    if es != [] {
      var ack := Attempt(HANDSHAKE_ACK, true);
      assert [ack][1..] == [] && [ERROR_SENT][1..] == [];
      assert SentTypes([ack]) == [HANDSHAKE_ACK] && SentTypes([ERROR_SENT]) == [ERROR];
      if Greets(es[0]) && !es[0].signal {
        ServedShape(es[1..]);
        SentTypesAppend([ack], ServedTranscript(es[1..]));
        assert ([HANDSHAKE_ACK] + SentTypes(ServedTranscript(es[1..])))[1..] == SentTypes(ServedTranscript(es[1..]));
      }
    }
  }

  // ---------------------------------------------------------------- replies against requests

  function Count(ts: seq<int>, t: int): nat {
    multiset(ts)[t]
  }

  /** How many of the events a serving executor handles satisfy a test. */
  function CountServed(es: seq<Event>, test: Inbound -> bool): nat {
    if es == [] then 0
    else (if test(es[0].inbound) then 1 else 0) + if IsLast(es[0]) then 0 else CountServed(es[1..], test)
  }

  predicate IsRequest(i: Inbound, msgType: int) {
    i.Incoming? && i.msgType == msgType
  }

  /** The message that answers an inbound: every EXECUTE gets a RESULT or an ERROR. */
  function Reply(i: Inbound): Option<int> {
    if Raises(i) then Some(ERROR)
    else if IsRequest(i, EXECUTE) then Some(RESULT)
    else if IsRequest(i, CANCEL) then Some(CANCEL_ACK)
    else if IsRequest(i, SHUTDOWN) then Some(SHUTDOWN_ACK)
    else if IsRequest(i, HEARTBEAT) then Some(HEARTBEAT_ACK)
    else None
  }

  predicate IsReply(t: int) {
    t == RESULT || t == ERROR || t == HEARTBEAT_ACK || t == CANCEL_ACK || t == SHUTDOWN_ACK
  }

  lemma CountAppend(a: seq<int>, b: seq<int>, t: int)
    ensures Count(a + b, t) == Count(a, t) + Count(b, t)
  {
    assert multiset(a + b) == multiset(a) + multiset(b);
  }

  lemma CountOne(u: int, t: int)
    ensures Count([u], t) == (if u == t then 1 else 0) && Count([], t) == 0
  {
  }

  lemma {:induction false} ReportsAreNoReplies(reports: seq<Attempt>, t: int)
    requires forall k :: 0 <= k < |reports| ==> reports[k].msgType != t
    ensures t !in SentTypes(reports) && Count(SentTypes(reports), t) == 0
    decreases |reports|
  {
    if reports != [] {
      ReportsAreNoReplies(reports[1..], t);
    }
  }

  lemma SentTypesOfOne(a: Attempt)
    ensures SentTypes([a]) == if a.sendable then [a.msgType] else []
  {
    assert [a][1..] == [] && SentTypes([]) == [];
    assert [a.msgType] + [] == [a.msgType];
  }

  lemma ScriptReplies(rs: seq<Report>, resultSendable: bool, t: int)
    requires IsReply(t)
    ensures Count(SentTypes(ReportAttempts(rs) + [Attempt(RESULT, resultSendable)]), t)
            == if t == RESULT && resultSendable then 1 else 0
  {
    var reports, result := ReportAttempts(rs), Attempt(RESULT, resultSendable);
    SentTypesAppend(reports, [result]);
    SentTypesOfOne(result);
    ReportsAreNoReplies(reports, t);
    hide SentTypes, Count, ReportAttempts;
    CountAppend(SentTypes(reports), SentTypes([result]), t);
    CountOne(RESULT, t);
  }

  /** Without a script at most the reply is sent. */
  lemma HandlerWithoutScript(i: Inbound)
    requires !(IsRequest(i, EXECUTE) && i.execution.Ran?)
    ensures HandlerAttempts(i) == if !Raises(i) && Reply(i).Some? then [Attempt(Reply(i).value, true)] else []
  {
  }

  lemma HandlerReplies(i: Inbound, t: int)
    requires IsReply(t)
    ensures Count(SentTypes(HandlerAttempts(i)), t) == if !Raises(i) && Reply(i) == Some(t) then 1 else 0
  {
    if IsRequest(i, EXECUTE) && i.execution.Ran? {
      ScriptReplies(i.execution.reports, i.execution.resultSendable, t);
      hide SentTypes, Count;
    } else {
      hide *;
      HandlerWithoutScript(i);
      NothingSent();
      CountOne(0, t);
      if Reply(i).Some? {
        SentTypesOfOne(Attempt(Reply(i).value, true));
        CountOne(Reply(i).value, t);
      }
    }
  }

  /** The handling of one inbound puts its reply on the wire once and no other reply. */
  lemma RepliesCounted(i: Inbound, t: int)
    requires IsReply(t)
    ensures Count(SentTypes(Attempts(i)), t) == if Reply(i) == Some(t) then 1 else 0
  {
    hide HandlerAttempts, SentTypes, Count;
    var error := if Raises(i) then [ERROR_SENT] else [];
    HandlerReplies(i, t);
    SentTypesAppend(HandlerAttempts(i), error);
    CountAppend(SentTypes(HandlerAttempts(i)), SentTypes(error), t);
    CountOne(ERROR, t);
    SentTypesOfOne(ERROR_SENT);
    NothingSent();
  }

  lemma NothingSent()
    ensures SentTypes([]) == []
  {
  }

  /** Of every kind of reply there are as many on the wire as the served events ask for. */
  lemma {:induction false} RepliesMatchRequests(es: seq<Event>, t: int)
    requires IsReply(t)
    ensures Count(SentTypes(ServedTranscript(es)), t) == CountServed(es, i => Reply(i) == Some(t))
    decreases |es|
  {
    if es == [] {
      CountOne(0, t);
    } else {
      ServedUnfolds(es);
      hide Attempts, SentTypes, Reply, Count, ServedTranscript;
      var first, rest := Attempts(es[0].inbound), if IsLast(es[0]) then [] else ServedTranscript(es[1..]);
      RepliesCounted(es[0].inbound, t);
      SentTypesAppend(first, rest);
      CountAppend(SentTypes(first), SentTypes(rest), t);
      if !IsLast(es[0]) {
        RepliesMatchRequests(es[1..], t);
      } else {
        NothingSent();
        CountOne(0, t);
      }
    }
  }

  // ---------------------------------------------------------------- in terms of the messages

  /** After this event a serving executor goes on: no signal, nothing unreadable, no CANCEL or SHUTDOWN, and
      a script, if one is asked for, that can run and whose result can be sent. */
  predicate GoesOn(e: Event) {
    && !e.signal
    && match e.inbound
       case Silence => true
       case Unreadable => false
       case Incoming(t, x) => t != CANCEL && t != SHUTDOWN && (t == EXECUTE ==> x.Ran? && x.resultSendable)
  }

  lemma NextPhase(s: State, e: Event)
    ensures Step(s, e).phase ==
            match s.phase
            case AwaitingHandshake =>
              if e.inbound.Incoming? && e.inbound.msgType == HANDSHAKE && !e.signal then Serving else Ended
            case Serving => if GoesOn(e) then Serving else Ended
            case Ended => Ended
  {
    hide SendAll, Attempts;
  }

  /** The first event is a HANDSHAKE without a signal, and after every later one the executor goes on. */
  predicate KeepsServing(es: seq<Event>) {
    && es != [] && es[0].inbound.Incoming? && es[0].inbound.msgType == HANDSHAKE && !es[0].signal
    && forall k :: 1 <= k < |es| ==> GoesOn(es[k])
  }

  lemma KeepsServingPush(es: seq<Event>, e: Event)
    ensures !KeepsServing([])
    ensures KeepsServing([e]) <==> e.inbound.Incoming? && e.inbound.msgType == HANDSHAKE && !e.signal
    ensures es != [] ==> (KeepsServing(es + [e]) <==> KeepsServing(es) && GoesOn(e))
  {
    hide GoesOn;
    var all := es + [e];
    assert forall k :: 0 <= k < |es| ==> all[k] == es[k];
    assert all[|es|] == e;
  }

  lemma RunPush(es: seq<Event>, e: Event)
    ensures RunAll(INITIAL, []).phase == AwaitingHandshake && RunAll(INITIAL, es + [e]) == Step(RunAll(INITIAL, es), e)
  {
    assert (es + [e])[..|es|] == es;
  }

  /** The executor is still serving exactly then; otherwise, once anything has arrived, the run has ended. */
  lemma {:induction false} ServingIff(es: seq<Event>)
    ensures RunAll(INITIAL, es).phase == AwaitingHandshake <==> es == []
    ensures RunAll(INITIAL, es).phase == Serving <==> KeepsServing(es)
    decreases |es|
  {
    hide *;
    if es == [] {
      RunPush([], Event(Silence, false));
      KeepsServingPush([], Event(Silence, false));
    } else {
      var front, e := es[..|es| - 1], es[|es| - 1];
      assert es == front + [e];
      ServingIff(front);
      NextPhase(RunAll(INITIAL, front), e);
      RunPush(front, e);
      KeepsServingPush(front, e);
      assert [] + [e] == [e];
    }
  }

  /** Once the run has ended, nothing that arrives changes anything. */
  lemma {:induction false} EndedIsFinal(es: seq<Event>, more: seq<Event>)
    requires RunAll(INITIAL, es).phase == Ended
    ensures RunAll(INITIAL, es + more) == RunAll(INITIAL, es)
    decreases |more|
  {
    if more == [] {
      assert es + more == es;
    } else {
      var front := more[..|more| - 1];
      EndedIsFinal(es, front);
      assert (es + more)[..|es + more| - 1] == es + front;
      NextPhase(RunAll(INITIAL, es + front), more[|more| - 1]);
    }
  }

  /** The reports that JSON can say, in order, each under the number of its call. */
  function Reported(rs: seq<Report>, start: int): seq<Sent> {
    if rs == [] then []
    else
      (if rs[0].sendable then [Sent(if rs[0].Progress? then 0x20 else 0x21, start + 1)] else [])
      + Reported(rs[1..], start + 1)
  }

  /** What a serving executor puts on the wire for an inbound, by the type codes of the protocol. */
  function Answers(i: Inbound, start: int): seq<Sent> {
    match i
    case Silence => []
    case Unreadable => [Sent(0x12, start + 1)]
    case Incoming(0x05, _) => [Sent(0x06, start + 1)]
    case Incoming(0x03, _) => [Sent(0x04, start + 1)]
    case Incoming(0x13, _) => [Sent(0x14, start + 1)]
    case Incoming(0x10, Refused) => [Sent(0x12, start + 1)]
    case Incoming(0x10, Ran(rs, resultSendable)) =>
      Reported(rs, start) + [if resultSendable then Sent(0x11, start + |rs| + 1) else Sent(0x12, start + |rs| + 2)]
    case _ => []
  }

  lemma {:induction false} ReportsAreReported(rs: seq<Report>, start: int)
    ensures Sendings(ReportAttempts(rs), start) == Reported(rs, start)
    decreases |rs|
  {
    if rs != [] {
      ReportsAreReported(rs[1..], start + 1);
      assert ReportAttempts(rs)[1..] == ReportAttempts(rs[1..]);
    }
  }

  lemma ScriptSendings(rs: seq<Report>, resultSendable: bool, start: int)
    ensures Sendings(Attempts(Incoming(EXECUTE, Ran(rs, resultSendable))), start) ==
            Reported(rs, start) + [if resultSendable then Sent(RESULT, start + |rs| + 1) else Sent(ERROR, start + |rs| + 2)]
  {
    var i, result := Incoming(EXECUTE, Ran(rs, resultSendable)), Attempt(RESULT, resultSendable);
    var last := if resultSendable then [result] else [result, ERROR_SENT];
    assert |ReportAttempts(rs)| == |rs|;
    assert Attempts(i) == ReportAttempts(rs) + last by {
      if resultSendable {
        assert Attempts(i) == HandlerAttempts(i) + [];
      } else {
        ConcatAssociates(ReportAttempts(rs), [result], [ERROR_SENT]);
      }
    }
    ReportsAreReported(rs, start);
    SendingsAppend(ReportAttempts(rs), last, start);
    hide Attempts, ReportAttempts, Reported;
    assert last[1..] == (if resultSendable then [] else [ERROR_SENT]) && [ERROR_SENT][1..] == [];
    assert Sendings([ERROR_SENT], start + |rs| + 1) == [Sent(ERROR, start + |rs| + 2)] + [];
  }

  /** The first message: an acknowledgement of the handshake, or an ERROR. */
  lemma FirstAnswer(e: Event)
    ensures RunAll(INITIAL, [e]).outbox ==
            [Sent(if e.inbound.Incoming? && e.inbound.msgType == 0x01 then 0x02 else 0x12, 1)]
    ensures RunAll(INITIAL, [e]).sequenceId == 1
  {
    assert [e][..0] == [] && RunAll(INITIAL, []) == INITIAL;
    assert RunAll(INITIAL, [e]) == Step(INITIAL, e);
    FirstStep(e);
    hide RunAll, Step;
  }

  /** Handling an inbound sends exactly its answers, numbered on from what was sent before. */
  lemma ServingAnswers(s: State, e: Event)
    requires s.phase == Serving
    ensures Step(s, e).outbox == s.outbox + Answers(e.inbound, s.sequenceId)
  {
    hide *;
    var i := e.inbound;
    ServingStepSends(s, e);
    if i.Incoming? && i.msgType == EXECUTE && i.execution.Ran? {
      ScriptSendings(i.execution.reports, i.execution.resultSendable, s.sequenceId);
      ScriptAnswers(i.execution.reports, i.execution.resultSendable, s.sequenceId);
    } else {
      OneAnswer(i, s.sequenceId);
    }
  }

  lemma ScriptAnswers(rs: seq<Report>, resultSendable: bool, start: int)
    ensures Answers(Incoming(EXECUTE, Ran(rs, resultSendable)), start) ==
            Reported(rs, start) + [if resultSendable then Sent(RESULT, start + |rs| + 1) else Sent(ERROR, start + |rs| + 2)]
  {
    hide Reported;
  }

  lemma OneAnswer(i: Inbound, start: int)
    requires !(i.Incoming? && i.msgType == EXECUTE && i.execution.Ran?)
    ensures Sendings(Attempts(i), start) == Answers(i, start)
  {
    AnswerIsReply(i, start);
    HandlerWithoutScript(i);
    var attempts := if Reply(i).Some? then [Attempt(Reply(i).value, true)] else [];
    assert Attempts(i) == attempts;
    hide *;
    SendingsFirst(attempts, start);
    if Reply(i).Some? {
      assert attempts[1..] == [];
      SendingsFirst([], start + 1);
    }
  }

  lemma AnswerIsReply(i: Inbound, start: int)
    requires !(i.Incoming? && i.msgType == EXECUTE && i.execution.Ran?)
    ensures Answers(i, start) == if Reply(i).Some? then [Sent(Reply(i).value, start + 1)] else []
  {
    hide Reported;
  }

  /** How many of the events are messages of a type. */
  function Requests(es: seq<Event>, msgType: int): nat {
    if es == [] then 0
    else
      var i := es[|es| - 1].inbound;
      Requests(es[..|es| - 1], msgType) + if i.Incoming? && i.msgType == msgType then 1 else 0
  }

  /** One more message from a serving executor that goes on. */
  lemma OneMoreAnswered(s: State, e: Event, t: int)
    requires s.phase == Serving && GoesOn(e) && (IsReply(t) || t == HANDSHAKE_ACK)
    ensures Count(Types(Step(s, e).outbox), t) == Count(Types(s.outbox), t)
                                                  + if IsReply(t) && Reply(e.inbound) == Some(t) then 1 else 0
  {
    var attempts := Attempts(e.inbound);
    ServingStepSends(s, e);
    TypesAppend(s.outbox, Sendings(attempts, s.sequenceId));
    TypesOfSendings(attempts, s.sequenceId);
    CountAppend(Types(s.outbox), SentTypes(attempts), t);
    if IsReply(t) {
      RepliesCounted(e.inbound, t);
      hide *;
    } else {
      AttemptsShape(e.inbound);
      assert AllOrdinary(SentTypes(attempts));
      NoneOrdinary(SentTypes(attempts), t);
      hide *;
    }
  }

  lemma NoneOrdinary(ts: seq<int>, t: int)
    requires AllOrdinary(ts) && !Ordinary(t)
    ensures Count(ts, t) == 0
  {
    assert t !in ts;
  }

  /** What is on the wire of a kind of reply while the executor serves. */
  function Due(es: seq<Event>, t: int): nat {
    if t == HANDSHAKE_ACK then 1
    else if t == RESULT then Requests(es, EXECUTE)
    else if t == HEARTBEAT_ACK then Requests(es, HEARTBEAT)
    else 0
  }

  lemma {:induction false} AnsweredSoFar(es: seq<Event>, t: int)
    requires RunAll(INITIAL, es).phase == Serving && (IsReply(t) || t == HANDSHAKE_ACK)
    ensures Count(Types(RunAll(INITIAL, es).outbox), t) == Due(es, t)
    decreases |es|
  {
    hide Step, Types, Count;
    ServingIff(es);
    var front, e := es[..|es| - 1], es[|es| - 1];
    ServingIff(front);
    assert front != [] ==> KeepsServing(front) && GoesOn(e);
    hide KeepsServing;
    if front == [] {
      assert e == es[0] && RunAll(INITIAL, es) == Step(INITIAL, e);
      assert Requests(front, EXECUTE) == Requests(front, HEARTBEAT) == 0;
      FirstStep(e);
      CountOne(HANDSHAKE_ACK, t);
      assert Types([Sent(HANDSHAKE_ACK, 1)]) == [HANDSHAKE_ACK] by {
        TypesOfOne(HANDSHAKE_ACK, 1);
      }
    } else {
      AnsweredSoFar(front, t);
      OneMoreAnswered(RunAll(INITIAL, front), e, t);
    }
  }

  lemma TypesOfOne(t: int, id: int)
    ensures Types([Sent(t, id)]) == [t]
  {
  }

  /** As long as the executor serves, every EXECUTE has got its RESULT and every HEARTBEAT its
      acknowledgement, the handshake was acknowledged once, and no other reply has been sent. */
  lemma AllAnswered(es: seq<Event>)
    requires RunAll(INITIAL, es).phase == Serving
    ensures var ts := Types(RunAll(INITIAL, es).outbox);
            && Count(ts, RESULT) == Requests(es, EXECUTE) && Count(ts, HEARTBEAT_ACK) == Requests(es, HEARTBEAT)
            && Count(ts, HANDSHAKE_ACK) == 1
            && Count(ts, ERROR) == Count(ts, CANCEL_ACK) == Count(ts, SHUTDOWN_ACK) == 0
  {
    hide RunAll, Types, Count, Requests;
    AnsweredSoFar(es, RESULT);
    AnsweredSoFar(es, HEARTBEAT_ACK);
    AnsweredSoFar(es, HANDSHAKE_ACK);
    AnsweredSoFar(es, ERROR);
    AnsweredSoFar(es, CANCEL_ACK);
    AnsweredSoFar(es, SHUTDOWN_ACK);
  }

  // ---------------------------------------------------------------- the executor object

  class IsolatedExecutor {
    var cancelled: bool
    var sequenceId: int
    var outbox: seq<Sent>

    constructor ()
      ensures !cancelled && sequenceId == 0 && outbox == []
    {
      cancelled, sequenceId, outbox := false, 0, [];
    }

    ghost function Abstract(phase: Phase): State
      reads this
    {
      State(phase, cancelled, sequenceId, outbox)
    }

    /** `send_json`; `raised` stands for an exception that leaves the method. */
    method Send(a: Attempt) returns (raised: bool)
      modifies `sequenceId, `outbox
      ensures raised <==> !a.sendable
      ensures forall phase :: Abstract(phase) == SendJson(old(Abstract(phase)), a)
    {
      sequenceId := sequenceId + 1;
      if !a.sendable {
        return true;
      }
      outbox := outbox + [Sent(a.msgType, sequenceId)];
      return false;
    }

    method HandleHandshake(i: Inbound) returns (raised: bool)
      modifies `sequenceId, `outbox
      ensures raised <==> !(i.Incoming? && i.msgType == HANDSHAKE)
      ensures forall phase ::
                Abstract(phase) ==
                if raised then old(Abstract(phase)) else SendJson(old(Abstract(phase)), Attempt(HANDSHAKE_ACK, true))
    {
      if i.Unreadable? || i.Silence? || i.msgType != HANDSHAKE {
        return true;
      }
      raised := Send(Attempt(HANDSHAKE_ACK, true));
    }

    /** Failed reports are caught with the script; a failed result is not. */
    method HandleExecute(x: Execution) returns (raised: bool)
      modifies `sequenceId, `outbox
      ensures raised <==> x.Refused? || !x.resultSendable
      ensures forall phase ::
                Abstract(phase) == SendAll(old(Abstract(phase)), HandlerAttempts(Incoming(EXECUTE, x)))
    {
      if x.Refused? {
        return true;
      }
      var attempts := ReportAttempts(x.reports);
      assert attempts[..0] == [];
      for k := 0 to |x.reports|
        invariant forall phase :: Abstract(phase) == SendAll(old(Abstract(phase)), attempts[..k])
      {
        assert attempts[..k + 1] == attempts[..k] + [attempts[k]];
        forall phase
          ensures SendAll(old(Abstract(phase)), attempts[..k + 1])
                  == SendJson(SendAll(old(Abstract(phase)), attempts[..k]), attempts[k])
        {
          SendAllAppend(old(Abstract(phase)), attempts[..k], attempts[k]);
        }
        hide SendAll, SendJson;
        var _ := Send(ReportAttempt(x.reports[k]));
      }
      assert attempts[..|attempts|] == attempts;
      var result := Attempt(RESULT, x.resultSendable);
      forall phase
        ensures SendAll(old(Abstract(phase)), attempts + [result])
             == SendJson(SendAll(old(Abstract(phase)), attempts), result)
      {
        SendAllAppend(old(Abstract(phase)), attempts, result);
      }
      hide SendAll, SendJson;
      raised := Send(result);
    }

    method HandleMessage(msgType: int, x: Execution) returns (raised: bool)
      modifies this
      ensures raised <==> msgType == EXECUTE && (x.Refused? || !x.resultSendable)
      ensures cancelled <==> old(cancelled) || msgType == CANCEL || msgType == SHUTDOWN
      ensures forall phase ::
                Abstract(phase) ==
                SendAll(old(Abstract(phase)), HandlerAttempts(Incoming(msgType, x))).(cancelled := cancelled)
    {
      raised := false;
      assert forall a: Attempt :: [a][1..] == [];
      if msgType == EXECUTE {
        raised := HandleExecute(x);
        SendAllKeepsCancelled(old(Abstract(Serving)), HandlerAttempts(Incoming(msgType, x)));
      } else if msgType == CANCEL {
        cancelled := true;
        raised := Send(Attempt(CANCEL_ACK, true));
      } else if msgType == SHUTDOWN {
        raised := Send(Attempt(SHUTDOWN_ACK, true));
        cancelled := true;
      } else if msgType == HEARTBEAT {
        raised := Send(Attempt(HEARTBEAT_ACK, true));
      }
    }

    /** The whole life of a fresh executor, for any sequence of events. */
    method Run(events: seq<Event>)
      requires !cancelled && sequenceId == 0 && outbox == []
      modifies this
      ensures Abstract(RunAll(INITIAL, events).phase) == RunAll(INITIAL, events)
    {
      if events == [] {
        return;
      }
      RunFirst(INITIAL, events);
      hide RunAll, SendAll, HandlerAttempts, Raises;
      ghost var s := Step(INITIAL, events[0]);
      var raised := Greet(events[0], s);
      var n := 1;
      hide Step, SendJson;
      while !raised && !cancelled && n < |events|
        invariant 1 <= n <= |events|
        invariant RunAll(INITIAL, events) == RunAll(s, events[n..])
        invariant raised ==> s == SendJson(Abstract(Ended), ERROR_SENT)
        invariant !raised ==> s == Abstract(if cancelled then Ended else Serving)
      {
        var e := events[n];
        RunFirst(s, events[n..]);
        assert events[n..][1..] == events[n + 1..];
        raised := Handle(e, s);
        s := Step(s, e);
        n := n + 1;
      }
      if raised || cancelled {
        EndedStays(s, events[n..]);
      }
      if raised {
        var _ := Send(ERROR_SENT);
      }
    }

    /** The handshake; `s` is the state after it. */
    method Greet(e: Event, ghost s: State) returns (raised: bool)
      requires !cancelled && sequenceId == 0 && outbox == [] && s == Step(INITIAL, e)
      modifies this
      ensures raised ==> s == SendJson(Abstract(Ended), ERROR_SENT)
      ensures !raised ==> s == Abstract(if cancelled then Ended else Serving)
    {
      assert Abstract(AwaitingHandshake) == INITIAL;
      raised := HandleHandshake(e.inbound);
      assert Abstract(AwaitingHandshake) == if raised then INITIAL else SendJson(INITIAL, Attempt(HANDSHAKE_ACK, true));
      cancelled := cancelled || e.signal;
    }

    /** One round of the loop; `s` is the state before it. */
    method Handle(e: Event, ghost s: State) returns (raised: bool)
      requires s == Abstract(Serving) && !cancelled
      modifies this
      ensures raised <==> Raises(e.inbound)
      ensures cancelled <==> e.signal || AsksToStop(e.inbound)
      ensures Step(s, e) == if raised then SendJson(Abstract(Ended), ERROR_SENT)
                            else Abstract(if cancelled then Ended else Serving)
    {
      ServingStep(s, e);
      assert HandlerAttempts(Silence) == HandlerAttempts(Unreadable) == [];
      hide Step, HandlerAttempts;
      raised := false;
      match e.inbound {
        case Silence =>
        case Unreadable => raised := true;
        case Incoming(t, x) => raised := HandleMessage(t, x);
      }
      cancelled := cancelled || e.signal;
      SendAllKeepsCancelled(s, HandlerAttempts(e.inbound));
    }
  }

  lemma SendAllKeepsCancelled(s: State, attempts: seq<Attempt>)
    ensures SendAll(s, attempts).cancelled == s.cancelled && SendAll(s, attempts).phase == s.phase
  {
    SendAllSends(s, attempts);
  }
}
