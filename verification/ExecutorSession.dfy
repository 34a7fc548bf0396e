/**
 Both ends of python/executor/isolated_executor.py at once: a client writes framed requests into one
 pipe, the executor reads, handles and answers them, and the client reads framed replies from another.
 Writes and reads are cut short anywhere.  The executor sends everything before it receives again.
 */
module ExecutorSession {
  import opened Common
  import Ipc = IpcFraming
  import Exec = ExecutorProtocol

  /** What a reply says is not determined here; different messages may have different bodies. */
  type Body = f: Exec.Sent -> seq<Ipc.byte> | forall x :: Ipc.IsU32(|f(x)|) witness x => []

  /** `requests` ends in the executor's receiver, `replies` in the client's.  `handled` is bookkeeping. */
  datatype Session = Session(requests: Ipc.Link, executor: Exec.State, handled: seq<Exec.Event>, replies: Ipc.Link)

  datatype Event =
    | ClientWrite(n: nat)
    | ExecutorRead(n: nat, execution: Exec.Execution, signal: bool)
    | ExecutorTimeout(signal: bool)
    | ExecutorWrite(n: nat)
    | ClientRead(n: nat)

  // ---------------------------------------------------------------- replies as messages

  /** Numbers and types that fit their header fields. */
  predicate Encodable(sent: seq<Exec.Sent>) {
    forall i :: 0 <= i < |sent| ==> Ipc.IsU8(sent[i].msgType) && Ipc.IsU32(sent[i].sequenceId)
  }

  function Messages(sent: seq<Exec.Sent>, body: Body): seq<Ipc.Wire>
    requires Encodable(sent)
  {
    seq(|sent|, i requires 0 <= i < |sent| => Ipc.Create(sent[i].msgType, body(sent[i]), sent[i].sequenceId))
  }

  /** The client can read off type, number and body of what was sent. */
  predicate Conveys(received: seq<Ipc.Message>, sent: seq<Exec.Sent>, body: Body) {
    && |received| == |sent|
    && forall i :: 0 <= i < |sent| ==>
                     && received[i].header.msgType == sent[i].msgType
                     && received[i].header.sequenceId == sent[i].sequenceId && received[i].payload == body(sent[i])
  }

  lemma MessagesConvey(sent: seq<Exec.Sent>, body: Body)
    requires Encodable(sent)
    ensures Conveys(Messages(sent, body), sent, body)
  {
  }

  lemma MessagesAppend(a: seq<Exec.Sent>, b: seq<Exec.Sent>, body: Body)
    requires Encodable(a) && Encodable(b)
    ensures Encodable(a + b) && Messages(a + b, body) == Messages(a, body) + Messages(b, body)
  {
  }

  /** What one event of the executor sends. */
  function NewlySent(s: Exec.State, e: Exec.Event): seq<Exec.Sent> {
    if s.phase.AwaitingHandshake? then
      Exec.Sending(if Exec.Greets(e) then Exec.Attempt(Exec.HANDSHAKE_ACK, true) else Exec.ERROR_SENT, s.sequenceId + 1)
    else if s.phase.Serving? then Exec.Sendings(Exec.Attempts(e.inbound), s.sequenceId)
    else []
  }

  lemma StepSends(s: Exec.State, e: Exec.Event)
    ensures Exec.Step(s, e).outbox == s.outbox + NewlySent(s, e)
    ensures Exec.Step(s, e).sequenceId >= s.sequenceId
  {
    if s.phase.Serving? {
      Exec.ServingStepSends(s, e);
    }
  }

  predicate FitTypes(attempts: seq<Exec.Attempt>) {
    forall i :: 0 <= i < |attempts| ==> Ipc.IsU8(attempts[i].msgType)
  }

  lemma {:induction false} SendingsEncodable(attempts: seq<Exec.Attempt>, start: int)
    requires FitTypes(attempts) && 0 <= start && Ipc.IsU32(start + |attempts|)
    ensures Encodable(Exec.Sendings(attempts, start))
    decreases |attempts|
  {
    if attempts != [] {
      SendingsEncodable(attempts[1..], start + 1);
    }
  }

  /** As long as the counter fits, what is sent fits. */
  lemma NewlySentEncodable(s: Exec.State, e: Exec.Event)
    requires 0 <= s.sequenceId && Ipc.IsU32(Exec.Step(s, e).sequenceId)
    ensures Encodable(NewlySent(s, e))
  {
    if s.phase.Serving? {
      Exec.ServingStepSends(s, e);
      SendingsEncodable(Exec.Attempts(e.inbound), s.sequenceId);
    }
  }

  // ---------------------------------------------------------------- the machine

  /** The executor returns from `receive` with this event, and its replies are about to be written. */
  function Handle(s: Session, e: Exec.Event, body: Body): Session
    requires Encodable(NewlySent(s.executor, e))
  {
    s.(executor := Exec.Step(s.executor, e), handled := s.handled + [e],
       replies := s.replies.(unsent := s.replies.unsent + Ipc.Frames(Messages(NewlySent(s.executor, e), body))))
  }

  predicate Receives(s: Session) {
    !s.executor.phase.Ended? && s.replies.unsent == []
  }

  /** The event with which a read completes a message. */
  function Delivery(requests: Ipc.Link, n: nat, execution: Exec.Execution, signal: bool): Option<Exec.Event>
    requires Ipc.Enabled(requests, Ipc.Read(n))
  {
    var reader := Ipc.LinkStep(requests, Ipc.Read(n)).reader;
    if reader.failed then Some(Exec.Event.Event(Exec.Unreadable, signal))
    else if |reader.delivered| > |requests.reader.delivered| then
      Some(Exec.Event.Event(Exec.Incoming(reader.delivered[|reader.delivered| - 1].header.msgType, execution), signal))
    else None
  }

  /** The counter of the executor must fit its header field; no time-out falls inside a frame. */
  predicate Enabled(s: Session, e: Event) {
    match e
    case ClientWrite(n) => Ipc.Enabled(s.requests, Ipc.Write(n))
    case ExecutorRead(n, x, signal) =>
      && Receives(s) && Ipc.Enabled(s.requests, Ipc.Read(n))
      && var d := Delivery(s.requests, n, x, signal);
         d.Some? ==> Ipc.IsU32(Exec.Step(s.executor, d.value).sequenceId) && Encodable(NewlySent(s.executor, d.value))
    case ExecutorTimeout(signal) =>
      && Receives(s) && Ipc.Enabled(s.requests, Ipc.Timeout) && !Ipc.MidFrame(s.requests.reader)
      && var d := Exec.Event.Event(Exec.Silence, signal);
         Ipc.IsU32(Exec.Step(s.executor, d).sequenceId) && Encodable(NewlySent(s.executor, d))
    case ExecutorWrite(n) => Ipc.Enabled(s.replies, Ipc.Write(n))
    case ClientRead(n) => Ipc.Enabled(s.replies, Ipc.Read(n))
  }

  function Step(s: Session, e: Event, body: Body): Session
    requires Enabled(s, e)
  {
    match e
    case ClientWrite(n) => s.(requests := Ipc.LinkStep(s.requests, Ipc.Write(n)))
    case ExecutorRead(n, x, signal) =>
      var s' := s.(requests := Ipc.LinkStep(s.requests, Ipc.Read(n)));
      var d := Delivery(s.requests, n, x, signal);
      if d.Some? then Handle(s', d.value, body) else s'
    case ExecutorTimeout(signal) => Handle(s, Exec.Event.Event(Exec.Silence, signal), body)
    case ExecutorWrite(n) => s.(replies := Ipc.LinkStep(s.replies, Ipc.Write(n)))
    case ClientRead(n) => s.(replies := Ipc.LinkStep(s.replies, Ipc.Read(n)))
  }

  predicate IsRun(s: Session, es: seq<Event>, body: Body)
    decreases |es|
  {
    es != [] ==> Enabled(s, es[0]) && IsRun(Step(s, es[0], body), es[1..], body)
  }

  function Run(s: Session, es: seq<Event>, body: Body): Session
    requires IsRun(s, es, body)
    decreases |es|
  {
    if es == [] then s else Run(Step(s, es[0], body), es[1..], body)
  }

  function Start(requests: seq<Ipc.Wire>): Session {
    Session(Ipc.Start(requests), Exec.INITIAL, [], Ipc.Start([]))
  }

  // ---------------------------------------------------------------- the invariant

  /** The handled events that are messages. */
  function Heard(handled: seq<Exec.Event>): seq<Exec.Event> {
    if handled == [] then []
    else
      var e := handled[|handled| - 1];
      Heard(handled[..|handled| - 1]) + if e.inbound.Incoming? then [e] else []
  }

  lemma HeardAppend(handled: seq<Exec.Event>, e: Exec.Event)
    ensures Heard(handled + [e]) == Heard(handled) + if e.inbound.Incoming? then [e] else []
  {
    assert (handled + [e])[..|handled|] == handled;
  }

  /** The events are these requests, one for one. */
  predicate Answer(heard: seq<Exec.Event>, requests: seq<Ipc.Message>) {
    && |heard| == |requests|
    && forall i :: 0 <= i < |heard| ==>
                     heard[i].inbound.Incoming? && heard[i].inbound.msgType == requests[i].header.msgType
  }

  ghost predicate Inv(s: Session, requests: seq<Ipc.Wire>, body: Body) {
    && Ipc.OnTrack(s.requests, requests)
    && HasHeard(s.handled, s.requests.reader.delivered)
    && Talks(s, body)
  }

  /** What the executor has handled are the messages delivered to it, and silences. */
  ghost predicate HasHeard(handled: seq<Exec.Event>, delivered: seq<Ipc.Message>) {
    Answer(Heard(handled), delivered) && forall e :: e in handled ==> !e.inbound.Unreadable?
  }

  /** The replies under way are those to what has been handled. */
  ghost predicate Talks(s: Session, body: Body) {
    && s.executor == Exec.RunAll(Exec.INITIAL, s.handled)
    && s.executor.sequenceId >= 0
    && Encodable(s.executor.outbox)
    && Ipc.OnTrack(s.replies, Messages(s.executor.outbox, body))
  }

  lemma HearsMore(handled: seq<Exec.Event>, delivered: seq<Ipc.Message>, e: Exec.Event, delivered': seq<Ipc.Message>)
    requires HasHeard(handled, delivered)
    requires if e.inbound.Incoming? then
               && |delivered'| == |delivered| + 1 && delivered'[..|delivered|] == delivered
               && delivered'[|delivered|].header.msgType == e.inbound.msgType
             else e.inbound.Silence? && delivered' == delivered
    ensures HasHeard(handled + [e], delivered')
  {
    HeardAppend(handled, e);
    hide Heard;
    if e.inbound.Incoming? {
      assert delivered' == delivered + [delivered'[|delivered|]];
    } else {
      assert Heard(handled) + [] == Heard(handled);
    }
  }

  lemma {:induction false} FramesAppend(a: seq<Ipc.Wire>, b: seq<Ipc.Wire>)
    ensures Ipc.Frames(a + b) == Ipc.Frames(a) + Ipc.Frames(b)
    decreases |a|
  {
    if a == [] {
      assert a + b == b && [] + Ipc.Frames(b) == Ipc.Frames(b);
    } else {
      assert (a + b)[1..] == a[1..] + b && (a + b)[0] == a[0];
      FramesAppend(a[1..], b);
      hide Ipc.Frame;
      ConcatAssociates(Ipc.Frame(a[0]), Ipc.Frames(a[1..]), Ipc.Frames(b));
    }
  }

  /** More messages may be sent at any time. */
  lemma SendMore(l: Ipc.Link, ms: seq<Ipc.Wire>, more: seq<Ipc.Wire>)
    requires Ipc.OnTrack(l, ms)
    ensures Ipc.OnTrack(l.(unsent := l.unsent + Ipc.Frames(more)), ms + more)
  {
    var k := |l.reader.delivered|;
    assert (ms + more)[..k] == ms[..k] && (ms + more)[k..] == ms[k..] + more;
    FramesAppend(ms[k..], more);
    ConcatAssociates(l.pipe, l.unsent, Ipc.Frames(more));
    ConcatAssociates(Ipc.Held(l.reader), l.pipe + l.unsent, Ipc.Frames(more));
    hide Ipc.Frames, Ipc.Held;
  }

  lemma HandleInv(s: Session, e: Exec.Event, body: Body)
    requires Talks(s, body) && Encodable(NewlySent(s.executor, e))
    ensures Talks(Handle(s, e, body), body)
  {
    assert (s.handled + [e])[..|s.handled|] == s.handled;
    StepSends(s.executor, e);
    MessagesAppend(s.executor.outbox, NewlySent(s.executor, e), body);
    SendMore(s.replies, Messages(s.executor.outbox, body), Messages(NewlySent(s.executor, e), body));
    hide Ipc.OnTrack, Exec.Step, NewlySent;
  }

  lemma ReadDelivers(l: Ipc.Link, n: nat)
    requires Ipc.Enabled(l, Ipc.Read(n))
    ensures var before, after := l.reader.delivered, Ipc.LinkStep(l, Ipc.Read(n)).reader.delivered;
            after == before || (|after| == |before| + 1 && after[..|before|] == before)
  {
    hide Ipc.DeserializeHeader;
  }

  lemma ReadInv(s: Session, n: nat, x: Exec.Execution, signal: bool, requests: seq<Ipc.Wire>, body: Body)
    requires Inv(s, requests, body) && Enabled(s, ExecutorRead(n, x, signal))
    ensures Inv(Step(s, ExecutorRead(n, x, signal), body), requests, body)
  {
    var s1 := s.(requests := Ipc.LinkStep(s.requests, Ipc.Read(n)));
    Ipc.StepOnTrack(s.requests, Ipc.Read(n), requests);
    ReadDelivers(s.requests, n);
    Ipc.OnTrackMeans(s1.requests, requests);
    hide Ipc.OnTrack, Ipc.Enabled, Exec.Step, NewlySent, Ipc.LinkStep, Encodable, HasHeard;
    var d := Delivery(s.requests, n, x, signal);
    assert Talks(s1, body);
    hide Talks;
    if d.Some? {
      HearsMore(s.handled, s.requests.reader.delivered, d.value, s1.requests.reader.delivered);
      HandleInv(s1, d.value, body);
    }
  }

  lemma StepInv(s: Session, e: Event, requests: seq<Ipc.Wire>, body: Body)
    requires Inv(s, requests, body) && Enabled(s, e)
    ensures Inv(Step(s, e, body), requests, body)
  {
    match e {
      case ClientWrite(n) =>
        Ipc.StepOnTrack(s.requests, Ipc.Write(n), requests);
        hide Ipc.OnTrack;
      case ExecutorRead(n, x, signal) => ReadInv(s, n, x, signal, requests, body);
      case ExecutorTimeout(signal) =>
        var d := Exec.Event.Event(Exec.Silence, signal);
        HandleInv(s, d, body);
        HearsMore(s.handled, s.requests.reader.delivered, d, s.requests.reader.delivered);
        hide Ipc.OnTrack, Exec.Step, NewlySent, HasHeard, Encodable, Talks;
      case ExecutorWrite(n) =>
        Ipc.StepOnTrack(s.replies, Ipc.Write(n), Messages(s.executor.outbox, body));
        hide Ipc.OnTrack;
      case ClientRead(n) =>
        Ipc.StepOnTrack(s.replies, Ipc.Read(n), Messages(s.executor.outbox, body));
        hide Ipc.OnTrack;
    }
  }

  lemma {:induction false} RunInv(s: Session, es: seq<Event>, requests: seq<Ipc.Wire>, body: Body)
    requires Inv(s, requests, body) && IsRun(s, es, body)
    ensures Inv(Run(s, es, body), requests, body)
    decreases |es|
  {
    if es != [] {
      StepInv(s, es[0], requests, body);
      hide Inv, Step, Enabled;
      RunInv(Step(s, es[0], body), es[1..], requests, body);
    }
  }

  lemma StartInv(requests: seq<Ipc.Wire>, body: Body)
    ensures Inv(Start(requests), requests, body)
  {
    assert requests[0..] == requests && [] + [] + Ipc.Frames(requests) == Ipc.Frames(requests);
    assert Messages([], body) == [];
  }

  // ---------------------------------------------------------------- from requests to replies

  /** In every interleaving of the two ends, the messages the client has received are a prefix of the
      replies to the events handled so far, whose messages are the first requests in order; and they
      are all the replies once no reply byte is under way. */
  lemma RepliesArriveInOrder(requests: seq<Ipc.Wire>, es: seq<Event>, body: Body)
    requires IsRun(Start(requests), es, body)
    ensures var s := Run(Start(requests), es, body);
            var sent := Exec.Sendings(Exec.Transcript(s.handled), 0);
            && |Heard(s.handled)| <= |requests| && Answer(Heard(s.handled), requests[..|Heard(s.handled)|])
            && Encodable(sent)
            && |s.replies.reader.delivered| <= |sent|
            && s.replies.reader.delivered == Messages(sent, body)[..|s.replies.reader.delivered|]
            && (s.replies.unsent == [] && s.replies.pipe == [] ==> s.replies.reader.delivered == Messages(sent, body))
  {
    StartInv(requests, body);
    RunInv(Start(requests), es, requests, body);
    var s := Run(Start(requests), es, body);
    Exec.RunSendsTranscript(s.handled);
    if s.replies.unsent == [] && s.replies.pipe == [] {
      Ipc.NothingHeldAtEnd(s.replies, Messages(s.executor.outbox, body));
    }
    hide IsRun, Run, Exec.RunAll, Exec.Transcript, Exec.Sendings, Heard;
  }

  /** Silence between requests changes nothing. */
  lemma {:induction false} SilenceIgnored(handled: seq<Exec.Event>)
    requires handled != [] ==> !handled[0].inbound.Silence?
    requires forall e :: e in handled ==> !e.signal && !e.inbound.Unreadable?
    ensures Exec.RunAll(Exec.INITIAL, handled) == Exec.RunAll(Exec.INITIAL, Heard(handled))
    decreases |handled|
  {
    if handled != [] {
      var front, e := handled[..|handled| - 1], handled[|handled| - 1];
      SilenceIgnored(front);
      assert e in handled;
      if e.inbound.Silence? {
        SilentStep(front, e);
        assert Heard(handled) == Heard(front) + [] == Heard(front);
      } else {
        assert Heard(handled) == Heard(front) + [e];
        assert Heard(handled)[..|Heard(front)|] == Heard(front);
      }
    }
  }

  lemma SilentStep(front: seq<Exec.Event>, e: Exec.Event)
    requires front != [] && e == Exec.Event.Event(Exec.Silence, false)
    ensures Exec.Step(Exec.RunAll(Exec.INITIAL, front), e) == Exec.RunAll(Exec.INITIAL, front)
  {
    PhaseAfter(front);
    var s := Exec.RunAll(Exec.INITIAL, front);
    if s.phase.Serving? {
      assert Exec.Attempts(Exec.Silence) == [];
    }
  }

  lemma {:induction false} PhaseAfter(es: seq<Exec.Event>)
    ensures var s := Exec.RunAll(Exec.INITIAL, es);
            && (es != [] ==> !s.phase.AwaitingHandshake?)
            && (s.phase.Serving? ==> !s.cancelled)
    decreases |es|
  {
    if es != [] {
      PhaseAfter(es[..|es| - 1]);
      hide Exec.SendAll, Exec.Attempts;
    }
  }

  /** No signal arrives and the handshake is read in time. */
  predicate Undisturbed(handled: seq<Exec.Event>) {
    && (handled != [] ==> !handled[0].inbound.Silence?)
    && forall e :: e in handled ==> !e.signal
  }

  /** When everything has been carried, the client has received exactly the transcript of its requests:
      of all of them, or of those up to the one that ended the run. */
  lemma SessionIsTranscript(requests: seq<Ipc.Wire>, es: seq<Event>, body: Body)
    requires IsRun(Start(requests), es, body)
    requires var s := Run(Start(requests), es, body);
             && ((s.requests.unsent == [] && s.requests.pipe == []) || s.executor.phase.Ended?)
             && s.replies.unsent == [] && s.replies.pipe == [] && Undisturbed(s.handled)
    ensures var s := Run(Start(requests), es, body);
            var heard := Heard(s.handled);
            var sent := Exec.Sendings(Exec.Transcript(heard), 0);
            && |heard| <= |requests| && Answer(heard, requests[..|heard|])
            && (!s.executor.phase.Ended? ==> |heard| == |requests|)
            && Encodable(sent) && s.replies.reader.delivered == Messages(sent, body)
            && Conveys(s.replies.reader.delivered, sent, body)
  {
    StartInv(requests, body);
    RunInv(Start(requests), es, requests, body);
    var s := Run(Start(requests), es, body);
    hide IsRun, Run, Conveys;
    SilenceIgnored(s.handled);
    Exec.RunSendsTranscript(Heard(s.handled));
    MessagesConvey(s.executor.outbox, body);
    Ipc.NothingHeldAtEnd(s.replies, Messages(s.executor.outbox, body));
    if !s.executor.phase.Ended? {
      Ipc.NothingHeldAtEnd(s.requests, requests);
    }
    hide Exec.RunAll, Exec.Transcript, Exec.Sendings, Heard;
  }

  /** As long as bytes are under way to someone who reads them, something can happen. */
  lemma SessionNeverStuck(s: Session, requests: seq<Ipc.Wire>, body: Body) returns (e: Event)
    requires Inv(s, requests, body) && s.executor.sequenceId < 0xFFFF_FFFF
    requires || s.replies.unsent != [] || s.replies.pipe != [] || s.requests.unsent != []
             || (s.requests.pipe != [] && !s.executor.phase.Ended?)
    ensures Enabled(s, e)
  {
    hide Ipc.OnTrack, HasHeard;
    assert Ipc.OnTrack(s.replies, Messages(s.executor.outbox, body)) && s.executor.sequenceId >= 0;
    hide Talks;
    if s.replies.unsent != [] {
      e := ExecutorWrite(1);
    } else if s.replies.pipe != [] {
      e := ClientRead(1);
      SomethingToRead(s.replies, Messages(s.executor.outbox, body));
    } else if s.requests.unsent != [] {
      e := ClientWrite(1);
    } else {
      e := ExecutorRead(1, Exec.Refused, false);
      ReadPossible(s, requests);
    }
  }

  lemma SomethingToRead(l: Ipc.Link, ms: seq<Ipc.Wire>)
    requires Ipc.OnTrack(l, ms) && l.pipe != []
    ensures Ipc.Enabled(l, Ipc.Read(1))
  {
  }

  lemma ReadPossible(s: Session, requests: seq<Ipc.Wire>)
    requires Ipc.OnTrack(s.requests, requests) && s.requests.pipe != [] && Receives(s)
    requires 0 <= s.executor.sequenceId < 0xFFFF_FFFF
    ensures Enabled(s, ExecutorRead(1, Exec.Refused, false))
  {
    SomethingToRead(s.requests, requests);
    hide Ipc.OnTrack, Ipc.LinkStep, Ipc.Enabled;
    var d := Delivery(s.requests, 1, Exec.Refused, false);
    if d.Some? {
      OneMoreNumber(s.executor, d.value);
      NewlySentEncodable(s.executor, d.value);
    }
    hide Exec.Step, NewlySent, Encodable;
  }

  lemma OneMoreNumber(s: Exec.State, e: Exec.Event)
    requires e.inbound.Incoming? ==> e.inbound.execution.Refused?
    ensures s.sequenceId <= Exec.Step(s, e).sequenceId <= s.sequenceId + 1
  {
    if s.phase.Serving? {
      Exec.ServingStepSends(s, e);
    }
  }
}
