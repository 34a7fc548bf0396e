/**
 The wire format and the pipe channel of python/executor/isolated_executor.py: a sixteen-byte
 big-endian header, a payload, writes that may be cut short and reads that may return less than was
 asked for.
 */
module IpcFraming {
  import opened Common

  type byte = b: int | 0 <= b < 256

  datatype Result<T> = Ok(value: T) | Err(error: Error)

  datatype Error = OutOfRange | InsufficientData | InvalidMagic | WriteFailed

  // ---------------------------------------------------------------- header codec

  const MAGIC: int := 0x4C495448
  const VERSION: int := 1
  const HEADER_SIZE: nat := 16

  datatype Header = Header(magic: int, version: int, msgType: int, payloadSize: int, sequenceId: int, flags: int,
                           reserved: int)

  predicate IsU8(n: int) { 0 <= n < 0x100 }

  predicate IsU32(n: int) { 0 <= n < 0x1_0000_0000 }

  /** What `struct.pack(">IBBIIBB", ...)` accepts. */
  predicate InRange(h: Header) {
    && IsU32(h.magic) && IsU8(h.version) && IsU8(h.msgType) && IsU32(h.payloadSize)
    && IsU32(h.sequenceId) && IsU8(h.flags) && IsU8(h.reserved)
  }

  function PackU32(n: int): (bytes: seq<byte>)
    requires IsU32(n)
    ensures |bytes| == 4
  {
    [n / 0x100_0000, n / 0x1_0000 % 0x100, n / 0x100 % 0x100, n % 0x100]
  }

  function UnpackU32(bytes: seq<byte>): (n: int)
    requires |bytes| == 4
    ensures IsU32(n)
  {
    var b0: int, b1: int, b2: int, b3: int := bytes[0], bytes[1], bytes[2], bytes[3];
    ((b0 * 0x100 + b1) * 0x100 + b2) * 0x100 + b3
  }

  lemma UnpackPack(n: int)
    requires IsU32(n)
    ensures UnpackU32(PackU32(n)) == n
  {
    var n1, n2 := n / 0x100, n / 0x1_0000;
    assert n == n1 * 0x100 + n % 0x100;
    assert n1 / 0x100 == n2 && n1 == n2 * 0x100 + n1 % 0x100;
    assert n2 / 0x100 == n / 0x100_0000 && n2 == n2 / 0x100 * 0x100 + n2 % 0x100;
  }

  lemma PackUnpack(bytes: seq<byte>)
    requires |bytes| == 4
    ensures PackU32(UnpackU32(bytes)) == bytes
  {
    var n := UnpackU32(bytes);
    var b0: int, b1: int, b2: int := bytes[0], bytes[1], bytes[2];
    assert n / 0x100 == (b0 * 0x100 + b1) * 0x100 + b2;
    assert n / 0x1_0000 == b0 * 0x100 + b1;
    assert n / 0x100_0000 == b0;
  }

  function SerializeHeader(h: Header): (bytes: seq<byte>)
    requires InRange(h)
    ensures |bytes| == HEADER_SIZE
  {
    PackU32(h.magic) + [h.version, h.msgType] + PackU32(h.payloadSize) + PackU32(h.sequenceId) + [h.flags, h.reserved]
  }

  function Unpack(data: seq<byte>): Header
    requires |data| == HEADER_SIZE
  {
    Header(UnpackU32(data[0..4]), data[4], data[5], UnpackU32(data[6..10]), UnpackU32(data[10..14]), data[14], data[15])
  }

  function DeserializeHeader(data: seq<byte>): Result<Header> {
    if |data| < HEADER_SIZE then Err(InsufficientData)
    else
      var h := Unpack(data[..HEADER_SIZE]);
      if h.magic != MAGIC then Err(InvalidMagic) else Ok(h)
  }

  lemma UnpackSerialized(h: Header)
    requires InRange(h)
    ensures Unpack(SerializeHeader(h)) == h
  {
    var data := SerializeHeader(h);
    assert data[0..4] == PackU32(h.magic) && data[6..10] == PackU32(h.payloadSize);
    assert data[10..14] == PackU32(h.sequenceId);
    UnpackPack(h.magic);
    UnpackPack(h.payloadSize);
    UnpackPack(h.sequenceId);
  }

  lemma SerializeUnpacked(data: seq<byte>)
    requires |data| == HEADER_SIZE
    ensures InRange(Unpack(data)) && SerializeHeader(Unpack(data)) == data
  {
    PackUnpack(data[0..4]);
    PackUnpack(data[6..10]);
    PackUnpack(data[10..14]);
    assert data == data[0..4] + [data[4], data[5]] + data[6..10] + data[10..14] + [data[14], data[15]];
  }

  /** Reading a header: which bytes are accepted, and that the two directions undo each other. */
  lemma HeaderCodec(h: Header, data: seq<byte>)
    requires InRange(h)
    ensures DeserializeHeader(data) == Ok(h) <==>
            |data| >= HEADER_SIZE && data[..HEADER_SIZE] == SerializeHeader(h) && h.magic == MAGIC
  {
    UnpackSerialized(h);
    if |data| >= HEADER_SIZE {
      SerializeUnpacked(data[..HEADER_SIZE]);
    }
  }

  /** The most significant byte first. */
  function BigEndian(bytes: seq<byte>): int
    requires |bytes| == 4
  {
    var b0: int, b1: int, b2: int, b3: int := bytes[0], bytes[1], bytes[2], bytes[3];
    b0 * 0x100_0000 + b1 * 0x1_0000 + b2 * 0x100 + b3
  }

  const MAGIC_BYTES: seq<byte> := [0x4C, 0x49, 0x54, 0x48]

  /** Where the fields of a header are in its sixteen bytes, whatever they hold. */
  lemma HeaderLayout(data: seq<byte>)
    requires |data| == 16
    ensures var h := Unpack(data);
            && h.magic == BigEndian(data[0..4]) && h.version == data[4] && h.msgType == data[5]
            && h.payloadSize == BigEndian(data[6..10]) && h.sequenceId == BigEndian(data[10..14])
            && h.flags == data[14] && h.reserved == data[15]
    ensures Unpack(data).magic == MAGIC <==> data[0..4] == MAGIC_BYTES
  {
    if BigEndian(data[0..4]) == MAGIC {
      PackUnpack(data[0..4]);
    }
  }

  /** A header is refused for its length or for its first four bytes, and for nothing else. */
  lemma HeaderRefused(data: seq<byte>)
    ensures DeserializeHeader(data) == Err(InsufficientData) <==> |data| < 16
    ensures DeserializeHeader(data) == Err(InvalidMagic) <==> |data| >= 16 && data[..4] != MAGIC_BYTES
  {
    if |data| >= 16 {
      HeaderLayout(data[..16]);
      assert data[..16][0..4] == data[..4];
      hide Unpack;
    }
  }

  // ---------------------------------------------------------------- messages

  datatype Message = Message(header: Header, payload: seq<byte>)

  /** A message as `Message.create` builds it, within the ranges of the header fields. */
  predicate WellFormed(m: Message) {
    InRange(m.header) && m.header.magic == MAGIC && m.header.payloadSize == |m.payload|
  }

  function Create(msgType: int, payload: seq<byte>, sequenceId: int): Message {
    Message(Header(MAGIC, VERSION, msgType, |payload|, sequenceId, 0, 0), payload)
  }

  function Frame(m: Message): seq<byte>
    requires InRange(m.header)
  {
    SerializeHeader(m.header) + m.payload
  }

  /** The bytes of a message made from a type, a payload and a number. */
  lemma CreatedFrame(msgType: int, payload: seq<byte>, sequenceId: int)
    ensures InRange(Create(msgType, payload, sequenceId).header) <==>
            0 <= msgType < 256 && |payload| < 0x1_0000_0000 && 0 <= sequenceId < 0x1_0000_0000
    ensures InRange(Create(msgType, payload, sequenceId).header) ==>
              var f := Frame(Create(msgType, payload, sequenceId));
              && |f| == 16 + |payload| && f[..4] == MAGIC_BYTES && f[4] == 1 && f[5] == msgType
              && BigEndian(f[6..10]) == |payload| && BigEndian(f[10..14]) == sequenceId
              && f[14] == f[15] == 0 && f[16..] == payload
  {
    var m := Create(msgType, payload, sequenceId);
    if InRange(m.header) {
      var f, data := Frame(m), SerializeHeader(m.header);
      UnpackSerialized(m.header);
      HeaderLayout(data);
      hide SerializeHeader, Unpack, BigEndian;
      assert f[..4] == data[0..4] && f[6..10] == data[6..10] && f[10..14] == data[10..14];
    }
  }

  type Wire = m: Message | WellFormed(m) witness Create(0, [], 0)

  function Frames(ms: seq<Wire>): seq<byte> {
    if ms == [] then [] else Frame(ms[0]) + Frames(ms[1..])
  }

  // ---------------------------------------------------------------- receiving, as a function

  datatype Received = Nothing | Got(message: Message) | Failed(error: Error)

  /** One `receive` on the bytes at hand: its answer and the bytes it leaves.  Running out of bytes
      loses those already read. */
  function Receive(stream: seq<byte>): (Received, seq<byte>) {
    if |stream| < HEADER_SIZE then (Nothing, [])
    else
      var rest := stream[HEADER_SIZE..];
      match DeserializeHeader(stream[..HEADER_SIZE])
      case Err(e) => (Failed(e), rest)
      case Ok(h) =>
        if h.payloadSize <= 0 then (Got(Message(h, [])), rest)
        else if |rest| < h.payloadSize then (Nothing, [])
        else (Got(Message(h, rest[..h.payloadSize])), rest[h.payloadSize..])
  }

  lemma ReceiveFrame(m: Wire, rest: seq<byte>)
    ensures Receive(Frame(m) + rest) == (Got(m), rest)
  {
    var stream := Frame(m) + rest;
    assert stream[..HEADER_SIZE] == SerializeHeader(m.header);
    assert stream[HEADER_SIZE..] == m.payload + rest;
    HeaderCodec(m.header, stream[..HEADER_SIZE]);
    assert (m.payload + rest)[..|m.payload|] == m.payload && (m.payload + rest)[|m.payload|..] == rest;
  }

  /** Only a frame is received as a message. */
  lemma ReceivedIsFrame(stream: seq<byte>)
    requires Receive(stream).0.Got?
    ensures WellFormed(Receive(stream).0.message)
    ensures stream == Frame(Receive(stream).0.message) + Receive(stream).1
  {
    SerializeUnpacked(stream[..HEADER_SIZE]);
    assert stream[..HEADER_SIZE][..HEADER_SIZE] == stream[..HEADER_SIZE];
    assert stream == stream[..HEADER_SIZE] + stream[HEADER_SIZE..];
    var m, rest := Receive(stream).0.message, stream[HEADER_SIZE..];
    assert rest == rest[..|m.payload|] + rest[|m.payload|..];
  }

  /** What a call of `receive` makes of any bytes: too few for a header, a wrong beginning, too few for the
      payload, or a message. */
  lemma ReceiveIs(stream: seq<byte>)
    ensures |stream| < 16 ==> Receive(stream) == (Nothing, [])
    ensures |stream| >= 16 && stream[..4] != MAGIC_BYTES ==> Receive(stream) == (Failed(InvalidMagic), stream[16..])
    ensures |stream| >= 16 && stream[..4] == MAGIC_BYTES ==>
              var size := BigEndian(stream[6..10]);
              if |stream| < 16 + size then Receive(stream) == (Nothing, [])
              else Receive(stream) == (Got(Message(Unpack(stream[..16]), stream[16..][..size])), stream[16..][size..])
  {
    if |stream| >= 16 {
      var data := stream[..16];
      HeaderRefused(data);
      HeaderLayout(data);
      assert data[..16] == data && data[..4] == stream[..4] && data[6..10] == stream[6..10];
      hide Unpack;
    }
  }

  /** The answers of `n` calls of `receive` in a row, and the bytes left. */
  function ReceiveMany(stream: seq<byte>, n: nat): (seq<Received>, seq<byte>)
    decreases n
  {
    if n == 0 then ([], stream)
    else
      var (r, rest) := Receive(stream);
      var (rs, left) := ReceiveMany(rest, n - 1);
      ([r] + rs, left)
  }

  lemma ReceiveManyUnfolds(stream: seq<byte>, n: nat, r: Received, rest: seq<byte>)
    requires n > 0 && Receive(stream) == (r, rest)
    ensures ReceiveMany(stream, n) == ([r] + ReceiveMany(rest, n - 1).0, ReceiveMany(rest, n - 1).1)
  {
  }

  function Gots(ms: seq<Wire>): seq<Received> {
    seq(|ms|, i requires 0 <= i < |ms| => Got(ms[i]))
  }

  lemma GotsUnfold(ms: seq<Wire>)
    requires ms != []
    ensures Gots(ms) == [Got(ms[0])] + Gots(ms[1..])
  {
  }

  /** What was framed is received: the same messages, in order, and nothing is left. */
  lemma {:induction false} FramingRoundTrip(ms: seq<Wire>)
    ensures ReceiveMany(Frames(ms), |ms|) == (Gots(ms), [])
    decreases |ms|
  {
    if ms == [] {
      assert Gots(ms) == [];
    } else {
      var rest := ms[1..];
      assert Frames(ms) == Frame(ms[0]) + Frames(rest);
      hide *;
      ReceiveFrame(ms[0], Frames(rest));
      ReceiveManyUnfolds(Frames(ms), |ms|, Got(ms[0]), Frames(rest));
      FramingRoundTrip(rest);
      GotsUnfold(ms);
    }
  }

  /** No byte stream is the framing of two different message lists. */
  lemma {:induction false} FramesInjective(a: seq<Wire>, b: seq<Wire>)
    requires Frames(a) == Frames(b)
    ensures a == b
    decreases |a|
  {
    if a != [] && b != [] {
      ReceiveFrame(a[0], Frames(a[1..]));
      ReceiveFrame(b[0], Frames(b[1..]));
      FramesInjective(a[1..], b[1..]);
      assert a == [a[0]] + a[1..] && b == [b[0]] + b[1..];
    }
  }

  // ---------------------------------------------------------------- the channel

  /** The operating system's pipe.  How much a call moves is not determined; a write to a reliable
      pipe moves something, and bytes in a prompt pipe are there before any time-out. */
  class Pipe {
    const reliable: bool
    const prompt: bool
    var bytes: seq<byte>

    constructor (reliable: bool, prompt: bool)
      ensures this.reliable == reliable && this.prompt == prompt && bytes == []
    {
      this.reliable, this.prompt, bytes := reliable, prompt, [];
    }

    method Select() returns (ready: bool)
      ensures prompt && bytes != [] ==> ready
    {
      ready :| prompt && bytes != [] ==> ready;
    }

    method OsWrite(data: seq<byte>) returns (written: int)
      requires data != []
      modifies this
      ensures written <= |data| && (reliable ==> written > 0)
      ensures bytes == old(bytes) + if written > 0 then data[..written] else []
    {
      written :| written <= |data| && (reliable ==> written > 0);
      bytes := bytes + if written > 0 then data[..written] else [];
    }

    method OsRead(size: nat) returns (chunk: seq<byte>)
      requires size > 0
      modifies this
      ensures |chunk| <= size && old(bytes) == chunk + bytes
      ensures chunk == [] <==> old(bytes) == []
    {
      var n: nat :| n <= size && n <= |bytes| && (n == 0 <==> bytes == []);
      chunk, bytes := bytes[..n], bytes[n..];
    }
  }

  class IpcChannel {
    const readFd: Pipe
    const writeFd: Pipe
    var sequenceId: int

    constructor (readFd: Pipe, writeFd: Pipe)
      ensures this.readFd == readFd && this.writeFd == writeFd && sequenceId == 0
    {
      this.readFd := readFd;
      this.writeFd := writeFd;
      sequenceId := 0;
    }

    /** However the writes are cut short, the pipe gains the whole frame, or the call fails having
        written a proper part of it. */
    method Send(msg: Message) returns (r: Result<nat>)
      modifies writeFd
      ensures !InRange(msg.header) ==> r == Err(OutOfRange) && writeFd.bytes == old(writeFd.bytes)
      ensures InRange(msg.header) && r.Ok? ==> writeFd.bytes == old(writeFd.bytes) + Frame(msg)
      ensures InRange(msg.header) && r.Err? ==>
                r == Err(WriteFailed) && !writeFd.reliable &&
                exists k :: 0 <= k < |Frame(msg)| && writeFd.bytes == old(writeFd.bytes) + Frame(msg)[..k]
    {
      if !InRange(msg.header) {
        return Err(OutOfRange);
      }
      var data := Frame(msg);
      var totalWritten := 0;
      while totalWritten < |data|
        invariant 0 <= totalWritten <= |data|
        invariant writeFd.bytes == old(writeFd.bytes) + data[..totalWritten]
      {
        var written := writeFd.OsWrite(data[totalWritten..]);
        if written <= 0 {
          return Err(WriteFailed);
        }
        assert data[..totalWritten] + data[totalWritten..][..written] == data[..totalWritten + written];
        totalWritten := totalWritten + written;
      }
      assert data[..totalWritten] == data;
      return Ok(totalWritten);
    }

    method SendJson(msgType: int, payload: seq<byte>) returns (r: Result<nat>)
      modifies this, writeFd
      ensures sequenceId == old(sequenceId) + 1
      ensures InRange(Create(msgType, payload, sequenceId).header) && writeFd.reliable ==> r.Ok?
      ensures r.Ok? ==> InRange(Create(msgType, payload, sequenceId).header)
      ensures r == Err(OutOfRange) ==> writeFd.bytes == old(writeFd.bytes)
      ensures r.Err? && r != Err(OutOfRange) ==>
                var m := Create(msgType, payload, sequenceId);
                && r == Err(WriteFailed) && !writeFd.reliable && InRange(m.header)
                && exists k :: 0 <= k < |Frame(m)| && writeFd.bytes == old(writeFd.bytes) + Frame(m)[..k]
      ensures r.Ok? ==> writeFd.bytes == old(writeFd.bytes) + Frame(Create(msgType, payload, sequenceId))
    {
      sequenceId := sequenceId + 1;
      r := Send(Create(msgType, payload, sequenceId));
    }

    /** However the reads are cut short, the first `size` bytes are taken; or the call gives up at the end
        of the bytes or at a time-out, and fewer bytes than that are read and lost. */
    method ReadExact(size: nat, timed: bool) returns (r: Option<seq<byte>>)
      modifies readFd
      ensures r.Some? ==> size <= |old(readFd.bytes)| && r.value == old(readFd.bytes)[..size]
                          && readFd.bytes == old(readFd.bytes)[size..]
      ensures r.None? ==> exists k :: 0 <= k < size && k <= |old(readFd.bytes)| && readFd.bytes == old(readFd.bytes)[k..]
      ensures !timed || readFd.prompt ==> (r.Some? <==> size <= |old(readFd.bytes)|) && (r.None? ==> readFd.bytes == [])
    {
      var data := [];
      while |data| < size
        invariant |data| <= size
        invariant old(readFd.bytes) == data + readFd.bytes
      {
        assert readFd.bytes == old(readFd.bytes)[|data|..];
        if timed {
          var ready := readFd.Select();
          if !ready {
            return None;
          }
        }
        var chunk := readFd.OsRead(size - |data|);
        if chunk == [] {
          return None;
        }
        data := data + chunk;
      }
      return Some(data);
    }

    /** The answer on the bytes at hand, or nothing when a time-out came first; then what was read is lost. */
    method ReceiveMessage(timed: bool) returns (r: Received)
      modifies readFd
      ensures r != Nothing || !timed || readFd.prompt ==> (r, readFd.bytes) == Receive(old(readFd.bytes))
      ensures exists k :: 0 <= k <= |old(readFd.bytes)| && readFd.bytes == old(readFd.bytes)[k..]
    {
      ghost var stream := readFd.bytes;
      var headerData := ReadExact(HEADER_SIZE, timed);
      if headerData == None {
        return Nothing;
      }
      ghost var rest := readFd.bytes;
      assert rest == stream[HEADER_SIZE..];
      var header := DeserializeHeader(headerData.value);
      if header.Err? {
        return Failed(header.error);
      }
      var payload := Some([]);
      if header.value.payloadSize > 0 {
        payload := ReadExact(header.value.payloadSize, timed);
        assert forall k :: 0 <= k <= |rest| ==> rest[k..] == stream[HEADER_SIZE + k..];
        if payload == None {
          return Nothing;
        }
      }
      return Got(Message(header.value, payload.value));
    }
  }

  // ---------------------------------------------------------------- both ends at once

  /** A receiver in the middle of `receive`: the header, once it is complete, and the bytes of the
      part being read. */
  datatype Reader = Reader(delivered: seq<Message>, header: Option<Header>, data: seq<byte>, failed: bool)

  /** The sender's remaining bytes, those in the pipe, and the receiver. */
  datatype Link = Link(unsent: seq<byte>, pipe: seq<byte>, reader: Reader)

  datatype LinkEvent =
    | Write(n: nat)
    | Read(n: nat)
    | Timeout

  function Wanted(r: Reader): int {
    (if r.header.Some? then r.header.value.payloadSize else HEADER_SIZE) - |r.data|
  }

  predicate Enabled(l: Link, e: LinkEvent) {
    match e
    case Write(n) => 1 <= n <= |l.unsent|
    case Read(n) => !l.reader.failed && 1 <= n <= |l.pipe| && n <= Wanted(l.reader)
    case Timeout => !l.reader.failed && l.pipe == []
  }

  /** The part being read is complete. */
  function Complete(r: Reader): Reader {
    match r.header
    case Some(h) => Reader(r.delivered + [Message(h, r.data)], None, [], false)
    case None =>
      match DeserializeHeader(r.data)
      case Err(_) => Reader(r.delivered, None, [], true)
      case Ok(h) =>
        if h.payloadSize > 0 then Reader(r.delivered, Some(h), [], false)
        else Reader(r.delivered + [Message(h, [])], None, [], false)
  }

  function LinkStep(l: Link, e: LinkEvent): Link
    requires Enabled(l, e)
  {
    match e
    case Write(n) => Link(l.unsent[n..], l.pipe + l.unsent[..n], l.reader)
    case Read(n) =>
      var grown := l.reader.(data := l.reader.data + l.pipe[..n]);
      Link(l.unsent, l.pipe[n..], if Wanted(grown) == 0 then Complete(grown) else grown)
    case Timeout => l.(reader := Reader(l.reader.delivered, None, [], false))
  }

  /** The bytes the receiver holds of a frame it has not delivered. */
  function Held(r: Reader): seq<byte>
    requires r.header.Some? ==> InRange(r.header.value)
  {
    if r.header.Some? then SerializeHeader(r.header.value) + r.data else r.data
  }

  predicate MidFrame(r: Reader) {
    r.header.Some? || r.data != []
  }

  /** The bytes held and those on their way are the frames of the messages to come. */
  ghost predicate Carries(r: Reader, onWay: seq<byte>, coming: seq<Wire>) {
    && !r.failed && Wanted(r) > 0
    && (r.header.Some? ==> InRange(r.header.value) && r.header.value.magic == MAGIC)
    && Held(r) + onWay == Frames(coming)
  }

  /** The messages delivered are the first ones, and the others are still under way, whole. */
  ghost predicate OnTrack(l: Link, ms: seq<Wire>) {
    var k := |l.reader.delivered|;
    k <= |ms| && l.reader.delivered == ms[..k] && Carries(l.reader, l.pipe + l.unsent, ms[k..])
  }

  lemma FramesUnfold(ms: seq<Wire>)
    requires ms != []
    ensures Frames(ms) == SerializeHeader(ms[0].header) + (ms[0].payload + Frames(ms[1..]))
  {
    hide SerializeHeader;
    assert Frames(ms) == Frame(ms[0]) + Frames(ms[1..]);
    ConcatAssociates(SerializeHeader(ms[0].header), ms[0].payload, Frames(ms[1..]));
  }

  /** Equal concatenations with equally long fronts. */
  lemma SameFront<T>(a: seq<T>, b: seq<T>, c: seq<T>, d: seq<T>)
    requires a + b == c + d && |a| == |c|
    ensures a == c && b == d
  {
    assert a == (a + b)[..|a|] && c == (c + d)[..|c|];
    assert b == (a + b)[|a|..] && d == (c + d)[|c|..];
  }

  lemma HeaderArrives(data: seq<byte>, rest: seq<byte>, ms: seq<Wire>)
    requires |data| == HEADER_SIZE && data + rest == Frames(ms)
    ensures ms != [] && DeserializeHeader(data) == Ok(ms[0].header)
    ensures data == SerializeHeader(ms[0].header) && rest == ms[0].payload + Frames(ms[1..])
  {
    assert ms != [];
    hide DeserializeHeader, Frames, SerializeHeader;
    FramesUnfold(ms);
    SameFront(data, rest, SerializeHeader(ms[0].header), ms[0].payload + Frames(ms[1..]));
    assert data[..HEADER_SIZE] == data;
    HeaderCodec(ms[0].header, data);
  }

  lemma PayloadArrives(h: Header, data: seq<byte>, rest: seq<byte>, ms: seq<Wire>)
    requires InRange(h) && h.magic == MAGIC && |data| == h.payloadSize
    requires (SerializeHeader(h) + data) + rest == Frames(ms)
    ensures ms != [] && ms[0] == Message(h, data) && rest == Frames(ms[1..])
  {
    hide Frames, SerializeHeader, DeserializeHeader, Unpack;
    ConcatAssociates(SerializeHeader(h), data, rest);
    HeaderArrives(SerializeHeader(h), data + rest, ms);
    UnpackSerialized(h);
    UnpackSerialized(ms[0].header);
    SameFront(data, rest, ms[0].payload, Frames(ms[1..]));
  }

  /** A complete part: the header of a message with a payload, or the end of a message. */
  ghost predicate Advances(r: Reader, r': Reader, onWay: seq<byte>, coming: seq<Wire>) {
    || (r'.delivered == r.delivered && Carries(r', onWay, coming))
    || (coming != [] && r'.delivered == r.delivered + [coming[0]] && Carries(r', onWay, coming[1..]))
  }

  lemma NothingHeld(delivered: seq<Message>, onWay: seq<byte>, coming: seq<Wire>)
    requires onWay == Frames(coming)
    ensures Carries(Reader(delivered, None, [], false), onWay, coming)
  {
    hide Frames;
    assert [] + onWay == onWay;
  }

  lemma PayloadCarries(r: Reader, onWay: seq<byte>, coming: seq<Wire>)
    requires !r.failed && Wanted(r) == 0 && r.header.Some? && InRange(r.header.value) && r.header.value.magic == MAGIC
    requires Held(r) + onWay == Frames(coming)
    ensures Advances(r, Complete(r), onWay, coming)
  {
    PayloadArrives(r.header.value, r.data, onWay, coming);
    NothingHeld(r.delivered + [coming[0]], onWay, coming[1..]);
    hide Frames, SerializeHeader, DeserializeHeader, Carries;
  }

  lemma HeaderCarries(r: Reader, onWay: seq<byte>, coming: seq<Wire>)
    requires !r.failed && Wanted(r) == 0 && r.header.None? && r.data + onWay == Frames(coming)
    ensures Advances(r, Complete(r), onWay, coming)
  {
    HeaderArrives(r.data, onWay, coming);
    hide Frames, SerializeHeader, DeserializeHeader;
    var m := coming[0];
    if m.header.payloadSize > 0 {
      assert SerializeHeader(m.header) + [] == r.data;
      assert Complete(r) == Reader(r.delivered, Some(m.header), [], false);
    } else {
      assert m.payload == [] && m == Message(m.header, []);
      assert [] + Frames(coming[1..]) == Frames(coming[1..]);
      NothingHeld(r.delivered + [m], onWay, coming[1..]);
      hide Carries;
    }
  }

  lemma CompleteCarries(r: Reader, onWay: seq<byte>, coming: seq<Wire>)
    requires !r.failed && Wanted(r) == 0
    requires r.header.Some? ==> InRange(r.header.value) && r.header.value.magic == MAGIC
    requires Held(r) + onWay == Frames(coming)
    ensures Advances(r, Complete(r), onWay, coming)
  {
    hide Advances, Complete, Frames, Wanted;
    if r.header.Some? {
      PayloadCarries(r, onWay, coming);
    } else {
      HeaderCarries(r, onWay, coming);
    }
  }

  lemma WriteOnTrack(l: Link, n: nat, ms: seq<Wire>)
    requires OnTrack(l, ms) && Enabled(l, Write(n))
    ensures OnTrack(LinkStep(l, Write(n)), ms)
  {
    hide Carries;
    assert l.unsent == l.unsent[..n] + l.unsent[n..];
    ConcatAssociates(l.pipe, l.unsent[..n], l.unsent[n..]);
  }

  lemma TakeHeld(r: Reader, chunk: seq<byte>, rest: seq<byte>)
    requires r.header.Some? ==> InRange(r.header.value)
    ensures Held(r.(data := r.data + chunk)) + rest == Held(r) + (chunk + rest)
  {
    hide SerializeHeader;
    ConcatAssociates(Held(r), chunk, rest);
    if r.header.Some? {
      ConcatAssociates(SerializeHeader(r.header.value), r.data, chunk);
    }
  }

  lemma ReadOnTrack(l: Link, n: nat, ms: seq<Wire>)
    requires OnTrack(l, ms) && Enabled(l, Read(n))
    ensures OnTrack(LinkStep(l, Read(n)), ms)
  {
    hide Frames, Held, Complete;
    var chunk, rest, coming := l.pipe[..n], l.pipe[n..] + l.unsent, ms[|l.reader.delivered|..];
    var grown := l.reader.(data := l.reader.data + chunk);
    assert l.pipe == chunk + l.pipe[n..];
    ConcatAssociates(chunk, l.pipe[n..], l.unsent);
    TakeHeld(l.reader, chunk, rest);
    if Wanted(grown) == 0 {
      CompleteCarries(grown, rest, coming);
      hide Carries;
      DeliveredOneMore(l.reader.delivered, Complete(grown).delivered, ms);
    }
  }

  lemma DeliveredOneMore(before: seq<Message>, after: seq<Message>, ms: seq<Wire>)
    requires |before| <= |ms| && before == ms[..|before|]
    ensures |before| < |ms| && after == before + [ms[|before|..][0]] ==>
              |after| == |before| + 1 && after == ms[..|after|] && ms[|before|..][1..] == ms[|after|..]
  {
  }

  lemma StepOnTrack(l: Link, e: LinkEvent, ms: seq<Wire>)
    requires OnTrack(l, ms) && Enabled(l, e) && !(e.Timeout? && MidFrame(l.reader))
    ensures OnTrack(LinkStep(l, e), ms)
  {
    match e {
      case Write(n) => WriteOnTrack(l, n, ms);
      case Read(n) => ReadOnTrack(l, n, ms);
      case Timeout => assert LinkStep(l, e) == l;
    }
  }

  function LinkRun(l: Link, es: seq<LinkEvent>): Option<Link>
    decreases |es|
  {
    if es == [] then Some(l)
    else if !Enabled(l, es[0]) then None
    else LinkRun(LinkStep(l, es[0]), es[1..])
  }

  /** No time-out falls inside a frame. */
  predicate Patient(l: Link, es: seq<LinkEvent>)
    decreases |es|
  {
    es != [] && Enabled(l, es[0]) ==>
      !(es[0].Timeout? && MidFrame(l.reader)) && Patient(LinkStep(l, es[0]), es[1..])
  }

  lemma {:induction false} RunOnTrack(l: Link, es: seq<LinkEvent>, ms: seq<Wire>)
    requires OnTrack(l, ms) && Patient(l, es) && LinkRun(l, es).Some?
    ensures OnTrack(LinkRun(l, es).value, ms)
    decreases |es|
  {
    if es != [] {
      StepOnTrack(l, es[0], ms);
      RunOnTrack(LinkStep(l, es[0]), es[1..], ms);
    }
  }

  function Start(ms: seq<Wire>): Link {
    Link(Frames(ms), [], Reader([], None, [], false))
  }

  lemma OnTrackMeans(l: Link, ms: seq<Wire>)
    requires OnTrack(l, ms)
    ensures !l.reader.failed
    ensures |l.reader.delivered| <= |ms| && l.reader.delivered == ms[..|l.reader.delivered|]
  {
  }

  lemma StartOnTrack(ms: seq<Wire>)
    ensures OnTrack(Start(ms), ms)
  {
    hide Frames;
    assert ms[0..] == ms && [] + Frames(ms) == Frames(ms);
  }

  /** In every interleaving of short writes, short reads and time-outs between frames, what has been
      delivered is a prefix of what is sent, no header is ever refused, and once no bytes are under
      way everything has been delivered. */
  lemma DeliveredInOrder(ms: seq<Wire>, es: seq<LinkEvent>)
    requires Patient(Start(ms), es) && LinkRun(Start(ms), es).Some?
    ensures var l := LinkRun(Start(ms), es).value;
            && !l.reader.failed
            && |l.reader.delivered| <= |ms| && l.reader.delivered == ms[..|l.reader.delivered|]
            && (l.unsent == [] && l.pipe == [] ==> l.reader.delivered == ms && !MidFrame(l.reader))
  {
    StartOnTrack(ms);
    hide OnTrack, Start;
    RunOnTrack(Start(ms), es, ms);
    var l := LinkRun(Start(ms), es).value;
    hide LinkRun, Patient;
    OnTrackMeans(l, ms);
    if l.unsent == [] && l.pipe == [] {
      NothingHeldAtEnd(l, ms);
    }
  }

  lemma NothingHeldAtEnd(l: Link, ms: seq<Wire>)
    requires OnTrack(l, ms) && l.unsent == [] && l.pipe == []
    ensures l.reader.delivered == ms && !MidFrame(l.reader)
  {
    var k := |l.reader.delivered|;
    assert l.pipe + l.unsent == [];
    NoPartIsAFrame(l.reader, ms[k..]);
    assert Held(l.reader) + [] == Held(l.reader) && |Held(l.reader)| == 0;
    assert ms == ms[..k] + ms[k..];
  }

  /** The bytes held are fewer than a frame. */
  lemma NoPartIsAFrame(r: Reader, coming: seq<Wire>)
    requires Carries(r, [], coming)
    ensures coming == []
  {
    hide SerializeHeader, Unpack;
    if coming != [] {
      FramesUnfold(coming);
      hide Frames;
      var m := coming[0];
      assert Held(r) + [] == Held(r);
      if r.header.Some? {
        var h := r.header.value;
        SameFront(SerializeHeader(h), r.data, SerializeHeader(m.header), m.payload + Frames(coming[1..]));
        UnpackSerialized(h);
        UnpackSerialized(m.header);
      }
    }
  }

  /** As long as bytes are under way some write or read can happen: the two ends never block. */
  lemma NeverStuck(l: Link, ms: seq<Wire>)
    requires OnTrack(l, ms) && (l.unsent != [] || l.pipe != [])
    ensures Enabled(l, Write(1)) || Enabled(l, Read(1))
  {
  }

  /** A time-out does no harm if and only if it finds the receiver between two frames. */
  lemma TimeoutHarmlessIff(l: Link, ms: seq<Wire>)
    requires OnTrack(l, ms) && Enabled(l, Timeout)
    ensures OnTrack(LinkStep(l, Timeout), ms) <==> !MidFrame(l.reader)
  {
    assert |Held(l.reader) + l.pipe + l.unsent| == |Held(l.reader)| + |l.pipe| + |l.unsent|;
    var l' := LinkStep(l, Timeout);
    assert |Held(l'.reader) + l'.pipe + l'.unsent| == |l.pipe| + |l.unsent|;
  }

  const UNREAD: Reader := Reader([], None, [], false)

  /** A run to a time-out inside a frame, for any message with a payload: the receiver has read one byte,
      drops it, and refuses the next sixteen bytes for their magic number. */
  lemma TimeoutInsideFrame(m: Wire)
    requires m.payload != []
    ensures var before, after := [Write(1), Read(1)], [Timeout, Write(HEADER_SIZE), Read(HEADER_SIZE)];
            && LinkRun(Start([m]), before).Some? && MidFrame(LinkRun(Start([m]), before).value.reader)
            && LinkRun(Start([m]), before + after).Some?
            && var l := LinkRun(Start([m]), before + after).value; l.reader.failed && l.reader.delivered == []
  {
    var stream, before, after := Frame(m), [Write(1), Read(1)], [Timeout, Write(HEADER_SIZE), Read(HEADER_SIZE)];
    assert Frames([m]) == stream by {
      assert [m][1..] == [] && stream + [] == stream;
    }
    WriteAndRead(stream, 1);
    var rest := stream[1..];
    MissingByte(m, rest[..HEADER_SIZE]);
    hide DeserializeHeader, Frame, Frames;
    WriteAndRead(rest, HEADER_SIZE);
    var l := Link(rest, [], UNREAD.(data := stream[..1]));
    assert LinkStep(l, Timeout) == Link(rest, [], UNREAD);
    assert after[1..] == [Write(HEADER_SIZE), Read(HEADER_SIZE)];
    LinkRunThen(Start([m]), l, before, after);
  }

  lemma WriteAndRead(stream: seq<byte>, n: nat)
    requires 1 <= n <= |stream| && n <= HEADER_SIZE
    ensures var read := UNREAD.(data := stream[..n]);
            LinkRun(Link(stream, [], UNREAD), [Write(n), Read(n)]) ==
            Some(Link(stream[n..], [], if n == HEADER_SIZE then Complete(read) else read))
  {
    hide Complete;
    var l, l' := Link(stream, [], UNREAD), Link(stream[n..], stream[..n], UNREAD);
    assert [] + stream[..n] == stream[..n] && stream[..n][..n] == stream[..n] && stream[..n][n..] == [];
    assert LinkStep(l, Write(n)) == l';
    LinkRunTwo(l, Write(n), Read(n), l', LinkStep(l', Read(n)));
  }

  lemma LinkRunTwo(l: Link, e: LinkEvent, f: LinkEvent, l': Link, l'': Link)
    requires Enabled(l, e) && LinkStep(l, e) == l' && Enabled(l', f) && LinkStep(l', f) == l''
    ensures LinkRun(l, [e, f]) == Some(l'')
  {
    assert [e, f][1..] == [f] && [f][1..] == [];
    assert LinkRun(l', [f]) == LinkRun(l'', []);
  }

  lemma {:induction false} LinkRunThen(l: Link, l': Link, es: seq<LinkEvent>, fs: seq<LinkEvent>)
    requires LinkRun(l, es) == Some(l')
    ensures LinkRun(l, es + fs) == LinkRun(l', fs)
    decreases |es|
  {
    if es == [] {
      assert es + fs == fs;
    } else {
      assert (es + fs)[1..] == es[1..] + fs && (es + fs)[0] == es[0];
      LinkRunThen(LinkStep(l, es[0]), l', es[1..], fs);
    }
  }

  /** Without its first byte a frame does not begin with the magic number. */
  lemma MissingByte(m: Wire, next: seq<byte>)
    requires |next| == HEADER_SIZE <= |Frame(m)| - 1 && next == Frame(m)[1..][..HEADER_SIZE]
    ensures DeserializeHeader(next) == Err(InvalidMagic)
  {
    assert next[0] == Frame(m)[1] == SerializeHeader(m.header)[1];
    assert SerializeHeader(m.header)[1] == PackU32(MAGIC)[1] == 0x49;
    assert next[..HEADER_SIZE] == next;
    assert next[0] == next[0..4][0];
  }

  // ---------------------------------------------------------------- what time-outs cost

  function TotalLength(ms: seq<Message>): nat {
    if ms == [] then 0 else TotalLength(ms[..|ms| - 1]) + HEADER_SIZE + |ms[|ms| - 1].payload|
  }

  lemma TotalLengthPush(ms: seq<Message>, m: Message)
    ensures TotalLength(ms + [m]) == TotalLength(ms) + HEADER_SIZE + |m.payload|
  {
    assert (ms + [m])[..|ms|] == ms;
  }

  lemma {:induction false} TotalLengthFirst(m: Message, ms: seq<Message>)
    ensures TotalLength([m] + ms) == HEADER_SIZE + |m.payload| + TotalLength(ms)
    decreases |ms|
  {
    if ms == [] {
      assert [m] + ms == [] + [m];
      TotalLengthPush([], m);
    } else {
      var front, last := ms[..|ms| - 1], ms[|ms| - 1];
      TotalLengthFirst(m, front);
      ConcatAssociates([m], front, [last]);
      assert ms == front + [last];
      TotalLengthPush([m] + front, last);
      TotalLengthPush(front, last);
    }
  }

  lemma {:induction false} FramesLength(ms: seq<Wire>)
    ensures |Frames(ms)| == TotalLength(ms)
    decreases |ms|
  {
    if ms != [] {
      FramesLength(ms[1..]);
      assert ms == [ms[0]] + ms[1..];
      TotalLengthFirst(ms[0], ms[1..]);
    }
  }

  /** The bytes that were delivered, are held, in the pipe or unsent; the rest is lost. */
  function Weight(l: Link): nat {
    TotalLength(l.reader.delivered) + (if l.reader.header.Some? then HEADER_SIZE else 0) + |l.reader.data|
    + |l.pipe| + |l.unsent|
  }

  lemma CompleteWeight(r: Reader)
    requires Wanted(r) == 0
    ensures var r' := Complete(r);
            TotalLength(r'.delivered) + (if r'.header.Some? then HEADER_SIZE else 0) + |r'.data|
            <= TotalLength(r.delivered) + (if r.header.Some? then HEADER_SIZE else 0) + |r.data|
  {
    hide DeserializeHeader, TotalLength;
    match r.header {
      case Some(h) => TotalLengthPush(r.delivered, Message(h, r.data));
      case None =>
        match DeserializeHeader(r.data)
        case Err(_) =>
        case Ok(h) => TotalLengthPush(r.delivered, Message(h, []));
    }
  }

  /** No event brings bytes; a time-out inside a frame loses some. */
  lemma StepWeight(l: Link, e: LinkEvent)
    requires Enabled(l, e)
    ensures Weight(LinkStep(l, e)) <= Weight(l)
    ensures e.Timeout? && MidFrame(l.reader) ==> Weight(LinkStep(l, e)) < Weight(l)
  {
    hide Complete, TotalLength;
    if e.Read? {
      var grown := l.reader.(data := l.reader.data + l.pipe[..e.n]);
      if Wanted(grown) == 0 {
        CompleteWeight(grown);
      }
    }
  }

  lemma {:induction false} RunWeight(l: Link, es: seq<LinkEvent>)
    requires LinkRun(l, es).Some?
    ensures Weight(LinkRun(l, es).value) <= Weight(l)
    ensures !Patient(l, es) ==> Weight(LinkRun(l, es).value) < Weight(l)
    decreases |es|
  {
    if es != [] {
      StepWeight(l, es[0]);
      hide Weight, LinkStep, Enabled, MidFrame;
      RunWeight(LinkStep(l, es[0]), es[1..]);
    }
  }

  /** Over whole runs: when no byte is under way any more, exactly the sent messages have been delivered
      if and only if no time-out fell inside a frame. */
  lemma DeliveredIffPatient(ms: seq<Wire>, es: seq<LinkEvent>)
    requires LinkRun(Start(ms), es).Some?
    requires LinkRun(Start(ms), es).value.unsent == [] && LinkRun(Start(ms), es).value.pipe == []
    ensures LinkRun(Start(ms), es).value.reader.delivered == ms <==> Patient(Start(ms), es)
  {
    if Patient(Start(ms), es) {
      DeliveredInOrder(ms, es);
    } else {
      RunWeight(Start(ms), es);
      FramesLength(ms);
      assert Weight(Start(ms)) == TotalLength(ms) by {
        assert TotalLength([]) == 0;
      }
      hide LinkRun, Patient, TotalLength;
    }
  }
}
