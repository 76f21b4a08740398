/** The streaming decoder and the filter's buffering, as a state machine over buffered bytes. */
module Decoding {
  import opened Outcomes
  import opened Bytes
  import opened Codec
  import opened MessageTable

  /** Broken: an exception went out of the decoder, and the connection is closed. */
  datatype Mode = Init | InSync | OutOfSync | Encrypted | Negotiating | Broken

  /** Underflow: reading a message ran past its body, which the proxy's buffers answer with an exception. */
  datatype Result = ReadyForNext | NeedMoreData | Stopped | Underflow

  /** What a message's action did: the new session, bytes emitted to the client, and the message kept, if any. */
  datatype Handled<S> = Handled(session: S, emitted: ByteString, kept: Option<Value>)

  /** The actions on messages, by direction and type byte. */
  datatype Handler<!S> = Handler(on: (S, bool, byte, Value) -> Handled<S>)

  /** Whether the filter ends TLS, whether it asks the server for TLS, and whether switching to TLS succeeds. */
  datatype Tls = Tls(terminate: bool, upstream: bool, transport: bool)

  /** The decoder, and the bytes it put out: towards the server, towards the client, and straight to the server. */
  datatype State<S> = State(
    mode: Mode, command: byte, session: S, frontend: ByteString, backend: ByteString, injected: ByteString,
      stored: ByteString)

  datatype Step<S> = Step(state: State<S>, rest: ByteString, result: Result)

  /** The first n bytes, or all if there are fewer. */
  function Take(b: ByteString, n: nat): ByteString { if n <= |b| then b[..n] else b }

  /** The body's length by the length field, in 32-bit arithmetic. */
  function BodyLength(len: nat): (n: nat)
    requires len < TWO_32
    ensures n < TWO_32 && (len >= 4 ==> n == len - 4)
  {
    if len >= 4 then len - 4 else len + (TWO_32 - 4)
  }

  function Put<S>(st: State<S>, frontend: bool, bytes: ByteString): State<S> {
    if frontend then st.(frontend := st.frontend + bytes) else st.(backend := st.backend + bytes)
  }

  /** A message that is passed on as it came. */
  function PassOn(command: byte, body: ByteString): ByteString {
    (if command != DASH then [command] else []) + Put32((|body| + 4) % TWO_32) + body
  }

  /** The action of a message, if it has one. */
  function Act<S>(h: Handler<S>, e: Entry, session: S, frontend: bool, command: byte, x: Value): Handled<S> {
    if e.action then h.on(session, frontend, command, x) else Handled(session, [], Some(x))
  }

  /** processMessageBody on the value read. */
  function Deliver<S>(h: Handler<S>, st: State<S>, frontend: bool, e: Entry, x: Value, body: ByteString): State<S> {
    var done := Act(h, e, st.session, frontend, st.command, x);
    var st1 := st.(session := done.session, backend := st.backend + done.emitted);
    if done.kept.None? then st1
    else if e.identifier.Some? then Put(st1, frontend, WriteFrame(e.identifier.value, e.Body(), done.kept.value))
    else Put(st1, frontend, PassOn(st.command, body))
  }

  /** A message accepted by validation: its body is taken from the buffer, read and processed. */
  function Accept<S>(h: Handler<S>, st: State<S>, frontend: bool, e: Entry, v: Verdict, length: nat, rest: ByteString,
                     result: Result): Step<S>
    requires v.Valid?
  {
    var body := Take(rest, length);
    var r := Read(e.Body(), v.shape, body, 0, |body|);
    if r.Misread? then Step(st.(mode := Broken), Drop(rest, length), Underflow)
    else Step(Deliver(h, st, frontend, e, r.value, body), Drop(rest, length), result)
  }

  function LoseSync<S>(st: State<S>): Step<S> { Step(st.(mode := OutOfSync), [], ReadyForNext) }

  const MAX_STARTUP_PACKET_LENGTH := 10000
  const SSL_REQUEST := 0x04d2_162f
  const FIRST_REQUEST_CODE := 0x04d2_0000

  /** onDataInSync. */
  function DecodeInSync<S>(h: Handler<S>, st: State<S>, frontend: bool, data: ByteString): Step<S> {
    if |data| < 5 then Step(st, data, Result.NeedMoreData)
    else
      var st1, e, length := st.(command := data[0]), Lookup(frontend, data[0]), BodyLength(Word32(data[1..5]));
      var v := Validate(e.Body(), data[5..], 0, length);
      match v
      case NeedMoreData => Step(st1, data, Result.NeedMoreData)
      case Failed => LoseSync(st1)
      case Valid(_, _, _) => Accept(h, st1, frontend, e, v, length, data[5..], ReadyForNext)
  }

  /** The state after a startup message with this code, before it is passed on. */
  function AfterStartup<S>(tls: Tls, st: State<S>, code: nat, data: ByteString): State<S> {
    if code >= FIRST_REQUEST_CODE then
      if code == SSL_REQUEST && tls.terminate then st.(backend := st.backend + ['S' as int]) else st.(mode := Encrypted)
    else if tls.upstream then
      st.(mode := Negotiating, stored := st.stored + data, injected := st.injected + Put32(8) + Put32(SSL_REQUEST))
    else st.(mode := InSync)
  }

  function StartupResult(tls: Tls, code: nat): Result {
    if code >= FIRST_REQUEST_CODE then (if code == SSL_REQUEST && tls.terminate then Stopped else ReadyForNext)
    else if tls.upstream then Stopped
    else ReadyForNext
  }

  lemma StartupHasCode(rest: ByteString, length: nat)
    ensures Validate(Startup().Body(), rest, 0, length).Valid? ==> |rest| >= 4
  {
    assert Startup().Body() == Pair(Int(4), Fields([Int(4), Repeated(CString)][1..]));
  }

  /** onDataInit. */
  function DecodeInit<S>(h: Handler<S>, tls: Tls, st: State<S>, data: ByteString): Step<S> {
    if |data| < 4 then Step(st, data, Result.NeedMoreData)
    else
      var len := Word32(data[..4]);
      if len > MAX_STARTUP_PACKET_LENGTH then LoseSync(st)
      else
        var v := Validate(Startup().Body(), data[4..], 0, BodyLength(len));
        match v
        case NeedMoreData => Step(st, data, Result.NeedMoreData)
        case Failed => LoseSync(st)
        case Valid(_, _, _) =>
          StartupHasCode(data[4..], BodyLength(len));
          var code := Word32(data[4..8]);
          Accept(h, AfterStartup(tls, st, code, data), true, Startup(), v, BodyLength(len), data[4..],
            StartupResult(tls, code))
  }

  /** onDataInNegotiating. */
  function DecodeNegotiating<S>(tls: Tls, st: State<S>, frontend: bool, data: ByteString): Step<S> {
    if frontend then LoseSync(st)
    else
      var agreed := data == ['S' as int];
      if agreed && tls.transport then
        Step(st.(mode := InSync, injected := st.injected + st.stored, stored := []), [], Stopped)
      else
        Step(st.(mode := if agreed || data == ['E' as int] then Init else OutOfSync), [], Stopped)
  }

  /** Decoder::onData. */
  function Decode<S>(h: Handler<S>, tls: Tls, st: State<S>, frontend: bool, data: ByteString): Step<S> {
    match st.mode
    case Init => DecodeInit(h, tls, st, data)
    case InSync => DecodeInSync(h, st, frontend, data)
    case Negotiating => DecodeNegotiating(tls, st, frontend, data)
    case _ => Step(st, [], ReadyForNext)
  }

  /** A decoder that is ready for the next message has taken bytes from the buffer. */
  lemma Consumes<S>(h: Handler<S>, tls: Tls, st: State<S>, frontend: bool, data: ByteString)
    requires data != []
    ensures
      var d := Decode(h, tls, st, frontend, data);
      |d.rest| <= |data| && (d.result.ReadyForNext? ==> |d.rest| < |data|)
  {
  }

  /** doDecode: decodes until the buffer is empty or the decoder does not go on. */
  function Run<S>(h: Handler<S>, tls: Tls, st: State<S>, frontend: bool, data: ByteString): (d: Step<S>)
    ensures |d.rest| <= |data|
    decreases |data|
  {
    if data == [] then Step(st, [], ReadyForNext)
    else
      var d := Decode(h, tls, st, frontend, data);
      Consumes(h, tls, st, frontend, data);
      if d.result.ReadyForNext? then Run(h, tls, d.state, frontend, d.rest) else d
  }

  /** The decoder, and the bytes of one direction that are not decoded yet. */
  datatype Stream<S> = Stream(state: State<S>, buffer: ByteString)

  /** Bytes arrive and are decoded together with those kept from before. */
  function Feed<S>(h: Handler<S>, tls: Tls, s: Stream<S>, frontend: bool, chunk: ByteString): Stream<S> {
    var d := Run(h, tls, s.state, frontend, s.buffer + chunk);
    Stream(d.state, d.rest)
  }
}
