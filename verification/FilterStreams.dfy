/** The filter's two directions: buffers of undecoded bytes, and what was passed on to either side. */
module FilterStreams {
  import opened Outcomes
  import opened Bytes
  import opened Codec
  import opened MessageTable
  import opened Decoding
  import opened DecodingLaws

  datatype Filter<S> = Filter(state: State<S>, front: ByteString, back: ByteString, server: ByteString,
                              client: ByteString)

  function Buffered<S>(x: Filter<S>, frontend: bool): ByteString { if frontend then x.front else x.back }

  /** The replacement bytes are passed on; towards the server only when the client has sent something. */
  function Flush<S>(x: Filter<S>, frontend: bool): Filter<S> {
    if frontend then
      x.(state := x.state.(frontend := [], backend := []), server := x.server + x.state.frontend, client :=
        x.client + x.state.backend)
    else
      x.(state := x.state.(backend := []), client := x.client + x.state.backend)
  }

  /** onData and onWrite. */
  function Receive<S>(h: Handler<S>, tls: Tls, x: Filter<S>, frontend: bool, chunk: ByteString): Filter<S> {
    var d := Run(h, tls, x.state, frontend, Buffered(x, frontend) + chunk);
    var x1 := if frontend then x.(state := d.state, front := d.rest) else x.(state := d.state, back := d.rest);
    match d.result
    case Stopped => if frontend then x1.(state := d.state.(frontend := [])) else x1.(state := d.state.(backend := []))
    case Underflow => x1
    case _ => Flush(x1, frontend)
  }

  function ReceiveAll<S>(h: Handler<S>, tls: Tls, x: Filter<S>, frontend: bool, chunks: seq<ByteString>): Filter<S>
    decreases |chunks|
  {
    if chunks == [] then x else ReceiveAll(h, tls, Receive(h, tls, x, frontend, chunks[0]), frontend, chunks[1..])
  }

  // --- output already there stays in front ---

  function With<S>(st: State<S>, p: ByteString, q: ByteString): State<S> {
    st.(frontend := p + st.frontend, backend := q + st.backend)
  }

  function StepWith<S>(d: Step<S>, p: ByteString, q: ByteString): Step<S> {
    Step(With(d.state, p, q), d.rest, d.result)
  }

  lemma Assoc(a: ByteString, b: ByteString, c: ByteString)
    ensures (a + b) + c == a + (b + c)
  {
  }

  lemma PutWith<S>(st: State<S>, frontend: bool, bytes: ByteString, p: ByteString, q: ByteString)
    ensures Put(With(st, p, q), frontend, bytes) == With(Put(st, frontend, bytes), p, q)
  {
    Assoc(p, st.frontend, bytes);
    Assoc(q, st.backend, bytes);
  }

  lemma DeliverWith<S>(h: Handler<S>, st: State<S>, frontend: bool, e: Entry, x: Value, body: ByteString, p: ByteString,
                       q: ByteString)
    ensures Deliver(h, With(st, p, q), frontend, e, x, body) == With(Deliver(h, st, frontend, e, x, body), p, q)
  {
    hide WriteFrame, PassOn, Put;
    var done := Act(h, e, st.session, frontend, st.command, x);
    Assoc(q, st.backend, done.emitted);
    var st1 := st.(session := done.session, backend := st.backend + done.emitted);
    assert With(st, p, q).(session := done.session, backend := With(st, p, q).backend + done.emitted) ==
      With(st1, p, q);
    if done.kept.Some? {
      var bytes := if e.identifier.Some? then
        WriteFrame(e.identifier.value, e.Body(), done.kept.value) else PassOn(st.command, body);
      PutWith(st1, frontend, bytes, p, q);
    }
  }

  lemma AcceptWith<S>(h: Handler<S>, st: State<S>, frontend: bool, e: Entry, v: Verdict, length: nat, rest: ByteString,
                      result: Decoding.Result, p: ByteString, q: ByteString)
    requires v.Valid?
    ensures Accept(h, With(st, p, q), frontend, e, v, length, rest, result) ==
      StepWith(Accept(h, st, frontend, e, v, length, rest, result), p, q)
  {
    hide Deliver, Read;
    var body := Take(rest, length);
    var r := Read(e.Body(), v.shape, body, 0, |body|);
    if r.Got? { DeliverWith(h, st, frontend, e, r.value, body, p, q); }
  }

  lemma DecodeWith<S>(h: Handler<S>, tls: Tls, st: State<S>, frontend: bool, data: ByteString, p: ByteString,
                      q: ByteString)
    requires Plain(tls) && !st.mode.Negotiating?
    ensures Decode(h, tls, With(st, p, q), frontend, data) == StepWith(Decode(h, tls, st, frontend, data), p, q)
  {
    hide Validate, Read, Accept, Lookup, Startup;
    match st.mode
    case InSync =>
      if |data| >= 5 {
        var e, length := Lookup(frontend, data[0]), BodyLength(Word32(data[1..5]));
        var v := Validate(e.Body(), data[5..], 0, length);
        if v.Valid? { AcceptWith(h, st.(command := data[0]), frontend, e, v, length, data[5..], ReadyForNext, p, q); }
      }
    case Init =>
      if |data| >= 4 {
        var len := Word32(data[..4]);
        var v := Validate(Startup().Body(), data[4..], 0, BodyLength(len));
        if v.Valid? && len <= MAX_STARTUP_PACKET_LENGTH {
          StartupHasCode(data[4..], BodyLength(len));
          var code := Word32(data[4..8]);
          AcceptWith(h, AfterStartup(tls, st, code, data), true, Startup(), v, BodyLength(len), data[4..],
            StartupResult(tls, code), p, q);
        }
      }
    case _ =>
  }

  lemma {:induction false} RunWith<S>(h: Handler<S>, tls: Tls, st: State<S>, frontend: bool, data: ByteString,
                                      p: ByteString, q: ByteString)
    requires Plain(tls) && !st.mode.Negotiating?
    ensures Run(h, tls, With(st, p, q), frontend, data) == StepWith(Run(h, tls, st, frontend, data), p, q)
    decreases |data|
  {
    hide Decode;
    if data != [] {
      var d := Decode(h, tls, st, frontend, data);
      DecodeWith(h, tls, st, frontend, data, p, q);
      NeverNegotiates(h, tls, st, frontend, data);
      Consumes(h, tls, st, frontend, data);
      if d.result.ReadyForNext? { RunWith(h, tls, d.state, frontend, d.rest, p, q); }
    }
  }

  /** A clean run ends because the buffer is empty or holds part of a message. */
  lemma {:induction false} CleanRunEnds<S>(h: Handler<S>, tls: Tls, st: State<S>, frontend: bool, data: ByteString)
    requires Plain(tls) && !st.mode.Negotiating? && Clean(h, tls, st, frontend, data)
    ensures
      var d := Run(h, tls, st, frontend, data);
      !d.state.mode.Negotiating? && (d.result.ReadyForNext? || d.result.NeedMoreData?)
    decreases |data|
  {
    hide Decode, FrameFilled;
    if data != [] {
      assert data + [] == data;
      StepAny(h, tls, st, frontend, data, []);
      NeverNegotiates(h, tls, st, frontend, data);
      Consumes(h, tls, st, frontend, data);
      var d := Decode(h, tls, st, frontend, data);
      if d.result.ReadyForNext? { CleanRunEnds(h, tls, d.state, frontend, d.rest); }
    }
  }

  // --- the streams ---

  /** Nothing more can be decoded, and nothing waits to be passed on. */
  ghost predicate Idle<S>(h: Handler<S>, tls: Tls, x: Filter<S>, frontend: bool) {
    var d := Run(h, tls, x.state, frontend, Buffered(x, frontend));
    d.rest == Buffered(x, frontend) && d.state == x.state
  }

  lemma ReceiveTwo<S>(h: Handler<S>, tls: Tls, x: Filter<S>, frontend: bool, a: ByteString, b: ByteString)
    requires Plain(tls) && !x.state.mode.Negotiating? &&
      Clean(h, tls, x.state, frontend, Buffered(x, frontend) + (a + b))
    ensures
      var x1 := Receive(h, tls, x, frontend, a);
      && !x1.state.mode.Negotiating?
      && Clean(h, tls, x1.state, frontend, Buffered(x1, frontend) + b)
      && Idle(h, tls, x1, frontend)
      && Receive(h, tls, x1, frontend, b) == Receive(h, tls, x, frontend, a + b)
  {
    hide Run, Clean;
    var kept := Buffered(x, frontend);
    Assoc(kept, a, b);
    RunInTwo(h, tls, x.state, frontend, kept + a, b);
    CleanPrefix(h, tls, x.state, frontend, kept + a, b);
    CleanRunEnds(h, tls, x.state, frontend, kept + a);
    CleanRunEnds(h, tls, x.state, frontend, (kept + a) + b);
    Settled(h, tls, x.state, frontend, kept + a, b);
    var d := Run(h, tls, x.state, frontend, kept + a);
    var x1 := Receive(h, tls, x, frontend, a);
    var p, q := if frontend then d.state.frontend else [], d.state.backend;
    PassedOn(d.state, x1.state, frontend, p, q);
    RunWith(h, tls, x1.state, frontend, d.rest, p, q);
    RunWith(h, tls, x1.state, frontend, d.rest + b, p, q);
    CleanWith(h, tls, x1.state, frontend, d.rest + b, p, q);
    CleanRunEnds(h, tls, x1.state, frontend, d.rest + b);
    WithIsOneToOne(Run(h, tls, x1.state, frontend, d.rest).state, x1.state, p, q);
    var e := Run(h, tls, x1.state, frontend, d.rest + b);
    Assoc(x.server, p, e.state.frontend);
    Assoc(x.client, q, e.state.backend);
  }

  lemma PassedOn<S>(st: State<S>, st1: State<S>, frontend: bool, p: ByteString, q: ByteString)
    requires p == (if frontend then st.frontend else []) && q == st.backend
    requires st1 == st.(frontend := if frontend then [] else st.frontend, backend := [])
    ensures With(st1, p, q) == st
  {
    assert p + st1.frontend == st.frontend && q + st1.backend == st.backend;
  }

  lemma WithIsOneToOne<S>(st: State<S>, st': State<S>, p: ByteString, q: ByteString)
    requires With(st, p, q) == With(st', p, q)
    ensures st == st'
  {
    assert (p + st.frontend)[|p|..] == st.frontend && (p + st'.frontend)[|p|..] == st'.frontend;
    assert (q + st.backend)[|q|..] == st.backend && (q + st'.backend)[|q|..] == st'.backend;
    assert st == st'.(frontend := st.frontend, backend := st.backend);
  }

  lemma {:induction false} CleanWith<S>(h: Handler<S>, tls: Tls, st: State<S>, frontend: bool, data: ByteString,
                                        p: ByteString, q: ByteString)
    requires Plain(tls) && !st.mode.Negotiating?
    ensures Clean(h, tls, With(st, p, q), frontend, data) <==> Clean(h, tls, st, frontend, data)
    decreases |data|
  {
    hide Decode, FrameFilled;
    if data != [] {
      var d := Decode(h, tls, st, frontend, data);
      DecodeWith(h, tls, st, frontend, data, p, q);
      NeverNegotiates(h, tls, st, frontend, data);
      Consumes(h, tls, st, frontend, data);
      if d.result.ReadyForNext? { CleanWith(h, tls, d.state, frontend, d.rest, p, q); }
    }
  }

  /**
   * For every chunking of the bytes of one direction: the bytes passed on to either side, the bytes kept and
   * the state of the session are those of all bytes arriving at once.
   */
  lemma {:induction false} ChunksAreOneStream<S>(h: Handler<S>, tls: Tls, x: Filter<S>, frontend: bool,
                                                 chunks: seq<ByteString>)
    requires Plain(tls) && !x.state.mode.Negotiating? &&
      Clean(h, tls, x.state, frontend, Buffered(x, frontend) + Flatten(chunks))
    requires chunks != []
    ensures ReceiveAll(h, tls, x, frontend, chunks) == Receive(h, tls, x, frontend, Flatten(chunks))
    decreases |chunks|
  {
    hide Receive, Clean;
    if |chunks| == 1 {
      assert chunks[1..] == [] && Flatten(chunks) == chunks[0] + [] == chunks[0];
      assert ReceiveAll(h, tls, x, frontend, chunks) ==
        ReceiveAll(h, tls, Receive(h, tls, x, frontend, chunks[0]), frontend, []);
    } else {
      var a, b := chunks[0], Flatten(chunks[1..]);
      ReceiveTwo(h, tls, x, frontend, a, b);
      ChunksAreOneStream(h, tls, Receive(h, tls, x, frontend, a), frontend, chunks[1..]);
    }
  }
}
