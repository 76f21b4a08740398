/** The decoder and the filter as objects that update their buffers. */
module PostgresFilter {
  import opened Outcomes
  import opened Bytes
  import opened Codec
  import opened MessageTable
  import opened Decoding
  import opened FilterStreams

  /** A byte buffer. */
  class Buffer {
    var data: ByteString

    constructor ()
      ensures data == []
    {
      data := [];
    }

    method Add(bytes: ByteString)
      modifies this
      ensures data == old(data) + bytes
    {
      data := data + bytes;
    }

    /** Takes bytes from the front; all of them if there are fewer. */
    method Move(n: nat) returns (bytes: ByteString)
      modifies this
      ensures bytes == Take(old(data), n) && data == Drop(old(data), n)
    {
      bytes := Take(data, n);
      data := Drop(data, n);
    }

    method Drain()
      modifies this
      ensures data == []
    {
      data := [];
    }
  }

  class DecoderImpl<S> {
    const h: Handler<S>
    const tls: Tls
    var mode: Mode
    var command: byte
    var session: S
    var frontend: ByteString
    var backend: ByteString
    var injected: ByteString
    var stored: ByteString

    ghost function Contents(): State<S>
      reads this
    {
      State(mode, command, session, frontend, backend, injected, stored)
    }

    constructor (h: Handler<S>, tls: Tls, session: S)
      ensures this.h == h && this.tls == tls
      ensures Contents() == State(Init, DASH, session, [], [], [], [])
    {
      this.h, this.tls, this.session := h, tls, session;
      mode, command, frontend, backend, injected, stored := Init, DASH, [], [], [], [];
    }

    method OnData(parse: Buffer, fromClient: bool) returns (result: Decoding.Result)
      modifies this, parse
      ensures Step(Contents(), parse.data, result) == Decode(h, tls, old(Contents()), fromClient, old(parse.data))
    {
      hide DecodeInit, DecodeInSync, DecodeNegotiating;
      match mode
      case Init => result := OnDataInit(parse);
      case InSync => result := OnDataInSync(parse, fromClient);
      case Negotiating => result := OnDataInNegotiating(parse, fromClient);
      case _ =>
        parse.Drain();
        result := ReadyForNext;
    }

    /** The message does not conform to its format. */
    method LoseSynchrony(parse: Buffer) returns (result: Decoding.Result)
      modifies this`mode, parse
      ensures Step(Contents(), parse.data, result) == LoseSync(old(Contents()))
    {
      parse.Drain();
      mode := OutOfSync;
      result := ReadyForNext;
    }

    method OnDataInit(parse: Buffer) returns (result: Decoding.Result)
      requires mode.Init?
      modifies this, parse
      ensures Step(Contents(), parse.data, result) == DecodeInit(h, tls, old(Contents()), old(parse.data))
    {
      hide Accept, Validate, Startup;
      var data := parse.data;
      if |data| < 4 { return Decoding.Result.NeedMoreData; }
      var len := Word32(data[..4]);
      if len > MAX_STARTUP_PACKET_LENGTH {
        result := LoseSynchrony(parse);
        return;
      }
      var v := Validate(Startup().Body(), data[4..], 0, BodyLength(len));
      if v.NeedMoreData? { return Decoding.Result.NeedMoreData; }
      if v.Failed? {
        result := LoseSynchrony(parse);
        return;
      }
      StartupHasCode(data[4..], BodyLength(len));
      var code := Word32(data[4..8]);
      var next := ReadyForNext;
      if code >= FIRST_REQUEST_CODE {
        if code == SSL_REQUEST && tls.terminate {
          backend := backend + ['S' as int];
          next := Stopped;
        } else {
          mode := Encrypted;
        }
      } else if tls.upstream {
        stored := stored + data;
        injected := injected + Put32(8) + Put32(SSL_REQUEST);
        mode := Negotiating;
        next := Stopped;
      } else {
        mode := InSync;
      }
      result := AcceptMessage(parse, true, Startup(), v, 4, BodyLength(len), next);
    }

    method OnDataInSync(parse: Buffer, fromClient: bool) returns (result: Decoding.Result)
      modifies this, parse
      ensures Step(Contents(), parse.data, result) == DecodeInSync(h, old(Contents()), fromClient, old(parse.data))
    {
      hide Accept, Validate, Lookup;
      var data := parse.data;
      if |data| < 5 { return Decoding.Result.NeedMoreData; }
      command := data[0];
      var e, length := Lookup(fromClient, command), BodyLength(Word32(data[1..5]));
      var v := Validate(e.Body(), data[5..], 0, length);
      if v.NeedMoreData? { return Decoding.Result.NeedMoreData; }
      if v.Failed? {
        result := LoseSynchrony(parse);
        return;
      }
      result := AcceptMessage(parse, fromClient, e, v, 5, length, ReadyForNext);
    }

    method OnDataInNegotiating(parse: Buffer, fromClient: bool) returns (result: Decoding.Result)
      modifies this, parse
      ensures Step(Contents(), parse.data, result) ==
        DecodeNegotiating(tls, old(Contents()), fromClient, old(parse.data))
    {
      if fromClient {
        result := LoseSynchrony(parse);
        return;
      }
      var upstreamSsl := false;
      mode := Init;
      if |parse.data| == 1 {
        var c := parse.data[0];
        if c == 'S' as int { upstreamSsl := true; } else if c != 'E' as int { mode := OutOfSync; }
      } else {
        mode := OutOfSync;
      }
      parse.Drain();
      if upstreamSsl && tls.transport {
        injected := injected + stored;
        stored := [];
        mode := InSync;
      }
      result := Stopped;
    }

    /** Drains the header, takes the body and processes it. */
    method AcceptMessage(parse: Buffer, fromClient: bool, e: Entry, v: Verdict, header: nat, length: nat,
                         next: Decoding.Result)
      returns (result: Decoding.Result)
      requires v.Valid? && header <= |parse.data|
      modifies this, parse
      ensures Step(Contents(), parse.data, result) ==
              Accept(h, old(Contents()), fromClient, e, v, length, old(parse.data)[header..], next)
    {
      hide Read, Deliver;
      var _ := parse.Move(header);
      var body := parse.Move(length);
      var r := Read(e.Body(), v.shape, body, 0, |body|);
      if r.Misread? {
        mode := Broken;
        return Underflow;
      }
      ProcessMessageBody(fromClient, e, r.value, body);
      result := next;
    }

    method ProcessMessageBody(fromClient: bool, e: Entry, x: Value, body: ByteString)
      modifies this
      ensures Contents() == Deliver(h, old(Contents()), fromClient, e, x, body)
    {
      hide WriteFrame, PassOn;
      var done := Act(h, e, session, fromClient, command, x);
      session := done.session;
      backend := backend + done.emitted;
      if done.kept.None? { return; }
      var bytes := if e.identifier.Some? then
        WriteFrame(e.identifier.value, e.Body(), done.kept.value) else PassOn(command, body);
      if fromClient { frontend := frontend + bytes; } else { backend := backend + bytes; }
    }
  }

  class PostgresFilter<S> {
    const decoder: DecoderImpl<S>
    const front: Buffer
    const back: Buffer
    var server: ByteString
    var client: ByteString

    ghost predicate Valid() { front != back }

    ghost function Contents(): Filter<S>
      reads this, decoder, front, back
    {
      Filter(decoder.Contents(), front.data, back.data, server, client)
    }

    constructor (h: Handler<S>, tls: Tls, session: S)
      ensures Valid() && fresh(decoder) && fresh(front) && fresh(back) && decoder.h == h && decoder.tls == tls
      ensures Contents() == Filter(State(Init, DASH, session, [], [], [], []), [], [], [], [])
    {
      decoder := new DecoderImpl(h, tls, session);
      front := new Buffer();
      back := new Buffer();
      server, client := [], [];
    }

    /** Keeps decoding until the buffer is empty or the decoder does not go on. */
    method DoDecode(parse: Buffer, fromClient: bool) returns (result: Decoding.Result)
      modifies decoder, parse
      ensures Step(decoder.Contents(), parse.data, result) ==
        Run(decoder.h, decoder.tls, old(decoder.Contents()), fromClient, old(parse.data))
    {
      hide Decode;
      while parse.data != []
        invariant Run(decoder.h, decoder.tls, decoder.Contents(), fromClient, parse.data) ==
                  Run(decoder.h, decoder.tls, old(decoder.Contents()), fromClient, old(parse.data))
        decreases |parse.data|
      {
        Consumes(decoder.h, decoder.tls, decoder.Contents(), fromClient, parse.data);
        result := decoder.OnData(parse, fromClient);
        if !result.ReadyForNext? { return; }
      }
      result := ReadyForNext;
    }

    method OnData(data: ByteString)
      requires Valid()
      modifies this, decoder, front
      ensures Contents() == Receive(decoder.h, decoder.tls, old(Contents()), true, data)
    {
      hide Run;
      front.Add(data);
      var result := DoDecode(front, true);
      match result
      case Stopped => decoder.frontend := [];
      case Underflow =>
      case _ =>
        client := client + decoder.backend;
        decoder.backend := [];
        server := server + decoder.frontend;
        decoder.frontend := [];
    }

    method OnWrite(data: ByteString)
      requires Valid()
      modifies this, decoder, back
      ensures Contents() == Receive(decoder.h, decoder.tls, old(Contents()), false, data)
    {
      hide Run;
      back.Add(data);
      var result := DoDecode(back, false);
      match result
      case Stopped => decoder.backend := [];
      case Underflow =>
      case _ =>
        client := client + decoder.backend;
        decoder.backend := [];
    }
  }
}
