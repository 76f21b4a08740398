/** Numbers are exact or refused, and chunked decoding undoes chunked encoding, section 4.1 of RFC 7230. */
module HttpBodies {
  import opened Outcomes
  import opened Bytes
  import opened HttpChars
  import opened HttpMachine
  import opened HttpInvariant
  import opened HttpMarks
  import opened HttpLoops

  // --- numbers ---

  function Digit(ch: byte): nat { if Unhex(ch) < 0 then 0 else Unhex(ch) }

  /** The value of digits behind a number, in a base. */
  function Value(base: nat, v: nat, digits: ByteString): nat
    decreases |digits|
  {
    if digits == [] then v else Value(base, v * base + Digit(digits[0]), digits[1..])
  }

  predicate HexDigits(digits: ByteString) { forall i :: 0 <= i < |digits| ==> Unhex(digits[i]) >= 0 }

  predicate DecimalDigits(digits: ByteString) { forall i :: 0 <= i < |digits| ==> IsNum(digits[i]) }

  /** The digits but the last. */
  function Init(digits: ByteString): ByteString
    requires digits != []
  {
    digits[..|digits| - 1]
  }

  lemma {:induction false} ValueGrows(base: nat, v: nat, digits: ByteString)
    requires base > 0
    ensures Value(base, v, digits) >= v
    decreases |digits|
  {
    if digits != [] {
      assert v * base >= v;
      ValueGrows(base, v * base + Digit(digits[0]), digits[1..]);
    }
  }

  lemma {:induction false} ValueOfInit(base: nat, v: nat, digits: ByteString)
    requires digits != []
    ensures Value(base, v, digits) == Value(base, v, Init(digits)) * base + Digit(digits[|digits| - 1])
    decreases |digits|
  {
    if |digits| == 1 {
      assert digits[1..] == [] && Init(digits) == [];
    } else {
      assert Init(digits)[1..] == Init(digits[1..]) && Init(digits)[0] == digits[0];
      ValueOfInit(base, v * base + Digit(digits[0]), digits[1..]);
    }
  }

  const SIZE_LIMIT: nat := (NO_LENGTH - 16) / 16
  const LENGTH_LIMIT: nat := (NO_LENGTH - 10) / 10

  /** More digits of a chunk size: the exact value, or a refusal once the number so far is too large. */
  lemma {:induction false} MoreSizeDigits(s: Settings, p: Parser, trace: seq<Event>, digits: ByteString)
    requires p.state == AtChunk(ChunkSize) && HexDigits(digits) && p.nread + |digits| <= s.maxHeaderSize
    ensures
      var d := RunFrom(s, Going(p, trace), digits, 0).run;
      if digits == [] || Value(16, p.contentLength, Init(digits)) <= SIZE_LIMIT then
        d == Going(p.(nread := p.nread + |digits|, contentLength := Value(16, p.contentLength, digits)), trace)
      else d.errno == InvalidContentLength
    decreases |digits|
  {
    hide Exec, Report;
    if digits != [] {
      var v := p.contentLength;
      assert digits == [digits[0]] + digits[1..];
      SizeDigitStep(s, p, digits[0], trace);
      if |digits| == 1 {
        assert Init(digits) == [] && digits[1..] == [];
        assert RunFrom(s, StepRun(s, Going(p, trace), digits[0]), [], 0).run == StepRun(s, Going(p, trace), digits[0]);
        FirstThen(s, Going(p, trace), digits[0], []);
      } else {
        assert Init(digits)[1..] == Init(digits[1..]) && Init(digits)[0] == digits[0];
        FirstThen(s, Going(p, trace), digits[0], digits[1..]);
        if v <= SIZE_LIMIT {
          MoreSizeDigits(s, p.(nread := p.nread + 1, contentLength := v * 16 + Unhex(digits[0])), trace, digits[1..]);
        } else {
          ValueGrows(16, v, Init(digits));
        }
      }
    }
  }

  lemma SizeDigitStep(s: Settings, p: Parser, ch: byte, trace: seq<Event>)
    requires p.state == AtChunk(ChunkSize) && Unhex(ch) >= 0 && p.nread < s.maxHeaderSize
    ensures StepRun(s, Going(p, trace), ch) ==
            if p.contentLength > SIZE_LIMIT then Run(p, false, InvalidContentLength, trace)
            else Going(p.(nread := p.nread + 1, contentLength := p.contentLength * 16 + Unhex(ch)), trace)
  {
  }

  /** A run over a byte and others. */
  lemma FirstThen(s: Settings, r: Run, ch: byte, more: ByteString)
    requires !Stopped(r)
    ensures
      var r1 := StepRun(s, r, ch);
      RunFrom(s, r, [ch] + more, 0).run == if !r1.errno.NoError? then r1 else RunFrom(s, r1, more, 0).run
  {
    hide StepRun;
    RunStep(s, r, [ch] + more, 0);
    var r1 := StepRun(s, r, ch);
    if r1.errno.NoError? {
      RunShift(s, r1, [ch], more, 0);
    }
  }

  /** A run over some bytes and others. */
  lemma SomeThen(s: Settings, r: Run, a: ByteString, more: ByteString)
    requires !Stopped(RunFrom(s, r, a, 0).run)
    ensures RunFrom(s, r, a + more, 0).run == RunFrom(s, RunFrom(s, r, a, 0).run, more, 0).run
  {
    RunAppend(s, r, a, more, 0);
  }

  /** A chunk size: exactly the value of its digits, unless the digits but the last are too large already. */
  lemma ChunkSizeIsExact(s: Settings, p: Parser, trace: seq<Event>, digits: ByteString)
    requires p.state == AtChunk(ChunkSizeStart) && digits != [] && HexDigits(digits) &&
      p.nread + |digits| <= s.maxHeaderSize
    ensures
      var d := RunFrom(s, Going(p, trace), digits, 0).run;
      if Value(16, 0, Init(digits)) <= SIZE_LIMIT then
        d == Going(p.(state := AtChunk(ChunkSize), nread := p.nread + |digits|, contentLength := Value(16, 0, digits)),
          trace)
      else d.errno == InvalidContentLength
  {
    hide RunFrom;
    var v := Unhex(digits[0]);
    var p1 := p.(state := AtChunk(ChunkSize), nread := p.nread + 1, contentLength := v);
    assert digits == [digits[0]] + digits[1..];
    FirstSizeDigit(s, p, digits[0], trace);
    FirstThen(s, Going(p, trace), digits[0], digits[1..]);
    MoreSizeDigits(s, p1, trace, digits[1..]);
    if |digits| == 1 {
      assert Init(digits) == [];
    } else {
      assert Init(digits)[1..] == Init(digits[1..]) && Init(digits)[0] == digits[0];
    }
  }

  lemma FirstSizeDigit(s: Settings, p: Parser, ch: byte, trace: seq<Event>)
    requires p.state == AtChunk(ChunkSizeStart) && Unhex(ch) >= 0 && p.nread < s.maxHeaderSize
    ensures StepRun(s, Going(p, trace), ch) ==
      Going(p.(state := AtChunk(ChunkSize), nread := p.nread + 1, contentLength := Unhex(ch)), trace)
  {
  }

  /** More digits of a Content-Length: the exact value, or a refusal once the number so far is too large. */
  lemma {:induction false} MoreLengthDigits(s: Settings, p: Parser, trace: seq<Event>, digits: ByteString)
    requires InValue(p) && p.headerState.ContentLengthNum? && DecimalDigits(digits) &&
      p.nread + |digits| <= s.maxHeaderSize
    ensures
      var d := RunFrom(s, Going(p, trace), digits, 0).run;
      if digits == [] || Value(10, p.contentLength, Init(digits)) <= LENGTH_LIMIT then
        d == Going(p.(nread := p.nread + |digits|, contentLength := Value(10, p.contentLength, digits)),
          Pending(trace, HeaderText, digits))
      else d.errno == InvalidContentLength
    decreases |digits|
  {
    hide Exec, Report, Add;
    if digits != [] {
      var v := p.contentLength;
      assert digits == [digits[0]] + digits[1..];
      LengthDigitStep(s, p, digits[0], trace);
      FirstThen(s, Going(p, trace), digits[0], digits[1..]);
      if v <= LENGTH_LIMIT {
        var t := Add(trace, Data(HeaderText, [digits[0]]));
        MoreLengthDigits(s, p.(nread := p.nread + 1, contentLength := v * 10 + Unhex(digits[0])), t, digits[1..]);
        AddTwice(trace, HeaderText, [digits[0]], digits[1..]);
      }
      if |digits| == 1 {
        assert Init(digits) == [] && digits[1..] == [] && digits == [digits[0]];
      } else {
        assert Init(digits)[1..] == Init(digits[1..]) && Init(digits)[0] == digits[0];
        if v > LENGTH_LIMIT { ValueGrows(10, v, Init(digits)); }
      }
    }
  }

  lemma LengthDigitStep(s: Settings, p: Parser, ch: byte, trace: seq<Event>)
    requires InValue(p) && p.headerState.ContentLengthNum? && IsNum(ch) && p.nread < s.maxHeaderSize
    ensures StepRun(s, Going(p, trace), ch) ==
            if p.contentLength > LENGTH_LIMIT then Run(p, false, InvalidContentLength, trace)
            else Going(p.(nread := p.nread + 1, contentLength := p.contentLength * 10 + Unhex(ch)),
              Add(trace, Data(HeaderText, [ch])))
  {
    hide Add;
    assert [Keep(HeaderText)][1..] == [];
  }

  /** A Content-Length: exactly the value of its digits, unless the digits but the last are too large already. */
  lemma ContentLengthIsExact(s: Settings, p: Parser, trace: seq<Event>, digits: ByteString)
    requires p.state == AtHeader(HeaderValueDiscardWs) && p.headerState.ContentLength? && !p.flags.contentLength
    requires digits != [] && DecimalDigits(digits) && p.nread + |digits| <= s.maxHeaderSize
    ensures
      var d := RunFrom(s, Going(p, trace), digits, 0).run;
      if Value(10, 0, Init(digits)) <= LENGTH_LIMIT then
        && d.errno.NoError? && d.parser.contentLength == Value(10, 0, digits) && d.parser.flags.contentLength &&
          InValue(d.parser)
        && d.trace == Add(trace, Data(HeaderText, digits))
      else d.errno == InvalidContentLength
  {
    hide RunFrom, Add;
    assert digits == [digits[0]] + digits[1..];
    FirstLengthDigit(s, p, digits[0], trace);
    FirstThen(s, Going(p, trace), digits[0], digits[1..]);
    var p1 := StepRun(s, Going(p, trace), digits[0]).parser;
    var t := Add(trace, Data(HeaderText, [digits[0]]));
    MoreLengthDigits(s, p1, t, digits[1..]);
    PendingAfter(trace, digits);
    if |digits| == 1 {
      assert Init(digits) == [] && digits[1..] == [];
    } else {
      assert Init(digits)[1..] == Init(digits[1..]) && Init(digits)[0] == digits[0];
    }
  }

  lemma PendingAfter(trace: seq<Event>, digits: ByteString)
    requires digits != []
    ensures Pending(Add(trace, Data(HeaderText, [digits[0]])), HeaderText, digits[1..]) ==
      Add(trace, Data(HeaderText, digits))
  {
    hide Add;
    assert digits == [digits[0]] + digits[1..];
    if |digits| == 1 { assert digits == [digits[0]]; } else { AddTwice(trace, HeaderText, [digits[0]], digits[1..]); }
  }

  lemma FirstLengthDigit(s: Settings, p: Parser, ch: byte, trace: seq<Event>)
    requires p.state == AtHeader(HeaderValueDiscardWs) && p.headerState.ContentLength? && !p.flags.contentLength
    requires IsNum(ch) && p.nread < s.maxHeaderSize
    ensures
      var d := StepRun(s, Going(p, trace), ch);
      && d == Going(d.parser, Add(trace, Data(HeaderText, [ch])))
      && InValue(d.parser) && d.parser.headerState.ContentLengthNum? && d.parser.flags.contentLength
      && d.parser.contentLength == Unhex(ch) && d.parser.nread == p.nread + 1
  {
    hide Add;
    assert [Keep(HeaderText)][1..] == [];
  }

  // --- chunks ---

  /** A chunk: its size as it is written, and its data. */
  datatype Chunk = Chunk(size: ByteString, data: ByteString)

  const CRLF: ByteString := [CR, LF]

  /** The size is written in hexadecimal digits of either case, leading zeros allowed; the data is not empty. */
  predicate WellSized(s: Settings, c: Chunk) {
    && c.data != [] && |c.data| <= NO_LENGTH - 16
    && c.size != [] && HexDigits(c.size) && Value(16, 0, c.size) == |c.data| && |c.size| + 2 <= s.maxHeaderSize
  }

  /** The size of a chunk in hexadecimal digits, without leading zeros. */
  function SizeDigits(n: nat): ByteString { if n < 16 then [HexDigit(n)] else SizeDigits(n / 16) + [HexDigit(n % 16)] }

  lemma {:induction false} SizeDigitsValue(n: nat)
    ensures SizeDigits(n) != [] && HexDigits(SizeDigits(n)) && Value(16, 0, SizeDigits(n)) == n
  {
    var digits := SizeDigits(n);
    ValueOfInit(16, 0, digits);
    if n < 16 {
      assert Init(digits) == [];
    } else {
      SizeDigitsValue(n / 16);
      assert Init(digits) == SizeDigits(n / 16);
    }
  }

  /** Any data can be sent as a chunk. */
  lemma DataAsChunk(s: Settings, data: ByteString)
    requires data != [] && |data| <= NO_LENGTH - 16 && |SizeDigits(|data|)| + 2 <= s.maxHeaderSize
    ensures WellSized(s, Chunk(SizeDigits(|data|), data))
  {
    SizeDigitsValue(|data|);
  }

  function Encode(c: Chunk): ByteString { c.size + (CRLF + (c.data + CRLF)) }

  function EncodeAll(chunks: seq<Chunk>): ByteString {
    if chunks == [] then [] else Encode(chunks[0]) + EncodeAll(chunks[1..])
  }

  function DataOf(chunks: seq<Chunk>): ByteString { if chunks == [] then [] else chunks[0].data + DataOf(chunks[1..]) }

  /** All body bytes a trace reports. */
  function BodyOf(trace: seq<Event>): ByteString {
    if trace == [] then []
    else BodyOf(trace[..|trace| - 1]) + match trace[|trace| - 1] case Data(Body, bytes) => bytes case _ => []
  }

  lemma BodyOfAdd(trace: seq<Event>, e: Event)
    ensures BodyOf(Add(trace, e)) == BodyOf(trace) + match e case Data(Body, bytes) => bytes case _ => []
  {
    var t := Add(trace, e);
    if e.Data? && trace != [] && trace[|trace| - 1].Data? && trace[|trace| - 1].field == e.field {
      assert t[..|t| - 1] == trace[..|trace| - 1];
    } else {
      assert t[..|t| - 1] == trace;
    }
  }

  /** The callbacks of a chunk. */
  function Reported(trace: seq<Event>, c: Chunk): seq<Event> {
    Add(Add(Add(trace, Notify(ChunkHeader)), Data(Body, c.data)), Notify(ChunkComplete))
  }

  /** The parser is about to read a chunk, and may read one. */
  predicate AtAChunk(p: Parser) { p.state == AtChunk(ChunkSizeStart) && p.nread == 0 }

  lemma SizeLine(s: Settings, p: Parser, trace: seq<Event>)
    requires p.state == AtChunk(ChunkSize) && p.nread + 2 <= s.maxHeaderSize
    ensures RunFrom(s, Going(p, trace), CRLF, 0).run ==
            Going(if p.contentLength == 0 then p.(nread := 0, flags := p.flags.(trailing := true), state :=
              AtHeader(HeaderFieldStart))
                  else p.(nread := 0, state := AtChunk(ChunkData)), Add(trace, Notify(ChunkHeader)))
  {
    hide Add;
    var p1 := p.(nread := p.nread + 1, state := AtChunk(ChunkSizeAlmostDone));
    assert CRLF == [CR] + [LF] && [LF] == [LF] + [];
    FirstThen(s, Going(p, trace), CR, [LF]);
    FirstThen(s, Going(p1, trace), LF, []);
    assert [Send(ChunkHeader)][1..] == [];
  }

  lemma ChunkEnd(s: Settings, p: Parser, trace: seq<Event>)
    requires p.state == AtChunk(ChunkDataAlmostDone)
    ensures RunFrom(s, Going(p, trace), CRLF, 0).run ==
            Going(p.(nread := 0, state := AtChunk(ChunkSizeStart)), Add(trace, Notify(ChunkComplete)))
  {
    hide Add;
    var p1 := p.(state := AtChunk(ChunkDataDone));
    assert CRLF == [CR] + [LF] && [LF] == [LF] + [];
    FirstThen(s, Going(p, trace), CR, [LF]);
    FirstThen(s, Going(p1, trace), LF, []);
    assert [Send(ChunkComplete)][1..] == [] && [Flush(Body)][1..] == [];
  }

  lemma ChunkBytes(s: Settings, p: Parser, trace: seq<Event>, data: ByteString)
    requires p.state == AtChunk(ChunkData) && p.contentLength == |data| > 0
    ensures RunFrom(s, Going(p, trace), data, 0).run ==
            Going(p.(contentLength := 0, state := AtChunk(ChunkDataAlmostDone)), Add(trace, Data(Body, data)))
  {
    hide Add;
    BodyBytes(s, p, trace, data, 0, |data|);
    assert data[0..|data|] == data;
  }

  /** A chunk is decoded to its data. */
  lemma OneChunk(s: Settings, p: Parser, trace: seq<Event>, c: Chunk)
    requires AtAChunk(p) && WellSized(s, c)
    ensures RunFrom(s, Going(p, trace), Encode(c), 0).run == Going(p.(contentLength := 0), Reported(trace, c))
  {
    hide RunFrom, Add, Value;
    ValueOfInit(16, 0, c.size);
    ChunkSizeIsExact(s, p, trace, c.size);
    var p1 := p.(state := AtChunk(ChunkSize), nread := |c.size|, contentLength := |c.data|);
    SomeThen(s, Going(p, trace), c.size, CRLF + (c.data + CRLF));
    SizeLine(s, p1, trace);
    var p2, t2 := p1.(nread := 0, state := AtChunk(ChunkData)), Add(trace, Notify(ChunkHeader));
    SomeThen(s, Going(p1, trace), CRLF, c.data + CRLF);
    ChunkBytes(s, p2, t2, c.data);
    var p3, t3 := p2.(contentLength := 0, state := AtChunk(ChunkDataAlmostDone)), Add(t2, Data(Body, c.data));
    SomeThen(s, Going(p2, t2), c.data, CRLF);
    ChunkEnd(s, p3, t3);
  }

  /** Chunks are decoded to their data, one after the other. */
  lemma {:induction false} AllChunks(s: Settings, p: Parser, trace: seq<Event>, chunks: seq<Chunk>)
    requires AtAChunk(p) && forall c :: c in chunks ==> WellSized(s, c)
    ensures
      var d := RunFrom(s, Going(p, trace), EncodeAll(chunks), 0).run;
      && d == Going(p.(contentLength := d.parser.contentLength), d.trace)
      && BodyOf(d.trace) == BodyOf(trace) + DataOf(chunks)
    decreases |chunks|
  {
    hide RunFrom, Add, Encode, WellSized, BodyOf;
    if chunks == [] {
      NothingToRun(s, Going(p, trace));
    } else {
      var c := chunks[0];
      assert c in chunks;
      var p1, t1 := p.(contentLength := 0), Reported(trace, c);
      OneChunk(s, p, trace, c);
      SomeThen(s, Going(p, trace), Encode(c), EncodeAll(chunks[1..]));
      AllChunks(s, p1, t1, chunks[1..]);
      BodyOfAdd(trace, Notify(ChunkHeader));
      BodyOfAdd(Add(trace, Notify(ChunkHeader)), Data(Body, c.data));
      BodyOfAdd(Add(Add(trace, Notify(ChunkHeader)), Data(Body, c.data)), Notify(ChunkComplete));
      Together(BodyOf(trace), c.data, DataOf(chunks[1..]));
    }
  }

  lemma NothingToRun(s: Settings, r: Run)
    ensures RunFrom(s, r, [], 0).run == r
  {
  }

  lemma Together(a: ByteString, b: ByteString, c: ByteString)
    ensures (a + [] + b + []) + c == a + (b + c)
  {
  }

  /** The last chunk, without trailers, and the end of the body. */
  lemma LastChunk(s: Settings, p: Parser, trace: seq<Event>, zeros: ByteString)
    requires AtAChunk(p) && zeros != [] && HexDigits(zeros) && Value(16, 0, zeros) == 0 &&
      |zeros| + 2 <= s.maxHeaderSize
    ensures
      var d := RunFrom(s, Going(p, trace), zeros + (CRLF + CRLF), 0).run;
      && d.errno.NoError? && d.exited == p.upgrade && d.parser.state.AtStart?
      && d.trace == Add(Add(Add(trace, Notify(ChunkHeader)), Notify(ChunkComplete)), Notify(MessageComplete))
  {
    hide RunFrom, Add, Value, ShouldKeepAlive;
    ValueOfInit(16, 0, zeros);
    ChunkSizeIsExact(s, p, trace, zeros);
    var p1 := p.(state := AtChunk(ChunkSize), nread := |zeros|, contentLength := 0);
    SomeThen(s, Going(p, trace), zeros, CRLF + CRLF);
    SizeLine(s, p1, trace);
    SomeThen(s, Going(p1, trace), CRLF, CRLF);
    EndOfTrailers(s, p1.(nread := 0, flags := p1.flags.(trailing := true), state := AtHeader(HeaderFieldStart)),
      Add(trace, Notify(ChunkHeader)));
  }

  lemma EndOfTrailers(s: Settings, p: Parser, trace: seq<Event>)
    requires p.state == AtHeader(HeaderFieldStart) && p.flags.trailing && p.nread + 2 <= s.maxHeaderSize
    ensures
      var d := RunFrom(s, Going(p, trace), CRLF, 0).run;
      && d.errno.NoError? && d.exited == p.upgrade && d.parser.state.AtStart?
      && d.trace == Add(Add(trace, Notify(ChunkComplete)), Notify(MessageComplete))
  {
    hide RunFrom, Add, ShouldKeepAlive;
    var p1 := p.(nread := p.nread + 1, state := AtHeader(HeadersAlmostDone));
    assert CRLF == [CR] + [LF] && [LF] == [LF] + [];
    FirstThen(s, Going(p, trace), CR, [LF]);
    FirstThen(s, Going(p1, trace), LF, []);
    NothingToRun(s, StepRun(s, Going(p1, trace), LF));
    TrailerActs(trace);
  }

  lemma TrailerActs(trace: seq<Event>)
    ensures Report(trace, LF, [Send(ChunkComplete)] + [Send(MessageComplete)]) ==
      Add(Add(trace, Notify(ChunkComplete)), Notify(MessageComplete))
  {
    hide Add;
    var acts := [Send(ChunkComplete)] + [Send(MessageComplete)];
    assert acts[0] == Send(ChunkComplete) && acts[1..] == [Send(MessageComplete)] && [Send(MessageComplete)][1..] == [];
  }

  /**
   * Chunked decoding undoes chunked encoding: for every list of chunks, the body reported is their data, the
   * message is complete, and nothing is left to be read.
   */
  lemma ChunkedBodyIsDecoded(s: Settings, p: Parser, trace: seq<Event>, chunks: seq<Chunk>, zeros: ByteString)
    requires AtAChunk(p) && forall c :: c in chunks ==> WellSized(s, c)
    requires zeros != [] && HexDigits(zeros) && Value(16, 0, zeros) == 0 && |zeros| + 2 <= s.maxHeaderSize
    ensures
      var d := RunFrom(s, Going(p, trace), EncodeAll(chunks) + (zeros + (CRLF + CRLF)), 0).run;
      && d.errno.NoError? && d.exited == p.upgrade && d.parser.state.AtStart?
      && BodyOf(d.trace) == BodyOf(trace) + DataOf(chunks)
      && d.trace != [] && d.trace[|d.trace| - 1] == Notify(MessageComplete)
  {
    hide RunFrom, Value, EncodeAll, BodyOf;
    AllChunks(s, p, trace, chunks);
    var d := RunFrom(s, Going(p, trace), EncodeAll(chunks), 0).run;
    SomeThen(s, Going(p, trace), EncodeAll(chunks), zeros + (CRLF + CRLF));
    LastChunk(s, d.parser, d.trace, zeros);
    BodyOfAdd(d.trace, Notify(ChunkHeader));
    BodyOfAdd(Add(d.trace, Notify(ChunkHeader)), Notify(ChunkComplete));
    BodyOfAdd(Add(Add(d.trace, Notify(ChunkHeader)), Notify(ChunkComplete)), Notify(MessageComplete));
    assert BodyOf(d.trace) + [] + [] + [] == BodyOf(d.trace);
  }
}
