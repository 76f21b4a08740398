/** The inner loops of the buffered parser, as runs of the byte-at-a-time machine. */
module HttpLoops {
  import opened Outcomes
  import opened Bytes
  import opened HttpChars
  import opened HttpMachine
  import opened HttpInvariant
  import opened HttpMarks

  /** The headers of the run fit the maximum. */
  predicate Fits(whole: Ran) { !whole.run.errno.HeaderOverflow? }

  function Going(p: Parser, trace: seq<Event>): Run { Run(p, false, NoError, trace) }

  /** A run that goes on, by its next byte. */
  lemma RunStep(s: Settings, r: Run, data: ByteString, at: nat)
    requires at < |data| && !Stopped(r)
    ensures
      var r1 := StepRun(s, r, data[at]);
      RunFrom(s, r, data, at) == if !r1.errno.NoError? then Ran(r1, at) else RunFrom(s, r1, data, at + 1)
  {
  }

  /** Two runs of the whole: first some bytes, then the others. */
  lemma {:induction false} RunAppend(s: Settings, r: Run, a: ByteString, b: ByteString, at: nat)
    requires at <= |a|
    ensures
      var first := RunFrom(s, r, a, at);
      && (Stopped(first.run) ==> RunFrom(s, r, a + b, at) == first)
      && (!Stopped(first.run) ==> first.at == |a|)
      && (!Stopped(first.run) ==>
        RunFrom(s, r, a + b, at) == Ran(RunFrom(s, first.run, b, 0).run, |a| + RunFrom(s, first.run, b, 0).at))
    decreases |a| - at
  {
    hide StepRun;
    if at == |a| || Stopped(r) {
      if !Stopped(r) { RunShift(s, r, a, b, 0); }
    } else {
      assert (a + b)[at] == a[at];
      var r1 := StepRun(s, r, a[at]);
      if r1.errno.NoError? { RunAppend(s, r1, a, b, at + 1); }
    }
  }

  lemma {:induction false} RunShift(s: Settings, r: Run, a: ByteString, b: ByteString, at: nat)
    requires at <= |b|
    ensures RunFrom(s, r, a + b, |a| + at) == Ran(RunFrom(s, r, b, at).run, |a| + RunFrom(s, r, b, at).at)
    decreases |b| - at
  {
    hide StepRun;
    if at < |b| && !Stopped(r) {
      assert (a + b)[|a| + at] == b[at];
      var r1 := StepRun(s, r, b[at]);
      if r1.errno.NoError? { RunShift(s, r1, a, b, at + 1); }
    }
  }

  // --- header names ---

  /** The parser of the machine, which counts each byte where the loop counts them afterwards. */
  function Back(p: Parser, n: nat): Parser
    requires p.nread >= 1
  {
    p.(nread := p.nread + n - 1)
  }

  lemma NameStepCount(p: Parser, c: byte, n: nat)
    ensures NameStep(p.(nread := n), c) == NameStep(p, c).(nread := n)
  {
    hide WordState;
  }

  /** One byte of a header name. */
  lemma NameByte(s: Settings, p: Parser, trace: seq<Event>, data: ByteString, at: nat, whole: Ran)
    requires InName(p) && Valid(s, p) && at < |data| && Token(data[at]) != 0
    requires RunFrom(s, Going(p, trace), data, at) == whole && Fits(whole)
    ensures
      var p1 := NameStep(p, Token(data[at])).(nread := p.nread + 1);
      && p1.nread <= s.maxHeaderSize && InName(p1) && Valid(s, p1)
      && RunFrom(s, Going(p1, Add(trace, Data(HeaderName, [data[at]]))), data, at + 1) == whole
  {
    hide RunFrom, NameStep, Valid, Token, Add;
    RunStep(s, Going(p, trace), data, at);
    ConsumeKeeps(s, p, data[at]);
    NameStepCount(p, Token(data[at]), p.nread + 1);
    NameStepStays(p.(nread := p.nread + 1), Token(data[at]));
    NameKept(s, p, data[at], trace);
  }

  lemma NameKept(s: Settings, p: Parser, ch: byte, trace: seq<Event>)
    requires InName(p) && Token(ch) != 0 && p.nread < s.maxHeaderSize
    ensures Consume(s, p, ch) == Next(NameStep(p.(nread := p.nread + 1), Token(ch)), [Keep(HeaderName)])
    ensures Report(trace, ch, [Keep(HeaderName)]) == Add(trace, Data(HeaderName, [ch]))
  {
    hide NameStep, Token, Add;
    assert [Keep(HeaderName)][1..] == [];
  }

  // --- header values ---

  lemma ValueStepCount(p: Parser, ch: byte, n: nat)
    ensures ValueStep(p, ch).None? ==> ValueStep(p.(nread := n), ch).None?
    ensures ValueStep(p, ch).Some? ==> ValueStep(p.(nread := n), ch) == Some(ValueStep(p, ch).value.(nread := n))
  {
    hide Token, Lower, WordState;
  }

  /** A byte that is neither an end of line nor forbidden. */
  predicate Plain(s: Settings, ch: byte) { ch != CR && ch != LF && (s.lenient || IsHeaderChar(ch)) }

  lemma ValueKept(s: Settings, p: Parser, ch: byte, trace: seq<Event>)
    requires InValue(p) && Plain(s, ch) && p.nread < s.maxHeaderSize
    ensures
      var q := ValueStep(p.(nread := p.nread + 1), ch);
      Consume(s, p, ch) == if q.Some? then Next(q.value, [Keep(HeaderText)]) else Fail(InvalidContentLength)
    ensures Report(trace, ch, [Keep(HeaderText)]) == Add(trace, Data(HeaderText, [ch])) &&
      Report(trace, ch, []) == trace
  {
    hide ValueStep, Add;
    assert [Keep(HeaderText)][1..] == [];
  }

  /** One byte of a header value. */
  lemma ValueByte(s: Settings, p: Parser, trace: seq<Event>, data: ByteString, at: nat, whole: Ran)
    requires InValue(p) && Valid(s, p) && at < |data| && Plain(s, data[at])
    requires RunFrom(s, Going(p, trace), data, at) == whole && Fits(whole)
    ensures p.nread < s.maxHeaderSize
    ensures ValueStep(p, data[at]).None? ==>
      whole.at == at && whole.run.errno == InvalidContentLength && whole.run.trace == trace && !whole.run.exited
    ensures ValueStep(p, data[at]).Some? ==>
              var p1 := ValueStep(p, data[at]).value.(nread := p.nread + 1);
              && InValue(p1) && Valid(s, p1)
              && RunFrom(s, Going(p1, Add(trace, Data(HeaderText, [data[at]]))), data, at + 1) == whole
  {
    hide RunFrom, ValueStep, Valid, Add, Plain;
    RunStep(s, Going(p, trace), data, at);
    ConsumeKeeps(s, p, data[at]);
    ValueStepCount(p, data[at], p.nread + 1);
    ValueStepStays(p, data[at]);
    ValueKept(s, p, data[at], trace);
  }

  // --- bodies ---

  /** The state reads a body of known length. */
  predicate ReadsBody(s: State) { s == AtBody(BodyIdentity) || s == AtChunk(ChunkData) }

  lemma BodyReadOne(p: Parser, n: nat)
    requires ReadsBody(p.state) && 0 < n < p.contentLength
    ensures BodyRead(BodyRead(p, 1), n) == BodyRead(p, n + 1) && BodyRead(p, 1).state == p.state
  {
  }

  lemma BodyKept(s: Settings, p: Parser, ch: byte, trace: seq<Event>)
    requires ReadsBody(p.state) && (p.contentLength > 1 || p.state.AtChunk?)
    ensures Consume(s, p, ch) == Next(BodyRead(p, 1), [Keep(Body)])
    ensures Report(trace, ch, [Keep(Body)]) == Add(trace, Data(Body, [ch]))
  {
    hide Add;
    assert [Keep(Body)][1..] == [];
  }

  /** Some bytes of a body; not the last one of a body that ends the message. */
  lemma {:induction false} BodyBytes(s: Settings, p: Parser, trace: seq<Event>, data: ByteString, at: nat, n: nat)
    requires ReadsBody(p.state) && 0 < n <= p.contentLength && at + n <= |data| &&
      (n < p.contentLength || p.state.AtChunk?)
    ensures RunFrom(s, Going(p, trace), data, at) ==
      RunFrom(s, Going(BodyRead(p, n), Add(trace, Data(Body, data[at..at + n]))), data, at + n)
    decreases n
  {
    hide RunFrom, Consume, BodyRead, Add;
    RunStep(s, Going(p, trace), data, at);
    BodyKept(s, p, data[at], trace);
    assert data[at..at + 1] == [data[at]];
    if n > 1 {
      BodyReadOne(p, n - 1);
      BodyLeft(p);
      BodyBytes(s, BodyRead(p, 1), Add(trace, Data(Body, [data[at]])), data, at + 1, n - 1);
      assert data[at..at + n] == [data[at]] + data[at + 1..at + n];
      AddTwice(trace, Body, [data[at]], data[at + 1..at + n]);
      assert at + 1 + (n - 1) == at + n;
    }
  }

  lemma BodyLeft(p: Parser)
    requires p.contentLength > 1
    ensures BodyRead(p, 1).contentLength == p.contentLength - 1
  {
  }

  /** The last byte of a body that ends the message. */
  lemma LastBodyByte(s: Settings, p: Parser, trace: seq<Event>, data: ByteString, at: nat)
    requires p.state == AtBody(BodyIdentity) && p.contentLength == 1 && at < |data|
    ensures
      var p1 := BodyRead(p, 1);
      RunFrom(s, Going(p, trace), data, at) ==
      RunFrom(s, Run(p1.(state := NewMessage(p1)), p1.upgrade, NoError,
        Add(Add(trace, Data(Body, [data[at]])), Notify(MessageComplete))), data, at + 1)
  {
    hide RunFrom, Add, NewMessage;
    RunStep(s, Going(p, trace), data, at);
    var acts := [Keep(Body)] + [Send(MessageComplete)];
    assert acts[0] == Keep(Body) && acts[1..] == [Send(MessageComplete)] && [Send(MessageComplete)][1..] == [];
    assert Report(trace, data[at], acts) == Report(Add(trace, Data(Body, [data[at]])), data[at],
      [Send(MessageComplete)]);
  }

  /** All bytes of a body that ends the message. */
  lemma WholeBody(s: Settings, p: Parser, trace: seq<Event>, data: ByteString, at: nat, n: nat)
    requires p.state == AtBody(BodyIdentity) && 0 < n == p.contentLength && at + n <= |data|
    ensures
      var p1 := BodyRead(p, n);
      RunFrom(s, Going(p, trace), data, at) ==
      RunFrom(s, Run(p1.(state := NewMessage(p1)), p1.upgrade, NoError,
                     Add(Add(trace, Data(Body, data[at..at + n])), Notify(MessageComplete))), data, at + n)
  {
    hide RunFrom, Add, NewMessage;
    var last := at + (n - 1);
    if n > 1 {
      BodyBytes(s, p, trace, data, at, n - 1);
      var t := Add(trace, Data(Body, data[at..last]));
      LastBodyByte(s, BodyRead(p, n - 1), t, data, last);
      assert data[at..last + 1] == data[at..last] + [data[last]];
      AddTwice(trace, Body, data[at..last], [data[last]]);
      assert BodyRead(BodyRead(p, n - 1), 1) == BodyRead(p, n);
    } else {
      LastBodyByte(s, p, trace, data, at);
      assert data[at..at + 1] == [data[at]];
    }
  }

  /** A body that ends with the connection. */
  lemma {:induction false} BodyToTheEnd(s: Settings, p: Parser, trace: seq<Event>, data: ByteString, at: nat)
    requires p.state == AtBody(BodyIdentityEof) && at < |data|
    ensures RunFrom(s, Going(p, trace), data, at) == Ran(Going(p, Add(trace, Data(Body, data[at..]))), |data|)
    decreases |data| - at
  {
    hide Add;
    RunStep(s, Going(p, trace), data, at);
    assert [Keep(Body)][1..] == [];
    var t := Add(trace, Data(Body, [data[at]]));
    if at + 1 < |data| {
      BodyToTheEnd(s, p, t, data, at + 1);
      assert data[at..] == [data[at]] + data[at + 1..];
      AddTwice(trace, Body, [data[at]], data[at + 1..]);
    } else {
      assert data[at..] == [data[at]];
    }
  }
}
