/** Marks: data reported in pieces as buffers end is the same data reported byte by byte. */
module HttpMarks {
  import opened Outcomes
  import opened Bytes
  import opened HttpChars
  import opened HttpMachine

  /** Where in the buffer the fields begin that are not reported yet. */
  type Marks = map<Field, nat>

  /** The field that bytes of this state belong to. */
  function LiveField(s: State): Option<Field> {
    match s
    case AtStatus(status) => if status.ResStatus? then Some(Status) else None
    case AtUrl(url) => if url.ReqSpacesBeforeUrl? || url.UrlDead? then None else Some(Url)
    case AtHeader(header) =>
      if header.HeaderField? then Some(HeaderName) else if header.HeaderValue? then Some(HeaderText) else None
    case AtChunk(chunk) => if chunk.ChunkData? || chunk.ChunkDataAlmostDone? then Some(Body) else None
    case AtBody(body) => if body.MessageDone? then None else Some(Body)
    case _ => None
  }

  /** Only the live field may be marked, and it is, unless it is the body. */
  predicate Marked(marks: Marks, live: Option<Field>, at: nat) {
    && (forall f :: f in marks ==> live == Some(f) && marks[f] <= at)
    && (live.Some? && !live.value.Body? ==> live.value in marks)
    && (Body in marks ==> marks[Body] < at)
  }

  /** The trace with some bytes of a field; none if there are none. */
  function Pending(trace: seq<Event>, f: Field, bytes: ByteString): seq<Event> {
    if bytes == [] then trace else Add(trace, Data(f, bytes))
  }

  /** The trace as it will be once the marked bytes are reported. */
  function Shown(trace: seq<Event>, marks: Marks, live: Option<Field>, data: ByteString, at: nat): seq<Event>
    requires at <= |data| && Marked(marks, live, at)
  {
    if live.Some? && live.value in marks then Pending(trace, live.value, data[marks[live.value]..at]) else trace
  }

  lemma AddToLast(init: seq<Event>, f: Field, a: ByteString, b: ByteString)
    ensures Add(init + [Data(f, a)], Data(f, b)) == init + [Data(f, a + b)]
  {
    var t := init + [Data(f, a)];
    assert t[|t| - 1] == Data(f, a) && t[..|t| - 1] == init;
  }

  lemma AddTwice(trace: seq<Event>, f: Field, a: ByteString, b: ByteString)
    ensures Add(Add(trace, Data(f, a)), Data(f, b)) == Add(trace, Data(f, a + b))
  {
    if trace != [] && trace[|trace| - 1].Data? && trace[|trace| - 1].field == f {
      AddToLast(trace[..|trace| - 1], f, trace[|trace| - 1].bytes + a, b);
      assert (trace[|trace| - 1].bytes + a) + b == trace[|trace| - 1].bytes + (a + b);
    } else {
      AddToLast(trace, f, a, b);
    }
  }

  lemma AddNothing(trace: seq<Event>, f: Field, a: ByteString)
    ensures Add(Add(trace, Data(f, a)), Data(f, [])) == Add(trace, Data(f, a))
  {
    AddTwice(trace, f, a, []);
    assert a + [] == a;
  }

  /** One more byte of a marked field. */
  lemma OneMore(trace: seq<Event>, f: Field, data: ByteString, m: nat, at: nat)
    requires m <= at < |data|
    ensures Add(Pending(trace, f, data[m..at]), Data(f, [data[at]])) == Pending(trace, f, data[m..at + 1])
  {
    assert data[m..at + 1] == data[m..at] + [data[at]];
    if m < at {
      AddTwice(trace, f, data[m..at], [data[at]]);
    } else {
      assert data[m..at] == [] && data[m..at + 1] == [data[at]];
    }
  }

  lemma ManyMore(trace: seq<Event>, f: Field, data: ByteString, m: nat, at: nat, k: nat)
    requires m <= at <= at + k <= |data|
    ensures Pending(Pending(trace, f, data[m..at]), f, data[at..at + k]) == Pending(trace, f, data[m..at + k])
  {
    assert data[m..at + k] == data[m..at] + data[at..at + k];
    if m < at && k > 0 { AddTwice(trace, f, data[m..at], data[at..at + k]); }
  }

  /** The end of a marked field. */
  lemma Closing(trace: seq<Event>, f: Field, data: ByteString, m: nat, at: nat)
    requires m <= at <= |data|
    ensures Add(Pending(trace, f, data[m..at]), Data(f, [])) == Add(trace, Data(f, data[m..at]))
  {
    if m < at { AddNothing(trace, f, data[m..at]); }
  }

  // --- acts on marks ---

  /**
   * The acts are in order: a live field goes on with this byte or is closed first, and only the last act keeps the
   * byte.
   */
  predicate Follows(live: Option<Field>, acts: seq<Act>, live': Option<Field>)
    decreases |acts|
  {
    if acts == [] then live.None? && (live'.None? || live' == Some(Body))
    else match acts[0]
      case Keep(f) => (live.None? || live == Some(f)) && acts[1..] == [] && live' == Some(f)
      case Mark(f) => live.None? && !f.Body? && Follows(Some(f), acts[1..], live')
      case Close(f) => live == Some(f) && !f.Body? && Follows(None, acts[1..], live')
      case Flush(f) => live == Some(f) && f.Body? && Follows(None, acts[1..], live')
      case Send(_) => live.None? && Follows(None, acts[1..], live')
  }

  datatype Marking = Marking(trace: seq<Event>, marks: Marks)

  /** What an act does to the marks and the trace, at a byte of the buffer. */
  function Apply(x: Marking, data: ByteString, at: nat, a: Act): Marking
    requires at < |data| && forall f :: f in x.marks ==> x.marks[f] <= at
  {
    match a
    case Keep(f) => if f in x.marks then x else x.(marks := x.marks[f := at])
    case Mark(f) => if f in x.marks then x else x.(marks := x.marks[f := at])
    case Close(f) => Callback(x, data, at, f)
    case Flush(f) => Callback(x, data, at, f)
    case Send(n) => x.(trace := Add(x.trace, Notify(n)))
  }

  /** CALLBACK_DATA_NOADVANCE: a marked field is reported up to the current byte, and the mark is removed. */
  function Callback(x: Marking, data: ByteString, at: nat, f: Field): Marking
    requires at <= |data| && (f in x.marks ==> x.marks[f] <= at)
  {
    if f in x.marks then Marking(Add(x.trace, Data(f, data[x.marks[f]..at])), x.marks - {f}) else x
  }

  function ApplyAll(x: Marking, data: ByteString, at: nat, acts: seq<Act>): (y: Marking)
    requires at < |data| && forall f :: f in x.marks ==> x.marks[f] <= at
    ensures forall f :: f in y.marks ==> y.marks[f] <= at
    decreases |acts|
  {
    if acts == [] then x else ApplyAll(Apply(x, data, at, acts[0]), data, at, acts[1..])
  }

  /** Between two acts at a byte. */
  predicate Matches(x: Marking, live: Option<Field>, data: ByteString, at: nat, trace: seq<Event>) {
    at < |data| && Marked(x.marks, live, at) && trace == Shown(x.trace, x.marks, live, data, at)
  }

  /** The acts of a byte do to marks and trace what the byte on its own does to the trace. */
  lemma {:induction false} ActsMatch(x: Marking, live: Option<Field>, data: ByteString, at: nat, acts: seq<Act>,
                                     live': Option<Field>, trace: seq<Event>)
    requires Matches(x, live, data, at, trace) && Follows(live, acts, live')
    ensures
      var y := ApplyAll(x, data, at, acts);
      Marked(y.marks, live', at + 1) && Report(trace, data[at], acts) == Shown(y.trace, y.marks, live', data, at + 1)
    decreases |acts|
  {
    if acts == [] {
    } else {
      var x1 := Apply(x, data, at, acts[0]);
      match acts[0]
      case Keep(f) =>
        assert acts == [acts[0]];
        assert data[at..at] == [];
        OneMore(x1.trace, f, data, x1.marks[f], at);
      case Mark(f) =>
        assert data[at..at] == [];
        ActsMatch(x1, Some(f), data, at, acts[1..], live', trace);
      case Close(f) =>
        Closing(x.trace, f, data, x.marks[f], at);
        ActsMatch(x1, None, data, at, acts[1..], live', Add(trace, Data(f, [])));
      case Flush(f) =>
        ActsMatch(x1, None, data, at, acts[1..], live', trace);
      case Send(n) =>
        ActsMatch(x1, None, data, at, acts[1..], live', Add(trace, Notify(n)));
    }
  }

  // --- the acts of every byte are in order ---

  /** The acts of an outcome fit the live fields before and after. */
  predicate InOrder(live: Option<Field>, o: Outcome) {
    match o
    case Next(p, acts) => Follows(live, acts, LiveField(p.state))
    case Exit(p, acts) => Follows(live, acts, None) && p.state.AtStart?
    case Error(e, acts) => !e.NoError? && (acts == [] || Follows(live, acts, None))
  }

  lemma AfterSend(n: Notice, o: Outcome)
    requires InOrder(None, o)
    ensures InOrder(None, After([Send(n)], o))
  {
    var acts := [Send(n)] + o.acts;
    assert acts[0] == Send(n) && acts[1..] == o.acts;
    assert o.acts == [] ==> Follows(None, o.acts, None);
  }

  lemma AfterEmptyValue(o: Outcome)
    requires InOrder(None, o)
    ensures InOrder(None, After([Mark(HeaderText), Close(HeaderText)], o))
  {
    var acts := [Mark(HeaderText), Close(HeaderText)] + o.acts;
    assert acts[0] == Mark(HeaderText) && acts[1..][0] == Close(HeaderText) && acts[1..][1..] == o.acts;
    assert o.acts == [] ==> Follows(None, o.acts, None);
  }

  lemma MessageDoneInOrder(p: Parser)
    ensures InOrder(None, ExecMessageDone(p)) && InOrder(None, Complete(p))
  {
    hide ShouldKeepAlive;
    assert [Send(MessageComplete)][1..] == [];
  }

  lemma HeadersDoneInOrder(s: Settings, p: Parser)
    ensures InOrder(None, ExecHeadersDone(s, p))
  {
    hide ShouldKeepAlive, NeedsEof;
    assert [Send(MessageComplete)][1..] == [];
  }

  lemma HeadersAlmostDoneInOrder(s: Settings, p: Parser, ch: byte)
    ensures InOrder(None, ExecHeadersAlmostDone(s, p, ch))
  {
    hide ExecHeadersDone, ExecMessageDone;
    if ch == LF && p.flags.trailing {
      MessageDoneInOrder(p.(state := AtBody(MessageDone)));
      AfterSend(ChunkComplete, ExecMessageDone(p.(state := AtBody(MessageDone))));
    } else if ch == LF && !LengthConflict(s, p) {
      var p1 := p.(state := AtHeader(HeadersDone), upgrade := Upgrades(p));
      HeadersDoneInOrder(s, Answered(p1, s.answer(p1)));
      AfterSend(HeadersComplete, ExecHeadersDone(s, Answered(p1, s.answer(p1))));
    }
  }

  lemma OneKept(f: Field)
    ensures Follows(None, [Keep(f)], Some(f)) && Follows(Some(f), [Keep(f)], Some(f))
    ensures !f.Body? ==> Follows(Some(f), [Close(f)], None)
    ensures !f.Body? ==> Follows(None, [Mark(f), Close(f)], None)
    ensures Follows(None, [], None) && Follows(None, [], Some(Body))
    ensures f.Body? ==> Follows(Some(f), [Flush(f)], None)
  {
    assert [Keep(f)][1..] == [] && [Close(f)][1..] == [] && [Mark(f), Close(f)][1..] == [Close(f)] &&
      [Flush(f)][1..] == [];
  }

  lemma OneSent(n: Notice)
    ensures Follows(None, [Send(n)], None) && Follows(None, [Send(n)], Some(Body))
  {
    assert [Send(n)][1..] == [];
  }

  lemma FieldStartInOrder(s: Settings, p: Parser, ch: byte)
    ensures InOrder(None, ExecHeaderFieldStart(s, p, ch))
  {
    hide ExecHeadersAlmostDone, Token;
    HeadersAlmostDoneInOrder(s, p.(state := AtHeader(HeadersAlmostDone)), ch);
    OneKept(HeaderName);
  }

  lemma HeaderInOrder(s: Settings, p: Parser, header: HeaderStage, ch: byte)
    requires p.state == AtHeader(header)
    ensures InOrder(LiveField(p.state), ExecHeader(s, p, header, ch))
  {
    hide ExecHeaderFieldStart, ExecHeadersAlmostDone, ExecHeadersDone, NameStep, ValueStep, ValueDone, Token, Follows;
    OneKept(HeaderName);
    OneKept(HeaderText);
    match header
    case HeaderFieldStart => FieldStartInOrder(s, p, ch);
    case HeaderField => NameStepStays(p, Token(ch));
    case HeaderValueDiscardLws =>
      var q := ValueDone(p).(state := AtHeader(HeaderFieldStart));
      FieldStartInOrder(s, q, ch);
      AfterEmptyValue(ExecHeaderFieldStart(s, q, ch));
    case HeaderValue => ValueStepStays(p, ch);
    case HeaderValueLws => FieldStartInOrder(s, ValueDone(p).(state := AtHeader(HeaderFieldStart)), ch);
    case HeadersAlmostDone => HeadersAlmostDoneInOrder(s, p, ch);
    case HeadersDone => HeadersDoneInOrder(s, p);
    case _ =>
  }

  lemma NameStepStays(p: Parser, c: byte)
    ensures NameStep(p, c).state == p.state && NameStep(p, c).nread == p.nread
  {
    hide WordState;
  }

  lemma ValueStepStays(p: Parser, ch: byte)
    ensures ValueStep(p, ch).Some? ==>
      ValueStep(p, ch).value.state == p.state && ValueStep(p, ch).value.nread == p.nread
  {
    hide WordState, Token, Lower;
  }

  lemma StartInOrder(s: Settings, p: Parser, start: StartState, ch: byte)
    requires p.state == AtStart(start)
    ensures InOrder(None, ExecStart(s, p, start, ch))
  {
    hide IsAlpha, Follows;
    OneSent(MessageBegin);
    OneKept(Body);
  }

  lemma StatusLineInOrder(p: Parser, status: StatusState, ch: byte)
    requires p.state == AtStatus(status)
    ensures InOrder(LiveField(p.state), ExecStatusLine(p, status, ch))
  {
    hide IsNum, Follows;
    OneKept(Status);
    assert [Mark(Status)] + [Close(Status)] == [Mark(Status), Close(Status)];
  }

  lemma LineInOrder(s: Settings, p: Parser, ch: byte)
    requires p.state.AtLine? || p.state.AtUrl?
    ensures InOrder(LiveField(p.state), Exec(s, p, ch))
  {
    hide IsNum, ParseUrlChar, Follows;
    OneKept(Url);
  }

  lemma BodyInOrder(s: Settings, p: Parser, ch: byte)
    requires p.state.AtChunk? || (p.state.AtBody? && !p.state.body.BodyIdentity?)
    ensures InOrder(LiveField(p.state), Exec(s, p, ch))
  {
    hide Follows, ExecMessageDone;
    OneKept(Body);
    OneSent(ChunkHeader);
    OneSent(ChunkComplete);
    MessageDoneInOrder(p);
  }

  lemma ExecInOrder(s: Settings, p: Parser, ch: byte)
    requires p.state.AtBody? ==> !p.state.body.BodyIdentity?
    ensures InOrder(LiveField(p.state), Exec(s, p, ch))
  {
    hide ExecStart, ExecStatusLine, ExecRequestLine, ExecUrl, ExecHeader, ExecChunk, ExecBody, InOrder;
    match p.state
    case AtStart(start) => StartInOrder(s, p, start, ch);
    case AtStatus(status) => StatusLineInOrder(p, status, ch);
    case AtHeader(header) => HeaderInOrder(s, p, header, ch);
    case AtChunk(_) => BodyInOrder(s, p, ch);
    case AtBody(_) => BodyInOrder(s, p, ch);
    case _ => LineInOrder(s, p, ch);
  }
}
