/** What becomes of a single frame: what is forwarded, and whether it matters where the bytes are split. */
module DecodingFrames {
  import opened Outcomes
  import opened Bytes
  import opened Lists
  import opened Codec
  import opened CodecLaws
  import opened CodecRoundTrip
  import opened CodecWriting
  import opened CodecFrames
  import opened EarlyVerdicts
  import opened MessageTable
  import opened Decoding
  import opened DecodingLaws

  /** Actions that keep every message as it is and emit nothing. */
  ghost predicate Transparent<S(!new)>(h: Handler<S>) {
    forall session, frontend, command, x {:trigger h.on(session, frontend, command, x)} ::
      h.on(session, frontend, command, x) == Handled(session, [], Some(x))
  }

  /** One whole frame, with an accepted body. */
  predicate WholeFrame(frontend: bool, data: ByteString) {
    |data| >= 5 && |data| == 5 + BodyLength(Word32(data[1..5])) && FrameVerdict(frontend, data).Valid?
  }

  // --- the length field ---

  lemma LengthOfBody(len: nat)
    requires len < TWO_32
    ensures (BodyLength(len) + 4) % TWO_32 == len
  {
  }

  /** The length field, from the body's length. */
  lemma LengthBytesOf(field: ByteString)
    requires |field| == 4
    ensures Put32((BodyLength(Word32(field)) + 4) % TWO_32) == field
  {
    LengthOfBody(Word32(field));
    Put32RoundTrip(field);
  }

  lemma SameLengthField(n: nat, m: nat)
    requires n < TWO_32 && m < TWO_32
    ensures Put32((n + 4) % TWO_32) == Put32((m + 4) % TWO_32) <==> n == m
  {
    Word32RoundTrip((n + 4) % TWO_32);
    Word32RoundTrip((m + 4) % TWO_32);
  }

  lemma Pieced(command: byte, field: ByteString, body: ByteString, data: ByteString)
    requires |field| == 4 && |data| == 5 + |body| && command == data[0]
    ensures [command] + field + body == data <==> field == data[1..5] && body == data[5..]
  {
    var frame := [command] + field + body;
    assert frame[1..5] == field && frame[5..] == body && frame[0] == command;
    assert data == [data[0]] + data[1..5] + data[5..];
  }

  // --- forwarding ---

  lemma UntypedHasNoAction(frontend: bool, c: byte)
    ensures Lookup(frontend, c).identifier.None? ==> !Lookup(frontend, c).action
  {
  }

  /**
   * A filled frame of a message that is not written anew is passed on byte for byte; except that one
   * with the type byte '-' loses it.
   */
  lemma UntypedIsForwarded<S>(h: Handler<S>, tls: Tls, st: State<S>, frontend: bool, data: ByteString)
    requires st.mode.InSync? && |data| >= 5 && Lookup(frontend, data[0]).identifier.None?
    requires FrameVerdict(frontend, data).Valid? && FrameFilled(frontend, data)
    ensures
      var n := 5 + BodyLength(Word32(data[1..5]));
      && n <= |data|
      && Decode(h, tls, st, frontend, data) ==
         Step(Put(st.(command := data[0]), frontend, if data[0] == DASH then data[1..n] else data[..n]), data[n..],
           ReadyForNext)
  {
    hide Validate, Read, Lookup, Sound, WriteFrame;
    var e, length := Lookup(frontend, data[0]), BodyLength(Word32(data[1..5]));
    TableIsSound(frontend, data[0]);
    UntypedHasNoAction(frontend, data[0]);
    BodyIsHere(e.Body(), data[5..], length);
    var n := 5 + length;
    PassedOnFrame(data, length);
    assert data[5..][..length] == data[5..n] && data[5..][length..] == data[n..];
    hide PassOn;
    NotActed(h, st.(command := data[0]), frontend, e,
      Read(e.Body(), FrameVerdict(frontend, data).shape, data[5..n], 0, length), data[5..n]);
  }

  /** A message without an action that is not written anew is passed on. */
  lemma NotActed<S>(h: Handler<S>, st: State<S>, frontend: bool, e: Entry, r: Reading, body: ByteString)
    requires e.identifier.None? && !e.action && r.Got?
    ensures Deliver(h, st, frontend, e, r.value, body) == Put(st, frontend, PassOn(st.command, body))
  {
    hide PassOn;
    assert st.backend + [] == st.backend;
  }

  /** The bytes of a frame that is passed on. */
  lemma PassedOnFrame(data: ByteString, length: nat)
    requires |data| >= 5 && length == BodyLength(Word32(data[1..5])) && 5 + length <= |data|
    ensures PassOn(data[0], data[5..5 + length]) == if data[0] == DASH then data[1..5 + length] else data[..5 + length]
  {
    hide Put32, Word32;
    LengthBytesOf(data[1..5]);
    var n := 5 + length;
    assert data[1..n] == data[1..5] + data[5..n] && data[..n] == [data[0]] + data[1..n];
    assert [data[0]] + data[1..5] + data[5..n] == [data[0]] + (data[1..5] + data[5..n]);
    assert [] + data[1..5] + data[5..n] == data[1..5] + data[5..n];
  }

  /** The value a whole frame carries. */
  function FrameValue(frontend: bool, data: ByteString): Reading
    requires |data| >= 5 && FrameVerdict(frontend, data).Valid?
  {
    Read(Lookup(frontend, data[0]).Body(), FrameVerdict(frontend, data).shape, data[5..], 0, |data| - 5)
  }

  /** A whole frame, decoded: the message is delivered, and nothing is left. */
  lemma WholeFrameIsDelivered<S>(h: Handler<S>, tls: Tls, st: State<S>, frontend: bool, data: ByteString)
    requires st.mode.InSync? && WholeFrame(frontend, data)
    ensures FrameValue(frontend, data).Got?
    ensures Decode(h, tls, st, frontend, data) ==
            Step(Deliver(h, st.(command := data[0]), frontend, Lookup(frontend, data[0]),
              FrameValue(frontend, data).value, data[5..]), [], ReadyForNext)
  {
    hide Validate, Read, Lookup, Sound, Deliver;
    var e, length := Lookup(frontend, data[0]), BodyLength(Word32(data[1..5]));
    TableIsSound(frontend, data[0]);
    SoundIsWellFormed(e.Body());
    UsedBytes(e.Body(), data[5..], length);
    ReadGoesThrough(e.Body(), data[5..], data[5..], length);
    assert data[5..][..length] == data[5..];
  }

  lemma SoundIsWellFormed(f: Format)
    requires Sound(f)
    ensures WellFormed(f) && Stable(f) && (AwaitsAll(f) || Prompt(f))
  {
  }

  lemma UsedBytes(f: Format, rest: ByteString, length: nat)
    ensures Counts(Validate(f, rest, 0, length), rest, length)
  {
    hide ValidatorOf;
    AllBounded(f);
  }

  /** The value of an accepted body takes as many bytes as were accepted, the same ones unless a cell is respelled. */
  lemma BodyWrittenBack(f: Format, rest: ByteString, length: nat)
    requires Validate(f, rest, 0, length).Valid?
    ensures
      var r := Read(f, Validate(f, rest, 0, length).shape, rest, 0, length);
      WrittenBack(Validate(f, rest, 0, length), r, WriterOf(f), rest, RespelledIn(f)(rest, 0, length))
  {
    hide ValidatorOf, ReaderOf, WriterOf, RespelledIn;
    ReadIsWrittenBack(f);
    assert WrittenBack(ValidatorOf(f)(rest, 0, length),
      ReaderOf(f)(ValidatorOf(f)(rest, 0, length).shape, rest, 0, length),
                       WriterOf(f), rest, RespelledIn(f)(rest, 0, length));
  }

  /** The value of an accepted body is one of the format's. */
  lemma BodyIsTyped(f: Format, rest: ByteString, length: nat)
    requires WellFormed(f) && Validate(f, rest, 0, length).Valid?
    ensures
      var r := Read(f, Validate(f, rest, 0, length).shape, rest, 0, length);
      r.Got? && Typed(f, r.value)
  {
    hide ValidatorOf, ReaderOf, Typed;
    ReadAgrees(f);
    UsedBytes(f, rest, length);
    assert ReadsAs(ValidatorOf(f)(rest, 0, length), ReaderOf(f)(ValidatorOf(f)(rest, 0, length).shape, rest, 0, length),
      IsTyped(f));
  }

  /**
   * A message that is written anew, from an exactly filled frame and unchanged by its action: the frame put
   * out is as long, and it is the very same frame exactly when no cell is respelled and the sums of sizes
   * fit 16 bits.
   */
  lemma TypedIsForwardedIff<S>(h: Handler<S>, tls: Tls, st: State<S>, frontend: bool, data: ByteString)
    requires st.mode.InSync? && WholeFrame(frontend, data) && FrameVerdict(frontend, data).left == 0
    requires Lookup(frontend, data[0]).identifier.Some? && FrameValue(frontend, data).Got?
    requires
      var x := FrameValue(frontend, data).value;
      Act(h, Lookup(frontend, data[0]), st.session, frontend, data[0], x) == Handled(st.session, [], Some(x))
    ensures
      var f, x := Lookup(frontend, data[0]).Body(), FrameValue(frontend, data).value;
      var frame := WriteFrame(data[0], f, x);
      && Decode(h, tls, st, frontend, data) == Step(Put(st.(command := data[0]), frontend, frame), [], ReadyForNext)
      && |frame| == |data|
      && (frame == data <==> !RespelledIn(f)(data[5..], 0, |data| - 5) && SumsFit(f, x))
  {
    WholeFrameIsDelivered(h, tls, st, frontend, data);
    hide Decode, Read, Validate, Lookup, Sound, SumsFit, Write, RespelledIn;
    TableIsSound(frontend, data[0]);
    var e := Lookup(frontend, data[0]);
    var f, x, length := e.Body(), FrameValue(frontend, data).value, |data| - 5;
    SoundIsWellFormed(f);
    BodyWrittenBack(f, data[5..], length);
    BodyIsTyped(f, data[5..], length);
    SizeIsLength(f, x);
    UsedBytes(f, data[5..], length);
    FrameIsSame(f, x, data);
    assert st.backend + [] == st.backend;
    assert Put(st.(command := data[0]).(session := st.session, backend := st.backend + []), frontend,
      WriteFrame(data[0], f, x))
        == Put(st.(command := data[0]), frontend, WriteFrame(data[0], f, x));
  }

  lemma FrameIsSame(f: Format, x: Value, data: ByteString)
    requires |data| >= 5 && |Write(f, x)| == |data| - 5 == BodyLength(Word32(data[1..5])) && SizedRight(f, x)
    ensures
      var frame := WriteFrame(data[0], f, x);
      |frame| == |data| && (frame == data <==> Write(f, x) == data[5..] && SumsFit(f, x))
  {
    hide Write, SumsFit, GetSize;
    var length := |data| - 5;
    LengthBytesOf(data[1..5]);
    SameLengthField(GetSize(f, x), length);
    Pieced(data[0], Put32((GetSize(f, x) + 4) % TWO_32), Write(f, x), data);
  }

  // --- where a frame may be split ---

  /** Reading does not depend on the bytes left of the message. */
  ghost predicate LeftBlind(r: Reader) {
    forall shape, body, offset: nat, left: int,
      left': int {:trigger r(shape, body, offset, left), r(shape, body, offset, left')} ::
      SameReading(r(shape, body, offset, left), r(shape, body, offset, left'))
  }

  predicate SameReading(r: Reading, s: Reading) {
    if r.Got? then s.Got? && s.value == r.value && s.used == r.used else s.Misread?
  }

  lemma {:induction false} PromptIsLeftBlind(f: Format)
    requires Prompt(f)
    ensures LeftBlind(ReaderOf(f))
  {
    match f
    case Array(item) =>
      PromptIsLeftBlind(item);
      CountedLeftBlind(IntReader(2), ReaderOf(item));
      assert LeftBlind(ReaderOf(f));
    case Pair(a, b) =>
      PromptIsLeftBlind(a);
      PromptIsLeftBlind(b);
      PairLeftBlind(ReaderOf(a), ReaderOf(b));
      assert LeftBlind(ReaderOf(f));
    case _ =>
  }

  lemma PairLeftBlind(a: Reader, b: Reader)
    requires LeftBlind(a) && LeftBlind(b)
    ensures LeftBlind(PairReader(a, b))
  {
    var p := PairReader(a, b);
    forall shape, body, offset: nat, left: int, left': int
      ensures SameReading(p(shape, body, offset, left), p(shape, body, offset, left'))
    {
      if shape.Shapes? {
        var r, r' := a(shape.first, body, offset, left), a(shape.first, body, offset, left');
        assert SameReading(r, r');
        if r.Got? {
          assert SameReading(b(shape.second, Drop(body, r.used), offset + r.used, r.left),
            b(shape.second, Drop(body, r.used), offset + r.used, r'.left));
        }
      }
    }
  }

  lemma {:induction false} ItemsLeftBlind(item: Reader, count: nat, shapes: List<Shape>, body: ByteString, offset: nat,
                                          left: int, left': int)
    requires LeftBlind(item)
    ensures SameReading(ReadItems(item, count, shapes, body, offset, left),
      ReadItems(item, count, shapes, body, offset, left'))
    decreases count
  {
    if count > 0 && shapes.Cons? {
      var r, r' := item(shapes.head, body, offset, left), item(shapes.head, body, offset, left');
      assert SameReading(r, r');
      if r.Got? { ItemsLeftBlind(item, count - 1, shapes.tail, Drop(body, r.used), offset + r.used, r.left, r'.left); }
    }
  }

  lemma CountedLeftBlind(rc: Reader, item: Reader)
    requires LeftBlind(rc) && LeftBlind(item)
    ensures LeftBlind(CountedReader(rc, item))
  {
    var p := CountedReader(rc, item);
    forall shape, body, offset: nat, left: int, left': int
      ensures SameReading(p(shape, body, offset, left), p(shape, body, offset, left'))
    {
      var r, r' := rc(Bare, body, offset, left), rc(Bare, body, offset, left');
      assert SameReading(r, r');
      if r.Got? && shape.Items? {
        ItemsLeftBlind(item, CountOf(r), shape.items, Drop(body, r.used), offset + r.used, r.left, r'.left);
      }
    }
  }

  /** The output in the direction of the stream. */
  function Out<S>(st: State<S>, frontend: bool): ByteString { if frontend then st.frontend else st.backend }

  /**
   * With actions that keep every message, bytes that were decoded in sync show: in the output, or in a lost
   * connection.
   */
  lemma StepShows<S(!new)>(h: Handler<S>, tls: Tls, st: State<S>, frontend: bool, data: ByteString)
    requires Transparent(h) && st.mode.InSync? && data != []
    ensures
      var d := Decode(h, tls, st, frontend, data);
      match d.result
      case ReadyForNext =>
        d.state.mode.OutOfSync? ||
        (d.state.mode.InSync? && Out(st, frontend) <= Out(d.state, frontend) &&
          |Out(st, frontend)| < |Out(d.state, frontend)|)
      case NeedMoreData => d.rest == data && d.state.mode.InSync? && Out(d.state, frontend) == Out(st, frontend)
      case _ => d.state.mode.Broken?
  {
    hide Validate, Read, Lookup, Write, GetSize, Put32;
  }

  lemma {:induction false} RunShows<S(!new)>(h: Handler<S>, tls: Tls, st: State<S>, frontend: bool, data: ByteString)
    requires Transparent(h) && st.mode.InSync?
    ensures
      var d := Run(h, tls, st, frontend, data);
      d.rest == [] && d.state.mode.InSync? ==>
        Out(st, frontend) <= Out(d.state, frontend) && (data != [] ==> |Out(st, frontend)| < |Out(d.state, frontend)|)
    decreases |data|
  {
    hide Decode, Out;
    if data != [] {
      StepShows(h, tls, st, frontend, data);
      Consumes(h, tls, st, frontend, data);
      var d := Decode(h, tls, st, frontend, data);
      if d.result.ReadyForNext? {
        if d.state.mode.InSync? {
          RunShows(h, tls, d.state, frontend, d.rest);
        } else {
          DeafRun(h, tls, d.state, frontend, d.rest);
        }
      }
    }
  }

  /** However the bytes are cut in two, the outcome is that of all bytes at once. */
  ghost predicate SplitSafe<S>(h: Handler<S>, tls: Tls, st: State<S>, frontend: bool, data: ByteString) {
    forall k {:trigger data[..k]} :: 0 <= k <= |data| ==> SplitAt(h, tls, st, frontend, data, k)
  }

  ghost predicate SplitAt<S>(h: Handler<S>, tls: Tls, st: State<S>, frontend: bool, data: ByteString, k: nat)
    requires k <= |data|
  {
    var none := Stream(st, []);
    Feed(h, tls, Feed(h, tls, none, frontend, data[..k]), frontend, data[k..]) == Feed(h, tls, none, frontend, data)
  }

  lemma FilledIsSafe<S>(h: Handler<S>, tls: Tls, st: State<S>, frontend: bool, data: ByteString, k: nat)
    requires Plain(tls) && st.mode.InSync? && WholeFrame(frontend, data) && FrameFilled(frontend, data) && k <= |data|
    ensures SplitAt(h, tls, st, frontend, data, k)
  {
    hide FrameVerdict, Decode, FrameFilled;
    var a, b := data[..k], data[k..];
    assert data == a + b && [] + a == a && [] + data == data;
    WholeFrameIsDelivered(h, tls, st, frontend, data);
    assert Clean(h, tls, st, frontend, data);
    RunInTwo(h, tls, st, frontend, a, b);
  }

  /** A frame cut right after the bytes its body needs is delivered early, with a shorter body. */
  lemma CutFrame<S>(h: Handler<S>, tls: Tls, st: State<S>, frontend: bool, data: ByteString)
    requires st.mode.InSync? && WholeFrame(frontend, data) && !FrameFilled(frontend, data)
    ensures
      var k := 5 + FrameVerdict(frontend, data).used;
      && k < |data| && FrameValue(frontend, data).Got?
      && exists x ::
           && |Write(Lookup(frontend, data[0]).Body(), x)| ==
             |Write(Lookup(frontend, data[0]).Body(), FrameValue(frontend, data).value)|
           && Decode(h, tls, st, frontend, data[..k]) ==
              Step(Deliver(h, st.(command := data[0]), frontend, Lookup(frontend, data[0]), x, data[5..k]), [],
                ReadyForNext)
  {
    hide Decode, Read, Validate, Lookup, Sound, Deliver, WriterOf;
    TableIsSound(frontend, data[0]);
    var e, length := Lookup(frontend, data[0]), |data| - 5;
    var f, v := e.Body(), FrameVerdict(frontend, data);
    SoundIsWellFormed(f);
    UsedBytes(f, data[5..], length);
    var k := 5 + v.used;
    ShortBody(f, data[5..], data[5..k], length);
    BodyWrittenBack(f, data[5..], length);
    BodyWrittenBack(f, data[5..k], length);
    var r := Read(f, v.shape, data[5..k], 0, v.used);
    CutDecodes(h, tls, st, frontend, data, k);
    assert |Write(f, r.value)| == |Write(f, FrameValue(frontend, data).value)|;
  }

  lemma ShortBody(f: Format, rest: ByteString, short: ByteString, length: nat)
    requires WellFormed(f) && Prompt(f) && short <= rest && Validate(f, rest, 0, length).Valid? &&
      |short| == Validate(f, rest, 0, length).used
    ensures Validate(f, short, 0, length) == Validate(f, rest, 0, length)
    ensures
      var shape := Validate(f, rest, 0, length).shape;
      Read(f, shape, short, 0, length).Got? &&
        SameReading(Read(f, shape, short, 0, length), Read(f, shape, short, 0, |short|))
  {
    hide ValidatorOf, ReaderOf, Prompt;
    VerdictIsEarly(f);
    var v := ValidatorOf(f);
    assert v(short, 0, length) == v(rest, 0, length);
    ReadGoesThrough(f, rest, short, length);
    PromptIsLeftBlind(f);
    var r := ReaderOf(f);
    var shape := v(rest, 0, length).shape;
    assert SameReading(r(shape, short, 0, length), r(shape, short, 0, |short|));
  }

  lemma CutDecodes<S>(h: Handler<S>, tls: Tls, st: State<S>, frontend: bool, data: ByteString, k: nat)
    requires st.mode.InSync? && WholeFrame(frontend, data) && 5 <= k < |data|
    requires
      var f, v := Lookup(frontend, data[0]).Body(), FrameVerdict(frontend, data);
      k == 5 + v.used && Validate(f, data[5..k], 0, |data| - 5) == v && Read(f, v.shape, data[5..k], 0, v.used).Got?
    ensures
      var f, v := Lookup(frontend, data[0]).Body(), FrameVerdict(frontend, data);
      Decode(h, tls, st, frontend, data[..k]) ==
        Step(Deliver(h, st.(command := data[0]), frontend, Lookup(frontend, data[0]),
          Read(f, v.shape, data[5..k], 0, v.used).value, data[5..k]), [], ReadyForNext)
  {
    hide Read, Validate, Lookup, Deliver;
    assert data[..k][1..5] == data[1..5] && data[..k][5..] == data[5..k];
  }

  /** The output of a delivered message, when its action keeps it. */
  lemma DeliveredOutput<S(!new)>(h: Handler<S>, st: State<S>, frontend: bool, e: Entry, x: Value, body: ByteString)
    requires Transparent(h)
    ensures
      var d := Deliver(h, st, frontend, e, x, body);
      && d.mode == st.mode
      && Out(d, frontend) == Out(st, frontend) +
         if e.identifier.Some? then WriteFrame(e.identifier.value, e.Body(), x) else PassOn(st.command, body)
  {
    hide WriteFrame, PassOn;
    assert st.backend + [] == st.backend;
  }

  /** A run that one message uses up. */
  lemma RunOfOne<S>(h: Handler<S>, tls: Tls, st: State<S>, frontend: bool, data: ByteString, st': State<S>)
    requires data != [] && Decode(h, tls, st, frontend, data) == Step(st', [], ReadyForNext)
    ensures Run(h, tls, st, frontend, data) == Step(st', [], ReadyForNext)
  {
    hide Decode;
  }

  lemma CutIsUnsafe<S(!new)>(h: Handler<S>, tls: Tls, st: State<S>, frontend: bool, data: ByteString)
    requires Transparent(h) && Plain(tls) && st.mode.InSync? && WholeFrame(frontend, data) &&
      !FrameFilled(frontend, data)
    ensures
      var k := 5 + FrameVerdict(frontend, data).used;
      k <= |data| && !SplitAt(h, tls, st, frontend, data, k)
  {
    hide FrameVerdict, Decode, Lookup, Deliver, FrameFilled, Read, Write, PassOn, Out, FrameValue;
    var e, k := Lookup(frontend, data[0]), 5 + FrameVerdict(frontend, data).used;
    var c := st.(command := data[0]);
    CutFrame(h, tls, st, frontend, data);
    var y := FrameValue(frontend, data).value;
    WholeFrameIsDelivered(h, tls, st, frontend, data);
    var x :| && |Write(e.Body(), x)| == |Write(e.Body(), y)|
             && Decode(h, tls, st, frontend, data[..k]) ==
               Step(Deliver(h, c, frontend, e, x, data[5..k]), [], ReadyForNext);
    var first, whole := Deliver(h, c, frontend, e, x, data[5..k]), Deliver(h, c, frontend, e, y, data[5..]);
    assert [] + data[..k] == data[..k] && [] + data == data && [] + data[k..] == data[k..];
    DeliveredOutput(h, c, frontend, e, x, data[5..k]);
    DeliveredOutput(h, c, frontend, e, y, data[5..]);
    RunShows(h, tls, first, frontend, data[k..]);
    var second := Run(h, tls, first, frontend, data[k..]);
    var none := Stream(st, []);
    RunOfOne(h, tls, st, frontend, data, whole);
    RunOfOne(h, tls, st, frontend, data[..k], first);
    assert Feed(h, tls, none, frontend, data) == Stream(whole, []);
    assert Feed(h, tls, none, frontend, data[..k]) == Stream(first, []);
    assert Feed(h, tls, Stream(first, []), frontend, data[k..]) == Stream(second.state, second.rest);
    assert whole.mode == st.mode;
    if second.rest == [] && second.state.mode.InSync? {
      OutputsDiffer(e, data[0], Out(c, frontend), x, y, data[5..k], data[5..], Out(second.state, frontend));
    }
  }

  /** A longer output, or one with another length field. */
  lemma OutputsDiffer(e: Entry, command: byte, before: ByteString, x: Value, y: Value, short: ByteString,
                      body: ByteString, out: ByteString)
    requires |short| < |body| < TWO_32 && |Write(e.Body(), x)| == |Write(e.Body(), y)|
    requires
      var first := before + if e.identifier.Some? then
        WriteFrame(e.identifier.value, e.Body(), x) else PassOn(command, short);
      first <= out && |first| < |out|
    ensures out != before + if e.identifier.Some? then
      WriteFrame(e.identifier.value, e.Body(), y) else PassOn(command, body)
  {
    hide Write, GetSize;
    if e.identifier.None? {
      SameLengthField(|short|, |body|);
      var p, q := before + PassOn(command, short), before + PassOn(command, body);
      LengthFieldAt(before, command, short);
      LengthFieldAt(before, command, body);
      var at := |before| + if command != DASH then 1 else 0;
      assert out[at..at + 4] == p[at..at + 4];
    } else {
      var i, f := e.identifier.value, e.Body();
      assert |WriteFrame(i, f, x)| == 5 + |Write(f, x)| == |WriteFrame(i, f, y)|;
    }
  }

  lemma LengthFieldAt(before: ByteString, command: byte, body: ByteString)
    ensures
      var at := |before| + if command != DASH then 1 else 0;
      && at + 4 <= |before + PassOn(command, body)|
      && (before + PassOn(command, body))[at..at + 4] == Put32((|body| + 4) % TWO_32)
  {
    hide Put32;
  }

  /**
   * A whole frame may be cut anywhere exactly when it is filled: it ends where its length field says, or its
   * format waits for all of it. Otherwise the cut right after the body's last byte changes the outcome.
   */
  lemma SplitSafeIffFilled<S(!new)>(h: Handler<S>, tls: Tls, st: State<S>, frontend: bool, data: ByteString)
    requires Transparent(h) && Plain(tls) && st.mode.InSync? && WholeFrame(frontend, data)
    ensures SplitSafe(h, tls, st, frontend, data) <==> FrameFilled(frontend, data)
  {
    hide SplitAt, FrameFilled, FrameVerdict, Transparent;
    if FrameFilled(frontend, data) {
      forall k | 0 <= k <= |data| ensures SplitAt(h, tls, st, frontend, data, k) {
        FilledIsSafe(h, tls, st, frontend, data, k);
      }
    } else {
      CutIsUnsafe(h, tls, st, frontend, data);
      var k := 5 + FrameVerdict(frontend, data).used;
      assert data[..k] == data[..k];
    }
  }
}
