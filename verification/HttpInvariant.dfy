/** What holds of the HTTP parser between any two bytes of any input. */
module HttpInvariant {
  import opened Bytes
  import opened HttpChars
  import opened HttpMachine

  /** The states of the header-field loop. */
  predicate NameState(h: HeaderState) {
    || h.General? || h.LetterC? || h.LettersCO? || h.LettersCON?
    || h.MatchingConnection? || h.MatchingProxyConnection? || h.MatchingContentLength? || h.MatchingTransferEncoding? ||
      h.MatchingUpgrade?
    || h.Connection? || h.ContentLength? || h.TransferEncoding? || h.Upgrade?
  }

  /** The states of the header-value loop. */
  predicate ValueState(h: HeaderState) {
    || h.General? || h.ContentLengthNum? || h.ContentLengthWs?
    || h.EncodingTokenStart? || h.MatchingChunked? || h.EncodingToken? || h.EncodingChunked?
    || h.ConnectionTokenStart? || h.MatchingKeepAlive? || h.MatchingClose? || h.MatchingUpgradeToken? ||
      h.ConnectionToken?
    || h.ConnectionKeepAlive? || h.ConnectionClose? || h.ConnectionUpgrade?
  }

  /** The header is, or may be, Transfer-Encoding. */
  predicate EncodingHeader(h: HeaderState) {
    h.TransferEncoding? || h.EncodingTokenStart? || h.MatchingChunked? || h.EncodingToken? || h.EncodingChunked?
  }

  /** A header has begun and is not finished. */
  predicate InField(s: State) {
    s.AtHeader? && !s.header.HeaderFieldStart? && !s.header.HeadersAlmostDone? && !s.header.HeadersDone?
  }

  /** A state that is left again before the next byte. */
  predicate Transient(s: State) {
    match s
    case AtHeader(h) => h.HeaderValueStart? || h.HeadersDone?
    case AtBody(b) => b.MessageDone?
    case AtUrl(u) => u.UrlDead?
    case _ => false
  }

  predicate InName(p: Parser) { p.state == AtHeader(HeaderField) }

  predicate InValue(p: Parser) { p.state == AtHeader(HeaderValue) }

  /** The header-matching state fits the place in the header. */
  predicate HeaderKnown(p: Parser) {
    && (InName(p) ==> NameState(p.headerState))
    && (InValue(p) ==> ValueState(p.headerState))
    && (InField(p.state) && EncodingHeader(p.headerState) ==> p.usesTransferEncoding)
  }

  /** A word being matched is not longer than the word. */
  predicate IndexFits(p: Parser) {
    InName(p) || InValue(p) ==>
      match p.headerState
      case LetterC => p.index == 0
      case LettersCO => p.index == 1
      case LettersCON => p.index == 2
      case MatchingConnection => p.index <= 8
      case MatchingProxyConnection => p.index <= 14
      case MatchingContentLength => p.index <= 12
      case MatchingTransferEncoding => p.index <= 15
      case MatchingUpgrade => p.index <= 5
      case MatchingChunked => p.index <= 5
      case MatchingKeepAlive => p.index <= 8
      case MatchingClose => p.index <= 3
      case MatchingUpgradeToken => p.index <= 5
      case EncodingTokenStart => p.index == 0
      case ConnectionTokenStart => p.index == 0
      case _ => true
  }

  /** The framing of the body, section 3.3.3 of RFC 7230. */
  predicate Framed(s: Settings, p: Parser) {
    && (p.flags.chunked ==> p.usesTransferEncoding)
    && (p.flags.trailing ==> p.flags.chunked)
    && (p.state.AtChunk? ==> p.flags.chunked && !p.flags.trailing && (p.flags.contentLength ==> s.allowChunkedLength))
    && (p.state == AtBody(BodyIdentity) ==> p.flags.contentLength && !p.usesTransferEncoding)
    && (p.state == AtBody(BodyIdentityEof) ==>
      !p.flags.chunked && (p.usesTransferEncoding ==> s.lenient || !p.kind.Request?))
  }

  /** The message has no length, no body and no coding yet. */
  predicate Blank(p: Parser) {
    !p.flags.contentLength && p.contentLength == NO_LENGTH && !p.usesTransferEncoding && !p.flags.chunked &&
      !p.flags.trailing
  }

  /** There is a length exactly when one was given; within a body it is the exact rest. */
  predicate Measured(p: Parser) {
    && p.contentLength <= NO_LENGTH
    && (p.state.AtHeader? && !p.flags.trailing ==> (p.flags.contentLength <==> p.contentLength != NO_LENGTH))
    && (p.state.AtStatus? || p.state.AtLine? || p.state.AtUrl? || p.state == AtStart(ResOrRespH) ==> Blank(p))
    && (p.state.AtChunk? && !p.state.chunk.ChunkSizeStart? ==> p.contentLength != NO_LENGTH)
    && (p.state == AtChunk(ChunkData) || p.state == AtBody(BodyIdentity) ==> 0 < p.contentLength < NO_LENGTH)
    && (p.state == AtChunk(ChunkDataAlmostDone) ==> p.contentLength == 0)
    && (InValue(p) && p.headerState.ContentLengthNum? ==> p.flags.contentLength)
  }

  /** The kind of message is decided by its first two bytes. */
  predicate Decided(p: Parser) {
    p.kind.Either? ==> p.state.AtStart? && (p.state.start.StartReqOrRes? || p.state.start.ResOrRespH?)
  }

  predicate Core(s: Settings, p: Parser) {
    HeaderKnown(p) && IndexFits(p) && Framed(s, p) && Measured(p) && Decided(p) && !Transient(p.state)
  }

  /** Bytes are counted afresh before each chunk, and within a header there is at least one. */
  predicate CountFits(p: Parser) {
    (p.state == AtChunk(ChunkSizeStart) ==> p.nread == 0) && (InField(p.state) ==> p.nread >= 1)
  }

  predicate Valid(s: Settings, p: Parser) { Core(s, p) && CountFits(p) }

  predicate Kept(s: Settings, o: Outcome) { !o.Error? ==> Valid(s, o.parser) }

  // --- up to the headers ---

  /** On the way to the headers: nothing is known of the body yet. */
  predicate Early(p: Parser) {
    Blank(p) && (p.kind.Either? ==> p.state == AtStart(ResOrRespH)) &&
    match p.state
    case AtStart(start) => start.ResOrRespH?
    case AtStatus(_) => true
    case AtLine(_) => true
    case AtUrl(url) => !url.UrlDead?
    case AtHeader(header) => header.HeaderFieldStart?
    case _ => false
  }

  predicate ToEarly(o: Outcome) { !o.Error? ==> Early(o.parser) }

  lemma EarlyIsValid(s: Settings, p: Parser)
    requires Early(p)
    ensures Valid(s, p)
  {
  }

  lemma ValidIsEarly(s: Settings, p: Parser)
    requires Core(s, p) && (p.state.AtStatus? || p.state.AtLine? || p.state.AtUrl? || p.state == AtStart(ResOrRespH))
    ensures Early(p)
  {
  }

  lemma FromStart(s: Settings, p: Parser, start: StartState, ch: byte)
    requires start.ResOrRespH? ==> Blank(p)
    requires p.kind.Either? ==> start.StartReqOrRes? || start.ResOrRespH?
    ensures
      var o := ExecStart(s, p, start, ch);
      ToEarly(o) || o == Next(p, []) || (start.StartReq? && o == Next(p.(state := AtStart(StartReq)), []))
  {
    hide IsAlpha;
  }

  lemma OnStatusLine(p: Parser, status: StatusState, ch: byte)
    requires Early(p) && p.state == AtStatus(status)
    ensures ToEarly(ExecStatusLine(p, status, ch))
  {
    hide IsNum;
  }

  lemma OnRequestLine(s: Settings, p: Parser, line: LineState, ch: byte)
    requires Early(p) && p.state == AtLine(line)
    ensures ToEarly(ExecRequestLine(s, p, line, ch))
  {
    hide IsNum;
  }

  lemma OnUrl(p: Parser, url: UrlState, ch: byte)
    requires Early(p) && p.state == AtUrl(url)
    ensures ToEarly(ExecUrl(p, url, ch))
  {
    hide ParseUrlChar, MayEnd;
  }

  lemma StartKeeps(s: Settings, p: Parser, start: StartState, ch: byte)
    requires Core(s, p) && p.state == AtStart(start)
    ensures Kept(s, ExecStart(s, p, start, ch))
  {
    hide ExecStart;
    if start.ResOrRespH? { ValidIsEarly(s, p); }
    FromStart(s, p, start, ch);
    var o := ExecStart(s, p, start, ch);
    if ToEarly(o) && !o.Error? { EarlyIsValid(s, o.parser); }
    assert start.StartReq? ==> p.(state := AtStart(StartReq)) == p;
  }

  lemma LineKeeps(s: Settings, p: Parser, ch: byte)
    requires Core(s, p) && (p.state.AtStatus? || p.state.AtLine? || p.state.AtUrl?)
    ensures Kept(s, Exec(s, p, ch))
  {
    hide ExecStatusLine, ExecRequestLine, ExecUrl, Core, Early;
    ValidIsEarly(s, p);
    match p.state {
      case AtStatus(status) => OnStatusLine(p, status, ch);
      case AtLine(line) => OnRequestLine(s, p, line, ch);
      case AtUrl(url) => OnUrl(p, url, ch);
    }
    var o := Exec(s, p, ch);
    if !o.Error? { EarlyIsValid(s, o.parser); }
  }

  // --- headers and bodies ---

  lemma MessageDoneKeeps(s: Settings, p: Parser)
    requires Framed(s, p.(state := AtStart(Dead))) && p.contentLength <= NO_LENGTH && !p.kind.Either?
    ensures Kept(s, ExecMessageDone(p)) && Kept(s, Complete(p))
  {
    hide NeedsEof;
  }

  /** What is known of the flags and the length while headers are read. */
  predicate HeadersRead(s: Settings, p: Parser) {
    Framed(s, p.(state := AtHeader(HeadersAlmostDone))) && Measured(p.(state := AtHeader(HeadersAlmostDone))) &&
      !p.kind.Either? && p.nread >= 1
  }

  lemma HeadersAlmostDoneKeeps(s: Settings, p: Parser, ch: byte)
    requires HeadersRead(s, p)
    ensures Kept(s, ExecHeadersAlmostDone(s, p, ch))
  {
    hide ExecMessageDone, ExecHeadersDone;
    if ch == LF && p.flags.trailing {
      MessageDoneKeeps(s, p.(state := AtBody(MessageDone)));
    } else if ch == LF && !LengthConflict(s, p) {
      var p1 := p.(state := AtHeader(HeadersDone), upgrade := Upgrades(p));
      HeadersDoneKeeps(s, Answered(p1, s.answer(p1)));
    }
  }

  lemma HeadersDoneKeeps(s: Settings, p: Parser)
    requires HeadersRead(s, p) && !p.flags.trailing && !LengthConflict(s, p)
    ensures Kept(s, ExecHeadersDone(s, p))
  {
    hide NeedsEof;
  }

  lemma FieldStartKeeps(s: Settings, p: Parser, ch: byte)
    requires HeadersRead(s, p)
    ensures Kept(s, ExecHeaderFieldStart(s, p, ch))
  {
    hide ExecHeadersAlmostDone, Token;
    HeadersAlmostDoneKeeps(s, p.(state := AtHeader(HeadersAlmostDone)), ch);
  }

  /** Only the header matching moved on; at most a transfer encoding was recognised. */
  predicate SameMessage(p: Parser, q: Parser) {
    q == p.(headerState := q.headerState, index := q.index, usesTransferEncoding := q.usesTransferEncoding)
    && (p.usesTransferEncoding ==> q.usesTransferEncoding)
  }

  lemma SameMessageKeeps(s: Settings, p: Parser, q: Parser)
    requires Core(s, p) && (InName(p) || InValue(p)) && SameMessage(p, q)
    requires HeaderKnown(q) && IndexFits(q) &&
      !(InValue(q) && q.headerState.ContentLengthNum? && !q.flags.contentLength)
    ensures Core(s, q)
  {
    hide HeaderKnown, IndexFits;
  }

  lemma NameStepMatches(p: Parser, c: byte)
    requires InName(p) && HeaderKnown(p) && IndexFits(p)
    ensures
      var q := NameStep(p, c);
      SameMessage(p, q) && HeaderKnown(q) && IndexFits(q)
  {
    NameStepIndex(p, c);
    hide IndexFits, WordState;
  }

  lemma NameStepIndex(p: Parser, c: byte)
    requires InName(p) && IndexFits(p)
    ensures IndexFits(NameStep(p, c))
  {
    hide WordState;
  }

  lemma NameStepKeeps(s: Settings, p: Parser, c: byte)
    requires Core(s, p) && InName(p)
    ensures Core(s, NameStep(p, c)) && InName(NameStep(p, c)) && NameStep(p, c).nread == p.nread
  {
    hide NameStep, Framed, Measured, HeaderKnown, IndexFits;
    NameStepMatches(p, c);
    SameMessageKeeps(s, p, NameStep(p, c));
  }

  lemma ValueStartKeeps(s: Settings, p: Parser, ch: byte)
    requires HeadersRead(s, p) && (EncodingHeader(p.headerState) ==> p.usesTransferEncoding)
    ensures Kept(s, ExecHeaderValueStart(p, ch))
  {
    hide HeaderKnown, IndexFits, Lower, Measured;
    if !ExecHeaderValueStart(p, ch).Error? {
      ValueStartMatches(p, ch);
      ValueStartMeasured(p, ch);
    }
  }

  lemma ValueStartMatches(p: Parser, ch: byte)
    requires (EncodingHeader(p.headerState) ==> p.usesTransferEncoding) && !ExecHeaderValueStart(p, ch).Error?
    ensures HeaderKnown(ExecHeaderValueStart(p, ch).parser) && IndexFits(ExecHeaderValueStart(p, ch).parser)
  {
    hide Lower;
  }

  lemma ValueStartMeasured(p: Parser, ch: byte)
    requires Measured(p.(state := AtHeader(HeadersAlmostDone))) && !ExecHeaderValueStart(p, ch).Error?
    ensures Measured(ExecHeaderValueStart(p, ch).parser)
  {
    hide Lower;
  }

  /** Besides the header matching, the length and the connection flags may change. */
  predicate SameFraming(p: Parser, q: Parser) {
    && q == p.(headerState := q.headerState, index := q.index, flags := q.flags, contentLength := q.contentLength)
    && q.flags == p.flags.(keepAlive := q.flags.keepAlive, close := q.flags.close, connectionUpgrade :=
      q.flags.connectionUpgrade)
  }

  lemma SameFramingKeeps(s: Settings, p: Parser, q: Parser)
    requires Core(s, p) && InValue(p) && SameFraming(p, q)
    requires q.contentLength == p.contentLength || (p.flags.contentLength && q.contentLength < NO_LENGTH)
    requires q.headerState.ContentLengthNum? ==> p.headerState.ContentLengthNum?
    requires HeaderKnown(q) && IndexFits(q)
    ensures Core(s, q)
  {
    hide HeaderKnown, IndexFits;
  }

  lemma ValueStepMatches(p: Parser, ch: byte)
    requires InValue(p) && HeaderKnown(p) && IndexFits(p) && ValueStep(p, ch).Some? && !p.headerState.ContentLengthNum?
    ensures
      var q := ValueStep(p, ch).value;
      && SameFraming(p, q) && HeaderKnown(q) && IndexFits(q)
      && q.contentLength == p.contentLength && !q.headerState.ContentLengthNum?
  {
    hide Token, Lower, IndexFits, WordState, TokenStart;
    ValueStepIndex(p, ch);
  }

  lemma ValueStepIndex(p: Parser, ch: byte)
    requires InValue(p) && IndexFits(p) && ValueStep(p, ch).Some?
    ensures IndexFits(ValueStep(p, ch).value)
  {
    hide Token, Lower, WordState, TokenStart;
  }

  lemma LengthStepMatches(p: Parser, ch: byte)
    requires InValue(p) && HeaderKnown(p) && p.headerState.ContentLengthNum? && ValueStep(p, ch).Some?
    ensures
      var q := ValueStep(p, ch).value;
      && SameFraming(p, q) && HeaderKnown(q) && IndexFits(q)
      && (q.contentLength == p.contentLength || q.contentLength < NO_LENGTH)
  {
  }

  lemma ValueStepKeeps(s: Settings, p: Parser, ch: byte)
    requires Core(s, p) && InValue(p)
    ensures ValueStep(p, ch).Some? ==>
              Core(s, ValueStep(p, ch).value) && InValue(ValueStep(p, ch).value) &&
                ValueStep(p, ch).value.nread == p.nread
  {
    hide ValueStep, Framed, HeaderKnown, IndexFits;
    if ValueStep(p, ch).Some? {
      if p.headerState.ContentLengthNum? { LengthStepMatches(p, ch); } else { ValueStepMatches(p, ch); }
      SameFramingKeeps(s, p, ValueStep(p, ch).value);
    }
  }

  lemma ValueDoneKeeps(s: Settings, p: Parser)
    requires HeadersRead(s, p) && (EncodingHeader(p.headerState) ==> p.usesTransferEncoding)
    ensures HeadersRead(s, ValueDone(p))
  {
  }

  lemma ReadSoFar(s: Settings, p: Parser)
    requires Core(s, p) && p.state.AtHeader? && p.nread >= 1
    ensures HeadersRead(s, p) && !p.state.header.HeaderValueStart? && !p.state.header.HeadersDone?
    ensures InField(p.state) && EncodingHeader(p.headerState) ==> p.usesTransferEncoding
  {
  }

  /** Moving on within a header, other than into its name or value. */
  lemma StageKeeps(s: Settings, p: Parser, next: HeaderStage)
    requires Core(s, p) && InField(p.state) && p.nread >= 1
    requires next.HeaderValueDiscardWs? || next.HeaderValueDiscardWsAlmostDone? || next.HeaderValueDiscardLws? ||
      next.HeaderAlmostDone?
             || next.HeaderValueLws?
    ensures Valid(s, p.(state := AtHeader(next)))
  {
  }

  lemma HeaderKeeps(s: Settings, p: Parser, header: HeaderStage, ch: byte)
    requires Core(s, p) && p.state == AtHeader(header) && p.nread >= 1
    ensures Kept(s, ExecHeader(s, p, header, ch))
  {
    ReadSoFar(s, p);
    hide NameStep, ValueStep, ExecHeaderFieldStart, ExecHeaderValueStart, ExecHeadersAlmostDone, ExecHeadersDone,
      ValueDone, Token, IsHeaderChar, HeadersRead, Core, EncodingHeader;
    match header
    case HeaderFieldStart => FieldStartKeeps(s, p, ch);
    case HeaderField =>
      NameStepKeeps(s, p, Token(ch));
      StageKeeps(s, p, HeaderValueDiscardWs);
    case HeaderValueDiscardWs =>
      ValueStartKeeps(s, p, ch);
      StageKeeps(s, p, HeaderValueDiscardWs);
      StageKeeps(s, p, HeaderValueDiscardWsAlmostDone);
      StageKeeps(s, p, HeaderValueDiscardLws);
    case HeaderValueDiscardWsAlmostDone => StageKeeps(s, p, HeaderValueDiscardLws);
    case HeaderValueDiscardLws =>
      StageKeeps(s, p, HeaderValueDiscardWs);
      DoneThenStart(s, p, ch);
    case HeaderValue =>
      ValueStepKeeps(s, p, ch);
      StageKeeps(s, p, HeaderAlmostDone);
      StageKeeps(s, p, HeaderValueLws);
    case HeaderValueLws =>
      DoneThenStart(s, p, ch);
      Refolded(s, p, ch);
    case HeaderAlmostDone => StageKeeps(s, p, HeaderValueLws);
    case HeadersAlmostDone => HeadersAlmostDoneKeeps(s, p, ch);
    case _ =>
  }

  lemma DoneThenStart(s: Settings, p: Parser, ch: byte)
    requires HeadersRead(s, p) && (EncodingHeader(p.headerState) ==> p.usesTransferEncoding)
    ensures Kept(s, ExecHeaderFieldStart(s, ValueDone(p).(state := AtHeader(HeaderFieldStart)), ch))
  {
    hide ExecHeaderFieldStart, Kept, ValueDone, Framed, Measured;
    ValueDoneKeeps(s, p);
    FieldStartKeeps(s, ValueDone(p).(state := AtHeader(HeaderFieldStart)), ch);
  }

  lemma Refolded(s: Settings, p: Parser, ch: byte)
    requires HeadersRead(s, p) && (EncodingHeader(p.headerState) ==> p.usesTransferEncoding)
    ensures Kept(s, ExecHeaderValueStart(p.(headerState :=
      if p.headerState.ContentLengthNum? then ContentLengthWs else p.headerState), ch))
  {
    hide ExecHeaderValueStart, Kept;
    ValueStartKeeps(s, p.(headerState := if p.headerState.ContentLengthNum? then ContentLengthWs else p.headerState),
      ch);
  }

  lemma ChunkKeeps(s: Settings, p: Parser, chunk: ChunkState, ch: byte)
    requires Core(s, p) && p.state == AtChunk(chunk)
    ensures Kept(s, ExecChunk(p, chunk, ch))
  {
    hide Unhex, HeaderKnown, IndexFits, Measured;
    if !ExecChunk(p, chunk, ch).Error? { ChunkMeasured(p, chunk, ch); }
  }

  lemma ChunkMeasured(p: Parser, chunk: ChunkState, ch: byte)
    requires Measured(p) && p.state == AtChunk(chunk) && !ExecChunk(p, chunk, ch).Error?
    ensures
      var q := ExecChunk(p, chunk, ch).parser;
      Measured(q) && HeaderKnown(q) && IndexFits(q)
  {
    hide Unhex;
  }

  lemma BodyKeeps(s: Settings, p: Parser, body: BodyState, ch: byte)
    requires Core(s, p) && p.state == AtBody(body)
    ensures Kept(s, ExecBody(p, body, ch))
  {
    hide ExecMessageDone;
    if body.BodyIdentity? { MessageDoneKeeps(s, BodyRead(p, 1)); }
  }

  lemma ExecKeeps(s: Settings, p: Parser, ch: byte)
    requires Core(s, p) && (p.state.AtHeader? ==> p.nread >= 1)
    ensures Kept(s, Exec(s, p, ch))
  {
    hide ExecStart, ExecStatusLine, ExecRequestLine, ExecUrl, ExecHeader, ExecChunk, ExecBody, Core;
    match p.state
    case AtStart(start) => StartKeeps(s, p, start, ch);
    case AtHeader(header) => HeaderKeeps(s, p, header, ch);
    case AtChunk(chunk) => ChunkKeeps(s, p, chunk, ch);
    case AtBody(body) => BodyKeeps(s, p, body, ch);
    case _ => LineKeeps(s, p, ch);
  }

  // --- all runs ---

  lemma ConsumeKeeps(s: Settings, p: Parser, ch: byte)
    requires Valid(s, p)
    ensures Kept(s, Consume(s, p, ch))
  {
    hide Exec;
    assert Core(s, Counted(p));
    ExecKeeps(s, Counted(p), ch);
  }

  lemma {:induction false} RunKeeps(s: Settings, r: Run, data: ByteString, at: nat)
    requires at <= |data| && Valid(s, r.parser)
    ensures Valid(s, RunFrom(s, r, data, at).run.parser)
    decreases |data| - at
  {
    hide Valid, Consume, Report;
    if at < |data| && !Stopped(r) {
      ConsumeKeeps(s, r.parser, data[at]);
      var r1 := StepRun(s, r, data[at]);
      if r1.errno.NoError? { RunKeeps(s, r1, data, at + 1); }
    }
  }

  /** Every run from a new parser. */
  lemma AlwaysValid(s: Settings, kind: Kind, data: ByteString)
    ensures Valid(s, RunFrom(s, Initial(kind), data, 0).run.parser)
  {
    RunKeeps(s, Initial(kind), data, 0);
  }

  /** The asserts of the HTTP parser, at a byte that is counted. */
  predicate AssertsHold(p: Parser) {
    && (InName(p) ==> NameState(p.headerState))
    && (InValue(p) ==> !p.headerState.Connection? && !p.headerState.TransferEncoding?)
    && (p.state == AtBody(BodyIdentity) || p.state == AtChunk(ChunkData) ==>
      p.contentLength != 0 && p.contentLength != NO_LENGTH)
    && (p.state == AtChunk(ChunkSizeStart) ==> p.nread == 1)
    && (p.state.AtChunk? ==> p.flags.chunked)
    && (p.state == AtChunk(ChunkDataAlmostDone) ==> p.contentLength == 0)
  }

  /** On every run from a new parser all asserts of the HTTP parser hold, and no body has two framings. */
  lemma NoAssertFails(s: Settings, kind: Kind, data: ByteString)
    ensures
      var p := RunFrom(s, Initial(kind), data, 0).run.parser;
      && AssertsHold(Counted(p))
      && (p.flags.chunked ==> p.usesTransferEncoding)
      && (p.state == AtBody(BodyIdentity) ==> !p.usesTransferEncoding)
      && (p.state.AtChunk? && !s.allowChunkedLength ==> !p.flags.contentLength)
      && (p.state == AtBody(BodyIdentityEof) && p.usesTransferEncoding ==> s.lenient || p.kind.Response?)
  {
    hide RunFrom;
    AlwaysValid(s, kind, data);
  }
}
