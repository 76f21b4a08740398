/** The HTTP parser, one byte at a time. */
module HttpMachine {
  import opened Outcomes
  import opened Bytes
  import opened HttpChars

  datatype Kind = Request | Response | Either

  // The states, by the part of the message they read.
  datatype StartState = Dead | StartReqOrRes | ResOrRespH | StartRes | StartReq

  datatype StatusState =
    | ResH | ResHT | ResHTT | ResHTTP | ResMajor | ResDot | ResMinor | ResEnd
    | ResFirstStatusCode | ResStatusCode | ResStatusStart | ResStatus | ResLineAlmostDone

  datatype LineState =
    | ReqMethod | ReqHttpStart | ReqHttpH | ReqHttpHT | ReqHttpHTT | ReqHttpHTTP | ReqHttpI | ReqHttpIC
    | ReqMajor | ReqDot | ReqMinor | ReqEnd | ReqLineAlmostDone

  /** The states of a URL; UrlDead is the parser's dead state as the answer of its URL functions. */
  datatype UrlState =
    | UrlDead | ReqSpacesBeforeUrl | ReqSchema | ReqSchemaSlash | ReqSchemaSlashSlash | ReqServerStart | ReqServer |
      ReqServerWithAt
    | ReqPath | ReqQueryStringStart | ReqQueryString | ReqFragmentStart | ReqFragment

  datatype HeaderStage =
    | HeaderFieldStart | HeaderField | HeaderValueDiscardWs | HeaderValueDiscardWsAlmostDone | HeaderValueDiscardLws
    | HeaderValueStart | HeaderValue | HeaderValueLws | HeaderAlmostDone | HeadersAlmostDone | HeadersDone

  datatype ChunkState = ChunkSizeStart | ChunkSize | ChunkParameters | ChunkSizeAlmostDone | ChunkData |
    ChunkDataAlmostDone | ChunkDataDone

  datatype BodyState = BodyIdentity | BodyIdentityEof | MessageDone

  datatype State =
    | AtStart(start: StartState)
    | AtStatus(status: StatusState)
    | AtLine(line: LineState)
    | AtUrl(url: UrlState)
    | AtHeader(header: HeaderStage)
    | AtChunk(chunk: ChunkState)
    | AtBody(body: BodyState)

  /** What the header in progress is known to be. */
  datatype HeaderState =
    | General | LetterC | LettersCO | LettersCON
    | MatchingConnection | MatchingProxyConnection | MatchingContentLength | MatchingTransferEncoding | MatchingUpgrade
    | Connection | ContentLength | ContentLengthNum | ContentLengthWs | TransferEncoding | Upgrade
    | EncodingTokenStart | MatchingChunked | EncodingToken
    | ConnectionTokenStart | MatchingKeepAlive | MatchingClose | MatchingUpgradeToken | ConnectionToken
    | EncodingChunked | ConnectionKeepAlive | ConnectionClose | ConnectionUpgrade

  datatype Errno =
    | NoError
    | InvalidEofState | HeaderOverflow | ClosedConnection | InvalidVersion | InvalidStatus | InvalidMethod | InvalidUrl
    | LfExpected | InvalidHeaderToken | InvalidContentLength | UnexpectedContentLength | InvalidChunkSize
    | InvalidConstant | InvalidInternalState | Strict | InvalidTransferEncoding

  /** The F_ flags. */
  datatype Flags = Flags(chunked: bool, keepAlive: bool, close: bool, connectionUpgrade: bool, trailing: bool,
                         upgrade: bool,
                         skipBody: bool, contentLength: bool)

  /** The numbers of the request or status line. */
  datatype FirstLine = FirstLine(major: nat, minor: nat, statusCode: nat, verb: nat)

  datatype Parser = Parser(
    kind: Kind, state: State, headerState: HeaderState, index: nat, usesTransferEncoding: bool, nread: nat,
      contentLength: nat,
    first: FirstLine, flags: Flags, upgrade: bool)

  const NO_FLAGS := Flags(false, false, false, false, false, false, false, false)

  /**
   * What the headers-complete callback answers: the message has a body as announced, none, or none and nothing
   * after it.
   */
  datatype Answer = AsAnnounced | NoBody | NoBodyNorMore

  /**
   * The method names: the verb a first letter stands for, the verbs other letters lead to, and whether a name is
   * complete.
   */
  datatype Methods = Methods(first: byte -> Option<nat>, next: (nat, nat, byte) -> Option<nat>,
                             complete: (nat, nat) -> bool)

  datatype Settings = Settings(maxHeaderSize: nat, lenient: bool, allowChunkedLength: bool, methods: Methods,
                               answer: Parser -> Answer)

  const NO_LENGTH: nat := 0xffff_ffff_ffff_ffff
  const METHOD_HEAD: nat := 2
  const METHOD_CONNECT: nat := 5
  const METHOD_SOURCE: nat := 33

  // --- callbacks ---

  datatype Field = Url | Status | HeaderName | HeaderText | Body

  datatype Notice = MessageBegin | HeadersComplete | MessageComplete | ChunkHeader | ChunkComplete

  datatype Event = Data(field: Field, bytes: ByteString) | Notify(notice: Notice)

  /** The trace of callbacks; data of the same field in a row is one piece. */
  function Add(trace: seq<Event>, e: Event): seq<Event> {
    if e.Data? && trace != [] && trace[|trace| - 1].Data? && trace[|trace| - 1].field == e.field then
      trace[..|trace| - 1] + [Data(e.field, trace[|trace| - 1].bytes + e.bytes)]
    else trace + [e]
  }

  /**
   * What a byte does to the marks: it belongs to a field, whose mark is set if it is not; a mark is set; a
   * marked field is over, and is reported even when empty; it is over, and reported if marked; a notice is sent.
   */
  datatype Act = Keep(field: Field) | Mark(field: Field) | Close(field: Field) | Flush(field: Field) |
    Send(notice: Notice)

  /** Go on after a byte, leave because the connection is upgraded, or fail. */
  datatype Outcome =
    | Next(parser: Parser, acts: seq<Act>)
    | Exit(parser: Parser, acts: seq<Act>)
    | Error(errno: Errno, acts: seq<Act>)

  function Fail(e: Errno): Outcome { Error(e, []) }

  function To(p: Parser, s: State): Outcome { Next(p.(state := s), []) }

  function After(acts: seq<Act>, o: Outcome): Outcome {
    match o
    case Next(p, more) => Next(p, acts + more)
    case Exit(p, more) => Exit(p, acts + more)
    case Error(e, more) => Error(e, acts + more)
  }

  function StrictTo(p: Parser, ch: byte, want: int, s: State): Outcome { if ch == want then To(p, s) else Fail(Strict) }

  // --- message boundaries ---

  predicate NeedsEof(p: Parser) {
    if p.kind.Request? then false
    else if p.first.statusCode / 100 == 1 || p.first.statusCode == 204 || p.first.statusCode == 304 ||
      p.flags.skipBody then false
    else if p.usesTransferEncoding && !p.flags.chunked then true
    else if p.flags.chunked || p.contentLength != NO_LENGTH then false
    else true
  }

  predicate ShouldKeepAlive(p: Parser) {
    (if p.first.major > 0 && p.first.minor > 0 then !p.flags.close else p.flags.keepAlive) && !NeedsEof(p)
  }

  function NewMessage(p: Parser): State {
    if ShouldKeepAlive(p) then (if p.kind.Request? then AtStart(StartReq) else AtStart(StartRes)) else AtStart(Dead)
  }

  function Complete(p: Parser): Outcome { Next(p.(state := NewMessage(p)), [Send(MessageComplete)]) }

  function ExecMessageDone(p: Parser): Outcome {
    var p1 := p.(state := NewMessage(p));
    if p.upgrade then Exit(p1, [Send(MessageComplete)]) else Next(p1, [Send(MessageComplete)])
  }

  /** The fields a new message resets. */
  function Fresh(p: Parser): Parser {
    p.(flags := NO_FLAGS, usesTransferEncoding := false, contentLength := NO_LENGTH)
  }

  // --- request and status lines ---

  function ExecStartReq(s: Settings, p: Parser, ch: byte): Outcome {
    if ch == CR || ch == LF then Next(p.(state := AtStart(StartReq)), [])
    else if !IsAlpha(ch) then Fail(InvalidMethod)
    else match s.methods.first(ch)
      case None => Fail(InvalidMethod)
      case Some(m) =>
        Next(Fresh(p).(first := p.first.(verb := m), index := 1, state := AtLine(ReqMethod)), [Send(MessageBegin)])
  }

  function ExecStart(s: Settings, p: Parser, start: StartState, ch: byte): Outcome {
    match start
    case Dead => if ch == CR || ch == LF then Next(p, []) else Fail(ClosedConnection)
    case StartReqOrRes =>
      if ch == CR || ch == LF then Next(p, [])
      else if ch == 'H' as int then Next(Fresh(p).(state := AtStart(ResOrRespH)), [Send(MessageBegin)])
      else ExecStartReq(s, Fresh(p).(kind := Request), ch)
    case ResOrRespH =>
      if ch == 'T' as int then To(p.(kind := Response), AtStatus(ResHT))
      else if ch == 'E' as int then
        To(p.(kind := Request, first := p.first.(verb := METHOD_HEAD), index := 2), AtLine(ReqMethod))
      else Fail(InvalidConstant)
    case StartRes =>
      if ch == CR || ch == LF then Next(p, [])
      else if ch == 'H' as int then Next(Fresh(p).(state := AtStatus(ResH)), [Send(MessageBegin)])
      else Fail(InvalidConstant)
    case _ => ExecStartReq(s, p, ch)
  }

  function ExecStatus(p: Parser, ch: byte): Outcome {
    if ch == CR then Next(p.(state := AtStatus(ResLineAlmostDone)), [Close(Status)])
    else if ch == LF then Next(p.(state := AtHeader(HeaderFieldStart)), [Close(Status)])
    else Next(p, [Keep(Status)])
  }

  function ExecStatusStart(p: Parser, ch: byte): Outcome {
    var p1 := p.(state := AtStatus(ResStatus), index := 0);
    if ch == CR || ch == LF then After([Mark(Status)], ExecStatus(p1, ch)) else Next(p1, [Keep(Status)])
  }

  function ExecStatusLine(p: Parser, status: StatusState, ch: byte): Outcome {
    match status
    case ResH => StrictTo(p, ch, 'T' as int, AtStatus(ResHT))
    case ResHT => StrictTo(p, ch, 'T' as int, AtStatus(ResHTT))
    case ResHTT => StrictTo(p, ch, 'P' as int, AtStatus(ResHTTP))
    case ResHTTP => StrictTo(p, ch, '/' as int, AtStatus(ResMajor))
    case ResMajor =>
      if IsNum(ch) then To(p.(first := p.first.(major := ch - '0' as int)), AtStatus(ResDot)) else Fail(InvalidVersion)
    case ResDot => if ch == DOT then To(p, AtStatus(ResMinor)) else Fail(InvalidVersion)
    case ResMinor =>
      if IsNum(ch) then To(p.(first := p.first.(minor := ch - '0' as int)), AtStatus(ResEnd)) else Fail(InvalidVersion)
    case ResEnd => if ch == SP then To(p, AtStatus(ResFirstStatusCode)) else Fail(InvalidVersion)
    case ResFirstStatusCode =>
      if IsNum(ch) then To(p.(first := p.first.(statusCode := ch - '0' as int)), AtStatus(ResStatusCode))
      else if ch == SP then Next(p, [])
      else Fail(InvalidStatus)
    case ResStatusCode =>
      if IsNum(ch) then
        var code := p.first.statusCode * 10 + (ch - '0' as int);
        if code > 999 then Fail(InvalidStatus) else Next(p.(first := p.first.(statusCode := code)), [])
      else if ch == SP then To(p, AtStatus(ResStatusStart))
      else if ch == CR || ch == LF then ExecStatusStart(p, ch)
      else Fail(InvalidStatus)
    case ResStatusStart => ExecStatusStart(p, ch)
    case ResStatus => ExecStatus(p, ch)
    case _ => StrictTo(p, ch, LF, AtHeader(HeaderFieldStart))
  }

  // --- the URL ---

  function UrlServer(ch: byte): UrlState {
    if ch == SLASH then ReqPath
    else if ch == '?' as int then ReqQueryStringStart
    else if ch == '@' as int then ReqServerWithAt
    else if IsUserinfoChar(ch) || ch == '[' as int || ch == ']' as int then ReqServer
    else UrlDead
  }

  /** The next state of the URL; UrlDead for a character that cannot be there. */
  function ParseUrlChar(s: UrlState, ch: byte): (r: UrlState)
    ensures !r.ReqSpacesBeforeUrl? && (s.UrlDead? ==> r.UrlDead?)
  {
    if ch == SP || ch == CR || ch == LF || ch == TAB || ch == FF then UrlDead
    else match s
      case ReqSpacesBeforeUrl =>
        if ch == SLASH || ch == '*' as int then ReqPath else if IsAlpha(ch) then ReqSchema else UrlDead
      case ReqSchema => if IsSchemaChar(ch) then ReqSchema else if ch == COLON then ReqSchemaSlash else UrlDead
      case ReqSchemaSlash => if ch == SLASH then ReqSchemaSlashSlash else UrlDead
      case ReqSchemaSlashSlash => if ch == SLASH then ReqServerStart else UrlDead
      case ReqServerWithAt => if ch == '@' as int then UrlDead else UrlServer(ch)
      case ReqServerStart => UrlServer(ch)
      case ReqServer => UrlServer(ch)
      case ReqPath =>
        if IsUrlChar(ch) then ReqPath
        else if ch == '?' as int then ReqQueryStringStart
        else if ch == '#' as int then ReqFragmentStart
        else UrlDead
      case ReqQueryStringStart =>
        if IsUrlChar(ch) || ch == '?' as int then ReqQueryString
        else if ch == '#' as int then ReqFragmentStart
        else UrlDead
      case ReqQueryString =>
        if IsUrlChar(ch) || ch == '?' as int then ReqQueryString
        else if ch == '#' as int then ReqFragmentStart
        else UrlDead
      case ReqFragmentStart =>
        if IsUrlChar(ch) || ch == '?' as int then ReqFragment
        else if ch == '#' as int then ReqFragmentStart
        else UrlDead
      case ReqFragment => if IsUrlChar(ch) || ch == '?' as int || ch == '#' as int then ReqFragment else UrlDead
      case _ => UrlDead
  }

  /** The URL may end here. */
  predicate MayEnd(u: UrlState) {
    || u.ReqServer? || u.ReqServerWithAt? || u.ReqPath? || u.ReqQueryStringStart? || u.ReqQueryString?
    || u.ReqFragmentStart? || u.ReqFragment?
  }

  function UrlByte(p: Parser, from: UrlState, ch: byte): Outcome {
    var u := ParseUrlChar(from, ch);
    if u.UrlDead? then Fail(InvalidUrl) else Next(p.(state := AtUrl(u)), [Keep(Url)])
  }

  function ExecUrl(p: Parser, url: UrlState, ch: byte): Outcome {
    if url.ReqSpacesBeforeUrl? then
      if ch == SP then Next(p, [])
      else UrlByte(p, if p.first.verb == METHOD_CONNECT then ReqServerStart else ReqSpacesBeforeUrl, ch)
    else if MayEnd(url) && ch == SP then Next(p.(state := AtLine(ReqHttpStart)), [Close(Url)])
    else if MayEnd(url) && (ch == CR || ch == LF) then
      Next(p.(first := p.first.(major := 0, minor := 9), state :=
        if ch == CR then AtLine(ReqLineAlmostDone) else AtHeader(HeaderFieldStart)), [Close(Url)])
    else UrlByte(p, url, ch)
  }

  function ExecMethod(s: Settings, p: Parser, ch: byte): Outcome {
    if ch == SP && s.methods.complete(p.first.verb, p.index) then
      To(p.(index := p.index + 1), AtUrl(ReqSpacesBeforeUrl))
    else match s.methods.next(p.first.verb, p.index, ch)
      case None => Fail(InvalidMethod)
      case Some(m) => Next(p.(first := p.first.(verb := m), index := p.index + 1), [])
  }

  function ExecRequestLine(s: Settings, p: Parser, line: LineState, ch: byte): Outcome {
    match line
    case ReqMethod => ExecMethod(s, p, ch)
    case ReqHttpStart =>
      if ch == SP then Next(p, [])
      else if ch == 'H' as int then To(p, AtLine(ReqHttpH))
      else if ch == 'I' as int && p.first.verb == METHOD_SOURCE then To(p, AtLine(ReqHttpI))
      else Fail(InvalidConstant)
    case ReqHttpH => StrictTo(p, ch, 'T' as int, AtLine(ReqHttpHT))
    case ReqHttpHT => StrictTo(p, ch, 'T' as int, AtLine(ReqHttpHTT))
    case ReqHttpHTT => StrictTo(p, ch, 'P' as int, AtLine(ReqHttpHTTP))
    case ReqHttpI => StrictTo(p, ch, 'C' as int, AtLine(ReqHttpIC))
    case ReqHttpIC => StrictTo(p, ch, 'E' as int, AtLine(ReqHttpHTTP))
    case ReqHttpHTTP => StrictTo(p, ch, '/' as int, AtLine(ReqMajor))
    case ReqMajor =>
      if IsNum(ch) then To(p.(first := p.first.(major := ch - '0' as int)), AtLine(ReqDot)) else Fail(InvalidVersion)
    case ReqDot => if ch == DOT then To(p, AtLine(ReqMinor)) else Fail(InvalidVersion)
    case ReqMinor =>
      if IsNum(ch) then To(p.(first := p.first.(minor := ch - '0' as int)), AtLine(ReqEnd)) else Fail(InvalidVersion)
    case ReqEnd =>
      if ch == CR then To(p, AtLine(ReqLineAlmostDone))
      else if ch == LF then To(p, AtHeader(HeaderFieldStart))
      else Fail(InvalidVersion)
    case _ => if ch == LF then To(p, AtHeader(HeaderFieldStart)) else Fail(LfExpected)
  }

  // --- the end of the headers ---

  function ExecHeadersDone(s: Settings, p0: Parser): Outcome {
    var p := p0.(nread := 0);
    var hasBody := p.flags.chunked || (p.contentLength > 0 && p.contentLength != NO_LENGTH);
    if p.upgrade && (p.first.verb == METHOD_CONNECT || p.flags.skipBody || !hasBody) then
      Exit(p.(state := NewMessage(p)), [Send(MessageComplete)])
    else if p.flags.skipBody then Complete(p)
    else if p.flags.chunked then To(p, AtChunk(ChunkSizeStart))
    else if p.usesTransferEncoding then
      if p.kind.Request? && !s.lenient then Fail(InvalidTransferEncoding) else To(p, AtBody(BodyIdentityEof))
    else if p.contentLength == 0 then Complete(p)
    else if p.contentLength != NO_LENGTH then To(p, AtBody(BodyIdentity))
    else if !NeedsEof(p) then Complete(p)
    else To(p, AtBody(BodyIdentityEof))
  }

  /** A length next to a transfer encoding, section 3.3.3 of RFC 7230. */
  predicate LengthConflict(s: Settings, p: Parser) {
    p.usesTransferEncoding && p.flags.contentLength && if p.flags.chunked then !s.allowChunkedLength else !s.lenient
  }

  predicate Upgrades(p: Parser) {
    if p.flags.upgrade && p.flags.connectionUpgrade then p.kind.Request? || p.first.statusCode == 101
    else p.first.verb == METHOD_CONNECT
  }

  function Answered(p: Parser, a: Answer): Parser {
    match a
    case AsAnnounced => p
    case NoBody => p.(flags := p.flags.(skipBody := true))
    case NoBodyNorMore => p.(upgrade := true, flags := p.flags.(skipBody := true))
  }

  function ExecHeadersAlmostDone(s: Settings, p: Parser, ch: byte): Outcome {
    if ch != LF then Fail(Strict)
    else if p.flags.trailing then After([Send(ChunkComplete)], ExecMessageDone(p.(state := AtBody(MessageDone))))
    else if LengthConflict(s, p) then Fail(UnexpectedContentLength)
    else
      var p1 := p.(state := AtHeader(HeadersDone), upgrade := Upgrades(p));
      After([Send(HeadersComplete)], ExecHeadersDone(s, Answered(p1, s.answer(p1))))
  }

  // --- header fields ---

  function FirstOfName(c: byte): HeaderState {
    if c == 'c' as int then LetterC
    else if c == 'p' as int then MatchingProxyConnection
    else if c == 't' as int then MatchingTransferEncoding
    else if c == 'u' as int then MatchingUpgrade
    else General
  }

  function ExecHeaderFieldStart(s: Settings, p: Parser, ch: byte): Outcome {
    if ch == CR then To(p, AtHeader(HeadersAlmostDone))
    else if ch == LF then ExecHeadersAlmostDone(s, p.(state := AtHeader(HeadersAlmostDone)), ch)
    else if Token(ch) == 0 then Fail(InvalidHeaderToken)
    else Next(p.(index := 0, state := AtHeader(HeaderField), headerState := FirstOfName(Token(ch))), [Keep(HeaderName)])
  }

  /** The next character of a word is matched: all of the word is there, more is to come, or it is another word. */
  function WordState(i: nat, word: string, c: byte, here: HeaderState, all: HeaderState,
                     other: HeaderState): (h: HeaderState)
    ensures h == other || h == all || (h == here && i + 1 < |word|)
  {
    if i >= |word| || c != word[i] as int then other else if i == |word| - 1 then all else here
  }

  function Letter(c: byte, letter: char, h: HeaderState): HeaderState { if c == letter as int then h else General }

  /** The state after one more character of a header name, in lower case; i is its place in the name. */
  function NextName(h: HeaderState, i: nat, c: byte): HeaderState {
    match h
    case LetterC => Letter(c, 'o', LettersCO)
    case LettersCO => Letter(c, 'n', LettersCON)
    case LettersCON => if c == 'n' as int then MatchingConnection else Letter(c, 't', MatchingContentLength)
    case MatchingConnection => WordState(i, "connection", c, h, Connection, General)
    case MatchingProxyConnection => WordState(i, "proxy-connection", c, h, Connection, General)
    case MatchingContentLength => WordState(i, "content-length", c, h, ContentLength, General)
    case MatchingTransferEncoding => WordState(i, "transfer-encoding", c, h, TransferEncoding, General)
    case MatchingUpgrade => WordState(i, "upgrade", c, h, Upgrade, General)
    case _ => General
  }

  /** The states in which the place in the word is counted. */
  predicate CountsPlace(h: HeaderState) {
    || h.LetterC? || h.LettersCO? || h.LettersCON?
    || h.MatchingConnection? || h.MatchingProxyConnection? || h.MatchingContentLength? || h.MatchingTransferEncoding? ||
      h.MatchingUpgrade?
    || h.MatchingChunked? || h.MatchingKeepAlive? || h.MatchingClose? || h.MatchingUpgradeToken?
  }

  /** One more character of a header name. */
  function NameStep(p: Parser, c: byte): Parser {
    var h := NextName(p.headerState, p.index + 1, c);
    p.(headerState := h, index := if CountsPlace(p.headerState) then p.index + 1 else p.index,
       usesTransferEncoding := p.usesTransferEncoding || h.TransferEncoding?)
  }

  function ExecHeaderField(p: Parser, ch: byte): Outcome {
    var c := Token(ch);
    if c != 0 then Next(NameStep(p, c), [Keep(HeaderName)])
    else if ch == COLON then Next(p.(state := AtHeader(HeaderValueDiscardWs)), [Close(HeaderName)])
    else Fail(InvalidHeaderToken)
  }

  // --- header values ---

  function ConnectionWord(c: byte, other: HeaderState): HeaderState {
    if c == 'k' as int then MatchingKeepAlive
    else if c == 'c' as int then MatchingClose
    else if c == 'u' as int then MatchingUpgradeToken
    else other
  }

  function ExecHeaderValueStart(p0: Parser, ch: byte): Outcome {
    var p := p0.(state := AtHeader(HeaderValue), index := 0);
    match p.headerState
    case Upgrade => Next(p.(flags := p.flags.(upgrade := true), headerState := General), [Keep(HeaderText)])
    case TransferEncoding =>
      Next(p.(headerState := if Lower(ch) == 'c' as int then MatchingChunked else EncodingToken), [Keep(HeaderText)])
    case ContentLength =>
      if !IsNum(ch) then Fail(InvalidContentLength)
      else if p.flags.contentLength then Fail(UnexpectedContentLength)
      else Next(p.(flags := p.flags.(contentLength := true), contentLength := ch - '0' as int, headerState :=
        ContentLengthNum), [Keep(HeaderText)])
    case Connection => Next(p.(headerState := ConnectionWord(Lower(ch), ConnectionToken)), [Keep(HeaderText)])
    case EncodingTokenStart => Next(p, [Keep(HeaderText)])
    case ContentLengthWs => Next(p, [Keep(HeaderText)])
    case ConnectionTokenStart => Next(p, [Keep(HeaderText)])
    case _ => Next(p.(headerState := General), [Keep(HeaderText)])
  }

  /** One more digit, unless the number gets too large. */
  function LengthDigit(p: Parser, ch: byte): Option<Parser> {
    if !IsNum(ch) || p.contentLength > (NO_LENGTH - 10) / 10 then None
    else Some(p.(contentLength := p.contentLength * 10 + (ch - '0' as int)))
  }

  /** The flags a finished value sets. */
  function ValueDone(p: Parser): Parser {
    p.(flags := if p.headerState.EncodingChunked? then p.flags.(chunked := true) else ListFlags(p))
  }

  /** The state at the start of a token of a list, by its first character. */
  function TokenStart(ch: byte, word: HeaderState, here: HeaderState, other: HeaderState): (h: HeaderState)
    ensures h == word || h == here || h == other || h.General?
  {
    var c := Lower(ch);
    if !word.General? then word
    else if Token(c) != 0 then other
    else if c == SP || c == TAB then here
    else General
  }

  function MatchValue(h: HeaderState, i: nat, word: string, ch: byte, all: HeaderState,
                      other: HeaderState): HeaderState {
    WordState(i, word, Lower(ch), h, all, other)
  }

  /** The state after one more character of a value that is not a length. */
  function NextValue(h: HeaderState, i: nat, ch: byte): HeaderState {
    match h
    case EncodingTokenStart =>
      TokenStart(ch, if Lower(ch) == 'c' as int then MatchingChunked else General, h, EncodingToken)
    case MatchingChunked => MatchValue(h, i, "chunked", ch, EncodingChunked, EncodingToken)
    case EncodingToken => if ch == COMMA then EncodingTokenStart else h
    case EncodingChunked => if ch != SP then EncodingToken else h
    case ConnectionTokenStart => TokenStart(ch, ConnectionWord(Lower(ch), General), h, ConnectionToken)
    case MatchingKeepAlive => MatchValue(h, i, "keep-alive", ch, ConnectionKeepAlive, ConnectionToken)
    case MatchingClose => MatchValue(h, i, "close", ch, ConnectionClose, ConnectionToken)
    case MatchingUpgradeToken => MatchValue(h, i, "upgrade", ch, ConnectionUpgrade, ConnectionToken)
    case ConnectionToken => if ch == COMMA then ConnectionTokenStart else h
    case ConnectionKeepAlive => if ch == COMMA then ConnectionTokenStart else if ch != SP then ConnectionToken else h
    case ConnectionClose => if ch == COMMA then ConnectionTokenStart else if ch != SP then ConnectionToken else h
    case ConnectionUpgrade => if ch == COMMA then ConnectionTokenStart else if ch != SP then ConnectionToken else h
    case _ => General
  }

  /** A list goes on behind a comma: the place in the word starts over. */
  predicate StartsOver(h: HeaderState, next: HeaderState) {
    (next.EncodingTokenStart? || next.ConnectionTokenStart?) && h != next
  }

  /** The value may be a length. */
  predicate LengthState(h: HeaderState) { h.ContentLength? || h.ContentLengthNum? || h.ContentLengthWs? }

  function LengthStep(p: Parser, ch: byte): Option<Parser> {
    match p.headerState
    case ContentLength => if ch == SP then Some(p) else LengthDigit(p.(headerState := ContentLengthNum), ch)
    case ContentLengthNum => if ch == SP then Some(p.(headerState := ContentLengthWs)) else LengthDigit(p, ch)
    case _ => if ch == SP then Some(p) else None
  }

  /** One more character of a header value; None where a length is malformed. */
  function ValueStep(p: Parser, ch: byte): Option<Parser> {
    if LengthState(p.headerState) then LengthStep(p, ch)
    else
      var h := NextValue(p.headerState, p.index + 1, ch);
      var i := if StartsOver(p.headerState, h) then 0 else if CountsPlace(p.headerState) then p.index + 1 else p.index;
      Some(p.(headerState := h, index := i, flags := if StartsOver(p.headerState, h) then ListFlags(p) else p.flags))
  }

  /** The flags a word of the Connection header sets. */
  function ListFlags(p: Parser): Flags {
    match p.headerState
    case ConnectionKeepAlive => p.flags.(keepAlive := true)
    case ConnectionClose => p.flags.(close := true)
    case ConnectionUpgrade => p.flags.(connectionUpgrade := true)
    case _ => p.flags
  }

  function ExecHeaderValue(s: Settings, p: Parser, ch: byte): Outcome {
    if ch == CR then Next(p.(state := AtHeader(HeaderAlmostDone)), [Close(HeaderText)])
    else if ch == LF then Next(p.(state := AtHeader(HeaderValueLws)), [Close(HeaderText)])
    else if !s.lenient && !IsHeaderChar(ch) then Fail(InvalidHeaderToken)
    else match ValueStep(p, ch)
      case None => Fail(InvalidContentLength)
      case Some(p1) => Next(p1, [Keep(HeaderText)])
  }

  function ExecHeaderValueLws(s: Settings, p: Parser, ch: byte): Outcome {
    if ch == SP || ch == TAB then
      ExecHeaderValueStart(p.(headerState := if p.headerState.ContentLengthNum? then
        ContentLengthWs else p.headerState), ch)
    else ExecHeaderFieldStart(s, ValueDone(p).(state := AtHeader(HeaderFieldStart)), ch)
  }

  function ExecDiscardLws(s: Settings, p: Parser, ch: byte): Outcome {
    if ch == SP || ch == TAB then To(p, AtHeader(HeaderValueDiscardWs))
    else if p.headerState.ContentLength? then Fail(InvalidContentLength)
    else After([Mark(HeaderText), Close(HeaderText)],
      ExecHeaderFieldStart(s, ValueDone(p).(state := AtHeader(HeaderFieldStart)), ch))
  }

  function ExecHeader(s: Settings, p: Parser, header: HeaderStage, ch: byte): Outcome {
    match header
    case HeaderFieldStart => ExecHeaderFieldStart(s, p, ch)
    case HeaderField => ExecHeaderField(p, ch)
    case HeaderValueDiscardWs =>
      if ch == SP || ch == TAB then Next(p, [])
      else if ch == CR then To(p, AtHeader(HeaderValueDiscardWsAlmostDone))
      else if ch == LF then To(p, AtHeader(HeaderValueDiscardLws))
      else ExecHeaderValueStart(p, ch)
    case HeaderValueDiscardWsAlmostDone => StrictTo(p, ch, LF, AtHeader(HeaderValueDiscardLws))
    case HeaderValueDiscardLws => ExecDiscardLws(s, p, ch)
    case HeaderValueStart => ExecHeaderValueStart(p, ch)
    case HeaderValue => ExecHeaderValue(s, p, ch)
    case HeaderValueLws => ExecHeaderValueLws(s, p, ch)
    case HeaderAlmostDone => if ch == LF then To(p, AtHeader(HeaderValueLws)) else Fail(LfExpected)
    case HeadersAlmostDone => ExecHeadersAlmostDone(s, p, ch)
    case _ => if ch == LF then ExecHeadersDone(s, p) else Fail(Strict)
  }

  // --- bodies ---

  function SizeDigit(p: Parser, d: nat): Outcome {
    if p.contentLength > (NO_LENGTH - 16) / 16 then Fail(InvalidContentLength)
    else Next(p.(contentLength := p.contentLength * 16 + d), [])
  }

  function ExecChunk(p: Parser, chunk: ChunkState, ch: byte): Outcome {
    match chunk
    case ChunkSizeStart =>
      if Unhex(ch) < 0 then Fail(InvalidChunkSize) else To(p.(contentLength := Unhex(ch)), AtChunk(ChunkSize))
    case ChunkSize =>
      if ch == CR then To(p, AtChunk(ChunkSizeAlmostDone))
      else if Unhex(ch) >= 0 then SizeDigit(p, Unhex(ch))
      else if ch == SEMICOLON || ch == SP then To(p, AtChunk(ChunkParameters))
      else Fail(InvalidChunkSize)
    case ChunkParameters => if ch == CR then To(p, AtChunk(ChunkSizeAlmostDone)) else Next(p, [])
    case ChunkSizeAlmostDone =>
      if ch != LF then Fail(Strict)
      else if p.contentLength == 0 then
        Next(p.(nread := 0, flags := p.flags.(trailing := true), state := AtHeader(HeaderFieldStart)),
          [Send(ChunkHeader)])
      else Next(p.(nread := 0, state := AtChunk(ChunkData)), [Send(ChunkHeader)])
    case ChunkData => Next(BodyRead(p, 1), [Keep(Body)])
    case ChunkDataAlmostDone =>
      if ch == CR then Next(p.(state := AtChunk(ChunkDataDone)), [Flush(Body)]) else Fail(Strict)
    case _ =>
      if ch == LF then Next(p.(nread := 0, state := AtChunk(ChunkSizeStart)), [Send(ChunkComplete)]) else Fail(Strict)
  }

  /** Some bytes of a body with a length are read. */
  function BodyRead(p: Parser, n: nat): Parser {
    if n < p.contentLength then p.(contentLength := p.contentLength - n)
    else p.(contentLength := 0, state := if p.state.AtChunk? then AtChunk(ChunkDataAlmostDone) else AtBody(MessageDone))
  }

  function ExecBody(p: Parser, body: BodyState, ch: byte): Outcome {
    match body
    case BodyIdentity =>
      var p1 := BodyRead(p, 1);
      if p1.contentLength == 0 then After([Keep(Body)], ExecMessageDone(p1)) else Next(p1, [Keep(Body)])
    case BodyIdentityEof => Next(p, [Keep(Body)])
    case _ => ExecMessageDone(p)
  }

  // --- one byte ---

  /** What the parser does with a byte that is counted already. */
  function Exec(s: Settings, p: Parser, ch: byte): Outcome {
    match p.state
    case AtStart(start) => ExecStart(s, p, start, ch)
    case AtStatus(status) => ExecStatusLine(p, status, ch)
    case AtLine(line) => ExecRequestLine(s, p, line, ch)
    case AtUrl(url) => ExecUrl(p, url, ch)
    case AtHeader(header) => ExecHeader(s, p, header, ch)
    case AtChunk(chunk) => ExecChunk(p, chunk, ch)
    case AtBody(body) => ExecBody(p, body, ch)
  }

  /** Bytes are counted in all states up to the end of the headers, and in the lines around chunks. */
  predicate ParsingHeader(s: State) {
    !s.AtBody? && (s.AtChunk? ==> !s.chunk.ChunkData? && !s.chunk.ChunkDataAlmostDone? && !s.chunk.ChunkDataDone?)
  }

  function Counted(p: Parser): Parser { if ParsingHeader(p.state) then p.(nread := p.nread + 1) else p }

  function Consume(s: Settings, p: Parser, ch: byte): Outcome {
    var p1 := Counted(p);
    if ParsingHeader(p.state) && p1.nread > s.maxHeaderSize then Fail(HeaderOverflow) else Exec(s, p1, ch)
  }

  // --- runs ---

  /** The parser, whether it left because of an upgrade, the error it met, and the callbacks so far. */
  datatype Run = Run(parser: Parser, exited: bool, errno: Errno, trace: seq<Event>)

  predicate Stopped(r: Run) { r.exited || !r.errno.NoError? }

  /** The callbacks of a byte on its own. */
  function Report(trace: seq<Event>, ch: byte, acts: seq<Act>): seq<Event>
    decreases |acts|
  {
    if acts == [] then trace
    else
      var t := match acts[0]
        case Keep(f) => Add(trace, Data(f, [ch]))
        case Mark(_) => trace
        case Close(f) => Add(trace, Data(f, []))
        case Flush(_) => trace
        case Send(n) => Add(trace, Notify(n));
      Report(t, ch, acts[1..])
  }

  function StepRun(s: Settings, r: Run, ch: byte): Run {
    var o := Consume(s, r.parser, ch);
    var trace := Report(r.trace, ch, o.acts);
    match o
    case Next(p, _) => Run(p, false, NoError, trace)
    case Exit(p, _) => Run(p, true, NoError, trace)
    case Error(e, _) => Run(r.parser, false, e, trace)
  }

  /** A run over the bytes from a position on, and the position where it stops. */
  datatype Ran = Ran(run: Run, at: nat)

  function RunFrom(s: Settings, r: Run, data: ByteString, at: nat): Ran
    requires at <= |data|
    decreases |data| - at
  {
    if at == |data| || Stopped(r) then Ran(r, at)
    else
      var r1 := StepRun(s, r, data[at]);
      if !r1.errno.NoError? then Ran(r1, at) else RunFrom(s, r1, data, at + 1)
  }

  /** The end of the input. */
  function EndOfInput(r: Run): Run {
    if r.parser.state == AtBody(BodyIdentityEof) then r.(trace := Add(r.trace, Notify(MessageComplete)))
    else if r.parser.state.AtStart? && !r.parser.state.start.ResOrRespH? then r
    else r.(errno := InvalidEofState)
  }

  /** http_parser_init. */
  function Initial(kind: Kind): Run {
    var state :=
      match kind
      case Request => AtStart(StartReq)
      case Response => AtStart(StartRes)
      case Either => AtStart(StartReqOrRes);
    Run(Parser(kind, state, General, 0, false, 0, 0, FirstLine(0, 0, 0, 0), NO_FLAGS, false), false, NoError, [])
  }
}
