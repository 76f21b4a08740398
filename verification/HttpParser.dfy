/** The HTTP parser as it runs over buffers, with marks and inner loops. */
module HttpParser {
  import opened Outcomes
  import opened Bytes
  import opened HttpChars
  import opened HttpMachine
  import opened HttpInvariant
  import opened HttpMarks
  import opened HttpLoops

  /** After an error, data of one field may not be reported yet. */
  ghost predicate Behind(trace: seq<Event>, full: seq<Event>) {
    trace == full || exists f, bytes :: full == Add(trace, Data(f, bytes))
  }

  class HttpParser {
    const s: Settings
    var parser: Parser
    var errno: Errno
    var exited: bool
    var trace: seq<Event>

    ghost function Contents(): Run
      reads this
    {
      Run(parser, exited, errno, trace)
    }

    constructor (s: Settings, kind: Kind)
      ensures this.s == s && Contents() == Initial(kind)
    {
      this.s := s;
      parser := Initial(kind).parser;
      errno, exited, trace := NoError, false, [];
    }

    /** The machine that has read the buffer up to a position. */
    ghost function Now(data: ByteString, at: nat, marks: Marks): Run
      reads this
      requires at <= |data| && Marked(marks, LiveField(parser.state), at)
    {
      Going(parser, Shown(trace, marks, LiveField(parser.state), data, at))
    }

    /** What remains to be read gives the whole run. */
    ghost predicate At(data: ByteString, at: nat, marks: Marks, whole: Ran)
      reads this
    {
      && at <= |data| && errno.NoError? && !exited && Marked(marks, LiveField(parser.state), at)
      && (at > 0 ==> forall f :: f in marks ==> marks[f] < at)
      && (Fits(whole) ==> Valid(s, parser) && RunFrom(s, Now(data, at, marks), data, at) == whole)
    }

    /** The whole run is over. */
    ghost predicate Ended(at: nat, whole: Ran)
      reads this
    {
      Fits(whole) ==>
        && at == whole.at && errno == whole.run.errno && exited == whole.run.exited
        && (errno.NoError? ==> Contents() == whole.run)
        && (!errno.NoError? ==> Behind(trace, whole.run.trace))
    }

    // --- one byte ---

    /** Runs the acts of a byte on marks and trace. */
    method Perform(data: ByteString, at: nat, acts: seq<Act>, marks: Marks) returns (marks': Marks)
      requires at < |data| && forall f :: f in marks ==> marks[f] <= at
      modifies this`trace
      ensures Marking(trace, marks') == ApplyAll(Marking(old(trace), marks), data, at, acts)
    {
      hide Add;
      marks' := marks;
      var i := 0;
      while i < |acts|
        invariant i <= |acts| && forall f :: f in marks' ==> marks'[f] <= at
        invariant ApplyAll(Marking(trace, marks'), data, at, acts[i..]) ==
          ApplyAll(Marking(old(trace), marks), data, at, acts)
      {
        assert acts[i..][0] == acts[i] && acts[i..][1..] == acts[i + 1..];
        var x := Apply(Marking(trace, marks'), data, at, acts[i]);
        trace, marks' := x.trace, x.marks;
        i := i + 1;
      }
    }

    /** COUNT_HEADER_SIZE(1), in the states that count. */
    method Count() returns (ok: bool)
      modifies this`parser, this`errno
      ensures parser == Counted(old(parser))
      ensures ok == !(ParsingHeader(old(parser).state) && parser.nread > s.maxHeaderSize)
      ensures errno == if ok then old(errno) else HeaderOverflow
    {
      parser := Counted(parser);
      ok := !(ParsingHeader(parser.state) && parser.nread > s.maxHeaderSize);
      if !ok { errno := HeaderOverflow; }
    }

    /** A byte in a state without an inner loop. */
    method OneByte(data: ByteString, at: nat, marks: Marks, ghost whole: Ran) returns (marks': Marks)
      requires at < |data| && At(data, at, marks, whole) && (parser.state.AtBody? ==> !parser.state.body.BodyIdentity?)
      modifies this
      ensures errno.NoError? && !exited ==> At(data, at + 1, marks', whole)
      ensures !errno.NoError? || exited ==> Ended(if exited then at + 1 else at, whole)
    {
      hide RunFrom, Exec, Valid, Report, ApplyAll, Follows, Add, Shown, Marked, LiveField;
      ghost var before := Now(data, at, marks);
      ghost var live, p0, trace0 := LiveField(parser.state), parser, trace;
      ghost var fits := Fits(whole);
      MarkedBefore(marks, live, at);
      if fits {
        RunStep(s, before, data, at);
        ConsumeKeeps(s, p0, data[at]);
      }
      marks' := marks;
      var ok := Count();
      if !ok {
        ReportNothing(before.trace, data[at]);
        return;
      }
      var o := Exec(s, parser, data[at]);
      ExecInOrder(s, parser, data[at]);
      assert LiveField(parser.state) == live;
      marks' := Perform(data, at, o.acts, marks);
      Acted(Marking(trace0, marks), Marking(trace, marks'), live, data, at, o, before.trace);
      match o
      case Next(p, _) =>
        parser := p;
      case Exit(p, _) =>
        parser := p;
        exited := true;
        if fits { StoppedThere(s, StepRun(s, before, data[at]), data, at + 1); }
        StartIsNotLive(p.state);
        ExitShows(trace, marks', LiveField(p.state), data, at + 1);
      case Error(e, _) => errno := e;
    }

    // --- header names ---

    /** The machine in a loop over a header, which counts bytes afterwards. */
    ghost predicate InLoop(p: Parser, field: Field, data: ByteString, start: nat, at: nat, mark: nat, whole: Ran)
      reads `errno, `exited, `trace
    {
      && start <= at <= |data| && mark <= at && p.nread >= 1 && errno.NoError? && !exited
      && (Fits(whole) ==>
            var q := Back(p, at - start);
            && Valid(s, q) && (start < at ==> q.nread <= s.maxHeaderSize)
            && RunFrom(s, Going(q, Pending(trace, field, data[mark..at])), data, at) == whole)
    }

    /** COUNT_HEADER_SIZE for the bytes a loop went over after its first. */
    method CountMore(n: nat) returns (ok: bool)
      modifies this`parser, this`errno
      ensures parser == old(parser).(nread := old(parser).nread + n)
      ensures ok == (parser.nread <= s.maxHeaderSize)
      ensures errno == if ok then old(errno) else HeaderOverflow
    {
      parser := parser.(nread := parser.nread + n);
      ok := parser.nread <= s.maxHeaderSize;
      if !ok { errno := HeaderOverflow; }
    }

    /** The first byte of the loop over a header name is counted. */
    method EnterName(data: ByteString, start: nat, marks: Marks, ghost whole: Ran) returns (ok: bool, mark: nat)
      requires start < |data| && At(data, start, marks, whole) && InName(parser)
      modifies this`parser, this`errno
      ensures HeaderName in marks && mark == marks[HeaderName] && forall f :: f in marks ==> f == HeaderName
      ensures !exited && (ok <==> errno.NoError?) && InName(parser)
      ensures ok ==> InLoop(parser, HeaderName, data, start, start, mark, whole) && parser.nread <= s.maxHeaderSize
      ensures !ok ==> Ended(start, whole)
    {
      hide RunFrom, Valid, Add, Pending, Exec, Report;
      mark := marks[HeaderName];
      if Fits(whole) { CountRefused(s, Now(data, start, marks), data, start, whole); }
      ok := Count();
    }

    /** One turn of the loop over a header name: a whole run of characters outside the words it is matched with. */
    method NameTurn(data: ByteString, start: nat, at0: nat, mark: nat, ghost whole: Ran) returns (at: nat)
      requires InLoop(parser, HeaderName, data, start, at0, mark, whole) && InName(parser) &&
        parser.nread <= s.maxHeaderSize
      requires at0 < |data| && Token(data[at0]) != 0
      modifies this`parser
      ensures InLoop(parser, HeaderName, data, start, at, mark, whole) && InName(parser) &&
        parser.nread <= s.maxHeaderSize
      ensures at0 < at <= |data|
    {
      hide RunFrom, Valid, Add, NameStep, Token, Pending, InLoop;
      at := at0;
      if parser.headerState.General? {
        var pe := at + Min(|data| - at, s.maxHeaderSize);
        while at + 1 < pe && Token(data[at + 1]) != 0
          invariant InLoop(parser, HeaderName, data, start, at, mark, whole) && parser == old(parser)
          invariant at0 <= at < |data| && pe <= |data| && Token(data[at]) != 0
          decreases |data| - at
        {
          NameByteIn(data, start, at, mark, whole);
          at := at + 1;
        }
        NameByteIn(data, start, at, mark, whole);
      } else {
        NameByteIn(data, start, at, mark, whole);
        parser := NameStep(parser, Token(data[at]));
      }
      at := at + 1;
    }

    /** The buffer is over within a header name. */
    method LeaveName(data: ByteString, start: nat, marks: Marks, mark: nat, ghost whole: Ran)
      requires start < |data| && InLoop(parser, HeaderName, data, start, |data|, mark, whole) && InName(parser)
      requires HeaderName in marks && mark == marks[HeaderName] && (forall f :: f in marks ==> f == HeaderName) &&
        mark <= start
      modifies this`parser, this`errno
      ensures !exited && (errno.NoError? ==> At(data, |data|, marks, whole))
      ensures !errno.NoError? ==> Ended(|data|, whole)
    {
      hide RunFrom, Valid, Add, Pending;
      var _ := CountMore(|data| - 1 - start);
    }

    /** A byte that is no token: the colon after the name, or an error. */
    method EndName(data: ByteString, start: nat, at0: nat, marks: Marks, mark: nat, ghost whole: Ran)
      returns (at: nat, marks': Marks)
      requires InLoop(parser, HeaderName, data, start, at0, mark, whole) && InName(parser) &&
        parser.nread <= s.maxHeaderSize
      requires at0 < |data| && Token(data[at0]) == 0
      requires HeaderName in marks && mark == marks[HeaderName] && forall f :: f in marks ==> f == HeaderName
      modifies this
      ensures !exited && (errno.NoError? ==> at > start && At(data, at, marks', whole))
      ensures !errno.NoError? ==> Ended(at, whole)
    {
      hide RunFrom, Valid, Add, NameStep, Token, Pending, Exec, Report;
      at, marks' := at0, marks;
      ghost var fits, shown := Fits(whole), Pending(trace, HeaderName, data[mark..at]);
      if fits { CountRefused(s, Going(Back(parser, at - start), shown), data, at, whole); }
      var ok := CountMore(at - start);
      if !ok { return; }
      if fits { NameEnd(s, Back(parser, 0).(nread := parser.nread - 1), shown, data, at, whole); }
      if data[at] == COLON {
        Closing(trace, HeaderName, data, mark, at);
        parser := parser.(state := AtHeader(HeaderValueDiscardWs));
        trace, marks' := Add(trace, Data(HeaderName, data[mark..at])), marks - {HeaderName};
        at := at + 1;
      } else {
        PendingIsBehind(trace, HeaderName, data[mark..at]);
        errno := InvalidHeaderToken;
      }
    }

    /** s_header_field. */
    method HeaderFieldLoop(data: ByteString, start: nat, marks: Marks, ghost whole: Ran)
      returns (at: nat, marks': Marks)
      requires start < |data| && At(data, start, marks, whole) && InName(parser)
      modifies this
      ensures !exited && (errno.NoError? ==> at > start && At(data, at, marks', whole))
      ensures !errno.NoError? ==> Ended(at, whole)
    {
      hide RunFrom, Valid, Add, Token, Pending, InLoop, Ended, Shown;
      at, marks' := start, marks;
      MarksBefore(data, start, marks, whole);
      var ok, mark := EnterName(data, start, marks, whole);
      if !ok { return; }
      while at < |data| && Token(data[at]) != 0
        invariant start <= at <= |data| && InLoop(parser, HeaderName, data, start, at, mark, whole) && InName(parser)
        invariant parser.nread <= s.maxHeaderSize && errno.NoError? && !exited
        decreases |data| - at
      {
        at := NameTurn(data, start, at, mark, whole);
      }
      if at == |data| {
        LeaveName(data, start, marks, mark, whole);
      } else {
        at, marks' := EndName(data, start, at, marks, mark, whole);
      }
    }

    /** One byte of the loop over a header name, from the machine's side. */
    lemma NameByteIn(data: ByteString, start: nat, at: nat, mark: nat, whole: Ran)
      requires InLoop(parser, HeaderName, data, start, at, mark, whole) && InName(parser) && at < |data| &&
        Token(data[at]) != 0
      ensures InLoop(NameStep(parser, Token(data[at])), HeaderName, data, start, at + 1, mark, whole)
      ensures InName(NameStep(parser, Token(data[at]))) && NameStep(parser, Token(data[at])).nread == parser.nread
      ensures parser.headerState.General? ==> NameStep(parser, Token(data[at])) == parser
    {
      hide RunFrom, Valid, Add, Token, Pending;
      if Fits(whole) {
        var q := Back(parser, at - start);
        NameByte(s, q, Pending(trace, HeaderName, data[mark..at]), data, at, whole);
        OneMore(trace, HeaderName, data, mark, at);
        assert NameStep(q, Token(data[at])).(nread := q.nread + 1) ==
          Back(NameStep(parser, Token(data[at])), at + 1 - start);
      }
    }

    // --- header values ---

    /** A byte that cannot be in a header value. */
    method Refuse(data: ByteString, start: nat, at: nat, mark: nat, h: HeaderState, ghost whole: Ran)
      requires InLoop(parser.(headerState := h), HeaderText, data, start, at, mark, whole) &&
        InValue(parser.(headerState := h))
      requires at < |data| && !(data[at] == CR || data[at] == LF || s.lenient || IsHeaderChar(data[at]))
      modifies this`errno
      ensures !errno.NoError? && Ended(at, whole)
    {
      hide RunFrom, Valid, Add, Pending;
      if Fits(whole) {
        ValueEnd(s, Back(parser.(headerState := h), at - start), Pending(trace, HeaderText, data[mark..at]), data, at,
          whole);
      }
      PendingIsBehind(trace, HeaderText, data[mark..at]);
      errno := InvalidHeaderToken;
    }

    /** The end of a line in a header value: the value is reported. */
    method EndValue(data: ByteString, start: nat, at0: nat, marks: Marks, mark: nat, h: HeaderState, ghost whole: Ran)
      returns (at: nat, marks': Marks)
      requires InLoop(parser.(headerState := h), HeaderText, data, start, at0, mark, whole) &&
        InValue(parser.(headerState := h))
      requires at0 < |data| && (data[at0] == CR || data[at0] == LF)
      requires HeaderText in marks && mark == marks[HeaderText] && forall f :: f in marks ==> f == HeaderText
      modifies this
      ensures !exited && (errno.NoError? ==> at > start && At(data, at, marks', whole))
      ensures !errno.NoError? ==> Ended(at, whole)
    {
      hide RunFrom, Valid, Add, Pending;
      at := at0;
      ghost var q, shown := Back(parser.(headerState := h), at - start), Pending(trace, HeaderText, data[mark..at]);
      if Fits(whole) { ValueEnd(s, q, shown, data, at, whole); }
      Closing(trace, HeaderText, data, mark, at);
      parser := parser.(state := AtHeader(HeaderAlmostDone), headerState := h);
      trace, marks' := Add(trace, Data(HeaderText, data[mark..at])), marks - {HeaderText};
      var ok := CountMore(at - start);
      if !ok { return; }
      // A line feed is looked at again, as the one that is expected.
      if data[at] == LF { parser := parser.(state := AtHeader(HeaderValueLws)); }
      at := at + 1;
    }

    /** Bytes of a header value up to the end of a line, as long as the buffer and the header size last. */
    method SkipValue(data: ByteString, start: nat, at0: nat, mark: nat, h: HeaderState, ghost whole: Ran)
      returns (at: nat)
      requires InLoop(parser.(headerState := h), HeaderText, data, start, at0, mark, whole) &&
        InValue(parser.(headerState := h))
      requires h.General? && at0 < |data| && Plain(s, data[at0])
      requires Fits(whole) ==> 2 <= parser.nread <= s.maxHeaderSize
      modifies this`errno
      ensures errno.NoError? ==>
        at0 <= at < |data| && InLoop(parser.(headerState := h), HeaderText, data, start, at + 1, mark, whole)
      ensures !errno.NoError? ==> Ended(at, whole)
    {
      hide RunFrom, Valid, Add, Pending, ValueStep, Plain;
      at := at0;
      var pe := at0 + Min(|data| - at0, s.maxHeaderSize);
      while at != pe
        invariant at0 <= at <= pe <= |data| && (at == at0 ==> Plain(s, data[at0]))
        invariant InLoop(parser.(headerState := h), HeaderText, data, start, at, mark, whole)
        decreases pe - at
      {
        var ch := data[at];
        if ch == CR || ch == LF {
          PlainIsNoEnd(s, ch);
          at := at - 1;
          return;
        }
        if !s.lenient && !IsHeaderChar(ch) {
          Refuse(data, start, at, mark, h, whole);
          return;
        }
        PlainIs(s, ch);
        ValueByteIn(data, start, at, mark, h, whole);
        GeneralStays(parser.(headerState := h), ch);
        at := at + 1;
      }
      if at == |data| { at := at - 1; return; }
      assert !Fits(whole);
    }

    /** One byte of the loop over a header value, from the machine's side. */
    lemma ValueByteIn(data: ByteString, start: nat, at: nat, mark: nat, h: HeaderState, whole: Ran)
      requires InLoop(parser.(headerState := h), HeaderText, data, start, at, mark, whole) &&
        InValue(parser.(headerState := h))
      requires at < |data| && Plain(s, data[at])
      ensures
        var q := ValueStep(parser.(headerState := h), data[at]);
        && (q.Some? ==>
              && InLoop(q.value, HeaderText, data, start, at + 1, mark, whole)
              && InValue(q.value) && q.value.nread == parser.nread)
        && (q.None? && Fits(whole) ==>
              whole.at == at && whole.run.errno == InvalidContentLength && !whole.run.exited &&
              whole.run.trace == Pending(trace, HeaderText, data[mark..at]))
    {
      hide RunFrom, Valid, Add, Pending, ValueStep, Plain;
      var p := parser.(headerState := h);
      ValueStepStays(p, data[at]);
      if Fits(whole) {
        var q := Back(p, at - start);
        ValueStepCount(p, data[at], q.nread);
        ValueByte(s, q, Pending(trace, HeaderText, data[mark..at]), data, at, whole);
        OneMore(trace, HeaderText, data, mark, at);
        var r := ValueStep(p, data[at]);
        if r.Some? { assert ValueStep(q, data[at]).value.(nread := q.nread + 1) == Back(r.value, at + 1 - start); }
      }
    }

    /** The first byte of the loop over a header value is counted. */
    method EnterValue(data: ByteString, start: nat, marks: Marks, ghost whole: Ran) returns (ok: bool, mark: nat)
      requires start < |data| && At(data, start, marks, whole) && InValue(parser)
      modifies this`parser, this`errno
      ensures HeaderText in marks && mark == marks[HeaderText] && forall f :: f in marks ==> f == HeaderText
      ensures !exited && (ok <==> errno.NoError?) && parser == old(parser).(nread := parser.nread)
      ensures ok ==> InLoop(parser, HeaderText, data, start, start, mark, whole)
      ensures ok ==> parser.nread <= s.maxHeaderSize && (Fits(whole) ==> parser.nread >= 2)
      ensures !ok ==> Ended(start, whole)
    {
      hide RunFrom, Valid, Add, Pending, Exec, Report;
      mark := marks[HeaderText];
      if Fits(whole) {
        CountRefused(s, Now(data, start, marks), data, start, whole);
        CountedOnce(s, parser);
      }
      ok := Count();
    }

    /** A byte of a value that is matched with a word or read as a length. */
    method MatchValueByte(data: ByteString, start: nat, at: nat, mark: nat, h: HeaderState, ghost whole: Ran)
      returns (h': HeaderState)
      requires InLoop(parser.(headerState := h), HeaderText, data, start, at, mark, whole) &&
        InValue(parser.(headerState := h))
      requires at < |data| && Plain(s, data[at])
      modifies this`parser, this`errno
      ensures errno.NoError? ==>
                && InLoop(parser.(headerState := h'), HeaderText, data, start, at + 1, mark, whole) &&
                  InValue(parser.(headerState := h'))
                && parser.nread == old(parser).nread
      ensures !errno.NoError? ==> Ended(at, whole)
    {
      hide RunFrom, Valid, Add, ValueStep, Pending, Plain;
      h' := h;
      ValueByteIn(data, start, at, mark, h, whole);
      var next := ValueStep(parser.(headerState := h), data[at]);
      if next.None? {
        PendingIsBehind(trace, HeaderText, data[mark..at]);
        errno := InvalidContentLength;
        return;
      }
      h' := next.value.headerState;
      parser := next.value.(headerState := parser.headerState);
    }

    /** The buffer is over within a header value. */
    method LeaveValue(data: ByteString, start: nat, marks: Marks, mark: nat, h: HeaderState, ghost whole: Ran)
      requires start < |data|
      requires InLoop(parser.(headerState := h), HeaderText, data, start, |data|, mark, whole) &&
        InValue(parser.(headerState := h))
      requires HeaderText in marks && mark == marks[HeaderText] && (forall f :: f in marks ==> f == HeaderText) &&
        mark <= start
      modifies this`parser, this`errno
      ensures !exited && (errno.NoError? ==> At(data, |data|, marks, whole))
      ensures !errno.NoError? ==> Ended(|data|, whole)
    {
      hide RunFrom, Valid, Add, Pending;
      parser := parser.(headerState := h);
      var _ := CountMore(|data| - 1 - start);
    }

    /** One turn of the loop over a header value; the loop goes on unless the value is over or refused. */
    method ValueTurn(data: ByteString, start: nat, at0: nat, marks: Marks, mark: nat, h: HeaderState, ghost whole: Ran)
      returns (at: nat, marks': Marks, h': HeaderState, more: bool)
      requires InLoop(parser.(headerState := h), HeaderText, data, start, at0, mark, whole) &&
        InValue(parser.(headerState := h))
      requires at0 < |data| && parser.nread <= s.maxHeaderSize && (Fits(whole) ==> parser.nread >= 2)
      requires HeaderText in marks && mark == marks[HeaderText] && forall f :: f in marks ==> f == HeaderText
      modifies this
      ensures more ==>
                && errno.NoError? && !exited && at0 < at <= |data| && marks' == marks &&
                  parser.nread == old(parser).nread
                && InLoop(parser.(headerState := h'), HeaderText, data, start, at, mark, whole) &&
                  InValue(parser.(headerState := h'))
      ensures !more ==> !exited && if errno.NoError? then
        at > start && At(data, at, marks', whole) else Ended(at, whole)
    {
      hide RunFrom, Valid, Add, Pending, Shown, Plain, Back;
      at, marks', h', more := at0, marks, h, false;
      var ch := data[at];
      if ch == CR || ch == LF {
        at, marks' := EndValue(data, start, at, marks, mark, h, whole);
        return;
      }
      if !s.lenient && !IsHeaderChar(ch) {
        Refuse(data, start, at, mark, h, whole);
        return;
      }
      PlainIs(s, ch);
      if h.General? {
        at := SkipValue(data, start, at, mark, h, whole);
      } else {
        h' := MatchValueByte(data, start, at, mark, h, whole);
      }
      more := errno.NoError?;
      if more { at := at + 1; }
    }

    /** s_header_value. */
    method HeaderValueLoop(data: ByteString, start: nat, marks: Marks, ghost whole: Ran)
      returns (at: nat, marks': Marks)
      requires start < |data| && At(data, start, marks, whole) && InValue(parser)
      modifies this
      ensures !exited && (errno.NoError? ==> at > start && At(data, at, marks', whole))
      ensures !errno.NoError? ==> Ended(at, whole)
    {
      at, marks' := start, marks;
      MarksBefore(data, start, marks, whole);
      hide At, Ended, InLoop, Fits, Marked;
      var ok, mark := EnterValue(data, start, marks, whole);
      if !ok { return; }
      var h, more := parser.headerState, true;
      SameParser(parser);
      while at < |data|
        invariant start <= at <= |data| && errno.NoError? && !exited && marks' == marks
        invariant InLoop(parser.(headerState := h), HeaderText, data, start, at, mark, whole) &&
          InValue(parser.(headerState := h))
        invariant parser.nread <= s.maxHeaderSize && (Fits(whole) ==> parser.nread >= 2)
        decreases |data| - at
      {
        at, marks', h, more := ValueTurn(data, start, at, marks, mark, h, whole);
        if !more { return; }
      }
      LeaveValue(data, start, marks, mark, h, whole);
    }

    lemma MarksBefore(data: ByteString, at: nat, marks: Marks, whole: Ran)
      requires At(data, at, marks, whole)
      ensures at <= |data| && errno.NoError? && !exited && forall f :: f in marks ==> marks[f] <= at
    {
    }

    // --- bodies ---

    /** s_body_identity and s_chunk_data: as many bytes as the body and the buffer have. */
    method BodyLoop(data: ByteString, start: nat, marks: Marks, ghost whole: Ran) returns (at: nat, marks': Marks)
      requires start < |data| && At(data, start, marks, whole) && Fits(whole) && ReadsBody(parser.state)
      modifies this
      ensures errno.NoError? && !exited ==> at > start && At(data, at, marks', whole)
      ensures !errno.NoError? || exited ==> Ended(at, whole)
    {
      hide RunFrom, Valid, Add, BodyRead, ShouldKeepAlive;
      SomeBody(s, parser);
      var toRead := Min(parser.contentLength, |data| - start);
      var mark := if Body in marks then marks[Body] else start;
      marks' := marks[Body := mark];
      at := start + toRead;
      var p := parser;
      ghost var fits, shown := Fits(whole), Pending(trace, Body, data[mark..start]);
      assert data[start..start] == [];
      if fits { BodyKeepsValid(s, p, shown, data, start, toRead); }
      ManyMore(trace, Body, data, mark, start, toRead);
      BodyReadState(p, toRead);
      PendingSome(shown, Body, data[start..at]);
      if p.state.AtChunk? || toRead < p.contentLength {
        if fits { BodyBytes(s, p, shown, data, start, toRead); }
        parser := BodyRead(parser, toRead);
        return;
      }
      if fits { WholeBody(s, p, shown, data, start, toRead); }
      parser := BodyRead(parser, toRead);
      trace := Add(trace, Data(Body, data[mark..at]));
      marks' := marks' - {Body};
      PendingSome(old(trace), Body, data[mark..at]);
      // The last byte is looked at again, in the state that completes the message.
      exited := parser.upgrade;
      parser := parser.(state := NewMessage(parser));
      trace := Add(trace, Notify(MessageComplete));
      if fits && exited { StoppedThere(s, Run(parser, true, NoError, trace), data, at); }
    }

    /** s_body_identity_eof: everything there is. */
    method BodyToEofLoop(data: ByteString, start: nat, marks: Marks, ghost whole: Ran) returns (marks': Marks)
      requires start < |data| && At(data, start, marks, whole) && Fits(whole) && parser.state == AtBody(BodyIdentityEof)
      modifies this
      ensures At(data, |data|, marks', whole) && errno.NoError? && !exited
    {
      hide RunFrom, Valid, Add;
      var mark := if Body in marks then marks[Body] else start;
      marks' := marks[Body := mark];
      ghost var shown := Pending(trace, Body, data[mark..start]);
      assert data[start..start] == [];
      BodyToTheEnd(s, parser, shown, data, start);
      ManyMore(trace, Body, data, mark, start, |data| - start);
      assert data[start..start + (|data| - start)] == data[start..];
      PendingSome(shown, Body, data[start..]);
      RanOut(s, Going(parser, Add(shown, Data(Body, data[start..]))), data);
    }

    // --- execute ---

    /** The marks a buffer starts with. */
    method StartMarks() returns (marks: Marks)
      ensures Marked(marks, LiveField(parser.state), 0) && forall f :: f in marks ==> marks[f] == 0
    {
      marks := map[];
      var live := LiveField(parser.state);
      if live.Some? && !live.value.Body? { marks := marks[live.value := 0]; }
    }

    /** One turn of the loop over the buffer, by the parser's state. */
    method Turn(data: ByteString, at0: nat, marks: Marks, ghost whole: Ran) returns (at: nat, marks': Marks)
      requires at0 < |data| && At(data, at0, marks, whole) && Fits(whole)
      modifies this
      ensures errno.NoError? && !exited ==> at > at0 && At(data, at, marks', whole)
      ensures !errno.NoError? || exited ==> Ended(at, whole)
    {
      hide RunFrom, At, Ended, Fits;
      MarksBefore(data, at0, marks, whole);
      if parser.state == AtHeader(HeaderField) {
        at, marks' := HeaderFieldLoop(data, at0, marks, whole);
      } else if parser.state == AtHeader(HeaderValue) {
        at, marks' := HeaderValueLoop(data, at0, marks, whole);
      } else if parser.state == AtBody(BodyIdentity) || parser.state == AtChunk(ChunkData) {
        at, marks' := BodyLoop(data, at0, marks, whole);
      } else if parser.state == AtBody(BodyIdentityEof) {
        marks' := BodyToEofLoop(data, at0, marks, whole);
        at := |data|;
      } else {
        marks' := OneByte(data, at0, marks, whole);
        at := if exited || errno.NoError? then at0 + 1 else at0;
      }
    }

    /**
     * http_parser_execute on a buffer that is not empty, with headers that fit: the run of the byte-at-a-time
     * machine.
     */
    method Execute(data: ByteString) returns (n: nat)
      requires data != [] && !exited && Valid(s, parser) && Fits(RunFrom(s, Contents(), data, 0))
      modifies this
      ensures
        var whole := RunFrom(s, old(Contents()), data, 0);
        && n == whole.at && errno == whole.run.errno && exited == whole.run.exited
        && (errno.NoError? ==> Contents() == whole.run && Valid(s, parser))
        && (!errno.NoError? ==> Behind(trace, whole.run.trace))
    {
      hide RunFrom, Valid, Add, Shown;
      ghost var whole := RunFrom(s, Contents(), data, 0);
      RunKeeps(s, Contents(), data, 0);
      n := 0;
      if !errno.NoError? {
        StoppedThere(s, Contents(), data, 0);
        return;
      }
      var marks := StartMarks();
      NothingShown(trace, marks, LiveField(parser.state), data);
      while n < |data|
        invariant At(data, n, marks, whole)
        decreases |data| - n
      {
        n, marks := Turn(data, n, marks, whole);
        if !errno.NoError? || exited { return; }
      }
      ReportMarks(data, marks, whole);
    }

    /**
     * However the input is cut into buffers, the parser's fields, the error and the callbacks are those of the
     * byte-at-a-time machine on the whole of it. After an error or an upgrade no further buffer is parsed.
     */
    method ExecuteChunks(chunks: seq<ByteString>)
      requires forall c :: c in chunks ==> c != []
      requires errno.NoError? && !exited && Valid(s, parser) && Fits(RunFrom(s, Contents(), Flatten(chunks), 0))
      modifies this
      ensures
        var whole := RunFrom(s, old(Contents()), Flatten(chunks), 0).run;
        && errno == whole.errno && exited == whole.exited
        && (errno.NoError? ==> Contents() == whole)
        && (!errno.NoError? ==> Behind(trace, whole.trace))
    {
      hide RunFrom, Valid;
      ghost var whole := RunFrom(s, Contents(), Flatten(chunks), 0).run;
      var i := 0;
      while i < |chunks|
        invariant i <= |chunks| && errno.NoError? && !exited && Valid(s, parser)
        invariant RunFrom(s, Contents(), Flatten(chunks[i..]), 0).run == whole
      {
        assert chunks[i..][0] == chunks[i] && chunks[i..][1..] == chunks[i + 1..];
        RunAppend(s, Contents(), chunks[i], Flatten(chunks[i + 1..]), 0);
        assert chunks[i] in chunks;
        var _ := Execute(chunks[i]);
        if !errno.NoError? || exited { return; }
        i := i + 1;
      }
      assert chunks[i..] == [];
      NothingLeft(s, Contents());
    }

    /** http_parser_execute with no bytes: the end of the input. */
    method ExecuteEnd()
      requires !exited
      modifies this
      ensures Contents() == if old(errno).NoError? then EndOfInput(old(Contents())) else old(Contents())
    {
      if !errno.NoError? { return; }
      if parser.state == AtBody(BodyIdentityEof) {
        trace := Add(trace, Notify(MessageComplete));
      } else if !parser.state.AtStart? || parser.state.start.ResOrRespH? {
        errno := InvalidEofState;
      }
    }

    /** Reports what is marked when the buffer is over. */
    method ReportMarks(data: ByteString, marks: Marks, ghost whole: Ran)
      requires At(data, |data|, marks, whole) && Fits(whole) && data != []
      modifies this`trace
      ensures Ended(|data|, whole)
    {
      hide Add, Pending;
      AtMostOne(marks, LiveField(parser.state), |data|);
      RanOut(s, Now(data, |data|, marks), data);
      ShownAtEnd(trace, marks, LiveField(parser.state), data);
      var x := Marking(trace, marks);
      x := Callback(x, data, |data|, HeaderName);
      x := Callback(x, data, |data|, HeaderText);
      x := Callback(x, data, |data|, Url);
      x := Callback(x, data, |data|, Body);
      x := Callback(x, data, |data|, Status);
      trace := x.trace;
    }
  }

  lemma StoppedThere(s: Settings, r: Run, data: ByteString, at: nat)
    requires Stopped(r) && at <= |data|
    ensures RunFrom(s, r, data, at) == Ran(r, at)
  {
  }

  lemma NothingLeft(s: Settings, r: Run)
    ensures RunFrom(s, r, [], 0) == Ran(r, 0)
  {
  }

  lemma NothingShown(trace: seq<Event>, marks: Marks, live: Option<Field>, data: ByteString)
    requires Marked(marks, live, 0) && forall f :: f in marks ==> marks[f] == 0
    ensures Shown(trace, marks, live, data, 0) == trace
  {
    hide Add;
  }

  lemma RanOut(s: Settings, r: Run, data: ByteString)
    ensures RunFrom(s, r, data, |data|) == Ran(r, |data|)
  {
  }

  /** Reporting all marks when the buffer is over gives the trace shown. */
  lemma ShownAtEnd(trace: seq<Event>, marks: Marks, live: Option<Field>, data: ByteString)
    requires Marked(marks, live, |data|) && forall f :: f in marks ==> marks[f] < |data|
    ensures Shown(trace, marks, live, data, |data|) == if live.Some? &&
      live.value in marks then Add(trace, Data(live.value, data[marks[live.value]..|data|])) else trace
    ensures live.Some? && live.value in marks ==> marks - {live.value} == map[]
    ensures !(live.Some? && live.value in marks) ==> marks == map[]
  {
    hide Add;
  }

  /** At most one mark is set. */
  lemma AtMostOne(marks: Marks, live: Option<Field>, at: nat)
    requires Marked(marks, live, at)
    ensures |marks| <= 1
  {
    if live.Some? && live.value in marks {
      assert marks.Keys == {live.value};
    } else {
      assert marks.Keys == {};
    }
  }

  lemma SomeBody(s: Settings, p: Parser)
    requires Valid(s, p) && ReadsBody(p.state)
    ensures 0 < p.contentLength < NO_LENGTH
  {
  }

  lemma PendingSome(trace: seq<Event>, f: Field, bytes: ByteString)
    requires bytes != []
    ensures Pending(trace, f, bytes) == Add(trace, Data(f, bytes))
  {
  }

  lemma BodyReadState(p: Parser, n: nat)
    requires ReadsBody(p.state) && 0 < n <= p.contentLength
    ensures
      var q := BodyRead(p, n);
      && q == p.(contentLength := p.contentLength - n, state := q.state)
      && (p.state.AtChunk? ==> LiveField(q.state) == Some(Body))
      && (n < p.contentLength ==> q.state == p.state)
  {
  }

  /** The machine stays valid over the bytes of a body. */
  lemma BodyKeepsValid(s: Settings, p: Parser, trace: seq<Event>, data: ByteString, at: nat, n: nat)
    requires Valid(s, p) && ReadsBody(p.state) && 0 < n <= p.contentLength
    ensures n < p.contentLength || p.state.AtChunk? ==> Valid(s, BodyRead(p, n))
    ensures n == p.contentLength && p.state.AtBody? ==>
              var q := BodyRead(p, n);
              Valid(s, q.(state := NewMessage(q)))
  {
    hide ShouldKeepAlive;
    if n == p.contentLength && p.state.AtBody? { MessageDoneKeeps(s, BodyRead(p, n)); }
  }

  lemma SameParser(p: Parser)
    ensures p.(headerState := p.headerState) == p
  {
  }

  lemma CountedOnce(s: Settings, p: Parser)
    requires Valid(s, p) && InField(p.state)
    ensures p.nread >= 1
  {
  }

  /** A byte that ends a header value or is forbidden in it. */
  lemma ValueEnd(s: Settings, p: Parser, trace: seq<Event>, data: ByteString, at: nat, whole: Ran)
    requires InValue(p) && Valid(s, p) && at < |data| && Fits(whole)
    requires data[at] == CR || data[at] == LF || !(s.lenient || IsHeaderChar(data[at]))
    requires RunFrom(s, Going(p, trace), data, at) == whole
    ensures p.nread < s.maxHeaderSize
    ensures data[at] == CR || data[at] == LF ==>
              var p1 := p.(nread := p.nread + 1, state :=
                AtHeader(if data[at] == CR then HeaderAlmostDone else HeaderValueLws));
              Valid(s, p1) && RunFrom(s, Going(p1, Add(trace, Data(HeaderText, []))), data, at + 1) == whole
    ensures data[at] != CR && data[at] != LF ==> whole.at == at && whole.run == Run(p, false, InvalidHeaderToken, trace)
  {
    hide RunFrom, Valid, Add, ValueStep;
    RunStep(s, Going(p, trace), data, at);
    ConsumeKeeps(s, p, data[at]);
    assert [Close(HeaderText)][1..] == [];
    assert Report(trace, data[at], [Close(HeaderText)]) == Report(Add(trace, Data(HeaderText, [])), data[at], []);
    ReportNothing(Add(trace, Data(HeaderText, [])), data[at]);
    ReportNothing(trace, data[at]);
  }

  lemma PlainIs(s: Settings, ch: byte)
    requires ch != CR && ch != LF && (s.lenient || IsHeaderChar(ch))
    ensures Plain(s, ch)
  {
  }

  lemma PlainIsNoEnd(s: Settings, ch: byte)
    requires ch == CR || ch == LF
    ensures !Plain(s, ch)
  {
  }

  lemma GeneralStays(p: Parser, ch: byte)
    requires p.headerState.General?
    ensures ValueStep(p, ch) == Some(p)
  {
  }

  function Min(a: nat, b: nat): nat { if a < b then a else b }

  /** A run that fits never refuses a byte for the size of the headers. */
  lemma CountRefused(s: Settings, r: Run, data: ByteString, at: nat, whole: Ran)
    requires at < |data| && !Stopped(r) && RunFrom(s, r, data, at) == whole && Fits(whole) &&
      ParsingHeader(r.parser.state)
    ensures r.parser.nread < s.maxHeaderSize
  {
    hide Exec;
    RunStep(s, r, data, at);
  }

  lemma PendingIsBehind(trace: seq<Event>, f: Field, bytes: ByteString)
    ensures Behind(trace, Pending(trace, f, bytes))
  {
  }

  /** A byte that ends a header name. */
  lemma NameEnd(s: Settings, p: Parser, trace: seq<Event>, data: ByteString, at: nat, whole: Ran)
    requires InName(p) && Valid(s, p) && at < |data| && Token(data[at]) == 0 && p.nread < s.maxHeaderSize
    requires RunFrom(s, Going(p, trace), data, at) == whole
    ensures data[at] == COLON ==>
              var p1 := p.(nread := p.nread + 1, state := AtHeader(HeaderValueDiscardWs));
              Valid(s, p1) && RunFrom(s, Going(p1, Add(trace, Data(HeaderName, []))), data, at + 1) == whole
    ensures data[at] != COLON ==> whole.at == at && whole.run == Run(p, false, InvalidHeaderToken, trace)
  {
    hide RunFrom, Valid, Add, Token;
    RunStep(s, Going(p, trace), data, at);
    ConsumeKeeps(s, p, data[at]);
    assert [Close(HeaderName)][1..] == [];
    assert Report(trace, data[at], [Close(HeaderName)]) == Report(Add(trace, Data(HeaderName, [])), data[at], []);
    ReportNothing(Add(trace, Data(HeaderName, [])), data[at]);
    ReportNothing(trace, data[at]);
  }

  lemma MarkedBefore(marks: Marks, live: Option<Field>, at: nat)
    requires Marked(marks, live, at)
    ensures forall f :: f in marks ==> marks[f] <= at
  {
  }

  lemma StartIsNotLive(s: State)
    requires s.AtStart?
    ensures LiveField(s).None?
  {
  }

  lemma ReportNothing(trace: seq<Event>, ch: byte)
    ensures Report(trace, ch, []) == trace
  {
  }

  lemma ExitShows(trace: seq<Event>, marks: Marks, live: Option<Field>, data: ByteString, at: nat)
    requires at <= |data| && live.None? && Marked(marks, live, at)
    ensures Shown(trace, marks, live, data, at) == trace
  {
  }

  /** The acts of an outcome, on the marks and on the trace of the machine. */
  lemma Acted(x: Marking, y: Marking, live: Option<Field>, data: ByteString, at: nat, o: Outcome, trace: seq<Event>)
    requires Matches(x, live, data, at, trace) && InOrder(live, o) && y == ApplyAll(x, data, at, o.acts)
    ensures !o.Error? ==>
              var live' := LiveField(o.parser.state);
              Marked(y.marks, live', at + 1) &&
                Report(trace, data[at], o.acts) == Shown(y.trace, y.marks, live', data, at + 1)
    ensures o.Error? ==> Behind(y.trace, Report(trace, data[at], o.acts))
  {
    match o
    case Next(p, acts) => ActsMatch(x, live, data, at, acts, LiveField(p.state), trace);
    case Exit(p, acts) =>
      StartIsNotLive(p.state);
      ActsMatch(x, live, data, at, acts, None, trace);
    case Error(_, acts) =>
      if acts == [] {
        assert y == x;
      } else {
        ActsMatch(x, live, data, at, acts, None, trace);
      }
  }
}
