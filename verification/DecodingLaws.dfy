/** What the decoder does depends on the bytes of the stream, not on how they arrive. */
module DecodingLaws {
  import opened Outcomes
  import opened Bytes
  import opened Codec
  import opened CodecLaws
  import opened CodecRoundTrip
  import opened EarlyVerdicts
  import opened MessageTable
  import opened Decoding

  /** No TLS is ended here or asked of the server. */
  predicate Plain(tls: Tls) { !tls.terminate && !tls.upstream }

  /** The message ends where its length field says, or could not be accepted before all of it was there. */
  predicate Filled(f: Format, v: Verdict) { v.Valid? ==> v.left == 0 || (AwaitsAll(f) && v.left > 0) }

  /** The verdict on the frame at the front of the buffer. */
  function FrameVerdict(frontend: bool, data: ByteString): Verdict
    requires |data| >= 5
  {
    Validate(Lookup(frontend, data[0]).Body(), data[5..], 0, BodyLength(Word32(data[1..5])))
  }

  predicate FrameFilled(frontend: bool, data: ByteString) {
    |data| >= 5 ==> Filled(Lookup(frontend, data[0]).Body(), FrameVerdict(frontend, data))
  }

  /** Every frame accepted on the way is filled. */
  ghost predicate Clean<S>(h: Handler<S>, tls: Tls, st: State<S>, frontend: bool, data: ByteString)
    decreases |data|
  {
    data == [] ||
    (
      var d := Decode(h, tls, st, frontend, data);
      Consumes(h, tls, st, frontend, data);
      (st.mode.InSync? ==> FrameFilled(frontend, data)) &&
        (d.result.ReadyForNext? ==> Clean(h, tls, d.state, frontend, d.rest))
    )
  }

  /** All further bytes are dropped. */
  predicate Deaf(mode: Mode) { mode.OutOfSync? || mode.Encrypted? || mode.Broken? }

  // --- one message ---

  /** The body of a filled message is in the buffer, and reading it goes through. */
  lemma BodyIsHere(f: Format, rest: ByteString, length: nat)
    requires Sound(f)
    ensures
      var v := Validate(f, rest, 0, length);
      v.Valid? && Filled(f, v) ==>
        length <= |rest| && v.used <= length && Read(f, v.shape, rest[..length], 0, length).Got?
  {
    hide ValidatorOf, ReaderOf;
    var v := Validate(f, rest, 0, length);
    if v.Valid? && Filled(f, v) {
      Here(f, rest, length);
      ReadGoesThrough(f, rest, rest[..length], length);
    }
  }

  lemma Here(f: Format, rest: ByteString, length: nat)
    requires Sound(f) && Validate(f, rest, 0, length).Valid? && Filled(f, Validate(f, rest, 0, length))
    ensures Validate(f, rest, 0, length).used <= length <= |rest|
  {
    hide ValidatorOf;
    AllBounded(f);
    assert Counts(ValidatorOf(f)(rest, 0, length), rest, length);
    if AwaitsAll(f) { AwaitsAllBytes(f); }
  }

  lemma ReadGoesThrough(f: Format, rest: ByteString, body: ByteString, length: nat)
    requires WellFormed(f) && body <= rest && Validate(f, rest, 0, length).Valid? &&
      Validate(f, rest, 0, length).used <= |body|
    ensures Read(f, Validate(f, rest, 0, length).shape, body, 0, length).Got?
  {
    hide ValidatorOf, ReaderOf;
    ReadAgrees(f);
    assert ReadsAs(ValidatorOf(f)(rest, 0, length), ReaderOf(f)(ValidatorOf(f)(rest, 0, length).shape, body, 0, length),
      IsTyped(f));
  }

  /** A verdict other than "more data" does not change with what arrives after it. */
  lemma SameVerdict(f: Format, rest: ByteString, b: ByteString, length: nat)
    requires Sound(f) && !Validate(f, rest, 0, length).NeedMoreData?
    ensures Validate(f, rest + b, 0, length) == Validate(f, rest, 0, length)
  {
    hide ValidatorOf;
    StableIsFinal(f);
    assert rest <= rest + b;
  }

  lemma AcceptsSame<S>(h: Handler<S>, st: State<S>, frontend: bool, e: Entry, v: Verdict, length: nat, rest: ByteString,
                       b: ByteString, result: Decoding.Result)
    requires v.Valid? && length <= |rest| && Read(e.Body(), v.shape, rest[..length], 0, length).Got?
    ensures
      var d := Accept(h, st, frontend, e, v, length, rest, result);
      d.result == result && Accept(h, st, frontend, e, v, length, rest + b, result) == Step(d.state, d.rest + b, result)
  {
    hide Read, Deliver;
    assert (rest + b)[..length] == rest[..length] && (rest + b)[length..] == rest[length..] + b;
  }

  lemma Front(a: ByteString, b: ByteString, k: nat, n: nat)
    requires k <= n <= |a|
    ensures (a + b)[k..n] == a[k..n] && (a + b)[..n] == a[..n] && (a + b)[n..] == a[n..] + b
  {
  }

  /** Decoding a buffer against decoding it with more bytes after it: the same, or nothing is consumed yet. */
  ghost predicate SameStep<S>(d: Step<S>, w: Step<S>, a: ByteString, b: ByteString) {
    match d.result
    case ReadyForNext =>
      w.result.ReadyForNext? && w.state == d.state &&
        (w.rest == d.rest + b || (d.rest == [] && w.rest == [] && Deaf(d.state.mode)))
    case NeedMoreData => d.rest == a
    case _ => false
  }

  lemma StepInSync<S>(h: Handler<S>, st: State<S>, frontend: bool, a: ByteString, b: ByteString)
    requires FrameFilled(frontend, a + b)
    ensures SameStep(DecodeInSync(h, st, frontend, a), DecodeInSync(h, st, frontend, a + b), a, b)
    ensures FrameFilled(frontend, a)
  {
    hide Validate, Accept, Lookup, Sound;
    if |a| >= 5 {
      Front(a, b, 1, 5);
      var e, length := Lookup(frontend, a[0]), BodyLength(Word32(a[1..5]));
      TableIsSound(frontend, a[0]);
      var v := Validate(e.Body(), a[5..], 0, length);
      if !v.NeedMoreData? {
        SameVerdict(e.Body(), a[5..], b, length);
        if v.Valid? {
          BodyIsHere(e.Body(), a[5..], length);
          AcceptsSame(h, st.(command := a[0]), frontend, e, v, length, a[5..], b, ReadyForNext);
        }
      }
    }
  }

  /** A frame that needs more data is looked at again from its first byte. */
  lemma RetryInSync<S>(h: Handler<S>, st: State<S>, frontend: bool, a: ByteString, b: ByteString)
    requires DecodeInSync(h, st, frontend, a).result.NeedMoreData?
    ensures
      var d := DecodeInSync(h, st, frontend, a);
      d.state.mode == st.mode && DecodeInSync(h, d.state, frontend, a + b) == DecodeInSync(h, st, frontend, a + b)
  {
    hide Validate, Read, Deliver, Lookup;
    if |a| >= 5 { Front(a, b, 1, 5); }
  }

  lemma StartupIsFilled(rest: ByteString, length: nat)
    ensures Filled(Startup().Body(), Validate(Startup().Body(), rest, 0, length))
  {
    hide ValidatorOf, Startup, AwaitsAll;
    var f := Startup().Body();
    StartupIsSound();
    if Validate(f, rest, 0, length).Valid? {
      RigidDecides(f);
      AwaitsAllBytes(f);
      assert Fits(ValidatorOf(f)(rest, 0, length));
    }
  }

  lemma StepInit<S>(h: Handler<S>, tls: Tls, st: State<S>, a: ByteString, b: ByteString)
    requires Plain(tls)
    ensures SameStep(DecodeInit(h, tls, st, a), DecodeInit(h, tls, st, a + b), a, b)
    ensures DecodeInit(h, tls, st, a).result.NeedMoreData? ==> DecodeInit(h, tls, st, a).state == st
  {
    hide Validate, Accept, Startup, Sound;
    if |a| >= 4 {
      Front(a, b, 0, 4);
      var f, length := Startup().Body(), BodyLength(Word32(a[..4]));
      StartupIsSound();
      var v := Validate(f, a[4..], 0, length);
      if !v.NeedMoreData? {
        SameVerdict(f, a[4..], b, length);
        if v.Valid? {
          StartupHasCode(a[4..], length);
          Front(a, b, 4, 8);
          StartupIsFilled(a[4..], length);
          BodyIsHere(f, a[4..], length);
          var code := Word32(a[4..8]);
          AcceptsSame(h, AfterStartup(tls, st, code, a), true, Startup(), v, length, a[4..], b,
            StartupResult(tls, code));
        }
      }
    }
  }

  lemma StepAny<S>(h: Handler<S>, tls: Tls, st: State<S>, frontend: bool, a: ByteString, b: ByteString)
    requires Plain(tls) && !st.mode.Negotiating? && (st.mode.InSync? ==> FrameFilled(frontend, a + b))
    ensures SameStep(Decode(h, tls, st, frontend, a), Decode(h, tls, st, frontend, a + b), a, b)
    ensures
      var d := Decode(h, tls, st, frontend, a);
      d.result.NeedMoreData? ==>
        d.state.mode == st.mode && Decode(h, tls, d.state, frontend, a + b) == Decode(h, tls, st, frontend, a + b)
  {
    hide DecodeInit, DecodeInSync, FrameFilled;
    match st.mode
    case Init => StepInit(h, tls, st, a, b);
    case InSync =>
      StepInSync(h, st, frontend, a, b);
      if DecodeInSync(h, st, frontend, a).result.NeedMoreData? { RetryInSync(h, st, frontend, a, b); }
    case _ =>
  }

  lemma NeverNegotiates<S>(h: Handler<S>, tls: Tls, st: State<S>, frontend: bool, data: ByteString)
    requires Plain(tls) && !st.mode.Negotiating?
    ensures !Decode(h, tls, st, frontend, data).state.mode.Negotiating?
  {
    hide Validate, Read;
  }

  // --- runs ---

  /**
   * Decoding the bytes at hand and then the rest: the same state and the same bytes left as decoding all of
   * them at once.
   */
  lemma {:induction false} RunInTwo<S>(h: Handler<S>, tls: Tls, st: State<S>, frontend: bool, a: ByteString,
                                       b: ByteString)
    requires Plain(tls) && !st.mode.Negotiating? && Clean(h, tls, st, frontend, a + b)
    ensures
      var first, whole := Run(h, tls, st, frontend, a), Run(h, tls, st, frontend, a + b);
      var second := Run(h, tls, first.state, frontend, first.rest + b);
      && !first.state.mode.Negotiating?
      && second.state == whole.state && second.rest == whole.rest
      && Clean(h, tls, first.state, frontend, first.rest + b)
    decreases |a|
  {
    hide Decode, FrameFilled;
    if a == [] {
      assert a + b == b;
    } else {
      var d, w := Decode(h, tls, st, frontend, a), Decode(h, tls, st, frontend, a + b);
      Consumes(h, tls, st, frontend, a);
      Consumes(h, tls, st, frontend, a + b);
      StepAny(h, tls, st, frontend, a, b);
      NeverNegotiates(h, tls, st, frontend, a);
      if d.result.ReadyForNext? {
        if w.rest == d.rest + b {
          RunInTwo(h, tls, d.state, frontend, d.rest, b);
        } else {
          assert d.rest + b == b;
          DeafRun(h, tls, d.state, frontend, b);
        }
      }
    }
  }

  lemma DeafRun<S>(h: Handler<S>, tls: Tls, st: State<S>, frontend: bool, data: ByteString)
    requires Deaf(st.mode)
    ensures Run(h, tls, st, frontend, data).state == st && Run(h, tls, st, frontend, data).rest == []
    ensures Clean(h, tls, st, frontend, data)
  {
    hide DecodeInit, DecodeInSync, FrameFilled;
    if data != [] {
      assert Decode(h, tls, st, frontend, data) == Step(st, [], ReadyForNext);
    }
  }

  /** What is left after a run stays as it is until more bytes arrive. */
  lemma Settled<S>(h: Handler<S>, tls: Tls, st: State<S>, frontend: bool, a: ByteString, b: ByteString)
    requires Plain(tls) && !st.mode.Negotiating? && Clean(h, tls, st, frontend, a + b)
    ensures
      var d := Run(h, tls, st, frontend, a);
      var again := Run(h, tls, d.state, frontend, d.rest);
      again.rest == d.rest && again.state == d.state
  {
    CleanPrefix(h, tls, st, frontend, a, b);
    assert a + [] == a;
    RunInTwo(h, tls, st, frontend, a, []);
    var d := Run(h, tls, st, frontend, a);
    assert d.rest + [] == d.rest;
  }

  lemma {:induction false} CleanPrefix<S>(h: Handler<S>, tls: Tls, st: State<S>, frontend: bool, a: ByteString,
                                          b: ByteString)
    requires Plain(tls) && !st.mode.Negotiating? && Clean(h, tls, st, frontend, a + b)
    ensures Clean(h, tls, st, frontend, a)
    decreases |a|
  {
    hide Decode, FrameFilled;
    if a == [] {
    } else {
      var d, w := Decode(h, tls, st, frontend, a), Decode(h, tls, st, frontend, a + b);
      Consumes(h, tls, st, frontend, a);
      Consumes(h, tls, st, frontend, a + b);
      StepAny(h, tls, st, frontend, a, b);
      if st.mode.InSync? { StepInSync(h, st, frontend, a, b); }
      NeverNegotiates(h, tls, st, frontend, a);
      if d.result.ReadyForNext? {
        if w.rest == d.rest + b {
          CleanPrefix(h, tls, d.state, frontend, d.rest, b);
        } else {
          DeafRun(h, tls, d.state, frontend, d.rest);
        }
      }
    }
  }
}
