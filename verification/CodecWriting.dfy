/** Writing what was read, reading what was written, and the length field, for every format. */
module CodecWriting {
  import opened Outcomes
  import opened Bytes
  import opened Codec
  import opened Lists
  import opened CodecLaws
  import opened CodecRoundTrip

  // --- writing back what was read ---

  /** A variable-length field is spelled with a length other than -1 for NULL, or is empty: it is read as NULL. */
  predicate CellRespelled(rest: ByteString, left: int) { |rest| >= 4 && CellLength(rest) < 1 && CellLength(rest) != -1 }

  function RespelledIn(f: Format): Event { AtCells(f, CellRespelled) }

  /** The value read is written with as many bytes, and with the same bytes unless something changed. */
  predicate WrittenBack(v: Verdict, r: Reading, w: Writer, rest: ByteString, changed: bool) {
    && v.Valid? && r.Got? && r.used == v.used && r.left == v.left && |w(r.value)| == v.used <= |rest|
    && (w(r.value) == rest[..v.used] <==> !changed)
  }

  /** The same of a list. */
  predicate ListWrittenBack(v: Verdict, r: Reading, w: Writer, rest: ByteString, changed: bool) {
    v.Valid? && v.shape.Items? && r.Got? && r.value.Many? && WrittenBack(v, r, RepeatedWriter(w), rest, changed)
  }

  ghost predicate Restores(v: Validator, r: Reader, w: Writer, event: Event) {
    forall rest, offset: nat, left: int {:trigger r(v(rest, offset, left).shape, rest, offset, left)} ::
      v(rest, offset, left).Valid? ==>
        WrittenBack(v(rest, offset, left), r(v(rest, offset, left).shape, rest, offset, left), w, rest,
          event(rest, offset, left))
  }

  lemma ConcatPrefix(x: ByteString, y: ByteString, rest: ByteString)
    requires |x| + |y| <= |rest|
    ensures x + y == rest[..|x| + |y|] <==> x == rest[..|x|] && y == rest[|x|..][..|y|]
  {
    var p := rest[..|x| + |y|];
    assert p[..|x|] == rest[..|x|] && p[|x|..] == rest[|x|..][..|y|];
    if x + y == p { assert x == (x + y)[..|x|] && y == (x + y)[|x|..]; }
    if x == rest[..|x|] && y == rest[|x|..][..|y|] { assert p == p[..|x|] + p[|x|..]; }
  }

  /** One item, then the items after it. */
  lemma ItemThenItemsBack(reader: Reader, w: Writer, v: Verdict, count: nat, more: Verdict, rest: ByteString,
                          offset: nat, left: int, c1: bool, c2: bool)
    requires v.Valid? && v.used <= |rest| && more.Valid? && more.shape.Items?
    requires WrittenBack(v, reader(v.shape, rest, offset, left), w, rest, c1)
    requires ListWrittenBack(more,
      ReadItems(reader, count, more.shape.items, Drop(rest, v.used), offset + v.used, v.left), w, Drop(rest, v.used),
        c2)
    ensures ListWrittenBack(AfterShape(v.used, v.shape, more),
                            ReadItems(reader, count + 1, Cons(v.shape, more.shape.items), rest, offset, left), w, rest,
                              c1 || c2)
  {
    var r := reader(v.shape, rest, offset, left);
    var s := ReadItems(reader, count, more.shape.items, Drop(rest, v.used), offset + v.used, v.left);
    ConcatPrefix(w(r.value), WriteItems(w, s.value.items), rest);
  }

  ghost predicate ItemsWrittenBack(item: Validator, reader: Reader, w: Writer, event: Event, count: nat,
                                   rest: ByteString, offset: nat, left: int) {
    var v := ValidateItems(item, count, rest, offset, left);
    && v.Valid? && v.shape.Items?
    && ListWrittenBack(v, ReadItems(reader, count, v.shape.items, rest, offset, left), w, rest,
      ItemsEvent(item, event, count, rest, offset, left))
  }

  lemma ItemsBackNext(item: Validator, reader: Reader, w: Writer, event: Event, count: nat, rest: ByteString,
                      offset: nat, left: int)
    requires
      var v := item(rest, offset, left);
      && v.Valid? && WrittenBack(v, reader(v.shape, rest, offset, left), w, rest, event(rest, offset, left))
      && ItemsWrittenBack(item, reader, w, event, count, Drop(rest, v.used), offset + v.used, v.left)
    ensures ItemsWrittenBack(item, reader, w, event, count + 1, rest, offset, left)
  {
    var v := item(rest, offset, left);
    var rest', offset' := Drop(rest, v.used), offset + v.used;
    ItemThenItemsBack(reader, w, v, count, ValidateItems(item, count, rest', offset', v.left), rest, offset, left,
                      event(rest, offset, left), ItemsEvent(item, event, count, rest', offset', v.left));
  }

  lemma {:induction false} ItemsBack(item: Validator, reader: Reader, w: Writer, event: Event, count: nat,
                                     rest: ByteString, offset: nat, left: int)
    requires Bounded(item) && Restores(item, reader, w, event) && ValidateItems(item, count, rest, offset, left).Valid?
    ensures ItemsWrittenBack(item, reader, w, event, count, rest, offset, left)
    decreases count
  {
    if count > 0 {
      var v := item(rest, offset, left);
      assert Counts(v, rest, left);
      assert WrittenBack(v, reader(v.shape, rest, offset, left), w, rest, event(rest, offset, left));
      ItemsBack(item, reader, w, event, count - 1, Drop(rest, v.used), offset + v.used, v.left);
      ItemsBackNext(item, reader, w, event, count - 1, rest, offset, left);
    }
  }

  ghost predicate AllWrittenBack(item: Validator, reader: Reader, w: Writer, event: Event, rest: ByteString,
                                 offset: nat, left: int) {
    var v := ValidateAll(item, rest, offset, left);
    && v.Valid? && v.shape.Items?
    && ListWrittenBack(v, ReadItems(reader, Length(v.shape.items), v.shape.items, rest, offset, left), w, rest,
                       AllEvent(item, event, rest, offset, left))
  }

  lemma AllBackNext(item: Validator, reader: Reader, w: Writer, event: Event, rest: ByteString, offset: nat, left: int)
    requires
      var v := item(rest, offset, left);
      && left != 0 && v.Valid? && 0 < v.used <= |rest|
      && WrittenBack(v, reader(v.shape, rest, offset, left), w, rest, event(rest, offset, left))
      && AllWrittenBack(item, reader, w, event, rest[v.used..], offset + v.used, v.left)
    ensures AllWrittenBack(item, reader, w, event, rest, offset, left)
  {
    hide ListWrittenBack, WrittenBack;
    var v := item(rest, offset, left);
    var rest', offset' := rest[v.used..], offset + v.used;
    var more := ValidateAll(item, rest', offset', v.left);
    ItemThenItemsBack(reader, w, v, Length(more.shape.items), more, rest, offset, left,
                      event(rest, offset, left), AllEvent(item, event, rest', offset', v.left));
  }

  lemma AllBackDone(item: Validator, reader: Reader, w: Writer, event: Event, rest: ByteString, offset: nat, left: int)
    requires
      var v := item(rest, offset, left);
      left == 0 || !v.Valid? || v.used == 0 || v.used > |rest|
    ensures AllWrittenBack(item, reader, w, event, rest, offset, left)
  {
  }

  lemma {:induction false} AllBack(item: Validator, reader: Reader, w: Writer, event: Event, rest: ByteString,
                                   offset: nat, left: int)
    requires Bounded(item) && Restores(item, reader, w, event)
    ensures AllWrittenBack(item, reader, w, event, rest, offset, left)
    decreases |rest|
  {
    hide AllWrittenBack, WrittenBack;
    var v := item(rest, offset, left);
    assert Counts(v, rest, left);
    if left != 0 && v.Valid? && v.used > 0 {
      assert WrittenBack(v, reader(v.shape, rest, offset, left), w, rest, event(rest, offset, left));
      AllBack(item, reader, w, event, rest[v.used..], offset + v.used, v.left);
      AllBackNext(item, reader, w, event, rest, offset, left);
    } else {
      AllBackDone(item, reader, w, event, rest, offset, left);
    }
  }

  /** What is read of a count field is a number. */
  ghost predicate ReadsNumber(rc: Reader) {
    forall body, offset: nat, left: int :: rc(Bare, body, offset, left).Got? ==>
      rc(Bare, body, offset, left).value.Number?
  }

  lemma CountedBackAt(c: Validator, rc: Reader, wc: Writer, item: Validator, reader: Reader, w: Writer, event: Event,
                      rest: ByteString, offset: nat, left: int)
    requires Bounded(c) && Restores(c, rc, wc, NoEvent()) && Countable(c, rc) && ReadsNumber(rc)
    requires Bounded(item) && Restores(item, reader, w, event) &&
      ValidateCounted(c, rc, item, rest, offset, left).Valid?
    ensures
      var v := ValidateCounted(c, rc, item, rest, offset, left);
      WrittenBack(v, ReadCounted(rc, reader, v.shape, rest, offset, left), CountedWriter(wc, w), rest,
                  CountedEvent(c, rc, item, event, rest, offset, left))
  {
    var v, r := c(rest, offset, left), rc(Bare, rest, offset, left);
    assert Counts(v, rest, left) && v.shape == Bare;
    assert WrittenBack(v, rc(v.shape, rest, offset, left), wc, rest, NoEvent()(rest, offset, left));
    var count, rest', offset' := CountOf(r), Drop(rest, v.used), offset + v.used;
    ItemsBack(item, reader, w, event, count, rest', offset', v.left);
    var shapes := ValidateItems(item, count, rest', offset', v.left).shape.items;
    ReadItemsLength(reader, count, shapes, rest', offset', v.left);
    var s := ReadItems(reader, count, shapes, rest', offset', v.left);
    assert r.value == Number(Length(s.value.items));
    ConcatPrefix(wc(r.value), WriteItems(w, s.value.items), rest);
  }

  lemma PairBackAt(a: Validator, ra: Reader, wa: Writer, ea: Event, b: Validator, rb: Reader, wb: Writer, eb: Event,
                   rest: ByteString, offset: nat, left: int)
    requires Bounded(a) && Restores(a, ra, wa, ea) && Restores(b, rb, wb, eb) &&
      ValidatePair(a, b, rest, offset, left).Valid?
    ensures
      var v := ValidatePair(a, b, rest, offset, left);
      WrittenBack(v, ReadPair(ra, rb, v.shape, rest, offset, left), PairWriter(wa, wb), rest,
        PairEvent(a, ea, eb, rest, offset, left))
  {
    var v := a(rest, offset, left);
    assert Counts(v, rest, left);
    assert WrittenBack(v, ra(v.shape, rest, offset, left), wa, rest, ea(rest, offset, left));
    var rest', offset' := Drop(rest, v.used), offset + v.used;
    var v' := b(rest', offset', v.left);
    assert WrittenBack(v', rb(v'.shape, rest', offset', v.left), wb, rest', eb(rest', offset', v.left));
    ConcatPrefix(wa(ra(v.shape, rest, offset, left).value), wb(rb(v'.shape, rest', offset', v.left).value), rest);
  }

  lemma PairBack(f: Format, g: Format)
    requires Restores(ValidatorOf(f), ReaderOf(f), WriterOf(f), RespelledIn(f))
    requires Restores(ValidatorOf(g), ReaderOf(g), WriterOf(g), RespelledIn(g))
    ensures Restores(ValidatorOf(Pair(f, g)), ReaderOf(Pair(f, g)), WriterOf(Pair(f, g)), RespelledIn(Pair(f, g)))
  {
    var h := Pair(f, g);
    var v, r, w, e := ValidatorOf(h), ReaderOf(h), WriterOf(h), RespelledIn(h);
    AllBounded(f);
    forall rest, offset: nat, left: int | v(rest, offset, left).Valid?
      ensures WrittenBack(v(rest, offset, left), r(v(rest, offset, left).shape, rest, offset, left), w, rest,
        e(rest, offset, left))
    {
      PairBackAt(ValidatorOf(f), ReaderOf(f), WriterOf(f), RespelledIn(f), ValidatorOf(g), ReaderOf(g), WriterOf(g),
        RespelledIn(g), rest, offset, left);
    }
  }

  lemma CountedBack(c: Validator, rc: Reader, wc: Writer, item: Validator, reader: Reader, w: Writer, event: Event)
    requires Bounded(c) && Restores(c, rc, wc, NoEvent()) && Countable(c, rc) && ReadsNumber(rc)
    requires Bounded(item) && Restores(item, reader, w, event)
    ensures Restores(CountedValidator(c, rc, item), CountedReader(rc, reader), CountedWriter(wc, w),
      InCounted(c, rc, item, event))
  {
    var v, r, w', e := CountedValidator(c, rc, item), CountedReader(rc, reader), CountedWriter(wc, w),
      InCounted(c, rc, item, event);
    forall rest, offset: nat, left: int | v(rest, offset, left).Valid?
      ensures WrittenBack(v(rest, offset, left), r(v(rest, offset, left).shape, rest, offset, left), w', rest,
        e(rest, offset, left))
    {
      CountedBackAt(c, rc, wc, item, reader, w, event, rest, offset, left);
    }
  }

  lemma ArrayBack(item: Format)
    requires Restores(ValidatorOf(item), ReaderOf(item), WriterOf(item), RespelledIn(item))
    ensures Restores(ValidatorOf(Array(item)), ReaderOf(Array(item)), WriterOf(Array(item)), RespelledIn(Array(item)))
  {
    AllBounded(item);
    IntBounded(2);
    IntBack(2);
    IntCountable(2);
    CountedBack(IntValidator(2), IntReader(2), IntWriter(2), ValidatorOf(item), ReaderOf(item), WriterOf(item),
      RespelledIn(item));
  }

  lemma RepeatedBack(item: Format)
    requires Restores(ValidatorOf(item), ReaderOf(item), WriterOf(item), RespelledIn(item))
    ensures Restores(ValidatorOf(Repeated(item)), ReaderOf(Repeated(item)), WriterOf(Repeated(item)),
      RespelledIn(Repeated(item)))
  {
    var f := Repeated(item);
    var v, r, w, e := ValidatorOf(f), ReaderOf(f), WriterOf(f), RespelledIn(f);
    AllBounded(item);
    forall rest, offset: nat, left: int | v(rest, offset, left).Valid?
      ensures WrittenBack(v(rest, offset, left), r(v(rest, offset, left).shape, rest, offset, left), w, rest,
        e(rest, offset, left))
    {
      AllBack(ValidatorOf(item), ReaderOf(item), WriterOf(item), RespelledIn(item), rest, offset, left);
    }
  }

  lemma IntBack(n: nat)
    ensures Restores(IntValidator(n), IntReader(n), IntWriter(n), NoEvent())
  {
    var v, r := IntValidator(n), IntReader(n);
    forall rest, offset: nat, left: int | v(rest, offset, left).Valid?
      ensures WrittenBack(v(rest, offset, left), r(v(rest, offset, left).shape, rest, offset, left), IntWriter(n), rest,
        false)
    {
      FromBigEndianRoundTrip(rest[..n]);
    }
  }

  lemma StringBack()
    ensures Restores(StringValidator(), StringReader(), StringWriter(), NoEvent())
  {
    var v, r := StringValidator(), StringReader();
    forall rest, offset: nat, left: int | v(rest, offset, left).Valid?
      ensures WrittenBack(v(rest, offset, left), r(v(rest, offset, left).shape, rest, offset, left), StringWriter(),
        rest, false)
    {
      var size := v(rest, offset, left).used - 1;
      assert rest[..size] + [0] == rest[..size + 1];
    }
  }

  lemma BytesBack()
    ensures Restores(BytesValidator(), BytesReader(), BytesWriter(), NoEvent())
    ensures Restores(EmptyValidator(), EmptyReader(), EmptyWriter(), NoEvent())
  {
  }

  lemma LengthBytes(rest: ByteString, n: nat)
    requires |rest| >= 4 && n < TWO_32
    ensures Put32(n) == rest[..4] <==> Word32(rest) == n
  {
    Put32RoundTrip(rest[..4]);
    Word32RoundTrip(n);
    assert Word32(rest) == Word32(rest[..4]);
  }

  lemma CellBack()
    ensures Restores(CellValidator(), CellReader(), CellWriter(), CellEvent(CellRespelled))
  {
    var v, r, e := CellValidator(), CellReader(), CellEvent(CellRespelled);
    forall rest, offset: nat, left: int | v(rest, offset, left).Valid?
      ensures WrittenBack(v(rest, offset, left), r(v(rest, offset, left).shape, rest, offset, left), CellWriter(), rest,
                          e(rest, offset, left))
    {
      var len := CellLength(rest);
      LengthBytes(rest, if len >= 1 then len else TWO_32 - 1);
      assert Signed32(Word32(rest)) == -1 <==> Word32(rest) == TWO_32 - 1;
      assert e(rest, offset, left) == CellRespelled(rest, left);
      if len >= 1 { assert rest[..4] + rest[4..4 + len] == rest[..4 + len]; }
    }
  }

  /**
   * For every format: the value read takes as many bytes as were validated, and is written back with the
   * very bytes it was read from exactly when no variable-length field is empty or has a length below -1.
   */
  lemma {:induction false} ReadIsWrittenBack(f: Format)
    ensures Restores(ValidatorOf(f), ReaderOf(f), WriterOf(f), RespelledIn(f))
  {
    match f
    case Array(item) =>
      ReadIsWrittenBack(item);
      ArrayBack(item);
    case Repeated(item) =>
      ReadIsWrittenBack(item);
      RepeatedBack(item);
    case Pair(a, b) =>
      ReadIsWrittenBack(a);
      ReadIsWrittenBack(b);
      PairBack(a, b);
    case Int(n) => IntBack(n);
    case VarByteN => CellBack();
    case CString => StringBack();
    case ByteN => BytesBack();
    case Empty => BytesBack();
  }
}
