/** Reading what was validated, writing what was read, and reading what was written, for every format. */
module CodecRoundTrip {
  import opened Outcomes
  import opened Bytes
  import opened Codec
  import opened Lists
  import opened CodecLaws

  // --- validation and reading agree ---

  /** The read goes through: the same bytes used and left, and a value of the format. */
  predicate ReadsAs(v: Verdict, r: Reading, typed: Value -> bool) {
    v.Valid? && r.Got? && r.used == v.used && r.left == v.left && typed(r.value)
  }

  /**
   * After a valid verdict the read of any body that holds the bytes used goes through: no access outside
   * the body, and strings where validation found them.
   */
  ghost predicate Agrees(v: Validator, r: Reader, typed: Value -> bool) {
    forall rest, body, offset: nat, left: int {:trigger r(v(rest, offset, left).shape, body, offset, left)} ::
      body <= rest && v(rest, offset, left).Valid? && v(rest, offset, left).used <= |body| ==>
        ReadsAs(v(rest, offset, left), r(v(rest, offset, left).shape, body, offset, left), typed)
  }

  predicate ListOf(f: Format, v: Value) { v.Many? && AllTyped(f, v.items) }

  function IsTyped(f: Format): Value -> bool { v => Typed(f, v) }

  function IsList(f: Format): Value -> bool { v => ListOf(f, v) }

  lemma PrefixDrops(body: ByteString, rest: ByteString, n: nat)
    requires body <= rest && n <= |body|
    ensures Drop(body, n) <= Drop(rest, n) && |Drop(body, n)| == |body| - n
  {
  }

  lemma {:induction false} ItemsAgree(item: Validator, reader: Reader, f: Format, count: nat, rest: ByteString,
                                      body: ByteString, offset: nat, left: int)
    requires Bounded(item) && Agrees(item, reader, IsTyped(f)) && body <= rest
    requires ValidateItems(item, count, rest, offset, left).Valid? &&
      ValidateItems(item, count, rest, offset, left).used <= |body|
    ensures
      var v := ValidateItems(item, count, rest, offset, left);
      && v.shape.Items? && Length(v.shape.items) == count
      && ReadsAs(v, ReadItems(reader, count, v.shape.items, body, offset, left), IsList(f))
    decreases count
  {
    ItemsCount(item, count, rest, offset, left);
    if count > 0 {
      var v := item(rest, offset, left);
      assert Counts(v, rest, left);
      assert ReadsAs(v, reader(v.shape, body, offset, left), IsTyped(f));
      ItemsCount(item, count - 1, Drop(rest, v.used), offset + v.used, v.left);
      PrefixDrops(body, rest, v.used);
      ItemsAgree(item, reader, f, count - 1, Drop(rest, v.used), Drop(body, v.used), offset + v.used, v.left);
    }
  }

  /** The items a repeated field was validated as are read from the body. */
  predicate ReadsAll(item: Validator, reader: Reader, f: Format, rest: ByteString, body: ByteString, offset: nat,
                     left: int) {
    var v := ValidateAll(item, rest, offset, left);
    v.Valid? && v.used <= |body| ==>
      v.shape.Items? && ReadsAs(v, ReadItems(reader, Length(v.shape.items), v.shape.items, body, offset, left),
        IsList(f))
  }

  lemma ReadsAllNext(item: Validator, reader: Reader, f: Format, rest: ByteString, body: ByteString, offset: nat,
                     left: int)
    requires
      var v := item(rest, offset, left);
      && left != 0 && v.Valid? && 0 < v.used <= |body| <= |rest|
      && ReadsAs(v, reader(v.shape, body, offset, left), IsTyped(f))
      && ReadsAll(item, reader, f, rest[v.used..], Drop(body, v.used), offset + v.used, v.left)
      && var more := ValidateAll(item, rest[v.used..], offset + v.used, v.left); more.Valid? && more.shape.Items?
    ensures ReadsAll(item, reader, f, rest, body, offset, left)
  {
    hide Typed;
    var v := item(rest, offset, left);
    assert |Drop(body, v.used)| == |body| - v.used;
  }

  lemma {:induction false} AllAgree(item: Validator, reader: Reader, f: Format, rest: ByteString, body: ByteString,
                                    offset: nat, left: int)
    requires Bounded(item) && Agrees(item, reader, IsTyped(f)) && body <= rest
    ensures ReadsAll(item, reader, f, rest, body, offset, left)
    decreases |rest|
  {
    AllCounts(item, rest, offset, left);
    var v := item(rest, offset, left);
    assert Counts(v, rest, left);
    if left != 0 && v.Valid? && 0 < v.used <= |body| {
      assert ReadsAs(v, reader(v.shape, body, offset, left), IsTyped(f));
      AllCounts(item, rest[v.used..], offset + v.used, v.left);
      PrefixDrops(body, rest, v.used);
      AllAgree(item, reader, f, Drop(rest, v.used), Drop(body, v.used), offset + v.used, v.left);
      ReadsAllNext(item, reader, f, rest, body, offset, left);
    } else if left != 0 && v.Valid? && v.used > 0 {
      AllCounts(item, rest[v.used..], offset + v.used, v.left);
    }
  }

  /** The count field reads a number below 2^16. */
  ghost predicate SmallCount(c: Validator, rc: Reader) {
    forall rest, offset: nat, left: int {:trigger c(rest, offset, left)} ::
      c(rest, offset, left).Valid? ==> CountOf(rc(Bare, rest, offset, left)) < TWO_16
  }

  lemma CountedAgreesAt(c: Validator, rc: Reader, typed: Value -> bool, item: Validator, reader: Reader, f: Format,
                        rest: ByteString, body: ByteString, offset: nat, left: int)
    requires Bounded(c) && Agrees(c, rc, typed) && Countable(c, rc) && SmallCount(c, rc)
    requires Bounded(item) && Agrees(item, reader, IsTyped(f)) && body <= rest
    requires ValidateCounted(c, rc, item, rest, offset, left).Valid? &&
      ValidateCounted(c, rc, item, rest, offset, left).used <= |body|
    ensures
      var v := ValidateCounted(c, rc, item, rest, offset, left);
      ReadsAs(v, ReadCounted(rc, reader, v.shape, body, offset, left), IsTyped(Array(f)))
  {
    var v := c(rest, offset, left);
    assert Counts(v, rest, left);
    var count := CountOf(rc(Bare, rest, offset, left));
    assert v.shape == Bare && count < TWO_16;
    assert ReadsAs(v, rc(v.shape, body, offset, left), typed);
    assert CountOf(rc(Bare, body, offset, left)) == count;
    var rest', body' := Drop(rest, v.used), Drop(body, v.used);
    ItemsCount(item, count, rest', offset + v.used, v.left);
    PrefixDrops(body, rest, v.used);
    ItemsAgree(item, reader, f, count, rest', body', offset + v.used, v.left);
    CountThenItems(c, rc, typed, item, reader, f, rest, body, offset, left);
  }

  lemma CountThenItems(c: Validator, rc: Reader, typed: Value -> bool, item: Validator, reader: Reader, f: Format,
                       rest: ByteString, body: ByteString, offset: nat, left: int)
    requires c(rest, offset, left).Valid? && ReadsAs(c(rest, offset, left), rc(Bare, body, offset, left), typed)
    requires CountOf(rc(Bare, body, offset, left)) == CountOf(rc(Bare, rest, offset, left)) < TWO_16
    requires
      var v, count := c(rest, offset, left), CountOf(rc(Bare, rest, offset, left));
      var w := ValidateItems(item, count, Drop(rest, v.used), offset + v.used, v.left);
      && w.Valid? && w.shape.Items?
      && ReadsAs(w, ReadItems(reader, count, w.shape.items, Drop(body, v.used), offset + v.used, v.left), IsList(f))
    ensures
      var v := ValidateCounted(c, rc, item, rest, offset, left);
      v.Valid? && ReadsAs(v, ReadCounted(rc, reader, v.shape, body, offset, left), IsTyped(Array(f)))
  {
    var v, count := c(rest, offset, left), CountOf(rc(Bare, rest, offset, left));
    var w := ValidateItems(item, count, Drop(rest, v.used), offset + v.used, v.left);
    ReadItemsLength(reader, count, w.shape.items, Drop(body, v.used), offset + v.used, v.left);
  }

  lemma {:induction false} ReadItemsLength(reader: Reader, count: nat, shapes: List<Shape>, body: ByteString,
                                           offset: nat, left: int)
    ensures
      var r := ReadItems(reader, count, shapes, body, offset, left);
      r.Got? ==> r.value.Many? && Length(r.value.items) == count
    decreases count
  {
    if count > 0 && shapes.Cons? {
      var r := reader(shapes.head, body, offset, left);
      if r.Got? { ReadItemsLength(reader, count - 1, shapes.tail, Drop(body, r.used), offset + r.used, r.left); }
    }
  }

  lemma IntSmallCount()
    ensures SmallCount(IntValidator(2), IntReader(2))
  {
    var c, rc := IntValidator(2), IntReader(2);
    forall rest, offset: nat, left: int | c(rest, offset, left).Valid?
      ensures CountOf(rc(Bare, rest, offset, left)) < TWO_16
    {
      FromBigEndianRoundTrip(rest[..2]);
      Powers();
    }
  }

  lemma ArrayAgrees(item: Validator, reader: Reader, f: Format)
    requires Bounded(item) && Agrees(item, reader, IsTyped(f))
    ensures Agrees(ArrayValidator(item), ArrayReader(reader), IsTyped(Array(f)))
  {
    IntBounded(2);
    IntAgrees(2);
    IntCountable(2);
    IntSmallCount();
    CountedAgrees(IntValidator(2), IntReader(2), IsTyped(Int(2)), item, reader, f);
  }

  lemma CountedAgrees(c: Validator, rc: Reader, typed: Value -> bool, item: Validator, reader: Reader, f: Format)
    requires Bounded(c) && Agrees(c, rc, typed) && Countable(c, rc) && SmallCount(c, rc)
    requires Bounded(item) && Agrees(item, reader, IsTyped(f))
    ensures Agrees(CountedValidator(c, rc, item), CountedReader(rc, reader), IsTyped(Array(f)))
  {
    var v, r := CountedValidator(c, rc, item), CountedReader(rc, reader);
    forall rest, body, offset: nat, left: int
      | body <= rest && v(rest, offset, left).Valid? && v(rest, offset, left).used <= |body|
      ensures ReadsAs(v(rest, offset, left), r(v(rest, offset, left).shape, body, offset, left), IsTyped(Array(f)))
    {
      CountedAgreesAt(c, rc, typed, item, reader, f, rest, body, offset, left);
    }
  }

  lemma RepeatedAgrees(item: Validator, reader: Reader, f: Format)
    requires Bounded(item) && Agrees(item, reader, IsTyped(f))
    ensures Agrees(RepeatedValidator(item), RepeatedReader(reader), IsTyped(Repeated(f)))
  {
    var v, r := RepeatedValidator(item), RepeatedReader(reader);
    forall rest, body, offset: nat, left: int
      | body <= rest && v(rest, offset, left).Valid? && v(rest, offset, left).used <= |body|
      ensures ReadsAs(v(rest, offset, left), r(v(rest, offset, left).shape, body, offset, left), IsTyped(Repeated(f)))
    {
      AllAgree(item, reader, f, rest, body, offset, left);
    }
  }

  predicate BothOf(typed: Value -> bool, typed': Value -> bool, v: Value) {
    v.Both? && typed(v.first) && typed'(v.second)
  }

  function IsBoth(typed: Value -> bool, typed': Value -> bool): Value -> bool { v => BothOf(typed, typed', v) }

  lemma PairAgreesAt(a: Validator, ra: Reader, b: Validator, rb: Reader, typed: Value -> bool, typed': Value -> bool,
                     rest: ByteString, body: ByteString, offset: nat, left: int)
    requires Bounded(a) && Bounded(b) && Agrees(a, ra, typed) && Agrees(b, rb, typed') && body <= rest
    requires ValidatePair(a, b, rest, offset, left).Valid? && ValidatePair(a, b, rest, offset, left).used <= |body|
    ensures
      var v := ValidatePair(a, b, rest, offset, left);
      ReadsAs(v, ReadPair(ra, rb, v.shape, body, offset, left), IsBoth(typed, typed'))
  {
    var v := a(rest, offset, left);
    assert Counts(v, rest, left);
    assert ReadsAs(v, ra(v.shape, body, offset, left), typed);
    PrefixDrops(body, rest, v.used);
    var w := b(Drop(rest, v.used), offset + v.used, v.left);
    assert ReadsAs(w, rb(w.shape, Drop(body, v.used), offset + v.used, v.left), typed');
  }

  lemma PairAgrees(a: Validator, ra: Reader, b: Validator, rb: Reader, f: Format, g: Format)
    requires Bounded(a) && Bounded(b) && Agrees(a, ra, IsTyped(f)) && Agrees(b, rb, IsTyped(g))
    ensures Agrees(PairValidator(a, b), PairReader(ra, rb), IsTyped(Pair(f, g)))
  {
    hide ValidatePair, ReadPair;
    var v, r := PairValidator(a, b), PairReader(ra, rb);
    forall rest, body, offset: nat, left: int
      | body <= rest && v(rest, offset, left).Valid? && v(rest, offset, left).used <= |body|
      ensures ReadsAs(v(rest, offset, left), r(v(rest, offset, left).shape, body, offset, left), IsTyped(Pair(f, g)))
    {
      PairAgreesAt(a, ra, b, rb, IsTyped(f), IsTyped(g), rest, body, offset, left);
    }
  }

  lemma IntAgrees(n: nat)
    requires n < TWO_64
    ensures Agrees(IntValidator(n), IntReader(n), IsTyped(Int(n)))
  {
    var v, r := IntValidator(n), IntReader(n);
    forall rest, body, offset: nat, left: int
      | body <= rest && v(rest, offset, left).Valid? && v(rest, offset, left).used <= |body|
      ensures ReadsAs(v(rest, offset, left), r(v(rest, offset, left).shape, body, offset, left), IsTyped(Int(n)))
    {
      FromBigEndianRoundTrip(body[..n]);
    }
  }

  lemma CellAgrees()
    ensures Agrees(CellValidator(), CellReader(), IsTyped(VarByteN))
  {
    var v, r := CellValidator(), CellReader();
    forall rest, body, offset: nat, left: int
      | body <= rest && v(rest, offset, left).Valid? && v(rest, offset, left).used <= |body|
      ensures ReadsAs(v(rest, offset, left), r(v(rest, offset, left).shape, body, offset, left), IsTyped(VarByteN))
    {
      assert body[0] == rest[0] && body[1] == rest[1] && body[2] == rest[2] && body[3] == rest[3];
    }
  }

  lemma StringAgrees()
    ensures Agrees(StringValidator(), StringReader(), IsTyped(CString))
  {
  }

  lemma BytesAgree()
    ensures Agrees(BytesValidator(), BytesReader(), IsTyped(ByteN))
    ensures Agrees(EmptyValidator(), EmptyReader(), IsTyped(Empty))
  {
  }

  /** Validation and reading agree, for every format. */
  lemma {:induction false} ReadAgrees(f: Format)
    requires WellFormed(f)
    ensures Agrees(ValidatorOf(f), ReaderOf(f), IsTyped(f))
  {
    match f
    case Array(item) =>
      AllBounded(item);
      ReadAgrees(item);
      ArrayAgrees(ValidatorOf(item), ReaderOf(item), item);
    case Repeated(item) =>
      AllBounded(item);
      ReadAgrees(item);
      RepeatedAgrees(ValidatorOf(item), ReaderOf(item), item);
    case Pair(a, b) =>
      AllBounded(a);
      AllBounded(b);
      ReadAgrees(a);
      ReadAgrees(b);
      PairAgrees(ValidatorOf(a), ReaderOf(a), ValidatorOf(b), ReaderOf(b), a, b);
    case Int(n) => IntAgrees(n);
    case VarByteN => CellAgrees();
    case CString => StringAgrees();
    case ByteN => BytesAgree();
    case Empty => BytesAgree();
  }
}
