/** Every written message is read back, and its length field is right. */
module CodecFrames {
  import opened Outcomes
  import opened Bytes
  import opened Codec
  import opened Lists
  import opened CodecLaws
  import opened CodecRoundTrip

  /**
   * Which values a format can carry, given the bytes that follow in the buffer, the offset in the message,
   * and how many of the following bytes belong to the message.
   */
  type Carries = (Value, ByteString, nat, nat) -> bool

  /** Validation uses n bytes and leaves t, and reading gives the value. */
  predicate ReturnsAt(v: Validator, r: Reader, rest: ByteString, body: ByteString, offset: nat, left: int, x: Value,
                      n: nat, t: nat) {
    var d := v(rest, offset, left);
    d.Valid? && d.used == n && d.left == t && r(d.shape, body, offset, left) == Got(x, n, t)
  }

  /** Validating and reading the written value returns it, and leaves the rest of the message. */
  predicate Returns(v: Validator, r: Reader, w: Writer, x: Value, tail: ByteString, offset: nat, t: nat)
    requires t <= |tail|
  {
    ReturnsAt(v, r, w(x) + tail, w(x) + tail[..t], offset, |w(x)| + t, x, |w(x)|, t)
  }

  ghost predicate RoundTrips(v: Validator, r: Reader, w: Writer, carries: Carries) {
    forall x, tail, offset: nat, t: nat {:trigger carries(x, tail, offset, t)} ::
      t <= |tail| && carries(x, tail, offset, t) ==> Returns(v, r, w, x, tail, offset, t)
  }

  predicate CarriesItems(w: Writer, carries: Carries, xs: List<Value>, tail: ByteString, offset: nat, t: nat) {
    match xs
    case Nil => true
    case Cons(x, more) =>
      && carries(x, WriteItems(w, more) + tail, offset, |WriteItems(w, more)| + t)
      && CarriesItems(w, carries, more, tail, offset + |w(x)|, t)
  }

  /** Items, then something in the message that is not another item. */
  predicate CarriesRepeated(v: Validator, w: Writer, carries: Carries, x: Value, tail: ByteString, offset: nat,
                            t: nat) {
    && x.Many? && CarriesItems(w, carries, x.items, tail, offset, t)
    && (t > 0 ==> !v(tail, offset + |WriteItems(w, x.items)|, t).Valid?)
  }

  predicate CarriesCounted(wc: Writer, w: Writer, carries: Carries, x: Value, tail: ByteString, offset: nat, t: nat) {
    x.Many? && Length(x.items) < TWO_16 &&
      CarriesItems(w, carries, x.items, tail, offset + |wc(Number(Length(x.items)))|, t)
  }

  predicate CarriesPair(wa: Writer, ca: Carries, wb: Writer, cb: Carries, x: Value, tail: ByteString, offset: nat,
                        t: nat) {
    && x.Both? && ca(x.first, wb(x.second) + tail, offset, |wb(x.second)| + t)
    && cb(x.second, tail, offset + |wa(x.first)|, t)
  }

  function IntCarries(n: nat): Carries {
    (x: Value, tail: ByteString, offset: nat, t: nat) => x.Number? && x.n < Power256(n)
  }

  /** Strings without a zero byte. */
  function StringCarries(): Carries { (x: Value, tail: ByteString, offset: nat, t: nat) => x.Text? && 0 !in x.text }

  /** Bytes up to the end of the message. */
  function BytesCarries(): Carries { (x: Value, tail: ByteString, offset: nat, t: nat) => x.Blob? && t == 0 }

  /** NULL or at least one byte. */
  function CellCarries(): Carries {
    (x: Value, tail: ByteString, offset: nat, t: nat) => x.Cell? && (x.cell.Some? ==> 0 < |x.cell.value| < TWO_31)
  }

  function EmptyCarries(): Carries { (x: Value, tail: ByteString, offset: nat, t: nat) => x.Nothing? }

  function CountedCarries(wc: Writer, w: Writer, carries: Carries): Carries {
    (x: Value, tail: ByteString, offset: nat, t: nat) => CarriesCounted(wc, w, carries, x, tail, offset, t)
  }

  function ArrayCarries(w: Writer, carries: Carries): Carries { CountedCarries(IntWriter(2), w, carries) }

  function RepeatedCarries(v: Validator, w: Writer, carries: Carries): Carries {
    (x: Value, tail: ByteString, offset: nat, t: nat) => CarriesRepeated(v, w, carries, x, tail, offset, t)
  }

  function PairCarries(wa: Writer, ca: Carries, wb: Writer, cb: Carries): Carries {
    (x: Value, tail: ByteString, offset: nat, t: nat) => CarriesPair(wa, ca, wb, cb, x, tail, offset, t)
  }

  function CarriesOf(f: Format): Carries {
    match f
    case Int(n) => IntCarries(n)
    case CString => StringCarries()
    case ByteN => BytesCarries()
    case VarByteN => CellCarries()
    case Array(item) => ArrayCarries(WriterOf(item), CarriesOf(item))
    case Repeated(item) => RepeatedCarries(ValidatorOf(item), WriterOf(item), CarriesOf(item))
    case Pair(a, b) => PairCarries(WriterOf(a), CarriesOf(a), WriterOf(b), CarriesOf(b))
    case Empty => EmptyCarries()
  }

  /** The pieces of two written fields in a row. */
  lemma Pieces(x: ByteString, y: ByteString, tail: ByteString, t: nat)
    requires t <= |tail|
    ensures x + y + tail == x + (y + tail)
    ensures (y + tail)[..|y| + t] == y + tail[..t]
    ensures x + y + tail[..t] == x + (y + tail)[..|y| + t]
    ensures Drop(x + y + tail, |x|) == y + tail
    ensures Drop(x + y + tail[..t], |x|) == y + tail[..t]
  {
    assert x + y + tail == x + (y + tail);
    assert (y + tail)[..|y| + t] == y + tail[..t];
    assert x + y + tail[..t] == x + (y + tail[..t]);
  }

  /** A list of items, by validation's verdict and its reading. */
  predicate ListReturns(d: Verdict, r: Reading, xs: List<Value>, n: nat, t: nat) {
    d.Valid? && d.used == n && d.left == t && d.shape.Items? && Length(d.shape.items) == Length(xs) &&
      r == Got(Many(xs), n, t)
  }

  /** What validation records for a list. */
  function ShapesOf(d: Verdict): List<Shape> { if d.Valid? && d.shape.Items? then d.shape.items else Nil }

  /** One item in front of a list. */
  lemma ConsReturns(d: Verdict, first: Reading, x: Value, n: nat, more: Verdict, others: Reading, xs: List<Value>,
                    m: nat, t: nat)
    requires d.Valid? && d.used == n && d.left == m + t && first == Got(x, n, m + t) &&
      ListReturns(more, others, xs, m, t)
    ensures ListReturns(AfterShape(n, d.shape, more), AfterItem(n, x, others), Cons(x, xs), n + m, t)
    ensures ShapesOf(AfterShape(n, d.shape, more)) == Cons(d.shape, ShapesOf(more))
  {
  }

  ghost predicate ItemsReturnAll(v: Validator, r: Reader, w: Writer, xs: List<Value>, tail: ByteString, offset: nat,
                                 t: nat)
    requires t <= |tail|
  {
    var n := |WriteItems(w, xs)|;
    var d := ValidateItems(v, Length(xs), WriteItems(w, xs) + tail, offset, n + t);
    ListReturns(d, ReadItems(r, Length(xs), ShapesOf(d), WriteItems(w, xs) + tail[..t], offset, n + t), xs, n, t)
  }

  ghost predicate AllReturnAll(v: Validator, r: Reader, w: Writer, xs: List<Value>, tail: ByteString, offset: nat,
                               t: nat)
    requires t <= |tail|
  {
    var n := |WriteItems(w, xs)|;
    var d := ValidateAll(v, WriteItems(w, xs) + tail, offset, n + t);
    ListReturns(d, ReadItems(r, Length(xs), ShapesOf(d), WriteItems(w, xs) + tail[..t], offset, n + t), xs, n, t)
  }

  lemma ValidateItemsCons(v: Validator, count: nat, rest: ByteString, offset: nat, left: int)
    requires count > 0 && v(rest, offset, left).Valid?
    ensures
      var d := v(rest, offset, left);
      ValidateItems(v, count, rest, offset, left) ==
        AfterShape(d.used, d.shape, ValidateItems(v, count - 1, Drop(rest, d.used), offset + d.used, d.left))
  {
  }

  lemma ValidateAllCons(v: Validator, rest: ByteString, offset: nat, left: int)
    requires left != 0 && v(rest, offset, left).Valid? && 0 < v(rest, offset, left).used <= |rest|
    ensures
      var d := v(rest, offset, left);
      ValidateAll(v, rest, offset, left) == AfterShape(d.used, d.shape,
        ValidateAll(v, Drop(rest, d.used), offset + d.used, d.left))
  {
  }

  lemma ReadItemsCons(r: Reader, count: nat, shape: Shape, shapes: List<Shape>, body: ByteString, offset: nat,
                      left: int)
    requires r(shape, body, offset, left).Got?
    ensures
      var first := r(shape, body, offset, left);
      ReadItems(r, count + 1, Cons(shape, shapes), body, offset, left) ==
        AfterItem(first.used, first.value,
          ReadItems(r, count, shapes, Drop(body, first.used), offset + first.used, first.left))
  {
  }

  lemma ItemsNextAt(v: Validator, r: Reader, rest: ByteString, body: ByteString, rest': ByteString, body': ByteString,
                    offset: nat, x: Value, n: nat, xs: List<Value>, m: nat, t: nat)
    requires ReturnsAt(v, r, rest, body, offset, n + (m + t), x, n, m + t) && rest' == Drop(rest, n) &&
      body' == Drop(body, n)
    requires
      var d := ValidateItems(v, Length(xs), rest', offset + n, m + t);
      ListReturns(d, ReadItems(r, Length(xs), ShapesOf(d), body', offset + n, m + t), xs, m, t)
    ensures
      var d := ValidateItems(v, Length(Cons(x, xs)), rest, offset, n + m + t);
      ListReturns(d, ReadItems(r, Length(Cons(x, xs)), ShapesOf(d), body, offset, n + m + t), Cons(x, xs), n + m, t)
  {
    var left := n + (m + t);
    var d, more := v(rest, offset, left), ValidateItems(v, Length(xs), rest', offset + n, m + t);
    ValidateItemsCons(v, Length(xs) + 1, rest, offset, left);
    ReadItemsCons(r, Length(xs), d.shape, ShapesOf(more), body, offset, left);
    ConsReturns(d, r(d.shape, body, offset, left), x, n, more,
      ReadItems(r, Length(xs), ShapesOf(more), body', offset + n, m + t), xs, m, t);
  }

  lemma AllNextAt(v: Validator, r: Reader, rest: ByteString, body: ByteString, rest': ByteString, body': ByteString,
                  offset: nat, x: Value, n: nat, xs: List<Value>, m: nat, t: nat)
    requires ReturnsAt(v, r, rest, body, offset, n + (m + t), x, n, m + t) && rest' == Drop(rest, n) &&
      body' == Drop(body, n)
    requires 0 < n <= |rest|
    requires
      var d := ValidateAll(v, rest', offset + n, m + t);
      ListReturns(d, ReadItems(r, Length(xs), ShapesOf(d), body', offset + n, m + t), xs, m, t)
    ensures
      var d := ValidateAll(v, rest, offset, n + m + t);
      ListReturns(d, ReadItems(r, Length(Cons(x, xs)), ShapesOf(d), body, offset, n + m + t), Cons(x, xs), n + m, t)
  {
    hide ValidateAll, ReadItems;
    var left := n + (m + t);
    var d, more := v(rest, offset, left), ValidateAll(v, rest', offset + n, m + t);
    ValidateAllCons(v, rest, offset, left);
    ReadItemsCons(r, Length(xs), d.shape, ShapesOf(more), body, offset, left);
    ConsReturns(d, r(d.shape, body, offset, left), x, n, more,
      ReadItems(r, Length(xs), ShapesOf(more), body', offset + n, m + t), xs, m, t);
  }

  lemma ItemsNext(v: Validator, r: Reader, w: Writer, x: Value, xs: List<Value>, tail: ByteString, offset: nat, t: nat)
    requires t <= |tail| && Returns(v, r, w, x, WriteItems(w, xs) + tail, offset, |WriteItems(w, xs)| + t)
    requires ItemsReturnAll(v, r, w, xs, tail, offset + |w(x)|, t)
    ensures ItemsReturnAll(v, r, w, Cons(x, xs), tail, offset, t)
  {
    hide ReturnsAt, ListReturns, ValidateItems, ReadItems, ShapesOf;
    var b, y := w(x), WriteItems(w, xs);
    Pieces(b, y, tail, t);
    assert WriteItems(w, Cons(x, xs)) == b + y && |b + y| + t == |b| + |y| + t;
    ItemsNextAt(v, r, b + y + tail, b + y + tail[..t], y + tail, y + tail[..t], offset, x, |b|, xs, |y|, t);
  }

  lemma AllNext(v: Validator, r: Reader, w: Writer, x: Value, xs: List<Value>, tail: ByteString, offset: nat, t: nat)
    requires t <= |tail| && |w(x)| > 0 && Returns(v, r, w, x, WriteItems(w, xs) + tail, offset, |WriteItems(w, xs)| + t)
    requires AllReturnAll(v, r, w, xs, tail, offset + |w(x)|, t)
    ensures AllReturnAll(v, r, w, Cons(x, xs), tail, offset, t)
  {
    hide ReturnsAt, ListReturns, ValidateAll, ReadItems, ShapesOf;
    var b, y := w(x), WriteItems(w, xs);
    Pieces(b, y, tail, t);
    assert WriteItems(w, Cons(x, xs)) == b + y && |b + y| + t == |b| + |y| + t;
    AllNextAt(v, r, b + y + tail, b + y + tail[..t], y + tail, y + tail[..t], offset, x, |b|, xs, |y|, t);
  }

  /** A field that always advances writes something. */
  lemma WritesSome(v: Validator, r: Reader, w: Writer, x: Value, tail: ByteString, offset: nat, t: nat)
    requires Progresses(v) && t <= |tail| && Returns(v, r, w, x, tail, offset, t)
    ensures |w(x)| > 0
  {
  }

  lemma NoItemsReturn(v: Validator, r: Reader, w: Writer, tail: ByteString, offset: nat, t: nat)
    requires t <= |tail|
    ensures ItemsReturnAll(v, r, w, Nil, tail, offset, t)
  {
  }

  lemma {:induction false} ItemsReturn(v: Validator, r: Reader, w: Writer, carries: Carries, xs: List<Value>,
                                       tail: ByteString, offset: nat, t: nat)
    requires RoundTrips(v, r, w, carries) && t <= |tail| && CarriesItems(w, carries, xs, tail, offset, t)
    ensures ItemsReturnAll(v, r, w, xs, tail, offset, t)
  {
    hide ReturnsAt, Returns, ListReturns;
    match xs
    case Nil => NoItemsReturn(v, r, w, tail, offset, t);
    case Cons(x, more) =>
      ItemsReturn(v, r, w, carries, more, tail, offset + |w(x)|, t);
      ItemsNext(v, r, w, x, more, tail, offset, t);
  }

  lemma NothingAfterAll(v: Validator, r: Reader, w: Writer, tail: ByteString, offset: nat, t: nat)
    requires t <= |tail| && (t > 0 ==> !v(tail, offset, t).Valid?)
    ensures AllReturnAll(v, r, w, Nil, tail, offset, t)
  {
    assert WriteItems(w, Nil) + tail == tail;
  }

  lemma {:induction false} AllReturn(v: Validator, r: Reader, w: Writer, carries: Carries, xs: List<Value>,
                                     tail: ByteString, offset: nat, t: nat)
    requires RoundTrips(v, r, w, carries) && Progresses(v) && t <= |tail| &&
      CarriesItems(w, carries, xs, tail, offset, t)
    requires t > 0 ==> !v(tail, offset + |WriteItems(w, xs)|, t).Valid?
    ensures AllReturnAll(v, r, w, xs, tail, offset, t)
  {
    hide ReturnsAt, Returns, ListReturns, ValidateAll, ReadItems, AllReturnAll;
    match xs
    case Nil => NothingAfterAll(v, r, w, tail, offset, t);
    case Cons(x, more) =>
      AllReturn(v, r, w, carries, more, tail, offset + |w(x)|, t);
      WritesSome(v, r, w, x, WriteItems(w, more) + tail, offset, |WriteItems(w, more)| + t);
      AllNext(v, r, w, x, more, tail, offset, t);
  }

  /** A count field carries every number below 2^16, and reads the count it wrote whatever was recorded. */
  ghost predicate CountRoundTrips(c: Validator, rc: Reader, wc: Writer) {
    forall n: nat, tail, offset: nat, t: nat {:trigger Returns(c, rc, wc, Number(n), tail, offset, t)} ::
      n < TWO_16 && t <= |tail| ==> Returns(c, rc, wc, Number(n), tail, offset, t)
  }

  lemma BodyIsPrefix(bytes: ByteString, tail: ByteString, t: nat)
    requires t <= |tail|
    ensures bytes + tail[..t] <= bytes + tail && |bytes| <= |bytes + tail[..t]|
  {
  }

  /** The count is the same in the buffer and in the body. */
  predicate SameCount(c: Validator, rc: Reader, rest: ByteString, body: ByteString, offset: nat, left: int) {
    && c(rest, offset, left).Valid? && c(rest, offset, left).shape == Bare
    && CountOf(rc(Bare, body, offset, left)) == CountOf(rc(Bare, rest, offset, left))
  }

  lemma CountIsSame(c: Validator, rc: Reader, rest: ByteString, body: ByteString, offset: nat, left: int)
    requires Countable(c, rc) && body <= rest && c(rest, offset, left).Valid? && c(rest, offset, left).used <= |body|
    ensures SameCount(c, rc, rest, body, offset, left)
  {
    var r := rc(Bare, body, offset, left);
  }

  /** The count in front of other bytes. */
  lemma CountFirst(c: Validator, rc: Reader, wc: Writer, n: nat, y: ByteString, tail: ByteString, offset: nat, t: nat)
    requires Countable(c, rc) && t <= |tail| && Returns(c, rc, wc, Number(n), y + tail, offset, |y| + t)
    ensures
      var b := wc(Number(n));
      && ReturnsAt(c, rc, b + y + tail, b + y + tail[..t], offset, |b| + (|y| + t), Number(n), |b|, |y| + t)
      && SameCount(c, rc, b + y + tail, b + y + tail[..t], offset, |b| + (|y| + t))
      && Drop(b + y + tail, |b|) == y + tail && Drop(b + y + tail[..t], |b|) == y + tail[..t]
  {
    var b := wc(Number(n));
    Pieces(b, y, tail, t);
    BodyIsPrefix(b + y, tail, t);
    CountIsSame(c, rc, b + y + tail, b + y + tail[..t], offset, |b| + (|y| + t));
  }

  lemma CountedReturnsAt(c: Validator, rc: Reader, v: Validator, r: Reader, rest: ByteString, body: ByteString,
                         rest': ByteString, body': ByteString, xs: List<Value>, offset: nat, n: nat, m: nat, t: nat)
    requires SameCount(c, rc, rest, body, offset, n + (m + t))
    requires ReturnsAt(c, rc, rest, body, offset, n + (m + t), Number(Length(xs)), n, m + t) &&
      rest' == Drop(rest, n) && body' == Drop(body, n)
    requires
      var d := ValidateItems(v, Length(xs), rest', offset + n, m + t);
      ListReturns(d, ReadItems(r, Length(xs), ShapesOf(d), body', offset + n, m + t), xs, m, t)
    ensures ReturnsAt(CountedValidator(c, rc, v), CountedReader(rc, r), rest, body, offset, n + m + t, Many(xs), n + m,
      t)
  {
    assert n + (m + t) == n + m + t;
  }

  lemma CountedReturns(c: Validator, rc: Reader, wc: Writer, v: Validator, r: Reader, w: Writer, xs: List<Value>,
                       y: ByteString, rest: ByteString, body: ByteString, tail: ByteString, offset: nat, t: nat)
    requires t <= |tail| && y == WriteItems(w, xs)
    requires rest == wc(Number(Length(xs))) + y + tail && body == wc(Number(Length(xs))) + y + tail[..t]
    requires
      var b := wc(Number(Length(xs)));
      && ReturnsAt(c, rc, rest, body, offset, |b| + (|y| + t), Number(Length(xs)), |b|, |y| + t)
      && SameCount(c, rc, rest, body, offset, |b| + (|y| + t))
      && Drop(rest, |b|) == y + tail && Drop(body, |b|) == y + tail[..t]
    requires ItemsReturnAll(v, r, w, xs, tail, offset + |wc(Number(Length(xs)))|, t)
    ensures Returns(CountedValidator(c, rc, v), CountedReader(rc, r), CountedWriter(wc, w), Many(xs), tail, offset, t)
  {
    var b := wc(Number(Length(xs)));
    CountedReturnsAt(c, rc, v, r, rest, body, y + tail, y + tail[..t], xs, offset, |b|, |y|, t);
  }

  lemma PairReturns(v: Validator, r: Reader, w: Writer, c: Carries, v': Validator, r': Reader, w': Writer, c': Carries,
                    x: Value, tail: ByteString, offset: nat, t: nat)
    requires RoundTrips(v, r, w, c) && RoundTrips(v', r', w', c') && t <= |tail| &&
      CarriesPair(w, c, w', c', x, tail, offset, t)
    ensures Returns(PairValidator(v, v'), PairReader(r, r'), PairWriter(w, w'), x, tail, offset, t)
  {
    var b1, b2 := w(x.first), w'(x.second);
    Pieces(b1, b2, tail, t);
    assert Returns(v, r, w, x.first, b2 + tail, offset, |b2| + t);
    assert Returns(v', r', w', x.second, tail, offset + |b1|, t);
  }

  lemma CountedRoundTripsAt(c: Validator, rc: Reader, wc: Writer, v: Validator, r: Reader, w: Writer, carries: Carries,
                            x: Value, tail: ByteString, offset: nat, t: nat)
    requires Bounded(c) && CountRoundTrips(c, rc, wc) && Countable(c, rc) && RoundTrips(v, r, w, carries)
    requires t <= |tail| && CarriesCounted(wc, w, carries, x, tail, offset, t)
    ensures Returns(CountedValidator(c, rc, v), CountedReader(rc, r), CountedWriter(wc, w), x, tail, offset, t)
  {
    hide RoundTrips, CountedValidator, CountedReader, CountedWriter, CarriesItems, WriteItems, Returns, ItemsReturnAll,
      ReturnsAt, SameCount;
    var n, y := Length(x.items), WriteItems(w, x.items);
    ItemsReturn(v, r, w, carries, x.items, tail, offset + |wc(Number(n))|, t);
    assert Returns(c, rc, wc, Number(n), y + tail, offset, |y| + t);
    var b := wc(Number(n));
    CountFirst(c, rc, wc, n, y, tail, offset, t);
    CountedReturns(c, rc, wc, v, r, w, x.items, y, b + y + tail, b + y + tail[..t], tail, offset, t);
  }

  lemma CountedRoundTrips(c: Validator, rc: Reader, wc: Writer, v: Validator, r: Reader, w: Writer, carries: Carries)
    requires Bounded(c) && CountRoundTrips(c, rc, wc) && Countable(c, rc) && RoundTrips(v, r, w, carries)
    ensures RoundTrips(CountedValidator(c, rc, v), CountedReader(rc, r), CountedWriter(wc, w),
                       CountedCarries(wc, w, carries))
  {
    hide Bounded, CountRoundTrips, Countable, Returns, CarriesCounted, CountedValidator, CountedReader, CountedWriter;
    var c' := CountedCarries(wc, w, carries);
    forall x, tail, offset: nat, t: nat | t <= |tail| && c'(x, tail, offset, t)
      ensures Returns(CountedValidator(c, rc, v), CountedReader(rc, r), CountedWriter(wc, w), x, tail, offset, t)
    {
      CountedRoundTripsAt(c, rc, wc, v, r, w, carries, x, tail, offset, t);
    }
  }

  lemma ArrayRoundTrips(v: Validator, r: Reader, w: Writer, c: Carries)
    requires RoundTrips(v, r, w, c)
    ensures RoundTrips(ArrayValidator(v), ArrayReader(r), ArrayWriter(w), ArrayCarries(w, c))
  {
    IntBounded(2);
    IntCountable(2);
    IntCountRoundTrips();
    CountedRoundTrips(IntValidator(2), IntReader(2), IntWriter(2), v, r, w, c);
  }

  lemma IntCountRoundTrips()
    ensures CountRoundTrips(IntValidator(2), IntReader(2), IntWriter(2))
  {
    forall n: nat, tail, offset: nat, t: nat | n < TWO_16 && t <= |tail|
      ensures Returns(IntValidator(2), IntReader(2), IntWriter(2), Number(n), tail, offset, t)
    {
      Powers();
      IntReturns(2, n, tail, offset, t);
    }
  }

  lemma RepeatedRoundTrips(v: Validator, r: Reader, w: Writer, c: Carries)
    requires RoundTrips(v, r, w, c) && Progresses(v)
    ensures RoundTrips(RepeatedValidator(v), RepeatedReader(r), RepeatedWriter(w), RepeatedCarries(v, w, c))
  {
    var c' := RepeatedCarries(v, w, c);
    forall x, tail, offset: nat, t: nat | t <= |tail| && c'(x, tail, offset, t)
      ensures Returns(RepeatedValidator(v), RepeatedReader(r), RepeatedWriter(w), x, tail, offset, t)
    {
      AllReturn(v, r, w, c, x.items, tail, offset, t);
    }
  }

  lemma PairRoundTrips(v: Validator, r: Reader, w: Writer, c: Carries, v': Validator, r': Reader, w': Writer,
                       c': Carries)
    requires RoundTrips(v, r, w, c) && RoundTrips(v', r', w', c')
    ensures RoundTrips(PairValidator(v, v'), PairReader(r, r'), PairWriter(w, w'), PairCarries(w, c, w', c'))
  {
    var both := PairCarries(w, c, w', c');
    forall x, tail, offset: nat, t: nat | t <= |tail| && both(x, tail, offset, t)
      ensures Returns(PairValidator(v, v'), PairReader(r, r'), PairWriter(w, w'), x, tail, offset, t)
    {
      PairReturns(v, r, w, c, v', r', w', c', x, tail, offset, t);
    }
  }

  lemma IntReturns(n: nat, x: nat, tail: ByteString, offset: nat, t: nat)
    requires x < Power256(n) && t <= |tail|
    ensures Returns(IntValidator(n), IntReader(n), IntWriter(n), Number(x), tail, offset, t)
  {
    var b := BigEndian(x, n);
    BigEndianRoundTrip(x, n);
    assert (b + tail[..t])[..n] == b;
  }

  lemma IntRoundTrips(n: nat)
    ensures RoundTrips(IntValidator(n), IntReader(n), IntWriter(n), IntCarries(n))
  {
    var c := IntCarries(n);
    forall x, tail, offset: nat, t: nat | t <= |tail| && c(x, tail, offset, t)
      ensures Returns(IntValidator(n), IntReader(n), IntWriter(n), x, tail, offset, t)
    {
      IntReturns(n, x.n, tail, offset, t);
    }
  }

  lemma {:induction false} ZeroAfter(text: ByteString, rest: ByteString)
    requires 0 !in text
    ensures FindZero(text + [0] + rest) == Some(|text|)
  {
    var b := text + [0] + rest;
    if text != [] {
      assert b[1..] == text[1..] + [0] + rest;
      ZeroAfter(text[1..], rest);
    }
  }

  lemma StringRoundTrips()
    ensures RoundTrips(StringValidator(), StringReader(), StringWriter(), StringCarries())
  {
    var c := StringCarries();
    forall x, tail, offset: nat, t: nat | t <= |tail| && c(x, tail, offset, t)
      ensures Returns(StringValidator(), StringReader(), StringWriter(), x, tail, offset, t)
    {
      ZeroAfter(x.text, tail);
      assert (x.text + [0] + tail[..t])[..|x.text|] == x.text;
    }
  }

  lemma BytesRoundTrips()
    ensures RoundTrips(BytesValidator(), BytesReader(), BytesWriter(), BytesCarries())
    ensures RoundTrips(EmptyValidator(), EmptyReader(), EmptyWriter(), EmptyCarries())
  {
  }

  lemma CellRoundTrips()
    ensures RoundTrips(CellValidator(), CellReader(), CellWriter(), CellCarries())
  {
    var c := CellCarries();
    forall x, tail, offset: nat, t: nat | t <= |tail| && c(x, tail, offset, t)
      ensures Returns(CellValidator(), CellReader(), CellWriter(), x, tail, offset, t)
    {
      CellReturns(x.cell, tail, offset, t);
    }
  }

  lemma CellReturns(cell: Option<ByteString>, tail: ByteString, offset: nat, t: nat)
    requires t <= |tail| && (cell.Some? ==> 0 < |cell.value| < TWO_31)
    ensures Returns(CellValidator(), CellReader(), CellWriter(), Cell(cell), tail, offset, t)
  {
    var n := if cell.Some? then |cell.value| else TWO_32 - 1;
    var length := Put32(n);
    Word32RoundTrip(n);
    var bytes := WriteCell(cell);
    var rest, body := bytes + tail, bytes + tail[..t];
    assert forall i :: 0 <= i < 4 ==> rest[i] == length[i] && body[i] == length[i];
    if cell.Some? { assert body[4..4 + n] == cell.value; }
  }

  /** The written value is validated and read back, for every format and every value it carries. */
  lemma {:induction false} WrittenIsReadBack(f: Format)
    requires WellFormed(f)
    ensures RoundTrips(ValidatorOf(f), ReaderOf(f), WriterOf(f), CarriesOf(f))
  {
    match f
    case Array(item) =>
      WrittenIsReadBack(item);
      ArrayRoundTrips(ValidatorOf(item), ReaderOf(item), WriterOf(item), CarriesOf(item));
    case Repeated(item) =>
      WrittenIsReadBack(item);
      AllBounded(item);
      RepeatedRoundTrips(ValidatorOf(item), ReaderOf(item), WriterOf(item), CarriesOf(item));
    case Pair(a, b) =>
      WrittenIsReadBack(a);
      WrittenIsReadBack(b);
      PairRoundTrips(ValidatorOf(a), ReaderOf(a), WriterOf(a), CarriesOf(a), ValidatorOf(b), ReaderOf(b), WriterOf(b),
        CarriesOf(b));
    case Int(n) => IntRoundTrips(n);
    case VarByteN => CellRoundTrips();
    case CString => StringRoundTrips();
    case ByteN => BytesRoundTrips();
    case Empty => BytesRoundTrips();
  }

  // --- the length field ---

  /** The contents of every array and repeated field add up to less than 2^16. */
  predicate SumsFit(f: Format, v: Value)
    decreases f, 0
  {
    match f
    case Array(item) => v.Many? && |WriteItems(WriterOf(item), v.items)| < TWO_16 && AllSumsFit(item, v.items)
    case Repeated(item) => v.Many? && |WriteItems(WriterOf(item), v.items)| < TWO_16 && AllSumsFit(item, v.items)
    case Pair(a, b) => v.Both? && SumsFit(a, v.first) && SumsFit(b, v.second)
    case _ => true
  }

  predicate AllSumsFit(f: Format, xs: List<Value>)
    decreases f, 1, xs
  {
    match xs
    case Nil => true
    case Cons(x, tail) => SumsFit(f, x) && AllSumsFit(f, tail)
  }

  /** The size is never too large, and right exactly when no sum wraps around. */
  predicate SizedRight(f: Format, x: Value) {
    GetSize(f, x) <= |Write(f, x)| && (GetSize(f, x) == |Write(f, x)| <==> SumsFit(f, x))
  }

  lemma {:induction false} SizeIsLength(f: Format, x: Value)
    requires Typed(f, x)
    ensures SizedRight(f, x)
    decreases f, 0
  {
    match f
    case Array(item) => ItemSizes(item, x.items, 0);
    case Repeated(item) => ItemSizes(item, x.items, 0);
    case Pair(a, b) =>
      SizeIsLength(a, x.first);
      SizeIsLength(b, x.second);
    case _ =>
  }

  lemma Wrapped(n: nat)
    ensures n % TWO_16 < TWO_16 && n % TWO_16 <= n && (n % TWO_16 == n <==> n < TWO_16)
  {
  }

  /** One item's size in front of a sum that wraps around. */
  lemma SumStep(next: nat, total: nat, more: nat, size: nat, fitsItem: bool, fitsMore: bool)
    requires next <= total && (next == total <==> fitsItem)
    requires size <= next % TWO_16 + more
    requires size == next % TWO_16 + more <==> next % TWO_16 + more < TWO_16 && fitsMore
    ensures size <= total + more
    ensures size == total + more <==> total + more < TWO_16 && fitsItem && fitsMore
  {
    Wrapped(next);
  }

  lemma {:induction false} ItemSizes(f: Format, xs: List<Value>, sum: nat)
    requires AllTyped(f, xs) && sum < TWO_16
    ensures
      var total := sum + |WriteItems(WriterOf(f), xs)|;
      && SizeOfItems(SizerOf(f), xs, sum) <= total
      && (SizeOfItems(SizerOf(f), xs, sum) == total <==> total < TWO_16 && AllSumsFit(f, xs))
    decreases f, 1, xs
  {
    hide Typed, SumsFit, WriterOf, SizerOf;
    match xs
    case Nil =>
    case Cons(x, tail) =>
      SizeIsLength(f, x);
      var next := sum + GetSize(f, x);
      Wrapped(next);
      ItemSizes(f, tail, next % TWO_16);
      SumStep(next, sum + |WriterOf(f)(x)|, |WriteItems(WriterOf(f), tail)|,
        SizeOfItems(SizerOf(f), tail, next % TWO_16),
        SumsFit(f, x), AllSumsFit(f, tail));
  }

  /** A value that can be sent: carried by its format to the end of the message, and sized right. */
  predicate Sendable(f: Format, x: Value) {
    CarriesOf(f)(x, [], 0, 0) && Typed(f, x) && SumsFit(f, x) && |Write(f, x)| + 4 < TWO_32
  }

  /**
   * A written frame: its length field counts itself and the bytes after it; validating the frame, in front
   * of whatever follows in the buffer, uses exactly those bytes; and reading them gives the value.
   */
  lemma FrameRoundTrip(identifier: byte, f: Format, x: Value)
    requires WellFormed(f) && Sendable(f, x)
    ensures
      var frame := WriteFrame(identifier, f, x);
      && |frame| == 5 + |Write(f, x)| && frame[0] == identifier
      && Word32(frame[1..5]) == |frame| - 1
      && ReturnsAt(ValidatorOf(f), ReaderOf(f), frame[5..], frame[5..], 0, |frame| - 5, x, |frame| - 5, 0)
  {
    FrameReturns(f, x);
    LengthField(identifier, f, x);
  }

  lemma SizeOfSendable(f: Format, x: Value)
    requires Sendable(f, x)
    ensures GetSize(f, x) == |Write(f, x)|
  {
    SizeIsLength(f, x);
  }

  lemma LengthField(identifier: byte, f: Format, x: Value)
    requires Sendable(f, x)
    ensures
      var frame := WriteFrame(identifier, f, x);
      && |frame| == 5 + |Write(f, x)| && frame[0] == identifier && frame[5..] == Write(f, x)
      && Word32(frame[1..5]) == |frame| - 1
  {
    SizeOfSendable(f, x);
    assert (GetSize(f, x) + 4) % TWO_32 == |Write(f, x)| + 4;
    FrameParts(identifier, |Write(f, x)| + 4, Write(f, x));
  }

  lemma FrameParts(identifier: byte, n: nat, bytes: ByteString)
    requires n < TWO_32
    ensures
      var frame := [identifier] + Put32(n) + bytes;
      |frame| == 5 + |bytes| && frame[0] == identifier && frame[5..] == bytes && Word32(frame[1..5]) == n
  {
    Word32RoundTrip(n);
    var frame := [identifier] + Put32(n) + bytes;
    assert frame[1..5] == Put32(n);
  }

  /** The body of a frame on its own. */
  lemma FrameReturns(f: Format, x: Value)
    requires WellFormed(f) && CarriesOf(f)(x, [], 0, 0)
    ensures ReturnsAt(ValidatorOf(f), ReaderOf(f), Write(f, x), Write(f, x), 0, |Write(f, x)|, x, |Write(f, x)|, 0)
  {
    WrittenIsReadBack(f);
    assert Returns(ValidatorOf(f), ReaderOf(f), WriterOf(f), x, [], 0, 0);
    var none: ByteString := [];
    assert none[..0] == none && Write(f, x) + none == Write(f, x);
  }
}
