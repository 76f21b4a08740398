/** Reading, writing and sizing of message fields in place: a cursor over the body, an output that grows. */
module MessageTransfer {
  import opened Outcomes
  import opened Bytes
  import opened Lists
  import opened Codec
  import opened CodecLaws
  import opened CodecRoundTrip
  import opened CodecFrames
  import opened MessageFields

  // --- read ---

  /** The value a reading gave, and the cursor moved over it. */
  predicate Reads(r: Reading, value: Value, pos: nat, pos': nat, left': int) {
    r.Got? && value == r.value && pos' == pos + r.used && left' == r.left
  }

  /** The values of items read before, in front of the reading of the items after them. */
  function PrefixedReading(values: seq<Value>, used: nat, r: Reading): Reading {
    if r.Got? && r.value.Many? then Got(Many(Concat(values, r.value.items)), used + r.used, r.left) else r
  }

  lemma PrefixedReadingNext(values: seq<Value>, used: nat, u: nat, x: Value, r: Reading)
    ensures PrefixedReading(values + [x], used + u, r) == PrefixedReading(values, used, AfterItem(u, x, r))
  {
    if r.Got? && r.value.Many? { ConcatNext(values, x, r.value.items); }
  }

  /** The reader stays inside the body. */
  ghost predicate Inside(r: Reader) {
    forall shape, body, offset: nat, left: int {:trigger r(shape, body, offset, left)} ::
      r(shape, body, offset, left).Got? ==> r(shape, body, offset, left).used <= |body|
  }

  lemma {:induction false} ItemsInside(r: Reader, count: nat, shapes: List<Shape>, body: ByteString, offset: nat,
                                       left: int)
    requires Inside(r)
    ensures ReadItems(r, count, shapes, body, offset, left).Got? ==>
              ReadItems(r, count, shapes, body, offset, left).used <= |body| &&
                ReadItems(r, count, shapes, body, offset, left).value.Many?
    decreases count
  {
    if count > 0 && shapes.Cons? {
      var first := r(shapes.head, body, offset, left);
      if first.Got? { ItemsInside(r, count - 1, shapes.tail, Drop(body, first.used), offset + first.used, first.left); }
    }
  }

  lemma {:induction false} ReadsInside(f: Format)
    ensures Inside(ReaderOf(f))
  {
    match f
    case Array(item) =>
      ReadsInside(item);
      CountedInside(IntReader(2), ReaderOf(item));
    case Repeated(item) =>
      ReadsInside(item);
      RepeatedInside(ReaderOf(item));
    case Pair(a, b) =>
      ReadsInside(a);
      ReadsInside(b);
      PairInside(ReaderOf(a), ReaderOf(b));
    case _ =>
  }

  lemma CountedInside(rc: Reader, item: Reader)
    requires Inside(rc) && Inside(item)
    ensures Inside(CountedReader(rc, item))
  {
    var r := CountedReader(rc, item);
    forall shape, body, offset: nat, left: int | r(shape, body, offset, left).Got?
      ensures r(shape, body, offset, left).used <= |body|
    {
      var first := rc(Bare, body, offset, left);
      ItemsInside(item, CountOf(first), shape.items, Drop(body, first.used), offset + first.used, first.left);
    }
  }

  lemma RepeatedInside(item: Reader)
    requires Inside(item)
    ensures Inside(RepeatedReader(item))
  {
    var r := RepeatedReader(item);
    forall shape, body, offset: nat, left: int | r(shape, body, offset, left).Got?
      ensures r(shape, body, offset, left).used <= |body|
    {
      ItemsInside(item, Length(shape.items), shape.items, body, offset, left);
    }
  }

  lemma PairInside(a: Reader, b: Reader)
    requires Inside(a) && Inside(b)
    ensures Inside(PairReader(a, b))
  {
    var r := PairReader(a, b);
    forall shape, body, offset: nat, left: int | r(shape, body, offset, left).Got?
      ensures r(shape, body, offset, left).used <= |body|
    {
      var first := a(shape.first, body, offset, left);
      var second := b(shape.second, Drop(body, first.used), offset + first.used, first.left);
    }
  }

  method ReadField(f: Format, shape: Shape, body: ByteString, c: Cursor) returns (value: Value)
    requires c.pos <= |body| && Read(f, shape, body[c.pos..], c.pos, c.left).Got?
    modifies c
    ensures Reads(Read(f, shape, body[old(c.pos)..], old(c.pos), old(c.left)), value, old(c.pos), c.pos, c.left)
    ensures c.pos <= |body|
    decreases f, 1
  {
    hide ReadItems, FromBigEndian;
    ReadsInside(f);
    match f
    case Int(n) =>
      value := Number(FromBigEndian(body[c.pos..][..n]));
      c.Advance(n);
    case CString =>
      value := Text(body[c.pos..][..shape.end - shape.start]);
      c.Advance(shape.end - shape.start + 1);
    case ByteN =>
      value := Blob(body[c.pos..][..c.left]);
      c.Advance(c.left);
    case VarByteN => value := ReadCell(body, c);
    case Array(item) =>
      var size := FromBigEndian(body[c.pos..][..2]);
      var base, left := c.pos, c.left;
      DropTwice(body, base, 2);
      c.Advance(2);
      value := ReadMany(item, size, shape.items, body, c);
    case Repeated(item) =>
      value := ReadMany(item, Length(shape.items), shape.items, body, c);
    case Pair(a, b) =>
      ReadsInside(a);
      var pos := c.pos;
      ghost var first := Read(a, shape.first, body[c.pos..], c.pos, c.left);
      DropTwice(body, pos, first.used);
      var x := ReadField(a, shape.first, body, c);
      var y := ReadField(b, shape.second, body, c);
      value := Both(x, y);
    case Empty => value := Nothing;
  }

  method ReadCell(body: ByteString, c: Cursor) returns (value: Value)
    requires c.pos <= |body| && Codec.ReadCell(body[c.pos..], c.left).Got?
    modifies c
    ensures Reads(Codec.ReadCell(body[old(c.pos)..], old(c.left)), value, old(c.pos), c.pos, c.left)
  {
    var len := CellLength(body[c.pos..]);
    if len >= 1 { assert body[c.pos..][4..4 + len] == body[c.pos + 4..c.pos + 4 + len]; }
    c.Advance(4);
    if len < 1 { return Cell(None); }
    value := Cell(Some(body[c.pos..c.pos + len]));
    c.Advance(len);
  }

  /** After some items: the reading of all of them is that of the items read and those to come. */
  predicate ItemsReadSoFar(r: Reader, whole: Reading, values: seq<Value>, more: nat, shapes: List<Shape>,
                           body: ByteString, base: nat, pos: nat, left: int)
  {
    && base <= pos <= |body|
    && whole.Got?
    && whole == PrefixedReading(values, pos - base, ReadItems(r, more, shapes, body[pos..], pos, left))
  }

  lemma NextRead(r: Reader, whole: Reading, values: seq<Value>, more: nat, shapes: List<Shape>, body: ByteString,
                 base: nat, pos: nat, left: int)
    requires more > 0 && ItemsReadSoFar(r, whole, values, more, shapes, body, base, pos, left)
    ensures shapes.Cons? && r(shapes.head, body[pos..], pos, left).Got?
    ensures
      var d := r(shapes.head, body[pos..], pos, left);
      d.used <= |body[pos..]| ==>
        ItemsReadSoFar(r, whole, values + [d.value], more - 1, shapes.tail, body, base, pos + d.used, d.left)
  {
    var d := r(shapes.head, body[pos..], pos, left);
    if d.Got? && d.used <= |body[pos..]| {
      DropTwice(body, pos, d.used);
      PrefixedReadingNext(values, pos - base, d.used, d.value,
                          ReadItems(r, more - 1, shapes.tail, body[pos + d.used..], pos + d.used, d.left));
    }
  }

  /** The loop over the items of an array or a repeated field. */
  method ReadMany(item: Format, size: nat, shapes: List<Shape>, body: ByteString, c: Cursor) returns (value: Value)
    requires c.pos <= |body| && ReadItems(ReaderOf(item), size, shapes, body[c.pos..], c.pos, c.left).Got?
    modifies c
    ensures Reads(ReadItems(ReaderOf(item), size, shapes, body[old(c.pos)..], old(c.pos), old(c.left)), value,
      old(c.pos), c.pos, c.left)
    ensures c.pos <= |body|
    decreases item, 2
  {
    hide ReaderOf, ReadItems, Concat;
    ReadsInside(item);
    var base := c.pos;
    ghost var whole := ReadItems(ReaderOf(item), size, shapes, body[base..], base, c.left);
    ReadStart(ReaderOf(item), size, shapes, body, base, c.left);
    var values: seq<Value>, rest, i := [], shapes, 0;
    while i < size
      invariant 0 <= i <= size &&
        ItemsReadSoFar(ReaderOf(item), whole, values, size - i, rest, body, base, c.pos, c.left)
    {
      NextRead(ReaderOf(item), whole, values, size - i, rest, body, base, c.pos, c.left);
      var x := ReadField(item, rest.head, body, c);
      values, rest, i := values + [x], rest.tail, i + 1;
    }
    ReadEnd(ReaderOf(item), whole, values, rest, body, base, c.pos, c.left);
    value := Many(Concat(values, Nil));
  }

  lemma ReadStart(r: Reader, size: nat, shapes: List<Shape>, body: ByteString, base: nat, left: int)
    requires base <= |body| && ReadItems(r, size, shapes, body[base..], base, left).Got?
    ensures ItemsReadSoFar(r, ReadItems(r, size, shapes, body[base..], base, left), [], size, shapes, body, base, base,
      left)
  {
    ItemsAreMany(r, size, shapes, body[base..], base, left);
  }

  lemma ReadEnd(r: Reader, whole: Reading, values: seq<Value>, shapes: List<Shape>, body: ByteString, base: nat,
                pos: nat, left: int)
    requires ItemsReadSoFar(r, whole, values, 0, shapes, body, base, pos, left)
    ensures whole == Got(Many(Concat(values, Nil)), pos - base, left)
  {
  }

  lemma ItemsAreMany(r: Reader, size: nat, shapes: List<Shape>, body: ByteString, offset: nat, left: int)
    ensures ReadItems(r, size, shapes, body, offset, left).Got? ==>
      ReadItems(r, size, shapes, body, offset, left).value.Many?
    decreases size
  {
    if size > 0 && shapes.Cons? {
      var d := r(shapes.head, body, offset, left);
      if d.Got? { ItemsAreMany(r, size - 1, shapes.tail, Drop(body, d.used), offset + d.used, d.left); }
    }
  }

  // --- write and getSize ---

  /** The buffer written to. */
  class Output {
    var bytes: ByteString

    constructor ()
      ensures bytes == []
    {
      bytes := [];
    }

    method Append(more: ByteString)
      modifies this
      ensures bytes == old(bytes) + more
    {
      bytes := bytes + more;
    }
  }

  method WriteField(f: Format, v: Value, out: Output)
    requires Typed(f, v)
    modifies out
    ensures out.bytes == old(out.bytes) + Write(f, v)
    decreases f, 1
  {
    hide WriteItems, BigEndian, AllTyped;
    match f
    case Int(n) => out.Append(BigEndian(v.n, n));
    case CString =>
      out.Append(v.text);
      out.Append([0]);
    case ByteN => out.Append(v.bytes);
    case VarByteN =>
      if v.cell.Some? {
        out.Append(Put32(|v.cell.value|));
        out.Append(v.cell.value);
      } else {
        out.Append(Put32(TWO_32 - 1));
      }
    case Array(item) =>
      out.Append(BigEndian(Length(v.items), 2));
      WriteMany(item, v.items, out);
    case Repeated(item) => WriteMany(item, v.items, out);
    case Pair(a, b) =>
      WriteField(a, v.first, out);
      WriteField(b, v.second, out);
    case Empty =>
  }

  method WriteMany(item: Format, xs: List<Value>, out: Output)
    requires AllTyped(item, xs)
    modifies out
    ensures out.bytes == old(out.bytes) + WriteItems(WriterOf(item), xs)
    decreases item, 2
  {
    hide WriterOf, Typed;
    ghost var whole := out.bytes + WriteItems(WriterOf(item), xs);
    var rest := xs;
    while rest.Cons?
      invariant AllTyped(item, rest) && out.bytes + WriteItems(WriterOf(item), rest) == whole
      decreases rest
    {
      WriteField(item, rest.head, out);
      rest := rest.tail;
    }
  }

  method SizeOf(f: Format, v: Value) returns (n: nat)
    requires Typed(f, v)
    ensures n == GetSize(f, v)
    decreases f, 1
  {
    hide SizeOfItems, AllTyped;
    match f
    case Int(k) => n := k;
    case CString => n := |v.text| + 1;
    case ByteN => n := |v.bytes|;
    case VarByteN => n := if v.cell.Some? then |v.cell.value| + 4 else 4;
    case Array(item) =>
      n := SizeOfMany(item, v.items);
      n := 2 + n;
    case Repeated(item) => n := SizeOfMany(item, v.items);
    case Pair(a, b) =>
      n := SizeOf(a, v.first);
      var m := SizeOf(b, v.second);
      n := n + m;
    case Empty => n := 0;
  }

  /** The 16-bit sum over the items. */
  method SizeOfMany(item: Format, xs: List<Value>) returns (size: nat)
    requires AllTyped(item, xs)
    ensures size == SizeOfItems(SizerOf(item), xs, 0)
    decreases item, 2
  {
    hide SizerOf, Typed;
    var rest := xs;
    size := 0;
    while rest.Cons?
      invariant AllTyped(item, rest) && SizeOfItems(SizerOf(item), rest, size) == SizeOfItems(SizerOf(item), xs, 0)
      decreases rest
    {
      var n := SizeOf(item, rest.head);
      size := (size + n) % TWO_16;
      rest := rest.tail;
    }
  }

  // --- whole messages ---

  /** The body of a message, from a position of the buffer, as long as the frame says. */
  method ValidateMessage(f: Format, data: ByteString, start: nat, length: int) returns (v: Verdict)
    requires WellFormed(f) && start <= |data|
    ensures v == Validate(f, data[start..], 0, length)
  {
    var c := new Cursor(start, length);
    v := ValidateField(f, data, start, c);
  }

  /**
   * Reads the body that validation accepted, wherever in the buffer it was validated: the read goes through,
   * stays inside the body and gives a value of the format.
   */
  method ReadMessage(f: Format, ghost rest: ByteString, v: Verdict, body: ByteString, length: int)
    returns (value: Value)
    requires WellFormed(f) && v == Validate(f, rest, 0, length) && v.Valid? && body <= rest && v.used <= |body|
    ensures Typed(f, value) && Read(f, v.shape, body, 0, length) == Got(value, v.used, v.left)
  {
    ReadAgrees(f);
    assert body[0..] == body;
    var c := new Cursor(0, length);
    value := ReadField(f, v.shape, body, c);
  }

  method WriteMessage(identifier: byte, f: Format, v: Value, out: Output)
    requires Typed(f, v)
    modifies out
    ensures out.bytes == old(out.bytes) + WriteFrame(identifier, f, v)
  {
    var size := SizeOf(f, v);
    out.Append([identifier]);
    out.Append(Put32((size + 4) % TWO_32));
    WriteField(f, v, out);
  }
}
