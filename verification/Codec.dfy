/** The wire formats of PostgreSQL messages, and their interpreters: validate, read, write and size. */
module Codec {
  import opened Outcomes
  import opened Bytes
  import opened Lists

  /** The field types of section 55.7, "Message Formats", of the PostgreSQL documentation. */
  datatype Format =
    | Int(size: nat)
    | CString
    | ByteN                     // all bytes up to the end of the message
    | VarByteN                  // a 32-bit length, then that many bytes; nothing follows a length below 1
    | Array(item: Format)       // a 16-bit count, then the items
    | Repeated(item: Format)    // items as long as they can be read
    | Pair(first: Format, second: Format)
    | Empty

  datatype Value =
    | Number(n: nat)
    | Text(text: ByteString)
    | Blob(bytes: ByteString)
    | Cell(cell: Option<ByteString>)
    | Many(items: List<Value>)
    | Both(first: Value, second: Value)
    | Nothing

  const TWO_16 := 0x1_0000
  const TWO_31 := 0x8000_0000
  const TWO_32 := 0x1_0000_0000

  // --- big-endian integers ---

  function BigEndian(n: nat, k: nat): (b: ByteString)
    ensures |b| == k
  {
    if k == 0 then [] else BigEndian(n / 256, k - 1) + [n % 256]
  }

  function FromBigEndian(b: ByteString): nat {
    if b == [] then 0 else 256 * FromBigEndian(b[..|b| - 1]) + b[|b| - 1]
  }

  lemma {:induction false} BigEndianRoundTrip(n: nat, k: nat)
    requires n < Power256(k)
    ensures FromBigEndian(BigEndian(n, k)) == n
  {
    if k > 0 {
      var b := BigEndian(n, k);
      assert b[..k - 1] == BigEndian(n / 256, k - 1);
      BigEndianRoundTrip(n / 256, k - 1);
    }
  }

  lemma {:induction false} FromBigEndianRoundTrip(b: ByteString)
    ensures FromBigEndian(b) < Power256(|b|)
    ensures BigEndian(FromBigEndian(b), |b|) == b
  {
    if b != [] {
      var init, last := b[..|b| - 1], b[|b| - 1];
      FromBigEndianRoundTrip(init);
      assert FromBigEndian(b) / 256 == FromBigEndian(init) && FromBigEndian(b) % 256 == last;
      assert b == init + [last];
    }
  }

  lemma Powers()
    ensures Power256(1) == 256 && Power256(2) == TWO_16 && Power256(4) == TWO_32
  {
    assert Power256(2) == 256 * (256 * Power256(0));
    assert Power256(4) == 256 * (256 * Power256(2));
  }

  // --- 32-bit words, byte by byte ---

  function Word32(b: ByteString): (n: nat)
    requires |b| >= 4
    ensures n < TWO_32
  {
    256 * (256 * (256 * (b[0] as int) + b[1]) + b[2]) + b[3]
  }

  function Put32(n: nat): (b: ByteString)
    ensures |b| == 4
  {
    [n / 256 / 256 / 256 % 256, n / 256 / 256 % 256, n / 256 % 256, n % 256]
  }

  lemma Word32RoundTrip(n: nat)
    requires n < TWO_32
    ensures Word32(Put32(n)) == n
  {
    var n1 := n / 256;
    var n2 := n1 / 256;
    assert n2 / 256 < 256 && n == 256 * n1 + n % 256 && n1 == 256 * n2 + n1 % 256 && n2 == 256 * (n2 / 256) + n2 % 256;
  }

  lemma Put32RoundTrip(b: ByteString)
    requires |b| == 4
    ensures Put32(Word32(b)) == b
  {
    var n := Word32(b);
    assert n % 256 == b[3] && n / 256 == 256 * (256 * (b[0] as int) + b[1]) + b[2];
    assert n / 256 % 256 == b[2] && n / 256 / 256 == 256 * (b[0] as int) + b[1];
  }

  /** A 32-bit word as a signed number. */
  function Signed32(n: nat): int { if n < TWO_31 then n else n - TWO_32 }

  // The bytes left of a message are an unsigned 64-bit integer in the message classes. Here they are the same bits as a
  // signed number: below zero once a subtraction has wrapped around, and then, compared as unsigned, more than
  // the length of any buffer.

  predicate FewerThan(left: int, n: nat) { 0 <= left < n }

  predicate MoreThan(left: int, n: nat) { left < 0 || n < left }

  /** What is left of a buffer. */
  function Drop(b: ByteString, n: nat): ByteString { if n <= |b| then b[n..] else [] }

  // --- validate ---

  /** What validation records for reading: where strings are, and how many items there are. */
  datatype Shape =
    | Bare
    | Range(start: nat, end: nat)
    | Items(items: List<Shape>)
    | Shapes(first: Shape, second: Shape)

  /** The verdict, and on success the bytes used and the bytes left of the message. */
  datatype Verdict = Failed | NeedMoreData | Valid(used: nat, left: int, shape: Shape)

  /**
   * Judges a field at the front of the rest of the buffer: `offset` bytes into the message, of which
   * `left` bytes remain.
   */
  type Validator = (ByteString, nat, int) -> Verdict

  function ValidateInt(n: nat, rest: ByteString, left: int): Verdict {
    if FewerThan(left, n) then Failed else if |rest| < n then NeedMoreData else Valid(n, left - n, Bare)
  }

  /** The first zero byte. */
  function FindZero(b: ByteString): (r: Option<nat>)
    ensures r.Some? ==> r.value < |b| && b[r.value] == 0 && forall k :: 0 <= k < r.value ==> b[k] != 0
    ensures r.None? ==> forall k :: 0 <= k < |b| ==> b[k] != 0
  {
    if b == [] then None
    else if b[0] == 0 then Some(0)
    else
      var r := FindZero(b[1..]);
      if r.Some? then Some(r.value + 1) else None
  }

  function ValidateString(rest: ByteString, offset: nat, left: int): Verdict {
    match FindZero(rest)
    case None => if MoreThan(left, |rest|) then NeedMoreData else Failed
    case Some(size) =>
      if MoreThan(left, size) then Valid(size + 1, left - (size + 1), Range(offset, offset + size)) else Failed
  }

  function ValidateBytes(rest: ByteString, left: int): Verdict {
    if MoreThan(left, |rest|) then NeedMoreData else Valid(left, 0, Bare)
  }

  /** The signed length in front of a variable-length field. */
  function CellLength(rest: ByteString): (len: int)
    requires |rest| >= 4
    ensures -TWO_31 <= len < TWO_31
  {
    Signed32(Word32(rest))
  }

  /** The length is compared with all that is left, its own four bytes included. */
  function ValidateCell(rest: ByteString, left: int): Verdict {
    if FewerThan(left, 4) then Failed
    else if |rest| < 4 then NeedMoreData
    else
      var len := CellLength(rest);
      if len > left then Failed
      else if len < 1 then Valid(4, left - 4, Bare)
      else if |rest| < len + 4 then NeedMoreData
      else Valid(len + 4, left - (len + 4), Bare)
  }

  /** The verdict on a list after a first item. */
  function AfterShape(used: nat, shape: Shape, v: Verdict): Verdict {
    if v.Valid? && v.shape.Items? then Valid(used + v.used, v.left, Items(Cons(shape, v.shape.items))) else v
  }

  /** A number of items one after the other. */
  function ValidateItems(item: Validator, count: nat, rest: ByteString, offset: nat, left: int): Verdict
    decreases count
  {
    if count == 0 then Valid(0, left, Items(Nil))
    else
      var v := item(rest, offset, left);
      if !v.Valid? then v
      else AfterShape(v.used, v.shape, ValidateItems(item, count - 1, Drop(rest, v.used), offset + v.used, v.left))
  }

  /** The count a field holds. */
  function CountOf(r: Reading): nat { if r.Got? && r.value.Number? then r.value.n else 0 }

  /** A count, then as many items: the count field is given by its own validator and reader. */
  function ValidateCounted(c: Validator, rc: Reader, item: Validator, rest: ByteString, offset: nat,
                           left: int): Verdict {
    var v := c(rest, offset, left);
    if !v.Valid? then v
    else
      var w := ValidateItems(item, CountOf(rc(Bare, rest, offset, left)), Drop(rest, v.used), offset + v.used, v.left);
      if w.Valid? then Valid(v.used + w.used, w.left, w.shape) else w
  }

  /**
   * Items until nothing is left or one does not validate. An item that takes no byte would repeat
   * forever; well-formed formats have none.
   */
  function ValidateAll(item: Validator, rest: ByteString, offset: nat, left: int): Verdict
    decreases |rest|
  {
    if left == 0 then Valid(0, left, Items(Nil))
    else
      var v := item(rest, offset, left);
      if !v.Valid? || v.used == 0 || v.used > |rest| then Valid(0, left, Items(Nil))
      else AfterShape(v.used, v.shape, ValidateAll(item, rest[v.used..], offset + v.used, v.left))
  }

  function ValidateRepeated(item: Validator, rest: ByteString, offset: nat, left: int): Verdict {
    if MoreThan(left, |rest|) then NeedMoreData else ValidateAll(item, rest, offset, left)
  }

  /** Sequence: the first field, then the remaining ones. */
  function ValidatePair(a: Validator, b: Validator, rest: ByteString, offset: nat, left: int): Verdict {
    var v := a(rest, offset, left);
    if !v.Valid? then v
    else
      var w := b(Drop(rest, v.used), offset + v.used, v.left);
      if !w.Valid? then w else Valid(v.used + w.used, w.left, Shapes(v.shape, w.shape))
  }

  function ValidatorOf(f: Format): Validator {
    match f
    case Int(n) => IntValidator(n)
    case CString => StringValidator()
    case ByteN => BytesValidator()
    case VarByteN => CellValidator()
    case Array(item) => ArrayValidator(ValidatorOf(item))
    case Repeated(item) => RepeatedValidator(ValidatorOf(item))
    case Pair(a, b) => PairValidator(ValidatorOf(a), ValidatorOf(b))
    case Empty => EmptyValidator()
  }

  function IntValidator(n: nat): Validator { (rest: ByteString, offset: nat, left: int) => ValidateInt(n, rest, left) }

  function StringValidator(): Validator {
    (rest: ByteString, offset: nat, left: int) => ValidateString(rest, offset, left)
  }

  function BytesValidator(): Validator { (rest: ByteString, offset: nat, left: int) => ValidateBytes(rest, left) }

  function CellValidator(): Validator { (rest: ByteString, offset: nat, left: int) => ValidateCell(rest, left) }

  function EmptyValidator(): Validator { (rest: ByteString, offset: nat, left: int) => Valid(0, left, Bare) }

  function CountedValidator(c: Validator, rc: Reader, item: Validator): Validator {
    (rest: ByteString, offset: nat, left: int) => ValidateCounted(c, rc, item, rest, offset, left)
  }

  function ArrayValidator(item: Validator): Validator { CountedValidator(IntValidator(2), IntReader(2), item) }

  function RepeatedValidator(item: Validator): Validator {
    (rest: ByteString, offset: nat, left: int) => ValidateRepeated(item, rest, offset, left)
  }

  function PairValidator(a: Validator, b: Validator): Validator {
    (rest: ByteString, offset: nat, left: int) => ValidatePair(a, b, rest, offset, left)
  }

  function Validate(f: Format, rest: ByteString, offset: nat, left: int): Verdict { ValidatorOf(f)(rest, offset, left) }

  /** The field takes at least one byte whenever it is valid. */
  predicate Solid(f: Format) {
    match f
    case Int(n) => n > 0
    case CString => true
    case VarByteN => true
    case Array(_) => true
    case Pair(a, b) => Solid(a) || Solid(b)
    case _ => false
  }

  /** Repeated fields make progress. */
  predicate WellFormed(f: Format) {
    match f
    case Int(n) => n < TWO_32
    case Array(item) => WellFormed(item)
    case Repeated(item) => WellFormed(item) && Solid(item)
    case Pair(a, b) => WellFormed(a) && WellFormed(b)
    case _ => true
  }

  // --- read ---

  /** The value read, the bytes used and left; or an access outside the body, or at another place than validated. */
  datatype Reading = Misread | Got(value: Value, used: nat, left: int)

  /** Reads a field at the front of the rest of a message body, guided by what validation recorded. */
  type Reader = (Shape, ByteString, nat, int) -> Reading

  function ReadInt(n: nat, body: ByteString, left: int): Reading {
    if |body| < n then Misread else Got(Number(FromBigEndian(body[..n])), n, left - n)
  }

  function ReadString(shape: Shape, body: ByteString, offset: nat, left: int): Reading {
    if !shape.Range? || shape.start != offset || shape.end < shape.start then Misread
    else
      var size := shape.end - shape.start;
      if |body| < size + 1 then Misread else Got(Text(body[..size]), size + 1, left - (size + 1))
  }

  function ReadBytes(body: ByteString, left: int): Reading {
    if MoreThan(left, |body|) then Misread else Got(Blob(body[..left]), left, 0)
  }

  function ReadCell(body: ByteString, left: int): Reading {
    if |body| < 4 then Misread
    else
      var len := CellLength(body);
      if len < 1 then Got(Cell(None), 4, left - 4)
      else if |body| < 4 + len then Misread
      else Got(Cell(Some(body[4..4 + len])), 4 + len, left - (4 + len))
  }

  /** The reading of a list after a first item. */
  function AfterItem(used: nat, x: Value, r: Reading): Reading {
    if r.Got? && r.value.Many? then Got(Many(Cons(x, r.value.items)), used + r.used, r.left) else r
  }

  function ReadItems(item: Reader, count: nat, shapes: List<Shape>, body: ByteString, offset: nat, left: int): Reading
    decreases count
  {
    if count == 0 then Got(Many(Nil), 0, left)
    else if shapes.Nil? then Misread
    else
      var r := item(shapes.head, body, offset, left);
      if r.Misread? then Misread
      else AfterItem(r.used, r.value,
        ReadItems(item, count - 1, shapes.tail, Drop(body, r.used), offset + r.used, r.left))
  }

  function ReadCounted(rc: Reader, item: Reader, shape: Shape, body: ByteString, offset: nat, left: int): Reading {
    var r := rc(Bare, body, offset, left);
    if r.Misread? || !shape.Items? then Misread
    else
      var s := ReadItems(item, CountOf(r), shape.items, Drop(body, r.used), offset + r.used, r.left);
      if s.Got? then Got(s.value, r.used + s.used, s.left) else Misread
  }

  function ReadRepeated(item: Reader, shape: Shape, body: ByteString, offset: nat, left: int): Reading {
    if shape.Items? then ReadItems(item, Length(shape.items), shape.items, body, offset, left) else Misread
  }

  function ReadPair(a: Reader, b: Reader, shape: Shape, body: ByteString, offset: nat, left: int): Reading {
    if !shape.Shapes? then Misread
    else
      var r := a(shape.first, body, offset, left);
      if r.Misread? then Misread
      else
        var s := b(shape.second, Drop(body, r.used), offset + r.used, r.left);
        if s.Misread? then Misread else Got(Both(r.value, s.value), r.used + s.used, s.left)
  }

  function ReaderOf(f: Format): Reader {
    match f
    case Int(n) => IntReader(n)
    case CString => StringReader()
    case ByteN => BytesReader()
    case VarByteN => CellReader()
    case Array(item) => ArrayReader(ReaderOf(item))
    case Repeated(item) => RepeatedReader(ReaderOf(item))
    case Pair(a, b) => PairReader(ReaderOf(a), ReaderOf(b))
    case Empty => EmptyReader()
  }

  function IntReader(n: nat): Reader {
    (shape: Shape, body: ByteString, offset: nat, left: int) => ReadInt(n, body, left)
  }

  function StringReader(): Reader {
    (shape: Shape, body: ByteString, offset: nat, left: int) => ReadString(shape, body, offset, left)
  }

  function BytesReader(): Reader { (shape: Shape, body: ByteString, offset: nat, left: int) => ReadBytes(body, left) }

  function CellReader(): Reader { (shape: Shape, body: ByteString, offset: nat, left: int) => ReadCell(body, left) }

  function EmptyReader(): Reader { (shape: Shape, body: ByteString, offset: nat, left: int) => Got(Nothing, 0, left) }

  function CountedReader(rc: Reader, item: Reader): Reader {
    (shape: Shape, body: ByteString, offset: nat, left: int) => ReadCounted(rc, item, shape, body, offset, left)
  }

  function ArrayReader(item: Reader): Reader { CountedReader(IntReader(2), item) }

  function RepeatedReader(item: Reader): Reader {
    (shape: Shape, body: ByteString, offset: nat, left: int) => ReadRepeated(item, shape, body, offset, left)
  }

  function PairReader(a: Reader, b: Reader): Reader {
    (shape: Shape, body: ByteString, offset: nat, left: int) => ReadPair(a, b, shape, body, offset, left)
  }

  function Read(f: Format, shape: Shape, body: ByteString, offset: nat, left: int): Reading {
    ReaderOf(f)(shape, body, offset, left)
  }

  // --- write and getSize ---

  /** Appends a value to the buffer; nothing for a value of another type. */
  type Writer = Value -> ByteString

  function WriteCell(cell: Option<ByteString>): ByteString {
    if cell.Some? then Put32(|cell.value|) + cell.value else Put32(TWO_32 - 1)
  }

  function WriteItems(item: Writer, xs: List<Value>): ByteString {
    match xs
    case Nil => []
    case Cons(x, tail) => item(x) + WriteItems(item, tail)
  }

  function WriteCounted(wc: Writer, item: Writer, v: Value): ByteString {
    if v.Many? then wc(Number(Length(v.items))) + WriteItems(item, v.items) else []
  }

  function WriteRepeated(item: Writer, v: Value): ByteString { if v.Many? then WriteItems(item, v.items) else [] }

  function WritePair(a: Writer, b: Writer, v: Value): ByteString { if v.Both? then a(v.first) + b(v.second) else [] }

  function WriterOf(f: Format): Writer {
    match f
    case Int(n) => IntWriter(n)
    case CString => StringWriter()
    case ByteN => BytesWriter()
    case VarByteN => CellWriter()
    case Array(item) => ArrayWriter(WriterOf(item))
    case Repeated(item) => RepeatedWriter(WriterOf(item))
    case Pair(a, b) => PairWriter(WriterOf(a), WriterOf(b))
    case Empty => EmptyWriter()
  }

  function IntWriter(n: nat): Writer { (v: Value) => if v.Number? then BigEndian(v.n, n) else [] }

  function StringWriter(): Writer { (v: Value) => if v.Text? then v.text + [0] else [] }

  function BytesWriter(): Writer { (v: Value) => if v.Blob? then v.bytes else [] }

  function CellWriter(): Writer { (v: Value) => if v.Cell? then WriteCell(v.cell) else [] }

  function EmptyWriter(): Writer { (v: Value) => [] }

  function CountedWriter(wc: Writer, item: Writer): Writer { (v: Value) => WriteCounted(wc, item, v) }

  function ArrayWriter(item: Writer): Writer { CountedWriter(IntWriter(2), item) }

  function RepeatedWriter(item: Writer): Writer { (v: Value) => WriteRepeated(item, v) }

  function PairWriter(a: Writer, b: Writer): Writer { (v: Value) => WritePair(a, b, v) }

  function Write(f: Format, v: Value): ByteString { WriterOf(f)(v) }

  type Sizer = Value -> nat

  /** The sizes of items are added in 16 bits, first to last. */
  function SizeOfItems(item: Sizer, xs: List<Value>, sum: nat): nat {
    match xs
    case Nil => sum
    case Cons(x, tail) => SizeOfItems(item, tail, (sum + item(x)) % TWO_16)
  }

  function SizerOf(f: Format): Sizer {
    match f
    case Int(n) => IntSizer(n)
    case CString => StringSizer()
    case ByteN => BytesSizer()
    case VarByteN => CellSizer()
    case Array(item) => ArraySizer(SizerOf(item))
    case Repeated(item) => RepeatedSizer(SizerOf(item))
    case Pair(a, b) => PairSizer(SizerOf(a), SizerOf(b))
    case Empty => IntSizer(0)
  }

  function IntSizer(n: nat): Sizer { (v: Value) => n }

  function StringSizer(): Sizer { (v: Value) => if v.Text? then |v.text| + 1 else 0 }

  function BytesSizer(): Sizer { (v: Value) => if v.Blob? then |v.bytes| else 0 }

  function CellSizer(): Sizer { (v: Value) => if v.Cell? && v.cell.Some? then |v.cell.value| + 4 else 4 }

  function ArraySizer(item: Sizer): Sizer { (v: Value) => 2 + if v.Many? then SizeOfItems(item, v.items, 0) else 0 }

  function RepeatedSizer(item: Sizer): Sizer { (v: Value) => if v.Many? then SizeOfItems(item, v.items, 0) else 0 }

  function PairSizer(a: Sizer, b: Sizer): Sizer { (v: Value) => if v.Both? then a(v.first) + b(v.second) else 0 }

  function GetSize(f: Format, v: Value): nat { SizerOf(f)(v) }

  /** The value is one of the format's. */
  predicate Typed(f: Format, v: Value)
    decreases f, 0
  {
    match f
    case Int(n) => v.Number? && v.n < Power256(n)
    case CString => v.Text?
    case ByteN => v.Blob?
    case VarByteN => v.Cell? && (v.cell.Some? ==> |v.cell.value| < TWO_31)
    case Array(item) => v.Many? && Length(v.items) < TWO_16 && AllTyped(item, v.items)
    case Repeated(item) => v.Many? && AllTyped(item, v.items)
    case Pair(a, b) => v.Both? && Typed(a, v.first) && Typed(b, v.second)
    case Empty => v.Nothing?
  }

  predicate AllTyped(f: Format, xs: List<Value>)
    decreases f, 1, xs
  {
    match xs
    case Nil => true
    case Cons(x, tail) => Typed(f, x) && AllTyped(f, tail)
  }

  /** A whole message with its type byte and length field. */
  function WriteFrame(identifier: byte, f: Format, v: Value): ByteString {
    [identifier] + Put32((GetSize(f, v) + 4) % TWO_32) + Write(f, v)
  }
}
