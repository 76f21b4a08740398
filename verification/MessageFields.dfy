/** Validation of message fields in place: a position and a count of bytes left, advanced step by step. */
module MessageFields {
  import opened Outcomes
  import opened Bytes
  import opened Lists
  import opened Codec
  import opened CodecLaws
  import opened CodecRoundTrip

  /** The position in the buffer and the bytes left of the message, passed by reference. */
  class Cursor {
    var pos: nat
    var left: int

    constructor (pos: nat, left: int)
      ensures this.pos == pos && this.left == left
    {
      this.pos, this.left := pos, left;
    }

    method Advance(n: nat)
      modifies this
      ensures pos == old(pos) + n && left == old(left) - n
    {
      pos, left := pos + n, left - n;
    }
  }

  /** The cursor after a verdict: moved on success, where it was otherwise. */
  predicate Moved(v: Verdict, pos: nat, left: int, pos': nat, left': int) {
    if v.Valid? then pos' == pos + v.used && left' == v.left else pos' == pos && left' == left
  }

  /** Validated items in front of a verdict on the items after them. */
  function Prefixed(items: seq<Shape>, used: nat, v: Verdict): Verdict {
    if v.Valid? && v.shape.Items? then Valid(used + v.used, v.left, Items(Concat(items, v.shape.items))) else v
  }

  function Concat<T>(s: seq<T>, t: List<T>): List<T>
    decreases |s|
  {
    if s == [] then t else Concat(s[..|s| - 1], Cons(s[|s| - 1], t))
  }

  lemma ConcatNext<T>(s: seq<T>, x: T, t: List<T>)
    ensures Concat(s + [x], t) == Concat(s, Cons(x, t))
  {
    assert (s + [x])[..|s|] == s;
  }

  lemma PrefixedNext(items: seq<Shape>, used: nat, u: nat, s: Shape, v: Verdict)
    ensures Prefixed(items + [s], used + u, v) == Prefixed(items, used, AfterShape(u, s, v))
  {
    if v.Valid? && v.shape.Items? { ConcatNext(items, s, v.shape.items); }
  }

  lemma DropTwice(data: ByteString, pos: nat, n: nat)
    requires pos + n <= |data|
    ensures Drop(data[pos..], n) == data[pos + n..]
  {
  }

  /** data.search for a zero byte: its index, or nothing. */
  method Search(data: ByteString, pos: nat) returns (index: Option<nat>)
    requires pos <= |data|
    ensures index == if FindZero(data[pos..]).Some? then Some(pos + FindZero(data[pos..]).value) else None
  {
    var i := pos;
    while i < |data|
      invariant pos <= i <= |data|
      invariant FindZero(data[pos..]) ==
                if FindZero(data[i..]).Some? then Some(i - pos + FindZero(data[i..]).value) else None
    {
      assert data[i..][1..] == data[i + 1..];
      if data[i] == 0 { return Some(i); }
      i := i + 1;
    }
    index := None;
  }

  method ValidateString(data: ByteString, start: nat, c: Cursor) returns (v: Verdict)
    requires start <= c.pos <= |data|
    modifies c
    ensures v == Codec.ValidateString(data[old(c.pos)..], old(c.pos) - start, old(c.left))
    ensures Moved(v, old(c.pos), old(c.left), c.pos, c.left)
  {
    var index := Search(data, c.pos);
    if index.None? { return if 0 <= c.left <= |data| - c.pos then Failed else NeedMoreData; }
    var size := index.value - c.pos;
    if 0 <= c.left <= size { return Failed; }
    var range := Range(c.pos - start, c.pos - start + size);
    c.Advance(size + 1);
    v := Valid(size + 1, c.left, range);
  }

  method ValidateCell(data: ByteString, c: Cursor) returns (v: Verdict)
    requires c.pos <= |data|
    modifies c
    ensures v == Codec.ValidateCell(data[old(c.pos)..], old(c.left))
    ensures Moved(v, old(c.pos), old(c.left), c.pos, c.left)
  {
    if 0 <= c.left < 4 { return Failed; }
    if |data| - c.pos < 4 { return NeedMoreData; }
    var len := CellLength(data[c.pos..]);
    if len > c.left { return Failed; }
    if len < 1 {
      c.Advance(4);
      return Valid(4, c.left, Bare);
    }
    if |data| - c.pos < len + 4 { return NeedMoreData; }
    c.Advance(len + 4);
    v := Valid(len + 4, c.left, Bare);
  }

  method ValidateField(f: Format, data: ByteString, start: nat, c: Cursor) returns (v: Verdict)
    requires WellFormed(f) && start <= c.pos <= |data|
    modifies c
    ensures v == Validate(f, data[old(c.pos)..], old(c.pos) - start, old(c.left))
    ensures Moved(v, old(c.pos), old(c.left), c.pos, c.left)
    decreases f, 1
  {
    hide ValidateItems, ValidateAll, FindZero, FromBigEndian, Codec.ValidateString, Codec.ValidateCell,
      Codec.ValidateRepeated, ValidateCounted, Codec.ValidatePair, ArrayAt, PairAt;
    match f
    case Int(n) =>
      if 0 <= c.left < n { return Failed; }
      if |data| - c.pos < n { return NeedMoreData; }
      c.Advance(n);
      v := Valid(n, c.left, Bare);
    case CString => v := ValidateString(data, start, c);
    case ByteN =>
      if c.left < 0 || c.left > |data| - c.pos { return NeedMoreData; }
      v := Valid(c.left, 0, Bare);
      c.Advance(c.left);
    case VarByteN => v := ValidateCell(data, c);
    case Array(item) =>
      ArrayIsAt(ValidatorOf(item), data, start, c.pos, c.left);
      v := ValidateArray(item, data, start, c);
    case Repeated(item) => v := ValidateRepeated(item, data, start, c);
    case Pair(a, b) =>
      PairIsAt(a, b, data, start, c.pos, c.left);
      v := ValidatePair(a, b, data, start, c);
    case Empty => v := Valid(0, c.left, Bare);
  }

  /** A pair at a position of the buffer. */
  function PairAt(a: Validator, b: Validator, data: ByteString, start: nat, pos: nat, left: int): Verdict
    requires start <= pos <= |data|
  {
    var v := a(data[pos..], pos - start, left);
    if !v.Valid? then v
    else if pos + v.used > |data| then Failed
    else
      var w := b(data[pos + v.used..], pos + v.used - start, v.left);
      if !w.Valid? then w else Valid(v.used + w.used, w.left, Shapes(v.shape, w.shape))
  }

  lemma PairIsAt(a: Format, b: Format, data: ByteString, start: nat, pos: nat, left: int)
    requires start <= pos <= |data|
    ensures Validate(Pair(a, b), data[pos..], pos - start, left) ==
      PairAt(ValidatorOf(a), ValidatorOf(b), data, start, pos, left)
    ensures Counts(Validate(a, data[pos..], pos - start, left), data[pos..], left)
  {
    AllBounded(a);
    FieldsAt(ValidatorOf(a), ValidatorOf(b), data, start, pos, left);
  }

  lemma FieldsAt(a: Validator, b: Validator, data: ByteString, start: nat, pos: nat, left: int)
    requires start <= pos <= |data| && Bounded(a)
    ensures PairValidator(a, b)(data[pos..], pos - start, left) == PairAt(a, b, data, start, pos, left)
    ensures Counts(a(data[pos..], pos - start, left), data[pos..], left)
  {
    var v := a(data[pos..], pos - start, left);
    assert Counts(v, data[pos..], left);
    if v.Valid? { DropTwice(data, pos, v.used); }
  }

  method ValidatePair(a: Format, b: Format, data: ByteString, start: nat, c: Cursor) returns (v: Verdict)
    requires WellFormed(a) && WellFormed(b) && start <= c.pos <= |data|
    requires Counts(Validate(a, data[c.pos..], c.pos - start, c.left), data[c.pos..], c.left)
    modifies c
    ensures v == PairAt(ValidatorOf(a), ValidatorOf(b), data, start, old(c.pos), old(c.left))
    ensures Moved(v, old(c.pos), old(c.left), c.pos, c.left)
    decreases Pair(a, b), 0
  {
    hide ValidatorOf;
    var pos, left := c.pos, c.left;
    var first := ValidateField(a, data, start, c);
    if !first.Valid? {
      c.pos, c.left := pos, left;
      return first;
    }
    var second := ValidateField(b, data, start, c);
    if !second.Valid? {
      c.pos, c.left := pos, left;
      return second;
    }
    v := Valid(first.used + second.used, c.left, Shapes(first.shape, second.shape));
  }

  /** After some items: the verdict on all of them is that on the items validated and those to come. */
  ghost predicate ItemsSoFar(v: Validator, whole: Verdict, value: seq<Shape>, more: nat, data: ByteString, start: nat,
                             base: nat, pos: nat, left: int) {
    && start <= base <= pos <= |data|
    && whole == Prefixed(value, pos - base, ValidateItems(v, more, data[pos..], pos - start, left))
  }

  lemma NextItem(f: Format, whole: Verdict, value: seq<Shape>, more: nat, data: ByteString, start: nat, base: nat,
                 pos: nat, left: int, d: Verdict)
    requires more > 0 && ItemsSoFar(ValidatorOf(f), whole, value, more, data, start, base, pos, left)
    requires d == Validate(f, data[pos..], pos - start, left)
    ensures Counts(d, data[pos..], left)
    ensures d.Valid? ==> ItemsSoFar(ValidatorOf(f), whole, value + [d.shape], more - 1, data, start, base, pos + d.used,
      d.left)
    ensures !d.Valid? ==> whole == d
  {
    CountsAt(f, data, start, pos, left);
    NextOfItems(ValidatorOf(f), whole, value, more, data, start, base, pos, left, d);
  }

  lemma CountsAt(f: Format, data: ByteString, start: nat, pos: nat, left: int)
    requires start <= pos <= |data|
    ensures Counts(Validate(f, data[pos..], pos - start, left), data[pos..], left)
  {
    AllBounded(f);
  }

  lemma NextOfItems(v: Validator, whole: Verdict, value: seq<Shape>, more: nat, data: ByteString, start: nat, base: nat,
                    pos: nat, left: int, d: Verdict)
    requires more > 0 && ItemsSoFar(v, whole, value, more, data, start, base, pos, left)
    requires d == v(data[pos..], pos - start, left) && Counts(d, data[pos..], left)
    ensures d.Valid? ==> ItemsSoFar(v, whole, value + [d.shape], more - 1, data, start, base, pos + d.used, d.left)
    ensures !d.Valid? ==> whole == d
  {
    if d.Valid? {
      DropTwice(data, pos, d.used);
      PrefixedNext(value, pos - base, d.used, d.shape,
        ValidateItems(v, more - 1, data[pos + d.used..], pos + d.used - start, d.left));
    }
  }

  lemma MovesAt(f: Format, data: ByteString, start: nat, pos: nat, left: int)
    requires Solid(f) && start <= pos <= |data|
    ensures Validate(f, data[pos..], pos - start, left).Valid? ==> Validate(f, data[pos..], pos - start, left).used > 0
  {
    AllBounded(f);
  }

  /** An array at a position of the buffer: its count, then the items. */
  function ArrayAt(v: Validator, data: ByteString, start: nat, pos: nat, left: int): Verdict
    requires start <= pos <= |data|
  {
    if 0 <= left < 2 then Failed
    else if |data| - pos < 2 then NeedMoreData
    else
      var w := ValidateItems(v, FromBigEndian(data[pos..pos + 2]), data[pos + 2..], pos + 2 - start, left - 2);
      if w.Valid? then Valid(2 + w.used, w.left, w.shape) else w
  }

  lemma ArrayIsAt(v: Validator, data: ByteString, start: nat, pos: nat, left: int)
    requires start <= pos <= |data|
    ensures ArrayValidator(v)(data[pos..], pos - start, left) == ArrayAt(v, data, start, pos, left)
  {
    if |data| - pos >= 2 {
      assert data[pos..][..2] == data[pos..pos + 2];
      DropTwice(data, pos, 2);
      assert IntReader(2)(Bare, data[pos..], pos - start, left) ==
        Got(Number(FromBigEndian(data[pos..pos + 2])), 2, left - 2);
    }
  }

  method ValidateArray(item: Format, data: ByteString, start: nat, c: Cursor) returns (v: Verdict)
    requires WellFormed(item) && start <= c.pos <= |data|
    modifies c
    ensures v == ArrayAt(ValidatorOf(item), data, start, old(c.pos), old(c.left))
    ensures Moved(v, old(c.pos), old(c.left), c.pos, c.left)
    decreases item, 4
  {
    hide ValidatorOf, ValidateItems;
    if 0 <= c.left < 2 { return Failed; }
    if |data| - c.pos < 2 { return NeedMoreData; }
    var pos, left := c.pos, c.left;
    var size := FromBigEndian(data[pos..pos + 2]);
    c.Advance(2);
    v := ValidateCount(item, size, data, start, c);
    if !v.Valid? {
      c.pos, c.left := pos, left;
    } else {
      v := Valid(2 + v.used, c.left, v.shape);
    }
  }

  lemma ItemsStart(f: Format, size: nat, data: ByteString, start: nat, base: nat, left: int)
    requires start <= base <= |data|
    ensures ItemsSoFar(ValidatorOf(f), ValidateItems(ValidatorOf(f), size, data[base..], base - start, left), [], size,
      data, start, base, base, left)
  {
  }

  lemma ItemsEnd(f: Format, whole: Verdict, value: seq<Shape>, data: ByteString, start: nat, base: nat, pos: nat,
                 left: int)
    requires ItemsSoFar(ValidatorOf(f), whole, value, 0, data, start, base, pos, left)
    ensures whole == Valid(pos - base, left, Items(Concat(value, Nil)))
  {
  }

  /** The loop over the items; stops at the first that does not validate. */
  method ValidateCount(item: Format, size: nat, data: ByteString, start: nat, c: Cursor) returns (v: Verdict)
    requires WellFormed(item) && start <= c.pos <= |data|
    modifies c
    ensures v == ValidateItems(ValidatorOf(item), size, data[old(c.pos)..], old(c.pos) - start, old(c.left))
    ensures v.Valid? ==> c.pos == old(c.pos) + v.used && c.left == v.left
    decreases item, 3
  {
    hide ValidatorOf, ValidateItems, Concat;
    var base := c.pos;
    ghost var whole := ValidateItems(ValidatorOf(item), size, data[base..], base - start, c.left);
    ItemsStart(item, size, data, start, base, c.left);
    var value: seq<Shape> := [];
    var i := 0;
    while i < size
      invariant 0 <= i <= size &&
        ItemsSoFar(ValidatorOf(item), whole, value, size - i, data, start, base, c.pos, c.left)
    {
      ghost var pos, left := c.pos, c.left;
      var d := ValidateField(item, data, start, c);
      NextItem(item, whole, value, size - i, data, start, base, pos, left, d);
      if !d.Valid? { return d; }
      value := value + [d.shape];
      i := i + 1;
    }
    ItemsEnd(item, whole, value, data, start, base, c.pos, c.left);
    v := Valid(c.pos - base, c.left, Items(Concat(value, Nil)));
  }

  /** The same for items of which there may be any number. */
  ghost predicate AllSoFar(v: Validator, whole: Verdict, value: seq<Shape>, data: ByteString, start: nat, base: nat,
                           pos: nat, left: int) {
    && start <= base <= pos <= |data|
    && whole == Prefixed(value, pos - base, ValidateAll(v, data[pos..], pos - start, left))
  }

  lemma NextOfAll(f: Format, whole: Verdict, value: seq<Shape>, data: ByteString, start: nat, base: nat, pos: nat,
                  left: int, d: Verdict)
    requires Solid(f) && left != 0 && AllSoFar(ValidatorOf(f), whole, value, data, start, base, pos, left)
    requires d == Validate(f, data[pos..], pos - start, left)
    ensures Counts(d, data[pos..], left)
    ensures d.Valid? ==> d.used > 0 && AllSoFar(ValidatorOf(f), whole, value + [d.shape], data, start, base,
      pos + d.used, d.left)
    ensures !d.Valid? ==> whole == Valid(pos - base, left, Items(Concat(value, Nil)))
  {
    CountsAt(f, data, start, pos, left);
    MovesAt(f, data, start, pos, left);
    NextOfRepeated(ValidatorOf(f), whole, value, data, start, base, pos, left, d);
  }

  lemma NextOfRepeated(v: Validator, whole: Verdict, value: seq<Shape>, data: ByteString, start: nat, base: nat,
                       pos: nat, left: int, d: Verdict)
    requires left != 0 && AllSoFar(v, whole, value, data, start, base, pos, left)
    requires d == v(data[pos..], pos - start, left) && Counts(d, data[pos..], left) && (d.Valid? ==> d.used > 0)
    ensures d.Valid? ==> AllSoFar(v, whole, value + [d.shape], data, start, base, pos + d.used, d.left)
    ensures !d.Valid? ==> whole == Valid(pos - base, left, Items(Concat(value, Nil)))
  {
    if d.Valid? {
      assert data[pos..][d.used..] == data[pos + d.used..];
      PrefixedNext(value, pos - base, d.used, d.shape,
        ValidateAll(v, data[pos + d.used..], pos + d.used - start, d.left));
    }
  }

  lemma AllStart(f: Format, data: ByteString, start: nat, base: nat, left: int)
    requires start <= base <= |data|
    ensures AllSoFar(ValidatorOf(f), ValidateAll(ValidatorOf(f), data[base..], base - start, left), [], data, start,
      base, base, left)
  {
    AllBounded(f);
    AllCounts(ValidatorOf(f), data[base..], base - start, left);
  }

  lemma AllEnd(f: Format, whole: Verdict, value: seq<Shape>, data: ByteString, start: nat, base: nat, pos: nat)
    requires AllSoFar(ValidatorOf(f), whole, value, data, start, base, pos, 0)
    ensures whole == Valid(pos - base, 0, Items(Concat(value, Nil)))
  {
  }

  method ValidateRepeated(item: Format, data: ByteString, start: nat, c: Cursor) returns (v: Verdict)
    requires WellFormed(item) && Solid(item) && start <= c.pos <= |data|
    modifies c
    ensures v == Codec.ValidateRepeated(ValidatorOf(item), data[old(c.pos)..], old(c.pos) - start, old(c.left))
    ensures Moved(v, old(c.pos), old(c.left), c.pos, c.left)
    decreases item, 4
  {
    hide ValidatorOf;
    if c.left < 0 || |data| - c.pos < c.left { return NeedMoreData; }
    v := ValidateWhilePossible(item, data, start, c);
  }

  /** The loop over the items; ends when nothing is left or an item does not validate. */
  method ValidateWhilePossible(item: Format, data: ByteString, start: nat, c: Cursor) returns (v: Verdict)
    requires WellFormed(item) && Solid(item) && start <= c.pos <= |data|
    modifies c
    ensures v == ValidateAll(ValidatorOf(item), data[old(c.pos)..], old(c.pos) - start, old(c.left))
    ensures Moved(v, old(c.pos), old(c.left), c.pos, c.left)
    decreases item, 3
  {
    hide ValidatorOf, ValidateAll, Concat;
    var base := c.pos;
    ghost var whole := ValidateAll(ValidatorOf(item), data[base..], base - start, c.left);
    AllStart(item, data, start, base, c.left);
    var value: seq<Shape> := [];
    while c.left != 0
      invariant AllSoFar(ValidatorOf(item), whole, value, data, start, base, c.pos, c.left)
      decreases |data| - c.pos
    {
      ghost var pos, left := c.pos, c.left;
      var d := ValidateField(item, data, start, c);
      NextOfAll(item, whole, value, data, start, base, pos, left, d);
      if !d.Valid? { return Valid(c.pos - base, c.left, Items(Concat(value, Nil))); }
      value := value + [d.shape];
    }
    AllEnd(item, whole, value, data, start, base, c.pos);
    v := Valid(c.pos - base, c.left, Items(Concat(value, Nil)));
  }
}
