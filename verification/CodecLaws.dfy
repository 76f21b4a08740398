/** Laws of the message formats, for every format: the bounds of validation, and when its verdict is final. */
module CodecLaws {
  import opened Outcomes
  import opened Bytes
  import opened Codec
  import opened Lists

  lemma DropKeepsPrefix(rest: ByteString, longer: ByteString, n: nat)
    requires n <= |rest| && rest <= longer
    ensures Drop(rest, n) <= Drop(longer, n)
  {
  }

  // --- bounds ---

  /** The bytes used are there, and position plus bytes left is kept (as 64-bit integers: modulo wrap-around). */
  predicate Counts(v: Verdict, rest: ByteString, left: int) {
    v.Valid? ==> v.used <= |rest| && v.used + v.left == left
  }

  ghost predicate Bounded(v: Validator) {
    forall rest, offset: nat, left: int :: Counts(v(rest, offset, left), rest, left)
  }

  ghost predicate Progresses(v: Validator) {
    forall rest, offset: nat, left: int :: v(rest, offset, left).Valid? ==> v(rest, offset, left).used > 0
  }

  lemma {:induction false} ItemsCount(item: Validator, count: nat, rest: ByteString, offset: nat, left: int)
    requires Bounded(item)
    ensures Counts(ValidateItems(item, count, rest, offset, left), rest, left)
    ensures ValidateItems(item, count, rest, offset, left).Valid? ==>
              && ValidateItems(item, count, rest, offset, left).shape.Items?
              && Length(ValidateItems(item, count, rest, offset, left).shape.items) == count
    decreases count
  {
    var v := item(rest, offset, left);
    assert Counts(v, rest, left);
    if count > 0 && v.Valid? { ItemsCount(item, count - 1, Drop(rest, v.used), offset + v.used, v.left); }
  }

  lemma {:induction false} AllCounts(item: Validator, rest: ByteString, offset: nat, left: int)
    requires Bounded(item)
    ensures Counts(ValidateAll(item, rest, offset, left), rest, left)
    ensures ValidateAll(item, rest, offset, left).Valid? && ValidateAll(item, rest, offset, left).shape.Items?
    decreases |rest|
  {
    var v := item(rest, offset, left);
    assert Counts(v, rest, left);
    if left != 0 && v.Valid? && v.used > 0 { AllCounts(item, rest[v.used..], offset + v.used, v.left); }
  }

  lemma PairBounded(a: Validator, b: Validator)
    requires Bounded(a) && Bounded(b)
    ensures Bounded(PairValidator(a, b))
    ensures Progresses(a) || Progresses(b) ==> Progresses(PairValidator(a, b))
  {
    forall rest, offset: nat, left: int
      ensures
        var r := PairValidator(a, b)(rest, offset, left);
        Counts(r, rest, left) && (r.Valid? && (Progresses(a) || Progresses(b)) ==> r.used > 0)
    {
      var v := a(rest, offset, left);
      assert Counts(v, rest, left);
      if v.Valid? { assert Counts(b(Drop(rest, v.used), offset + v.used, v.left), Drop(rest, v.used), v.left); }
    }
  }

  lemma CountedBounded(c: Validator, rc: Reader, item: Validator)
    requires Bounded(c) && Progresses(c) && Bounded(item)
    ensures Bounded(CountedValidator(c, rc, item)) && Progresses(CountedValidator(c, rc, item))
  {
    var counted := CountedValidator(c, rc, item);
    forall rest, offset: nat, left: int
      ensures Counts(counted(rest, offset, left), rest, left)
      ensures counted(rest, offset, left).Valid? ==> counted(rest, offset, left).used > 0
    {
      var v := c(rest, offset, left);
      assert Counts(v, rest, left);
      if v.Valid? {
        ItemsCount(item, CountOf(rc(Bare, rest, offset, left)), Drop(rest, v.used), offset + v.used, v.left);
      }
    }
  }

  lemma IntBounded(n: nat)
    ensures Bounded(IntValidator(n)) && (n > 0 ==> Progresses(IntValidator(n)))
  {
  }

  lemma RepeatedBounded(item: Validator)
    requires Bounded(item)
    ensures Bounded(RepeatedValidator(item))
  {
    forall rest, offset: nat, left: int ensures Counts(RepeatedValidator(item)(rest, offset, left), rest, left) {
      AllCounts(item, rest, offset, left);
    }
  }

  /** No format reads past the buffer, and solid ones always advance. */
  lemma {:induction false} AllBounded(f: Format)
    ensures Bounded(ValidatorOf(f))
    ensures Solid(f) ==> Progresses(ValidatorOf(f))
  {
    match f
    case Array(item) =>
      AllBounded(item);
      IntBounded(2);
      CountedBounded(IntValidator(2), IntReader(2), ValidatorOf(item));
    case Repeated(item) =>
      AllBounded(item);
      RepeatedBounded(ValidatorOf(item));
    case Pair(a, b) =>
      AllBounded(a);
      AllBounded(b);
      PairBounded(ValidatorOf(a), ValidatorOf(b));
    case _ =>
  }

  // --- events while a field is validated ---

  /** Whether something happens while a field is validated. */
  type Event = (ByteString, nat, int) -> bool

  predicate PairEvent(a: Validator, in1: Event, in2: Event, rest: ByteString, offset: nat, left: int) {
    var v := a(rest, offset, left);
    in1(rest, offset, left) || (v.Valid? && in2(Drop(rest, v.used), offset + v.used, v.left))
  }

  predicate ItemsEvent(item: Validator, event: Event, count: nat, rest: ByteString, offset: nat, left: int)
    decreases count
  {
    count > 0 &&
    var v := item(rest, offset, left);
    event(rest, offset, left) ||
      (v.Valid? && ItemsEvent(item, event, count - 1, Drop(rest, v.used), offset + v.used, v.left))
  }

  predicate AllEvent(item: Validator, event: Event, rest: ByteString, offset: nat, left: int)
    decreases |rest|
  {
    left != 0 &&
    var v := item(rest, offset, left);
    && v.Valid? && 0 < v.used <= |rest|
    && (event(rest, offset, left) || AllEvent(item, event, rest[v.used..], offset + v.used, v.left))
  }

  predicate CountedEvent(c: Validator, rc: Reader, item: Validator, event: Event, rest: ByteString, offset: nat,
                         left: int) {
    var v := c(rest, offset, left);
    v.Valid? && ItemsEvent(item, event, CountOf(rc(Bare, rest, offset, left)), Drop(rest, v.used), offset + v.used,
      v.left)
  }

  function CellEvent(cell: (ByteString, int) -> bool): Event {
    (rest: ByteString, offset: nat, left: int) => cell(rest, left)
  }

  function NoEvent(): Event { (rest: ByteString, offset: nat, left: int) => false }

  function InCounted(c: Validator, rc: Reader, v: Validator, e: Event): Event {
    (rest: ByteString, offset: nat, left: int) => CountedEvent(c, rc, v, e, rest, offset, left)
  }

  function InArray(v: Validator, e: Event): Event { InCounted(IntValidator(2), IntReader(2), v, e) }

  function InRepeated(v: Validator, e: Event): Event {
    (rest: ByteString, offset: nat, left: int) => AllEvent(v, e, rest, offset, left)
  }

  function InPair(v: Validator, e: Event, e': Event): Event {
    (rest: ByteString, offset: nat, left: int) => PairEvent(v, e, e', rest, offset, left)
  }

  /** The event happens at some variable-length field of the format. */
  function AtCells(f: Format, cell: (ByteString, int) -> bool): Event {
    match f
    case VarByteN => CellEvent(cell)
    case Array(item) => InArray(ValidatorOf(item), AtCells(item, cell))
    case Repeated(item) => InRepeated(ValidatorOf(item), AtCells(item, cell))
    case Pair(a, b) => InPair(ValidatorOf(a), AtCells(a, cell), AtCells(b, cell))
    case _ => NoEvent()
  }

  // --- wrap-around ---

  /** A variable-length field longer than what is left beside its own length bytes. */
  predicate CellOverruns(rest: ByteString, left: int) {
    left >= 4 && |rest| >= 4 && 1 <= CellLength(rest) <= left < 4 + CellLength(rest)
  }

  /** Some variable-length field overruns the message. */
  function OverrunsOf(f: Format): Event { AtCells(f, CellOverruns) }

  /** The bytes left wrap around exactly when the event happens. */
  ghost predicate WrapsWhen(v: Validator, event: Event) {
    forall rest, offset: nat, left: int ::
      left >= 0 && v(rest, offset, left).Valid? ==> (v(rest, offset, left).left < 0 <==> event(rest, offset, left))
  }

  /** Nothing overruns once the count has wrapped around. */
  ghost predicate OnlyBefore(event: Event) {
    forall rest, offset: nat, left: int :: event(rest, offset, left) ==> left >= 0
  }

  lemma {:induction false} ItemsWrap(item: Validator, event: Event, count: nat, rest: ByteString, offset: nat,
                                     left: int)
    requires Bounded(item) && WrapsWhen(item, event) && OnlyBefore(event)
    requires ValidateItems(item, count, rest, offset, left).Valid?
    ensures ValidateItems(item, count, rest, offset, left).left < 0 <==>
      left < 0 || ItemsEvent(item, event, count, rest, offset, left)
    decreases count
  {
    if count > 0 {
      var v := item(rest, offset, left);
      assert Counts(v, rest, left);
      ItemsCount(item, count - 1, Drop(rest, v.used), offset + v.used, v.left);
      ItemsWrap(item, event, count - 1, Drop(rest, v.used), offset + v.used, v.left);
    }
  }

  lemma {:induction false} AllWrap(item: Validator, event: Event, rest: ByteString, offset: nat, left: int)
    requires Bounded(item) && WrapsWhen(item, event) && OnlyBefore(event)
    ensures ValidateAll(item, rest, offset, left).Valid?
    ensures ValidateAll(item, rest, offset, left).left < 0 <==> left < 0 || AllEvent(item, event, rest, offset, left)
    decreases |rest|
  {
    AllCounts(item, rest, offset, left);
    var v := item(rest, offset, left);
    assert Counts(v, rest, left);
    if left != 0 && v.Valid? && v.used > 0 {
      AllCounts(item, rest[v.used..], offset + v.used, v.left);
      AllWrap(item, event, rest[v.used..], offset + v.used, v.left);
    }
  }

  lemma PairWraps(a: Validator, b: Validator, in1: Event, in2: Event, rest: ByteString, offset: nat, left: int)
    requires Bounded(a) && Bounded(b) && WrapsWhen(a, in1) && WrapsWhen(b, in2) && OnlyBefore(in2) && left >= 0
    requires ValidatePair(a, b, rest, offset, left).Valid?
    ensures ValidatePair(a, b, rest, offset, left).left < 0 <==> PairEvent(a, in1, in2, rest, offset, left)
  {
    var v := a(rest, offset, left);
    assert v.left < 0 <==> in1(rest, offset, left);
    var w := b(Drop(rest, v.used), offset + v.used, v.left);
    assert Counts(w, Drop(rest, v.used), v.left);
    if v.left >= 0 { assert w.left < 0 <==> in2(Drop(rest, v.used), offset + v.used, v.left); }
  }

  lemma PairWrapsWhen(a: Validator, b: Validator, in1: Event, in2: Event)
    requires Bounded(a) && Bounded(b) && WrapsWhen(a, in1) && WrapsWhen(b, in2) && OnlyBefore(in1) && OnlyBefore(in2)
    ensures WrapsWhen(PairValidator(a, b), InPair(a, in1, in2)) && OnlyBefore(InPair(a, in1, in2))
  {
    forall rest, offset: nat, left: int | left >= 0 && ValidatePair(a, b, rest, offset, left).Valid?
      ensures ValidatePair(a, b, rest, offset, left).left < 0 <==> PairEvent(a, in1, in2, rest, offset, left)
    {
      PairWraps(a, b, in1, in2, rest, offset, left);
    }
    forall rest, offset: nat, left: int | PairEvent(a, in1, in2, rest, offset, left) ensures left >= 0 {
      var v := a(rest, offset, left);
      assert Counts(v, rest, left);
    }
  }

  lemma {:induction false} ItemsOnlyBefore(item: Validator, event: Event, count: nat, rest: ByteString, offset: nat,
                                           left: int)
    requires Bounded(item) && OnlyBefore(event) && ItemsEvent(item, event, count, rest, offset, left)
    ensures left >= 0
    decreases count
  {
    var v := item(rest, offset, left);
    assert Counts(v, rest, left);
    if !event(rest, offset, left) {
      ItemsOnlyBefore(item, event, count - 1, Drop(rest, v.used), offset + v.used, v.left);
    }
  }

  lemma {:induction false} AllOnlyBefore(item: Validator, event: Event, rest: ByteString, offset: nat, left: int)
    requires Bounded(item) && OnlyBefore(event) && AllEvent(item, event, rest, offset, left)
    ensures left >= 0
    decreases |rest|
  {
    var v := item(rest, offset, left);
    assert Counts(v, rest, left);
    if !event(rest, offset, left) { AllOnlyBefore(item, event, rest[v.used..], offset + v.used, v.left); }
  }

  lemma CountedWrapsWhen(c: Validator, rc: Reader, item: Validator, event: Event)
    requires Bounded(c) && WrapsWhen(c, NoEvent()) && Bounded(item) && WrapsWhen(item, event) && OnlyBefore(event)
    ensures WrapsWhen(CountedValidator(c, rc, item), InCounted(c, rc, item, event)) &&
      OnlyBefore(InCounted(c, rc, item, event))
  {
    var counted, inside := CountedValidator(c, rc, item), InCounted(c, rc, item, event);
    forall rest, offset: nat, left: int | left >= 0 && counted(rest, offset, left).Valid?
      ensures counted(rest, offset, left).left < 0 <==> inside(rest, offset, left)
    {
      var v := c(rest, offset, left);
      assert Counts(v, rest, left) && !NoEvent()(rest, offset, left) && v.left >= 0;
      ItemsWrap(item, event, CountOf(rc(Bare, rest, offset, left)), Drop(rest, v.used), offset + v.used, v.left);
    }
    forall rest, offset: nat, left: int | inside(rest, offset, left) ensures left >= 0 {
      var v := c(rest, offset, left);
      assert Counts(v, rest, left);
      ItemsOnlyBefore(item, event, CountOf(rc(Bare, rest, offset, left)), Drop(rest, v.used), offset + v.used, v.left);
    }
  }

  lemma IntNeverWraps(n: nat)
    ensures WrapsWhen(IntValidator(n), NoEvent())
  {
  }

  lemma RepeatedWrapsWhen(item: Validator, event: Event)
    requires Bounded(item) && WrapsWhen(item, event) && OnlyBefore(event)
    ensures WrapsWhen(RepeatedValidator(item), InRepeated(item, event)) && OnlyBefore(InRepeated(item, event))
  {
    forall rest, offset: nat, left: int | left >= 0 && ValidateRepeated(item, rest, offset, left).Valid?
      ensures ValidateRepeated(item, rest, offset, left).left < 0 <==> AllEvent(item, event, rest, offset, left)
    {
      AllWrap(item, event, rest, offset, left);
    }
    forall rest, offset: nat, left: int | AllEvent(item, event, rest, offset, left) ensures left >= 0 {
      AllOnlyBefore(item, event, rest, offset, left);
    }
  }

  lemma CellWrapsWhen()
    ensures WrapsWhen(CellValidator(), CellEvent(CellOverruns)) && OnlyBefore(CellEvent(CellOverruns))
  {
    forall rest, offset: nat, left: int | left >= 0 && ValidateCell(rest, left).Valid?
      ensures CellValidator()(rest, offset, left).left < 0 <==> CellEvent(CellOverruns)(rest, offset, left)
    {
      assert CellEvent(CellOverruns)(rest, offset, left) == CellOverruns(rest, left);
    }
    forall rest, offset: nat, left: int | CellEvent(CellOverruns)(rest, offset, left) ensures left >= 0 {
      assert CellOverruns(rest, left);
    }
  }

  /** The bytes left wrap around exactly when some variable-length field overruns the message. */
  lemma {:induction false} WrapsIffOverrun(f: Format)
    ensures WrapsWhen(ValidatorOf(f), OverrunsOf(f)) && OnlyBefore(OverrunsOf(f))
  {
    match f
    case VarByteN => CellWrapsWhen();
    case Array(item) =>
      AllBounded(item);
      WrapsIffOverrun(item);
      IntBounded(2);
      IntNeverWraps(2);
      CountedWrapsWhen(IntValidator(2), IntReader(2), ValidatorOf(item), OverrunsOf(item));
    case Repeated(item) =>
      AllBounded(item);
      WrapsIffOverrun(item);
      RepeatedWrapsWhen(ValidatorOf(item), OverrunsOf(item));
    case Pair(a, b) =>
      AllBounded(a);
      AllBounded(b);
      WrapsIffOverrun(a);
      WrapsIffOverrun(b);
      PairWrapsWhen(ValidatorOf(a), ValidatorOf(b), OverrunsOf(a), OverrunsOf(b));
    case _ =>
  }

  /** No wrap-around. */
  predicate Fits(v: Verdict) { v.Valid? ==> v.left >= 0 }

  // --- verdicts are final ---

  /** No variable-length field. */
  predicate Rigid(f: Format) {
    match f
    case VarByteN => false
    case Array(item) => Rigid(item)
    case Repeated(item) => Rigid(item)
    case Pair(a, b) => Rigid(a) && Rigid(b)
    case _ => true
  }

  /** No variable-length field inside a repeated one. */
  predicate Stable(f: Format) {
    match f
    case Array(item) => Stable(item)
    case Repeated(item) => Rigid(item)
    case Pair(a, b) => Stable(a) && Stable(b)
    case _ => true
  }

  /** With all bytes of the message at hand, no more are needed and nothing wraps around. */
  ghost predicate Decides(v: Validator) {
    forall rest, offset: nat, left: int :: 0 <= left <= |rest| ==>
      !v(rest, offset, left).NeedMoreData? && Fits(v(rest, offset, left))
  }

  /** A verdict other than "more data" stays the same, whatever bytes arrive after it. */
  ghost predicate Final(v: Validator) {
    forall rest, longer, offset: nat, left: int :: rest <= longer && !v(rest, offset, left).NeedMoreData? ==>
      v(longer, offset, left) == v(rest, offset, left)
  }

  lemma {:induction false} ItemsDecide(item: Validator, count: nat, rest: ByteString, offset: nat, left: int)
    requires Bounded(item) && Decides(item) && 0 <= left <= |rest|
    ensures !ValidateItems(item, count, rest, offset, left).NeedMoreData?
    ensures Fits(ValidateItems(item, count, rest, offset, left))
    decreases count
  {
    var v := item(rest, offset, left);
    assert Counts(v, rest, left);
    assert Fits(v);
    if count > 0 && v.Valid? {
      ItemsDecide(item, count - 1, Drop(rest, v.used), offset + v.used, v.left);
      ItemsCount(item, count - 1, Drop(rest, v.used), offset + v.used, v.left);
    }
  }

  lemma {:induction false} AllDecides(item: Validator, rest: ByteString, offset: nat, left: int)
    requires Bounded(item) && Decides(item) && 0 <= left <= |rest|
    ensures Fits(ValidateAll(item, rest, offset, left))
    decreases |rest|
  {
    var v := item(rest, offset, left);
    assert Counts(v, rest, left);
    assert Fits(v);
    if left != 0 && v.Valid? && v.used > 0 {
      AllDecides(item, rest[v.used..], offset + v.used, v.left);
      AllCounts(item, rest[v.used..], offset + v.used, v.left);
    }
  }

  lemma CountedDecides(c: Validator, rc: Reader, item: Validator)
    requires Bounded(c) && Decides(c) && Bounded(item) && Decides(item)
    ensures Decides(CountedValidator(c, rc, item))
  {
    var counted := CountedValidator(c, rc, item);
    forall rest, offset: nat, left: int | 0 <= left <= |rest|
      ensures !counted(rest, offset, left).NeedMoreData? && Fits(counted(rest, offset, left))
    {
      var v := c(rest, offset, left);
      assert Counts(v, rest, left) && Fits(v);
      if v.Valid? {
        ItemsDecide(item, CountOf(rc(Bare, rest, offset, left)), Drop(rest, v.used), offset + v.used, v.left);
        ItemsCount(item, CountOf(rc(Bare, rest, offset, left)), Drop(rest, v.used), offset + v.used, v.left);
      }
    }
  }

  lemma IntDecides(n: nat)
    ensures Decides(IntValidator(n))
  {
  }

  lemma RepeatedDecides(item: Validator)
    requires Bounded(item) && Decides(item)
    ensures Decides(RepeatedValidator(item))
  {
    forall rest, offset: nat, left: int | 0 <= left <= |rest|
      ensures !RepeatedValidator(item)(rest, offset, left).NeedMoreData? &&
        Fits(RepeatedValidator(item)(rest, offset, left))
    {
      AllDecides(item, rest, offset, left);
      AllCounts(item, rest, offset, left);
    }
  }

  lemma PairDecides(a: Validator, b: Validator)
    requires Bounded(a) && Decides(a) && Decides(b)
    ensures Decides(PairValidator(a, b))
  {
    forall rest, offset: nat, left: int | 0 <= left <= |rest|
      ensures !PairValidator(a, b)(rest, offset, left).NeedMoreData? && Fits(PairValidator(a, b)(rest, offset, left))
    {
      var v := a(rest, offset, left);
      assert Counts(v, rest, left) && Fits(v);
      if v.Valid? { assert Fits(b(Drop(rest, v.used), offset + v.used, v.left)); }
    }
  }

  lemma {:induction false} RigidDecides(f: Format)
    requires Rigid(f)
    ensures Decides(ValidatorOf(f))
  {
    match f
    case Array(item) =>
      AllBounded(item);
      RigidDecides(item);
      IntBounded(2);
      IntDecides(2);
      CountedDecides(IntValidator(2), IntReader(2), ValidatorOf(item));
    case Repeated(item) =>
      AllBounded(item);
      RigidDecides(item);
      RepeatedDecides(ValidatorOf(item));
    case Pair(a, b) =>
      AllBounded(a);
      RigidDecides(a);
      RigidDecides(b);
      PairDecides(ValidatorOf(a), ValidatorOf(b));
    case _ =>
  }

  lemma {:induction false} FindZeroGrows(b: ByteString, longer: ByteString)
    requires b <= longer
    ensures FindZero(b).Some? ==> FindZero(longer) == FindZero(b)
    ensures FindZero(b).None? && FindZero(longer).Some? ==> FindZero(longer).value >= |b|
  {
    if b != [] { FindZeroGrows(b[1..], longer[1..]); }
  }

  lemma CellGrows(rest: ByteString, longer: ByteString, left: int)
    requires rest <= longer && !ValidateCell(rest, left).NeedMoreData?
    ensures ValidateCell(longer, left) == ValidateCell(rest, left)
  {
    if |rest| >= 4 {
      assert longer[0] == rest[0] && longer[1] == rest[1] && longer[2] == rest[2] && longer[3] == rest[3];
    }
  }

  lemma {:induction false} ItemsAreFinal(item: Validator, count: nat, rest: ByteString, longer: ByteString, offset: nat,
                                         left: int)
    requires Bounded(item) && Final(item) && rest <= longer
    requires !ValidateItems(item, count, rest, offset, left).NeedMoreData?
    ensures ValidateItems(item, count, longer, offset, left) == ValidateItems(item, count, rest, offset, left)
    decreases count
  {
    var v := item(rest, offset, left);
    assert Counts(v, rest, left);
    if count > 0 {
      assert item(longer, offset, left) == v;
      if v.Valid? {
        DropKeepsPrefix(rest, longer, v.used);
        ItemsAreFinal(item, count - 1, Drop(rest, v.used), Drop(longer, v.used), offset + v.used, v.left);
      }
    }
  }

  lemma {:induction false} AllIsFinal(item: Validator, rest: ByteString, longer: ByteString, offset: nat, left: int)
    requires Bounded(item) && Final(item) && Decides(item) && 0 <= left <= |rest| && rest <= longer
    ensures ValidateAll(item, longer, offset, left) == ValidateAll(item, rest, offset, left)
    decreases |rest|
  {
    var v := item(rest, offset, left);
    assert Counts(v, rest, left);
    assert item(longer, offset, left) == v;
    if left != 0 && v.Valid? && v.used > 0 {
      AllIsFinal(item, rest[v.used..], longer[v.used..], offset + v.used, v.left);
    }
  }

  lemma PairIsFinal(a: Validator, b: Validator)
    requires Bounded(a) && Final(a) && Final(b)
    ensures Final(PairValidator(a, b))
  {
    forall rest, longer, offset: nat, left: int | rest <= longer &&
      !PairValidator(a, b)(rest, offset, left).NeedMoreData?
      ensures PairValidator(a, b)(longer, offset, left) == PairValidator(a, b)(rest, offset, left)
    {
      var v := a(rest, offset, left);
      assert Counts(v, rest, left);
      assert a(longer, offset, left) == v;
      if v.Valid? {
        DropKeepsPrefix(rest, longer, v.used);
        assert b(Drop(longer, v.used), offset + v.used, v.left) == b(Drop(rest, v.used), offset + v.used, v.left);
      }
    }
  }

  /** A valid count field reads the same count from every body that holds its bytes, and records nothing. */
  ghost predicate Countable(c: Validator, rc: Reader) {
    forall body, rest, offset: nat, left: int {:trigger rc(Bare, body, offset, left), c(rest, offset, left)} ::
      body <= rest && c(rest, offset, left).Valid? && c(rest, offset, left).used <= |body| ==>
        c(rest, offset, left).shape == Bare &&
          CountOf(rc(Bare, body, offset, left)) == CountOf(rc(Bare, rest, offset, left))
  }

  lemma IntCountable(n: nat)
    ensures Countable(IntValidator(n), IntReader(n))
  {
    var c, rc := IntValidator(n), IntReader(n);
    forall body, rest, offset: nat, left: int | body <= rest && c(rest, offset, left).Valid? &&
      c(rest, offset, left).used <= |body|
      ensures c(rest, offset, left).shape == Bare &&
        CountOf(rc(Bare, body, offset, left)) == CountOf(rc(Bare, rest, offset, left))
    {
      assert body[..n] == rest[..n];
    }
  }

  lemma CountedIsFinal(c: Validator, rc: Reader, item: Validator)
    requires Bounded(c) && Final(c) && Countable(c, rc) && Bounded(item) && Final(item)
    ensures Final(CountedValidator(c, rc, item))
  {
    var counted := CountedValidator(c, rc, item);
    forall rest, longer, offset: nat, left: int | rest <= longer && !counted(rest, offset, left).NeedMoreData?
      ensures counted(longer, offset, left) == counted(rest, offset, left)
    {
      var v := c(rest, offset, left);
      assert Counts(v, rest, left);
      assert c(longer, offset, left) == v;
      if v.Valid? {
        assert CountOf(rc(Bare, rest, offset, left)) == CountOf(rc(Bare, longer, offset, left));
        DropKeepsPrefix(rest, longer, v.used);
        ItemsAreFinal(item, CountOf(rc(Bare, rest, offset, left)), Drop(rest, v.used), Drop(longer, v.used),
          offset + v.used, v.left);
      }
    }
  }

  lemma RepeatedIsFinal(item: Validator)
    requires Bounded(item) && Final(item) && Decides(item)
    ensures Final(RepeatedValidator(item))
  {
    forall rest, longer, offset: nat, left: int | rest <= longer &&
      !RepeatedValidator(item)(rest, offset, left).NeedMoreData?
      ensures RepeatedValidator(item)(longer, offset, left) == RepeatedValidator(item)(rest, offset, left)
    {
      AllIsFinal(item, rest, longer, offset, left);
    }
  }

  lemma IntIsFinal(n: nat)
    ensures Final(IntValidator(n))
  {
  }

  lemma StringIsFinal()
    ensures Final(StringValidator())
  {
    forall rest, longer, offset: nat, left: int | rest <= longer && !ValidateString(rest, offset, left).NeedMoreData?
      ensures StringValidator()(longer, offset, left) == StringValidator()(rest, offset, left)
    {
      FindZeroGrows(rest, longer);
    }
  }

  lemma CellIsFinal()
    ensures Final(CellValidator())
  {
    forall rest, longer, offset: nat, left: int | rest <= longer && !ValidateCell(rest, left).NeedMoreData?
      ensures CellValidator()(longer, offset, left) == CellValidator()(rest, offset, left)
    {
      CellGrows(rest, longer, left);
    }
  }

  /** Verdicts are final on all inputs for every format without a variable-length field inside a repeated one. */
  lemma {:induction false} StableIsFinal(f: Format)
    requires Stable(f)
    ensures Final(ValidatorOf(f))
  {
    match f
    case Array(item) =>
      AllBounded(item);
      StableIsFinal(item);
      IntBounded(2);
      IntIsFinal(2);
      IntCountable(2);
      CountedIsFinal(IntValidator(2), IntReader(2), ValidatorOf(item));
      assert Final(ValidatorOf(f));
    case Repeated(item) =>
      AllBounded(item);
      RigidIsStable(item);
      StableIsFinal(item);
      RigidDecides(item);
      RepeatedIsFinal(ValidatorOf(item));
      assert Final(ValidatorOf(f));
    case Pair(a, b) =>
      AllBounded(a);
      StableIsFinal(a);
      StableIsFinal(b);
      PairIsFinal(ValidatorOf(a), ValidatorOf(b));
      assert Final(ValidatorOf(f));
    case Int(n) => IntIsFinal(n);
    case CString => StringIsFinal();
    case VarByteN => CellIsFinal();
    case _ =>
  }

  lemma {:induction false} RigidIsStable(f: Format)
    requires Rigid(f)
    ensures Stable(f)
  {
    match f
    case Array(item) => RigidIsStable(item);
    case Pair(a, b) =>
      RigidIsStable(a);
      RigidIsStable(b);
    case _ =>
  }
}
