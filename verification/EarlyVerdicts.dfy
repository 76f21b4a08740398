/** How much of a message has to arrive before validation accepts it. */
module EarlyVerdicts {
  import opened Outcomes
  import opened Bytes
  import opened Codec
  import opened CodecLaws
  import opened Lists

  /** The field is accepted only once all bytes of the message are at hand. */
  predicate AwaitsAll(f: Format) {
    match f
    case ByteN => true
    case Repeated(_) => true
    case Pair(a, b) => AwaitsAll(a) || AwaitsAll(b)
    case _ => false
  }

  /** The field is accepted as soon as its own bytes are at hand. */
  predicate Prompt(f: Format) {
    match f
    case ByteN => false
    case Repeated(_) => false
    case Array(item) => Prompt(item)
    case Pair(a, b) => Prompt(a) && Prompt(b)
    case _ => true
  }

  /** Valid only with all bytes left of the message in the buffer. */
  ghost predicate Awaits(v: Validator) {
    forall rest, offset: nat, left: int {:trigger v(rest, offset, left)} :: v(rest, offset, left).Valid? ==>
      0 <= left <= |rest|
  }

  /** A valid verdict is reached by any beginning of the buffer that holds the bytes used. */
  ghost predicate Early(v: Validator) {
    forall rest, shorter, offset: nat, left: int {:trigger v(rest, offset, left), v(shorter, offset, left)} ::
      shorter <= rest && v(rest, offset, left).Valid? && v(rest, offset, left).used <= |shorter| ==>
        v(shorter, offset, left) == v(rest, offset, left)
  }

  lemma {:induction false} AwaitsAllBytes(f: Format)
    requires WellFormed(f) && AwaitsAll(f)
    ensures Awaits(ValidatorOf(f))
  {
    if f.Pair? {
      AllBounded(f.first);
      if AwaitsAll(f.first) { AwaitsAllBytes(f.first); } else { AwaitsAllBytes(f.second); }
      PairAwaits(ValidatorOf(f.first), ValidatorOf(f.second));
    }
  }

  lemma PairAwaits(a: Validator, b: Validator)
    requires Bounded(a) && (Awaits(a) || Awaits(b))
    ensures Awaits(PairValidator(a, b))
  {
    var p := PairValidator(a, b);
    forall rest, offset: nat, left: int | p(rest, offset, left).Valid? ensures 0 <= left <= |rest| {
      var v := a(rest, offset, left);
      assert Counts(v, rest, left);
      var w := b(Drop(rest, v.used), offset + v.used, v.left);
      assert w.Valid?;
    }
  }

  lemma {:induction false} VerdictIsEarly(f: Format)
    requires Prompt(f)
    ensures Early(ValidatorOf(f))
  {
    match f
    case Array(item) =>
      AllBounded(item);
      VerdictIsEarly(item);
      IntBounded(2);
      IntCountable(2);
      IntIsEarly(2);
      CountedIsEarly(IntValidator(2), IntReader(2), ValidatorOf(item));
      assert Early(ValidatorOf(f));
    case Pair(a, b) =>
      AllBounded(a);
      AllBounded(b);
      VerdictIsEarly(a);
      VerdictIsEarly(b);
      PairIsEarly(ValidatorOf(a), ValidatorOf(b));
      assert Early(ValidatorOf(f));
    case Int(n) => IntIsEarly(n);
    case CString => StringIsEarly();
    case VarByteN => CellIsEarly();
    case _ =>
  }

  lemma IntIsEarly(n: nat)
    ensures Early(IntValidator(n))
  {
  }

  lemma StringIsEarly()
    ensures Early(StringValidator())
  {
    forall rest, shorter, offset: nat, left: int
      | shorter <= rest && ValidateString(rest, offset, left).Valid? &&
        ValidateString(rest, offset, left).used <= |shorter|
      ensures StringValidator()(shorter, offset, left) == StringValidator()(rest, offset, left)
    {
      FindZeroGrows(shorter, rest);
    }
  }

  lemma CellIsEarly()
    ensures Early(CellValidator())
  {
    forall rest, shorter, offset: nat, left: int | shorter <= rest && ValidateCell(rest, left).Valid? &&
      ValidateCell(rest, left).used <= |shorter|
      ensures CellValidator()(shorter, offset, left) == CellValidator()(rest, offset, left)
    {
      assert shorter[0] == rest[0] && shorter[1] == rest[1] && shorter[2] == rest[2] && shorter[3] == rest[3];
    }
  }

  lemma DropOfPrefix(shorter: ByteString, rest: ByteString, n: nat)
    requires shorter <= rest && n <= |shorter|
    ensures Drop(shorter, n) <= Drop(rest, n) && |Drop(shorter, n)| == |shorter| - n
  {
  }

  /** A list is valid after a first item exactly when the rest of it is. */
  lemma AfterValid(v: Verdict, more: Verdict)
    requires v.Valid?
    ensures AfterShape(v.used, v.shape, more).Valid? ==>
      more.Valid? && AfterShape(v.used, v.shape, more).used >= more.used
    ensures more.Valid? && more.shape.Items? ==> AfterShape(v.used, v.shape, more).used == v.used + more.used
  {
  }

  lemma {:induction false} ItemsAreEarly(item: Validator, count: nat, rest: ByteString, shorter: ByteString,
                                         offset: nat, left: int)
    requires Bounded(item) && Early(item) && shorter <= rest
    requires ValidateItems(item, count, rest, offset, left).Valid? &&
      ValidateItems(item, count, rest, offset, left).used <= |shorter|
    ensures ValidateItems(item, count, shorter, offset, left) == ValidateItems(item, count, rest, offset, left)
    decreases count
  {
    hide AfterShape;
    var v := item(rest, offset, left);
    assert Counts(v, rest, left);
    if count > 0 {
      AfterValid(v, ValidateItems(item, count - 1, Drop(rest, v.used), offset + v.used, v.left));
      ItemsCount(item, count - 1, Drop(rest, v.used), offset + v.used, v.left);
      assert item(shorter, offset, left) == v;
      DropOfPrefix(shorter, rest, v.used);
      ItemsAreEarly(item, count - 1, Drop(rest, v.used), Drop(shorter, v.used), offset + v.used, v.left);
    }
  }

  lemma CountedIsEarly(c: Validator, rc: Reader, item: Validator)
    requires Bounded(c) && Early(c) && Countable(c, rc) && Bounded(item) && Early(item)
    ensures Early(CountedValidator(c, rc, item))
  {
    hide Bounded, Early, Countable, ValidateCounted;
    var counted := CountedValidator(c, rc, item);
    forall rest, shorter, offset: nat, left: int
      | shorter <= rest && counted(rest, offset, left).Valid? && counted(rest, offset, left).used <= |shorter|
      ensures counted(shorter, offset, left) == counted(rest, offset, left)
    {
      CountedIsEarlyAt(c, rc, item, rest, shorter, offset, left);
    }
    assert Early(counted) by { EarlyDefined(counted); }
  }

  lemma EarlyDefined(v: Validator)
    requires forall rest, shorter, offset: nat, left: int {:trigger v(rest, offset, left), v(shorter, offset, left)} ::
      shorter <= rest && v(rest, offset, left).Valid? && v(rest, offset, left).used <= |shorter| ==>
        v(shorter, offset, left) == v(rest, offset, left)
    ensures Early(v)
  {
  }

  lemma CountedIsEarlyAt(c: Validator, rc: Reader, item: Validator, rest: ByteString, shorter: ByteString, offset: nat,
                         left: int)
    requires Bounded(c) && Early(c) && Countable(c, rc) && Bounded(item) && Early(item) && shorter <= rest
    requires
      var d := ValidateCounted(c, rc, item, rest, offset, left);
      d.Valid? && d.used <= |shorter|
    ensures ValidateCounted(c, rc, item, shorter, offset, left) == ValidateCounted(c, rc, item, rest, offset, left)
  {
    hide ValidateItems;
    var v := c(rest, offset, left);
    assert Counts(v, rest, left);
    var count := CountOf(rc(Bare, rest, offset, left));
    ItemsCount(item, count, Drop(rest, v.used), offset + v.used, v.left);
    assert c(shorter, offset, left) == v;
    assert CountOf(rc(Bare, shorter, offset, left)) == count;
    DropOfPrefix(shorter, rest, v.used);
    ItemsAreEarly(item, count, Drop(rest, v.used), Drop(shorter, v.used), offset + v.used, v.left);
  }

  lemma PairIsEarly(a: Validator, b: Validator)
    requires Bounded(a) && Bounded(b) && Early(a) && Early(b)
    ensures Early(PairValidator(a, b))
  {
    var p := PairValidator(a, b);
    forall rest, shorter, offset: nat, left: int
      | shorter <= rest && p(rest, offset, left).Valid? && p(rest, offset, left).used <= |shorter|
      ensures p(shorter, offset, left) == p(rest, offset, left)
    {
      var v := a(rest, offset, left);
      assert Counts(v, rest, left);
      assert a(shorter, offset, left) == v;
      DropOfPrefix(shorter, rest, v.used);
      var w := b(Drop(rest, v.used), offset + v.used, v.left);
      assert b(Drop(shorter, v.used), offset + v.used, v.left) == w;
    }
  }
}
