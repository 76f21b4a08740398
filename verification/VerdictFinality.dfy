/** When a verdict is final, for every format. */
module VerdictFinality {
  import opened Outcomes
  import opened Bytes
  import opened Codec
  import opened CodecLaws
  import opened Lists

  // --- before the message is complete ---

  /** With more bytes left of the message than there are in the buffer, a verdict other than "more data" is final. */
  ghost predicate FinalShort(v: Validator) {
    forall rest, longer, offset: nat, left: int {:trigger v(rest, offset, left), v(longer, offset, left)} ::
      rest <= longer && left > |rest| && !v(rest, offset, left).NeedMoreData? ==>
        v(longer, offset, left) == v(rest, offset, left)
  }

  lemma {:induction false} ItemsShort(item: Validator, count: nat, rest: ByteString, longer: ByteString, offset: nat,
                                      left: int)
    requires Bounded(item) && FinalShort(item) && rest <= longer && left > |rest|
    requires !ValidateItems(item, count, rest, offset, left).NeedMoreData?
    ensures ValidateItems(item, count, longer, offset, left) == ValidateItems(item, count, rest, offset, left)
    decreases count
  {
    var v := item(rest, offset, left);
    assert Counts(v, rest, left);
    if count > 0 {
      assert item(longer, offset, left) == v;
      if v.Valid? {
        DropKeepsPrefix(rest, longer, v.used);
        ItemsShort(item, count - 1, Drop(rest, v.used), Drop(longer, v.used), offset + v.used, v.left);
      }
    }
  }

  lemma CountedShort(c: Validator, rc: Reader, item: Validator)
    requires Bounded(c) && FinalShort(c) && Countable(c, rc) && Bounded(item) && FinalShort(item)
    ensures FinalShort(CountedValidator(c, rc, item))
  {
    var counted := CountedValidator(c, rc, item);
    forall rest, longer, offset: nat, left: int | rest <= longer && left > |rest| &&
      !counted(rest, offset, left).NeedMoreData?
      ensures counted(longer, offset, left) == counted(rest, offset, left)
    {
      var v := c(rest, offset, left);
      assert Counts(v, rest, left);
      assert c(longer, offset, left) == v;
      if v.Valid? {
        assert CountOf(rc(Bare, rest, offset, left)) == CountOf(rc(Bare, longer, offset, left));
        DropKeepsPrefix(rest, longer, v.used);
        var count := CountOf(rc(Bare, rest, offset, left));
        ItemsShort(item, count, Drop(rest, v.used), Drop(longer, v.used), offset + v.used, v.left);
      }
    }
  }

  lemma PairShort(a: Validator, b: Validator)
    requires Bounded(a) && FinalShort(a) && FinalShort(b)
    ensures FinalShort(PairValidator(a, b))
  {
    var p := PairValidator(a, b);
    forall rest, longer, offset: nat, left: int | rest <= longer && left > |rest| &&
      !p(rest, offset, left).NeedMoreData?
      ensures p(longer, offset, left) == p(rest, offset, left)
    {
      var v := a(rest, offset, left);
      assert Counts(v, rest, left);
      assert a(longer, offset, left) == v;
      if v.Valid? {
        DropKeepsPrefix(rest, longer, v.used);
        assert b(Drop(longer, v.used), offset + v.used, v.left) == b(Drop(rest, v.used), offset + v.used, v.left);
      }
    }
  }

  lemma {:induction false} ShortIsFinal(f: Format)
    ensures FinalShort(ValidatorOf(f))
  {
    match f
    case Array(item) =>
      AllBounded(item);
      ShortIsFinal(item);
      IntBounded(2);
      IntIsFinal(2);
      IntCountable(2);
      CountedShort(IntValidator(2), IntReader(2), ValidatorOf(item));
      assert FinalShort(ValidatorOf(f));
    case Pair(a, b) =>
      AllBounded(a);
      ShortIsFinal(a);
      ShortIsFinal(b);
      PairShort(ValidatorOf(a), ValidatorOf(b));
      assert FinalShort(ValidatorOf(f));
    case Int(n) => IntIsFinal(n);
    case CString => StringIsFinal();
    case VarByteN => CellIsFinal();
    case _ =>
  }

  /** Every proper prefix of an exactly filled frame needs more data. */
  lemma PrefixNeedsMore(f: Format, frame: ByteString, k: nat)
    requires k < |frame|
    requires Validate(f, frame, 0, |frame|).Valid? && Validate(f, frame, 0, |frame|).left == 0
    ensures Validate(f, frame[..k], 0, |frame|).NeedMoreData?
  {
    hide ValidatorOf;
    ShortIsFinal(f);
    AllBounded(f);
    var v := ValidatorOf(f);
    assert frame[..k] <= frame;
    assert Counts(v(frame, 0, |frame|), frame, |frame|);
    assert Counts(v(frame[..k], 0, |frame|), frame[..k], |frame|);
  }

  // --- with any number of bytes ---

  /** The event happens in an item that is tried, even if the item is given up and its bytes are not used. */
  predicate TriedEvent(item: Validator, event: Event, rest: ByteString, offset: nat, left: int)
    decreases |rest|
  {
    left != 0 &&
    var v := item(rest, offset, left);
    event(rest, offset, left) ||
      (v.Valid? && 0 < v.used <= |rest| && TriedEvent(item, event, rest[v.used..], offset + v.used, v.left))
  }

  function InTried(v: Validator, e: Event): Event {
    (rest: ByteString, offset: nat, left: int) => TriedEvent(v, e, rest, offset, left)
  }

  /** Validation meets a variable-length field that overruns the message. */
  function MeetsOverrun(f: Format): Event {
    match f
    case VarByteN => CellEvent(CellOverruns)
    case Array(item) => InArray(ValidatorOf(item), MeetsOverrun(item))
    case Repeated(item) => InTried(ValidatorOf(item), MeetsOverrun(item))
    case Pair(a, b) => InPair(ValidatorOf(a), MeetsOverrun(a), MeetsOverrun(b))
    case _ => NoEvent()
  }

  /**
   * Without the event on the longer buffer: nothing wraps around there; a verdict on the shorter one is final;
   * and what still needs data there although the message is complete is not accepted later either.
   */
  predicate SettledAt(v: Validator, rest: ByteString, longer: ByteString, offset: nat, left: int) {
    var short, long := v(rest, offset, left), v(longer, offset, left);
    && Fits(long)
    && (!short.NeedMoreData? ==> long == short)
    && (short.NeedMoreData? && left <= |rest| ==> !long.Valid?)
  }

  ghost predicate Settles(v: Validator, e: Event) {
    forall rest, longer, offset: nat, left: int {:trigger v(rest, offset, left), v(longer, offset, left)} ::
      rest <= longer && left >= 0 && !e(longer, offset, left) ==> SettledAt(v, rest, longer, offset, left)
  }

  lemma {:induction false} ItemsSettle(item: Validator, e: Event, count: nat, rest: ByteString, longer: ByteString,
                                       offset: nat, left: int)
    requires Bounded(item) && Settles(item, e) && rest <= longer && left >= 0 &&
      !ItemsEvent(item, e, count, longer, offset, left)
    ensures
      var short, long := ValidateItems(item, count, rest, offset, left),
        ValidateItems(item, count, longer, offset, left);
      && Fits(long)
      && (!short.NeedMoreData? ==> long == short)
      && (short.NeedMoreData? && left <= |rest| ==> !long.Valid?)
    decreases count
  {
    var v, w := item(rest, offset, left), item(longer, offset, left);
    assert Counts(v, rest, left) && Counts(w, longer, left);
    if count > 0 {
      assert SettledAt(item, rest, longer, offset, left);
      if w.Valid? {
        if v.Valid? {
          DropKeepsPrefix(rest, longer, v.used);
          ItemsSettle(item, e, count - 1, Drop(rest, v.used), Drop(longer, v.used), offset + v.used, v.left);
        } else {
          ItemsSettle(item, e, count - 1, Drop(longer, w.used), Drop(longer, w.used), offset + w.used, w.left);
        }
      }
    }
  }

  lemma CountedSettles(c: Validator, rc: Reader, item: Validator, e: Event)
    requires Bounded(c) && Settles(c, NoEvent()) && Countable(c, rc) && Bounded(item) && Settles(item, e)
    ensures Settles(CountedValidator(c, rc, item), InCounted(c, rc, item, e))
  {
    var counted, inside := CountedValidator(c, rc, item), InCounted(c, rc, item, e);
    forall rest, longer, offset: nat, left: int | rest <= longer && left >= 0 && !inside(longer, offset, left)
      ensures SettledAt(counted, rest, longer, offset, left)
    {
      assert !NoEvent()(longer, offset, left);
      var v, w := c(rest, offset, left), c(longer, offset, left);
      assert Counts(v, rest, left) && Counts(w, longer, left);
      assert SettledAt(c, rest, longer, offset, left);
      if w.Valid? {
        var count := CountOf(rc(Bare, longer, offset, left));
        if v.Valid? {
          assert CountOf(rc(Bare, rest, offset, left)) == count;
          DropKeepsPrefix(rest, longer, v.used);
          ItemsSettle(item, e, count, Drop(rest, v.used), Drop(longer, v.used), offset + v.used, v.left);
        } else {
          ItemsSettle(item, e, count, Drop(longer, w.used), Drop(longer, w.used), offset + w.used, w.left);
        }
      }
    }
  }

  lemma PairSettles(a: Validator, b: Validator, e: Event, e': Event)
    requires Bounded(a) && Settles(a, e) && Settles(b, e')
    ensures Settles(PairValidator(a, b), InPair(a, e, e'))
  {
    var p, inside := PairValidator(a, b), InPair(a, e, e');
    forall rest, longer, offset: nat, left: int | rest <= longer && left >= 0 && !inside(longer, offset, left)
      ensures SettledAt(p, rest, longer, offset, left)
    {
      var v, w := a(rest, offset, left), a(longer, offset, left);
      assert Counts(v, rest, left) && Counts(w, longer, left);
      assert SettledAt(a, rest, longer, offset, left);
      if w.Valid? {
        if v.Valid? {
          DropKeepsPrefix(rest, longer, v.used);
          assert SettledAt(b, Drop(rest, v.used), Drop(longer, v.used), offset + v.used, v.left);
        } else {
          assert SettledAt(b, Drop(longer, w.used), Drop(longer, w.used), offset + w.used, w.left);
        }
      }
    }
  }

  /** Items of a message that is complete: the same items, whatever follows the message. */
  lemma {:induction false} AllSettle(item: Validator, e: Event, rest: ByteString, longer: ByteString, offset: nat,
                                     left: int)
    requires Bounded(item) && Settles(item, e) && rest <= longer && 0 <= left <= |rest| &&
      !TriedEvent(item, e, longer, offset, left)
    ensures ValidateAll(item, longer, offset, left) == ValidateAll(item, rest, offset, left)
    ensures ValidateAll(item, longer, offset, left).Valid? && ValidateAll(item, longer, offset, left).left >= 0
    decreases |rest|
  {
    hide AfterShape;
    if left != 0 {
      var v, w := item(rest, offset, left), item(longer, offset, left);
      assert Counts(v, rest, left) && Counts(w, longer, left);
      assert SettledAt(item, rest, longer, offset, left);
      if v.Valid? && v.used > 0 {
        AllCounts(item, rest[v.used..], offset + v.used, v.left);
        ListedAfter(v.used, v.shape, ValidateAll(item, rest[v.used..], offset + v.used, v.left));
        AllSettle(item, e, rest[v.used..], longer[v.used..], offset + v.used, v.left);
      }
    }
  }

  lemma RepeatedSettles(item: Validator, e: Event)
    requires Bounded(item) && Settles(item, e)
    ensures Settles(RepeatedValidator(item), InTried(item, e))
  {
    var repeated, inside := RepeatedValidator(item), InTried(item, e);
    forall rest, longer, offset: nat, left: int | rest <= longer && left >= 0 && !inside(longer, offset, left)
      ensures SettledAt(repeated, rest, longer, offset, left)
    {
      if left <= |rest| { AllSettle(item, e, rest, longer, offset, left); }
      if left <= |longer| { AllSettle(item, e, longer, longer, offset, left); }
    }
  }

  lemma IntSettles(n: nat)
    ensures Settles(IntValidator(n), NoEvent())
  {
    forall rest, longer, offset: nat, left: int | rest <= longer && left >= 0
      ensures SettledAt(IntValidator(n), rest, longer, offset, left)
    {
      assert FewerThan(left, n) || left >= n;
    }
  }

  lemma BytesSettle()
    ensures Settles(BytesValidator(), NoEvent()) && Settles(EmptyValidator(), NoEvent())
  {
    forall rest, longer, offset: nat, left: int | rest <= longer && left >= 0
      ensures SettledAt(BytesValidator(), rest, longer, offset, left) &&
        SettledAt(EmptyValidator(), rest, longer, offset, left)
    {
      assert MoreThan(left, |longer|) || left <= |longer|;
    }
  }

  lemma StringSettles()
    ensures Settles(StringValidator(), NoEvent())
  {
    forall rest, longer, offset: nat, left: int | rest <= longer && left >= 0
      ensures SettledAt(StringValidator(), rest, longer, offset, left)
    {
      FindZeroGrows(rest, longer);
    }
  }

  lemma CellSettles()
    ensures Settles(CellValidator(), CellEvent(CellOverruns))
  {
    forall rest, longer, offset: nat, left: int | rest <= longer && left >= 0 &&
      !CellEvent(CellOverruns)(longer, offset, left)
      ensures SettledAt(CellValidator(), rest, longer, offset, left)
    {
      assert !CellOverruns(longer, left);
      if !ValidateCell(rest, left).NeedMoreData? { CellGrows(rest, longer, left); }
      if |rest| >= 4 {
        assert longer[0] == rest[0] && longer[1] == rest[1] && longer[2] == rest[2] && longer[3] == rest[3];
      }
    }
  }

  /**
   * For every format: a verdict other than "more data" stays the same whatever bytes arrive after it, unless
   * validation then meets a variable-length field that overruns the message.
   */
  lemma {:induction false} VerdictIsFinal(f: Format)
    ensures Settles(ValidatorOf(f), MeetsOverrun(f))
  {
    match f
    case Array(item) =>
      AllBounded(item);
      VerdictIsFinal(item);
      IntBounded(2);
      IntSettles(2);
      IntCountable(2);
      CountedSettles(IntValidator(2), IntReader(2), ValidatorOf(item), MeetsOverrun(item));
    case Repeated(item) =>
      AllBounded(item);
      VerdictIsFinal(item);
      RepeatedSettles(ValidatorOf(item), MeetsOverrun(item));
    case Pair(a, b) =>
      AllBounded(a);
      VerdictIsFinal(a);
      VerdictIsFinal(b);
      PairSettles(ValidatorOf(a), ValidatorOf(b), MeetsOverrun(a), MeetsOverrun(b));
    case Int(n) => IntSettles(n);
    case CString => StringSettles();
    case VarByteN => CellSettles();
    case ByteN => BytesSettle();
    case Empty => BytesSettle();
  }

  // --- exactly when ---

  /** No repeated field at all. */
  predicate Unrepeated(f: Format) {
    match f
    case Array(item) => Unrepeated(item)
    case Repeated(_) => false
    case Pair(a, b) => Unrepeated(a) && Unrepeated(b)
    case _ => true
  }

  /** No repeated field inside a repeated one. */
  predicate Shallow(f: Format) {
    match f
    case Array(item) => Shallow(item)
    case Repeated(item) => Unrepeated(item)
    case Pair(a, b) => Shallow(a) && Shallow(b)
    case _ => true
  }

  lemma {:induction false} UnrepeatedIsStable(f: Format)
    requires Unrepeated(f)
    ensures Stable(f) && Shallow(f)
  {
    match f
    case Array(item) => UnrepeatedIsStable(item);
    case Pair(a, b) =>
      UnrepeatedIsStable(a);
      UnrepeatedIsStable(b);
    case _ =>
  }

  lemma ListedAfter(used: nat, shape: Shape, more: Verdict)
    requires more.Valid? && more.shape.Items?
    ensures AfterShape(used, shape, more).Valid? && AfterShape(used, shape, more).left == more.left
  {
  }

  lemma {:induction false} UsedSettle(item: Validator, e: Event, rest: ByteString, longer: ByteString, offset: nat,
                                      left: int)
    requires Bounded(item) && Final(item) && Settles(item, e) && rest <= longer && 0 <= left <= |rest|
    requires !AllEvent(item, e, longer, offset, left)
    ensures ValidateAll(item, longer, offset, left) == ValidateAll(item, rest, offset, left)
    ensures ValidateAll(item, longer, offset, left).Valid? && ValidateAll(item, longer, offset, left).left >= 0
    decreases |rest|
  {
    hide AfterShape;
    if left != 0 {
      var v, w := item(rest, offset, left), item(longer, offset, left);
      assert Counts(v, rest, left) && Counts(w, longer, left);
      if w.Valid? && w.used > 0 { assert SettledAt(item, rest, longer, offset, left); }
      if v.Valid? && v.used > 0 {
        AllCounts(item, rest[v.used..], offset + v.used, v.left);
        ListedAfter(v.used, v.shape, ValidateAll(item, rest[v.used..], offset + v.used, v.left));
        UsedSettle(item, e, rest[v.used..], longer[v.used..], offset + v.used, v.left);
      }
    }
  }

  lemma RepeatedSettlesUsed(item: Validator, e: Event)
    requires Bounded(item) && Final(item) && Settles(item, e)
    ensures Settles(RepeatedValidator(item), InRepeated(item, e))
  {
    var repeated, inside := RepeatedValidator(item), InRepeated(item, e);
    forall rest, longer, offset: nat, left: int | rest <= longer && left >= 0 && !inside(longer, offset, left)
      ensures SettledAt(repeated, rest, longer, offset, left)
    {
      if left <= |rest| { UsedSettle(item, e, rest, longer, offset, left); }
      if left <= |longer| { UsedSettle(item, e, longer, longer, offset, left); }
    }
  }

  lemma {:induction false} ShallowSettles(f: Format)
    requires Shallow(f)
    ensures Settles(ValidatorOf(f), OverrunsOf(f))
  {
    match f
    case Array(item) =>
      AllBounded(item);
      ShallowSettles(item);
      IntBounded(2);
      IntSettles(2);
      IntCountable(2);
      CountedSettles(IntValidator(2), IntReader(2), ValidatorOf(item), OverrunsOf(item));
    case Repeated(item) =>
      AllBounded(item);
      UnrepeatedIsStable(item);
      StableIsFinal(item);
      ShallowSettles(item);
      RepeatedSettlesUsed(ValidatorOf(item), OverrunsOf(item));
    case Pair(a, b) =>
      AllBounded(a);
      ShallowSettles(a);
      ShallowSettles(b);
      PairSettles(ValidatorOf(a), ValidatorOf(b), OverrunsOf(a), OverrunsOf(b));
    case Int(n) => IntSettles(n);
    case CString => StringSettles();
    case VarByteN => CellSettles();
    case ByteN => BytesSettle();
    case Empty => BytesSettle();
  }

  /**
   * Exactly when: once all bytes of the message are at hand, an accepting verdict on a longer buffer is the
   * verdict on the message alone if and only if no variable-length field overruns the message.
   */
  lemma FinalIffNoOverrun(f: Format, message: ByteString, longer: ByteString, offset: nat)
    requires Shallow(f) && message <= longer && Validate(f, longer, offset, |message|).Valid?
    ensures Validate(f, longer, offset, |message|) == Validate(f, message, offset, |message|) <==>
            !OverrunsOf(f)(longer, offset, |message|)
  {
    hide ValidatorOf, OverrunsOf;
    var v, e, left := ValidatorOf(f), OverrunsOf(f), |message|;
    AllBounded(f);
    assert Counts(v(message, offset, left), message, left);
    WrapsIffOverrun(f);
    assert v(longer, offset, left).left < 0 <==> e(longer, offset, left);
    ShallowSettles(f);
    if !e(longer, offset, left) { assert SettledAt(v, message, longer, offset, left); }
  }

  /**
   * An overrun that only counts when its bytes are used is not enough: here an item is used without the
   * overrun, and given up once the byte arrives that makes its cell overrun the message.
   */
  lemma GivenUpOverrun()
    ensures
      var f, four := Repeated(Pair(Repeated(VarByteN), Int(4))), [0, 0, 0, 1];
      && Validate(f, four, 0, 4).Valid? && Validate(f, four, 0, 4).used == 4
      && Validate(f, four + [7], 0, 4).Valid? && Validate(f, four + [7], 0, 4).used == 0
      && !OverrunsOf(f)(four + [7], 0, 4)
  {
    var four: ByteString := [0, 0, 0, 1];
    var five := four + [7];
    var cells, item := Repeated(VarByteN), Pair(Repeated(VarByteN), Int(4));
    RepeatedCellsChange();
    var v, w := ValidatorOf(cells), ValidatorOf(item);
    assert v(four, 0, 4).left == 4 by { AllBounded(cells); assert Counts(v(four, 0, 4), four, 4); }
    assert v(five, 0, 4).left == -1 by { AllBounded(cells); assert Counts(v(five, 0, 4), five, 4); }
    assert Drop(four, 0) == four && Drop(five, 5) == [];
    assert IntValidator(4)([], 5, -1) == NeedMoreData;
    assert w(five, 0, 4) == NeedMoreData;
    assert w(four, 0, 4).Valid? && w(four, 0, 4).used == 4 && w(four, 0, 4).left == 0;
    OnlyItem(w, four, 0, 4);
    OnlyItem(w, five, 0, 4);
  }

  /** A repeated field whose first item uses all, or is not valid. */
  lemma OnlyItem(w: Validator, rest: ByteString, offset: nat, left: int)
    requires 0 < left <= |rest|
    requires w(rest, offset, left).Valid? ==>
      0 < w(rest, offset, left).used <= |rest| && w(rest, offset, left).left == 0
    ensures
      var r := RepeatedValidator(w)(rest, offset, left);
      r.Valid? && r.used == if w(rest, offset, left).Valid? then w(rest, offset, left).used else 0
  {
    var v := w(rest, offset, left);
    assert RepeatedValidator(w)(rest, offset, left) == ValidateAll(w, rest, offset, left);
    if v.Valid? { assert ValidateAll(w, rest[v.used..], offset + v.used, v.left) == Valid(0, 0, Items(Nil)); }
  }

  /** A repeated variable-length field: one more byte turns "no item" into an item that overruns the message. */
  lemma RepeatedCellsChange()
    ensures
      var f, four := Repeated(VarByteN), [0, 0, 0, 1];
      && Validate(f, four, 0, 4).Valid? && Validate(f, four, 0, 4).used == 0
      && Validate(f, four + [7], 0, 4).Valid? && Validate(f, four + [7], 0, 4).used == 5
  {
    var four: ByteString := [0, 0, 0, 1];
    var five := four + [7];
    var v := ValidatorOf(VarByteN);
    CellLengthOfOne(four);
    CellLengthOfOne(five);
    assert v(four, 0, 4).NeedMoreData?;
    assert v(five, 0, 4) == Valid(5, -1, Bare);
    assert five[5..] == [];
    assert v([], 5, -1).NeedMoreData?;
    assert ValidateAll(v, [], 5, -1) == Valid(0, -1, Items(Nil));
    assert ValidateAll(v, five, 0, 4).used == 5;
  }

  lemma CellLengthOfOne(rest: ByteString)
    requires |rest| >= 4 && rest[..4] == [0, 0, 0, 1]
    ensures CellLength(rest) == 1
  {
    var b := rest[..4];
    assert rest[0] == b[0] && rest[1] == b[1] && rest[2] == b[2] && rest[3] == b[3];
  }
}
