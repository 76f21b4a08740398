/** Stable sorting: it commutes with filtering, and depends on the order of the elements alone. */
module Ordering {
  import opened Outcomes
  import opened Bytes
  import opened Sql
  import opened Semantics

  /** A strict weak order: the order of a backend's sort. */
  ghost predicate WeakOrder<T(!new)>(before: (T, T) -> bool) {
    && (forall x, y :: before(x, y) ==> !before(y, x))
    && (forall x, y, z :: before(x, z) ==> before(x, y) || before(y, z))
  }

  /** The backend's `<` orders the values that are not NULL. */
  ghost predicate Orders(ops: Operators) {
    && (forall v, w: Value :: ops.binary(Less, v, w) == Bool(true) ==> ops.binary(Less, w, v) != Bool(true))
    && (forall u, v, w: Value ::
          ops.binary(Less, u, w) == Bool(true) ==>
            ops.binary(Less, u, v) == Bool(true) || ops.binary(Less, v, w) == Bool(true))
  }

  // --- the order of ORDER BY is a strict weak order ---

  lemma PrecedesWeakly(ops: Operators, ascending: bool, u: Value, v: Value, w: Value)
    requires Orders(ops)
    ensures Precedes(ops, ascending, u, w) ==> !Precedes(ops, ascending, w, u)
    ensures Precedes(ops, ascending, u, w) ==> Precedes(ops, ascending, u, v) || Precedes(ops, ascending, v, w)
  {
  }

  lemma {:induction false} EarlierWeakly(ops: Operators, order: seq<OrderItem>, ks: seq<Value>, ls: seq<Value>,
                                         ms: seq<Value>)
    requires Orders(ops) && |order| == |ks| == |ls| == |ms|
    ensures Earlier(ops, order, ks, ms) ==> !Earlier(ops, order, ms, ks)
    ensures Earlier(ops, order, ks, ms) ==> Earlier(ops, order, ks, ls) || Earlier(ops, order, ls, ms)
    decreases |order|
  {
    hide Precedes, Orders;
    if order != [] {
      var asc, k, l, m := order[0].ascending, ks[0], ls[0], ms[0];
      EarlierWeakly(ops, order[1..], ks[1..], ls[1..], ms[1..]);
      PrecedesWeakly(ops, asc, k, l, m);
      PrecedesWeakly(ops, asc, l, m, k);
      PrecedesWeakly(ops, asc, m, k, l);
    }
  }

  lemma BeforeWeakly(ops: Operators, db: Database, scope: Scope, list: seq<Expr>, order: seq<OrderItem>)
    requires Orders(ops)
    ensures WeakOrder(Before(ops, db, scope, list, order))
  {
    hide Earlier, Orders;
    var before, targets := Before(ops, db, scope, list, order), OrderTargets(list, order);
    forall x, y ensures before(x, y) ==> !before(y, x) {
      var ks, ms := Values(ops, db, scope, x, targets), Values(ops, db, scope, y, targets);
      EarlierWeakly(ops, order, ks, ks, ms);
    }
    forall x, y, z ensures before(x, z) ==> before(x, y) || before(y, z) {
      EarlierWeakly(ops, order, Values(ops, db, scope, x, targets), Values(ops, db, scope, y, targets),
        Values(ops, db, scope, z, targets));
    }
  }

  // --- sorting ---

  ghost predicate InOrder<T(!new)>(before: (T, T) -> bool, s: seq<T>) {
    forall i, j :: 0 <= i < j < |s| ==> !before(s[j], s[i])
  }

  lemma {:induction false} InsertIn<T(!new)>(before: (T, T) -> bool, x: T, s: seq<T>)
    ensures multiset(Insert(before, x, s)) == multiset{x} + multiset(s)
    ensures forall y :: y in Insert(before, x, s) <==> y == x || y in s
  {
    if s != [] && before(s[0], x) {
      InsertIn(before, x, s[1..]);
      assert s == [s[0]] + s[1..];
    }
  }

  lemma {:induction false} SortPermutes<T(!new)>(before: (T, T) -> bool, s: seq<T>)
    ensures multiset(Sort(before, s)) == multiset(s)
    ensures forall y :: y in Sort(before, s) <==> y in s
  {
    if s != [] {
      SortPermutes(before, s[1..]);
      InsertIn(before, s[0], Sort(before, s[1..]));
      assert s == [s[0]] + s[1..];
    }
  }

  lemma RestInOrder<T(!new)>(before: (T, T) -> bool, s: seq<T>)
    requires InOrder(before, s) && s != []
    ensures InOrder(before, s[1..])
  {
    var rest := s[1..];
    forall i, j | 0 <= i < j < |rest| ensures !before(rest[j], rest[i]) { assert !before(s[j + 1], s[i + 1]); }
  }

  lemma {:induction false} InsertInOrder<T(!new)>(before: (T, T) -> bool, x: T, s: seq<T>)
    requires WeakOrder(before) && InOrder(before, s)
    ensures InOrder(before, Insert(before, x, s))
  {
    var r := Insert(before, x, s);
    if s != [] && before(s[0], x) {
      var rest := s[1..];
      RestInOrder(before, s);
      InsertInOrder(before, x, rest);
      InsertIn(before, x, rest);
      var tail := Insert(before, x, rest);
      forall j | 0 <= j < |tail| ensures !before(tail[j], s[0]) {
        assert tail[j] in tail;
        if tail[j] in rest {
          var k :| 0 <= k < |rest| && rest[k] == tail[j];
          assert !before(s[k + 1], s[0]);
        }
      }
      forall i, j | 0 <= i < j < |r| ensures !before(r[j], r[i]) {
        assert r[j] == tail[j - 1];
        if i > 0 { assert r[i] == tail[i - 1]; }
      }
    } else {
      forall i, j | 0 <= i < j < |r| ensures !before(r[j], r[i]) {
        assert r[j] == s[j - 1];
        if i > 0 {
          assert r[i] == s[i - 1];
        } else if j > 1 {
          assert !before(s[j - 1], s[0]);
        }
      }
    }
  }

  lemma {:induction false} SortInOrder<T(!new)>(before: (T, T) -> bool, s: seq<T>)
    requires WeakOrder(before)
    ensures InOrder(before, Sort(before, s))
  {
    if s != [] {
      SortInOrder(before, s[1..]);
      InsertInOrder(before, s[0], Sort(before, s[1..]));
    }
  }

  lemma FilterCons<T>(p: T -> bool, x: T, s: seq<T>)
    ensures Filter(p, [x] + s) == (if p(x) then [x] else []) + Filter(p, s)
  {
    assert ([x] + s)[1..] == s;
  }

  lemma InsertCons<T(!new)>(before: (T, T) -> bool, x: T, y: T, s: seq<T>)
    ensures Insert(before, x, [y] + s) == if before(y, x) then [y] + Insert(before, x, s) else [x] + ([y] + s)
  {
    assert ([y] + s)[1..] == s;
  }

  lemma {:induction false} FilterInsert<T(!new)>(p: T -> bool, before: (T, T) -> bool, x: T, s: seq<T>)
    requires WeakOrder(before) && InOrder(before, s)
    ensures Filter(p, Insert(before, x, s)) == if p(x) then Insert(before, x, Filter(p, s)) else Filter(p, s)
  {
    if s == [] {
    } else if before(s[0], x) {
      var y, rest := s[0], s[1..];
      assert s == [y] + rest;
      RestInOrder(before, s);
      FilterInsert(p, before, x, rest);
      hide *;
      FilterCons(p, y, rest);
      InsertCons(before, x, y, rest);
      FilterCons(p, y, Insert(before, x, rest));
      InsertCons(before, x, y, Filter(p, rest));
      if !p(y) { assert [] + Filter(p, rest) == Filter(p, rest); }
      if !p(y) { assert [] + Filter(p, Insert(before, x, rest)) == Filter(p, Insert(before, x, rest)); }
    } else {
      FilterFirst(p, before, x, s);
      FilterCons(p, x, s);
    }
  }

  /** When an element of an ordered sequence is not before x, neither is any that a filter keeps. */
  lemma FilterFirst<T(!new)>(p: T -> bool, before: (T, T) -> bool, x: T, s: seq<T>)
    requires WeakOrder(before) && InOrder(before, s) && s != [] && !before(s[0], x)
    ensures Insert(before, x, Filter(p, s)) == [x] + Filter(p, s)
  {
    FilterFrom(p, s);
    if Filter(p, s) != [] {
      var y := Filter(p, s)[0];
      assert y in Filter(p, s);
      var k :| 0 <= k < |s| && s[k] == y;
      if k > 0 { assert !before(s[k], s[0]); }
    }
  }

  lemma {:induction false} FilterFrom<T(!new)>(p: T -> bool, s: seq<T>)
    ensures forall y :: y in Filter(p, s) ==> y in s && p(y)
  {
    if s != [] { FilterFrom(p, s[1..]); }
  }

  /** A stable sort commutes with a filter. */
  lemma {:induction false} SortFilter<T(!new)>(p: T -> bool, before: (T, T) -> bool, s: seq<T>)
    requires WeakOrder(before)
    ensures Filter(p, Sort(before, s)) == Sort(before, Filter(p, s))
  {
    if s != [] {
      SortFilter(p, before, s[1..]);
      SortInOrder(before, s[1..]);
      FilterInsert(p, before, s[0], Sort(before, s[1..]));
      assert s == [s[0]] + s[1..];
      FilterCons(p, s[0], s[1..]);
      var rest := Filter(p, s[1..]);
      if p(s[0]) {
        assert ([s[0]] + rest)[0] == s[0] && ([s[0]] + rest)[1..] == rest;
      } else {
        assert [] + rest == rest;
      }
    }
  }

  /** Orders that agree on the elements sort alike. */
  lemma {:induction false} SortSame<T(!new)>(f: (T, T) -> bool, g: (T, T) -> bool, s: seq<T>)
    requires forall x, y :: x in s && y in s ==> f(x, y) == g(x, y)
    ensures Sort(f, s) == Sort(g, s)
  {
    if s != [] {
      SortSame(f, g, s[1..]);
      SortPermutes(f, s[1..]);
      InsertSame(f, g, s[0], Sort(f, s[1..]));
    }
  }

  lemma {:induction false} InsertSame<T(!new)>(f: (T, T) -> bool, g: (T, T) -> bool, x: T, s: seq<T>)
    requires forall y :: y in s ==> f(y, x) == g(y, x)
    ensures Insert(f, x, s) == Insert(g, x, s)
  {
    if s != [] {
      assert s[0] in s;
      InsertSame(f, g, x, s[1..]);
    }
  }

  /** Orders that agree on what a filter keeps: sorting either way, the filter keeps the same, in the same order. */
  lemma SortedAlike<T(!new)>(p: T -> bool, f: (T, T) -> bool, g: (T, T) -> bool, s: seq<T>, t: seq<T>)
    requires WeakOrder(f) && WeakOrder(g) && Filter(p, s) == Filter(p, t)
    requires forall x, y :: p(x) && p(y) ==> f(x, y) == g(x, y)
    ensures Filter(p, Sort(f, s)) == Filter(p, Sort(g, t))
  {
    SortFilter(p, f, s);
    SortFilter(p, g, t);
    FilterFrom(p, s);
    SortSame(f, g, Filter(p, s));
  }

  // --- grouping ---

  /** Groupings that agree on the elements pick the same rows. */
  lemma {:induction false} FirstsSame(f: (Binding, Binding) -> bool, g: (Binding, Binding) -> bool, bs: seq<Binding>)
    requires forall x, y :: x in bs && y in bs ==> f(x, y) == g(x, y)
    ensures FirstOfEach(f, bs) == FirstOfEach(g, bs)
  {
    if bs != [] {
      var n := |bs| - 1;
      FirstsSame(f, g, bs[..n]);
      forall i | 0 <= i < n ensures f(bs[i], bs[n]) == g(bs[i], bs[n]) { assert bs[i] in bs && bs[n] in bs; }
    }
  }

  lemma {:induction false} FirstsFrom(same: (Binding, Binding) -> bool, bs: seq<Binding>)
    ensures forall b :: b in FirstOfEach(same, bs) ==> b in bs
  {
    if bs != [] { FirstsFrom(same, bs[..|bs| - 1]); }
  }
}
