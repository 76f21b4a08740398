/** Joins on truncated hashes keep a superset of the joined rows; the recorded comparisons cut it back. */
module JoinCorrectness {
  import opened Outcomes
  import opened Bytes
  import opened Sql
  import opened Config
  import opened Traversal
  import opened Rewriting
  import opened Semantics
  import opened Relation
  import opened Ordering

  // --- filters of products ---

  lemma {:induction false} FilterSame<T>(p: T -> bool, q: T -> bool, s: seq<T>)
    requires forall x :: x in s ==> p(x) == q(x)
    ensures Filter(p, s) == Filter(q, s)
  {
    if s != [] {
      assert s[0] in s;
      FilterSame(p, q, s[1..]);
    }
  }

  lemma {:induction false} FilterIn<T>(p: T -> bool, s: seq<T>)
    ensures forall x :: x in Filter(p, s) <==> x in s && p(x)
  {
    if s != [] { FilterIn(p, s[1..]); }
  }

  lemma ConcatAssoc<T>(a: seq<T>, b: seq<T>, c: seq<T>)
    ensures (a + b) + c == a + (b + c)
  {
  }

  lemma FilterEmpty<T>(p: T -> bool)
    ensures Filter(p, []) == []
  {
  }

  lemma {:induction false} FilterConcat<T>(p: T -> bool, s: seq<T>, t: seq<T>)
    ensures Filter(p, s + t) == Filter(p, s) + Filter(p, t)
  {
    hide Filter;
    if s == [] {
      FilterEmpty(p);
      assert s + t == t && [] + Filter(p, t) == Filter(p, t);
    } else {
      assert s == [s[0]] + s[1..] && s + t == [s[0]] + (s[1..] + t);
      FilterConcat(p, s[1..], t);
      FilterCons(p, s[0], s[1..]);
      FilterCons(p, s[0], s[1..] + t);
      ConcatAssoc(if p(s[0]) then [s[0]] else [], Filter(p, s[1..]), Filter(p, t));
    }
  }

  /** Two filters in a row keep what both keep, in order. */
  lemma {:induction false} FilterTwice<T>(p: T -> bool, q: T -> bool, pq: T -> bool, s: seq<T>)
    requires forall x :: x in s ==> pq(x) == (p(x) && q(x))
    ensures Filter(p, Filter(q, s)) == Filter(pq, s)
  {
    if s != [] {
      assert s[0] in s;
      FilterTwice(p, q, pq, s[1..]);
      FilterConcat(p, if q(s[0]) then [s[0]] else [], Filter(q, s[1..]));
    }
  }

  lemma {:induction false} PairingsIn(b: Binding, right: seq<Binding>)
    ensures forall x :: x in Pairings(b, right) <==> exists r :: r in right && x == b + r
  {
    if right != [] {
      PairingsIn(b, right[1..]);
      var first, others := b + right[0], Pairings(b, right[1..]);
      assert Pairings(b, right) == [first] + others;
      forall x ensures x in Pairings(b, right) <==> exists r :: r in right && x == b + r {
        if x == first {
          assert right[0] in right;
        } else if x in Pairings(b, right) {
          assert x in others;
          var r :| r in right[1..] && x == b + r;
          assert r in right;
        }
        if r :| r in right && x == b + r {
          assert r == right[0] || r in right[1..];
        }
      }
    }
  }

  lemma {:induction false} ProductIn(left: seq<Binding>, right: seq<Binding>, x: Binding)
    returns (l: Binding, r: Binding)
    requires x in Product(left, right)
    ensures l in left && r in right && x == l + r
  {
    if x in Pairings(left[0], right) {
      PairingsIn(left[0], right);
      l := left[0];
      r :| r in right && x == l + r;
    } else {
      l, r := ProductIn(left[1..], right, x);
    }
  }

  /** Filtering the right sides of one row's pairings. */
  lemma {:induction false} PairingsFilter(b: Binding, right: seq<Binding>, q: Binding -> bool, pq: Binding -> bool)
    requires forall r :: r in right ==> pq(b + r) == q(r)
    ensures Pairings(b, Filter(q, right)) == Filter(pq, Pairings(b, right))
  {
    if right != [] {
      assert right[0] in right;
      PairingsFilter(b, right[1..], q, pq);
      var rest := Filter(q, right[1..]);
      assert Filter(q, right) == if q(right[0]) then [right[0]] + rest else rest;
      assert Pairings(b, [right[0]] + rest) == [b + right[0]] + Pairings(b, rest) by {
        assert ([right[0]] + rest)[1..] == rest;
      }
    }
  }

  lemma {:induction false} FilterNone<T>(p: T -> bool, s: seq<T>)
    requires forall x :: x in s ==> !p(x)
    ensures Filter(p, s) == []
  {
    if s != [] {
      assert s[0] in s;
      FilterNone(p, s[1..]);
    }
  }

  /** The product of two filtered sequences is a filtering of the product. */
  lemma {:induction false} ProductFilter(left: seq<Binding>, right: seq<Binding>,
                                         p: Binding -> bool, q: Binding -> bool, pq: Binding -> bool)
    requires forall l, r :: l in left && r in right ==> pq(l + r) == (p(l) && q(r))
    ensures Product(Filter(p, left), Filter(q, right)) == Filter(pq, Product(left, right))
  {
    if left != [] {
      var b := left[0];
      assert b in left;
      ProductFilter(left[1..], right, p, q, pq);
      FilterConcat(pq, Pairings(b, right), Product(left[1..], right));
      if p(b) {
        PairingsFilter(b, right, q, pq);
        assert Filter(p, left) == [b] + Filter(p, left[1..]);
      } else {
        PairingsIn(b, right);
        FilterNone(pq, Pairings(b, right));
        assert Filter(p, left) == Filter(p, left[1..]);
      }
    }
  }

  // --- FROM clauses ---

  function QualifierSet(tables: seq<(string, string)>): set<string> {
    set i | 0 <= i < |tables| :: tables[i].0
  }

  predicate DistinctQualifiers(tables: seq<(string, string)>) {
    forall i, j :: 0 <= i < j < |tables| ==> tables[i].0 != tables[j].0
  }

  lemma QualifiersConcat(t1: seq<(string, string)>, t2: seq<(string, string)>)
    requires DistinctQualifiers(t1 + t2)
    ensures DistinctQualifiers(t1) && DistinctQualifiers(t2)
    ensures QualifierSet(t1) !! QualifierSet(t2)
    ensures QualifierSet(t1 + t2) == QualifierSet(t1) + QualifierSet(t2)
  {
    var t := t1 + t2;
    forall i, j | 0 <= i < j < |t1| ensures t1[i].0 != t1[j].0 { assert t[i] == t1[i] && t[j] == t1[j]; }
    forall i, j | 0 <= i < j < |t2| ensures t2[i].0 != t2[j].0 {
      assert t[|t1| + i] == t2[i] && t[|t1| + j] == t2[j];
    }
    forall i, j | 0 <= i < |t1| && 0 <= j < |t2| ensures t1[i].0 != t2[j].0 {
      assert t[i] == t1[i] && t[|t1| + j] == t2[j];
    }
    forall q | q in QualifierSet(t1) + QualifierSet(t2) ensures q in QualifierSet(t) {
      if q in QualifierSet(t1) {
        var i :| 0 <= i < |t1| && t1[i].0 == q;
        assert t[i].0 == q;
      } else {
        var i :| 0 <= i < |t2| && t2[i].0 == q;
        assert t[|t1| + i].0 == q;
      }
    }
  }

  /** The qualified columns of candidates name only these tables. */
  predicate CandidatesWithin(quals: set<string>, candidates: seq<Expr>) {
    forall c :: c in candidates && IsJoinCandidate(c) && Qualified(c) ==>
      c.left.table.value in quals && c.right.table.value in quals
  }

  lemma AgreeDepends(w: WorldData, b: Binding, b': Binding, quals: set<string>, candidates: seq<Expr>)
    requires CandidatesWithin(quals, candidates)
    requires forall q :: q in quals ==> (q in b <==> q in b') && (q in b ==> b[q] == b'[q])
    ensures AllAgree(w, b, candidates) <==> AllAgree(w, b', candidates)
  {
    forall c | c in candidates && Joins(w.s.cfg, w.aliases, c)
      ensures SidesAgree(w, b, c) <==> SidesAgree(w, b', c)
    {
    }
  }

  /** The candidates in the conditions of a FROM clause. */
  function FromCandidates(tr: TableRef): seq<Expr> { FromTableRef(CandidatesIn(JoinRole), tr) }

  /** The combinations of rows on which the join equalities among the candidates agree. */
  ghost function Agreeing(w: WorldData, candidates: seq<Expr>): Binding -> bool {
    b => AllAgree(w, b, candidates)
  }

  /** A condition the theorems cover: typed, and accepted by the chain. */
  ghost predicate GoodCondition(w: WorldData, quals: set<string>, e: Expr) {
    && WellTyped(w.s.cfg, w.schema, w.scope, e)
    && Checked(w.s.cfg, w.aliases, w.Rewritten(e)) && CandidatesWithin(quals, Candidates(JoinRole, e))
  }

  ghost predicate GoodFrom(w: WorldData, tr: TableRef)
    decreases tr, 1
  {
    match tr
    case TableName(n, _) => n in w.schema
    case TableSelect(_) => false
    case TableJoin(l, r, c) => GoodFrom(w, l) && GoodFrom(w, r) && GoodCondition(w, QualifierSet(Tables(tr)), c)
    case TableCrossProduct(list) => GoodFromList(w, list)
  }

  ghost predicate GoodFromList(w: WorldData, trs: seq<TableRef>)
    decreases trs, 0
  {
    trs == [] || (GoodFrom(w, trs[0]) && GoodFromList(w, trs[1..]))
  }

  function RewrittenFrom(w: WorldData, tr: TableRef): TableRef {
    MapTableRef(JoinRewrite(w.s.cfg, w.aliases), MapTableRef(IndexRewrite(w.s, w.aliases), tr))
  }

  function RewrittenFromList(w: WorldData, trs: seq<TableRef>): seq<TableRef> {
    MapTableRefs(JoinRewrite(w.s.cfg, w.aliases), MapTableRefs(IndexRewrite(w.s, w.aliases), trs))
  }

  lemma {:induction false} MapKeepsTables(r: Rewrite, tr: TableRef)
    ensures Flat(tr) ==> Flat(MapTableRef(r, tr))
    ensures Tables(MapTableRef(r, tr)) == Tables(tr)
    decreases tr, 1
  {
    match tr
    case TableJoin(left, right, _) =>
      MapKeepsTables(r, left);
      MapKeepsTables(r, right);
    case TableCrossProduct(list) => MapListKeepsTables(r, list);
    case _ =>
  }

  lemma {:induction false} MapListKeepsTables(r: Rewrite, trs: seq<TableRef>)
    ensures FlatList(trs) ==> FlatList(MapTableRefs(r, trs))
    ensures TablesList(MapTableRefs(r, trs)) == TablesList(trs)
    decreases trs, 0
  {
    if trs != [] {
      MapKeepsTables(r, trs[0]);
      MapListKeepsTables(r, trs[1..]);
    }
  }

  lemma {:induction false} RowsKeys(q: string, count: nat, b: Binding)
    requires b in Rows(q, count)
    ensures b.Keys == {q}
  {
    if count > 0 && b != map[q := count - 1] { RowsKeys(q, count - 1, b); }
  }

  /** A combination of rows binds exactly the qualifiers of its FROM clause. */
  lemma {:induction false} BindingKeys(ops: Operators, db: Database, scope: Scope, tr: TableRef, b: Binding)
    requires Flat(tr) && b in Bindings(ops, db, scope, tr) && DistinctQualifiers(Tables(tr))
    ensures b.Keys == QualifierSet(Tables(tr))
    decreases tr, 1
  {
    match tr
    case TableName(n, _) =>
      RowsKeys(Qualifier(tr), if n in db then |db[n]| else 0, b);
      assert Tables(tr)[0].0 == Qualifier(tr);
    case TableJoin(l, r, c) =>
      var left, right := Bindings(ops, db, scope, l), Bindings(ops, db, scope, r);
      FilterIn(Satisfying(ops, db, scope, c), Product(left, right));
      var bl, br := ProductIn(left, right, b);
      QualifiersConcat(Tables(l), Tables(r));
      BindingKeys(ops, db, scope, l, bl);
      BindingKeys(ops, db, scope, r, br);
    case TableCrossProduct(list) => BindingListKeys(ops, db, scope, list, b);
  }

  lemma {:induction false} BindingListKeys(ops: Operators, db: Database, scope: Scope, trs: seq<TableRef>, b: Binding)
    requires FlatList(trs) && b in BindingsList(ops, db, scope, trs) && DistinctQualifiers(TablesList(trs))
    ensures b.Keys == QualifierSet(TablesList(trs))
    decreases trs, 0
  {
    if trs != [] {
      var bl, br := ProductIn(Bindings(ops, db, scope, trs[0]), BindingsList(ops, db, scope, trs[1..]), b);
      QualifiersConcat(Tables(trs[0]), TablesList(trs[1..]));
      BindingKeys(ops, db, scope, trs[0], bl);
      BindingListKeys(ops, db, scope, trs[1..], br);
    }
  }

  lemma CandidatesWithinConcat(quals: set<string>, q1: set<string>, q2: set<string>, c1: seq<Expr>, c2: seq<Expr>)
    requires q1 <= quals && q2 <= quals && CandidatesWithin(q1, c1) && CandidatesWithin(q2, c2)
    ensures CandidatesWithin(quals, c1 + c2)
  {
  }

  lemma {:induction false} GoodFromWithin(w: WorldData, tr: TableRef)
    requires GoodFrom(w, tr) && DistinctQualifiers(Tables(tr))
    ensures Flat(tr) && CandidatesWithin(QualifierSet(Tables(tr)), FromCandidates(tr))
    decreases tr, 1
  {
    match tr
    case TableName(_, _) =>
    case TableJoin(l, r, c) =>
      var quals := QualifierSet(Tables(tr));
      QualifiersConcat(Tables(l), Tables(r));
      GoodFromWithin(w, l);
      GoodFromWithin(w, r);
      CandidatesWithinConcat(quals, QualifierSet(Tables(l)), QualifierSet(Tables(r)), FromCandidates(l),
        FromCandidates(r));
      CandidatesWithinConcat(quals, quals, quals, FromCandidates(l) + FromCandidates(r), Candidates(JoinRole, c));
    case TableCrossProduct(list) => GoodFromListWithin(w, list);
  }

  lemma {:induction false} GoodFromListWithin(w: WorldData, trs: seq<TableRef>)
    requires GoodFromList(w, trs) && DistinctQualifiers(TablesList(trs))
    ensures FlatList(trs) && CandidatesWithin(QualifierSet(TablesList(trs)), FromTableRefs(CandidatesIn(JoinRole), trs))
    decreases trs, 0
  {
    if trs != [] {
      QualifiersConcat(Tables(trs[0]), TablesList(trs[1..]));
      GoodFromWithin(w, trs[0]);
      GoodFromListWithin(w, trs[1..]);
    }
  }

  /** Pairs of rows agree when both sides do. */
  lemma PairAgrees(w: WorldData, bl: Binding, br: Binding, ql: set<string>, qr: set<string>, cl: seq<Expr>,
                   cr: seq<Expr>)
    requires bl.Keys == ql && br.Keys == qr && ql !! qr && CandidatesWithin(ql, cl) && CandidatesWithin(qr, cr)
    ensures AllAgree(w, bl + br, cl + cr) <==>
            AllAgree(w, bl, cl) &&
            AllAgree(w, br, cr)
  {
    AllAgreeConcat(w, bl + br, cl, cr);
    AgreeDepends(w, bl + br, bl, ql, cl);
    AgreeDepends(w, bl + br, br, qr, cr);
  }

  /** What FROM must meet: plaintext and encrypted combinations that agree are the same, in order. */
  ghost predicate FromAgrees(w: WorldData, tr: TableRef)
    requires Flat(tr) && Flat(RewrittenFrom(w, tr))
  {
    Filter(Agreeing(w, FromCandidates(tr)), Bindings(w.ops, w.plain, w.scope, tr)) ==
    Filter(Agreeing(w, FromCandidates(tr)), Bindings(w.ops, w.stored, w.scope, RewrittenFrom(w, tr)))
  }

  /** Two FROM clauses side by side. */
  lemma ProductExact(w: WorldData, left: seq<Binding>, right: seq<Binding>,
                     ql: set<string>, qr: set<string>, cl: seq<Expr>, cr: seq<Expr>)
    requires forall b :: b in left ==> b.Keys == ql
    requires forall b :: b in right ==> b.Keys == qr
    requires ql !! qr && CandidatesWithin(ql, cl) && CandidatesWithin(qr, cr)
    ensures Product(Filter(Agreeing(w, cl), left), Filter(Agreeing(w, cr), right)) ==
            Filter(Agreeing(w, cl + cr), Product(left, right))
  {
    forall l, r | l in left && r in right
      ensures Agreeing(w, cl + cr)(l + r) == (Agreeing(w, cl)(l) && Agreeing(w, cr)(r))
    {
      PairAgrees(w, l, r, ql, qr, cl, cr);
    }
    ProductFilter(left, right, Agreeing(w, cl), Agreeing(w, cr), Agreeing(w, cl + cr));
  }

  /** One condition on top of others: a filter that is part of another adds nothing to it. */
  lemma ConditionFilters(w: World, quals: set<string>, e: Expr, candidates: seq<Expr>, ps: seq<Binding>,
                         qs: seq<Binding>)
    requires GoodCondition(w, quals, e)
    requires Filter(Agreeing(w, candidates), ps) == Filter(Agreeing(w, candidates), qs)
    ensures
      var both := Agreeing(w, candidates + Candidates(JoinRole, e));
      Filter(both, Filter(Satisfying(w.ops, w.plain, w.scope, e), ps)) ==
      Filter(both, Filter(Satisfying(w.ops, w.stored, w.scope, w.Rewritten(e)), qs))
  {
    hide WellTyped, Checked, CandidatesWithin;
    var agree, both := Agreeing(w, candidates), Agreeing(w, candidates + Candidates(JoinRole, e));
    var final := (b: Binding) => both(b) && w.PlainHolds(b, e);
    forall b
      ensures final(b) == (both(b) && w.StoredHolds(b, w.Rewritten(e)))
      ensures final(b) == (final(b) && agree(b))
    {
      AllAgreeConcat(w, b, candidates, Candidates(JoinRole, e));
      if both(b) { RewrittenAgrees(w, b, e); }
    }
    FilterTwice(both, Satisfying(w.ops, w.plain, w.scope, e), final, ps);
    FilterTwice(both, Satisfying(w.ops, w.stored, w.scope, w.Rewritten(e)), final, qs);
    FilterTwice(final, agree, final, ps);
    FilterTwice(final, agree, final, qs);
  }

  /**
   * The probabilistic join: the combinations of rows of a FROM clause on which every join equality's
   * columns agree are the same, in the same order, in the plaintext and in the encrypted database.
   */
  lemma {:induction false} FromIsFiltered(w: World, tr: TableRef)
    requires GoodFrom(w, tr) && DistinctQualifiers(Tables(tr))
    ensures Flat(tr) && Flat(RewrittenFrom(w, tr)) && FromAgrees(w, tr)
    decreases tr, 1
  {
    GoodFromWithin(w, tr);
    MapKeepsTables(IndexRewrite(w.s, w.aliases), tr);
    MapKeepsTables(JoinRewrite(w.s.cfg, w.aliases), MapTableRef(IndexRewrite(w.s, w.aliases), tr));
    match tr
    case TableName(n, _) =>
    case TableJoin(_, _, _) => JoinIsFiltered(w, tr);
    case TableCrossProduct(list) => FromListIsFiltered(w, list);
  }

  lemma {:induction false} JoinIsFiltered(w: World, tr: TableRef)
    requires tr.TableJoin? && GoodFrom(w, tr) && DistinctQualifiers(Tables(tr))
    requires Flat(tr) && Flat(RewrittenFrom(w, tr))
    ensures FromAgrees(w, tr)
    decreases tr, 0
  {
    hide GoodCondition;
    var l, r, c := tr.left, tr.right, tr.condition;
    QualifiersConcat(Tables(l), Tables(r));
    FromIsFiltered(w, l);
    FromIsFiltered(w, r);
    GoodFromWithin(w, l);
    GoodFromWithin(w, r);
    var l', r' := RewrittenFrom(w, l), RewrittenFrom(w, r);
    assert RewrittenFrom(w, tr) == TableJoin(l', r', w.Rewritten(c));
    PairFiltered(w, Bindings(w.ops, w.plain, w.scope, l), Bindings(w.ops, w.stored, w.scope, l'),
      Bindings(w.ops, w.plain, w.scope, r), Bindings(w.ops, w.stored, w.scope, r'),
      QualifierSet(Tables(l)), QualifierSet(Tables(r)), FromCandidates(l), FromCandidates(r)) by {
      BindingsKeys(w, l);
      BindingsKeys(w, r);
    }
    ConditionFilters(w, QualifierSet(Tables(tr)), c, FromCandidates(l) + FromCandidates(r),
      Product(Bindings(w.ops, w.plain, w.scope, l), Bindings(w.ops, w.plain, w.scope, r)),
      Product(Bindings(w.ops, w.stored, w.scope, l'), Bindings(w.ops, w.stored, w.scope, r')));
  }

  /** The combinations bind these qualifiers. */
  predicate Bind(bs: seq<Binding>, quals: set<string>) { forall b :: b in bs ==> b.Keys == quals }

  /** Products of combinations that are the same where they agree are the same where they agree. */
  lemma PairFiltered(w: WorldData, pl: seq<Binding>, sl: seq<Binding>, pr: seq<Binding>, sr: seq<Binding>,
                     ql: set<string>, qr: set<string>, cl: seq<Expr>, cr: seq<Expr>)
    requires Bind(pl, ql) && Bind(sl, ql) && Bind(pr, qr) && Bind(sr, qr)
    requires ql !! qr && CandidatesWithin(ql, cl) && CandidatesWithin(qr, cr)
    requires Filter(Agreeing(w, cl), pl) == Filter(Agreeing(w, cl), sl)
    requires Filter(Agreeing(w, cr), pr) == Filter(Agreeing(w, cr), sr)
    ensures Filter(Agreeing(w, cl + cr), Product(pl, pr)) == Filter(Agreeing(w, cl + cr), Product(sl, sr))
  {
    hide CandidatesWithin;
    ProductExact(w, pl, pr, ql, qr, cl, cr);
    ProductExact(w, sl, sr, ql, qr, cl, cr);
  }

  /** Every combination of a FROM clause binds its qualifiers, in both databases. */
  lemma BindingsKeys(w: WorldData, tr: TableRef)
    requires Flat(tr) && Flat(RewrittenFrom(w, tr)) && DistinctQualifiers(Tables(tr))
    ensures Bind(Bindings(w.ops, w.plain, w.scope, tr), QualifierSet(Tables(tr)))
    ensures Bind(Bindings(w.ops, w.stored, w.scope, RewrittenFrom(w, tr)), QualifierSet(Tables(tr)))
  {
    MapKeepsTables(IndexRewrite(w.s, w.aliases), tr);
    MapKeepsTables(JoinRewrite(w.s.cfg, w.aliases), MapTableRef(IndexRewrite(w.s, w.aliases), tr));
    forall b | b in Bindings(w.ops, w.plain, w.scope, tr) ensures b.Keys == QualifierSet(Tables(tr)) {
      BindingKeys(w.ops, w.plain, w.scope, tr, b);
    }
    forall b | b in Bindings(w.ops, w.stored, w.scope, RewrittenFrom(w, tr))
      ensures b.Keys == QualifierSet(Tables(tr))
    {
      BindingKeys(w.ops, w.stored, w.scope, RewrittenFrom(w, tr), b);
    }
  }

  lemma BindingsListKeys(w: WorldData, trs: seq<TableRef>)
    requires FlatList(trs) && FlatList(RewrittenFromList(w, trs)) && DistinctQualifiers(TablesList(trs))
    ensures Bind(BindingsList(w.ops, w.plain, w.scope, trs), QualifierSet(TablesList(trs)))
    ensures Bind(BindingsList(w.ops, w.stored, w.scope, RewrittenFromList(w, trs)), QualifierSet(TablesList(trs)))
  {
    MapListKeepsTables(IndexRewrite(w.s, w.aliases), trs);
    MapListKeepsTables(JoinRewrite(w.s.cfg, w.aliases), MapTableRefs(IndexRewrite(w.s, w.aliases), trs));
    forall b | b in BindingsList(w.ops, w.plain, w.scope, trs) ensures b.Keys == QualifierSet(TablesList(trs)) {
      BindingListKeys(w.ops, w.plain, w.scope, trs, b);
    }
    forall b | b in BindingsList(w.ops, w.stored, w.scope, RewrittenFromList(w, trs))
      ensures b.Keys == QualifierSet(TablesList(trs))
    {
      BindingListKeys(w.ops, w.stored, w.scope, RewrittenFromList(w, trs), b);
    }
  }

  lemma {:induction false} FromListIsFiltered(w: World, trs: seq<TableRef>)
    requires GoodFromList(w, trs) && DistinctQualifiers(TablesList(trs))
    ensures FlatList(trs) && FlatList(RewrittenFromList(w, trs))
    ensures
      var agree := Agreeing(w, FromTableRefs(CandidatesIn(JoinRole), trs));
      Filter(agree, BindingsList(w.ops, w.plain, w.scope, trs)) ==
      Filter(agree, BindingsList(w.ops, w.stored, w.scope, RewrittenFromList(w, trs)))
    decreases trs, 0
  {
    if trs != [] {
      var first, rest := trs[0], trs[1..];
      QualifiersConcat(Tables(first), TablesList(rest));
      FromIsFiltered(w, first);
      FromListIsFiltered(w, rest);
      GoodFromWithin(w, first);
      GoodFromListWithin(w, rest);
      assert RewrittenFromList(w, trs) == [RewrittenFrom(w, first)] + RewrittenFromList(w, rest);
      PairFiltered(w, Bindings(w.ops, w.plain, w.scope, first),
        Bindings(w.ops, w.stored, w.scope, RewrittenFrom(w, first)),
        BindingsList(w.ops, w.plain, w.scope, rest),
        BindingsList(w.ops, w.stored, w.scope, RewrittenFromList(w, rest)),
        QualifierSet(Tables(first)), QualifierSet(TablesList(rest)),
        FromCandidates(first), FromTableRefs(CandidatesIn(JoinRole), rest)) by {
        BindingsKeys(w, first);
        BindingsListKeys(w, rest);
      }
    }
  }

  // --- join equalities that are conjuncts ---

  /** Every join equality is a top-level conjunct. */
  ghost predicate TopLevelJoins(cfg: DatabaseConfig, aliases: map<string, string>, e: Expr) {
    if e.Bin? && e.op == And then TopLevelJoins(cfg, aliases, e.left) && TopLevelJoins(cfg, aliases, e.right)
    else Joins(cfg, aliases, e) || NoJoins(cfg, aliases, e)
  }

  ghost predicate ConjoinedFrom(w: WorldData, tr: TableRef)
    decreases tr, 1
  {
    match tr
    case TableJoin(l, r, c) => ConjoinedFrom(w, l) && ConjoinedFrom(w, r) && TopLevelJoins(w.s.cfg, w.aliases, c)
    case TableCrossProduct(list) => ConjoinedFromList(w, list)
    case _ => true
  }

  ghost predicate ConjoinedFromList(w: WorldData, trs: seq<TableRef>)
    decreases trs, 0
  {
    trs == [] || (ConjoinedFrom(w, trs[0]) && ConjoinedFromList(w, trs[1..]))
  }

  lemma HoldsAnd(ops: Operators, db: Database, scope: Scope, b: Binding, l: Expr, r: Expr)
    ensures Holds(ops, db, scope, b, Bin(And, l, r)) <==> Holds(ops, db, scope, b, l) && Holds(ops, db, scope, b, r)
  {
  }

  /** Where a condition holds, the columns of its conjoined join equalities agree. */
  lemma {:induction false} HoldingAgrees(w: World, b: Binding, e: Expr)
    requires WellTyped(w.s.cfg, w.schema, w.scope, e) && TopLevelJoins(w.s.cfg, w.aliases, e) && w.PlainHolds(b, e)
    ensures AllAgree(w, b, Candidates(JoinRole, e))
  {
    hide ValidConfig, Simulates, Resolves, Joins;
    if e.Bin? && e.op == And {
      HoldsAnd(w.ops, w.plain, w.scope, b, e.left, e.right);
      HoldingAgrees(w, b, e.left);
      HoldingAgrees(w, b, e.right);
      AllAgreeConcat(w, b, Candidates(JoinRole, e.left), Candidates(JoinRole, e.right));
    } else if Joins(w.s.cfg, w.aliases, e) {
      JoinAlone(w, e);
      JoinEqualityAgrees(w, b, e);
    }
  }

  lemma JoinAlone(w: WorldData, e: Expr)
    requires Joins(w.s.cfg, w.aliases, e)
    ensures Candidates(JoinRole, e) == [e] && IsJoinCandidate(e) && Qualified(e)
  {
  }

  /** Every plaintext combination of a FROM clause with conjoined join equalities agrees. */
  lemma {:induction false} CombinationAgrees(w: World, tr: TableRef, b: Binding)
    requires GoodFrom(w, tr) && ConjoinedFrom(w, tr) && DistinctQualifiers(Tables(tr)) && Flat(tr)
    requires b in Bindings(w.ops, w.plain, w.scope, tr)
    ensures AllAgree(w, b, FromCandidates(tr))
    decreases tr, 1
  {
    hide ValidConfig, Simulates, Resolves;
    match tr
    case TableName(_, _) =>
    case TableJoin(l, r, c) =>
      var left, right := Bindings(w.ops, w.plain, w.scope, l), Bindings(w.ops, w.plain, w.scope, r);
      FilterIn(Satisfying(w.ops, w.plain, w.scope, c), Product(left, right));
      var bl, br := ProductIn(left, right, b);
      QualifiersConcat(Tables(l), Tables(r));
      CombinationAgrees(w, l, bl);
      CombinationAgrees(w, r, br);
      SidesTogether(w, l, r, bl, br);
      HoldingAgrees(w, b, c);
      AllAgreeConcat(w, b, FromCandidates(l) + FromCandidates(r), Candidates(JoinRole, c));
    case TableCrossProduct(list) => CombinationListAgrees(w, list, b);
  }

  lemma SidesTogether(w: WorldData, l: TableRef, r: TableRef, bl: Binding, br: Binding)
    requires GoodFrom(w, l) && GoodFrom(w, r) && Flat(l) && Flat(r)
    requires DistinctQualifiers(Tables(l)) && DistinctQualifiers(Tables(r)) &&
      QualifierSet(Tables(l)) !! QualifierSet(Tables(r))
    requires bl in Bindings(w.ops, w.plain, w.scope, l) && br in Bindings(w.ops, w.plain, w.scope, r)
    requires AllAgree(w, bl, FromCandidates(l)) && AllAgree(w, br, FromCandidates(r))
    ensures AllAgree(w, bl + br, FromCandidates(l) + FromCandidates(r))
  {
    BindingKeys(w.ops, w.plain, w.scope, l, bl);
    BindingKeys(w.ops, w.plain, w.scope, r, br);
    GoodFromWithin(w, l);
    GoodFromWithin(w, r);
    PairAgrees(w, bl, br, QualifierSet(Tables(l)), QualifierSet(Tables(r)), FromCandidates(l), FromCandidates(r));
  }

  lemma {:induction false} CombinationListAgrees(w: World, trs: seq<TableRef>, b: Binding)
    requires GoodFromList(w, trs) && ConjoinedFromList(w, trs) && DistinctQualifiers(TablesList(trs)) && FlatList(trs)
    requires b in BindingsList(w.ops, w.plain, w.scope, trs)
    ensures AllAgree(w, b, FromTableRefs(CandidatesIn(JoinRole), trs))
    decreases trs, 0
  {
    hide ValidConfig, Simulates, Resolves;
    if trs != [] {
      var first, rest := trs[0], trs[1..];
      var left, right := Bindings(w.ops, w.plain, w.scope, first), BindingsList(w.ops, w.plain, w.scope, rest);
      var bl, br := ProductIn(left, right, b);
      QualifiersConcat(Tables(first), TablesList(rest));
      CombinationAgrees(w, first, bl);
      CombinationListAgrees(w, rest, br);
      BindingKeys(w.ops, w.plain, w.scope, first, bl);
      BindingListKeys(w.ops, w.plain, w.scope, rest, br);
      GoodFromWithin(w, first);
      GoodFromListWithin(w, rest);
      PairAgrees(w, bl, br, QualifierSet(Tables(first)), QualifierSet(TablesList(rest)),
        FromCandidates(first), FromTableRefs(CandidatesIn(JoinRole), rest));
    }
  }

  /**
   * The probabilistic join is exact after its filter when its equalities are conjuncts: the plaintext
   * combinations of rows of a FROM clause are the encrypted ones whose joined columns agree, in order.
   */
  lemma FromIsExact(w: World, tr: TableRef)
    requires GoodFrom(w, tr) && ConjoinedFrom(w, tr) && DistinctQualifiers(Tables(tr))
    ensures Flat(tr) && Flat(RewrittenFrom(w, tr))
    ensures Bindings(w.ops, w.plain, w.scope, tr) ==
            Filter(Agreeing(w, FromCandidates(tr)), Bindings(w.ops, w.stored, w.scope, RewrittenFrom(w, tr)))
  {
    hide GoodFrom, ConjoinedFrom, Simulates, ValidConfig, Resolves;
    FromIsFiltered(w, tr);
    var agree, plain := Agreeing(w, FromCandidates(tr)), Bindings(w.ops, w.plain, w.scope, tr);
    forall b | b in plain ensures agree(b) { CombinationAgrees(w, tr, b); }
    FilterAll(agree, plain);
  }

  lemma {:induction false} FilterAll<T>(p: T -> bool, s: seq<T>)
    requires forall x :: x in s ==> p(x)
    ensures Filter(p, s) == s
  {
    if s != [] {
      assert s[0] in s;
      FilterAll(p, s[1..]);
    }
  }
}
