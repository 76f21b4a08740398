/** The selects the theorem covers, and what their rewritten clauses do: FROM to LIMIT, on related databases. */
module SelectClauses {
  import opened Outcomes
  import opened Bytes
  import opened Sql
  import opened Config
  import opened Traversal
  import opened Rewriting
  import opened Semantics
  import opened Relation
  import opened Ordering
  import opened Grouping
  import opened JoinCorrectness
  import opened SelectCorrectness

  // --- the blind index mutator leaves join candidates alone ---

  lemma {:induction false} IndexKeepsCandidates(s: Setting, aliases: map<string, string>, e: Expr)
    ensures Candidates(JoinRole, IndexExpr(s, aliases, e)) == Candidates(JoinRole, e)
    decreases e, 1
  {
    if IsIndexCandidate(e) {
      var e' := IndexComparison(s, aliases, e);
      assert Candidates(JoinRole, e.left) == [] && Candidates(JoinRole, e.right) == [];
      assert Candidates(JoinRole, e'.left) == [] && Candidates(JoinRole, e'.right) == [];
    } else {
      match e
      case Bin(_, l, r) =>
        IndexKeepsColumns(s, aliases, l);
        IndexKeepsColumns(s, aliases, r);
        IndexKeepsCandidates(s, aliases, l);
        IndexKeepsCandidates(s, aliases, r);
      case Un(_, x) => IndexKeepsCandidates(s, aliases, x);
      case In(x, list) =>
        IndexKeepsCandidates(s, aliases, x);
        IndexListKeepsCandidates(s, aliases, list);
      case _ =>
    }
  }

  lemma {:induction false} IndexListKeepsCandidates(s: Setting, aliases: map<string, string>, es: seq<Expr>)
    ensures CandidatesOf(JoinRole, IndexExprs(s, aliases, es)) == CandidatesOf(JoinRole, es)
    decreases es, 0
  {
    if es != [] {
      IndexKeepsCandidates(s, aliases, es[0]);
      IndexListKeepsCandidates(s, aliases, es[1..]);
    }
  }

  lemma {:induction false} IndexKeepsFromCandidates(s: Setting, aliases: map<string, string>, tr: TableRef)
    requires Flat(tr)
    ensures FromCandidates(MapTableRef(IndexRewrite(s, aliases), tr)) == FromCandidates(tr)
    decreases tr, 1
  {
    match tr
    case TableJoin(l, r, c) =>
      IndexKeepsFromCandidates(s, aliases, l);
      IndexKeepsFromCandidates(s, aliases, r);
      IndexKeepsCandidates(s, aliases, c);
    case TableCrossProduct(list) => IndexListKeepsFromCandidates(s, aliases, list);
    case _ =>
  }

  lemma {:induction false} IndexListKeepsFromCandidates(s: Setting, aliases: map<string, string>, trs: seq<TableRef>)
    requires FlatList(trs)
    ensures FromTableRefs(CandidatesIn(JoinRole), MapTableRefs(IndexRewrite(s, aliases), trs)) ==
            FromTableRefs(CandidatesIn(JoinRole), trs)
    decreases trs, 0
  {
    if trs != [] {
      IndexKeepsFromCandidates(s, aliases, trs[0]);
      IndexListKeepsFromCandidates(s, aliases, trs[1..]);
    }
  }

  lemma {:induction false} ColumnsAreNoCandidates(list: seq<Expr>)
    requires forall i :: 0 <= i < |list| ==> list[i].Col?
    ensures FlatMap(CandidatesIn(JoinRole).body, list) == []
  {
    if list != [] { ColumnsAreNoCandidates(list[1..]); }
  }

  lemma {:induction false} GroupKeepsCandidates(s: Setting, aliases: map<string, string>, e: Expr)
    requires IsGroupKey(s.cfg, aliases, e)
    ensures Candidates(JoinRole, GroupExpr(s, aliases, e)) == Candidates(JoinRole, e)
    decreases e, 1
  {
    if IsIndexCandidate(e) {
      var e' := IndexComparison(s, aliases, e);
      assert Candidates(JoinRole, e.left) == [] && Candidates(JoinRole, e.right) == [];
      assert Candidates(JoinRole, e'.left) == [] && Candidates(JoinRole, e'.right) == [];
    } else {
      match e
      case Bin(_, l, r) =>
        GroupKeepsCandidates(s, aliases, l);
        GroupKeepsCandidates(s, aliases, r);
        assert l.Col? ==> GroupExpr(s, aliases, l) == l;
        assert r.Col? ==> GroupExpr(s, aliases, r) == r;
      case Un(_, x) => GroupKeepsCandidates(s, aliases, x);
      case In(x, list) =>
        GroupKeepsCandidates(s, aliases, x);
        GroupListKeepsCandidates(s, aliases, list);
      case _ =>
    }
  }

  lemma {:induction false} GroupListKeepsCandidates(s: Setting, aliases: map<string, string>, es: seq<Expr>)
    requires GroupableList(s.cfg, aliases, es)
    ensures CandidatesOf(JoinRole, GroupExprs(s, aliases, es)) == CandidatesOf(JoinRole, es)
    decreases es, 0
  {
    if es != [] {
      GroupKeepsCandidates(s, aliases, es[0]);
      GroupListKeepsCandidates(s, aliases, es[1..]);
    }
  }

  lemma {:induction false} FlatMapSame<T>(f: Expr -> seq<T>, es: seq<Expr>, es': seq<Expr>)
    requires |es| == |es'| && forall i :: 0 <= i < |es| ==> f(es[i]) == f(es'[i])
    ensures FlatMap(f, es) == FlatMap(f, es')
  {
    if es != [] { FlatMapSame(f, es[1..], es'[1..]); }
  }

  // --- the selects covered ---

  /** A list of qualified column references. */
  predicate ColumnList(list: seq<Expr>) {
    forall i :: 0 <= i < |list| ==> list[i].Col? && list[i].table.Some?
  }

  /** The plaintext and encrypted databases with the names of a select on them. */
  function SelectWorld(s: Setting, schema: Schema, plain: Database, stored: Database, ops: Operators, tr: TableRef)
    : WorldData
  {
    WorldData(s, schema, plain, stored, ops, AliasesOf(tr), ScopeOf(Tables(tr)))
  }

  /** The join candidates of a select, in the order of the traversal. */
  function SelectCandidates(sel: Select): seq<Expr> { CollectSelect(CandidatesIn(JoinRole), sel) }

  predicate DistinctTables(tables: seq<(string, string)>) {
    forall i, j :: 0 <= i < j < |tables| ==> tables[i].1 != tables[j].1
  }

  predicate Existing(w: WorldData, e: Expr)
    requires e.Col? && e.table.Some?
  {
    e.table.value in w.scope && w.scope[e.table.value] in w.schema && e.name in w.schema[w.scope[e.table.value]]
  }

  /** GROUP BY and HAVING: typed, and their indexed columns are keys, compared with literals, or tested for NULL. */
  ghost predicate CoveredGroup(w: WorldData, g: GroupBy) {
    && (forall i :: 0 <= i < |g.columns| ==>
          var e := g.columns[i];
          WellTyped(w.s.cfg, w.schema, w.scope, e) && IsGroupKey(w.s.cfg, w.aliases, e) && !e.Lit?)
    && (g.having.Some? ==>
          WellTyped(w.s.cfg, w.schema, w.scope, g.having.value) && Groupable(w.s.cfg, w.aliases, g.having.value))
  }

  /** ORDER BY: typed, and no position of an encrypted column. */
  predicate CoveredOrder(w: WorldData, list: seq<Expr>, e: Expr)
    requires ColumnList(list)
  {
    if IsPosition(list, e) then
      var c := OrderTarget(list, e);
      Existing(w, c) && !w.s.cfg.Encrypted(w.scope[c.table.value], c.name)
    else WellTyped(w.s.cfg, w.schema, w.scope, e)
  }

  /** Some candidate compares two columns on their truncated hashes. */
  ghost predicate Joining(w: WorldData, sel: Select) {
    exists c :: c in SelectCandidates(sel) && Joins(w.s.cfg, w.aliases, c)
  }

  /**
   * The selects the theorem covers: existing tables under distinct qualifiers, qualified existing columns.
   * One with a join equality also names no table twice, leaves no rows out before the filter sees them, and
   * sorts by a `<` that is an order.
   */
  ghost predicate Covered(w: WorldData, sel: Select) {
    && sel.from.Some? && TypedFrom(w, sel.from.value) && DistinctQualifiers(Tables(sel.from.value))
    && (sel.whereClause.Some? ==> TypedCondition(w, QualifierSet(Tables(sel.from.value)), sel.whereClause.value))
    && ColumnList(sel.selectList) && (forall i :: 0 <= i < |sel.selectList| ==> Existing(w, sel.selectList[i]))
    && (sel.groupBy.Some? ==> CoveredGroup(w, sel.groupBy.value))
    && (forall i :: 0 <= i < |sel.order| ==> CoveredOrder(w, sel.selectList, sel.order[i].expr))
    && !sel.union
    && (Joining(w, sel) ==> CoveredJoin(w, sel))
  }

  ghost predicate CoveredJoin(w: WorldData, sel: Select)
    requires sel.from.Some?
  {
    && DistinctTables(Tables(sel.from.value))
    && sel.groupBy.None? && sel.limit.None? && sel.offset.None?
    && (sel.order != [] ==> Orders(w.ops))
  }

  lemma CoveredParts(w: WorldData, sel: Select)
    requires Covered(w, sel)
    ensures sel.from.Some? && DistinctQualifiers(Tables(sel.from.value)) && ColumnList(sel.selectList)
  {
  }

  // --- the rewritten select ---

  function RewrittenSelect(w: WorldData, sel: Select): Select {
    MapSelect(JoinRewrite(w.s.cfg, w.aliases), MapSelect(IndexRewrite(w.s, w.aliases), sel))
  }

  function RewrittenOrder(w: WorldData, order: seq<OrderItem>): (r: seq<OrderItem>)
    ensures |r| == |order|
    ensures forall i :: 0 <= i < |r| ==> r[i] == OrderItem(w.Rewritten(order[i].expr), order[i].ascending)
  {
    seq(|order|, i requires 0 <= i < |order| => OrderItem(w.Rewritten(order[i].expr), order[i].ascending))
  }

  function RewrittenGroup(w: WorldData, g: GroupBy): GroupBy {
    GroupBy(RegroupedKeys(w, g.columns), if g.having.Some? then Some(Regrouped(w, g.having.value)) else None)
  }

  lemma GroupRewritten(w: WorldData, g: GroupBy)
    ensures
      var index, join := IndexRewrite(w.s, w.aliases), JoinRewrite(w.s.cfg, w.aliases);
      && MapExprs(join.group, MapExprs(index.group, g.columns)) == RegroupedKeys(w, g.columns)
      && MapOption(join.group, MapOption(index.group, g.having)) ==
           (if g.having.Some? then Some(Regrouped(w, g.having.value)) else None)
  {
  }

  /** A rewritten select: every clause rewritten, the list and the limits unchanged. */
  lemma RewrittenParts(w: WorldData, sel: Select)
    requires sel.from.Some? && ColumnList(sel.selectList)
    ensures
      RewrittenSelect(w, sel) ==
      Select(sel.selectList, Some(RewrittenFrom(w, sel.from.value)),
             if sel.whereClause.Some? then Some(w.Rewritten(sel.whereClause.value)) else None,
             if sel.groupBy.Some? then Some(RewrittenGroup(w, sel.groupBy.value)) else None,
             RewrittenOrder(w, sel.order), sel.limit, sel.offset, sel.union)
  {
    hide IndexExpr, JoinExpr, GroupExpr, MapTableRef;
    var sel1 := MapSelect(IndexRewrite(w.s, w.aliases), sel);
    ListUnchanged(w, sel.selectList);
    if sel.groupBy.Some? { GroupRewritten(w, sel.groupBy.value); }
    assert MapOrder(JoinRewrite(w.s.cfg, w.aliases).body, sel1.order) == RewrittenOrder(w, sel.order);
  }

  lemma ListUnchanged(w: WorldData, list: seq<Expr>)
    requires ColumnList(list)
    ensures MapExprs(IndexRewrite(w.s, w.aliases).body, list) == list
    ensures MapExprs(JoinRewrite(w.s.cfg, w.aliases).body, list) == list
  {
  }

  /** What the traversal of a select without derived tables visits, and the names it leaves. */
  lemma VisitSelectParts(role: Role, cfg: DatabaseConfig, sel: Select)
    requires sel.from.Some? && Flat(sel.from.value) && VisitSelect(role, cfg, NO_NAMES, sel).Ok?
    ensures VisitTableRef(role, cfg, NO_NAMES, sel.from.value).Ok?
    ensures
      var list := VisitExprs(role, cfg, true, WithAliases(NO_NAMES, AliasesOf(sel.from.value)), sel.selectList);
      && list == VisitSelect(role, cfg, NO_NAMES, sel)
      && VisitOption(role, cfg, list.value, sel.whereClause).Ok?
      && (sel.groupBy.Some? ==>
            && VisitExprs(role, cfg, false, list.value, sel.groupBy.value.columns).Ok?
            && VisitOption(role, cfg, list.value, sel.groupBy.value.having).Ok?)
      && VisitExprs(role, cfg, false, list.value, OrderExprs(sel.order)).Ok?
  {
    hide VisitExpr, VisitExprs, VisitTableRef;
    VisitFromNames(role, cfg, NO_NAMES, sel.from.value);
    var names1 := WithAliases(NO_NAMES, AliasesOf(sel.from.value));
    var names2 := VisitExprs(role, cfg, true, names1, sel.selectList).value;
    if sel.whereClause.Some? { VisitKeepsNames(role, cfg, names2, sel.whereClause.value); }
    if sel.groupBy.Some? {
      VisitListKeepsNames(role, cfg, names2, sel.groupBy.value.columns);
      if sel.groupBy.value.having.Some? { VisitKeepsNames(role, cfg, names2, sel.groupBy.value.having.value); }
    }
    VisitListKeepsNames(role, cfg, names2, OrderExprs(sel.order));
  }

  /** After the blind index mutator: the same tables, list and join candidates. */
  lemma IndexedSelect(w: WorldData, sel: Select)
    requires Covered(w, sel)
    ensures
      var sel1 := MapSelect(IndexRewrite(w.s, w.aliases), sel);
      && sel1.from.Some? && Flat(sel1.from.value) && AliasesOf(sel1.from.value) == AliasesOf(sel.from.value)
      && sel1.selectList == sel.selectList && SelectCandidates(sel1) == SelectCandidates(sel)
  {
    hide IndexExpr, GroupExpr, JoinExpr, WellTyped, TypedFrom, Joins, Candidates, FromTableRef, MapTableRef, Flat,
      AliasesOf, IsGroupKey;
    var sel1 := MapSelect(IndexRewrite(w.s, w.aliases), sel);
    TypedIsFlat(w, sel.from.value);
    MapKeepsTables(IndexRewrite(w.s, w.aliases), sel.from.value);
    MapKeepsAliases(IndexRewrite(w.s, w.aliases), sel.from.value);
    ListUnchanged(w, sel.selectList);
    IndexKeepsFromCandidates(w.s, w.aliases, sel.from.value);
    if sel.whereClause.Some? { IndexKeepsCandidates(w.s, w.aliases, sel.whereClause.value); }
    if sel.groupBy.Some? { GroupCandidates(w, sel.groupBy.value); }
    OrderCandidates(w, sel.order);
  }

  lemma GroupCandidates(w: WorldData, g: GroupBy)
    requires CoveredGroup(w, g)
    ensures
      var f, rewrite := CandidatesIn(JoinRole).group, IndexRewrite(w.s, w.aliases).group;
      && FlatMap(f, MapExprs(rewrite, g.columns)) == FlatMap(f, g.columns)
      && FromOption(f, MapOption(rewrite, g.having)) == FromOption(f, g.having)
  {
    hide Candidates, GroupExpr, WellTyped, Groupable;
    var keys := MapExprs(IndexRewrite(w.s, w.aliases).group, g.columns);
    forall i | 0 <= i < |g.columns| ensures Candidates(JoinRole, keys[i]) == Candidates(JoinRole, g.columns[i]) {
      GroupKeepsCandidates(w.s, w.aliases, g.columns[i]);
    }
    FlatMapSame(CandidatesIn(JoinRole).group, keys, g.columns);
    if g.having.Some? { GroupKeepsCandidates(w.s, w.aliases, g.having.value); }
  }

  lemma OrderCandidates(w: WorldData, order: seq<OrderItem>)
    ensures
      var f := CandidatesIn(JoinRole).body;
      FlatMap(f, OrderExprs(MapOrder(IndexRewrite(w.s, w.aliases).body, order))) == FlatMap(f, OrderExprs(order))
  {
    hide Candidates, IndexExpr;
    var es := OrderExprs(MapOrder(IndexRewrite(w.s, w.aliases).body, order));
    forall i | 0 <= i < |order| ensures Candidates(JoinRole, es[i]) == Candidates(JoinRole, order[i].expr) {
      IndexKeepsCandidates(w.s, w.aliases, order[i].expr);
    }
    FlatMapSame(CandidatesIn(JoinRole).body, es, OrderExprs(order));
  }

  // --- where the candidates of a select are ---

  /** The join candidates of FROM and WHERE. */
  function ConditionCandidates(sel: Select): seq<Expr>
    requires sel.from.Some?
  {
    FromCandidates(sel.from.value) + FromOption(CandidatesIn(JoinRole).body, sel.whereClause)
  }

  /** The join candidates of GROUP BY, HAVING and ORDER BY. */
  function LaterCandidates(sel: Select): seq<Expr> {
    (if sel.groupBy.Some? then
       FlatMap(CandidatesIn(JoinRole).group, sel.groupBy.value.columns) +
       FromOption(CandidatesIn(JoinRole).group, sel.groupBy.value.having)
     else []) +
    FlatMap(CandidatesIn(JoinRole).body, OrderExprs(sel.order))
  }

  lemma CandidatesSplit(sel: Select)
    requires sel.from.Some? && ColumnList(sel.selectList)
    ensures SelectCandidates(sel) == ConditionCandidates(sel) + LaterCandidates(sel)
  {
    hide Candidates, FromTableRef;
    ColumnsAreNoCandidates(sel.selectList);
    var from, where := FromCandidates(sel.from.value), FromOption(CandidatesIn(JoinRole).body, sel.whereClause);
    assert from + [] == from;
  }

  /** A candidate of an expression is as typed as the expression. */
  lemma {:induction false} CandidateTyped(cfg: DatabaseConfig, schema: Schema, scope: Scope, e: Expr, c: Expr)
    requires WellTyped(cfg, schema, scope, e) && c in Candidates(JoinRole, e)
    ensures IsJoinCandidate(c) && WellTyped(cfg, schema, scope, c)
    decreases e, 1
  {
    if IsJoinCandidate(e) {
      assert c == e;
    } else {
      match e
      case Bin(_, l, r) =>
        if c in Candidates(JoinRole, l) { CandidateTyped(cfg, schema, scope, l, c); }
        else { CandidateTyped(cfg, schema, scope, r, c); }
      case Un(_, x) => CandidateTyped(cfg, schema, scope, x, c);
      case In(x, list) =>
        if c in Candidates(JoinRole, x) { CandidateTyped(cfg, schema, scope, x, c); }
        else { CandidateOfTyped(cfg, schema, scope, list, c); }
      case _ =>
    }
  }

  lemma {:induction false} CandidateOfTyped(cfg: DatabaseConfig, schema: Schema, scope: Scope, es: seq<Expr>, c: Expr)
    requires WellTypedList(cfg, schema, scope, es) && c in CandidatesOf(JoinRole, es)
    ensures IsJoinCandidate(c) && WellTyped(cfg, schema, scope, c)
    decreases es, 0
  {
    if c in Candidates(JoinRole, es[0]) { CandidateTyped(cfg, schema, scope, es[0], c); }
    else { CandidateOfTyped(cfg, schema, scope, es[1..], c); }
  }

  lemma {:induction false} FlatMapFrom<T>(f: Expr -> seq<T>, es: seq<Expr>, x: T) returns (i: nat)
    requires x in FlatMap(f, es)
    ensures i < |es| && x in f(es[i])
  {
    if x in f(es[0]) {
      i := 0;
    } else {
      var j := FlatMapFrom(f, es[1..], x);
      i := j + 1;
    }
  }

  // --- FROM and WHERE ---

  /** What acceptance makes of the clauses of a covered select. */
  ghost predicate GoodClauses(w: WorldData, sel: Select) {
    && sel.from.Some? && GoodFrom(w, sel.from.value)
    && (sel.whereClause.Some? ==> GoodCondition(w, QualifierSet(Tables(sel.from.value)), sel.whereClause.value))
    && (sel.groupBy.Some? ==>
          && CheckedList(w.s.cfg, w.aliases, RegroupedKeys(w, sel.groupBy.value.columns))
          && (sel.groupBy.value.having.Some? ==>
            Checked(w.s.cfg, w.aliases, Regrouped(w, sel.groupBy.value.having.value))))
    && CheckedList(w.s.cfg, w.aliases, OrderExprs(RewrittenOrder(w, sel.order)))
  }

  lemma ClausesFlat(w: WorldData, sel: Select)
    requires GoodClauses(w, sel) && DistinctQualifiers(Tables(sel.from.value)) && ColumnList(sel.selectList)
    ensures Flat(sel.from.value) && RewrittenSelect(w, sel).from.Some? && Flat(RewrittenSelect(w, sel).from.value)
    ensures Tables(RewrittenSelect(w, sel).from.value) == Tables(sel.from.value)
  {
    hide GoodFrom, GoodCondition, CheckedList, Checked;
    RewrittenParts(w, sel);
    GoodFromWithin(w, sel.from.value);
    var tr1 := MapTableRef(IndexRewrite(w.s, w.aliases), sel.from.value);
    MapKeepsTables(IndexRewrite(w.s, w.aliases), sel.from.value);
    MapKeepsTables(JoinRewrite(w.s.cfg, w.aliases), tr1);
  }

  /** The kept combinations on which the join equalities of FROM and WHERE agree are the same in both databases. */
  lemma KeptFiltered(w: World, sel: Select)
    requires Covered(w, sel) && GoodClauses(w, sel) && w.scope == ScopeOf(Tables(sel.from.value))
    requires Flat(sel.from.value) && RewrittenSelect(w, sel).from.Some? && Flat(RewrittenSelect(w, sel).from.value)
    ensures
      var agree := Agreeing(w, ConditionCandidates(sel));
      Filter(agree, Kept(w.ops, w.plain, sel)) == Filter(agree, Kept(w.ops, w.stored, RewrittenSelect(w, sel)))
  {
    hide GoodFrom, GoodCondition, CheckedList, Checked, TypedFrom, TypedCondition, CoveredGroup, CoveredOrder,
      Simulates, ValidConfig;
    var tr := sel.from.value;
    RewrittenParts(w, sel);
    ClausesFlat(w, sel);
    FromIsFiltered(w, tr);
    if sel.whereClause.Some? {
      ConditionFilters(w, QualifierSet(Tables(tr)), sel.whereClause.value, FromCandidates(tr),
        Bindings(w.ops, w.plain, w.scope, tr), Bindings(w.ops, w.stored, w.scope, RewrittenFrom(w, tr)));
    } else {
      assert ConditionCandidates(sel) == FromCandidates(tr);
    }
  }

  /** The same for more candidates: their filter is part of the one before. */
  lemma KeptFilteredMore(w: World, sel: Select)
    requires Covered(w, sel) && GoodClauses(w, sel) && w.scope == ScopeOf(Tables(sel.from.value))
    requires Flat(sel.from.value) && RewrittenSelect(w, sel).from.Some? && Flat(RewrittenSelect(w, sel).from.value)
    ensures
      var agree := Agreeing(w, SelectCandidates(sel));
      Filter(agree, Kept(w.ops, w.plain, sel)) == Filter(agree, Kept(w.ops, w.stored, RewrittenSelect(w, sel)))
  {
    KeptFiltered(w, sel);
    CandidatesSplit(sel);
    hide GoodClauses, Covered, Simulates, ValidConfig, Kept, RewrittenSelect;
    var some, all := Agreeing(w, ConditionCandidates(sel)), Agreeing(w, SelectCandidates(sel));
    forall b ensures all(b) == (all(b) && some(b)) {
      AllAgreeConcat(w, b, ConditionCandidates(sel), LaterCandidates(sel));
    }
    FilterTwice(all, some, all, Kept(w.ops, w.plain, sel));
    FilterTwice(all, some, all, Kept(w.ops, w.stored, RewrittenSelect(w, sel)));
  }

  // --- ORDER BY ---

  /** The key an item of ORDER BY sorts by has its value on rows that agree. */
  lemma OrderKeySame(w: World, list: seq<Expr>, b: Binding, e: Expr)
    requires ColumnList(list) && CoveredOrder(w, list, e) && Checked(w.s.cfg, w.aliases, w.Rewritten(e))
    requires AllAgree(w, b, Candidates(JoinRole, e))
    ensures w.StoredValue(b, OrderTarget(list, w.Rewritten(e))) == w.PlainValue(b, OrderTarget(list, e))
  {
    hide ValidConfig, Simulates, Resolves, Checked, WellTyped, HasKind, Candidates, IndexExpr, JoinExpr;
    RewritingKeepsLiterals(w, e);
    if IsPosition(list, e) {
      var c := OrderTarget(list, e);
      CellRelated(w, b, c.table.value, c.name);
    } else {
      RewrittenAgrees(w, b, e);
    }
  }

  lemma CheckedOrder(w: WorldData, sel: Select, i: nat)
    requires GoodClauses(w, sel) && i < |sel.order|
    ensures Checked(w.s.cfg, w.aliases, w.Rewritten(sel.order[i].expr))
  {
    hide GoodFrom, GoodCondition, Checked, CheckedList, IndexExpr, JoinExpr;
    CheckedAt(w.s.cfg, w.aliases, OrderExprs(RewrittenOrder(w, sel.order)), i);
  }

  lemma AgreesOnOrder(w: WorldData, sel: Select, b: Binding, i: nat)
    requires sel.from.Some? && ColumnList(sel.selectList) && i < |sel.order| && AllAgree(w, b, SelectCandidates(sel))
    ensures AllAgree(w, b, Candidates(JoinRole, sel.order[i].expr))
  {
    hide Candidates, Joins;
    CandidatesSplit(sel);
    FlatMapIn(CandidatesIn(JoinRole).body, OrderExprs(sel.order), i);
  }

  /** The keys of ORDER BY on a combination. */
  function OrderKeys(ops: Operators, db: Database, scope: Scope, list: seq<Expr>, order: seq<OrderItem>, b: Binding)
    : (r: seq<Value>)
    ensures |r| == |order|
  {
    Values(ops, db, scope, b, OrderTargets(list, order))
  }

  lemma OrderKeysSame(w: World, sel: Select, b: Binding)
    requires Covered(w, sel) && GoodClauses(w, sel) && AllAgree(w, b, SelectCandidates(sel))
    ensures OrderKeys(w.ops, w.stored, w.scope, sel.selectList, RewrittenOrder(w, sel.order), b) ==
            OrderKeys(w.ops, w.plain, w.scope, sel.selectList, sel.order, b)
  {
    hide GoodFrom, GoodCondition, TypedFrom, CoveredGroup, Joining, AllAgree, Simulates, ValidConfig;
    forall i | 0 <= i < |sel.order|
      ensures w.StoredValue(b, OrderTarget(sel.selectList, w.Rewritten(sel.order[i].expr))) ==
              w.PlainValue(b, OrderTarget(sel.selectList, sel.order[i].expr))
    {
      CheckedOrder(w, sel, i);
      AgreesOnOrder(w, sel, b, i);
      OrderKeySame(w, sel.selectList, b, sel.order[i].expr);
    }
  }

  lemma {:induction false} EarlierSame(ops: Operators, o1: seq<OrderItem>, o2: seq<OrderItem>, ks: seq<Value>,
                                       ls: seq<Value>)
    requires |o1| == |o2| == |ks| == |ls| && forall i :: 0 <= i < |o1| ==> o1[i].ascending == o2[i].ascending
    ensures Earlier(ops, o1, ks, ls) == Earlier(ops, o2, ks, ls)
    decreases |o1|
  {
    if o1 != [] { EarlierSame(ops, o1[1..], o2[1..], ks[1..], ls[1..]); }
  }

  /** Combinations that agree come in the same order in both databases. */
  lemma BeforeSame(w: World, sel: Select, b: Binding, c: Binding)
    requires Covered(w, sel) && GoodClauses(w, sel)
    requires AllAgree(w, b, SelectCandidates(sel)) && AllAgree(w, c, SelectCandidates(sel))
    ensures Before(w.ops, w.stored, w.scope, sel.selectList, RewrittenOrder(w, sel.order))(b, c) ==
            Before(w.ops, w.plain, w.scope, sel.selectList, sel.order)(b, c)
  {
    hide Covered, GoodClauses, AllAgree, Simulates, ValidConfig, Earlier;
    OrderKeysSame(w, sel, b);
    OrderKeysSame(w, sel, c);
    EarlierSame(w.ops, RewrittenOrder(w, sel.order), sel.order,
      OrderKeys(w.ops, w.plain, w.scope, sel.selectList, sel.order, b),
      OrderKeys(w.ops, w.plain, w.scope, sel.selectList, sel.order, c));
  }

  lemma SortableOrder(ops: Operators, db: Database, scope: Scope, list: seq<Expr>, order: seq<OrderItem>)
    requires order != [] ==> Orders(ops)
    ensures WeakOrder(Before(ops, db, scope, list, order))
  {
    if order != [] { BeforeWeakly(ops, db, scope, list, order); }
  }

  /** Sorting first and filtering then, in both databases. */
  lemma SortedSame(w: World, sel: Select, ps: seq<Binding>, qs: seq<Binding>)
    requires Covered(w, sel) && GoodClauses(w, sel) && (sel.order != [] ==> Orders(w.ops))
    requires Filter(Agreeing(w, SelectCandidates(sel)), ps) == Filter(Agreeing(w, SelectCandidates(sel)), qs)
    ensures
      var agree := Agreeing(w, SelectCandidates(sel));
      Filter(agree, Sort(Before(w.ops, w.plain, w.scope, sel.selectList, sel.order), ps)) ==
      Filter(agree, Sort(Before(w.ops, w.stored, w.scope, sel.selectList, RewrittenOrder(w, sel.order)), qs))
  {
    hide Covered, GoodClauses, Simulates, ValidConfig, Orders, Before, WeakOrder;
    var agree, order' := Agreeing(w, SelectCandidates(sel)), RewrittenOrder(w, sel.order);
    var before := Before(w.ops, w.plain, w.scope, sel.selectList, sel.order);
    var before' := Before(w.ops, w.stored, w.scope, sel.selectList, order');
    SortableOrder(w.ops, w.plain, w.scope, sel.selectList, sel.order);
    SortableOrder(w.ops, w.stored, w.scope, sel.selectList, order');
    forall x, y | agree(x) && agree(y) ensures before(x, y) == before'(x, y) { BeforeSame(w, sel, x, y); }
    SortedAlike(agree, before, before', ps, qs);
  }

  // --- a select without join equalities: the same combinations in both databases ---

  lemma NotJoiningAgrees(w: WorldData, sel: Select, b: Binding)
    requires !Joining(w, sel)
    ensures AllAgree(w, b, SelectCandidates(sel))
  {
  }

  lemma GroupAgrees(w: WorldData, sel: Select, b: Binding)
    requires sel.from.Some? && ColumnList(sel.selectList) && sel.groupBy.Some? && AllAgree(w, b, SelectCandidates(sel))
    ensures forall i :: 0 <= i < |sel.groupBy.value.columns| ==>
              AllAgree(w, b, Candidates(JoinRole, sel.groupBy.value.columns[i]))
    ensures sel.groupBy.value.having.Some? ==> AllAgree(w, b, Candidates(JoinRole, sel.groupBy.value.having.value))
  {
    hide Candidates, Joins;
    CandidatesSplit(sel);
    var keys := sel.groupBy.value.columns;
    forall i | 0 <= i < |keys| ensures AllAgree(w, b, Candidates(JoinRole, keys[i])) {
      FlatMapIn(CandidatesIn(JoinRole).group, keys, i);
    }
  }

  lemma GroupsSame(w: World, sel: Select, bs: seq<Binding>)
    requires Covered(w, sel) && GoodClauses(w, sel) && !Joining(w, sel)
    ensures Grouped(w.ops, w.stored, w.scope, RewrittenSelect(w, sel).groupBy, bs) ==
            Grouped(w.ops, w.plain, w.scope, sel.groupBy, bs)
  {
    hide Simulates, ValidConfig, Joining, WellTyped, TypedFrom, GoodFrom, GoodCondition, AllAgree, CoveredOrder,
      CoveredJoin, SameGroup, RewrittenOrder, RewrittenSelect, CoveredGroup, Checked, CheckedList, IsGroupKey,
      Groupable, RewrittenFrom;
    RewrittenParts(w, sel);
    if sel.groupBy.Some? {
      var g := sel.groupBy.value;
      var g' := RewrittenGroup(w, g);
      var same, same' := SameGroup(w.ops, w.plain, w.scope, g.columns), SameGroup(w.ops, w.stored, w.scope, g'.columns);
      forall b, c ensures same(b, c) == same'(b, c) { GroupKeysSame(w, sel, b, c); }
      FirstsSame(same, same', bs);
      if g.having.Some? {
        var holds, holds' := Satisfying(w.ops, w.plain, w.scope, g.having.value),
          Satisfying(w.ops, w.stored, w.scope, g'.having.value);
        forall b ensures holds'(b) == holds(b) { HavingSame(w, sel, b); }
        FilterSame(holds', holds, FirstOfEach(same, bs));
      }
    }
  }

  lemma GroupKeysSame(w: World, sel: Select, b: Binding, c: Binding)
    requires Covered(w, sel) && GoodClauses(w, sel) && !Joining(w, sel) && sel.groupBy.Some?
    ensures
      var keys := sel.groupBy.value.columns;
      SameGroup(w.ops, w.stored, w.scope, RegroupedKeys(w, keys))(b, c) ==
        SameGroup(w.ops, w.plain, w.scope, keys)(b, c)
  {
    hide Simulates, ValidConfig, Joining, WellTyped, TypedFrom, GoodFrom, GoodCondition, AllAgree, CoveredOrder,
      SameGroup, Regrouped, Checked, CheckedList, IsGroupKey, Groupable;
    var keys := sel.groupBy.value.columns;
    NotJoiningAgrees(w, sel, b);
    NotJoiningAgrees(w, sel, c);
    GroupAgrees(w, sel, b);
    GroupAgrees(w, sel, c);
    forall i | 0 <= i < |keys| ensures KeyOf(w, b, c, keys[i]) {
      CheckedAt(w.s.cfg, w.aliases, RegroupedKeys(w, keys), i);
    }
    KeysSame(w, b, c, keys);
  }

  lemma HavingSame(w: World, sel: Select, b: Binding)
    requires Covered(w, sel) && GoodClauses(w, sel) && !Joining(w, sel)
    requires sel.groupBy.Some? && sel.groupBy.value.having.Some?
    ensures
      var h := sel.groupBy.value.having.value;
      w.StoredHolds(b, Regrouped(w, h)) == w.PlainHolds(b, h)
  {
    hide Simulates, ValidConfig, Joining, WellTyped, TypedFrom, GoodFrom, GoodCondition, AllAgree, CoveredOrder,
      Regrouped, Checked;
    NotJoiningAgrees(w, sel, b);
    GroupAgrees(w, sel, b);
    GroupedSame(w, b, sel.groupBy.value.having.value);
  }

  // --- the whole select ---

  /** What a select is answered with before LIMIT and OFFSET. */
  function Rows(ops: Operators, db: Database, scope: Scope, sel: Select, bs: seq<Binding>): seq<Binding> {
    Sort(Before(ops, db, scope, sel.selectList, sel.order), Grouped(ops, db, scope, sel.groupBy, bs))
  }

  lemma NotJoiningSame(w: World, sel: Select, ps: seq<Binding>, qs: seq<Binding>)
    requires Covered(w, sel) && GoodClauses(w, sel) && !Joining(w, sel)
    requires Filter(Agreeing(w, SelectCandidates(sel)), ps) == Filter(Agreeing(w, SelectCandidates(sel)), qs)
    ensures Rows(w.ops, w.plain, w.scope, sel, ps) == Rows(w.ops, w.stored, w.scope, RewrittenSelect(w, sel), qs)
  {
    hide Simulates, ValidConfig, Covered, GoodClauses, Joining, Before, Grouped, AllAgree, RewrittenFrom,
      RewrittenGroup;
    forall b ensures AllAgree(w, b, SelectCandidates(sel)) { NotJoiningAgrees(w, sel, b); }
    var agree := Agreeing(w, SelectCandidates(sel));
    FilterAll(agree, ps);
    FilterAll(agree, qs);
    GroupsSame(w, sel, ps);
    assert RewrittenSelect(w, sel).selectList == sel.selectList &&
      RewrittenSelect(w, sel).order == RewrittenOrder(w, sel.order) by {
      SelectParts(w, sel);
    }
    var before := Before(w.ops, w.plain, w.scope, sel.selectList, sel.order);
    var before' := Before(w.ops, w.stored, w.scope, sel.selectList, RewrittenOrder(w, sel.order));
    forall x, y ensures before(x, y) == before'(x, y) { BeforeSame(w, sel, x, y); }
    SortSame(before, before', Grouped(w.ops, w.plain, w.scope, sel.groupBy, ps));
  }

  lemma SelectParts(w: WorldData, sel: Select)
    requires Covered(w, sel)
    ensures
      var sel' := RewrittenSelect(w, sel);
      && sel'.selectList == sel.selectList && sel'.order == RewrittenOrder(w, sel.order)
      && sel'.limit == sel.limit && sel'.offset == sel.offset && (sel'.groupBy.None? <==> sel.groupBy.None?)
  {
    hide TypedFrom, TypedCondition, CoveredGroup, CoveredOrder, Joining, RewrittenSelect;
    RewrittenParts(w, sel);
  }

  /**
   * The rows a covered select is answered with, from FROM to LIMIT: those on which the columns of every join
   * equality agree are the same, in the same order, over the plaintext and over the encrypted database.
   */
  lemma AnsweredFiltered(w: World, sel: Select)
    requires Covered(w, sel) && GoodClauses(w, sel) && w.scope == ScopeOf(Tables(sel.from.value))
    ensures Flat(sel.from.value) && RewrittenSelect(w, sel).from.Some? && Flat(RewrittenSelect(w, sel).from.value)
    ensures
      var agree := Agreeing(w, SelectCandidates(sel));
      Filter(agree, Answered(w.ops, w.plain, sel)) == Filter(agree, Answered(w.ops, w.stored, RewrittenSelect(w, sel)))
  {
    ClausesFlat(w, sel);
    KeptFilteredMore(w, sel);
    SelectParts(w, sel);
    hide Simulates, ValidConfig, GoodClauses, TypedFrom, TypedCondition, CoveredGroup, CoveredOrder, Joining, Before,
      Kept, RewrittenSelect, Sort;
    var ps, qs := Kept(w.ops, w.plain, sel), Kept(w.ops, w.stored, RewrittenSelect(w, sel));
    if Joining(w, sel) {
      SortedSame(w, sel, ps, qs);
    } else {
      NotJoiningSame(w, sel, ps, qs);
    }
  }

  // --- conjoined join equalities ---

  /** Every join equality is a conjunct of ON or WHERE. */
  ghost predicate Conjoined(w: WorldData, sel: Select)
    requires sel.from.Some?
  {
    && ConjoinedFrom(w, sel.from.value)
    && (sel.whereClause.Some? ==> TopLevelJoins(w.s.cfg, w.aliases, sel.whereClause.value))
    && forall c :: c in LaterCandidates(sel) ==> !Joins(w.s.cfg, w.aliases, c)
  }

  /** Every row of the answer agrees on the columns of every join equality. */
  ghost predicate AllRowsAgree(w: WorldData, sel: Select)
    requires sel.from.Some? && Flat(sel.from.value)
  {
    forall b :: b in Answered(w.ops, w.plain, sel) ==> AllAgree(w, b, SelectCandidates(sel))
  }

  lemma KeptAgrees(w: World, sel: Select, b: Binding)
    requires Covered(w, sel) && GoodClauses(w, sel) && w.scope == ScopeOf(Tables(sel.from.value)) && Conjoined(w, sel)
    requires Flat(sel.from.value) && b in Kept(w.ops, w.plain, sel)
    ensures AllAgree(w, b, SelectCandidates(sel))
  {
    hide GoodFrom, CheckedList, Checked, TypedFrom, CoveredGroup, CoveredOrder, Simulates, ValidConfig, TopLevelJoins,
      ConjoinedFrom, Joining, CandidatesWithin, WellTyped;
    var tr := sel.from.value;
    var bs := Bindings(w.ops, w.plain, w.scope, tr);
    if sel.whereClause.Some? {
      FilterIn(Satisfying(w.ops, w.plain, w.scope, sel.whereClause.value), bs);
      HoldingAgrees(w, b, sel.whereClause.value);
    }
    CombinationAgrees(w, tr, b);
    CandidatesSplit(sel);
    AllAgreeConcat(w, b, FromCandidates(tr), FromOption(CandidatesIn(JoinRole).body, sel.whereClause));
    AllAgreeConcat(w, b, ConditionCandidates(sel), LaterCandidates(sel));
  }

  /** With conjoined join equalities every row of the answer agrees. */
  lemma ConjoinedAgrees(w: World, sel: Select)
    requires Covered(w, sel) && GoodClauses(w, sel) && w.scope == ScopeOf(Tables(sel.from.value)) && Conjoined(w, sel)
    ensures Flat(sel.from.value) && AllRowsAgree(w, sel)
  {
    hide GoodClauses, Conjoined, Simulates, ValidConfig, TypedFrom, TypedCondition, CoveredGroup, CoveredOrder,
      Joining, Before, Kept, AllAgree;
    ClausesFlat(w, sel);
    forall b | b in Answered(w.ops, w.plain, sel) ensures AllAgree(w, b, SelectCandidates(sel)) {
      if Joining(w, sel) {
        SortPermutes(Before(w.ops, w.plain, w.scope, sel.selectList, sel.order), Kept(w.ops, w.plain, sel));
        KeptAgrees(w, sel, b);
      } else {
        NotJoiningAgrees(w, sel, b);
      }
    }
  }
}
