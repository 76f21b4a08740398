/** A rewritten SELECT over the encrypted database, with its results processed, is the original SELECT. */
module SelectCorrectness {
  import opened Outcomes
  import opened Bytes
  import opened Crypto
  import opened Sql
  import opened Config
  import opened Traversal
  import opened Rewriting
  import opened Semantics
  import opened Relation
  import opened JoinCorrectness
  import opened Results

  // --- the names a traversal leaves ---

  /** Traversing an expression outside a select body registers nothing. */
  lemma {:induction false} VisitKeepsNames(role: Role, cfg: DatabaseConfig, names: Names, e: Expr)
    requires VisitExpr(role, cfg, false, names, e).Ok?
    ensures VisitExpr(role, cfg, false, names, e).value == names
    decreases e, 1
  {
    if !IsCandidate(role, e) {
      match e
      case Bin(_, l, r) =>
        VisitKeepsNames(role, cfg, names, l);
        VisitKeepsNames(role, cfg, names, r);
      case Un(_, x) => VisitKeepsNames(role, cfg, names, x);
      case In(x, list) =>
        VisitKeepsNames(role, cfg, names, x);
        VisitListKeepsNames(role, cfg, names, list);
      case _ =>
    }
  }

  lemma {:induction false} VisitListKeepsNames(role: Role, cfg: DatabaseConfig, names: Names, es: seq<Expr>)
    requires VisitExprs(role, cfg, false, names, es).Ok?
    ensures VisitExprs(role, cfg, false, names, es).value == names
    decreases es, 0
  {
    if es != [] {
      VisitKeepsNames(role, cfg, names, es[0]);
      VisitListKeepsNames(role, cfg, names, es[1..]);
    }
  }

  /** The aliases of a FROM clause without derived tables. */
  function AliasesOf(tr: TableRef): map<string, string>
    decreases tr, 1
  {
    match tr
    case TableName(n, a) => if a.Some? then map[a.value := n] else map[]
    case TableSelect(_) => map[]
    case TableJoin(l, r, _) => AliasesOf(l) + AliasesOf(r)
    case TableCrossProduct(list) => AliasesOfList(list)
  }

  function AliasesOfList(trs: seq<TableRef>): map<string, string>
    decreases trs, 0
  {
    if trs == [] then map[] else AliasesOf(trs[0]) + AliasesOfList(trs[1..])
  }

  /** The names after registering more aliases. */
  function WithAliases(names: Names, aliases: map<string, string>): Names {
    Names(names.aliases + aliases, names.selected, names.labels)
  }

  lemma WithAliasesTwice(names: Names, a1: map<string, string>, a2: map<string, string>)
    ensures WithAliases(WithAliases(names, a1), a2) == WithAliases(names, a1 + a2)
  {
    assert (names.aliases + a1) + a2 == names.aliases + (a1 + a2);
  }

  lemma WithNoAliases(names: Names)
    ensures WithAliases(names, map[]) == names
  {
    assert names.aliases + map[] == names.aliases;
  }

  lemma {:induction false} VisitFromNames(role: Role, cfg: DatabaseConfig, names: Names, tr: TableRef)
    requires Flat(tr) && VisitTableRef(role, cfg, names, tr).Ok?
    ensures VisitTableRef(role, cfg, names, tr).value == WithAliases(names, AliasesOf(tr))
    decreases tr, 1
  {
    match tr
    case TableName(n, a) =>
      WithNoAliases(names);
      if a.Some? { assert names.aliases[a.value := n] == names.aliases + map[a.value := n]; }
    case TableJoin(l, r, c) =>
      VisitFromNames(role, cfg, names, l);
      var names1 := WithAliases(names, AliasesOf(l));
      VisitFromNames(role, cfg, names1, r);
      VisitKeepsNames(role, cfg, WithAliases(names1, AliasesOf(r)), c);
      WithAliasesTwice(names, AliasesOf(l), AliasesOf(r));
    case TableCrossProduct(list) => VisitFromListNames(role, cfg, names, list);
  }

  lemma {:induction false} VisitFromListNames(role: Role, cfg: DatabaseConfig, names: Names, trs: seq<TableRef>)
    requires FlatList(trs) && VisitTableRefs(role, cfg, names, trs).Ok?
    ensures VisitTableRefs(role, cfg, names, trs).value == WithAliases(names, AliasesOfList(trs))
    decreases trs, 0
  {
    if trs == [] {
      WithNoAliases(names);
    } else {
      VisitFromNames(role, cfg, names, trs[0]);
      VisitFromListNames(role, cfg, WithAliases(names, AliasesOf(trs[0])), trs[1..]);
      WithAliasesTwice(names, AliasesOf(trs[0]), AliasesOfList(trs[1..]));
    }
  }

  // --- aliases resolve to the scope of a FROM clause ---

  /** Each table is the one its qualifier has in the scope. */
  predicate InScope(scope: Scope, tables: seq<(string, string)>) {
    forall i :: 0 <= i < |tables| ==> tables[i].0 in scope && scope[tables[i].0] == tables[i].1
  }

  lemma {:induction false} ScopeOfTables(tables: seq<(string, string)>)
    requires DistinctQualifiers(tables)
    ensures InScope(ScopeOf(tables), tables) && ScopeOf(tables).Keys == QualifierSet(tables)
  {
    if tables != [] {
      QualifiersConcat(tables[..1], tables[1..]) by { assert tables[..1] + tables[1..] == tables; }
      assert tables[..1] + tables[1..] == tables;
      ScopeOfTables(tables[1..]);
      assert QualifierSet(tables[..1]) == {tables[0].0} by { assert tables[..1][0] == tables[0]; }
      forall i | 0 <= i < |tables|
        ensures tables[i].0 in ScopeOf(tables) && ScopeOf(tables)[tables[i].0] == tables[i].1
      {
        if i > 0 { assert tables[1..][i - 1] == tables[i] && tables[0].0 != tables[i].0; }
      }
    }
  }

  predicate ResolvesOn(aliases: map<string, string>, scope: Scope, quals: set<string>) {
    forall q :: q in quals ==> q in scope && Resolve(aliases, q) == scope[q]
  }

  lemma InScopeConcat(scope: Scope, t1: seq<(string, string)>, t2: seq<(string, string)>)
    requires InScope(scope, t1 + t2)
    ensures InScope(scope, t1) && InScope(scope, t2)
  {
    forall i | 0 <= i < |t1| ensures t1[i].0 in scope && scope[t1[i].0] == t1[i].1 { assert (t1 + t2)[i] == t1[i]; }
    forall i | 0 <= i < |t2| ensures t2[i].0 in scope && scope[t2[i].0] == t2[i].1 {
      assert (t1 + t2)[|t1| + i] == t2[i];
    }
  }

  lemma {:induction false} AliasesResolve(scope: Scope, tr: TableRef)
    requires Flat(tr) && DistinctQualifiers(Tables(tr)) && InScope(scope, Tables(tr))
    ensures AliasesOf(tr).Keys <= QualifierSet(Tables(tr)) && ResolvesOn(AliasesOf(tr), scope, QualifierSet(Tables(tr)))
    decreases tr, 1
  {
    match tr
    case TableName(n, a) => assert Tables(tr)[0] == (Qualifier(tr), n);
    case TableJoin(l, r, _) =>
      QualifiersConcat(Tables(l), Tables(r));
      InScopeConcat(scope, Tables(l), Tables(r));
      AliasesResolve(scope, l);
      AliasesResolve(scope, r);
    case TableCrossProduct(list) => AliasesListResolve(scope, list);
  }

  lemma {:induction false} AliasesListResolve(scope: Scope, trs: seq<TableRef>)
    requires FlatList(trs) && DistinctQualifiers(TablesList(trs)) && InScope(scope, TablesList(trs))
    ensures AliasesOfList(trs).Keys <= QualifierSet(TablesList(trs))
    ensures ResolvesOn(AliasesOfList(trs), scope, QualifierSet(TablesList(trs)))
    decreases trs, 0
  {
    if trs != [] {
      QualifiersConcat(Tables(trs[0]), TablesList(trs[1..]));
      InScopeConcat(scope, Tables(trs[0]), TablesList(trs[1..]));
      AliasesResolve(scope, trs[0]);
      AliasesListResolve(scope, trs[1..]);
    }
  }

  // --- conditions the chain accepted are checked under the final aliases ---

  /** Every qualified column of the expression names one of these tables. */
  predicate ColumnsWithin(quals: set<string>, e: Expr)
    decreases e, 1
  {
    match e
    case Col(Some(q), _, _) => q in quals
    case Bin(_, l, r) => ColumnsWithin(quals, l) && ColumnsWithin(quals, r)
    case Un(_, x) => ColumnsWithin(quals, x)
    case In(x, list) => ColumnsWithin(quals, x) && ColumnsWithinList(quals, list)
    case _ => true
  }

  predicate ColumnsWithinList(quals: set<string>, es: seq<Expr>)
    decreases es, 0
  {
    es == [] || (ColumnsWithin(quals, es[0]) && ColumnsWithinList(quals, es[1..]))
  }

  lemma {:induction false} RewrittenWithin(w: WorldData, quals: set<string>, e: Expr)
    requires ColumnsWithin(quals, e)
    ensures ColumnsWithin(quals, w.Rewritten(e))
    decreases e, 1
  {
    IndexWithin(w, quals, e);
    JoinWithin(w, quals, IndexExpr(w.s, w.aliases, e));
  }

  lemma {:induction false} IndexWithin(w: WorldData, quals: set<string>, e: Expr)
    requires ColumnsWithin(quals, e)
    ensures ColumnsWithin(quals, IndexExpr(w.s, w.aliases, e))
    decreases e, 1
  {
    if IsIndexCandidate(e) {
      var e' := IndexComparison(w.s, w.aliases, e);
      assert ColumnsWithin(quals, e.left) ==> ColumnsWithin(quals, e'.left);
    } else {
      match e
      case Bin(_, l, r) =>
        IndexWithin(w, quals, l);
        IndexWithin(w, quals, r);
      case Un(_, x) => IndexWithin(w, quals, x);
      case In(x, list) =>
        IndexWithin(w, quals, x);
        IndexListWithin(w, quals, list);
      case _ =>
    }
  }

  lemma {:induction false} IndexListWithin(w: WorldData, quals: set<string>, es: seq<Expr>)
    requires ColumnsWithinList(quals, es)
    ensures ColumnsWithinList(quals, IndexExprs(w.s, w.aliases, es))
    decreases es, 0
  {
    if es != [] {
      IndexWithin(w, quals, es[0]);
      IndexListWithin(w, quals, es[1..]);
    }
  }

  lemma {:induction false} JoinWithin(w: WorldData, quals: set<string>, e: Expr)
    requires ColumnsWithin(quals, e)
    ensures ColumnsWithin(quals, JoinExpr(w.s.cfg, w.aliases, e))
    decreases e, 1
  {
    if Joins(w.s.cfg, w.aliases, e) {
      var e' := JoinComparison(w.s.cfg, w.aliases, e);
      assert ColumnsWithin(quals, e.left) && ColumnsWithin(quals, e.right);
      assert ColumnsWithin(quals, e'.left) && ColumnsWithin(quals, e'.right);
    } else {
      match e
      case Bin(_, l, r) =>
        JoinWithin(w, quals, l);
        JoinWithin(w, quals, r);
      case Un(_, x) => JoinWithin(w, quals, x);
      case In(x, list) =>
        JoinWithin(w, quals, x);
        JoinListWithin(w, quals, list);
      case _ =>
    }
  }

  lemma {:induction false} JoinListWithin(w: WorldData, quals: set<string>, es: seq<Expr>)
    requires ColumnsWithinList(quals, es)
    ensures ColumnsWithinList(quals, JoinExprs(w.s.cfg, w.aliases, es))
    decreases es, 0
  {
    if es != [] {
      JoinWithin(w, quals, es[0]);
      JoinListWithin(w, quals, es[1..]);
    }
  }

  lemma {:induction false} CandidatesInside(quals: set<string>, e: Expr)
    requires ColumnsWithin(quals, e)
    ensures CandidatesWithin(quals, Candidates(JoinRole, e))
    decreases e, 1
  {
    if IsJoinCandidate(e) {
      assert ColumnsWithin(quals, e.left) && ColumnsWithin(quals, e.right);
    } else {
      match e
      case Bin(_, l, r) =>
        CandidatesInside(quals, l);
        CandidatesInside(quals, r);
      case Un(_, x) => CandidatesInside(quals, x);
      case In(x, list) =>
        CandidatesInside(quals, x);
        CandidatesListInside(quals, list);
      case _ =>
    }
  }

  lemma {:induction false} CandidatesListInside(quals: set<string>, es: seq<Expr>)
    requires ColumnsWithinList(quals, es)
    ensures CandidatesWithin(quals, CandidatesOf(JoinRole, es))
    decreases es, 0
  {
    if es != [] {
      CandidatesInside(quals, es[0]);
      CandidatesListInside(quals, es[1..]);
    }
  }

  lemma {:induction false} CheckedSame(cfg: DatabaseConfig, a1: map<string, string>, a2: map<string, string>,
                                       quals: set<string>, e: Expr)
    requires ColumnsWithin(quals, e) && forall q :: q in quals ==> Resolve(a1, q) == Resolve(a2, q)
    ensures Checked(cfg, a1, e) <==> Checked(cfg, a2, e)
    decreases e, 1
  {
    match e
    case Bin(_, l, r) =>
      CheckedSame(cfg, a1, a2, quals, l);
      CheckedSame(cfg, a1, a2, quals, r);
    case Un(_, x) => CheckedSame(cfg, a1, a2, quals, x);
    case In(x, list) =>
      CheckedSame(cfg, a1, a2, quals, x);
      CheckedListSame(cfg, a1, a2, quals, list);
    case _ =>
  }

  lemma {:induction false} CheckedListSame(cfg: DatabaseConfig, a1: map<string, string>, a2: map<string, string>,
                                           quals: set<string>, es: seq<Expr>)
    requires ColumnsWithinList(quals, es) && forall q :: q in quals ==> Resolve(a1, q) == Resolve(a2, q)
    ensures CheckedList(cfg, a1, es) <==> CheckedList(cfg, a2, es)
    decreases es, 0
  {
    if es != [] {
      CheckedSame(cfg, a1, a2, quals, es[0]);
      CheckedListSame(cfg, a1, a2, quals, es[1..]);
    }
  }

  /** What is asked of the conditions of a select: typed and scoped. */
  ghost predicate TypedCondition(w: WorldData, quals: set<string>, e: Expr) {
    WellTyped(w.s.cfg, w.schema, w.scope, e) && ColumnsWithin(quals, e)
  }

  ghost predicate TypedFrom(w: WorldData, tr: TableRef)
    decreases tr, 1
  {
    match tr
    case TableName(n, _) => n in w.schema
    case TableSelect(_) => false
    case TableJoin(l, r, c) => TypedFrom(w, l) && TypedFrom(w, r) && TypedCondition(w, QualifierSet(Tables(tr)), c)
    case TableCrossProduct(list) => TypedFromList(w, list)
  }

  ghost predicate TypedFromList(w: WorldData, trs: seq<TableRef>)
    decreases trs, 0
  {
    trs == [] || (TypedFrom(w, trs[0]) && TypedFromList(w, trs[1..]))
  }

  lemma AcceptedCondition(w: WorldData, quals: set<string>, names: Names, e: Expr)
    requires TypedCondition(w, quals, e) && Resolves(w.aliases, w.scope) && ResolvesOn(names.aliases, w.scope, quals)
    requires VisitExpr(EncryptionRole, w.s.cfg, false, names, w.Rewritten(e)).Ok?
    ensures GoodCondition(w, quals, e)
  {
    CheckedIffVisited(w.s.cfg, names, w.Rewritten(e));
    RewrittenWithin(w, quals, e);
    CheckedSame(w.s.cfg, names.aliases, w.aliases, quals, w.Rewritten(e));
    CandidatesInside(quals, e);
  }

  lemma {:induction false} TypedIsFlat(w: WorldData, tr: TableRef)
    requires TypedFrom(w, tr)
    ensures Flat(tr)
    decreases tr, 1
  {
    match tr
    case TableJoin(l, r, _) =>
      TypedIsFlat(w, l);
      TypedIsFlat(w, r);
    case TableCrossProduct(list) => TypedListIsFlat(w, list);
    case _ =>
  }

  lemma {:induction false} TypedListIsFlat(w: WorldData, trs: seq<TableRef>)
    requires TypedFromList(w, trs)
    ensures FlatList(trs)
    decreases trs, 0
  {
    if trs != [] {
      TypedIsFlat(w, trs[0]);
      TypedListIsFlat(w, trs[1..]);
    }
  }

  /** Aliases of other tables do not disturb those of this FROM clause. */
  lemma ResolvesAdd(a1: map<string, string>, a2: map<string, string>, scope: Scope, quals: set<string>)
    requires ResolvesOn(a2, scope, quals) && a1.Keys !! quals
    ensures ResolvesOn(a1 + a2, scope, quals)
  {
  }

  // --- an accepted FROM clause is good ---

  lemma {:induction false} AcceptedFrom(w: WorldData, names: Names, tr: TableRef)
    requires TypedFrom(w, tr) && DistinctQualifiers(Tables(tr)) && InScope(w.scope, Tables(tr))
    requires Resolves(w.aliases, w.scope) && names.aliases.Keys !! QualifierSet(Tables(tr))
    requires VisitTableRef(EncryptionRole, w.s.cfg, names, RewrittenFrom(w, tr)).Ok?
    ensures GoodFrom(w, tr)
    decreases tr, 1
  {
    match tr
    case TableName(_, _) =>
    case TableJoin(l, r, c) =>
      var l', r' := RewrittenFrom(w, l), RewrittenFrom(w, r);
      assert RewrittenFrom(w, tr) == TableJoin(l', r', w.Rewritten(c));
      QualifiersConcat(Tables(l), Tables(r));
      InScopeConcat(w.scope, Tables(l), Tables(r));
      AcceptedFrom(w, names, l);
      RewrittenAliases(w, l);
      VisitFromNames(EncryptionRole, w.s.cfg, names, l');
      var names1 := WithAliases(names, AliasesOf(l));
      AliasesResolve(w.scope, l);
      AcceptedFrom(w, names1, r);
      RewrittenAliases(w, r);
      VisitFromNames(EncryptionRole, w.s.cfg, names1, r');
      AliasesResolve(w.scope, tr);
      WithAliasesTwice(names, AliasesOf(l), AliasesOf(r));
      ResolvesAdd(names.aliases, AliasesOf(tr), w.scope, QualifierSet(Tables(tr)));
      AcceptedCondition(w, QualifierSet(Tables(tr)), WithAliases(names, AliasesOf(tr)), c);
    case TableCrossProduct(list) => AcceptedFromList(w, names, list);
  }

  lemma {:induction false} AcceptedFromList(w: WorldData, names: Names, trs: seq<TableRef>)
    requires TypedFromList(w, trs) && DistinctQualifiers(TablesList(trs)) && InScope(w.scope, TablesList(trs))
    requires Resolves(w.aliases, w.scope) && names.aliases.Keys !! QualifierSet(TablesList(trs))
    requires VisitTableRefs(EncryptionRole, w.s.cfg, names, RewrittenFromList(w, trs)).Ok?
    ensures GoodFromList(w, trs)
    decreases trs, 0
  {
    if trs != [] {
      var first, rest := trs[0], trs[1..];
      assert RewrittenFromList(w, trs) == [RewrittenFrom(w, first)] + RewrittenFromList(w, rest);
      QualifiersConcat(Tables(first), TablesList(rest));
      InScopeConcat(w.scope, Tables(first), TablesList(rest));
      AcceptedFrom(w, names, first);
      RewrittenAliases(w, first);
      VisitFromNames(EncryptionRole, w.s.cfg, names, RewrittenFrom(w, first));
      AliasesResolve(w.scope, first);
      AcceptedFromList(w, WithAliases(names, AliasesOf(first)), rest);
    }
  }

  /** Rewriting conditions leaves the tables and their aliases alone. */
  lemma RewrittenAliases(w: WorldData, tr: TableRef)
    requires TypedFrom(w, tr)
    ensures Flat(tr) && Flat(RewrittenFrom(w, tr))
    ensures AliasesOf(RewrittenFrom(w, tr)) == AliasesOf(tr) && Tables(RewrittenFrom(w, tr)) == Tables(tr)
  {
    TypedIsFlat(w, tr);
    var tr1 := MapTableRef(IndexRewrite(w.s, w.aliases), tr);
    MapKeepsTables(IndexRewrite(w.s, w.aliases), tr);
    MapKeepsTables(JoinRewrite(w.s.cfg, w.aliases), tr1);
    MapKeepsAliases(IndexRewrite(w.s, w.aliases), tr);
    MapKeepsAliases(JoinRewrite(w.s.cfg, w.aliases), tr1);
  }

  lemma {:induction false} MapKeepsAliases(r: Rewrite, tr: TableRef)
    ensures AliasesOf(MapTableRef(r, tr)) == AliasesOf(tr)
    decreases tr, 1
  {
    match tr
    case TableJoin(left, right, _) =>
      MapKeepsAliases(r, left);
      MapKeepsAliases(r, right);
    case TableCrossProduct(list) => MapListKeepsAliases(r, list);
    case _ =>
  }

  lemma {:induction false} MapListKeepsAliases(r: Rewrite, trs: seq<TableRef>)
    ensures AliasesOfList(MapTableRefs(r, trs)) == AliasesOfList(trs)
    decreases trs, 0
  {
    if trs != [] {
      MapKeepsAliases(r, trs[0]);
      MapListKeepsAliases(r, trs[1..]);
    }
  }
}
