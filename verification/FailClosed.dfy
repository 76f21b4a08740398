/** An accepted statement uses no encrypted column outside select bodies and writes no plaintext to one. */
module FailClosed {
  import opened Outcomes
  import opened Bytes
  import opened Crypto
  import opened Sql
  import opened Config
  import opened Traversal
  import opened Rewriting
  import opened Semantics
  import opened Relation
  import opened SelectCorrectness
  import opened WriteSimulation

  // --- the tables a column may belong to ---

  /** The columns of an expression that belong to tables of this scope are plain, and all are qualified. */
  predicate Clean(cfg: DatabaseConfig, scope: Scope, e: Expr)
    decreases e, 1
  {
    match e
    case Col(Some(q), n, _) => q in scope ==> !cfg.Encrypted(scope[q], n)
    case Col(None, _, _) => false
    case Bin(_, l, r) => Clean(cfg, scope, l) && Clean(cfg, scope, r)
    case Un(_, x) => Clean(cfg, scope, x)
    case In(x, list) => Clean(cfg, scope, x) && CleanList(cfg, scope, list)
    case _ => true
  }

  predicate CleanList(cfg: DatabaseConfig, scope: Scope, es: seq<Expr>)
    decreases es, 0
  {
    es == [] || (Clean(cfg, scope, es[0]) && CleanList(cfg, scope, es[1..]))
  }

  predicate CleanOption(cfg: DatabaseConfig, scope: Scope, e: Option<Expr>) {
    e.Some? ==> Clean(cfg, scope, e.value)
  }

  /** No encrypted column of the select's own tables occurs outside its body, at any depth. */
  predicate ClosedSelect(cfg: DatabaseConfig, s: Select)
    decreases s, 1
  {
    var scope := if s.from.Some? then ScopeOf(Tables(s.from.value)) else map[];
    && (s.from.Some? ==> ClosedFrom(cfg, s.from.value))
    && CleanOption(cfg, scope, s.whereClause)
    && (s.groupBy.Some? ==> CleanList(cfg, scope, s.groupBy.value.columns) && CleanOption(cfg, scope,
      s.groupBy.value.having))
    && CleanList(cfg, scope, OrderExprs(s.order))
  }

  /** Derived tables are closed, and a join's condition uses no encrypted column of its tables. */
  predicate ClosedFrom(cfg: DatabaseConfig, tr: TableRef)
    decreases tr, 1
  {
    match tr
    case TableName(_, _) => true
    case TableSelect(s) => ClosedSelect(cfg, s)
    case TableJoin(l, r, c) => ClosedFrom(cfg, l) && ClosedFrom(cfg, r) && Clean(cfg, ScopeOf(Tables(tr)), c)
    case TableCrossProduct(list) => ClosedFromList(cfg, list)
  }

  predicate ClosedFromList(cfg: DatabaseConfig, trs: seq<TableRef>)
    decreases trs, 0
  {
    trs == [] || (ClosedFrom(cfg, trs[0]) && ClosedFromList(cfg, trs[1..]))
  }

  function UpdateScope(table: string, alias: Option<string>): Scope {
    map[(if alias.Some? then alias.value else table) := table]
  }

  predicate ClosedStatement(cfg: DatabaseConfig, st: Statement) {
    match st
    case SelectStmt(s) => ClosedSelect(cfg, s)
    case InsertValues(t, _, values) => CleanList(cfg, map[t := t], values)
    case InsertSelect(_, s) => ClosedSelect(cfg, s)
    case Update(t, a, updates, w) =>
      CleanList(cfg, UpdateScope(t, a), ClauseValues(updates)) && CleanOption(cfg, UpdateScope(t, a), w)
    case Delete => true
  }

  // --- when the visitor's alias table agrees with the scopes ---

  /** The aliases the traversal knows after a FROM clause, derived tables included. */
  function AliasesAfter(aliases: map<string, string>, tr: TableRef): map<string, string>
    decreases tr, 1
  {
    match tr
    case TableName(n, a) => if a.Some? then aliases[a.value := n] else aliases
    case TableSelect(s) => AliasesAfterSelect(aliases, s)
    case TableJoin(l, r, _) => AliasesAfter(AliasesAfter(aliases, l), r)
    case TableCrossProduct(list) => AliasesAfterList(aliases, list)
  }

  function AliasesAfterList(aliases: map<string, string>, trs: seq<TableRef>): map<string, string>
    decreases trs, 0
  {
    if trs == [] then aliases else AliasesAfterList(AliasesAfter(aliases, trs[0]), trs[1..])
  }

  function AliasesAfterSelect(aliases: map<string, string>, s: Select): map<string, string>
    decreases s, 0
  {
    if s.from.Some? then AliasesAfter(aliases, s.from.value) else aliases
  }

  predicate ResolvesScope(aliases: map<string, string>, scope: Scope) {
    forall q :: q in scope ==> Resolve(aliases, q) == scope[q]
  }

  /** At every select and join, the alias table gathered so far resolves the tables in scope correctly. */
  predicate AliasesHonest(aliases: map<string, string>, tr: TableRef)
    decreases tr, 1
  {
    match tr
    case TableName(_, _) => true
    case TableSelect(s) => AliasesHonestSelect(aliases, s)
    case TableJoin(l, r, _) =>
      && AliasesHonest(aliases, l) && AliasesHonest(AliasesAfter(aliases, l), r)
      && ResolvesScope(AliasesAfter(aliases, tr), ScopeOf(Tables(tr)))
    case TableCrossProduct(list) => AliasesHonestList(aliases, list)
  }

  predicate AliasesHonestList(aliases: map<string, string>, trs: seq<TableRef>)
    decreases trs, 0
  {
    trs == [] || (AliasesHonest(aliases, trs[0]) && AliasesHonestList(AliasesAfter(aliases, trs[0]), trs[1..]))
  }

  predicate AliasesHonestSelect(aliases: map<string, string>, s: Select)
    decreases s, 0
  {
    s.from.Some? ==>
      AliasesHonest(aliases, s.from.value) &&
      ResolvesScope(AliasesAfter(aliases, s.from.value), ScopeOf(Tables(s.from.value)))
  }

  /** A condition on a statement's table names and aliases alone. */
  predicate AliasesHonestStatement(st: Statement) {
    match st
    case SelectStmt(s) => AliasesHonestSelect(map[], s)
    case InsertSelect(_, s) => AliasesHonestSelect(map[], s)
    case _ => true
  }

  // --- what the encryption mutator's traversal guarantees ---

  lemma {:induction false} CheckedIsClean(cfg: DatabaseConfig, aliases: map<string, string>, scope: Scope, e: Expr)
    requires ResolvesScope(aliases, scope) && Checked(cfg, aliases, e)
    ensures Clean(cfg, scope, e)
    decreases e, 1
  {
    match e
    case Bin(_, l, r) =>
      CheckedIsClean(cfg, aliases, scope, l);
      CheckedIsClean(cfg, aliases, scope, r);
    case Un(_, x) => CheckedIsClean(cfg, aliases, scope, x);
    case In(x, list) =>
      CheckedIsClean(cfg, aliases, scope, x);
      CheckedListIsClean(cfg, aliases, scope, list);
    case _ =>
  }

  lemma {:induction false} CheckedListIsClean(cfg: DatabaseConfig, aliases: map<string, string>, scope: Scope,
                                              es: seq<Expr>)
    requires ResolvesScope(aliases, scope) && CheckedList(cfg, aliases, es)
    ensures CleanList(cfg, scope, es)
    decreases es, 0
  {
    if es != [] {
      CheckedIsClean(cfg, aliases, scope, es[0]);
      CheckedListIsClean(cfg, aliases, scope, es[1..]);
    }
  }

  lemma VisitedIsClean(cfg: DatabaseConfig, names: Names, scope: Scope, e: Expr)
    requires VisitExpr(EncryptionRole, cfg, false, names, e).Ok?
    ensures VisitExpr(EncryptionRole, cfg, false, names, e).value == names
    ensures ResolvesScope(names.aliases, scope) ==> Clean(cfg, scope, e)
  {
    CheckedIffVisited(cfg, names, e);
    if ResolvesScope(names.aliases, scope) { CheckedIsClean(cfg, names.aliases, scope, e); }
  }

  lemma VisitedListIsClean(cfg: DatabaseConfig, names: Names, scope: Scope, es: seq<Expr>)
    requires VisitExprs(EncryptionRole, cfg, false, names, es).Ok?
    ensures VisitExprs(EncryptionRole, cfg, false, names, es).value == names
    ensures ResolvesScope(names.aliases, scope) ==> CleanList(cfg, scope, es)
  {
    CheckedListIffVisited(cfg, names, es);
    if ResolvesScope(names.aliases, scope) { CheckedListIsClean(cfg, names.aliases, scope, es); }
  }

  /** Select bodies register columns but no aliases. */
  lemma {:induction false} BodyKeepsAliases(cfg: DatabaseConfig, names: Names, e: Expr)
    requires VisitExpr(EncryptionRole, cfg, true, names, e).Ok?
    ensures VisitExpr(EncryptionRole, cfg, true, names, e).value.aliases == names.aliases
    decreases e, 1
  {
    match e
    case Bin(_, l, r) =>
      BodyKeepsAliases(cfg, names, l);
      BodyKeepsAliases(cfg, VisitExpr(EncryptionRole, cfg, true, names, l).value, r);
    case Un(_, x) => BodyKeepsAliases(cfg, names, x);
    case In(x, list) =>
      BodyKeepsAliases(cfg, names, x);
      BodyListKeepsAliases(cfg, VisitExpr(EncryptionRole, cfg, true, names, x).value, list);
    case _ =>
  }

  lemma {:induction false} BodyListKeepsAliases(cfg: DatabaseConfig, names: Names, es: seq<Expr>)
    requires VisitExprs(EncryptionRole, cfg, true, names, es).Ok?
    ensures VisitExprs(EncryptionRole, cfg, true, names, es).value.aliases == names.aliases
    decreases es, 0
  {
    if es != [] {
      BodyKeepsAliases(cfg, names, es[0]);
      BodyListKeepsAliases(cfg, VisitExpr(EncryptionRole, cfg, true, names, es[0]).value, es[1..]);
    }
  }

  /** A FROM clause the encryption mutator accepts is closed when its aliases resolve honestly. */
  lemma {:induction false} AcceptedFromIsClosed(cfg: DatabaseConfig, names: Names, tr: TableRef)
    requires VisitTableRef(EncryptionRole, cfg, names, tr).Ok?
    ensures VisitTableRef(EncryptionRole, cfg, names, tr).value.aliases == AliasesAfter(names.aliases, tr)
    ensures AliasesHonest(names.aliases, tr) ==> ClosedFrom(cfg, tr)
    decreases tr, 1
  {
    match tr
    case TableName(_, _) =>
    case TableSelect(s) => AcceptedSelectIsClosed(cfg, names, s);
    case TableJoin(l, r, c) =>
      AcceptedFromIsClosed(cfg, names, l);
      var names1 := VisitTableRef(EncryptionRole, cfg, names, l).value;
      AcceptedFromIsClosed(cfg, names1, r);
      var names2 := VisitTableRef(EncryptionRole, cfg, names1, r).value;
      VisitedIsClean(cfg, names2, ScopeOf(Tables(tr)), c);
    case TableCrossProduct(list) => AcceptedFromListIsClosed(cfg, names, list);
  }

  lemma {:induction false} AcceptedFromListIsClosed(cfg: DatabaseConfig, names: Names, trs: seq<TableRef>)
    requires VisitTableRefs(EncryptionRole, cfg, names, trs).Ok?
    ensures VisitTableRefs(EncryptionRole, cfg, names, trs).value.aliases == AliasesAfterList(names.aliases, trs)
    ensures AliasesHonestList(names.aliases, trs) ==> ClosedFromList(cfg, trs)
    decreases trs, 0
  {
    if trs != [] {
      AcceptedFromIsClosed(cfg, names, trs[0]);
      AcceptedFromListIsClosed(cfg, VisitTableRef(EncryptionRole, cfg, names, trs[0]).value, trs[1..]);
    }
  }

  lemma {:induction false} AcceptedSelectIsClosed(cfg: DatabaseConfig, names: Names, s: Select)
    requires VisitSelect(EncryptionRole, cfg, names, s).Ok?
    ensures VisitSelect(EncryptionRole, cfg, names, s).value.aliases == AliasesAfterSelect(names.aliases, s)
    ensures AliasesHonestSelect(names.aliases, s) ==> ClosedSelect(cfg, s)
    decreases s, 0
  {
    var scope := if s.from.Some? then ScopeOf(Tables(s.from.value)) else map[];
    if s.from.Some? { AcceptedFromIsClosed(cfg, names, s.from.value); }
    var names1 := if s.from.Some? then VisitTableRef(EncryptionRole, cfg, names, s.from.value).value else names;
    BodyListKeepsAliases(cfg, names1, s.selectList);
    var names2 := VisitExprs(EncryptionRole, cfg, true, names1, s.selectList).value;
    if s.whereClause.Some? { VisitedIsClean(cfg, names2, scope, s.whereClause.value); }
    if s.groupBy.Some? {
      VisitedListIsClean(cfg, names2, scope, s.groupBy.value.columns);
      if s.groupBy.value.having.Some? { VisitedIsClean(cfg, names2, scope, s.groupBy.value.having.value); }
    }
    VisitedListIsClean(cfg, names2, scope, OrderExprs(s.order));
  }

  lemma AcceptedStatementIsClosed(cfg: DatabaseConfig, st: Statement)
    requires VisitStatement(EncryptionRole, cfg, NO_NAMES, st).Ok? && AliasesHonestStatement(st)
    ensures ClosedStatement(cfg, st)
  {
    match st
    case SelectStmt(s) => AcceptedSelectIsClosed(cfg, NO_NAMES, s);
    case InsertValues(t, _, values) => VisitedListIsClean(cfg, NO_NAMES, map[t := t], values);
    case InsertSelect(_, s) => AcceptedSelectIsClosed(cfg, NO_NAMES, s);
    case Update(t, a, updates, w) =>
      var names := if a.Some? then NO_NAMES.(aliases := map[a.value := t]) else NO_NAMES;
      VisitedListIsClean(cfg, names, UpdateScope(t, a), ClauseValues(updates));
      if w.Some? { VisitedIsClean(cfg, names, UpdateScope(t, a), w.value); }
    case Delete =>
  }

  // --- rewriting changes no table name or alias ---

  lemma {:induction false} MapAliases(r: Rewrite, aliases: map<string, string>, tr: TableRef)
    ensures AliasesAfter(aliases, MapTableRef(r, tr)) == AliasesAfter(aliases, tr)
    ensures Tables(MapTableRef(r, tr)) == Tables(tr)
    ensures AliasesHonest(aliases, MapTableRef(r, tr)) <==> AliasesHonest(aliases, tr)
    decreases tr, 1
  {
    match tr
    case TableName(_, _) =>
    case TableSelect(s) => MapSelectAliases(r, aliases, s);
    case TableJoin(left, right, _) =>
      MapAliases(r, aliases, left);
      MapAliases(r, AliasesAfter(aliases, left), right);
    case TableCrossProduct(list) => MapListAliases(r, aliases, list);
  }

  lemma {:induction false} MapListAliases(r: Rewrite, aliases: map<string, string>, trs: seq<TableRef>)
    ensures AliasesAfterList(aliases, MapTableRefs(r, trs)) == AliasesAfterList(aliases, trs)
    ensures TablesList(MapTableRefs(r, trs)) == TablesList(trs)
    ensures AliasesHonestList(aliases, MapTableRefs(r, trs)) <==> AliasesHonestList(aliases, trs)
    decreases trs, 0
  {
    if trs != [] {
      MapAliases(r, aliases, trs[0]);
      MapListAliases(r, AliasesAfter(aliases, trs[0]), trs[1..]);
    }
  }

  lemma {:induction false} MapSelectAliases(r: Rewrite, aliases: map<string, string>, s: Select)
    ensures AliasesAfterSelect(aliases, MapSelect(r, s)) == AliasesAfterSelect(aliases, s)
    ensures AliasesHonestSelect(aliases, MapSelect(r, s)) <==> AliasesHonestSelect(aliases, s)
    decreases s, 0
  {
    if s.from.Some? { MapAliases(r, aliases, s.from.value); }
  }

  lemma MapStatementAliases(r: Rewrite, st: Statement)
    ensures AliasesHonestStatement(MapStatement(r, st)) <==> AliasesHonestStatement(st)
  {
    match st
    case SelectStmt(s) => MapSelectAliases(r, map[], s);
    case InsertSelect(_, s) => MapSelectAliases(r, map[], s);
    case _ =>
  }

  lemma AppendAliases(h: Helper, st: Statement)
    requires AppendHelpers(h, st).Ok?
    ensures AliasesHonestStatement(AppendHelpers(h, st).value) <==> AliasesHonestStatement(st)
  {
  }

  // --- writes ---

  /** An accepted literal for an encrypted column: NULL, or a ciphertext under the IV drawn for its position. */
  ghost predicate Protected(s: Setting, c: ColumnConfig, iv: ByteString, e: Expr) {
    e == Lit(NullLit) || exists m :: e == Lit(StrLit(s.crypto.CipherText(c.encryptionKey, iv, m)))
  }

  ghost predicate WritesProtected(s: Setting, ivs: IVs, table: string, columns: seq<string>, values: seq<Expr>) {
    |columns| == |values| &&
    forall i :: 0 <= i < |columns| && s.cfg.Encrypted(table, columns[i]) ==>
      Protected(s, s.cfg.Column(table, columns[i]).value, ivs(i), values[i])
  }

  ghost predicate StatementProtected(s: Setting, ivs: IVs, st: Statement) {
    match st
    case InsertValues(t, Some(columns), values) => WritesProtected(s, ivs, t, columns, values)
    case InsertValues(t, None, _) => t !in s.cfg.tdeTables
    case InsertSelect(t, _) => t !in s.cfg.tdeTables
    case Update(t, _, updates, _) => WritesProtected(s, ivs, t, ClauseColumns(updates), ClauseValues(updates))
    case SelectStmt(_) => true
    case Delete => false
  }

  lemma EncryptedIsProtected(s: Setting, table: string, ivs: IVs, columns: seq<string>, values: seq<Expr>)
    requires |columns| == |values| && EncryptValues(s, table, ivs, columns, values).Ok?
    ensures WritesProtected(s, ivs, table, columns, EncryptValues(s, table, ivs, columns, values).value)
  {
    var r := EncryptValues(s, table, ivs, columns, values).value;
    forall i | 0 <= i < |columns| && s.cfg.Encrypted(table, columns[i])
      ensures Protected(s, s.cfg.Column(table, columns[i]).value, ivs(i), r[i])
    {
      EncryptedAt(s, table, ivs, columns, values, i);
      if !values[i].lit.NullLit? {
        assert r[i] == Lit(StrLit(s.crypto.CipherText(s.cfg.Column(table, columns[i]).value.encryptionKey, ivs(i),
                                                      TextBytes(values[i].lit))));
      }
    }
  }

  lemma EncryptWrittenProtects(s: Setting, ivs: IVs, st: Statement)
    requires EncryptQuery(s, ivs, st).Ok?
    ensures StatementProtected(s, ivs, EncryptQuery(s, ivs, st).value.0)
  {
    match st
    case InsertValues(t, Some(columns), values) => EncryptedIsProtected(s, t, ivs, columns, values);
    case Update(t, _, updates, _) =>
      var columns, values := ClauseColumns(updates), ClauseValues(updates);
      EncryptedIsProtected(s, t, ivs, columns, values);
      var updates' := WithValues(updates, EncryptValues(s, t, ivs, columns, values).value);
      ClausesWith(updates, EncryptValues(s, t, ivs, columns, values).value);
    case _ =>
  }

  /** Encrypting written literals leaves the columns of the other values where they were. */
  lemma {:induction false} EncryptKeepsClean(s: Setting, table: string, ivs: IVs, scope: Scope, columns: seq<string>,
                                             values: seq<Expr>)
    requires |columns| == |values| && EncryptValues(s, table, ivs, columns, values).Ok? &&
      CleanList(s.cfg, scope, values)
    ensures CleanList(s.cfg, scope, EncryptValues(s, table, ivs, columns, values).value)
  {
    var r := EncryptValues(s, table, ivs, columns, values).value;
    forall i | 0 <= i < |r| ensures Clean(s.cfg, scope, r[i]) {
      EncryptedAt(s, table, ivs, columns, values, i);
      CleanAt(s.cfg, scope, values, i);
    }
    AllClean(s.cfg, scope, r);
  }

  lemma {:induction false} CleanAt(cfg: DatabaseConfig, scope: Scope, es: seq<Expr>, i: nat)
    requires i < |es| && CleanList(cfg, scope, es)
    ensures Clean(cfg, scope, es[i])
  {
    if i > 0 { CleanAt(cfg, scope, es[1..], i - 1); }
  }

  lemma {:induction false} AllClean(cfg: DatabaseConfig, scope: Scope, es: seq<Expr>)
    requires forall i :: 0 <= i < |es| ==> Clean(cfg, scope, es[i])
    ensures CleanList(cfg, scope, es)
  {
    if es != [] { AllClean(cfg, scope, es[1..]); }
  }

  lemma EncryptKeepsClosed(s: Setting, ivs: IVs, st: Statement)
    requires EncryptWritten(s, ivs, st).Ok? && ClosedStatement(s.cfg, st)
    ensures ClosedStatement(s.cfg, EncryptWritten(s, ivs, st).value)
  {
    match st
    case InsertValues(t, Some(columns), values) => EncryptKeepsClean(s, t, ivs, map[t := t], columns, values);
    case Update(t, a, updates, w) =>
      var columns, values := ClauseColumns(updates), ClauseValues(updates);
      EncryptKeepsClean(s, t, ivs, UpdateScope(t, a), columns, values);
      ClausesWith(updates, EncryptValues(s, t, ivs, columns, values).value);
    case _ =>
  }

  /**
   * Fail closed: what the chain accepts uses no encrypted column outside a select body, at any nesting
   * depth, and writes to encrypted columns only NULL or ciphertexts, each under its own IV. The condition
   * on aliases is about the client's statement; ResolutionIsNeeded shows it cannot be dropped.
   */
  lemma AcceptedIsClosed(s: Setting, ivs: IVs, st: Statement)
    requires RewriteQuery(s, ivs, st).Ok? && AliasesHonestStatement(st)
    ensures ClosedStatement(s.cfg, RewriteQuery(s, ivs, st).value.statement)
    ensures StatementProtected(s, ivs, RewriteQuery(s, ivs, st).value.statement)
  {
    var names := VisitStatement(BlindIndexRole, s.cfg, NO_NAMES, st).value;
    var mapped := MapStatement(IndexRewrite(s, names.aliases), st);
    MapStatementAliases(IndexRewrite(s, names.aliases), st);
    AppendAliases(IndexHelper(s, WrittenTable(st)), mapped);
    var st1 := IndexQuery(s, st).value;
    var names1 := VisitStatement(JoinRole, s.cfg, NO_NAMES, st1).value;
    MapStatementAliases(JoinRewrite(s.cfg, names1.aliases), st1);
    AppendAliases(JoinHelper(s, WrittenTable(st1)), MapStatement(JoinRewrite(s.cfg, names1.aliases), st1));
    var st2 := JoinQuery(s, st1).value.0;
    AcceptedStatementIsClosed(s.cfg, st2);
    EncryptWrittenProtects(s, ivs, st2);
    EncryptKeepsClosed(s, ivs, st2);
  }

  /** A use of a column that no mutator takes as a candidate. */
  function Probe(qualifier: string): Expr { Un(IsNull, Col(Some(qualifier), "secret", None)) }

  /** One encrypted column, in one table. */
  function ProbeConfig(table: string): DatabaseConfig {
    DatabaseConfig(map[(table, "secret") := ColumnConfig(true, [], 0, 0, false, "", [], false, "")], {table}, 0)
  }

  /**
   * The condition is exact: wherever a FROM clause without conditions of its own leaves a qualifier of its
   * scope resolving to another table, some configuration lets an encrypted column through in WHERE.
   */
  lemma ResolutionIsNeeded(tr: TableRef, q: string, list: seq<Expr>)
    requires q in ScopeOf(Tables(tr))
    ensures
      var cfg := ProbeConfig(ScopeOf(Tables(tr))[q]);
      var sel := Select(list, Some(tr), Some(Probe(q)), None, [], None, None, false);
      VisitSelect(EncryptionRole, cfg, NO_NAMES, sel.(whereClause := None)).Ok? ==>
        && !CleanOption(cfg, ScopeOf(Tables(tr)), sel.whereClause)
        && (VisitSelect(EncryptionRole, cfg, NO_NAMES, sel).Ok? <==>
              Resolve(AliasesAfter(map[], tr), q) != ScopeOf(Tables(tr))[q])
  {
    var cfg := ProbeConfig(ScopeOf(Tables(tr))[q]);
    if VisitTableRef(EncryptionRole, cfg, NO_NAMES, tr).Ok? {
      AcceptedFromIsClosed(cfg, NO_NAMES, tr);
      var names1 := VisitTableRef(EncryptionRole, cfg, NO_NAMES, tr).value;
      if VisitExprs(EncryptionRole, cfg, true, names1, list).Ok? {
        BodyListKeepsAliases(cfg, names1, list);
        var names2 := VisitExprs(EncryptionRole, cfg, true, names1, list).value;
        CheckedIffVisited(cfg, names2, Probe(q));
        assert !Clean(cfg, ScopeOf(Tables(tr)), Probe(q).operand);
        assert !Clean(cfg, ScopeOf(Tables(tr)), Probe(q));
      }
    }
  }

  // --- an alias used again inside a derived table hides an encrypted column from the check ---

  const ID := Col(Some("c"), "id", None)
  const INNER := Select([ID], Some(TableName("other", Some("c"))), None, None, [], None, None, false)
  const REUSED := TableCrossProduct([TableName("cities", Some("c")), TableSelect(INNER)])
  const REUSING := Select([ID], Some(REUSED), Some(Probe("c")), None, [], None, None, false)

  lemma ReuseNames(role: Role, cfg: DatabaseConfig, names: Names)
    requires "id" !in names.labels
    ensures VisitTableRef(role, cfg, names, REUSED) ==
            Ok(Names(names.aliases["c" := "cities"]["c" := "other"], names.selected + {ColumnRef("other", "id")},
                     names.labels["id" := ColumnRef("other", "id")]))
  {
    var names1 := names.(aliases := names.aliases["c" := "cities"]);
    var names2 := names1.(aliases := names1.aliases["c" := "other"]);
    assert VisitTableRef(role, cfg, names, REUSED.list[0]) == Ok(names1);
    assert VisitTableRef(role, cfg, names1, INNER.from.value) == Ok(names2);
    assert INNER.selectList[1..] == [] && OrderExprs(INNER.order) == [];
    assert VisitExprs(role, cfg, true, names2, INNER.selectList) == VisitColumn(role, cfg, true, names2, ID) by {
      var r := VisitColumn(role, cfg, true, names2, ID);
      if r.Ok? { assert VisitExprs(role, cfg, true, r.value, []) == r; }
    }
    assert VisitSelect(role, cfg, names1, INNER) == VisitColumn(role, cfg, true, names2, ID);
    var rest := REUSED.list[1..];
    assert rest == [TableSelect(INNER)] && rest[1..] == [];
    var names3 := VisitColumn(role, cfg, true, names2, ID).value;
    assert VisitTableRef(role, cfg, names1, rest[0]) == Ok(names3);
    assert VisitTableRefs(role, cfg, names3, []) == Ok(names3);
    assert VisitTableRefs(role, cfg, names1, rest) == Ok(names3);
    assert VisitTableRefs(role, cfg, names, REUSED.list) == Ok(names3);
  }

  lemma ReuseVisited(role: Role)
    ensures VisitSelect(role, ProbeConfig("cities"), NO_NAMES, REUSING).Ok?
    ensures VisitSelect(role, ProbeConfig("cities"), NO_NAMES, REUSING).value.aliases == map["c" := "other"]
  {
    var cfg := ProbeConfig("cities");
    ReuseNames(role, cfg, NO_NAMES);
    var names := VisitTableRef(role, cfg, NO_NAMES, REUSED).value;
    assert names.aliases == map["c" := "other"];
    assert REUSING.selectList[1..] == [] && OrderExprs(REUSING.order) == [];
    var names' := names.(selected := names.selected + {ColumnRef("other", "id")},
                         labels := names.labels["id" := ColumnRef("other", "id")]);
    assert VisitColumn(role, cfg, true, names, ID) == Ok(names');
    assert VisitExprs(role, cfg, true, names', []) == Ok(names');
    assert VisitExprs(role, cfg, true, names, REUSING.selectList) == Ok(names');
    assert VisitColumn(role, cfg, false, names', Probe("c").operand) == Ok(names');
    assert VisitExpr(role, cfg, false, names', Probe("c")) == Ok(names');
    assert VisitExprs(role, cfg, false, names', []) == Ok(names');
  }

  lemma ReuseNotClosed()
    ensures !ClosedSelect(ProbeConfig("cities"), REUSING)
  {
    assert REUSED.list[1..] == [TableSelect(INNER)] && REUSED.list[1..][1..] == [];
    assert TablesList(REUSED.list[1..]) == [];
    assert Tables(REUSED.list[0]) == [("c", "cities")];
    assert TablesList(REUSED.list) == Tables(REUSED.list[0]) + TablesList(REUSED.list[1..]);
    assert Tables(REUSED) == [("c", "cities")];
    var scope := ScopeOf(Tables(REUSED));
    assert scope["c"] == "cities";
    assert !Clean(ProbeConfig("cities"), scope, Probe("c").operand);
    assert !Clean(ProbeConfig("cities"), scope, Probe("c"));
  }

  /** The rewritings leave the statement as it is. */
  lemma ReuseUnchanged(s: Setting, aliases: map<string, string>)
    ensures MapSelect(IndexRewrite(s, aliases), REUSING) == REUSING
    ensures MapSelect(JoinRewrite(s.cfg, aliases), REUSING) == REUSING
  {
    ReuseMapped(IndexRewrite(s, aliases));
    ReuseMapped(JoinRewrite(s.cfg, aliases));
  }

  lemma ReuseMapped(r: Rewrite)
    requires r.body(ID) == ID && r.body(Probe("c")) == Probe("c")
    ensures MapSelect(r, REUSING) == REUSING
  {
    assert MapTableRef(r, INNER.from.value) == INNER.from.value;
    assert MapSelect(r, INNER) == INNER;
    assert REUSED.list[1..] == [TableSelect(INNER)] && REUSED.list[1..][1..] == [];
    assert MapTableRefs(r, REUSED.list[1..]) == [TableSelect(INNER)];
    assert MapTableRefs(r, REUSED.list) == [REUSED.list[0]] + [TableSelect(INNER)] == REUSED.list;
  }

  lemma ReuseCollected<T>(c: Collect<T>)
    requires c.body(ID) == [] && c.body(Probe("c")) == []
    ensures CollectSelect(c, REUSING) == []
  {
    assert INNER.selectList[1..] == [] && FlatMap(c.body, INNER.selectList) == [];
    assert OrderExprs(INNER.order) == [];
    assert FromTableRef(c, INNER.from.value) == [];
    assert CollectSelect(c, INNER) == [];
    assert REUSED.list[1..] == [TableSelect(INNER)] && REUSED.list[1..][1..] == [];
    assert FromTableRefs(c, REUSED.list[1..]) == [] + [];
    assert FromTableRefs(c, REUSED.list) == FromTableRef(c, REUSED.list[0]) + [];
    assert FromTableRef(c, REUSED) == [];
  }

  /**
   * `SELECT c.id FROM cities c, (SELECT c.id FROM other c) WHERE c.secret IS NULL` is accepted although
   * the secret column of cities is encrypted: the inner alias has replaced the outer one.
   */
  lemma ReusedAliasPasses(crypto: Primitives, ivs: IVs)
    ensures
      var s := Setting(ProbeConfig("cities"), crypto);
      && RewriteQuery(s, ivs, SelectStmt(REUSING)).Ok?
      && !ClosedStatement(s.cfg, RewriteQuery(s, ivs, SelectStmt(REUSING)).value.statement)
  {
    var s, aliases := Setting(ProbeConfig("cities"), crypto), map["c" := "other"];
    ReuseVisited(BlindIndexRole);
    ReuseVisited(JoinRole);
    ReuseVisited(EncryptionRole);
    ReuseUnchanged(s, aliases);
    ReuseCollected(CandidatesIn(BlindIndexRole));
    ReuseCollected(CandidatesIn(JoinRole));
    ReuseCollected(Collect(e => [], e => VisitedColumns(e)));
    assert IndexQuery(s, SelectStmt(REUSING)) == Ok(SelectStmt(REUSING));
    assert JoinQuery(s, SelectStmt(REUSING)).value.0 == SelectStmt(REUSING);
    ReuseNotClosed();
  }
}
