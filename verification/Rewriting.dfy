/** The query rewriting of the three mutators, and of their chain. */
module Rewriting {
  import opened Outcomes
  import opened Bytes
  import opened Crypto
  import opened Sql
  import opened Config
  import opened Traversal

  /** The cryptographic setting of a rewriting. */
  datatype Setting = Setting(cfg: DatabaseConfig, crypto: Primitives)

  // --- literals ---

  /** The bytes hashed for a literal: a string's characters, an integer's eight raw bytes. */
  function RawBytes(l: Literal): ByteString
    requires !l.NullLit?
  {
    if l.StrLit? then l.text else RawInt64(l.number)
  }

  /** The bytes encrypted for a literal: a string's characters, an integer's decimal text. */
  function TextBytes(l: Literal): ByteString
    requires !l.NullLit?
  {
    if l.StrLit? then l.text else Decimal(l.number)
  }

  /** createHashLiteral. */
  function HashLiteral(s: Setting, c: ColumnConfig, l: Literal): Literal {
    if l.NullLit? then NullLit else StrLit(s.crypto.BlindIndexText(c.biKey, RawBytes(l)))
  }

  /** createJoinKeyLiteral. */
  function JoinKeyLiteral(s: Setting, l: Literal): Literal {
    if l.NullLit? then NullLit else StrLit(s.crypto.JoinKeyText(s.cfg.joinKeySize, RawBytes(l)))
  }

  /** createEncryptedLiteral; the random IV is a parameter. */
  function EncryptedLiteral(s: Setting, c: ColumnConfig, iv: ByteString, l: Literal): Literal {
    if l.NullLit? then NullLit else StrLit(s.crypto.CipherText(c.encryptionKey, iv, TextBytes(l)))
  }

  // --- expressions: every expression of a statement is rewritten by one function ---

  /** What a rewriting does to the expressions of a select: `body` everywhere but in GROUP BY and HAVING. */
  datatype Rewrite = Rewrite(body: Expr -> Expr, group: Expr -> Expr)

  function MapExprs(f: Expr -> Expr, es: seq<Expr>): (r: seq<Expr>)
    ensures |r| == |es| && forall i :: 0 <= i < |es| ==> r[i] == f(es[i])
  {
    seq(|es|, i requires 0 <= i < |es| => f(es[i]))
  }

  function MapOption(f: Expr -> Expr, e: Option<Expr>): Option<Expr> {
    if e.Some? then Some(f(e.value)) else None
  }

  function MapOrder(f: Expr -> Expr, order: seq<OrderItem>): seq<OrderItem> {
    seq(|order|, i requires 0 <= i < |order| => OrderItem(f(order[i].expr), order[i].ascending))
  }

  function MapTableRef(r: Rewrite, tr: TableRef): TableRef
    decreases tr, 1
  {
    match tr
    case TableName(_, _) => tr
    case TableSelect(s) => TableSelect(MapSelect(r, s))
    case TableJoin(left, right, c) => TableJoin(MapTableRef(r, left), MapTableRef(r, right), r.body(c))
    case TableCrossProduct(list) => TableCrossProduct(MapTableRefs(r, list))
  }

  function MapTableRefs(r: Rewrite, trs: seq<TableRef>): (trs': seq<TableRef>)
    decreases trs, 0
  {
    if trs == [] then [] else [MapTableRef(r, trs[0])] + MapTableRefs(r, trs[1..])
  }

  function MapSelect(r: Rewrite, s: Select): Select
    decreases s, 1
  {
    Select(
      MapExprs(r.body, s.selectList),
      if s.from.Some? then Some(MapTableRef(r, s.from.value)) else None,
      MapOption(r.body, s.whereClause),
      if s.groupBy.Some? then
        Some(GroupBy(MapExprs(r.group, s.groupBy.value.columns), MapOption(r.group, s.groupBy.value.having)))
      else None,
      MapOrder(r.body, s.order), s.limit, s.offset, s.union)
  }

  function MapClauses(f: Expr -> Expr, updates: seq<UpdateClause>): (r: seq<UpdateClause>)
    ensures |r| == |updates|
    ensures forall i :: 0 <= i < |r| ==> r[i] == UpdateClause(updates[i].column, f(updates[i].value))
  {
    seq(|updates|, i requires 0 <= i < |updates| => UpdateClause(updates[i].column, f(updates[i].value)))
  }

  function MapStatement(r: Rewrite, s: Statement): Statement {
    match s
    case SelectStmt(sel) => SelectStmt(MapSelect(r, sel))
    case InsertValues(t, columns, values) => InsertValues(t, columns, MapExprs(r.body, values))
    case InsertSelect(t, sel) => InsertSelect(t, MapSelect(r, sel))
    case Update(t, a, updates, w) => Update(t, a, MapClauses(r.body, updates), MapOption(r.body, w))
    case Delete => Delete
  }

  // --- collecting from every expression of a statement, in traversal order ---

  /** What is collected from an expression; `group` from those in GROUP BY and HAVING. */
  datatype Collect<!T> = Collect(body: Expr -> seq<T>, group: Expr -> seq<T>)

  function FlatMap<T>(f: Expr -> seq<T>, es: seq<Expr>): seq<T> {
    if es == [] then [] else f(es[0]) + FlatMap(f, es[1..])
  }

  function FromOption<T>(f: Expr -> seq<T>, e: Option<Expr>): seq<T> {
    if e.Some? then f(e.value) else []
  }

  function FromTableRef<T>(c: Collect<T>, tr: TableRef): seq<T>
    decreases tr, 1
  {
    match tr
    case TableName(_, _) => []
    case TableSelect(s) => CollectSelect(c, s)
    case TableJoin(l, r, e) => FromTableRef(c, l) + FromTableRef(c, r) + c.body(e)
    case TableCrossProduct(list) => FromTableRefs(c, list)
  }

  function FromTableRefs<T>(c: Collect<T>, trs: seq<TableRef>): seq<T>
    decreases trs, 0
  {
    if trs == [] then [] else FromTableRef(c, trs[0]) + FromTableRefs(c, trs[1..])
  }

  function CollectSelect<T>(c: Collect<T>, s: Select): seq<T>
    decreases s, 1
  {
    (if s.from.Some? then FromTableRef(c, s.from.value) else []) +
    FlatMap(c.body, s.selectList) +
    FromOption(c.body, s.whereClause) +
    (if s.groupBy.Some? then FlatMap(c.group, s.groupBy.value.columns) + FromOption(c.group, s.groupBy.value.having)
     else []) +
    FlatMap(c.body, OrderExprs(s.order))
  }

  function CollectStatement<T>(c: Collect<T>, s: Statement): seq<T> {
    match s
    case SelectStmt(sel) => CollectSelect(c, sel)
    case InsertValues(_, _, values) => FlatMap(c.body, values)
    case InsertSelect(_, sel) => CollectSelect(c, sel)
    case Update(_, _, updates, w) => FlatMap(c.body, ClauseValues(updates)) + FromOption(c.body, w)
    case Delete => []
  }

  /** The candidates of a role inside an expression; a candidate's operands are not searched. */
  function Candidates(role: Role, e: Expr): seq<Expr>
    decreases e, 1
  {
    if IsCandidate(role, e) then [e]
    else match e
      case Bin(_, l, r) => Candidates(role, l) + Candidates(role, r)
      case Un(_, x) => Candidates(role, x)
      case In(x, list) => Candidates(role, x) + CandidatesOf(role, list)
      case _ => []
  }

  function CandidatesOf(role: Role, es: seq<Expr>): seq<Expr>
    decreases es, 0
  {
    if es == [] then [] else Candidates(role, es[0]) + CandidatesOf(role, es[1..])
  }

  /** The column references the blind index mutator visits, outside its candidates. */
  function VisitedColumns(e: Expr): seq<Expr>
    decreases e, 1
  {
    if IsIndexCandidate(e) then []
    else match e
      case Col(_, _, _) => [e]
      case Bin(_, l, r) => VisitedColumns(l) + VisitedColumns(r)
      case Un(_, x) => VisitedColumns(x)
      case In(x, list) => VisitedColumns(x) + VisitedColumnsOf(list)
      case _ => []
  }

  function VisitedColumnsOf(es: seq<Expr>): seq<Expr>
    decreases es, 0
  {
    if es == [] then [] else VisitedColumns(es[0]) + VisitedColumnsOf(es[1..])
  }

  // --- blind index ---

  /** mutateComparisons on one candidate. */
  function IndexComparison(s: Setting, aliases: map<string, string>, e: Expr): Expr
    requires IsIndexCandidate(e)
  {
    if e.left.table.None? then e
    else
      var table := Resolve(aliases, e.left.table.value);
      if !s.cfg.Indexed(table, e.left.name) then e
      else
        var c := s.cfg.Column(table, e.left.name).value;
        Bin(e.op, e.left.(name := c.biName), Lit(HashLiteral(s, c, e.right.lit)))
  }

  function IndexExpr(s: Setting, aliases: map<string, string>, e: Expr): Expr
    decreases e, 1
  {
    if IsIndexCandidate(e) then IndexComparison(s, aliases, e)
    else match e
      case Bin(op, l, r) => Bin(op, IndexExpr(s, aliases, l), IndexExpr(s, aliases, r))
      case Un(op, x) => Un(op, IndexExpr(s, aliases, x))
      case In(x, list) => In(IndexExpr(s, aliases, x), IndexExprs(s, aliases, list))
      case _ => e
  }

  function IndexExprs(s: Setting, aliases: map<string, string>, es: seq<Expr>): seq<Expr>
    decreases es, 0
  {
    if es == [] then [] else [IndexExpr(s, aliases, es[0])] + IndexExprs(s, aliases, es[1..])
  }

  /** mutateGroupByExpressions on one column. */
  function GroupColumn(s: Setting, aliases: map<string, string>, e: Expr): Expr
    requires e.Col?
  {
    if e.table.None? then e
    else
      var table := Resolve(aliases, e.table.value);
      if s.cfg.Indexed(table, e.name) then e.(name := s.cfg.Column(table, e.name).value.biName) else e
  }

  /** In GROUP BY and HAVING the columns outside candidates are renamed too. */
  function GroupExpr(s: Setting, aliases: map<string, string>, e: Expr): Expr
    decreases e, 1
  {
    if IsIndexCandidate(e) then IndexComparison(s, aliases, e)
    else match e
      case Col(_, _, _) => GroupColumn(s, aliases, e)
      case Bin(op, l, r) => Bin(op, GroupExpr(s, aliases, l), GroupExpr(s, aliases, r))
      case Un(op, x) => Un(op, GroupExpr(s, aliases, x))
      case In(x, list) => In(GroupExpr(s, aliases, x), GroupExprs(s, aliases, list))
      case _ => e
  }

  function GroupExprs(s: Setting, aliases: map<string, string>, es: seq<Expr>): seq<Expr>
    decreases es, 0
  {
    if es == [] then [] else [GroupExpr(s, aliases, es[0])] + GroupExprs(s, aliases, es[1..])
  }

  function IndexRewrite(s: Setting, aliases: map<string, string>): Rewrite {
    Rewrite(e => IndexExpr(s, aliases, e), e => GroupExpr(s, aliases, e))
  }

  /** The first candidate whose column has no table qualifier. */
  function FirstUnqualified(columns: seq<Expr>): Option<Error> {
    if columns == [] then None
    else if columns[0].Col? && columns[0].table.None? then Some(UnknownSource(columns[0].name))
    else FirstUnqualified(columns[1..])
  }

  function LeftColumn(e: Expr): Expr { if e.Bin? then e.left else e }

  /** Every candidate of a role. */
  function CandidatesIn(role: Role): Collect<Expr> {
    Collect(e => Candidates(role, e), e => Candidates(role, e))
  }

  function IndexCandidates(st: Statement): seq<Expr> { CollectStatement(CandidatesIn(BlindIndexRole), st) }

  /** The columns visited in GROUP BY and HAVING. */
  function ColumnsInGroups(): Collect<Expr> { Collect(e => [], e => VisitedColumns(e)) }

  function GroupColumns(st: Statement): seq<Expr> { CollectStatement(ColumnsInGroups(), st) }

  // --- appending helper columns to INSERT and UPDATE ---

  /** The helper column and literal a written column adds, if any. */
  type Helper = (string, Literal) -> Option<(string, Literal)>

  /** Columns with a helper: their values must be literals. */
  function HelperError(h: Helper, columns: seq<string>, values: seq<Expr>): Option<Error>
    requires |columns| == |values|
  {
    if columns == [] then None
    else if h(columns[0], NullLit).Some? && !values[0].Lit? then Some(OnlyLiterals)
    else HelperError(h, columns[1..], values[1..])
  }

  function HelperCells(h: Helper, columns: seq<string>, values: seq<Expr>): seq<(string, Literal)>
    requires |columns| == |values|
  {
    if columns == [] then []
    else
      var first := if values[0].Lit? then h(columns[0], values[0].lit) else None;
      (if first.Some? then [first.value] else []) + HelperCells(h, columns[1..], values[1..])
  }

  function IndexHelper(s: Setting, table: string): Helper {
    (column, l) =>
      if s.cfg.Indexed(table, column) then
        var c := s.cfg.Column(table, column).value;
        Some((c.biName, HashLiteral(s, c, l)))
      else None
  }

  function JoinHelper(s: Setting, table: string): Helper {
    (column, l) =>
      if s.cfg.Joinable(table, column) then
        Some((s.cfg.Column(table, column).value.joinKeyName, JoinKeyLiteral(s, l)))
      else None
  }

  function Firsts(cells: seq<(string, Literal)>): seq<string> {
    seq(|cells|, i requires 0 <= i < |cells| => cells[i].0)
  }

  function Seconds(cells: seq<(string, Literal)>): seq<Expr> {
    seq(|cells|, i requires 0 <= i < |cells| => Lit(cells[i].1))
  }

  function ClauseColumns(updates: seq<UpdateClause>): seq<string> {
    seq(|updates|, i requires 0 <= i < |updates| => updates[i].column)
  }

  function Clauses(cells: seq<(string, Literal)>): seq<UpdateClause> {
    seq(|cells|, i requires 0 <= i < |cells| => UpdateClause(cells[i].0, Lit(cells[i].1)))
  }

  /** mutateInsertStatement and mutateUpdateStatement of the two index mutators. */
  function AppendHelpers(h: Helper, st: Statement): Result<Statement> {
    match st
    case InsertValues(t, Some(columns), values) =>
      if |columns| != |values| then Err(BadInsert)
      else
        var err := HelperError(h, columns, values);
        if err.Some? then Err(err.value)
        else
          var cells := HelperCells(h, columns, values);
          Ok(InsertValues(t, Some(columns + Firsts(cells)), values + Seconds(cells)))
    case Update(t, a, updates, w) =>
      var err := HelperError(h, ClauseColumns(updates), ClauseValues(updates));
      if err.Some? then Err(err.value)
      else Ok(Update(t, a, updates + Clauses(HelperCells(h, ClauseColumns(updates), ClauseValues(updates))), w))
    case _ => Ok(st)
  }

  function WrittenTable(st: Statement): string {
    match st
    case InsertValues(t, _, _) => t
    case Update(t, _, _, _) => t
    case _ => ""
  }

  /** BlindIndexMutator::mutateQuery. */
  function IndexQuery(s: Setting, st: Statement): Result<Statement> {
    var names :- VisitStatement(BlindIndexRole, s.cfg, NO_NAMES, st);
    var c := IndexCandidates(st);
    var err := FirstUnqualified(seq(|c|, i requires 0 <= i < |c| => LeftColumn(c[i])));
    if err.Some? then Err(err.value)
    else
      var err2 := FirstUnqualified(GroupColumns(st));
      if err2.Some? then Err(err2.value)
      else AppendHelpers(IndexHelper(s, WrittenTable(st)), MapStatement(IndexRewrite(s, names.aliases), st))
  }

  // --- probabilistic join ---

  /** The two columns of a candidate, by the names of their tables. */
  function ComparedColumns(aliases: map<string, string>, e: Expr): (ColumnRef, ColumnRef)
    requires IsJoinCandidate(e) && e.left.table.Some? && e.right.table.Some?
  {
    (ColumnRef(Resolve(aliases, e.left.table.value), e.left.name),
     ColumnRef(Resolve(aliases, e.right.table.value), e.right.name))
  }

  predicate Qualified(e: Expr)
    requires IsJoinCandidate(e)
  {
    e.left.table.Some? && e.right.table.Some?
  }

  /** Both columns are configured for joins: the candidate will be rewritten. */
  predicate Joins(cfg: DatabaseConfig, aliases: map<string, string>, e: Expr) {
    && IsJoinCandidate(e) && Qualified(e)
    && var (l, r) := ComparedColumns(aliases, e);
       cfg.Joinable(l.table, l.column) && cfg.Joinable(r.table, r.column)
  }

  function JoinComparison(cfg: DatabaseConfig, aliases: map<string, string>, e: Expr): Expr
    requires Joins(cfg, aliases, e)
  {
    var (l, r) := ComparedColumns(aliases, e);
    Bin(Equals, e.left.(name := cfg.Column(l.table, l.column).value.joinKeyName),
                e.right.(name := cfg.Column(r.table, r.column).value.joinKeyName))
  }

  function JoinExpr(cfg: DatabaseConfig, aliases: map<string, string>, e: Expr): Expr
    decreases e, 1
  {
    if Joins(cfg, aliases, e) then JoinComparison(cfg, aliases, e)
    else match e
      case Bin(op, l, r) => Bin(op, JoinExpr(cfg, aliases, l), JoinExpr(cfg, aliases, r))
      case Un(op, x) => Un(op, JoinExpr(cfg, aliases, x))
      case In(x, list) => In(JoinExpr(cfg, aliases, x), JoinExprs(cfg, aliases, list))
      case _ => e
  }

  function JoinExprs(cfg: DatabaseConfig, aliases: map<string, string>, es: seq<Expr>): seq<Expr>
    decreases es, 0
  {
    if es == [] then [] else [JoinExpr(cfg, aliases, es[0])] + JoinExprs(cfg, aliases, es[1..])
  }

  function JoinRewrite(cfg: DatabaseConfig, aliases: map<string, string>): Rewrite {
    Rewrite(e => JoinExpr(cfg, aliases, e), e => JoinExpr(cfg, aliases, e))
  }

  function JoinCandidates(st: Statement): seq<Expr> { CollectStatement(CandidatesIn(JoinRole), st) }

  /** mutateJoins: the recorded comparisons, or the first error, in candidate order. */
  function JoinComparisons(cfg: DatabaseConfig, names: Names, candidates: seq<Expr>)
    : Result<seq<(ColumnRef, ColumnRef)>>
  {
    if candidates == [] then Ok([])
    else
      var e := candidates[0];
      if !IsJoinCandidate(e) then JoinComparisons(cfg, names, candidates[1..])
      else if e.left.table.None? then Err(UnknownSource(e.left.name))
      else if e.right.table.None? then Err(UnknownSource(e.right.name))
      else if !Joins(cfg, names.aliases, e) then JoinComparisons(cfg, names, candidates[1..])
      else
        var (l, r) := ComparedColumns(names.aliases, e);
        if l !in names.selected || r !in names.selected then Err(JoinColumnsNotSelected)
        else
          var rest :- JoinComparisons(cfg, names, candidates[1..]);
          Ok([(l, r)] + rest)
  }

  /** What the join mutator remembers of a query for its results. */
  datatype JoinState = JoinState(names: Names, comparisons: seq<(ColumnRef, ColumnRef)>)

  /** ProbabilisticJoinMutator::mutateQuery. */
  function JoinQuery(s: Setting, st: Statement): Result<(Statement, JoinState)> {
    var names :- VisitStatement(JoinRole, s.cfg, NO_NAMES, st);
    var comparisons :- JoinComparisons(s.cfg, names, JoinCandidates(st));
    var st' :- AppendHelpers(JoinHelper(s, WrittenTable(st)), MapStatement(JoinRewrite(s.cfg, names.aliases), st));
    Ok((st', JoinState(names, comparisons)))
  }

  // --- encryption ---

  /** The random IVs drawn for a statement, one for each position of a written value. */
  type IVs = nat -> ByteString

  ghost predicate ValidIVs(ivs: IVs) { forall i: nat :: |ivs(i)| == IV_LENGTH }

  /** Encrypts the literals of the encrypted columns; other values for them are rejected. */
  function EncryptValues(s: Setting, table: string, ivs: IVs, columns: seq<string>, values: seq<Expr>)
    : (r: Result<seq<Expr>>)
    requires |columns| == |values|
    ensures r.Ok? ==> |r.value| == |values|
  {
    if columns == [] then Ok([])
    else
      var n := |columns| - 1;
      var init :- EncryptValues(s, table, ivs, columns[..n], values[..n]);
      if !s.cfg.Encrypted(table, columns[n]) then Ok(init + [values[n]])
      else if !values[n].Lit? then Err(OnlyLiterals)
      else Ok(init + [Lit(EncryptedLiteral(s, s.cfg.Column(table, columns[n]).value, ivs(n), values[n].lit))])
  }

  function WithValues(updates: seq<UpdateClause>, values: seq<Expr>): seq<UpdateClause>
    requires |updates| == |values|
  {
    seq(|updates|, i requires 0 <= i < |updates| => UpdateClause(updates[i].column, values[i]))
  }

  function EncryptWritten(s: Setting, ivs: IVs, st: Statement): (r: Result<Statement>) {
    match st
    case InsertValues(t, Some(columns), values) =>
      if |columns| != |values| then Err(BadInsert)
      else
        var values' :- EncryptValues(s, t, ivs, columns, values);
        Ok(InsertValues(t, Some(columns), values'))
    case Update(t, a, updates, w) =>
      var values' :- EncryptValues(s, t, ivs, ClauseColumns(updates), ClauseValues(updates));
      Ok(Update(t, a, WithValues(updates, values'), w))
    case _ => Ok(st)
  }

  /** EncryptionMutator::mutateQuery. */
  function EncryptQuery(s: Setting, ivs: IVs, st: Statement): Result<(Statement, Names)> {
    var names :- VisitStatement(EncryptionRole, s.cfg, NO_NAMES, st);
    var st' :- EncryptWritten(s, ivs, st);
    Ok((st', names))
  }

  // --- the chain, in the order of the manager's constructor ---

  /** A rewritten statement and what its results will be processed with. */
  datatype Rewritten = Rewritten(statement: Statement, join: JoinState, names: Names)

  /** processQueryImpl after parsing: blind index, probabilistic join, encryption. */
  function RewriteQuery(s: Setting, ivs: IVs, st: Statement): Result<Rewritten> {
    var st1 :- IndexQuery(s, st);
    var (st2, join) :- JoinQuery(s, st1);
    var (st3, names) :- EncryptQuery(s, ivs, st2);
    Ok(Rewritten(st3, join, names))
  }
}
