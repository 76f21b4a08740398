/** What one traversal of a statement by a mutator accepts, and the name tables it fills. */
module Traversal {
  import opened Outcomes
  import opened Sql
  import opened Config

  /** Which mutator traverses: each overrides some of the visitor's methods. */
  datatype Role = BlindIndexRole | JoinRole | EncryptionRole

  /** The visitor's table aliases, selected columns, and labels of selected columns. */
  datatype Names = Names(
    aliases: map<string, string>, selected: set<ColumnRef>, labels: map<string, ColumnRef>)

  const NO_NAMES := Names(map[], {}, map[])

  /** getTableNameByAlias. */
  function Resolve(aliases: map<string, string>, qualifier: string): string {
    if qualifier in aliases then aliases[qualifier] else qualifier
  }

  /** An operator the blind index mutator takes as a candidate without visiting its operands. */
  predicate IsIndexCandidate(e: Expr) {
    e.Bin? && (e.op == Equals || e.op == NotEquals) && e.left.Col? && e.right.Lit?
  }

  /** An operator the join mutator takes as a candidate without visiting its operands. */
  predicate IsJoinCandidate(e: Expr) {
    e.Bin? && e.op == Equals && e.left.Col? && e.right.Col?
  }

  predicate IsCandidate(role: Role, e: Expr) {
    match role
    case BlindIndexRole => IsIndexCandidate(e)
    case JoinRole => IsJoinCandidate(e)
    case EncryptionRole => false
  }

  /** A column reference: registered in a select body, checked by the encryption mutator elsewhere. */
  function VisitColumn(role: Role, cfg: DatabaseConfig, inBody: bool, names: Names, e: Expr): Result<Names>
    requires e.Col?
  {
    if inBody then
      if e.table.None? then Err(UnknownSource(e.name))
      else
        var ref := ColumnRef(Resolve(names.aliases, e.table.value), e.name);
        if e.alias.None? && e.name in names.labels && names.labels[e.name] != ref then Err(AmbiguousColumn(e.name))
        else Ok(names.(selected := names.selected + {ref}, labels := names.labels[Label(e) := ref]))
    else if role.EncryptionRole? then
      if e.table.None? then Err(UnknownSource(e.name))
      else
        var table := Resolve(names.aliases, e.table.value);
        if cfg.Encrypted(table, e.name) then Err(InvalidUse(table, e.name)) else Ok(names)
    else Ok(names)
  }

  function VisitExpr(role: Role, cfg: DatabaseConfig, inBody: bool, names: Names, e: Expr): Result<Names>
    decreases e, 1
  {
    if IsCandidate(role, e) then Ok(names)
    else match e
      case Lit(_) => Ok(names)
      case Star => Err(StarUnsupported)
      case Array => Err(Unsupported)
      case Col(_, _, _) => VisitColumn(role, cfg, inBody, names, e)
      case Bin(_, l, r) =>
        var names1 :- VisitExpr(role, cfg, inBody, names, l);
        VisitExpr(role, cfg, inBody, names1, r)
      case Un(_, x) => VisitExpr(role, cfg, inBody, names, x)
      case In(x, list) =>
        var names1 :- VisitExpr(role, cfg, inBody, names, x);
        VisitExprs(role, cfg, inBody, names1, list)
  }

  function VisitExprs(role: Role, cfg: DatabaseConfig, inBody: bool, names: Names, es: seq<Expr>): Result<Names>
    decreases es, 0
  {
    if es == [] then Ok(names)
    else
      var names1 :- VisitExpr(role, cfg, inBody, names, es[0]);
      VisitExprs(role, cfg, inBody, names1, es[1..])
  }

  function VisitOption(role: Role, cfg: DatabaseConfig, names: Names, e: Option<Expr>): Result<Names> {
    if e.Some? then VisitExpr(role, cfg, false, names, e.value) else Ok(names)
  }

  function VisitTableRef(role: Role, cfg: DatabaseConfig, names: Names, tr: TableRef): Result<Names>
    decreases tr, 1
  {
    match tr
    case TableName(n, a) =>
      Ok(if a.Some? then names.(aliases := names.aliases[a.value := n]) else names)
    case TableSelect(s) => VisitSelect(role, cfg, names, s)
    case TableJoin(l, r, condition) =>
      var names1 :- VisitTableRef(role, cfg, names, l);
      var names2 :- VisitTableRef(role, cfg, names1, r);
      VisitExpr(role, cfg, false, names2, condition)
    case TableCrossProduct(list) => VisitTableRefs(role, cfg, names, list)
  }

  function VisitTableRefs(role: Role, cfg: DatabaseConfig, names: Names, trs: seq<TableRef>): Result<Names>
    decreases trs, 0
  {
    if trs == [] then Ok(names)
    else
      var names1 :- VisitTableRef(role, cfg, names, trs[0]);
      VisitTableRefs(role, cfg, names1, trs[1..])
  }

  function OrderExprs(order: seq<OrderItem>): seq<Expr> {
    seq(|order|, i requires 0 <= i < |order| => order[i].expr)
  }

  function VisitSelect(role: Role, cfg: DatabaseConfig, names: Names, s: Select): Result<Names>
    decreases s, 1
  {
    if s.union then Err(Unsupported)
    else
      var names1 :- if s.from.Some? then VisitTableRef(role, cfg, names, s.from.value) else Ok(names);
      var names2 :- VisitExprs(role, cfg, true, names1, s.selectList);
      var names3 :- VisitOption(role, cfg, names2, s.whereClause);
      var names4 :- if s.groupBy.None? then Ok(names3)
                    else
                      var names' :- VisitExprs(role, cfg, false, names3, s.groupBy.value.columns);
                      VisitOption(role, cfg, names', s.groupBy.value.having);
      VisitExprs(role, cfg, false, names4, OrderExprs(s.order))
  }

  function ClauseValues(updates: seq<UpdateClause>): seq<Expr> {
    seq(|updates|, i requires 0 <= i < |updates| => updates[i].value)
  }

  /** One statement; the tables of names start empty. */
  function VisitStatement(role: Role, cfg: DatabaseConfig, names: Names, s: Statement): Result<Names> {
    match s
    case SelectStmt(sel) => VisitSelect(role, cfg, names, sel)
    case InsertValues(table, columns, values) =>
      if columns.None? && table in cfg.tdeTables then Err(ColumnsRequired)
      else VisitExprs(role, cfg, false, names, values)
    case InsertSelect(table, sel) =>
      if table in cfg.tdeTables then Err(InsertSelectUnsupported) else VisitSelect(role, cfg, names, sel)
    case Update(table, alias, updates, whereClause) =>
      var names0 := if alias.Some? then names.(aliases := names.aliases[alias.value := table]) else names;
      var names1 :- VisitExprs(role, cfg, false, names0, ClauseValues(updates));
      VisitOption(role, cfg, names1, whereClause)
    case Delete => Err(Unsupported)
  }
}
