/** The abstract syntax of the SQL statements the filter rewrites. */
module Sql {
  import opened Outcomes
  import opened Bytes

  datatype Literal = NullLit | StrLit(text: ByteString) | IntLit(number: int)

  datatype BinOp =
    | Plus | Minus | Asterisk | Slash | Percentage | Caret
    | Equals | NotEquals | Less | LessEq | Greater | GreaterEq
    | Like | NotLike | ILike | And | Or | Concat

  datatype UnOp = Not | UnaryMinus | IsNull

  datatype Expr =
    | Lit(lit: Literal)
    | Col(table: Option<string>, name: string, alias: Option<string>)
    | Star
    | Array
    | Bin(op: BinOp, left: Expr, right: Expr)
    | Un(uop: UnOp, operand: Expr)
    | In(element: Expr, list: seq<Expr>)

  datatype TableRef =
    | TableName(name: string, alias: Option<string>)
    | TableSelect(select: Select)
    | TableJoin(left: TableRef, right: TableRef, condition: Expr)
    | TableCrossProduct(list: seq<TableRef>)

  datatype GroupBy = GroupBy(columns: seq<Expr>, having: Option<Expr>)

  datatype OrderItem = OrderItem(expr: Expr, ascending: bool)

  datatype Select = Select(
    selectList: seq<Expr>, from: Option<TableRef>, whereClause: Option<Expr>,
    groupBy: Option<GroupBy>, order: seq<OrderItem>,
    limit: Option<nat>, offset: Option<nat>, union: bool)

  datatype UpdateClause = UpdateClause(column: string, value: Expr)

  datatype Statement =
    | SelectStmt(select: Select)
    | InsertValues(table: string, columns: Option<seq<string>>, values: seq<Expr>)
    | InsertSelect(table: string, select: Select)
    | Update(table: string, alias: Option<string>, updates: seq<UpdateClause>, whereClause: Option<Expr>)
    | Delete

  /** A column identified by the name of its table. */
  datatype ColumnRef = ColumnRef(table: string, column: string)

  /** The name a result column carries in the backend's row description. */
  function Label(e: Expr): string
    requires e.Col?
  {
    if e.alias.Some? then e.alias.value else e.name
  }
}
