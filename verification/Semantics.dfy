/** What the backend computes: SQL expressions with three-valued logic over tables of rows. */
module Semantics {
  import opened Outcomes
  import opened Bytes
  import opened Sql

  datatype Value = Null | Text(text: ByteString) | Num(number: int) | Bool(truth: bool)

  type Row = map<string, Value>
  type Database = map<string, seq<Row>>

  /** The tables of a FROM clause: qualifier to table name. */
  type Scope = map<string, string>

  /** A combination of rows: qualifier to row number. */
  type Binding = map<string, nat>

  /** The operators whose meaning does not matter here, on any operands. */
  datatype Operators = Operators(binary: (BinOp, Value, Value) -> Value, unary: (UnOp, Value) -> Value)

  function LiteralValue(l: Literal): Value {
    match l
    case NullLit => Null
    case StrLit(t) => Text(t)
    case IntLit(n) => Num(n)
  }

  /** The text of a value in a data row; nothing for NULL. */
  function CellText(v: Value): Option<ByteString> {
    match v
    case Null => None
    case Text(t) => Some(t)
    case Num(n) => Some(Decimal(n))
    case Bool(b) => Some([if b then 116 else 102])
  }

  /** Equality of non-null values: of the same kind, or by their text after coercion. */
  predicate SameValue(a: Value, b: Value) {
    if (a.Text? && b.Text?) || (a.Num? && b.Num?) || (a.Bool? && b.Bool?) then a == b
    else CellText(a) == CellText(b)
  }

  function EqualsValue(a: Value, b: Value): Value {
    if a.Null? || b.Null? then Null else Bool(SameValue(a, b))
  }

  function NotValue(a: Value): Value {
    if a.Bool? then Bool(!a.truth) else Null
  }

  function AndValue(a: Value, b: Value): Value {
    if a == Bool(false) || b == Bool(false) then Bool(false)
    else if a == Bool(true) && b == Bool(true) then Bool(true)
    else Null
  }

  function OrValue(a: Value, b: Value): Value {
    NotValue(AndValue(NotValue(a), NotValue(b)))
  }

  /** The cell a qualified column names in a combination of rows; NULL when there is none. */
  function Cell(db: Database, scope: Scope, b: Binding, qualifier: string, column: string): Value {
    if qualifier !in b || qualifier !in scope || scope[qualifier] !in db || b[qualifier] >= |db[scope[qualifier]]|
    then Null
    else
      var row := db[scope[qualifier]][b[qualifier]];
      if column in row then row[column] else Null
  }

  function Eval(ops: Operators, db: Database, scope: Scope, b: Binding, e: Expr): Value
    decreases e, 1
  {
    match e
    case Lit(l) => LiteralValue(l)
    case Col(Some(q), n, _) => Cell(db, scope, b, q, n)
    case Col(None, _, _) => Null
    case Star => Null
    case Array => Null
    case Bin(op, l, r) =>
      var v, w := Eval(ops, db, scope, b, l), Eval(ops, db, scope, b, r);
      (match op
       case Equals => EqualsValue(v, w)
       case NotEquals => NotValue(EqualsValue(v, w))
       case And => AndValue(v, w)
       case Or => OrValue(v, w)
       case _ => ops.binary(op, v, w))
    case Un(op, x) =>
      var v := Eval(ops, db, scope, b, x);
      (match op
       case Not => NotValue(v)
       case IsNull => Bool(v.Null?)
       case UnaryMinus => ops.unary(op, v))
    case In(x, list) => EvalIn(ops, db, scope, b, Eval(ops, db, scope, b, x), list)
  }

  function EvalIn(ops: Operators, db: Database, scope: Scope, b: Binding, v: Value, list: seq<Expr>): Value
    decreases list, 0
  {
    if list == [] then Bool(false)
    else OrValue(EqualsValue(v, Eval(ops, db, scope, b, list[0])), EvalIn(ops, db, scope, b, v, list[1..]))
  }

  /** A condition keeps a row when it is true, not when it is false or unknown. */
  predicate Holds(ops: Operators, db: Database, scope: Scope, b: Binding, e: Expr) {
    Eval(ops, db, scope, b, e) == Bool(true)
  }

  function Satisfying(ops: Operators, db: Database, scope: Scope, e: Expr): Binding -> bool {
    b => Holds(ops, db, scope, b, e)
  }

  // --- FROM: nested loops over the tables, in the order they are written ---

  function Filter<T>(p: T -> bool, s: seq<T>): seq<T> {
    if s == [] then [] else (if p(s[0]) then [s[0]] else []) + Filter(p, s[1..])
  }

  function Pairings(b: Binding, right: seq<Binding>): seq<Binding> {
    if right == [] then [] else [b + right[0]] + Pairings(b, right[1..])
  }

  function Product(left: seq<Binding>, right: seq<Binding>): seq<Binding> {
    if left == [] then [] else Pairings(left[0], right) + Product(left[1..], right)
  }

  function Qualifier(tr: TableRef): string
    requires tr.TableName?
  {
    if tr.alias.Some? then tr.alias.value else tr.name
  }

  /** Derived tables are outside the fragment this semantics covers. */
  predicate Flat(tr: TableRef)
    decreases tr, 1
  {
    match tr
    case TableName(_, _) => true
    case TableSelect(_) => false
    case TableJoin(l, r, _) => Flat(l) && Flat(r)
    case TableCrossProduct(list) => FlatList(list)
  }

  predicate FlatList(trs: seq<TableRef>)
    decreases trs, 0
  {
    trs == [] || (Flat(trs[0]) && FlatList(trs[1..]))
  }

  function Rows(qualifier: string, count: nat): seq<Binding> {
    if count == 0 then [] else Rows(qualifier, count - 1) + [map[qualifier := count - 1]]
  }

  function Bindings(ops: Operators, db: Database, scope: Scope, tr: TableRef): seq<Binding>
    requires Flat(tr)
    decreases tr, 1
  {
    match tr
    case TableName(n, _) => Rows(Qualifier(tr), if n in db then |db[n]| else 0)
    case TableJoin(l, r, c) =>
      Filter(Satisfying(ops, db, scope, c), Product(Bindings(ops, db, scope, l), Bindings(ops, db, scope, r)))
    case TableCrossProduct(list) => BindingsList(ops, db, scope, list)
  }

  function BindingsList(ops: Operators, db: Database, scope: Scope, trs: seq<TableRef>): seq<Binding>
    requires FlatList(trs)
    decreases trs, 0
  {
    if trs == [] then [map[]]
    else Product(Bindings(ops, db, scope, trs[0]), BindingsList(ops, db, scope, trs[1..]))
  }

  /** The qualifiers of a FROM clause with their tables, in order. */
  function Tables(tr: TableRef): seq<(string, string)>
    decreases tr, 1
  {
    match tr
    case TableName(n, _) => [(Qualifier(tr), n)]
    case TableSelect(_) => []
    case TableJoin(l, r, _) => Tables(l) + Tables(r)
    case TableCrossProduct(list) => TablesList(list)
  }

  function TablesList(trs: seq<TableRef>): seq<(string, string)>
    decreases trs, 0
  {
    if trs == [] then [] else Tables(trs[0]) + TablesList(trs[1..])
  }

  function ScopeOf(tables: seq<(string, string)>): Scope {
    if tables == [] then map[] else ScopeOf(tables[1..])[tables[0].0 := tables[0].1]
  }

  // --- SELECT ---

  function Project(ops: Operators, db: Database, scope: Scope, b: Binding, list: seq<Expr>): seq<Option<ByteString>> {
    if list == [] then [] else [CellText(Eval(ops, db, scope, b, list[0]))] + Project(ops, db, scope, b, list[1..])
  }

  function ProjectAll(ops: Operators, db: Database, scope: Scope, bs: seq<Binding>,
                      list: seq<Expr>): seq<seq<Option<ByteString>>> {
    if bs == [] then [] else [Project(ops, db, scope, bs[0], list)] + ProjectAll(ops, db, scope, bs[1..], list)
  }

  /** The combinations of rows a select keeps. */
  function Kept(ops: Operators, db: Database, s: Select): seq<Binding>
    requires s.from.Some? && Flat(s.from.value)
  {
    var scope := ScopeOf(Tables(s.from.value));
    var bs := Bindings(ops, db, scope, s.from.value);
    if s.whereClause.Some? then Filter(Satisfying(ops, db, scope, s.whereClause.value), bs) else bs
  }

  // --- GROUP BY and HAVING ---

  /** The first of each run of combinations that `same` puts together, in order. */
  function FirstOfEach(same: (Binding, Binding) -> bool, bs: seq<Binding>): seq<Binding> {
    if bs == [] then []
    else
      var n := |bs| - 1;
      FirstOfEach(same, bs[..n]) + (if exists i :: 0 <= i < n && same(bs[i], bs[n]) then [] else [bs[n]])
  }

  /** The combinations that fall into one group: their keys are equal, NULL with NULL. */
  function SameGroup(ops: Operators, db: Database, scope: Scope, keys: seq<Expr>): (Binding, Binding) -> bool {
    (b, c) => Values(ops, db, scope, b, keys) == Values(ops, db, scope, c, keys)
  }

  /** A group is answered with its first row, and HAVING is asked of that row. */
  function Grouped(ops: Operators, db: Database, scope: Scope, g: Option<GroupBy>, bs: seq<Binding>): seq<Binding> {
    if g.None? then bs
    else
      var firsts := FirstOfEach(SameGroup(ops, db, scope, g.value.columns), bs);
      if g.value.having.Some? then Filter(Satisfying(ops, db, scope, g.value.having.value), firsts) else firsts
  }

  // --- ORDER BY: a stable sort ---

  /** NULL comes last in ascending order, other values by the backend's `<`. */
  predicate Ascends(ops: Operators, v: Value, w: Value) {
    !v.Null? && (w.Null? || ops.binary(Less, v, w) == Bool(true))
  }

  predicate Precedes(ops: Operators, ascending: bool, v: Value, w: Value) {
    if ascending then Ascends(ops, v, w) else Ascends(ops, w, v)
  }

  /** The keys compared one after the other. */
  predicate Earlier(ops: Operators, order: seq<OrderItem>, ks: seq<Value>, ls: seq<Value>)
    requires |order| == |ks| == |ls|
  {
    order != [] &&
    (Precedes(ops, order[0].ascending, ks[0], ls[0]) ||
     (!Precedes(ops, order[0].ascending, ls[0], ks[0]) && Earlier(ops, order[1..], ks[1..], ls[1..])))
  }

  /** A whole number in ORDER BY is the position of a select item. */
  predicate IsPosition(list: seq<Expr>, e: Expr) {
    e.Lit? && e.lit.IntLit? && 1 <= e.lit.number <= |list|
  }

  function OrderTarget(list: seq<Expr>, e: Expr): Expr {
    if IsPosition(list, e) then list[e.lit.number - 1] else e
  }

  function OrderTargets(list: seq<Expr>, order: seq<OrderItem>): (r: seq<Expr>)
    ensures |r| == |order| && forall i :: 0 <= i < |order| ==> r[i] == OrderTarget(list, order[i].expr)
  {
    seq(|order|, i requires 0 <= i < |order| => OrderTarget(list, order[i].expr))
  }

  /** The combinations that come first in the order of a select. */
  function Before(ops: Operators, db: Database, scope: Scope, list: seq<Expr>, order: seq<OrderItem>)
    : (Binding, Binding) -> bool
  {
    (b, c) => Earlier(ops, order, Values(ops, db, scope, b, OrderTargets(list, order)),
                      Values(ops, db, scope, c, OrderTargets(list, order)))
  }

  /** In front of the first element that does not come before it. */
  function Insert<T>(before: (T, T) -> bool, x: T, s: seq<T>): seq<T> {
    if s == [] || !before(s[0], x) then [x] + s else [s[0]] + Insert(before, x, s[1..])
  }

  function Sort<T>(before: (T, T) -> bool, s: seq<T>): seq<T> {
    if s == [] then [] else Insert(before, s[0], Sort(before, s[1..]))
  }

  // --- LIMIT and OFFSET ---

  function Slice<T>(limit: Option<nat>, offset: Option<nat>, s: seq<T>): seq<T> {
    var s1 := if offset.None? then s else if offset.value <= |s| then s[offset.value..] else [];
    if limit.Some? && limit.value <= |s1| then s1[..limit.value] else s1
  }

  /** The combinations of rows a select is answered with. */
  function Answered(ops: Operators, db: Database, s: Select): seq<Binding>
    requires s.from.Some? && Flat(s.from.value)
  {
    var scope := ScopeOf(Tables(s.from.value));
    var rows := Grouped(ops, db, scope, s.groupBy, Kept(ops, db, s));
    Slice(s.limit, s.offset, Sort(Before(ops, db, scope, s.selectList, s.order), rows))
  }

  /** The data rows the backend answers a select with. */
  function RunSelect(ops: Operators, db: Database, s: Select): seq<seq<Option<ByteString>>>
    requires s.from.Some? && Flat(s.from.value)
  {
    ProjectAll(ops, db, ScopeOf(Tables(s.from.value)), Answered(ops, db, s), s.selectList)
  }

  // --- INSERT and UPDATE ---

  predicate NoDuplicates<T(==)>(s: seq<T>) {
    forall i, j :: 0 <= i < j < |s| ==> s[i] != s[j]
  }

  function RowOf(columns: seq<string>, values: seq<Value>): Row
    requires |columns| == |values|
  {
    if columns == [] then map[] else RowOf(columns[1..], values[1..])[columns[0] := values[0]]
  }

  function Values(ops: Operators, db: Database, scope: Scope, b: Binding, es: seq<Expr>): (vs: seq<Value>)
    ensures |vs| == |es| && forall i :: 0 <= i < |es| ==> vs[i] == Eval(ops, db, scope, b, es[i])
  {
    seq(|es|, i requires 0 <= i < |es| => Eval(ops, db, scope, b, es[i]))
  }

  /** The statement's columns are distinct columns of its table. */
  predicate Writable(schema: map<string, set<string>>, table: string, columns: seq<string>) {
    table in schema && NoDuplicates(columns) && forall c :: c in columns ==> c in schema[table]
  }

  /** Appends one row; columns that are not written are NULL. Nothing when the backend rejects. */
  function RunInsert(ops: Operators, schema: map<string, set<string>>, db: Database,
                     table: string, columns: seq<string>, values: seq<Expr>): Option<Database>
  {
    if !Writable(schema, table, columns) || table !in db || |columns| != |values| then None
    else
      var blank := map c | c in schema[table] :: Null;
      Some(db[table := db[table] + [blank + RowOf(columns, Values(ops, db, map[], map[], values))]])
  }

  /** The row an update leaves in place of row i. */
  function UpdatedRow(ops: Operators, db: Database, table: string, i: nat, columns: seq<string>, values: seq<Expr>,
                      whereClause: Option<Expr>): Row
    requires table in db && i < |db[table]| && |columns| == |values|
  {
    var scope, b := map[table := table], map[table := i];
    if whereClause.Some? && !Holds(ops, db, scope, b, whereClause.value) then db[table][i]
    else db[table][i] + RowOf(columns, Values(ops, db, scope, b, values))
  }

  function RunUpdate(ops: Operators, schema: map<string, set<string>>, db: Database,
                     table: string, columns: seq<string>, values: seq<Expr>,
                       whereClause: Option<Expr>): Option<Database>
  {
    if !Writable(schema, table, columns) || table !in db || |columns| != |values| then None
    else
      Some(db[table := seq(|db[table]|, i requires 0 <= i < |db[table]| =>
                             UpdatedRow(ops, db, table, i, columns, values, whereClause))])
  }
}
