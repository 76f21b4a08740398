/** A parser that recovers every printed statement, so no two different ones print the same. */
module Reading {
  import opened Outcomes
  import opened Bytes
  import opened Sql
  import opened Dump

  function Size(ts: Tokens): nat {
    match ts
    case End => 0
    case Cons(_, tail) => 1 + Size(tail)
  }

  /** A parsed prefix and what follows it. */
  datatype Parsed<T> = Parsed(value: T, rest: Tokens)

  /** Drops an expected token. */
  function Expect(t: Token, ts: Tokens): (r: Option<Tokens>)
    ensures r.Some? ==> Size(r.value) < Size(ts)
  {
    if ts.Cons? && ts.head == t then Some(ts.tail) else None
  }

  /** The binary operator between two operands, which are always in parentheses. */
  function ParseOperator(ts: Tokens): (r: Option<Parsed<BinOp>>)
    ensures r.Some? ==> Size(r.value.rest) < Size(ts)
    ensures r.Some? ==> r.value.value != Caret
  {
    if ts.End? then None
    else match ts.head
      case PlusSign => Some(Parsed(Plus, ts.tail))
      case MinusSign => Some(Parsed(Minus, ts.tail))
      case StarSign => Some(Parsed(Asterisk, ts.tail))
      case SlashSign => Some(Parsed(Slash, ts.tail))
      case PercentSign => Some(Parsed(Percentage, ts.tail))
      case EqualSign => Some(Parsed(Equals, ts.tail))
      case NotEqualSign => Some(Parsed(NotEquals, ts.tail))
      case LessSign => Some(Parsed(Less, ts.tail))
      case LessEqSign => Some(Parsed(LessEq, ts.tail))
      case GreaterSign => Some(Parsed(Greater, ts.tail))
      case GreaterEqSign => Some(Parsed(GreaterEq, ts.tail))
      case LikeWord => Some(Parsed(Like, ts.tail))
      case NotWord => if ts.tail.Cons? && ts.tail.head == LikeWord then Some(Parsed(NotLike, ts.tail.tail)) else None
      case ILikeWord => Some(Parsed(ILike, ts.tail))
      case AndWord => Some(Parsed(And, ts.tail))
      case OrWord => Some(Parsed(Or, ts.tail))
      case BarBar => Some(Parsed(Concat, ts.tail))
      case _ => None
  }

  function ParseAlias(table: Option<string>, name: string, ts: Tokens): (r: Parsed<Expr>)
    ensures Readable(r.value)
    ensures Size(r.rest) <= Size(ts)
  {
    if ts.Cons? && ts.head == AsWord && ts.tail.Cons? && ts.tail.head.Name? then
      Parsed(Col(table, name, Some(ts.tail.head.name)), ts.tail.tail)
    else Parsed(Col(table, name, None), ts)
  }

  function ParseColumn(ts: Tokens): (r: Option<Parsed<Expr>>)
    requires ts.Cons? && ts.head.Name?
    ensures r.Some? ==> Size(r.value.rest) < Size(ts)
    ensures r.Some? ==> Readable(r.value.value)
  {
    var ts1 := ts.tail;
    if ts1.Cons? && ts1.head == Dot then
      assert Size(ts1) == 1 + Size(ts1.tail);
      if ts1.tail.Cons? && ts1.tail.head.Name? then
        Some(ParseAlias(Some(ts.head.name), ts1.tail.head.name, ts1.tail.tail))
      else None
    else Some(ParseAlias(None, ts.head.name, ts1))
  }

  /** An expression in parentheses. */
  function ParseOperand(ts: Tokens): (r: Option<Parsed<Expr>>)
    ensures r.Some? ==> Size(r.value.rest) < Size(ts)
    ensures r.Some? ==> Readable(r.value.value)
    decreases Size(ts), 0
  {
    if ts.End? || ts.head != LeftPar then None
    else match ParseExpr(ts.tail)
      case None => None
      case Some(Parsed(e, ts1)) =>
        match Expect(RightPar, ts1)
        case None => None
        case Some(ts2) => Some(Parsed(e, ts2))
  }

  /** What follows a first operand. */
  function ParseAfterOperand(e: Expr, ts: Tokens): (r: Option<Parsed<Expr>>)
    requires Readable(e)
    ensures r.Some? ==> Readable(r.value.value)
    ensures r.Some? ==> Size(r.value.rest) < Size(ts)
    decreases Size(ts), 2
  {
    if ts.Cons? && ts.head == IsWord then
      match Expect(NullWord, ts.tail)
      case None => None
      case Some(ts1) => Some(Parsed(Un(IsNull, e), ts1))
    else if ts.Cons? && ts.head == InWord then
      match Expect(LeftPar, ts.tail)
      case None => None
      case Some(ts1) =>
        match ParseList(ts1)
        case None => None
        case Some(Parsed(list, ts2)) =>
          match Expect(RightPar, ts2)
          case None => None
          case Some(ts3) => Some(Parsed(In(e, list), ts3))
    else match ParseOperator(ts)
      case None => None
      case Some(Parsed(op, ts1)) =>
        match ParseOperand(ts1)
        case None => None
        case Some(Parsed(e2, ts2)) => Some(Parsed(Bin(op, e, e2), ts2))
  }

  function ParseUnary(uop: UnOp, ts: Tokens): (r: Option<Parsed<Expr>>)
    ensures r.Some? ==> Size(r.value.rest) < Size(ts)
    ensures r.Some? ==> Readable(r.value.value)
    decreases Size(ts), 1
  {
    match ParseOperand(ts)
    case None => None
    case Some(Parsed(e, ts1)) => Some(Parsed(Un(uop, e), ts1))
  }

  function ParseExpr(ts: Tokens): (r: Option<Parsed<Expr>>)
    ensures r.Some? ==> Size(r.value.rest) < Size(ts)
    ensures r.Some? ==> Readable(r.value.value)
    decreases Size(ts), 1
  {
    if ts.End? then None
    else match ts.head
      case StarSign => Some(Parsed(Star, ts.tail))
      case Number(n) => Some(Parsed(Lit(IntLit(n)), ts.tail))
      case Quoted(t) => Some(Parsed(Lit(StrLit(t)), ts.tail))
      case NullWord => Some(Parsed(Lit(NullLit), ts.tail))
      case Name(_) => ParseColumn(ts)
      case NotWord => ParseUnary(Not, ts.tail)
      case MinusSign =>
        if ts.tail.Cons? && ts.tail.head.Number? then
          var n: int := ts.tail.head.value;
          Some(Parsed(Lit(IntLit(-n)), ts.tail.tail))
        else ParseUnary(UnaryMinus, ts.tail)
      case LeftPar =>
        (match ParseOperand(ts)
         case None => None
         case Some(Parsed(e, ts1)) => ParseAfterOperand(e, ts1))
      case _ => None
  }

  /** One or more expressions with commas between them. */
  function ParseList(ts: Tokens): (r: Option<Parsed<seq<Expr>>>)
    ensures r.Some? ==> Size(r.value.rest) < Size(ts)
    ensures r.Some? ==> ReadableList(r.value.value)
    decreases Size(ts), 2
  {
    match ParseExpr(ts)
    case None => None
    case Some(Parsed(e, ts1)) =>
      if ts1.Cons? && ts1.head == Comma then
        match ParseList(ts1.tail)
        case None => None
        case Some(Parsed(es, ts2)) => Some(Parsed([e] + es, ts2))
      else Some(Parsed([e], ts1))
  }

  // --- which expressions the SQL parser produces, and prints apart ---

  /** No caret (it prints as nothing), no array, and no empty IN list. */
  predicate Readable(e: Expr)
    decreases e, 1
  {
    match e
    case Array => false
    case Bin(op, l, r) => op != Caret && Readable(l) && Readable(r)
    case Un(_, x) => Readable(x)
    case In(x, list) => Readable(x) && ReadableList(list)
    case _ => true
  }

  predicate ReadableList(es: seq<Expr>)
    decreases es, 0
  {
    es != [] && Readable(es[0]) && (|es| > 1 ==> ReadableList(es[1..]))
  }

  predicate ReadableOption(e: Option<Expr>) { e.Some? ==> Readable(e.value) }

  /** Tokens that can follow an expression. */
  predicate EndsExpr(rest: Tokens) { rest.Cons? ==> rest.head != Dot && rest.head != AsWord }

  predicate EndsList(rest: Tokens) { EndsExpr(rest) && (rest.Cons? ==> rest.head != Comma) }

  lemma OperatorRead(op: BinOp, rest: Tokens)
    requires op != Caret
    ensures ParseOperator(Operator(op, rest)) == Some(Parsed(op, rest))
  {
  }

  lemma {:induction false} OperandRead(e: Expr, rest: Tokens)
    requires Readable(e)
    ensures ParseOperand(Cons(LeftPar, ExprTokens(e, Cons(RightPar, rest)))) == Some(Parsed(e, rest))
    decreases e, 2
  {
    ExprRead(e, Cons(RightPar, rest));
  }

  lemma ColumnRead(e: Expr, rest: Tokens)
    requires e.Col? && EndsExpr(rest)
    ensures ParseExpr(ExprTokens(e, rest)) == Some(Parsed(e, rest))
  {
    assert ParseAlias(e.table, e.name, AliasTokens(e.alias, rest)) == Parsed(e, rest);
  }

  /** An operand in parentheses at the front of an expression. */
  lemma OperandFirst(e: Expr, ts: Tokens, rest: Tokens)
    requires ts.Cons? && ts.head == LeftPar && Readable(e) && ParseOperand(ts) == Some(Parsed(e, rest))
    ensures ParseExpr(ts) == ParseAfterOperand(e, rest)
  {
    hide ParseOperand, ParseAfterOperand, ParseList, Readable;
  }

  lemma NullTestParsed(e: Expr, rest: Tokens)
    requires Readable(e)
    ensures ParseAfterOperand(e, Cons(IsWord, Cons(NullWord, rest))) == Some(Parsed(Un(IsNull, e), rest))
  {
    hide ParseOperand, ParseExpr, ParseList, Readable;
  }

  lemma InListParsed(e: Expr, list: seq<Expr>, ts: Tokens, rest: Tokens)
    requires Readable(e) && ParseList(ts) == Some(Parsed(list, Cons(RightPar, rest)))
    ensures ParseAfterOperand(e, Cons(InWord, Cons(LeftPar, ts))) == Some(Parsed(In(e, list), rest))
  {
    hide ParseOperand, ParseExpr, ParseList, Readable;
  }

  lemma OperatorParsed(op: BinOp, e: Expr, e2: Expr, ts: Tokens, rest: Tokens)
    requires op != Caret && Readable(e) && ParseOperand(ts) == Some(Parsed(e2, rest))
    ensures ParseAfterOperand(e, Operator(op, ts)) == Some(Parsed(Bin(op, e, e2), rest))
  {
    hide ParseOperand, ParseExpr, ParseList, Readable;
    OperatorRead(op, ts);
  }

  lemma SignParsed(uop: UnOp, e: Expr, ts: Tokens, rest: Tokens)
    requires uop != IsNull && ts.Cons? && ts.head == LeftPar && ParseOperand(ts) == Some(Parsed(e, rest))
    ensures ParseExpr(Cons(if uop == Not then NotWord else MinusSign, ts)) == Some(Parsed(Un(uop, e), rest))
  {
    hide ParseOperand, ParseAfterOperand, ParseList, Readable;
    assert ParseUnary(uop, ts) == Some(Parsed(Un(uop, e), rest));
  }

  lemma {:induction false} BinaryRead(e: Expr, rest: Tokens)
    requires e.Bin? && Readable(e)
    ensures ParseExpr(ExprTokens(e, rest)) == Some(Parsed(e, rest))
    decreases e, 0
  {
    hide ParseExpr, ParseOperand, ParseAfterOperand;
    var second := Cons(LeftPar, ExprTokens(e.right, Cons(RightPar, rest)));
    OperandRead(e.left, Operator(e.op, second));
    OperandRead(e.right, rest);
    OperandFirst(e.left, ExprTokens(e, rest), Operator(e.op, second));
    OperatorParsed(e.op, e.left, e.right, second, rest);
  }

  lemma {:induction false} InRead(e: Expr, rest: Tokens)
    requires e.In? && Readable(e)
    ensures ParseExpr(ExprTokens(e, rest)) == Some(Parsed(e, rest))
    decreases e, 0
  {
    hide ParseExpr, ParseOperand, ParseAfterOperand, ParseList;
    var list := ListTokens(e.list, Cons(RightPar, rest));
    OperandRead(e.element, Cons(InWord, Cons(LeftPar, list)));
    ListRead(e.list, Cons(RightPar, rest));
    OperandFirst(e.element, ExprTokens(e, rest), Cons(InWord, Cons(LeftPar, list)));
    InListParsed(e.element, e.list, list, rest);
  }

  lemma {:induction false} UnaryRead(e: Expr, rest: Tokens)
    requires e.Un? && Readable(e)
    ensures ParseExpr(ExprTokens(e, rest)) == Some(Parsed(e, rest))
    decreases e, 0
  {
    hide ParseExpr, ParseOperand, ParseAfterOperand, ParseList;
    if e.uop == IsNull {
      var after := Cons(IsWord, Cons(NullWord, rest));
      OperandRead(e.operand, after);
      OperandFirst(e.operand, ExprTokens(e, rest), after);
      NullTestParsed(e.operand, rest);
    } else {
      OperandRead(e.operand, rest);
      SignParsed(e.uop, e.operand, Cons(LeftPar, ExprTokens(e.operand, Cons(RightPar, rest))), rest);
    }
  }

  lemma {:induction false} ExprRead(e: Expr, rest: Tokens)
    requires Readable(e) && EndsExpr(rest)
    ensures ParseExpr(ExprTokens(e, rest)) == Some(Parsed(e, rest))
    decreases e, 1
  {
    match e
    case Bin(_, _, _) => BinaryRead(e, rest);
    case Un(_, _) => UnaryRead(e, rest);
    case In(_, _) => InRead(e, rest);
    case Col(_, _, _) => ColumnRead(e, rest);
    case _ =>
  }

  lemma {:induction false} ListRead(es: seq<Expr>, rest: Tokens)
    requires ReadableList(es) && EndsList(rest)
    ensures ParseList(ListTokens(es, rest)) == Some(Parsed(es, rest))
    decreases es, 0
  {
    if |es| == 1 {
      ExprRead(es[0], rest);
      assert [es[0]] == es;
    } else {
      ExprRead(es[0], Cons(Comma, ListTokens(es[1..], rest)));
      ListRead(es[1..], rest);
      assert [es[0]] + es[1..] == es;
    }
  }

  // --- table references and selects ---

  function ParseTableAlias(name: string, ts: Tokens): (r: Parsed<TableRef>)
    ensures ReadableTable(r.value)
    ensures Size(r.rest) <= Size(ts)
  {
    if ts.Cons? && ts.head.Name? then Parsed(TableName(name, Some(ts.head.name)), ts.tail)
    else Parsed(TableName(name, None), ts)
  }

  /** A table name or a derived table. */
  function ParseTableAtom(ts: Tokens): (r: Option<Parsed<TableRef>>)
    ensures r.Some? ==> Size(r.value.rest) < Size(ts)
    ensures r.Some? ==> ReadableTable(r.value.value)
    decreases Size(ts), 0
  {
    if ts.End? then None
    else if ts.head.Name? then Some(ParseTableAlias(ts.head.name, ts.tail))
    else if ts.head != LeftPar then None
    else match ParseSelect(ts.tail)
      case None => None
      case Some(Parsed(s, ts1)) =>
        match Expect(RightPar, ts1)
        case None => None
        case Some(ts2) => Some(Parsed(TableSelect(s), ts2))
  }

  /** Joins after a left operand; each ends with its own condition. */
  function ParseJoins(left: TableRef, ts: Tokens): (r: Option<Parsed<TableRef>>)
    requires ReadableTable(left)
    ensures r.Some? ==> ReadableTable(r.value.value)
    ensures r.Some? ==> Size(r.value.rest) <= Size(ts)
    decreases Size(ts), 3
  {
    if ts.End? || ts.head != JoinWord then Some(Parsed(left, ts))
    else match ParseTable(ts.tail)
      case None => None
      case Some(Parsed(right, ts1)) =>
        match Expect(OnWord, ts1)
        case None => None
        case Some(ts2) =>
          match ParseOperand(ts2)
          case None => None
          case Some(Parsed(c, ts3)) => ParseJoins(TableJoin(left, right, c), ts3)
  }

  function ParseTable(ts: Tokens): (r: Option<Parsed<TableRef>>)
    ensures r.Some? ==> Size(r.value.rest) < Size(ts)
    ensures r.Some? ==> ReadableTable(r.value.value)
    decreases Size(ts), 4
  {
    match ParseTableAtom(ts)
    case None => None
    case Some(Parsed(tr, ts1)) => ParseJoins(tr, ts1)
  }

  function ParseTables(ts: Tokens): (r: Option<Parsed<seq<TableRef>>>)
    ensures r.Some? ==> Size(r.value.rest) < Size(ts) && r.value.value != []
    ensures r.Some? ==> ReadableTables(r.value.value)
    decreases Size(ts), 5
  {
    match ParseTable(ts)
    case None => None
    case Some(Parsed(tr, ts1)) =>
      if ts1.Cons? && ts1.head == Comma then
        match ParseTables(ts1.tail)
        case None => None
        case Some(Parsed(trs, ts2)) => Some(Parsed([tr] + trs, ts2))
      else Some(Parsed([tr], ts1))
  }

  /** One table is itself; several are a cross product. */
  function Joined(trs: seq<TableRef>): TableRef
    requires trs != []
  {
    if |trs| == 1 then trs[0] else TableCrossProduct(trs)
  }

  function ParseFrom(ts: Tokens): (r: Option<Parsed<Option<TableRef>>>)
    ensures r.Some? ==> Size(r.value.rest) <= Size(ts)
    ensures r.Some? ==> r.value.value.Some? ==> ReadableFrom(r.value.value.value)
    decreases Size(ts), 6
  {
    if ts.End? || ts.head != FromWord then Some(Parsed(None, ts))
    else match ParseTables(ts.tail)
      case None => None
      case Some(Parsed(trs, ts1)) => Some(Parsed(Some(Joined(trs)), ts1))
  }

  function ParseClause(word: Token, ts: Tokens): (r: Option<Parsed<Option<Expr>>>)
    ensures r.Some? ==> Size(r.value.rest) <= Size(ts)
    ensures r.Some? ==> ReadableOption(r.value.value)
  {
    if ts.End? || ts.head != word then Some(Parsed(None, ts))
    else match ParseExpr(ts.tail)
      case None => None
      case Some(Parsed(e, ts1)) => Some(Parsed(Some(e), ts1))
  }

  function ParseGroup(ts: Tokens): (r: Option<Parsed<Option<GroupBy>>>)
    ensures r.Some? ==> Size(r.value.rest) <= Size(ts)
    ensures r.Some? ==> r.value.value.Some? ==>
      ReadableList(r.value.value.value.columns) && ReadableOption(r.value.value.value.having)
  {
    if ts.End? || ts.head != GroupByWord then Some(Parsed(None, ts))
    else match ParseList(ts.tail)
      case None => None
      case Some(Parsed(columns, ts1)) =>
        match ParseClause(HavingWord, ts1)
        case None => None
        case Some(Parsed(having, ts2)) => Some(Parsed(Some(GroupBy(columns, having)), ts2))
  }

  function ParseOrderItems(ts: Tokens): (r: Option<Parsed<seq<OrderItem>>>)
    ensures r.Some? ==> Size(r.value.rest) < Size(ts)
    ensures r.Some? ==> ReadableOrder(r.value.value)
    decreases Size(ts)
  {
    match ParseExpr(ts)
    case None => None
    case Some(Parsed(e, ts1)) =>
      if ts1.End? || (ts1.head != AscWord && ts1.head != DescWord) then None
      else
        var item, ts2 := OrderItem(e, ts1.head == AscWord), ts1.tail;
        assert Size(ts1) == 1 + Size(ts2);
        if ts2.Cons? && ts2.head == Comma then
          match ParseOrderItems(ts2.tail)
          case None => None
          case Some(Parsed(items, ts3)) => Some(Parsed([item] + items, ts3))
        else Some(Parsed([item], ts2))
  }

  function ParseOrder(ts: Tokens): (r: Option<Parsed<seq<OrderItem>>>)
    ensures r.Some? ==> Size(r.value.rest) <= Size(ts)
    ensures r.Some? ==> ReadableOrder(r.value.value)
  {
    if ts.End? || ts.head != OrderByWord then Some(Parsed([], ts)) else ParseOrderItems(ts.tail)
  }

  function ParseNumber(word: Token, ts: Tokens): (r: Option<Parsed<Option<nat>>>)
    ensures r.Some? ==> Size(r.value.rest) <= Size(ts)
  {
    if ts.End? || ts.head != word then Some(Parsed(None, ts))
    else if ts.tail.Cons? && ts.tail.head.Number? then Some(Parsed(Some(ts.tail.head.value), ts.tail.tail))
    else None
  }

  /** The clauses after FROM, put into a select that has none yet. */
  function ParseTail(s: Select, ts: Tokens): (r: Option<Parsed<Select>>)
    ensures r.Some? ==> ReadableTail(r.value.value) && !r.value.value.union
    ensures r.Some? ==> r.value.value.selectList == s.selectList && r.value.value.from == s.from
    ensures r.Some? ==> Size(r.value.rest) <= Size(ts)
  {
    match ParseClause(WhereWord, ts)
    case None => None
    case Some(Parsed(w, ts1)) =>
      match ParseGroup(ts1)
      case None => None
      case Some(Parsed(g, ts2)) =>
        match ParseOrder(ts2)
        case None => None
        case Some(Parsed(order, ts3)) =>
          match ParseNumber(LimitWord, ts3)
          case None => None
          case Some(Parsed(limit, ts4)) =>
            match ParseNumber(OffsetWord, ts4)
            case None => None
            case Some(Parsed(offset, ts5)) =>
              Some(Parsed(Select(s.selectList, s.from, w, g, order, limit, offset, false), ts5))
  }

  function ParseSelect(ts: Tokens): (r: Option<Parsed<Select>>)
    ensures r.Some? ==> Size(r.value.rest) < Size(ts)
    ensures r.Some? ==> ReadableSelect(r.value.value)
    decreases Size(ts), 0
  {
    if ts.End? || ts.head != SelectWord then None
    else match ParseList(ts.tail)
      case None => None
      case Some(Parsed(list, ts1)) =>
        match ParseFrom(ts1)
        case None => None
        case Some(Parsed(from, ts2)) => ParseTail(Select(list, from, None, None, [], None, None, false), ts2)
  }

  /** A table reference as the SQL parser builds it: cross products only at the top, of two or more tables. */
  predicate ReadableFrom(tr: TableRef)
    decreases tr, 2
  {
    if tr.TableCrossProduct? then |tr.list| > 1 && ReadableTables(tr.list) else ReadableTable(tr)
  }

  predicate ReadableTable(tr: TableRef)
    decreases tr, 1
  {
    match tr
    case TableName(_, _) => true
    case TableSelect(s) => ReadableSelect(s)
    case TableJoin(l, r, c) => ReadableTable(l) && ReadableTable(r) && Readable(c)
    case TableCrossProduct(_) => false
  }

  predicate ReadableTables(trs: seq<TableRef>)
    decreases trs, 0
  {
    trs != [] && ReadableTable(trs[0]) && (|trs| > 1 ==> ReadableTables(trs[1..]))
  }

  predicate ReadableOrder(order: seq<OrderItem>) {
    forall i :: 0 <= i < |order| ==> Readable(order[i].expr)
  }

  predicate ReadableTail(s: Select) {
    && ReadableOption(s.whereClause) && ReadableOrder(s.order)
    && (s.groupBy.Some? ==> ReadableList(s.groupBy.value.columns) && ReadableOption(s.groupBy.value.having))
  }

  predicate ReadableSelect(s: Select)
    decreases s, 1
  {
    !s.union && ReadableList(s.selectList) && (s.from.Some? ==> ReadableFrom(s.from.value)) && ReadableTail(s)
  }

  /** Tokens that can follow a select. */
  predicate EndsSelect(rest: Tokens) { rest.Cons? ==> rest.head == RightPar || rest.head == Semicolon }

  predicate EndsTable(rest: Tokens) { rest.Cons? ==> !rest.head.Name? }

  predicate EndsTables(rest: Tokens) { EndsTable(rest) && (rest.Cons? ==> rest.head != Comma && rest.head != JoinWord) }

  lemma ClauseRead(word: Token, e: Option<Expr>, rest: Tokens)
    requires ReadableOption(e) && EndsExpr(rest) && (rest.Cons? ==> rest.head != word)
    ensures ParseClause(word, ClauseTokens(word, e, rest)) == Some(Parsed(e, rest))
  {
    if e.Some? { ExprRead(e.value, rest); }
  }

  lemma {:induction false} OrderRead(order: seq<OrderItem>, rest: Tokens)
    requires order != [] && ReadableOrder(order) && EndsList(rest)
    ensures ParseOrderItems(OrderTokens(order, rest)) == Some(Parsed(order, rest))
  {
    hide ParseExpr, ExprTokens, Readable;
    var rest' := if |order| == 1 then rest else Cons(Comma, OrderTokens(order[1..], rest));
    ExprRead(order[0].expr, Cons(if order[0].ascending then AscWord else DescWord, rest'));
    if |order| > 1 {
      OrderRead(order[1..], rest);
      assert [order[0]] + order[1..] == order;
    } else {
      assert [order[0]] == order;
    }
  }

  lemma GroupRead(g: Option<GroupBy>, rest: Tokens)
    requires g.Some? ==> ReadableList(g.value.columns) && ReadableOption(g.value.having)
    requires EndsList(rest) && (rest.Cons? ==> rest.head != HavingWord && rest.head != GroupByWord)
    ensures ParseGroup(GroupTokens(g, rest)) == Some(Parsed(g, rest))
  {
    if g.Some? {
      ClauseRead(HavingWord, g.value.having, rest);
      ListRead(g.value.columns, ClauseTokens(HavingWord, g.value.having, rest));
    }
  }

  /** ORDER BY, LIMIT and OFFSET. */
  lemma OrderByRead(order: seq<OrderItem>, limit: Option<nat>, offset: Option<nat>, rest: Tokens)
    requires ReadableOrder(order) && EndsSelect(rest)
    ensures
      var limits := LimitTokens(limit, offset, rest);
      && ParseOrder(OrderByTokens(order, limits)) == Some(Parsed(order, limits))
      && ParseNumber(LimitWord, limits) == Some(Parsed(limit, LimitTokens(None, offset, rest)))
      && ParseNumber(OffsetWord, LimitTokens(None, offset, rest)) == Some(Parsed(offset, rest))
  {
    hide ParseOrderItems, OrderTokens;
    if order != [] { OrderRead(order, LimitTokens(limit, offset, rest)); }
  }

  /** Tokens that can follow GROUP BY and HAVING. */
  predicate EndsGroup(rest: Tokens) {
    EndsTables(rest) && EndsList(rest) &&
    (rest.Cons? ==>
       && rest.head != HavingWord && rest.head != GroupByWord
       && rest.head != WhereWord && rest.head != FromWord)
  }

  lemma OrderEndsGroup(order: seq<OrderItem>, limit: Option<nat>, offset: Option<nat>, rest: Tokens)
    requires EndsSelect(rest)
    ensures EndsGroup(OrderByTokens(order, LimitTokens(limit, offset, rest)))
  {
  }

  lemma TailRead(s: Select, rest: Tokens)
    requires ReadableTail(s) && !s.union && EndsSelect(rest)
    ensures ParseTail(Select(s.selectList, s.from, None, None, [], None, None, false), TailTokens(s, rest)) ==
            Some(Parsed(s, rest))
  {
    hide ParseClause, ParseGroup, ParseOrder, ParseNumber, Readable, ReadableList, ReadableOrder;
    var ordered := OrderByTokens(s.order, LimitTokens(s.limit, s.offset, rest));
    OrderByRead(s.order, s.limit, s.offset, rest);
    OrderEndsGroup(s.order, s.limit, s.offset, rest);
    GroupRead(s.groupBy, ordered);
    ClauseRead(WhereWord, s.whereClause, GroupTokens(s.groupBy, ordered));
  }

  lemma TailEnds(s: Select, rest: Tokens)
    requires EndsSelect(rest)
    ensures EndsTables(TailTokens(s, rest)) && EndsList(TailTokens(s, rest))
    ensures TailTokens(s, rest).Cons? ==> TailTokens(s, rest).head != FromWord
  {
    OrderEndsGroup(s.order, s.limit, s.offset, rest);
  }

  lemma JoinParsed(left: TableRef, right: TableRef, c: Expr, ts: Tokens, condition: Tokens, rest: Tokens)
    requires ReadableTable(left)
    requires ParseTable(ts) == Some(Parsed(right, Cons(OnWord, condition)))
    requires ParseOperand(condition) == Some(Parsed(c, rest))
    ensures ParseJoins(left, Cons(JoinWord, ts)) == ParseJoins(TableJoin(left, right, c), rest)
  {
    hide ParseTable, ParseOperand, ParseExpr, Readable;
  }

  lemma {:induction false} JoinRead(tr: TableRef, rest: Tokens)
    requires tr.TableJoin? && ReadableTable(tr)
    ensures ParseTable(TableTokens(tr, rest)) == ParseJoins(tr, rest)
    decreases tr, 0
  {
    var condition := Cons(LeftPar, ExprTokens(tr.condition, Cons(RightPar, rest)));
    var right := TableTokens(tr.right, Cons(OnWord, condition));
    TableRead(tr.left, Cons(JoinWord, right));
    TableRead(tr.right, Cons(OnWord, condition));
    OperandRead(tr.condition, rest);
    JoinParsed(tr.left, tr.right, tr.condition, right, condition, rest);
  }

  lemma NameRead(n: string, a: Option<string>, rest: Tokens)
    requires EndsTable(rest)
    ensures ParseTableAtom(TableTokens(TableName(n, a), rest)) == Some(Parsed(TableName(n, a), rest))
  {
  }

  lemma DerivedParsed(s: Select, ts: Tokens, rest: Tokens)
    requires ParseSelect(ts) == Some(Parsed(s, Cons(RightPar, rest)))
    ensures ParseTableAtom(Cons(LeftPar, ts)) == Some(Parsed(TableSelect(s), rest))
  {
    hide ParseSelect;
  }

  lemma {:induction false} TableRead(tr: TableRef, rest: Tokens)
    requires ReadableTable(tr) && EndsTable(rest)
    ensures ParseTable(TableTokens(tr, rest)) == ParseJoins(tr, rest)
    decreases tr, 1
  {
    match tr
    case TableName(n, a) => NameRead(n, a, rest);
    case TableSelect(s) =>
      SelectRead(s, Cons(RightPar, rest));
      DerivedParsed(s, SelectTokens(s, Cons(RightPar, rest)), rest);
    case TableJoin(_, _, _) => JoinRead(tr, rest);
  }

  lemma {:induction false} TablesRead(trs: seq<TableRef>, rest: Tokens)
    requires ReadableTables(trs) && EndsTables(rest)
    ensures ParseTables(TablesTokens(trs, rest)) == Some(Parsed(trs, rest))
    decreases trs, 0
  {
    hide ParseTable, TableTokens, ReadableTable;
    if |trs| == 1 {
      TableRead(trs[0], rest);
      assert [trs[0]] == trs;
    } else {
      TableRead(trs[0], Cons(Comma, TablesTokens(trs[1..], rest)));
      TablesRead(trs[1..], rest);
      assert [trs[0]] + trs[1..] == trs;
    }
  }

  lemma {:induction false} FromRead(tr: TableRef, rest: Tokens)
    requires ReadableFrom(tr) && EndsTables(rest)
    ensures ParseFrom(Cons(FromWord, TableTokens(tr, rest))) == Some(Parsed(Some(tr), rest))
    decreases tr, 2
  {
    if tr.TableCrossProduct? {
      TablesRead(tr.list, rest);
    } else {
      TableRead(tr, rest);
      assert ParseTables(TableTokens(tr, rest)) == Some(Parsed([tr], rest));
    }
  }

  lemma NoFromRead(ts: Tokens)
    requires ts.Cons? ==> ts.head != FromWord
    ensures ParseFrom(ts) == Some(Parsed(None, ts))
  {
    hide ParseTables;
  }

  lemma {:induction false} SelectRead(s: Select, rest: Tokens)
    requires ReadableSelect(s) && EndsSelect(rest)
    ensures ParseSelect(SelectTokens(s, rest)) == Some(Parsed(s, rest))
    decreases s, 1
  {
    hide ParseTail, ParseFrom, ParseList, ReadableTail, ReadableFrom, ReadableList, TailTokens, TableTokens, ListTokens;
    var tail := TailTokens(s, rest);
    TailRead(s, rest);
    TailEnds(s, rest);
    if s.from.Some? { FromRead(s.from.value, tail); } else { NoFromRead(tail); }
    ListRead(s.selectList, if s.from.Some? then Cons(FromWord, TableTokens(s.from.value, tail)) else tail);
  }

  // --- statements ---

  function ParseNames(ts: Tokens): (r: Option<Parsed<seq<string>>>)
    ensures r.Some? ==> Size(r.value.rest) < Size(ts)
    ensures r.Some? ==> r.value.value != []
    decreases Size(ts)
  {
    if ts.End? || !ts.head.Name? then None
    else if ts.tail.Cons? && ts.tail.head == Comma then
      assert Size(ts.tail) == 1 + Size(ts.tail.tail);
      match ParseNames(ts.tail.tail)
      case None => None
      case Some(Parsed(names, ts1)) => Some(Parsed([ts.head.name] + names, ts1))
    else Some(Parsed([ts.head.name], ts.tail))
  }

  predicate ReadableUpdates(updates: seq<UpdateClause>) {
    forall i :: 0 <= i < |updates| ==> Readable(updates[i].value)
  }

  function ParseUpdates(ts: Tokens): (r: Option<Parsed<seq<UpdateClause>>>)
    ensures r.Some? ==> Size(r.value.rest) < Size(ts)
    ensures r.Some? ==> r.value.value != [] && ReadableUpdates(r.value.value)
    decreases Size(ts)
  {
    if ts.End? || !ts.head.Name? then None
    else match Expect(EqualSign, ts.tail)
      case None => None
      case Some(ts1) =>
        match ParseExpr(ts1)
        case None => None
        case Some(Parsed(e, ts2)) =>
          var clause := UpdateClause(ts.head.name, e);
          if ts2.Cons? && ts2.head == Comma then
            match ParseUpdates(ts2.tail)
            case None => None
            case Some(Parsed(updates, ts3)) => Some(Parsed([clause] + updates, ts3))
          else Some(Parsed([clause], ts2))
  }

  /** The columns and the values of an INSERT, after the first parenthesis. */
  function ParseValues(t: string, ts: Tokens): (r: Option<Parsed<Statement>>)
    ensures r.Some? ==> ReadableStatement(r.value.value)
  {
    match ParseNames(ts)
    case None => None
    case Some(Parsed(columns, ts1)) =>
      if ts1.End? || ts1.head != RightPar || ts1.tail.End? || ts1.tail.head != ValuesWord then None
      else match Expect(LeftPar, ts1.tail.tail)
        case None => None
        case Some(ts2) =>
          match ParseList(ts2)
          case None => None
          case Some(Parsed(values, ts3)) =>
            match Expect(RightPar, ts3)
            case None => None
            case Some(ts4) => Some(Parsed(InsertValues(t, Some(columns), values), ts4))
  }

  function ParseBody(ts: Tokens): (r: Option<Parsed<Statement>>)
    ensures r.Some? ==> ReadableStatement(r.value.value)
  {
    if ts.End? then None
    else if ts.head == SelectWord then
      match ParseSelect(ts)
      case None => None
      case Some(Parsed(s, ts1)) => Some(Parsed(SelectStmt(s), ts1))
    else if ts.head == InsertInto && ts.tail.Cons? && ts.tail.head.Name? then
      var ts1 := ts.tail.tail;
      if ts1.Cons? && ts1.head == LeftPar then ParseValues(ts.tail.head.name, ts1.tail)
      else match ParseSelect(ts1)
        case None => None
        case Some(Parsed(s, ts2)) => Some(Parsed(InsertSelect(ts.tail.head.name, s), ts2))
    else if ts.head == UpdateWord && ts.tail.Cons? && ts.tail.head.Name? then
      match Expect(SetWord, ts.tail.tail)
      case None => None
      case Some(ts1) =>
        match ParseUpdates(ts1)
        case None => None
        case Some(Parsed(updates, ts2)) =>
          match ParseClause(WhereWord, ts2)
          case None => None
          case Some(Parsed(w, ts3)) => Some(Parsed(Update(ts.tail.head.name, None, updates, w), ts3))
    else None
  }

  function ParseStatement(ts: Tokens): (r: Option<Parsed<Statement>>)
    ensures r.Some? ==> ReadableStatement(r.value.value)
  {
    match ParseBody(ts)
    case None => None
    case Some(Parsed(st, ts1)) =>
      match Expect(Semicolon, ts1)
      case None => None
      case Some(ts2) => Some(Parsed(st, ts2))
  }

  /** No empty list, and no UPDATE alias: the dumper does not print it. */
  predicate ReadableStatement(st: Statement) {
    match st
    case SelectStmt(s) => ReadableSelect(s)
    case InsertValues(_, columns, values) => columns.Some? && columns.value != [] && ReadableList(values)
    case InsertSelect(_, s) => ReadableSelect(s)
    case Update(_, alias, updates, w) =>
      alias.None? && updates != [] && ReadableUpdates(updates) && ReadableOption(w)
    case Delete => false
  }

  lemma {:induction false} NamesRead(names: seq<string>, rest: Tokens)
    requires names != [] && (rest.Cons? ==> rest.head != Comma)
    ensures ParseNames(NamesTokens(names, rest)) == Some(Parsed(names, rest))
  {
    if |names| > 1 {
      NamesRead(names[1..], rest);
      assert [names[0]] + names[1..] == names;
    } else {
      assert [names[0]] == names;
    }
  }

  lemma {:induction false} UpdatesRead(updates: seq<UpdateClause>, rest: Tokens)
    requires updates != [] && ReadableUpdates(updates)
    requires EndsList(rest)
    ensures ParseUpdates(ClausesTokens(updates, rest)) == Some(Parsed(updates, rest))
  {
    hide ParseExpr, ExprTokens, Readable;
    var rest' := if |updates| == 1 then rest else Cons(Comma, ClausesTokens(updates[1..], rest));
    ExprRead(updates[0].value, rest');
    if |updates| > 1 {
      UpdatesRead(updates[1..], rest);
      assert [updates[0]] + updates[1..] == updates;
    } else {
      assert [updates[0]] == updates;
    }
  }

  lemma ValuesParsed(t: string, columns: seq<string>, values: seq<Expr>, names: Tokens, list: Tokens, rest: Tokens)
    requires ParseNames(names) == Some(Parsed(columns, Cons(RightPar, Cons(ValuesWord, Cons(LeftPar, list)))))
    requires ParseList(list) == Some(Parsed(values, Cons(RightPar, rest)))
    ensures ParseValues(t, names) == Some(Parsed(InsertValues(t, Some(columns), values), rest))
  {
    assert Expect(LeftPar, Cons(LeftPar, list)) == Some(list);
    assert Expect(RightPar, Cons(RightPar, rest)) == Some(rest);
  }

  lemma InsertParsed(t: string, names: Tokens, parsed: Option<Parsed<Statement>>)
    requires ParseValues(t, names) == parsed
    ensures ParseBody(Cons(InsertInto, Cons(Name(t), Cons(LeftPar, names)))) == parsed
  {
    hide ParseValues, ParseSelect, ParseUpdates, ParseClause, Expect;
  }

  lemma ValuesRead(t: string, columns: seq<string>, values: seq<Expr>, rest: Tokens)
    requires columns != [] && ReadableList(values)
    ensures ParseStatement(StatementTokens(InsertValues(t, Some(columns), values), rest)) ==
            Some(Parsed(InsertValues(t, Some(columns), values), rest))
  {
    var list := ListTokens(values, Cons(RightPar, Cons(Semicolon, rest)));
    var names := NamesTokens(columns, Cons(RightPar, Cons(ValuesWord, Cons(LeftPar, list))));
    NamesRead(columns, Cons(RightPar, Cons(ValuesWord, Cons(LeftPar, list))));
    ListRead(values, Cons(RightPar, Cons(Semicolon, rest)));
    ValuesParsed(t, columns, values, names, list, Cons(Semicolon, rest));
    InsertParsed(t, names, ParseValues(t, names));
    BodyParsed(InsertValues(t, Some(columns), values), Cons(InsertInto, Cons(Name(t), Cons(LeftPar, names))), rest);
  }

  lemma UpdateParsed(t: string, updates: seq<UpdateClause>, w: Option<Expr>, ts: Tokens, ts2: Tokens, rest: Tokens)
    requires ParseUpdates(ts) == Some(Parsed(updates, ts2)) && ParseClause(WhereWord, ts2) == Some(Parsed(w, rest))
    ensures ParseBody(Cons(UpdateWord, Cons(Name(t), Cons(SetWord, ts)))) ==
      Some(Parsed(Update(t, None, updates, w), rest))
  {
    hide ParseValues, ParseSelect, ParseUpdates, ParseClause;
  }

  lemma SelectParsed(t: string, s: Select, ts: Tokens, rest: Tokens)
    requires ParseSelect(ts) == Some(Parsed(s, rest))
    ensures ParseBody(ts) == Some(Parsed(SelectStmt(s), rest))
    ensures ParseBody(Cons(InsertInto, Cons(Name(t), ts))) == Some(Parsed(InsertSelect(t, s), rest))
  {
    hide ParseValues, ParseUpdates, ParseClause, Expect;
  }

  lemma BodyParsed(st: Statement, ts: Tokens, rest: Tokens)
    requires ParseBody(ts) == Some(Parsed(st, Cons(Semicolon, rest)))
    ensures ParseStatement(ts) == Some(Parsed(st, rest))
  {
  }

  /** The printed statement is read back, whatever follows it. */
  lemma StatementRead(st: Statement, rest: Tokens)
    requires ReadableStatement(st)
    ensures ParseStatement(StatementTokens(st, rest)) == Some(Parsed(st, rest))
  {
    var end := Cons(Semicolon, rest);
    match st
    case SelectStmt(s) =>
      SelectRead(s, end);
      SelectParsed("", s, SelectTokens(s, end), end);
      BodyParsed(st, SelectTokens(s, end), rest);
    case InsertValues(t, columns, values) => ValuesRead(t, columns.value, values, rest);
    case InsertSelect(t, s) =>
      SelectRead(s, end);
      SelectParsed(t, s, SelectTokens(s, end), end);
      BodyParsed(st, Cons(InsertInto, Cons(Name(t), SelectTokens(s, end))), rest);
    case Update(t, _, updates, w) =>
      var clauses := ClausesTokens(updates, ClauseTokens(WhereWord, w, end));
      ClauseRead(WhereWord, w, end);
      UpdatesRead(updates, ClauseTokens(WhereWord, w, end));
      UpdateParsed(t, updates, w, clauses, ClauseTokens(WhereWord, w, end), end);
      BodyParsed(st, Cons(UpdateWord, Cons(Name(t), Cons(SetWord, clauses))), rest);
  }

  /** Exactly the readable statements are read back. */
  lemma ReadBackIff(st: Statement, rest: Tokens)
    ensures ParseStatement(StatementTokens(st, rest)) == Some(Parsed(st, rest)) <==> ReadableStatement(st)
  {
    if ReadableStatement(st) { StatementRead(st, rest); }
  }

  /** Unique readability: two statements that print the same are the same. */
  lemma PrintsApart(st1: Statement, st2: Statement)
    requires ReadableStatement(st1) && ReadableStatement(st2)
    requires StatementTokens(st1, End) == StatementTokens(st2, End)
    ensures st1 == st2
  {
    StatementRead(st1, End);
    StatementRead(st2, End);
  }

  // --- what the conditions exclude ---

  /** The dumper prints no UPDATE alias: every statement with one prints as the one without. */
  lemma UpdateAliasLost(t: string, alias: string, updates: seq<UpdateClause>, w: Option<Expr>)
    ensures StatementTokens(Update(t, Some(alias), updates, w), End) ==
      StatementTokens(Update(t, None, updates, w), End)
  {
  }

  /** A cross product inside a join prints as a join inside a cross product. */
  lemma NestedProductLost(a: TableRef, b: TableRef, c: TableRef, condition: Expr, rest: Tokens)
    ensures TableTokens(TableJoin(TableCrossProduct([a, b]), c, condition), rest) ==
            TableTokens(TableCrossProduct([a, TableJoin(b, c, condition)]), rest)
  {
    var join := TableJoin(b, c, condition);
    assert [a, b][1..] == [b] && [a, join][1..] == [join];
    var right := Cons(JoinWord,
      TableTokens(c, Cons(OnWord, Cons(LeftPar, ExprTokens(condition, Cons(RightPar, rest))))));
    assert TablesTokens([b], right) == TableTokens(b, right) == TableTokens(join, rest);
    assert TablesTokens([join], rest) == TableTokens(join, rest);
    assert TablesTokens([a, b], right) == TableTokens(a, Cons(Comma, TablesTokens([b], right)));
    assert TablesTokens([a, join], rest) == TableTokens(a, Cons(Comma, TablesTokens([join], rest)));
  }
}
