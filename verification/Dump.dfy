/** Printing a statement back to SQL, as a sequence of tokens. */
module Dump {
  import opened Outcomes
  import opened Bytes
  import opened Sql

  datatype Token =
    | Name(name: string) | Number(value: nat) | Quoted(text: ByteString)
    | LeftPar | RightPar | Comma | Dot | Semicolon | EqualSign
    | PlusSign | MinusSign | StarSign | SlashSign | PercentSign | NotEqualSign
    | LessSign | LessEqSign | GreaterSign | GreaterEqSign | BarBar
    | AndWord | OrWord | NotWord | LikeWord | ILikeWord | InWord | IsWord | NullWord | AsWord
    | SelectWord | FromWord | WhereWord | GroupByWord | HavingWord | OrderByWord | AscWord | DescWord
    | LimitWord | OffsetWord | JoinWord | OnWord | InsertInto | ValuesWord | UpdateWord | SetWord

  /** A token stream, read from the front. */
  datatype Tokens = End | Cons(head: Token, tail: Tokens)

  /** Tokens already written, followed by those to come. */
  function Onto(written: seq<Token>, rest: Tokens): Tokens
    decreases |written|
  {
    if written == [] then rest else Onto(written[..|written| - 1], Cons(written[|written| - 1], rest))
  }

  /** operatorToString: the caret has no text. */
  function Operator(op: BinOp, rest: Tokens): Tokens {
    match op
    case Plus => Cons(PlusSign, rest)
    case Minus => Cons(MinusSign, rest)
    case Asterisk => Cons(StarSign, rest)
    case Slash => Cons(SlashSign, rest)
    case Percentage => Cons(PercentSign, rest)
    case Caret => rest
    case Equals => Cons(EqualSign, rest)
    case NotEquals => Cons(NotEqualSign, rest)
    case Less => Cons(LessSign, rest)
    case LessEq => Cons(LessEqSign, rest)
    case Greater => Cons(GreaterSign, rest)
    case GreaterEq => Cons(GreaterEqSign, rest)
    case Like => Cons(LikeWord, rest)
    case NotLike => Cons(NotWord, Cons(LikeWord, rest))
    case ILike => Cons(ILikeWord, rest)
    case And => Cons(AndWord, rest)
    case Or => Cons(OrWord, rest)
    case Concat => Cons(BarBar, rest)
  }

  function LiteralTokens(l: Literal, rest: Tokens): Tokens {
    match l
    case NullLit => Cons(NullWord, rest)
    case StrLit(t) => Cons(Quoted(t), rest)
    case IntLit(n) => if n < 0 then Cons(MinusSign, Cons(Number(-n), rest)) else Cons(Number(n), rest)
  }

  function AliasTokens(alias: Option<string>, rest: Tokens): Tokens {
    if alias.Some? then Cons(AsWord, Cons(Name(alias.value), rest)) else rest
  }

  /** The tokens of an expression followed by the rest of the query. */
  function ExprTokens(e: Expr, rest: Tokens): Tokens
    decreases e, 1
  {
    match e
    case Lit(l) => LiteralTokens(l, rest)
    case Star => Cons(StarSign, rest)
    case Array => rest
    case Col(Some(t), n, a) => Cons(Name(t), Cons(Dot, Cons(Name(n), AliasTokens(a, rest))))
    case Col(None, n, a) => Cons(Name(n), AliasTokens(a, rest))
    case Bin(op, l, r) =>
      Cons(LeftPar, ExprTokens(l, Cons(RightPar, Operator(op, Cons(LeftPar, ExprTokens(r, Cons(RightPar, rest)))))))
    case Un(Not, x) => Cons(NotWord, Cons(LeftPar, ExprTokens(x, Cons(RightPar, rest))))
    case Un(UnaryMinus, x) => Cons(MinusSign, Cons(LeftPar, ExprTokens(x, Cons(RightPar, rest))))
    case Un(IsNull, x) => Cons(LeftPar, ExprTokens(x, Cons(RightPar, Cons(IsWord, Cons(NullWord, rest)))))
    case In(x, list) =>
      Cons(LeftPar, ExprTokens(x, Cons(RightPar, Cons(InWord, Cons(LeftPar, ListTokens(list, Cons(RightPar, rest)))))))
  }

  /** Expressions with commas between them. */
  function ListTokens(es: seq<Expr>, rest: Tokens): Tokens
    decreases es, 0
  {
    if es == [] then rest
    else if |es| == 1 then ExprTokens(es[0], rest)
    else ExprTokens(es[0], Cons(Comma, ListTokens(es[1..], rest)))
  }

  function TableTokens(tr: TableRef, rest: Tokens): Tokens
    decreases tr, 1
  {
    match tr
    case TableName(n, a) => Cons(Name(n), if a.Some? then Cons(Name(a.value), rest) else rest)
    case TableSelect(s) => Cons(LeftPar, SelectTokens(s, Cons(RightPar, rest)))
    case TableJoin(l, r, c) =>
      TableTokens(l, Cons(JoinWord, TableTokens(r, Cons(OnWord, Cons(LeftPar, ExprTokens(c, Cons(RightPar, rest)))))))
    case TableCrossProduct(list) => TablesTokens(list, rest)
  }

  function TablesTokens(trs: seq<TableRef>, rest: Tokens): Tokens
    decreases trs, 0
  {
    if trs == [] then rest
    else if |trs| == 1 then TableTokens(trs[0], rest)
    else TableTokens(trs[0], Cons(Comma, TablesTokens(trs[1..], rest)))
  }

  function OrderTokens(order: seq<OrderItem>, rest: Tokens): Tokens {
    if order == [] then rest
    else
      var rest' := if |order| == 1 then rest else Cons(Comma, OrderTokens(order[1..], rest));
      ExprTokens(order[0].expr, Cons(if order[0].ascending then AscWord else DescWord, rest'))
  }

  /** A clause that starts with a keyword and holds one expression. */
  function ClauseTokens(word: Token, e: Option<Expr>, rest: Tokens): Tokens {
    if e.Some? then Cons(word, ExprTokens(e.value, rest)) else rest
  }

  function GroupTokens(g: Option<GroupBy>, rest: Tokens): Tokens {
    if g.Some? then Cons(GroupByWord, ListTokens(g.value.columns, ClauseTokens(HavingWord, g.value.having, rest)))
    else rest
  }

  function OrderByTokens(order: seq<OrderItem>, rest: Tokens): Tokens {
    if order == [] then rest else Cons(OrderByWord, OrderTokens(order, rest))
  }

  function LimitTokens(limit: Option<nat>, offset: Option<nat>, rest: Tokens): Tokens {
    var rest' := if offset.Some? then Cons(OffsetWord, Cons(Number(offset.value), rest)) else rest;
    if limit.Some? then Cons(LimitWord, Cons(Number(limit.value), rest')) else rest'
  }

  /** What follows the FROM clause. */
  function TailTokens(s: Select, rest: Tokens): Tokens {
    ClauseTokens(WhereWord, s.whereClause,
      GroupTokens(s.groupBy, OrderByTokens(s.order, LimitTokens(s.limit, s.offset, rest))))
  }

  function SelectTokens(s: Select, rest: Tokens): Tokens
    decreases s, 1
  {
    var tail := TailTokens(s, rest);
    Cons(SelectWord,
      ListTokens(s.selectList, if s.from.Some? then Cons(FromWord, TableTokens(s.from.value, tail)) else tail))
  }

  function NamesTokens(names: seq<string>, rest: Tokens): Tokens {
    if names == [] then rest
    else Cons(Name(names[0]), if |names| == 1 then rest else Cons(Comma, NamesTokens(names[1..], rest)))
  }

  function ClausesTokens(updates: seq<UpdateClause>, rest: Tokens): Tokens {
    if updates == [] then rest
    else
      var rest' := if |updates| == 1 then rest else Cons(Comma, ClausesTokens(updates[1..], rest));
      Cons(Name(updates[0].column), Cons(EqualSign, ExprTokens(updates[0].value, rest')))
  }

  function StatementTokens(st: Statement, rest: Tokens): Tokens {
    match st
    case SelectStmt(s) => SelectTokens(s, Cons(Semicolon, rest))
    case InsertValues(t, columns, values) =>
      var last := Cons(LeftPar, ListTokens(values, Cons(RightPar, Cons(Semicolon, rest))));
      var names := NamesTokens(if columns.Some? then columns.value else [], Cons(RightPar, Cons(ValuesWord, last)));
      Cons(InsertInto, Cons(Name(t), Cons(LeftPar, names)))
    case InsertSelect(t, s) => Cons(InsertInto, Cons(Name(t), SelectTokens(s, Cons(Semicolon, rest))))
    case Update(t, _, updates, w) =>
      Cons(UpdateWord, Cons(Name(t),
        Cons(SetWord, ClausesTokens(updates, ClauseTokens(WhereWord, w, Cons(Semicolon, rest))))))
    case Delete => rest
  }

  // --- what the dumper refuses: array expressions, UNION, DELETE ---

  predicate Dumpable(e: Expr)
    decreases e, 1
  {
    match e
    case Array => false
    case Bin(_, l, r) => Dumpable(l) && Dumpable(r)
    case Un(_, x) => Dumpable(x)
    case In(x, list) => Dumpable(x) && DumpableList(list)
    case _ => true
  }

  predicate DumpableList(es: seq<Expr>)
    decreases es, 0
  {
    es == [] || (Dumpable(es[0]) && DumpableList(es[1..]))
  }

  predicate DumpableTable(tr: TableRef)
    decreases tr, 1
  {
    match tr
    case TableName(_, _) => true
    case TableSelect(s) => DumpableSelect(s)
    case TableJoin(l, r, c) => DumpableTable(l) && DumpableTable(r) && Dumpable(c)
    case TableCrossProduct(list) => DumpableTables(list)
  }

  predicate DumpableTables(trs: seq<TableRef>)
    decreases trs, 0
  {
    trs == [] || (DumpableTable(trs[0]) && DumpableTables(trs[1..]))
  }

  predicate DumpableOption(e: Option<Expr>) { e.Some? ==> Dumpable(e.value) }

  predicate DumpableOrder(order: seq<OrderItem>) {
    order == [] || (Dumpable(order[0].expr) && DumpableOrder(order[1..]))
  }

  predicate DumpableTail(s: Select) {
    && DumpableOption(s.whereClause)
    && (s.groupBy.Some? ==> DumpableList(s.groupBy.value.columns) && DumpableOption(s.groupBy.value.having))
    && DumpableOrder(s.order)
  }

  predicate DumpableSelect(s: Select)
    decreases s, 1
  {
    && !s.union && DumpableList(s.selectList)
    && (s.from.Some? ==> DumpableTable(s.from.value))
    && DumpableTail(s)
  }

  predicate DumpableClauses(updates: seq<UpdateClause>) {
    updates == [] || (Dumpable(updates[0].value) && DumpableClauses(updates[1..]))
  }

  predicate DumpableStatement(st: Statement) {
    match st
    case SelectStmt(s) => DumpableSelect(s)
    case InsertValues(_, _, values) => DumpableList(values)
    case InsertSelect(_, s) => DumpableSelect(s)
    case Update(_, _, updates, w) => DumpableClauses(updates) && DumpableOption(w)
    case Delete => false
  }

  // --- the visitor that writes the text ---

  lemma {:induction false} OntoNext(written: seq<Token>, t: Token, rest: Tokens)
    ensures Onto(written + [t], rest) == Onto(written, Cons(t, rest))
  {
    assert (written + [t])[..|written|] == written;
  }

  /**
   * Every method appends the tokens of its argument: with any rest to come, the text after the call and
   * then the rest read as the text before it, then the argument's tokens, then the rest.
   */
  class DumpVisitor {
    /** The query text so far. */
    var written: seq<Token>

    constructor ()
      ensures written == []
    {
      written := [];
    }

    method Put(t: Token, ghost rest: Tokens)
      modifies this
      ensures Onto(written, rest) == Onto(old(written), Cons(t, rest))
    {
      OntoNext(written, t, rest);
      written := written + [t];
    }

    method PutOperator(op: BinOp, ghost rest: Tokens)
      modifies this
      ensures Onto(written, rest) == Onto(old(written), Operator(op, rest))
    {
      match op
      case Plus => Put(PlusSign, rest);
      case Minus => Put(MinusSign, rest);
      case Asterisk => Put(StarSign, rest);
      case Slash => Put(SlashSign, rest);
      case Percentage => Put(PercentSign, rest);
      case Caret =>
      case Equals => Put(EqualSign, rest);
      case NotEquals => Put(NotEqualSign, rest);
      case Less => Put(LessSign, rest);
      case LessEq => Put(LessEqSign, rest);
      case Greater => Put(GreaterSign, rest);
      case GreaterEq => Put(GreaterEqSign, rest);
      case Like => Put(LikeWord, rest);
      case NotLike =>
        Put(NotWord, Cons(LikeWord, rest));
        Put(LikeWord, rest);
      case ILike => Put(ILikeWord, rest);
      case And => Put(AndWord, rest);
      case Or => Put(OrWord, rest);
      case Concat => Put(BarBar, rest);
    }

    method VisitLiteral(l: Literal, ghost rest: Tokens)
      modifies this
      ensures Onto(written, rest) == Onto(old(written), LiteralTokens(l, rest))
    {
      match l
      case NullLit => Put(NullWord, rest);
      case StrLit(t) => Put(Quoted(t), rest);
      case IntLit(n) =>
        if n < 0 {
          Put(MinusSign, Cons(Number(-n), rest));
          Put(Number(-n), rest);
        } else {
          Put(Number(n), rest);
        }
    }

    method VisitColumn(e: Expr, ghost rest: Tokens)
      requires e.Col?
      modifies this
      ensures Onto(written, rest) == Onto(old(written), ExprTokens(e, rest))
    {
      ghost var tail := AliasTokens(e.alias, rest);
      if e.table.Some? {
        Put(Name(e.table.value), Cons(Dot, Cons(Name(e.name), tail)));
        Put(Dot, Cons(Name(e.name), tail));
      }
      Put(Name(e.name), tail);
      if e.alias.Some? {
        Put(AsWord, Cons(Name(e.alias.value), rest));
        Put(Name(e.alias.value), rest);
      }
    }

    method VisitExpression(e: Expr, ghost rest: Tokens) returns (ok: bool)
      modifies this
      ensures ok <==> Dumpable(e)
      ensures ok ==> Onto(written, rest) == Onto(old(written), ExprTokens(e, rest))
      decreases e, 2
    {
      ok := true;
      match e
      case Array => ok := false;
      case Star => Put(StarSign, rest);
      case Lit(l) => VisitLiteral(l, rest);
      case Col(_, _, _) => VisitColumn(e, rest);
      case Bin(op, left, right) => ok := VisitBinary(e, rest);
      case Un(uop, x) => ok := VisitUnary(e, rest);
      case In(x, list) =>
        ghost var tail := Cons(LeftPar, ListTokens(list, Cons(RightPar, rest)));
        ok := VisitParenthesized(x, Cons(InWord, tail));
        if !ok { return; }
        Put(InWord, tail);
        ok := VisitListInParentheses(list, rest);
    }

    method VisitParenthesized(e: Expr, ghost rest: Tokens) returns (ok: bool)
      modifies this
      ensures ok <==> Dumpable(e)
      ensures ok ==> Onto(written, rest) == Onto(old(written), Cons(LeftPar, ExprTokens(e, Cons(RightPar, rest))))
      decreases e, 3
    {
      Put(LeftPar, ExprTokens(e, Cons(RightPar, rest)));
      ok := VisitExpression(e, Cons(RightPar, rest));
      if !ok { return; }
      Put(RightPar, rest);
    }

    method VisitBinary(e: Expr, ghost rest: Tokens) returns (ok: bool)
      requires e.Bin?
      modifies this
      ensures ok <==> Dumpable(e)
      ensures ok ==> Onto(written, rest) == Onto(old(written), ExprTokens(e, rest))
      decreases e, 1
    {
      ghost var tail := Cons(LeftPar, ExprTokens(e.right, Cons(RightPar, rest)));
      ok := VisitParenthesized(e.left, Operator(e.op, tail));
      if !ok { return; }
      PutOperator(e.op, tail);
      ok := VisitParenthesized(e.right, rest);
    }

    method VisitUnary(e: Expr, ghost rest: Tokens) returns (ok: bool)
      requires e.Un?
      modifies this
      ensures ok <==> Dumpable(e)
      ensures ok ==> Onto(written, rest) == Onto(old(written), ExprTokens(e, rest))
      decreases e, 1
    {
      ghost var tail := Cons(LeftPar, ExprTokens(e.operand, Cons(RightPar, rest)));
      match e.uop
      case Not =>
        Put(NotWord, tail);
        ok := VisitParenthesized(e.operand, rest);
      case UnaryMinus =>
        Put(MinusSign, tail);
        ok := VisitParenthesized(e.operand, rest);
      case IsNull =>
        ok := VisitParenthesized(e.operand, Cons(IsWord, Cons(NullWord, rest)));
        if !ok { return; }
        Put(IsWord, Cons(NullWord, rest));
        Put(NullWord, rest);
    }

    method VisitListInParentheses(es: seq<Expr>, ghost rest: Tokens) returns (ok: bool)
      modifies this
      ensures ok <==> DumpableList(es)
      ensures ok ==> Onto(written, rest) == Onto(old(written), Cons(LeftPar, ListTokens(es, Cons(RightPar, rest))))
      decreases es, 1
    {
      Put(LeftPar, ListTokens(es, Cons(RightPar, rest)));
      ok := VisitExpressions(es, Cons(RightPar, rest));
      if !ok { return; }
      Put(RightPar, rest);
    }

    method VisitExpressions(es: seq<Expr>, ghost rest: Tokens) returns (ok: bool)
      modifies this
      ensures ok <==> DumpableList(es)
      ensures ok ==> Onto(written, rest) == Onto(old(written), ListTokens(es, rest))
      decreases es, 0
    {
      var i := 0;
      while i < |es|
        invariant 0 <= i <= |es|
        invariant DumpableList(es) <==> DumpableList(es[i..])
        invariant Onto(written, ListTokens(es[i..], rest)) == Onto(old(written), ListTokens(es, rest))
      {
        assert es[i..][1..] == es[i + 1..];
        ghost var tail := ListTokens(es[i + 1..], rest);
        ok := VisitExpression(es[i], if i < |es| - 1 then Cons(Comma, tail) else tail);
        if !ok { return; }
        if i < |es| - 1 { Put(Comma, tail); }
        i := i + 1;
      }
      ok := true;
    }

    /** A clause that starts with a keyword and holds one expression. */
    method VisitClause(word: Token, e: Option<Expr>, ghost rest: Tokens) returns (ok: bool)
      modifies this
      ensures ok <==> DumpableOption(e)
      ensures ok ==> Onto(written, rest) == Onto(old(written), ClauseTokens(word, e, rest))
    {
      ok := true;
      if e.Some? {
        Put(word, ExprTokens(e.value, rest));
        ok := VisitExpression(e.value, rest);
      }
    }

    method VisitOrder(order: seq<OrderItem>, ghost rest: Tokens) returns (ok: bool)
      modifies this
      ensures ok <==> DumpableOrder(order)
      ensures ok ==> Onto(written, rest) == Onto(old(written), OrderTokens(order, rest))
    {
      var i := 0;
      while i < |order|
        invariant 0 <= i <= |order|
        invariant DumpableOrder(order) <==> DumpableOrder(order[i..])
        invariant Onto(written, OrderTokens(order[i..], rest)) == Onto(old(written), OrderTokens(order, rest))
      {
        assert order[i..][1..] == order[i + 1..];
        var direction := if order[i].ascending then AscWord else DescWord;
        ghost var tail := OrderTokens(order[i + 1..], rest);
        ghost var tail' := if i < |order| - 1 then Cons(Comma, tail) else tail;
        ok := VisitExpression(order[i].expr, Cons(direction, tail'));
        if !ok { return; }
        Put(direction, tail');
        if i < |order| - 1 { Put(Comma, tail); }
        i := i + 1;
      }
      ok := true;
    }

    method VisitTableRef(tr: TableRef, ghost rest: Tokens) returns (ok: bool)
      modifies this
      ensures ok <==> DumpableTable(tr)
      ensures ok ==> Onto(written, rest) == Onto(old(written), TableTokens(tr, rest))
      decreases tr, 1
    {
      match tr
      case TableName(n, a) =>
        Put(Name(n), if a.Some? then Cons(Name(a.value), rest) else rest);
        if a.Some? { Put(Name(a.value), rest); }
        ok := true;
      case TableSelect(s) =>
        Put(LeftPar, SelectTokens(s, Cons(RightPar, rest)));
        ok := VisitSelectStatement(s, Cons(RightPar, rest));
        if !ok { return; }
        Put(RightPar, rest);
      case TableJoin(left, right, condition) =>
        ghost var tail := Cons(LeftPar, ExprTokens(condition, Cons(RightPar, rest)));
        ok := VisitTableRef(left, Cons(JoinWord, TableTokens(right, Cons(OnWord, tail))));
        if !ok { return; }
        Put(JoinWord, TableTokens(right, Cons(OnWord, tail)));
        ok := VisitTableRef(right, Cons(OnWord, tail));
        if !ok { return; }
        Put(OnWord, tail);
        ok := VisitParenthesized(condition, rest);
      case TableCrossProduct(list) =>
        ok := VisitTableRefs(list, rest);
    }

    method VisitTableRefs(trs: seq<TableRef>, ghost rest: Tokens) returns (ok: bool)
      modifies this
      ensures ok <==> DumpableTables(trs)
      ensures ok ==> Onto(written, rest) == Onto(old(written), TablesTokens(trs, rest))
      decreases trs, 0
    {
      var i := 0;
      while i < |trs|
        invariant 0 <= i <= |trs|
        invariant DumpableTables(trs) <==> DumpableTables(trs[i..])
        invariant Onto(written, TablesTokens(trs[i..], rest)) == Onto(old(written), TablesTokens(trs, rest))
      {
        assert trs[i..][1..] == trs[i + 1..];
        ghost var tail := TablesTokens(trs[i + 1..], rest);
        ok := VisitTableRef(trs[i], if i < |trs| - 1 then Cons(Comma, tail) else tail);
        if !ok { return; }
        if i < |trs| - 1 { Put(Comma, tail); }
        i := i + 1;
      }
      ok := true;
    }

    method VisitGroupBy(g: GroupBy, ghost rest: Tokens) returns (ok: bool)
      modifies this
      ensures ok <==> DumpableList(g.columns) && DumpableOption(g.having)
      ensures ok ==> Onto(written, rest) == Onto(old(written), GroupTokens(Some(g), rest))
    {
      ghost var tail := ClauseTokens(HavingWord, g.having, rest);
      Put(GroupByWord, ListTokens(g.columns, tail));
      ok := VisitExpressions(g.columns, tail);
      if !ok { return; }
      ok := VisitClause(HavingWord, g.having, rest);
    }

    method VisitLimit(limit: Option<nat>, offset: Option<nat>, ghost rest: Tokens)
      modifies this
      ensures Onto(written, rest) == Onto(old(written), LimitTokens(limit, offset, rest))
    {
      if limit.Some? {
        Put(LimitWord, Cons(Number(limit.value), LimitTokens(None, offset, rest)));
        Put(Number(limit.value), LimitTokens(None, offset, rest));
      }
      if offset.Some? {
        Put(OffsetWord, Cons(Number(offset.value), rest));
        Put(Number(offset.value), rest);
      }
    }

    /** WHERE, GROUP BY, HAVING, ORDER BY, LIMIT and OFFSET. */
    method VisitTail(s: Select, ghost rest: Tokens) returns (ok: bool)
      modifies this
      ensures ok <==> DumpableTail(s)
      ensures ok ==> Onto(written, rest) == Onto(old(written), TailTokens(s, rest))
    {
      ghost var limits := LimitTokens(s.limit, s.offset, rest);
      ghost var ordered := OrderByTokens(s.order, limits);
      ok := VisitClause(WhereWord, s.whereClause, GroupTokens(s.groupBy, ordered));
      if !ok { return; }
      if s.groupBy.Some? {
        ok := VisitGroupBy(s.groupBy.value, ordered);
        if !ok { return; }
      }
      if s.order != [] {
        Put(OrderByWord, OrderTokens(s.order, limits));
        ok := VisitOrder(s.order, limits);
        if !ok { return; }
      }
      VisitLimit(s.limit, s.offset, rest);
    }

    method VisitSelectStatement(s: Select, ghost rest: Tokens) returns (ok: bool)
      modifies this
      ensures ok <==> DumpableSelect(s)
      ensures ok ==> Onto(written, rest) == Onto(old(written), SelectTokens(s, rest))
      decreases s, 1
    {
      if s.union { return false; }
      ghost var tail := TailTokens(s, rest);
      ghost var tail' := if s.from.Some? then Cons(FromWord, TableTokens(s.from.value, tail)) else tail;
      Put(SelectWord, ListTokens(s.selectList, tail'));
      ok := VisitExpressions(s.selectList, tail');
      if !ok { return; }
      if s.from.Some? {
        Put(FromWord, TableTokens(s.from.value, tail));
        ok := VisitTableRef(s.from.value, tail);
        if !ok { return; }
      }
      ok := VisitTail(s, rest);
    }

    method VisitNames(names: seq<string>, ghost rest: Tokens)
      modifies this
      ensures Onto(written, rest) == Onto(old(written), NamesTokens(names, rest))
    {
      var i := 0;
      while i < |names|
        invariant 0 <= i <= |names|
        invariant Onto(written, NamesTokens(names[i..], rest)) == Onto(old(written), NamesTokens(names, rest))
      {
        assert names[i..][1..] == names[i + 1..];
        ghost var tail := NamesTokens(names[i + 1..], rest);
        Put(Name(names[i]), if i < |names| - 1 then Cons(Comma, tail) else tail);
        if i < |names| - 1 { Put(Comma, tail); }
        i := i + 1;
      }
    }

    method VisitUpdates(updates: seq<UpdateClause>, ghost rest: Tokens) returns (ok: bool)
      modifies this
      ensures ok <==> DumpableClauses(updates)
      ensures ok ==> Onto(written, rest) == Onto(old(written), ClausesTokens(updates, rest))
    {
      var i := 0;
      while i < |updates|
        invariant 0 <= i <= |updates|
        invariant DumpableClauses(updates) <==> DumpableClauses(updates[i..])
        invariant Onto(written, ClausesTokens(updates[i..], rest)) == Onto(old(written), ClausesTokens(updates, rest))
      {
        assert updates[i..][1..] == updates[i + 1..];
        ghost var tail := ClausesTokens(updates[i + 1..], rest);
        ghost var tail' := if i < |updates| - 1 then Cons(Comma, tail) else tail;
        Put(Name(updates[i].column), Cons(EqualSign, ExprTokens(updates[i].value, tail')));
        Put(EqualSign, ExprTokens(updates[i].value, tail'));
        ok := VisitExpression(updates[i].value, tail');
        if !ok { return; }
        if i < |updates| - 1 { Put(Comma, tail); }
        i := i + 1;
      }
      ok := true;
    }

    method VisitInsertValues(t: string, columns: seq<string>, values: seq<Expr>, ghost rest: Tokens) returns (ok: bool)
      modifies this
      ensures ok <==> DumpableList(values)
      ensures ok ==> Onto(written, rest) == Onto(old(written),
        StatementTokens(InsertValues(t, Some(columns), values), rest))
    {
      ghost var last := Cons(LeftPar, ListTokens(values, Cons(RightPar, Cons(Semicolon, rest))));
      ghost var tail := Cons(RightPar, Cons(ValuesWord, last));
      Put(InsertInto, Cons(Name(t), Cons(LeftPar, NamesTokens(columns, tail))));
      Put(Name(t), Cons(LeftPar, NamesTokens(columns, tail)));
      Put(LeftPar, NamesTokens(columns, tail));
      VisitNames(columns, tail);
      Put(RightPar, Cons(ValuesWord, last));
      Put(ValuesWord, last);
      ok := VisitListInParentheses(values, Cons(Semicolon, rest));
      if !ok { return; }
      Put(Semicolon, rest);
    }

    method VisitUpdate(t: string, updates: seq<UpdateClause>, w: Option<Expr>, ghost rest: Tokens) returns (ok: bool)
      modifies this
      ensures ok <==> DumpableClauses(updates) && DumpableOption(w)
      ensures ok ==> Onto(written, rest) == Onto(old(written), StatementTokens(Update(t, None, updates, w), rest))
    {
      ghost var tail := ClauseTokens(WhereWord, w, Cons(Semicolon, rest));
      Put(UpdateWord, Cons(Name(t), Cons(SetWord, ClausesTokens(updates, tail))));
      Put(Name(t), Cons(SetWord, ClausesTokens(updates, tail)));
      Put(SetWord, ClausesTokens(updates, tail));
      ok := VisitUpdates(updates, tail);
      if !ok { return; }
      ok := VisitClause(WhereWord, w, Cons(Semicolon, rest));
      if !ok { return; }
      Put(Semicolon, rest);
    }

    /** One statement and its semicolon; the column list of an INSERT must be there. */
    method VisitStatement(st: Statement, ghost rest: Tokens) returns (ok: bool)
      requires st.InsertValues? ==> st.columns.Some?
      modifies this
      ensures ok <==> DumpableStatement(st)
      ensures ok ==> Onto(written, rest) == Onto(old(written), StatementTokens(st, rest))
    {
      match st
      case SelectStmt(s) =>
        ok := VisitSelectStatement(s, Cons(Semicolon, rest));
        if !ok { return; }
        Put(Semicolon, rest);
      case InsertValues(t, columns, values) => ok := VisitInsertValues(t, columns.value, values, rest);
      case InsertSelect(t, s) =>
        Put(InsertInto, Cons(Name(t), SelectTokens(s, Cons(Semicolon, rest))));
        Put(Name(t), SelectTokens(s, Cons(Semicolon, rest)));
        ok := VisitSelectStatement(s, Cons(Semicolon, rest));
        if !ok { return; }
        Put(Semicolon, rest);
      case Update(t, _, updates, w) => ok := VisitUpdate(t, updates, w, rest);
      case Delete => ok := false;
    }
  }
}
