/** GROUP BY and HAVING on blind index columns: what keeps its meaning there, and what is read off the index. */
module Grouping {
  import opened Outcomes
  import opened Bytes
  import opened Crypto
  import opened Sql
  import opened Config
  import opened Traversal
  import opened Rewriting
  import opened Semantics
  import opened Relation

  /** An expression of GROUP BY or HAVING after the blind index and join mutators. */
  function Regrouped(w: WorldData, e: Expr): Expr { JoinExpr(w.s.cfg, w.aliases, GroupExpr(w.s, w.aliases, e)) }

  predicate IndexedColumn(cfg: DatabaseConfig, aliases: map<string, string>, e: Expr) {
    e.Col? && e.table.Some? && cfg.Indexed(Resolve(aliases, e.table.value), e.name)
  }

  predicate NullTest(e: Expr) { e.Un? && e.uop == IsNull && e.operand.Col? }

  /** Indexed columns occur only in `=` and `<>` with a literal on the right, or directly under IS NULL. */
  predicate Groupable(cfg: DatabaseConfig, aliases: map<string, string>, e: Expr)
    decreases e, 1
  {
    if IsIndexCandidate(e) || NullTest(e) then true
    else match e
      case Col(_, _, _) => !IndexedColumn(cfg, aliases, e)
      case Bin(_, l, r) => Groupable(cfg, aliases, l) && Groupable(cfg, aliases, r)
      case Un(_, x) => Groupable(cfg, aliases, x)
      case In(x, list) => Groupable(cfg, aliases, x) && GroupableList(cfg, aliases, list)
      case _ => true
  }

  predicate GroupableList(cfg: DatabaseConfig, aliases: map<string, string>, es: seq<Expr>)
    decreases es, 0
  {
    es == [] || (Groupable(cfg, aliases, es[0]) && GroupableList(cfg, aliases, es[1..]))
  }

  // --- columns ---

  /** A column of GROUP BY or HAVING reads the index of the value, or the value itself when it has none. */
  lemma ColumnRead(w: World, b: Binding, e: Expr)
    requires e.Col? && e.table.Some? && WellTyped(w.s.cfg, w.schema, w.scope, e)
    requires Checked(w.s.cfg, w.aliases, Regrouped(w, e))
    ensures Regrouped(w, e).Col? &&
      IndexedColumn(w.s.cfg, w.aliases, e) == w.s.cfg.Indexed(w.scope[e.table.value], e.name)
    ensures w.StoredValue(b, Regrouped(w, e)) ==
            if IndexedColumn(w.s.cfg, w.aliases, e) then
              IndexValue(w.s, w.s.cfg.Column(w.scope[e.table.value], e.name).value, w.PlainValue(b, e))
            else w.PlainValue(b, e)
    ensures HasKind(w.schema[w.scope[e.table.value]][e.name], w.PlainValue(b, e))
    ensures IndexedColumn(w.s.cfg, w.aliases, e) ==> !w.schema[w.scope[e.table.value]][e.name].AnyKind?
  {
    hide Simulates;
    CellRelated(w, b, e.table.value, e.name);
  }

  lemma NullTestSame(w: World, b: Binding, e: Expr)
    requires NullTest(e) && WellTyped(w.s.cfg, w.schema, w.scope, e) && Checked(w.s.cfg, w.aliases, Regrouped(w, e))
    ensures w.StoredValue(b, Regrouped(w, e)) == w.PlainValue(b, e)
  {
    hide ValidConfig, Simulates, Resolves, HasKind;
    var x := e.operand;
    assert Regrouped(w, e) == Un(IsNull, Regrouped(w, x));
    if x.table.Some? { ColumnRead(w, b, x); }
  }

  // --- expressions ---

  lemma CandidateGrouped(w: WorldData, e: Expr)
    requires IsIndexCandidate(e)
    ensures Regrouped(w, e) == IndexComparison(w.s, w.aliases, e)
  {
    var e' := IndexComparison(w.s, w.aliases, e);
    assert JoinExpr(w.s.cfg, w.aliases, e'.left) == e'.left && JoinExpr(w.s.cfg, w.aliases, e'.right) == e'.right;
  }

  lemma GroupKeepsColumns(w: WorldData, e: Expr)
    ensures GroupExpr(w.s, w.aliases, e).Col? <==> e.Col?
    ensures e.Col? && Groupable(w.s.cfg, w.aliases, e) ==> GroupExpr(w.s, w.aliases, e) == e
  {
  }

  /** A groupable operator that is no candidate is rewritten in its operands only. */
  lemma OperandsGrouped(w: WorldData, e: Expr)
    requires e.Bin? && !IsIndexCandidate(e) && Groupable(w.s.cfg, w.aliases, e) && !Joins(w.s.cfg, w.aliases, e)
    ensures Regrouped(w, e) == Bin(e.op, Regrouped(w, e.left), Regrouped(w, e.right))
  {
    GroupKeepsColumns(w, e.left);
    GroupKeepsColumns(w, e.right);
  }

  lemma JoinIsCandidate(w: WorldData, e: Expr)
    requires Joins(w.s.cfg, w.aliases, e)
    ensures IsJoinCandidate(e) && Qualified(e) && e in Candidates(JoinRole, e)
  {
  }

  /** A groupable join equality is rewritten as it is outside GROUP BY. */
  lemma JoinGrouped(w: WorldData, e: Expr)
    requires Groupable(w.s.cfg, w.aliases, e) && Joins(w.s.cfg, w.aliases, e)
    ensures Regrouped(w, e) == w.Rewritten(e)
  {
    GroupKeepsColumns(w, e.left);
    GroupKeepsColumns(w, e.right);
    IndexKeepsColumns(w.s, w.aliases, e.left);
    IndexKeepsColumns(w.s, w.aliases, e.right);
  }

  /**
   * HAVING keeps its three-valued meaning: every groupable expression that is accepted has, over the
   * encrypted rows, the value of the original over the plaintext ones.
   */
  lemma {:induction false} GroupedSame(w: World, b: Binding, e: Expr)
    requires WellTyped(w.s.cfg, w.schema, w.scope, e) && Groupable(w.s.cfg, w.aliases, e)
    requires AllAgree(w, b, Candidates(JoinRole, e)) && Checked(w.s.cfg, w.aliases, Regrouped(w, e))
    ensures w.StoredValue(b, Regrouped(w, e)) == w.PlainValue(b, e)
    decreases e, 1
  {
    hide ValidConfig, Simulates, Resolves;
    if NullTest(e) {
      NullTestSame(w, b, e);
    } else {
      match e
      case Bin(_, _, _) => BinaryGrouped(w, b, e);
      case Un(_, x) => GroupedSame(w, b, x);
      case In(x, list) =>
        assert Candidates(JoinRole, e) == Candidates(JoinRole, x) + CandidatesOf(JoinRole, list);
        AllAgreeConcat(w, b, Candidates(JoinRole, x), CandidatesOf(JoinRole, list));
        GroupedSame(w, b, x);
        GroupedListSame(w, b, w.PlainValue(b, x), list);
      case Col(Some(_), _, _) => ColumnRead(w, b, e);
      case _ =>
    }
  }

  lemma {:induction false} BinaryGrouped(w: World, b: Binding, e: Expr)
    requires e.Bin? && WellTyped(w.s.cfg, w.schema, w.scope, e) && Groupable(w.s.cfg, w.aliases, e)
    requires AllAgree(w, b, Candidates(JoinRole, e)) && Checked(w.s.cfg, w.aliases, Regrouped(w, e))
    ensures w.StoredValue(b, Regrouped(w, e)) == w.PlainValue(b, e)
    decreases e, 0
  {
    hide ValidConfig, Simulates, Resolves, GroupExpr, JoinExpr, IndexExpr, HasKind, Joins;
    if IsIndexCandidate(e) {
      CandidateGrouped(w, e);
      IndexCandidateSame(w, b, e);
    } else if Joins(w.s.cfg, w.aliases, e) {
      JoinIsCandidate(w, e);
      JoinGrouped(w, e);
      JoinEqualitySame(w, b, e);
    } else {
      AgreeBelow(w, b, e);
      OperandsGrouped(w, e);
      GroupedSame(w, b, e.left);
      GroupedSame(w, b, e.right);
    }
  }

  lemma {:induction false} GroupedListSame(w: World, b: Binding, v: Value, es: seq<Expr>)
    requires WellTypedList(w.s.cfg, w.schema, w.scope, es) && GroupableList(w.s.cfg, w.aliases, es)
    requires AllAgree(w, b, CandidatesOf(JoinRole, es))
    requires CheckedList(w.s.cfg, w.aliases, JoinExprs(w.s.cfg, w.aliases, GroupExprs(w.s, w.aliases, es)))
    ensures EvalIn(w.ops, w.stored, w.scope, b, v, JoinExprs(w.s.cfg, w.aliases, GroupExprs(w.s, w.aliases, es))) ==
            EvalIn(w.ops, w.plain, w.scope, b, v, es)
    decreases es, 0
  {
    if es != [] {
      AllAgreeConcat(w, b, Candidates(JoinRole, es[0]), CandidatesOf(JoinRole, es[1..]));
      GroupedSame(w, b, es[0]);
      GroupedListSame(w, b, v, es[1..]);
    }
  }

  // --- GROUP BY keys ---

  lemma IndexValueInjective(s: Setting, c: ColumnConfig, k: Kind, v: Value, w: Value)
    requires s.crypto.Valid() && !k.AnyKind? && HasKind(k, v) && HasKind(k, w)
    ensures IndexValue(s, c, v) == IndexValue(s, c, w) <==> v == w
  {
    if !v.Null? && !w.Null? {
      HashBytesInjective(k, v, w);
      s.crypto.BlindIndexInjective(c.biKey, ValueBytes(v), ValueBytes(w));
    }
  }

  /** A column, or an expression that keeps its value. */
  predicate IsGroupKey(cfg: DatabaseConfig, aliases: map<string, string>, e: Expr) {
    e.Col? || Groupable(cfg, aliases, e)
  }

  /** What acceptance and typing say of a key, on both of two rows. */
  ghost predicate KeyOf(w: WorldData, b: Binding, c: Binding, e: Expr) {
    && WellTyped(w.s.cfg, w.schema, w.scope, e) && IsGroupKey(w.s.cfg, w.aliases, e)
    && AllAgree(w, b, Candidates(JoinRole, e)) && AllAgree(w, c, Candidates(JoinRole, e))
    && Checked(w.s.cfg, w.aliases, Regrouped(w, e))
  }

  /** Two rows have the same rewritten key exactly when they have the same plaintext key. */
  lemma KeySame(w: World, b: Binding, c: Binding, e: Expr)
    requires KeyOf(w, b, c, e)
    ensures w.StoredValue(b, Regrouped(w, e)) == w.StoredValue(c, Regrouped(w, e)) <==>
            w.PlainValue(b, e) == w.PlainValue(c, e)
  {
    hide ValidConfig, Simulates, Resolves, HasKind, IndexValue;
    if IndexedColumn(w.s.cfg, w.aliases, e) {
      ColumnRead(w, b, e);
      ColumnRead(w, c, e);
      var t := w.scope[e.table.value];
      IndexValueInjective(w.s, w.s.cfg.Column(t, e.name).value, w.schema[t][e.name], w.PlainValue(b, e),
        w.PlainValue(c, e));
    } else {
      GroupedSame(w, b, e);
      GroupedSame(w, c, e);
    }
  }

  function RegroupedKeys(w: WorldData, keys: seq<Expr>): (r: seq<Expr>)
    ensures |r| == |keys| && forall i :: 0 <= i < |keys| ==> r[i] == Regrouped(w, keys[i])
  {
    seq(|keys|, i requires 0 <= i < |keys| => Regrouped(w, keys[i]))
  }

  /** GROUP BY puts two rows of the encrypted database together exactly when it does the plaintext ones. */
  lemma KeysSame(w: World, b: Binding, c: Binding, keys: seq<Expr>)
    requires forall i :: 0 <= i < |keys| ==> KeyOf(w, b, c, keys[i])
    ensures SameGroup(w.ops, w.stored, w.scope, RegroupedKeys(w, keys))(b, c) <==>
            SameGroup(w.ops, w.plain, w.scope, keys)(b, c)
  {
    hide KeyOf, Regrouped;
    var keys' := RegroupedKeys(w, keys);
    var kb, kc := Values(w.ops, w.plain, w.scope, b, keys), Values(w.ops, w.plain, w.scope, c, keys);
    var lb, lc := Values(w.ops, w.stored, w.scope, b, keys'), Values(w.ops, w.stored, w.scope, c, keys');
    forall i | 0 <= i < |keys| ensures lb[i] == lc[i] <==> kb[i] == kc[i] { KeySame(w, b, c, keys[i]); }
    if kb == kc { assert forall i :: 0 <= i < |keys| ==> lb[i] == lc[i]; }
    if lb == lc { assert forall i :: 0 <= i < |keys| ==> kb[i] == kc[i]; }
  }

  // --- any other use of an indexed column reads the index ---

  /** A bare indexed column keeps its value exactly when it is NULL or the text of its own index. */
  lemma BareColumnExactIff(w: World, b: Binding, e: Expr)
    requires WellTyped(w.s.cfg, w.schema, w.scope, e) && IndexedColumn(w.s.cfg, w.aliases, e)
    ensures
      var c, v := w.s.cfg.Column(w.scope[e.table.value], e.name).value, w.PlainValue(b, e);
      && Checked(w.s.cfg, w.aliases, Regrouped(w, e))
      && (w.StoredValue(b, Regrouped(w, e)) == v <==>
            v.Null? || v == Text(w.s.crypto.BlindIndexText(c.biKey, ValueBytes(v))))
  {
    hide Simulates;
    CellRelated(w, b, e.table.value, e.name);
    ColumnRead(w, b, e);
  }

  /** The operators whose meaning is a parameter. */
  predicate IsOpenOp(op: BinOp) { !op.Equals? && !op.NotEquals? && !op.And? && !op.Or? }

  lemma OpenValue(ops: Operators, db: Database, scope: Scope, b: Binding, e: Expr)
    requires e.Bin? && IsOpenOp(e.op)
    ensures Eval(ops, db, scope, b, e) == ops.binary(e.op, Eval(ops, db, scope, b, e.left),
      Eval(ops, db, scope, b, e.right))
  {
  }

  lemma OpenGrouped(w: WorldData, e: Expr)
    requires e.Bin? && IsOpenOp(e.op) && e.left.Col? && e.right.Lit?
    ensures Regrouped(w, e) == Bin(e.op, Regrouped(w, e.left), e.right)
  {
    GroupKeepsColumns(w, e.left);
    var left := GroupExpr(w.s, w.aliases, e.left);
    assert GroupExpr(w.s, w.aliases, e) == Bin(e.op, left, e.right);
    assert JoinExpr(w.s.cfg, w.aliases, Bin(e.op, left, e.right)) ==
           Bin(e.op, JoinExpr(w.s.cfg, w.aliases, left), JoinExpr(w.s.cfg, w.aliases, e.right));
  }

  /**
   * `column < literal` in HAVING and its like: accepted with the index column in place of the column and
   * the literal as it is, and exact exactly when the index compares with the literal as the value does.
   */
  lemma ComparisonReadsIndex(w: World, b: Binding, e: Expr)
    requires e.Bin? && IsOpenOp(e.op) && e.right.Lit?
    requires IndexedColumn(w.s.cfg, w.aliases, e.left) && WellTyped(w.s.cfg, w.schema, w.scope, e.left)
    ensures
      var c, v := w.s.cfg.Column(w.scope[e.left.table.value], e.left.name).value, w.PlainValue(b, e.left);
      && Regrouped(w, e) == Bin(e.op, e.left.(name := c.biName), e.right)
      && Checked(w.s.cfg, w.aliases, Regrouped(w, e))
      && (w.StoredValue(b, Regrouped(w, e)) == w.PlainValue(b, e) <==>
            w.ops.binary(e.op, IndexValue(w.s, c, v), LiteralValue(e.right.lit)) ==
            w.ops.binary(e.op, v, LiteralValue(e.right.lit)))
  {
    hide Simulates, ValidConfig, IndexValue, HasKind;
    BareColumnExactIff(w, b, e.left);
    ColumnRead(w, b, e.left);
    OpenGrouped(w, e);
    OpenValue(w.ops, w.plain, w.scope, b, e);
    OpenValue(w.ops, w.stored, w.scope, b, Regrouped(w, e));
    assert w.StoredValue(b, e.right) == LiteralValue(e.right.lit) == w.PlainValue(b, e.right);
  }

  /** Texts compared byte by byte. */
  predicate ComesBefore(s: ByteString, t: ByteString) {
    t != [] && (s == [] || s[0] < t[0] || (s[0] == t[0] && ComesBefore(s[1..], t[1..])))
  }

  function CompareTexts(op: BinOp, v: Value, w: Value): Value {
    if op == Less && v.Text? && w.Text? then Bool(ComesBefore(v.text, w.text)) else Null
  }

  function TextOrder(): Operators { Operators(CompareTexts, (op, v) => Null) }

  lemma TextOrderApplied(s: ByteString, t: ByteString)
    requires s != [] && t != [] && s[0] != t[0]
    ensures TextOrder().binary(Less, Text(s), Text(t)) == Bool(s[0] < t[0])
  {
  }

  /** So `HAVING t.a < 'm'` keeps a group whose `a` is 'z': every index text starts with a backslash. */
  lemma RangeOnIndexMisses(w: World, b: Binding, q: string, n: string)
    requires w.ops == TextOrder()
    requires WellTyped(w.s.cfg, w.schema, w.scope, Col(Some(q), n, None))
    requires IndexedColumn(w.s.cfg, w.aliases, Col(Some(q), n, None))
    requires w.PlainValue(b, Col(Some(q), n, None)) == Text([122])
    ensures
      var e := Bin(Less, Col(Some(q), n, None), Lit(StrLit([109])));
      w.PlainValue(b, e) == Bool(false) && w.StoredValue(b, Regrouped(w, e)) == Bool(true)
  {
    hide Simulates, ValidConfig, Resolves, HasKind, Checked, Regrouped;
    var e := Bin(Less, Col(Some(q), n, None), Lit(StrLit([109])));
    BareColumnExactIff(w, b, e.left);
    ColumnRead(w, b, e.left);
    OpenGrouped(w, e);
    var t := w.s.crypto.BlindIndexText(w.s.cfg.Column(w.scope[q], n).value.biKey, [122]);
    assert t[0] == BACKSLASH;
    TextOrderApplied([122], [109]);
    TextOrderApplied(t, [109]);
    OpenValue(w.ops, w.plain, w.scope, b, e);
    OpenValue(w.ops, w.stored, w.scope, b, Regrouped(w, e));
    assert w.StoredValue(b, e.right) == Text([109]) == w.PlainValue(b, e.right);
  }
}
