/** When an encrypted database stores the contents of a plaintext one. */
module Relation {
  import opened Outcomes
  import opened Bytes
  import opened Crypto
  import opened Sql
  import opened Config
  import opened Traversal
  import opened Rewriting
  import opened Semantics

  /** The kind of literal a column is written with; columns without an index may take any. */
  datatype Kind = AnyKind | TextKind | NumKind

  type Schema = map<string, map<string, Kind>>

  predicate HasKind(k: Kind, v: Value) {
    match k
    case AnyKind => true
    case TextKind => v.Null? || v.Text?
    case NumKind => v.Null? || (v.Num? && IsInt64(v.number))
  }

  function PlainColumns(schema: Schema): map<string, set<string>> {
    map t | t in schema :: schema[t].Keys
  }

  /** The blind index and join key columns of a table. */
  function HelperColumns(cfg: DatabaseConfig, table: string, columns: set<string>): set<string> {
    (set c | c in columns && cfg.Indexed(table, c) :: cfg.Column(table, c).value.biName) +
    (set c | c in columns && cfg.Joinable(table, c) :: cfg.Column(table, c).value.joinKeyName)
  }

  function EncryptedColumns(cfg: DatabaseConfig, schema: Schema): map<string, set<string>> {
    map t | t in schema :: schema[t].Keys + HelperColumns(cfg, t, schema[t].Keys)
  }

  /** The configuration names existing columns, and helper columns are apart from them and from each other. */
  ghost predicate ValidConfig(cfg: DatabaseConfig, schema: Schema) {
    && (forall k :: k in cfg.columns ==> k.0 in schema && k.1 in schema[k.0])
    && (forall t, c :: cfg.Indexed(t, c) ==> cfg.Column(t, c).value.biName !in schema[t] && !schema[t][c].AnyKind?)
    && (forall t, c :: cfg.Joinable(t, c) ==>
      cfg.Column(t, c).value.joinKeyName !in schema[t] && !schema[t][c].AnyKind?)
    && (forall t, c, d :: cfg.Indexed(t, c) && cfg.Indexed(t, d) && c != d ==>
          cfg.Column(t, c).value.biName != cfg.Column(t, d).value.biName)
    && (forall t, c, d :: cfg.Joinable(t, c) && cfg.Joinable(t, d) && c != d ==>
          cfg.Column(t, c).value.joinKeyName != cfg.Column(t, d).value.joinKeyName)
    && (forall t, c, d :: cfg.Indexed(t, c) && cfg.Joinable(t, d) ==>
          cfg.Column(t, c).value.biName != cfg.Column(t, d).value.joinKeyName)
  }

  /** The bytes hashed for a stored value. */
  function ValueBytes(v: Value): ByteString {
    match v
    case Text(t) => t
    case Num(n) => RawInt64(n)
    case _ => []
  }

  function IndexValue(s: Setting, c: ColumnConfig, v: Value): Value {
    if v.Null? then Null else Text(s.crypto.BlindIndexText(c.biKey, ValueBytes(v)))
  }

  function JoinKeyValue(s: Setting, v: Value): Value {
    if v.Null? then Null else Text(s.crypto.JoinKeyText(s.cfg.joinKeySize, ValueBytes(v)))
  }

  /** The stored cell of a column: a ciphertext of the plaintext's text, or the value itself. */
  predicate Stores(s: Setting, table: string, column: string, v: Value, stored: Value) {
    if !s.cfg.Encrypted(table, column) then stored == v
    else if v.Null? then stored.Null?
    else
      && stored.Text?
      && s.crypto.DecryptCell(s.cfg.Column(table, column).value.encryptionKey, stored.text) == Ok(CellText(v).value)
  }

  predicate StoresCell(s: Setting, table: string, column: string, v: Value, stored: Row) {
    && column in stored && Stores(s, table, column, v, stored[column])
    && (s.cfg.Indexed(table, column) ==>
          var c := s.cfg.Column(table, column).value;
          c.biName in stored && stored[c.biName] == IndexValue(s, c, v))
    && (s.cfg.Joinable(table, column) ==>
          var c := s.cfg.Column(table, column).value;
          c.joinKeyName in stored && stored[c.joinKeyName] == JoinKeyValue(s, v))
  }

  ghost predicate StoresRow(s: Setting, schema: Schema, table: string, plain: Row, stored: Row)
    requires table in schema
  {
    && plain.Keys == schema[table].Keys
    && stored.Keys == EncryptedColumns(s.cfg, schema)[table]
    && (forall c :: c in schema[table] ==> HasKind(schema[table][c], plain[c]))
    && (forall c :: c in schema[table] ==> StoresCell(s, table, c, plain[c], stored))
  }

  /** The encrypted database simulates the plaintext one, row by row. */
  ghost predicate Simulates(s: Setting, schema: Schema, plain: Database, stored: Database) {
    && plain.Keys == schema.Keys && stored.Keys == schema.Keys
    && (forall t :: t in schema ==> |plain[t]| == |stored[t]|)
    && (forall t, i :: t in schema && 0 <= i < |plain[t]| ==> StoresRow(s, schema, t, plain[t][i], stored[t][i]))
  }

  /** Qualifiers resolve to the tables of the scope. */
  ghost predicate Resolves(aliases: map<string, string>, scope: Scope) {
    forall q :: q in scope ==> Resolve(aliases, q) == scope[q]
  }

  /** A plaintext database, the encrypted one that simulates it, and the names of a statement run on both. */
  datatype WorldData = WorldData(
    s: Setting, schema: Schema, plain: Database, stored: Database, ops: Operators,
    aliases: map<string, string>, scope: Scope)
  {
    ghost predicate Valid() {
      s.crypto.Valid() && ValidConfig(s.cfg, schema) && Simulates(s, schema, plain, stored) && Resolves(aliases, scope)
    }

    function PlainValue(b: Binding, e: Expr): Value { Eval(ops, plain, scope, b, e) }
    function StoredValue(b: Binding, e: Expr): Value { Eval(ops, stored, scope, b, e) }
    predicate PlainHolds(b: Binding, e: Expr) { Holds(ops, plain, scope, b, e) }
    predicate StoredHolds(b: Binding, e: Expr) { Holds(ops, stored, scope, b, e) }

    /** The expression after the blind index and join mutators. */
    function Rewritten(e: Expr): Expr { JoinExpr(s.cfg, aliases, IndexExpr(s, aliases, e)) }
  }

  ghost const EXAMPLE_WORLD := WorldData(
    Setting(DatabaseConfig(map[], {}, 0),
            Primitives((key, iv, m) => m, (key, iv, c) => Some(c), (key, m) => m, m => seq(DIGEST_LENGTH, i => 0))),
    map[], map[], map[], Operators((op, v, w) => Null, (op, v) => Null), map[], map[])

  type World = w: WorldData | w.Valid() ghost witness EXAMPLE_WORLD

  // --- statements the theorems are about ---

  predicate LiteralHasKind(k: Kind, l: Literal) { HasKind(k, LiteralValue(l)) }

  /** Qualified columns exist, and indexed columns are compared with literals of their kind. */
  predicate WellTyped(cfg: DatabaseConfig, schema: Schema, scope: Scope, e: Expr)
    decreases e, 1
  {
    match e
    case Col(Some(q), n, _) => q in scope && scope[q] in schema && n in schema[scope[q]]
    case Bin(_, l, r) =>
      && WellTyped(cfg, schema, scope, l) && WellTyped(cfg, schema, scope, r)
      && (IsIndexCandidate(e) && l.table.Some? && cfg.Indexed(scope[l.table.value], l.name) ==>
            LiteralHasKind(schema[scope[l.table.value]][l.name], r.lit))
      && (IsJoinCandidate(e) && Qualified(e) ==>
            cfg.Joinable(scope[l.table.value], l.name) && cfg.Joinable(scope[r.table.value], r.name) ==>
            schema[scope[l.table.value]][l.name] == schema[scope[r.table.value]][r.name])
    case Un(_, x) => WellTyped(cfg, schema, scope, x)
    case In(x, list) => WellTyped(cfg, schema, scope, x) && WellTypedList(cfg, schema, scope, list)
    case _ => true
  }

  predicate WellTypedList(cfg: DatabaseConfig, schema: Schema, scope: Scope, es: seq<Expr>)
    decreases es, 0
  {
    es == [] || (WellTyped(cfg, schema, scope, es[0]) && WellTypedList(cfg, schema, scope, es[1..]))
  }

  /** What the encryption mutator checks of an expression outside a select body. */
  predicate Checked(cfg: DatabaseConfig, aliases: map<string, string>, e: Expr)
    decreases e, 1
  {
    match e
    case Col(Some(q), n, _) => !cfg.Encrypted(Resolve(aliases, q), n)
    case Col(None, _, _) => false
    case Star => false
    case Array => false
    case Lit(_) => true
    case Bin(_, l, r) => Checked(cfg, aliases, l) && Checked(cfg, aliases, r)
    case Un(_, x) => Checked(cfg, aliases, x)
    case In(x, list) => Checked(cfg, aliases, x) && CheckedList(cfg, aliases, list)
  }

  predicate CheckedList(cfg: DatabaseConfig, aliases: map<string, string>, es: seq<Expr>)
    decreases es, 0
  {
    es == [] || (Checked(cfg, aliases, es[0]) && CheckedList(cfg, aliases, es[1..]))
  }

  /** The encryption mutator accepts an expression outside a select body exactly when it is checked. */
  lemma {:induction false} CheckedIffVisited(cfg: DatabaseConfig, names: Names, e: Expr)
    ensures VisitExpr(EncryptionRole, cfg, false, names, e).Ok? <==> Checked(cfg, names.aliases, e)
    ensures VisitExpr(EncryptionRole, cfg, false, names, e).Ok? ==>
              VisitExpr(EncryptionRole, cfg, false, names, e).value == names
    decreases e, 1
  {
    match e
    case Bin(_, l, r) =>
      CheckedIffVisited(cfg, names, l);
      CheckedIffVisited(cfg, names, r);
    case Un(_, x) => CheckedIffVisited(cfg, names, x);
    case In(x, list) =>
      CheckedIffVisited(cfg, names, x);
      CheckedListIffVisited(cfg, names, list);
    case _ =>
  }

  lemma {:induction false} CheckedListIffVisited(cfg: DatabaseConfig, names: Names, es: seq<Expr>)
    ensures VisitExprs(EncryptionRole, cfg, false, names, es).Ok? <==> CheckedList(cfg, names.aliases, es)
    ensures VisitExprs(EncryptionRole, cfg, false, names, es).Ok? ==>
              VisitExprs(EncryptionRole, cfg, false, names, es).value == names
    decreases es, 0
  {
    if es != [] {
      CheckedIffVisited(cfg, names, es[0]);
      CheckedListIffVisited(cfg, names, es[1..]);
    }
  }

  lemma {:induction false} CheckedAt(cfg: DatabaseConfig, aliases: map<string, string>, es: seq<Expr>, i: nat)
    requires i < |es| && CheckedList(cfg, aliases, es)
    ensures Checked(cfg, aliases, es[i])
  {
    if i > 0 { CheckedAt(cfg, aliases, es[1..], i - 1); }
  }

  /** No equality of two join columns occurs in the expression. */
  ghost predicate NoJoins(cfg: DatabaseConfig, aliases: map<string, string>, e: Expr) {
    forall c :: c in Candidates(JoinRole, e) ==> !Joins(cfg, aliases, c)
  }

  // --- the blind index rewriting preserves three-valued meaning ---

  lemma HashBytesInjective(k: Kind, v: Value, w: Value)
    requires !k.AnyKind? && HasKind(k, v) && HasKind(k, w) && !v.Null? && !w.Null?
    ensures ValueBytes(v) == ValueBytes(w) <==> v == w
    ensures CellText(v) == CellText(w) <==> v == w
  {
    if k.NumKind? {
      if ValueBytes(v) == ValueBytes(w) { RawInt64Injective(v.number, w.number); }
      if CellText(v) == CellText(w) { DecimalInjective(v.number, w.number); }
    }
  }

  lemma CellRelated(w: World, b: Binding, q: string, n: string)
    requires q in w.scope && w.scope[q] in w.schema && n in w.schema[w.scope[q]]
    ensures
      var t, v := w.scope[q], Cell(w.plain, w.scope, b, q, n);
      && HasKind(w.schema[t][n], v)
      && (!w.s.cfg.Encrypted(t, n) ==> Cell(w.stored, w.scope, b, q, n) == v)
      && Stores(w.s, t, n, v, Cell(w.stored, w.scope, b, q, n))
      && (w.s.cfg.Indexed(t, n) ==>
            var c := w.s.cfg.Column(t, n).value;
            !w.s.cfg.Encrypted(t, c.biName) && Cell(w.stored, w.scope, b, q, c.biName) == IndexValue(w.s, c, v))
      && (w.s.cfg.Joinable(t, n) ==>
            var c := w.s.cfg.Column(t, n).value;
            !w.s.cfg.Encrypted(t, c.joinKeyName) &&
              Cell(w.stored, w.scope, b, q, c.joinKeyName) == JoinKeyValue(w.s, v))
  {
    var t := w.scope[q];
    if q in b && b[q] < |w.plain[t]| {
      assert StoresRow(w.s, w.schema, t, w.plain[t][b[q]], w.stored[t][b[q]]);
      assert StoresCell(w.s, t, n, w.plain[t][b[q]][n], w.stored[t][b[q]]);
    }
  }

  lemma IndexValueSame(s: Setting, c: ColumnConfig, k: Kind, v: Value, w: Value)
    requires s.crypto.Valid() && !k.AnyKind? && HasKind(k, v) && HasKind(k, w)
    ensures EqualsValue(IndexValue(s, c, v), IndexValue(s, c, w)) == EqualsValue(v, w)
  {
    if !v.Null? && !w.Null? {
      HashBytesInjective(k, v, w);
      s.crypto.BlindIndexInjective(c.biKey, ValueBytes(v), ValueBytes(w));
    }
  }

  lemma HashLiteralValue(s: Setting, c: ColumnConfig, l: Literal)
    ensures LiteralValue(HashLiteral(s, c, l)) == IndexValue(s, c, LiteralValue(l))
    ensures LiteralValue(JoinKeyLiteral(s, l)) == JoinKeyValue(s, LiteralValue(l))
  {
  }

  /** A comparison evaluates its column and its literal. */
  lemma ComparisonValue(ops: Operators, db: Database, scope: Scope, b: Binding, e: Expr)
    requires IsIndexCandidate(e) && e.left.table.Some?
    ensures Eval(ops, db, scope, b, e) ==
            var v := EqualsValue(Cell(db, scope, b, e.left.table.value, e.left.name), LiteralValue(e.right.lit));
            if e.op == Equals then v else NotValue(v)
  {
    assert Eval(ops, db, scope, b, e.left) == Cell(db, scope, b, e.left.table.value, e.left.name);
    assert Eval(ops, db, scope, b, e.right) == LiteralValue(e.right.lit);
  }

  /** A candidate of the blind index mutator, whether its column has an index or not. */
  lemma IndexCandidateSame(w: World, b: Binding, e: Expr)
    requires IsIndexCandidate(e) && WellTyped(w.s.cfg, w.schema, w.scope, e)
    requires Checked(w.s.cfg, w.aliases, IndexComparison(w.s, w.aliases, e))
    ensures w.StoredValue(b, IndexComparison(w.s, w.aliases, e)) == w.PlainValue(b, e)
  {
    if e.left.table.Some? {
      var q, n, l := e.left.table.value, e.left.name, e.right.lit;
      assert WellTyped(w.s.cfg, w.schema, w.scope, e.left);
      CellRelated(w, b, q, n);
      ComparisonValue(w.ops, w.plain, w.scope, b, e);
      ComparisonValue(w.ops, w.stored, w.scope, b, IndexComparison(w.s, w.aliases, e));
      if w.s.cfg.Indexed(w.scope[q], n) {
        var c := w.s.cfg.Column(w.scope[q], n).value;
        HashLiteralValue(w.s, c, l);
        IndexValueSame(w.s, c, w.schema[w.scope[q]][n], Cell(w.plain, w.scope, b, q, n), LiteralValue(l));
      } else {
        assert Checked(w.s.cfg, w.aliases, e.left);
      }
    }
  }

  lemma CandidateNotJoined(w: WorldData, e: Expr)
    requires IsIndexCandidate(e)
    ensures w.Rewritten(e) == IndexComparison(w.s, w.aliases, e)
  {
    var e' := IndexComparison(w.s, w.aliases, e);
    assert JoinExpr(w.s.cfg, w.aliases, e'.left) == e'.left && JoinExpr(w.s.cfg, w.aliases, e'.right) == e'.right;
  }

  lemma IndexKeepsColumns(s: Setting, aliases: map<string, string>, e: Expr)
    ensures IndexExpr(s, aliases, e).Col? <==> e.Col?
    ensures e.Col? ==> IndexExpr(s, aliases, e) == e
  {
  }

  lemma RewritingKeepsLiterals(w: WorldData, e: Expr)
    ensures IndexExpr(w.s, w.aliases, e).Lit? <==> e.Lit?
    ensures w.Rewritten(e).Lit? <==> e.Lit?
    ensures e.Lit? ==> IndexExpr(w.s, w.aliases, e) == e && w.Rewritten(e) == e
  {
  }

  /** An operator that is no candidate is rewritten in its operands only. */
  lemma OperandsRewritten(w: WorldData, e: Expr)
    requires e.Bin? && !IsIndexCandidate(e) && !Joins(w.s.cfg, w.aliases, e)
    ensures w.Rewritten(e) == Bin(e.op, w.Rewritten(e.left), w.Rewritten(e.right))
  {
    IndexKeepsColumns(w.s, w.aliases, e.left);
    IndexKeepsColumns(w.s, w.aliases, e.right);
  }

  lemma {:induction false} FlatMapIn<T>(f: Expr -> seq<T>, es: seq<Expr>, i: nat)
    requires i < |es|
    ensures forall x :: x in f(es[i]) ==> x in FlatMap(f, es)
  {
    if i > 0 { FlatMapIn(f, es[1..], i - 1); }
  }

  // --- join equalities ---

  /** The two columns of a join equality hold the same text in the plaintext rows. */
  predicate SidesAgree(w: WorldData, b: Binding, c: Expr)
    requires IsJoinCandidate(c) && Qualified(c)
  {
    CellText(Cell(w.plain, w.scope, b, c.left.table.value, c.left.name)) ==
    CellText(Cell(w.plain, w.scope, b, c.right.table.value, c.right.name))
  }

  /** The two columns of every join equality among the candidates hold the same text. */
  ghost predicate AllAgree(w: WorldData, b: Binding, candidates: seq<Expr>) {
    forall c :: c in candidates && Joins(w.s.cfg, w.aliases, c) ==> SidesAgree(w, b, c)
  }

  lemma AllAgreeConcat(w: WorldData, b: Binding, c1: seq<Expr>, c2: seq<Expr>)
    ensures AllAgree(w, b, c1 + c2) <==> AllAgree(w, b, c1) && AllAgree(w, b, c2)
  {
    if AllAgree(w, b, c1 + c2) {
      forall c | c in c1 && Joins(w.s.cfg, w.aliases, c) ensures SidesAgree(w, b, c) { assert c in c1 + c2; }
      forall c | c in c2 && Joins(w.s.cfg, w.aliases, c) ensures SidesAgree(w, b, c) { assert c in c1 + c2; }
    }
  }

  /** What a join equality compares, in either database. */
  lemma JoinEqualityValues(w: World, b: Binding, e: Expr)
    requires WellTyped(w.s.cfg, w.schema, w.scope, e) && Joins(w.s.cfg, w.aliases, e)
    ensures
      var x := Cell(w.plain, w.scope, b, e.left.table.value, e.left.name);
      var y := Cell(w.plain, w.scope, b, e.right.table.value, e.right.name);
      && w.PlainValue(b, e) == EqualsValue(x, y)
      && w.StoredValue(b, w.Rewritten(e)) == EqualsValue(JoinKeyValue(w.s, x), JoinKeyValue(w.s, y))
      && (x.Null? || y.Null? || (CellText(x) == CellText(y) <==> x == y))
  {
    hide ValidConfig, Simulates;
    var ql, nl, qr, nr := e.left.table.value, e.left.name, e.right.table.value, e.right.name;
    assert WellTyped(w.s.cfg, w.schema, w.scope, e.left) && WellTyped(w.s.cfg, w.schema, w.scope, e.right);
    CellRelated(w, b, ql, nl);
    CellRelated(w, b, qr, nr);
    var x, y := Cell(w.plain, w.scope, b, ql, nl), Cell(w.plain, w.scope, b, qr, nr);
    assert IndexExpr(w.s, w.aliases, e) == e by {
      assert IndexExpr(w.s, w.aliases, e.left) == e.left && IndexExpr(w.s, w.aliases, e.right) == e.right;
    }
    var e' := w.Rewritten(e);
    assert w.StoredValue(b, e'.left) == JoinKeyValue(w.s, x);
    assert w.StoredValue(b, e'.right) == JoinKeyValue(w.s, y);
    assert w.PlainValue(b, e.left) == x && w.PlainValue(b, e.right) == y;
    JoinKinds(w, ql, nl, qr, nr);
    if !x.Null? && !y.Null? { HashBytesInjective(w.schema[w.scope[ql]][nl], x, y); }
  }

  /** Columns joined on have a kind, so their values are told apart by their texts. */
  lemma JoinKinds(w: World, ql: string, nl: string, qr: string, nr: string)
    requires ql in w.scope && qr in w.scope
    requires w.s.cfg.Joinable(w.scope[ql], nl) && w.s.cfg.Joinable(w.scope[qr], nr)
    ensures w.scope[ql] in w.schema && nl in w.schema[w.scope[ql]] && !w.schema[w.scope[ql]][nl].AnyKind?
    ensures w.scope[qr] in w.schema && nr in w.schema[w.scope[qr]] && !w.schema[w.scope[qr]][nr].AnyKind?
  {
  }

  /** A join equality on truncated hashes has the value of the original on rows that agree. */
  lemma JoinEqualitySame(w: World, b: Binding, e: Expr)
    requires WellTyped(w.s.cfg, w.schema, w.scope, e) && Joins(w.s.cfg, w.aliases, e) && SidesAgree(w, b, e)
    ensures w.StoredValue(b, w.Rewritten(e)) == w.PlainValue(b, e)
  {
    hide ValidConfig, Simulates, Resolves, WellTyped;
    JoinEqualityValues(w, b, e);
  }

  /** A join equality is true of plaintext rows only when its columns agree. */
  lemma JoinEqualityAgrees(w: World, b: Binding, e: Expr)
    requires WellTyped(w.s.cfg, w.schema, w.scope, e) && Joins(w.s.cfg, w.aliases, e) && w.PlainHolds(b, e)
    ensures SidesAgree(w, b, e)
  {
    hide ValidConfig, Simulates, Resolves, WellTyped;
    JoinEqualityValues(w, b, e);
  }

  lemma AgreeBelow(w: WorldData, b: Binding, e: Expr)
    requires e.Bin? && AllAgree(w, b, Candidates(JoinRole, e)) && !Joins(w.s.cfg, w.aliases, e)
    ensures AllAgree(w, b, Candidates(JoinRole, e.left)) && AllAgree(w, b, Candidates(JoinRole, e.right))
  {
    if !IsJoinCandidate(e) {
      assert Candidates(JoinRole, e) == Candidates(JoinRole, e.left) + Candidates(JoinRole, e.right);
      AllAgreeConcat(w, b, Candidates(JoinRole, e.left), Candidates(JoinRole, e.right));
    }
  }

  /**
   * For every expression the encryption mutator accepts after rewriting, and all rows on which the columns
   * of its join equalities agree, the rewritten expression over the encrypted rows has the value of the
   * original over the plaintext ones.
   */
  lemma {:induction false} RewrittenAgrees(w: World, b: Binding, e: Expr)
    requires WellTyped(w.s.cfg, w.schema, w.scope, e) && AllAgree(w, b, Candidates(JoinRole, e))
    requires Checked(w.s.cfg, w.aliases, w.Rewritten(e))
    ensures w.StoredValue(b, w.Rewritten(e)) == w.PlainValue(b, e)
    decreases e, 1
  {
    match e
    case Bin(_, _, _) => BinaryAgrees(w, b, e);
    case Un(op, x) => RewrittenAgrees(w, b, x);
    case In(x, list) =>
      assert Candidates(JoinRole, e) == Candidates(JoinRole, x) + CandidatesOf(JoinRole, list);
      AllAgreeConcat(w, b, Candidates(JoinRole, x), CandidatesOf(JoinRole, list));
      RewrittenAgrees(w, b, x);
      RewrittenListAgrees(w, b, w.PlainValue(b, x), list);
    case Col(Some(q), n, _) => CellRelated(w, b, q, n);
    case _ =>
  }

  lemma {:induction false} BinaryAgrees(w: World, b: Binding, e: Expr)
    requires e.Bin? && WellTyped(w.s.cfg, w.schema, w.scope, e) && AllAgree(w, b, Candidates(JoinRole, e))
    requires Checked(w.s.cfg, w.aliases, w.Rewritten(e))
    ensures w.StoredValue(b, w.Rewritten(e)) == w.PlainValue(b, e)
    decreases e, 0
  {
    hide ValidConfig, Simulates, Resolves;
    if IsIndexCandidate(e) {
      CandidateNotJoined(w, e);
      IndexCandidateSame(w, b, e);
    } else if Joins(w.s.cfg, w.aliases, e) {
      assert e in Candidates(JoinRole, e);
      JoinEqualitySame(w, b, e);
    } else {
      AgreeBelow(w, b, e);
      OperandsRewritten(w, e);
      RewrittenAgrees(w, b, e.left);
      RewrittenAgrees(w, b, e.right);
    }
  }

  lemma {:induction false} RewrittenListAgrees(w: World, b: Binding, v: Value, es: seq<Expr>)
    requires WellTypedList(w.s.cfg, w.schema, w.scope, es) && AllAgree(w, b, CandidatesOf(JoinRole, es))
    requires CheckedList(w.s.cfg, w.aliases, JoinExprs(w.s.cfg, w.aliases, IndexExprs(w.s, w.aliases, es)))
    ensures EvalIn(w.ops, w.stored, w.scope, b, v, JoinExprs(w.s.cfg, w.aliases, IndexExprs(w.s, w.aliases, es))) ==
            EvalIn(w.ops, w.plain, w.scope, b, v, es)
    decreases es, 0
  {
    if es != [] {
      AllAgreeConcat(w, b, Candidates(JoinRole, es[0]), CandidatesOf(JoinRole, es[1..]));
      RewrittenAgrees(w, b, es[0]);
      RewrittenListAgrees(w, b, v, es[1..]);
    }
  }

  /**
   * Without join equalities, an accepted expression has its value on all rows: the three-valued meaning of
   * every condition survives the blind index rewriting.
   */
  lemma RewrittenSame(w: World, b: Binding, e: Expr)
    requires WellTyped(w.s.cfg, w.schema, w.scope, e) && NoJoins(w.s.cfg, w.aliases, e)
    requires Checked(w.s.cfg, w.aliases, w.Rewritten(e))
    ensures w.StoredValue(b, w.Rewritten(e)) == w.PlainValue(b, e)
  {
    hide ValidConfig, Simulates, Resolves, WellTyped, Checked;
    RewrittenAgrees(w, b, e);
  }
}
