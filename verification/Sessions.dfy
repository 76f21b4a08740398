/** Whole histories of writes, the queries after them, and where the guarantees end. */
module Sessions {
  import opened Outcomes
  import opened Bytes
  import opened Crypto
  import opened Sql
  import opened Config
  import opened Traversal
  import opened Rewriting
  import opened Semantics
  import opened Relation
  import opened JoinCorrectness
  import opened SelectCorrectness
  import opened Ordering
  import opened Grouping
  import opened SelectClauses
  import opened SelectTheorem
  import opened Results
  import opened WriteSimulation

  /** A client statement with the random IVs drawn for it. */
  datatype Write = Write(statement: Statement, ivs: IVs)

  /** The statement on a database with these columns; a rejected one changes nothing. */
  function RunWrite(ops: Operators, columns: map<string, set<string>>, db: Database, st: Statement): Database {
    match st
    case InsertValues(t, Some(cs), vs) =>
      (match RunInsert(ops, columns, db, t, cs, vs)
       case Some(db') => db'
       case None => db)
    case Update(t, _, updates, w) =>
      (match RunUpdate(ops, columns, db, t, ClauseColumns(updates), ClauseValues(updates), w)
       case Some(db') => db'
       case None => db)
    case _ => db
  }

  /** The plaintext database a client believes in: statements the filter accepts run on it. */
  function PlainAfter(s: Setting, schema: Schema, ops: Operators, db: Database, history: seq<Write>): Database
    decreases |history|
  {
    if history == [] then db
    else
      var n := |history| - 1;
      var db' := PlainAfter(s, schema, ops, db, history[..n]);
      if RewriteQuery(s, history[n].ivs, history[n].statement).Err? then db'
      else RunWrite(ops, PlainColumns(schema), db', history[n].statement)
  }

  /** The encrypted database: the rewritten statements run on it. */
  function StoredAfter(s: Setting, schema: Schema, ops: Operators, db: Database, history: seq<Write>): Database
    decreases |history|
  {
    if history == [] then db
    else
      var n := |history| - 1;
      var db' := StoredAfter(s, schema, ops, db, history[..n]);
      var q := RewriteQuery(s, history[n].ivs, history[n].statement);
      if q.Err? then db' else RunWrite(ops, EncryptedColumns(s.cfg, schema), db', q.value.statement)
  }

  /** A write of the fragment: existing table, typed values and condition, no helper column named. */
  ghost predicate CoveredStatement(s: Setting, schema: Schema, ops: Operators, wr: Write) {
    && ValidIVs(wr.ivs)
    && match wr.statement
       case InsertValues(t, Some(columns), values) =>
         t in schema && CoveredWrite(WorldData(s, schema, map[], map[], ops, map[], map[]), t, columns, values)
       case Update(t, None, updates, whereClause) =>
         && t in schema
         && CoveredWrite(WorldData(s, schema, map[], map[], ops, map[], map[t := t]), t, ClauseColumns(updates),
           ClauseValues(updates))
         && (whereClause.Some? ==> WellTyped(s.cfg, schema, map[t := t], whereClause.value))
       case _ => false
  }

  lemma InsertStep(s: Setting, schema: Schema, ops: Operators, plain: Database, stored: Database, ivs: IVs,
                   t: string, columns: seq<string>, values: seq<Expr>)
    requires s.crypto.Valid() && ValidConfig(s.cfg, schema) && Simulates(s, schema, plain, stored)
    requires CoveredStatement(s, schema, ops, Write(InsertValues(t, Some(columns), values), ivs))
    requires RewriteQuery(s, ivs, InsertValues(t, Some(columns), values)).Ok?
    ensures Simulates(s, schema, RunWrite(ops, PlainColumns(schema), plain, InsertValues(t, Some(columns), values)),
                      RunWrite(ops, EncryptedColumns(s.cfg, schema), stored,
                               RewriteQuery(s, ivs, InsertValues(t, Some(columns), values)).value.statement))
  {
    var w: World := WorldData(s, schema, plain, stored, ops, map[], map[]);
    InsertKeeps(w, ivs, t, columns, values);
  }

  lemma UpdateStep(s: Setting, schema: Schema, ops: Operators, plain: Database, stored: Database, ivs: IVs,
                   t: string, updates: seq<UpdateClause>, whereClause: Option<Expr>)
    requires s.crypto.Valid() && ValidConfig(s.cfg, schema) && Simulates(s, schema, plain, stored)
    requires CoveredStatement(s, schema, ops, Write(Update(t, None, updates, whereClause), ivs))
    requires RewriteQuery(s, ivs, Update(t, None, updates, whereClause)).Ok?
    ensures Simulates(s, schema, RunWrite(ops, PlainColumns(schema), plain, Update(t, None, updates, whereClause)),
                      RunWrite(ops, EncryptedColumns(s.cfg, schema), stored,
                               RewriteQuery(s, ivs, Update(t, None, updates, whereClause)).value.statement))
  {
    hide RewriteQuery, RunUpdate;
    var w: World := WorldData(s, schema, plain, stored, ops, map[], map[t := t]);
    UpdateKeeps(w, ivs, t, updates, whereClause);
  }

  lemma WriteKeeps(s: Setting, schema: Schema, ops: Operators, plain: Database, stored: Database, wr: Write)
    requires s.crypto.Valid() && ValidConfig(s.cfg, schema) && Simulates(s, schema, plain, stored)
    requires CoveredStatement(s, schema, ops, wr) && RewriteQuery(s, wr.ivs, wr.statement).Ok?
    ensures Simulates(s, schema, RunWrite(ops, PlainColumns(schema), plain, wr.statement),
                      RunWrite(ops, EncryptedColumns(s.cfg, schema), stored,
                        RewriteQuery(s, wr.ivs, wr.statement).value.statement))
  {
    match wr.statement
    case InsertValues(t, Some(columns), values) =>
      InsertStep(s, schema, ops, plain, stored, wr.ivs, t, columns, values);
    case Update(t, None, updates, whereClause) =>
      UpdateStep(s, schema, ops, plain, stored, wr.ivs, t, updates, whereClause);
    case _ =>
  }

  /** Over every history of covered writes the encrypted database simulates the plaintext one. */
  lemma {:induction false} HistorySimulates(s: Setting, schema: Schema, ops: Operators, plain: Database,
                                            stored: Database, history: seq<Write>)
    requires s.crypto.Valid() && ValidConfig(s.cfg, schema) && Simulates(s, schema, plain, stored)
    requires forall wr :: wr in history ==> CoveredStatement(s, schema, ops, wr)
    ensures Simulates(s, schema, PlainAfter(s, schema, ops, plain, history),
      StoredAfter(s, schema, ops, stored, history))
    decreases |history|
  {
    if history != [] {
      var n := |history| - 1;
      HistorySimulates(s, schema, ops, plain, stored, history[..n]);
      assert history[n] in history;
      if RewriteQuery(s, history[n].ivs, history[n].statement).Ok? {
        WriteKeeps(s, schema, ops, PlainAfter(s, schema, ops, plain, history[..n]),
          StoredAfter(s, schema, ops, stored, history[..n]), history[n]);
      }
    }
  }

  function EmptyTables(schema: Schema): Database {
    map t | t in schema :: []
  }

  /**
   * The whole system: whatever was written through the filter into empty tables, a covered select it
   * accepts answers through the filter with the rows the plaintext database would have answered with and
   * that agree on the columns of every join equality; all of them when the join equalities are conjuncts.
   */
  lemma SessionIsExact(s: Setting, schema: Schema, ops: Operators, history: seq<Write>, ivs: IVs,
                       sel: Select, columns: seq<ColumnDescription>)
    requires s.crypto.Valid() && ValidConfig(s.cfg, schema)
    requires forall wr :: wr in history ==> CoveredStatement(s, schema, ops, wr)
    requires sel.from.Some? && Covered(SessionWorld(s, schema, ops, history, sel.from.value), sel)
    requires Labelled(columns, sel.selectList) && RewriteQuery(s, ivs, SelectStmt(sel)).Ok?
    ensures Flat(sel.from.value)
    ensures
      var w := SessionWorld(s, schema, ops, history, sel.from.value);
      && ResultIs(w, RewriteQuery(s, ivs, SelectStmt(sel)).value, sel, columns, AgreeingRows(w, sel))
      && (AgreeingRows(w, sel) == RunSelect(ops, w.plain, sel) <==> AllRowsAgree(w, sel))
      && (Conjoined(w, sel) ==> AgreeingRows(w, sel) == RunSelect(ops, w.plain, sel))
  {
    hide Covered, RewriteQuery, ResultIs, AgreeingRows, AllRowsAgree, Conjoined, RunSelect, Simulates, ValidConfig,
      CoveredStatement;
    var w := SessionWorld(s, schema, ops, history, sel.from.value);
    EmptySimulates(s, schema);
    HistorySimulates(s, schema, ops, EmptyTables(schema), EmptyTables(schema), history);
    SelectIsFiltered(s, schema, w.plain, w.stored, ops, ivs, sel, columns);
    if Conjoined(w, sel) { ConjoinedIsExact(s, schema, w.plain, w.stored, ops, ivs, sel, columns); }
  }

  lemma EmptySimulates(s: Setting, schema: Schema)
    ensures Simulates(s, schema, EmptyTables(schema), EmptyTables(schema))
  {
  }

  /** The two databases after a history of writes into empty tables, with the names of a select. */
  ghost function SessionWorld(s: Setting, schema: Schema, ops: Operators, history: seq<Write>,
                              tr: TableRef): WorldData {
    SelectWorld(s, schema, PlainAfter(s, schema, ops, EmptyTables(schema), history),
                StoredAfter(s, schema, ops, EmptyTables(schema), history), ops, tr)
  }
}
