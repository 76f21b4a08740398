/** The rows of a select, with the codec between the backend and the filter. */
module SelectOnWire {
  import opened Outcomes
  import opened Bytes
  import opened Crypto
  import opened Sql
  import opened Config
  import opened Traversal
  import opened Rewriting
  import opened Semantics
  import opened Relation
  import opened JoinCorrectness
  import opened SelectCorrectness
  import opened SelectClauses
  import opened SelectTheorem
  import opened Results
  import RowsOnWire

  predicate PlainItem(w: WorldData, e: Expr)
    requires e.Col? && e.table.Some?
  {
    e.table.value in w.scope && !w.s.cfg.Encrypted(w.scope[e.table.value], e.name)
  }

  /** What the client sees of a plaintext row: the empty texts of columns that are not encrypted are NULL. */
  function SeenRow(w: WorldData, list: seq<Expr>, row: DataRow): (r: DataRow)
    requires ColumnList(list) && |row| == |list|
    ensures |r| == |row|
  {
    seq(|row|, i requires 0 <= i < |row| => if PlainItem(w, list[i]) then RowsOnWire.Heard(row[i]) else row[i])
  }

  function HeardRows(rows: seq<DataRow>): (r: seq<DataRow>)
    ensures |r| == |rows|
  {
    if rows == [] then [] else [RowsOnWire.HeardRow(rows[0])] + HeardRows(rows[1..])
  }

  function SeenRows(w: WorldData, list: seq<Expr>, rows: seq<DataRow>): (r: seq<DataRow>)
    requires ColumnList(list) && forall i :: 0 <= i < |rows| ==> |rows[i]| == |list|
    ensures |r| == |rows| && forall i :: 0 <= i < |rows| ==> r[i] == SeenRow(w, list, rows[i])
  {
    seq(|rows|, i requires 0 <= i < |rows| => SeenRow(w, list, rows[i]))
  }

  predicate ListExisting(w: WorldData, list: seq<Expr>)
    requires ColumnList(list)
  {
    forall i :: 0 <= i < |list| ==> Existing(w, list[i])
  }

  predicate Configured(w: WorldData, list: seq<Expr>, configs: seq<Option<ColumnConfig>>)
    requires ColumnList(list) && ListExisting(w, list)
  {
    |configs| == |list| &&
    forall i :: 0 <= i < |list| ==> configs[i] == w.s.cfg.Column(w.scope[list[i].table.value], list[i].name)
  }

  /** A stored cell of an encrypted column is never empty. */
  lemma CellSeen(w: World, config: Option<ColumnConfig>, b: Binding, e: Expr)
    requires e.Col? && e.table.Some? && Existing(w, e)
    requires config == w.s.cfg.Column(w.scope[e.table.value], e.name)
    ensures
      var cell, stored := CellText(w.PlainValue(b, e)), CellText(w.StoredValue(b, e));
      DecryptColumn(w.s.crypto, config, RowsOnWire.Heard(stored)) ==
        Ok(if PlainItem(w, e) then RowsOnWire.Heard(cell) else cell)
  {
    hide ValidConfig, Simulates, Resolves;
    CellRelated(w, b, e.table.value, e.name);
  }

  lemma RowSeen(w: World, configs: seq<Option<ColumnConfig>>, b: Binding, list: seq<Expr>)
    requires ColumnList(list) && ListExisting(w, list) && Configured(w, list, configs)
    ensures
      var row, stored := Project(w.ops, w.plain, w.scope, b, list), Project(w.ops, w.stored, w.scope, b, list);
      && |row| == |stored| == |list|
      && DecryptRow(w.s.crypto, configs, RowsOnWire.HeardRow(stored)) == Ok(SeenRow(w, list, row))
  {
    hide ValidConfig, Simulates, Resolves, DecryptRow, DecryptColumn, PlainItem;
    var row, stored := Project(w.ops, w.plain, w.scope, b, list), Project(w.ops, w.stored, w.scope, b, list);
    ProjectAt(w.ops, w.stored, w.scope, b, list);
    ProjectAt(w.ops, w.plain, w.scope, b, list);
    var heard, seen := RowsOnWire.HeardRow(stored), SeenRow(w, list, row);
    forall i | 0 <= i < |list| ensures DecryptColumn(w.s.crypto, configs[i], heard[i]) == Ok(seen[i]) {
      CellSeen(w, configs[i], b, list[i]);
    }
    DecryptRowAt(w.s.crypto, configs, heard, seen);
  }

  lemma ProcessNext(crypto: Primitives, plan: RowPlan, row: DataRow, rows: seq<DataRow>, row': DataRow,
                    rows': seq<DataRow>)
    requires plan.pairs == [] && |row| == |plan.configs| && forall i :: 0 <= i < |rows| ==> |rows[i]| == |plan.configs|
    requires DecryptRow(crypto, plan.configs, row) == Ok(row') && ProcessRows(crypto, plan, rows) == Ok(rows')
    ensures ProcessRows(crypto, plan, [row] + rows) == Ok([row'] + rows')
  {
    hide DecryptRow;
    assert ([row] + rows)[1..] == rows;
  }

  lemma HeardCons(row: DataRow, rows: seq<DataRow>)
    ensures HeardRows([row] + rows) == [RowsOnWire.HeardRow(row)] + HeardRows(rows)
  {
    assert ([row] + rows)[1..] == rows;
  }

  lemma {:induction false} RowsSeen(w: World, plan: RowPlan, bs: seq<Binding>, list: seq<Expr>)
    requires ColumnList(list) && ListExisting(w, list) && Configured(w, list, plan.configs) && plan.pairs == []
    ensures
      var rows, stored := ProjectAll(w.ops, w.plain, w.scope, bs, list), ProjectAll(w.ops, w.stored, w.scope, bs, list);
      && |rows| == |stored| == |bs| && (forall i :: 0 <= i < |rows| ==> |rows[i]| == |list|)
      && (forall i :: 0 <= i < |stored| ==> |HeardRows(stored)[i]| == |plan.configs|)
      && ProcessRows(w.s.crypto, plan, HeardRows(stored)) == Ok(SeenRows(w, list, rows))
  {
    hide ValidConfig, Simulates, Resolves, DecryptRow, Project, ProcessRows, HeardRows, PlainItem;
    if bs != [] {
      RowsSeen(w, plan, bs[1..], list);
      RowSeen(w, plan.configs, bs[0], list);
      var row, stored := Project(w.ops, w.plain, w.scope, bs[0], list), Project(w.ops, w.stored, w.scope, bs[0], list);
      var rows', stored' := ProjectAll(w.ops, w.plain, w.scope, bs[1..], list),
        ProjectAll(w.ops, w.stored, w.scope, bs[1..], list);
      HeardCons(stored, stored');
      ProcessNext(w.s.crypto, plan, RowsOnWire.HeardRow(stored), HeardRows(stored'), SeenRow(w, list, row),
        SeenRows(w, list, rows'));
      assert SeenRows(w, list, [row] + rows') == [SeenRow(w, list, row)] + SeenRows(w, list, rows');
    } else {
      NothingHeard(w.s.crypto, plan);
      assert SeenRows(w, list, []) == [];
    }
  }

  lemma NothingHeard(crypto: Primitives, plan: RowPlan)
    requires plan.pairs == []
    ensures HeardRows([]) == [] && ProcessRows(crypto, plan, []) == Ok([])
  {
  }

  /** A column that is not encrypted is an empty text in some row. */
  predicate ShowsEmpty(w: WorldData, list: seq<Expr>, rows: seq<DataRow>)
    requires ColumnList(list) && forall i :: 0 <= i < |rows| ==> |rows[i]| == |list|
  {
    exists i, k :: 0 <= i < |rows| && 0 <= k < |list| && PlainItem(w, list[k]) && rows[i][k] == Some([])
  }

  lemma SeenIffNoEmpty(w: WorldData, list: seq<Expr>, rows: seq<DataRow>)
    requires ColumnList(list) && forall i :: 0 <= i < |rows| ==> |rows[i]| == |list|
    ensures SeenRows(w, list, rows) == rows <==> !ShowsEmpty(w, list, rows)
  {
    var seen := SeenRows(w, list, rows);
    if ShowsEmpty(w, list, rows) {
      var i, k :| 0 <= i < |rows| && 0 <= k < |list| && PlainItem(w, list[k]) && rows[i][k] == Some([]);
      assert seen[i][k] == None;
    } else {
      forall i | 0 <= i < |rows| ensures seen[i] == rows[i] {
        forall k | 0 <= k < |list| ensures seen[i][k] == rows[i][k] {
          assert !(PlainItem(w, list[k]) && rows[i][k] == Some([]));
        }
      }
    }
  }

  lemma {:induction false} NothingCompared(cfg: DatabaseConfig, names: Names, candidates: seq<Expr>)
    requires forall c :: c in candidates ==> !Joins(cfg, names.aliases, c)
    requires JoinComparisons(cfg, names, candidates).Ok?
    ensures JoinComparisons(cfg, names, candidates) == Ok([])
  {
    if candidates != [] {
      assert candidates[0] in candidates;
      NothingCompared(cfg, names, candidates[1..]);
    }
  }

  /** Without join equalities both databases are answered with the same combinations. */
  lemma SameAnswers(w: World, sel: Select)
    requires Covered(w, sel) && GoodClauses(w, sel) && !Joining(w, sel) && w.scope == ScopeOf(Tables(sel.from.value))
    ensures Flat(sel.from.value) && RewrittenSelect(w, sel).from.Some? && Flat(RewrittenSelect(w, sel).from.value)
    ensures Answered(w.ops, w.plain, sel) == Answered(w.ops, w.stored, RewrittenSelect(w, sel))
    ensures Tables(RewrittenSelect(w, sel).from.value) == Tables(sel.from.value)
    ensures ColumnList(sel.selectList) && ListExisting(w, sel.selectList)
  {
    hide GoodClauses, Simulates, ValidConfig, Resolves, Answered, RewrittenSelect, SelectCandidates, Joining, AllAgree,
      TypedFrom, TypedCondition, CoveredGroup, CoveredOrder;
    AnsweredFiltered(w, sel);
    ClausesFlat(w, sel);
    var agree := Agreeing(w, SelectCandidates(sel));
    forall b ensures agree(b) { NotJoiningAgrees(w, sel, b); }
    FilterAll(agree, Answered(w.ops, w.plain, sel));
    FilterAll(agree, Answered(w.ops, w.stored, RewrittenSelect(w, sel)));
  }

  lemma SettledAliases(w: WorldData, sel: Select, names: Names, columns: seq<ColumnDescription>)
    requires ListSettled(w, sel, names, columns)
    ensures names.aliases == w.aliases
  {
  }

  lemma NoPairs(indices: map<ColumnRef, nat>)
    ensures ComparisonIndices(indices, []) == Ok([])
  {
  }

  lemma NothingRecorded(w: WorldData, sel: Select, q: Rewritten)
    requires !Joining(w, sel) && q.names.aliases == w.aliases
    requires JoinComparisons(w.s.cfg, q.names, SelectCandidates(sel)) == Ok(q.join.comparisons)
    ensures q.join.comparisons == []
  {
    hide SelectCandidates, JoinComparisons;
    NothingCompared(w.s.cfg, q.names, SelectCandidates(sel));
  }

  /**
   * End to end with the codec: for an accepted select without join equalities, what the filter makes of the
   * rows as it reads them is the plaintext rows with the empty texts of unencrypted columns as NULL. The
   * client gets exactly the plaintext rows if and only if no such text is among them.
   */
  lemma SelectThroughCodec(w: World, ivs: IVs, sel: Select, columns: seq<ColumnDescription>)
    requires Covered(w, sel) && !Joining(w, sel)
    requires w.scope == ScopeOf(Tables(sel.from.value)) && w.aliases == AliasesOf(sel.from.value)
    requires Labelled(columns, sel.selectList) && NoDuplicates(LabelsOf(sel.selectList))
    requires RewriteQuery(w.s, ivs, SelectStmt(sel)).Ok?
    ensures Flat(sel.from.value)
    ensures
      var q := RewriteQuery(w.s, ivs, SelectStmt(sel)).value;
      && q.statement.SelectStmt? && q.statement.select.from.Some? && Flat(q.statement.select.from.value)
      && ProcessDescription(w.s.cfg, q, columns).Ok? && ColumnList(sel.selectList)
      && var plan := ProcessDescription(w.s.cfg, q, columns).value.1;
         var stored, plain := RunSelect(w.ops, w.stored, q.statement.select), RunSelect(w.ops, w.plain, sel);
         && (forall i :: 0 <= i < |plain| ==> |plain[i]| == |sel.selectList|)
         && (forall i :: 0 <= i < |stored| ==> |HeardRows(stored)[i]| == |plan.configs|)
         && ValidIndices(plan.pairs, |plan.configs|)
         && ProcessRows(w.s.crypto, plan, HeardRows(stored)) == Ok(SeenRows(w, sel.selectList, plain))
         && (SeenRows(w, sel.selectList, plain) == plain <==> !ShowsEmpty(w, sel.selectList, plain))
  {
    hide Covered, GoodClauses, Simulates, ValidConfig, Resolves, Answered, RewrittenSelect, SelectCandidates,
      RewriteQuery, ProcessDescription, VisitExprs, ListSettled, JoinComparisons, ComparisonIndices, ShowsEmpty;
    var q := RewriteQuery(w.s, ivs, SelectStmt(sel)).value;
    CoveredParts(w, sel);
    AcceptedSelect(w, ivs, sel);
    AcceptedIsFiltered(w, ivs, sel, columns);
    DescriptionExact(w, q, sel, columns);
    ListIsSettled(w, sel, q.names, columns);
    DescriptionProcessed(w, q, sel, columns);
    NothingRecorded(w, sel, q) by { SettledAliases(w, sel, q.names, columns); }
    SameAnswers(w, sel);
    SelectParts(w, sel);
    var plan := ProcessDescription(w.s.cfg, q, columns).value.1;
    NoPairs(ColumnIndices(q.names, columns));
    RowsSeen(w, plan, Answered(w.ops, w.plain, sel), sel.selectList);
    SeenIffNoEmpty(w, sel.selectList, RunSelect(w.ops, w.plain, sel));
  }
}
