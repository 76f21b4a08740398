/** End-to-end correctness of SELECT, and attribution of its result columns. */
module SelectTheorem {
  import opened Outcomes
  import opened Bytes
  import opened Crypto
  import opened Sql
  import opened Config
  import opened Traversal
  import opened Rewriting
  import opened Semantics
  import opened Relation
  import opened JoinCorrectness
  import opened SelectCorrectness
  import opened Ordering
  import opened Grouping
  import opened SelectClauses
  import opened Results

  // --- the select list ---

  function ItemRef(aliases: map<string, string>, e: Expr): ColumnRef
    requires e.Col? && e.table.Some?
  {
    ColumnRef(Resolve(aliases, e.table.value), e.name)
  }

  function LabelsOf(list: seq<Expr>): (r: seq<string>)
    requires ColumnList(list)
    ensures |r| == |list| && forall i :: 0 <= i < |list| ==> r[i] == Label(list[i])
  {
    seq(|list|, i requires 0 <= i < |list| => Label(list[i]))
  }

  predicate Lists(aliases: map<string, string>, list: seq<Expr>, x: ColumnRef)
    requires ColumnList(list)
  {
    exists i :: 0 <= i < |list| && x == ItemRef(aliases, list[i])
  }

  /** What a list adds to the selected columns. */
  ghost predicate SelectsListed(names: Names, list: seq<Expr>, r: Names)
    requires ColumnList(list)
  {
    forall x :: x in r.selected <==> x in names.selected || Lists(names.aliases, list, x)
  }

  /** Other labels stay as they were. */
  ghost predicate KeepsLabels(names: Names, list: seq<Expr>, r: Names)
    requires ColumnList(list)
  {
    forall n :: n in names.labels && n !in LabelsOf(list) ==> n in r.labels && r.labels[n] == names.labels[n]
  }

  /** Every item's label stands for its column. */
  predicate Labels(aliases: map<string, string>, list: seq<Expr>, r: Names)
    requires ColumnList(list)
  {
    forall i :: 0 <= i < |list| ==> Label(list[i]) in r.labels && r.labels[Label(list[i])] == ItemRef(aliases, list[i])
  }

  lemma SelectedNext(names: Names, names1: Names, list: seq<Expr>, r: Names)
    requires ColumnList(list) && list != [] && names1.aliases == names.aliases
    requires names1.selected == names.selected + {ItemRef(names.aliases, list[0])} &&
      SelectsListed(names1, list[1..], r)
    ensures SelectsListed(names, list, r)
  {
    forall x ensures x in r.selected <==> x in names.selected || Lists(names.aliases, list, x) {
      if Lists(names.aliases, list, x) {
        var i :| 0 <= i < |list| && x == ItemRef(names.aliases, list[i]);
        if i > 0 { assert list[i] == list[1..][i - 1]; }
      }
      if Lists(names.aliases, list[1..], x) {
        var j :| 0 <= j < |list[1..]| && x == ItemRef(names.aliases, list[1..][j]);
        assert list[1..][j] == list[j + 1];
      }
      if x == ItemRef(names.aliases, list[0]) { assert Lists(names.aliases, list, x); }
    }
  }

  lemma LabelsNext(names: Names, names1: Names, list: seq<Expr>, r: Names)
    requires ColumnList(list) && list != [] && names1.aliases == names.aliases
    requires names1.labels == names.labels[Label(list[0]) := ItemRef(names.aliases, list[0])]
    requires KeepsLabels(names1, list[1..], r)
    ensures KeepsLabels(names, list, r)
    ensures NoDuplicates(LabelsOf(list)) ==> NoDuplicates(LabelsOf(list[1..]))
    ensures NoDuplicates(LabelsOf(list)) && Labels(names.aliases, list[1..], r) ==> Labels(names.aliases, list, r)
  {
    var labels, rest := LabelsOf(list), LabelsOf(list[1..]);
    assert labels == [Label(list[0])] + rest;
    if NoDuplicates(labels) {
      forall i, j | 0 <= i < j < |rest| ensures rest[i] != rest[j] { assert labels[i + 1] != labels[j + 1]; }
      assert labels[0] !in rest by {
        forall i | 0 <= i < |rest| ensures rest[i] != labels[0] { assert labels[i + 1] != labels[0]; }
      }
      if Labels(names.aliases, list[1..], r) {
        forall i | 0 <= i < |list|
          ensures Label(list[i]) in r.labels && r.labels[Label(list[i])] == ItemRef(names.aliases, list[i])
        {
          if i > 0 { assert list[i] == list[1..][i - 1]; }
        }
      }
    }
  }

  /** The names after a list of columns: what it selects, and what its labels stand for when they differ. */
  lemma {:induction false} ListNames(role: Role, cfg: DatabaseConfig, names: Names, list: seq<Expr>)
    requires ColumnList(list) && VisitExprs(role, cfg, true, names, list).Ok?
    ensures
      var r := VisitExprs(role, cfg, true, names, list).value;
      && r.aliases == names.aliases && SelectsListed(names, list, r) && KeepsLabels(names, list, r)
      && (NoDuplicates(LabelsOf(list)) ==> Labels(names.aliases, list, r))
    decreases |list|
  {
    hide LabelsOf, NoDuplicates;
    if list != [] {
      var names1 := VisitColumn(role, cfg, true, names, list[0]).value;
      ListNames(role, cfg, names1, list[1..]);
      var r := VisitExprs(role, cfg, true, names, list).value;
      SelectedNext(names, names1, list, r);
      LabelsNext(names, names1, list, r);
    }
  }

  /** A list of columns registers the same names whichever mutator visits it. */
  lemma {:induction false} ListRoles(r1: Role, r2: Role, cfg: DatabaseConfig, names: Names, list: seq<Expr>)
    requires ColumnList(list)
    ensures VisitExprs(r1, cfg, true, names, list) == VisitExprs(r2, cfg, true, names, list)
    decreases |list|
  {
    if list != [] {
      var v := VisitColumn(r1, cfg, true, names, list[0]);
      if v.Ok? { ListRoles(r1, r2, cfg, v.value, list[1..]); }
    }
  }

  // --- column attribution ---

  /** The backend labels each column of the result with its alias or name. */
  predicate Labelled(columns: seq<ColumnDescription>, list: seq<Expr>)
    requires ColumnList(list)
  {
    |columns| == |list| && forall i :: 0 <= i < |list| ==> columns[i].name == Label(list[i])
  }

  predicate DistinctNames(columns: seq<ColumnDescription>) {
    forall i, j :: 0 <= i < j < |columns| ==> columns[i].name != columns[j].name
  }

  lemma DistinctNamesAdd(columns: seq<ColumnDescription>)
    requires columns != []
    ensures
      var n := |columns| - 1;
      DistinctNames(columns) <==> DistinctNames(columns[..n]) && !HasName(columns[..n], columns[n].name)
  {
    var n := |columns| - 1;
    var init := columns[..n];
    if DistinctNames(init) && !HasName(init, columns[n].name) {
      forall i, j | 0 <= i < j < |columns| ensures columns[i].name != columns[j].name {
        assert init[i].name == columns[i].name;
        if j < n { assert init[j].name == columns[j].name; }
      }
    }
  }

  lemma {:induction false} DescribedIffDistinct(cfg: DatabaseConfig, names: Names, columns: seq<ColumnDescription>)
    ensures DescribeColumns(cfg, names, columns).Ok? <==> DistinctNames(columns)
    ensures DescribeColumns(cfg, names, columns).Ok? ==>
            var d := DescribeColumns(cfg, names, columns).value;
            forall i :: 0 <= i < |columns| ==>
              && d.configs[i] == LabelConfig(cfg, names, columns[i].name)
              && d.columns[i] == RestoreType(LabelConfig(cfg, names, columns[i].name), columns[i])
  {
    if columns != [] {
      DescribedIffDistinct(cfg, names, columns[..|columns| - 1]);
      DistinctNamesAdd(columns);
    }
  }

  lemma LabelsDistinct(list: seq<Expr>, columns: seq<ColumnDescription>)
    requires ColumnList(list) && Labelled(columns, list)
    ensures NoDuplicates(LabelsOf(list)) <==> DistinctNames(columns)
  {
    forall i, j | 0 <= i < j < |columns|
      ensures LabelsOf(list)[i] != LabelsOf(list)[j] <==> columns[i].name != columns[j].name
    {
    }
  }

  /**
   * Column attribution: for a select list of column references without derived tables, the row
   * description is accepted exactly when the labels differ, and result column i then carries the
   * configuration and the original type of the column select item i names.
   */
  lemma ColumnAttribution(role: Role, cfg: DatabaseConfig, names0: Names, list: seq<Expr>,
                          columns: seq<ColumnDescription>)
    requires ColumnList(list) && Labelled(columns, list) && VisitExprs(role, cfg, true, names0, list).Ok?
    ensures
      var names := VisitExprs(role, cfg, true, names0, list).value;
      var d := DescribeColumns(cfg, names, columns);
      && (d.Ok? <==> NoDuplicates(LabelsOf(list)))
      && (d.Ok? ==> forall i :: 0 <= i < |list| ==>
            var ref := ItemRef(names0.aliases, list[i]);
            && d.value.configs[i] == cfg.Column(ref.table, ref.column)
            && d.value.columns[i] == RestoreType(cfg.Column(ref.table, ref.column), columns[i]))
  {
    var names := VisitExprs(role, cfg, true, names0, list).value;
    ListNames(role, cfg, names0, list);
    DescribedIffDistinct(cfg, names, columns);
    LabelsDistinct(list, columns);
  }

  /** Each selected column's index is that of a select item naming it. */
  lemma {:induction false} IndexOfColumn(names: Names, columns: seq<ColumnDescription>, r: ColumnRef)
    requires r in ColumnIndices(names, columns)
    ensures
      var i := ColumnIndices(names, columns)[r];
      i < |columns| && columns[i].name in names.labels && names.labels[columns[i].name] == r
  {
    var n := |columns| - 1;
    if !(columns[n].name in names.labels && r == names.labels[columns[n].name]) {
      IndexOfColumn(names, columns[..n], r);
    }
  }

  lemma {:induction false} LabelledHasIndex(names: Names, columns: seq<ColumnDescription>, i: nat)
    requires i < |columns| && columns[i].name in names.labels
    ensures names.labels[columns[i].name] in ColumnIndices(names, columns)
  {
    var n := |columns| - 1;
    if i < n { LabelledHasIndex(names, columns[..n], i); }
  }

  /** Type restoration keeps the labels. */
  lemma {:induction false} IndicesIgnoreTypes(names: Names, c1: seq<ColumnDescription>, c2: seq<ColumnDescription>)
    requires |c1| == |c2| && forall i :: 0 <= i < |c1| ==> c1[i].name == c2[i].name
    ensures ColumnIndices(names, c1) == ColumnIndices(names, c2)
  {
    if c1 != [] { IndicesIgnoreTypes(names, c1[..|c1| - 1], c2[..|c2| - 1]); }
  }

  // --- the recorded comparisons ---

  lemma {:induction false} ComparisonsRecorded(cfg: DatabaseConfig, names: Names, candidates: seq<Expr>)
    requires JoinComparisons(cfg, names, candidates).Ok?
    ensures
      var pairs := JoinComparisons(cfg, names, candidates).value;
      && (forall c :: c in candidates && Joins(cfg, names.aliases, c) ==> ComparedColumns(names.aliases, c) in pairs)
      && (forall p :: p in pairs ==> p.0 in names.selected && p.1 in names.selected)
      && (forall p :: p in pairs ==>
            exists c :: c in candidates && Joins(cfg, names.aliases, c) && p == ComparedColumns(names.aliases, c))
  {
    if candidates != [] {
      ComparisonsRecorded(cfg, names, candidates[1..]);
      var pairs, rest := JoinComparisons(cfg, names, candidates).value,
        JoinComparisons(cfg, names, candidates[1..]).value;
      forall c | c in candidates && Joins(cfg, names.aliases, c) ensures ComparedColumns(names.aliases, c) in pairs {
        assert c == candidates[0] || c in candidates[1..];
      }
      forall p | p in pairs
        ensures p.0 in names.selected && p.1 in names.selected
        ensures exists c :: c in candidates && Joins(cfg, names.aliases, c) && p == ComparedColumns(names.aliases, c)
      {
        if p in rest {
          var c :| c in candidates[1..] && Joins(cfg, names.aliases, c) && p == ComparedColumns(names.aliases, c);
          assert c in candidates;
        } else {
          assert candidates[0] in candidates;
        }
      }
    }
  }

  lemma {:induction false} ComparisonsFound(indices: map<ColumnRef, nat>, comparisons: seq<(ColumnRef, ColumnRef)>)
    requires forall p :: p in comparisons ==> p.0 in indices && p.1 in indices
    ensures ComparisonIndices(indices, comparisons).Ok?
  {
    if comparisons != [] {
      var n := |comparisons| - 1;
      assert comparisons[n] in comparisons;
      ComparisonsFound(indices, comparisons[..n]);
    }
  }

  lemma {:induction false} IndicesOfComparisons(indices: map<ColumnRef, nat>, comparisons: seq<(ColumnRef, ColumnRef)>)
    requires ComparisonIndices(indices, comparisons).Ok?
    ensures
      var pairs := ComparisonIndices(indices, comparisons).value;
      |pairs| == |comparisons| &&
      forall k :: 0 <= k < |pairs| ==>
        && comparisons[k].0 in indices && comparisons[k].1 in indices
        && pairs[k] == (indices[comparisons[k].0], indices[comparisons[k].1])
  {
    if comparisons != [] { IndicesOfComparisons(indices, comparisons[..|comparisons| - 1]); }
  }

  // --- one row ---

  lemma {:induction false} ProjectAt(ops: Operators, db: Database, scope: Scope, b: Binding, list: seq<Expr>)
    ensures |Project(ops, db, scope, b, list)| == |list|
    ensures forall i :: 0 <= i < |list| ==>
      Project(ops, db, scope, b, list)[i] == CellText(Eval(ops, db, scope, b, list[i]))
  {
    if list != [] { ProjectAt(ops, db, scope, b, list[1..]); }
  }

  /** Row decryption cell by cell. */
  lemma {:induction false} DecryptRowAt(crypto: Primitives, configs: seq<Option<ColumnConfig>>, row: DataRow,
                                        row': DataRow)
    requires |configs| == |row| == |row'|
    requires forall i :: 0 <= i < |row| ==> DecryptColumn(crypto, configs[i], row[i]) == Ok(row'[i])
    ensures DecryptRow(crypto, configs, row) == Ok(row')
  {
    if row != [] {
      var n := |row| - 1;
      DecryptRowAt(crypto, configs[..n], row[..n], row'[..n]);
      assert row' == row'[..n] + [row'[n]];
    }
  }

  /** A row of the encrypted database decrypts to the row of the plaintext one. */
  lemma RowDecrypts(w: World, configs: seq<Option<ColumnConfig>>, b: Binding, list: seq<Expr>)
    requires ColumnList(list) && |configs| == |list|
    requires forall i :: 0 <= i < |list| ==>
      var e := list[i];
      && e.table.value in w.scope && w.scope[e.table.value] in w.schema && e.name in w.schema[w.scope[e.table.value]]
      && configs[i] == w.s.cfg.Column(w.scope[e.table.value], e.name)
    ensures |Project(w.ops, w.stored, w.scope, b, list)| == |list|
    ensures DecryptRow(w.s.crypto, configs, Project(w.ops, w.stored, w.scope, b, list)) ==
            Ok(Project(w.ops, w.plain, w.scope, b, list))
  {
    var row, row' := Project(w.ops, w.stored, w.scope, b, list), Project(w.ops, w.plain, w.scope, b, list);
    ProjectAt(w.ops, w.stored, w.scope, b, list);
    ProjectAt(w.ops, w.plain, w.scope, b, list);
    forall i | 0 <= i < |list| ensures DecryptColumn(w.s.crypto, configs[i], row[i]) == Ok(row'[i]) {
      CellRelated(w, b, list[i].table.value, list[i].name);
    }
    DecryptRowAt(w.s.crypto, configs, row, row');
  }

  /** When no table occurs twice, a table has one qualifier. */
  lemma OneQualifier(tables: seq<(string, string)>, q: string, q': string)
    requires DistinctQualifiers(tables) && DistinctTables(tables)
    requires q in ScopeOf(tables) && q' in ScopeOf(tables) && ScopeOf(tables)[q] == ScopeOf(tables)[q']
    ensures q == q'
  {
    ScopeOfTables(tables);
    assert q in QualifierSet(tables) && q' in QualifierSet(tables);
    var i :| 0 <= i < |tables| && tables[i].0 == q;
    var j :| 0 <= j < |tables| && tables[j].0 == q';
    assert tables[i].1 == ScopeOf(tables)[q] && tables[j].1 == ScopeOf(tables)[q'];
  }

  /** The names of a covered select's list, with distinct labels. */
  ghost predicate ListSettled(w: WorldData, sel: Select, names: Names, columns: seq<ColumnDescription>) {
    && ColumnList(sel.selectList) && Labelled(columns, sel.selectList) && names.aliases == w.aliases
    && (forall i :: 0 <= i < |sel.selectList| ==>
          columns[i].name in names.labels && names.labels[columns[i].name] == ItemRef(w.aliases, sel.selectList[i]))
    && (forall x :: x in names.selected ==> exists i ::
      0 <= i < |sel.selectList| && x == ItemRef(w.aliases, sel.selectList[i]))
  }

  /** The result cell at a selected column's index is that column of its table. */
  lemma RefCell(w: World, sel: Select, names: Names, columns: seq<ColumnDescription>, b: Binding, q: string, n: string)
    requires Covered(w, sel) && ListSettled(w, sel, names, columns) && w.scope == ScopeOf(Tables(sel.from.value))
    requires DistinctTables(Tables(sel.from.value)) && q in w.scope
    requires ColumnRef(w.scope[q], n) in ColumnIndices(names, columns)
    ensures
      var i := ColumnIndices(names, columns)[ColumnRef(w.scope[q], n)];
      i < |sel.selectList| == |Project(w.ops, w.plain, w.scope, b, sel.selectList)| &&
      Project(w.ops, w.plain, w.scope, b, sel.selectList)[i] == CellText(Cell(w.plain, w.scope, b, q, n))
  {
    var ref := ColumnRef(w.scope[q], n);
    IndexOfColumn(names, columns, ref);
    var e := sel.selectList[ColumnIndices(names, columns)[ref]];
    assert ItemRef(w.aliases, e) == ref;
    OneQualifier(Tables(sel.from.value), e.table.value, q);
    ProjectAt(w.ops, w.plain, w.scope, b, sel.selectList);
  }

  lemma CandidateInScope(w: World, sel: Select, c: Expr)
    requires Covered(w, sel) && GoodFrom(w, sel.from.value) && w.scope == ScopeOf(Tables(sel.from.value))
    requires c in SelectCandidates(sel) && Joins(w.s.cfg, w.aliases, c)
    ensures IsJoinCandidate(c) && Qualified(c) && c.left.table.value in w.scope && c.right.table.value in w.scope
  {
    hide GoodFrom, TypedFrom, CoveredGroup, Simulates, ValidConfig, ColumnsWithin, Candidates, CandidatesWithin;
    var tr := sel.from.value;
    CandidatesSplit(sel);
    if c in FromCandidates(tr) {
      GoodFromWithin(w, tr);
      ScopeOfTables(Tables(tr));
      WithinScope(QualifierSet(Tables(tr)), FromCandidates(tr), c);
    } else if c in ConditionCandidates(sel) {
      CandidateTyped(w.s.cfg, w.schema, w.scope, sel.whereClause.value, c);
      JoinTyped(w.s.cfg, w.schema, w.scope, c);
    } else {
      OrderCandidateInScope(w, sel, c);
    }
  }

  lemma WithinScope(quals: set<string>, candidates: seq<Expr>, c: Expr)
    requires CandidatesWithin(quals, candidates) && c in candidates && IsJoinCandidate(c) && Qualified(c)
    ensures c.left.table.value in quals && c.right.table.value in quals
  {
  }

  lemma JoinTyped(cfg: DatabaseConfig, schema: Schema, scope: Scope, c: Expr)
    requires WellTyped(cfg, schema, scope, c) && IsJoinCandidate(c) && Qualified(c)
    ensures c.left.table.value in scope && c.right.table.value in scope
  {
    assert WellTyped(cfg, schema, scope, c.left) && WellTyped(cfg, schema, scope, c.right);
  }

  lemma OrderCandidateInScope(w: World, sel: Select, c: Expr)
    requires Covered(w, sel) && c in LaterCandidates(sel) && Joining(w, sel) && Joins(w.s.cfg, w.aliases, c)
    ensures IsJoinCandidate(c) && Qualified(c) && c.left.table.value in w.scope && c.right.table.value in w.scope
  {
    hide TypedFrom, TypedCondition, CoveredGroup, Simulates, ValidConfig, Candidates, WellTyped;
    var i := FlatMapFrom(CandidatesIn(JoinRole).body, OrderExprs(sel.order), c);
    var e := sel.order[i].expr;
    if IsPosition(sel.selectList, e) {
      LiteralHasNone(e);
    } else {
      CandidateTyped(w.s.cfg, w.schema, w.scope, e, c);
      JoinTyped(w.s.cfg, w.schema, w.scope, c);
    }
  }

  lemma LiteralHasNone(e: Expr)
    requires e.Lit?
    ensures Candidates(JoinRole, e) == []
  {
  }

  /** What the join mutator compares for a candidate. */
  lemma CandidateScope(w: World, sel: Select, c: Expr)
    requires Covered(w, sel) && GoodFrom(w, sel.from.value) && w.scope == ScopeOf(Tables(sel.from.value))
    requires c in SelectCandidates(sel) && Joins(w.s.cfg, w.aliases, c)
    ensures IsJoinCandidate(c) && Qualified(c) && c.left.table.value in w.scope && c.right.table.value in w.scope
    ensures DistinctTables(Tables(sel.from.value))
    ensures ComparedColumns(w.aliases, c) ==
            (ColumnRef(w.scope[c.left.table.value], c.left.name), ColumnRef(w.scope[c.right.table.value], c.right.name))
  {
    hide GoodFrom, TypedFrom, TypedCondition, CoveredGroup, CoveredOrder, Simulates, ValidConfig;
    CandidateInScope(w, sel, c);
  }

  /** The result cells a comparison looks at are the compared columns. */
  lemma PairCells(w: World, sel: Select, names: Names, columns: seq<ColumnDescription>, b: Binding, c: Expr)
    requires Covered(w, sel) && GoodFrom(w, sel.from.value) && w.scope == ScopeOf(Tables(sel.from.value))
    requires ListSettled(w, sel, names, columns) && c in SelectCandidates(sel) && Joins(w.s.cfg, w.aliases, c)
    requires
      var (l, r) := ComparedColumns(w.aliases, c);
      l in ColumnIndices(names, columns) && r in ColumnIndices(names, columns)
    ensures
      var (l, r) := ComparedColumns(w.aliases, c);
      var i, j := ColumnIndices(names, columns)[l], ColumnIndices(names, columns)[r];
      var row := Project(w.ops, w.plain, w.scope, b, sel.selectList);
      && IsJoinCandidate(c) && Qualified(c) && i < |row| && j < |row|
      && (row[i] == row[j] <==> SidesAgree(w, b, c))
  {
    hide GoodFrom, TypedFrom, TypedCondition, CoveredGroup, CoveredOrder, Simulates, ValidConfig, ListSettled, Covered,
      ColumnIndices, ScopeOf, Project, SelectCandidates;
    CandidateScope(w, sel, c);
    RefCell(w, sel, names, columns, b, c.left.table.value, c.left.name);
    RefCell(w, sel, names, columns, b, c.right.table.value, c.right.name);
  }

  /** A row's cells at these indices tell whether the columns of a candidate agree. */
  ghost predicate ShowsSides(w: WorldData, b: Binding, indices: map<ColumnRef, nat>, row: DataRow, c: Expr)
    requires Joins(w.s.cfg, w.aliases, c)
  {
    var (l, r) := ComparedColumns(w.aliases, c);
    && l in indices && r in indices && indices[l] < |row| && indices[r] < |row|
    && (row[indices[l]] == row[indices[r]] <==> SidesAgree(w, b, c))
  }

  /** The compared pairs are those of the join equalities among the candidates. */
  ghost predicate Recorded(w: WorldData, candidates: seq<Expr>, comparisons: seq<(ColumnRef, ColumnRef)>) {
    && (forall c :: c in candidates && Joins(w.s.cfg, w.aliases, c) ==> ComparedColumns(w.aliases, c) in comparisons)
    && (forall p :: p in comparisons ==>
          exists c :: c in candidates && Joins(w.s.cfg, w.aliases, c) && p == ComparedColumns(w.aliases, c))
  }

  lemma KeepsWhatAgrees(w: WorldData, b: Binding, candidates: seq<Expr>, comparisons: seq<(ColumnRef, ColumnRef)>,
                        indices: map<ColumnRef, nat>, pairs: seq<(nat, nat)>, row: DataRow)
    requires Recorded(w, candidates, comparisons) && |pairs| == |comparisons| && ValidIndices(pairs, |row|)
    requires forall k :: 0 <= k < |pairs| ==>
               && comparisons[k].0 in indices && comparisons[k].1 in indices
               && pairs[k] == (indices[comparisons[k].0], indices[comparisons[k].1])
    requires forall c :: c in candidates && Joins(w.s.cfg, w.aliases, c) ==> ShowsSides(w, b, indices, row, c)
    ensures KeepsRow(pairs, row) <==> AllAgree(w, b, candidates)
  {
    hide SidesAgree;
    if KeepsRow(pairs, row) {
      forall c | c in candidates && Joins(w.s.cfg, w.aliases, c) ensures SidesAgree(w, b, c) {
        var k :| 0 <= k < |comparisons| && comparisons[k] == ComparedColumns(w.aliases, c);
        assert ShowsSides(w, b, indices, row, c);
        assert row[pairs[k].0] == row[pairs[k].1];
      }
    }
    if AllAgree(w, b, candidates) {
      forall k | 0 <= k < |pairs| ensures row[pairs[k].0] == row[pairs[k].1] {
        assert comparisons[k] in comparisons;
        var c :| c in candidates && Joins(w.s.cfg, w.aliases, c) && comparisons[k] == ComparedColumns(w.aliases, c);
        assert ShowsSides(w, b, indices, row, c);
      }
    }
  }

  /** The filter keeps a decrypted row exactly when every join equality's columns agree. */
  lemma RowKept(w: World, sel: Select, names: Names, columns: seq<ColumnDescription>, b: Binding)
    requires Covered(w, sel) && GoodFrom(w, sel.from.value) && w.scope == ScopeOf(Tables(sel.from.value))
    requires ListSettled(w, sel, names, columns)
    requires JoinComparisons(w.s.cfg, names, SelectCandidates(sel)).Ok?
    requires ComparisonIndices(ColumnIndices(names, columns),
      JoinComparisons(w.s.cfg, names, SelectCandidates(sel)).value).Ok?
    ensures
      var comparisons := JoinComparisons(w.s.cfg, names, SelectCandidates(sel)).value;
      var pairs := ComparisonIndices(ColumnIndices(names, columns), comparisons).value;
      var row := Project(w.ops, w.plain, w.scope, b, sel.selectList);
      ValidIndices(pairs, |row|) && (KeepsRow(pairs, row) <==> Agreeing(w, SelectCandidates(sel))(b))
  {
    hide GoodFrom, Covered, Simulates, ValidConfig, Resolves, JoinComparisons, ComparisonIndices, ColumnIndices,
      SelectCandidates, Project, ScopeOf, ListSettled, KeepsRow, AllAgree, SidesAgree;
    var candidates, indices := SelectCandidates(sel), ColumnIndices(names, columns);
    var comparisons := JoinComparisons(w.s.cfg, names, candidates).value;
    var pairs := ComparisonIndices(indices, comparisons).value;
    var row := Project(w.ops, w.plain, w.scope, b, sel.selectList);
    SettledSizes(w, sel, names, columns, b);
    ComparisonsRecorded(w.s.cfg, names, candidates);
    IndicesOfComparisons(indices, comparisons);
    IndicesInRange(names, columns);
    ComparisonsInRange(indices, comparisons, |row|);
    forall c | c in candidates && Joins(w.s.cfg, w.aliases, c) ensures ShowsSides(w, b, indices, row, c) {
      var k :| 0 <= k < |comparisons| && comparisons[k] == ComparedColumns(w.aliases, c);
      PairCells(w, sel, names, columns, b, c);
    }
    KeepsWhatAgrees(w, b, candidates, comparisons, indices, pairs, row);
  }

  lemma SettledSizes(w: WorldData, sel: Select, names: Names, columns: seq<ColumnDescription>, b: Binding)
    requires ListSettled(w, sel, names, columns)
    ensures names.aliases == w.aliases && |columns| == |Project(w.ops, w.plain, w.scope, b, sel.selectList)|
  {
    ProjectAt(w.ops, w.plain, w.scope, b, sel.selectList);
  }

  /** All rows: decrypting and filtering the encrypted rows gives the plaintext rows that agree, in order. */
  lemma {:induction false} RowsProcessed(w: World, plan: RowPlan, list: seq<Expr>, keep: Binding -> bool,
                                         bs: seq<Binding>)
    requires |plan.configs| == |list| && ValidIndices(plan.pairs, |list|)
    requires forall b :: |Project(w.ops, w.stored, w.scope, b, list)| == |list|
    requires forall b :: |Project(w.ops, w.plain, w.scope, b, list)| == |list|
    requires forall b :: DecryptRow(w.s.crypto, plan.configs, Project(w.ops, w.stored, w.scope, b, list)) ==
                         Ok(Project(w.ops, w.plain, w.scope, b, list))
    requires forall b :: KeepsRow(plan.pairs, Project(w.ops, w.plain, w.scope, b, list)) <==> keep(b)
    ensures forall i :: 0 <= i < |ProjectAll(w.ops, w.stored, w.scope, bs, list)| ==>
              |ProjectAll(w.ops, w.stored, w.scope, bs, list)[i]| == |list|
    ensures ProcessRows(w.s.crypto, plan, ProjectAll(w.ops, w.stored, w.scope, bs, list)) ==
            Ok(ProjectAll(w.ops, w.plain, w.scope, Filter(keep, bs), list))
  {
    hide Simulates, ValidConfig, Resolves, Project, DecryptRow, KeepsRow;
    if bs != [] {
      RowsProcessed(w, plan, list, keep, bs[1..]);
      var rows := ProjectAll(w.ops, w.stored, w.scope, bs, list);
      assert rows[1..] == ProjectAll(w.ops, w.stored, w.scope, bs[1..], list);
      assert ProcessRow(w.s.crypto, plan, rows[0]).Ok?;
      var rest := Filter(keep, bs[1..]);
      if keep(bs[0]) {
        assert Filter(keep, bs) == [bs[0]] + rest && ([bs[0]] + rest)[1..] == rest;
      } else {
        assert Filter(keep, bs) == rest;
      }
    }
  }

  /** The three rewritten forms of an accepted select, and what its results are processed with. */
  lemma AcceptedSelect(w: World, ivs: IVs, sel: Select)
    requires Covered(w, sel) && w.scope == ScopeOf(Tables(sel.from.value)) && w.aliases == AliasesOf(sel.from.value)
    requires RewriteQuery(w.s, ivs, SelectStmt(sel)).Ok?
    ensures
      var q := RewriteQuery(w.s, ivs, SelectStmt(sel)).value;
      var names0 := WithAliases(NO_NAMES, w.aliases);
      && q.statement == SelectStmt(RewrittenSelect(w, sel))
      && VisitExprs(EncryptionRole, w.s.cfg, true, names0, sel.selectList) == Ok(q.names)
      && q.join.names == q.names
      && JoinComparisons(w.s.cfg, q.names, SelectCandidates(sel)) == Ok(q.join.comparisons)
      && VisitSelect(EncryptionRole, w.s.cfg, NO_NAMES, RewrittenSelect(w, sel)) == Ok(q.names)
  {
    hide GoodFrom, TypedFrom, ValidConfig, Simulates, Resolves, TypedCondition, CoveredGroup, CoveredOrder, Joining,
      VisitSelect, VisitExprs, CollectSelect, MapSelect;
    var tr, names0 := sel.from.value, WithAliases(NO_NAMES, w.aliases);
    assert names0.aliases == w.aliases;
    TypedIsFlat(w, tr);
    RewrittenAliases(w, tr);
    RewrittenParts(w, sel);
    var sel1 := MapSelect(IndexRewrite(w.s, w.aliases), sel);
    VisitSelectParts(BlindIndexRole, w.s.cfg, sel);
    ListNames(BlindIndexRole, w.s.cfg, names0, sel.selectList);
    assert IndexQuery(w.s, SelectStmt(sel)) == Ok(SelectStmt(sel1));
    IndexedSelect(w, sel);
    VisitSelectParts(JoinRole, w.s.cfg, sel1);
    ListNames(JoinRole, w.s.cfg, names0, sel.selectList);
    var names := VisitSelect(JoinRole, w.s.cfg, NO_NAMES, sel1).value;
    assert names.aliases == w.aliases;
    assert JoinQuery(w.s, SelectStmt(sel1)).value.0 == SelectStmt(RewrittenSelect(w, sel));
    VisitSelectParts(EncryptionRole, w.s.cfg, RewrittenSelect(w, sel));
    ListRoles(JoinRole, EncryptionRole, w.s.cfg, names0, sel.selectList);
  }

  /** Acceptance makes the clauses good. */
  lemma AcceptedClauses(w: World, sel: Select)
    requires Covered(w, sel) && w.scope == ScopeOf(Tables(sel.from.value)) && w.aliases == AliasesOf(sel.from.value)
    requires VisitSelect(EncryptionRole, w.s.cfg, NO_NAMES, RewrittenSelect(w, sel)).Ok?
    ensures GoodClauses(w, sel)
  {
    hide GoodFrom, GoodCondition, ValidConfig, Simulates, CoveredGroup, CoveredOrder, Joining, RewrittenSelect,
      VisitSelect, VisitExpr, VisitExprs, VisitTableRef, Checked, CheckedList, TypedFrom, TypedCondition, WellTyped;
    var tr, cfg := sel.from.value, w.s.cfg;
    RewrittenParts(w, sel);
    RewrittenAliases(w, tr);
    VisitSelectParts(EncryptionRole, cfg, RewrittenSelect(w, sel));
    ScopeOfTables(Tables(tr));
    AcceptedFrom(w, NO_NAMES, tr);
    var names1 := WithAliases(NO_NAMES, w.aliases);
    assert names1.aliases == w.aliases;
    ListNames(EncryptionRole, cfg, names1, sel.selectList);
    var names2 := VisitExprs(EncryptionRole, cfg, true, names1, sel.selectList).value;
    AliasesResolve(w.scope, tr);
    if sel.whereClause.Some? { AcceptedCondition(w, QualifierSet(Tables(tr)), names2, sel.whereClause.value); }
    if sel.groupBy.Some? {
      var g := sel.groupBy.value;
      CheckedListIffVisited(cfg, names2, RegroupedKeys(w, g.columns));
      if g.having.Some? { CheckedIffVisited(cfg, names2, Regrouped(w, g.having.value)); }
    }
    CheckedListIffVisited(cfg, names2, OrderExprs(RewrittenOrder(w, sel.order)));
  }

  /** The aliases of a covered FROM clause resolve to its scope. */
  lemma SelectResolves(tr: TableRef)
    requires Flat(tr) && DistinctQualifiers(Tables(tr))
    ensures Resolves(AliasesOf(tr), ScopeOf(Tables(tr)))
  {
    ScopeOfTables(Tables(tr));
    AliasesResolve(ScopeOf(Tables(tr)), tr);
  }

  /** With distinct labels, every item's label stands for its column. */
  lemma ListIsSettled(w: World, sel: Select, names: Names, columns: seq<ColumnDescription>)
    requires ColumnList(sel.selectList) && Labelled(columns, sel.selectList) && NoDuplicates(LabelsOf(sel.selectList))
    requires VisitExprs(EncryptionRole, w.s.cfg, true, WithAliases(NO_NAMES, w.aliases), sel.selectList) == Ok(names)
    ensures ListSettled(w, sel, names, columns)
  {
    var names0 := WithAliases(NO_NAMES, w.aliases);
    assert names0.aliases == w.aliases;
    ListNames(EncryptionRole, w.s.cfg, names0, sel.selectList);
  }

  lemma SelectedHasIndex(w: World, sel: Select, names: Names, columns: seq<ColumnDescription>, r: ColumnRef)
    requires ListSettled(w, sel, names, columns) && r in names.selected
    ensures r in ColumnIndices(names, columns)
  {
    var i :| 0 <= i < |sel.selectList| && r == ItemRef(w.aliases, sel.selectList[i]);
    LabelledHasIndex(names, columns, i);
  }

  /** The recorded comparisons all find their columns in the row description. */
  lemma ComparisonsSettled(w: World, sel: Select, names: Names, columns: seq<ColumnDescription>, candidates: seq<Expr>)
    requires ListSettled(w, sel, names, columns) && JoinComparisons(w.s.cfg, names, candidates).Ok?
    ensures ComparisonIndices(ColumnIndices(names, columns), JoinComparisons(w.s.cfg, names, candidates).value).Ok?
  {
    ComparisonsRecorded(w.s.cfg, names, candidates);
    var indices, comparisons := ColumnIndices(names, columns), JoinComparisons(w.s.cfg, names, candidates).value;
    forall p | p in comparisons ensures p.0 in indices && p.1 in indices {
      SelectedHasIndex(w, sel, names, columns, p.0);
      SelectedHasIndex(w, sel, names, columns, p.1);
    }
    ComparisonsFound(indices, comparisons);
  }

  /** What a row description is processed into, for a settled list. */
  lemma DescriptionProcessed(w: World, q: Rewritten, sel: Select, columns: seq<ColumnDescription>)
    requires ListSettled(w, sel, q.names, columns) && q.join.names == q.names && sel.from.Some?
    requires DescribeColumns(w.s.cfg, q.names, columns).Ok?
    requires JoinComparisons(w.s.cfg, q.names, SelectCandidates(sel)) == Ok(q.join.comparisons)
    ensures ProcessDescription(w.s.cfg, q, columns).Ok?
    ensures
      var (columns', plan) := ProcessDescription(w.s.cfg, q, columns).value;
      && ComparisonIndices(ColumnIndices(q.names, columns), q.join.comparisons) == Ok(plan.pairs)
      && DescribeColumns(w.s.cfg, q.names, columns) == Ok(Described(columns', plan.configs))
  {
    DescribedIffDistinct(w.s.cfg, q.names, columns);
    IndicesIgnoreTypes(q.names, DescribeColumns(w.s.cfg, q.names, columns).value.columns, columns);
    ComparisonsSettled(w, sel, q.names, columns, SelectCandidates(sel));
  }

  /** Any rows of an accepted result: decrypted, and kept when they agree. */
  lemma CombinationsProcessed(w: World, q: Rewritten, sel: Select, columns: seq<ColumnDescription>, plan: RowPlan,
                              bs: seq<Binding>)
    requires Covered(w, sel) && GoodFrom(w, sel.from.value) && w.scope == ScopeOf(Tables(sel.from.value))
    requires ListSettled(w, sel, q.names, columns)
    requires JoinComparisons(w.s.cfg, q.names, SelectCandidates(sel)) == Ok(q.join.comparisons)
    requires ComparisonIndices(ColumnIndices(q.names, columns), q.join.comparisons) == Ok(plan.pairs)
    requires PlanFits(w, sel, plan)
    ensures
      var rows := ProjectAll(w.ops, w.stored, w.scope, bs, sel.selectList);
      && (forall i :: 0 <= i < |rows| ==> |rows[i]| == |plan.configs|)
      && ValidIndices(plan.pairs, |plan.configs|)
      && ProcessRows(w.s.crypto, plan, rows) ==
           Ok(ProjectAll(w.ops, w.plain, w.scope, Filter(Agreeing(w, SelectCandidates(sel)), bs), sel.selectList))
  {
    hide GoodFrom, TypedFrom, TypedCondition, CoveredGroup, CoveredOrder, Joining, Simulates, ValidConfig,
      JoinComparisons, ComparisonIndices, ColumnIndices, SelectCandidates, Project, DecryptRow, KeepsRow, ListSettled;
    var keep := Agreeing(w, SelectCandidates(sel));
    forall b
      ensures |Project(w.ops, w.stored, w.scope, b, sel.selectList)| == |sel.selectList|
      ensures |Project(w.ops, w.plain, w.scope, b, sel.selectList)| == |sel.selectList|
      ensures DecryptRow(w.s.crypto, plan.configs, Project(w.ops, w.stored, w.scope, b, sel.selectList)) ==
              Ok(Project(w.ops, w.plain, w.scope, b, sel.selectList))
      ensures ValidIndices(plan.pairs, |sel.selectList|)
      ensures KeepsRow(plan.pairs, Project(w.ops, w.plain, w.scope, b, sel.selectList)) <==> keep(b)
    {
      ProjectAt(w.ops, w.plain, w.scope, b, sel.selectList);
      RowDecrypts(w, plan.configs, b, sel.selectList);
      RowKept(w, sel, q.names, columns, b);
    }
    assert ValidIndices(plan.pairs, |sel.selectList|) by {
      ProjectAt(w.ops, w.plain, w.scope, map[], sel.selectList);
      RowKept(w, sel, q.names, columns, map[]);
    }
    RowsProcessed(w, plan, sel.selectList, keep, bs);
  }

  /** A plan with the configurations of the listed columns. */
  ghost predicate PlanFits(w: WorldData, sel: Select, plan: RowPlan)
    requires Covered(w, sel)
  {
    |plan.configs| == |sel.selectList| && forall i :: 0 <= i < |sel.selectList| ==>
      plan.configs[i] == w.s.cfg.Column(w.scope[sel.selectList[i].table.value], sel.selectList[i].name)
  }

  /** The plaintext rows a select is answered with on which the columns of every join equality agree. */
  ghost function AgreeingRows(w: WorldData, sel: Select): seq<DataRow>
    requires sel.from.Some? && Flat(sel.from.value)
  {
    ProjectAll(w.ops, w.plain, w.scope, Filter(Agreeing(w, SelectCandidates(sel)), Answered(w.ops, w.plain, sel)),
      sel.selectList)
  }

  lemma {:induction false} ProjectAllLength(ops: Operators, db: Database, scope: Scope, bs: seq<Binding>,
                                            list: seq<Expr>)
    ensures |ProjectAll(ops, db, scope, bs, list)| == |bs|
  {
    if bs != [] { ProjectAllLength(ops, db, scope, bs[1..], list); }
  }

  lemma {:induction false} FilterLength<T>(p: T -> bool, s: seq<T>)
    ensures |Filter(p, s)| <= |s|
    ensures |Filter(p, s)| == |s| <==> forall x :: x in s ==> p(x)
  {
    if s != [] {
      FilterLength(p, s[1..]);
      assert s[0] in s;
    }
  }

  /** All rows are agreeing rows exactly when every row of the answer agrees. */
  lemma AgreeingIsAllIff(w: WorldData, sel: Select)
    requires sel.from.Some? && Flat(sel.from.value) && w.scope == ScopeOf(Tables(sel.from.value))
    ensures AgreeingRows(w, sel) == RunSelect(w.ops, w.plain, sel) <==> AllRowsAgree(w, sel)
  {
    hide Answered, ProjectAll, AllAgree, SelectCandidates;
    var agree, bs := Agreeing(w, SelectCandidates(sel)), Answered(w.ops, w.plain, sel);
    FilterLength(agree, bs);
    ProjectAllLength(w.ops, w.plain, w.scope, bs, sel.selectList);
    ProjectAllLength(w.ops, w.plain, w.scope, Filter(agree, bs), sel.selectList);
    if forall b :: b in bs ==> agree(b) { FilterAll(agree, bs); }
  }

  /** The rows of an accepted result. */
  lemma AcceptedRows(w: World, q: Rewritten, sel: Select, columns: seq<ColumnDescription>, plan: RowPlan)
    requires Covered(w, sel) && GoodClauses(w, sel) && w.scope == ScopeOf(Tables(sel.from.value))
    requires ListSettled(w, sel, q.names, columns)
    requires JoinComparisons(w.s.cfg, q.names, SelectCandidates(sel)) == Ok(q.join.comparisons)
    requires ComparisonIndices(ColumnIndices(q.names, columns), q.join.comparisons) == Ok(plan.pairs)
    requires PlanFits(w, sel, plan)
    requires Flat(sel.from.value) && RewrittenSelect(w, sel).from.Some? && Flat(RewrittenSelect(w, sel).from.value)
    ensures
      var rows := RunSelect(w.ops, w.stored, RewrittenSelect(w, sel));
      && (forall i :: 0 <= i < |rows| ==> |rows[i]| == |plan.configs|)
      && ValidIndices(plan.pairs, |plan.configs|)
      && ProcessRows(w.s.crypto, plan, rows) == Ok(AgreeingRows(w, sel))
  {
    hide GoodFrom, TypedFrom, TypedCondition, CoveredGroup, CoveredOrder, Joining, Simulates, ValidConfig,
      JoinComparisons, ComparisonIndices, ColumnIndices, SelectCandidates, Answered, ListSettled, RewrittenSelect,
      CheckedList, GoodCondition;
    AnsweredFiltered(w, sel);
    SelectParts(w, sel);
    ClausesFlat(w, sel);
    CombinationsProcessed(w, q, sel, columns, plan, Answered(w.ops, w.stored, RewrittenSelect(w, sel)));
  }

  /** What end-to-end correctness asks of a rewritten select and its row description: these rows for the client. */
  ghost predicate ResultIs(w: WorldData, q: Rewritten, sel: Select, columns: seq<ColumnDescription>,
                           expected: seq<DataRow>)
    requires sel.from.Some? && Flat(sel.from.value) && Covered(w, sel)
  {
    && q.statement.SelectStmt? && q.statement.select.from.Some? && Flat(q.statement.select.from.value)
    && (ProcessDescription(w.s.cfg, q, columns).Ok? <==> NoDuplicates(LabelsOf(sel.selectList)))
    && (ProcessDescription(w.s.cfg, q, columns).Ok? ==>
          var (columns', plan) := ProcessDescription(w.s.cfg, q, columns).value;
          var rows := RunSelect(w.ops, w.stored, q.statement.select);
          && |columns'| == |columns| == |sel.selectList|
          && (forall i :: 0 <= i < |columns'| ==>
                var e := sel.selectList[i];
                columns'[i] == RestoreType(w.s.cfg.Column(w.scope[e.table.value], e.name), columns[i]))
          && (forall i :: 0 <= i < |rows| ==> |rows[i]| == |plan.configs|)
          && ProcessRows(w.s.crypto, plan, rows) == Ok(expected))
  }

  /** Item i's result column is described as the column of the plaintext table. */
  lemma DescriptionExact(w: World, q: Rewritten, sel: Select, columns: seq<ColumnDescription>)
    requires Covered(w, sel) && Labelled(columns, sel.selectList)
    requires VisitExprs(EncryptionRole, w.s.cfg, true, WithAliases(NO_NAMES, w.aliases), sel.selectList) == Ok(q.names)
    ensures
      var d := DescribeColumns(w.s.cfg, q.names, columns);
      && (d.Ok? <==> NoDuplicates(LabelsOf(sel.selectList)))
      && (d.Ok? ==> forall i :: 0 <= i < |sel.selectList| ==>
            var e := sel.selectList[i];
            && d.value.configs[i] == w.s.cfg.Column(w.scope[e.table.value], e.name)
            && d.value.columns[i] == RestoreType(w.s.cfg.Column(w.scope[e.table.value], e.name), columns[i]))
  {
    var names0 := WithAliases(NO_NAMES, w.aliases);
    assert names0.aliases == w.aliases;
    ColumnAttribution(EncryptionRole, w.s.cfg, names0, sel.selectList, columns);
  }

  lemma AcceptedIsFiltered(w: World, ivs: IVs, sel: Select, columns: seq<ColumnDescription>)
    requires Covered(w, sel) && w.scope == ScopeOf(Tables(sel.from.value)) && w.aliases == AliasesOf(sel.from.value)
    requires Labelled(columns, sel.selectList) && RewriteQuery(w.s, ivs, SelectStmt(sel)).Ok?
    ensures GoodClauses(w, sel) && Flat(sel.from.value)
    ensures ResultIs(w, RewriteQuery(w.s, ivs, SelectStmt(sel)).value, sel, columns, AgreeingRows(w, sel))
  {
    hide RewriteQuery, GoodClauses, TypedFrom, TypedCondition, CoveredGroup, CoveredOrder, Joining, Simulates,
      ValidConfig, Resolves, Answered, RunSelect, AgreeingRows, RewrittenSelect, VisitExprs, VisitSelect,
      JoinComparisons, ComparisonIndices, SelectCandidates;
    AcceptedSelect(w, ivs, sel);
    AcceptedClauses(w, sel);
    ClausesFlat(w, sel);
    var q := RewriteQuery(w.s, ivs, SelectStmt(sel)).value;
    DescriptionExact(w, q, sel, columns);
    if NoDuplicates(LabelsOf(sel.selectList)) {
      ListIsSettled(w, sel, q.names, columns);
      DescriptionProcessed(w, q, sel, columns);
      AcceptedRows(w, q, sel, columns, ProcessDescription(w.s.cfg, q, columns).value.1);
    }
  }

  /** Related databases and the names of a covered select make a world. */
  lemma SelectWorldValid(s: Setting, schema: Schema, plain: Database, stored: Database, ops: Operators, sel: Select)
    requires s.crypto.Valid() && ValidConfig(s.cfg, schema) && Simulates(s, schema, plain, stored)
    requires sel.from.Some? && Covered(SelectWorld(s, schema, plain, stored, ops, sel.from.value), sel)
    ensures Flat(sel.from.value) && SelectWorld(s, schema, plain, stored, ops, sel.from.value).Valid()
  {
    hide Simulates, ValidConfig;
    TypedIsFlat(SelectWorld(s, schema, plain, stored, ops, sel.from.value), sel.from.value);
    SelectResolves(sel.from.value);
  }

  /**
   * What a SELECT gives, whatever its condition. For every pair of related databases and every covered select
   * the chain accepts, the row description is accepted exactly when the labels of the select list differ,
   * every result column gets its original type back, and running the rewritten select on the encrypted
   * database and processing its rows gives, in order, the rows of the original select on the plaintext one
   * that agree on the columns of every join equality. They are all the rows exactly when every row agrees.
   */
  lemma SelectIsFiltered(s: Setting, schema: Schema, plain: Database, stored: Database, ops: Operators, ivs: IVs,
                         sel: Select, columns: seq<ColumnDescription>)
    requires s.crypto.Valid() && ValidConfig(s.cfg, schema) && Simulates(s, schema, plain, stored)
    requires sel.from.Some? && Covered(SelectWorld(s, schema, plain, stored, ops, sel.from.value), sel)
    requires Labelled(columns, sel.selectList)
    requires RewriteQuery(s, ivs, SelectStmt(sel)).Ok?
    ensures Flat(sel.from.value)
    ensures
      var w := SelectWorld(s, schema, plain, stored, ops, sel.from.value);
      && ResultIs(w, RewriteQuery(s, ivs, SelectStmt(sel)).value, sel, columns, AgreeingRows(w, sel))
      && (AgreeingRows(w, sel) == RunSelect(ops, plain, sel) <==> AllRowsAgree(w, sel))
  {
    hide RewriteQuery, Covered, Simulates, ValidConfig, Resolves, ResultIs, AgreeingRows, RunSelect, AllRowsAgree;
    SelectWorldValid(s, schema, plain, stored, ops, sel);
    var w: World := SelectWorld(s, schema, plain, stored, ops, sel.from.value);
    AcceptedIsFiltered(w, ivs, sel, columns);
    AgreeingIsAllIff(w, sel);
  }

  /** With conjoined join equalities the agreeing rows are all the rows. */
  lemma ConjoinedIsExact(s: Setting, schema: Schema, plain: Database, stored: Database, ops: Operators, ivs: IVs,
                         sel: Select, columns: seq<ColumnDescription>)
    requires s.crypto.Valid() && ValidConfig(s.cfg, schema) && Simulates(s, schema, plain, stored)
    requires sel.from.Some? && Covered(SelectWorld(s, schema, plain, stored, ops, sel.from.value), sel)
    requires Conjoined(SelectWorld(s, schema, plain, stored, ops, sel.from.value), sel)
    requires Labelled(columns, sel.selectList) && RewriteQuery(s, ivs, SelectStmt(sel)).Ok?
    ensures Flat(sel.from.value)
    ensures AgreeingRows(SelectWorld(s, schema, plain, stored, ops, sel.from.value), sel) == RunSelect(ops, plain, sel)
  {
    hide RewriteQuery, Covered, Simulates, ValidConfig, Resolves, ResultIs, AgreeingRows, RunSelect, AllRowsAgree,
      Conjoined, GoodClauses;
    SelectWorldValid(s, schema, plain, stored, ops, sel);
    var w: World := SelectWorld(s, schema, plain, stored, ops, sel.from.value);
    AcceptedIsFiltered(w, ivs, sel, columns);
    ConjoinedAgrees(w, sel);
    AgreeingIsAllIff(w, sel);
  }

  /**
   * End-to-end correctness of SELECT: when its join equalities are conjuncts of ON and WHERE, or there are
   * none, the client gets exactly the rows of the original select on the plaintext database, in order.
   */
  lemma SelectIsExact(s: Setting, schema: Schema, plain: Database, stored: Database, ops: Operators, ivs: IVs,
                      sel: Select, columns: seq<ColumnDescription>)
    requires s.crypto.Valid() && ValidConfig(s.cfg, schema) && Simulates(s, schema, plain, stored)
    requires sel.from.Some? && Covered(SelectWorld(s, schema, plain, stored, ops, sel.from.value), sel)
    requires Conjoined(SelectWorld(s, schema, plain, stored, ops, sel.from.value), sel)
    requires Labelled(columns, sel.selectList)
    requires RewriteQuery(s, ivs, SelectStmt(sel)).Ok?
    ensures Flat(sel.from.value)
    ensures ResultIs(SelectWorld(s, schema, plain, stored, ops, sel.from.value),
                     RewriteQuery(s, ivs, SelectStmt(sel)).value, sel, columns, RunSelect(ops, plain, sel))
  {
    hide RewriteQuery, Covered, Simulates, ValidConfig, Resolves, ResultIs, AgreeingRows, RunSelect, AllRowsAgree,
      Conjoined;
    SelectIsFiltered(s, schema, plain, stored, ops, ivs, sel, columns);
    ConjoinedIsExact(s, schema, plain, stored, ops, ivs, sel, columns);
  }
}
