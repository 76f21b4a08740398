/** Where the guarantees end: the inputs on which the answer is not the plaintext database's, and exactly when it is. */
module Boundaries {
  import opened Outcomes
  import opened Bytes
  import opened Crypto
  import opened Sql
  import opened Config
  import opened Traversal
  import opened Rewriting
  import opened Semantics
  import opened Relation
  import opened Ordering
  import opened Grouping
  import opened JoinCorrectness
  import opened SelectCorrectness
  import opened SelectClauses
  import opened SelectTheorem
  import opened Results

  // --- join equalities that are no conjuncts ---

  /** A joining select is answered with the combinations it keeps. */
  lemma AnsweredIsKept(w: World, sel: Select, b: Binding)
    requires Covered(w, sel) && Joining(w, sel) && Flat(sel.from.value) && w.scope == ScopeOf(Tables(sel.from.value))
    ensures b in Answered(w.ops, w.plain, sel) <==> b in Kept(w.ops, w.plain, sel)
  {
    hide Simulates, ValidConfig, TypedFrom, TypedCondition, CoveredGroup, CoveredOrder, Joining, Before, Kept;
    SortPermutes(Before(w.ops, w.plain, w.scope, sel.selectList, sel.order), Kept(w.ops, w.plain, sel));
  }

  lemma WhereCandidate(sel: Select, c: Expr)
    requires sel.from.Some? && ColumnList(sel.selectList) && sel.whereClause.Some?
    requires c in Candidates(JoinRole, sel.whereClause.value)
    ensures c in SelectCandidates(sel)
  {
    hide Candidates, SelectCandidates, FromTableRef;
    CandidatesSplit(sel);
  }

  /** Nothing that agrees makes a negated join equality true. */
  lemma NegatedJoinDisagrees(w: World, b: Binding, j: Expr)
    requires WellTyped(w.s.cfg, w.schema, w.scope, j) && Joins(w.s.cfg, w.aliases, j) && w.PlainHolds(b, Un(Not, j))
    ensures !SidesAgree(w, b, j)
  {
    hide ValidConfig, Simulates, Resolves, WellTyped;
    JoinEqualityValues(w, b, j);
    assert w.PlainValue(b, Un(Not, j)) == NotValue(w.PlainValue(b, j));
  }

  /** The join filter drops every row of `WHERE NOT a.x = b.y`. */
  lemma NegatedJoinKeepsNothing(w: World, sel: Select, j: Expr)
    requires Covered(w, sel) && Flat(sel.from.value) && w.scope == ScopeOf(Tables(sel.from.value))
    requires sel.whereClause == Some(Un(Not, j)) && Joins(w.s.cfg, w.aliases, j)
    ensures AgreeingRows(w, sel) == []
  {
    hide Simulates, ValidConfig, TypedFrom, CoveredGroup, CoveredOrder, Before, Answered, SelectCandidates, ProjectAll;
    NegatedCandidate(j);
    WhereCandidate(sel, j);
    var agree, bs := Agreeing(w, SelectCandidates(sel)), Answered(w.ops, w.plain, sel);
    forall b | b in bs ensures !agree(b) {
      AnsweredIsKept(w, sel, b);
      FilterIn(Satisfying(w.ops, w.plain, w.scope, sel.whereClause.value),
        Bindings(w.ops, w.plain, w.scope, sel.from.value));
      NegatedJoinDisagrees(w, b, j);
    }
    FilterNone(agree, bs);
    NothingProjected(w.ops, w.plain, w.scope, sel.selectList);
  }

  lemma NegatedCandidate(j: Expr)
    requires IsJoinCandidate(j)
    ensures Candidates(JoinRole, Un(Not, j)) == [j]
  {
    assert Candidates(JoinRole, Un(Not, j)) == Candidates(JoinRole, j);
  }

  lemma NothingProjected(ops: Operators, db: Database, scope: Scope, list: seq<Expr>)
    ensures ProjectAll(ops, db, scope, [], list) == []
  {
  }

  lemma HoldsOr(ops: Operators, db: Database, scope: Scope, b: Binding, l: Expr, r: Expr)
    ensures Holds(ops, db, scope, b, Bin(Or, l, r)) <==> Holds(ops, db, scope, b, l) || Holds(ops, db, scope, b, r)
  {
  }

  /** The only join equality of the select. */
  ghost predicate OnlyJoin(w: WorldData, sel: Select, j: Expr) {
    && Joins(w.s.cfg, w.aliases, j)
    && forall c :: c in SelectCandidates(sel) && Joins(w.s.cfg, w.aliases, c) ==> c == j
  }

  lemma OnlyJoinAgrees(w: WorldData, sel: Select, j: Expr, b: Binding)
    requires OnlyJoin(w, sel, j) && j in SelectCandidates(sel)
    ensures AllAgree(w, b, SelectCandidates(sel)) <==> SidesAgree(w, b, j)
  {
    hide SelectCandidates, SidesAgree;
  }

  lemma OrCandidate(w: WorldData, sel: Select, j: Expr, e: Expr)
    requires sel.from.Some? && ColumnList(sel.selectList) && sel.whereClause == Some(Bin(Or, j, e)) &&
      IsJoinCandidate(j)
    ensures j in SelectCandidates(sel)
  {
    hide SelectCandidates;
    assert Candidates(JoinRole, j) == [j];
    assert Candidates(JoinRole, Bin(Or, j, e)) == [j] + Candidates(JoinRole, e);
    WhereCandidate(sel, j);
  }

  /**
   * `WHERE a.x = b.y OR e`: the client gets the plaintext rows exactly when no combination of rows makes e
   * true while the joined columns differ. The filter drops those rows.
   */
  lemma OrJoinExactIff(w: World, sel: Select, j: Expr, e: Expr)
    requires Covered(w, sel) && Flat(sel.from.value) && w.scope == ScopeOf(Tables(sel.from.value))
    requires sel.whereClause == Some(Bin(Or, j, e)) && OnlyJoin(w, sel, j)
    ensures AgreeingRows(w, sel) == RunSelect(w.ops, w.plain, sel) <==>
            forall b :: b in Bindings(w.ops, w.plain, w.scope, sel.from.value) && w.PlainHolds(b, e) ==>
              SidesAgree(w, b, j)
  {
    hide Simulates, ValidConfig, Resolves, TypedFrom, CoveredGroup, CoveredOrder, Before, Answered, SelectCandidates,
      AgreeingRows, RunSelect, SidesAgree, Holds;
    OrCandidate(w, sel, j, e);
    AgreeingIsAllIff(w, sel);
    var bs := Bindings(w.ops, w.plain, w.scope, sel.from.value);
    FilterIn(Satisfying(w.ops, w.plain, w.scope, sel.whereClause.value), bs);
    forall b
      ensures b in Answered(w.ops, w.plain, sel) <==> b in bs && (w.PlainHolds(b, j) || w.PlainHolds(b, e))
      ensures AllAgree(w, b, SelectCandidates(sel)) <==> SidesAgree(w, b, j)
      ensures w.PlainHolds(b, j) ==> SidesAgree(w, b, j)
    {
      AnsweredIsKept(w, sel, b);
      HoldsOr(w.ops, w.plain, w.scope, b, j, e);
      OnlyJoinAgrees(w, sel, j, b);
      if w.PlainHolds(b, j) { JoinEqualityAgrees(w, b, j); }
    }
    if AllRowsAgree(w, sel) {
      forall b | b in bs && w.PlainHolds(b, e) ensures SidesAgree(w, b, j) {
        assert b in Answered(w.ops, w.plain, sel);
      }
    }
  }

  // --- LIMIT before the join filter ---

  /** The first n elements, or all of a shorter sequence. */
  function Take<T>(s: seq<T>, n: nat): seq<T> { if n <= |s| then s[..n] else s }

  /** Of n rows, or of all, what a filter keeps is what it would keep first of all rows, in these cases only. */
  lemma TakeFilter<T>(keep: T -> bool, s: seq<T>, n: nat)
    ensures |Filter(keep, Take(s, n))| == |Take(Filter(keep, s), n)| <==>
            |s| <= n || (forall x :: x in s[..n] ==> keep(x)) || (forall x :: x in s[n..] ==> !keep(x))
    ensures |Filter(keep, Take(s, n))| == |Take(Filter(keep, s), n)| ==>
      Filter(keep, Take(s, n)) == Take(Filter(keep, s), n)
  {
    if n < |s| {
      var first, rest := s[..n], s[n..];
      assert s == first + rest;
      FilterConcat(keep, first, rest);
      FilterLength(keep, first);
      FilterIn(keep, rest);
      if forall x :: x in rest ==> !keep(x) { FilterNone(keep, rest); }
      if Filter(keep, rest) == [] {
        forall x | x in rest ensures !keep(x) { assert keep(x) ==> x in Filter(keep, rest); }
      }
    } else {
      assert Take(s, n) == s;
      FilterLength(keep, s);
    }
  }

  function Limited(sel: Select, n: nat): Select { sel.(limit := Some(n)) }

  lemma VisitLimited(role: Role, cfg: DatabaseConfig, sel: Select, n: nat)
    ensures VisitSelect(role, cfg, NO_NAMES, Limited(sel, n)) == VisitSelect(role, cfg, NO_NAMES, sel)
  {
    hide VisitTableRef, VisitExprs, VisitExpr;
  }

  lemma MapLimited(r: Rewrite, sel: Select, n: nat)
    ensures MapSelect(r, Limited(sel, n)) == Limited(MapSelect(r, sel), n)
  {
  }

  lemma CollectLimited<T>(c: Collect<T>, sel: Select, n: nat)
    ensures CollectSelect(c, Limited(sel, n)) == CollectSelect(c, sel)
  {
  }

  lemma IndexLimited(s: Setting, sel: Select, n: nat)
    ensures
      var q, q' := IndexQuery(s, SelectStmt(sel)), IndexQuery(s, SelectStmt(Limited(sel, n)));
      && (q.Err? ==> q' == q)
      && (q.Ok? ==> q.value.SelectStmt? && q' == Ok(SelectStmt(Limited(q.value.select, n))))
  {
    hide VisitSelect, MapSelect, CollectSelect, FirstUnqualified;
    VisitLimited(BlindIndexRole, s.cfg, sel, n);
    CollectLimited(CandidatesIn(BlindIndexRole), sel, n);
    assert IndexCandidates(SelectStmt(Limited(sel, n))) == IndexCandidates(SelectStmt(sel));
    assert GroupColumns(SelectStmt(Limited(sel, n))) == GroupColumns(SelectStmt(sel)) by {
      CollectLimited(ColumnsInGroups(), sel, n);
    }
    forall aliases
      ensures MapSelect(IndexRewrite(s, aliases), Limited(sel, n)) ==
        Limited(MapSelect(IndexRewrite(s, aliases), sel), n)
    {
      MapLimited(IndexRewrite(s, aliases), sel, n);
    }
  }

  lemma JoinLimited(s: Setting, sel: Select, n: nat)
    ensures
      var q, q' := JoinQuery(s, SelectStmt(sel)), JoinQuery(s, SelectStmt(Limited(sel, n)));
      && (q.Err? ==> q' == q)
      && (q.Ok? ==> q.value.0.SelectStmt? && q' == Ok((SelectStmt(Limited(q.value.0.select, n)), q.value.1)))
  {
    hide VisitSelect, MapSelect, CollectSelect, JoinComparisons;
    VisitLimited(JoinRole, s.cfg, sel, n);
    CollectLimited(CandidatesIn(JoinRole), sel, n);
    forall aliases
      ensures MapSelect(JoinRewrite(s.cfg, aliases), Limited(sel, n)) ==
        Limited(MapSelect(JoinRewrite(s.cfg, aliases), sel), n)
    {
      MapLimited(JoinRewrite(s.cfg, aliases), sel, n);
    }
  }

  /** The chain passes LIMIT through. */
  lemma RewriteLimited(s: Setting, ivs: IVs, sel: Select, n: nat)
    requires RewriteQuery(s, ivs, SelectStmt(sel)).Ok?
    ensures
      var q := RewriteQuery(s, ivs, SelectStmt(sel)).value;
      q.statement.SelectStmt? &&
      RewriteQuery(s, ivs, SelectStmt(Limited(sel, n))) ==
        Ok(q.(statement := SelectStmt(Limited(q.statement.select, n))))
  {
    hide IndexQuery, JoinQuery, VisitSelect;
    IndexLimited(s, sel, n);
    var sel1 := IndexQuery(s, SelectStmt(sel)).value.select;
    JoinLimited(s, sel1, n);
    VisitLimited(EncryptionRole, s.cfg, JoinQuery(s, SelectStmt(sel1)).value.0.select, n);
  }

  /** A limited select is answered with the first rows of the select. */
  lemma LimitedAnswer(ops: Operators, db: Database, sel: Select, n: nat)
    requires sel.from.Some? && Flat(sel.from.value) && sel.limit.None? && sel.offset.None?
    ensures Answered(ops, db, Limited(sel, n)) == Take(Answered(ops, db, sel), n)
  {
  }

  /** The rows a client gets of a limited select: the limit is applied, then the filter. */
  ghost function FilteredLate(w: WorldData, sel: Select, n: nat): seq<DataRow>
    requires RewrittenSelect(w, sel).from.Some? && Flat(RewrittenSelect(w, sel).from.value)
  {
    ProjectAll(w.ops, w.plain, w.scope,
               Filter(Agreeing(w, SelectCandidates(sel)), Take(Answered(w.ops, w.stored, RewrittenSelect(w, sel)), n)),
               sel.selectList)
  }

  /** All rows before the limit agree, or none after it. */
  ghost predicate LimitHarmless(w: WorldData, sel: Select, n: nat)
    requires RewrittenSelect(w, sel).from.Some? && Flat(RewrittenSelect(w, sel).from.value)
  {
    var bs := Answered(w.ops, w.stored, RewrittenSelect(w, sel));
    || |bs| <= n
    || (forall b :: b in bs[..n] ==> AllAgree(w, b, SelectCandidates(sel)))
    || (forall b :: b in bs[n..] ==> !AllAgree(w, b, SelectCandidates(sel)))
  }

  lemma LateIsExactIff(w: World, sel: Select, n: nat)
    requires Covered(w, sel) && GoodClauses(w, sel) && Conjoined(w, sel) && w.scope == ScopeOf(Tables(sel.from.value))
    requires sel.limit.None? && sel.offset.None? && Flat(sel.from.value)
    requires RewrittenSelect(w, sel).from.Some? && Flat(RewrittenSelect(w, sel).from.value)
    ensures FilteredLate(w, sel, n) == RunSelect(w.ops, w.plain, Limited(sel, n)) <==> LimitHarmless(w, sel, n)
  {
    hide Covered, GoodClauses, Conjoined, Simulates, ValidConfig, Resolves, Answered, RewrittenSelect,
      SelectCandidates, AllAgree, ProjectAll;
    var agree, bs := Agreeing(w, SelectCandidates(sel)), Answered(w.ops, w.stored, RewrittenSelect(w, sel));
    CoveredParts(w, sel);
    AnsweredFiltered(w, sel);
    ConjoinedAgrees(w, sel);
    FilterAll(agree, Answered(w.ops, w.plain, sel));
    LimitedAnswer(w.ops, w.plain, sel, n);
    TakeFilter(agree, bs, n);
    ProjectAllLength(w.ops, w.plain, w.scope, Filter(agree, Take(bs, n)), sel.selectList);
    ProjectAllLength(w.ops, w.plain, w.scope, Take(Filter(agree, bs), n), sel.selectList);
  }

  /**
   * LIMIT on a select that joins: the backend applies it before the filter drops rows. The client gets the
   * rows of the plaintext select exactly when all rows up to the limit agree, or no row after it does.
   */
  lemma LimitBeforeFilter(w: World, ivs: IVs, sel: Select, n: nat, columns: seq<ColumnDescription>)
    requires Covered(w, sel) && Conjoined(w, sel) && sel.limit.None? && sel.offset.None?
    requires w.scope == ScopeOf(Tables(sel.from.value)) && w.aliases == AliasesOf(sel.from.value)
    requires Labelled(columns, sel.selectList) && NoDuplicates(LabelsOf(sel.selectList))
    requires RewriteQuery(w.s, ivs, SelectStmt(sel)).Ok?
    ensures RewriteQuery(w.s, ivs, SelectStmt(Limited(sel, n))).Ok?
    ensures Flat(sel.from.value) && RewrittenSelect(w, sel).from.Some? && Flat(RewrittenSelect(w, sel).from.value)
    ensures
      var q := RewriteQuery(w.s, ivs, SelectStmt(Limited(sel, n))).value;
      && q.statement == SelectStmt(Limited(RewrittenSelect(w, sel), n))
      && ProcessDescription(w.s.cfg, q, columns).Ok?
      && var plan, rows := ProcessDescription(w.s.cfg, q, columns).value.1,
                           RunSelect(w.ops, w.stored, Limited(RewrittenSelect(w, sel), n));
         && (forall i :: 0 <= i < |rows| ==> |rows[i]| == |plan.configs|) && ValidIndices(plan.pairs, |plan.configs|)
         && ProcessRows(w.s.crypto, plan, rows) == Ok(FilteredLate(w, sel, n))
    ensures FilteredLate(w, sel, n) == RunSelect(w.ops, w.plain, Limited(sel, n)) <==> LimitHarmless(w, sel, n)
  {
    hide Covered, GoodClauses, Conjoined, Simulates, ValidConfig, Resolves, Answered, RewrittenSelect,
      SelectCandidates, RewriteQuery, ProcessDescription, VisitExprs, ListSettled, JoinComparisons, ComparisonIndices,
      LimitHarmless;
    var q := RewriteQuery(w.s, ivs, SelectStmt(sel)).value;
    AcceptedSelect(w, ivs, sel);
    AcceptedIsFiltered(w, ivs, sel, columns);
    RewriteLimited(w.s, ivs, sel, n);
    CoveredParts(w, sel);
    ClausesFlat(w, sel);
    LateIsExactIff(w, sel, n);
    DescriptionExact(w, q, sel, columns);
    ListIsSettled(w, sel, q.names, columns);
    DescriptionProcessed(w, q, sel, columns);
    DescriptionIgnoresStatement(w.s.cfg, q, SelectStmt(Limited(RewrittenSelect(w, sel), n)), columns);
    LimitedRows(w, q, sel, n, columns, ProcessDescription(w.s.cfg, q, columns).value.1);
  }

  lemma DescriptionIgnoresStatement(cfg: DatabaseConfig, q: Rewritten, st: Statement, columns: seq<ColumnDescription>)
    ensures ProcessDescription(cfg, q.(statement := st), columns) == ProcessDescription(cfg, q, columns)
  {
  }

  lemma LimitedRows(w: World, q: Rewritten, sel: Select, n: nat, columns: seq<ColumnDescription>, plan: RowPlan)
    requires Covered(w, sel) && GoodClauses(w, sel) && w.scope == ScopeOf(Tables(sel.from.value))
    requires sel.limit.None? && sel.offset.None? && ListSettled(w, sel, q.names, columns)
    requires JoinComparisons(w.s.cfg, q.names, SelectCandidates(sel)) == Ok(q.join.comparisons)
    requires ComparisonIndices(ColumnIndices(q.names, columns), q.join.comparisons) == Ok(plan.pairs)
    requires PlanFits(w, sel, plan)
    requires Flat(sel.from.value) && RewrittenSelect(w, sel).from.Some? && Flat(RewrittenSelect(w, sel).from.value)
    ensures
      var rows := RunSelect(w.ops, w.stored, Limited(RewrittenSelect(w, sel), n));
      && (forall i :: 0 <= i < |rows| ==> |rows[i]| == |plan.configs|) && ValidIndices(plan.pairs, |plan.configs|)
      && ProcessRows(w.s.crypto, plan, rows) == Ok(FilteredLate(w, sel, n))
  {
    hide Covered, Simulates, ValidConfig, Resolves, Answered, RewrittenSelect, SelectCandidates, ListSettled,
      JoinComparisons, ComparisonIndices, PlanFits, GoodFrom, GoodCondition, CheckedList;
    CoveredParts(w, sel);
    SelectParts(w, sel);
    ClausesFlat(w, sel);
    LimitedAnswer(w.ops, w.stored, RewrittenSelect(w, sel), n);
    CombinationsProcessed(w, q, sel, columns, plan, Take(Answered(w.ops, w.stored, RewrittenSelect(w, sel)), n));
  }

  // --- numbers compared with strings ---

  /**
   * A number stored in an indexed column and compared with a string: the index gives the answer of the
   * plaintext comparison exactly when the string is the number's decimal text and its raw bytes, or neither.
   */
  lemma MixedKindsExactIff(s: Setting, c: ColumnConfig, n: int, t: ByteString)
    requires s.crypto.Valid()
    ensures EqualsValue(IndexValue(s, c, Num(n)), IndexValue(s, c, Text(t))) == EqualsValue(Num(n), Text(t)) <==>
            (t == Decimal(n) <==> t == RawInt64(n))
  {
    s.crypto.BlindIndexInjective(c.biKey, RawInt64(n), t);
  }

  /** So `column = '5'` misses the row that holds 5. */
  lemma MixedKindsMiss(s: Setting, c: ColumnConfig)
    requires s.crypto.Valid()
    ensures EqualsValue(Num(5), Text([53])) == Bool(true)
    ensures EqualsValue(IndexValue(s, c, Num(5)), IndexValue(s, c, Text([53]))) == Bool(false)
  {
    assert Decimal(5) == [53];
    assert |RawInt64(5)| == 8;
    s.crypto.BlindIndexInjective(c.biKey, RawInt64(5), [53]);
  }
}
