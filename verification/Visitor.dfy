/** The visitor that walks a statement: its flags, its name tables, and the candidates it gathers on the way. */
module Visitor {
  import opened Outcomes
  import opened Sql
  import opened Config
  import opened Traversal
  import opened Rewriting

  /** What a walk over an expression outside or inside a group gathers besides candidates. */
  function Gathered(role: Role, inGroupBy: bool, e: Expr): seq<Expr> {
    if role.BlindIndexRole? && inGroupBy then VisitedColumns(e) else []
  }

  function GatheredOf(role: Role, inGroupBy: bool, es: seq<Expr>): seq<Expr> {
    if role.BlindIndexRole? && inGroupBy then VisitedColumnsOf(es) else []
  }

  /** The columns in groups that one of the mutators gathers. */
  function GroupsOf(role: Role): Collect<Expr> {
    if role.BlindIndexRole? then ColumnsInGroups() else Collect(e => [], e => [])
  }

  /** The error of a FROM clause comes from the condition of one of its own joins. */
  predicate ConditionFails(role: Role, cfg: DatabaseConfig, names: Names, tr: TableRef)
    decreases tr, 1
  {
    match tr
    case TableName(_, _) => false
    case TableSelect(_) => false
    case TableJoin(l, r, condition) =>
      var left := VisitTableRef(role, cfg, names, l);
      if left.Err? then ConditionFails(role, cfg, names, l)
      else
        var right := VisitTableRef(role, cfg, left.value, r);
        if right.Err? then ConditionFails(role, cfg, left.value, r)
        else VisitExpr(role, cfg, false, right.value, condition).Err?
    case TableCrossProduct(list) => ConditionFailsIn(role, cfg, names, list)
  }

  predicate ConditionFailsIn(role: Role, cfg: DatabaseConfig, names: Names, trs: seq<TableRef>)
    decreases trs, 0
  {
    trs != [] &&
    var first := VisitTableRef(role, cfg, names, trs[0]);
    if first.Err? then ConditionFails(role, cfg, names, trs[0]) else ConditionFailsIn(role, cfg, first.value, trs[1..])
  }

  /** A walk's outcome: the error, or the names, candidates and columns in groups after it. */
  predicate Walked(r: Option<Error>, expected: Result<Names>, names: Names, candidates: seq<Expr>, groups: seq<Expr>,
                   expectedCandidates: seq<Expr>, expectedGroups: seq<Expr>)
  {
    match expected
    case Err(e) => r == Some(e)
    case Ok(names') => r.None? && names == names' && candidates == expectedCandidates && groups == expectedGroups
  }

  lemma {:induction false} FlatMapOfCandidates(role: Role, es: seq<Expr>)
    ensures FlatMap(CandidatesIn(role).body, es) == CandidatesOf(role, es)
    ensures FlatMap(CandidatesIn(role).group, es) == CandidatesOf(role, es)
    decreases |es|
  {
    if es != [] { FlatMapOfCandidates(role, es[1..]); }
  }

  lemma {:induction false} FlatMapOfGroups(role: Role, es: seq<Expr>)
    ensures FlatMap(GroupsOf(role).body, es) == []
    ensures FlatMap(GroupsOf(role).group, es) == GatheredOf(role, true, es)
    decreases |es|
  {
    if es != [] { FlatMapOfGroups(role, es[1..]); }
  }

  /** What the clauses of a select add, one after the other. */
  lemma ClausesGathered<T>(c: Collect<T>, s: Select, x0: seq<T>, x1: seq<T>, x2: seq<T>, x3: seq<T>, x4: seq<T>,
                           x5: seq<T>)
    requires x1 == x0 + (if s.from.Some? then FromTableRef(c, s.from.value) else [])
    requires x2 == x1 + FlatMap(c.body, s.selectList)
    requires x3 == x2 + FromOption(c.body, s.whereClause)
    requires x4 == if s.groupBy.None? then x3
                   else x3 + FlatMap(c.group, s.groupBy.value.columns) + FromOption(c.group, s.groupBy.value.having)
    requires x5 == x4 + FlatMap(c.body, OrderExprs(s.order))
    ensures x5 == x0 + CollectSelect(c, s)
  {
    hide FromTableRef, FlatMap, FromOption;
  }

  class Visitor {
    const role: Role
    const cfg: DatabaseConfig
    var inSelectBody: bool
    var inJoinCondition: bool
    var inGroupBy: bool
    var aliases: map<string, string>
    var selected: set<ColumnRef>
    var labels: map<string, ColumnRef>
    var candidates: seq<Expr>
    var groups: seq<Expr>

    ghost function Contents(): Names
      reads this
    {
      Names(aliases, selected, labels)
    }

    /** The walk is in none of the places the flags tell. */
    predicate Outside()
      reads this
    {
      !inSelectBody && !inJoinCondition && !inGroupBy
    }

    constructor (role: Role, cfg: DatabaseConfig)
      ensures this.role == role && this.cfg == cfg && Outside()
      ensures Contents() == NO_NAMES && candidates == [] && groups == []
    {
      this.role, this.cfg := role, cfg;
      inSelectBody, inJoinCondition, inGroupBy := false, false, false;
      aliases, selected, labels := map[], {}, map[];
      candidates, groups := [], [];
    }

    method ResolveAlias(qualifier: string) returns (table: string)
      ensures table == Resolve(aliases, qualifier)
    {
      if qualifier in aliases { return aliases[qualifier]; }
      return qualifier;
    }

    /** A column reference: the blind index mutator notes it in groups, the encryption mutator checks it. */
    method VisitColumnRef(e: Expr) returns (r: Option<Error>)
      requires e.Col?
      modifies `selected, `labels, `groups
      ensures Walked(r, VisitColumn(role, cfg, inSelectBody, old(Contents()), e), Contents(), candidates, groups,
                     old(candidates), old(groups) + (if role.BlindIndexRole? && inGroupBy then [e] else []))
    {
      if role.BlindIndexRole? && inGroupBy { groups := groups + [e]; }
      if role.EncryptionRole? && !inSelectBody {
        if e.table.None? { return Some(UnknownSource(e.name)); }
        var table := ResolveAlias(e.table.value);
        if cfg.Encrypted(table, e.name) { return Some(InvalidUse(table, e.name)); }
      }
      if inSelectBody {
        if e.table.None? { return Some(UnknownSource(e.name)); }
        var table := ResolveAlias(e.table.value);
        var ref := ColumnRef(table, e.name);
        selected := selected + {ref};
        if e.alias.Some? {
          labels := labels[e.alias.value := ref];
        } else {
          if e.name in labels && labels[e.name] != ref { return Some(AmbiguousColumn(e.name)); }
          labels := labels[e.name := ref];
        }
      }
      return None;
    }

    /** An operator that is no candidate of the mutator: its operands, the left one first. */
    method VisitBinary(e: Expr) returns (r: Option<Error>)
      requires e.Bin? && !IsCandidate(role, e)
      requires role.BlindIndexRole? ==> !IsIndexCandidate(e)
      modifies `selected, `labels, `groups, `candidates
      ensures Walked(r, VisitExpr(role, cfg, inSelectBody, old(Contents()), e), Contents(), candidates, groups,
                     old(candidates) + Candidates(role, e), old(groups) + Gathered(role, inGroupBy, e))
      decreases e, 0
    {
      r := VisitExpression(e.left);
      if r.Some? { return; }
      r := VisitExpression(e.right);
    }

    method VisitExpression(e: Expr) returns (r: Option<Error>)
      modifies `selected, `labels, `groups, `candidates
      ensures Walked(r, VisitExpr(role, cfg, inSelectBody, old(Contents()), e), Contents(), candidates, groups,
                     old(candidates) + Candidates(role, e), old(groups) + Gathered(role, inGroupBy, e))
      decreases e, 1
    {
      if IsCandidate(role, e) {
        candidates := candidates + [e];
        return None;
      }
      match e
      case Lit(_) => r := None;
      case Star => r := Some(StarUnsupported);
      case Array => r := Some(Unsupported);
      case Col(_, _, _) => r := VisitColumnRef(e);
      case Bin(_, _, _) => r := VisitBinary(e);
      case Un(_, x) => r := VisitExpression(x);
      case In(x, list) =>
        r := VisitExpression(x);
        if r.Some? { return; }
        r := VisitExpressions(list);
    }

    /** The loops over select lists, values, GROUP BY columns and IN lists: they stop at the first error. */
    method VisitExpressions(es: seq<Expr>) returns (r: Option<Error>)
      modifies `selected, `labels, `groups, `candidates
      ensures Walked(r, VisitExprs(role, cfg, inSelectBody, old(Contents()), es), Contents(), candidates, groups,
                     old(candidates) + CandidatesOf(role, es), old(groups) + GatheredOf(role, inGroupBy, es))
      decreases es, 0
    {
      hide VisitExpr, Candidates, VisitedColumns;
      var i := 0;
      while i < |es|
        invariant 0 <= i <= |es|
        invariant VisitExprs(role, cfg, inSelectBody, old(Contents()), es) ==
                  VisitExprs(role, cfg, inSelectBody, Contents(), es[i..])
        invariant candidates + CandidatesOf(role, es[i..]) == old(candidates) + CandidatesOf(role, es)
        invariant groups + GatheredOf(role, inGroupBy, es[i..]) == old(groups) + GatheredOf(role, inGroupBy, es)
      {
        assert es[i..][0] == es[i] && es[i..][1..] == es[i + 1..];
        r := VisitExpression(es[i]);
        if r.Some? { return; }
        i := i + 1;
      }
      return None;
    }

    method VisitOptional(e: Option<Expr>) returns (r: Option<Error>)
      requires !inSelectBody
      modifies `selected, `labels, `groups, `candidates
      ensures Walked(r, VisitOption(role, cfg, old(Contents()), e), Contents(), candidates, groups,
                     old(candidates) + FromOption(CandidatesIn(role).body, e),
                     old(groups) + (if inGroupBy then FromOption(GroupsOf(role).group, e) else []))
    {
      if e.None? { return None; }
      r := VisitExpression(e.value);
    }

    /**
     * A FROM clause. An error in a join's condition leaves the join flag set; nothing else leaves a flag
     * changed, and a derived table restores all of them.
     */
    method VisitTable(tr: TableRef) returns (r: Option<Error>)
      requires Outside()
      modifies this
      ensures Walked(r, VisitTableRef(role, cfg, old(Contents()), tr), Contents(), candidates, groups,
                     old(candidates) + FromTableRef(CandidatesIn(role), tr),
                       old(groups) + FromTableRef(GroupsOf(role), tr))
      ensures !inSelectBody && !inGroupBy && (r.None? ==> !inJoinCondition)
      ensures inJoinCondition <==> ConditionFails(role, cfg, old(Contents()), tr)
      decreases tr, 1
    {
      match tr
      case TableName(n, a) =>
        if a.Some? { aliases := aliases[a.value := n]; }
        r := None;
      case TableSelect(s) => r := VisitSelectStatement(s);
      case TableJoin(_, _, _) => r := VisitJoin(tr);
      case TableCrossProduct(list) => r := VisitTables(list);
    }

    method VisitJoin(tr: TableRef) returns (r: Option<Error>)
      requires tr.TableJoin? && Outside()
      modifies this
      ensures Walked(r, VisitTableRef(role, cfg, old(Contents()), tr), Contents(), candidates, groups,
                     old(candidates) + FromTableRef(CandidatesIn(role), tr),
                       old(groups) + FromTableRef(GroupsOf(role), tr))
      ensures !inSelectBody && !inGroupBy && (r.None? ==> !inJoinCondition)
      ensures inJoinCondition <==> ConditionFails(role, cfg, old(Contents()), tr)
      decreases tr, 0
    {
      hide VisitExpr, Candidates, VisitedColumns;
      r := VisitTable(tr.left);
      if r.Some? { return; }
      r := VisitTable(tr.right);
      if r.Some? { return; }
      inJoinCondition := true;
      r := VisitExpression(tr.condition);
      if r.Some? { return; }
      inJoinCondition := false;
    }

    method VisitTables(trs: seq<TableRef>) returns (r: Option<Error>)
      requires Outside()
      modifies this
      ensures Walked(r, VisitTableRefs(role, cfg, old(Contents()), trs), Contents(), candidates, groups,
                     old(candidates) + FromTableRefs(CandidatesIn(role), trs),
                       old(groups) + FromTableRefs(GroupsOf(role), trs))
      ensures !inSelectBody && !inGroupBy && (r.None? ==> !inJoinCondition)
      ensures inJoinCondition <==> ConditionFailsIn(role, cfg, old(Contents()), trs)
      decreases trs, 0
    {
      var i := 0;
      while i < |trs|
        invariant 0 <= i <= |trs| && Outside()
        invariant VisitTableRefs(role, cfg, old(Contents()), trs) == VisitTableRefs(role, cfg, Contents(), trs[i..])
        invariant ConditionFailsIn(role, cfg, old(Contents()), trs) == ConditionFailsIn(role, cfg, Contents(), trs[i..])
        invariant candidates + FromTableRefs(CandidatesIn(role), trs[i..]) ==
                  old(candidates) + FromTableRefs(CandidatesIn(role), trs)
        invariant groups + FromTableRefs(GroupsOf(role), trs[i..]) == old(groups) + FromTableRefs(GroupsOf(role), trs)
      {
        assert trs[i..][0] == trs[i] && trs[i..][1..] == trs[i + 1..];
        r := VisitTable(trs[i]);
        if r.Some? { return; }
        i := i + 1;
      }
      return None;
    }

    /** The clauses of a select in order; an error returns at once and leaves the flags as they are. */
    method VisitClauses(s: Select) returns (r: Option<Error>)
      requires Outside()
      modifies this
      ensures Walked(r, VisitSelect(role, cfg, old(Contents()), s), Contents(), candidates, groups,
                     old(candidates) + CollectSelect(CandidatesIn(role), s),
                       old(groups) + CollectSelect(GroupsOf(role), s))
      decreases s, 0
    {
      hide VisitExpr, VisitExprs, VisitTableRef, FromTableRef, FlatMap, CandidatesOf, Candidates, ConditionFails;
      if s.union { return Some(Unsupported); }
      if s.from.Some? {
        r := VisitTable(s.from.value);
        if r.Some? { return; }
      }
      ghost var c1, g1 := candidates, groups;
      inSelectBody := true;
      r := VisitExpressions(s.selectList);
      if r.Some? { return; }
      inSelectBody := false;
      ghost var c2, g2 := candidates, groups;
      r := VisitOptional(s.whereClause);
      if r.Some? { return; }
      ghost var c3, g3 := candidates, groups;
      if s.groupBy.Some? {
        r := VisitGroup(s.groupBy.value);
        if r.Some? { return; }
      }
      ghost var c4, g4 := candidates, groups;
      r := VisitExpressions(OrderExprs(s.order));
      if r.Some? { return; }
      ClausesGathered(CandidatesIn(role), s, old(candidates), c1, c2, c3, c4, candidates) by {
        FlatMapOfCandidates(role, s.selectList);
        FlatMapOfCandidates(role, OrderExprs(s.order));
      }
      ClausesGathered(GroupsOf(role), s, old(groups), g1, g2, g3, g4, groups) by {
        FlatMapOfGroups(role, s.selectList);
        FlatMapOfGroups(role, OrderExprs(s.order));
      }
    }

    method VisitGroup(g: GroupBy) returns (r: Option<Error>)
      requires Outside()
      modifies `selected, `labels, `groups, `candidates, `inGroupBy
      ensures r.None? ==> !inGroupBy
      ensures
        var first := VisitExprs(role, cfg, false, old(Contents()), g.columns);
        Walked(r, if first.Err? then first else VisitOption(role, cfg, first.value, g.having), Contents(), candidates,
          groups,
               old(candidates) + FlatMap(CandidatesIn(role).group, g.columns) +
                 FromOption(CandidatesIn(role).group, g.having),
               old(groups) + FlatMap(GroupsOf(role).group, g.columns) + FromOption(GroupsOf(role).group, g.having))
    {
      hide VisitExpr, VisitExprs, CandidatesOf, Candidates;
      inGroupBy := true;
      FlatMapOfCandidates(role, g.columns);
      FlatMapOfGroups(role, g.columns);
      r := VisitExpressions(g.columns);
      if r.Some? { return; }
      r := VisitOptional(g.having);
      if r.Some? { return; }
      inGroupBy := false;
    }

    /** Clears the flags for a select and restores them afterwards, whatever happened. */
    method VisitSelectStatement(s: Select) returns (r: Option<Error>)
      modifies this
      ensures Walked(r, VisitSelect(role, cfg, old(Contents()), s), Contents(), candidates, groups,
                     old(candidates) + CollectSelect(CandidatesIn(role), s),
                       old(groups) + CollectSelect(GroupsOf(role), s))
      ensures inSelectBody == old(inSelectBody) && inJoinCondition == old(inJoinCondition) &&
        inGroupBy == old(inGroupBy)
      decreases s, 1
    {
      var inSelectBodyOld, inJoinConditionOld, inGroupByOld := inSelectBody, inJoinCondition, inGroupBy;
      inSelectBody, inJoinCondition, inGroupBy := false, false, false;
      r := VisitClauses(s);
      inSelectBody, inJoinCondition, inGroupBy := inSelectBodyOld, inJoinConditionOld, inGroupByOld;
    }

    /** The written values of an INSERT. */
    method VisitValues(values: seq<Expr>) returns (r: Option<Error>)
      requires !inSelectBody && !inGroupBy
      modifies `selected, `labels, `groups, `candidates
      ensures Walked(r, VisitExprs(role, cfg, false, old(Contents()), values), Contents(), candidates, groups,
                     old(candidates) + FlatMap(CandidatesIn(role).body, values),
                     old(groups) + FlatMap(GroupsOf(role).body, values))
    {
      hide VisitExprs, CandidatesOf, FlatMap;
      FlatMapOfCandidates(role, values);
      FlatMapOfGroups(role, values);
      r := VisitExpressions(values);
    }

    method VisitInsertStatement(st: Statement) returns (r: Option<Error>)
      requires (st.InsertValues? || st.InsertSelect?) && Outside()
      modifies this
      ensures Outside()
      ensures Walked(r, VisitStatement(role, cfg, old(Contents()), st), Contents(), candidates, groups,
                     old(candidates) + CollectStatement(CandidatesIn(role), st),
                     old(groups) + CollectStatement(GroupsOf(role), st))
    {
      hide VisitExprs, VisitSelect, CollectSelect, FlatMap;
      if st.InsertValues? {
        if st.columns.None? && st.table in cfg.tdeTables { return Some(ColumnsRequired); }
        r := VisitValues(st.values);
      } else {
        if st.table in cfg.tdeTables { return Some(InsertSelectUnsupported); }
        r := VisitSelectStatement(st.select);
      }
    }

    method VisitUpdateStatement(st: Statement) returns (r: Option<Error>)
      requires st.Update? && Outside()
      modifies this
      ensures Outside()
      ensures Walked(r, VisitStatement(role, cfg, old(Contents()), st), Contents(), candidates, groups,
                     old(candidates) + CollectStatement(CandidatesIn(role), st),
                     old(groups) + CollectStatement(GroupsOf(role), st))
    {
      hide VisitExprs, VisitExpr, FlatMap, Candidates;
      if st.alias.Some? { aliases := aliases[st.alias.value := st.table]; }
      r := VisitValues(ClauseValues(st.updates));
      if r.Some? { return; }
      r := VisitOptional(st.whereClause);
    }

    /** A whole statement; the flags are down again on success and on every error. */
    method Visit(st: Statement) returns (r: Option<Error>)
      requires Outside()
      modifies this
      ensures Outside()
      ensures Walked(r, VisitStatement(role, cfg, old(Contents()), st), Contents(), candidates, groups,
                     old(candidates) + CollectStatement(CandidatesIn(role), st),
                     old(groups) + CollectStatement(GroupsOf(role), st))
    {
      hide VisitSelect, CollectSelect;
      match st
      case SelectStmt(s) => r := VisitSelectStatement(s);
      case InsertValues(_, _, _) => r := VisitInsertStatement(st);
      case InsertSelect(_, _) => r := VisitInsertStatement(st);
      case Update(_, _, _, _) => r := VisitUpdateStatement(st);
      case Delete => r := Some(Unsupported);
    }
  }
}
