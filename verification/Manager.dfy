/** The mutation manager: retains a result until it is complete, then lets all of it or none of it through. */
module Manager {
  import opened Outcomes
  import opened Bytes
  import opened Crypto
  import opened Sql
  import opened Config
  import opened Traversal
  import opened Rewriting
  import opened Semantics
  import opened Relation
  import opened SelectClauses
  import opened SelectTheorem
  import opened Results
  import opened FailClosed

  /** What reaches the client. */
  datatype Message =
    | RowDescription(columns: seq<ColumnDescription>)
    | DataRowMessage(row: DataRow)
    | CommandComplete(tag: string)
    | EmptyQueryResponse
    | BackendError(text: string)
    | FilterError(error: Error)
    | ReadyForQuery

  /** The manager's fields, what its mutators remember of the last rewritten query, and the client's stream. */
  datatype State = State(
    error: Option<Error>, description: Option<seq<ColumnDescription>>, rows: seq<DataRow>,
    query: Rewritten, plan: RowPlan, client: seq<Message>)

  function Emit(st: State, ms: seq<Message>): State { st.(client := st.client + ms) }

  /** emitErrorResponse. */
  function EmitError(st: State, e: Error): State {
    Emit(st, [FilterError(e), ReadyForQuery]).(error := None)
  }

  // --- one message each ---

  /** The rewriting of a client's query; None is a query the SQL parser rejects. */
  function QueryOutcome(s: Setting, permissive: bool, ivs: IVs, parsed: Option<Statement>): Result<Option<Rewritten>> {
    if parsed.None? then (if permissive then Ok(None) else Err(ParseError))
    else
      var q :- RewriteQuery(s, ivs, parsed.value);
      Ok(Some(q))
  }

  function AfterQuery(st: State, outcome: Result<Option<Rewritten>>): State {
    var st1 := st.(rows := []);
    match outcome
    case Err(e) => EmitError(st1, e)
    case Ok(None) => st1
    case Ok(Some(q)) => st1.(query := q, plan := RowPlan(st.plan.configs, []))
  }

  /** The join mutator adds its indices to those of the query so far; only a new query clears them. */
  function AfterRowDescription(s: Setting, st: State, columns: seq<ColumnDescription>): State {
    match ProcessDescription(s.cfg, st.query, columns)
    case Err(e) => st.(error := Some(e))
    case Ok((columns', plan)) =>
      st.(error := None, description := Some(columns'), plan := RowPlan(plan.configs, st.plan.pairs + plan.pairs))
  }

  predicate FitsPlan(plan: RowPlan, row: DataRow) {
    |row| == |plan.configs| && ValidIndices(plan.pairs, |plan.configs|)
  }

  function AfterDataRow(s: Setting, st: State, row: DataRow): State
    requires st.error.None? ==> FitsPlan(st.plan, row)
  {
    if st.error.Some? then st
    else match ProcessRow(s.crypto, st.plan, row)
      case Err(e) => st.(error := Some(e))
      case Ok(None) => st
      case Ok(Some(row')) => st.(rows := st.rows + [row'])
  }

  function RowMessages(rows: seq<DataRow>): (ms: seq<Message>)
    ensures |ms| == |rows| && forall i :: 0 <= i < |rows| ==> ms[i] == DataRowMessage(rows[i])
  {
    seq(|rows|, i requires 0 <= i < |rows| => DataRowMessage(rows[i]))
  }

  function Described(description: Option<seq<ColumnDescription>>): seq<Message> {
    if description.Some? then [RowDescription(description.value)] else []
  }

  /** On success the message is emitted after the rows; on failure the decoder still forwards it. */
  function AfterCommandComplete(st: State, tag: string): State {
    if st.error.None? then
      Emit(st, Described(st.description) + RowMessages(st.rows) + [CommandComplete(tag)]).(description := None)
    else Emit(EmitError(st, st.error.value), [CommandComplete(tag)])
  }

  // --- the manager ---

  class MutationManager {
    const s: Setting
    const permissive: bool
    var error: Option<Error>
    var description: Option<seq<ColumnDescription>>
    var rows: seq<DataRow>
    var query: Rewritten
    var plan: RowPlan
    var client: seq<Message>

    ghost function Contents(): State
      reads this
    {
      State(error, description, rows, query, plan, client)
    }

    constructor (s: Setting, permissive: bool, query: Rewritten)
      ensures this.s == s && this.permissive == permissive
      ensures Contents() == State(None, None, [], query, RowPlan([], []), [])
    {
      this.s, this.permissive, this.query := s, permissive, query;
      error, description, rows, plan, client := None, None, [], RowPlan([], []), [];
    }

    /** Writes a message of the filter's own, or one the decoder passes on, to the client. */
    method EmitBackendMessage(m: Message)
      modifies `client
      ensures client == old(client) + [m]
    {
      client := client + [m];
    }

    method EmitErrorResponse(e: Error)
      modifies `client, `error
      ensures Contents() == EmitError(old(Contents()), e)
    {
      EmitBackendMessage(FilterError(e));
      EmitBackendMessage(ReadyForQuery);
      error := None;
    }

    /** Whether the query goes on to the backend, rewritten when it was parsed. */
    method ProcessQuery(ivs: IVs, parsed: Option<Statement>) returns (forwarded: bool)
      requires error.None?
      modifies this
      ensures Contents() == AfterQuery(old(Contents()), QueryOutcome(s, permissive, ivs, parsed))
      ensures forwarded <==> QueryOutcome(s, permissive, ivs, parsed).Ok?
    {
      rows := [];
      var outcome := QueryOutcome(s, permissive, ivs, parsed);
      forwarded := outcome.Ok?;
      if outcome.Err? {
        EmitErrorResponse(outcome.error);
      } else if outcome.value.Some? {
        query := outcome.value.value;
        plan := RowPlan(plan.configs, []);
      }
    }

    /** The encryption mutator's loop over the columns: rejects a repeated name, restores types. */
    method DescribeEncrypted(columns: seq<ColumnDescription>) returns (r: Result<Described>)
      ensures r == DescribeColumns(s.cfg, query.names, columns)
    {
      var seen: set<string> := {};
      var columns', configs := [], [];
      var i := 0;
      while i < |columns|
        invariant 0 <= i <= |columns|
        invariant forall n :: n in seen <==> HasName(columns[..i], n)
        invariant DescribeColumns(s.cfg, query.names, columns[..i]) == Ok(Results.Described(columns', configs))
      {
        assert columns[..i + 1][..i] == columns[..i];
        if columns[i].name in seen {
          r := Err(AmbiguousColumn(columns[i].name));
          DescribeFails(s.cfg, query.names, columns, i + 1);
          return;
        }
        HasNameNext(columns, i);
        seen := seen + {columns[i].name};
        var config := LabelConfig(s.cfg, query.names, columns[i].name);
        columns', configs := columns' + [RestoreType(config, columns[i])], configs + [config];
        i := i + 1;
      }
      assert columns[..i] == columns;
      r := Ok(Results.Described(columns', configs));
    }

    /** The join mutator's two loops: where each selected column is, then where each comparison looks. */
    method DescribeJoins(columns: seq<ColumnDescription>) returns (r: Result<seq<(nat, nat)>>)
      ensures r == ComparisonIndices(ColumnIndices(query.join.names, columns), query.join.comparisons)
    {
      var indices: map<ColumnRef, nat> := map[];
      var i := 0;
      while i < |columns|
        invariant 0 <= i <= |columns|
        invariant indices == ColumnIndices(query.join.names, columns[..i])
      {
        assert columns[..i + 1][..i] == columns[..i];
        if columns[i].name in query.join.names.labels {
          indices := indices[query.join.names.labels[columns[i].name] := i];
        }
        i := i + 1;
      }
      assert columns[..i] == columns;
      var comparisons := query.join.comparisons;
      var pairs: seq<(nat, nat)> := [];
      var k := 0;
      while k < |comparisons|
        invariant 0 <= k <= |comparisons|
        invariant ComparisonIndices(indices, comparisons[..k]) == Ok(pairs)
      {
        assert comparisons[..k + 1][..k] == comparisons[..k];
        var (left, right) := comparisons[k];
        if left !in indices || right !in indices {
          r := Err(JoinColumnsNotSelected);
          ComparisonsFail(indices, comparisons, k + 1);
          return;
        }
        pairs := pairs + [(indices[left], indices[right])];
        k := k + 1;
      }
      assert comparisons[..k] == comparisons;
      r := Ok(pairs);
    }

    method ProcessRowDescription(columns: seq<ColumnDescription>)
      requires error.None?
      modifies this
      ensures Contents() == AfterRowDescription(s, old(Contents()), columns)
    {
      var d := DescribeEncrypted(columns);
      if d.Err? {
        error := Some(d.error);
        return;
      }
      var pairs := DescribeJoins(d.value.columns);
      if pairs.Err? {
        error := Some(pairs.error);
        return;
      }
      description := Some(d.value.columns);
      plan := RowPlan(d.value.configs, plan.pairs + pairs.value);
    }

    /** The encryption mutator's loop over the cells of a row. */
    method DecryptCells(row: DataRow) returns (r: Result<DataRow>)
      requires |row| == |plan.configs|
      ensures r == DecryptRow(s.crypto, plan.configs, row)
    {
      var row' := row;
      var i := 0;
      while i < |row|
        invariant 0 <= i <= |row| == |row'|
        invariant DecryptRow(s.crypto, plan.configs[..i], row[..i]) == Ok(row'[..i])
        invariant row'[i..] == row[i..]
      {
        assert row[..i + 1][..i] == row[..i] && plan.configs[..i + 1][..i] == plan.configs[..i];
        var cell := DecryptColumn(s.crypto, plan.configs[i], row[i]);
        if cell.Err? {
          r := Err(cell.error);
          DecryptFails(s.crypto, plan.configs, row, i + 1);
          return;
        }
        row' := row'[i := cell.value];
        assert row'[..i + 1] == row'[..i] + [cell.value];
        i := i + 1;
      }
      assert row[..i] == row && plan.configs[..i] == plan.configs && row'[..i] == row';
      r := Ok(row');
    }

    /** The join mutator's loop over its comparisons: stops at the first that differs. */
    method MeetsComparisons(row: DataRow) returns (keep: bool)
      requires FitsPlan(plan, row)
      ensures keep == KeepsRow(plan.pairs, row)
    {
      var i := 0;
      while i < |plan.pairs|
        invariant 0 <= i <= |plan.pairs|
        invariant forall k :: 0 <= k < i ==> row[plan.pairs[k].0] == row[plan.pairs[k].1]
      {
        if row[plan.pairs[i].0] != row[plan.pairs[i].1] { return false; }
        i := i + 1;
      }
      return true;
    }

    method ProcessDataRow(row: DataRow)
      requires error.None? ==> FitsPlan(plan, row)
      modifies this
      ensures Contents() == AfterDataRow(s, old(Contents()), row)
    {
      if error.Some? { return; }
      var decrypted := DecryptCells(row);
      if decrypted.Err? {
        error := Some(decrypted.error);
        return;
      }
      var keep := MeetsComparisons(decrypted.value);
      if keep { rows := rows + [decrypted.value]; }
    }

    method ProcessCommandComplete(tag: string)
      modifies this
      ensures Contents() == AfterCommandComplete(old(Contents()), tag)
    {
      if error.None? {
        if description.Some? {
          EmitBackendMessage(RowDescription(description.value));
          description := None;
        }
        ghost var start := client;
        var i := 0;
        while i < |rows|
          invariant 0 <= i <= |rows|
          invariant client == start + RowMessages(rows)[..i]
          invariant description.None? && Contents() == old(Contents()).(description := None, client := client)
        {
          EmitBackendMessage(DataRowMessage(rows[i]));
          i := i + 1;
        }
        EmitBackendMessage(CommandComplete(tag));
      } else {
        EmitErrorResponse(error.value);
        EmitBackendMessage(CommandComplete(tag));
      }
    }
  }

  // --- loops that stop early agree with the functions over the whole ---

  lemma HasNameNext(columns: seq<ColumnDescription>, i: nat)
    requires i < |columns|
    ensures forall n :: HasName(columns[..i + 1], n) <==> HasName(columns[..i], n) || n == columns[i].name
  {
    forall n ensures HasName(columns[..i + 1], n) <==> HasName(columns[..i], n) || n == columns[i].name {
      if HasName(columns[..i], n) {
        var k :| 0 <= k < i && columns[..i][k].name == n;
        assert columns[..i + 1][k].name == n;
      }
      if n == columns[i].name { assert columns[..i + 1][i].name == n; }
      if HasName(columns[..i + 1], n) && n != columns[i].name {
        var k :| 0 <= k < i + 1 && columns[..i + 1][k].name == n;
        assert columns[..i][k].name == n;
      }
    }
  }

  lemma {:induction false} DescribeFails(cfg: DatabaseConfig, names: Names, columns: seq<ColumnDescription>, i: nat)
    requires i <= |columns| && DescribeColumns(cfg, names, columns[..i]).Err?
    ensures DescribeColumns(cfg, names, columns) == DescribeColumns(cfg, names, columns[..i])
    decreases |columns|
  {
    if i == |columns| {
      assert columns[..i] == columns;
    } else {
      var init := columns[..|columns| - 1];
      assert init[..i] == columns[..i];
      DescribeFails(cfg, names, init, i);
    }
  }

  lemma {:induction false} ComparisonsFail(indices: map<ColumnRef, nat>, comparisons: seq<(ColumnRef, ColumnRef)>,
                                           i: nat)
    requires i <= |comparisons| && ComparisonIndices(indices, comparisons[..i]).Err?
    ensures ComparisonIndices(indices, comparisons) == ComparisonIndices(indices, comparisons[..i])
    decreases |comparisons|
  {
    if i == |comparisons| {
      assert comparisons[..i] == comparisons;
    } else {
      var init := comparisons[..|comparisons| - 1];
      assert init[..i] == comparisons[..i];
      ComparisonsFail(indices, init, i);
    }
  }

  lemma {:induction false} DecryptFails(crypto: Primitives, configs: seq<Option<ColumnConfig>>, row: DataRow, i: nat)
    requires i <= |row| == |configs| && DecryptRow(crypto, configs[..i], row[..i]).Err?
    ensures DecryptRow(crypto, configs, row) == DecryptRow(crypto, configs[..i], row[..i])
    decreases |row|
  {
    if i == |row| {
      assert row[..i] == row && configs[..i] == configs;
    } else {
      var n := |row| - 1;
      assert row[..n][..i] == row[..i] && configs[..n][..i] == configs[..i];
      DecryptFails(crypto, configs[..n], row[..n], i);
    }
  }

  // --- sessions ---

  /** The backend's answer to one query. */
  datatype Answer =
    | Rows(columns: seq<ColumnDescription>, rows: seq<DataRow>, tag: string)
    | Interrupted(columns: seq<ColumnDescription>, rows: seq<DataRow>, text: string)  // fails after the description
    | Done(tag: string)                                                              // no result set
    | Nothing
    | Failed(text: string)

  /** What the rewriting makes of a client's query, and what the backend answers if the query gets there. */
  datatype Exchange = Exchange(outcome: Result<Option<Rewritten>>, answer: Answer)

  predicate Width(rows: seq<DataRow>, width: nat) {
    forall i :: 0 <= i < |rows| ==> |rows[i]| == width
  }

  function AfterRows(s: Setting, st: State, rows: seq<DataRow>): State
    requires st.error.None? ==> ValidIndices(st.plan.pairs, |st.plan.configs|) && Width(rows, |st.plan.configs|)
    decreases |rows|
  {
    if rows == [] then st
    else AfterRows(s, AfterDataRow(s, st, rows[0]), rows[1..])
  }

  /** A backend that follows the protocol, and that rejects what the SQL parser could not read. */
  predicate Proper(x: Exchange) {
    && (x.answer.Rows? || x.answer.Interrupted? ==> Width(x.answer.rows, |x.answer.columns|))
    && (x.outcome == Ok(None) ==> x.answer.Failed?)
  }

  /** One query and its answer, up to and including the backend's ReadyForQuery. */
  function AfterExchange(s: Setting, st: State, x: Exchange): State
    requires Proper(x)
  {
    var st1 := AfterQuery(st, x.outcome);
    if x.outcome.Err? then st1
    else
      var st2 :=
        match x.answer
        case Rows(columns, rows, tag) =>
          AfterCommandComplete(AfterRows(s, AfterRowDescription(s, st1, columns), rows), tag)
        case Interrupted(columns, rows, text) =>
          Emit(AfterRows(s, AfterRowDescription(s, st1, columns), rows), [BackendError(text)])
        case Done(tag) => AfterCommandComplete(st1, tag)
        case Nothing => Emit(st1, [EmptyQueryResponse])
        case Failed(text) => Emit(st1, [BackendError(text)]);
      Emit(st2, [ReadyForQuery])
  }

  function AfterSession(s: Setting, st: State, session: seq<Exchange>): State
    requires forall x :: x in session ==> Proper(x)
    decreases |session|
  {
    if session == [] then st
    else
      var n := |session| - 1;
      AfterExchange(s, AfterSession(s, st, session[..n]), session[n])
  }

  /** What the client is owed for one result: all its surviving rows in order, or one error. */
  function ResultMessages(s: Setting, q: Rewritten, columns: seq<ColumnDescription>, rows: seq<DataRow>,
                          tag: string): seq<Message>
    requires Width(rows, |columns|)
  {
    match ProcessDescription(s.cfg, q, columns)
    case Err(e) => [FilterError(e), ReadyForQuery, CommandComplete(tag)]
    case Ok((columns', plan)) =>
      match ProcessRows(s.crypto, plan, rows)
      case Err(e) => [FilterError(e), ReadyForQuery, CommandComplete(tag)]
      case Ok(rows') => [RowDescription(columns')] + RowMessages(rows') + [CommandComplete(tag)]
  }

  /** What the client is owed for one exchange: a function of that exchange alone. */
  function ExchangeMessages(s: Setting, x: Exchange): seq<Message>
    requires Proper(x)
  {
    match x.outcome
    case Err(e) => [FilterError(e), ReadyForQuery]
    case Ok(None) => [BackendError(x.answer.text), ReadyForQuery]
    case Ok(Some(q)) =>
      (match x.answer
       case Rows(columns, rows, tag) => ResultMessages(s, q, columns, rows, tag)
       case Interrupted(_, _, text) => [BackendError(text)]
       case Done(tag) => [CommandComplete(tag)]
       case Nothing => [EmptyQueryResponse]
       case Failed(text) => [BackendError(text)]) + [ReadyForQuery]
  }

  function SessionMessages(s: Setting, session: seq<Exchange>): seq<Message>
    requires forall x :: x in session ==> Proper(x)
    decreases |session|
  {
    if session == [] then []
    else SessionMessages(s, session[..|session| - 1]) + ExchangeMessages(s, session[|session| - 1])
  }

  /** A description was accepted but its result did not complete: a row failed, or the backend did. */
  predicate LeavesDescription(s: Setting, x: Exchange)
    requires Proper(x)
  {
    && (x.answer.Rows? || x.answer.Interrupted?)
    && x.outcome.Ok?
    && var q := x.outcome.value.value;
       var d := ProcessDescription(s.cfg, q, x.answer.columns);
       d.Ok? && (x.answer.Rows? ==> ProcessRows(s.crypto, d.value.1, x.answer.rows).Err?)
  }

  /** The exchange shows, and so clears, a description left behind. */
  predicate TakesDescription(s: Setting, x: Exchange)
    requires Proper(x)
  {
    && x.outcome.Ok?
    && (x.answer.Done? ||
        (x.answer.Rows? && ResultMessages(s, x.outcome.value.value, x.answer.columns,
                                          x.answer.rows, x.answer.tag)[0].RowDescription?))
  }

  /** A description from an earlier exchange is still retained after the session. */
  predicate LeftBehind(s: Setting, session: seq<Exchange>)
    requires forall x :: x in session ==> Proper(x)
    decreases |session|
  {
    session != [] &&
    var n := |session| - 1;
    LeavesDescription(s, session[n]) ||
    (LeftBehind(s, session[..n]) && !TakesDescription(s, session[n]))
  }

  /** The next exchange completes without a description of its own while an earlier one is retained. */
  predicate ShowsStale(s: Setting, session: seq<Exchange>, k: nat)
    requires forall x :: x in session ==> Proper(x)
    requires k < |session|
  {
    && LeftBehind(s, session[..k]) && session[k].answer.Done?
    && session[k].outcome.Ok?
  }

  /** The backend fails after the filter rejected part of its result: the manager asserts that it does not. */
  predicate FailsTwice(s: Setting, x: Exchange)
    requires Proper(x)
  {
    && x.answer.Interrupted? && x.outcome.Ok?
    && var q := x.outcome.value.value;
       var d := ProcessDescription(s.cfg, q, x.answer.columns);
       d.Err? || ProcessRows(s.crypto, d.value.1, x.answer.rows).Err?
  }

  /** Rows are retained in order, each surviving one once, until the first that fails. */
  lemma {:induction false} RowsRetained(s: Setting, st: State, rows: seq<DataRow>)
    requires st.error.None? && Width(rows, |st.plan.configs|) && ValidIndices(st.plan.pairs, |st.plan.configs|)
    ensures
      var r := ProcessRows(s.crypto, st.plan, rows);
      var st' := AfterRows(s, st, rows);
      && (r.Ok? ==> st' == st.(rows := st.rows + r.value))
      && (r.Err? ==> st'.error == Some(r.error) && st' == st.(error := st'.error, rows := st'.rows))
    decreases |rows|
  {
    if rows != [] {
      var st1 := AfterDataRow(s, st, rows[0]);
      if st1.error.None? {
        RowsRetained(s, st1, rows[1..]);
      } else {
        RowsDiscarded(s, st1, rows[1..]);
      }
    }
  }

  lemma {:induction false} RowsDiscarded(s: Setting, st: State, rows: seq<DataRow>)
    requires st.error.Some?
    ensures AfterRows(s, st, rows) == st
    decreases |rows|
  {
    if rows != [] { RowsDiscarded(s, st, rows[1..]); }
  }

  /** A result up to its end: either fully retained, or an error is. */
  lemma ResultRetained(s: Setting, st: State, columns: seq<ColumnDescription>, rows: seq<DataRow>)
    requires st.error.None? && st.plan.pairs == [] && Width(rows, |columns|)
    ensures
      var d := ProcessDescription(s.cfg, st.query, columns);
      var st' := AfterRows(s, AfterRowDescription(s, st, columns), rows);
      && st'.client == st.client
      && (d.Err? ==> st' == st.(error := Some(d.error)))
      && (d.Ok? ==>
            var r := ProcessRows(s.crypto, d.value.1, rows);
            && st'.description == Some(d.value.0)
            && (r.Ok? ==> st'.error.None? && st'.rows == st.rows + r.value)
            && (r.Err? ==> st'.error == Some(r.error)))
  {
    var st1 := AfterRowDescription(s, st, columns);
    if st1.error.None? {
      assert st1.plan == ProcessDescription(s.cfg, st.query, columns).value.1;
      RowsRetained(s, st1, rows);
    } else {
      RowsDiscarded(s, st1, rows);
    }
  }

  /** What one exchange does from a state without an error. */
  ghost predicate Stepped(s: Setting, st: State, x: Exchange, st': State)
    requires Proper(x)
  {
    && (st'.error.None? <==> !FailsTwice(s, x))
    && (st'.description.Some? <==> LeavesDescription(s, x) ||
                                   (st.description.Some? && !TakesDescription(s, x)))
    && st'.client == st.client + Stale(st, x) + ExchangeMessages(s, x)
  }

  lemma RowsStep(s: Setting, st: State, x: Exchange)
    requires st.error.None? && Proper(x) && x.answer.Rows? && x.outcome.Ok?
    ensures Stepped(s, st, x, AfterExchange(s, st, x))
  {
    var st1 := AfterQuery(st, x.outcome);
    ResultRetained(s, st1, x.answer.columns, x.answer.rows);
    var st2 := AfterRows(s, AfterRowDescription(s, st1, x.answer.columns), x.answer.rows);
    ResultEmitted(s, st1, st2, x.answer.columns, x.answer.rows, x.answer.tag);
    assert AfterExchange(s, st, x) == Emit(AfterCommandComplete(st2, x.answer.tag), [ReadyForQuery]);
  }

  /** A retained result on completion. */
  lemma ResultEmitted(s: Setting, st: State, st': State, columns: seq<ColumnDescription>, rows: seq<DataRow>,
                      tag: string)
    requires st.rows == [] && Width(rows, |columns|) && st'.client == st.client
    requires ProcessDescription(s.cfg, st.query, columns).Err? ==>
               st' == st.(error := Some(ProcessDescription(s.cfg, st.query, columns).error))
    requires ProcessDescription(s.cfg, st.query, columns).Ok? ==>
               var (columns', plan) := ProcessDescription(s.cfg, st.query, columns).value;
               var r := ProcessRows(s.crypto, plan, rows);
               && st'.description == Some(columns')
               && (r.Ok? ==> st'.error.None? && st'.rows == st.rows + r.value)
               && (r.Err? ==> st'.error == Some(r.error))
    ensures
      var done := AfterCommandComplete(st', tag);
      && done.error.None?
      && done.client == st.client + ResultMessages(s, st.query, columns, rows, tag)
      && (done.description.Some? <==>
            if ResultMessages(s, st.query, columns, rows, tag)[0].RowDescription? then false
            else st.description.Some? || ProcessDescription(s.cfg, st.query, columns).Ok?)
  {
    hide ProcessDescription, ProcessRows;
    assert [] + st'.rows == st'.rows;
  }

  lemma InterruptedStep(s: Setting, st: State, x: Exchange)
    requires st.error.None? && Proper(x) && x.answer.Interrupted? && x.outcome.Ok?
    ensures Stepped(s, st, x, AfterExchange(s, st, x))
  {
    var st1 := AfterQuery(st, x.outcome);
    ResultRetained(s, st1, x.answer.columns, x.answer.rows);
  }

  lemma ExchangeStep(s: Setting, st: State, x: Exchange)
    requires st.error.None? && Proper(x)
    ensures Stepped(s, st, x, AfterExchange(s, st, x))
  {
    if x.outcome.Ok? {
      match x.answer
      case Rows(_, _, _) => RowsStep(s, st, x);
      case Interrupted(_, _, _) => InterruptedStep(s, st, x);
      case _ =>
    }
  }

  lemma Cancels<T>(a: seq<T>, x: seq<T>, b: seq<T>, m: seq<T>)
    requires |a| >= |b|
    ensures a + x + m == b + m <==> x == [] && a == b
  {
    if a + x + m == b + m {
      assert |x| == 0 && |a| == |b|;
      assert a == (a + x + m)[..|a|] == (b + m)[..|b|] == b;
    }
  }

  /** No statement without a result set completes while a description is left behind. */
  predicate NoStale(s: Setting, session: seq<Exchange>)
    requires forall x :: x in session ==> Proper(x)
  {
    forall k :: 0 <= k < |session| ==> !ShowsStale(s, session, k)
  }

  lemma NoStaleNext(s: Setting, session: seq<Exchange>)
    requires session != [] && forall x :: x in session ==> Proper(x)
    ensures NoStale(s, session) <==> NoStale(s, session[..|session| - 1]) && !ShowsStale(s, session, |session| - 1)
  {
    var n := |session| - 1;
    forall k | 0 <= k < n ensures ShowsStale(s, session, k) <==> ShowsStale(s, session[..n], k) {
      assert session[..n][..k] == session[..k];
    }
    if NoStale(s, session) {
      forall k | 0 <= k < n ensures !ShowsStale(s, session[..n], k) { assert !ShowsStale(s, session, k); }
    }
  }

  ghost predicate Sound(s: Setting, st: State, session: seq<Exchange>, st': State)
    requires forall x :: x in session ==> Proper(x)
  {
    && st'.error.None?
    && (st'.description.Some? <==> LeftBehind(s, session))
    && |st'.client| >= |st.client| + |SessionMessages(s, session)|
    && (st'.client == st.client + SessionMessages(s, session) <==> NoStale(s, session))
  }

  /** The description an exchange without a result set shows although it is not its own. */
  function Stale(st: State, x: Exchange): seq<Message> {
    if x.answer.Done? && x.outcome.Ok? then Described(st.description) else []
  }

  lemma SessionMessagesNext(s: Setting, session: seq<Exchange>)
    requires session != [] && forall x :: x in session ==> Proper(x)
    ensures SessionMessages(s, session) ==
            SessionMessages(s, session[..|session| - 1]) + ExchangeMessages(s, session[|session| - 1])
  {
  }

  lemma StreamNext(s: Setting, st: State, session: seq<Exchange>, st1: State, st2: State)
    requires session != [] && forall x :: x in session ==> Proper(x)
    requires |st1.client| >= |st.client| + |SessionMessages(s, session[..|session| - 1])|
    requires st2.client ==
             st1.client + Stale(st1, session[|session| - 1]) + ExchangeMessages(s, session[|session| - 1])
    ensures |st2.client| >= |st.client| + |SessionMessages(s, session)|
    ensures st2.client == st.client + SessionMessages(s, session) <==>
              Stale(st1, session[|session| - 1]) == [] &&
              st1.client == st.client + SessionMessages(s, session[..|session| - 1])
  {
    SessionMessagesNext(s, session);
    hide SessionMessages, ExchangeMessages, Stale;
    var n := |session| - 1;
    Owed(st.client, SessionMessages(s, session[..n]), ExchangeMessages(s, session[n]), Stale(st1, session[n]),
      st1.client);
  }

  /** What a client has and what it is owed, after one more piece of both. */
  lemma Owed<T>(base: seq<T>, before: seq<T>, more: seq<T>, extra: seq<T>, got: seq<T>)
    requires |got| >= |base| + |before|
    ensures |got + extra + more| >= |base| + |before + more|
    ensures got + extra + more == base + (before + more) <==> extra == [] && got == base + before
  {
    Cancels(got, extra, base + before, more);
    assert base + (before + more) == (base + before) + more;
  }

  lemma SoundNext(s: Setting, st: State, session: seq<Exchange>, st1: State, st2: State)
    requires session != [] && forall x :: x in session ==> Proper(x)
    requires Sound(s, st, session[..|session| - 1], st1)
    requires !FailsTwice(s, session[|session| - 1]) && Stepped(s, st1, session[|session| - 1], st2)
    ensures Sound(s, st, session, st2)
  {
    StreamNext(s, st, session, st1, st2);
    assert Stale(st1, session[|session| - 1]) == [] <==> !ShowsStale(s, session, |session| - 1);
    NoStaleNext(s, session);
  }

  /**
   * All or nothing, over every session of queries with at most one result each. The error state is clear
   * before every query; and the client's stream is, exchange by exchange, a function of that exchange
   * alone exactly when no statement without a result set completes while a description is left behind.
   */
  lemma {:induction false} SessionIsSound(s: Setting, st: State, session: seq<Exchange>)
    requires st.error.None? && st.description.None?
    requires forall x :: x in session ==> Proper(x) && !FailsTwice(s, x)
    ensures Sound(s, st, session, AfterSession(s, st, session))
    decreases |session|
  {
    if session != [] {
      var n := |session| - 1;
      SessionIsSound(s, st, session[..n]);
      var st1 := AfterSession(s, st, session[..n]);
      assert session[n] in session;
      ExchangeStep(s, st1, session[n]);
      SoundNext(s, st, session, st1, AfterSession(s, st, session));
    } else {
      assert st.client + [] == st.client;
    }
  }

  // --- an INSERT after a result that failed in a row is answered with the failed result's description ---

  const SECRET := ColumnDescription("secret", 0, 0, 0, 0, 0, 0)
  const BAD_ROW: DataRow := [Some(HEX_PREFIX)]

  lemma BadRowFails(crypto: Primitives, config: ColumnConfig, plan: RowPlan)
    requires config.encrypted && plan == RowPlan([Some(config)], [])
    ensures ProcessRows(crypto, plan, [BAD_ROW]).Err?
  {
    assert HEX_PREFIX[2..] == [] && ByteaValue(HEX_PREFIX) == [];
    assert DecryptColumn(crypto, Some(config), BAD_ROW[0]).Err?;
    assert BAD_ROW[..0] == [] && plan.configs[..0] == [];
    assert DecryptRow(crypto, plan.configs, BAD_ROW).Err?;
  }

  lemma SecretDescribed(cfg: DatabaseConfig, query: Rewritten)
    requires cfg == ProbeConfig("cities") && query.join.comparisons == []
    requires query.names.labels == map["secret" := ColumnRef("cities", "secret")]
    ensures ProcessDescription(cfg, query, [SECRET]).Ok?
    ensures ProcessDescription(cfg, query, [SECRET]).value.1 == RowPlan([Some(cfg.columns[("cities", "secret")])], [])
  {
    assert [SECRET][..0] == [] && DescribeColumns(cfg, query.names, [SECRET][..0]) == Ok(Results.Described([], []));
    assert LabelConfig(cfg, query.names, "secret") == Some(cfg.columns[("cities", "secret")]);
    assert DescribeColumns(cfg, query.names, [SECRET]).Ok?;
  }

  lemma StaleIsShown(crypto: Primitives, query: Rewritten)
    requires query.join.comparisons == [] && query.names.labels == map["secret" := ColumnRef("cities", "secret")]
    ensures !NoStale(Setting(ProbeConfig("cities"), crypto),
                     [Exchange(Ok(Some(query)), Rows([SECRET], [BAD_ROW], "SELECT 1")),
                      Exchange(Ok(Some(query)), Done("INSERT 0 1"))])
  {
    var s := Setting(ProbeConfig("cities"), crypto);
    var x := Exchange(Ok(Some(query)), Rows([SECRET], [BAD_ROW], "SELECT 1"));
    var session := [x, Exchange(Ok(Some(query)), Done("INSERT 0 1"))];
    SecretDescribed(s.cfg, query);
    BadRowFails(crypto, s.cfg.columns[("cities", "secret")], ProcessDescription(s.cfg, query, [SECRET]).value.1);
    assert LeavesDescription(s, x);
    assert session[..1] == [x] && LeftBehind(s, [x]);
    assert ShowsStale(s, session, 1);
  }

  /** The messages a client is owed for a select: its description, these rows, and the completion. */
  ghost predicate AnswersWith(w: WorldData, q: Rewritten, columns: seq<ColumnDescription>, tag: string,
                              expected: seq<DataRow>) {
    && q.statement.SelectStmt? && q.statement.select.from.Some? && Flat(q.statement.select.from.value)
    && ProcessDescription(w.s.cfg, q, columns).Ok?
    && var rows := RunSelect(w.ops, w.stored, q.statement.select);
       && Width(rows, |columns|)
       && ExchangeMessages(w.s, Exchange(Ok(Some(q)), Rows(columns, rows, tag))) ==
            [RowDescription(ProcessDescription(w.s.cfg, q, columns).value.0)] + RowMessages(expected) +
            [CommandComplete(tag), ReadyForQuery]
  }

  lemma ResultAnswers(w: WorldData, q: Rewritten, sel: Select, columns: seq<ColumnDescription>, tag: string,
                      expected: seq<DataRow>)
    requires sel.from.Some? && Flat(sel.from.value) && Covered(w, sel) && NoDuplicates(LabelsOf(sel.selectList))
    requires ResultIs(w, q, sel, columns, expected)
    ensures AnswersWith(w, q, columns, tag, expected)
  {
    hide Covered, Simulates, ValidConfig, RunSelect, LabelsOf;
    var rows := RunSelect(w.ops, w.stored, q.statement.select);
    var (described, plan) := ProcessDescription(w.s.cfg, q, columns).value;
    assert |plan.configs| == |columns|;
    assert ResultMessages(w.s, q, columns, rows, tag) ==
      [RowDescription(described)] + RowMessages(expected) + [CommandComplete(tag)];
    assert ExchangeMessages(w.s, Exchange(Ok(Some(q)), Rows(columns, rows, tag))) ==
      ResultMessages(w.s, q, columns, rows, tag) + [ReadyForQuery];
  }

  /**
   * What the client receives for a covered select: its columns with their original types, then once each and
   * in order the rows the plaintext database would have answered with and that agree on the columns of every
   * join equality: all of them when the join equalities are conjuncts.
   */
  lemma SelectReachesClient(s: Setting, schema: Schema, plain: Database, stored: Database, ops: Operators, ivs: IVs,
                            sel: Select, columns: seq<ColumnDescription>, tag: string)
    requires s.crypto.Valid() && ValidConfig(s.cfg, schema) && Simulates(s, schema, plain, stored)
    requires sel.from.Some? && Covered(SelectWorld(s, schema, plain, stored, ops, sel.from.value), sel)
    requires Labelled(columns, sel.selectList) && NoDuplicates(LabelsOf(sel.selectList))
    requires RewriteQuery(s, ivs, SelectStmt(sel)).Ok?
    ensures Flat(sel.from.value)
    ensures
      var w := SelectWorld(s, schema, plain, stored, ops, sel.from.value);
      && AnswersWith(w, RewriteQuery(s, ivs, SelectStmt(sel)).value, columns, tag, AgreeingRows(w, sel))
      && (AgreeingRows(w, sel) == RunSelect(ops, plain, sel) <==> AllRowsAgree(w, sel))
      && (Conjoined(w, sel) ==> AgreeingRows(w, sel) == RunSelect(ops, plain, sel))
  {
    hide Covered, Simulates, ValidConfig, RunSelect, LabelsOf, AgreeingRows, AllRowsAgree, Conjoined, ResultIs,
      AnswersWith, RewriteQuery;
    var w := SelectWorld(s, schema, plain, stored, ops, sel.from.value);
    SelectIsFiltered(s, schema, plain, stored, ops, ivs, sel, columns);
    ResultAnswers(w, RewriteQuery(s, ivs, SelectStmt(sel)).value, sel, columns, tag, AgreeingRows(w, sel));
    if Conjoined(w, sel) { ConjoinedIsExact(s, schema, plain, stored, ops, ivs, sel, columns); }
  }
}
