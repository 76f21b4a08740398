/** The mutators' loops: helper columns appended to a written list, literals encrypted in place, joins recorded. */
module Mutators {
  import opened Outcomes
  import opened Bytes
  import opened Crypto
  import opened Sql
  import opened Config
  import opened Traversal
  import opened Rewriting

  // --- one more step of a loop ---

  lemma {:induction false} HelperErrorNext(h: Helper, columns: seq<string>, values: seq<Expr>, i: nat)
    requires |columns| == |values| && i < |columns|
    requires HelperError(h, columns[..i], values[..i]).None?
    ensures h(columns[i], NullLit).Some? && !values[i].Lit? ==> HelperError(h, columns, values) == Some(OnlyLiterals)
    ensures !(h(columns[i], NullLit).Some? && !values[i].Lit?) ==>
              HelperError(h, columns[..i + 1], values[..i + 1]).None?
  {
    var columns', values' := columns[..i + 1], values[..i + 1];
    if i > 0 {
      assert columns[..i][1..] == columns[1..][..i - 1] && values[..i][1..] == values[1..][..i - 1];
      HelperErrorNext(h, columns[1..], values[1..], i - 1);
      assert columns'[1..] == columns[1..][..i] && values'[1..] == values[1..][..i];
    } else {
      assert columns'[1..] == [] && values'[1..] == [];
    }
  }

  lemma {:induction false} HelperCellsNext(h: Helper, columns: seq<string>, values: seq<Expr>)
    requires |columns| == |values| > 0
    ensures
      var n := |columns| - 1;
      var last := if values[n].Lit? then h(columns[n], values[n].lit) else None;
      HelperCells(h, columns, values) ==
      HelperCells(h, columns[..n], values[..n]) + (if last.Some? then [last.value] else [])
  {
    var n := |columns| - 1;
    if n > 0 {
      HelperCellsNext(h, columns[1..], values[1..]);
      assert columns[1..][..n - 1] == columns[..n][1..] && values[1..][..n - 1] == values[..n][1..];
    }
  }

  lemma {:induction false} EncryptFails(s: Setting, table: string, ivs: IVs, columns: seq<string>, values: seq<Expr>,
                                        i: nat)
    requires |columns| == |values| && i <= |columns| && EncryptValues(s, table, ivs, columns[..i], values[..i]).Err?
    ensures EncryptValues(s, table, ivs, columns, values) == EncryptValues(s, table, ivs, columns[..i], values[..i])
    decreases |columns|
  {
    if i == |columns| {
      assert columns[..i] == columns && values[..i] == values;
    } else {
      var n := |columns| - 1;
      assert columns[..n][..i] == columns[..i] && values[..n][..i] == values[..i];
      EncryptFails(s, table, ivs, columns[..n], values[..n], i);
    }
  }

  lemma CellsParts(cells: seq<(string, Literal)>, x: (string, Literal))
    ensures Firsts(cells + [x]) == Firsts(cells) + [x.0]
    ensures Seconds(cells + [x]) == Seconds(cells) + [Lit(x.1)]
  {
  }

  /** No value so far is rejected, and these are the helper cells so far. */
  predicate GatheredSoFar(h: Helper, columns: seq<string>, values: seq<Expr>, newColumns: seq<string>,
                          newValues: seq<Expr>)
    requires |columns| == |values|
  {
    && HelperError(h, columns, values).None?
    && newColumns == Firsts(HelperCells(h, columns, values)) && newValues == Seconds(HelperCells(h, columns, values))
  }

  lemma NoCells(h: Helper)
    ensures GatheredSoFar(h, [], [], [], [])
  {
  }

  /** One column more: rejected, or with a helper cell, or without. */
  lemma CellsNext(h: Helper, columns: seq<string>, values: seq<Expr>, i: nat, newColumns: seq<string>,
                  newValues: seq<Expr>)
    requires |columns| == |values| && i < |columns| &&
      GatheredSoFar(h, columns[..i], values[..i], newColumns, newValues)
    ensures h(columns[i], NullLit).Some? && !values[i].Lit? ==> HelperError(h, columns, values) == Some(OnlyLiterals)
    ensures
      var cell := if values[i].Lit? then h(columns[i], values[i].lit) else None;
      !(h(columns[i], NullLit).Some? && !values[i].Lit?) ==>
        if cell.Some? then
          GatheredSoFar(h, columns[..i + 1], values[..i + 1], newColumns + [cell.value.0],
            newValues + [Lit(cell.value.1)])
        else GatheredSoFar(h, columns[..i + 1], values[..i + 1], newColumns, newValues)
  {
    hide HelperError, HelperCells, Firsts, Seconds;
    var columns', values' := columns[..i + 1], values[..i + 1];
    assert columns'[..i] == columns[..i] && values'[..i] == values[..i] && columns'[i] == columns[i] &&
      values'[i] == values[i];
    HelperErrorNext(h, columns, values, i);
    HelperCellsNext(h, columns', values');
    var cell := if values[i].Lit? then h(columns[i], values[i].lit) else None;
    var cells := HelperCells(h, columns[..i], values[..i]);
    if cell.Some? { CellsParts(cells, cell.value); } else { assert cells + [] == cells; }
  }

  // --- the columns and values of an INSERT, or of the clauses of an UPDATE ---

  class WrittenColumns {
    const table: string
    var columns: seq<string>
    var values: seq<Expr>

    constructor (table: string, columns: seq<string>, values: seq<Expr>)
      ensures this.table == table && this.columns == columns && this.values == values
    {
      this.table, this.columns, this.values := table, columns, values;
    }

    /** The loop of the two index mutators: gathers helper cells, and appends them when no value is rejected. */
    method AppendCells(h: Helper) returns (err: Option<Error>)
      requires |columns| == |values|
      modifies this
      ensures err == HelperError(h, old(columns), old(values))
      ensures err.Some? ==> columns == old(columns) && values == old(values)
      ensures err.None? ==>
                var cells := HelperCells(h, old(columns), old(values));
                columns == old(columns) + Firsts(cells) && values == old(values) + Seconds(cells)
    {
      hide HelperError, HelperCells, Firsts, Seconds;
      var newColumns: seq<string>, newValues: seq<Expr> := [], [];
      var i := 0;
      NoCells(h);
      while i < |columns|
        invariant 0 <= i <= |columns| == |values| && columns == old(columns) && values == old(values)
        invariant GatheredSoFar(h, columns[..i], values[..i], newColumns, newValues)
      {
        var needed := h(columns[i], NullLit).Some?;
        CellsNext(h, columns, values, i, newColumns, newValues);
        if needed && !values[i].Lit? { return Some(OnlyLiterals); }
        if values[i].Lit? {
          var cell := h(columns[i], values[i].lit);
          if cell.Some? {
            newColumns, newValues := newColumns + [cell.value.0], newValues + [Lit(cell.value.1)];
          }
        }
        i := i + 1;
      }
      assert columns[..i] == columns && values[..i] == values;
      columns, values := columns + newColumns, values + newValues;
      return None;
    }

    /** The loop of the encryption mutator: each value is replaced where it stands. */
    method EncryptLiterals(s: Setting, ivs: IVs) returns (err: Option<Error>)
      requires |columns| == |values|
      modifies `values
      ensures
        match EncryptValues(s, table, ivs, columns, old(values))
        case Ok(values') => err.None? && values == values'
        case Err(e) => err == Some(e)
    {
      var i := 0;
      while i < |columns|
        invariant 0 <= i <= |columns| == |values| == |old(values)|
        invariant EncryptValues(s, table, ivs, columns[..i], old(values)[..i]) == Ok(values[..i])
        invariant forall k :: i <= k < |values| ==> values[k] == old(values)[k]
      {
        assert columns[..i + 1][..i] == columns[..i] && old(values)[..i + 1][..i] == old(values)[..i];
        if s.cfg.Encrypted(table, columns[i]) {
          if !values[i].Lit? {
            EncryptFails(s, table, ivs, columns, old(values), i + 1);
            return Some(OnlyLiterals);
          }
          var c := s.cfg.Column(table, columns[i]).value;
          values := values[i := Lit(EncryptedLiteral(s, c, ivs(i), values[i].lit))];
        }
        assert values[..i + 1] == values[..i] + [values[i]];
        i := i + 1;
      }
      assert columns[..i] == columns && old(values)[..i] == old(values) && values[..i] == values;
      return None;
    }
  }

  // --- joins ---

  lemma JoinComparisonsNext(cfg: DatabaseConfig, names: Names, candidates: seq<Expr>,
                            pairs: seq<(ColumnRef, ColumnRef)>)
    requires candidates != [] && Joins(cfg, names.aliases, candidates[0])
    requires
      var (l, r) := ComparedColumns(names.aliases, candidates[0]);
      l in names.selected && r in names.selected
    ensures
      Recording(pairs, JoinComparisons(cfg, names, candidates)) ==
      Recording(pairs + [ComparedColumns(names.aliases, candidates[0])], JoinComparisons(cfg, names, candidates[1..]))
  {
    var p, rest := ComparedColumns(names.aliases, candidates[0]), JoinComparisons(cfg, names, candidates[1..]);
    if rest.Ok? { assert pairs + ([p] + rest.value) == (pairs + [p]) + rest.value; }
  }

  /** What has been recorded so far, and what the rest adds. */
  function Recording(pairs: seq<(ColumnRef, ColumnRef)>, rest: Result<seq<(ColumnRef, ColumnRef)>>)
    : Result<seq<(ColumnRef, ColumnRef)>>
  {
    if rest.Ok? then Ok(pairs + rest.value) else rest
  }

  /** The names a traversal has left, and what the join mutator records of its candidates. */
  class JoinMutator {
    const cfg: DatabaseConfig
    const names: Names
    var comparisons: seq<(ColumnRef, ColumnRef)>

    constructor (cfg: DatabaseConfig, names: Names)
      ensures this.cfg == cfg && this.names == names && comparisons == []
    {
      this.cfg, this.names, comparisons := cfg, names, [];
    }

    /** Records the comparisons of the candidates in order, up to the first error. */
    method RecordJoins(candidates: seq<Expr>) returns (err: Option<Error>)
      requires forall i :: 0 <= i < |candidates| ==> IsJoinCandidate(candidates[i])
      modifies this
      ensures
        match JoinComparisons(cfg, names, candidates)
        case Ok(pairs) => err.None? && comparisons == old(comparisons) + pairs
        case Err(e) => err == Some(e)
    {
      var i := 0;
      while i < |candidates|
        invariant 0 <= i <= |candidates|
        invariant Recording(comparisons, JoinComparisons(cfg, names, candidates[i..])) ==
                  Recording(old(comparisons), JoinComparisons(cfg, names, candidates))
      {
        var e := candidates[i];
        assert candidates[i..][0] == e && candidates[i..][1..] == candidates[i + 1..];
        if e.left.table.None? { return Some(UnknownSource(e.left.name)); }
        if e.right.table.None? { return Some(UnknownSource(e.right.name)); }
        var left := ColumnRef(Resolve(names.aliases, e.left.table.value), e.left.name);
        var right := ColumnRef(Resolve(names.aliases, e.right.table.value), e.right.name);
        if cfg.Joinable(left.table, left.column) && cfg.Joinable(right.table, right.column) {
          if left !in names.selected || right !in names.selected { return Some(JoinColumnsNotSelected); }
          JoinComparisonsNext(cfg, names, candidates[i..], comparisons);
          comparisons := comparisons + [(left, right)];
        }
        i := i + 1;
      }
      return None;
    }
  }
}
