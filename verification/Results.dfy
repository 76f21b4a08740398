/** What the mutators do to the backend's answer: the row description, then each data row. */
module Results {
  import opened Outcomes
  import opened Bytes
  import opened Crypto
  import opened Sql
  import opened Config
  import opened Traversal
  import opened Rewriting

  datatype ColumnDescription = ColumnDescription(
    name: string, tableId: int, columnId: int, dataType: int, dataSize: int, modifier: int, formatCode: int)

  /** The cells of a data row; None is NULL. */
  type DataRow = seq<Option<ByteString>>

  // --- encryption mutator ---

  /** The configuration of the column a label stands for, if it is a selected column's label. */
  function LabelConfig(cfg: DatabaseConfig, names: Names, name: string): Option<ColumnConfig> {
    if name !in names.labels then None
    else cfg.Column(names.labels[name].table, names.labels[name].column)
  }

  /** Gives an encrypted column its original type back. */
  function RestoreType(config: Option<ColumnConfig>, d: ColumnDescription): ColumnDescription {
    if config.Some? && config.value.encrypted then
      d.(dataType := config.value.origDataType, dataSize := config.value.origDataSize)
    else d
  }

  /** The described columns and their configurations. */
  datatype Described = Described(columns: seq<ColumnDescription>, configs: seq<Option<ColumnConfig>>)

  predicate HasName(columns: seq<ColumnDescription>, name: string) {
    exists i :: 0 <= i < |columns| && columns[i].name == name
  }

  /** EncryptionMutator::mutateRowDescription. */
  function DescribeColumns(cfg: DatabaseConfig, names: Names, columns: seq<ColumnDescription>): (r: Result<Described>)
    ensures r.Ok? ==> |r.value.columns| == |columns| == |r.value.configs|
  {
    if columns == [] then Ok(Described([], []))
    else
      var n := |columns| - 1;
      var init :- DescribeColumns(cfg, names, columns[..n]);
      if HasName(columns[..n], columns[n].name) then Err(AmbiguousColumn(columns[n].name))
      else
        var config := LabelConfig(cfg, names, columns[n].name);
        Ok(Described(init.columns + [RestoreType(config, columns[n])], init.configs + [config]))
  }

  /** One cell of mutateDataRow. */
  function DecryptColumn(crypto: Primitives, config: Option<ColumnConfig>, cell: Option<ByteString>)
    : Result<Option<ByteString>>
  {
    if config.None? || !config.value.encrypted || cell.None? then Ok(cell)
    else
      var m :- crypto.DecryptCell(config.value.encryptionKey, cell.value);
      Ok(Some(m))
  }

  /** EncryptionMutator::mutateDataRow. */
  function DecryptRow(crypto: Primitives, configs: seq<Option<ColumnConfig>>, row: DataRow): (r: Result<DataRow>)
    requires |configs| == |row|
    ensures r.Ok? ==> |r.value| == |row|
  {
    if row == [] then Ok([])
    else
      var n := |row| - 1;
      var init :- DecryptRow(crypto, configs[..n], row[..n]);
      var cell :- DecryptColumn(crypto, configs[n], row[n]);
      Ok(init + [cell])
  }

  // --- join mutator ---

  /** The last result column whose label stands for each selected column. */
  function ColumnIndices(names: Names, columns: seq<ColumnDescription>): map<ColumnRef, nat> {
    if columns == [] then map[]
    else
      var n := |columns| - 1;
      var init := ColumnIndices(names, columns[..n]);
      if columns[n].name in names.labels then init[names.labels[columns[n].name] := n] else init
  }

  /** ProbabilisticJoinMutator::mutateRowDescription, given the map of columns to indices. */
  function ComparisonIndices(indices: map<ColumnRef, nat>, comparisons: seq<(ColumnRef, ColumnRef)>)
    : Result<seq<(nat, nat)>>
  {
    if comparisons == [] then Ok([])
    else
      var n := |comparisons| - 1;
      var init :- ComparisonIndices(indices, comparisons[..n]);
      var (l, r) := comparisons[n];
      if l !in indices || r !in indices then Err(JoinColumnsNotSelected)
      else Ok(init + [(indices[l], indices[r])])
  }

  predicate ValidIndices(pairs: seq<(nat, nat)>, width: nat) {
    forall i :: 0 <= i < |pairs| ==> pairs[i].0 < width && pairs[i].1 < width
  }

  /** ProbabilisticJoinMutator::mutateDataRow: whether the row stays. */
  predicate KeepsRow(pairs: seq<(nat, nat)>, row: DataRow)
    requires ValidIndices(pairs, |row|)
  {
    forall i :: 0 <= i < |pairs| ==> row[pairs[i].0] == row[pairs[i].1]
  }

  lemma {:induction false} IndicesInRange(names: Names, columns: seq<ColumnDescription>)
    ensures forall r :: r in ColumnIndices(names, columns) ==> ColumnIndices(names, columns)[r] < |columns|
  {
    if columns != [] { IndicesInRange(names, columns[..|columns| - 1]); }
  }

  lemma {:induction false} ComparisonsInRange(indices: map<ColumnRef, nat>, comparisons: seq<(ColumnRef, ColumnRef)>,
                                              width: nat)
    requires forall r :: r in indices ==> indices[r] < width
    requires ComparisonIndices(indices, comparisons).Ok?
    ensures ValidIndices(ComparisonIndices(indices, comparisons).value, width)
  {
    if comparisons != [] { ComparisonsInRange(indices, comparisons[..|comparisons| - 1], width); }
  }

  // --- the chain, in reverse order ---

  /** What a described result will be processed with. */
  datatype RowPlan = RowPlan(configs: seq<Option<ColumnConfig>>, pairs: seq<(nat, nat)>)

  /** The mutators on a row description: encryption, then join. */
  function ProcessDescription(cfg: DatabaseConfig, q: Rewritten, columns: seq<ColumnDescription>)
    : (r: Result<(seq<ColumnDescription>, RowPlan)>)
    ensures r.Ok? ==> |r.value.1.configs| == |columns| && ValidIndices(r.value.1.pairs, |columns|)
  {
    var d :- DescribeColumns(cfg, q.names, columns);
    var indices := ColumnIndices(q.join.names, d.columns);
    var pairs :- ComparisonIndices(indices, q.join.comparisons);
    IndicesInRange(q.join.names, d.columns);
    ComparisonsInRange(indices, q.join.comparisons, |columns|);
    Ok((d.columns, RowPlan(d.configs, pairs)))
  }

  /** The mutators on one data row: decrypted, and dropped when a join comparison fails. */
  function ProcessRow(crypto: Primitives, plan: RowPlan, row: DataRow): Result<Option<DataRow>>
    requires |plan.configs| == |row| && ValidIndices(plan.pairs, |row|)
  {
    var row' :- DecryptRow(crypto, plan.configs, row);
    Ok(if KeepsRow(plan.pairs, row') then Some(row') else None)
  }

  /** The rows of a result that reach the client: none when one of them fails. */
  function ProcessRows(crypto: Primitives, plan: RowPlan, rows: seq<DataRow>): Result<seq<DataRow>>
    requires forall i :: 0 <= i < |rows| ==> |rows[i]| == |plan.configs|
    requires ValidIndices(plan.pairs, |plan.configs|)
  {
    if rows == [] then Ok([])
    else
      var first :- ProcessRow(crypto, plan, rows[0]);
      var rest :- ProcessRows(crypto, plan, rows[1..]);
      Ok(if first.Some? then [first.value] + rest else rest)
  }
}
