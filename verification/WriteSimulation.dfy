/** Every accepted INSERT and UPDATE keeps the encrypted database a simulation of the plaintext one. */
module WriteSimulation {
  import opened Outcomes
  import opened Bytes
  import opened Crypto
  import opened Sql
  import opened Config
  import opened Traversal
  import opened Rewriting
  import opened Semantics
  import opened Relation
  import opened SelectCorrectness
  import opened SelectClauses
  import opened SelectTheorem

  // --- rows as columns with values ---

  lemma {:induction false} RowOfAt(columns: seq<string>, values: seq<Value>)
    requires |columns| == |values| && NoDuplicates(columns)
    ensures forall c :: c in RowOf(columns, values) <==> c in columns
    ensures forall i :: 0 <= i < |columns| ==> RowOf(columns, values)[columns[i]] == values[i]
  {
    if columns != [] {
      var rest := columns[1..];
      assert NoDuplicates(rest) by {
        forall i, j | 0 <= i < j < |rest| ensures rest[i] != rest[j] { assert columns[i + 1] != columns[j + 1]; }
      }
      RowOfAt(rest, values[1..]);
      forall i | 0 <= i < |columns|
        ensures columns[i] in RowOf(columns, values) && RowOf(columns, values)[columns[i]] == values[i]
      {
        if i > 0 {
          assert columns[i] == rest[i - 1] && columns[0] != columns[i];
          assert rest[i - 1] in rest;
        }
      }
    }
  }

  // --- helper cells ---

  /** The written columns that have a helper are written with literals. */
  predicate LiteralsFor(h: Helper, columns: seq<string>, values: seq<Expr>)
    requires |columns| == |values|
  {
    forall i :: 0 <= i < |columns| && h(columns[i], NullLit).Some? ==> values[i].Lit?
  }

  lemma {:induction false} NoHelperError(h: Helper, columns: seq<string>, values: seq<Expr>)
    requires |columns| == |values|
    ensures HelperError(h, columns, values).None? <==> LiteralsFor(h, columns, values)
  {
    if columns != [] {
      NoHelperError(h, columns[1..], values[1..]);
      if LiteralsFor(h, columns[1..], values[1..]) && !(h(columns[0], NullLit).Some? && !values[0].Lit?) {
        forall i | 0 <= i < |columns| && h(columns[i], NullLit).Some? ensures values[i].Lit? {
          if i > 0 { assert columns[i] == columns[1..][i - 1] && values[i] == values[1..][i - 1]; }
        }
      }
      if LiteralsFor(h, columns, values) {
        forall i | 0 <= i < |columns[1..]| && h(columns[1..][i], NullLit).Some? ensures values[1..][i].Lit? {
          assert columns[1..][i] == columns[i + 1] && values[1..][i] == values[i + 1];
        }
      }
    }
  }

  /** The helper cell of each written column is there. */
  lemma {:induction false} HelperCellOf(h: Helper, columns: seq<string>, values: seq<Expr>, i: nat) returns (k: nat)
    requires |columns| == |values| && i < |columns| && values[i].Lit? && h(columns[i], values[i].lit).Some?
    ensures k < |HelperCells(h, columns, values)|
    ensures HelperCells(h, columns, values)[k] == h(columns[i], values[i].lit).value
  {
    if i == 0 {
      k := 0;
    } else {
      var k' := HelperCellOf(h, columns[1..], values[1..], i - 1);
      k := if values[0].Lit? && h(columns[0], values[0].lit).Some? then k' + 1 else k';
    }
  }

  /** Every helper cell comes from a written column. */
  lemma {:induction false} HelperCellFrom(h: Helper, columns: seq<string>, values: seq<Expr>, k: nat) returns (i: nat)
    requires |columns| == |values| && k < |HelperCells(h, columns, values)|
    ensures i < |columns| && values[i].Lit? && h(columns[i], values[i].lit).Some?
    ensures HelperCells(h, columns, values)[k] == h(columns[i], values[i].lit).value
  {
    var here := values[0].Lit? && h(columns[0], values[0].lit).Some?;
    if here && k == 0 {
      i := 0;
    } else {
      var i' := HelperCellFrom(h, columns[1..], values[1..], if here then k - 1 else k);
      i := i' + 1;
    }
  }

  lemma {:induction false} HelperCellsConcat(h: Helper, c1: seq<string>, v1: seq<Expr>, c2: seq<string>, v2: seq<Expr>)
    requires |c1| == |v1| && |c2| == |v2|
    ensures HelperCells(h, c1 + c2, v1 + v2) == HelperCells(h, c1, v1) + HelperCells(h, c2, v2)
  {
    if c1 == [] {
      assert c1 + c2 == c2 && v1 + v2 == v2;
    } else {
      assert (c1 + c2)[1..] == c1[1..] + c2 && (v1 + v2)[1..] == v1[1..] + v2;
      HelperCellsConcat(h, c1[1..], v1[1..], c2, v2);
    }
  }

  lemma {:induction false} NoHelperCells(h: Helper, columns: seq<string>, values: seq<Expr>)
    requires |columns| == |values| && forall i, l :: 0 <= i < |columns| ==> h(columns[i], l).None?
    ensures HelperCells(h, columns, values) == []
  {
    if columns != [] {
      assert forall l :: h(columns[0], l).None?;
      forall i, l | 0 <= i < |columns[1..]| ensures h(columns[1..][i], l).None? {
        assert columns[1..][i] == columns[i + 1];
      }
      NoHelperCells(h, columns[1..], values[1..]);
    }
  }

  /** Helper cells depend only on which values are literals. */
  lemma {:induction false} HelperCellsSame(h: Helper, columns: seq<string>, v1: seq<Expr>, v2: seq<Expr>)
    requires |columns| == |v1| == |v2|
    requires forall i :: 0 <= i < |columns| ==> (v1[i].Lit? <==> v2[i].Lit?) && (v1[i].Lit? ==> v1[i] == v2[i])
    ensures HelperCells(h, columns, v1) == HelperCells(h, columns, v2)
  {
    if columns != [] { HelperCellsSame(h, columns[1..], v1[1..], v2[1..]); }
  }

  /** Different columns have differently named helpers, so the helper columns are distinct. */
  lemma {:induction false} HelpersDistinct(h: Helper, columns: seq<string>, values: seq<Expr>)
    requires |columns| == |values| && NoDuplicates(columns)
    requires forall c, d, l, m :: c != d && h(c, l).Some? && h(d, m).Some? ==> h(c, l).value.0 != h(d, m).value.0
    ensures NoDuplicates(Firsts(HelperCells(h, columns, values)))
  {
    if columns != [] {
      var rest := columns[1..];
      forall i, j | 0 <= i < j < |rest| ensures rest[i] != rest[j] { assert columns[i + 1] != columns[j + 1]; }
      HelpersDistinct(h, rest, values[1..]);
      var cells, tail := HelperCells(h, columns, values), HelperCells(h, rest, values[1..]);
      if values[0].Lit? && h(columns[0], values[0].lit).Some? {
        forall k | 0 <= k < |tail| ensures tail[k].0 != cells[0].0 {
          var i := HelperCellFrom(h, rest, values[1..], k);
          assert columns[i + 1] != columns[0];
        }
        forall i, j | 0 <= i < j < |cells| ensures Firsts(cells)[i] != Firsts(cells)[j] {
          assert cells[j] == tail[j - 1];
          if i > 0 {
            assert cells[i] == tail[i - 1];
            assert Firsts(tail)[i - 1] != Firsts(tail)[j - 1];
          }
        }
      } else {
        assert cells == tail;
      }
    }
  }

  // --- what the chain writes ---

  /** The written columns keep their place: rewritten, or encrypted literals. */
  ghost predicate OriginalsWritten(w: WorldData, ivs: IVs, table: string, columns: seq<string>, values: seq<Expr>,
                                   values': seq<Expr>)
    requires |columns| == |values| <= |values'|
  {
    forall i :: 0 <= i < |columns| ==>
      if w.s.cfg.Encrypted(table, columns[i]) then
        && values[i].Lit?
        && values'[i] == Lit(EncryptedLiteral(w.s, w.s.cfg.Column(table, columns[i]).value, ivs(i), values[i].lit))
      else values'[i] == w.Rewritten(values[i])
  }

  /** Helper cells follow from an offset on. */
  predicate CellsWritten(cells: seq<(string, Literal)>, values': seq<Expr>, offset: nat)
    requires offset + |cells| <= |values'|
  {
    forall k :: 0 <= k < |cells| ==> values'[offset + k] == Lit(cells[k].1)
  }

  /** The whole chain on written columns. */
  function ChainColumns(w: WorldData, table: string, columns: seq<string>, values: seq<Expr>): seq<string>
    requires |columns| == |values|
  {
    columns + Firsts(HelperCells(IndexHelper(w.s, table), columns, values))
            + Firsts(HelperCells(JoinHelper(w.s, table), columns, values))
  }

  /** Originals in place, then the index cells, then the join cells. */
  ghost predicate Written(w: WorldData, ivs: IVs, table: string, columns: seq<string>, values: seq<Expr>,
                          c1: seq<(string, Literal)>, c2: seq<(string, Literal)>, values': seq<Expr>)
    requires |columns| == |values|
  {
    && |values'| == |columns| + |c1| + |c2|
    && OriginalsWritten(w, ivs, table, columns, values, values')
    && CellsWritten(c1, values', |columns|) && CellsWritten(c2, values', |columns| + |c1|)
  }

  function IndexCells(w: WorldData, table: string, columns: seq<string>, values: seq<Expr>): seq<(string, Literal)>
    requires |columns| == |values|
  {
    HelperCells(IndexHelper(w.s, table), columns, values)
  }

  function JoinCells(w: WorldData, table: string, columns: seq<string>, values: seq<Expr>): seq<(string, Literal)>
    requires |columns| == |values|
  {
    HelperCells(JoinHelper(w.s, table), columns, values)
  }

  /** The columns and values a rewritten write holds, position by position. */
  ghost predicate WrittenBy(w: WorldData, ivs: IVs, table: string, columns: seq<string>, values: seq<Expr>,
                            columns': seq<string>, values': seq<Expr>)
    requires |columns| == |values|
  {
    && columns' == ChainColumns(w, table, columns, values)
    && LiteralsFor(IndexHelper(w.s, table), columns, values) && LiteralsFor(JoinHelper(w.s, table), columns, values)
    && Written(w, ivs, table, columns, values, IndexCells(w, table, columns, values),
      JoinCells(w, table, columns, values), values')
  }

  lemma {:induction false} EncryptedAt(s: Setting, table: string, ivs: IVs, columns: seq<string>, values: seq<Expr>,
                                       i: nat)
    requires |columns| == |values| && EncryptValues(s, table, ivs, columns, values).Ok? && i < |columns|
    ensures
      var r := EncryptValues(s, table, ivs, columns, values).value;
      if s.cfg.Encrypted(table, columns[i]) then
        && values[i].Lit?
        && r[i] == Lit(EncryptedLiteral(s, s.cfg.Column(table, columns[i]).value, ivs(i), values[i].lit))
      else r[i] == values[i]
  {
    var n := |columns| - 1;
    if i < n { EncryptedAt(s, table, ivs, columns[..n], values[..n], i); }
  }

  /** Rewriting leaves alone which values are literals, and the literals. */
  lemma LiteralsKept(w: WorldData, values: seq<Expr>, i: nat)
    requires i < |values|
    ensures
      var values1 := MapExprs(IndexRewrite(w.s, w.aliases).body, values);
      && (values1[i].Lit? <==> values[i].Lit?) && (values[i].Lit? ==> values1[i] == values[i])
      && JoinRewrite(w.s.cfg, w.aliases).body(values1[i]) == w.Rewritten(values[i])
      && (w.Rewritten(values[i]).Lit? <==> values[i].Lit?) && (values[i].Lit? ==> w.Rewritten(values[i]) == values[i])
  {
    RewritingKeepsLiterals(w, values[i]);
  }

  /** Index columns have no join helper. */
  lemma IndexCellsNotJoined(w: World, table: string, columns: seq<string>, values: seq<Expr>, right: seq<Expr>)
    requires |columns| == |values| && table in w.schema
    requires |right| == |HelperCells(IndexHelper(w.s, table), columns, values)|
    ensures HelperCells(JoinHelper(w.s, table), Firsts(HelperCells(IndexHelper(w.s, table), columns, values)), right) ==
      []
  {
    hide Simulates, Resolves;
    var h, names := JoinHelper(w.s, table), Firsts(HelperCells(IndexHelper(w.s, table), columns, values));
    forall k, l | 0 <= k < |names| ensures h(names[k], l).None? {
      var i := HelperCellFrom(IndexHelper(w.s, table), columns, values, k);
      assert w.s.cfg.Indexed(table, columns[i]);
    }
    NoHelperCells(h, names, right);
  }

  /** The cells the join mutator adds after the blind index mutator's are those of the written columns. */
  lemma JoinCellsOfWritten(w: World, table: string, columns: seq<string>, values: seq<Expr>)
    requires |columns| == |values| && table in w.schema
    ensures
      var values1 := MapExprs(IndexRewrite(w.s, w.aliases).body, values);
      var c1 := HelperCells(IndexHelper(w.s, table), columns, values1);
      var columns1 := columns + Firsts(c1);
      var values2 := MapExprs(JoinRewrite(w.s.cfg, w.aliases).body, values1 + Seconds(c1));
      && c1 == HelperCells(IndexHelper(w.s, table), columns, values)
      && |columns1| == |values2|
      && HelperCells(JoinHelper(w.s, table), columns1, values2) == HelperCells(JoinHelper(w.s, table), columns, values)
      && (forall i :: 0 <= i < |columns| ==> values2[i] == w.Rewritten(values[i]))
      && (forall k :: 0 <= k < |c1| ==> values2[|columns| + k] == Lit(c1[k].1))
  {
    hide Simulates, ValidConfig, Resolves, HelperCells, IndexExpr, IndexHelper, JoinHelper;
    var values1 := MapExprs(IndexRewrite(w.s, w.aliases).body, values);
    forall i | 0 <= i < |values|
      ensures (values1[i].Lit? <==> values[i].Lit?) && (values[i].Lit? ==> values1[i] == values[i])
    {
      LiteralsKept(w, values, i);
    }
    HelperCellsSame(IndexHelper(w.s, table), columns, values1, values);
    var c1, h := HelperCells(IndexHelper(w.s, table), columns, values1), JoinHelper(w.s, table);
    var values2 := MapExprs(JoinRewrite(w.s.cfg, w.aliases).body, values1 + Seconds(c1));
    var left, right := values2[..|columns|], values2[|columns|..];
    assert values2 == left + right;
    HelperCellsConcat(h, columns, left, Firsts(c1), right);
    forall i | 0 <= i < |columns|
      ensures left[i] == w.Rewritten(values[i]) && (left[i].Lit? <==> values[i].Lit?) &&
        (values[i].Lit? ==> left[i] == values[i])
    {
      LiteralsKept(w, values, i);
    }
    HelperCellsSame(h, columns, left, values);
    IndexCellsNotJoined(w, table, columns, values, right);
    assert HelperCells(h, columns, values) + [] == HelperCells(h, columns, values);
    forall k | 0 <= k < |c1| ensures values2[|columns| + k] == Lit(c1[k].1) {
      assert (values1 + Seconds(c1))[|columns| + k] == Seconds(c1)[k];
    }
  }

  /** A write selects nothing, so an accepted one holds no join equality. */
  lemma NothingSelected(cfg: DatabaseConfig, names: Names, candidates: seq<Expr>)
    requires names.selected == {} && JoinComparisons(cfg, names, candidates).Ok?
    ensures forall c :: c in candidates ==> !Joins(cfg, names.aliases, c)
  {
    ComparisonsRecorded(cfg, names, candidates);
  }

  /** What acceptance says of each written expression. */
  ghost predicate AcceptedExpr(w: WorldData, e: Expr) {
    NoJoins(w.s.cfg, w.aliases, e) && Checked(w.s.cfg, w.aliases, w.Rewritten(e))
  }

  ghost predicate PlainCells(cfg: DatabaseConfig, table: string, cells: seq<(string, Literal)>) {
    forall x :: x in cells ==> !cfg.Encrypted(table, x.0)
  }

  /** Helper columns are not encrypted. */
  lemma HelperNamesPlain(w: World, table: string, columns: seq<string>, values: seq<Expr>)
    requires |columns| == |values| && table in w.schema
    ensures PlainCells(w.s.cfg, table, HelperCells(IndexHelper(w.s, table), columns, values))
    ensures PlainCells(w.s.cfg, table, HelperCells(JoinHelper(w.s, table), columns, values))
  {
    var h1, h2 := IndexHelper(w.s, table), JoinHelper(w.s, table);
    var c1, c2 := HelperCells(h1, columns, values), HelperCells(h2, columns, values);
    forall x | x in c1 ensures !w.s.cfg.Encrypted(table, x.0) {
      var k :| 0 <= k < |c1| && c1[k] == x;
      var i := HelperCellFrom(h1, columns, values, k);
      assert w.s.cfg.Indexed(table, columns[i]);
    }
    forall x | x in c2 ensures !w.s.cfg.Encrypted(table, x.0) {
      var k :| 0 <= k < |c2| && c2[k] == x;
      var i := HelperCellFrom(h2, columns, values, k);
      assert w.s.cfg.Joinable(table, columns[i]);
    }
  }

  /** The encryption mutator leaves helper cells alone. */
  lemma CellsNotEncrypted(w: WorldData, ivs: IVs, table: string, columns': seq<string>, values3: seq<Expr>,
                          cells: seq<(string, Literal)>, offset: nat)
    requires |columns'| == |values3| && EncryptValues(w.s, table, ivs, columns', values3).Ok?
    requires offset + |cells| <= |values3| && CellsWritten(cells, values3, offset)
    requires CellsNamed(cells, columns', offset) && PlainCells(w.s.cfg, table, cells)
    ensures CellsWritten(cells, EncryptValues(w.s, table, ivs, columns', values3).value, offset)
  {
    forall k | 0 <= k < |cells|
      ensures EncryptValues(w.s, table, ivs, columns', values3).value[offset + k] == Lit(cells[k].1)
    {
      assert cells[k] in cells && columns'[offset + k] == cells[k].0;
      EncryptedAt(w.s, table, ivs, columns', values3, offset + k);
    }
  }

  lemma OriginalsEncrypted(w: WorldData, ivs: IVs, table: string, columns: seq<string>, values: seq<Expr>,
                           columns': seq<string>, values3: seq<Expr>)
    requires |columns| == |values| <= |columns'| == |values3| && columns <= columns'
    requires forall i :: 0 <= i < |columns| ==> values3[i] == w.Rewritten(values[i])
    requires EncryptValues(w.s, table, ivs, columns', values3).Ok?
    ensures OriginalsWritten(w, ivs, table, columns, values, EncryptValues(w.s, table, ivs, columns', values3).value)
  {
    forall i | 0 <= i < |columns|
      ensures
        var values' := EncryptValues(w.s, table, ivs, columns', values3).value;
        if w.s.cfg.Encrypted(table, columns[i]) then
          && values[i].Lit?
          && values'[i] == Lit(EncryptedLiteral(w.s, w.s.cfg.Column(table, columns[i]).value, ivs(i), values[i].lit))
        else values'[i] == w.Rewritten(values[i])
    {
      EncryptedAt(w.s, table, ivs, columns', values3, i);
      RewritingKeepsLiterals(w, values[i]);
    }
  }

  function IndexedValues(w: WorldData, table: string, columns: seq<string>, values: seq<Expr>): seq<Expr>
    requires |columns| == |values|
  {
    MapExprs(IndexRewrite(w.s, w.aliases).body, values) + Seconds(HelperCells(IndexHelper(w.s, table), columns, values))
  }

  function ChainValues(w: WorldData, table: string, columns: seq<string>, values: seq<Expr>): seq<Expr>
    requires |columns| == |values|
  {
    MapExprs(JoinRewrite(w.s.cfg, w.aliases).body, IndexedValues(w, table, columns, values)) +
    Seconds(HelperCells(JoinHelper(w.s, table), columns, values))
  }

  /** The chain's columns and values before encryption, position by position. */
  ghost predicate Placed(w: WorldData, columns: seq<string>, values: seq<Expr>,
                         c1: seq<(string, Literal)>, c2: seq<(string, Literal)>, columns': seq<string>,
                           values3: seq<Expr>)
    requires |columns| == |values|
  {
    && |columns'| == |values3| == |columns| + |c1| + |c2| && columns <= columns'
    && (forall i :: 0 <= i < |columns| ==> values3[i] == w.Rewritten(values[i]))
    && CellsWritten(c1, values3, |columns|) && CellsWritten(c2, values3, |columns| + |c1|)
    && CellsNamed(c1, columns', |columns|) && CellsNamed(c2, columns', |columns| + |c1|)
  }

  predicate CellsNamed(cells: seq<(string, Literal)>, columns': seq<string>, offset: nat)
    requires offset + |cells| <= |columns'|
  {
    forall k :: 0 <= k < |cells| ==> columns'[offset + k] == cells[k].0
  }

  lemma ChainIsPlaced(w: World, table: string, columns: seq<string>, values: seq<Expr>)
    requires |columns| == |values| && table in w.schema
    ensures Placed(w, columns, values, IndexCells(w, table, columns, values), JoinCells(w, table, columns, values),
                   ChainColumns(w, table, columns, values), ChainValues(w, table, columns, values))
  {
    JoinCellsOfWritten(w, table, columns, values);
    var values2 := MapExprs(JoinRewrite(w.s.cfg, w.aliases).body, IndexedValues(w, table, columns, values));
    assert |values2| == |columns| + |IndexCells(w, table, columns, values)|;
    assert ChainValues(w, table, columns, values)[..|values2|] == values2;
    assert ChainColumns(w, table, columns, values)[..|columns|] == columns;
  }

  lemma PlacedWritten(w: WorldData, ivs: IVs, table: string, columns: seq<string>, values: seq<Expr>,
                      c1: seq<(string, Literal)>, c2: seq<(string, Literal)>, columns': seq<string>, values3: seq<Expr>)
    requires |columns| == |values| && Placed(w, columns, values, c1, c2, columns', values3)
    requires PlainCells(w.s.cfg, table, c1) && PlainCells(w.s.cfg, table, c2)
    requires EncryptValues(w.s, table, ivs, columns', values3).Ok?
    ensures Written(w, ivs, table, columns, values, c1, c2, EncryptValues(w.s, table, ivs, columns', values3).value)
  {
    OriginalsEncrypted(w, ivs, table, columns, values, columns', values3);
    CellsNotEncrypted(w, ivs, table, columns', values3, c1, |columns|);
    CellsNotEncrypted(w, ivs, table, columns', values3, c2, |columns| + |c1|);
  }

  lemma ChainWritten(w: World, ivs: IVs, table: string, columns: seq<string>, values: seq<Expr>)
    requires |columns| == |values| && table in w.schema
    requires LiteralsFor(IndexHelper(w.s, table), columns, values) &&
      LiteralsFor(JoinHelper(w.s, table), columns, values)
    ensures |ChainColumns(w, table, columns, values)| == |ChainValues(w, table, columns, values)|
    ensures
      var r := EncryptValues(w.s, table, ivs, ChainColumns(w, table, columns, values),
        ChainValues(w, table, columns, values));
      r.Ok? ==> WrittenBy(w, ivs, table, columns, values, ChainColumns(w, table, columns, values), r.value)
  {
    ChainIsPlaced(w, table, columns, values);
    HelperNamesPlain(w, table, columns, values);
    var columns', values3 := ChainColumns(w, table, columns, values), ChainValues(w, table, columns, values);
    if EncryptValues(w.s, table, ivs, columns', values3).Ok? {
      PlacedWritten(w, ivs, table, columns, values, IndexCells(w, table, columns, values),
        JoinCells(w, table, columns, values),
        columns', values3);
    }
  }

  // --- one written row ---

  /** The written columns exist, and typed columns are written with literals of their kind. */
  ghost predicate FitsSchema(w: WorldData, table: string, columns: seq<string>, values: seq<Expr>)
    requires |columns| == |values|
  {
    table in w.schema && forall i :: 0 <= i < |columns| && columns[i] in w.schema[table] ==>
      var k := w.schema[table][columns[i]];
      k.AnyKind? || (values[i].Lit? && LiteralHasKind(k, values[i].lit))
  }

  predicate AllIn(columns: seq<string>, names: set<string>) {
    forall c :: c in columns ==> c in names
  }

  /** Where an index cell name comes from. */
  lemma IndexCellName(w: World, table: string, columns: seq<string>, values: seq<Expr>, k: nat) returns (i: nat)
    requires |columns| == |values| && k < |IndexCells(w, table, columns, values)|
    ensures i < |columns| && values[i].Lit? && w.s.cfg.Indexed(table, columns[i])
    ensures
      var c := w.s.cfg.Column(table, columns[i]).value;
      IndexCells(w, table, columns, values)[k] == (c.biName, HashLiteral(w.s, c, values[i].lit))
  {
    i := HelperCellFrom(IndexHelper(w.s, table), columns, values, k);
  }

  lemma JoinCellName(w: World, table: string, columns: seq<string>, values: seq<Expr>, k: nat) returns (i: nat)
    requires |columns| == |values| && k < |JoinCells(w, table, columns, values)|
    ensures i < |columns| && values[i].Lit? && w.s.cfg.Joinable(table, columns[i])
    ensures JoinCells(w, table, columns, values)[k] ==
            (w.s.cfg.Column(table, columns[i]).value.joinKeyName, JoinKeyLiteral(w.s, values[i].lit))
  {
    i := HelperCellFrom(JoinHelper(w.s, table), columns, values, k);
  }

  lemma ConcatDistinct(a: seq<string>, b: seq<string>)
    requires NoDuplicates(a) && NoDuplicates(b) && forall x :: x in a ==> x !in b
    ensures NoDuplicates(a + b)
  {
    forall i, j | 0 <= i < j < |a + b| ensures (a + b)[i] != (a + b)[j] {
      if i < |a| <= j { assert a[i] in a && b[j - |a|] in b; }
    }
  }

  /** The chain's columns are distinct columns of the encrypted table. */
  lemma ChainColumnsFit(w: World, table: string, columns: seq<string>, values: seq<Expr>)
    requires |columns| == |values| && table in w.schema && NoDuplicates(columns) && AllIn(columns, w.schema[table].Keys)
    ensures NoDuplicates(ChainColumns(w, table, columns, values))
    ensures AllIn(ChainColumns(w, table, columns, values), EncryptedColumns(w.s.cfg, w.schema)[table])
  {
    hide Simulates, Resolves, HelperCells;
    var c1, c2 := IndexCells(w, table, columns, values), JoinCells(w, table, columns, values);
    HelpersDistinct(IndexHelper(w.s, table), columns, values);
    HelpersDistinct(JoinHelper(w.s, table), columns, values);
    forall x | x in Firsts(c1)
      ensures x !in columns && x in EncryptedColumns(w.s.cfg, w.schema)[table] && x !in Firsts(c2)
    {
      var k :| 0 <= k < |c1| && c1[k].0 == x;
      var i := IndexCellName(w, table, columns, values, k);
      if x in Firsts(c2) {
        var k' :| 0 <= k' < |c2| && c2[k'].0 == x;
        var i' := JoinCellName(w, table, columns, values, k');
      }
    }
    forall x | x in Firsts(c2) ensures x !in columns && x in EncryptedColumns(w.s.cfg, w.schema)[table] {
      var k :| 0 <= k < |c2| && c2[k].0 == x;
      var i := JoinCellName(w, table, columns, values, k);
    }
    ConcatDistinct(columns, Firsts(c1));
    ConcatDistinct(columns + Firsts(c1), Firsts(c2));
  }

  /** One write of some rows: what is written, and the values it evaluates to on both sides. */
  ghost predicate RowWrite(w: WorldData, ivs: IVs, table: string, columns: seq<string>, values: seq<Expr>,
                           values': seq<Expr>, pv: seq<Value>, ev: seq<Value>)
  {
    && |columns| == |values| == |pv| && |values'| == |ev|
    && table in w.schema && NoDuplicates(columns) && AllIn(columns, w.schema[table].Keys) &&
      FitsSchema(w, table, columns, values)
    && ValidIVs(ivs) && WrittenBy(w, ivs, table, columns, values, ChainColumns(w, table, columns, values), values')
    && (forall i :: 0 <= i < |values| && values[i].Lit? ==> pv[i] == LiteralValue(values[i].lit))
    && (forall i :: 0 <= i < |values'| && values'[i].Lit? ==> ev[i] == LiteralValue(values'[i].lit))
    && (forall i :: 0 <= i < |values| && !w.s.cfg.Encrypted(table, columns[i]) ==> ev[i] == pv[i])
  }

  lemma ChainLength(w: WorldData, table: string, columns: seq<string>, values: seq<Expr>)
    requires |columns| == |values|
    ensures
      var c1, c2 := IndexCells(w, table, columns, values), JoinCells(w, table, columns, values);
      var columns' := ChainColumns(w, table, columns, values);
      && |columns'| == |columns| + |c1| + |c2| && columns <= columns'
      && CellsNamed(c1, columns', |columns|) && CellsNamed(c2, columns', |columns| + |c1|)
  {
    assert ChainColumns(w, table, columns, values)[..|columns|] == columns;
  }

  /** A written column's own cell. */
  lemma OwnCell(w: World, ivs: IVs, table: string, columns: seq<string>, values: seq<Expr>, values': seq<Expr>,
                pv: seq<Value>, ev: seq<Value>, i: nat)
    requires RowWrite(w, ivs, table, columns, values, values', pv, ev) && i < |columns|
    ensures i < |ev| && Stores(w.s, table, columns[i], pv[i], ev[i]) && HasKind(w.schema[table][columns[i]], pv[i])
  {
    ChainLength(w, table, columns, values);
    if w.s.cfg.Encrypted(table, columns[i]) && !values[i].lit.NullLit? {
      w.s.crypto.DecryptCipherText(w.s.cfg.Column(table, columns[i]).value.encryptionKey, ivs(i),
        TextBytes(values[i].lit));
      assert ev[i] == LiteralValue(values'[i].lit);
    }
  }

  /** A written column's place among the index cells. */
  lemma IndexCellPlace(w: WorldData, table: string, columns: seq<string>, values: seq<Expr>, i: nat) returns (k: nat)
    requires |columns| == |values| && i < |columns| && w.s.cfg.Indexed(table, columns[i]) && values[i].Lit?
    ensures k < |IndexCells(w, table, columns, values)|
    ensures
      var c := w.s.cfg.Column(table, columns[i]).value;
      IndexCells(w, table, columns, values)[k] == (c.biName, HashLiteral(w.s, c, values[i].lit))
  {
    k := HelperCellOf(IndexHelper(w.s, table), columns, values, i);
  }

  /** A written column's blind index cell. */
  lemma IndexCell(w: WorldData, ivs: IVs, table: string, columns: seq<string>, values: seq<Expr>, values': seq<Expr>,
                  pv: seq<Value>, ev: seq<Value>, i: nat) returns (j: nat)
    requires RowWrite(w, ivs, table, columns, values, values', pv, ev) && i < |columns|
    requires w.s.cfg.Indexed(table, columns[i])
    ensures j < |ev| == |ChainColumns(w, table, columns, values)|
    ensures
      var c := w.s.cfg.Column(table, columns[i]).value;
      ChainColumns(w, table, columns, values)[j] == c.biName && ev[j] == IndexValue(w.s, c, pv[i])
  {
    ChainLength(w, table, columns, values);
    assert values[i].Lit? by { assert IndexHelper(w.s, table)(columns[i], NullLit).Some?; }
    var k := IndexCellPlace(w, table, columns, values, i);
    j := |columns| + k;
    HashLiteralValue(w.s, w.s.cfg.Column(table, columns[i]).value, values[i].lit);
    assert values'[j] == Lit(IndexCells(w, table, columns, values)[k].1);
  }

  /** A written column's place among the join cells. */
  lemma JoinCellPlace(w: WorldData, table: string, columns: seq<string>, values: seq<Expr>, i: nat) returns (k: nat)
    requires |columns| == |values| && i < |columns| && w.s.cfg.Joinable(table, columns[i]) && values[i].Lit?
    ensures k < |JoinCells(w, table, columns, values)|
    ensures JoinCells(w, table, columns, values)[k] ==
            (w.s.cfg.Column(table, columns[i]).value.joinKeyName, JoinKeyLiteral(w.s, values[i].lit))
  {
    k := HelperCellOf(JoinHelper(w.s, table), columns, values, i);
  }

  /** A written column's join key cell. */
  lemma JoinKeyCell(w: WorldData, ivs: IVs, table: string, columns: seq<string>, values: seq<Expr>, values': seq<Expr>,
                    pv: seq<Value>, ev: seq<Value>, i: nat) returns (j: nat)
    requires RowWrite(w, ivs, table, columns, values, values', pv, ev) && i < |columns|
    requires w.s.cfg.Joinable(table, columns[i])
    ensures j < |ev| == |ChainColumns(w, table, columns, values)|
    ensures ChainColumns(w, table, columns, values)[j] == w.s.cfg.Column(table, columns[i]).value.joinKeyName
    ensures ev[j] == JoinKeyValue(w.s, pv[i])
  {
    ChainLength(w, table, columns, values);
    assert values[i].Lit? by { assert JoinHelper(w.s, table)(columns[i], NullLit).Some?; }
    var k := JoinCellPlace(w, table, columns, values, i);
    j := |columns| + |IndexCells(w, table, columns, values)| + k;
    HashLiteralValue(w.s, w.s.cfg.Column(table, columns[i]).value, values[i].lit);
    assert values'[j] == Lit(JoinCells(w, table, columns, values)[k].1);
  }

  /** The helper columns of a column that is not written are not written. */
  lemma UnwrittenHelpers(w: World, table: string, columns: seq<string>, values: seq<Expr>, c: string)
    requires |columns| == |values| && table in w.schema && AllIn(columns, w.schema[table].Keys)
    requires c in w.schema[table] && c !in columns
    ensures c !in ChainColumns(w, table, columns, values)
    ensures w.s.cfg.Indexed(table, c) ==>
      w.s.cfg.Column(table, c).value.biName !in ChainColumns(w, table, columns, values)
    ensures w.s.cfg.Joinable(table, c) ==>
      w.s.cfg.Column(table, c).value.joinKeyName !in ChainColumns(w, table, columns, values)
  {
    hide Simulates, Resolves, HelperCells, StoresRow;
    ChainLength(w, table, columns, values);
    var c1, c2 := IndexCells(w, table, columns, values), JoinCells(w, table, columns, values);
    var columns' := ChainColumns(w, table, columns, values);
    forall j | |columns| <= j < |columns'|
      ensures columns'[j] != c
      ensures w.s.cfg.Indexed(table, c) ==> columns'[j] != w.s.cfg.Column(table, c).value.biName
      ensures w.s.cfg.Joinable(table, c) ==> columns'[j] != w.s.cfg.Column(table, c).value.joinKeyName
    {
      if j < |columns| + |c1| {
        var i := IndexCellName(w, table, columns, values, j - |columns|);
        assert columns'[|columns| + (j - |columns|)] == c1[j - |columns|].0;
        assert columns[i] in columns;
      } else {
        var i := JoinCellName(w, table, columns, values, j - |columns| - |c1|);
        assert columns'[|columns| + |c1| + (j - |columns| - |c1|)] == c2[j - |columns| - |c1|].0;
        assert columns[i] in columns;
      }
    }
    forall j | 0 <= j < |columns|
      ensures columns'[j] in w.schema[table] && columns'[j] != c
    {
      assert columns'[j] == columns[j] && columns[j] in columns;
    }
  }

  /** The rows after a write. */
  lemma WrittenColumnStores(w: World, ivs: IVs, table: string, columns: seq<string>, values: seq<Expr>,
                            values': seq<Expr>, pv: seq<Value>, ev: seq<Value>, stored': Row, i: nat)
    requires RowWrite(w, ivs, table, columns, values, values', pv, ev) && i < |columns|
    requires |ev| == |ChainColumns(w, table, columns, values)|
    requires forall j :: 0 <= j < |ev| ==>
      ChainColumns(w, table, columns, values)[j] in stored' &&
        stored'[ChainColumns(w, table, columns, values)[j]] == ev[j]
    ensures HasKind(w.schema[table][columns[i]], pv[i]) && StoresCell(w.s, table, columns[i], pv[i], stored')
  {
    ChainLength(w, table, columns, values);
    OwnCell(w, ivs, table, columns, values, values', pv, ev, i);
    assert ChainColumns(w, table, columns, values)[i] == columns[i];
    if w.s.cfg.Indexed(table, columns[i]) { var j := IndexCell(w, ivs, table, columns, values, values', pv, ev, i); }
    if w.s.cfg.Joinable(table, columns[i]) { var j := JoinKeyCell(w, ivs, table, columns, values, values', pv, ev, i); }
  }

  /** A row with columns written over it. */
  lemma OverwrittenRow(columns: seq<string>, values: seq<Value>, row: Row)
    requires |columns| == |values| && NoDuplicates(columns)
    ensures
      var row' := row + RowOf(columns, values);
      && row'.Keys == row.Keys + (set c | c in columns)
      && (forall i :: 0 <= i < |columns| ==> columns[i] in row' && row'[columns[i]] == values[i])
      && (forall c :: c in row && c !in columns ==> row'[c] == row[c])
  {
    RowOfAt(columns, values);
  }

  lemma RowWriteParts(w: World, ivs: IVs, table: string, columns: seq<string>, values: seq<Expr>, values': seq<Expr>,
                      pv: seq<Value>, ev: seq<Value>)
    requires RowWrite(w, ivs, table, columns, values, values', pv, ev)
    ensures |columns| == |values| == |pv| && table in w.schema && NoDuplicates(columns) &&
      AllIn(columns, w.schema[table].Keys)
    ensures |ev| == |ChainColumns(w, table, columns, values)| && NoDuplicates(ChainColumns(w, table, columns, values))
    ensures AllIn(ChainColumns(w, table, columns, values), EncryptedColumns(w.s.cfg, w.schema)[table])
  {
    hide Simulates, Resolves, FitsSchema;
    ChainLength(w, table, columns, values);
    ChainColumnsFit(w, table, columns, values);
  }

  /** A row stays related when both sides are written. */
  lemma WrittenRowStores(w: World, ivs: IVs, table: string, columns: seq<string>, values: seq<Expr>, values': seq<Expr>,
                         pv: seq<Value>, ev: seq<Value>, plain: Row, stored: Row)
    requires RowWrite(w, ivs, table, columns, values, values', pv, ev)
    requires StoresRow(w.s, w.schema, table, plain, stored)
    ensures |ev| == |ChainColumns(w, table, columns, values)|
    ensures StoresRow(w.s, w.schema, table, plain + RowOf(columns, pv),
      stored + RowOf(ChainColumns(w, table, columns, values), ev))
  {
    hide Simulates, ValidConfig, Resolves, RowOf, StoresCell, HasKind, ChainColumns, RowWrite, EncryptedColumns;
    RowWriteParts(w, ivs, table, columns, values, values', pv, ev);
    var columns' := ChainColumns(w, table, columns, values);
    OverwrittenRow(columns, pv, plain);
    OverwrittenRow(columns', ev, stored);
    var plain', stored' := plain + RowOf(columns, pv), stored + RowOf(columns', ev);
    forall c | c in w.schema[table]
      ensures HasKind(w.schema[table][c], plain'[c]) && StoresCell(w.s, table, c, plain'[c], stored')
    {
      if c in columns {
        var i :| 0 <= i < |columns| && columns[i] == c;
        WrittenColumnStores(w, ivs, table, columns, values, values', pv, ev, stored', i);
      } else {
        UnwrittenStores(w, table, columns, values, ev, plain, stored, c);
      }
    }
  }

  lemma UnwrittenStores(w: World, table: string, columns: seq<string>, values: seq<Expr>, ev: seq<Value>,
                        plain: Row, stored: Row, c: string)
    requires |columns| == |values| && table in w.schema && AllIn(columns, w.schema[table].Keys) && NoDuplicates(columns)
    requires |ev| == |ChainColumns(w, table, columns, values)| && StoresRow(w.s, w.schema, table, plain, stored)
    requires c in w.schema[table] && c !in columns
    ensures StoresCell(w.s, table, c, plain[c], stored + RowOf(ChainColumns(w, table, columns, values), ev))
  {
    ChainColumnsFit(w, table, columns, values);
    RowOfAt(ChainColumns(w, table, columns, values), ev);
    assert StoresCell(w.s, table, c, plain[c], stored);
    UnwrittenHelpers(w, table, columns, values, c);
  }

  // --- statements ---

  /** The first two mutators on written columns and values, when neither rejects. */
  lemma HelpersAppended(w: World, table: string, columns: seq<string>, values: seq<Expr>)
    requires |columns| == |values| && table in w.schema
    requires HelperError(IndexHelper(w.s, table), columns, MapExprs(IndexRewrite(w.s, w.aliases).body, values)).None?
    requires
      var columns1 := columns + Firsts(IndexCells(w, table, columns, values));
      var values2 := MapExprs(JoinRewrite(w.s.cfg, w.aliases).body, IndexedValues(w, table, columns, values));
      |columns1| == |values2| && HelperError(JoinHelper(w.s, table), columns1, values2).None?
    ensures LiteralsFor(IndexHelper(w.s, table), columns, values) &&
      LiteralsFor(JoinHelper(w.s, table), columns, values)
  {
    var h1, h2 := IndexHelper(w.s, table), JoinHelper(w.s, table);
    var values1 := MapExprs(IndexRewrite(w.s, w.aliases).body, values);
    var columns1 := columns + Firsts(IndexCells(w, table, columns, values));
    var values2 := MapExprs(JoinRewrite(w.s.cfg, w.aliases).body, IndexedValues(w, table, columns, values));
    NoHelperError(h1, columns, values1);
    NoHelperError(h2, columns1, values2);
    JoinCellsOfWritten(w, table, columns, values);
    forall i | 0 <= i < |columns|
      ensures columns1[i] == columns[i] && (values1[i].Lit? <==> values[i].Lit?) &&
        (values2[i].Lit? <==> values[i].Lit?)
    {
      RewritingKeepsLiterals(w, values[i]);
    }
  }

  /** What the encryption mutator's visit and the join mutator's comparisons say of each written value. */
  lemma ValuesAccepted(w: World, names: Names, table: string, columns: seq<string>, values: seq<Expr>)
    requires |columns| == |values| && table in w.schema && w.aliases == names.aliases
    requires forall c :: c in FlatMap(CandidatesIn(JoinRole).body, IndexedValues(w, table, columns, values)) ==>
               !Joins(w.s.cfg, w.aliases, c)
    requires VisitExprs(EncryptionRole, w.s.cfg, false, names, ChainValues(w, table, columns, values)).Ok?
    ensures forall i :: 0 <= i < |values| ==> AcceptedExpr(w, values[i])
  {
    CheckedListIffVisited(w.s.cfg, names, ChainValues(w, table, columns, values));
    ChainIsPlaced(w, table, columns, values);
    forall i | 0 <= i < |values| ensures AcceptedExpr(w, values[i]) {
      CheckedAt(w.s.cfg, w.aliases, ChainValues(w, table, columns, values), i);
      FlatMapIn(CandidatesIn(JoinRole).body, IndexedValues(w, table, columns, values), i);
      IndexKeepsCandidates(w.s, w.aliases, values[i]);
      assert IndexedValues(w, table, columns, values)[i] == IndexExpr(w.s, w.aliases, values[i]);
    }
  }

  /** An accepted INSERT: what the encrypted table is written with. */
  lemma AcceptedInsert(w: World, ivs: IVs, table: string, columns: seq<string>, values: seq<Expr>)
    requires w.aliases == map[] && table in w.schema
    requires RewriteQuery(w.s, ivs, InsertValues(table, Some(columns), values)).Ok?
    ensures |columns| == |values| && forall i :: 0 <= i < |values| ==> AcceptedExpr(w, values[i])
    ensures
      var st := RewriteQuery(w.s, ivs, InsertValues(table, Some(columns), values)).value.statement;
      && st.InsertValues? && st.table == table && st.columns == Some(ChainColumns(w, table, columns, values))
      && WrittenBy(w, ivs, table, columns, values, ChainColumns(w, table, columns, values), st.values)
  {
    var st0 := InsertValues(table, Some(columns), values);
    VisitListKeepsNames(BlindIndexRole, w.s.cfg, NO_NAMES, values);
    assert |columns| == |values|;
    JoinCellsOfWritten(w, table, columns, values);
    var columns1 := columns + Firsts(IndexCells(w, table, columns, values));
    var st1 := InsertValues(table, Some(columns1), IndexedValues(w, table, columns, values));
    assert IndexQuery(w.s, st0) == Ok(st1);
    VisitListKeepsNames(JoinRole, w.s.cfg, NO_NAMES, st1.values);
    NothingSelected(w.s.cfg, NO_NAMES, JoinCandidates(st1));
    HelpersAppended(w, table, columns, values);
    var st2 := InsertValues(table, Some(ChainColumns(w, table, columns, values)),
      ChainValues(w, table, columns, values));
    assert JoinQuery(w.s, st1).value.0 == st2;
    ValuesAccepted(w, NO_NAMES, table, columns, values);
    ChainWritten(w, ivs, table, columns, values);
  }

  /** The columns and values of an UPDATE with helper clauses. */
  lemma ClausesAppended(updates: seq<UpdateClause>, cells: seq<(string, Literal)>)
    ensures ClauseColumns(updates + Clauses(cells)) == ClauseColumns(updates) + Firsts(cells)
    ensures ClauseValues(updates + Clauses(cells)) == ClauseValues(updates) + Seconds(cells)
  {
  }

  lemma ClausesMapped(f: Expr -> Expr, updates: seq<UpdateClause>)
    ensures ClauseColumns(MapClauses(f, updates)) == ClauseColumns(updates)
    ensures ClauseValues(MapClauses(f, updates)) == MapExprs(f, ClauseValues(updates))
  {
  }

  lemma ClausesWith(updates: seq<UpdateClause>, values: seq<Expr>)
    requires |updates| == |values|
    ensures ClauseColumns(WithValues(updates, values)) == ClauseColumns(updates)
    ensures ClauseValues(WithValues(updates, values)) == values
  {
  }

  /** The statement between two mutators: same table and condition, other clauses. */
  lemma UpdateAppended(h: Helper, table: string, updates: seq<UpdateClause>, whereClause: Option<Expr>)
    requires AppendHelpers(h, Update(table, None, updates, whereClause)).Ok?
    ensures
      var columns, values := ClauseColumns(updates), ClauseValues(updates);
      var st := AppendHelpers(h, Update(table, None, updates, whereClause)).value;
      && HelperError(h, columns, values).None?
      && st.Update? && st.table == table && st.alias.None? && st.whereClause == whereClause
      && ClauseColumns(st.updates) == columns + Firsts(HelperCells(h, columns, values))
      && ClauseValues(st.updates) == values + Seconds(HelperCells(h, columns, values))
  {
    ClausesAppended(updates, HelperCells(h, ClauseColumns(updates), ClauseValues(updates)));
  }

  /** A role's visit of an UPDATE without alias visits its values, then its condition. */
  lemma UpdateVisited(role: Role, cfg: DatabaseConfig, st: Statement)
    requires st.Update? && st.alias.None? && VisitStatement(role, cfg, NO_NAMES, st).Ok?
    ensures VisitStatement(role, cfg, NO_NAMES, st).value == NO_NAMES
    ensures VisitExprs(role, cfg, false, NO_NAMES, ClauseValues(st.updates)).Ok?
    ensures st.whereClause.Some? ==> VisitExpr(role, cfg, false, NO_NAMES, st.whereClause.value).Ok?
  {
    VisitListKeepsNames(role, cfg, NO_NAMES, ClauseValues(st.updates));
    if st.whereClause.Some? { VisitKeepsNames(role, cfg, NO_NAMES, st.whereClause.value); }
  }

  /** The blind index mutator on an UPDATE. */
  lemma IndexedUpdate(w: World, table: string, updates: seq<UpdateClause>, whereClause: Option<Expr>)
    requires w.aliases == map[] && table in w.schema
    requires IndexQuery(w.s, Update(table, None, updates, whereClause)).Ok?
    ensures
      var columns, values := ClauseColumns(updates), ClauseValues(updates);
      var st1 := IndexQuery(w.s, Update(table, None, updates, whereClause)).value;
      && HelperError(IndexHelper(w.s, table), columns, MapExprs(IndexRewrite(w.s, w.aliases).body, values)).None?
      && st1.Update? && st1.table == table && st1.alias.None?
      && st1.whereClause == MapOption(IndexRewrite(w.s, w.aliases).body, whereClause)
      && ClauseColumns(st1.updates) == columns + Firsts(IndexCells(w, table, columns, values))
      && ClauseValues(st1.updates) == IndexedValues(w, table, columns, values)
  {
    var st0 := Update(table, None, updates, whereClause);
    UpdateVisited(BlindIndexRole, w.s.cfg, st0);
    var f := IndexRewrite(w.s, w.aliases).body;
    ClausesMapped(f, updates);
    JoinCellsOfWritten(w, table, ClauseColumns(updates), ClauseValues(updates));
    UpdateAppended(IndexHelper(w.s, table), table, MapClauses(f, updates), MapOption(f, whereClause));
  }

  /** The join mutator on an UPDATE: it rewrites no join equality, for nothing is selected. */
  lemma JoinedUpdate(w: World, st1: Statement)
    requires w.aliases == map[] && st1.Update? && st1.alias.None? && JoinQuery(w.s, st1).Ok?
    ensures
      var columns, values := ClauseColumns(st1.updates),
        MapExprs(JoinRewrite(w.s.cfg, w.aliases).body, ClauseValues(st1.updates));
      var st2 := JoinQuery(w.s, st1).value.0;
      && (forall c :: c in JoinCandidates(st1) ==> !Joins(w.s.cfg, w.aliases, c))
      && HelperError(JoinHelper(w.s, st1.table), columns, values).None?
      && st2.Update? && st2.table == st1.table && st2.alias.None?
      && st2.whereClause == MapOption(JoinRewrite(w.s.cfg, w.aliases).body, st1.whereClause)
      && ClauseColumns(st2.updates) == columns + Firsts(HelperCells(JoinHelper(w.s, st1.table), columns, values))
      && ClauseValues(st2.updates) == values + Seconds(HelperCells(JoinHelper(w.s, st1.table), columns, values))
  {
    UpdateVisited(JoinRole, w.s.cfg, st1);
    NothingSelected(w.s.cfg, NO_NAMES, JoinCandidates(st1));
    var f := JoinRewrite(w.s.cfg, w.aliases).body;
    ClausesMapped(f, st1.updates);
    UpdateAppended(JoinHelper(w.s, st1.table), st1.table, MapClauses(f, st1.updates), MapOption(f, st1.whereClause));
  }

  /** An accepted UPDATE: what the encrypted rows are written with, and on which condition. */
  lemma AcceptedUpdate(w: World, ivs: IVs, table: string, updates: seq<UpdateClause>, whereClause: Option<Expr>)
    requires w.aliases == map[] && table in w.schema
    requires RewriteQuery(w.s, ivs, Update(table, None, updates, whereClause)).Ok?
    ensures forall i :: 0 <= i < |updates| ==> AcceptedExpr(w, updates[i].value)
    ensures whereClause.Some? ==> AcceptedExpr(w, whereClause.value)
    ensures
      var columns, values := ClauseColumns(updates), ClauseValues(updates);
      var st := RewriteQuery(w.s, ivs, Update(table, None, updates, whereClause)).value.statement;
      && st.Update? && st.table == table && ClauseColumns(st.updates) == ChainColumns(w, table, columns, values)
      && WrittenBy(w, ivs, table, columns, values, ChainColumns(w, table, columns, values), ClauseValues(st.updates))
      && st.whereClause == (if whereClause.Some? then Some(w.Rewritten(whereClause.value)) else None)
  {
    var columns, values := ClauseColumns(updates), ClauseValues(updates);
    IndexedUpdate(w, table, updates, whereClause);
    var st1 := IndexQuery(w.s, Update(table, None, updates, whereClause)).value;
    JoinedUpdate(w, st1);
    var st2 := JoinQuery(w.s, st1).value.0;
    JoinCellsOfWritten(w, table, columns, values);
    HelpersAppended(w, table, columns, values);
    assert ClauseColumns(st2.updates) == ChainColumns(w, table, columns, values);
    assert ClauseValues(st2.updates) == ChainValues(w, table, columns, values);
    UpdateVisited(EncryptionRole, w.s.cfg, st2);
    forall c | c in FlatMap(CandidatesIn(JoinRole).body, IndexedValues(w, table, columns, values))
      ensures !Joins(w.s.cfg, w.aliases, c)
    {
      assert c in JoinCandidates(st1);
    }
    ValuesAccepted(w, NO_NAMES, table, columns, values);
    forall i | 0 <= i < |updates| ensures AcceptedExpr(w, updates[i].value) { assert values[i] == updates[i].value; }
    if whereClause.Some? { ConditionAccepted(w, st1, st2, whereClause.value); }
    ChainWritten(w, ivs, table, columns, values);
    var values' := EncryptValues(w.s, table, ivs, ClauseColumns(st2.updates), ClauseValues(st2.updates)).value;
    ClausesWith(st2.updates, values');
  }

  lemma ConditionAccepted(w: World, st1: Statement, st2: Statement, e: Expr)
    requires w.aliases == map[] && st1.Update? && st2.Update?
    requires st1.whereClause == Some(IndexExpr(w.s, w.aliases, e)) && st2.whereClause == Some(w.Rewritten(e))
    requires forall c :: c in JoinCandidates(st1) ==> !Joins(w.s.cfg, w.aliases, c)
    requires VisitExpr(EncryptionRole, w.s.cfg, false, NO_NAMES, w.Rewritten(e)).Ok?
    ensures AcceptedExpr(w, e)
  {
    CheckedIffVisited(w.s.cfg, NO_NAMES, w.Rewritten(e));
    IndexKeepsCandidates(w.s, w.aliases, e);
    forall c | c in Candidates(JoinRole, e) ensures !Joins(w.s.cfg, w.aliases, c) { assert c in JoinCandidates(st1); }
  }

  // --- the simulation ---

  /** What is asked of a client's write: no helper column is named, values are typed for their columns. */
  ghost predicate CoveredWrite(w: WorldData, table: string, columns: seq<string>, values: seq<Expr>) {
    table in w.schema ==>
      && (forall c :: c in columns ==> c !in HelperColumns(w.s.cfg, table, w.schema[table].Keys))
      && (forall e :: e in values ==> WellTyped(w.s.cfg, w.schema, w.scope, e))
      && (|columns| == |values| ==> FitsSchema(w, table, columns, values))
  }

  /** Both sides agree on whether the columns can be written. */
  lemma WritableSame(w: World, table: string, columns: seq<string>, values: seq<Expr>)
    requires |columns| == |values| && table in w.schema && CoveredWrite(w, table, columns, values)
    ensures Writable(PlainColumns(w.schema), table, columns) <==>
            Writable(EncryptedColumns(w.s.cfg, w.schema), table, ChainColumns(w, table, columns, values))
  {
    ChainLength(w, table, columns, values);
    var columns' := ChainColumns(w, table, columns, values);
    if Writable(PlainColumns(w.schema), table, columns) { ChainColumnsFit(w, table, columns, values); }
    if Writable(EncryptedColumns(w.s.cfg, w.schema), table, columns') {
      forall i, j | 0 <= i < j < |columns| ensures columns[i] != columns[j] { assert columns'[i] != columns'[j]; }
      forall c | c in columns ensures c in w.schema[table] {
        var i :| 0 <= i < |columns| && columns[i] == c;
        assert columns'[i] in columns';
      }
    }
  }

  /** The values a write evaluates to on both sides, on some combination of rows. */
  lemma ValuesWritten(w: World, ivs: IVs, table: string, columns: seq<string>, values: seq<Expr>, values': seq<Expr>,
                      b: Binding)
    requires |columns| == |values| && table in w.schema && CoveredWrite(w, table, columns, values) && ValidIVs(ivs)
    requires NoDuplicates(columns) && AllIn(columns, w.schema[table].Keys)
    requires WrittenBy(w, ivs, table, columns, values, ChainColumns(w, table, columns, values), values')
    requires forall i :: 0 <= i < |values| ==> AcceptedExpr(w, values[i])
    ensures RowWrite(w, ivs, table, columns, values, values',
                     Values(w.ops, w.plain, w.scope, b, values), Values(w.ops, w.stored, w.scope, b, values'))
  {
    var pv, ev := Values(w.ops, w.plain, w.scope, b, values), Values(w.ops, w.stored, w.scope, b, values');
    forall i | 0 <= i < |values| && !w.s.cfg.Encrypted(table, columns[i]) ensures ev[i] == pv[i] {
      assert values[i] in values && AcceptedExpr(w, values[i]);
      RewrittenSame(w, b, values[i]);
    }
  }

  /** A database with one table replaced stays related when that table does. */
  lemma TableReplaced(w: World, table: string, rows: seq<Row>, rows': seq<Row>)
    requires table in w.schema && |rows| == |rows'|
    requires forall i :: 0 <= i < |rows| ==> StoresRow(w.s, w.schema, table, rows[i], rows'[i])
    ensures Simulates(w.s, w.schema, w.plain[table := rows], w.stored[table := rows'])
  {
    hide StoresRow;
    var p, e := w.plain[table := rows], w.stored[table := rows'];
    forall t, i | t in w.schema && 0 <= i < |p[t]| ensures StoresRow(w.s, w.schema, t, p[t][i], e[t][i]) {
      if t != table { assert StoresRow(w.s, w.schema, t, w.plain[t][i], w.stored[t][i]); }
    }
  }

  /** Rows of NULLs are related. */
  lemma BlankRows(w: World, table: string)
    requires table in w.schema
    ensures StoresRow(w.s, w.schema, table, map c | c in PlainColumns(w.schema)[table] :: Null,
                      map c | c in EncryptedColumns(w.s.cfg, w.schema)[table] :: Null)
  {
    hide Simulates, Resolves;
  }

  /** What an accepted write must do on both databases: be rejected by both, or keep them related. */
  ghost predicate BothWritten(w: WorldData, plain': Option<Database>, stored': Option<Database>) {
    match (plain', stored')
    case (None, None) => true
    case (Some(p), Some(e)) => Simulates(w.s, w.schema, p, e)
    case _ => false
  }

  /** The inserted rows are related, and so are the tables with them. */
  lemma InsertedRowKeeps(w: World, ivs: IVs, table: string, columns: seq<string>, values: seq<Expr>, values': seq<Expr>)
    requires w.aliases == map[] && w.scope == map[] && table in w.schema && CoveredWrite(w, table, columns, values) &&
      ValidIVs(ivs)
    requires |columns| == |values| && NoDuplicates(columns) && AllIn(columns, w.schema[table].Keys)
    requires forall i :: 0 <= i < |values| ==> AcceptedExpr(w, values[i])
    requires WrittenBy(w, ivs, table, columns, values, ChainColumns(w, table, columns, values), values')
    ensures
      var blank: Row := map c | c in PlainColumns(w.schema)[table] :: Null;
      var blank': Row := map c | c in EncryptedColumns(w.s.cfg, w.schema)[table] :: Null;
      var pv, ev := Values(w.ops, w.plain, map[], map[], values), Values(w.ops, w.stored, map[], map[], values');
      && |pv| == |columns| && |ev| == |ChainColumns(w, table, columns, values)|
      && Simulates(w.s, w.schema, w.plain[table := w.plain[table] + [blank + RowOf(columns, pv)]],
                   w.stored[table := w.stored[table] + [blank' + RowOf(ChainColumns(w, table, columns, values), ev)]])
  {
    hide Simulates, ValidConfig, Resolves, RowOf, StoresRow, ChainColumns, CoveredWrite, RowWrite, AcceptedExpr,
      IndexCells, JoinCells, WrittenBy;
    var columns' := ChainColumns(w, table, columns, values);
    ValuesWritten(w, ivs, table, columns, values, values', map[]);
    RowWriteParts(w, ivs, table, columns, values, values', Values(w.ops, w.plain, w.scope, map[], values),
      Values(w.ops, w.stored, w.scope, map[], values'));
    BlankRows(w, table);
    TableSizes(w, table);
    var blank: Row := map c | c in PlainColumns(w.schema)[table] :: Null;
    var blank': Row := map c | c in EncryptedColumns(w.s.cfg, w.schema)[table] :: Null;
    var pv, ev := Values(w.ops, w.plain, map[], map[], values), Values(w.ops, w.stored, map[], map[], values');
    WrittenRowStores(w, ivs, table, columns, values, values', pv, ev, blank, blank');
    forall i | 0 <= i < |w.plain[table]|
      ensures StoresRow(w.s, w.schema, table, w.plain[table][i], w.stored[table][i])
    {
      RowStored(w, table, i);
    }
    TableReplaced(w, table, w.plain[table] + [blank + RowOf(columns, pv)],
      w.stored[table] + [blank' + RowOf(columns', ev)]);
  }

  lemma TableSizes(w: World, table: string)
    requires table in w.schema
    ensures table in w.plain && table in w.stored && |w.plain[table]| == |w.stored[table]|
  {
    hide ValidConfig, Resolves, StoresRow;
  }

  lemma RowStored(w: World, table: string, i: nat)
    requires table in w.schema && table in w.plain && i < |w.plain[table]|
    ensures table in w.stored && i < |w.stored[table]| &&
      StoresRow(w.s, w.schema, table, w.plain[table][i], w.stored[table][i])
  {
    hide ValidConfig, Resolves, StoresRow;
  }

  lemma InsertKeeps(w: World, ivs: IVs, table: string, columns: seq<string>, values: seq<Expr>)
    requires w.aliases == map[] && w.scope == map[] && table in w.schema && CoveredWrite(w, table, columns, values)
    requires ValidIVs(ivs) && RewriteQuery(w.s, ivs, InsertValues(table, Some(columns), values)).Ok?
    ensures
      var st := RewriteQuery(w.s, ivs, InsertValues(table, Some(columns), values)).value.statement;
      && st.InsertValues? && st.columns.Some?
      && BothWritten(w, RunInsert(w.ops, PlainColumns(w.schema), w.plain, table, columns, values),
                     RunInsert(w.ops, EncryptedColumns(w.s.cfg, w.schema), w.stored, st.table, st.columns.value,
                       st.values))
  {
    hide RewriteQuery, ChainColumns;
    AcceptedInsert(w, ivs, table, columns, values);
    var st := RewriteQuery(w.s, ivs, InsertValues(table, Some(columns), values)).value.statement;
    ChainLength(w, table, columns, values);
    WritableSame(w, table, columns, values);
    if Writable(PlainColumns(w.schema), table, columns) {
      InsertedRowKeeps(w, ivs, table, columns, values, st.values);
    }
  }

  /** One row of an UPDATE: both sides keep it or both write it. */
  lemma UpdatedRowKeeps(w: World, ivs: IVs, table: string, columns: seq<string>, values: seq<Expr>, values': seq<Expr>,
                        whereClause: Option<Expr>, i: nat)
    requires w.scope == map[table := table] && table in w.schema && i < |w.plain[table]|
    requires |columns| == |values| && NoDuplicates(columns) && AllIn(columns, w.schema[table].Keys)
    requires CoveredWrite(w, table, columns, values) && ValidIVs(ivs)
    requires forall k :: 0 <= k < |values| ==> AcceptedExpr(w, values[k])
    requires WrittenBy(w, ivs, table, columns, values, ChainColumns(w, table, columns, values), values')
    requires whereClause.Some? ==>
      AcceptedExpr(w, whereClause.value) && WellTyped(w.s.cfg, w.schema, w.scope, whereClause.value)
    ensures |values'| == |ChainColumns(w, table, columns, values)|
    ensures
      var whereClause' := if whereClause.Some? then Some(w.Rewritten(whereClause.value)) else None;
      StoresRow(w.s, w.schema, table, UpdatedRow(w.ops, w.plain, table, i, columns, values, whereClause),
                UpdatedRow(w.ops, w.stored, table, i, ChainColumns(w, table, columns, values), values', whereClause'))
  {
    hide Simulates, ValidConfig, Resolves, RowOf, StoresRow, ChainColumns, CoveredWrite, RowWrite, WellTyped, Checked,
      NoJoins, WrittenBy;
    var b: Binding := map[table := i];
    TableSizes(w, table);
    RowStored(w, table, i);
    if whereClause.Some? { RewrittenSame(w, b, whereClause.value); }
    ValuesWritten(w, ivs, table, columns, values, values', b);
    RowWriteParts(w, ivs, table, columns, values, values', Values(w.ops, w.plain, w.scope, b, values),
      Values(w.ops, w.stored, w.scope, b, values'));
    var pv, ev := Values(w.ops, w.plain, w.scope, b, values), Values(w.ops, w.stored, w.scope, b, values');
    WrittenRowStores(w, ivs, table, columns, values, values', pv, ev, w.plain[table][i], w.stored[table][i]);
  }

  lemma UpdateKeeps(w: World, ivs: IVs, table: string, updates: seq<UpdateClause>, whereClause: Option<Expr>)
    requires w.aliases == map[] && w.scope == map[table := table] && table in w.schema
    requires CoveredWrite(w, table, ClauseColumns(updates), ClauseValues(updates))
    requires whereClause.Some? ==> WellTyped(w.s.cfg, w.schema, w.scope, whereClause.value)
    requires ValidIVs(ivs) && RewriteQuery(w.s, ivs, Update(table, None, updates, whereClause)).Ok?
    ensures
      var st := RewriteQuery(w.s, ivs, Update(table, None, updates, whereClause)).value.statement;
      && st.Update?
      && BothWritten(w, RunUpdate(w.ops, PlainColumns(w.schema), w.plain, table, ClauseColumns(updates),
        ClauseValues(updates), whereClause),
                     RunUpdate(w.ops, EncryptedColumns(w.s.cfg, w.schema), w.stored, st.table,
                               ClauseColumns(st.updates), ClauseValues(st.updates), st.whereClause))
  {
    hide RewriteQuery, WellTyped, ChainColumns, Simulates, ValidConfig, Resolves, CoveredWrite, StoresRow, UpdatedRow,
      AcceptedExpr, IndexCells, JoinCells, WrittenBy;
    var columns, values := ClauseColumns(updates), ClauseValues(updates);
    TableSizes(w, table);
    AcceptedUpdate(w, ivs, table, updates, whereClause);
    var st := RewriteQuery(w.s, ivs, Update(table, None, updates, whereClause)).value.statement;
    var columns', values' := ClauseColumns(st.updates), ClauseValues(st.updates);
    ChainLength(w, table, columns, values);
    WritableSame(w, table, columns, values);
    if Writable(PlainColumns(w.schema), table, columns) {
      forall k | 0 <= k < |values| ensures AcceptedExpr(w, values[k]) { assert values[k] == updates[k].value; }
      forall i | 0 <= i < |w.plain[table]|
        ensures StoresRow(w.s, w.schema, table, UpdatedRow(w.ops, w.plain, table, i, columns, values, whereClause),
                          UpdatedRow(w.ops, w.stored, table, i, columns', values', st.whereClause))
      {
        UpdatedRowKeeps(w, ivs, table, columns, values, values', whereClause, i);
      }
      TableReplaced(w, table, RunUpdate(w.ops, PlainColumns(w.schema), w.plain, table, columns, values,
        whereClause).value[table],
        RunUpdate(w.ops, EncryptedColumns(w.s.cfg, w.schema), w.stored, table, columns', values',
          st.whereClause).value[table]);
    }
  }
}
