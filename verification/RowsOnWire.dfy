/**
 * Data rows through the codec: an empty text is read as NULL, so it reaches the client as NULL unless it was
 * encrypted.
 */
module RowsOnWire {
  import opened Outcomes
  import opened Bytes
  import opened Lists
  import opened Codec
  import opened CodecLaws
  import opened CodecRoundTrip
  import opened CodecFrames
  import opened Results

  /** The cells of a row as the value of a DataRow message. */
  function Cells(row: DataRow): List<Value> {
    if row == [] then Nil else Cons(Cell(row[0]), Cells(row[1..]))
  }

  /** What the filter reads of a cell: no payload means NULL. */
  function Heard(cell: Option<ByteString>): Option<ByteString> { if cell == Some([]) then None else cell }

  function HeardRow(row: DataRow): (r: DataRow)
    ensures |r| == |row| && forall i :: 0 <= i < |row| ==> r[i] == Heard(row[i])
  {
    seq(|row|, i requires 0 <= i < |row| => Heard(row[i]))
  }

  predicate FitsMessage(row: DataRow) {
    |row| < TWO_16 && ShortCells(row)
  }

  lemma CellHeard(cell: Option<ByteString>, tail: ByteString, offset: nat, t: nat)
    requires t <= |tail| && (cell.Some? ==> |cell.value| < TWO_31)
    ensures
      var bytes := WriteCell(cell);
      ReturnsAt(CellValidator(), CellReader(), bytes + tail, bytes + tail[..t], offset, |bytes| + t, Cell(Heard(cell)),
        |bytes|, t)
  {
    var bytes := WriteCell(cell);
    if cell == Some([]) {
      var rest, body := bytes + tail, bytes + tail[..t];
      Word32RoundTrip(0);
      assert forall i :: 0 <= i < 4 ==> rest[i] == Put32(0)[i] && body[i] == Put32(0)[i];
      assert CellLength(rest) == 0 && CellLength(body) == 0;
    } else {
      CellReturns(cell, tail, offset, t);
    }
  }

  /** Cells written one after the other are read as these cells. */
  predicate CellsReturn(xs: List<Value>, heard: List<Value>, tail: ByteString, offset: nat, t: nat)
    requires t <= |tail|
  {
    var y := WriteItems(CellWriter(), xs);
    var d := ValidateItems(CellValidator(), Length(heard), y + tail, offset, |y| + t);
    ListReturns(d, ReadItems(CellReader(), Length(heard), ShapesOf(d), y + tail[..t], offset, |y| + t), heard, |y|, t)
  }

  lemma CellsNext(cell: Option<ByteString>, xs: List<Value>, heard: List<Value>, tail: ByteString, offset: nat, t: nat)
    requires t <= |tail| && (cell.Some? ==> |cell.value| < TWO_31)
    requires CellsReturn(xs, heard, tail, offset + |WriteCell(cell)|, t)
    ensures CellsReturn(Cons(Cell(cell), xs), Cons(Cell(Heard(cell)), heard), tail, offset, t)
  {
    hide CellValidator, CellReader, WriteCell, ListReturns, ValidateItems, ReadItems;
    var bytes, y := WriteCell(cell), WriteItems(CellWriter(), xs);
    var rest, body := bytes + y + tail, bytes + y + tail[..t];
    Pieces(bytes, y, tail, t);
    CellHeard(cell, y + tail, offset, |y| + t);
    ItemsNextAt(CellValidator(), CellReader(), rest, body, y + tail, y + tail[..t], offset, Cell(Heard(cell)), |bytes|,
      heard, |y|, t);
    assert WriteItems(CellWriter(), Cons(Cell(cell), xs)) == bytes + y;
    assert |bytes + y| + t == |bytes| + |y| + t;
  }

  predicate ShortCells(row: DataRow) { forall i :: 0 <= i < |row| && row[i].Some? ==> |row[i].value| < TWO_31 }

  lemma {:induction false} CellsLength(row: DataRow)
    ensures Length(Cells(row)) == |row|
  {
    if row != [] { CellsLength(row[1..]); }
  }

  lemma RowCons(row: DataRow)
    requires row != []
    ensures Cells(row) == Cons(Cell(row[0]), Cells(row[1..]))
    ensures Cells(HeardRow(row)) == Cons(Cell(Heard(row[0])), Cells(HeardRow(row[1..])))
    ensures ShortCells(row) ==> ShortCells(row[1..]) && (row[0].Some? ==> |row[0].value| < TWO_31)
  {
    assert HeardRow(row)[1..] == HeardRow(row[1..]);
  }

  lemma {:induction false} CellsHeard(row: DataRow, tail: ByteString, offset: nat, t: nat)
    requires t <= |tail| && ShortCells(row)
    ensures CellsReturn(Cells(row), Cells(HeardRow(row)), tail, offset, t)
  {
    hide CellsReturn, WriteCell, Cells, HeardRow, Heard, ShortCells;
    if row != [] {
      RowCons(row);
      CellsHeard(row[1..], tail, offset + |WriteCell(row[0])|, t);
      CellsNext(row[0], Cells(row[1..]), Cells(HeardRow(row[1..])), tail, offset, t);
    } else {
      NothingToHear(row);
      NoCellsReturn(tail, offset, t);
    }
  }

  lemma NothingToHear(row: DataRow)
    requires row == []
    ensures Cells(row) == Nil && Cells(HeardRow(row)) == Nil
  {
    assert HeardRow(row) == [];
  }

  lemma NoCellsReturn(tail: ByteString, offset: nat, t: nat)
    requires t <= |tail|
    ensures CellsReturn(Nil, Nil, tail, offset, t)
  {
    hide CellValidator, CellReader;
    var none: ByteString := [];
    assert none + tail == tail && none + tail[..t] == tail[..t];
  }

  /** The count in front. */
  lemma CountHeard(n: nat, y: ByteString)
    requires n < TWO_16
    ensures
      var b := IntWriter(2)(Number(n));
      && ReturnsAt(IntValidator(2), IntReader(2), b + y, b + y, 0, |b| + |y|, Number(n), |b|, |y|)
      && SameCount(IntValidator(2), IntReader(2), b + y, b + y, 0, |b| + |y|) && Drop(b + y, |b|) == y
  {
    hide IntValidator, IntReader, IntWriter;
    var none: ByteString := [];
    IntCountRoundTrips();
    IntCountable(2);
    assert y + none == y && none[..0] == none;
    assert Returns(IntValidator(2), IntReader(2), IntWriter(2), Number(n), y, 0, |y|) by {
      assert Returns(IntValidator(2), IntReader(2), IntWriter(2), Number(n), y, 0, |y|);
    }
    CountFirst(IntValidator(2), IntReader(2), IntWriter(2), n, y, none, 0, 0);
    var b := IntWriter(2)(Number(n));
    assert b + y + none == b + y;
  }

  /** A DataRow message as the backend writes it is read with its empty texts as NULL. */
  lemma RowHeard(row: DataRow)
    requires FitsMessage(row)
    ensures
      var f, body := Array(VarByteN), Write(Array(VarByteN), Many(Cells(row)));
      ReturnsAt(ValidatorOf(f), ReaderOf(f), body, body, 0, |body|, Many(Cells(HeardRow(row))), |body|, 0)
  {
    hide IntValidator, IntReader, IntWriter, CellValidator, CellReader, CellWriter, SameCount, ListReturns, Cells,
      HeardRow, WriterOf;
    var b, y := IntWriter(2)(Number(|row|)), WriteItems(CellWriter(), Cells(row));
    var none: ByteString := [];
    assert none[..0] == none && y + none == y;
    CellsHeard(row, none, |b|, 0);
    CellsLength(HeardRow(row));
    CountHeard(|row|, y);
    CountedReturnsAt(IntValidator(2), IntReader(2), CellValidator(), CellReader(), b + y, b + y, y, y,
      Cells(HeardRow(row)), 0, |b|, |y|, 0);
    CellsLength(row);
    ArrayBytes(Cells(row));
  }

  lemma ArrayBytes(xs: List<Value>)
    ensures Write(Array(VarByteN), Many(xs)) == IntWriter(2)(Number(Length(xs))) + WriteItems(CellWriter(), xs)
  {
    hide IntWriter, CellWriter, WriteItems, Length;
    assert WriterOf(Array(VarByteN)) == CountedWriter(IntWriter(2), CellWriter());
  }

  /** Reading changes a row exactly when one of its texts is empty. */
  lemma HeardIffNoEmpty(row: DataRow)
    ensures HeardRow(row) == row <==> Some([]) !in row
  {
    if HeardRow(row) == row {
      forall i | 0 <= i < |row| ensures row[i] != Some([]) { assert HeardRow(row)[i] == Heard(row[i]); }
    }
  }
}
