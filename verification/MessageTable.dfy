/** The messages the decoder knows, by direction and type byte. */
module MessageTable {
  import opened Outcomes
  import opened Bytes
  import opened Codec
  import opened CodecLaws
  import opened EarlyVerdicts
  import opened VerdictFinality

  /** The type byte of messages that have none. */
  const DASH: byte := '-' as int

  /** The fields of a message: a sequence that ends in nothing. */
  function Fields(fs: seq<Format>): Format { if fs == [] then Empty else Pair(fs[0], Fields(fs[1..])) }

  /**
   * How a message is processed: the fields of its body; the type byte it is written with, for a message
   * that is written anew; and whether an action runs on its value.
   */
  datatype Entry = Entry(fields: seq<Format>, identifier: Option<byte>, action: bool) {
    function Body(): Format { Fields(fields) }
  }

  function Raw(fields: seq<Format>): Entry { Entry(fields, None, false) }

  function Acted(c: byte, fields: seq<Format>): Entry { Entry(fields, Some(c), true) }

  function ColumnDescription(): Format { Fields([CString, Int(4), Int(2), Int(4), Int(2), Int(4), Int(2)]) }

  function Startup(): Entry { Raw([Int(4), Repeated(CString)]) }

  function Frontend(c: char): Entry {
    match c
    case 'B' => Raw([CString, CString, Array(Int(2)), Array(VarByteN), Array(Int(2))])
    case 'C' => Raw([Int(1), CString])
    case 'd' => Raw([ByteN])
    case 'c' => Raw([])
    case 'f' => Raw([CString])
    case 'D' => Raw([Int(1), CString])
    case 'E' => Raw([CString, Int(4)])
    case 'H' => Raw([])
    case 'F' => Raw([Int(4), Array(Int(2)), Array(VarByteN), Int(2)])
    case 'p' => Raw([Int(4), ByteN])
    case 'P' => Acted('P' as int, [CString, CString, Array(Int(4))])
    case 'Q' => Acted('Q' as int, [CString])
    case 'S' => Raw([])
    case 'X' => Raw([])
    case _ => Raw([ByteN])
  }

  function Backend(c: char): Entry {
    match c
    case 'K' => Raw([Int(4), Int(4)])
    case '2' => Raw([])
    case '3' => Raw([])
    case 'C' => Acted('C' as int, [CString])
    case 'c' => Raw([])
    case 'G' => Raw([Int(1), Array(Int(2))])
    case 'H' => Raw([Int(1), Array(Int(2))])
    case 'W' => Raw([Int(1), Array(Int(2))])
    case 'D' => Acted('D' as int, [Array(VarByteN)])
    case 'I' => Acted('I' as int, [])
    case 'E' => Acted('E' as int, [Repeated(Fields([Int(1), CString])), Int(1)])
    case 'V' => Raw([VarByteN])
    case 'n' => Raw([])
    case 'A' => Raw([Int(4), CString, CString])
    case 't' => Raw([Array(Int(4))])
    case 'S' => Raw([CString, CString])
    case '1' => Raw([])
    case 's' => Raw([])
    case 'Z' => Entry([Int(1)], Some('Z' as int), false)
    case 'T' => Acted('T' as int, [Array(ColumnDescription())])
    case _ => Raw([ByteN])
  }

  function Lookup(frontend: bool, c: byte): Entry { if frontend then Frontend(c as char) else Backend(c as char) }

  // --- properties of the table ---

  predicate Sound(f: Format) { WellFormed(f) && Stable(f) && (AwaitsAll(f) || Prompt(f)) }

  lemma {:induction false} FieldsAreSound(fs: seq<Format>)
    requires forall f :: f in fs ==> Sound(f)
    ensures Sound(Fields(fs))
    ensures AwaitsAll(Fields(fs)) <==> exists f :: f in fs && AwaitsAll(f)
    ensures (forall f :: f in fs ==> Rigid(f)) ==> Rigid(Fields(fs))
  {
    if fs != [] {
      assert fs[0] in fs && Sound(fs[0]);
      FieldsAreSound(fs[1..]);
      assert forall f :: f in fs <==> f == fs[0] || f in fs[1..];
    }
  }

  lemma FieldIsSound(f: Format)
    requires f in {Int(1), Int(2), Int(4), CString, ByteN, VarByteN, Array(Int(2)), Array(Int(4)), Array(VarByteN),
      Repeated(CString)}
             || f == Array(ColumnDescription()) || f == Repeated(Fields([Int(1), CString]))
    ensures Sound(f)
  {
    RowOfColumns();
    NoticeFields();
  }

  lemma RowOfColumns()
    ensures Sound(ColumnDescription()) && Prompt(ColumnDescription())
  {
    var fs := [CString, Int(4), Int(2), Int(4), Int(2), Int(4), Int(2)];
    FieldsAreSound(fs);
  }

  lemma NoticeFields()
    ensures
      var f := Fields([Int(1), CString]);
      Sound(f) && Rigid(f) && Solid(f)
  {
    FieldsAreSound([Int(1), CString]);
  }

  /** Every message of the table can be validated incrementally, and is written with the type byte it came with. */
  lemma TableIsSound(frontend: bool, c: byte)
    ensures
      var e := Lookup(frontend, c);
      Sound(e.Body()) && (e.identifier.Some? ==> e.identifier.value == c)
  {
    hide Sound, Fields, Frontend, Backend;
    var e := Lookup(frontend, c);
    if frontend { FrontendIsSound(c as char); } else { BackendIsSound(c as char); }
    FieldsAreSound(e.fields);
  }

  lemma FrontendIsSound(c: char)
    ensures forall f :: f in Frontend(c).fields ==> Sound(f)
    ensures Frontend(c).identifier.Some? ==> Frontend(c).identifier.value == c as int
  {
    hide Sound;
    forall f | f in Frontend(c).fields ensures Sound(f) { FieldIsSound(f); }
  }

  lemma BackendIsSound(c: char)
    ensures forall f :: f in Backend(c).fields ==> Sound(f)
    ensures Backend(c).identifier.Some? ==> Backend(c).identifier.value == c as int
  {
    hide Sound, Fields;
    forall f | f in Backend(c).fields ensures Sound(f) { FieldIsSound(f); }
  }

  lemma StartupIsSound()
    ensures Sound(Startup().Body()) && AwaitsAll(Startup().Body()) && Rigid(Startup().Body())
  {
    FieldsAreSound([Int(4), Repeated(CString)]);
    assert Repeated(CString) in [Int(4), Repeated(CString)];
  }

  lemma {:induction false} FieldsAreShallow(fs: seq<Format>)
    requires forall f :: f in fs ==> Shallow(f)
    ensures Shallow(Fields(fs))
  {
    if fs != [] {
      assert fs[0] in fs && Shallow(fs[0]);
      FieldsAreShallow(fs[1..]);
    }
  }

  /** No message of the table nests repeated fields: `FinalIffNoOverrun` is about all of them. */
  lemma TableIsShallow(frontend: bool, c: byte)
    ensures Shallow(Lookup(frontend, c).Body()) && Shallow(Startup().Body())
  {
    var e := Lookup(frontend, c);
    forall f | f in e.fields ensures Shallow(f) { FieldIsShallow(f); }
    FieldsAreShallow(e.fields);
    FieldsAreShallow(Startup().fields);
  }

  lemma FieldIsShallow(f: Format)
    requires f in {Int(1), Int(2), Int(4), CString, ByteN, VarByteN, Array(Int(2)), Array(Int(4)), Array(VarByteN),
      Repeated(CString)}
             || f == Array(ColumnDescription()) || f == Repeated(Fields([Int(1), CString]))
    ensures Shallow(f)
  {
    FieldsAreShallow([CString, Int(4), Int(2), Int(4), Int(2), Int(4), Int(2)]);
    assert Unrepeated(Fields([CString]));
  }
}
