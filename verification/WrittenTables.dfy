/** Written tables and keywords as they are read: exactly which tables come back, and with what in them. */
module WrittenTables {
  import opened Primitives
  import opened Text
  import Locations
  import XmlText
  import PropertyTypes
  import opened HeaderTree
  import opened HeaderMachine
  import opened HeaderParser
  import opened HeaderDocument
  import opened HeaderTrees
  import opened DocumentContent
  import opened ImageText
  import opened WrittenElements
  import opened CorePieces
  import opened ReadImageText
  import opened TableReader
  import ImageChecks

  // -------------------------------------------------- what a table reads back as

  /** A type whose name is read back: not an aggregate of truth values. */
  predicate IsNamed(kind: PropertyTypes.PropertyType)
  {
    kind != PropertyTypes.Vector(PropertyTypes.Boolean) && kind != PropertyTypes.Matrix(PropertyTypes.Boolean)
  }

  /** A table that a reader takes: fields of types that are read, none twice, and a cell for each in every row. */
  ghost predicate IsReadableTable(t: Table, f: string -> string)
  {
    t.fields != [] && (forall c <- t.fields :: IsNamed(c.kind))
    && (forall i, j :: 0 <= i < j < |t.fields| ==> f(t.fields[i].id) != f(t.fields[j].id))
    && forall row <- t.rows :: |row| == |t.fields|
  }

  /** A cell's attribute, or its character data if it has no attribute and the data is not empty. */
  predicate IsCellRead(read: Cell, c: Cell, f: string -> string)
  {
    read.value == Mapped(f, c.value) && !read.inBlock
    && read.text == if c.value.None? && c.text.Some? && c.text.value != "" then c.text else None
  }

  predicate IsFieldRead(read: Field, c: Field, f: string -> string)
  {
    read == Field(f(c.id), c.kind, Mapped(f, c.format), Mapped(f, c.header))
  }

  /** A table read back, all its fields, rows and cells in order. */
  ghost predicate IsTableRead(read: Table, t: Table, f: string -> string)
  {
    read.id == f(t.id) && read.caption == Mapped(f, t.caption) && read.comment == Mapped(f, t.comment)
    && |read.fields| == |t.fields| && |read.rows| == |t.rows|
    && (forall i :: 0 <= i < |t.fields| ==> IsFieldRead(read.fields[i], t.fields[i], f))
    && forall i :: 0 <= i < |t.rows| ==> IsRowRead(read.rows[i], t.rows[i], f)
  }

  ghost predicate IsRowRead(read: seq<Cell>, row: seq<Cell>, f: string -> string)
  {
    |read| == |row| && forall j :: 0 <= j < |row| ==> IsCellRead(read[j], row[j], f)
  }

  /** What reading an element as a table comes to, in whatever header it stands. */
  ghost predicate YieldsTable(e: Element, t: Table, f: string -> string)
  {
    forall h: Header ::
      (TableOf(h, e).Ok? <==> IsReadableTable(t, f)) && (TableOf(h, e).Ok? ==> IsTableRead(TableOf(h, e).value, t, f))
  }

  // -------------------------------------------------- elements of elements

  /** An element of the format with nothing but elements in it. */
  lemma {:induction false} PlainNodeBuilt(name: string, pairs: seq<(string, string)>, items: seq<Piece>)
    requires PlainPairs(pairs) && ':' !in name && Ordinary(items)
    ensures Meaningful(Node(CoreTag(name, pairs), items))
    ensures Built(Node(CoreTag(name, pairs), items)) == CoreElement(name, pairs, NO_DATA).(children := BuiltAll(items))
  {
    hide CoreTag;
    hide Filled;
    PlainTagReads(name, pairs);
    var e := CoreElement(name, pairs, NO_DATA);
    OrdinaryFills(e, items);
    assert [] + BuiltAll(items) == BuiltAll(items);
  }

  lemma {:induction false} PlainTagReads(name: string, pairs: seq<(string, string)>)
    requires PlainPairs(pairs) && ':' !in name
    ensures TagElement(CoreTag(name, pairs)) == Ok(CoreElement(name, pairs, NO_DATA))
  {
    assert forall i :: 0 <= i < |pairs| ==> PlainKey(pairs[i].0);
    PlainPairsSayNothing(Own(NO_DATA, None), pairs);
    CoreTagReads(name, pairs, NO_DATA);
  }

  lemma {:induction false} PlainLeafBuilt(name: string, pairs: seq<(string, string)>)
    requires PlainPairs(pairs) && ':' !in name
    ensures Meaningful(Leaf(CoreTag(name, pairs)))
    ensures Built(Leaf(CoreTag(name, pairs))) == CoreElement(name, pairs, NO_DATA)
  {
    hide CoreTag;
    PlainTagReads(name, pairs);
  }

  // -------------------------------------------------- keywords

  /** A keyword's element has its name, its value and its comment. */
  lemma {:induction false} KeywordBuilt(k: Keyword)
    ensures var piece := KeywordPiece(k);
      IsElement(piece) && Meaningful(piece) && Built(piece).Is("FITSKeyword")
      && Built(piece).Attr("name") == Some(k.name) && Built(piece).Attr("value") == Some(k.value)
      && Built(piece).Attr("comment") == Some(k.comment)
  {
    hide Lookup;
    hide Built;
    hide Meaningful;
    LookupThree(("name", k.name), ("value", k.value), ("comment", k.comment));
    PlainLeafBuilt("FITSKeyword", [("name", k.name), ("value", k.value), ("comment", k.comment)]);
  }

  // -------------------------------------------------- fields

  function FieldPairs(f: Field): seq<(string, string)>
  {
    [("id", f.id), ("type", PropertyTypes.TypeName(f.kind))] + Given("format", f.format) + Given("header", f.header)
  }

  lemma {:induction false} FieldLookups(f: Field)
    ensures var pairs := FieldPairs(f);
      PlainPairs(pairs) && Lookup(pairs, "id") == Some(f.id)
      && Lookup(pairs, "type") == Some(PropertyTypes.TypeName(f.kind))
      && Lookup(pairs, "format") == f.format && Lookup(pairs, "header") == f.header
  {
    hide PropertyTypes.TypeName;
    hide Given;
    hide Lookup;
    var own := [("id", f.id), ("type", PropertyTypes.TypeName(f.kind))];
    LookupTwo(own[0], own[1]);
    LookupGiven("format", f.format);
    LookupGiven("header", f.header);
    GivenPlain("format", f.format);
    GivenPlain("header", f.header);
    forall key
      ensures Lookup(FieldPairs(f), key) == FirstOf(Lookup(own, key), FirstOf(Lookup(Given("format", f.format), key),
                                                                              Lookup(Given("header", f.header), key)))
    {
      LookupApart(own + Given("format", f.format), Given("header", f.header), key);
      LookupApart(own, Given("format", f.format), key);
    }
  }

  lemma {:induction false} GivenPlain(key: string, text: Option<string>)
    requires PlainKey(key)
    ensures PlainPairs(Given(key, text))
  {
  }

  lemma {:induction false} FieldBuilt(f: Field)
    ensures var piece := FieldPiece(f);
      IsElement(piece) && Meaningful(piece) && Built(piece).Is("Field") && FieldOf(Built(piece)) == TypedField(f)
  {
    hide Lookup;
    hide Built;
    hide Meaningful;
    hide PropertyTypes.TypeName;
    hide PropertyTypes.TypeNamed;
    FieldLookups(f);
    PropertyTypes.TypeReadsBackExactly(f.kind);
    PlainLeafBuilt("Field", FieldPairs(f));
  }

  function TypedField(f: Field): Result<Field> { if IsNamed(f.kind) then Ok(f) else Err(Unsupported) }

  lemma {:induction false} FieldsRead(es: seq<Element>, fields: seq<Field>)
    requires |es| == |fields| && forall i :: 0 <= i < |es| ==> FieldOf(es[i]) == TypedField(fields[i])
    ensures FieldsOf(es) == if forall c <- fields :: IsNamed(c.kind) then Ok(fields) else Err(Unsupported)
  {
    hide FieldOf;
    if es != [] {
      FieldsRead(es[1..], fields[1..]);
      assert fields == [fields[0]] + fields[1..];
    }
  }

  /** Every element in a run of pieces is read, under one name. */
  ghost predicate ReadUnder(pieces: seq<Piece>, name: string)
  {
    forall i :: 0 <= i < |pieces| ==> IsElement(pieces[i]) && Meaningful(pieces[i]) && Built(pieces[i]).Is(name)
  }

  lemma {:induction false} NamedUnder(pieces: seq<Piece>, name: string)
    requires ReadUnder(pieces, name) && name != "Data"
    ensures Ordinary(pieces) && Named(BuiltAll(pieces), name) == BuiltAll(pieces)
    ensures forall other :: other != name ==> Named(BuiltAll(pieces), other) == []
  {
    hide Built;
    hide Meaningful;
    NamedAll(BuiltAll(pieces), name);
    forall other | other != name
      ensures Named(BuiltAll(pieces), other) == []
    {
      NamedNone(BuiltAll(pieces), other);
    }
  }

  /** Fields read back, all of them in order, exactly if each is of a type that is read. */
  lemma {:induction false} FieldsBuilt(fields: seq<Field>)
    ensures ReadUnder(FieldPieces(fields), "Field")
    ensures FieldsOf(BuiltAll(FieldPieces(fields)))
         == if forall c <- fields :: IsNamed(c.kind) then Ok(fields) else Err(Unsupported)
  {
    hide FieldPiece;
    hide FieldOf;
    hide FieldsOf;
    hide Built;
    hide Meaningful;
    var pieces := FieldPieces(fields);
    forall i | 0 <= i < |fields|
      ensures IsElement(pieces[i]) && Meaningful(pieces[i]) && Built(pieces[i]).Is("Field")
      ensures FieldOf(Built(pieces[i])) == TypedField(fields[i])
    {
      FieldBuilt(fields[i]);
    }
    FieldsRead(BuiltAll(pieces), fields);
  }

  // -------------------------------------------------- cells

  /** What a cell's element is read as. */
  function CellBack(c: Cell): Cell
  {
    Cell(c.value, if c.value.None? && c.text.Some? && c.text.value != "" then c.text else None, false)
  }

  lemma {:induction false} TextOfCharacters(text: string)
    requires '\r' !in text
    ensures MeaningfulIn(CharacterPieces(text)) && NoData(CharacterPieces(text))
    ensures TextOf(CharacterPieces(text)) == text
    decreases |text|
  {
    hide XmlText.ResolveEntity;
    if text != "" {
      if IsMarkup(text[0]) {
        MarkupIsCore(text[0]);
        TextOfCharacters(text[1..]);
        hide IsMarkup;
        hide RunLength;
        FirstText(Ref(MarkupName(text[0])), CharacterPieces(text[1..]));
        assert text == [text[0]] + text[1..];
      } else {
        var n := RunLength(text);
        TextOfCharacters(text[n..]);
        hide IsMarkup;
        hide RunLength;
        FirstText(Words(text[..n]), CharacterPieces(text[n..]));
        assert text == text[..n] + text[n..];
      }
    }
  }

  lemma {:induction false} FirstText(first: Piece, rest: seq<Piece>)
    requires !IsElement(first) && Meaningful(first) && MeaningfulIn(rest) && NoData(rest)
    ensures MeaningfulIn([first] + rest) && NoData([first] + rest)
    ensures TextOf([first] + rest) == TextOf([first]) + TextOf(rest)
  {
    var items := [first] + rest;
    assert items[1..] == rest;
    FirstThenRest(CoreElement("", [], NO_DATA), items);
  }

  lemma {:induction false} CellBuilt(c: Cell)
    requires IsLexableCell(c)
    ensures var piece := CellPiece(c);
      IsElement(piece) && Meaningful(piece) && Built(piece).Is("Cell") && CellOf(Built(piece)) == Ok(CellBack(c))
  {
    hide Lookup;
    hide Filled;
    hide CoreTag;
    hide CharacterPieces;
    hide TextOf;
    PlainTagReads("Cell", []);
    if c.value.Some? {
      GivenPlain("value", c.value);
      GivenIs("value", c.value.value);
      LookupGiven("value", c.value);
      PlainTagReads("Cell", [("value", c.value.value)]);
    } else {
      assert Lookup([], "value") == None by {
        LookupLacking([], "value");
      }
      if c.text.Some? {
        TextOfCharacters(c.text.value);
        FilledText(CoreElement("Cell", [], NO_DATA), CharacterPieces(c.text.value));
        KeepsTag(CoreElement("Cell", [], NO_DATA), CharacterPieces(c.text.value));
        assert "" + c.text.value == c.text.value;
      }
    }
  }

  /** Content changes neither an element's name nor its attributes. */
  lemma {:induction false} KeepsTag(e: Element, items: seq<Piece>)
    requires MeaningfulIn(items)
    ensures var full := Filled(e, items);
      full.name == e.name && full.namespace == e.namespace && full.attributes == e.attributes
    decreases |items|
  {
    hide XmlText.ResolveEntity;
    hide Built;
    if items != [] {
      match items[0] {
        case Words(text) => KeepsTag(AppendText(e, text), items[1..]);
        case Ref(name) => KeepsTag(AppendText(e, XmlText.ResolveEntity(name).value), items[1..]);
        case Note => KeepsTag(e, items[1..]);
        case _ => KeepsTag(Adopt(e, Built(items[0])), items[1..]);
      }
    }
  }

  function RowBack(row: seq<Cell>): (read: seq<Cell>)
    ensures |read| == |row|
  {
    seq(|row|, i requires 0 <= i < |row| => CellBack(row[i]))
  }

  lemma {:induction false} CellsRead(es: seq<Element>, row: seq<Cell>)
    requires |es| == |row| && forall i :: 0 <= i < |es| ==> CellOf(es[i]) == Ok(CellBack(row[i]))
    ensures CellsOf(es) == Ok(RowBack(row))
  {
    hide CellOf;
    hide CellBack;
    if es != [] {
      CellsRead(es[1..], row[1..]);
      assert RowBack(row) == [CellBack(row[0])] + RowBack(row[1..]);
    }
  }

  // -------------------------------------------------- rows

  predicate IsLexableRow(row: seq<Cell>) { forall i :: 0 <= i < |row| ==> IsLexableCell(row[i]) }

  lemma {:induction false} RowBuilt(row: seq<Cell>, width: nat)
    requires IsLexableRow(row)
    ensures var piece := Node(CoreTag("Row", []), CellPieces(row));
      Meaningful(piece) && Built(piece).Is("Row")
      && RowOf(Built(piece), width) == if |row| == width then Ok(RowBack(row)) else Err(BadHeader)
  {
    hide CellPiece;
    hide CellOf;
    hide CellsOf;
    hide RowBack;
    hide IsLexableCell;
    hide Built;
    hide Meaningful;
    hide CoreTag;
    var pieces := CellPieces(row);
    forall i | 0 <= i < |row|
      ensures IsElement(pieces[i]) && Meaningful(pieces[i]) && Built(pieces[i]).Is("Cell")
      ensures CellOf(Built(pieces[i])) == Ok(CellBack(row[i]))
    {
      CellBuilt(row[i]);
    }
    NamedUnder(pieces, "Cell");
    CellsRead(BuiltAll(pieces), row);
    PlainNodeBuilt("Row", [], pieces);
  }

  lemma {:induction false} RowsRead(es: seq<Element>, rows: seq<seq<Cell>>, width: nat)
    requires |es| == |rows|
    requires forall i :: 0 <= i < |es| ==>
      RowOf(es[i], width) == if |rows[i]| == width then Ok(RowBack(rows[i])) else Err(BadHeader)
    ensures RowsOf(es, width) == if forall row <- rows :: |row| == width then Ok(RowsBack(rows)) else Err(BadHeader)
  {
    hide RowOf;
    hide RowBack;
    if es != [] {
      RowsRead(es[1..], rows[1..], width);
      assert rows == [rows[0]] + rows[1..];
      assert RowsBack(rows) == [RowBack(rows[0])] + RowsBack(rows[1..]);
    }
  }

  function RowsBack(rows: seq<seq<Cell>>): (read: seq<seq<Cell>>)
    ensures |read| == |rows|
  {
    seq(|rows|, i requires 0 <= i < |rows| => RowBack(rows[i]))
  }

  lemma {:induction false} RowsBuilt(rows: seq<seq<Cell>>, width: nat)
    requires forall i :: 0 <= i < |rows| ==> IsLexableRow(rows[i])
    ensures ReadUnder(RowPieces(rows), "Row")
    ensures RowsOf(BuiltAll(RowPieces(rows)), width)
         == if forall row <- rows :: |row| == width then Ok(RowsBack(rows)) else Err(BadHeader)
  {
    hide IsLexableRow;
    hide CellPieces;
    hide RowOf;
    hide RowsOf;
    hide RowBack;
    hide Built;
    hide Meaningful;
    var pieces := RowPieces(rows);
    forall i | 0 <= i < |rows|
      ensures IsElement(pieces[i]) && Meaningful(pieces[i]) && Built(pieces[i]).Is("Row")
      ensures RowOf(Built(pieces[i]), width) == if |rows[i]| == width then Ok(RowBack(rows[i])) else Err(BadHeader)
    {
      RowBuilt(rows[i], width);
    }
    RowsRead(BuiltAll(pieces), rows, width);
  }

  // -------------------------------------------------- tables

  lemma {:induction false} TableLookups(t: Table)
    ensures var pairs := TableAttributes(t);
      PlainPairs(pairs) && Lookup(pairs, "id") == Some(t.id) && Lookup(pairs, "caption") == t.caption
      && Lookup(pairs, "comment") == t.comment && Lookup(pairs, "rows") == Some(Decimal(|t.rows|))
      && Lookup(pairs, "columns") == Some(Decimal(|t.fields|))
  {
    hide Decimal;
    hide Given;
    hide Lookup;
    var own, size := [("id", t.id)], [("rows", Decimal(|t.rows|)), ("columns", Decimal(|t.fields|))];
    GivenIs("id", t.id);
    LookupGiven("id", Some(t.id));
    LookupTwo(size[0], size[1]);
    LookupGiven("caption", t.caption);
    LookupGiven("comment", t.comment);
    GivenPlain("caption", t.caption);
    GivenPlain("comment", t.comment);
    forall key
      ensures Lookup(TableAttributes(t), key)
           == FirstOf(Lookup(own, key), FirstOf(Lookup(Given("caption", t.caption), key),
                                                FirstOf(Lookup(Given("comment", t.comment), key), Lookup(size, key))))
    {
      LookupApart(own + Given("caption", t.caption) + Given("comment", t.comment), size, key);
      LookupApart(own + Given("caption", t.caption), Given("comment", t.comment), key);
      LookupApart(own, Given("caption", t.caption), key);
    }
  }

  lemma {:induction false} CountKept(n: nat)
    requires n < U64_LIMIT
    ensures CountFault(Some(Decimal(n)), n) == None
  {
    Locations.DigitRunsAreTight(n, 10);
    Locations.TrimTight(Decimal(n));
    ParsePrintedU64(n);
  }

  lemma {:induction false} StructureBuilt(fields: seq<Field>)
    ensures var piece := Node(CoreTag("Structure", []), FieldPieces(fields));
      Meaningful(piece) && Built(piece).Is("Structure")
      && (StructureOf(Built(piece)).Ok? <==>
            fields != [] && (forall c <- fields :: IsNamed(c.kind)) && DistinctFields(fields))
      && (StructureOf(Built(piece)).Ok? ==> StructureOf(Built(piece)).value == fields)
  {
    hide FieldPieces;
    hide FieldsOf;
    hide Built;
    hide Meaningful;
    hide CoreTag;
    FieldsBuilt(fields);
    NamedUnder(FieldPieces(fields), "Field");
    PlainNodeBuilt("Structure", [], FieldPieces(fields));
  }

  lemma {:induction false} TableParts(t: Table)
    requires IsLexableTable(t)
    ensures Meaningful(TablePiece(t)) && Built(TablePiece(t)).Is("Table")
    ensures Built(TablePiece(t)).attributes == TableAttributes(t)
    ensures Named(Built(TablePiece(t)).children, "Reference") == []
    ensures var structure := Node(CoreTag("Structure", []), FieldPieces(t.fields));
      Meaningful(structure) && Named(Built(TablePiece(t)).children, "Structure") == [Built(structure)]
    ensures ReadUnder(RowPieces(t.rows), "Row")
    ensures Named(Built(TablePiece(t)).children, "Row") == BuiltAll(RowPieces(t.rows))
  {
    hide FieldPieces;
    hide StructureOf;
    hide TableAttributes;
    hide RowPieces;
    hide Built;
    hide Meaningful;
    hide CoreTag;
    hide Named;
    hide RowsOf;
    hide Lookup;
    var structure, rows := [Node(CoreTag("Structure", []), FieldPieces(t.fields))], RowPieces(t.rows);
    StructureBuilt(t.fields);
    RowsBuilt(t.rows, 0);
    TableLookups(t);
    NamedUnder(structure, "Structure");
    NamedUnder(rows, "Row");
    BuiltAllConcat(structure, rows);
    PlainNodeBuilt("Table", TableAttributes(t), structure + rows);
    assert BuiltAll(structure) == [Built(structure[0])];
    forall name
      ensures Named(Built(TablePiece(t)).children, name)
           == Named(BuiltAll(structure), name) + Named(BuiltAll(rows), name)
    {
      NamedConcat(BuiltAll(structure), BuiltAll(rows), name);
    }
  }

  lemma {:induction false} BackIsRead(t: Table)
    ensures IsTableRead(Table(t.id, t.caption, t.comment, t.fields, RowsBack(t.rows)), t, Same)
    ensures IsReadableTable(t, Same) <==>
      t.fields != [] && (forall c <- t.fields :: IsNamed(c.kind)) && DistinctFields(t.fields)
      && forall row <- t.rows :: |row| == |t.fields|
  {
    hide IsNamed;
    forall i | 0 <= i < |t.rows|
      ensures IsRowRead(RowsBack(t.rows)[i], t.rows[i], Same)
    {
    }
  }

  /** Exactly which written tables come back, in whatever header, and as what. */
  lemma {:induction false} TableReadsExactly(t: Table, h: Header)
    requires IsLexableTable(t) && |t.fields| < U64_LIMIT && |t.rows| < U64_LIMIT
    ensures Meaningful(TablePiece(t)) && Built(TablePiece(t)).Is("Table")
    ensures var r := TableOf(h, Built(TablePiece(t)));
      (r.Ok? <==> IsReadableTable(t, Same)) && (r.Ok? ==> IsTableRead(r.value, t, Same))
  {
    hide FieldPieces;
    hide StructureOf;
    hide TableAttributes;
    hide RowPieces;
    hide TablePiece;
    hide IsLexableTable;
    hide Built;
    hide Meaningful;
    hide CoreTag;
    hide Named;
    hide RowsOf;
    hide RowsBack;
    hide Lookup;
    hide CountFault;
    hide DistinctFields;
    hide IsNamed;
    hide IsTableRead;
    BackIsRead(t);
    hide IsReadableTable;
    TableParts(t);
    TableLookups(t);
    StructureBuilt(t.fields);
    LexableRows(t);
    RowsBuilt(t.rows, |t.fields|);
    CountKept(|t.rows|);
    CountKept(|t.fields|);
  }

  lemma {:induction false} LexableRows(t: Table)
    requires IsLexableTable(t)
    ensures forall i :: 0 <= i < |t.rows| ==> IsLexableRow(t.rows[i])
  {
  }

  // -------------------------------------------------- cells that do not come back

  /**
    What a cell says comes back exactly unless it has both an attribute and other character data, which the
    writer leaves out although a reader would take it first, or has empty character data and no attribute.
   */
  lemma {:induction false} CellTextExactly(read: Cell, c: Cell)
    requires IsCellRead(read, c, Same) && !c.inBlock
    ensures TextOfCell(read) == TextOfCell(c) <==>
      c.text.None? || c.text == c.value || (c.value.None? && c.text != Some(""))
  {
  }

  /** A cell whose attribute is read in place of its text, and one that is read as having none. */
  lemma {:induction false} CellsLost()
    ensures TextOfCell(CellBack(Cell(Some("1"), Some("2"), false))) == Some("1")
    ensures TextOfCell(Cell(Some("1"), Some("2"), false)) == Some("2")
    ensures TextOfCell(CellBack(Cell(None, Some(""), false))) == None
  {
  }

  /** A table with two fields of one name, which is accepted and written and which no reader takes. */
  lemma {:induction false} TwinFields() returns (t: Table)
    ensures ImageChecks.TableFault(t) == None && !IsReadableTable(t, Same)
  {
    var twin := Field("a", PropertyTypes.Single(PropertyTypes.Int32), None, None);
    t := Table("t", None, None, [twin, twin], []);
    SplitSingle("a", ':');
    SplitSingle("t", ':');
    assert t.fields[0].id == t.fields[1].id;
  }
}
