/** Reading a table property: its structure, wherever that is, and the rows under it. */
module TableReader {
  import opened Primitives
  import opened Text
  import opened HeaderTree
  import opened HeaderParser
  import AttributeGrammar
  import PropertyTypes
  import opened ImageText

  // -------------------------------------------------- fields and cells

  function FieldOf(e: Element): Result<Field>
  {
    if e.name != "Field" then Err(InvalidArgument)
    else
      match (e.Attr("id"), e.Attr("type"))
      case (None, _) => Err(BadHeader)
      case (_, None) => Err(BadHeader)
      case (Some(id), Some(name)) =>
        var kind :- PropertyTypes.TypeNamed(name);
        Ok(Field(id, kind, e.Attr("format"), e.Attr("header")))
  }

  function FieldsOf(es: seq<Element>): (r: Result<seq<Field>>)
    ensures r.Ok? ==> |r.value| == |es|
  {
    if es == [] then Ok([])
    else
      var first :- FieldOf(es[0]);
      var rest :- FieldsOf(es[1..]);
      Ok([first] + rest)
  }

  predicate DistinctFields(fields: seq<Field>)
  {
    forall i, j :: 0 <= i < j < |fields| ==> fields[i].id != fields[j].id
  }

  function StructureOf(e: Element): Result<seq<Field>>
  {
    if e.name != "Structure" then Err(InvalidArgument)
    else
      var fields :- FieldsOf(Named(e.children, "Field"));
      if fields == [] || !DistinctFields(fields) then Err(BadHeader) else Ok(fields)
  }

  method ParseStructure(e: Element) returns (r: Result<seq<Field>>)
    ensures r == StructureOf(e)
  {
    if e.name != "Structure" {
      return Err(InvalidArgument);
    }
    var fields := FieldsOf(Named(e.children, "Field"));
    if fields.Err? || fields.value == [] {
      return if fields.Err? then fields else Err(BadHeader);
    }
    for index := 0 to |fields.value|
      invariant DistinctFields(fields.value[..index])
    {
      if exists earlier <- fields.value[..index] :: earlier.id == fields.value[index].id {
        return Err(BadHeader);
      }
    }
    assert fields.value[..|fields.value|] == fields.value;
    return fields;
  }

  function CellOf(e: Element): Result<Cell>
  {
    if e.name != "Cell" then Err(InvalidArgument) else Ok(Cell(e.Attr("value"), e.data.text, e.data.location.Some?))
  }

  function CellsOf(es: seq<Element>): (r: Result<seq<Cell>>)
    ensures r.Ok? ==> |r.value| == |es|
  {
    if es == [] then Ok([])
    else
      var first :- CellOf(es[0]);
      var rest :- CellsOf(es[1..]);
      Ok([first] + rest)
  }

  /** A cell's value as text, if the header has it: character data before an attribute. */
  function TextOfCell(c: Cell): Option<string>
  {
    if c.inBlock then None else if c.text.Some? then c.text else c.value
  }

  // -------------------------------------------------- rows

  /** One row, as wide as the structure. */
  function RowOf(e: Element, width: nat): Result<seq<Cell>>
  {
    var cells :- CellsOf(Named(e.children, "Cell"));
    if |cells| != width then Err(BadHeader) else Ok(cells)
  }

  function RowsOf(es: seq<Element>, width: nat): (r: Result<seq<seq<Cell>>>)
    ensures r.Ok? ==> |r.value| == |es|
  {
    if es == [] then Ok([])
    else
      var first :- RowOf(es[0], width);
      var rest :- RowsOf(es[1..], width);
      Ok([first] + rest)
  }

  /** A count that a table may declare and then has to keep. */
  function CountFault(text: Option<string>, count: nat): Option<ErrorKind>
  {
    if text.None? then None
    else
      match ParseU64(Trim(text.value))
      case Err(_) => Some(BadAttribute)
      case Ok(declared) => if declared != count then Some(BadHeader) else None
  }

  // -------------------------------------------------- tables

  function TableOf(h: Header, e: Element): Result<Table>
  {
    if e.name != "Table" then Err(InvalidArgument)
    else if e.Attr("id").None? then Err(BadHeader)
    else
      var structures := AssociatedWith(h, e, "Structure");
      if structures == [] then Err(BadHeader)
      else
        var fields :- StructureOf(structures[0]);
        var rows :- RowsOf(Named(e.children, "Row"), |fields|);
        match (CountFault(e.Attr("rows"), |rows|), CountFault(e.Attr("columns"), |fields|))
        case (Some(fault), _) => Err(fault)
        case (_, Some(fault)) => Err(fault)
        case _ => Ok(Table(e.Attr("id").value, e.Attr("caption"), e.Attr("comment"), fields, rows))
  }

  /** The loop over a table's rows. */
  method ParseRows(es: seq<Element>, width: nat) returns (r: Result<seq<seq<Cell>>>)
    ensures r == RowsOf(es, width)
  {
    hide RowOf;
    var rows: seq<seq<Cell>> := [];
    assert es[0..] == es;
    PrefixedNothing(RowsOf(es, width));
    for i := 0 to |es|
      invariant Prefixed(rows, RowsOf(es[i..], width)) == RowsOf(es, width)
    {
      assert es[i..][1..] == es[i + 1..];
      var row := RowOf(es[i], width);
      if row.Err? {
        return Err(row.kind);
      }
      PrefixedTwice(rows, [row.value], RowsOf(es[i + 1..], width));
      rows := rows + [row.value];
    }
    assert rows + [] == rows;
    return Ok(rows);
  }

  method ParseTable(h: Header, e: Element) returns (r: Result<Table>)
    ensures r == TableOf(h, e)
  {
    if e.name != "Table" {
      return Err(InvalidArgument);
    }
    var id := e.Attr("id");
    if id.None? {
      return Err(BadHeader);
    }
    var structures := Associated(h, e, "Structure");
    if structures == [] {
      return Err(BadHeader);
    }
    var fields := ParseStructure(structures[0]);
    if fields.Err? {
      return Err(fields.kind);
    }
    var rows := ParseRows(Named(e.children, "Row"), |fields.value|);
    if rows.Err? {
      return Err(rows.kind);
    }
    var fault := CountFault(e.Attr("rows"), |rows.value|);
    if fault.Some? {
      return Err(fault.value);
    }
    fault := CountFault(e.Attr("columns"), |fields.value|);
    if fault.Some? {
      return Err(fault.value);
    }
    return Ok(Table(id.value, e.Attr("caption"), e.Attr("comment"), fields.value, rows.value));
  }

  // -------------------------------------------------- what every table that is read has

  ghost predicate IsCount(text: Option<string>, count: nat)
  {
    text.Some? ==> exists core :: IsPadded(text.value, core) && Numbers(core, count)
  }

  lemma {:induction false} CountKeptExactly(text: Option<string>, count: nat)
    requires count < U64_LIMIT
    ensures CountFault(text, count) == None <==> IsCount(text, count)
  {
    if text.Some? {
      AttributeGrammar.NumberReads(text.value, count);
    }
  }

  lemma {:induction false} RowsAreWide(es: seq<Element>, width: nat)
    ensures RowsOf(es, width).Ok? ==> forall row <- RowsOf(es, width).value :: |row| == width
  {
    hide CellsOf;
    if es != [] {
      RowsAreWide(es[1..], width);
    }
  }

  /**
    Every table that is read has fields, no two under one identifier, a cell for each in every row, and as many
    rows and columns as its element says, if that says.
   */
  lemma {:induction false} TakenIsSound(h: Header, e: Element)
    ensures TableOf(h, e).Ok? ==>
      var t := TableOf(h, e).value;
      e.name == "Table" && e.Attr("id") == Some(t.id) && e.Attr("caption") == t.caption
      && e.Attr("comment") == t.comment && t.fields != [] && DistinctFields(t.fields)
      && (forall row <- t.rows :: |row| == |t.fields|) && |t.rows| == |Named(e.children, "Row")|
      && (|t.rows| < U64_LIMIT ==> IsCount(e.Attr("rows"), |t.rows|))
      && (|t.fields| < U64_LIMIT ==> IsCount(e.Attr("columns"), |t.fields|))
  {
    hide FieldsOf;
    hide RowsOf;
    hide Lookup;
    hide Named;
    hide CountFault;
    hide IsCount;
    if TableOf(h, e).Ok? {
      var t := TableOf(h, e).value;
      RowsAreWide(Named(e.children, "Row"), |t.fields|);
      if |t.rows| < U64_LIMIT {
        CountKeptExactly(e.Attr("rows"), |t.rows|);
      }
      if |t.fields| < U64_LIMIT {
        CountKeptExactly(e.Attr("columns"), |t.fields|);
      }
    }
  }
}
