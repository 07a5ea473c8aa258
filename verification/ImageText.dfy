/** What an image says about itself, its keywords and its tables, and the text each is written as. */
module ImageText {
  import opened Primitives
  import opened Text
  import Literals
  import PropertyTypes
  import opened PlanarSamples
  import opened HeaderDocument
  import opened HeaderTrees

  // -------------------------------------------------- what an image declares

  datatype SampleFormat = UInt8 | UInt16 | UInt32 | UInt64 | Float32 | Float64 | Complex32 | Complex64

  function FormatName(format: SampleFormat): string
  {
    match format
    case UInt8 => "UInt8"
    case UInt16 => "UInt16"
    case UInt32 => "UInt32"
    case UInt64 => "UInt64"
    case Float32 => "Float32"
    case Float64 => "Float64"
    case Complex32 => "Complex32"
    case Complex64 => "Complex64"
  }

  /** How many bytes one sample takes; a complex one is two numbers. */
  function SampleSize(format: SampleFormat): nat
  {
    match format
    case UInt8 => 1
    case UInt16 => 2
    case UInt32 => 4
    case Float32 => 4
    case UInt64 => 8
    case Float64 => 8
    case Complex32 => 8
    case Complex64 => 16
  }

  /** A format's name has the bits of one number, of which a complex sample has two. */
  lemma {:induction false} NamesSayBits(format: SampleFormat)
    ensures var (kind, numbers) := match format
        case UInt8 | UInt16 | UInt32 | UInt64 => ("UInt", 1)
        case Float32 | Float64 => ("Float", 1)
        case Complex32 | Complex64 => ("Complex", 2);
      FormatName(format) == kind + Decimal(8 * SampleSize(format) / numbers)
  {
    assert Decimal(16) == Decimal(1) + "6" && Decimal(32) == Decimal(3) + "2" && Decimal(64) == Decimal(6) + "4";
  }

  predicate NeedsBounds(format: SampleFormat) { format == Float32 || format == Float64 }

  datatype ColourSpace = Gray | Rgb | CieLab

  function ColourName(space: ColourSpace): string
  {
    match space
    case Gray => "Gray"
    case Rgb => "RGB"
    case CieLab => "CIELab"
  }

  function StorageName(storage: PixelStorage): string { if storage == Planar then "Planar" else "Normal" }

  /** A turn in degrees, and then perhaps a flip. */
  datatype Orientation = Orientation(rotation: int, flip: bool)

  function OrientationText(o: Orientation): string
  {
    if o == Orientation(0, true) then "flip" else Literals.IntegerText(o.rotation) + if o.flip then ";flip" else ""
  }

  /** The geometry an image declares, and the bytes each of its samples takes. */
  datatype Shape = Shape(dimensions: seq<u64>, channels: u64, sampleSize: nat)

  /** What an image declares. Bounds and offset are given as they are spelled, and the kind by its name. */
  datatype Image = Image(
    dimensions: seq<u64>,
    channels: u64,
    format: SampleFormat,
    colour: ColourSpace,
    storage: PixelStorage,
    bounds: Option<string>,
    id: Option<string>,
    kind: Option<string>,
    uuid: Option<string>,
    offset: Option<string>,
    orientation: Option<Orientation>)

  function ShapeOf(image: Image): Shape { Shape(image.dimensions, image.channels, SampleSize(image.format)) }

  /** One attribute, or none. */
  function Given(key: string, text: Option<string>): seq<(string, string)>
  {
    if text.Some? then [(key, text.value)] else []
  }

  function Same(text: string): string { text }

  function Mapped(f: string -> string, text: Option<string>): Option<string>
  {
    if text.Some? then Some(f(text.value)) else None
  }

  /** An image with its texts put through a function. */
  function WithTexts(image: Image, f: string -> string): Image
  {
    image.(bounds := Mapped(f, image.bounds), id := Mapped(f, image.id), kind := Mapped(f, image.kind),
           uuid := Mapped(f, image.uuid), offset := Mapped(f, image.offset))
  }

  function OrientationGiven(o: Option<Orientation>): Option<string>
  {
    if o.Some? then Some(OrientationText(o.value)) else None
  }

  /** The attributes that say how samples are stored. */
  function StorageAttributes(image: Image): seq<(string, string)>
  {
    [("sampleFormat", FormatName(image.format)), ("colorSpace", ColourName(image.colour)),
     ("pixelStorage", StorageName(image.storage))]
  }

  /** The attributes of an image's element between its geometry and its block's. */
  function DeclaredAttributes(image: Image): seq<(string, string)>
  {
    StorageAttributes(image) + Given("bounds", image.bounds) + Given("id", image.id) + Given("imageType", image.kind)
    + Given("uuid", image.uuid) + Given("offset", image.offset)
    + Given("orientation", OrientationGiven(image.orientation))
  }

  /** Those of a thumbnail's, which has no bounds and leaves out an orientation that changes nothing. */
  function PreviewAttributes(image: Image): seq<(string, string)>
  {
    StorageAttributes(image) + Given("id", image.id) + Given("uuid", image.uuid) + Given("imageType", image.kind)
    + Given("offset", image.offset)
    + Given("orientation", OrientationGiven(ShownOrientation(image)))
  }

  function ShownOrientation(image: Image): Option<Orientation>
  {
    if image.orientation == Some(Orientation(0, false)) then None else image.orientation
  }

  // -------------------------------------------------- character data

  predicate IsMarkup(c: char) { c == '&' || c == '<' || c == '>' }

  function MarkupName(c: char): string
  {
    if c == '&' then "amp" else if c == '<' then "lt" else "gt"
  }

  /** How far text runs without a character that has to be escaped. */
  function RunLength(text: string): (n: nat)
    ensures n <= |text|
    ensures forall i :: 0 <= i < n ==> !IsMarkup(text[i])
    ensures n < |text| ==> IsMarkup(text[n])
  {
    if text == "" || IsMarkup(text[0]) then 0 else 1 + RunLength(text[1..])
  }

  /** Character data as a lexer takes it apart: runs of text, and a reference for each escaped character. */
  function CharacterPieces(text: string): seq<Piece>
    decreases |text|
  {
    if text == "" then []
    else if IsMarkup(text[0]) then [Ref(MarkupName(text[0]))] + CharacterPieces(text[1..])
    else [Words(text[..RunLength(text)])] + CharacterPieces(text[RunLength(text)..])
  }

  // -------------------------------------------------- keywords and tables

  datatype Keyword = Keyword(name: string, value: string, comment: string)

  function KeywordPiece(k: Keyword): Piece
  {
    Leaf(CoreTag("FITSKeyword", [("name", k.name), ("value", k.value), ("comment", k.comment)]))
  }

  datatype Field = Field(id: string, kind: PropertyTypes.PropertyType, format: Option<string>, header: Option<string>)

  /** A cell's value, as an attribute or as character data, unless it is in a data block of its own. */
  datatype Cell = Cell(value: Option<string>, text: Option<string>, inBlock: bool)

  datatype Table = Table(
    id: string, caption: Option<string>, comment: Option<string>, fields: seq<Field>, rows: seq<seq<Cell>>)

  function FieldPiece(f: Field): Piece
  {
    Leaf(CoreTag("Field", [("id", f.id), ("type", PropertyTypes.TypeName(f.kind))]
                          + Given("format", f.format) + Given("header", f.header)))
  }

  function CellPiece(c: Cell): Piece
  {
    if c.value.Some? then Leaf(CoreTag("Cell", [("value", c.value.value)]))
    else if c.text.Some? then Node(CoreTag("Cell", []), CharacterPieces(c.text.value))
    else Leaf(CoreTag("Cell", []))
  }

  function FieldPieces(fields: seq<Field>): (pieces: seq<Piece>)
    ensures |pieces| == |fields|
  {
    seq(|fields|, i requires 0 <= i < |fields| => FieldPiece(fields[i]))
  }

  function CellPieces(cells: seq<Cell>): (pieces: seq<Piece>)
    ensures |pieces| == |cells|
  {
    seq(|cells|, i requires 0 <= i < |cells| => CellPiece(cells[i]))
  }

  function RowPieces(rows: seq<seq<Cell>>): (pieces: seq<Piece>)
    ensures |pieces| == |rows|
  {
    seq(|rows|, i requires 0 <= i < |rows| => Node(CoreTag("Row", []), CellPieces(rows[i])))
  }

  function TableAttributes(t: Table): seq<(string, string)>
  {
    [("id", t.id)] + Given("caption", t.caption) + Given("comment", t.comment)
    + [("rows", Decimal(|t.rows|)), ("columns", Decimal(|t.fields|))]
  }

  /** A table's structure, and then its rows. */
  function TablePiece(t: Table): Piece
  {
    Node(CoreTag("Table", TableAttributes(t)),
         [Node(CoreTag("Structure", []), FieldPieces(t.fields))] + RowPieces(t.rows))
  }

  function KeywordPieces(keywords: seq<Keyword>): (pieces: seq<Piece>)
    ensures |pieces| == |keywords|
  {
    seq(|keywords|, i requires 0 <= i < |keywords| => KeywordPiece(keywords[i]))
  }

  function TablePieces(tables: seq<Table>): (pieces: seq<Piece>)
    ensures |pieces| == |tables|
  {
    seq(|tables|, i requires 0 <= i < |tables| => TablePiece(tables[i]))
  }

  // -------------------------------------------------- how many elements a table takes

  function CellCount(rows: seq<seq<Cell>>): nat
  {
    if rows == [] then 0 else |rows[0]| + CellCount(rows[1..])
  }

  lemma {:induction false} TextHasNoElements(text: string)
    ensures ElementsIn(CharacterPieces(text)) == 0
    decreases |text|
  {
    if text != "" {
      TextHasNoElements(if IsMarkup(text[0]) then text[1..] else text[RunLength(text)..]);
    }
  }

  lemma {:induction false} OneElementEach(pieces: seq<Piece>)
    requires forall i :: 0 <= i < |pieces| ==> Elements(pieces[i]) == 1
    ensures ElementsIn(pieces) == |pieces|
  {
    if pieces != [] {
      OneElementEach(pieces[1..]);
    }
  }

  lemma {:induction false} CellElements(cells: seq<Cell>)
    ensures ElementsIn(CellPieces(cells)) == |cells|
  {
    var pieces := CellPieces(cells);
    forall i | 0 <= i < |cells|
      ensures Elements(pieces[i]) == 1
    {
      TextHasNoElements(cells[i].text.GetOr(""));
    }
    OneElementEach(pieces);
  }

  lemma {:induction false} RowElements(rows: seq<seq<Cell>>)
    ensures ElementsIn(RowPieces(rows)) == |rows| + CellCount(rows)
  {
    if rows != [] {
      CellElements(rows[0]);
      RowElements(rows[1..]);
      assert RowPieces(rows)[1..] == RowPieces(rows[1..]);
      assert Elements(RowPieces(rows)[0]) == 1 + |rows[0]|;
    }
  }

  /** The table itself, its structure, its fields, its rows and its cells. */
  lemma {:induction false} TableElements(t: Table)
    ensures Elements(TablePiece(t)) == 2 + |t.fields| + |t.rows| + CellCount(t.rows)
  {
    var structure, rows := Node(CoreTag("Structure", []), FieldPieces(t.fields)), RowPieces(t.rows);
    OneElementEach(FieldPieces(t.fields));
    RowElements(t.rows);
    assert ([structure] + rows)[1..] == rows;
    assert ElementsIn([structure] + rows) == Elements(structure) + ElementsIn(rows);
  }
}
